/**
 The per-node logs: ten slots of at most 4096 entries, handed to node ids on first use.
 As values: a list of ids and a list of logs.
 */
module Dlog {
  import opened Limits
  import opened Options

  const MAX_LOG_ENTRIES: nat := 4096

  datatype Item = Item(term: int, text: string)

  /** `ids[s]` owns `logs[s]`; slots without an id are empty. */
  datatype State = State(ids: seq<int>, logs: seq<seq<Item>>)

  ghost predicate StateOk(st: State) {
    && |st.logs| == MAX_NODES && |st.ids| <= MAX_NODES
    && (forall i, j :: 0 <= i < j < |st.ids| ==> st.ids[i] != st.ids[j])
    && (forall s :: 0 <= s < MAX_NODES ==> |st.logs[s]| <= MAX_LOG_ENTRIES)
    && (forall s :: |st.ids| <= s < MAX_NODES ==> st.logs[s] == [])
  }

  function Start(): State {
    State([], seq(MAX_NODES, _ => []))
  }

  function Index(ids: seq<int>, id: int): (i: nat)
    ensures i <= |ids| && (i < |ids| ==> ids[i] == id) && (i == |ids| <==> id !in ids)
  {
    if ids == [] || ids[0] == id then 0 else 1 + Index(ids[1..], id)
  }

  /** The ids after looking up `id`: a new one gets the next free slot while there is one. */
  function Register(ids: seq<int>, id: int): seq<int> {
    if id in ids || |ids| >= MAX_NODES then ids else ids + [id]
  }

  function LogOf(st: State, id: int): seq<Item> {
    var s := Index(st.ids, id);
    if s < |st.ids| && s < |st.logs| then st.logs[s] else []
  }

  /** A log loses its first `n` entries, all of them if it has fewer. */
  function Compacted(log: seq<Item>, n: nat): seq<Item> {
    log[if n < |log| then n else |log|..]
  }

  datatype Op = Append(id: int, term: int, text: Option<string>) | Compact(id: int, n: nat) | Finish

  predicate Accepts(st: State, op: Op) {
    match op
    case Append(id, _, text) => id in Register(st.ids, id) && text.Some? && |LogOf(st, id)| < MAX_LOG_ENTRIES
    case Compact(id, _) => id in Register(st.ids, id)
    case Finish => true
  }

  function SetLog(st: State, id: int, log: seq<Item>): State
    requires id in st.ids && |st.ids| <= |st.logs|
  {
    st.(logs := st.logs[Index(st.ids, id) := log])
  }

  /** One call; even a rejected one may claim a slot for its id. */
  function Apply(st: State, op: Op): State
    requires |st.ids| <= MAX_NODES == |st.logs|
  {
    match op
    case Finish => st.(logs := seq(MAX_NODES, _ => []))
    case Append(id, term, text) =>
      var reg := st.(ids := Register(st.ids, id));
      if Accepts(st, op) then SetLog(reg, id, LogOf(st, id) + [Item(term, text.value)]) else reg
    case Compact(id, n) =>
      var reg := st.(ids := Register(st.ids, id));
      if Accepts(st, op) then SetLog(reg, id, Compacted(LogOf(st, id), n)) else reg
  }

  // ---- Laws ----

  lemma {:induction false} IndexStays(ids: seq<int>, more: seq<int>, id: int)
    requires id in ids
    ensures Index(ids + more, id) == Index(ids, id)
  {
    if ids[0] != id {
      assert (ids + more)[1..] == ids[1..] + more;
      IndexStays(ids[1..], more, id);
    }
  }

  lemma {:induction false} IndexOfNew(ids: seq<int>, id: int)
    requires id !in ids
    ensures Index(ids + [id], id) == |ids|
  {
    if ids != [] {
      assert (ids + [id])[1..] == ids[1..] + [id];
      IndexOfNew(ids[1..], id);
    }
  }

  /** Claiming a slot changes no log. */
  lemma RegisterKeepsLogs(st: State, id: int, other: int)
    requires StateOk(st)
    ensures StateOk(st.(ids := Register(st.ids, id)))
    ensures LogOf(st.(ids := Register(st.ids, id)), other) == LogOf(st, other)
  {
    var ids := Register(st.ids, id);
    if ids != st.ids {
      if other in st.ids {
        IndexStays(st.ids, [id], other);
      } else if other == id {
        IndexOfNew(st.ids, id);
      }
    }
  }

  lemma SetLogOf(st: State, id: int, log: seq<Item>, other: int)
    requires StateOk(st) && id in st.ids && |log| <= MAX_LOG_ENTRIES
    ensures StateOk(SetLog(st, id, log))
    ensures LogOf(SetLog(st, id, log), other) == if other == id then log else LogOf(st, other)
  {}

  /** What one call does to the log of any id: its own effect, or none at all. */
  function Effect(st: State, op: Op, id: int): seq<Item> {
    if op.Finish? then []
    else if op.id != id || !Accepts(st, op) then LogOf(st, id)
    else if op.Append? then LogOf(st, id) + [Item(op.term, op.text.value)]
    else Compacted(LogOf(st, id), op.n)
  }

  /**
   A call keeps the table well-formed, never moves or drops a slot, and changes the log of
   its own id only.
   */
  lemma ApplyLaws(st: State, op: Op, id: int)
    requires StateOk(st)
    ensures StateOk(Apply(st, op)) && st.ids <= Apply(st, op).ids
    ensures LogOf(Apply(st, op), id) == Effect(st, op, id)
  {
    match op
    case Finish =>
    case Append(x, term, text) =>
      RegisterKeepsLogs(st, x, id);
      RegisterKeepsLogs(st, x, x);
      if Accepts(st, op) {
        SetLogOf(st.(ids := Register(st.ids, x)), x, LogOf(st, x) + [Item(term, text.value)], id);
      }
    case Compact(x, n) =>
      RegisterKeepsLogs(st, x, id);
      RegisterKeepsLogs(st, x, x);
      if Accepts(st, op) {
        SetLogOf(st.(ids := Register(st.ids, x)), x, Compacted(LogOf(st, x), n), id);
      }
  }

  /**
   An entry is appended if and only if it has a text, its log has at most 4095 entries, and its id has a slot
   or there is one of ten left; and an id gets a slot whenever there is one.
   */
  lemma AppendedExactly(st: State, id: int, term: int, text: Option<string>)
    requires StateOk(st)
    ensures var st' := Apply(st, Append(id, term, text));
      && (|LogOf(st', id)| == |LogOf(st, id)| + 1
          <==> text.Some? && |LogOf(st, id)| <= 4095 && (id in st.ids || |st.ids| <= 9))
      && (id in st'.ids <==> id in st.ids || |st.ids| <= 9)
  {
    ApplyLaws(st, Append(id, term, text), id);
  }

  /** Where an accepted call finds its log, once its id has a slot. */
  lemma SlotOfLog(st: State, id: int)
    requires StateOk(st) && id in Register(st.ids, id)
    ensures var s := Index(Register(st.ids, id), id); s < MAX_NODES && LogOf(st, id) == st.logs[s]
  {
    RegisterKeepsLogs(st, id, id);
  }

  /** Compacting by `a` and then by `b` is compacting by `a + b`. */
  lemma CompactTwice(log: seq<Item>, a: nat, b: nat)
    ensures Compacted(Compacted(log, a), b) == Compacted(log, a + b)
  {}

  // ---- Whole runs ----

  function Run(st: State, ops: seq<Op>): State
    requires |st.ids| <= MAX_NODES == |st.logs|
    decreases |ops|
  {
    if ops == [] then st else Run(Apply(st, ops[0]), ops[1..])
  }

  lemma {:induction false} RunKeepsOk(st: State, ops: seq<Op>)
    requires StateOk(st)
    ensures StateOk(Run(st, ops)) && st.ids <= Run(st, ops).ids
    decreases |ops|
  {
    if ops != [] {
      ApplyLaws(st, ops[0], 0);
      RunKeepsOk(Apply(st, ops[0]), ops[1..]);
    }
  }

  /** What one call adds to the history of `id`, and how much of it is compacted away afterwards. */
  function Record(st: State, op: Op, id: int, past: seq<Item>, dropped: nat): (seq<Item>, nat) {
    if op.Finish? then (past, |past|)
    else if op.id != id || !Accepts(st, op) then (past, dropped)
    else if op.Append? then (past + [Item(op.term, op.text.value)], dropped)
    else (past, if dropped + op.n <= |past| then dropped + op.n else |past|)
  }

  /** Everything ever appended for `id` during the run, and how much of it was compacted away. */
  function History(st: State, ops: seq<Op>, id: int, past: seq<Item>, dropped: nat): (seq<Item>, nat)
    requires |st.ids| <= MAX_NODES == |st.logs|
    decreases |ops|
  {
    if ops == [] then (past, dropped)
    else
      var (past', dropped') := Record(st, ops[0], id, past, dropped);
      History(Apply(st, ops[0]), ops[1..], id, past', dropped')
  }

  lemma RecordFollows(st: State, op: Op, id: int, past: seq<Item>, dropped: nat)
    requires StateOk(st) && dropped <= |past| && LogOf(st, id) == past[dropped..]
    ensures var (past', dropped') := Record(st, op, id, past, dropped);
      dropped' <= |past'| && past <= past' && LogOf(Apply(st, op), id) == past'[dropped'..]
  {
    ApplyLaws(st, op, id);
    if op.Append? && op.text.Some? {
      var item := Item(op.term, op.text.value);
      assert (past + [item])[dropped..] == past[dropped..] + [item];
    } else if op.Compact? {
      CompactedTail(past, dropped, op.n);
    }
  }

  /** The retained log of every id is its appended history without the compacted prefix. */
  lemma {:induction false} RetainedIsHistory(st: State, ops: seq<Op>, id: int, past: seq<Item>, dropped: nat)
    requires StateOk(st) && dropped <= |past| && LogOf(st, id) == past[dropped..]
    ensures var (all, gone) := History(st, ops, id, past, dropped);
      gone <= |all| && past <= all && LogOf(Run(st, ops), id) == all[gone..]
    decreases |ops|
  {
    if ops != [] {
      var (past', dropped') := Record(st, ops[0], id, past, dropped);
      ApplyLaws(st, ops[0], id);
      RecordFollows(st, ops[0], id, past, dropped);
      RetainedIsHistory(Apply(st, ops[0]), ops[1..], id, past', dropped');
    }
  }

  lemma CompactedTail(past: seq<Item>, dropped: nat, n: nat)
    requires dropped <= |past|
    ensures Compacted(past[dropped..], n) == past[if dropped + n <= |past| then dropped + n else |past|..]
  {}

  lemma LogIsHistory(ops: seq<Op>, id: int)
    ensures var (all, gone) := History(Start(), ops, id, [], 0);
      gone <= |all| && LogOf(Run(Start(), ops), id) == all[gone..]
    ensures StateOk(Run(Start(), ops))
  {
    RetainedIsHistory(Start(), ops, id, [], 0);
    RunKeepsOk(Start(), ops);
  }

  // ---- The key-value shorthand ----

  /** `dlog_put` appends to the log of node id 0. */
  function PutOp(value: string): Op {
    Append(0, 0, Some(value))
  }

  /** `dlog_get` reads the last entry of slot 0, whoever owns it. */
  function GetLast(st: State): Option<string>
    requires |st.logs| == MAX_NODES
  {
    var log := st.logs[0];
    if log == [] then None else Some(log[|log| - 1].text)
  }

  /**
   What was put is what is got, for every value, exactly when slot 0 is or becomes the slot
   of node id 0, that is unless another id claimed it first.
   */
  lemma GetAfterPut(st: State)
    requires StateOk(st) && forall v :: Accepts(st, PutOp(v))
    ensures (forall v :: GetLast(Apply(st, PutOp(v))) == Some(v)) <==> (st.ids == [] || st.ids[0] == 0)
  {
    var ids := Register(st.ids, 0);
    if st.ids == [] || st.ids[0] == 0 {
      forall v ensures GetLast(Apply(st, PutOp(v))) == Some(v) {
        assert Index(ids, 0) == 0;
      }
    } else {
      assert ids[0] == st.ids[0] && Index(ids, 0) > 0;
      var v := match GetLast(st) case None => "" case Some(w) => w + "x";
      assert GetLast(Apply(st, PutOp(v))) == GetLast(st);
      assert GetLast(Apply(st, PutOp(v))) != Some(v) by {
        if GetLast(st).Some? {
          assert |v| == |GetLast(st).value| + 1;
        }
      }
    }
  }
}
