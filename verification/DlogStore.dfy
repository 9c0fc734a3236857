/**
 The logs in place: a fixed table of entries that own duplicated strings on the heap.
 A pointer is a positive number, 0 is null; `heap` holds what is allocated. Freeing requires
 the pointer to be allocated, so no string is ever freed twice, and `Valid` says that the
 allocated strings are exactly those held by one slot each below its entry count. Slots
 above the count may hold stale copies of pointers.
 */
module DlogStore {
  import opened Limits
  import opened Options
  import opened Dlog

  type Pointer = nat

  type Heap = map<Pointer, string>

  datatype LogEntry = LogEntry(term: int, entry: Pointer)

  /** Where a string was put: its slot, and its place in everything ever appended there. */
  datatype Place = Place(slot: nat, serial: nat)

  type Homes = map<Pointer, Place>

  /** Each entry of the log holds its own allocated copy of its text; `base` entries were dropped before. */
  ghost predicate RowOk(heap: Heap, home: Homes, s: nat, base: nat, row: seq<LogEntry>, log: seq<Item>) {
    && |log| <= |row|
    && forall i :: 0 <= i < |log| ==>
         && row[i].term == log[i].term && row[i].entry > 0
         && row[i].entry in heap && heap[row[i].entry] == log[i].text
         && row[i].entry in home && home[row[i].entry] == Place(s, base + i)
  }

  /** The string at `p` is held by the entry its place points to. */
  ghost predicate Held(home: Homes, s: nat, base: nat, row: seq<LogEntry>, n: nat, p: Pointer) {
    && p in home
    && (home[p].slot == s ==>
          base <= home[p].serial < base + n && n <= |row| && row[home[p].serial - base].entry == p)
  }

  ghost predicate AllHeld(heap: Heap, home: Homes, s: nat, base: nat, row: seq<LogEntry>, n: nat) {
    forall p <- heap :: Held(home, s, base, row, n, p)
  }

  /** Freeing took exactly the strings of slot `s` put there before serial number `bound`. */
  ghost predicate Freed(before: Heap, after: Heap, home: Homes, s: nat, bound: nat) {
    && (forall p <- before :: p in home && (p in after <==> !(home[p].slot == s && home[p].serial < bound)))
    && (forall p <- after :: p in before && after[p] == before[p])
  }

  // ---- What the operations do to one row ----

  /** Rows of other slots are untouched by allocating, or by freeing elsewhere. */
  lemma RowElsewhere(heap: Heap, heap': Heap, home: Homes, home': Homes, t: nat, base: nat, row: seq<LogEntry>,
                     log: seq<Item>)
    requires RowOk(heap, home, t, base, row, log) && AllHeld(heap, home, t, base, row, |log|)
    requires forall p <- heap ::
               home[p].slot == t ==> p in heap' && heap'[p] == heap[p] && p in home' && home'[p] == home[p]
    requires forall p <- heap' :: p in home' && (home'[p].slot == t ==> p in heap && home[p] == home'[p])
    ensures RowOk(heap', home', t, base, row, log) && AllHeld(heap', home', t, base, row, |log|)
  {}

  lemma RowAppend(heap: Heap, home: Homes, s: nat, base: nat, row: seq<LogEntry>, log: seq<Item>,
                  p: Pointer, term: int, text: string)
    requires RowOk(heap, home, s, base, row, log) && AllHeld(heap, home, s, base, row, |log|)
    requires |log| < |row| && p > 0 && p !in heap
    ensures var heap', home' := heap[p := text], home[p := Place(s, base + |log|)];
      var row' := row[|log| := LogEntry(term, p)];
      RowOk(heap', home', s, base, row', log + [Item(term, text)])
      && AllHeld(heap', home', s, base, row', |log| + 1)
  {}

  lemma RowDrop(heap: Heap, heap': Heap, home: Homes, s: nat, base: nat, row: seq<LogEntry>, row': seq<LogEntry>,
                log: seq<Item>, n: nat)
    requires RowOk(heap, home, s, base, row, log) && AllHeld(heap, home, s, base, row, |log|)
    requires n <= |log| && |row'| == |row| && row'[..|log| - n] == row[n..|log|]
    requires Freed(heap, heap', home, s, base + n)
    ensures RowOk(heap', home, s, base + n, row', log[n..])
    ensures AllHeld(heap', home, s, base + n, row', |log| - n)
  {
    forall i | 0 <= i < |log| - n
      ensures row'[i].entry in heap' && row'[i].entry in home && home[row'[i].entry] == Place(s, base + n + i)
    {
      assert row'[i] == row'[..|log| - n][i] == row[n..|log|][i] == row[i + n];
    }
  }

  /** The next entry of the row is still allocated, and freeing it extends the freed prefix by one. */
  lemma FreeStep(before: Heap, after: Heap, home: Homes, s: nat, base: nat, row: seq<LogEntry>, log: seq<Item>, i: nat)
    requires SlotOk(before, home, s, base, row, log) && i < |log| && Freed(before, after, home, s, base + i)
    ensures row[i].entry > 0 && row[i].entry in after && Freed(before, after - {row[i].entry}, home, s, base + i + 1)
  {
    forall p <- before ensures p == row[i].entry <==> home[p] == Place(s, base + i) {
      assert Held(home, s, base, row, |log|, p);
    }
  }

  lemma RowBesideDrop(heap: Heap, heap': Heap, home: Homes, s: nat, bound: nat, t: nat, base: nat, row: seq<LogEntry>,
                      log: seq<Item>)
    requires SlotOk(heap, home, t, base, row, log) && Freed(heap, heap', home, s, bound) && s != t
    ensures SlotOk(heap', home, t, base, row, log)
  {
    RowElsewhere(heap, heap', home, home, t, base, row, log);
  }

  ghost predicate SlotOk(heap: Heap, home: Homes, s: nat, base: nat, row: seq<LogEntry>, log: seq<Item>) {
    RowOk(heap, home, s, base, row, log) && AllHeld(heap, home, s, base, row, |log|)
  }

  ghost predicate HeapOk(heap: Heap, home: Homes, brk: Pointer) {
    brk > 0 && forall p <- heap :: p < brk && p in home && home[p].slot < MAX_NODES
  }

  /** The first `k` slots are in order. */
  ghost predicate SlotsOk(heap: Heap, home: Homes, base: seq<nat>, cells: seq<seq<LogEntry>>,
                          logs: seq<seq<Item>>, k: nat)
    requires k <= |base| == |cells| == |logs|
  {
    k == 0 || (SlotOk(heap, home, k - 1, base[k - 1], cells[k - 1], logs[k - 1])
               && SlotsOk(heap, home, base, cells, logs, k - 1))
  }

  lemma {:induction false} SlotIsOk(heap: Heap, home: Homes, base: seq<nat>, cells: seq<seq<LogEntry>>,
                                    logs: seq<seq<Item>>, k: nat, s: nat)
    requires s < k <= |base| == |cells| == |logs| && SlotsOk(heap, home, base, cells, logs, k)
    ensures SlotOk(heap, home, s, base[s], cells[s], logs[s])
  {
    if s < k - 1 {
      SlotIsOk(heap, home, base, cells, logs, k - 1, s);
    }
  }

  lemma {:induction false} SlotsAreOk(heap: Heap, home: Homes, base: seq<nat>, cells: seq<seq<LogEntry>>,
                                      logs: seq<seq<Item>>, k: nat)
    requires k <= |base| == |cells| == |logs|
    requires forall s :: 0 <= s < k ==> SlotOk(heap, home, s, base[s], cells[s], logs[s])
    ensures SlotsOk(heap, home, base, cells, logs, k)
  {
    if k > 0 {
      SlotsAreOk(heap, home, base, cells, logs, k - 1);
    }
  }

  /** All rows are in order, and every allocated string is held by exactly one entry. */
  ghost predicate Coherent(heap: Heap, home: Homes, brk: Pointer, base: seq<nat>, cells: seq<seq<LogEntry>>,
                           logs: seq<seq<Item>>)
  {
    && |base| == |cells| == |logs| == MAX_NODES
    && HeapOk(heap, home, brk)
    && SlotsOk(heap, home, base, cells, logs, |logs|)
  }

  lemma SlotAppend(heap: Heap, home: Homes, brk: Pointer, base: seq<nat>, cells: seq<seq<LogEntry>>,
                   logs: seq<seq<Item>>, s: nat, term: int, text: string, t: nat)
    requires Coherent(heap, home, brk, base, cells, logs) && s < MAX_NODES && |logs[s]| < |cells[s]| && t < MAX_NODES
    ensures SlotOk(heap[brk := text], home[brk := Place(s, base[s] + |logs[s]|)], t, base[t],
                   cells[s := cells[s][|logs[s]| := LogEntry(term, brk)]][t],
                   logs[s := logs[s] + [Item(term, text)]][t])
  {
    SlotIsOk(heap, home, base, cells, logs, |logs|, t);
    if t == s {
      RowAppend(heap, home, s, base[s], cells[s], logs[s], brk, term, text);
    } else {
      RowElsewhere(heap, heap[brk := text], home, home[brk := Place(s, base[s] + |logs[s]|)],
                   t, base[t], cells[t], logs[t]);
    }
  }

  lemma CoherentAppend(heap: Heap, home: Homes, brk: Pointer, base: seq<nat>, cells: seq<seq<LogEntry>>,
                       logs: seq<seq<Item>>, s: nat, term: int, text: string)
    requires Coherent(heap, home, brk, base, cells, logs) && s < MAX_NODES && |logs[s]| < |cells[s]|
    ensures Coherent(heap[brk := text], home[brk := Place(s, base[s] + |logs[s]|)], brk + 1, base,
                     cells[s := cells[s][|logs[s]| := LogEntry(term, brk)]],
                     logs[s := logs[s] + [Item(term, text)]])
  {
    var heap', home' := heap[brk := text], home[brk := Place(s, base[s] + |logs[s]|)];
    var cells' := cells[s := cells[s][|logs[s]| := LogEntry(term, brk)]];
    var logs' := logs[s := logs[s] + [Item(term, text)]];
    var k := 0;
    while k < |logs|
      invariant 0 <= k <= |logs| && SlotsOk(heap', home', base, cells', logs', k)
    {
      SlotAppend(heap, home, brk, base, cells, logs, s, term, text, k);
      k := k + 1;
    }
  }

  lemma SlotDrop(heap: Heap, home: Homes, brk: Pointer, base: seq<nat>, cells: seq<seq<LogEntry>>,
                 logs: seq<seq<Item>>, s: nat, n: nat, heap': Heap, row: seq<LogEntry>, t: nat)
    requires Coherent(heap, home, brk, base, cells, logs) && s < MAX_NODES && n <= |logs[s]| <= |cells[s]|
    requires |row| == |cells[s]| && row[..|logs[s]| - n] == cells[s][n..|logs[s]|]
    requires Freed(heap, heap', home, s, base[s] + n) && t < MAX_NODES
    ensures SlotOk(heap', home, t, base[s := base[s] + n][t], cells[s := row][t], logs[s := logs[s][n..]][t])
  {
    SlotIsOk(heap, home, base, cells, logs, |logs|, t);
    if t == s {
      RowDrop(heap, heap', home, s, base[s], cells[s], row, logs[s], n);
    } else {
      RowBesideDrop(heap, heap', home, s, base[s] + n, t, base[t], cells[t], logs[t]);
    }
  }

  lemma CoherentDrop(heap: Heap, home: Homes, brk: Pointer, base: seq<nat>, cells: seq<seq<LogEntry>>,
                     logs: seq<seq<Item>>, s: nat, n: nat, heap': Heap, row: seq<LogEntry>)
    requires Coherent(heap, home, brk, base, cells, logs) && s < MAX_NODES && n <= |logs[s]| <= |cells[s]|
    requires |row| == |cells[s]| && row[..|logs[s]| - n] == cells[s][n..|logs[s]|]
    requires Freed(heap, heap', home, s, base[s] + n)
    ensures Coherent(heap', home, brk, base[s := base[s] + n], cells[s := row], logs[s := logs[s][n..]])
  {
    var base', cells', logs' := base[s := base[s] + n], cells[s := row], logs[s := logs[s][n..]];
    var k := 0;
    while k < |logs|
      invariant 0 <= k <= |logs| && SlotsOk(heap', home, base', cells', logs', k)
    {
      SlotDrop(heap, home, brk, base, cells, logs, s, n, heap', row, k);
      k := k + 1;
    }
  }

  /** A write above the entry count changes nothing that counts. */
  lemma CoherentStale(heap: Heap, home: Homes, brk: Pointer, base: seq<nat>, cells: seq<seq<LogEntry>>,
                      logs: seq<seq<Item>>, s: nat, e: LogEntry)
    requires Coherent(heap, home, brk, base, cells, logs) && s < MAX_NODES && |logs[s]| < |cells[s]|
    ensures Coherent(heap, home, brk, base, cells[s := cells[s][|logs[s]| := e]], logs)
  {
    var k := 0;
    while k < |logs|
      invariant 0 <= k <= |logs| && SlotsOk(heap, home, base, cells[s := cells[s][|logs[s]| := e]], logs, k)
    {
      SlotIsOk(heap, home, base, cells, logs, |logs|, k);
      k := k + 1;
    }
  }

  /** The entry counts are the lengths of the logs. */
  ghost predicate Sized(sizes: seq<nat>, logs: seq<seq<Item>>) {
    |sizes| == |logs| == MAX_NODES && forall s :: 0 <= s < MAX_NODES ==> sizes[s] == |logs[s]| <= MAX_LOG_ENTRIES
  }

  lemma SizedDrop(sizes: seq<nat>, logs: seq<seq<Item>>, s: nat, n: nat)
    requires Sized(sizes, logs) && s < MAX_NODES && n <= sizes[s]
    ensures Sized(sizes[s := sizes[s] - n], logs[s := logs[s][n..]])
  {}

  /** Entry `i` of slot `s`, below the slot's count, holds the string at `p`. */
  ghost predicate Holds(cells: seq<seq<LogEntry>>, logs: seq<seq<Item>>, s: nat, i: nat, p: Pointer) {
    s < |cells| && s < |logs| && i < |logs[s]| && i < |cells[s]| && cells[s][i].entry == p
  }

  /** Every allocated string is held by exactly one entry below its slot's count. */
  lemma HeldOnce(heap: Heap, home: Homes, brk: Pointer, base: seq<nat>, cells: seq<seq<LogEntry>>, logs: seq<seq<Item>>,
                 p: Pointer)
    requires Coherent(heap, home, brk, base, cells, logs) && p in heap
    ensures exists s, i :: Holds(cells, logs, s, i, p)
    ensures forall s, i, t, j :: Holds(cells, logs, s, i, p) && Holds(cells, logs, t, j, p) ==> s == t && i == j
  {
    var s := home[p].slot;
    SlotIsOk(heap, home, base, cells, logs, |logs|, s);
    assert Held(home, s, base[s], cells[s], |logs[s]|, p);
    assert Holds(cells, logs, s, home[p].serial - base[s], p);
    forall s: nat, i: nat, t: nat, j: nat | Holds(cells, logs, s, i, p) && Holds(cells, logs, t, j, p)
      ensures s == t && i == j
    {
      SlotIsOk(heap, home, base, cells, logs, |logs|, s);
      SlotIsOk(heap, home, base, cells, logs, |logs|, t);
    }
  }

  /** So nothing is allocated for a log that is empty. */
  lemma NoLeak(heap: Heap, home: Homes, brk: Pointer, base: seq<nat>, cells: seq<seq<LogEntry>>, logs: seq<seq<Item>>)
    requires Coherent(heap, home, brk, base, cells, logs)
    ensures forall p <- heap :: p in home && home[p].slot < MAX_NODES && |logs[home[p].slot]| > 0
  {
    forall p <- heap ensures |logs[home[p].slot]| > 0 {
      var s := home[p].slot;
      SlotIsOk(heap, home, base, cells, logs, |logs|, s);
      assert Held(home, s, base[s], cells[s], |logs[s]|, p);
    }
  }

  class LogTable {
    /** One row of entries for each slot. */
    const table: array2<LogEntry>
    const counts: array<nat>
    const nodeIds: array<int>
    var mapCount: nat
    var heap: Heap
    /** The next pointer the allocator hands out. */
    var brk: Pointer

    ghost var logs: seq<seq<Item>>
    /** How many entries each slot has dropped so far. */
    ghost var base: seq<nat>
    ghost var home: Homes
    /** The contents of `table` and `counts`. */
    ghost var cells: seq<seq<LogEntry>>
    ghost var sizes: seq<nat>

    ghost function View(): State
      reads this, nodeIds
      requires mapCount <= nodeIds.Length
    {
      State(nodeIds[..mapCount], logs)
    }

    ghost predicate Shows()
      reads this`cells, this`sizes, table, counts
    {
      && table.Length0 == MAX_NODES == |cells| && table.Length1 == MAX_LOG_ENTRIES
      && (forall s :: 0 <= s < MAX_NODES ==> |cells[s]| == MAX_LOG_ENTRIES)
      && (forall s, i :: 0 <= s < MAX_NODES && 0 <= i < MAX_LOG_ENTRIES ==> table[s, i] == cells[s][i])
      && counts.Length == MAX_NODES == |sizes|
      && (forall s :: 0 <= s < MAX_NODES ==> counts[s] == sizes[s])
    }

    /** The rows, their counts and the heap fit together. */
    ghost predicate RowsOk()
      reads this, table, counts
    {
      Shows() && Coherent(heap, home, brk, base, cells, logs) && Sized(sizes, logs)
    }

    ghost predicate Valid()
      reads this, table, counts, nodeIds
    {
      nodeIds.Length == MAX_NODES && mapCount <= MAX_NODES && RowsOk() && StateOk(View())
    }

    constructor ()
      ensures Valid() && fresh(table) && fresh(counts) && fresh(nodeIds)
      ensures View() == Start() && heap == map[]
    {
      table := new LogEntry[MAX_NODES, MAX_LOG_ENTRIES]((_, _) => LogEntry(0, 0));
      counts := new nat[MAX_NODES](_ => 0);
      nodeIds := new int[MAX_NODES](_ => 0);
      mapCount, heap, brk := 0, map[], 1;
      logs, base, home := seq(MAX_NODES, _ => []), seq(MAX_NODES, _ => 0), map[];
      cells := seq(MAX_NODES, _ => seq(MAX_LOG_ENTRIES, _ => LogEntry(0, 0)));
      sizes := seq(MAX_NODES, _ => 0);
      new;
      SlotsAreOk(heap, home, base, cells, logs, |logs|);
    }

    method SetCell(s: nat, i: nat, e: LogEntry)
      requires Shows() && s < MAX_NODES && i < MAX_LOG_ENTRIES
      modifies this`cells, table
      ensures Shows() && cells == old(cells)[s := old(cells)[s][i := e]]
    {
      table[s, i] := e;
      cells := cells[s := cells[s][i := e]];
    }

    method SetCount(s: nat, n: nat)
      requires Shows() && s < MAX_NODES
      modifies this`sizes, counts
      ensures Shows() && sizes == old(sizes)[s := n]
    {
      counts[s] := n;
      sizes := sizes[s := n];
    }

    /** `rfree`: only an allocated string may be freed. */
    method Free(p: Pointer)
      requires p in heap
      modifies this`heap
      ensures heap == old(heap) - {p}
    {
      heap := heap - {p};
    }

    /** The slot of a node id, claiming a free one for a new id; -1 when all are taken. */
    method GetNodeIndex(id: int) returns (idx: int)
      requires Valid()
      modifies this`mapCount, nodeIds
      ensures Valid() && View() == old(View()).(ids := Register(old(View()).ids, id))
      ensures if id in View().ids then 0 <= idx < MAX_NODES && idx == Index(View().ids, id) else idx == -1
    {
      var i := 0;
      while i < mapCount
        invariant 0 <= i <= mapCount
        invariant id !in nodeIds[..i]
      {
        if nodeIds[i] == id {
          assert nodeIds[..mapCount][..i] == nodeIds[..i];
          IndexIs(nodeIds[..mapCount], id, i);
          return i;
        }
        i := i + 1;
      }
      if mapCount < MAX_NODES {
        idx := mapCount;
        Claim(id);
      } else {
        idx := -1;
      }
    }

    method Claim(id: int)
      requires Valid() && mapCount < MAX_NODES && id !in nodeIds[..mapCount]
      modifies this`mapCount, nodeIds
      ensures Valid() && View() == old(View()).(ids := old(View()).ids + [id])
      ensures Index(View().ids, id) == old(mapCount)
    {
      ghost var ids := nodeIds[..mapCount];
      RegisterKeepsLogs(View(), id, id);
      IndexOfNew(ids, id);
      nodeIds[mapCount] := id;
      mapCount := mapCount + 1;
      assert nodeIds[..mapCount] == ids + [id];
    }

    /** Append a copy of `text`; `allocates` says whether duplicating it succeeds. */
    method AppendEntry(id: int, term: int, text: Option<string>, allocates: bool) returns (ok: bool)
      requires Valid()
      modifies this, table, counts, nodeIds
      ensures Valid()
      ensures ok == (allocates && Accepts(old(View()), Append(id, term, text)))
      ensures View() == if allocates then Apply(old(View()), Append(id, term, text))
                        else old(View()).(ids := Register(old(View()).ids, id))
    {
      ghost var before := View();
      ApplyLaws(before, Append(id, term, text), id);
      var s := GetNodeIndex(id);
      if s < 0 || text.None? {
        return false;
      }
      SlotOfLog(before, id);
      if counts[s] >= MAX_LOG_ENTRIES {
        return false;
      }
      if allocates {
        AppendAt(s, term, text.value);
        ok := true;
      } else {
        CoherentStale(heap, home, brk, base, cells, logs, s, LogEntry(term, 0));
        SetCell(s, counts[s], LogEntry(term, 0));
        ok := false;
      }
    }

    method AppendAt(s: nat, term: int, text: string)
      requires RowsOk() && s < MAX_NODES && sizes[s] < MAX_LOG_ENTRIES
      modifies this`brk, this`heap, this`logs, this`home, this`cells, this`sizes, table, counts
      ensures RowsOk() && logs == old(logs)[s := old(logs)[s] + [Item(term, text)]]
    {
      CoherentAppend(heap, home, brk, base, cells, logs, s, term, text);
      SetCell(s, counts[s], LogEntry(term, brk));
      SetCount(s, counts[s] + 1);
      heap := heap[brk := text];
      home, logs := home[brk := Place(s, base[s] + |logs[s]|)], logs[s := logs[s] + [Item(term, text)]];
      brk := brk + 1;
    }

    /** Free the strings of the first `n` entries of slot `s`, and no others. */
    method FreePrefix(s: nat, n: nat)
      requires RowsOk() && s < MAX_NODES && n <= sizes[s]
      modifies this`heap, this`cells, table
      ensures Shows() && Freed(old(heap), heap, home, s, base[s] + n)
      ensures cells == old(cells)[s := cells[s]] && cells[s][n..] == old(cells)[s][n..]
    {
      ghost var row := cells[s];
      SlotIsOk(heap, home, base, cells, logs, |logs|, s);
      var i := 0;
      while i < n
        invariant 0 <= i <= n && Shows()
        invariant Freed(old(heap), heap, home, s, base[s] + i)
        invariant cells == old(cells)[s := cells[s]] && cells[s][i..] == row[i..]
      {
        assert cells[s][i] == cells[s][i..][0] == row[i];
        assert cells[s][i + 1..] == cells[s][i..][1..] && row[i + 1..] == row[i..][1..];
        FreeStep(old(heap), heap, home, s, base[s], row, logs[s], i);
        var e := table[s, i];
        if e.entry != 0 {
          Free(e.entry);
          SetCell(s, i, LogEntry(e.term, 0));
        }
        i := i + 1;
      }
    }

    /** Move `remaining` entries of slot `s` down by `n`, leaving stale copies behind. */
    method ShiftDown(s: nat, n: nat, remaining: nat)
      requires Shows() && s < MAX_NODES && n + remaining <= MAX_LOG_ENTRIES
      modifies this`cells, table
      ensures Shows() && cells == old(cells)[s := cells[s]]
      ensures cells[s][..remaining] == old(cells)[s][n..n + remaining]
    {
      ghost var row := cells[s];
      var i := 0;
      while i < remaining
        invariant 0 <= i <= remaining && Shows() && cells == old(cells)[s := cells[s]]
        invariant cells[s][..i] == row[n..n + i] && cells[s][i..] == row[i..]
      {
        assert cells[s][i + n] == cells[s][i..][n] == row[i + n];
        assert cells[s][i + 1..] == cells[s][i..][1..] && row[i + 1..] == row[i..][1..];
        ghost var moved := cells[s][..i];
        SetCell(s, i, table[s, i + n]);
        assert cells[s][..i + 1] == moved + [row[i + n]];
        i := i + 1;
      }
    }

    /** Free the first `n` entries of slot `s` and move the others down. */
    method DropPrefix(s: nat, n: nat)
      requires RowsOk() && s < MAX_NODES && n <= sizes[s]
      modifies this`heap, this`cells, this`sizes, table, counts
      ensures Shows() && sizes == old(sizes)[s := old(sizes)[s] - n]
      ensures Freed(old(heap), heap, home, s, base[s] + n)
      ensures cells == old(cells)[s := cells[s]]
      ensures cells[s][..sizes[s]] == old(cells)[s][n..old(sizes)[s]]
    {
      var remaining := counts[s] - n;
      FreePrefix(s, n);
      ghost var freed := cells[s];
      ShiftDown(s, n, remaining);
      SetCount(s, remaining);
      assert freed[n..n + remaining] == freed[n..][..remaining];
      assert old(cells)[s][n..n + remaining] == old(cells)[s][n..][..remaining];
    }

    method CompactAt(s: nat, n: nat)
      requires RowsOk() && s < MAX_NODES && n <= sizes[s]
      modifies this`heap, this`logs, this`base, this`cells, this`sizes, table, counts
      ensures RowsOk() && logs == old(logs)[s := old(logs)[s][n..]]
    {
      SizedDrop(sizes, logs, s, n);
      DropRow(s, n);
      logs, base := logs[s := logs[s][n..]], base[s := base[s] + n];
    }

    /** The row and the heap after the drop fit the shorter log. */
    method DropRow(s: nat, n: nat)
      requires RowsOk() && s < MAX_NODES && n <= sizes[s]
      modifies this`heap, this`cells, this`sizes, table, counts
      ensures Shows() && sizes == old(sizes)[s := old(sizes)[s] - n]
      ensures Coherent(heap, home, brk, base[s := base[s] + n], cells, logs[s := logs[s][n..]])
    {
      ghost var h, rows := heap, cells;
      DropPrefix(s, n);
      CoherentDrop(h, home, brk, base, rows, logs, s, n, heap, cells[s]);
    }

    /** Drop the entries before `upTo`; the C code indexes out of bounds for a negative one. */
    method CompactEntries(id: int, upTo: nat) returns (ok: bool)
      requires Valid()
      modifies this, table, counts, nodeIds
      ensures Valid() && ok == Accepts(old(View()), Compact(id, upTo))
      ensures View() == Apply(old(View()), Compact(id, upTo))
    {
      ghost var before := View();
      ApplyLaws(before, Compact(id, upTo), id);
      var s := GetNodeIndex(id);
      if s < 0 {
        return false;
      }
      SlotOfLog(before, id);
      var n := if upTo > counts[s] then counts[s] else upTo;
      CompactAt(s, n);
      ok := true;
    }

    /** Free everything. */
    method FinishAll()
      requires Valid()
      modifies this`heap, this`logs, this`base, this`cells, this`sizes, table, counts
      ensures Valid() && View() == Apply(old(View()), Finish) && heap == map[]
    {
      for s := 0 to MAX_NODES
        invariant RowsOk() && forall t :: 0 <= t < s ==> logs[t] == []
      {
        CompactAt(s, counts[s]);
      }
      assert logs == seq(MAX_NODES, _ => []);
      NoLeak(heap, home, brk, base, cells, logs);
    }
  }

  lemma {:induction false} IndexIs(ids: seq<int>, id: int, i: nat)
    requires i < |ids| && ids[i] == id && id !in ids[..i]
    ensures Index(ids, id) == i
  {
    if i > 0 {
      assert ids[0] == ids[..i][0] && ids[1..][..i - 1] == ids[..i][1..];
      IndexIs(ids[1..], id, i - 1);
    }
  }
}
