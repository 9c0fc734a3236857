/**
 The reconnect scheduler of the data store: at most once a second a pass over the node slots
 opens one overdue connection, the first in slot order, backing off from slots that keep
 failing. What the network does is an argument of every pass.
 */
module Reconnect {
  import opened Limits
  import opened Options

  const RETRY_INTERVAL: int := 5

  /** The client object of a slot: none, one without a connection, or a connected one. */
  datatype Client = Absent | Idle | Connected

  /** The node ids by slot, and which of them is this node. */
  datatype Members = Members(ids: seq<int>, self: int)

  predicate Peer(m: Members, i: nat) {
    i < |m.ids| && m.ids[i] != -1 && m.ids[i] != m.self
  }

  datatype Sched = Sched(firstRun: bool, lastPass: int, clients: seq<Client>, lastAttempt: seq<int>, attempts: seq<nat>)

  predicate Sized(st: Sched) {
    |st.clients| == |st.lastAttempt| == |st.attempts| == MAX_NODES
  }

  /**
   What happens during one pass: whether a client object for a slot can be made, what becomes of
   a connected one when it is read from, whether the one attempt connects, and what the
   greetings then leave of it.
   */
  datatype Env = Env(made: seq<bool>, ran: seq<Client>, connects: bool, greeted: Client)

  predicate EnvOk(e: Env) {
    |e.made| == |e.ran| == MAX_NODES
  }

  function Backoff(attempts: nat): int {
    if attempts > 10 then RETRY_INTERVAL * 4 else if attempts > 5 then RETRY_INTERVAL * 2 else RETRY_INTERVAL
  }

  function SetClient(st: Sched, i: nat, c: Client): Sched
    requires Sized(st) && i < MAX_NODES
  {
    st.(clients := st.clients[i := c])
  }

  /** The client of slot `i` once the pass has tried to make a missing one. */
  function Made(st: Sched, e: Env, i: nat): Client
    requires Sized(st) && EnvOk(e) && i < MAX_NODES
  {
    if st.clients[i] == Absent && e.made[i] then Idle else st.clients[i]
  }

  predicate Overdue(st: Sched, now: int, i: nat)
    requires Sized(st) && i < MAX_NODES
  {
    now - st.lastAttempt[i] >= Backoff(st.attempts[i])
  }

  function Connect(st: Sched, e: Env, now: int, i: nat): Sched
    requires Sized(st) && i < MAX_NODES
  {
    st.(lastAttempt := st.lastAttempt[i := now],
        attempts := st.attempts[i := if e.connects then 0 else st.attempts[i] + 1],
        clients := st.clients[i := if e.connects then e.greeted else Idle])
  }

  /** The pass from slot `i` on, and the slot it makes its attempt on. */
  function Scan(st: Sched, m: Members, e: Env, now: int, i: nat): (Sched, Option<nat>)
    requires Sized(st) && EnvOk(e) && i <= MAX_NODES
    decreases MAX_NODES - i
  {
    if i == MAX_NODES then (st, None)
    else if !Peer(m, i) then Scan(st, m, e, now, i + 1)
    else
      var c := Made(st, e, i);
      var st' := SetClient(st, i, c);
      if c == Absent then Scan(st', m, e, now, i + 1)
      else if c == Connected then Scan(SetClient(st', i, e.ran[i]), m, e, now, i + 1)
      else if !Overdue(st', now, i) then Scan(st', m, e, now, i + 1)
      else (Connect(st', e, now, i), Some(i))
  }

  /** Between passes connected clients are still read from. */
  function Poll(st: Sched, m: Members, e: Env, i: nat): Sched
    requires Sized(st) && EnvOk(e) && i <= MAX_NODES
    decreases MAX_NODES - i
  {
    if i == MAX_NODES then st
    else if Peer(m, i) && st.clients[i] == Connected then Poll(SetClient(st, i, e.ran[i]), m, e, i + 1)
    else Poll(st, m, e, i + 1)
  }

  /** Whether this tick is a scheduling pass. */
  predicate IsPass(st: Sched, m: Members, now: int) {
    |m.ids| > 1 && !st.firstRun && now - st.lastPass >= 1
  }

  function Tick(st: Sched, m: Members, e: Env, now: int): (Sched, Option<nat>)
    requires Sized(st) && EnvOk(e)
  {
    if |m.ids| <= 1 then (st, None)
    else if st.firstRun then (st.(firstRun := false), None)
    else if now - st.lastPass < 1 then (Poll(st, m, e, 0), None)
    else Scan(st.(lastPass := now), m, e, now, 0)
  }

  // ---- Runs ----

  /** A tick, or the loss of a slot's client between ticks. */
  datatype Event = At(members: Members, env: Env, now: int) | Lost(slot: nat, client: Client)

  predicate EventOk(ev: Event) {
    match ev
    case At(_, e, _) => EnvOk(e)
    case Lost(slot, client) => slot < MAX_NODES && client != Connected
  }

  datatype Attempt = Attempt(slot: nat, at: int, ok: bool)

  function Step(st: Sched, ev: Event): (Sched, seq<Attempt>)
    requires Sized(st) && EventOk(ev)
  {
    match ev
    case Lost(slot, client) => (SetClient(st, slot, client), [])
    case At(m, e, now) =>
      var (st', slot) := Tick(st, m, e, now);
      (st', match slot case None => [] case Some(s) => [Attempt(s, now, e.connects)])
  }

  ghost predicate EventsOk(evs: seq<Event>) {
    forall ev <- evs :: EventOk(ev)
  }

  /** Long enough after a slot's last attempt: 5 seconds, 10 after more than five failures, 20 after more than ten. */
  predicate Apart(seconds: int, failures: nat) {
    seconds >= 5 && (failures > 5 ==> seconds >= 10) && (failures > 10 ==> seconds >= 20)
  }

  /** An attempt on a slot that was due, and only that slot's entries changed. */
  predicate Attempted(before: Sched, after: Sched, at: int, ok: bool, s: nat)
    requires Sized(before)
  {
    && s < MAX_NODES && Apart(at - before.lastAttempt[s], before.attempts[s])
    && after.lastAttempt == before.lastAttempt[s := at]
    && after.attempts == before.attempts[s := if ok then 0 else before.attempts[s] + 1]
  }

  predicate Untouched(before: Sched, after: Sched) {
    after.lastAttempt == before.lastAttempt && after.attempts == before.attempts
  }

  /** What a pass did to the attempt records. */
  predicate ScanOutcome(st: Sched, m: Members, e: Env, now: int, i: nat, st': Sched, slot: Option<nat>)
    requires Sized(st)
  {
    && Sized(st')
    && (slot.None? ==> Untouched(st, st'))
    && (slot.Some? ==> i <= slot.value && Peer(m, slot.value) && Attempted(st, st', now, e.connects, slot.value))
  }

  lemma OutcomeFrom(st: Sched, st1: Sched, m: Members, e: Env, now: int, i: nat, st': Sched, slot: Option<nat>)
    requires Sized(st) && Sized(st1) && Untouched(st, st1) && ScanOutcome(st1, m, e, now, i + 1, st', slot)
    ensures ScanOutcome(st, m, e, now, i, st', slot)
  {}

  /** The state in which a pass that does not stop at slot `i` goes on to the next one. */
  function Passed(st: Sched, m: Members, e: Env, i: nat): (st': Sched)
    requires Sized(st) && EnvOk(e) && i < MAX_NODES
    ensures Sized(st') && Untouched(st, st')
  {
    if !Peer(m, i) then st
    else SetClient(st, i, if Made(st, e, i) == Connected then e.ran[i] else Made(st, e, i))
  }

  predicate Stops(st: Sched, m: Members, e: Env, now: int, i: nat)
    requires Sized(st) && EnvOk(e) && i < MAX_NODES
  {
    Peer(m, i) && Made(st, e, i) == Idle && Overdue(st, now, i)
  }

  lemma ScanStep(st: Sched, m: Members, e: Env, now: int, i: nat)
    requires Sized(st) && EnvOk(e) && i < MAX_NODES
    ensures Scan(st, m, e, now, i) ==
      if Stops(st, m, e, now, i) then (Connect(SetClient(st, i, Idle), e, now, i), Some(i))
      else Scan(Passed(st, m, e, i), m, e, now, i + 1)
  {
    var c := Made(st, e, i);
    assert SetClient(SetClient(st, i, c), i, e.ran[i]) == SetClient(st, i, e.ran[i]);
  }

  lemma {:induction false} ScanLaws(st: Sched, m: Members, e: Env, now: int, i: nat)
    requires Sized(st) && EnvOk(e) && i <= MAX_NODES
    ensures ScanOutcome(st, m, e, now, i, Scan(st, m, e, now, i).0, Scan(st, m, e, now, i).1)
    decreases MAX_NODES - i
  {
    if i < MAX_NODES {
      ScanStep(st, m, e, now, i);
      if !Stops(st, m, e, now, i) {
        var st1 := Passed(st, m, e, i);
        ScanLaws(st1, m, e, now, i + 1);
        OutcomeFrom(st, st1, m, e, now, i, Scan(st1, m, e, now, i + 1).0, Scan(st1, m, e, now, i + 1).1);
      }
    }
  }

  lemma {:induction false} PollLaws(st: Sched, m: Members, e: Env, i: nat)
    requires Sized(st) && EnvOk(e) && i <= MAX_NODES
    ensures var st' := Poll(st, m, e, i);
      Sized(st') && st' == st.(clients := st'.clients)
      && forall s :: 0 <= s < MAX_NODES && st.clients[s] != Connected ==> st'.clients[s] == st.clients[s]
    decreases MAX_NODES - i
  {
    if i < MAX_NODES {
      PollLaws(if Peer(m, i) && st.clients[i] == Connected then SetClient(st, i, e.ran[i]) else st, m, e, i + 1);
    }
  }

  lemma StepLaws(st: Sched, ev: Event)
    requires Sized(st) && EventOk(ev)
    ensures var (st', made) := Step(st, ev);
      && Sized(st')
      && (made == [] ==> Untouched(st, st'))
      && (made != [] ==> |made| == 1 && Attempted(st, st', made[0].at, made[0].ok, made[0].slot))
  {
    if ev.At? {
      ScanLaws(st.(lastPass := ev.now), ev.members, ev.env, ev.now, 0);
      PollLaws(st, ev.members, ev.env, 0);
    }
  }

  /** The scheduler, and every attempt it ever made. */
  datatype History = History(st: Sched, log: seq<Attempt>)

  function Next(h: History, ev: Event): History
    requires Sized(h.st) && EventOk(ev)
  {
    var (st, made) := Step(h.st, ev);
    History(st, h.log + made)
  }

  lemma NextLaws(h: History, ev: Event)
    requires Sized(h.st) && EventOk(ev)
    ensures var h' := Next(h, ev);
      && Sized(h'.st)
      && ((h'.log == h.log && Untouched(h.st, h'.st))
          || exists a :: h'.log == h.log + [a] && Attempted(h.st, h'.st, a.at, a.ok, a.slot))
  {
    StepLaws(h.st, ev);
    var made := Step(h.st, ev).1;
    if made == [] {
      assert h.log + made == h.log;
    } else {
      assert made == [made[0]];
    }
  }

  ghost function Run(h: History, evs: seq<Event>): (h': History)
    requires Sized(h.st) && EventsOk(evs)
    ensures Sized(h'.st)
    decreases |evs|
  {
    if evs == [] then h
    else
      NextLaws(h, evs[0]);
      Run(Next(h, evs[0]), evs[1..])
  }

  // ---- The rate bound ----

  function Fill<T>(x: T): seq<T> {
    [x, x, x, x, x, x, x, x, x, x]
  }

  /** The scheduler at start: no client yet, nothing attempted. */
  function Start(): History {
    History(Sched(true, 0, Fill(Absent), Fill(0), Fill(0)), [])
  }

  /** When slot `s` was last attempted. */
  function LastAt(log: seq<Attempt>, s: nat): Option<int>
    decreases |log|
  {
    if log == [] then None
    else if log[|log| - 1].slot == s then Some(log[|log| - 1].at)
    else LastAt(log[..|log| - 1], s)
  }

  /** The failures of slot `s` since its last success. */
  function Failures(log: seq<Attempt>, s: nat): nat
    decreases |log|
  {
    if log == [] then 0
    else
      var a, before := log[|log| - 1], log[..|log| - 1];
      if a.slot != s then Failures(before, s) else if a.ok then 0 else Failures(before, s) + 1
  }

  /** Every attempt comes long enough after the one before it on the same slot. */
  ghost predicate Spaced(log: seq<Attempt>)
    decreases |log|
  {
    log == [] ||
      var a, before := log[|log| - 1], log[..|log| - 1];
      && Spaced(before)
      && (LastAt(before, a.slot).Some? ==>
            Apart(a.at - LastAt(before, a.slot).value, Failures(before, a.slot)))
  }

  /** The arrays say what the log says. */
  ghost predicate Tracks(st: Sched, log: seq<Attempt>) {
    && Sized(st)
    && forall s :: 0 <= s < MAX_NODES ==> TracksSlot(st, log, s)
  }

  ghost predicate TracksSlot(st: Sched, log: seq<Attempt>, s: nat)
    requires Sized(st) && s < MAX_NODES
  {
    st.attempts[s] == Failures(log, s) && (LastAt(log, s).Some? ==> LastAt(log, s).value == st.lastAttempt[s])
  }

  lemma StartTracks()
    ensures Tracks(Start().st, Start().log) && Spaced(Start().log)
  {}

  lemma Snoc(log: seq<Attempt>, a: Attempt)
    ensures (log + [a])[|log|] == a && (log + [a])[..|log|] == log
  {}

  lemma AttemptTracks(before: Sched, after: Sched, log: seq<Attempt>, a: Attempt)
    requires Tracks(before, log) && Spaced(log) && Sized(after) && Attempted(before, after, a.at, a.ok, a.slot)
    ensures Tracks(after, log + [a]) && Spaced(log + [a])
  {
    Snoc(log, a);
    assert TracksSlot(before, log, a.slot);
    forall s | 0 <= s < MAX_NODES ensures TracksSlot(after, log + [a], s) {
      assert TracksSlot(before, log, s);
    }
  }

  lemma NextStaysSpaced(h: History, ev: Event)
    requires Tracks(h.st, h.log) && Spaced(h.log) && EventOk(ev)
    ensures Tracks(Next(h, ev).st, Next(h, ev).log) && Spaced(Next(h, ev).log)
  {
    NextLaws(h, ev);
    var h' := Next(h, ev);
    if h'.log == h.log && Untouched(h.st, h'.st) {
      forall s | 0 <= s < MAX_NODES ensures TracksSlot(h'.st, h'.log, s) {
        assert TracksSlot(h.st, h.log, s);
      }
    } else {
      var a :| h'.log == h.log + [a] && Attempted(h.st, h'.st, a.at, a.ok, a.slot);
      AttemptTracks(h.st, h'.st, h.log, a);
    }
  }

  /** Over every run, attempts on one slot are 5, 10 or 20 seconds apart by its failures since the last success. */
  lemma {:induction false} AttemptsAreSpaced(h: History, evs: seq<Event>)
    requires Tracks(h.st, h.log) && Spaced(h.log) && EventsOk(evs)
    ensures Tracks(Run(h, evs).st, Run(h, evs).log) && Spaced(Run(h, evs).log)
    decreases |evs|
  {
    if evs != [] {
      NextStaysSpaced(h, evs[0]);
      AttemptsAreSpaced(Next(h, evs[0]), evs[1..]);
    }
  }

  /** The attempts on slot `s` from `lo` to `hi`. */
  function Count(log: seq<Attempt>, s: nat, lo: int, hi: int): nat
    decreases |log|
  {
    if log == [] then 0
    else
      var a := log[|log| - 1];
      Count(log[..|log| - 1], s, lo, hi) + (if a.slot == s && lo <= a.at <= hi then 1 else 0)
  }

  lemma {:induction false} SpacedCount(log: seq<Attempt>, s: nat, lo: int, hi: int)
    requires Spaced(log)
    ensures var c := Count(log, s, lo, hi);
      c > 0 ==> LastAt(log, s).Some? && LastAt(log, s).value >= lo + 5 * (c - 1) && 5 * (c - 1) <= hi - lo
    decreases |log|
  {
    if log != [] {
      SpacedCount(log[..|log| - 1], s, lo, hi);
    }
  }

  /** A window of `w` seconds holds at most `w / 5 + 1` attempts on one slot. */
  lemma RateBound(h: History, evs: seq<Event>, s: nat, lo: int, w: nat)
    requires Tracks(h.st, h.log) && Spaced(h.log) && EventsOk(evs)
    ensures Count(Run(h, evs).log, s, lo, lo + w) <= w / 5 + 1
  {
    AttemptsAreSpaced(h, evs);
    SpacedCount(Run(h, evs).log, s, lo, lo + w);
  }

  /** The attempts on slot `s` from `lo` to `hi` that follow more than `f` failures since the last success. */
  function Retries(log: seq<Attempt>, s: nat, f: nat, lo: int, hi: int): nat
    decreases |log|
  {
    if log == [] then 0
    else
      var a, before := log[|log| - 1], log[..|log| - 1];
      Retries(before, s, f, lo, hi) + (if a.slot == s && lo <= a.at <= hi && Failures(before, s) > f then 1 else 0)
  }

  lemma {:induction false} SpacedRetries(log: seq<Attempt>, s: nat, f: nat, d: nat, lo: int, hi: int)
    requires Spaced(log) && ((f == 5 && d == 10) || (f == 10 && d == 20))
    ensures var c := Retries(log, s, f, lo, hi);
      c > 0 ==> LastAt(log, s).Some? && LastAt(log, s).value >= lo + d * (c - 1) && d * (c - 1) <= hi - lo
    decreases |log|
  {
    if log != [] {
      SpacedRetries(log[..|log| - 1], s, f, d, lo, hi);
    }
  }

  /**
   After more than five failures in a row a slot is attempted at most `w / 10 + 1` times in `w` seconds
   until it succeeds, and after more than ten at most `w / 20 + 1` times.
   */
  lemma RetryBound(h: History, evs: seq<Event>, s: nat, lo: int, w: nat)
    requires Tracks(h.st, h.log) && Spaced(h.log) && EventsOk(evs)
    ensures Retries(Run(h, evs).log, s, 5, lo, lo + w) <= w / 10 + 1
    ensures Retries(Run(h, evs).log, s, 10, lo, lo + w) <= w / 20 + 1
  {
    AttemptsAreSpaced(h, evs);
    SpacedRetries(Run(h, evs).log, s, 5, 10, lo, lo + w);
    SpacedRetries(Run(h, evs).log, s, 10, 20, lo, lo + w);
  }

  // ---- What a pass does to the clients ----

  /** The client that a pass leaves in a slot it does not stop at. */
  function Visited(st: Sched, m: Members, e: Env, s: nat): Client
    requires Sized(st) && EnvOk(e) && s < MAX_NODES
  {
    if !Peer(m, s) then st.clients[s]
    else
      match st.clients[s]
      case Connected => e.ran[s]
      case Idle => Idle
      case Absent => if e.made[s] then Idle else Absent
  }

  /** Slot `s` is the one a pass stops at: a peer without a connection, not attempted for long enough. */
  predicate Eligible(st: Sched, m: Members, e: Env, now: int, s: nat)
    requires Sized(st) && EnvOk(e) && s < MAX_NODES
  {
    && Peer(m, s) && (st.clients[s] == Idle || (st.clients[s] == Absent && e.made[s]))
    && Apart(now - st.lastAttempt[s], st.attempts[s])
  }

  ghost predicate StopsFirst(st: Sched, m: Members, e: Env, now: int, i: nat, slot: Option<nat>)
    requires Sized(st) && EnvOk(e)
  {
    && (slot.Some? ==> i <= slot.value < MAX_NODES && Eligible(st, m, e, now, slot.value))
    && forall s :: i <= s < MAX_NODES && (slot.Some? ==> s < slot.value) ==> !Eligible(st, m, e, now, s)
  }

  /** What slot `s` holds after a pass from slot `i` that stopped at `slot`. */
  predicate Left(st: Sched, m: Members, e: Env, i: nat, slot: Option<nat>, st': Sched, s: nat)
    requires Sized(st) && EnvOk(e) && Sized(st') && s < MAX_NODES
  {
    st'.clients[s] ==
      if s < i || (slot.Some? && s > slot.value) then st.clients[s]
      else if slot == Some(s) then (if e.connects then e.greeted else Idle)
      else Visited(st, m, e, s)
  }

  /** A pass stops at the first eligible slot, if there is one, and treats each slot before it by its state. */
  lemma {:induction false} ScanStopsFirst(st: Sched, m: Members, e: Env, now: int, i: nat)
    requires Sized(st) && EnvOk(e) && i <= MAX_NODES
    ensures StopsFirst(st, m, e, now, i, Scan(st, m, e, now, i).1)
    decreases MAX_NODES - i
  {
    if i < MAX_NODES {
      ScanStep(st, m, e, now, i);
      if !Stops(st, m, e, now, i) {
        var st1 := Passed(st, m, e, i);
        var slot := Scan(st1, m, e, now, i + 1).1;
        ScanStopsFirst(st1, m, e, now, i + 1);
        forall s | i < s < MAX_NODES ensures Eligible(st1, m, e, now, s) == Eligible(st, m, e, now, s) {}
      }
    }
  }

  lemma {:induction false} ScanLeaves(st: Sched, m: Members, e: Env, now: int, i: nat, s: nat)
    requires Sized(st) && EnvOk(e) && i <= MAX_NODES && s < MAX_NODES
    ensures var (st', slot) := Scan(st, m, e, now, i); Sized(st') && Left(st, m, e, i, slot, st', s)
    decreases MAX_NODES - i
  {
    ScanLaws(st, m, e, now, i);
    if i < MAX_NODES {
      ScanStep(st, m, e, now, i);
      if !Stops(st, m, e, now, i) {
        var st1 := Passed(st, m, e, i);
        ScanLaws(st1, m, e, now, i + 1);
        ScanLeaves(st1, m, e, now, i + 1, s);
      }
    }
  }

  /** Between passes exactly the connected peers are read from. */
  lemma {:induction false} PollReads(st: Sched, m: Members, e: Env, i: nat, s: nat)
    requires Sized(st) && EnvOk(e) && i <= MAX_NODES && s < MAX_NODES
    ensures Sized(Poll(st, m, e, i))
    ensures Poll(st, m, e, i).clients[s] ==
      if s >= i && Peer(m, s) && st.clients[s] == Connected then e.ran[s] else st.clients[s]
    decreases MAX_NODES - i
  {
    PollLaws(st, m, e, i);
    if i < MAX_NODES {
      PollReads(if Peer(m, i) && st.clients[i] == Connected then SetClient(st, i, e.ran[i]) else st, m, e, i + 1, s);
    }
  }

  // ---- No starvation ----

  /** Slot `s` has a client without a connection and is past its backoff from time `lo` on. */
  predicate Ready(st: Sched, s: nat, lo: int) {
    Sized(st) && s < MAX_NODES && st.clients[s] == Idle && Apart(lo - st.lastAttempt[s], st.attempts[s])
  }

  ghost predicate PeersBefore(m: Members, s: nat, below: seq<nat>) {
    forall i: nat :: i < s && Peer(m, i) ==> i in below
  }

  /** From `lo` to `hi` slot `s` stays a peer, the peers before it are among `below`, and its client is not lost. */
  ghost predicate Calm(ev: Event, s: nat, below: seq<nat>, lo: int, hi: int) {
    if ev.At? then lo <= ev.now <= hi && Peer(ev.members, s) && PeersBefore(ev.members, s, below) else ev.slot != s
  }

  ghost predicate AllCalm(evs: seq<Event>, s: nat, below: seq<nat>, lo: int, hi: int) {
    forall ev <- evs :: Calm(ev, s, below, lo, hi)
  }

  predicate PassAt(st: Sched, ev: Event) {
    ev.At? && IsPass(st, ev.members, ev.now)
  }

  ghost function Passes(h: History, evs: seq<Event>): nat
    requires Sized(h.st) && EventsOk(evs)
    decreases |evs|
  {
    if evs == [] then 0
    else
      NextLaws(h, evs[0]);
      (if PassAt(h.st, evs[0]) then 1 else 0) + Passes(Next(h, evs[0]), evs[1..])
  }

  predicate Reached(m: Members, i: nat, s: nat, st': Sched, slot: Option<nat>) {
    && slot.Some? && i <= slot.value <= s && Peer(m, slot.value)
    && (slot.value < s ==> Sized(st') && s < MAX_NODES && st'.clients[s] == Idle)
  }

  lemma PassedStaysReady(st: Sched, m: Members, e: Env, now: int, i: nat, s: nat)
    requires EnvOk(e) && i < s && Ready(st, s, now)
    ensures Ready(Passed(st, m, e, i), s, now)
    ensures Ready(Connect(SetClient(st, i, Idle), e, now, i), s, now)
  {}

  /** A pass reaches a ready slot or stops at a peer before it, leaving the slot ready. */
  lemma {:induction false} ScanReaches(st: Sched, m: Members, e: Env, now: int, i: nat, s: nat)
    requires EnvOk(e) && i <= s && Ready(st, s, now) && Peer(m, s)
    ensures Reached(m, i, s, Scan(st, m, e, now, i).0, Scan(st, m, e, now, i).1)
    decreases s - i
  {
    ScanStep(st, m, e, now, i);
    if i < s {
      PassedStaysReady(st, m, e, now, i, s);
      if !Stops(st, m, e, now, i) {
        ScanReaches(Passed(st, m, e, i), m, e, now, i + 1, s);
      }
    }
  }

  /** What one calm event leads to while slot `s` waits. */
  lemma StepWhileReady(st: Sched, ev: Event, s: nat, below: seq<nat>, lo: int, hi: int)
    requires Ready(st, s, lo) && EventOk(ev) && Calm(ev, s, below, lo, hi)
    ensures var (st', made) := Step(st, ev);
      && |made| == (if PassAt(st, ev) then 1 else 0)
      && (made != [] ==> lo <= made[0].at <= hi && (made[0].slot == s || made[0].slot in below))
      && (made == [] || made[0].slot != s ==> Ready(st', s, lo))
  {
    StepLaws(st, ev);
    if ev.At? {
      if PassAt(st, ev) {
        ScanReaches(st.(lastPass := ev.now), ev.members, ev.env, ev.now, 0, s);
      } else {
        PollLaws(st, ev.members, ev.env, 0);
      }
    }
  }

  ghost predicate Attempts(log: seq<Attempt>, from: nat, s: nat) {
    exists k :: from <= k < |log| && log[k].slot == s
  }

  /** Of the attempts since number `from` there are `n`, all on slots below and between `lo` and `hi`. */
  ghost predicate Spent(log: seq<Attempt>, from: nat, n: nat, below: seq<nat>, lo: int, hi: int) {
    && from + n == |log|
    && forall k :: from <= k < |log| ==> log[k].slot in below && lo <= log[k].at <= hi
  }

  lemma NextWhileReady(h: History, ev: Event, from: nat, n: nat, s: nat, below: seq<nat>, lo: int, hi: int)
    requires Ready(h.st, s, lo) && EventOk(ev) && Calm(ev, s, below, lo, hi) && Spent(h.log, from, n, below, lo, hi)
    ensures var h' := Next(h, ev);
      && Sized(h'.st)
      && (Attempts(h'.log, from, s)
          || (Ready(h'.st, s, lo) && Spent(h'.log, from, n + (if PassAt(h.st, ev) then 1 else 0), below, lo, hi)))
  {
    StepLaws(h.st, ev);
    StepWhileReady(h.st, ev, s, below, lo, hi);
    var made := Step(h.st, ev).1;
    if made != [] {
      assert (h.log + made)[|h.log|] == made[0];
    }
  }

  lemma {:induction false} AttemptsStay(h: History, evs: seq<Event>, from: nat, s: nat)
    requires Sized(h.st) && EventsOk(evs) && Attempts(h.log, from, s)
    ensures Attempts(Run(h, evs).log, from, s)
    decreases |evs|
  {
    if evs != [] {
      NextLaws(h, evs[0]);
      var k :| from <= k < |h.log| && h.log[k].slot == s;
      assert Next(h, evs[0]).log[k].slot == s;
      AttemptsStay(Next(h, evs[0]), evs[1..], from, s);
    }
  }

  /** As long as slot `s` waits, every pass makes an attempt on a slot below it. */
  lemma {:induction false} EveryPassIsSpent(h: History, evs: seq<Event>, from: nat, n: nat, s: nat, below: seq<nat>,
                                            lo: int, hi: int)
    requires Ready(h.st, s, lo) && EventsOk(evs) && AllCalm(evs, s, below, lo, hi)
    requires Spent(h.log, from, n, below, lo, hi)
    ensures Attempts(Run(h, evs).log, from, s) || Spent(Run(h, evs).log, from, n + Passes(h, evs), below, lo, hi)
    decreases |evs|
  {
    if evs != [] {
      NextWhileReady(h, evs[0], from, n, s, below, lo, hi);
      var h', n' := Next(h, evs[0]), n + (if PassAt(h.st, evs[0]) then 1 else 0);
      if Attempts(h'.log, from, s) {
        AttemptsStay(h', evs[1..], from, s);
      } else {
        EveryPassIsSpent(h', evs[1..], from, n', s, below, lo, hi);
      }
    }
  }

  // ---- Counting the attempts on the slots below ----

  function Total(log: seq<Attempt>, slots: seq<nat>, lo: int, hi: int): nat {
    if slots == [] then 0 else Count(log, slots[0], lo, hi) + Total(log, slots[1..], lo, hi)
  }

  lemma {:induction false} TotalSnoc(log: seq<Attempt>, a: Attempt, slots: seq<nat>, lo: int, hi: int)
    requires lo <= a.at <= hi
    ensures Total(log + [a], slots, lo, hi) >= Total(log, slots, lo, hi) + if a.slot in slots then 1 else 0
    decreases |slots|
  {
    if slots != [] {
      Snoc(log, a);
      assert slots == [slots[0]] + slots[1..];
      TotalSnoc(log, a, slots[1..], lo, hi);
    }
  }

  lemma {:induction false} SpentIsTotal(log: seq<Attempt>, from: nat, n: nat, slots: seq<nat>, lo: int, hi: int)
    requires Spent(log, from, n, slots, lo, hi)
    ensures n <= Total(log, slots, lo, hi)
    decreases n
  {
    if n > 0 {
      var before, a := log[..|log| - 1], log[|log| - 1];
      assert before + [a] == log;
      SpentIsTotal(before, from, n - 1, slots, lo, hi);
      TotalSnoc(before, a, slots, lo, hi);
    }
  }

  lemma {:induction false} TotalBound(log: seq<Attempt>, slots: seq<nat>, lo: int, hi: int, k: nat)
    requires forall s <- slots :: Count(log, s, lo, hi) <= k
    ensures Total(log, slots, lo, hi) <= |slots| * k
    decreases |slots|
  {
    if slots != [] {
      var rest := slots[1..];
      assert forall s <- rest :: s in slots;
      TotalBound(log, rest, lo, hi, k);
      OneMore(|rest|, k);
    }
  }

  lemma OneMore(n: nat, k: nat)
    ensures (n + 1) * k == n * k + k
  {}

  /**
   No starvation: a slot that is ready from `lo` on and has `k` peers before it waits for at most
   `k * (w / 5 + 1)` passes in the next `w` seconds.
   */
  lemma NoStarvation(h: History, evs: seq<Event>, s: nat, below: seq<nat>, lo: int, w: nat)
    requires Tracks(h.st, h.log) && Spaced(h.log) && EventsOk(evs)
    requires Ready(h.st, s, lo) && AllCalm(evs, s, below, lo, lo + w)
    ensures Attempts(Run(h, evs).log, |h.log|, s) || Passes(h, evs) <= |below| * (w / 5 + 1)
  {
    EveryPassIsSpent(h, evs, |h.log|, 0, s, below, lo, lo + w);
    if !Attempts(Run(h, evs).log, |h.log|, s) {
      SpentIsBounded(h, evs, Passes(h, evs), below, lo, w);
    }
  }

  lemma SpentIsBounded(h: History, evs: seq<Event>, n: nat, below: seq<nat>, lo: int, w: nat)
    requires Tracks(h.st, h.log) && Spaced(h.log) && EventsOk(evs)
    requires Spent(Run(h, evs).log, |h.log|, n, below, lo, lo + w)
    ensures n <= |below| * (w / 5 + 1)
  {
    var log, k := Run(h, evs).log, w / 5 + 1;
    SpentIsTotal(log, |h.log|, n, below, lo, lo + w);
    forall j <- below ensures Count(log, j, lo, lo + w) <= k {
      RateBound(h, evs, j, lo, w);
    }
    TotalBound(log, below, lo, lo + w, k);
  }

  /** More passes than peers before it, within less than five seconds, include an attempt on a ready slot. */
  lemma NoStarvationWithinFive(h: History, evs: seq<Event>, s: nat, below: seq<nat>, lo: int, w: nat)
    requires Tracks(h.st, h.log) && Spaced(h.log) && EventsOk(evs) && w < 5
    requires Ready(h.st, s, lo) && AllCalm(evs, s, below, lo, lo + w) && Passes(h, evs) > |below|
    ensures Attempts(Run(h, evs).log, |h.log|, s)
  {
    NoStarvation(h, evs, s, below, lo, w);
    assert w / 5 + 1 == 1;
  }

  // ---- The bound is reached ----

  /** Two peers in slots 0 and 1; this node is in slot 2. */
  const TRIO := Members([1, 2, 3], 3)

  /** A pass in which clients can be made and the attempt succeeds or fails. */
  function Outcome(connects: bool): Env {
    Env(Fill(true), Fill(Connected), connects, Connected)
  }

  /** Slot 0 connects or fails to, at the given time. */
  function Try(now: int, connects: bool): Event {
    At(TRIO, Outcome(connects), now)
  }

  /** The first tick is skipped; slot 0 connects and drops, slot 1 fails, and slot 0 connects and drops again. */
  function Opening(): seq<Event> {
    [Try(1, true)] + ([Try(5, true)] + ([Lost(0, Absent)]
    + ([Try(6, false)] + ([Try(10, true)] + ([Lost(0, Absent)] + [])))))
  }

  /** Slot 0 was last attempted at time `5 * (j + 2)` and lost its client; slot 1 has one, and failed at time 6. */
  function Flapped(j: nat): Sched {
    Sched(false, 5 * (j + 2), Fill(Absent)[1 := Idle], Fill(0)[0 := 5 * (j + 2)][1 := 6], Fill(0)[1 := 1])
  }

  const OPENING_LOG := [Attempt(0, 5, true), Attempt(1, 6, false), Attempt(0, 10, true)]

  /** Every five seconds slot 0 connects, and loses its connection and its client at once. */
  function Flaps(j: nat, n: nat): seq<Event>
    decreases n
  {
    if n == 0 then [] else [Try(5 * (j + 3), true), Lost(0, Absent)] + Flaps(j + 1, n - 1)
  }

  lemma RunCons(h: History, ev: Event, rest: seq<Event>)
    requires Sized(h.st) && EventOk(ev) && EventsOk(rest)
    ensures EventsOk([ev] + rest) && Sized(Next(h, ev).st) && Run(h, [ev] + rest) == Run(Next(h, ev), rest)
  {
    NextLaws(h, ev);
    assert ([ev] + rest)[0] == ev && ([ev] + rest)[1..] == rest;
  }

  /** Nothing has happened but the skipped tick. */
  function Quiet(): History {
    History(Sched(false, 0, Fill(Absent), Fill(0), Fill(0)), [])
  }

  /** Slot 0 was attempted at time 5 and has this client. */
  function Opened(c: Client): History {
    History(Sched(false, 5, Fill(Absent)[0 := c], Fill(0)[0 := 5], Fill(0)), [Attempt(0, 5, true)])
  }

  /** Slot 1 has failed at time 6. */
  function Failed(): History {
    History(Sched(false, 6, Fill(Absent)[0 := Idle][1 := Idle], Fill(0)[0 := 5][1 := 6], Fill(0)[1 := 1]),
            [Attempt(0, 5, true), Attempt(1, 6, false)])
  }

  /** Slot 0 was attempted again at time 10 and has this client. */
  function Reopened(c: Client): History {
    History(Flapped(0).(clients := Flapped(0).clients[0 := c]), OPENING_LOG)
  }

  lemma OpeningConnects()
    ensures Next(Start(), Try(1, true)) == Quiet() && Next(Quiet(), Try(5, true)) == Opened(Connected)
    ensures Next(Opened(Connected), Lost(0, Absent)) == Opened(Absent)
  {
    ScanStep(Quiet().st.(lastPass := 5), TRIO, Outcome(true), 5, 0);
  }

  lemma OpeningFails()
    ensures Next(Opened(Absent), Try(6, false)) == Failed()
  {
    var st := Opened(Absent).st.(lastPass := 6);
    ScanStep(st, TRIO, Outcome(false), 6, 0);
    var st' := Passed(st, TRIO, Outcome(false), 0);
    assert st' == Opened(Idle).st.(lastPass := 6);
    ScanStep(st', TRIO, Outcome(false), 6, 1);
  }

  lemma OpeningReconnects()
    ensures Next(Failed(), Try(10, true)) == Reopened(Connected)
    ensures Next(Reopened(Connected), Lost(0, Absent)) == Reopened(Absent) == History(Flapped(0), OPENING_LOG)
  {
    ScanStep(Failed().st.(lastPass := 10), TRIO, Outcome(true), 10, 0);
  }

  lemma OpeningReaches()
    ensures EventsOk(Opening()) && Run(Start(), Opening()) == History(Flapped(0), OPENING_LOG)
  {
    var e6: seq<Event> := [Lost(0, Absent)] + [];
    var e5 := [Try(10, true)] + e6;
    var e4 := [Try(6, false)] + e5;
    var e3 := [Lost(0, Absent)] + e4;
    var e2 := [Try(5, true)] + e3;
    OpeningReconnects();
    OpeningFails();
    OpeningConnects();
    RunCons(Reopened(Connected), Lost(0, Absent), []);
    RunCons(Failed(), Try(10, true), e6);
    RunCons(Opened(Absent), Try(6, false), e5);
    RunCons(Opened(Connected), Lost(0, Absent), e4);
    RunCons(Quiet(), Try(5, true), e3);
    RunCons(Start(), Try(1, true), e2);
  }

  lemma FlapOnce(j: nat, log: seq<Attempt>)
    ensures var h, ev, log' := History(Flapped(j), log), Try(5 * (j + 3), true), log + [Attempt(0, 5 * (j + 3), true)];
      && EventOk(ev) && PassAt(h.st, ev)
      && Next(h, ev) == History(Flapped(j + 1).(clients := Flapped(j + 1).clients[0 := Connected]), log')
      && Next(Next(h, ev), Lost(0, Absent)) == History(Flapped(j + 1), log')
  {
    var now := 5 * (j + 3);
    var st := Flapped(j).(lastPass := now);
    ScanStep(st, TRIO, Outcome(true), now, 0);
    var st' := Connect(SetClient(st, 0, Idle), Outcome(true), now, 0);
    assert st' == Flapped(j + 1).(clients := Flapped(j + 1).clients[0 := Connected]);
    assert SetClient(st', 0, Absent) == Flapped(j + 1);
  }

  lemma {:induction false} FlapsAreCalm(j: nat, n: nat, m: nat)
    requires j + n <= m
    ensures EventsOk(Flaps(j, n)) && AllCalm(Flaps(j, n), 1, [0], 15, 5 * (m + 2))
    decreases n
  {
    if n > 0 {
      FlapsAreCalm(j + 1, n - 1, m);
    }
  }

  lemma {:induction false} FlapsStarve(j: nat, n: nat, from: nat, log: seq<Attempt>)
    requires !Attempts(log, from, 1) && from <= |log|
    ensures EventsOk(Flaps(j, n)) && Passes(History(Flapped(j), log), Flaps(j, n)) == n
    ensures !Attempts(Run(History(Flapped(j), log), Flaps(j, n)).log, from, 1)
    decreases n
  {
    FlapsAreCalm(j, n, j + n);
    if n > 0 {
      var h, evs := History(Flapped(j), log), Flaps(j, n);
      FlapOnce(j, log);
      assert evs[0] == Try(5 * (j + 3), true) && evs[1..][0] == Lost(0, Absent) && evs[1..][1..] == Flaps(j + 1, n - 1);
      FlapsStarve(j + 1, n - 1, from, log + [Attempt(0, 5 * (j + 3), true)]);
    }
  }

  lemma {:induction false} RunAppend(h: History, a: seq<Event>, b: seq<Event>)
    requires Sized(h.st) && EventsOk(a) && EventsOk(b)
    ensures EventsOk(a + b) && Run(h, a + b) == Run(Run(h, a), b)
    decreases |a|
  {
    if a == [] {
      assert a + b == b;
    } else {
      NextLaws(h, a[0]);
      assert (a + b)[1..] == a[1..] + b && (a + b)[0] == a[0];
      RunAppend(Next(h, a[0]), a[1..], b);
    }
  }

  /**
   Over five seconds and more the bound cannot be improved: for every `n` there is a run from the
   start in which a slot with one peer before it becomes ready, and then stays ready throughout `n`
   passes in `5 * (n - 1)` seconds without being attempted.
   */
  lemma FlappingPeerStarves(n: nat)
    requires n > 0
    ensures EventsOk(Opening()) && EventsOk(Flaps(0, n))
    ensures var h, evs := Run(Start(), Opening()), Flaps(0, n);
      && EventsOk(Opening() + evs) && Run(Start(), Opening() + evs) == Run(h, evs)
      && Tracks(h.st, h.log) && Spaced(h.log) && Ready(h.st, 1, 15) && AllCalm(evs, 1, [0], 15, 15 + 5 * (n - 1))
      && Passes(h, evs) == n == |[0]| * (5 * (n - 1) / 5 + 1)
      && !Attempts(Run(h, evs).log, |h.log|, 1)
  {
    OpeningReaches();
    StartTracks();
    AttemptsAreSpaced(Start(), Opening());
    FlapsAreCalm(0, n, n);
    FlapsStarve(0, n, |OPENING_LOG|, OPENING_LOG);
    RunAppend(Start(), Opening(), Flaps(0, n));
  }
}
