/**
 What a node does over time, on whole sequences of events: when a follower's patience ends, when a
 candidate asks again, and when a leader sends its heartbeats. Everything is said of roles, terms and
 packets; the reference is the history of events, not the node's own timers.
 */
module NodeTimers {
  import opened Options
  import opened Election
  import opened NodeLaws
  import opened NodeAnswers

  // ---- Runs of one node ----

  function After(c: Config, id: int, n: Node, evs: seq<Event>): Node
    decreases |evs|
  {
    if evs == [] then n else After(c, id, React(c, id, n, evs[0]).0, evs[1..])
  }

  function Sent(c: Config, id: int, n: Node, evs: seq<Event>): seq<Packet>
    decreases |evs|
  {
    if evs == [] then [] else React(c, id, n, evs[0]).1 + Sent(c, id, React(c, id, n, evs[0]).0, evs[1..])
  }

  ghost predicate NoRequests(sent: seq<Packet>) {
    forall p <- sent :: !p.msg.VoteRequest?
  }

  /** The message goes to every member but the node itself, and to nobody else. */
  ghost predicate Round(c: Config, id: int, sent: seq<Packet>, msg: Message) {
    && |sent| <= |c.members|
    && (forall p <- sent :: p.src == id && p.dst in c.members && p.dst != id && p.msg == msg)
    && (forall d <- c.members :: d != id ==> exists p <- sent :: p.dst == d)
  }

  lemma {:induction false} BroadcastLength(members: seq<int>, id: int, n: Node, msg: Message)
    ensures |Broadcast(members, id, n, msg)| <= |members|
    decreases |members|
  {
    if members != [] {
      BroadcastLength(members[1..], id, n, msg);
    }
  }

  lemma BroadcastIsRound(c: Config, id: int, n: Node, msg: Message)
    ensures Round(c, id, Broadcast(c.members, id, n, msg), msg)
  {
    BroadcastPackets(c.members, id, n, msg);
    BroadcastLength(c.members, id, n, msg);
    var sent := Broadcast(c.members, id, n, msg);
    forall d <- c.members | d != id ensures exists p <- sent :: p.dst == d {
      assert Send(id, n, d, msg) in sent;
    }
  }

  /** A new candidacy: one term later, with the node's own vote, and a request to everybody else. */
  ghost predicate Campaigns(c: Config, id: int, n: Node, m: Node, sent: seq<Packet>) {
    m.role == Candidate && m.term == n.term + 1 && m.votedFor == id && Round(c, id, sent, VoteRequest(id, n.term + 1))
  }

  lemma ElectionCampaigns(c: Config, id: int, n: Node, now: int, rnd: nat)
    ensures Campaigns(c, id, n, StartElection(c, id, n, now, rnd).0, StartElection(c, id, n, now, rnd).1)
  {
    BroadcastIsRound(c, id, Candidacy(c, id, n, now, rnd), VoteRequest(id, n.term + 1));
  }

  /**
   What a pass over the duties does: a leader whose round is due sends it and nothing else ever; a follower
   starts an election once its last heartbeat is more than a timeout ago and else does nothing; a
   candidate past its deadline goes on to the next term and one before it stays in its own.
   */
  ghost predicate DutyDone(c: Config, id: int, n: Node, now: int, m: Node, sent: seq<Packet>) {
    match n.role
    case Leader =>
      m.role == Leader && if now >= n.nextHeartbeatAt then Round(c, id, sent, Heartbeat(id, n.term)) else sent == []
    case Follower =>
      if now > n.lastHeartbeat + TimeoutOf(c) then Campaigns(c, id, n, m, sent) else m == n && sent == []
    case Candidate =>
      && m.role == Candidate && m.term == (if now > n.electionDeadline then n.term + 1 else n.term)
      && (now > n.electionDeadline || now >= n.nextVoteRequestAt ==>
            forall d <- c.members :: d != id ==> exists p <- sent :: p.dst == d && p.msg == VoteRequest(id, m.term))
  }

  lemma TickDoesDuty(c: Config, id: int, n: Node, now: int, rnd: nat)
    ensures DutyDone(c, id, n, now, OnTick(c, id, n, now, rnd).0, OnTick(c, id, n, now, rnd).1)
  {
    match n.role
    case Leader => BroadcastIsRound(c, id, n, Heartbeat(id, n.term));
    case Follower => ElectionCampaigns(c, id, n, now, rnd);
    case Candidate =>
      var (a, first) := if now >= n.nextVoteRequestAt then RequestVotes(c, id, n, now) else (n, []);
      var (b, more) := StartElection(c, id, a, now, rnd);
      var m, sent := OnTick(c, id, n, now, rnd).0, OnTick(c, id, n, now, rnd).1;
      if now > n.electionDeadline {
        ElectionCampaigns(c, id, a, now, rnd);
        Reaches(c, id, more, VoteRequest(id, m.term), first);
        assert sent == first + more;
      } else if now >= n.nextVoteRequestAt {
        BroadcastIsRound(c, id, n, VoteRequest(id, n.term));
        Reaches(c, id, first, VoteRequest(id, m.term), []);
        assert sent == [] + first;
      }
  }

  lemma Reaches(c: Config, id: int, round: seq<Packet>, msg: Message, before: seq<Packet>)
    requires Round(c, id, round, msg)
    ensures forall d <- c.members :: d != id ==> exists p <- before + round :: p.dst == d && p.msg == msg
  {
    forall d <- c.members | d != id ensures exists p <- before + round :: p.dst == d && p.msg == msg {
      var p :| p in round && p.dst == d;
      assert p in before + round;
    }
  }

  // ---- Followers ----

  /** When the node last heard from a leader, given when it had before the event; a triggered election forgets it. */
  function Contact(t: int, ev: Event): int {
    match ev
    case Receive(p, now, _) => if p.msg.Heartbeat? || p.msg.BareHeartbeat? || p.msg.HeartbeatAck? then now else t
    case Restart(now, _) => now
    case TriggerElection(_) => 0
    case _ => t
  }

  function LastContact(t: int, evs: seq<Event>): int
    decreases |evs|
  {
    if evs == [] then t else LastContact(Contact(t, evs[0]), evs[1..])
  }

  /** The event does not find the last contact, at time `t`, too long ago. */
  predicate Patient(c: Config, t: int, ev: Event) {
    match ev
    case Tick(now, _) => now <= t + TimeoutOf(c)
    case Timeout(now, _) => now <= t + c.keepAliveTimeout
    case Receive(p, now, _) => p.msg.ElectionTimeout? ==> now <= t + c.keepAliveTimeout
    case _ => true
  }

  predicate AllPatient(c: Config, t: int, evs: seq<Event>)
    decreases |evs|
  {
    evs == [] || (Patient(c, t, evs[0]) && AllPatient(c, Contact(t, evs[0]), evs[1..]))
  }

  /** The newest term a node has seen. */
  function Newest(term: int, ev: Event): int {
    match ev
    case Receive(p, _, _) =>
      if p.msg.VoteRequest? || p.msg.Heartbeat? then Max(p.msg.term, term) else term
    case _ => term
  }

  function NewestTerm(term: int, evs: seq<Event>): int
    decreases |evs|
  {
    if evs == [] then term else NewestTerm(Newest(term, evs[0]), evs[1..])
  }

  ghost predicate NoRestart(evs: seq<Event>) {
    forall ev <- evs :: !ev.Restart?
  }

  /** A follower that last heard from a leader at time `t`. */
  ghost predicate Waiting(n: Node, t: int) {
    n.role == Follower && !n.active && n.term >= 0 && n.lastHeartbeat == t
  }

  lemma PatientStep(c: Config, id: int, n: Node, t: int, ev: Event)
    requires Waiting(n, t) && Patient(c, t, ev)
    ensures var (m, sent) := React(c, id, n, ev);
      && Waiting(m, Contact(t, ev)) && NoRequests(sent)
      && (!ev.Restart? ==> m.term == Newest(n.term, ev))
  {}

  lemma {:induction false} PatientRun(c: Config, id: int, n: Node, t: int, evs: seq<Event>)
    requires Waiting(n, t) && AllPatient(c, t, evs)
    ensures Waiting(After(c, id, n, evs), LastContact(t, evs)) && NoRequests(Sent(c, id, n, evs))
    ensures NoRestart(evs) ==> After(c, id, n, evs).term == NewestTerm(n.term, evs)
    decreases |evs|
  {
    if evs != [] {
      PatientStep(c, id, n, t, evs[0]);
      PatientRun(c, id, React(c, id, n, evs[0]).0, Contact(t, evs[0]), evs[1..]);
      assert evs[0] in evs && forall ev <- evs[1..] :: ev in evs;
    }
  }

  /** The next tick of a follower starts an election exactly when the last contact is more than a timeout ago. */
  lemma NextTick(c: Config, id: int, n: Node, t: int, u: int, rnd: nat)
    requires Waiting(n, t)
    ensures var (m, sent) := React(c, id, n, Tick(u, rnd));
      if u <= t + TimeoutOf(c) then m == n && sent == [] else Campaigns(c, id, n, m, sent)
  {
    ElectionCampaigns(c, id, n, u, rnd);
  }

  /** The same for an `ELECTION_TIMEOUT` datagram, which goes by the configured value even when that is zero. */
  lemma NextTimeout(c: Config, id: int, n: Node, t: int, u: int, rnd: nat)
    requires Waiting(n, t)
    ensures var (m, sent) := React(c, id, n, Timeout(u, rnd));
      if u <= t + c.keepAliveTimeout then m == n && sent == [] else Campaigns(c, id, n, m, sent)
  {
    BroadcastIsRound(c, id, Candidacy(c, id, n, u, rnd).(nextVoteRequestAt := 0), VoteRequest(id, n.term + 1));
  }

  /**
   A heartbeat holds off elections: a node that hears from a leader at time `t` follows, in the newest
   term it sees, and asks for no vote as long as no tick finds its last contact more than a timeout
   ago. The first tick that does starts an election in the next term.
   */
  lemma HeartbeatHoldsOff(c: Config, id: int, n: Node, src: int, leader: int, term: int, t: int, rnd: nat,
                          evs: seq<Event>, u: int, rnd': nat)
    requires n.term >= 0 && leader >= 0 && AllPatient(c, t, evs)
    ensures var b := OnMessage(c, id, n, src, Heartbeat(leader, term), t, rnd).0;
      var m := After(c, id, b, evs);
      var (x, sent) := React(c, id, m, Tick(u, rnd'));
      && m.role == Follower && NoRequests(Sent(c, id, b, evs))
      && (NoRestart(evs) ==> m.term == NewestTerm(Max(term, n.term), evs))
      && if u <= LastContact(t, evs) + TimeoutOf(c) then x == m && sent == [] else Campaigns(c, id, m, x, sent)
  {
    var b := OnMessage(c, id, n, src, Heartbeat(leader, term), t, rnd).0;
    HeartbeatFollowed(c, id, n, src, leader, term, t, rnd);
    PatientRun(c, id, b, t, evs);
    NextTick(c, id, After(c, id, b, evs), LastContact(t, evs), u, rnd');
  }

  /** So does a restart, whatever the file holds. */
  lemma RestartHoldsOff(c: Config, id: int, n: Node, t: int, rnd: nat, evs: seq<Event>, u: int, rnd': nat)
    requires AllPatient(c, t, evs)
    ensures var b := React(c, id, n, Restart(t, rnd)).0;
      var m := After(c, id, b, evs);
      var (x, sent) := React(c, id, m, Tick(u, rnd'));
      && m.role == Follower && NoRequests(Sent(c, id, b, evs))
      && if u <= LastContact(t, evs) + TimeoutOf(c) then x == m && sent == [] else Campaigns(c, id, m, x, sent)
  {
    var b := React(c, id, n, Restart(t, rnd)).0;
    PatientRun(c, id, b, t, evs);
    NextTick(c, id, After(c, id, b, evs), LastContact(t, evs), u, rnd');
  }

  /** With no timeout configured, the wait is five seconds. */
  lemma DefaultTimeout(c: Config, id: int, n: Node, t: int, rnd: nat, u: int, rnd': nat)
    requires c.keepAliveTimeout == 0
    ensures React(c, id, React(c, id, n, Restart(t, rnd)).0, Tick(u, rnd')).0.role == Candidate <==> u > t + 5
  {
    RestartHoldsOff(c, id, n, t, rnd, [], u, rnd');
  }

  /** A triggered election starts with the node's next tick, at any time past the first timeout of the epoch. */
  lemma TriggeredElection(c: Config, id: int, n: Node, now: int, u: int, rnd: nat)
    requires n.role == Follower && !n.active && n.term >= 0
    ensures var (m, sent) := React(c, id, n, TriggerElection(now));
      var (x, more) := React(c, id, m, Tick(u, rnd));
      && sent == [] && m.role == Follower && RecordOf(m) == RecordOf(n)
      && if u <= TimeoutOf(c) then x == m && more == [] else Campaigns(c, id, n, x, more)
  {
    NextTick(c, id, React(c, id, n, TriggerElection(now)).0, 0, u, rnd);
  }

  /** Stepping down makes any node a follower of the same term and vote, and changes nothing in the wait. */
  lemma SteppedDown(c: Config, id: int, n: Node, now: int, rnd: nat, u: int, rnd': nat)
    requires n.term >= 0
    ensures var (m, sent) := React(c, id, n, StepDown(now, rnd));
      var (x, more) := React(c, id, m, Tick(u, rnd'));
      && sent == [] && m.role == Follower && RecordOf(m) == RecordOf(n)
      && if u <= n.lastHeartbeat + TimeoutOf(c) then x == m && more == [] else Campaigns(c, id, n, x, more)
  {
    NextTick(c, id, React(c, id, n, StepDown(now, rnd)).0, n.lastHeartbeat, u, rnd');
  }

  // ---- Leader stability ----

  predicate Beat(ev: Event) {
    ev.Receive? && (ev.packet.msg.Heartbeat? || ev.packet.msg.BareHeartbeat? || ev.packet.msg.HeartbeatAck?)
  }

  /** When the next heartbeat arrives, or `end` if no more does. */
  function NextBeat(evs: seq<Event>, end: int): int
    decreases |evs|
  {
    if evs == [] then end else if Beat(evs[0]) then evs[0].now else NextBeat(evs[1..], end)
  }

  /**
   From time `t` to `end` heartbeats arrive at most a timeout apart: the next one is never further away
   than that, and ticks before it are read on a clock that has not passed it.
   */
  predicate Steady(c: Config, t: int, evs: seq<Event>, end: int)
    decreases |evs|
  {
    && NextBeat(evs, end) <= t + TimeoutOf(c)
    && (evs != [] ==>
          && (evs[0].Tick? ==> evs[0].now <= NextBeat(evs, end))
          && (evs[0].Tick? || evs[0].Receive? || evs[0].PeerLeader? || evs[0].StepDown?)
          && (evs[0].Receive? ==> !evs[0].packet.msg.ElectionTimeout?)
          && Steady(c, Contact(t, evs[0]), evs[1..], end))
  }

  lemma {:induction false} SteadyIsPatient(c: Config, t: int, evs: seq<Event>, end: int)
    requires Steady(c, t, evs, end)
    ensures AllPatient(c, t, evs) && NoRestart(evs)
    decreases |evs|
  {
    if evs != [] {
      SteadyIsPatient(c, Contact(t, evs[0]), evs[1..], end);
      assert evs == [evs[0]] + evs[1..];
    }
  }

  /**
   Leader stability: as long as the leader's heartbeats reach a follower at most a timeout apart, it
   never asks for a vote, and follows in the newest term it is told of.
   */
  lemma LeaderIsStable(c: Config, id: int, n: Node, src: int, leader: int, term: int, t: int, rnd: nat,
                       evs: seq<Event>, end: int)
    requires n.term >= 0 && leader >= 0 && Steady(c, t, evs, end)
    ensures var b := OnMessage(c, id, n, src, Heartbeat(leader, term), t, rnd).0;
      && After(c, id, b, evs).role == Follower && NoRequests(Sent(c, id, b, evs))
      && After(c, id, b, evs).term == NewestTerm(Max(term, n.term), evs)
  {
    SteadyIsPatient(c, t, evs, end);
    HeartbeatHoldsOff(c, id, n, src, leader, term, t, rnd, evs, t, 0);
  }

  // ---- Leaders ----

  /** The event leaves a leader of this term leading. */
  predicate Harmless(term: int, ev: Event) {
    match ev
    case Receive(p, _, _) =>
      && !p.msg.ElectionTimeout?
      && (p.msg.VoteRequest? ==> p.msg.term <= term)
      && (p.msg.Heartbeat? ==> p.msg.leader < 0 && p.msg.term <= term)
    case Tick(_, _) => true
    case TriggerElection(_) => true
    case PeerLeader(_, _) => true
    case _ => false
  }

  ghost predicate AllHarmless(term: int, evs: seq<Event>) {
    forall ev <- evs :: Harmless(term, ev)
  }

  /** When the next round of heartbeats is due: at once for a new leader, else an interval after the last. */
  function Due(c: Config, last: Option<int>): int {
    match last
    case None => 0
    case Some(r) => r + IntervalOf(c)
  }

  predicate IsRound(c: Config, last: Option<int>, ev: Event) {
    ev.Tick? && ev.now >= Due(c, last)
  }

  /** The times of the rounds among these events. */
  function Rounds(c: Config, last: Option<int>, evs: seq<Event>): seq<int>
    decreases |evs|
  {
    if evs == [] then []
    else if IsRound(c, last, evs[0]) then [evs[0].now] + Rounds(c, Some(evs[0].now), evs[1..])
    else Rounds(c, last, evs[1..])
  }

  /** The times of the ticks at which the node sends a heartbeat of its term to every other member. */
  ghost function Beats(c: Config, id: int, n: Node, evs: seq<Event>): seq<int>
    decreases |evs|
  {
    if evs == [] then []
    else
      var (m, sent) := React(c, id, n, evs[0]);
      (if evs[0].Tick? && sent != [] && Round(c, id, sent, Heartbeat(id, n.term)) then [evs[0].now] else [])
      + Beats(c, id, m, evs[1..])
  }

  /** A leader whose last round was at this time, if any. */
  ghost predicate Leading(c: Config, n: Node, last: Option<int>) {
    n.role == Leader && !n.active && n.term >= 0 && n.nextHeartbeatAt == Due(c, last)
  }

  ghost predicate HasOthers(c: Config, id: int) {
    exists d <- c.members :: d != id
  }

  lemma LeaderStep(c: Config, id: int, n: Node, last: Option<int>, ev: Event)
    requires Leading(c, n, last) && Harmless(n.term, ev)
    ensures var (m, sent) := React(c, id, n, ev);
      && m.term == n.term && Leading(c, m, if IsRound(c, last, ev) then Some(ev.now) else last)
      && (ev.Tick? ==> if IsRound(c, last, ev) then Round(c, id, sent, Heartbeat(id, n.term)) else sent == [])
  {
    BroadcastIsRound(c, id, n, Heartbeat(id, n.term));
  }

  lemma {:induction false} LeaderRun(c: Config, id: int, n: Node, last: Option<int>, evs: seq<Event>)
    requires Leading(c, n, last) && AllHarmless(n.term, evs) && HasOthers(c, id)
    ensures After(c, id, n, evs).role == Leader && After(c, id, n, evs).term == n.term
    ensures Beats(c, id, n, evs) == Rounds(c, last, evs)
    decreases |evs|
  {
    if evs != [] {
      LeaderStep(c, id, n, last, evs[0]);
      var m, sent := React(c, id, n, evs[0]).0, React(c, id, n, evs[0]).1;
      assert evs[0] in evs && forall ev <- evs[1..] :: ev in evs;
      LeaderRun(c, id, m, if IsRound(c, last, evs[0]) then Some(evs[0].now) else last, evs[1..]);
      if IsRound(c, last, evs[0]) {
        var d :| d in c.members && d != id;
        assert sent != [];
      }
    }
  }

  /** Rounds come no earlier than due, and any two of them are at least an interval apart. */
  lemma {:induction false} RoundsAreSpaced(c: Config, last: Option<int>, evs: seq<Event>)
    ensures forall i :: 0 <= i < |Rounds(c, last, evs)| ==> Rounds(c, last, evs)[i] >= Due(c, last)
    ensures forall i, j :: 0 <= i < j < |Rounds(c, last, evs)| ==>
      Rounds(c, last, evs)[j] >= Rounds(c, last, evs)[i] + IntervalOf(c)
    decreases |evs|
  {
    if evs != [] {
      RoundsAreSpaced(c, if IsRound(c, last, evs[0]) then Some(evs[0].now) else last, evs[1..]);
    }
  }

  /** The last round, counting the one before these events. */
  function LastRound(c: Config, last: Option<int>, evs: seq<Event>): Option<int> {
    var rs := Rounds(c, last, evs);
    if rs == [] then last else Some(rs[|rs| - 1])
  }

  /** At a tick the last round is always less than an interval ago. */
  lemma {:induction false} RoundsAreRecent(c: Config, last: Option<int>, evs: seq<Event>, u: int, rnd: nat)
    requires last.Some? || u >= 0
    ensures var r := LastRound(c, last, evs + [Tick(u, rnd)]);
      r.Some? && r.value > u - IntervalOf(c)
    decreases |evs|
  {
    var all := evs + [Tick(u, rnd)];
    if evs == [] {
      assert all[1..] == [];
      assert Rounds(c, last, all) == if IsRound(c, last, all[0]) then [u] else [];
    } else {
      assert all[0] == evs[0] && all[1..] == evs[1..] + [Tick(u, rnd)];
      RoundsAreRecent(c, if IsRound(c, last, evs[0]) then Some(evs[0].now) else last, evs[1..], u, rnd);
    }
  }

  /** The clock readings of the ticks are at most `g` apart, beginning at `t`. */
  predicate Ticking(t: int, evs: seq<Event>, g: nat)
    decreases |evs|
  {
    evs == [] ||
      if evs[0].Tick? then evs[0].now <= t + g && Ticking(evs[0].now, evs[1..], g) else Ticking(t, evs[1..], g)
  }

  /** Each round follows the one before it, the first one `r`, in less than `d`. */
  predicate Frequent(r: int, rs: seq<int>, d: int)
    decreases |rs|
  {
    rs == [] || (rs[0] < r + d && Frequent(rs[0], rs[1..], d))
  }

  /** A leader that ticks at least every `g` seconds lets less than an interval and `g` pass between two rounds. */
  lemma {:induction false} RoundsAreFrequent(c: Config, r: int, t: int, evs: seq<Event>, g: nat)
    requires t < r + IntervalOf(c) && Ticking(t, evs, g)
    ensures Frequent(r, Rounds(c, Some(r), evs), IntervalOf(c) + g)
    decreases |evs|
  {
    if evs != [] {
      var ev := evs[0];
      if IsRound(c, Some(r), ev) {
        RoundsAreFrequent(c, ev.now, ev.now, evs[1..], g);
        assert Rounds(c, Some(r), evs)[1..] == Rounds(c, Some(ev.now), evs[1..]);
      } else {
        RoundsAreFrequent(c, r, if ev.Tick? then ev.now else t, evs[1..], g);
      }
    }
  }

  /**
   A node that wins an election sends its heartbeats from then on for as long as it leads: to every
   other member, never twice within an interval, and after every tick the last time was less than
   an interval ago.
   */
  lemma LeaderBeats(c: Config, id: int, n: Node, src: int, voter: int, term: int, t: int, rnd: nat,
                    evs: seq<Event>, u: int, rnd': nat)
    requires NodeOk(id, n) && n.role == Candidate && HasOthers(c, id) && AllHarmless(n.term, evs) && u >= 0
    requires OnMessage(c, id, n, src, VoteGranted(voter, term), t, rnd).0.role == Leader
    ensures var b := OnMessage(c, id, n, src, VoteGranted(voter, term), t, rnd).0;
      var beats := Beats(c, id, b, evs + [Tick(u, rnd')]);
      && After(c, id, b, evs).role == Leader && After(c, id, b, evs).term == n.term
      && (forall i, j :: 0 <= i < j < |beats| ==> beats[j] >= beats[i] + IntervalOf(c))
      && beats != [] && beats[|beats| - 1] > u - IntervalOf(c)
  {
    var b, all := OnMessage(c, id, n, src, VoteGranted(voter, term), t, rnd).0, evs + [Tick(u, rnd')];
    LeaderRun(c, id, b, None, evs);
    LeaderRun(c, id, b, None, all);
    RoundsAreSpaced(c, None, all);
    RoundsAreRecent(c, None, evs, u, rnd');
  }

  /** Its first tick is a round. */
  lemma FirstTickBeats(c: Config, id: int, n: Node, src: int, voter: int, term: int, t: int, rnd: nat,
                       evs: seq<Event>, u: int, rnd': nat)
    requires NodeOk(id, n) && n.role == Candidate && AllHarmless(n.term, evs) && u >= 0
    requires OnMessage(c, id, n, src, VoteGranted(voter, term), t, rnd).0.role == Leader
    requires forall ev <- evs :: !ev.Tick?
    ensures var b := After(c, id, OnMessage(c, id, n, src, VoteGranted(voter, term), t, rnd).0, evs);
      Round(c, id, React(c, id, b, Tick(u, rnd')).1, Heartbeat(id, n.term))
  {
    var b := OnMessage(c, id, n, src, VoteGranted(voter, term), t, rnd).0;
    NoTickNoRound(c, id, b, evs);
    LeaderStep(c, id, After(c, id, b, evs), None, Tick(u, rnd'));
  }

  lemma {:induction false} NoTickNoRound(c: Config, id: int, n: Node, evs: seq<Event>)
    requires Leading(c, n, None) && AllHarmless(n.term, evs) && forall ev <- evs :: !ev.Tick?
    ensures Leading(c, After(c, id, n, evs), None) && After(c, id, n, evs).term == n.term
    decreases |evs|
  {
    if evs != [] {
      assert evs[0] in evs && forall ev <- evs[1..] :: ev in evs;
      LeaderStep(c, id, n, None, evs[0]);
      NoTickNoRound(c, id, React(c, id, n, evs[0]).0, evs[1..]);
    }
  }

  /** With no interval configured, rounds are a second apart. */
  lemma DefaultInterval(c: Config, id: int, n: Node, r: int, rnd: nat, u: int, rnd': nat)
    requires c.keepAliveInterval == 0 && HasOthers(c, id) && Leading(c, n, None) && r >= 0
    ensures React(c, id, React(c, id, n, Tick(r, rnd)).0, Tick(u, rnd')).1 != [] <==> u >= r + 1
  {
    var m := React(c, id, n, Tick(r, rnd)).0;
    LeaderStep(c, id, n, None, Tick(r, rnd));
    LeaderStep(c, id, m, Some(r), Tick(u, rnd'));
    var d :| d in c.members && d != id;
  }

  // ---- Candidates ----

  /** The event leaves a candidate of this term waiting for votes: nothing newer, no leader, no countable vote. */
  predicate Unmoved(id: int, term: int, deadline: int, ev: Event) {
    match ev
    case Receive(p, _, _) =>
      && !p.msg.ElectionTimeout?
      && (p.msg.VoteRequest? ==> p.msg.term <= term && p.msg.candidate != id)
      && (p.msg.Heartbeat? ==> p.msg.leader < 0 && p.msg.term <= term)
      && (p.msg.VoteGranted? ==> p.msg.term > term)
    case Tick(now, _) => now <= deadline
    case PeerLeader(_, _) => true
    case _ => false
  }

  ghost predicate AllUnmoved(id: int, term: int, deadline: int, evs: seq<Event>) {
    forall ev <- evs :: Unmoved(id, term, deadline, ev)
  }

  /** When requests were last sent, given when before the event: ticks a second or more later repeat them. */
  function Asked(last: int, ev: Event): int {
    if ev.Tick? && ev.now >= last + 1 then ev.now else last
  }

  function LastAsked(last: int, evs: seq<Event>): int
    decreases |evs|
  {
    if evs == [] then last else LastAsked(Asked(last, evs[0]), evs[1..])
  }

  ghost predicate Asking(id: int, n: Node, last: int, deadline: int) {
    && n.role == Candidate && n.active && n.term >= 0 && n.votedFor == id && id > 0
    && n.nextVoteRequestAt == last + 1 && n.electionDeadline == deadline
  }

  lemma CandidateStep(c: Config, id: int, n: Node, last: int, deadline: int, ev: Event)
    requires Asking(id, n, last, deadline) && Unmoved(id, n.term, deadline, ev)
    ensures Asking(id, React(c, id, n, ev).0, Asked(last, ev), deadline) && React(c, id, n, ev).0.term == n.term
  {}

  lemma {:induction false} CandidateRun(c: Config, id: int, n: Node, last: int, deadline: int, evs: seq<Event>)
    requires Asking(id, n, last, deadline) && AllUnmoved(id, n.term, deadline, evs)
    ensures Asking(id, After(c, id, n, evs), LastAsked(last, evs), deadline) && After(c, id, n, evs).term == n.term
    decreases |evs|
  {
    if evs != [] {
      assert evs[0] in evs && forall ev <- evs[1..] :: ev in evs;
      CandidateStep(c, id, n, last, deadline, evs[0]);
      CandidateRun(c, id, React(c, id, n, evs[0]).0, Asked(last, evs[0]), deadline, evs[1..]);
    }
  }

  /** What a candidate's tick at time `u` sends, given when it last asked and when its patience ends. */
  ghost predicate CandidateTick(c: Config, id: int, n: Node, last: int, deadline: int, u: int, x: Node,
                                sent: seq<Packet>)
  {
    if u > deadline then
      exists k :: 0 <= k <= |sent| && Campaigns(c, id, n, x, sent[k..])
        && (if u >= last + 1 then Round(c, id, sent[..k], VoteRequest(id, n.term)) else k == 0)
    else
      && x.role == Candidate && x.term == n.term
      && if u >= last + 1 then Round(c, id, sent, VoteRequest(id, n.term)) else sent == []
  }

  lemma NextCandidateTick(c: Config, id: int, n: Node, last: int, deadline: int, u: int, rnd: nat)
    requires Asking(id, n, last, deadline)
    ensures CandidateTick(c, id, n, last, deadline, u, React(c, id, n, Tick(u, rnd)).0, React(c, id, n, Tick(u, rnd)).1)
  {
    var (a, first) := if u >= last + 1 then RequestVotes(c, id, n, u) else (n, []);
    var (b, more) := StartElection(c, id, a, u, rnd);
    BroadcastIsRound(c, id, n, VoteRequest(id, n.term));
    ElectionCampaigns(c, id, a, u, rnd);
    var sent := React(c, id, n, Tick(u, rnd)).1;
    if u > deadline {
      assert sent == first + more;
      assert sent[..|first|] == first && sent[|first|..] == more;
    }
  }

  /**
   A follower whose patience ends at tick `t` asks everybody for a vote, asks again at every tick a
   second or more after the last time, and starts over in the next term at the first tick past its
   deadline, which lies one to two timeouts after `t`.
   */
  lemma CandidateRetries(c: Config, id: int, n: Node, heard: int, t: int, rnd: nat, evs: seq<Event>, u: int, rnd': nat)
    requires id > 0 && Waiting(n, heard) && t > heard + TimeoutOf(c)
    requires AllUnmoved(id, n.term + 1, t + TimeoutOf(c) + rnd % TimeoutOf(c), evs)
    ensures var (b, asked) := React(c, id, n, Tick(t, rnd));
      var m := After(c, id, b, evs);
      var (x, sent) := React(c, id, m, Tick(u, rnd'));
      && Campaigns(c, id, n, b, asked) && m.role == Candidate && m.term == n.term + 1
      && CandidateTick(c, id, m, LastAsked(t, evs), t + TimeoutOf(c) + rnd % TimeoutOf(c), u, x, sent)
  {
    var b, d := React(c, id, n, Tick(t, rnd)).0, t + TimeoutOf(c) + rnd % TimeoutOf(c);
    NextTick(c, id, n, heard, t, rnd);
    CandidateRun(c, id, b, t, d, evs);
    NextCandidateTick(c, id, After(c, id, b, evs), LastAsked(t, evs), d, u, rnd');
  }

  /** After an `ELECTION_TIMEOUT` campaign the very next tick asks again, and only then does the second begin. */
  lemma TimeoutRetries(c: Config, id: int, n: Node, heard: int, t: int, rnd: nat, evs: seq<Event>, u: int, rnd': nat)
    requires id > 0 && Waiting(n, heard) && t > heard + c.keepAliveTimeout
    requires AllUnmoved(id, n.term + 1, t + TimeoutOf(c) + rnd % TimeoutOf(c), evs)
    ensures var (b, asked) := React(c, id, n, Timeout(t, rnd));
      var m := After(c, id, b, evs);
      var (x, sent) := React(c, id, m, Tick(u, rnd'));
      && Campaigns(c, id, n, b, asked) && m.role == Candidate && m.term == n.term + 1
      && CandidateTick(c, id, m, LastAsked(-1, evs), t + TimeoutOf(c) + rnd % TimeoutOf(c), u, x, sent)
  {
    var b, d := React(c, id, n, Timeout(t, rnd)).0, t + TimeoutOf(c) + rnd % TimeoutOf(c);
    NextTimeout(c, id, n, heard, t, rnd);
    CandidateRun(c, id, b, -1, d, evs);
    NextCandidateTick(c, id, After(c, id, b, evs), LastAsked(-1, evs), d, u, rnd');
  }

  /** A candidate that is told to elect starts over at its first tick after the command. */
  lemma TriggeredCandidate(c: Config, id: int, n: Node, last: int, deadline: int, now: int, u: int, rnd: nat)
    requires Asking(id, n, last, deadline)
    ensures var m := React(c, id, n, TriggerElection(now)).0;
      CandidateTick(c, id, m, last, now, u, React(c, id, m, Tick(u, rnd)).0, React(c, id, m, Tick(u, rnd)).1)
      && m.role == Candidate && RecordOf(m) == RecordOf(n)
  {
    NextCandidateTick(c, id, React(c, id, n, TriggerElection(now)).0, last, now, u, rnd);
  }
}
