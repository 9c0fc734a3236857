/** Counting facts about finite sets. */
module Quorums {

  lemma SubsetIsSmaller<T>(a: set<T>, b: set<T>)
    requires a <= b
    ensures |a| <= |b|
  {
    assert b == a + (b - a);
  }

  lemma Union<T>(a: set<T>, b: set<T>, c: set<T>)
    ensures (a + b) + c == a + (b + c)
  {}

  lemma UnionGrows<T>(a: set<T>, b: set<T>, c: set<T>)
    ensures |a + b| <= |a + (b + c)| && |a + c| <= |a + (b + c)|
  {
    SubsetIsSmaller(a + b, a + (b + c));
    SubsetIsSmaller(a + c, a + (b + c));
  }

  lemma {:induction false} DistinctCount<T>(s: seq<T>)
    requires forall i, j :: 0 <= i < j < |s| ==> s[i] != s[j]
    ensures |set x | x in s| == |s|
  {
    if s != [] {
      var rest := s[1..];
      DistinctCount(rest);
      assert s == [s[0]] + rest;
      assert (set x | x in s) == {s[0]} + set x | x in rest;
    }
  }

  /** Two majorities of one membership share a voter. */
  lemma MajoritiesMeet<T>(all: set<T>, a: set<T>, b: set<T>) returns (v: T)
    requires a <= all && b <= all && |a| > |all| / 2 && |b| > |all| / 2
    ensures v in a && v in b
  {
    if a * b == {} {
      assert |a + b| == |a| + |b|;
      SubsetIsSmaller(a + b, all);
    }
    v :| v in a * b;
  }
}

/**
 The cluster: nodes with a fixed shared membership, a network that may lose, duplicate,
 delay and reorder, clocks that may show anything, and crashes with restarts from
 `rale.state`. A run is any sequence of steps; the theorems hold for every run.
 */
module Protocol {
  import opened Options
  import opened Election
  import opened NodeLaws
  import Quorums

  /** `voter` was once in `term` with its vote given to `candidate` (itself included). */
  datatype Vote = Vote(voter: int, term: int, candidate: int)

  /** `leader` was once leader in `term`; `quorum` are the distinct voters of that term it had heard from. */
  datatype Reign = Reign(leader: int, term: int, quorum: set<int>)

  /**
   `nodes` and `net` are the system; `votes`, `heard` and `reigns` are history that no
   step reads. Packets stay in `net`, so each may be delivered never, once or often.
   */
  datatype World = World(
    nodes: map<int, Node>,
    net: set<Packet>,
    votes: set<Vote>,
    heard: map<int, set<int>>,
    reigns: set<Reign>)

  datatype Step = Step(node: int, event: Event)

  ghost predicate ConfigOk(c: Config) {
    && (forall m <- c.members :: m > 0)
    && (forall i, j :: 0 <= i < j < |c.members| ==> c.members[i] != c.members[j])
  }

  function Members(c: Config): set<int> {
    set m | m in c.members
  }

  function Start(c: Config, now: int, rnd: nat): World {
    World(map m | m in Members(c) :: Boot(c, None, now, rnd), {}, {}, map m | m in Members(c) :: {}, {})
  }

  ghost predicate Enabled(w: World, s: Step) {
    && s.node in w.nodes
    && s.node in w.heard
    && (s.event.Receive? ==> s.event.packet in w.net && s.event.packet.dst == s.node)
  }

  /** The handler of `n` adds this event to its vote counter. */
  predicate Counts(n: Node, ev: Event) {
    ev.Receive? && ev.packet.msg.VoteGranted? && n.active && ev.packet.msg.term <= n.term
  }

  /** The voters of the current term heard from so far: a tally keyed by voter and term. */
  function Hear(id: int, n: Node, ev: Event, m: Node, heard: set<int>): set<int> {
    if m.term != n.term then (if m.votedFor == id then {id} else {})
    else if Counts(n, ev) && ev.packet.msg.term == n.term then heard + {ev.packet.msg.voter}
    else heard
  }

  ghost function Apply(c: Config, w: World, s: Step): World {
    if !Enabled(w, s) then w
    else
      var n := w.nodes[s.node];
      var (m, sent) := React(c, s.node, n, s.event);
      var heard := Hear(s.node, n, s.event, m, w.heard[s.node]);
      World(w.nodes[s.node := m],
            w.net + (set p | p in sent),
            w.votes + (if m.votedFor == -1 then {} else {Vote(s.node, m.term, m.votedFor)}),
            w.heard[s.node := heard],
            w.reigns + (if m.role == Leader then {Reign(s.node, m.term, heard)} else {}))
  }

  ghost function Run(c: Config, w: World, steps: seq<Step>): World
    decreases |steps|
  {
    if steps == [] then w else Run(c, Apply(c, w, steps[0]), steps[1..])
  }

  // ---- Hypotheses on runs, each decided before the step it is about ----

  ghost predicate StepRollsBack(w: World, s: Step) {
    Enabled(w, s) && RollsBack(w.nodes[s.node], s.event)
  }

  /** A counted grant of an older term, or a second one from the same voter. */
  ghost predicate StepMiscounts(w: World, s: Step) {
    && Enabled(w, s)
    && Counts(w.nodes[s.node], s.event)
    && (s.event.packet.msg.term != w.nodes[s.node].term || s.event.packet.msg.voter in w.heard[s.node])
  }

  /** No peer's `LEADER` line rolls a file back behind its node's memory. */
  ghost predicate FilesKept(c: Config, w: World, steps: seq<Step>)
    decreases |steps|
  {
    steps == [] || (!StepRollsBack(w, steps[0]) && FilesKept(c, Apply(c, w, steps[0]), steps[1..]))
  }

  /** No candidacy counts two grants from one voter or a grant from an older term. */
  ghost predicate FairCount(c: Config, w: World, steps: seq<Step>)
    decreases |steps|
  {
    steps == [] || (!StepMiscounts(w, steps[0]) && FairCount(c, Apply(c, w, steps[0]), steps[1..]))
  }

  ghost predicate NoLeaderLines(steps: seq<Step>) {
    forall s <- steps :: !s.event.PeerLeader?
  }

  // ---- Invariants ----

  ghost predicate NodesOk(c: Config, w: World) {
    && w.nodes.Keys == Members(c) == w.heard.Keys
    && forall i <- w.nodes :: NodeOk(i, w.nodes[i])
  }

  /** Every packet is truthful, and every granted vote in flight is in the voting history. */
  ghost predicate NetOk(c: Config, w: World) {
    forall p <- w.net ::
      && PacketOk(p) && p.src in Members(c)
      && (p.msg.VoteGranted? ==> Vote(p.src, p.msg.term, p.dst) in w.votes)
  }

  /** Every vote ever held is still honoured by its voter. */
  ghost predicate VotesOk(c: Config, w: World) {
    forall v <- w.votes ::
      && v.voter in w.nodes && v.candidate > 0
      && Honours(Promise(v.term, v.candidate), Memory(w.nodes[v.voter]))
  }

  ghost predicate OneVoteEach(w: World) {
    forall a <- w.votes, b <- w.votes :: a.voter == b.voter && a.term == b.term ==> a.candidate == b.candidate
  }

  ghost predicate Backed(w: World, voters: set<int>, term: int, candidate: int) {
    forall v <- voters :: Vote(v, term, candidate) in w.votes
  }

  /** Whoever a node has heard from did vote for it in its term. */
  ghost predicate HeardOk(w: World) {
    && (forall i <- w.nodes :: i in w.heard && Backed(w, w.heard[i], w.nodes[i].term, i))
    && (forall r <- w.reigns :: Backed(w, r.quorum, r.term, r.leader))
  }

  ghost predicate Inv(c: Config, w: World) {
    NodesOk(c, w) && NetOk(c, w) && VotesOk(c, w) && OneVoteEach(w) && HeardOk(w)
  }

  /** The bare counter agrees with the keyed tally, and every leader had a majority of it. */
  ghost predicate TallyOk(c: Config, w: World) {
    && (forall i <- w.nodes :: i in w.heard && (w.nodes[i].active ==> w.nodes[i].votes == |w.heard[i]|))
    && (forall i <- w.nodes :: i in w.heard && (w.nodes[i].role == Leader ==> |w.heard[i]| > |c.members| / 2))
    && (forall r <- w.reigns :: |r.quorum| > |c.members| / 2)
  }

  /** Every node is in step with its file, and so was every sender when it sent. */
  ghost predicate WrittenAhead(w: World) {
    && (forall i <- w.nodes :: Synced(RecordOf(w.nodes[i]), w.nodes[i].disk))
    && (forall p <- w.net :: Synced(p.memory, p.disk))
  }

  // ---- One step ----

  lemma StepKeepsNodes(c: Config, w: World, s: Step)
    requires ConfigOk(c) && Inv(c, w) && Enabled(w, s) && !StepRollsBack(w, s)
    ensures var w' := Apply(c, w, s);
      && NodesOk(c, w')
      && Honours(Memory(w.nodes[s.node]), Memory(w'.nodes[s.node]))
  {
    ReactionKeepsPromise(c, s.node, w.nodes[s.node], s.event);
  }

  lemma StepKeepsNet(c: Config, w: World, s: Step)
    requires ConfigOk(c) && Inv(c, w) && Enabled(w, s)
    ensures NetOk(c, Apply(c, w, s))
  {
    var w' := Apply(c, w, s);
    forall p <- w'.net
      ensures PacketOk(p) && p.src in Members(c)
      ensures p.msg.VoteGranted? ==> Vote(p.src, p.msg.term, p.dst) in w'.votes
    {
      if p !in w.net {
        SentPackets(c, s.node, w.nodes[s.node], s.event, p);
      }
    }
  }

  lemma StepKeepsVotes(c: Config, w: World, s: Step)
    requires ConfigOk(c) && Inv(c, w) && Enabled(w, s) && !StepRollsBack(w, s)
    ensures VotesOk(c, Apply(c, w, s)) && OneVoteEach(Apply(c, w, s))
  {
    var w' := Apply(c, w, s);
    StepKeepsNodes(c, w, s);
    forall v <- w'.votes
      ensures v.voter in w'.nodes && v.candidate > 0 && Honours(Promise(v.term, v.candidate), Memory(w'.nodes[v.voter]))
    {
    }
    forall a <- w'.votes, b <- w'.votes | a.voter == b.voter && a.term == b.term ensures a.candidate == b.candidate {
      if a !in w.votes || b !in w.votes {
        assert a.voter == s.node;
      }
    }
  }

  lemma StepKeepsHeard(c: Config, w: World, s: Step)
    requires ConfigOk(c) && Inv(c, w) && Enabled(w, s) && !StepRollsBack(w, s)
    ensures HeardOk(Apply(c, w, s))
  {
    var w' := Apply(c, w, s);
    assert Backed(w', w'.heard[s.node], w'.nodes[s.node].term, s.node);
  }

  lemma StepKeepsInv(c: Config, w: World, s: Step)
    requires ConfigOk(c) && Inv(c, w) && !StepRollsBack(w, s)
    ensures Inv(c, Apply(c, w, s))
  {
    if Enabled(w, s) {
      StepKeepsNodes(c, w, s);
      StepKeepsNet(c, w, s);
      StepKeepsVotes(c, w, s);
      StepKeepsHeard(c, w, s);
    }
  }

  predicate NodeTallyOk(c: Config, n: Node, heard: set<int>) {
    && (n.active ==> n.votes == |heard|)
    && (n.role == Leader ==> |heard| > |c.members| / 2)
  }

  /** A node that counts nothing keeps its counter and its leadership in a term, and starts a new one at one vote. */
  lemma QuietReaction(c: Config, id: int, n: Node, ev: Event)
    requires NodeOk(id, n) && EventOk(id, ev) && !Counts(n, ev)
    ensures var m := React(c, id, n, ev).0;
      if m.term == n.term then (m.active ==> n.active && m.votes == n.votes) && (m.role == Leader ==> n.role == Leader)
      else (m.active ==> m.votes == 1 && m.votedFor == id) && m.role != Leader
  {}

  lemma ReactionKeepsTally(c: Config, id: int, n: Node, ev: Event, heard: set<int>)
    requires NodeOk(id, n) && EventOk(id, ev) && NodeTallyOk(c, n, heard)
    requires Counts(n, ev) ==> ev.packet.msg.term == n.term && ev.packet.msg.voter !in heard
    ensures var m := React(c, id, n, ev).0; NodeTallyOk(c, m, Hear(id, n, ev, m, heard))
  {
    if !Counts(n, ev) {
      QuietReaction(c, id, n, ev);
    }
  }

  lemma StepKeepsTally(c: Config, w: World, s: Step)
    requires NodesOk(c, w) && NetOk(c, w) && TallyOk(c, w) && !StepMiscounts(w, s)
    ensures TallyOk(c, Apply(c, w, s))
  {
    if Enabled(w, s) {
      assert NodeTallyOk(c, w.nodes[s.node], w.heard[s.node]);
      ReactionKeepsTally(c, s.node, w.nodes[s.node], s.event, w.heard[s.node]);
    }
  }

  /** Counting a grant leaves the counter equal to the number of distinct voters heard exactly when it is fair. */
  lemma TallyExactIffFair(c: Config, w: World, s: Step)
    requires ConfigOk(c) && Inv(c, w) && TallyOk(c, w) && Enabled(w, s)
    requires Counts(w.nodes[s.node], s.event)
    ensures |Apply(c, w, s).heard[s.node]| == w.nodes[s.node].votes + 1 <==> !StepMiscounts(w, s)
  {
    var p := s.event.packet.msg;
    if p.voter in w.heard[s.node] {
      assert w.heard[s.node] + {p.voter} == w.heard[s.node];
    }
  }

  lemma StepStaysWrittenAhead(c: Config, w: World, s: Step)
    requires ConfigOk(c) && Inv(c, w) && WrittenAhead(w) && !s.event.PeerLeader?
    ensures WrittenAhead(Apply(c, w, s))
  {
    if Enabled(w, s) {
      ReactionStaysSynced(c, s.node, w.nodes[s.node], s.event);
      forall p <- React(c, s.node, w.nodes[s.node], s.event).1 ensures Synced(p.memory, p.disk) {
        SentPackets(c, s.node, w.nodes[s.node], s.event, p);
      }
    }
  }

  // ---- Quorums ----

  lemma MembersAreCounted(c: Config)
    requires ConfigOk(c)
    ensures |Members(c)| == |c.members|
  {
    Quorums.DistinctCount(c.members);
  }

  lemma MajorityPicksOne(c: Config, w: World, qa: set<int>, a: int, qb: set<int>, b: int, term: int)
    requires ConfigOk(c) && Inv(c, w)
    requires Backed(w, qa, term, a) && Backed(w, qb, term, b)
    requires |qa| > |c.members| / 2 && |qb| > |c.members| / 2
    ensures a == b
  {
    MembersAreCounted(c);
    assert qa <= Members(c) by {
      forall v <- qa ensures v in Members(c) {
        assert Vote(v, term, a) in w.votes;
      }
    }
    assert qb <= Members(c) by {
      forall v <- qb ensures v in Members(c) {
        assert Vote(v, term, b) in w.votes;
      }
    }
    var v := Quorums.MajoritiesMeet(Members(c), qa, qb);
    assert Vote(v, term, a) in w.votes && Vote(v, term, b) in w.votes;
  }

  // ---- Whole runs ----

  lemma StartOk(c: Config, now: int, rnd: nat)
    requires ConfigOk(c)
    ensures Inv(c, Start(c, now, rnd)) && TallyOk(c, Start(c, now, rnd)) && WrittenAhead(Start(c, now, rnd))
  {}

  ghost predicate AllHonoured(w: World, w': World) {
    forall i <- w.nodes :: i in w'.nodes && Honours(Memory(w.nodes[i]), Memory(w'.nodes[i]))
  }

  lemma StepHonoursAll(c: Config, w: World, s: Step)
    requires ConfigOk(c) && Inv(c, w) && !StepRollsBack(w, s)
    ensures AllHonoured(w, Apply(c, w, s))
  {
    if Enabled(w, s) {
      StepKeepsNodes(c, w, s);
    }
  }

  lemma {:induction false} RunKeepsInv(c: Config, w: World, steps: seq<Step>)
    requires ConfigOk(c) && Inv(c, w) && FilesKept(c, w, steps)
    ensures Inv(c, Run(c, w, steps)) && AllHonoured(w, Run(c, w, steps))
    decreases |steps|
  {
    if steps != [] {
      StepKeepsInv(c, w, steps[0]);
      StepHonoursAll(c, w, steps[0]);
      RunKeepsInv(c, Apply(c, w, steps[0]), steps[1..]);
    }
  }

  lemma {:induction false} RunKeepsTally(c: Config, w: World, steps: seq<Step>)
    requires ConfigOk(c) && Inv(c, w) && TallyOk(c, w) && FilesKept(c, w, steps) && FairCount(c, w, steps)
    ensures TallyOk(c, Run(c, w, steps))
    decreases |steps|
  {
    if steps != [] {
      StepKeepsInv(c, w, steps[0]);
      StepKeepsTally(c, w, steps[0]);
      RunKeepsTally(c, Apply(c, w, steps[0]), steps[1..]);
    }
  }

  lemma {:induction false} RunStaysWrittenAhead(c: Config, w: World, steps: seq<Step>)
    requires ConfigOk(c) && Inv(c, w) && WrittenAhead(w) && NoLeaderLines(steps)
    ensures FilesKept(c, w, steps) && WrittenAhead(Run(c, w, steps))
    decreases |steps|
  {
    if steps != [] {
      StepKeepsInv(c, w, steps[0]);
      StepStaysWrittenAhead(c, w, steps[0]);
      RunStaysWrittenAhead(c, Apply(c, w, steps[0]), steps[1..]);
    }
  }

  // ---- Theorems ----

  /**
   One vote per term, across any number of crashes: no voter ever holds votes for two
   candidates in one term, so no two grants of one voter and term name two candidates.
   */
  lemma OneVotePerTerm(c: Config, now: int, rnd: nat, steps: seq<Step>)
    requires ConfigOk(c) && FilesKept(c, Start(c, now, rnd), steps)
    ensures var w := Run(c, Start(c, now, rnd), steps);
      && OneVoteEach(w)
      && (forall p <- w.net, q <- w.net ::
            p.msg.VoteGranted? && q.msg.VoteGranted? && p.src == q.src && p.msg.term == q.msg.term ==> p.dst == q.dst)
      && (forall p <- w.net :: p.msg.VoteGranted? ==>
            p.src in w.nodes && Honours(Promise(p.msg.term, p.dst), Memory(w.nodes[p.src])))
  {
    StartOk(c, now, rnd);
    RunKeepsInv(c, Start(c, now, rnd), steps);
  }

  /** Terms never fall and votes are never revoked between any two moments of a run. */
  lemma PromisesLast(c: Config, now: int, rnd: nat, before: seq<Step>, after: seq<Step>, i: int)
    requires ConfigOk(c) && i in c.members
    requires FilesKept(c, Start(c, now, rnd), before)
    requires FilesKept(c, Run(c, Start(c, now, rnd), before), after)
    ensures var w := Run(c, Start(c, now, rnd), before);
      var w' := Run(c, w, after);
      i in w.nodes && i in w'.nodes && Honours(Memory(w.nodes[i]), Memory(w'.nodes[i]))
  {
    StartOk(c, now, rnd);
    RunKeepsInv(c, Start(c, now, rnd), before);
    RunKeepsInv(c, Run(c, Start(c, now, rnd), before), after);
  }

  /** Without any condition on counting: at most one node per term ever had a majority of distinct voters. */
  lemma KeyedMajorityIsUnique(c: Config, now: int, rnd: nat, steps: seq<Step>, a: Reign, b: Reign)
    requires ConfigOk(c) && FilesKept(c, Start(c, now, rnd), steps)
    requires var w := Run(c, Start(c, now, rnd), steps); a in w.reigns && b in w.reigns
    requires a.term == b.term && |a.quorum| > |c.members| / 2 && |b.quorum| > |c.members| / 2
    ensures a.leader == b.leader
  {
    StartOk(c, now, rnd);
    RunKeepsInv(c, Start(c, now, rnd), steps);
    MajorityPicksOne(c, Run(c, Start(c, now, rnd), steps), a.quorum, a.leader, b.quorum, b.leader, a.term);
  }

  /** Election safety: in every run that counts fairly, no two nodes are ever leader in one term. */
  lemma ElectionSafety(c: Config, now: int, rnd: nat, steps: seq<Step>)
    requires ConfigOk(c)
    requires FilesKept(c, Start(c, now, rnd), steps) && FairCount(c, Start(c, now, rnd), steps)
    ensures var w := Run(c, Start(c, now, rnd), steps);
      && (forall a <- w.reigns, b <- w.reigns :: a.term == b.term ==> a.leader == b.leader)
      && (forall i <- w.nodes, j <- w.nodes ::
            w.nodes[i].role == Leader && w.nodes[j].role == Leader && w.nodes[i].term == w.nodes[j].term ==> i == j)
  {
    var w := Run(c, Start(c, now, rnd), steps);
    StartOk(c, now, rnd);
    RunKeepsInv(c, Start(c, now, rnd), steps);
    RunKeepsTally(c, Start(c, now, rnd), steps);
    forall a <- w.reigns, b <- w.reigns | a.term == b.term ensures a.leader == b.leader {
      MajorityPicksOne(c, w, a.quorum, a.leader, b.quorum, b.leader, a.term);
    }
    forall i <- w.nodes, j <- w.nodes |
      w.nodes[i].role == Leader && w.nodes[j].role == Leader && w.nodes[i].term == w.nodes[j].term
      ensures i == j
    {
      MajorityPicksOne(c, w, w.heard[i], i, w.heard[j], j, w.nodes[i].term);
    }
  }

  /** Write-ahead: whenever any packet was sent, the file already held the sender's whole state. */
  lemma NothingIsSentUnsaved(c: Config, now: int, rnd: nat, steps: seq<Step>)
    requires ConfigOk(c) && NoLeaderLines(steps)
    ensures WrittenAhead(Run(c, Start(c, now, rnd), steps))
  {
    StartOk(c, now, rnd);
    RunStaysWrittenAhead(c, Start(c, now, rnd), steps);
  }

  /** The role invariant in every reachable state, and with it the write gate of every leader. */
  lemma RolesAndGate(c: Config, now: int, rnd: nat, steps: seq<Step>, i: int)
    requires ConfigOk(c) && NoLeaderLines(steps) && i in c.members
    ensures var w := Run(c, Start(c, now, rnd), steps);
      && i in w.nodes
      && (w.nodes[i].active <==> w.nodes[i].role == Candidate)
      && (w.nodes[i].role != Follower ==> w.nodes[i].votedFor == i)
      && (GateOpen(i, w.nodes[i].disk) <==> w.nodes[i].votedFor != -1 && w.nodes[i].leaderId == i)
      && (w.nodes[i].role == Leader ==> GateOpen(i, w.nodes[i].disk))
  {
    var w := Run(c, Start(c, now, rnd), steps);
    StartOk(c, now, rnd);
    RunStaysWrittenAhead(c, Start(c, now, rnd), steps);
    RunKeepsInv(c, Start(c, now, rnd), steps);
    GateFollowsLeaderId(i, w.nodes[i]);
  }
}
