/**
 What peers' `LEADER` lines can do to a whole run: they roll files back, restarts follow the
 files, and a term that had its leader elects another one, with every count fair.
 */
module Rollback {
  import opened Election
  import opened Protocol
  import opened ProtocolFailures
  import opened FairElection

  /** Two different nodes have reigned in one term. */
  ghost predicate TwoReigns(w: World) {
    exists r <- w.reigns, q <- w.reigns :: r.leader != q.leader && r.term == q.term
  }

  ghost predicate NoTimeouts(steps: seq<Step>) {
    forall s <- steps :: !s.event.Timeout?
  }

  lemma {:induction false} ReignsStay(c: Config, w: World, steps: seq<Step>)
    ensures w.reigns <= Run(c, w, steps).reigns
    decreases |steps|
  {
    if steps != [] {
      ReignsStay(c, Apply(c, w, steps[0]), steps[1..]);
    }
  }

  /** Node `i` has restarted at time `now` from a file of term 0. */
  ghost predicate Reset(c: Config, w: World, i: int, now: int) {
    && i in w.nodes && i in w.heard && w.nodes[i].term == 0 && w.nodes[i].role == Follower
    && w.nodes[i].lastHeartbeat == now && w.nodes[i].electionDeadline == now + TimeoutOf(c)
  }

  /** A leader line of term 0, the term that snapshots carry, and a restart, whatever the node was. */
  lemma RolledNode(c: Config, i: int, n: Node, leader: int, now: int)
    requires c.members != [] && leader >= 0
    ensures var m := React(c, i, React(c, i, n, PeerLeader(0, leader)).0, Restart(now, 0)).0;
      m.term == 0 && m.role == Follower && m.lastHeartbeat == now && m.electionDeadline == now + TimeoutOf(c)
  {}

  lemma RollOne(c: Config, w: World, i: int, leader: int, now: int)
    requires AllThere(c, w) && i in c.members && leader >= 0
    ensures var s, s' := Step(i, PeerLeader(0, leader)), Step(i, Restart(now, 0));
      var w1 := Apply(c, w, s); var w2 := Apply(c, w1, s');
      && !StepMiscounts(w, s) && !StepMiscounts(w1, s') && AllThere(c, w2) && Reset(c, w2, i, now)
      && forall j <- w.nodes :: j != i ==> w2.nodes[j] == w.nodes[j]
  {
    RolledNode(c, i, w.nodes[i], leader, now);
  }

  lemma {:induction false} RollFrom(c: Config, w: World, k: nat, leader: int, now: int) returns (steps: seq<Step>)
    requires ConfigOk(c) && AllThere(c, w) && k <= |c.members| && leader >= 0
    ensures NoTimeouts(steps) && FairCount(c, w, steps)
    ensures var w' := Run(c, w, steps);
      && AllThere(c, w') && (forall i :: k <= i < |c.members| ==> Reset(c, w', c.members[i], now))
      && forall i :: 0 <= i < k ==> c.members[i] in w.nodes && w'.nodes[c.members[i]] == w.nodes[c.members[i]]
    decreases |c.members| - k
  {
    if k == |c.members| {
      steps := [];
      assert forall i :: 0 <= i < k ==> c.members[i] in Members(c);
    } else {
      var m := c.members[k];
      var s, s' := Step(m, PeerLeader(0, leader)), Step(m, Restart(now, 0));
      RollOne(c, w, m, leader, now);
      var w1 := Apply(c, w, s);
      var w2 := Apply(c, w1, s');
      var rest := RollFrom(c, w2, k + 1, leader, now);
      RunStep(c, w1, s', rest);
      RunStep(c, w, s, [s'] + rest);
      steps := [s] + ([s'] + rest);
      Settled(c, w, w2, Run(c, w2, rest), k, now);
    }
  }

  lemma Settled(c: Config, w: World, w2: World, w3: World, k: nat, now: int)
    requires ConfigOk(c) && k < |c.members| && AllThere(c, w) && AllThere(c, w2) && AllThere(c, w3)
    requires Reset(c, w2, c.members[k], now) && forall j <- w.nodes :: j != c.members[k] ==> w2.nodes[j] == w.nodes[j]
    requires forall i :: k + 1 <= i < |c.members| ==> Reset(c, w3, c.members[i], now)
    requires forall i :: 0 <= i < k + 1 ==>
               c.members[i] in w2.nodes && w3.nodes[c.members[i]] == w2.nodes[c.members[i]]
    ensures forall i :: k <= i < |c.members| ==> Reset(c, w3, c.members[i], now)
    ensures forall i :: 0 <= i < k ==> c.members[i] in w.nodes && w3.nodes[c.members[i]] == w.nodes[c.members[i]]
  {
    forall i | 0 <= i < k ensures c.members[i] in w.nodes && w3.nodes[c.members[i]] == w.nodes[c.members[i]] {
      assert c.members[i] in Members(c) && c.members[i] != c.members[k];
    }
    assert c.members[k] in Members(c) && Reset(c, w3, c.members[k], now);
  }

  lemma {:induction false} FairAppend(c: Config, w: World, s: seq<Step>, t: seq<Step>)
    requires FairCount(c, w, s) && FairCount(c, Run(c, w, s), t)
    ensures FairCount(c, w, s + t)
    decreases |s|
  {
    if s == [] {
      assert s + t == t;
    } else {
      assert (s + t)[0] == s[0] && (s + t)[1..] == s[1..] + t;
      FairAppend(c, Apply(c, w, s[0]), s[1..], t);
    }
  }

  /** After everybody has been rolled back the second member wins the first term again. */
  lemma SecondElection(c: Config, w: World, now: int) returns (steps: seq<Step>)
    requires ConfigOk(c) && |c.members| >= 2 && AllThere(c, w)
    requires forall i :: 0 <= i < |c.members| ==> Reset(c, w, c.members[i], now)
    ensures Ordinary(steps) && FairCount(c, w, steps) && Leads(Run(c, w, steps), c.members[1], 1)
  {
    var b, vs := c.members[1], [c.members[0]] + c.members[2..];
    assert VotersOk(c, b, vs);
    assert Reset(c, w, b, now) && Overdue(c, w, b, Later(c, now));
    forall v <- vs ensures 0 <= w.nodes[v].term <= w.nodes[b].term {
      var i :| 0 <= i < |c.members| && c.members[i] == v;
      assert Reset(c, w, c.members[i], now);
    }
    steps := Elect(c, w, b, vs, Later(c, now));
  }

  lemma TwiceElected(c: Config, now: int, rnd: nat) returns (steps: seq<Step>)
    requires ConfigOk(c) && |c.members| >= 2
    ensures var w := Start(c, now, rnd); NoTimeouts(steps) && FairCount(c, w, steps) && TwoReigns(Run(c, w, steps))
  {
    var w := Start(c, now, rnd);
    var first := FirstElection(c, now, rnd);
    var w1 := Run(c, w, first);
    var roll := RollFrom(c, w1, 0, c.members[0], now);
    var w2 := Run(c, w1, roll);
    var second := SecondElection(c, w2, now);
    var w3 := Run(c, w2, second);
    ReignsStay(c, w1, roll);
    ReignsStay(c, w2, second);
    RunAppend(c, w, first, roll);
    RunAppend(c, w, first + roll, second);
    FairAppend(c, w, first, roll);
    FairAppend(c, w, first + roll, second);
    steps := first + roll + second;
    var p :| Reign(c.members[0], 1, p) in w1.reigns;
    var q :| Reign(c.members[1], 1, q) in w3.reigns;
    assert Reign(c.members[0], 1, p) in w3.reigns;
  }

  /**
   Election safety needs the files kept: with leader lines allowed, some run counts fairly and has two
   different nodes reign in one term, exactly when there are two members or more.
   */
  lemma RollbackUnsafeIffPlural(c: Config, now: int, rnd: nat)
    requires ConfigOk(c)
    ensures (exists steps ::
               NoTimeouts(steps) && FairCount(c, Start(c, now, rnd), steps)
               && TwoReigns(Run(c, Start(c, now, rnd), steps)))
            <==> |c.members| >= 2
  {
    if |c.members| >= 2 {
      var steps := TwiceElected(c, now, rnd);
    } else {
      forall steps: seq<Step> ensures !TwoReigns(Run(c, Start(c, now, rnd), steps)) {
        LoneNodeNeverLeads(c, Start(c, now, rnd), steps);
      }
    }
  }
}
