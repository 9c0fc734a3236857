/**
 Where the counter of votes falls short of the design: for which cluster sizes a run
 elects anyone, and for which a run elects two leaders in one term.
 */
module ProtocolFailures {
  import opened Election
  import opened NodeLaws
  import opened Protocol

  ghost predicate TwoLeadersInOneTerm(c: Config, now: int, rnd: nat, steps: seq<Step>) {
    var w := Run(c, Start(c, now, rnd), steps);
    exists i <- w.nodes, j <- w.nodes ::
      i != j && w.nodes[i].role == Leader && w.nodes[j].role == Leader && w.nodes[i].term == w.nodes[j].term
  }

  ghost predicate ElectsSomeone(c: Config, now: int, rnd: nat, steps: seq<Step>) {
    var w := Run(c, Start(c, now, rnd), steps);
    exists i <- w.nodes :: w.nodes[i].role == Leader
  }

  /** No peer's leader line, and none of the timeout datagrams that no part of the library sends. */
  ghost predicate Ordinary(steps: seq<Step>) {
    forall s <- steps :: !s.event.PeerLeader? && !s.event.Timeout?
  }

  function Repeat(s: Step, k: nat): seq<Step> {
    if k == 0 then [] else [s] + Repeat(s, k - 1)
  }

  lemma {:induction false} RunAppend(c: Config, w: World, s: seq<Step>, t: seq<Step>)
    ensures Run(c, w, s + t) == Run(c, Run(c, w, s), t)
    decreases |s|
  {
    if s == [] {
      assert s + t == t;
    } else {
      assert (s + t)[1..] == s[1..] + t;
      RunAppend(c, Apply(c, w, s[0]), s[1..], t);
    }
  }

  // ---- A lone node ----

  /** A lone candidate holds a majority from the start, but only an arriving grant is ever counted. */
  lemma {:induction false} LoneNodeNeverLeads(c: Config, w: World, steps: seq<Step>)
    requires ConfigOk(c) && |c.members| <= 1 && w.nodes.Keys == Members(c)
    requires w.net == {} && w.reigns == {} && forall i <- w.nodes :: w.nodes[i].role != Leader
    ensures var w' := Run(c, w, steps);
      && w'.nodes.Keys == Members(c) && w'.net == {} && w'.reigns == {}
      && forall i <- w'.nodes :: w'.nodes[i].role != Leader
    decreases |steps|
  {
    if steps != [] {
      var s := steps[0];
      if Enabled(w, s) {
        assert s.node in c.members && c.members == [s.node];
        SilentAlone(c, s.node, w.nodes[s.node], s.event);
        assert Apply(c, w, s).net == {};
      }
      LoneNodeNeverLeads(c, Apply(c, w, s), steps[1..]);
    }
  }

  lemma SilentAlone(c: Config, id: int, n: Node, ev: Event)
    requires c.members == [id] && n.role != Leader && !ev.Receive?
    ensures React(c, id, n, ev).1 == [] && React(c, id, n, ev).0.role != Leader
  {
    forall m: Node, msg: Message ensures Broadcast(c.members, id, m, msg) == [] {
      assert c.members[1..] == [];
    }
  }

  // ---- Two nodes that grant each other votes of older terms ----

  /** A node that counts one stale grant again and again until it leads. */
  lemma {:induction false} CountUntilLeader(c: Config, w: World, i: int, p: Packet, k: nat)
    requires i in w.nodes && i in w.heard && p in w.net && p.dst == i
    requires p.msg.VoteGranted? && p.msg.term <= w.nodes[i].term && w.nodes[i].active
    requires 0 < k && w.nodes[i].votes + k == |c.members| / 2 + 1
    ensures var w' := Run(c, w, Repeat(Step(i, Receive(p, 0, 0)), k));
      && w'.nodes.Keys == w.nodes.Keys && w'.heard.Keys == w.heard.Keys && w.net <= w'.net
      && (forall j <- w.nodes :: j != i ==> w'.nodes[j] == w.nodes[j])
      && w'.nodes[i].role == Leader && w'.nodes[i].term == w.nodes[i].term
    decreases k
  {
    var s := Step(i, Receive(p, 0, 0));
    assert Repeat(s, k)[0] == s && Repeat(s, k)[1..] == Repeat(s, k - 1);
    var w1 := Apply(c, w, s);
    if k > 1 {
      CountUntilLeader(c, w1, i, p, k - 1);
    }
  }

  /** The situation before the stale grants arrive: two candidates in one term, each granted before. */
  ghost predicate Poised(c: Config, w: World, a: int, b: int, ga: Packet, gb: Packet) {
    && a in w.nodes && b in w.nodes && a != b && a in w.heard && b in w.heard
    && ga in w.net && ga.dst == a && ga.msg.VoteGranted? && ga.msg.term <= w.nodes[a].term
    && gb in w.net && gb.dst == b && gb.msg.VoteGranted? && gb.msg.term <= w.nodes[b].term
    && w.nodes[a].active && w.nodes[b].active && w.nodes[a].votes == 1 && w.nodes[b].votes == 1
    && w.nodes[a].term == w.nodes[b].term
  }

  /** Node `i` is past its timeouts at time `t`, and no leader. */
  ghost predicate Overdue(c: Config, w: World, i: int, t: int) {
    && i in w.nodes && i in w.heard && w.nodes[i].term >= 0 && w.nodes[i].role != Leader
    && t > w.nodes[i].lastHeartbeat + TimeoutOf(c) && t > w.nodes[i].electionDeadline
  }

  /** A time at which whatever was put off at time `t` is overdue again. */
  function Later(c: Config, t: int): int {
    t + TimeoutOf(c) + 1
  }

  /** Node `a` has started a campaign for the next term at time `t`, and nobody else has moved. */
  ghost predicate Campaigned(c: Config, w: World, w': World, a: int, t: int) {
    && a in w.nodes && w'.nodes.Keys == w.nodes.Keys && w'.heard.Keys == w.heard.Keys && a in w'.heard
    && w.net <= w'.net
    && (forall j <- w.nodes :: j != a ==> w'.nodes[j] == w.nodes[j])
    && var n, m := w.nodes[a], w'.nodes[a];
       && m.active && m.role == Candidate && m.votes == 1 && m.term == n.term + 1
       && m.lastHeartbeat == n.lastHeartbeat && m.electionDeadline == t + TimeoutOf(c) && w'.heard[a] == {a}
  }

  lemma CampaignStarts(c: Config, w: World, a: int, t: int)
    requires Overdue(c, w, a, t)
    ensures Campaigned(c, w, Apply(c, w, Step(a, Tick(t, 0))), a, t)
  {}

  /** A tick of an overdue node sends its request to every other member. */
  lemma CampaignReaches(c: Config, w: World, a: int, b: int, t: int) returns (p: Packet)
    requires Overdue(c, w, a, t) && b in c.members && a != b
    ensures var w' := Apply(c, w, Step(a, Tick(t, 0)));
      p in w'.net && p.dst == b && p.src == a && p.msg == VoteRequest(a, w.nodes[a].term + 1)
  {
    var n := w.nodes[a];
    var n' := if n.role == Candidate && t >= n.nextVoteRequestAt then n.(nextVoteRequestAt := t + 1) else n;
    var m := Candidacy(c, a, n', t, 0);
    BroadcastPackets(c.members, a, m, VoteRequest(a, m.term));
    p := Send(a, m, b, VoteRequest(a, m.term));
    var sent := OnTick(c, a, n, t, 0).1;
    assert p in sent;
  }

  lemma GrantReturns(c: Config, w: World, b: int, p: Packet, now: int) returns (g: Packet)
    requires b in w.nodes && b in w.heard && p in w.net && p.dst == b
    requires p.msg.VoteRequest? && p.msg.term > w.nodes[b].term >= 0
    ensures var w' := Apply(c, w, Step(b, Receive(p, now, 0)));
      && w'.nodes.Keys == w.nodes.Keys && w'.heard.Keys == w.heard.Keys && w.net <= w'.net
      && (forall j <- w.nodes :: j != b ==> w'.nodes[j] == w.nodes[j])
      && (forall j <- w.heard :: j != b ==> w'.heard[j] == w.heard[j])
      && w'.nodes[b].term == p.msg.term && w'.nodes[b].lastHeartbeat == w.nodes[b].lastHeartbeat
      && w'.nodes[b].role == Follower && w'.nodes[b].electionDeadline == now + TimeoutOf(c)
      && g in w'.net && g.dst == p.src && g.msg == VoteGranted(b, p.msg.term)
  {
    var sent := OnMessage(c, b, w.nodes[b], p.src, p.msg, now, 0).1;
    g := sent[0];
    assert g in sent;
  }

  lemma RunTwo(c: Config, w: World, s: Step, t: Step)
    ensures Run(c, w, [s, t]) == Apply(c, Apply(c, w, s), t)
  {
    var w1 := Apply(c, w, s);
    assert [s, t][1..] == [t];
    assert Run(c, w1, [t]) == Run(c, Apply(c, w1, t), []);
  }

  /** One campaign of `a` with the grant of `b`. */
  lemma CampaignAndGrant(c: Config, w: World, a: int, b: int, t: int) returns (steps: seq<Step>, g: Packet)
    requires a in c.members && b in c.members && a != b && Overdue(c, w, a, t) && Overdue(c, w, b, t)
    requires w.nodes[a].term >= w.nodes[b].term
    ensures Ordinary(steps)
    ensures var w' := Run(c, w, steps);
      && Overdue(c, w', a, Later(c, t)) && Overdue(c, w', b, Later(c, t)) && w.net <= w'.net
      && w'.nodes[a].term == w'.nodes[b].term == w.nodes[a].term + 1
      && g in w'.net && g.dst == a && g.msg == VoteGranted(b, w.nodes[a].term + 1)
  {
    var s1 := Step(a, Tick(t, 0));
    CampaignStarts(c, w, a, t);
    var p := CampaignReaches(c, w, a, b, t);
    var w1 := Apply(c, w, s1);
    g := GrantReturns(c, w1, b, p, t);
    var s2 := Step(b, Receive(p, t, 0));
    steps := [s1, s2];
    RunTwo(c, w, s1, s2);
  }

  lemma BothCampaign(c: Config, w: World, a: int, b: int, t: int) returns (steps: seq<Step>)
    requires a in c.members && b in c.members && a != b && Overdue(c, w, a, t) && Overdue(c, w, b, t)
    ensures Ordinary(steps)
    ensures var w' := Run(c, w, steps);
      && w'.nodes.Keys == w.nodes.Keys && w'.heard.Keys == w.heard.Keys && w.net <= w'.net
      && (forall i <- {a, b} ::
            w'.nodes[i].active && w'.nodes[i].votes == 1 && w'.nodes[i].term == w.nodes[i].term + 1)
  {
    var sa, sb := Step(a, Tick(t, 0)), Step(b, Tick(t, 0));
    CampaignStarts(c, w, a, t);
    CampaignStarts(c, Apply(c, w, sa), b, t);
    steps := [sa, sb];
    RunTwo(c, w, sa, sb);
  }

  lemma StartIsOverdue(c: Config, now: int, rnd: nat, i: int)
    requires ConfigOk(c) && i in c.members
    ensures Overdue(c, Start(c, now, rnd), i, now + 2 * TimeoutOf(c))
  {}

  lemma ReachPoised(c: Config, now: int, rnd: nat, a: int, b: int)
    returns (steps: seq<Step>, ga: Packet, gb: Packet)
    requires ConfigOk(c) && a in c.members && b in c.members && a != b
    ensures Ordinary(steps) && Poised(c, Run(c, Start(c, now, rnd), steps), a, b, ga, gb)
  {
    var t := now + 2 * TimeoutOf(c);
    var w0 := Start(c, now, rnd);
    StartIsOverdue(c, now, rnd, a);
    StartIsOverdue(c, now, rnd, b);
    var first, second, third;
    first, ga := CampaignAndGrant(c, w0, a, b, t);
    var w1 := Run(c, w0, first);
    second, gb := CampaignAndGrant(c, w1, b, a, Later(c, t));
    var w2 := Run(c, w1, second);
    third := BothCampaign(c, w2, a, b, Later(c, Later(c, t)));
    RunAppend(c, w0, first, second);
    RunAppend(c, w0, first + second, third);
    steps := first + second + third;
    assert a in {a, b} && b in {a, b};
  }

  lemma BothTakeOver(c: Config, now: int, rnd: nat, a: int, b: int) returns (steps: seq<Step>)
    requires ConfigOk(c) && a in c.members && b in c.members && a != b
    ensures Ordinary(steps) && TwoLeadersInOneTerm(c, now, rnd, steps) && ElectsSomeone(c, now, rnd, steps)
  {
    var first, ga, gb := ReachPoised(c, now, rnd, a, b);
    var w0 := Start(c, now, rnd);
    var w := Run(c, w0, first);
    TwoMembersCount(c, a, b);
    var k := |c.members| / 2;
    var sa, sb := Repeat(Step(a, Receive(ga, 0, 0)), k), Repeat(Step(b, Receive(gb, 0, 0)), k);
    CountUntilLeader(c, w, a, ga, k);
    var w1 := Run(c, w, sa);
    CountUntilLeader(c, w1, b, gb, k);
    var w2 := Run(c, w1, sb);
    RunAppend(c, w0, first, sa);
    RunAppend(c, w0, first + sa, sb);
    steps := first + sa + sb;
    RepeatIsOne(Step(a, Receive(ga, 0, 0)), k);
    RepeatIsOne(Step(b, Receive(gb, 0, 0)), k);
    assert w2.nodes[a].role == Leader && w2.nodes[b].role == Leader && w2.nodes[a].term == w2.nodes[b].term;
  }

  lemma {:induction false} RepeatIsOne(s: Step, k: nat)
    ensures forall t <- Repeat(s, k) :: t == s
  {
    if k > 0 {
      RepeatIsOne(s, k - 1);
    }
  }

  lemma TwoMembersCount(c: Config, a: int, b: int)
    requires a in c.members && b in c.members && a != b
    ensures |c.members| >= 2
  {}

  /**
   Election safety without the fair-count hypothesis: some run puts two leaders into one
   term exactly when the cluster has at least two members, whatever the timeouts.
   */
  lemma UnsafeIffPlural(c: Config, now: int, rnd: nat)
    requires ConfigOk(c)
    ensures (exists steps :: Ordinary(steps) && TwoLeadersInOneTerm(c, now, rnd, steps)) <==> |c.members| >= 2
    ensures (exists steps :: Ordinary(steps) && ElectsSomeone(c, now, rnd, steps)) <==> |c.members| >= 2
  {
    if |c.members| >= 2 {
      var steps := BothTakeOver(c, now, rnd, c.members[0], c.members[1]);
    } else {
      forall steps: seq<Step> ensures !ElectsSomeone(c, now, rnd, steps) && !TwoLeadersInOneTerm(c, now, rnd, steps) {
        LoneNodeNeverLeads(c, Start(c, now, rnd), steps);
      }
    }
  }
}
