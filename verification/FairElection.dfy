/**
 Runs that count fairly: one campaign and distinct grants elect a leader in every cluster of two
 nodes and more, so the fair-count hypothesis of election safety is no empty one.
 */
module FairElection {
  import opened Election
  import opened Protocol
  import opened ProtocolFailures

  /** Enough other members, each once. */
  ghost predicate VotersOk(c: Config, a: int, vs: seq<int>) {
    && a in c.members && a !in vs && |c.members| >= 2 && |vs| >= |c.members| / 2
    && (forall v <- vs :: v in c.members) && (forall i, j :: 0 <= i < j < |vs| ==> vs[i] != vs[j])
  }

  ghost predicate AllThere(c: Config, w: World) {
    w.nodes.Keys == Members(c) == w.heard.Keys
  }

  /** Candidate `a` campaigns in `term` with the grants of `k` voters; the other voters can still vote. */
  ghost predicate Canvassing(c: Config, w: World, a: int, vs: seq<int>, k: nat, term: int) {
    && AllThere(c, w) && k <= |vs| && term > 0
    && a in w.nodes && w.nodes[a].active && w.nodes[a].term == term && w.nodes[a].votes == k + 1
    && (forall i :: k <= i < |vs| ==> Waiting(w, a, vs[i], term))
  }

  /** Member `v` is behind, has the candidate's request on the way and has not been heard. */
  ghost predicate Waiting(w: World, a: int, v: int, term: int) {
    && v in w.nodes && v in w.heard && a in w.heard && 0 <= w.nodes[v].term < term && v !in w.heard[a]
    && exists p :: p in w.net && p.dst == v && p.src == a && p.msg == VoteRequest(a, term)
  }

  lemma OpenCampaign(c: Config, w: World, a: int, vs: seq<int>, t: int)
    requires VotersOk(c, a, vs) && AllThere(c, w) && Overdue(c, w, a, t)
    requires forall v <- vs :: 0 <= w.nodes[v].term <= w.nodes[a].term
    ensures Canvassing(c, Apply(c, w, Step(a, Tick(t, 0))), a, vs, 0, w.nodes[a].term + 1)
  {
    var w' := Apply(c, w, Step(a, Tick(t, 0)));
    var term := w.nodes[a].term + 1;
    CampaignStarts(c, w, a, t);
    forall i | 0 <= i < |vs| ensures Waiting(w', a, vs[i], term) {
      var v := vs[i];
      assert v in vs && v != a;
      var p := CampaignReaches(c, w, a, v, t);
      assert p in w'.net && p.dst == v && p.src == a && p.msg == VoteRequest(a, term);
    }
  }

  /** Counting one more voter of this term. */
  lemma CountOne(c: Config, w: World, a: int, g: Packet)
    requires a in w.nodes && a in w.heard && g in w.net && g.dst == a && g.msg.VoteGranted?
    requires w.nodes[a].active && g.msg.term == w.nodes[a].term && g.msg.voter !in w.heard[a]
    ensures var s := Step(a, Receive(g, 0, 0)); var w' := Apply(c, w, s);
      && !StepMiscounts(w, s) && w'.nodes.Keys == w.nodes.Keys && w'.heard.Keys == w.heard.Keys && w.net <= w'.net
      && (forall j <- w.nodes :: j != a ==> w'.nodes[j] == w.nodes[j])
      && w'.nodes[a].term == w.nodes[a].term && w'.heard[a] == w.heard[a] + {g.msg.voter}
      && if w.nodes[a].votes + 1 > |c.members| / 2
         then w'.nodes[a].role == Leader && Reign(a, w.nodes[a].term, w'.heard[a]) in w'.reigns
         else w'.nodes[a].active && w'.nodes[a].votes == w.nodes[a].votes + 1
  {}

  lemma StillWaiting(w: World, w': World, a: int, v: int, other: int, term: int)
    requires Waiting(w, a, other, term) && other != v && other != a && a in w'.heard
    requires w.nodes.Keys == w'.nodes.Keys && w.heard.Keys == w'.heard.Keys && w.net <= w'.net
    requires w'.nodes[other] == w.nodes[other] && w'.heard[a] == w.heard[a] + {v}
    ensures Waiting(w', a, other, term)
  {
    var p :| p in w.net && p.dst == other && p.src == a && p.msg == VoteRequest(a, term);
    assert p in w'.net;
  }

  /** Node `a` leads in `term`, and history has it. */
  ghost predicate Leads(w: World, a: int, term: int) {
    && a in w.nodes && w.nodes[a].role == Leader && w.nodes[a].term == term
    && exists q :: Reign(a, term, q) in w.reigns
  }

  /** The next voter grants, and the candidate counts it. */
  lemma NextGrant(c: Config, w: World, a: int, vs: seq<int>, k: nat, term: int) returns (s: Step, s': Step)
    requires VotersOk(c, a, vs) && Canvassing(c, w, a, vs, k, term) && k + 1 <= |c.members| / 2
    ensures Ordinary([s, s']) && !StepMiscounts(w, s) && !StepMiscounts(Apply(c, w, s), s')
    ensures var w' := Apply(c, Apply(c, w, s), s');
      if k + 2 > |c.members| / 2 then AllThere(c, w') && Leads(w', a, term) else Canvassing(c, w', a, vs, k + 1, term)
  {
    var v := vs[k];
    assert v in vs && Waiting(w, a, v, term) && v != a;
    var p :| p in w.net && p.dst == v && p.src == a && p.msg == VoteRequest(a, term);
    s := Step(v, Receive(p, 0, 0));
    var g := GrantReturns(c, w, v, p, 0);
    var w1 := Apply(c, w, s);
    s' := Step(a, Receive(g, 0, 0));
    CountOne(c, w1, a, g);
    var w2 := Apply(c, w1, s');
    forall i | k + 1 <= i < |vs| ensures Waiting(w2, a, vs[i], term) {
      assert vs[i] in vs && vs[i] != v && vs[i] != a && Waiting(w, a, vs[i], term);
      StillWaiting(w, w2, a, v, vs[i], term);
    }
  }

  lemma RunStep(c: Config, w: World, s: Step, rest: seq<Step>)
    ensures Run(c, w, [s] + rest) == Run(c, Apply(c, w, s), rest)
    ensures FairCount(c, w, [s] + rest) <==> !StepMiscounts(w, s) && FairCount(c, Apply(c, w, s), rest)
  {
    assert ([s] + rest)[0] == s && ([s] + rest)[1..] == rest;
  }

  /** Grant after grant, until there is a majority. */
  lemma {:induction false} GrantsUntilLeader(c: Config, w: World, a: int, vs: seq<int>, k: nat, term: int)
    returns (steps: seq<Step>)
    requires VotersOk(c, a, vs) && Canvassing(c, w, a, vs, k, term) && k + 1 <= |c.members| / 2
    ensures Ordinary(steps) && FairCount(c, w, steps)
    ensures AllThere(c, Run(c, w, steps)) && Leads(Run(c, w, steps), a, term)
    decreases |vs| - k
  {
    var s, s' := NextGrant(c, w, a, vs, k, term);
    var w1 := Apply(c, w, s);
    var w2 := Apply(c, w1, s');
    var rest: seq<Step> := [];
    if k + 2 <= |c.members| / 2 {
      rest := GrantsUntilLeader(c, w2, a, vs, k + 1, term);
    }
    assert s in [s, s'] && s' in [s, s'];
    RunStep(c, w1, s', rest);
    RunStep(c, w, s, [s'] + rest);
    steps := [s] + ([s'] + rest);
  }

  /** An overdue node that is not behind its voters wins the next term, counting fairly. */
  lemma Elect(c: Config, w: World, a: int, vs: seq<int>, t: int) returns (steps: seq<Step>)
    requires VotersOk(c, a, vs) && AllThere(c, w) && Overdue(c, w, a, t)
    requires forall v <- vs :: 0 <= w.nodes[v].term <= w.nodes[a].term
    ensures Ordinary(steps) && FairCount(c, w, steps)
    ensures AllThere(c, Run(c, w, steps)) && Leads(Run(c, w, steps), a, w.nodes[a].term + 1)
  {
    var s := Step(a, Tick(t, 0));
    OpenCampaign(c, w, a, vs, t);
    var rest := GrantsUntilLeader(c, Apply(c, w, s), a, vs, 0, w.nodes[a].term + 1);
    RunStep(c, w, s, rest);
    steps := [s] + rest;
  }

  lemma FirstElection(c: Config, now: int, rnd: nat) returns (steps: seq<Step>)
    requires ConfigOk(c) && |c.members| >= 2
    ensures var w, w' := Start(c, now, rnd), Run(c, Start(c, now, rnd), steps);
      Ordinary(steps) && FairCount(c, w, steps) && AllThere(c, w') && Leads(w', c.members[0], 1)
  {
    var w, a, vs := Start(c, now, rnd), c.members[0], c.members[1..];
    StartIsOverdue(c, now, rnd, a);
    assert VotersOk(c, a, vs);
    steps := Elect(c, w, a, vs, now + 2 * TimeoutOf(c));
  }

  /** Some run counts fairly and elects a leader, exactly when there are two members or more. */
  lemma FairRunElectsIffPlural(c: Config, now: int, rnd: nat)
    requires ConfigOk(c)
    ensures (exists steps ::
               Ordinary(steps) && FairCount(c, Start(c, now, rnd), steps) && ElectsSomeone(c, now, rnd, steps))
            <==> |c.members| >= 2
  {
    if |c.members| >= 2 {
      var steps := FirstElection(c, now, rnd);
      assert ElectsSomeone(c, now, rnd, steps);
    } else {
      UnsafeIffPlural(c, now, rnd);
    }
  }
}
