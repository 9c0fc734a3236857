/**
 Membership exchange: on every new connection a node sends its whole table as `PROPAGATE_ADD`
 commands, and the receiver adds what it does not know yet.
 */
module Membership {
  import opened Limits
  import opened Options
  import opened Text
  import opened Cluster
  import opened ClusterStore
  import opened Framing
  import opened Propagation
  import Commands
  import Quorums

  /** A received command is carried out when all its fields are there. */
  predicate Complete(r: NodeRecord) {
    r.id >= 0 && |r.name| > 0 && |r.ip| > 0 && r.ralePort > 0 && r.dstorePort > 0
  }

  /** What a received command does to the table. */
  function OnAdd(nodes: seq<NodeRecord>, command: string): seq<NodeRecord>
    requires |command| >= 13
  {
    var r := ParseAdd(command);
    if Complete(r) then Add(nodes, r) else nodes
  }

  /** What a received line does to the table, removals aside. An empty table turns every line away. */
  function Handle(nodes: seq<NodeRecord>, line: string): seq<NodeRecord> {
    if nodes != [] && StartsWith(line, ADD) then OnAdd(nodes, line) else nodes
  }

  /** That is what the dispatchers of both sides hand to the handler of additions. */
  lemma HandleIsDispatched(nodes: seq<NodeRecord>, line: string)
    ensures var c := Commands.Dispatch(nodes != [], line);
      Handle(nodes, line) == if c.PropagateAdd? && |c.line| >= 13 then OnAdd(nodes, c.line) else nodes
    ensures var c := ClientDispatch(nodes != [], line);
      Handle(nodes, line) == if c.PropagateAdd? && |c.line| >= 13 then OnAdd(nodes, c.line) else nodes
  {
    AddIsDispatched(nodes != [], line);
  }

  function Deliver(nodes: seq<NodeRecord>, lines: seq<string>): seq<NodeRecord>
    decreases |lines|
  {
    if lines == [] then nodes else Deliver(Handle(nodes, lines[0]), lines[1..])
  }

  function Snapshot(nodes: seq<NodeRecord>): (cmds: seq<string>)
    ensures |cmds| == |nodes|
  {
    if nodes == [] then [] else [PrintAdd(nodes[0])] + Snapshot(nodes[1..])
  }

  /** Every table filled by propagation alone can be propagated in turn. */
  lemma ReceiversStaySendable(nodes: seq<NodeRecord>, line: string)
    requires Sound(line) && TableOk(nodes) && forall r <- nodes :: Sendable(r)
    ensures TableOk(Handle(nodes, line)) && forall r <- Handle(nodes, line) :: Sendable(r)
  {
    if nodes != [] && StartsWith(line, ADD) {
      AddLaws(nodes, ParseAdd(line), 0);
      ReceivedIsSendable(line);
    }
  }

  // ---- What travels on a connection ----

  /** An entry of a snapshot, or any other line that leaves the membership alone. */
  datatype Msg = Entry(node: NodeRecord) | Other(line: string)

  predicate MsgOk(m: Msg) {
    match m
    case Entry(r) => RecordOk(r) && Sendable(r)
    case Other(line) => Message(line) && !StartsWith(line, ADD) && !StartsWith(line, REMOVE)
  }

  function Texts(msgs: seq<Msg>): (ts: seq<string>)
    ensures |ts| == |msgs|
  {
    if msgs == [] then []
    else [match msgs[0] case Entry(r) => PrintAdd(r) case Other(line) => line] + Texts(msgs[1..])
  }

  function Entries(msgs: seq<Msg>): seq<NodeRecord> {
    if msgs == [] then []
    else (match msgs[0] case Entry(r) => [r] case Other(_) => []) + Entries(msgs[1..])
  }

  /** The reads of one connection, at a server slot or at a client. */
  datatype Reception = AtServer(chunks: seq<string>) | AtClient(chunks: seq<string>)

  function LinesOf(rc: Reception): seq<string> {
    match rc
    case AtServer(chunks) => ServerLines(chunks)
    case AtClient(chunks) => ClientLines(chunks)
  }

  /** The newline-terminated messages come in: to a server in any reads, to a client in reads that end with messages. */
  ghost predicate Brings(rc: Reception, msgs: seq<Msg>) {
    && (forall m <- msgs :: MsgOk(m))
    && (rc.AtServer? ==> Reads(rc.chunks) && Concat(rc.chunks) == Terminated(Texts(msgs)))
    && (rc.AtClient? ==> exists groups :: Aligned(rc.chunks, groups) && Flatten(groups) == Texts(msgs))
  }

  lemma {:induction false} TextsAreMessages(msgs: seq<Msg>)
    requires forall m <- msgs :: MsgOk(m)
    ensures forall t <- Texts(msgs) :: Message(t)
  {
    if msgs != [] {
      assert msgs == [msgs[0]] + msgs[1..] && MsgOk(msgs[0]);
      TextsAreMessages(msgs[1..]);
      if msgs[0].Entry? {
        SentIsReceived(msgs[0].node);
      }
    }
  }

  /** Either receiver delivers the messages, whole and in order. */
  lemma BroughtIsHeard(rc: Reception, msgs: seq<Msg>)
    requires Brings(rc, msgs)
    ensures LinesOf(rc) == Texts(msgs)
  {
    TextsAreMessages(msgs);
    if rc.AtServer? {
      MessagesArrive(Texts(msgs), rc.chunks);
    } else {
      var groups :| Aligned(rc.chunks, groups) && Flatten(groups) == Texts(msgs);
      AlignedMessagesArrive(rc.chunks, groups);
    }
  }

  function AddAll(nodes: seq<NodeRecord>, rs: seq<NodeRecord>): seq<NodeRecord>
    decreases |rs|
  {
    if rs == [] then nodes else AddAll(Add(nodes, rs[0]), rs[1..])
  }

  lemma HandleMsg(nodes: seq<NodeRecord>, r: NodeRecord)
    requires nodes != [] && RecordOk(r) && Sendable(r)
    ensures Handle(nodes, PrintAdd(r)) == Add(nodes, r) != []
  {
    SentIsReceived(r);
  }

  /** To a table with any node, delivering messages is adding the entries among them. */
  lemma {:induction false} DeliverIsAddAll(nodes: seq<NodeRecord>, msgs: seq<Msg>)
    requires nodes != [] && forall m <- msgs :: MsgOk(m)
    ensures Deliver(nodes, Texts(msgs)) == AddAll(nodes, Entries(msgs))
    decreases |msgs|
  {
    if msgs != [] {
      var m, rest := msgs[0], msgs[1..];
      assert msgs == [m] + rest && MsgOk(m);
      assert Texts(msgs)[1..] == Texts(rest);
      if m.Entry? {
        HandleMsg(nodes, m.node);
        assert Entries(msgs)[0] == m.node && Entries(msgs)[1..] == Entries(rest);
        DeliverIsAddAll(Add(nodes, m.node), rest);
      } else {
        assert Entries(msgs) == Entries(rest);
        DeliverIsAddAll(nodes, rest);
      }
    }
  }

  /** The connections of one node, one after the other. */
  function DeliverAll(nodes: seq<NodeRecord>, rcs: seq<Reception>): seq<NodeRecord>
    decreases |rcs|
  {
    if rcs == [] then nodes else DeliverAll(Deliver(nodes, LinesOf(rcs[0])), rcs[1..])
  }

  ghost predicate AllBring(rcs: seq<Reception>, traffic: seq<seq<Msg>>) {
    |rcs| == |traffic| && forall i :: 0 <= i < |rcs| ==> Brings(rcs[i], traffic[i])
  }

  /** All entries that the connections brought. */
  function News(traffic: seq<seq<Msg>>): seq<NodeRecord> {
    if traffic == [] then [] else Entries(traffic[0]) + News(traffic[1..])
  }

  lemma {:induction false} AddAllAppend(nodes: seq<NodeRecord>, a: seq<NodeRecord>, b: seq<NodeRecord>)
    ensures AddAll(nodes, a + b) == AddAll(AddAll(nodes, a), b)
    decreases |a|
  {
    if a == [] {
      assert a + b == b;
    } else {
      assert (a + b)[1..] == a[1..] + b;
      AddAllAppend(Add(nodes, a[0]), a[1..], b);
    }
  }

  lemma {:induction false} AddAllGrows(nodes: seq<NodeRecord>, rs: seq<NodeRecord>)
    ensures nodes <= AddAll(nodes, rs)
    decreases |rs|
  {
    if rs != [] {
      AddAllGrows(Add(nodes, rs[0]), rs[1..]);
    }
  }

  lemma {:induction false} NothingDelivered(lines: seq<string>)
    ensures Deliver([], lines) == []
    decreases |lines|
  {
    if lines != [] {
      NothingDelivered(lines[1..]);
    }
  }

  /** An empty table learns nothing, whatever the connections bring. */
  lemma {:induction false} EmptyLearnsNothing(rcs: seq<Reception>)
    ensures DeliverAll([], rcs) == []
    decreases |rcs|
  {
    if rcs != [] {
      NothingDelivered(LinesOf(rcs[0]));
      EmptyLearnsNothing(rcs[1..]);
    }
  }

  lemma {:induction false} ConnectionsAddAll(nodes: seq<NodeRecord>, rcs: seq<Reception>, traffic: seq<seq<Msg>>)
    requires nodes != [] && AllBring(rcs, traffic)
    ensures DeliverAll(nodes, rcs) == AddAll(nodes, News(traffic))
    decreases |rcs|
  {
    if rcs != [] {
      var rc, msgs := rcs[0], traffic[0];
      BroughtIsHeard(rc, msgs);
      DeliverIsAddAll(nodes, msgs);
      AddAllGrows(nodes, Entries(msgs));
      ConnectionsAddAll(Deliver(nodes, LinesOf(rc)), rcs[1..], traffic[1..]);
      AddAllAppend(nodes, Entries(msgs), News(traffic[1..]));
    }
  }

  lemma {:induction false} EntriesAreOk(msgs: seq<Msg>)
    requires forall m <- msgs :: MsgOk(m)
    ensures forall r <- Entries(msgs) :: RecordOk(r) && Sendable(r)
  {
    if msgs != [] {
      assert msgs == [msgs[0]] + msgs[1..] && MsgOk(msgs[0]);
      EntriesAreOk(msgs[1..]);
    }
  }

  lemma {:induction false} NewsIsOk(rcs: seq<Reception>, traffic: seq<seq<Msg>>)
    requires AllBring(rcs, traffic)
    ensures forall r <- News(traffic) :: RecordOk(r) && Sendable(r)
    decreases |rcs|
  {
    if rcs != [] {
      EntriesAreOk(traffic[0]);
      NewsIsOk(rcs[1..], traffic[1..]);
    }
  }

  // ---- Convergence ----

  /** The nodes of the cluster: distinct ids, every record sendable. */
  ghost predicate Universe(all: seq<NodeRecord>) {
    Distinct(all) && forall r <- all :: RecordOk(r) && Sendable(r)
  }

  ghost predicate Within(rs: seq<NodeRecord>, all: seq<NodeRecord>) {
    forall r <- rs :: r in all
  }

  lemma DistinctRecords(rs: seq<NodeRecord>)
    requires Distinct(rs)
    ensures |set r | r in rs| == |rs|
  {
    Quorums.DistinctCount(rs);
  }

  /** Distinct members of the universe are no more than it has. */
  lemma WithinIsSmaller(rs: seq<NodeRecord>, all: seq<NodeRecord>)
    requires Distinct(rs) && Distinct(all) && Within(rs, all)
    ensures |rs| <= |all|
  {
    DistinctRecords(rs);
    DistinctRecords(all);
    Quorums.SubsetIsSmaller(set r | r in rs, set r | r in all);
  }

  lemma {:induction false} LookupWithin(rs: seq<NodeRecord>, all: seq<NodeRecord>, r: NodeRecord)
    requires Within(rs, all) && Distinct(all) && r in all
    ensures Lookup(rs, r.id) == if r in rs then Some(r) else None
  {
    if rs != [] {
      assert rs == [rs[0]] + rs[1..];
      if rs[0] != r {
        LookupWithin(rs[1..], all, r);
        assert rs[0] in rs && rs[0] in all;
        var i :| 0 <= i < |all| && all[i] == rs[0];
        var j :| 0 <= j < |all| && all[j] == r;
        assert i != j && rs[0].id != r.id;
      }
    }
  }

  /** While the universe fits, an unknown member is added and a known one changes nothing. */
  lemma AddMember(all: seq<NodeRecord>, nodes: seq<NodeRecord>, r: NodeRecord)
    requires Universe(all) && |all| <= MAX_NODES && TableOk(nodes) && Within(nodes, all) && r in all
    ensures Add(nodes, r) == if r in nodes then nodes else nodes + [r]
    ensures TableOk(Add(nodes, r)) && Within(Add(nodes, r), all)
  {
    LookupWithin(nodes, all, r);
    AddLaws(nodes, r, r.id);
    if r !in nodes {
      LookupFinds(nodes, r.id);
      WithinIsSmaller(nodes + [r], all);
    }
  }

  lemma {:induction false} AddAllIsUnion(all: seq<NodeRecord>, nodes: seq<NodeRecord>, rs: seq<NodeRecord>,
                                         r: NodeRecord)
    requires Universe(all) && |all| <= MAX_NODES && TableOk(nodes) && Within(nodes, all) && Within(rs, all)
    ensures TableOk(AddAll(nodes, rs)) && (r in AddAll(nodes, rs) <==> r in nodes || r in rs)
    decreases |rs|
  {
    if rs != [] {
      AddMember(all, nodes, rs[0]);
      assert rs == [rs[0]] + rs[1..];
      AddAllIsUnion(all, Add(nodes, rs[0]), rs[1..], r);
    }
  }

  /**
   After any connections a table that knew any node holds what it held and what they brought, and
   nothing else; an empty one is still empty.
   */
  lemma DeliveredIsUnion(all: seq<NodeRecord>, nodes: seq<NodeRecord>, rcs: seq<Reception>, traffic: seq<seq<Msg>>)
    requires Universe(all) && |all| <= MAX_NODES && TableOk(nodes) && Within(nodes, all)
    requires AllBring(rcs, traffic) && Within(News(traffic), all)
    ensures TableOk(DeliverAll(nodes, rcs))
    ensures forall r :: r in DeliverAll(nodes, rcs) <==> r in nodes || (nodes != [] && r in News(traffic))
  {
    if nodes == [] {
      EmptyLearnsNothing(rcs);
    } else {
      ConnectionsAddAll(nodes, rcs, traffic);
      var rs := News(traffic);
      AddAllIsUnion(all, nodes, rs, nodes[0]);
      forall r ensures r in AddAll(nodes, rs) <==> r in nodes || r in rs {
        AddAllIsUnion(all, nodes, rs, r);
      }
    }
  }

  /** Two tables have the same record for every id. */
  ghost predicate SameMembership(a: seq<NodeRecord>, b: seq<NodeRecord>) {
    forall id :: Lookup(a, id) == Lookup(b, id)
  }

  lemma {:induction false} LookupIsMember(rs: seq<NodeRecord>, r: NodeRecord)
    requires Distinct(rs) && r in rs
    ensures Lookup(rs, r.id) == Some(r)
  {
    if rs[0] != r {
      assert rs == [rs[0]] + rs[1..];
      LookupIsMember(rs[1..], r);
    }
  }

  lemma SameRecordsSameMembership(a: seq<NodeRecord>, b: seq<NodeRecord>)
    requires Distinct(a) && Distinct(b) && forall r :: r in a <==> r in b
    ensures SameMembership(a, b)
  {
    forall id ensures Lookup(a, id) == Lookup(b, id) {
      if Lookup(a, id).Some? {
        LookupIsMember(b, Lookup(a, id).value);
      } else if Lookup(b, id).Some? {
        LookupIsMember(a, Lookup(b, id).value);
      }
    }
  }

  lemma EmptyIsNobody(b: seq<NodeRecord>)
    ensures SameMembership([], b) <==> b == []
  {
    if b != [] {
      assert Lookup(b, b[0].id).Some?;
    }
  }

  lemma SameMembershipIsSymmetric(a: seq<NodeRecord>, b: seq<NodeRecord>)
    ensures SameMembership(a, b) <==> SameMembership(b, a)
  {}

  /**
   Convergence, decided: two nodes that between their own table and what their connections brought, in
   any order, in any reads and with any repetition, have seen the same records hold the same
   membership, if and only if both started with an empty table or neither did.
   */
  lemma Convergence(all: seq<NodeRecord>, a: seq<NodeRecord>, rcsA: seq<Reception>, toA: seq<seq<Msg>>,
                    b: seq<NodeRecord>, rcsB: seq<Reception>, toB: seq<seq<Msg>>)
    requires Universe(all) && |all| <= MAX_NODES && TableOk(a) && TableOk(b) && Within(a, all) && Within(b, all)
    requires AllBring(rcsA, toA) && AllBring(rcsB, toB) && Within(News(toA), all) && Within(News(toB), all)
    requires forall r :: (r in a || r in News(toA)) <==> (r in b || r in News(toB))
    ensures SameMembership(DeliverAll(a, rcsA), DeliverAll(b, rcsB)) <==> (a == [] <==> b == [])
  {
    var x, y := DeliverAll(a, rcsA), DeliverAll(b, rcsB);
    DeliveredIsUnion(all, a, rcsA, toA);
    DeliveredIsUnion(all, b, rcsB, toB);
    if a != [] && b != [] {
      SameRecordsSameMembership(x, y);
    } else {
      EmptyLearnsNothing(rcsA);
      EmptyLearnsNothing(rcsB);
      EmptyIsNobody(x);
      EmptyIsNobody(y);
      SameMembershipIsSymmetric(x, y);
      assert a != [] ==> a[0] in x;
      assert b != [] ==> b[0] in y;
    }
  }

  /**
   A node and the peer it connected to, each having received the other's snapshot with any other
   lines before, between and after, hold the same membership, unless just one of them knew nobody.
   */
  lemma ExchangeAgrees(all: seq<NodeRecord>, a: seq<NodeRecord>, b: seq<NodeRecord>,
                       atA: Reception, fromB: seq<Msg>, atB: Reception, fromA: seq<Msg>)
    requires Universe(all) && |all| <= MAX_NODES && TableOk(a) && TableOk(b) && Within(a, all) && Within(b, all)
    requires Brings(atA, fromB) && Entries(fromB) == b && Brings(atB, fromA) && Entries(fromA) == a
    ensures SameMembership(DeliverAll(a, [atA]), DeliverAll(b, [atB])) <==> (a == [] <==> b == [])
  {
    OneConnection(fromB);
    OneConnection(fromA);
    Convergence(all, a, [atA], [fromB], b, [atB], [fromA]);
  }

  /** A snapshot as messages: its lines and its entries. */
  function Wrap(nodes: seq<NodeRecord>): seq<Msg> {
    if nodes == [] then [] else [Entry(nodes[0])] + Wrap(nodes[1..])
  }

  lemma {:induction false} SnapshotIsTraffic(nodes: seq<NodeRecord>)
    requires forall r <- nodes :: RecordOk(r) && Sendable(r)
    ensures Texts(Wrap(nodes)) == Snapshot(nodes) && Entries(Wrap(nodes)) == nodes
    ensures forall m <- Wrap(nodes) :: MsgOk(m)
  {
    if nodes != [] {
      assert nodes == [nodes[0]] + nodes[1..];
      SnapshotIsTraffic(nodes[1..]);
    }
  }

  lemma OneConnection(msgs: seq<Msg>)
    ensures News([msgs]) == Entries(msgs)
  {
    var traffic := [msgs];
    assert traffic[1..] == [] && Entries(msgs) + [] == Entries(msgs);
  }

  // ---- Where the hypotheses are needed ----

  lemma {:induction false} AddAllKeepsOk(nodes: seq<NodeRecord>, rs: seq<NodeRecord>)
    requires TableOk(nodes)
    ensures TableOk(AddAll(nodes, rs))
    decreases |rs|
  {
    if rs != [] {
      AddLaws(nodes, rs[0], 0);
      AddAllKeepsOk(Add(nodes, rs[0]), rs[1..]);
    }
  }

  /**
   Once the whole universe has been brought it is all there exactly when there is nothing to learn, or
   the table knew any node and the universe has at most ten.
   */
  lemma AllArriveExactly(all: seq<NodeRecord>, nodes: seq<NodeRecord>, rcs: seq<Reception>, traffic: seq<seq<Msg>>)
    requires Universe(all) && TableOk(nodes) && Within(nodes, all)
    requires AllBring(rcs, traffic) && Within(News(traffic), all)
    requires forall r <- all :: r in nodes || r in News(traffic)
    ensures Within(all, DeliverAll(nodes, rcs)) <==> all == [] || (nodes != [] && |all| <= 10)
  {
    if nodes == [] {
      EmptyLearnsNothing(rcs);
      assert all != [] ==> all[0] in all;
    } else {
      assert nodes[0] in all;
      ConnectionsAddAll(nodes, rcs, traffic);
      AddAllKeepsOk(nodes, News(traffic));
      if |all| <= MAX_NODES {
        DeliveredIsUnion(all, nodes, rcs, traffic);
      } else if Within(all, DeliverAll(nodes, rcs)) {
        WithinIsSmaller(all, DeliverAll(nodes, rcs));
      }
    }
  }

  function Ids(rs: seq<NodeRecord>): set<int> {
    if rs == [] then {} else {rs[0].id} + Ids(rs[1..])
  }

  lemma {:induction false} IdsAreLookups(rs: seq<NodeRecord>, id: int)
    ensures id in Ids(rs) <==> Lookup(rs, id).Some?
  {
    if rs != [] {
      IdsAreLookups(rs[1..], id);
    }
  }

  lemma {:induction false} IdsCount(rs: seq<NodeRecord>)
    requires Distinct(rs)
    ensures |Ids(rs)| == |rs|
  {
    if rs != [] {
      IdsCount(rs[1..]);
      IdsAreLookups(rs[1..], rs[0].id);
      LookupFinds(rs[1..], rs[0].id);
    }
  }

  lemma {:induction false} IdsSnoc(rs: seq<NodeRecord>, r: NodeRecord)
    ensures Ids(rs + [r]) == Ids(rs) + {r.id}
  {
    if rs == [] {
      assert rs + [r] == [r] && [r][1..] == [];
      Quorums.Union({}, {r.id}, {});
    } else {
      assert (rs + [r])[1..] == rs[1..] + [r];
      IdsSnoc(rs[1..], r);
      Quorums.Union({rs[0].id}, Ids(rs[1..]), {r.id});
    }
  }

  /** There is room for every id that is known or mentioned. */
  predicate Room(nodes: seq<NodeRecord>, rs: seq<NodeRecord>) {
    |Ids(nodes) + Ids(rs)| <= 10
  }

  lemma RoomForOne(nodes: seq<NodeRecord>, r: NodeRecord, rest: seq<NodeRecord>)
    requires TableOk(nodes) && RecordOk(r) && Room(nodes, [r] + rest)
    ensures Lookup(nodes, r.id).None? ==> Admits(nodes, r)
    ensures Room(Add(nodes, r), rest)
  {
    var rs := [r] + rest;
    assert rs[1..] == rest;
    IdsCount(nodes);
    IdsAreLookups(nodes, r.id);
    IdsSnoc(nodes, Stored(r));
    Quorums.Union(Ids(nodes), {r.id}, Ids(rest));
    Quorums.UnionGrows(Ids(nodes), {r.id}, Ids(rest));
  }

  /** With room for every id, the record known first stays, whatever comes later and however often. */
  lemma {:induction false} FirstWins(nodes: seq<NodeRecord>, rs: seq<NodeRecord>, id: int)
    requires TableOk(nodes) && Room(nodes, rs) && forall r <- rs :: RecordOk(r)
    ensures Lookup(AddAll(nodes, rs), id) == if Lookup(nodes, id).Some? then Lookup(nodes, id) else Lookup(rs, id)
    decreases |rs|
  {
    if rs != [] {
      var r, rest := rs[0], rs[1..];
      assert rs == [r] + rest && RecordOk(r);
      RoomForOne(nodes, r, rest);
      AddLaws(nodes, r, id);
      FirstWins(Add(nodes, r), rest, id);
    }
  }

  /** Every id that was not known before is mentioned first with the same record, or in neither. */
  ghost predicate SameNews(nodes: seq<NodeRecord>, rs: seq<NodeRecord>, ss: seq<NodeRecord>) {
    forall id :: Lookup(nodes, id).Some? || Lookup(rs, id) == Lookup(ss, id)
  }

  lemma AddOrderMatters(nodes: seq<NodeRecord>, rs: seq<NodeRecord>, ss: seq<NodeRecord>)
    requires TableOk(nodes) && Room(nodes, rs) && Room(nodes, ss)
    requires (forall r <- rs :: RecordOk(r)) && forall r <- ss :: RecordOk(r)
    ensures SameMembership(AddAll(nodes, rs), AddAll(nodes, ss)) <==> SameNews(nodes, rs, ss)
  {
    var x, y := AddAll(nodes, rs), AddAll(nodes, ss);
    forall id ensures Lookup(x, id) == Lookup(y, id) <==> Lookup(nodes, id).Some? || Lookup(rs, id) == Lookup(ss, id) {
      FirstWins(nodes, rs, id);
      FirstWins(nodes, ss, id);
    }
  }

  /**
   Without agreement: two histories of connections give the same membership exactly when the table was
   empty, or every id not known before is first mentioned with the same record in both. Each may
   mention at most ten ids, as often as it likes.
   */
  lemma OrderMattersExactly(nodes: seq<NodeRecord>, rcs: seq<Reception>, traffic: seq<seq<Msg>>,
                            rcs': seq<Reception>, traffic': seq<seq<Msg>>)
    requires TableOk(nodes) && AllBring(rcs, traffic) && AllBring(rcs', traffic')
    requires Room(nodes, News(traffic)) && Room(nodes, News(traffic'))
    ensures SameMembership(DeliverAll(nodes, rcs), DeliverAll(nodes, rcs'))
            <==> nodes == [] || SameNews(nodes, News(traffic), News(traffic'))
  {
    if nodes == [] {
      EmptyLearnsNothing(rcs);
      EmptyLearnsNothing(rcs');
    } else {
      NewsIsOk(rcs, traffic);
      NewsIsOk(rcs', traffic');
      ConnectionsAddAll(nodes, rcs, traffic);
      ConnectionsAddAll(nodes, rcs', traffic');
      AddOrderMatters(nodes, News(traffic), News(traffic'));
    }
  }

  // ---- In place ----

  /** Print the whole table, one command for each node. */
  method SendSnapshot(table: ClusterTable) returns (cmds: seq<string>)
    requires table.Valid()
    ensures cmds == Snapshot(table.View())
  {
    cmds := [];
    ghost var nodes := table.View();
    assert nodes[..0] == [];
    for j := 0 to table.count
      invariant cmds == Snapshot(nodes[..j])
    {
      assert nodes[j] == table.nodes[j] && nodes[j] in nodes;
      if table.nodes[j].id == -1 {
        continue;
      }
      SnapshotSnoc(nodes[..j], nodes[j]);
      assert nodes[..j] + [nodes[j]] == nodes[..j + 1];
      cmds := cmds + [PrintAdd(table.nodes[j])];
    }
    assert nodes[..table.count] == nodes;
  }

  lemma {:induction false} SnapshotSnoc(rs: seq<NodeRecord>, r: NodeRecord)
    ensures Snapshot(rs + [r]) == Snapshot(rs) + [PrintAdd(r)]
  {
    if rs == [] {
      assert rs + [r] == [r];
    } else {
      assert (rs + [r])[1..] == rs[1..] + [r];
      SnapshotSnoc(rs[1..], r);
    }
  }

  /** The handler of a received command. */
  method HandlePropagatedAdd(table: ClusterTable, command: string) returns (ok: bool)
    requires table.Valid() && |command| >= 13
    modifies table`count, table`file, table.nodes
    ensures table.Valid() && table.View() == OnAdd(old(table.View()), command)
    ensures ok <==> |table.View()| > |old(table.View())|
  {
    var tokens := Tokens(command[13..], ' ', ' ');
    var id, name, ip, ralePort: Port, dstorePort: Port := -1, "", "", 0, 0;
    if |tokens| > 0 {
      id := Atoi(tokens[0]);
    }
    if |tokens| > 1 {
      name := Keep(tokens[1], NAME_KEPT);
    }
    if |tokens| > 2 {
      ip := Keep(tokens[2], IP_KEPT);
    }
    if |tokens| > 3 {
      ralePort := Atoi(tokens[3]) % 0x1_0000;
    }
    if |tokens| > 4 {
      dstorePort := Atoi(tokens[4]) % 0x1_0000;
    }
    if id >= 0 && |name| > 0 && |ip| > 0 && ralePort > 0 && dstorePort > 0 {
      ok := table.AddNode(id, Some(name), Some(ip), ralePort, dstorePort);
    } else {
      ok := false;
    }
  }

  /** The way of a received line to that handler, as far as additions go. */
  method ReceiveLine(table: ClusterTable, line: string)
    requires table.Valid() && !StartsWith(line, REMOVE)
    modifies table`count, table`file, table.nodes
    ensures table.Valid() && table.View() == Handle(old(table.View()), line)
  {
    if table.count == 0 {
      return;
    }
    if StartsWith(line, ADD) {
      var _ := HandlePropagatedAdd(table, line);
    }
  }
}
