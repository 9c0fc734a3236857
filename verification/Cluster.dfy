/**
 The membership table as a value: at most ten node records with distinct ids, in the order
 they were added.
 */
module Cluster {
  import opened Limits
  import opened Options

  const MAX_NODE_ID: int := 1000
  const MAX_NAME_LENGTH: nat := 256
  const MAX_IP_LENGTH: nat := 46
  /** Sizes of the name and ip fields, terminator included. */
  const NAME_SIZE: nat := 255
  const IP_SIZE: nat := 64

  type Port = p: nat | p < 0x1_0000

  datatype NodeRecord = NodeRecord(id: int, name: string, ip: string, ralePort: Port, dstorePort: Port)

  /** What a buffer of `size` bytes keeps of a string copied into it. */
  function Truncate(s: string, size: nat): string
    requires size > 0
  {
    if |s| < size then s else s[..size - 1]
  }

  /** The argument checks of adding a node. */
  predicate Acceptable(r: NodeRecord) {
    && 0 < r.id <= MAX_NODE_ID
    && 0 < |r.name| <= MAX_NAME_LENGTH
    && 0 < |r.ip| <= MAX_IP_LENGTH
    && r.ralePort > 0 && r.dstorePort > 0
  }

  function Lookup(nodes: seq<NodeRecord>, id: int): (r: Option<NodeRecord>)
    ensures r.Some? ==> r.value.id == id && r.value in nodes
  {
    if nodes == [] then None
    else if nodes[0].id == id then Some(nodes[0])
    else Lookup(nodes[1..], id)
  }

  predicate Admits(nodes: seq<NodeRecord>, r: NodeRecord) {
    Acceptable(r) && Lookup(nodes, r.id).None? && |nodes| < MAX_NODES
  }

  /** The record as its slot keeps it; only a name of 255 or 256 bytes loses anything. */
  function Stored(r: NodeRecord): NodeRecord {
    r.(name := Truncate(r.name, NAME_SIZE), ip := Truncate(r.ip, IP_SIZE))
  }

  function Add(nodes: seq<NodeRecord>, r: NodeRecord): seq<NodeRecord> {
    if Admits(nodes, r) then nodes + [Stored(r)] else nodes
  }

  function Remove(nodes: seq<NodeRecord>, id: int): seq<NodeRecord> {
    if nodes == [] then []
    else if nodes[0].id == id then nodes[1..]
    else [nodes[0]] + Remove(nodes[1..], id)
  }

  // ---- Invariant ----

  predicate RecordOk(r: NodeRecord) {
    Acceptable(r) && |r.name| < NAME_SIZE
  }

  ghost predicate Distinct(nodes: seq<NodeRecord>) {
    forall i, j :: 0 <= i < j < |nodes| ==> nodes[i].id != nodes[j].id
  }

  ghost predicate TableOk(nodes: seq<NodeRecord>) {
    |nodes| <= MAX_NODES && Distinct(nodes) && forall r <- nodes :: RecordOk(r)
  }

  lemma {:induction false} LookupFinds(nodes: seq<NodeRecord>, id: int)
    ensures Lookup(nodes, id).None? <==> forall r <- nodes :: r.id != id
  {
    if nodes != [] {
      LookupFinds(nodes[1..], id);
      assert nodes == [nodes[0]] + nodes[1..];
    }
  }

  lemma {:induction false} LookupAppend(nodes: seq<NodeRecord>, r: NodeRecord, id: int)
    ensures Lookup(nodes + [r], id) == if Lookup(nodes, id).Some? then Lookup(nodes, id)
                                       else if r.id == id then Some(r) else None
  {
    if nodes == [] {
      assert nodes + [r] == [r];
    } else {
      assert (nodes + [r])[1..] == nodes[1..] + [r];
      LookupAppend(nodes[1..], r, id);
    }
  }

  /** Adding changes the record of its own id only, and only from absent to present. */
  lemma AddLaws(nodes: seq<NodeRecord>, r: NodeRecord, id: int)
    requires TableOk(nodes)
    ensures TableOk(Add(nodes, r)) && nodes <= Add(nodes, r)
    ensures Lookup(Add(nodes, r), id) ==
      if id == r.id && Admits(nodes, r) then Some(Stored(r)) else Lookup(nodes, id)
  {
    LookupFinds(nodes, r.id);
    LookupAppend(nodes, Stored(r), id);
  }

  /**
   A record is added if and only if its id is 1 to 1000 and new, its name has 1 to 256 bytes and its ip 1 to 46,
   both ports are positive, and there are at most nine nodes; only a name is ever cut, after 254 bytes.
   */
  lemma AddedExactly(nodes: seq<NodeRecord>, r: NodeRecord)
    requires TableOk(nodes)
    ensures Add(nodes, r) ==
      if && 1 <= r.id <= 1000 && 1 <= |r.name| <= 256 && 1 <= |r.ip| <= 46 && r.ralePort != 0 && r.dstorePort != 0
         && |nodes| <= 9 && forall x <- nodes :: x.id != r.id
      then nodes + [r.(name := if |r.name| <= 254 then r.name else r.name[..254])] else nodes
  {
    LookupFinds(nodes, r.id);
  }

  lemma {:induction false} RemovedAre(nodes: seq<NodeRecord>, id: int)
    ensures forall r <- Remove(nodes, id) :: r in nodes
    ensures |Remove(nodes, id)| == if Lookup(nodes, id).Some? then |nodes| - 1 else |nodes|
  {
    if nodes != [] && nodes[0].id != id {
      RemovedAre(nodes[1..], id);
      assert forall r <- nodes[1..] :: r in nodes;
    }
  }

  lemma {:induction false} RemoveKeepsDistinct(nodes: seq<NodeRecord>, id: int)
    requires Distinct(nodes)
    ensures Distinct(Remove(nodes, id))
  {
    if nodes != [] && nodes[0].id != id {
      var rest := nodes[1..];
      RemoveKeepsDistinct(rest, id);
      RemovedAre(rest, id);
      assert forall r <- rest :: r.id != nodes[0].id;
    }
  }

  lemma {:induction false} LookupRemoved(nodes: seq<NodeRecord>, gone: int, id: int)
    requires Distinct(nodes)
    ensures Lookup(Remove(nodes, gone), id) == if id == gone then None else Lookup(nodes, id)
  {
    if nodes != [] {
      var rest := nodes[1..];
      if nodes[0].id == gone {
        LookupFinds(rest, gone);
        assert forall r <- rest :: r.id != gone;
      } else {
        LookupRemoved(rest, gone, id);
        assert Remove(nodes, gone)[1..] == Remove(rest, gone);
      }
    }
  }

  /** Removing takes out the record of its own id only. */
  lemma RemoveLaws(nodes: seq<NodeRecord>, gone: int, id: int)
    requires TableOk(nodes)
    ensures TableOk(Remove(nodes, gone))
    ensures Lookup(Remove(nodes, gone), id) == if id == gone then None else Lookup(nodes, id)
  {
    RemovedAre(nodes, gone);
    RemoveKeepsDistinct(nodes, gone);
    LookupRemoved(nodes, gone, id);
  }

  /** The nodes after a removed one move up; nothing else changes place. */
  lemma {:induction false} RemoveCuts(nodes: seq<NodeRecord>, r: NodeRecord, rest: seq<NodeRecord>)
    requires Lookup(nodes, r.id).None?
    ensures Remove(nodes + [r] + rest, r.id) == nodes + rest
  {
    var all := nodes + [r] + rest;
    if nodes == [] {
      assert all[1..] == rest;
    } else {
      assert all[0] == nodes[0] && all[1..] == nodes[1..] + [r] + rest;
      RemoveCuts(nodes[1..], r, rest);
    }
  }

  /** Removing a node just added gives the old table back, in order. */
  lemma RemoveUndoesAdd(nodes: seq<NodeRecord>, r: NodeRecord)
    requires Admits(nodes, r)
    ensures Remove(Add(nodes, r), r.id) == nodes
  {
    RemoveCuts(nodes, Stored(r), []);
    assert nodes + [Stored(r)] + [] == Add(nodes, r);
  }

  // ---- Whole runs ----

  datatype Op = AddNode(node: NodeRecord) | RemoveNode(id: int)

  function Apply(nodes: seq<NodeRecord>, op: Op): seq<NodeRecord> {
    match op
    case AddNode(r) => Add(nodes, r)
    case RemoveNode(id) => Remove(nodes, id)
  }

  function Run(nodes: seq<NodeRecord>, ops: seq<Op>): seq<NodeRecord>
    decreases |ops|
  {
    if ops == [] then nodes else Run(Apply(nodes, ops[0]), ops[1..])
  }

  /** Every table reached by adding and removing has distinct ids and at most ten nodes. */
  lemma {:induction false} RunKeepsOk(nodes: seq<NodeRecord>, ops: seq<Op>)
    requires TableOk(nodes)
    ensures TableOk(Run(nodes, ops))
    decreases |ops|
  {
    if ops != [] {
      match ops[0] {
        case AddNode(r) => AddLaws(nodes, r, 0);
        case RemoveNode(id) => RemoveLaws(nodes, id, 0);
      }
      RunKeepsOk(Apply(nodes, ops[0]), ops[1..]);
    }
  }
}
