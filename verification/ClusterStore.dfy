/**
 The membership table in place: a fixed array with a count, appended to and shifted down,
 printed to the state file after every change and filled from it at start.
 */
module ClusterStore {
  import opened Limits
  import opened Options
  import opened Text
  import opened Cluster
  import opened ClusterFile

  class ClusterTable {
    const nodes: array<NodeRecord>
    var count: nat
    var selfId: int
    /** Whether a state file is configured, and its contents. */
    const persistent: bool
    var file: Option<string>

    ghost function View(): seq<NodeRecord>
      reads this, nodes
      requires count <= nodes.Length
    {
      nodes[..count]
    }

    ghost predicate Valid()
      reads this, nodes
    {
      nodes.Length == MAX_NODES && count <= MAX_NODES && TableOk(View())
    }

    /** After a change the file, if there is one, shows the table. */
    ghost predicate Saved()
      reads this, nodes
      requires count <= nodes.Length
    {
      persistent ==> file == Some(Save(selfId, View()))
    }

    constructor (persistent: bool, file: Option<string>)
      ensures fresh(nodes) && this.persistent == persistent && this.file == file
      ensures Valid() && View() == [] && selfId == -1 && nodes[..] == Blanks(MAX_NODES)
    {
      nodes := new NodeRecord[MAX_NODES](_ => BLANK);
      count, selfId := 0, -1;
      this.persistent, this.file := persistent, file;
      new;
      assert nodes[..] == Blanks(MAX_NODES);
    }

    method IndexOf(id: int) returns (i: nat)
      requires Valid()
      ensures i <= count && (i < count ==> nodes[i].id == id)
      ensures forall j :: 0 <= j < i ==> nodes[j].id != id
      ensures i == count <==> Lookup(View(), id).None?
    {
      i := 0;
      while i < count && nodes[i].id != id
        invariant 0 <= i <= count && forall j :: 0 <= j < i ==> nodes[j].id != id
      {
        i := i + 1;
      }
      LookupFinds(View(), id);
      assert i < count ==> View()[i].id == id;
    }

    method AddNode(id: int, name: Option<string>, ip: Option<string>, ralePort: Port, dstorePort: Port)
      returns (ok: bool)
      requires Valid()
      modifies this`count, this`file, nodes
      ensures Valid()
      ensures ok == (name.Some? && ip.Some?
                     && Admits(old(View()), NodeRecord(id, name.value, ip.value, ralePort, dstorePort)))
      ensures View() == if name.Some? && ip.Some?
                        then Add(old(View()), NodeRecord(id, name.value, ip.value, ralePort, dstorePort))
                        else old(View())
      ensures if ok then Saved() else file == old(file)
    {
      if id <= 0 || id > MAX_NODE_ID || name.None? || |name.value| == 0 || |name.value| > MAX_NAME_LENGTH {
        return false;
      }
      if ip.None? || |ip.value| == 0 || |ip.value| > MAX_IP_LENGTH || ralePort <= 0 || dstorePort <= 0 {
        return false;
      }
      ghost var r := NodeRecord(id, name.value, ip.value, ralePort, dstorePort);
      ghost var before := View();
      AddLaws(before, r, id);
      var i := IndexOf(id);
      if i < count || count >= MAX_NODES {
        return false;
      }
      nodes[count] := NodeRecord(id, Truncate(name.value, NAME_SIZE), Truncate(ip.value, IP_SIZE),
                                 ralePort, dstorePort);
      count := count + 1;
      assert View() == before + [Stored(r)];
      SaveState();
      ok := true;
    }

    method RemoveNode(id: int) returns (ok: bool)
      requires Valid()
      modifies this`count, this`file, nodes
      ensures Valid() && ok == Lookup(old(View()), id).Some? && View() == Remove(old(View()), id)
      ensures if ok then Saved() else file == old(file)
    {
      ghost var before := View();
      RemoveLaws(before, id, id);
      var i := IndexOf(id);
      RemovedAt(before, id, i);
      if i == count {
        return false;
      }
      ShiftDown(i);
      SaveState();
      ok := true;
    }

    /** Close the gap at `i`. */
    method ShiftDown(i: nat)
      requires i < count <= nodes.Length
      modifies this`count, nodes
      ensures count == old(count) - 1 && View() == old(View())[..i] + old(View())[i + 1..]
    {
      ghost var before := View();
      var k := i;
      while k < count - 1
        invariant i <= k <= count - 1 && count == old(count)
        invariant forall j :: 0 <= j < i ==> nodes[j] == before[j]
        invariant forall j :: i <= j < k ==> nodes[j] == before[j + 1]
        invariant forall j :: k < j < count ==> nodes[j] == before[j]
      {
        nodes[k] := nodes[k + 1];
        k := k + 1;
      }
      count := count - 1;
    }

    method SetSelfId(id: int) returns (ok: bool)
      requires Valid()
      modifies this`selfId, this`file
      ensures Valid() && View() == old(View()) && ok == (0 < id <= MAX_NODE_ID)
      ensures selfId == if ok then id else old(selfId)
      ensures if ok then Saved() else file == old(file)
    {
      if id <= 0 || id > MAX_NODE_ID {
        return false;
      }
      selfId := id;
      SaveState();
      ok := true;
    }

    /** Print the table line by line. */
    method SaveState()
      requires Valid()
      modifies this`file
      ensures Saved() && (!persistent ==> file == old(file))
    {
      if !persistent {
        return;
      }
      ghost var table := View();
      var text := Line("self_id", Print(selfId)) + Line("node_count", Print(count));
      SaveStart(selfId, table);
      for i := 0 to count
        invariant text + NodeLines(i, table[i..]) == Save(selfId, table)
      {
        SaveNext(text, i, table);
        text := text + NodeText(i, nodes[i]);
      }
      assert NodeLines(count, table[count..]) == "" && text + "" == text;
      file := Some(text);
    }

    /** Read the file line by line; a missing one leaves the table as it is. */
    method LoadState()
      requires nodes.Length == MAX_NODES
      modifies this`count, this`selfId, nodes
      ensures if persistent && file.Some?
              then var l := Load(file.value); selfId == l.selfId && count == l.count && nodes[..] == l.slots
              else selfId == old(selfId) && count == old(count) && nodes[..] == old(nodes[..])
    {
      if !persistent || file.None? {
        return;
      }
      Clear();
      var rest, index: nat := file.value, 0;
      var id, name, ip, ralePort: Port := 0, "", "", 0;
      while rest != []
        invariant LoadLines(Loader(selfId, count, nodes[..], index, id, name, ip, ralePort), rest) == Load(file.value)
        decreases |rest|
      {
        ghost var l := Loader(selfId, count, nodes[..], index, id, name, ip, ralePort);
        var raw := Fgets(rest, READ_SIZE);
        FgetsReads(rest);
        rest := rest[|raw|..];
        var line := raw[..Find(raw, '\n')];
        var e := Find(line, '=');
        if e == |line| || e >= KEY_SIZE || |line| - (e + 1) >= VALUE_SIZE {
          continue;
        }
        var value := line[e + 1..];
        match FieldOf(line[..e]) {
          case SelfId => selfId := Atoi(value);
          case Count => count := Atoi(value) % 0x1_0000_0000;
          case Id => id := Atoi(value);
          case Name => name := value;
          case Ip => ip := value;
          case RalePort => ralePort := Atoi(value) % 0x1_0000;
          case DstorePort =>
            if index < MAX_NODES {
              nodes[index] := NodeRecord(id, Truncate(name, NAME_SIZE), Truncate(ip, IP_SIZE),
                                         ralePort, Atoi(value) % 0x1_0000);
              index := index + 1;
            }
          case Other =>
        }
        assert Loader(selfId, count, nodes[..], index, id, name, ip, ralePort) == ReadLine(l, raw);
      }
    }

    /** The reset before loading. */
    method Clear()
      requires nodes.Length == MAX_NODES
      modifies this`count, this`selfId, nodes
      ensures count == 0 && selfId == -1 && nodes[..] == Blanks(MAX_NODES)
    {
      for i := 0 to MAX_NODES
        invariant forall j :: 0 <= j < i ==> nodes[j] == BLANK
      {
        nodes[i] := BLANK;
      }
      count, selfId := 0, -1;
      assert nodes[..] == Blanks(MAX_NODES);
    }

    /** A restart from the saved file brings the same table back if and only if every record survives. */
    method Restart(ghost before: seq<NodeRecord>, ghost self: int32)
      requires nodes.Length == MAX_NODES && persistent && TableOk(before) && file == Some(Save(self as int, before))
      modifies this`count, this`selfId, nodes
      ensures selfId == self as int && count == |before| && nodes[..] == Padded(before)
              <==> AllSurvive(BLANK, 0, before)
      ensures AllSurvive(BLANK, 0, before) ==> Valid() && View() == before && Saved()
    {
      RoundTripExactly(self, before);
      LoadState();
      assert Padded(before)[..|before|] == before;
    }
  }

  /** The five lines of one node. */
  function NodeText(i: nat, r: NodeRecord): string {
    Line(Key(i, ".id"), Print(r.id)) + Line(Key(i, ".name"), r.name) + Line(Key(i, ".ip"), r.ip)
    + Line(Key(i, ".rale_port"), Print(r.ralePort)) + Line(Key(i, ".dstore_port"), Print(r.dstorePort))
  }

  lemma SaveStart(selfId: int, nodes: seq<NodeRecord>)
    ensures Line("self_id", Print(selfId)) + Line("node_count", Print(|nodes|)) + NodeLines(0, nodes[0..])
            == Save(selfId, nodes)
  {
    assert nodes[0..] == nodes;
    Reassociate("", "", "", Line("self_id", Print(selfId)), Line("node_count", Print(|nodes|)), NodeLines(0, nodes));
  }

  lemma SaveNext(text: string, i: nat, nodes: seq<NodeRecord>)
    requires i < |nodes|
    ensures text + NodeLines(i, nodes[i..]) == text + NodeText(i, nodes[i]) + NodeLines(i + 1, nodes[i + 1..])
  {
    var r, rest := nodes[i], NodeLines(i + 1, nodes[i + 1..]);
    assert nodes[i..][0] == r && nodes[i..][1..] == nodes[i + 1..];
    Reassociate(Line(Key(i, ".id"), Print(r.id)), Line(Key(i, ".name"), r.name), Line(Key(i, ".ip"), r.ip),
                Line(Key(i, ".rale_port"), Print(r.ralePort)), Line(Key(i, ".dstore_port"), Print(r.dstorePort)), rest);
    assert text + (NodeText(i, r) + rest) == text + NodeText(i, r) + rest;
  }

  lemma Reassociate(a: string, b: string, c: string, d: string, e: string, rest: string)
    ensures a + (b + (c + (d + (e + rest)))) == a + b + c + d + e + rest
  {}

  lemma FgetsReads(text: string)
    requires text != []
    ensures Fgets(text, READ_SIZE) != []
  {}

  lemma {:induction false} RemovedAt(nodes: seq<NodeRecord>, id: int, i: nat)
    requires i <= |nodes| && (i < |nodes| ==> nodes[i].id == id) && forall j :: 0 <= j < i ==> nodes[j].id != id
    ensures Remove(nodes, id) == if i < |nodes| then nodes[..i] + nodes[i + 1..] else nodes
  {
    if i > 0 {
      RemovedAt(nodes[1..], id, i - 1);
      if i < |nodes| {
        assert [nodes[0]] + (nodes[1..][..i - 1] + nodes[1..][i..]) == nodes[..i] + nodes[i + 1..];
      }
    }
  }
}
