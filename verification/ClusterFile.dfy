/**
 The cluster state file: one `key=value` line per field, each printed through a 256-byte
 buffer; read back line by line into variables that carry over from one node to the next.
 */
module ClusterFile {
  import opened Limits
  import opened Text
  import opened Cluster

  const LINE_SIZE: nat := 256
  const READ_SIZE: nat := 512
  const KEY_SIZE: nat := 64
  const VALUE_SIZE: nat := 256

  // ---- Saving ----

  function Line(key: string, value: string): string {
    Truncate(key + "=" + value + "\n", LINE_SIZE)
  }

  function Key(i: nat, field: string): string {
    "node[" + Print(i) + "]" + field
  }

  /** The lines of the nodes from number `i` on. */
  function NodeLines(i: nat, nodes: seq<NodeRecord>): string
    decreases |nodes|
  {
    if nodes == [] then ""
    else
      var r := nodes[0];
      Line(Key(i, ".id"), Print(r.id)) + (Line(Key(i, ".name"), r.name) + (Line(Key(i, ".ip"), r.ip)
      + (Line(Key(i, ".rale_port"), Print(r.ralePort)) + (Line(Key(i, ".dstore_port"), Print(r.dstorePort))
      + NodeLines(i + 1, nodes[1..])))))
  }

  function Save(selfId: int, nodes: seq<NodeRecord>): string {
    Line("self_id", Print(selfId)) + (Line("node_count", Print(|nodes|)) + NodeLines(0, nodes))
  }

  // ---- Loading ----

  /** `strstr` */
  predicate Contains(s: string, t: string) {
    t <= s || (s != [] && Contains(s[1..], t))
  }

  /** The table being filled, the next free slot, and the values read since. */
  datatype Loader = Loader(
    selfId: int, count: nat, slots: seq<NodeRecord>, index: nat,
    id: int, name: string, ip: string, ralePort: Port)

  const BLANK := NodeRecord(0, "", "", 0, 0)

  function Blanks(n: nat): (rs: seq<NodeRecord>)
    ensures |rs| == n && forall r <- rs :: r == BLANK
  {
    if n == 0 then [] else [BLANK] + Blanks(n - 1)
  }

  function Fresh(): Loader {
    Loader(-1, 0, Blanks(MAX_NODES), 0, 0, "", "", 0)
  }

  /** The complete record goes to the next slot; what would be an eleventh is ignored. */
  function Complete(l: Loader, dstorePort: Port): Loader {
    if l.index < MAX_NODES && l.index < |l.slots|
    then l.(slots := l.slots[l.index := Stored(NodeRecord(l.id, l.name, l.ip, l.ralePort, dstorePort))],
            index := l.index + 1)
    else l
  }

  datatype Field = SelfId | Count | Id | Name | Ip | RalePort | DstorePort | Other

  /** The chain of tests on the key. */
  function FieldOf(key: string): Field {
    if key == "self_id" then SelfId
    else if key == "node_count" then Count
    else if !StartsWith(key, "node[") then Other
    else if Contains(key, "]" + ".id") then Id
    else if Contains(key, "]" + ".name") then Name
    else if Contains(key, "]" + ".ip") then Ip
    else if Contains(key, "]" + ".rale_port") then RalePort
    else if Contains(key, "]" + ".dstore_port") then DstorePort
    else Other
  }

  function Assign(l: Loader, field: Field, value: string): Loader {
    match field
    case SelfId => l.(selfId := Atoi(value))
    case Count => l.(count := Atoi(value) % 0x1_0000_0000)
    case Id => l.(id := Atoi(value))
    case Name => l.(name := value)
    case Ip => l.(ip := value)
    case RalePort => l.(ralePort := Atoi(value) % 0x1_0000)
    case DstorePort => Complete(l, Atoi(value) % 0x1_0000)
    case Other => l
  }

  /** Lines without `=`, with a key of 64 bytes or more, or a value of 256 or more are skipped. */
  function ReadLine(l: Loader, raw: string): Loader {
    var line := raw[..Find(raw, '\n')];
    var e := Find(line, '=');
    if e == |line| || e >= KEY_SIZE || |line| - (e + 1) >= VALUE_SIZE then l
    else Assign(l, FieldOf(line[..e]), line[e + 1..])
  }

  function LoadLines(l: Loader, text: string): Loader
    decreases |text|
  {
    if text == [] then l
    else
      var raw := Fgets(text, READ_SIZE);
      if raw == [] then l else LoadLines(ReadLine(l, raw), text[|raw|..])
  }

  function Load(text: string): Loader {
    LoadLines(Fresh(), text)
  }

  // ---- Reading one line ----

  lemma FgetsLine(line: string, rest: string)
    requires '\n' !in line && |line| <= 510
    ensures Fgets(line + "\n" + rest, READ_SIZE) == line + "\n"
  {
    FindAfter(line, '\n', rest);
    assert (line + "\n" + rest)[..|line| + 1] == line + "\n";
  }

  /** A line that fits is read whole and the rest follows. */
  lemma LoadsLine(l: Loader, line: string, rest: string)
    requires '\n' !in line && |line| <= 510
    ensures LoadLines(l, line + "\n" + rest) == LoadLines(ReadLine(l, line + "\n"), rest)
  {
    FgetsLine(line, rest);
    assert (line + "\n" + rest)[|line| + 1..] == rest;
  }

  lemma ReadsPair(l: Loader, key: string, value: string)
    requires '\n' !in key && '\n' !in value && '=' !in key
    ensures ReadLine(l, key + "=" + value + "\n") ==
      if |key| <= 63 && |value| <= 255 then Assign(l, FieldOf(key), value) else l
  {
    var line := key + "=" + value;
    FindAfter(line, '\n', "");
    assert line + "\n" + "" == line + "\n";
    assert (line + "\n")[..|line|] == line;
    FindAfter(key, '=', value);
    assert line[..|key|] == key && line[|key| + 1..] == value;
  }

  /** A pair whose line fits the print buffer is read back as it was. */
  lemma LoadsPair(l: Loader, key: string, value: string, rest: string)
    requires '\n' !in key && '\n' !in value && '=' !in key && |key| < KEY_SIZE
    requires |key| + |value| + 2 < LINE_SIZE
    ensures LoadLines(l, Line(key, value) + rest) == LoadLines(Assign(l, FieldOf(key), value), rest)
  {
    LoadsLine(l, key + "=" + value, rest);
    ReadsPair(l, key, value);
  }

  // ---- Keys ----

  lemma {:induction false} ContainsAfter(a: string, b: string, t: string)
    requires ']' !in a && ']' !in b
    ensures Contains(a + "]" + b, "]" + t) <==> t <= b
  {
    var s := a + "]" + b;
    if a == [] {
      assert s == "]" + b && s[1..] == b && ("]" + t <= s <==> t <= b);
      NotContained(b, t);
    } else {
      assert s[1..] == a[1..] + "]" + b && s[0] == a[0];
      ContainsAfter(a[1..], b, t);
    }
  }

  lemma {:induction false} NotContained(b: string, t: string)
    requires ']' !in b
    ensures !Contains(b, "]" + t)
  {
    assert ("]" + t)[0] == ']';
    if b != [] {
      NotContained(b[1..], t);
    }
  }

  /** The same chain on the part of a printed key after its bracket. */
  function FieldNamed(field: string): Field {
    if ".id" <= field then Id
    else if ".name" <= field then Name
    else if ".ip" <= field then Ip
    else if ".rale_port" <= field then RalePort
    else if ".dstore_port" <= field then DstorePort
    else Other
  }

  lemma KeyShape(i: nat, field: string)
    requires i < MAX_NODES && ']' !in field && '=' !in field && '\n' !in field
    ensures var key := Key(i, field);
      |key| == 7 + |field| && '\n' !in key && '=' !in key && FieldOf(key) == FieldNamed(field)
  {
    assert |Print(i)| == 1;
    var a := "node[" + Print(i);
    assert Key(i, field) == a + "]" + field && Key(i, field)[4] == '[';
    ContainsAfter(a, field, ".id");
    ContainsAfter(a, field, ".name");
    ContainsAfter(a, field, ".ip");
    ContainsAfter(a, field, ".rale_port");
    ContainsAfter(a, field, ".dstore_port");
  }

  /** The fields of a node, each line read into its own variable. */
  lemma FieldsNamed()
    ensures FieldNamed(".id") == Id && FieldNamed(".name") == Name && FieldNamed(".ip") == Ip
    ensures FieldNamed(".rale_port") == RalePort && FieldNamed(".dstore_port") == DstorePort
  {
    assert ".name"[1] != ".id"[1] && ".ip"[2] != ".id"[2] && ".ip"[1] != ".name"[1];
    assert ".rale_port"[1] !in {".id"[1], ".name"[1]};
    assert ".dstore_port"[1] !in {".id"[1], ".name"[1], ".rale_port"[1]};
  }

  // ---- Reading one node ----

  predicate OneLine(r: NodeRecord) {
    '\n' !in r.name && '\n' !in r.ip
  }

  /** The longest name whose line keeps its newline. */
  const LONGEST_NAME: nat := 241

  /** The value read when the name line lost its newline: the cut name and the whole ip line. */
  function Glued(i: nat, r: NodeRecord): string
    requires |r.name| > LONGEST_NAME
  {
    r.name[..LONGEST_NAME + 1] + Key(i, ".ip") + "=" + r.ip
  }

  /** What reading the lines of one node does to the loader. */
  function ReadNode(l: Loader, i: nat, r: NodeRecord): Loader {
    var m := l.(id := r.id, ralePort := r.ralePort);
    if |r.name| <= LONGEST_NAME then Complete(m.(name := r.name, ip := r.ip), r.dstorePort)
    else Complete(if |Glued(i, r)| < VALUE_SIZE then m.(name := Glued(i, r)) else m, r.dstorePort)
  }

  lemma LoadsField(l: Loader, i: nat, field: string, value: string, rest: string)
    requires i < MAX_NODES && ']' !in field && '=' !in field && '\n' !in field && '\n' !in value
    requires |field| <= 12 && |field| + |value| + 9 < LINE_SIZE
    ensures LoadLines(l, Line(Key(i, field), value) + rest) == LoadLines(Assign(l, FieldNamed(field), value), rest)
  {
    KeyShape(i, field);
    LoadsPair(l, Key(i, field), value, rest);
  }

  lemma LoadsNumbers(l: Loader, i: nat, n: int, rest: string)
    requires i < MAX_NODES && 0 <= n < 0x1_0000
    ensures LoadLines(l, Line(Key(i, ".id"), Print(n)) + rest) == LoadLines(l.(id := n), rest)
    ensures LoadLines(l, Line(Key(i, ".rale_port"), Print(n)) + rest) == LoadLines(l.(ralePort := n), rest)
    ensures LoadLines(l, Line(Key(i, ".dstore_port"), Print(n)) + rest) == LoadLines(Complete(l, n), rest)
  {
    FieldsNamed();
    SmallNumber(n);
    LoadsField(l, i, ".id", Print(n), rest);
    LoadsField(l, i, ".rale_port", Print(n), rest);
    LoadsField(l, i, ".dstore_port", Print(n), rest);
  }

  lemma LoadsShortName(l: Loader, i: nat, r: NodeRecord, rest: string)
    requires i < MAX_NODES && OneLine(r) && |r.name| <= LONGEST_NAME && |r.ip| <= MAX_IP_LENGTH
    ensures LoadLines(l, Line(Key(i, ".name"), r.name) + (Line(Key(i, ".ip"), r.ip) + rest)) ==
      LoadLines(l.(name := r.name, ip := r.ip), rest)
  {
    FieldsNamed();
    LoadsField(l, i, ".name", r.name, Line(Key(i, ".ip"), r.ip) + rest);
    LoadsField(l.(name := r.name), i, ".ip", r.ip, rest);
  }

  /** A longer name runs into the ip line: both are read as one name, or skipped. */
  lemma LoadsLongName(l: Loader, i: nat, r: NodeRecord, rest: string)
    requires i < MAX_NODES && OneLine(r) && |r.name| > LONGEST_NAME && |r.ip| <= MAX_IP_LENGTH
    ensures LoadLines(l, Line(Key(i, ".name"), r.name) + (Line(Key(i, ".ip"), r.ip) + rest)) ==
      LoadLines(if |Glued(i, r)| < VALUE_SIZE then l.(name := Glued(i, r)) else l, rest)
  {
    FieldsNamed();
    var key := Key(i, ".name");
    KeyShape(i, ".name");
    KeyShape(i, ".ip");
    assert Line(key, r.name) == key + "=" + r.name[..LONGEST_NAME + 1];
    assert Line(Key(i, ".ip"), r.ip) == Key(i, ".ip") + "=" + r.ip + "\n";
    var line := key + "=" + Glued(i, r);
    assert Line(key, r.name) + (Line(Key(i, ".ip"), r.ip) + rest) == line + "\n" + rest;
    LoadsLine(l, line, rest);
    ReadsPair(l, key, Glued(i, r));
  }

  lemma LoadsNode(l: Loader, i: nat, nodes: seq<NodeRecord>)
    requires i < MAX_NODES && nodes != [] && RecordOk(nodes[0]) && OneLine(nodes[0])
    ensures LoadLines(l, NodeLines(i, nodes)) == LoadLines(ReadNode(l, i, nodes[0]), NodeLines(i + 1, nodes[1..]))
  {
    var r, rest := nodes[0], NodeLines(i + 1, nodes[1..]);
    var l1 := l.(id := r.id);
    var l2 := if |r.name| <= LONGEST_NAME then l1.(name := r.name, ip := r.ip)
              else if |Glued(i, r)| < VALUE_SIZE then l1.(name := Glued(i, r)) else l1;
    var last := Line(Key(i, ".dstore_port"), Print(r.dstorePort)) + rest;
    var ports := Line(Key(i, ".rale_port"), Print(r.ralePort)) + last;
    LoadsNumbers(l, i, r.id, Line(Key(i, ".name"), r.name) + (Line(Key(i, ".ip"), r.ip) + ports));
    if |r.name| <= LONGEST_NAME {
      LoadsShortName(l1, i, r, ports);
    } else {
      LoadsLongName(l1, i, r, ports);
    }
    LoadsNumbers(l2, i, r.ralePort, last);
    LoadsNumbers(l2.(ralePort := r.ralePort), i, r.dstorePort, rest);
  }

  function ReadNodes(l: Loader, i: nat, nodes: seq<NodeRecord>): Loader
    decreases |nodes|
  {
    if nodes == [] then l else ReadNodes(ReadNode(l, i, nodes[0]), i + 1, nodes[1..])
  }

  lemma {:induction false} LoadsNodes(l: Loader, i: nat, nodes: seq<NodeRecord>)
    requires i + |nodes| <= MAX_NODES && forall r <- nodes :: RecordOk(r) && OneLine(r)
    ensures LoadLines(l, NodeLines(i, nodes)) == ReadNodes(l, i, nodes)
    decreases |nodes|
  {
    if nodes != [] {
      var rest := nodes[1..];
      assert forall r <- rest :: r in nodes;
      LoadsNodes(ReadNode(l, i, nodes[0]), i + 1, rest);
      LoadsNode(l, i, nodes);
    }
  }

  // ---- Reading the whole table ----

  /** The record that comes back for `r`, when `prev` was the one before it. */
  function Restored(prev: NodeRecord, i: nat, r: NodeRecord): NodeRecord {
    if |r.name| <= LONGEST_NAME then r
    else r.(name := if |Glued(i, r)| < VALUE_SIZE then Truncate(Glued(i, r), NAME_SIZE) else prev.name, ip := prev.ip)
  }

  function RestoredFrom(prev: NodeRecord, i: nat, nodes: seq<NodeRecord>): (rs: seq<NodeRecord>)
    ensures |rs| == |nodes|
    decreases |nodes|
  {
    if nodes == [] then []
    else
      var r := Restored(prev, i, nodes[0]);
      [r] + RestoredFrom(r, i + 1, nodes[1..])
  }

  /** The carried-over variables hold the record read last. */
  predicate Carries(l: Loader, prev: NodeRecord) {
    l.ip == prev.ip && |prev.ip| < IP_SIZE && Truncate(l.name, NAME_SIZE) == prev.name
  }

  lemma ReadsNode(l: Loader, prev: NodeRecord, i: nat, r: NodeRecord)
    requires RecordOk(r) && Carries(l, prev) && l.index == i < |l.slots| == MAX_NODES
    ensures var m, back := ReadNode(l, i, r), Restored(prev, i, r);
      && m.slots == l.slots[i := back] && m.index == i + 1 && Carries(m, back)
      && m.selfId == l.selfId && m.count == l.count
  {}

  /** `rs` written into the slots from `i` on. */
  function Fill(slots: seq<NodeRecord>, i: nat, rs: seq<NodeRecord>): seq<NodeRecord>
    requires i + |rs| <= |slots|
    decreases |rs|
  {
    if rs == [] then slots else Fill(slots[i := rs[0]], i + 1, rs[1..])
  }

  lemma {:induction false} ReadsNodes(l: Loader, prev: NodeRecord, i: nat, nodes: seq<NodeRecord>)
    requires forall r <- nodes :: RecordOk(r)
    requires Carries(l, prev) && l.index == i && i + |nodes| <= MAX_NODES == |l.slots|
    ensures var m := ReadNodes(l, i, nodes);
      && m.selfId == l.selfId && m.count == l.count && m.index == i + |nodes|
      && m.slots == Fill(l.slots, i, RestoredFrom(prev, i, nodes))
    decreases |nodes|
  {
    if nodes != [] {
      ReadsNode(l, prev, i, nodes[0]);
      ReadsNodes(ReadNode(l, i, nodes[0]), Restored(prev, i, nodes[0]), i + 1, nodes[1..]);
    }
  }

  lemma {:induction false} FillsBlanks(done: seq<NodeRecord>, rs: seq<NodeRecord>, n: nat)
    requires |rs| <= n
    ensures Fill(done + Blanks(n), |done|, rs) == done + rs + Blanks(n - |rs|)
    decreases |rs|
  {
    if rs == [] {
      assert done + rs == done;
    } else {
      assert (done + Blanks(n))[|done| := rs[0]] == done + [rs[0]] + Blanks(n - 1);
      FillsBlanks(done + [rs[0]], rs[1..], n - 1);
      assert done + [rs[0]] + rs[1..] == done + rs;
    }
  }

  function Padded(nodes: seq<NodeRecord>): seq<NodeRecord>
    requires |nodes| <= MAX_NODES
  {
    nodes + Blanks(MAX_NODES - |nodes|)
  }

  lemma ReadsTable(selfId: int, nodes: seq<NodeRecord>)
    requires TableOk(nodes)
    ensures var m := ReadNodes(Fresh().(selfId := selfId, count := |nodes|), 0, nodes);
      m.selfId == selfId && m.count == |nodes| == m.index && m.slots == Padded(RestoredFrom(BLANK, 0, nodes))
  {
    var l, rs := Fresh().(selfId := selfId, count := |nodes|), RestoredFrom(BLANK, 0, nodes);
    ReadsNodes(l, BLANK, 0, nodes);
    FillsBlanks([], rs, MAX_NODES);
    assert [] + l.slots == l.slots && [] + rs == rs;
  }

  lemma LoadsHeader(l: Loader, selfId: int32, n: nat, rest: string)
    requires n <= MAX_NODES
    ensures LoadLines(l, Line("self_id", Print(selfId as int)) + (Line("node_count", Print(n)) + rest)) ==
      LoadLines(l.(selfId := selfId as int, count := n), rest)
  {
    PrintLength(selfId);
    AtoiPrinted(selfId as int);
    SmallNumber(n);
    LoadsPair(l, "self_id", Print(selfId as int), Line("node_count", Print(n)) + rest);
    LoadsPair(l.(selfId := selfId as int), "node_count", Print(n), rest);
  }

  /** For names and ips without a newline, the loader restores exactly this. */
  lemma LoadsSaved(selfId: int32, nodes: seq<NodeRecord>)
    requires TableOk(nodes) && forall r <- nodes :: OneLine(r)
    ensures var l := Load(Save(selfId as int, nodes));
      l.selfId == selfId as int && l.count == |nodes| == l.index && l.slots == Padded(RestoredFrom(BLANK, 0, nodes))
  {
    var l := Fresh().(selfId := selfId as int, count := |nodes|);
    LoadsHeader(Fresh(), selfId, |nodes|, NodeLines(0, nodes));
    LoadsNodes(l, 0, nodes);
    ReadsTable(selfId as int, nodes);
  }

  // ---- When everything comes back ----

  /**
   Whether node number `i` comes back when `prev` came before it: its text has no newline, and its
   name fits its line or happens to be what the loader makes of a name that does not.
   */
  predicate Survives(prev: NodeRecord, i: nat, r: NodeRecord) {
    && OneLine(r)
    && (|r.name| > LONGEST_NAME ==>
          r.ip == prev.ip
          && r.name == if |Glued(i, r)| <= 255 then Truncate(Glued(i, r), NAME_SIZE) else prev.name)
  }

  predicate AllSurvive(prev: NodeRecord, i: nat, nodes: seq<NodeRecord>)
    decreases |nodes|
  {
    nodes == [] || (Survives(prev, i, nodes[0]) && AllSurvive(nodes[0], i + 1, nodes[1..]))
  }

  lemma {:induction false} RestoredExactly(prev: NodeRecord, i: nat, nodes: seq<NodeRecord>)
    requires forall r <- nodes :: OneLine(r)
    ensures RestoredFrom(prev, i, nodes) == nodes <==> AllSurvive(prev, i, nodes)
    decreases |nodes|
  {
    if nodes != [] {
      var r := nodes[0];
      var back := Restored(prev, i, r);
      assert nodes == [r] + nodes[1..];
      var rs := RestoredFrom(prev, i, nodes);
      assert rs[0] == back && rs[1..] == RestoredFrom(back, i + 1, nodes[1..]);
      assert back == r <==> Survives(prev, i, r);
      RestoredExactly(r, i + 1, nodes[1..]);
    }
  }

  lemma {:induction false} SurvivorsAreOneLine(prev: NodeRecord, i: nat, nodes: seq<NodeRecord>)
    requires AllSurvive(prev, i, nodes)
    ensures forall r <- nodes :: OneLine(r)
    decreases |nodes|
  {
    if nodes != [] {
      SurvivorsAreOneLine(nodes[0], i + 1, nodes[1..]);
      assert nodes == [nodes[0]] + nodes[1..];
    }
  }

  // ---- Nothing read back has a newline ----

  ghost predicate Clean(l: Loader) {
    '\n' !in l.name && '\n' !in l.ip && forall r <- l.slots :: OneLine(r)
  }

  lemma CleanLine(l: Loader, raw: string)
    requires Clean(l)
    ensures Clean(ReadLine(l, raw))
  {
    NoneBefore(raw, '\n');
  }

  lemma {:induction false} LoadsClean(l: Loader, text: string)
    requires Clean(l)
    ensures Clean(LoadLines(l, text))
    decreases |text|
  {
    if text != [] {
      var raw := Fgets(text, READ_SIZE);
      if raw != [] {
        CleanLine(l, raw);
        LoadsClean(ReadLine(l, raw), text[|raw|..]);
      }
    }
  }

  /** Loading what was saved restores the self id, the count and every record in order. */
  ghost predicate RoundTrips(selfId: int, nodes: seq<NodeRecord>)
    requires |nodes| <= MAX_NODES
  {
    var l := Load(Save(selfId, nodes));
    l.selfId == selfId && l.count == |nodes| && l.slots == Padded(nodes)
  }

  lemma PaddedIsInjective(a: seq<NodeRecord>, b: seq<NodeRecord>)
    requires |a| == |b| <= MAX_NODES
    ensures Padded(a) == Padded(b) <==> a == b
  {
    assert Padded(a)[..|a|] == a && Padded(b)[..|b|] == b;
  }

  lemma RoundTripsAreOneLine(selfId: int, nodes: seq<NodeRecord>)
    requires |nodes| <= MAX_NODES && RoundTrips(selfId, nodes)
    ensures forall r <- nodes :: OneLine(r)
  {
    LoadsClean(Fresh(), Save(selfId, nodes));
    assert forall r <- nodes :: r in Padded(nodes);
  }

  /** The round trip, exactly: for every reachable table it works if and only if every node survives. */
  lemma RoundTripExactly(selfId: int32, nodes: seq<NodeRecord>)
    requires TableOk(nodes)
    ensures RoundTrips(selfId as int, nodes) <==> AllSurvive(BLANK, 0, nodes)
  {
    if RoundTrips(selfId as int, nodes) {
      RoundTripsAreOneLine(selfId as int, nodes);
    } else if AllSurvive(BLANK, 0, nodes) {
      SurvivorsAreOneLine(BLANK, 0, nodes);
    }
    if forall r <- nodes :: OneLine(r) {
      LoadsSaved(selfId, nodes);
      RestoredExactly(BLANK, 0, nodes);
      PaddedIsInjective(RestoredFrom(BLANK, 0, nodes), nodes);
    }
  }

  predicate Plain(r: NodeRecord) {
    OneLine(r) && |r.name| <= LONGEST_NAME
  }

  lemma {:induction false} PlainSurvive(prev: NodeRecord, i: nat, nodes: seq<NodeRecord>)
    requires forall r <- nodes :: Plain(r)
    ensures AllSurvive(prev, i, nodes)
    decreases |nodes|
  {
    if nodes != [] {
      assert forall r <- nodes[1..] :: r in nodes;
      assert Plain(nodes[0]);
      PlainSurvive(nodes[0], i + 1, nodes[1..]);
    }
  }

  /** Among ips of three bytes and more no long name survives. */
  lemma {:induction false} OnlyPlainSurvive(prev: NodeRecord, i: nat, nodes: seq<NodeRecord>)
    requires i + |nodes| <= MAX_NODES && |prev.name| <= LONGEST_NAME && forall r <- nodes :: |r.ip| >= 3
    ensures AllSurvive(prev, i, nodes) ==> forall r <- nodes :: Plain(r)
    decreases |nodes|
  {
    if nodes != [] && AllSurvive(prev, i, nodes) {
      KeyShape(i, ".ip");
      OnlyPlainSurvive(nodes[0], i + 1, nodes[1..]);
      assert nodes == [nodes[0]] + nodes[1..];
    }
  }

  /**
   Newline-free names of at most 241 bytes and newline-free ips always come back, and when every
   ip has at least three bytes nothing else does.
   */
  lemma RoundTripOfPlain(selfId: int32, nodes: seq<NodeRecord>)
    requires TableOk(nodes)
    ensures (forall r <- nodes :: Plain(r)) ==> RoundTrips(selfId as int, nodes)
    ensures (forall r <- nodes :: |r.ip| >= 3) ==> (RoundTrips(selfId as int, nodes) <==> forall r <- nodes :: Plain(r))
  {
    RoundTripExactly(selfId, nodes);
    if forall r <- nodes :: Plain(r) {
      PlainSurvive(BLANK, 0, nodes);
    }
    if forall r <- nodes :: |r.ip| >= 3 {
      OnlyPlainSurvive(BLANK, 0, nodes);
    }
  }

  /** One byte too many in the only name, and the table does not come back. */
  lemma LongNameIsLost(selfId: int32, r: NodeRecord)
    requires RecordOk(r) && |r.name| == LONGEST_NAME + 1 && |r.ip| >= 3
    ensures TableOk([r]) && !RoundTrips(selfId as int, [r])
  {
    RoundTripOfPlain(selfId, [r]);
    assert r in [r] && !Plain(r);
  }
}
