/**
 The dump file of a hash table: a little-endian entry count, then each entry as
 length, key, length, value, bucket by bucket and front to back within a chain.
 */
module HashFile {
  import opened Limits
  import opened Options
  import opened HashTable
  import Text

  // ---- Bytes ----

  function Byte(n: nat): char {
    (n % 256) as char
  }

  /** The four bytes of an `int`, lowest first. */
  function Int32(n: nat): string {
    [Byte(n), Byte(n / 0x100), Byte(n / 0x1_0000), Byte(n / 0x100_0000)]
  }

  function ReadInt32(s: string): nat
    requires |s| >= 4
  {
    s[0] as int % 256 + 0x100 * (s[1] as int % 256) + 0x1_0000 * (s[2] as int % 256) + 0x100_0000 * (s[3] as int % 256)
  }

  lemma Int32RoundTrip(n: nat, rest: string)
    requires n < 0x1_0000_0000
    ensures ReadInt32(Int32(n) + rest) == n
  {
    var s := Int32(n) + rest;
    assert s[0] == Byte(n) && s[1] == Byte(n / 0x100) && s[2] == Byte(n / 0x1_0000) && s[3] == Byte(n / 0x100_0000);
    Base256(n);
  }

  lemma Base256(n: nat)
    requires n < 0x1_0000_0000
    ensures n == n % 256 + 0x100 * (n / 0x100 % 256) + 0x1_0000 * (n / 0x1_0000 % 256)
                 + 0x100_0000 * (n / 0x100_0000 % 256)
  {
    var a := n / 0x100;
    var b := a / 0x100;
    var c := b / 0x100;
    assert b == n / 0x1_0000 && c == n / 0x100_0000;
  }

  // ---- Writing ----

  function WriteText(s: string): string {
    Int32(|s|) + s
  }

  function WritePair(p: Pair): string {
    WriteText(p.key) + WriteText(p.value)
  }

  function WritePairs(pairs: seq<Pair>): string {
    if pairs == [] then "" else WritePair(pairs[0]) + WritePairs(pairs[1..])
  }

  /** All pairs from bucket `b` on. */
  function Flatten(t: Table, b: nat): seq<Pair>
    requires b <= |t|
    decreases |t| - b
  {
    if b == |t| then [] else t[b] + Flatten(t, b + 1)
  }

  function Save(t: Table): string {
    Int32(|Flatten(t, 0)|) + WritePairs(Flatten(t, 0))
  }

  lemma {:induction false} WritePairsAppend(a: seq<Pair>, b: seq<Pair>)
    ensures WritePairs(a + b) == WritePairs(a) + WritePairs(b)
    decreases |a|
  {
    if a == [] {
      assert a + b == b;
    } else {
      assert (a + b)[1..] == a[1..] + b;
      WritePairsAppend(a[1..], b);
    }
  }

  /** `total` entries with text `body` have been written before bucket `b`. */
  ghost predicate DumpedTo(t: Table, b: nat, total: nat, body: string) {
    && b <= |t|
    && total + |Flatten(t, b)| == |Flatten(t, 0)|
    && body + WritePairs(Flatten(t, b)) == WritePairs(Flatten(t, 0))
  }

  lemma DumpBucket(t: Table, b: nat, total: nat, body: string)
    requires DumpedTo(t, b, total, body) && b < |t|
    ensures DumpedTo(t, b + 1, total + |t[b]|, body + WritePairs(t[b]))
  {
    WritePairsAppend(t[b], Flatten(t, b + 1));
    assert body + (WritePairs(t[b]) + WritePairs(Flatten(t, b + 1)))
        == body + WritePairs(t[b]) + WritePairs(Flatten(t, b + 1));
  }

  lemma DumpEnds(t: Table, total: nat, body: string)
    requires DumpedTo(t, |t|, total, body)
    ensures Int32(total) + body == Save(t)
  {
    assert body + "" == body;
  }

  // ---- Reading ----

  /** What the string functions see of a buffer: everything before its first NUL. */
  function CString(s: string): (r: string)
    ensures '\0' !in r
  {
    Text.NoneBefore(s, '\0');
    s[..Text.Find(s, '\0')]
  }

  lemma NulFreeStays(s: string)
    requires '\0' !in s
    ensures CString(s) == s
  {
    Text.NoneBefore(s, '\0');
  }

  /** A length-prefixed text shorter than `max`, and the rest; `None` where the C code would leave its buffers. */
  function ReadText(s: string, max: nat): Option<(string, string)> {
    if |s| < 4 then None
    else
      var n := ReadInt32(s);
      if n >= max || |s| < 4 + n then None else Some((CString(s[4..4 + n]), s[4 + n..]))
  }

  function ReadPair(s: string): Option<(Pair, string)> {
    match ReadText(s, MAX_KEY_SIZE)
    case None => None
    case Some((key, r)) =>
      match ReadText(r, MAX_VALUE_SIZE)
      case None => None
      case Some((value, rest)) => Some((Pair(key, value), rest))
  }

  function ReadPairs(s: string, n: nat): Option<seq<Pair>>
    decreases n
  {
    if n == 0 then Some([])
    else match ReadPair(s)
      case None => None
      case Some((p, rest)) =>
        match ReadPairs(rest, n - 1)
        case None => None
        case Some(ps) => Some([p] + ps)
  }

  /** The entry count is a signed `int`: a count with the top bit set loads nothing. */
  function ReadCount(s: string): nat
    requires |s| >= 4
  {
    if ReadInt32(s) < 0x8000_0000 then ReadInt32(s) else 0
  }

  function ReadFile(s: string): Option<seq<Pair>> {
    if |s| < 4 then None else ReadPairs(s[4..], ReadCount(s))
  }

  /** So a file whose fourth byte has its top bit set is a valid file without pairs. */
  lemma NegativeCount(s: string)
    requires |s| >= 4 && s[3] as int % 256 >= 128
    ensures ReadFile(s) == Some([])
  {}

  /** `hash_load` puts the pairs one after the other. */
  function Load(t: Table, pairs: seq<Pair>): (r: Table)
    requires |t| == HASH_SIZE
    ensures |r| == HASH_SIZE
    decreases |pairs|
  {
    if pairs == [] then t else Load(Put(t, pairs[0].key, pairs[0].value), pairs[1..])
  }

  /** Reading one record of `s` takes the table `t` to `t'` and leaves `rest`. */
  ghost predicate RecordStep(t: Table, s: string, t': Table, rest: string) {
    |t| == HASH_SIZE && ReadPair(s).Some? && rest == ReadPair(s).value.1
    && t' == Put(t, ReadPair(s).value.0.key, ReadPair(s).value.0.value)
  }

  /** The tables and remaining bytes after each record. */
  datatype Trace = Done | More(table: Table, rest: string, tail: Trace)

  /** From `t` and `text` the trace follows `n` records and ends in `goal`. */
  ghost predicate LoadTrace(t: Table, text: string, n: nat, tr: Trace, goal: Table)
    decreases n
  {
    if n == 0 then t == goal
    else tr.More? && RecordStep(t, text, tr.table, tr.rest) && LoadTrace(tr.table, tr.rest, n - 1, tr.tail, goal)
  }

  lemma {:induction false} TraceLoad(t: Table, text: string, n: nat) returns (tr: Trace)
    requires |t| == HASH_SIZE && ReadPairs(text, n).Some?
    ensures LoadTrace(t, text, n, tr, Load(t, ReadPairs(text, n).value))
    decreases n
  {
    tr := Done;
    if n > 0 {
      var (p, later) := ReadPair(text).value;
      var ps := ReadPairs(later, n - 1).value;
      var tail := TraceLoad(Put(t, p.key, p.value), later, n - 1);
      tr := More(Put(t, p.key, p.value), later, tail);
      assert ([p] + ps)[1..] == ps;
    }
  }

  // ---- The byte parser inverts the writer ----

  lemma ReadWrittenText(s: string, max: nat, rest: string)
    requires |s| < max <= 0x1_0000_0000 && '\0' !in s
    ensures ReadText(WriteText(s) + rest, max) == Some((s, rest))
  {
    var all := WriteText(s) + rest;
    assert all == Int32(|s|) + (s + rest);
    Int32RoundTrip(|s|, s + rest);
    assert all[4..4 + |s|] == s && all[4 + |s|..] == rest;
    NulFreeStays(s);
  }

  lemma ReadWrittenPair(p: Pair, rest: string)
    requires Fits(p.key, p.value)
    ensures ReadPair(WritePair(p) + rest) == Some((p, rest))
  {
    ReadWrittenText(p.key, MAX_KEY_SIZE, WriteText(p.value) + rest);
    ReadWrittenText(p.value, MAX_VALUE_SIZE, rest);
    assert WritePair(p) + rest == WriteText(p.key) + (WriteText(p.value) + rest);
  }

  lemma {:induction false} ReadWrittenPairs(pairs: seq<Pair>)
    requires forall p <- pairs :: Fits(p.key, p.value)
    ensures ReadPairs(WritePairs(pairs), |pairs|) == Some(pairs)
    decreases |pairs|
  {
    if pairs != [] {
      ReadWrittenPair(pairs[0], WritePairs(pairs[1..]));
      ReadWrittenPairs(pairs[1..]);
      assert pairs == [pairs[0]] + pairs[1..];
    }
  }

  lemma {:induction false} FlattenedFit(t: Table, b: nat)
    requires TableOk(t) && b <= |t|
    ensures forall p <- Flatten(t, b) :: Fits(p.key, p.value)
    decreases |t| - b
  {
    if b < |t| {
      assert ChainOk(t[b], b);
      FlattenedFit(t, b + 1);
    }
  }

  /** The parser recovers the exact list of pairs from the file of every table. */
  lemma ReadSaved(t: Table)
    requires TableOk(t) && |Flatten(t, 0)| < 0x8000_0000
    ensures ReadFile(Save(t)) == Some(Flatten(t, 0))
  {
    var pairs := Flatten(t, 0);
    FlattenedFit(t, 0);
    ReadWrittenPairs(pairs);
    Int32RoundTrip(|pairs|, WritePairs(pairs));
    assert Save(t)[4..] == WritePairs(pairs);
  }

  // ---- Loading reverses chains ----

  function Reverse(chain: Chain): (r: Chain)
    ensures |r| == |chain|
  {
    if chain == [] then [] else Reverse(chain[1..]) + [chain[0]]
  }

  function ReverseAll(t: Table): Table {
    seq(|t|, b requires 0 <= b < |t| => Reverse(t[b]))
  }

  lemma {:induction false} ReverseAt(chain: Chain, i: nat)
    requires i < |chain|
    ensures Reverse(chain)[i] == chain[|chain| - 1 - i]
  {
    if i < |chain| - 1 {
      ReverseAt(chain[1..], i);
    }
  }

  lemma ReverseTwice(chain: Chain)
    ensures Reverse(Reverse(chain)) == chain
  {
    var r := Reverse(chain);
    forall i | 0 <= i < |chain| ensures Reverse(r)[i] == chain[i] {
      ReverseAt(r, i);
      ReverseAt(chain, |chain| - 1 - i);
    }
  }

  lemma ReverseKeepsOk(chain: Chain, b: nat)
    requires ChainOk(chain, b)
    ensures ChainOk(Reverse(chain), b)
    ensures forall key: string :: Search(Reverse(chain), key) == Search(chain, key)
  {
    var r := Reverse(chain);
    forall i | 0 <= i < |chain| ensures r[i] == chain[|chain| - 1 - i] {
      ReverseAt(chain, i);
    }
    forall key: string ensures Search(r, key) == Search(chain, key) {
      var i := Position(chain, key);
      PositionIsFirst(chain, key);
      PositionIs(r, key, if i < |chain| then |chain| - 1 - i else |chain|);
    }
  }

  lemma PutNew(t: Table, b: nat, p: Pair)
    requires |t| == HASH_SIZE && PutBucket(p.key) == b && Fits(p.key, p.value)
    requires forall q <- t[b] :: q.key != p.key
    ensures Put(t, p.key, p.value) == t[b := [p] + t[b]]
  {
    PositionIs(t[b], p.key, |t[b]|);
  }

  /** None of the keys of `chain` is among those of `other`. */
  ghost predicate NewTo(chain: Chain, other: Chain) {
    forall p <- chain, q <- other :: p.key != q.key
  }

  lemma ChainTail(chain: Chain, b: nat, other: Chain)
    requires chain != [] && ChainOk(chain, b) && NewTo(chain, other)
    ensures ChainOk(chain[1..], b) && NewTo(chain[1..], [chain[0]] + other)
    ensures PutBucket(chain[0].key) == b && Fits(chain[0].key, chain[0].value)
    ensures forall q <- other :: q.key != chain[0].key
  {
    assert chain[0] in chain && forall q <- chain[1..] :: q in chain && q.key != chain[0].key;
  }

  lemma TwoUpdates<T>(t: seq<T>, b: nat, x: T, y: T)
    requires b < |t|
    ensures t[b := x][b := y] == t[b := y]
  {}

  /** Loading a chain into its bucket, where none of its keys is present yet. */
  lemma {:induction false} LoadChain(t: Table, b: nat, chain: Chain)
    requires |t| == HASH_SIZE && b < HASH_SIZE && ChainOk(chain, b) && NewTo(chain, t[b])
    ensures Load(t, chain) == t[b := Reverse(chain) + t[b]]
    decreases |chain|
  {
    if chain == [] {
      assert Reverse(chain) + t[b] == t[b];
    } else {
      var p, rest := chain[0], chain[1..];
      ChainTail(chain, b, t[b]);
      PutNew(t, b, p);
      LoadChain(t[b := [p] + t[b]], b, rest);
      assert Reverse(rest) + ([p] + t[b]) == Reverse(chain) + t[b];
      TwoUpdates(t, b, [p] + t[b], Reverse(chain) + t[b]);
    }
  }

  lemma {:induction false} LoadAppend(t: Table, a: seq<Pair>, b: seq<Pair>)
    requires |t| == HASH_SIZE
    ensures Load(t, a + b) == Load(Load(t, a), b)
    decreases |a|
  {
    if a == [] {
      assert a + b == b;
    } else {
      assert (a + b)[1..] == a[1..] + b;
      LoadAppend(Put(t, a[0].key, a[0].value), a[1..], b);
    }
  }

  /** The table after the buckets below `b` of `t` have been loaded into an empty one. */
  function Half(t: Table, b: nat): Table {
    seq(|t|, c requires 0 <= c < |t| => if c < b then Reverse(t[c]) else [])
  }

  lemma LoadBucket(t: Table, b: nat)
    requires TableOk(t) && b < HASH_SIZE
    ensures Load(Half(t, b), t[b]) == Half(t, b + 1)
  {
    var h := Half(t, b);
    assert h[b] == [] && ChainOk(t[b], b);
    LoadChain(h, b, t[b]);
    assert Reverse(t[b]) + [] == Reverse(t[b]);
    assert h[b := Reverse(t[b])] == Half(t, b + 1);
  }

  lemma {:induction false} LoadFrom(t: Table, b: nat)
    requires TableOk(t) && b <= HASH_SIZE
    ensures Load(Half(t, b), Flatten(t, b)) == ReverseAll(t)
    decreases HASH_SIZE - b
  {
    if b == HASH_SIZE {
      assert Half(t, b) == ReverseAll(t);
    } else {
      LoadAppend(Half(t, b), t[b], Flatten(t, b + 1));
      LoadBucket(t, b);
      LoadFrom(t, b + 1);
    }
  }

  /** Saving and loading into an empty table, through the bytes of the file. */
  function Reload(t: Table): Option<Table> {
    match ReadFile(Save(t))
    case None => None
    case Some(pairs) => Some(Load(Empty(), pairs))
  }

  /** A reload keeps the map and reverses every chain. */
  lemma ReloadReverses(t: Table, m: map<string, string>)
    requires Represents(t, m) && |Flatten(t, 0)| < 0x8000_0000
    ensures Reload(t) == Some(ReverseAll(t)) && Represents(ReverseAll(t), m)
  {
    ReadSaved(t);
    assert Half(t, 0) == Empty();
    LoadFrom(t, 0);
    forall b | 0 <= b < HASH_SIZE ensures ChainOk(ReverseAll(t)[b], b) {
      ReverseKeepsOk(t[b], b);
    }
    forall key: string ensures Search(ReverseAll(t)[PutBucket(key)], key) == MapGet(m, key) {
      ReverseKeepsOk(t[PutBucket(key)], PutBucket(key));
    }
  }

  lemma {:induction false} SameCount(t: Table, b: nat)
    requires b <= |t|
    ensures |Flatten(ReverseAll(t), b)| == |Flatten(t, b)|
    decreases |t| - b
  {
    if b < |t| {
      SameCount(t, b + 1);
    }
  }

  /** Two reloads reproduce every reachable table exactly, chain order included. */
  lemma TwoReloadsAreIdentity(t: Table, m: map<string, string>)
    requires Represents(t, m) && |Flatten(t, 0)| < 0x8000_0000
    ensures Reload(t).Some? && Reload(Reload(t).value) == Some(t)
  {
    ReloadReverses(t, m);
    SameCount(t, 0);
    ReloadReverses(ReverseAll(t), m);
    forall b | 0 <= b < |t| ensures ReverseAll(ReverseAll(t))[b] == t[b] {
      ReverseTwice(t[b]);
    }
    assert ReverseAll(ReverseAll(t)) == t;
  }
}
