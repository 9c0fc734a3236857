/**
 The chained hash table as a value: 1024 chains of key-value pairs. New pairs go to the
 front of the chain that `hash` selects; look-ups search the chain that `hash_func` selects.
 */
module HashTable {
  import opened Limits
  import opened Options

  const HASH_SIZE: nat := 1024
  const WORD: nat := 0x1_0000_0000

  datatype Pair = Pair(key: string, value: string)

  type Chain = seq<Pair>
  type Table = seq<Chain>

  /** A C `char` as an integer; plain `char` is signed. */
  function CharValue(c: char): int {
    var b := c as int % 256;
    if b < 128 then b else b - 256
  }

  // ---- The two hash functions ----

  /** Bucket of `hash`: only the last two characters matter. */
  function PutBucket(key: string): (b: nat)
    ensures b < HASH_SIZE
  {
    var n := |key|;
    if n == 0 then 0
    else if n == 1 then CharValue(key[0]) % HASH_SIZE
    else (32 * CharValue(key[n - 2]) + CharValue(key[n - 1])) % HASH_SIZE
  }

  function Plain(key: string): int {
    if key == [] then 0 else CharValue(key[0]) + Plain(key[1..])
  }

  /** The sum of `k[i] * (1 + 32 * (n - 1 - i))` over the positions of the key. */
  function Weighted(key: string): int {
    if key == [] then 0 else CharValue(key[0]) * (1 + 32 * (|key| - 1)) + Weighted(key[1..])
  }

  /** Bucket of `hash_func`: `33` to the power `j` is `1 + 32 * j` modulo 1024. */
  function GetBucket(key: string): (b: nat)
    ensures b < HASH_SIZE
  {
    (5381 * (1 + 32 * |key|) + Weighted(key)) % HASH_SIZE
  }

  lemma {:induction false} PlainSnoc(s: string, c: char)
    ensures Plain(s + [c]) == Plain(s) + CharValue(c)
  {
    if s != [] {
      assert (s + [c])[1..] == s[1..] + [c];
      PlainSnoc(s[1..], c);
    } else {
      assert s + [c] == [c];
    }
  }

  lemma {:induction false} WeightedSnoc(s: string, c: char)
    ensures Weighted(s + [c]) == Weighted(s) + 32 * Plain(s) + CharValue(c)
  {
    if s == [] {
      assert s + [c] == [c];
    } else {
      var v, n := CharValue(s[0]), |s|;
      assert (s + [c])[1..] == s[1..] + [c];
      WeightedSnoc(s[1..], c);
      assert v * (1 + 32 * n) == v * (1 + 32 * (n - 1)) + 32 * v;
    }
  }

  lemma {:induction false} WeightedIsPlain(s: string)
    ensures (Weighted(s) - Plain(s)) % 32 == 0
  {
    if s != [] {
      var v, n := CharValue(s[0]), |s|;
      WeightedIsPlain(s[1..]);
      assert v * (1 + 32 * (n - 1)) == v + 32 * (v * (n - 1));
      Multiple(v * (n - 1), Weighted(s[1..]) - Plain(s[1..]));
    }
  }

  lemma Multiple(a: int, b: int)
    requires b % 32 == 0
    ensures (32 * a + b) % 32 == 0
  {}

  lemma GetBucketDifference(n: nat, w: int, p: int, v: int, h: int, q: int, r: int)
    requires w - p == 32 * q && h == 5381 * (1 + 32 * n) + w + 1024 * r
    ensures (h * 33 + v) - (5381 * (1 + 32 * (n + 1)) + (w + 32 * p + v)) == 1024 * (5381 * n + q + 33 * r)
  {}

  lemma GetBucketArithmetic(n: nat, w: int, p: int, v: int, h: int)
    requires (w - p) % 32 == 0 && h % 1024 == (5381 * (1 + 32 * n) + w) % 1024
    ensures (h * 33 + v) % 1024 == (5381 * (1 + 32 * (n + 1)) + (w + 32 * p + v)) % 1024
  {
    var d := 5381 * (1 + 32 * n) + w;
    var q, r := (w - p) / 32, (h - d) / 1024;
    assert h == d + 1024 * r;
    GetBucketDifference(n, w, p, v, h, q, r);
    Congruent(h * 33 + v, 5381 * (1 + 32 * (n + 1)) + (w + 32 * p + v), 5381 * n + q + 33 * r);
  }

  /** One round of `hash_func`, wrap-around included. */
  lemma GetBucketStep(s: string, c: char, h: nat)
    requires h % HASH_SIZE == GetBucket(s)
    ensures ((h * 33 + CharValue(c)) % WORD) % HASH_SIZE == GetBucket(s + [c])
  {
    WeightedSnoc(s, c);
    WeightedIsPlain(s);
    GetBucketArithmetic(|s|, Weighted(s), Plain(s), CharValue(c), h);
    WordThenSize(h * 33 + CharValue(c));
  }

  lemma Congruent(a: int, b: int, k: int)
    requires a - b == 1024 * k
    ensures a % 1024 == b % 1024
  {}

  lemma WordThenSize(x: int)
    ensures (x % WORD) % HASH_SIZE == x % HASH_SIZE
  {
    var q := x / WORD;
    assert x == WORD * q + x % WORD;
    Congruent(x, x % WORD, 0x40_0000 * q);
  }

  lemma PutBucketArithmetic(h: int, k: int, l: int, v: int)
    requires h % 1024 == (32 * k + l) % 1024
    ensures (h * 32 + v) % 1024 == (32 * l + v) % 1024
  {
    var r := (h - (32 * k + l)) / 1024;
    assert h == 32 * k + l + 1024 * r;
    Congruent(h * 32 + v, 32 * l + v, k + 32 * r);
  }

  /** One round of `hash`, wrap-around included. */
  lemma PutBucketStep(s: string, c: char, h: nat)
    requires h % HASH_SIZE == PutBucket(s)
    ensures ((h * 32 + CharValue(c)) % WORD) % HASH_SIZE == PutBucket(s + [c])
  {
    WordThenSize(h * 32 + CharValue(c));
    var n, t := |s|, s + [c];
    var l := if n == 0 then 0 else CharValue(s[n - 1]);
    var k := if n <= 1 then 0 else CharValue(s[n - 2]);
    assert t[n] == c && (n > 0 ==> t[n - 1] == s[n - 1]);
    PutBucketArithmetic(h, k, l, CharValue(c));
  }

  /** The accumulator loop of `hash`, on 32-bit words. */
  method Hash(key: string) returns (b: nat)
    ensures b == PutBucket(key)
  {
    var h: nat := 0;
    for i := 0 to |key|
      invariant h % HASH_SIZE == PutBucket(key[..i])
    {
      assert key[..i] + [key[i]] == key[..i + 1];
      PutBucketStep(key[..i], key[i], h);
      h := (h * 32 + CharValue(key[i])) % WORD;
    }
    assert key[..|key|] == key;
    b := h % HASH_SIZE;
  }

  /** The accumulator loop of `hash_func`, on 32-bit words. */
  method HashFunc(key: string) returns (b: nat)
    ensures b == GetBucket(key)
  {
    var h: nat := 5381;
    for i := 0 to |key|
      invariant h % HASH_SIZE == GetBucket(key[..i])
    {
      assert key[..i] + [key[i]] == key[..i + 1];
      GetBucketStep(key[..i], key[i], h);
      h := (h * 33 + CharValue(key[i])) % WORD;
    }
    assert key[..|key|] == key;
    b := h % HASH_SIZE;
  }

  // ---- Chains ----

  /** Index of the first pair with this key, or the length. */
  function Position(chain: Chain, key: string): (i: nat)
    ensures i <= |chain|
    ensures i < |chain| ==> chain[i].key == key
  {
    if chain == [] || chain[0].key == key then 0 else 1 + Position(chain[1..], key)
  }

  function PutChain(chain: Chain, key: string, value: string): Chain {
    var i := Position(chain, key);
    if i < |chain| then chain[i := Pair(key, value)] else [Pair(key, value)] + chain
  }

  function DeleteChain(chain: Chain, key: string): Chain {
    var i := Position(chain, key);
    if i < |chain| then chain[..i] + chain[i + 1..] else chain
  }

  function Search(chain: Chain, key: string): Option<string> {
    var i := Position(chain, key);
    if i < |chain| then Some(chain[i].value) else None
  }

  // ---- Tables ----

  function Empty(): Table {
    seq(HASH_SIZE, _ => [])
  }

  /** Both are C strings, that is free of NULs, and fit their buffers. */
  predicate Fits(key: string, value: string) {
    |key| < MAX_KEY_SIZE && |value| < MAX_VALUE_SIZE && '\0' !in key && '\0' !in value
  }

  function Put(t: Table, key: string, value: string): Table
    requires |t| == HASH_SIZE
  {
    if !Fits(key, value) then t
    else t[PutBucket(key) := PutChain(t[PutBucket(key)], key, value)]
  }

  function Delete(t: Table, key: string): Table
    requires |t| == HASH_SIZE
  {
    t[PutBucket(key) := DeleteChain(t[PutBucket(key)], key)]
  }

  /** `hash_get` copies at most `size - 1` bytes of the value into the caller's buffer, and refuses an empty one. */
  function Get(t: Table, key: string, size: nat): Option<string>
    requires |t| == HASH_SIZE
  {
    if size == 0 then None else match Search(t[GetBucket(key)], key)
    case None => None
    case Some(v) => Some(v[..if |v| < size then |v| else size - 1])
  }

  /** Every pair sits in its own bucket, fits, and no key occurs twice. */
  ghost predicate ChainOk(chain: Chain, b: nat) {
    && (forall p <- chain :: PutBucket(p.key) == b && Fits(p.key, p.value))
    && (forall i, j :: 0 <= i < j < |chain| ==> chain[i].key != chain[j].key)
  }

  ghost predicate TableOk(t: Table) {
    |t| == HASH_SIZE && forall b :: 0 <= b < HASH_SIZE ==> ChainOk(t[b], b)
  }

  function MapGet(m: map<string, string>, key: string): Option<string> {
    if key in m then Some(m[key]) else None
  }

  /** The table holds exactly the pairs of `m`. */
  ghost predicate Represents(t: Table, m: map<string, string>) {
    TableOk(t) && forall key: string :: Search(t[PutBucket(key)], key) == MapGet(m, key)
  }

  // ---- Refinement ----

  lemma {:induction false} PositionIs(chain: Chain, key: string, i: nat)
    requires i <= |chain| && (i < |chain| ==> chain[i].key == key)
    requires forall j :: 0 <= j < i ==> chain[j].key != key
    ensures Position(chain, key) == i
  {
    if i > 0 {
      PositionIs(chain[1..], key, i - 1);
    }
  }

  lemma {:induction false} PositionIsFirst(chain: Chain, key: string)
    ensures forall j :: 0 <= j < Position(chain, key) ==> chain[j].key != key
  {
    if chain != [] && chain[0].key != key {
      PositionIsFirst(chain[1..], key);
      assert forall j :: 1 <= j < Position(chain, key) ==> chain[j] == chain[1..][j - 1];
    }
  }

  lemma PutChainKeepsOk(chain: Chain, b: nat, key: string, value: string)
    requires ChainOk(chain, b) && PutBucket(key) == b && Fits(key, value)
    ensures ChainOk(PutChain(chain, key, value), b)
  {
    PositionIsFirst(chain, key);
  }

  lemma PutChainFinds(chain: Chain, key: string, value: string, other: string)
    ensures Search(PutChain(chain, key, value), other) == if other == key then Some(value) else Search(chain, other)
  {
    var i, j := Position(chain, key), Position(chain, other);
    var c := PutChain(chain, key, value);
    PositionIsFirst(chain, other);
    if i < |chain| {
      PositionIs(c, other, j);
    } else {
      assert forall k :: 0 <= k < |chain| ==> c[k + 1] == chain[k];
      PositionIs(c, other, if other == key then 0 else j + 1);
    }
  }

  lemma WithoutOne<T>(s: seq<T>, i: nat, k: nat)
    requires i < |s| && k < |s| - 1
    ensures (s[..i] + s[i + 1..])[k] == if k < i then s[k] else s[k + 1]
  {}

  lemma DeleteChainIs(chain: Chain, key: string)
    requires Position(chain, key) < |chain|
    ensures var c, i := DeleteChain(chain, key), Position(chain, key);
      |c| == |chain| - 1 && forall k :: 0 <= k < |c| ==> c[k] == if k < i then chain[k] else chain[k + 1]
  {
    var c, i := DeleteChain(chain, key), Position(chain, key);
    assert |c| == |chain| - 1;
    forall k | 0 <= k < |c| ensures c[k] == if k < i then chain[k] else chain[k + 1] {
      WithoutOne(chain, i, k);
    }
  }

  lemma DeleteChainKeepsOk(chain: Chain, b: nat, key: string)
    requires ChainOk(chain, b)
    ensures ChainOk(DeleteChain(chain, key), b)
  {
    var c, n := DeleteChain(chain, key), Position(chain, key);
    if n < |chain| {
      DeleteChainIs(chain, key);
      assert forall p <- c :: p in chain;
      forall i, j | 0 <= i < j < |c| ensures c[i].key != c[j].key {
        assert chain[if i < n then i else i + 1].key != chain[if j < n then j else j + 1].key;
      }
    }
  }

  lemma DeletedIsGone(chain: Chain, b: nat, key: string)
    requires ChainOk(chain, b)
    ensures Search(DeleteChain(chain, key), key) == None
  {
    var i, c := Position(chain, key), DeleteChain(chain, key);
    PositionIsFirst(chain, key);
    if i < |chain| {
      DeleteChainIs(chain, key);
      PositionIs(c, key, |c|);
    }
  }

  lemma DeleteKeepsOthers(chain: Chain, key: string, other: string)
    requires other != key
    ensures Search(DeleteChain(chain, key), other) == Search(chain, other)
  {
    var i, j, c := Position(chain, key), Position(chain, other), DeleteChain(chain, key);
    PositionIsFirst(chain, other);
    if i < |chain| {
      DeleteChainIs(chain, key);
      PositionIs(c, other, if j < i then j else j - 1);
    }
  }

  lemma DeleteChainFinds(chain: Chain, b: nat, key: string, other: string)
    requires ChainOk(chain, b)
    ensures Search(DeleteChain(chain, key), other) == if other == key then None else Search(chain, other)
  {
    if other == key {
      DeletedIsGone(chain, b, key);
    } else {
      DeleteKeepsOthers(chain, key, other);
    }
  }

  function Keys(chain: Chain): seq<string> {
    seq(|chain|, i requires 0 <= i < |chain| => chain[i].key)
  }

  /** A stored key stays where it is in its chain, and a new one goes to the front. */
  lemma PutKeepsOrder(chain: Chain, key: string, value: string)
    ensures Keys(PutChain(chain, key, value)) ==
      if Search(chain, key).Some? then Keys(chain) else [key] + Keys(chain)
  {}

  lemma PutRefines(t: Table, m: map<string, string>, key: string, value: string)
    requires Represents(t, m)
    ensures Represents(Put(t, key, value), if Fits(key, value) then m[key := value] else m)
  {
    if Fits(key, value) {
      var b := PutBucket(key);
      forall other: string
        ensures Search(Put(t, key, value)[PutBucket(other)], other) == MapGet(m[key := value], other)
      {
        PutChainFinds(t[b], key, value, other);
      }
      PutChainKeepsOk(t[b], b, key, value);
    }
  }

  /** A pair is stored if and only if the key has at most 254 bytes, the value at most 1023, and neither a NUL. */
  lemma StoredExactly(t: Table, m: map<string, string>, key: string, value: string)
    requires Represents(t, m)
    ensures Search(Put(t, key, value)[PutBucket(key)], key) == Some(value)
      <==> MapGet(m, key) == Some(value) || (|key| <= 254 && |value| <= 1023 && '\0' !in key && '\0' !in value)
  {
    PutRefines(t, m, key, value);
  }

  lemma DeleteRefines(t: Table, m: map<string, string>, key: string)
    requires Represents(t, m)
    ensures Represents(Delete(t, key), m - {key})
  {
    var b := PutBucket(key);
    forall other: string
      ensures Search(Delete(t, key)[PutBucket(other)], other) == MapGet(m - {key}, other)
    {
      DeleteChainFinds(t[b], b, key, other);
    }
    DeleteChainKeepsOk(t[b], b, key);
  }

  datatype Op = PutOp(key: string, value: string) | DeleteOp(key: string)

  function RunTable(t: Table, ops: seq<Op>): (r: Table)
    requires |t| == HASH_SIZE
    ensures |r| == HASH_SIZE
    decreases |ops|
  {
    if ops == [] then t
    else match ops[0]
      case PutOp(key, value) => RunTable(Put(t, key, value), ops[1..])
      case DeleteOp(key) => RunTable(Delete(t, key), ops[1..])
  }

  function RunMap(m: map<string, string>, ops: seq<Op>): map<string, string>
    decreases |ops|
  {
    if ops == [] then m
    else match ops[0]
      case PutOp(key, value) => RunMap(if Fits(key, value) then m[key := value] else m, ops[1..])
      case DeleteOp(key) => RunMap(m - {key}, ops[1..])
  }

  lemma {:induction false} RunRefines(t: Table, m: map<string, string>, ops: seq<Op>)
    requires Represents(t, m)
    ensures Represents(RunTable(t, ops), RunMap(m, ops))
    decreases |ops|
  {
    if ops != [] {
      match ops[0]
      case PutOp(key, value) =>
        PutRefines(t, m, key, value);
        RunRefines(Put(t, key, value), if Fits(key, value) then m[key := value] else m, ops[1..]);
      case DeleteOp(key) =>
        DeleteRefines(t, m, key);
        RunRefines(Delete(t, key), m - {key}, ops[1..]);
    }
  }

  /**
   After any puts and deletes the table represents the finite map of the same operations, and
   `hash_get` finds a key exactly when the map has it and the two hash functions agree on it.
   */
  lemma TableRefinesMap(ops: seq<Op>, key: string, size: nat)
    ensures var t, m := RunTable(Empty(), ops), RunMap(map[], ops);
      && Represents(t, m)
      && Get(t, key, size) ==
         if size > 0 && key in m && PutBucket(key) == GetBucket(key)
         then Some(m[key][..if |m[key]| < size then |m[key]| else size - 1]) else None
  {
    RunRefines(Empty(), map[], ops);
    GetFinds(RunTable(Empty(), ops), RunMap(map[], ops), key, size);
  }

  lemma GetFinds(t: Table, m: map<string, string>, key: string, size: nat)
    requires Represents(t, m)
    ensures Get(t, key, size) ==
      if size > 0 && key in m && PutBucket(key) == GetBucket(key)
      then Some(m[key][..if |m[key]| < size then |m[key]| else size - 1]) else None
  {
    var b := GetBucket(key);
    assert Search(t[PutBucket(key)], key) == MapGet(m, key);
    if PutBucket(key) != b {
      var i := Position(t[b], key);
      assert ChainOk(t[b], b);
      if i < |t[b]| {
        assert t[b][i] in t[b];
      }
    }
  }

  /** A value just stored is found again exactly when the two hash functions agree on its key. */
  lemma GetAfterPut(t: Table, m: map<string, string>, key: string, value: string, size: nat)
    requires Represents(t, m) && Fits(key, value) && size > |value|
    ensures Get(Put(t, key, value), key, size) == Some(value) <==> PutBucket(key) == GetBucket(key)
  {
    PutRefines(t, m, key, value);
    GetFinds(Put(t, key, value), m[key := value], key, size);
    assert value[..|value|] == value;
  }

  lemma ShortKeysDisagree(key: string)
    requires |key| <= 1
    ensures PutBucket(key) != GetBucket(key)
  {
    if |key| == 1 {
      assert key[1..] == [] && Weighted(key) == CharValue(key[0]);
      ShortKeyArithmetic(CharValue(key[0]));
    }
  }

  /** The empty key and all one-character keys can be stored but never found. */
  lemma ShortKeysAreLost(t: Table, m: map<string, string>, key: string, value: string, size: nat)
    requires Represents(t, m) && Fits(key, value) && |key| <= 1
    ensures Get(Put(t, key, value), key, size) == None
  {
    PutRefines(t, m, key, value);
    ShortKeysDisagree(key);
    GetFinds(Put(t, key, value), m[key := value], key, size);
  }

  lemma ShortKeyArithmetic(v: int)
    ensures (5381 * 33 + v) % 1024 != v % 1024
  {
    var q, r := v / 1024, v % 1024;
    assert 5381 * 33 + v == 1024 * (173 + q) + 421 + r;
    if r + 421 >= 1024 {
      Congruent(5381 * 33 + v, 421 + r - 1024, 174 + q);
    } else {
      Congruent(5381 * 33 + v, 421 + r, 173 + q);
    }
  }
}
