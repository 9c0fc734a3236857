/**
 The hash table in place: an array of chain heads and linked cells that are relinked on
 insertion and deletion. Memory is explicit: a pointer is a positive number, 0 is null, and
 `heap` maps each allocated pointer to its cell. `table` is the abstract value; every method
 is proved against the functions of `HashTable` on it.
 */
module HashStore {
  import opened Limits
  import opened Options
  import opened HashTable
  import HashFile

  type Pointer = nat

  datatype Cell = Cell(key: string, value: string, next: Pointer)

  type Heap = map<Pointer, Cell>

  /** `owner` remembers the chain each cell was allocated for. */
  type Owner = map<Pointer, nat>

  /** The cells from `head` on belong to chain `b` and spell out `pairs`, the latest allocated first. */
  ghost predicate Linked(heap: Heap, owner: Owner, b: nat, head: Pointer, pairs: Chain)
    decreases |pairs|
  {
    if pairs == [] then head == 0
    else
      && head in heap && head in owner && owner[head] == b
      && heap[head].key == pairs[0].key && heap[head].value == pairs[0].value
      && heap[head].next < head
      && Linked(heap, owner, b, heap[head].next, pairs[1..])
  }

  /** The pointer reached from `head` in `i` steps. */
  ghost function Nth(heap: Heap, head: Pointer, i: nat): Pointer
    decreases i
  {
    if i == 0 then head else if head in heap then Nth(heap, heap[head].next, i - 1) else 0
  }

  lemma {:induction false} LinkedNth(heap: Heap, owner: Owner, b: nat, head: Pointer, pairs: Chain, i: nat)
    requires Linked(heap, owner, b, head, pairs) && i <= |pairs|
    ensures Linked(heap, owner, b, Nth(heap, head, i), pairs[i..])
    ensures i < |pairs| ==> Nth(heap, head, i) in heap && heap[Nth(heap, head, i)].next == Nth(heap, head, i + 1)
    decreases i
  {
    if i > 0 {
      LinkedNth(heap, owner, b, heap[head].next, pairs[1..], i - 1);
      assert pairs[1..][i - 1..] == pairs[i..];
    }
  }

  /** Only the cells of the chain itself matter, and of these only the ones from `head` on. */
  lemma {:induction false} LinkedFrame(heap: Heap, owner: Owner, heap': Heap, owner': Owner,
                                       b: nat, head: Pointer, pairs: Chain)
    requires Linked(heap, owner, b, head, pairs)
    requires forall p <- heap :: p in owner && owner[p] == b && p <= head ==>
               p in heap' && heap'[p] == heap[p] && p in owner' && owner'[p] == b
    ensures Linked(heap', owner', b, head, pairs)
    decreases |pairs|
  {
    if pairs != [] {
      LinkedFrame(heap, owner, heap', owner', b, heap[head].next, pairs[1..]);
    }
  }

  lemma LinkedPush(heap: Heap, owner: Owner, b: nat, head: Pointer, pairs: Chain, p: Pointer, pair: Pair)
    requires Linked(heap, owner, b, head, pairs) && head < p && forall q <- heap :: q < p
    ensures Linked(heap[p := Cell(pair.key, pair.value, head)], owner[p := b], b, p, [pair] + pairs)
  {
    LinkedFrame(heap, owner, heap[p := Cell(pair.key, pair.value, head)], owner[p := b], b, head, pairs);
    assert ([pair] + pairs)[1..] == pairs;
  }

  lemma {:induction false} LinkedSet(heap: Heap, owner: Owner, b: nat, head: Pointer, pairs: Chain, i: nat,
                                     value: string)
    requires Linked(heap, owner, b, head, pairs) && i < |pairs|
    ensures var p := Nth(heap, head, i);
      p in heap && p <= head && p in owner && owner[p] == b
      && Linked(heap[p := heap[p].(value := value)], owner, b, head, pairs[i := Pair(pairs[i].key, value)])
    decreases i
  {
    var p, next := Nth(heap, head, i), heap[head].next;
    if i == 0 {
      LinkedFrame(heap, owner, heap[p := heap[p].(value := value)], owner, b, next, pairs[1..]);
      assert pairs[i := Pair(pairs[i].key, value)][1..] == pairs[1..];
    } else {
      LinkedSet(heap, owner, b, next, pairs[1..], i - 1, value);
      assert pairs[i := Pair(pairs[i].key, value)][1..] == pairs[1..][i - 1 := Pair(pairs[i].key, value)];
    }
  }

  /** Bypassing and freeing the cell after the one at `i`. */
  lemma {:induction false} LinkedBypass(heap: Heap, owner: Owner, b: nat, head: Pointer, pairs: Chain, i: nat)
    requires Linked(heap, owner, b, head, pairs) && i + 1 < |pairs|
    ensures var p, e := Nth(heap, head, i), Nth(heap, head, i + 1);
      p in heap && e in heap && e < p <= head && p in owner && owner[p] == b && e in owner && owner[e] == b
      && Linked(heap[p := heap[p].(next := heap[e].next)] - {e}, owner, b, head, pairs[..i + 1] + pairs[i + 2..])
    decreases i
  {
    LinkedNth(heap, owner, b, head, pairs, i);
    LinkedNth(heap, owner, b, head, pairs, i + 1);
    var p, e, next := Nth(heap, head, i), Nth(heap, head, i + 1), heap[head].next;
    var heap', rest := heap[p := heap[p].(next := heap[e].next)] - {e}, pairs[..i + 1] + pairs[i + 2..];
    if i == 0 {
      assert e == next && pairs[1..][1..] == pairs[2..];
      LinkedFrame(heap, owner, heap', owner, b, heap[e].next, pairs[2..]);
      assert rest[1..] == pairs[2..];
    } else {
      LinkedBypass(heap, owner, b, next, pairs[1..], i - 1);
      assert rest[1..] == pairs[1..][..i] + pairs[1..][i + 1..];
    }
  }

  lemma LinkedPop(heap: Heap, owner: Owner, b: nat, head: Pointer, pairs: Chain)
    requires Linked(heap, owner, b, head, pairs) && pairs != []
    ensures Linked(heap - {head}, owner, b, heap[head].next, pairs[1..])
  {
    LinkedFrame(heap, owner, heap - {head}, owner, b, heap[head].next, pairs[1..]);
  }

  /** The cell at `q` is one of the first `n` cells from `head` on. */
  ghost predicate OnChain(heap: Heap, head: Pointer, n: nat, q: Pointer)
    decreases n
  {
    n > 0 && head in heap && (q == head || OnChain(heap, heap[head].next, n - 1, q))
  }

  /** A chain keeps its cells when none of their links change. */
  lemma {:induction false} OnChainFrame(heap: Heap, owner: Owner, heap': Heap, b: nat, head: Pointer, pairs: Chain,
                                        q: Pointer)
    requires Linked(heap, owner, b, head, pairs) && OnChain(heap, head, |pairs|, q)
    requires forall p <- heap ::
               p in owner && owner[p] == b && p <= head ==> p in heap' && heap'[p].next == heap[p].next
    ensures OnChain(heap', head, |pairs|, q)
    decreases |pairs|
  {
    if q != head {
      OnChainFrame(heap, owner, heap', b, heap[head].next, pairs[1..], q);
    }
  }

  lemma OnChainPush(heap: Heap, owner: Owner, b: nat, head: Pointer, pairs: Chain, p: Pointer, cell: Cell, q: Pointer)
    requires Linked(heap, owner, b, head, pairs) && cell.next == head && (forall x <- heap :: x < p)
    requires q == p || OnChain(heap, head, |pairs|, q)
    ensures OnChain(heap[p := cell], p, |pairs| + 1, q)
  {
    if q != p {
      OnChainFrame(heap, owner, heap[p := cell], b, head, pairs, q);
    }
  }

  lemma OnChainPop(heap: Heap, owner: Owner, b: nat, head: Pointer, pairs: Chain, q: Pointer)
    requires Linked(heap, owner, b, head, pairs) && OnChain(heap, head, |pairs|, q) && q != head
    ensures OnChain(heap - {head}, heap[head].next, |pairs| - 1, q)
  {
    OnChainFrame(heap, owner, heap - {head}, b, heap[head].next, pairs[1..], q);
  }

  lemma {:induction false} OnChainBypass(heap: Heap, owner: Owner, b: nat, head: Pointer, pairs: Chain, i: nat,
                                         q: Pointer)
    requires Linked(heap, owner, b, head, pairs) && i + 1 < |pairs| && OnChain(heap, head, |pairs|, q)
    ensures var p, e := Nth(heap, head, i), Nth(heap, head, i + 1);
      p in heap && e in heap && e < p <= head
      && (q != e ==> OnChain(heap[p := heap[p].(next := heap[e].next)] - {e}, head, |pairs| - 1, q))
    decreases i
  {
    LinkedNth(heap, owner, b, head, pairs, i);
    LinkedNth(heap, owner, b, head, pairs, i + 1);
    var p, e, next := Nth(heap, head, i), Nth(heap, head, i + 1), heap[head].next;
    var heap' := heap[p := heap[p].(next := heap[e].next)] - {e};
    if i == 0 {
      assert e == next;
      if q != head && q != e {
        assert pairs[1..][1..] == pairs[2..];
        OnChainFrame(heap, owner, heap', b, heap[e].next, pairs[2..], q);
      }
    } else if q != head {
      OnChainBypass(heap, owner, b, next, pairs[1..], i - 1, q);
    } else {
      LinkedBypass(heap, owner, b, head, pairs, i);
    }
  }

  /** Every cell of chain `b` is one of the first `n` cells from `head` on. */
  ghost predicate OwnHeld(heap: Heap, owner: Owner, b: nat, head: Pointer, n: nat) {
    forall p <- heap :: p in owner && (owner[p] == b ==> OnChain(heap, head, n, p))
  }

  ghost predicate BucketOk(heap: Heap, owner: Owner, b: nat, head: Pointer, pairs: Chain) {
    Linked(heap, owner, b, head, pairs) && OwnHeld(heap, owner, b, head, |pairs|)
  }

  /** The first `k` buckets are in order. */
  ghost predicate BucketsOk(heap: Heap, owner: Owner, heads: seq<Pointer>, table: Table, k: nat)
    requires k <= |heads| == |table|
  {
    k == 0 || (BucketOk(heap, owner, k - 1, heads[k - 1], table[k - 1]) && BucketsOk(heap, owner, heads, table, k - 1))
  }

  ghost predicate Owned(heap: Heap, owner: Owner) {
    forall p <- heap :: p in owner && owner[p] < HASH_SIZE
  }

  /** Every chain is linked, and every allocated cell is on its chain. */
  ghost predicate AllLinked(heap: Heap, owner: Owner, heads: seq<Pointer>, table: Table) {
    |heads| == |table| == HASH_SIZE && Owned(heap, owner) && BucketsOk(heap, owner, heads, table, |table|)
  }

  lemma {:induction false} BucketIsOk(heap: Heap, owner: Owner, heads: seq<Pointer>, table: Table, k: nat, b: nat)
    requires b < k <= |heads| == |table| && BucketsOk(heap, owner, heads, table, k)
    ensures BucketOk(heap, owner, b, heads[b], table[b])
    decreases k
  {
    if b < k - 1 {
      BucketIsOk(heap, owner, heads, table, k - 1, b);
    }
  }

  /** The cells of the other chains are untouched, and nothing was allocated for them. */
  ghost predicate OthersStay(heap: Heap, owner: Owner, heap': Heap, owner': Owner, b: nat) {
    && (forall p <- heap ::
          p in owner && (owner[p] != b ==> p in heap' && heap'[p] == heap[p] && p in owner' && owner'[p] == owner[p]))
    && (forall p <- heap' :: p in owner' && (owner'[p] != b ==> p in heap && owner[p] == owner'[p]))
  }

  lemma OtherStaysOk(heap: Heap, owner: Owner, heap': Heap, owner': Owner, b: nat, c: nat, head: Pointer, pairs: Chain)
    requires BucketOk(heap, owner, c, head, pairs) && OthersStay(heap, owner, heap', owner', b) && c != b
    ensures BucketOk(heap', owner', c, head, pairs)
  {
    LinkedFrame(heap, owner, heap', owner', c, head, pairs);
    forall p <- heap' ensures p in owner' && (owner'[p] == c ==> OnChain(heap', head, |pairs|, p)) {
      if owner'[p] == c {
        OnChainFrame(heap, owner, heap', c, head, pairs, p);
      }
    }
  }

  /** Relinking one chain, without touching the cells of the others, keeps all of them linked and held. */
  lemma Relink(heap: Heap, owner: Owner, heads: seq<Pointer>, table: Table,
               heap': Heap, owner': Owner, b: nat, head: Pointer, pairs: Chain)
    requires AllLinked(heap, owner, heads, table) && b < HASH_SIZE && Owned(heap', owner')
    requires BucketOk(heap', owner', b, head, pairs) && OthersStay(heap, owner, heap', owner', b)
    ensures AllLinked(heap', owner', heads[b := head], table[b := pairs])
  {
    var heads', table' := heads[b := head], table[b := pairs];
    var k := 0;
    while k < |table'|
      invariant 0 <= k <= |table'| && BucketsOk(heap', owner', heads', table', k)
    {
      if k != b {
        BucketIsOk(heap, owner, heads, table, |table|, k);
        OtherStaysOk(heap, owner, heap', owner', b, k, heads[k], table[k]);
      }
      k := k + 1;
    }
  }

  lemma {:induction false} OnChainIsNth(heap: Heap, head: Pointer, n: nat, q: Pointer) returns (i: nat)
    requires OnChain(heap, head, n, q)
    ensures i < n && Nth(heap, head, i) == q
    decreases n
  {
    if q == head {
      i := 0;
    } else {
      i := OnChainIsNth(heap, heap[head].next, n - 1, q);
      i := i + 1;
    }
  }

  lemma {:induction false} NthDecreases(heap: Heap, owner: Owner, b: nat, head: Pointer, pairs: Chain, i: nat, j: nat)
    requires Linked(heap, owner, b, head, pairs) && i < j < |pairs|
    ensures Nth(heap, head, i) > Nth(heap, head, j)
    decreases j
  {
    if i == 0 {
      LinkedNth(heap, owner, b, head, pairs, j - 1);
      LinkedNth(heap, owner, b, head, pairs, j);
      if j > 1 {
        NthDecreases(heap, owner, b, head, pairs, 0, j - 1);
      }
      assert pairs[j - 1..] != [];
    } else {
      NthDecreases(heap, owner, b, heap[head].next, pairs[1..], i - 1, j - 1);
    }
  }

  lemma NthIsOwned(heap: Heap, owner: Owner, b: nat, head: Pointer, pairs: Chain, i: nat)
    requires Linked(heap, owner, b, head, pairs) && i < |pairs|
    ensures Nth(heap, head, i) in owner && owner[Nth(heap, head, i)] == b
  {
    LinkedNth(heap, owner, b, head, pairs, i);
    assert pairs[i..] != [];
  }

  ghost predicate At(heap: Heap, heads: seq<Pointer>, table: Table, p: Pointer, b: nat, i: nat) {
    b < |heads| && b < |table| && i < |table[b]| && Nth(heap, heads[b], i) == p
  }

  /** No leak and no sharing: every allocated cell is at exactly one place of exactly one chain. */
  lemma HeldOnce(heap: Heap, owner: Owner, heads: seq<Pointer>, table: Table, p: Pointer)
    requires AllLinked(heap, owner, heads, table) && p in heap
    ensures exists b, i :: At(heap, heads, table, p, b, i)
    ensures forall b, i, c, j :: At(heap, heads, table, p, b, i) && At(heap, heads, table, p, c, j) ==> b == c && i == j
  {
    var b := owner[p];
    BucketIsOk(heap, owner, heads, table, |table|, b);
    var i := OnChainIsNth(heap, heads[b], |table[b]|, p);
    assert At(heap, heads, table, p, b, i);
    forall b: nat, i: nat, c: nat, j: nat | At(heap, heads, table, p, b, i) && At(heap, heads, table, p, c, j)
      ensures b == c && i == j
    {
      BucketIsOk(heap, owner, heads, table, |table|, b);
      BucketIsOk(heap, owner, heads, table, |table|, c);
      NthIsOwned(heap, owner, b, heads[b], table[b], i);
      NthIsOwned(heap, owner, c, heads[c], table[c], j);
      if i < j {
        NthDecreases(heap, owner, b, heads[b], table[b], i, j);
      } else if j < i {
        NthDecreases(heap, owner, b, heads[b], table[b], j, i);
      }
    }
  }

  // ---- One bucket after each operation ----

  lemma BucketSet(heap: Heap, owner: Owner, b: nat, head: Pointer, pairs: Chain, i: nat, value: string)
    requires BucketOk(heap, owner, b, head, pairs) && i < |pairs|
    ensures var p := Nth(heap, head, i);
      && p in heap && owner[p] == b
      && BucketOk(heap[p := heap[p].(value := value)], owner, b, head, pairs[i := Pair(pairs[i].key, value)])
  {
    LinkedSet(heap, owner, b, head, pairs, i, value);
    var p := Nth(heap, head, i);
    var heap' := heap[p := heap[p].(value := value)];
    forall q <- heap' ensures q in owner && (owner[q] == b ==> OnChain(heap', head, |pairs|, q)) {
      if owner[q] == b {
        OnChainFrame(heap, owner, heap', b, head, pairs, q);
      }
    }
  }

  lemma BucketPush(heap: Heap, owner: Owner, b: nat, head: Pointer, pairs: Chain, p: Pointer, pair: Pair)
    requires BucketOk(heap, owner, b, head, pairs) && head < p && forall x <- heap :: x < p
    ensures BucketOk(heap[p := Cell(pair.key, pair.value, head)], owner[p := b], b, p, [pair] + pairs)
  {
    LinkedPush(heap, owner, b, head, pairs, p, pair);
    var cell := Cell(pair.key, pair.value, head);
    forall q <- heap[p := cell] ensures q == p || q in owner {
    }
    forall q <- heap[p := cell] | q == p || owner[q] == b ensures OnChain(heap[p := cell], p, |pairs| + 1, q) {
      OnChainPush(heap, owner, b, head, pairs, p, cell, q);
    }
  }

  lemma BucketPop(heap: Heap, owner: Owner, b: nat, head: Pointer, pairs: Chain)
    requires BucketOk(heap, owner, b, head, pairs) && pairs != []
    ensures head in heap && owner[head] == b && BucketOk(heap - {head}, owner, b, heap[head].next, pairs[1..])
  {
    LinkedPop(heap, owner, b, head, pairs);
    forall q <- heap - {head} | owner[q] == b ensures OnChain(heap - {head}, heap[head].next, |pairs| - 1, q) {
      OnChainPop(heap, owner, b, head, pairs, q);
    }
  }

  lemma BucketBypass(heap: Heap, owner: Owner, b: nat, head: Pointer, pairs: Chain, i: nat)
    requires BucketOk(heap, owner, b, head, pairs) && i + 1 < |pairs|
    ensures var p, e := Nth(heap, head, i), Nth(heap, head, i + 1);
      && p in heap && e in heap && p != e && owner[p] == b && owner[e] == b
      && BucketOk(heap[p := heap[p].(next := heap[e].next)] - {e}, owner, b, head, pairs[..i + 1] + pairs[i + 2..])
  {
    LinkedBypass(heap, owner, b, head, pairs, i);
    var p, e := Nth(heap, head, i), Nth(heap, head, i + 1);
    var heap' := heap[p := heap[p].(next := heap[e].next)] - {e};
    forall q <- heap' | owner[q] == b ensures OnChain(heap', head, |pairs| - 1, q) {
      OnChainBypass(heap, owner, b, head, pairs, i, q);
    }
  }

  // ---- All buckets after each operation ----

  lemma AllSet(heap: Heap, owner: Owner, heads: seq<Pointer>, table: Table, b: nat, i: nat, value: string)
    requires AllLinked(heap, owner, heads, table) && b < HASH_SIZE && i < |table[b]|
    ensures var p := Nth(heap, heads[b], i);
      p in heap && AllLinked(heap[p := heap[p].(value := value)], owner, heads,
                             table[b := table[b][i := Pair(table[b][i].key, value)]])
  {
    BucketIsOk(heap, owner, heads, table, |table|, b);
    BucketSet(heap, owner, b, heads[b], table[b], i, value);
    var p := Nth(heap, heads[b], i);
    Relink(heap, owner, heads, table, heap[p := heap[p].(value := value)], owner, b, heads[b],
           table[b][i := Pair(table[b][i].key, value)]);
    assert heads[b := heads[b]] == heads;
  }

  lemma AllPush(heap: Heap, owner: Owner, heads: seq<Pointer>, table: Table, b: nat, p: Pointer, pair: Pair)
    requires AllLinked(heap, owner, heads, table) && b < HASH_SIZE && p > 0 && forall x <- heap :: x < p
    ensures AllLinked(heap[p := Cell(pair.key, pair.value, heads[b])], owner[p := b], heads[b := p],
                      table[b := [pair] + table[b]])
  {
    BucketIsOk(heap, owner, heads, table, |table|, b);
    BucketPush(heap, owner, b, heads[b], table[b], p, pair);
    Relink(heap, owner, heads, table, heap[p := Cell(pair.key, pair.value, heads[b])], owner[p := b], b, p,
           [pair] + table[b]);
  }

  /** Freeing the first cell of a chain. */
  lemma AllPop(heap: Heap, owner: Owner, heads: seq<Pointer>, table: Table, b: nat)
    requires AllLinked(heap, owner, heads, table) && b < HASH_SIZE && table[b] != []
    ensures heads[b] in heap
    ensures AllLinked(heap - {heads[b]}, owner, heads[b := heap[heads[b]].next], table[b := table[b][1..]])
  {
    BucketIsOk(heap, owner, heads, table, |table|, b);
    BucketPop(heap, owner, b, heads[b], table[b]);
    Relink(heap, owner, heads, table, heap - {heads[b]}, owner, b, heap[heads[b]].next, table[b][1..]);
  }

  /** Freeing a later one. */
  lemma AllBypass(heap: Heap, owner: Owner, heads: seq<Pointer>, table: Table, b: nat, i: nat)
    requires AllLinked(heap, owner, heads, table) && b < HASH_SIZE && i + 1 < |table[b]|
    ensures var p, e := Nth(heap, heads[b], i), Nth(heap, heads[b], i + 1);
      && p in heap && e in heap && p != e
      && AllLinked(heap[p := heap[p].(next := heap[e].next)] - {e}, owner, heads,
                   table[b := table[b][..i + 1] + table[b][i + 2..]])
  {
    BucketIsOk(heap, owner, heads, table, |table|, b);
    BucketBypass(heap, owner, b, heads[b], table[b], i);
    var p, e := Nth(heap, heads[b], i), Nth(heap, heads[b], i + 1);
    Relink(heap, owner, heads, table, heap[p := heap[p].(next := heap[e].next)] - {e}, owner, b, heads[b],
           table[b][..i + 1] + table[b][i + 2..]);
    assert heads[b := heads[b]] == heads;
  }

  /** An allocated cell belongs to a chain that is not empty. */
  lemma HoldersAreNotEmpty(heap: Heap, owner: Owner, heads: seq<Pointer>, table: Table)
    requires AllLinked(heap, owner, heads, table)
    ensures forall p <- heap :: p in owner && owner[p] < HASH_SIZE && table[owner[p]] != []
  {
    forall p <- heap ensures table[owner[p]] != [] {
      BucketIsOk(heap, owner, heads, table, |table|, owner[p]);
    }
  }

  /** A chain is empty exactly when its head is null. */
  lemma ChainEnds(heap: Heap, owner: Owner, heads: seq<Pointer>, table: Table, b: nat)
    requires AllLinked(heap, owner, heads, table) && b < HASH_SIZE
    ensures heads[b] == 0 <==> table[b] == []
  {
    BucketIsOk(heap, owner, heads, table, |table|, b);
  }

  lemma FirstHasNoPrev(heap: Heap, owner: Owner, b: nat, head: Pointer, heads: seq<Pointer>, table: Table, i: nat)
    requires AllLinked(heap, owner, heads, table) && b < HASH_SIZE && i < |table[b]| && head == heads[b]
    ensures i > 0 ==> Nth(heap, head, i - 1) > 0
  {
    if i > 0 {
      BucketIsOk(heap, owner, heads, table, |table|, b);
      LinkedNth(heap, owner, b, head, table[b], i - 1);
      assert table[b][i - 1..] != [];
    }
  }

  lemma EmptyIsLinked(heads: seq<Pointer>)
    requires |heads| == HASH_SIZE && forall p <- heads :: p == 0
    ensures AllLinked(map[], map[], heads, Empty())
  {
    var k := 0;
    while k < |heads|
      invariant 0 <= k <= |heads| && BucketsOk(map[], map[], heads, Empty(), k)
    {
      assert heads[k] in heads && BucketOk(map[], map[], k, heads[k], Empty()[k]);
      k := k + 1;
    }
  }

  /** With all chains empty nothing is allocated. */
  lemma AllFreed(heap: Heap, owner: Owner, heads: seq<Pointer>, table: Table)
    requires AllLinked(heap, owner, heads, table) && forall b :: 0 <= b < HASH_SIZE ==> table[b] == []
    ensures heap == map[] && table == Empty() && forall b :: 0 <= b < HASH_SIZE ==> heads[b] == 0
  {
    HoldersAreNotEmpty(heap, owner, heads, table);
    forall b | 0 <= b < HASH_SIZE ensures heads[b] == 0 {
      ChainEnds(heap, owner, heads, table, b);
    }
  }

  class Store {
    const entries: array<Pointer>
    var heap: Heap
    /** The next pointer the allocator hands out. */
    var brk: Pointer
    ghost var owner: Owner
    ghost var table: Table

    ghost predicate Valid()
      reads this, entries
    {
      && entries.Length == HASH_SIZE && brk > 0
      && AllLinked(heap, owner, entries[..], table)
      && forall p <- heap :: p < brk
    }

    constructor ()
      ensures Valid() && fresh(entries) && table == Empty()
    {
      entries := new Pointer[HASH_SIZE](_ => 0);
      heap, brk, owner, table := map[], 1, map[], Empty();
      new;
      EmptyIsLinked(entries[..]);
    }

    /** Walk chain `b` to the cell with this key. */
    method Find(b: nat, key: string) returns (prev: Pointer, entry: Pointer, ghost i: nat)
      requires Valid() && b < HASH_SIZE
      ensures i == Position(table[b], key) && entry == Nth(heap, entries[b], i)
      ensures prev == if i == 0 then 0 else Nth(heap, entries[b], i - 1)
      ensures if i == |table[b]| then entry == 0
              else entry in heap && heap[entry].key == key && heap[entry].value == table[b][i].value
      ensures entry == 0 <==> i == |table[b]|
    {
      prev, entry, i := 0, entries[b], 0;
      ghost var pairs := table[b];
      BucketIsOk(heap, owner, entries[..], table, |table|, b);
      assert pairs[0..] == pairs;
      while entry != 0 && heap[entry].key != key
        invariant i <= |pairs| && entry == Nth(heap, entries[b], i)
        invariant Linked(heap, owner, b, entry, pairs[i..])
        invariant prev == if i == 0 then 0 else Nth(heap, entries[b], i - 1)
        invariant forall j :: 0 <= j < i ==> pairs[j].key != key
        decreases |pairs| - i
      {
        LinkedNth(heap, owner, b, entries[b], pairs, i);
        assert pairs[i..][1..] == pairs[i + 1..];
        prev, entry, i := entry, heap[entry].next, i + 1;
      }
      PositionIs(pairs, key, i);
    }

    /** Put a pair of C strings. */
    method Put(key: string, value: string, allocates: bool) returns (ok: bool)
      requires Valid() && '\0' !in key && '\0' !in value
      modifies this, entries
      ensures Valid() && ok == (Fits(key, value) && (allocates || Search(old(table)[PutBucket(key)], key).Some?))
      ensures table == if allocates || Search(old(table)[PutBucket(key)], key).Some?
                       then HashTable.Put(old(table), key, value) else old(table)
      ensures heap.Keys == old(heap).Keys || (ok && heap.Keys == old(heap).Keys + {old(brk)})
    {
      if |key| >= MAX_KEY_SIZE || |value| >= MAX_VALUE_SIZE {
        return false;
      }
      var b := Hash(key);
      var _, entry, i := Find(b, key);
      if entry != 0 {
        SetValue(b, i, entry, value);
      } else if allocates {
        PushFront(b, key, value);
      } else {
        return false;
      }
      ok := true;
    }

    method SetValue(b: nat, ghost i: nat, entry: Pointer, value: string)
      requires Valid() && b < HASH_SIZE && i < |table[b]| && entry == Nth(heap, entries[b], i)
      modifies this`heap, this`table
      ensures Valid() && table == old(table)[b := old(table)[b][i := Pair(old(table)[b][i].key, value)]]
      ensures heap.Keys == old(heap).Keys
    {
      ghost var heads := entries[..];
      AllSet(heap, owner, heads, table, b, i, value);
      heap := heap[entry := heap[entry].(value := value)];
      table := table[b := table[b][i := Pair(table[b][i].key, value)]];
    }

    method PushFront(b: nat, key: string, value: string)
      requires Valid() && b < HASH_SIZE
      modifies this, entries
      ensures Valid() && table == old(table)[b := [Pair(key, value)] + old(table)[b]]
      ensures heap.Keys == old(heap).Keys + {old(brk)} && old(brk) !in old(heap)
    {
      var p := brk;
      ghost var heads := entries[..];
      AllPush(heap, owner, heads, table, b, p, Pair(key, value));
      heap := heap[p := Cell(key, value, entries[b])];
      brk := brk + 1;
      entries[b] := p;
      assert entries[..] == heads[b := p];
      owner, table := owner[p := b], table[b := [Pair(key, value)] + table[b]];
    }

    method Get(key: string, size: nat) returns (r: Option<string>)
      requires Valid()
      ensures r == HashTable.Get(table, key, size)
    {
      if size == 0 {
        return None;
      }
      var b := HashFunc(key);
      var _, entry, i := Find(b, key);
      if entry == 0 {
        r := None;
      } else {
        var v := heap[entry].value;
        r := Some(v[..if |v| < size then |v| else size - 1]);
      }
    }

    /** Delete a key; its cell is freed, and no other. */
    method Delete(key: string) returns (ok: bool)
      requires Valid()
      modifies this, entries
      ensures Valid() && ok == HashTable.Search(old(table)[PutBucket(key)], key).Some?
      ensures table == HashTable.Delete(old(table), key)
      ensures if ok then exists p :: p in old(heap) && old(heap)[p].key == key && heap.Keys == old(heap).Keys - {p}
              else heap == old(heap)
    {
      var b := Hash(key);
      var prev, entry, i := Find(b, key);
      if entry == 0 {
        return false;
      }
      Unlink(b, i, prev, entry);
      ok := true;
    }

    method Unlink(b: nat, ghost i: nat, prev: Pointer, entry: Pointer)
      requires Valid() && b < HASH_SIZE && i < |table[b]| && entry == Nth(heap, entries[b], i)
      requires prev == if i == 0 then 0 else Nth(heap, entries[b], i - 1)
      modifies this, entries
      ensures Valid() && table == old(table)[b := old(table)[b][..i] + old(table)[b][i + 1..]]
      ensures entry in old(heap) && heap.Keys == old(heap).Keys - {entry}
    {
      FirstHasNoPrev(heap, owner, b, entries[b], entries[..], table, i);
      if prev != 0 {
        Bypass(b, i - 1, prev, entry);
      } else {
        assert table[b][..0] + table[b][1..] == table[b][1..];
        Pop(b);
      }
    }

    method Bypass(b: nat, ghost i: nat, prev: Pointer, entry: Pointer)
      requires Valid() && b < HASH_SIZE && i + 1 < |table[b]|
      requires prev == Nth(heap, entries[b], i) && entry == Nth(heap, entries[b], i + 1)
      modifies this`heap, this`table
      ensures Valid() && table == old(table)[b := old(table)[b][..i + 1] + old(table)[b][i + 2..]]
      ensures entry in old(heap) && heap.Keys == old(heap).Keys - {entry}
    {
      ghost var heads := entries[..];
      AllBypass(heap, owner, heads, table, b, i);
      heap := heap[prev := heap[prev].(next := heap[entry].next)];
      heap := heap - {entry};
      table := table[b := table[b][..i + 1] + table[b][i + 2..]];
    }

    method Pop(b: nat)
      requires Valid() && b < HASH_SIZE && table[b] != []
      modifies this`heap, this`table, entries
      ensures Valid() && table == old(table)[b := old(table)[b][1..]]
      ensures old(entries[b]) in old(heap) && heap.Keys == old(heap).Keys - {old(entries[b])}
    {
      ghost var heads := entries[..];
      var entry := entries[b];
      AllPop(heap, owner, heads, table, b);
      entries[b] := heap[entry].next;
      assert entries[..] == heads[b := entries[b]];
      heap := heap - {entry};
      table := table[b := table[b][1..]];
    }

    /** Free every cell of every chain. */
    method Destroy()
      requires Valid()
      modifies this, entries
      ensures Valid() && table == Empty() && heap == map[]
      ensures forall b :: 0 <= b < HASH_SIZE ==> entries[b] == 0
    {
      for b := 0 to HASH_SIZE
        invariant Valid() && forall c :: 0 <= c < b ==> table[c] == []
      {
        FreeChain(b);
      }
      AllFreed(heap, owner, entries[..], table);
    }

    /** Free the cells of chain `b`, first to last, and clear its head. */
    method FreeChain(b: nat)
      requires Valid() && b < HASH_SIZE
      modifies this`heap, this`table, entries
      ensures Valid() && table == old(table)[b := []]
    {
      var entry := entries[b];
      ghost var heads := entries[..];
      assert heads[b := entry] == heads;
      while entry != 0
        invariant entries[..] == heads && |table| == HASH_SIZE && table == old(table)[b := table[b]]
        invariant Freeing(heads[b := entry])
        decreases |table[b]|
      {
        var next := FreeNext(b, entry, heads[b := entry]);
        assert heads[b := entry][b := next] == heads[b := next];
        entry := next;
      }
      ChainEnds(heap, owner, heads[b := entry], table, b);
      entries[b] := 0;
      assert entries[..] == heads[b := 0];
    }

    /** `Valid`, but for heads that are still to be written back. */
    ghost predicate Freeing(heads: seq<Pointer>)
      reads this
    {
      brk > 0 && AllLinked(heap, owner, heads, table) && forall p <- heap :: p < brk
    }

    method FreeNext(b: nat, entry: Pointer, ghost heads: seq<Pointer>) returns (next: Pointer)
      requires Freeing(heads) && b < HASH_SIZE && entry == heads[b] != 0
      modifies this`heap, this`table
      ensures Freeing(heads[b := next])
      ensures old(table)[b] != [] && table == old(table)[b := old(table)[b][1..]]
    {
      ChainEnds(heap, owner, heads, table, b);
      AllPop(heap, owner, heads, table, b);
      next := heap[entry].next;
      heap := heap - {entry};
      table := table[b := table[b][1..]];
    }

    /** The number of entries of chain `b` and their text in the dump file. */
    method DumpChain(b: nat) returns (n: nat, text: string)
      requires Valid() && b < HASH_SIZE
      ensures n == |table[b]| && text == HashFile.WritePairs(table[b])
    {
      ghost var pairs := table[b];
      var entry := entries[b];
      n, text := 0, "";
      BucketIsOk(heap, owner, entries[..], table, |table|, b);
      assert pairs[0..] == pairs;
      while entry != 0
        invariant n <= |pairs| && Linked(heap, owner, b, entry, pairs[n..])
        invariant text + HashFile.WritePairs(pairs[n..]) == HashFile.WritePairs(pairs)
        decreases |pairs| - n
      {
        var e := heap[entry];
        assert pairs[n..][1..] == pairs[n + 1..] && pairs[n..][0] == Pair(e.key, e.value);
        text := text + HashFile.WritePair(Pair(e.key, e.value));
        entry, n := e.next, n + 1;
      }
    }

    method Save() returns (file: string)
      requires Valid()
      ensures file == HashFile.Save(table)
    {
      var total, body := 0, "";
      ghost var t := table;
      for b := 0 to HASH_SIZE
        invariant HashFile.DumpedTo(t, b, total, body)
      {
        var n, text := DumpChain(b);
        HashFile.DumpBucket(t, b, total, body);
        total, body := total + n, body + text;
      }
      HashFile.DumpEnds(t, total, body);
      file := HashFile.Int32(total) + body;
    }

    /** Load a file; one that is missing or too short for its count is refused. */
    method Load(file: Option<string>) returns (ok: bool)
      requires Valid() && (file.Some? && |file.value| >= 4 ==> HashFile.ReadFile(file.value).Some?)
      modifies this, entries
      ensures Valid() && ok == (file.Some? && |file.value| >= 4)
      ensures table == if ok then HashFile.Load(old(table), HashFile.ReadFile(file.value).value) else old(table)
    {
      if file.None? || |file.value| < 4 {
        return false;
      }
      ghost var goal := HashFile.Load(table, HashFile.ReadFile(file.value).value);
      ghost var trace := HashFile.TraceLoad(table, file.value[4..], HashFile.ReadCount(file.value));
      LoadRecords(file.value[4..], HashFile.ReadCount(file.value), trace, goal);
      ok := true;
    }

    /** The loop over the records. */
    method LoadRecords(text: string, n: nat, ghost trace: HashFile.Trace, ghost goal: Table)
      requires Valid() && HashFile.LoadTrace(table, text, n, trace, goal)
      modifies this, entries
      ensures Valid() && table == goal
    {
      var rest := text;
      ghost var tr := trace;
      for i := 0 to n
        invariant Valid() && HashFile.LoadTrace(table, rest, n - i, tr, goal)
      {
        rest := LoadOne(rest, tr.table, tr.rest);
        tr := tr.tail;
      }
    }

    method LoadOne(text: string, ghost after: Table, ghost left: string) returns (rest: string)
      requires Valid() && HashFile.RecordStep(table, text, after, left)
      modifies this, entries
      ensures Valid() && table == after && rest == left
    {
      var (p, later) := HashFile.ReadPair(text).value;
      var _ := Put(p.key, p.value, true);
      rest := later;
    }
  }
}
