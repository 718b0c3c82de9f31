/**
 * The ordered key-value engine underneath the database: a set of named
 * buckets, each an ordered map from byte keys to byte values. A bucket is
 * represented the way a cursor walks it, as the list of its pairs in
 * strictly ascending key order. Transactions, durability and concurrent
 * readers are not modelled: every operation is one atomic step.
 */
module Bolt {
  import opened Wrappers
  import opened ByteStrings
  import opened Errors

  /** Largest key and value the engine accepts, in bytes. */
  const MaxKeySize: int := 32768
  const MaxValueSize: int := 0x7fff_fffe

  type Pair = (Bytes, Bytes)

  /** Keys strictly ascending; in particular no key occurs twice. */
  predicate Sorted(p: seq<Pair>) {
    forall i, j | 0 <= i < j < |p| :: Less(p[i].0, p[j].0)
  }

  type Bucket = p: seq<Pair> | Sorted(p) witness []

  function KeySet(p: seq<Pair>): set<Bytes> {
    set i | 0 <= i < |p| :: p[i].0
  }

  lemma KeySetCons(x: Pair, p: seq<Pair>)
    ensures KeySet([x] + p) == {x.0} + KeySet(p)
  {
    var q := [x] + p;
    forall y | y in KeySet(q)
      ensures y in {x.0} + KeySet(p)
    {
      var i :| 0 <= i < |q| && q[i].0 == y;
      if i > 0 {
        assert p[i - 1].0 == y;
      }
    }
    forall y | y in KeySet(p)
      ensures y in KeySet(q)
    {
      var i :| 0 <= i < |p| && p[i].0 == y;
      assert q[i + 1].0 == y;
    }
    assert q[0].0 == x.0;
  }

  /** `Bucket.Get`: the value stored under `k`, if any. */
  function Get(p: seq<Pair>, k: Bytes): (r: Option<Bytes>)
    ensures r.Some? <==> k in KeySet(p)
    ensures r.Some? ==> (k, r.value) in p
  {
    if |p| == 0 then None
    else if p[0].0 == k then Some(p[0].1)
    else
      assert KeySet(p) == {p[0].0} + KeySet(p[1..]);
      Get(p[1..], k)
  }

  /** In a bucket, the pair at position `i` is what `Get` finds for its key. */
  lemma {:induction false} GetAt(p: Bucket, i: nat)
    requires i < |p|
    ensures Get(p, p[i].0) == Some(p[i].1)
  {
    if i > 0 {
      LessIrreflexive(p[i].0);
      GetAt(p[1..], i - 1);
    }
  }

  /** `Bucket.Put`: insert `k` in key order, or replace the value already under it. */
  function Put(p: seq<Pair>, k: Bytes, v: Bytes): (r: seq<Pair>)
    requires Sorted(p)
    ensures Sorted(r)
    ensures KeySet(r) == KeySet(p) + {k}
    ensures |r| == if k in KeySet(p) then |p| else |p| + 1
    ensures Get(r, k) == Some(v)
    ensures forall k' | k' != k :: Get(r, k') == Get(p, k')
  {
    if |p| == 0 then [(k, v)]
    else if p[0].0 == k then
      assert KeySet(p) == {k} + KeySet(p[1..]);
      LessIrreflexive(k);
      KeySetCons((k, v), p[1..]);
      [(k, v)] + p[1..]
    else if Less(k, p[0].0) then
      assert KeySet(p) == {p[0].0} + KeySet(p[1..]);
      assert forall j | 0 <= j < |p| :: Less(k, p[j].0) by {
        forall j | 0 <= j < |p|
          ensures Less(k, p[j].0)
        {
          if j > 0 {
            LessTransitive(k, p[0].0, p[j].0);
          }
        }
      }
      assert k !in KeySet(p) by {
        forall j | 0 <= j < |p|
          ensures p[j].0 != k
        {
          LessIrreflexive(k);
        }
      }
      KeySetCons((k, v), p);
      [(k, v)] + p
    else
      LessTotal(k, p[0].0);
      assert KeySet(p) == {p[0].0} + KeySet(p[1..]);
      var rest := Put(p[1..], k, v);
      assert forall x | x in KeySet(rest) :: Less(p[0].0, x);
      KeySetCons(p[0], rest);
      [p[0]] + rest
  }

  /** The keys in cursor order (`Cursor.First` then `Cursor.Next` until nil). */
  function Keys(p: seq<Pair>): (r: seq<Bytes>)
    ensures |r| == |p|
    ensures forall k :: k in r <==> k in KeySet(p)
    ensures Sorted(p) ==> forall i, j | 0 <= i < j < |r| :: Less(r[i], r[j])
  {
    var r := seq(|p|, i requires 0 <= i < |p| => p[i].0);
    assert forall i | 0 <= i < |p| :: r[i] == p[i].0 && p[i].0 in KeySet(p);
    r
  }

  /** Why the engine would refuse to store `value` under `key`, if it would. */
  function PutError(key: Bytes, value: Bytes): (r: Option<Error>)
    ensures r.None? <==> 0 < |key| <= MaxKeySize && |value| <= MaxValueSize
  {
    if |key| == 0 then Some(KeyRequired)
    else if |key| > MaxKeySize then Some(KeyTooLarge)
    else if |value| > MaxValueSize then Some(ValueTooLarge)
    else None
  }

  /** An open engine: its buckets by name. */
  datatype Engine = Engine(buckets: map<Bytes, Bucket>)

  /** `Tx.CreateBucketIfNotExists` for a non-empty name. */
  function CreateBucketIfNotExists(e: Engine, name: Bytes): (r: Engine)
    ensures name in r.buckets
    ensures name in e.buckets ==> r == e
    ensures name !in e.buckets ==> r.buckets[name] == []
    ensures forall n | n != name :: (n in r.buckets <==> n in e.buckets)
    ensures forall n | n != name && n in e.buckets :: r.buckets[n] == e.buckets[n]
  {
    if name in e.buckets then e else Engine(e.buckets[name := []])
  }
}
