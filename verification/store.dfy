/**
 * The generic store (database/store.go): a database session paired with a
 * prototype record, over any type that provides the record contract.
 * `FindOne` and `FindAll` are stubs in the source; `FindByID` is called by
 * its users and tests but has no definition there. The stubs are modelled
 * as written, and the behaviour the tests require is modelled beside them.
 */
module Stores {
  import opened Wrappers
  import opened ByteStrings
  import opened GoValues
  import opened Errors
  import opened Bolt
  import opened Codecs
  import opened Query
  import Database

  /** `type Key []byte`. */
  type Key = Bytes

  /**
   * The `Model` interface as an explicit dictionary: the bucket a type
   * lives in, reading and assigning a record's key, and (replacing
   * reflection) a record's fields by name for the comparison engine.
   */
  datatype ModelOps<!T> = ModelOps(
    kind: T -> Bytes,
    getKey: T -> Key,
    setKey: (T, Key) -> T,
    fields: T -> Record)

  /** The record contract: one bucket per type, and a key that reads back as assigned. */
  ghost predicate Lawful<T(!new)>(ops: ModelOps<T>) {
    && (forall a: T, b: T :: ops.kind(a) == ops.kind(b))
    && (forall x: T, k: Key :: ops.getKey(ops.setKey(x, k)) == k)
  }

  datatype Store<T> = Store(session: Database.DB, model: T)

  /** `NewStore`: keeps exactly the session and the prototype it is given. */
  function NewStore<T>(sess: Database.DB, model: T): (s: Store<T>)
    ensures s.session == sess && s.model == model
  {
    Store(sess, model)
  }

  /** What a caller passes as `dst interface{}`. */
  datatype Dest<T> = NilDest | NonSliceDest(kind: Kind) | SliceDest(items: seq<T>)

  /** `store.FindOne` as written: reports success and leaves `dst` untouched. */
  function FindOne<T>(s: Store<T>, dst: Dest<T>): (r: (Option<Error>, Dest<T>))
    ensures r.0.None? && r.1 == dst
  {
    (None, dst)
  }

  /** `store.FindAll` as written: reports success and leaves `dst` untouched. */
  function FindAll<T>(s: Store<T>, dst: Dest<T>): (r: (Option<Error>, Dest<T>))
    ensures r.0.None? && r.1 == dst
  {
    (None, dst)
  }

  /**
   * `FindByID` as its callers and tests use it: read the model's bucket at
   * `key`; a key never written is an error, not a zero record.
   */
  function FindByID<T>(s: Store<T>, ops: ModelOps<T>, codec: Codec<T>, key: Key): (r: Result<T, Error>)
    ensures s.session.database.None? ==> r == Err(NotInitialized)
    ensures Database.BucketOf(s.session, ops.kind(s.model)).Some? ==>
              match Get(Database.BucketOf(s.session, ops.kind(s.model)).value, key)
              case None => r == Err(NotFound)
              case Some(v) =>
                match codec.decode(v)
                case None => r == Err(DecodeFailed)
                case Some(x) => r == Ok(x)
  {
    var name := ops.kind(s.model);
    match Database.Unavailable(s.session, name)
    case Some(e) => Err(e)
    case None =>
      match Get(Database.BucketOf(s.session, name).value, key)
      case None => Err(NotFound)
      case Some(v) =>
        match codec.decode(v)
        case None => Err(DecodeFailed)
        case Some(x) => Ok(x)
  }

  /** The records of `xs` that satisfy every filter, in their original order. */
  function Matching<T>(xs: seq<T>, ops: ModelOps<T>, filters: seq<Filter>): (r: seq<T>)
    requires forall i | 0 <= i < |xs| :: !Broken(ops.fields(xs[i]), filters)
    ensures forall i | 0 <= i < |r| :: r[i] in xs && AllHold(ops.fields(r[i]), filters)
    ensures forall i | 0 <= i < |xs| :: AllHold(ops.fields(xs[i]), filters) ==> xs[i] in r
    ensures |r| <= |xs|
    ensures filters == [] ==> r == xs
    ensures |xs| == 1 ==> r == if AllHold(ops.fields(xs[0]), filters) then xs else []
  {
    if |xs| == 0 then []
    else
      assert forall i | 0 < i < |xs| :: xs[i] == xs[1..][i - 1];
      var rest := Matching(xs[1..], ops, filters);
      var keep := CheckFilters(ops.fields(xs[0]), filters);
      if keep == Ok(true) then [xs[0]] + rest else rest
  }

  /**
   * Filtering distributes over concatenation. With the one-record case
   * above, this pins the result down: each record is kept or dropped on
   * its own, and the kept ones stay in their order, each once.
   */
  lemma {:induction false} MatchingConcat<T>(a: seq<T>, b: seq<T>, ops: ModelOps<T>, filters: seq<Filter>)
    requires forall i | 0 <= i < |a| :: !Broken(ops.fields(a[i]), filters)
    requires forall i | 0 <= i < |b| :: !Broken(ops.fields(b[i]), filters)
    ensures forall i | 0 <= i < |a + b| :: !Broken(ops.fields((a + b)[i]), filters)
    ensures Matching(a + b, ops, filters) == Matching(a, ops, filters) + Matching(b, ops, filters)
  {
    var ab := a + b;
    assert forall i | 0 <= i < |ab| :: ab[i] == if i < |a| then a[i] else b[i - |a|];
    if |a| > 0 {
      assert ab[0] == a[0] && ab[1..] == a[1..] + b;
      MatchingConcat(a[1..], b, ops, filters);
    } else {
      assert ab == b;
    }
  }

  /** Decode and filter a bucket's records in cursor order; the first error aborts the scan. */
  function Scan<T>(p: seq<Pair>, ops: ModelOps<T>, codec: Codec<T>, filters: seq<Filter>): (r: Result<seq<T>, Error>)
    ensures r.Ok? <==>
              && Database.DecodeAll(p, codec).Ok?
              && forall i | 0 <= i < |p| :: !Broken(ops.fields(Database.DecodeAll(p, codec).value[i]), filters)
    ensures r.Ok? ==> r.value == Matching(Database.DecodeAll(p, codec).value, ops, filters)
  {
    if |p| == 0 then Ok([])
    else
      assert forall i | 0 < i < |p| :: p[i] == p[1..][i - 1];
      match codec.decode(p[0].1)
      case None => Err(DecodeFailed)
      case Some(x) =>
        match CheckFilters(ops.fields(x), filters)
        case Err(e) => Err(e)
        case Ok(keep) =>
          var rest := Scan(p[1..], ops, codec, filters);
          if rest.Err? then rest
          else
            var all := Database.DecodeAll(p, codec).value;
            assert all == [x] + Database.DecodeAll(p[1..], codec).value;
            assert all[1..] == Database.DecodeAll(p[1..], codec).value;
            Ok(if keep then [x] + rest.value else rest.value)
  }

  /**
   * `FindAll` as the tests and the surrounding design require it: refuse a
   * nil destination and one that is not a slice; otherwise every record of
   * the model's bucket, in key order, that satisfies all filters.
   */
  function FindAllIntended<T>(s: Store<T>, ops: ModelOps<T>, codec: Codec<T>, dst: Dest<T>, filters: seq<Filter>)
    : (r: Result<seq<T>, Error>)
    ensures dst.NilDest? ==> r == Err(NilDestination)
    ensures dst.NonSliceDest? ==> r == Err(NotASlice)
    ensures dst.SliceDest? && s.session.database.None? ==> r == Err(NotInitialized)
    ensures dst.SliceDest? && Database.BucketOf(s.session, ops.kind(s.model)).Some? ==>
              r == Scan(Database.BucketOf(s.session, ops.kind(s.model)).value, ops, codec, filters)
  {
    match dst
    case NilDest => Err(NilDestination)
    case NonSliceDest(_) => Err(NotASlice)
    case SliceDest(_) =>
      var name := ops.kind(s.model);
      match Database.Unavailable(s.session, name)
      case Some(e) => Err(e)
      case None => Scan(Database.BucketOf(s.session, name).value, ops, codec, filters)
  }

  /** With no filters, a slice destination receives every stored record, in key order. */
  lemma FindAllUnfilteredIsEverything<T>(s: Store<T>, ops: ModelOps<T>, codec: Codec<T>, items: seq<T>)
    requires Database.BucketOf(s.session, ops.kind(s.model)).Some?
    ensures var b := Database.BucketOf(s.session, ops.kind(s.model)).value;
            var r := FindAllIntended(s, ops, codec, SliceDest(items), []);
            && (r.Ok? <==> forall i | 0 <= i < |b| :: codec.decode(b[i].1).Some?)
            && (r.Ok? ==> |r.value| == |b| && forall i | 0 <= i < |b| :: codec.decode(b[i].1) == Some(r.value[i]))
  {
  }

  /** The gap: the stub accepts the nil destination that the tests require to be refused. */
  lemma FindAllStubAcceptsNil<T>(s: Store<T>, ops: ModelOps<T>, codec: Codec<T>)
    ensures FindAll(s, NilDest).0.None?
    ensures FindAllIntended(s, ops, codec, NilDest, []).Err?
  {
  }

  /** A record stored under `key` in the model's bucket is found by `FindByID`. */
  lemma FindByIDAfterStore<T(!new)>(db: Database.DB, model: T, ops: ModelOps<T>, codec: Codec<T>, key: Key, v: T)
    requires RoundTrips(codec) && codec.encode(v).Some?
    ensures Database.Store(db, ops.kind(model), key, codec.encode(v).value).1.None? ==>
            FindByID(NewStore(Database.Store(db, ops.kind(model), key, codec.encode(v).value).0, model), ops, codec, key)
            == Ok(v)
  {
  }

  /** In an existing bucket, a key never written is `NotFound`. */
  lemma FindByIDNeverWritten<T>(s: Store<T>, ops: ModelOps<T>, codec: Codec<T>, key: Key)
    requires Database.BucketOf(s.session, ops.kind(s.model)).Some?
    requires key !in KeySet(Database.BucketOf(s.session, ops.kind(s.model)).value)
    ensures FindByID(s, ops, codec, key) == Err(NotFound)
  {
  }
}
