/**
 * The database handle and its movie-specific reads and writes
 * (database/database.go). Every operation first refuses a handle whose
 * engine is nil; every bucket access on a bucket that does not exist is
 * reported as `NoSuchBucket` (the source dereferences a nil bucket there).
 */
module Database {
  import opened Wrappers
  import opened ByteStrings
  import opened Errors
  import opened Bolt
  import opened MovieRecord
  import opened Codecs

  /** The one bucket `Open` creates and every movie read and write uses. */
  const MovieBucketName: Bytes := Ascii("movies")

  /** `DB{Database *bolt.DB}`: `None` is a nil engine handle. */
  datatype DB = DB(database: Option<Engine>)

  /** The bucket `name` of an open engine, if both exist. */
  function BucketOf(db: DB, name: Bytes): Option<Bucket> {
    if db.database.Some? && name in db.database.value.buckets
    then Some(db.database.value.buckets[name]) else None
  }

  /** The failure of an operation before it reaches bucket `name`, if any. */
  function Unavailable(db: DB, name: Bytes): (r: Option<Error>)
    ensures r.None? <==> BucketOf(db, name).Some?
    ensures db.database.None? ==> r == Some(NotInitialized)
  {
    if db.database.None? then Some(NotInitialized)
    else if name !in db.database.value.buckets then Some(NoSuchBucket(name))
    else None
  }

  /**
   * `Open`: the engine file is an input (its current contents, or the
   * error opening it); the movie bucket is created when absent.
   */
  function Open(file: Result<Engine, Error>): (r: Result<DB, Error>)
    ensures file.Err? ==> r == Err(Wrapped("bolt.Open", file.error))
    ensures file.Ok? ==> r.Ok? && BucketOf(r.value, MovieBucketName).Some?
    ensures file.Ok? && MovieBucketName in file.value.buckets ==> r == Ok(DB(Some(file.value)))
    ensures file.Ok? && MovieBucketName !in file.value.buckets ==> BucketOf(r.value, MovieBucketName) == Some([])
    ensures file.Ok? ==> forall n | n != MovieBucketName :: BucketOf(r.value, n) == BucketOf(DB(Some(file.value)), n)
  {
    match file
    case Err(e) => Err(Wrapped("bolt.Open", e))
    case Ok(e) => Ok(DB(Some(CreateBucketIfNotExists(e, MovieBucketName))))
  }

  /** Opening an engine that `Open` already prepared changes nothing. */
  lemma OpenIdempotent(file: Result<Engine, Error>)
    requires file.Ok?
    ensures Open(Ok(Open(file).value.database.value)) == Open(file)
  {
  }

  /**
   * `DB.Store`: an upsert of `data` under `key` in bucket `name`. On an
   * error the database is returned unchanged.
   */
  function Store(db: DB, name: Bytes, key: Bytes, data: Bytes): (r: (DB, Option<Error>))
    ensures db.database.None? ==> r == (db, Some(NotInitialized))
    ensures r.1.Some? ==> r.0 == db
    ensures r.1.None? <==> BucketOf(db, name).Some? && PutError(key, data).None?
    ensures BucketOf(db, name).Some? && PutError(key, data).Some? ==>
              r.1 == Some(Wrapped("db.Update", Wrapped("bucket.Put", PutError(key, data).value)))
    ensures r.1.None? ==> BucketOf(r.0, name).Some? && Get(BucketOf(r.0, name).value, key) == Some(data)
    ensures r.1.None? ==> forall k | k != key :: Get(BucketOf(r.0, name).value, k) == Get(BucketOf(db, name).value, k)
    ensures r.1.None? ==> forall n | n != name :: BucketOf(r.0, n) == BucketOf(db, n)
  {
    match Unavailable(db, name)
    case Some(e) => (db, Some(e))
    case None =>
      match PutError(key, data)
      case Some(e) => (db, Some(Wrapped("db.Update", Wrapped("bucket.Put", e))))
      case None =>
        var buckets := db.database.value.buckets;
        (DB(Some(Engine(buckets[name := Put(buckets[name], key, data)]))), None)
  }

  /** `DB.BucketKeys`: every key of the bucket exactly once, in ascending byte order. */
  function BucketKeys(db: DB, name: Bytes): (r: Result<seq<Bytes>, Error>)
    ensures db.database.None? ==> r == Err(NotInitialized)
    ensures r.Ok? <==> BucketOf(db, name).Some?
    ensures r.Ok? ==> forall i, j | 0 <= i < j < |r.value| :: Less(r.value[i], r.value[j])
    ensures r.Ok? ==> forall k :: k in r.value <==> Get(BucketOf(db, name).value, k).Some?
  {
    match Unavailable(db, name)
    case Some(e) => Err(e)
    case None =>
      var b := BucketOf(db, name).value;
      Ok(Keys(b))
  }

  /** The movie stored under `key`; an absent key reads as the zero Movie. */
  function Movie(db: DB, codec: Codec<Movie>, key: Bytes): (r: Result<Movie, Error>)
    ensures db.database.None? ==> r == Err(NotInitialized)
    ensures r.Ok? ==> BucketOf(db, MovieBucketName).Some?
    ensures BucketOf(db, MovieBucketName).Some? && Get(BucketOf(db, MovieBucketName).value, key).None? ==>
              r == Ok(ZeroMovie)
    ensures BucketOf(db, MovieBucketName).Some? && Get(BucketOf(db, MovieBucketName).value, key).Some? ==>
              var stored := Get(BucketOf(db, MovieBucketName).value, key).value;
              match codec.decode(stored)
              case Some(m) => r == Ok(m)
              case None => r == Err(Wrapped("Database.View", Wrapped("json.Unmarshal", DecodeFailed)))
  {
    match Unavailable(db, MovieBucketName)
    case Some(e) => Err(e)
    case None =>
      match Get(BucketOf(db, MovieBucketName).value, key)
      case None => Ok(ZeroMovie)
      case Some(v) =>
        match codec.decode(v)
        case None => Err(Wrapped("Database.View", Wrapped("json.Unmarshal", DecodeFailed)))
        case Some(m) => Ok(m)
  }

  /** Decode every stored value in cursor order; the first failure aborts the scan. */
  function DecodeAll<T>(p: seq<Pair>, codec: Codec<T>): (r: Result<seq<T>, Error>)
    ensures r.Err? <==> exists i | 0 <= i < |p| :: codec.decode(p[i].1).None?
    ensures r.Err? ==> r.error == DecodeFailed
    ensures r.Ok? ==> |r.value| == |p| && forall i | 0 <= i < |p| :: codec.decode(p[i].1) == Some(r.value[i])
  {
    if |p| == 0 then Ok([])
    else
      var rest := DecodeAll(p[1..], codec);
      assert forall i | 0 < i < |p| :: p[i] == p[1..][i - 1];
      match codec.decode(p[0].1)
      case None => Err(DecodeFailed)
      case Some(x) =>
        if rest.Err? then rest else Ok([x] + rest.value)
  }

  /** `DB.AllMovies`: one decoded movie per stored value, in key order, or an error and nothing. */
  function AllMovies(db: DB, codec: Codec<Movie>): (r: Result<seq<Movie>, Error>)
    ensures db.database.None? ==> r == Err(NotInitialized)
    ensures BucketOf(db, MovieBucketName).Some? ==>
              var b := BucketOf(db, MovieBucketName).value;
              && (r.Ok? <==> forall i | 0 <= i < |b| :: codec.decode(b[i].1).Some?)
              && (r.Ok? ==> |r.value| == |b| && forall i | 0 <= i < |b| :: codec.decode(b[i].1) == Some(r.value[i]))
              && (r.Err? ==> r.error == Wrapped("Database.View", Wrapped("json.Unmarshal", DecodeFailed)))
  {
    match Unavailable(db, MovieBucketName)
    case Some(e) => Err(e)
    case None =>
      match DecodeAll(BucketOf(db, MovieBucketName).value, codec)
      case Err(_) => Err(Wrapped("Database.View", Wrapped("json.Unmarshal", DecodeFailed)))
      case Ok(ms) => Ok(ms)
  }

  /** The first `n` stored values decode and none of them carries NzbInfo `id`. */
  ghost predicate NoMatchBefore(p: seq<Pair>, codec: Codec<Movie>, id: Bytes, n: nat)
    requires n <= |p|
  {
    forall j | 0 <= j < n :: codec.decode(p[j].1).Some? && !HasNzb(codec.decode(p[j].1).value, id)
  }

  /**
   * The scan of `MovieWithNzbID`: decode records in key order and stop at
   * the first one holding an NzbInfo with `id`; the zero Movie if none does.
   */
  function FirstWithNzb(p: seq<Pair>, codec: Codec<Movie>, id: Bytes): (r: Result<Movie, Error>)
    ensures r.Err? ==> r.error == DecodeFailed
    ensures r.Err? <==> exists i | 0 <= i < |p| :: NoMatchBefore(p, codec, id, i) && codec.decode(p[i].1).None?
    ensures r.Ok? && HasNzb(r.value, id) ==>
              exists i | 0 <= i < |p| :: NoMatchBefore(p, codec, id, i) && codec.decode(p[i].1) == Some(r.value)
    ensures r.Ok? && !HasNzb(r.value, id) ==> r.value == ZeroMovie && NoMatchBefore(p, codec, id, |p|)
  {
    if |p| == 0 then Ok(ZeroMovie)
    else
      assert forall i | 0 < i < |p| :: p[i] == p[1..][i - 1];
      match codec.decode(p[0].1)
      case None =>
        assert NoMatchBefore(p, codec, id, 0);
        Err(DecodeFailed)
      case Some(m) =>
        if HasNzb(m, id) then
          assert NoMatchBefore(p, codec, id, 0);
          Ok(m)
        else
          var r := FirstWithNzb(p[1..], codec, id);
          ShiftNoMatch(p, codec, id);
          r
  }

  /** After a clean first record, a clean prefix of the tail is a clean prefix one longer. */
  lemma ShiftNoMatch(p: seq<Pair>, codec: Codec<Movie>, id: Bytes)
    requires |p| > 0 && codec.decode(p[0].1).Some? && !HasNzb(codec.decode(p[0].1).value, id)
    ensures forall n | 0 <= n <= |p| - 1 :: NoMatchBefore(p[1..], codec, id, n) <==> NoMatchBefore(p, codec, id, n + 1)
  {
    assert forall i | 0 < i < |p| :: p[i] == p[1..][i - 1];
  }

  /** The scan never looks past its first match: what follows it does not matter. */
  lemma {:induction false} FirstWithNzbStopsAtMatch(p: seq<Pair>, rest: seq<Pair>, codec: Codec<Movie>, id: Bytes)
    requires FirstWithNzb(p, codec, id).Ok? && HasNzb(FirstWithNzb(p, codec, id).value, id)
    ensures FirstWithNzb(p + rest, codec, id) == FirstWithNzb(p, codec, id)
  {
    assert |p| > 0;
    assert (p + rest)[0] == p[0];
    assert (p + rest)[1..] == p[1..] + rest;
    if codec.decode(p[0].1).Some? && !HasNzb(codec.decode(p[0].1).value, id) {
      FirstWithNzbStopsAtMatch(p[1..], rest, codec, id);
    }
  }

  /** `DB.MovieWithNzbID`: the first movie in key order with an NzbInfo of that id. */
  function MovieWithNzbID(db: DB, codec: Codec<Movie>, id: Bytes): (r: Result<Movie, Error>)
    ensures db.database.None? ==> r == Err(NotInitialized)
    ensures BucketOf(db, MovieBucketName).Some? ==>
              match FirstWithNzb(BucketOf(db, MovieBucketName).value, codec, id)
              case Ok(m) => r == Ok(m)
              case Err(_) => r == Err(Wrapped("json.Unmarshal", DecodeFailed))
  {
    match Unavailable(db, MovieBucketName)
    case Some(e) => Err(e)
    case None =>
      match FirstWithNzb(BucketOf(db, MovieBucketName).value, codec, id)
      case Err(_) => Err(Wrapped("json.Unmarshal", DecodeFailed))
      case Ok(m) => Ok(m)
  }
}
