/**
 * `models.Movie` (models/movie.go): the movie record as an implementation
 * of the store's record contract, and its own `Store`. Its `Kind()` is
 * "movie" while its `Store` writes into "movies", the only bucket `Open`
 * creates.
 */
module ModelsMovie {
  import opened Wrappers
  import opened ByteStrings
  import opened GoValues
  import opened Errors
  import opened Bolt
  import opened MovieRecord
  import opened Codecs
  import opened Query
  import Database
  import DatabaseMovie
  import Stores

  /** `models.MovieBucketName`, the same name `database` uses. */
  const MovieBucketName: Bytes := Ascii("movies")

  /** `models.MovieKind`, what `Kind()` reports. */
  const MovieKind: Bytes := Ascii("movie")

  /** `Kind()`: the same bucket name for every movie, and not the one `Store` writes to. */
  function Kind(m: Movie): (k: Bytes)
    ensures k == MovieKind && k != MovieBucketName
  {
    MovieKind
  }

  /** `GetKey()`: the bytes of the IMDb id. */
  function GetKey(m: Movie): (k: Stores.Key)
    ensures k == m.imdbId
  {
    m.imdbId
  }

  /** `SetKey(k)`: the IMDb id becomes `k`; nothing else changes. */
  function SetKey(m: Movie, k: Stores.Key): (r: Movie)
    ensures GetKey(r) == k
    ensures r.title == m.title && r.overview == m.overview
    ensures r.releaseDate == m.releaseDate && r.nzbInfo == m.nzbInfo
  {
    m.(imdbId := k)
  }

  /** Assigning a key and reading it back are inverse; re-assigning the current key is a no-op. */
  lemma KeyRoundTrip(m: Movie, k: Stores.Key)
    ensures GetKey(SetKey(m, k)) == k
    ensures SetKey(m, GetKey(m)) == m
    ensures SetKey(SetKey(m, k), GetKey(m)) == m
  {
  }

  /** The exported fields by Go name, as reflection would present them to a filter. */
  function Fields(m: Movie): (r: Record)
    ensures Ascii("ImdbId") in r && r[Ascii("ImdbId")] == StrVal(m.imdbId)
    ensures Ascii("Title") in r && r[Ascii("Title")] == StrVal(m.title)
  {
    map[Ascii("ImdbId") := StrVal(m.imdbId),
        Ascii("Title") := StrVal(m.title),
        Ascii("Overview") := StrVal(m.overview),
        Ascii("ReleaseDate") := StrVal(m.releaseDate),
        Ascii("NzbInfo") := OtherVal(Slice, Ascii("[]models.NzbInfo"))]
  }

  /** `*models.Movie` as a `database.Model`. */
  function Ops(): (ops: Stores.ModelOps<Movie>)
    ensures forall m :: ops.kind(m) == MovieKind
    ensures forall m :: ops.getKey(m) == m.imdbId
  {
    Stores.ModelOps(Kind, GetKey, SetKey, Fields)
  }

  lemma OpsLawful()
    ensures Stores.Lawful(Ops())
  {
  }

  /**
   * `Movie.Store`: encode the whole movie and upsert it into "movies" under
   * `GetKey()`; an encoding failure writes nothing, a storage failure is
   * passed back wrapped.
   */
  function Store(m: Movie, db: Database.DB, codec: Codec<Movie>): (r: (Database.DB, Option<Error>))
    ensures codec.encode(m).None? ==> r == (db, Some(Wrapped("json.Marshal", EncodeFailed)))
    ensures r.1.Some? ==> r.0 == db
    ensures codec.encode(m).Some? && db.database.None? ==> r.1 == Some(Wrapped("DB.Store", NotInitialized))
    ensures r.1.None? ==>
              var b := Database.BucketOf(r.0, MovieBucketName);
              b.Some? && Get(b.value, GetKey(m)) == codec.encode(m)
    ensures forall n | n != MovieBucketName :: Database.BucketOf(r.0, n) == Database.BucketOf(db, n)
  {
    match codec.encode(m)
    case None => (db, Some(Wrapped("json.Marshal", EncodeFailed)))
    case Some(bytes) =>
      var (db', err) := Database.Store(db, MovieBucketName, GetKey(m), bytes);
      match err
      case None => (db', None)
      case Some(e) => (db', Some(Wrapped("DB.Store", e)))
  }

  /** The two `Store` methods of the two packages have the same effect. */
  lemma StoreAgreesWithDatabaseStore(m: Movie, db: Database.DB, codec: Codec<Movie>)
    ensures Store(m, db, codec) == DatabaseMovie.Store(m, db, codec)
  {
  }

  /**
   * `Store` never writes to the bucket `Kind()` names, so a scan of that
   * bucket cannot see what `Store` saved.
   */
  lemma StoreBypassesKindBucket(m: Movie, db: Database.DB, codec: Codec<Movie>)
    ensures Database.BucketOf(Store(m, db, codec).0, Kind(m)) == Database.BucketOf(db, Kind(m))
  {
  }
}
