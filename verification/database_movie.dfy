/** `database.Movie.Store` (database/movie.go): persist a whole movie under its IMDb id. */
module DatabaseMovie {
  import opened Wrappers
  import opened ByteStrings
  import opened Errors
  import opened Bolt
  import opened MovieRecord
  import opened Codecs
  import Database

  /** The error `DB.Store` reported, wrapped the way `Movie.Store` passes it back. */
  function WrapStore(e: Option<Error>): Option<Error> {
    match e
    case None => None
    case Some(inner) => Some(Wrapped("DB.Store", inner))
  }

  /**
   * Encode the whole movie, NzbInfo list included, and upsert it into the
   * "movies" bucket under the bytes of its IMDb id. An encoding failure
   * writes nothing; a storage failure is passed back wrapped.
   */
  function Store(m: Movie, db: Database.DB, codec: Codec<Movie>): (r: (Database.DB, Option<Error>))
    ensures codec.encode(m).None? ==> r == (db, Some(Wrapped("json.Marshal", EncodeFailed)))
    ensures r.1.Some? ==> r.0 == db
    ensures r.1.None? <==>
              && codec.encode(m).Some?
              && Database.BucketOf(db, Database.MovieBucketName).Some?
              && PutError(m.imdbId, codec.encode(m).value).None?
    ensures codec.encode(m).Some? && db.database.None? ==> r.1 == Some(Wrapped("DB.Store", NotInitialized))
    ensures r.1.None? ==>
              var b := Database.BucketOf(r.0, Database.MovieBucketName);
              b.Some? && Get(b.value, m.imdbId) == codec.encode(m)
    ensures r.1.None? ==>
              forall k | k != m.imdbId ::
                Get(Database.BucketOf(r.0, Database.MovieBucketName).value, k)
                == Get(Database.BucketOf(db, Database.MovieBucketName).value, k)
  {
    match codec.encode(m)
    case None => (db, Some(Wrapped("json.Marshal", EncodeFailed)))
    case Some(bytes) =>
      var (db', err) := Database.Store(db, Database.MovieBucketName, m.imdbId, bytes);
      (db', WrapStore(err))
  }

  /** With a codec that round-trips, a stored movie reads back equal. */
  lemma StoreThenRead(m: Movie, db: Database.DB, codec: Codec<Movie>)
    requires RoundTrips(codec)
    requires Store(m, db, codec).1.None?
    ensures Database.Movie(Store(m, db, codec).0, codec, m.imdbId) == Ok(m)
  {
  }

  /**
   * Saving twice under the same IMDb id leaves only the later movie
   * readable and does not add a second record.
   */
  lemma StoreTwiceKeepsLatest(m1: Movie, m2: Movie, db: Database.DB, codec: Codec<Movie>)
    requires RoundTrips(codec)
    requires m1.imdbId == m2.imdbId
    ensures Store(m1, db, codec).1.None? && Store(m2, Store(m1, db, codec).0, codec).1.None? ==>
            var db2 := Store(m2, Store(m1, db, codec).0, codec).0;
            && Database.Movie(db2, codec, m1.imdbId) == Ok(m2)
            && |Database.BucketOf(db2, Database.MovieBucketName).value|
               == |Database.BucketOf(Store(m1, db, codec).0, Database.MovieBucketName).value|
  {
    if Store(m1, db, codec).1.None? && Store(m2, Store(m1, db, codec).0, codec).1.None? {
      var db1 := Store(m1, db, codec).0;
      var b1 := Database.BucketOf(db1, Database.MovieBucketName).value;
      assert m1.imdbId in KeySet(b1);
    }
  }
}
