/**
 * The movie manager (manager/movies.go): a search front end over the movie
 * metadata service and three reads of the persisted movies. The metadata
 * service is a pair of lookup functions passed in.
 */
module Manager {
  import opened Wrappers
  import opened ByteStrings
  import opened GoValues
  import opened Errors
  import opened Bolt
  import opened MovieRecord
  import opened Codecs
  import Decimal
  import Database
  import Stores
  import ModelsMovie

  /** The manager: the database handle and a store of `models.Movie`. */
  datatype Manager = Manager(db: Database.DB, movies: Stores.Store<Movie>)

  /** `NewManager`: both the handle and the store use the same database. */
  function NewManager(db: Database.DB): (m: Manager)
    ensures m.db == db && m.movies.session == db
  {
    Manager(db, Stores.NewStore(db, ZeroMovie))
  }

  /** One result of a metadata search, and the details looked up for it. */
  datatype SearchResult = SearchResult(id: int32, title: Bytes, releaseDate: Bytes)
  datatype MovieDetails = MovieDetails(imdbId: Bytes, runtime: int32)

  datatype MovieEntry = MovieEntry(
    runtime: int32,
    released: Bytes,
    imdbId: Bytes,
    tmdbId: int32,
    year: int32,
    genres: seq<Bytes>,
    titles: seq<Bytes>,
    posters: seq<Bytes>)

  /** The entry for one search result once its details are known. */
  function Entry(res: SearchResult, details: MovieDetails): MovieEntry {
    MovieEntry(details.runtime, res.releaseDate, details.imdbId, res.id, 0, [], [res.title], [])
  }

  /** Look up each result's details by its decimal id; the first failed lookup aborts. */
  function Entries(results: seq<SearchResult>, readSingle: Bytes -> Result<MovieDetails, Error>)
    : (r: Result<seq<MovieEntry>, Error>)
    ensures r.Ok? <==> forall i | 0 <= i < |results| :: readSingle(Decimal.Itoa(results[i].id)).Ok?
    ensures r.Ok? ==> |r.value| == |results|
    ensures r.Ok? ==> forall i | 0 <= i < |results| ::
              r.value[i] == Entry(results[i], readSingle(Decimal.Itoa(results[i].id)).value)
  {
    if |results| == 0 then Ok([])
    else
      assert forall i | 0 < i < |results| :: results[i] == results[1..][i - 1];
      match readSingle(Decimal.Itoa(results[0].id))
      case Err(e) => Err(Wrapped("tmdb.ReadSingleMovie", e))
      case Ok(details) =>
        var rest := Entries(results[1..], readSingle);
        if rest.Err? then rest else Ok([Entry(results[0], details)] + rest.value)
  }

  /**
   * `MovieSearch`: an empty query is refused before any lookup; otherwise
   * the first page of results, each completed with its details.
   */
  function MovieSearch(
    query: Bytes,
    readMovies: (Bytes, int) -> Result<seq<SearchResult>, Error>,
    readSingle: Bytes -> Result<MovieDetails, Error>)
    : (r: Result<seq<MovieEntry>, Error>)
    ensures query == [] ==> r == Err(EmptyQuery)
    ensures query != [] && readMovies(query, 0).Err? ==> r == Err(Wrapped("tmdb.ReadMovies", readMovies(query, 0).error))
    ensures query != [] && readMovies(query, 0).Ok? ==> r == Entries(readMovies(query, 0).value, readSingle)
  {
    if query == [] then Err(EmptyQuery)
    else
      match readMovies(query, 0)
      case Err(e) => Err(Wrapped("tmdb.ReadMovies", e))
      case Ok(results) => Entries(results, readSingle)
  }

  /** The empty-query guard holds whatever the metadata service would answer. */
  lemma EmptyQueryNeverLooksUp(
    readMovies: (Bytes, int) -> Result<seq<SearchResult>, Error>,
    readSingle: Bytes -> Result<MovieDetails, Error>,
    readMovies': (Bytes, int) -> Result<seq<SearchResult>, Error>,
    readSingle': Bytes -> Result<MovieDetails, Error>)
    ensures MovieSearch([], readMovies, readSingle) == MovieSearch([], readMovies', readSingle')
  {
  }

  /**
   * `Manager.MovieWithNzbID`: the same scan as the database's, but over the
   * bucket `Movie.Kind()` names ("movie").
   */
  function MovieWithNzbID(mgr: Manager, codec: Codec<Movie>, id: Bytes): (r: Result<Movie, Error>)
    ensures mgr.db.database.None? ==> r == Err(NotInitialized)
    ensures Database.BucketOf(mgr.db, ModelsMovie.MovieKind).Some? ==>
              match Database.FirstWithNzb(Database.BucketOf(mgr.db, ModelsMovie.MovieKind).value, codec, id)
              case Ok(m) => r == Ok(m)
              case Err(_) => r == Err(Wrapped("m.DB.Database.View", Wrapped("json.Unmarshal", DecodeFailed)))
  {
    var name := ModelsMovie.Kind(ZeroMovie);
    match Database.Unavailable(mgr.db, name)
    case Some(e) => Err(e)
    case None =>
      match Database.FirstWithNzb(Database.BucketOf(mgr.db, name).value, codec, id)
      case Err(_) => Err(Wrapped("m.DB.Database.View", Wrapped("json.Unmarshal", DecodeFailed)))
      case Ok(m) => Ok(m)
  }

  /**
   * On a freshly opened database the bucket the manager scans does not
   * exist (only "movies" was created), and saving movies never creates it.
   */
  lemma ScanMissesStoredMovies(file: Engine, m: Movie, codec: Codec<Movie>, id: Bytes)
    requires ModelsMovie.MovieKind !in file.buckets
    ensures var db := Database.Open(Ok(file)).value;
            var db' := ModelsMovie.Store(m, db, codec).0;
            && MovieWithNzbID(NewManager(db), codec, id) == Err(NoSuchBucket(ModelsMovie.MovieKind))
            && MovieWithNzbID(NewManager(db'), codec, id) == Err(NoSuchBucket(ModelsMovie.MovieKind))
  {
    var db := Database.Open(Ok(file)).value;
    ModelsMovie.StoreBypassesKindBucket(m, db, codec);
  }

  /**
   * `Manager.AllMovies` as written: it hands an empty slice to the store's
   * `FindAll`, which reports success without filling it, so every movie
   * list it returns is empty.
   */
  function AllMovies(mgr: Manager): (r: Result<seq<Movie>, Error>)
    ensures mgr.db.database.None? <==> r == Err(NotInitialized)
    ensures mgr.db.database.Some? ==> r == Ok([])
  {
    if mgr.db.database.None? then Err(NotInitialized)
    else
      match Stores.FindAll(mgr.movies, Stores.SliceDest([]))
      case (Some(e), _) => Err(Wrapped("m.Movies.FindAll", e))
      case (None, dst) => Ok(dst.items)
  }

  /**
   * `Manager.AllMovies` over the `FindAll` the tests require: every movie
   * of the bucket `Movie.Kind()` names, in key order, its error wrapped.
   */
  function AllMoviesIntended(mgr: Manager, codec: Codec<Movie>): (r: Result<seq<Movie>, Error>)
    ensures mgr.db.database.None? ==> r == Err(NotInitialized)
    ensures mgr.db.database.Some? && Database.BucketOf(mgr.movies.session, ModelsMovie.MovieKind).Some? ==>
              var b := Database.BucketOf(mgr.movies.session, ModelsMovie.MovieKind).value;
              && (r.Ok? <==> forall i | 0 <= i < |b| :: codec.decode(b[i].1).Some?)
              && (r.Ok? ==> |r.value| == |b| && forall i | 0 <= i < |b| :: codec.decode(b[i].1) == Some(r.value[i]))
  {
    if mgr.db.database.None? then Err(NotInitialized)
    else
      var r := match Stores.FindAllIntended(mgr.movies, ModelsMovie.Ops(), codec, Stores.SliceDest([]), [])
        case Err(e) => Err(Wrapped("m.Movies.FindAll", e))
        case Ok(ms) => Ok(ms);
      if Database.BucketOf(mgr.movies.session, ModelsMovie.MovieKind).Some? then
        Stores.FindAllUnfilteredIsEverything(mgr.movies, ModelsMovie.Ops(), codec, []);
        r
      else r
  }

  /**
   * Whatever the "movie" bucket holds, the as-written `AllMovies` lists
   * nothing; where the bucket holds decodable movies, the intended one
   * lists every one of them.
   */
  lemma AllMoviesListsNothing(db: Database.DB, codec: Codec<Movie>)
    requires Database.BucketOf(db, ModelsMovie.MovieKind).Some?
    requires var b := Database.BucketOf(db, ModelsMovie.MovieKind).value;
             |b| > 0 && forall i | 0 <= i < |b| :: codec.decode(b[i].1).Some?
    ensures AllMovies(NewManager(db)) == Ok([])
    ensures AllMoviesIntended(NewManager(db), codec).Ok? && |AllMoviesIntended(NewManager(db), codec).value| > 0
  {
  }

  /** `Manager.Movie`: what the store's `FindByID` yields, its error wrapped. */
  function Movie(mgr: Manager, codec: Codec<Movie>, key: Bytes): (r: Result<Movie, Error>)
    ensures mgr.db.database.None? ==> r == Err(NotInitialized)
    ensures mgr.db.database.Some? ==>
              match Stores.FindByID(mgr.movies, ModelsMovie.Ops(), codec, key)
              case Ok(m) => r == Ok(m)
              case Err(e) => r == Err(Wrapped("m.Movies.FindByID", e))
  {
    if mgr.db.database.None? then Err(NotInitialized)
    else
      match Stores.FindByID(mgr.movies, ModelsMovie.Ops(), codec, key)
      case Err(e) => Err(Wrapped("m.Movies.FindByID", e))
      case Ok(m) => Ok(m)
  }
}
