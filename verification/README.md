# pomegranate core, modelled in Dafny

pomegranate is a small movie-download manager. It keeps movie records in an embedded ordered key-value store (bbolt). It looks movies up in a metadata service (TMDB) and searches Newznab indexers for releases (NZB files). It hands a chosen release to a SABnzbd downloader.

This project models the sequential core of that program as pure functions over immutable data. The pieces are:

- the field comparison engine and the filter check of the `database` package;
- the movie database over a bbolt-like ordered bucket;
- the generic record store and the `models.Movie` record contract;
- the movie manager;
- struct-to-query injection for the downloader's API, and the query of its `addurl` call;
- Newznab attribute extraction;
- the NzbInfo bookkeeping of the two HTTP handlers that add a movie and send a release to the downloader.

Modelling choices:

- **Strings.** Go strings are byte strings (`seq<byte>`). The literals the program uses are written with `ByteStrings.Ascii`.
- **Buckets.** A bucket is a strictly ascending sequence of key/value pairs under byte-lexicographic order. Cursor order is therefore key order.
- **JSON.** JSON is an abstract `Codec` made of two partial functions. Properties that need a lossless codec assume the `Codecs.RoundTrips` predicate.
- **Go values.** Values that Go inspects by reflection are a tagged union, `GoValues.GoValue`. A struct is its list of fields, each with its name, `query_name` tag and value.
- **Errors.** Errors form one datatype. `fmt.Errorf("ctx: %w")` and `errors.Wrap(err, "ctx")` are written `Wrapped("ctx", inner)`.
- **Collaborators.** Network collaborators are function parameters: the TMDB reads, the Newznab feed fetch and the SABnzbd `AddUrl`. So is the random NzbInfo id generator.

Files and modules:

- `wrappers.dfy` holds `Wrappers`, with `Option` and `Result`.
- `bytestrings.dfy` holds `ByteStrings`.
- `decimal.dfy` holds `Decimal`, which implements `strconv.Itoa`/`Atoi`.
- `govalues.dfy` holds `GoValues`.
- `errors.dfy` holds `Errors`.
- `bolt.dfy` holds `Bolt`, the ordered bucket.
- `records.dfy` holds `MovieRecord` and `Codecs`.
- `query.dfy` holds `Query`.
- `database.dfy` holds `Database`.
- `database_movie.dfy` holds `DatabaseMovie`.
- `store.dfy` holds `Stores`.
- `models_movie.dfy` holds `ModelsMovie`.
- `manager.dfy` holds `Manager`.
- `injectquery.dfy` holds `InjectQuery`.
- `newznab.dfy` holds `Newznab`.
- `service_movie.dfy` holds `ServiceMovie`.
- `service_nzb.dfy` holds `ServiceNzb`.

## Model

| member | source | states |
|---|---|---|
| ByteStrings.LessIrreflexive | database/database.go:75-77 | no key is before itself in the byte order cursors use |
| ByteStrings.LessTransitive | database/database.go:75-77 | the cursor order is transitive |
| ByteStrings.LessTotal | database/database.go:75-77 | any two distinct keys are ordered one way or the other |
| ByteStrings.LessAsymmetric | database/database.go:75-77 | two keys are never each before the other |
| Decimal.Itoa | sabnzbd/injectquery.go:15-20 | the canonical decimal text: '-' exactly for negative numbers, never '+', all digits after the sign and no leading zero except for 0 itself |
| Decimal.Atoi | newznab/newznab.go:76 | accepts exactly an optional '+' or '-' followed by at least one digit whose value fits in 64 bits, and yields that value with its sign; everything else is refused |
| Decimal.ValueOfDigits | sabnzbd/injectquery.go:15-20 | reading back the digits of a natural number gives that number |
| Decimal.ItoaAtoi | newznab/newznab.go:76 | parsing what `Itoa` rendered gives the number back, for every 64-bit integer |
| Decimal.ItoaInjective | sabnzbd/injectquery.go:15-20 | distinct numbers render differently |
| GoValues.KindOf | database/query.go:27-28 | a value's kind is String, Int32 or Struct exactly when it is, under any declared types, a string, int32 or struct value |
| Bolt.Get | database/database.go:96-98 | a lookup succeeds exactly for stored keys and yields the value stored with the key |
| Bolt.GetAt | database/database.go:96-98 | the value found at position i of a sorted bucket is what a lookup of its key yields |
| Bolt.Put | database/database.go:45-53 | an upsert keeps the bucket sorted, adds exactly the key, reads the new value back, and leaves every other key's value unchanged |
| Bolt.Keys | database/database.go:73-77 | one key per pair, exactly the bucket's keys, strictly ascending for a sorted bucket |
| Bolt.PutError | database/database.go:47-50 | a write is refused exactly when the key is empty or too long or the value is too long |
| Bolt.CreateBucketIfNotExists | database/database.go:28 | the bucket exists afterwards; an existing bucket is kept as it is, a missing one is created empty; no other bucket changes |
| Database.Unavailable | database/database.go:42-44 | an operation proceeds exactly when the engine is open and the bucket exists; a nil engine is reported as not initialised |
| Database.Open | database/database.go:21-39 | an open failure is wrapped; otherwise the "movies" bucket exists afterwards, is created empty when absent and kept when present, and no other bucket changes |
| Database.OpenIdempotent | database/database.go:27-33 | opening an engine that was already prepared changes nothing |
| Database.Store | database/database.go:41-60 | a nil handle fails; otherwise an upsert of the bucket: the key reads back the data, other keys and buckets are unchanged, and a failed write changes nothing and is wrapped twice |
| Database.BucketKeys | database/database.go:62-86 | every key of the bucket exactly once, strictly ascending |
| Database.Movie | database/database.go:88-110 | a nil handle fails; an absent key yields the zero Movie; a present key yields its decoded value or a wrapped decode error |
| Database.DecodeAll | database/database.go:125-132 | one decoded value per stored value in order, or a failure exactly when some value does not decode |
| Database.AllMovies | database/database.go:112-141 | one decoded movie per stored value in key order; a single undecodable value fails the whole call, with no partial result |
| Database.FirstWithNzb | database/database.go:155-169 | the first movie in key order holding the id, or the zero Movie when none does; it fails exactly when a value before the first match does not decode |
| Database.FirstWithNzbStopsAtMatch | database/database.go:161-165 | records after the first match are never looked at |
| Database.MovieWithNzbID | database/database.go:143-176 | a nil handle fails; otherwise the scan of "movies", with a decode failure wrapped once |
| DatabaseMovie.Store | database/movie.go:38-49 | an encode failure writes nothing; the whole movie's encoding is upserted into "movies" under the IMDb id exactly when the bucket exists and the write is accepted; other keys are unchanged; a storage error is wrapped |
| DatabaseMovie.StoreThenRead | database/movie.go:38-49 | with a lossless codec, a stored movie reads back equal through `DB.Movie` |
| DatabaseMovie.StoreTwiceKeepsLatest | database/movie.go:44 | storing twice under one IMDb id keeps only the later movie and adds no second record |
| Query.Compare | database/query.go:26-55 | different kinds fail; strings support only Equal, as string equality; int32 compares the operand on the left for the five operators and fails for any other; every other kind fails |
| Query.CompareEqualOperand | database/query.go:40-49 | when the operand equals the field, Equal, LessThanEq and GreaterThanEq hold and LessThan and GreaterThan do not |
| Query.CompareOperandOnLeft | database/query.go:42-47 | LessThan holds exactly when the operand is below the field, and GreaterThan exactly when it is above |
| Query.CheckFilter | database/store_test.go:45-65 | a filter fails exactly when one of its comparisons fails, and otherwise holds exactly when all of them hold |
| Query.CheckFilters | database/store_test.go:45-65 | the filter list fails exactly when one comparison fails, and otherwise holds exactly when every comparison of every filter holds |
| Query.CheckFilterOrderIrrelevant | database/query.go:19 | the verdict of a filter does not depend on the iteration order of its map |
| Query.CheckFiltersTable | database/store_test.go:26-43 | the eight cases of the comparison table give the expected error or result |
| Stores.NewStore | database/store.go:19-24 | the store keeps exactly the session and prototype it is given |
| Stores.FindOne | database/store.go:26-28 | as written: success for every input, destination untouched |
| Stores.FindAll | database/store.go:30-32 | as written: success for every input, destination untouched |
| Stores.FindAllStubAcceptsNil | database/database_test.go:138-140 | the stub accepts the nil destination that the repository's test requires to be refused |
| Stores.FindByID | database/database_test.go:148-184 | reads the model's Kind bucket; a key never written fails, a stored value yields its decoding |
| Stores.FindByIDAfterStore | database/database_test.go:152-175 | with a lossless codec, a record stored under a key in the Kind bucket is found by that key |
| Stores.FindByIDNeverWritten | database/database_test.go:177-183 | a key never written fails with not-found |
| Stores.Matching | database/store_test.go:45-65 | keeps exactly the records satisfying every filter; a single record is kept exactly when it satisfies them; no filters keeps everything |
| Stores.MatchingConcat | database/store_test.go:45-65 | filtering distributes over concatenation, so the kept records stay in their order, each once |
| Stores.Scan | database/database.go:119-135 | the scan succeeds exactly when every value decodes and no filter fails, and then yields the matching decoded records in key order |
| Stores.FindAllIntended | database/database_test.go:135-146 | a nil destination and a non-slice destination are refused; a slice destination receives the filtered scan of the Kind bucket |
| Stores.FindAllUnfilteredIsEverything | database/database_test.go:186-193 | without filters a slice destination receives every stored record in key order, and succeeds exactly when all decode |
| ModelsMovie.Kind | models/movie.go:43-45 | always "movie", which is not the bucket `Store` writes |
| ModelsMovie.GetKey | models/movie.go:51-53 | the key is the bytes of the IMDb id |
| ModelsMovie.SetKey | models/movie.go:47-49 | the key reads back as set, and no other field changes |
| ModelsMovie.KeyRoundTrip | models/movie.go:47-53 | setting then getting the key is the identity, and setting the current key is a no-op |
| ModelsMovie.Ops | models/movie.go:43-53 | the movie's record contract: one kind for all movies, keyed by IMDb id |
| ModelsMovie.OpsLawful | database/store.go:7-12 | the movie satisfies the record contract: one bucket per type, a key that reads back as assigned |
| ModelsMovie.Store | models/movie.go:56-67 | an encode failure writes nothing; otherwise upsert into "movies" under GetKey; no other bucket changes |
| ModelsMovie.StoreAgreesWithDatabaseStore | models/movie.go:56-67 | the two packages' `Store` methods have the same effect |
| ModelsMovie.StoreBypassesKindBucket | models/movie.go:56-67 | `Store` never changes the bucket `Kind()` names |
| Manager.NewManager | manager/manager.go:11-18 | the manager and its store share the handle it is given |
| Manager.Entries | manager/movies.go:39-55 | one entry per search result in order, built from that result's details, or a failure exactly when some detail lookup fails |
| Manager.MovieSearch | manager/movies.go:27-58 | an empty query is refused before any lookup; a search failure is wrapped; otherwise the completed entries |
| Manager.EmptyQueryNeverLooksUp | manager/movies.go:28-30 | the answer to an empty query does not depend on the metadata service |
| Manager.MovieWithNzbID | manager/movies.go:60-93 | a nil handle fails; otherwise the first-match scan of the "movie" bucket, a decode failure wrapped twice |
| Manager.ScanMissesStoredMovies | manager/movies.go:68 | on a freshly opened database the manager's scan finds no bucket, before and after a movie is stored |
| Manager.AllMovies | manager/movies.go:95-107 | a nil handle fails and nothing else does; as written, every other call returns the empty list, because the store's `FindAll` never fills the slice |
| Manager.AllMoviesIntended | manager/movies.go:100-106 | with the `FindAll` the tests require: one movie per record of the "movie" bucket in key order, failing exactly when some record does not decode |
| Manager.AllMoviesListsNothing | manager/movies.go:100-106 | where the "movie" bucket holds decodable movies, the as-written call lists none of them and the intended one lists them |
| Manager.Movie | manager/movies.go:109-120 | a nil handle fails; otherwise exactly what the store's FindByID yields, its error wrapped |
| InjectQuery.IndexOf | sabnzbd/injectquery.go:39 | the first occurrence of the separator, or the length when there is none |
| InjectQuery.Split | sabnzbd/injectquery.go:39 | at least one piece, none containing the separator |
| InjectQuery.SplitJoin | sabnzbd/injectquery.go:39 | joining the pieces with the separator gives the tag back |
| InjectQuery.JoinSplit | sabnzbd/injectquery.go:39 | splitting a join of separator-free pieces gives the pieces back |
| InjectQuery.AsString | sabnzbd/injectquery.go:11-24 | strings unchanged; int, int32 and int64 rendered in decimal so that parsing gives the number back; anything else, a declared type over an integer included, as its type name in angle brackets |
| InjectQuery.KeyOf | sabnzbd/injectquery.go:38-46 | no key exactly when the first piece is "-"; otherwise the field name or a comma-free prefix of the tag |
| InjectQuery.KeyIgnoresOptions | sabnzbd/injectquery.go:38-46 | anything after the first comma never changes the key; an empty first piece means the Go field name |
| InjectQuery.InjectFieldsLastWins | sabnzbd/injectquery.go:35-50 | each written key ends with exactly the last writer's value; keys no field writes keep what they had; no other key appears |
| InjectQuery.Inject | sabnzbd/injectquery.go:26-53 | fails exactly when the value's kind is not struct, reporting that kind and leaving the query as it was; otherwise the fields of the underlying struct are injected in order, so a declared type over a struct is accepted |
| InjectQuery.InjectSeesThroughDeclaredTypes | sabnzbd/injectquery.go:27-31 | a declared type is injected exactly as its underlying type, since only the kind is checked |
| InjectQuery.InjectInUrl | sabnzbd/injectquery.go:55-64 | fails exactly when the value's kind is not struct, with the kind error wrapped; on success only the URL's query is replaced, by the injection's result |
| InjectQuery.PlainTagsWritten | sabnzbd/injectquery.go:35-50 | with distinct plain tags, each field's rendered value ends up under its tag, and every other key is kept |
| InjectQuery.AddUrlStruct | sabnzbd/sabnzbd.go:70-78 | the seven parameter fields, tagged name, nzbname, password, cat, script, priority and pp in that order |
| InjectQuery.AddUrlTagsPlain | sabnzbd/sabnzbd.go:70-78 | the seven tags are plain, pairwise distinct, and none is "mode" |
| InjectQuery.AddUrlWith | sabnzbd/sabnzbd.go:85-95 | an empty name is refused; otherwise mode is addurl, every parameter key is set, name and pp carry the given values, priority carries the rendered priority field, and the client's own keys are kept |
| InjectQuery.AddUrlQuery | sabnzbd/sabnzbd.go:76 | as written, the priority sent is the type name `<sabnzbd.PriorityType>` |
| InjectQuery.AddUrlQueryIntended | sabnzbd/sabnzbd.go:76 | with the priority converted to `int32`, the priority sent is its decimal text and parses back to it |
| InjectQuery.PriorityIsNotANumber | sabnzbd/sabnzbd.go:76 | for every call, the as-written priority does not parse as a number and differs from the intended one |
| InjectQuery.InjectTestStruct | sabnzbd/injectquery_test.go:38-61 | the test struct gives exactly the keys str, test and Bar with values luke, 42 and bar |
| InjectQuery.OmitEmptyIsIgnored | sabnzbd/injectquery.go:38-48 | a field tagged ",omitempty" with an empty value is still written, under its Go name |
| Newznab.Lookup | newznab/newznab.go:75 | a missing attribute reads as the empty string |
| Newznab.AttrList | newznab/newznab.go:29-32 | a missing "newznab" extension or "attr" list gives no elements |
| Newznab.FoldLastWins | newznab/newznab.go:33-51 | the result's keys are the non-empty declared names, each mapped to the value of the last element declaring it |
| Newznab.ParseAttrs | newznab/newznab.go:22-55 | a nil item fails; a missing extension gives the empty map; otherwise the fold of the attribute elements |
| Newznab.SizeOf | newznab/newznab.go:75-82 | size is the decimal parse of the size attribute when present and valid, otherwise 0 |
| Newznab.SizeRoundTrip | newznab/newznab.go:75-82 | a size rendered in decimal is read back exactly |
| Newznab.ToResponse | newznab/newznab.go:74-85 | title and GUID copied; URL is the first enclosure's or empty |
| Newznab.Responses | newznab/newznab.go:67-90 | one response per feed item in order, or a wrapped failure exactly when some item is nil |
| Newznab.RequestUrl | newznab/newznab.go:58 | the request goes to the indexer's host over http |
| Newznab.SearchImdb | newznab/newznab.go:57-91 | a fetch failure is wrapped; otherwise the responses for the feed's items |
| ServiceMovie.Refresh | service/movie.go:78-81 | IMDb id, title, release date and overview are overwritten; NzbInfo is kept |
| ServiceMovie.NewEntry | service/movie.go:102-109 | an appended entry copies title, GUID, URL and size, has status "unknown" and the generated id |
| ServiceMovie.Step | service/movie.go:95-110 | a result is appended exactly when no entry currently listed has its URL |
| ServiceMovie.StepSpec | service/movie.go:95-110 | one step only appends, afterwards lists the result's URL, appends the entry made from it when it appends, and keeps distinct URLs distinct |
| ServiceMovie.MergeSpec | service/movie.go:94-111 | the merge only appends, lists every result's URL afterwards, builds each appended entry from a result, and keeps distinct URLs distinct |
| ServiceMovie.KnownUrlIsSkipped | service/movie.go:96-101 | a result whose URL is listed changes nothing |
| ServiceMovie.MergeConcat | service/movie.go:94-111 | merging two batches in turn is merging their concatenation |
| ServiceMovie.MergeAll | service/movie.go:83-112 | all indexers in order: existing entries kept in place, distinct URLs kept distinct, a failure exactly when some search fails, wrapped |
| ServiceMovie.MergeAllListsEveryUrl | service/movie.go:83-112 | after a successful merge every URL of every indexer's results is listed |
| ServiceMovie.MergeAllEntriesFromSearches | service/movie.go:94-111 | after a successful merge every appended entry is made from some indexer's result with the id generated for it |
| ServiceMovie.IndexerQuery | service/movie.go:84 | the identifier without its first two characters |
| ServiceMovie.AddMovie | service/movie.go:62-117 | a failed lookup or read is wrapped and writes nothing; once both succeed, a failed search is returned with nothing written, otherwise the refreshed movie with the merged list is stored and returned, or the store's error wrapped with nothing written |
| ServiceMovie.AddedMovieListsEveryResult | service/movie.go:83-117 | a successful addition lists every URL every indexer returned, and each new entry comes from one of the results |
| ServiceMovie.AddedMovieReadsBack | service/movie.go:114-117 | with a lossless codec, the added movie reads back under the IMDb id the metadata service reported |
| ServiceNzb.LastIndex | service/nzb.go:31-36 | the position of the last entry with the id, or -1 exactly when there is none |
| ServiceNzb.SelectEntry | service/nzb.go:31-36 | nothing exactly when no entry has the id; otherwise the last entry with the id |
| ServiceNzb.SelectAliased | service/nzb.go:31-36 | with a shared loop variable: the final element whenever any entry has the id |
| ServiceNzb.AliasedSelectsWrongEntry | service/nzb.go:31-36 | with a shared loop variable, a two-entry list sends and marks the entry that was not requested |
| ServiceNzb.Mark | service/nzb.go:59-60 | the entry gets status "snatched" and the downloader's id; the rest is unchanged |
| ServiceNzb.Rebuild | service/nzb.go:62-71 | same length and order; entries with another id unchanged, entries with the id replaced |
| ServiceNzb.RebuildIdempotent | service/nzb.go:62-71 | rebuilding again with the same entry changes nothing |
| ServiceNzb.SelectAfterRebuild | service/nzb.go:59-71 | after the rebuild, selecting the id yields the marked entry |
| ServiceNzb.FoundMovieHoldsEntry | service/nzb.go:17-44 | a looked-up movie with a title always holds the requested id, so the second not-found branch is unreachable after a lookup |
| ServiceNzb.NzbDownload | service/nzb.go:12-76 | a lookup failure, an empty title or a missing entry makes no downloader call and writes nothing; otherwise exactly the selected entry's URL is sent; a downloader error or zero ids fail, wrapped, without a write; with an id the entry is marked with the first id, the list rebuilt and the movie stored, answering Snatched, or the store's error wrapped without a write |
| ServiceNzb.SnatchedMovieReadsBack | service/nzb.go:59-76 | with a lossless codec, the stored movie reads back with the selected entry snatched |

## Left out

- Network clients are parameters or not modelled. These are sabnzbd/queue.go, the HTTP side of sabnzbd/sabnzbd.go, the TMDB client, and the feed fetch and parse inside `SearchImdb`.
- HTTP plumbing is not modelled: routing, `internalError`, response writing and JSON payloads of the handlers. This covers service/service.go, service/filesystem.go and `movieListHandler`.
- Process plumbing is not modelled: cmd/pomegranate/main.go and static/main.js.
- bbolt transactions, durability, isolation and concurrency are not modelled. A database is one immutable value, and each operation returns the new value.
- JSON is not modelled; the codec is abstract.
- URL query encoding (`url.Values.Encode`) and URL parsing are not modelled. A URL carries its decoded query.
- Go reflection is replaced by explicit field lists. A value of a declared type is `GoValues.NamedVal`, which keeps its type name and underlying value.
- Query.Compare: a string or int32 kind whose dynamic type is a declared type makes the Go type assertion panic; the model reports `NotImplemented` instead.
- Console output is not modelled: `fmt.Println(items)` at service/movie.go:92, the invalid-size `fmt.Printf` at newznab/newznab.go:78, the "should not be possible" `log.Printf` at service/nzb.go:38, and the request URLs `AddUrl` and `SearchImdb` print.
- InjectQuery.AddUrlWith: the HTTP request `AddUrl` sends and the response it decodes are not modelled; only the query it builds is.
- Panics are not modelled as such. A nil bucket is reported as `NoSuchBucket`. `identifier[2:]` on a short identifier is excluded by the precondition of `ServiceMovie.AddMovie`.
- Error texts are modelled by cause and wrapping context only. The formatted arguments (ids, kinds in messages) are dropped.
- Database.Movie: returns no value beside an error. The same holds for every other operation that returns a `Result`. Go returns a zero value there, and callers never read it.
- Database.Open: the file is given as its opened contents or the error opening it. A failure to create the bucket cannot occur for the fixed name "movies".
- Stores.FindByID: database/store.go does not define it, although manager/movies.go and database/database_test.go call it. It is modelled from the tests.
- Stores.FindOne: no intended behaviour is modelled. Nothing in the repository calls it or pins it down.
- Query.CheckFilters: `checkFilters` is not defined in any file of the repository. It is modelled from the table in database/store_test.go. A map filter is a list of entries in some iteration order, and a missing field is an error.
- Manager.NewManager: manager/manager.go passes `&database.Movie{}`, which lacks the record contract's methods. The model builds the store over the `models.Movie` contract instead.
- InjectQuery.OmitEmptyIsIgnored: the repository's test expects `omitempty` to drop an empty field (sabnzbd/injectquery_test.go:13,31), but the code writes it. The code is followed.
- InjectQuery.AsString: the repository's test expects a slice to be comma-joined (sabnzbd/injectquery_test.go:64-86), but the code renders it as its type name in angle brackets. The code is followed.
- Newznab.RequestUrl: the printed, redacted copy of the URL is console output and is not modelled.
- ServiceMovie.AddMovie: the new NzbInfo ids come from a generator function, so their randomness is not modelled.
- ServiceNzb.NzbDownload: the log message for several ids is not modelled; only the first id is used, as in the code.

## Findings

| source | as written | input that shows it | evidently intended | confidence | as-written member | corrected member |
|---|---|---|---|---|---|---|
| database/store.go:30-32 | `FindAll` returns nil and leaves the destination untouched | a nil destination, which database/database_test.go:138-140 requires to be refused | refuse nil and non-slice destinations and fill a slice with the bucket's records | high; not executed | Stores.FindAllStubAcceptsNil | Stores.FindAllIntended |
| manager/movies.go:100-106 | `AllMovies` returns the slice the `FindAll` stub never fills | a database whose "movie" bucket holds a decodable movie: the list returned is empty | every movie of the bucket in key order | high; not executed | Manager.AllMoviesListsNothing | Manager.AllMoviesIntended |
| sabnzbd/sabnzbd.go:76 | `Priority` has the declared type `PriorityType`, and `asString` matches exact types only | any `AddUrl` call: the query carries `priority=<sabnzbd.PriorityType>` | the priority as a decimal number | high; not executed | InjectQuery.PriorityIsNotANumber | InjectQuery.AddUrlQueryIntended |
| service/nzb.go:31-36 | `nzb = &info` takes the address of the range variable | entries with ids "a" then "b" and a request for "a"; with one shared loop variable (Go before 1.22) the second entry is sent and marked | select the last entry whose id matches | low, depends on the Go language version the module declares, which is not part of this model; not executed | ServiceNzb.AliasedSelectsWrongEntry | ServiceNzb.SelectEntry |
