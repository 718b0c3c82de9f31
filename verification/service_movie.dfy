/**
 * Adding a movie (service/movie.go, `movieAddHandler`): the stored record
 * is refreshed from the metadata service, then every indexer's results are
 * merged into its NzbInfo list without duplicating a URL, and the record is
 * stored again. The metadata service, the indexers and the generator of
 * new NzbInfo ids are functions passed in.
 */
module ServiceMovie {
  import opened Wrappers
  import opened ByteStrings
  import opened Errors
  import opened MovieRecord
  import opened Codecs
  import Newznab
  import Database
  import DatabaseMovie

  /** What the metadata service reports for an identifier. */
  datatype Details = Details(imdbId: Bytes, title: Bytes, releaseDate: Bytes, overview: Bytes)

  /** The four descriptive fields are overwritten; the NzbInfo list is kept. */
  function Refresh(m: Movie, d: Details): (r: Movie)
    ensures r.imdbId == d.imdbId && r.title == d.title
    ensures r.releaseDate == d.releaseDate && r.overview == d.overview
    ensures r.nzbInfo == m.nzbInfo
  {
    m.(imdbId := d.imdbId, title := d.title, releaseDate := d.releaseDate, overview := d.overview)
  }

  /** Some entry of the list has URL `u`. */
  predicate HasUrl(infos: seq<NzbInfo>, u: Bytes) {
    exists i | 0 <= i < |infos| :: infos[i].url == u
  }

  /** No two entries of the list share a URL. */
  predicate DistinctUrls(infos: seq<NzbInfo>) {
    forall i, j | 0 <= i < j < |infos| :: infos[i].url != infos[j].url
  }

  /** The entry appended for a new search result: its fields copied, status "unknown", the given id. */
  function NewEntry(item: Newznab.SearchResponseItem, id: Bytes): (e: NzbInfo)
    ensures e.title == item.title && e.guid == item.guid && e.url == item.url && e.size == item.size
    ensures e.status == StatusUnknown && e.id == id && e.downloaderId == []
  {
    NzbInfo(item.guid, id, item.size, StatusUnknown, item.title, item.url, [])
  }

  /** One step of the merge: append the result iff no entry has its URL yet. */
  function Step(infos: seq<NzbInfo>, item: Newznab.SearchResponseItem, id: Bytes): (r: seq<NzbInfo>)
    ensures HasUrl(infos, item.url) ==> r == infos
    ensures !HasUrl(infos, item.url) ==> r == infos + [NewEntry(item, id)]
  {
    if HasUrl(infos, item.url) then infos else infos + [NewEntry(item, id)]
  }

  /**
   * The merge of one indexer's results, in order; `ids[i]` is the id the
   * generator yields for `items[i]` should it be appended.
   */
  function Merge(infos: seq<NzbInfo>, items: seq<Newznab.SearchResponseItem>, ids: seq<Bytes>): seq<NzbInfo>
    requires |ids| == |items|
  {
    if |items| == 0 then infos
    else
      var n := |items| - 1;
      Step(Merge(infos, items[..n], ids[..n]), items[n], ids[n])
  }

  /** A list extended at its end keeps every URL it listed. */
  lemma HasUrlPrefix(a: seq<NzbInfo>, b: seq<NzbInfo>, u: Bytes)
    requires |a| <= |b| && b[..|a|] == a
    requires HasUrl(a, u)
    ensures HasUrl(b, u)
  {
    var i :| 0 <= i < |a| && a[i].url == u;
    assert b[i] == a[i];
  }

  /** One step only appends, lists the result's URL, and keeps every URL listed and distinct URLs distinct. */
  lemma StepSpec(before: seq<NzbInfo>, item: Newznab.SearchResponseItem, id: Bytes)
    ensures var r := Step(before, item, id);
            && |before| <= |r| <= |before| + 1 && r[..|before|] == before
            && HasUrl(r, item.url)
            && (|r| > |before| ==> r[|before|] == NewEntry(item, id))
            && (DistinctUrls(before) ==> DistinctUrls(r))
  {
    var r := Step(before, item, id);
    if !HasUrl(before, item.url) {
      assert r[|before|].url == item.url;
      if DistinctUrls(before) {
        forall i, j | 0 <= i < j < |r| ensures r[i].url != r[j].url {
          if j == |before| {
            assert r[i] == before[i];
          }
        }
      }
    }
  }

  /**
   * The merge only appends; afterwards every result's URL is listed; each
   * appended entry is made from one of the results; and URLs that were
   * distinct stay distinct.
   */
  lemma {:induction false} MergeSpec(infos: seq<NzbInfo>, items: seq<Newznab.SearchResponseItem>, ids: seq<Bytes>)
    requires |ids| == |items|
    ensures var r := Merge(infos, items, ids);
            && |infos| <= |r| <= |infos| + |items| && r[..|infos|] == infos
            && (forall i | 0 <= i < |items| :: HasUrl(r, items[i].url))
            && (forall j | |infos| <= j < |r| :: exists i | 0 <= i < |items| :: r[j] == NewEntry(items[i], ids[i]))
            && (DistinctUrls(infos) ==> DistinctUrls(r))
  {
    if |items| > 0 {
      var n := |items| - 1;
      var before := Merge(infos, items[..n], ids[..n]);
      var r := Step(before, items[n], ids[n]);
      assert r == Merge(infos, items, ids);
      MergeSpec(infos, items[..n], ids[..n]);
      StepSpec(before, items[n], ids[n]);
      assert r[..|infos|] == before[..|infos|];
      forall i | 0 <= i < n ensures HasUrl(r, items[i].url) {
        assert items[..n][i] == items[i];
        HasUrlPrefix(before, r, items[i].url);
      }
      forall j | |infos| <= j < |r| ensures exists i | 0 <= i < |items| :: r[j] == NewEntry(items[i], ids[i]) {
        if j < |before| {
          var i :| 0 <= i < n && before[j] == NewEntry(items[..n][i], ids[..n][i]);
          assert r[j] == before[j] && items[..n][i] == items[i] && ids[..n][i] == ids[i];
        } else {
          assert r[j] == NewEntry(items[n], ids[n]);
        }
      }
    }
  }

  /** A result whose URL is already listed changes nothing. */
  lemma KnownUrlIsSkipped(infos: seq<NzbInfo>, item: Newznab.SearchResponseItem, id: Bytes)
    requires HasUrl(infos, item.url)
    ensures Merge(infos, [item], [id]) == infos
  {
    assert [item][..0] == [] && [id][..0] == [];
  }

  /** Merging two batches one after the other is merging their concatenation. */
  lemma {:induction false} MergeConcat(
    infos: seq<NzbInfo>,
    a: seq<Newznab.SearchResponseItem>, ia: seq<Bytes>,
    b: seq<Newznab.SearchResponseItem>, ib: seq<Bytes>)
    requires |ia| == |a| && |ib| == |b|
    ensures Merge(infos, a + b, ia + ib) == Merge(Merge(infos, a, ia), b, ib)
  {
    if |b| == 0 {
      assert a + b == a && ia + ib == ia;
    } else {
      var n := |b| - 1;
      var ab, iab := a + b, ia + ib;
      var m := |ab| - 1;
      MergeConcat(infos, a, ia, b[..n], ib[..n]);
      assert ab[..m] == a + b[..n] && iab[..m] == ia + ib[..n];
      assert ab[m] == b[n] && iab[m] == ib[n];
      calc {
        Merge(infos, ab, iab);
        Step(Merge(infos, ab[..m], iab[..m]), ab[m], iab[m]);
        Step(Merge(Merge(infos, a, ia), b[..n], ib[..n]), b[n], ib[n]);
        Merge(Merge(infos, a, ia), b, ib);
      }
    }
  }

  /** The ids the generator yields for the results of indexer `k`. */
  function Ids(newId: (nat, nat) -> Bytes, k: nat, count: nat): seq<Bytes>
  {
    seq(count, i requires 0 <= i => newId(k, i))
  }

  /**
   * The loop over the indexers, the `k`-th of which answers with `searches[0]`;
   * a failed search aborts the whole addition.
   */
  function MergeAll(
    infos: seq<NzbInfo>,
    searches: seq<Bytes -> Result<seq<Newznab.SearchResponseItem>, Error>>,
    query: Bytes,
    newId: (nat, nat) -> Bytes,
    k: nat)
    : (r: Result<seq<NzbInfo>, Error>)
    ensures r.Ok? ==> |infos| <= |r.value| && r.value[..|infos|] == infos
    ensures r.Ok? && DistinctUrls(infos) ==> DistinctUrls(r.value)
    ensures r.Ok? <==> forall i | 0 <= i < |searches| :: searches[i](query).Ok?
    ensures r.Err? ==> r.error.Wrapped? && r.error.context == "newznab.SearchImdb"
    decreases |searches|
  {
    if |searches| == 0 then Ok(infos)
    else
      assert forall i | 0 < i < |searches| :: searches[i] == searches[1..][i - 1];
      match searches[0](query)
      case Err(e) => Err(Wrapped("newznab.SearchImdb", e))
      case Ok(items) =>
        var merged := Merge(infos, items, Ids(newId, k, |items|));
        MergeSpec(infos, items, Ids(newId, k, |items|));
        var r := MergeAll(merged, searches[1..], query, newId, k + 1);
        assert r.Ok? ==> r.value[..|infos|] == merged[..|infos|];
        r
  }

  /** The entry made for result `j` of search `i`, with the id the generator yields for it. */
  ghost predicate FromSearch(
    e: NzbInfo,
    searches: seq<Bytes -> Result<seq<Newznab.SearchResponseItem>, Error>>,
    query: Bytes,
    newId: (nat, nat) -> Bytes,
    k: nat)
  {
    exists i, j | 0 <= i < |searches| && searches[i](query).Ok? && 0 <= j < |searches[i](query).value| ::
      e == NewEntry(searches[i](query).value[j], newId(k + i, j))
  }

  /** After a successful merge of all indexers, every URL of every search result is listed. */
  lemma {:induction false} MergeAllListsEveryUrl(
    infos: seq<NzbInfo>,
    searches: seq<Bytes -> Result<seq<Newznab.SearchResponseItem>, Error>>,
    query: Bytes,
    newId: (nat, nat) -> Bytes,
    k: nat)
    ensures var r := MergeAll(infos, searches, query, newId, k);
            r.Ok? ==>
            forall i, j | 0 <= i < |searches| && searches[i](query).Ok? && 0 <= j < |searches[i](query).value| ::
              HasUrl(r.value, searches[i](query).value[j].url)
    decreases |searches|
  {
    var r := MergeAll(infos, searches, query, newId, k);
    if |searches| > 0 && searches[0](query).Ok? && r.Ok? {
      var items := searches[0](query).value;
      var ids := Ids(newId, k, |items|);
      var merged := Merge(infos, items, ids);
      var rest := searches[1..];
      assert r == MergeAll(merged, rest, query, newId, k + 1);
      MergeSpec(infos, items, ids);
      MergeAllListsEveryUrl(merged, rest, query, newId, k + 1);
      forall i, j | 0 <= i < |searches| && searches[i](query).Ok? && 0 <= j < |searches[i](query).value|
        ensures HasUrl(r.value, searches[i](query).value[j].url)
      {
        if i == 0 {
          HasUrlPrefix(merged, r.value, items[j].url);
        } else {
          assert searches[i] == rest[i - 1];
        }
      }
    }
  }

  /** The entry at position `p` of a merge's result, taken over by the next indexers' merge. */
  lemma MergedEntryFromFirstSearch(
    infos: seq<NzbInfo>, merged: seq<NzbInfo>, r: seq<NzbInfo>,
    searches: seq<Bytes -> Result<seq<Newznab.SearchResponseItem>, Error>>,
    query: Bytes, newId: (nat, nat) -> Bytes, k: nat, p: int)
    requires |searches| > 0 && searches[0](query).Ok?
    requires merged == Merge(infos, searches[0](query).value, Ids(newId, k, |searches[0](query).value|))
    requires |merged| <= |r| && r[..|merged|] == merged
    requires |infos| <= p < |merged|
    ensures FromSearch(r[p], searches, query, newId, k)
  {
    var items := searches[0](query).value;
    var ids := Ids(newId, k, |items|);
    MergeSpec(infos, items, ids);
    assert r[p] == merged[p];
    var j :| 0 <= j < |items| && merged[p] == NewEntry(items[j], ids[j]);
    assert r[p] == NewEntry(searches[0](query).value[j], newId(k + 0, j));
  }

  /** An entry made from a later indexer's results, seen from the whole list of indexers. */
  lemma LaterEntryFromSearch(
    e: NzbInfo,
    searches: seq<Bytes -> Result<seq<Newznab.SearchResponseItem>, Error>>,
    query: Bytes, newId: (nat, nat) -> Bytes, k: nat)
    requires |searches| > 0
    requires FromSearch(e, searches[1..], query, newId, k + 1)
    ensures FromSearch(e, searches, query, newId, k)
  {
    var rest := searches[1..];
    var i, j :| 0 <= i < |rest| && rest[i](query).Ok? && 0 <= j < |rest[i](query).value|
                && e == NewEntry(rest[i](query).value[j], newId(k + 1 + i, j));
    assert searches[i + 1] == rest[i];
    assert e == NewEntry(searches[i + 1](query).value[j], newId(k + (i + 1), j));
  }

  /** After a successful merge of all indexers, every appended entry was made from a search result. */
  lemma {:induction false} MergeAllEntriesFromSearches(
    infos: seq<NzbInfo>,
    searches: seq<Bytes -> Result<seq<Newznab.SearchResponseItem>, Error>>,
    query: Bytes,
    newId: (nat, nat) -> Bytes,
    k: nat)
    ensures var r := MergeAll(infos, searches, query, newId, k);
            r.Ok? ==> forall p | |infos| <= p < |r.value| :: FromSearch(r.value[p], searches, query, newId, k)
    decreases |searches|
  {
    var r := MergeAll(infos, searches, query, newId, k);
    if |searches| > 0 && searches[0](query).Ok? && r.Ok? {
      var items := searches[0](query).value;
      var merged := Merge(infos, items, Ids(newId, k, |items|));
      var rest := searches[1..];
      assert r == MergeAll(merged, rest, query, newId, k + 1);
      MergeAllEntriesFromSearches(merged, rest, query, newId, k + 1);
      forall p | |infos| <= p < |r.value|
        ensures FromSearch(r.value[p], searches, query, newId, k)
      {
        if p < |merged| {
          MergedEntryFromFirstSearch(infos, merged, r.value, searches, query, newId, k, p);
        } else {
          LaterEntryFromSearch(r.value[p], searches, query, newId, k);
        }
      }
    }
  }

  /** The query the indexers get: the identifier without its "tt" prefix. */
  function IndexerQuery(identifier: Bytes): (q: Bytes)
    requires |identifier| >= 2
    ensures |q| + 2 == |identifier| && identifier == identifier[..2] + q
  {
    identifier[2..]
  }

  /** The query every indexer is sent; it is only computed when there is an indexer. */
  function SearchQuery(identifier: Bytes, searches: seq<Bytes -> Result<seq<Newznab.SearchResponseItem>, Error>>): Bytes
    requires |searches| > 0 ==> |identifier| >= 2
  {
    if |searches| > 0 then IndexerQuery(identifier) else []
  }

  /**
   * `movieAddHandler` without its HTTP plumbing: the returned database and
   * either the movie as stored or the first error. The stored record is
   * read under `identifier` but written under the IMDb id the metadata
   * service reports.
   */
  function AddMovie(
    db: Database.DB,
    codec: Codec<Movie>,
    identifier: Bytes,
    readSingle: Bytes -> Result<Details, Error>,
    searches: seq<Bytes -> Result<seq<Newznab.SearchResponseItem>, Error>>,
    newId: (nat, nat) -> Bytes)
    : (r: (Database.DB, Result<Movie, Error>))
    requires |searches| > 0 ==> |identifier| >= 2
    ensures r.1.Err? ==> r.0 == db
    ensures readSingle(identifier).Err? ==> r.1 == Err(Wrapped("tmdb.ReadSingleMovie", readSingle(identifier).error))
    ensures readSingle(identifier).Ok? && Database.Movie(db, codec, identifier).Err? ==>
              r.1 == Err(Wrapped("DB.Movie", Database.Movie(db, codec, identifier).error))
    ensures r.1.Ok? ==>
              && readSingle(identifier).Ok? && Database.Movie(db, codec, identifier).Ok?
              && var prev := Database.Movie(db, codec, identifier).value;
              && r.1.value == Refresh(r.1.value, readSingle(identifier).value)
              && |prev.nzbInfo| <= |r.1.value.nzbInfo|
              && r.1.value.nzbInfo[..|prev.nzbInfo|] == prev.nzbInfo
              && DatabaseMovie.Store(r.1.value, db, codec) == (r.0, None)
    ensures readSingle(identifier).Ok? && Database.Movie(db, codec, identifier).Ok? ==>
              var refreshed := Refresh(Database.Movie(db, codec, identifier).value, readSingle(identifier).value);
              var merged := MergeAll(refreshed.nzbInfo, searches, SearchQuery(identifier, searches), newId, 0);
              && (merged.Err? ==> r == (db, Err(merged.error)))
              && (merged.Ok? ==>
                    var m := refreshed.(nzbInfo := merged.value);
                    var stored := DatabaseMovie.Store(m, db, codec);
                    && (stored.1.None? ==> r == (stored.0, Ok(m)))
                    && (stored.1.Some? ==> r == (db, Err(Wrapped("database.Movie.Store", stored.1.value)))))
  {
    match readSingle(identifier)
    case Err(e) => (db, Err(Wrapped("tmdb.ReadSingleMovie", e)))
    case Ok(details) =>
      match Database.Movie(db, codec, identifier)
      case Err(e) => (db, Err(Wrapped("DB.Movie", e)))
      case Ok(stored) =>
        var refreshed := Refresh(stored, details);
        match MergeAll(refreshed.nzbInfo, searches, SearchQuery(identifier, searches), newId, 0)
        case Err(e) => (db, Err(e))
        case Ok(infos) =>
          var m := refreshed.(nzbInfo := infos);
          match DatabaseMovie.Store(m, db, codec)
          case (db', Some(e)) => (db, Err(Wrapped("database.Movie.Store", e)))
          case (db', None) => (db', Ok(m))
  }

  /** With a codec that round-trips, the added movie reads back under its IMDb id. */
  lemma AddedMovieReadsBack(
    db: Database.DB,
    codec: Codec<Movie>,
    identifier: Bytes,
    readSingle: Bytes -> Result<Details, Error>,
    searches: seq<Bytes -> Result<seq<Newznab.SearchResponseItem>, Error>>,
    newId: (nat, nat) -> Bytes)
    requires |searches| > 0 ==> |identifier| >= 2
    requires RoundTrips(codec)
    ensures var r := AddMovie(db, codec, identifier, readSingle, searches, newId);
            r.1.Ok? ==> Database.Movie(r.0, codec, readSingle(identifier).value.imdbId) == r.1
  {
    var r := AddMovie(db, codec, identifier, readSingle, searches, newId);
    if r.1.Ok? {
      DatabaseMovie.StoreThenRead(r.1.value, db, codec);
    }
  }

  /**
   * A successful addition lists every URL every indexer returned, and each
   * entry beyond the ones already stored was made from one of the results.
   */
  lemma AddedMovieListsEveryResult(
    db: Database.DB,
    codec: Codec<Movie>,
    identifier: Bytes,
    readSingle: Bytes -> Result<Details, Error>,
    searches: seq<Bytes -> Result<seq<Newznab.SearchResponseItem>, Error>>,
    newId: (nat, nat) -> Bytes)
    requires |searches| > 0 ==> |identifier| >= 2
    ensures var r := AddMovie(db, codec, identifier, readSingle, searches, newId);
            var q := SearchQuery(identifier, searches);
            r.1.Ok? ==>
            && (forall i | 0 <= i < |searches| :: searches[i](q).Ok?)
            && (forall i, j | 0 <= i < |searches| && searches[i](q).Ok? && 0 <= j < |searches[i](q).value| ::
                  HasUrl(r.1.value.nzbInfo, searches[i](q).value[j].url))
            && var prev := Database.Movie(db, codec, identifier).value.nzbInfo;
               forall p | |prev| <= p < |r.1.value.nzbInfo| :: FromSearch(r.1.value.nzbInfo[p], searches, q, newId, 0)
  {
    var r := AddMovie(db, codec, identifier, readSingle, searches, newId);
    if r.1.Ok? {
      var prev := Database.Movie(db, codec, identifier).value;
      var refreshed := Refresh(prev, readSingle(identifier).value);
      var q := SearchQuery(identifier, searches);
      MergeAllListsEveryUrl(refreshed.nzbInfo, searches, q, newId, 0);
      MergeAllEntriesFromSearches(refreshed.nzbInfo, searches, q, newId, 0);
    }
  }
}
