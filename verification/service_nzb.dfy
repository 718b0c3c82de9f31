/**
 * Sending a release to the downloader (service/nzb.go, `nzbDownload`):
 * find the movie holding the requested NzbInfo id, hand that entry's URL
 * to the downloader, mark the entry as snatched with the first id the
 * downloader returns, and store the movie again. The downloader is a
 * function passed in; the URLs handed to it are returned beside the outcome.
 */
module ServiceNzb {
  import opened Wrappers
  import opened ByteStrings
  import opened Errors
  import opened MovieRecord
  import opened Codecs
  import Database
  import DatabaseMovie

  /** What the handler answers, apart from the bytes it writes. */
  datatype Outcome = NotFoundPage | Failure(error: Error) | Snatched(movie: Movie)

  /** Entry `i` carries `id` and no later entry does. */
  predicate LastWithId(infos: seq<NzbInfo>, id: Bytes, i: int) {
    0 <= i < |infos| && infos[i].id == id && forall j | i < j < |infos| :: infos[j].id != id
  }

  /** The position of the last entry carrying `id`, or -1 when none does. */
  function LastIndex(infos: seq<NzbInfo>, id: Bytes): (i: int)
    ensures -1 <= i < |infos|
    ensures i == -1 <==> forall j | 0 <= j < |infos| :: infos[j].id != id
    ensures i >= 0 ==> LastWithId(infos, id, i)
  {
    if |infos| == 0 then -1
    else
      var n := |infos| - 1;
      if infos[n].id == id then n
      else
        assert forall j | 0 <= j < n :: infos[..n][j] == infos[j];
        LastIndex(infos[..n], id)
  }

  /**
   * The selection loop: every matching entry overwrites the pointer, so the
   * entry selected is the last one carrying `id`.
   */
  function SelectEntry(infos: seq<NzbInfo>, id: Bytes): (r: Option<NzbInfo>)
    ensures r.None? <==> forall i | 0 <= i < |infos| :: infos[i].id != id
    ensures r.Some? ==> LastWithId(infos, id, LastIndex(infos, id)) && r.value == infos[LastIndex(infos, id)]
  {
    var i := LastIndex(infos, id);
    if i < 0 then None else Some(infos[i])
  }

  /**
   * The same loop where `&info` is the address of the one loop variable
   * shared by all iterations (Go before 1.22): whenever any entry matches,
   * the pointer ends at the final element of the list.
   */
  function SelectAliased(infos: seq<NzbInfo>, id: Bytes): (r: Option<NzbInfo>)
    ensures r.None? <==> forall i | 0 <= i < |infos| :: infos[i].id != id
    ensures r.Some? ==> r.value == infos[|infos| - 1]
  {
    if exists i | 0 <= i < |infos| :: infos[i].id == id then Some(infos[|infos| - 1]) else None
  }

  /** The selected entry after the downloader accepted it: status "snatched", the downloader's id. */
  function Mark(e: NzbInfo, downloaderId: Bytes): (r: NzbInfo)
    ensures r.status == StatusSnatched && r.downloaderId == downloaderId
    ensures r.id == e.id && r.url == e.url && r.title == e.title && r.guid == e.guid && r.size == e.size
  {
    e.(downloaderId := downloaderId, status := StatusSnatched)
  }

  /** The rebuild loop: entries carrying the updated entry's id are replaced by it, the rest kept. */
  function Rebuild(infos: seq<NzbInfo>, updated: NzbInfo): (r: seq<NzbInfo>)
    ensures |r| == |infos|
    ensures forall i | 0 <= i < |infos| :: infos[i].id != updated.id ==> r[i] == infos[i]
    ensures forall i | 0 <= i < |infos| :: infos[i].id == updated.id ==> r[i] == updated
  {
    if |infos| == 0 then []
    else
      var n := |infos| - 1;
      assert forall i | 0 <= i < n :: infos[..n][i] == infos[i];
      Rebuild(infos[..n], updated) + [if infos[n].id != updated.id then infos[n] else updated]
  }

  /** Rebuilding twice with the same entry changes nothing more. */
  lemma RebuildIdempotent(infos: seq<NzbInfo>, updated: NzbInfo)
    ensures Rebuild(Rebuild(infos, updated), updated) == Rebuild(infos, updated)
  {
    var once := Rebuild(infos, updated);
    var twice := Rebuild(once, updated);
    assert forall i | 0 <= i < |once| :: twice[i] == once[i];
  }

  /** After the rebuild, selecting the id again yields the updated entry. */
  lemma SelectAfterRebuild(infos: seq<NzbInfo>, id: Bytes, downloaderId: Bytes)
    requires SelectEntry(infos, id).Some?
    ensures var updated := Mark(SelectEntry(infos, id).value, downloaderId);
            SelectEntry(Rebuild(infos, updated), id) == Some(updated)
  {
    var updated := Mark(SelectEntry(infos, id).value, downloaderId);
    var r := Rebuild(infos, updated);
    var i := LastIndex(infos, id);
    assert r[i] == updated;
    var k := LastIndex(r, id);
  }

  /** Two entries where the second does not carry the requested id. */
  function WrongEntryList(): seq<NzbInfo> {
    [NzbInfo([], Ascii("a"), 1, StatusUnknown, Ascii("first"), Ascii("u1"), []),
     NzbInfo([], Ascii("b"), 2, StatusUnknown, Ascii("second"), Ascii("u2"), [])]
  }

  /**
   * With the aliased pointer, asking for "a" sends the second entry's URL
   * to the downloader and marks the second entry, leaving the requested
   * one untouched.
   */
  lemma AliasedSelectsWrongEntry()
    ensures var infos := WrongEntryList();
            && SelectEntry(infos, Ascii("a")) == Some(infos[0])
            && SelectAliased(infos, Ascii("a")) == Some(infos[1])
            && infos[1].id != Ascii("a") && infos[1].url != infos[0].url
            && Rebuild(infos, Mark(infos[1], Ascii("d")))[0] == infos[0]
  {
    var infos := WrongEntryList();
    assert infos[0].id == Ascii("a");
    assert infos[1].id != Ascii("a") by {
      assert infos[1].id[0] != Ascii("a")[0];
    }
    assert infos[1].url != infos[0].url by {
      assert infos[1].url[1] != infos[0].url[1];
    }
  }

  /** A movie the lookup returns with a non-empty title holds the requested id. */
  lemma FoundMovieHoldsEntry(db: Database.DB, codec: Codec<Movie>, id: Bytes)
    requires Database.MovieWithNzbID(db, codec, id).Ok?
    requires Database.MovieWithNzbID(db, codec, id).value.title != []
    ensures SelectEntry(Database.MovieWithNzbID(db, codec, id).value.nzbInfo, id).Some?
  {
  }

  /**
   * `nzbDownload` without its HTTP plumbing: the database afterwards, the
   * outcome, and the URLs handed to the downloader.
   */
  function NzbDownload(db: Database.DB, codec: Codec<Movie>, nzbID: Bytes, addUrl: Bytes -> Result<seq<Bytes>, Error>)
    : (r: (Database.DB, Outcome, seq<Bytes>))
    ensures !r.1.Snatched? ==> r.0 == db
    ensures |r.2| <= 1
    ensures r.1.NotFoundPage? ==> r.2 == []
    ensures Database.MovieWithNzbID(db, codec, nzbID).Err? ==>
              r == (db, Failure(Wrapped("database.MovieWithNzbID", Database.MovieWithNzbID(db, codec, nzbID).error)), [])
    ensures Database.MovieWithNzbID(db, codec, nzbID).Ok? && Database.MovieWithNzbID(db, codec, nzbID).value.title == [] ==>
              r == (db, NotFoundPage, [])
    ensures |r.2| == 1 ==>
              && Database.MovieWithNzbID(db, codec, nzbID).Ok?
              && var movie := Database.MovieWithNzbID(db, codec, nzbID).value;
              && SelectEntry(movie.nzbInfo, nzbID).Some?
              && var nzb := SelectEntry(movie.nzbInfo, nzbID).value;
              && r.2 == [nzb.url]
              && (addUrl(nzb.url) == Ok([]) ==> r.1 == Failure(NoIds))
              && (r.1.Snatched? ==>
                    && addUrl(nzb.url).Ok? && |addUrl(nzb.url).value| >= 1
                    && r.1.movie == movie.(nzbInfo := Rebuild(movie.nzbInfo, Mark(nzb, addUrl(nzb.url).value[0])))
                    && DatabaseMovie.Store(r.1.movie, db, codec) == (r.0, None))
    ensures r.1.Snatched? ==> |r.2| == 1
    ensures var found := Database.MovieWithNzbID(db, codec, nzbID);
            found.Ok? && found.value.title != [] ==>
              match SelectEntry(found.value.nzbInfo, nzbID)
              case None => r == (db, NotFoundPage, [])
              case Some(nzb) =>
                && r.2 == [nzb.url]
                && match addUrl(nzb.url)
                   case Err(e) => r.0 == db && r.1 == Failure(Wrapped("Sabnzbd.AddUrl", e))
                   case Ok(ids) =>
                     if |ids| == 0 then r.0 == db && r.1 == Failure(NoIds)
                     else
                       var m := found.value.(nzbInfo := Rebuild(found.value.nzbInfo, Mark(nzb, ids[0])));
                       match DatabaseMovie.Store(m, db, codec)
                       case (db', None) => r.0 == db' && r.1 == Snatched(m)
                       case (_, Some(e)) => r.0 == db && r.1 == Failure(Wrapped("movie.Store", e))
  {
    match Database.MovieWithNzbID(db, codec, nzbID)
    case Err(e) => (db, Failure(Wrapped("database.MovieWithNzbID", e)), [])
    case Ok(movie) =>
      if movie.title == [] then (db, NotFoundPage, [])
      else
        match SelectEntry(movie.nzbInfo, nzbID)
        case None => (db, NotFoundPage, [])
        case Some(nzb) =>
          match addUrl(nzb.url)
          case Err(e) => (db, Failure(Wrapped("Sabnzbd.AddUrl", e)), [nzb.url])
          case Ok(ids) =>
            if |ids| < 1 then (db, Failure(NoIds), [nzb.url])
            else
              var m := movie.(nzbInfo := Rebuild(movie.nzbInfo, Mark(nzb, ids[0])));
              match DatabaseMovie.Store(m, db, codec)
              case (_, Some(e)) => (db, Failure(Wrapped("movie.Store", e)), [nzb.url])
              case (db', None) => (db', Snatched(m), [nzb.url])
  }

  /** With a codec that round-trips, the snatched movie reads back with the entry marked. */
  lemma SnatchedMovieReadsBack(db: Database.DB, codec: Codec<Movie>, nzbID: Bytes, addUrl: Bytes -> Result<seq<Bytes>, Error>)
    requires RoundTrips(codec)
    ensures var r := NzbDownload(db, codec, nzbID, addUrl);
            r.1.Snatched? ==>
            && Database.Movie(r.0, codec, r.1.movie.imdbId) == Ok(r.1.movie)
            && SelectEntry(r.1.movie.nzbInfo, nzbID).value.status == StatusSnatched
  {
    var r := NzbDownload(db, codec, nzbID, addUrl);
    if r.1.Snatched? {
      var movie := Database.MovieWithNzbID(db, codec, nzbID).value;
      var nzb := SelectEntry(movie.nzbInfo, nzbID).value;
      SelectAfterRebuild(movie.nzbInfo, nzbID, addUrl(nzb.url).value[0]);
      DatabaseMovie.StoreThenRead(r.1.movie, db, codec);
    }
  }
}
