/**
 * The persisted records (database/movie.go and models/movie.go declare the
 * same two structs) and the codec that turns them into stored bytes.
 */
module MovieRecord {
  import opened ByteStrings
  import opened GoValues

  /** One release an indexer offered for a movie, and its download state. */
  datatype NzbInfo = NzbInfo(
    guid: Bytes,
    id: Bytes,
    size: int64,
    status: Bytes,
    title: Bytes,
    url: Bytes,
    downloaderId: Bytes)

  datatype Movie = Movie(
    imdbId: Bytes,
    title: Bytes,
    overview: Bytes,
    releaseDate: Bytes,
    nzbInfo: seq<NzbInfo>)

  /** `Movie{}`: every string empty and no NzbInfo. */
  const ZeroMovie: Movie := Movie([], [], [], [], [])

  /** The `NzbStatus` values the program writes. */
  const StatusAvailable: Bytes := Ascii("available")
  const StatusSnatched: Bytes := Ascii("snatched")
  const StatusFailed: Bytes := Ascii("failed")
  const StatusSuccess: Bytes := Ascii("success")
  const StatusUnknown: Bytes := Ascii("unknown")
  const StatusError: Bytes := Ascii("error")

  /** Some entry of the movie's NzbInfo list carries `id`. */
  predicate HasNzb(m: Movie, id: Bytes) {
    exists i | 0 <= i < |m.nzbInfo| :: m.nzbInfo[i].id == id
  }
}

/**
 * The serialisation of records to stored bytes (JSON in the program),
 * kept abstract: a pair of total functions, either of which may fail.
 */
module Codecs {
  import opened Wrappers
  import opened ByteStrings

  datatype Codec<!T> = Codec(encode: T -> Option<Bytes>, decode: Bytes -> Option<T>)

  /** Whatever the codec encodes decodes back to the same value. */
  ghost predicate RoundTrips<T(!new)>(c: Codec<T>) {
    forall x :: c.encode(x).Some? ==> c.decode(c.encode(x).value) == Some(x)
  }
}
