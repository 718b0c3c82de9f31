/**
 * Newznab search results (newznab/newznab.go): the `newznab:attr`
 * extension elements of a feed item folded into a name-to-value map, and
 * each feed item mapped to a search response item. The feed itself is
 * fetched and parsed by a function passed in.
 */
module Newznab {
  import opened Wrappers
  import opened ByteStrings
  import opened GoValues
  import opened Errors
  import Decimal

  /** One extension element: its XML attributes by name. */
  datatype Extension = Extension(attrs: map<Bytes, Bytes>)

  datatype Enclosure = Enclosure(url: Bytes)

  /** A parsed feed item; `extensions` maps namespace, then element name, to the elements. */
  datatype Item = Item(
    title: Bytes,
    guid: Bytes,
    extensions: map<Bytes, map<Bytes, seq<Extension>>>,
    enclosures: seq<Enclosure>)

  datatype SearchResponseItem = SearchResponseItem(guid: Bytes, title: Bytes, url: Bytes, size: int64)

  /** An indexer: its host and API key. */
  datatype Indexer = Indexer(apiKey: Bytes, host: Bytes)

  /** Go's `m[k]` on a string map: the empty string when `k` is absent. */
  function Lookup(m: map<Bytes, Bytes>, k: Bytes): (v: Bytes)
    ensures k in m ==> v == m[k]
    ensures k !in m ==> v == []
  {
    if k in m then m[k] else []
  }

  /** The name and value an extension element declares, each "" when missing. */
  function NameOf(e: Extension): Bytes {
    Lookup(e.attrs, Ascii("name"))
  }

  function ValueOf(e: Extension): Bytes {
    Lookup(e.attrs, Ascii("value"))
  }

  /** The `newznab:attr` elements of an item; none when either level is missing. */
  function AttrList(item: Item): (r: seq<Extension>)
    ensures Ascii("newznab") !in item.extensions ==> r == []
    ensures Ascii("newznab") in item.extensions && Ascii("attr") !in item.extensions[Ascii("newznab")] ==> r == []
  {
    var ns := Ascii("newznab");
    var attr := Ascii("attr");
    if ns in item.extensions && attr in item.extensions[ns] then item.extensions[ns][attr] else []
  }

  /** The loop of `parseAttrs` over the elements in order: a named element sets its name to its value. */
  function Fold(exts: seq<Extension>): map<Bytes, Bytes> {
    if |exts| == 0 then map[]
    else
      var before := Fold(exts[..|exts| - 1]);
      var e := exts[|exts| - 1];
      if NameOf(e) != [] then before[NameOf(e) := ValueOf(e)] else before
  }

  /** Element `j` declares name `k` and no later element does. */
  ghost predicate LastNamed(exts: seq<Extension>, k: Bytes, j: int) {
    0 <= j < |exts| && NameOf(exts[j]) == k && forall j' | j < j' < |exts| :: NameOf(exts[j']) != k
  }

  /**
   * The keys of the result are exactly the non-empty names declared, and
   * each maps to the value of the last element declaring it.
   */
  lemma {:induction false} FoldLastWins(exts: seq<Extension>)
    ensures forall k | k in Fold(exts) :: k != [] && exists j | 0 <= j < |exts| :: NameOf(exts[j]) == k
    ensures forall k, j | LastNamed(exts, k, j) && k != [] :: k in Fold(exts) && Fold(exts)[k] == ValueOf(exts[j])
  {
    if |exts| > 0 {
      var init := exts[..|exts| - 1];
      var last := exts[|exts| - 1];
      var before := Fold(init);
      var r := Fold(exts);
      assert r == if NameOf(last) != [] then before[NameOf(last) := ValueOf(last)] else before;
      FoldLastWins(init);
      forall k | k in r
        ensures k != [] && exists j | 0 <= j < |exts| :: NameOf(exts[j]) == k
      {
        if NameOf(last) != k {
          var j :| 0 <= j < |init| && NameOf(init[j]) == k;
          assert exts[j] == init[j];
        }
      }
      forall k, j | LastNamed(exts, k, j) && k != []
        ensures k in r && r[k] == ValueOf(exts[j])
      {
        if j < |exts| - 1 {
          assert LastNamed(init, k, j) by {
            forall j' | j < j' < |init| ensures NameOf(init[j']) != k {
              assert init[j'] == exts[j'];
            }
          }
        }
      }
    }
  }

  /** `parseAttrs`: a nil item is refused; otherwise the fold of its attribute elements. */
  function ParseAttrs(item: Option<Item>): (r: Result<map<Bytes, Bytes>, Error>)
    ensures item.None? <==> r == Err(NilItem)
    ensures r.Ok? ==> r.value == Fold(AttrList(item.value))
    ensures item.Some? && AttrList(item.value) == [] ==> r == Ok(map[])
  {
    match item
    case None => Err(NilItem)
    case Some(it) => Ok(Fold(AttrList(it)))
  }

  /** `Size`: the decimal parse of the `size` attribute when present and valid, otherwise 0. */
  function SizeOf(attrs: map<Bytes, Bytes>): (n: int64)
    ensures Lookup(attrs, Ascii("size")) == [] ==> n == 0
    ensures Decimal.Atoi(Lookup(attrs, Ascii("size"))).None? ==> n == 0
    ensures Decimal.Atoi(Lookup(attrs, Ascii("size"))).Some? ==> n == Decimal.Atoi(Lookup(attrs, Ascii("size"))).value
  {
    var s := Lookup(attrs, Ascii("size"));
    if s == [] then 0
    else
      match Decimal.Atoi(s)
      case None => 0
      case Some(v) => v
  }

  /** A size the indexer rendered in decimal is read back exactly. */
  lemma SizeRoundTrip(attrs: map<Bytes, Bytes>, n: int64)
    requires Ascii("size") in attrs && attrs[Ascii("size")] == Decimal.Itoa(n)
    ensures SizeOf(attrs) == n
  {
    Decimal.ItoaAtoi(n);
  }

  /** One response item: title and GUID copied, the first enclosure's URL or "". */
  function ToResponse(item: Item, attrs: map<Bytes, Bytes>): (r: SearchResponseItem)
    ensures r.title == item.title && r.guid == item.guid && r.size == SizeOf(attrs)
    ensures |item.enclosures| > 0 ==> r.url == item.enclosures[0].url
    ensures |item.enclosures| == 0 ==> r.url == []
  {
    SearchResponseItem(item.guid, item.title,
                       if |item.enclosures| > 0 then item.enclosures[0].url else [],
                       SizeOf(attrs))
  }

  /** The loop of `SearchImdb` over the feed's items; a nil item aborts the whole search. */
  function Responses(items: seq<Option<Item>>): (r: Result<seq<SearchResponseItem>, Error>)
    ensures r.Ok? <==> forall i | 0 <= i < |items| :: items[i].Some?
    ensures r.Err? ==> r.error == Wrapped("parseAttrs", NilItem)
    ensures r.Ok? ==> |r.value| == |items|
    ensures r.Ok? ==> forall i | 0 <= i < |items| ::
              r.value[i] == ToResponse(items[i].value, ParseAttrs(items[i]).value)
  {
    if |items| == 0 then Ok([])
    else
      assert forall i | 0 < i < |items| :: items[i] == items[1..][i - 1];
      match ParseAttrs(items[0])
      case Err(e) => Err(Wrapped("parseAttrs", e))
      case Ok(attrs) =>
        var rest := Responses(items[1..]);
        if rest.Err? then rest else Ok([ToResponse(items[0].value, attrs)] + rest.value)
  }

  /** The feed URL `SearchImdb` requests. */
  function RequestUrl(n: Indexer, imdbId: Bytes): (u: Bytes)
    ensures |u| > 7 + |n.host| && u[..7] == Ascii("http://") && u[7..7 + |n.host|] == n.host
  {
    var scheme := Ascii("http://");
    assert |scheme| == 7;
    scheme + n.host + Ascii("/api?imdbid=") + imdbId + Ascii("&apikey=") + n.apiKey
    + Ascii("&t=movie&extended=1")
  }

  /**
   * `SearchImdb`: fetch and parse the feed for the IMDb id (a failure is
   * wrapped), then one response item per feed item, in feed order.
   */
  function SearchImdb(n: Indexer, imdbId: Bytes, fetch: Bytes -> Result<seq<Option<Item>>, Error>)
    : (r: Result<seq<SearchResponseItem>, Error>)
    ensures fetch(RequestUrl(n, imdbId)).Err? ==> r == Err(Wrapped("fp.ParseURL", fetch(RequestUrl(n, imdbId)).error))
    ensures fetch(RequestUrl(n, imdbId)).Ok? ==> r == Responses(fetch(RequestUrl(n, imdbId)).value)
  {
    match fetch(RequestUrl(n, imdbId))
    case Err(e) => Err(Wrapped("fp.ParseURL", e))
    case Ok(items) => Responses(items)
  }
}
