/**
 * Struct-to-query injection for the downloader's HTTP API
 * (sabnzbd/injectquery.go). A struct is the list of its fields in
 * declaration order, each with its Go name, the value of its `query_name`
 * tag and its value; a URL query (`url.Values`) maps each key to its list
 * of values.
 */
module InjectQuery {
  import opened Wrappers
  import opened ByteStrings
  import opened GoValues
  import opened Errors
  import opened Decimal

  const Comma: byte := 44
  const LeftAngle: byte := 60
  const RightAngle: byte := 62

  /** The position of the first `b` in `s`, or `|s|` when there is none. */
  function IndexOf(s: Bytes, b: byte): (i: nat)
    ensures i <= |s|
    ensures forall j | 0 <= j < i :: s[j] != b
    ensures i < |s| ==> s[i] == b
    ensures i == |s| <==> b !in s
  {
    if |s| == 0 then 0 else if s[0] == b then 0 else 1 + IndexOf(s[1..], b)
  }

  /** `strings.Split(s, sep)` for a one-byte separator: always at least one piece. */
  function Split(s: Bytes, sep: byte): (r: seq<Bytes>)
    ensures |r| >= 1
    ensures forall i | 0 <= i < |r| :: sep !in r[i]
    decreases |s|
  {
    if sep !in s then [s]
    else
      var i := IndexOf(s, sep);
      [s[..i]] + Split(s[i + 1..], sep)
  }

  /** `strings.Join(parts, sep)`. */
  function Join(parts: seq<Bytes>, sep: byte): Bytes
    requires |parts| >= 1
  {
    if |parts| == 1 then parts[0] else parts[0] + [sep] + Join(parts[1..], sep)
  }

  /** Joining the pieces with the separator gives the string back. */
  lemma {:induction false} SplitJoin(s: Bytes, sep: byte)
    ensures Join(Split(s, sep), sep) == s
    decreases |s|
  {
    if sep in s {
      var i := IndexOf(s, sep);
      var rest := Split(s[i + 1..], sep);
      SplitJoin(s[i + 1..], sep);
      assert Split(s, sep) == [s[..i]] + rest;
      assert ([s[..i]] + rest)[1..] == rest;
      assert s == s[..i] + [sep] + s[i + 1..];
    }
  }

  /** In a piece followed by the separator, the first separator is the one after the piece. */
  lemma {:induction false} IndexAfterPiece(piece: Bytes, sep: byte, rest: Bytes)
    requires sep !in piece
    ensures IndexOf(piece + [sep] + rest, sep) == |piece|
  {
    if |piece| > 0 {
      var s := piece + [sep] + rest;
      assert s[1..] == piece[1..] + [sep] + rest;
      IndexAfterPiece(piece[1..], sep, rest);
    }
  }

  /** A separator-free piece followed by the separator splits off as the first piece. */
  lemma SplitCons(piece: Bytes, sep: byte, rest: Bytes)
    requires sep !in piece
    ensures Split(piece + [sep] + rest, sep) == [piece] + Split(rest, sep)
  {
    var s := piece + [sep] + rest;
    IndexAfterPiece(piece, sep, rest);
    assert s[|piece|] == sep;
    assert s[..|piece|] == piece && s[|piece| + 1..] == rest;
  }

  /** Splitting a join of separator-free pieces gives the pieces back. */
  lemma {:induction false} JoinSplit(parts: seq<Bytes>, sep: byte)
    requires |parts| >= 1
    requires forall i | 0 <= i < |parts| :: sep !in parts[i]
    ensures Split(Join(parts, sep), sep) == parts
  {
    if |parts| > 1 {
      var tail := parts[1..];
      assert forall i | 0 <= i < |tail| :: tail[i] == parts[i + 1];
      JoinSplit(tail, sep);
      assert sep !in parts[0];
      SplitCons(parts[0], sep, Join(tail, sep));
      assert parts == [parts[0]] + tail;
    }
  }

  /**
   * `asString`: it switches on the exact dynamic type, so strings are kept
   * as they are, Go's three signed integer types are written in decimal,
   * and anything else, a declared type over `int32` included, is written as
   * its type name in angle brackets.
   */
  function AsString(v: GoValue): (r: Bytes)
    ensures v.StrVal? ==> r == v.s
    ensures v.IntVal? || v.Int64Val? ==> Atoi(r) == Some(v.i)
    ensures v.Int32Val? ==> Atoi(r) == Some(v.n)
    ensures v.StructVal? || v.OtherVal? || v.NamedVal? ==>
              |r| >= 2 && r[0] == LeftAngle && r[|r| - 1] == RightAngle && r[1..|r| - 1] == v.typeName
  {
    match v
    case StrVal(s) => s
    case IntVal(n) => ItoaAtoi(n); Itoa(n)
    case Int32Val(n) => ItoaAtoi(n); Itoa(n)
    case Int64Val(n) => ItoaAtoi(n); Itoa(n)
    case StructVal(t, _) => [LeftAngle] + t + [RightAngle]
    case OtherVal(_, t) => [LeftAngle] + t + [RightAngle]
    case NamedVal(t, _) => [LeftAngle] + t + [RightAngle]
  }

  /** `url.Values`: each key's list of values. */
  type Values = map<Bytes, seq<Bytes>>

  /**
   * The query key a field is written under: the tag's first comma-separated
   * piece, the Go field name when that piece is empty, and none when it is "-".
   */
  function KeyOf(f: Field): (r: Option<Bytes>)
    ensures r.None? <==> Split(f.tag, Comma)[0] == Ascii("-")
    ensures r.Some? ==> Comma !in r.value || r.value == f.name
    ensures r.Some? && r.value != f.name ==> 0 < |r.value| <= |f.tag| && r.value == f.tag[..|r.value|]
  {
    var piece := Split(f.tag, Comma)[0];
    SplitJoin(f.tag, Comma);
    PiecePrefix(Split(f.tag, Comma), Comma);
    if piece == Ascii("-") then None
    else if piece == [] then Some(f.name)
    else Some(piece)
  }

  /** The first piece of a list is a prefix of its join. */
  lemma PiecePrefix(parts: seq<Bytes>, sep: byte)
    requires |parts| >= 1
    ensures |parts[0]| <= |Join(parts, sep)| && Join(parts, sep)[..|parts[0]|] == parts[0]
  {
  }

  /** Options after the first comma, such as `omitempty`, never change the key. */
  lemma KeyIgnoresOptions(name: Bytes, key: Bytes, options: Bytes, v: GoValue)
    requires Comma !in key && key != Ascii("-")
    ensures KeyOf(Field(name, key + [Comma] + options, v)) == KeyOf(Field(name, key, v))
    ensures KeyOf(Field(name, key, v)) == Some(if key == [] then name else key)
  {
    var tag := key + [Comma] + options;
    IndexAfterPiece(key, Comma, options);
    assert tag[|key|] == Comma;
    assert tag[..|key|] == key;
  }

  /** `query.Set(key, asString(value))` for one field, unless its tag says "-". */
  function Write(q: Values, f: Field): (r: Values)
  {
    match KeyOf(f)
    case None => q
    case Some(k) => q[k := [AsString(f.value)]]
  }

  /** Field `j` writes key `k` and no later field does. */
  ghost predicate WritesLast(fs: seq<Field>, k: Bytes, j: int) {
    0 <= j < |fs| && KeyOf(fs[j]) == Some(k) && forall j' | j < j' < |fs| :: KeyOf(fs[j']) != Some(k)
  }

  /** No field writes key `k`. */
  ghost predicate Untouched(fs: seq<Field>, k: Bytes) {
    forall j | 0 <= j < |fs| :: KeyOf(fs[j]) != Some(k)
  }

  /** The loop of `InjectQuery` over the fields in declaration order. */
  function InjectFields(q: Values, fs: seq<Field>): Values
  {
    if |fs| == 0 then q else Write(InjectFields(q, fs[..|fs| - 1]), fs[|fs| - 1])
  }

  /**
   * Each written key ends with exactly one value, the last writer's; keys
   * no field writes keep what they had; no other key appears.
   */
  lemma {:induction false} InjectFieldsLastWins(q: Values, fs: seq<Field>)
    ensures forall k | k in q :: k in InjectFields(q, fs)
    ensures forall k | k in InjectFields(q, fs) && k !in q :: !Untouched(fs, k)
    ensures forall k, j | WritesLast(fs, k, j) :: k in InjectFields(q, fs) && InjectFields(q, fs)[k] == [AsString(fs[j].value)]
    ensures forall k | k in q && Untouched(fs, k) :: InjectFields(q, fs)[k] == q[k]
  {
    if |fs| > 0 {
      var init := fs[..|fs| - 1];
      var last := fs[|fs| - 1];
      var before := InjectFields(q, init);
      var r := InjectFields(q, fs);
      assert r == Write(before, last);
      InjectFieldsLastWins(q, init);
      forall k, j | WritesLast(fs, k, j)
        ensures k in r && r[k] == [AsString(fs[j].value)]
      {
        if j < |fs| - 1 {
          assert WritesLast(init, k, j) by {
            forall j' | j < j' < |init| ensures KeyOf(init[j']) != Some(k) {
              assert init[j'] == fs[j'];
            }
          }
        }
      }
      forall k | k in q && Untouched(fs, k)
        ensures r[k] == q[k]
      {
        assert KeyOf(fs[|fs| - 1]) != Some(k);
        assert Untouched(init, k) by {
          forall j | 0 <= j < |init| ensures KeyOf(init[j]) != Some(k) {
            assert init[j] == fs[j];
          }
        }
      }
      forall k | k in r && k !in q
        ensures !Untouched(fs, k)
      {
        if KeyOf(last) != Some(k) {
          assert k in before && !Untouched(init, k);
          var j :| 0 <= j < |init| && KeyOf(init[j]) == Some(k);
          assert init[j] == fs[j];
        }
      }
    }
  }

  /**
   * `InjectQuery`: a value whose kind is not struct is refused and the query is
   * left as it was; a declared type over a struct is injected like the struct.
   */
  function Inject(q: Values, s: GoValue): (r: Result<Values, Error>)
    ensures r.Err? <==> !Base(s).StructVal?
    ensures r.Err? ==> r.error == InvalidParameterKind(KindOf(s)) && !r.error.kind.Struct?
    ensures r.Ok? ==> r.value == InjectFields(q, Base(s).fields)
  {
    if !KindOf(s).Struct? then Err(InvalidParameterKind(KindOf(s))) else Ok(InjectFields(q, Base(s).fields))
  }

  /** Declaring a type over another changes nothing about what is injected. */
  lemma InjectSeesThroughDeclaredTypes(q: Values, t: Bytes, s: GoValue)
    ensures Inject(q, NamedVal(t, s)) == Inject(q, s)
    ensures s.StructVal? ==> Inject(q, NamedVal(t, s)) == Ok(InjectFields(q, s.fields))
  {
  }

  /** A URL with its query already decoded; `rest` stands for scheme, host and path. */
  datatype Url = Url(rest: Bytes, query: Values)

  /** `InjectInUrl`: the query is replaced only when the injection succeeds. */
  function InjectInUrl(u: Url, s: GoValue): (r: Result<Url, Error>)
    ensures r.Err? <==> !KindOf(s).Struct?
    ensures r.Err? ==> r.error == Wrapped("InjectQuery", InvalidParameterKind(KindOf(s)))
    ensures r.Ok? ==> r.value.rest == u.rest && Inject(u.query, s) == Ok(r.value.query)
  {
    match Inject(u.query, s)
    case Err(e) => Err(Wrapped("InjectQuery", e))
    case Ok(q) => Ok(u.(query := q))
  }

  /** The struct of the URL-injection test: `str` = "luke", `test` = 42, `Bar` = "bar". */
  function TestStruct(): GoValue {
    StructVal(Ascii("Foo"), [
      Field(Ascii("StrParam"), Ascii("str"), StrVal(Ascii("luke"))),
      Field(Ascii("IntParam"), Ascii("test"), Int32Val(42)),
      Field(Ascii("Bar"), [], StrVal(Ascii("bar")))])
  }

  /** The keys the three test fields are written under. */
  lemma TestStructKeys()
    ensures var fs := TestStruct().fields;
            && KeyOf(fs[0]) == Some(Ascii("str"))
            && KeyOf(fs[1]) == Some(Ascii("test"))
            && KeyOf(fs[2]) == Some(Ascii("Bar"))
  {
    var fs := TestStruct().fields;
    KeyIgnoresOptions(fs[0].name, fs[0].tag, [], fs[0].value);
    KeyIgnoresOptions(fs[1].name, fs[1].tag, [], fs[1].value);
    KeyIgnoresOptions(fs[2].name, fs[2].tag, [], fs[2].value);
  }

  /** The decimal rendering of the test's int32 field. */
  lemma TestStructValues()
    ensures AsString(TestStruct().fields[1].value) == Ascii("42")
  {
    assert Decimal.Digits(42) == Decimal.Digits(4) + [Decimal.Zero + 2];
  }

  /** The injection writes exactly the keys `Bar`, `str` and `test`, with values `bar`, `luke` and `42`. */
  lemma InjectTestStruct()
    ensures var r := InjectInUrl(Url([], map[]), TestStruct());
            && r.Ok?
            && r.value.query == map[Ascii("str") := [Ascii("luke")], Ascii("test") := [Ascii("42")],
                                    Ascii("Bar") := [Ascii("bar")]]
  {
    var fs := TestStruct().fields;
    TestStructKeys();
    TestStructValues();
    var m1 := Write(map[], fs[0]);
    var m2 := Write(m1, fs[1]);
    var m3 := Write(m2, fs[2]);
    assert m3 == map[Ascii("str") := [Ascii("luke")], Ascii("test") := [Ascii("42")], Ascii("Bar") := [Ascii("bar")]];
    assert fs[..1][..0] == [] && fs[..2][..1] == fs[..1] && fs[..2] == fs[..|fs| - 1];
    assert InjectFields(map[], fs[..1]) == m1;
    assert InjectFields(map[], fs[..2]) == m2;
    assert InjectFields(map[], fs) == m3;
  }

  /**
   * A field tagged `",omitempty"` with an empty value is still written,
   * under its Go name and with the empty string.
   */
  lemma OmitEmptyIsIgnored(q: Values)
    ensures var f := Field(Ascii("Something"), Ascii(",omitempty"), StrVal([]));
            InjectFields(q, [f]) == q[Ascii("Something") := [[]]]
  {
    KeyIgnoresOptions(Ascii("Something"), [], Ascii("omitempty"), StrVal([]));
    assert Ascii(",omitempty") == [] + [Comma] + Ascii("omitempty");
  }

  /** A tag that is its own key: no options, not empty and not "-". */
  predicate PlainTag(t: Bytes) {
    t != [] && Comma !in t && t != Ascii("-")
  }

  /**
   * When every field has a plain tag and no two fields share one, each
   * field's value ends up under its tag and every other key keeps its value.
   */
  lemma PlainTagsWritten(q: Values, fs: seq<Field>)
    requires forall j | 0 <= j < |fs| :: PlainTag(fs[j].tag)
    requires forall i, j | 0 <= i < j < |fs| :: fs[i].tag != fs[j].tag
    ensures forall j | 0 <= j < |fs| ::
              fs[j].tag in InjectFields(q, fs) && InjectFields(q, fs)[fs[j].tag] == [AsString(fs[j].value)]
    ensures forall k | k in q :: k in InjectFields(q, fs)
    ensures forall k | k in q && (forall j | 0 <= j < |fs| :: fs[j].tag != k) :: InjectFields(q, fs)[k] == q[k]
  {
    forall j | 0 <= j < |fs| ensures KeyOf(fs[j]) == Some(fs[j].tag) {
      KeyIgnoresOptions(fs[j].name, fs[j].tag, [], fs[j].value);
    }
    InjectFieldsLastWins(q, fs);
    forall j | 0 <= j < |fs| ensures WritesLast(fs, fs[j].tag, j) {
    }
    forall k | k in q && (forall j | 0 <= j < |fs| :: fs[j].tag != k) ensures Untouched(fs, k) {
    }
  }

  /** `sabnzbd.PriorityType`, declared as `type PriorityType int32`. */
  function PriorityTypeName(): Bytes {
    Ascii("sabnzbd.PriorityType")
  }

  /** The value of the `Priority` field: an `int32` under the declared type. */
  function PriorityValue(n: int32): GoValue {
    NamedVal(PriorityTypeName(), Int32Val(n))
  }

  /** `AddUrlParams`: what the downloader's `addurl` call is given. */
  datatype AddUrlParams = AddUrlParams(
    name: Bytes,
    nzbName: Bytes,
    password: Bytes,
    category: Bytes,
    script: Bytes,
    priority: int32,
    pp: int32)

  /** The query keys the `AddUrl` code sets by name. */
  function ModeKey(): Bytes { Ascii("mode") }
  function NameTag(): Bytes { Ascii("name") }
  function PriorityTag(): Bytes { Ascii("priority") }
  function PpTag(): Bytes { Ascii("pp") }

  /** The tags of the seven fields, in declaration order. */
  function AddUrlTags(): seq<Bytes> {
    [NameTag(), Ascii("nzbname"), Ascii("password"), Ascii("cat"), Ascii("script"), PriorityTag(), PpTag()]
  }

  /** The struct `InjectQuery` receives; `priority` is the value the `Priority` field holds. */
  function AddUrlStruct(p: AddUrlParams, priority: GoValue): (s: GoValue)
    ensures s.StructVal? && |s.fields| == 7
    ensures forall j | 0 <= j < 7 :: s.fields[j].tag == AddUrlTags()[j]
  {
    var t := AddUrlTags();
    StructVal(Ascii("sabnzbd.AddUrlParams"), [
      Field(Ascii("Name"), t[0], StrVal(p.name)),
      Field(Ascii("NzbName"), t[1], StrVal(p.nzbName)),
      Field(Ascii("Password"), t[2], StrVal(p.password)),
      Field(Ascii("Category"), t[3], StrVal(p.category)),
      Field(Ascii("Script"), t[4], StrVal(p.script)),
      Field(Ascii("Priority"), t[5], priority),
      Field(Ascii("PP"), t[6], Int32Val(p.pp))])
  }

  /** The seven tags are plain, pairwise distinct, and none is "mode". */
  lemma AddUrlTagsPlain()
    ensures forall j | 0 <= j < 7 :: PlainTag(AddUrlTags()[j])
    ensures forall i, j | 0 <= i < j < 7 :: AddUrlTags()[i] != AddUrlTags()[j]
    ensures ModeKey() !in AddUrlTags()
  {
    var t := AddUrlTags();
    forall j | 0 <= j < 7 ensures PlainTag(t[j]) {
      assert |t[j]| >= 2;
      forall i | 0 <= i < |t[j]| ensures t[j][i] != Comma {
      }
    }
    assert t[2][1] != t[5][1];
    forall j | 0 <= j < 7 ensures t[j] != ModeKey() {
      if |t[j]| == 4 {
        assert t[j][0] != ModeKey()[0];
      }
    }
  }

  /**
   * The query part of `AddUrl`: an empty name is refused; otherwise "mode"
   * is set to "addurl" and the struct built from `p` is injected, with
   * `priority` as the value of its `Priority` field.
   */
  function AddUrlWith(q: Values, p: AddUrlParams, priority: GoValue): (r: Result<Values, Error>)
    ensures r.Err? <==> p.name == []
    ensures r.Err? ==> r.error == NameRequired
    ensures r.Ok? ==>
              && ModeKey() in r.value && r.value[ModeKey()] == [Ascii("addurl")]
              && (forall j | 0 <= j < 7 :: AddUrlTags()[j] in r.value)
              && NameTag() in r.value && r.value[NameTag()] == [p.name]
              && PriorityTag() in r.value && r.value[PriorityTag()] == [AsString(priority)]
              && PpTag() in r.value && |r.value[PpTag()]| == 1 && Atoi(r.value[PpTag()][0]) == Some(p.pp)
              && forall k | k in q && k != ModeKey() && k !in AddUrlTags() :: k in r.value && r.value[k] == q[k]
  {
    if p.name == [] then Err(NameRequired)
    else
      var q' := q[ModeKey() := [Ascii("addurl")]];
      var s := AddUrlStruct(p, priority);
      AddUrlTagsPlain();
      PlainTagsWritten(q', s.fields);
      assert s.fields[0].tag == NameTag() && s.fields[5].tag == PriorityTag() && s.fields[6].tag == PpTag();
      assert forall j | 0 <= j < 7 :: s.fields[j].tag != ModeKey() by {
        forall j | 0 <= j < 7 ensures s.fields[j].tag != ModeKey() {
          assert AddUrlTags()[j] in AddUrlTags();
        }
      }
      assert InjectFields(q', s.fields)[ModeKey()] == q'[ModeKey()];
      ItoaAtoi(p.pp);
      Inject(q', s)
  }

  /** `AddUrl` as written: the `Priority` field keeps its declared type. */
  function AddUrlQuery(q: Values, p: AddUrlParams): (r: Result<Values, Error>)
    ensures r.Err? <==> p.name == []
    ensures r.Ok? ==> PriorityTag() in r.value && r.value[PriorityTag()] == [[LeftAngle] + PriorityTypeName() + [RightAngle]]
  {
    AddUrlWith(q, p, PriorityValue(p.priority))
  }

  /** `AddUrl` as evidently intended: the priority converted to its underlying `int32`. */
  function AddUrlQueryIntended(q: Values, p: AddUrlParams): (r: Result<Values, Error>)
    ensures r.Err? <==> p.name == []
    ensures r.Ok? ==> PriorityTag() in r.value && r.value[PriorityTag()] == [Itoa(p.priority)]
    ensures r.Ok? ==> Atoi(r.value[PriorityTag()][0]) == Some(p.priority)
  {
    assert Base(PriorityValue(p.priority)) == Int32Val(p.priority);
    AddUrlWith(q, p, Base(PriorityValue(p.priority)))
  }

  /**
   * The downloader is never sent a priority number: whatever priority is
   * asked for, the as-written query carries the type name, which does not
   * parse as a number, while the intended query carries the number.
   */
  lemma PriorityIsNotANumber(q: Values, p: AddUrlParams)
    requires p.name != []
    ensures Atoi(AddUrlQuery(q, p).value[PriorityTag()][0]).None?
    ensures AddUrlQuery(q, p).value[PriorityTag()] != AddUrlQueryIntended(q, p).value[PriorityTag()]
  {
    assert AddUrlQuery(q, p).value[PriorityTag()][0][0] == LeftAngle;
  }
}
