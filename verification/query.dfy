/**
 * The comparison engine (database/query.go): a typed predicate on one
 * field of a decoded record, and the conjunction of filters the store
 * applies to every candidate record.
 */
module Query {
  import opened Wrappers
  import opened ByteStrings
  import opened GoValues
  import opened Errors

  /** `type operator int` and its five named values. */
  const LessThan: int := 0
  const LessThanEq: int := 1
  const Equal: int := 2
  const GreaterThan: int := 3
  const GreaterThanEq: int := 4

  predicate KnownOperator(op: int) {
    LessThan <= op <= GreaterThanEq
  }

  /** An operator and its operand; the operand is any Go value. */
  datatype Comparison = Comparison(op: int, operand: GoValue)

  /**
   * A `Filter` is a Go `map[string]Comparison`; the model lists its
   * entries in the (unspecified) order a range over the map visits them.
   */
  type Filter = seq<(Bytes, Comparison)>

  /** A decoded record, addressed field by field. */
  type Record = map<Bytes, GoValue>

  /** The mathematical relation `a op b` an operator names. */
  predicate Relates(op: int, a: int, b: int)
    requires KnownOperator(op)
  {
    match op
    case 0 => a < b
    case 1 => a <= b
    case 2 => a == b
    case 3 => a > b
    case 4 => a >= b
  }

  /**
   * `Comparison.compare`: kinds must agree; strings support only `Equal`;
   * int32 supports the five operators with the OPERAND ON THE LEFT
   * (`operand < field` for `LessThan`); every other kind is refused, and
   * so is a value of a declared type whose type assertion would fail.
   */
  function Compare(c: Comparison, field: GoValue): (r: Result<bool, Error>)
    ensures KindOf(field) != KindOf(c.operand) ==> r == Err(KindMismatch(KindOf(field), KindOf(c.operand)))
    ensures field.StrVal? && c.operand.StrVal? ==>
              (r.Ok? <==> c.op == Equal) && (r.Ok? ==> (r.value <==> field.s == c.operand.s))
    ensures field.Int32Val? && c.operand.Int32Val? ==>
              (r.Ok? <==> KnownOperator(c.op)) && (r.Ok? ==> (r.value <==> Relates(c.op, c.operand.n, field.n)))
    ensures !field.StrVal? && !field.Int32Val? ==> r.Err?
    ensures r.Err? ==> r.error.KindMismatch? || r.error.NotImplemented?
  {
    var kind := KindOf(field);
    if kind != KindOf(c.operand) then Err(KindMismatch(kind, KindOf(c.operand)))
    else match field
      case StrVal(s) =>
        if c.op != Equal || !c.operand.StrVal? then Err(NotImplemented(kind, c.op)) else Ok(s == c.operand.s)
      case Int32Val(n) =>
        if !c.operand.Int32Val? then Err(NotImplemented(kind, c.op))
        else
        var o := c.operand.n;
        if c.op == Equal then Ok(o == n)
        else if c.op == LessThan then Ok(o < n)
        else if c.op == LessThanEq then Ok(o <= n)
        else if c.op == GreaterThan then Ok(o > n)
        else if c.op == GreaterThanEq then Ok(o >= n)
        else Err(NotImplemented(kind, c.op))
      case _ => Err(NotImplemented(kind, c.op))
  }

  /** An int32 operand equal to the field satisfies exactly the non-strict operators. */
  lemma CompareEqualOperand(op: int, x: int32)
    requires KnownOperator(op)
    ensures Compare(Comparison(op, Int32Val(x)), Int32Val(x))
            == Ok(op == Equal || op == LessThanEq || op == GreaterThanEq)
  {
  }

  /**
   * Because the operand sits on the left, `LessThan o` keeps fields greater
   * than `o`, and swapping field and operand turns each strict operator into
   * its mirror image.
   */
  lemma CompareOperandOnLeft(o: int32, f: int32)
    ensures Compare(Comparison(LessThan, Int32Val(o)), Int32Val(f)) == Ok(f > o)
    ensures Compare(Comparison(GreaterThan, Int32Val(o)), Int32Val(f)) == Ok(f < o)
    ensures Compare(Comparison(LessThan, Int32Val(o)), Int32Val(f))
            == Compare(Comparison(GreaterThan, Int32Val(f)), Int32Val(o))
  {
  }

  /** One entry of a filter: a missing field is an error, never a silent false. */
  function CheckEntry(rec: Record, entry: (Bytes, Comparison)): Result<bool, Error>
  {
    if entry.0 !in rec then Err(FieldNotFound(entry.0)) else Compare(entry.1, rec[entry.0])
  }

  /** Some entry of the filter cannot be evaluated. */
  predicate BrokenFilter(rec: Record, f: Filter) {
    exists j | 0 <= j < |f| :: CheckEntry(rec, f[j]).Err?
  }

  /** Every entry of the filter evaluates to true. */
  predicate FilterHolds(rec: Record, f: Filter) {
    forall j | 0 <= j < |f| :: CheckEntry(rec, f[j]) == Ok(true)
  }

  /** Some entry of some filter cannot be evaluated. */
  predicate Broken(rec: Record, fs: seq<Filter>) {
    exists i | 0 <= i < |fs| :: BrokenFilter(rec, fs[i])
  }

  /** Every entry of every filter evaluates to true. */
  predicate AllHold(rec: Record, fs: seq<Filter>) {
    forall i | 0 <= i < |fs| :: FilterHolds(rec, fs[i])
  }

  /**
   * One filter: every entry is evaluated; an error anywhere is reported
   * (the first one met), otherwise the verdict is the conjunction.
   */
  function CheckFilter(rec: Record, f: Filter): (r: Result<bool, Error>)
    ensures r.Err? <==> BrokenFilter(rec, f)
    ensures r.Ok? ==> (r.value <==> FilterHolds(rec, f))
  {
    if |f| == 0 then Ok(true)
    else
      var head := CheckEntry(rec, f[0]);
      var tail := CheckFilter(rec, f[1..]);
      assert forall j | 0 < j < |f| :: f[j] == f[1..][j - 1];
      if head.Err? then head
      else if tail.Err? then tail
      else Ok(head.value && tail.value)
  }

  /**
   * `checkFilters`: the filters are ANDed; an error in any of them is
   * reported, never folded into a false verdict.
   */
  function CheckFilters(rec: Record, fs: seq<Filter>): (r: Result<bool, Error>)
    ensures r.Err? <==> Broken(rec, fs)
    ensures r.Ok? ==> (r.value <==> AllHold(rec, fs))
  {
    if |fs| == 0 then Ok(true)
    else
      var head := CheckFilter(rec, fs[0]);
      var tail := CheckFilters(rec, fs[1..]);
      assert forall i | 0 < i < |fs| :: fs[i] == fs[1..][i - 1];
      if head.Err? then head
      else if tail.Err? then tail
      else Ok(head.value && tail.value)
  }

  /** The verdict does not depend on the order the filters' entries are visited in. */
  lemma CheckFilterOrderIrrelevant(rec: Record, f: Filter, g: Filter)
    requires multiset(f) == multiset(g)
    ensures CheckFilter(rec, f).Err? == CheckFilter(rec, g).Err?
    ensures CheckFilter(rec, f).Ok? ==> CheckFilter(rec, f) == CheckFilter(rec, g)
  {
    SameEntriesSameVerdict(rec, f, g);
    SameEntriesSameVerdict(rec, g, f);
  }

  lemma SameEntriesSameVerdict(rec: Record, f: Filter, g: Filter)
    requires multiset(f) == multiset(g)
    ensures BrokenFilter(rec, f) ==> BrokenFilter(rec, g)
    ensures FilterHolds(rec, g) ==> FilterHolds(rec, f)
  {
    if BrokenFilter(rec, f) {
      var j :| 0 <= j < |f| && CheckEntry(rec, f[j]).Err?;
      assert f[j] in multiset(g);
      var k :| 0 <= k < |g| && g[k] == f[j];
    }
    if FilterHolds(rec, g) {
      forall j | 0 <= j < |f|
        ensures CheckEntry(rec, f[j]) == Ok(true)
      {
        assert f[j] in multiset(g);
        var k :| 0 <= k < |g| && g[k] == f[j];
      }
    }
  }

  /** A record with the two fields `ID` (string) and `Number` (int32). */
  function TestRecord(id: Bytes, number: int32): (r: Record)
    ensures Ascii("ID") in r && Ascii("Number") in r
  {
    map[Ascii("ID") := StrVal(id), Ascii("Number") := Int32Val(number)]
  }

  function Single(name: Bytes, op: int, operand: GoValue): Filter {
    [(name, Comparison(op, operand))]
  }

  /**
   * The table of checkFilters cases: {foo, 33} and {nothing, 42} against
   * string equality, a kind mismatch, and the five int32 operators at 42.
   */
  lemma CheckFiltersTable()
    ensures var foo := Ascii("foo");
            var e0 := TestRecord(foo, 33);
            var e1 := TestRecord(Ascii("nothing"), 42);
            var strEqual := Single(Ascii("ID"), Equal, StrVal(foo));
            var number := Ascii("Number");
            && CheckFilters(e0, [strEqual]) == Ok(true)
            && CheckFilters(e1, [strEqual]) == Ok(false)
            && CheckFilters(e0, [Single(Ascii("ID"), Equal, Int32Val(8))]).Err?
            && CheckFilters(e1, [Single(number, Equal, Int32Val(42))]) == Ok(true)
            && CheckFilters(e1, [Single(number, LessThan, Int32Val(42))]) == Ok(false)
            && CheckFilters(e1, [Single(number, GreaterThan, Int32Val(41)),
                                 Single(number, LessThan, Int32Val(43))]) == Ok(false)
            && CheckFilters(e1, [Single(number, LessThanEq, Int32Val(42))]) == Ok(true)
            && CheckFilters(e1, [Single(number, GreaterThanEq, Int32Val(42))]) == Ok(true)
  {
    var foo := Ascii("foo");
    var nothing := Ascii("nothing");
    assert foo != nothing by {
      assert |foo| != |nothing|;
    }
  }
}
