/**
 * Product definitions `<id>:<name>` and the process-wide counter that hands out
 * synthetic (negative) product ids.
 */
module Products {
  import opened Results
  import opened DecimalText

  /** The errors `SetProductIDFromRaw` and `GetFakeProductID` throw. */
  datatype ProductError =
    | MalformedId               // the first field is not an integer
    | IdSpaceExhausted           // the synthetic-id counter reached int.MinValue

  /** The id and name of a loaded product; `name == None` stands for a null Name. */
  datatype ProductInfo = ProductInfo(id: int, name: Option<string>)

  /** The first position of `c` in `s`, as `String.IndexOf`. */
  function IndexOf(s: string, c: char): (r: Option<nat>)
    ensures r.Some? ==> r.value < |s| && s[r.value] == c && c !in s[..r.value]
    ensures r.None? ==> c !in s
  {
    if s == [] then None
    else if s[0] == c then Some(0)
    else
      match IndexOf(s[1..], c)
      case None => None
      case Some(i) =>
        assert s[..i + 1] == [s[0]] + s[1..][..i];
        Some(i + 1)
  }

  /** The separator is found right after a prefix that does not contain it. */
  lemma IndexOfAfter(a: string, sep: char, b: string)
    requires sep !in a
    ensures IndexOf(a + [sep] + b, sep) == Some(|a|)
  {
    var s := a + [sep] + b;
    assert s[|a|] == sep;
    assert forall k :: 0 <= k < |a| ==> s[k] == a[k];
    assert forall k :: |a| < k <= |s| ==> s[..k][|a|] == sep;
  }

  /** `String.Split(sep)`: the fields between the separators, in order. */
  function Split(s: string, sep: char): (fields: seq<string>)
    ensures |fields| >= 1
    ensures forall i :: 0 <= i < |fields| ==> sep !in fields[i]
    decreases |s|
  {
    match IndexOf(s, sep)
    case None => [s]
    case Some(i) => [s[..i]] + Split(s[i + 1..], sep)
  }

  /** The inverse of `Split`: the fields glued together with the separator. */
  function Join(fields: seq<string>, sep: char): string
    requires |fields| >= 1
  {
    if |fields| == 1 then fields[0] else fields[0] + [sep] + Join(fields[1..], sep)
  }

  /** Splitting loses nothing: joining the fields rebuilds the line. */
  lemma {:induction false} JoinSplit(s: string, sep: char)
    ensures Join(Split(s, sep), sep) == s
    decreases |s|
  {
    match IndexOf(s, sep)
    case None =>
    case Some(i) =>
      var rest := s[i + 1..];
      var f := Split(s, sep);
      assert f == [s[..i]] + Split(rest, sep);
      assert f[1..] == Split(rest, sep);
      JoinSplit(rest, sep);
      assert Join(f, sep) == s[..i] + [sep] + rest;
      assert s == s[..i] + [sep] + rest;
  }

  /** Splitting a join of separator-free fields gives those fields back. */
  lemma {:induction false} SplitJoin(fields: seq<string>, sep: char)
    requires |fields| >= 1
    requires forall i :: 0 <= i < |fields| ==> sep !in fields[i]
    ensures Split(Join(fields, sep), sep) == fields
  {
    if |fields| > 1 {
      var rest := Join(fields[1..], sep);
      IndexOfAfter(fields[0], sep, rest);
      var s := fields[0] + [sep] + rest;
      assert s[..|fields[0]|] == fields[0];
      assert s[|fields[0]| + 1..] == rest;
      SplitJoin(fields[1..], sep);
      assert fields == [fields[0]] + fields[1..];
    }
  }

  const FIELD_SEPARATOR: char := ':'

  /** The integer the first colon field declares, if it is one. */
  function DeclaredId(raw: string): Option<int>
  {
    ParseInt32(Split(raw, FIELD_SEPARATOR)[0])
  }

  /** The Name a definition assigns: the second field, trimmed; None when there is no colon. */
  function NameField(fields: seq<string>): Option<string>
  {
    if |fields| > 1 then Some(Trim(fields[1])) else None
  }

  /** What parsing one definition line yields and where it leaves the synthetic-id counter. */
  datatype Definition = Definition(outcome: Result<ProductInfo, ProductError>, counter: int)

  /**
   * The meaning of `SetProductIDFromRaw` on a fresh Product, with `counter` the
   * value of `_uniqueFakeProductID` before the call.
   */
  function ParseDefinition(raw: string, counter: int): Definition
  {
    var fields := Split(raw, FIELD_SEPARATOR);
    match ParseInt32(fields[0])
    case None => Definition(Failure(MalformedId), counter)
    case Some(pid) =>
      if pid >= 0 then Definition(Success(ProductInfo(pid, NameField(fields))), counter)
      else if counter == MIN_INT32 then Definition(Failure(IdSpaceExhausted), counter)
      else Definition(Success(ProductInfo(counter - 1, NameField(fields))), counter - 1)
  }

  /** What a definition line yields, case by case, and how it moves the counter. */
  lemma ParseDefinitionCases(raw: string, counter: int)
    ensures var d := ParseDefinition(raw, counter);
      // the counter never goes up, and moves by at most one
      && (d.counter == counter || d.counter == counter - 1)
      // a non-integer first field fails without touching the counter
      && (DeclaredId(raw).None? ==> d == Definition(Failure(MalformedId), counter))
      // a declared id >= 0 is kept as it is, and the counter is not touched
      && (DeclaredId(raw).Some? && DeclaredId(raw).value >= 0 ==>
            d.counter == counter && d.outcome.Success? && d.outcome.value.id == DeclaredId(raw).value)
      // a declared negative id is replaced by the next synthetic id, when there is one
      && (DeclaredId(raw).Some? && DeclaredId(raw).value < 0 && counter != MIN_INT32 ==>
            d.counter == counter - 1 && d.outcome.Success? && d.outcome.value.id == counter - 1)
      && (d.outcome == Failure(IdSpaceExhausted) <==>
            DeclaredId(raw).Some? && DeclaredId(raw).value < 0 && counter == MIN_INT32)
      && (d.outcome.Success? ==> d.outcome.value.name == NameField(Split(raw, FIELD_SEPARATOR)))
  {
  }

  /** An empty line is not a definition. */
  lemma EmptyLineMalformed(counter: int)
    ensures ParseDefinition("", counter) == Definition(Failure(MalformedId), counter)
  {
    assert Split("", FIELD_SEPARATOR) == [""];
    ParseInt32NeedsDigit("");
  }

  /** Without a colon the Name stays unset (null). */
  lemma NoColonNoName(raw: string, counter: int)
    requires FIELD_SEPARATOR !in raw
    ensures ParseDefinition(raw, counter).outcome.Success? ==>
              ParseDefinition(raw, counter).outcome.value.name == None
  {
    assert IndexOf(raw, FIELD_SEPARATOR).None?;
  }

  /** Everything after the second colon is ignored. */
  lemma ExtraFieldsIgnored(id: string, name: string, rest: string, counter: int)
    requires FIELD_SEPARATOR !in id && FIELD_SEPARATOR !in name
    ensures ParseDefinition(id + [FIELD_SEPARATOR] + name + [FIELD_SEPARATOR] + rest, counter)
         == ParseDefinition(id + [FIELD_SEPARATOR] + name, counter)
  {
    var long := id + [FIELD_SEPARATOR] + name + [FIELD_SEPARATOR] + rest;
    var short := id + [FIELD_SEPARATOR] + name;
    TwoFields(id, name, [FIELD_SEPARATOR] + rest);
    TwoFields(id, name, []);
    assert long == id + [FIELD_SEPARATOR] + name + ([FIELD_SEPARATOR] + rest);
    assert short == id + [FIELD_SEPARATOR] + name + [];
    var f1 := Split(long, FIELD_SEPARATOR);
    var f2 := Split(short, FIELD_SEPARATOR);
    assert f1[0] == f2[0] && NameField(f1) == NameField(f2);
  }

  /** The first two fields of `id:name<tail>`, where `tail` is empty or starts a third field. */
  lemma TwoFields(id: string, name: string, tail: string)
    requires FIELD_SEPARATOR !in id && FIELD_SEPARATOR !in name
    requires tail == [] || tail[0] == FIELD_SEPARATOR
    ensures var f := Split(id + [FIELD_SEPARATOR] + name + tail, FIELD_SEPARATOR);
            |f| >= 2 && f[0] == id && f[1] == name
  {
    var s := id + [FIELD_SEPARATOR] + (name + tail);
    assert s == id + [FIELD_SEPARATOR] + name + tail;
    IndexOfAfter(id, FIELD_SEPARATOR, name + tail);
    assert s[..|id|] == id;
    var after := s[|id| + 1..];
    assert after == name + tail;
    if tail == [] {
      assert after == name;
      assert IndexOf(after, FIELD_SEPARATOR).None?;
    } else {
      IndexOfAfter(name, FIELD_SEPARATOR, tail[1..]);
      assert after == name + [FIELD_SEPARATOR] + tail[1..];
      assert after[..|name|] == name;
    }
  }

  /** A definition written as `<id>:<name>` with a non-negative id parses back to exactly that product. */
  lemma ParseWrittenDefinition(id: int, name: string, counter: int)
    requires 0 <= id <= MAX_INT32
    requires FIELD_SEPARATOR !in name
    requires name == [] || (!IsWhiteSpace(name[0]) && !IsWhiteSpace(name[|name| - 1]))
    ensures ParseDefinition(SignedDecimal(id) + [FIELD_SEPARATOR] + name, counter)
         == Definition(Success(ProductInfo(id, Some(name))), counter)
  {
    var text := SignedDecimal(id);
    assert FIELD_SEPARATOR !in text by {
      AllDigitsEach(text);
    }
    TwoFields(text, name, []);
    assert text + [FIELD_SEPARATOR] + name + [] == text + [FIELD_SEPARATOR] + name;
    ParseSignedDecimal(id);
    if name != [] {
      TrimVisible(name);
    }
  }

  /**
   * `_uniqueFakeProductID`: the last synthetic id handed out (0 before the first).
   * The source keeps it in a static field, so one instance serves the whole process.
   */
  class FakeIdCounter {
    var last: int
    /** Every synthetic id handed out so far, in order. */
    ghost var issued: seq<int>

    ghost predicate Valid()
      reads this
    {
      && MIN_INT32 <= last <= 0
      && |issued| == -last
      && forall i :: 0 <= i < |issued| ==> issued[i] == -(i + 1)
    }

    constructor ()
      ensures Valid() && last == 0 && issued == []
    {
      last := 0;
      issued := [];
    }

    /** `GetFakeProductID`: -1, -2, ... down to int.MinValue, then an error. */
    method GetFakeProductId() returns (r: Result<int, ProductError>)
      requires Valid()
      modifies this
      ensures Valid()
      ensures old(last) == MIN_INT32 ==> r == Failure(IdSpaceExhausted) && last == old(last) && issued == old(issued)
      ensures old(last) != MIN_INT32 ==>
                r == Success(old(last) - 1) && last == old(last) - 1 && issued == old(issued) + [last]
    {
      if last == MIN_INT32 {
        return Failure(IdSpaceExhausted);
      }
      last := last - 1;
      issued := issued + [last];
      r := Success(last);
    }
  }

  /** Synthetic ids are negative, strictly decreasing and hence pairwise distinct. */
  lemma IssuedIdsDecrease(c: FakeIdCounter, i: int, j: int)
    requires c.Valid() && 0 <= i < j < |c.issued|
    ensures c.issued[j] < c.issued[i] < 0
  {
  }

  /** One product definition; the source mutates its fields while parsing. */
  class Product {
    var id: int
    var name: Option<string>

    constructor ()
      ensures id == 0 && name == None
    {
      id := 0;
      name := None;
    }

    function Info(): ProductInfo
      reads this
    {
      ProductInfo(id, name)
    }

    /** `SetProductIDFromRaw`: parses `<id>:<name>`, drawing a synthetic id for a negative one. */
    method SetProductIdFromRaw(raw: string, fake: FakeIdCounter) returns (outcome: Outcome<ProductError>)
      requires fake.Valid()
      modifies this, fake
      ensures fake.Valid()
      ensures var d := ParseDefinition(raw, old(fake.last));
              && fake.last == d.counter
              && (d.outcome.Success? ==>
                    && outcome == Pass
                    && id == d.outcome.value.id
                    && name == (if d.outcome.value.name.Some? then d.outcome.value.name else old(name)))
              && (d.outcome.Failure? ==> outcome == Fail(d.outcome.error))
      // the id is assigned before the counter is asked for a synthetic one
      ensures outcome == Fail(IdSpaceExhausted) ==> DeclaredId(raw) == Some(id) && name == old(name)
      ensures outcome.Fail? && outcome.error.MalformedId? ==> id == old(id) && name == old(name)
    {
      var strings := Split(raw, FIELD_SEPARATOR);
      var parsed := ParseInt32(strings[0]);
      if parsed.None? {
        return Fail(MalformedId);
      }
      id := parsed.value;
      if id < 0 {
        var synthetic := fake.GetFakeProductId();
        if synthetic.Failure? {
          return Fail(synthetic.error);
        }
        id := synthetic.value;
      }
      if |strings| > 1 {
        name := Some(Trim(strings[1]));
      }
      outcome := Pass;
    }
  }
}
