/**
 * The submit handler's presence check: the fixed list of required body
 * fields, the ones a body leaves out, and the 400 error message naming them.
 */
module RequiredFields {
  import opened FormBody
  import Text

  /** The required fields, in the order the handler lists them. */
  const Required: seq<string> := ["village_city", "street_name", "house_no", "owner_data", "lat", "lng"]

  const MissingPrefix: string := "Missing required fields: "
  const ExpectedPrefix: string := "Expected fields: "

  /** `a` is `b` with some elements dropped and the rest kept in order. */
  predicate IsSubsequence<T(==)>(a: seq<T>, b: seq<T>)
    decreases |b|
  {
    if |a| == 0 then true
    else if |b| == 0 then false
    else (a[0] == b[0] && IsSubsequence(a[1..], b[1..])) || IsSubsequence(a, b[1..])
  }

  /**
   * The names whose body value counts as missing (absent or empty), kept in
   * the order of `names`.
   */
  function MissingAmong(names: seq<string>, body: Body): (r: seq<string>)
    ensures |r| <= |names|
    decreases |names|
  {
    if |names| == 0 then []
    else if !Truthy(Get(body, names[0])) then [names[0]] + MissingAmong(names[1..], body)
    else MissingAmong(names[1..], body)
  }

  /** A name is in the missing list exactly when it is listed and its value is falsy. */
  lemma {:induction false} MissingAmongMembers(names: seq<string>, body: Body)
    ensures forall f :: f in MissingAmong(names, body) <==> f in names && !Truthy(Get(body, f))
    decreases |names|
  {
    if |names| > 0 {
      MissingAmongMembers(names[1..], body);
      assert names == [names[0]] + names[1..];
    }
  }

  /** The missing list keeps the order of `names`. */
  lemma {:induction false} MissingAmongKeepsOrder(names: seq<string>, body: Body)
    ensures IsSubsequence(MissingAmong(names, body), names)
    decreases |names|
  {
    if |names| > 0 {
      MissingAmongKeepsOrder(names[1..], body);
      var rest := MissingAmong(names[1..], body);
      if !Truthy(Get(body, names[0])) {
        assert ([names[0]] + rest)[1..] == rest;
      } else if |rest| > 0 {
        assert IsSubsequence(rest, names[1..]);
      }
    }
  }

  /** The required fields the body leaves absent or empty. */
  function MissingFields(body: Body): seq<string> {
    MissingAmong(Required, body)
  }

  /** The `error` text of the 400 response. */
  function MissingMessage(missing: seq<string>): string {
    MissingPrefix + Text.Join(missing)
  }

  /** The `details` text of the 400 response. */
  function ExpectedDetails(): string {
    ExpectedPrefix + Text.Join(Required)
  }

  /** The one-name contribution of `name` to a missing list. */
  function MissingIf(name: string, body: Body): seq<string> {
    if !Truthy(Get(body, name)) then [name] else []
  }

  lemma MissingAmongCons(name: string, rest: seq<string>, body: Body)
    ensures MissingAmong([name] + rest, body) == MissingIf(name, body) + MissingAmong(rest, body)
  {
    assert ([name] + rest)[1..] == rest;
  }

  lemma MissingAmongSix(a: string, b: string, c: string, d: string, e: string, f: string, body: Body)
    ensures MissingAmong([a, b, c, d, e, f], body) ==
      MissingIf(a, body) + (MissingIf(b, body) + (MissingIf(c, body) +
      (MissingIf(d, body) + (MissingIf(e, body) + MissingIf(f, body)))))
  {
    MissingAmongCons(f, [], body);
    MissingAmongCons(e, [f], body);
    MissingAmongCons(d, [e, f], body);
    MissingAmongCons(c, [d, e, f], body);
    MissingAmongCons(b, [c, d, e, f], body);
    MissingAmongCons(a, [b, c, d, e, f], body);
    assert [f] == [f] + [];
    assert MissingAmong([], body) == [];
    assert MissingIf(f, body) + [] == MissingIf(f, body);
    assert [e, f] == [e] + [f];
    assert [d, e, f] == [d] + [e, f];
    assert [c, d, e, f] == [c] + [d, e, f];
    assert [b, c, d, e, f] == [b] + [c, d, e, f];
    assert [a, b, c, d, e, f] == [a] + [b, c, d, e, f];
  }

  /**
   * The missing list spelled out field by field: each required field, in the
   * order of the required list, appears exactly when its value is absent or
   * the empty string.
   */
  lemma MissingFieldsInRequiredOrder(body: Body)
    ensures MissingFields(body) ==
      MissingIf("village_city", body) + (MissingIf("street_name", body) +
      (MissingIf("house_no", body) + (MissingIf("owner_data", body) +
      (MissingIf("lat", body) + MissingIf("lng", body)))))
  {
    MissingAmongSix("village_city", "street_name", "house_no", "owner_data", "lat", "lng", body);
  }

  /** A body passes the check exactly when every required value is truthy. */
  lemma PassesIffAllPresent(body: Body)
    ensures MissingFields(body) == [] <==> forall f :: f in Required ==> Truthy(Get(body, f))
  {
    MissingAmongMembers(Required, body);
    if MissingFields(body) != [] {
      assert MissingFields(body)[0] in MissingFields(body);
    }
  }

  lemma RequiredHaveNoComma()
    ensures forall k :: 0 <= k < |Required| ==> Text.NoComma(Required[k])
  {
  }

  /**
   * The 400 error names every missing field and nothing else: it is the fixed
   * prefix followed by text that splits at ", " back into the missing list.
   */
  lemma MissingMessageNamesEachField(body: Body)
    requires MissingFields(body) != []
    ensures MissingMessage(MissingFields(body))[..|MissingPrefix|] == MissingPrefix
    ensures Text.Split(MissingMessage(MissingFields(body))[|MissingPrefix|..]) == MissingFields(body)
  {
    var missing := MissingFields(body);
    MissingAmongMembers(Required, body);
    RequiredHaveNoComma();
    forall k | 0 <= k < |missing|
      ensures Text.NoComma(missing[k])
    {
      assert missing[k] in Required;
    }
    Text.SplitJoin(missing);
    assert MissingMessage(missing)[|MissingPrefix|..] == Text.Join(missing);
  }

  /** The 400 details text names the whole required list, in order. */
  lemma ExpectedDetailsNamesRequired()
    ensures ExpectedDetails()[..|ExpectedPrefix|] == ExpectedPrefix
    ensures Text.Split(ExpectedDetails()[|ExpectedPrefix|..]) == Required
  {
    RequiredHaveNoComma();
    Text.SplitJoin(Required);
    assert ExpectedDetails()[|ExpectedPrefix|..] == Text.Join(Required);
  }

  /**
   * An array value counts as present whatever its elements: a body whose six
   * required fields are all arrays passes the check, even when an array is
   * empty or holds only empty strings.
   */
  lemma ArraysAlwaysPass(body: Body)
    requires forall f :: f in Required ==> Get(body, f).Arr?
    ensures MissingFields(body) == []
  {
    PassesIffAllPresent(body);
  }
}
