/**
 * The small parsers around `load_collection` and the point conversion: the
 * role-to-name map read from a collection's `cube:dimensions` summary, the
 * keyword test that routes a collection to HBase, and the EPSG code read out
 * of an `"authority:code"` CRS string.
 */
module Catalog {
  import opened Wrappers
  import opened Cubes

  // ---------------------------------------------------------------------------
  // _get_dimension_names

  /** The names the driver gives the temporal and the band dimension. */
  const DefaultTimeDimension: string := "time"
  const DefaultBandsDimension: string := "bands"

  /** One entry of `cube:dimensions`: the dimension's name and its string-valued fields. */
  type Entry = (string, map<string, string>)

  /**
   * The role an entry is filed under: a spatial dimension under its `axis`,
   * a temporal one under the default time name, a band one under the default
   * band name, anything else under its type. A missing `type`, or a spatial
   * entry without `axis`, is a KeyError.
   */
  function RouteKey(fields: map<string, string>): Result<string, Error> {
    if "type" !in fields then Failure(KeyError)
    else if fields["type"] == "spatial" then
      if "axis" in fields then Success(fields["axis"]) else Failure(KeyError)
    else if fields["type"] == "temporal" then Success(DefaultTimeDimension)
    else if fields["type"] == "bands" then Success(DefaultBandsDimension)
    else Success(fields["type"])
  }

  /** The map built by filing the entries in order; a later entry overwrites an earlier one with the same role. */
  function Routed(entries: seq<Entry>): Result<map<string, string>, Error> {
    if entries == [] then Success(map[])
    else
      var names :- Routed(entries[..|entries| - 1]);
      var key :- RouteKey(entries[|entries| - 1].1);
      Success(names[key := entries[|entries| - 1].0])
  }

  /** `_get_dimension_names`: fills the role-to-name map one entry at a time. */
  method GetDimensionNames(entries: seq<Entry>) returns (r: Result<map<string, string>, Error>)
    ensures r == Routed(entries)
  {
    var names: map<string, string> := map[];
    var i := 0;
    while i < |entries|
      invariant 0 <= i <= |entries|
      invariant Routed(entries[..i]) == Success(names)
    {
      assert entries[..i + 1][..i] == entries[..i];
      var key := RouteKey(entries[i].1);
      if key.Failure? {
        RoutedFailurePersists(entries, i + 1);
        return Failure(key.error);
      }
      names := names[key.value := entries[i].0];
      i := i + 1;
    }
    assert entries[..|entries|] == entries;
    return Success(names);
  }

  /** The map is built exactly when every entry has a role. */
  lemma {:induction false} RoutedSucceeds(entries: seq<Entry>)
    ensures Routed(entries).Success? <==> forall i :: 0 <= i < |entries| ==> RouteKey(entries[i].1).Success?
  {
    if entries != [] {
      var init := entries[..|entries| - 1];
      RoutedSucceeds(init);
      assert forall i :: 0 <= i < |init| ==> init[i] == entries[i];
    }
  }

  /** Once an entry has no role the whole map fails, with that entry's error. */
  lemma {:induction false} RoutedFailurePersists(entries: seq<Entry>, k: nat)
    requires k <= |entries| && Routed(entries[..k]).Failure?
    ensures Routed(entries) == Routed(entries[..k])
  {
    if k == |entries| {
      assert entries[..k] == entries;
    } else {
      var init := entries[..|entries| - 1];
      assert init[..k] == entries[..k];
      RoutedFailurePersists(init, k);
    }
  }

  /** The keys of the map are exactly the roles of the entries. */
  lemma RoutedKeys(entries: seq<Entry>)
    requires Routed(entries).Success?
    ensures forall k :: k in Routed(entries).value <==>
      exists i :: 0 <= i < |entries| && RouteKey(entries[i].1) == Success(k)
  {
    forall k ensures k in Routed(entries).value <==>
      exists i :: 0 <= i < |entries| && RouteKey(entries[i].1) == Success(k)
    {
      RoutedKey(entries, k);
    }
  }

  /** One role is a key of the map exactly when some entry is filed under it. */
  lemma {:induction false} RoutedKey(entries: seq<Entry>, k: string)
    requires Routed(entries).Success?
    ensures k in Routed(entries).value <==>
      exists i :: 0 <= i < |entries| && RouteKey(entries[i].1) == Success(k)
  {
    if entries != [] {
      var n := |entries| - 1;
      var init := entries[..n];
      RoutedKey(init, k);
      var last := RouteKey(entries[n].1).value;
      assert Routed(entries).value == Routed(init).value[last := entries[n].0];
      if k in Routed(entries).value && k != last {
        var i :| 0 <= i < n && RouteKey(init[i].1) == Success(k);
        assert init[i] == entries[i];
      }
      if exists i :: 0 <= i < |entries| && RouteKey(entries[i].1) == Success(k) {
        var i :| 0 <= i < |entries| && RouteKey(entries[i].1) == Success(k);
        if i < n {
          assert init[i] == entries[i];
        }
      }
    }
  }

  /** Each role names the last entry filed under it. */
  lemma {:induction false} RoutedLastWins(entries: seq<Entry>, i: nat, k: string)
    requires Routed(entries).Success?
    requires i < |entries| && RouteKey(entries[i].1) == Success(k)
    requires forall j :: i < j < |entries| ==> RouteKey(entries[j].1) != Success(k)
    ensures k in Routed(entries).value && Routed(entries).value[k] == entries[i].0
  {
    var n := |entries| - 1;
    if i < n {
      var init := entries[..n];
      assert init[i] == entries[i];
      assert forall j :: i < j < |init| ==> init[j] == entries[j];
      RoutedLastWins(init, i, k);
    }
  }

  /** A typical summary: x, y, t and bands dimensions filed under x, y, time and bands. */
  lemma DimensionNamesExample()
    ensures Routed([
      ("lon", map["type" := "spatial", "axis" := "x"]),
      ("lat", map["type" := "spatial", "axis" := "y"]),
      ("t", map["type" := "temporal"]),
      ("spectral", map["type" := "bands"])]) ==
      Success(map["x" := "lon", "y" := "lat", "time" := "t", "bands" := "spectral"])
  {
    var es := [
      ("lon", map["type" := "spatial", "axis" := "x"]),
      ("lat", map["type" := "spatial", "axis" := "y"]),
      ("t", map["type" := "temporal"]),
      ("spectral", map["type" := "bands"])];
    assert es[..1][..0] == [] && es[..2][..1] == es[..1] && es[..3][..2] == es[..2] && es[..4][..3] == es[..3];
    assert Routed(es[..1]) == Success(map["x" := "lon"]);
    assert Routed(es[..2]) == Success(map["x" := "lon", "y" := "lat"]);
    assert Routed(es[..3]) == Success(map["x" := "lon", "y" := "lat", "time" := "t"]);
    assert es[..4] == es;
  }

  // ---------------------------------------------------------------------------
  // _is_data_on_hbase

  /** A collection's `keywords` field: absent, not a list, or a list of keywords. */
  datatype Keywords = Unset | NotAList | KeywordList(words: seq<string>)

  /** The keyword that marks a collection stored on HBase. */
  const Hbase: string := "hbase"

  /** `_is_data_on_hbase`: the keyword list names the HBase marker. */
  function IsDataOnHbase(keywords: Keywords): (r: bool)
    ensures r <==> keywords.KeywordList? && Hbase in keywords.words
  {
    keywords.KeywordList? && |keywords.words| > 0 && Hbase in keywords.words
  }

  // ---------------------------------------------------------------------------
  // The CRS argument of convert_point_to_4326

  /** The CRS is given as an EPSG integer or as text. */
  datatype CrsArg = Code(code: int) | Text(text: string)

  /** Python's `s.split(":")[1]`: the text between the first and the second colon; IndexError without a colon. */
  function SecondField(s: string): (r: Result<string, Error>)
    ensures r.Failure? <==> ':' !in s
    ensures r.Failure? ==> r == Failure(IndexError)
    ensures r.Success? ==> ':' !in r.value
  {
    if s == [] then Failure(IndexError)
    else if s[0] == ':' then Success(UpToColon(s[1..]))
    else
      SecondField(s[1..])
  }

  /** The text up to the first colon, or all of it. */
  function UpToColon(s: string): (r: string)
    ensures ':' !in r && |r| <= |s| && s == r + s[|r|..]
    ensures |r| < |s| ==> s[|r|] == ':'
  {
    if s == [] || s[0] == ':' then [] else [s[0]] + UpToColon(s[1..])
  }

  predicate IsDigit(c: char) {
    '0' <= c <= '9'
  }

  function DigitValue(c: char): nat
    requires IsDigit(c)
  {
    (c as int) - ('0' as int)
  }

  /** The value of a non-empty run of decimal digits. */
  function DigitsValue(s: string): nat
    requires forall i :: 0 <= i < |s| ==> IsDigit(s[i])
  {
    if s == [] then 0 else 10 * DigitsValue(s[..|s| - 1]) + DigitValue(s[|s| - 1])
  }

  /** Python's `int(s)` on text: an optional sign and at least one decimal digit, otherwise ValueError. */
  function ParseInt(s: string): (r: Result<int, Error>)
    ensures r.Failure? ==> r.error == InvalidInteger
    ensures r.Success? <==> Unsigned(s) != [] && forall i :: 0 <= i < |Unsigned(s)| ==> IsDigit(Unsigned(s)[i])
    ensures r.Success? && r.value < 0 ==> s[0] == '-'
  {
    var digits := Unsigned(s);
    if digits == [] || exists i :: 0 <= i < |digits| && !IsDigit(digits[i]) then Failure(InvalidInteger)
    else
      var v: int := DigitsValue(digits);
      if |s| > 0 && s[0] == '-' then Success(-v) else Success(v)
  }

  /** The text after one leading sign, if there is one. */
  function Unsigned(s: string): (r: string)
    ensures |s| > 0 && (s[0] == '-' || s[0] == '+') ==> r == s[1..]
    ensures |s| == 0 || (s[0] != '-' && s[0] != '+') ==> r == s
  {
    if |s| > 0 && (s[0] == '-' || s[0] == '+') then s[1..] else s
  }

  /** The EPSG code a CRS argument names: an integer as given, a string by the integer after its first colon. */
  function EpsgCode(crs: CrsArg): (r: Result<int, Error>)
    ensures crs.Code? ==> r == Success(crs.code)
    ensures crs.Text? && ':' !in crs.text ==> r == Failure(IndexError)
  {
    match crs
    case Code(n) => Success(n)
    case Text(s) =>
      var field :- SecondField(s);
      ParseInt(field)
  }

  function Digit(d: nat): (c: char)
    requires d < 10
    ensures IsDigit(c) && DigitValue(c) == d
  {
    ('0' as int + d) as char
  }

  /** The decimal digits of `n`, without leading zeros. */
  function NatToString(n: nat): (s: string)
    ensures |s| > 0 && forall i :: 0 <= i < |s| ==> IsDigit(s[i])
  {
    if n < 10 then [Digit(n)] else NatToString(n / 10) + [Digit(n % 10)]
  }

  /** `str(n)` for an integer. */
  function IntToString(n: int): (s: string) {
    if n < 0 then "-" + NatToString(-n) else NatToString(n)
  }

  lemma {:induction false} NatToStringValue(n: nat)
    ensures DigitsValue(NatToString(n)) == n
  {
    if n >= 10 {
      NatToStringValue(n / 10);
      var s := NatToString(n);
      assert s[..|s| - 1] == NatToString(n / 10);
    }
  }

  lemma ParseIntToString(n: int)
    ensures ParseInt(IntToString(n)) == Success(n)
  {
    var s := IntToString(n);
    if n < 0 {
      NatToStringValue(-n);
      assert s[1..] == NatToString(-n);
    } else {
      NatToStringValue(n);
      assert s[0] != '-' && s[0] != '+' by {
        assert IsDigit(s[0]);
      }
    }
  }

  /** A leading zero does not change the value of a run of digits. */
  lemma {:induction false} DigitsValueLeadingZero(s: string)
    requires forall i :: 0 <= i < |s| ==> IsDigit(s[i])
    ensures DigitsValue("0" + s) == DigitsValue(s)
  {
    if s != [] {
      DigitsValueLeadingZero(s[..|s| - 1]);
      assert ("0" + s)[..|"0" + s| - 1] == "0" + s[..|s| - 1];
    }
  }

  /** `int` ignores leading zeros: "007" reads as 7. */
  lemma ParseIntLeadingZeros(s: string)
    requires s != [] && forall i :: 0 <= i < |s| ==> IsDigit(s[i])
    ensures ParseInt("0" + s) == ParseInt(s) && ParseInt(s).Success?
  {
    var z := "0" + s;
    assert z[0] == '0';
    assert forall i :: 0 <= i < |z| ==> IsDigit(z[i]);
    DigitsValueLeadingZero(s);
    assert ParseInt(z) == Success(DigitsValue(z));
    assert s[0] != '-' && s[0] != '+' by { assert IsDigit(s[0]); }
  }

  /** A plus sign reads as nothing and a minus sign negates. */
  lemma ParseIntSigns(s: string)
    requires s != [] && forall i :: 0 <= i < |s| ==> IsDigit(s[i])
    ensures ParseInt("+" + s) == ParseInt(s)
    ensures ParseInt("-" + s) == Success(-ParseInt(s).value)
  {
    assert ("+" + s)[1..] == s && ("-" + s)[1..] == s;
    assert s[0] != '-' && s[0] != '+' by { assert IsDigit(s[0]); }
  }

  /** A sign alone, or a sign before a sign, is not an integer. */
  lemma ParseIntBareSign()
    ensures ParseInt("-").Failure? && ParseInt("+").Failure? && ParseInt("+-1").Failure?
  {
    assert Unsigned("+-1") == "-1";
    assert !IsDigit(Unsigned("+-1")[0]);
  }

  /** Writing a code as `"authority:code"` and reading it back gives the code, whatever the authority. */
  lemma EpsgCodeRoundTrip(authority: string, n: int)
    requires ':' !in authority
    ensures EpsgCode(Text(authority + ":" + IntToString(n))) == Success(n)
  {
    var s := authority + ":" + IntToString(n);
    SecondFieldAfter(authority, IntToString(n));
    ParseIntToString(n);
  }

  lemma {:induction false} SecondFieldAfter(authority: string, rest: string)
    requires ':' !in authority && ':' !in rest
    ensures SecondField(authority + ":" + rest) == Success(rest)
  {
    var s := authority + ":" + rest;
    if authority == [] {
      assert s[0] == ':' && s[1..] == rest;
      UpToColonAll(rest);
    } else {
      assert s[0] == authority[0] && authority[0] in authority;
      assert s[1..] == authority[1..] + ":" + rest;
      SecondFieldAfter(authority[1..], rest);
    }
  }

  lemma UpToColonAll(s: string)
    requires ':' !in s
    ensures UpToColon(s) == s
  {
  }
}
