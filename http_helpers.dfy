/** Query-string zone-id parsing of the HTTP layer
    (internal/app/http/helpers.go, `parseZoneIds`), with the two standard
    library calls it rests on, `strings.Split` on "," and `strconv.Atoi`,
    written out. */
module HttpHelpers {
  import opened Wrappers

  datatype HttpError = InvalidZoneId | EmptyZoneIds

  /** `Error()`: each text names exactly one of the two errors. */
  function Message(e: HttpError): (text: string)
    ensures text == "invalid zone id" <==> e == InvalidZoneId
    ensures text == "ids is required" <==> e == EmptyZoneIds
  {
    match e
    case InvalidZoneId => "invalid zone id"
    case EmptyZoneIds => "ids is required"
  }

  lemma MessagesDistinct()
    ensures Message(InvalidZoneId) != Message(EmptyZoneIds)
  {
  }

  // ---------------------------------------------------------------------
  // strings.Split(s, ",")

  /** The segments between commas; the empty string is one empty segment. */
  function Split(s: string): (parts: seq<string>)
    ensures |parts| >= 1
    ensures forall i :: 0 <= i < |parts| ==> ',' !in parts[i]
    decreases |s|
  {
    if |s| == 0 then [""]
    else
      var rest := Split(s[1..]);
      if s[0] == ',' then [""] + rest
      else [[s[0]] + rest[0]] + rest[1..]
  }

  /** strings.Join(parts, ","), the inverse of Split. */
  function Join(parts: seq<string>): string
    requires |parts| >= 1
    decreases |parts|
  {
    if |parts| == 1 then parts[0] else parts[0] + "," + Join(parts[1..])
  }

  lemma {:induction false} JoinSplit(s: string)
    ensures Join(Split(s)) == s
    decreases |s|
  {
    if |s| > 0 {
      var rest := Split(s[1..]);
      JoinSplit(s[1..]);
      if s[0] == ',' {
        assert Split(s)[1..] == rest;
      } else {
        var parts := Split(s);
        if |rest| == 1 {
          assert parts == [[s[0]] + rest[0]];
        } else {
          assert parts[1..] == rest[1..];
          assert Join(rest) == rest[0] + "," + Join(rest[1..]);
        }
      }
    }
  }

  lemma {:induction false} SplitJoin(parts: seq<string>)
    requires |parts| >= 1
    requires forall i :: 0 <= i < |parts| ==> ',' !in parts[i]
    ensures Split(Join(parts)) == parts
    decreases |parts|, |parts[0]|
  {
    var p := parts[0];
    if |p| > 0 {
      var tail := [p[1..]] + parts[1..];
      assert forall i :: 1 <= i < |tail| ==> tail[i] == parts[i];
      SplitJoin(tail);
      assert Join(tail) == Join(parts)[1..] by {
        if |parts| > 1 {
          assert Join(parts[1..]) == Join(tail[1..]) by { assert parts[1..] == tail[1..]; }
        }
      }
      assert Join(parts)[0] == p[0] && p[0] != ',';
      assert [p[0]] + p[1..] == p;
      assert parts == [p] + parts[1..];
    } else if |parts| > 1 {
      SplitJoin(parts[1..]);
      assert Join(parts) == "," + Join(parts[1..]);
      assert Join(parts)[1..] == Join(parts[1..]);
    }
  }

  /** Only the empty string splits into a single empty segment. */
  lemma SplitEmpty(s: string)
    ensures Split(s) == [""] <==> s == ""
  {
  }

  // ---------------------------------------------------------------------
  // strconv.Atoi on a 64-bit platform: an optional '+' or '-', then one or
  // more ASCII digits, and the value must fit in an int64.

  const MinInt64: int := -0x8000_0000_0000_0000
  const MaxInt64: int := 0x7FFF_FFFF_FFFF_FFFF

  predicate IsDigits(s: string) {
    |s| > 0 && forall i :: 0 <= i < |s| ==> '0' <= s[i] <= '9'
  }

  function DigitsValue(s: string): nat
    requires forall i :: 0 <= i < |s| ==> '0' <= s[i] <= '9'
    decreases |s|
  {
    if |s| == 0 then 0
    else DigitsValue(s[..|s| - 1]) * 10 + (s[|s| - 1] as int - '0' as int)
  }

  function Atoi(s: string): (r: Option<int>)
    ensures r.Some? ==> MinInt64 <= r.value <= MaxInt64
    ensures r.Some? ==> exists i :: 0 <= i < |s| && '0' <= s[i] <= '9'
    ensures r.Some? ==> forall i :: 0 <= i < |s| ==> '0' <= s[i] <= '9' || (i == 0 && (s[i] == '+' || s[i] == '-'))
  {
    var negative := |s| > 0 && s[0] == '-';
    var body := if |s| > 0 && (s[0] == '-' || s[0] == '+') then s[1..] else s;
    if !IsDigits(body) then None
    else
      var magnitude: int := DigitsValue(body);
      var v := if negative then -magnitude else magnitude;
      if MinInt64 <= v <= MaxInt64 then Some(v) else None
  }

  /** Inputs `strconv.Atoi` rejects: nothing, a lone sign, a sign after the
      first character, a space or a decimal point. */
  lemma AtoiRejects()
    ensures Atoi("") == None && Atoi("+") == None && Atoi("-") == None
    ensures Atoi("1-") == None && Atoi(" 1") == None && Atoi("1.0") == None
  {
  }

  /** strconv.Itoa for non-negative values: decimal digits, no leading zero. */
  function NatDigits(n: nat): (s: string)
    ensures IsDigits(s)
    decreases n
  {
    if n < 10 then [('0' as int + n) as char]
    else NatDigits(n / 10) + [('0' as int + n % 10) as char]
  }

  function Itoa(n: int): string {
    if n < 0 then "-" + NatDigits(-n) else NatDigits(n)
  }

  lemma {:induction false} NatDigitsValue(n: nat)
    ensures DigitsValue(NatDigits(n)) == n
    decreases n
  {
    if n >= 10 {
      NatDigitsValue(n / 10);
      var s := NatDigits(n);
      assert s[..|s| - 1] == NatDigits(n / 10);
    }
  }

  /** Atoi reads back every int64 Itoa writes. */
  lemma AtoiItoa(n: int)
    requires MinInt64 <= n <= MaxInt64
    ensures Atoi(Itoa(n)) == Some(n)
  {
    NatDigitsValue(if n < 0 then -n else n);
    if n < 0 {
      assert Itoa(n)[1..] == NatDigits(-n);
    }
  }

  /** A value as `strconv.Atoi` reports it: kept when it fits in an int64. */
  function InRange(v: int): Option<int> {
    if MinInt64 <= v <= MaxInt64 then Some(v) else None
  }

  /** The converse of the grammar in `Atoi`'s contract: digits, with or
      without a leading '+' or '-', are accepted with their signed decimal
      value exactly when that value fits in an int64. */
  lemma AtoiAccepts(d: string)
    requires IsDigits(d)
    ensures Atoi(d) == InRange(DigitsValue(d))
    ensures Atoi("+" + d) == InRange(DigitsValue(d))
    ensures Atoi("-" + d) == InRange(-(DigitsValue(d) as int))
  {
    AtoiUnsigned(d);
    AtoiSigned('+', d);
    AtoiSigned('-', d);
  }

  lemma AtoiUnsigned(d: string)
    requires IsDigits(d)
    ensures Atoi(d) == InRange(DigitsValue(d))
  {
    assert d[0] != '-' && d[0] != '+';
  }

  lemma AtoiSigned(sign: char, d: string)
    requires sign == '+' || sign == '-'
    requires IsDigits(d)
    ensures var m: int := DigitsValue(d);
            Atoi([sign] + d) == InRange(if sign == '-' then -m else m)
  {
    assert ([sign] + d)[0] == sign && ([sign] + d)[1..] == d;
  }

  /** A leading zero does not change the decimal value. */
  lemma {:induction false} DigitsValueLeadingZero(d: string)
    requires forall i :: 0 <= i < |d| ==> '0' <= d[i] <= '9'
    ensures DigitsValue("0" + d) == DigitsValue(d)
    decreases |d|
  {
    var s := "0" + d;
    if d == [] {
      assert s[..|s| - 1] == [];
    } else {
      assert s[..|s| - 1] == "0" + d[..|d| - 1];
      DigitsValueLeadingZero(d[..|d| - 1]);
    }
  }

  /** Non-canonical texts Go accepts: a '+' sign, leading zeros, "-0". */
  lemma AtoiPlus(d: string)
    requires IsDigits(d)
    ensures Atoi("+" + d) == Atoi(d)
  {
    AtoiSigned('+', d);
    AtoiUnsigned(d);
  }

  lemma AtoiLeadingZero(d: string)
    requires IsDigits(d)
    ensures Atoi("0" + d) == Atoi(d)
  {
    ZeroPrefixed(d);
    AtoiUnsigned("0" + d);
    AtoiUnsigned(d);
  }

  lemma AtoiMinusLeadingZero(d: string)
    requires IsDigits(d)
    ensures Atoi("-0" + d) == Atoi("-" + d)
  {
    var z := "0" + d;
    ZeroPrefixed(d);
    var m: int := DigitsValue(d);
    calc {
      Atoi("-0" + d);
      { MinusZeroConcat(d); }
      Atoi(['-'] + z);
      { AtoiSigned('-', z); }
      InRange(-m);
      { AtoiSigned('-', d); }
      Atoi(['-'] + d);
    }
  }

  lemma MinusZeroConcat(d: string)
    ensures "-0" + d == ['-'] + ("0" + d)
  {
  }

  lemma ZeroPrefixed(d: string)
    requires IsDigits(d)
    ensures IsDigits("0" + d) && DigitsValue("0" + d) == DigitsValue(d)
  {
    var z := "0" + d;
    assert forall i :: 1 <= i < |z| ==> z[i] == d[i - 1];
    DigitsValueLeadingZero(d);
  }

  /** "+3,007" parses to [3, 7]; "-0" is zero. */
  lemma PlusExample()
    ensures Atoi("+3") == Some(3)
  {
    AtoiOneDigit('3');
    assert "+3" == "+" + "3";
    AtoiPlus("3");
  }

  lemma LeadingZerosExample()
    ensures Atoi("007") == Some(7)
  {
    AtoiOneDigit('7');
    assert "07" == "0" + "7";
    AtoiLeadingZero("7");
    assert "007" == "0" + "07";
    AtoiLeadingZero("07");
  }

  lemma MinusZeroExample()
    ensures Atoi("-0") == Some(0)
  {
    AtoiOneDigit('0');
    assert "-0" == ['-'] + "0";
    AtoiSigned('-', "0");
  }

  // ---------------------------------------------------------------------

  /** A segment `parseZoneIds` accepts: Atoi succeeds with a value of at least 1. */
  predicate IsZoneId(segment: string) {
    Atoi(segment).Some? && Atoi(segment).value >= 1
  }

  /** `parseZoneIds`: split on ",", reject an empty input when ids are
      required, then parse every segment in order, stopping at the first one
      that is not a decimal integer or is below 1. Duplicates are kept. */
  method ParseZoneIds(ids: string, isRequired: bool) returns (r: Result<seq<int>, HttpError>)
    ensures ids == "" && isRequired ==> r == Failure(EmptyZoneIds)
    ensures ids == "" && !isRequired ==> r == Failure(InvalidZoneId)
    ensures ids != "" ==>
              (r.Success? <==> forall i :: 0 <= i < |Split(ids)| ==> IsZoneId(Split(ids)[i]))
    ensures ids != "" && r.Failure? ==> r.error == InvalidZoneId
    ensures r.Success? ==>
              && |r.value| == |Split(ids)|
              && forall i :: 0 <= i < |r.value| ==> Atoi(Split(ids)[i]) == Some(r.value[i]) && r.value[i] >= 1
  {
    var segments := Split(ids);
    SplitEmpty(ids);
    var zoneIds: seq<int> := [];
    if |segments| == 1 && segments[0] == "" && isRequired {
      return Failure(EmptyZoneIds);
    }
    var i := 0;
    while i < |segments|
      invariant 0 <= i <= |segments|
      invariant |zoneIds| == i
      invariant forall j :: 0 <= j < i ==> IsZoneId(segments[j]) && Atoi(segments[j]) == Some(zoneIds[j])
    {
      var zoneId := Atoi(segments[i]);
      if zoneId.None? {
        return Failure(InvalidZoneId);
      }
      if zoneId.value < 1 {
        return Failure(InvalidZoneId);
      }
      zoneIds := zoneIds + [zoneId.value];
      i := i + 1;
    }
    return Success(zoneIds);
  }
  /** "1,2,3,4", from the handler tests, splits into four valid ids. */
  lemma ValidIdsExample()
    ensures Split("1,2,3,4") == ["1", "2", "3", "4"]
    ensures Atoi("1") == Some(1) && Atoi("2") == Some(2) && Atoi("3") == Some(3) && Atoi("4") == Some(4)
  {
    assert Join(["1", "2", "3", "4"]) == "1,2,3,4" by {
      assert Join(["4"]) == "4";
      assert Join(["3", "4"]) == "3,4" by { assert ["3", "4"][1..] == ["4"]; }
      assert Join(["2", "3", "4"]) == "2,3,4" by { assert ["2", "3", "4"][1..] == ["3", "4"]; }
      assert ["1", "2", "3", "4"][1..] == ["2", "3", "4"];
    }
    SplitJoin(["1", "2", "3", "4"]);
    AtoiOneDigit('1');
    AtoiOneDigit('2');
    AtoiOneDigit('3');
    AtoiOneDigit('4');
  }

  lemma AtoiOneDigit(d: char)
    requires '0' <= d <= '9'
    ensures Atoi([d]) == Some(d as int - '0' as int)
  {
    assert DigitsValue([d]) == DigitsValue([]) * 10 + (d as int - '0' as int);
  }

  /** "1,2,a,x,4" holds the segment "a", which is not a number. */
  lemma NonNumericExample()
    ensures Split("1,2,a,x,4")[2] == "a" && !IsZoneId("a")
  {
  }

  /** "0,2,3,4" and "-1,2,3,4" start with ids below 1. */
  lemma BelowOneExamples()
    ensures Split("0,2,3,4")[0] == "0" && Atoi("0") == Some(0)
    ensures Split("-1,2,3,4")[0] == "-1" && Atoi("-1") == Some(-1)
    ensures !IsZoneId("0") && !IsZoneId("-1")
  {
  }
}
