/** The scalar UJML attribute descriptors `String`, `Int` and `Bool` (and
    `FilePath`'s handling of a missing value): each reads its attribute
    from the node's XML element with `get` and writes it back with `set`. */
module StdTypes {
  import opened Wrappers

  /** The XML element of a UJML node: its tag and its attribute map. */
  class Element {
    const tag: string
    var attrib: map<string, string>

    constructor (tag: string, attrib: map<string, string>)
      ensures this.tag == tag && this.attrib == attrib
    {
      this.tag := tag;
      this.attrib := attrib;
    }
  }

  /** What `get` yields: the parsed attribute, or, when the element has no
      such attribute, whatever the descriptor's `get_optional(instance)`
      gives (the optional value, or its own error for a required one). */
  datatype Lookup<T> = Found(value: T) | Missing

  /** `InvalidAttributeValueError(tag, attrib_name)`. */
  datatype AttributeError = InvalidAttributeValueError(tag: string, attribName: string)

  // ---------------------------------------------------------------------
  // String

  function StringGet(e: Element, name: string): (r: Lookup<string>)
    reads e
    ensures r.Missing? <==> name !in e.attrib
    ensures r.Found? ==> r.value == e.attrib[name]
  {
    if name in e.attrib then Found(e.attrib[name]) else Missing
  }

  method StringSet(e: Element, name: string, x: string)
    modifies e
    ensures e.attrib == old(e.attrib)[name := x]
    ensures StringGet(e, name) == Found(x)
  {
    e.attrib := e.attrib[name := x];
  }

  // ---------------------------------------------------------------------
  // Int

  predicate IsDigit(c: char) {
    '0' <= c <= '9'
  }

  /** `str.isdigit()` on ASCII text: non-empty and all digits. */
  predicate IsDigits(s: string) {
    |s| > 0 && forall i :: 0 <= i < |s| ==> IsDigit(s[i])
  }

  /** The value of a string of decimal digits, as `int()` reads it
      (leading zeros allowed). */
  function DecimalValue(s: string): nat
    requires forall i :: 0 <= i < |s| ==> IsDigit(s[i])
  {
    if s == [] then 0
    else
      assert IsDigit(s[|s| - 1]);
      DecimalValue(s[..|s| - 1]) * 10 + (s[|s| - 1] as int - '0' as int)
  }

  /** The decimal digits of `n`, without leading zeros. */
  function NatToString(n: nat): (s: string)
    ensures IsDigits(s)
    ensures |s| > 1 ==> s[0] != '0'
  {
    if n < 10 then [(n + '0' as int) as char]
    else NatToString(n / 10) + [(n % 10 + '0' as int) as char]
  }

  /** `"%d" % (x, )`. */
  function FormatInt(x: int): (r: string)
    ensures x >= 0 ==> IsDigits(r) && (|r| > 1 ==> r[0] != '0')
    ensures x < 0 ==> |r| >= 2 && r[0] == '-' && IsDigits(r[1..]) && (|r| > 2 ==> r[1] != '0')
  {
    if x < 0 then "-" + NatToString(-x) else NatToString(x)
  }

  /** `int(val_str)` behind the `isdigit()` guard. */
  function ParseInt(s: string): (r: Option<int>)
    ensures r.Some? <==> IsDigits(s)
  {
    if IsDigits(s) then Some(DecimalValue(s)) else None
  }

  function IntGet(e: Element, name: string): (r: Result<Lookup<int>, AttributeError>)
    reads e
    ensures name !in e.attrib ==> r == Success(Missing)
    ensures name in e.attrib && IsDigits(e.attrib[name]) ==> r == Success(Found(DecimalValue(e.attrib[name]) as int))
    ensures name in e.attrib && !IsDigits(e.attrib[name]) ==> r == Failure(InvalidAttributeValueError(e.tag, name))
  {
    if name !in e.attrib then Success(Missing)
    else match ParseInt(e.attrib[name])
      case Some(v) => Success(Found(v))
      case None => Failure(InvalidAttributeValueError(e.tag, name))
  }

  method IntSet(e: Element, name: string, x: int)
    modifies e
    ensures e.attrib == old(e.attrib)[name := FormatInt(x)]
    ensures x >= 0 ==> IntGet(e, name) == Success(Found(x))
    ensures x < 0 ==> IntGet(e, name) == Failure(InvalidAttributeValueError(e.tag, name))
  {
    e.attrib := e.attrib[name := FormatInt(x)];
    IntRoundTrip(x);
  }

  lemma {:induction false} DecimalValueOfNatToString(n: nat)
    ensures DecimalValue(NatToString(n)) == n
  {
    if n >= 10 {
      var s := NatToString(n);
      assert s[..|s| - 1] == NatToString(n / 10);
      DecimalValueOfNatToString(n / 10);
    }
  }

  /** What `set` writes, `get` reads back for a non-negative integer; the
      sign of a negative one is refused by the digit check. */
  lemma IntRoundTrip(x: int)
    ensures x >= 0 ==> ParseInt(FormatInt(x)) == Some(x)
    ensures x < 0 ==> ParseInt(FormatInt(x)) == None
  {
    if x >= 0 {
      DecimalValueOfNatToString(x);
    } else {
      assert FormatInt(x)[0] == '-';
    }
  }

  /** Reading and printing back is not the identity: every digit string
      with a leading zero (other than `"0"`) is accepted, and printed back
      differently. */
  lemma LeadingZerosAreLost(s: string)
    requires IsDigits(s) && |s| > 1 && s[0] == '0'
    ensures ParseInt(s).Some? && FormatInt(ParseInt(s).value) != s
  {
    var v := ParseInt(s).value;
    assert v >= 0;
    var f := FormatInt(v);
    if |f| == |s| {
      assert f[0] != '0';
    }
  }

  /** Every string of digits without leading zeros is printed back as it
      was read. */
  lemma {:induction false} NatToStringOfDecimalValue(s: string)
    requires IsDigits(s) && (|s| > 1 ==> s[0] != '0')
    ensures NatToString(DecimalValue(s)) == s
    decreases |s|
  {
    var init := s[..|s| - 1];
    if |s| > 1 {
      assert init[0] == s[0];
      assert IsDigits(init);
      NatToStringOfDecimalValue(init);
      DecimalValuePositive(init);
      assert s == init + [s[|s| - 1]];
    }
  }

  lemma {:induction false} DecimalValuePositive(s: string)
    requires IsDigits(s) && s[0] != '0'
    ensures DecimalValue(s) >= 1
    decreases |s|
  {
    if |s| > 1 {
      DecimalValuePositive(s[..|s| - 1]);
    }
  }

  // ---------------------------------------------------------------------
  // Bool

  /** `str.lower()` on ASCII letters. */
  function Lower(s: string): (r: string)
    ensures |r| == |s|
    ensures forall i :: 0 <= i < |s| ==> r[i] == (if 'A' <= s[i] <= 'Z' then (s[i] as int + 32) as char else s[i])
  {
    if s == [] then [] else
      [if 'A' <= s[0] <= 'Z' then (s[0] as int + 32) as char else s[0]] + Lower(s[1..])
  }

  /** `str(x)`. */
  function FormatBool(x: bool): (r: string)
    ensures |r| > 0 && 'A' <= r[0] <= 'Z'
    ensures Lower(r) == (if x then "true" else "false")
  {
    if x then
      assert Lower("True") == "true";
      "True"
    else
      assert Lower("False") == "false";
      "False"
  }

  /** `"true"` and `"false"` in any letter case, and nothing else, are
      read as booleans. */
  function ParseBool(s: string): (r: Option<bool>)
    ensures r == Some(true) <==> Lower(s) == "true"
    ensures r == Some(false) <==> Lower(s) == "false"
    ensures r.None? <==> Lower(s) != "true" && Lower(s) != "false"
    ensures r.Some? ==> |s| == 4 || |s| == 5
  {
    var l := Lower(s);
    if l == "true" || l == "false" then Some(l == "true") else None
  }

  function BoolGet(e: Element, name: string): (r: Result<Lookup<bool>, AttributeError>)
    reads e
    ensures name !in e.attrib ==> r == Success(Missing)
    ensures name in e.attrib ==> (r.Failure? <==> ParseBool(e.attrib[name]).None?)
    ensures r.Failure? ==> r.error == InvalidAttributeValueError(e.tag, name)
    ensures name in e.attrib && r.Success? ==> r.value == Found(ParseBool(e.attrib[name]).value)
  {
    if name !in e.attrib then Success(Missing)
    else match ParseBool(e.attrib[name])
      case Some(b) => Success(Found(b))
      case None => Failure(InvalidAttributeValueError(e.tag, name))
  }

  method BoolSet(e: Element, name: string, x: bool)
    modifies e
    ensures e.attrib == old(e.attrib)[name := FormatBool(x)]
    ensures BoolGet(e, name) == Success(Found(x))
  {
    e.attrib := e.attrib[name := FormatBool(x)];
    BoolRoundTrip(x);
  }

  /** What `set` writes, `get` reads back. */
  lemma BoolRoundTrip(x: bool)
    ensures ParseBool(FormatBool(x)) == Some(x)
  {
    if x {
      assert Lower("True") == "true";
    } else {
      assert Lower("False") == "false";
    }
  }

  // ---------------------------------------------------------------------
  // FilePath

  /** `FilePath.get` up to the call of `abs_path`: `None` when neither the
      element nor `get_optional` gives a value, otherwise the relative path
      to resolve. */
  function FilePathGet(e: Element, name: string, optional: Option<string>): (r: Option<string>)
    reads e
    ensures r.None? <==> name !in e.attrib && optional.None?
    ensures name in e.attrib ==> r == Some(e.attrib[name])
    ensures name !in e.attrib ==> r == optional
  {
    if name in e.attrib then Some(e.attrib[name]) else optional
  }

  method FilePathSet(e: Element, name: string, x: string)
    modifies e
    ensures e.attrib == old(e.attrib)[name := x]
    ensures FilePathGet(e, name, None) == Some(x)
  {
    e.attrib := e.attrib[name := x];
  }
}
