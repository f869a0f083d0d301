/** The text parsers of the column form: the optional-boolean parser and
    validator, and the per-type coercion of a default value. */
module Parsers {
  import opened Base
  import opened Decimal

  // ---------------------------------------------------------------------
  // Optional booleans

  /** What `parseBoolean` returns: `undefined` for no text, `true` or
      `false` for a recognised word, `null` for anything else. */
  datatype BoolParse = Unset | Parsed(b: bool) | Invalid

  /** Lower-casing of one character. Only ASCII letters are mapped: the
      words below are ASCII, and no other character lower-cases to an ASCII
      letter that occurs in them. */
  function LowerChar(ch: char): char {
    if 'A' <= ch <= 'Z' then (ch as int + 32) as char else ch
  }

  function Lower(s: string): (r: string)
    ensures |r| == |s| && forall k :: 0 <= k < |s| ==> r[k] == LowerChar(s[k])
  {
    seq(|s|, k requires 0 <= k < |s| => LowerChar(s[k]))
  }

  const TrueWords: seq<string> := ["true", "t", "1", "y", "yes"]
  const FalseWords: seq<string> := ["false", "f", "0", "n", "no"]

  /** `s` spells `word` up to the case of its letters. */
  predicate SameIgnoringCase(s: string, word: string) {
    |s| == |word| && forall k :: 0 <= k < |s| ==> LowerChar(s[k]) == LowerChar(word[k])
  }

  predicate NoUpper(w: string) {
    forall k :: 0 <= k < |w| ==> !('A' <= w[k] <= 'Z')
  }

  lemma WordsHaveNoUpper()
    ensures forall w :: w in TrueWords || w in FalseWords ==> NoUpper(w)
  {
    assert NoUpper("true") && NoUpper("t") && NoUpper("1") && NoUpper("y") && NoUpper("yes");
    assert NoUpper("false") && NoUpper("f") && NoUpper("0") && NoUpper("n") && NoUpper("no");
  }

  /** Comparing the lower-cased text with a lower-case word is comparing
      the two up to case. */
  lemma LowerMatchesWord(s: string, w: string)
    requires NoUpper(w)
    ensures Lower(s) == w <==> SameIgnoringCase(s, w)
  {
    if SameIgnoringCase(s, w) {
      assert forall k :: 0 <= k < |w| ==> LowerChar(w[k]) == w[k];
      assert Lower(s) == w;
    }
  }

  lemma InWordsIgnoringCase(s: string, words: seq<string>)
    requires forall w :: w in words ==> NoUpper(w)
    ensures Lower(s) in words <==> exists w :: w in words && SameIgnoringCase(s, w)
  {
    if Lower(s) in words {
      LowerMatchesWord(s, Lower(s));
    }
    if exists w :: w in words && SameIgnoringCase(s, w) {
      var w :| w in words && SameIgnoringCase(s, w);
      LowerMatchesWord(s, w);
    }
  }

  /** `parseBoolean`: no text or empty text is unset; a word of the true
      list or of the false list, in any case, is that boolean; anything else
      is invalid. */
  function ParseBoolean(value: Option<string>): (r: BoolParse)
    ensures r == Unset <==> value.None? || value.value == ""
    ensures r == Parsed(true) <==>
      value.Some? && exists w :: w in TrueWords && SameIgnoringCase(value.value, w)
    ensures r == Parsed(false) <==>
      value.Some? && exists w :: w in FalseWords && SameIgnoringCase(value.value, w)
  {
    WordsHaveNoUpper();
    if value.None? || value.value == "" then Unset
    else
      var v := Lower(value.value);
      InWordsIgnoringCase(value.value, TrueWords);
      InWordsIgnoringCase(value.value, FalseWords);
      if v in TrueWords then Parsed(true)
      else if v in FalseWords then Parsed(false)
      else Invalid
  }

  /** The parse does not depend on the case of the text. */
  lemma ParseBooleanIgnoresCase(s: string)
    ensures ParseBoolean(Some(Lower(s))) == ParseBoolean(Some(s))
  {
    assert Lower(Lower(s)) == Lower(s);
  }

  /** `String(parseBoolean(v))`. */
  function BoolText(p: BoolParse): string {
    match p
    case Unset => "undefined"
    case Parsed(b) => if b then "true" else "false"
    case Invalid => "null"
  }

  /** The text of a boolean parses back to it. */
  lemma BoolTextRoundTrip(b: bool)
    ensures ParseBoolean(Some(BoolText(Parsed(b)))) == Parsed(b)
  {
    WordsHaveNoUpper();
    var s := BoolText(Parsed(b));
    if b {
      LowerMatchesWord(s, "true");
    } else {
      LowerMatchesWord(s, "false");
    }
  }

  const NotABoolean := "Please enter a boolean value (e.g. yes, no, true, false) or leave it empty"

  /** `validateOptionalBoolean`: refuses exactly the invalid parse, that is
      accepts empty text and the listed words in any case. */
  function ValidateOptionalBoolean(value: Option<string>): (r: Check)
    ensures r.Pass? <==> ParseBoolean(value) != Invalid
    ensures r.Pass? <==>
      || value.None? || value.value == ""
      || exists w :: (w in TrueWords || w in FalseWords) && SameIgnoringCase(value.value, w)
    ensures r.Fail? ==> r.message == NotABoolean
  {
    if ParseBoolean(value) == Invalid then Fail(NotABoolean) else Pass
  }

  // ---------------------------------------------------------------------
  // Default values

  /** `Number.MAX_SAFE_INTEGER`, 2^53 - 1. */
  const MaxSafeInteger: int := 0x1F_FFFF_FFFF_FFFF

  predicate IsSafeInteger(n: int) {
    -MaxSafeInteger <= n <= MaxSafeInteger
  }

  /** The `int` default: a decimal numeral whose value is a safe integer
      gives the numeral of that value; anything else gives no default. */
  function IntDefault(val: string): (r: Option<string>)
    ensures r.Some? <==> IsDecimal(val) && IsSafeInteger(DecimalValue(val))
    ensures r.Some? ==> IsDecimal(r.value) && DecimalValue(r.value) == DecimalValue(val)
    ensures r.Some? ==> Shortest(r.value)
  {
    if IsDecimal(val) && IsSafeInteger(DecimalValue(val)) then
      IntToStringRoundTrip(DecimalValue(val));
      Some(IntToString(DecimalValue(val)))
    else None
  }

  /** The `int` default is canonical: numerals of the same value get the
      same default, and a default is its own default. */
  lemma IntDefaultCanonical(a: string, b: string)
    requires IsDecimal(a) && IsDecimal(b) && DecimalValue(a) == DecimalValue(b)
    ensures IntDefault(a) == IntDefault(b)
    ensures IntDefault(a).Some? ==> IntDefault(IntDefault(a).value) == IntDefault(a)
  {
    if IntDefault(a).Some? {
      IntToStringRoundTrip(DecimalValue(a));
    }
  }

  /** The stored text is `String(num)`: the one shortest numeral of the
      value. */
  lemma IntDefaultIsShortest(val: string, s: string)
    requires IntDefault(val).Some?
    requires IsDecimal(s) && Shortest(s) && DecimalValue(s) == DecimalValue(val)
    ensures IntDefault(val) == Some(s)
  {
    ShortestUnique(IntDefault(val).value, s);
  }

  /** The JavaScript conversions the `float` and `datetime` defaults rely
      on, taken as given: `finiteNumberText(v)` is `String(+v)` when `+v` is
      finite, and `isoTimestamp(v)` is `new Date(v).toISOString()` when that
      date is valid. */
  datatype Host = Host(finiteNumberText: string -> Option<string>, isoTimestamp: string -> Option<string>)

  /** `parseDefaultValue`: the stored form of a default value for a column
      type, or no default. */
  function ParseDefaultValue(typeName: string, val: string, host: Host): (r: Option<string>)
    ensures typeName == "string" ==> r == Some(val)
    ensures typeName == "int" ==> r == IntDefault(val)
    ensures typeName == "bool" ==> r.Some? && r.value in ["true", "false", "undefined", "null"]
    ensures typeName == "bool" ==> (r.value == "undefined" <==> val == "")
    ensures typeName == "bool" ==> (r.value == "true" <==> ParseBoolean(Some(val)) == Parsed(true))
    ensures typeName == "bool" ==> (r.value == "false" <==> ParseBoolean(Some(val)) == Parsed(false))
    ensures typeName == "email" || typeName == "link" ==> (r.None? <==> val == "")
    ensures typeName == "email" || typeName == "link" ==> (r.Some? ==> r.value == val)
    ensures typeName !in ["string", "int", "float", "bool", "email", "link", "datetime"] ==> r.None?
  {
    if typeName == "string" then Some(val)
    else if typeName == "int" then IntDefault(val)
    else if typeName == "float" then (if val != "" then host.finiteNumberText(val) else None)
    else if typeName == "bool" then Some(BoolText(ParseBoolean(Some(val))))
    else if typeName == "email" then (if val != "" then Some(val) else None)
    else if typeName == "link" then (if val != "" then Some(val) else None)
    else if typeName == "datetime" then host.isoTimestamp(val)
    else None
  }

  /** A stored default is stable: coercing it again gives it back, for every
      type whose coercion the model defines. */
  lemma DefaultIsStable(typeName: string, val: string, host: Host)
    requires typeName in ["string", "int", "bool", "email", "link"]
    requires val != "" && ParseDefaultValue(typeName, val, host).Some?
    ensures var d := ParseDefaultValue(typeName, val, host).value;
      ParseDefaultValue(typeName, d, host) == Some(d)
  {
    var d := ParseDefaultValue(typeName, val, host).value;
    if typeName == "int" {
      IntToStringRoundTrip(DecimalValue(val));
      IntDefaultCanonical(val, d);
    } else if typeName == "bool" {
      WordsHaveNoUpper();
      if d == "true" {
        BoolTextRoundTrip(true);
      } else if d == "false" {
        BoolTextRoundTrip(false);
      } else {
        assert d == "null";
        LowerMatchesWord(d, "null");
        assert ParseBoolean(Some(d)) == Invalid;
      }
    }
  }

  /** Sample int coercions: "42" is an int default and "4.2" is not. */
  lemma IntDefaultExamples(host: Host)
    ensures ParseDefaultValue("int", "42", host) == Some("42")
    ensures ParseDefaultValue("int", "4.2", host).None?
  {
    assert DigitsValue("4") == 4;
    assert "42"[..1] == "4";
    assert DecimalValue("42") == 42;
    assert NatToString(4) == "4";
    assert NatToString(42) == "4" + "2" == "42";
    assert IsDecimal("42") && IsSafeInteger(42);
    assert IntDefault("42") == Some(IntToString(42));
    assert !IsDigit("4.2"[1]);
  }

  /** Sample bool coercions: empty text becomes "undefined" and an unknown
      word "null" rather than being refused; the words ignore case. */
  lemma BoolDefaultExamples(host: Host)
    ensures ParseDefaultValue("bool", "", host) == Some("undefined")
    ensures ParseDefaultValue("bool", "maybe", host) == Some("null")
    ensures ParseDefaultValue("bool", "YES", host) == Some("true")
  {
    WordsHaveNoUpper();
    assert Lower("maybe") == "maybe";
    assert Lower("YES") == "yes";
  }
}
