/**
 * The pieces of the Java class library that the autosplit decoder leans on,
 * written as specification functions over `string` (a sequence of chars):
 *   - String.split with a one-character separator (trailing empty fields dropped),
 *   - Integer.parseInt / Long.parseLong (optional sign, decimal digits, range check),
 *   - Integer.toString, used here as the inverse of the parsers,
 *   - String.trim and an ASCII String.toLowerCase.
 */
module JavaText {

  datatype Option<+T> = None | Some(value: T)

  const MinInt: int := -0x8000_0000
  const MaxInt: int := 0x7fff_ffff
  const MinLong: int := -0x8000_0000_0000_0000
  const MaxLong: int := 0x7fff_ffff_ffff_ffff

  /** Java `int`. */
  type Int32 = x: int | MinInt <= x <= MaxInt
  /** Java `long`. */
  type Int64 = x: int | MinLong <= x <= MaxLong

  // ------------------------------------------------------------------ split

  /**
   * Every field of `s` between separators, empty ones included: the pieces
   * String.split finds before it drops trailing empty strings. There is one
   * more field than there are separators.
   */
  function Fields(s: string, sep: char): (r: seq<string>)
    ensures |r| >= 1
    ensures forall k :: 0 <= k < |r| ==> sep !in r[k]
  {
    if |s| == 0 then [""]
    else
      var rest := Fields(s[1..], sep);
      if s[0] == sep then [""] + rest
      else [[s[0]] + rest[0]] + rest[1..]
  }

  /** The fields glued back together with the separator between them. */
  function Join(fs: seq<string>, sep: char): (r: string)
    requires |fs| >= 1
    decreases |fs|
  {
    if |fs| == 1 then fs[0] else fs[0] + [sep] + Join(fs[1..], sep)
  }

  /** Removes the empty strings at the end of a list of fields, and only those. */
  function DropTrailingEmpty(fs: seq<string>): (r: seq<string>)
    ensures r <= fs
    ensures forall k :: |r| <= k < |fs| ==> fs[k] == ""
    ensures |r| > 0 ==> r[|r| - 1] != ""
  {
    if |fs| == 0 then []
    else if fs[|fs| - 1] == "" then DropTrailingEmpty(fs[..|fs| - 1])
    else fs
  }

  /**
   * String.split(sep) for a separator that is not a regular-expression
   * metacharacter: with no separator in `s` the result is `[s]` itself;
   * otherwise it is the fields with the trailing empty ones removed, so a
   * string made only of separators gives no fields at all.
   */
  function SplitOn(s: string, sep: char): (r: seq<string>)
    ensures forall k :: 0 <= k < |r| ==> sep !in r[k]
    ensures sep !in s ==> r == [s]
    ensures |r| > 0 && sep in s ==> r[|r| - 1] != ""
  {
    if sep !in s then [s] else DropTrailingEmpty(Fields(s, sep))
  }

  /** The separators and the fields together give back the string. */
  lemma {:induction false} JoinFields(s: string, sep: char)
    ensures Join(Fields(s, sep), sep) == s
  {
    if |s| > 0 {
      var rest := Fields(s[1..], sep);
      JoinFields(s[1..], sep);
      if s[0] == sep {
        assert Fields(s, sep)[1..] == rest;
      } else {
        var fs := Fields(s, sep);
        assert fs[1..] == rest[1..];
        if |rest| == 1 {
          assert fs == [[s[0]] + rest[0]];
        } else {
          assert Join(rest, sep) == rest[0] + [sep] + Join(rest[1..], sep);
        }
      }
    }
  }

  /** A string without the separator is a single field. */
  lemma {:induction false} FieldsOfPlain(a: string, sep: char)
    requires sep !in a
    ensures Fields(a, sep) == [a]
  {
    if |a| > 0 {
      FieldsOfPlain(a[1..], sep);
      assert [a[0]] + a[1..] == a;
    }
  }

  /** A separator-free prefix followed by a separator is the first field. */
  lemma {:induction false} FieldsAfterPlain(a: string, sep: char, b: string)
    requires sep !in a
    ensures Fields(a + [sep] + b, sep) == [a] + Fields(b, sep)
  {
    if |a| == 0 {
      assert a + [sep] + b == [sep] + b;
      assert ([sep] + b)[1..] == b;
    } else {
      var s := a + [sep] + b;
      FieldsAfterPlain(a[1..], sep, b);
      assert s[1..] == a[1..] + [sep] + b;
      assert s[0] == a[0] && a[0] in a;
      var rest := Fields(s[1..], sep);
      assert rest[0] == a[1..] && rest[1..] == Fields(b, sep);
      assert [a[0]] + a[1..] == a;
    }
  }

  /** Splitting fields that were joined gives them back. */
  lemma {:induction false} FieldsJoin(fs: seq<string>, sep: char)
    requires |fs| >= 1
    requires forall k :: 0 <= k < |fs| ==> sep !in fs[k]
    ensures Fields(Join(fs, sep), sep) == fs
  {
    if |fs| == 1 {
      FieldsOfPlain(fs[0], sep);
    } else {
      FieldsJoin(fs[1..], sep);
      FieldsAfterPlain(fs[0], sep, Join(fs[1..], sep));
      assert [fs[0]] + fs[1..] == fs;
    }
  }

  /** Every field is empty exactly when the string is made only of separators. */
  lemma {:induction false} FieldsAllEmpty(s: string, sep: char)
    ensures (forall k :: 0 <= k < |Fields(s, sep)| ==> Fields(s, sep)[k] == "")
        <==> (forall i :: 0 <= i < |s| ==> s[i] == sep)
  {
    if |s| > 0 {
      FieldsAllEmpty(s[1..], sep);
      var fs, rest := Fields(s, sep), Fields(s[1..], sep);
      if s[0] == sep {
        assert fs[1..] == rest;
        assert forall k :: 1 <= k < |fs| ==> fs[k] == rest[k - 1];
        assert forall i :: 1 <= i < |s| ==> s[i] == s[1..][i - 1];
      } else {
        assert fs[0] != "";
      }
    }
  }

  /** String.split returns no field at all exactly for a non-empty run of separators. */
  lemma SplitEmptyIff(s: string, sep: char)
    ensures SplitOn(s, sep) == [] <==> (|s| > 0 && forall i :: 0 <= i < |s| ==> s[i] == sep)
  {
    if sep in s {
      var fs := Fields(s, sep);
      FieldsAllEmpty(s, sep);
      var r := DropTrailingEmpty(fs);
      if r == [] {
        assert forall k :: 0 <= k < |fs| ==> fs[k] == "";
      } else {
        assert r[|r| - 1] == fs[|r| - 1] != "";
      }
    } else if |s| > 0 {
      assert s[0] in s;
    }
  }

  /** Two separator-free fields joined by one separator split back into themselves. */
  lemma SplitPair(a: string, b: string, sep: char)
    requires sep !in a && sep !in b && b != ""
    ensures SplitOn(a + [sep] + b, sep) == [a, b]
  {
    var s := a + [sep] + b;
    assert s[|a|] == sep;
    assert Join([a, b], sep) == s;
    FieldsJoin([a, b], sep);
  }

  /** The first two fields come out as they went in, whatever follows the second separator. */
  lemma SplitFirstTwo(a: string, b: string, rest: string, sep: char)
    requires sep !in a && sep !in b && b != ""
    ensures var r := SplitOn(a + [sep] + b + [sep] + rest, sep);
      |r| >= 2 && r[0] == a && r[1] == b
  {
    var m := a + [sep] + b + [sep] + rest;
    assert m == a + [sep] + (b + [sep] + rest);
    FieldsAfterPlain(a, sep, b + [sep] + rest);
    FieldsAfterPlain(b, sep, rest);
    var fs := Fields(m, sep);
    assert fs[0] == a && fs[1] == b;
    assert m[|a|] == sep;
  }

  /** "a" then two separators then a text that is not all separators: a and an empty field come first. */
  lemma SplitEmptySecond(a: string, rest: string, j: nat, sep: char)
    requires sep !in a && j < |rest| && rest[j] != sep
    ensures var r := SplitOn(a + [sep, sep] + rest, sep);
      |r| >= 2 && r[0] == a && r[1] == ""
  {
    var m := a + [sep, sep] + rest;
    assert m == a + [sep] + ("" + [sep] + rest);
    FieldsAfterPlain(a, sep, "" + [sep] + rest);
    FieldsAfterPlain("", sep, rest);
    assert m[|a|] == sep;
    var tail := Fields(rest, sep);
    var fs := Fields(m, sep);
    assert fs == [a, ""] + tail;
    FieldsAllEmpty(rest, sep);
    var k :| 0 <= k < |tail| && tail[k] != "";
    assert fs[k + 2] != "";
  }

  /** A field followed only by separators splits into that field alone. */
  lemma SplitTrailingSeparators(field: string, count: nat, sep: char)
    requires field != "" && sep !in field
    ensures SplitOn(field + seq(count, _ => sep), sep) == [field]
  {
    var s := field + seq(count, _ => sep);
    if count == 0 {
      assert s == field;
    } else {
      var tail := seq(count - 1, _ => sep);
      assert s == field + [sep] + tail;
      assert s[|field|] == sep;
      FieldsAfterPlain(field, sep, tail);
      FieldsAllEmpty(tail, sep);
      var fs := Fields(s, sep);
      assert forall k :: 1 <= k < |fs| ==> fs[k] == Fields(tail, sep)[k - 1];
      var r := DropTrailingEmpty(fs);
      assert fs[0] != "";
      assert r[|r| - 1] == fs[|r| - 1];
    }
  }

  // -------------------------------------------------------------- integers

  predicate IsDigit(c: char) { '0' <= c <= '9' }

  function DigitValue(c: char): (d: nat)
    requires IsDigit(c)
    ensures d < 10
  {
    (c as int) - ('0' as int)
  }

  function DigitChar(d: nat): (c: char)
    requires d < 10
    ensures IsDigit(c) && DigitValue(c) == d
  {
    (('0' as int) + d) as char
  }

  /**
   * The value of a string of decimal digits, most significant first, or
   * None when some character is not a decimal digit.
   */
  function DigitsValue(s: string): (r: Option<nat>)
  {
    if |s| == 0 then Some(0)
    else if !IsDigit(s[|s| - 1]) then None
    else match DigitsValue(s[..|s| - 1])
      case None => None
      case Some(v) => Some(10 * v + DigitValue(s[|s| - 1]))
  }

  /** A character that is not a digit anywhere makes the digits unreadable. */
  lemma {:induction false} DigitsRejectForeign(s: string, i: nat)
    requires i < |s| && !IsDigit(s[i])
    ensures DigitsValue(s) == None
  {
    if i < |s| - 1 {
      DigitsRejectForeign(s[..|s| - 1], i);
    }
  }

  /** Every character is a decimal digit. */
  predicate AllDigits(s: string)
  {
    |s| == 0 || (IsDigit(s[0]) && AllDigits(s[1..]))
  }

  function Pow10(k: nat): (p: nat)
    ensures p >= 1
  {
    if k == 0 then 1 else 10 * Pow10(k - 1)
  }

  /**
   * The value of a digit string read from the left, each digit weighted by
   * its place: the reference the parser's right-to-left reading is held to.
   */
  function Decimal(s: string): nat
    requires AllDigits(s)
  {
    if |s| == 0 then 0 else DigitValue(s[0]) * Pow10(|s| - 1) + Decimal(s[1..])
  }

  lemma {:induction false} AllDigitsAppend(s: string, c: char)
    ensures AllDigits(s + [c]) <==> AllDigits(s) && IsDigit(c)
  {
    if |s| > 0 {
      assert (s + [c])[1..] == s[1..] + [c];
      AllDigitsAppend(s[1..], c);
    } else {
      assert [c][1..] == [];
    }
  }

  lemma ShiftPlace(d: nat, k: nat)
    ensures d * Pow10(k + 1) == 10 * (d * Pow10(k))
  {
    assert Pow10(k + 1) == 10 * Pow10(k);
  }

  /** Appending a digit multiplies the value by ten and adds the digit. */
  lemma {:induction false} DecimalAppend(s: string, c: char)
    requires AllDigits(s) && IsDigit(c)
    ensures AllDigits(s + [c]) && Decimal(s + [c]) == 10 * Decimal(s) + DigitValue(c)
  {
    AllDigitsAppend(s, c);
    if |s| > 0 {
      assert (s + [c])[1..] == s[1..] + [c];
      DecimalAppend(s[1..], c);
      ShiftPlace(DigitValue(s[0]), |s| - 1);
    } else {
      assert [c][1..] == [];
    }
  }

  /** The parser's right-to-left reading succeeds exactly on digit strings, with their value. */
  lemma {:induction false} DigitsValueIsDecimal(s: string)
    ensures DigitsValue(s).Some? <==> AllDigits(s)
    ensures AllDigits(s) ==> DigitsValue(s) == Some(Decimal(s))
  {
    if |s| > 0 {
      var init, c := s[..|s| - 1], s[|s| - 1];
      assert s == init + [c];
      DigitsValueIsDecimal(init);
      AllDigitsAppend(init, c);
      if AllDigits(s) {
        DecimalAppend(init, c);
      }
    }
  }

  /** The text of a sign-and-digits literal that follows the optional sign. */
  function Magnitude(s: string): string
    requires |s| > 0
  {
    if s[0] == '-' || s[0] == '+' then s[1..] else s
  }

  /** The texts Integer.parseInt and Long.parseLong accept: an optional sign, then one or more decimal digits. */
  predicate IsIntegerText(s: string)
  {
    |s| > 0 && |Magnitude(s)| > 0 && AllDigits(Magnitude(s))
  }

  /** The value such a text denotes. */
  function TextValue(s: string): int
    requires IsIntegerText(s)
  {
    if s[0] == '-' then -(Decimal(Magnitude(s)) as int) else Decimal(Magnitude(s))
  }

  /**
   * Integer.parseInt / Long.parseLong in radix 10 with the bounds of the
   * target type: an optional '-' or '+', then at least one decimal digit and
   * nothing else; leading zeros are allowed; a value outside [lo, hi] is
   * refused. None stands for the NumberFormatException.
   */
  function ParseInteger(s: string, lo: int, hi: int): (r: Option<int>)
    ensures r.Some? <==> IsIntegerText(s) && lo <= TextValue(s) <= hi
    ensures r.Some? ==> r.value == TextValue(s)
  {
    if |s| == 0 || |Magnitude(s)| == 0 then None
    else
      DigitsValueIsDecimal(Magnitude(s));
      match DigitsValue(Magnitude(s))
      case None => None
      case Some(m) =>
        var v: int := if s[0] == '-' then -(m as int) else m;
        if lo <= v <= hi then Some(v) else None
  }

  /** Integer.parseInt(s): succeeds exactly on integer texts whose value fits in an int, and returns that value. */
  function ParseInt(s: string): (r: Option<Int32>)
    ensures r.Some? <==> IsIntegerText(s) && MinInt <= TextValue(s) <= MaxInt
    ensures r.Some? ==> r.value as int == TextValue(s)
  {
    match ParseInteger(s, MinInt, MaxInt)
    case None => None
    case Some(v) => Some(v)
  }

  /** Long.parseLong(s): succeeds exactly on integer texts whose value fits in a long, and returns that value. */
  function ParseLong(s: string): (r: Option<Int64>)
    ensures r.Some? <==> IsIntegerText(s) && MinLong <= TextValue(s) <= MaxLong
    ensures r.Some? ==> r.value as int == TextValue(s)
  {
    match ParseInteger(s, MinLong, MaxLong)
    case None => None
    case Some(v) => Some(v)
  }

  /** `count` zero digits. */
  function Zeros(count: nat): (z: string)
    ensures |z| == count
  {
    seq(count, _ => '0')
  }

  /** Leading zeros in front of a digit do not change what a text parses to. */
  lemma {:induction false} LeadingZerosIgnored(count: nat, s: string, lo: int, hi: int)
    requires |s| > 0 && IsDigit(s[0])
    ensures ParseInteger(Zeros(count) + s, lo, hi) == ParseInteger(s, lo, hi)
  {
    if count > 0 {
      var t := Zeros(count - 1) + s;
      assert Zeros(count) + s == ['0'] + t;
      assert t[0] == '0' || (count == 1 && t == s);
      LeadingZerosIgnored(count - 1, s, lo, hi);
      var u := ['0'] + t;
      assert u[1..] == t;
      assert Magnitude(u) == u && Magnitude(t) == t;
      assert AllDigits(u) <==> AllDigits(t);
      assert IsIntegerText(u) <==> IsIntegerText(t);
      if AllDigits(t) {
        assert Decimal(u) == 0 * Pow10(|t|) + Decimal(t);
        assert TextValue(u) == TextValue(t);
      }
    } else {
      assert Zeros(count) + s == s;
    }
  }

  /** A leading '+' before the digits does not change what a text parses to. */
  lemma PlusSignIgnored(s: string, lo: int, hi: int)
    requires |s| > 0 && IsDigit(s[0])
    ensures ParseInteger(['+'] + s, lo, hi) == ParseInteger(s, lo, hi)
  {
    assert Magnitude(['+'] + s) == s == Magnitude(s);
  }

  /** The shortest decimal text of a natural number. */
  function NaturalText(n: nat): (s: string)
    ensures |s| > 0 && DigitsValue(s) == Some(n)
    ensures forall i :: 0 <= i < |s| ==> IsDigit(s[i])
    ensures n > 0 ==> s[0] != '0'
    decreases n
  {
    if n < 10 then
      var s := [DigitChar(n)];
      assert s[..0] == "";
      s
    else
      var prefix := NaturalText(n / 10);
      var s := prefix + [DigitChar(n % 10)];
      assert s[..|s| - 1] == prefix;
      s
  }

  /** Integer.toString / Long.toString: a '-' for negatives, then the digits. */
  function DecimalText(n: int): (s: string)
    ensures |s| > 0 && (s[0] == '-' || IsDigit(s[0]))
    ensures forall i :: 0 <= i < |s| ==> s[i] == '-' || IsDigit(s[i])
  {
    if n < 0 then "-" + NaturalText(-n) else NaturalText(n)
  }

  /** Parsing the decimal text of a value in range gives the value back. */
  lemma ParseDecimalText(n: int, lo: int, hi: int)
    requires lo <= n <= hi
    ensures ParseInteger(DecimalText(n), lo, hi) == Some(n)
  {
    var s := DecimalText(n);
    if n < 0 {
      assert Magnitude(s) == NaturalText(-n);
    } else {
      assert Magnitude(s) == NaturalText(n);
    }
  }

  /** Integer.parseInt is a left inverse of Integer.toString on every int. */
  lemma ParseIntOfText(n: Int32)
    ensures ParseInt(DecimalText(n)) == Some(n)
  {
    ParseDecimalText(n, MinInt, MaxInt);
  }

  /** Long.parseLong is a left inverse of Long.toString on every long. */
  lemma ParseLongOfText(n: Int64)
    ensures ParseLong(DecimalText(n)) == Some(n)
  {
    ParseDecimalText(n, MinLong, MaxLong);
  }

  /** A space (or any other character that is not a sign or digit) anywhere makes the parse fail. */
  lemma ParseRejectsForeignChar(s: string, i: nat, lo: int, hi: int)
    requires i < |s| && !IsDigit(s[i]) && !(i == 0 && (s[i] == '-' || s[i] == '+'))
    ensures ParseInteger(s, lo, hi) == None
  {
    var m := Magnitude(s);
    if s[0] == '-' || s[0] == '+' {
      assert m[i - 1] == s[i];
      DigitsRejectForeign(m, i - 1);
    } else {
      DigitsRejectForeign(m, i);
    }
  }

  // ------------------------------------------------------------ trim, case

  /** String.trim: characters up to U+0020 count as white space. */
  predicate IsTrimmed(c: char) { c <= ' ' }

  function TrimStart(s: string): (r: string)
    ensures |r| <= |s|
  {
    if |s| > 0 && IsTrimmed(s[0]) then TrimStart(s[1..]) else s
  }

  function TrimEnd(s: string): (r: string)
    ensures |r| <= |s|
  {
    if |s| > 0 && IsTrimmed(s[|s| - 1]) then TrimEnd(s[..|s| - 1]) else s
  }

  /** TrimStart removes a prefix of white space, and all of it. */
  lemma {:induction false} TrimStartShape(s: string)
    ensures var r := TrimStart(s);
      |r| <= |s| && r == s[|s| - |r|..]
      && (|r| > 0 ==> !IsTrimmed(r[0]))
      && (forall i :: 0 <= i < |s| - |r| ==> IsTrimmed(s[i]))
  {
    if |s| > 0 && IsTrimmed(s[0]) {
      TrimStartShape(s[1..]);
      var r := TrimStart(s);
      forall i | 1 <= i < |s| - |r| ensures IsTrimmed(s[i]) {
        assert s[i] == s[1..][i - 1];
      }
    }
  }

  /** TrimEnd removes a suffix of white space, and all of it. */
  lemma {:induction false} TrimEndShape(s: string)
    ensures var r := TrimEnd(s);
      |r| <= |s| && r == s[..|r|]
      && (|r| > 0 ==> !IsTrimmed(r[|r| - 1]))
      && (forall i :: |r| <= i < |s| ==> IsTrimmed(s[i]))
  {
    if |s| > 0 && IsTrimmed(s[|s| - 1]) {
      TrimEndShape(s[..|s| - 1]);
    }
  }

  /** String.trim(): white space removed from both ends, and nothing else. */
  function Trim(s: string): (r: string)
    ensures |r| <= |TrimStart(s)| <= |s|
    ensures r == s[|s| - |TrimStart(s)|..|s| - |TrimStart(s)| + |r|]
    ensures |r| > 0 ==> !IsTrimmed(r[0]) && !IsTrimmed(r[|r| - 1])
    ensures forall i :: 0 <= i < |s| - |TrimStart(s)| ==> IsTrimmed(s[i])
    ensures forall i :: |s| - |TrimStart(s)| + |r| <= i < |s| ==> IsTrimmed(s[i])
  {
    TrimStartShape(s);
    TrimEndShape(TrimStart(s));
    var a := |s| - |TrimStart(s)|;
    assert forall i :: a + |TrimEnd(TrimStart(s))| <= i < |s| ==> s[i] == TrimStart(s)[i - a];
    TrimEnd(TrimStart(s))
  }

  /** Character.toLowerCase on the ASCII capitals; every other character is kept. */
  function LowerAscii(c: char): char
  {
    if 'A' <= c <= 'Z' then (c as int + 32) as char else c
  }

  /** String.toLowerCase() restricted to ASCII letters. */
  function ToLowerAscii(s: string): (r: string)
    ensures |r| == |s|
  {
    if |s| == 0 then [] else [LowerAscii(s[0])] + ToLowerAscii(s[1..])
  }

  /** ToLowerAscii works character by character. */
  lemma {:induction false} ToLowerAsciiAt(s: string, i: nat)
    requires i < |s|
    ensures ToLowerAscii(s)[i] == LowerAscii(s[i])
  {
    if i > 0 {
      ToLowerAsciiAt(s[1..], i - 1);
    }
  }
}
