/** The string operations of JavaScript that the core relies on: lower-casing,
    whitespace removal and trimming, `split`/`join`, decimal printing of numbers,
    `parseInt`, `padStart` and the string conversion of a value. A character
    is a Unicode scalar value, not a UTF-16 code unit as in JavaScript, so
    text outside the Basic Multilingual Plane has a different length here;
    only ASCII letters have a lower-case form. */
module Text {
  import opened Common

  /** The whitespace characters that `trim` and `\s` recognise: the white
      space and line terminators of ECMAScript, which are tab, vertical tab,
      form feed, the byte-order mark, line feed, carriage return, the line
      and paragraph separators, and the space separators of Unicode. */
  predicate IsSpace(c: char) {
    c == '\t' || c == '\n' || c == '\U{000B}' || c == '\U{000C}' || c == '\r' || c == ' '
    || c == '\U{00A0}' || c == '\U{1680}' || '\U{2000}' <= c <= '\U{200A}'
    || c == '\U{2028}' || c == '\U{2029}' || c == '\U{202F}' || c == '\U{205F}'
    || c == '\U{3000}' || c == '\U{FEFF}'
  }

  predicate IsDigit(c: char) {
    '0' <= c <= '9'
  }

  function LowerChar(c: char): (r: char)
    ensures !('A' <= r <= 'Z')
    ensures !('A' <= c <= 'Z') ==> r == c
  {
    if 'A' <= c <= 'Z' then (c as int + 32) as char else c
  }

  /** `s.toLowerCase()` on ASCII letters. */
  function Lower(s: string): (r: string)
    ensures |r| == |s|
    ensures forall i :: 0 <= i < |s| ==> r[i] == LowerChar(s[i])
  {
    if s == [] then [] else [LowerChar(s[0])] + Lower(s[1..])
  }

  lemma {:induction false} LowerAppend(a: string, b: string)
    ensures Lower(a + b) == Lower(a) + Lower(b)
  {
    if a != [] {
      assert (a + b)[1..] == a[1..] + b;
      LowerAppend(a[1..], b);
    }
  }

  /** `s.replace(/\s+/g, '')`: every whitespace character removed, the others kept in order. */
  function RemoveSpaces(s: string): (r: string)
    ensures |r| <= |s|
    ensures forall i :: 0 <= i < |r| ==> !IsSpace(r[i])
  {
    if s == [] then [] else (if IsSpace(s[0]) then [] else [s[0]]) + RemoveSpaces(s[1..])
  }

  lemma {:induction false} RemoveSpacesAppend(a: string, b: string)
    ensures RemoveSpaces(a + b) == RemoveSpaces(a) + RemoveSpaces(b)
  {
    if a != [] {
      assert (a + b)[0] == a[0];
      assert (a + b)[1..] == a[1..] + b;
      RemoveSpacesAppend(a[1..], b);
      var h := if IsSpace(a[0]) then [] else [a[0]];
      assert RemoveSpaces(a + b) == h + RemoveSpaces(a[1..] + b);
      assert RemoveSpaces(a) == h + RemoveSpaces(a[1..]);
    } else {
      assert a + b == b;
    }
  }

  lemma {:induction false} RemoveSpacesKeepsSpaceFree(s: string)
    requires forall i :: 0 <= i < |s| ==> !IsSpace(s[i])
    ensures RemoveSpaces(s) == s
  {
    if s != [] {
      RemoveSpacesKeepsSpaceFree(s[1..]);
    }
  }

  /** Leading whitespace removed (`trimStart`). */
  function TrimStart(s: string): (r: string)
    ensures |r| <= |s| && r == s[|s| - |r|..]
    ensures r != [] ==> !IsSpace(r[0])
    ensures forall i :: 0 <= i < |s| - |r| ==> IsSpace(s[i])
  {
    if s != [] && IsSpace(s[0]) then TrimStart(s[1..]) else s
  }

  /** Trailing whitespace removed (`trimEnd`). */
  function TrimEnd(s: string): (r: string)
    ensures |r| <= |s| && r == s[..|r|]
    ensures r != [] ==> !IsSpace(r[|r| - 1])
    ensures forall i :: |r| <= i < |s| ==> IsSpace(s[i])
  {
    if s != [] && IsSpace(s[|s| - 1]) then TrimEnd(s[..|s| - 1]) else s
  }

  /** `s.trim()`: the longest slice of `s` with no whitespace at either end. */
  function Trim(s: string): (r: string)
    ensures |r| <= |s|
    ensures r != [] ==> !IsSpace(r[0]) && !IsSpace(r[|r| - 1])
  {
    TrimEnd(TrimStart(s))
  }

  /** `trim` yields the empty string exactly for strings made only of whitespace. */
  lemma TrimEmpty(s: string)
    ensures Trim(s) == [] <==> forall i :: 0 <= i < |s| ==> IsSpace(s[i])
  {
    var t := TrimStart(s);
    if TrimEnd(t) == [] {
      assert t == [];
    } else {
      assert !IsSpace(s[|s| - |t|]);
    }
  }

  /** A string already free of surrounding whitespace is its own trim. */
  lemma TrimOfTrimmed(s: string)
    requires s != [] ==> !IsSpace(s[0]) && !IsSpace(s[|s| - 1])
    ensures Trim(s) == s
  {
  }

  /** Whitespace in front of a trimmed string is removed by `trim`. */
  lemma {:induction false} TrimLeadingSpace(s: string)
    requires s != [] ==> !IsSpace(s[0]) && !IsSpace(s[|s| - 1])
    ensures Trim(" " + s) == s
  {
    assert (" " + s)[1..] == s;
    assert TrimStart(" " + s) == TrimStart(s);
  }

  /** `s.split(c)`: the pieces between occurrences of `c`; an empty string gives `[""]`. */
  function Split(s: string, c: char): (r: seq<string>)
    ensures |r| >= 1
    ensures forall i, j :: 0 <= i < |r| && 0 <= j < |r[i]| ==> r[i][j] != c
    decreases |s|
  {
    if s == [] then [""]
    else
      var rest := Split(s[1..], c);
      if s[0] == c then [""] + rest else [[s[0]] + rest[0]] + rest[1..]
  }

  /** `parts.join(sep)`. */
  function Join(parts: seq<string>, sep: string): string
  {
    if |parts| == 0 then ""
    else if |parts| == 1 then parts[0]
    else parts[0] + sep + Join(parts[1..], sep)
  }

  predicate Free(s: string, c: char) {
    forall j :: 0 <= j < |s| ==> s[j] != c
  }

  /** Splitting a piece that does not contain the separator, followed by the separator. */
  lemma {:induction false} SplitAfterPiece(x: string, c: char, y: string)
    requires Free(x, c)
    ensures Split(x + [c] + y, c) == [x] + Split(y, c)
    decreases |x|
  {
    if x == [] {
      assert ([c] + y)[1..] == y;
    } else {
      assert (x + [c] + y)[1..] == x[1..] + [c] + y;
      SplitAfterPiece(x[1..], c, y);
      assert [x[0]] + x[1..] == x;
    }
  }

  lemma {:induction false} SplitOfPiece(x: string, c: char)
    requires Free(x, c)
    ensures Split(x, c) == [x]
    decreases |x|
  {
    if x != [] {
      SplitOfPiece(x[1..], c);
      assert [x[0]] + x[1..] == x;
    }
  }

  /** Joining with a one-character separator and splitting on it is the identity,
      as long as no piece contains the separator and there is at least one piece. */
  lemma {:induction false} SplitJoin(parts: seq<string>, c: char)
    requires |parts| >= 1
    requires forall i :: 0 <= i < |parts| ==> Free(parts[i], c)
    ensures Split(Join(parts, [c]), c) == parts
  {
    if |parts| == 1 {
      SplitOfPiece(parts[0], c);
    } else {
      SplitJoin(parts[1..], c);
      SplitAfterPiece(parts[0], c, Join(parts[1..], [c]));
      assert parts[0] + [c] + Join(parts[1..], [c]) == Join(parts, [c]);
    }
  }

  /** Decimal digit of a number below ten. */
  function DigitChar(d: nat): (c: char)
    requires d < 10
    ensures IsDigit(c)
  {
    ('0' as int + d) as char
  }

  function DigitValue(c: char): (d: nat)
    requires IsDigit(c)
    ensures d < 10 && DigitChar(d) == c
  {
    c as int - '0' as int
  }

  /** `String(n)` for a non-negative integer: decimal digits, no leading zero. */
  function NatToString(n: nat): (s: string)
    ensures |s| >= 1
    ensures forall i :: 0 <= i < |s| ==> IsDigit(s[i])
    ensures |s| > 1 ==> s[0] != '0'
  {
    if n < 10 then [DigitChar(n)] else NatToString(n / 10) + [DigitChar(n % 10)]
  }

  /** `String(i)` for any integer. */
  function IntToString(i: int): (s: string)
    ensures |s| >= 1
  {
    if i < 0 then "-" + NatToString(-i) else NatToString(i)
  }

  predicate AllDigits(s: string) {
    forall i :: 0 <= i < |s| ==> IsDigit(s[i])
  }

  /** The number written by a string of decimal digits. */
  function DigitsValue(s: string): nat
    requires AllDigits(s)
  {
    if s == [] then 0 else DigitsValue(s[..|s| - 1]) * 10 + DigitValue(s[|s| - 1])
  }

  /** Printing a number and reading its digits back gives the number. */
  lemma {:induction false} DigitsOfNat(n: nat)
    ensures DigitsValue(NatToString(n)) == n
  {
    var s := NatToString(n);
    if n >= 10 {
      DigitsOfNat(n / 10);
      assert s[..|s| - 1] == NatToString(n / 10);
    } else {
      assert s[..|s| - 1] == [];
    }
  }

  /** Leading zeros do not change the value of a digit string. */
  lemma {:induction false} LeadingZero(s: string)
    requires AllDigits(s)
    ensures AllDigits("0" + s) && DigitsValue("0" + s) == DigitsValue(s)
    decreases |s|
  {
    if s != [] {
      var t := "0" + s;
      assert t[..|t| - 1] == "0" + s[..|s| - 1];
      LeadingZero(s[..|s| - 1]);
    }
  }

  /** Length of the longest prefix made of decimal digits. */
  function DigitPrefixLen(s: string): (n: nat)
    ensures n <= |s|
    ensures AllDigits(s[..n])
    ensures n < |s| ==> !IsDigit(s[n])
  {
    if s != [] && IsDigit(s[0]) then
      var k := DigitPrefixLen(s[1..]);
      assert s[..1 + k] == [s[0]] + s[1..][..k];
      1 + k
    else 0
  }

  /** A run of digits followed by a non-digit (or nothing) is the whole digit prefix. */
  lemma {:induction false} DigitPrefixOfDigits(d: string, t: string)
    requires AllDigits(d)
    requires t == [] || !IsDigit(t[0])
    ensures DigitPrefixLen(d + t) == |d|
  {
    if d != [] {
      assert (d + t)[0] == d[0];
      assert (d + t)[1..] == d[1..] + t;
      DigitPrefixOfDigits(d[1..], t);
    } else {
      assert d + t == t;
    }
  }

  /** A printed number followed by a non-digit (or nothing) splits back into the
      number and what follows it. */
  lemma NumberThen(n: nat, t: string)
    requires t == [] || !IsDigit(t[0])
    ensures var d := NatToString(n);
      DigitPrefixLen(d + t) == |d| && (d + t)[..|d|] == d && (d + t)[|d|..] == t && DigitsValue(d) == n
  {
    var d := NatToString(n);
    DigitPrefixOfDigits(d, t);
    assert (d + t)[..|d|] == d;
    assert (d + t)[|d|..] == t;
    DigitsOfNat(n);
  }

  /** The value of the leading digits of `s`, or `None` when `s` does not start with a digit. */
  function LeadingNumber(s: string): Option<nat>
  {
    var n := DigitPrefixLen(s);
    if n == 0 then None else Some(DigitsValue(s[..n]))
  }

  /** `parseInt(s)` in base ten: leading whitespace skipped, an optional sign, then the
      longest run of digits; `None` is NaN. A `0x` prefix (hexadecimal) is not modelled. */
  function ParseInt(s: string): Option<int>
  {
    ParseSigned(TrimStart(s))
  }

  /** `parseInt` once the leading whitespace is gone. */
  function ParseSigned(t: string): Option<int>
  {
    if t != [] && t[0] == '-' then Negate(LeadingNumber(t[1..]))
    else if t != [] && t[0] == '+' then AsInt(LeadingNumber(t[1..]))
    else AsInt(LeadingNumber(t))
  }

  function AsInt(v: Option<nat>): Option<int> {
    match v
    case None => None
    case Some(n) => Some(n as int)
  }

  function Negate(v: Option<nat>): Option<int> {
    match v
    case None => None
    case Some(n) => Some(-(n as int))
  }

  lemma LeadingNumberOfDigits(s: string)
    requires s != [] && AllDigits(s)
    ensures LeadingNumber(s) == Some(DigitsValue(s))
  {
    AllDigitsPrefix(s);
    assert s[..|s|] == s;
  }

  /** `parseInt` reads back what `String` printed. */
  lemma ParseIntOfNat(n: nat)
    ensures ParseInt(NatToString(n)) == Some(n as int)
  {
    var s := NatToString(n);
    DigitsOfNat(n);
    LeadingNumberOfDigits(s);
    NoSpaceNoSign(s);
  }

  /** A string starting with a digit is read as an unsigned number from its first character. */
  lemma NoSpaceNoSign(s: string)
    requires s != [] && IsDigit(s[0])
    ensures ParseInt(s) == AsInt(LeadingNumber(s))
  {
    assert TrimStart(s) == s;
  }

  lemma ParseIntOfInt(i: int)
    ensures ParseInt(IntToString(i)) == Some(i)
  {
    if i < 0 {
      var d := NatToString(-i);
      var s := "-" + d;
      assert IntToString(i) == s;
      assert TrimStart(s) == s by { assert s[0] == '-'; }
      assert ParseSigned(s) == Negate(LeadingNumber(d)) by { assert s[1..] == d; }
      assert LeadingNumber(d) == Some(-i) by {
        LeadingNumberOfDigits(d);
        DigitsOfNat(-i);
      }
    } else {
      ParseIntOfNat(i);
    }
  }

  lemma {:induction false} AllDigitsPrefix(s: string)
    requires AllDigits(s)
    ensures DigitPrefixLen(s) == |s|
  {
    if s != [] {
      AllDigitsPrefix(s[1..]);
    }
  }

  /** The array index a property key names: `arr[key]` reads element `k` exactly
      when `key` is the canonical decimal form of `k`. */
  function CanonicalIndex(key: string): (r: Option<nat>)
    ensures r.Some? ==> AllDigits(key) && key != []
  {
    if key != [] && AllDigits(key) && (key == "0" || key[0] != '0') then Some(DigitsValue(key))
    else None
  }

  lemma CanonicalIndexOfNat(n: nat)
    ensures CanonicalIndex(NatToString(n)) == Some(n)
  {
    var s := NatToString(n);
    if |s| == 1 && s[0] == '0' {
      assert s == "0";
    }
    DigitsOfNat(n);
  }

  /** `s.padStart(2, '0')`. */
  function PadStart2(s: string): (r: string)
    ensures |r| == if |s| >= 2 then |s| else 2
    ensures r[|r| - |s|..] == s
    ensures forall i :: 0 <= i < |r| - |s| ==> r[i] == '0'
  {
    if |s| >= 2 then s else if |s| == 1 then "0" + s else "00"
  }

  /** Two-digit rendering of a number below one hundred. */
  function TwoDigits(n: nat): (r: string)
    requires n < 100
    ensures |r| == 2 && AllDigits(r) && DigitsValue(r) == n
  {
    var s := NatToString(n);
    DigitsOfNat(n);
    LeadingZero(s);
    assert n < 10 ==> PadStart2(s) == "0" + s;
    PadStart2(s)
  }

  /** The string conversion `String(v)` (and template-literal interpolation):
      arrays join their elements' conversions with ",", turning `null` and
      `undefined` elements into the empty string. */
  function ToJsString(v: Value): string
    decreases v
  {
    match v
    case Undefined => "undefined"
    case Null => "null"
    case Bool(b) => if b then "true" else "false"
    case Num(n) => IntToString(n)
    case Str(s) => s
    case Arr(items) =>
      Join(seq(|items|, i requires 0 <= i < |items| =>
        if items[i].Null? || items[i].Undefined? then "" else ToJsString(items[i])), ",")
    case Obj(_) => "[object Object]"
  }
}
