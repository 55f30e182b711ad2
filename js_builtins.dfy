/**
 * The fragments of JavaScript's string and number semantics that the modelled code relies on:
 * `trim`, `startsWith`, `replace`, `String(n)`, `parseInt(s, 10)` and `Number(s)`.
 * JavaScript numbers are modelled as integers or NaN; fractions and exponents are not modelled.
 */
module JsBuiltins {
  import opened Wrappers

  /** JavaScript truthiness of a possibly undefined (or null) string: present and not empty. */
  predicate Truthy(v: Option<string>) {
    v.Some? && v.value != ""
  }

  /** `v || fallback` for a possibly undefined string. */
  function Or(v: Option<string>, fallback: string): (r: string)
    ensures Truthy(v) ==> r == v.value
    ensures !Truthy(v) ==> r == fallback
  {
    if Truthy(v) then v.value else fallback
  }

  // ---------------------------------------------------------------- white space and trim

  /** ECMAScript WhiteSpace and LineTerminator code points (what `trim` and `parseInt` skip). */
  predicate IsWhitespace(c: char) {
    c == '\t' || c == '\n' || c == '\U{B}' || c == '\U{C}' || c == '\r' || c == ' '
    || c == '\U{A0}' || c == '\U{1680}' || ('\U{2000}' <= c <= '\U{200A}')
    || c == '\U{2028}' || c == '\U{2029}' || c == '\U{202F}' || c == '\U{205F}'
    || c == '\U{3000}' || c == '\U{FEFF}'
  }

  /** Drops leading white space. */
  function TrimStart(s: string): (r: string)
    ensures |r| <= |s| && r == s[|s| - |r|..]
    ensures r == [] || !IsWhitespace(r[0])
  {
    if s != [] && IsWhitespace(s[0]) then TrimStart(s[1..]) else s
  }

  /** Drops trailing white space. */
  function TrimEnd(s: string): (r: string)
    ensures |r| <= |s| && r == s[..|r|]
    ensures r == [] || !IsWhitespace(r[|r| - 1])
  {
    if s != [] && IsWhitespace(s[|s| - 1]) then TrimEnd(s[..|s| - 1]) else s
  }

  /** `String.prototype.trim`: the text between the leading and the trailing white space. */
  function Trim(s: string): (r: string)
    ensures |r| <= |s|
    ensures r == [] || (!IsWhitespace(r[0]) && !IsWhitespace(r[|r| - 1]))
    ensures (s == [] || (!IsWhitespace(s[0]) && !IsWhitespace(s[|s| - 1]))) ==> r == s
  {
    TrimEnd(TrimStart(s))
  }

  // ---------------------------------------------------------------- strings

  /** `s.startsWith(p)`. */
  predicate StartsWith(s: string, p: string) {
    |p| <= |s| && s[..|p|] == p
  }

  /** `s.replace(/c/g, rep)`: every occurrence of the character `c` replaced by `rep`. */
  function ReplaceAll(s: string, c: char, rep: string): (r: string)
    ensures c !in s ==> r == s
  {
    if s == [] then [] else (if s[0] == c then rep else [s[0]]) + ReplaceAll(s[1..], c, rep)
  }

  /** Replacing all occurrences distributes over concatenation. */
  lemma {:induction false} ReplaceAllConcat(a: string, b: string, c: char, rep: string)
    ensures ReplaceAll(a + b, c, rep) == ReplaceAll(a, c, rep) + ReplaceAll(b, c, rep)
  {
    if a == [] {
      assert a + b == b;
    } else {
      assert (a + b)[0] == a[0];
      assert (a + b)[1..] == a[1..] + b;
      ReplaceAllConcat(a[1..], b, c, rep);
    }
  }

  /** `s.replace("c", rep)` with a string pattern: only the first occurrence is replaced. */
  function ReplaceFirst(s: string, c: char, rep: string): (r: string)
    ensures s != [] && s[0] == c ==> r == rep + s[1..]
  {
    if s == [] then []
    else if s[0] == c then rep + s[1..]
    else [s[0]] + ReplaceFirst(s[1..], c, rep)
  }

  /** Without an occurrence of `c` nothing is replaced. */
  lemma {:induction false} ReplaceFirstAbsent(s: string, c: char, rep: string)
    requires c !in s
    ensures ReplaceFirst(s, c, rep) == s
  {
    if s != [] {
      assert c !in s[1..];
      ReplaceFirstAbsent(s[1..], c, rep);
      assert s == [s[0]] + s[1..];
    }
  }

  /** The first occurrence of `c` is the one replaced; what follows it is kept as it is. */
  lemma {:induction false} ReplaceFirstAt(a: string, c: char, rep: string, b: string)
    requires c !in a
    ensures ReplaceFirst(a + ([c] + b), c, rep) == a + (rep + b)
  {
    if a == [] {
      assert a + ([c] + b) == [c] + b;
    } else {
      var s := a + ([c] + b);
      assert s[0] == a[0] && s[1..] == a[1..] + ([c] + b);
      assert c !in a[1..];
      ReplaceFirstAt(a[1..], c, rep, b);
      assert a == [a[0]] + a[1..];
    }
  }

  /** `s.split(c)` for a one-character separator: the pieces between the separators, in order. */
  function Split(s: string, c: char): (parts: seq<string>)
    ensures |parts| >= 1
    ensures c !in s ==> parts == [s]
  {
    if s == [] then [[]]
    else
      var rest := Split(s[1..], c);
      assert s == [s[0]] + s[1..];
      assert c !in s ==> c !in s[1..];
      if s[0] == c then [[]] + rest else [[s[0]] + rest[0]] + rest[1..]
  }

  /** The piece before the first separator comes first, and the rest is split on its own. */
  lemma {:induction false} SplitAfter(a: string, c: char, b: string)
    requires c !in a
    ensures Split(a + [c] + b, c) == [a] + Split(b, c)
  {
    if a == [] {
      assert a + [c] + b == [c] + b;
      assert ([c] + b)[1..] == b;
    } else {
      assert (a + [c] + b)[0] == a[0] != c;
      assert (a + [c] + b)[1..] == a[1..] + [c] + b;
      assert a == [a[0]] + a[1..];
      SplitAfter(a[1..], c, b);
    }
  }

  // ---------------------------------------------------------------- decimal digits

  predicate IsDigit(c: char) {
    '0' <= c <= '9'
  }

  function DigitChar(d: nat): (c: char)
    requires d < 10
    ensures IsDigit(c) && c as int - '0' as int == d
  {
    ['0', '1', '2', '3', '4', '5', '6', '7', '8', '9'][d]
  }

  /** The value of a string of decimal digits, read most significant first. */
  function DigitsValue(s: string): (n: nat)
    requires forall k :: 0 <= k < |s| ==> IsDigit(s[k])
  {
    if s == [] then 0
    else
      assert IsDigit(s[|s| - 1]);
      DigitsValue(s[..|s| - 1]) * 10 + (s[|s| - 1] as int - '0' as int)
  }

  /** `String(n)` for a non-negative integer: its shortest decimal representation. */
  function NatToString(n: nat): (r: string)
    ensures |r| >= 1
    ensures forall k :: 0 <= k < |r| ==> IsDigit(r[k])
    ensures r[0] != '0' || n == 0
  {
    if n < 10 then [DigitChar(n)] else NatToString(n / 10) + [DigitChar(n % 10)]
  }

  /** Reading back the decimal digits of `n` gives `n`. */
  lemma {:induction false} NatToStringRoundTrip(n: nat)
    ensures DigitsValue(NatToString(n)) == n
  {
    if n >= 10 {
      var s := NatToString(n);
      assert s[..|s| - 1] == NatToString(n / 10);
      NatToStringRoundTrip(n / 10);
    }
  }

  /** `String(i)` for an integer. */
  function IntToString(i: int): (r: string)
    ensures |r| >= 1
    ensures i >= 0 ==> forall k :: 0 <= k < |r| ==> IsDigit(r[k])
    ensures i < 0 ==> r[0] == '-'
  {
    if i < 0 then "-" + NatToString(-i) else NatToString(i)
  }

  // ---------------------------------------------------------------- numbers

  /** A JavaScript number, restricted to integers and NaN. */
  datatype NumberValue = Num(value: int) | NaN

  /** Template-literal / `String` rendering of a number. */
  function NumberToString(v: NumberValue): string {
    match v
    case Num(i) => IntToString(i)
    case NaN => "NaN"
  }

  /** The longest prefix of `s` made of decimal digits. */
  function DigitPrefix(s: string): (r: string)
    ensures |r| <= |s| && r == s[..|r|]
    ensures forall k :: 0 <= k < |r| ==> IsDigit(r[k])
    ensures |r| < |s| ==> !IsDigit(s[|r|])
  {
    if s != [] && IsDigit(s[0]) then [s[0]] + DigitPrefix(s[1..]) else []
  }

  /**
   * `parseInt(s, 10)`: skips leading white space, reads an optional sign and then the longest run
   * of decimal digits; NaN when there is no digit. Trailing text is ignored.
   */
  function ParseInt(s: string): (r: NumberValue)
    ensures r.NaN? <==> DigitPrefix(SignStripped(TrimStart(s))) == []
  {
    var t := TrimStart(s);
    var d := DigitPrefix(SignStripped(t));
    if d == [] then NaN else Num(Signed(t, DigitsValue(d)))
  }

  /** `n`, negated when the text `t` it was read from starts with `-`. */
  function Signed(t: string, n: nat): (r: int)
    ensures r == n || r == -(n as int)
  {
    if t != [] && t[0] == '-' then -(n as int) else n
  }

  /** `t` without one leading `+` or `-`. */
  function SignStripped(t: string): (u: string)
    ensures |u| <= |t|
  {
    if t != [] && (t[0] == '-' || t[0] == '+') then t[1..] else t
  }

  /** `parseInt` reads back every rendering of a non-negative integer, and any text after it is ignored. */
  lemma ParseIntOfNatToString(n: nat, tail: string)
    requires tail == [] || !IsDigit(tail[0])
    ensures ParseInt(NatToString(n) + tail) == Num(n)
  {
    var s := NatToString(n) + tail;
    assert !IsWhitespace(s[0]);
    assert TrimStart(s) == s;
    assert SignStripped(s) == s;
    DigitPrefixOfDigits(NatToString(n), tail);
    NatToStringRoundTrip(n);
  }

  lemma {:induction false} DigitPrefixOfDigits(d: string, tail: string)
    requires forall k :: 0 <= k < |d| ==> IsDigit(d[k])
    requires tail == [] || !IsDigit(tail[0])
    ensures DigitPrefix(d + tail) == d
  {
    if d != [] {
      assert (d + tail)[1..] == d[1..] + tail;
      DigitPrefixOfDigits(d[1..], tail);
    }
  }

  /** The radix a `Number` literal prefix names after its `0`: `x` 16, `o` 8, `b` 2; 0 for any other character. */
  function RadixOf(c: char): (radix: nat)
    ensures radix == 0 || radix == 2 || radix == 8 || radix == 16
    ensures IsDigit(c) ==> radix == 0
  {
    if c == 'x' || c == 'X' then 16
    else if c == 'o' || c == 'O' then 8
    else if c == 'b' || c == 'B' then 2
    else 0
  }

  /** A character's digit value: `0`-`9`, then `a`-`z` or `A`-`Z` as 10 to 35; 36 for anything else. */
  function DigitOf(c: char): (d: nat)
    ensures d <= 36
    ensures IsDigit(c) <==> d < 10
  {
    if IsDigit(c) then c as int - '0' as int
    else if 'a' <= c <= 'z' then c as int - 'a' as int + 10
    else if 'A' <= c <= 'Z' then c as int - 'A' as int + 10
    else 36
  }

  /** Every character of `s` is a digit of base `radix`. */
  predicate RadixDigits(s: string, radix: nat) {
    forall k :: 0 <= k < |s| ==> DigitOf(s[k]) < radix
  }

  /** The value of the digits `s` in base `radix`. */
  function RadixValue(s: string, radix: nat): (n: nat)
    requires RadixDigits(s, radix)
  {
    if s == [] then 0 else RadixValue(s[..|s| - 1], radix) * radix + DigitOf(s[|s| - 1])
  }

  /** In base 10, RadixValue is the decimal reading. */
  lemma {:induction false} RadixValueTen(s: string)
    requires forall k :: 0 <= k < |s| ==> IsDigit(s[k])
    ensures RadixDigits(s, 10) && RadixValue(s, 10) == DigitsValue(s)
  {
    if s != [] {
      RadixValueTen(s[..|s| - 1]);
    }
  }

  /**
   * `Number(s)` for a string: white space around the text is ignored and the empty string is 0.
   * `0x`, `0o` or `0b` (either case) followed by digits of that base is their value. An
   * optionally signed run of decimal digits is its value. Any other text is NaN here, including
   * the decimal-point, exponent and `Infinity` forms.
   */
  function StringToNumber(s: string): (r: NumberValue)
    ensures Trim(s) == [] ==> r == Num(0)
  {
    var t := Trim(s);
    if t == [] then Num(0)
    else if HasRadixPrefix(t) then RadixNumber(t)
    else DecimalNumber(t)
  }

  /** `t` starts with `0x`, `0o` or `0b`, in either case. */
  predicate HasRadixPrefix(t: string) {
    |t| >= 2 && t[0] == '0' && RadixOf(t[1]) != 0
  }

  /** A radix literal: at least one digit of its base after the prefix, or NaN. */
  function RadixNumber(t: string): (r: NumberValue)
    requires HasRadixPrefix(t)
  {
    var digits := t[2..];
    if digits != [] && RadixDigits(digits, RadixOf(t[1])) then Num(RadixValue(digits, RadixOf(t[1]))) else NaN
  }

  /** A decimal literal: an optional sign and a non-empty run of decimal digits, or NaN. */
  function DecimalNumber(t: string): (r: NumberValue)
    requires t != []
  {
    var u := SignStripped(t);
    if u == [] || DigitPrefix(u) != u then NaN
    else if t[0] == '-' then Num(-(DigitsValue(u) as int))
    else Num(DigitsValue(u))
  }

  /** `Number("0x…")`, `Number("0o…")` and `Number("0b…")` read the digits in that base. */
  lemma RadixLiteral(p: char, digits: string)
    requires RadixOf(p) != 0 && digits != [] && RadixDigits(digits, RadixOf(p))
    ensures StringToNumber("0" + [p] + digits) == Num(RadixValue(digits, RadixOf(p)))
  {
    var t := "0" + [p] + digits;
    assert t[|t| - 1] == digits[|digits| - 1];
    DigitIsNotWhitespace(t[|t| - 1]);
    assert Trim(t) == t;
    assert HasRadixPrefix(t) && t[2..] == digits;
  }

  lemma DigitIsNotWhitespace(c: char)
    requires DigitOf(c) < 36
    ensures !IsWhitespace(c)
  {
  }

  /** `Number` of a non-empty run of decimal digits is their value; leading zeros do not matter. */
  lemma StringToNumberOfDigits(s: string)
    requires s != [] && forall k :: 0 <= k < |s| ==> IsDigit(s[k])
    ensures StringToNumber(s) == Num(DigitsValue(s))
  {
    UnsignedDigits(s);
    AllDigitsPrefix(s);
    assert !HasRadixPrefix(s) by {
      if |s| >= 2 {
        assert IsDigit(s[1]);
      }
    }
  }

  lemma UnsignedDigits(s: string)
    requires s != [] && IsDigit(s[0]) && IsDigit(s[|s| - 1])
    ensures Trim(s) == s && SignStripped(s) == s && s[0] != '-'
  {
  }

  lemma {:induction false} AllDigitsPrefix(d: string)
    requires forall k :: 0 <= k < |d| ==> IsDigit(d[k])
    ensures DigitPrefix(d) == d
  {
    if d != [] {
      AllDigitsPrefix(d[1..]);
    }
  }

  /** `Number` reads back every rendering of a non-negative integer. */
  lemma StringToNumberOfNatToString(n: nat)
    ensures StringToNumber(NatToString(n)) == Num(n)
  {
    StringToNumberOfDigits(NatToString(n));
    NatToStringRoundTrip(n);
  }

  /** `a + b` on numbers: NaN when either side is NaN. */
  function NumAdd(a: NumberValue, b: NumberValue): (r: NumberValue)
    ensures r.NaN? <==> a.NaN? || b.NaN?
    ensures r.Num? ==> r.value == a.value + b.value
  {
    if a.NaN? || b.NaN? then NaN else Num(a.value + b.value)
  }

  /** `a * b` on numbers: NaN when either side is NaN. */
  function NumMul(a: NumberValue, b: NumberValue): (r: NumberValue)
    ensures r.NaN? <==> a.NaN? || b.NaN?
    ensures r.Num? ==> r.value == a.value * b.value
  {
    if a.NaN? || b.NaN? then NaN else Num(a.value * b.value)
  }

  // ---------------------------------------------------------------- arrays

  /** `array.filter(keep)`: the elements `keep` accepts, in their order. */
  function Filter<E>(s: seq<E>, keep: E -> bool): seq<E>
  {
    if s == [] then [] else (if keep(s[0]) then [s[0]] else []) + Filter(s[1..], keep)
  }

  /** The filter keeps exactly the accepted elements. */
  lemma {:induction false} FilterMembers<E>(s: seq<E>, keep: E -> bool)
    ensures forall e :: e in Filter(s, keep) <==> e in s && keep(e)
  {
    if s != [] {
      FilterMembers(s[1..], keep);
      assert s == [s[0]] + s[1..];
    }
  }

  /** Filtering distributes over concatenation, so the filter keeps the order. */
  lemma {:induction false} FilterAppend<E>(a: seq<E>, b: seq<E>, keep: E -> bool)
    ensures Filter(a + b, keep) == Filter(a, keep) + Filter(b, keep)
  {
    if a == [] {
      assert a + b == b;
    } else {
      var head := if keep(a[0]) then [a[0]] else [];
      assert (a + b)[0] == a[0] && (a + b)[1..] == a[1..] + b;
      assert Filter(a + b, keep) == head + Filter(a[1..] + b, keep);
      FilterAppend(a[1..], b, keep);
      assert Filter(a, keep) == head + Filter(a[1..], keep);
    }
  }

  /** Two filters in a row are one filter that asks both tests. */
  lemma {:induction false} FilterTwice<E>(s: seq<E>, first: E -> bool, second: E -> bool, both: E -> bool)
    requires forall e :: both(e) == (first(e) && second(e))
    ensures Filter(Filter(s, first), second) == Filter(s, both)
  {
    if s != [] {
      FilterTwice(s[1..], first, second, both);
      var head := if first(s[0]) then [s[0]] else [];
      FilterAppend(head, Filter(s[1..], first), second);
      if first(s[0]) {
        assert Filter(head, second) == (if second(s[0]) then [s[0]] else []) + Filter([], second);
      }
    }
  }

  /** A filter that accepts everything changes nothing. */
  lemma {:induction false} FilterAll<E>(s: seq<E>, keep: E -> bool)
    requires forall e :: e in s ==> keep(e)
    ensures Filter(s, keep) == s
  {
    if s != [] {
      assert s == [s[0]] + s[1..];
      FilterAll(s[1..], keep);
    }
  }

  /** `a` is an order-preserving subsequence of `b` (matched greedily from the left). */
  ghost predicate SubsequenceOf<E>(a: seq<E>, b: seq<E>)
    decreases |b|
  {
    if a == [] then true
    else if b == [] then false
    else if a[0] == b[0] then SubsequenceOf(a[1..], b[1..])
    else SubsequenceOf(a, b[1..])
  }

  /** A filter's result is a subsequence of its input. */
  lemma {:induction false} FilterSubsequence<E>(s: seq<E>, keep: E -> bool)
    ensures SubsequenceOf(Filter(s, keep), s)
  {
    if s != [] {
      FilterSubsequence(s[1..], keep);
      var r := Filter(s, keep);
      if keep(s[0]) {
        assert r[0] == s[0] && r[1..] == Filter(s[1..], keep);
      } else {
        assert r == Filter(s[1..], keep);
        SubsequenceSkip(r, s);
      }
    }
  }

  /** A subsequence of the tail is a subsequence of the whole. */
  lemma {:induction false} SubsequenceSkip<E>(a: seq<E>, b: seq<E>)
    requires b != [] && SubsequenceOf(a, b[1..])
    ensures SubsequenceOf(a, b)
    decreases |b|, 0
  {
    if a != [] && a[0] == b[0] {
      SubsequenceDropHead(a, b[1..]);
    }
  }

  /** Dropping the first element of a subsequence leaves a subsequence. */
  lemma {:induction false} SubsequenceDropHead<E>(a: seq<E>, t: seq<E>)
    requires a != [] && SubsequenceOf(a, t)
    ensures SubsequenceOf(a[1..], t)
    decreases |t|, 1
  {
    if a[0] == t[0] {
      SubsequenceSkip(a[1..], t);
    } else {
      SubsequenceDropHead(a, t[1..]);
      SubsequenceSkip(a[1..], t);
    }
  }
}
