/**
 * The PHP string built-ins the core relies on, over `seq<char>`:
 * trim/rtrim, explode/implode, strtolower, str_starts_with, and the integer
 * reading behind `(int)$s` and PHP 8's loose comparison of a string with an int.
 */
module PhpStr {
  import opened Optional

  /** The characters PHP's trim() removes when no list is given: " \t\n\r\0\x0B". */
  const DefaultTrimChars: set<char> := {' ', '\t', '\n', '\r', '\0', '\U{B}'}

  /** The whitespace PHP skips in front of an integer string: " \t\n\r\v\f". */
  const NumericSpace: set<char> := {' ', '\t', '\n', '\r', '\U{B}', '\U{C}'}

  // ---------------------------------------------------------------------------
  // trim

  /** ltrim($s, $cs): the suffix left after dropping every leading character in cs. */
  function TrimLeft(s: string, cs: set<char>): (r: string)
    ensures |r| <= |s| && r == s[|s| - |r|..]
    ensures r == [] || r[0] !in cs
    ensures forall k :: 0 <= k < |s| - |r| ==> s[k] in cs
  {
    if |s| > 0 && s[0] in cs then TrimLeft(s[1..], cs) else s
  }

  /** rtrim($s, $cs): the prefix left after dropping every trailing character in cs. */
  function TrimRight(s: string, cs: set<char>): (r: string)
    ensures |r| <= |s| && r == s[..|r|]
    ensures r == [] || r[|r| - 1] !in cs
    ensures forall k :: |r| <= k < |s| ==> s[k] in cs
  {
    if |s| > 0 && s[|s| - 1] in cs then TrimRight(s[..|s| - 1], cs) else s
  }

  /** trim($s, $cs). */
  function Trim(s: string, cs: set<char>): string
  {
    TrimRight(TrimLeft(s, cs), cs)
  }

  /** ltrim() keeps a string that does not start with a trimmed character. */
  lemma {:induction false} TrimLeftNoop(s: string, cs: set<char>)
    requires s == [] || s[0] !in cs
    ensures TrimLeft(s, cs) == s
  {
  }

  /** rtrim() keeps a string that does not end with a trimmed character. */
  lemma {:induction false} TrimRightNoop(s: string, cs: set<char>)
    requires s == [] || s[|s| - 1] !in cs
    ensures TrimRight(s, cs) == s
  {
  }

  /** trim() keeps a string unchanged exactly when it neither starts nor ends with a trimmed character. */
  lemma {:induction false} TrimNoop(s: string, cs: set<char>)
    ensures Trim(s, cs) == s <==> (s == [] || (s[0] !in cs && s[|s| - 1] !in cs))
  {
    if s == [] || (s[0] !in cs && s[|s| - 1] !in cs) {
      TrimLeftNoop(s, cs);
      TrimRightNoop(s, cs);
    } else {
      TrimEnds(s, cs);
    }
  }

  /** The result of trim() neither starts nor ends with a trimmed character. */
  lemma {:induction false} TrimEnds(s: string, cs: set<char>)
    ensures var t := Trim(s, cs); t == [] || (t[0] !in cs && t[|t| - 1] !in cs)
  {
    var l := TrimLeft(s, cs);
    var t := TrimRight(l, cs);
    if t != [] {
      assert t[0] == l[0];
    }
  }

  /** trim() is idempotent. */
  lemma {:induction false} TrimIdempotent(s: string, cs: set<char>)
    ensures Trim(Trim(s, cs), cs) == Trim(s, cs)
  {
    var t := Trim(s, cs);
    TrimEnds(s, cs);
    TrimLeftNoop(t, cs);
    TrimRightNoop(t, cs);
  }

  // ---------------------------------------------------------------------------
  // explode / implode

  /** implode($d, $parts) for a non-empty list of parts. */
  function Join(parts: seq<string>, d: char): string
    requires |parts| >= 1
  {
    if |parts| == 1 then parts[0] else parts[0] + [d] + Join(parts[1..], d)
  }

  /** explode($d, $s): the pieces between occurrences of d (explode never returns an empty list). */
  function Split(s: string, d: char): (r: seq<string>)
    ensures |r| >= 1
    ensures forall i :: 0 <= i < |r| ==> d !in r[i]
  {
    if |s| == 0 then [""]
    else
      var rest := Split(s[1..], d);
      if s[0] == d then [""] + rest else [[s[0]] + rest[0]] + rest[1..]
  }

  /** Joining the pieces of explode() gives the string back. */
  lemma {:induction false} JoinSplit(s: string, d: char)
    ensures Join(Split(s, d), d) == s
  {
    if |s| > 0 {
      var rest := Split(s[1..], d);
      JoinSplit(s[1..], d);
      if s[0] != d {
        var r := [[s[0]] + rest[0]] + rest[1..];
        assert r[1..] == rest[1..];
        if |rest| == 1 {
          assert Join(r, d) == [s[0]] + rest[0];
        } else {
          assert Join(r, d) == [s[0]] + rest[0] + [d] + Join(rest[1..], d);
          assert Join(rest, d) == rest[0] + [d] + Join(rest[1..], d);
        }
      } else {
        assert ([""] + rest)[1..] == rest;
      }
    }
  }

  /** A string without the delimiter explodes to itself alone. */
  lemma {:induction false} SplitNoDelimiter(a: string, d: char)
    requires d !in a
    ensures Split(a, d) == [a]
  {
    if |a| > 0 {
      SplitNoDelimiter(a[1..], d);
      assert [a[0]] + a[1..] == a;
    }
  }

  /** explode() splits at the first delimiter when the text before it has none. */
  lemma {:induction false} SplitAtFirst(a: string, d: char, b: string)
    requires d !in a
    ensures Split(a + [d] + b, d) == [a] + Split(b, d)
  {
    if |a| == 0 {
      assert a + [d] + b == [d] + b;
      assert ([d] + b)[1..] == b;
    } else {
      var s := a + [d] + b;
      assert s[1..] == a[1..] + [d] + b;
      SplitAtFirst(a[1..], d, b);
      var rest := Split(s[1..], d);
      assert rest[0] == a[1..];
      assert [a[0]] + a[1..] == a;
      assert rest[1..] == Split(b, d);
    }
  }

  /** explode() undoes implode() when no piece contains the delimiter. */
  lemma {:induction false} SplitJoin(parts: seq<string>, d: char)
    requires |parts| >= 1
    requires forall i :: 0 <= i < |parts| ==> d !in parts[i]
    ensures Split(Join(parts, d), d) == parts
  {
    if |parts| == 1 {
      SplitNoDelimiter(parts[0], d);
    } else {
      SplitJoin(parts[1..], d);
      SplitAtFirst(parts[0], d, Join(parts[1..], d));
      assert [parts[0]] + parts[1..] == parts;
    }
  }

  // ---------------------------------------------------------------------------
  // characters and case

  predicate IsAsciiUpper(c: char) { 'A' <= c <= 'Z' }
  predicate IsAsciiLower(c: char) { 'a' <= c <= 'z' }
  predicate IsDigit(c: char) { '0' <= c <= '9' }

  /** strtolower() on one character: PHP 8 maps only A-Z. */
  function LowerChar(c: char): (r: char)
    ensures IsAsciiUpper(c) ==> IsAsciiLower(r) && r as int == c as int + 32
    ensures !IsAsciiUpper(c) ==> r == c
  {
    if IsAsciiUpper(c) then (c as int + 32) as char else c
  }

  /** strtolower($s). */
  function AsciiLower(s: string): (r: string)
    ensures |r| == |s|
    ensures forall i :: 0 <= i < |s| ==> r[i] == LowerChar(s[i])
  {
    if s == [] then [] else [LowerChar(s[0])] + AsciiLower(s[1..])
  }

  /** str_starts_with($s, $p). */
  predicate StartsWith(s: string, p: string)
  {
    |p| <= |s| && s[..|p|] == p
  }

  /** PHP's falsy strings: `!$s` holds for exactly "" and "0". */
  predicate IsFalsy(s: string)
  {
    s == "" || s == "0"
  }

  // ---------------------------------------------------------------------------
  // integers in decimal

  function DigitValue(c: char): (r: nat)
    requires IsDigit(c)
    ensures r < 10
  {
    c as int - '0' as int
  }

  function DigitChar(n: nat): (c: char)
    requires n < 10
    ensures IsDigit(c) && DigitValue(c) == n
  {
    ('0' as int + n) as char
  }

  /** The longest prefix of s made of decimal digits. */
  function LeadingDigits(s: string): (r: string)
    ensures |r| <= |s| && r == s[..|r|]
    ensures forall i :: 0 <= i < |r| ==> IsDigit(r[i])
    ensures |r| < |s| ==> !IsDigit(s[|r|])
  {
    if |s| > 0 && IsDigit(s[0]) then [s[0]] + LeadingDigits(s[1..]) else []
  }

  /** The number a run of digits denotes, most significant first. */
  function DigitsValue(ds: string): nat
    requires forall i :: 0 <= i < |ds| ==> IsDigit(ds[i])
  {
    if |ds| == 0 then 0 else DigitsValue(ds[..|ds| - 1]) * 10 + DigitValue(ds[|ds| - 1])
  }

  /** The decimal digits of a natural number, without leading zeros. */
  function Digits(n: nat): (r: string)
    ensures |r| >= 1
    ensures forall i :: 0 <= i < |r| ==> IsDigit(r[i])
  {
    if n < 10 then [DigitChar(n)] else Digits(n / 10) + [DigitChar(n % 10)]
  }

  /** Reading the digits of n back gives n. */
  lemma {:induction false} DigitsValueOfDigits(n: nat)
    ensures DigitsValue(Digits(n)) == n
  {
    if n >= 10 {
      DigitsValueOfDigits(n / 10);
      var ds := Digits(n);
      assert ds[..|ds| - 1] == Digits(n / 10);
    }
  }

  /** The string PHP produces for an int (`(string)$n`, string interpolation). */
  function DecimalString(n: int): string
  {
    if n < 0 then "-" + Digits(-n) else Digits(n)
  }

  /**
   * The integer at the start of s, after PHP's leading whitespace and an
   * optional sign, or None when no digit follows: what `(int)$s` reads and,
   * for the arithmetic in JWT::verify, what makes a string "leading-numeric".
   */
  function LeadingInt(s: string): (r: Option<int>)
  {
    var t := TrimLeft(s, NumericSpace);
    if |t| > 0 && (t[0] == '-' || t[0] == '+') then
      match UnsignedInt(t[1..])
      case None => None
      case Some(v) => if t[0] == '-' then Some(-(v as int)) else Some(v)
    else UnsignedInt(t)
  }

  /** The value of the leading digits of t, or None when t does not start with a digit. */
  function UnsignedInt(t: string): Option<nat>
  {
    var ds := LeadingDigits(t);
    if ds == [] then None else Some(DigitsValue(ds))
  }

  /** `(int)$s` for the integer forms: 0 when no integer can be read. */
  function Intval(s: string): int
  {
    LeadingInt(s).GetOr(0)
  }

  /**
   * PHP 8's integer numeric strings: optional leading whitespace, an optional
   * sign, digits, optional trailing whitespace, and nothing else.
   */
  predicate IsIntegerNumeric(s: string)
  {
    var t := TrimLeft(s, NumericSpace);
    var body := if |t| > 0 && (t[0] == '-' || t[0] == '+') then t[1..] else t;
    var ds := LeadingDigits(body);
    ds != [] && TrimLeft(body[|ds|..], NumericSpace) == []
  }

  /** `(int)` reads back what `(string)` wrote: Intval(DecimalString(n)) == n. */
  lemma {:induction false} IntvalDecimalString(n: int)
    ensures LeadingInt(DecimalString(n)) == Some(n)
    ensures Intval(DecimalString(n)) == n
    ensures IsIntegerNumeric(DecimalString(n))
  {
    var m: nat := if n < 0 then -n else n;
    DigitsValueOfDigits(m);
    if n < 0 {
      var s := DecimalString(n);
      assert s[1..] == Digits(m);
      SignedDigitsRead(s);
    } else {
      DigitsRead(Digits(m));
    }
  }

  /** A run of digits reads as its value and is an integer numeric string. */
  lemma DigitsRead(ds: string)
    requires |ds| >= 1 && forall i :: 0 <= i < |ds| ==> IsDigit(ds[i])
    ensures LeadingInt(ds) == Some(DigitsValue(ds))
    ensures IsIntegerNumeric(ds)
  {
    DigitsLeadingInt(ds);
    DigitsNumeric(ds);
  }

  lemma DigitsLeadingInt(ds: string)
    requires |ds| >= 1 && forall i :: 0 <= i < |ds| ==> IsDigit(ds[i])
    ensures LeadingInt(ds) == Some(DigitsValue(ds))
  {
    UnsignedUntrimmed(ds);
    DigitsUnsigned(ds);
  }

  /** A run of digits is read whole. */
  lemma DigitsUnsigned(ds: string)
    requires |ds| >= 1 && forall i :: 0 <= i < |ds| ==> IsDigit(ds[i])
    ensures UnsignedInt(ds) == Some(DigitsValue(ds))
  {
    AllDigitsLeading(ds);
  }

  lemma DigitsNumeric(ds: string)
    requires |ds| >= 1 && forall i :: 0 <= i < |ds| ==> IsDigit(ds[i])
    ensures IsIntegerNumeric(ds)
  {
    AllDigitsLeading(ds);
    UnsignedUntrimmed(ds);
    assert ds[|ds|..] == [];
    assert TrimLeft([], NumericSpace) == [];
  }

  /** A string starting with a digit has no leading space and no sign. */
  lemma UnsignedUntrimmed(ds: string)
    requires |ds| >= 1 && IsDigit(ds[0])
    ensures TrimLeft(ds, NumericSpace) == ds && ds[0] != '-' && ds[0] != '+'
  {
    assert ds[0] !in NumericSpace;
  }

  /** A minus sign and a run of digits read as the negated value. */
  lemma SignedDigitsRead(s: string)
    requires |s| >= 2 && s[0] == '-' && forall i :: 1 <= i < |s| ==> IsDigit(s[i])
    ensures forall i :: 0 <= i < |s[1..]| ==> IsDigit(s[1..][i])
    ensures LeadingInt(s) == Some(-(DigitsValue(s[1..]) as int))
    ensures IsIntegerNumeric(s)
  {
    SignedLeadingInt(s);
    SignedNumeric(s);
  }

  lemma SignedLeadingInt(s: string)
    requires |s| >= 2 && s[0] == '-' && forall i :: 1 <= i < |s| ==> IsDigit(s[i])
    ensures forall i :: 0 <= i < |s[1..]| ==> IsDigit(s[1..][i])
    ensures LeadingInt(s) == Some(-(DigitsValue(s[1..]) as int))
  {
    TrimLeftNoop(s, NumericSpace);
    var ds := s[1..];
    assert forall i :: 0 <= i < |ds| ==> IsDigit(ds[i]);
    DigitsUnsigned(ds);
    MinusRead(s, DigitsValue(ds));
  }

  lemma SignedNumeric(s: string)
    requires |s| >= 2 && s[0] == '-' && forall i :: 1 <= i < |s| ==> IsDigit(s[i])
    ensures IsIntegerNumeric(s)
  {
    TrimLeftNoop(s, NumericSpace);
    var ds := s[1..];
    assert forall i :: 0 <= i < |ds| ==> IsDigit(ds[i]);
    AllDigitsLeading(ds);
    assert ds[|ds|..] == [];
    assert TrimLeft([], NumericSpace) == [];
  }

  /** A minus, where no space precedes it, negates the unsigned value after it. */
  lemma MinusRead(s: string, v: nat)
    requires |s| >= 1 && s[0] == '-' && TrimLeft(s, NumericSpace) == s && UnsignedInt(s[1..]) == Some(v)
    ensures LeadingInt(s) == Some(-(v as int))
  {
  }

  lemma {:induction false} AllDigitsLeading(ds: string)
    requires forall i :: 0 <= i < |ds| ==> IsDigit(ds[i])
    ensures LeadingDigits(ds) == ds
  {
    if |ds| > 0 {
      AllDigitsLeading(ds[1..]);
      assert [ds[0]] + ds[1..] == ds;
    }
  }
}
