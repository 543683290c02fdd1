/**
 * JWT::base64UrlEncode / JWT::base64UrlDecode: `rtrim(strtr(base64_encode($d), '+/', '-_'), '=')`
 * and `base64_decode(strtr($d, '-_', '+/'))`, with PHP's base64 pair written
 * out: the encoder pads with '=', the (non-strict) decoder skips every
 * character outside the standard alphabet, '=' included, and never fails.
 */
module Base64Url {
  import PhpStr

  type Byte = x: int | 0 <= x < 256
  type Sextet = x: int | 0 <= x < 64

  // ---------------------------------------------------------------------------
  // alphabets

  /** The standard base64 alphabet (section 4 of RFC 4648). */
  function StdChar(x: Sextet): char
  {
    if x < 26 then ('A' as int + x) as char
    else if x < 52 then ('a' as int + x - 26) as char
    else if x < 62 then ('0' as int + x - 52) as char
    else if x == 62 then '+'
    else '/'
  }

  /** The value of a character in the standard alphabet, or -1 for a character base64_decode skips. */
  function StdValue(c: char): (r: int)
    ensures -1 <= r < 64
    ensures r >= 0 ==> StdChar(r) == c
  {
    if 'A' <= c <= 'Z' then c as int - 'A' as int
    else if 'a' <= c <= 'z' then c as int - 'a' as int + 26
    else if '0' <= c <= '9' then c as int - '0' as int + 52
    else if c == '+' then 62
    else if c == '/' then 63
    else -1
  }

  lemma {:induction false} StdValueOfChar(x: Sextet)
    ensures StdValue(StdChar(x)) == x
  {
  }

  /** strtr(.., '+/', '-_') on one character. */
  function ToUrlChar(c: char): char
  {
    if c == '+' then '-' else if c == '/' then '_' else c
  }

  /** strtr(.., '-_', '+/') on one character. */
  function FromUrlChar(c: char): char
  {
    if c == '-' then '+' else if c == '_' then '/' else c
  }

  /** The URL-safe alphabet (section 5 of RFC 4648). */
  function UrlChar(x: Sextet): char
  {
    ToUrlChar(StdChar(x))
  }

  // ---------------------------------------------------------------------------
  // encoding

  /** The sextets of b, most significant first: three bytes give four sextets, a final 1 or 2 bytes give 2 or 3. */
  function SextetsOf(b: seq<Byte>): (r: seq<Sextet>)
    ensures |r| == |b| / 3 * 4 + (if |b| % 3 == 0 then 0 else |b| % 3 + 1)
    decreases |b|
  {
    if |b| == 0 then []
    else if |b| == 1 then [b[0] / 4, (b[0] % 4) * 16]
    else if |b| == 2 then [b[0] / 4, (b[0] % 4) * 16 + b[1] / 16, (b[1] % 16) * 4]
    else [b[0] / 4, (b[0] % 4) * 16 + b[1] / 16, (b[1] % 16) * 4 + b[2] / 64, b[2] % 64] + SextetsOf(b[3..])
  }

  function StdChars(xs: seq<Sextet>): (r: string)
    ensures |r| == |xs|
  {
    seq(|xs|, i requires 0 <= i < |xs| => StdChar(xs[i]))
  }

  /** The '=' padding base64_encode appends to fill the last group of four. */
  function Padding(n: nat): string
  {
    if n % 3 == 1 then "==" else if n % 3 == 2 then "=" else ""
  }

  /** PHP's base64_encode($b). */
  function StdEncode(b: seq<Byte>): string
  {
    StdChars(SextetsOf(b)) + Padding(|b|)
  }

  /** strtr($s, '+/', '-_'). */
  function ToUrl(s: string): (r: string)
    ensures |r| == |s|
  {
    seq(|s|, i requires 0 <= i < |s| => ToUrlChar(s[i]))
  }

  /** JWT::base64UrlEncode($b). */
  function UrlEncode(b: seq<Byte>): string
  {
    PhpStr.TrimRight(ToUrl(StdEncode(b)), {'='})
  }

  /** The unpadded URL-safe characters of the sextets. */
  function UrlChars(xs: seq<Sextet>): (r: string)
    ensures |r| == |xs|
  {
    seq(|xs|, i requires 0 <= i < |xs| => UrlChar(xs[i]))
  }

  /** rtrim('=') removes exactly the padding: the encoding is the URL-safe sextet characters. */
  lemma {:induction false} UrlEncodeIsUrlChars(b: seq<Byte>)
    ensures UrlEncode(b) == UrlChars(SextetsOf(b))
  {
    var xs := SextetsOf(b);
    var p := Padding(|b|);
    ToUrlPadded(xs, p);
    if xs != [] {
      UrlCharSafe(xs[|xs| - 1]);
    }
    TrimPadding(UrlChars(xs), p);
  }

  /** strtr() maps the standard characters to the URL-safe ones and leaves the padding alone. */
  lemma ToUrlPadded(xs: seq<Sextet>, p: string)
    requires p in {"", "=", "=="}
    ensures ToUrl(StdChars(xs) + p) == UrlChars(xs) + p
  {
    var s := StdChars(xs) + p;
    forall i | 0 <= i < |s|
      ensures ToUrl(s)[i] == (UrlChars(xs) + p)[i]
    {
      if i < |xs| {
        assert s[i] == StdChar(xs[i]);
      }
    }
  }

  /** rtrim('=') takes off the padding and stops at a character other than '='. */
  lemma TrimPadding(u: string, p: string)
    requires u == [] || u[|u| - 1] != '='
    requires p in {"", "=", "=="}
    ensures PhpStr.TrimRight(u + p, {'='}) == u
  {
    PhpStr.TrimRightNoop(u, {'='});
    if p == "=" {
      assert (u + p)[..|u|] == u;
    } else if p == "==" {
      assert (u + p)[..|u| + 1] == u + "=";
      assert (u + "=")[..|u|] == u;
    } else {
      assert u + p == u;
    }
  }

  /** The characters of the URL-safe alphabet. */
  predicate IsUrlSafe(c: char)
  {
    'A' <= c <= 'Z' || 'a' <= c <= 'z' || '0' <= c <= '9' || c == '-' || c == '_'
  }

  lemma {:induction false} UrlCharSafe(x: Sextet)
    ensures IsUrlSafe(UrlChar(x))
  {
  }

  /** base64UrlEncode outputs only URL-safe characters: never '+', '/' or '='. */
  lemma {:induction false} UrlEncodeAlphabet(b: seq<Byte>)
    ensures forall i :: 0 <= i < |UrlEncode(b)| ==> IsUrlSafe(UrlEncode(b)[i])
    ensures forall i :: 0 <= i < |UrlEncode(b)| ==> UrlEncode(b)[i] !in {'+', '/', '='}
    ensures |UrlEncode(b)| == |SextetsOf(b)|
  {
    UrlEncodeIsUrlChars(b);
    var xs := SextetsOf(b);
    forall i | 0 <= i < |xs|
      ensures IsUrlSafe(UrlChars(xs)[i])
    {
      UrlCharSafe(xs[i]);
    }
  }

  // ---------------------------------------------------------------------------
  // decoding

  /** strtr($s, '-_', '+/'). */
  function FromUrl(s: string): (r: string)
    ensures |r| == |s|
  {
    seq(|s|, i requires 0 <= i < |s| => FromUrlChar(s[i]))
  }

  /** The sextets base64_decode reads from s in non-strict mode: every character outside the alphabet is skipped. */
  function Sextets(s: string): (r: seq<Sextet>)
    ensures |r| <= |s|
  {
    if s == [] then []
    else
      var v := StdValue(s[|s| - 1]);
      Sextets(s[..|s| - 1]) + (if v < 0 then [] else [v])
  }

  function HighByte(a: Sextet, b: Sextet): Byte { a * 4 + b / 16 }
  function MiddleByte(b: Sextet, c: Sextet): Byte { (b % 16) * 16 + c / 4 }
  function LowByte(c: Sextet, d: Sextet): Byte { (c % 4) * 64 + d }

  /** Four sextets give three bytes; a final group of 2 or 3 gives 1 or 2 bytes, and a lone final sextet gives none. */
  function DecodeSextets(xs: seq<Sextet>): (r: seq<Byte>)
    decreases |xs|
  {
    if |xs| <= 1 then []
    else if |xs| == 2 then [HighByte(xs[0], xs[1])]
    else if |xs| == 3 then [HighByte(xs[0], xs[1]), MiddleByte(xs[1], xs[2])]
    else [HighByte(xs[0], xs[1]), MiddleByte(xs[1], xs[2]), LowByte(xs[2], xs[3])] + DecodeSextets(xs[4..])
  }

  /** PHP's base64_decode($s) in non-strict mode. */
  function StdDecode(s: string): seq<Byte>
  {
    DecodeSextets(Sextets(s))
  }

  /** JWT::base64UrlDecode($s). */
  function UrlDecode(s: string): seq<Byte>
  {
    StdDecode(FromUrl(s))
  }

  lemma {:induction false} SextetsOfStdChars(xs: seq<Sextet>)
    ensures Sextets(StdChars(xs)) == xs
  {
    if xs != [] {
      var s := StdChars(xs);
      var ys := xs[..|xs| - 1];
      assert s[..|s| - 1] == StdChars(ys);
      SextetsOfStdChars(ys);
      StdValueOfChar(xs[|xs| - 1]);
      assert ys + [xs[|xs| - 1]] == xs;
    }
  }

  lemma {:induction false} DecodeSextetsOf(b: seq<Byte>)
    ensures DecodeSextets(SextetsOf(b)) == b
    decreases |b|
  {
    if |b| == 1 {
      ByteSplits(b[0], 0, 0);
    } else if |b| == 2 {
      ByteSplits(b[0], b[1], 0);
    } else if |b| >= 3 {
      var xs := SextetsOf(b);
      DecodeSextetsOf(b[3..]);
      ByteSplits(b[0], b[1], b[2]);
      assert xs[4..] == SextetsOf(b[3..]);
      assert DecodeSextets(xs) == b[..3] + DecodeSextets(xs[4..]);
      assert b == b[..3] + b[3..];
    }
  }

  /** Splitting bytes into sextets and joining them again gives the bytes back. */
  lemma ByteSplits(x: Byte, y: Byte, z: Byte)
    ensures HighByte(x / 4, (x % 4) * 16 + y / 16) == x
    ensures HighByte(x / 4, (x % 4) * 16) == x
    ensures MiddleByte((x % 4) * 16 + y / 16, (y % 16) * 4 + z / 64) == y
    ensures MiddleByte((x % 4) * 16 + y / 16, (y % 16) * 4) == y
    ensures LowByte((y % 16) * 4 + z / 64, z % 64) == z
  {
  }

  /** Decoding the URL-safe characters of some sextets reads those sextets back. */
  lemma {:induction false} UrlDecodeUrlChars(xs: seq<Sextet>)
    ensures UrlDecode(UrlChars(xs)) == DecodeSextets(xs)
  {
    assert FromUrl(UrlChars(xs)) == StdChars(xs);
    SextetsOfStdChars(xs);
  }

  /** base64UrlDecode(base64UrlEncode(b)) == b. */
  lemma {:induction false} UrlRoundTrip(b: seq<Byte>)
    ensures UrlDecode(UrlEncode(b)) == b
  {
    UrlEncodeIsUrlChars(b);
    UrlDecodeUrlChars(SextetsOf(b));
    DecodeSextetsOf(b);
  }

  // ---------------------------------------------------------------------------
  // what the non-strict decoder lets through

  /** The sextet a URL-safe character stands for in JWT::base64UrlDecode, or -1 when it is skipped. */
  function UrlValue(c: char): int
  {
    StdValue(FromUrlChar(c))
  }

  lemma {:induction false} UrlValueOfChar(x: Sextet)
    ensures UrlValue(UrlChar(x)) == x
  {
  }

  /** Appending a character base64_decode skips leaves the decoded bytes unchanged. */
  lemma {:induction false} SkippedCharIgnored(s: string, c: char)
    requires UrlValue(c) < 0
    ensures UrlDecode(s + [c]) == UrlDecode(s)
  {
    var t := FromUrl(s + [c]);
    assert t[..|t| - 1] == FromUrl(s);
    assert t[|t| - 1] == FromUrlChar(c);
    assert Sextets(t) == Sextets(FromUrl(s));
  }

  /** With 2 (mod 4) sextets before it, only the top four bits of the last sextet reach the output. */
  lemma {:induction false} LowBitsIgnored(xs: seq<Sextet>, c: Sextet, d: Sextet)
    requires |xs| % 4 == 2
    requires c / 4 == d / 4
    ensures DecodeSextets(xs + [c]) == DecodeSextets(xs + [d])
    decreases |xs|
  {
    if |xs| > 2 {
      LowBitsIgnored(xs[4..], c, d);
      assert (xs + [c])[4..] == xs[4..] + [c];
      assert (xs + [d])[4..] == xs[4..] + [d];
    }
  }

  lemma {:induction false} SextetsOfLast(b: seq<Byte>)
    requires |b| % 3 == 2
    ensures var xs := SextetsOf(b); |xs| > 0 && (|xs| - 1) % 4 == 2 && xs[|xs| - 1] % 4 == 0
    decreases |b|
  {
    if |b| > 2 {
      SextetsOfLast(b[3..]);
      var xs := SextetsOf(b);
      assert xs[4..] == SextetsOf(b[3..]);
    }
  }

  /** The last character of e stands for a sextet below 62, so two more is still a sextet. */
  predicate Bumpable(e: string)
  {
    |e| > 0 && 0 <= UrlValue(e[|e| - 1]) < 62
  }

  /** e with its last character replaced by the one two places further on in the alphabet. */
  function BumpLast(e: string): string
    requires Bumpable(e)
  {
    e[..|e| - 1] + [UrlChar(UrlValue(e[|e| - 1]) + 2)]
  }

  /** Bumping the last character of an encoding bumps its last sextet. */
  lemma {:induction false} BumpLastChars(pre: seq<Sextet>, v: Sextet)
    requires v < 62
    ensures var e := UrlChars(pre + [v]); Bumpable(e) && UrlValue(e[|e| - 1]) == v
    ensures BumpLast(UrlChars(pre + [v])) == UrlChars(pre + [v + 2])
    ensures UrlChars(pre + [v + 2]) != UrlChars(pre + [v])
    ensures IsUrlSafe(UrlChar(v + 2))
  {
    UrlCharSafe(v + 2);
    var e := UrlChars(pre + [v]);
    UrlValueOfChar(v);
    UrlValueOfChar(v + 2);
    assert e[|e| - 1] == UrlChar(v);
    assert e[..|e| - 1] == UrlChars(pre);
    assert UrlChars(pre + [v + 2]) == UrlChars(pre) + [UrlChar(v + 2)];
    assert UrlChars(pre + [v + 2])[|pre|] != e[|pre|];
  }

  /**
   * The last character of a 2 (mod 3)-byte encoding (a 32-byte HMAC-SHA256
   * has 43 characters) carries two unused bits: replacing it by the
   * character two places further on in the alphabet gives a different
   * string that decodes to the same bytes.
   */
  lemma {:induction false} LastCharMalleable(b: seq<Byte>)
    requires |b| % 3 == 2
    ensures var e := UrlEncode(b); Bumpable(e) && UrlValue(e[|e| - 1]) % 4 == 0
    ensures var e := UrlEncode(b); Bumpable(e) && BumpLast(e) != e && UrlDecode(BumpLast(e)) == b
    ensures var e := UrlEncode(b); Bumpable(e) && IsUrlSafe(UrlChar(UrlValue(e[|e| - 1]) + 2))
  {
    UrlEncodeIsUrlChars(b);
    SextetsOfLast(b);
    MalleableSextets(SextetsOf(b));
    DecodeSextetsOf(b);
  }

  /** The same on the sextets: a last sextet with its two low bits clear can gain 2 unseen. */
  lemma {:induction false} MalleableSextets(xs: seq<Sextet>)
    requires |xs| > 0 && (|xs| - 1) % 4 == 2 && xs[|xs| - 1] % 4 == 0
    ensures var e := UrlChars(xs); Bumpable(e) && UrlValue(e[|e| - 1]) == xs[|xs| - 1]
    ensures var e := UrlChars(xs); Bumpable(e) && BumpLast(e) != e && UrlDecode(BumpLast(e)) == DecodeSextets(xs)
    ensures var e := UrlChars(xs); Bumpable(e) && IsUrlSafe(UrlChar(UrlValue(e[|e| - 1]) + 2))
  {
    var pre := xs[..|xs| - 1];
    var v := xs[|xs| - 1];
    assert xs == pre + [v];
    BumpLastChars(pre, v);
    UrlDecodeUrlChars(pre + [v + 2]);
    LowBitsIgnored(pre, v, v + 2);
  }
}
