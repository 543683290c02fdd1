/**
 * models/Post.php: slug generation, tag normalisation, the shaping of a
 * fetched row (`processPost`), and the `posts`, `stars` and `reposts`
 * tables as far as soft deletion, view counting, starring and reposting
 * change them. `json_decode` is the parameter `dec` (Null when the text is
 * not JSON) and `uniqid()` is a parameter of the slug.
 */
module Posts {
  import opened Optional
  import opened Values
  import PhpStr

  // ---------------------------------------------------------------------------
  // the character pipeline shared by generateSlug and normalizeTags

  /** The twelve Turkish letters of `$charMap`. */
  const TurkishLetters: set<char> :=
    {'\U{E7}', '\U{C7}', '\U{11F}', '\U{11E}', '\U{131}', '\U{130}',
     '\U{F6}', '\U{D6}', '\U{15F}', '\U{15E}', '\U{FC}', '\U{DC}'}

  /** `$charMap`: ç Ç → c, ğ Ğ → g, ı İ → i, ö Ö → o, ş Ş → s, ü Ü → u. */
  function TurkishFold(c: char): (r: char)
    ensures c !in TurkishLetters ==> r == c
    ensures c in TurkishLetters ==> r in {'c', 'g', 'i', 'o', 's', 'u'}
  {
    if c == '\U{E7}' || c == '\U{C7}' then 'c'
    else if c == '\U{11F}' || c == '\U{11E}' then 'g'
    else if c == '\U{131}' || c == '\U{130}' then 'i'
    else if c == '\U{F6}' || c == '\U{D6}' then 'o'
    else if c == '\U{15F}' || c == '\U{15E}' then 's'
    else if c == '\U{FC}' || c == '\U{DC}' then 'u'
    else c
  }

  /** strtr($text, $charMap), letter by letter. */
  function Transliterate(s: string): (r: string)
    ensures |r| == |s|
    ensures forall i :: 0 <= i < |s| ==> r[i] == TurkishFold(s[i])
  {
    seq(|s|, i requires 0 <= i < |s| => TurkishFold(s[i]))
  }

  /** The characters `[a-z0-9]`. */
  predicate IsSlugChar(c: char)
  {
    PhpStr.IsAsciiLower(c) || PhpStr.IsDigit(c)
  }

  predicate AllSlugChars(s: string)
  {
    forall i :: 0 <= i < |s| ==> IsSlugChar(s[i])
  }

  /** preg_replace('/[^a-z0-9]+/', '', $s) */
  function StripNonSlug(s: string): (r: string)
    ensures AllSlugChars(r)
    ensures |r| <= |s|
  {
    if s == [] then [] else (if IsSlugChar(s[0]) then [s[0]] else []) + StripNonSlug(s[1..])
  }

  lemma {:induction false} StripNonSlugNoop(s: string)
    requires AllSlugChars(s)
    ensures StripNonSlug(s) == s
  {
    if s != [] {
      StripNonSlugNoop(s[1..]);
    }
  }

  /** Drops the leading run of characters outside `[a-z0-9]`. */
  function DropNonSlug(s: string): (r: string)
    ensures |r| <= |s| && r == s[|s| - |r|..]
    ensures r == [] || IsSlugChar(r[0])
  {
    if s == [] || IsSlugChar(s[0]) then s else DropNonSlug(s[1..])
  }

  predicate NoDoubleHyphen(s: string)
  {
    forall i :: 0 <= i < |s| - 1 ==> !(s[i] == '-' && s[i + 1] == '-')
  }

  /** preg_replace('/[^a-z0-9]+/', '-', $s): each maximal run outside `[a-z0-9]` becomes one `-`. */
  function Hyphenate(s: string): string
    decreases |s|
  {
    if s == [] then []
    else if IsSlugChar(s[0]) then [s[0]] + Hyphenate(s[1..])
    else "-" + Hyphenate(DropNonSlug(s))
  }

  /** The text is over `[a-z0-9-]`. */
  predicate Dashed(s: string)
  {
    forall i :: 0 <= i < |s| ==> IsSlugChar(s[i]) || s[i] == '-'
  }

  /** The dashed text is over `[a-z0-9-]`, has no `--`, and keeps a leading letter or digit. */
  lemma HyphenateShape(s: string)
    ensures var r := Hyphenate(s);
      && (forall i :: 0 <= i < |r| ==> IsSlugChar(r[i]) || r[i] == '-')
      && NoDoubleHyphen(r)
      && (s != [] && IsSlugChar(s[0]) ==> r != [] && r[0] == s[0])
  {
    HyphenateDashed(s);
    HyphenateNoDouble(s);
    HyphenateStart(s);
  }

  lemma HyphenateStart(s: string)
    ensures s != [] && IsSlugChar(s[0]) ==> Hyphenate(s) != [] && Hyphenate(s)[0] == s[0]
  {
  }

  lemma {:induction false} HyphenateDashed(s: string)
    ensures Dashed(Hyphenate(s))
    decreases |s|
  {
    if s == [] {
    } else if IsSlugChar(s[0]) {
      HyphenateDashed(s[1..]);
      ConsDashed(s[0], Hyphenate(s[1..]));
    } else {
      HyphenateDashed(DropNonSlug(s));
      ConsDashed('-', Hyphenate(DropNonSlug(s)));
    }
  }

  lemma ConsDashed(c: char, t: string)
    requires IsSlugChar(c) || c == '-'
    requires Dashed(t)
    ensures Dashed([c] + t)
  {
    var r := [c] + t;
    assert forall i :: 1 <= i < |r| ==> r[i] == t[i - 1];
  }

  lemma {:induction false} HyphenateNoDouble(s: string)
    ensures NoDoubleHyphen(Hyphenate(s))
    decreases |s|
  {
    if s == [] {
    } else if IsSlugChar(s[0]) {
      HyphenateNoDouble(s[1..]);
      ConsNoDouble(s[0], Hyphenate(s[1..]));
    } else {
      var d := DropNonSlug(s);
      HyphenateNoDouble(d);
      HyphenateStart(d);
      ConsNoDouble('-', Hyphenate(d));
    }
  }

  lemma ConsNoDouble(c: char, t: string)
    requires NoDoubleHyphen(t)
    requires c != '-' || t == [] || t[0] != '-'
    ensures NoDoubleHyphen([c] + t)
  {
    var r := [c] + t;
    assert forall i :: 1 <= i < |r| ==> r[i] == t[i - 1];
  }

  lemma {:induction false} HyphenateSlugPrefix(w: string, rest: string)
    requires AllSlugChars(w)
    ensures Hyphenate(w + rest) == w + Hyphenate(rest)
  {
    if w != [] {
      var s := w + rest;
      assert s[0] == w[0] && s[1..] == w[1..] + rest;
      assert IsSlugChar(w[0]) && AllSlugChars(w[1..]);
      HyphenateSlugPrefix(w[1..], rest);
      calc {
        Hyphenate(s);
        [w[0]] + Hyphenate(w[1..] + rest);
        [w[0]] + (w[1..] + Hyphenate(rest));
        ([w[0]] + w[1..]) + Hyphenate(rest);
        { assert [w[0]] + w[1..] == w; }
        w + Hyphenate(rest);
      }
    } else {
      assert w + rest == rest;
    }
  }

  /** Any slice of a string without `--` has none either. */
  lemma SliceNoDoubleHyphen(s: string, i: int, j: int)
    requires NoDoubleHyphen(s) && 0 <= i <= j <= |s|
    ensures NoDoubleHyphen(s[i..j])
  {
    var t := s[i..j];
    forall k | 0 <= k < |t| - 1
      ensures !(t[k] == '-' && t[k + 1] == '-')
    {
      assert t[k] == s[i + k] && t[k + 1] == s[i + k + 1];
    }
  }

  /** substr($s, 0, $n) */
  function Take(s: string, n: nat): (r: string)
    ensures |r| <= n && |r| <= |s| && r == s[..|r|]
  {
    if |s| <= n then s else s[..n]
  }

  /** substr(uniqid(), -6): the last six characters. */
  function Suffix(u: string): (r: string)
    ensures |u| >= 6 ==> |r| == 6
    ensures |r| <= |u| && r == u[|u| - |r|..]
  {
    if |u| >= 6 then u[|u| - 6..] else u
  }

  /** The dashed stem of the text, before truncation: strtr, strtolower, dashes, trim('-'). */
  function SlugStem(text: string): string
  {
    PhpStr.Trim(Hyphenate(PhpStr.AsciiLower(Transliterate(text))), {'-'})
  }

  lemma SlugStemShape(text: string)
    ensures var r := SlugStem(text);
      && (forall i :: 0 <= i < |r| ==> IsSlugChar(r[i]) || r[i] == '-')
      && NoDoubleHyphen(r)
      && (r == [] || (r[0] != '-' && r[|r| - 1] != '-'))
  {
    var l := PhpStr.AsciiLower(Transliterate(text));
    HyphenateShape(l);
    TrimShape(Hyphenate(l));
  }

  /** trim('-') of a dashed text without `--` keeps both and leaves no dash at either end. */
  lemma TrimShape(h: string)
    requires forall i :: 0 <= i < |h| ==> IsSlugChar(h[i]) || h[i] == '-'
    requires NoDoubleHyphen(h)
    ensures var u := PhpStr.Trim(h, {'-'});
      && (forall i :: 0 <= i < |u| ==> IsSlugChar(u[i]) || u[i] == '-')
      && NoDoubleHyphen(u)
      && (u == [] || (u[0] != '-' && u[|u| - 1] != '-'))
  {
    var a := TrimmedSlice(h);
    TrimmedShape(h, a, PhpStr.Trim(h, {'-'}));
    PhpStr.TrimEnds(h, {'-'});
  }

  /** The first n characters of a dashed text without `--` keep both. */
  lemma TakeShape(g: string, n: nat)
    requires forall i :: 0 <= i < |g| ==> IsSlugChar(g[i]) || g[i] == '-'
    requires NoDoubleHyphen(g)
    ensures var h := Take(g, n);
      && (forall i :: 0 <= i < |h| ==> IsSlugChar(h[i]) || h[i] == '-')
      && NoDoubleHyphen(h)
  {
    var h := Take(g, n);
    assert h == g[0..|h|];
    SliceNoDoubleHyphen(g, 0, |h|);
    SliceDashed(g, 0, |h|);
  }

  /** trim($h, '-') is the slice h[a..a + |u|] for some a. */
  lemma TrimmedSlice(h: string) returns (a: nat)
    ensures var u := PhpStr.Trim(h, {'-'});
      a + |u| <= |h| && u == h[a..a + |u|]
  {
    var t := PhpStr.TrimLeft(h, {'-'});
    var u := PhpStr.TrimRight(t, {'-'});
    a := |h| - |t|;
    PrefixOfSuffix(h, a, |u|);
  }

  lemma PrefixOfSuffix(h: string, a: nat, n: nat)
    requires a + n <= |h|
    ensures h[a..][..n] == h[a..a + n]
  {
  }

  /** A dash-free-ended slice keeps the alphabet and the absence of `--`. */
  lemma TrimmedShape(h: string, a: nat, u: string)
    requires forall i :: 0 <= i < |h| ==> IsSlugChar(h[i]) || h[i] == '-'
    requires NoDoubleHyphen(h)
    requires a + |u| <= |h| && u == h[a..a + |u|]
    ensures forall i :: 0 <= i < |u| ==> IsSlugChar(u[i]) || u[i] == '-'
    ensures NoDoubleHyphen(u)
  {
    SliceNoDoubleHyphen(h, a, a + |u|);
    SliceDashed(h, a, a + |u|);
  }

  /** Any slice of a string over `[a-z0-9-]` is over `[a-z0-9-]`. */
  lemma SliceDashed(s: string, i: int, j: int)
    requires forall k :: 0 <= k < |s| ==> IsSlugChar(s[k]) || s[k] == '-'
    requires 0 <= i <= j <= |s|
    ensures forall k :: 0 <= k < |s[i..j]| ==> IsSlugChar(s[i..j][k]) || s[i..j][k] == '-'
  {
    forall k | 0 <= k < j - i
      ensures IsSlugChar(s[i..j][k]) || s[i..j][k] == '-'
    {
      assert s[i..j][k] == s[i + k];
    }
  }

  /**
   * generateSlug($text) before the suffix: the stem cut to its first 50
   * characters.
   */
  function SlugBase(text: string): string
  {
    Take(SlugStem(text), 50)
  }

  lemma SlugBaseShape(text: string)
    ensures var r := SlugBase(text);
      && |r| <= 50
      && (forall i :: 0 <= i < |r| ==> IsSlugChar(r[i]) || r[i] == '-')
      && (r == [] || r[0] != '-')
      && NoDoubleHyphen(r)
  {
    var stem := SlugStem(text);
    SlugStemShape(text);
    SliceNoDoubleHyphen(stem, 0, |Take(stem, 50)|);
  }

  /** generateSlug($text): the base, a dash, and the last six characters of uniqid(). */
  function GenerateSlug(text: string, uniqid: string): string
  {
    SlugBase(text) + "-" + Suffix(uniqid)
  }

  /** The slug is a base of `[a-z0-9-]` without a leading dash or `--`, at most 50 long, then `-` and six characters. */
  lemma SlugShape(text: string, uniqid: string)
    requires |uniqid| >= 6
    ensures var b := SlugBase(text); var s := GenerateSlug(text, uniqid);
      && |b| <= 50 && (b == [] || b[0] != '-') && NoDoubleHyphen(b)
      && (forall i :: 0 <= i < |b| ==> IsSlugChar(b[i]) || b[i] == '-')
      && |s| == |b| + 7 && s[..|b|] == b && s[|b|] == '-' && s[|b| + 1..] == uniqid[|uniqid| - 6..]
  {
    SlugBaseShape(text);
    var b := SlugBase(text);
    var s := GenerateSlug(text, uniqid);
    assert s[..|b|] == b;
    assert s[|b| + 1..] == Suffix(uniqid);
  }

  /**
   * As written, truncation happens after the dashes are trimmed, so a stem
   * cut at a dash keeps it and the slug gets `--` before its suffix: 49
   * letters, a space and one more letter give 49 letters and `--`.
   */
  lemma SlugDoubleHyphenAsWritten(w: string, c: char, uniqid: string)
    requires |w| == 49
    requires forall i :: 0 <= i < |w| ==> 'a' <= w[i] <= 'z'
    requires 'a' <= c <= 'z'
    ensures SlugBase(w + " " + [c]) == w + "-"
    ensures !NoDoubleHyphen(GenerateSlug(w + " " + [c], uniqid))
  {
    SlugBaseCut(w, c);
    DashedJoin(w + "-", Suffix(uniqid));
  }

  /** A base ending in a dash, joined with one more dash, holds `--`. */
  lemma DashedJoin(b: string, x: string)
    requires b != [] && b[|b| - 1] == '-'
    ensures !NoDoubleHyphen(b + "-" + x)
  {
    var s := b + "-" + x;
    assert s[|b| - 1] == '-' && s[|b|] == '-';
  }

  /** The 51-character stem of 49 letters, a space and a letter is cut right after its dash. */
  lemma SlugBaseCut(w: string, c: char)
    requires |w| == 49
    requires forall i :: 0 <= i < |w| ==> 'a' <= w[i] <= 'z'
    requires 'a' <= c <= 'z'
    ensures SlugBase(w + " " + [c]) == w + "-"
  {
    var h := w + "-" + [c];
    SlugStemOneGap(w, c);
    assert |h| == 51 && Take(h, 50) == h[..50];
    assert h[..50] == w + "-";
  }

  lemma SlugStemOneGap(w: string, c: char)
    requires w != []
    requires forall i :: 0 <= i < |w| ==> 'a' <= w[i] <= 'z'
    requires 'a' <= c <= 'z'
    ensures SlugStem(w + " " + [c]) == w + "-" + [c]
  {
    FoldOneGap(w, c);
    HyphenateOneGap(w, c);
    TrimOneGap(w, c);
    StemChain(w + " " + [c], w + "-" + [c]);
  }

  lemma StemChain(text: string, h: string)
    requires PhpStr.AsciiLower(Transliterate(text)) == text && Hyphenate(text) == h && PhpStr.Trim(h, {'-'}) == h
    ensures SlugStem(text) == h
  {
  }

  lemma FoldOneGap(w: string, c: char)
    requires forall i :: 0 <= i < |w| ==> 'a' <= w[i] <= 'z'
    requires 'a' <= c <= 'z'
    ensures PhpStr.AsciiLower(Transliterate(w + " " + [c])) == w + " " + [c]
  {
    LettersAndSpace(w, c);
    LettersUntouched(w + " " + [c]);
  }

  lemma TrimOneGap(w: string, c: char)
    requires w != [] && IsSlugChar(w[0]) && IsSlugChar(c)
    ensures PhpStr.Trim(w + "-" + [c], {'-'}) == w + "-" + [c]
  {
    var h := w + "-" + [c];
    assert h[0] == w[0] && h[|h| - 1] == c;
    PhpStr.TrimLeftNoop(h, {'-'});
    PhpStr.TrimRightNoop(h, {'-'});
  }

  lemma LettersAndSpace(w: string, c: char)
    requires forall i :: 0 <= i < |w| ==> 'a' <= w[i] <= 'z'
    requires 'a' <= c <= 'z'
    ensures forall i :: 0 <= i < |w + " " + [c]| ==> 'a' <= (w + " " + [c])[i] <= 'z' || (w + " " + [c])[i] == ' '
  {
    var text := w + " " + [c];
    forall i | 0 <= i < |text|
      ensures 'a' <= text[i] <= 'z' || text[i] == ' '
    {
      if i < |w| {
        assert text[i] == w[i];
      }
    }
  }

  /** strtr and strtolower leave lower-case ASCII letters and spaces alone. */
  lemma LettersUntouched(text: string)
    requires forall i :: 0 <= i < |text| ==> 'a' <= text[i] <= 'z' || text[i] == ' '
    ensures PhpStr.AsciiLower(Transliterate(text)) == text
  {
    assert Transliterate(text) == text;
    assert PhpStr.AsciiLower(text) == text;
  }

  lemma HyphenateOneGap(w: string, c: char)
    requires AllSlugChars(w) && IsSlugChar(c)
    ensures Hyphenate(w + " " + [c]) == w + "-" + [c]
  {
    var g := " " + [c];
    assert Hyphenate(g) == "-" + [c] by {
      HyphenateGap(c);
    }
    assert Hyphenate(w + g) == w + Hyphenate(g) by {
      HyphenateSlugPrefix(w, g);
    }
    assert w + " " + [c] == w + g;
    assert w + ("-" + [c]) == w + "-" + [c];
  }

  lemma HyphenateGap(c: char)
    requires IsSlugChar(c)
    ensures Hyphenate(" " + [c]) == "-" + [c]
  {
    var g := " " + [c];
    assert g[1..] == [c];
    assert DropNonSlug(g) == [c];
    assert [c][1..] == [];
    assert Hyphenate([c]) == [c];
  }

  /** The intended slug base: truncate first, then trim the dashes. */
  function SlugBaseTrimmedLast(text: string): string
  {
    PhpStr.Trim(Take(Hyphenate(PhpStr.AsciiLower(Transliterate(text))), 50), {'-'})
  }

  lemma SlugBaseTrimmedLastShape(text: string)
    ensures var r := SlugBaseTrimmedLast(text);
      && |r| <= 50
      && (forall i :: 0 <= i < |r| ==> IsSlugChar(r[i]) || r[i] == '-')
      && (r == [] || (r[0] != '-' && r[|r| - 1] != '-'))
      && NoDoubleHyphen(r)
  {
    var l := PhpStr.AsciiLower(Transliterate(text));
    HyphenateShape(l);
    TakeShape(Hyphenate(l), 50);
    TrimShape(Take(Hyphenate(l), 50));
  }

  function GenerateSlugTrimmedLast(text: string, uniqid: string): string
  {
    SlugBaseTrimmedLast(text) + "-" + Suffix(uniqid)
  }

  /** With the corrected order and a hex uniqid(), no slug holds `--`. */
  lemma SlugTrimmedLastNoDoubleHyphen(text: string, uniqid: string)
    requires forall i :: 0 <= i < |uniqid| ==> IsSlugChar(uniqid[i])
    ensures NoDoubleHyphen(GenerateSlugTrimmedLast(text, uniqid))
  {
    SlugBaseTrimmedLastShape(text);
    var x := Suffix(uniqid);
    assert AllSlugChars(x) by {
      assert forall k :: 0 <= k < |x| ==> x[k] == uniqid[|uniqid| - |x| + k];
    }
    JoinNoDoubleHyphen(SlugBaseTrimmedLast(text), x);
  }

  /** Joining with one dash a base that does not end in a dash to a dash-free suffix creates no `--`. */
  lemma JoinNoDoubleHyphen(b: string, x: string)
    requires NoDoubleHyphen(b) && (b == [] || b[|b| - 1] != '-')
    requires AllSlugChars(x)
    ensures NoDoubleHyphen(b + "-" + x)
  {
    var s := b + "-" + x;
    forall k | 0 <= k < |s| - 1
      ensures !(s[k] == '-' && s[k + 1] == '-')
    {
      if k < |b| - 1 {
        assert s[k] == b[k] && s[k + 1] == b[k + 1];
      } else if k == |b| - 1 {
        assert s[k] == b[k];
      } else {
        assert s[k + 1] == x[k - |b|];
      }
    }
  }

  // ---------------------------------------------------------------------------
  // normalizeTags

  /** What one element of the tag list becomes: a TypeError, skipped, or a tag. */
  datatype TagStep = TagCrash | TagSkip | TagOf(tag: string)

  /**
   * The loop body of normalizeTags for one element: trim (a TypeError for an
   * array), skip when empty, strtr, strtolower, strip everything outside
   * `[a-z0-9]`, skip when empty. "0" is empty to PHP.
   */
  function NormalizeTag(v: Value): (r: TagStep)
    ensures r.TagCrash? <==> IsArray(v)
    ensures r.TagOf? ==> AllSlugChars(r.tag) && !PhpStr.IsFalsy(r.tag)
  {
    match ToPhpString(v)
    case None => TagCrash
    case Some(s) =>
      var t := PhpStr.Trim(s, PhpStr.DefaultTrimChars);
      if PhpStr.IsFalsy(t) then TagSkip
      else
        var n := StripNonSlug(PhpStr.AsciiLower(Transliterate(t)));
        if PhpStr.IsFalsy(n) then TagSkip else TagOf(n)
  }

  /** Loose comparison classes of strings over `[a-z0-9]`: numeric strings by value, all others by text. */
  datatype TagKey = Number(n: nat) | Text(s: string)

  function Pow10(e: nat): (r: nat)
    ensures r >= 1
  {
    if e == 0 then 1 else 10 * Pow10(e - 1)
  }

  predicate AllDigits(s: string)
  {
    forall i :: 0 <= i < |s| ==> PhpStr.IsDigit(s[i])
  }

  /**
   * The value PHP 8's `==` compares a string over `[a-z0-9]` by: digits are
   * an integer, digits `e` digits a number in exponent form, anything else
   * compares as text.
   */
  function TagKeyOf(t: string): (k: TagKey)
    ensures k.Text? ==> k.s == t
  {
    var ds := PhpStr.LeadingDigits(t);
    if ds != [] && ds == t then Number(PhpStr.DigitsValue(t))
    else if ds != [] && |ds| + 1 < |t| && t[|ds|] == 'e' && AllDigits(t[|ds| + 1..]) then
      Number(PhpStr.DigitsValue(ds) * Pow10(PhpStr.DigitsValue(t[|ds| + 1..])))
    else Text(t)
  }

  /** "1", "01" and "1e0" are one tag to in_array(); "a1" and "1a" are two. */
  lemma LooseTagExamples()
    ensures TagKeyOf("1") == TagKeyOf("01") == TagKeyOf("1e0")
    ensures TagKeyOf("10") == TagKeyOf("1e1")
    ensures TagKeyOf("a1") != TagKeyOf("1a")
  {
    assert PhpStr.LeadingDigits("1") == "1";
    assert PhpStr.LeadingDigits("01") == "01";
    assert PhpStr.LeadingDigits("1e0") == "1";
    assert "1e0"[2..] == "0";
    assert PhpStr.LeadingDigits("10") == "10";
    assert PhpStr.LeadingDigits("1e1") == "1";
    assert "1e1"[2..] == "1";
    assert PhpStr.LeadingDigits("a1") == "";
    assert PhpStr.LeadingDigits("1a") == "1";
  }

  /** in_array($tag, $normalized): is there a loosely equal tag already? */
  predicate HasLooseMatch(acc: seq<string>, t: string)
  {
    exists i :: 0 <= i < |acc| && TagKeyOf(acc[i]) == TagKeyOf(t)
  }

  /** No two tags of the list compare loosely equal, so in particular none repeats. */
  predicate LooselyDistinct(r: seq<string>)
  {
    forall i, j :: 0 <= i < j < |r| ==> TagKeyOf(r[i]) != TagKeyOf(r[j])
  }

  predicate WellFormedTags(r: seq<string>)
  {
    (forall i :: 0 <= i < |r| ==> AllSlugChars(r[i]) && !PhpStr.IsFalsy(r[i])) && LooselyDistinct(r)
  }

  /** What the loop body makes of each element. */
  function Steps(items: seq<Value>): (r: seq<TagStep>)
    ensures |r| == |items|
    ensures forall i :: 0 <= i < |items| ==> r[i] == NormalizeTag(items[i])
  {
    seq(|items|, i requires 0 <= i < |items| => NormalizeTag(items[i]))
  }

  /** The loop of normalizeTags over the elements' steps: append a tag unless in_array() finds it. */
  function Collect(steps: seq<TagStep>): Option<seq<string>>
    decreases |steps|
  {
    if steps == [] then Some([])
    else
      match Collect(steps[..|steps| - 1])
      case None => None
      case Some(acc) =>
        match steps[|steps| - 1]
        case TagCrash => None
        case TagSkip => Some(acc)
        case TagOf(t) => if HasLooseMatch(acc, t) then Some(acc) else Some(acc + [t])
  }

  /** normalizeTags over a list; None when an element raises a TypeError. */
  function NormalizedTags(items: seq<Value>): Option<seq<string>>
  {
    Collect(Steps(items))
  }

  predicate StepOk(st: TagStep)
  {
    st.TagOf? ==> AllSlugChars(st.tag) && !PhpStr.IsFalsy(st.tag)
  }

  /** The output tags are non-empty, over `[a-z0-9]`, and pairwise not loosely equal. */
  lemma {:induction false} CollectWellFormed(steps: seq<TagStep>)
    requires forall i :: 0 <= i < |steps| ==> StepOk(steps[i])
    requires Collect(steps).Some?
    ensures WellFormedTags(Collect(steps).value)
  {
    if steps != [] {
      var init := steps[..|steps| - 1];
      assert forall i :: 0 <= i < |init| ==> init[i] == steps[i];
      CollectWellFormed(init);
      var acc := Collect(init).value;
      var step := steps[|steps| - 1];
      if step.TagOf? && !HasLooseMatch(acc, step.tag) {
        var r := acc + [step.tag];
        assert forall i :: 0 <= i < |acc| ==> r[i] == acc[i];
        assert forall i :: 0 <= i < |acc| ==> TagKeyOf(r[i]) != TagKeyOf(step.tag);
      }
    }
  }

  lemma NormalizedWellFormed(items: seq<Value>)
    requires NormalizedTags(items).Some?
    ensures WellFormedTags(NormalizedTags(items).value)
  {
    CollectWellFormed(Steps(items));
  }

  lemma {:induction false} CollectCrash(steps: seq<TagStep>)
    ensures Collect(steps).None? <==> exists i :: 0 <= i < |steps| && steps[i].TagCrash?
  {
    if steps != [] {
      var init := steps[..|steps| - 1];
      CollectCrash(init);
      assert forall i :: 0 <= i < |init| ==> init[i] == steps[i];
      if exists i :: 0 <= i < |steps| && steps[i].TagCrash? {
        var i :| 0 <= i < |steps| && steps[i].TagCrash?;
        if i < |init| {
          assert init[i].TagCrash?;
        }
      }
    }
  }

  /** A TypeError happens exactly when some element is an array. */
  lemma CrashIffArray(items: seq<Value>)
    ensures NormalizedTags(items).None? <==> exists i :: 0 <= i < |items| && IsArray(items[i])
  {
    CollectCrash(Steps(items));
    if exists i :: 0 <= i < |items| && IsArray(items[i]) {
      var i :| 0 <= i < |items| && IsArray(items[i]);
      assert Steps(items)[i].TagCrash?;
    }
  }

  /** Each prefix of the steps yields a prefix of the output. */
  lemma {:induction false} CollectPrefix(steps: seq<TagStep>, k: nat)
    requires k <= |steps| && Collect(steps).Some?
    ensures Collect(steps[..k]).Some?
    ensures Collect(steps[..k]).value <= Collect(steps).value
    decreases |steps| - k
  {
    if k == |steps| {
      assert steps[..k] == steps;
    } else {
      var init := steps[..|steps| - 1];
      assert init[..k] == steps[..k];
      CollectPrefix(init, k);
    }
  }

  /** Every step that yields a tag is represented in the output by a loosely equal tag. */
  lemma CollectRepresents(steps: seq<TagStep>, i: nat)
    requires i < |steps| && Collect(steps).Some? && steps[i].TagOf?
    ensures HasLooseMatch(Collect(steps).value, steps[i].tag)
  {
    var r := Collect(steps).value;
    var t := steps[i].tag;
    CollectPrefix(steps, i + 1);
    var pre := steps[..i + 1];
    assert pre[..i] == steps[..i];
    assert pre[i] == steps[i];
    var acc := Collect(pre).value;
    var j :| 0 <= j < |acc| && TagKeyOf(acc[j]) == TagKeyOf(t);
    assert acc[j] == r[j];
  }

  /** Every element that yields a tag is represented in the output by a loosely equal tag. */
  lemma EveryTagRepresented(items: seq<Value>, i: nat)
    requires i < |items| && NormalizedTags(items).Some? && NormalizeTag(items[i]).TagOf?
    ensures HasLooseMatch(NormalizedTags(items).value, NormalizeTag(items[i]).tag)
  {
    CollectRepresents(Steps(items), i);
  }

  /** Tag j comes from step idx[j], the indices increase, and no earlier step yields a loosely equal tag. */
  predicate FirstOccurrenceIndices(steps: seq<TagStep>, r: seq<string>, idx: seq<nat>)
  {
    && |idx| == |r|
    && (forall j :: 0 <= j < |idx| ==> idx[j] < |steps| && steps[idx[j]] == TagOf(r[j]))
    && (forall j, k :: 0 <= j < k < |idx| ==> idx[j] < idx[k])
    && (forall j, i :: 0 <= j < |idx| && 0 <= i < idx[j] && steps[i].TagOf? ==>
          TagKeyOf(steps[i].tag) != TagKeyOf(r[j]))
  }

  lemma {:induction false} CollectFirstOccurrences(steps: seq<TagStep>) returns (idx: seq<nat>)
    requires Collect(steps).Some?
    ensures FirstOccurrenceIndices(steps, Collect(steps).value, idx)
  {
    if steps == [] {
      idx := [];
    } else {
      var n := |steps| - 1;
      var init := steps[..n];
      var r := Collect(steps).value;
      var pre := CollectFirstOccurrences(init);
      var acc := Collect(init).value;
      assert forall i :: 0 <= i < n ==> init[i] == steps[i];
      var step := steps[n];
      if step.TagOf? && !HasLooseMatch(acc, step.tag) {
        idx := pre + [n];
        assert r == acc + [step.tag];
        forall i | 0 <= i < n && steps[i].TagOf?
          ensures TagKeyOf(steps[i].tag) != TagKeyOf(step.tag)
        {
          assert init[i] == steps[i];
          CollectRepresents(init, i);
        }
        FirstOccurrencesExtend(steps, acc, pre, n);
      } else {
        idx := pre;
        assert r == acc;
        FirstOccurrencesKeep(steps, acc, pre, n);
      }
    }
  }

  lemma FirstOccurrencesKeep(steps: seq<TagStep>, acc: seq<string>, pre: seq<nat>, n: nat)
    requires n == |steps| - 1
    requires FirstOccurrenceIndices(steps[..n], acc, pre)
    ensures FirstOccurrenceIndices(steps, acc, pre)
  {
    assert forall i :: 0 <= i < n ==> steps[..n][i] == steps[i];
  }

  lemma FirstOccurrencesExtend(steps: seq<TagStep>, acc: seq<string>, pre: seq<nat>, n: nat)
    requires n == |steps| - 1 && steps[n].TagOf?
    requires FirstOccurrenceIndices(steps[..n], acc, pre)
    requires forall i :: 0 <= i < n && steps[i].TagOf? ==> TagKeyOf(steps[i].tag) != TagKeyOf(steps[n].tag)
    ensures FirstOccurrenceIndices(steps, acc + [steps[n].tag], pre + [n])
  {
    assert forall i :: 0 <= i < n ==> steps[..n][i] == steps[i];
  }

  /**
   * normalizeTags keeps first occurrences in input order: tag j comes from
   * element idx[j], the indices increase, and no earlier element yields a
   * tag loosely equal to it.
   */
  lemma FirstOccurrences(items: seq<Value>) returns (idx: seq<nat>)
    requires NormalizedTags(items).Some?
    ensures var r := NormalizedTags(items).value;
      && |idx| == |r|
      && (forall j :: 0 <= j < |idx| ==> idx[j] < |items| && NormalizeTag(items[idx[j]]) == TagOf(r[j]))
      && (forall j, k :: 0 <= j < k < |idx| ==> idx[j] < idx[k])
      && (forall j, i :: 0 <= j < |idx| && 0 <= i < idx[j] && NormalizeTag(items[i]).TagOf? ==>
            TagKeyOf(NormalizeTag(items[i]).tag) != TagKeyOf(r[j]))
  {
    idx := CollectFirstOccurrences(Steps(items));
  }

  function StrList(r: seq<string>): (vs: seq<Value>)
    ensures |vs| == |r| && forall i :: 0 <= i < |r| ==> vs[i] == Str(r[i])
  {
    seq(|r|, i requires 0 <= i < |r| => Str(r[i]))
  }

  /** A tag already in normal form comes through the loop body unchanged. */
  lemma NormalizeTagNoop(t: string)
    requires AllSlugChars(t) && !PhpStr.IsFalsy(t)
    ensures NormalizeTag(Str(t)) == TagOf(t)
  {
    SlugTrimNoop(t);
    SlugFoldNoop(t);
    StripNonSlugNoop(t);
  }

  lemma SlugTrimNoop(t: string)
    requires AllSlugChars(t)
    ensures PhpStr.Trim(t, PhpStr.DefaultTrimChars) == t
  {
    if t != [] {
      assert IsSlugChar(t[0]) && IsSlugChar(t[|t| - 1]);
    }
    PhpStr.TrimNoop(t, PhpStr.DefaultTrimChars);
  }

  lemma SlugFoldNoop(t: string)
    requires AllSlugChars(t)
    ensures PhpStr.AsciiLower(Transliterate(t)) == t
  {
    assert Transliterate(t) == t;
    assert PhpStr.AsciiLower(t) == t;
  }

  /** The steps a list of finished tags makes: each is kept as it is. */
  function TagSteps(r: seq<string>): (steps: seq<TagStep>)
    ensures |steps| == |r| && forall i :: 0 <= i < |r| ==> steps[i] == TagOf(r[i])
  {
    seq(|r|, i requires 0 <= i < |r| => TagOf(r[i]))
  }

  /** Dropping the last tag keeps the rest well formed, and the dropped one matches none of them. */
  lemma WellFormedInit(r: seq<string>)
    requires WellFormedTags(r) && r != []
    ensures WellFormedTags(r[..|r| - 1]) && !HasLooseMatch(r[..|r| - 1], r[|r| - 1])
    ensures TagSteps(r)[..|r| - 1] == TagSteps(r[..|r| - 1])
    ensures r[..|r| - 1] + [r[|r| - 1]] == r
  {
  }

  lemma {:induction false} CollectFixpoint(r: seq<string>)
    requires WellFormedTags(r)
    ensures Collect(TagSteps(r)) == Some(r)
  {
    if r != [] {
      var n := |r| - 1;
      WellFormedInit(r);
      CollectFixpoint(r[..n]);
      assert TagSteps(r)[n] == TagOf(r[n]);
    }
  }

  /** Well-formed tags are a fixed point of normalizeTags. */
  lemma NormalizedFixpoint(r: seq<string>)
    requires WellFormedTags(r)
    ensures NormalizedTags(StrList(r)) == Some(r)
  {
    forall i | 0 <= i < |r|
      ensures NormalizeTag(Str(r[i])) == TagOf(r[i])
    {
      NormalizeTagNoop(r[i]);
    }
    assert Steps(StrList(r)) == TagSteps(r);
    CollectFixpoint(r);
  }

  /** normalizeTags is idempotent. */
  lemma NormalizeIdempotent(items: seq<Value>)
    requires NormalizedTags(items).Some?
    ensures NormalizedTags(StrList(NormalizedTags(items).value)) == NormalizedTags(items)
  {
    NormalizedWellFormed(items);
    NormalizedFixpoint(NormalizedTags(items).value);
  }

  /**
   * normalizeTags($tags): `[]` for a scalar; for a list, the loop above.
   * None stands for a TypeError from trim() on an array element.
   */
  method NormalizeTags(tags: Value) returns (r: Option<seq<string>>)
    ensures !IsArray(tags) ==> r == Some([])
    ensures tags.List? ==> r == NormalizedTags(tags.items)
    ensures tags.Obj? ==> r.None?
  {
    if !IsArray(tags) {
      return Some([]);
    }
    if tags.Obj? {
      return None;
    }
    var items := tags.items;
    ghost var steps := Steps(items);
    var normalized: seq<string> := [];
    var i := 0;
    while i < |items|
      invariant 0 <= i <= |items|
      invariant Collect(steps[..i]) == Some(normalized)
    {
      assert steps[..i + 1][..i] == steps[..i];
      assert steps[..i + 1][i] == NormalizeTag(items[i]);
      var text := ToPhpString(items[i]);
      if text.None? {
        CollectCrash(steps);
        return None;
      }
      var tag := PhpStr.Trim(text.value, PhpStr.DefaultTrimChars);
      if PhpStr.IsFalsy(tag) {
        i := i + 1;
        continue;
      }
      tag := Transliterate(tag);
      tag := PhpStr.AsciiLower(tag);
      tag := StripNonSlug(tag);
      if !PhpStr.IsFalsy(tag) && !HasLooseMatch(normalized, tag) {
        normalized := normalized + [tag];
      }
      i := i + 1;
    }
    assert steps[..i] == steps;
    r := Some(normalized);
  }

  // ---------------------------------------------------------------------------
  // processPost

  /** A row as PDO fetches it: scalar columns only. */
  predicate ScalarRow(row: map<string, Value>)
  {
    forall k :: k in row ==> !IsArray(row[k])
  }

  /** The columns cast with `(int) ($post[k] ?? 0)`. */
  const CountKeys: set<string> := {"id", "user_id", "stars_count", "reposts_count", "comments_count", "views_count"}
  /** The flags cast with `(bool)` when present. */
  const FlagKeys: set<string> := {"is_starred", "is_reposted"}

  /** The element kept by the images filter: a string that is not blank after trim(). */
  predicate KeepImage(v: Value)
  {
    v.Str? && PhpStr.Trim(v.s, PhpStr.DefaultTrimChars) != ""
  }

  /** array_values(array_filter($images, ...)) on a list. */
  function KeptImages(items: seq<Value>): (r: seq<Value>)
    ensures |r| <= |items|
    ensures forall x :: x in r <==> x in items && KeepImage(x)
  {
    if items == [] then [] else (if KeepImage(items[0]) then [items[0]] else []) + KeptImages(items[1..])
  }

  /**
   * The elements a foreach or array_filter visits: a list's items, an
   * object's values in decoding order (json_decode keeps the order of the
   * text, which a map does not record, so the order is a parameter).
   */
  function Elements(v: Value, elements: map<string, Value> -> seq<Value>): seq<Value>
  {
    match v
    case List(items) => items
    case Obj(fields) => elements(fields)
    case _ => []
  }

  /** The images of a decoded column: the kept elements of an array (list or object), otherwise none. */
  function DecodedImages(decoded: Value, elements: map<string, Value> -> seq<Value>): seq<Value>
  {
    if IsArray(decoded) then KeptImages(Elements(decoded, elements)) else []
  }

  /** The text of a scalar column, as json_decode() receives it. */
  function ColumnText(v: Value): string
    requires !IsArray(v)
  {
    ToPhpString(v).value
  }

  /** The images step: a list of the kept elements of the decoded column when it is an array, or an empty list. */
  function WithImages(post: map<string, Value>, dec: string -> Value, elements: map<string, Value> -> seq<Value>): map<string, Value>
    requires ScalarRow(post)
  {
    post["images" := List(if IsSet(Obj(post), "images") then DecodedImages(dec(ColumnText(post["images"])), elements) else [])]
  }

  /** The text handed to json_decode() for the tags: the column, or "[]" when it is null or missing. */
  function TagsText(post: map<string, Value>): string
    requires ScalarRow(post)
  {
    if IsSet(Obj(post), "tags") then ColumnText(post["tags"]) else "[]"
  }

  /** The tags step: the decoded column when it is an array, an empty list otherwise. */
  function WithTags(post: map<string, Value>, tagsText: string, dec: string -> Value): map<string, Value>
  {
    post["tags" := if IsArray(dec(tagsText)) then dec(tagsText) else List([])]
  }

  function CastCount(post: map<string, Value>, k: string): map<string, Value>
  {
    post[k := Int(IntCast(Lookup(post, k)))]
  }

  /** The six `(int) ($post[k] ?? 0)` casts, in the source's order. */
  function CastCounts(post: map<string, Value>): map<string, Value>
  {
    CastCount(CastCount(CastCount(CastCount(CastCount(CastCount(post, "id"), "user_id"), "stars_count"), "reposts_count"), "comments_count"), "views_count")
  }

  function CastFlag(post: map<string, Value>, k: string): map<string, Value>
  {
    if k in post then post[k := Bool(Truthy(post[k]))] else post
  }

  /** The processed row: images, then tags, then the counters, then the flags. */
  function ProcessedRow(post: map<string, Value>, dec: string -> Value, elements: map<string, Value> -> seq<Value>): map<string, Value>
    requires ScalarRow(post)
  {
    CastFlag(CastFlag(CastCounts(WithTags(WithImages(post, dec, elements), TagsText(post), dec)), "is_starred"), "is_reposted")
  }

  /** The processed row has the row's columns plus images, tags and the six counters. */
  lemma ProcessedRowKeys(post: map<string, Value>, dec: string -> Value, elements: map<string, Value> -> seq<Value>)
    requires ScalarRow(post)
    ensures ProcessedRow(post, dec, elements).Keys == post.Keys + {"images", "tags"} + CountKeys
  {
  }

  /** images is a list of non-blank strings taken from the decoded column. */
  lemma ProcessedRowImages(post: map<string, Value>, dec: string -> Value, elements: map<string, Value> -> seq<Value>)
    requires ScalarRow(post)
    ensures var r := ProcessedRow(post, dec, elements)["images"];
      && r.List?
      && (forall x :: x in r.items ==> x.Str? && PhpStr.Trim(x.s, PhpStr.DefaultTrimChars) != "")
      && (!IsSet(Obj(post), "images") ==> r.items == [])
      && (IsSet(Obj(post), "images") ==>
            var d := dec(ColumnText(post["images"]));
            forall x :: x in r.items <==> IsArray(d) && x in Elements(d, elements) && KeepImage(x))
  {
  }

  /** tags is always an array: the decoded column when that is one, an empty list otherwise. */
  lemma ProcessedRowTags(post: map<string, Value>, dec: string -> Value, elements: map<string, Value> -> seq<Value>)
    requires ScalarRow(post)
    ensures var r := ProcessedRow(post, dec, elements)["tags"];
      && IsArray(r)
      && (IsArray(dec(TagsText(post))) ==> r == dec(TagsText(post)))
      && (!IsArray(dec(TagsText(post))) ==> r == List([]))
  {
  }

  /** Each counter is the integer cast of the column, 0 when it is missing or null. */
  lemma ProcessedRowCounts(post: map<string, Value>, dec: string -> Value, elements: map<string, Value> -> seq<Value>, k: string)
    requires ScalarRow(post)
    requires k in CountKeys
    ensures ProcessedRow(post, dec, elements)[k] == Int(IntCast(Lookup(post, k)))
    ensures k !in post || post[k] == Null ==> ProcessedRow(post, dec, elements)[k] == Int(0)
  {
    var q := WithTags(WithImages(post, dec, elements), TagsText(post), dec);
    assert Lookup(q, k) == Lookup(post, k) by {
      assert k != "images" && k != "tags";
    }
    CastCountsAt(q, k);
    FlagsKeep(CastCounts(q), k);
    if k !in post || post[k] == Null {
      assert Lookup(post, k) == Null;
    }
  }

  /** The two flag casts leave every other column as it was. */
  lemma FlagsKeep(row: map<string, Value>, k: string)
    requires k in row && k !in FlagKeys
    ensures CastFlag(CastFlag(row, "is_starred"), "is_reposted")[k] == row[k]
  {
  }

  lemma CastCountsAt(post: map<string, Value>, k: string)
    requires k in CountKeys
    ensures CastCounts(post)[k] == Int(IntCast(Lookup(post, k)))
  {
    var p1 := CastCount(post, "id");
    var p2 := CastCount(p1, "user_id");
    var p3 := CastCount(p2, "stars_count");
    var p4 := CastCount(p3, "reposts_count");
    var p5 := CastCount(p4, "comments_count");
    if k == "id" {
      assert p5[k] == p1[k];
    } else if k == "user_id" {
      assert p5[k] == p2[k];
      assert Lookup(p1, k) == Lookup(post, k);
    } else if k == "stars_count" {
      assert p5[k] == p3[k];
      assert Lookup(p2, k) == Lookup(post, k);
    } else if k == "reposts_count" {
      assert p5[k] == p4[k];
      assert Lookup(p3, k) == Lookup(post, k);
    } else if k == "comments_count" {
      assert Lookup(p4, k) == Lookup(post, k);
    } else {
      assert Lookup(p5, k) == Lookup(post, k);
    }
  }

  /** A flag that is present becomes its boolean cast; every other column is untouched. */
  lemma ProcessedRowRest(post: map<string, Value>, dec: string -> Value, elements: map<string, Value> -> seq<Value>, k: string)
    requires ScalarRow(post)
    requires k in post && k !in CountKeys + {"images", "tags"}
    ensures k in FlagKeys ==> ProcessedRow(post, dec, elements)[k] == Bool(Truthy(post[k]))
    ensures k !in FlagKeys ==> ProcessedRow(post, dec, elements)[k] == post[k]
  {
  }

  /**
   * processPost($post): null for a missing or empty row; otherwise the
   * processed row, built step by step as the source does.
   */
  method ProcessPost(row: Option<map<string, Value>>, dec: string -> Value, elements: map<string, Value> -> seq<Value>)
    returns (r: Option<map<string, Value>>)
    requires row.Some? ==> ScalarRow(row.value)
    ensures r.None? <==> row.None? || row.value == map[]
    ensures r.Some? ==> r.value == ProcessedRow(row.value, dec, elements)
  {
    if row.None? || row.value == map[] {
      return None;
    }
    var post := row.value;
    var images: seq<Value> := [];
    if IsSet(Obj(post), "images") {
      var decodedImages := dec(ColumnText(post["images"]));
      if IsArray(decodedImages) {
        images := KeptImages(Elements(decodedImages, elements));
      }
    }
    post := post["images" := List(images)];
    assert post == WithImages(row.value, dec, elements);
    var decodedTags := dec(TagsText(row.value));
    post := post["tags" := if IsArray(decodedTags) then decodedTags else List([])];
    ghost var tagged := post;
    assert tagged == WithTags(WithImages(row.value, dec, elements), TagsText(row.value), dec);
    post := CastCount(post, "id");
    post := CastCount(post, "user_id");
    post := CastCount(post, "stars_count");
    post := CastCount(post, "reposts_count");
    post := CastCount(post, "comments_count");
    post := CastCount(post, "views_count");
    assert post == CastCounts(tagged);
    if "is_starred" in post {
      post := post["is_starred" := Bool(Truthy(post["is_starred"]))];
    }
    if "is_reposted" in post {
      post := post["is_reposted" := Bool(Truthy(post["is_reposted"]))];
    }
    r := Some(post);
  }

  // ---------------------------------------------------------------------------
  // the posts, stars and reposts tables

  /** The columns of a `posts` row that these operations read or write. */
  datatype PostRecord = PostRecord(userId: int, slug: string, isDeleted: bool, viewsCount: int)

  /** COUNT(*) FROM stars (or reposts) WHERE post_id = p: the counters are derived from the pairs. */
  function PairCount(pairs: set<(int, int)>, postId: int): nat
  {
    |set q | q in pairs && q.0 == postId|
  }

  /** Adding a pair raises its post's count by one exactly when the pair is new. */
  lemma PairCountAdd(pairs: set<(int, int)>, postId: int, userId: int)
    ensures PairCount(pairs + {(postId, userId)}, postId)
         == PairCount(pairs, postId) + (if (postId, userId) in pairs then 0 else 1)
  {
    var a := set q | q in pairs && q.0 == postId;
    var b := set q | q in pairs + {(postId, userId)} && q.0 == postId;
    if (postId, userId) in pairs {
      assert b == a;
    } else {
      assert b == a + {(postId, userId)};
    }
  }

  /** Removing a pair lowers its post's count by one exactly when the pair was there. */
  lemma PairCountRemove(pairs: set<(int, int)>, postId: int, userId: int)
    ensures PairCount(pairs - {(postId, userId)}, postId)
         == PairCount(pairs, postId) - (if (postId, userId) in pairs then 1 else 0)
  {
    var a := set q | q in pairs && q.0 == postId;
    var b := set q | q in pairs - {(postId, userId)} && q.0 == postId;
    if (postId, userId) in pairs {
      assert a == b + {(postId, userId)};
    } else {
      assert b == a;
    }
  }

  /** Other posts' counts do not move. */
  lemma PairCountOther(pairs: set<(int, int)>, postId: int, other: int, userId: int)
    requires other != postId
    ensures PairCount(pairs + {(other, userId)}, postId) == PairCount(pairs, postId)
    ensures PairCount(pairs - {(other, userId)}, postId) == PairCount(pairs, postId)
  {
    assert (set q | q in pairs + {(other, userId)} && q.0 == postId) == (set q | q in pairs && q.0 == postId);
    assert (set q | q in pairs - {(other, userId)} && q.0 == postId) == (set q | q in pairs && q.0 == postId);
  }

  /**
   * delete($id, $userId, $isAdmin): `UPDATE ... SET is_deleted = 1`, on the
   * id alone for an admin, on the id and the owner otherwise. A missing
   * user id matches no row.
   */
  function SoftDeleted(posts: map<int, PostRecord>, id: int, userId: Option<int>, isAdmin: bool): map<int, PostRecord>
  {
    if id in posts && (isAdmin || (userId.Some? && posts[id].userId == userId.value))
    then posts[id := posts[id].(isDeleted := true)]
    else posts
  }

  /** An admin deletes any post; anyone else only their own; nothing else changes. */
  lemma SoftDeleteRules(posts: map<int, PostRecord>, id: int, userId: Option<int>, isAdmin: bool)
    ensures var r := SoftDeleted(posts, id, userId, isAdmin);
      && r.Keys == posts.Keys
      && (forall j :: j in posts && j != id ==> r[j] == posts[j])
      && (id in posts ==> (r[id].isDeleted <==> posts[id].isDeleted || isAdmin || userId == Some(posts[id].userId)))
      && (id in posts ==> r[id] == posts[id].(isDeleted := r[id].isDeleted))
  {
  }

  /** The table after `views_count = views_count + 1` on one id. */
  function Viewed(posts: map<int, PostRecord>, id: int): (r: map<int, PostRecord>)
    ensures r.Keys == posts.Keys
    ensures id in posts ==> r[id] == posts[id].(viewsCount := posts[id].viewsCount + 1)
    ensures forall j :: j in posts && j != id ==> r[j] == posts[j]
  {
    if id in posts then posts[id := posts[id].(viewsCount := posts[id].viewsCount + 1)] else posts
  }

  predicate LivePostWithSlug(posts: map<int, PostRecord>, id: int, slug: string)
  {
    id in posts && posts[id].slug == slug && !posts[id].isDeleted
  }

  class PostStore {
    var posts: map<int, PostRecord>
    var stars: set<(int, int)>
    var reposts: set<(int, int)>

    constructor ()
      ensures posts == map[] && stars == {} && reposts == {}
    {
      posts := map[];
      stars := {};
      reposts := {};
    }

    /** star(): INSERT IGNORE; true exactly when the pair was new. */
    method Star(postId: int, userId: int) returns (added: bool)
      modifies this
      ensures added <==> (postId, userId) !in old(stars)
      ensures stars == old(stars) + {(postId, userId)}
      ensures PairCount(stars, postId) == PairCount(old(stars), postId) + (if added then 1 else 0)
      ensures posts == old(posts) && reposts == old(reposts)
    {
      added := (postId, userId) !in stars;
      PairCountAdd(stars, postId, userId);
      stars := stars + {(postId, userId)};
    }

    /** unstar(): DELETE; true exactly when the pair was there. */
    method Unstar(postId: int, userId: int) returns (removed: bool)
      modifies this
      ensures removed <==> (postId, userId) in old(stars)
      ensures stars == old(stars) - {(postId, userId)}
      ensures PairCount(stars, postId) == PairCount(old(stars), postId) - (if removed then 1 else 0)
      ensures posts == old(posts) && reposts == old(reposts)
    {
      removed := (postId, userId) in stars;
      PairCountRemove(stars, postId, userId);
      stars := stars - {(postId, userId)};
    }

    /** repost(): INSERT IGNORE; true exactly when the pair was new. */
    method Repost(postId: int, userId: int) returns (added: bool)
      modifies this
      ensures added <==> (postId, userId) !in old(reposts)
      ensures reposts == old(reposts) + {(postId, userId)}
      ensures PairCount(reposts, postId) == PairCount(old(reposts), postId) + (if added then 1 else 0)
      ensures posts == old(posts) && stars == old(stars)
    {
      added := (postId, userId) !in reposts;
      PairCountAdd(reposts, postId, userId);
      reposts := reposts + {(postId, userId)};
    }

    /** undorepost(): DELETE; true exactly when the pair was there. */
    method UndoRepost(postId: int, userId: int) returns (removed: bool)
      modifies this
      ensures removed <==> (postId, userId) in old(reposts)
      ensures reposts == old(reposts) - {(postId, userId)}
      ensures PairCount(reposts, postId) == PairCount(old(reposts), postId) - (if removed then 1 else 0)
      ensures posts == old(posts) && stars == old(stars)
    {
      removed := (postId, userId) in reposts;
      PairCountRemove(reposts, postId, userId);
      reposts := reposts - {(postId, userId)};
    }

    /** delete(): PDO's execute() reports success whether or not a row matched. */
    method Delete(id: int, userId: Option<int>, isAdmin: bool) returns (ok: bool)
      modifies this
      ensures ok
      ensures posts == SoftDeleted(old(posts), id, userId, isAdmin)
      ensures stars == old(stars) && reposts == old(reposts)
    {
      if isAdmin {
        if id in posts {
          posts := posts[id := posts[id].(isDeleted := true)];
        }
        return true;
      }
      if id in posts && userId.Some? && posts[id].userId == userId.value {
        posts := posts[id := posts[id].(isDeleted := true)];
      }
      ok := true;
    }

    /** incrementViews(): `views_count = views_count + 1` on the row with that id. */
    method IncrementViews(postId: int)
      modifies this
      ensures posts == Viewed(old(posts), postId)
      ensures stars == old(stars) && reposts == old(reposts)
    {
      if postId in posts {
        posts := posts[postId := posts[postId].(viewsCount := posts[postId].viewsCount + 1)];
      }
    }

    /** findById(): a live post with that id. */
    method FindById(id: int) returns (found: Option<PostRecord>)
      ensures found.Some? <==> id in posts && !posts[id].isDeleted
      ensures found.Some? ==> found.value == posts[id]
    {
      if id in posts && !posts[id].isDeleted {
        found := Some(posts[id]);
      } else {
        found := None;
      }
    }

    /**
     * findBySlug(): some live post with that slug. When there is one its
     * views go up by one and the row read before the update is returned;
     * otherwise nothing changes.
     */
    method FindBySlug(slug: string) returns (found: Option<(int, PostRecord)>)
      modifies this
      ensures found.None? <==> forall id :: id in old(posts) ==> !LivePostWithSlug(old(posts), id, slug)
      ensures found.None? ==> posts == old(posts)
      ensures found.Some? ==>
        var id := found.value.0;
        && LivePostWithSlug(old(posts), id, slug)
        && found.value.1 == old(posts)[id]
        && posts == Viewed(old(posts), id)
      ensures stars == old(stars) && reposts == old(reposts)
    {
      if id :| id in posts && LivePostWithSlug(posts, id, slug) {
        var record := posts[id];
        IncrementViews(id);
        found := Some((id, record));
      } else {
        found := None;
      }
    }
  }
}
