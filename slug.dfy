/**
 * `criarSlug` (backend/utils/slug.js): turns a display name into a URL-safe
 * slug by a chain of string rewrites. Each rewrite is one function below, in
 * the order the chain applies them:
 *
 *   ToLower -> Nfd -> StripMarks -> Hyphenate -> KeepSlugChars
 *           -> CollapseHyphens -> TrimLeading -> TrimTrailing
 *
 * Case mapping and canonical decomposition are modelled for ASCII and the
 * Latin-1 Supplement letters (which include every accented Portuguese
 * letter); every other character is left as it is by those two steps.
 */
module Slug {
  import opened Wrappers

  // ---------------------------------------------------------------------
  // Character classes
  // ---------------------------------------------------------------------

  /** JavaScript's `\s`: the ECMAScript white-space and line-terminator characters. */
  predicate IsSpace(c: char) {
    var k := c as int;
    || k == 0x09 || k == 0x0A || k == 0x0B || k == 0x0C || k == 0x0D || k == 0x20
    || k == 0xA0 || k == 0x1680 || 0x2000 <= k <= 0x200A || k == 0x2028 || k == 0x2029
    || k == 0x202F || k == 0x205F || k == 0x3000 || k == 0xFEFF
  }

  /** JavaScript's `\w` without the `u` flag: ASCII letters, digits and `_`. */
  predicate IsWordChar(c: char) {
    'a' <= c <= 'z' || 'A' <= c <= 'Z' || '0' <= c <= '9' || c == '_'
  }

  /** The block U+0300..U+036F of combining diacritical marks that the chain deletes. */
  predicate IsCombiningMark(c: char) {
    0x300 <= c as int <= 0x36F
  }

  /** Upper-case letters that `toLowerCase` changes, within ASCII and Latin-1. */
  predicate IsUpper(c: char) {
    'A' <= c <= 'Z' || (0xC0 <= c as int <= 0xDE && c as int != 0xD7)
  }

  /** The characters a slug is made of: lower-case ASCII letters, digits, `_` and `-`. */
  predicate IsSlugChar(c: char) {
    'a' <= c <= 'z' || '0' <= c <= '9' || c == '_' || c == '-'
  }

  // ---------------------------------------------------------------------
  // Properties of strings
  // ---------------------------------------------------------------------

  predicate NoUpper(s: string) {
    forall i :: 0 <= i < |s| ==> !IsUpper(s[i])
  }

  predicate NoSpace(s: string) {
    forall i :: 0 <= i < |s| ==> !IsSpace(s[i])
  }

  predicate NoMark(s: string) {
    forall i :: 0 <= i < |s| ==> !IsCombiningMark(s[i])
  }

  predicate AllSlugChars(s: string) {
    forall i :: 0 <= i < |s| ==> IsSlugChar(s[i])
  }

  predicate NoDoubleHyphen(s: string) {
    forall i :: 0 <= i < |s| - 1 ==> !(s[i] == '-' && s[i + 1] == '-')
  }

  predicate NoEdgeHyphen(s: string) {
    s == [] || (s[0] != '-' && s[|s| - 1] != '-')
  }

  /** Everything `criarSlug` promises of its output. */
  predicate IsSlug(s: string) {
    AllSlugChars(s) && NoDoubleHyphen(s) && NoEdgeHyphen(s)
  }

  // ---------------------------------------------------------------------
  // Step 1: lower-casing
  // ---------------------------------------------------------------------

  function LowerChar(c: char): (d: char)
    ensures !IsUpper(d)
    ensures !IsUpper(c) ==> d == c
    ensures 'A' <= c <= 'Z' ==> 'a' <= d <= 'z'
  {
    if IsUpper(c) then (c as int + 32) as char else c
  }

  function ToLower(s: string): (r: string)
    ensures |r| == |s| && NoUpper(r)
    ensures forall i :: 0 <= i < |s| ==> r[i] == LowerChar(s[i])
  {
    seq(|s|, i requires 0 <= i < |s| => LowerChar(s[i]))
  }

  // ---------------------------------------------------------------------
  // Step 2: canonical decomposition (NFD), for the Latin-1 letters that decompose
  // ---------------------------------------------------------------------

  /**
   * The canonical decomposition of a lower-case Latin-1 letter, given by its
   * code point: its ASCII base letter and the code of its combining mark.
   */
  function LatinDecomposition(code: int): Option<(char, int)> {
    match code
    case 0xE0 => Some(('a', 0x300))
    case 0xE1 => Some(('a', 0x301))
    case 0xE2 => Some(('a', 0x302))
    case 0xE3 => Some(('a', 0x303))
    case 0xE4 => Some(('a', 0x308))
    case 0xE5 => Some(('a', 0x30A))
    case 0xE7 => Some(('c', 0x327))
    case 0xE8 => Some(('e', 0x300))
    case 0xE9 => Some(('e', 0x301))
    case 0xEA => Some(('e', 0x302))
    case 0xEB => Some(('e', 0x308))
    case 0xEC => Some(('i', 0x300))
    case 0xED => Some(('i', 0x301))
    case 0xEE => Some(('i', 0x302))
    case 0xEF => Some(('i', 0x308))
    case 0xF1 => Some(('n', 0x303))
    case 0xF2 => Some(('o', 0x300))
    case 0xF3 => Some(('o', 0x301))
    case 0xF4 => Some(('o', 0x302))
    case 0xF5 => Some(('o', 0x303))
    case 0xF6 => Some(('o', 0x308))
    case 0xF9 => Some(('u', 0x300))
    case 0xFA => Some(('u', 0x301))
    case 0xFB => Some(('u', 0x302))
    case 0xFC => Some(('u', 0x308))
    case 0xFD => Some(('y', 0x301))
    case 0xFF => Some(('y', 0x308))
    case _ => None
  }

  /** True of the characters that NFD splits into a base letter and a combining mark. */
  predicate Decomposes(c: char) {
    var k := c as int;
    || (0xE0 <= k <= 0xFF && LatinDecomposition(k).Some?)
    || (0xC0 <= k <= 0xDE && LatinDecomposition(k + 32).Some?)
  }

  /** The ASCII letter that an accented letter is built on; other characters are their own base. */
  function BaseLetter(c: char): (b: char)
    ensures Decomposes(c) && !IsUpper(c) ==> 'a' <= b <= 'z'
    ensures !Decomposes(c) ==> b == c
  {
    var k := c as int;
    if 0xE0 <= k <= 0xFF && LatinDecomposition(k).Some? then LatinDecomposition(k).value.0
    else if 0xC0 <= k <= 0xDE && LatinDecomposition(k + 32).Some? then
      (LatinDecomposition(k + 32).value.0 as int - 32) as char
    else c
  }

  /** NFD of one character: base letter then combining mark, or the character itself. */
  function Decompose(c: char): (r: string)
    ensures Decomposes(c) ==> |r| == 2 && r[0] == BaseLetter(c) && IsCombiningMark(r[1])
    ensures !Decomposes(c) ==> r == [c]
  {
    var k := c as int;
    if 0xE0 <= k <= 0xFF && LatinDecomposition(k).Some? then
      [BaseLetter(c), LatinDecomposition(k).value.1 as char]
    else if 0xC0 <= k <= 0xDE && LatinDecomposition(k + 32).Some? then
      [BaseLetter(c), LatinDecomposition(k + 32).value.1 as char]
    else [c]
  }

  function Nfd(s: string): (r: string)
    ensures NoUpper(s) ==> NoUpper(r)
  {
    if s == [] then [] else Decompose(s[0]) + Nfd(s[1..])
  }

  // ---------------------------------------------------------------------
  // Step 3: combining marks U+0300..U+036F are deleted
  // ---------------------------------------------------------------------

  function StripMarks(s: string): (r: string)
    ensures |r| <= |s| && NoMark(r)
    ensures NoUpper(s) ==> NoUpper(r)
  {
    if s == [] then []
    else if IsCombiningMark(s[0]) then StripMarks(s[1..])
    else [s[0]] + StripMarks(s[1..])
  }

  // ---------------------------------------------------------------------
  // Step 4: white-space runs become a hyphen
  // ---------------------------------------------------------------------

  /** Each maximal run of white space becomes one `-`; `inRun` says a run is already open. */
  function Hyphenate(s: string, inRun: bool): (r: string)
    ensures NoSpace(r)
    ensures NoUpper(s) ==> NoUpper(r)
  {
    if s == [] then []
    else if IsSpace(s[0]) then (if inRun then [] else ['-']) + Hyphenate(s[1..], true)
    else [s[0]] + Hyphenate(s[1..], false)
  }

  // ---------------------------------------------------------------------
  // Step 5: characters other than word characters and hyphens are dropped
  // ---------------------------------------------------------------------

  function KeepSlugChars(s: string): (r: string)
    ensures forall i :: 0 <= i < |r| ==> IsWordChar(r[i]) || r[i] == '-'
    ensures NoUpper(s) ==> AllSlugChars(r)
  {
    if s == [] then []
    else if IsWordChar(s[0]) || s[0] == '-' then [s[0]] + KeepSlugChars(s[1..])
    else KeepSlugChars(s[1..])
  }

  // ---------------------------------------------------------------------
  // Step 6: runs of hyphens collapse to one
  // ---------------------------------------------------------------------

  /** Each run of two or more `-` becomes one; `afterHyphen` says the last kept character was `-`. */
  function CollapseHyphens(s: string, afterHyphen: bool): (r: string)
    ensures NoDoubleHyphen(r)
    ensures afterHyphen ==> r == [] || r[0] != '-'
    ensures AllSlugChars(s) ==> AllSlugChars(r)
  {
    if s == [] then []
    else if s[0] == '-' then (if afterHyphen then [] else ['-']) + CollapseHyphens(s[1..], true)
    else [s[0]] + CollapseHyphens(s[1..], false)
  }

  /** The characters of `s` other than `-`, in order. */
  function NonHyphens(s: string): (r: string)
    ensures '-' !in r
  {
    if s == [] then []
    else if s[0] == '-' then NonHyphens(s[1..])
    else [s[0]] + NonHyphens(s[1..])
  }

  /** Collapsing touches only hyphens: every other character is kept, in order. */
  lemma {:induction false} CollapseKeepsNonHyphens(s: string, afterHyphen: bool)
    ensures NonHyphens(CollapseHyphens(s, afterHyphen)) == NonHyphens(s)
  {
    if s != [] {
      var rest := CollapseHyphens(s[1..], s[0] == '-');
      var head := if s[0] == '-' then (if afterHyphen then [] else ['-']) else [s[0]];
      assert CollapseHyphens(s, afterHyphen) == head + rest;
      CollapseKeepsNonHyphens(s[1..], s[0] == '-');
      NonHyphensAppend(head, rest);
      NonHyphensAppend([s[0]], s[1..]);
      assert s == [s[0]] + s[1..];
    }
  }

  lemma {:induction false} NonHyphensAppend(a: string, b: string)
    ensures NonHyphens(a + b) == NonHyphens(a) + NonHyphens(b)
  {
    if a == [] {
      assert a + b == b;
    } else {
      assert (a + b)[0] == a[0] && (a + b)[1..] == a[1..] + b;
      NonHyphensAppend(a[1..], b);
    }
  }

  // ---------------------------------------------------------------------
  // Steps 7 and 8: leading and trailing hyphens are removed
  // ---------------------------------------------------------------------

  function TrimLeading(s: string): (r: string)
    ensures r == [] || r[0] != '-'
    ensures |r| <= |s| && r == s[|s| - |r|..]
    ensures forall i :: 0 <= i < |s| - |r| ==> s[i] == '-'
    ensures AllSlugChars(s) ==> AllSlugChars(r)
    ensures NoDoubleHyphen(s) ==> NoDoubleHyphen(r)
  {
    if s != [] && s[0] == '-' then TrimLeading(s[1..]) else s
  }

  function TrimTrailing(s: string): (r: string)
    ensures r == [] || r[|r| - 1] != '-'
    ensures |r| <= |s| && r == s[..|r|]
    ensures forall i :: |r| <= i < |s| ==> s[i] == '-'
  {
    if s != [] && s[|s| - 1] == '-' then TrimTrailing(s[..|s| - 1]) else s
  }

  // ---------------------------------------------------------------------
  // The whole chain
  // ---------------------------------------------------------------------

  /** `criarSlug(nome)`: an empty (falsy) name gives the empty slug. */
  function CriarSlug(nome: string): (r: string)
    ensures nome == [] ==> r == []
    ensures IsSlug(r)
  {
    if nome == [] then []
    else
      var kept := KeepSlugChars(Hyphenate(StripMarks(Nfd(ToLower(nome))), false));
      var collapsed := CollapseHyphens(kept, false);
      var trimmed := TrimLeading(collapsed);
      var r := TrimTrailing(trimmed);
      assert AllSlugChars(r) && NoDoubleHyphen(r) by {
        forall i | 0 <= i < |r| ensures r[i] == trimmed[i] { }
      }
      r
  }

  // ---------------------------------------------------------------------
  // Idempotence: a slug is a fixed point of every step
  // ---------------------------------------------------------------------

  lemma {:induction false} NfdOfAscii(s: string)
    requires AllSlugChars(s)
    ensures Nfd(s) == s
  {
    if s != [] {
      assert !Decomposes(s[0]);
      NfdOfAscii(s[1..]);
    }
  }

  lemma {:induction false} StripMarksOfUnmarked(s: string)
    requires NoMark(s)
    ensures StripMarks(s) == s
  {
    if s != [] {
      StripMarksOfUnmarked(s[1..]);
    }
  }

  lemma {:induction false} HyphenateOfSpaceless(s: string, inRun: bool)
    requires NoSpace(s)
    ensures Hyphenate(s, inRun) == s
  {
    if s != [] {
      HyphenateOfSpaceless(s[1..], false);
    }
  }

  lemma {:induction false} KeepOfSlugChars(s: string)
    requires AllSlugChars(s)
    ensures KeepSlugChars(s) == s
  {
    if s != [] {
      KeepOfSlugChars(s[1..]);
    }
  }

  lemma {:induction false} CollapseOfSingleHyphens(s: string, afterHyphen: bool)
    requires NoDoubleHyphen(s)
    requires afterHyphen ==> s == [] || s[0] != '-'
    ensures CollapseHyphens(s, afterHyphen) == s
  {
    if s != [] {
      CollapseOfSingleHyphens(s[1..], s[0] == '-');
    }
  }

  /** Slug characters are neither capitals, nor combining marks, nor white space. */
  lemma SlugCharsArePlain(s: string)
    requires AllSlugChars(s)
    ensures NoUpper(s) && NoMark(s) && NoSpace(s)
  {
    forall i | 0 <= i < |s| ensures !IsUpper(s[i]) && !IsCombiningMark(s[i]) && !IsSpace(s[i]) {
      assert IsSlugChar(s[i]);
    }
  }

  /** A slug passes the first four steps unchanged. */
  lemma {:induction false} EarlyStepsFixSlug(s: string)
    requires AllSlugChars(s)
    ensures KeepSlugChars(Hyphenate(StripMarks(Nfd(ToLower(s))), false)) == s
  {
    SlugCharsArePlain(s);
    assert ToLower(s) == s;
    NfdOfAscii(s);
    StripMarksOfUnmarked(s);
    HyphenateOfSpaceless(s, false);
    KeepOfSlugChars(s);
  }

  /** A slug goes through the whole chain unchanged. */
  lemma SlugIsFixedPoint(s: string)
    requires IsSlug(s)
    ensures CriarSlug(s) == s
  {
    if s != [] {
      EarlyStepsFixSlug(s);
      CollapseOfSingleHyphens(s, false);
      assert TrimLeading(s) == s;
      assert TrimTrailing(s) == s;
    }
  }

  /** Applying `criarSlug` to its own output changes nothing. */
  lemma CriarSlugIdempotent(nome: string)
    ensures CriarSlug(CriarSlug(nome)) == CriarSlug(nome)
  {
    SlugIsFixedPoint(CriarSlug(nome));
  }

  /** A slug, a hyphen, and a non-empty run of lower-case word characters make a slug. */
  lemma HyphenJoinIsSlug(base: string, code: string)
    requires IsSlug(base) && base != []
    requires code != [] && forall i :: 0 <= i < |code| ==> IsWordChar(code[i]) && !('A' <= code[i] <= 'Z')
    ensures IsSlug(base + "-" + code)
  {
    var s := base + "-" + code;
    forall i | 0 <= i < |s| ensures IsSlugChar(s[i]) {
      if i < |base| {
        assert s[i] == base[i];
      } else if i > |base| {
        assert s[i] == code[i - |base| - 1];
      }
    }
    forall i | 0 <= i < |s| - 1 ensures !(s[i] == '-' && s[i + 1] == '-') {
      if i < |base| - 1 {
        assert s[i] == base[i] && s[i + 1] == base[i + 1];
      } else if i == |base| - 1 {
        assert s[i] == base[|base| - 1];
      } else {
        assert s[i + 1] == code[i - |base|];
      }
    }
    assert s[0] == base[0];
    assert s[|s| - 1] == code[|code| - 1];
  }

  // ---------------------------------------------------------------------
  // Accents: decomposition followed by mark removal keeps the base letter
  // ---------------------------------------------------------------------

  function BaseLetters(s: string): (r: string)
    ensures |r| == |s|
  {
    seq(|s|, i requires 0 <= i < |s| => BaseLetter(s[i]))
  }

  lemma {:induction false} StripMarksAppend(a: string, b: string)
    ensures StripMarks(a + b) == StripMarks(a) + StripMarks(b)
  {
    if a == [] {
      assert a + b == b;
    } else {
      assert (a + b)[0] == a[0] && (a + b)[1..] == a[1..] + b;
      StripMarksAppend(a[1..], b);
    }
  }

  /**
   * On text that carries no loose combining marks, the NFD step followed by
   * the mark-removal step replaces each accented letter by its base letter
   * and keeps every other character.
   */
  lemma {:induction false} AccentsKeepBaseLetter(s: string)
    requires NoMark(s)
    ensures StripMarks(Nfd(s)) == BaseLetters(s)
  {
    if s != [] {
      assert Nfd(s) == Decompose(s[0]) + Nfd(s[1..]);
      StripMarksAppend(Decompose(s[0]), Nfd(s[1..]));
      assert NoMark(s[1..]) by {
        forall i | 0 <= i < |s[1..]| ensures !IsCombiningMark(s[1..][i]) {
          assert s[1..][i] == s[i + 1];
        }
      }
      AccentsKeepBaseLetter(s[1..]);
      StripMarksOfDecompose(s[0]);
      BaseLettersCons(s);
    }
  }

  lemma BaseLettersCons(s: string)
    requires s != []
    ensures BaseLetters(s) == [BaseLetter(s[0])] + BaseLetters(s[1..])
  {
    var r, t := BaseLetters(s), BaseLetters(s[1..]);
    forall i | 0 <= i < |r| ensures r[i] == ([BaseLetter(s[0])] + t)[i] {
      if i > 0 {
        assert t[i - 1] == BaseLetter(s[1..][i - 1]);
      }
    }
  }

  /** One character's decomposition loses its mark and keeps its base letter. */
  lemma StripMarksOfDecompose(c: char)
    requires !IsCombiningMark(c)
    ensures StripMarks(Decompose(c)) == [BaseLetter(c)]
  {
    var d := Decompose(c);
    if Decomposes(c) {
      assert d == [d[0], d[1]];
      assert d[1..] == [d[1]];
      assert !IsCombiningMark(d[0]);
    }
  }

  // ---------------------------------------------------------------------
  // White space: a run of spaces between two words becomes one hyphen
  // ---------------------------------------------------------------------

  predicate AllSpace(w: string) {
    forall i :: 0 <= i < |w| ==> IsSpace(w[i])
  }

  lemma {:induction false} HyphenateKeepsWord(u: string, x: string)
    requires NoSpace(u)
    ensures Hyphenate(u + x, false) == u + Hyphenate(x, false)
  {
    if u == [] {
      assert u + x == x;
    } else {
      assert (u + x)[0] == u[0] && (u + x)[1..] == u[1..] + x;
      HyphenateKeepsWord(u[1..], x);
    }
  }

  lemma {:induction false} HyphenateInsideRun(w: string, v: string)
    requires AllSpace(w)
    ensures Hyphenate(w + v, true) == Hyphenate(v, true)
  {
    if w == [] {
      assert w + v == v;
    } else {
      assert (w + v)[0] == w[0] && (w + v)[1..] == w[1..] + v;
      HyphenateInsideRun(w[1..], v);
    }
  }

  /** `u w v` with a non-empty white-space run `w` between space-free words becomes `u-v`. */
  lemma SpaceRunBecomesHyphen(u: string, w: string, v: string)
    requires NoSpace(u) && NoSpace(v)
    requires w != [] && AllSpace(w)
    ensures Hyphenate(u + w + v, false) == u + ['-'] + v
  {
    assert u + w + v == u + (w + v);
    HyphenateKeepsWord(u, w + v);
    assert (w + v)[1..] == w[1..] + v;
    HyphenateInsideRun(w[1..], v);
    HyphenateOfSpaceless(v, true);
  }

  // ---------------------------------------------------------------------
  // What the filtering steps keep
  // ---------------------------------------------------------------------

  /** Dropping characters works piecewise: each part keeps its own word characters and hyphens, in order. */
  lemma {:induction false} KeepSlugCharsAppend(a: string, b: string)
    ensures KeepSlugChars(a + b) == KeepSlugChars(a) + KeepSlugChars(b)
  {
    if a == [] {
      assert a + b == b;
    } else {
      assert (a + b)[0] == a[0] && (a + b)[1..] == a[1..] + b;
      KeepSlugCharsAppend(a[1..], b);
    }
  }

  predicate NoHyphen(s: string) {
    forall i :: 0 <= i < |s| ==> s[i] != '-'
  }

  predicate AllHyphens(h: string) {
    forall i :: 0 <= i < |h| ==> h[i] == '-'
  }

  lemma {:induction false} CollapseKeepsWord(u: string, x: string)
    requires NoHyphen(u)
    ensures CollapseHyphens(u + x, false) == u + CollapseHyphens(x, false)
  {
    if u == [] {
      assert u + x == x;
    } else {
      assert (u + x)[0] == u[0] && (u + x)[1..] == u[1..] + x;
      assert NoHyphen(u[1..]) by {
        forall i | 0 <= i < |u[1..]| ensures u[1..][i] != '-' { assert u[1..][i] == u[i + 1]; }
      }
      CollapseKeepsWord(u[1..], x);
    }
  }

  lemma {:induction false} CollapseInsideRun(h: string, v: string)
    requires AllHyphens(h)
    ensures CollapseHyphens(h + v, true) == CollapseHyphens(v, true)
  {
    if h == [] {
      assert h + v == v;
    } else {
      assert (h + v)[0] == h[0] && (h + v)[1..] == h[1..] + v;
      AllHyphensTail(h);
      CollapseInsideRun(h[1..], v);
    }
  }

  /** A run of hyphens followed by a part with single hyphens that does not start with one keeps one hyphen. */
  lemma CollapseOfRun(h: string, v: string)
    requires h != [] && AllHyphens(h)
    requires NoDoubleHyphen(v) && (v == [] || v[0] != '-')
    ensures CollapseHyphens(h + v, false) == ['-'] + v
  {
    var hv := h + v;
    var t := h[1..];
    assert hv[0] == '-' && hv[1..] == t + v;
    assert CollapseHyphens(hv, false) == ['-'] + CollapseHyphens(t + v, true);
    AllHyphensTail(h);
    CollapseInsideRun(t, v);
    CollapseOfSingleHyphens(v, true);
  }

  lemma AllHyphensTail(h: string)
    requires h != [] && AllHyphens(h)
    ensures AllHyphens(h[1..])
  {
    forall i | 0 <= i < |h[1..]| ensures h[1..][i] == '-' { assert h[1..][i] == h[i + 1]; }
  }

  /** `u h v` with a run `h` of hyphens after a hyphen-free word `u` keeps `u`, one hyphen, and `v`. */
  lemma HyphenRunBecomesOne(u: string, h: string, v: string)
    requires NoHyphen(u) && h != [] && AllHyphens(h)
    requires NoDoubleHyphen(v) && (v == [] || v[0] != '-')
    ensures CollapseHyphens(u + h + v, false) == u + ['-'] + v
  {
    assert u + h + v == u + (h + v);
    CollapseKeepsWord(u, h + v);
    CollapseOfRun(h, v);
  }
}
