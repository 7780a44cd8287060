/**
 * The URL-friendly file-name stem ("slug") that the blog endpoint derives from a
 * generated title (app.py, lines 59-64):
 *
 *   lower-case and strip whitespace; each whitespace run becomes '-';
 *   everything outside [a-z0-9-] is deleted; each '-' run becomes one '-';
 *   the first 60 characters are kept and '-' is stripped from both ends.
 *
 * Python's str.lower(), str.strip() and the regex class \s are Unicode-aware;
 * this model restricts them to ASCII: only 'A'..'Z' are lowered, and the
 * whitespace characters are the ASCII ones str.isspace() accepts.
 */
module Slug {

  /** The slug is cut to this many characters (the `[:60]` of line 64). */
  const MaxLength := 60

  /** ASCII whitespace as str.isspace() and \s see it: \t \n \v \f \r, the
      separators \x1c-\x1f, and the space. */
  predicate IsSpace(c: char) {
    '\t' <= c <= '\r' || '\U{1C}' <= c <= ' '
  }

  predicate IsHyphen(c: char) {
    c == '-'
  }

  predicate IsLowerAlnum(c: char) {
    'a' <= c <= 'z' || '0' <= c <= '9'
  }

  predicate IsAsciiAlnum(c: char) {
    'A' <= c <= 'Z' || IsLowerAlnum(c)
  }

  /** The class [a-z0-9-] that line 62 keeps. */
  predicate IsSlugChar(c: char) {
    IsLowerAlnum(c) || IsHyphen(c)
  }

  predicate AllSlugChars(s: string) {
    forall i :: 0 <= i < |s| ==> IsSlugChar(s[i])
  }

  /** The two character classes whose runs the pipeline replaces and strips:
      whitespace (\s, str.strip()) and '-'. */
  datatype CharClass = Whitespace | Hyphen

  predicate InClass(k: CharClass, c: char) {
    match k
    case Whitespace => IsSpace(c)
    case Hyphen => IsHyphen(c)
  }

  /** No two neighbouring characters are both in class `k`. */
  predicate NoAdjacent(s: string, k: CharClass) {
    forall i :: 0 <= i < |s| - 1 ==> !(InClass(k, s[i]) && InClass(k, s[i + 1]))
  }

  predicate NoEdge(s: string, k: CharClass) {
    s == [] || (!InClass(k, s[0]) && !InClass(k, s[|s| - 1]))
  }

  /** What a slug produced by the pipeline looks like. */
  predicate IsSlug(s: string) {
    && AllSlugChars(s)
    && |s| <= MaxLength
    && NoEdge(s, Hyphen)
    && NoAdjacent(s, Hyphen)
  }

  /** str.lower() on one character, ASCII letters only. */
  function LowerChar(c: char): (r: char)
    ensures IsLowerAlnum(r) <==> IsAsciiAlnum(c)
    ensures IsSpace(r) <==> IsSpace(c)
    ensures IsHyphen(r) <==> IsHyphen(c)
    ensures IsSlugChar(c) ==> r == c
  {
    if 'A' <= c <= 'Z' then (c as int + 32) as char else c
  }

  /** str.lower(): the string with every ASCII upper-case letter lowered. */
  function Lower(s: string): string {
    if s == [] then [] else [LowerChar(s[0])] + Lower(s[1..])
  }

  /** Lowering works character by character and keeps the length. */
  lemma {:induction false} LowerShape(s: string)
    ensures |Lower(s)| == |s|
    ensures forall i :: 0 <= i < |s| ==> Lower(s)[i] == LowerChar(s[i])
  {
    if s != [] {
      LowerShape(s[1..]);
    }
  }

  /** Lowering twice is lowering once, and only the empty string lowers to
      the empty string. */
  lemma LowerIdempotent(s: string)
    ensures Lower(Lower(s)) == Lower(s)
    ensures Lower(s) == [] <==> s == []
  {
    LowerShape(s);
    LowerShape(Lower(s));
  }

  /** The leading characters in class `k` removed. */
  function StripStart(s: string, k: CharClass): (r: string)
    ensures |r| <= |s|
    decreases |s|
  {
    if s != [] && InClass(k, s[0]) then StripStart(s[1..], k) else s
  }

  /** What StripStart removes is a prefix of class-`k` characters, and what it
      keeps does not start with one. */
  lemma {:induction false} StripStartShape(s: string, k: CharClass)
    ensures StripStart(s, k) == s[|s| - |StripStart(s, k)|..]
    ensures forall i :: 0 <= i < |s| - |StripStart(s, k)| ==> InClass(k, s[i])
    ensures StripStart(s, k) == [] || !InClass(k, StripStart(s, k)[0])
    decreases |s|
  {
    if s != [] && InClass(k, s[0]) {
      StripStartShape(s[1..], k);
      assert s[1..][|s| - 1 - |StripStart(s, k)|..] == s[|s| - |StripStart(s, k)|..];
    }
  }

  /** The trailing characters in class `k` removed. */
  function StripEnd(s: string, k: CharClass): (r: string)
    ensures |r| <= |s|
    decreases |s|
  {
    if s != [] && InClass(k, s[|s| - 1]) then StripEnd(s[..|s| - 1], k) else s
  }

  /** What StripEnd removes is a suffix of class-`k` characters, and what it
      keeps does not end with one. */
  lemma {:induction false} StripEndShape(s: string, k: CharClass)
    ensures StripEnd(s, k) == s[..|StripEnd(s, k)|]
    ensures forall i :: |StripEnd(s, k)| <= i < |s| ==> InClass(k, s[i])
    ensures StripEnd(s, k) == [] || !InClass(k, StripEnd(s, k)[|StripEnd(s, k)| - 1])
    decreases |s|
  {
    if s != [] && InClass(k, s[|s| - 1]) {
      StripEndShape(s[..|s| - 1], k);
    }
  }

  /** str.strip() (class Whitespace) and str.strip('-') (class Hyphen). */
  function Strip(s: string, k: CharClass): string {
    StripEnd(StripStart(s, k), k)
  }

  /** Stripping leaves no class-`k` character at either end, removes only
      class-`k` characters (all of them when nothing is left), and changes
      nothing when there is none at either end. */
  lemma StripShape(s: string, k: CharClass)
    ensures |Strip(s, k)| <= |s|
    ensures NoEdge(Strip(s, k), k)
    ensures NoEdge(s, k) ==> Strip(s, k) == s
    ensures Strip(s, k) == [] ==> forall i :: 0 <= i < |s| ==> InClass(k, s[i])
  {
    var t := StripStart(s, k);
    StripStartShape(s, k);
    StripEndShape(t, k);
  }

  /** The stripped string is a slice of its input. */
  lemma StripSlice(s: string, k: CharClass) returns (a: nat, b: nat)
    ensures a <= b <= |s| && Strip(s, k) == s[a..b]
  {
    var t := StripStart(s, k);
    StripStartShape(s, k);
    StripEndShape(t, k);
    a := |s| - |t|;
    b := a + |StripEnd(t, k)|;
  }

  /** re.sub(P + '+', c, s) for a one-character class P: every maximal run of
      characters in class `k` becomes the single character `c`. */
  function ReplaceRuns(s: string, k: CharClass, c: char): string
    decreases |s|
  {
    if s == [] then []
    else if InClass(k, s[0]) then [c] + ReplaceRuns(StripStart(s[1..], k), k, c)
    else [s[0]] + ReplaceRuns(s[1..], k, c)
  }

  /** The replacement never grows the string and starts with `c` exactly when
      the input starts with a `k`-character. */
  lemma {:induction false} ReplaceRunsLength(s: string, k: CharClass, c: char)
    ensures |ReplaceRuns(s, k, c)| <= |s|
    ensures s != [] ==> ReplaceRuns(s, k, c) != [] && ReplaceRuns(s, k, c)[0] == (if InClass(k, s[0]) then c else s[0])
    decreases |s|
  {
    if s != [] {
      var rest := if InClass(k, s[0]) then StripStart(s[1..], k) else s[1..];
      ReplaceRunsLength(rest, k, c);
    }
  }

  /** Every character written is `c` or a character of the input outside `k`. */
  lemma {:induction false} ReplaceRunsOrigin(s: string, k: CharClass, c: char)
    ensures forall i :: 0 <= i < |ReplaceRuns(s, k, c)| ==>
      ReplaceRuns(s, k, c)[i] == c || (!InClass(k, ReplaceRuns(s, k, c)[i]) && ReplaceRuns(s, k, c)[i] in s)
    decreases |s|
  {
    if s != [] {
      var rest := if InClass(k, s[0]) then StripStart(s[1..], k) else s[1..];
      StripStartShape(s[1..], k);
      ReplaceRunsOrigin(rest, k, c);
      var r := ReplaceRuns(s, k, c);
      var tail := ReplaceRuns(rest, k, c);
      assert r == [r[0]] + tail;
      forall i | 0 <= i < |r| ensures r[i] == c || (!InClass(k, r[i]) && r[i] in s) {
        if i > 0 && tail[i - 1] != c {
          var j :| 0 <= j < |rest| && rest[j] == tail[i - 1];
          assert rest[j] == s[|s| - |rest| + j];
        }
      }
    }
  }

  /** No two `k`-characters stand next to each other after the replacement. */
  lemma {:induction false} ReplaceRunsNoAdjacent(s: string, k: CharClass, c: char)
    ensures NoAdjacent(ReplaceRuns(s, k, c), k)
    decreases |s|
  {
    if s != [] {
      var rest := if InClass(k, s[0]) then StripStart(s[1..], k) else s[1..];
      StripStartShape(s[1..], k);
      ReplaceRunsNoAdjacent(rest, k, c);
      ReplaceRunsLength(rest, k, c);
      var r := ReplaceRuns(s, k, c);
      var tail := ReplaceRuns(rest, k, c);
      assert r == [r[0]] + tail;
      forall i | 0 <= i < |r| - 1 ensures !(InClass(k, r[i]) && InClass(k, r[i + 1])) {
        if i > 0 {
          assert r[i] == tail[i - 1] && r[i + 1] == tail[i];
        }
      }
    }
  }

  /** The three facts above together. */
  lemma ReplaceRunsShape(s: string, k: CharClass, c: char)
    ensures |ReplaceRuns(s, k, c)| <= |s|
    ensures forall i :: 0 <= i < |ReplaceRuns(s, k, c)| ==>
      ReplaceRuns(s, k, c)[i] == c || (!InClass(k, ReplaceRuns(s, k, c)[i]) && ReplaceRuns(s, k, c)[i] in s)
    ensures NoAdjacent(ReplaceRuns(s, k, c), k)
    ensures s != [] ==> ReplaceRuns(s, k, c) != [] && ReplaceRuns(s, k, c)[0] == (if InClass(k, s[0]) then c else s[0])
  {
    ReplaceRunsLength(s, k, c);
    ReplaceRunsOrigin(s, k, c);
    ReplaceRunsNoAdjacent(s, k, c);
  }

  /** A string whose `k`-characters are all `c`, never two in a row, has no run
      to replace. */
  lemma {:induction false} ReplaceRunsFixes(s: string, k: CharClass, c: char)
    requires forall i :: 0 <= i < |s| && InClass(k, s[i]) ==> s[i] == c
    requires NoAdjacent(s, k)
    ensures ReplaceRuns(s, k, c) == s
    decreases |s|
  {
    if s != [] {
      assert NoAdjacent(s[1..], k) by {
        forall i | 0 <= i < |s[1..]| - 1 ensures !(InClass(k, s[1..][i]) && InClass(k, s[1..][i + 1])) {
          assert s[1..][i] == s[i + 1] && s[1..][i + 1] == s[i + 2];
        }
      }
      ReplaceRunsFixes(s[1..], k, c);
      if InClass(k, s[0]) {
        assert s[1..] == [] || !InClass(k, s[1]);
        assert StripStart(s[1..], k) == s[1..];
        assert s == [c] + s[1..];
      } else {
        assert s == [s[0]] + s[1..];
      }
    }
  }

  /** Characters that are not in `k` are copied through unchanged. */
  lemma {:induction false} ReplaceRunsCopiesPlain(u: string, w: string, k: CharClass, c: char)
    requires forall i :: 0 <= i < |u| ==> !InClass(k, u[i])
    ensures ReplaceRuns(u + w, k, c) == u + ReplaceRuns(w, k, c)
    decreases |u|
  {
    if u == [] {
      assert u + w == w;
    } else {
      assert (u + w)[0] == u[0] && (u + w)[1..] == u[1..] + w;
      ReplaceRunsCopiesPlain(u[1..], w, k, c);
      assert u == [u[0]] + u[1..];
    }
  }

  /** A whole run, followed by a character that does not continue it, is
      replaced by one `c`. */
  lemma {:induction false} StripStartRun(run: string, w: string, k: CharClass)
    requires forall i :: 0 <= i < |run| ==> InClass(k, run[i])
    requires w == [] || !InClass(k, w[0])
    ensures StripStart(run + w, k) == w
    decreases |run|
  {
    if run == [] {
      assert run + w == w;
    } else {
      assert (run + w)[0] == run[0] && (run + w)[1..] == run[1..] + w;
      StripStartRun(run[1..], w, k);
    }
  }

  lemma ReplaceRunsRun(run: string, w: string, k: CharClass, c: char)
    requires run != [] && forall i :: 0 <= i < |run| ==> InClass(k, run[i])
    requires w == [] || !InClass(k, w[0])
    ensures ReplaceRuns(run + w, k, c) == [c] + ReplaceRuns(w, k, c)
  {
    assert (run + w)[0] == run[0] && (run + w)[1..] == run[1..] + w;
    StripStartRun(run[1..], w, k);
  }

  /** Lowering distributes over concatenation. */
  lemma {:induction false} LowerAppend(a: string, b: string)
    ensures Lower(a + b) == Lower(a) + Lower(b)
  {
    if a == [] {
      assert a + b == b;
    } else {
      assert (a + b)[0] == a[0] && (a + b)[1..] == a[1..] + b;
      LowerAppend(a[1..], b);
    }
  }

  /** re.sub(r'[^a-z0-9-]', '', s): every character outside [a-z0-9-] deleted. */
  function KeepSlugChars(s: string): string {
    if s == [] then []
    else if IsSlugChar(s[0]) then [s[0]] + KeepSlugChars(s[1..])
    else KeepSlugChars(s[1..])
  }

  /** The filter keeps only [a-z0-9-], only characters of its input, and
      everything when the input is already over [a-z0-9-]. */
  lemma {:induction false} KeepSlugCharsShape(s: string)
    ensures |KeepSlugChars(s)| <= |s|
    ensures AllSlugChars(KeepSlugChars(s))
    ensures forall i :: 0 <= i < |KeepSlugChars(s)| ==> KeepSlugChars(s)[i] in s
    ensures AllSlugChars(s) ==> KeepSlugChars(s) == s
  {
    if s != [] {
      KeepSlugCharsShape(s[1..]);
      var r := KeepSlugChars(s);
      var tail := KeepSlugChars(s[1..]);
      forall i | 0 <= i < |r| ensures r[i] in s {
        if IsSlugChar(s[0]) && i == 0 {
        } else {
          var j := if IsSlugChar(s[0]) then i - 1 else i;
          assert r[i] == tail[j];
          var m :| 0 <= m < |s[1..]| && s[1..][m] == tail[j];
          assert s[m + 1] == r[i];
        }
      }
    }
  }

  /** The first `n` characters, as Python's s[:n]. */
  function Prefix(s: string, n: nat): (r: string)
    ensures r <= s
    ensures |r| <= n && (|s| <= n ==> r == s)
    ensures |s| >= n ==> |r| == n
  {
    if |s| <= n then s else s[..n]
  }

  /** app.py lines 60-64, one assignment of `safe_title` per step. */
  function Slugify(title: string): string {
    var trimmed := Strip(Lower(title), Whitespace);
    var dashed := ReplaceRuns(trimmed, Whitespace, '-');
    var kept := KeepSlugChars(dashed);
    var collapsed := ReplaceRuns(kept, Hyphen, '-');
    Strip(Prefix(collapsed, MaxLength), Hyphen)
  }

  /** Slices keep the alphabet and the absence of "--". */
  lemma SliceKeepsShape(s: string, a: nat, b: nat)
    requires a <= b <= |s|
    requires AllSlugChars(s) && NoAdjacent(s, Hyphen)
    ensures AllSlugChars(s[a..b]) && NoAdjacent(s[a..b], Hyphen)
  {
    forall i | 0 <= i < b - a - 1
      ensures !(InClass(Hyphen, s[a..b][i]) && InClass(Hyphen, s[a..b][i + 1]))
    {
      assert s[a..b][i] == s[a + i] && s[a..b][i + 1] == s[a + i + 1];
    }
  }

  /** Collapsing '-' runs of a string over [a-z0-9-] keeps the alphabet and
      leaves no "--". */
  lemma CollapseKeepsShape(s: string)
    requires AllSlugChars(s)
    ensures AllSlugChars(ReplaceRuns(s, Hyphen, '-'))
    ensures NoAdjacent(ReplaceRuns(s, Hyphen, '-'), Hyphen)
  {
    var r := ReplaceRuns(s, Hyphen, '-');
    ReplaceRunsShape(s, Hyphen, '-');
    forall i | 0 <= i < |r| ensures IsSlugChar(r[i]) {
      if r[i] != '-' {
        assert r[i] in s;
        var j :| 0 <= j < |s| && s[j] == r[i];
      }
    }
  }

  /** Every slug uses only [a-z0-9-], is at most 60 long, has no '-' at either
      end and no "--" anywhere. */
  lemma SlugifyIsSlug(title: string)
    ensures IsSlug(Slugify(title))
  {
    var kept := KeepSlugChars(ReplaceRuns(Strip(Lower(title), Whitespace), Whitespace, '-'));
    KeepSlugCharsShape(ReplaceRuns(Strip(Lower(title), Whitespace), Whitespace, '-'));
    CollapseKeepsShape(kept);
    var cut := Prefix(ReplaceRuns(kept, Hyphen, '-'), MaxLength);
    SliceKeepsShape(ReplaceRuns(kept, Hyphen, '-'), 0, |cut|);
    assert cut == ReplaceRuns(kept, Hyphen, '-')[0..|cut|];
    var a, b := StripSlice(cut, Hyphen);
    SliceKeepsShape(cut, a, b);
    StripShape(cut, Hyphen);
  }

  /** Lines 62-64 leave a slug unchanged. */
  lemma TidyFixesSlugs(s: string)
    requires IsSlug(s)
    ensures Strip(Prefix(ReplaceRuns(KeepSlugChars(s), Hyphen, '-'), MaxLength), Hyphen) == s
  {
    KeepSlugCharsShape(s);
    ReplaceRunsFixes(s, Hyphen, '-');
    assert Prefix(s, MaxLength) == s;
    StripShape(s, Hyphen);
  }

  /** A string that already is a slug passes through the pipeline unchanged. */
  lemma SlugFixesSlugs(s: string)
    requires IsSlug(s)
    ensures Slugify(s) == s
  {
    LowerShape(s);
    assert Lower(s) == s;
    StripShape(s, Whitespace);
    ReplaceRunsFixes(s, Whitespace, '-');
    TidyFixesSlugs(s);
  }

  /** Slugging is idempotent. */
  lemma SlugifyIdempotent(title: string)
    ensures Slugify(Slugify(title)) == Slugify(title)
  {
    SlugifyIsSlug(title);
    SlugFixesSlugs(Slugify(title));
  }

  predicate NoLowerAlnum(s: string) {
    forall i :: 0 <= i < |s| ==> !IsLowerAlnum(s[i])
  }

  lemma SliceKeepsNoAlnum(s: string, a: nat, b: nat)
    requires NoLowerAlnum(s)
    requires a <= b <= |s|
    ensures NoLowerAlnum(s[a..b])
  {
    forall i | 0 <= i < b - a ensures !IsLowerAlnum(s[a..b][i]) {
      assert s[a..b][i] == s[a + i];
    }
  }

  /** Replacing runs only writes `c` or copies characters of the input. */
  lemma ReplaceKeepsNoAlnum(s: string, k: CharClass, c: char)
    requires NoLowerAlnum(s) && !IsLowerAlnum(c)
    ensures NoLowerAlnum(ReplaceRuns(s, k, c))
  {
    var r := ReplaceRuns(s, k, c);
    ReplaceRunsShape(s, k, c);
    forall i | 0 <= i < |r| ensures !IsLowerAlnum(r[i]) {
      if r[i] != c {
        assert r[i] in s;
      }
    }
  }

  lemma KeepKeepsNoAlnum(s: string)
    requires NoLowerAlnum(s)
    ensures NoLowerAlnum(KeepSlugChars(s))
  {
    var r := KeepSlugChars(s);
    KeepSlugCharsShape(s);
    forall i | 0 <= i < |r| ensures !IsLowerAlnum(r[i]) {
      assert r[i] in s;
    }
  }

  /** A title without an ASCII letter or digit (a Hindi title, for one) has the
      empty slug: the code has no guard against it. */
  lemma SlugEmptyWithoutAlnum(title: string)
    requires forall i :: 0 <= i < |title| ==> !IsAsciiAlnum(title[i])
    ensures Slugify(title) == []
  {
    var lowered := Lower(title);
    LowerShape(title);
    var a0, b0 := StripSlice(lowered, Whitespace);
    SliceKeepsNoAlnum(lowered, a0, b0);
    var trimmed := Strip(lowered, Whitespace);
    var dashed := ReplaceRuns(trimmed, Whitespace, '-');
    ReplaceKeepsNoAlnum(trimmed, Whitespace, '-');
    var kept := KeepSlugChars(dashed);
    KeepKeepsNoAlnum(dashed);
    var collapsed := ReplaceRuns(kept, Hyphen, '-');
    ReplaceKeepsNoAlnum(kept, Hyphen, '-');
    var cut := Prefix(collapsed, MaxLength);
    SliceKeepsNoAlnum(collapsed, 0, |cut|);
    assert cut == collapsed[0..|cut|];
    var a, b := StripSlice(cut, Hyphen);
    SliceKeepsNoAlnum(cut, a, b);
    var slug := Strip(cut, Hyphen);
    SlugifyIsSlug(title);
  }

  predicate AllAsciiAlnum(s: string) {
    forall i :: 0 <= i < |s| ==> IsAsciiAlnum(s[i])
  }

  predicate AllSpace(s: string) {
    forall i :: 0 <= i < |s| ==> IsSpace(s[i])
  }

  /** Lowering a word of ASCII letters and digits gives lower-case letters and
      digits; lowering whitespace changes nothing. */
  lemma LowerWords(u: string, gap: string)
    requires AllAsciiAlnum(u) && AllSpace(gap)
    ensures |Lower(u)| == |u| && forall i :: 0 <= i < |u| ==> IsLowerAlnum(Lower(u)[i])
    ensures Lower(gap) == gap
  {
    LowerShape(u);
    LowerShape(gap);
  }

  lemma {:induction false} LowerTwoWords(u: string, gap: string, v: string)
    requires AllAsciiAlnum(u) && AllSpace(gap)
    ensures Lower(u + gap + v) == Lower(u) + gap + Lower(v)
  {
    LowerWords(u, gap);
    LowerAppend(u + gap, v);
    LowerAppend(u, gap);
  }

  /** A whitespace run between two words that contain none becomes one '-'. */
  lemma {:induction false} DashOneGap(a: string, gap: string, b: string)
    requires a != [] && gap != [] && b != []
    requires forall i :: 0 <= i < |a| ==> !IsSpace(a[i])
    requires AllSpace(gap)
    requires forall i :: 0 <= i < |b| ==> !IsSpace(b[i])
    ensures ReplaceRuns(Strip(a + gap + b, Whitespace), Whitespace, '-') == a + "-" + b
  {
    var s := a + gap + b;
    assert s[0] == a[0] && s[|s| - 1] == b[|b| - 1];
    StripShape(s, Whitespace);
    assert s == a + (gap + b);
    ReplaceRunsCopiesPlain(a, gap + b, Whitespace, '-');
    ReplaceRunsRun(gap, b, Whitespace, '-');
    ReplaceRunsCopiesPlain(b, [], Whitespace, '-');
    assert b + [] == b;
  }

  /** Lines 60-61 on two words around a whitespace run. */
  lemma {:induction false} DashedTwoWords(u: string, gap: string, v: string)
    requires u != [] && gap != [] && v != []
    requires AllAsciiAlnum(u) && AllSpace(gap) && AllAsciiAlnum(v)
    ensures ReplaceRuns(Strip(Lower(u + gap + v), Whitespace), Whitespace, '-') == Lower(u) + "-" + Lower(v)
  {
    LowerTwoWords(u, gap, v);
    LowerWords(u, gap);
    LowerWords(v, gap);
    DashOneGap(Lower(u), gap, Lower(v));
  }

  /** Two lower-case words joined by one '-' form a slug when short enough. */
  lemma {:induction false} JoinedWordsAreSlug(a: string, b: string)
    requires a != [] && b != [] && |a| + 1 + |b| <= MaxLength
    requires forall i :: 0 <= i < |a| ==> IsLowerAlnum(a[i])
    requires forall i :: 0 <= i < |b| ==> IsLowerAlnum(b[i])
    ensures IsSlug(a + "-" + b)
  {
    var s := a + "-" + b;
    forall i | 0 <= i < |s| ensures IsSlugChar(s[i]) {
      if i < |a| {
        assert s[i] == a[i];
      } else if i > |a| {
        assert s[i] == b[i - |a| - 1];
      }
    }
    forall i | 0 <= i < |s| - 1 ensures !(InClass(Hyphen, s[i]) && InClass(Hyphen, s[i + 1])) {
      if i < |a| {
        assert s[i] == a[i];
      } else {
        assert s[i + 1] == b[i - |a|];
      }
    }
  }

  /** Two words of ASCII letters and digits separated by any whitespace run
      become the lowered words joined by a single '-'. */
  lemma {:induction false} SlugifyTwoWords(u: string, gap: string, v: string)
    requires u != [] && gap != [] && v != []
    requires AllAsciiAlnum(u) && AllSpace(gap) && AllAsciiAlnum(v)
    requires |u| + 1 + |v| <= MaxLength
    ensures Slugify(u + gap + v) == Lower(u) + "-" + Lower(v)
  {
    DashedTwoWords(u, gap, v);
    LowerWords(u, gap);
    LowerWords(v, gap);
    JoinedWordsAreSlug(Lower(u), Lower(v));
    TidyFixesSlugs(Lower(u) + "-" + Lower(v));
  }

  /** The filter works piece by piece. */
  lemma {:induction false} KeepSlugCharsAppend(a: string, b: string)
    ensures KeepSlugChars(a + b) == KeepSlugChars(a) + KeepSlugChars(b)
  {
    if a == [] {
      assert a + b == b;
    } else {
      assert (a + b)[0] == a[0] && (a + b)[1..] == a[1..] + b;
      KeepSlugCharsAppend(a[1..], b);
    }
  }

  /** A character that is neither an ASCII letter or digit, whitespace, nor '-'
      (such as '&'): lowering keeps it and the filter drops it. */
  predicate IsSymbol(c: char) {
    !IsAsciiAlnum(c) && !IsSpace(c) && !IsHyphen(c)
  }

  lemma {:induction false} LowerAroundSymbol(u: string, x: char, v: string)
    requires AllAsciiAlnum(u) && IsSymbol(x)
    ensures Lower(u + [' ', x, ' '] + v) == Lower(u) + [' ', x, ' '] + Lower(v)
  {
    var mid := [' ', x, ' '];
    LowerShape(mid);
    assert Lower(mid) == mid;
    LowerAppend(u + mid, v);
    LowerAppend(u, mid);
  }

  /** Whitespace-separated symbol between two words: its spaces become '-'. */
  lemma {:induction false} DashAroundSymbol(a: string, x: char, b: string)
    requires a != [] && b != [] && IsSymbol(x)
    requires forall i :: 0 <= i < |a| ==> !IsSpace(a[i])
    requires forall i :: 0 <= i < |b| ==> !IsSpace(b[i])
    ensures ReplaceRuns(Strip(a + [' ', x, ' '] + b, Whitespace), Whitespace, '-') == a + ['-', x, '-'] + b
  {
    var s := a + [' ', x, ' '] + b;
    assert s[0] == a[0] && s[|s| - 1] == b[|b| - 1];
    StripShape(s, Whitespace);
    DashSpacedSymbol(a, x, b);
  }

  lemma {:induction false} DashSpacedSymbol(a: string, x: char, b: string)
    requires IsSymbol(x)
    requires forall i :: 0 <= i < |a| ==> !IsSpace(a[i])
    requires forall i :: 0 <= i < |b| ==> !IsSpace(b[i])
    ensures ReplaceRuns(a + [' ', x, ' '] + b, Whitespace, '-') == a + ['-', x, '-'] + b
  {
    var w := [x] + ([' '] + b);
    assert a + [' ', x, ' '] + b == a + ([' '] + w);
    ReplaceRunsCopiesPlain(a, [' '] + w, Whitespace, '-');
    ReplaceRunsRun([' '], w, Whitespace, '-');
    ReplaceRunsCopiesPlain([x], [' '] + b, Whitespace, '-');
    ReplaceRunsRun([' '], b, Whitespace, '-');
    ReplaceRunsCopiesPlain(b, [], Whitespace, '-');
    assert b + [] == b;
    assert a + (['-'] + ([x] + (['-'] + b))) == a + ['-', x, '-'] + b;
  }

  /** The filter keeps a string that is already over [a-z0-9-]. */
  lemma {:induction false} KeepSlugCharsFixes(s: string)
    requires AllSlugChars(s)
    ensures KeepSlugChars(s) == s
  {
    if s != [] {
      KeepSlugCharsFixes(s[1..]);
      assert s == [s[0]] + s[1..];
    }
  }

  /** The filter deletes the symbol and leaves the two '-' around it. */
  lemma {:induction false} KeepAroundSymbol(a: string, x: char, b: string)
    requires IsSymbol(x) && AllSlugChars(a) && AllSlugChars(b)
    ensures KeepSlugChars(a + ['-', x, '-'] + b) == a + "--" + b
  {
    KeepSlugCharsFixes(a);
    KeepSlugCharsFixes(b);
    KeepSlugCharsAppend(a + ['-', x, '-'], b);
    KeepSlugCharsAppend(a, ['-', x, '-']);
    var m := ['-', x, '-'];
    assert m[1..][1..] == "-";
    assert KeepSlugChars(m[1..][1..]) == "-";
    assert KeepSlugChars(m[1..]) == "-";
    assert KeepSlugChars(m) == "--";
  }

  /** The collapse merges the two '-'. */
  lemma {:induction false} CollapseDoubleHyphen(a: string, b: string)
    requires forall i :: 0 <= i < |a| ==> !IsHyphen(a[i])
    requires forall i :: 0 <= i < |b| ==> !IsHyphen(b[i])
    ensures ReplaceRuns(a + "--" + b, Hyphen, '-') == a + "-" + b
  {
    assert a + "--" + b == a + ("--" + b);
    ReplaceRunsCopiesPlain(a, "--" + b, Hyphen, '-');
    ReplaceRunsRun("--", b, Hyphen, '-');
    ReplaceRunsCopiesPlain(b, [], Hyphen, '-');
    assert b + [] == b;
  }

  /** Two words of ASCII letters and digits around a space-separated symbol:
      the filter leaves "--" where the symbol stood, and the slug is the
      lowered words joined by a single '-'. */
  lemma {:induction false} SlugifyDropsSymbol(u: string, x: char, v: string)
    requires u != [] && v != [] && IsSymbol(x)
    requires AllAsciiAlnum(u) && AllAsciiAlnum(v)
    requires |u| + 1 + |v| <= MaxLength
    ensures KeepSlugChars(ReplaceRuns(Strip(Lower(u + [' ', x, ' '] + v), Whitespace), Whitespace, '-'))
      == Lower(u) + "--" + Lower(v)
    ensures Slugify(u + [' ', x, ' '] + v) == Lower(u) + "-" + Lower(v)
  {
    var a, b := Lower(u), Lower(v);
    LowerAroundSymbol(u, x, v);
    LowerWords(u, []);
    LowerWords(v, []);
    DashAroundSymbol(a, x, b);
    KeepAroundSymbol(a, x, b);
    CollapseDoubleHyphen(a, b);
    JoinedWordsAreSlug(a, b);
    StripShape(a + "-" + b, Hyphen);
  }

  /** The first step-order example: "Hello  World" becomes "hello-world". */
  lemma SlugifyHelloWorld(title: string)
    requires title == "Hello  World"
    ensures Slugify(title) == "hello-world"
  {
    var u, gap, v := title[..5], title[5..7], title[7..];
    assert title == u + gap + v;
    SlugifyTwoWords(u, gap, v);
    LowerShape(u);
    LowerShape(v);
    assert Lower(u) == "hello";
    assert Lower(v) == "world";
  }

  /** The second example: "a & b" is "a--b" once filtered, and the collapse
      makes it "a-b". */
  lemma SlugifyAmpersand(title: string)
    requires title == "a & b"
    ensures KeepSlugChars(ReplaceRuns(Strip(Lower(title), Whitespace), Whitespace, '-')) == "a--b"
    ensures Slugify(title) == "a-b"
  {
    var u, x, v := title[..1], title[2], title[4..];
    assert title == u + [' ', x, ' '] + v;
    SlugifyDropsSymbol(u, x, v);
    LowerShape(u);
    LowerShape(v);
    assert Lower(u) == "a" && Lower(v) == "b";
  }
}
