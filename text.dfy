/** String operations of Python's `str` and `re` that the engine relies on,
    restricted to exactly the behaviour the engine uses. */
module Text {

  /** Python's `str.isspace()`, which is also what the `\s` class of a `str`
      regular expression and the argument-less `str.strip()` use. */
  predicate IsSpace(c: char) {
    var n := c as int;
    (0x09 <= n <= 0x0D) || (0x1C <= n <= 0x20) || n == 0x85 || n == 0xA0 || n == 0x1680
    || (0x2000 <= n <= 0x200A) || n == 0x2028 || n == 0x2029 || n == 0x202F
    || n == 0x205F || n == 0x3000
  }

  /** The ASCII decimal digits, the digits that `\d` is taken to match. */
  predicate IsDigit(c: char) {
    '0' <= c <= '9'
  }

  predicate AllDigits(s: string) {
    forall i :: 0 <= i < |s| ==> IsDigit(s[i])
  }

  // ---------------------------------------------------------------------------
  // Substrings
  // ---------------------------------------------------------------------------

  predicate OccursAt(s: string, sub: string, i: nat) {
    i + |sub| <= |s| && s[i..i + |sub|] == sub
  }

  /** Dropping `i` and then `j` characters drops `i + j`. */
  lemma DropDrop(x: string, i: nat, j: nat)
    requires i + j <= |x|
    ensures x[i..][j..] == x[i + j..]
  {
  }

  /** An occurrence inside the left part of a concatenation. */
  lemma OccursInLeft(a: string, b: string, sub: string, i: nat)
    requires i + |sub| <= |a|
    ensures OccursAt(a + b, sub, i) <==> OccursAt(a, sub, i)
  {
    assert (a + b)[i..i + |sub|] == a[i..i + |sub|];
  }

  /** An occurrence inside the right part of a concatenation. */
  lemma OccursInRight(a: string, b: string, sub: string, i: nat)
    ensures OccursAt(a + b, sub, |a| + i) <==> OccursAt(b, sub, i)
  {
    if i + |sub| <= |b| {
      assert (a + b)[|a| + i..|a| + i + |sub|] == b[i..i + |sub|];
    }
  }

  /** Occurrences in a suffix are occurrences further along. */
  lemma OccursInSuffix(x: string, sub: string, j: nat, i: nat)
    requires j <= |x|
    ensures OccursAt(x[j..], sub, i) <==> OccursAt(x, sub, j + i)
  {
    if j + i + |sub| <= |x| {
      assert x[j..][i..i + |sub|] == x[j + i..j + i + |sub|];
    }
  }

  /** `a` followed by `b` at the start is an occurrence of `a + b`. */
  lemma OccursOfConcat(s: string, a: string, b: string)
    requires OccursAt(s, a, 0) && OccursAt(s, b, |a|)
    ensures OccursAt(s, a + b, 0)
  {
    assert s[..|a| + |b|] == s[..|a|] + s[|a|..|a| + |b|];
  }

  /** An occurrence of `a + b` is an occurrence of `a`. */
  lemma OccursOfPrefix(x: string, a: string, b: string, i: nat)
    ensures OccursAt(x, a + b, i) ==> OccursAt(x, a, i)
  {
    if OccursAt(x, a + b, i) {
      assert x[i..i + |a|] == x[i..i + |a + b|][..|a|];
    }
  }

  /** The specification of Python's `sub in s`. */
  ghost predicate Contains(s: string, sub: string) {
    exists i: nat :: OccursAt(s, sub, i)
  }

  /** Python's `sub in s`, computed by scanning from offset `from`. */
  function FindFrom(s: string, sub: string, from: nat): (found: bool)
    requires from <= |s|
    ensures found <==> exists i: nat :: from <= i && OccursAt(s, sub, i)
    decreases |s| - from
  {
    if OccursAt(s, sub, from) then true
    else if from == |s| then false
    else FindFrom(s, sub, from + 1)
  }

  function In(sub: string, s: string): (found: bool)
    ensures found <==> Contains(s, sub)
  {
    FindFrom(s, sub, 0)
  }

  // ---------------------------------------------------------------------------
  // Case mapping (ASCII letters only)
  // ---------------------------------------------------------------------------

  function LowerChar(c: char): char {
    if 'A' <= c <= 'Z' then (c as int + 32) as char else c
  }

  function UpperChar(c: char): char {
    if 'a' <= c <= 'z' then (c as int - 32) as char else c
  }

  /** `str.lower()` on the ASCII letters; every other character is kept. */
  function Lower(s: string): (r: string)
    ensures |r| == |s|
    ensures forall i :: 0 <= i < |s| ==> r[i] == LowerChar(s[i])
  {
    if s == [] then [] else [LowerChar(s[0])] + Lower(s[1..])
  }

  /** `str.upper()` on the ASCII letters; every other character is kept. */
  function Upper(s: string): (r: string)
    ensures |r| == |s|
    ensures forall i :: 0 <= i < |s| ==> r[i] == UpperChar(s[i])
  {
    if s == [] then [] else [UpperChar(s[0])] + Upper(s[1..])
  }

  // ---------------------------------------------------------------------------
  // Whitespace: `str.strip()` and `re.sub(r'\s+', ' ', s)`
  // ---------------------------------------------------------------------------

  predicate AllSpace(s: string) {
    forall i :: 0 <= i < |s| ==> IsSpace(s[i])
  }

  lemma AllSpaceAppend(a: string, b: string)
    ensures AllSpace(a + b) <==> AllSpace(a) && AllSpace(b)
  {
    if AllSpace(a) && AllSpace(b) {
      forall i | 0 <= i < |a + b|
        ensures IsSpace((a + b)[i])
      {
        if i < |a| {
          assert (a + b)[i] == a[i];
        } else {
          assert (a + b)[i] == b[i - |a|];
        }
      }
    }
    if AllSpace(a + b) {
      forall i | 0 <= i < |a|
        ensures IsSpace(a[i])
      {
        assert (a + b)[i] == a[i];
      }
      forall i | 0 <= i < |b|
        ensures IsSpace(b[i])
      {
        assert (a + b)[|a| + i] == b[i];
      }
    }
  }

  /** Length of the run of whitespace at the start of `s`. */
  function SpaceRun(s: string): (k: nat)
    ensures k <= |s|
    ensures AllSpace(s[..k])
    ensures k < |s| ==> !IsSpace(s[k])
  {
    if s == [] || !IsSpace(s[0]) then 0
    else
      var k0 := SpaceRun(s[1..]);
      var k := 1 + k0;
      assert s[..k] == [s[0]] + s[1..][..k0];
      AllSpaceAppend([s[0]], s[1..][..k0]);
      assert k < |s| ==> s[k] == s[1..][k0];
      k
  }

  /** Length of the run of whitespace at the end of `s`. */
  function TrailingSpaceRun(s: string): (k: nat)
    ensures k <= |s|
    ensures AllSpace(s[|s| - k..])
    ensures k < |s| ==> !IsSpace(s[|s| - k - 1])
  {
    if s == [] || !IsSpace(s[|s| - 1]) then 0
    else
      var t := s[..|s| - 1];
      var k0 := TrailingSpaceRun(t);
      var k := 1 + k0;
      assert s[|s| - k..] == t[|t| - k0..] + [s[|s| - 1]];
      AllSpaceAppend(t[|t| - k0..], [s[|s| - 1]]);
      assert k < |s| ==> s[|s| - k - 1] == t[|t| - k0 - 1];
      k
  }

  /** Python's argument-less `str.strip()`: the result starts right after
      the leading whitespace run of `s`, only whitespace follows it in `s`, and
      it neither starts nor ends with whitespace. */
  function Strip(s: string): (r: string)
    ensures SpaceRun(s) + |r| <= |s|
    ensures r == s[SpaceRun(s)..SpaceRun(s) + |r|]
    ensures AllSpace(s[SpaceRun(s) + |r|..])
    ensures r != [] ==> !IsSpace(r[0]) && !IsSpace(r[|r| - 1])
  {
    var a := SpaceRun(s);
    var t := s[a..];
    var b := TrailingSpaceRun(t);
    StripSlice(s, a, t, b);
    t[..|t| - b]
  }

  /** Cutting the `a` leading characters of `s`, giving `t`, and then the `b`
      trailing characters of `t`, where the cut ends are whitespace and the
      characters next to the cuts are not. */
  lemma StripSlice(s: string, a: nat, t: string, b: nat)
    requires a <= |s| && t == s[a..] && b <= |t|
    requires a < |s| ==> !IsSpace(s[a])
    requires AllSpace(t[|t| - b..])
    requires b < |t| ==> !IsSpace(t[|t| - b - 1])
    ensures var r := t[..|t| - b];
      a + |r| <= |s| && r == s[a..a + |r|] && AllSpace(s[a + |r|..])
      && (r != [] ==> !IsSpace(r[0]) && !IsSpace(r[|r| - 1]))
  {
    var r := t[..|t| - b];
    assert s[a + |r|..] == t[|t| - b..];
    if r != [] {
      assert r[0] == s[a];
      assert r[|r| - 1] == t[|t| - b - 1];
    }
  }

  /** `re.sub(r'\s+', ' ', s)`: every maximal run of whitespace becomes one space. */
  function CollapseSpaces(s: string): (r: string)
    decreases |s|
  {
    if s == [] then ""
    else if IsSpace(s[0]) then " " + CollapseSpaces(s[SpaceRun(s)..])
    else [s[0]] + CollapseSpaces(s[1..])
  }

  /** The text normalisation applied before chunking:
      `re.sub(r'\s+', ' ', text).strip()`. */
  function NormalizeWhitespace(s: string): string {
    Strip(CollapseSpaces(s))
  }

  /** Every whitespace character is a plain space and no two are adjacent. */
  ghost predicate Collapsed(s: string) {
    && (forall i :: 0 <= i < |s| && IsSpace(s[i]) ==> s[i] == ' ')
    && (forall i :: 0 <= i < |s| - 1 ==> !(IsSpace(s[i]) && IsSpace(s[i + 1])))
  }

  /** Collapsed, and neither starting nor ending with a space. */
  ghost predicate Normalized(s: string) {
    Collapsed(s) && (s != [] ==> !IsSpace(s[0]) && !IsSpace(s[|s| - 1]))
  }

  /** The non-whitespace characters of `s`, in order. */
  function NonSpace(s: string): string {
    if s == [] then "" else (if IsSpace(s[0]) then "" else [s[0]]) + NonSpace(s[1..])
  }

  lemma {:induction false} NonSpaceAppend(a: string, b: string)
    ensures NonSpace(a + b) == NonSpace(a) + NonSpace(b)
  {
    if a != [] {
      assert (a + b)[1..] == a[1..] + b;
      NonSpaceAppend(a[1..], b);
    } else {
      assert a + b == b;
    }
  }

  lemma {:induction false} NonSpaceOfSpaces(s: string)
    requires AllSpace(s)
    ensures NonSpace(s) == ""
  {
    if s != [] {
      NonSpaceOfSpaces(s[1..]);
    }
  }

  lemma {:induction false} CollapseStartsWith(s: string)
    requires s != [] && !IsSpace(s[0])
    ensures CollapseSpaces(s) != [] && CollapseSpaces(s)[0] == s[0]
  {
  }

  lemma {:induction false} CollapseIsCollapsed(s: string)
    ensures Collapsed(CollapseSpaces(s))
    decreases |s|
  {
    if s == [] {
    } else if IsSpace(s[0]) {
      var t := s[SpaceRun(s)..];
      CollapseIsCollapsed(t);
      if t != [] {
        CollapseStartsWith(t);
      }
    } else {
      var t := s[1..];
      CollapseIsCollapsed(t);
    }
  }

  lemma {:induction false} CollapseKeepsNonSpace(s: string)
    ensures NonSpace(CollapseSpaces(s)) == NonSpace(s)
    decreases |s|
  {
    if s == [] {
    } else if IsSpace(s[0]) {
      var k := SpaceRun(s);
      var t := s[k..];
      CollapseKeepsNonSpace(t);
      NonSpaceAppend(" ", CollapseSpaces(t));
      assert s == s[..k] + t;
      NonSpaceAppend(s[..k], t);
      NonSpaceOfSpaces(s[..k]);
    } else {
      CollapseKeepsNonSpace(s[1..]);
      NonSpaceAppend([s[0]], CollapseSpaces(s[1..]));
    }
  }

  lemma {:induction false} CollapseFixesCollapsed(s: string)
    requires Collapsed(s)
    ensures CollapseSpaces(s) == s
    decreases |s|
  {
    if s == [] {
    } else if IsSpace(s[0]) {
      assert s[0] == ' ';
      assert |s| > 1 ==> !IsSpace(s[1]);
      assert SpaceRun(s) == 1;
      assert Collapsed(s[1..]);
      CollapseFixesCollapsed(s[1..]);
    } else {
      assert Collapsed(s[1..]);
      CollapseFixesCollapsed(s[1..]);
    }
  }

  lemma StripKeepsCollapsed(s: string)
    requires Collapsed(s)
    ensures Normalized(Strip(s))
  {
    var a := SpaceRun(s);
    var r := Strip(s);
    CollapsedSlice(s, a, a + |r|);
  }

  /** A slice of a collapsed text is collapsed. */
  lemma CollapsedSlice(s: string, i: nat, j: nat)
    requires i <= j <= |s| && Collapsed(s)
    ensures Collapsed(s[i..j])
  {
    var r := s[i..j];
    assert forall k :: 0 <= k < |r| ==> r[k] == s[i + k];
  }

  lemma StripFixesNormalized(s: string)
    requires Normalized(s)
    ensures Strip(s) == s
  {
    assert SpaceRun(s) == 0;
    assert s[0..] == s;
    assert TrailingSpaceRun(s) == 0;
  }

  lemma StripKeepsNonSpace(s: string)
    ensures NonSpace(Strip(s)) == NonSpace(s)
  {
    var a := SpaceRun(s);
    var r := Strip(s);
    SplitThree(s, a, a + |r|);
    NonSpaceOfPadded(s[..a], r, s[a + |r|..]);
  }

  /** A text is its prefix, its middle and its suffix. */
  lemma SplitThree(s: string, i: nat, j: nat)
    requires i <= j <= |s|
    ensures s == s[..i] + s[i..j] + s[j..]
  {
  }

  /** Whitespace around a text adds no non-whitespace character. */
  lemma NonSpaceOfPadded(lead: string, r: string, trail: string)
    requires AllSpace(lead) && AllSpace(trail)
    ensures NonSpace(lead + r + trail) == NonSpace(r)
  {
    NonSpaceAppend(lead + r, trail);
    NonSpaceAppend(lead, r);
    NonSpaceOfSpaces(lead);
    NonSpaceOfSpaces(trail);
  }

  /** The stripped text has no whitespace at either end, keeps every
      non-whitespace character of `s` in order, and is empty when `s` is all
      whitespace. */
  lemma StripTrims(s: string)
    ensures var r := Strip(s);
      (r != [] ==> !IsSpace(r[0]) && !IsSpace(r[|r| - 1]))
      && NonSpace(r) == NonSpace(s)
      && (AllSpace(s) ==> r == "")
  {
    StripKeepsNonSpace(s);
    if AllSpace(s) {
      StripOfSpaces(s);
    }
  }

  /** The normalised text is in normal form: whitespace only as single inner
      spaces. */
  lemma NormalizeIsNormalized(s: string)
    ensures Normalized(NormalizeWhitespace(s))
  {
    CollapseIsCollapsed(s);
    StripKeepsCollapsed(CollapseSpaces(s));
  }

  /** Stripping a string of whitespace only leaves nothing. */
  lemma StripOfSpaces(s: string)
    requires AllSpace(s)
    ensures Strip(s) == ""
  {
    assert SpaceRun(s) == |s|;
  }

  /** Normalisation keeps every non-whitespace character, in order. */
  lemma NormalizeKeepsNonSpace(s: string)
    ensures NonSpace(NormalizeWhitespace(s)) == NonSpace(s)
  {
    CollapseKeepsNonSpace(s);
    StripKeepsNonSpace(CollapseSpaces(s));
  }

  /** Normalising twice is normalising once. */
  lemma NormalizeIdempotent(s: string)
    ensures NormalizeWhitespace(NormalizeWhitespace(s)) == NormalizeWhitespace(s)
  {
    var n := NormalizeWhitespace(s);
    NormalizeIsNormalized(s);
    CollapseFixesCollapsed(n);
    StripFixesNormalized(n);
  }

  /** The leading whitespace run is the only prefix of whitespace that
      stops at a non-whitespace character or at the end. */
  lemma {:induction false} SpaceRunIs(s: string, k: nat)
    requires k <= |s| && AllSpace(s[..k]) && (k < |s| ==> !IsSpace(s[k]))
    ensures SpaceRun(s) == k
  {
    if k > 0 {
      var t := s[1..];
      var pre, head := t[..k - 1], s[..k];
      assert head[0] == s[0];
      forall i | 0 <= i < |pre|
        ensures IsSpace(pre[i])
      {
        assert pre[i] == head[i + 1];
      }
      assert k - 1 < |t| ==> t[k - 1] == s[k];
      SpaceRunIs(t, k - 1);
    }
  }

  /** `strip()` keeps exactly the slice from the leading whitespace run to the
      last non-whitespace character. */
  lemma StripIs(s: string, a: nat, e: nat)
    requires SpaceRun(s) == a && a <= e <= |s|
    requires AllSpace(s[e..]) && (e > a ==> !IsSpace(s[e - 1]))
    ensures Strip(s) == s[a..e]
  {
    var r := Strip(s);
    var f := a + |r|;
    AllSpaceFrom(s, f);
    AllSpaceFrom(s, e);
    assert r != [] ==> r[|r| - 1] == s[f - 1];
  }

  /** Every character from `f` on is whitespace. */
  lemma AllSpaceFrom(s: string, f: nat)
    requires f <= |s| && AllSpace(s[f..])
    ensures forall j :: f <= j < |s| ==> IsSpace(s[j])
  {
    forall j | f <= j < |s|
      ensures IsSpace(s[j])
    {
      assert s[f..][j - f] == s[j];
    }
  }

  /** A whitespace run cannot reach across a non-whitespace character, so the
      runs of `u + v` are those of `u` and of `v` whenever the join sits next
      to a non-whitespace character. */
  lemma {:induction false} CollapseAppend(u: string, v: string)
    requires u == [] || v == [] || !IsSpace(u[|u| - 1]) || !IsSpace(v[0])
    ensures CollapseSpaces(u + v) == CollapseSpaces(u) + CollapseSpaces(v)
    decreases |u|
  {
    if u == [] {
      assert u + v == v;
    } else if IsSpace(u[0]) {
      CollapseAppend(u[SpaceRun(u)..], v);
      RunOfAppend(u, v);
      CollapseAppendRun(u, v);
    } else {
      CollapseAppend(u[1..], v);
      CollapseAppendChar(u, v);
    }
  }

  /** The step of `CollapseAppend` for a `u` that starts with whitespace,
      whose leading run is that of `u + v`. */
  lemma CollapseAppendRun(u: string, v: string)
    requires u != [] && IsSpace(u[0])
    requires SpaceRun(u + v) == SpaceRun(u) && (u + v)[SpaceRun(u)..] == u[SpaceRun(u)..] + v
    requires CollapseSpaces(u[SpaceRun(u)..] + v)
      == CollapseSpaces(u[SpaceRun(u)..]) + CollapseSpaces(v)
    ensures CollapseSpaces(u + v) == CollapseSpaces(u) + CollapseSpaces(v)
  {
    assert (u + v)[0] == u[0];
  }

  /** The step of `CollapseAppend` for a `u` that starts with another
      character. */
  lemma CollapseAppendChar(u: string, v: string)
    requires u != [] && !IsSpace(u[0])
    requires CollapseSpaces(u[1..] + v) == CollapseSpaces(u[1..]) + CollapseSpaces(v)
    ensures CollapseSpaces(u + v) == CollapseSpaces(u) + CollapseSpaces(v)
  {
    assert (u + v)[0] == u[0];
    SliceOfAppend(u, v, 1);
  }

  /** The leading whitespace run of `u` is that of `u + v` when it cannot
      continue into `v`. */
  lemma RunOfAppend(u: string, v: string)
    requires u != [] && (v == [] || !IsSpace(u[|u| - 1]) || !IsSpace(v[0]))
    ensures SpaceRun(u + v) == SpaceRun(u)
    ensures (u + v)[SpaceRun(u)..] == u[SpaceRun(u)..] + v
  {
    var k := SpaceRun(u);
    SliceOfAppend(u, v, k);
    assert k < |u + v| ==> (u + v)[k] == if k < |u| then u[k] else v[0];
    SpaceRunIs(u + v, k);
  }

  /** Cutting `u + v` inside `u`. */
  lemma SliceOfAppend<T>(u: seq<T>, v: seq<T>, k: nat)
    requires k <= |u|
    ensures (u + v)[..k] == u[..k] && (u + v)[k..] == u[k..] + v
  {
  }

  /** Collapsing a whitespace run that comes right before a non-whitespace
      character gives one space. */
  lemma CollapseSpacesBefore(w: string, b: char, y: string)
    requires w != [] && AllSpace(w) && !IsSpace(b)
    ensures CollapseSpaces(w + [b] + y) == " " + [b] + CollapseSpaces(y)
  {
    var s := w + [b] + y;
    assert s[..|w|] == w;
    assert s[|w|] == b;
    SpaceRunIs(s, |w|);
    assert s[|w|..] == [b] + y;
    assert ([b] + y)[1..] == y;
  }

  /** Two texts, the first ending and the second starting with a
      non-whitespace character, joined by one space: stripping the whole
      strips each part. */
  lemma StripJoin(p: string, q: string)
    requires p != [] && !IsSpace(p[|p| - 1]) && q != [] && !IsSpace(q[0])
    ensures Strip(p + " " + q) == Strip(p) + " " + Strip(q)
  {
    var s := p + " " + q;
    var a, e := SpaceRun(p), |Strip(q)|;
    assert s == p + (" " + q);
    RunOfAppend(p, " " + q);
    StripIs(p, a, |p|);
    assert p[a..|p|] == p[a..];
    AllSpaceFrom(q, e);
    assert Strip(q) == q[..e];
    var end := |p| + 1 + e;
    MiddleSlice(p, " ", q, a, e, end);
    StripIs(s, a, end);
  }

  /** Cutting `p + m + q` from inside `p` to inside `q`. */
  lemma MiddleSlice<T>(p: seq<T>, m: seq<T>, q: seq<T>, a: nat, e: nat, end: nat)
    requires a <= |p| && 0 < e <= |q| && end == |p| + |m| + e
    ensures var s := p + m + q;
      s[a..end] == p[a..] + m + q[..e] && s[end..] == q[e..] && s[end - 1] == q[e - 1]
  {
  }

  /** Whitespace between two words becomes exactly one space, whatever the
      run was: the normalised text is the normalised text up to the first
      word, a single space, then the normalised text from the second word. */
  lemma NormalizeSeparates(x: string, a: char, w: string, b: char, y: string)
    requires !IsSpace(a) && !IsSpace(b) && w != [] && AllSpace(w)
    ensures NormalizeWhitespace(x + [a] + w + [b] + y)
      == NormalizeWhitespace(x + [a]) + " " + NormalizeWhitespace([b] + y)
  {
    var s := x + [a] + w + [b] + y;
    var cx, cy := CollapseSpaces(x), CollapseSpaces(y);
    CollapseAppend(x, [a]);
    assert CollapseSpaces([a]) == [a];
    assert s == (x + [a]) + (w + [b] + y);
    CollapseAppend(x + [a], w + [b] + y);
    CollapseSpacesBefore(w, b, y);
    assert CollapseSpaces([b] + y) == [b] + cy by {
      assert ([b] + y)[1..] == y;
    }
    var p, q := cx + [a], [b] + cy;
    assert CollapseSpaces(s) == p + " " + q;
    StripJoin(p, q);
  }

  // ---------------------------------------------------------------------------
  // `sep.join(parts)`
  // ---------------------------------------------------------------------------

  function Join(parts: seq<string>, sep: string): string {
    if |parts| == 0 then ""
    else if |parts| == 1 then parts[0]
    else parts[0] + sep + Join(parts[1..], sep)
  }

  lemma {:induction false} JoinAppend(parts: seq<string>, p: string, sep: string)
    requires parts != []
    ensures Join(parts + [p], sep) == Join(parts, sep) + sep + p
  {
    if |parts| == 1 {
      assert (parts + [p])[1..] == [p];
    } else {
      assert (parts + [p])[1..] == parts[1..] + [p];
      JoinAppend(parts[1..], p, sep);
    }
  }

  // ---------------------------------------------------------------------------
  // `str(n)` for a natural number
  // ---------------------------------------------------------------------------

  function DigitChar(d: nat): char
    requires d < 10
  {
    ('0' as int + d) as char
  }

  /** Python's `str(n)` for `n >= 0`: decimal digits without leading zeros. */
  function NatToString(n: nat): (r: string)
    ensures |r| > 0 && AllDigits(r)
    ensures r[0] == '0' ==> n == 0
  {
    if n < 10 then [DigitChar(n)] else NatToString(n / 10) + [DigitChar(n % 10)]
  }
}
