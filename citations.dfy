/** The citation-tag extractor of the source panel: `re.findall` of the
    pattern `\[Source: '(.*?)', Page: (\d+)\]` (`app.py`), and its round trip
    with the tags that `search` writes in front of every retrieved chunk. */
module Citations {
  import opened Wrappers
  import opened Text
  import opened RagEngine

  /** One `(filename, page_num)` pair that `re.findall` returns. */
  datatype Tag = Tag(name: string, digits: string)

  /** A match at the start of a string: the captured pair and the number of
      characters matched. */
  datatype Match = Match(tag: Tag, len: nat)

  /** The tail `', Page: (\d+)\]` matched at the start of a string: its
      digits and the number of characters matched. */
  datatype Tail = Tail(digits: string, len: nat)

  /** Where the lazy `(.*?)` stops: the length of the name and the tail that
      follows it. */
  datatype NameEnd = NameEnd(len: nat, tail: Tail)

  // ---------------------------------------------------------------------------
  // The pattern, matched at one offset
  // ---------------------------------------------------------------------------

  /** The longest run of digits at the start of `s`, which is where the greedy
      `\d+` ends (it need not give back a digit, since `]` is no digit). */
  function DigitRun(s: string): (k: nat)
    ensures k <= |s| && AllDigits(s[..k]) && (k < |s| ==> !IsDigit(s[k]))
  {
    if s != [] && IsDigit(s[0]) then
      var k := DigitRun(s[1..]);
      assert s[..k + 1] == [s[0]] + s[1..][..k];
      k + 1
    else 0
  }

  /** `', Page: (\d+)\]` at the start of `t`. */
  function TailAt(t: string): (r: Option<Tail>)
    ensures r.Some? ==> r.value.len <= |t|
  {
    if !OccursAt(t, TAG_MID, 0) then None
    else
      var k := DigitRun(t[|TAG_MID|..]);
      var e := |TAG_MID| + k;
      if k > 0 && e < |t| && t[e] == ']' then Some(Tail(t[|TAG_MID|..e], e + 1)) else None
  }

  /** The lazy `(.*?)` over `t` from offset `m` on: the first end offset at which
      the tail matches, provided no newline was crossed to reach it. */
  function NameFrom(t: string, m: nat): (r: Option<NameEnd>)
    requires m <= |t|
    ensures r.Some? ==> m <= r.value.len && r.value.len + r.value.tail.len <= |t|
    decreases |t| - m
  {
    match TailAt(t[m..])
    case Some(tail) => Some(NameEnd(m, tail))
    case None => if m < |t| && t[m] != '\n' then NameFrom(t, m + 1) else None
  }

  /** The whole pattern at the start of `s`. */
  function TagAt(s: string): (r: Option<Match>)
    ensures r.Some? ==> 0 < r.value.len <= |s|
  {
    if !OccursAt(s, TAG_OPEN, 0) then None
    else
      var t := s[|TAG_OPEN|..];
      match NameFrom(t, 0)
      case None => None
      case Some(ne) => Some(Match(Tag(t[..ne.len], ne.tail.digits), |TAG_OPEN| + ne.len + ne.tail.len))
  }

  /** `re.findall(pattern, s)`: scan left to right, take a match where one
      starts and continue after it, otherwise move on by one character. */
  function FindAll(s: string): seq<Tag>
    decreases |s|
  {
    if s == [] then []
    else
      match TagAt(s)
      case Some(m) => [m.tag] + FindAll(s[m.len..])
      case None => FindAll(s[1..])
  }

  // ---------------------------------------------------------------------------
  // What a match is
  // ---------------------------------------------------------------------------

  /** `t` starts with `', Page: <digits>]` for a non-empty run of digits. */
  ghost predicate TailShape(t: string, digits: string) {
    digits != [] && AllDigits(digits) && OccursAt(t, TAG_MID + digits + "]", 0)
  }

  /** `s` starts with a complete tag `[Source: '<name>', Page: <digits>]` of
      length `len` whose name holds no newline. */
  ghost predicate TagShape(s: string, tag: Tag, len: nat) {
    OccursAt(s, TAG_OPEN + tag.name, 0) && '\n' !in tag.name
    && TailShape(s[|TAG_OPEN| + |tag.name|..], tag.digits)
    && len == |TAG_OPEN| + |tag.name| + |TAG_MID| + |tag.digits| + 1
  }

  /** A tail match right after the opening and `n` name characters. */
  ghost predicate TailAfter(s: string, n: nat, digits: string) {
    |TAG_OPEN| + n <= |s| && TailShape(s[|TAG_OPEN| + n..], digits)
  }

  lemma {:induction false} DigitRunOfDigits(d: string, r: string)
    requires AllDigits(d) && (r == [] || !IsDigit(r[0]))
    ensures DigitRun(d + r) == |d|
  {
    if d == [] {
      assert d + r == r;
    } else {
      assert (d + r)[1..] == d[1..] + r;
      DigitRunOfDigits(d[1..], r);
    }
  }

  /** `t` starts with `mid + digits + "]"` exactly when it starts with `mid`,
      then `digits`, then `]`. */
  lemma SplitTail(t: string, mid: string, digits: string)
    ensures OccursAt(t, mid + digits + "]", 0) <==>
      OccursAt(t, mid, 0) && |mid| + |digits| < |t|
      && t[|mid|..|mid| + |digits|] == digits && t[|mid| + |digits|] == ']'
  {
    var m, n := |mid|, |mid| + |digits| + 1;
    if OccursAt(t, mid + digits + "]", 0) {
      var p := mid + digits + "]";
      assert t[..n] == p;
      assert t[..m] == mid by {
        assert t[..m] == t[..n][..m];
      }
      assert t[m..m + |digits|] == digits by {
        forall i | 0 <= i < |digits|
          ensures t[m..m + |digits|][i] == digits[i]
        {
          assert t[m + i] == t[..n][m + i] == p[m + i];
        }
      }
      assert t[m + |digits|] == p[m + |digits|];
    }
    if OccursAt(t, mid, 0) && m + |digits| < |t|
      && t[m..m + |digits|] == digits && t[m + |digits|] == ']'
    {
      assert t[..n] == t[..m] + t[m..m + |digits|] + [t[m + |digits|]];
    }
  }

  /** Digits followed by `]` form a digit run of exactly that length. */
  lemma DigitRunBeforeBracket(u: string, digits: string)
    requires AllDigits(digits) && |digits| < |u|
    requires u[..|digits|] == digits && u[|digits|] == ']'
    ensures DigitRun(u) == |digits|
  {
    assert u == digits + u[|digits|..];
    DigitRunOfDigits(digits, u[|digits|..]);
  }

  /** A `', Page: <digits>]` at the start of `t` is the tail match. */
  lemma TailShapeMatches(t: string, digits: string)
    requires TailShape(t, digits)
    ensures TailAt(t) == Some(Tail(digits, |TAG_MID| + |digits| + 1))
  {
    var m := |TAG_MID|;
    SplitTail(t, TAG_MID, digits);
    assert DigitRun(t[m..]) == |digits| by {
      assert t[m..][..|digits|] == t[m..m + |digits|];
      DigitRunBeforeBracket(t[m..], digits);
    }
  }

  /** A tail match spans the separator, its digits and the bracket. */
  lemma TailAtLength(t: string)
    requires TailAt(t).Some?
    ensures TailAt(t).value.len == |TAG_MID| + |TailAt(t).value.digits| + 1
  {
  }

  /** The tail match is a `', Page: <digits>]` at the start of `t`. */
  lemma TailMatchShape(t: string, digits: string)
    requires TailAt(t) == Some(Tail(digits, |TAG_MID| + |digits| + 1))
    ensures TailShape(t, digits)
  {
    var m := |TAG_MID|;
    var k := DigitRun(t[m..]);
    assert t[m..][..k] == t[m..m + k];
    SplitTail(t, TAG_MID, digits);
  }

  /** The tail matches exactly when `t` starts with `', Page: <digits>]`, and
      then it captures those digits. */
  lemma TailAtIff(t: string, digits: string)
    ensures TailShape(t, digits) <==> TailAt(t) == Some(Tail(digits, |TAG_MID| + |digits| + 1))
  {
    if TailShape(t, digits) {
      TailShapeMatches(t, digits);
    }
    if TailAt(t) == Some(Tail(digits, |TAG_MID| + |digits| + 1)) {
      TailMatchShape(t, digits);
    }
  }

  /** Without a `', Page: <digits>]` at its start, `t` has no tail match. */
  lemma TailAtNone(t: string)
    requires forall d :: !TailShape(t, d)
    ensures TailAt(t).None?
  {
    if TailAt(t).Some? {
      var tail := TailAt(t).value;
      var k := DigitRun(t[|TAG_MID|..]);
      assert tail.len == |TAG_MID| + |tail.digits| + 1;
      TailAtIff(t, tail.digits);
    }
  }

  /** The lazy name skips every offset in `[m, target)` at which the tail
      does not match and no newline stands. */
  lemma {:induction false} NameFromSkips(t: string, m: nat, target: nat)
    requires m <= target <= |t|
    requires forall i :: m <= i < target ==> TailAt(t[i..]).None? && t[i] != '\n'
    ensures NameFrom(t, m) == NameFrom(t, target)
    decreases target - m
  {
    if m < target {
      NameFromSkips(t, m + 1, target);
    }
  }

  /** A match at the start of `s` is a complete tag. */
  lemma TagAtShape(s: string)
    requires TagAt(s).Some?
    ensures TagShape(s, TagAt(s).value.tag, TagAt(s).value.len)
  {
    var t := s[|TAG_OPEN|..];
    var ne := NameFrom(t, 0).value;
    var name := t[..ne.len];
    assert TagAt(s).value == Match(Tag(name, ne.tail.digits), |TAG_OPEN| + ne.len + ne.tail.len) by {
      TagAtOf(s, ne.len, ne.tail);
    }
    assert TailAt(t[ne.len..]) == Some(ne.tail) && '\n' !in name by {
      NameFromSound(t, 0);
    }
    assert ne.tail.len == |TAG_MID| + |ne.tail.digits| + 1 by {
      TailAtLength(t[ne.len..]);
    }
    assert TailShape(t[ne.len..], ne.tail.digits) by {
      TailMatchShape(t[ne.len..], ne.tail.digits);
    }
    assert t[ne.len..] == s[|TAG_OPEN| + |name|..] by {
      DropDrop(s, |TAG_OPEN|, ne.len);
    }
    assert OccursAt(s, TAG_OPEN + name, 0) by {
      assert OccursAt(t, name, 0);
      OccursInSuffix(s, name, |TAG_OPEN|, 0);
      OccursOfConcat(s, TAG_OPEN, name);
    }
  }

  /** The name of a match at the start of `s` is the shortest one followed
      by a tail. */
  lemma TagAtShortest(s: string)
    requires TagAt(s).Some?
    ensures forall n, d :: 0 <= n < |TagAt(s).value.tag.name| ==> !TailAfter(s, n, d)
  {
    var t := s[|TAG_OPEN|..];
    var ne := NameFrom(t, 0).value;
    assert |TagAt(s).value.tag.name| == ne.len;
    assert forall i :: 0 <= i < ne.len ==> TailAt(t[i..]).None? by {
      NameFromSound(t, 0);
    }
    forall n, d | 0 <= n < ne.len
      ensures !TailAfter(s, n, d)
    {
      assert t[n..] == s[|TAG_OPEN| + n..];
      TailAtIff(t[n..], d);
    }
  }

  /** A match at the start of `s` is a complete tag whose name is the
      shortest one followed by a tail. */
  lemma TagAtSound(s: string)
    requires TagAt(s).Some?
    ensures TagShape(s, TagAt(s).value.tag, TagAt(s).value.len)
    ensures forall n, d :: 0 <= n < |TagAt(s).value.tag.name| ==> !TailAfter(s, n, d)
  {
    TagAtShape(s);
    TagAtShortest(s);
  }

  /** What the lazy name stops at: a tail match, with no newline and no
      earlier tail match in between. */
  lemma {:induction false} NameFromSound(t: string, m: nat)
    requires m <= |t| && NameFrom(t, m).Some?
    ensures var ne := NameFrom(t, m).value;
      TailAt(t[ne.len..]) == Some(ne.tail)
      && (forall i :: m <= i < ne.len ==> TailAt(t[i..]).None? && t[i] != '\n')
    decreases |t| - m
  {
    if TailAt(t[m..]).None? {
      NameFromSound(t, m + 1);
    }
  }

  /** A complete tag with the shortest possible name is matched, with its
      name and digits captured. */
  lemma NameStepOfShape(s: string, tag: Tag, len: nat, i: nat)
    requires TagShape(s, tag, len) && i < |tag.name|
    requires forall d :: !TailAfter(s, i, d)
    ensures TailAt(s[|TAG_OPEN|..][i..]).None? && s[|TAG_OPEN|..][i] != '\n'
  {
    var t := s[|TAG_OPEN|..];
    assert t[i..] == s[|TAG_OPEN| + i..];
    forall d
      ensures !TailShape(t[i..], d)
    {
      assert !TailAfter(s, i, d);
    }
    TailAtNone(t[i..]);
    assert s[..|TAG_OPEN| + |tag.name|] == TAG_OPEN + tag.name;
    assert t[i] == s[..|TAG_OPEN| + |tag.name|][|TAG_OPEN| + i];
  }

  lemma TagAtComplete(s: string, tag: Tag, len: nat)
    requires TagShape(s, tag, len)
    requires forall n, d :: 0 <= n < |tag.name| ==> !TailAfter(s, n, d)
    ensures TagAt(s) == Some(Match(tag, len))
  {
    var o := |TAG_OPEN|;
    var p := |tag.name|;
    var t := s[o..];
    assert OccursAt(s, TAG_OPEN, 0) by {
      OccursOfPrefix(s, TAG_OPEN, tag.name, 0);
    }
    assert t[..p] == tag.name by {
      assert s[..o + p] == TAG_OPEN + tag.name;
      assert t[..p] == s[..o + p][o..];
    }
    var tail := Tail(tag.digits, |TAG_MID| + |tag.digits| + 1);
    assert NameFrom(t, 0) == Some(NameEnd(p, tail)) by {
      NameSkipsShape(s, tag, len);
      TailOfShape(s, tag, len);
      NameFromAtTail(t, p, tail);
    }
    TagAtOf(s, p, tail);
  }

  /** The lazy name stops at `m` when the tail matches there. */
  lemma NameFromAtTail(t: string, m: nat, tail: Tail)
    requires m <= |t| && TailAt(t[m..]) == Some(tail)
    ensures NameFrom(t, m) == Some(NameEnd(m, tail))
  {
  }

  /** The lazy name runs over the whole name of a complete tag. */
  lemma NameSkipsShape(s: string, tag: Tag, len: nat)
    requires TagShape(s, tag, len)
    requires forall n, d :: 0 <= n < |tag.name| ==> !TailAfter(s, n, d)
    ensures NameFrom(s[|TAG_OPEN|..], 0) == NameFrom(s[|TAG_OPEN|..], |tag.name|)
  {
    var t := s[|TAG_OPEN|..];
    forall i | 0 <= i < |tag.name|
      ensures TailAt(t[i..]).None? && t[i] != '\n'
    {
      NameStepOfShape(s, tag, len, i);
    }
    NameFromSkips(t, 0, |tag.name|);
  }

  /** Right after the name of a complete tag, the tail matches. */
  lemma TailOfShape(s: string, tag: Tag, len: nat)
    requires TagShape(s, tag, len)
    ensures TailAt(s[|TAG_OPEN|..][|tag.name|..]) == Some(Tail(tag.digits, |TAG_MID| + |tag.digits| + 1))
  {
    var o := |TAG_OPEN|;
    var t := s[o..];
    assert t[|tag.name|..] == s[o + |tag.name|..] by {
      DropDrop(s, o, |tag.name|);
    }
    TailShapeMatches(t[|tag.name|..], tag.digits);
  }

  /** `TagAt` once the lazy name is known to end at `p` with `tail`. */
  lemma TagAtOf(s: string, p: nat, tail: Tail)
    requires OccursAt(s, TAG_OPEN, 0) && NameFrom(s[|TAG_OPEN|..], 0) == Some(NameEnd(p, tail))
    ensures TagAt(s) == Some(Match(Tag(s[|TAG_OPEN|..][..p], tail.digits), |TAG_OPEN| + p + tail.len))
  {
  }

  // ---------------------------------------------------------------------------
  // Round trip with the tags written by `search`
  // ---------------------------------------------------------------------------

  /** What the round trip needs of a chunk: a source without newlines and
      without `', Page: `, and a text without `[Source: '`. */
  ghost predicate Citable(c: Chunk) {
    '\n' !in c.source && !Contains(c.source, TAG_MID) && !Contains(c.text, TAG_OPEN)
  }

  /** The pair a chunk's tag should yield: its source and `str(page)`. */
  function CitationOf(c: Chunk): Tag {
    Tag(c.source, NatToString(c.page))
  }

  /** The pairs the tags of some chunks should yield, in order. */
  function CitationsOf(cs: seq<Chunk>): seq<Tag>
  {
    seq(|cs|, k requires 0 <= k < |cs| => CitationOf(cs[k]))
  }

  /** `', Page: ` cannot overlap itself: its quote occurs only at its start. */
  lemma MidNotInside(source: string, u: string, i: nat)
    requires !Contains(source, TAG_MID) && i < |source|
    ensures !OccursAt(source + TAG_MID + u, TAG_MID, i)
  {
    var w := source + TAG_MID + u;
    if i + |TAG_MID| <= |w| {
      if i + |TAG_MID| <= |source| {
        assert w[i..i + |TAG_MID|] == source[i..i + |TAG_MID|];
        assert !OccursAt(source, TAG_MID, i);
      } else {
        var d := |source| - i;
        assert w[i..i + |TAG_MID|][d] == '\'';
        assert TAG_MID[d] != '\'';
      }
    }
  }

  /** After the opening and a source without `', Page: `, no tail starts
      inside that source. */
  lemma NoTailAfterSource(source: string, u: string, n: nat, d: string)
    requires !Contains(source, TAG_MID) && n < |source|
    ensures !TailAfter(TAG_OPEN + (source + TAG_MID + u), n, d)
  {
    var w := source + TAG_MID + u;
    var s := TAG_OPEN + w;
    var o := |TAG_OPEN|;
    assert s[o + n..] == w[n..];
    assert !OccursAt(w[n..], TAG_MID, 0) by {
      MidNotInside(source, u, n);
      OccursInSuffix(w, TAG_MID, n, 0);
    }
    assert TAG_MID + d + "]" == TAG_MID + (d + "]");
    OccursOfPrefix(w[n..], TAG_MID, d + "]", 0);
  }

  /** The tag built from a name without newline and a run of digits has the
      shape of a complete tag, and what follows it is `after`. */
  lemma PartsShape(name: string, digits: string, after: string)
    requires '\n' !in name && digits != [] && AllDigits(digits)
    ensures var s := TAG_OPEN + name + (TAG_MID + digits + "]") + after;
      var len := |TAG_OPEN| + |name| + |TAG_MID| + |digits| + 1;
      TagShape(s, Tag(name, digits), len) && s[len..] == after
  {
    var s := TAG_OPEN + name + (TAG_MID + digits + "]") + after;
    var o, p := |TAG_OPEN|, |name|;
    assert s[..o + p] == TAG_OPEN + name;
    assert s[o + p..][..|TAG_MID| + |digits| + 1] == TAG_MID + digits + "]";
  }

  /** No tail starts inside a name without `', Page: `. */
  lemma PartsShortest(name: string, digits: string, after: string)
    requires !Contains(name, TAG_MID)
    ensures var s := TAG_OPEN + name + (TAG_MID + digits + "]") + after;
      forall n, d :: 0 <= n < |name| ==> !TailAfter(s, n, d)
  {
    var s := TAG_OPEN + name + (TAG_MID + digits + "]") + after;
    var u := digits + "]" + after;
    assert s == TAG_OPEN + (name + TAG_MID + u);
    forall n, d | 0 <= n < |name|
      ensures !TailAfter(s, n, d)
    {
      NoTailAfterSource(name, u, n, d);
    }
  }

  /** A tag built from a name without newline and without `', Page: ` and
      from a run of digits is matched whole; the scan resumes right after it. */
  lemma TagOfParts(name: string, digits: string, after: string)
    requires '\n' !in name && !Contains(name, TAG_MID) && digits != [] && AllDigits(digits)
    ensures var s := TAG_OPEN + name + (TAG_MID + digits + "]") + after;
      var len := |TAG_OPEN| + |name| + |TAG_MID| + |digits| + 1;
      TagAt(s) == Some(Match(Tag(name, digits), len)) && s[len..] == after
  {
    var s := TAG_OPEN + name + (TAG_MID + digits + "]") + after;
    var len := |TAG_OPEN| + |name| + |TAG_MID| + |digits| + 1;
    PartsShape(name, digits, after);
    PartsShortest(name, digits, after);
    TagAtComplete(s, Tag(name, digits), len);
  }

  lemma OpenHasNoNewline()
    ensures forall k :: 0 <= k < |TAG_OPEN| ==> TAG_OPEN[k] != '\n'
    ensures TAG_OPEN[0] != '\n'
  {
  }

  /** Newlines around a text that holds no `[Source: '` do not make one. */
  lemma PaddedHasNoOpen(p: string, text: string, q: string)
    requires forall k :: 0 <= k < |p| ==> p[k] == '\n'
    requires forall k :: 0 <= k < |q| ==> q[k] == '\n'
    requires !Contains(text, TAG_OPEN)
    ensures !Contains(p + text + q, TAG_OPEN)
  {
    var x := p + text + q;
    OpenHasNoNewline();
    forall i: nat
      ensures !OccursAt(x, TAG_OPEN, i)
    {
      if i + |TAG_OPEN| <= |x| {
        var w := x[i..i + |TAG_OPEN|];
        if i < |p| {
          assert w[0] == x[i] == p[i];
        } else if i >= |p| + |text| {
          assert w[0] == x[i] == q[i - |p| - |text|];
        } else if i + |TAG_OPEN| <= |p| + |text| {
          OccursInLeft(p + text, q, TAG_OPEN, i);
          OccursInRight(p, text, TAG_OPEN, i - |p|);
          assert !OccursAt(text, TAG_OPEN, i - |p|);
        } else {
          assert w[|p| + |text| - i] == x[|p| + |text|] == q[0];
        }
      }
    }
  }

  /** A stretch without `[Source: '` yields no tag and does not disturb the
      scan of what follows, as long as it ends in a newline (which no tag
      can straddle). */
  lemma {:induction false} SkipUntagged(x: string, y: string)
    requires !Contains(x, TAG_OPEN)
    requires y == [] || x == [] || x[|x| - 1] == '\n'
    ensures FindAll(x + y) == FindAll(y)
    decreases |x|
  {
    if x == [] {
      assert x + y == y;
    } else {
      var s := x + y;
      assert !OccursAt(s, TAG_OPEN, 0) by {
        if |s| >= |TAG_OPEN| {
          if |x| >= |TAG_OPEN| {
            OccursInLeft(x, y, TAG_OPEN, 0);
            assert !OccursAt(x, TAG_OPEN, 0);
          } else {
            OpenHasNoNewline();
            assert s[|x| - 1] == x[|x| - 1];
            assert s[..|TAG_OPEN|][|x| - 1] == s[|x| - 1];
          }
        }
      }
      assert s[1..] == x[1..] + y;
      forall i: nat
        ensures !OccursAt(x[1..], TAG_OPEN, i)
      {
        OccursInSuffix(x, TAG_OPEN, 1, i);
        assert !OccursAt(x, TAG_OPEN, 1 + i);
      }
      SkipUntagged(x[1..], y);
    }
  }

  /** A text without `[` holds no tag. */
  lemma NoTagWithoutBracket(g: string)
    requires '[' !in g
    ensures FindAll(g) == []
  {
    forall i: nat
      ensures !OccursAt(g, TAG_OPEN, i)
    {
      if i + |TAG_OPEN| <= |g| {
        assert g[i..i + |TAG_OPEN|][0] == g[i];
        assert g[i] in g;
      }
    }
    SkipUntagged(g, "");
    assert g + "" == g;
  }

  /** The last block of a context yields its own tag and nothing more. */
  lemma RoundTripLast(c: Chunk)
    requires Citable(c)
    ensures FindAll(FormatChunk(c)) == [CitationOf(c)]
  {
    var digits := NatToString(c.page);
    assert FormatChunk(c) == TAG_OPEN + c.source + (TAG_MID + digits + "]") + "\n" + c.text;
    LastBlockOfParts(c.source, digits, c.text);
  }

  /** The block built from a name, digits and a text without tags, at the end
      of a context: the scan yields that pair and nothing more. */
  lemma LastBlockOfParts(name: string, digits: string, text: string)
    requires '\n' !in name && !Contains(name, TAG_MID) && digits != [] && AllDigits(digits)
    requires !Contains(text, TAG_OPEN)
    ensures FindAll(TAG_OPEN + name + (TAG_MID + digits + "]") + "\n" + text) == [Tag(name, digits)]
  {
    var after := "\n" + text;
    var s := TAG_OPEN + name + (TAG_MID + digits + "]") + after;
    assert TAG_OPEN + name + (TAG_MID + digits + "]") + "\n" + text == s;
    var m := Match(Tag(name, digits), |TAG_OPEN| + |name| + |TAG_MID| + |digits| + 1);
    assert FindAll(s) == [m.tag] + FindAll(after) by {
      TagOfParts(name, digits, after);
      FindAllAtTag(s, m);
    }
    assert FindAll(after) == [] by {
      PaddedHasNoOpen("\n", text, "");
      assert "\n" + text + "" == after;
      SkipUntagged(after, "");
      assert after + "" == after;
    }
  }

  /** A block followed by the separator yields its own tag, then whatever the
      rest of the context yields. */
  lemma RoundTripCons(c: Chunk, rest: string)
    requires Citable(c)
    ensures FindAll(FormatChunk(c) + PART_SEPARATOR + rest) == [CitationOf(c)] + FindAll(rest)
  {
    var digits := NatToString(c.page);
    var after := "\n" + c.text + PART_SEPARATOR;
    assert FormatChunk(c) + PART_SEPARATOR + rest
      == TAG_OPEN + c.source + (TAG_MID + digits + "]") + (after + rest);
    BlockOfParts(c.source, digits, c.text, rest);
  }

  /** The block built from a name, digits and a text without tags, followed
      by the separator: the scan yields that pair, then what the rest yields. */
  lemma BlockOfParts(name: string, digits: string, text: string, rest: string)
    requires '\n' !in name && !Contains(name, TAG_MID) && digits != [] && AllDigits(digits)
    requires !Contains(text, TAG_OPEN)
    ensures var after := "\n" + text + PART_SEPARATOR;
      FindAll(TAG_OPEN + name + (TAG_MID + digits + "]") + (after + rest)) == [Tag(name, digits)] + FindAll(rest)
  {
    var after := "\n" + text + PART_SEPARATOR;
    var s := TAG_OPEN + name + (TAG_MID + digits + "]") + (after + rest);
    var len := |TAG_OPEN| + |name| + |TAG_MID| + |digits| + 1;
    TagOfParts(name, digits, after + rest);
    assert !Contains(after, TAG_OPEN) && after[|after| - 1] == '\n' by {
      PaddedHasNoOpen("\n", text, PART_SEPARATOR);
    }
    TagThenUntagged(s, Match(Tag(name, digits), len), after, rest);
  }

  /** A match followed by a stretch without tags that ends in a newline: the
      scan yields the match's pair and then what the rest yields. */
  lemma TagThenUntagged(s: string, m: Match, after: string, rest: string)
    requires TagAt(s) == Some(m) && s[m.len..] == after + rest
    requires !Contains(after, TAG_OPEN) && after != [] && after[|after| - 1] == '\n'
    ensures FindAll(s) == [m.tag] + FindAll(rest)
  {
    FindAllAtTag(s, m);
    SkipUntagged(after, rest);
  }

  /** Where a match starts, the scan takes it and resumes after it. */
  lemma FindAllAtTag(s: string, m: Match)
    requires TagAt(s) == Some(m)
    ensures FindAll(s) == [m.tag] + FindAll(s[m.len..])
  {
  }

  lemma JoinFormatCons(cs: seq<Chunk>)
    requires |cs| > 1
    ensures Join(FormatAll(cs), PART_SEPARATOR)
      == FormatChunk(cs[0]) + PART_SEPARATOR + Join(FormatAll(cs[1..]), PART_SEPARATOR)
  {
    assert FormatAll(cs)[1..] == FormatAll(cs[1..]);
  }

  /** Round trip: extracting the tags of a context that `search` assembled
      from citable chunks yields exactly each chunk's `(source, str(page))`,
      in order. */
  lemma {:induction false} ContextRoundTrip(cs: seq<Chunk>)
    requires forall k :: 0 <= k < |cs| ==> Citable(cs[k])
    ensures FindAll(Join(FormatAll(cs), PART_SEPARATOR)) == CitationsOf(cs)
  {
    if |cs| == 1 {
      RoundTripLast(cs[0]);
      assert CitationsOf(cs) == [CitationOf(cs[0])];
    } else if |cs| > 1 {
      var rest := Join(FormatAll(cs[1..]), PART_SEPARATOR);
      assert Join(FormatAll(cs), PART_SEPARATOR) == FormatChunk(cs[0]) + PART_SEPARATOR + rest by {
        JoinFormatCons(cs);
      }
      assert FindAll(FormatChunk(cs[0]) + PART_SEPARATOR + rest) == [CitationOf(cs[0])] + FindAll(rest) by {
        RoundTripCons(cs[0], rest);
      }
      assert FindAll(rest) == CitationsOf(cs[1..]) by {
        ContextRoundTrip(cs[1..]);
      }
      CitationsOfCons(cs);
    }
  }

  lemma CitationsOfCons(cs: seq<Chunk>)
    requires |cs| > 0
    ensures CitationsOf(cs) == [CitationOf(cs[0])] + CitationsOf(cs[1..])
  {
    var tags := [CitationOf(cs[0])] + CitationsOf(cs[1..]);
    forall k | 0 <= k < |cs|
      ensures CitationsOf(cs)[k] == tags[k]
    {
      if k > 0 {
        assert tags[k] == CitationsOf(cs[1..])[k - 1];
      }
    }
  }

  /** The tags extracted from a context returned by `search` are exactly the
      `(source, str(page))` pairs of the retrieved chunks, in retrieval order,
      provided every stored chunk is citable. */
  lemma SearchContextCitations(chunks: seq<Chunk>, ids: seq<int>)
    requires NonNegative(ids)
    requires forall k :: 0 <= k < |chunks| ==> Citable(chunks[k])
    ensures FindAll(Join(ContextParts(chunks, ids), PART_SEPARATOR)) == CitationsOf(Hits(chunks, ids))
  {
    var hits := Hits(chunks, ids);
    HitsAreStored(chunks, ids);
    forall k | 0 <= k < |hits|
      ensures Citable(hits[k])
    {
      assert hits[k] in chunks;
    }
    ContextRoundTrip(hits);
  }
}
