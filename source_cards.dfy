/** The source panel under an answer (`display_source_cards` in `app.py`):
    the extracted citation tags, deduplicated by identifier, at most three
    of them shown as cards. */
module SourceCards {
  import opened Wrappers
  import opened Text
  import opened Citations

  /** Cards are placed in three columns; no more than this many are shown. */
  const MAX_CARDS: nat := 3

  const NO_METADATA_CAPTION: string := "No specific metadata found in context."

  /** What the panel shows: nothing at all when the context holds no tag,
      otherwise the cards and the caption that follows them, if any. */
  datatype Panel = NoPanel | Panel(cards: seq<Tag>, caption: Option<string>)

  /** The identifier `f"{filename} (Page {page_num})"` a card is keyed by. */
  function Identifier(t: Tag): string {
    t.name + " (Page " + t.digits + ")"
  }

  function Identifiers(ts: seq<Tag>): set<string> {
    set k | 0 <= k < |ts| :: Identifier(ts[k])
  }

  /** The first tag of each identifier, in match order. */
  function FirstOccurrences(ms: seq<Tag>): seq<Tag> {
    if ms == [] then []
    else
      var pre := FirstOccurrences(ms[..|ms| - 1]);
      var m := ms[|ms| - 1];
      if Identifier(m) in Identifiers(pre) then pre else pre + [m]
  }

  /** The first `n` elements of `s`, or all of them. */
  function Take<T>(s: seq<T>, n: nat): (r: seq<T>)
    ensures |r| == if |s| <= n then |s| else n
    ensures r == s[..|r|]
  {
    if |s| <= n then s else s[..n]
  }

  /** The cards the panel shows for a list of matches. */
  function Cards(matches: seq<Tag>): seq<Tag> {
    Take(FirstOccurrences(matches), MAX_CARDS)
  }

  /** The panel for a context: nothing without a tag, otherwise the cards,
      with the caption when there are none. */
  function SourcePanel(context: string): Panel {
    var matches := FindAll(context);
    if matches == [] then NoPanel
    else Panel(Cards(matches), if Cards(matches) == [] then Some(NO_METADATA_CAPTION) else None)
  }

  lemma IdentifiersAppend(ts: seq<Tag>, t: Tag)
    ensures Identifiers(ts + [t]) == Identifiers(ts) + {Identifier(t)}
  {
    var l := ts + [t];
    forall x | x in Identifiers(ts)
      ensures x in Identifiers(l)
    {
      var k :| 0 <= k < |ts| && x == Identifier(ts[k]);
      assert l[k] == ts[k];
    }
    assert l[|ts|] == t;
  }

  /** One more match changes the cards exactly as the loop body does: the
      match is added when its identifier is new among the cards and fewer
      than three are shown. */
  lemma CardsStep(pre: seq<Tag>, m: Tag)
    ensures var cards := Cards(pre);
      Cards(pre + [m])
        == if Identifier(m) !in Identifiers(cards) && |cards| < MAX_CARDS then cards + [m] else cards
  {
    var all := pre + [m];
    assert all[..|all| - 1] == pre;
    var f := FirstOccurrences(pre);
    if |f| >= MAX_CARDS {
      assert (f + [m])[..MAX_CARDS] == f[..MAX_CARDS];
    }
  }

  /** `display_source_cards`: extract the tags; show nothing when there are
      none; otherwise fill the cards and add the caption when no card was
      filled. */
  method DisplaySourceCards(context: string) returns (panel: Panel)
    ensures panel == SourcePanel(context)
  {
    var matches := FindAll(context);
    if matches == [] {
      return NoPanel;
    }
    var cards, count := FillCards(matches);
    panel := Panel(cards, if count == 0 then Some(NO_METADATA_CAPTION) else None);
  }

  /** The loop of `display_source_cards`: walk the matches and fill at most
      three columns with the tags whose identifier has not been shown yet. */
  method FillCards(matches: seq<Tag>) returns (cards: seq<Tag>, count: nat)
    ensures cards == Cards(matches) && count == |cards|
  {
    var uniqueSources: set<string> := {};
    count := 0;
    cards := [];
    for k := 0 to |matches|
      invariant cards == Cards(matches[..k])
      invariant count == |cards|
      invariant uniqueSources == Identifiers(cards)
    {
      var m := matches[k];
      var identifier := Identifier(m);
      assert Cards(matches[..k + 1])
        == if identifier !in uniqueSources && count < MAX_CARDS then cards + [m] else cards
      by {
        CardsStep(matches[..k], m);
        assert matches[..k + 1] == matches[..k] + [m];
      }
      if identifier !in uniqueSources && count < MAX_CARDS {
        assert Identifiers(cards + [m]) == uniqueSources + {identifier} by {
          IdentifiersAppend(cards, m);
        }
        cards := cards + [m];
        uniqueSources := uniqueSources + {identifier};
        count := count + 1;
      }
    }
    assert matches[..|matches|] == matches;
  }

  // ---------------------------------------------------------------------------
  // Properties of the selection
  // ---------------------------------------------------------------------------

  /** The identifiers of the first occurrences are pairwise distinct and are
      exactly the identifiers of all matches; each first occurrence is one of
      the matches. */
  lemma {:induction false} FirstOccurrencesShape(ms: seq<Tag>)
    ensures var f := FirstOccurrences(ms);
      (forall i, j :: 0 <= i < j < |f| ==> Identifier(f[i]) != Identifier(f[j]))
      && Identifiers(f) == Identifiers(ms)
      && (forall k :: 0 <= k < |f| ==> f[k] in ms)
  {
    if ms != [] {
      var init := ms[..|ms| - 1];
      var m := ms[|ms| - 1];
      FirstOccurrencesShape(init);
      IdentifiersAppend(init, m);
      assert ms == init + [m];
      var pre := FirstOccurrences(init);
      if Identifier(m) !in Identifiers(pre) {
        IdentifiersAppend(pre, m);
        var f := pre + [m];
        forall i, j | 0 <= i < j < |f|
          ensures Identifier(f[i]) != Identifier(f[j])
        {
          if j == |pre| {
            assert Identifier(f[i]) in Identifiers(pre);
          }
        }
      }
      forall k | 0 <= k < |FirstOccurrences(ms)|
        ensures FirstOccurrences(ms)[k] in ms
      {
        if k < |pre| {
          assert pre[k] in init;
        }
      }
    }
  }

  /** At most three cards; their identifiers are pairwise distinct; each is
      a match; and an identifier of a match is missing from the cards only
      when all three columns are taken. */
  lemma CardsShape(matches: seq<Tag>)
    ensures var cards := Cards(matches);
      |cards| <= MAX_CARDS
      && (forall i, j :: 0 <= i < j < |cards| ==> Identifier(cards[i]) != Identifier(cards[j]))
      && (forall k :: 0 <= k < |cards| ==> cards[k] in matches)
      && (forall k :: 0 <= k < |matches| && Identifier(matches[k]) !in Identifiers(cards) ==> |cards| == MAX_CARDS)
  {
    var f := FirstOccurrences(matches);
    FirstOccurrencesShape(matches);
    var cards := Cards(matches);
    forall k | 0 <= k < |cards|
      ensures cards[k] in matches
    {
      assert cards[k] == f[k];
    }
    forall k | 0 <= k < |matches|
      ensures Identifier(matches[k]) in Identifiers(cards) || |cards| == MAX_CARDS
    {
      assert Identifier(matches[k]) in Identifiers(matches);
      if |f| <= MAX_CARDS {
        assert cards == f;
      }
    }
  }

  /** The panel appears exactly when the context holds a tag; it then has
      at least one card, so the "no metadata" caption is never shown. */
  lemma CaptionNeverShown(context: string)
    ensures SourcePanel(context).Panel? <==> FindAll(context) != []
    ensures SourcePanel(context).Panel? ==>
      SourcePanel(context).cards != [] && SourcePanel(context).caption != Some(NO_METADATA_CAPTION)
      && SourcePanel(context).caption.None?
  {
    var ms := FindAll(context);
    if ms != [] {
      FirstOccurrencesShape(ms);
      assert Identifier(ms[0]) in Identifiers(ms);
    }
  }

  /** The longest run of digits at the end of `s`. */
  function DigitSuffix(s: string): (d: string)
    ensures AllDigits(d) && |d| <= |s|
  {
    if s != [] && IsDigit(s[|s| - 1]) then DigitSuffix(s[..|s| - 1]) + [s[|s| - 1]] else []
  }

  lemma {:induction false} DigitSuffixOf(p: string, d: string)
    requires AllDigits(d)
    requires p == [] || !IsDigit(p[|p| - 1])
    ensures DigitSuffix(p + d) == d
  {
    if d == [] {
      assert p + d == p;
    } else {
      var init := d[..|d| - 1];
      assert (p + d)[..|p + d| - 1] == p + init;
      assert AllDigits(init) by {
        forall i | 0 <= i < |init|
          ensures IsDigit(init[i])
        {
          assert init[i] == d[i];
        }
      }
      DigitSuffixOf(p, init);
      assert d == init + [d[|d| - 1]];
    }
  }

  /** Distinct identifiers mean distinct `(filename, page)` pairs: the page
      digits are the digit run before the closing parenthesis. */
  lemma IdentifierInjective(a: Tag, b: Tag)
    requires AllDigits(a.digits) && AllDigits(b.digits)
    requires Identifier(a) == Identifier(b)
    ensures a == b
  {
    var x := Identifier(a);
    var pa := a.name + " (Page ";
    var pb := b.name + " (Page ";
    assert x[..|x| - 1] == pa + a.digits;
    assert x[..|x| - 1] == pb + b.digits;
    DigitSuffixOf(pa, a.digits);
    DigitSuffixOf(pb, b.digits);
    assert a.name == x[..|a.name|];
    assert b.name == x[..|b.name|];
  }
}
