/** The unsafe-query guardrail of the knowledge base
    (`ClinicalKnowledgeBase._is_unsafe_query` over `Config.UNSAFE_PATTERNS`). */
module Guardrails {
  import opened Text
  import Config

  /** The characters of the regular-expression class `\w` (ASCII letters,
      digits and the underscore). */
  predicate IsWordChar(c: char) {
    ('a' <= c <= 'z') || ('A' <= c <= 'Z') || ('0' <= c <= '9') || c == '_'
  }

  /** Position `k` of `s` holds a word character; positions outside `s` do not. */
  predicate WordAt(s: string, k: int) {
    0 <= k < |s| && IsWordChar(s[k])
  }

  /** The regular-expression assertion `\b` at offset `k`: a word character on
      exactly one side of `k`. */
  predicate Boundary(s: string, k: int) {
    WordAt(s, k - 1) != WordAt(s, k)
  }

  /** The pattern `\b<phrase>\b` matches `s` at offset `i`. */
  predicate MatchesAt(s: string, phrase: string, i: nat) {
    OccursAt(s, phrase, i) && Boundary(s, i) && Boundary(s, i + |phrase|)
  }

  /** `re.search(r"\b<phrase>\b", s)` is not `None`, scanning from offset `from`. */
  function SearchFrom(s: string, phrase: string, from: nat): (found: bool)
    requires from <= |s|
    ensures found <==> exists i: nat :: from <= i && MatchesAt(s, phrase, i)
    decreases |s| - from
  {
    if MatchesAt(s, phrase, from) then true
    else if from == |s| then false
    else SearchFrom(s, phrase, from + 1)
  }

  /** Some `\b<phrase>\b` of `phrases` matches `s` somewhere. */
  ghost predicate SomePhraseMatches(s: string, phrases: seq<string>) {
    exists j: nat, i: nat :: j < |phrases| && MatchesAt(s, phrases[j], i)
  }

  /** `any(re.search(p, s) for p in patterns)` for the patterns `\b<phrase>\b`. */
  function AnyPhrase(s: string, phrases: seq<string>): (found: bool)
    ensures found <==> SomePhraseMatches(s, phrases)
  {
    if phrases == [] then false
    else
      var first := SearchFrom(s, phrases[0], 0);
      var rest := AnyPhrase(s, phrases[1..]);
      assert (first || rest) <==> SomePhraseMatches(s, phrases) by {
        if rest {
          var j: nat, i: nat :| j < |phrases[1..]| && MatchesAt(s, phrases[1..][j], i);
          assert MatchesAt(s, phrases[j + 1], i);
        }
        if first {
          var i: nat :| MatchesAt(s, phrases[0], i);
        }
        if SomePhraseMatches(s, phrases) {
          var j: nat, i: nat :| j < |phrases| && MatchesAt(s, phrases[j], i);
          if j > 0 {
            assert MatchesAt(s, phrases[1..][j - 1], i);
          }
        }
      }
      first || rest
  }

  /** The guardrail holds exactly when the lower-cased query contains one of
      the unsafe phrases with a word boundary on both sides. */
  function IsUnsafeQuery(query: string): (unsafe: bool)
    ensures unsafe <==> SomePhraseMatches(Lower(query), Config.UNSAFE_PHRASES)
  {
    AnyPhrase(Lower(query), Config.UNSAFE_PHRASES)
  }

  lemma {:induction false} LowerAppend(a: string, b: string)
    ensures Lower(a + b) == Lower(a) + Lower(b)
  {
    if a == [] {
      assert a + b == b;
    } else {
      assert (a + b)[1..] == a[1..] + b;
      LowerAppend(a[1..], b);
    }
  }

  /** Every unsafe phrase begins and ends with a word character, so its two
      `\b` assertions look at the characters just outside it. */
  lemma PhraseEndsAreWordChars(j: nat)
    requires j < |Config.UNSAFE_PHRASES|
    ensures var p := Config.UNSAFE_PHRASES[j];
      p != [] && IsWordChar(p[0]) && IsWordChar(p[|p| - 1])
  {
  }

  /** An unsafe phrase standing as its own words anywhere in the query trips
      the guardrail, whatever the case of its letters. */
  lemma PhraseTrips(before: string, word: string, after: string, j: nat)
    requires j < |Config.UNSAFE_PHRASES| && Lower(word) == Config.UNSAFE_PHRASES[j]
    requires before == [] || !IsWordChar(before[|before| - 1])
    requires after == [] || !IsWordChar(after[0])
    ensures IsUnsafeQuery(before + word + after)
  {
    var p := Config.UNSAFE_PHRASES[j];
    var q := Lower(before + word + after);
    LowerAppend(before + word, after);
    LowerAppend(before, word);
    var i := |before|;
    assert q == Lower(before) + p + Lower(after);
    assert q[i..i + |p|] == p;
    PhraseEndsAreWordChars(j);
    assert Boundary(q, i) by {
      assert WordAt(q, i);
      if i > 0 {
        assert q[i - 1] == LowerChar(before[i - 1]);
      }
    }
    assert Boundary(q, i + |p|) by {
      assert WordAt(q, i + |p| - 1);
      if after != [] {
        assert q[i + |p|] == LowerChar(after[0]);
      }
    }
    assert MatchesAt(q, p, i);
    assert SomePhraseMatches(q, Config.UNSAFE_PHRASES);
  }

  /** The query "which drug is best for hypertension" is blocked. */
  lemma WhichDrugIsBlocked()
    ensures IsUnsafeQuery("which drug is " + "best" + " for hypertension")
  {
    PhraseTrips("which drug is ", "best", " for hypertension", 0);
  }

  /** Upper case does not escape the guardrail. */
  lemma UpperCaseIsBlocked()
    ensures IsUnsafeQuery("BEST dose?")
  {
    assert "" + "BEST" + " dose?" == "BEST dose?";
    PhraseTrips("", "BEST", " dose?", 0);
  }

  /** A phrase glued to further letters is no match: "bestow" is not blocked. */
  lemma BestowIsNotBlocked()
    ensures !IsUnsafeQuery("bestow")
  {
    var q := Lower("bestow");
    assert q == "bestow";
    forall j: nat, i: nat | j < |Config.UNSAFE_PHRASES|
      ensures !MatchesAt(q, Config.UNSAFE_PHRASES[j], i)
    {
      var p := Config.UNSAFE_PHRASES[j];
      if OccursAt(q, p, i) {
        assert q[i..i + |p|][0] == q[i] && p[0] == q[i];
        if j == 0 {
          assert i == 0;
          assert WordAt(q, 3) && WordAt(q, 4);
        }
      }
    }
  }
}
