/**
 * The engagement rule shared by every path that reads comments: the
 * `@[a-zA-Z0-9_.]+` mentions of a comment are lower-cased and
 * de-duplicated, the excluded names are removed, and the comment counts
 * when at least two distinct mentions remain.
 */
module Mentions {
  import opened Strings

  /** A character of the class `[a-zA-Z0-9_.]`. */
  predicate IsHandleChar(c: char)
  {
    'a' <= c <= 'z' || 'A' <= c <= 'Z' || '0' <= c <= '9' || c == '_' || c == '.'
  }

  /** End of the maximal run of handle characters that starts at `j`. */
  function RunEnd(s: string, j: nat): (e: nat)
    requires j <= |s|
    ensures j <= e <= |s|
    ensures forall k :: j <= k < e ==> IsHandleChar(s[k])
    ensures e == |s| || !IsHandleChar(s[e])
    decreases |s| - j
  {
    if j < |s| && IsHandleChar(s[j]) then RunEnd(s, j + 1) else j
  }

  /** The regular expression matches at `i`: an `@` followed by at least one handle character. */
  predicate MentionAt(s: string, i: int)
  {
    0 <= i && i + 1 < |s| && s[i] == '@' && IsHandleChar(s[i + 1])
  }

  /** `m` is the match that starts at `i`: the `@` and the maximal run after it. */
  predicate MatchAt(s: string, i: int, m: string)
  {
    MentionAt(s, i) && m == s[i..RunEnd(s, i + 1)]
  }

  /** The matches of `/@[a-zA-Z0-9_.]+/g` in `s` from position `i` on, left to right. */
  function MatchesFrom(s: string, i: nat): seq<string>
    requires i <= |s|
    decreases |s| - i
  {
    if i == |s| then []
    else if MentionAt(s, i) then
      var e := RunEnd(s, i + 1);
      [s[i..e]] + MatchesFrom(s, e)
    else MatchesFrom(s, i + 1)
  }

  /** `text.match(/@[a-zA-Z0-9_.]+/g) || []`. */
  function Matches(text: string): seq<string>
  {
    MatchesFrom(text, 0)
  }

  /** `m.replace('@', '')`: drops the first `@`. */
  function DropFirstAt(m: string): string
  {
    if m == [] then []
    else if m[0] == '@' then m[1..]
    else [m[0]] + DropFirstAt(m[1..])
  }

  /** `new Set(mentions.map(m => m.replace('@', '').toLowerCase()))`. */
  function UniqueMentions(text: string): set<string>
  {
    set m | m in Matches(text) :: Lower(DropFirstAt(m))
  }

  /**
   * The scanner finds a match at every `@` that is followed by a handle
   * character, and nowhere else: `@` is not a handle character, so a run
   * never swallows the next `@`.
   */
  lemma {:induction false} MatchesFromExact(s: string, i0: nat, m: string)
    requires i0 <= |s|
    ensures m in MatchesFrom(s, i0) <==> exists i :: i0 <= i && MatchAt(s, i, m)
    decreases |s| - i0
  {
    if i0 < |s| {
      if MentionAt(s, i0) {
        var e := RunEnd(s, i0 + 1);
        MatchesFromExact(s, e, m);
        assert MatchesFrom(s, i0) == [s[i0..e]] + MatchesFrom(s, e);
        if m in MatchesFrom(s, i0) {
          if m == s[i0..e] {
            assert MatchAt(s, i0, m);
          } else {
            assert m in MatchesFrom(s, e);
            var i :| e <= i && MatchAt(s, i, m);
            assert i0 <= i;
          }
        }
        if exists i :: i0 <= i && MatchAt(s, i, m) {
          var i :| i0 <= i && MatchAt(s, i, m);
          if i != i0 {
            // positions i0+1 .. e-1 hold handle characters, never '@'
            assert e <= i;
            assert m in MatchesFrom(s, e);
          }
        }
      } else {
        MatchesFromExact(s, i0 + 1, m);
        if exists i :: i0 <= i && MatchAt(s, i, m) {
          var i :| i0 <= i && MatchAt(s, i, m);
          assert i != i0;
        }
      }
    }
  }

  /** A lower-cased handle is a unique mention exactly when some `@` in the text introduces it. */
  lemma UniqueMentionsExact(text: string, h: string)
    ensures h in UniqueMentions(text) <==>
            exists i :: MentionAt(text, i) && h == Lower(text[i + 1..RunEnd(text, i + 1)])
  {
    if h in UniqueMentions(text) {
      var m :| m in Matches(text) && h == Lower(DropFirstAt(m));
      MatchesFromExact(text, 0, m);
      var i :| 0 <= i && MatchAt(text, i, m);
      assert DropFirstAt(m) == text[i + 1..RunEnd(text, i + 1)];
    }
    if exists i :: MentionAt(text, i) && h == Lower(text[i + 1..RunEnd(text, i + 1)]) {
      var i :| MentionAt(text, i) && h == Lower(text[i + 1..RunEnd(text, i + 1)]);
      var m := text[i..RunEnd(text, i + 1)];
      assert MatchAt(text, i, m);
      MatchesFromExact(text, 0, m);
      assert DropFirstAt(m) == text[i + 1..RunEnd(text, i + 1)];
    }
  }

  /** Every unique mention is a non-empty, lower-case run of handle characters. */
  lemma UniqueMentionsWellFormed(text: string, h: string)
    requires h in UniqueMentions(text)
    ensures h != [] && forall k :: 0 <= k < |h| ==> IsHandleChar(h[k]) && !IsUpper(h[k])
  {
    UniqueMentionsExact(text, h);
    var i :| MentionAt(text, i) && h == Lower(text[i + 1..RunEnd(text, i + 1)]);
    assert |h| == RunEnd(text, i + 1) - (i + 1) > 0;
    forall k | 0 <= k < |h| ensures IsHandleChar(h[k]) && !IsUpper(h[k]) {
      assert IsHandleChar(text[i + 1 + k]);
    }
  }

  /** A text with any mention contains an `@`. */
  lemma MentionsNeedAt(text: string)
    ensures UniqueMentions(text) != {} ==> '@' in text
  {
    if UniqueMentions(text) != {} {
      var h :| h in UniqueMentions(text);
      UniqueMentionsExact(text, h);
      var i :| MentionAt(text, i) && h == Lower(text[i + 1..RunEnd(text, i + 1)]);
      assert text[i] == '@';
    }
  }

  /**
   * The qualification threshold: at least two distinct mentions remain once
   * the excluded (already lower-cased) names are removed.
   */
  predicate TagsAtLeastTwo(text: string, excluded: set<string>)
  {
    |UniqueMentions(text) - excluded| >= 2
  }

  /** Two distinct remaining mentions witness the threshold, and the threshold yields two. */
  lemma {:induction false} TagsAtLeastTwoWitness(text: string, excluded: set<string>)
    ensures TagsAtLeastTwo(text, excluded) <==>
            exists a, b :: a in UniqueMentions(text) && b in UniqueMentions(text)
                           && a !in excluded && b !in excluded && a != b
  {
    var rest := UniqueMentions(text) - excluded;
    if |rest| >= 2 {
      var a :| a in rest;
      assert |rest - {a}| == |rest| - 1;
      var b :| b in rest - {a};
    }
    if exists a, b :: a in UniqueMentions(text) && b in UniqueMentions(text)
                      && a !in excluded && b !in excluded && a != b {
      var a, b :| a in UniqueMentions(text) && b in UniqueMentions(text)
                  && a !in excluded && b !in excluded && a != b;
      assert {a, b} <= rest;
      assert |{a, b}| == 2;
      SubsetCard({a, b}, rest);
    }
  }

  lemma {:induction false} SubsetCard(a: set<string>, b: set<string>)
    requires a <= b
    ensures |a| <= |b|
  {
    assert b == a + (b - a);
  }

  /** A text without `@` never meets the threshold. */
  lemma QualifyingTextHasAt(text: string, excluded: set<string>)
    ensures TagsAtLeastTwo(text, excluded) ==> '@' in text
  {
    MentionsNeedAt(text);
  }
}
