/**
 * The per-comment candidate rule of the page-scraping paths, which the
 * server (`scrapeCommenters`) and the extension (`scrapeComments`) share:
 * skip short or mention-free text, resolve the author, drop competitor
 * authors, and require two distinct mentions besides the author and the
 * competitors.
 */
module Comments {
  import opened Wrappers
  import opened Strings
  import opened Seqs
  import opened Mentions
  import opened Authors

  /** A comment text element: its `innerText` and the chain of its ancestors, nearest first. */
  datatype Span = Span(text: string, ancestors: seq<Ancestor>)

  /** The cheap pre-filter: the text contains `@` and has at least five characters. */
  predicate WorthReading(text: string)
  {
    '@' in text && |text| >= 5
  }

  /** The author this comment makes a candidate, if any; `competitors` are already normalised. */
  function CommentCandidate(span: Span, pick: Ancestor -> Option<string>, competitors: set<string>): Option<string>
  {
    if !WorthReading(span.text) then None
    else
      var author := WalkAuthor(span.ancestors, pick);
      if author == "" || Lower(author) in competitors then None
      else if TagsAtLeastTwo(span.text, competitors + {Lower(author)}) then Some(author)
      else None
  }

  function CandidateRule(pick: Ancestor -> Option<string>, competitors: set<string>): Span -> Option<string>
  {
    span => CommentCandidate(span, pick, competitors)
  }

  /** What `rule` yields for the spans, in page order, with repetitions. */
  function Collect(spans: seq<Span>, rule: Span -> Option<string>): seq<string>
  {
    if spans == [] then []
    else
      var last := rule(spans[|spans| - 1]);
      Collect(spans[..|spans| - 1], rule) + (if last.Some? then [last.value] else [])
  }

  /** The candidates of the spans in page order, with repetitions. */
  function Candidates(spans: seq<Span>, pick: Ancestor -> Option<string>, competitors: set<string>): seq<string>
  {
    Collect(spans, CandidateRule(pick, competitors))
  }

  /** The `commentSpans.forEach` loop that fills the `validUsers` set. */
  method CollectCandidates(spans: seq<Span>, pick: Ancestor -> Option<string>, competitors: set<string>)
    returns (validUsers: seq<string>)
    ensures validUsers == Dedup(Candidates(spans, pick, competitors))
  {
    validUsers := [];
    for i := 0 to |spans|
      invariant validUsers == Dedup(Candidates(spans[..i], pick, competitors))
    {
      ghost var before := Candidates(spans[..i], pick, competitors);
      ghost var found := CommentCandidate(spans[i], pick, competitors);
      CandidatesStep(spans, pick, competitors, i);
      var text := spans[i].text;
      var added := false;
      if '@' in text && |text| >= 5 {
        var author := ResolveAuthor(spans[i].ancestors, pick);
        if author != "" && Lower(author) !in competitors && TagsAtLeastTwo(text, competitors + {Lower(author)}) {
          assert found == Some(author);
          DedupSnoc(before, author);
          validUsers := SetAdd(validUsers, author);
          added := true;
        }
      }
      if !added {
        assert found.None?;
        assert before + [] == before;
      }
    }
    assert spans[..|spans|] == spans;
  }

  lemma CollectStep(spans: seq<Span>, rule: Span -> Option<string>, i: nat)
    requires i < |spans|
    ensures Collect(spans[..i + 1], rule)
            == Collect(spans[..i], rule) + (if rule(spans[i]).Some? then [rule(spans[i]).value] else [])
  {
    assert spans[..i + 1][..i] == spans[..i];
  }

  lemma CandidatesStep(spans: seq<Span>, pick: Ancestor -> Option<string>, competitors: set<string>, i: nat)
    requires i < |spans|
    ensures var found := CommentCandidate(spans[i], pick, competitors);
            Candidates(spans[..i + 1], pick, competitors)
            == Candidates(spans[..i], pick, competitors) + (if found.Some? then [found.value] else [])
  {
    CollectStep(spans, CandidateRule(pick, competitors), i);
  }

  lemma {:induction false} CollectMembers(spans: seq<Span>, rule: Span -> Option<string>, u: string)
    ensures u in Collect(spans, rule) <==> exists i :: 0 <= i < |spans| && rule(spans[i]) == Some(u)
  {
    if spans != [] {
      var init := spans[..|spans| - 1];
      CollectMembers(init, rule, u);
      if exists i :: 0 <= i < |init| && rule(init[i]) == Some(u) {
        var i :| 0 <= i < |init| && rule(init[i]) == Some(u);
        assert spans[i] == init[i];
      }
      if exists i :: 0 <= i < |spans| && rule(spans[i]) == Some(u) {
        var i :| 0 <= i < |spans| && rule(spans[i]) == Some(u);
        if i < |init| {
          assert init[i] == spans[i];
        }
      }
    }
  }

  /** A user is collected exactly when some span makes them a candidate. */
  lemma CandidatesMembers(spans: seq<Span>, pick: Ancestor -> Option<string>, competitors: set<string>, u: string)
    ensures u in Candidates(spans, pick, competitors) <==>
            exists i :: 0 <= i < |spans| && CommentCandidate(spans[i], pick, competitors) == Some(u)
  {
    CollectMembers(spans, CandidateRule(pick, competitors), u);
  }

  /**
   * What a candidate comment guarantees: its text passed the pre-filter,
   * its author is not a competitor, and it mentions two distinct users
   * other than its author and the competitors.
   */
  lemma CandidateGuarantees(span: Span, pick: Ancestor -> Option<string>, competitors: set<string>, u: string)
    requires CommentCandidate(span, pick, competitors) == Some(u)
    ensures '@' in span.text && |span.text| >= 5
    ensures u != "" && u == WalkAuthor(span.ancestors, pick) && Lower(u) !in competitors
    ensures exists a, b :: a in UniqueMentions(span.text) && b in UniqueMentions(span.text) && a != b
                           && a !in competitors && b !in competitors && a != Lower(u) && b != Lower(u)
  {
    TagsAtLeastTwoWitness(span.text, competitors + {Lower(u)});
  }

  /** The converse: a readable comment by a resolved, non-competitor author with two such mentions is a candidate. */
  lemma CandidateFromMentions(span: Span, pick: Ancestor -> Option<string>, competitors: set<string>, a: string, b: string)
    requires '@' in span.text && |span.text| >= 5
    requires WalkAuthor(span.ancestors, pick) != ""
    requires Lower(WalkAuthor(span.ancestors, pick)) !in competitors
    requires a in UniqueMentions(span.text) && b in UniqueMentions(span.text) && a != b
    requires a !in competitors && b !in competitors
    requires a != Lower(WalkAuthor(span.ancestors, pick)) && b != Lower(WalkAuthor(span.ancestors, pick))
    ensures CommentCandidate(span, pick, competitors) == Some(WalkAuthor(span.ancestors, pick))
  {
    TagsAtLeastTwoWitness(span.text, competitors + {Lower(WalkAuthor(span.ancestors, pick))});
  }

  /** Short or mention-free comments never make their author a candidate. */
  lemma UnreadableNeverCandidate(span: Span, pick: Ancestor -> Option<string>, competitors: set<string>)
    requires '@' !in span.text || |span.text| < 5
    ensures CommentCandidate(span, pick, competitors).None?
  {
  }
}
