/**
 * The extension's content script (`chrome-extension/content.js`): the
 * `isScraping` guard, the comment scrape on the post page, and the follow
 * check on a profile page.
 */
module Content {
  import opened Wrappers
  import opened Strings
  import opened Seqs
  import opened Mentions
  import opened Competitors
  import opened Authors
  import opened Comments

  /** A message the content script receives. */
  datatype Request =
    | StartScrape(competitors: seq<string>)
    | CheckFollows(username: string, competitors: seq<string>)
    | OtherRequest

  /** A message the content script sends to the background script (log lines are left out). */
  datatype Outgoing = ScrapeDone(users: seq<string>) | FollowResult(username: string, success: bool)

  /** `new Set(config.competitors.map(c => c.toLowerCase().trim()))`. */
  function ExtensionCompetitors(cs: seq<string>): set<string>
  {
    set c | c in cs :: Trim(Lower(c))
  }

  /** A scraped extension candidate: non-empty, free of `/`, no competitor, and its comment names two other users. */
  lemma ExtensionCandidateGuarantees(span: Span, cs: seq<string>, u: string)
    requires CommentCandidate(span, ExtensionPick, ExtensionCompetitors(cs)) == Some(u)
    ensures u != "" && '/' !in u
    ensures forall c :: c in cs ==> Trim(Lower(c)) != Lower(u)
    ensures '@' in span.text && |span.text| >= 5
    ensures exists a, b :: a in UniqueMentions(span.text) && b in UniqueMentions(span.text) && a != b
                           && a !in ExtensionCompetitors(cs) && b !in ExtensionCompetitors(cs)
                           && a != Lower(u) && b != Lower(u)
  {
    CandidateGuarantees(span, ExtensionPick, ExtensionCompetitors(cs), u);
    ExtensionAuthorHasNoSlash(span.ancestors);
  }

  // ---------------------------------------------------------------------
  // The follow check
  // ---------------------------------------------------------------------

  /** The text typed into the search box: a name longer than five characters loses its last three. */
  function SearchTerm(comp: string): (term: string)
    ensures term <= comp
    ensures |comp| <= 5 ==> term == comp
    ensures |comp| > 5 ==> |term| == |comp| - 3 && |term| >= 3
  {
    if |comp| > 5 then comp[..|comp| - 3] else comp
  }

  /** A `div[role="dialog"]` element: its text, whether it holds the search input, and the result links it shows for a typed term. */
  datatype Dialog = Dialog(text: string, hasSearch: bool, results: string -> seq<string>)

  /**
   * The profile page as the check observes it: the body text, the hrefs
   * of the anchors present at each of the ten polls for the Following
   * link, and the dialogs open after the click.
   */
  datatype ProfileView = ProfileView(bodyText: string, linksAt: nat -> seq<string>, dialogs: seq<Dialog>)

  predicate IsPrivate(view: ProfileView)
  {
    Contains(view.bodyText, "This account is private")
  }

  /** The first href in `hrefs` that is exactly `h`. */
  function FindHref(hrefs: seq<string>, h: string): (r: Option<string>)
    ensures r.Some? <==> h in hrefs
    ensures r.Some? ==> r.value == h
  {
    if h in hrefs then Some(h) else None
  }

  /** The first href ending in `/following/`. */
  function FindFollowingHref(hrefs: seq<string>): (r: Option<string>)
    ensures r.Some? <==> exists h :: h in hrefs && EndsWith(h, "/following/")
    ensures r.Some? ==> r.value in hrefs && EndsWith(r.value, "/following/")
  {
    if hrefs == [] then None
    else if EndsWith(hrefs[0], "/following/") then Some(hrefs[0])
    else
      var rest := FindFollowingHref(hrefs[1..]);
      assert forall h :: h in hrefs ==> h == hrefs[0] || h in hrefs[1..];
      rest
  }

  /** The three selectors for the Following link, tried in order. */
  function FollowingLink(hrefs: seq<string>, username: string): Option<string>
  {
    var exactLower := FindHref(hrefs, "/" + Lower(username) + "/following/");
    if exactLower.Some? then exactLower
    else
      var exact := FindHref(hrefs, "/" + username + "/following/");
      if exact.Some? then exact else FindFollowingHref(hrefs)
  }

  lemma EndsWithFollowing(prefix: string)
    ensures EndsWith(prefix + "/following/", "/following/")
  {
    var s := prefix + "/following/";
    assert s[|s| - |"/following/"|..] == "/following/";
  }

  /** The two exact selectors add nothing: a link is found exactly when some href ends in `/following/`. */
  lemma FollowingLinkFound(hrefs: seq<string>, username: string)
    ensures FollowingLink(hrefs, username).Some? <==> exists h :: h in hrefs && EndsWith(h, "/following/")
  {
    EndsWithFollowing("/" + Lower(username));
    EndsWithFollowing("/" + username);
  }

  /** The link shows up at one of the ten polls. */
  predicate LinkFound(view: ProfileView, username: string)
  {
    exists i :: 0 <= i < 10 && FollowingLink(view.linksAt(i), username).Some?
  }

  predicate OpensFollowing(d: Dialog)
  {
    Contains(d.text, "Following") || d.hasSearch
  }

  /** `dialogs.find(...)`: the first dialog showing "Following" or holding the search input. */
  function FindDialog(dialogs: seq<Dialog>): (r: Option<Dialog>)
    ensures r.None? <==> forall i :: 0 <= i < |dialogs| ==> !OpensFollowing(dialogs[i])
    ensures r.Some? ==> exists i :: 0 <= i < |dialogs| && r.value == dialogs[i] && OpensFollowing(dialogs[i])
                                    && forall j :: 0 <= j < i ==> !OpensFollowing(dialogs[j])
  {
    if dialogs == [] then None
    else if OpensFollowing(dialogs[0]) then Some(dialogs[0])
    else
      assert forall i :: 1 <= i < |dialogs| ==> dialogs[i] == dialogs[1..][i - 1];
      var rest := FindDialog(dialogs[1..]);
      assert rest.Some? ==> exists i :: 0 <= i < |dialogs| && rest.value == dialogs[i] && OpensFollowing(dialogs[i])
                                        && forall j :: 0 <= j < i ==> !OpensFollowing(dialogs[j]) by {
        if rest.Some? {
          var k :| 0 <= k < |dialogs| - 1 && rest.value == dialogs[1..][k] && OpensFollowing(dialogs[1..][k])
                   && forall j :: 0 <= j < k ==> !OpensFollowing(dialogs[1..][j]);
          assert rest.value == dialogs[k + 1] && forall j :: 0 <= j < k + 1 ==> !OpensFollowing(dialogs[j]);
        }
      }
      rest
  }

  /** After typing the search term, the dialog links to `/<lower-cased comp>/`. */
  predicate ShowsCompetitor(d: Dialog, comp: string)
  {
    "/" + Lower(comp) + "/" in d.results(SearchTerm(comp))
  }

  function ShownIn(d: Dialog): string -> bool
  {
    comp => ShowsCompetitor(d, comp)
  }

  /** The search box is reached: a public profile, the Following link within ten polls, and a dialog with the search input. */
  predicate ReachesSearch(view: ProfileView, username: string)
  {
    && !IsPrivate(view) && LinkFound(view, username)
    && FindDialog(view.dialogs).Some? && FindDialog(view.dialogs).value.hasSearch
  }

  /** What the check reports: the search is reached and every competitor is found. */
  predicate FollowsAll(view: ProfileView, username: string, competitors: seq<string>)
  {
    ReachesSearch(view, username)
    && forall c :: c in competitors ==> ShowsCompetitor(FindDialog(view.dialogs).value, c)
  }

  /** A private profile, a missing link, or a dialog without search input each fail the check. */
  lemma FailurePaths(view: ProfileView, username: string, competitors: seq<string>)
    requires IsPrivate(view) || !LinkFound(view, username) || FindDialog(view.dialogs).None?
             || !FindDialog(view.dialogs).value.hasSearch
    ensures !FollowsAll(view, username, competitors)
  {
  }

  /** With no competitors to look for, reaching the search box is enough. */
  lemma NoCompetitorsReachIsEnough(view: ProfileView, username: string)
    ensures FollowsAll(view, username, []) <==> ReachesSearch(view, username)
  {
  }

  /** The retry loop: up to ten polls for the Following link, stopping at the first one that finds it. */
  method PollFollowingLink(view: ProfileView, username: string) returns (followingLink: Option<string>)
    ensures followingLink.Some? <==> LinkFound(view, username)
    ensures followingLink.Some? ==> EndsWith(followingLink.value, "/following/")
  {
    followingLink := None;
    var i := 0;
    while i < 10
      invariant 0 <= i <= 10
      invariant forall j :: 0 <= j < i ==> FollowingLink(view.linksAt(j), username).None?
      invariant followingLink.None?
    {
      followingLink := FollowingLink(view.linksAt(i), username);
      if followingLink.Some? {
        FollowingLinkSuffix(view.linksAt(i), username);
        break;
      }
      i := i + 1;
    }
  }

  lemma FollowingLinkSuffix(hrefs: seq<string>, username: string)
    requires FollowingLink(hrefs, username).Some?
    ensures EndsWith(FollowingLink(hrefs, username).value, "/following/")
  {
    EndsWithFollowing("/" + Lower(username));
    EndsWithFollowing("/" + username);
  }

  /** Typing the next competitor's term extends the list of terms typed so far. */
  lemma TypedStep(typed: seq<string>, competitors: seq<string>, k: nat)
    requires k < |competitors|
    requires |typed| == k && forall j :: 0 <= j < k ==> typed[j] == SearchTerm(competitors[j])
    ensures var t := typed + [SearchTerm(competitors[k])];
            |t| == k + 1 && forall j :: 0 <= j < k + 1 ==> t[j] == SearchTerm(competitors[j])
  {
  }

  /**
   * The loop over the competitors: clear the box, type the search term,
   * and keep the competitor when its profile link shows. Every competitor
   * is probed, whatever the earlier ones gave.
   */
  method SearchCompetitors(d: Dialog, competitors: seq<string>) returns (matches: seq<string>, typed: seq<string>)
    ensures matches == Filter(competitors, ShownIn(d))
    ensures |typed| == |competitors| && forall j :: 0 <= j < |competitors| ==> typed[j] == SearchTerm(competitors[j])
  {
    matches := [];
    typed := [];
    for k := 0 to |competitors|
      invariant |typed| == k && forall j :: 0 <= j < k ==> typed[j] == SearchTerm(competitors[j])
      invariant matches == Filter(competitors[..k], ShownIn(d))
    {
      var comp := competitors[k];
      FilterPrefixStep(competitors, k, ShownIn(d));
      var term := SearchTerm(comp);
      TypedStep(typed, competitors, k);
      typed := typed + [term];
      var resultLink := "/" + Lower(comp) + "/" in d.results(term);
      if resultLink {
        matches := matches + [comp];
      }
    }
    assert competitors[..|competitors|] == competitors;
  }

  /** The content script's own state and the messages it has sent. */
  class ContentScript {
    var isScraping: bool
    var outbox: seq<Outgoing>

    constructor ()
      ensures !isScraping && outbox == []
    {
      isScraping := false;
      outbox := [];
    }

    /**
     * The message listener: a scrape starts only when none is running and
     * sets the flag at once; a follow check is always accepted.
     */
    method OnMessage(request: Request) returns (ready: bool, startsScrape: bool)
      modifies this
      ensures startsScrape <==> request.StartScrape? && !old(isScraping)
      ensures ready <==> startsScrape || request.CheckFollows?
      ensures isScraping == (old(isScraping) || startsScrape)
      ensures outbox == old(outbox)
    {
      startsScrape := false;
      ready := false;
      if request.StartScrape? && !isScraping {
        ready := true;
        startsScrape := true;
        isScraping := true;
      } else if request.CheckFollows? {
        ready := true;
      }
    }

    /**
     * The part of `scrapeComments` after the comments are loaded: collect
     * the candidates, clear the flag, then send them.
     */
    method ScrapeComments(spans: seq<Span>, configCompetitors: seq<string>) returns (users: seq<string>)
      modifies this
      ensures users == Dedup(Candidates(spans, ExtensionPick, ExtensionCompetitors(configCompetitors)))
      ensures NoDups(users)
      ensures !isScraping
      ensures outbox == old(outbox) + [ScrapeDone(users)]
    {
      var competitors := ExtensionCompetitors(configCompetitors);
      users := CollectCandidates(spans, ExtensionPick, competitors);
      isScraping := false;
      outbox := outbox + [ScrapeDone(users)];
    }

    /**
     * `checkUserFollows`: exactly one `followResult` is sent on every path;
     * once the search box is reached, every competitor's search term is
     * typed, in order (`typed`).
     */
    method CheckUserFollows(username: string, competitors: seq<string>, view: ProfileView)
      returns (success: bool, typed: seq<string>)
      modifies this
      ensures success <==> FollowsAll(view, username, competitors)
      ensures ReachesSearch(view, username) ==>
                |typed| == |competitors| && forall j :: 0 <= j < |competitors| ==> typed[j] == SearchTerm(competitors[j])
      ensures !ReachesSearch(view, username) ==> typed == []
      ensures isScraping == old(isScraping)
      ensures outbox == old(outbox) + [FollowResult(username, success)]
    {
      typed := [];
      var isPrivate := Contains(view.bodyText, "This account is private");
      if isPrivate {
        success := false;
        outbox := outbox + [FollowResult(username, false)];
        return;
      }

      var followingLink := PollFollowingLink(view, username);
      if followingLink.None? {
        success := false;
        outbox := outbox + [FollowResult(username, false)];
        return;
      }

      var dialog := FindDialog(view.dialogs);
      if dialog.None? {
        success := false;
        outbox := outbox + [FollowResult(username, false)];
        return;
      }
      if !dialog.value.hasSearch {
        success := false;
        outbox := outbox + [FollowResult(username, false)];
        return;
      }

      var matches;
      matches, typed := SearchCompetitors(dialog.value, competitors);
      FilterKeepsAllMembers(competitors, ShownIn(dialog.value));
      success := |matches| == |competitors|;
      outbox := outbox + [FollowResult(username, success)];
    }
  }
}
