/**
 * The server's analyzer (`src/server/analyzer.ts`): collecting commenters
 * through the Graph API or by scraping the post page, deciding whether a
 * commenter follows every competitor, and picking the winner.
 */
module Analyzer {
  import opened Wrappers
  import opened Strings
  import opened Seqs
  import opened Mentions
  import opened Competitors
  import opened Authors
  import opened Comments
  import opened Draw

  // ---------------------------------------------------------------------
  // Graph API path (`getCommentersAPI`)
  // ---------------------------------------------------------------------

  /** One comment as the Graph API returns it. */
  datatype ApiComment = ApiComment(username: string, text: string)

  /** One post of the account's recent media, with its comments page by page. */
  datatype Media = Media(shortcode: string, pages: seq<seq<ApiComment>>)

  /** The API path's rule: two distinct mentions besides the author; competitors are not removed here. */
  predicate ApiQualifies(c: ApiComment)
  {
    TagsAtLeastTwo(c.text, {Lower(c.username)})
  }

  /** The authors of qualifying comments, in order, with repetitions. */
  function ApiCandidates(comments: seq<ApiComment>): seq<string>
  {
    if comments == [] then []
    else
      var last := comments[|comments| - 1];
      ApiCandidates(comments[..|comments| - 1]) + (if ApiQualifies(last) then [last.username] else [])
  }

  /** All comments of all pages, in the order they are fetched. */
  function Flatten(pages: seq<seq<ApiComment>>): seq<ApiComment>
  {
    if pages == [] then [] else Flatten(pages[..|pages| - 1]) + pages[|pages| - 1]
  }

  lemma ApiCandidatesAppend(comments: seq<ApiComment>, c: ApiComment)
    ensures ApiCandidates(comments + [c])
            == ApiCandidates(comments) + (if ApiQualifies(c) then [c.username] else [])
  {
    assert (comments + [c])[..|comments|] == comments;
  }

  /** One more fetched comment adds its author to the set exactly when it qualifies. */
  lemma ApiStep(fetched: seq<ApiComment>, c: ApiComment)
    ensures Dedup(ApiCandidates(fetched + [c]))
            == if ApiQualifies(c) then SetAdd(Dedup(ApiCandidates(fetched)), c.username)
               else Dedup(ApiCandidates(fetched))
  {
    ApiCandidatesAppend(fetched, c);
    if ApiQualifies(c) {
      DedupSnoc(ApiCandidates(fetched), c.username);
    } else {
      assert ApiCandidates(fetched) + [] == ApiCandidates(fetched);
    }
  }

  lemma ApiPageStep(fetched: seq<ApiComment>, data: seq<ApiComment>, j: nat)
    requires j < |data|
    ensures Dedup(ApiCandidates(fetched + data[..j + 1]))
            == if ApiQualifies(data[j]) then SetAdd(Dedup(ApiCandidates(fetched + data[..j])), data[j].username)
               else Dedup(ApiCandidates(fetched + data[..j]))
  {
    assert fetched + data[..j + 1] == (fetched + data[..j]) + [data[j]];
    ApiStep(fetched + data[..j], data[j]);
  }

  lemma FlattenSnoc(pages: seq<seq<ApiComment>>, p: nat)
    requires p < |pages|
    ensures Flatten(pages[..p + 1]) == Flatten(pages[..p]) + pages[p]
  {
    assert pages[..p + 1][..p] == pages[..p];
  }

  /**
   * The `while (nextUrl)` loop over the comment pages and the `for` loop over
   * each page's comments, adding qualifying authors to `commenters`.
   */
  method CommentersFromPages(pages: seq<seq<ApiComment>>) returns (commenters: seq<string>)
    ensures commenters == Dedup(ApiCandidates(Flatten(pages)))
  {
    commenters := [];
    var p := 0;
    while p < |pages|
      invariant 0 <= p <= |pages|
      invariant commenters == Dedup(ApiCandidates(Flatten(pages[..p])))
    {
      var data := pages[p];
      ghost var fetched := Flatten(pages[..p]);
      assert fetched + data[..0] == fetched;
      for j := 0 to |data|
        invariant commenters == Dedup(ApiCandidates(fetched + data[..j]))
      {
        var comment := data[j];
        ApiPageStep(fetched, data, j);
        var author := comment.username;
        var uniqueMentions := UniqueMentions(comment.text) - {Lower(author)};
        if |uniqueMentions| >= 2 {
          commenters := SetAdd(commenters, author);
        }
      }
      assert data[..|data|] == data;
      FlattenSnoc(pages, p);
      p := p + 1;
    }
    assert pages[..|pages|] == pages;
  }

  lemma {:induction false} ApiCandidatesMembers(comments: seq<ApiComment>, u: string)
    ensures u in ApiCandidates(comments) <==> exists c :: c in comments && ApiQualifies(c) && c.username == u
  {
    if comments != [] {
      var init, last := comments[..|comments| - 1], comments[|comments| - 1];
      assert comments == init + [last];
      ApiCandidatesMembers(init, u);
    }
  }

  lemma {:induction false} FlattenMembers(pages: seq<seq<ApiComment>>, c: ApiComment)
    ensures c in Flatten(pages) <==> exists p :: 0 <= p < |pages| && c in pages[p]
  {
    if pages != [] {
      var init := pages[..|pages| - 1];
      FlattenMembers(init, c);
      if exists p :: 0 <= p < |init| && c in init[p] {
        var p :| 0 <= p < |init| && c in init[p];
        assert pages[p] == init[p];
      }
      if exists p :: 0 <= p < |pages| && c in pages[p] {
        var p :| 0 <= p < |pages| && c in pages[p];
        if p < |init| {
          assert init[p] == pages[p];
        }
      }
    }
  }

  /** The API path collects exactly the authors of comments on any page that pass the API rule. */
  lemma ApiCommentersExact(pages: seq<seq<ApiComment>>, u: string)
    ensures u in Dedup(ApiCandidates(Flatten(pages))) <==>
            exists p, c :: 0 <= p < |pages| && c in pages[p] && ApiQualifies(c) && c.username == u
  {
    ApiCandidatesMembers(Flatten(pages), u);
    if exists c :: c in Flatten(pages) && ApiQualifies(c) && c.username == u {
      var c :| c in Flatten(pages) && ApiQualifies(c) && c.username == u;
      FlattenMembers(pages, c);
    }
    if exists p, c :: 0 <= p < |pages| && c in pages[p] && ApiQualifies(c) && c.username == u {
      var p, c :| 0 <= p < |pages| && c in pages[p] && ApiQualifies(c) && c.username == u;
      FlattenMembers(pages, c);
    }
  }

  // ---------------------------------------------------------------------
  // Shortcode extraction: `postUrl.match(/\/(p|reels|reel)\/([A-Za-z0-9_-]+)/)[2]`
  // ---------------------------------------------------------------------

  /** A character of the class `[A-Za-z0-9_-]`. */
  predicate IsCodeChar(c: char)
  {
    'a' <= c <= 'z' || 'A' <= c <= 'Z' || '0' <= c <= '9' || c == '_' || c == '-'
  }

  function CodeEnd(s: string, j: nat): (e: nat)
    requires j <= |s|
    ensures j <= e <= |s|
    ensures forall k :: j <= k < e ==> IsCodeChar(s[k])
    ensures e == |s| || !IsCodeChar(s[e])
    decreases |s| - j
  {
    if j < |s| && IsCodeChar(s[j]) then CodeEnd(s, j + 1) else j
  }

  /** Where the code starts when `/p/`, `/reels/` or `/reel/` (tried in that order) begins at `i`. */
  function KindEnd(s: string, i: nat): Option<nat>
  {
    if OccursAt(s, "/p/", i) then Some(i + 3)
    else if OccursAt(s, "/reels/", i) then Some(i + 7)
    else if OccursAt(s, "/reel/", i) then Some(i + 6)
    else None
  }

  /** The regular expression matches at `i`: a kind segment followed by at least one code character. */
  predicate ShortcodeAt(s: string, i: int)
  {
    0 <= i && KindEnd(s, i).Some? && KindEnd(s, i).value < |s| && IsCodeChar(s[KindEnd(s, i).value])
  }

  /** The second capture group of the match at `i`: the maximal run of code characters. */
  function CodeAt(s: string, i: int): string
    requires ShortcodeAt(s, i)
  {
    var b := KindEnd(s, i).value;
    s[b..CodeEnd(s, b)]
  }

  /** The leftmost match at or after `i0`. */
  function ShortcodeFrom(s: string, i0: nat): (r: Option<string>)
    requires i0 <= |s|
    ensures r.None? <==> forall i :: i0 <= i < |s| ==> !ShortcodeAt(s, i)
    ensures r.Some? ==> exists i :: i0 <= i < |s| && ShortcodeAt(s, i) && r.value == CodeAt(s, i)
                                    && forall j :: i0 <= j < i ==> !ShortcodeAt(s, j)
    decreases |s| - i0
  {
    if i0 == |s| then None
    else if ShortcodeAt(s, i0) then Some(CodeAt(s, i0))
    else ShortcodeFrom(s, i0 + 1)
  }

  /** The post's shortcode, or `None` (the source's `null`) when the URL has none. */
  function ExtractShortcode(postUrl: string): Option<string>
  {
    ShortcodeFrom(postUrl, 0)
  }

  lemma ShortcodeFromFirst(s: string, i0: nat, k: nat)
    requires i0 <= k < |s| && ShortcodeAt(s, k)
    requires forall j :: i0 <= j < k ==> !ShortcodeAt(s, j)
    ensures ShortcodeFrom(s, i0) == Some(CodeAt(s, k))
  {
    var r := ShortcodeFrom(s, i0);
    var i :| i0 <= i < |s| && ShortcodeAt(s, i) && r.value == CodeAt(s, i)
             && forall j :: i0 <= j < i ==> !ShortcodeAt(s, j);
    assert i == k;
  }

  predicate IsPostKind(kind: string)
  {
    kind == "p" || kind == "reels" || kind == "reel"
  }

  /** The kind segment `/` + kind + `/` at `i` is recognised, and the code starts right after it. */
  lemma KindEndOf(s: string, i: nat, kind: string)
    requires IsPostKind(kind)
    requires OccursAt(s, "/" + kind + "/", i)
    ensures KindEnd(s, i) == Some(i + |kind| + 2)
  {
    var seg := s[i..i + |kind| + 2];
    assert seg == "/" + kind + "/";
    if kind == "reels" {
      assert !OccursAt(s, "/p/", i) by {
        assert s[i + 1] == seg[1] == 'r';
      }
    } else if kind == "reel" {
      assert !OccursAt(s, "/p/", i) by {
        assert s[i + 1] == seg[1] == 'r';
      }
      assert !OccursAt(s, "/reels/", i) by {
        assert s[i + 5] == seg[5] == '/';
      }
    }
  }

  /**
   * The code of a post URL is found again: a prefix without `/`, then
   * `/p/`, `/reels/` or `/reel/`, the code, and anything that does not
   * continue the code.
   */
  lemma ShortcodeOfPostUrl(prefix: string, kind: string, code: string, rest: string)
    requires NoKindStart(prefix)
    requires IsPostKind(kind)
    requires code != [] && forall k :: 0 <= k < |code| ==> IsCodeChar(code[k])
    requires rest == [] || !IsCodeChar(rest[0])
    ensures ExtractShortcode(prefix + "/" + kind + "/" + code + rest) == Some(code)
  {
    var seg := "/" + kind + "/";
    var head := prefix + seg;
    var s := head + code + rest;
    assert s == prefix + "/" + kind + "/" + code + rest;
    assert prefix <= s && s[|prefix|] == '/';
    NoShortcodeInPrefix(s, prefix);
    assert OccursAt(s, seg, |prefix|) by {
      assert s[..|head|] == head;
    }
    KindEndOf(s, |prefix|, kind);
    CodeFollows(head, code, rest);
    FirstMatchAt(s, |prefix|, code);
  }

  /** A match at `p` with code `code`, and none before it, is what extraction finds. */
  lemma FirstMatchAt(s: string, p: nat, code: string)
    requires p < |s| && ShortcodeAt(s, p) && CodeAt(s, p) == code
    requires forall j :: 0 <= j < p ==> !ShortcodeAt(s, j)
    ensures ExtractShortcode(s) == Some(code)
  {
    ShortcodeFromFirst(s, 0, p);
  }

  /**
   * No `/` of the prefix is followed by `p` or `r`, so no kind segment can
   * start inside it, whatever follows: true of `https://www.instagram.com`.
   */
  predicate NoKindStart(prefix: string)
  {
    forall j :: 0 <= j < |prefix| - 1 && prefix[j] == '/' ==> prefix[j + 1] != 'p' && prefix[j + 1] != 'r'
  }

  /** No match starts inside such a prefix when a `/` follows it. */
  lemma NoShortcodeInPrefix(s: string, prefix: string)
    requires prefix <= s && NoKindStart(prefix)
    requires |prefix| < |s| && s[|prefix|] == '/'
    ensures forall j :: 0 <= j < |prefix| ==> !ShortcodeAt(s, j)
  {
    forall j | 0 <= j < |prefix| ensures !ShortcodeAt(s, j) {
      assert s[j] == prefix[j];
      if j + 1 < |prefix| {
        assert s[j + 1] == prefix[j + 1];
      }
      if KindEnd(s, j).Some? {
        KindEndSlash(s, j);
      }
    }
  }

  lemma InstagramHostHasNoKindStart()
    ensures NoKindStart("https://www.instagram.com")
  {
    var host := "https://www.instagram.com";
    forall j | 0 <= j < |host| - 1 && host[j] == '/' ensures host[j + 1] != 'p' && host[j + 1] != 'r' {
      assert j == 6 || j == 7;
    }
  }

  /** A post URL on `https://www.instagram.com` gives back its code. */
  lemma ShortcodeOfInstagramUrl(kind: string, code: string, rest: string)
    requires IsPostKind(kind)
    requires code != [] && forall k :: 0 <= k < |code| ==> IsCodeChar(code[k])
    requires rest == [] || !IsCodeChar(rest[0])
    ensures ExtractShortcode("https://www.instagram.com" + "/" + kind + "/" + code + rest) == Some(code)
  {
    InstagramHostHasNoKindStart();
    ShortcodeOfPostUrl("https://www.instagram.com", kind, code, rest);
  }

  /** A code followed by a non-code character (or the end) is the whole run of code characters. */
  lemma CodeFollows(head: string, code: string, rest: string)
    requires code != [] && forall k :: 0 <= k < |code| ==> IsCodeChar(code[k])
    requires rest == [] || !IsCodeChar(rest[0])
    ensures var s := head + code + rest;
            var b := |head|;
            b < |s| && IsCodeChar(s[b]) && CodeEnd(s, b) == b + |code| && s[b..CodeEnd(s, b)] == code
  {
    var s := head + code + rest;
    var b := |head|;
    forall k | b <= k < b + |code| ensures IsCodeChar(s[k]) {
      assert s[k] == code[k - b];
    }
    assert b + |code| == |s| || s[b + |code|] == rest[0];
    CodeEndIs(s, b, b + |code|);
    assert s[b..b + |code|] == code;
  }

  lemma KindEndSlash(s: string, i: nat)
    requires KindEnd(s, i).Some?
    ensures i + 1 < |s| && s[i] == '/' && (s[i + 1] == 'p' || s[i + 1] == 'r')
  {
    if OccursAt(s, "/p/", i) {
      assert s[i..i + 3][0] == s[i] && s[i..i + 3][1] == s[i + 1];
    } else if OccursAt(s, "/reels/", i) {
      assert s[i..i + 7][0] == s[i] && s[i..i + 7][1] == s[i + 1];
    } else {
      assert s[i..i + 6][0] == s[i] && s[i..i + 6][1] == s[i + 1];
    }
  }

  lemma {:induction false} CodeEndIs(s: string, j: nat, e: nat)
    requires j <= e <= |s|
    requires forall k :: j <= k < e ==> IsCodeChar(s[k])
    requires e == |s| || !IsCodeChar(s[e])
    ensures CodeEnd(s, j) == e
    decreases e - j
  {
    if j < e {
      CodeEndIs(s, j + 1, e);
    }
  }

  /** A URL without any `/` has no shortcode. */
  lemma NoSlashNoShortcode(postUrl: string)
    requires '/' !in postUrl
    ensures ExtractShortcode(postUrl).None?
  {
    forall i | 0 <= i < |postUrl| ensures !ShortcodeAt(postUrl, i) {
      if KindEnd(postUrl, i).Some? {
        KindEndSlash(postUrl, i);
      }
    }
  }

  /** `media.find(m => m.shortcode === shortcode)`. */
  function FindMedia(media: seq<Media>, code: string): (r: Option<Media>)
    ensures r.None? <==> forall i :: 0 <= i < |media| ==> media[i].shortcode != code
    ensures r.Some? ==> r.value in media && r.value.shortcode == code
  {
    if media == [] then None
    else if media[0].shortcode == code then Some(media[0])
    else
      assert forall i :: 1 <= i < |media| ==> media[i] == media[1..][i - 1];
      FindMedia(media[1..], code)
  }

  /**
   * What the API path yields: `None` when there is no token or account
   * (`api` is `None`), when the URL has no shortcode, or when the post is
   * not among the account's recent media.
   */
  function ApiCommenters(postUrl: string, api: Option<seq<Media>>): Option<seq<string>>
  {
    if api.None? then None
    else match ExtractShortcode(postUrl)
      case None => None
      case Some(code) =>
        match FindMedia(api.value, code)
        case None => None
        case Some(m) => Some(Dedup(ApiCandidates(Flatten(m.pages))))
  }

  /** `getCommentersAPI` after the account lookup: shortcode, media search, then the comment loop. */
  method GetCommentersApi(postUrl: string, api: Option<seq<Media>>) returns (commenters: Option<seq<string>>)
    ensures commenters == ApiCommenters(postUrl, api)
  {
    if api.None? {
      return None;
    }
    var shortcodeMatch := ExtractShortcode(postUrl);
    if shortcodeMatch.None? {
      return None;
    }
    var media := FindMedia(api.value, shortcodeMatch.value);
    if media.None? {
      return None;
    }
    var found := CommentersFromPages(media.value.pages);
    commenters := Some(found);
  }

  // ---------------------------------------------------------------------
  // Page-scraping path (`scrapeCommenters`)
  // ---------------------------------------------------------------------

  /** `new Set(competitorsList.map(c => c.toLowerCase()))`. */
  function LowerSet(cs: seq<string>): set<string>
  {
    set c | c in cs :: Lower(c)
  }

  /** The `page.evaluate` callback of `scrapeCommenters`, then `new Set(usernames)`. */
  method ScrapeCommenters(spans: seq<Span>, competitorsList: seq<string>) returns (commenters: seq<string>)
    ensures NoDups(commenters)
    ensures forall u :: u in commenters <==>
              exists i :: 0 <= i < |spans| && CommentCandidate(spans[i], ServerPick, LowerSet(competitorsList)) == Some(u)
    ensures commenters == Dedup(Candidates(spans, ServerPick, LowerSet(competitorsList)))
  {
    var usernames := CollectCandidates(spans, ServerPick, LowerSet(competitorsList));
    DedupOfDistinct(usernames);
    commenters := Dedup(usernames);
    forall u ensures u in commenters <==>
        exists i :: 0 <= i < |spans| && CommentCandidate(spans[i], ServerPick, LowerSet(competitorsList)) == Some(u)
    {
      CandidatesMembers(spans, ServerPick, LowerSet(competitorsList), u);
    }
  }

  /**
   * A scraped candidate is a well-formed, non-reserved handle that is no
   * competitor, and its comment names two other distinct users.
   */
  lemma ScrapedCandidateGuarantees(span: Span, competitorsList: seq<string>, u: string)
    requires CommentCandidate(span, ServerPick, LowerSet(competitorsList)) == Some(u)
    ensures IsHandle(u) && u !in Reserved
    ensures forall c :: c in competitorsList ==> Lower(c) != Lower(u)
    ensures exists a, b :: a in UniqueMentions(span.text) && b in UniqueMentions(span.text) && a != b
                           && a !in LowerSet(competitorsList) && b !in LowerSet(competitorsList)
                           && a != Lower(u) && b != Lower(u)
  {
    CandidateGuarantees(span, ServerPick, LowerSet(competitorsList), u);
    ServerAuthorWellFormed(span.ancestors);
  }

  // ---------------------------------------------------------------------
  // Follow decision (`analyzeUser`)
  // ---------------------------------------------------------------------

  /** What the candidate's profile page shows: the private-account notice and the embedded user id. */
  datatype Profile = Profile(isPrivate: bool, userId: Option<string>)

  /**
   * The `friendships/<id>/following/?query=<term>` endpoint: the usernames
   * it returns for a user id and query, or `None` when the request or its
   * decoding fails or the answer has no `users`.
   */
  type FollowingLookup = (string, string) -> Option<seq<string>>

  /** The query term: the first 12 characters of the competitor. */
  function QueryTerm(comp: string): (term: string)
    ensures term <= comp
    ensures |term| == if |comp| > 12 then 12 else |comp|
  {
    if |comp| > 12 then comp[..12] else comp
  }

  /** The lookup for the query term returns the competitor itself, compared case-insensitively. */
  predicate FollowsOn(lookup: FollowingLookup, userId: string, comp: string)
  {
    match lookup(userId, QueryTerm(comp))
    case None => false
    case Some(users) => exists u :: u in users && Lower(u) == Lower(comp)
  }

  function FollowedBy(lookup: FollowingLookup, userId: string): string -> bool
  {
    comp => FollowsOn(lookup, userId, comp)
  }

  /** The candidate passes: a public profile with an id that follows every sanitised competitor. */
  predicate Follows(page: Option<Profile>, competitors: seq<string>, lookup: FollowingLookup)
  {
    && page.Some? && !page.value.isPrivate && page.value.userId.Some?
    && forall c :: c in Sanitize(competitors) ==> FollowsOn(lookup, page.value.userId.value, c)
  }

  /**
   * `analyzeUser`. `page` is `None` when navigating to the profile throws.
   * Every sanitised competitor is probed, in order (`probed`), and the
   * answer is the comparison of the match count with the list's length.
   */
  method AnalyzeUser(page: Option<Profile>, competitors: seq<string>, lookup: FollowingLookup)
    returns (isMatch: bool, probed: seq<string>)
    ensures isMatch <==> Follows(page, competitors, lookup)
    ensures probed == if page.Some? && !page.value.isPrivate && page.value.userId.Some?
                      then Sanitize(competitors) else []
  {
    if page.None? || page.value.isPrivate || page.value.userId.None? {
      return false, [];
    }
    var userId := page.value.userId.value;
    var sanitizedCompetitors := Sanitize(competitors);
    var matches;
    matches, probed := ProbeCompetitors(userId, sanitizedCompetitors, lookup);
    isMatch := |matches| == |sanitizedCompetitors|;
    FilterKeepsAllMembers(sanitizedCompetitors, FollowedBy(lookup, userId));
  }

  /** The `for (const competitor of sanitizedCompetitors)` loop: every competitor is probed, and the followed ones are kept. */
  method ProbeCompetitors(userId: string, sanitizedCompetitors: seq<string>, lookup: FollowingLookup)
    returns (matches: seq<string>, probed: seq<string>)
    ensures matches == Filter(sanitizedCompetitors, FollowedBy(lookup, userId))
    ensures probed == sanitizedCompetitors
  {
    matches := [];
    probed := [];
    for k := 0 to |sanitizedCompetitors|
      invariant probed == sanitizedCompetitors[..k]
      invariant matches == Filter(sanitizedCompetitors[..k], FollowedBy(lookup, userId))
    {
      var competitor := sanitizedCompetitors[k];
      FilterPrefixStep(sanitizedCompetitors, k, FollowedBy(lookup, userId));
      probed := probed + [competitor];
      var isFollowing := FollowsOn(lookup, userId, competitor);
      if isFollowing {
        matches := matches + [competitor];
      }
    }
    assert sanitizedCompetitors[..|sanitizedCompetitors|] == sanitizedCompetitors;
  }

  /** One competitor the candidate does not follow rejects the candidate, whatever the others. */
  lemma OneMissRejects(page: Option<Profile>, competitors: seq<string>, lookup: FollowingLookup, miss: string)
    requires page.Some? && page.value.userId.Some?
    requires miss in Sanitize(competitors) && !FollowsOn(lookup, page.value.userId.value, miss)
    ensures !Follows(page, competitors, lookup)
  {
  }

  /** A private profile is rejected without any competitor being probed. */
  lemma PrivateRejected(isPrivate: bool, userId: Option<string>, competitors: seq<string>, lookup: FollowingLookup)
    requires isPrivate
    ensures !Follows(Some(Profile(isPrivate, userId)), competitors, lookup)
  {
  }

  // ---------------------------------------------------------------------
  // `startAnalysis`
  // ---------------------------------------------------------------------

  function IsNotCompetitor(competitorSet: set<string>): string -> bool
  {
    user => Lower(user) !in competitorSet
  }

  /** The loop over `Array.from(commenters)` that deletes every competitor from the set. */
  method RemoveCompetitors(commenters: seq<string>, competitors: seq<string>) returns (remaining: seq<string>)
    requires NoDups(commenters)
    ensures remaining == Filter(commenters, IsNotCompetitor(LowerSet(competitors)))
  {
    var competitorSet := LowerSet(competitors);
    var snapshot := commenters;
    remaining := commenters;
    for i := 0 to |snapshot|
      invariant remaining == Filter(snapshot[..i], IsNotCompetitor(competitorSet)) + snapshot[i..]
    {
      var user := snapshot[i];
      RemoveStep(snapshot, i, competitorSet);
      if Lower(user) in competitorSet {
        remaining := SetDelete(remaining, user);
      }
    }
    assert snapshot[..|snapshot|] == snapshot;
  }

  /** One turn of the removal loop: the user at `i` is deleted exactly when it is a competitor. */
  lemma RemoveStep(snapshot: seq<string>, i: nat, competitorSet: set<string>)
    requires NoDups(snapshot) && i < |snapshot|
    ensures var kept := Filter(snapshot[..i], IsNotCompetitor(competitorSet)) + snapshot[i..];
            Filter(snapshot[..i + 1], IsNotCompetitor(competitorSet)) + snapshot[i + 1..]
            == if Lower(snapshot[i]) in competitorSet then SetDelete(kept, snapshot[i]) else kept
  {
    var user := snapshot[i];
    var kept := Filter(snapshot[..i], IsNotCompetitor(competitorSet));
    FilterPrefixStep(snapshot, i, IsNotCompetitor(competitorSet));
    assert snapshot[i..] == [user] + snapshot[i + 1..];
    assert kept + snapshot[i..] == kept + [user] + snapshot[i + 1..];
    if Lower(user) in competitorSet {
      NoDupsSplit(snapshot, i);
      SetDeleteOnce(kept, user, snapshot[i + 1..]);
    }
  }

  /** After the removal no commenter equals a competitor, ignoring case, and nobody else is lost. */
  lemma RemovedCompetitorsExact(commenters: seq<string>, competitors: seq<string>, u: string)
    ensures u in Filter(commenters, IsNotCompetitor(LowerSet(competitors))) <==>
            u in commenters && forall c :: c in competitors ==> Lower(c) != Lower(u)
  {
  }

  function Qualifies(profiles: string -> Option<Profile>, competitors: seq<string>, lookup: FollowingLookup): string -> bool
  {
    user => Follows(profiles(user), competitors, lookup)
  }

  /** The `for (const user of commenters)` loop: check each user in turn and keep those who follow everyone. */
  method QualifyAll(commenters: seq<string>, competitors: seq<string>,
                    profiles: string -> Option<Profile>, lookup: FollowingLookup)
    returns (qualifiedUsers: seq<string>)
    ensures qualifiedUsers == Filter(commenters, Qualifies(profiles, competitors, lookup))
  {
    qualifiedUsers := [];
    for i := 0 to |commenters|
      invariant qualifiedUsers == Filter(commenters[..i], Qualifies(profiles, competitors, lookup))
    {
      var user := commenters[i];
      FilterPrefixStep(commenters, i, Qualifies(profiles, competitors, lookup));
      var isMatch, _ := AnalyzeUser(profiles(user), competitors, lookup);
      if isMatch {
        qualifiedUsers := qualifiedUsers + [user];
      }
    }
    assert commenters[..|commenters|] == commenters;
  }

  /** The outcome of a run as `onResult` reports it (the duration is left out). */
  datatype RunResult = Won(winner: string, qualified: seq<string>) | Failed(error: string)

  /** The end of the run: a drawn winner among the qualified users, or the "no qualified users" error. */
  function Conclude(qualifiedUsers: seq<string>, rand: real): (r: RunResult)
    requires 0.0 <= rand < 1.0
    ensures r.Won? <==> qualifiedUsers != []
    ensures r.Won? ==> r.winner in qualifiedUsers && r.qualified == qualifiedUsers
    ensures r.Failed? ==> r.error == "No qualified users found."
  {
    if |qualifiedUsers| > 0 then
      var winnerIndex := DrawIndex(rand, |qualifiedUsers|);
      Won(qualifiedUsers[winnerIndex], qualifiedUsers)
    else Failed("No qualified users found.")
  }

  /** The draw decides the winner: index `i` of the qualified list is chosen by every draw in `[i/n, (i+1)/n)`. */
  lemma DrawSelectsIndex(qualifiedUsers: seq<string>, rand: real, i: nat)
    requires 0.0 <= rand < 1.0 && i < |qualifiedUsers|
    requires (i as real) <= rand * (|qualifiedUsers| as real) < (i as real) + 1.0
    ensures Conclude(qualifiedUsers, rand) == Won(qualifiedUsers[i], qualifiedUsers)
  {
  }

  /** How the page-scraping step ends. */
  datatype ScrapeOutcome =
    | LaunchFailed(message: string)   // `puppeteer.launch` threw
    | ScrapeFailed                    // login check or scraping threw
    | Scraped(spans: seq<Span>)       // the comment spans found on the loaded post

  datatype Config = Config(postUrl: string, competitors: seq<string>)

  /** The commenters the run goes on with: the API's when it answered, else the scrape's. */
  function CollectedCommenters(config: Config, api: Option<seq<Media>>, scrape: ScrapeOutcome): Option<seq<string>>
  {
    var fromApi := ApiCommenters(config.postUrl, api);
    if fromApi.Some? then fromApi
    else if scrape.Scraped? then Some(Dedup(Candidates(scrape.spans, ServerPick, LowerSet(config.competitors))))
    else None
  }

  /**
   * `startAnalysis` without the browser and file-system plumbing. `api` is
   * `None` without a token or linked account; `analysisLaunch` is the error
   * message when the second browser fails to start; `profiles` and `lookup`
   * stand for the pages and endpoint the follow check reads; `rand` is the
   * random draw. The result is `None` when `onResult` is never called.
   */
  method StartAnalysis(config: Config, api: Option<seq<Media>>, scrape: ScrapeOutcome,
                       analysisLaunch: Option<string>, profiles: string -> Option<Profile>,
                       lookup: FollowingLookup, rand: real)
    returns (result: Option<RunResult>)
    requires 0.0 <= rand < 1.0
    ensures result.None? <==> ApiCommenters(config.postUrl, api).None? && scrape.ScrapeFailed?
    ensures ApiCommenters(config.postUrl, api).None? && scrape.LaunchFailed? ==> result == Some(Failed(scrape.message))
    ensures CollectedCommenters(config, api, scrape) == Some([]) ==> result == Some(Failed("No valid commenters found."))
    ensures (CollectedCommenters(config, api, scrape).Some? && |CollectedCommenters(config, api, scrape).value| > 0
             && analysisLaunch.Some?) ==> result == Some(Failed(analysisLaunch.value))
    ensures (CollectedCommenters(config, api, scrape).Some? && |CollectedCommenters(config, api, scrape).value| > 0
             && analysisLaunch.None?) ==>
              result == Some(Conclude(Filter(Filter(CollectedCommenters(config, api, scrape).value,
                                                    IsNotCompetitor(LowerSet(config.competitors))),
                                             Qualifies(profiles, config.competitors, lookup)), rand))
    ensures result.Some? && result.value.Won? ==>
              && CollectedCommenters(config, api, scrape).Some?
              && analysisLaunch.None?
              && result.value.winner in result.value.qualified
              && result.value.qualified
                 == Filter(Filter(CollectedCommenters(config, api, scrape).value, IsNotCompetitor(LowerSet(config.competitors))),
                           Qualifies(profiles, config.competitors, lookup))
  {
    var commenters := GetCommentersApi(config.postUrl, api);
    if commenters.None? {
      match scrape
      case LaunchFailed(message) =>
        return Some(Failed(message));
      case ScrapeFailed =>
        return None;
      case Scraped(spans) =>
        var scraped := ScrapeCommenters(spans, config.competitors);
        commenters := Some(scraped);
    }
    if |commenters.value| == 0 {
      return Some(Failed("No valid commenters found."));
    }
    if analysisLaunch.Some? {
      return Some(Failed(analysisLaunch.value));
    }
    var remaining := RemoveCompetitors(commenters.value, config.competitors);
    var qualifiedUsers := QualifyAll(remaining, config.competitors, profiles, lookup);
    result := Some(Conclude(qualifiedUsers, rand));
  }

  /** Every qualified user of a won run follows every competitor and is not one of them. */
  lemma WinnerQualified(remainingCommenters: seq<string>, competitors: seq<string>,
                        profiles: string -> Option<Profile>, lookup: FollowingLookup, u: string)
    requires u in Filter(Filter(remainingCommenters, IsNotCompetitor(LowerSet(competitors))),
                         Qualifies(profiles, competitors, lookup))
    ensures u in remainingCommenters
    ensures forall c :: c in competitors ==> Lower(c) != Lower(u)
    ensures Follows(profiles(u), competitors, lookup)
  {
  }
}
