# insta-giveaway-picker in Dafny

A Dafny model of the decision logic of insta-giveaway-picker. The tool picks
a random winner among the commenters of an Instagram post who tagged two
friends and follow every "competitor" account. The same logic exists in two
places, and the model covers both:

- the Node server: `src/server/analyzer.ts` and `src/server/index.ts`;
- the Chrome extension: `chrome-extension/content.js` and `chrome-extension/background.js`.

The model is split into modules:

- `Mentions` (mentions.dfy): the mention scanner for `@[a-zA-Z0-9_.]+`, written as an explicit scanner. After each `@` it takes the longest non-empty run of handle characters. It also lower-cases and de-duplicates the mentions and defines the "at least two tags" threshold.
- `Competitors` (competitors.dfy): JavaScript's `split(/[\s,]+/)` with its empty leading and trailing fields, and `trim`. On top of these sit the analyzer's `sanitizedCompetitors` and the server's `compsArray`.
- `Authors` (authors.dfy): the walk up the ancestors of a comment, at most six steps and stopping at `UL`. It has two link rules: the server's `^/name/?$` rule with its reserved routes, and the extension's rule that strips every `/`.
- `Comments` (comments.dfy): the per-comment candidate rule both scrape paths share, and the loop that collects candidates into an insertion-ordered set.
- `Analyzer` (analyzer.dfy) models the server's analyzer:
  - the Graph API comment loop and shortcode extraction;
  - the scrape path;
  - the follow decision of `analyzeUser`;
  - competitor removal, the qualifying loop and the winner;
  - `startAnalysis` as a whole.
- `Server` (server.dfy) models the socket handlers of the server:
  - admission control (busy, access code, missing input);
  - a `Scheduler` class holding `activeScans`, `serverStats` and `activeSessions`;
  - the two admin-code gates;
  - the missing-permission filter.
- `Content` (content.dfy): the content script. It has the `isScraping` guard, the extension scrape and `checkUserFollows`: the retry loop for the Following link, the dialog and search box, and one probe per competitor.
- `Background` (background.dfy): the background script's `state` record as a `RunState` class, its message handlers, `processNext`, `pickWinner` and the `onUpdated` dispatch guard.
- `Seqs`, `Strings`, `Draw`, `Wrappers`: JavaScript's `Set` as a duplicate-free sequence, `Array.prototype.filter`, ASCII `toLowerCase`, the `\s` character class, `includes`, and `Math.floor(Math.random() * n)` with the random number passed in.

JavaScript semantics the model keeps:

- An insertion-ordered `Set` is a sequence without duplicates. `add` appends an element only when it is new. `delete` removes the one occurrence.
- Environment variables, `result.error` and tab ids are tested for truthiness. An empty string or a tab id of `0` counts as false.
- `state.candidates[i]` past the end is `undefined`. `url.includes(undefined)` searches for the text `"undefined"`.
- Randomness, the clock and everything the browser or network answers are parameters: the draw `rand` in `[0, 1)`, the session id `now`, the comment spans, profile pages, dialogs and lookup results.

A scrape failure after the browser has launched logs the error and returns without calling `onResult` (`src/server/analyzer.ts:255-258`), so the caller gets no result and neither counter moves:

- `Analyzer.StartAnalysis` returns `None` in exactly that case.
- `Server` treats that as the `Silent` outcome, tracked by the ghost counter `silent` in `Server.Scheduler`.

## Model

| member | source | states |
|---|---|---|
| Mentions.MatchesFromExact | src/server/analyzer.ts:94 | A string is returned by the scanner exactly when an `@` at or after the start introduces it with a maximal non-empty run of `[a-zA-Z0-9_.]`. |
| Mentions.UniqueMentionsExact | src/server/analyzer.ts:94-97 | A lower-cased handle is among the unique mentions exactly when some `@` in the text introduces a run that lower-cases to it. |
| Mentions.UniqueMentionsWellFormed | src/server/analyzer.ts:94-97 | Every unique mention is non-empty, made of handle characters and has no upper-case letter. |
| Mentions.MentionsNeedAt | src/server/analyzer.ts:94 | A text with any mention contains `@`. |
| Mentions.TagsAtLeastTwoWitness | src/server/analyzer.ts:100 | After the exclusions, at least two unique mentions remain exactly when two distinct non-excluded mentions exist. |
| Mentions.QualifyingTextHasAt | src/server/analyzer.ts:100 | No text without `@` meets the threshold, whatever is excluded. |
| Competitors.Split | src/server/index.ts:319 | `split(/[\s,]+/)` always yields at least one field, and no field contains whitespace or a comma. |
| Competitors.SanitizeYieldsTokens | src/server/analyzer.ts:547-549 | Every sanitised competitor is non-empty and free of whitespace and commas. |
| Competitors.ParseIsSanitize | src/server/index.ts:318-321 | The server's split-trim-filter of the competitor string equals the analyzer's sanitising of the one-element list. |
| Competitors.ParseJoin | src/server/index.ts:318-321 | Joining tokens with commas and parsing gives back exactly those tokens, in order. |
| Competitors.SanitizeIdempotent | src/server/analyzer.ts:547-549 | Sanitising the sanitised list again changes nothing. |
| Competitors.TrimWithoutSpace | src/server/index.ts:320 | `trim` leaves a string without whitespace unchanged. |
| Authors.FirstLink | src/server/analyzer.ts:469-471 | `querySelector` yields the first selectable link, and `None` only when no link is selectable. |
| Authors.ProfilePath | src/server/analyzer.ts:474 | A matched href yields a non-empty run of `[a-zA-Z0-9_.]`. |
| Authors.ProfilePathOfHandle | src/server/analyzer.ts:474 | `/h` and `/h/` both yield `h` for every handle `h`. |
| Authors.ResolveAuthor | src/server/analyzer.ts:465-490 | The loop's author equals the walk's specification `WalkAuthor`. |
| Authors.WalkAuthorFirst | src/server/analyzer.ts:467-490 | The author is the pick of the first reachable ancestor that has one, and `""` when none has one. |
| Authors.WalkAuthorBounded | src/server/analyzer.ts:467-468 | Ancestors past the sixth or past the first `UL` never influence the author. |
| Authors.ServerAuthorWellFormed | src/server/analyzer.ts:474-486 | A server author is a well-formed handle that is not a reserved route. |
| Authors.ExtensionAuthorHasNoSlash | chrome-extension/content.js:68-72 | An extension author never contains `/`. |
| Comments.CollectCandidates | src/server/analyzer.ts:456-505 | The `forEach` loop's set equals the de-duplicated candidates of the spans in page order. |
| Comments.CandidatesMembers | src/server/analyzer.ts:461-503 | A user is collected exactly when some span makes that user a candidate. |
| Comments.CandidateGuarantees | src/server/analyzer.ts:463-502 | A candidate's text has `@` and at least 5 characters. The candidate is the resolved non-empty author and no competitor. Two distinct mentions remain that are neither competitors nor the author. |
| Comments.CandidateFromMentions | src/server/analyzer.ts:492-502 | Conversely, such an author with two such mentions is a candidate. |
| Comments.UnreadableNeverCandidate | src/server/analyzer.ts:463 | Text without `@` or shorter than 5 characters never yields a candidate. |
| Analyzer.CommentersFromPages | src/server/analyzer.ts:82-106 | The page loop and comment loop build the de-duplicated authors of API-qualifying comments over all pages, in fetch order. |
| Analyzer.ApiCommentersExact | src/server/analyzer.ts:89-102 | A user is collected on the API path exactly when some comment on some page has that author and two distinct mentions besides the author. Competitors are not removed on this path. |
| Analyzer.ShortcodeFrom | src/server/analyzer.ts:63-68 | The result is the code of the leftmost match of `/(p|reels|reel)/([A-Za-z0-9_-]+)`, and `None` exactly when nothing matches. |
| Analyzer.ShortcodeOfPostUrl | src/server/analyzer.ts:63-68 | For a prefix in which no `/` is followed by `p` or `r`, then `/p/`, `/reels/` or `/reel/`, a code, and a non-code character or the end, the extracted shortcode is that code. |
| Analyzer.ShortcodeOfInstagramUrl | src/server/analyzer.ts:63-68 | Every post or reel URL on `https://www.instagram.com` gives back its code, whatever non-code text follows it (such as `/` or `?igsh=…`). |
| Analyzer.NoSlashNoShortcode | src/server/analyzer.ts:63-66 | A URL without `/` yields no shortcode. |
| Analyzer.FindMedia | src/server/analyzer.ts:74-79 | The result is a recent media item with that shortcode, and `None` exactly when there is none. |
| Analyzer.GetCommentersApi | src/server/analyzer.ts:57-108 | The result is `None` without an account, without a shortcode or when the post is not among the recent media. Otherwise it is the API commenters of that post. |
| Analyzer.ScrapeCommenters | src/server/analyzer.ts:456-507 | The scraped set is duplicate-free, and a user is in it exactly when some span makes that user a candidate under the server rule with the lower-cased competitors. |
| Analyzer.ScrapedCandidateGuarantees | src/server/analyzer.ts:465-502 | A scraped user is a non-reserved handle and no competitor, case-insensitively. Its comment names two other distinct users who are not competitors. |
| Analyzer.QueryTerm | src/server/analyzer.ts:559 | The query is a prefix of the competitor with at most 12 characters. It is the whole name when the name is no longer. |
| Analyzer.AnalyzeUser | src/server/analyzer.ts:516-599 | The user matches exactly when the profile loaded, is public and has a user id, and every sanitised competitor is found case-insensitively in its lookup. Once an id is found, every sanitised competitor is probed in order. |
| Analyzer.ProbeCompetitors | src/server/analyzer.ts:551-594 | Every sanitised competitor is probed once, in order, and the matches are exactly those the user is found to follow, in the same order. |
| Analyzer.OneMissRejects | src/server/analyzer.ts:595 | One sanitised competitor not followed rejects the user, whatever the others give. |
| Analyzer.PrivateRejected | src/server/analyzer.ts:521-527 | A private profile is rejected. |
| Analyzer.RemoveCompetitors | src/server/analyzer.ts:291-299 | Deleting during the iteration over a snapshot leaves exactly the commenters whose lower-cased name is no competitor, in order. |
| Analyzer.RemovedCompetitorsExact | src/server/analyzer.ts:291-299 | After removal, a user remains exactly when it was a commenter and equals no competitor case-insensitively. |
| Analyzer.QualifyAll | src/server/analyzer.ts:304-319 | The qualified list is the commenters, in order, that pass the follow decision. |
| Analyzer.Conclude | src/server/analyzer.ts:327-342 | A non-empty qualified list yields a winner from it together with the list. An empty list yields the error "No qualified users found.". |
| Analyzer.DrawSelectsIndex | src/server/analyzer.ts:328-329 | The draw `rand` with `i <= rand * n < i + 1` picks the qualified user at index `i`. |
| Analyzer.StartAnalysis | src/server/analyzer.ts:205-347 | The call is silent exactly when the API has no answer and the scrape fails. A first launch failure reports its message. An empty commenter set reports "No valid commenters found.". With commenters, a failed second launch reports its message; otherwise the result is exactly the draw over the commenters that are not competitors and pass the follow decision, so the run is won exactly when that list is non-empty. A won run's winner lies in its qualified list, and that list is the competitor-free commenters that pass the follow decision. |
| Analyzer.WinnerQualified | src/server/analyzer.ts:294-319 | Every qualified user was a commenter, is no competitor and follows every competitor. |
| Draw.DrawIndex | src/server/analyzer.ts:328 | `Math.floor(rand * n)` lies in `[0, n)`. |
| Draw.DrawCoversEveryIndex | src/server/analyzer.ts:328 | Every index in `[0, n)` is drawn by some `rand` in `[0, 1)`. |
| Server.VerifyAccessCode | src/server/index.ts:255-262 | Access is granted only for a non-empty code that equals `ADMIN_CODE || ACCESS_CODE`. |
| Server.StatsAccess | src/server/index.ts:265-270 | Stats are granted only for a non-empty code that equals `ADMIN_CODE`. |
| Server.AccessCodeFallback | src/server/index.ts:256-257 | Without `ADMIN_CODE`, exactly `ACCESS_CODE` grants admin access, and it never opens the stats. |
| Server.AdminCodeTakesPrecedence | src/server/index.ts:256-267 | With `ADMIN_CODE` set, both gates accept exactly that code. |
| Server.StatsAccessImpliesAdminAccess | src/server/index.ts:256-267 | Every code the stats gate accepts is also accepted by `verify-access-code`. |
| Server.NoCodesNoAccess | src/server/index.ts:256-267 | With neither code set, both gates refuse every code. |
| Server.AdminVerificationExamples | tests/index.test.ts:82-114 | With only `ACCESS_CODE` = "secret123", "secret123" is granted and "wrong-code" is refused. |
| Server.GrantedPermissions | src/server/index.ts:55-57 | A permission is listed exactly when some entry grants it. |
| Server.MissingPermissionsExact | src/server/index.ts:105-106 | A permission is missing exactly when it is required and no entry grants it. |
| Server.NothingMissing | src/server/index.ts:105-113 | Nothing is missing exactly when every required permission is granted. |
| Server.ImmediateResult | src/server/index.ts:294-316 | Busy and denied requests get an error result at once. A request with missing input gets none. |
| Server.OutcomeCountedOnce | src/server/index.ts:342-352 | A finished job bumps at most one of `success` and `failed`. It bumps neither only when no result was reported and nothing was thrown. |
| Server.FindSession | src/server/index.ts:355 | `findIndex` gives the first session with the id, and -1 exactly when there is none. |
| Server.RemoveFirstLength | src/server/index.ts:355-356 | Removing a session whose id is present shortens the list by exactly one. |
| Server.Splice | src/server/index.ts:355-356 | Splicing at the index `findIndex` returns removes the first session with the id and nothing else, so the list shrinks by one. |
| Server.RemoveFirstDropsOne | src/server/index.ts:355-356 | The splice removes exactly one session, the first one carrying the id. |
| Server.RemoveAfterPush | src/server/index.ts:334-356 | Pushing a session with a fresh id and removing that id restores the list. |
| Server.Scheduler.constructor | src/server/index.ts:223-233 | The counters start at zero and the session list is empty. |
| Server.Scheduler.StartAnalysis | src/server/index.ts:292-336 | Each rejection happens exactly in its case, checked in order: `Busy` exactly when three scans run, `AccessDenied` exactly when a wrong code is given while `ACCESS_CODE` is set, `MissingInput` exactly when either field is falsy after both gates pass. Each leaves all state unchanged. Admission increments `activeScans` and `totalScans` once and pushes one session with the parsed competitor count. It keeps `activeScans == |activeSessions| <= 3`. |
| Server.Scheduler.Finish | src/server/index.ts:338-358 | An error result or an exception bumps `failed`, any other result bumps `success`. `activeScans` drops by one, and the first session with the job's id is removed. Every admitted job stays counted exactly once. |
| Server.Scheduler.GetAdminStats | src/server/index.ts:265-290 | The stats are returned exactly when the admin code matches, and "Invalid Admin Code" otherwise. They report at most 3 active scans, one session per active scan, and no more finished jobs than started. |
| Server.RunJob | src/server/index.ts:292-358 | An admitted job with a fresh id returns the server to its previous load and sessions. It adds one started job, and one counted result if it reported one. |
| Content.ContentScript.constructor | chrome-extension/content.js:2 | The content script starts not scraping. |
| Content.ContentScript.OnMessage | chrome-extension/content.js:4-13 | A scrape starts only when none is running, and it sets `isScraping` at once. A follow check is always accepted. |
| Content.ContentScript.ScrapeComments | chrome-extension/content.js:54-90 | The sent users are the de-duplicated extension candidates of the spans. `isScraping` is cleared, and exactly one `scrapeDone` is sent. |
| Content.ExtensionCandidateGuarantees | chrome-extension/content.js:58-86 | An extension candidate is non-empty, has no `/` and is no trimmed lower-cased competitor. Its text has `@` and at least 5 characters and names two other non-competitor users. |
| Content.SearchTerm | chrome-extension/content.js:153 | The typed term is a prefix of the name. It is the whole name up to 5 characters, and otherwise 3 characters shorter and at least 3 long. |
| Content.FollowingLinkFound | chrome-extension/content.js:108-110 | The three selectors find a link exactly when some href ends in `/following/`. |
| Content.FindDialog | chrome-extension/content.js:128-129 | The result is the first dialog showing "Following" or holding the search input, and `None` exactly when there is none. |
| Content.PollFollowingLink | chrome-extension/content.js:104-114 | The link is found exactly when one of the ten polls finds it, and it ends in `/following/`. |
| Content.SearchCompetitors | chrome-extension/content.js:144-170 | Every competitor's term is typed in order, and the matches are exactly the competitors whose `/<lower-cased name>/` link shows. |
| Content.ContentScript.CheckUserFollows | chrome-extension/content.js:93-174 | The check succeeds exactly when the profile is public, the Following link shows within ten polls, the found dialog has a search box, and every competitor shows. Every path the model covers sends exactly one `followResult`. |
| Content.FailurePaths | chrome-extension/content.js:97-142 | A private profile, a missing link, a missing dialog or a missing search box each fail the check. |
| Background.PickWinner | chrome-extension/background.js:136-139 | The result is `null` exactly when `qualified` is empty, and otherwise a member of it. |
| Background.EveryQualifiedCanWin | chrome-extension/background.js:138 | Every qualified user wins for some draw. |
| Background.RunState.constructor | chrome-extension/background.js:2-12 | The initial state is inactive and empty. |
| Background.RunState.StartAnalysis | chrome-extension/background.js:21-33 | The state is reset: active, no candidates, no qualified users, no winner, index 0, no worker tab. The log holds only the start line. |
| Background.RunState.AddLog | chrome-extension/background.js:14-18 | Exactly one entry is appended and nothing else changes. |
| Background.RunState.StartScrapeAnswered | chrome-extension/background.js:35-44 | One attempt to start the scrape logs whether the page answered and changes nothing else. |
| Background.RunState.ProcessNext | chrome-extension/background.js:111-134 | The run finishes, inactive with `pickWinner`'s result as winner, exactly when the index is past the candidates. Otherwise it targets `candidates[currentIndex]`. |
| Background.RunState.TabCreated | chrome-extension/background.js:131-133 | The created tab becomes the worker tab. |
| Background.RunState.ScrapeDone | chrome-extension/background.js:48-58 | The candidates are set and the index restarts at 0. No candidates makes the run inactive; otherwise the first candidate is targeted. |
| Background.RunState.FollowResult | chrome-extension/background.js:60-76 | A success appends exactly that user to `qualified`. A tab is closed only when there is a truthy worker tab, and the index does not move here. |
| Background.RunState.WorkerClosed | chrome-extension/background.js:70-74 | The worker tab is forgotten and the index advances by one. Past the last candidate the run stops, draws the winner and logs it; otherwise the next candidate is targeted, the winner is kept, and exactly one `Checking` entry is logged. |
| Background.RunState.Relay | chrome-extension/background.js:78-80 | A relayed message is appended to the log. |
| Background.RunState.StopAnalysis | chrome-extension/background.js:86-93 | The run goes inactive, and a truthy worker tab is closed and forgotten. |
| Background.RunState.OnTabUpdated | chrome-extension/background.js:98-109 | `checkFollows` goes out exactly when the run is active, the completed tab is the worker tab, and its URL contains the current candidate (or "undefined" past the end). |
| Background.StopThenFollowResult | chrome-extension/background.js:60-92 | After a stop, a follow result closes no tab and leaves the index unchanged. |
| Background.RunAllCandidates | chrome-extension/background.js:48-134 | Answering every candidate in turn checks each once, in order. `qualified` gains exactly those that passed, and the run ends inactive with a winner drawn from `qualified`. |

## Left out

- `Content.ContentScript.CheckUserFollows`: a competitor or username containing `"` makes the `querySelector` selector built at `chrome-extension/content.js:108-109` or `chrome-extension/content.js:163` invalid, so the call throws; `checkUserFollows` has no `try`, so no `followResult` is sent and the background run waits on the open worker tab forever. The model treats every DOM query as succeeding.
- Browser automation is not modelled: launching, navigation, request interception, login detection, and the load-more and scroll loops. The comment spans, profile pages and dialogs they produce are parameters.
- The temporary session directory is not modelled: cloning it, deleting it, and the first-run check. This is file-system I/O.
- The Graph API transport is not modelled: the account lookup with its `MANUAL_PAGE_ID` fallback, the media request, and paging over `paging.next`. A missing token, a missing account and any failed request all become `api == None`. A request that fails after some pages have been read also counts as `None`.
- The `/auth/debug` HTML, the OAuth redirect and callback, and the `auth-status` and `open-login` socket events are not modelled; only the permission filters are kept.
- socket.io and `chrome.runtime`/`chrome.tabs` messaging are not modelled. The `sendStart` retry timer, the three-second hydration delay and every `sleep` are left out too. Log lines carry no time stamp.
- `Math.random`, `Date.now` and run durations are parameters (`rand`, `now`) or left out. The draw is modelled exactly as `Math.floor(rand * n)`; whether it is uniform is not modelled.
- `toLowerCase` is modelled on ASCII letters only. String length counts characters, not UTF-16 code units.
- `Analyzer.AnalyzeUser` models the user-id regex, the CSRF cookie and the `fetch` of the friendships endpoint as the `Profile` and `FollowingLookup` parameters. A failed request or bad JSON is a lookup of `None`.
- `Server.Scheduler.Finish`: if `browser.close()` throws in the inner `finally` (`src/server/analyzer.ts:346-348`) after a result was reported, the outer `catch` (`src/server/analyzer.ts:349-351`) calls `onResult` a second time with the error, so the run reports twice and both `success` and `failed` go up; the model's outcomes are exclusive and count each job once.
- The `getState` message of the background script only answers with the state, so it is not modelled.
- `chrome-extension/popup.js` and `src/server/types.ts` hold UI and type shapes only, so they are not modelled.
