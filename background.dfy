/**
 * The extension's background script (`chrome-extension/background.js`):
 * the `state` record of a run and the handlers that drive it from the
 * scrape, through one worker tab per candidate, to the winner.
 */
module Background {
  import opened Wrappers
  import opened Strings
  import opened Draw

  /** A line of the run's log (the time prefix is left out). */
  datatype LogEntry =
    | Starting
    | WaitingForPage
    | PageReady
    | FoundCandidates(count: nat)
    | NoCandidates
    | QualifiedUser(user: string)
    | NotQualified(user: string)
    | Relayed(msg: string)
    | Stopped
    | Checking(user: string)
    | Finished(winner: Option<string>)
    | ProfileLoaded

  /** `pickWinner`: `null` for no qualified user, otherwise the drawn one. */
  function PickWinner(qualified: seq<string>, rand: real): (w: Option<string>)
    requires 0.0 <= rand < 1.0
    ensures w.None? <==> qualified == []
    ensures w.Some? ==> w.value in qualified
  {
    if |qualified| == 0 then None else Some(qualified[DrawIndex(rand, |qualified|)])
  }

  /** Every qualified user is the winner for some draw. */
  lemma EveryQualifiedCanWin(qualified: seq<string>, i: nat)
    requires i < |qualified|
    ensures exists rand :: 0.0 <= rand < 1.0 && PickWinner(qualified, rand) == Some(qualified[i])
  {
    DrawCoversEveryIndex(i, |qualified|);
    var rand := (i as real) / (|qualified| as real);
    assert PickWinner(qualified, rand) == Some(qualified[i]);
  }

  /** JavaScript truthiness of a tab id: set and not 0. */
  predicate TabTruthy(id: Option<int>)
  {
    id.Some? && id.value != 0
  }

  /** The `checkFollows` message sent to the worker tab. */
  datatype Dispatch = Dispatch(username: string, competitors: seq<string>)

  /** The global `state` of the background script. */
  class RunState {
    var active: bool
    var candidates: seq<string>
    var qualified: seq<string>
    var winner: Option<string>
    var currentIndex: nat
    var competitors: seq<string>
    var mainTabId: Option<int>
    var workerTabId: Option<int>
    var logs: seq<LogEntry>

    /** A picked winner is always one of the qualified users. */
    ghost predicate Valid()
      reads this
    {
      winner.Some? ==> winner.value in qualified
    }

    constructor ()
      ensures Valid()
      ensures !active && candidates == [] && qualified == [] && winner == None && currentIndex == 0
      ensures competitors == [] && mainTabId == None && workerTabId == None && logs == []
    {
      active := false;
      candidates := [];
      qualified := [];
      winner := None;
      currentIndex := 0;
      competitors := [];
      mainTabId := None;
      workerTabId := None;
      logs := [];
    }

    /** The `startAnalysis` message: a fresh state for the new run, whose log starts anew. */
    method StartAnalysis(requestCompetitors: seq<string>, tabId: Option<int>)
      modifies this
      ensures Valid()
      ensures active && candidates == [] && qualified == [] && winner == None && currentIndex == 0
      ensures competitors == requestCompetitors && mainTabId == tabId && workerTabId == None
      ensures logs == [Starting]
    {
      active := true;
      candidates := [];
      qualified := [];
      winner := None;
      currentIndex := 0;
      competitors := requestCompetitors;
      mainTabId := tabId;
      workerTabId := None;
      logs := [];
      AddLog(Starting);
    }

    /** `addLog`: the only way the log grows. */
    method AddLog(entry: LogEntry)
      modifies this
      ensures logs == old(logs) + [entry]
      ensures active == old(active) && candidates == old(candidates) && qualified == old(qualified)
      ensures winner == old(winner) && currentIndex == old(currentIndex) && competitors == old(competitors)
      ensures mainTabId == old(mainTabId) && workerTabId == old(workerTabId)
    {
      logs := logs + [entry];
    }

    /** The answer to one `startScrape` attempt of `sendStart`: the retry itself is left to the caller. */
    method StartScrapeAnswered(delivered: bool)
      modifies this
      ensures logs == old(logs) + [if delivered then PageReady else WaitingForPage]
      ensures active == old(active) && candidates == old(candidates) && qualified == old(qualified)
      ensures winner == old(winner) && currentIndex == old(currentIndex) && competitors == old(competitors)
      ensures mainTabId == old(mainTabId) && workerTabId == old(workerTabId)
    {
      if delivered {
        AddLog(PageReady);
      } else {
        AddLog(WaitingForPage);
      }
    }

    /**
     * `processNext`: past the last candidate the run ends with a winner
     * drawn from the qualified users; otherwise the current candidate's
     * profile is to be opened (`target`).
     */
    method ProcessNext(rand: real) returns (target: Option<string>)
      requires 0.0 <= rand < 1.0
      requires Valid()
      modifies this
      ensures Valid()
      ensures target.None? <==> old(currentIndex) >= |old(candidates)|
      ensures target.None? ==> !active && winner == PickWinner(qualified, rand)
                               && logs == old(logs) + [Finished(winner)]
      ensures target.Some? ==> currentIndex < |candidates| && target.value == candidates[currentIndex]
                               && active == old(active) && winner == old(winner)
                               && logs == old(logs) + [Checking(target.value)]
      ensures candidates == old(candidates) && qualified == old(qualified) && currentIndex == old(currentIndex)
      ensures competitors == old(competitors) && mainTabId == old(mainTabId) && workerTabId == old(workerTabId)
    {
      if currentIndex >= |candidates| {
        active := false;
        winner := PickWinner(qualified, rand);
        AddLog(Finished(winner));
        return None;
      }
      var username := candidates[currentIndex];
      AddLog(Checking(username));
      target := Some(username);
    }

    /** The callback of `chrome.tabs.create`: the new tab becomes the worker tab. */
    method TabCreated(tabId: int)
      modifies this
      ensures workerTabId == Some(tabId)
      ensures active == old(active) && candidates == old(candidates) && qualified == old(qualified)
      ensures winner == old(winner) && currentIndex == old(currentIndex) && competitors == old(competitors)
      ensures mainTabId == old(mainTabId) && logs == old(logs)
    {
      workerTabId := Some(tabId);
    }

    /**
     * The `scrapeDone` message: the candidates replace the old ones and the
     * index restarts; no candidate ends the run without a winner being
     * drawn, otherwise the first candidate is processed.
     */
    method ScrapeDone(users: seq<string>, rand: real) returns (target: Option<string>)
      requires 0.0 <= rand < 1.0
      requires Valid()
      modifies this
      ensures Valid()
      ensures candidates == users && currentIndex == 0
      ensures qualified == old(qualified) && competitors == old(competitors)
      ensures mainTabId == old(mainTabId) && workerTabId == old(workerTabId)
      ensures users == [] ==> target.None? && !active && winner == old(winner)
                              && logs == old(logs) + [FoundCandidates(0), NoCandidates]
      ensures users != [] ==> target == Some(users[0]) && active == old(active) && winner == old(winner)
                              && logs == old(logs) + [FoundCandidates(|users|), Checking(users[0])]
    {
      candidates := users;
      currentIndex := 0;
      AddLog(FoundCandidates(|candidates|));
      if |candidates| > 0 {
        target := ProcessNext(rand);
      } else {
        active := false;
        AddLog(NoCandidates);
        target := None;
      }
    }

    /**
     * The `followResult` message: a success appends exactly that user to
     * the qualified list; the worker tab is then closed only when there is
     * one (`closesWorker`), and only its closing moves the run on.
     */
    method FollowResult(username: string, success: bool) returns (closesWorker: bool)
      requires Valid()
      modifies this
      ensures Valid()
      ensures qualified == old(qualified) + (if success then [username] else [])
      ensures closesWorker <==> TabTruthy(workerTabId)
      ensures logs == old(logs) + [if success then QualifiedUser(username) else NotQualified(username)]
      ensures active == old(active) && candidates == old(candidates) && winner == old(winner)
      ensures currentIndex == old(currentIndex) && competitors == old(competitors)
      ensures mainTabId == old(mainTabId) && workerTabId == old(workerTabId)
    {
      if success {
        qualified := qualified + [username];
        AddLog(QualifiedUser(username));
      } else {
        AddLog(NotQualified(username));
      }
      closesWorker := TabTruthy(workerTabId);
    }

    /** The callback of `chrome.tabs.remove` after a follow result: forget the tab, advance, and go on. */
    method WorkerClosed(rand: real) returns (target: Option<string>)
      requires 0.0 <= rand < 1.0
      requires Valid()
      modifies this
      ensures Valid()
      ensures workerTabId == None && currentIndex == old(currentIndex) + 1
      ensures target.None? <==> old(currentIndex) + 1 >= |old(candidates)|
      ensures target.None? ==> !active && winner == PickWinner(qualified, rand)
                               && logs == old(logs) + [Finished(winner)]
      ensures target.Some? ==> currentIndex < |candidates| && target.value == candidates[currentIndex]
                               && active == old(active) && winner == old(winner)
                               && logs == old(logs) + [Checking(target.value)]
      ensures candidates == old(candidates) && qualified == old(qualified)
      ensures competitors == old(competitors) && mainTabId == old(mainTabId)
    {
      workerTabId := None;
      currentIndex := currentIndex + 1;
      target := ProcessNext(rand);
    }

    /** The `log` message relayed from a content script. */
    method Relay(msg: string)
      modifies this
      ensures logs == old(logs) + [Relayed(msg)]
      ensures active == old(active) && candidates == old(candidates) && qualified == old(qualified)
      ensures winner == old(winner) && currentIndex == old(currentIndex) && competitors == old(competitors)
      ensures mainTabId == old(mainTabId) && workerTabId == old(workerTabId)
    {
      AddLog(Relayed(msg));
    }

    /** The `stopAnalysis` message: the run goes inactive and forgets its worker tab (`closed` says whether one was closed). */
    method StopAnalysis() returns (closed: Option<int>)
      requires Valid()
      modifies this
      ensures Valid()
      ensures !active
      ensures closed == if TabTruthy(old(workerTabId)) then old(workerTabId) else None
      ensures workerTabId == if TabTruthy(old(workerTabId)) then None else old(workerTabId)
      ensures !TabTruthy(workerTabId)
      ensures logs == old(logs) + [Stopped]
      ensures candidates == old(candidates) && qualified == old(qualified) && winner == old(winner)
      ensures currentIndex == old(currentIndex) && competitors == old(competitors) && mainTabId == old(mainTabId)
    {
      active := false;
      closed := None;
      if TabTruthy(workerTabId) {
        closed := workerTabId;
        workerTabId := None;
      }
      AddLog(Stopped);
    }

    /**
     * The `onUpdated` listener: only a completed load of the worker tab of
     * an active run whose URL contains the current candidate sends
     * `checkFollows`. An index past the end reads `undefined`, which the
     * URL test compares as the text "undefined".
     */
    method OnTabUpdated(tabId: int, complete: bool, url: string) returns (dispatch: Option<Dispatch>)
      modifies this
      ensures dispatch.Some? <==>
                && active && workerTabId == Some(tabId) && complete
                && Contains(url, CurrentName(candidates, currentIndex))
      ensures dispatch.Some? ==> dispatch.value == Dispatch(CurrentName(candidates, currentIndex), competitors)
                                 && logs == old(logs) + [ProfileLoaded]
      ensures dispatch.None? ==> logs == old(logs)
      ensures active == old(active) && candidates == old(candidates) && qualified == old(qualified)
      ensures winner == old(winner) && currentIndex == old(currentIndex) && competitors == old(competitors)
      ensures mainTabId == old(mainTabId) && workerTabId == old(workerTabId)
    {
      dispatch := None;
      if active && workerTabId == Some(tabId) && complete {
        var username := CurrentName(candidates, currentIndex);
        if Contains(url, username) {
          AddLog(ProfileLoaded);
          dispatch := Some(Dispatch(username, competitors));
        }
      }
    }
  }

  /** `state.candidates[state.currentIndex]` as the URL test sees it. */
  function CurrentName(candidates: seq<string>, index: nat): (name: string)
    ensures index < |candidates| ==> name == candidates[index]
    ensures index >= |candidates| ==> name == "undefined"
  {
    if index < |candidates| then candidates[index] else "undefined"
  }

  /** After a stop, a follow result still counts a success but no longer closes a tab or advances the run. */
  method StopThenFollowResult(state: RunState, username: string, success: bool) returns (closesWorker: bool)
    requires state.Valid()
    modifies state
    ensures state.Valid()
    ensures !closesWorker && !state.active
    ensures state.currentIndex == old(state.currentIndex)
    ensures state.qualified == old(state.qualified) + (if success then [username] else [])
  {
    var _ := state.StopAnalysis();
    closesWorker := state.FollowResult(username, success);
  }

  /** The candidates whose follow check succeeded, in order. */
  function Passed(users: seq<string>, successes: seq<bool>): (r: seq<string>)
    requires |successes| == |users|
    ensures |r| <= |users|
    ensures forall u :: u in r ==> u in users
  {
    if users == [] then []
    else
      var n := |users| - 1;
      Passed(users[..n], successes[..n]) + (if successes[n] then [users[n]] else [])
  }

  /**
   * A whole run after the scrape, each candidate answered in turn: its
   * worker tab opens, its result arrives, the tab closes. Every candidate
   * is checked once, in order, the qualified list gains exactly those that
   * passed, and the run ends with a winner drawn from it.
   */
  method RunAllCandidates(state: RunState, users: seq<string>, successes: seq<bool>, tabId: int, rand: real)
    requires state.Valid() && users != [] && |successes| == |users| && tabId != 0 && 0.0 <= rand < 1.0
    modifies state
    ensures state.Valid()
    ensures !state.active && state.candidates == users && state.currentIndex == |users|
    ensures state.qualified == old(state.qualified) + Passed(users, successes)
    ensures state.winner == PickWinner(state.qualified, rand)
    ensures state.workerTabId == None
  {
    var target := state.ScrapeDone(users, rand);
    ghost var before := state.qualified;
    var i := 0;
    while i < |users|
      invariant 0 <= i <= |users|
      invariant state.Valid()
      invariant state.candidates == users && state.currentIndex == i
      invariant state.qualified == before + Passed(users[..i], successes[..i])
      invariant i < |users| ==> target == Some(users[i])
      invariant i == |users| ==> !state.active && state.winner == PickWinner(state.qualified, rand)
      invariant i > 0 ==> state.workerTabId == None
    {
      state.TabCreated(tabId);
      var closesWorker := state.FollowResult(users[i], successes[i]);
      assert closesWorker;
      assert users[..i + 1][..i] == users[..i] && successes[..i + 1][..i] == successes[..i];
      target := state.WorkerClosed(rand);
      i := i + 1;
    }
    assert users[..|users|] == users && successes[..|successes|] == successes;
  }
}
