/**
 * The socket handlers of the server (`src/server/index.ts`): admission
 * control for analysis jobs, the job counters and the list of running
 * sessions, the two admin-code gates, and the missing-permission check of
 * the auth debugger.
 */
module Server {
  import opened Wrappers
  import opened Seqs
  import opened Competitors
  import opened Analyzer

  /** At most this many analysis jobs run at once. */
  const MaxConcurrent: nat := 3

  /** The environment variables the handlers read; `None` is an unset variable. */
  datatype Env = Env(accessCode: Option<string>, adminCode: Option<string>)

  /** JavaScript truthiness of a possibly unset string: set and not empty. */
  predicate Truthy(v: Option<string>)
  {
    v.Some? && v.value != ""
  }

  // ---------------------------------------------------------------------
  // Admin gates
  // ---------------------------------------------------------------------

  /** `process.env.ADMIN_CODE || process.env.ACCESS_CODE`. */
  function AdminOrAccessCode(env: Env): Option<string>
  {
    if Truthy(env.adminCode) then env.adminCode else env.accessCode
  }

  /** `verify-access-code`: granted when the code above is set and equals the supplied one. */
  function VerifyAccessCode(env: Env, code: string): (granted: bool)
    ensures granted ==> code != ""
    ensures granted ==> AdminOrAccessCode(env) == Some(code)
  {
    var adminCode := AdminOrAccessCode(env);
    Truthy(adminCode) && code == adminCode.value
  }

  /** `get-admin-stats`: only `ADMIN_CODE` opens it. */
  function StatsAccess(env: Env, code: string): (granted: bool)
    ensures granted ==> code != "" && env.adminCode == Some(code)
  {
    Truthy(env.adminCode) && code == env.adminCode.value
  }

  /** Without `ADMIN_CODE`, `ACCESS_CODE` grants admin access, and only the exact code does. */
  lemma AccessCodeFallback(env: Env, code: string)
    requires !Truthy(env.adminCode) && Truthy(env.accessCode)
    ensures VerifyAccessCode(env, code) <==> code == env.accessCode.value
    ensures !StatsAccess(env, code)
  {
  }

  /** With `ADMIN_CODE` set, the access code no longer grants admin access unless it is the same string. */
  lemma AdminCodeTakesPrecedence(env: Env, code: string)
    requires Truthy(env.adminCode)
    ensures VerifyAccessCode(env, code) <==> code == env.adminCode.value
    ensures VerifyAccessCode(env, code) <==> StatsAccess(env, code)
  {
  }

  /** A code accepted by the stats gate is accepted by `verify-access-code`. */
  lemma StatsAccessImpliesAdminAccess(env: Env, code: string)
    requires StatsAccess(env, code)
    ensures VerifyAccessCode(env, code)
  {
  }

  /** With neither code set, nobody is granted anything. */
  lemma NoCodesNoAccess(env: Env, code: string)
    requires !Truthy(env.adminCode) && !Truthy(env.accessCode)
    ensures !VerifyAccessCode(env, code) && !StatsAccess(env, code)
  {
  }

  /** The two admin-verification cases exercised by the server tests. */
  lemma AdminVerificationExamples()
    ensures VerifyAccessCode(Env(Some("secret123"), None), "secret123")
    ensures !VerifyAccessCode(Env(Some("secret123"), None), "wrong-code")
  {
  }

  // ---------------------------------------------------------------------
  // Permissions in the auth debugger
  // ---------------------------------------------------------------------

  datatype Permission = Permission(permission: string, status: string)

  const Required: seq<string> := ["pages_show_list", "instagram_basic", "instagram_manage_comments"]

  /** `permRes.data.data.filter(p => p.status === 'granted').map(p => p.permission)`. */
  function GrantedPermissions(perms: seq<Permission>): (granted: seq<string>)
    ensures |granted| <= |perms|
    ensures forall x :: x in granted <==> exists p :: p in perms && p.status == "granted" && p.permission == x
  {
    if perms == [] then []
    else
      var rest := GrantedPermissions(perms[1..]);
      assert forall p :: p in perms[1..] ==> p in perms;
      assert forall p :: p in perms ==> p == perms[0] || p in perms[1..];
      (if perms[0].status == "granted" then [perms[0].permission] else []) + rest
  }

  function NotGranted(granted: seq<string>): string -> bool
  {
    p => p !in granted
  }

  /** `required.filter(p => !grantedPerms.includes(p))`. */
  function MissingPermissions(granted: seq<string>): (missing: seq<string>)
  {
    Filter(Required, NotGranted(granted))
  }

  /** A permission is reported missing exactly when it is required and no entry grants it. */
  lemma MissingPermissionsExact(perms: seq<Permission>, x: string)
    ensures x in MissingPermissions(GrantedPermissions(perms)) <==>
            x in Required && forall p :: p in perms && p.permission == x ==> p.status != "granted"
  {
  }

  /** Nothing is missing exactly when every required permission is granted. */
  lemma NothingMissing(granted: seq<string>)
    ensures MissingPermissions(granted) == [] <==> forall r :: r in Required ==> r in granted
  {
    var missing := MissingPermissions(granted);
    if missing != [] {
      assert missing[0] in missing;
    }
  }

  // ---------------------------------------------------------------------
  // Admission control and job bookkeeping
  // ---------------------------------------------------------------------

  /** The payload of `start-analysis`; `None` is an absent field. */
  datatype Request = Request(postUrl: Option<string>, competitors: Option<string>, accessCode: Option<string>)

  /** An entry of `activeSessions` (the start time is left out). */
  datatype Session = Session(id: string, url: string, competitors: nat)

  /** What the handler decides before the job runs. */
  datatype Admission =
    | Busy                                          // result `{ error: 'Server busy' }`
    | AccessDenied                                  // result `{ error: 'Invalid Access Code' }`
    | MissingInput                                  // only a log line, no result
    | Admitted(id: string, competitors: seq<string>)

  /** The `result` event sent straight away, if any. */
  function ImmediateResult(a: Admission): (r: Option<RunResult>)
    ensures r.Some? <==> a.Busy? || a.AccessDenied?
    ensures r.Some? ==> r.value.Failed? && r.value.error != ""
  {
    match a
    case Busy => Some(Failed("Server busy"))
    case AccessDenied => Some(Failed("Invalid Access Code"))
    case _ => None
  }

  /** How an admitted job ended, as the handler sees it. */
  datatype JobOutcome =
    | Reported(result: RunResult)   // `onResult` was called
    | Silent                        // `startAnalysis` returned without calling `onResult`
    | Threw                         // `startAnalysis` rejected

  /** The outcome bumps `failed`: a truthy `error` in the result, or an exception. */
  predicate CountsAsFailure(o: JobOutcome)
  {
    o.Threw? || (o.Reported? && o.result.Failed? && o.result.error != "")
  }

  predicate CountsAsSuccess(o: JobOutcome)
  {
    o.Reported? && !CountsAsFailure(o)
  }

  /** The outcome of an analysis run, as the run itself reports it. */
  function OutcomeOf(result: Option<RunResult>): (o: JobOutcome)
    ensures o.Silent? <==> result.None?
    ensures result.Some? && result.value.Won? ==> CountsAsSuccess(o)
  {
    if result.Some? then Reported(result.value) else Silent
  }

  /** A job outcome is counted at most once, either way. */
  lemma OutcomeCountedOnce(o: JobOutcome)
    ensures !(CountsAsSuccess(o) && CountsAsFailure(o))
    ensures CountsAsSuccess(o) || CountsAsFailure(o) <==> !o.Silent?
  {
  }

  predicate HasSession(sessions: seq<Session>, id: string)
  {
    exists i :: 0 <= i < |sessions| && sessions[i].id == id
  }

  /** `activeSessions.findIndex(s => s.id === id)`. */
  function FindSession(sessions: seq<Session>, id: string): (idx: int)
    ensures -1 <= idx < |sessions|
    ensures idx == -1 <==> !HasSession(sessions, id)
    ensures idx >= 0 ==> sessions[idx].id == id && forall j :: 0 <= j < idx ==> sessions[j].id != id
  {
    if sessions == [] then -1
    else if sessions[0].id == id then 0
    else
      var rest := FindSession(sessions[1..], id);
      assert forall j :: 1 <= j < |sessions| ==> sessions[j] == sessions[1..][j - 1];
      if rest == -1 then -1 else rest + 1
  }

  /** The list without its first entry carrying `id`. */
  function RemoveFirst(sessions: seq<Session>, id: string): seq<Session>
  {
    if sessions == [] then []
    else if sessions[0].id == id then sessions[1..]
    else [sessions[0]] + RemoveFirst(sessions[1..], id)
  }

  /** Splicing at the index `findIndex` returns removes the first entry with the id. */
  lemma {:induction false} SpliceIsRemoveFirst(sessions: seq<Session>, id: string)
    requires HasSession(sessions, id)
    ensures var idx := FindSession(sessions, id);
            sessions[..idx] + sessions[idx + 1..] == RemoveFirst(sessions, id)
  {
    if sessions[0].id != id {
      var tail := sessions[1..];
      PastHead(sessions, id);
      SpliceIsRemoveFirst(tail, id);
      var k := FindSession(tail, id);
      assert sessions[..k + 1] == [sessions[0]] + tail[..k];
      assert sessions[k + 2..] == tail[k + 1..];
    }
  }

  /** When the head does not carry the id, the search goes on in the tail, one index further. */
  lemma PastHead(sessions: seq<Session>, id: string)
    requires HasSession(sessions, id) && sessions[0].id != id
    ensures HasSession(sessions[1..], id)
    ensures FindSession(sessions, id) == FindSession(sessions[1..], id) + 1
    ensures RemoveFirst(sessions, id) == [sessions[0]] + RemoveFirst(sessions[1..], id)
  {
    var i :| 0 <= i < |sessions| && sessions[i].id == id;
    assert sessions[1..][i - 1].id == id;
  }

  /** Removal drops exactly one entry. */
  lemma {:induction false} RemoveFirstLength(sessions: seq<Session>, id: string)
    requires HasSession(sessions, id)
    ensures |RemoveFirst(sessions, id)| == |sessions| - 1
  {
    if sessions[0].id != id {
      PastHead(sessions, id);
      RemoveFirstLength(sessions[1..], id);
    }
  }

  /** The entry removed is the first one with that id; all others stay. */
  lemma {:induction false} RemoveFirstDropsOne(sessions: seq<Session>, id: string)
    requires HasSession(sessions, id)
    ensures multiset(RemoveFirst(sessions, id)) + multiset{sessions[FindSession(sessions, id)]} == multiset(sessions)
  {
    var tail := sessions[1..];
    assert sessions == [sessions[0]] + tail;
    if sessions[0].id != id {
      PastHead(sessions, id);
      RemoveFirstDropsOne(tail, id);
    }
  }

  /** The `finally` block's `findIndex` and `splice`: the first session with the id leaves the list. */
  method Splice(sessions: seq<Session>, id: string) returns (r: seq<Session>)
    requires HasSession(sessions, id)
    ensures r == RemoveFirst(sessions, id)
    ensures |r| == |sessions| - 1
  {
    var idx := FindSession(sessions, id);
    r := sessions;
    if idx != -1 {
      SpliceIsRemoveFirst(sessions, id);
      RemoveFirstLength(sessions, id);
      r := sessions[..idx] + sessions[idx + 1..];
    }
  }

  /** A job whose id is new finds its own entry, and removing it restores the list it joined. */
  lemma {:induction false} RemoveAfterPush(sessions: seq<Session>, s: Session)
    requires !HasSession(sessions, s.id)
    ensures RemoveFirst(sessions + [s], s.id) == sessions
  {
    if sessions != [] {
      assert (sessions + [s])[1..] == sessions[1..] + [s];
      assert !HasSession(sessions[1..], s.id) by {
        forall j | 0 <= j < |sessions[1..]| ensures sessions[1..][j].id != s.id {
          assert sessions[1..][j] == sessions[j + 1];
        }
      }
      assert sessions[0].id != s.id;
      RemoveAfterPush(sessions[1..], s);
    }
  }

  /** The admin statistics (uptime, memory and load figures are left out). */
  datatype Stats = Stats(activeScans: nat, maxConcurrent: nat, totalScans: nat, success: nat, failed: nat,
                         sessions: seq<Session>)

  datatype AdminReply = AdminError(message: string) | AdminStats(stats: Stats)

  /** The module-level state of the server: the job counter, the statistics and the running sessions. */
  class Scheduler {
    const env: Env
    var activeScans: nat
    var totalScans: nat
    var success: nat
    var failed: nat
    var activeSessions: seq<Session>
    /** Admitted jobs that ended without any result being reported. */
    ghost var silent: nat

    /**
     * One session per running job, never more than the limit, and every
     * admitted job is running or counted exactly once.
     */
    ghost predicate Valid()
      reads this
    {
      && activeScans == |activeSessions| <= MaxConcurrent
      && totalScans == success + failed + silent + activeScans
    }

    constructor (env: Env)
      ensures Valid() && this.env == env
      ensures activeScans == 0 && totalScans == 0 && success == 0 && failed == 0 && activeSessions == []
    {
      this.env := env;
      activeScans := 0;
      totalScans := 0;
      success := 0;
      failed := 0;
      activeSessions := [];
      silent := 0;
    }

    /**
     * The `start-analysis` handler up to the call of the analyzer: the
     * busy check, the access-code gate, the input check, then admission
     * with `now` as the session id.
     */
    method StartAnalysis(data: Request, now: string) returns (admission: Admission)
      requires Valid()
      modifies this
      ensures Valid()
      ensures admission == Busy <==> old(activeScans) >= MaxConcurrent
      ensures admission == AccessDenied <==>
                old(activeScans) < MaxConcurrent && Truthy(env.accessCode) && data.accessCode != env.accessCode
      ensures admission == MissingInput <==>
                && old(activeScans) < MaxConcurrent
                && (!Truthy(env.accessCode) || data.accessCode == env.accessCode)
                && !(Truthy(data.postUrl) && Truthy(data.competitors))
      ensures admission.Admitted? <==>
                && old(activeScans) < MaxConcurrent
                && (!Truthy(env.accessCode) || data.accessCode == env.accessCode)
                && Truthy(data.postUrl) && Truthy(data.competitors)
      ensures admission.Admitted? ==>
                && admission.id == now
                && admission.competitors == Parse(data.competitors.value)
                && activeScans == old(activeScans) + 1
                && totalScans == old(totalScans) + 1
                && activeSessions == old(activeSessions) + [Session(now, data.postUrl.value, |admission.competitors|)]
                && success == old(success) && failed == old(failed) && silent == old(silent)
      ensures !admission.Admitted? ==>
                && activeScans == old(activeScans) && totalScans == old(totalScans)
                && activeSessions == old(activeSessions)
                && success == old(success) && failed == old(failed) && silent == old(silent)
    {
      if activeScans >= MaxConcurrent {
        return Busy;
      }
      var postUrl, competitors, accessCode := data.postUrl, data.competitors, data.accessCode;
      var serverCode := env.accessCode;
      if Truthy(serverCode) && accessCode != serverCode {
        return AccessDenied;
      }
      if !Truthy(postUrl) || !Truthy(competitors) {
        return MissingInput;
      }
      var compsArray := Parse(competitors.value);
      activeScans := activeScans + 1;
      totalScans := totalScans + 1;
      var sessionData := Session(now, postUrl.value, |compsArray|);
      activeSessions := activeSessions + [sessionData];
      admission := Admitted(now, compsArray);
    }

    /**
     * The rest of the handler once the run is over: the result callback's
     * counter, the `catch` and the `finally` that frees the slot and
     * drops one session with the job's id.
     */
    method Finish(id: string, outcome: JobOutcome)
      requires Valid() && HasSession(activeSessions, id)
      modifies this
      ensures Valid()
      ensures activeScans == old(activeScans) - 1
      ensures totalScans == old(totalScans)
      ensures success == old(success) + (if CountsAsSuccess(outcome) then 1 else 0)
      ensures failed == old(failed) + (if CountsAsFailure(outcome) then 1 else 0)
      ensures activeSessions == RemoveFirst(old(activeSessions), id)
    {
      OutcomeCountedOnce(outcome);
      match outcome {
        case Reported(result) =>
          if result.Failed? && result.error != "" {
            failed := failed + 1;
          } else {
            success := success + 1;
          }
        case Threw =>
          failed := failed + 1;
        case Silent =>
          silent := silent + 1;
      }
      activeScans := activeScans - 1;
      activeSessions := Splice(activeSessions, id);
    }

    /** The `get-admin-stats` handler; it changes nothing. */
    method GetAdminStats(code: string) returns (reply: AdminReply)
      requires Valid()
      ensures reply.AdminStats? <==> StatsAccess(env, code)
      ensures reply.AdminError? ==> reply.message == "Invalid Admin Code"
      ensures reply.AdminStats? ==>
                && reply.stats == Stats(activeScans, MaxConcurrent, totalScans, success, failed, activeSessions)
                && reply.stats.activeScans <= reply.stats.maxConcurrent
                && reply.stats.success + reply.stats.failed + reply.stats.activeScans <= reply.stats.totalScans
                && |reply.stats.sessions| == reply.stats.activeScans
    {
      var adminCode := env.adminCode;
      if !Truthy(adminCode) || code != adminCode.value {
        return AdminError("Invalid Admin Code");
      }
      reply := AdminStats(Stats(activeScans, MaxConcurrent, totalScans, success, failed, activeSessions));
    }
  }

  /**
   * A whole admitted job: admission, the run, then the bookkeeping after
   * it. When the id is new, the server ends with the same sessions and
   * load as before, and one more finished job.
   */
  method RunJob(server: Scheduler, data: Request, now: string, result: Option<RunResult>)
    returns (admission: Admission)
    requires server.Valid() && !HasSession(server.activeSessions, now)
    modifies server
    ensures server.Valid()
    ensures server.activeScans == old(server.activeScans)
    ensures server.activeSessions == old(server.activeSessions)
    ensures admission.Admitted? ==>
              && server.totalScans == old(server.totalScans) + 1
              && server.success + server.failed == old(server.success + server.failed) + (if result.Some? then 1 else 0)
    ensures !admission.Admitted? ==> server.totalScans == old(server.totalScans)
  {
    admission := server.StartAnalysis(data, now);
    if admission.Admitted? {
      ghost var before := old(server.activeSessions);
      assert server.activeSessions[|before|].id == now;
      var outcome := OutcomeOf(result);
      OutcomeCountedOnce(outcome);
      server.Finish(now, outcome);
      RemoveAfterPush(before, Session(now, data.postUrl.value, |admission.competitors|));
    }
  }
}
