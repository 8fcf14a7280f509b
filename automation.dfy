/**
 * The automation object: its configuration, the per-server result table it
 * fills in place, the per-server step, the whole run, the report writer,
 * and the process entry point with its exit-status rule.
 */
module Automation {
  import opened Wrappers
  import opened Text
  import opened Tags
  import opened Config
  import opened Browser
  import opened Flows
  import opened Results
  import opened Report

  /** What the browser yields while one server is processed. */
  datatype ServerVisit = ServerVisit(landing: Option<Page>, renew: RenewPages, start: StartPages)

  /**
   * What the browser yields while logging in: whether the session cookie
   * could be added, the URL reached with it, the URL reached by submitting
   * the email form (`None` when filling or submitting raised), and the URL
   * reached after that.
   */
  datatype LoginPages = LoginPages(
    cookieAccepted: bool,
    cookieLandingUrl: string,
    emailSubmitUrl: Option<string>,
    emailLandingUrl: string)

  /** An exception escaping the browser session: a timeout, or anything else. */
  datatype Fault = TimedOut | Crashed

  /**
   * Where `run` lets an exception escape: while launching the browser or
   * logging in, before any server is processed; or while closing the browser
   * and leaving the Playwright context, after the server loop or the
   * login-failure list. The per-server step catches everything raised inside it.
   */
  datatype Stage = Startup | Closing

  datatype Escape = Escape(fault: Fault, stage: Stage)

  /**
   * Everything the browser yields in one run: the exception that escapes, if
   * any, the login observations, and one visit per configured server.
   */
  datatype Session = Session(escape: Option<Escape>, login: LoginPages, visits: seq<ServerVisit>)

  /** The record `process_server` leaves for a server. */
  function ServerOutcome(visit: ServerVisit): (s: Status)
    ensures s.renew != NotRun && s.start != NotRun
    ensures visit.landing.None? ==> s == Status(Error, Error)
    ensures visit.landing.Some? && !IsLoggedIn(visit.landing.value.url) ==> s == Status(LoginFailed, LoginFailed)
    ensures visit.landing.Some? && IsLoggedIn(visit.landing.value.url) ==>
      s == Status(RenewServer(visit.renew).tag, StartServer(visit.start).tag)
  {
    match visit.landing
    case None => Status(Error, Error)
    case Some(page) =>
      if !IsLoggedIn(page.url) then Status(LoginFailed, LoginFailed)
      else Status(RenewServer(visit.renew).tag, StartServer(visit.start).tag)
  }

  /** A failed login check decides the record alone: the renew and start snapshots play no part. */
  lemma LoginFailureSkipsSteps(v: ServerVisit, w: ServerVisit)
    requires v.landing == w.landing && v.landing.Some? && !IsLoggedIn(v.landing.value.url)
    ensures ServerOutcome(v) == ServerOutcome(w) == Status(LoginFailed, LoginFailed)
  {
  }

  /** Every record holds tags that the report can display without the `❓` fallback. */
  lemma OutcomeHasMessages(v: ServerVisit)
    ensures ServerOutcome(v).renew in StatusMessages && ServerOutcome(v).start in StatusMessages
  {
    MessagesCoverTags();
  }

  /** The string `process_server` returns for a server. */
  function ServerLine(id: string, visit: ServerVisit): string {
    match visit.landing
    case None => id + ": " + Error
    case Some(page) =>
      if !IsLoggedIn(page.url) then id + ": " + LoginFailed
      else id + ": renew:" + ServerOutcome(visit).renew + ",start:" + ServerOutcome(visit).start
  }

  /** The identifier of each configured server, in order. */
  function IdList(servers: seq<string>): (ids: seq<string>)
    ensures |ids| == |servers|
  {
    seq(|servers|, i requires 0 <= i < |servers| => ServerId(servers[i]))
  }

  /** The record each visit leaves, in order. */
  function Outcomes(visits: seq<ServerVisit>): (outs: seq<Status>)
    ensures |outs| == |visits|
  {
    seq(|visits|, i requires 0 <= i < |visits| => ServerOutcome(visits[i]))
  }

  /** The table after writing `outs[i]` under `ids[i]`, in order, starting from `t`. */
  function Record<K(==, !new), V>(t: Table<K, V>, ids: seq<K>, outs: seq<V>): (u: Table<K, V>)
    requires t.Valid() && |ids| == |outs|
    ensures u.Valid()
    decreases |ids|
  {
    if |ids| == 0 then t
    else
      var n := |ids| - 1;
      Record(t, ids[..n], outs[..n]).Put(ids[n], outs[n])
  }

  /**
   * Writing a sequence of records keeps the old keys and adds exactly the
   * written ones, and leaves the entry of a key that is never written as it was.
   */
  lemma {:induction false} RecordKey<K(!new), V>(t: Table<K, V>, ids: seq<K>, outs: seq<V>, k: K)
    requires t.Valid() && |ids| == |outs|
    ensures k in Record(t, ids, outs).entries <==> k in t.entries || k in ids
    ensures k in t.entries && k !in ids ==> Record(t, ids, outs).entries[k] == t.entries[k]
    decreases |ids|
  {
    if |ids| > 0 {
      var n := |ids| - 1;
      var front, rest := ids[..n], outs[..n];
      RecordKey(t, front, rest, k);
      assert ids == front + [ids[n]];
      assert k in ids <==> k in front || k == ids[n];
    }
  }

  /** Each write lengthens the order by at most one key. */
  lemma {:induction false} RecordLength<K(!new), V>(t: Table<K, V>, ids: seq<K>, outs: seq<V>)
    requires t.Valid() && |ids| == |outs|
    ensures |Record(t, ids, outs).keys| <= |t.keys| + |ids|
    decreases |ids|
  {
    if |ids| > 0 {
      var n := |ids| - 1;
      RecordLength(t, ids[..n], outs[..n]);
    }
  }

  /** Writing one more record extends the fold by one `Put`. */
  lemma RecordSnoc<K(!new), V>(t: Table<K, V>, ids: seq<K>, outs: seq<V>, i: nat)
    requires t.Valid() && |ids| == |outs| && i < |ids|
    ensures Record(t, ids[..i + 1], outs[..i + 1]) == Record(t, ids[..i], outs[..i]).Put(ids[i], outs[i])
  {
    assert ids[..i + 1][..i] == ids[..i];
    assert outs[..i + 1][..i] == outs[..i];
  }

  lemma PrefixSnoc<T>(s: seq<T>, i: nat)
    requires i < |s|
    ensures s[..i + 1] == s[..i] + [s[i]]
  {
  }

  /** A key not written again later holds the record written under it. */
  lemma {:induction false} RecordAt<K(!new), V>(t: Table<K, V>, ids: seq<K>, outs: seq<V>, i: nat)
    requires t.Valid() && |ids| == |outs| && i < |ids|
    requires ids[i] !in ids[i + 1..]
    ensures ids[i] in Record(t, ids, outs).entries && Record(t, ids, outs).entries[ids[i]] == outs[i]
    decreases |ids|
  {
    var n := |ids| - 1;
    var front, rest := ids[..n], outs[..n];
    if i < n {
      assert front[i + 1..] == ids[i + 1..n];
      assert ids[i + 1..] == ids[i + 1..n] + [ids[n]];
      RecordAt(t, front, rest, i);
      assert front[i] == ids[i] && rest[i] == outs[i];
      PutKeeps(Record(t, front, rest), ids[n], outs[n], ids[i]);
    }
  }

  /** The table after processing `servers` in order, starting from `t`. */
  function ProcessAll(t: ResultTable, servers: seq<string>, visits: seq<ServerVisit>): (u: ResultTable)
    requires t.Valid() && |servers| == |visits|
    ensures u.Valid()
  {
    Record(t, IdList(servers), Outcomes(visits))
  }

  /**
   * After processing, the table holds its old keys plus exactly the
   * identifiers of the configured servers, records for other keys are
   * untouched, and the order grows by at most one key per server.
   */
  lemma InIdList(servers: seq<string>, k: string)
    ensures k in IdList(servers) <==> exists i | 0 <= i < |servers| :: ServerId(servers[i]) == k
  {
    var ids := IdList(servers);
    if k in ids {
      var i :| 0 <= i < |ids| && ids[i] == k;
      assert ServerId(servers[i]) == k;
    }
    if exists i | 0 <= i < |servers| :: ServerId(servers[i]) == k {
      var i :| 0 <= i < |servers| && ServerId(servers[i]) == k;
      assert ids[i] == k;
    }
  }

  lemma ProcessAllKeys(t: ResultTable, servers: seq<string>, visits: seq<ServerVisit>)
    requires t.Valid() && |servers| == |visits|
    ensures forall k :: k in ProcessAll(t, servers, visits).entries <==>
      k in t.entries || exists i | 0 <= i < |servers| :: ServerId(servers[i]) == k
    ensures forall k | k in t.entries && (forall i | 0 <= i < |servers| :: ServerId(servers[i]) != k) ::
      ProcessAll(t, servers, visits).entries[k] == t.entries[k]
    ensures |ProcessAll(t, servers, visits).keys| <= |t.keys| + |servers|
  {
    var ids, outs := IdList(servers), Outcomes(visits);
    RecordLength(t, ids, outs);
    forall k ensures k in ProcessAll(t, servers, visits).entries <==>
      k in t.entries || exists i | 0 <= i < |servers| :: ServerId(servers[i]) == k {
      RecordKey(t, ids, outs, k);
      InIdList(servers, k);
    }
    forall k | k in t.entries && (forall i | 0 <= i < |servers| :: ServerId(servers[i]) != k)
      ensures ProcessAll(t, servers, visits).entries[k] == t.entries[k]
    {
      RecordKey(t, ids, outs, k);
      InIdList(servers, k);
    }
  }

  /**
   * A server whose identifier does not recur later in the list keeps the
   * outcome of its own visit; of several servers sharing an identifier, the
   * last one's outcome is the one recorded.
   */
  lemma ProcessAllRecords(t: ResultTable, servers: seq<string>, visits: seq<ServerVisit>, i: nat)
    requires t.Valid() && |servers| == |visits| && i < |servers|
    requires forall j | i < j < |servers| :: ServerId(servers[j]) != ServerId(servers[i])
    ensures ServerId(servers[i]) in ProcessAll(t, servers, visits).entries
    ensures ProcessAll(t, servers, visits).entries[ServerId(servers[i])] == ServerOutcome(visits[i])
  {
    var ids := IdList(servers);
    assert ids[i] !in ids[i + 1..] by {
      forall j | i + 1 <= j < |ids| ensures ids[j] != ids[i] {
        assert ids[j] == ServerId(servers[j]);
      }
    }
    RecordAt(t, ids, Outcomes(visits), i);
  }

  /** The strings `run` collects when every server is processed, one per server in order. */
  function ServerLines(servers: seq<string>, visits: seq<ServerVisit>): (lines: seq<string>)
    requires |servers| == |visits|
    ensures |lines| == |servers|
  {
    seq(|servers|, i requires 0 <= i < |servers| => ServerLine(ServerId(servers[i]), visits[i]))
  }

  /** Whether either credential form led to a page that passes the login heuristic. */
  predicate LoginSucceeded(hasCookie: bool, hasEmail: bool, l: LoginPages) {
    || (hasCookie && l.cookieAccepted && IsLoggedIn(l.cookieLandingUrl))
    || (hasEmail && EmailLoginSucceeded(l.emailSubmitUrl) && IsLoggedIn(l.emailLandingUrl))
  }

  /**
   * The login rule of `run`: success needs some credential and a landing
   * page that passes the login check. An accepted cookie whose landing
   * passes is enough on its own; when the cookie path fails, the outcome is
   * the email path's, whose form submission must itself pass the check.
   */
  lemma LoginRule(hasCookie: bool, hasEmail: bool, l: LoginPages)
    ensures LoginSucceeded(hasCookie, hasEmail, l) ==> hasCookie || hasEmail
    ensures LoginSucceeded(hasCookie, hasEmail, l) ==> IsLoggedIn(l.cookieLandingUrl) || IsLoggedIn(l.emailLandingUrl)
    ensures hasCookie && l.cookieAccepted && IsLoggedIn(l.cookieLandingUrl) ==> LoginSucceeded(hasCookie, hasEmail, l)
    ensures !(hasCookie && l.cookieAccepted && IsLoggedIn(l.cookieLandingUrl)) ==>
      (LoginSucceeded(hasCookie, hasEmail, l) <==>
         hasEmail && l.emailSubmitUrl.Some? && IsLoggedIn(l.emailSubmitUrl.value) && IsLoggedIn(l.emailLandingUrl))
  {
  }

  function FaultTag(f: Fault): string {
    match f
    case TimedOut => Timeout
    case Crashed => Runtime
  }

  /**
   * The server loop runs: credentials, servers, nothing escaping at start-up,
   * and a successful login.
   */
  predicate Visits(hasCookie: bool, hasEmail: bool, servers: seq<string>, session: Session) {
    (hasCookie || hasEmail) && servers != []
    && (session.escape.None? || session.escape.value.stage == Closing)
    && LoginSucceeded(hasCookie, hasEmail, session.login)
  }

  /** The run returns the per-server lines: the loop runs and nothing escapes afterwards. */
  predicate Processes(hasCookie: bool, hasEmail: bool, servers: seq<string>, session: Session) {
    Visits(hasCookie, hasEmail, servers, session) && session.escape.None?
  }

  /** The list `run` returns. */
  function RunResults(hasCookie: bool, hasEmail: bool, servers: seq<string>, session: Session): (r: seq<string>)
    requires |session.visits| == |servers|
    ensures !hasCookie && !hasEmail ==> r == [NoAuth]
    ensures (hasCookie || hasEmail) && servers == [] ==> r == [NoServers]
    ensures (hasCookie || hasEmail) && servers != [] ==> |r| == |servers|
    ensures (hasCookie || hasEmail) && servers != [] && session.escape.Some? ==>
      forall i | 0 <= i < |r| :: r[i] == FaultTag(session.escape.value.fault)
    ensures ((hasCookie || hasEmail) && servers != [] && session.escape.None?
             && !LoginSucceeded(hasCookie, hasEmail, session.login)) ==>
      forall i | 0 <= i < |r| :: r[i] == LoginFailed
    ensures Processes(hasCookie, hasEmail, servers, session) ==> r == ServerLines(servers, session.visits)
  {
    if !hasCookie && !hasEmail then [NoAuth]
    else if servers == [] then [NoServers]
    else if session.escape.Some? then seq(|servers|, _ => FaultTag(session.escape.value.fault))
    else if !LoginSucceeded(hasCookie, hasEmail, session.login) then seq(|servers|, _ => LoginFailed)
    else ServerLines(servers, session.visits)
  }

  /**
   * When a run leaves no records, each fallback row of the report is an
   * unknown-server row carrying the message of the run-level failure.
   */
  lemma FallbackRowsOfFailedRun(hasCookie: bool, hasEmail: bool, servers: seq<string>, session: Session)
    requires |session.visits| == |servers|
    requires !Visits(hasCookie, hasEmail, servers, session)
    ensures var r := RunResults(hasCookie, hasEmail, servers, session);
      forall i | 0 <= i < |r| ::
        r[i] in StatusMessages && ResultRows(r)[i] == "| 未知 | " + StatusMessages[r[i]] + " | N/A |\n"
  {
    var r := RunResults(hasCookie, hasEmail, servers, session);
    forall i | 0 <= i < |r|
      ensures r[i] in StatusMessages && ResultRows(r)[i] == "| 未知 | " + StatusMessages[r[i]] + " | N/A |\n"
    {
      if hasCookie || hasEmail {
        if servers != [] && session.escape.Some? {
          assert r[i] == FaultTag(session.escape.value.fault);
        }
      }
      assert r[i] in RunFailureTags;
      FailureTagRow(r[i]);
    }
  }

  /** One result with a failure marker makes the whole run fail. */
  lemma {:induction false} ExitStatusFailsOn(results: seq<string>, i: nat, prefix: string, marker: string, suffix: string)
    requires i < |results| && results[i] == prefix + marker + suffix
    requires marker == LoginFailed || marker == "error:"
    ensures ExitStatus(results) == 1
  {
    ContainsInfix(prefix, marker, suffix);
  }

  /** A run stopped by missing credentials, missing servers, a fault or a failed login exits with 1. */
  lemma RunFailureExitsNonZero(hasCookie: bool, hasEmail: bool, servers: seq<string>, session: Session)
    requires |session.visits| == |servers|
    requires !Processes(hasCookie, hasEmail, servers, session)
    ensures ExitStatus(RunResults(hasCookie, hasEmail, servers, session)) == 1
  {
    var r := RunResults(hasCookie, hasEmail, servers, session);
    if !hasCookie && !hasEmail {
      ExitStatusFailsOn(r, 0, "", "error:", " no_auth");
    } else if servers == [] {
      ExitStatusFailsOn(r, 0, "", "error:", " no_servers");
    } else if session.escape.Some? {
      assert r[0] == FaultTag(session.escape.value.fault);
      if session.escape.value.fault == TimedOut {
        ExitStatusFailsOn(r, 0, "", "error:", " timeout");
      } else {
        ExitStatusFailsOn(r, 0, "", "error:", " runtime");
      }
    } else {
      ExitStatusFailsOn(r, 0, "", LoginFailed, "");
    }
  }

  /** A server whose page turned out to be a login page also makes the run exit with 1. */
  lemma LoginPageExitsNonZero(hasCookie: bool, hasEmail: bool, servers: seq<string>, session: Session, i: nat)
    requires |session.visits| == |servers| && i < |servers|
    requires Processes(hasCookie, hasEmail, servers, session)
    requires session.visits[i].landing.Some? && !IsLoggedIn(session.visits[i].landing.value.url)
    ensures ExitStatus(RunResults(hasCookie, hasEmail, servers, session)) == 1
  {
    var r := RunResults(hasCookie, hasEmail, servers, session);
    ExitStatusFailsOn(r, i, ServerId(servers[i]) + ": ", LoginFailed, "");
  }

  /** No renew tag holds a `:` or an `f`, so none can complete `error:` or spell `login_failed`. */
  lemma RenewTagChars(t: string)
    requires t in RenewTags
    ensures ':' !in t && 'f' !in t
  {
    assert t in {RenewSuccess, AlreadyRenewed, NoRenewButton, RenewButtonDisabled}
        || t in {RenewUnknownChanged, RenewNoChange, RenewClickError, RenewError};
  }

  /** No start tag holds a `:` or an `f`. */
  lemma StartTagChars(t: string)
    requires t in StartTags
    ensures ':' !in t && 'f' !in t
  {
  }

  /** The tail of a processed server's line carries neither failure marker. */
  lemma StepsTailQuiet(renew: string, start: string)
    requires renew in RenewTags && start in StartTags
    ensures var tail := ": renew:" + renew + ",start:" + start;
      !Contains(tail, LoginFailed) && !Contains(tail, "error:")
  {
    RenewTagChars(renew);
    StartTagChars(start);
    var tail := ": renew:" + renew + ",start:" + start;
    assert 'f' !in tail;
    assert 'f' in LoginFailed;
    ContainsCarriesChars(tail, LoginFailed, 'f');
    RenewPartQuiet(renew);
    StartPartQuiet(": renew:" + renew);
    JunctionBeforeLast(": renew:" + renew + ",start:", start, "error:");
  }

  /** `: renew:` and a tag without `:` hold no `error:`. */
  lemma RenewPartQuiet(renew: string)
    requires ':' !in renew
    ensures !Contains(": renew:" + renew, "error:")
  {
    var marker := "error:";
    var front := ": renew:";
    assert 'o' in marker && 'o' !in front;
    ContainsCarriesChars(front, marker, 'o');
    ContainsCarriesChars(renew, marker, ':');
    assert marker[..|marker| - 1] == "error";
    JunctionAtForeignEnd(front, renew, marker);
  }

  /** Appending `,start:` creates no `error:`. */
  lemma StartPartQuiet(front: string)
    requires !Contains(front, "error:")
    ensures !Contains(front + ",start:", "error:")
  {
    var marker := "error:";
    assert 'e' in marker && 'e' !in ",start:";
    ContainsCarriesChars(",start:", marker, 'e');
    JunctionAtForeignFront(front, ",start:", marker);
  }

  /** The tail of a raised server's line carries neither failure marker. */
  lemma ErrorTailQuiet()
    ensures !Contains(": " + Error, LoginFailed) && !Contains(": " + Error, "error:")
  {
    var marker := "error:";
    assert 'f' in LoginFailed && 'e' in marker && marker[|marker| - 1] !in Error;
    ContainsCarriesChars(": " + Error, LoginFailed, 'f');
    ContainsCarriesChars(": ", marker, 'e');
    JunctionBeforeLast(": ", Error, marker);
  }

  /** The tail of a login-page server's line carries `login_failed` and no `error:`. */
  lemma LoginTailMarked()
    ensures Contains(": " + LoginFailed, LoginFailed) && !Contains(": " + LoginFailed, "error:")
  {
    assert ": " + LoginFailed == ": " + LoginFailed + "";
    ContainsInfix(": ", LoginFailed, "");
    assert 'r' in "error:";
    ContainsCarriesChars(": " + LoginFailed, "error:", 'r');
  }

  /**
   * A server's result line carries `login_failed` exactly when its
   * identifier does or its page was a login page, and carries `error:`
   * exactly when its identifier does or ends in `error`: the `:` written
   * after the identifier then completes the marker.
   */
  lemma LineMarkers(id: string, visit: ServerVisit)
    ensures Contains(ServerLine(id, visit), LoginFailed) <==>
      Contains(id, LoginFailed) || (visit.landing.Some? && !IsLoggedIn(visit.landing.value.url))
    ensures Contains(ServerLine(id, visit), "error:") <==> Contains(id, "error:") || EndsWith(id, Error)
  {
    var tail := LineTail(id, visit);
    MarkersAcrossId(id, tail);
  }

  /** What `process_server` writes after the identifier. */
  lemma LineTail(id: string, visit: ServerVisit) returns (tail: string)
    ensures ServerLine(id, visit) == id + tail
    ensures |tail| > 0 && tail[0] == ':' && !Contains(tail, "error:")
    ensures Contains(tail, LoginFailed) <==> visit.landing.Some? && !IsLoggedIn(visit.landing.value.url)
  {
    if visit.landing.None? {
      tail := ": " + Error;
      ErrorTailQuiet();
    } else if !IsLoggedIn(visit.landing.value.url) {
      tail := ": " + LoginFailed;
      LoginTailMarked();
    } else {
      tail := StepsTail(id, visit);
    }
  }

  /** The tail of a server whose page passed the login check. */
  lemma StepsTail(id: string, visit: ServerVisit) returns (tail: string)
    requires visit.landing.Some? && IsLoggedIn(visit.landing.value.url)
    ensures ServerLine(id, visit) == id + tail
    ensures |tail| > 0 && tail[0] == ':' && !Contains(tail, "error:") && !Contains(tail, LoginFailed)
  {
    var out := ServerOutcome(visit);
    assert out.renew in RenewTags && out.start in StartTags;
    tail := ": renew:" + out.renew + ",start:" + out.start;
    StepsTailQuiet(out.renew, out.start);
  }

  /**
   * A tail that starts with `:` and holds no `error:` adds the login marker
   * only if it holds it, and completes `error:` exactly after an identifier
   * ending in `error`.
   */
  lemma MarkersAcrossId(id: string, tail: string)
    requires |tail| > 0 && tail[0] == ':' && !Contains(tail, "error:")
    ensures Contains(id + tail, LoginFailed) <==> Contains(id, LoginFailed) || Contains(tail, LoginFailed)
    ensures Contains(id + tail, "error:") <==> Contains(id, "error:") || EndsWith(id, Error)
  {
    assert ':' !in LoginFailed;
    JunctionAtForeignFront(id, tail, LoginFailed);
    var marker := "error:";
    assert marker[..|marker| - 1] == Error && ':' !in Error;
    JunctionAtLastOnly(id, tail, marker);
  }

  /** An identifier whose result line cannot carry a failure marker. */
  predicate QuietId(id: string) {
    !Contains(id, LoginFailed) && !Contains(id, "error:") && !EndsWith(id, Error)
  }

  /** Every server page passed the login check, or its processing raised. */
  predicate LandingsPass(visits: seq<ServerVisit>) {
    forall i | 0 <= i < |visits| :: visits[i].landing.None? || IsLoggedIn(visits[i].landing.value.url)
  }

  /**
   * The exit rule over a whole run: the process exits with 0 exactly when
   * the servers were processed, no server page was a login page, and every
   * server identifier is quiet. A server whose own processing raised does
   * not fail the run, unless its identifier ends in `error`.
   */
  lemma RunExitsZeroIff(hasCookie: bool, hasEmail: bool, servers: seq<string>, session: Session)
    requires |session.visits| == |servers|
    ensures ExitStatus(RunResults(hasCookie, hasEmail, servers, session)) == 0 <==>
      && Processes(hasCookie, hasEmail, servers, session)
      && LandingsPass(session.visits)
      && forall i | 0 <= i < |servers| :: QuietId(ServerId(servers[i]))
  {
    var r := RunResults(hasCookie, hasEmail, servers, session);
    if !Processes(hasCookie, hasEmail, servers, session) {
      RunFailureExitsNonZero(hasCookie, hasEmail, servers, session);
    } else {
      forall i | 0 <= i < |servers|
        ensures (!Contains(r[i], LoginFailed) && !Contains(r[i], "error:")) <==>
          (QuietId(ServerId(servers[i]))
           && (session.visits[i].landing.None? || IsLoggedIn(session.visits[i].landing.value.url)))
      {
        LineMarkers(ServerId(servers[i]), session.visits[i]);
      }
    }
  }

  /**
   * The table a run leaves behind, starting from `t`: the server loop's
   * records when it ran, even when closing the browser raised afterwards.
   * No key is ever dropped, the record of a key no configured server has is
   * kept, and the table grows by at most one key per server.
   */
  function RunTable(t: ResultTable, hasCookie: bool, hasEmail: bool, servers: seq<string>, session: Session): (u: ResultTable)
    requires t.Valid() && |session.visits| == |servers|
    ensures u.Valid()
    ensures forall k | k in t.entries :: k in u.entries
    ensures forall k | k in t.entries && (forall i | 0 <= i < |servers| :: ServerId(servers[i]) != k) ::
      u.entries[k] == t.entries[k]
    ensures |u.keys| <= |t.keys| + |servers|
  {
    ProcessAllKeys(t, servers, session.visits);
    if Visits(hasCookie, hasEmail, servers, session) then ProcessAll(t, servers, session.visits) else t
  }

  /**
   * From an empty table, a run records exactly one entry per configured
   * server identifier when it processes the servers, and none otherwise;
   * the success counters never exceed the number of configured servers.
   */
  lemma RunTableFromEmpty(hasCookie: bool, hasEmail: bool, servers: seq<string>, session: Session)
    requires |session.visits| == |servers|
    ensures var u := RunTable(Empty, hasCookie, hasEmail, servers, session);
      && (Visits(hasCookie, hasEmail, servers, session) ==>
            forall k :: k in u.entries <==> exists i | 0 <= i < |servers| :: ServerId(servers[i]) == k)
      && (!Visits(hasCookie, hasEmail, servers, session) ==> u.entries == map[])
      && RenewSuccesses(u) <= |servers| && StartSuccesses(u) <= |servers|
  {
    var u := RunTable(Empty, hasCookie, hasEmail, servers, session);
    ProcessAllKeys(Empty, servers, session.visits);
    CountersBounded(u);
    EntryCount(u);
  }

  class WeirdhostAuto {
    var url: string
    var serverUrls: string
    var loginUrl: string
    var rememberWebCookie: string
    var email: string
    var password: string
    var serverList: seq<string>
    var serverResults: ResultTable

    ghost predicate Valid()
      reads this
    {
      serverResults.Valid()
    }

    /** Reads the configuration from the environment and parses the server list. */
    constructor (env: Environment)
      ensures Valid()
      ensures url == GetEnv(env, "WEIRDHOST_URL", DefaultUrl)
      ensures serverUrls == GetEnv(env, "WEIRDHOST_SERVER_URLS", "")
      ensures loginUrl == GetEnv(env, "WEIRDHOST_LOGIN_URL", DefaultLoginUrl)
      ensures rememberWebCookie == GetEnv(env, "REMEMBER_WEB_COOKIE", "")
      ensures email == GetEnv(env, "WEIRDHOST_EMAIL", "")
      ensures password == GetEnv(env, "WEIRDHOST_PASSWORD", "")
      ensures serverList == ParseServerList(serverUrls)
      ensures serverResults == Empty
    {
      url := GetEnv(env, "WEIRDHOST_URL", DefaultUrl);
      var raw := GetEnv(env, "WEIRDHOST_SERVER_URLS", "");
      serverUrls := raw;
      loginUrl := GetEnv(env, "WEIRDHOST_LOGIN_URL", DefaultLoginUrl);
      rememberWebCookie := GetEnv(env, "REMEMBER_WEB_COOKIE", "");
      email := GetEnv(env, "WEIRDHOST_EMAIL", "");
      password := GetEnv(env, "WEIRDHOST_PASSWORD", "");
      var parsed := [];
      if raw != "" {
        parsed := ParseServerList(raw);
      }
      serverList := parsed;
      serverResults := Empty;
    }

    /**
     * `process_server`: write the placeholder record, then overwrite its
     * fields with the outcome. The table gains or rewrites the record of this
     * server only.
     */
    method ProcessServer(serverUrl: string, visit: ServerVisit) returns (line: string)
      requires Valid()
      modifies this
      ensures Valid()
      ensures serverResults == old(serverResults).Put(ServerId(serverUrl), ServerOutcome(visit))
      ensures line == ServerLine(ServerId(serverUrl), visit)
      ensures url == old(url) && serverUrls == old(serverUrls) && loginUrl == old(loginUrl)
      ensures rememberWebCookie == old(rememberWebCookie) && email == old(email) && password == old(password)
      ensures serverList == old(serverList)
    {
      var serverId := ServerId(serverUrl);
      ghost var before := serverResults;
      serverResults := serverResults.Put(serverId, Status(NotRun, NotRun));
      match visit.landing {
        case None =>
          serverResults := serverResults.Put(serverId, serverResults.entries[serverId].(renew := Error));
          PutPut(before, serverId, Status(NotRun, NotRun), Status(Error, NotRun));
          serverResults := serverResults.Put(serverId, serverResults.entries[serverId].(start := Error));
          PutPut(before, serverId, Status(Error, NotRun), Status(Error, Error));
          return serverId + ": " + Error;
        case Some(page) =>
          if !IsLoggedIn(page.url) {
            serverResults := serverResults.Put(serverId, serverResults.entries[serverId].(renew := LoginFailed));
            PutPut(before, serverId, Status(NotRun, NotRun), Status(LoginFailed, NotRun));
            serverResults := serverResults.Put(serverId, serverResults.entries[serverId].(start := LoginFailed));
            PutPut(before, serverId, Status(LoginFailed, NotRun), Status(LoginFailed, LoginFailed));
            return serverId + ": " + LoginFailed;
          }
          var renewResult := RenewServer(visit.renew).tag;
          serverResults := serverResults.Put(serverId, serverResults.entries[serverId].(renew := renewResult));
          PutPut(before, serverId, Status(NotRun, NotRun), Status(renewResult, NotRun));
          var startResult := StartServer(visit.start).tag;
          serverResults := serverResults.Put(serverId, serverResults.entries[serverId].(start := startResult));
          PutPut(before, serverId, Status(renewResult, NotRun), Status(renewResult, startResult));
          return serverId + ": renew:" + renewResult + ",start:" + startResult;
      }
    }

    /**
     * `run`: the credential check comes before the server-list check; then
     * the login attempts, and either every server in order or a uniform
     * failure list; an exception escaping the browser session replaces the
     * list with the fault list, whenever it happens.
     */
    method Run(session: Session) returns (results: seq<string>)
      requires Valid()
      requires |session.visits| == |serverList|
      modifies this
      ensures Valid()
      ensures url == old(url) && serverUrls == old(serverUrls) && loginUrl == old(loginUrl)
      ensures rememberWebCookie == old(rememberWebCookie) && email == old(email) && password == old(password)
      ensures serverList == old(serverList)
      ensures results == RunResults(HasCookieAuth(rememberWebCookie), HasEmailAuth(email, password), serverList, session)
      ensures serverResults == RunTable(old(serverResults), HasCookieAuth(rememberWebCookie),
                                        HasEmailAuth(email, password), serverList, session)
    {
      var hasCookie := HasCookieAuth(rememberWebCookie);
      var hasEmail := HasEmailAuth(email, password);
      if !hasCookie && !hasEmail {
        return [NoAuth];
      }
      if serverList == [] {
        return [NoServers];
      }
      if session.escape.Some? && session.escape.value.stage == Startup {
        return seq(|serverList|, _ => FaultTag(session.escape.value.fault));
      }
      var loginSuccess := false;
      if hasCookie {
        if session.login.cookieAccepted {
          if IsLoggedIn(session.login.cookieLandingUrl) {
            loginSuccess := true;
          }
        }
      }
      if !loginSuccess && hasEmail {
        if EmailLoginSucceeded(session.login.emailSubmitUrl) {
          if IsLoggedIn(session.login.emailLandingUrl) {
            loginSuccess := true;
          }
        }
      }
      assert loginSuccess == LoginSucceeded(hasCookie, hasEmail, session.login);
      if loginSuccess {
        results := ProcessServers(session);
      } else {
        results := seq(|serverList|, _ => LoginFailed);
      }
      if session.escape.Some? {
        // closing the browser raised: the list is replaced, the records stay
        results := seq(|serverList|, _ => FaultTag(session.escape.value.fault));
      }
    }

    /** The loop of `run` over the configured servers, in order. */
    method ProcessServers(session: Session) returns (results: seq<string>)
      requires Valid()
      requires |session.visits| == |serverList|
      modifies this
      ensures Valid()
      ensures url == old(url) && serverUrls == old(serverUrls) && loginUrl == old(loginUrl)
      ensures rememberWebCookie == old(rememberWebCookie) && email == old(email) && password == old(password)
      ensures serverList == old(serverList)
      ensures serverResults == ProcessAll(old(serverResults), serverList, session.visits)
      ensures results == ServerLines(serverList, session.visits)
    {
      results := [];
      ghost var start := serverResults;
      ghost var ids := IdList(serverList);
      ghost var outs := Outcomes(session.visits);
      ghost var lines := ServerLines(serverList, session.visits);
      var servers := serverList;
      var i := 0;
      while i < |servers|
        invariant 0 <= i <= |servers|
        invariant Valid()
        invariant servers == serverList == old(serverList)
        invariant url == old(url) && serverUrls == old(serverUrls) && loginUrl == old(loginUrl)
        invariant rememberWebCookie == old(rememberWebCookie) && email == old(email) && password == old(password)
        invariant serverResults == Record(start, ids[..i], outs[..i])
        invariant results == lines[..i]
      {
        var result := ProcessServer(servers[i], session.visits[i]);
        RecordSnoc(start, ids, outs, i);
        PrefixSnoc(lines, i);
        results := results + [result];
        i := i + 1;
      }
      assert ids[..i] == ids && outs[..i] == outs && lines[..i] == lines;
    }

    /**
     * `write_readme_file` without the file write: the report text for the
     * current table, the result list and the given timestamp.
     */
    method WriteReadmeFile(results: seq<string>, timestamp: string) returns (content: string)
      requires Valid()
      ensures content == ReadmeContent(timestamp, serverResults, results, |serverList|)
    {
      var table := RecordRowsText();
      var fallback := "";
      if |serverResults.entries| == 0 {
        fallback := FallbackRowsText(results);
      }
      var totalServers := |serverList|;
      var successfulRenews := RenewSuccesses(serverResults);
      var successfulStarts := StartSuccesses(serverResults);
      content := Header(timestamp) + table + fallback + Footer(timestamp, totalServers, successfulRenews, successfulStarts);
    }

    /** The loop over `server_results.items()`: one row per record, in insertion order. */
    method RecordRowsText() returns (table: string)
      requires Valid()
      ensures table == Concat(TableRows(serverResults))
    {
      var keys := serverResults.keys;
      ghost var rows := TableRows(serverResults);
      table := "";
      var i := 0;
      while i < |keys|
        invariant 0 <= i <= |keys|
        invariant table == Concat(rows[..i])
      {
        var serverId := keys[i];
        var status := serverResults.entries[serverId];
        ConcatSnoc(rows, i);
        table := table + Row(serverId, status);
        i := i + 1;
      }
      assert rows[..i] == rows;
    }
  }

  /** The loop over the result list when there are no records: one fallback row per result. */
  method FallbackRowsText(results: seq<string>) returns (fallback: string)
    ensures fallback == Concat(ResultRows(results))
  {
    ghost var fallbackRows := ResultRows(results);
    fallback := "";
    var j := 0;
    while j < |results|
      invariant 0 <= j <= |results|
      invariant fallback == Concat(fallbackRows[..j])
    {
      ConcatSnoc(fallbackRows, j);
      fallback := fallback + ResultRow(results[j]);
      j := j + 1;
    }
    assert fallbackRows[..j] == fallbackRows;
  }

  /**
   * `main`: exit with 1 before any browser work when `SLOW_MO` is not an
   * integer, or when credentials or servers are missing; otherwise run, write the report, and exit with 1 exactly when
   * some result carries a failure marker.
   */
  method Launch(env: Environment, session: Session, timestamp: string) returns (exitCode: int, readme: Option<string>)
    requires |session.visits| == |ParseServerList(GetEnv(env, "WEIRDHOST_SERVER_URLS", ""))|
    ensures !IntLiteral(GetEnv(env, "SLOW_MO", "100")) ==> exitCode == 1 && readme == None
    ensures var servers := ParseServerList(GetEnv(env, "WEIRDHOST_SERVER_URLS", ""));
      var hasCookie := HasCookieAuth(GetEnv(env, "REMEMBER_WEB_COOKIE", ""));
      var hasEmail := HasEmailAuth(GetEnv(env, "WEIRDHOST_EMAIL", ""), GetEnv(env, "WEIRDHOST_PASSWORD", ""));
      IntLiteral(GetEnv(env, "SLOW_MO", "100")) ==>
      && ((!hasCookie && !hasEmail) || servers == [] ==> exitCode == 1 && readme == None)
      && ((hasCookie || hasEmail) && servers != [] ==>
            && exitCode == ExitStatus(RunResults(hasCookie, hasEmail, servers, session))
            && readme == Some(ReadmeContent(timestamp, RunTable(Empty, hasCookie, hasEmail, servers, session),
                                            RunResults(hasCookie, hasEmail, servers, session), |servers|)))
  {
    if !IntLiteral(GetEnv(env, "SLOW_MO", "100")) {
      // `int()` raises in the constructor: the script dies before any check
      return 1, None;
    }
    var auto := new WeirdhostAuto(env);
    if !HasCookieAuth(auto.rememberWebCookie) && !HasEmailAuth(auto.email, auto.password) {
      return 1, None;
    }
    if auto.serverList == [] {
      return 1, None;
    }
    var results := auto.Run(session);
    var content := auto.WriteReadmeFile(results, timestamp);
    exitCode := ExitStatus(results);
    readme := Some(content);
  }
}
