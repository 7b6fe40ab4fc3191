/**
 * `LogToJiraAppender`: the log4j appender. For each event it logs in to the
 * tracker, builds the candidate issue, creates it remotely unless an open
 * duplicate exists, and logs out. A remote failure is reported to the
 * appender's error handler and never escapes `append`.
 *
 * The tracker is an oracle: one fixed reply for each kind of remote call.
 * `append` returns the trace of what happened, the remote calls it made and
 * the error reports it filed, in order.
 */
module LogToJiraAppender {
  import opened JavaLang
  import opened Records
  import opened AppenderService

  /**
   * A service instance, known by the number of instances created before it.
   * It shares the appender's settings object, so it always sees the current
   * settings.
   */
  datatype ServiceRef = ServiceRef(serial: nat)

  /**
   * The appender's state: its settings, the cached service (if it has been
   * created yet), and how many service instances it has ever created.
   */
  datatype Appender = Appender(config: Config, service: Option<ServiceRef>, created: nat)

  /** A freshly constructed appender: empty settings, no service yet. */
  function Init(): (r: Appender)
    ensures r.config.username.Null? && r.config.password.Null?
    ensures r.config.project.Null? && r.config.issueTypeId.Null?
    ensures r.service.None? && r.created == 0
  {
    Appender(EmptyConfig, None, 0)
  }

  /**
   * The lazily created service: the cached one if there is one, otherwise a
   * new instance, which is cached.
   */
  function GetService(a: Appender): (r: (Appender, ServiceRef))
    ensures r.0.service == Some(r.1)
    ensures r.0.config == a.config
    ensures a.service.Some? ==> r.0 == a && r.1 == a.service.value
    ensures a.service.None? ==> r.0.created == a.created + 1 && r.1.serial == a.created
  {
    match a.service
    case Some(s) => (a, s)
    case None =>
      var s := ServiceRef(a.created);
      (a.(service := Some(s), created := a.created + 1), s)
  }

  /** The appender does not need a log4j layout. */
  function RequiresLayout(): (r: bool)
    ensures !r
  {
    false
  }

  // ---------------------------------------------------------------------------
  // Setters

  function SetUsername(a: Appender, v: JString): (r: Appender)
    ensures r.config.username == v
    ensures r.config.password == a.config.password && r.config.project == a.config.project
    ensures r.config.issueTypeId == a.config.issueTypeId
    ensures r.service == a.service && r.created == a.created
  {
    a.(config := a.config.(username := v))
  }

  function SetPassword(a: Appender, v: JString): (r: Appender)
    ensures r.config.password == v
    ensures r.config.username == a.config.username && r.config.project == a.config.project
    ensures r.config.issueTypeId == a.config.issueTypeId
    ensures r.service == a.service && r.created == a.created
  {
    a.(config := a.config.(password := v))
  }

  function SetProject(a: Appender, v: JString): (r: Appender)
    ensures r.config.project == v
    ensures r.config.username == a.config.username && r.config.password == a.config.password
    ensures r.config.issueTypeId == a.config.issueTypeId
    ensures r.service == a.service && r.created == a.created
  {
    a.(config := a.config.(project := v))
  }

  function SetIssueTypeId(a: Appender, v: JString): (r: Appender)
    ensures r.config.issueTypeId == v
    ensures r.config.username == a.config.username && r.config.password == a.config.password
    ensures r.config.project == a.config.project
    ensures r.service == a.service && r.created == a.created
  {
    a.(config := a.config.(issueTypeId := v))
  }

  /** Setting all four fields of a fresh appender yields exactly those settings. */
  lemma SettersConfigure(u: JString, p: JString, project: JString, t: JString)
    ensures SetIssueTypeId(SetProject(SetPassword(SetUsername(Init(), u), p), project), t)
         == Appender(Config(u, p, project, t), None, 0)
  {
  }

  // ---------------------------------------------------------------------------
  // append

  /** The tracker's fixed replies to login, search, create and logout. */
  datatype Oracle = Oracle(
    login: Reply<JString>,
    search: Reply<seq<RemoteIssue>>,
    create: Reply<RemoteIssue>,
    logout: Reply<bool>)

  /** One step of an append: a remote call, or a report to the error handler. */
  datatype Entry =
    | Remote(call: Call)
    | Report(message: string, fault: Fault, event: LoggingEvent)

  /** The handler message for each kind of failure. */
  function ErrorMessage(f: Fault): (m: string)
    ensures f.AuthFault? ==> m == "JIRA auth failed"
    ensures f.RemoteFault? ==> m == "JIRA problem"
  {
    match f
    case AuthFault => "JIRA auth failed"
    case RemoteFault => "JIRA problem"
  }

  /** What an append did, and the appender state after it. */
  datatype Outcome = Outcome(appender: Appender, trace: seq<Entry>)

  /**
   * Handles one event: login, build the issue, search for a duplicate,
   * create the issue unless one was found, logout. The first failing call
   * ends the sequence with one report; nothing is rethrown, and after a
   * failure no logout is attempted.
   */
  function Append(a: Appender, event: LoggingEvent, oracle: Oracle, format: Formatter): (r: Outcome)
    ensures r.appender.config == a.config
    ensures |r.trace| >= 2 && r.trace[0] == Remote(Login(a.config.username, a.config.password))
    ensures forall i :: 0 <= i < |r.trace| - 1 ==> r.trace[i].Remote?
    ensures oracle.login.Failed? ==> r.appender == a
    ensures oracle.login.Ok? ==> r.appender == GetService(a).0
  {
    var login := Remote(Login(a.config.username, a.config.password));
    match oracle.login
    case Failed(f) => Outcome(a, [login, Report(ErrorMessage(f), f, event)])
    case Ok(token) =>
      var a1 := GetService(a).0;
      var issue := CreateIssue(a1.config, event, format);
      var a2 := GetService(a1).0;
      var (search, found) := DuplicateExists(a2.config, issue, token, oracle.search);
      var sofar := [login, Remote(search)];
      match found
      case Failed(f) => Outcome(a2, sofar + [Report(ErrorMessage(f), f, event)])
      case Ok(duplicate) =>
        var sofar := if duplicate then sofar else sofar + [Remote(CreateRemote(token, issue))];
        if !duplicate && oracle.create.Failed? then
          Outcome(a2, sofar + [Report(ErrorMessage(oracle.create.fault), oracle.create.fault, event)])
        else
          var sofar := sofar + [Remote(Logout(token))];
          match oracle.logout
          case Failed(f) => Outcome(a2, sofar + [Report(ErrorMessage(f), f, event)])
          case Ok(_) => Outcome(a2, sofar)
  }

  // ---------------------------------------------------------------------------
  // What an append does, stated against the oracle's replies

  /**
   * The failure that stops an append before its logout, read off the
   * replies: the first failing call among login, search and (when the
   * search found nothing) create.
   */
  function FaultBeforeLogout(o: Oracle): Option<Fault> {
    if o.login.Failed? then Some(o.login.fault)
    else if o.search.Failed? then Some(o.search.fault)
    else if |o.search.value| == 0 && o.create.Failed? then Some(o.create.fault)
    else None
  }

  /** The failure an append reports, if any: one before the logout, or the logout's own. */
  function Failure(o: Oracle): Option<Fault> {
    match FaultBeforeLogout(o)
    case Some(f) => Some(f)
    case None => if o.logout.Failed? then Some(o.logout.fault) else None
  }

  /** The order in which the remote calls of one append are made. */
  function Rank(c: Call): nat {
    match c
    case Login(_, _) => 0
    case Search(_, _, _) => 1
    case CreateRemote(_, _) => 2
    case Logout(_) => 3
  }

  /** The token the login hands out, when it succeeds. */
  function Token(o: Oracle): JString {
    if o.login.Ok? then o.login.value else Null
  }

  /**
   * The trace of an append in each of the seven ways the replies can fall
   * out. The lemmas below are read off these.
   */
  lemma AppendTraceCases(a: Appender, event: LoggingEvent, oracle: Oracle, format: Formatter)
    ensures (var tr, l := Append(a, event, oracle, format).trace, Remote(Login(a.config.username, a.config.password));
             var issue := CreateIssue(a.config, event, format);
             var s := Remote(Search(Token(oracle), DuplicateQuery(a.config, issue), 1));
             var c, o := Remote(CreateRemote(Token(oracle), issue)), Remote(Logout(Token(oracle)));
             && (oracle.login.Failed? ==>
                   tr == [l, Report(ErrorMessage(oracle.login.fault), oracle.login.fault, event)])
             && (oracle.login.Ok? && oracle.search.Failed? ==>
                   tr == [l, s, Report(ErrorMessage(oracle.search.fault), oracle.search.fault, event)])
             && (oracle.login.Ok? && oracle.search.Ok? && |oracle.search.value| > 0 && oracle.logout.Failed? ==>
                   tr == [l, s, o, Report(ErrorMessage(oracle.logout.fault), oracle.logout.fault, event)])
             && (oracle.login.Ok? && oracle.search.Ok? && |oracle.search.value| > 0 && oracle.logout.Ok? ==>
                   tr == [l, s, o])
             && (oracle.login.Ok? && oracle.search.Ok? && |oracle.search.value| == 0 && oracle.create.Failed? ==>
                   tr == [l, s, c, Report(ErrorMessage(oracle.create.fault), oracle.create.fault, event)])
             && (oracle.login.Ok? && oracle.search.Ok? && |oracle.search.value| == 0 && oracle.create.Ok?
                 && oracle.logout.Failed? ==>
                   tr == [l, s, c, o, Report(ErrorMessage(oracle.logout.fault), oracle.logout.fault, event)])
             && (oracle.login.Ok? && oracle.search.Ok? && |oracle.search.value| == 0 && oracle.create.Ok?
                 && oracle.logout.Ok? ==>
                   tr == [l, s, c, o]))
  {
    if oracle.login.Ok? && oracle.search.Ok? {
      if |oracle.search.value| > 0 {
        AppendTraceDuplicate(a, event, oracle, format);
      } else {
        AppendTraceFresh(a, event, oracle, format);
      }
    }
  }

  /** The traces when a duplicate is found: the search is followed by the logout. */
  lemma AppendTraceDuplicate(a: Appender, event: LoggingEvent, oracle: Oracle, format: Formatter)
    requires oracle.login.Ok? && oracle.search.Ok? && |oracle.search.value| > 0
    ensures (var tr, l := Append(a, event, oracle, format).trace, Remote(Login(a.config.username, a.config.password));
             var issue := CreateIssue(a.config, event, format);
             var s := Remote(Search(Token(oracle), DuplicateQuery(a.config, issue), 1));
             var o := Remote(Logout(Token(oracle)));
             && (oracle.logout.Failed? ==>
                   tr == [l, s, o, Report(ErrorMessage(oracle.logout.fault), oracle.logout.fault, event)])
             && (oracle.logout.Ok? ==> tr == [l, s, o]))
  {
  }

  /** The traces when the search finds nothing: the search is followed by the creation. */
  lemma AppendTraceFresh(a: Appender, event: LoggingEvent, oracle: Oracle, format: Formatter)
    requires oracle.login.Ok? && oracle.search.Ok? && |oracle.search.value| == 0
    ensures (var tr, l := Append(a, event, oracle, format).trace, Remote(Login(a.config.username, a.config.password));
             var issue := CreateIssue(a.config, event, format);
             var s := Remote(Search(Token(oracle), DuplicateQuery(a.config, issue), 1));
             var c, o := Remote(CreateRemote(Token(oracle), issue)), Remote(Logout(Token(oracle)));
             && (oracle.create.Failed? ==>
                   tr == [l, s, c, Report(ErrorMessage(oracle.create.fault), oracle.create.fault, event)])
             && (oracle.create.Ok? && oracle.logout.Failed? ==>
                   tr == [l, s, c, o, Report(ErrorMessage(oracle.logout.fault), oracle.logout.fault, event)])
             && (oracle.create.Ok? && oracle.logout.Ok? ==> tr == [l, s, c, o]))
  {
  }

  /** A failed login is reported with its own message and ends the append. */
  lemma AppendLoginFails(a: Appender, event: LoggingEvent, oracle: Oracle, format: Formatter)
    requires oracle.login.Failed?
    ensures (var f := oracle.login.fault;
              Append(a, event, oracle, format).trace
              == [Remote(Login(a.config.username, a.config.password)), Report(ErrorMessage(f), f, event)])
  {
  }

  /**
   * When everything succeeds and the search finds nothing, the calls are
   * login, the duplicate search, the creation of the candidate issue, and
   * the logout, all with the login's token.
   */
  lemma AppendCreatesNewIssue(a: Appender, event: LoggingEvent, oracle: Oracle, format: Formatter)
    requires oracle.login.Ok? && oracle.search == Ok([]) && oracle.create.Ok? && oracle.logout.Ok?
    ensures (var t, issue := oracle.login.value, CreateIssue(a.config, event, format);
              Append(a, event, oracle, format).trace
              == [Remote(Login(a.config.username, a.config.password)),
                  Remote(Search(t, DuplicateQuery(a.config, issue), 1)),
                  Remote(CreateRemote(t, issue)),
                  Remote(Logout(t))])
  {
  }

  /** When a duplicate is found nothing is created, but the session is still closed. */
  lemma AppendSkipsDuplicate(a: Appender, event: LoggingEvent, oracle: Oracle, format: Formatter)
    requires oracle.login.Ok? && oracle.search.Ok? && |oracle.search.value| > 0 && oracle.logout.Ok?
    ensures (var t, issue := oracle.login.value, CreateIssue(a.config, event, format);
              Append(a, event, oracle, format).trace
              == [Remote(Login(a.config.username, a.config.password)),
                  Remote(Search(t, DuplicateQuery(a.config, issue), 1)),
                  Remote(Logout(t))])
  {
  }

  /**
   * An append files a report exactly when some call fails, and then exactly
   * one, last, naming the first failure with the message for its kind and
   * carrying the event.
   */
  lemma AppendReportsFirstFailure(a: Appender, event: LoggingEvent, oracle: Oracle, format: Formatter)
    ensures (var tr := Append(a, event, oracle, format).trace;
              (exists i :: 0 <= i < |tr| && tr[i].Report?) <==> Failure(oracle).Some?)
    ensures (var tr, f := Append(a, event, oracle, format).trace, Failure(oracle);
              f.Some? ==> tr[|tr| - 1] == Report(ErrorMessage(f.value), f.value, event))
  {
    AppendTraceCases(a, event, oracle, format);
    var tr := Append(a, event, oracle, format).trace;
    if Failure(oracle).Some? {
      assert tr[|tr| - 1].Report?;
    }
  }

  /** The logout is attempted exactly when no earlier call failed. */
  lemma AppendLogsOut(a: Appender, event: LoggingEvent, oracle: Oracle, format: Formatter)
    ensures (var tr := Append(a, event, oracle, format).trace;
              (exists i :: 0 <= i < |tr| && tr[i].Remote? && tr[i].call.Logout?) <==> FaultBeforeLogout(oracle).None?)
  {
    AppendTraceCases(a, event, oracle, format);
    var tr := Append(a, event, oracle, format).trace;
    if FaultBeforeLogout(oracle).None? {
      var k := if |oracle.search.value| > 0 then 2 else 3;
      assert tr[k].Remote? && tr[k].call.Logout?;
    }
  }

  /** What is created remotely is the candidate issue for the event under the current settings. */
  lemma AppendCreatesCandidate(a: Appender, event: LoggingEvent, oracle: Oracle, format: Formatter)
    ensures (var tr := Append(a, event, oracle, format).trace;
              forall i :: 0 <= i < |tr| && tr[i].Remote? && tr[i].call.CreateRemote? ==>
                tr[i].call.issue == CreateIssue(a.config, event, format))
  {
    AppendTraceCases(a, event, oracle, format);
  }

  /**
   * The issue is created remotely exactly when login and search succeed and
   * the search finds nothing.
   */
  lemma AppendCreatesOnlyWithoutDuplicate(a: Appender, event: LoggingEvent, oracle: Oracle, format: Formatter)
    ensures (var tr := Append(a, event, oracle, format).trace;
              (exists i :: 0 <= i < |tr| && tr[i].Remote? && tr[i].call.CreateRemote?)
              <==> oracle.login.Ok? && oracle.search.Ok? && |oracle.search.value| == 0)
  {
    AppendTraceCases(a, event, oracle, format);
    var tr := Append(a, event, oracle, format).trace;
    if oracle.login.Ok? && oracle.search.Ok? && |oracle.search.value| == 0 {
      assert tr[2].Remote? && tr[2].call.CreateRemote?;
    }
  }

  /**
   * Every call after the login carries the token the login returned, and
   * the search is the duplicate query for the candidate issue, bounded to
   * one result.
   */
  lemma AppendUsesLoginToken(a: Appender, event: LoggingEvent, oracle: Oracle, format: Formatter)
    requires oracle.login.Ok?
    ensures (var tr := Append(a, event, oracle, format).trace;
              forall i :: 1 <= i < |tr| && tr[i].Remote? ==>
                !tr[i].call.Login? && tr[i].call.token == oracle.login.value)
    ensures (var tr := Append(a, event, oracle, format).trace;
              forall i :: 0 <= i < |tr| && tr[i].Remote? && tr[i].call.Search? ==>
                tr[i].call == Search(oracle.login.value, DuplicateQuery(a.config, CreateIssue(a.config, event, format)), 1))
  {
    AppendTraceCases(a, event, oracle, format);
  }

  /** The remote calls come in the order login, search, create, logout, each at most once. */
  lemma AppendCallOrder(a: Appender, event: LoggingEvent, oracle: Oracle, format: Formatter)
    ensures (var tr := Append(a, event, oracle, format).trace;
              forall i, j :: 0 <= i < j < |tr| && tr[i].Remote? && tr[j].Remote? ==> Rank(tr[i].call) < Rank(tr[j].call))
  {
    AppendTraceCases(a, event, oracle, format);
  }

  // ---------------------------------------------------------------------------
  // The service cache over a whole lifetime

  /** Anything that can be done to an appender after construction. */
  datatype Op =
    | SetUsernameOp(v: JString)
    | SetPasswordOp(v: JString)
    | SetProjectOp(v: JString)
    | SetIssueTypeIdOp(v: JString)
    | GetServiceOp
    | AppendOp(event: LoggingEvent, oracle: Oracle)

  function Apply(a: Appender, op: Op, format: Formatter): (r: Appender)
    ensures a.service.Some? ==> r.service == a.service && r.created == a.created
    ensures r.service.Some? || r.created == a.created
    ensures a.service.None? && r.service.Some? ==> r.created == a.created + 1 && r.service.value.serial == a.created
    ensures a.service.Some? ==> r.service.Some?
  {
    match op
    case SetUsernameOp(v) => SetUsername(a, v)
    case SetPasswordOp(v) => SetPassword(a, v)
    case SetProjectOp(v) => SetProject(a, v)
    case SetIssueTypeIdOp(v) => SetIssueTypeId(a, v)
    case GetServiceOp => GetService(a).0
    case AppendOp(event, oracle) => Append(a, event, oracle, format).appender
  }

  function Run(a: Appender, ops: seq<Op>, format: Formatter): Appender
    decreases |ops|
  {
    if ops == [] then a else Run(Apply(a, ops[0], format), ops[1..], format)
  }

  /**
   * However the appender is used, it creates at most one service, and once
   * created the service is the one every later lookup returns.
   */
  lemma {:induction false} ServiceCreatedAtMostOnce(a: Appender, ops: seq<Op>, format: Formatter)
    ensures (var r := Run(a, ops, format);
              && (a.service.Some? ==> r.service == a.service && r.created == a.created)
              && (a.service.None? ==> r.created <= a.created + 1)
              && (a.service.None? && r.service.Some? ==> r.service == Some(ServiceRef(a.created))))
    decreases |ops|
  {
    if ops != [] {
      ServiceCreatedAtMostOnce(Apply(a, ops[0], format), ops[1..], format);
    }
  }
}
