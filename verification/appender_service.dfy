/**
 * `AppenderServiceImpl`: turns a log event into a candidate issue, and
 * decides whether it is a duplicate by running one search in the tracker's
 * query language: a phrase search (`~`) on the summary and the description
 * among open issues. Which issues a phrase search matches is up to the
 * tracker; the model builds the query and passes on the tracker's answer.
 */
module AppenderService {
  import opened JavaLang
  import opened Sequences
  import opened Utf16
  import opened StringEscape
  import opened Records

  /** The description of a new issue: the throwable's stack trace, or nothing. */
  function ComposeDescription(event: LoggingEvent, format: Formatter): (r: string)
    ensures event.throwable.None? ==> r == ""
    ensures event.throwable.Some? ==> r == format(event.throwable.value)
  {
    if event.throwable.Some? then format(event.throwable.value) else ""
  }

  /**
   * The candidate issue for an event: project and type from the settings,
   * summary from the rendered message, and a description that is never null.
   */
  function CreateIssue(config: Config, event: LoggingEvent, format: Formatter): (r: RemoteIssue)
    ensures r.project == config.project
    ensures r.issueType == config.issueTypeId
    ensures r.summary == event.renderedMessage
    ensures r.description.Str?
    ensures event.throwable.None? ==> r.description == Str("")
    ensures event.throwable.Some? ==> r.description == Str(format(event.throwable.value))
  {
    RemoteIssue(config.project, config.issueTypeId, event.renderedMessage, Str(ComposeDescription(event, format)))
  }

  // ---------------------------------------------------------------------------
  // The duplicate query

  /** A quote escaped inside a literal: `\"`. */
  const EscapedQuote := "\\\""
  /** Opens the summary match: ` AND summary ~ "\"`. */
  const SummaryOpen := " AND summary ~ \"" + EscapedQuote
  /** Closes a phrase literal: `\""`. */
  const PhraseClose := EscapedQuote + "\""
  const DescriptionKey := " AND description "
  /** Restricts the search to issues that are still open. */
  const StatusClause := " AND status in (Open, \"In Progress\", Reopened)"

  /** Everything before the first character inside the summary literal. */
  function QueryHead(project: JString): string {
    "project = " + Text(project) + " AND summary ~ \""
  }

  /** The phrase a text field is matched against: the text in double quotes. */
  function Phrase(s: JString): string {
    "\"" + Text(s) + "\""
  }

  /**
   * The search for open issues of the project whose summary matches the
   * summary phrase and, unless the description is blank, whose description
   * matches the description phrase; `~` is the tracker's phrase search, not
   * equality. Free text is passed through `escapeJava`; a blank description
   * is matched with `IS EMPTY`. QueryLayout, SummaryLiteral,
   * DescriptionLiteral and QueryDeterminesIssue state what the query holds.
   */
  function DuplicateQuery(config: Config, issue: RemoteIssue): string {
    var jql := "project = " + Text(config.project);
    var jql := jql + SummaryOpen + Text(EscapeNullable(issue.summary)) + PhraseClose + DescriptionKey;
    var clause :=
      if IsBlank(issue.description) then "IS EMPTY"
      else "~ \"" + EscapedQuote + Text(EscapeNullable(issue.description)) + PhraseClose;
    jql + clause + StatusClause
  }

  /**
   * The duplicate check: one search for the query above, bounded to one
   * result, with the caller's token. A failed search propagates its fault;
   * otherwise the answer is whether anything was found.
   */
  function DuplicateExists(config: Config, issue: RemoteIssue, token: JString, reply: Reply<seq<RemoteIssue>>)
    : (r: (Call, Reply<bool>))
    ensures r.0 == Search(token, DuplicateQuery(config, issue), 1)
    ensures reply.Failed? ==> r.1 == Failed(reply.fault)
    ensures reply.Ok? ==> r.1.Ok? && (r.1.value <==> |reply.value| > 0)
  {
    var search := Search(token, DuplicateQuery(config, issue), 1);
    match reply
    case Failed(f) => (search, Failed(f))
    case Ok(found) => (search, Ok(|found| > 0))
  }

  // ---------------------------------------------------------------------------
  // What the query says

  /** Rendering an escaped reference is escaping its rendering ("null" escapes to itself). */
  lemma TextEscapeNullable(s: JString)
    ensures Text(EscapeNullable(s)) == Escape(Text(s))
  {
    if s.Null? {
      EscapeIdentity("null");
    }
  }

  /** The text inside a phrase literal is the escape of the phrase. */
  lemma EscapedPhrase(s: JString)
    ensures EscapedQuote + Text(EscapeNullable(s)) + EscapedQuote == Escape(Phrase(s))
  {
    TextEscapeNullable(s);
    EscapeTable();
    EscapeAppend("\"", Text(s));
    EscapeAppend("\"" + Text(s), "\"");
  }

  /** The description clause: `IS EMPTY`, or a match against the escaped phrase. */
  function DescriptionClause(d: JString): string {
    if IsBlank(d) then "IS EMPTY" else "~ \"" + Escape(Phrase(d)) + "\""
  }

  // Regroupings of concatenations, over arbitrary strings.

  lemma RegroupQuery(p: string, s: string, q: string, x: string, c: string, dk: string, d: string, sc: string)
    ensures p + (s + q) + x + (q + c) + dk + d + sc == (p + s) + (q + x + q) + c + dk + d + sc
  {
  }

  lemma RegroupClause(a: string, q: string, y: string, c: string)
    ensures a + q + y + (q + c) == a + (q + y + q) + c
  {
  }

  lemma RegroupTail(h: string, e: string, c: string, dk: string, d: string, sc: string)
    ensures h + e + c + dk + d + sc == h + (e + c + (dk + (d + sc)))
  {
  }

  lemma RegroupFront(h: string, e: string, c: string, dk: string, d: string, sc: string)
    ensures h + e + c + dk + d + sc == (h + e + c + dk) + (d + sc)
  {
  }

  lemma RegroupClauseTail(a: string, f: string, c: string, sc: string)
    ensures a + f + c + sc == a + (f + c + sc)
  {
  }

  /** The query split at its literals. */
  lemma QueryLayout(config: Config, issue: RemoteIssue)
    ensures DuplicateQuery(config, issue)
         == QueryHead(config.project) + Escape(Phrase(issue.summary)) + "\""
            + DescriptionKey + DescriptionClause(issue.description) + StatusClause
  {
    var p := "project = " + Text(config.project);
    var x := Text(EscapeNullable(issue.summary));
    EscapedPhrase(issue.summary);
    var clause :=
      if IsBlank(issue.description) then "IS EMPTY"
      else "~ \"" + EscapedQuote + Text(EscapeNullable(issue.description)) + PhraseClose;
    if !IsBlank(issue.description) {
      EscapedPhrase(issue.description);
      RegroupClause("~ \"", EscapedQuote, Text(EscapeNullable(issue.description)), "\"");
    }
    assert clause == DescriptionClause(issue.description);
    assert DuplicateQuery(config, issue) == p + SummaryOpen + x + PhraseClose + DescriptionKey + clause + StatusClause;
    RegroupQuery(p, " AND summary ~ \"", EscapedQuote, x, "\"", DescriptionKey, clause, StatusClause);
  }

  /**
   * The summary literal holds exactly the quoted summary: a reader of the
   * literal that opens after the head stops at the intended closing quote,
   * recovers `"` + summary + `"`, and finds exactly the description key,
   * the description clause and the status restriction after it.
   */
  lemma SummaryLiteral(config: Config, issue: RemoteIssue)
    ensures var q, h, n := DuplicateQuery(config, issue), |QueryHead(config.project)|, |Escape(Phrase(issue.summary))|;
            && h + n + 1 <= |q|
            && q[h - 1] == '"'
            && ReadLiteral(q[h..]) == Some((Encode(Phrase(issue.summary)), n))
            && q[h + n + 1..] == DescriptionKey + (DescriptionClause(issue.description) + StatusClause)
  {
    var q, head := DuplicateQuery(config, issue), QueryHead(config.project);
    SummaryLayout(config, issue);
    HeadEndsInQuote(config.project);
    LiteralAfter(q, head, Phrase(issue.summary), DescriptionKey + (DescriptionClause(issue.description) + StatusClause));
    assert q[|head| - 1] == head[|head| - 1];
  }

  /** The query grouped around the summary literal. */
  lemma SummaryLayout(config: Config, issue: RemoteIssue)
    ensures DuplicateQuery(config, issue)
         == QueryHead(config.project)
            + (Escape(Phrase(issue.summary)) + "\""
               + (DescriptionKey + (DescriptionClause(issue.description) + StatusClause)))
  {
    QueryLayout(config, issue);
    RegroupTail(QueryHead(config.project), Escape(Phrase(issue.summary)), "\"", DescriptionKey,
                DescriptionClause(issue.description), StatusClause);
  }

  /** The head ends with the quote that opens the summary literal. */
  lemma HeadEndsInQuote(project: JString)
    ensures |QueryHead(project)| > 0 && QueryHead(project)[|QueryHead(project)| - 1] == '"'
  {
  }

  /** A literal that opens right after `head`, read in place. */
  lemma LiteralAfter(q: string, head: string, p: string, rest: string)
    requires q == head + (Escape(p) + "\"" + rest)
    ensures |head| + |Escape(p)| + 1 <= |q|
    ensures ReadLiteral(q[|head|..]) == Some((Encode(p), |Escape(p)|))
    ensures q[|head| + |Escape(p)| + 1..] == rest
  {
    var e := Escape(p);
    SliceAfter(q, head, e + "\"", rest);
    LiteralRoundTrip(p, rest);
  }

  /** The offset just past ` AND description `. */
  function ClauseStart(config: Config, issue: RemoteIssue): nat {
    |QueryHead(config.project)| + |Escape(Phrase(issue.summary))| + 1 + |DescriptionKey|
  }

  /** A blank description is matched with `IS EMPTY`, and nothing of its text is in the query. */
  lemma BlankDescriptionClause(config: Config, issue: RemoteIssue)
    requires IsBlank(issue.description)
    ensures var q, k := DuplicateQuery(config, issue), ClauseStart(config, issue);
            k <= |q| && q[k..] == "IS EMPTY" + StatusClause
  {
    QueryTail(config, issue);
  }

  /**
   * A non-blank description is matched against a literal that holds exactly
   * the quoted description, after which only the status restriction follows.
   */
  lemma DescriptionLiteral(config: Config, issue: RemoteIssue)
    requires !IsBlank(issue.description)
    ensures var q, k, m := DuplicateQuery(config, issue), ClauseStart(config, issue), |Escape(Phrase(issue.description))|;
            && k + 3 + m + 1 <= |q|
            && q[k..k + 3] == "~ \""
            && ReadLiteral(q[k + 3..]) == Some((Encode(Phrase(issue.description)), m))
            && q[k + 3 + m + 1..] == StatusClause
  {
    QueryTail(config, issue);
    LiteralAt(DuplicateQuery(config, issue), ClauseStart(config, issue), Phrase(issue.description));
  }

  /** A clause literal found at offset `k` of a string, read in place. */
  lemma LiteralAt(q: string, k: nat, p: string)
    requires k <= |q| && q[k..] == "~ \"" + Escape(p) + "\"" + StatusClause
    ensures var m := |Escape(p)|;
            && k + 3 + m + 1 <= |q|
            && q[k..k + 3] == "~ \""
            && ReadLiteral(q[k + 3..]) == Some((Encode(p), m))
            && q[k + 3 + m + 1..] == StatusClause
  {
    var t, m := q[k..], |Escape(p)|;
    ClauseLiteral(t, p);
    SliceOfSuffix(q, k, 3);
    SliceOfSuffix(q, k, 3 + m + 1);
  }

  /** What follows ` AND description ` in the query. */
  lemma QueryTail(config: Config, issue: RemoteIssue)
    ensures var q, k := DuplicateQuery(config, issue), ClauseStart(config, issue);
            k <= |q| && q[k..] == DescriptionClause(issue.description) + StatusClause
  {
    var head, e := QueryHead(config.project), Escape(Phrase(issue.summary));
    var d := DescriptionClause(issue.description);
    QueryLayout(config, issue);
    RegroupFront(head, e, "\"", DescriptionKey, d, StatusClause);
    DropPrefix(head + e + "\"" + DescriptionKey, d + StatusClause);
  }

  /** A non-blank description clause is a literal holding exactly the phrase. */
  lemma ClauseLiteral(t: string, p: string)
    requires t == "~ \"" + Escape(p) + "\"" + StatusClause
    ensures |t| >= 3 + |Escape(p)| + 1
    ensures t[..3] == "~ \""
    ensures ReadLiteral(t[3..]) == Some((Encode(p), |Escape(p)|))
    ensures t[3 + |Escape(p)| + 1..] == StatusClause
  {
    var f := Escape(p);
    var tail := f + "\"" + StatusClause;
    RegroupClauseTail("~ \"", f, "\"", StatusClause);
    DropPrefix("~ \"", tail);
    StartsWithAppend("~ \"", tail);
    LiteralRoundTrip(p, StatusClause);
    DropPrefix(f + "\"", StatusClause);
  }

  /** Blank descriptions are indistinguishable: none of their text reaches the query. */
  lemma BlankDescriptionsAgree(config: Config, a: RemoteIssue, b: RemoteIssue)
    requires a.summary == b.summary
    requires IsBlank(a.description) && IsBlank(b.description)
    ensures DuplicateQuery(config, a) == DuplicateQuery(config, b)
  {
  }

  /** The text can be read back out of its phrase. */
  lemma PhraseInjective(a: JString, b: JString)
    requires Phrase(a) == Phrase(b)
    ensures Text(a) == Text(b)
  {
    assert Text(a) == Phrase(a)[1..|Phrase(a)| - 1];
    assert Text(b) == Phrase(b)[1..|Phrase(b)| - 1];
  }

  lemma ClauseFirstChar(d: JString)
    ensures |DescriptionClause(d)| > 0
    ensures DescriptionClause(d)[0] == if IsBlank(d) then 'I' else '~'
  {
  }

  /** Different description clauses come from different descriptions. */
  lemma DescriptionClauseInjective(a: JString, b: JString)
    requires DescriptionClause(a) == DescriptionClause(b)
    ensures IsBlank(a) == IsBlank(b)
    ensures !IsBlank(a) ==> a == b
  {
    ClauseFirstChar(a);
    ClauseFirstChar(b);
    if !IsBlank(a) && !IsBlank(b) {
      var ea, eb := Escape(Phrase(a)), Escape(Phrase(b));
      assert ea == DescriptionClause(a)[3..|DescriptionClause(a)| - 1];
      assert eb == DescriptionClause(b)[3..|DescriptionClause(b)| - 1];
      EscapeInjective(Phrase(a), Phrase(b));
      PhraseInjective(a, b);
    }
  }

  /** Equal queries carry equal summaries, and their description clauses start at the same place. */
  lemma SameQuerySameSummary(config: Config, a: RemoteIssue, b: RemoteIssue)
    requires DuplicateQuery(config, a) == DuplicateQuery(config, b)
    ensures Text(a.summary) == Text(b.summary)
    ensures ClauseStart(config, a) == ClauseStart(config, b)
  {
    SummaryLiteral(config, a);
    SummaryLiteral(config, b);
    EncodeInjective(Phrase(a.summary), Phrase(b.summary));
    PhraseInjective(a.summary, b.summary);
  }

  /** Equal queries carry equal description clauses. */
  lemma SameQuerySameClause(config: Config, a: RemoteIssue, b: RemoteIssue)
    requires DuplicateQuery(config, a) == DuplicateQuery(config, b)
    ensures DescriptionClause(a.description) == DescriptionClause(b.description)
  {
    SameQuerySameSummary(config, a, b);
    QueryTail(config, a);
    QueryTail(config, b);
    var q, k := DuplicateQuery(config, a), ClauseStart(config, a);
    var da, db := DescriptionClause(a.description), DescriptionClause(b.description);
    assert da == q[k..][..|q[k..]| - |StatusClause|];
    assert db == q[k..][..|q[k..]| - |StatusClause|];
  }

  /**
   * The query pins down what it searches for: two issues of the same
   * project give the same query exactly when their summaries render the
   * same and their descriptions are either both blank or both non-blank
   * with the same text.
   */
  lemma QueryDeterminesIssue(config: Config, a: RemoteIssue, b: RemoteIssue)
    ensures DuplicateQuery(config, a) == DuplicateQuery(config, b)
        <==> && Text(a.summary) == Text(b.summary)
             && IsBlank(a.description) == IsBlank(b.description)
             && (!IsBlank(a.description) ==> a.description == b.description)
  {
    if DuplicateQuery(config, a) == DuplicateQuery(config, b) {
      SameQuerySameSummary(config, a, b);
      SameQuerySameClause(config, a, b);
      DescriptionClauseInjective(a.description, b.description);
    } else {
      QueryLayout(config, a);
      QueryLayout(config, b);
    }
  }

  /** An event without a throwable is matched against issues with an empty description. */
  lemma NoThrowableMatchesEmptyDescription(config: Config, event: LoggingEvent, format: Formatter)
    requires event.throwable.None?
    ensures EndsWith(DuplicateQuery(config, CreateIssue(config, event, format)), DescriptionKey + "IS EMPTY" + StatusClause)
  {
    QueryShape(config, CreateIssue(config, event, format));
  }

  /**
   * The query opens with the project and the summary match and closes with
   * the restriction to open issues; a blank description is matched with
   * `IS EMPTY` right before that restriction.
   */
  lemma QueryShape(config: Config, issue: RemoteIssue)
    ensures StartsWith(DuplicateQuery(config, issue), "project = " + Text(config.project) + SummaryOpen)
    ensures EndsWith(DuplicateQuery(config, issue), StatusClause)
    ensures IsBlank(issue.description) ==> EndsWith(DuplicateQuery(config, issue), DescriptionKey + "IS EMPTY" + StatusClause)
  {
    var p := "project = " + Text(config.project);
    var x := Text(EscapeNullable(issue.summary));
    var clause :=
      if IsBlank(issue.description) then "IS EMPTY"
      else "~ \"" + EscapedQuote + Text(EscapeNullable(issue.description)) + PhraseClose;
    ConcatSplit(p + SummaryOpen, x, PhraseClose, DescriptionKey, clause, StatusClause);
    StartsWithAppend(p + SummaryOpen, x + PhraseClose + DescriptionKey + clause + StatusClause);
    EndsWithAppend(p + SummaryOpen + x + PhraseClose + DescriptionKey + clause, StatusClause);
    if IsBlank(issue.description) {
      EndsWithAppend(p + SummaryOpen + x + PhraseClose, DescriptionKey + clause + StatusClause);
      ConcatSplit(p + SummaryOpen, x, PhraseClose, DescriptionKey, clause, StatusClause);
    }
  }

  /** The query's constant pieces, spelled out as the service tests spell them. */
  lemma LiteralPieces()
    ensures SummaryOpen == " AND summary ~ \"\\\""
    ensures PhraseClose + DescriptionKey + "IS EMPTY" == "\\\"\"" + " AND description IS EMPTY"
    ensures DescriptionKey + "~ \"" + EscapedQuote == " AND description ~ \"\\\""
    ensures PhraseClose == "\\\"\""
  {
  }

  /**
   * For a summary of plain characters and a blank description the query is
   * exactly the one the service tests expect, assembled the way they assemble it.
   */
  lemma PlainQueryWithoutDescription(config: Config, issue: RemoteIssue)
    requires issue.summary.Str? && forall i :: 0 <= i < |issue.summary.value| ==> IsPlainChar(issue.summary.value[i])
    requires IsBlank(issue.description)
    ensures DuplicateQuery(config, issue)
         == "project = " + Text(config.project)
            + " AND summary ~ \"\\\"" + issue.summary.value + "\\\"\""
            + " AND description IS EMPTY"
            + " AND status in (Open, \"In Progress\", Reopened)"
  {
    var p, s := "project = " + Text(config.project), issue.summary.value;
    EscapeIdentity(s);
    LiteralPieces();
    ConcatGroupMiddle(p, SummaryOpen, s, PhraseClose, DescriptionKey, "IS EMPTY", StatusClause);
  }

  /**
   * For a summary and a non-blank description whose escapes are known, the
   * query is assembled from those escapes the way the service tests
   * assemble their expected queries.
   */
  lemma QueryWithDescription(config: Config, issue: RemoteIssue, es: string, ed: string)
    requires issue.summary.Str? && Escape(issue.summary.value) == es
    requires issue.description.Str? && Escape(issue.description.value) == ed
    requires !IsBlank(issue.description)
    ensures DuplicateQuery(config, issue)
         == "project = " + Text(config.project)
            + " AND summary ~ \"\\\"" + es + "\\\"\""
            + " AND description ~ \"\\\"" + ed + "\\\"\""
            + " AND status in (Open, \"In Progress\", Reopened)"
  {
    var p := "project = " + Text(config.project);
    LiteralPieces();
    ConcatRegroup(p, SummaryOpen, es, PhraseClose, DescriptionKey, "~ \"" + EscapedQuote, ed, PhraseClose, StatusClause);
    RespellPieces(p, es, ed, DescriptionKey + ("~ \"" + EscapedQuote), " AND description ~ \"\\\"");
  }

  /**
   * The query with a description, its constant pieces replaced by the
   * spellings the service tests use.
   */
  lemma RespellPieces(p: string, es: string, ed: string, open: string, openAsTested: string)
    requires open == openAsTested
    ensures p + SummaryOpen + es + PhraseClose + open + ed + PhraseClose + StatusClause
         == p + " AND summary ~ \"\\\"" + es + "\\\"\"" + openAsTested + ed + "\\\"\"" + StatusClause
  {
    LiteralPieces();
  }

  /**
   * For a plain summary and a non-blank plain description the query is
   * exactly the one the service tests expect, assembled the way they assemble it.
   */
  lemma PlainQueryWithDescription(config: Config, issue: RemoteIssue)
    requires issue.summary.Str? && forall i :: 0 <= i < |issue.summary.value| ==> IsPlainChar(issue.summary.value[i])
    requires issue.description.Str? && forall i :: 0 <= i < |issue.description.value| ==> IsPlainChar(issue.description.value[i])
    requires !IsBlank(issue.description)
    ensures DuplicateQuery(config, issue)
         == "project = " + Text(config.project)
            + " AND summary ~ \"\\\"" + issue.summary.value + "\\\"\""
            + " AND description ~ \"\\\"" + issue.description.value + "\\\"\""
            + " AND status in (Open, \"In Progress\", Reopened)"
  {
    EscapeIdentity(issue.summary.value);
    EscapeIdentity(issue.description.value);
    QueryWithDescription(config, issue, issue.summary.value, issue.description.value);
  }

  /**
   * The service tests' tricky summary and description: the query holds
   * their escapes, as the tests' expected query spells them.
   */
  lemma TrickyQueryWithDescription(config: Config, issue: RemoteIssue)
    requires issue.summary == Str("?!~" + "\t" + "\n" + ",.*/-" + "@#$%^" + "&()_+"
                                  + "\U{444}" + "\U{432}" + "\U{43C}" + "\U{C4}" + "\U{DC}" + "\U{D5}")
    requires issue.description == Str("@#$%^" + "&()_+" + "\U{444}" + "\U{432}" + "\U{43C}" + "\U{C4}" + "\U{DC}" + "\U{D5}"
                                      + "?!~" + "\t" + "\n" + ",.*/-")
    ensures DuplicateQuery(config, issue)
         == "project = " + Text(config.project)
            + " AND summary ~ \"\\\""
            + ("?!~" + "\\t" + "\\n" + ",.*/-" + "@#$%^" + "&()_+"
               + "\\u0444" + "\\u0432" + "\\u043C" + "\\u00C4" + "\\u00DC" + "\\u00D5")
            + "\\\"\""
            + " AND description ~ \"\\\""
            + ("@#$%^" + "&()_+" + "\\u0444" + "\\u0432" + "\\u043C" + "\\u00C4" + "\\u00DC" + "\\u00D5"
               + "?!~" + "\\t" + "\\n" + ",.*/-")
            + "\\\"\""
            + " AND status in (Open, \"In Progress\", Reopened)"
  {
    EscapeTrickySummary();
    EscapeTrickyDescription();
    assert issue.description.value[0] == '@';
    QueryWithDescription(config, issue,
      "?!~" + "\\t" + "\\n" + ",.*/-" + "@#$%^" + "&()_+"
      + "\\u0444" + "\\u0432" + "\\u043C" + "\\u00C4" + "\\u00DC" + "\\u00D5",
      "@#$%^" + "&()_+" + "\\u0444" + "\\u0432" + "\\u043C" + "\\u00C4" + "\\u00DC" + "\\u00D5"
      + "?!~" + "\\t" + "\\n" + ",.*/-");
  }
}
