/**
 * `LoggerServiceImpl`: the older service the appender no longer uses. Its
 * `createIssue` and `composeDescription` are the same code as in
 * `AppenderServiceImpl` and are modelled once, there. Its duplicate query
 * matches the summary only and pastes it into the query without escaping.
 */
module LoggerService {
  import opened JavaLang
  import opened Sequences
  import opened Utf16
  import opened StringEscape
  import opened Records
  import opened AppenderService

  /** The query as written: project, then the raw summary in a phrase literal, then the status restriction. */
  function LegacyQuery(config: Config, issue: RemoteIssue): string {
    "project = " + Text(config.project) + SummaryOpen + Text(issue.summary) + PhraseClose + StatusClause
  }

  /**
   * The legacy duplicate check: one search for the legacy query, bounded to
   * one result; a failed search propagates its fault, otherwise the answer
   * is whether anything was found.
   */
  function LegacyDuplicateExists(config: Config, issue: RemoteIssue, token: JString, reply: Reply<seq<RemoteIssue>>)
    : (r: (Call, Reply<bool>))
    ensures r.0.Search? && r.0.token == token && r.0.maxResults == 1
    ensures r.0.jql == LegacyQuery(config, issue)
    ensures reply.Failed? ==> r.1 == Failed(reply.fault)
    ensures reply.Ok? ==> r.1.Ok? && (r.1.value <==> |reply.value| > 0)
  {
    var search := Search(token, LegacyQuery(config, issue), 1);
    match reply
    case Failed(f) => (search, Failed(f))
    case Ok(found) => (search, Ok(|found| > 0))
  }

  lemma RegroupLegacy(a: string, b: string, c: string, e: string, x: string, pc: string, sc: string)
    ensures a + b + (c + e) + x + pc + sc == (a + b + c) + (e + x + (pc + sc))
  {
  }

  /** The legacy query around its summary: the head, the summary itself, and the fixed tail. */
  lemma LegacyLayout(config: Config, issue: RemoteIssue)
    ensures LegacyQuery(config, issue)
         == QueryHead(config.project) + (EscapedQuote + Text(issue.summary) + (PhraseClose + StatusClause))
  {
    RegroupLegacy("project = ", Text(config.project), " AND summary ~ \"", EscapedQuote,
                  Text(issue.summary), PhraseClose, StatusClause);
  }

  /**
   * The legacy query is exactly the head, an escaped quote, the summary
   * verbatim, and the fixed tail: it starts and ends with the fixed pieces,
   * holds the summary's own characters in between, and has no other
   * characters.
   */
  lemma LegacyQueryShape(config: Config, issue: RemoteIssue)
    ensures var q, h, s := LegacyQuery(config, issue), |QueryHead(config.project)| + 2, Text(issue.summary);
            && |q| == h + |s| + |PhraseClose + StatusClause|
            && StartsWith(q, QueryHead(config.project) + EscapedQuote)
            && q[h..h + |s|] == s
            && EndsWith(q, PhraseClose + StatusClause)
  {
    LegacyLayout(config, issue);
    FrameShape(LegacyQuery(config, issue), QueryHead(config.project), EscapedQuote, Text(issue.summary), PhraseClose + StatusClause);
  }

  /** A string assembled from a head, an opener, a middle and a tail, taken apart again. */
  lemma FrameShape(q: string, h: string, e: string, s: string, t: string)
    requires q == h + (e + s + t)
    ensures |q| == |h| + |e| + |s| + |t|
    ensures StartsWith(q, h + e)
    ensures q[|h| + |e|..|h| + |e| + |s|] == s
    ensures EndsWith(q, t)
  {
    assert q == (h + e) + (s + t);
    StartsWithAppend(h + e, s + t);
    assert q == (h + e + s) + t;
    EndsWithAppend(h + e + s, t);
    DropPrefix(h + e, s + t);
  }

  /**
   * Two issues give the same legacy query exactly when their summaries
   * render the same: the description never reaches the query.
   */
  lemma LegacyQueryDeterminesSummary(config: Config, a: RemoteIssue, b: RemoteIssue)
    ensures LegacyQuery(config, a) == LegacyQuery(config, b) <==> Text(a.summary) == Text(b.summary)
  {
    LegacyQueryShape(config, a);
    LegacyQueryShape(config, b);
  }

  /**
   * The legacy query as written lets the summary close its phrase literal:
   * for the summary `"`, a reader of the literal that opens after the head
   * stops after one character instead of reading the quoted summary, and
   * what was meant to close the literal is left outside it.
   */
  lemma LegacyQuoteClosesEarly(config: Config, issue: RemoteIssue)
    requires issue.summary == Str("\"")
    ensures var q, h := LegacyQuery(config, issue), |QueryHead(config.project)|;
            && h + 3 <= |q|
            && ReadLiteral(q[h..]) == Some(([34], 2))
            && ReadLiteral(q[h..]) != Some((Encode(Phrase(issue.summary)), |Escape(Phrase(issue.summary))|))
            && q[h + 3..] == PhraseClose + StatusClause
  {
    var q, head := LegacyQuery(config, issue), QueryHead(config.project);
    EscapeTable();
    LegacyLayout(config, issue);
    LiteralAfter(q, head, "\"", PhraseClose + StatusClause);
    assert Encode("\"") == [34];
    assert |Encode(Phrase(issue.summary))| == 3;
  }

  /**
   * The evidently intended legacy query: the summary escaped the way
   * `AppenderServiceImpl` escapes it.
   */
  function CorrectedQuery(config: Config, issue: RemoteIssue): string {
    "project = " + Text(config.project) + SummaryOpen + Text(EscapeNullable(issue.summary)) + PhraseClose + StatusClause
  }

  /**
   * In the corrected query the summary literal holds exactly the quoted
   * summary, whatever the summary contains, and only the status
   * restriction follows it.
   */
  lemma CorrectedSummaryLiteral(config: Config, issue: RemoteIssue)
    ensures var q, h, n := CorrectedQuery(config, issue), |QueryHead(config.project)|, |Escape(Phrase(issue.summary))|;
            && h + n + 1 <= |q|
            && ReadLiteral(q[h..]) == Some((Encode(Phrase(issue.summary)), n))
            && q[h + n + 1..] == StatusClause
  {
    var head, x := QueryHead(config.project), Text(EscapeNullable(issue.summary));
    EscapedPhrase(issue.summary);
    RegroupLegacy("project = ", Text(config.project), " AND summary ~ \"", EscapedQuote, x, PhraseClose, StatusClause);
    RegroupCorrected(head, EscapedQuote, x, "\"", StatusClause);
    LiteralAfter(CorrectedQuery(config, issue), head, Phrase(issue.summary), StatusClause);
  }

  lemma RegroupCorrected(h: string, e: string, x: string, c: string, sc: string)
    ensures h + (e + x + (e + c + sc)) == h + ((e + x + e) + c + sc)
  {
  }

  /** On summaries the escaper leaves alone, the corrected and the legacy query agree. */
  lemma CorrectedAgreesOnPlainSummary(config: Config, issue: RemoteIssue)
    ensures (forall i :: 0 <= i < |Text(issue.summary)| ==> IsPlainChar(Text(issue.summary)[i]))
        <==> CorrectedQuery(config, issue) == LegacyQuery(config, issue)
  {
    var s := Text(issue.summary);
    TextEscapeNullable(issue.summary);
    EscapeIdentity(s);
    FrameInjective("project = " + Text(config.project) + SummaryOpen, Escape(s), s, PhraseClose, StatusClause);
  }

  /** Strings with the same frame are equal exactly when what they frame is. */
  lemma FrameInjective(p: string, x: string, y: string, a: string, b: string)
    ensures p + x + a + b == p + y + a + b <==> x == y
  {
    if p + x + a + b == p + y + a + b {
      assert |x| == |y|;
      assert x == (p + x + a + b)[|p|..|p| + |x|];
      assert y == (p + y + a + b)[|p|..|p| + |y|];
    }
  }
}
