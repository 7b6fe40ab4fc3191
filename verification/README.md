# log-to-jira in Dafny

A model of the core of log-to-jira, a log4j appender that files each log
event it receives as an issue in a JIRA tracker unless the tracker's phrase search
(`~`) on summary and description finds an open issue. Three parts are
modelled.

- **`AppenderServiceImpl`** (module `AppenderService`):
  - building the candidate issue from a log event and the appender's settings;
  - building the duplicate-search query in JIRA's query language (JQL),
    with free text passed through commons-lang `escapeJava` and a blank
    description matched with `IS EMPTY`;
  - the one-result search that answers "does a duplicate exist".
- **`LoggerServiceImpl`** (module `LoggerService`): the older service with
  the same `createIssue` and `composeDescription` code, modelled once in
  `AppenderService`. Its query matches the summary only, pasted in without
  escaping.
- **`LogToJiraAppender`** (module `LogToJiraAppender`):
  - the `append` sequence: login, build the issue, check for a duplicate,
    create the issue unless one was found, logout;
  - routing of the two remote failure kinds to the error handler;
  - the lazily created and cached service;
  - `requiresLayout`;
  - the four setters.

Supporting modules:

- `JavaLang`:
  - a nullable Java string, `JString`;
  - how `StringBuilder.append` renders one, with `null` becoming the four
    letters `null`;
  - `Character.isWhitespace` and commons-lang `StringUtils.isBlank`.
- `Utf16`: the UTF-16 code units of a string of Unicode characters, which
  is what a Java string holds when it has no unpaired surrogate. Decoding
  undoes encoding for every string, and encoding undoes decoding for every
  sequence of units that decodes.
- `StringEscape`:
  - `escapeJava`, applied to each UTF-16 unit;
  - `ReadLiteral`, a reader for a double-quoted Java-style literal that
    decodes the escapes up to the first unescaped quote. It is the
    independent partner against which the escaper and the queries are
    proved.
- `Sequences`: prefixes, suffixes and regroupings of concatenated
  strings, used by the proofs about queries.
- `Records`:
  - the settings bean;
  - the log event;
  - the SOAP issue record;
  - the remote calls and their replies.

The tracker is never called. An `Oracle` holds one fixed reply per kind of
remote call: login, search, create and logout. `Append` returns a trace of
the remote calls it made and the error reports it filed. Each call kind
happens at most once per append, so one reply per kind loses nothing.

The service keeps a reference to the appender's settings object, so it
always sees the current settings. The model therefore reads the appender's
own settings wherever the service would.

## Model

| member | source | states |
|---|---|---|
| AppenderService.ComposeDescription | src/main/java/org/aleksz/ltj/AppenderServiceImpl.java:33-42 | The description is the empty string when the event has no throwable, and the formatter's text for the throwable otherwise. |
| AppenderService.CreateIssue | src/main/java/org/aleksz/ltj/AppenderServiceImpl.java:22-31 | The issue's project is the configured project, its type the configured issue type id, and its summary the rendered message. Its description is never null, and is exactly "" without a throwable. |
| AppenderService.DuplicateQuery | src/main/java/org/aleksz/ltj/AppenderServiceImpl.java:47-60 | The JQL builder. It has no contract of its own: QueryLayout, SummaryLiteral, DescriptionLiteral and QueryDeterminesIssue say what the query holds. |
| AppenderService.DuplicateExists | src/main/java/org/aleksz/ltj/AppenderServiceImpl.java:62 | It makes exactly one search, with the caller's token, the duplicate query and at most 1 result. The answer is true iff the result is non-empty. A failed search propagates its fault. |
| AppenderService.QueryShape | src/main/java/org/aleksz/ltj/AppenderServiceImpl.java:48-60 | The query starts with `project = <project> AND summary ~ "\"` and ends with ` AND status in (Open, "In Progress", Reopened)`. For a blank description it ends with ` AND description IS EMPTY` followed by that restriction. |
| AppenderService.QueryLayout | src/main/java/org/aleksz/ltj/AppenderServiceImpl.java:48-60 | The query splits into five parts: the head, the escape of the quoted summary, the closing quote with ` AND description `, the description clause, and the status restriction. |
| AppenderService.EscapedPhrase | src/main/java/org/aleksz/ltj/AppenderServiceImpl.java:50-52 | `\"` + escape(text) + `\"` equals the escape of `"` + text + `"`. The literal therefore holds the text in quotes. |
| AppenderService.TextEscapeNullable | src/main/java/org/aleksz/ltj/AppenderServiceImpl.java:51 | Escaping a null summary and appending it gives `null`, the same as appending the null and escaping that. |
| AppenderService.SummaryLiteral | src/main/java/org/aleksz/ltj/AppenderServiceImpl.java:50-52 | A reader of the literal after `summary ~ "` stops at the intended closing quote. It recovers exactly `"` + summary + `"`. What follows is exactly ` AND description `, the description clause and the status restriction. |
| AppenderService.BlankDescriptionClause | src/main/java/org/aleksz/ltj/AppenderServiceImpl.java:53-54 | For a blank description, everything after ` AND description ` is exactly `IS EMPTY` and the status restriction. |
| AppenderService.DescriptionLiteral | src/main/java/org/aleksz/ltj/AppenderServiceImpl.java:55-59 | For a non-blank description, the clause is `~ "` and a literal that reads back as exactly `"` + description + `"`. Only the status restriction follows it. |
| AppenderService.BlankDescriptionsAgree | src/main/java/org/aleksz/ltj/AppenderServiceImpl.java:53-54 | Issues with the same summary and blank descriptions give the same query. No blank description's text reaches it. |
| AppenderService.QueryDeterminesIssue | src/main/java/org/aleksz/ltj/AppenderServiceImpl.java:44-63 | Two issues give equal queries iff their summaries render the same and their descriptions are both blank, or both non-blank and equal. |
| AppenderService.NoThrowableMatchesEmptyDescription | src/main/java/org/aleksz/ltj/AppenderServiceImpl.java:33-60 | The issue built from an event without a throwable is searched with `description IS EMPTY`. |
| AppenderService.PlainQueryWithoutDescription | src/test/java/ee/ignite/logtojira/AppenderServiceImplTest.java:52-57 | For a summary the escaper leaves alone and a blank description, the query is the test's expected string without its ` ORDER BY created` suffix. |
| AppenderService.QueryWithDescription | src/main/java/org/aleksz/ltj/AppenderServiceImpl.java:47-60 | For a summary and a non-blank description with escapes `es` and `ed`, the query is `project = <project> AND summary ~ "\"` + es + `\"" AND description ~ "\"` + ed + `\"" AND status in (Open, "In Progress", Reopened)`. |
| AppenderService.TrickyQueryWithDescription | src/test/java/ee/ignite/logtojira/AppenderServiceImplTest.java:66-71 | For the test's tricky summary and description, the query is the test's expected string without its ` ORDER BY created` suffix. |
| AppenderService.PlainQueryWithDescription | src/test/java/ee/ignite/logtojira/AppenderServiceImplTest.java:59-64 | For a summary and a non-blank description that the escaper leaves alone, the query is the test's expected string without its ` ORDER BY created` suffix. |
| JavaLang.Text | src/main/java/org/aleksz/ltj/AppenderServiceImpl.java:49 | `StringBuilder.append` of a reference appends the string itself, or the four letters `null` for a null reference. |
| JavaLang.IsWhitespace | src/main/java/org/aleksz/ltj/AppenderServiceImpl.java:53 | `Character.isWhitespace`, used by `isBlank`. WhitespaceTable pins it down on examples. |
| JavaLang.WhitespaceTable | src/main/java/org/aleksz/ltj/AppenderServiceImpl.java:53 | Space, tab, newline, carriage return, em space and ideographic space are whitespace. The three no-break spaces, `a` and `0` are not. |
| JavaLang.IsBlank | src/main/java/org/aleksz/ltj/AppenderServiceImpl.java:53 | `StringUtils.isBlank`: null, empty, or whitespace only. |
| JavaLang.BlankAppend | src/main/java/org/aleksz/ltj/AppenderServiceImpl.java:53 | A property of the predicate itself, not of a use in the code: a concatenation is blank iff both parts are blank. |
| StringEscape.EscapeUnit | src/main/java/org/aleksz/ltj/AppenderServiceImpl.java:51 | One UTF-16 unit is copied when it lies between U+0020 and U+007F and is neither `"` nor `\`. Otherwise its escape starts with `\` and is at least two characters long. Every escape uses only characters between U+0020 and U+007F. EscapeTable, EscapeControl, EscapeNonAscii and EscapeSupplementary give the exact escape of every character. |
| StringEscape.EscapeChar | src/main/java/org/aleksz/ltj/AppenderServiceImpl.java:51 | A character between U+0020 and U+007F other than `"` and `\` is copied. The escape of any character uses only characters between U+0020 and U+007F. |
| StringEscape.Escape | src/main/java/org/aleksz/ltj/AppenderServiceImpl.java:51 | `escapeJava` on a non-null string, character by character. The escape is never shorter than the input. LiteralRoundTrip, EscapeInjective and EscapeIdentity are its partners. |
| StringEscape.EscapeNullable | src/main/java/org/aleksz/ltj/AppenderServiceImpl.java:57 | `escapeJava` on a reference: the result is null iff the input is null. Otherwise it is the escape of the input. |
| Utf16.DecodeEncode | src/main/java/org/aleksz/ltj/AppenderServiceImpl.java:51 | Decoding the UTF-16 units of any string gives the string back. |
| Utf16.EncodeDecode | src/main/java/org/aleksz/ltj/AppenderServiceImpl.java:51 | A sequence of units that decodes is the encoding of what it decodes to. |
| StringEscape.LiteralRoundTrip | src/main/java/org/aleksz/ltj/AppenderServiceImpl.java:50-52 | When an escaped string is followed by a quote, a literal reader stops exactly at that quote. It recovers the string's UTF-16 units, so no string of Unicode characters can end the literal early. |
| StringEscape.EscapeAppend | src/main/java/org/aleksz/ltj/AppenderServiceImpl.java:51 | Escaping distributes over concatenation. |
| StringEscape.EscapeInjective | src/main/java/org/aleksz/ltj/AppenderServiceImpl.java:51 | Different strings have different escapes. |
| StringEscape.EscapeIdentity | src/main/java/org/aleksz/ltj/AppenderServiceImpl.java:51 | A string is its own escape iff every character lies between U+0020 and U+007F and is neither `"` nor `\`. Otherwise the escape is strictly longer. |
| StringEscape.EscapeTable | src/main/java/org/aleksz/ltj/AppenderServiceImpl.java:51 | `"` becomes `\"` and `\` becomes `\\`. Backspace, tab, newline, form feed and carriage return become `\b`, `\t`, `\n`, `\f` and `\r`. |
| StringEscape.EscapeControl | src/main/java/org/aleksz/ltj/AppenderServiceImpl.java:51 | Every other character below U+0020 becomes `\u` and its four upper-case hex digits. |
| StringEscape.EscapeSupplementary | src/main/java/org/aleksz/ltj/AppenderServiceImpl.java:51 | A character above U+FFFF becomes `\u` and the four hex digits of its high surrogate, then `\u` and those of its low surrogate. |
| StringEscape.EscapeEmoji | src/main/java/org/aleksz/ltj/AppenderServiceImpl.java:51 | U+1F600 becomes `\uD83D\uDE00`. |
| StringEscape.EscapeNonAscii | src/test/java/ee/ignite/logtojira/AppenderServiceImplTest.java:66-69 | A character above 0x7F in the Basic Multilingual Plane becomes `\u` and its four upper-case hex digits. |
| StringEscape.EscapeCyrillic | src/test/java/ee/ignite/logtojira/AppenderServiceImplTest.java:68 | ф, в and м become `\u0444`, `\u0432` and `\u043C`. |
| StringEscape.EscapeLatin1 | src/test/java/ee/ignite/logtojira/AppenderServiceImplTest.java:68 | Ä, Ü and Õ become `\u00C4`, `\u00DC` and `\u00D5`. |
| StringEscape.EscapePunctuation | src/test/java/ee/ignite/logtojira/AppenderServiceImplTest.java:46-47 | The punctuation `?!~`, `,.*/-` and `@#$%^&()_+` is left unchanged. |
| StringEscape.EscapeTrickySummary | src/test/java/ee/ignite/logtojira/AppenderServiceImplTest.java:46-68 | The test's tricky summary escapes to the text inside the expected summary literal. |
| StringEscape.EscapeTrickyDescription | src/test/java/ee/ignite/logtojira/AppenderServiceImplTest.java:47-69 | The test's tricky description escapes to the text inside the expected description literal. |
| LoggerService.LegacyQuery | src/main/java/org/aleksz/ltj/LoggerServiceImpl.java:43-48 | The legacy JQL builder. It has no contract of its own: LegacyQueryShape, LegacyQueryDeterminesSummary and LegacyQuoteClosesEarly say what the query holds. |
| LoggerService.LegacyDuplicateExists | src/main/java/org/aleksz/ltj/LoggerServiceImpl.java:41-51 | It makes one search with the caller's token, the legacy query and at most 1 result. The answer is true iff the result is non-empty, and a failed search propagates its fault. |
| LoggerService.LegacyQueryShape | src/main/java/org/aleksz/ltj/LoggerServiceImpl.java:43-48 | The legacy query has four parts and nothing else: `project = <project> AND summary ~ "`, then `\"`, then the summary verbatim, then `\"" AND status in (Open, "In Progress", Reopened)`. |
| LoggerService.LegacyQueryDeterminesSummary | src/main/java/org/aleksz/ltj/LoggerServiceImpl.java:44-48 | Two issues give the same legacy query iff their summaries render the same. The description never influences it. |
| LoggerService.LegacyQuoteClosesEarly | src/main/java/org/aleksz/ltj/LoggerServiceImpl.java:46-48 | For the summary `"`, the summary literal ends after one character and reads back as `"` rather than the quoted summary. The intended closing `\""` is left outside it. |
| LoggerService.CorrectedSummaryLiteral | src/main/java/org/aleksz/ltj/LoggerServiceImpl.java:46-48 | With the summary escaped, the literal reads back as exactly `"` + summary + `"` for every summary. Only the status restriction follows it. |
| LoggerService.CorrectedAgreesOnPlainSummary | src/main/java/org/aleksz/ltj/LoggerServiceImpl.java:47 | The escaped and the legacy query are equal iff every summary character lies between U+0020 and U+007F and is neither `"` nor `\`. |
| LogToJiraAppender.Init | src/main/java/org/aleksz/ltj/LogToJiraAppender.java:19 | A new appender has all four settings null and no service. |
| LogToJiraAppender.GetService | src/main/java/org/aleksz/ltj/LogToJiraAppender.java:66-75 | Once a service is cached, the state is unchanged and the cached service is returned. Otherwise exactly one new instance is created and cached. The settings never change. |
| LogToJiraAppender.RequiresLayout | src/main/java/org/aleksz/ltj/LogToJiraAppender.java:46-49 | Always false. |
| LogToJiraAppender.SetUsername | src/main/java/org/aleksz/ltj/LogToJiraAppender.java:77-79 | Sets the username. The other settings and the service cache are unchanged. |
| LogToJiraAppender.SetPassword | src/main/java/org/aleksz/ltj/LogToJiraAppender.java:81-83 | Sets the password. The other settings and the service cache are unchanged. |
| LogToJiraAppender.SetProject | src/main/java/org/aleksz/ltj/LogToJiraAppender.java:85-87 | Sets the project. The other settings and the service cache are unchanged. |
| LogToJiraAppender.SetIssueTypeId | src/main/java/org/aleksz/ltj/LogToJiraAppender.java:89-91 | Sets the issue type id. The other settings and the service cache are unchanged. |
| LogToJiraAppender.SettersConfigure | src/main/java/org/aleksz/ltj/LogToJiraAppender.java:77-91 | Calling all four setters on a new appender gives exactly those settings and still no service. |
| LogToJiraAppender.ErrorMessage | src/main/java/org/aleksz/ltj/LogToJiraAppender.java:35-38 | An authentication failure is reported as "JIRA auth failed" and any other remote failure as "JIRA problem". |
| LogToJiraAppender.Append | src/main/java/org/aleksz/ltj/LogToJiraAppender.java:25-40 | Append always returns and never changes the settings. It first logs in with the configured username and password, files at most one report, and only as its last step. A failed login leaves the appender as it was. Otherwise the service is looked up, and created if needed. |
| LogToJiraAppender.AppendLoginFails | src/main/java/org/aleksz/ltj/LogToJiraAppender.java:28-36 | A failed login gives exactly two entries: the login call, then one report with the message for the fault and the event. There is no logout. |
| LogToJiraAppender.AppendCreatesNewIssue | src/test/java/org/aleksz/ltj/LogToJiraAppenderTest.java:51-68 | When every call succeeds and the search finds nothing, the calls are exactly these, in order: login, the duplicate search, create of the candidate issue, and logout. Each call after the login carries its token. |
| LogToJiraAppender.AppendSkipsDuplicate | src/test/java/org/aleksz/ltj/LogToJiraAppenderTest.java:70-86 | When the search finds a duplicate, the calls are exactly login, search and logout. No issue is created. |
| LogToJiraAppender.AppendReportsFirstFailure | src/main/java/org/aleksz/ltj/LogToJiraAppender.java:26-39 | A report is filed iff some call fails. It is the last entry and names the first failure, with its message and the event. |
| LogToJiraAppender.AppendLogsOut | src/main/java/org/aleksz/ltj/LogToJiraAppender.java:28-33 | Logout is attempted iff login, search and any needed create all succeeded. A search or create failure skips it. |
| LogToJiraAppender.AppendCreatesOnlyWithoutDuplicate | src/main/java/org/aleksz/ltj/LogToJiraAppender.java:29-32 | A remote create happens iff login and search succeed and the search finds nothing. |
| LogToJiraAppender.AppendCreatesCandidate | src/main/java/org/aleksz/ltj/LogToJiraAppender.java:29-31 | What is created remotely is the candidate issue built from the event and the current settings. |
| LogToJiraAppender.AppendUsesLoginToken | src/main/java/org/aleksz/ltj/LogToJiraAppender.java:28-33 | Every call after the login carries the token the login returned. The search is the duplicate query for the candidate issue, bounded to one result. |
| LogToJiraAppender.AppendCallOrder | src/main/java/org/aleksz/ltj/LogToJiraAppender.java:28-33 | The remote calls come in the order login, search, create, logout, and each happens at most once. |
| LogToJiraAppender.ServiceCreatedAtMostOnce | src/main/java/org/aleksz/ltj/LogToJiraAppender.java:66-75 | Over any sequence of setter calls, service lookups and appends, at most one service is created. Once a service exists, it stays the one every later lookup returns. |

## Left out

- `setUrl` and the SOAP locator (`LogToJiraAppender.java:51-60`) are left
  out because they parse a URL and connect over the network. So is the
  endpoint each service keeps. The tracker is the `Oracle` parameter.
- `getJiraService` can return null when no URL was set. The
  `NullPointerException` that follows is not modelled, and neither is a
  null array returned by the search.
- `Util.toString` is not part of this model: the stack-trace text is the
  `Formatter` parameter.
- `Config.java` is not part of this model. It is taken to be a plain
  bean whose four fields start out null.
- `MDCPlugin` and `SystemPropertiesPlugin` are left out. They depend on
  code and global state outside this model, and no modelled code calls
  them.
- The log4j `AppenderSkeleton` dispatch, threading, `close()` (which does
  nothing) and the `errorHandler` object are left out. A handler call is
  a `Report` entry in the trace. The constant `ErrorCode.GENERIC_FAILURE`
  passed with every report is not recorded.
- The value returned by the remote `createIssue`, and the boolean returned
  by `logout`, are ignored by the appender and so are not modelled.
- `LoggerService.java` is left out: it is an interface with signatures
  only.
- The expected queries in `AppenderServiceImplTest.java` end in
  ` ORDER BY created`, which the modelled code never emits. The lemmas
  compare against those queries without that suffix.
- The modelled code has no enablement flag, no plugin that adds
  comments, and no lookup of the latest duplicate. An exception from the
  search or the create jumps past the logout (`LogToJiraAppender.java:29-38`),
  so no logout follows a failure. Non-ASCII characters are `\u`-escaped
  (`AppenderServiceImpl.java:51,57`).
- Which issues JIRA's `~` phrase search matches is left to the tracker:
  it is a text-contains search, not equality, and the model only builds
  the query and passes on the search's answer from the `Oracle`.
- Java strings holding an unpaired surrogate unit cannot be represented:
  a Dafny `string` holds Unicode characters only. The escaper would turn
  such a unit into a `\u` escape like any other unit above 0x7F, and
  `isBlank` would treat it as non-whitespace.
- `ReadLiteral` accepts Java's escapes, including `\b`, `\f` and `\'`.
  What JIRA's own query parser accepts inside a quoted string is not
  modelled, so SummaryLiteral and DescriptionLiteral hold relative to
  this Java-style reader.
- `IsWhitespace` follows the current Unicode tables of
  `Character.isWhitespace`, so U+180E is not whitespace. Older Java
  releases treated it as whitespace.

## Findings

| source | as written | input that shows it | evidently intended | confidence | as-written member | corrected member |
|---|---|---|---|---|---|---|
| src/main/java/org/aleksz/ltj/LoggerServiceImpl.java:46-48 | The summary is pasted into the quoted phrase literal without escaping. | A summary of one `"`. The literal after `summary ~ "` reads back as just `"`, and the intended closing `\""` falls outside it. | The summary is escaped with `escapeJava`, as `AppenderServiceImpl.java:51` does, so the literal holds exactly `"` + summary + `"`. | not executed | LoggerService.LegacyQuoteClosesEarly | LoggerService.CorrectedSummaryLiteral |

The appender itself uses the `AppenderServiceImpl` query. That query
escapes the summary, and `AppenderService.SummaryLiteral` proves the same
property for it.
