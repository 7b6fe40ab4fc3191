/**
 * The records the appender works with: its settings, the log4j event it
 * receives, the SOAP issue record it sends, and the remote calls it makes
 * together with the replies they can get.
 */
module Records {
  import opened JavaLang

  /** The appender's settings bean. A fresh bean has every field null. */
  datatype Config = Config(username: JString, password: JString, project: JString, issueTypeId: JString)

  const EmptyConfig := Config(Null, Null, Null, Null)

  /** A throwable attached to a log event; only its identity matters here. */
  datatype Throwable = Throwable(className: string, message: JString)

  /**
   * The stack-trace text of a throwable (the repository's `Util.toString`,
   * whose code is not part of this model), taken as a parameter.
   */
  type Formatter = Throwable -> string

  /** A log4j event: its rendered message and the throwable it carries, if any. */
  datatype LoggingEvent = LoggingEvent(renderedMessage: JString, throwable: Option<Throwable>)

  /** The fields of the SOAP issue record that the appender fills in. */
  datatype RemoteIssue = RemoteIssue(project: JString, issueType: JString, summary: JString, description: JString)

  /**
   * How a remote call fails: `RemoteAuthenticationException`, or any other
   * `RemoteException`.
   */
  datatype Fault = AuthFault | RemoteFault

  /** The answer to one remote call: a value, or the exception it throws. */
  datatype Reply<T> = Ok(value: T) | Failed(fault: Fault)

  /** One call on the remote issue tracker, with its arguments. */
  datatype Call =
    | Login(username: JString, password: JString)
    | Search(token: JString, jql: string, maxResults: int)
    | CreateRemote(token: JString, issue: RemoteIssue)
    | Logout(token: JString)
}
