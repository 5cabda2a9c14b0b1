/** The `validate(schema)` middleware: parse the body, and either store the data and go on, or answer 400. */
module Validate {
  import opened Wrappers
  import opened Text
  import opened AuthSchema
  import opened Http

  const InvalidRequestMessage := "invalid request data"

  /** `issues.map(issue => issue.message)` */
  function Messages(issues: seq<Issue>): (r: seq<string>)
    ensures |r| == |issues|
    ensures forall i :: 0 <= i < |r| ==> r[i] == issues[i].message
  {
    if |issues| == 0 then [] else [issues[0].message] + Messages(issues[1..])
  }

  /** `errorMessages.join(", ")` */
  function ErrorString(issues: seq<Issue>): string
  {
    Join(Messages(issues), ", ")
  }

  /**
   * `validate(schema)(req, res, next)`. On a rejection the response is 400 with
   * the joined messages, `req.validated` stays as it was and `next` is not
   * called; on success `req.validated` is the parsed data, `next` is called
   * once and the response is left alone.
   */
  method Validate(schema: Body -> ParseResult, req: Request, res: Response, next: Next)
    modifies req`validated, res`status, res`sent, next
    ensures match schema(req.body)
      case Rejected(issues) =>
        && res.status == 400 && res.sent == Some(InvalidRequest(InvalidRequestMessage, ErrorString(issues)))
        && req.validated == old(req.validated) && next.calls == old(next.calls)
      case Parsed(data) =>
        && req.validated == Some(data) && next.calls == old(next.calls) + 1
        && res.status == old(res.status) && res.sent == old(res.sent)
  {
    var parsed := schema(req.body);
    if parsed.Rejected? {
      var errorString := ErrorString(parsed.issues);
      res.Send(400, InvalidRequest(InvalidRequestMessage, errorString));
      return;
    }
    req.validated := Some(parsed.data);
    next.Call();
  }

  /** With exactly one issue, the error string is that issue's message. */
  lemma ErrorStringOfOne(issue: Issue)
    ensures ErrorString([issue]) == issue.message
  {
  }

  /**
   * Every message stands in the error string, unchanged and in issue order:
   * message k starts after messages 0..k-1, each followed by ", ".
   */
  lemma ErrorStringInOrder(issues: seq<Issue>, k: nat)
    requires k < |issues|
    ensures var at := Offset(Messages(issues), ", ", k);
      at + |issues[k].message| <= |ErrorString(issues)|
      && ErrorString(issues)[at..at + |issues[k].message|] == issues[k].message
  {
    JoinPieceAt(Messages(issues), ", ", k);
  }

  /** The error string is the messages plus two characters of separator between each pair. */
  lemma ErrorStringLength(issues: seq<Issue>)
    requires |issues| >= 1
    ensures |ErrorString(issues)| == TotalLength(Messages(issues)) + 2 * (|issues| - 1)
  {
    JoinLength(Messages(issues), ", ");
  }

  /** With two issues, the error string is the two messages with ", " between them. */
  lemma ErrorStringOfTwo(first: Issue, second: Issue)
    ensures ErrorString([first, second]) == first.message + ", " + second.message
  {
    var ms := Messages([first, second]);
    assert ms == [first.message, second.message];
    assert ms[1..] == [second.message];
    assert Join(ms, ", ") == ms[0] + ", " + Join(ms[1..], ", ");
  }

  /** A worked example: an empty username fails both of its checks, and the 400 body lists both, in order. */
  lemma ExampleEmptyUsername(email: string)
    ensures LoginParse(Body("", email, "Passw0rd!")).Rejected?
    ensures ErrorString(LoginParse(Body("", email, "Passw0rd!")).issues) == UsernameMinMessage + ", " + UsernameRegexMessage
  {
    ExamplePasswordAccepted();
    EmptyUsernameIssues(email, "Passw0rd!");
    ErrorStringOfTwo(Issue("username", UsernameMinMessage), Issue("username", UsernameRegexMessage));
  }
}
