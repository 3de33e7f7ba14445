/**
 * The exported request handler of api/contact/index.js, recast as pure
 * functions: `Decide` runs the validation chain on an abstract request and
 * says what the handler does next, `ForwardResponse` maps the outcome of the
 * issue-creation call to the reply, and `Handle` puts the two together.
 */
module ContactHandler {
  import opened Wrappers
  import opened Sanitizer
  import opened EmailShape
  import opened IssueFormat

  /** Largest accepted length of the JSON-serialised body. */
  const MaxPayload: nat := 50000
  const MaxName: nat := 100
  const MaxEmail: nat := 100
  const MaxSubject: nat := 200
  const MaxMessage: nat := 5000

  /** The string fields of the JSON body; `None` is a field that is not there. */
  datatype Submission = Submission(
    name: Option<string>,
    email: Option<string>,
    subject: Option<string>,
    message: Option<string>,
    website: Option<string>)

  /** A parsed body together with `JSON.stringify(body).length`. */
  datatype Body = Body(size: nat, fields: Submission)

  /**
   * `req.method` (spelt `httpMethod`, as `method` is a keyword here) and
   * `req.body`; a request without a body has `body == None`.
   */
  datatype Request = Request(httpMethod: string, body: Option<Body>)

  /** What the handler does once validation is over. */
  datatype Decision =
    | MethodNotAllowed
    | Reject(status: nat, error: string)
    | SilentSuccess
    | Forward(issue: Issue)

  /** How the issue-creation call ended: `response.ok`, a response that is not ok, or a thrown exception. */
  datatype ForwardOutcome = Created | Refused(detail: string) | Failed(detail: string)

  /** `context.res`: the status, whether the JSON content type is set, and the body text. */
  datatype Response = Response(status: nat, json: bool, body: string)

  /** The reply together with every issue-creation request the handler sent. */
  datatype Exchange = Exchange(response: Response, sent: seq<Issue>)

  /** JavaScript truthiness of an optional string field. */
  predicate Present(f: Option<string>) {
    f.Some? && f.value != ""
  }

  /** The field's text, with an absent field read as the empty string (both are falsy). */
  function TextOf(f: Option<string>): string {
    if f.Some? then f.value else ""
  }

  /** `JSON.stringify({ error: e })` for the handler's fixed, escape-free messages. */
  function ErrorJson(e: string): string {
    "{\"error\":\"" + e + "\"}"
  }

  /** `JSON.stringify({ success: true })`. */
  const SuccessJson: string := "{\"success\":true}"

  /** The sanitised fields; the subject falls back to "No subject" when it sanitises to nothing. */
  function Clean(s: Submission): (c: CleanSubmission)
    ensures |c.name| <= MaxName && |c.email| <= MaxEmail && |c.message| <= MaxMessage
    ensures 0 < |c.subject| <= MaxSubject
    ensures NoMarkup(c.name) && NoMarkup(c.email) && NoMarkup(c.subject) && NoMarkup(c.message)
    ensures NoLineFeed(c.name) && NoLineFeed(c.email) && NoLineFeed(c.subject)
    ensures Trimmed(c.name) && Trimmed(c.email) && Trimmed(c.subject) && Trimmed(c.message)
  {
    var subject := Sanitize(TextOf(s.subject), MaxSubject);
    CleanSubmission(
      Sanitize(TextOf(s.name), MaxName),
      Sanitize(TextOf(s.email), MaxEmail),
      if subject != "" then subject else NoSubject,
      SanitizeMessage(TextOf(s.message), MaxMessage))
  }

  /**
   * What every accepted submission satisfies: each field is non-empty, within
   * its limit, free of markup characters and trimmed, and the single-line
   * fields hold no line feed.
   */
  predicate WellFormed(c: CleanSubmission) {
    0 < |c.name| <= MaxName && 0 < |c.email| <= MaxEmail &&
    0 < |c.subject| <= MaxSubject && 0 < |c.message| <= MaxMessage &&
    NoMarkup(c.name) && NoMarkup(c.email) && NoMarkup(c.subject) && NoMarkup(c.message) &&
    NoLineFeed(c.name) && NoLineFeed(c.email) && NoLineFeed(c.subject) &&
    Trimmed(c.name) && Trimmed(c.email) && Trimmed(c.subject) && Trimmed(c.message)
  }

  /**
   * The handler's checks in their order; `timestamp` stands for
   * `new Date().toISOString()`.
   */
  function Decide(req: Request, timestamp: string): (d: Decision)
    ensures d.Forward? ==> req.body.Some? && WellFormed(Clean(req.body.value.fields))
    ensures d.Forward? ==> d.issue == FormatIssue(Clean(req.body.value.fields), timestamp)
  {
    if req.httpMethod != "POST" then MethodNotAllowed
    else if req.body.None? then Reject(500, "Server error")
    else
      var b := req.body.value;
      var s := b.fields;
      if b.size > MaxPayload then Reject(413, "Payload too large")
      else if !Present(s.name) || !Present(s.email) || !Present(s.message) then Reject(400, "Missing required fields")
      else if !IsValidEmail(s.email.value) then Reject(400, "Invalid email format")
      else if Present(s.website) then SilentSuccess
      else
        var c := Clean(s);
        if c.name == "" || c.email == "" || c.message == "" then Reject(400, "Invalid input")
        else Forward(FormatIssue(c, timestamp))
  }

  /** The reply once the issue-creation call has ended. */
  function ForwardResponse(outcome: ForwardOutcome): (r: Response)
    ensures r.json
    ensures r.status == 200 <==> outcome.Created?
    ensures outcome.Created? ==> r.body == SuccessJson
    ensures !outcome.Created? ==>
      r.status == 500 && r.body == ErrorJson(if outcome.Refused? then "Failed to submit" else "Server error")
  {
    match outcome
    case Created => Response(200, true, SuccessJson)
    case Refused(_) => Response(500, true, ErrorJson("Failed to submit"))
    case Failed(_) => Response(500, true, ErrorJson("Server error"))
  }

  /**
   * One invocation of the handler; `outcome` is how the issue-creation call
   * would end if it is made.
   */
  function Handle(req: Request, timestamp: string, outcome: ForwardOutcome): (x: Exchange)
    ensures |x.sent| <= 1
    ensures x.response.status in {200, 400, 405, 413, 500}
    ensures Decide(req, timestamp).Reject? ==>
      x == Exchange(Response(Decide(req, timestamp).status, true, ErrorJson(Decide(req, timestamp).error)), [])
    ensures Decide(req, timestamp).SilentSuccess? ==> x == Exchange(Response(200, true, SuccessJson), [])
  {
    match Decide(req, timestamp)
    case MethodNotAllowed => Exchange(Response(405, false, "Method not allowed"), [])
    case Reject(status, error) => Exchange(Response(status, true, ErrorJson(error)), [])
    case SilentSuccess => Exchange(Response(200, true, SuccessJson), [])
    case Forward(issue) => Exchange(ForwardResponse(outcome), [issue])
  }

  predicate HasRequiredFields(s: Submission) {
    Present(s.name) && Present(s.email) && Present(s.message)
  }

  /** The request is a POST with a body no larger than the limit. */
  predicate Admitted(req: Request) {
    req.httpMethod == "POST" && req.body.Some? && req.body.value.size <= MaxPayload
  }

  /**
   * The checks short-circuit in the handler's order: method, body, size,
   * required fields, email shape, honeypot, emptiness after sanitising.
   * Each decision is reached exactly when every earlier check passed and
   * its own failed.
   */
  lemma DecisionOrder(req: Request, timestamp: string)
    ensures Decide(req, timestamp) == MethodNotAllowed <==> req.httpMethod != "POST"
    ensures Decide(req, timestamp) == Reject(500, "Server error") <==>
      req.httpMethod == "POST" && req.body.None?
    ensures Decide(req, timestamp) == Reject(413, "Payload too large") <==>
      req.httpMethod == "POST" && req.body.Some? && req.body.value.size > MaxPayload
    ensures Decide(req, timestamp) == Reject(400, "Missing required fields") <==>
      Admitted(req) && !HasRequiredFields(req.body.value.fields)
    ensures Decide(req, timestamp) == Reject(400, "Invalid email format") <==>
      Admitted(req) && HasRequiredFields(req.body.value.fields) &&
      !IsValidEmail(req.body.value.fields.email.value)
    ensures Decide(req, timestamp) == SilentSuccess <==>
      Admitted(req) && HasRequiredFields(req.body.value.fields) &&
      IsValidEmail(req.body.value.fields.email.value) && Present(req.body.value.fields.website)
    ensures Decide(req, timestamp) == Reject(400, "Invalid input") <==>
      Admitted(req) && HasRequiredFields(req.body.value.fields) &&
      IsValidEmail(req.body.value.fields.email.value) && !Present(req.body.value.fields.website) &&
      var c := Clean(req.body.value.fields); c.name == "" || c.email == "" || c.message == ""
    ensures Decide(req, timestamp).Forward? <==>
      Admitted(req) && HasRequiredFields(req.body.value.fields) &&
      IsValidEmail(req.body.value.fields.email.value) && !Present(req.body.value.fields.website) &&
      var c := Clean(req.body.value.fields); c.name != "" && c.email != "" && c.message != ""
  {
  }

  /**
   * The reply to each rejected request, in terms of the request: a POST
   * without a body ends in the catch block's 500, and each failed field
   * check gets its own 400; nothing is sent in any of these cases.
   */
  lemma RejectionReplies(req: Request, timestamp: string, outcome: ForwardOutcome)
    ensures req.httpMethod == "POST" && req.body.None? ==>
      Handle(req, timestamp, outcome) == Exchange(Response(500, true, ErrorJson("Server error")), [])
    ensures Admitted(req) && !HasRequiredFields(req.body.value.fields) ==>
      Handle(req, timestamp, outcome) == Exchange(Response(400, true, ErrorJson("Missing required fields")), [])
    ensures (Admitted(req) && HasRequiredFields(req.body.value.fields) &&
             !IsValidEmail(req.body.value.fields.email.value)) ==>
      Handle(req, timestamp, outcome) == Exchange(Response(400, true, ErrorJson("Invalid email format")), [])
    ensures (Admitted(req) && HasRequiredFields(req.body.value.fields) &&
             IsValidEmail(req.body.value.fields.email.value) && !Present(req.body.value.fields.website) &&
             var c := Clean(req.body.value.fields); c.name == "" || c.email == "" || c.message == "") ==>
      Handle(req, timestamp, outcome) == Exchange(Response(400, true, ErrorJson("Invalid input")), [])
  {
    DecisionOrder(req, timestamp);
  }

  /** A request that is not a POST gets 405 whatever it carries, and nothing is sent. */
  lemma NonPostIsNotAllowed(req: Request, timestamp: string, outcome: ForwardOutcome)
    requires req.httpMethod != "POST"
    ensures Handle(req, timestamp, outcome) == Exchange(Response(405, false, "Method not allowed"), [])
  {
  }

  /** An oversized POST gets 413 before any field is looked at. */
  lemma OversizeBeforeFields(req: Request, timestamp: string, outcome: ForwardOutcome)
    requires req.httpMethod == "POST" && req.body.Some? && req.body.value.size > MaxPayload
    ensures Handle(req, timestamp, outcome) == Exchange(Response(413, true, ErrorJson("Payload too large")), [])
  {
  }

  /**
   * A filled honeypot never causes an issue to be filed; it earns the plain
   * success reply only after the presence and email checks have passed, so a
   * bot that leaves out a required field still gets 400.
   */
  lemma HoneypotNeverForwards(req: Request, timestamp: string, outcome: ForwardOutcome)
    requires req.body.Some? && Present(req.body.value.fields.website)
    ensures Handle(req, timestamp, outcome).sent == []
    ensures Admitted(req) && !HasRequiredFields(req.body.value.fields) ==>
      Handle(req, timestamp, outcome).response == Response(400, true, ErrorJson("Missing required fields"))
    ensures (Admitted(req) && HasRequiredFields(req.body.value.fields) &&
             IsValidEmail(req.body.value.fields.email.value)) ==>
      Handle(req, timestamp, outcome).response == Response(200, true, SuccessJson)
  {
  }

  /**
   * A message made only of stripped characters passes the presence check
   * but is turned down as invalid input once sanitised.
   */
  lemma MarkupOnlyMessageIsInvalidInput(req: Request, timestamp: string)
    requires Admitted(req)
    requires var s := req.body.value.fields;
      HasRequiredFields(s) && IsValidEmail(s.email.value) && !Present(s.website) &&
      forall i | 0 <= i < |s.message.value| :: IsMarkup(s.message.value[i])
    ensures Decide(req, timestamp) == Reject(400, "Invalid input")
  {
    SanitizeOfMarkupOnly(req.body.value.fields.message.value, MaxMessage);
  }

  /**
   * A forwarded issue carries the sanitised fields and nothing else: they are
   * well formed, the body decodes back to exactly them and the timestamp,
   * and the issue has the one contact-form label.
   */
  lemma ForwardedIssueDecodes(req: Request, timestamp: string)
    requires Decide(req, timestamp).Forward?
    ensures req.body.Some?
    ensures var c := Clean(req.body.value.fields);
      var issue := Decide(req, timestamp).issue;
      WellFormed(c) &&
      ParseIssueBody(issue.body) == Some((c, timestamp)) &&
      issue.labels == [ContactLabel]
  {
    var c := Clean(req.body.value.fields);
    assert forall i | 0 <= i < |c.message| :: !IsMarkup(c.message[i]);
    ParseIssueBodyRoundTrip(c, timestamp);
  }

  /**
   * The issue title is "[Contact] " and the sanitised subject, or, when the
   * subject is absent, sanitises to nothing or is literally "No subject",
   * "[Contact] New message from " and the sanitised name.
   */
  lemma ForwardedTitle(req: Request, timestamp: string)
    requires Decide(req, timestamp).Forward?
    ensures var s := req.body.value.fields;
      var subject := Sanitize(TextOf(s.subject), MaxSubject);
      var title := Decide(req, timestamp).issue.title;
      NoLineFeed(title) &&
      (subject != "" && subject != NoSubject ==> title == TitlePrefix + subject) &&
      (subject == "" || subject == NoSubject ==>
        title == TitlePrefix + ("New message from " + Sanitize(TextOf(s.name), MaxName)))
  {
    var c := Clean(req.body.value.fields);
    assert Decide(req, timestamp).issue.title == Title(c.subject, c.name);
  }

  /**
   * An issue is sent exactly when the checks end in `Forward`, and then the
   * reply depends only on how the call ended; the tracker's own error text
   * never reaches the caller.
   */
  lemma ForwardingReply(req: Request, timestamp: string, outcome: ForwardOutcome, other: ForwardOutcome)
    ensures Handle(req, timestamp, outcome).sent != [] <==> Decide(req, timestamp).Forward?
    ensures Decide(req, timestamp).Forward? ==>
      Handle(req, timestamp, outcome) == Exchange(ForwardResponse(outcome), [Decide(req, timestamp).issue])
    ensures !Decide(req, timestamp).Forward? ==>
      Handle(req, timestamp, outcome) == Handle(req, timestamp, other)
    ensures outcome.Refused? && other.Refused? ==>
      Handle(req, timestamp, outcome) == Handle(req, timestamp, other)
    ensures outcome.Failed? && other.Failed? ==>
      Handle(req, timestamp, outcome) == Handle(req, timestamp, other)
  {
  }

  /** Sanitising fields that are already clean gives them back unchanged. */
  lemma CleanOfCleanFields(c: CleanSubmission, website: Option<string>)
    requires WellFormed(c)
    ensures Clean(Submission(Some(c.name), Some(c.email), Some(c.subject), Some(c.message), website)) == c
  {
    SanitizeFixedPoints(c.name, MaxName);
    SanitizeFixedPoints(c.email, MaxEmail);
    SanitizeFixedPoints(c.subject, MaxSubject);
    SanitizeMessageFixedPoints(c.message, MaxMessage);
  }

  /**
   * A submission whose fields are already clean, with a valid address and an
   * empty honeypot, is filed with exactly those fields: the sanitisers change
   * nothing and the subject heads the title unless it is "No subject".
   */
  lemma CleanSubmissionForwardedUnchanged(c: CleanSubmission, size: nat, timestamp: string)
    requires WellFormed(c) && IsValidEmail(c.email) && size <= MaxPayload
    ensures var req := Request("POST", Some(Body(size,
        Submission(Some(c.name), Some(c.email), Some(c.subject), Some(c.message), None))));
      Decide(req, timestamp) == Forward(Issue(Title(c.subject, c.name), IssueBody(c, timestamp), [ContactLabel]))
  {
    var s := Submission(Some(c.name), Some(c.email), Some(c.subject), Some(c.message), None);
    assert HasRequiredFields(s) && !Present(s.website);
    CleanOfCleanFields(c, None);
  }
}
