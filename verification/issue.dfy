/**
 * The GitHub issue the handler files for an accepted submission: its title,
 * the Markdown body template, and a reader for that template, splitting
 * lines at line feeds only, which shows that the fields can be read back
 * from the body.
 */
module IssueFormat {
  import opened Wrappers
  import opened Sanitizer

  /** The subject used when the sanitised subject is empty. */
  const NoSubject: string := "No subject"
  const TitlePrefix: string := "[Contact] "
  const ContactLabel: string := "contact-form"

  const BodyHead: string := "## New Contact Form Submission\n\n**From:** "
  const EmailHead: string := "**Email:** "
  const SubjectHead: string := "**Subject:** "
  const MessageHead: string := "\n---\n\n### Message\n\n"
  const Rule: string := "\n\n---\n\n"
  const FooterHead: string := "Submitted via elm.nyc contact form at "

  /** The four sanitised fields of an accepted submission. */
  datatype CleanSubmission = CleanSubmission(name: string, email: string, subject: string, message: string)

  /** The JSON payload of the issue-creation request. */
  datatype Issue = Issue(title: string, body: string, labels: seq<string>)

  /** `[Contact] ${safeSubject !== 'No subject' ? safeSubject : 'New message from ' + safeName}`. */
  function Title(subject: string, name: string): (t: string)
    ensures |TitlePrefix| <= |t| && t[..|TitlePrefix|] == TitlePrefix
    ensures NoLineFeed(subject) && NoLineFeed(name) ==> NoLineFeed(t)
  {
    TitlePrefix + (if subject != NoSubject then subject else "New message from " + name)
  }

  /** A line of text closed by a line feed, followed by the rest of the document. */
  function Line(text: string, rest: string): string {
    text + "\n" + rest
  }

  /** The message, the closing rule and the italic provenance footer with the timestamp. */
  function Footer(message: string, timestamp: string): string {
    message + Rule + "*" + (FooterHead + timestamp + "*")
  }

  /**
   * The issue body template, section by section; spelt out, it reads
   * "## New Contact Form Submission\n\n**From:** NAME\n**Email:** EMAIL\n
   * **Subject:** SUBJECT\n\n---\n\n### Message\n\nMESSAGE\n\n---\n\n
   * *Submitted via elm.nyc contact form at TIMESTAMP*".
   */
  function IssueBody(c: CleanSubmission, timestamp: string): (b: string)
    ensures |BodyHead| + |c.name| < |b| && b[..|BodyHead| + |c.name| + 1] == BodyHead + c.name + "\n"
    ensures |FooterHead| + |timestamp| + 1 < |b|
    ensures b[|b| - |FooterHead| - |timestamp| - 1..] == FooterHead + timestamp + "*"
  {
    var rest := EmailHead + Line(c.email, SubjectHead + Line(c.subject,
      MessageHead + Footer(c.message, timestamp)));
    var b := BodyHead + Line(c.name, rest);
    assert b == (BodyHead + c.name + "\n") + rest;
    var footer := FooterHead + timestamp + "*";
    assert b == (BodyHead + Line(c.name, EmailHead + Line(c.email, SubjectHead + Line(c.subject,
      MessageHead + c.message + Rule + "*")))) + footer;
    b
  }

  /** Tells whether the fields can be read back from the body: see `ParseIssueBodyRoundTrip`. */
  predicate Separable(c: CleanSubmission) {
    NoLineFeed(c.name) && NoLineFeed(c.email) && NoLineFeed(c.subject) &&
    forall i | 0 <= i < |c.message| :: c.message[i] != '*'
  }

  /** The issue filed for a submission: title, body and the one label. */
  function FormatIssue(c: CleanSubmission, timestamp: string): (i: Issue)
    ensures i.labels == [ContactLabel]
    ensures |TitlePrefix| <= |i.title| && i.title[..|TitlePrefix|] == TitlePrefix
    ensures Separable(c) ==> ParseIssueBody(i.body) == Some((c, timestamp))
  {
    if Separable(c) then
      ParseIssueBodyRoundTrip(c, timestamp);
      Issue(Title(c.subject, c.name), IssueBody(c, timestamp), [ContactLabel])
    else
      Issue(Title(c.subject, c.name), IssueBody(c, timestamp), [ContactLabel])
  }

  /** The rest of `s` after the prefix `p`, if `s` starts with it. */
  function StripPrefix(s: string, p: string): (r: Option<string>)
    ensures r.Some? ==> s == p + r.value
  {
    if |p| <= |s| && s[..|p|] == p then Some(s[|p|..]) else None
  }

  /** Split `s` at the first occurrence of `c`. */
  function SplitAt(s: string, c: char): (r: Option<(string, string)>)
    ensures r.Some? ==> s == r.value.0 + [c] + r.value.1 && c !in r.value.0
    ensures r.None? ==> c !in s
  {
    if s == [] then None
    else if s[0] == c then Some(([], s[1..]))
    else match SplitAt(s[1..], c)
      case None => None
      case Some(p) => Some(([s[0]] + p.0, p.1))
  }

  /** Read `head`, then a line of text up to the next line feed. */
  function ParseLine(s: string, head: string): Option<(string, string)> {
    var r :- StripPrefix(s, head);
    SplitAt(r, '\n')
  }

  /** Read the message, the closing rule and the footer with its timestamp. */
  function ParseTail(s: string): Option<(string, string)> {
    var message :- SplitAt(s, '*');
    var footer :- StripPrefix(message.1, FooterHead);
    var m := message.0;
    if |m| < |Rule| || m[|m| - |Rule|..] != Rule || footer == [] || footer[|footer| - 1] != '*' then None
    else Some((m[..|m| - |Rule|], footer[..|footer| - 1]))
  }

  /** Read a body back into its fields and timestamp. */
  function ParseIssueBody(b: string): Option<(CleanSubmission, string)> {
    var name :- ParseLine(b, BodyHead);
    var email :- ParseLine(name.1, EmailHead);
    var subject :- ParseLine(email.1, SubjectHead);
    var rest :- StripPrefix(subject.1, MessageHead);
    var tail :- ParseTail(rest);
    Some((CleanSubmission(name.0, email.0, subject.0, tail.0), tail.1))
  }

  lemma StripPrefixOf(p: string, s: string)
    ensures StripPrefix(p + s, p) == Some(s)
  {
    assert (p + s)[..|p|] == p;
    assert (p + s)[|p|..] == s;
  }

  lemma {:induction false} SplitAtFirst(x: string, c: char, y: string)
    requires c !in x
    ensures SplitAt(x + [c] + y, c) == Some((x, y))
  {
    if x == [] {
      assert x + [c] + y == [c] + y;
    } else {
      assert (x + [c] + y)[1..] == x[1..] + [c] + y;
      SplitAtFirst(x[1..], c, y);
      assert [x[0]] + x[1..] == x;
    }
  }

  lemma ParseLineOf(head: string, text: string, rest: string)
    requires '\n' !in text
    ensures ParseLine(head + Line(text, rest), head) == Some((text, rest))
  {
    StripPrefixOf(head, Line(text, rest));
    SplitAtFirst(text, '\n', rest);
  }

  lemma ParseTailOf(message: string, timestamp: string)
    requires '*' !in message
    ensures ParseTail(Footer(message, timestamp)) == Some((message, timestamp))
  {
    var m := message + Rule;
    assert '*' !in Rule;
    SplitAtFirst(m, '*', FooterHead + timestamp + "*");
    StripPrefixOf(FooterHead, timestamp + "*");
    assert FooterHead + timestamp + "*" == FooterHead + (timestamp + "*");
    assert m[|m| - |Rule|..] == Rule;
    assert m[..|m| - |Rule|] == message;
    assert (timestamp + "*")[..|timestamp|] == timestamp;
  }

  /**
   * The body decodes back to exactly the fields and timestamp it was made
   * from, provided the single-line fields hold no line feed and the message
   * no asterisk, for a reader that ends a line only at a line feed. Markdown
   * rendering is another matter: see `Examples.LoneCarriageReturnInName`.
   */
  lemma ParseIssueBodyRoundTrip(c: CleanSubmission, timestamp: string)
    requires Separable(c)
    ensures ParseIssueBody(IssueBody(c, timestamp)) == Some((c, timestamp))
  {
    var tail := MessageHead + Footer(c.message, timestamp);
    var subject := SubjectHead + Line(c.subject, tail);
    var email := EmailHead + Line(c.email, subject);
    ParseLineOf(BodyHead, c.name, email);
    ParseLineOf(EmailHead, c.email, subject);
    ParseLineOf(SubjectHead, c.subject, tail);
    StripPrefixOf(MessageHead, Footer(c.message, timestamp));
    ParseTailOf(c.message, timestamp);
  }
}
