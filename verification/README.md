# Contact-form handler model

The site's contact form posts to one serverless function,
`api/contact/index.js`. That function turns a visitor's message into a
GitHub issue. In order, it:

- refuses every method but POST;
- refuses oversized payloads;
- checks that the name, email and message are present;
- checks the address against a simple regex;
- answers a filled honeypot field (`website`) with a silent success;
- sanitises every field against Markdown injection;
- refuses a name, address or message that sanitises to nothing;
- formats the issue title and body and files the issue;
- maps the tracker's reply to its own response.

This project models that function in Dafny, as pure functions:

- `Sanitizer` (sanitizer.dfy) holds the two sanitisers, `sanitize` and
  `sanitizeMessage`. They are built from the string operations they chain:
  - `Truncate` is `slice`;
  - `StripMarkup` is the deletion `replace`;
  - `ReplaceNewlines` is the `\r?\n` replacement;
  - `TrimStart`, `TrimEnd` and `Trim` are `trim`.

  Whitespace is the ECMAScript WhiteSpace and LineTerminator table, which
  the regex `\s` and `trim` share.
- `EmailShape` (email.dfy) holds the address regex, stated as the existence
  of the split points the regex match picks. It also holds a plain
  characterisation of that regex and the proof that the two agree.
- `IssueFormat` (issue.dfy) holds:
  - the title rule;
  - the issue body template;
  - the single label;
  - a parser for the body template, which shows that the template loses
    nothing.
- `ContactHandler` (handler.dfy) holds the handler, recast as a pure
  decision function `Decide` from an abstract request to one of four
  decisions: 405, a rejection, the silent honeypot success, or forwarding
  an issue. `ForwardResponse` maps how the call to the tracker ended onto
  the response. `Handle` puts the two together and returns the response and
  the issues sent.
- `Examples` (examples.dfy) works through a few concrete inputs.

## Model

| member | source | states |
|---|---|---|
| Sanitizer.Truncate | api/contact/index.js:13 | the result is a prefix of the input of length exactly `maxLength`, or the whole input when it is no longer than that: the first `maxLength` characters |
| Sanitizer.SanitizeReadsOnlyPrefix | api/contact/index.js:10-28 | characters past the limit never influence either sanitiser: the result on a long input equals the result on its first `maxLength` characters |
| Sanitizer.StripMarkup | api/contact/index.js:14 | no markup character `[ ] ( ) # * \` _ ~ < > \` is left; nothing gets longer; text without markup is returned unchanged; no line feed is introduced |
| Sanitizer.StripMarkupKeepsText | api/contact/index.js:14 | every character outside the markup class keeps its number of occurrences |
| Sanitizer.StripMarkupAppend | api/contact/index.js:14 | deletion distributes over concatenation |
| Sanitizer.StripMarkupOfMarkupOnly | api/contact/index.js:14 | input made only of markup characters strips to nothing |
| Sanitizer.ReplaceNewlines | api/contact/index.js:15 | no line feed is left; nothing gets longer; markup-free text stays markup-free; text without line feeds is unchanged |
| Sanitizer.ReplaceNewlinesAppend | api/contact/index.js:15 | replacement works match by match: it distributes over any concatenation that does not split a CR LF pair |
| Sanitizer.ReplaceNewlinesOfMatch | api/contact/index.js:15 | a lone LF and a CR LF pair each become one space; any other single character is kept |
| Sanitizer.ReplaceNewlinesKeepsLoneCarriageReturn | api/contact/index.js:15 | for every input, a carriage return not followed by a line feed is kept in place between the replaced text before and after it |
| Sanitizer.TrimStart | api/contact/index.js:16 | the result is a suffix; everything dropped is whitespace; the result does not start with whitespace |
| Sanitizer.TrimEnd | api/contact/index.js:16 | the result is a prefix; everything dropped is whitespace; the result does not end with whitespace |
| Sanitizer.Trim | api/contact/index.js:16 | the result has whitespace at neither end; it never grows; it keeps the absence of markup and of line feeds; already-trimmed text is unchanged |
| Sanitizer.TrimIsInfix | api/contact/index.js:16 | trimming keeps one contiguous stretch of the input, starting after the leading whitespace |
| Sanitizer.TrimDropsOnlyWhitespace | api/contact/index.js:16 | everything before and after the kept stretch is whitespace |
| Sanitizer.TrimKeepsInterior | api/contact/index.js:16 | a character with non-whitespace on both sides survives trimming, at its shifted position |
| Sanitizer.Sanitize | api/contact/index.js:10-17 | empty input gives empty output; the result is at most `maxLength` (default 500) long, has no markup character and no line feed, and is trimmed |
| Sanitizer.Stripped | api/contact/index.js:25-26 | truncating then stripping gives at most `maxLength` characters |
| Sanitizer.SanitizeMessage | api/contact/index.js:22-28 | empty input gives empty output; the result is at most `maxLength` (default 5000) long, has no markup character, and is trimmed |
| Sanitizer.SanitizeIdempotent | api/contact/index.js:10-17 | for a fixed limit, sanitising twice equals sanitising once |
| Sanitizer.SanitizeMessageIdempotent | api/contact/index.js:22-28 | for a fixed limit, sanitising a message twice equals sanitising it once |
| Sanitizer.SanitizeMessageKeepsInteriorNewlines | api/contact/index.js:22-28 | a line feed that survives truncation and stripping, with non-whitespace on both sides, is still in the sanitised message, shifted left by the leading whitespace |
| Sanitizer.SanitizeOfMarkupOnly | api/contact/index.js:10-28 | both sanitisers turn input made only of markup characters into the empty string |
| Sanitizer.SanitizeKeepsLoneCarriageReturn | api/contact/index.js:15 | example: `sanitize("a\rb", 100)` is `"a\rb"`, because a lone carriage return is not a match |
| Sanitizer.SanitizeFixedPoints | api/contact/index.js:10-17 | `sanitize` leaves its input unchanged exactly when the input fits the limit, has no markup, has no line feed and is trimmed |
| Sanitizer.SanitizeMessageFixedPoints | api/contact/index.js:22-28 | `sanitizeMessage` leaves its input unchanged exactly when the input fits the limit, has no markup and is trimmed |
| EmailShape.IsValidEmail | api/contact/index.js:33-36 | the regex as split points: an accepted address is at least five characters long, contains an `@`, and neither starts nor ends with one |
| EmailShape.ValidEmailHasShape | api/contact/index.js:33-36 | an address the regex accepts has no whitespace, exactly one `@` with something before it, and a `.` strictly inside the domain part |
| EmailShape.ShapeIsValidEmail | api/contact/index.js:33-36 | every address of that shape is accepted by the regex |
| EmailShape.IsValidEmailIffShape | api/contact/index.js:33-36 | the regex accepts exactly the addresses of that shape (both directions) |
| IssueFormat.Title | api/contact/index.js:134 | the title starts with "[Contact] " and has no line feed when the subject and name have none |
| IssueFormat.IssueBody | api/contact/index.js:109-123 | the body opens with the heading and the `**From:**` line carrying the name, and closes with the italic footer carrying the timestamp |
| IssueFormat.FormatIssue | api/contact/index.js:133-137 | the issue has the "[Contact] " title prefix and exactly the one label "contact-form"; when the single-line fields have no line feed and the message has no `*`, its body reads back to exactly the fields and the timestamp |
| IssueFormat.ParseIssueBodyRoundTrip | api/contact/index.js:109-123 | reading the body template back gives the name, email, subject, message and timestamp it was built from, when the single-line fields have no line feed and the message has no `*` |
| ContactHandler.Clean | api/contact/index.js:92-96 | the sanitised fields respect their limits (100, 100, 200, 5000); none has a markup character; name, email and subject have no line feed; all are trimmed; the subject is never empty, because it falls back to "No subject" |
| ContactHandler.Decide | api/contact/index.js:42-137 | a forwarded issue is built from the sanitised fields, and those fields are well formed |
| ContactHandler.ForwardResponse | api/contact/index.js:140-164 | the reply is JSON; it is 200 `{"success":true}` exactly when the tracker created the issue; otherwise it is 500, with `{"error":"Failed to submit"}` when the tracker refused and `{"error":"Server error"}` when the call threw |
| ContactHandler.Handle | api/contact/index.js:38-165 | at most one issue is sent; the status is one of 200, 400, 405, 413 and 500; a rejection is answered with its own status and `{"error":...}` body and sends nothing; the honeypot case is answered 200 `{"success":true}` and sends nothing |
| ContactHandler.RejectionReplies | api/contact/index.js:48-164 | the exact reply and empty send list for a POST without a body (500 "Server error"), a missing field (400 "Missing required fields"), a malformed address (400 "Invalid email format") and fields that sanitise to nothing (400 "Invalid input") |
| ContactHandler.DecisionOrder | api/contact/index.js:42-106 | each decision is reached exactly when every earlier check passed and its own failed, in the order method, body, size, required fields, email, honeypot, emptiness after sanitising |
| ContactHandler.NonPostIsNotAllowed | api/contact/index.js:42-46 | a non-POST request gets 405 "Method not allowed" whatever it carries, and nothing is sent |
| ContactHandler.OversizeBeforeFields | api/contact/index.js:51-60 | a POST over 50000 gets 413 "Payload too large" before any field is looked at |
| ContactHandler.HoneypotNeverForwards | api/contact/index.js:62-90 | a filled honeypot never sends an issue; with a missing field it still gets 400, and with the fields present and a valid address it gets 200 `{"success":true}` |
| ContactHandler.MarkupOnlyMessageIsInvalidInput | api/contact/index.js:93-106 | a present message made only of markup characters ends in 400 "Invalid input" |
| ContactHandler.ForwardedIssueDecodes | api/contact/index.js:92-137 | a forwarded issue's fields are well formed, its body decodes back to exactly the sanitised fields and the timestamp, and its only label is "contact-form" |
| ContactHandler.ForwardedTitle | api/contact/index.js:134 | with the subject defaulted as on line 95, the title is "[Contact] " plus the sanitised subject; when that subject is empty or equals "No subject", the title is "[Contact] New message from " plus the sanitised name; the title has no line feed |
| ContactHandler.ForwardingReply | api/contact/index.js:125-164 | an issue is sent exactly when the decision is to forward; the reply then depends only on the outcome of that call, and otherwise not on it at all; neither the tracker's error text nor the exception's ever reaches the caller |
| ContactHandler.CleanOfCleanFields | api/contact/index.js:92-96 | sanitising fields that are already clean returns them unchanged |
| ContactHandler.CleanSubmissionForwardedUnchanged | api/contact/index.js:42-137 | a POST with clean fields, a valid address, an empty honeypot and an admissible size is filed with exactly those fields |
| Examples.ScriptTagIsStripped | api/contact/index.js:14 | `<script>Bad</script>` strips to `scriptBad/script` |
| Examples.ScriptTagNameIsStripped | api/contact/index.js:10-17 | a script tag in a name sanitises to `scriptBad/script` |
| Examples.CarriageReturnLineFeedBecomesSpace | api/contact/index.js:10-17 | `sanitize("Hello\r\nWorld", 100)` is `"Hello World"`: the CR LF pair becomes one space |
| Examples.LoneCarriageReturnInName | api/contact/index.js:10-17 | `sanitize("Bob\r---", 100)` is `"Bob\r---"`: a name can still carry a lone carriage return followed by a rule marker |
| Examples.MarkupOnlyMessageIsEmpty | api/contact/index.js:22-28 | the message `***###` sanitises to nothing |
| Examples.UnderscoreAddressIsValid | api/contact/index.js:33-36 | `_@c.d` passes the address check |
| Examples.LeadingAtIsInvalid | api/contact/index.js:33-36 | `@c.d` fails the address check |
| Examples.SanitisedAddressMayLoseShape | api/contact/index.js:73-94 | the address is checked before it is sanitised, so `_@c.d` is accepted and then forwarded as `@c.d`, which the address regex itself would refuse |

## Left out

- The call to the GitHub issues API, its headers, the repository name and the token (api/contact/index.js:39-40, 125-138) are not modelled. Only how the call ended enters the model, as `ForwardOutcome`: created, refused with an error text, or failed by throwing.
- JSON serialisation is not modelled. The payload size `JSON.stringify(data).length` is an input (`Body.size`), and response bodies are the strings the serialiser would produce.
- A request without a body makes the size computation throw, and that ends in the catch block's 500 "Server error". The model gives this case directly, as `body == None`.
- Field values that are not strings are not modelled. Each field is either absent or a string, so `String(str)` coercion of numbers, objects or booleans is not modelled.
- The timestamp `new Date().toISOString()` is a string parameter. The clock is not modelled.
- `context.log.error` logging and the async control flow are left out. Only the response and the issues sent are modelled.
- `Truncate`: JavaScript strings are sequences of UTF-16 code units, but here they are sequences of characters. A `slice` that splits a surrogate pair is therefore not modelled, and neither are lengths counted in code units.
- assets/js/main.js is not part of this model. It is browser wiring: form reads, button state, timers and a client-side `fetch`. Its checks repeat the server's presence and address checks.
- `Handle`: the 405 reply is plain text with no JSON content type. The model records it as `json == false` and does not model headers.
- The comment at api/contact/index.js:15 says newlines are turned into spaces. Only a line feed, or a carriage return followed by one, is replaced; a lone carriage return survives, and the model keeps that behaviour.
- Structure at the level of rendered Markdown is not modelled. `ParseIssueBodyRoundTrip` reads the body back with a reader that ends lines only at line feeds. A Markdown renderer also ends a line at a lone carriage return, and `sanitize` keeps those (`Examples.LoneCarriageReturnInName`). A name such as "Bob\r---" can therefore turn the `**From:**` line into a setext heading. The message likewise keeps lines of `---` or `===`, because `-` and `=` are not in the stripped class. The model makes no promise about how the body renders.
- The subject falls back to "No subject" only after sanitising (api/contact/index.js:95). A subject that sanitises to the literal text "No subject" is therefore treated as absent by the title rule. The model keeps that too.
