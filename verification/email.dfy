/**
 * `isValidEmail` of the contact-form handler: the regular expression
 * `^[^\s@]+@[^\s@]+\.[^\s@]+$`, and what it amounts to.
 */
module EmailShape {
  import opened Sanitizer

  /** Every character belongs to the class `[^\s@]`. */
  predicate EmailChars(s: string) {
    forall i | 0 <= i < |s| :: !IsWhitespace(s[i]) && s[i] != '@'
  }

  /**
   * `isValidEmail(e)`: `e` splits at an `@` (index `at`) and a later `.`
   * (index `dot`) into three non-empty runs of `[^\s@]`.
   */
  predicate IsValidEmail(e: string): (ok: bool)
    ensures ok ==> 5 <= |e| && e[0] != '@' && e[|e| - 1] != '@' && '@' in e
  {
    exists at: nat, dot: nat | 0 < at < dot < |e| ::
      at + 1 < dot && dot + 1 < |e| && e[at] == '@' && e[dot] == '.' &&
      EmailChars(e[..at]) && EmailChars(e[at + 1..dot]) && EmailChars(e[dot + 1..])
  }

  /** The address shape in plain terms. */
  predicate PlainShape(e: string) {
    (forall i | 0 <= i < |e| :: !IsWhitespace(e[i])) &&
    exists at: nat | 0 < at < |e| ::
      e[at] == '@' &&
      (forall q | 0 <= q < |e| && q != at :: e[q] != '@') &&
      exists dot: nat | at + 1 < dot < |e| - 1 :: e[dot] == '.'
  }

  lemma ValidEmailHasShape(e: string)
    requires IsValidEmail(e)
    ensures PlainShape(e)
  {
    var at: nat, dot: nat :| 0 < at < dot < |e| &&
      at + 1 < dot && dot + 1 < |e| && e[at] == '@' && e[dot] == '.' &&
      EmailChars(e[..at]) && EmailChars(e[at + 1..dot]) && EmailChars(e[dot + 1..]);
    forall i | 0 <= i < |e| && i != at ensures !IsWhitespace(e[i]) && e[i] != '@' {
      if i < at {
        assert e[i] == e[..at][i];
      } else if i < dot {
        assert e[i] == e[at + 1..dot][i - at - 1];
      } else if i > dot {
        assert e[i] == e[dot + 1..][i - dot - 1];
      }
    }
  }

  lemma ShapeIsValidEmail(e: string)
    requires PlainShape(e)
    ensures IsValidEmail(e)
  {
    var at: nat :| 0 < at < |e| && e[at] == '@' &&
      (forall q | 0 <= q < |e| && q != at :: e[q] != '@') &&
      exists dot: nat | at + 1 < dot < |e| - 1 :: e[dot] == '.';
    var dot: nat :| at + 1 < dot < |e| - 1 && e[dot] == '.';
    assert EmailChars(e[..at]);
    assert EmailChars(e[at + 1..dot]);
    assert EmailChars(e[dot + 1..]);
  }

  /**
   * An address passes the regex exactly when it has no whitespace, exactly
   * one `@` with something before it, and a `.` after the `@` that is neither
   * the first nor the last character of the domain.
   */
  lemma IsValidEmailIffShape(e: string)
    ensures IsValidEmail(e) <==> PlainShape(e)
  {
    if IsValidEmail(e) {
      ValidEmailHasShape(e);
    }
    if PlainShape(e) {
      ShapeIsValidEmail(e);
    }
  }
}
