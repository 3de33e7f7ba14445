/**
 * The two string sanitisers of the contact-form handler (api/contact/index.js).
 *
 * Both truncate the input, delete the characters that carry structure in
 * GitHub-flavoured Markdown and trim surrounding whitespace; the single-line
 * variant also turns every `\r?\n` into one space. Strings are sequences of
 * characters, and whitespace is the table that JavaScript's `\s` and
 * `String.prototype.trim` share.
 */
module Sanitizer {

  /** ECMAScript WhiteSpace and LineTerminator code points. */
  predicate IsWhitespace(c: char) {
    var n := c as int;
    n == 0x09 || n == 0x0A || n == 0x0B || n == 0x0C || n == 0x0D || n == 0x20 ||
    n == 0xA0 || n == 0x1680 || (0x2000 <= n <= 0x200A) ||
    n == 0x2028 || n == 0x2029 || n == 0x202F || n == 0x205F || n == 0x3000 || n == 0xFEFF
  }

  /** The character class `[[\]()#*`_~<>\\]` of the stripping regex. */
  predicate IsMarkup(c: char) {
    c in {'[', ']', '(', ')', '#', '*', '`', '_', '~', '<', '>', '\\'}
  }

  predicate NoMarkup(s: string) {
    forall i | 0 <= i < |s| :: !IsMarkup(s[i])
  }

  predicate NoLineFeed(s: string) {
    forall i | 0 <= i < |s| :: s[i] != '\n'
  }

  /** Neither the first nor the last character is whitespace. */
  predicate Trimmed(s: string) {
    s == [] || (!IsWhitespace(s[0]) && !IsWhitespace(s[|s| - 1]))
  }

  /** `s.slice(0, maxLength)` for a non-negative `maxLength`. */
  function Truncate(s: string, maxLength: nat): (r: string)
    ensures |r| == if |s| <= maxLength then |s| else maxLength
    ensures r == s[..|r|]
    ensures |s| <= maxLength ==> r == s
  {
    if |s| <= maxLength then s else s[..maxLength]
  }

  /** `s.replace(/[[\]()#*`_~<>\\]/g, '')`. */
  function StripMarkup(s: string): (r: string)
    ensures |r| <= |s|
    ensures NoMarkup(r)
    ensures NoLineFeed(s) ==> NoLineFeed(r)
    ensures NoMarkup(s) ==> r == s
  {
    if s == [] then []
    else if IsMarkup(s[0]) then StripMarkup(s[1..])
    else [s[0]] + StripMarkup(s[1..])
  }

  /**
   * `s.replace(/\r?\n/g, ' ')`: scanning from the left, a CR LF pair or a
   * lone LF becomes one space; a CR not followed by LF is kept.
   */
  function ReplaceNewlines(s: string): (r: string)
    ensures |r| <= |s|
    ensures NoLineFeed(r)
    ensures NoMarkup(s) ==> NoMarkup(r)
    ensures NoLineFeed(s) ==> r == s
  {
    if s == [] then []
    else if |s| >= 2 && s[0] == '\r' && s[1] == '\n' then [' '] + ReplaceNewlines(s[2..])
    else if s[0] == '\n' then [' '] + ReplaceNewlines(s[1..])
    else [s[0]] + ReplaceNewlines(s[1..])
  }

  /** `s.trimStart()`: the suffix left after dropping every leading whitespace character. */
  function TrimStart(s: string): (r: string)
    ensures |r| <= |s| && r == s[|s| - |r|..]
    ensures forall i | 0 <= i < |s| - |r| :: IsWhitespace(s[i])
    ensures r == [] || !IsWhitespace(r[0])
  {
    if s != [] && IsWhitespace(s[0]) then TrimStart(s[1..]) else s
  }

  /** How many whitespace characters `s.trimStart()` drops. */
  function LeadingWhitespace(s: string): (n: nat)
    ensures n <= |s|
  {
    |s| - |TrimStart(s)|
  }

  /** `s.trimEnd()`: the prefix left after dropping every trailing whitespace character. */
  function TrimEnd(s: string): (r: string)
    ensures |r| <= |s| && r == s[..|r|]
    ensures forall i | |r| <= i < |s| :: IsWhitespace(s[i])
    ensures r == [] || !IsWhitespace(r[|r| - 1])
  {
    if s != [] && IsWhitespace(s[|s| - 1]) then TrimEnd(s[..|s| - 1]) else s
  }

  /** `s.trim()`. */
  function Trim(s: string): (r: string)
    ensures |r| <= |s|
    ensures Trimmed(r)
    ensures NoMarkup(s) ==> NoMarkup(r)
    ensures NoLineFeed(s) ==> NoLineFeed(r)
    ensures Trimmed(s) ==> r == s
  {
    TrimEnd(TrimStart(s))
  }

  /**
   * `sanitize(str, maxLength = 500)`: the single-line sanitiser used for the
   * name, the email address and the subject.
   */
  function Sanitize(s: string, maxLength: nat := 500): (r: string)
    ensures s == [] ==> r == []
    ensures |r| <= maxLength
    ensures NoMarkup(r) && NoLineFeed(r) && Trimmed(r)
  {
    if s == [] then []
    else Trim(ReplaceNewlines(Stripped(s, maxLength)))
  }

  /** The input cut to `maxLength` characters with the markup characters deleted. */
  function Stripped(s: string, maxLength: nat): (r: string)
    ensures |r| <= |s| && |r| <= maxLength
  {
    StripMarkup(Truncate(s, maxLength))
  }

  /**
   * `sanitizeMessage(str, maxLength = 5000)`: the message sanitiser, which
   * keeps line breaks so that paragraphs survive.
   */
  function SanitizeMessage(s: string, maxLength: nat := 5000): (r: string)
    ensures s == [] ==> r == []
    ensures |r| <= maxLength
    ensures NoMarkup(r) && Trimmed(r)
  {
    if s == [] then []
    else Trim(Stripped(s, maxLength))
  }

  /** Characters outside the stripped class keep their number of occurrences. */
  lemma {:induction false} StripMarkupKeepsText(s: string)
    ensures forall c | !IsMarkup(c) :: multiset(StripMarkup(s))[c] == multiset(s)[c]
  {
    if s != [] {
      StripMarkupKeepsText(s[1..]);
      assert s == [s[0]] + s[1..];
    }
  }

  /** Stripping works one character at a time, so it distributes over concatenation. */
  lemma {:induction false} StripMarkupAppend(a: string, b: string)
    ensures StripMarkup(a + b) == StripMarkup(a) + StripMarkup(b)
  {
    if a == [] {
      assert a + b == b;
    } else {
      assert (a + b)[0] == a[0];
      assert (a + b)[1..] == a[1..] + b;
      StripMarkupAppend(a[1..], b);
      if !IsMarkup(a[0]) {
        assert [a[0]] + (StripMarkup(a[1..]) + StripMarkup(b)) == ([a[0]] + StripMarkup(a[1..])) + StripMarkup(b);
      }
    }
  }

  /** Input made only of stripped characters leaves nothing. */
  lemma {:induction false} StripMarkupOfMarkupOnly(s: string)
    requires forall i | 0 <= i < |s| :: IsMarkup(s[i])
    ensures StripMarkup(s) == []
  {
    if s != [] {
      StripMarkupOfMarkupOnly(s[1..]);
    }
  }

  lemma AppendAssociates(x: string, y: string, z: string)
    ensures x + (y + z) == (x + y) + z
  {
  }

  /**
   * Replacing works match by match, so it distributes over a concatenation
   * that does not cut a CR LF pair in two.
   */
  lemma {:induction false} ReplaceNewlinesAppend(a: string, b: string)
    requires a == [] || b == [] || a[|a| - 1] != '\r' || b[0] != '\n'
    ensures ReplaceNewlines(a + b) == ReplaceNewlines(a) + ReplaceNewlines(b)
  {
    if a == [] {
      assert a + b == b;
    } else if |a| >= 2 && a[0] == '\r' && a[1] == '\n' {
      assert (a + b)[0] == '\r' && (a + b)[1] == '\n';
      assert (a + b)[2..] == a[2..] + b;
      if a[2..] != [] {
        assert a[2..][|a[2..]| - 1] == a[|a| - 1];
      }
      ReplaceNewlinesAppend(a[2..], b);
      AppendAssociates([' '], ReplaceNewlines(a[2..]), ReplaceNewlines(b));
    } else {
      var ab := a + b;
      assert ab[0] == a[0];
      assert ab[1..] == a[1..] + b;
      if |a| == 1 {
        assert b != [] ==> ab[1] == b[0];
      } else {
        assert ab[1] == a[1];
        assert a[1..][|a[1..]| - 1] == a[|a| - 1];
      }
      assert !(|ab| >= 2 && ab[0] == '\r' && ab[1] == '\n');
      var h := if a[0] == '\n' then [' '] else [a[0]];
      assert ReplaceNewlines(ab) == h + ReplaceNewlines(ab[1..]);
      assert ReplaceNewlines(a) == h + ReplaceNewlines(a[1..]);
      ReplaceNewlinesAppend(a[1..], b);
      AppendAssociates(h, ReplaceNewlines(a[1..]), ReplaceNewlines(b));
    }
  }

  /** Each match becomes one space; any other single character is kept. */
  lemma ReplaceNewlinesOfMatch(c: char)
    ensures ReplaceNewlines("\n") == " " && ReplaceNewlines("\r\n") == " "
    ensures c != '\n' ==> ReplaceNewlines([c]) == [c]
  {
  }

  /** A carriage return that is not followed by a line feed is kept, in place. */
  lemma ReplaceNewlinesKeepsLoneCarriageReturn(a: string, b: string)
    requires b == [] || b[0] != '\n'
    ensures ReplaceNewlines(a + ['\r'] + b) == ReplaceNewlines(a) + ['\r'] + ReplaceNewlines(b)
  {
    assert a + ['\r'] + b == a + (['\r'] + b);
    ReplaceNewlinesAppend(a, ['\r'] + b);
    ReplaceNewlinesAppend(['\r'], b);
    assert ReplaceNewlines(['\r']) == ['\r'];
  }

  /** Characters past the limit never influence either sanitiser. */
  lemma SanitizeReadsOnlyPrefix(s: string, maxLength: nat)
    requires maxLength < |s|
    ensures Sanitize(s, maxLength) == Sanitize(s[..maxLength], maxLength)
    ensures SanitizeMessage(s, maxLength) == SanitizeMessage(s[..maxLength], maxLength)
  {
    var t := s[..maxLength];
    assert Truncate(s, maxLength) == t;
    assert Truncate(t, maxLength) == t;
    if t == [] {
      assert StripMarkup(t) == [] && ReplaceNewlines([]) == [] && Trim([]) == [];
    }
  }

  /** A prefix of the suffix of `s` that starts at `lo` is an infix of `s`. */
  lemma PrefixOfSuffix(s: string, lo: nat, r: string)
    requires lo <= |s| && |r| <= |s| - lo && r == s[lo..][..|r|]
    ensures r == s[lo..lo + |r|]
  {
  }

  /** Whitespace after the prefix `r` of the suffix `s[lo..]` is whitespace of `s`. */
  lemma WhitespaceAfterPrefix(s: string, lo: nat, r: string)
    requires lo <= |s| && |r| <= |s| - lo
    requires forall i | |r| <= i < |s| - lo :: IsWhitespace(s[lo..][i])
    ensures forall i | lo + |r| <= i < |s| :: IsWhitespace(s[i])
  {
    forall i | lo + |r| <= i < |s| ensures IsWhitespace(s[i]) {
      assert s[i] == s[lo..][i - lo];
    }
  }

  /** `Trim` is `TrimEnd` applied to the suffix that `TrimStart` leaves. */
  lemma TrimSplit(s: string)
    ensures TrimStart(s) == s[LeadingWhitespace(s)..]
    ensures Trim(s) == TrimEnd(s[LeadingWhitespace(s)..])
  {
  }

  /** Trimming keeps one contiguous stretch of the input, starting after the leading whitespace. */
  lemma TrimIsInfix(s: string)
    ensures LeadingWhitespace(s) + |Trim(s)| <= |s|
    ensures Trim(s) == s[LeadingWhitespace(s)..LeadingWhitespace(s) + |Trim(s)|]
  {
    TrimSplit(s);
    PrefixOfSuffix(s, LeadingWhitespace(s), Trim(s));
  }

  /** What trimming drops on either side is whitespace. */
  lemma TrimDropsOnlyWhitespace(s: string)
    ensures LeadingWhitespace(s) + |Trim(s)| <= |s|
    ensures forall i | 0 <= i < LeadingWhitespace(s) :: IsWhitespace(s[i])
    ensures forall i | LeadingWhitespace(s) + |Trim(s)| <= i < |s| :: IsWhitespace(s[i])
  {
    TrimSplit(s);
    WhitespaceAfterPrefix(s, LeadingWhitespace(s), Trim(s));
  }

  /**
   * A character that has non-whitespace characters on both sides survives
   * trimming, shifted left by the number of leading whitespace characters.
   */
  lemma TrimKeepsInterior(s: string, a: nat, k: nat, b: nat)
    requires a < k < b < |s|
    requires !IsWhitespace(s[a]) && !IsWhitespace(s[b])
    ensures LeadingWhitespace(s) <= a
    ensures k - LeadingWhitespace(s) < |Trim(s)| && Trim(s)[k - LeadingWhitespace(s)] == s[k]
  {
    TrimIsInfix(s);
    TrimDropsOnlyWhitespace(s);
    var lo := LeadingWhitespace(s);
    assert lo <= a;
    assert b < lo + |Trim(s)|;
  }

  /** Applying `sanitize` twice with the same bound equals applying it once. */
  lemma SanitizeIdempotent(s: string, maxLength: nat)
    ensures Sanitize(Sanitize(s, maxLength), maxLength) == Sanitize(s, maxLength)
  {
    var r := Sanitize(s, maxLength);
    if r != [] {
      assert Truncate(r, maxLength) == r;
      assert StripMarkup(r) == r;
      assert ReplaceNewlines(r) == r;
      assert Trim(r) == r;
    }
  }

  /** Applying `sanitizeMessage` twice with the same bound equals applying it once. */
  lemma SanitizeMessageIdempotent(s: string, maxLength: nat)
    ensures SanitizeMessage(SanitizeMessage(s, maxLength), maxLength) == SanitizeMessage(s, maxLength)
  {
    var r := SanitizeMessage(s, maxLength);
    if r != [] {
      assert Truncate(r, maxLength) == r;
      assert StripMarkup(r) == r;
      assert Trim(r) == r;
    }
  }

  /**
   * The message sanitiser keeps line breaks: a line feed of the truncated,
   * stripped text that lies between two non-whitespace characters is still
   * there after trimming.
   */
  lemma SanitizeMessageKeepsInteriorNewlines(s: string, maxLength: nat, a: nat, k: nat, b: nat)
    requires a < k < b < |Stripped(s, maxLength)|
    requires Stripped(s, maxLength)[k] == '\n'
    requires !IsWhitespace(Stripped(s, maxLength)[a]) && !IsWhitespace(Stripped(s, maxLength)[b])
    ensures LeadingWhitespace(Stripped(s, maxLength)) <= a
    ensures k - LeadingWhitespace(Stripped(s, maxLength)) < |SanitizeMessage(s, maxLength)|
    ensures SanitizeMessage(s, maxLength)[k - LeadingWhitespace(Stripped(s, maxLength))] == '\n'
  {
    var t := Stripped(s, maxLength);
    assert s != [];
    assert SanitizeMessage(s, maxLength) == Trim(t);
    TrimKeepsInterior(t, a, k, b);
  }

  /** A field made only of stripped characters sanitises to the empty string. */
  lemma SanitizeOfMarkupOnly(s: string, maxLength: nat)
    requires forall i | 0 <= i < |s| :: IsMarkup(s[i])
    ensures Sanitize(s, maxLength) == [] && SanitizeMessage(s, maxLength) == []
  {
    if s != [] {
      var t := Truncate(s, maxLength);
      forall i | 0 <= i < |t| ensures IsMarkup(t[i]) {
        assert t[i] == s[i];
      }
      StripMarkupOfMarkupOnly(t);
      assert ReplaceNewlines([]) == [];
      assert Trim([]) == [];
    }
  }

  /** Example: only `\r?\n` is replaced, so a carriage return on its own stays inside a single-line field. */
  lemma SanitizeKeepsLoneCarriageReturn()
    ensures Sanitize("a\rb", 100) == "a\rb"
  {
    var s := "a\rb";
    assert s[0] == 'a' && s[1] == '\r' && s[2] == 'b';
    assert NoMarkup(s) && NoLineFeed(s) && Trimmed(s);
    assert Truncate(s, 100) == s;
  }

  /** The strings `sanitize` leaves unchanged are exactly the clean ones within the bound. */
  lemma SanitizeFixedPoints(s: string, maxLength: nat)
    ensures Sanitize(s, maxLength) == s <==> |s| <= maxLength && NoMarkup(s) && NoLineFeed(s) && Trimmed(s)
  {
    if |s| <= maxLength && NoMarkup(s) && NoLineFeed(s) && Trimmed(s) && s != [] {
      assert Truncate(s, maxLength) == s;
      assert StripMarkup(s) == s;
      assert ReplaceNewlines(s) == s;
    }
  }

  /** The strings `sanitizeMessage` leaves unchanged are exactly the clean ones within the bound. */
  lemma SanitizeMessageFixedPoints(s: string, maxLength: nat)
    ensures SanitizeMessage(s, maxLength) == s <==> |s| <= maxLength && NoMarkup(s) && Trimmed(s)
  {
    if |s| <= maxLength && NoMarkup(s) && Trimmed(s) && s != [] {
      assert Truncate(s, maxLength) == s;
      assert StripMarkup(s) == s;
    }
  }
}
