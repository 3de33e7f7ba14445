/**
 * Worked inputs for the sanitisers and the address check: a name written
 * as an HTML tag, a message made only of markup, and an address that the raw
 * check accepts but that no longer has the address shape once sanitised.
 */
module Examples {
  import opened Sanitizer
  import opened EmailShape

  /** The pieces of the tag that contain no markup character. */
  lemma TagPiecesAreClean()
    ensures NoMarkup("script") && NoMarkup("Bad") && NoMarkup("/script")
  {
  }

  /** The pieces of the tag that are markup characters. */
  lemma AngleBracketsAreStripped()
    ensures StripMarkup("<") == [] && StripMarkup(">") == []
  {
    assert IsMarkup('<') && IsMarkup('>');
  }

  /** The tag and its stripped form, spelt piece by piece. */
  lemma TagSpelling()
    ensures "<" + "script" + ">" + "Bad" + "<" + "/script" + ">" == "<script>Bad</script>"
    ensures "script" + "Bad" + "/script" == "scriptBad/script"
  {
  }

  /** Each angle bracket goes; the tag name, the text and the slash stay. */
  lemma ScriptTagIsStripped()
    ensures StripMarkup("<script>Bad</script>") == "scriptBad/script"
  {
    TagPiecesAreClean();
    AngleBracketsAreStripped();
    var p1 := "<" + "script";
    StripMarkupAppend("<", "script");
    assert StripMarkup(p1) == "script";
    var p2 := p1 + ">";
    StripMarkupAppend(p1, ">");
    assert StripMarkup(p2) == "script";
    var p3 := p2 + "Bad";
    StripMarkupAppend(p2, "Bad");
    assert StripMarkup(p3) == "script" + "Bad";
    var p4 := p3 + "<";
    StripMarkupAppend(p3, "<");
    assert StripMarkup(p4) == "script" + "Bad";
    var p5 := p4 + "/script";
    StripMarkupAppend(p4, "/script");
    assert StripMarkup(p5) == "script" + "Bad" + "/script";
    var p6 := p5 + ">";
    StripMarkupAppend(p5, ">");
    assert StripMarkup(p6) == "script" + "Bad" + "/script";
    TagSpelling();
  }

  /** The stripped tag is already a clean single line. */
  lemma StrippedTagIsSingleLine()
    ensures NoLineFeed("scriptBad/script") && Trimmed("scriptBad/script")
  {
  }

  /** Angle brackets are deleted and the letters and slash between them kept. */
  lemma ScriptTagNameIsStripped()
    ensures Sanitize("<script>Bad</script>", 100) == "scriptBad/script"
  {
    ScriptTagIsStripped();
    StrippedTagIsSingleLine();
  }

  /** The two words around the line break, and the break itself. */
  lemma CrLfPieces()
    ensures ReplaceNewlines("Hello") == "Hello" && ReplaceNewlines("World") == "World"
    ensures ReplaceNewlines("\r\n") == " "
  {
    assert NoLineFeed("Hello") && NoLineFeed("World");
    ReplaceNewlinesOfMatch('a');
  }

  /** The two-line text and its one-line form, spelt piece by piece. */
  lemma CrLfSpelling()
    ensures "Hello" + ("\r\n" + "World") == "Hello\r\nWorld"
    ensures "Hello" + (" " + "World") == "Hello World"
  {
  }

  lemma CrLfIsReplaced()
    ensures ReplaceNewlines("Hello\r\nWorld") == "Hello World"
  {
    ReplaceNewlinesAppend("Hello", "\r\n" + "World");
    ReplaceNewlinesAppend("\r\n", "World");
    CrLfPieces();
    CrLfSpelling();
  }

  /** The two-line text has no markup, and its one-line form is trimmed. */
  lemma CrLfTextIsClean()
    ensures StripMarkup("Hello\r\nWorld") == "Hello\r\nWorld"
    ensures Trim("Hello World") == "Hello World"
  {
    assert NoMarkup("Hello\r\nWorld");
    assert Trimmed("Hello World");
  }

  /** A CR LF pair between two words becomes the single space between them. */
  lemma CarriageReturnLineFeedBecomesSpace()
    ensures Sanitize("Hello\r\nWorld", 100) == "Hello World"
  {
    CrLfTextIsClean();
    CrLfIsReplaced();
  }

  /**
   * `-` is not a markup character and a lone carriage return is not a line
   * break for the sanitiser, so a name can still carry a line break
   * followed by a rule marker into the rendered body.
   */
  lemma LoneCarriageReturnInName()
    ensures Sanitize("Bob\r---", 100) == "Bob\r---"
  {
    var s := "Bob\r---";
    assert NoMarkup(s) && NoLineFeed(s) && Trimmed(s);
    SanitizeFixedPoints(s, 100);
  }

  /** A message of asterisks and hashes sanitises to nothing. */
  lemma MarkupOnlyMessageIsEmpty()
    ensures SanitizeMessage("***###", 5000) == ""
  {
    var s := "***###";
    assert forall i | 0 <= i < |s| :: IsMarkup(s[i]);
    SanitizeOfMarkupOnly(s, 5000);
  }

  lemma UnderscoreAddressIsValid()
    ensures IsValidEmail("_@c.d")
  {
    var e := "_@c.d";
    assert e[1] == '@' && e[3] == '.';
    assert EmailChars(e[..1]) && EmailChars(e[2..3]) && EmailChars(e[4..]);
  }

  lemma UnderscoreIsStripped()
    ensures Sanitize("_@c.d", 100) == "@c.d"
  {
    var t := "@c.d";
    assert StripMarkup("_@c.d") == t;
    assert NoLineFeed(t);
    assert Trimmed(t);
  }

  lemma LeadingAtIsInvalid()
    ensures !IsValidEmail("@c.d")
  {
    var t := "@c.d";
    IsValidEmailIffShape(t);
    assert t[0] == '@';
  }

  /**
   * The address is checked before it is sanitised, so the forwarded address
   * need not have the address shape: "_@c.d" passes, and sanitising deletes
   * the underscore, which leaves nothing before the `@`.
   */
  lemma SanitisedAddressMayLoseShape()
    ensures IsValidEmail("_@c.d")
    ensures Sanitize("_@c.d", 100) == "@c.d" && !IsValidEmail("@c.d")
  {
    UnderscoreAddressIsValid();
    UnderscoreIsStripped();
    LeadingAtIsInvalid();
  }
}
