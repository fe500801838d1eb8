/** The reference parser on the inputs its own tests list, and on the
    quirks it inherits from `strings.Split` and `strconv.ParseInt`.

    Each reference is first parsed as the concatenation of its pieces (a
    `...Pieces` lemma, using the form lemmas of `RbRefs`), and then as the
    text it spells (`Spellings`). */
module RbRefExamples {
  import opened Wrappers
  import opened Decimal
  import opened Text
  import opened RbRefs

  // ---------------------------------------------------------------------------
  // Numbers

  lemma Number4()
    ensures ParsePositiveInt("4") == Success(4)
  {
  }

  lemma Number8()
    ensures ParsePositiveInt("8") == Success(8)
  {
  }

  lemma Number48()
    ensures ParsePositiveInt("48") == Success(48)
  {
    assert "48"[..1] == "4";
  }

  lemma Number72()
    ensures ParsePositiveInt("72") == Success(72)
  {
    assert "72"[..1] == "7";
  }

  lemma Number74()
    ensures ParsePositiveInt("74") == Success(74)
  {
    assert "74"[..1] == "7";
  }

  /** `strconv.ParseInt` takes a leading plus sign, so `+4` is a positive integer. */
  lemma PlusFour()
    ensures ParsePositiveInt("+4") == Success(4)
  {
    assert "+4"[1..] == "4";
  }

  /** Zero is an integer but not a positive one. */
  lemma Zero()
    ensures ParsePositiveInt("0") == Failure(ParseFailed)
  {
  }

  lemma NotANumber()
    ensures ParsePositiveInt("foo") == Failure(ParseFailed)
  {
    assert !IsDigit("foo"[0]);
  }

  // ---------------------------------------------------------------------------
  // Verse texts

  lemma VerseOne()
    ensures ParseVerseRange("1") == Success(Some(VerseRange(1, None)))
  {
    SingleVerse("1");
  }

  lemma VerseThree()
    ensures ParseVerseRange("3") == Success(Some(VerseRange(3, None)))
  {
    SingleVerse("3");
  }

  lemma VerseZero()
    ensures ParseVerseRange("0") == Failure(ParseFailed)
  {
    Zero();
    SingleVerse("0");
  }

  lemma VersesOneToSeven()
    ensures ParseVerseRange("1–7") == Success(Some(VerseRange(1, Some(7))))
  {
    assert "1–7" == "1" + [EnDash] + "7";
    TwoVerses("1", EnDash, "7");
  }

  lemma VersesOneToNine()
    ensures ParseVerseRange("1–9") == Success(Some(VerseRange(1, Some(9))))
  {
    assert "1–9" == "1" + [EnDash] + "9";
    TwoVerses("1", EnDash, "9");
  }

  /** An em-dash reads as an en-dash. */
  lemma VersesOneToNineEmDash()
    ensures ParseVerseRange("1—9") == Success(Some(VerseRange(1, Some(9))))
  {
    assert "1—9" == "1" + [EmDash] + "9";
    TwoVerses("1", EmDash, "9");
  }

  /** A hyphen reads as an en-dash. */
  lemma VersesHyphen()
    ensures ParseVerseRange("72-74") == Success(Some(VerseRange(72, Some(74))))
  {
    Number72();
    Number74();
    assert "72-74" == "72" + ['-'] + "74";
    TwoVerses("72", '-', "74");
  }

  lemma VersesEnDash()
    ensures ParseVerseRange("72–74") == Success(Some(VerseRange(72, Some(74))))
  {
    Number72();
    Number74();
    assert "72–74" == "72" + [EnDash] + "74";
    TwoVerses("72", EnDash, "74");
  }

  lemma VersesReversed()
    ensures ParseVerseRange("9–1") == Failure(ValidationFailed)
  {
    assert "9–1" == "9" + [EnDash] + "1";
    TwoVerses("9", EnDash, "1");
  }

  lemma VersesReversedPrologue()
    ensures ParseVerseRange("3–2") == Failure(ValidationFailed)
  {
    assert "3–2" == "3" + [EnDash] + "2";
    TwoVerses("3", EnDash, "2");
  }

  /** A range of one verse drops its end. */
  lemma VersesSame()
    ensures ParseVerseRange("5–5") == Success(Some(VerseRange(5, None)))
  {
    assert "5–5" == "5" + [EnDash] + "5";
    TwoVerses("5", EnDash, "5");
  }

  /** Three verses are two dashes too many. */
  lemma VersesThreeParts()
    ensures ParseVerseRange("1–2–3") == Failure(ParseFailed)
  {
    assert NormalizeDashes("1–2–3") == "1–2–3";
    assert "1–2–3" == "1" + [EnDash] + "2" + [EnDash] + "3";
    SplitThree("1", "2", "3", EnDash);
  }

  // ---------------------------------------------------------------------------
  // The form lemmas, specialised to one outcome

  lemma ChapterAccepted(d: string, c: int)
    requires !HasPrefix(d, "Prol") && ' ' !in d && '.' !in d
    requires ParsePositiveInt(d) == Success(c) && c <= 73
    ensures ParseRbRef("RB " + d) == Success(RbRef(Chapter, Some(c), None))
  {
    ChapterForm(d);
  }

  lemma ChapterRejected(d: string, e: RbRefError)
    requires !HasPrefix(d, "Prol") && ' ' !in d && '.' !in d
    requires ParsePositiveInt(d) == Failure(e)
    ensures ParseRbRef("RB " + d) == Failure(e)
  {
    ChapterForm(d);
  }

  lemma ChapterVerseAccepted(d: string, t: string, c: int, v: Option<VerseRange>)
    requires !HasPrefix(d, "Prol") && ' ' !in d && '.' !in d && ' ' !in t && '.' !in t
    requires ParsePositiveInt(d) == Success(c) && c <= 73 && ParseVerseRange(t) == Success(v)
    ensures ParseRbRef("RB " + d + "." + t) == Success(RbRef(Chapter, Some(c), v))
  {
    ChapterVerseForm(d, t);
  }

  lemma ChapterVerseRejected(d: string, t: string, e: RbRefError)
    requires !HasPrefix(d, "Prol") && ' ' !in d && '.' !in d && ' ' !in t && '.' !in t
    requires ParsePositiveInt(d).Success? && ParseVerseRange(t) == Failure(e)
    ensures ParseRbRef("RB " + d + "." + t) == Failure(e)
  {
    ChapterVerseForm(d, t);
  }

  lemma PrologueAccepted(w: string, t: string, v: VerseRange)
    requires (w == "Prol." || w == "Prol") && ' ' !in t
    requires ParseVerseRange(t) == Success(Some(v))
    ensures ParseRbRef("RB " + w + " " + t) == Success(RbRef(Prologue, None, Some(v)))
  {
    PrologueForm(w, t);
  }

  lemma PrologueRejected(w: string, t: string, e: RbRefError)
    requires (w == "Prol." || w == "Prol") && ' ' !in t
    requires ParseVerseRange(t) == Failure(e)
    ensures ParseRbRef("RB " + w + " " + t) == Failure(e)
  {
    PrologueForm(w, t);
  }

  // ---------------------------------------------------------------------------
  // Every example reference, spelled from its pieces

  lemma Spellings()
    ensures "RB " + "Prol." + " " + "1" == "RB Prol. 1"
    ensures "RB " + "Prol." + " " + "1–7" == "RB Prol. 1–7"
    ensures "RB " + "Prol" + " " + "1" == "RB Prol 1"
    ensures "RB " + "48" + "." + "1" == "RB 48.1"
    ensures "RB " + "48" + "." + "1–9" == "RB 48.1–9"
    ensures "RB " + "48" + "." + "1—9" == "RB 48.1—9"
    ensures "RB " + "4" == "RB 4"
    ensures "RB " + "4" + "." + "72-74" == "RB 4.72-74"
    ensures "RB " + "4" + "." + "72–74" == "RB 4.72–74"
    ensures "RB " + "8" + "." + "3" == "RB 8.3"
    ensures "RB " + "0" + "." + "1" == "RB 0.1"
    ensures "RB " + "74" + "." + "1" == "RB 74.1"
    ensures "RB " + "48" + "." + "0" == "RB 48.0"
    ensures "RB " + "48" + "." + "9–1" == "RB 48.9–1"
    ensures "RB " + "Prol." + " " + "3–2" == "RB Prol. 3–2"
    ensures "RB " + "foo" == "RB foo"
    ensures "RB " + "+4" == "RB +4"
    ensures "RB " + "48" + "." + "" == "RB 48."
    ensures "RB " + "Prol." + " " + "" == "RB Prol. "
  {
  }

  // ---------------------------------------------------------------------------
  // The accepted references

  /** Verse 1 of the prologue, under either spelling of the prologue word. */
  lemma PrologueVerseOnePieces(w: string)
    requires w == "Prol." || w == "Prol"
    ensures ParseRbRef("RB " + w + " " + "1") == Success(RbRef(Prologue, None, Some(VerseRange(1, None))))
  {
    VerseOne();
    PrologueAccepted(w, "1", VerseRange(1, None));
  }

  lemma PrologueOne()
    ensures ParseRbRef("RB Prol. 1") == Success(RbRef(Prologue, None, Some(VerseRange(1, None))))
  {
    PrologueVerseOnePieces("Prol.");
    Spellings();
  }

  lemma PrologueOneToSevenPieces()
    ensures ParseRbRef("RB " + "Prol." + " " + "1–7") == Success(RbRef(Prologue, None, Some(VerseRange(1, Some(7)))))
  {
    VersesOneToSeven();
    PrologueAccepted("Prol.", "1–7", VerseRange(1, Some(7)));
  }

  lemma PrologueOneToSeven()
    ensures ParseRbRef("RB Prol. 1–7") == Success(RbRef(Prologue, None, Some(VerseRange(1, Some(7)))))
  {
    PrologueOneToSevenPieces();
    Spellings();
  }

  /** The prologue word may drop its dot. */
  lemma PrologueWithoutDot()
    ensures ParseRbRef("RB Prol 1") == Success(RbRef(Prologue, None, Some(VerseRange(1, None))))
  {
    PrologueVerseOnePieces("Prol");
    Spellings();
  }

  lemma ChapterVersePieces()
    ensures ParseRbRef("RB " + "48" + "." + "1") == Success(RbRef(Chapter, Some(48), Some(VerseRange(1, None))))
  {
    Number48();
    VerseOne();
    ChapterVerseAccepted("48", "1", 48, Some(VerseRange(1, None)));
  }

  lemma ChapterVerse()
    ensures ParseRbRef("RB 48.1") == Success(RbRef(Chapter, Some(48), Some(VerseRange(1, None))))
  {
    ChapterVersePieces();
    Spellings();
  }

  lemma ChapterVersesPieces()
    ensures ParseRbRef("RB " + "48" + "." + "1–9") == Success(RbRef(Chapter, Some(48), Some(VerseRange(1, Some(9)))))
  {
    Number48();
    VersesOneToNine();
    ChapterVerseAccepted("48", "1–9", 48, Some(VerseRange(1, Some(9))));
  }

  lemma ChapterVerses()
    ensures ParseRbRef("RB 48.1–9") == Success(RbRef(Chapter, Some(48), Some(VerseRange(1, Some(9)))))
  {
    ChapterVersesPieces();
    Spellings();
  }

  lemma ChapterEmDashPieces()
    ensures ParseRbRef("RB " + "48" + "." + "1—9") == Success(RbRef(Chapter, Some(48), Some(VerseRange(1, Some(9)))))
  {
    Number48();
    VersesOneToNineEmDash();
    ChapterVerseAccepted("48", "1—9", 48, Some(VerseRange(1, Some(9))));
  }

  /** An em-dash in a reference is read as an en-dash. */
  lemma ChapterEmDash()
    ensures ParseRbRef("RB 48.1—9") == Success(RbRef(Chapter, Some(48), Some(VerseRange(1, Some(9)))))
  {
    ChapterEmDashPieces();
    Spellings();
  }

  lemma ChapterOnlyPieces()
    ensures ParseRbRef("RB " + "4") == Success(RbRef(Chapter, Some(4), None))
  {
    Number4();
    ChapterAccepted("4", 4);
  }

  lemma ChapterOnly()
    ensures ParseRbRef("RB 4") == Success(RbRef(Chapter, Some(4), None))
  {
    ChapterOnlyPieces();
    Spellings();
  }

  /** Verses 72 to 74, whatever dash joins them. */
  lemma VersesSeventyTwo(dash: char)
    requires dash == '-' || dash == EmDash || dash == EnDash
    ensures ParseVerseRange("72" + [dash] + "74") == Success(Some(VerseRange(72, Some(74))))
  {
    Number72();
    Number74();
    TwoVerses("72", dash, "74");
  }

  /** Chapter 4 with verses 72 to 74, whatever dash the verse text uses. */
  lemma ChapterFourVerses(dash: char)
    requires dash == '-' || dash == EmDash || dash == EnDash
    ensures ParseRbRef("RB " + "4" + "." + ("72" + [dash] + "74")) == Success(RbRef(Chapter, Some(4), Some(VerseRange(72, Some(74)))))
  {
    Number4();
    VersesSeventyTwo(dash);
    var t := "72" + [dash] + "74";
    assert t == ['7', '2', dash, '7', '4'];
    ChapterVerseAccepted("4", t, 4, Some(VerseRange(72, Some(74))));
  }

  lemma ChapterHyphenPieces()
    ensures ParseRbRef("RB " + "4" + "." + "72-74") == Success(RbRef(Chapter, Some(4), Some(VerseRange(72, Some(74)))))
  {
    ChapterFourVerses('-');
    assert "72" + ['-'] + "74" == "72-74";
  }

  /** A hyphen in a reference is read as an en-dash. */
  lemma ChapterHyphen()
    ensures ParseRbRef("RB 4.72-74") == Success(RbRef(Chapter, Some(4), Some(VerseRange(72, Some(74)))))
  {
    ChapterHyphenPieces();
    Spellings();
  }

  lemma ChapterEnDashPieces()
    ensures ParseRbRef("RB " + "4" + "." + "72–74") == Success(RbRef(Chapter, Some(4), Some(VerseRange(72, Some(74)))))
  {
    ChapterFourVerses(EnDash);
    assert "72" + [EnDash] + "74" == "72–74";
  }

  lemma ChapterEnDash()
    ensures ParseRbRef("RB 4.72–74") == Success(RbRef(Chapter, Some(4), Some(VerseRange(72, Some(74)))))
  {
    ChapterEnDashPieces();
    Spellings();
  }

  // ---------------------------------------------------------------------------
  // The rejected references

  lemma EmptyText()
    ensures ParseRbRef("") == Failure(ParseFailed)
  {
  }

  lemma ChapterZeroPieces()
    ensures ParseRbRef("RB " + "0" + "." + "1") == Failure(ParseFailed)
  {
    Zero();
    ChapterVerseForm("0", "1");
  }

  lemma ChapterZero()
    ensures ParseRbRef("RB 0.1") == Failure(ParseFailed)
  {
    ChapterZeroPieces();
    Spellings();
  }

  lemma ChapterTooLargePieces()
    ensures ParseRbRef("RB " + "74" + "." + "1") == Failure(ValidationFailed)
  {
    Number74();
    VerseOne();
    ChapterVerseForm("74", "1");
  }

  /** The Rule has 73 chapters. */
  lemma ChapterTooLarge()
    ensures ParseRbRef("RB 74.1") == Failure(ValidationFailed)
  {
    ChapterTooLargePieces();
    Spellings();
  }

  lemma VerseZeroPieces()
    ensures ParseRbRef("RB " + "48" + "." + "0") == Failure(ParseFailed)
  {
    Number48();
    VerseZero();
    ChapterVerseRejected("48", "0", ParseFailed);
  }

  lemma VerseZeroRejected()
    ensures ParseRbRef("RB 48.0") == Failure(ParseFailed)
  {
    VerseZeroPieces();
    Spellings();
  }

  lemma ReversedRangePieces()
    ensures ParseRbRef("RB " + "48" + "." + "9–1") == Failure(ValidationFailed)
  {
    Number48();
    VersesReversed();
    ChapterVerseRejected("48", "9–1", ValidationFailed);
  }

  lemma ReversedRange()
    ensures ParseRbRef("RB 48.9–1") == Failure(ValidationFailed)
  {
    ReversedRangePieces();
    Spellings();
  }

  lemma ReversedProloguePieces()
    ensures ParseRbRef("RB " + "Prol." + " " + "3–2") == Failure(ValidationFailed)
  {
    VersesReversedPrologue();
    PrologueRejected("Prol.", "3–2", ValidationFailed);
  }

  lemma ReversedPrologue()
    ensures ParseRbRef("RB Prol. 3–2") == Failure(ValidationFailed)
  {
    ReversedProloguePieces();
    Spellings();
  }

  lemma NotAChapterPieces()
    ensures ParseRbRef("RB " + "foo") == Failure(ParseFailed)
  {
    NotANumber();
    ChapterRejected("foo", ParseFailed);
  }

  lemma NotAChapter()
    ensures ParseRbRef("RB foo") == Failure(ParseFailed)
  {
    NotAChapterPieces();
    Spellings();
  }

  /** `RB 1`, the defaults of the compiler's precedence fixtures. */
  lemma ChapterOneOnly()
    ensures ParseRbRef("RB 1") == Success(RbRef(Chapter, Some(1), None))
  {
    ChapterAccepted("1", 1);
    assert "RB " + "1" == "RB 1";
  }

  /** `RB 2.3`, the Advent fallback of the weekday-override fixture. */
  lemma ChapterTwoVerseThree()
    ensures ParseRbRef("RB 2.3") == Success(RbRef(Chapter, Some(2), Some(VerseRange(3, None))))
  {
    VerseThree();
    ChapterVerseAccepted("2", "3", 2, Some(VerseRange(3, None)));
    assert "RB " + "2" + "." + "3" == "RB 2.3";
  }

  /** A token starting with `P` but not `Prol` is read as a chapter, and
      `P4` is no positive integer. */
  lemma PFourPieces()
    ensures ParseRbRef("RB " + "P4") == Failure(ParseFailed)
  {
    assert !IsDigit("P4"[0]) && "P4"[0] != '+';
    ChapterRejected("P4", ParseFailed);
  }

  lemma PFourRejected()
    ensures ParseRbRef("RB P4") == Failure(ParseFailed)
  {
    PFourPieces();
    assert "RB " + "P4" == "RB P4";
  }

  // ---------------------------------------------------------------------------
  // Quirks

  lemma PlusSignPieces()
    ensures ParseRbRef("RB " + "+4") == Success(RbRef(Chapter, Some(4), None))
  {
    PlusFour();
    ChapterAccepted("+4", 4);
  }

  /** `RB +4` is chapter 4. */
  lemma PlusSignAccepted()
    ensures ParseRbRef("RB +4") == Success(RbRef(Chapter, Some(4), None))
  {
    PlusSignPieces();
    Spellings();
  }

  lemma EmptyVersePieces()
    ensures ParseRbRef("RB " + "48" + "." + "") == Success(RbRef(Chapter, Some(48), None))
  {
    Number48();
    ChapterVerseAccepted("48", "", 48, None);
  }

  /** A dot with nothing after it leaves a chapter reference without verses. */
  lemma EmptyVerseAfterDot()
    ensures ParseRbRef("RB 48.") == Success(RbRef(Chapter, Some(48), None))
  {
    EmptyVersePieces();
    Spellings();
  }

  /** Two spaces make an empty token: three tokens whose second is not `Prol`. */
  lemma DoubleSpaceRejected()
    ensures ParseRbRef("RB  4") == Failure(ParseFailed)
  {
    assert "RB  4" == "RB" + [' '] + "" + [' '] + "4";
    SplitThree("RB", "", "4", ' ');
  }

  /** The prologue without verses is rejected by the parser as a two-token
      reference starting with `Prol`. */
  lemma PrologueWithoutVerses()
    ensures ParseRbRef("RB Prol.") == Failure(ParseFailed)
  {
    assert "RB Prol." == "RB" + [' '] + "Prol.";
    SplitTwo("RB", "Prol.", ' ');
  }

  lemma PrologueEmptyVersesPieces()
    ensures ParseRbRef("RB " + "Prol." + " " + "") == Failure(ValidationFailed)
  {
    PrologueForm("Prol.", "");
  }

  /** With a trailing space the prologue has an empty verse text, and it is
      validation that rejects it. */
  lemma PrologueEmptyVerses()
    ensures ParseRbRef("RB Prol. ") == Failure(ValidationFailed)
  {
    PrologueEmptyVersesPieces();
    Spellings();
  }

  // ---------------------------------------------------------------------------
  // Rendering

  lemma CanonicalPieces()
    ensures ParseRbRef("RB " + "8" + "." + "3") == Success(RbRef(Chapter, Some(8), Some(VerseRange(3, None))))
  {
    Number8();
    VerseThree();
    ChapterVerseAccepted("8", "3", 8, Some(VerseRange(3, None)));
  }

  /** A canonical reference renders back to its own text. */
  lemma CanonicalRendering()
    ensures ParseRbRef("RB 8.3") == Success(RbRef(Chapter, Some(8), Some(VerseRange(3, None))))
    ensures Render(RbRef(Chapter, Some(8), Some(VerseRange(3, None)))) == "RB 8.3"
  {
    CanonicalPieces();
    Spellings();
  }

  /** A hyphenated range renders with an en-dash. */
  lemma HyphenRendersAsEnDash()
    ensures Render(RbRef(Chapter, Some(4), Some(VerseRange(72, Some(74))))) == "RB 4.72–74"
  {
  }

  lemma PrologueRendering()
    ensures Render(RbRef(Prologue, None, Some(VerseRange(1, Some(7))))) == "RB Prol. 1–7"
  {
  }
}
