/** Compact references into the Rule of St Benedict, internal/plan/rbref.go:
    `"RB 48.1–9"` (a chapter, optionally with verses) and `"RB Prol. 1–7"`
    (verses of the prologue), parsed by splitting on spaces, dots and dashes
    and rendered back with an en-dash. */
module RbRefs {
  import opened Wrappers
  import opened Decimal
  import opened Text

  const EnDash: char := '–'
  const EmDash: char := '—'

  /** The two sections a reference can point into. */
  datatype SectionKind = Prologue | Chapter

  /** A start verse and an optional end verse (`EndVerse *int`). */
  datatype VerseRange = VerseRange(start: int, end: Option<int>)

  datatype RbRef = RbRef(kind: SectionKind, chapter: Option<int>, verse: Option<VerseRange>)

  /** The sentinels of internal/plan/errors.go a reference error wraps. */
  datatype RbRefError = ParseFailed | ValidationFailed

  // ---------------------------------------------------------------------------
  // What a parsed reference looks like

  /** A verse range the parser can produce: positive `int64` verses, and an
      end, when present, strictly after the start. */
  predicate WellFormedVerse(v: VerseRange) {
    && 1 <= v.start <= MaxInt64
    && (v.end.Some? ==> v.start < v.end.value <= MaxInt64)
  }

  /** A reference the parser can produce: a prologue reference has verses and
      no chapter; a chapter reference has a chapter from 1 to 73 and maybe verses. */
  predicate WellFormed(r: RbRef) {
    && (r.verse.Some? ==> WellFormedVerse(r.verse.value))
    && match r.kind
       case Prologue => r.chapter.None? && r.verse.Some?
       case Chapter => r.chapter.Some? && 1 <= r.chapter.value <= 73
  }

  // ---------------------------------------------------------------------------
  // Parsing

  /** `parsePositiveInt`: `strconv.ParseInt(s, 10, 64)`, then a rejection of
      anything not above zero. Every failure is a parse failure. */
  function ParsePositiveInt(s: string): (r: Result<int, RbRefError>)
    ensures r.Success? <==> ParseInt64(s).Some? && ParseInt64(s).value > 0
    ensures r.Success? ==> 1 <= r.value <= MaxInt64 && ParseInt64(s) == Some(r.value)
    ensures r.Failure? ==> r.error == ParseFailed
  {
    match ParseInt64(s)
    case None => Failure(ParseFailed)
    case Some(n) => if n <= 0 then Failure(ParseFailed) else Success(n)
  }

  /** Hyphens and em-dashes read as en-dashes. */
  function NormalizeDashes(s: string): (t: string)
    ensures |t| == |s|
    ensures '-' !in t && EmDash !in t
  {
    Replace(Replace(s, '-', EnDash), EmDash, EnDash)
  }

  /** `parseVerseRange`: the empty text is no range at all; otherwise one
      verse or two separated by a single dash of any of the three kinds. An
      end before the start is a validation failure and an end equal to the
      start is dropped. */
  function ParseVerseRange(s: string): (r: Result<Option<VerseRange>, RbRefError>)
    ensures s == "" ==> r == Success(None)
    ensures r.Success? && s != "" ==> r.value.Some? && WellFormedVerse(r.value.value)
  {
    if s == "" then Success(None)
    else
      var parts := Split(NormalizeDashes(s), EnDash);
      if |parts| > 2 then Failure(ParseFailed)
      else
        var start :- ParsePositiveInt(parts[0]);
        if |parts| == 1 then Success(Some(VerseRange(start, None)))
        else
          var end :- ParsePositiveInt(parts[1]);
          if end < start then Failure(ValidationFailed)
          else if end == start then Success(Some(VerseRange(start, None)))
          else Success(Some(VerseRange(start, Some(end))))
  }

  /** `validateVerse` inside `RbRef.validate`. */
  function ValidateVerse(v: VerseRange): (o: Outcome<RbRefError>)
    ensures o.Pass? <==> v.start >= 1 && (v.end.Some? ==> v.end.value >= v.start)
    ensures o.Fail? ==> o.error == ValidationFailed
  {
    if v.start < 1 then Fail(ValidationFailed)
    else if v.end.Some? && v.end.value < v.start then Fail(ValidationFailed)
    else Pass
  }

  /** `RbRef.validate`: the kind's shape, the chapter range 1..73, and the
      verse range when there is one. */
  function Validate(r: RbRef): (o: Outcome<RbRefError>)
    ensures o.Pass? <==>
      && (r.kind == Prologue ==> r.chapter.None? && r.verse.Some?)
      && (r.kind == Chapter ==> r.chapter.Some? && 1 <= r.chapter.value <= 73)
      && (r.verse.Some? ==> r.verse.value.start >= 1 && (r.verse.value.end.Some? ==> r.verse.value.end.value >= r.verse.value.start))
    ensures o.Fail? ==> o.error == ValidationFailed
  {
    match r.kind
    case Prologue =>
      if r.chapter.Some? then Fail(ValidationFailed)
      else if r.verse.None? then Fail(ValidationFailed)
      else ValidateVerse(r.verse.value)
    case Chapter =>
      if r.chapter.None? then Fail(ValidationFailed)
      else if r.chapter.value < 1 || r.chapter.value > 73 then Fail(ValidationFailed)
      else if r.verse.Some? then ValidateVerse(r.verse.value)
      else Pass
  }

  /** The reference when it passes `validate`, its error otherwise. */
  function Checked(r: RbRef): Result<RbRef, RbRefError> {
    match Validate(r)
    case Pass => Success(r)
    case Fail(e) => Failure(e)
  }

  /** `parseRbRef`: the text split on single spaces must be `RB` and a
      chapter token, or `RB`, a prologue word and a verse range. */
  function ParseRbRef(s: string): (r: Result<RbRef, RbRefError>)
    ensures r.Success? ==> WellFormed(r.value)
  {
    ParseTokens(Split(s, ' '))
  }

  /** The dispatch of `parseRbRef` on the number of space-separated tokens. */
  function ParseTokens(parts: seq<string>): (r: Result<RbRef, RbRefError>)
    ensures r.Success? ==> WellFormed(r.value)
  {
    if |parts| < 2 || parts[0] != "RB" then Failure(ParseFailed)
    else if |parts| == 2 then ParseChapterToken(parts[1])
    else if |parts| == 3 then ParsePrologue(parts[1], parts[2])
    else Failure(ParseFailed)
  }

  /** The two-token branch: a token starting with `Prol` is a prologue
      reference without verses and rejected; otherwise the token is a chapter
      and, after a dot, a verse range. An empty verse text (`RB 48.`) leaves
      a chapter reference without verses. */
  function ParseChapterToken(token: string): (r: Result<RbRef, RbRefError>)
    ensures r.Success? ==> WellFormed(r.value) && r.value.kind == Chapter
  {
    if HasPrefix(token, "Prol.") || HasPrefix(token, "Prol") then Failure(ParseFailed)
    else
      var chapterParts := Split(token, '.');
      if |chapterParts| > 2 then Failure(ParseFailed)
      else
        var chapter :- ParsePositiveInt(chapterParts[0]);
        if |chapterParts| == 1 then Checked(RbRef(Chapter, Some(chapter), None))
        else
          var verse :- ParseVerseRange(chapterParts[1]);
          Checked(RbRef(Chapter, Some(chapter), verse))
  }

  /** The three-token branch: `Prol.` or `Prol`, then a verse range, which
      validation then requires to be present. */
  function ParsePrologue(word: string, verses: string): (r: Result<RbRef, RbRefError>)
    ensures r.Success? ==> WellFormed(r.value) && r.value.kind == Prologue
  {
    if word != "Prol." && word != "Prol" then Failure(ParseFailed)
    else
      var verse :- ParseVerseRange(verses);
      Checked(RbRef(Prologue, None, verse))
  }

  // ---------------------------------------------------------------------------
  // Rendering

  /** The verse part of a rendering: `s` or `s–e`. */
  function VerseText(v: VerseRange): string {
    IntToString(v.start) + (if v.end.Some? then [EnDash] + IntToString(v.end.value) else "")
  }

  /** `RbRef.String`. */
  function Render(r: RbRef): (t: string)
    ensures HasPrefix(t, "RB ")
    ensures r.kind == Prologue ==> HasPrefix(t, "RB Prol. ")
  {
    var versePart := if r.verse.Some? then VerseText(r.verse.value) else "";
    match r.kind
    case Prologue => "RB Prol. " + versePart
    case Chapter =>
      if r.chapter.Some? then
        "RB " + IntToString(r.chapter.value) + (if versePart != "" then "." + versePart else "")
      else "RB (invalid chapter reference)"
  }

  // ---------------------------------------------------------------------------
  // Properties of the parser

  /** The shape of the text behind every outcome: fewer than two or more than
      three space-separated tokens, or a first token other than `RB`, is a
      parse failure; a prologue reference came from exactly three tokens, the
      second `Prol.` or `Prol`; a chapter reference from exactly two. */
  lemma ParseShape(s: string)
    ensures var parts := Split(s, ' ');
      (|parts| < 2 || |parts| > 3 || parts[0] != "RB") ==> ParseRbRef(s) == Failure(ParseFailed)
    ensures var parts := Split(s, ' ');
      ParseRbRef(s).Success? && ParseRbRef(s).value.kind == Prologue ==>
        |parts| == 3 && (parts[1] == "Prol." || parts[1] == "Prol")
    ensures var parts := Split(s, ' ');
      ParseRbRef(s).Success? && ParseRbRef(s).value.kind == Chapter ==>
        |parts| == 2 && !HasPrefix(parts[1], "Prol")
  {
  }

  /** A two-token text whose second token starts with `Prol` is rejected: the
      prologue needs its verses. */
  lemma PrologueNeedsVerses(s: string)
    requires |Split(s, ' ')| == 2 && HasPrefix(Split(s, ' ')[1], "Prol")
    ensures ParseRbRef(s) == Failure(ParseFailed)
  {
  }

  /** A chapter token with more than one dot is rejected. */
  lemma ChapterTokenDots(s: string)
    requires |Split(s, ' ')| == 2 && Split(s, ' ')[0] == "RB" && !HasPrefix(Split(s, ' ')[1], "Prol")
    requires multiset(Split(s, ' ')[1])['.'] >= 2
    ensures ParseRbRef(s) == Failure(ParseFailed)
  {
    SplitCount(Split(s, ' ')[1], '.');
  }

  /** A verse text with two or more dashes, of whichever kind, is rejected. */
  lemma VerseDashes(s: string)
    requires multiset(NormalizeDashes(s))[EnDash] >= 2
    ensures ParseVerseRange(s) == Failure(ParseFailed)
  {
    SplitCount(NormalizeDashes(s), EnDash);
  }

  /** A hyphen, an em-dash or an en-dash between two verses reads the same. */
  lemma DashesInterchangeable(a: string, b: string, dash: char)
    requires dash == '-' || dash == EmDash || dash == EnDash
    ensures ParseVerseRange(a + [dash] + b) == ParseVerseRange(a + [EnDash] + b)
  {
    var s := a + [dash] + b;
    var t := a + [EnDash] + b;
    assert NormalizeDashes(s) == NormalizeDashes(t) by {
      forall i | 0 <= i < |s|
        ensures NormalizeDashes(s)[i] == NormalizeDashes(t)[i]
      {
        if i != |a| {
          assert s[i] == t[i];
        }
      }
    }
  }

  // ---------------------------------------------------------------------------
  // The accepted forms, piece by piece

  /** A text without dashes is a single verse: the verse's positive integer,
      or that integer's parse failure. */
  lemma SingleVerse(a: string)
    requires a != "" && '-' !in a && EmDash !in a && EnDash !in a
    ensures ParsePositiveInt(a).Failure? ==> ParseVerseRange(a) == Failure(ParseFailed)
    ensures ParsePositiveInt(a).Success? ==> ParseVerseRange(a) == Success(Some(VerseRange(ParsePositiveInt(a).value, None)))
  {
    ReplaceAbsent(a, '-', EnDash);
    ReplaceAbsent(a, EmDash, EnDash);
    SplitWithoutSeparator(a, EnDash);
  }

  /** Two verses joined by any one dash: a reversed range is a validation
      failure, a range of one verse drops its end, and any other range keeps both. */
  lemma TwoVerses(a: string, dash: char, b: string)
    requires dash == '-' || dash == EmDash || dash == EnDash
    requires '-' !in a && EmDash !in a && EnDash !in a
    requires '-' !in b && EmDash !in b && EnDash !in b
    requires ParsePositiveInt(a).Success? && ParsePositiveInt(b).Success?
    ensures var x := ParsePositiveInt(a).value; var y := ParsePositiveInt(b).value;
      ParseVerseRange(a + [dash] + b) ==
        if y < x then Failure(ValidationFailed)
        else if y == x then Success(Some(VerseRange(x, None)))
        else Success(Some(VerseRange(x, Some(y))))
  {
    DashesInterchangeable(a, b, dash);
    var t := a + [EnDash] + b;
    ReplaceAbsent(t, '-', EnDash);
    ReplaceAbsent(t, EmDash, EnDash);
    SplitTwo(a, b, EnDash);
  }

  /** `RB c`: a chapter without verses when `c` reads as a chapter from 1
      to 73; a validation failure for a larger number; a parse failure when
      `c` is not a positive integer. */
  lemma ChapterForm(d: string)
    requires !HasPrefix(d, "Prol") && ' ' !in d && '.' !in d
    ensures ParsePositiveInt(d).Failure? ==> ParseRbRef("RB " + d) == Failure(ParseFailed)
    ensures ParsePositiveInt(d).Success? ==>
      var c := ParsePositiveInt(d).value;
      ParseRbRef("RB " + d) ==
        if c <= 73 then Success(RbRef(Chapter, Some(c), None)) else Failure(ValidationFailed)
  {
    assert "RB " + d == "RB" + [' '] + d;
    SplitTwo("RB", d, ' ');
    SplitWithoutSeparator(d, '.');
  }

  /** `RB c.v`: the chapter is read first, then the verse range, and the
      reference is validated only once both have been read. */
  lemma ChapterVerseForm(d: string, t: string)
    requires !HasPrefix(d, "Prol") && ' ' !in d && '.' !in d && ' ' !in t && '.' !in t
    ensures ParsePositiveInt(d).Failure? ==> ParseRbRef("RB " + d + "." + t) == Failure(ParseFailed)
    ensures ParsePositiveInt(d).Success? && ParseVerseRange(t).Failure? ==>
      ParseRbRef("RB " + d + "." + t) == Failure(ParseVerseRange(t).error)
    ensures ParsePositiveInt(d).Success? && ParseVerseRange(t).Success? ==>
      var c := ParsePositiveInt(d).value;
      ParseRbRef("RB " + d + "." + t) ==
        if c <= 73 then Success(RbRef(Chapter, Some(c), ParseVerseRange(t).value)) else Failure(ValidationFailed)
  {
    ChapterVerseToken(d, t);
    ChapterVerseParts(d, t);
  }

  /** `RB c.v` is read as the one chapter token `c.v`. */
  lemma ChapterVerseToken(d: string, t: string)
    requires ' ' !in d && ' ' !in t
    ensures ParseRbRef("RB " + d + "." + t) == ParseChapterToken(d + "." + t)
  {
    var token := d + "." + t;
    assert "RB " + d + "." + t == "RB" + [' '] + token;
    assert ' ' !in token;
    SplitTwo("RB", token, ' ');
  }

  /** A chapter token `c.v` is read as the chapter `c`, then the verses `v`. */
  lemma ChapterVerseParts(d: string, t: string)
    requires !HasPrefix(d, "Prol") && '.' !in d && '.' !in t
    ensures ParsePositiveInt(d).Failure? ==> ParseChapterToken(d + "." + t) == Failure(ParseFailed)
    ensures ParsePositiveInt(d).Success? && ParseVerseRange(t).Failure? ==>
      ParseChapterToken(d + "." + t) == Failure(ParseVerseRange(t).error)
    ensures ParsePositiveInt(d).Success? && ParseVerseRange(t).Success? ==>
      var c := ParsePositiveInt(d).value;
      ParseChapterToken(d + "." + t) ==
        if c <= 73 then Success(RbRef(Chapter, Some(c), ParseVerseRange(t).value)) else Failure(ValidationFailed)
  {
    ChapterTokenNotProl(d, t);
    SplitTwo(d, t, '.');
  }

  /** A chapter text that does not start with `Prol` and holds no dot keeps
      the token `c.v` clear of both prologue prefixes: the dot comes before
      any `Prol` could be completed. */
  lemma ChapterTokenNotProl(d: string, t: string)
    requires !HasPrefix(d, "Prol") && '.' !in d
    ensures !HasPrefix(d + "." + t, "Prol") && !HasPrefix(d + "." + t, "Prol.")
  {
    var token := d + "." + t;
    if |d| >= 4 {
      assert token[..4] == d[..4];
    } else {
      assert token[|d|] == '.' && "Prol"[|d|] != '.';
    }
  }

  /** `RB Prol. v` or `RB Prol v`: the verses of the prologue, which must be
      present: an empty verse text is a validation failure. */
  lemma PrologueForm(w: string, t: string)
    requires w == "Prol." || w == "Prol"
    requires ' ' !in t
    ensures ParseVerseRange(t).Failure? ==> ParseRbRef("RB " + w + " " + t) == Failure(ParseVerseRange(t).error)
    ensures ParseVerseRange(t).Success? ==>
      ParseRbRef("RB " + w + " " + t) ==
        if ParseVerseRange(t).value.Some? then Success(RbRef(Prologue, None, ParseVerseRange(t).value))
        else Failure(ValidationFailed)
  {
    assert "RB " + w + " " + t == "RB" + [' '] + w + [' '] + t;
    SplitThree("RB", w, t, ' ');
  }

  // ---------------------------------------------------------------------------
  // Rendering and parsing are inverse

  lemma DigitsAvoid(s: string, c: char)
    requires AllDigits(s) && !IsDigit(c)
    ensures c !in s
  {
  }

  /** The positive `int64` values read back from their own digits. */
  lemma PositiveRoundTrip(n: int)
    requires 1 <= n <= MaxInt64
    ensures IntToString(n) == NatToDigits(n)
    ensures ParsePositiveInt(IntToString(n)) == Success(n)
  {
    IntToStringRoundTrip(n);
  }

  /** A well-formed verse range's text starts with a digit and holds no
      space, dot, hyphen or em-dash; it is the start's digits, then, when
      there is an end, an en-dash and the end's digits. */
  lemma VerseTextShape(v: VerseRange)
    requires WellFormedVerse(v)
    ensures var t := VerseText(v);
      && t != "" && IsDigit(t[0])
      && ' ' !in t && '.' !in t && '-' !in t && EmDash !in t
  {
    var a := IntToString(v.start);
    PositiveRoundTrip(v.start);
    DigitsAvoid(a, ' ');
    DigitsAvoid(a, '.');
    DigitsAvoid(a, '-');
    DigitsAvoid(a, EmDash);
    if v.end.Some? {
      var b := IntToString(v.end.value);
      PositiveRoundTrip(v.end.value);
      DigitsAvoid(b, ' ');
      DigitsAvoid(b, '.');
      DigitsAvoid(b, '-');
      DigitsAvoid(b, EmDash);
    }
  }

  /** A well-formed verse range reads back from its text. */
  lemma VerseRoundTrip(v: VerseRange)
    requires WellFormedVerse(v)
    ensures ParseVerseRange(VerseText(v)) == Success(Some(v))
  {
    var t := VerseText(v);
    var a := IntToString(v.start);
    VerseTextShape(v);
    PositiveRoundTrip(v.start);
    DigitsAvoid(a, EnDash);
    ReplaceAbsent(t, '-', EnDash);
    ReplaceAbsent(t, EmDash, EnDash);
    assert NormalizeDashes(t) == t;
    if v.end.Some? {
      var b := IntToString(v.end.value);
      PositiveRoundTrip(v.end.value);
      DigitsAvoid(b, EnDash);
      assert t == a + [EnDash] + b;
      SplitTwo(a, b, EnDash);
      assert Split(NormalizeDashes(t), EnDash) == [a, b];
    } else {
      assert t == a;
      SplitWithoutSeparator(a, EnDash);
      assert Split(NormalizeDashes(t), EnDash) == [a];
    }
  }

  /** Parsing the rendering of a well-formed reference gives the reference back. */
  lemma RenderThenParse(r: RbRef)
    requires WellFormed(r)
    ensures ParseRbRef(Render(r)) == Success(r)
  {
    match r.kind
    case Prologue =>
      PrologueRoundTrip(r.verse.value);
    case Chapter =>
      ChapterRoundTrip(r.chapter.value, r.verse);
  }

  lemma PrologueRoundTrip(v: VerseRange)
    requires WellFormedVerse(v)
    ensures ParseRbRef(Render(RbRef(Prologue, None, Some(v)))) == Success(RbRef(Prologue, None, Some(v)))
  {
    PrologueSplit(v);
    VerseRoundTrip(v);
  }

  /** The rendering `RB Prol. v` is three space-separated tokens. */
  lemma PrologueSplit(v: VerseRange)
    requires WellFormedVerse(v)
    ensures Split(Render(RbRef(Prologue, None, Some(v))), ' ') == ["RB", "Prol.", VerseText(v)]
  {
    var t := VerseText(v);
    VerseTextShape(v);
    assert Render(RbRef(Prologue, None, Some(v))) == "RB" + [' '] + "Prol." + [' '] + t;
    SplitThree("RB", "Prol.", t, ' ');
  }

  lemma ChapterRoundTrip(c: int, verse: Option<VerseRange>)
    requires 1 <= c <= 73 && (verse.Some? ==> WellFormedVerse(verse.value))
    ensures ParseRbRef(Render(RbRef(Chapter, Some(c), verse))) == Success(RbRef(Chapter, Some(c), verse))
  {
    if verse.Some? {
      ChapterVerseRoundTrip(c, verse.value);
    } else {
      ChapterOnlyRoundTrip(c);
    }
  }

  /** `RB c` reads back as chapter `c` without verses. */
  lemma ChapterOnlyRoundTrip(c: int)
    requires 1 <= c <= 73
    ensures ParseRbRef(Render(RbRef(Chapter, Some(c), None))) == Success(RbRef(Chapter, Some(c), None))
  {
    var d := IntToString(c);
    PositiveRoundTrip(c);
    DigitsAvoid(d, ' ');
    DigitsAvoid(d, '.');
    assert Render(RbRef(Chapter, Some(c), None)) == "RB" + [' '] + d;
    SplitTwo("RB", d, ' ');
    assert IsDigit(d[0]);
    assert !HasPrefix(d, "Prol.") && !HasPrefix(d, "Prol");
    SplitWithoutSeparator(d, '.');
  }

  /** `RB c.v` reads back as chapter `c` with the verses of `v`. */
  lemma ChapterVerseRoundTrip(c: int, v: VerseRange)
    requires 1 <= c <= 73 && WellFormedVerse(v)
    ensures ParseRbRef(Render(RbRef(Chapter, Some(c), Some(v)))) == Success(RbRef(Chapter, Some(c), Some(v)))
  {
    var d := IntToString(c);
    var t := VerseText(v);
    var token := d + ['.'] + t;
    ChapterVerseSplit(c, v);
    assert Split(token, '.') == [d, t];
    PositiveRoundTrip(c);
    VerseRoundTrip(v);
    assert ParsePositiveInt(d) == Success(c);
    assert ParseVerseRange(t) == Success(Some(v));
  }

  /** The rendering `RB c.v` is `RB` and one token, which splits on its dot
      into the chapter and the verse text. */
  lemma ChapterVerseSplit(c: int, v: VerseRange)
    requires 1 <= c <= 73 && WellFormedVerse(v)
    ensures var d := IntToString(c); var token := d + ['.'] + VerseText(v);
      && Split(Render(RbRef(Chapter, Some(c), Some(v))), ' ') == ["RB", token]
      && !HasPrefix(token, "Prol.") && !HasPrefix(token, "Prol")
      && Split(token, '.') == [d, VerseText(v)]
  {
    var d := IntToString(c);
    var t := VerseText(v);
    ChapterTokenShape(c, v);
    ChapterVerseText(c, v);
    SplitTwo("RB", d + ['.'] + t, ' ');
    SplitTwo(d, t, '.');
  }

  /** The chapter token `c.v` starts with a digit and holds no space; its
      two halves hold no dot. */
  lemma ChapterTokenShape(c: int, v: VerseRange)
    requires 1 <= c <= 73 && WellFormedVerse(v)
    ensures var d := IntToString(c); var t := VerseText(v);
      && ' ' !in d + ['.'] + t && IsDigit((d + ['.'] + t)[0])
      && '.' !in d && '.' !in t
  {
    var d := IntToString(c);
    PositiveRoundTrip(c);
    VerseTextShape(v);
    DigitsAvoid(d, ' ');
    DigitsAvoid(d, '.');
  }

  lemma ChapterVerseText(c: int, v: VerseRange)
    requires 1 <= c <= 73 && WellFormedVerse(v)
    ensures Render(RbRef(Chapter, Some(c), Some(v))) == "RB" + [' '] + (IntToString(c) + ['.'] + VerseText(v))
  {
    VerseTextShape(v);
  }

  /** Every successfully parsed reference survives a render-and-parse round
      trip unchanged. */
  lemma ParseRenderParse(s: string)
    requires ParseRbRef(s).Success?
    ensures ParseRbRef(Render(ParseRbRef(s).value)) == ParseRbRef(s)
  {
    RenderThenParse(ParseRbRef(s).value);
  }

  /** Rendering tells references apart: two well-formed references with the
      same rendering are the same reference. */
  lemma RenderInjective(a: RbRef, b: RbRef)
    requires WellFormed(a) && WellFormed(b) && Render(a) == Render(b)
    ensures a == b
  {
    RenderThenParse(a);
    RenderThenParse(b);
  }
}
