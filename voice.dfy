/** The voice loop (main.py, run_voice_recognition, lines 45-86): an arm step
    that consumes the button flag, and a command step that interprets one
    transcription while listening. Speech capture and recognition are not
    modelled; the command step receives the already lower-cased text, or None
    when recognition failed. */
module Voice {
  import opened SessionState

  /** The keyword chain of lines 62-79, in the order the source tests it. */
  datatype Utterance =
    | StartListening
    | StopListening
    | NextSlide
    | PreviousSlide
    | SelectSlide(number: nat)
    | Unrecognised

  /** Python's `phrase in text` for strings. */
  predicate Contains(text: string, phrase: string)
    decreases |text|
  {
    phrase <= text || (|text| > 0 && Contains(text[1..], phrase))
  }

  /** The phrase occurs in the text starting at offset i. */
  predicate OccursAt(text: string, phrase: string, i: int) {
    0 <= i <= |text| - |phrase| && text[i..i + |phrase|] == phrase
  }

  lemma {:induction false} ContainsHasOffset(text: string, phrase: string)
    requires Contains(text, phrase)
    ensures exists i :: OccursAt(text, phrase, i)
    decreases |text|
  {
    if phrase <= text {
      assert OccursAt(text, phrase, 0);
    } else {
      ContainsHasOffset(text[1..], phrase);
      var j :| OccursAt(text[1..], phrase, j);
      assert text[1..][j..j + |phrase|] == text[j + 1..j + 1 + |phrase|];
      assert OccursAt(text, phrase, j + 1);
    }
  }

  lemma {:induction false} OffsetGivesContains(text: string, phrase: string, i: int)
    requires OccursAt(text, phrase, i)
    ensures Contains(text, phrase)
    decreases i
  {
    if i == 0 {
      assert phrase <= text;
    } else {
      assert text[1..][i - 1..i - 1 + |phrase|] == text[i..i + |phrase|];
      OffsetGivesContains(text[1..], phrase, i - 1);
    }
  }

  /** Contains agrees with the direct definition: the phrase occurs at some offset. */
  lemma ContainsAtOffset(text: string, phrase: string)
    ensures Contains(text, phrase) <==> exists i :: OccursAt(text, phrase, i)
  {
    if Contains(text, phrase) {
      ContainsHasOffset(text, phrase);
    }
    if exists i :: OccursAt(text, phrase, i) {
      var i :| OccursAt(text, phrase, i);
      OffsetGivesContains(text, phrase, i);
    }
  }

  predicate IsDigit(ch: char) {
    '0' <= ch <= '9'
  }

  /** Python's `str.isdigit`, restricted to ASCII digits: non-empty and all digits. */
  predicate IsDigits(text: string) {
    |text| > 0 && forall i :: 0 <= i < |text| ==> IsDigit(text[i])
  }

  function DigitValue(ch: char): (d: nat)
    requires IsDigit(ch)
    ensures d <= 9
  {
    ch as int - '0' as int
  }

  /** Python's `int` of a digit string. */
  function DigitsValue(text: string): (n: nat)
    requires forall i :: 0 <= i < |text| ==> IsDigit(text[i])
    decreases |text|
  {
    if text == [] then 0
    else 10 * DigitsValue(text[..|text| - 1]) + DigitValue(text[|text| - 1])
  }

  /** Lines 62-79: the first phrase that matches wins. A number is a slide
      request only when it names a slide of the deck (1 to slideCount). */
  function Classify(text: string, slideCount: nat): (u: Utterance)
    ensures u.SelectSlide? ==> IsDigits(text) && 1 <= u.number <= slideCount
  {
    if Contains(text, "start listening") then StartListening
    else if Contains(text, "stop listening") then StopListening
    else if Contains(text, "next") then NextSlide
    else if Contains(text, "previous") then PreviousSlide
    else if IsDigits(text) && 0 < DigitsValue(text) <= slideCount then SelectSlide(DigitsValue(text))
    else Unrecognised
  }

  /** A string of digits contains no phrase that starts with a non-digit. */
  lemma {:induction false} DigitsContainNoWord(text: string, phrase: string)
    requires forall i :: 0 <= i < |text| ==> IsDigit(text[i])
    requires |phrase| > 0 && !IsDigit(phrase[0])
    ensures !Contains(text, phrase)
    decreases |text|
  {
    if |text| > 0 {
      assert IsDigit(text[0]);
      DigitsContainNoWord(text[1..], phrase);
    }
  }

  /** A digit string is a slide request exactly when its value names a slide. */
  lemma ClassifyDigits(text: string, slideCount: nat)
    requires IsDigits(text)
    ensures Classify(text, slideCount) ==
            if 1 <= DigitsValue(text) <= slideCount then SelectSlide(DigitsValue(text)) else Unrecognised
  {
    DigitsContainNoWord(text, "start listening");
    DigitsContainNoWord(text, "stop listening");
    DigitsContainNoWord(text, "next");
    DigitsContainNoWord(text, "previous");
  }

  /** Lines 52-54: a set button flag is consumed and listening switched on.
      The cooldown counter is left where it is. */
  function Arm(s: Session): (r: Session)
    ensures !r.buttonPressed && r.counter == s.counter
    ensures s.buttonPressed ==> r.listening
    ensures !s.buttonPressed ==> r == s
    ensures r.imgNumber == s.imgNumber && r.annotations == s.annotations &&
            r.annotationNumber == s.annotationNumber && r.annotationStart == s.annotationStart
  {
    if s.buttonPressed then s.(buttonPressed := false, listening := true) else s
  }

  /** Lines 59-61: a transcription is interpreted only while listening, and
      only when recognition produced a non-empty text. */
  predicate Interpreted(s: Session, heard: Option<string>) {
    s.listening && heard.Some? && heard.value != ""
  }

  /** Lines 59-86: one transcription, interpreted only while listening. */
  function Command(c: Config, s: Session, heard: Option<string>): (r: Session)
    // nothing is interpreted when not listening, when recognition failed, or
    // when it produced the empty text
    ensures !Interpreted(s, heard) ==> r == s
    // the cooldown handshake is never touched, and a command never starts listening
    ensures r.buttonPressed == s.buttonPressed && r.counter == s.counter
    ensures r.listening ==> s.listening
    ensures SlideInRange(c, s) ==> SlideInRange(c, r)
    ensures Bookkeeping(s) ==> Bookkeeping(r)
    // a slide change clears the annotations; anything else leaves them alone
    ensures r.imgNumber != s.imgNumber ==>
              r.annotations == [[]] && r.annotationNumber == -1 && !r.annotationStart
    ensures r.imgNumber == s.imgNumber ==> r == s.(listening := r.listening)
    // listening is switched off only by "stop listening", which moves nothing
    ensures r.listening != s.listening ==>
              heard.Some? && Classify(heard.value, c.slideCount) == StopListening && r.imgNumber == s.imgNumber
    // what each recognised phrase does
    ensures Interpreted(s, heard) ==>
              var u := Classify(heard.value, c.slideCount);
              (u == StartListening || u == Unrecognised ==> r == s) &&
              (u == StopListening ==> r == s.(listening := false)) &&
              (u == NextSlide ==>
                 r == if s.imgNumber < c.slideCount - 1 then ShowSlide(s, s.imgNumber + 1) else s) &&
              (u == PreviousSlide ==>
                 r == if s.imgNumber > 0 then ShowSlide(s, s.imgNumber - 1) else s) &&
              (u.SelectSlide? ==>
                 r == if u.number - 1 != s.imgNumber then ShowSlide(s, u.number - 1) else s)
  {
    if !s.listening || heard.None? || heard.value == "" then s
    else
      match Classify(heard.value, c.slideCount)
      case StartListening => s
      case StopListening => s.(listening := false)
      case NextSlide =>
        if s.imgNumber < c.slideCount - 1 then ShowSlide(s, s.imgNumber + 1) else s
      case PreviousSlide =>
        if s.imgNumber > 0 then ShowSlide(s, s.imgNumber - 1) else s
      case SelectSlide(n) =>
        if n - 1 != s.imgNumber then ShowSlide(s, n - 1) else s
      case Unrecognised => s
  }

  /** Lines 47-86: one pass of the voice loop. Idle and unsignalled it waits;
      a set flag arms it; otherwise, listening, it interprets one transcription. */
  function VoiceIteration(c: Config, s: Session, heard: Option<string>): (r: Session)
    ensures !r.buttonPressed && r.counter == s.counter
    ensures s.buttonPressed ==> r == Arm(s)
    ensures !s.listening && !s.buttonPressed ==> r == s
    ensures s.listening && !s.buttonPressed ==> r == Command(c, s, heard)
    ensures Invariant(c, s) ==> Invariant(c, r)
  {
    if !s.listening && !s.buttonPressed then s
    else if s.buttonPressed then Arm(s)
    else Command(c, s, heard)
  }

  /** Saying a slide number while listening shows that slide, with its
      annotations cleared whenever the slide changes. */
  lemma SelectByNumber(c: Config, s: Session, text: string)
    requires s.listening && IsDigits(text) && 1 <= DigitsValue(text) <= c.slideCount
    ensures var r := Command(c, s, Some(text));
            r.imgNumber == DigitsValue(text) - 1 && r.listening &&
            (DigitsValue(text) - 1 != s.imgNumber ==> r.annotations == [[]] && r.annotationNumber == -1)
  {
    ClassifyDigits(text, c.slideCount);
  }

  /** A number outside the deck, while listening, changes nothing. */
  lemma NumberOutsideDeck(c: Config, s: Session, text: string)
    requires s.listening && IsDigits(text) && !(1 <= DigitsValue(text) <= c.slideCount)
    ensures Command(c, s, Some(text)) == s
  {
    ClassifyDigits(text, c.slideCount);
  }

  /** Saying "3" on the first slide of a deck of at least three slides gives
      the same state as saying "next" twice. */
  lemma ThreeIsTwiceNext(c: Config, s: Session)
    requires s.listening && s.imgNumber == 0 && c.slideCount >= 3
    ensures Command(c, s, Some("3")) == Command(c, Command(c, s, Some("next")), Some("next"))
  {
    assert IsDigits("3") && DigitsValue("3") == 3;
    SelectByNumber(c, s, "3");
    assert Contains("next", "next");
  }

  lemma {:induction false} TooShortToContain(text: string, phrase: string)
    requires |text| < |phrase|
    ensures !Contains(text, phrase)
    decreases |text|
  {
    if |text| > 0 {
      TooShortToContain(text[1..], phrase);
    }
  }

  /** A text lacking one of the phrase's characters does not contain it. */
  lemma {:induction false} MissingCharacter(text: string, phrase: string, k: nat)
    requires k < |phrase| && forall i :: 0 <= i < |text| ==> text[i] != phrase[k]
    ensures !Contains(text, phrase)
    decreases |text|
  {
    if k < |text| {
      assert text[k] != phrase[k];
    }
    if |text| > 0 {
      MissingCharacter(text[1..], phrase, k);
    }
  }

  /** The keywords are tried in the order of the source, not in the order they
      appear in the text: "previous next" means next. */
  lemma NextBeforePrevious(text: string, slideCount: nat)
    requires text == "previous next"
    ensures Classify(text, slideCount) == NextSlide
  {
    TooShortToContain(text, "start listening");
    TooShortToContain(text, "stop listening");
    assert text[9..13] == "next";
    OffsetGivesContains(text, "next", 9);
  }

  /** "next stop listening" stops listening rather than moving on. */
  lemma StopBeforeNext(text: string, slideCount: nat)
    requires text == "next stop listening"
    ensures Classify(text, slideCount) == StopListening
  {
    MissingCharacter(text, "start listening", 2);
    assert text[5..19] == "stop listening";
    OffsetGivesContains(text, "stop listening", 5);
  }
}
