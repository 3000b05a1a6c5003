/** The session state of the presentation controller: which slide is shown, the
    freehand annotation groups drawn on it, and the cooldown handshake shared by
    the gesture loop and the voice loop (main.py, PresentationController.__init__). */
module SessionState {

  datatype Option<T> = None | Some(value: T)

  /** A point of the drawing canvas; the fingertip remapping that produces it is
      not modelled, so the model only stores and compares points. */
  datatype Point = Point(x: int, y: int)

  /** The configuration fixed at start-up: the gesture height threshold, the
      cooldown length in frames and the number of slides in the deck. */
  datatype Config = Config(gestureThreshold: int, delay: int, slideCount: nat)

  const DefaultGestureThreshold: int := 300
  const DefaultDelay: int := 30

  /** Every field of PresentationController that the two loops update.
      `listening` is the voice loop's local flag, kept here as a field. */
  datatype Session = Session(
    imgNumber: int,
    annotations: seq<seq<Point>>,
    annotationNumber: int,
    annotationStart: bool,
    buttonPressed: bool,
    counter: int,
    listening: bool)

  /** The state right after construction. */
  function Initial(): (s: Session)
    ensures forall c: Config :: Invariant(c, s)
    ensures s.imgNumber == 0 && s.annotations == [[]] && s.annotationNumber == -1
    ensures !s.annotationStart && !s.buttonPressed && s.counter == 0 && !s.listening
  {
    Session(0, [[]], -1, false, false, 0, false)
  }

  /** The largest slide index the controller may show; with an empty deck the
      index never moves from 0. */
  function LastSlide(c: Config): (k: nat)
    ensures c.slideCount > 0 ==> k < c.slideCount
    ensures c.slideCount == 0 ==> k == 0
  {
    if c.slideCount == 0 then 0 else c.slideCount - 1
  }

  predicate SlideInRange(c: Config, s: Session) {
    0 <= s.imgNumber <= LastSlide(c)
  }

  /** The annotation bookkeeping: the list always holds annotationNumber + 2
      groups, and while a stroke is open the list is not empty. Together these
      make annotations[annotationNumber] a valid Python index whenever a point
      is appended. */
  predicate Bookkeeping(s: Session) {
    |s.annotations| == s.annotationNumber + 2 &&
    (s.annotationStart ==> |s.annotations| >= 1)
  }

  /** The cooldown counter stays within [0, max(0, delay)], and while the button flag
      is set the firing frame has already been counted. */
  predicate CooldownBounded(c: Config, s: Session) {
    0 <= s.counter &&
    (s.counter == 0 || s.counter <= c.delay) &&
    (s.buttonPressed ==> 1 <= s.counter)
  }

  predicate Invariant(c: Config, s: Session) {
    SlideInRange(c, s) && Bookkeeping(s) && CooldownBounded(c, s)
  }

  /** Moving to slide k: the index changes and the annotations are cleared back
      to one empty group with no active stroke (main.py:69-72 and its copies). */
  function ShowSlide(s: Session, k: int): (r: Session)
    ensures Bookkeeping(r) && r.annotations == [[]] && !r.annotationStart
    ensures r.imgNumber == k
    ensures r.buttonPressed == s.buttonPressed && r.counter == s.counter && r.listening == s.listening
  {
    s.(imgNumber := k, annotations := [[]], annotationNumber := -1, annotationStart := false)
  }

  /** A Python list index `i` into a list of length `len`: a negative index
      counts from the end. */
  function PyIndex(i: int, len: nat): (k: nat)
    requires -(len as int) <= i < len
    ensures k < len
    ensures k == i || k == len + i
  {
    if i < 0 then len + i else i
  }
}
