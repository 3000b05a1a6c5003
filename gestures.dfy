/** One camera frame of the gesture loop (main.py, PresentationController.run,
    lines 124-181): the gesture handling, then the cooldown tick. The hand
    detector is not modelled; its output for the frame is the `Hand` input. */
module Gestures {
  import opened SessionState

  /** What the hand detector reports for one frame: no hand, or the finger-up
      vector (thumb to little finger), the vertical position of the hand centre
      and the already remapped index fingertip. */
  datatype Hand = NoHand | Hand(fingers: seq<int>, cy: int, indexFinger: Point)

  const PreviousGesture: seq<int> := [1, 0, 0, 0, 0]
  const NextGesture: seq<int> := [0, 0, 0, 0, 1]
  const DrawGesture: seq<int> := [0, 1, 0, 0, 0]
  const EraseGesture: seq<int> := [0, 1, 1, 1, 0]
  const PointerGesture: seq<int> := [0, 1, 1, 0, 0]

  /** The five gesture patterns the frame step compares against are distinct. */
  lemma GesturesDistinct()
    ensures PreviousGesture != NextGesture && PreviousGesture != DrawGesture &&
            PreviousGesture != EraseGesture && PreviousGesture != PointerGesture
    ensures NextGesture != DrawGesture && NextGesture != EraseGesture && NextGesture != PointerGesture
    ensures DrawGesture != EraseGesture && DrawGesture != PointerGesture
    ensures EraseGesture != PointerGesture
  {
  }

  /** A frame in which gesture handling runs at all: a hand is present and no
      cooldown is active. */
  predicate Handled(s: Session, h: Hand) {
    h.Hand? && !s.buttonPressed
  }

  /** The gestures that raise the button flag: a navigation gesture held at or
      above the threshold height, or the erase gesture (at any height) while
      there is a group to remove. */
  predicate Fires(c: Config, s: Session, h: Hand) {
    Handled(s, h) &&
    ((h.cy <= c.gestureThreshold && (h.fingers == PreviousGesture || h.fingers == NextGesture)) ||
     (h.fingers == EraseGesture && |s.annotations| > 0))
  }

  /** `after` is `before` with point p appended to group k and nothing else changed. */
  predicate AppendedAt(before: seq<seq<Point>>, after: seq<seq<Point>>, k: nat, p: Point) {
    k < |before| == |after| &&
    after[k] == before[k] + [p] &&
    forall j :: 0 <= j < |before| && j != k ==> after[j] == before[j]
  }

  function Max0(i: int): nat {
    if i < 0 then 0 else i
  }

  /** Lines 135-151: the navigation gestures at face height. Each one raises
      the button flag, and moves one slide only when not at the deck boundary. */
  function Navigate(c: Config, s: Session, h: Hand): (r: Session)
    requires h.Hand? && Bookkeeping(s)
    ensures Bookkeeping(r)
    ensures r.imgNumber != s.imgNumber ==> r.annotations == [[]] && r.annotationNumber == -1 && !r.annotationStart
    ensures r.imgNumber == s.imgNumber ==>
              r.annotations == s.annotations && r.annotationNumber == s.annotationNumber &&
              r.annotationStart == s.annotationStart
    ensures r.counter == s.counter && r.listening == s.listening
    // below the threshold, or with any other finger vector, nothing happens
    ensures h.cy > c.gestureThreshold || (h.fingers != PreviousGesture && h.fingers != NextGesture) ==>
              r == s
    // a navigation gesture raises the flag and steps one slide within the deck
    ensures h.cy <= c.gestureThreshold && h.fingers == PreviousGesture ==>
              r.buttonPressed && r.imgNumber == if s.imgNumber > 0 then s.imgNumber - 1 else s.imgNumber
    ensures h.cy <= c.gestureThreshold && h.fingers == NextGesture ==>
              r.buttonPressed &&
              r.imgNumber == if s.imgNumber < c.slideCount - 1 then s.imgNumber + 1 else s.imgNumber
  {
    if h.cy > c.gestureThreshold then s
    else
      var afterPrevious :=
        if h.fingers == PreviousGesture then
          var t := s.(buttonPressed := true);
          if t.imgNumber > 0 then ShowSlide(t, t.imgNumber - 1) else t
        else s;
      if h.fingers == NextGesture then
        var t := afterPrevious.(buttonPressed := true);
        if t.imgNumber < c.slideCount - 1 then ShowSlide(t, t.imgNumber + 1) else t
      else afterPrevious
  }

  /** Lines 156-162: the drawing gesture. A lifted pen opens a new group (the
      counter is incremented and an empty group appended); the point then goes
      to annotations[annotationNumber], read with Python's negative indexing. */
  function DrawPoint(s: Session, p: Point): (r: Session)
    requires Bookkeeping(s)
    ensures Bookkeeping(r) && r.annotationStart
    ensures r.annotationNumber == s.annotationNumber + (if s.annotationStart then 0 else 1)
    ensures AppendedAt(if s.annotationStart then s.annotations else s.annotations + [[]],
                       r.annotations, Max0(r.annotationNumber), p)
    ensures r.imgNumber == s.imgNumber && r.buttonPressed == s.buttonPressed &&
            r.counter == s.counter && r.listening == s.listening
  {
    var t :=
      if s.annotationStart then s
      else s.(annotationStart := true, annotationNumber := s.annotationNumber + 1,
              annotations := s.annotations + [[]]);
    var i := PyIndex(t.annotationNumber, |t.annotations|);
    t.(annotations := t.annotations[i := t.annotations[i] + [p]])
  }

  /** Lines 168-172: the erase gesture pops the last group when there is one.
      It runs after line 166 has lifted the pen. */
  function EraseLast(s: Session): (r: Session)
    requires Bookkeeping(s) && !s.annotationStart
    ensures Bookkeeping(r)
    ensures |s.annotations| == 0 ==> r == s
    ensures |s.annotations| > 0 ==>
              r.annotations == s.annotations[..|s.annotations| - 1] &&
              r.annotationNumber == s.annotationNumber - 1 && r.buttonPressed
    ensures r.imgNumber == s.imgNumber && !r.annotationStart &&
            r.counter == s.counter && r.listening == s.listening
  {
    if |s.annotations| > 0 then
      s.(annotations := s.annotations[..|s.annotations| - 1],
         annotationNumber := s.annotationNumber - 1, buttonPressed := true)
    else s
  }

  /** Lines 124-175: the gesture handling of one frame. */
  function Handle(c: Config, s: Session, h: Hand): (r: Session)
    requires Bookkeeping(s)
    ensures Bookkeeping(r)
    // no hand, or a cooldown in progress: only the pen is lifted
    ensures !Handled(s, h) ==> r == s.(annotationStart := false)
    // the button flag is raised exactly by a firing gesture, and never lowered here
    ensures r.buttonPressed == (s.buttonPressed || Fires(c, s, h))
    ensures r.counter == s.counter && r.listening == s.listening
    // the slide moves only by a navigation gesture away from the deck boundary
    ensures r.imgNumber != s.imgNumber <==>
              Handled(s, h) && h.cy <= c.gestureThreshold &&
              ((h.fingers == PreviousGesture && s.imgNumber > 0) ||
               (h.fingers == NextGesture && s.imgNumber < c.slideCount - 1))
    ensures r.imgNumber == s.imgNumber ||
            (h.fingers == PreviousGesture && r.imgNumber == s.imgNumber - 1) ||
            (h.fingers == NextGesture && r.imgNumber == s.imgNumber + 1)
    ensures r.imgNumber != s.imgNumber ==>
              r.annotations == [[]] && r.annotationNumber == -1 && !r.annotationStart
    // the pen is down exactly on a handled drawing frame
    ensures r.annotationStart <==> Handled(s, h) && h.fingers == DrawGesture
    // drawing: open a group if the pen was up, append the point, nothing else
    ensures Handled(s, h) && h.fingers == DrawGesture ==>
              r.imgNumber == s.imgNumber && r.buttonPressed == s.buttonPressed &&
              r.annotationNumber == s.annotationNumber + (if s.annotationStart then 0 else 1) &&
              AppendedAt(if s.annotationStart then s.annotations else s.annotations + [[]],
                         r.annotations, Max0(r.annotationNumber), h.indexFinger)
    // erasing, at any height: drop the last group if there is one, else change nothing
    ensures Handled(s, h) && h.fingers == EraseGesture && |s.annotations| > 0 ==>
              r.annotations == s.annotations[..|s.annotations| - 1] &&
              r.annotationNumber == s.annotationNumber - 1 && r.imgNumber == s.imgNumber
    ensures Handled(s, h) && h.fingers == EraseGesture && |s.annotations| == 0 ==> r == s
    // any other handled frame that leaves the slide where it is only lifts the pen
    // (and raises the flag if it was a navigation gesture at the deck boundary)
    ensures Handled(s, h) && h.fingers != DrawGesture && h.fingers != EraseGesture &&
            r.imgNumber == s.imgNumber ==>
              r == s.(annotationStart := false, buttonPressed := r.buttonPressed)
  {
    if !Handled(s, h) then s.(annotationStart := false)
    else
      var navigated := Navigate(c, s, h);
      var drawn :=
        if h.fingers == DrawGesture then DrawPoint(navigated, h.indexFinger)
        else navigated.(annotationStart := false);
      if h.fingers == EraseGesture then EraseLast(drawn) else drawn
  }

  /** Lines 177-181: while the button flag is set the counter advances once
      per frame; when it exceeds the delay it is reset and the flag cleared. */
  function Tick(c: Config, s: Session): (r: Session)
    ensures r == s.(buttonPressed := r.buttonPressed, counter := r.counter)
    ensures !s.buttonPressed ==> r == s
    ensures s.buttonPressed ==> (r.buttonPressed <==> s.counter + 1 <= c.delay)
    ensures s.buttonPressed ==> r.counter == (if r.buttonPressed then s.counter + 1 else 0)
    ensures 0 <= s.counter && (s.counter == 0 || s.counter <= c.delay) ==> CooldownBounded(c, r)
  {
    if !s.buttonPressed then s
    else if s.counter + 1 > c.delay then s.(counter := 0, buttonPressed := false)
    else s.(counter := s.counter + 1)
  }

  /** One whole frame. */
  function Frame(c: Config, s: Session, h: Hand): (r: Session)
    requires Bookkeeping(s)
    ensures Bookkeeping(r)
    ensures SlideInRange(c, s) ==> SlideInRange(c, r)
    ensures Invariant(c, s) ==> Invariant(c, r)
    ensures r.imgNumber != s.imgNumber ==>
              r.annotations == [[]] && r.annotationNumber == -1 && !r.annotationStart
    ensures r.listening == s.listening
  {
    Tick(c, Handle(c, s, h))
  }

  /** A run of consecutive frames with no voice step in between. */
  function Frames(c: Config, s: Session, hs: seq<Hand>): (r: Session)
    requires Bookkeeping(s)
    ensures Bookkeeping(r)
    ensures Invariant(c, s) ==> Invariant(c, r)
    decreases |hs|
  {
    if hs == [] then s else Frames(c, Frame(c, s, hs[0]), hs[1..])
  }

  /** While the cooldown runs, frames change nothing but the counter (and lift
      the pen): after j of them the counter has advanced by j, and the flag is
      cleared exactly when the counter would exceed the delay. */
  lemma {:induction false} SuppressedRun(c: Config, s: Session, hs: seq<Hand>)
    requires Bookkeeping(s) && s.buttonPressed && 1 <= s.counter <= c.delay
    requires |hs| <= c.delay - s.counter + 1
    ensures var r := Frames(c, s, hs);
            r.imgNumber == s.imgNumber && r.annotations == s.annotations &&
            r.annotationNumber == s.annotationNumber && r.listening == s.listening &&
            (|hs| > 0 ==> !r.annotationStart) &&
            (|hs| < c.delay - s.counter + 1 ==> r.buttonPressed && r.counter == s.counter + |hs|) &&
            (|hs| == c.delay - s.counter + 1 ==> !r.buttonPressed && r.counter == 0)
    decreases |hs|
  {
    if hs != [] {
      var next := Frame(c, s, hs[0]);
      if s.counter + 1 <= c.delay {
        SuppressedRun(c, next, hs[1..]);
      } else {
        assert hs[1..] == [];
      }
    }
  }

  /** The cooldown window. A gesture that fires while the flag is down and the
      counter is k suppresses all gesture handling in each of the next
      delay - k frames, which leave slide and annotations untouched; handling
      resumes on the frame after them. From the initial counter 0 that is the
      frames t+1 .. t+delay after a firing frame t. */
  lemma CooldownWindow(c: Config, s: Session, h: Hand, hs: seq<Hand>)
    requires Bookkeeping(s) && !s.buttonPressed && 0 <= s.counter <= c.delay
    requires Fires(c, s, h)
    requires |hs| == c.delay - s.counter
    ensures var fired := Frame(c, s, h);
            (forall j :: 0 <= j < |hs| ==> !Handled(Frames(c, fired, hs[..j]), hs[j])) &&
            Frames(c, fired, hs).imgNumber == fired.imgNumber &&
            Frames(c, fired, hs).annotations == fired.annotations &&
            Frames(c, fired, hs).annotationNumber == fired.annotationNumber &&
            !Frames(c, fired, hs).annotationStart &&
            !Frames(c, fired, hs).buttonPressed && Frames(c, fired, hs).counter == 0
  {
    GesturesDistinct();
    var fired := Frame(c, s, h);
    if s.counter + 1 <= c.delay {
      assert fired.buttonPressed && fired.counter == s.counter + 1;
      forall j | 0 <= j < |hs|
        ensures !Handled(Frames(c, fired, hs[..j]), hs[j])
      {
        SuppressedRun(c, fired, hs[..j]);
      }
      SuppressedRun(c, fired, hs);
    } else {
      assert hs == [];
    }
  }

  /** On the pointer gesture the frame step only lifts the pen: the pointer
      marker of line 154 is drawn on the output image, not kept in the state. */
  lemma PointerOnlyLiftsPen(c: Config, s: Session, cy: int, p: Point)
    requires Bookkeeping(s)
    ensures Handle(c, s, Hand(PointerGesture, cy, p)) == s.(annotationStart := false)
  {
    GesturesDistinct();
  }

  /** With the pen up, no cooldown and a single group [p] read through index
      -1, a new stroke is written into that group, before a fresh empty one. */
  lemma StrokeJoinsOnlyGroup(c: Config, t: Session, p: Point, q: Point, cy: int)
    requires t.annotations == [[p]] && t.annotationNumber == -1
    requires !t.annotationStart && !t.buttonPressed
    ensures Frame(c, t, Hand(DrawGesture, cy, q)).annotations == [[p, q], []]
  {
    GesturesDistinct();
    var again := Handle(c, t, Hand(DrawGesture, cy, q));
    assert AppendedAt([[p]] + [[]], again.annotations, 0, q);
    assert |again.annotations| == 2 && again.annotations[1] == [];
    assert again.annotations[0] == [p] + [q] == [p, q];
    assert again.annotations == [[p, q], []];
  }

  /** The first stroke on a fresh slide goes to group 0, before the empty group
      the drawing gesture appended. */
  lemma FirstStroke(c: Config, p: Point, cy: int)
    ensures var drawn := Frame(c, Initial(), Hand(DrawGesture, cy, p));
            drawn.annotations == [[p], []] && drawn.annotationNumber == 0 &&
            !drawn.buttonPressed && drawn.counter == 0
  {
    GesturesDistinct();
    var handled := Handle(c, Initial(), Hand(DrawGesture, cy, p));
    assert AppendedAt([[]] + [[]], handled.annotations, 0, p);
    assert |handled.annotations| == 2 && handled.annotations[1] == [];
    assert handled.annotations[0] == [] + [p] == [p];
    assert handled.annotations == [[p], []];
  }

  /** As written, a stroke lands in the group before the empty one that the
      drawing gesture appended, so an erase right after a first stroke pops
      that empty group: the stroke stays on the slide. Once the erase's
      cooldown (the frames hs) has run out, the next stroke is appended to the
      same group as the first. */
  lemma EraseAfterStrokeKeepsStroke(c: Config, p: Point, q: Point, cy: int, hs: seq<Hand>)
    requires |hs| == Max0(c.delay)
    ensures var drawn := Frame(c, Initial(), Hand(DrawGesture, cy, p));
            var erased := Frame(c, drawn, Hand(EraseGesture, cy, p));
            var cooled := Frames(c, erased, hs);
            drawn.annotations == [[p], []] &&
            erased.annotations == [[p]] && erased.annotationNumber == -1 &&
            cooled.annotations == [[p]] && !cooled.buttonPressed &&
            Frame(c, cooled, Hand(DrawGesture, cy, q)).annotations == [[p, q], []]
  {
    GesturesDistinct();
    FirstStroke(c, p, cy);
    var drawn := Frame(c, Initial(), Hand(DrawGesture, cy, p));
    var eraseHand := Hand(EraseGesture, cy, p);
    var erased := Frame(c, drawn, eraseHand);
    assert erased.annotations == [[p]] && erased.annotationNumber == -1;
    var cooled := Frames(c, erased, hs);
    if c.delay >= 0 {
      assert Fires(c, drawn, eraseHand);
      CooldownWindow(c, drawn, eraseHand, hs);
    } else {
      assert hs == [];
    }
    StrokeJoinsOnlyGroup(c, cooled, p, q, cy);
  }

  /** Erasing on a fresh slide pops the single empty group, leaving no group
      at all and annotationNumber at -2. Once the cooldown (the frames hs) has
      run out, erasing again changes nothing and does not raise the flag. */
  lemma EraseFromFreshSlide(c: Config, cy: int, p: Point, hs: seq<Hand>)
    requires |hs| == Max0(c.delay)
    ensures var once := Frame(c, Initial(), Hand(EraseGesture, cy, p));
            var cooled := Frames(c, once, hs);
            once.annotations == [] && once.annotationNumber == -2 &&
            cooled.annotations == [] && cooled.annotationNumber == -2 &&
            Handle(c, cooled, Hand(EraseGesture, cy, p)) == cooled && !cooled.buttonPressed
  {
    GesturesDistinct();
    var eraseHand := Hand(EraseGesture, cy, p);
    if c.delay >= 0 {
      assert Fires(c, Initial(), eraseHand);
      CooldownWindow(c, Initial(), eraseHand, hs);
    } else {
      assert hs == [];
    }
  }
}
