/** PresentationController (main.py): the object whose fields the gesture loop
    and the voice loop update in place. Each loop's body is one atomic method
    here; the two loops' threads may call them in any order. */
module Controller {
  import opened SessionState
  import opened Gestures
  import opened Voice
  import opened Deck

  /** One atomic step of either loop. */
  datatype Event =
    | GestureFrame(hand: Hand)
    | VoiceArm
    | VoiceCommand(heard: Option<string>)

  function Apply(c: Config, s: Session, e: Event): (r: Session)
    requires Bookkeeping(s)
    ensures Invariant(c, s) ==> Invariant(c, r)
    ensures r.imgNumber != s.imgNumber ==>
              r.annotations == [[]] && r.annotationNumber == -1 && !r.annotationStart
  {
    match e
    case GestureFrame(h) => Frame(c, s, h)
    case VoiceArm => Arm(s)
    case VoiceCommand(heard) => Command(c, s, heard)
  }

  /** The state after an arbitrary interleaving of gesture and voice steps. */
  function Run(c: Config, s: Session, events: seq<Event>): (r: Session)
    requires Bookkeeping(s)
    ensures Bookkeeping(r)
    decreases |events|
  {
    if events == [] then s else Run(c, Apply(c, s, events[0]), events[1..])
  }

  /** Under every interleaving of the two loops' steps the slide index stays in
      range, the annotation bookkeeping holds (so the write at
      annotations[annotationNumber] is a valid Python index) and the cooldown
      counter stays within [0, max(0, delay)]. */
  lemma {:induction false} RunKeepsInvariant(c: Config, s: Session, events: seq<Event>)
    requires Invariant(c, s)
    ensures Invariant(c, Run(c, s, events))
    decreases |events|
  {
    if events != [] {
      RunKeepsInvariant(c, Apply(c, s, events[0]), events[1..]);
    }
  }

  /** Starting from construction, every reachable state keeps the invariant.
      In particular the write at annotations[annotationNumber] is a valid
      Python index: with the pen down it indexes the current list, and with the
      pen up it indexes the list after the drawing gesture appends a group. */
  lemma ReachableStatesAreValid(c: Config, events: seq<Event>)
    ensures Invariant(c, Run(c, Initial(), events))
    ensures var r := Run(c, Initial(), events);
            0 <= r.imgNumber <= LastSlide(c) &&
            0 <= r.counter && (r.counter == 0 || r.counter <= c.delay) &&
            (r.annotationStart ==> -|r.annotations| <= r.annotationNumber < |r.annotations|) &&
            (!r.annotationStart ==> -(|r.annotations| + 1) <= r.annotationNumber + 1 < |r.annotations| + 1)
  {
    RunKeepsInvariant(c, Initial(), events);
  }

  class PresentationController {
    const gestureThreshold: int
    const delay: int
    const pathImages: seq<string>

    var buttonPressed: bool
    var imgNumber: int
    var annotations: seq<seq<Point>>
    var annotationNumber: int
    var annotationStart: bool
    var counter: int
    var listening: bool

    function Cfg(): Config {
      Config(gestureThreshold, delay, |pathImages|)
    }

    function State(): Session
      reads this
    {
      Session(imgNumber, annotations, annotationNumber, annotationStart, buttonPressed, counter, listening)
    }

    predicate Valid()
      reads this
    {
      Invariant(Cfg(), State())
    }

    /** Lines 13-23 and 35: the deck is the listing ordered by name length. */
    constructor (listing: seq<string>, gestureThreshold: int := DefaultGestureThreshold,
                 delay: int := DefaultDelay)
      ensures this.gestureThreshold == gestureThreshold && this.delay == delay
      ensures pathImages == SortByLength(listing)
      ensures State() == Initial() && Valid()
    {
      this.gestureThreshold := gestureThreshold;
      this.delay := delay;
      pathImages := SortByLength(listing);
      buttonPressed := false;
      imgNumber := 0;
      annotations := [[]];
      annotationNumber := -1;
      annotationStart := false;
      counter := 0;
      listening := false;
    }

    /** Show slide k with a fresh annotation layer (main.py:69-72, 75-78,
        82-85, 140-143, 148-151). */
    method GoToSlide(k: int)
      requires 0 <= k <= LastSlide(Cfg())
      modifies this
      ensures State() == ShowSlide(old(State()), k)
      ensures old(CooldownBounded(Cfg(), State())) ==> Valid()
    {
      imgNumber := k;
      annotations := [[]];
      annotationNumber := -1;
      annotationStart := false;
    }

    /** Lines 124-181: one camera frame. */
    method GestureStep(hand: Hand)
      requires Valid()
      modifies this
      ensures Valid()
      ensures State() == Frame(Cfg(), old(State()), hand)
    {
      if hand.Hand? && !buttonPressed {
        var fingers := hand.fingers;
        if hand.cy <= gestureThreshold {
          if fingers == PreviousGesture {
            buttonPressed := true;
            if imgNumber > 0 {
              GoToSlide(imgNumber - 1);
            }
          }
          if fingers == NextGesture {
            buttonPressed := true;
            if imgNumber < |pathImages| - 1 {
              GoToSlide(imgNumber + 1);
            }
          }
        }
        if fingers == DrawGesture {
          if !annotationStart {
            annotationStart := true;
            annotationNumber := annotationNumber + 1;
            annotations := annotations + [[]];
          }
          var i := PyIndex(annotationNumber, |annotations|);
          annotations := annotations[i := annotations[i] + [hand.indexFinger]];
        } else {
          annotationStart := false;
        }
        if fingers == EraseGesture {
          if |annotations| > 0 {
            annotations := annotations[..|annotations| - 1];
            annotationNumber := annotationNumber - 1;
            buttonPressed := true;
          }
        }
      } else {
        annotationStart := false;
      }
      if buttonPressed {
        counter := counter + 1;
        if counter > delay {
          counter := 0;
          buttonPressed := false;
        }
      }
    }

    /** Lines 52-54: consume a set button flag and start listening. */
    method ArmStep()
      requires Valid()
      modifies this
      ensures Valid()
      ensures State() == Arm(old(State()))
    {
      if buttonPressed {
        buttonPressed := false;
        listening := true;
      }
    }

    /** Lines 59-86: interpret one transcription while listening. */
    method CommandStep(heard: Option<string>)
      requires Valid()
      modifies this
      ensures Valid()
      ensures State() == Command(Cfg(), old(State()), heard)
    {
      if listening && heard.Some? && heard.value != "" {
        match Classify(heard.value, |pathImages|)
        case StartListening =>
        case StopListening =>
          listening := false;
        case NextSlide =>
          if imgNumber < |pathImages| - 1 {
            GoToSlide(imgNumber + 1);
          }
        case PreviousSlide =>
          if imgNumber > 0 {
            GoToSlide(imgNumber - 1);
          }
        case SelectSlide(n) =>
          if n - 1 != imgNumber {
            GoToSlide(n - 1);
          }
        case Unrecognised =>
      }
    }

    /** Lines 47-86: one pass of the voice loop. */
    method VoiceStep(heard: Option<string>)
      requires Valid()
      modifies this
      ensures Valid()
      ensures State() == VoiceIteration(Cfg(), old(State()), heard)
    {
      if !listening && !buttonPressed {
        return;
      }
      if buttonPressed {
        ArmStep();
        return;
      }
      CommandStep(heard);
    }
  }
}
