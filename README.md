# Presentation controller session state, in Dafny

This project models the session state machine of the hand-gesture presentation
controller (`PresentationController` in `main.py`). A camera loop reads one
hand pose per frame and turns it into slide navigation, freehand drawing and
erasing. A voice loop, running on its own thread, is armed by the same
`buttonPressed` flag and then interprets transcribed phrases as slide commands.
Both loops update the same fields in place: the slide index `imgNumber`, the
annotation groups `annotations`, the group counter `annotationNumber`, the
pen-down flag `annotationStart`, and the cooldown handshake `buttonPressed` /
`counter`. The voice loop's local `listening` flag is kept as a field.

Layout:

- `session.dfy` (module `SessionState`): the `Session` value holding every field
  the loops update, the configuration (gesture threshold, cooldown delay, deck
  size), the invariant, and the slide change with its annotation reset.
- `gestures.dfy` (module `Gestures`): one camera frame, lines 124-181. `Handle`
  covers the gesture handling and `Tick` the cooldown counter; `Frame` is the
  two together. It also holds the cooldown-window lemmas.
- `voice.dfy` (module `Voice`): the keyword chain, the arm step, the command
  step and one pass of the voice loop.
- `deck.dfy` (module `Deck`): the deck order, a stable sort of the listing by
  name length.
- `controller.dfy` (module `Controller`): the class `PresentationController`.
  Its fields are the source's fields. Each method is imperative code proved
  equal to the matching function above. The module also proves that the
  invariant survives any interleaving of gesture and voice steps.

The pure functions are the specification. The class methods are the in-place
implementation, and each method's `ensures` ties the new state to the function.

Behaviour the model follows because the code does it:

- While `buttonPressed` is set, all gesture handling is skipped, including
  drawing. The pen is simply lifted.
- The cooldown counts up from the firing frame and clears the flag once it
  exceeds `delay`. The voice arm step clears the flag but leaves `counter`
  alone, so a later gesture's window is shorter (`CooldownWindow` is stated for
  any starting counter).
- A drawn point goes to `annotations[annotationNumber]`. Because
  `len(annotations) == annotationNumber + 2`, that is the group *before* the
  empty group the drawing gesture appended, or group 0 when the index is -1.
  So an erase right after a stroke removes the empty trailing group, and the
  stroke stays on the slide (`EraseAfterStrokeKeepsStroke`). One might expect
  erase to remove the last stroke; the code pops the trailing empty group.
- Erasing on a fresh slide leaves `annotations == []` and
  `annotationNumber == -2` (`EraseFromFreshSlide`).
- Voice phrases are tested in the order "start listening", "stop listening",
  "next", "previous", then a number. The first phrase, in this order, that
  occurs anywhere in the transcription wins, wherever it sits in the text
  (`NextBeforePrevious`, `StopBeforeNext`).
- The two loops share their fields without a lock. The model treats each frame
  step, arm step and command step as atomic, and the steps may come in any
  order (`Controller.Run`).

## Model

| member | source | states |
|---|---|---|
| `SessionState.Initial` | main.py:18-23 | The constructed state is slide 0, one empty group, annotationNumber -1, pen up, flag down, counter 0, not listening; it satisfies the invariant (slide range, bookkeeping, counter bound) for every configuration |
| `SessionState.ShowSlide` | main.py:69-72 | Showing slide k sets the index to k, clears the annotations to one empty group with annotationNumber -1 and the pen up, leaves flag, counter and listening unchanged, and keeps the bookkeeping; the same reset appears at main.py:75-78, 82-85, 140-143 and 148-151 |
| `Gestures.Navigate` | main.py:135-151 | Below the threshold, or for a non-navigation vector, nothing changes. At face height "previous" and "next" raise the flag and step one slide in their direction unless at the deck boundary. The annotations change only when the index changes, and then they are reset; counter and listening are untouched; the bookkeeping holds |
| `Gestures.DrawPoint` | main.py:156-162 | With the pen up, drawing opens a group (annotationNumber + 1, an empty group appended); either way the point is appended to group max(annotationNumber, 0), which is Python's index annotationNumber, and every other group is unchanged; the pen is down and the bookkeeping holds; slide, flag, counter and listening are untouched |
| `Gestures.EraseLast` | main.py:168-172 | With groups present the last group is popped, annotationNumber drops by one and the flag is raised; with none nothing changes; slide, counter and listening are untouched and the bookkeeping holds |
| `Gestures.Handle` | main.py:124-175 | With no hand or during cooldown only the pen is lifted. The flag is raised exactly by a firing gesture (nav at or above the threshold, or erase at any height with groups present). The slide moves iff a nav gesture is handled at face height away from the deck boundary, by one step in the gesture's direction, and then the annotations are reset. The pen is down iff a drawing frame is handled. Draw and erase effects as in DrawPoint and EraseLast; erase with no groups changes nothing. A handled frame that neither draws, erases nor moves the slide changes nothing but the pen (lifted) and the flag |
| `Gestures.Tick` | main.py:177-181 | Only counter and flag change. With the flag set the counter advances by one, and on exceeding delay it returns to 0 and the flag drops. With the flag down nothing changes. The counter stays within [0, max(0, delay)] |
| `Gestures.Frame` | main.py:124-181 | One frame preserves the slide range, the bookkeeping and the whole invariant; a slide change resets the annotations; listening is untouched |
| `Gestures.Frames` | main.py:109-181 | A run of frames keeps the bookkeeping and the invariant |
| `Gestures.SuppressedRun` | main.py:124-181 | While the flag is set, j frames leave slide, annotations and listening unchanged and advance the counter by j; the flag drops with the counter at 0 exactly on the frame where it would exceed delay |
| `Gestures.CooldownWindow` | main.py:124-181 | A gesture firing from counter k with the flag down suppresses all handling in each of the next delay - k frames. Those frames leave slide and annotations as the firing frame left them, and handling resumes on the frame after them with the counter back at 0 |
| `Gestures.PointerOnlyLiftsPen` | main.py:153-166 | The pointer gesture only lifts the pen: every other field is as before |
| `Gestures.EraseAfterStrokeKeepsStroke` | main.py:156-181 | As written, a first stroke yields [[p], []]; an erase then leaves [[p]] with annotationNumber -1; for any delay, after the cooldown frames the flag is down and [[p]] is still there, and the next stroke joins group 0, giving [[p, q], []] |
| `Gestures.EraseFromFreshSlide` | main.py:168-181 | For any delay, erasing from [[]] leaves no group and annotationNumber -2; once the cooldown has passed the flag is down and a second erase changes nothing and raises no flag |
| `Voice.ContainsAtOffset` | main.py:62-78 | The substring test agrees with "the phrase occurs at some offset", in both directions |
| `Voice.Classify` | main.py:62-79 | A slide selection is only produced for an all-digit phrase naming a slide 1..N |
| `Voice.ClassifyDigits` | main.py:79 | An all-digit phrase matches no keyword, so it is a slide selection iff its value is in 1..N, and is ignored otherwise |
| `Voice.Arm` | main.py:52-54 | A set flag is consumed and listening starts; the counter, slide and annotations are untouched; without the flag nothing changes |
| `Voice.Command` | main.py:59-86 | Nothing happens when not listening, without a transcription, or with the empty transcription. The flag and counter are never touched, and a command never starts listening. The slide stays in range. A slide change resets the annotations, and a phrase that does not change the slide leaves everything but listening alone. Listening stops only on "stop listening". Per phrase: "start listening" and unrecognised text change nothing; "stop listening" only stops listening; "next"/"previous" move one slide unless at the deck boundary; a number n in 1..N shows slide n-1 unless already there |
| `Voice.VoiceIteration` | main.py:47-86 | After one pass of the voice loop the flag is down and the counter unchanged; a set flag means the pass was an arm step; idle and unsignalled nothing changes; listening and unsignalled the pass is exactly one command step; the invariant is preserved |
| `Voice.SelectByNumber` | main.py:79-86 | Saying a number n in 1..N while listening shows slide n-1, keeps listening, and resets annotations when the slide changes |
| `Voice.NumberOutsideDeck` | main.py:79 | A number outside 1..N changes nothing |
| `Voice.ThreeIsTwiceNext` | main.py:67-86 | On slide 0 of a deck of at least three slides, "3" gives the same state as "next" twice |
| `Voice.NextBeforePrevious` | main.py:62-79 | "previous next" is classified as next: keywords are tried in the source's order, not in text order |
| `Voice.StopBeforeNext` | main.py:62-79 | "next stop listening" is classified as stop listening |
| `Deck.SortByLength` | main.py:35 | The deck order is a permutation of the listing |
| `Deck.SortByLengthSorted` | main.py:35 | Name lengths are non-decreasing in the deck order |
| `Deck.SortByLengthStable` | main.py:35 | For every length, the names of that length keep their listing order |
| `Deck.SortByLengthIsTheStableOrder` | main.py:35 | Any order that is sorted by length and stable in this sense is exactly the computed order |
| `Controller.Apply` | main.py:45-181 | Any single gesture or voice step preserves the invariant and resets annotations whenever the slide changes |
| `Controller.Run` | main.py:42-181 | The state after any interleaving of atomic frame, arm and command steps of the two threads; the bookkeeping len(annotations) == annotationNumber + 2 holds after it |
| `Controller.RunKeepsInvariant` | main.py:45-181 | Under every interleaving of frame, arm and command steps the invariant holds: slide in range, len(annotations) == annotationNumber + 2, counter within [0, max(0, delay)] |
| `Controller.ReachableStatesAreValid` | main.py:18-23 | From construction, every reachable state satisfies the whole invariant: slide in range, counter within [0, max(0, delay)], len(annotations) == annotationNumber + 2; with the pen down annotationNumber is a valid Python index of annotations, and with the pen up it is one after the drawing gesture appends a group |
| `Controller.PresentationController.constructor` | main.py:13-35 | The threshold and delay are the given ones (300 and 30 when omitted), the deck is the listing sorted by name length, and the state is the initial one |
| `Controller.PresentationController.GoToSlide` | main.py:140-143 | For a slide index in the deck, the in-place slide change equals ShowSlide and restores the invariant whenever the cooldown bound held |
| `Controller.PresentationController.GestureStep` | main.py:124-181 | The in-place frame step equals Frame on the old state and keeps the invariant |
| `Controller.PresentationController.ArmStep` | main.py:52-54 | The in-place arm step equals Arm on the old state |
| `Controller.PresentationController.CommandStep` | main.py:59-86 | The in-place command step equals Command on the old state |
| `Controller.PresentationController.VoiceStep` | main.py:47-86 | The in-place pass of the voice loop equals VoiceIteration on the old state |

## Left out

- Camera capture, frame flipping, the threshold line, OpenCV drawing of strokes and markers, resizing, compositing, display and the `q` quit (main.py:27-29, 111-122, 154, 163, 183-197): rendering and I/O. The result is that the pointer gesture `[0,1,1,0,0]` (line 153), which only draws a marker, only lifts the pen in the model (`PointerOnlyLiftsPen`).
- Hand detection and `fingersUp` (main.py:32, 120, 128): a foreign library. The finger vector, the hand centre `cy` and the fingertip point are inputs to a frame.
- The `np.interp` fingertip remapping (main.py:131-132): floating-point interpolation. The drawn point is an opaque input.
- Speech capture, recognition and its two error cases (main.py:38-39, 88-101): network and audio. A failed recognition is the input `None`. `speak` and `gTTS` (main.py:103-106) are never called by the core.
- Threads, `time.sleep` and the unsynchronised sharing of `buttonPressed` (main.py:42-43, 48-56): each step is modelled as atomic. Torn updates between threads are not modelled.
- `os.listdir`, `os.path.join` and `imread` (main.py:35, 116-117): file I/O. The listing is a parameter. With an empty deck the source fails at line 116; the model keeps `imgNumber == 0` and does not model that failure.
- The console messages (`print` at main.py:55, 63, 66, 86, 94, 97, 100, 113, 137, 145, 161): output only, with no effect on the state.
- `str.isdigit` accepts non-ASCII digit characters; the model accepts ASCII digits only. For some of those characters, such as a superscript two, `isdigit()` holds but `int()` raises `ValueError` at main.py:79, which ends the voice thread; that exception path is not modelled.
- The window size and thumbnail constants (main.py:14, 24), which only feed rendering.
