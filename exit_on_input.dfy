/**
  Exit on user input: the `IsPreviewMode` / `OriginalLocation` logic of
  MainForm.cs (`MainForm_KeyDown`, `MainForm_Click`, `MainForm_MouseMove`).

  A form shown full screen asks the application to exit on any key press, any
  click, and any mouse move that takes the pointer more than 20 pixels away,
  on either axis, from the first position it saw. A form embedded in the
  preview window never asks to exit. `Application.Exit()` is modelled as the
  `exit` result of each handler.

  Step is the specification of one event on the abstract state, Run of a
  sequence of events; the class MainForm holds the fields the source updates
  and is proved against Step.
*/
module ExitOnInput {

  /** `int.MaxValue`, which the source uses as "no baseline recorded yet". */
  const IntMaxValue := 0x7FFF_FFFF

  /** Pointer movement, per axis, that is still taken as sensor noise. */
  const Tolerance := 20

  /** A pointer coordinate as a mouse message carries it: a signed 16-bit
      value. No real position is the sentinel `int.MaxValue`. */
  type Coord = x: int | -0x8000 <= x < 0x8000

  datatype Point = Point(x: int, y: int)

  const Unset := Point(IntMaxValue, IntMaxValue)

  datatype Input = KeyDown | Click | MouseMove(x: Coord, y: Coord)

  /** The form's input state: the preview flag and the mouse baseline. */
  datatype FormState = FormState(preview: bool, origin: Point)

  /** The source's test for "baseline not yet recorded": both coordinates
      still hold the sentinel. */
  predicate IsUnset(p: Point) {
    p.x == IntMaxValue && p.y == IntMaxValue
  }

  predicate IsCoord(n: int) {
    -0x8000 <= n < 0x8000
  }

  /** A baseline is either the sentinel or a position a mouse message can
      carry. */
  predicate ValidOrigin(p: Point) {
    IsUnset(p) || (IsCoord(p.x) && IsCoord(p.y))
  }

  function Abs(n: int): nat {
    if n < 0 then -n else n
  }

  /** The pointer at (x, y) is more than Tolerance pixels from the baseline
      on at least one axis. */
  predicate Beyond(origin: Point, x: int, y: int) {
    Abs(x - origin.x) > Tolerance || Abs(y - origin.y) > Tolerance
  }

  /** One input event: the new state and whether exit is requested. */
  function Step(s: FormState, e: Input): (r: (FormState, bool))
    ensures r.0.preview == s.preview
    ensures s.preview ==> r == (s, false)
    ensures !IsUnset(s.origin) ==> r.0 == s
    ensures !e.MouseMove? ==> r == (s, !s.preview)
    ensures !s.preview && e.MouseMove? ==> !IsUnset(r.0.origin)
    ensures IsUnset(s.origin) && e.MouseMove? ==> !r.1
    ensures ValidOrigin(s.origin) ==> ValidOrigin(r.0.origin)
  {
    if s.preview then (s, false)
    else
      match e
      case KeyDown => (s, true)
      case Click => (s, true)
      case MouseMove(x, y) =>
        var origin := if IsUnset(s.origin) then Point(x, y) else s.origin;
        (FormState(s.preview, origin), Beyond(origin, x, y))
  }

  /** A sequence of events, in order: the final state and, per event, whether
      it requested exit. */
  function Run(s: FormState, es: seq<Input>): (r: (FormState, seq<bool>))
    ensures |r.1| == |es|
    decreases |es|
  {
    if es == [] then (s, [])
    else
      var (s', exit) := Step(s, es[0]);
      var (final, exits) := Run(s', es[1..]);
      (final, [exit] + exits)
  }

  /** Whether an event requests exit from a full-screen form whose baseline
      is already recorded. */
  predicate ExitsFrom(origin: Point, e: Input) {
    match e
    case KeyDown => true
    case Click => true
    case MouseMove(x, y) => Beyond(origin, x, y)
  }

  /** In preview mode nothing ever requests exit and nothing changes. */
  lemma {:induction false} PreviewRunIsInert(s: FormState, es: seq<Input>)
    requires s.preview
    ensures Run(s, es).0 == s
    ensures forall i :: 0 <= i < |es| ==> !Run(s, es).1[i]
    decreases |es|
  {
    if es != [] {
      PreviewRunIsInert(s, es[1..]);
    }
  }

  /** Once the baseline is recorded it never changes, and each event requests
      exit exactly when it is a key press, a click, or a move beyond the
      tolerance from that baseline. */
  lemma {:induction false} SettledRun(s: FormState, es: seq<Input>)
    requires !s.preview && !IsUnset(s.origin)
    ensures Run(s, es).0 == s
    ensures forall i :: 0 <= i < |es| ==> (Run(s, es).1[i] <==> ExitsFrom(s.origin, es[i]))
    decreases |es|
  {
    if es != [] {
      SettledRun(s, es[1..]);
      var exits := Run(s, es).1;
      assert exits == [Step(s, es[0]).1] + Run(s, es[1..]).1;
      forall i | 1 <= i < |es|
        ensures exits[i] <==> ExitsFrom(s.origin, es[i])
      {
        assert exits[i] == Run(s, es[1..]).1[i - 1];
        assert es[i] == es[1..][i - 1];
      }
    }
  }

  /** From a fresh full-screen form, the first mouse move becomes the
      baseline and does not request exit; afterwards the form behaves as a
      settled one around that first position, so a later move requests exit
      exactly when it goes more than 20 pixels from it on some axis. */
  lemma FirstMoveSetsBaseline(x: Coord, y: Coord, rest: seq<Input>)
    ensures Run(FormState(false, Unset), [MouseMove(x, y)] + rest).0 == FormState(false, Point(x, y))
    ensures !Run(FormState(false, Unset), [MouseMove(x, y)] + rest).1[0]
    ensures forall i :: 0 <= i < |rest| ==>
      (Run(FormState(false, Unset), [MouseMove(x, y)] + rest).1[i + 1] <==> ExitsFrom(Point(x, y), rest[i]))
  {
    var es := [MouseMove(x, y)] + rest;
    var settled := FormState(false, Point(x, y));
    assert es[1..] == rest;
    assert Step(FormState(false, Unset), es[0]) == (settled, false);
    SettledRun(settled, rest);
  }

  /** A move of exactly 20 pixels on each axis is tolerated; 21 on one axis
      is not. */
  lemma ToleranceIsStrict()
    ensures !Step(FormState(false, Point(0, 0)), MouseMove(20, -20)).1
    ensures Step(FormState(false, Point(0, 0)), MouseMove(-21, 0)).1
    ensures Step(FormState(false, Point(0, 0)), MouseMove(0, 21)).1
  {
  }

  /** The form whose handlers the source attaches to key, click and mouse
      move events. */
  class MainForm {
    var isPreviewMode: bool
    var originalLocation: Point

    ghost predicate Valid()
      reads this
    {
      ValidOrigin(originalLocation)
    }

    function State(): FormState
      reads this
    {
      FormState(isPreviewMode, originalLocation)
    }

    /** The full-screen form, one per monitor. */
    constructor FullScreen()
      ensures Valid() && State() == FormState(false, Unset)
    {
      isPreviewMode := false;
      originalLocation := Unset;
    }

    /** The form embedded in the preview window: the only place the preview
        flag is set. */
    constructor Preview()
      ensures Valid() && State() == FormState(true, Unset)
    {
      isPreviewMode := true;
      originalLocation := Unset;
    }

    /** `MainForm_KeyDown`: exit unless in preview mode. */
    method KeyDown() returns (exit: bool)
      ensures exit <==> !isPreviewMode
      ensures (State(), exit) == Step(State(), Input.KeyDown)
    {
      exit := !isPreviewMode;
    }

    /** `MainForm_Click`: exit unless in preview mode. */
    method Click() returns (exit: bool)
      ensures exit <==> !isPreviewMode
      ensures (State(), exit) == Step(State(), Input.Click)
    {
      exit := !isPreviewMode;
    }

    /** `MainForm_MouseMove`: record the baseline on the first move, then exit
        once the pointer is more than 20 pixels away from it on an axis. */
    method MouseMove(x: Coord, y: Coord) returns (exit: bool)
      requires Valid()
      modifies this`originalLocation
      ensures Valid()
      ensures (State(), exit) == Step(old(State()), Input.MouseMove(x, y))
    {
      exit := false;
      if isPreviewMode {
        return;
      }
      if originalLocation.x == IntMaxValue && originalLocation.y == IntMaxValue {
        originalLocation := Point(x, y);
      }
      // The baseline is now a real position, so the 32-bit differences of
      // the source cannot wrap and Math.Abs never sees int.MinValue.
      assert -0x8000_0000 < x - originalLocation.x < 0x8000_0000;
      assert -0x8000_0000 < y - originalLocation.y < 0x8000_0000;
      if Abs(x - originalLocation.x) > Tolerance || Abs(y - originalLocation.y) > Tolerance {
        exit := true;
      }
    }
  }
}
