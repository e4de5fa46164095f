/**
 The simulation loop of `run`, minus the windowing: the state it owns
 (live set, camera, WASD latches, run/pause flag, frame counter), the
 input events it reacts to and the per-frame transition. The pure functions
 on `World` specify one frame; the class `Simulator` holds the same state in
 mutable fields and updates it step by step as `run` in main.rs does.
 */
module Simulation {
  import opened Grid
  import opened Camera
  import opened Life
  import Patterns

  /** Target render rate, frames per second. */
  const Fps: nat := 144
  /** Target generations per second. */
  const StepsRate: nat := 12
  /** Frames per generation: 144 / 12 = 12. */
  const StepFrame: nat := Fps / StepsRate
  /** Camera movement per frame while a direction key is held, in pixels. */
  const PanSpeed: int := 15

  datatype Option<T> = None | Some(value: T)

  /** The keys the loop distinguishes; every other key code, or none, is `OtherKey`. */
  datatype Key = W | A | S | D | Space | Delete | Escape | OtherKey

  /** A polled input event; window events other than close are `OtherEvent`. */
  datatype Event = Quit | KeyDown(key: Key) | KeyUp(key: Key) | OtherEvent

  /** What the loop samples or polls in one frame: the pending events and the pointer state. */
  datatype FrameInput = FrameInput(events: seq<Event>, mouseX: int, mouseY: int, left: bool, right: bool)

  /** The state `run` keeps across frames. */
  datatype World = World(
    cells: set<Coord>,
    frameI: nat,
    camX: int,
    camY: int,
    wDown: bool,
    aDown: bool,
    sDown: bool,
    dDown: bool,
    stepping: bool)

  /** The state before the first frame: nothing live, camera at the origin, running. */
  const Initial: World := World({}, 0, 0, 0, false, false, false, false, true)

  /** The frame counter never exceeds the number of frames per generation. */
  predicate CounterBounded(w: World)
  {
    w.frameI <= StepFrame
  }

  /** Window close and Escape end the loop at once. */
  predicate Stops(e: Event)
  {
    e.Quit? || e == KeyDown(Escape)
  }

  /** The effect of one event that does not end the loop. */
  function OnEvent(w: World, e: Event): World
    requires !Stops(e)
  {
    match e
    case KeyDown(W) => w.(wDown := true)
    case KeyDown(A) => w.(aDown := true)
    case KeyDown(S) => w.(sDown := true)
    case KeyDown(D) => w.(dDown := true)
    case KeyUp(W) => w.(wDown := false)
    case KeyUp(A) => w.(aDown := false)
    case KeyUp(S) => w.(sDown := false)
    case KeyUp(D) => w.(dDown := false)
    case KeyDown(Space) => w.(stepping := !w.stepping)
    case KeyDown(Delete) => w.(cells := {})
    case _ => w
  }

  /** Drains the event queue in order; `None` when a stopping event is met, which abandons the rest of the frame. */
  function Poll(w: World, events: seq<Event>): Option<World>
    decreases |events|
  {
    if events == [] then Some(w)
    else if Stops(events[0]) then None
    else Poll(OnEvent(w, events[0]), events[1..])
  }

  /** Each held direction key moves the camera by PanSpeed: W up, A left, S down, D right. */
  function Pan(w: World): World
  {
    var camY := w.camY - (if w.wDown then PanSpeed else 0) + (if w.sDown then PanSpeed else 0);
    var camX := w.camX - (if w.aDown then PanSpeed else 0) + (if w.dDown then PanSpeed else 0);
    w.(camX := camX, camY := camY)
  }

  /** With the left button held the pointer's cell is inserted; with the right button held it is then removed. */
  function Edit(w: World, mouseX: int, mouseY: int, left: bool, right: bool): World
  {
    var g := MouseToGrid(mouseX, mouseY, w.camX, w.camY);
    var painted := if left then w.cells + {g} else w.cells;
    w.(cells := if right then painted - {g} else painted)
  }

  /** The step counter: while running, once the counter has reached StepFrame, a generation passes and it restarts. */
  function Advance(w: World): World
  {
    if !w.stepping then w
    else
      var (cells, i) := if w.frameI >= StepFrame then (NextGeneration(w.cells), 0) else (w.cells, w.frameI);
      w.(cells := cells, frameI := i + 1)
  }

  /** One frame: events, camera pan, pointer edits, then the step counter (`None` when the loop ends). */
  function FrameStep(w: World, input: FrameInput): Option<World>
  {
    match Poll(w, input.events)
    case None => None
    case Some(polled) => Some(Advance(Edit(Pan(polled), input.mouseX, input.mouseY, input.left, input.right)))
  }

  /** Frames in sequence until one ends the loop (`None`) or the inputs run out. */
  function RunFrames(w: World, inputs: seq<FrameInput>): Option<World>
    decreases |inputs|
  {
    if inputs == [] then Some(w)
    else match FrameStep(w, inputs[0])
      case None => None
      case Some(next) => RunFrames(next, inputs[1..])
  }

  // ---------------------------------------------------------------- events

  /** Space flips the run/pause flag and nothing else; pressing it twice restores the state. */
  lemma SpaceToggles(w: World)
    ensures OnEvent(w, KeyDown(Space)).stepping == !w.stepping
    ensures OnEvent(w, KeyDown(Space)).(stepping := w.stepping) == w
    ensures OnEvent(OnEvent(w, KeyDown(Space)), KeyDown(Space)) == w
  {
  }

  /** Delete empties the live set whatever the run/pause flag, and changes nothing else. */
  lemma DeleteClears(w: World)
    ensures OnEvent(w, KeyDown(Delete)).cells == {}
    ensures OnEvent(w, KeyDown(Delete)).(cells := w.cells) == w
  {
  }

  /** In any state, key-down of W, A, S or D sets its flag and key-up clears it; nothing else changes. */
  lemma DirectionLatch(w: World)
    ensures OnEvent(w, KeyDown(W)) == w.(wDown := true) && OnEvent(w, KeyUp(W)) == w.(wDown := false)
    ensures OnEvent(w, KeyDown(A)) == w.(aDown := true) && OnEvent(w, KeyUp(A)) == w.(aDown := false)
    ensures OnEvent(w, KeyDown(S)) == w.(sDown := true) && OnEvent(w, KeyUp(S)) == w.(sDown := false)
    ensures OnEvent(w, KeyDown(D)) == w.(dDown := true) && OnEvent(w, KeyUp(D)) == w.(dDown := false)
  {
  }

  /** Events never touch the frame counter or the camera. */
  lemma {:induction false} PollKeepsCounterAndCamera(w: World, events: seq<Event>)
    requires Poll(w, events).Some?
    ensures Poll(w, events).value.frameI == w.frameI
    ensures Poll(w, events).value.camX == w.camX && Poll(w, events).value.camY == w.camY
    decreases |events|
  {
    if events != [] {
      PollKeepsCounterAndCamera(OnEvent(w, events[0]), events[1..]);
    }
  }

  /** The queue is drained completely exactly when it holds no stopping event. */
  lemma {:induction false} PollCompletes(w: World, events: seq<Event>)
    ensures Poll(w, events).Some? <==> forall i :: 0 <= i < |events| ==> !Stops(events[i])
    decreases |events|
  {
    if events != [] && !Stops(events[0]) {
      PollCompletes(OnEvent(w, events[0]), events[1..]);
      assert forall i :: 1 <= i < |events| ==> events[i] == events[1..][i - 1];
    }
  }

  /** Draining two queues one after the other is draining their concatenation. */
  lemma {:induction false} PollAppend(w: World, first: seq<Event>, second: seq<Event>)
    ensures Poll(w, first + second) == match Poll(w, first) case None => None case Some(m) => Poll(m, second)
    decreases |first|
  {
    if first != [] {
      assert (first + second)[0] == first[0] && (first + second)[1..] == first[1..] + second;
      if !Stops(first[0]) {
        PollAppend(OnEvent(w, first[0]), first[1..], second);
      }
    } else {
      assert first + second == second;
    }
  }

  // ---------------------------------------------------------------- camera

  /** Panning moves only the camera. */
  lemma PanMovesOnlyCamera(w: World)
    ensures Pan(w).(camX := w.camX, camY := w.camY) == w
  {
  }

  /** Holding one direction key shifts its axis by exactly PanSpeed relative to not holding it. */
  lemma PanPerKey(w: World)
    ensures Pan(w.(wDown := true)).camY == Pan(w.(wDown := false)).camY - PanSpeed
    ensures Pan(w.(sDown := true)).camY == Pan(w.(sDown := false)).camY + PanSpeed
    ensures Pan(w.(aDown := true)).camX == Pan(w.(aDown := false)).camX - PanSpeed
    ensures Pan(w.(dDown := true)).camX == Pan(w.(dDown := false)).camX + PanSpeed
    ensures Pan(w.(wDown := true)).camX == Pan(w.(wDown := false)).camX
    ensures Pan(w.(aDown := true)).camY == Pan(w.(aDown := false)).camY
    ensures Pan(w.(sDown := true)).camX == Pan(w.(sDown := false)).camX
    ensures Pan(w.(dDown := true)).camY == Pan(w.(dDown := false)).camY
  {
  }

  /** Opposite keys cancel; with no key held the camera stays put. */
  lemma PanOpposites(w: World)
    ensures w.wDown == w.sDown ==> Pan(w).camY == w.camY
    ensures w.aDown == w.dDown ==> Pan(w).camX == w.camX
  {
  }

  // ---------------------------------------------------------------- editing

  /**
   Editing touches only the pointer's cell: after the frame it is live iff
   the right button is up and either the left button is down or it was live
   already. The right button wins when both are held.
   */
  lemma EditEffect(w: World, mouseX: int, mouseY: int, left: bool, right: bool, q: Coord)
    ensures var g := MouseToGrid(mouseX, mouseY, w.camX, w.camY);
            var r := Edit(w, mouseX, mouseY, left, right);
            && (q != g ==> (q in r.cells <==> q in w.cells))
            && (q == g ==> (q in r.cells <==> !right && (left || q in w.cells)))
            && r.(cells := w.cells) == w
  {
  }

  /** Holding the same buttons over the same spot for another frame changes nothing further. */
  lemma EditIdempotent(w: World, mouseX: int, mouseY: int, left: bool, right: bool)
    ensures var once := Edit(w, mouseX, mouseY, left, right);
            Edit(once, mouseX, mouseY, left, right) == once
  {
  }

  /**
   Two whole frames while paused, with no event and no direction key held:
   painting a spot in the first makes its cell live, erasing the same spot in
   the second leaves the previous state with that cell dead.
   */
  lemma PaintThenErase(w: World, mouseX: int, mouseY: int)
    requires !w.stepping && !w.wDown && !w.aDown && !w.sDown && !w.dDown
    ensures var g := MouseToGrid(mouseX, mouseY, w.camX, w.camY);
            FrameStep(w, FrameInput([], mouseX, mouseY, true, false)) == Some(w.(cells := w.cells + {g}))
    ensures var g := MouseToGrid(mouseX, mouseY, w.camX, w.camY);
            var painted := w.(cells := w.cells + {g});
            FrameStep(painted, FrameInput([], mouseX, mouseY, false, true)) == Some(w.(cells := w.cells - {g}))
  {
    var g := MouseToGrid(mouseX, mouseY, w.camX, w.camY);
    assert (w.cells + {g}) - {g} == w.cells - {g};
  }

  /** Erasing a cell that is not live leaves the state as it was. */
  lemma EraseDeadIsNoOp(w: World, mouseX: int, mouseY: int)
    requires MouseToGrid(mouseX, mouseY, w.camX, w.camY) !in w.cells
    ensures Edit(w, mouseX, mouseY, false, true) == w
  {
  }

  // ---------------------------------------------------------------- step counter

  /** While paused the live set and the counter are frozen. */
  lemma PausedIsFrozen(w: World)
    requires !w.stepping
    ensures Advance(w) == w
  {
  }

  /**
   While running the counter rises by one each frame; once it has reached
   StepFrame the live set is replaced by the next generation and the counter
   is 1 after the frame. Nothing else changes.
   */
  lemma RunningAdvances(w: World)
    requires w.stepping
    ensures w.frameI < StepFrame ==> Advance(w) == w.(frameI := w.frameI + 1)
    ensures w.frameI >= StepFrame ==> Advance(w) == w.(cells := NextGeneration(w.cells), frameI := 1)
  {
  }

  /** A frame keeps the frame counter within StepFrame. */
  lemma FrameKeepsCounterBounded(w: World, input: FrameInput)
    requires CounterBounded(w) && FrameStep(w, input).Some?
    ensures CounterBounded(FrameStep(w, input).value)
  {
    PollKeepsCounterAndCamera(w, input.events);
  }

  /** Any number of frames from the initial state keeps the counter within StepFrame. */
  lemma {:induction false} RunKeepsCounterBounded(w: World, inputs: seq<FrameInput>)
    requires CounterBounded(w) && RunFrames(w, inputs).Some?
    ensures CounterBounded(RunFrames(w, inputs).value)
    decreases |inputs|
  {
    if inputs != [] {
      FrameKeepsCounterBounded(w, inputs[0]);
      RunKeepsCounterBounded(FrameStep(w, inputs[0]).value, inputs[1..]);
    }
  }

  /** A frame whose queue ends with Delete, with no button held, ends with nothing live, running or paused. */
  lemma DeleteFrameEmpties(w: World, events: seq<Event>, mouseX: int, mouseY: int)
    requires forall i :: 0 <= i < |events| ==> !Stops(events[i])
    ensures var r := FrameStep(w, FrameInput(events + [KeyDown(Delete)], mouseX, mouseY, false, false));
            r.Some? && r.value.cells == {}
  {
    PollCompletes(w, events);
    PollAppend(w, events, [KeyDown(Delete)]);
    assert NextGeneration({}) == {} by {
      assert Touched({}) == {};
    }
  }

  // ---------------------------------------------------------------- the loop's state, in place

  /** The variables of `run`, updated in place frame by frame. */
  class Simulator {
    var cells: set<Coord>
    var frameI: nat
    var camX: int
    var camY: int
    var wDown: bool
    var aDown: bool
    var sDown: bool
    var dDown: bool
    var stepping: bool

    /** The abstract value of the fields. */
    ghost function State(): World
      reads this
    {
      World(cells, frameI, camX, camY, wDown, aDown, sDown, dDown, stepping)
    }

    ghost predicate Valid()
      reads this
    {
      CounterBounded(State())
    }

    /** The loop's variables before the first frame. */
    constructor ()
      ensures State() == Initial && Valid()
    {
      cells := {};
      frameI := 0;
      camX, camY := 0, 0;
      wDown, aDown, sDown, dDown := false, false, false, false;
      stepping := true;
    }

    /** One arm of the event match. */
    method HandleEvent(e: Event)
      requires !Stops(e)
      modifies this
      ensures State() == OnEvent(old(State()), e)
    {
      match e {
        case KeyDown(W) => wDown := true;
        case KeyDown(A) => aDown := true;
        case KeyDown(S) => sDown := true;
        case KeyDown(D) => dDown := true;
        case KeyUp(W) => wDown := false;
        case KeyUp(A) => aDown := false;
        case KeyUp(S) => sDown := false;
        case KeyUp(D) => dDown := false;
        case KeyDown(Space) => stepping := !stepping;
        case KeyDown(Delete) => cells := {};
        case _ =>
      }
    }

    /** Drains the queue in order; `quit` when a stopping event ends the loop. */
    method PollEvents(events: seq<Event>) returns (quit: bool)
      modifies this
      ensures quit <==> Poll(old(State()), events).None?
      ensures !quit ==> State() == Poll(old(State()), events).value
      ensures frameI == old(frameI)
    {
      var i := 0;
      while i < |events|
        invariant 0 <= i <= |events|
        invariant Poll(old(State()), events) == Poll(State(), events[i..])
        invariant frameI == old(frameI)
      {
        assert events[i..][0] == events[i] && events[i..][1..] == events[i + 1..];
        if Stops(events[i]) {
          return true;
        }
        HandleEvent(events[i]);
        i := i + 1;
      }
      return false;
    }

    /** The camera update from the held direction latches. */
    method PanCamera()
      modifies this
      ensures State() == Pan(old(State()))
    {
      if wDown { camY := camY - PanSpeed; }
      if aDown { camX := camX - PanSpeed; }
      if sDown { camY := camY + PanSpeed; }
      if dDown { camX := camX + PanSpeed; }
    }

    /** Paint with the left button, then erase with the right, at the pointer's cell. */
    method EditCells(mouseX: int, mouseY: int, left: bool, right: bool)
      modifies this
      ensures State() == Edit(old(State()), mouseX, mouseY, left, right)
    {
      if left {
        var gridPos := MouseToGrid(mouseX, mouseY, camX, camY);
        cells := cells + {gridPos};
      }
      if right {
        var gridPos := MouseToGrid(mouseX, mouseY, camX, camY);
        cells := cells - {gridPos};
      }
    }

    /** The step counter; a generation is computed by the imperative `Step`. */
    method Tick()
      modifies this
      ensures State() == Advance(old(State()))
    {
      if stepping {
        if frameI >= StepFrame {
          frameI := 0;
          cells := Step(cells);
        }
        frameI := frameI + 1;
      }
    }

    /** One iteration of the loop body, without drawing and pacing. */
    method Frame(input: FrameInput) returns (quit: bool)
      requires Valid()
      modifies this
      ensures quit <==> FrameStep(old(State()), input).None?
      ensures !quit ==> State() == FrameStep(old(State()), input).value && Valid()
    {
      quit := PollEvents(input.events);
      if quit {
        return;
      }
      PanCamera();
      EditCells(input.mouseX, input.mouseY, input.left, input.right);
      Tick();
    }

    /** The loop itself, over a finite sequence of frames; `quit` when one of them ended it. */
    method Run(inputs: seq<FrameInput>) returns (quit: bool)
      requires Valid()
      modifies this
      ensures quit <==> RunFrames(old(State()), inputs).None?
      ensures !quit ==> State() == RunFrames(old(State()), inputs).value && Valid()
    {
      var i := 0;
      while i < |inputs|
        invariant 0 <= i <= |inputs|
        invariant Valid()
        invariant RunFrames(old(State()), inputs) == RunFrames(State(), inputs[i..])
      {
        assert inputs[i..][0] == inputs[i] && inputs[i..][1..] == inputs[i + 1..];
        quit := Frame(inputs[i]);
        if quit {
          return;
        }
        i := i + 1;
      }
      return false;
    }
  }

  /**
   Starting a session, painting the cells (0,0), (1,0) and (2,0) with the
   left button in the first three frames and waiting until the first
   generation passes yields the vertical blinker.
   */
  method PaintBlinkerAndStep() returns (live: set<Coord>)
    ensures live == {Coord(1, -1), Coord(1, 0), Coord(1, 1)}
  {
    var sim := new Simulator();
    var q := sim.Frame(FrameInput([], 0, 0, true, false));
    q := sim.Frame(FrameInput([], 10, 0, true, false));
    q := sim.Frame(FrameInput([], 20, 0, true, false));
    ghost var blinker := {Coord(0, 0), Coord(1, 0), Coord(2, 0)};
    assert sim.cells == blinker && sim.frameI == 3;
    var k := 3;
    while k < StepFrame
      invariant 3 <= k <= StepFrame
      invariant sim.State() == Initial.(cells := blinker, frameI := k)
    {
      q := sim.Frame(FrameInput([], 0, 0, false, false));
      k := k + 1;
    }
    q := sim.Frame(FrameInput([], 0, 0, false, false));
    Patterns.HorizontalBlinkerSteps();
    live := sim.cells;
  }
}
