/** The simulated touch gesture of source/overlay/radar_overlay.m: what timer_tick and the aim
 * button's release handlers send to hid_touch_event. Target choice and step are inputs. */
module Gesture {
  import opened Wrappers

  const MAX_MOVES := 19

  datatype Event = Down(x: real, y: real) | Move(x: real, y: real) | Up(x: real, y: real)

  /** No target, or an index into the snapshot's players. */
  type Target = t: int | t >= -1 witness -1

  /**
   * A tick: whether aiming is on and the snapshot usable, the touch zone, the chosen target, its
   * distance from the centre and the step towards it. Or the release of the aim button.
   */
  datatype Input =
    | Tick(active: bool, zone: int, best: Target, dist: real, stepX: real, stepY: real)
    | Release(zone: int)

  datatype State = State(touch: bool, locked: Target, x: real, y: real, frames: int, pause: int)

  function Initial(): State { State(false, -1, 0.72, 0.50, 0, 0) }

  // ---------- The zones ----------

  function BaseX(zone: int): real { if zone == 0 then 0.22 else if zone == 1 then 0.72 else 0.50 }
  const BASE_Y := 0.50
  function MinX(zone: int): real { if zone == 0 then 0.06 else if zone == 1 then 0.55 else 0.35 }
  function MaxX(zone: int): real { if zone == 0 then 0.35 else if zone == 1 then 0.90 else 0.65 }
  const MIN_Y := 0.22
  const MAX_Y := 0.78

  predicate InBox(zone: int, x: real, y: real)
  {
    MinX(zone) <= x <= MaxX(zone) && MIN_Y <= y <= MAX_Y
  }

  // ---------- One step ----------

  function Clamp(v: real): (r: real)
    ensures 0.03 <= r <= 0.97 && (0.03 <= v <= 0.97 ==> r == v)
  {
    if v < 0.03 then 0.03 else if v > 0.97 then 0.97 else v
  }

  function Clamped(e: Event): Event
  {
    match e
    case Down(x, y) => Down(Clamp(x), Clamp(y))
    case Move(x, y) => Move(Clamp(x), Clamp(y))
    case Up(x, y) => Up(Clamp(x), Clamp(y))
  }

  datatype Turn = Turn(s: State, sent: seq<Event>)

  /** hid_touch_event. */
  function Send(t: Turn, e: Event): Turn
  {
    Turn(t.s.(touch := !e.Up?), t.sent + [Clamped(e)])
  }

  function Lift(t: Turn, x: real, y: real): Turn
  {
    if t.s.touch then Send(t, Up(x, y)) else t
  }

  function Rebased(s: State, zone: int): State
  {
    s.(x := BaseX(zone), y := BASE_Y, frames := 0)
  }

  /** A tick whose best target is not the locked one. */
  function Switched(s: State, i: Input): Turn
    requires i.Tick?
  {
    var t := Lift(Turn(s, []), s.x, s.y);
    Turn(Rebased(t.s, i.zone).(locked := i.best, pause := 1), t.sent)
  }

  /** A tick with a target. */
  function Steer(t: Turn, i: Input): Turn
    requires i.Tick?
  {
    if t.s.pause > 0 then
      if t.s.pause == 1 then Send(Turn(Rebased(t.s.(pause := 0), i.zone), t.sent), Down(BaseX(i.zone), BASE_Y))
      else Turn(t.s.(pause := t.s.pause - 1), t.sent)
    else if i.dist > 2.5 then
      if !t.s.touch then Send(Turn(Rebased(t.s, i.zone), t.sent), Down(BaseX(i.zone), BASE_Y))
      else
        var s := t.s.(frames := t.s.frames + 1);
        var nextX, nextY := s.x + i.stepX, s.y + i.stepY;
        if s.frames >= 20 || !InBox(i.zone, nextX, nextY) then
          var up := Send(Turn(s, t.sent), Up(s.x, s.y));
          Turn(Rebased(up.s, i.zone).(pause := 1), up.sent)
        else Send(Turn(s.(x := nextX, y := nextY), t.sent), Move(nextX, nextY))
    else if t.s.touch then
      var up := Send(t, Up(t.s.x, t.s.y));
      Turn(Rebased(up.s, i.zone), up.sent)
    else t
  }

  /** No target, or aiming switched off: lift and forget. */
  function Idle(t: Turn, zone: int): Turn
  {
    var up := Lift(t, BaseX(zone), BASE_Y);
    Turn(up.s.(frames := if t.s.touch then 0 else t.s.frames, locked := -1, pause := 0), up.sent)
  }

  function OnTick(s: State, i: Input): Turn
    requires i.Tick?
  {
    if !i.active then Idle(Turn(s, []), i.zone)
    else
      var t := if i.best != s.locked then Switched(s, i) else Turn(s, []);
      if i.best >= 0 then Steer(t, i) else Idle(t, i.zone)
  }

  /** aim_btn_touchesEnded and aim_btn_touchesCancelled. */
  function OnRelease(s: State, zone: int): Turn
  {
    var t := Lift(Turn(s, []), if zone == 0 then 0.20 else 0.75, 0.50);
    Turn(t.s.(locked := -1), t.sent)
  }

  function Step(s: State, i: Input): Turn
  {
    if i.Tick? then OnTick(s, i) else OnRelease(s, i.zone)
  }

  // ---------- Invariant ----------

  predicate Inv(s: State)
  {
    && 0 <= s.pause <= 1 && 0 <= s.frames
    && (s.touch ==> s.locked >= 0 && s.pause == 0 && s.frames <= MAX_MOVES)
  }

  lemma InitialInv()
    ensures Inv(Initial()) && !Initial().touch
  {
  }

  /** Every step keeps it, from any state that has it. */
  lemma StepInv(s: State, i: Input)
    requires Inv(s)
    ensures Inv(Step(s, i).s)
  {
  }

  /** Every Move lies in the box of the zone set at that tick; clamping does not displace it. */
  lemma MovesInBox(s: State, i: Input, e: Event)
    requires e in Step(s, i).sent && e.Move?
    ensures InBox(i.zone, e.x, e.y) && Step(s, i).s.x == e.x && Step(s, i).s.y == e.y
  {
  }

  /** The box of each zone: 0 is on the left, 1 on the right, any other in the middle. */
  lemma ZonesAre(zone: int, x: real, y: real)
    ensures InBox(zone, x, y) <==>
      0.22 <= y <= 0.78
      && if zone == 0 then 0.06 <= x <= 0.35 else if zone == 1 then 0.55 <= x <= 0.90 else 0.35 <= x <= 0.65
  {
  }

  /** Every Down is at one point of its zone, inside the zone's box. */
  lemma DownsAtBase(s: State, i: Input, e: Event)
    requires e in Step(s, i).sent && e.Down?
    ensures InBox(i.zone, e.x, e.y) && e.y == 0.50
    ensures e.x == if i.zone == 0 then 0.22 else if i.zone == 1 then 0.72 else 0.50
  {
  }

  /** Where the finger is lifted: where it is, at the base once aiming is off, at the button on release. */
  lemma UpsWhere(s: State, i: Input, e: Event)
    requires Inv(s) && e in Step(s, i).sent && e.Up?
    ensures s.touch
    ensures i.Tick? && i.active ==> e == Up(Clamp(s.x), Clamp(s.y))
    ensures i.Tick? && !i.active ==>
      e == Up(if i.zone == 0 then 0.22 else if i.zone == 1 then 0.72 else 0.50, 0.50)
    ensures i.Release? ==> e == Up(if i.zone == 0 then 0.20 else 0.75, 0.50)
  {
  }

  /** A switch of targets while touching lifts and touches down within one tick: no pause between. */
  lemma SwitchingDoesNotPause(s: State, i: Input)
    requires Inv(s) && i.Tick? && i.active && 0 <= i.best != s.locked
    ensures var t := Step(s, i);
      t.sent == (if s.touch then [Up(Clamp(s.x), Clamp(s.y))] else []) + [Down(BaseX(i.zone), BASE_Y)] && t.s.touch
  {
  }

  /** A tick with a finger down goes on with one Move by the step exactly while the target is the
   * locked one, off centre, the stroke young enough and the next point in the zone; else it lifts. */
  lemma MovesExactlyWhile(s: State, i: Input)
    requires Inv(s) && s.touch && i.Tick?
    ensures var t := Step(s, i);
      var goesOn := i.active && i.best == s.locked && i.dist > 2.5 && s.frames < MAX_MOVES
        && InBox(i.zone, s.x + i.stepX, s.y + i.stepY);
      if goesOn then t.sent == [Move(s.x + i.stepX, s.y + i.stepY)] && t.s.touch && t.s.frames == s.frames + 1
      else t.sent != [] && t.sent[0].Up?
  {
  }

  /** With no finger down, a tick touches exactly for a target that is new, off centre or awaited. */
  lemma TouchesExactlyWhen(s: State, i: Input)
    requires Inv(s) && !s.touch && i.Tick?
    ensures var t := Step(s, i);
      if i.active && i.best >= 0 && (i.best != s.locked || s.pause > 0 || i.dist > 2.5)
      then t.sent == [Down(BaseX(i.zone), BASE_Y)] && t.s.x == BaseX(i.zone) && t.s.y == BASE_Y && t.s.frames == 0
      else t.sent == []
  {
  }

  // ---------- Strokes ----------

  /** A Down, the Moves after it, and the Up once it came. */
  datatype Stroke = Stroke(down: Event, moves: seq<Event>, up: Option<Event>)

  predicate IsStroke(k: Stroke)
  {
    && k.down.Down? && |k.moves| <= MAX_MOVES
    && (forall j :: 0 <= j < |k.moves| ==> k.moves[j].Move?)
    && (k.up.Some? ==> k.up.value.Up?)
  }

  /** Whole strokes of at most 19 Moves, of which the last one may still be open. */
  predicate IsStrokes(ks: seq<Stroke>)
  {
    && (forall j :: 0 <= j < |ks| ==> IsStroke(ks[j]))
    && (forall j :: 0 <= j < |ks| - 1 ==> ks[j].up.Some?)
  }

  function Events(k: Stroke): seq<Event>
  {
    [k.down] + k.moves + if k.up.Some? then [k.up.value] else []
  }

  function Flatten(ks: seq<Stroke>): seq<Event>
  {
    if ks == [] then [] else Flatten(ks[..|ks| - 1]) + Events(ks[|ks| - 1])
  }

  predicate IsOpen(ks: seq<Stroke>)
  {
    ks != [] && ks[|ks| - 1].up.None?
  }

  /** The strokes after one more event. */
  function Extend(ks: seq<Stroke>, e: Event): seq<Stroke>
  {
    if e.Down? || ks == [] then ks + [Stroke(e, [], None)]
    else
      var last := ks[|ks| - 1];
      ks[..|ks| - 1] + [if e.Move? then last.(moves := last.moves + [e]) else last.(up := Some(e))]
  }

  function StrokesOf(es: seq<Event>): seq<Stroke>
  {
    if es == [] then [] else Extend(StrokesOf(es[..|es| - 1]), es[|es| - 1])
  }

  /** The strokes agree with the state: one is open exactly while touching, one Move per frame. */
  ghost predicate Tracks(ks: seq<Stroke>, touch: bool, frames: int)
  {
    && IsStrokes(ks)
    && (touch <==> IsOpen(ks))
    && (touch ==> |ks[|ks| - 1].moves| == frames)
  }

  lemma ExtendFlatten(ks: seq<Stroke>, touch: bool, frames: int, e: Event)
    requires Tracks(ks, touch, frames)
    requires e.Down? <==> !touch
    ensures Flatten(Extend(ks, e)) == Flatten(ks) + [e]
  {
    hide IsStroke;
    var ks' := Extend(ks, e);
    if e.Down? {
      assert ks'[..|ks'| - 1] == ks;
    } else {
      var front, last := ks[..|ks| - 1], ks[|ks| - 1];
      assert ks'[..|ks'| - 1] == front;
      assert Events(ks'[|ks'| - 1]) == Events(last) + [e];
    }
  }

  lemma ExtendTracks(ks: seq<Stroke>, touch: bool, frames: int, e: Event)
    requires Tracks(ks, touch, frames)
    requires e.Down? <==> !touch
    requires e.Move? ==> frames < MAX_MOVES
    ensures Tracks(Extend(ks, e), !e.Up?, if e.Move? then frames + 1 else 0)
    ensures Flatten(Extend(ks, e)) == Flatten(ks) + [e]
  {
    hide Flatten, IsStroke;
    ExtendFlatten(ks, touch, frames, e);
    var ks' := Extend(ks, e);
    LastStroke(ks, touch, frames, e);
    forall j | 0 <= j < |ks'| ensures IsStroke(ks'[j]) {
      if j < |ks'| - 1 { assert ks'[j] == ks[j]; }
    }
  }

  lemma LastStroke(ks: seq<Stroke>, touch: bool, frames: int, e: Event)
    requires Tracks(ks, touch, frames)
    requires e.Down? <==> !touch
    requires e.Move? ==> frames < MAX_MOVES
    ensures var ks' := Extend(ks, e); |ks'| > 0 && IsStroke(ks'[|ks'| - 1])
  {
    if !e.Down? {
      assert IsStroke(ks[|ks| - 1]);
    }
  }

  lemma StrokesOfMore(es: seq<Event>, e: Event)
    ensures StrokesOf(es + [e]) == Extend(StrokesOf(es), e)
  {
    assert (es + [e])[..|es|] == es;
  }

  /** What one step can send, given whether a stroke is open and how many Moves it has. */
  predicate Legal(touch: bool, frames: int, t: Turn)
  {
    if t.sent == [] then !touch && !t.s.touch
    else if |t.sent| == 1 then
      var e := t.sent[0];
      && (e.Down? <==> !touch) && (e.Move? ==> frames < MAX_MOVES)
      && t.s.touch == !e.Up? && (t.s.touch ==> t.s.frames == if e.Move? then frames + 1 else 0)
    else |t.sent| == 2 && touch && t.sent[0].Up? && t.sent[1].Down? && t.s.touch && t.s.frames == 0
  }

  lemma StepLegal(s: State, i: Input)
    requires Inv(s)
    ensures Legal(s.touch, s.frames, Step(s, i))
  {
  }

  /** The strokes sent so far, and the state that goes with them. */
  ghost predicate InStep(es: seq<Event>, s: State)
  {
    Tracks(StrokesOf(es), s.touch, s.frames) && Flatten(StrokesOf(es)) == es
  }

  lemma LegalInStep(es: seq<Event>, s: State, t: Turn)
    requires InStep(es, s) && Legal(s.touch, s.frames, t)
    ensures InStep(es + t.sent, t.s)
  {
    hide Tracks, StrokesOf, Extend, Flatten;
    if t.sent == [] {
      assert es + t.sent == es;
      NothingOpen(StrokesOf(es), s.frames, t.s.frames);
    } else {
      var e := t.sent[0];
      ExtendTracks(StrokesOf(es), s.touch, s.frames, e);
      StrokesOfMore(es, e);
      if |t.sent| == 2 {
        ExtendTracks(StrokesOf(es + [e]), false, 0, t.sent[1]);
        StrokesOfMore(es + [e], t.sent[1]);
        assert es + t.sent == es + [e] + [t.sent[1]];
      } else {
        assert t.sent == [e];
        if !t.s.touch { NothingOpen(StrokesOf(es + [e]), 0, t.s.frames); }
      }
    }
  }

  lemma NothingOpen(ks: seq<Stroke>, f: int, g: int)
    requires Tracks(ks, false, f)
    ensures Tracks(ks, false, g)
  {
  }

  // ---------- Runs ----------

  function Run(s: State, ins: seq<Input>): Turn
    decreases |ins|
  {
    if ins == [] then Turn(s, [])
    else
      var t := Step(s, ins[0]);
      var rest := Run(t.s, ins[1..]);
      Turn(rest.s, t.sent + rest.sent)
  }

  lemma {:induction false} RunInStep(s: State, es: seq<Event>, ins: seq<Input>)
    requires Inv(s) && InStep(es, s)
    ensures Inv(Run(s, ins).s) && InStep(es + Run(s, ins).sent, Run(s, ins).s)
    decreases |ins|
  {
    hide Inv, InStep, Legal, Step;
    if ins == [] {
      assert es + [] == es;
    } else {
      var t := Step(s, ins[0]);
      StepLegal(s, ins[0]);
      StepInv(s, ins[0]);
      LegalInStep(es, s, t);
      RunInStep(t.s, es + t.sent, ins[1..]);
      assert es + (t.sent + Run(t.s, ins[1..]).sent) == es + t.sent + Run(t.s, ins[1..]).sent;
    }
  }

  /**
   * Over every run of ticks, setting changes and releases: what is sent is a row of strokes, each a
   * Down, at most 19 Moves and an Up, the last one possibly still open, which it is exactly while
   * touching; and touching implies a locked target and no pause.
   */
  lemma Lifecycle(ins: seq<Input>)
    ensures var r := Run(Initial(), ins);
      && Inv(r.s)
      && IsStrokes(StrokesOf(r.sent)) && Flatten(StrokesOf(r.sent)) == r.sent
      && (r.s.touch <==> IsOpen(StrokesOf(r.sent)))
  {
    hide Run;
    InitialInv();
    RunInStep(Initial(), [], ins);
    assert [] + Run(Initial(), ins).sent == Run(Initial(), ins).sent;
  }

  /** The Moves the k-th input of a run adds to what was sent lie in the box of its zone. */
  lemma EveryMoveInItsBox(s: State, ins: seq<Input>, k: nat, e: Event)
    requires k < |ins|
    requires var t := Step(Run(s, ins[..k]).s, ins[k]); e in t.sent && e.Move?
    ensures InBox(ins[k].zone, e.x, e.y)
    ensures Run(s, ins[..k + 1]).sent == Run(s, ins[..k]).sent + Step(Run(s, ins[..k]).s, ins[k]).sent
  {
    hide Step;
    MovesInBox(Run(s, ins[..k]).s, ins[k], e);
    RunSnoc(s, ins[..k], ins[k]);
    assert ins[..k + 1] == ins[..k] + [ins[k]];
  }

  lemma {:induction false} RunSnoc(s: State, ins: seq<Input>, i: Input)
    ensures Run(s, ins + [i]) == Turn(Step(Run(s, ins).s, i).s, Run(s, ins).sent + Step(Run(s, ins).s, i).sent)
    decreases |ins|
  {
    hide Step;
    if ins == [] {
      assert (ins + [i])[1..] == [];
    } else {
      assert (ins + [i])[1..] == ins[1..] + [i];
      RunSnoc(Step(s, ins[0]).s, ins[1..], i);
    }
  }

  function Ticks(ins: seq<Input>): nat
  {
    if ins == [] then 0 else (if ins[0].Tick? then 1 else 0) + Ticks(ins[1..])
  }

  ghost predicate HasUp(es: seq<Event>)
  {
    exists j :: 0 <= j < |es| && es[j].Up?
  }

  /** A tick while touching either lifts or counts one more frame. */
  lemma TickCounts(s: State, i: Input)
    requires Inv(s) && s.touch
    ensures var t := Step(s, i);
      HasUp(t.sent) || (i.Tick? && t.s.touch && t.s.frames == s.frames + 1)
  {
    var t := Step(s, i);
    StepLegal(s, i);
    assert t.sent != [];
    if t.sent[0].Up? {
      assert HasUp(t.sent);
    }
  }

  lemma {:induction false} LiftedInTime(s: State, ins: seq<Input>)
    requires Inv(s) && s.touch && Ticks(ins) >= 20 - s.frames
    ensures HasUp(Run(s, ins).sent)
    decreases |ins|
  {
    hide Step, Inv;
    FramesBelow(s);
    var t := Step(s, ins[0]);
    TickCounts(s, ins[0]);
    StepInv(s, ins[0]);
    var rest := Run(t.s, ins[1..]).sent;
    if HasUp(t.sent) {
      var j :| 0 <= j < |t.sent| && t.sent[j].Up?;
      assert (t.sent + rest)[j].Up?;
    } else {
      LiftedInTime(t.s, ins[1..]);
      var j :| 0 <= j < |rest| && rest[j].Up?;
      assert (t.sent + rest)[|t.sent| + j].Up?;
    }
  }

  function SumX(ins: seq<Input>): real
  {
    if ins == [] then 0.0 else (if ins[0].Tick? then ins[0].stepX else 0.0) + SumX(ins[1..])
  }

  function SumY(ins: seq<Input>): real
  {
    if ins == [] then 0.0 else (if ins[0].Tick? then ins[0].stepY else 0.0) + SumY(ins[1..])
  }

  /**
   * As long as a stroke is not lifted, every input is a tick with one Move, the finger is displaced by
   * the sum of the steps, and there are at most 19 Moves in all.
   */
  lemma {:induction false} StrokeAddsUp(s: State, ins: seq<Input>)
    requires Inv(s) && s.touch && !HasUp(Run(s, ins).sent)
    ensures var r := Run(s, ins);
      && r.s.touch && r.s.x == s.x + SumX(ins) && r.s.y == s.y + SumY(ins)
      && |r.sent| == |ins| == Ticks(ins) <= MAX_MOVES - s.frames
    decreases |ins|
  {
    hide Step, Inv;
    if ins == [] {
      FramesBelow(s);
    } else {
      var t := Step(s, ins[0]);
      var rest := Run(t.s, ins[1..]).sent;
      NoUpInParts(t.sent, rest);
      TickCounts(s, ins[0]);
      OneMove(s, ins[0]);
      StepInv(s, ins[0]);
      StrokeAddsUp(t.s, ins[1..]);
    }
  }

  lemma NoUpInParts(a: seq<Event>, b: seq<Event>)
    requires !HasUp(a + b)
    ensures !HasUp(a) && !HasUp(b)
  {
    forall j | 0 <= j < |a| ensures !a[j].Up? {
      assert (a + b)[j] == a[j];
    }
    forall j | 0 <= j < |b| ensures !b[j].Up? {
      assert (a + b)[|a| + j] == b[j];
    }
  }

  lemma OneMove(s: State, i: Input)
    requires Inv(s) && s.touch && i.Tick? && !HasUp(Step(s, i).sent)
    ensures var t := Step(s, i);
      |t.sent| == 1 && t.s.touch && t.s.x == s.x + i.stepX && t.s.y == s.y + i.stepY && t.s.frames == s.frames + 1
  {
    var t := Step(s, i);
    assert t.sent != [] ==> !t.sent[0].Up?;
    MovesExactlyWhile(s, i);
    MovesInBox(s, i, t.sent[0]);
  }

  lemma FramesBelow(s: State)
    requires Inv(s) && s.touch
    ensures s.frames < 20
  {
  }

  /** Whatever happens, a Down is followed by an Up within the next 20 ticks. */
  lemma DownIsLifted(s: State, i: Input, j: nat, ins: seq<Input>)
    requires Inv(s) && j < |Step(s, i).sent| && Step(s, i).sent[j].Down?
    requires Ticks(ins) >= 20
    ensures HasUp(Run(Step(s, i).s, ins).sent)
  {
    hide Step;
    StepLegal(s, i);
    StepInv(s, i);
    LiftedInTime(Step(s, i).s, ins);
  }

  // ---------- The statics of the source ----------

  /** The simulated finger and the log of hid_touch_event calls. */
  class Finger {
    var touchDown: bool
    var lockedPlayer: Target
    var normX: real
    var normY: real
    var strokeFrames: int
    var recenterPause: int
    var sent: seq<Event>

    ghost function Now(): State
      reads this
    {
      State(touchDown, lockedPlayer, normX, normY, strokeFrames, recenterPause)
    }

    constructor ()
      ensures Now() == Initial() && sent == []
    {
      touchDown, lockedPlayer, normX, normY, strokeFrames, recenterPause, sent := false, -1, 0.72, 0.50, 0, 0, [];
    }

    /** 1 is down, 2 is moved, anything else is up. */
    method HidTouchEvent(x: real, y: real, touchState: int)
      modifies this
      ensures Turn(Now(), sent) == Send(Turn(old(Now()), old(sent)),
                if touchState == 1 then Down(x, y) else if touchState == 2 then Move(x, y) else Up(x, y))
    {
      var cx, cy := x, y;
      if cx < 0.03 { cx := 0.03; }
      if cx > 0.97 { cx := 0.97; }
      if cy < 0.03 { cy := 0.03; }
      if cy > 0.97 { cy := 0.97; }
      if touchState == 1 {
        touchDown, sent := true, sent + [Down(cx, cy)];
      } else if touchState == 2 {
        touchDown, sent := true, sent + [Move(cx, cy)];
      } else {
        touchDown, sent := false, sent + [Up(cx, cy)];
      }
    }

    /** The gesture part of timer_tick. */
    method TimerTick(i: Input)
      requires i.Tick?
      modifies this
      ensures Now() == OnTick(old(Now()), i).s && sent == old(sent) + OnTick(old(Now()), i).sent
    {
      hide Clamp;
      if i.active {
        var baseX := BaseX(i.zone);
        if i.best != lockedPlayer {
          if touchDown { HidTouchEvent(normX, normY, 0); }
          lockedPlayer := i.best;
          normX, normY := baseX, BASE_Y;
          strokeFrames := 0;
          recenterPause := 1;
        }
        if i.best >= 0 {
          SteerFinger(i);
        } else {
          if touchDown {
            HidTouchEvent(baseX, BASE_Y, 0);
            strokeFrames := 0;
          }
          lockedPlayer := -1;
          recenterPause := 0;
        }
      } else {
        if touchDown {
          HidTouchEvent(BaseX(i.zone), 0.50, 0);
          strokeFrames := 0;
        }
        lockedPlayer := -1;
        recenterPause := 0;
      }
    }

    /** The branch of timer_tick with a target. */
    method SteerFinger(i: Input)
      requires i.Tick?
      modifies this
      ensures Turn(Now(), sent) == Steer(Turn(old(Now()), old(sent)), i)
    {
      hide Clamp;
      var baseX := BaseX(i.zone);
      if recenterPause > 0 {
        recenterPause := recenterPause - 1;
        if recenterPause == 0 {
          normX, normY := baseX, BASE_Y;
          strokeFrames := 0;
          HidTouchEvent(baseX, BASE_Y, 1);
        }
      } else if i.dist > 2.5 {
        if !touchDown {
          normX, normY := baseX, BASE_Y;
          strokeFrames := 0;
          HidTouchEvent(baseX, BASE_Y, 1);
        } else {
          strokeFrames := strokeFrames + 1;
          var nextX, nextY := normX + i.stepX, normY + i.stepY;
          if strokeFrames >= 20 || nextX < MinX(i.zone) || nextX > MaxX(i.zone) || nextY < MIN_Y || nextY > MAX_Y {
            HidTouchEvent(normX, normY, 0);
            normX, normY := baseX, BASE_Y;
            strokeFrames := 0;
            recenterPause := 1;
          } else {
            normX, normY := nextX, nextY;
            HidTouchEvent(normX, normY, 2);
          }
        }
      } else if touchDown {
        HidTouchEvent(normX, normY, 0);
        normX, normY := baseX, BASE_Y;
        strokeFrames := 0;
      }
    }

    /** aim_btn_touchesEnded and aim_btn_touchesCancelled. */
    method AimReleased(zone: int)
      modifies this
      ensures Now() == OnRelease(old(Now()), zone).s && sent == old(sent) + OnRelease(old(Now()), zone).sent
    {
      if touchDown {
        var bx := if zone == 0 then 0.20 else 0.75;
        HidTouchEvent(bx, 0.50, 0);
      }
      lockedPlayer := -1;
    }
  }
}
