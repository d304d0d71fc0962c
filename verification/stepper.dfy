/** The motion half of main.c: the `TIMER1_COMPA` interrupt that steps two stepper
    channels toward their targets, sharing one driver-enable line.

    The interrupt's state is a `Drive` value and one tick is the function `Tick`;
    main.c's globals live in the Controller module, whose `Tick` method is proved
    to perform this function. */
module Stepper {

  /** One channel: `chN_target_steps`, `chN_current_steps` and the levels of its
      STEP and DIR pins. */
  datatype Channel = Channel(target: int, current: int, stepPin: bool, dirPin: bool)

  /** What a tick does to the STEP pin of a channel that is on target: as written it
      leaves the pin alone; the corrected rule drives it low. */
  datatype PinRule = AsWritten | LowerOnTarget

  /** `enabled`, the level of the shared enable pin (active low), `step_high`, and
      the two channels. */
  datatype Drive = Drive(enabled: bool, enablePin: bool, stepHigh: bool, ch1: Channel, ch2: Channel)

  predicate OnTarget(c: Channel) {
    c.current == c.target
  }

  predicate Settled(d: Drive) {
    OnTarget(d.ch1) && OnTarget(d.ch2)
  }

  /** Steps still to go. */
  function Distance(c: Channel): nat {
    if c.current < c.target then c.target - c.current else c.current - c.target
  }

  function MaxDistance(d: Drive): nat {
    if Distance(d.ch1) < Distance(d.ch2) then Distance(d.ch2) else Distance(d.ch1)
  }

  /** The per-channel block of the interrupt: set the direction, then either raise
      STEP and count the step (on the low phase) or lower STEP (on the high phase). */
  function Advance(c: Channel, stepHigh: bool, rule: PinRule): Channel {
    if c.current < c.target then
      if !stepHigh then c.(dirPin := true, stepPin := true, current := c.current + 1)
      else c.(dirPin := true, stepPin := false)
    else if c.current > c.target then
      if !stepHigh then c.(dirPin := false, stepPin := true, current := c.current - 1)
      else c.(dirPin := false, stepPin := false)
    else if rule == LowerOnTarget then c.(stepPin := false)
    else c
  }

  /** `ISR(TIMER1_COMPA_vect)`. */
  function Tick(d: Drive, rule: PinRule): Drive {
    if !d.enabled && !Settled(d) then d.(enabled := true, enablePin := false)
    else
      var e := if d.enabled && Settled(d) then d.(enabled := false, enablePin := true) else d;
      e.(ch1 := Advance(e.ch1, e.stepHigh, rule), ch2 := Advance(e.ch2, e.stepHigh, rule), stepHigh := !e.stepHigh)
  }

  /** n successive ticks. */
  function Ticks(d: Drive, rule: PinRule, n: nat): Drive
    decreases n
  {
    if n == 0 then d else Ticks(Tick(d, rule), rule, n - 1)
  }

  // ---------------------------------------------------------------------------
  // One tick

  /** The enable line is shared: a tick that finds the driver off and either channel
      off target only switches the driver on; a tick that finds it on and both
      channels on target switches it off and carries on. */
  lemma SharedEnable(d: Drive, rule: PinRule)
    ensures !d.enabled && !Settled(d) ==> Tick(d, rule) == d.(enabled := true, enablePin := false)
    ensures d.enabled && Settled(d) ==>
      && !Tick(d, rule).enabled && Tick(d, rule).enablePin
      && Tick(d, rule).stepHigh == !d.stepHigh
      && Tick(d, rule).ch1.current == d.ch1.current && Tick(d, rule).ch2.current == d.ch2.current
  {
  }

  /** The enable pin is high exactly when the driver is off, and ticks keep it so. */
  lemma EnablePinFollows(d: Drive, rule: PinRule)
    requires d.enablePin == !d.enabled
    ensures Tick(d, rule).enablePin == !Tick(d, rule).enabled
  {
  }

  /** What one tick does to one channel: the target is kept; the position moves by at
      most one step, toward the target and never past it, and only on a tick that
      found the driver on and `step_high` false. */
  predicate SingleStep(c: Channel, c': Channel, d: Drive) {
    && c'.target == c.target
    && (c.current <= c.target ==> c.current <= c'.current <= c.target)
    && (c.current >= c.target ==> c.target <= c'.current <= c.current)
    && (c'.current != c.current ==> d.enabled && !d.stepHigh && Distance(c') + 1 == Distance(c))
  }

  lemma TickSteps(d: Drive, rule: PinRule)
    ensures SingleStep(d.ch1, Tick(d, rule).ch1, d)
    ensures SingleStep(d.ch2, Tick(d, rule).ch2, d)
  {
  }

  /** `step_high` toggles on every tick except the one that switches the driver on. */
  lemma PhaseToggles(d: Drive, rule: PinRule)
    ensures Tick(d, rule).stepHigh == if !d.enabled && !Settled(d) then d.stepHigh else !d.stepHigh
  {
  }

  /** A channel on target stays there. */
  lemma {:induction false} SettledStays(d: Drive, rule: PinRule, n: nat)
    requires Settled(d)
    ensures Settled(Ticks(d, rule, n))
    ensures Ticks(d, rule, n).ch1.target == d.ch1.target && Ticks(d, rule, n).ch2.target == d.ch2.target
    decreases n
  {
    if n > 0 {
      TickSteps(d, rule);
      SettledStays(Tick(d, rule), rule, n - 1);
    }
  }

  // ---------------------------------------------------------------------------
  // Convergence

  /** Over two ticks with the driver on, every channel off target comes exactly one
      step closer, and one on target stays put. */
  lemma TwoTicks(d: Drive, rule: PinRule)
    requires d.enabled
    ensures var d2 := Ticks(d, rule, 2);
      && d2.ch1.target == d.ch1.target && d2.ch2.target == d.ch2.target
      && Distance(d2.ch1) == (if OnTarget(d.ch1) then 0 else Distance(d.ch1) - 1)
      && Distance(d2.ch2) == (if OnTarget(d.ch2) then 0 else Distance(d.ch2) - 1)
      && (d2.enabled || Settled(d2))
  {
    var d1 := Tick(d, rule);
    assert Ticks(d1, rule, 1) == Ticks(Tick(d1, rule), rule, 0);
    TickSteps(d, rule);
    TickSteps(d1, rule);
  }

  /** With the driver on and the targets left alone, both channels reach their
      targets within two ticks per step of the longer move. */
  lemma {:induction false} ConvergesEnabled(d: Drive, rule: PinRule)
    requires d.enabled || Settled(d)
    ensures Settled(Ticks(d, rule, 2 * MaxDistance(d)))
    ensures Ticks(d, rule, 2 * MaxDistance(d)).ch1.target == d.ch1.target
    ensures Ticks(d, rule, 2 * MaxDistance(d)).ch2.target == d.ch2.target
    decreases MaxDistance(d)
  {
    var m := MaxDistance(d);
    if m > 0 {
      var d2 := Ticks(d, rule, 2);
      TwoTicks(d, rule);
      assert MaxDistance(d2) == m - 1;
      ConvergesEnabled(d2, rule);
      TicksAdd(d, rule, 2, 2 * (m - 1));
    }
  }

  /** From any state, both channels are on target after 1 + 2 * (longest distance)
      ticks. */
  lemma Converges(d: Drive, rule: PinRule)
    ensures Settled(Ticks(d, rule, 1 + 2 * MaxDistance(d)))
  {
    var m := MaxDistance(d);
    if Settled(d) {
      SettledStays(d, rule, 1 + 2 * m);
    } else if !d.enabled {
      var d1 := Tick(d, rule);
      assert MaxDistance(d1) == m;
      ConvergesEnabled(d1, rule);
      TicksAdd(d, rule, 1, 2 * m);
    } else {
      ConvergesEnabled(d, rule);
      SettledStays(Ticks(d, rule, 2 * m), rule, 1);
      TicksAdd(d, rule, 2 * m, 1);
    }
  }

  lemma {:induction false} TicksAdd(d: Drive, rule: PinRule, m: nat, n: nat)
    ensures Ticks(d, rule, m + n) == Ticks(Ticks(d, rule, m), rule, n)
    decreases m
  {
    if m > 0 {
      TicksAdd(Tick(d, rule), rule, m - 1, n);
    }
  }

  // ---------------------------------------------------------------------------
  // 32-bit range

  predicate Int32(x: int) {
    -0x8000_0000 <= x < 0x8000_0000
  }

  predicate InRange(d: Drive) {
    Int32(d.ch1.target) && Int32(d.ch1.current) && Int32(d.ch2.target) && Int32(d.ch2.current)
  }

  /** The `int32_t` positions never wrap: a tick moves a position toward its target,
      which is itself an `int32_t`. */
  lemma TickInRange(d: Drive, rule: PinRule)
    requires InRange(d)
    ensures InRange(Tick(d, rule))
  {
    TickSteps(d, rule);
  }

  // ---------------------------------------------------------------------------
  // The STEP pin

  /** A tick counts a step on a channel (its position changes). */
  predicate Counted(c: Channel, c': Channel) {
    c'.current != c.current
  }

  /** The driver moves on a rising STEP edge: a counted step should raise a pin that
      was low. */
  predicate RisingEdge(c: Channel, c': Channel) {
    !c.stepPin && c'.stepPin
  }

  /** The tick sequence of the finding: a move to 1, three ticks, a move to 2 and two
      more ticks.  The tick that reaches the first target leaves STEP high; the
      next move's first counted step raises a pin that is already high. */
  lemma SilentStepAsWritten()
    ensures var d0 := Drive(false, true, false, Channel(1, 0, false, false), Channel(0, 0, false, true));
      var d3 := Ticks(d0, AsWritten, 3);
      var d4 := Tick(d3.(ch1 := d3.ch1.(target := 2)), AsWritten);
      var d5 := Tick(d4, AsWritten);
      && Settled(d3) && d3.ch1.stepPin
      && Counted(d4.ch1, d5.ch1) && !RisingEdge(d4.ch1, d5.ch1)
  {
    var d0 := Drive(false, true, false, Channel(1, 0, false, false), Channel(0, 0, false, true));
    var d1 := Tick(d0, AsWritten);
    var d2 := Tick(d1, AsWritten);
    var d3 := Tick(d2, AsWritten);
    assert d1 == d0.(enabled := true, enablePin := false);
    assert d2.ch1 == Channel(1, 1, true, true) && d2.stepHigh;
    assert d3.ch1 == d2.ch1 && !d3.stepHigh && !d3.enabled;
    assert Ticks(d0, AsWritten, 3) == d3;
  }

  /** With the corrected rule, a high STEP pin implies the high phase. */
  predicate PinsLowOnLowPhase(d: Drive) {
    (d.ch1.stepPin || d.ch2.stepPin) ==> d.stepHigh
  }

  /** The corrected rule keeps that invariant, whatever the foreground does to the
      targets between ticks, and under it every counted step is a rising edge. */
  lemma RisingEdgeEveryStep(d: Drive)
    requires PinsLowOnLowPhase(d)
    ensures PinsLowOnLowPhase(Tick(d, LowerOnTarget))
    ensures Counted(d.ch1, Tick(d, LowerOnTarget).ch1) ==> RisingEdge(d.ch1, Tick(d, LowerOnTarget).ch1)
    ensures Counted(d.ch2, Tick(d, LowerOnTarget).ch2) ==> RisingEdge(d.ch2, Tick(d, LowerOnTarget).ch2)
  {
    TickSteps(d, LowerOnTarget);
  }

  /** The invariant only mentions pins and the phase, so a foreground change of
      targets or positions keeps it. */
  lemma RetargetKeepsPins(d: Drive, t1: int, c1: int, t2: int, c2: int)
    requires PinsLowOnLowPhase(d)
    ensures PinsLowOnLowPhase(d.(ch1 := d.ch1.(target := t1, current := c1), ch2 := d.ch2.(target := t2, current := c2)))
  {
  }
}
