// Stepper motor driver (TM4C123, C version): velocity ramp run from a
// periodic timer, PWM step output with automatic clock-divider selection,
// limit-switch protection and stall detection.
//
// The driver's statics (_Config.Params, _Status, _DeltaVel and the static
// LastEncoderValue of Stepper_CheckForStall) are the fields of class
// Stepper. The peripherals it drives are summarised by a Peripherals value:
// the PWM clock divider, the enable line, the PWM generator, the ramp timer
// and the generator's period and pulse-width registers. Each operation is
// specified by a pure function on an Axis snapshot; the lemmas about those
// functions state what the driver promises.
module StepperDriver {
  import opened AuxFunctions

  /** stepper_params_t: configuration plus the values the driver maintains itself. */
  datatype StepperParams = StepperParams(
    VelMax: real,             // maximum velocity (m/s)
    AccMax: real,             // maximum acceleration (m/s^2)
    Kv: real,                 // step pulses per second for 1 m/s
    VelUpdateFrequency: nat,  // ramp timer frequency (Hz), uint16
    VelMin: real,             // slowest velocity outside the PWM dead zone
    PwmDz: nat,               // PWM dead zone: lowest reachable frequency (Hz)
    PwmPeriod: nat,           // PWM period in clock ticks, uint32
    PwmClock: nat)            // PWM module clock (Hz)

  /** stepper_status_t. Dir is true for forward. */
  datatype StepperStatus = StepperStatus(
    Enabled: bool,
    Dir: bool,
    TargetVel: real,
    CurrentVel: real,
    CurrentAcc: real,
    PwmFrequency: nat)

  /** stepper_status_t_default. */
  const DefaultStatus := StepperStatus(false, false, 0.0, 0.0, 0.0, 0)

  /** The PWM clock divider settings of SysCtlPWMClockSet. */
  datatype PwmDivider = Div1 | Div2 | Div4 | Div8 | Div16 | Div32 | Div64

  /**
   * The peripherals the driver drives. EnableLine is true while the motor
   * driver's active-low enable input is held low, i.e. while it is energised.
   */
  datatype Peripherals = Peripherals(
    Divider: PwmDivider,
    EnableLine: bool,
    PwmRunning: bool,
    TimerOn: bool,
    PeriodReg: nat,
    PulseWidth: nat)

  /** Everything one operation reads or writes. */
  datatype Axis = Axis(status: StepperStatus, params: StepperParams, deltaVel: real, io: Peripherals, sysClock: nat)

  const UInt32Modulus: int := 0x1_0000_0000

  /** Configuration the driver's arithmetic relies on. */
  predicate WellFormed(a: Axis) {
    a.params.Kv > 0.0 && 0 < a.params.VelUpdateFrequency < 0x1_0000
  }

  // ---------------------------------------------------------------------
  // PWM clock

  /** The right shift _GetPwmClock applies for each divider setting. */
  function ClockShifts(d: PwmDivider): (r: nat)
    ensures r <= 6
    ensures r == 0 <==> d == Div1
  {
    match d
    case Div1 => 0
    case Div2 => 1
    case Div4 => 2
    case Div8 => 3
    case Div16 => 4
    case Div32 => 5
    case Div64 => 6
  }

  function Pow2(k: nat): (r: nat)
    ensures r >= 1
  {
    if k == 0 then 1 else 2 * Pow2(k - 1)
  }

  /** _GetPwmClock: the system clock shifted right by the divider's shift count. */
  function GetPwmClock(sysClock: nat, d: PwmDivider): (r: nat)
    ensures r <= sysClock
    ensures d == Div1 ==> r == sysClock
    ensures r * Pow2(ClockShifts(d)) <= sysClock < (r + 1) * Pow2(ClockShifts(d))
  {
    var p := Pow2(ClockShifts(d));
    DivisionBounds(sysClock, p);
    sysClock / p
  }

  /** The PWM period register value for a clock and a non-zero frequency: clock/freq - 1 in uint32. */
  function Period(clock: nat, freq: nat): (r: nat)
    requires freq > 0
    ensures r < UInt32Modulus
    ensures freq <= clock < UInt32Modulus ==> r + 1 == clock / freq
    ensures clock < freq ==> r == UInt32Modulus - 1
  {
    DivisionBounds(clock, freq);
    PeriodNoWrap(clock / freq);
    (clock / freq - 1) % UInt32Modulus
  }

  /** Without wrap-around the period register counts freq-sized periods of the clock: one full period fits, two do not. */
  lemma PeriodMatchesFrequency(clock: nat, freq: nat)
    requires 0 < freq <= clock < UInt32Modulus
    ensures (Period(clock, freq) + 1) * freq <= clock < (Period(clock, freq) + 2) * freq
  {
    DivisionBounds(clock, freq);
  }

  lemma PeriodNoWrap(q: nat)
    ensures 1 <= q <= UInt32Modulus ==> (q - 1) % UInt32Modulus == q - 1
    ensures q == 0 ==> (q - 1) % UInt32Modulus == UInt32Modulus - 1
  {
  }

  lemma DivisionBounds(n: nat, d: nat)
    requires d > 0
    ensures (n / d) * d <= n < (n / d + 1) * d
    ensures n < d <==> n / d == 0
    ensures n / d <= n
    ensures d == 1 ==> n / d == n
  {
    var q := n / d;
    assert n == q * d + n % d;
    assert (q + 1) * d == q * d + d;
    if q >= 1 {
      AtLeastOneFactor(q, d);
    }
  }

  lemma AtLeastOneFactor(q: nat, d: nat)
    requires q >= 1 && d >= 1
    ensures q * d >= d && q * d >= q
  {
    assert q * d == d + (q - 1) * d;
    assert q * d == q + q * (d - 1);
  }


  /** The pulse rate for a velocity: Kv*|v| converted to uint32 (truncated). */
  function PulseRate(kv: real, v: real): (r: nat)
    requires kv >= 0.0
    ensures r as real <= kv * FastFabs(v) < r as real + 1.0
  {
    (kv * FastFabs(v)).Floor
  }

  /** The clock fields are those a divider switch computes. */
  predicate ClockConsistent(a: Axis)
    requires WellFormed(a)
  {
    a.params.PwmClock == GetPwmClock(a.sysClock, a.io.Divider) &&
    a.params.PwmDz == a.params.PwmClock / 0x1_0000 + 1 &&
    a.params.VelMin == a.params.PwmDz as real / a.params.Kv
  }

  /**
   * _SetPwmFreq divides the PWM clock by the new frequency unless it
   * returns early in the dead zone; PeriodDefined says the division is not
   * by zero.
   */
  predicate PeriodDefined(a: Axis, f: nat) {
    f != 0 || (a.status.Enabled && (a.params.PwmDz > 0 || a.params.PwmClock == a.sysClock))
  }

  /** The divider _SetPwmFreq selects: /1 above 3 kHz, /64 below 2 kHz, with hysteresis. */
  function SelectDivider(a: Axis, f: nat): (r: PwmDivider)
    ensures f > 3000 && a.params.PwmClock != a.sysClock ==> r == Div1
    ensures f < 2000 && a.params.PwmClock == a.sysClock ==> r == Div64
    ensures !(f > 3000 && a.params.PwmClock != a.sysClock) && !(f < 2000 && a.params.PwmClock == a.sysClock)
      ==> r == a.io.Divider
  {
    if f > 3000 && a.params.PwmClock != a.sysClock then Div1
    else if f < 2000 && a.params.PwmClock == a.sysClock then Div64
    else a.io.Divider
  }

  /** _SetPwmFreq decides to switch the PWM clock divider. */
  predicate ClockSwitch(a: Axis, f: nat) {
    (f > 3000 && a.params.PwmClock != a.sysClock) || (f < 2000 && a.params.PwmClock == a.sysClock)
  }

  /** The first half of _SetPwmFreq: the divider switch and the clock fields it recomputes. */
  function SwitchClock(a: Axis, f: nat): (r: Axis)
    requires WellFormed(a)
    ensures WellFormed(r)
    ensures r.status == a.status && r.deltaVel == a.deltaVel && r.sysClock == a.sysClock
    ensures r.io == a.io.(Divider := SelectDivider(a, f))
    ensures r.params == a.params.(PwmClock := r.params.PwmClock, PwmDz := r.params.PwmDz, VelMin := r.params.VelMin)
    // A switch recomputes the clock, the dead zone and the minimum velocity from the new divider.
    ensures ClockSwitch(a, f) ==> ClockConsistent(r) && r.params.PwmDz >= 1
    ensures !ClockSwitch(a, f) ==> r == a
    ensures ClockConsistent(a) ==> ClockConsistent(r)
  {
    if ClockSwitch(a, f) then
      var div := SelectDivider(a, f);
      var clock := GetPwmClock(a.sysClock, div);
      var dz := clock / 0x1_0000 + 1;
      a.(params := a.params.(PwmClock := clock, PwmDz := dz, VelMin := dz as real / a.params.Kv),
         io := a.io.(Divider := div))
    else a
  }

  /** The division of the second half of _SetPwmFreq is not by zero. */
  predicate ProgramDefined(a: Axis, f: nat) {
    f != 0 || (a.status.Enabled && a.params.PwmDz > 0)
  }

  lemma SwitchKeepsDefined(a: Axis, f: nat)
    requires WellFormed(a) && PeriodDefined(a, f)
    ensures ProgramDefined(SwitchClock(a, f), f)
  {
  }

  /** The second half of _SetPwmFreq: the dead-zone check and the period registers. */
  function ProgramPeriod(a: Axis, f: nat): (r: Axis)
    requires WellFormed(a) && ProgramDefined(a, f)
    ensures WellFormed(r)
    ensures r.status == a.status.(PwmFrequency := f) && r.deltaVel == a.deltaVel && r.sysClock == a.sysClock
    ensures r.params == a.params.(PwmPeriod := r.params.PwmPeriod)
    ensures r.io.Divider == a.io.Divider && r.io.TimerOn == a.io.TimerOn && r.io.PwmRunning == a.io.PwmRunning
    // Dead zone: an energised axis asked for less than PwmDz is de-energised and nothing is programmed.
    ensures f < a.params.PwmDz && a.status.Enabled ==>
      r.params == a.params && r.io == a.io.(EnableLine := false)
    // Otherwise the period is programmed, at 50 % duty when it changes, and an enabled axis is energised.
    ensures !(f < a.params.PwmDz && a.status.Enabled) ==>
      f > 0 && r.params.PwmPeriod == Period(a.params.PwmClock, f) && r.io.PeriodReg == r.params.PwmPeriod &&
      r.io.EnableLine == (a.status.Enabled || a.io.EnableLine)
    ensures !(f < a.params.PwmDz && a.status.Enabled) && a.io.PeriodReg != r.params.PwmPeriod ==>
      r.io.PulseWidth == r.params.PwmPeriod / 2
    ensures !(f < a.params.PwmDz && a.status.Enabled) && a.io.PeriodReg == r.params.PwmPeriod ==>
      r.io.PulseWidth == a.io.PulseWidth
    ensures ClockConsistent(a) ==> ClockConsistent(r)
  {
    var s := a.status.(PwmFrequency := f);
    if f < a.params.PwmDz && s.Enabled then
      a.(status := s, io := a.io.(EnableLine := false))
    else
      var line := if s.Enabled then true else a.io.EnableLine;
      var period := Period(a.params.PwmClock, f);
      var io := a.io.(EnableLine := line);
      var io2 := if period != io.PeriodReg then io.(PeriodReg := period, PulseWidth := period / 2) else io;
      a.(status := s, params := a.params.(PwmPeriod := period), io := io2)
  }

  /** _SetPwmFreq. */
  function SetPwmFreqSpec(a: Axis, f: nat): (r: Axis)
    requires WellFormed(a) && PeriodDefined(a, f)
    ensures WellFormed(r)
    ensures r.status == a.status.(PwmFrequency := f) && r.deltaVel == a.deltaVel && r.sysClock == a.sysClock
    ensures r.io.TimerOn == a.io.TimerOn && r.io.PwmRunning == a.io.PwmRunning
    ensures r.io.Divider == SelectDivider(a, f)
    ensures r.params.VelMax == a.params.VelMax && r.params.AccMax == a.params.AccMax &&
            r.params.Kv == a.params.Kv && r.params.VelUpdateFrequency == a.params.VelUpdateFrequency
    ensures ClockConsistent(a) ==> ClockConsistent(r)
  {
    SwitchKeepsDefined(a, f);
    ProgramPeriod(SwitchClock(a, f), f)
  }

  // ---------------------------------------------------------------------
  // Stop, velocity, ramp

  /** Stepper_Stop: de-energise, stop the PWM, zero the velocity and the acceleration. */
  function StopSpec(a: Axis): (r: Axis)
    requires WellFormed(a)
    ensures WellFormed(r)
    ensures !r.status.Enabled && !r.io.EnableLine && !r.io.PwmRunning
    ensures r.status.PwmFrequency == 0 && r.status.CurrentVel == 0.0 && r.status.CurrentAcc == 0.0
    ensures r.status.TargetVel == a.status.TargetVel && r.status.Dir == a.status.Dir
    ensures r.params == a.params && r.deltaVel == a.deltaVel && r.sysClock == a.sysClock
    ensures r.io.(EnableLine := false, PwmRunning := false) == a.io.(EnableLine := false, PwmRunning := false)
  {
    a.(status := a.status.(Enabled := false, PwmFrequency := 0, CurrentVel := 0.0, CurrentAcc := 0.0),
       io := a.io.(EnableLine := false, PwmRunning := false))
  }

  /** Stopping twice is the same as stopping once. */
  lemma StopIdempotent(a: Axis)
    requires WellFormed(a)
    ensures StopSpec(StopSpec(a)) == StopSpec(a)
  {
  }

  /**
   * The velocity _SetVel records: the target itself when the requested
   * velocity is within one pulse per second of it, the request otherwise.
   */
  function Snap(v: real, target: real, kv: real): (r: real)
    requires kv > 0.0
    ensures r == v || r == target
    ensures WithinOnePulse(v, target, kv) ==> r == target
    ensures !WithinOnePulse(v, target, kv) ==> r == v
  {
    if WithinOnePulse(v, target, kv) then target else v
  }

  /** Two velocities are less than one pulse per second apart. */
  predicate WithinOnePulse(v: real, target: real, kv: real) {
    FastFabs(v - target) * kv < 1.0
  }

  predicate SetVelDefined(a: Axis, v: real)
    requires WellFormed(a)
  {
    v == 0.0 || PeriodDefined(a, PulseRate(a.params.Kv, v))
  }

  /** _SetVel. The PWM frequency follows the requested velocity, not the recorded one. */
  function SetVelSpec(a: Axis, v: real): (r: Axis)
    requires WellFormed(a) && SetVelDefined(a, v)
    ensures WellFormed(r)
    ensures v == 0.0 ==> r == StopSpec(a)
    ensures v != 0.0 ==>
      r.status.CurrentVel == Snap(v, a.status.TargetVel, a.params.Kv) &&
      r.status.PwmFrequency == PulseRate(a.params.Kv, v) &&
      r.status.Enabled == a.status.Enabled && r.status.Dir == a.status.Dir &&
      r.status.CurrentAcc == a.status.CurrentAcc
    ensures r.status.TargetVel == a.status.TargetVel && r.deltaVel == a.deltaVel && r.sysClock == a.sysClock
    ensures ClockConsistent(a) ==> ClockConsistent(r)
  {
    if v == 0.0 then StopSpec(a) else DriveSpec(a, v)
  }

  /**
   * The rest of _SetVel for a velocity it does not stop at: record it
   * (snapped to the target) and drive the PWM at its pulse rate.
   */
  function DriveSpec(a: Axis, v: real): (r: Axis)
    requires WellFormed(a) && PeriodDefined(a, PulseRate(a.params.Kv, v))
    ensures WellFormed(r)
    ensures r.status == a.status.(CurrentVel := Snap(v, a.status.TargetVel, a.params.Kv),
                                  PwmFrequency := PulseRate(a.params.Kv, v))
    ensures r.deltaVel == a.deltaVel && r.sysClock == a.sysClock && r.io.TimerOn == a.io.TimerOn
    ensures ClockConsistent(a) ==> ClockConsistent(r)
  {
    var cur := Snap(v, a.status.TargetVel, a.params.Kv);
    SetPwmFreqSpec(a.(status := a.status.(CurrentVel := cur)), PulseRate(a.params.Kv, v))
  }

  /**
   * One ramp step of an energised axis: the target when it is less than
   * one step away, otherwise one step of `delta` toward it.
   */
  function RampToward(cur: real, target: real, delta: real): (r: real)
    ensures delta > 0.0 ==> Between(r, cur, target)
    ensures FastFabs(cur - target) < delta ==> r == target
    ensures delta > 0.0 && FastFabs(cur - target) >= delta ==> FastFabs(r - target) == FastFabs(cur - target) - delta
    ensures cur == target ==> r == target
  {
    if FastFabs(cur - target) < delta then target
    else if cur < target then cur + delta
    else if cur > target then cur - delta
    else cur
  }

  /** The velocity _CalculateVel asks for before the direction update. */
  function CandidateVelocity(cur: real, target: real, acc: real, enabled: bool, velMin: real, delta: real): (r: real)
    ensures acc < 0.0 ==> r == target
    ensures acc == 0.0 ==> r == cur
    ensures acc > 0.0 && !enabled ==> r == (if target < 0.0 then -velMin else velMin)
    ensures acc > 0.0 && enabled ==> r == RampToward(cur, target, delta)
  {
    if acc < 0.0 then target
    else if acc > 0.0 then
      if !enabled then (if target < 0.0 then -velMin else velMin)
      else RampToward(cur, target, delta)
    else cur
  }

  /** The sign bits of two floats differ (-0.0 is not distinguished from 0.0). */
  predicate SignBitsDiffer(x: real, y: real) {
    (x < 0.0) != (y < 0.0)
  }

  /**
   * The direction after a tick: re-derived from the sign of the target when
   * the velocity changes sign, when the axis is not energised, or for an
   * instant change; kept otherwise.
   */
  function TickDirection(v: real, cur: real, target: real, enabled: bool, acc: real, dir: bool): (r: bool)
    ensures (SignBitsDiffer(v, cur) || !enabled || acc < 0.0) ==> r == (target >= 0.0)
    ensures !(SignBitsDiffer(v, cur) || !enabled || acc < 0.0) ==> r == dir
  {
    if SignBitsDiffer(v, cur) || !enabled || acc < 0.0 then target >= 0.0 else dir
  }

  function Candidate(a: Axis): real {
    CandidateVelocity(a.status.CurrentVel, a.status.TargetVel, a.status.CurrentAcc,
                      a.status.Enabled, a.params.VelMin, a.deltaVel)
  }

  /** The tick performs no division by zero. */
  predicate TickDefined(a: Axis)
    requires WellFormed(a)
  {
    a.status.CurrentVel == a.status.TargetVel || SetVelDefined(a, Candidate(a))
  }

  /** _CalculateVel, one ramp-timer tick. */
  function TickSpec(a: Axis): (r: Axis)
    requires WellFormed(a) && TickDefined(a)
    ensures WellFormed(r)
    ensures r.status.TargetVel == a.status.TargetVel && r.deltaVel == a.deltaVel
    // At the target the tick only switches the ramp timer off.
    ensures a.status.CurrentVel == a.status.TargetVel ==> r == a.(io := a.io.(TimerOn := false))
    // Otherwise the candidate velocity is applied: zero stops the axis ...
    ensures a.status.CurrentVel != a.status.TargetVel && Candidate(a) == 0.0 ==>
      !r.status.Enabled && r.status.CurrentVel == 0.0 && r.status.CurrentAcc == 0.0 && !r.io.PwmRunning
    // ... anything else is driven at its pulse rate and recorded (snapped to the target).
    ensures a.status.CurrentVel != a.status.TargetVel && Candidate(a) != 0.0 ==>
      r.status.CurrentVel == Snap(Candidate(a), a.status.TargetVel, a.params.Kv) &&
      r.status.PwmFrequency == PulseRate(a.params.Kv, Candidate(a)) &&
      r.status.Enabled == a.status.Enabled && r.status.CurrentAcc == a.status.CurrentAcc
    ensures a.status.CurrentVel != a.status.TargetVel ==>
      r.status.Dir == TickDirection(Candidate(a), a.status.CurrentVel, a.status.TargetVel,
                                    a.status.Enabled, a.status.CurrentAcc, a.status.Dir)
    ensures ClockConsistent(a) ==> ClockConsistent(r)
  {
    var s := a.status;
    if s.CurrentVel == s.TargetVel then a.(io := a.io.(TimerOn := false))
    else
      var v := Candidate(a);
      var dir := TickDirection(v, s.CurrentVel, s.TargetVel, s.Enabled, s.CurrentAcc, s.Dir);
      SetVelSpec(a.(status := s.(Dir := dir)), v)
  }

  /**
   * A tick of an energised, accelerating axis whose ramp step lands exactly
   * on zero on its way to a non-zero target (a reversal in whole steps).
   */
  predicate RampLandsOnZero(a: Axis) {
    a.status.CurrentVel != a.status.TargetVel && a.status.TargetVel != 0.0 &&
    a.status.Enabled && a.status.CurrentAcc > 0.0 && Candidate(a) == 0.0
  }

  predicate CorrectedTickDefined(a: Axis)
    requires WellFormed(a)
  {
    if RampLandsOnZero(a) then PeriodDefined(a, 0) else TickDefined(a)
  }

  /**
   * _CalculateVel with the zero crossing corrected: a ramp that lands on
   * zero on the way to a non-zero target drives the PWM at zero (the dead
   * zone de-energises the coils) and keeps ramping, instead of calling
   * Stepper_Stop. Every other tick is the tick as written.
   */
  function CorrectedTickSpec(a: Axis): (r: Axis)
    requires WellFormed(a) && CorrectedTickDefined(a)
    ensures WellFormed(r)
    ensures !RampLandsOnZero(a) ==> r == TickSpec(a)
    ensures RampLandsOnZero(a) ==>
      r.status == a.status.(Dir := TickDirection(0.0, a.status.CurrentVel, a.status.TargetVel, true,
                                                 a.status.CurrentAcc, a.status.Dir),
                            CurrentVel := Snap(0.0, a.status.TargetVel, a.params.Kv),
                            PwmFrequency := 0) &&
      r.io.TimerOn == a.io.TimerOn
    ensures r.status.TargetVel == a.status.TargetVel && r.deltaVel == a.deltaVel
    ensures ClockConsistent(a) ==> ClockConsistent(r)
  {
    if RampLandsOnZero(a) then
      var s := a.status;
      var dir := TickDirection(0.0, s.CurrentVel, s.TargetVel, s.Enabled, s.CurrentAcc, s.Dir);
      DriveSpec(a.(status := s.(Dir := dir)), 0.0)
    else TickSpec(a)
  }

  // ---------------------------------------------------------------------
  // Ramp properties

  /** The enabled ramp applied n times. */
  function RampAfter(cur: real, target: real, delta: real, n: nat): real
    decreases n
  {
    if n == 0 then cur else RampAfter(RampToward(cur, target, delta), target, delta, n - 1)
  }

  /** With a positive step the ramp is at the target after n ticks once n*delta exceeds the distance. */
  lemma {:induction false} RampReachesTarget(cur: real, target: real, delta: real, n: nat)
    decreases n
    requires delta > 0.0 && n as real * delta > FastFabs(cur - target)
    ensures RampAfter(cur, target, delta, n) == target
  {
    var next := RampToward(cur, target, delta);
    if FastFabs(cur - target) < delta {
      RampStaysAtTarget(target, delta, n - 1);
    } else {
      assert FastFabs(next - target) == FastFabs(cur - target) - delta;
      assert (n - 1) as real * delta == n as real * delta - delta;
      RampReachesTarget(next, target, delta, n - 1);
    }
  }

  lemma {:induction false} RampStaysAtTarget(target: real, delta: real, n: nat)
    decreases n
    ensures RampAfter(target, target, delta, n) == target
  {
    if n > 0 {
      RampStaysAtTarget(target, delta, n - 1);
    }
  }

  // ---------------------------------------------------------------------
  // The ramp timer, tick after tick

  /** Every one of n consecutive ticks as written is free of a division by zero. */
  predicate TicksDefined(a: Axis, n: nat)
    requires WellFormed(a)
    decreases n
  {
    n == 0 || (TickDefined(a) && TicksDefined(TickSpec(a), n - 1))
  }

  /** The axis after n ramp-timer ticks as written. */
  function TicksAfter(a: Axis, n: nat): (r: Axis)
    requires WellFormed(a) && TicksDefined(a, n)
    ensures WellFormed(r)
    ensures r.status.TargetVel == a.status.TargetVel && r.deltaVel == a.deltaVel
    ensures ClockConsistent(a) ==> ClockConsistent(r)
    decreases n
  {
    if n == 0 then a else TicksAfter(TickSpec(a), n - 1)
  }

  /** Both velocities are non-zero with the same sign. */
  predicate SameSign(v: real, w: real) {
    (v > 0.0 && w > 0.0) || (v < 0.0 && w < 0.0)
  }

  /** An energised axis with consistent clock fields can be driven at any frequency. */
  lemma EnergisedPeriodDefined(a: Axis, f: nat)
    requires WellFormed(a) && ClockConsistent(a) && a.status.Enabled
    ensures PeriodDefined(a, f)
  {
    assert a.params.PwmDz >= 1;
  }

  /**
   * The velocity one tick records on an energised, accelerating axis short
   * of its target: the ramp step, or the target when the step comes within
   * one pulse per second of it. Its distance to the target is zero or one
   * step less than before.
   */
  lemma RampTickStep(a: Axis, next: real)
    requires WellFormed(a) && a.status.Enabled && a.status.CurrentAcc > 0.0 && a.deltaVel > 0.0
    requires a.status.CurrentVel != a.status.TargetVel
    requires next == Candidate(a) || next == a.status.TargetVel
    ensures Between(next, a.status.CurrentVel, a.status.TargetVel)
    ensures var d := FastFabs(a.status.CurrentVel - a.status.TargetVel);
      next == a.status.TargetVel || (d >= a.deltaVel && FastFabs(next - a.status.TargetVel) == d - a.deltaVel)
  {
    assert Candidate(a) == RampToward(a.status.CurrentVel, a.status.TargetVel, a.deltaVel);
  }

  /** The distance k ramp steps of size delta cover. */
  function StepsCover(k: nat, delta: real): (r: real)
    ensures delta >= 0.0 ==> r >= 0.0
    decreases k
  {
    if k == 0 then 0.0 else StepsCover(k - 1, delta) + delta
  }

  /** k steps of delta cover k * delta. */
  lemma {:induction false} StepsCoverProduct(k: nat, delta: real)
    decreases k
    ensures StepsCover(k, delta) == k as real * delta
  {
    if k > 0 {
      StepsCoverProduct(k - 1, delta);
      assert k as real * delta == (k - 1) as real * delta + delta;
    }
  }

  /** n - 1 steps cover the distance and one tick makes the move RampTickStep describes: n - 2 steps cover the rest. */
  lemma StepBudget(n: nat, delta: real, cur: real, next: real, target: real)
    requires delta > 0.0 && cur != target
    requires n >= 1 && StepsCover(n - 1, delta) >= FastFabs(cur - target)
    requires next == target || (FastFabs(cur - target) >= delta && FastFabs(next - target) == FastFabs(cur - target) - delta)
    ensures n - 1 >= 1 && StepsCover(n - 1 - 1, delta) >= FastFabs(next - target)
  {
    assert StepsCover(0, delta) == 0.0;
    assert n - 1 >= 1;
    assert StepsCover(n - 1, delta) == StepsCover(n - 1 - 1, delta) + delta;
  }

  /** At the target, the first tick switches the ramp timer off and every later one changes nothing. */
  lemma {:induction false} TicksAtTarget(a: Axis, n: nat)
    decreases n
    requires WellFormed(a) && a.status.CurrentVel == a.status.TargetVel && n >= 1
    ensures TicksDefined(a, n) && TicksAfter(a, n) == a.(io := a.io.(TimerOn := false))
  {
    var b := a.(io := a.io.(TimerOn := false));
    assert TickSpec(a) == b;
    if n > 1 {
      TicksAtTarget(b, n - 1);
      assert b.(io := b.io.(TimerOn := false)) == b;
    }
  }

  /**
   * On an energised, accelerating axis whose velocity already has the sign
   * of its target, the ticks as written reach the target and switch the
   * ramp timer off once n - 1 steps cover the distance; the axis stays
   * energised with its acceleration.
   */
  lemma {:induction false} TicksReachTarget(a: Axis, n: nat)
    decreases n
    requires WellFormed(a) && ClockConsistent(a) && a.deltaVel > 0.0
    requires a.status.Enabled && a.status.CurrentAcc > 0.0
    requires SameSign(a.status.CurrentVel, a.status.TargetVel)
    requires n >= 1 && StepsCover(n - 1, a.deltaVel) >= FastFabs(a.status.CurrentVel - a.status.TargetVel)
    ensures TicksDefined(a, n)
    ensures var r := TicksAfter(a, n);
      r.status.CurrentVel == a.status.TargetVel && !r.io.TimerOn &&
      r.status.Enabled && r.status.CurrentAcc == a.status.CurrentAcc
  {
    if a.status.CurrentVel == a.status.TargetVel {
      TicksAtTarget(a, n);
    } else {
      TickProgress(a, n);
      TicksReachTarget(TickSpec(a), n - 1);
    }
  }

  /** One tick of TicksReachTarget: defined, the sign kept, and the budget one tick smaller. */
  lemma TickProgress(a: Axis, n: nat)
    requires WellFormed(a) && ClockConsistent(a) && a.deltaVel > 0.0
    requires a.status.Enabled && a.status.CurrentAcc > 0.0
    requires SameSign(a.status.CurrentVel, a.status.TargetVel) && a.status.CurrentVel != a.status.TargetVel
    requires n >= 1 && StepsCover(n - 1, a.deltaVel) >= FastFabs(a.status.CurrentVel - a.status.TargetVel)
    ensures TickDefined(a)
    ensures var b := TickSpec(a);
      ClockConsistent(b) && b.deltaVel == a.deltaVel && b.status.TargetVel == a.status.TargetVel &&
      b.status.Enabled && b.status.CurrentAcc == a.status.CurrentAcc &&
      SameSign(b.status.CurrentVel, a.status.TargetVel) &&
      n - 1 >= 1 && StepsCover(n - 1 - 1, b.deltaVel) >= FastFabs(b.status.CurrentVel - b.status.TargetVel)
  {
    var v := Candidate(a);
    assert v == RampToward(a.status.CurrentVel, a.status.TargetVel, a.deltaVel);
    assert Between(v, a.status.CurrentVel, a.status.TargetVel);
    assert v != 0.0;
    EnergisedPeriodDefined(a, PulseRate(a.params.Kv, v));
    assert TickDefined(a);
    var b := TickSpec(a);
    RampTickStep(a, b.status.CurrentVel);
    StepBudget(n, a.deltaVel, a.status.CurrentVel, b.status.CurrentVel, a.status.TargetVel);
  }

  /**
   * Stopped short of a non-zero target with no acceleration: the ramp
   * timer keeps ticking, but a tick only re-derives the direction and
   * stops the axis again.
   */
  predicate Stalled(a: Axis) {
    WellFormed(a) && !a.status.Enabled && a.status.CurrentAcc == 0.0 && a.status.CurrentVel == 0.0 &&
    a.status.TargetVel != 0.0 && a.status.PwmFrequency == 0 && !a.io.EnableLine && !a.io.PwmRunning
  }

  /** The reversal the ramp makes in whole steps: from -delta toward +delta (here 0.5 m/s) the step lands on zero. */
  lemma ReversalLandsOnZero(a: Axis)
    requires WellFormed(a) && a.status.Enabled && a.status.CurrentAcc > 0.0
    requires a.status.CurrentVel == -0.5 && a.status.TargetVel == 0.5 && a.deltaVel == 0.5
    ensures RampLandsOnZero(a)
  {
    assert FastFabs(a.status.CurrentVel - a.status.TargetVel) == 1.0;
  }

  /** As written, a ramp step that lands on zero calls Stepper_Stop, which also clears the acceleration. */
  lemma ZeroLandingStalls(a: Axis)
    requires WellFormed(a) && RampLandsOnZero(a)
    ensures TickDefined(a) && Stalled(TickSpec(a)) && TickSpec(a).io.TimerOn == a.io.TimerOn
  {
  }

  /** A stalled axis stays stalled under a tick, with the ramp timer still on if it was. */
  lemma StalledTick(a: Axis)
    requires Stalled(a)
    ensures TickDefined(a) && Stalled(TickSpec(a)) && TickSpec(a).io.TimerOn == a.io.TimerOn
    ensures TickSpec(a).status.Dir == (a.status.TargetVel >= 0.0)
  {
    assert Candidate(a) == 0.0;
  }

  lemma {:induction false} StalledForever(a: Axis, n: nat)
    decreases n
    requires Stalled(a)
    ensures TicksDefined(a, n) && Stalled(TicksAfter(a, n)) && TicksAfter(a, n).io.TimerOn == a.io.TimerOn
  {
    if n > 0 {
      StalledTick(a);
      StalledForever(TickSpec(a), n - 1);
    }
  }

  /**
   * As written, once a ramp step lands on zero on the way to a non-zero
   * target, no number of ticks reaches the target: the axis stays stopped
   * with the ramp timer running if it was.
   */
  lemma ZeroLandingNeverArrives(a: Axis, n: nat)
    requires WellFormed(a) && RampLandsOnZero(a) && n >= 1
    ensures TicksDefined(a, n)
    ensures var r := TicksAfter(a, n);
      !r.status.Enabled && r.status.CurrentVel != a.status.TargetVel && r.io.TimerOn == a.io.TimerOn
  {
    ZeroLandingStalls(a);
    StalledForever(TickSpec(a), n - 1);
  }

  /** The ramp is running on an energised, accelerating axis, or has arrived. */
  predicate Ramping(a: Axis) {
    WellFormed(a) && ClockConsistent(a) && a.deltaVel > 0.0 &&
    (a.status.CurrentVel == a.status.TargetVel || (a.status.Enabled && a.status.CurrentAcc > 0.0))
  }

  /**
   * A corrected tick of a ramping axis is defined and leaves it ramping; short
   * of the target it records the ramp step or the target.
   */
  lemma CorrectedTickRamps(a: Axis)
    requires Ramping(a)
    ensures CorrectedTickDefined(a) && Ramping(CorrectedTickSpec(a))
    ensures a.status.CurrentVel != a.status.TargetVel ==>
      CorrectedTickSpec(a).status.CurrentVel == Candidate(a) ||
      CorrectedTickSpec(a).status.CurrentVel == a.status.TargetVel
  {
    if a.status.CurrentVel != a.status.TargetVel {
      EnergisedPeriodDefined(a, 0);
      EnergisedPeriodDefined(a, PulseRate(a.params.Kv, Candidate(a)));
      assert CorrectedTickDefined(a);
    }
  }

  /** The axis after n corrected ramp-timer ticks. */
  function CorrectedTicksAfter(a: Axis, n: nat): (r: Axis)
    requires Ramping(a)
    ensures Ramping(r) && r.status.TargetVel == a.status.TargetVel && r.deltaVel == a.deltaVel
    decreases n
  {
    if n == 0 then a
    else
      CorrectedTickRamps(a);
      CorrectedTicksAfter(CorrectedTickSpec(a), n - 1)
  }

  lemma {:induction false} CorrectedTicksAtTarget(a: Axis, n: nat)
    decreases n
    requires Ramping(a) && a.status.CurrentVel == a.status.TargetVel && n >= 1
    ensures CorrectedTicksAfter(a, n) == a.(io := a.io.(TimerOn := false))
  {
    var b := a.(io := a.io.(TimerOn := false));
    CorrectedTickRamps(a);
    assert CorrectedTickSpec(a) == b;
    if n > 1 {
      CorrectedTicksAtTarget(b, n - 1);
      assert b.(io := b.io.(TimerOn := false)) == b;
    }
  }

  /**
   * With the zero crossing corrected, every ramp reaches its target, reversals
   * included: once n - 1 steps cover the distance, n ticks leave the axis at
   * the target with the ramp timer off.
   */
  lemma {:induction false} CorrectedTicksReachTarget(a: Axis, n: nat)
    decreases n
    requires Ramping(a)
    requires n >= 1 && StepsCover(n - 1, a.deltaVel) >= FastFabs(a.status.CurrentVel - a.status.TargetVel)
    ensures CorrectedTicksAfter(a, n).status.CurrentVel == a.status.TargetVel
    ensures !CorrectedTicksAfter(a, n).io.TimerOn
  {
    if a.status.CurrentVel == a.status.TargetVel {
      CorrectedTicksAtTarget(a, n);
    } else {
      CorrectedTickProgress(a, n);
      CorrectedTicksReachTarget(CorrectedTickSpec(a), n - 1);
    }
  }

  /** One tick of CorrectedTicksReachTarget: still ramping, with the budget one tick smaller. */
  lemma CorrectedTickProgress(a: Axis, n: nat)
    requires Ramping(a) && a.status.CurrentVel != a.status.TargetVel
    requires n >= 1 && StepsCover(n - 1, a.deltaVel) >= FastFabs(a.status.CurrentVel - a.status.TargetVel)
    ensures CorrectedTickDefined(a)
    ensures var b := CorrectedTickSpec(a);
      Ramping(b) && b.deltaVel == a.deltaVel && b.status.TargetVel == a.status.TargetVel &&
      n - 1 >= 1 && StepsCover(n - 1 - 1, b.deltaVel) >= FastFabs(b.status.CurrentVel - b.status.TargetVel)
  {
    CorrectedTickRamps(a);
    var b := CorrectedTickSpec(a);
    RampTickStep(a, b.status.CurrentVel);
    StepBudget(n, a.deltaVel, a.status.CurrentVel, b.status.CurrentVel, a.status.TargetVel);
  }

  /**
   * While the ramp runs on an energised axis whose direction agrees with
   * the sign of its velocity, the direction after the tick agrees with the
   * sign of the velocity the tick asks for.
   */
  lemma DirectionFollowsRamp(cur: real, target: real, acc: real, delta: real)
    requires acc > 0.0 && delta > 0.0
    ensures var v := RampToward(cur, target, delta);
      TickDirection(v, cur, target, true, acc, cur >= 0.0) == (v >= 0.0)
  {
    var v := RampToward(cur, target, delta);
    assert Between(v, cur, target);
  }

  /** A non-energised axis, or an instant change, takes the direction of its target. */
  lemma DirectionFromTarget(v: real, cur: real, target: real, enabled: bool, acc: real, dir: bool)
    requires !enabled || acc < 0.0
    ensures TickDirection(v, cur, target, enabled, acc, dir) == (target >= 0.0)
  {
  }

  /** With consistent clock fields the kick-start velocity is driven exactly at the dead-zone edge. */
  lemma KickStartAtDeadZone(a: Axis)
    requires WellFormed(a) && ClockConsistent(a)
    ensures a.params.PwmDz >= 1
    ensures PulseRate(a.params.Kv, a.params.VelMin) == a.params.PwmDz
    ensures PulseRate(a.params.Kv, -a.params.VelMin) == a.params.PwmDz
  {
    var kv := a.params.Kv;
    var dz := a.params.PwmDz;
    assert dz >= 1;
    assert a.params.VelMin == dz as real / kv;
    PulseRateOfQuotient(kv, dz);
  }

  /** The speed n / kv, either way round, runs at exactly n pulses per second. */
  lemma PulseRateOfQuotient(kv: real, n: nat)
    requires kv > 0.0 && n >= 1
    ensures PulseRate(kv, n as real / kv) == n && PulseRate(kv, -(n as real / kv)) == n
  {
    var v := n as real / kv;
    QuotientTimes(n as real, kv);
    PositiveFactor(v, kv);
    assert kv * v == n as real;
    assert FastFabs(v) == v && FastFabs(-v) == v;
    PulseRateExact(kv, v, n);
    PulseRateExact(kv, -v, n);
  }

  /** A speed whose pulse rate is a whole number has that number as its rate. */
  lemma PulseRateExact(kv: real, v: real, n: nat)
    requires kv >= 0.0 && kv * FastFabs(v) == n as real
    ensures PulseRate(kv, v) == n
  {
  }

  lemma QuotientTimes(x: real, k: real)
    requires k > 0.0
    ensures (x / k) * k == x && k * (x / k) == x
  {
  }

  /** With consistent clock fields a tick from rest is defined unless it is an instant change to a sub-pulse speed. */
  lemma TickFromRestDefined(a: Axis)
    requires WellFormed(a) && ClockConsistent(a)
    requires !a.status.Enabled && a.status.CurrentVel == 0.0
    requires a.status.CurrentAcc >= 0.0 || PulseRate(a.params.Kv, a.status.TargetVel) >= 1
    ensures TickDefined(a)
  {
    if a.status.CurrentAcc > 0.0 {
      KickStartAtDeadZone(a);
    }
  }

  // ---------------------------------------------------------------------
  // Move, limit switches

  /** The signed target of Stepper_Move: |FinalVelocity| capped at VelMax, with its sign (zero counts as negative). */
  function SaturateVelocity(f: real, velMax: real): (r: real)
    ensures velMax >= 0.0 ==> FastFabs(r) == Min(FastFabs(f), velMax)
    ensures velMax >= 0.0 && r < 0.0 ==> f < 0.0
    ensures velMax >= 0.0 && r > 0.0 ==> f > 0.0
    ensures velMax >= 0.0 && f == 0.0 ==> r == 0.0
  {
    var sign := if f > 0.0 then 1.0 else -1.0;
    var abs := f * sign;
    var capped := if abs > velMax then velMax else abs;
    capped * sign
  }

  /** The acceleration of Stepper_Move, capped from above at AccMax (a negative value selects an instant change). */
  function SaturateAcceleration(acc: real, accMax: real): (r: real)
    ensures r == Min(acc, accMax) || (r == acc && acc == accMax)
    ensures r <= accMax && r <= acc
  {
    if acc > accMax then accMax else acc
  }

  /** _CanMove: no limit switch is asserted on the side the axis would move toward. */
  function CanMove(dir: bool, startLimit: bool, endLimit: bool): (r: bool)
    ensures r <==> (if dir then !endLimit else !startLimit)
  {
    !((startLimit && !dir) || (endLimit && dir))
  }

  /** Stepper_Move up to the call of _CalculateVel: new target, acceleration and ramp step. */
  function Prepared(a: Axis, f: real, acc: real): (r: Axis)
    requires WellFormed(a)
    ensures WellFormed(r)
    ensures r.status == a.status.(TargetVel := SaturateVelocity(f, a.params.VelMax),
                                  CurrentAcc := SaturateAcceleration(acc, a.params.AccMax))
    ensures r.params == a.params && r.io == a.io && r.sysClock == a.sysClock
    ensures r.deltaVel == SaturateAcceleration(acc, a.params.AccMax) / a.params.VelUpdateFrequency as real
  {
    var accel := SaturateAcceleration(acc, a.params.AccMax);
    a.(status := a.status.(TargetVel := SaturateVelocity(f, a.params.VelMax), CurrentAcc := accel),
       deltaVel := accel / a.params.VelUpdateFrequency as real)
  }

  predicate MoveDefined(a: Axis, f: real, acc: real)
    requires WellFormed(a)
  {
    a.status.Enabled || SaturateVelocity(f, a.params.VelMax) == 0.0 || TickDefined(Prepared(a, f, acc))
  }

  /**
   * The start of a stopped axis in Stepper_Move: one tick for the initial
   * conditions, then energise and start the PWM if no limit blocks the
   * direction the tick chose, stop otherwise.
   */
  function StartFromRest(b: Axis, startLimit: bool, endLimit: bool): (r: Axis)
    requires WellFormed(b) && TickDefined(b)
    ensures WellFormed(r)
    ensures r.status.TargetVel == b.status.TargetVel && r.deltaVel == b.deltaVel
    ensures r.status.Enabled == CanMove(r.status.Dir, startLimit, endLimit)
    ensures ClockConsistent(b) ==> ClockConsistent(r)
  {
    var t := TickSpec(b);
    if CanMove(t.status.Dir, startLimit, endLimit) then
      t.(status := t.status.(Enabled := true), io := t.io.(EnableLine := true, PwmRunning := true))
    else StopSpec(t)
  }

  /** The end of Stepper_Move: the ramp timer is started while the velocity differs from the target. */
  function ArmTimer(c: Axis): (r: Axis)
    ensures r.status == c.status && r.params == c.params && r.deltaVel == c.deltaVel && r.sysClock == c.sysClock
    ensures r.io.(TimerOn := false) == c.io.(TimerOn := false)
    ensures c.status.CurrentVel != c.status.TargetVel ==> r.io.TimerOn
    ensures c.status.CurrentVel == c.status.TargetVel ==> r == c
  {
    if c.status.CurrentVel != c.status.TargetVel then c.(io := c.io.(TimerOn := true)) else c
  }

  /** Stepper_Move with the limit inputs read by _CanMove. */
  function MoveSpec(a: Axis, f: real, acc: real, startLimit: bool, endLimit: bool): (r: Axis)
    requires WellFormed(a) && MoveDefined(a, f, acc)
    ensures WellFormed(r)
    ensures r.status.TargetVel == SaturateVelocity(f, a.params.VelMax)
    ensures r.deltaVel == SaturateAcceleration(acc, a.params.AccMax) / a.params.VelUpdateFrequency as real
  {
    var b := Prepared(a, f, acc);
    var c := if !b.status.Enabled && b.status.TargetVel != 0.0 then StartFromRest(b, startLimit, endLimit) else b;
    ArmTimer(c)
  }

  /** An energised axis only takes the new target and acceleration; the ramp timer does the rest. */
  lemma MoveRetargetsRunningAxis(a: Axis, f: real, acc: real, startLimit: bool, endLimit: bool)
    requires WellFormed(a) && MoveDefined(a, f, acc) && a.status.Enabled
    ensures var r := MoveSpec(a, f, acc, startLimit, endLimit);
      r.status == a.status.(TargetVel := SaturateVelocity(f, a.params.VelMax),
                            CurrentAcc := SaturateAcceleration(acc, a.params.AccMax)) &&
      r.params == a.params &&
      r.io.(TimerOn := a.io.TimerOn) == a.io &&
      (r.status.CurrentVel != r.status.TargetVel ==> r.io.TimerOn)
  {
  }

  /** A zero target leaves a stopped axis exactly as it was, apart from the new acceleration. */
  lemma MoveToZeroFromRest(a: Axis, f: real, acc: real, startLimit: bool, endLimit: bool)
    requires WellFormed(a) && MoveDefined(a, f, acc) && !a.status.Enabled
    requires SaturateVelocity(f, a.params.VelMax) == 0.0
    ensures var r := MoveSpec(a, f, acc, startLimit, endLimit);
      !r.status.Enabled && r.status.CurrentVel == a.status.CurrentVel && r.params == a.params &&
      r.io.(TimerOn := a.io.TimerOn) == a.io
  {
  }

  /**
   * A stopped axis with a non-zero target is energised, with its PWM
   * running, exactly when no limit switch blocks the direction chosen for
   * it, and that direction is the sign of the target when the axis was not
   * already at it; otherwise it is left fully stopped.
   */
  lemma MoveFromRest(a: Axis, f: real, acc: real, startLimit: bool, endLimit: bool)
    requires WellFormed(a) && MoveDefined(a, f, acc) && !a.status.Enabled
    requires SaturateVelocity(f, a.params.VelMax) != 0.0
    ensures var r := MoveSpec(a, f, acc, startLimit, endLimit);
      r.status.Enabled == CanMove(r.status.Dir, startLimit, endLimit) &&
      (r.status.Enabled ==> r.io.EnableLine && r.io.PwmRunning) &&
      (!r.status.Enabled ==> r.status.CurrentVel == 0.0 && r.status.CurrentAcc == 0.0 &&
                             r.status.PwmFrequency == 0 && !r.io.EnableLine && !r.io.PwmRunning) &&
      (a.status.CurrentVel != SaturateVelocity(f, a.params.VelMax) ==>
        r.status.Dir == (SaturateVelocity(f, a.params.VelMax) >= 0.0))
  {
    var b := Prepared(a, f, acc);
    var t := TickSpec(b);
    assert b.status.CurrentVel != b.status.TargetVel ==> t.status.Dir == (b.status.TargetVel >= 0.0);
  }

  /** A move keeps the clock fields consistent with the divider. */
  lemma MoveKeepsClockConsistent(a: Axis, f: real, acc: real, startLimit: bool, endLimit: bool)
    requires WellFormed(a) && MoveDefined(a, f, acc) && ClockConsistent(a)
    ensures ClockConsistent(MoveSpec(a, f, acc, startLimit, endLimit))
  {
    var b := Prepared(a, f, acc);
    assert ClockConsistent(b);
    var c := if !b.status.Enabled && b.status.TargetVel != 0.0 then StartFromRest(b, startLimit, endLimit) else b;
    assert ClockConsistent(c);
    assert ArmTimer(c).params == c.params && ArmTimer(c).io.Divider == c.io.Divider;
  }

  /** After a move the ramp timer runs whenever the velocity differs from the target. */
  lemma MoveArmsTimer(a: Axis, f: real, acc: real, startLimit: bool, endLimit: bool)
    requires WellFormed(a) && MoveDefined(a, f, acc)
    ensures var r := MoveSpec(a, f, acc, startLimit, endLimit);
      r.status.CurrentVel != r.status.TargetVel ==> r.io.TimerOn
  {
  }

  /** From rest with consistent clock fields, a move is defined unless it is an instant change to a sub-pulse speed. */
  lemma MoveFromRestDefined(a: Axis, f: real, acc: real)
    requires WellFormed(a) && ClockConsistent(a)
    requires !a.status.Enabled && a.status.CurrentVel == 0.0
    requires SaturateAcceleration(acc, a.params.AccMax) >= 0.0 ||
             PulseRate(a.params.Kv, SaturateVelocity(f, a.params.VelMax)) >= 1
    ensures MoveDefined(a, f, acc)
  {
    var b := Prepared(a, f, acc);
    assert b.params == a.params && b.io == a.io && b.sysClock == a.sysClock;
    assert b.status.TargetVel == SaturateVelocity(f, a.params.VelMax);
    assert b.status.CurrentAcc == SaturateAcceleration(acc, a.params.AccMax);
    TickFromRestDefined(b);
  }

  /** _IsrLimHandler with the pending flags of the two limit inputs. */
  function LimitSpec(a: Axis, startEdge: bool, endEdge: bool): (r: Axis)
    requires WellFormed(a)
    ensures WellFormed(r)
    // An edge stops the axis exactly when it is energised and moving toward that limit.
    ensures (startEdge && a.status.Enabled && !a.status.Dir) || (endEdge && a.status.Enabled && a.status.Dir) ==>
      r == StopSpec(a)
    ensures !((startEdge && a.status.Enabled && !a.status.Dir) || (endEdge && a.status.Enabled && a.status.Dir)) ==>
      r == a
  {
    var b := if startEdge && a.status.Enabled && !a.status.Dir then StopSpec(a) else a;
    if endEdge && b.status.Enabled && b.status.Dir then StopSpec(b) else b
  }

  /** The state Stepper_Init leaves: default status, the caller's parameters, the initial PWM frequency programmed. */
  function InitSpec(config: StepperParams, sysClock: nat, divider: PwmDivider): (r: Axis)
    requires config.Kv > 0.0 && 0 < config.VelUpdateFrequency < 0x1_0000
    requires config.VelMax * config.Kv >= 1.0
    ensures WellFormed(r)
    ensures r.status == DefaultStatus.(PwmFrequency := PulseRate(config.Kv, config.VelMax))
    ensures !r.io.EnableLine && !r.io.PwmRunning && !r.io.TimerOn
  {
    var a := Axis(DefaultStatus, config, 0.0, Peripherals(divider, false, false, false, 0, 0), sysClock);
    assert FastFabs(config.VelMax) == config.VelMax;
    SetPwmFreqSpec(a, PulseRate(config.Kv, config.VelMax))
  }

  /**
   * Stepper_Init leaves the clock fields consistent, as the ramp lemmas
   * need, exactly when the caller's PwmClock, PwmDz and VelMin already match
   * the divider or its initial SetPwmFreq switches the divider.
   */
  lemma InitClockConsistent(config: StepperParams, sysClock: nat, divider: PwmDivider)
    requires config.Kv > 0.0 && 0 < config.VelUpdateFrequency < 0x1_0000
    requires config.VelMax * config.Kv >= 1.0
    ensures var a := Axis(DefaultStatus, config, 0.0, Peripherals(divider, false, false, false, 0, 0), sysClock);
      WellFormed(a) &&
      (ClockConsistent(InitSpec(config, sysClock, divider)) <==>
       ClockConsistent(a) || ClockSwitch(a, PulseRate(config.Kv, config.VelMax)))
  {
    var a := Axis(DefaultStatus, config, 0.0, Peripherals(divider, false, false, false, 0, 0), sysClock);
    var f := PulseRate(config.Kv, config.VelMax);
    assert FastFabs(config.VelMax) == config.VelMax;
    SwitchKeepsDefined(a, f);
    var b := SwitchClock(a, f);
    assert InitSpec(config, sysClock, divider) == ProgramPeriod(b, f);
  }

  // ---------------------------------------------------------------------
  // The driver

  class Stepper {
    var Status: StepperStatus
    var Params: StepperParams
    var DeltaVel: real
    var Io: Peripherals
    var LastEncoderValue: nat    // static of Stepper_CheckForStall, uint32
    const SysClock: nat          // SysCtlClockGet()

    ghost function State(): Axis
      reads this
    {
      Axis(Status, Params, DeltaVel, Io, SysClock)
    }

    ghost predicate Valid()
      reads this
    {
      WellFormed(State())
    }

    /** Stepper_Init, from the statics' initial values. */
    constructor Init(config: StepperParams, sysClock: nat, divider: PwmDivider)
      requires config.Kv > 0.0 && 0 < config.VelUpdateFrequency < 0x1_0000
      requires config.VelMax * config.Kv >= 1.0
      ensures Valid() && State() == InitSpec(config, sysClock, divider)
      ensures LastEncoderValue == 0
    {
      Status := DefaultStatus;
      DeltaVel := 0.0;
      LastEncoderValue := 0;
      Params := config;
      SysClock := sysClock;
      Io := Peripherals(divider, false, false, false, 0, 0);
      new;
      SetDirection(Status.Dir);
      SetEnable(Status.Enabled);
      assert FastFabs(config.VelMax) == config.VelMax;
      SetPwmFreq(PulseRate(Params.Kv, Params.VelMax));
    }

    /** _SetDirection. */
    method SetDirection(dir: bool)
      requires Valid()
      modifies this
      ensures Valid() && State() == old(State()).(status := old(Status).(Dir := dir))
      ensures LastEncoderValue == old(LastEncoderValue)
    {
      Status := Status.(Dir := dir);
    }

    /** _SetEnable: the flag and the active-low enable line. */
    method SetEnable(enable: bool)
      requires Valid()
      modifies this
      ensures Valid()
      ensures State() == old(State()).(status := old(Status).(Enabled := enable), io := old(Io).(EnableLine := enable))
      ensures LastEncoderValue == old(LastEncoderValue)
    {
      Status := Status.(Enabled := enable);
      Io := Io.(EnableLine := enable);
    }

    /** _StartPwm. */
    method StartPwm()
      requires Valid()
      modifies this
      ensures Valid() && State() == old(State()).(io := old(Io).(PwmRunning := true))
      ensures LastEncoderValue == old(LastEncoderValue)
    {
      Io := Io.(PwmRunning := true);
    }

    /** _StopPwm. */
    method StopPwm()
      requires Valid()
      modifies this
      ensures Valid()
      ensures State() == old(State()).(status := old(Status).(PwmFrequency := 0), io := old(Io).(PwmRunning := false))
      ensures LastEncoderValue == old(LastEncoderValue)
    {
      Io := Io.(PwmRunning := false);
      Status := Status.(PwmFrequency := 0);
    }

    /** _SetPwmFreq. */
    method SetPwmFreq(newFreq: nat)
      requires Valid() && PeriodDefined(State(), newFreq)
      modifies this
      ensures Valid() && State() == SetPwmFreqSpec(old(State()), newFreq)
      ensures LastEncoderValue == old(LastEncoderValue)
    {
      var clockChanged := false;
      if newFreq > 3000 && Params.PwmClock != SysClock {
        Io := Io.(Divider := Div1);
        clockChanged := true;
      } else if newFreq < 2000 && Params.PwmClock == SysClock {
        Io := Io.(Divider := Div64);
        clockChanged := true;
      }
      if clockChanged {
        Params := Params.(PwmClock := GetPwmClock(SysClock, Io.Divider));
        Params := Params.(PwmDz := GetPwmClock(SysClock, Io.Divider) / 0x1_0000 + 1);
        Params := Params.(VelMin := Params.PwmDz as real / Params.Kv);
      }
      assert State() == SwitchClock(old(State()), newFreq);
      SwitchKeepsDefined(old(State()), newFreq);
      ProgramPeriodStep(newFreq);
    }

    /** The second half of _SetPwmFreq, from the state the divider switch leaves. */
    method ProgramPeriodStep(newFreq: nat)
      requires Valid() && ProgramDefined(State(), newFreq)
      modifies this
      ensures Valid() && State() == ProgramPeriod(old(State()), newFreq)
      ensures LastEncoderValue == old(LastEncoderValue)
    {
      Status := Status.(PwmFrequency := newFreq);
      if newFreq < Params.PwmDz && Status.Enabled {
        Io := Io.(EnableLine := false);
        return;
      } else if Status.Enabled {
        Io := Io.(EnableLine := true);
      }
      Params := Params.(PwmPeriod := Period(Params.PwmClock, Status.PwmFrequency));
      if Params.PwmPeriod != Io.PeriodReg {
        Io := Io.(PeriodReg := Params.PwmPeriod);
        Io := Io.(PulseWidth := Params.PwmPeriod / 2);
      }
    }

    /** Stepper_Stop. */
    method Stop()
      requires Valid()
      modifies this
      ensures Valid() && State() == StopSpec(old(State()))
      ensures LastEncoderValue == old(LastEncoderValue)
    {
      SetEnable(false);
      StopPwm();
      Status := Status.(CurrentVel := 0.0);
      Status := Status.(CurrentAcc := 0.0);
    }

    /** _SetVel. */
    method SetVel(newVel: real)
      requires Valid() && SetVelDefined(State(), newVel)
      modifies this
      ensures Valid() && State() == SetVelSpec(old(State()), newVel)
      ensures LastEncoderValue == old(LastEncoderValue)
    {
      if newVel == 0.0 {
        Stop();
        return;
      }
      Drive(newVel);
    }

    /** The part of _SetVel after the zero test. */
    method Drive(newVel: real)
      requires Valid() && PeriodDefined(State(), PulseRate(Params.Kv, newVel))
      modifies this
      ensures Valid() && State() == DriveSpec(old(State()), newVel)
      ensures LastEncoderValue == old(LastEncoderValue)
    {
      if WithinOnePulse(newVel, Status.TargetVel, Params.Kv) {
        Status := Status.(CurrentVel := Status.TargetVel);
      } else {
        Status := Status.(CurrentVel := newVel);
      }
      SetPwmFreq(PulseRate(Params.Kv, newVel));
    }

    /** _CalculateVel, run by the ramp timer's interrupt. */
    method CalculateVel()
      requires Valid() && TickDefined(State())
      modifies this
      ensures Valid() && State() == TickSpec(old(State()))
      ensures LastEncoderValue == old(LastEncoderValue)
    {
      if Status.CurrentVel == Status.TargetVel {
        Io := Io.(TimerOn := false);
        return;
      }
      var newVel := NextVelocity();
      SetVel(newVel);
    }

    /**
     * The ramp-timer handler with the zero crossing corrected: a ramp step
     * that lands on zero on the way to a non-zero target is driven at zero,
     * not stopped. Every other tick runs as CalculateVel.
     */
    method CalculateVelCorrected()
      requires Valid() && CorrectedTickDefined(State())
      modifies this
      ensures Valid() && State() == CorrectedTickSpec(old(State()))
      ensures LastEncoderValue == old(LastEncoderValue)
    {
      if Status.CurrentVel == Status.TargetVel {
        Io := Io.(TimerOn := false);
        return;
      }
      var newVel := NextVelocity();
      if newVel == 0.0 && Status.TargetVel != 0.0 && Status.Enabled && Status.CurrentAcc > 0.0 {
        Drive(newVel);
      } else {
        SetVel(newVel);
      }
    }

    /** The statements of _CalculateVel before _SetVel: the candidate velocity, and the direction re-derived from the target where the tick asks for it. */
    method NextVelocity() returns (newVel: real)
      requires Valid() && Status.CurrentVel != Status.TargetVel
      modifies this
      ensures newVel == Candidate(old(State()))
      ensures Valid() && State() == old(State()).(status := old(Status).(Dir := TickDirection(newVel, old(Status).CurrentVel,
        old(Status).TargetVel, old(Status).Enabled, old(Status).CurrentAcc, old(Status).Dir)))
      ensures LastEncoderValue == old(LastEncoderValue)
    {
      newVel := Status.CurrentVel;
      if Status.CurrentAcc < 0.0 {
        newVel := Status.TargetVel;
      } else if Status.CurrentAcc > 0.0 {
        if !Status.Enabled {
          newVel := if Status.TargetVel < 0.0 then -Params.VelMin else Params.VelMin;
        } else if FastFabs(Status.CurrentVel - Status.TargetVel) < DeltaVel {
          newVel := Status.TargetVel;
        } else if Status.CurrentVel < Status.TargetVel {
          newVel := Status.CurrentVel + DeltaVel;
        } else if Status.CurrentVel > Status.TargetVel {
          newVel := Status.CurrentVel - DeltaVel;
        }
      }
      assert newVel == Candidate(old(State()));
      if SignBitsDiffer(newVel, Status.CurrentVel) || !Status.Enabled || Status.CurrentAcc < 0.0 {
        SetDirection(Status.TargetVel >= 0.0);
      }
    }

    /** Stepper_Move; the limit inputs are the levels _CanMove reads. Returns whether the axis is energised. */
    method Move(finalVelocity: real, acceleration: real, startLimit: bool, endLimit: bool) returns (enabled: bool)
      requires Valid() && MoveDefined(State(), finalVelocity, acceleration)
      modifies this
      ensures Valid() && State() == MoveSpec(old(State()), finalVelocity, acceleration, startLimit, endLimit)
      ensures enabled == Status.Enabled
      ensures LastEncoderValue == old(LastEncoderValue)
    {
      var sign := if finalVelocity > 0.0 then 1.0 else -1.0;
      var velocityAbs := finalVelocity * sign;
      if velocityAbs > Params.VelMax {
        velocityAbs := Params.VelMax;
      }
      var accel := acceleration;
      if accel > Params.AccMax {
        accel := Params.AccMax;
      }
      Status := Status.(TargetVel := velocityAbs * sign);
      Status := Status.(CurrentAcc := accel);
      DeltaVel := Status.CurrentAcc / Params.VelUpdateFrequency as real;
      ghost var prepared := State();
      assert prepared == Prepared(old(State()), finalVelocity, acceleration);
      assert (velocityAbs != 0.0) == (Status.TargetVel != 0.0);
      if !Status.Enabled && velocityAbs != 0.0 {
        StartFromRestStep(startLimit, endLimit);
      }
      ghost var started := State();
      if Status.CurrentVel != Status.TargetVel {
        Io := Io.(TimerOn := true);
      }
      assert State() == ArmTimer(started);
      enabled := Status.Enabled;
    }

    /** The branch of Stepper_Move taken for a stopped axis with a non-zero target. */
    method StartFromRestStep(startLimit: bool, endLimit: bool)
      requires Valid() && !Status.Enabled && TickDefined(State())
      modifies this
      ensures Valid() && State() == StartFromRest(old(State()), startLimit, endLimit)
      ensures LastEncoderValue == old(LastEncoderValue)
    {
      CalculateVel();
      if CanMove(Status.Dir, startLimit, endLimit) {
        SetEnable(true);
        StartPwm();
      } else {
        Stop();
      }
    }

    /** _IsrLimHandler; the flags say which limit input has a rising edge pending. */
    method LimitHandler(startEdge: bool, endEdge: bool)
      requires Valid()
      modifies this
      ensures Valid() && State() == LimitSpec(old(State()), startEdge, endEdge)
      ensures LastEncoderValue == old(LastEncoderValue)
    {
      if startEdge {
        if Status.Enabled && !Status.Dir {
          Stop();
        }
      }
      if endEdge {
        if Status.Enabled && Status.Dir {
          Stop();
        }
      }
    }

    /**
     * Stepper_CheckForStall: while energised, a stall is an unchanged
     * encoder reading with a non-zero velocity; the reading is remembered
     * only while energised.
     */
    method CheckForStall(encoderValue: nat) returns (stall: bool)
      requires encoderValue < UInt32Modulus
      modifies this`LastEncoderValue
      ensures stall == (Status.Enabled && old(LastEncoderValue) == encoderValue && Status.CurrentVel != 0.0)
      ensures LastEncoderValue == if Status.Enabled then encoderValue else old(LastEncoderValue)
    {
      stall := false;
      if Status.Enabled {
        if LastEncoderValue == encoderValue && Status.CurrentVel != 0.0 {
          stall := true;
        }
        LastEncoderValue := encoderValue;
      }
    }

    /** Stepper_GetStatus. */
    method GetStatus() returns (s: StepperStatus)
      ensures s == Status
    {
      s := Status;
    }

    /** Stepper_GetEnabled. */
    function GetEnabled(): bool
      reads this
    {
      Status.Enabled
    }

    /** Stepper_GetDir. */
    function GetDir(): bool
      reads this
    {
      Status.Dir
    }

    /** Stepper_GetTargetVel. */
    function GetTargetVel(): real
      reads this
    {
      Status.TargetVel
    }

    /** Stepper_GetCurrentVel. */
    function GetCurrentVel(): real
      reads this
    {
      Status.CurrentVel
    }

    /** Stepper_GetCurrentAcc. */
    function GetCurrentAcc(): real
      reads this
    {
      Status.CurrentAcc
    }

    /** Stepper_GetPwmFrequency. */
    function GetPwmFrequency(): nat
      reads this
    {
      Status.PwmFrequency
    }
  }
}
