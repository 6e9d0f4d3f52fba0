// Discrete PID controller with anti-windup (the error integral is frozen
// while the output is saturated), derivative on measurement and an output
// limiter. class Pid of Source/Pid_TivaC.cpp; its single member _Data is the
// field Data. Floats are modelled as reals.
module PidController {
  import opened Limiter

  /** pid_t. */
  datatype PidData = PidData(
    Ref: real, E_now: real, Y_lst: real, E_int: real, E_der: real,
    Up_nxt: real, Ui_nxt: real, Ud_nxt: real, Ut_nxt: real, Saturated: bool,
    Kp: real, Ki: real, Kd: real, Ut_min: real, Ut_max: real)

  /** pid_t_default: every number 0, not saturated. */
  const Default := PidData(0.0, 0.0, 0.0, 0.0, 0.0, 0.0, 0.0, 0.0, 0.0, false, 0.0, 0.0, 0.0, 0.0, 0.0)

  /** The error integral after a sample with error e: it accumulates only if the previous sample was not saturated. */
  function Integral(d: PidData, e: real): (r: real)
    ensures d.Saturated ==> r == d.E_int
    ensures !d.Saturated ==> r - d.E_int == e
  {
    if d.Saturated then d.E_int else d.E_int + e
  }

  /** The unclamped control action for measurement y: P on the error, I on the integral, D on the fall of the measurement. */
  function Action(d: PidData, y: real): (r: real)
  {
    (d.Ref - y) * d.Kp + Integral(d, d.Ref - y) * d.Ki + (d.Y_lst - y) * d.Kd
  }

  /**
   * At the reference with a steady measurement only the integral acts, and
   * without I and D gains the action is proportional to the error.
   */
  lemma ActionSpecialCases(d: PidData, y: real)
    ensures y == d.Ref && y == d.Y_lst ==> Action(d, y) == Integral(d, 0.0) * d.Ki
    ensures d.Ki == 0.0 && d.Kd == 0.0 ==> Action(d, y) == (d.Ref - y) * d.Kp
  {
  }

  /** The controller data after Compute(y). */
  function Step(d: PidData, y: real): (r: PidData)
    ensures r.Ut_nxt == Limit(Action(d, y), d.Ut_min, d.Ut_max)
    // An unsaturated sample passes the action through; a clipped one is saturated.
    ensures !r.Saturated ==> r.Ut_nxt == Action(d, y)
    ensures r.Ut_nxt != Action(d, y) ==> r.Saturated
  {
    var e, u := d.Ref - y, Action(d, y);
    d.(E_now := e, E_int := Integral(d, e), E_der := d.Y_lst - y, Y_lst := y,
       Up_nxt := e * d.Kp, Ui_nxt := Integral(d, e) * d.Ki, Ud_nxt := (d.Y_lst - y) * d.Kd,
       Ut_nxt := Limit(u, d.Ut_min, d.Ut_max), Saturated := !(d.Ut_min < u < d.Ut_max))
  }

  /** The errors: E_now is reference minus measurement, E_der the previous measurement minus this one, and the measurement is kept for the next sample. */
  lemma StepErrors(d: PidData, y: real)
    ensures Step(d, y).E_now == d.Ref - y
    ensures Step(d, y).E_der == d.Y_lst - y
    ensures Step(d, y).Y_lst == y
  {
  }

  /** Compute leaves the reference, the gains and the limits as they are. */
  lemma StepKeepsSettings(d: PidData, y: real)
    ensures var r := Step(d, y);
      r.Ref == d.Ref && r.Kp == d.Kp && r.Ki == d.Ki && r.Kd == d.Kd
      && r.Ut_min == d.Ut_min && r.Ut_max == d.Ut_max
  {
  }

  /** Anti-windup: after a saturated sample the integral is frozen; otherwise it adds the new error. */
  lemma AntiWindup(d: PidData, y: real)
    ensures d.Saturated ==> Step(d, y).E_int == d.E_int
    ensures !d.Saturated ==> Step(d, y).E_int == d.E_int + (d.Ref - y)
  {
  }

  /** The three portions add up to the unclamped action. */
  lemma PortionsAddUp(d: PidData, y: real)
    ensures var r := Step(d, y);
      r.Up_nxt + r.Ui_nxt + r.Ud_nxt == Action(d, y)
      && r.Up_nxt == r.E_now * r.Kp && r.Ui_nxt == r.E_int * r.Ki && r.Ud_nxt == r.E_der * r.Kd
  {
  }

  /**
   * With consistent limits the output lies between them. Saturated holds
   * exactly when the unclamped action reached a limit; the output is then
   * that limit, and otherwise the unclamped action itself.
   */
  lemma OutputLimited(d: PidData, y: real)
    requires d.Ut_min <= d.Ut_max
    ensures d.Ut_min <= Step(d, y).Ut_nxt <= d.Ut_max
    ensures Step(d, y).Saturated <==> Action(d, y) >= d.Ut_max || Action(d, y) <= d.Ut_min
    ensures Step(d, y).Saturated ==> Step(d, y).Ut_nxt == d.Ut_max || Step(d, y).Ut_nxt == d.Ut_min
    ensures !Step(d, y).Saturated ==> Step(d, y).Ut_nxt == Action(d, y)
  {
    LimitInRange(Action(d, y), d.Ut_min, d.Ut_max);
  }

  /** Derivative on measurement: a change of reference does not change the derivative term. */
  lemma NoDerivativeKick(d: PidData, y: real, ref: real)
    ensures Step(d.(Ref := ref), y).E_der == Step(d, y).E_der
    ensures Step(d.(Ref := ref), y).Ud_nxt == Step(d, y).Ud_nxt
  {
  }

  /** Compute applied to the measurements ys in order. */
  function Run(d: PidData, ys: seq<real>): PidData
    decreases |ys|
  {
    if ys == [] then d else Step(Run(d, ys[..|ys| - 1]), ys[|ys| - 1])
  }

  /** The sum of the errors ref - y over ys. */
  function ErrorSum(ref: real, ys: seq<real>): real
    decreases |ys|
  {
    if ys == [] then 0.0 else ErrorSum(ref, ys[..|ys| - 1]) + (ref - ys[|ys| - 1])
  }

  /**
   * Over a run in which no sample saturates before the last one, the
   * integral is the starting integral plus the sum of the errors, and the
   * reference is the same throughout.
   */
  lemma {:induction false} IntegralOfUnsaturatedRun(d: PidData, ys: seq<real>)
    requires forall k :: 0 <= k < |ys| ==> !Run(d, ys[..k]).Saturated
    ensures Run(d, ys).E_int == d.E_int + ErrorSum(d.Ref, ys)
    ensures Run(d, ys).Ref == d.Ref
    decreases |ys|
  {
    if ys != [] {
      var n := |ys| - 1;
      forall k | 0 <= k < n
        ensures !Run(d, ys[..n][..k]).Saturated
      {
        assert ys[..n][..k] == ys[..k];
      }
      IntegralOfUnsaturatedRun(d, ys[..n]);
      assert ys[..n] == ys[..n][..n];
    }
  }

  /** Once a sample saturates, the integral stays frozen for as long as the output stays saturated. */
  lemma {:induction false} IntegralFrozenWhileSaturated(d: PidData, ys: seq<real>)
    requires d.Saturated
    requires forall k :: 0 < k < |ys| ==> Run(d, ys[..k]).Saturated
    ensures Run(d, ys).E_int == d.E_int
    decreases |ys|
  {
    if ys != [] {
      var n := |ys| - 1;
      forall k | 0 < k < n
        ensures Run(d, ys[..n][..k]).Saturated
      {
        assert ys[..n][..k] == ys[..k];
      }
      IntegralFrozenWhileSaturated(d, ys[..n]);
      if n > 0 {
        assert Run(d, ys[..n]).Saturated;
      }
    }
  }

  class Pid {
    var Data: PidData

    /** Pid(): the member initialiser pid_t_default. */
    constructor ()
      ensures Data == Default
    {
      Data := Default;
    }

    /** Pid(Kp, Ki, Kd, Ref, Ut_min, Ut_max): the defaults, then the three setters. */
    constructor WithParameters(kp: real, ki: real, kd: real, ref: real, utMin: real, utMax: real)
      ensures Data == Default.(Kp := kp, Ki := ki, Kd := kd, Ref := ref, Ut_min := utMin, Ut_max := utMax)
    {
      Data := Default;
      new;
      SetGains(kp, ki, kd);
      SetReference(ref);
      SetLimits(utMin, utMax);
    }

    method SetGains(kp: real, ki: real, kd: real)
      modifies this
      ensures Data == old(Data).(Kp := kp, Ki := ki, Kd := kd)
    {
      Data := Data.(Kp := kp);
      Data := Data.(Ki := ki);
      Data := Data.(Kd := kd);
    }

    /** Writes Kp, Ki, Kd to buffer[0..3]. */
    method GetGains(buffer: array<real>)
      requires buffer.Length >= 3
      modifies buffer
      ensures buffer[..3] == [Data.Kp, Data.Ki, Data.Kd] && buffer[3..] == old(buffer[3..])
    {
      buffer[0] := Data.Kp;
      buffer[1] := Data.Ki;
      buffer[2] := Data.Kd;
    }

    method SetReference(newReference: real)
      modifies this
      ensures Data == old(Data).(Ref := newReference)
    {
      Data := Data.(Ref := newReference);
    }

    method GetReference() returns (r: real)
      ensures r == Data.Ref
    {
      r := Data.Ref;
    }

    method SetLimits(utMin: real, utMax: real)
      modifies this
      ensures Data == old(Data).(Ut_min := utMin, Ut_max := utMax)
    {
      Data := Data.(Ut_min := utMin);
      Data := Data.(Ut_max := utMax);
    }

    /** Writes Ut_min, Ut_max to buffer[0..2]. */
    method GetLimits(buffer: array<real>)
      requires buffer.Length >= 2
      modifies buffer
      ensures buffer[..2] == [Data.Ut_min, Data.Ut_max] && buffer[2..] == old(buffer[2..])
    {
      buffer[0] := Data.Ut_min;
      buffer[1] := Data.Ut_max;
    }

    /** SetGains followed by GetGains reads back the gains just set. */
    method GainsRoundTrip(kp: real, ki: real, kd: real, buffer: array<real>)
      requires buffer.Length >= 3
      modifies this, buffer
      ensures buffer[..3] == [kp, ki, kd]
    {
      SetGains(kp, ki, kd);
      GetGains(buffer);
    }

    /** SetLimits followed by GetLimits reads back the limits just set. */
    method LimitsRoundTrip(utMin: real, utMax: real, buffer: array<real>)
      requires buffer.Length >= 2
      modifies this, buffer
      ensures buffer[..2] == [utMin, utMax]
    {
      SetLimits(utMin, utMax);
      GetLimits(buffer);
    }

    /** One controller sample for the measured output y; returns the limited action. */
    method Compute(y: real) returns (u: real)
      modifies this
      ensures Data == Step(old(Data), y) && u == Data.Ut_nxt
    {
      Data := Data.(E_now := Data.Ref - y);
      if Data.Saturated == false {
        Data := Data.(E_int := Data.E_int + Data.E_now);
      }
      Data := Data.(E_der := Data.Y_lst - y);
      Data := Data.(Y_lst := y);
      Data := Data.(Up_nxt := Data.E_now * Data.Kp);
      Data := Data.(Ui_nxt := Data.E_int * Data.Ki);
      Data := Data.(Ud_nxt := Data.E_der * Data.Kd);
      Data := Data.(Ut_nxt := Data.Up_nxt + Data.Ui_nxt + Data.Ud_nxt);
      if Data.Ut_nxt >= Data.Ut_max {
        Data := Data.(Ut_nxt := Data.Ut_max, Saturated := true);
      } else if Data.Ut_nxt <= Data.Ut_min {
        Data := Data.(Ut_nxt := Data.Ut_min, Saturated := true);
      } else {
        Data := Data.(Saturated := false);
      }
      u := Data.Ut_nxt;
    }

    /** Reset: pid_t_default, gains, reference and limits included. */
    method Reset()
      modifies this
      ensures Data == Default
    {
      Data := Default;
    }
  }
}
