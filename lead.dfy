// Discrete lead compensator u[k+1] = A u[k] + B e[k] + C e[k-1] with an
// output limiter. class Lead of Source/Lead_TivaC.cpp; its single member
// _Data is the field Data. Floats are modelled as reals.
module LeadController {
  import opened Limiter

  /** lead_t. */
  datatype LeadData = LeadData(
    Ref: real, E_now: real, E_lst: real, Ut_nxt: real, Ut_now: real,
    A: real, B: real, C: real, Ut_min: real, Ut_max: real)

  /** lead_t_default: every number 0. */
  const Default := LeadData(0.0, 0.0, 0.0, 0.0, 0.0, 0.0, 0.0, 0.0, 0.0, 0.0)

  /** The controller data after Compute(y). */
  function Step(d: LeadData, y: real): (r: LeadData)
    // The error is remembered for the next sample, the gains and limits are kept ...
    ensures r.E_lst == r.E_now == d.Ref - y
    ensures r.A == d.A && r.B == d.B && r.C == d.C && r.Ut_min == d.Ut_min && r.Ut_max == d.Ut_max
    // ... and only the returned action is limited.
    ensures r.Ut_nxt == Limit(r.Ut_now, d.Ut_min, d.Ut_max)
  {
    var e := d.Ref - y;
    var u := d.A * d.Ut_now + d.B * e + d.C * d.E_lst;
    d.(E_now := e, E_lst := e, Ut_now := u, Ut_nxt := Limit(u, d.Ut_min, d.Ut_max))
  }

  /**
   * The difference equation runs on the unlimited action: the stored action
   * is A u + B e + C e_lst before the limiter, the stored error is the new
   * error, and only the returned value is limited.
   */
  lemma StepKeepsUnlimitedAction(d: LeadData, y: real)
    ensures var r := Step(d, y);
      r.E_now == d.Ref - y && r.E_lst == r.E_now
      && r.Ut_now == d.A * d.Ut_now + d.B * (d.Ref - y) + d.C * d.E_lst
      && r.Ut_nxt == Limit(r.Ut_now, d.Ut_min, d.Ut_max)
  {
  }

  /** With consistent limits the output lies between them, and equals the unlimited action whenever that lies between them. */
  lemma OutputLimited(d: LeadData, y: real)
    requires d.Ut_min <= d.Ut_max
    ensures d.Ut_min <= Step(d, y).Ut_nxt <= d.Ut_max
    ensures Step(d, y).Ut_nxt == Step(d, y).Ut_now <==> d.Ut_min <= Step(d, y).Ut_now <= d.Ut_max
  {
    LimitInRange(Step(d, y).Ut_now, d.Ut_min, d.Ut_max);
  }

  /** Compute leaves the reference, the gains and the limits as they are. */
  lemma StepKeepsSettings(d: LeadData, y: real)
    ensures var r := Step(d, y);
      r.Ref == d.Ref && r.A == d.A && r.B == d.B && r.C == d.C && r.Ut_min == d.Ut_min && r.Ut_max == d.Ut_max
  {
  }

  /** Compute applied to the measurements ys in order. */
  function Run(d: LeadData, ys: seq<real>): LeadData
    decreases |ys|
  {
    if ys == [] then d else Step(Run(d, ys[..|ys| - 1]), ys[|ys| - 1])
  }

  /**
   * The limits never feed back into the compensator: runs that differ only
   * in their limits keep the same action and error buffers, and the
   * limits themselves are kept.
   */
  lemma {:induction false} LimitsDoNotFeedBack(d: LeadData, ys: seq<real>, lo: real, hi: real)
    ensures var r, s := Run(d, ys), Run(d.(Ut_min := lo, Ut_max := hi), ys);
      s.Ut_now == r.Ut_now && s.E_lst == r.E_lst && s.E_now == r.E_now
      && s == r.(Ut_min := lo, Ut_max := hi, Ut_nxt := s.Ut_nxt)
    decreases |ys|
  {
    if ys != [] {
      var prefix, y := ys[..|ys| - 1], ys[|ys| - 1];
      LimitsDoNotFeedBack(d, prefix, lo, hi);
      StepIgnoresLimits(Run(d, prefix), Run(d.(Ut_min := lo, Ut_max := hi), prefix), y, lo, hi);
    }
  }

  /** One sample of LimitsDoNotFeedBack: data that differ only in limits and output step alike. */
  lemma StepIgnoresLimits(a: LeadData, b: LeadData, y: real, lo: real, hi: real)
    requires b == a.(Ut_min := lo, Ut_max := hi, Ut_nxt := b.Ut_nxt)
    ensures Step(b, y) == Step(a, y).(Ut_min := lo, Ut_max := hi, Ut_nxt := Step(b, y).Ut_nxt)
  {
  }

  class Lead {
    var Data: LeadData

    /** Lead(): the member initialiser lead_t_default. */
    constructor ()
      ensures Data == Default
    {
      Data := Default;
    }

    /** Lead(A, B, C, Ref, Ut_min, Ut_max): the defaults, then the three setters. */
    constructor WithParameters(a: real, b: real, c: real, ref: real, utMin: real, utMax: real)
      ensures Data == Default.(A := a, B := b, C := c, Ref := ref, Ut_min := utMin, Ut_max := utMax)
    {
      Data := Default;
      new;
      SetGains(a, b, c);
      SetReference(ref);
      SetLimits(utMin, utMax);
    }

    method SetGains(a: real, b: real, c: real)
      modifies this
      ensures Data == old(Data).(A := a, B := b, C := c)
    {
      Data := Data.(A := a);
      Data := Data.(B := b);
      Data := Data.(C := c);
    }

    /** Writes A, B, C to buffer[0..3]. */
    method GetGains(buffer: array<real>)
      requires buffer.Length >= 3
      modifies buffer
      ensures buffer[..3] == [Data.A, Data.B, Data.C] && buffer[3..] == old(buffer[3..])
    {
      buffer[0] := Data.A;
      buffer[1] := Data.B;
      buffer[2] := Data.C;
    }

    method SetReference(newReference: real)
      modifies this
      ensures Data == old(Data).(Ref := newReference)
    {
      Data := Data.(Ref := newReference);
    }

    method GetReference() returns (r: real)
      ensures r == Data.Ref
    {
      r := Data.Ref;
    }

    method SetLimits(utMin: real, utMax: real)
      modifies this
      ensures Data == old(Data).(Ut_min := utMin, Ut_max := utMax)
    {
      Data := Data.(Ut_min := utMin);
      Data := Data.(Ut_max := utMax);
    }

    /** Writes Ut_min, Ut_max to buffer[0..2]. */
    method GetLimits(buffer: array<real>)
      requires buffer.Length >= 2
      modifies buffer
      ensures buffer[..2] == [Data.Ut_min, Data.Ut_max] && buffer[2..] == old(buffer[2..])
    {
      buffer[0] := Data.Ut_min;
      buffer[1] := Data.Ut_max;
    }

    /** SetGains followed by GetGains reads back the gains just set. */
    method GainsRoundTrip(a: real, b: real, c: real, buffer: array<real>)
      requires buffer.Length >= 3
      modifies this, buffer
      ensures buffer[..3] == [a, b, c]
    {
      SetGains(a, b, c);
      GetGains(buffer);
    }

    /** SetLimits followed by GetLimits reads back the limits just set. */
    method LimitsRoundTrip(utMin: real, utMax: real, buffer: array<real>)
      requires buffer.Length >= 2
      modifies this, buffer
      ensures buffer[..2] == [utMin, utMax]
    {
      SetLimits(utMin, utMax);
      GetLimits(buffer);
    }

    /** One compensator sample for the measured output y: the buffers rotate, then the returned action is limited. */
    method Compute(y: real) returns (u: real)
      modifies this
      ensures Data == Step(old(Data), y) && u == Data.Ut_nxt
    {
      Data := Data.(E_now := Data.Ref - y);
      Data := Data.(Ut_nxt := Data.A * Data.Ut_now + Data.B * Data.E_now + Data.C * Data.E_lst);
      Data := Data.(Ut_now := Data.Ut_nxt);
      Data := Data.(E_lst := Data.E_now);
      if Data.Ut_nxt >= Data.Ut_max {
        Data := Data.(Ut_nxt := Data.Ut_max);
      } else if Data.Ut_nxt <= Data.Ut_min {
        Data := Data.(Ut_nxt := Data.Ut_min);
      }
      u := Data.Ut_nxt;
    }

    /** Reset: lead_t_default, gains, reference and limits included. */
    method Reset()
      modifies this
      ensures Data == Default
    {
      Data := Default;
    }
  }
}
