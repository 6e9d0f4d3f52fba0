// Linear-quadratic regulator u = sum of K[i] (Ref[i] - State[i]) over the
// first StateCount states, with an output limiter. class Lqr of
// Source/Lqr_TivaC.cpp: the four arrays of _Data are the arrays K, Ref,
// State and E, its scalars and _StateCount are fields. Floats are modelled
// as reals.
module LqrController {
  import opened Limiter

  type UInt8 = x: int | 0 <= x < 0x100

  /** MAX_LQR_STATES, the length of each array. */
  const MaxStates := 10

  /** The state feedback sum of k[i] * (ref[i] - st[i]) over the first n states. */
  function Action(k: seq<real>, ref: seq<real>, st: seq<real>, n: nat): (r: real)
    requires n <= |k| && n <= |ref| && n <= |st|
    decreases n
  {
    if n == 0 then 0.0 else Action(k, ref, st, n - 1) + k[n - 1] * (ref[n - 1] - st[n - 1])
  }

  /** With every used gain zero the feedback is zero, whatever the errors. */
  lemma {:induction false} ZeroGainsNoAction(k: seq<real>, ref: seq<real>, st: seq<real>, n: nat)
    requires n <= |k| && n <= |ref| && n <= |st|
    requires forall i :: 0 <= i < n ==> k[i] == 0.0
    ensures Action(k, ref, st, n) == 0.0
    decreases n
  {
    if n > 0 {
      ZeroGainsNoAction(k, ref, st, n - 1);
    }
  }

  /** With every state at its reference the feedback is zero, whatever the gains. */
  lemma {:induction false} AtReferenceNoAction(k: seq<real>, ref: seq<real>, st: seq<real>, n: nat)
    requires n <= |k| && n <= |ref| && n <= |st|
    requires forall i :: 0 <= i < n ==> ref[i] == st[i]
    ensures Action(k, ref, st, n) == 0.0
    decreases n
  {
    if n > 0 {
      AtReferenceNoAction(k, ref, st, n - 1);
    }
  }

  /** Only the first n entries count: gains, references and states beyond the state count never reach the output. */
  lemma {:induction false} ActionIgnoresUnusedStates(k: seq<real>, ref: seq<real>, st: seq<real>, k': seq<real>, ref': seq<real>, st': seq<real>, n: nat)
    requires n <= |k| && n <= |ref| && n <= |st| && n <= |k'| && n <= |ref'| && n <= |st'|
    requires k[..n] == k'[..n] && ref[..n] == ref'[..n] && st[..n] == st'[..n]
    ensures Action(k, ref, st, n) == Action(k', ref', st', n)
    decreases n
  {
    if n > 0 {
      assert k[..n][n - 1] == k[n - 1] && k'[..n][n - 1] == k'[n - 1];
      assert ref[..n][n - 1] == ref[n - 1] && ref'[..n][n - 1] == ref'[n - 1];
      assert st[..n][n - 1] == st[n - 1] && st'[..n][n - 1] == st'[n - 1];
      assert k[..n - 1] == k[..n][..n - 1] && k'[..n - 1] == k'[..n][..n - 1];
      assert ref[..n - 1] == ref[..n][..n - 1] && ref'[..n - 1] == ref'[..n][..n - 1];
      assert st[..n - 1] == st[..n][..n - 1] && st'[..n - 1] == st'[..n][..n - 1];
      ActionIgnoresUnusedStates(k, ref, st, k', ref', st', n - 1);
    }
  }

  class Lqr {
    const K: array<real>
    const Ref: array<real>
    const State: array<real>
    const E: array<real>
    var StateCount: UInt8
    var Ut_nxt: real
    var Ut_min: real
    var Ut_max: real

    /** The four arrays of lqr_t, each MAX_LQR_STATES long and separate, and a state count within them. */
    ghost predicate Valid()
      reads this
    {
      K.Length == MaxStates && Ref.Length == MaxStates && State.Length == MaxStates && E.Length == MaxStates
      && K != Ref && K != State && K != E && Ref != State && Ref != E && State != E
      && StateCount <= MaxStates
    }

    /** An array of the caller's: none of the controller's own. */
    predicate Outside(a: array<real>) {
      a != K && a != Ref && a != State && a != E
    }

    /** Lqr(): lqr_t_default and no states. */
    constructor ()
      ensures Valid() && StateCount == 0 && Ut_nxt == 0.0 && Ut_min == 0.0 && Ut_max == 0.0
      ensures forall i :: 0 <= i < MaxStates ==> K[i] == 0.0 && Ref[i] == 0.0 && State[i] == 0.0 && E[i] == 0.0
    {
      K := new real[MaxStates](i => 0.0);
      Ref := new real[MaxStates](i => 0.0);
      State := new real[MaxStates](i => 0.0);
      E := new real[MaxStates](i => 0.0);
      StateCount := 0;
      Ut_nxt, Ut_min, Ut_max := 0.0, 0.0, 0.0;
    }

    /** Lqr(Gains, Refs, Size, Ut_min, Ut_max): the defaults, then Init. */
    constructor WithParameters(gains: array<real>, refs: array<real>, size: UInt8, utMin: real, utMax: real)
      requires size <= MaxStates ==> size <= gains.Length && size <= refs.Length
      ensures Valid() && Ut_min == utMin && Ut_max == utMax
      ensures size <= MaxStates ==> StateCount == size
      ensures size > MaxStates ==> StateCount == 0
      ensures forall i :: 0 <= i < MaxStates ==>
        K[i] == (if i < StateCount then gains[i] else 0.0) && Ref[i] == (if i < StateCount then refs[i] else 0.0)
    {
      K := new real[MaxStates](i => 0.0);
      Ref := new real[MaxStates](i => 0.0);
      State := new real[MaxStates](i => 0.0);
      E := new real[MaxStates](i => 0.0);
      StateCount := 0;
      Ut_nxt, Ut_min, Ut_max := 0.0, 0.0, 0.0;
      new;
      Init(gains, refs, size, utMin, utMax);
    }

    /**
     * Init: a size within MAX_LQR_STATES becomes the state count and the
     * first size gains and references are copied; a larger size changes
     * neither. The limits are set in both cases.
     */
    method Init(gains: array<real>, refs: array<real>, size: UInt8, utMin: real, utMax: real)
      requires Valid() && Outside(gains) && Outside(refs)
      requires size <= MaxStates ==> size <= gains.Length && size <= refs.Length
      modifies this`StateCount, this`Ut_min, this`Ut_max, K, Ref
      ensures Valid() && Ut_min == utMin && Ut_max == utMax
      ensures size <= MaxStates ==> StateCount == size
      ensures size > MaxStates ==> StateCount == old(StateCount)
      ensures forall i :: 0 <= i < MaxStates ==>
        K[i] == (if size <= MaxStates && i < size then gains[i] else old(K[i]))
        && Ref[i] == (if size <= MaxStates && i < size then refs[i] else old(Ref[i]))
    {
      if size <= MaxStates {
        StateCount := size;
        var idx := 0;
        while idx < StateCount
          invariant Valid() && StateCount == size && 0 <= idx <= size
          invariant forall i :: 0 <= i < MaxStates ==>
            K[i] == (if i < idx then gains[i] else old(K[i])) && Ref[i] == (if i < idx then refs[i] else old(Ref[i]))
        {
          SetGain(idx, gains[idx]);
          SetReference(idx, refs[idx]);
          idx := idx + 1;
        }
      }
      SetLimits(utMin, utMax);
    }

    /** SetGain: an index below the state count is written, any other changes nothing. */
    method SetGain(stateIndex: UInt8, newGain: real)
      requires Valid()
      modifies K
      ensures K[..] == if stateIndex < StateCount then old(K[..])[stateIndex := newGain] else old(K[..])
    {
      if stateIndex < StateCount {
        K[stateIndex] := newGain;
      }
    }

    /** SetReference: an index below the state count is written, any other changes nothing. */
    method SetReference(stateIndex: UInt8, newReference: real)
      requires Valid()
      modifies Ref
      ensures Ref[..] == if stateIndex < StateCount then old(Ref[..])[stateIndex := newReference] else old(Ref[..])
    {
      if stateIndex < StateCount {
        Ref[stateIndex] := newReference;
      }
    }

    /** GetReference: the stored reference for an index below the state count, 0 for any other. */
    method GetReference(stateIndex: UInt8) returns (r: real)
      requires Valid()
      ensures r == if stateIndex < StateCount then Ref[stateIndex] else 0.0
    {
      if stateIndex < StateCount {
        return Ref[stateIndex];
      }
      return 0.0;
    }

    /** SetState: an index below the state count is written, any other changes nothing. */
    method SetState(stateIndex: UInt8, newState: real)
      requires Valid()
      modifies State
      ensures State[..] == if stateIndex < StateCount then old(State[..])[stateIndex := newState] else old(State[..])
    {
      if stateIndex < StateCount {
        State[stateIndex] := newState;
      }
    }

    /** GetState: the stored state for an index below the state count, 0 for any other. */
    method GetState(stateIndex: UInt8) returns (r: real)
      requires Valid()
      ensures r == if stateIndex < StateCount then State[stateIndex] else 0.0
    {
      if stateIndex < StateCount {
        return State[stateIndex];
      }
      return 0.0;
    }

    method SetLimits(utMin: real, utMax: real)
      modifies this`Ut_min, this`Ut_max
      ensures Ut_min == utMin && Ut_max == utMax
    {
      Ut_min := utMin;
      Ut_max := utMax;
    }

    /** Writes Ut_min, Ut_max to buffer[0..2]. */
    method GetLimits(buffer: array<real>)
      requires buffer.Length >= 2
      modifies buffer
      ensures buffer[..2] == [Ut_min, Ut_max] && buffer[2..] == old(buffer[2..])
    {
      buffer[0] := Ut_min;
      buffer[1] := Ut_max;
    }

    /** SetLimits followed by GetLimits reads back the limits just set. */
    method LimitsRoundTrip(utMin: real, utMax: real, buffer: array<real>)
      requires buffer.Length >= 2
      modifies this`Ut_min, this`Ut_max, buffer
      ensures buffer[..2] == [utMin, utMax]
    {
      SetLimits(utMin, utMax);
      GetLimits(buffer);
    }

    /** One pass of the Compute loop: the error of state idx is stored and its weighted term added to the action. */
    method AccumulateError(idx: UInt8)
      requires Valid() && idx < StateCount
      modifies this`Ut_nxt, E
      ensures forall i :: 0 <= i < MaxStates ==> E[i] == if i == idx then Ref[i] - State[i] else old(E[i])
      ensures Ut_nxt == old(Ut_nxt) + K[idx] * (Ref[idx] - State[idx])
    {
      E[idx] := Ref[idx] - State[idx];
      Ut_nxt := Ut_nxt + K[idx] * E[idx];
    }

    /**
     * Compute: the errors of the first StateCount states are stored in E and
     * the feedback sum is limited. Gains, references and states are left as
     * they are, and so are the errors beyond the state count.
     */
    method Compute() returns (u: real)
      requires Valid()
      modifies this`Ut_nxt, E
      ensures Valid()
      ensures K[..] == old(K[..]) && Ref[..] == old(Ref[..]) && State[..] == old(State[..])
      ensures forall i :: 0 <= i < MaxStates ==> E[i] == if i < StateCount then Ref[i] - State[i] else old(E[i])
      ensures Ut_nxt == Limit(Action(K[..], Ref[..], State[..], StateCount), Ut_min, Ut_max) && u == Ut_nxt
    {
      ghost var k, r, st := K[..], Ref[..], State[..];
      Ut_nxt := 0.0;
      var idx := 0;
      while idx < StateCount
        invariant 0 <= idx <= StateCount
        invariant K[..] == k && Ref[..] == r && State[..] == st
        invariant Ut_nxt == Action(k, r, st, idx)
        invariant forall i :: 0 <= i < MaxStates ==> E[i] == if i < idx then r[i] - st[i] else old(E[i])
      {
        AccumulateError(idx);
        idx := idx + 1;
      }
      if Ut_nxt >= Ut_max {
        Ut_nxt := Ut_max;
      } else if Ut_nxt <= Ut_min {
        Ut_nxt := Ut_min;
      }
      u := Ut_nxt;
    }
  }

  /** With consistent limits the LQR output lies between them; at the reference it is the limit of zero. */
  lemma OutputLimited(k: seq<real>, ref: seq<real>, st: seq<real>, n: nat, lo: real, hi: real)
    requires n <= |k| && n <= |ref| && n <= |st| && lo <= hi
    ensures lo <= Limit(Action(k, ref, st, n), lo, hi) <= hi
    ensures (forall i :: 0 <= i < n ==> ref[i] == st[i]) ==> Limit(Action(k, ref, st, n), lo, hi) == Limit(0.0, lo, hi)
  {
    LimitInRange(Action(k, ref, st, n), lo, hi);
    if forall i :: 0 <= i < n ==> ref[i] == st[i] {
      AtReferenceNoAction(k, ref, st, n);
    }
  }
}
