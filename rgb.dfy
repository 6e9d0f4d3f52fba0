// RGB LED fade scheduler. A colour change either takes effect on the next
// service tick or fades over FadeSteps ticks of the PWM-rate service: each
// component steps by one, once every StepSkip ticks, and the colour snaps to
// the target when the step counter reaches FadeSteps.
//
// Source_C/Rgb_TivaC.c keeps the fade variables in file statics and runs
// _FadeService from a timer interrupt; Source/Rgb_TivaC.cpp keeps the colours,
// FadeSteps and the counter in members of class Rgb, the fading flag and the
// three skips in function statics of PwmIsr that all Rgb objects share, and
// runs PwmIsr from the PWM interrupt. Both share the
// colour logic below (FadeState, Fade); the two classes differ in SetColor
// and in the timer.
module RgbDriver {

  type UInt8 = x: int | 0 <= x < 0x100
  type UInt16 = x: int | 0 <= x < 0x1_0000
  type UInt32 = x: int | 0 <= x < 0x1_0000_0000

  /** rgb_params_t.PwmFrequency (Hz); the drivers divide by it, so zero is excluded. */
  type Frequency = x: int | 0 < x < 0x1_0000 witness 1

  /** rgb_color_t. */
  datatype Color = Color(R: UInt8, G: UInt8, B: UInt8)

  /** RGB_OFF, the initial value of both colours. */
  const Off := Color(0x00, 0x00, 0x00)

  /** _ColorsAreEqual: component by component. */
  function ColorsAreEqual(color1: Color, color2: Color): (r: bool)
    ensures r <==> color1 == color2
  {
    color1.R == color2.R && color1.G == color2.G && color1.B == color2.B
  }

  // ---------------------------------------------------------------------
  // Step skip

  function Distance(a: UInt8, b: UInt8): nat {
    if a >= b then a - b else b - a
  }

  /**
   * _CalculateStepSkip: 0 for equal values, 1 when the distance is at least
   * the number of steps, otherwise the float quotient plus one half,
   * truncated by the conversion to the uint16_t result.
   */
  function CalculateStepSkip(newValue: UInt8, currentValue: UInt8, fadeSteps: UInt16): (r: UInt16)
    // A component that differs steps at least once over the fade and at most on every tick.
    ensures newValue != currentValue ==> 1 <= r && (r == 1 || r <= fadeSteps)
    ensures newValue == currentValue ==> r == 0
  {
    var diff := Distance(newValue, currentValue);
    if diff == 0 then 0
    else if diff >= fadeSteps then 1
    else
      RoundedQuotient(fadeSteps, diff);
      ((fadeSteps as real) / (diff as real) + 0.5).Floor
  }

  /** F / D + 1/2 rounded down is the integer (2F + D) div 2D, which lies between 1 and F. */
  lemma RoundedQuotient(f: nat, d: nat)
    requires 0 < d < f
    ensures ((f as real) / (d as real) + 0.5).Floor == (2 * f + d) / (2 * d)
    ensures 1 <= (2 * f + d) / (2 * d) <= f
  {
    var a, b := 2 * f + d, 2 * d;
    DivBounds(a, b);
    RealBetween(a / b, a, b);
    HalfShift(f as real, d as real);
    QuotientBounds(f, d);
  }

  lemma QuotientBounds(f: nat, d: nat)
    requires 0 < d < f
    ensures 1 <= (2 * f + d) / (2 * d) <= f
  {
    var a, b := 2 * f + d, 2 * d;
    var k := a / b;
    DivBounds(a, b);
    if k <= 0 {
      MulMono(k + 1, 1, b);
      assert false;
    }
    if k > f {
      MulMono(f + 1, k, b);
      assert (f + 1) * b == 2 * (f * d) + 2 * d;
      MulMono(1, d, f);
      assert false;
    }
  }

  lemma MulMono(x: int, y: int, c: nat)
    requires x <= y
    ensures x * c <= y * c
  {
  }

  lemma DivBounds(a: int, b: int)
    requires a >= 0 && b > 0
    ensures (a / b) * b <= a < (a / b + 1) * b
  {
    assert a == (a / b) * b + a % b;
  }

  lemma Cancel(x: real, y: real, c: real)
    requires c > 0.0 && x * c == y * c
    ensures x == y
  {
    assert (x - y) * c == 0.0;
  }

  lemma MulLess(x: real, y: real, c: real)
    requires c > 0.0 && x < y
    ensures x * c < y * c
  {
    assert (y - x) * c > 0.0;
  }

  /** f / d + 1/2 == (2f + d) / 2d over the reals. */
  lemma HalfShift(f: real, d: real)
    requires d > 0.0
    ensures f / d + 0.5 == (2.0 * f + d) / (2.0 * d)
  {
    var u, v := f / d, (2.0 * f + d) / (2.0 * d);
    assert u * d == f;
    assert v * (2.0 * d) == 2.0 * f + d;
    assert (u + 0.5) * (2.0 * d) == 2.0 * (u * d) + d;
    Cancel(u + 0.5, v, 2.0 * d);
  }

  /** k * b <= a < (k + 1) * b puts the real quotient a / b in [k, k + 1), so it rounds down to k. */
  lemma RealBetween(k: int, a: int, b: int)
    requires b > 0 && k * b <= a < (k + 1) * b
    ensures ((a as real) / (b as real)).Floor == k
  {
    var q, br, kr := (a as real) / (b as real), b as real, k as real;
    assert q * br == a as real;
    assert kr * br == (k * b) as real;
    assert (kr + 1.0) * br == ((k + 1) * b) as real;
    if q < kr {
      MulLess(q, kr, br);
    }
    if kr + 1.0 <= q {
      if kr + 1.0 < q {
        MulLess(kr + 1.0, q, br);
      }
    }
  }

  /** The skip is 0 exactly for equal values; otherwise it is F / D rounded half up, at least 1. */
  lemma StepSkipRounds(newValue: UInt8, currentValue: UInt8, fadeSteps: UInt16)
    ensures var r, diff := CalculateStepSkip(newValue, currentValue, fadeSteps), Distance(newValue, currentValue);
      && (r == 0 <==> newValue == currentValue)
      && (diff != 0 && diff >= fadeSteps ==> r == 1)
      && (0 < diff < fadeSteps ==> 1 <= r && diff * (2 * r - 1) <= 2 * fadeSteps < diff * (2 * r + 1))
  {
    var diff := Distance(newValue, currentValue);
    if 0 < diff < fadeSteps {
      RoundedQuotient(fadeSteps, diff);
      var q := (2 * fadeSteps + diff) / (2 * diff);
      assert CalculateStepSkip(newValue, currentValue, fadeSteps) == q;
      RoundingBounds(fadeSteps, diff, q);
    }
  }

  /** The rounded quotient q = (2F + D) div 2D lies within half a step of F / D: D(2q - 1) <= 2F < D(2q + 1). */
  lemma RoundingBounds(f: nat, d: nat, q: int)
    requires 0 < d < f && q == (2 * f + d) / (2 * d)
    ensures d * (2 * q - 1) <= 2 * f < d * (2 * q + 1)
  {
    DivBounds(2 * f + d, 2 * d);
  }

  // ---------------------------------------------------------------------
  // The fade tick shared by _FadeService and PwmIsr

  /**
   * The uint8_t update Current += (New > Current ? 1 : -1): one step toward a
   * larger target, otherwise one step down, 0 wrapping to 255.
   */
  function Nudge(current: UInt8, target: UInt8): (r: UInt8)
    ensures r != current
    ensures target > current ==> r > current
    ensures target < current ==> r < current
  {
    if target > current then (current + 1) % 0x100 else (current + 0xFF) % 0x100
  }

  lemma NudgeSteps(current: UInt8, target: UInt8)
    ensures target > current ==> Nudge(current, target) == current + 1
    ensures target <= current && current > 0 ==> Nudge(current, target) == current - 1
    ensures target <= current && current == 0 ==> Nudge(current, target) == 0xFF
  {
  }

  /**
   * StepCounter % skip on the 32-bit counter. For a zero skip this is the
   * value the Cortex-M4 computes with its divide-by-zero trap disabled (UDIV
   * gives 0, so the remainder is the dividend); C leaves it undefined, and the
   * drivers record that it happened.
   */
  function Remainder(x: UInt32, skip: UInt16): (r: nat)
    ensures skip != 0 ==> r < skip
    ensures skip == 1 ==> r == 0
    ensures skip == 0 ==> r == x
  {
    if skip == 0 then x else x % skip
  }

  /** The fade variables: the two colours, FadeSteps, StepCounter and the function statics _IsFading and _StepSkipR/G/B. */
  datatype FadeState = FadeState(
    Current: Color, New: Color, FadeSteps: UInt32, StepCounter: UInt32,
    IsFading: bool, SkipR: UInt16, SkipG: UInt16, SkipB: UInt16)

  /** The condition of the tick's if: a fade is requested and the colours still differ. */
  predicate Fading(s: FadeState) {
    s.FadeSteps != 0 && !ColorsAreEqual(s.Current, s.New)
  }

  /** "Not already fading": the counter restarts and the three skips are computed, with FadeSteps passed as a uint16_t. */
  function Started(s: FadeState): (r: FadeState)
    ensures r.IsFading && r.Current == s.Current && r.New == s.New && r.FadeSteps == s.FadeSteps
    ensures s.IsFading ==> r == s
    // A fade that starts restarts the counter; a component gets a zero skip exactly when it is already at its target.
    ensures !s.IsFading ==>
      && r.StepCounter == 0
      && (r.SkipR == 0 <==> s.New.R == s.Current.R)
      && (r.SkipG == 0 <==> s.New.G == s.Current.G)
      && (r.SkipB == 0 <==> s.New.B == s.Current.B)
  {
    if s.IsFading then s
    else
      var steps := s.FadeSteps % 0x1_0000;
      s.(StepCounter := 0, IsFading := true,
         SkipR := CalculateStepSkip(s.New.R, s.Current.R, steps),
         SkipG := CalculateStepSkip(s.New.G, s.Current.G, steps),
         SkipB := CalculateStepSkip(s.New.B, s.Current.B, steps))
  }

  /** One component of the tick, `if ((StepCounter % skip) == 0) current += ...`: a step on the ticks the skip selects. */
  function Component(counter: UInt32, skip: UInt16, current: UInt8, target: UInt8): (r: UInt8)
    // The component moves, by one step toward the target, exactly on the ticks its skip selects;
    ensures r != current <==> Remainder(counter, skip) == 0
    ensures r != current ==> r == Nudge(current, target)
    // a skip of 1 moves it on every tick, and a zero skip only on a zero counter.
    ensures skip == 1 ==> r != current
    ensures skip == 0 ==> (r != current <==> counter == 0)
  {
    if Remainder(counter, skip) == 0 then Nudge(current, target) else current
  }

  /** The counter increment, the three component updates and the snap once the counter reaches FadeSteps. */
  function Stepped(s: FadeState): (r: FadeState)
    ensures r.New == s.New && r.FadeSteps == s.FadeSteps
    ensures r.SkipR == s.SkipR && r.SkipG == s.SkipG && r.SkipB == s.SkipB
    // The counter counts the tick modulo 2^32 ...
    ensures r.StepCounter == (s.StepCounter + 1) % 0x1_0000_0000
    // ... the fade goes on exactly while the counter is below FadeSteps, and ends on the target.
    ensures r.IsFading <==> s.IsFading && r.StepCounter < s.FadeSteps
    ensures r.StepCounter >= s.FadeSteps ==> r.Current == s.New
  {
    var counter := (s.StepCounter + 1) % 0x1_0000_0000;
    var current := Color(
      Component(counter, s.SkipR, s.Current.R, s.New.R),
      Component(counter, s.SkipG, s.Current.G, s.New.G),
      Component(counter, s.SkipB, s.Current.B, s.New.B));
    if counter >= s.FadeSteps then s.(StepCounter := counter, Current := s.New, IsFading := false)
    else s.(StepCounter := counter, Current := current)
  }

  /** The colour logic of one tick of _FadeService / PwmIsr. */
  function Fade(s: FadeState): (r: FadeState)
    ensures r.New == s.New && r.FadeSteps == s.FadeSteps
    // Whenever no fade runs after the tick, the colour is the target ...
    ensures !r.IsFading ==> r.Current == s.New
    // ... and a fading tick keeps fading exactly while its counter is below FadeSteps.
    ensures Fading(s) ==> (r.IsFading <==> r.StepCounter < s.FadeSteps)
  {
    if Fading(s) then Stepped(Started(s)) else s.(Current := s.New, IsFading := false)
  }

  /** The tick takes a remainder by a zero skip (undefined in C). */
  predicate DividesByZero(s: FadeState) {
    Fading(s) && (Started(s).SkipR == 0 || Started(s).SkipG == 0 || Started(s).SkipB == 0)
  }

  /** A tick without a pending fade takes the target colour at once and ends any fade; nothing else changes. */
  lemma NoFadeSnaps(s: FadeState)
    requires !Fading(s)
    ensures Fade(s).Current == s.New && !Fade(s).IsFading
    ensures Fade(s).New == s.New && Fade(s).FadeSteps == s.FadeSteps && Fade(s).StepCounter == s.StepCounter
    ensures (Fade(s).SkipR, Fade(s).SkipG, Fade(s).SkipB) == (s.SkipR, s.SkipG, s.SkipB)
  {
  }

  /** The skips are computed when a fade starts and kept while it runs; the counter counts the fading ticks. */
  lemma FadeKeepsSkips(s: FadeState)
    requires Fading(s)
    ensures var steps := s.FadeSteps % 0x1_0000;
      && (s.IsFading ==> (Fade(s).SkipR, Fade(s).SkipG, Fade(s).SkipB) == (s.SkipR, s.SkipG, s.SkipB))
      && (!s.IsFading ==>
            Fade(s).SkipR == CalculateStepSkip(s.New.R, s.Current.R, steps)
            && Fade(s).SkipG == CalculateStepSkip(s.New.G, s.Current.G, steps)
            && Fade(s).SkipB == CalculateStepSkip(s.New.B, s.Current.B, steps))
    ensures Fade(s).StepCounter == ((if s.IsFading then s.StepCounter else 0) + 1) % 0x1_0000_0000
    ensures Fade(s).New == s.New && Fade(s).FadeSteps == s.FadeSteps
  {
  }

  /** A component moves by one, up or down modulo 256, or not at all. */
  predicate OneStep(before: UInt8, after: UInt8) {
    after == before || after == (before + 1) % 0x100 || after == (before + 0xFF) % 0x100
  }

  /** A fading tick that does not complete the fade moves each component by at most one step, in the direction the target gives. */
  lemma FadeStepsByOne(s: FadeState)
    requires Fading(s) && Fade(s).StepCounter < s.FadeSteps
    ensures Fade(s).IsFading
    ensures OneStep(s.Current.R, Fade(s).Current.R) && OneStep(s.Current.G, Fade(s).Current.G) && OneStep(s.Current.B, Fade(s).Current.B)
    ensures Fade(s).Current.R != s.Current.R ==> Fade(s).Current.R == Nudge(s.Current.R, s.New.R)
    ensures Fade(s).Current.G != s.Current.G ==> Fade(s).Current.G == Nudge(s.Current.G, s.New.G)
    ensures Fade(s).Current.B != s.Current.B ==> Fade(s).Current.B == Nudge(s.Current.B, s.New.B)
  {
  }

  /** The tick on which the counter reaches FadeSteps ends with the target colour and the fade over. */
  lemma FadeCompletes(s: FadeState)
    requires Fading(s) && Fade(s).StepCounter >= s.FadeSteps
    ensures Fade(s).Current == s.New && !Fade(s).IsFading
  {
  }

  /** A zero skip occurs exactly when a fade starts with some component already at its target. */
  lemma ZeroSkipAtStart(s: FadeState)
    requires Fading(s) && !s.IsFading
    ensures DividesByZero(s) <==> s.New.R == s.Current.R || s.New.G == s.Current.G || s.New.B == s.Current.B
  {
    var steps := s.FadeSteps % 0x1_0000;
    StepSkipRounds(s.New.R, s.Current.R, steps);
    StepSkipRounds(s.New.G, s.Current.G, steps);
    StepSkipRounds(s.New.B, s.Current.B, steps);
  }

  /** n ticks with no SetColor in between. */
  function Ticks(s: FadeState, n: nat): FadeState
    decreases n
  {
    if n == 0 then s else Ticks(Fade(s), n - 1)
  }

  /** Once the colour has been reached and no fade runs, further ticks keep it. */
  lemma {:induction false} SettledStays(s: FadeState, n: nat)
    requires s.Current == s.New && !s.IsFading
    ensures Ticks(s, n).Current == s.New && !Ticks(s, n).IsFading && Ticks(s, n).New == s.New
    decreases n
  {
    if n > 0 {
      assert Fade(s) == s;
      SettledStays(Fade(s), n - 1);
    }
  }

  /**
   * A fade that starts from rest ends on the target colour after FadeSteps
   * ticks at the latest, however the components moved in between.
   */
  lemma FadeFinishes(s: FadeState)
    requires Fading(s) && !s.IsFading && s.FadeSteps < 0xFFFF_FFFF
    ensures Ticks(s, s.FadeSteps).Current == s.New && !Ticks(s, s.FadeSteps).IsFading
  {
    FadeProgress(s, s.FadeSteps, s.New, s.FadeSteps);
  }

  /** A fading tick from rest or below the counter's wrap counts one tick and keeps the target and FadeSteps. */
  lemma FadingTick(s: FadeState)
    requires Fading(s) && (s.IsFading ==> s.StepCounter < 0xFFFF_FFFF)
    ensures Fade(s).New == s.New && Fade(s).FadeSteps == s.FadeSteps
    ensures Fade(s).StepCounter == (if s.IsFading then s.StepCounter else 0) + 1
    ensures Fade(s).IsFading <==> Fade(s).StepCounter < s.FadeSteps
    ensures Fade(s).StepCounter >= s.FadeSteps ==> Fade(s).Current == s.New
  {
    assert Fade(s) == Stepped(Started(s));
  }

  /**
   * After k <= FadeSteps ticks from rest, either the fade is still running
   * with k fading ticks counted, or it has settled on the target; at
   * k == FadeSteps it has settled.
   */
  lemma {:induction false} FadeProgress(s: FadeState, k: nat, target: Color, steps: UInt32)
    requires s.New == target && s.FadeSteps == steps && 0 < steps < 0xFFFF_FFFF && k <= steps
    requires (s.IsFading && 0 < s.StepCounter < steps && s.StepCounter + k == steps)
          || (!s.IsFading && Fading(s) && k == steps)
          || (!s.IsFading && s.Current == target)
    ensures Ticks(s, k).Current == target && !Ticks(s, k).IsFading
    decreases k
  {
    if k == 0 {
    } else if !s.IsFading && s.Current == target {
      SettledStays(s, k);
    } else {
      var t := Fade(s);
      if Fading(s) {
        FadingTick(s);
        if t.StepCounter >= steps {
          SettledStays(t, k - 1);
        } else {
          FadeProgress(t, k - 1, target, steps);
        }
      } else {
        NoFadeSnaps(s);
        SettledStays(t, k - 1);
      }
    }
  }

  // ---------------------------------------------------------------------
  // SetColor

  /** (FadeTime != 0) * (FadeTime * 1000) / PwmFrequency, in int arithmetic. */
  function FadeStepsFor(fadeTime: UInt16, pwmFrequency: Frequency): (r: nat)
    ensures r * pwmFrequency <= fadeTime * 1000 < (r + 1) * pwmFrequency
    ensures r < 0x1_0000_0000
  {
    (if fadeTime != 0 then 1 else 0) * (fadeTime * 1000) / pwmFrequency
  }

  /** No fade (FadeSteps == 0) exactly when FadeTime * 1000 ms-units fall short of one PWM period. */
  lemma NoFadeForShortTimes(fadeTime: UInt16, pwmFrequency: Frequency)
    ensures FadeStepsFor(fadeTime, pwmFrequency) == 0 <==> fadeTime * 1000 < pwmFrequency
  {
    var r := FadeStepsFor(fadeTime, pwmFrequency);
    if r >= 1 {
      MulMono(1, r, pwmFrequency);
    }
  }

  /** The C SetColor's cap: at most PwmFrequency steps, one second of ticks. */
  function CappedFadeSteps(fadeTime: UInt16, pwmFrequency: Frequency): (r: UInt32)
    ensures r <= pwmFrequency && r <= FadeStepsFor(fadeTime, pwmFrequency)
    ensures r == FadeStepsFor(fadeTime, pwmFrequency) || r == pwmFrequency
  {
    var steps := FadeStepsFor(fadeTime, pwmFrequency);
    if steps > pwmFrequency then pwmFrequency else steps
  }

  /**
   * With the cap, FadeSteps reaches _CalculateStepSkip unchanged by the
   * uint16_t parameter; without it (the C++ SetColor) a long fade at a low
   * frequency is truncated.
   */
  lemma CapKeepsStepsWhole(fadeTime: UInt16, pwmFrequency: Frequency)
    ensures CappedFadeSteps(fadeTime, pwmFrequency) % 0x1_0000 == CappedFadeSteps(fadeTime, pwmFrequency)
    ensures FadeStepsFor(65535, 1) % 0x1_0000 != FadeStepsFor(65535, 1)
  {
  }

  // ---------------------------------------------------------------------
  // The C module

  /** The file statics of Source_C/Rgb_TivaC.c and the function statics of _FadeService. */
  class RgbModule {
    const PwmFrequency: Frequency
    var CurrentColor: Color
    var NewColor: Color
    var FadeSteps: UInt32
    var StepCounter: UInt32
    var IsFading: bool
    var StepSkipR: UInt16
    var StepSkipG: UInt16
    var StepSkipB: UInt16
    /** Whether the service timer is enabled. */
    var TimerOn: bool
    /** Some tick has taken a remainder by a zero skip. */
    ghost var DividedByZero: bool

    ghost function State(): FadeState
      reads this
    {
      FadeState(CurrentColor, NewColor, FadeSteps, StepCounter, IsFading, StepSkipR, StepSkipG, StepSkipB)
    }

    /** The static initialisers, then Rgb_Init: _InitHardware ends with Rgb_SetColor(_NewColor, 0). */
    constructor Init(pwmFrequency: Frequency)
      ensures PwmFrequency == pwmFrequency
      ensures State() == FadeState(Off, Off, 0, 0, false, 0, 0, 0)
      ensures TimerOn && !DividedByZero
    {
      PwmFrequency := pwmFrequency;
      CurrentColor, NewColor := Off, Off;
      FadeSteps, StepCounter := 0, 0;
      IsFading := false;
      StepSkipR, StepSkipG, StepSkipB := 0, 0, 0;
      TimerOn := false;
      DividedByZero := false;
      new;
      SetColor(NewColor, 0);
    }

    /** Rgb_SetColor: the counter restarts, the fade steps are capped at PwmFrequency and the timer is enabled. */
    method SetColor(color: Color, fadeTime: UInt16)
      modifies this`StepCounter, this`NewColor, this`FadeSteps, this`TimerOn
      ensures NewColor == color && StepCounter == 0 && TimerOn
      ensures FadeSteps == CappedFadeSteps(fadeTime, PwmFrequency)
    {
      StepCounter := 0;
      NewColor := color;
      assert (if fadeTime != 0 then 1 else 0) * (fadeTime * 1000) / PwmFrequency == FadeStepsFor(fadeTime, PwmFrequency);
      FadeSteps := (if fadeTime != 0 then 1 else 0) * (fadeTime * 1000) / PwmFrequency;
      if FadeSteps > PwmFrequency {
        FadeSteps := PwmFrequency;
      }
      TimerOn := true;
    }

    /** The "not already fading" block of _FadeService: the counter restarts and the three skips are computed. */
    method StartFade()
      modifies this`StepCounter, this`IsFading, this`StepSkipR, this`StepSkipG, this`StepSkipB
      ensures State() == Started(old(State()))
    {
      if !IsFading {
        StepCounter := 0;
        IsFading := true;
        StepSkipR := CalculateStepSkip(NewColor.R, CurrentColor.R, FadeSteps % 0x1_0000);
        StepSkipG := CalculateStepSkip(NewColor.G, CurrentColor.G, FadeSteps % 0x1_0000);
        StepSkipB := CalculateStepSkip(NewColor.B, CurrentColor.B, FadeSteps % 0x1_0000);
      }
    }

    /** _FadeService without the PWM period and duty writes: the fade tick, and the timer switched off when no fade is pending. */
    method FadeService()
      modifies this
      ensures State() == Fade(old(State()))
      ensures TimerOn == (old(TimerOn) && Fading(old(State())))
      ensures DividedByZero == (old(DividedByZero) || DividesByZero(old(State())))
    {
      if FadeSteps != 0 && !ColorsAreEqual(CurrentColor, NewColor) {
        StartFade();
        StepCounter := (StepCounter + 1) % 0x1_0000_0000;
        DividedByZero := DividedByZero || StepSkipR == 0 || StepSkipG == 0 || StepSkipB == 0;
        CurrentColor := CurrentColor.(R := Component(StepCounter, StepSkipR, CurrentColor.R, NewColor.R));
        CurrentColor := CurrentColor.(G := Component(StepCounter, StepSkipG, CurrentColor.G, NewColor.G));
        CurrentColor := CurrentColor.(B := Component(StepCounter, StepSkipB, CurrentColor.B, NewColor.B));
        if StepCounter >= FadeSteps {
          CurrentColor := NewColor;
          IsFading := false;
        }
      } else {
        CurrentColor := NewColor;
        IsFading := false;
        TimerOn := false;
      }
    }

    /** Rgb_GetColor, for a non-null buffer: the current colour. */
    method GetColor() returns (color: Color)
      ensures color == CurrentColor
    {
      color := CurrentColor;
    }

    /** Rgb_IsChangingColor: the current colour differs from the target. */
    method IsChangingColor() returns (changing: bool)
      ensures changing <==> CurrentColor != NewColor
    {
      changing := !ColorsAreEqual(CurrentColor, NewColor);
    }
  }

  // ---------------------------------------------------------------------
  // The C++ class

  /**
   * The function statics of Rgb::PwmIsr. There is one copy in the program,
   * so every Rgb object reads and writes the same one.
   */
  class PwmIsrStatics {
    var IsFading: bool
    var StepSkipR: UInt16
    var StepSkipG: UInt16
    var StepSkipB: UInt16

    /** Their initial values: not fading, every skip 0. */
    constructor ()
      ensures !IsFading && StepSkipR == 0 && StepSkipG == 0 && StepSkipB == 0
    {
      IsFading := false;
      StepSkipR, StepSkipG, StepSkipB := 0, 0, 0;
    }
  }

  /** The fade members of class Rgb; Statics is the statics object all Rgb objects share. */
  class Rgb {
    const PwmFrequency: Frequency
    const Statics: PwmIsrStatics
    var CurrentColor: Color
    var NewColor: Color
    var FadeSteps: UInt32
    var StepCounter: UInt32
    /** Some tick of this object has taken a remainder by a zero skip. */
    ghost var DividedByZero: bool

    ghost function State(): FadeState
      reads this, Statics
    {
      FadeState(CurrentColor, NewColor, FadeSteps, StepCounter,
                Statics.IsFading, Statics.StepSkipR, Statics.StepSkipG, Statics.StepSkipB)
    }

    /**
     * Rgb(Config): the member initialisers, then Init; _InitHardware calls
     * SetColor(_NewColor, 0). The shared statics keep whatever earlier
     * objects left in them.
     */
    constructor Init(pwmFrequency: Frequency, statics: PwmIsrStatics)
      ensures PwmFrequency == pwmFrequency && Statics == statics
      ensures CurrentColor == Off && NewColor == Off && FadeSteps == 0 && StepCounter == 0
      ensures !DividedByZero
    {
      PwmFrequency := pwmFrequency;
      Statics := statics;
      CurrentColor, NewColor := Off, Off;
      FadeSteps, StepCounter := 0, 0;
      DividedByZero := false;
      new;
      SetColor(NewColor, 0);
    }

    /** SetColor: the target and the fade steps; no cap, and the counter is left as it is. */
    method SetColor(color: Color, fadeTime: UInt16)
      modifies this`NewColor, this`FadeSteps
      ensures NewColor == color && FadeSteps == FadeStepsFor(fadeTime, PwmFrequency)
    {
      NewColor := Color(color.R, color.G, color.B);
      assert (if fadeTime != 0 then 1 else 0) * (fadeTime * 1000) / PwmFrequency == FadeStepsFor(fadeTime, PwmFrequency);
      FadeSteps := (if fadeTime != 0 then 1 else 0) * (fadeTime * 1000) / PwmFrequency;
    }

    /** GetColor: the current colour, copied component by component. */
    method GetColor() returns (color: Color)
      ensures color == CurrentColor
    {
      color := Color(CurrentColor.R, CurrentColor.G, CurrentColor.B);
    }

    /** The "not already fading" block of PwmIsr: the counter restarts and the three skips are computed. */
    method StartFade()
      modifies this`StepCounter, Statics
      ensures State() == Started(old(State()))
    {
      if !Statics.IsFading {
        StepCounter := 0;
        Statics.IsFading := true;
        Statics.StepSkipR := CalculateStepSkip(NewColor.R, CurrentColor.R, FadeSteps % 0x1_0000);
        Statics.StepSkipG := CalculateStepSkip(NewColor.G, CurrentColor.G, FadeSteps % 0x1_0000);
        Statics.StepSkipB := CalculateStepSkip(NewColor.B, CurrentColor.B, FadeSteps % 0x1_0000);
      }
    }

    /** PwmIsr without the PWM period and duty writes: the fade tick. */
    method PwmIsr()
      modifies this, Statics
      ensures State() == Fade(old(State()))
      ensures DividedByZero == (old(DividedByZero) || DividesByZero(old(State())))
    {
      if FadeSteps != 0 && !ColorsAreEqual(CurrentColor, NewColor) {
        StartFade();
        StepCounter := (StepCounter + 1) % 0x1_0000_0000;
        DividedByZero := DividedByZero || Statics.StepSkipR == 0 || Statics.StepSkipG == 0 || Statics.StepSkipB == 0;
        CurrentColor := CurrentColor.(R := Component(StepCounter, Statics.StepSkipR, CurrentColor.R, NewColor.R));
        CurrentColor := CurrentColor.(G := Component(StepCounter, Statics.StepSkipG, CurrentColor.G, NewColor.G));
        CurrentColor := CurrentColor.(B := Component(StepCounter, Statics.StepSkipB, CurrentColor.B, NewColor.B));
        if StepCounter >= FadeSteps {
          CurrentColor := NewColor;
          Statics.IsFading := false;
        }
      } else {
        CurrentColor := NewColor;
        Statics.IsFading := false;
      }
    }
  }

  /**
   * A PWM tick of LED b while LED a, which shares the statics, is fading:
   * b finds the fading flag set, so its fade skips the skip computation and
   * steps with the skips a's fade computed; and when b's fade ends, a's
   * flag is cleared too.
   */
  method TickWhileOtherFades(a: Rgb, b: Rgb)
    requires a != b && a.Statics == b.Statics && a.State().IsFading
    modifies b, b.Statics
    ensures b.State() == Fade(old(b.State()))
    ensures Fading(old(b.State())) ==>
      (b.State().SkipR, b.State().SkipG, b.State().SkipB) == (old(a.State().SkipR), old(a.State().SkipG), old(a.State().SkipB))
    ensures a.State().IsFading == b.State().IsFading
    ensures a.CurrentColor == old(a.CurrentColor) && a.StepCounter == old(a.StepCounter)
  {
    ghost var s := b.State();
    b.PwmIsr();
    if Fading(s) {
      FadeKeepsSkips(s);
    }
  }
}
