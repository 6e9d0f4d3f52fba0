# TivaC driver library: verified model of the sequential cores

This project models the self-contained logic of a TivaC (TM4C123) driver
library and proves properties of that logic. It covers:

- the **stepper velocity controller** (`stepper.dfy`, module `StepperDriver`): `Stepper_Move`, the per-tick ramp `_CalculateVel`, `_SetVel`, the PWM divider and dead-zone logic of `_SetPwmFreq`, the limit-switch handler, `Stepper_Stop` and the stall check;
- the **push-button click decoder** (`button.dfy`, module `ButtonInput`): the five-state `ScanEvent` machine with multi-click and long-click counting;
- the **Nokia 5110 LCD frame buffer** (`lcd.dfy` and `lcd_fonts.dfy`, modules `LcdDriver` and `LcdFonts`): the 6 x 84 byte buffer, its wrapping cursor, the pixel modes, the clear, draw and text writers, the status flags and `Commit`, which is modelled as the byte trace it sends;
- the **helper routines** (`aux_functions.dfy`, module `AuxFunctions`): `Map`, `Min`, `Max`, `FastFabs`, `Strcpy`, `StrReverse` and the integer-to-text conversion `L2Str`;
- the **RGB LED fade scheduler** (`rgb.dfy`, module `RgbDriver`), in both its C form (`Rgb_*`, `_FadeService`) and its C++ form (class `Rgb`, `PwmIsr`);
- the **discrete controllers**: PID (`pid.dfy`, module `PidController`), lead compensator (`lead.dfy`, module `LeadController`) and LQR (`lqr.dfy`, module `LqrController`), which share the output limiter of `limiter.dfy` (module `Limiter`).

Each stateful driver is a class whose fields stand for the C statics or the
C++ members. Its methods change those fields in the order the source does;
the one exception is Stepper.CalculateVelCorrected, the corrected ramp-timer
handler of the first Findings row, which exists beside the handler as written.
The function statics of the C++ `Rgb::PwmIsr` (the fading flag and the three
skips) are one `PwmIsrStatics` object that every `Rgb` is constructed with, so
all LEDs share them as they do in the source.
A pure specification function gives the new state: `Fade`, `ScanStep`,
`Draw`, `Step` and so on. Each method's `ensures` ties its new state to that
function, and lemmas prove the promised properties of the function.

Hardware is abstracted as follows:

- Hardware reads are method parameters: the button level, the limit-switch levels, the encoder count.
- Hardware writes are fields: the enable line, the ramp timer and the RGB service timer.
- The only hardware output the LCD model keeps is the trace of bytes that `Commit` sends.

Floats are reals with exact arithmetic. Unsigned integer widths are written out wherever wrap-around or truncation can occur:

- the uint8 colour components, which step modulo 256;
- the uint32 fade counter;
- FadeSteps, truncated to uint16 when it is passed to `_CalculateStepSkip`;
- the uint8 and uint16 button counters.

## Model

| member | source | states |
|---|---|---|
| AuxFunctions.Map | Source/Aux_Functions.cpp:33-43 | at or above InMax gives OutMax; otherwise at or below InMin gives OutMin; strictly inside, the result is the linear interpolation (stated as the cross-multiplied proportion) |
| AuxFunctions.MapBetween | Source/Aux_Functions.cpp:33-43 | for InMin < InMax the mapped value lies between OutMin and OutMax, for every input |
| AuxFunctions.MapMonotone | Source/Aux_Functions.cpp:33-43 | with increasing input and output ranges, Map preserves the order of its inputs |
| AuxFunctions.Min | Source/Aux_Functions.cpp:53-56 | the result is one of the two arguments and at most both |
| AuxFunctions.Max | Source/Aux_Functions.cpp:66-69 | the result is one of the two arguments and at least both |
| AuxFunctions.FastFabs | Source/Aux_Functions.cpp:232-235 | the result is non-negative and is x or -x |
| AuxFunctions.CStringLength | Source/Aux_Functions.cpp:84-90 | the index of the first NUL: it is a NUL, and no earlier character is |
| AuxFunctions.Strcpy | Source/Aux_Functions.cpp:79-93 | copies the source up to its NUL, NUL-terminates the destination, leaves the rest of the destination untouched and returns the destination |
| AuxFunctions.StrReverse | Source/Aux_Functions.cpp:103-111 | the characters from Begin to End inclusive are reversed in place; everything outside is untouched; nothing changes unless Begin < End |
| AuxFunctions.Digits | Source/Aux_Functions.cpp:134-141 | the digit text of a natural number: at least one character, all decimal digits |
| AuxFunctions.Decimal | Source/Aux_Functions.cpp:122-148 | the text L2Str writes: non-empty, starting with '-' exactly for negative numbers, digits elsewhere |
| AuxFunctions.DigitsRoundTrip | Source/Aux_Functions.cpp:134-141 | reading the digit text back gives the number |
| AuxFunctions.DecimalRoundTrip | Source/Aux_Functions.cpp:122-148 | reading L2Str's text back, sign applied, gives the number |
| AuxFunctions.DigitsNoLeadingZero | Source/Aux_Functions.cpp:134-138 | the text starts with '0' exactly for the number 0, which the do-while writes as "0" |
| AuxFunctions.DigitsLength | Source/Aux_Functions.cpp:134-138 | a number below 10^k has at most k digits |
| AuxFunctions.DigitsLengthAtLeast | Source/Aux_Functions.cpp:134-138 | a number of at least 10^k has more than k digits |
| AuxFunctions.DecimalLength | Source/Aux_Functions.cpp:122-148 | every int32 except INT32_MIN is written in at most 11 characters |
| AuxFunctions.ConversionStep | Source/Aux_Functions.cpp:134-138 | one round of the digit loop keeps the written digits and the remaining number in step |
| AuxFunctions.ReverseSegment | Source/Aux_Functions.cpp:141 | reversing the indices lo..hi-1 in place reverses that slice |
| AuxFunctions.SignedText | Source/Aux_Functions.cpp:127-141 | a '-' for a negative number, followed by its digits, is its decimal text |
| AuxFunctions.WriteDigitsBackwards | Source/Aux_Functions.cpp:134-138 | the do-while writes the digits least significant first: the written slice reversed is the digit text; nothing else changes |
| AuxFunctions.L2Str | Source/Aux_Functions.cpp:122-148 | writes the decimal text of the number followed by a NUL, returns the count of characters before the NUL, and leaves the rest of the buffer untouched; requires the number above INT32_MIN and a buffer large enough |
| ButtonInput.AddU16 | Source/Button_TivaC.cpp:144 | the uint16 TimeCounter increment: below 65536, and exact when the sum fits |
| ButtonInput.IncU8 | Source/Button_TivaC.cpp:176 | the uint8 counter increment: exact below 255, 255 wraps to 0 |
| ButtonInput.Reset | Source/Button_TivaC.cpp:81-86 | _ResetVariables zeroes the three counters and keeps the state |
| ButtonInput.ScanStep | Source/Button_TivaC.cpp:135-284 | every transition of ScanEvent: INIT pressed goes to DOWN with the counters zeroed; DOWN released beyond DeadTime goes to UP with the time zeroed; DOWN or HELD pressed beyond LongClickTimeout counts a long click, reports LONG_CLICK_TICK with the new count and enters HELD; UP at DeadTime counts a short click and enters COUNT; COUNT pressed returns to DOWN and keeps both counters; COUNT released beyond Window reports SHORT_CLICK with the count and goes idle zeroed; HELD released reports LONG_CLICK and goes idle zeroed; an unknown state resets; otherwise only the time advances |
| ButtonInput.ScanStepKeepsCounters | Source/Button_TivaC.cpp:135-284 | one scan preserves the counter invariant: no long clicks pending during a click, nothing pending while idle |
| ButtonInput.EventsEndIdleOrHeld | Source/Button_TivaC.cpp:173-250 | an event is either a tick that leaves HELD with the time zeroed and carries the new long count, or leaves the machine idle with all counters zeroed |
| ButtonInput.EventsNeedRelease | Source/Button_TivaC.cpp:219-250 | short and long clicks are reported only on a release; a long click only from HELD and a short click only from COUNT |
| ButtonInput.Run | Source/Button_TivaC.cpp:135-284 | ScanEvent over a sequence of button levels keeps the counters in range |
| ButtonInput.RunKeepsCounters | Source/Button_TivaC.cpp:135-284 | the counter invariant holds along every run from a consistent state |
| ButtonInput.IdleStaysIdle | Source/Button_TivaC.cpp:150-160 | an idle, released button stays idle and reports nothing |
| ButtonInput.RunAppend | Source/Button_TivaC.cpp:135-284 | running two level sequences in turn is running their concatenation |
| ButtonInput.RunStep | Source/Button_TivaC.cpp:135-284 | a run is its first scan followed by the run of the rest |
| ButtonInput.HoldStep | Source/Button_TivaC.cpp:173-188 | one more poll of a press within the long-click timeout only counts time |
| ButtonInput.HoldBelowTimeout | Source/Button_TivaC.cpp:173-188 | a press that has not lasted the long-click timeout reports nothing over n polls and adds n intervals to the time |
| ButtonInput.PressFromIdle | Source/Button_TivaC.cpp:150-160 | with 10 ms polls, three pressed polls take an idle button to DOWN |
| ButtonInput.ReleaseAfterPress | Source/Button_TivaC.cpp:163-204 | three released polls after a press count one click |
| ButtonInput.PressInWindow | Source/Button_TivaC.cpp:209-216 | a press inside the click window returns to DOWN and keeps the count |
| ButtonInput.WindowCloses | Source/Button_TivaC.cpp:219-231 | four released polls close the window and report the count |
| ButtonInput.DoubleClick | Source/Button_TivaC.cpp:135-284 | two quick presses give exactly one SHORT_CLICK event counting 2 |
| ButtonInput.LongPressEnd | Source/Button_TivaC.cpp:236-262 | the end of a long press: a second tick, then the LONG_CLICK on release |
| ButtonInput.LongPressMiddle | Source/Button_TivaC.cpp:173-267 | the first tick and the polls up to the next one |
| ButtonInput.LongPress | Source/Button_TivaC.cpp:135-284 | a 25-poll press gives ticks 1 and 2 and, on release, one LONG_CLICK counting 2 |
| ButtonInput.Button.constructor | Source/Button_TivaC.cpp:95-98 | the default scan variables |
| ButtonInput.Button.WithConfig | Source/Button_TivaC.cpp:107-110 | the default scan variables and the given parameters |
| ButtonInput.Button.Init | Source/Button_TivaC.cpp:119-126 | stores the parameters and leaves the scan variables alone |
| ButtonInput.Button.ResetVariables | Source/Button_TivaC.cpp:81-86 | the scan variables become Reset of the old ones |
| ButtonInput.Button.ScanEvent | Source/Button_TivaC.cpp:135-284 | the new scan variables are ScanStep's; the return value is true exactly when an event is reported, and the caller's event data is replaced exactly then |
| StepperDriver.ClockShifts | Source_C/Steper_TivaC.c:294-333 | the right shift _GetPwmClock applies for each divider setting: at most 6, and zero exactly for the undivided clock |
| StepperDriver.GetPwmClock | Source_C/Steper_TivaC.c:294-333 | the system clock divided by the divider's power of two, rounded down; the undivided setting gives the system clock |
| StepperDriver.Period | Source_C/Steper_TivaC.c:448 | PwmClock/PwmFrequency - 1 in uint32: below 2^32, one less than the quotient when the clock is at least the frequency, and the wrapped 2^32 - 1 when the quotient is 0 |
| StepperDriver.PeriodMatchesFrequency | Source_C/Steper_TivaC.c:448 | without wrap-around, one period of the programmed length plus one tick fits into the clock frequency and two do not |
| StepperDriver.PeriodNoWrap | Source_C/Steper_TivaC.c:448 | the uint32 subtraction of one wraps only for a zero quotient |
| StepperDriver.PulseRate | Source_C/Steper_TivaC.c:480 | the uint32 pulse rate for a velocity: Kv * abs(v) truncated toward zero |
| StepperDriver.SelectDivider | Source_C/Steper_TivaC.c:411-423 | the divider switches to /1 only above 3000 Hz when the clock is not already fast, to /64 only below 2000 Hz when it is fast, and stays otherwise |
| StepperDriver.SwitchClock | Source_C/Steper_TivaC.c:411-431 | on a switch, PwmClock, PwmDz = (PwmClock >> 16) + 1 and VelMin = PwmDz/Kv are recomputed; without one the axis is unchanged; nothing else changes |
| StepperDriver.SwitchKeepsDefined | Source_C/Steper_TivaC.c:411-448 | a divider switch keeps the period division defined |
| StepperDriver.ProgramPeriod | Source_C/Steper_TivaC.c:434-455 | PwmFrequency is always stored; below the dead zone while enabled only the enable line is driven off and Enabled stays set; otherwise the enable line follows Enabled and the period and duty registers are rewritten only when the period changed |
| StepperDriver.SetPwmFreqSpec | Source_C/Steper_TivaC.c:406-456 | the whole of _SetPwmFreq: the frequency is stored, the divider is the selected one, the timers and the PWM run flag are untouched, and the clock fields stay consistent with the divider |
| StepperDriver.StopSpec | Source_C/Steper_TivaC.c:653-664 | Stop clears Enabled, the enable line and the PWM, zeroes PwmFrequency, CurrentVel and CurrentAcc, and keeps TargetVel, Dir and the parameters |
| StepperDriver.StopIdempotent | Source_C/Steper_TivaC.c:653-664 | stopping twice is stopping once |
| StepperDriver.Snap | Source_C/Steper_TivaC.c:474-478 | a velocity less than one pulse per second from the target is recorded as the target, any other is kept |
| StepperDriver.SetVelSpec | Source_C/Steper_TivaC.c:465-481 | a zero velocity stops the axis; any other sets the PWM frequency to its pulse rate and records it, snapped to the target, leaving the flags and the acceleration alone |
| StepperDriver.DriveSpec | Source_C/Steper_TivaC.c:473-480 | the non-zero half of _SetVel: the status changes only in CurrentVel (the snapped velocity) and PwmFrequency (its pulse rate); the ramp timer is untouched and the clock fields stay consistent |
| StepperDriver.RampToward | Source_C/Steper_TivaC.c:520-534 | the ramp moves toward the target: it lands on the target when closer than one step, and otherwise its distance to the target shrinks by exactly one step |
| StepperDriver.CandidateVelocity | Source_C/Steper_TivaC.c:507-535 | the candidate velocity: the target for a negative acceleration, +-VelMin signed like the target from rest, the ramp otherwise |
| StepperDriver.TickDirection | Source_C/Steper_TivaC.c:538-539 | Dir is rewritten to TargetVel >= 0 exactly when the sign changes, the axis is disabled or the change is instant; otherwise it is kept |
| StepperDriver.TickSpec | Source_C/Steper_TivaC.c:504-543 | the tick as written: at the target it only turns the ramp timer off; otherwise a zero candidate stops the axis and any other is driven and recorded (snapped), with Dir updated by TickDirection |
| StepperDriver.CorrectedTickSpec | Source_C/Steper_TivaC.c:504-543 | the tick with its zero crossing corrected (see Findings): a ramp step that lands on zero on the way to a non-zero target is driven at frequency 0 and recorded, the axis staying energised with its acceleration and the timer running; every other tick is TickSpec's |
| StepperDriver.RampReachesTarget | Source_C/Steper_TivaC.c:520-534 | the idealised ramp alone (RampToward iterated, without the snap, the stop or the direction update of a real tick) reaches the target once n steps of a positive delta exceed the distance |
| StepperDriver.RampStaysAtTarget | Source_C/Steper_TivaC.c:520-534 | a ramp at its target stays there |
| StepperDriver.StepsCoverProduct | Source_C/Steper_TivaC.c:520-534 | k ramp steps of delta cover exactly k * delta, so the budget of the convergence lemmas is n - 1 >= distance / delta |
| StepperDriver.EnergisedPeriodDefined | Source_C/Steper_TivaC.c:438-448 | on an energised axis with consistent clock fields no frequency divides by zero: a zero frequency lies below the dead zone and returns at line 440 |
| StepperDriver.RampTickStep | Source_C/Steper_TivaC.c:520-534 | the velocity a tick records on an energised, accelerating axis (the ramp step or the snapped target) lies between the old velocity and the target, and is the target or exactly one step closer |
| StepperDriver.TicksAtTarget | Source_C/Steper_TivaC.c:504-512 | at the target the first tick switches the ramp timer off and later ticks change nothing |
| StepperDriver.TicksReachTarget | Source_C/Steper_TivaC.c:504-543 | the ticks as written, applied n times to an energised, accelerating axis whose velocity has the sign of its target, are all defined and leave the axis at the target, still energised with its acceleration and with the ramp timer off, once n - 1 steps cover the distance |
| StepperDriver.TickProgress | Source_C/Steper_TivaC.c:504-543 | one such tick is defined, keeps the axis energised with its acceleration and its velocity on the target's side of zero, and uses up one step of the budget |
| StepperDriver.ReversalLandsOnZero | Source_C/Steper_TivaC.c:520-530 | from -0.5 m/s toward +0.5 m/s with a step of 0.5 m/s the ramp step is exactly zero |
| StepperDriver.ZeroLandingStalls | Source_C/Steper_TivaC.c:467-470 | as written, a ramp step landing on zero short of a non-zero target stops the axis, clearing CurrentAcc, while the ramp timer stays as it was |
| StepperDriver.StalledTick | Source_C/Steper_TivaC.c:504-543 | a tick of such a stalled axis asks for its current velocity, zero, and stops it again: it stays stalled with the timer as it was and Dir taken from the target |
| StepperDriver.StalledForever | Source_C/Steper_TivaC.c:504-543 | a stalled axis stays stalled for any number of ticks, the timer still as it was |
| StepperDriver.ZeroLandingNeverArrives | Source_C/Steper_TivaC.c:467-543 | as written, after a ramp step landing on zero no number of ticks reaches the non-zero target: the axis stays stopped and the ramp timer keeps running if it was |
| StepperDriver.CorrectedTickRamps | Source_C/Steper_TivaC.c:504-543 | a corrected tick of a ramping axis (energised and accelerating, or arrived) is defined, leaves it ramping, and records the ramp step or the target |
| StepperDriver.CorrectedTicksAtTarget | Source_C/Steper_TivaC.c:504-512 | with the corrected tick, too, the first tick at the target switches the ramp timer off and later ticks change nothing |
| StepperDriver.CorrectedTickProgress | Source_C/Steper_TivaC.c:504-543 | one corrected tick short of the target keeps the axis ramping and uses up one step of the budget |
| StepperDriver.CorrectedTicksReachTarget | Source_C/Steper_TivaC.c:504-543 | with the zero crossing corrected, every ramp of an energised, accelerating axis reaches its target, reversals included, and switches the ramp timer off once n - 1 steps cover the distance |
| StepperDriver.DirectionFollowsRamp | Source_C/Steper_TivaC.c:520-539 | while ramping an energised axis whose Dir agrees with its velocity's sign, the new Dir agrees with the new velocity's sign |
| StepperDriver.DirectionFromTarget | Source_C/Steper_TivaC.c:538-539 | a disabled axis or an instant change takes the direction of its target |
| StepperDriver.KickStartAtDeadZone | Source_C/Steper_TivaC.c:429-430 | with consistent clock fields the kick-start speed VelMin is driven exactly at the dead-zone edge PwmDz, in both directions |
| StepperDriver.TickFromRestDefined | Source_C/Steper_TivaC.c:504-543 | from rest with consistent clock fields a tick performs no division by zero, unless it is an instant change to a speed below one pulse per second |
| StepperDriver.SaturateVelocity | Source_C/Steper_TivaC.c:678-692 | abs(TargetVel) = min(abs(FinalVelocity), VelMax); it is negative only for a negative input and zero for a zero input |
| StepperDriver.SaturateAcceleration | Source_C/Steper_TivaC.c:688-689 | the acceleration is clipped from above only, to AccMax |
| StepperDriver.CanMove | Source_C/Steper_TivaC.c:490-495 | motion is allowed unless the limit switch on the side of the direction is pressed |
| StepperDriver.Prepared | Source_C/Steper_TivaC.c:677-696 | Move stores the saturated target and acceleration and sets _DeltaVel = CurrentAcc / VelUpdateFrequency |
| StepperDriver.StartFromRest | Source_C/Steper_TivaC.c:699-717 | from rest the axis ends energised exactly when _CanMove allows its direction |
| StepperDriver.ArmTimer | Source_C/Steper_TivaC.c:720-721 | the ramp timer is started whenever the velocity differs from the target, and nothing else changes |
| StepperDriver.MoveSpec | Source_C/Steper_TivaC.c:675-725 | a move stores the saturated target and the ramp step |
| StepperDriver.MoveRetargetsRunningAxis | Source_C/Steper_TivaC.c:675-725 | an energised axis takes only the new target and acceleration, and the ramp timer runs while the velocity differs from the target |
| StepperDriver.MoveToZeroFromRest | Source_C/Steper_TivaC.c:699 | a zero target leaves a stopped axis stopped, its velocity and outputs unchanged |
| StepperDriver.MoveFromRest | Source_C/Steper_TivaC.c:699-717 | a stopped axis with a non-zero target is energised, with the PWM running, exactly when the limit switch on its side is free; otherwise it is fully stopped; its direction is the sign of the target |
| StepperDriver.MoveKeepsClockConsistent | Source_C/Steper_TivaC.c:675-725 | a move keeps the clock fields consistent with the divider |
| StepperDriver.MoveArmsTimer | Source_C/Steper_TivaC.c:720-721 | after a move the ramp timer runs whenever the velocity differs from the target |
| StepperDriver.MoveFromRestDefined | Source_C/Steper_TivaC.c:699-702 | from rest a move is defined unless it is an instant change to a sub-pulse speed |
| StepperDriver.LimitSpec | Source_C/Steper_TivaC.c:248-269 | a start-limit edge stops the axis only if it is enabled and moving backward, an end-limit edge only if it is enabled and moving forward; otherwise nothing changes |
| StepperDriver.InitSpec | Source_C/Steper_TivaC.c:193-202 | Init leaves the default status with the initial PWM frequency for VelMax and everything switched off |
| StepperDriver.Stepper.Init | Source_C/Steper_TivaC.c:552-559 | the state is InitSpec's and the stored encoder value is 0 |
| StepperDriver.InitClockConsistent | Source_C/Steper_TivaC.c:193-202 | Init leaves PwmClock, PwmDz and VelMin consistent with the divider exactly when the caller's values already are, or when its initial SetPwmFreq switches the divider |
| StepperDriver.Stepper.SetDirection | Source_C/Steper_TivaC.c:342-346 | only Dir changes |
| StepperDriver.Stepper.SetEnable | Source_C/Steper_TivaC.c:355-359 | the flag and the enable line take the value, nothing else changes |
| StepperDriver.Stepper.StartPwm | Source_C/Steper_TivaC.c:368-375 | only the PWM run flag is set |
| StepperDriver.Stepper.StopPwm | Source_C/Steper_TivaC.c:384-397 | the PWM stops and PwmFrequency becomes 0 |
| StepperDriver.Stepper.SetPwmFreq | Source_C/Steper_TivaC.c:406-456 | the new state is SetPwmFreqSpec's |
| StepperDriver.Stepper.ProgramPeriodStep | Source_C/Steper_TivaC.c:433-455 | the new state is ProgramPeriod's |
| StepperDriver.Stepper.Stop | Source_C/Steper_TivaC.c:653-664 | the new state is StopSpec's |
| StepperDriver.Stepper.SetVel | Source_C/Steper_TivaC.c:465-481 | the new state is SetVelSpec's |
| StepperDriver.Stepper.Drive | Source_C/Steper_TivaC.c:473-480 | the new state is DriveSpec's |
| StepperDriver.Stepper.CalculateVel | Source_C/Steper_TivaC.c:504-543 | the new state is TickSpec's: _CalculateVel as written, ending in _SetVel, so a ramp step that lands on 0.0 stops the axis |
| StepperDriver.Stepper.CalculateVelCorrected | Source_C/Steper_TivaC.c:504-543 | the new state is CorrectedTickSpec's: the same statements, except that a ramp step landing on 0.0 toward a non-zero target is driven at zero instead of stopped |
| StepperDriver.Stepper.NextVelocity | Source_C/Steper_TivaC.c:517-539 | the returned velocity is the candidate of the if-chain, and only Dir changes, re-derived from the target exactly when TickDirection asks for it |
| StepperDriver.Stepper.Move | Source_C/Steper_TivaC.c:675-725 | the new state is MoveSpec's and the result is the final Enabled |
| StepperDriver.Stepper.StartFromRestStep | Source_C/Steper_TivaC.c:699-717 | the new state is StartFromRest's: the tick as written, then the axis energised or stopped by _CanMove |
| StepperDriver.Stepper.LimitHandler | Source_C/Steper_TivaC.c:248-269 | the new state is LimitSpec's |
| StepperDriver.Stepper.CheckForStall | Source_C/Steper_TivaC.c:734-750 | true exactly when enabled, moving and the encoder value equals the stored one; the stored value is updated only while enabled |
| StepperDriver.Stepper.GetStatus | Source_C/Steper_TivaC.c:568-572 | a copy of the status |
| LcdDriver.AdjustBits | Source_C/Lcd_TivaC.c:340-350 | pixel by pixel, _AdjustByte's ON mode sets the pixels of the byte to write, XOR toggles them and OFF clears them |
| LcdDriver.AdjustByte | Source_C/Lcd_TivaC.c:340-350 | the pixels the byte to write does not set keep the buffer byte; those it sets become set in ON mode, the buffer's inverted in XOR mode and clear in OFF mode |
| LcdDriver.OnBits | Source_C/Lcd_TivaC.c:342-343 | OR sets the pixels of the byte to write and keeps the others |
| LcdDriver.XorBits | Source_C/Lcd_TivaC.c:344-345 | XOR inverts the pixels of the byte to write and keeps the others |
| LcdDriver.OffBits | Source_C/Lcd_TivaC.c:346-347 | AND-NOT clears the pixels of the byte to write and keeps the others |
| LcdDriver.SingleBit | Source_C/Lcd_TivaC.c:855 | each 1 << k below 8 has exactly one bit set |
| LcdDriver.OnBit | Source_C/Lcd_TivaC.c:342-343 | for a single-bit mask, bit k of the OR is set exactly when it is set in either byte |
| LcdDriver.XorBit | Source_C/Lcd_TivaC.c:344-345 | for a single-bit mask, bit k of the XOR is set exactly when the two bytes differ there |
| LcdDriver.OffBit | Source_C/Lcd_TivaC.c:346-347 | for a single-bit mask, bit k of the AND-NOT is set exactly when it is set in the buffer byte and clear in the byte to write |
| LcdDriver.CombineCommutes | Source_C/Lcd_TivaC.c:854-861 | DrawPixel's in-place OR, XOR and AND-NOT of the buffer byte give the byte _AdjustByte would |
| LcdDriver.CombinePixel | Source_C/Lcd_TivaC.c:854-861 | DrawPixel's three branches on the buffer byte give the byte _AdjustByte computes from the pixel mask |
| LcdDriver.BlankKeepsByte | Source_C/Lcd_TivaC.c:340-350 | a zero byte leaves the buffer byte unchanged in every mode |
| LcdDriver.XorTwiceRestores | Source_C/Lcd_TivaC.c:344-345 | writing the same byte twice in XOR mode restores the buffer byte |
| LcdDriver.IndexPosition | Source_C/Lcd_TivaC.c:92 | a (bank, column) on the 6 x 84 buffer has a flat position below 504 from which bank and column are recovered |
| LcdDriver.PositionIndex | Source_C/Lcd_TivaC.c:92 | every flat position below 504 is one (bank, column) |
| LcdDriver.Advance | Source_C/Lcd_TivaC.c:316-328 | _BufferPutByte's cursor step from a position on the display stays on it and is the flat successor modulo 504: the last column goes to the next bank, the last bank back to bank 0 |
| LcdDriver.ModWindow | Source_C/Lcd_TivaC.c:316-328 | the cursor n steps after p is at q exactly when q lies n places after p around the buffer |
| LcdDriver.Draw | Source_C/Lcd_TivaC.c:815-833 | the buffer after a run of bytes written at the wrapping cursor, each combined under the pixel mode; the buffer keeps its 504 bytes |
| LcdDriver.DrawAppend | Source_C/Lcd_TivaC.c:815-833 | two runs written one after the other, the second from where the first left the cursor, are one run of both |
| LcdDriver.DrawNext | Source_C/Lcd_TivaC.c:819-832 | writing byte i of a run at the cursor after its first i bytes gives its first i + 1 bytes |
| LcdDriver.DrawWindow | Source_C/Lcd_TivaC.c:815-833 | a run no longer than the buffer changes exactly the bytes it covers, each once, to the matching run byte combined with the old one; every other byte is unchanged |
| LcdDriver.Cleared | Source_C/Lcd_TivaC.c:416-430 | the buffer after ClearRange: the wrapping window of the given length from (bank, column) is zero, the rest unchanged |
| LcdDriver.ClearedStep | Source_C/Lcd_TivaC.c:425-426 | a zero written at the cursor extends the cleared window by one byte |
| LcdDriver.ClearedBank | Source_C/Lcd_TivaC.c:439-442 | clearing 84 bytes from column 0 of a bank clears that bank and nothing else |
| LcdDriver.ClearedAll | Source_C/Lcd_TivaC.c:451-454 | clearing 504 bytes from any position blanks the whole buffer |
| LcdDriver.Glyph | Source_C/Lcd_TivaC.c:619-640 | the six columns WriteChar writes: five from the chosen font table for the character, then a blank one; six blank columns for the GET font |
| LcdDriver.TextBytes | Source_C/Lcd_TivaC.c:652-657 | the bytes WriteString writes: six per character, the glyphs in order |
| LcdDriver.TextDrawn | Source_C/Lcd_TivaC.c:652-657 | the buffer after each character was drawn six positions after the previous one; the buffer keeps its size |
| LcdDriver.TextDrawnIsDraw | Source_C/Lcd_TivaC.c:652-657 | drawing the glyphs one after another is writing the single run of their bytes |
| LcdDriver.TextStep | Source_C/Lcd_TivaC.c:655-656 | one more WriteChar after i characters gives the first i + 1 drawn, and the cursor moves six positions |
| LcdDriver.WholeTextDrawn | Source_C/Lcd_TivaC.c:652-657 | when the loop stops at the first NUL it has drawn the whole text, the same buffer as one run of its glyph bytes |
| LcdDriver.GlyphKeepsSeparator | Source_C/Lcd_TivaC.c:627-633 | the sixth column of a character, the separator, keeps the byte that was there in every mode |
| LcdDriver.NoFontDrawsNothing | Source_C/Lcd_TivaC.c:625-633 | with the GET font every byte is zero, so the buffer is unchanged and only the cursor moves |
| LcdDriver.BigGlyph | Source/Lcd_TivaC.hpp:712-749 | the 18 bytes of a big glyph |
| LcdDriver.DrawBig | Source_C/Lcd_TivaC.c:711-743 | the buffer after WriteCharBig: nine bytes from (bank, column), nine more from (bank + 1, column) |
| LcdDriver.BigPartial | Source_C/Lcd_TivaC.c:722-739 | the buffer after the first bytes of a big glyph: up to nine in the upper window, the rest in the lower one |
| LcdDriver.BigStep | Source_C/Lcd_TivaC.c:725-738 | byte i of a big glyph goes to the next position of its half, the Goto before byte 9 switching halves |
| LcdDriver.BigCursorStep | Source_C/Lcd_TivaC.c:725-738 | the cursor before byte i of a big glyph and after it, across the Goto at byte 9 |
| LcdDriver.BigGlyphBlock | Source_C/Lcd_TivaC.c:711-743 | a big character fitting in its bank changes exactly columns column..column+8 of the two banks, to the glyph bytes combined with the old ones; every other byte is unchanged |
| LcdDriver.TwoWindows | Source_C/Lcd_TivaC.c:722-739 | a buffer byte lies in at most one of the two nine-byte windows and takes the matching glyph byte |
| LcdDriver.WindowInBank | Source_C/Lcd_TivaC.c:722-739 | within one bank, the n positions after (bank, column) are columns column..column+n-1 of that bank |
| LcdDriver.BigChars | Source_C/Lcd_TivaC.c:763-764 | the text WriteIntBig draws: the same length, a leading minus sign replaced by 0x3a, every other character kept |
| LcdDriver.BigText | Source_C/Lcd_TivaC.c:767-768 | the buffer after the big characters of a text, each ten columns after the previous one |
| LcdDriver.BigTextStep | Source_C/Lcd_TivaC.c:767-768 | one more WriteCharBig after i characters gives the first i + 1 drawn |
| LcdDriver.BigCharsOfDecimal | Source_C/Lcd_TivaC.c:756-764 | every character of an int32's text, with the minus sign replaced, is in the big font's charset |
| LcdDriver.SetPixel | Source_C/Lcd_TivaC.c:851-861 | the buffer after DrawPixel on the display: only the byte of column x in bank y / 8 changes, combined with the mask of bit y % 8 |
| LcdDriver.MaskBits | Source_C/Lcd_TivaC.c:855 | 1 << k has exactly bit k set |
| LcdDriver.DrawPixelEffect | Source_C/Lcd_TivaC.c:854-861 | DrawPixel sets the pixel in ON mode, clears it in OFF mode and toggles it in XOR mode |
| LcdDriver.DrawPixelLocal | Source_C/Lcd_TivaC.c:854-861 | DrawPixel changes no other pixel |
| LcdDriver.XorPixelTwice | Source_C/Lcd_TivaC.c:857-858 | drawing a pixel twice in XOR mode restores the image |
| LcdDriver.DataTransfers | Source_C/Lcd_TivaC.c:400-404 | the data-mode transfers of a byte sequence, one per byte, in order |
| LcdDriver.DecimalText | Source_C/Lcd_TivaC.c:671-677 | after L2Str the string WriteString reads is exactly the decimal text, all of it printable |
| LcdDriver.SourceIntBufferOverflow | Source_C/Lcd_TivaC.c:671 | the text of 1000000000 and its NUL need 11 bytes and the text of -1000000000 needs 12, more than the declared 10 |
| LcdDriver.Lcd.constructor | Source/Lcd_TivaC.cpp:273-276 | a zeroed buffer, the cursor at (0, 0), every status off, nothing sent |
| LcdDriver.Lcd.WithConfig | Source/Lcd_TivaC.cpp:285-288 | the member initialisers followed by Init: the startup commands and power-up are sent, the buffer is blank and the display on |
| LcdDriver.Lcd.SendByte | Source_C/Lcd_TivaC.c:280-301 | one transfer with the given DC level is appended to the trace |
| LcdDriver.Lcd.Init | Source_C/Lcd_TivaC.c:359-380 | backlight pin low, the six startup commands and the power-up command sent in order, buffer blank, cursor at (0, 0), the display on; inversion and backlight flags kept |
| LcdDriver.Lcd.Commit | Source_C/Lcd_TivaC.c:389-405 | the bank and column address commands, then all 504 buffer bytes bank after bank as data |
| LcdDriver.Lcd.BufferPutByte | Source_C/Lcd_TivaC.c:310-329 | the byte is stored at the cursor and the cursor advances one position, wrapping |
| LcdDriver.Lcd.Store | Source_C/Lcd_TivaC.c:313 | one buffer byte is replaced and no other |
| LcdDriver.Lcd.ClearRange | Source_C/Lcd_TivaC.c:416-430 | the buffer becomes Cleared's and the cursor returns to (bank, column) |
| LcdDriver.Lcd.ClearNext | Source_C/Lcd_TivaC.c:425-426 | one round of the loop: a zero at the cursor extends the cleared window by one byte, and the cursor moves on while bytes remain |
| LcdDriver.Lcd.ClearBank | Source_C/Lcd_TivaC.c:439-442 | exactly the bank's bytes become zero; the cursor is at its column 0 |
| LcdDriver.Lcd.ClearAll | Source_C/Lcd_TivaC.c:451-454 | the buffer is blank and the cursor at (0, 0) |
| LcdDriver.Lcd.Goto | Source_C/Lcd_TivaC.c:464-468 | the cursor is placed at (bank, column), unchecked |
| LcdDriver.Lcd.GetBank | Source_C/Lcd_TivaC.c:477-480 | the cursor bank |
| LcdDriver.Lcd.GetColumn | Source_C/Lcd_TivaC.c:489-492 | the cursor column |
| LcdDriver.Lcd.Powerdown | Source_C/Lcd_TivaC.c:501-519 | OFF sends the function set with the power-down bit, ON without it, GET sends nothing; the status is returned |
| LcdDriver.Lcd.Backlight | Source_C/Lcd_TivaC.c:528-559 | OFF drives the pin low, ON high, GET changes nothing; the status is returned |
| LcdDriver.Lcd.Invert | Source_C/Lcd_TivaC.c:568-599 | OFF sends the normal display control, ON the inverted one, GET sends nothing; the status is returned |
| LcdDriver.Lcd.WriteChar | Source_C/Lcd_TivaC.c:610-641 | the glyph is drawn from the cursor under the mode and the cursor moves six positions, wrapping |
| LcdDriver.Lcd.WriteGlyphByte | Source_C/Lcd_TivaC.c:622-639 | one round of WriteChar's loop: the byte of the glyph is combined under the mode with the byte at the cursor and stored, so the drawn part of the glyph grows by that byte and the cursor moves one place, wrapping |
| LcdDriver.Lcd.PutAdjusted | Source_C/Lcd_TivaC.c:622-639 | the byte at the cursor is combined with the given one by _AdjustByte and stored, and the cursor advances |
| LcdDriver.Lcd.WriteString | Source_C/Lcd_TivaC.c:652-657 | the text before the NUL is drawn as one run of glyph bytes and the cursor moves six positions per character |
| LcdDriver.Lcd.WriteChars | Source_C/Lcd_TivaC.c:655-656 | the while loop of WriteString, with the same result |
| LcdDriver.Lcd.WriteTextChar | Source_C/Lcd_TivaC.c:656 | one round of the loop: WriteChar for character i extends the drawn prefix by that character and moves the cursor six more positions |
| LcdDriver.Lcd.WriteInt | Source_C/Lcd_TivaC.c:668-678 | the decimal text of the number is drawn from the cursor, which moves six positions per character |
| LcdDriver.DecimalString | Source_C/Lcd_TivaC.c:671-674 | a fresh buffer whose text before the first NUL is the decimal text of the number, never empty and all printable |
| LcdDriver.Lcd.WriteCharBig | Source_C/Lcd_TivaC.c:711-743 | the buffer becomes DrawBig's and the cursor ends ten columns to the right in the starting bank |
| LcdDriver.Lcd.WriteBigByte | Source_C/Lcd_TivaC.c:728-738 | one round of WriteCharBig's loop after its Goto: byte i of the big glyph is combined with the byte at the cursor and stored in its half, so the partial big glyph grows by that byte and the cursor moves on within the glyph's columns |
| LcdDriver.Lcd.WriteIntBig | Source_C/Lcd_TivaC.c:753-769 | the number's text, minus sign replaced, is drawn in big characters ten columns apart; the cursor ends ten columns per character to the right |
| LcdDriver.Lcd.WriteCharsBig | Source_C/Lcd_TivaC.c:767-768 | the while loop of WriteIntBig, with the same result |
| LcdDriver.Lcd.DrawBitmap | Source_C/Lcd_TivaC.c:815-833 | the first length bytes of the bitmap are drawn from the cursor and the cursor moves length positions, wrapping |
| LcdDriver.Lcd.DrawPixel | Source_C/Lcd_TivaC.c:844-865 | a pixel off the display changes nothing; otherwise the buffer becomes SetPixel's and the cursor moves to (y / 8, x) |
| LcdFonts.Font0 | Source/Lcd_TivaC.hpp:504-602 | the regular font table: 96 glyphs of five columns for 0x20 to 0x7f |
| LcdFonts.Font1 | Source/Lcd_TivaC.hpp:608-706 | the small font table: 96 glyphs of five columns |
| LcdFonts.FontBig | Source/Lcd_TivaC.hpp:712-749 | the big font table: 12 glyphs of 18 bytes for 0x30 to 0x3b |
| LcdFonts.Standard | Source/Lcd_TivaC.hpp:504-749 | the three tables, with the shape the text writers need |
| RgbDriver.ColorsAreEqual | Source_C/Rgb_TivaC.c:354-357 | true exactly when the two colours are equal |
| RgbDriver.CalculateStepSkip | Source_C/Rgb_TivaC.c:368-380 | 0 exactly for equal values; otherwise at least 1, and either 1 or no more than the number of steps |
| RgbDriver.RoundingBounds | Source_C/Rgb_TivaC.c:379 | the rounded quotient q of F by D satisfies D(2q - 1) <= 2F < D(2q + 1), so it is F / D rounded half up |
| RgbDriver.StepSkipRounds | Source_C/Rgb_TivaC.c:368-380 | _CalculateStepSkip (identical in Source/Rgb_TivaC.cpp) is 0 exactly for equal values, 1 when the distance reaches the number of steps, and otherwise FadeSteps / Diff rounded half up (2r - 1 <= 2F/D < 2r + 1), at least 1 |
| RgbDriver.RoundedQuotient | Source_C/Rgb_TivaC.c:379 | the float expression F / D + 0.5 truncated is the integer (2F + D) div 2D, between 1 and F |
| RgbDriver.Nudge | Source_C/Rgb_TivaC.c:236-243 | one step always changes the component: up when it is below the target, down when it is above |
| RgbDriver.NudgeSteps | Source_C/Rgb_TivaC.c:236-243 | a component below its target steps up by one; any other steps down by one, 0 wrapping to 255 |
| RgbDriver.Remainder | Source_C/Rgb_TivaC.c:236 | the remainder by a non-zero skip is below it and is 0 for a skip of 1; a zero skip gives the dividend |
| RgbDriver.Started | Source_C/Rgb_TivaC.c:217-233 | a running fade is left as it is; otherwise the fade starts with the counter at 0 and each skip is 0 exactly when its component is at its target; the colours and FadeSteps are kept |
| RgbDriver.Fade | Source_C/Rgb_TivaC.c:206-266 | the target and FadeSteps are kept; a tick that ends with no fade running has the target colour; on a tick with FadeSteps non-zero and the colour not yet at the target, the fade runs on exactly while the counter is below FadeSteps |
| RgbDriver.Component | Source_C/Rgb_TivaC.c:235-245 | one component of a tick moves exactly when the counter is a multiple of its skip, and then by one step toward the target; a skip of 1 moves it every tick, a zero skip only on a zero counter |
| RgbDriver.Stepped | Source_C/Rgb_TivaC.c:232-250 | the counter counts the tick modulo 2^32, the target, FadeSteps and the skips are kept, the fade goes on exactly while the counter is below FadeSteps, and a counter at FadeSteps ends on the target |
| RgbDriver.NoFadeSnaps | Source_C/Rgb_TivaC.c:254-259 | a tick with no fade pending takes the target colour at once and ends any fade, and changes nothing else |
| RgbDriver.FadeKeepsSkips | Source_C/Rgb_TivaC.c:217-233 | the skips are computed from the colours and FadeSteps as uint16_t when a fade starts and kept while it runs; the counter restarts at a start and counts the fading ticks modulo 2^32 |
| RgbDriver.FadeStepsByOne | Source_C/Rgb_TivaC.c:233-243 | a fading tick that does not finish moves each component by at most one step, and any step it takes is toward the target or down |
| RgbDriver.FadeCompletes | Source_C/Rgb_TivaC.c:246-250 | the tick on which the counter reaches FadeSteps ends on the target colour with the fade over |
| RgbDriver.FadingTick | Source_C/Rgb_TivaC.c:217-250 | a fading tick counts one tick from the reset counter or from the stored one, keeps the target and FadeSteps, and fades on exactly while the counter is below FadeSteps, ending on the target otherwise |
| RgbDriver.ZeroSkipAtStart | Source_C/Rgb_TivaC.c:220-243 | a fade start divides by a zero skip exactly when some component is already at its target |
| RgbDriver.SettledStays | Source_C/Rgb_TivaC.c:254-259 | once at the target with no fade running, any number of ticks keep the colour |
| RgbDriver.FadeFinishes | Source_C/Rgb_TivaC.c:206-266 | a fade started from rest is on the target colour, fade over, after FadeSteps ticks |
| RgbDriver.FadeProgress | Source_C/Rgb_TivaC.c:217-259 | after k ticks a running fade has either counted k more ticks or settled on the target, and at FadeSteps it has settled |
| RgbDriver.FadeStepsFor | Source_C/Rgb_TivaC.c:410 | the integer quotient of FadeTime * 1000 by PwmFrequency, zero for a zero FadeTime, below 2^32 |
| RgbDriver.NoFadeForShortTimes | Source_C/Rgb_TivaC.c:410 | no fade steps exactly when FadeTime * 1000 is below PwmFrequency |
| RgbDriver.CappedFadeSteps | Source_C/Rgb_TivaC.c:410-414 | the C SetColor's steps: the quotient capped at PwmFrequency |
| RgbDriver.CapKeepsStepsWhole | Source_C/Rgb_TivaC.c:227-229 | with the cap FadeSteps passes through the uint16_t parameter of _CalculateStepSkip unchanged; without it (the C++ SetColor) it can be truncated |
| RgbDriver.RgbModule.Init | Source_C/Rgb_TivaC.c:389-396 | both colours off, no fade, the timer enabled by the final SetColor(_NewColor, 0) |
| RgbDriver.RgbModule.SetColor | Source_C/Rgb_TivaC.c:406-417 | the counter restarts, the target is stored, the fade steps are CappedFadeSteps' and the timer is enabled |
| RgbDriver.RgbModule.StartFade | Source_C/Rgb_TivaC.c:220-230 | the new state is Started's |
| RgbDriver.RgbModule.FadeService | Source_C/Rgb_TivaC.c:206-266 | the new state is Fade's; the timer is switched off exactly when no fade is pending; a remainder by a zero skip is recorded |
| RgbDriver.RgbModule.GetColor | Source_C/Rgb_TivaC.c:426-431 | the current colour |
| RgbDriver.RgbModule.IsChangingColor | Source_C/Rgb_TivaC.c:440-443 | true exactly when the current colour differs from the target |
| RgbDriver.PwmIsrStatics.constructor | Source/Rgb_TivaC.cpp:279-282 | the initial values of PwmIsr's function statics: not fading, every skip 0 |
| RgbDriver.Rgb.Init | Source/Rgb_TivaC.cpp:220-223 | both colours off, no fade steps and the counter 0, with the statics object the program's Rgb objects share; the statics keep what earlier objects left |
| RgbDriver.Rgb.SetColor | Source/Rgb_TivaC.cpp:249-256 | the target and the uncapped fade steps are stored; the counter is left as it is |
| RgbDriver.Rgb.GetColor | Source/Rgb_TivaC.cpp:263-268 | the current colour |
| RgbDriver.Rgb.StartFade | Source/Rgb_TivaC.cpp:291-301 | the new state is Started's: the fading flag set and the three skips computed in the statics shared by all Rgb objects, and the step counter reset |
| RgbDriver.Rgb.PwmIsr | Source/Rgb_TivaC.cpp:277-338 | the new state is Fade's, the fading flag and the skips read and written in the shared statics, and a remainder by a zero skip is recorded |
| RgbDriver.TickWhileOtherFades | Source/Rgb_TivaC.cpp:279-301 | while one LED fades, a tick of another LED finds the shared fading flag set: its fade skips the skip computation and steps with the first LED's skips, and its end of fade clears the first LED's flag too |
| Limiter.Limit | Source/Pid_TivaC.cpp:169-184 | an input strictly between the limits passes unchanged; with Ut_min <= Ut_max the output lies between them |
| Limiter.LimitInRange | Source/Pid_TivaC.cpp:169-184 | with Ut_min <= Ut_max the limited value lies between them, and equals the input exactly when the input already does |
| Limiter.LimitIdempotent | Source/Lead_TivaC.cpp:154-163 | limiting twice is limiting once |
| Limiter.LimitMonotone | Source/Lead_TivaC.cpp:154-163 | the limiter preserves order |
| Limiter.CrossedLimits | Source/Lqr_TivaC.cpp:198-207 | with Ut_max below Ut_min the maximum test wins, so the output can lie below the minimum |
| PidController.Integral | Source/Pid_TivaC.cpp:147-148 | after a saturated sample the integral is kept, otherwise it grows by exactly the new error |
| PidController.ActionSpecialCases | Source/Pid_TivaC.cpp:157-166 | at the reference with a steady measurement only the integral portion acts; with Ki = Kd = 0 the action is Kp times the error |
| PidController.Step | Source/Pid_TivaC.cpp:141-188 | the output is the limited unclamped action; an unsaturated sample passes the action through, and an output that differs from the action is saturated |
| PidController.StepErrors | Source/Pid_TivaC.cpp:144-154 | E_now is reference minus measurement, E_der the previous measurement minus this one, and the measurement is kept |
| PidController.StepKeepsSettings | Source/Pid_TivaC.cpp:141-188 | Compute keeps the reference, gains and limits |
| PidController.AntiWindup | Source/Pid_TivaC.cpp:147-148 | after a saturated sample the integral is frozen, otherwise it adds the new error |
| PidController.PortionsAddUp | Source/Pid_TivaC.cpp:157-166 | the three portions are the gains times E_now, E_int and E_der, and add up to the unclamped action |
| PidController.OutputLimited | Source/Pid_TivaC.cpp:169-184 | with consistent limits the output lies between them; Saturated holds exactly when the action reached a limit, the output is then that limit and otherwise the action |
| PidController.NoDerivativeKick | Source/Pid_TivaC.cpp:151-163 | a change of reference does not change the derivative term |
| PidController.IntegralOfUnsaturatedRun | Source/Pid_TivaC.cpp:144-148 | over a run with no saturated sample before the last, the integral is the starting integral plus the sum of the errors |
| PidController.IntegralFrozenWhileSaturated | Source/Pid_TivaC.cpp:147-148 | once saturated, the integral stays frozen for as long as the output stays saturated |
| PidController.Pid.constructor | Source/Pid_TivaC.cpp:30-32 | the data is pid_t_default |
| PidController.Pid.WithParameters | Source/Pid_TivaC.cpp:46-51 | the defaults with the given gains, reference and limits |
| PidController.Pid.SetGains | Source/Pid_TivaC.cpp:62-67 | only the three gains change |
| PidController.Pid.GetGains | Source/Pid_TivaC.cpp:76-81 | Kp, Ki and Kd are written to buffer[0..3], the rest of the buffer is untouched |
| PidController.Pid.SetReference | Source/Pid_TivaC.cpp:90-93 | only the reference changes |
| PidController.Pid.GetReference | Source/Pid_TivaC.cpp:102-105 | the reference |
| PidController.Pid.SetLimits | Source/Pid_TivaC.cpp:115-119 | only the two limits change |
| PidController.Pid.GetLimits | Source/Pid_TivaC.cpp:128-132 | Ut_min and Ut_max are written to buffer[0..2], the rest of the buffer is untouched |
| PidController.Pid.GainsRoundTrip | Source/Pid_TivaC.cpp:62-81 | SetGains followed by GetGains reads back the gains just set |
| PidController.Pid.LimitsRoundTrip | Source/Pid_TivaC.cpp:115-132 | SetLimits followed by GetLimits reads back the limits just set |
| PidController.Pid.Compute | Source/Pid_TivaC.cpp:141-188 | the new data is Step's and the result is its limited action |
| PidController.Pid.Reset | Source/Pid_TivaC.cpp:197-200 | the data is pid_t_default, gains and limits included |
| LeadController.Step | Source/Lead_TivaC.cpp:141-167 | the new error, which is also stored as the previous error for the next sample, is reference minus measurement; the gains and limits are kept; the output is the stored unlimited action, limited |
| LeadController.StepIgnoresLimits | Source/Lead_TivaC.cpp:144-151 | data that differ only in their limits and output give a sample that differs only in its limits and output |
| LeadController.StepKeepsUnlimitedAction | Source/Lead_TivaC.cpp:144-151 | the stored action is A u + B e + C e_lst before the limiter, the stored previous error is the new error, and only the returned value is limited |
| LeadController.OutputLimited | Source/Lead_TivaC.cpp:154-163 | with consistent limits the output lies between them and equals the unlimited action exactly when that lies between them |
| LeadController.StepKeepsSettings | Source/Lead_TivaC.cpp:141-167 | Compute keeps the reference, gains and limits |
| LeadController.LimitsDoNotFeedBack | Source/Lead_TivaC.cpp:147-163 | runs that differ only in their limits keep the same action and error history |
| LeadController.Lead.constructor | Source/Lead_TivaC.cpp:30-32 | the data is lead_t_default |
| LeadController.Lead.WithParameters | Source/Lead_TivaC.cpp:46-51 | the defaults with the given gains, reference and limits |
| LeadController.Lead.SetGains | Source/Lead_TivaC.cpp:62-67 | only A, B and C change |
| LeadController.Lead.GetGains | Source/Lead_TivaC.cpp:76-81 | A, B and C are written to buffer[0..3], the rest untouched |
| LeadController.Lead.SetReference | Source/Lead_TivaC.cpp:90-93 | only the reference changes |
| LeadController.Lead.GetReference | Source/Lead_TivaC.cpp:102-105 | the reference |
| LeadController.Lead.SetLimits | Source/Lead_TivaC.cpp:115-119 | only the two limits change |
| LeadController.Lead.GetLimits | Source/Lead_TivaC.cpp:128-132 | Ut_min and Ut_max are written to buffer[0..2], the rest untouched |
| LeadController.Lead.GainsRoundTrip | Source/Lead_TivaC.cpp:62-81 | SetGains followed by GetGains reads back the gains just set |
| LeadController.Lead.LimitsRoundTrip | Source/Lead_TivaC.cpp:115-132 | SetLimits followed by GetLimits reads back the limits just set |
| LeadController.Lead.Compute | Source/Lead_TivaC.cpp:141-167 | the new data is Step's and the result is its limited action |
| LeadController.Lead.Reset | Source/Lead_TivaC.cpp:176-179 | the data is lead_t_default |
| LqrController.ZeroGainsNoAction | Source/Lqr_TivaC.cpp:191-195 | with every used gain zero the feedback sum is zero, whatever the errors |
| LqrController.AtReferenceNoAction | Source/Lqr_TivaC.cpp:191-195 | with every state at its reference the feedback sum is zero |
| LqrController.ActionIgnoresUnusedStates | Source/Lqr_TivaC.cpp:191-195 | entries beyond the state count never reach the output |
| LqrController.OutputLimited | Source/Lqr_TivaC.cpp:197-207 | with consistent limits the output lies between them, and at the reference it is the limit of zero |
| LqrController.Lqr.constructor | Source/Lqr_TivaC.cpp:30-32 | lqr_t_default: every array zero, no states, zero limits |
| LqrController.Lqr.WithParameters | Source/Lqr_TivaC.cpp:45-48 | the defaults, then Init: a size up to MAX_LQR_STATES sets the state count and the first gains and references, a larger one leaves no states |
| LqrController.Lqr.Init | Source/Lqr_TivaC.cpp:62-76 | a size up to MAX_LQR_STATES becomes the state count and the first size gains and references are copied; a larger size changes neither; the limits are set in both cases |
| LqrController.Lqr.SetGain | Source/Lqr_TivaC.cpp:86-90 | an index below the state count is written, any other changes nothing |
| LqrController.Lqr.SetReference | Source/Lqr_TivaC.cpp:100-104 | an index below the state count is written, any other changes nothing |
| LqrController.Lqr.GetReference | Source/Lqr_TivaC.cpp:113-119 | the stored reference below the state count, 0 otherwise |
| LqrController.Lqr.SetState | Source/Lqr_TivaC.cpp:130-134 | an index below the state count is written, any other changes nothing |
| LqrController.Lqr.GetState | Source/Lqr_TivaC.cpp:143-149 | the stored state below the state count, 0 otherwise |
| LqrController.Lqr.SetLimits | Source/Lqr_TivaC.cpp:159-163 | the two limits are stored |
| LqrController.Lqr.GetLimits | Source/Lqr_TivaC.cpp:172-176 | Ut_min and Ut_max are written to buffer[0..2], the rest untouched |
| LqrController.Lqr.LimitsRoundTrip | Source/Lqr_TivaC.cpp:159-176 | SetLimits followed by GetLimits reads back the limits just set |
| LqrController.Lqr.Compute | Source/Lqr_TivaC.cpp:185-211 | the errors of the used states are stored in E, the result is the limited feedback sum, and gains, references, states and the unused errors are unchanged |
| LqrController.Lqr.AccumulateError | Source/Lqr_TivaC.cpp:191-195 | one round of Compute's loop: E[idx] becomes Ref[idx] - State[idx], no other error changes, and K[idx] times that error is added to the action |

## Left out

- Driver-library calls (SysCtl, GPIO, PWM, Timer, SSI, QEI, UART) are not modelled as calls. Their effects are abstract fields: the PWM divider, enable line, PWM run flag, ramp timer and period/pulse-width registers of the stepper; the RGB service timer; the LCD backlight pin and transfer trace. `_InitHardware`, `_SetSelect`, `_SetDc`, `_SetBkl`, `_LoadSpiBuffer` and `_SpiIsBusy` are out of scope.
- Interrupt registration, the static instance registries and any interleaving of the ramp-timer ISR, limit ISR, PWM ISR and foreground calls are not modelled. Each handler is one atomic method call.
- Source/Encoder_TivaC.cpp and Source/Uart_TivaC.cpp only move hardware registers, and the example programs are demo loops. None of them is part of this model.
- The Stepper class of Source/Stepper_TivaC.hpp has no implementation file. Only the C driver Source_C/Steper_TivaC.c is modelled.
- `Lcd_DrawLine`, `Lcd_DrawRectangle`, `Lcd_DrawFilledRectangle` and `Lcd_DrawCircle` are left out. The first three rely on float stepping. The circle relies on int8/uint8 overflow.
- `F2Str`, `Lcd_WriteFloat`, `Lcd_WriteFloatBig`, `Mean` and `LinearInterpolation` are left out because they depend on float rounding.
- The RGB duty cycles that `_FadeService` and `PwmIsr` compute through `Map`, and `_SetPwmFrequency` / `_SetPwmDuty`, are left out. The fade model stops at the colour.
- Floats are exact reals throughout.
  - RgbDriver.CalculateStepSkip: `(float)FadeSteps / Diff + 0.5` is taken as exact. Its truncation is proved equal to the integer `(2F + D) / 2D`.
  - StepperDriver.PulseRate: the conversion of `Kv * |v|` to uint32 is truncation toward zero, with no upper bound of 2^32.
  - StepperDriver.TickDirection: the sign-bit XOR of two floats is a comparison of signs over the reals, so -0.0 and 0.0 are not told apart.
- StepperDriver.Stepper.Init: requires Kv > 0, 0 < VelUpdateFrequency < 65536 and VelMax * Kv >= 1; StepperDriver.InitSpec requires the same. The source checks none of them. With VelMax * Kv < 1, the `_SetPwmFreq(VelMax * Kv)` of Source_C/Steper_TivaC.c:202 programs frequency 0 on a disabled axis, and line 448 divides the PWM clock by zero. With VelUpdateFrequency 0, the timer period at line 211 divides by zero. A zero or negative Kv makes VelMin = PwmDz / Kv at line 430 undefined or negative. The model promises nothing for such configurations.
- The ramp lemmas TicksReachTarget, CorrectedTicksReachTarget, EnergisedPeriodDefined and KickStartAtDeadZone require ClockConsistent. Init establishes it only in the configurations InitClockConsistent names: the caller's PwmClock, PwmDz and VelMin match the divider, or the initial SetPwmFreq switches the divider. Otherwise the lemmas apply only after a later divider switch.
- RgbDriver.Frequency: excludes a PwmFrequency of 0, which both SetColor methods divide by (Source_C/Rgb_TivaC.c:410, Source/Rgb_TivaC.cpp:253). The source does not check it, and the model promises nothing for a zero frequency.
- LcdDriver.Lcd.ClearRange: requires a start on the display when the length is non-zero. The source does not check it: its Goto is unchecked, and the first _BufferPutByte would then write outside _Buffer.
- StepperDriver.Stepper.SetPwmFreq: requires PeriodDefined. With a zero frequency, line 448 of Source_C/Steper_TivaC.c divides the PWM clock by zero unless the axis is enabled and the dead zone after the divider selection is positive (the early return at line 440). SetVel, Drive, CalculateVel and Move carry the matching conditions SetVelDefined, PeriodDefined, CorrectedTickDefined and MoveDefined.
- The getters `Stepper_GetEnabled`, `GetDir`, `GetTargetVel`, `GetCurrentVel`, `GetCurrentAcc` and `GetPwmFrequency` are plain reads of the status fields. They are functions without contracts of their own.
- PidController.Action and LqrController.Action: the unclamped PID action and the LQR feedback sum are functions without contracts of their own. Their properties are the lemmas PortionsAddUp, ActionSpecialCases and OutputLimited (PID) and ZeroGainsNoAction, AtReferenceNoAction and ActionIgnoresUnusedStates (LQR).
- RgbDriver.Remainder: C leaves `x % 0` undefined. The model takes the value the Cortex-M4 computes with its divide-by-zero trap off (the dividend). Both drivers also record in the ghost flag `DividedByZero` that this happened, and ZeroSkipAtStart says exactly when it does.
- RgbDriver.RgbModule.GetColor: the null test of `Rgb_GetColor` on its Buffer argument is not modelled. The method returns the colour instead of writing it to the caller's buffer.
- StepperDriver.Stepper.GetStatus: the null test of `Stepper_GetStatus` on its Buffer argument (Source_C/Steper_TivaC.c:570) is not modelled. The method returns the status instead of writing it to the caller's buffer.
- AuxFunctions.L2Str: requires the number above INT32_MIN, because `-Number` overflows there (Source/Aux_Functions.cpp:130). It also requires a buffer that holds the text and its NUL.
- AuxFunctions.Strcpy: requires a destination large enough for the copy. The source does not check this.
- AuxFunctions.StrReverse: requires Begin and End inside the buffer whenever Begin < End.
- LcdDriver.Lcd.WriteInt: uses a 12-character buffer where the source declares 10. See Findings.
- LcdDriver.Lcd.WriteIntBig: requires the whole text to fit in its bank (at most nine big characters from the cursor). This also keeps the text within the source's 10-character buffer.
- LcdDriver.Lcd.WriteCharBig: requires a cursor above the last bank, because `Goto(Bank + 1, Column)` would otherwise leave the display. The cursor it leaves, ten columns on, may lie past the last column, as in the source.
- LcdDriver.Lcd.WriteString: the characters must lie in the font's range 0x20 to 0x7f for the two 5x8 fonts. Any other character indexes outside the table in the source.
- The loops of WriteString and WriteIntBig are written as the helper methods Lcd.WriteChars (with its loop body Lcd.WriteTextChar) and Lcd.WriteCharsBig, the loop bodies of WriteChar and WriteCharBig as Lcd.WriteGlyphByte and Lcd.WriteBigByte, the loop body of Lqr::Compute as Lqr.AccumulateError, the counter and component updates of a fade tick as the functions Stepped and Component, and WriteInt's conversion as DecimalString. The digit-writing loop of L2Str is written as WriteDigitsBackwards, the start block of each fade tick as StartFade, the loop body of ClearRange as Lcd.ClearNext, and the three branches of DrawPixel as CombinePixel. These helpers keep each proof small; the statements they run are the source's.
- LqrController.Lqr.Init: requires the caller's arrays to be separate from the controller's own. The source copies from `const float*` arguments that cannot alias its private member arrays.
- The font tables are held as a constant `FontSet` value read by the text writers, not as separately addressable arrays.

## Findings

| source | as written | input that shows it | evidently intended | confidence | as-written member | corrected member |
|---|---|---|---|---|---|---|
| Source_C/Steper_TivaC.c:467 | `_SetVel` calls `Stepper_Stop` for any zero velocity, including the zero that `_CalculateVel` computes at line 530 when a ramp step lands exactly on 0.0 on its way to a non-zero target; Stop clears Enabled and CurrentAcc but leaves the ramp timer running | an energised axis with CurrentAcc > 0, CurrentVel = -0.5, TargetVel = 0.5 and _DeltaVel = 0.5: the tick stops it, and every later tick asks for the unchanged velocity 0 (CurrentAcc is now 0) and stops it again, so it never reaches 0.5 | the ramp passes through zero, as the sign-inversion comment at line 537 expects: the step at zero drives the PWM at frequency 0 (the dead zone, which de-energises the coils) and the ramp continues to the target | not executed | StepperDriver.ZeroLandingNeverArrives | StepperDriver.CorrectedTicksReachTarget |
| Source_C/Lcd_TivaC.c:671 | `Lcd_WriteInt` converts into `char String[10]`, and so does the C++ `WriteInt` (Source/Lcd_TivaC.cpp:609) | 1000000000 needs 11 bytes with its NUL and -1000000000 needs 12, so `L2Str` writes past the array | a buffer of 12 characters, which holds every int32 text except that of INT32_MIN | not executed | LcdDriver.SourceIntBufferOverflow | LcdDriver.Lcd.WriteInt |
