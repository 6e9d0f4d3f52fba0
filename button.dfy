// Push-button click decoder: a polled state machine that turns the raw
// button level into short-click, long-click and long-click-tick events,
// counting multi-clicks.
//
// The member _Scan of class Button is the field Scan; the level that
// _Pressed reads from the pin is the parameter `pressed` of ScanEvent.
module ButtonInput {

  /** button_state_t; Invalid stands for any other value the state variable may hold. */
  datatype ButtonState = Init | Down | Up | Count | Held | Invalid

  /** button_event_code_t. */
  datatype EventCode = ShortClick | LongClick | LongClickTick

  /** button_event_data_t; Counter is a uint8. */
  datatype EventData = EventData(Code: EventCode, Counter: nat)

  /** button_params_t: Interval and DeadTime are uint8, Window and LongClickTimeout uint16 (all in ms). */
  datatype ButtonParams = ButtonParams(Interval: nat, DeadTime: nat, Window: nat, LongClickTimeout: nat)

  /** button_scan_t: TimeCounter is a uint16, the click counters uint8. */
  datatype ButtonScan = ButtonScan(TimeCounter: nat, ShortCounter: nat, LongCounter: nat, State: ButtonState)

  datatype Option<T> = None | Some(value: T)

  /** The result of one scan: the new scan variables and the event reported, if any. */
  datatype ScanResult = ScanResult(scan: ButtonScan, event: Option<EventData>)

  /** button_scan_t_default. */
  const DefaultScan := ButtonScan(0, 0, 0, Init)

  predicate ParamsInRange(p: ButtonParams) {
    p.Interval < 0x100 && p.DeadTime < 0x100 && p.Window < 0x1_0000 && p.LongClickTimeout < 0x1_0000
  }

  predicate ScanInRange(s: ButtonScan) {
    s.TimeCounter < 0x1_0000 && s.ShortCounter < 0x100 && s.LongCounter < 0x100
  }

  /** uint16 and uint8 increments. */
  function AddU16(a: nat, b: nat): (r: nat)
    ensures r < 0x1_0000
    ensures a + b < 0x1_0000 ==> r == a + b
  {
    (a + b) % 0x1_0000
  }

  function IncU8(a: nat): (r: nat)
    ensures r < 0x100
    ensures a < 0xFF ==> r == a + 1
    ensures a == 0xFF ==> r == 0
  {
    (a + 1) % 0x100
  }

  /** _ResetVariables: the three counters are zeroed, the state is kept. */
  function Reset(s: ButtonScan): (r: ButtonScan)
    ensures r.TimeCounter == 0 && r.ShortCounter == 0 && r.LongCounter == 0 && r.State == s.State
  {
    s.(TimeCounter := 0, ShortCounter := 0, LongCounter := 0)
  }

  /** The long-click tick taken from Down or Held. */
  function LongTick(s: ButtonScan): ScanResult {
    var long := IncU8(s.LongCounter);
    ScanResult(s.(LongCounter := long, State := Held, TimeCounter := 0), Some(EventData(LongClickTick, long)))
  }

  /** Button::ScanEvent for one call, on the time counter before the Interval is added. */
  function ScanStep(s0: ButtonScan, p: ButtonParams, pressed: bool): (r: ScanResult)
    requires ScanInRange(s0)
    ensures ScanInRange(r.scan)
    // Init: a press starts a click with all counters zeroed.
    ensures s0.State == Init && pressed ==> r == ScanResult(ButtonScan(0, 0, 0, Down), None)
    ensures s0.State == Init && !pressed ==>
      r == ScanResult(s0.(TimeCounter := AddU16(s0.TimeCounter, p.Interval)), None)
    // Down: a release after the dead time goes to Up with the time restarted ...
    ensures s0.State == Down && !pressed && AddU16(s0.TimeCounter, p.Interval) > p.DeadTime ==>
      r == ScanResult(s0.(State := Up, TimeCounter := 0), None)
    // ... a press held past the long-click timeout gives a tick.
    ensures s0.State in {Down, Held} && pressed && AddU16(s0.TimeCounter, p.Interval) > p.LongClickTimeout ==>
      r.scan == ButtonScan(0, s0.ShortCounter, IncU8(s0.LongCounter), Held) &&
      r.event == Some(EventData(LongClickTick, IncU8(s0.LongCounter)))
    // Up: after the dead time the click is counted.
    ensures s0.State == Up && AddU16(s0.TimeCounter, p.Interval) >= p.DeadTime ==>
      r == ScanResult(s0.(TimeCounter := AddU16(s0.TimeCounter, p.Interval),
                          ShortCounter := IncU8(s0.ShortCounter), State := Count), None)
    // Count: a new press keeps both counters; the end of the window reports the short clicks.
    ensures s0.State == Count && pressed ==>
      r == ScanResult(s0.(State := Down, TimeCounter := 0), None)
    ensures s0.State == Count && !pressed && AddU16(s0.TimeCounter, p.Interval) > p.Window ==>
      r == ScanResult(ButtonScan(0, 0, 0, Init), Some(EventData(ShortClick, s0.ShortCounter)))
    // Held: the release reports the long clicks.
    ensures s0.State == Held && !pressed ==>
      r == ScanResult(ButtonScan(0, 0, 0, Init), Some(EventData(LongClick, s0.LongCounter)))
    // An unknown state resets the machine.
    ensures s0.State == Invalid ==> r == ScanResult(ButtonScan(0, 0, 0, Init), None)
    // In every other case only the time advances.
    ensures r.event == None && r.scan.State == s0.State ==>
      r.scan == s0.(TimeCounter := AddU16(s0.TimeCounter, p.Interval))
  {
    var s := s0.(TimeCounter := AddU16(s0.TimeCounter, p.Interval));
    match s.State
    case Init =>
      if pressed then ScanResult(Reset(s.(State := Down)), None) else ScanResult(s, None)
    case Down =>
      if !pressed && s.TimeCounter > p.DeadTime then ScanResult(s.(State := Up, TimeCounter := 0), None)
      else if pressed && s.TimeCounter > p.LongClickTimeout then LongTick(s)
      else ScanResult(s, None)
    case Up =>
      if s.TimeCounter >= p.DeadTime then ScanResult(s.(ShortCounter := IncU8(s.ShortCounter), State := Count), None)
      else ScanResult(s, None)
    case Count =>
      if pressed then ScanResult(s.(State := Down, TimeCounter := 0), None)
      else if s.TimeCounter > p.Window then
        ScanResult(Reset(s.(State := Init)), Some(EventData(ShortClick, s.ShortCounter)))
      else ScanResult(s, None)
    case Held =>
      if !pressed then ScanResult(Reset(s.(State := Init)), Some(EventData(LongClick, s.LongCounter)))
      else if s.TimeCounter > p.LongClickTimeout then LongTick(s)
      else ScanResult(s, None)
    case Invalid =>
      ScanResult(Reset(s.(State := Init)), None)
  }

  /**
   * The counters the machine keeps: no long clicks are pending while a
   * click is in progress, and none of either kind while idle.
   */
  predicate CountersConsistent(s: ButtonScan) {
    (s.State in {Down, Up, Count} ==> s.LongCounter == 0) &&
    (s.State == Init ==> s.ShortCounter == 0 && s.LongCounter == 0)
  }

  lemma ScanStepKeepsCounters(s: ButtonScan, p: ButtonParams, pressed: bool)
    requires ScanInRange(s) && CountersConsistent(s)
    ensures CountersConsistent(ScanStep(s, p, pressed).scan)
  {
  }

  /** An event is either a tick or leaves the machine idle with all counters zeroed. */
  lemma EventsEndIdleOrHeld(s: ButtonScan, p: ButtonParams, pressed: bool)
    requires ScanInRange(s)
    ensures var r := ScanStep(s, p, pressed);
      r.event.Some? ==>
        (r.event.value.Code == LongClickTick && r.scan.State == Held && r.scan.TimeCounter == 0 &&
         r.event.value.Counter == r.scan.LongCounter) ||
        (r.event.value.Code != LongClickTick && r.scan == ButtonScan(0, 0, 0, Init))
  {
  }

  /** A short click is reported only on a release, and a long click only on a release from Held. */
  lemma EventsNeedRelease(s: ButtonScan, p: ButtonParams, pressed: bool)
    requires ScanInRange(s)
    ensures var r := ScanStep(s, p, pressed);
      r.event.Some? && r.event.value.Code != LongClickTick ==> !pressed
    ensures var r := ScanStep(s, p, pressed);
      r.event.Some? && r.event.value.Code == LongClick ==> s.State == Held
    ensures var r := ScanStep(s, p, pressed);
      r.event.Some? && r.event.value.Code == ShortClick ==> s.State == Count
  {
  }

  /** The machine run over a sequence of button levels, collecting the reported events. */
  function Run(s: ButtonScan, p: ButtonParams, levels: seq<bool>): (r: (ButtonScan, seq<EventData>))
    requires ScanInRange(s)
    ensures ScanInRange(r.0)
    decreases |levels|
  {
    if levels == [] then (s, [])
    else
      var step := ScanStep(s, p, levels[0]);
      var rest := Run(step.scan, p, levels[1..]);
      (rest.0, (if step.event.Some? then [step.event.value] else []) + rest.1)
  }

  /** Counter consistency holds along any run from a consistent state. */
  lemma {:induction false} RunKeepsCounters(s: ButtonScan, p: ButtonParams, levels: seq<bool>)
    requires ScanInRange(s) && CountersConsistent(s)
    ensures CountersConsistent(Run(s, p, levels).0)
    decreases |levels|
  {
    if levels != [] {
      ScanStepKeepsCounters(s, p, levels[0]);
      RunKeepsCounters(ScanStep(s, p, levels[0]).scan, p, levels[1..]);
    }
  }

  /** While idle and released the machine only counts time. */
  lemma {:induction false} IdleStaysIdle(s: ButtonScan, p: ButtonParams, n: nat)
    requires ScanInRange(s) && s.State == Init
    ensures Run(s, p, seq(n, _ => false)).0.State == Init
    ensures Run(s, p, seq(n, _ => false)).1 == []
    decreases n
  {
    if n > 0 {
      var levels := seq(n, _ => false);
      assert levels[1..] == seq(n - 1, _ => false);
      IdleStaysIdle(ScanStep(s, p, false).scan, p, n - 1);
    }
  }

  /** Running two sequences of levels one after the other is running their concatenation. */
  lemma {:induction false} RunAppend(s: ButtonScan, p: ButtonParams, a: seq<bool>, b: seq<bool>)
    requires ScanInRange(s)
    ensures var ra := Run(s, p, a); var rb := Run(ra.0, p, b);
      Run(s, p, a + b) == (rb.0, ra.1 + rb.1)
    decreases |a|
  {
    if a == [] {
      assert a + b == b;
      assert Run(s, p, a) == (s, []);
      assert [] + Run(s, p, b).1 == Run(s, p, b).1;
    } else {
      assert (a + b)[0] == a[0];
      assert (a + b)[1..] == a[1..] + b;
      var step := ScanStep(s, p, a[0]);
      var ev := if step.event.Some? then [step.event.value] else [];
      RunAppend(step.scan, p, a[1..], b);
      var ra' := Run(step.scan, p, a[1..]);
      var rb := Run(ra'.0, p, b);
      assert Run(s, p, a).0 == ra'.0 && Run(s, p, a).1 == ev + ra'.1;
      assert Run(s, p, a + b).0 == rb.0;
      assert Run(s, p, a + b).1 == ev + (ra'.1 + rb.1);
      assert ev + (ra'.1 + rb.1) == (ev + ra'.1) + rb.1;
    }
  }

  /** One step of a run. */
  lemma RunStep(s: ButtonScan, p: ButtonParams, levels: seq<bool>)
    requires ScanInRange(s) && levels != []
    ensures var step := ScanStep(s, p, levels[0]); var rest := Run(step.scan, p, levels[1..]);
      Run(s, p, levels).0 == rest.0 &&
      Run(s, p, levels).1 == (if step.event.Some? then [step.event.value] else []) + rest.1
  {
  }

  /** One more poll of a press that stays within the long-click timeout. */
  lemma HoldStep(s: ButtonScan, p: ButtonParams)
    requires ScanInRange(s) && s.State in {Down, Held}
    requires s.TimeCounter + p.Interval <= p.LongClickTimeout < 0x1_0000
    ensures ScanStep(s, p, true) == ScanResult(s.(TimeCounter := s.TimeCounter + p.Interval), None)
  {
  }

  /** A press that has not yet lasted the long-click timeout reports nothing and only counts time. */
  lemma {:induction false} HoldBelowTimeout(s: ButtonScan, p: ButtonParams, n: nat)
    requires ScanInRange(s) && s.State in {Down, Held}
    requires s.TimeCounter + n * p.Interval <= p.LongClickTimeout < 0x1_0000
    ensures Run(s, p, seq(n, _ => true)) == (s.(TimeCounter := s.TimeCounter + n * p.Interval), [])
    decreases n
  {
    var levels := seq(n, _ => true);
    if n == 0 {
      assert levels == [];
    } else {
      var rest := seq(n - 1, _ => true);
      assert levels[0] && levels[1..] == rest;
      var later := s.TimeCounter + n * p.Interval;
      MultipleStep(n, p.Interval);
      HoldStep(s, p);
      var next := s.(TimeCounter := s.TimeCounter + p.Interval);
      assert next.TimeCounter + (n - 1) * p.Interval == later;
      HoldBelowTimeout(next, p, n - 1);
      RunStep(s, p, levels);
    }
  }

  /** n intervals are one interval and n - 1 more. */
  lemma MultipleStep(n: nat, interval: nat)
    requires n > 0
    ensures n * interval == interval + (n - 1) * interval
  {
  }

  /** The parameters of the demonstrations below: 10 ms polls, 20 ms dead time, 50 ms window, 100 ms long click. */
  const DemoParams := ButtonParams(10, 20, 50, 100)

  /** A press of three polls from idle. */
  lemma PressFromIdle(t: nat)
    requires t < 0x1_0000
    ensures Run(ButtonScan(t, 0, 0, Init), DemoParams, [true, true, true]) == (ButtonScan(20, 0, 0, Down), [])
  {
    var p := DemoParams;
    assert Run(ButtonScan(10, 0, 0, Down), p, [true]).0 == ButtonScan(20, 0, 0, Down);
    assert Run(ButtonScan(10, 0, 0, Down), p, [true]).1 == [];
    assert Run(ButtonScan(0, 0, 0, Down), p, [true, true]).0 == ButtonScan(20, 0, 0, Down);
    assert Run(ButtonScan(0, 0, 0, Down), p, [true, true]).1 == [];
    assert Run(ButtonScan(t, 0, 0, Init), p, [true, true, true]).0 == ButtonScan(20, 0, 0, Down);
    assert Run(ButtonScan(t, 0, 0, Init), p, [true, true, true]).1 == [];
  }

  /** A release of three polls after a press: the click is counted. */
  lemma ReleaseAfterPress(k: nat)
    requires k < 0xFF
    ensures Run(ButtonScan(20, k, 0, Down), DemoParams, [false, false, false]) == (ButtonScan(20, k + 1, 0, Count), [])
  {
    var p := DemoParams;
    assert Run(ButtonScan(10, k, 0, Up), p, [false]).0 == ButtonScan(20, k + 1, 0, Count);
    assert Run(ButtonScan(10, k, 0, Up), p, [false]).1 == [];
    assert Run(ButtonScan(0, k, 0, Up), p, [false, false]).0 == ButtonScan(20, k + 1, 0, Count);
    assert Run(ButtonScan(0, k, 0, Up), p, [false, false]).1 == [];
    assert Run(ButtonScan(20, k, 0, Down), p, [false, false, false]).0 == ButtonScan(20, k + 1, 0, Count);
    assert Run(ButtonScan(20, k, 0, Down), p, [false, false, false]).1 == [];
  }

  /** A press of three polls inside the click window: the count is kept. */
  lemma PressInWindow(k: nat)
    requires k < 0x100
    ensures Run(ButtonScan(20, k, 0, Count), DemoParams, [true, true, true]) == (ButtonScan(20, k, 0, Down), [])
  {
    var p := DemoParams;
    assert Run(ButtonScan(10, k, 0, Down), p, [true]).0 == ButtonScan(20, k, 0, Down);
    assert Run(ButtonScan(10, k, 0, Down), p, [true]).1 == [];
    assert Run(ButtonScan(0, k, 0, Down), p, [true, true]).0 == ButtonScan(20, k, 0, Down);
    assert Run(ButtonScan(0, k, 0, Down), p, [true, true]).1 == [];
    assert Run(ButtonScan(20, k, 0, Count), p, [true, true, true]).0 == ButtonScan(20, k, 0, Down);
    assert Run(ButtonScan(20, k, 0, Count), p, [true, true, true]).1 == [];
  }

  /** Four released polls close the click window and report the count. */
  lemma WindowCloses(k: nat)
    requires k < 0x100
    ensures Run(ButtonScan(20, k, 0, Count), DemoParams, [false, false, false, false])
            == (ButtonScan(0, 0, 0, Init), [EventData(ShortClick, k)])
  {
    var p := DemoParams;
    assert Run(ButtonScan(50, k, 0, Count), p, [false]).0 == ButtonScan(0, 0, 0, Init);
    assert Run(ButtonScan(50, k, 0, Count), p, [false]).1 == [EventData(ShortClick, k)];
    assert Run(ButtonScan(40, k, 0, Count), p, [false, false]).0 == ButtonScan(0, 0, 0, Init);
    assert Run(ButtonScan(40, k, 0, Count), p, [false, false]).1 == [EventData(ShortClick, k)];
    assert Run(ButtonScan(30, k, 0, Count), p, [false, false, false]).0 == ButtonScan(0, 0, 0, Init);
    assert Run(ButtonScan(30, k, 0, Count), p, [false, false, false]).1 == [EventData(ShortClick, k)];
    assert Run(ButtonScan(20, k, 0, Count), p, [false, false, false, false]).0 == ButtonScan(0, 0, 0, Init);
    assert Run(ButtonScan(20, k, 0, Count), p, [false, false, false, false]).1 == [EventData(ShortClick, k)];
  }

  /**
   * Two quick presses, each held for three polls, released for three polls
   * between them, and then seven polls released: one short-click event
   * counting two clicks.
   */
  lemma DoubleClick()
    ensures Run(DefaultScan, DemoParams,
                [true, true, true] + ([false, false, false] + ([true, true, true] + ([false, false, false] + [false, false, false, false])))).1
            == [EventData(ShortClick, 2)]
  {
    var p := DemoParams;
    var press, release, wait := [true, true, true], [false, false, false], [false, false, false, false];
    PressFromIdle(0);
    ReleaseAfterPress(0);
    SecondClick();
    var r1 := Run(DefaultScan, p, press);
    var r2 := Run(r1.0, p, release);
    var r3 := Run(r2.0, p, press + (release + wait));
    assert r1.1 + (r2.1 + r3.1) == [EventData(ShortClick, 2)];
    RunAppend(r1.0, p, release, press + (release + wait));
    RunAppend(DefaultScan, p, press, release + (press + (release + wait)));
  }

  /** The second click of DoubleClick: a press within the window, its release, and the window closing with a count of two. */
  lemma SecondClick()
    ensures Run(ButtonScan(20, 1, 0, Count), DemoParams, [true, true, true] + ([false, false, false] + [false, false, false, false]))
            == (ButtonScan(0, 0, 0, Init), [EventData(ShortClick, 2)])
  {
    var p := DemoParams;
    var press, release, wait := [true, true, true], [false, false, false], [false, false, false, false];
    PressInWindow(1);
    ReleaseAfterPress(1);
    WindowCloses(2);
    var r1 := Run(ButtonScan(20, 1, 0, Down), p, release);
    var r2 := Run(r1.0, p, wait);
    assert r1.1 + r2.1 == [EventData(ShortClick, 2)];
    RunAppend(ButtonScan(20, 1, 0, Down), p, release, wait);
    RunAppend(ButtonScan(20, 1, 0, Count), p, press, release + wait);
  }

  /** The end of the long press below: the second tick, two more polls, the release. */
  lemma LongPressEnd()
    ensures Run(ButtonScan(100, 0, 1, Held), DemoParams, [true] + (seq(2, _ => true) + [false])).1
            == [EventData(LongClickTick, 2), EventData(LongClick, 2)]
  {
    var p := DemoParams;
    var two := seq(2, _ => true);
    HoldBelowTimeout(ButtonScan(0, 0, 2, Held), p, 2);
    RunAppend(ButtonScan(0, 0, 2, Held), p, two, [false]);
    assert Run(ButtonScan(20, 0, 2, Held), p, [false]).0 == ButtonScan(0, 0, 0, Init);
    assert Run(ButtonScan(20, 0, 2, Held), p, [false]).1 == [EventData(LongClick, 2)];
    var t1 := [true] + (two + [false]);
    RunStep(ButtonScan(100, 0, 1, Held), p, t1);
    assert t1[0] && t1[1..] == two + [false];
  }

  /** The middle of the long press below: the first tick, ten polls, then its end. */
  lemma LongPressMiddle()
    ensures Run(ButtonScan(100, 0, 0, Down), DemoParams,
                [true] + (seq(10, _ => true) + ([true] + (seq(2, _ => true) + [false])))).1
            == [EventData(LongClickTick, 1), EventData(LongClickTick, 2), EventData(LongClick, 2)]
  {
    var p := DemoParams;
    var ten := seq(10, _ => true);
    var t1 := [true] + (seq(2, _ => true) + [false]);
    LongPressEnd();
    HoldBelowTimeout(ButtonScan(0, 0, 1, Held), p, 10);
    RunAppend(ButtonScan(0, 0, 1, Held), p, ten, t1);
    var t2 := [true] + (ten + t1);
    RunStep(ButtonScan(100, 0, 0, Down), p, t2);
    assert t2[0] && t2[1..] == ten + t1;
  }

  /** A press held for 25 polls gives two ticks and, on release, one long-click event counting them. */
  lemma LongPress()
    ensures Run(DefaultScan, DemoParams, [true] + seq(24, _ => true) + [false]).1
            == [EventData(LongClickTick, 1), EventData(LongClickTick, 2), EventData(LongClick, 2)]
  {
    var p := DemoParams;
    var ten := seq(10, _ => true);
    var t2 := [true] + (ten + ([true] + (seq(2, _ => true) + [false])));
    LongPressMiddle();
    HoldBelowTimeout(ButtonScan(0, 0, 0, Down), p, 10);
    RunAppend(ButtonScan(0, 0, 0, Down), p, ten, t2);
    var all := [true] + (ten + t2);
    RunStep(DefaultScan, p, all);
    assert all[0] && all[1..] == ten + t2;
    assert all == [true] + seq(24, _ => true) + [false];
  }

  class Button {
    var Params: ButtonParams
    var Scan: ButtonScan

    /** Button(): the default scan variables; the configuration of a zero-initialised object. */
    constructor ()
      ensures Scan == DefaultScan && Params == ButtonParams(0, 0, 0, 0)
    {
      Scan := DefaultScan;
      Params := ButtonParams(0, 0, 0, 0);
    }

    /** Button(Config): the default constructor followed by Init. */
    constructor WithConfig(params: ButtonParams)
      ensures Scan == DefaultScan && Params == params
    {
      Scan := DefaultScan;
      Params := params;
    }

    /** Init: stores the configuration; the scan variables are not touched. */
    method Init(params: ButtonParams)
      modifies this
      ensures Params == params && Scan == old(Scan)
    {
      Params := params;
    }

    /** _ResetVariables. */
    method ResetVariables()
      modifies this
      ensures Scan == Reset(old(Scan)) && Params == old(Params)
    {
      Scan := Scan.(TimeCounter := 0);
      Scan := Scan.(ShortCounter := 0);
      Scan := Scan.(LongCounter := 0);
    }

    /**
     * ScanEvent. `eventData` is the caller's event structure; `written` is
     * its content afterwards, replaced exactly when an event is reported.
     */
    method ScanEvent(pressed: bool, eventData: EventData) returns (eventFlag: bool, written: EventData)
      requires ScanInRange(Scan)
      modifies this
      ensures Scan == ScanStep(old(Scan), old(Params), pressed).scan && Params == old(Params)
      ensures eventFlag == ScanStep(old(Scan), old(Params), pressed).event.Some?
      ensures eventFlag ==> written == ScanStep(old(Scan), old(Params), pressed).event.value
      ensures !eventFlag ==> written == eventData
    {
      eventFlag := false;
      written := eventData;
      Scan := Scan.(TimeCounter := AddU16(Scan.TimeCounter, Params.Interval));
      match Scan.State {
        case Init =>
          if pressed {
            Scan := Scan.(State := Down);
            ResetVariables();
          }
        case Down =>
          if !pressed && Scan.TimeCounter > Params.DeadTime {
            Scan := Scan.(State := Up);
            Scan := Scan.(TimeCounter := 0);
          } else if pressed && Scan.TimeCounter > Params.LongClickTimeout {
            Scan := Scan.(LongCounter := IncU8(Scan.LongCounter));
            written := EventData(LongClickTick, Scan.LongCounter);
            eventFlag := true;
            Scan := Scan.(State := Held);
            Scan := Scan.(TimeCounter := 0);
          }
        case Up =>
          if Scan.TimeCounter >= Params.DeadTime {
            Scan := Scan.(ShortCounter := IncU8(Scan.ShortCounter));
            Scan := Scan.(State := Count);
          }
        case Count =>
          if pressed {
            Scan := Scan.(State := Down);
            Scan := Scan.(TimeCounter := 0);
          } else if Scan.TimeCounter > Params.Window {
            written := EventData(ShortClick, Scan.ShortCounter);
            eventFlag := true;
            Scan := Scan.(State := ButtonState.Init);
            ResetVariables();
          }
        case Held =>
          if !pressed {
            written := EventData(LongClick, Scan.LongCounter);
            eventFlag := true;
            Scan := Scan.(State := ButtonState.Init);
            ResetVariables();
          } else if pressed && Scan.TimeCounter > Params.LongClickTimeout {
            Scan := Scan.(LongCounter := IncU8(Scan.LongCounter));
            written := EventData(LongClickTick, Scan.LongCounter);
            eventFlag := true;
            Scan := Scan.(State := Held);
            Scan := Scan.(TimeCounter := 0);
          }
        case Invalid =>
          Scan := Scan.(State := ButtonState.Init);
          ResetVariables();
      }
    }
  }
}
