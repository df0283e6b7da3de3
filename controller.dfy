/**
 * The gamepad listener of controller.py: a start/stop life cycle over one
 * device handle, and a polling loop that, once per cycle, reports every button
 * that went from released (0) to pressed (1) since the previous cycle.
 *
 * The device is abstract: its button and axis readings for a cycle, whether its
 * handle is still initialised, and where (if anywhere) the cycle raised are
 * inputs; the callbacks are the sequences of button indices and axis vectors
 * the cycle reports.
 */
module Controller {
  import opened Wrappers

  const PollRateHz := 60

  /** The press the listener reacts to: released in the previous cycle, pressed now. */
  predicate RisingEdge(current: int, previous: int) {
    current == 1 && previous == 0
  }

  /** `prev_states.get(b, 0)`. */
  function Previous(prev: map<nat, int>, b: nat): int {
    if b in prev then prev[b] else 0
  }

  datatype ScanResult = ScanResult(fired: seq<nat>, prev: map<nat, int>)

  /**
   * Scanning the first `n` buttons of one cycle: the buttons whose callback
   * fires, in the order it fires, and the previous-state map afterwards.
   */
  function Scan(buttons: seq<int>, prev: map<nat, int>, n: nat): (r: ScanResult)
    requires n <= |buttons|
    ensures |r.fired| <= n
  {
    if n == 0 then ScanResult([], prev)
    else
      var r := Scan(buttons, prev, n - 1);
      var b: nat := n - 1;
      var fired := if RisingEdge(buttons[b], Previous(r.prev, b)) then r.fired + [b] else r.fired;
      ScanResult(fired, r.prev[b := buttons[b]])
  }

  /** A scan reports button b exactly when b reads 1 and its previous state (0 when it has none) is 0. */
  lemma {:induction false} ScanFired(buttons: seq<int>, prev: map<nat, int>, n: nat)
    requires n <= |buttons|
    ensures forall b: nat :: b in Scan(buttons, prev, n).fired <==> b < n && RisingEdge(buttons[b], Previous(prev, b))
  {
    if n > 0 {
      ScanFired(buttons, prev, n - 1);
      ScanRecords(buttons, prev, n - 1);
      var r := Scan(buttons, prev, n - 1);
      assert Previous(r.prev, n - 1) == Previous(prev, n - 1);
    }
  }

  predicate AllBelow(s: seq<nat>, n: nat) {
    forall k :: 0 <= k < |s| ==> s[k] < n
  }

  /** Only scanned buttons are reported. */
  lemma {:induction false} ScanBelow(buttons: seq<int>, prev: map<nat, int>, n: nat)
    requires n <= |buttons|
    ensures AllBelow(Scan(buttons, prev, n).fired, n)
  {
    if n > 0 {
      ScanBelow(buttons, prev, n - 1);
    }
  }

  predicate Ascending(s: seq<nat>) {
    forall i, j :: 0 <= i < j < |s| ==> s[i] < s[j]
  }

  /** A scan reports buttons in increasing index order. */
  lemma {:induction false} ScanAscending(buttons: seq<int>, prev: map<nat, int>, n: nat)
    requires n <= |buttons|
    ensures Ascending(Scan(buttons, prev, n).fired)
  {
    if n > 0 {
      ScanAscending(buttons, prev, n - 1);
      ScanBelow(buttons, prev, n - 1);
      var f := Scan(buttons, prev, n - 1).fired;
      var g := Scan(buttons, prev, n).fired;
      assert g == f || g == f + [n - 1];
      forall i, j | 0 <= i < j < |g| ensures g[i] < g[j] {
        if j < |f| {
          assert g[i] == f[i] && g[j] == f[j];
        } else {
          assert g == f + [n - 1] && j == |f|;
          assert g[i] == f[i] && f[i] < n - 1;
        }
      }
    }
  }

  /**
   * After a scan every scanned button's previous state is its reading, whether
   * or not it fired, while the other entries are kept.
   */
  lemma {:induction false} ScanRecords(buttons: seq<int>, prev: map<nat, int>, n: nat)
    requires n <= |buttons|
    ensures var r := Scan(buttons, prev, n);
      && (forall b: nat :: b in r.prev <==> b < n || b in prev)
      && (forall b: nat :: b < n ==> r.prev[b] == buttons[b])
      && (forall b: nat :: n <= b && b in prev ==> r.prev[b] == prev[b])
  {
    if n > 0 {
      ScanRecords(buttons, prev, n - 1);
    }
  }

  /** The device handle `pygame.joystick.Joystick(index)`. */
  datatype Joystick = Joystick(index: int)

  /** How opening the selected device went: opened, the constructor raised, or `init()` raised. */
  datatype OpenOutcome = Opened | ConstructFailed | InitFailed

  /** The second half of `start()`'s result: empty on success, else why it failed. */
  datatype StartError = NoError | NoDevice | IndexNotFound(index: int, total: nat) | InitError

  /** Where, if anywhere, a poll cycle raised. */
  datatype CycleFault = NoFault | PumpFault | ButtonFault(at: nat) | AxesFault

  /** How many buttons a cycle scans before the fault in it (all when there is none). */
  function ScanLimit(fault: CycleFault, n: nat): (k: nat)
    ensures k <= n
  {
    if fault.ButtonFault? && fault.at < n then fault.at else n
  }

  /** What the device shows in one cycle of the polling loop. */
  datatype CycleInput = CycleInput(handleValid: bool, buttons: seq<int>, axes: seq<real>, fault: CycleFault)

  /** A cycle that neither loses the device nor raises. */
  predicate Healthy(c: CycleInput) {
    c.handleValid && c.fault == NoFault
  }

  /** The previous-state map after a run of healthy cycles. */
  function PrevAfter(cycles: seq<seq<int>>, prev: map<nat, int>): map<nat, int>
  {
    if cycles == [] then prev
    else
      var last := cycles[|cycles| - 1];
      Scan(last, PrevAfter(cycles[..|cycles| - 1], prev), |last|).prev
  }

  /** The buttons reported in each of a run of healthy cycles. */
  function FiredPerCycle(cycles: seq<seq<int>>, prev: map<nat, int>): (r: seq<seq<nat>>)
    ensures |r| == |cycles|
  {
    if cycles == [] then []
    else
      var last := cycles[|cycles| - 1];
      FiredPerCycle(cycles[..|cycles| - 1], prev) + [Scan(last, PrevAfter(cycles[..|cycles| - 1], prev), |last|).fired]
  }

  /** What a cycle scans: nothing when the handle is lost or the pump raises, else the buttons up to any fault. */
  function CycleScan(c: CycleInput, prev: map<nat, int>): ScanResult
  {
    if !c.handleValid || c.fault == PumpFault then ScanResult([], prev)
    else Scan(c.buttons, prev, ScanLimit(c.fault, |c.buttons|))
  }

  /**
   * Whether a cycle ends the loop: the handle is lost, or something it does
   * raises. Reading the axes only happens, and so can only raise, when an axes
   * callback is registered.
   */
  predicate EndsLoop(c: CycleInput, hasAxesCallback: bool) {
    || !c.handleValid || c.fault == PumpFault
    || ScanLimit(c.fault, |c.buttons|) < |c.buttons|
    || (hasAxesCallback && c.fault == AxesFault)
  }

  /** The presses per cycle, the previous-state map and whether the loop has ended, after the cycles run in order. */
  datatype LoopResult = LoopResult(pressed: seq<seq<nat>>, prev: map<nat, int>, ended: bool)

  /** `_poll_loop` over the given cycles: each runs until one of them ends the loop; later ones are not read. */
  function LoopRun(cycles: seq<CycleInput>, prev: map<nat, int>, hasAxesCallback: bool): (r: LoopResult)
    ensures |r.pressed| <= |cycles|
  {
    if cycles == [] then LoopResult([], prev, false)
    else
      var r := LoopRun(cycles[..|cycles| - 1], prev, hasAxesCallback);
      if r.ended then r
      else
        var last := cycles[|cycles| - 1];
        var s := CycleScan(last, r.prev);
        LoopResult(r.pressed + [s.fired], s.prev, EndsLoop(last, hasAxesCallback))
  }

  function ButtonReadings(cycles: seq<CycleInput>): (r: seq<seq<int>>)
    ensures |r| == |cycles|
    ensures forall t :: 0 <= t < |cycles| ==> r[t] == cycles[t].buttons
  {
    if cycles == [] then [] else [cycles[0].buttons] + ButtonReadings(cycles[1..])
  }

  class ControllerListener {
    /** Whether an `on_axes_update` callback was registered. */
    const hasAxesCallback: bool
    var running: bool
    var hasThread: bool
    var joystick: Option<Joystick>
    var joystickIndex: int
    /** The polling loop's `prev_states`; each new loop starts from an empty map. */
    var prevStates: map<nat, int>

    /** A running listener has its device handle and its polling thread. */
    ghost predicate Valid()
      reads this
    {
      running ==> joystick.Some? && hasThread
    }

    constructor (hasAxesCallback: bool)
      ensures Valid()
      ensures this.hasAxesCallback == hasAxesCallback
      ensures !running && !hasThread && joystick == None && joystickIndex == 0 && prevStates == map[]
    {
      this.hasAxesCallback := hasAxesCallback;
      running, hasThread, joystick, joystickIndex, prevStates := false, false, None, 0, map[];
    }

    /** `set_joystick_index`. */
    method SetJoystickIndex(index: int)
      modifies this`joystickIndex
      ensures joystickIndex == index
    {
      joystickIndex := index;
    }

    /** `is_running`: on a consistent listener, a true answer means the handle and the thread exist. */
    function IsRunning(): (r: bool)
      reads this
      ensures Valid() && r ==> joystick.Some? && hasThread
    {
      running
    }

    /**
     * `start()`, given how many devices the re-enumeration found and how
     * opening the selected one goes. Already running: success, nothing
     * changes. No device, an index past the last device, or a failure to open:
     * failure, still not running. Otherwise the listener runs a new polling
     * loop on the opened handle.
     */
    method Start(total: nat, open: OpenOutcome) returns (ok: bool, err: StartError)
      requires Valid()
      modifies this`running, this`hasThread, this`joystick, this`prevStates
      ensures Valid()
      ensures old(running) ==> (ok && err == NoError && running
        && hasThread == old(hasThread) && joystick == old(joystick) && prevStates == old(prevStates))
      ensures !old(running) ==>
        && (ok <==> total > 0 && joystickIndex < total && open == Opened)
        && (ok <==> running)
        && (ok ==> err == NoError && joystick == Some(Joystick(joystickIndex)) && hasThread && prevStates == map[])
        && (total == 0 ==> err == NoDevice)
        && (0 < total <= joystickIndex ==> err == IndexNotFound(joystickIndex, total))
        && (0 < total && joystickIndex < total && open != Opened ==> err == InitError)
        && (!ok ==> hasThread == old(hasThread) && prevStates == old(prevStates))
        && (!ok && open == InitFailed && 0 < total && joystickIndex < total ==> joystick == Some(Joystick(joystickIndex)))
        && (!ok && !(open == InitFailed && 0 < total && joystickIndex < total) ==> joystick == old(joystick))
    {
      if running {
        return true, NoError;
      }
      if total == 0 {
        return false, NoDevice;
      }
      if joystickIndex >= total {
        return false, IndexNotFound(joystickIndex, total);
      }
      if open == ConstructFailed {
        return false, InitError;
      }
      // The handle is stored before `init()` runs, so it stays set when `init()` raises.
      joystick := Some(Joystick(joystickIndex));
      if open == InitFailed {
        return false, InitError;
      }
      running := true;
      hasThread := true;
      prevStates := map[];
      return true, NoError;
    }

    /**
     * `stop()`: not running, no thread, no handle, whatever the state before;
     * so a second call changes nothing more.
     */
    method Stop()
      modifies this`running, this`hasThread, this`joystick
      ensures Valid()
      ensures !running && !hasThread && joystick == None
    {
      running := false;
      hasThread := false;
      joystick := None;
    }

    /**
     * One cycle of `_poll_loop`. A lost handle or a fault ends the loop
     * (`running` becomes false). Otherwise buttons are scanned in index order,
     * each rising edge reported and each reading recorded; a fault while
     * reading a button stops the scan there. The axis values are reported, in
     * index order, only when a callback is registered.
     */
    method PollCycle(c: CycleInput) returns (pressed: seq<nat>, axesReport: Option<seq<real>>)
      requires Valid() && running
      modifies this`running, this`prevStates
      ensures Valid()
      ensures !c.handleValid || c.fault == PumpFault ==>
        pressed == [] && axesReport == None && !running && prevStates == old(prevStates)
      ensures c.handleValid && c.fault != PumpFault ==>
        var s := Scan(c.buttons, old(prevStates), ScanLimit(c.fault, |c.buttons|));
        pressed == s.fired && prevStates == s.prev
      ensures c.handleValid && c.fault != PumpFault && ScanLimit(c.fault, |c.buttons|) < |c.buttons| ==>
        axesReport == None && !running
      ensures c.handleValid && c.fault != PumpFault && ScanLimit(c.fault, |c.buttons|) == |c.buttons| ==>
        && axesReport == (if hasAxesCallback && c.fault != AxesFault then Some(c.axes) else None)
        && (running <==> !(hasAxesCallback && c.fault == AxesFault))
      ensures pressed == CycleScan(c, old(prevStates)).fired && prevStates == CycleScan(c, old(prevStates)).prev
      ensures running <==> !EndsLoop(c, hasAxesCallback)
    {
      pressed, axesReport := [], None;
      if c.fault == PumpFault || !c.handleValid {
        running := false;
        return;
      }
      ghost var prev0 := prevStates;
      var btn := 0;
      while btn < |c.buttons|
        invariant 0 <= btn <= ScanLimit(c.fault, |c.buttons|)
        invariant running
        invariant pressed == Scan(c.buttons, prev0, btn).fired
        invariant prevStates == Scan(c.buttons, prev0, btn).prev
      {
        if c.fault == ButtonFault(btn) {
          running := false;
          return;
        }
        var current := c.buttons[btn];
        var previous := if btn in prevStates then prevStates[btn] else 0;
        if current == 1 && previous == 0 {
          pressed := pressed + [btn];
        }
        prevStates := prevStates[btn := current];
        btn := btn + 1;
      }
      if hasAxesCallback {
        if c.fault == AxesFault {
          running := false;
          return;
        }
        axesReport := Some(c.axes);
      }
    }

    /**
     * `_poll_loop` over the cycles that run before `stop()` is observed: it
     * reads cycles until one loses the device or raises, and in every case
     * leaves the listener not running. What it reports is `LoopRun`; when every
     * cycle is healthy, that is exactly the per-cycle rising edges.
     */
    method PollLoop(cycles: seq<CycleInput>) returns (pressed: seq<seq<nat>>)
      requires Valid() && running
      modifies this`running, this`prevStates
      ensures Valid() && !running
      ensures var r := LoopRun(cycles, old(prevStates), hasAxesCallback);
        pressed == r.pressed && prevStates == r.prev
      ensures (forall t :: 0 <= t < |cycles| ==> Healthy(cycles[t])) ==>
        pressed == FiredPerCycle(ButtonReadings(cycles), old(prevStates))
        && prevStates == PrevAfter(ButtonReadings(cycles), old(prevStates))
    {
      pressed := [];
      var i := 0;
      while i < |cycles| && running
        invariant 0 <= i <= |cycles|
        invariant Valid()
        invariant var r := LoopRun(cycles[..i], old(prevStates), hasAxesCallback);
          pressed == r.pressed && prevStates == r.prev && (running <==> !r.ended)
        invariant !running ==> LoopRun(cycles, old(prevStates), hasAxesCallback) == LoopRun(cycles[..i], old(prevStates), hasAxesCallback)
      {
        var fired, _ := PollCycle(cycles[i]);
        pressed := pressed + [fired];
        assert cycles[..i + 1][..i] == cycles[..i];
        if !running {
          LoopRunStops(cycles, old(prevStates), hasAxesCallback, i + 1);
        }
        i := i + 1;
      }
      if running {
        assert cycles[..|cycles|] == cycles;
      }
      if forall t :: 0 <= t < |cycles| ==> Healthy(cycles[t]) {
        LoopRunHealthy(cycles, old(prevStates), hasAxesCallback);
      }
      running := false;
    }
  }

  /** Once the loop has ended, later cycles change nothing: they are never read. */
  lemma {:induction false} LoopRunStops(cycles: seq<CycleInput>, prev: map<nat, int>, axes: bool, i: nat)
    requires i <= |cycles| && LoopRun(cycles[..i], prev, axes).ended
    ensures LoopRun(cycles, prev, axes) == LoopRun(cycles[..i], prev, axes)
    decreases |cycles| - i
  {
    if i < |cycles| {
      var front := cycles[..|cycles| - 1];
      assert front[..i] == cycles[..i];
      LoopRunStops(front, prev, axes, i);
    } else {
      assert cycles[..i] == cycles;
    }
  }

  /** A healthy cycle never ends the loop, so healthy cycles report exactly their rising edges. */
  lemma {:induction false} LoopRunHealthy(cycles: seq<CycleInput>, prev: map<nat, int>, axes: bool)
    requires forall t :: 0 <= t < |cycles| ==> Healthy(cycles[t])
    ensures var r := LoopRun(cycles, prev, axes);
      !r.ended && r.pressed == FiredPerCycle(ButtonReadings(cycles), prev) && r.prev == PrevAfter(ButtonReadings(cycles), prev)
  {
    if cycles != [] {
      var front := cycles[..|cycles| - 1];
      LoopRunHealthy(front, prev, axes);
      var readings := ButtonReadings(cycles);
      assert readings[..|readings| - 1] == ButtonReadings(front);
    }
  }

  /**
   * The loop stops at the first cycle that ends it: the presses are those of
   * the cycles before it followed by the partial scan of that cycle, and the
   * cycles after it are not read. When the cycles before it are healthy,
   * their presses are their rising edges.
   */
  lemma StopsAtFirstFault(cycles: seq<CycleInput>, prev: map<nat, int>, axes: bool, t: nat)
    requires t < |cycles| && EndsLoop(cycles[t], axes)
    requires forall u :: 0 <= u < t ==> !EndsLoop(cycles[u], axes)
    ensures var before := LoopRun(cycles[..t], prev, axes);
      var s := CycleScan(cycles[t], before.prev);
      LoopRun(cycles, prev, axes) == LoopResult(before.pressed + [s.fired], s.prev, true)
    ensures (forall u :: 0 <= u < t ==> Healthy(cycles[u])) ==>
      LoopRun(cycles[..t], prev, axes).pressed == FiredPerCycle(ButtonReadings(cycles[..t]), prev)
  {
    NotEndedBefore(cycles[..t], prev, axes);
    assert cycles[..t + 1][..t] == cycles[..t];
    LoopRunStops(cycles, prev, axes, t + 1);
    if forall u :: 0 <= u < t ==> Healthy(cycles[u]) {
      LoopRunHealthy(cycles[..t], prev, axes);
    }
  }

  /** Cycles none of which ends the loop leave it running. */
  lemma {:induction false} NotEndedBefore(cycles: seq<CycleInput>, prev: map<nat, int>, axes: bool)
    requires forall u :: 0 <= u < |cycles| ==> !EndsLoop(cycles[u], axes)
    ensures !LoopRun(cycles, prev, axes).ended
  {
    if cycles != [] {
      NotEndedBefore(cycles[..|cycles| - 1], prev, axes);
    }
  }

  /** The presses of cycle t are the rising edges of its readings against the state the earlier cycles left. */
  lemma {:induction false} FiredPerCycleAt(cycles: seq<seq<int>>, prev: map<nat, int>, t: nat)
    requires t < |cycles|
    ensures FiredPerCycle(cycles, prev)[t] == Scan(cycles[t], PrevAfter(cycles[..t], prev), |cycles[t]|).fired
  {
    var front := cycles[..|cycles| - 1];
    if t < |cycles| - 1 {
      FiredPerCycleAt(front, prev, t);
      assert front[..t] == cycles[..t];
    }
  }

  /** After healthy cycles, the recorded state of each button is its last reading (0 before any). */
  lemma {:induction false} PrevAfterHoldsLastReading(cycles: seq<seq<int>>, n: nat, b: nat)
    requires forall u :: 0 <= u < |cycles| ==> |cycles[u]| == n
    requires b < n
    ensures Previous(PrevAfter(cycles, map[]), b) == if cycles == [] then 0 else cycles[|cycles| - 1][b]
  {
    if cycles != [] {
      var front := cycles[..|cycles| - 1];
      PrevAfterHoldsLastReading(front, n, b);
      ScanRecords(cycles[|cycles| - 1], PrevAfter(front, map[]), n);
    }
  }

  /**
   * Across healthy cycles of a device with a fixed number of buttons, a button
   * is reported in a cycle exactly when it reads 1 there and read 0 in the
   * cycle before (or had no earlier reading, for the first cycle). So a button
   * held down is reported once, in the cycle it went down.
   */
  lemma FiresExactlyOnPress(cycles: seq<seq<int>>, n: nat, t: nat, b: nat)
    requires forall u :: 0 <= u < |cycles| ==> |cycles[u]| == n
    requires t < |cycles| && b < n
    ensures b in FiredPerCycle(cycles, map[])[t] <==>
      cycles[t][b] == 1 && (if t == 0 then 0 else cycles[t - 1][b]) == 0
  {
    FiredPerCycleAt(cycles, map[], t);
    var front := cycles[..t];
    PrevAfterHoldsLastReading(front, n, b);
    ScanFired(cycles[t], PrevAfter(front, map[]), n);
    if t > 0 {
      assert front[|front| - 1] == cycles[t - 1];
    }
  }

  /** Readings 0, 0, 1, 1, 0, 1 of one button: it is reported twice, in the third and sixth cycles. */
  lemma PressHoldReleasePress()
    ensures FiredPerCycle([[0], [0], [1], [1], [0], [1]], map[]) == [[], [], [0], [], [], [0]]
  {
    var cycles := [[0], [0], [1], [1], [0], [1]];
    var fired := FiredPerCycle(cycles, map[]);
    forall t | 0 <= t < 6 ensures fired[t] == [[], [], [0], [], [], [0]][t] {
      OneButtonCycle(cycles, t);
    }
  }

  /** With one button, a cycle reports [0] when the button went down and nothing otherwise. */
  lemma OneButtonCycle(cycles: seq<seq<int>>, t: nat)
    requires forall u :: 0 <= u < |cycles| ==> |cycles[u]| == 1
    requires t < |cycles|
    ensures FiredPerCycle(cycles, map[])[t] ==
      if cycles[t][0] == 1 && (if t == 0 then 0 else cycles[t - 1][0]) == 0 then [0] else []
  {
    FiresExactlyOnPress(cycles, 1, t, 0);
    FiredPerCycleAt(cycles, map[], t);
    var p := PrevAfter(cycles[..t], map[]);
    assert Scan(cycles[t], p, 0).fired == [];
  }
}
