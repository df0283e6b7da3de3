/**
 * The step interpreter of actions.py: a sequence is an ordered list of steps,
 * each turned into at most one call of the input-injection layer (move, click,
 * double click, scroll, key press, sleep), with one piece of state carried from
 * step to step, the saved cursor position.
 *
 * The injection layer is abstract: the cursor is a position, every call made is
 * appended to a trace together with where the cursor was at that moment, and an
 * oracle decides how each call ends (normally, with the fail-safe abort, or with
 * any other error).
 */
module Actions {
  import opened Wrappers

  datatype Pos = Pos(x: int, y: int)

  datatype MouseButton = Left | Right | Middle

  /** One call into the injection layer. */
  datatype Prim =
    | MoveTo(x: int, y: int)
    | Click(button: MouseButton)
    | DoubleClick
    | Scroll(clicks: int)
    | Press(key: string)
    | Sleep(ms: int)

  /** A call that was made, and where the cursor was when it was made. */
  datatype Event = Event(prim: Prim, at: Pos)

  /** How a call ended: normally, by the fail-safe abort, or by any other error. */
  datatype Outcome = Ok | FailSafe | Error

  /** The outcome of the n-th call made during one execution (counting from 0). */
  type Oracle = nat -> Outcome

  /** The lines the interpreter logs. */
  datatype LogEntry =
    | UnknownAction(action: string)
    | StepFailed(action: string)
    | KeyFailed(key: string)

  /**
   * A step as stored in a preset: the dictionary's "action" tag (the empty
   * string when the key is absent) and whichever parameters it carries.
   */
  datatype Step = Step(
    action: string,
    x: Option<int>,
    y: Option<int>,
    clicks: Option<int>,
    key: Option<string>,
    ms: Option<int>)

  function Tagged(action: string): Step {
    Step(action, None, None, None, None, None)
  }

  function MoveStep(x: int, y: int): Step {
    Step("move_mouse", Some(x), Some(y), None, None, None)
  }

  function KeyStep(key: string): Step {
    Step("key", None, None, None, Some(key), None)
  }

  const DefaultScrollClicks := 3
  const DefaultDelayMs := 100

  /** The tags the interpreter recognises. */
  predicate IsKnownAction(action: string) {
    action in {"save_mouse", "restore_mouse", "move_mouse", "click_left", "click_right",
                "click_middle", "double_click", "scroll_up", "scroll_down", "key", "delay"}
  }

  /**
   * The interpreter's state between steps: the cursor, the saved position, and
   * what has been called and logged so far.
   */
  datatype Machine = Machine(cursor: Pos, saved: Option<Pos>, trace: seq<Event>, log: seq<LogEntry>)

  /** Every execution starts with nothing saved, nothing called and nothing logged. */
  function Start(cursor: Pos): Machine {
    Machine(cursor, None, [], [])
  }

  /** The state after some steps, and whether a fail-safe abort ended the sequence. */
  datatype RunResult = RunResult(machine: Machine, aborted: bool)

  /**
   * How a call ends. `time.sleep` is not part of the injection layer: it never
   * triggers the fail-safe and raises only for a negative duration.
   */
  function OutcomeOf(p: Prim, oracle: Oracle, n: nat): Outcome {
    if p.Sleep? then (if p.ms < 0 then Error else Ok) else oracle(n)
  }

  /** What a step asks for before any call is made. */
  datatype Request =
    | Call(prim: Prim)   // one call into the injection layer
    | SavePosition       // save_mouse
    | NoCall             // restore_mouse with nothing saved
    | Unrecognised       // an unknown or missing tag
    | MissingField       // move_mouse without x or y, key without key

  function RequestOf(step: Step, saved: Option<Pos>): Request {
    match step.action
    case "save_mouse" => SavePosition
    case "restore_mouse" => if saved.Some? then Call(MoveTo(saved.value.x, saved.value.y)) else NoCall
    case "move_mouse" => if step.x.Some? && step.y.Some? then Call(MoveTo(step.x.value, step.y.value)) else MissingField
    case "click_left" => Call(Click(Left))
    case "click_right" => Call(Click(Right))
    case "click_middle" => Call(Click(Middle))
    case "double_click" => Call(DoubleClick)
    case "scroll_up" => Call(Scroll(step.clicks.GetOr(DefaultScrollClicks)))
    case "scroll_down" => Call(Scroll(-step.clicks.GetOr(DefaultScrollClicks)))
    case "key" => if step.key.Some? then Call(Press(step.key.value)) else MissingField
    case "delay" => Call(Sleep(step.ms.GetOr(DefaultDelayMs)))
    case _ => Unrecognised
  }

  /** One step: the state afterwards, and whether it was aborted by the fail-safe. */
  function StepOnce(step: Step, m: Machine, oracle: Oracle): RunResult {
    match RequestOf(step, m.saved)
    case SavePosition => RunResult(m.(saved := Some(m.cursor)), false)
    case NoCall => RunResult(m, false)
    case Unrecognised => RunResult(m.(log := m.log + [UnknownAction(step.action)]), false)
    case MissingField => RunResult(m.(log := m.log + [StepFailed(step.action)]), false)
    case Call(p) =>
      var called := m.(trace := m.trace + [Event(p, m.cursor)]);
      match OutcomeOf(p, oracle, |m.trace|)
      case FailSafe => RunResult(called, true)
      case Error => RunResult(called.(log := called.log + [StepFailed(step.action)]), false)
      case Ok => RunResult(if p.MoveTo? then called.(cursor := Pos(p.x, p.y)) else called, false)
  }

  /** The steps in list order, stopping at the first fail-safe abort. */
  function Run(steps: seq<Step>, m: Machine, oracle: Oracle): RunResult
  {
    if steps == [] then RunResult(m, false)
    else
      var r := StepOnce(steps[0], m, oracle);
      if r.aborted then r else Run(steps[1..], r.machine, oracle)
  }

  /** The `if`/`elif` chain of one iteration of `execute_sequence`: what the step's tag asks for. */
  method ClassifyStep(step: Step, savedPos: Option<Pos>) returns (req: Request)
    ensures req == RequestOf(step, savedPos)
  {
    var action := step.action;
    if action == "save_mouse" {
      req := SavePosition;
    } else if action == "restore_mouse" {
      req := if savedPos.Some? then Call(MoveTo(savedPos.value.x, savedPos.value.y)) else NoCall;
    } else if action == "move_mouse" {
      req := if step.x.Some? && step.y.Some? then Call(MoveTo(step.x.value, step.y.value)) else MissingField;
    } else if action == "click_left" {
      req := Call(Click(Left));
    } else if action == "click_right" {
      req := Call(Click(Right));
    } else if action == "click_middle" {
      req := Call(Click(Middle));
    } else if action == "double_click" {
      req := Call(DoubleClick);
    } else if action == "scroll_up" {
      req := Call(Scroll(step.clicks.GetOr(DefaultScrollClicks)));
    } else if action == "scroll_down" {
      req := Call(Scroll(-step.clicks.GetOr(DefaultScrollClicks)));
    } else if action == "key" {
      req := if step.key.Some? then Call(Press(step.key.value)) else MissingField;
    } else if action == "delay" {
      req := Call(Sleep(step.ms.GetOr(DefaultDelayMs)));
    } else {
      req := Unrecognised;
    }
  }

  /** `execute_sequence`: runs the steps from a fresh state and reports the calls made, the final cursor and the log. */
  method ExecuteSequence(steps: seq<Step>, oracle: Oracle, cursor: Pos)
    returns (trace: seq<Event>, final: Pos, log: seq<LogEntry>)
    ensures var r := Run(steps, Start(cursor), oracle);
      trace == r.machine.trace && final == r.machine.cursor && log == r.machine.log
  {
    var savedPos: Option<Pos> := None;
    trace, final, log := [], cursor, [];
    for i := 0 to |steps|
      invariant Run(steps, Start(cursor), oracle) == Run(steps[i..], Machine(final, savedPos, trace, log), oracle)
    {
      var step := steps[i];
      assert steps[i..][0] == step && steps[i..][1..] == steps[i + 1..];
      var req := ClassifyStep(step, savedPos);
      match req {
        case SavePosition =>
          savedPos := Some(final);
        case NoCall =>
        case Unrecognised =>
          log := log + [UnknownAction(step.action)];
        case MissingField =>
          log := log + [StepFailed(step.action)];
        case Call(p) =>
          var outcome := OutcomeOf(p, oracle, |trace|);
          trace := trace + [Event(p, final)];
          if outcome == FailSafe {
            return;
          } else if outcome == Error {
            log := log + [StepFailed(step.action)];
          } else if p.MoveTo? {
            final := Pos(p.x, p.y);
          }
      }
    }
  }

  /** The fixed sequence `execute_mouse_combo` runs. */
  function MouseComboSteps(x: int, y: int): seq<Step> {
    [Tagged("save_mouse"), MoveStep(x, y), Tagged("click_left"), Tagged("restore_mouse")]
  }

  /** `execute_mouse_combo`: save, move to (x, y), left click, restore. */
  method ExecuteMouseCombo(x: int, y: int, oracle: Oracle, cursor: Pos)
    returns (trace: seq<Event>, final: Pos, log: seq<LogEntry>)
    ensures var r := Run(MouseComboSteps(x, y), Start(cursor), oracle);
      trace == r.machine.trace && final == r.machine.cursor && log == r.machine.log
    ensures |trace| <= 3
    ensures forall k :: 0 <= k < |trace| ==> trace[k].prim == [MoveTo(x, y), Click(Left), MoveTo(cursor.x, cursor.y)][k]
    ensures (forall n :: 0 <= n < 3 ==> oracle(n) == Ok) ==>
      trace == [Event(MoveTo(x, y), cursor), Event(Click(Left), Pos(x, y)), Event(MoveTo(cursor.x, cursor.y), Pos(x, y))]
      && final == cursor
  {
    trace, final, log := ExecuteSequence(MouseComboSteps(x, y), oracle, cursor);
    MouseComboCalls(x, y, oracle, cursor);
    if forall n :: 0 <= n < 3 ==> oracle(n) == Ok {
      MouseComboRoundTrip(x, y, oracle, cursor);
    }
  }

  /** `execute_keyboard`: one key press whose failure is logged and never raised. */
  method ExecuteKeyboard(key: string, oracle: Oracle, cursor: Pos) returns (trace: seq<Event>, log: seq<LogEntry>)
    ensures trace == Run([KeyStep(key)], Start(cursor), oracle).machine.trace
    ensures trace == [Event(Press(key), cursor)]
    ensures log == if oracle(0) == Error then [KeyFailed(key)] else []
  {
    trace := [Event(Press(key), cursor)];
    log := if oracle(0) == Error then [KeyFailed(key)] else [];
  }

  // ---------------------------------------------------------------------------
  // Properties of the interpreter
  // ---------------------------------------------------------------------------

  /** Running two lists one after the other is running their concatenation, unless the first aborts. */
  lemma {:induction false} RunAppend(s1: seq<Step>, s2: seq<Step>, m: Machine, oracle: Oracle)
    ensures Run(s1 + s2, m, oracle) ==
      var r := Run(s1, m, oracle); if r.aborted then r else Run(s2, r.machine, oracle)
  {
    if s1 == [] {
      assert s1 + s2 == s2;
    } else {
      assert (s1 + s2)[0] == s1[0];
      assert (s1 + s2)[1..] == s1[1..] + s2;
      var r := StepOnce(s1[0], m, oracle);
      if !r.aborted {
        RunAppend(s1[1..], s2, r.machine, oracle);
      }
    }
  }

  /** Nothing that was called or logged is ever taken back: a run only appends. */
  lemma {:induction false} RunOnlyAppends(steps: seq<Step>, m: Machine, oracle: Oracle)
    ensures var r := Run(steps, m, oracle).machine;
      |m.trace| <= |r.trace| && r.trace[..|m.trace|] == m.trace
      && |m.log| <= |r.log| && r.log[..|m.log|] == m.log
  {
    if steps != [] {
      var r := StepOnce(steps[0], m, oracle);
      if !r.aborted {
        RunOnlyAppends(steps[1..], r.machine, oracle);
        var f := Run(steps[1..], r.machine, oracle).machine;
        assert f.trace[..|m.trace|] == f.trace[..|r.machine.trace|][..|m.trace|];
        assert f.log[..|m.log|] == f.log[..|r.machine.log|][..|m.log|];
      }
    }
  }

  /** The call each recognised tag makes. */
  predicate CallMatches(action: string, p: Prim) {
    match action
    case "restore_mouse" => p.MoveTo?
    case "move_mouse" => p.MoveTo?
    case "click_left" => p == Click(Left)
    case "click_right" => p == Click(Right)
    case "click_middle" => p == Click(Middle)
    case "double_click" => p == DoubleClick
    case "scroll_up" => p.Scroll?
    case "scroll_down" => p.Scroll?
    case "key" => p.Press?
    case "delay" => p.Sleep?
    case _ => false
  }

  /**
   * A step makes at most one call, of the kind its tag names, with the cursor
   * where it was; it makes exactly one unless it is save_mouse, restore_mouse
   * with nothing saved, an unknown tag or a step missing a required field.
   * Only a fail-safe outcome aborts; every other failure is logged once.
   */
  lemma StepMakesOneCall(step: Step, m: Machine, oracle: Oracle)
    ensures var r := StepOnce(step, m, oracle);
      && |m.trace| <= |r.machine.trace| <= |m.trace| + 1
      && r.machine.trace[..|m.trace|] == m.trace
      && (|r.machine.trace| == |m.trace| + 1 <==>
            && IsKnownAction(step.action) && step.action != "save_mouse"
            && (step.action == "restore_mouse" ==> m.saved.Some?)
            && (step.action == "move_mouse" ==> step.x.Some? && step.y.Some?)
            && (step.action == "key" ==> step.key.Some?))
      && (|r.machine.trace| == |m.trace| + 1 ==>
            && CallMatches(step.action, r.machine.trace[|m.trace|].prim)
            && r.machine.trace[|m.trace|].at == m.cursor)
      && (r.aborted <==> |r.machine.trace| == |m.trace| + 1 && OutcomeOf(r.machine.trace[|m.trace|].prim, oracle, |m.trace|) == FailSafe)
      && (!IsKnownAction(step.action) ==> r.machine == m.(log := m.log + [UnknownAction(step.action)]))
  {
  }

  /**
   * save_mouse overwrites the saved position with the cursor and calls nothing;
   * restore_mouse moves back to the saved position without clearing it, and
   * does nothing when nothing is saved.
   */
  lemma SaveAndRestore(m: Machine, oracle: Oracle)
    ensures StepOnce(Tagged("save_mouse"), m, oracle) == RunResult(m.(saved := Some(m.cursor)), false)
    ensures m.saved.None? ==> StepOnce(Tagged("restore_mouse"), m, oracle) == RunResult(m, false)
    ensures m.saved.Some? ==>
      var r := StepOnce(Tagged("restore_mouse"), m, oracle);
      && r.machine.saved == m.saved
      && r.machine.trace == m.trace + [Event(MoveTo(m.saved.value.x, m.saved.value.y), m.cursor)]
      && (oracle(|m.trace|) == Ok ==> r.machine.cursor == m.saved.value)
  {
  }

  /** Scrolling goes up by `clicks` and down by `-clicks`, 3 by default; a delay is 100 ms by default. */
  lemma ScrollAndDelayDefaults(step: Step, m: Machine, oracle: Oracle)
    ensures step.action == "scroll_up" ==>
      StepOnce(step, m, oracle).machine.trace == m.trace + [Event(Scroll(if step.clicks.Some? then step.clicks.value else 3), m.cursor)]
    ensures step.action == "scroll_down" ==>
      StepOnce(step, m, oracle).machine.trace == m.trace + [Event(Scroll(if step.clicks.Some? then -step.clicks.value else -3), m.cursor)]
    ensures step.action == "delay" ==>
      StepOnce(step, m, oracle).machine.trace == m.trace + [Event(Sleep(if step.ms.Some? then step.ms.value else 100), m.cursor)]
  {
  }

  /**
   * Once a step is aborted by the fail-safe, nothing after it runs: the result
   * of the whole list is the result of the list up to that step.
   */
  lemma FailSafeStopsSequence(before: seq<Step>, step: Step, after: seq<Step>, m: Machine, oracle: Oracle)
    requires var r := Run(before, m, oracle); !r.aborted && StepOnce(step, r.machine, oracle).aborted
    ensures Run(before + [step] + after, m, oracle) == StepOnce(step, Run(before, m, oracle).machine, oracle)
    ensures Run(before + [step] + after, m, oracle).aborted
  {
    RunAppend(before + [step], after, m, oracle);
    RunAppend(before, [step], m, oracle);
  }

  /**
   * Any other failure of a step (a missing field, an error from the call, an
   * unknown tag) does not stop the sequence: the remaining steps run from the
   * state the failed step left.
   */
  lemma FailureDoesNotStopSequence(before: seq<Step>, step: Step, after: seq<Step>, m: Machine, oracle: Oracle)
    requires var r := Run(before, m, oracle); !r.aborted
    requires var r := Run(before, m, oracle).machine;
      RequestOf(step, r.saved).MissingField? || RequestOf(step, r.saved).Unrecognised?
      || (RequestOf(step, r.saved).Call? && OutcomeOf(RequestOf(step, r.saved).prim, oracle, |r.trace|) == Error)
    ensures var r := Run(before, m, oracle).machine;
      var s := StepOnce(step, r, oracle).machine;
      && |s.log| == |r.log| + 1
      && Run(before + [step] + after, m, oracle) == Run(after, s, oracle)
  {
    RunAppend(before + [step], after, m, oracle);
    RunAppend(before, [step], m, oracle);
  }

  /** Running a non-empty list is its first step followed, unless that aborts, by the rest. */
  lemma RunCons(step: Step, rest: seq<Step>, m: Machine, oracle: Oracle)
    ensures Run([step] + rest, m, oracle) ==
      var r := StepOnce(step, m, oracle); if r.aborted then r else Run(rest, r.machine, oracle)
  {
    assert ([step] + rest)[0] == step && ([step] + rest)[1..] == rest;
  }

  /** After the last step nothing is restored: the cursor stays where the last move left it. */
  lemma NoRestoreAfterLastStep(x: int, y: int, cursor: Pos, oracle: Oracle)
    requires oracle(0) == Ok
    ensures var r := Run([Tagged("save_mouse"), MoveStep(x, y)], Start(cursor), oracle);
      r.machine.cursor == Pos(x, y) && r.machine.saved == Some(cursor)
      && r.machine.trace == [Event(MoveTo(x, y), cursor)]
  {
    var m1 := StepOnce(Tagged("save_mouse"), Start(cursor), oracle).machine;
    RunCons(Tagged("save_mouse"), [MoveStep(x, y)], Start(cursor), oracle);
    RunCons(MoveStep(x, y), [], m1, oracle);
  }

  /** restore_mouse does not clear the saved position: a second one moves there again. */
  lemma RestoreTwiceMovesTwice(x: int, y: int, cursor: Pos, oracle: Oracle)
    requires forall n :: 0 <= n < 3 ==> oracle(n) == Ok
    ensures var r := Run([Tagged("save_mouse"), MoveStep(x, y), Tagged("restore_mouse"), Tagged("restore_mouse")], Start(cursor), oracle);
      r.machine.trace == [Event(MoveTo(x, y), cursor), Event(MoveTo(cursor.x, cursor.y), Pos(x, y)), Event(MoveTo(cursor.x, cursor.y), cursor)]
      && r.machine.cursor == cursor && !r.aborted
  {
    var restore := Tagged("restore_mouse");
    var m0 := Start(cursor);
    var m1 := StepOnce(Tagged("save_mouse"), m0, oracle).machine;
    var m2 := StepOnce(MoveStep(x, y), m1, oracle).machine;
    var m3 := StepOnce(restore, m2, oracle).machine;
    RunCons(Tagged("save_mouse"), [MoveStep(x, y), restore, restore], m0, oracle);
    RunCons(MoveStep(x, y), [restore, restore], m1, oracle);
    RunCons(restore, [restore], m2, oracle);
    RunCons(restore, [], m3, oracle);
  }

  /** The four steps of the mouse combo, one at a time. */
  lemma MouseComboUnfold(x: int, y: int, oracle: Oracle, cursor: Pos)
    ensures
      var m1 := Start(cursor).(saved := Some(cursor));
      var r2 := StepOnce(MoveStep(x, y), m1, oracle);
      var r3 := StepOnce(Tagged("click_left"), r2.machine, oracle);
      var r4 := StepOnce(Tagged("restore_mouse"), r3.machine, oracle);
      Run(MouseComboSteps(x, y), Start(cursor), oracle) ==
        if r2.aborted then r2 else if r3.aborted then r3 else r4
  {
    var save, move, click, restore := Tagged("save_mouse"), MoveStep(x, y), Tagged("click_left"), Tagged("restore_mouse");
    assert MouseComboSteps(x, y) == [save, move, click, restore];
    var m0 := Start(cursor);
    var m1 := StepOnce(save, m0, oracle).machine;
    var r2 := StepOnce(move, m1, oracle);
    var r3 := StepOnce(click, r2.machine, oracle);
    RunCons(save, [move, click, restore], m0, oracle);
    RunCons(move, [click, restore], m1, oracle);
    if !r2.aborted {
      RunCons(click, [restore], r2.machine, oracle);
      if !r3.aborted {
        RunCons(restore, [], r3.machine, oracle);
      }
    }
  }

  /** The mouse combo makes at most the three calls move to (x, y), left click, move back, in that order. */
  lemma MouseComboCalls(x: int, y: int, oracle: Oracle, cursor: Pos)
    ensures var t := Run(MouseComboSteps(x, y), Start(cursor), oracle).machine.trace;
      |t| <= 3 && forall k :: 0 <= k < |t| ==> t[k].prim == [MoveTo(x, y), Click(Left), MoveTo(cursor.x, cursor.y)][k]
  {
    MouseComboUnfold(x, y, oracle, cursor);
  }

  /** When none of its calls fails, the mouse combo clicks at (x, y) and leaves the cursor where it started. */
  lemma MouseComboRoundTrip(x: int, y: int, oracle: Oracle, cursor: Pos)
    requires forall n :: 0 <= n < 3 ==> oracle(n) == Ok
    ensures var r := Run(MouseComboSteps(x, y), Start(cursor), oracle).machine;
      r.trace == [Event(MoveTo(x, y), cursor), Event(Click(Left), Pos(x, y)), Event(MoveTo(cursor.x, cursor.y), Pos(x, y))]
      && r.cursor == cursor
  {
    MouseComboUnfold(x, y, oracle, cursor);
  }
}
