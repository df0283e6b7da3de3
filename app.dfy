/**
 * The main window of gui/app.py: the file-name filter for new presets, the
 * dispatch of a gamepad button press to its binding, the add/edit/delete
 * edits of the binding map, the order of the binding list, and the choices
 * made when picking a preset or a gamepad.
 *
 * File contents, the device list and the user's answers are inputs; the
 * widgets are reduced to the state they hold (the rendered order of rows, the
 * selected row, the dropdown's values and choice).
 */
module GuiApp {
  import opened Wrappers
  import opened Text
  import opened Binding
  import Actions
  import Controller
  import GuiBindDialog

  // ---------------------------------------------------------------------------
  // File names
  // ---------------------------------------------------------------------------

  /** Characters not allowed in a preset's file name. */
  const ForbiddenChars: set<char> := {'\\', '/', ':', '*', '?', '"', '<', '>', '|'}

  /** `name` with every forbidden character dropped and the others kept in order. */
  function RemoveForbidden(s: string): (r: string)
    ensures |r| <= |s|
    ensures forall c :: c in r <==> c in s && c !in ForbiddenChars
  {
    if s == [] then []
    else (if s[0] in ForbiddenChars then [] else [s[0]]) + RemoveForbidden(s[1..])
  }

  /** Filtering a concatenation filters each part: the kept characters stay in their order. */
  lemma {:induction false} RemoveForbiddenAppend(a: string, b: string)
    ensures RemoveForbidden(a + b) == RemoveForbidden(a) + RemoveForbidden(b)
  {
    if a == [] {
      assert a + b == b;
    } else {
      assert (a + b)[1..] == a[1..] + b;
      RemoveForbiddenAppend(a[1..], b);
    }
  }

  /** A text without forbidden characters is kept whole. */
  lemma {:induction false} RemoveForbiddenClean(s: string)
    requires forall c :: c in s ==> c !in ForbiddenChars
    ensures RemoveForbidden(s) == s
  {
    if s != [] {
      assert s[0] in s;
      assert forall c :: c in s[1..] ==> c in s;
      RemoveForbiddenClean(s[1..]);
    }
  }

  /** `_sanitize_filename`: the forbidden characters dropped, then the ends trimmed. */
  function SanitizeFilename(name: string): (r: string)
    ensures forall c :: c in r ==> c !in ForbiddenChars
    ensures r == [] || (!IsSpace(r[0]) && !IsSpace(r[|r| - 1]))
    ensures TrimmedFrom(RemoveForbidden(name), r)
  {
    StripKeeps(RemoveForbidden(name));
    Strip(RemoveForbidden(name))
  }

  /** Sanitising a sanitised name changes nothing. */
  lemma SanitizeIdempotent(name: string)
    ensures SanitizeFilename(SanitizeFilename(name)) == SanitizeFilename(name)
  {
    var r := SanitizeFilename(name);
    RemoveForbiddenClean(r);
    StripNoEnds(r);
  }

  // ---------------------------------------------------------------------------
  // Dispatching a button press
  // ---------------------------------------------------------------------------

  /** What a button press runs. */
  datatype Dispatch =
    | NoBinding
    | RunKeyboard(key: string)
    | RunSequence(steps: seq<Actions.Step>)
    | RunMouseCombo(x: int, y: int)
    | Unsupported(kind: string)

  /** The binding stored under the button's decimal numeral, by type. */
  function Resolve(binds: BindMap, button: nat): (d: Dispatch)
    ensures d == NoBinding <==> NatToString(button) !in binds
    ensures NatToString(button) in binds ==> match binds[NatToString(button)]
      case Keyboard(k) => d == RunKeyboard(k)
      case Sequence(steps) => d == RunSequence(steps)
      case MouseCombo(x, y) => d == RunMouseCombo(x, y)
      case Other(kind) => d == Unsupported(kind)
  {
    var key := NatToString(button);
    if key !in binds then NoBinding
    else match binds[key]
      case Keyboard(k) => RunKeyboard(k)
      case Sequence(steps) => RunSequence(steps)
      case MouseCombo(x, y) => RunMouseCombo(x, y)
      case Other(kind) => Unsupported(kind)
  }

  /** A binding stored under a button's own numeral is the one its press runs. */
  lemma StoredBindIsDispatched(binds: BindMap, button: nat, bind: Bind)
    ensures Resolve(binds[NatToString(button) := bind], button) != NoBinding
    ensures Resolve(binds[NatToString(button) := bind], button) == Resolve(map[NatToString(button) := bind], button)
  {
  }

  /**
   * The dialog accepts any digit string as the button number, but a press
   * looks up the shortest numeral: a binding saved under a numeral with a
   * leading zero is never run, and adding it changes no press.
   */
  lemma PaddedKeyNeverDispatched(binds: BindMap, key: string, bind: Bind, button: nat)
    requires |key| > 1 && key[0] == '0'
    ensures Resolve(binds[key := bind], button) == Resolve(binds, button)
  {
    assert NatToString(button) != key;
  }

  /** "passo" for one step, "passos" for any other count. */
  function StepsWord(n: nat): (w: string)
    ensures w == "passo" <==> n == 1
    ensures n != 1 ==> w == "passos"
  {
    "passo" + if n != 1 then "s" else ""
  }

  /** The "last action" label a dispatch shows; nothing for a press that runs nothing. */
  function ActionLabel(button: nat, d: Dispatch): (text: Option<string>)
    ensures text.Some? <==> d.RunKeyboard? || d.RunSequence? || d.RunMouseCombo?
  {
    var prefix := "BTN " + NatToString(button) + "  →  ";
    match d
    case RunKeyboard(k) => Some(prefix + k)
    case RunSequence(steps) =>
      Some(prefix + "sequência (" + NatToString(|steps|) + " " + StepsWord(|steps|) + ")")
    case RunMouseCombo(x, y) => Some(prefix + "mouse (" + IntToString(x) + ", " + IntToString(y) + ")")
    case _ => None
  }

  /** The label of a one-step sequence says "passo", of any other "passos". */
  lemma SequenceLabelWords(button: nat, steps: seq<Actions.Step>)
    ensures ActionLabel(button, RunSequence(steps)) ==
      Some("BTN " + NatToString(button) + "  →  " + "sequência (" + NatToString(|steps|) + " "
        + (if |steps| == 1 then "passo" else "passos") + ")")
  {
  }

  // ---------------------------------------------------------------------------
  // Editing the binding map
  // ---------------------------------------------------------------------------

  /** The add handler's store: the binding replaces any previous one under the key; nothing else changes. */
  function Store(binds: BindMap, key: string, bind: Bind): (r: BindMap)
    ensures key in r && r[key] == bind
    ensures forall k :: k != key ==> (k in r <==> k in binds)
    ensures forall k :: k in r && k != key ==> r[k] == binds[k]
  {
    binds[key := bind]
  }

  /** The edit handler's rekeying: the old entry removed, then the new one stored. */
  function Rebind(binds: BindMap, oldKey: string, newKey: string, bind: Bind): (r: BindMap)
    ensures newKey in r && r[newKey] == bind
    ensures oldKey in r <==> oldKey == newKey
    ensures forall k :: k != oldKey && k != newKey ==> (k in r <==> k in binds)
    ensures forall k :: k in r && k != newKey ==> k in binds && r[k] == binds[k]
  {
    (binds - {oldKey})[newKey := bind]
  }

  /** Editing without changing the button number replaces the binding in place. */
  lemma RebindSameKey(binds: BindMap, key: string, bind: Bind)
    requires key in binds
    ensures Rebind(binds, key, key, bind) == binds[key := bind]
    ensures Rebind(binds, key, key, bind).Keys == binds.Keys
  {
  }

  /** The key the edit handler works on: a non-empty forced key, else the selection. */
  function EditTarget(forceKey: Option<string>, selected: Option<string>): (k: Option<string>)
    ensures k.Some? ==> k.value != ""
    ensures forceKey.Some? && forceKey.value != "" ==> k == forceKey
    ensures forceKey.None? || forceKey.value == "" ==>
      k == (if selected.Some? && selected.value != "" then selected else None)
  {
    if forceKey.Some? && forceKey.value != "" then forceKey
    else if selected.Some? && selected.value != "" then selected
    else None
  }

  // ---------------------------------------------------------------------------
  // The order of the binding list
  // ---------------------------------------------------------------------------

  /** Every key parses as an integer, so the list can be sorted by it. */
  predicate KeysNumeric(binds: BindMap) {
    forall k {:trigger ParseInt(k)} :: k in binds ==> ParseInt(k).Some?
  }

  /** The sort key of `_render_bind_list`: the key's integer value. */
  function KeyValue(k: string): int {
    match ParseInt(k)
    case Some(v) => v
    case None => 0
  }

  /** Removing bindings keeps every key sortable. */
  lemma KeysNumericShrinks(binds: BindMap, smaller: BindMap)
    requires KeysNumeric(binds) && smaller.Keys <= binds.Keys
    ensures KeysNumeric(smaller)
  {
  }

  /** Storing under a digit key keeps every key sortable. */
  lemma KeysNumericStore(binds: BindMap, k: string, bind: Bind)
    requires KeysNumeric(binds) && IsDigits(k)
    ensures KeysNumeric(Store(binds, k, bind))
  {
    DigitKeyNumeric(k);
  }

  /** A button number the dialog accepts is a sortable key. */
  lemma DigitKeyNumeric(k: string)
    requires IsDigits(k)
    ensures ParseInt(k) == Some(DigitsValue(k))
  {
    StripNoEnds(k);
  }

  lemma {:induction false} MinKeyExists(keys: set<string>, value: string -> int)
    requires keys != {}
    ensures exists m :: m in keys && forall j :: j in keys ==> value(m) <= value(j)
    decreases keys
  {
    var k :| k in keys;
    if keys - {k} == {} {
      assert keys == {k};
    } else {
      MinKeyExists(keys - {k}, value);
      var m :| m in keys - {k} && forall j :: j in keys - {k} ==> value(m) <= value(j);
      if value(k) <= value(m) {
        assert forall j :: j in keys ==> value(k) <= value(j);
      } else {
        assert forall j :: j in keys ==> value(m) <= value(j);
      }
    }
  }

  /** The keys listed once each, ascending by `value` (keys of equal value in some order). */
  ghost function SortedKeys(keys: set<string>, value: string -> int): (rows: seq<string>)
    ensures |rows| == |keys|
    ensures forall k :: k in rows <==> k in keys
    ensures forall i, j :: 0 <= i < j < |rows| ==> rows[i] != rows[j] && value(rows[i]) <= value(rows[j])
    decreases keys
  {
    if keys == {} then []
    else
      MinKeyExists(keys, value);
      var m :| m in keys && forall j :: j in keys ==> value(m) <= value(j);
      [m] + SortedKeys(keys - {m}, value)
  }

  /** The keys in the order `_render_bind_list` lays out their rows. */
  ghost function RenderOrder(binds: BindMap): seq<string> {
    SortedKeys(binds.Keys, KeyValue)
  }

  /** Every key is rendered once, ascending by integer value (keys of equal value in some order). */
  lemma RenderOrderSpec(binds: BindMap)
    ensures var rows := RenderOrder(binds);
      && |rows| == |binds.Keys|
      && (forall k :: k in rows <==> k in binds)
      && (forall i, j :: 0 <= i < j < |rows| ==> rows[i] != rows[j] && KeyValue(rows[i]) <= KeyValue(rows[j]))
  {
  }

  // ---------------------------------------------------------------------------
  // Choosing a preset and a device
  // ---------------------------------------------------------------------------

  /** The placeholder shown in an empty preset dropdown. */
  const NoPresetLabel := "—"

  /** The placeholder shown in an empty device dropdown. */
  const NoDeviceLabel := "Nenhum controle encontrado"

  /**
   * `_on_preset_selected`: the preset to load, if any. Nothing for an empty
   * name or the placeholder, for the preset already in use, or for a name with
   * no file (`fileExists`).
   */
  function PresetToApply(name: string, current: Option<string>, fileExists: bool): (r: Option<string>)
    ensures r.Some? ==> r.value == name
    ensures r.Some? <==> name != "" && name != NoPresetLabel && current != Some(name) && fileExists
  {
    if name == "" || name == NoPresetLabel then None
    else if current == Some(name) then None
    else if fileExists then Some(name)
    else None
  }

  /** The preset the window opens with. */
  datatype InitialChoice = UseLast(path: string) | UseFirstListed(path: string) | CreateDefault

  /**
   * `_load_initial_preset`: the last preset used if it is recorded and its
   * file exists, else the first preset in the folder's listing, else a new
   * empty default preset.
   */
  function InitialPreset(last: Option<string>, lastExists: bool, listed: seq<string>): (c: InitialChoice)
    ensures c.UseLast? <==> last.Some? && last.value != "" && lastExists
    ensures c.UseLast? ==> c.path == last.value
    ensures c.UseFirstListed? ==> listed != [] && c.path == listed[0]
    ensures c == CreateDefault <==> !c.UseLast? && listed == []
  {
    if last.Some? && last.value != "" && lastExists then UseLast(last.value)
    else if listed != [] then UseFirstListed(listed[0])
    else CreateDefault
  }

  /**
   * The device index `_start_listener` selects: the position of the first
   * device whose name is the dropdown's choice, or 0 when no device has that name.
   */
  function DeviceIndex(names: seq<string>, choice: string): (i: nat)
    ensures choice in names ==> i < |names| && names[i] == choice && forall j :: 0 <= j < i ==> names[j] != choice
    ensures choice !in names ==> i == 0
  {
    if names == [] then 0
    else if names[0] == choice then 0
    else if choice in names[1..] then 1 + DeviceIndex(names[1..], choice)
    else 0
  }

  // ---------------------------------------------------------------------------
  // The window
  // ---------------------------------------------------------------------------

  class App {
    /** The loaded preset's binding map. */
    var binds: BindMap
    /** The name of the preset in use. */
    var currentPreset: Option<string>
    /** The key of the selected row, if any. */
    var selected: Option<string>
    var isListening: bool
    /** The device dropdown's entries and its choice. */
    var joystickValues: seq<string>
    var joystickVar: string
    /** The keys of the rendered rows, top to bottom. */
    ghost var rows: seq<string>
    const listener: Controller.ControllerListener

    /** The list can be sorted, a selection names a binding, and the listener is consistent. */
    ghost predicate Valid()
      reads this, listener
    {
      KeysNumeric(binds) && (selected.Some? ==> selected.value in binds) && listener.Valid()
    }

    /**
     * Opens the window on a loaded preset, with a stopped listener, the
     * device dropdown filled from `deviceNames` and the list rendered.
     */
    constructor (loaded: BindMap, presetName: string, deviceNames: seq<string>)
      requires KeysNumeric(loaded)
      ensures Valid() && fresh(listener)
      ensures binds == loaded && currentPreset == Some(presetName) && selected == None
      ensures !isListening && !listener.running && !listener.hasAxesCallback
      ensures joystickValues == (if deviceNames != [] then deviceNames else [NoDeviceLabel])
      ensures joystickVar == joystickValues[0]
      ensures rows == RenderOrder(binds)
    {
      binds := loaded;
      currentPreset := Some(presetName);
      selected := None;
      isListening := false;
      // The window registers only the button callback.
      listener := new Controller.ControllerListener(false);
      if deviceNames != [] {
        joystickValues, joystickVar := deviceNames, deviceNames[0];
      } else {
        joystickValues, joystickVar := [NoDeviceLabel], NoDeviceLabel;
      }
      rows := RenderOrder(loaded);
    }

    /** `_render_bind_list`: rows rebuilt in key order, selection cleared. */
    method RenderBindList()
      requires KeysNumeric(binds) && listener.Valid()
      modifies this`selected, this`rows
      ensures Valid()
      ensures selected == None && rows == RenderOrder(binds)
    {
      selected := None;
      rows := RenderOrder(binds);
    }

    /** `_select_row`: a click on a rendered row selects its key. */
    method SelectRow(key: string)
      requires Valid() && key in binds
      modifies this`selected
      ensures Valid() && selected == Some(key)
    {
      selected := Some(key);
    }

    /**
     * The add handler, given the dialog's result: the binding is stored under
     * its button number, replacing any previous one entirely.
     */
    method AddBind(result: Option<GuiBindDialog.DialogResult>)
      requires Valid()
      requires result.Some? ==> IsDigits(result.value.button)
      modifies this`binds, this`selected, this`rows
      ensures Valid()
      ensures result.None? ==> binds == old(binds) && selected == old(selected) && rows == old(rows)
      ensures result.Some? ==>
        binds == Store(old(binds), result.value.button, result.value.bind)
        && selected == None && rows == RenderOrder(binds)
    {
      if result.Some? {
        KeysNumericStore(binds, result.value.button, result.value.bind);
        binds := Store(binds, result.value.button, result.value.bind);
        RenderBindList();
      }
    }

    /**
     * The edit handler, given the dialog's result: the binding of the forced
     * key, or else of the selected row, is removed and the result stored
     * under its (possibly new) button number.
     */
    method EditBind(forceKey: Option<string>, result: Option<GuiBindDialog.DialogResult>)
      requires Valid()
      requires result.Some? ==> IsDigits(result.value.button)
      modifies this`binds, this`selected, this`rows
      ensures Valid()
      ensures
        var target := EditTarget(forceKey, old(selected));
        if target.None? || target.value !in old(binds) || result.None? then
          binds == old(binds) && selected == old(selected) && rows == old(rows)
        else
          binds == Rebind(old(binds), target.value, result.value.button, result.value.bind)
          && selected == None && rows == RenderOrder(binds)
    {
      var key := EditTarget(forceKey, selected);
      if key.None? || key.value !in binds || result.None? {
        return;
      }
      KeysNumericShrinks(binds, binds - {key.value});
      KeysNumericStore(binds - {key.value}, result.value.button, result.value.bind);
      binds := Rebind(binds, key.value, result.value.button, result.value.bind);
      RenderBindList();
    }

    /** The delete handler; `confirm` is the user's answer. Exactly the selected binding goes. */
    method DeleteSelected(confirm: bool)
      requires Valid()
      modifies this`binds, this`selected, this`rows
      ensures Valid()
      ensures old(selected).None? || old(selected).value == "" || !confirm ==>
        binds == old(binds) && selected == old(selected) && rows == old(rows)
      ensures old(selected).Some? && old(selected).value != "" && confirm ==>
        binds == old(binds) - {old(selected).value} && |binds.Keys| == |old(binds).Keys| - 1
        && selected == None && rows == RenderOrder(binds)
    {
      if selected.None? || selected.value == "" || !confirm {
        return;
      }
      assert binds.Keys - {selected.value} == (binds - {selected.value}).Keys;
      KeysNumericShrinks(binds, binds - {selected.value});
      binds := binds - {selected.value};
      RenderBindList();
    }

    /** `_apply_preset`: the loaded map replaces the current one and is rendered. */
    method ApplyPreset(name: string, loaded: BindMap)
      requires Valid() && KeysNumeric(loaded)
      modifies this`binds, this`currentPreset, this`selected, this`rows
      ensures Valid()
      ensures binds == loaded && currentPreset == Some(name) && selected == None && rows == RenderOrder(loaded)
    {
      binds := loaded;
      currentPreset := Some(name);
      selected := None;
      RenderBindList();
    }

    /**
     * `_on_preset_selected`: `fileExists` says whether the chosen name has a
     * preset file, and `loaded` is that file's binding map.
     */
    method OnPresetSelected(name: string, fileExists: bool, loaded: BindMap)
      requires Valid() && KeysNumeric(loaded)
      modifies this`binds, this`currentPreset, this`selected, this`rows
      ensures Valid()
      ensures PresetToApply(name, old(currentPreset), fileExists).None? ==>
        binds == old(binds) && currentPreset == old(currentPreset) && selected == old(selected) && rows == old(rows)
      ensures PresetToApply(name, old(currentPreset), fileExists).Some? ==>
        binds == loaded && currentPreset == Some(name) && selected == None && rows == RenderOrder(loaded)
      ensures PresetToApply(name, currentPreset, fileExists).None?
    {
      var target := PresetToApply(name, currentPreset, fileExists);
      if target.Some? {
        ApplyPreset(target.value, loaded);
      }
    }

    /** `_refresh_joystick_dropdown`, given the connected devices' names. */
    method RefreshJoystickDropdown(names: seq<string>)
      modifies this`joystickValues, this`joystickVar
      ensures isListening ==> joystickValues == old(joystickValues) && joystickVar == old(joystickVar)
      ensures !isListening ==> joystickValues == (if names != [] then names else [NoDeviceLabel])
      ensures !isListening ==> joystickVar == joystickValues[0]
      ensures !isListening && names != [] ==> DeviceIndex(names, joystickVar) == 0
    {
      if isListening {
        return;
      }
      if names != [] {
        joystickValues, joystickVar := names, names[0];
      } else {
        joystickValues, joystickVar := [NoDeviceLabel], NoDeviceLabel;
      }
    }

    /**
     * `_start_listener`: the device named in the dropdown is looked up in
     * `names`, then the listener is started (`total` devices found, opening
     * going as `open` says). On failure the error is returned for display.
     */
    method StartListener(names: seq<string>, total: nat, open: Controller.OpenOutcome)
      returns (error: Option<Controller.StartError>)
      requires Valid()
      modifies this`isListening, listener
      ensures Valid()
      ensures listener.joystickIndex == DeviceIndex(names, joystickVar)
      ensures error.None? <==> listener.running
      ensures error.None? ==> isListening
      ensures error.Some? ==> isListening == old(isListening) && error.value != Controller.NoError
      ensures !old(listener.running) ==>
        (error.None? <==> 0 < total && DeviceIndex(names, joystickVar) < total && open == Controller.Opened)
      ensures !old(listener.running) && total == 0 ==> error == Some(Controller.NoDevice)
      ensures !old(listener.running) && 0 < total <= DeviceIndex(names, joystickVar) ==>
        error == Some(Controller.IndexNotFound(DeviceIndex(names, joystickVar), total))
      ensures !old(listener.running) && 0 < total && DeviceIndex(names, joystickVar) < total && open != Controller.Opened ==>
        error == Some(Controller.InitError)
      ensures !old(listener.running) && error.None? ==>
        && listener.joystick == Some(Controller.Joystick(DeviceIndex(names, joystickVar)))
        && listener.hasThread && listener.prevStates == map[]
      ensures old(listener.running) ==>
        && error.None? && listener.joystick == old(listener.joystick)
        && listener.hasThread == old(listener.hasThread) && listener.prevStates == old(listener.prevStates)
    {
      var idx := DeviceIndex(names, joystickVar);
      listener.SetJoystickIndex(idx);
      var ok, err := listener.Start(total, open);
      if !ok {
        return Some(err);
      }
      isListening := true;
      return None;
    }

    /** `_stop_listener`. */
    method StopListener()
      requires Valid()
      modifies this`isListening, listener`running, listener`hasThread, listener`joystick
      ensures Valid()
      ensures !isListening && !listener.running && listener.joystick == None
    {
      listener.Stop();
      isListening := false;
    }

    /**
     * `_on_button_press`: the press runs the binding stored under the button's
     * numeral and produces its label; the calls made and the final cursor are
     * those of the action module's functions.
     */
    method OnButtonPress(button: nat, oracle: Actions.Oracle, cursor: Actions.Pos)
      returns (trace: seq<Actions.Event>, final: Actions.Pos, shown: Option<string>)
      ensures shown == ActionLabel(button, Resolve(binds, button))
      ensures match Resolve(binds, button)
        case RunKeyboard(k) => trace == [Actions.Event(Actions.Press(k), cursor)] && final == cursor
        case RunSequence(steps) =>
          var r := Actions.Run(steps, Actions.Start(cursor), oracle);
          trace == r.machine.trace && final == r.machine.cursor
        case RunMouseCombo(x, y) =>
          var r := Actions.Run(Actions.MouseComboSteps(x, y), Actions.Start(cursor), oracle);
          trace == r.machine.trace && final == r.machine.cursor
        case _ => trace == [] && final == cursor
    {
      var d := Resolve(binds, button);
      trace, final := [], cursor;
      var log: seq<Actions.LogEntry>;
      match d {
        case RunKeyboard(k) =>
          trace, log := Actions.ExecuteKeyboard(k, oracle, cursor);
        case RunSequence(steps) =>
          trace, final, log := Actions.ExecuteSequence(steps, oracle, cursor);
        case RunMouseCombo(x, y) =>
          trace, final, log := Actions.ExecuteMouseCombo(x, y, oracle, cursor);
        case _ =>
      }
      shown := ActionLabel(button, d);
    }
  }
}
