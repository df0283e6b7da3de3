/**
 * The add/edit binding dialog of gui/bind_dialog.py: turning a captured
 * keyboard key into the name the key presser expects, filling the form from an
 * existing binding, validating the form into a result, and capturing a gamepad
 * button by waiting for its rising edge.
 *
 * The form's widgets are strings; the user's answer to the overwrite question
 * and the gamepad's readings are inputs.
 */
module GuiBindDialog {
  import opened Wrappers
  import opened Text
  import opened Binding
  import Controller
  import Actions

  // ---------------------------------------------------------------------------
  // Key names
  // ---------------------------------------------------------------------------

  /** Special-key names of the key listener that the key presser spells differently. */
  const KeyNames: map<string, string> := map[
    "shift_l" := "shiftleft",
    "shift_r" := "shiftright",
    "ctrl_l" := "ctrlleft",
    "ctrl_r" := "ctrlright",
    "alt_l" := "altleft",
    "alt_r" := "altright",
    "alt_gr" := "altright",
    "cmd" := "win",
    "cmd_l" := "win",
    "cmd_r" := "win",
    "page_up" := "pageup",
    "page_down" := "pagedown",
    "num_lock" := "numlock",
    "caps_lock" := "capslock",
    "scroll_lock" := "scrolllock",
    "print_screen" := "printscreen",
    "enter" := "enter",
    "return" := "enter"
  ]

  /** The table lookup with the name itself as the default. */
  function TranslateName(raw: string): (r: string)
    ensures NoUpper(raw) ==> NoUpper(r)
  {
    if raw in KeyNames then KeyNames[raw] else raw
  }

  /**
   * A key event as the key listener delivers it: a special key, whose text is
   * "Key." followed by its name, or a key code, which may carry the character
   * it types and otherwise has some other text.
   */
  datatype KeyEvent = Special(name: string) | Code(typed: Option<string>, text: string)

  /** The event's text form. */
  function KeyText(k: KeyEvent): string {
    match k
    case Special(name) => "Key." + name
    case Code(_, text) => text
  }

  /** Does `pat` occur in `s` at index `i`? */
  predicate OccursAt(s: string, pat: string, i: int) {
    0 <= i && i + |pat| <= |s| && s[i..i + |pat|] == pat
  }

  /** Does `pat` occur in `s`? */
  predicate Occurs(s: string, pat: string) {
    exists i :: 0 <= i <= |s| && OccursAt(s, pat, i)
  }

  /** Every non-overlapping occurrence of `pat` in `s`, scanning from the left, deleted. */
  function RemoveAll(s: string, pat: string): (r: string)
    requires pat != []
    ensures |r| <= |s|
    decreases |s|
  {
    if |s| < |pat| then s
    else if s[..|pat|] == pat then RemoveAll(s[|pat|..], pat)
    else [s[0]] + RemoveAll(s[1..], pat)
  }

  /** An occurrence after the first character is an occurrence in the whole text. */
  lemma OccursInTail(s: string, pat: string)
    requires |s| > 0 && Occurs(s[1..], pat)
    ensures Occurs(s, pat)
  {
    var i :| 0 <= i <= |s| - 1 && OccursAt(s[1..], pat, i);
    assert s[i + 1..i + 1 + |pat|] == s[1..][i..i + |pat|];
    assert OccursAt(s, pat, i + 1);
  }

  lemma {:induction false} RemoveAllAbsent(s: string, pat: string)
    requires pat != [] && !Occurs(s, pat)
    ensures RemoveAll(s, pat) == s
    decreases |s|
  {
    if |s| < |pat| {
    } else {
      assert !OccursAt(s, pat, 0);
      assert s[0..|pat|] == s[..|pat|];
      if Occurs(s[1..], pat) {
        OccursInTail(s, pat);
      }
      RemoveAllAbsent(s[1..], pat);
    }
  }

  /** A name without upper-case letters. */
  predicate NoUpper(s: string) {
    forall k :: 0 <= k < |s| ==> !('A' <= s[k] <= 'Z')
  }

  /** The name the key presser expects for a captured key event: never with an upper-case letter. */
  function NormalizeKey(k: KeyEvent): (r: string)
    ensures NoUpper(r)
  {
    if k.Code? && k.typed.Some? && k.typed.value != "" then
      LowerNoUpper(k.typed.value);
      Lower(k.typed.value)
    else
      var raw := Lower(RemoveAll(KeyText(k), "Key."));
      LowerNoUpper(RemoveAll(KeyText(k), "Key."));
      TranslateName(raw)
  }

  /** A key that types a character is stored as that character in lower case. */
  lemma NormalizePrintable(c: string, text: string)
    requires c != ""
    ensures NormalizeKey(Code(Some(c), text)) == Lower(c)
  {
  }

  /** A special key is stored under its name in lower case, translated through the table. */
  lemma NormalizeSpecial(name: string)
    requires !Occurs(name, "Key.")
    ensures NormalizeKey(Special(name)) == TranslateName(Lower(name))
  {
    var s := "Key." + name;
    assert s[..4] == "Key.";
    assert s[4..] == name;
    RemoveAllAbsent(name, "Key.");
  }

  /** A name without upper-case letters cannot contain the "Key." prefix. */
  lemma NoUpperHasNoMarker(s: string)
    requires NoUpper(s)
    ensures !Occurs(s, "Key.")
  {
    forall i | 0 <= i && i + 4 <= |s|
      ensures !OccursAt(s, "Key.", i)
    {
      assert s[i..i + 4][0] == s[i];
    }
  }

  /** A special key whose name is already lower case is looked up under that name. */
  lemma NormalizeLowerSpecial(name: string)
    requires NoUpper(name)
    ensures NormalizeKey(Special(name)) == TranslateName(name)
  {
    NoUpperHasNoMarker(name);
    NormalizeSpecial(name);
    LowerOfNoUpper(name);
  }

  /** Enter reaches the key presser as "enter". */
  lemma NormalizeReturn()
    ensures NormalizeKey(Special("return")) == "enter"
  {
    assert NormalizeKey(Special("return")) == TranslateName("return") by {
      assert NoUpper("return");
      NormalizeLowerSpecial("return");
    }
    assert TranslateName("return") == "enter";
  }

  /** The right command key reaches the key presser as "win". */
  lemma NormalizeCommand()
    ensures NormalizeKey(Special("cmd_r")) == "win"
  {
    assert NormalizeKey(Special("cmd_r")) == TranslateName("cmd_r") by {
      assert NoUpper("cmd_r");
      NormalizeLowerSpecial("cmd_r");
    }
    assert TranslateName("cmd_r") == "win";
  }

  /** A special key outside the table passes through under its own name. */
  lemma NormalizeFunctionKey()
    ensures NormalizeKey(Special("f5")) == "f5"
  {
    assert NormalizeKey(Special("f5")) == TranslateName("f5") by {
      assert NoUpper("f5");
      NormalizeLowerSpecial("f5");
    }
    assert TranslateName("f5") == "f5";
  }

  /** Every name the table produces is a name the table leaves alone. */
  lemma TranslateNameIdempotent(raw: string)
    ensures TranslateName(TranslateName(raw)) == TranslateName(raw)
  {
  }

  lemma LowerNoUpper(s: string)
    ensures NoUpper(Lower(s))
  {
  }

  lemma LowerOfNoUpper(s: string)
    requires NoUpper(s)
    ensures Lower(s) == s
  {
  }

  /** A normalised key survives the dialog's own `.strip().lower()` unchanged, apart from the strip. */
  lemma NormalizedKeyIsLower(k: KeyEvent)
    ensures Lower(NormalizeKey(k)) == NormalizeKey(k)
  {
    LowerOfNoUpper(NormalizeKey(k));
  }

  // ---------------------------------------------------------------------------
  // The form, prefilling it, and saving it
  // ---------------------------------------------------------------------------

  /** The form's fields: button number, binding type, key name, X and Y. */
  datatype Form = Form(button: string, bindType: string, key: string, x: string, y: string)

  /** The form of a new dialog. */
  const BlankForm := Form("", "keyboard", "", "", "")

  /** The form after prefilling it with an existing binding. */
  function PrefillForm(key: string, bind: Bind): (f: Form)
    ensures f.button == key && f.bindType == TypeName(bind)
    ensures f.bindType == "keyboard" ==> f.x == "" && f.y == ""
    ensures f.bindType == "mouse_combo" ==> f.key == ""
    ensures f.bindType !in {"keyboard", "mouse_combo"} ==> f.key == "" && f.x == "" && f.y == ""
  {
    match bind
    case Keyboard(k) => Form(key, "keyboard", k, "", "")
    case MouseCombo(x, y) => Form(key, "mouse_combo", "", IntToString(x), IntToString(y))
    case Sequence(_) => Form(key, "sequence", "", "", "")
    case Other(kind) =>
      // A binding tagged with a known type but lacking its fields gets the defaults.
      if kind == "keyboard" then Form(key, kind, "", "", "")
      else if kind == "mouse_combo" then Form(key, kind, "", "0", "0")
      else Form(key, kind, "", "", "")
  }

  /** Why the dialog stayed open (or closed without a result) on Save. */
  datatype Rejection = BadButton | Declined | EmptyKey | BadCoordinates | UnsupportedType

  datatype DialogResult = DialogResult(button: string, bind: Bind)

  datatype SaveOutcome = Saved(result: DialogResult) | Rejected(reason: Rejection)

  /** Saving under `button` replaces another binding and so must be confirmed. */
  predicate NeedsConfirmation(button: string, existing: set<string>, editKey: Option<string>) {
    button in existing && (editKey.None? || editKey.value != button)
  }

  /** The outcome of the type-specific checks of the Save button. */
  datatype FieldCheck = Accepted(bind: Bind) | Refused(reason: Rejection)

  /**
   * The checks Save makes for the chosen type: a keyboard binding stores the
   * trimmed, lower-cased key, which must not be empty; a mouse combo needs both
   * coordinates to parse as integers; any other type produces nothing.
   */
  function CheckFields(f: Form): (c: FieldCheck)
    ensures c.Accepted? ==> c.bind.Keyboard? || c.bind.MouseCombo?
  {
    if f.bindType == "keyboard" then
      var key := Lower(Strip(f.key));
      if key == "" then Refused(EmptyKey) else Accepted(Keyboard(key))
    else if f.bindType == "mouse_combo" then
      var x := ParseInt(f.x);
      var y := ParseInt(f.y);
      if x.None? || y.None? then Refused(BadCoordinates)
      else Accepted(MouseCombo(x.value, y.value))
    else Refused(UnsupportedType)
  }

  /** When the type-specific checks pass, and the binding they produce. */
  lemma CheckFieldsSpec(f: Form)
    ensures CheckFields(f).Accepted? <==>
      (f.bindType == "keyboard" && Lower(Strip(f.key)) != "")
      || (f.bindType == "mouse_combo" && ParseInt(f.x).Some? && ParseInt(f.y).Some?)
    ensures CheckFields(f).Accepted? && f.bindType == "keyboard" ==>
      CheckFields(f).bind == Keyboard(Lower(Strip(f.key)))
    ensures CheckFields(f).Accepted? && f.bindType != "keyboard" ==>
      CheckFields(f).bind == MouseCombo(ParseInt(f.x).value, ParseInt(f.y).value)
  {
  }

  /**
   * The Save button: the button number must be decimal digits, overwriting
   * another binding must be confirmed, then the type's own fields are checked.
   */
  function Validate(f: Form, existing: set<string>, editKey: Option<string>, confirm: bool): (o: SaveOutcome)
    ensures o.Saved? ==> IsDigits(o.result.button)
  {
    var button := Strip(f.button);
    if !IsDigits(button) then Rejected(BadButton)
    else if NeedsConfirmation(button, existing, editKey) && !confirm then Rejected(Declined)
    else match CheckFields(f)
      case Accepted(bind) => Saved(DialogResult(button, bind))
      case Refused(reason) => Rejected(reason)
  }

  /** When Save produces a result, and which: the trimmed button number and the checked binding. */
  lemma SaveAccepts(f: Form, existing: set<string>, editKey: Option<string>, confirm: bool)
    ensures
      var o := Validate(f, existing, editKey, confirm);
      var button := Strip(f.button);
      && (o.Saved? <==>
        IsDigits(button) && (confirm || !NeedsConfirmation(button, existing, editKey)) && CheckFields(f).Accepted?)
      && (o.Saved? ==> o.result == DialogResult(button, CheckFields(f).bind))
  {
  }

  /** The user is asked only when another binding would be overwritten; otherwise the answer is irrelevant. */
  lemma ConfirmOnlyWhenNeeded(f: Form, existing: set<string>, editKey: Option<string>)
    requires !NeedsConfirmation(Strip(f.button), existing, editKey)
    ensures Validate(f, existing, editKey, true) == Validate(f, existing, editKey, false)
  {
  }

  /** Saving under the key being edited never asks, even though that key exists. */
  lemma EditingOwnKeyNeverAsks(f: Form, existing: set<string>, key: string)
    requires Strip(f.button) == key
    ensures !NeedsConfirmation(Strip(f.button), existing, Some(key))
  {
  }

  /** Declining the question leaves the dialog without a result. */
  lemma DeclineKeepsExisting(f: Form, existing: set<string>, editKey: Option<string>)
    requires IsDigits(Strip(f.button)) && NeedsConfirmation(Strip(f.button), existing, editKey)
    ensures Validate(f, existing, editKey, false) == Rejected(Declined)
  {
  }

  /** A binding whose key is already in the form Save stores. */
  predicate Storable(bind: Bind) {
    match bind
    case Keyboard(k) => k != "" && Strip(k) == k && Lower(k) == k
    case MouseCombo(_, _) => true
    case _ => false
  }

  /**
   * Opening an existing binding for editing and saving it untouched gives back
   * the same button and binding, whatever the answer to the overwrite question.
   */
  lemma PrefillThenSave(key: string, bind: Bind, existing: set<string>, confirm: bool)
    requires IsDigits(key) && Storable(bind)
    ensures Validate(PrefillForm(key, bind), existing, Some(key), confirm) == Saved(DialogResult(key, bind))
  {
    var f := PrefillForm(key, bind);
    PrefillButton(key, bind, existing);
    PrefillFieldsRoundTrip(key, bind);
    SaveAccepts(f, existing, Some(key), confirm);
  }

  /** A prefilled form's button number passes the checks and needs no confirmation. */
  lemma PrefillButton(key: string, bind: Bind, existing: set<string>)
    requires IsDigits(key)
    ensures var button := Strip(PrefillForm(key, bind).button);
      button == key && IsDigits(button) && !NeedsConfirmation(button, existing, Some(key))
  {
    StripNoEnds(key);
  }

  /** The type-specific fields of a prefilled form check back to the binding they came from. */
  lemma PrefillFieldsRoundTrip(key: string, bind: Bind)
    requires Storable(bind)
    ensures CheckFields(PrefillForm(key, bind)) == Accepted(bind)
  {
    match bind {
      case Keyboard(k) => PrefillKeyRoundTrip(key, k);
      case MouseCombo(x, y) => PrefillCoordinatesRoundTrip(key, x, y);
    }
  }

  lemma PrefillKeyRoundTrip(key: string, k: string)
    requires Storable(Keyboard(k))
    ensures CheckFields(PrefillForm(key, Keyboard(k))) == Accepted(Keyboard(k))
  {
    assert PrefillForm(key, Keyboard(k)) == Form(key, "keyboard", k, "", "");
  }

  lemma PrefillCoordinatesRoundTrip(key: string, x: int, y: int)
    ensures CheckFields(PrefillForm(key, MouseCombo(x, y))) == Accepted(MouseCombo(x, y))
  {
    assert PrefillForm(key, MouseCombo(x, y)) == Form(key, "mouse_combo", "", IntToString(x), IntToString(y));
    ParseIntToString(x);
    ParseIntToString(y);
  }

  /** A step-sequence binding opened in the dialog cannot be saved from it. */
  lemma SequenceCannotBeSaved(key: string, steps: seq<Actions.Step>, f: Form, existing: set<string>, confirm: bool)
    requires f.bindType == TypeName(Sequence(steps))
    ensures !Validate(f, existing, Some(key), confirm).Saved?
  {
  }

  // ---------------------------------------------------------------------------
  // Capturing a button
  // ---------------------------------------------------------------------------

  /** Every poll reads as many buttons as the snapshot taken when the capture started. */
  predicate Uniform(snapshot: seq<int>, polls: seq<seq<int>>) {
    forall t :: 0 <= t < |polls| ==> |polls[t]| == |snapshot|
  }

  /** The first button from `from` on that reads pressed in `curr` and released in `prev`. */
  function FirstRisingIn(curr: seq<int>, prev: seq<int>, from: nat): (r: Option<nat>)
    requires |curr| == |prev| && from <= |curr|
    ensures r.Some? ==> from <= r.value < |curr| && Controller.RisingEdge(curr[r.value], prev[r.value])
    ensures r.Some? ==> forall k :: from <= k < r.value ==> !Controller.RisingEdge(curr[k], prev[k])
    ensures r.None? ==> forall k :: from <= k < |curr| ==> !Controller.RisingEdge(curr[k], prev[k])
    decreases |curr| - from
  {
    if from == |curr| then None
    else if Controller.RisingEdge(curr[from], prev[from]) then Some(from)
    else FirstRisingIn(curr, prev, from + 1)
  }

  /** Where a capture stops: the poll, counted from 0, and the button. */
  datatype Edge = Edge(poll: nat, button: nat)

  /** The first rising edge over the polls, each poll scanned in button order. */
  function FirstEdge(prev: seq<int>, polls: seq<seq<int>>): Option<Edge>
    requires Uniform(prev, polls)
    decreases |polls|
  {
    if polls == [] then None
    else match FirstRisingIn(polls[0], prev, 0)
      case Some(b) => Some(Edge(0, b))
      case None =>
        match FirstEdge(polls[0], polls[1..])
        case None => None
        case Some(e) => Some(Edge(e.poll + 1, e.button))
  }

  function ButtonOf(e: Option<Edge>): Option<nat> {
    match e
    case None => None
    case Some(edge) => Some(edge.button)
  }

  /** The readings poll `t` is compared with: the snapshot for the first poll, else the poll before. */
  function Before(snapshot: seq<int>, polls: seq<seq<int>>, t: nat): (r: seq<int>)
    requires Uniform(snapshot, polls) && t < |polls|
    ensures |r| == |snapshot|
  {
    if t == 0 then snapshot else polls[t - 1]
  }

  /** Button `b` went from released to pressed at poll `t`. */
  predicate RisingAt(snapshot: seq<int>, polls: seq<seq<int>>, t: nat, b: nat)
    requires Uniform(snapshot, polls)
  {
    t < |polls| && b < |snapshot| && Controller.RisingEdge(polls[t][b], Before(snapshot, polls, t)[b])
  }

  lemma RisingAtShift(snapshot: seq<int>, polls: seq<seq<int>>, t: nat, b: nat)
    requires Uniform(snapshot, polls) && polls != []
    ensures Uniform(polls[0], polls[1..])
    ensures RisingAt(snapshot, polls, t + 1, b) == RisingAt(polls[0], polls[1..], t, b)
  {
    assert Uniform(polls[0], polls[1..]);
  }

  /**
   * The capture reports the first rising edge in time, and within that poll
   * the lowest button; it reports nothing exactly when no button ever rose.
   */
  lemma {:induction false} FirstEdgeSpec(snapshot: seq<int>, polls: seq<seq<int>>)
    requires Uniform(snapshot, polls)
    ensures FirstEdge(snapshot, polls).None? ==> forall t: nat, b: nat :: !RisingAt(snapshot, polls, t, b)
    ensures FirstEdge(snapshot, polls).Some? ==>
      var e := FirstEdge(snapshot, polls).value;
      RisingAt(snapshot, polls, e.poll, e.button)
      && (forall t: nat, b: nat :: t < e.poll ==> !RisingAt(snapshot, polls, t, b))
      && (forall b: nat :: b < e.button ==> !RisingAt(snapshot, polls, e.poll, b))
    decreases |polls|
  {
    if polls == [] {
    } else {
      assert Uniform(polls[0], polls[1..]);
      match FirstRisingIn(polls[0], snapshot, 0)
      case Some(b) =>
      case None =>
        FirstEdgeSpec(polls[0], polls[1..]);
        forall t: nat, b: nat
          ensures RisingAt(snapshot, polls, t + 1, b) == RisingAt(polls[0], polls[1..], t, b)
        {
          RisingAtShift(snapshot, polls, t, b);
        }
        forall b: nat ensures !RisingAt(snapshot, polls, 0, b) {
        }
        forall t: nat, b: nat ensures t > 0 ==> RisingAt(snapshot, polls, t, b) == RisingAt(polls[0], polls[1..], t - 1, b) {
          if t > 0 {
            RisingAtShift(snapshot, polls, t - 1, b);
          }
        }
    }
  }

  /** A button held down from before the capture started and never released is not captured. */
  lemma HeldButtonNotCaptured(snapshot: seq<int>, polls: seq<seq<int>>, b: nat)
    requires Uniform(snapshot, polls) && b < |snapshot| && snapshot[b] == 1
    requires forall t :: 0 <= t < |polls| ==> polls[t][b] == 1
    ensures ButtonOf(FirstEdge(snapshot, polls)) != Some(b)
  {
    FirstEdgeSpec(snapshot, polls);
    forall t: nat | t < |polls|
      ensures !RisingAt(snapshot, polls, t, b)
    {
      assert Before(snapshot, polls, t)[b] == 1;
    }
  }

  /** Once some button goes from released to pressed, the capture ends there or earlier. */
  lemma PressIsCaptured(snapshot: seq<int>, polls: seq<seq<int>>, t: nat, b: nat)
    requires Uniform(snapshot, polls) && RisingAt(snapshot, polls, t, b)
    ensures FirstEdge(snapshot, polls).Some? && FirstEdge(snapshot, polls).value.poll <= t
  {
    FirstEdgeSpec(snapshot, polls);
  }

  /**
   * The capture loop: starting from the snapshot, scan every poll in button
   * order and stop at the first button that reads pressed after reading released.
   */
  method CaptureButton(snapshot: seq<int>, polls: seq<seq<int>>) returns (captured: Option<nat>)
    requires Uniform(snapshot, polls)
    ensures captured == ButtonOf(FirstEdge(snapshot, polls))
  {
    var n := |snapshot|;
    var prev: map<nat, int> := map b: nat | b < n :: snapshot[b];
    ghost var before := snapshot;
    var t := 0;
    while t < |polls|
      invariant 0 <= t <= |polls|
      invariant |before| == n && Uniform(before, polls[t..])
      invariant forall k: nat :: k < n ==> k in prev && prev[k] == before[k]
      invariant ButtonOf(FirstEdge(snapshot, polls)) == ButtonOf(FirstEdge(before, polls[t..]))
    {
      var b := 0;
      while b < n
        invariant 0 <= b <= n
        invariant forall k: nat :: k < n ==> k in prev && prev[k] == (if k < b then polls[t][k] else before[k])
        invariant FirstRisingIn(polls[t], before, 0) == FirstRisingIn(polls[t], before, b)
      {
        var curr := polls[t][b];
        if curr == 1 && (if b in prev then prev[b] else 0) == 0 {
          assert polls[t..][0] == polls[t];
          return Some(b);
        }
        prev := prev[b := curr];
        b := b + 1;
      }
      assert polls[t..][0] == polls[t] && polls[t..][1..] == polls[t + 1..];
      before := polls[t];
      t := t + 1;
    }
    return None;
  }

  // ---------------------------------------------------------------------------
  // The dialog
  // ---------------------------------------------------------------------------

  /** How a button capture ended. */
  datatype CaptureOutcome = Captured(button: nat) | NoController | TimedOut | Cancelled

  class BindDialog {
    /** Set by a successful Save; stays None when the dialog is cancelled. */
    var result: Option<DialogResult>
    const editKey: Option<string>
    const existingKeys: set<string>
    var btnEntry: string
    var typeVar: string
    var keyEntry: string
    var xEntry: string
    var yEntry: string
    var capturingBtn: bool

    function CurrentForm(): Form
      reads this
    {
      Form(btnEntry, typeVar, keyEntry, xEntry, yEntry)
    }

    /** Opens the dialog, prefilled when an existing binding is being edited. */
    constructor (editKey: Option<string>, editBind: Option<Bind>, existingKeys: seq<string>)
      ensures result == None && !capturingBtn
      ensures this.editKey == editKey && this.existingKeys == set k | k in existingKeys
      ensures CurrentForm() == if editKey.Some? && editBind.Some? then PrefillForm(editKey.value, editBind.value) else BlankForm
    {
      this.editKey := editKey;
      this.existingKeys := set k | k in existingKeys;
      result := None;
      capturingBtn := false;
      var f := BlankForm;
      if editKey.Some? && editBind.Some? {
        f := PrefillForm(editKey.value, editBind.value);
      }
      btnEntry, typeVar, keyEntry, xEntry, yEntry := f.button, f.bindType, f.key, f.x, f.y;
    }

    /** The Save button; `confirm` is the answer to the overwrite question, when it is asked. */
    method Save(confirm: bool)
      modifies this`result
      ensures Validate(CurrentForm(), existingKeys, editKey, confirm).Saved? ==>
        result == Some(Validate(CurrentForm(), existingKeys, editKey, confirm).result)
      ensures Validate(CurrentForm(), existingKeys, editKey, confirm).Rejected? ==> result == old(result)
    {
      var o := Validate(CurrentForm(), existingKeys, editKey, confirm);
      if o.Saved? {
        result := Some(o.result);
      }
    }

    /**
     * The button-number capture: the field is cleared, the first gamepad
     * (`deviceCount` connected) is snapshotted and polled; `polls` are the
     * readings taken before the deadline passed or the dialog was closed
     * (`cancelled`).
     */
    method StartBtnCapture(deviceCount: nat, snapshot: seq<int>, polls: seq<seq<int>>, cancelled: bool)
      returns (outcome: CaptureOutcome)
      requires Uniform(snapshot, polls)
      modifies this`btnEntry, this`capturingBtn
      ensures !capturingBtn
      ensures deviceCount == 0 ==> outcome == NoController
      ensures deviceCount > 0 && FirstEdge(snapshot, polls).Some? ==>
        outcome == Captured(FirstEdge(snapshot, polls).value.button)
      ensures deviceCount > 0 && FirstEdge(snapshot, polls).None? ==>
        outcome == if cancelled then Cancelled else TimedOut
      ensures btnEntry == if outcome.Captured? then NatToString(outcome.button) else ""
    {
      capturingBtn := true;
      btnEntry := "";
      if deviceCount == 0 {
        capturingBtn := false;
        return NoController;
      }
      var c := CaptureButton(snapshot, polls);
      capturingBtn := false;
      match c
      case Some(b) =>
        btnEntry := NatToString(b);
        outcome := Captured(b);
      case None =>
        outcome := if cancelled then Cancelled else TimedOut;
    }
  }
}
