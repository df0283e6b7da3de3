# joybind core, modelled in Dafny

joybind maps gamepad buttons to keyboard and mouse actions. This project models
the four pieces of sequential logic at its centre and proves what they promise:

- **The step interpreter** (`actions.py`), in `actions.dfy`. A step sequence is a
  list of tagged steps. The interpreter walks it in order and turns each
  recognised step into at most one call of the input-injection layer: move,
  click, double click, scroll, key press or sleep. The only state carried from
  step to step is the saved cursor position.
  - The injection layer is abstract: a cursor position, a trace of the calls
    made, and an oracle that says how each call ends (normally, fail-safe abort,
    other error).
  - `Actions.Run` is the reference semantics. `Actions.ExecuteSequence` is the
    source's loop, proved equal to it.
- **The listener** (`controller.py`), in `controller.dfy`. It is a class with the
  source's fields:
  - `start`/`stop` are modelled as a state machine over `running`, the thread
    and the device handle.
  - One polling cycle is a loop over the buttons that updates the
    previous-state map in place and reports each released-to-pressed edge.
  - `Controller.Scan` is the reference for one cycle.
  - `is_running` is `ControllerListener.IsRunning`.
- **The binding dialog** (`gui/bind_dialog.py`), in `bind_dialog.dfy`:
  - the key-name normaliser and its table;
  - the form prefill;
  - the Save validator, as a function from the form to a result or a rejection;
  - the dialog class that stores the result;
  - the button-capture loop, proved to report the first rising edge.
- **The main window** (`gui/app.py`), in `app.dfy`:
  - the file-name filter;
  - the dispatch of a button press to its binding;
  - the add, edit and delete edits of the binding map (replace, never merge);
  - the integer order of the binding list;
  - the preset and device choices.

  The window is a class holding the binding map, the selection, the rendered
  rows and the listener.

Python's `str.strip`, `str.isdigit`, `str.lower`, `str(int)` and `int(str)` are
modelled in `text.dfy`. `int(str(i)) == i` is proved there (`Text.ParseIntToString`).

The model follows `actions.py` as written:
- A sequence never restores the cursor by itself after its last step.
- `move_mouse` has no per-step save-and-restore option.
- `restore_mouse` does not clear the saved position.

Input and output become parameters:
- the outcome of each injection call (an oracle);
- the gamepad's readings per cycle, and whether the handle is still valid or the
  cycle raised;
- the device count and how opening the device goes;
- the device names;
- whether a preset file exists, and the binding map it holds;
- the user's answers to confirmation questions.

## Model

| member | source | states |
|---|---|---|
| `Actions.ClassifyStep` | actions.py:61-98 | The if/elif chain on the step's tag yields exactly the request of the reference semantics: save, restore (only with a saved position), move (only with both x and y), the three clicks, double click, scroll up by +clicks and down by -clicks (default 3), key (only with a key), delay (default 100 ms), or unknown. |
| `Actions.ExecuteSequence` | actions.py:41-103 | The loop over the steps, starting with no saved position, produces exactly the trace, final cursor and log of `Run`: steps in list order, return at the first fail-safe, any other error logged and skipped. |
| `Actions.ExecuteMouseCombo` | actions.py:26-36 | Equals running the four steps save, move(x, y), left click, restore. At most three calls are made, in the order move to (x, y), click left, move back. With no failing call it clicks at (x, y) and ends at the starting cursor. |
| `Actions.ExecuteKeyboard` | actions.py:16-23 | One key press at the cursor. An error is logged, a fail-safe is swallowed, and nothing is ever raised. |
| `Actions.RunAppend` | actions.py:60-103 | Running a concatenation is running the first list, then (unless it aborted) the second from where the first left off. |
| `Actions.RunOnlyAppends` | actions.py:60-103 | A run only appends to the trace and the log; nothing made or logged is taken back. |
| `Actions.StepMakesOneCall` | actions.py:60-98 | A step makes at most one call, of the kind its tag names, at the current cursor. It makes exactly one iff the tag is recognised, is not save_mouse, and has its saved position or required fields. It aborts iff that call fails safe. An unknown tag only logs. |
| `Actions.SaveAndRestore` | actions.py:58-68 | save_mouse overwrites the saved position with the cursor and calls nothing. restore_mouse with nothing saved does nothing. Otherwise it moves to the saved position, keeps it saved, and on success leaves the cursor there. |
| `Actions.ScrollAndDelayDefaults` | actions.py:85-95 | scroll_up scrolls by +clicks, scroll_down by -clicks (3 when absent), and delay sleeps ms (100 when absent). |
| `Actions.FailSafeStopsSequence` | actions.py:100-101 | Once a step fails safe, the whole list's result is the result at that step: later steps call nothing. |
| `Actions.FailureDoesNotStopSequence` | actions.py:97-103 | An unknown tag, a missing field or an erroring call adds one log line, and the remaining steps run from the state it left. |
| `Actions.RunCons` | actions.py:60-101 | A list runs as its first step followed, unless that aborted, by the rest. |
| `Actions.NoRestoreAfterLastStep` | actions.py:60-103 | save then move leaves the cursor at the move's target: nothing is restored automatically at the end. |
| `Actions.RestoreTwiceMovesTwice` | actions.py:66-68 | restore_mouse does not clear the saved position, so a second restore moves back there again. |
| `Actions.MouseComboUnfold` | actions.py:31-36 | The combo's run is the step-by-step result of its four steps, stopping at an abort. |
| `Actions.MouseComboCalls` | actions.py:31-36 | The combo makes at most three calls: move to (x, y), left click, move back to the start, in that order. |
| `Actions.MouseComboRoundTrip` | actions.py:26-36 | With no failing call, the trace is exactly move to (x, y), click at (x, y), move back, and the cursor ends where it started. |
| `Controller.Scan` | controller.py:190-199 | One cycle's scan of the first n buttons reports at most n buttons. |
| `Controller.ScanFired` | controller.py:190-197 | Button b is reported iff it was scanned, reads 1, and its previous state (0 when absent) is 0. |
| `Controller.ScanBelow` | controller.py:191 | Only scanned buttons are reported. |
| `Controller.ScanAscending` | controller.py:191-197 | Reports come in strictly increasing button order. |
| `Controller.ScanRecords` | controller.py:199 | After the scan each scanned button's previous state is its reading, fired or not. No other entry changes. |
| `Controller.ControllerListener.constructor` | controller.py:32-50 | A new listener is stopped, with no thread, no handle, device index 0 and an empty previous-state map. |
| `Controller.ControllerListener.SetJoystickIndex` | controller.py:81-83 | The device index becomes the one given. |
| `Controller.ControllerListener.Start` | controller.py:109-143 | Already running: success, nothing changes. Otherwise success iff devices exist, the index is in range and opening succeeds; success iff running afterwards. No device, index out of range and init failure each give their own error and leave the listener stopped. A failed init() leaves the handle stored. |
| `Controller.ControllerListener.Stop` | controller.py:145-157 | Afterwards: not running, no thread, no handle, whatever the state before (so stopping twice is stopping once). |
| `Controller.ControllerListener.PollCycle` | controller.py:180-212 | A lost handle or a failing pump ends the loop with no report. Otherwise the scan up to any faulting button equals `Scan`, and a fault stops the loop. The report and the new map are `CycleScan`'s, and the loop goes on iff `EndsLoop` is false. Axes are reported, in full and in order, only when a callback is registered. |
| `Controller.ControllerListener.PollLoop` | controller.py:177-218 | The loop always ends not running. Its reports and final map are exactly `LoopRun`'s: cycle by cycle, up to and including the first cycle that ends the loop. When every cycle is healthy, they are the per-cycle rising edges and the state after the last cycle. |
| `Controller.LoopRun` | controller.py:177-218 | The cycle-by-cycle reference for the loop. It reports at most one list of presses per cycle. |
| `Controller.LoopRunStops` | controller.py:207-212 | Once a prefix of the cycles has ended the loop, the later cycles change nothing. |
| `Controller.LoopRunHealthy` | controller.py:177-199 | Healthy cycles never end the loop, and they report the per-cycle rising edges and leave the state after the last cycle. |
| `Controller.StopsAtFirstFault` | controller.py:180-212 | If cycle t is the first to end the loop, the loop reports the earlier cycles' presses, then the partial scan of cycle t, and keeps that scan's map. No later cycle is read. With healthy earlier cycles, those presses are the per-cycle rising edges. |
| `Controller.ControllerListener.IsRunning` | controller.py:159-161 | On a consistent listener, a true answer means the device handle and the polling thread exist. |
| `Controller.FiredPerCycleAt` | controller.py:177-199 | Cycle t reports the rising edges of its readings against the map the earlier cycles left. |
| `Controller.PrevAfterHoldsLastReading` | controller.py:199 | After healthy cycles, a button's recorded state is its last reading (0 before any reading). |
| `Controller.FiresExactlyOnPress` | controller.py:171-199 | Across cycles, b is reported in cycle t iff it reads 1 there and read 0 in the cycle before (or t is the first cycle). A held button is reported once. |
| `Controller.PressHoldReleasePress` | controller.py:171-199 | Readings 0, 0, 1, 1, 0, 1 of one button fire exactly twice, in the third and sixth cycles. |
| `Controller.OneButtonCycle` | controller.py:190-199 | With one button, a cycle reports [0] exactly on a 0-to-1 transition, otherwise nothing. |
| `GuiBindDialog.NormalizePrintable` | gui/bind_dialog.py:51-55 | A key that types a non-empty character normalises to that character in lower case. |
| `GuiBindDialog.NormalizeSpecial` | gui/bind_dialog.py:59-61 | A special key normalises to its name, lower-cased, then looked up in the table with the name as default. |
| `GuiBindDialog.NormalizeLowerSpecial` | gui/bind_dialog.py:59-61 | A special key whose name has no upper-case letters is the table lookup of that name. |
| `GuiBindDialog.NormalizeReturn` | gui/bind_dialog.py:24-61 | The return key normalises to "enter". |
| `GuiBindDialog.NormalizeCommand` | gui/bind_dialog.py:24-61 | The right command key normalises to "win". |
| `GuiBindDialog.NormalizeFunctionKey` | gui/bind_dialog.py:59-61 | A name outside the table ("f5") passes through unchanged. |
| `GuiBindDialog.TranslateNameIdempotent` | gui/bind_dialog.py:24-43 | Every name the table produces maps to itself. |
| `GuiBindDialog.TranslateName` | gui/bind_dialog.py:24-43 | The table maps lower-case names to lower-case names. |
| `GuiBindDialog.RemoveAll` | gui/bind_dialog.py:60 | Removing the "Key." marker never lengthens the text. |
| `GuiBindDialog.RemoveAllAbsent` | gui/bind_dialog.py:60 | Text without the marker is left unchanged. |
| `GuiBindDialog.NormalizeKey` | gui/bind_dialog.py:46-61 | Every normalised key is free of upper-case letters. |
| `GuiBindDialog.NormalizedKeyIsLower` | gui/bind_dialog.py:46-61 | The dialog's later lower-casing leaves a normalised key unchanged. |
| `GuiBindDialog.PrefillForm` | gui/bind_dialog.py:459-471 | The button field is the key and the type is the binding's type. Only the chosen type's fields are filled: key for keyboard, X and Y for a mouse combo, none for any other type. |
| `GuiBindDialog.CheckFields` | gui/bind_dialog.py:510-538 | Whatever the type checks accept is a keyboard or a mouse-combo binding. |
| `GuiBindDialog.CheckFieldsSpec` | gui/bind_dialog.py:510-538 | Accepted iff keyboard with a non-empty trimmed key, or mouse combo with both coordinates parsing as integers. A keyboard binding stores the trimmed, lower-cased key, and a mouse combo the parsed coordinates. |
| `GuiBindDialog.Validate` | gui/bind_dialog.py:486-541 | A saved button number is all decimal digits. |
| `GuiBindDialog.SaveAccepts` | gui/bind_dialog.py:486-540 | Saved iff the trimmed button is all digits, the overwrite (when needed) is confirmed, and the type checks accept. The result is that trimmed string, kept as text, with the checked binding. |
| `GuiBindDialog.ConfirmOnlyWhenNeeded` | gui/bind_dialog.py:501-508 | When no other binding would be overwritten, the answer to the question does not matter. |
| `GuiBindDialog.EditingOwnKeyNeverAsks` | gui/bind_dialog.py:502 | Saving under the key being edited never needs confirmation. |
| `GuiBindDialog.DeclineKeepsExisting` | gui/bind_dialog.py:502-508 | Declining an overwrite yields no result. |
| `GuiBindDialog.PrefillThenSave` | gui/bind_dialog.py:459-541 | Opening a stored keyboard or mouse-combo binding for editing and saving it unchanged returns the same key and binding. |
| `GuiBindDialog.PrefillButton` | gui/bind_dialog.py:461 | A prefilled digit key passes the button check unchanged and asks nothing. |
| `GuiBindDialog.PrefillFieldsRoundTrip` | gui/bind_dialog.py:464-471 | The prefilled type fields check back to the binding they came from. |
| `GuiBindDialog.PrefillKeyRoundTrip` | gui/bind_dialog.py:467-468 | A stored keyboard key checks back to itself. |
| `GuiBindDialog.PrefillCoordinatesRoundTrip` | gui/bind_dialog.py:469-471 | Coordinates written as decimal text parse back to the same integers. |
| `GuiBindDialog.SequenceCannotBeSaved` | gui/bind_dialog.py:537-538 | A form of type "sequence" never produces a result. |
| `GuiBindDialog.FirstRisingIn` | gui/bind_dialog.py:385-395 | Within one poll, the first button from a given index that went from 0 to 1, and none before it. None means there is no such button. |
| `GuiBindDialog.FirstEdgeSpec` | gui/bind_dialog.py:374-395 | The capture's edge is a real rising edge, with none in any earlier poll and none at a lower button in its poll. No edge means no button ever rose. |
| `GuiBindDialog.HeldButtonNotCaptured` | gui/bind_dialog.py:373-395 | A button held from the snapshot on and never released is never captured. |
| `GuiBindDialog.PressIsCaptured` | gui/bind_dialog.py:378-395 | Any rising edge ends the capture at that poll or earlier. |
| `GuiBindDialog.CaptureButton` | gui/bind_dialog.py:374-395 | The loop over polls and buttons, updating `prev` in place, returns exactly the button of the first edge. |
| `GuiBindDialog.BindDialog.constructor` | gui/bind_dialog.py:74-112 | No result and no capture running. The existing keys become a set. The form is prefilled when both an edit key and a binding are given, else blank. |
| `GuiBindDialog.BindDialog.Save` | gui/bind_dialog.py:486-541 | The result is set to the validated one only when validation saves; otherwise it is unchanged. |
| `GuiBindDialog.BindDialog.StartBtnCapture` | gui/bind_dialog.py:340-420 | The button field is cleared. No device gives a failure. Otherwise the first edge's button is written as decimal text into the field, or, with no edge, the capture ended by cancellation or timeout. Capture mode ends in every case. |
| `GuiApp.RemoveForbidden` | gui/app.py:62 | A character survives iff it is in the name and is not one of the nine forbidden characters. |
| `GuiApp.RemoveForbiddenAppend` | gui/app.py:62 | Filtering distributes over concatenation, so the kept characters keep their order. |
| `GuiApp.RemoveForbiddenClean` | gui/app.py:62 | A name without forbidden characters is kept whole. |
| `GuiApp.SanitizeFilename` | gui/app.py:60-62 | No forbidden character and no whitespace at either end. The result is the filtered name with exactly its surrounding whitespace cut off (`TrimmedFrom`), so a name with a kept non-space character never sanitises to "". |
| `GuiApp.SanitizeIdempotent` | gui/app.py:60-62 | Sanitising twice is sanitising once. |
| `GuiApp.Resolve` | gui/app.py:510-528 | Nothing runs iff no binding is stored under the button's decimal numeral. Otherwise a keyboard, sequence or mouse-combo binding selects its action, and any other type is unsupported. |
| `GuiApp.StoredBindIsDispatched` | gui/app.py:510-511 | A binding stored under a button's numeral is the one its press runs. |
| `GuiApp.PaddedKeyNeverDispatched` | gui/app.py:510-513 | A key with a leading zero (which the dialog accepts) is never looked up by a press. |
| `GuiApp.StepsWord` | gui/app.py:523 | "passo" iff the count is 1, "passos" otherwise. |
| `GuiApp.ActionLabel` | gui/app.py:515-529 | A label is shown iff the binding is keyboard, sequence or mouse combo. |
| `GuiApp.SequenceLabelWords` | gui/app.py:521-523 | A sequence's label names its step count, with "passo" for one step and "passos" otherwise. |
| `GuiApp.Store` | gui/app.py:634-636 | The new binding replaces whatever the key held. Every other key is unchanged. |
| `GuiApp.Rebind` | gui/app.py:657-661 | The new key holds the binding. The old key remains only if it equals the new one. Every other key is unchanged. |
| `GuiApp.RebindSameKey` | gui/app.py:657-661 | Editing without changing the button number replaces in place and keeps the key set. |
| `GuiApp.EditTarget` | gui/app.py:641-643 | A non-empty forced key wins over the selection. Without one, the target is the selection when it is non-empty. An empty key means nothing to edit. |
| `GuiApp.SortedKeys` | gui/app.py:556 | Each key is listed exactly once, in non-decreasing order of the sort value. |
| `GuiApp.RenderOrderSpec` | gui/app.py:556 | The rendered rows are the map's keys, each once, ascending by integer value. |
| `GuiApp.KeysNumericStore` | gui/app.py:634-636 | Storing under an all-digits button number keeps every key sortable. |
| `GuiApp.PresetToApply` | gui/app.py:344-353 | A preset is loaded iff the name is non-empty, is not the placeholder, is not the preset in use, and its file exists. |
| `GuiApp.InitialPreset` | gui/app.py:103-128 | The last preset if recorded and present, else the first listed, else a new default. |
| `GuiApp.DeviceIndex` | gui/app.py:470-473 | The position of the first device with the chosen name, or 0 when none has it. |
| `GuiApp.App.constructor` | gui/app.py:68-97 | The window opens on the loaded map with a stopped listener that has no axes callback, no selection, the device dropdown filled, and the rows in key order. |
| `GuiApp.App.RenderBindList` | gui/app.py:537-557 | Rows are rebuilt in key order and the selection is cleared. |
| `GuiApp.App.SelectRow` | gui/app.py:604-614 | The clicked row's key becomes the selection. |
| `GuiApp.App.AddBind` | gui/app.py:626-638 | A result is stored with replace semantics and the list is re-rendered. No result changes nothing. |
| `GuiApp.App.EditBind` | gui/app.py:640-663 | With a target key that holds a binding and a result, the map is rebound from the old key to the result's key and re-rendered. Otherwise nothing changes. |
| `GuiApp.App.DeleteSelected` | gui/app.py:665-677 | On confirmation exactly the selected key is removed (one fewer key), and the list is re-rendered. Otherwise nothing changes. |
| `GuiApp.App.ApplyPreset` | gui/app.py:355-362 | The loaded map replaces the current one, the preset becomes current, and the list is re-rendered. |
| `GuiApp.App.OnPresetSelected` | gui/app.py:344-353 | Loads exactly when `PresetToApply` says so, else nothing changes. Choosing the same name again afterwards loads nothing. |
| `GuiApp.App.RefreshJoystickDropdown` | gui/app.py:446-457 | A no-op while listening. Otherwise the dropdown holds the names (or the placeholder) and selects the first. |
| `GuiApp.App.StartListener` | gui/app.py:469-487 | The listener gets the index of the chosen device name. Listening starts iff the listener starts. A failure returns `start()`'s own error: no device, the index past the device count, or an init error. A start opens the handle for that index with a new thread and an empty button map. An already running listener is left as it was. |
| `GuiApp.App.StopListener` | gui/app.py:489-498 | The listener is stopped, its handle released, and the window is no longer listening. |
| `GuiApp.App.OnButtonPress` | gui/app.py:504-531 | The press runs the resolved binding. The calls and final cursor are exactly those of the key press, the sequence interpreter or the mouse combo, and the label is that binding's. An unbound button or an unsupported type makes no call. |
| `Text.Strip` | gui/bind_dialog.py:490 | No whitespace at either end, and a slice of the input with only whitespace cut off. |
| `Text.Lower` | gui/bind_dialog.py:55-60 | Same length; each ASCII capital becomes its small letter and every other character is kept. |
| `Text.StripIdempotent` | gui/bind_dialog.py:490 | Stripping twice is stripping once. |
| `Text.ParseInt` | gui/bind_dialog.py:526-527 | Parsing succeeds iff the trimmed text is a numeral, optionally signed (`IsIntLiteral`); otherwise `int()` raises. A numeral gives its value with the underscores dropped, "-" negates it, and all-digit text gives its decimal value. |
| `Text.ParseStripped` | gui/bind_dialog.py:526-527 | The same on text that is already trimmed. |
| `Text.ParseIntRejectsLetters` | gui/bind_dialog.py:526-534 | "abc" does not parse, which is the coordinate rejection path. |
| `Text.ParseIntToString` | gui/bind_dialog.py:470-471 | The decimal text of every integer parses back to that integer. |
| `Text.NatToString` | gui/app.py:510 | The numeral is all digits, denotes the number, and has no leading zero. |
| `Text.IntToString` | gui/bind_dialog.py:470-471 | No whitespace at either end. A non-negative integer is all digits denoting it. A negative one is "-" followed by digits denoting its magnitude. |

## Left out

- **Threads, timing and I/O.** These are left out:
  - the listener's thread, its join timeout and the 60 Hz clock;
  - the per-press action thread and the capture threads;
  - the 10 s capture deadline and the 3 s countdown;
  - reading, writing and listing preset files and settings (`presets.py`, `config.py`).

  A sleep is a trace event carrying its duration. A capture's polls are the readings taken before it ended.
- **The third-party libraries.** pygame, pyautogui, pynput and the window toolkit are abstract inputs and outputs. Widget layout, colours, styling of the selected row, message boxes and file dialogs are not modelled.
- **Malformed bindings and steps** beyond those with a missing field. This covers an empty binding dictionary, a binding missing "type", `x`/`y` values that are not integers, and a step that is not a dictionary.
- `Text.ParseInt`, `Text.IsDigits`: Python's `int()` and `str.isdigit` also accept non-ASCII digits. The model accepts ASCII digits only, so a button number or coordinate written in other scripts' digits is rejected here where the source may accept it.
- `Text.Lower`, `GuiBindDialog.NormalizeKey`, `GuiBindDialog.CheckFields`: `str.lower` also lowers non-ASCII capitals, and the model lowers only A to Z. A typed or captured "Ç" is stored as "Ç" here, where the source stores "ç".
- **Float axis values.** They are passed through untouched as `real`.
- `GuiApp.RenderOrderSpec`: the relative order of two keys with the same integer value (such as "1" and "01") follows dictionary insertion order in Python. It is left unspecified.
- **Exceptions raised inside `_on_button_press` or a capture.**
  - A missing key in a binding during dispatch is left out.
  - A pygame error during capture, which shows its message, is left out.
  - A capture that is cancelled is reported as such; the source shows nothing in that case.
- `GuiBindDialog.BindDialog.StartBtnCapture`: the capture always opens device 0, whatever the main window selected. The model reflects this by taking only the device count.
- `GuiApp.App.StartListener`: the device count `total` seen by `start()` is a separate input from the names listed just before. Each comes from its own hardware enumeration, and they can differ.
- `_new_preset`, `_change_presets_folder`, `_save_current_preset`, `get_button_count` and `get_joystick_names` are not part of the core and are not modelled.
- **The key-capture listener** (`_start_key_capture`) is not modelled. Its key normalisation is (`GuiBindDialog.NormalizeKey`).
- `GuiApp.App.constructor`, `GuiApp.App.ApplyPreset`, `GuiApp.App.OnPresetSelected`: each requires every key of the loaded map to parse as an integer (`KeysNumeric`). A preset holding a key that `int()` rejects makes the source raise `ValueError` when it sorts the rows (gui/app.py:556). Such presets, and that crash, are not modelled.
- `Actions.ExecuteSequence`, `Actions.Run`: a delay with any non-negative duration succeeds. Python's `time.sleep` raises `OverflowError` for a duration too large for the platform, which the step's handler would log as a failure before going on; that case is not modelled.
- `GuiApp.App.OnButtonPress`: the press callback is taken never to raise. In the source a raising callback (for instance when the action thread cannot be started) ends the polling loop after the press was reported, without recording that button's new state; `Controller.ControllerListener.PollCycle` does not represent this.
- `Text.IsDigits`: a predicate without a contract of its own. What it means is stated by `Text.NatToString`, `Text.IntToString` and `Text.ParseInt`.
- `Actions.ExecuteSequence`: the source's inline `if`/`elif` chain is written as the separate method `Actions.ClassifyStep`, which the loop calls.
