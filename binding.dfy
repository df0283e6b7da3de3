/**
 * A binding as stored under a button index in a preset's "binds" map: a single
 * key, a step sequence, the legacy mouse combo, or any other "type" tag.
 */
module Binding {
  import Actions

  datatype Bind =
    | Keyboard(key: string)
    | Sequence(steps: seq<Actions.Step>)
    | MouseCombo(x: int, y: int)
    | Other(kind: string)

  /** The binding's "type" field. */
  function TypeName(b: Bind): string {
    match b
    case Keyboard(_) => "keyboard"
    case Sequence(_) => "sequence"
    case MouseCombo(_, _) => "mouse_combo"
    case Other(kind) => kind
  }

  /** The "binds" map of a preset: button index, as decimal text, to its binding. */
  type BindMap = map<string, Bind>
}
