/** Keyboard shortcuts: the default bindings with their custom overrides. */
module Keybindings {

  /** One default binding: display name, action id and key combination. */
  datatype Binding = Binding(name: string, action: string, keys: string)

  const DefaultBindings: seq<Binding> := [
    Binding("Select next header", "selectNextVisibleHeader", "ctrl+down"),
    Binding("Select previous header", "selectPreviousVisibleHeader", "ctrl+up"),
    Binding("Toggle header opened", "toggleHeaderOpened", "tab"),
    Binding("Advance todo state", "advanceTodo", "alt+t"),
    Binding("Edit title", "editTitle", "ctrl+h"),
    Binding("Edit description", "editDescription", "ctrl+d"),
    Binding("Add header", "addHeader", "ctrl+enter"),
    Binding("Remove header", "removeHeader", "backspace"),
    Binding("Move header up", "moveHeaderUp", "alt+up"),
    Binding("Move header down", "moveHeaderDown", "alt+down"),
    Binding("Move header left", "moveHeaderLeft", "alt+shift+left"),
    Binding("Move header right", "moveHeaderRight", "alt+shift+right"),
    Binding("Undo", "undo", "ctrl+/")
  ]

  /** `customKeybindings.get(name, default)`: custom bindings are keyed by display name. */
  function KeysFor(custom: map<string, string>, b: Binding): string
  {
    if b.name in custom then custom[b.name] else b.keys
  }

  /** `calculateNamedKeybindings`: one (display name, keys) pair per default binding. */
  function NamedKeybindings(custom: map<string, string>): (r: seq<(string, string)>)
    ensures |r| == |DefaultBindings| == 13
    ensures forall i :: 0 <= i < |r| ==> r[i].0 == DefaultBindings[i].name
  {
    seq(|DefaultBindings|, i requires 0 <= i < |DefaultBindings| =>
      (DefaultBindings[i].name, KeysFor(custom, DefaultBindings[i])))
  }

  /** `calculateActionedKeybindings`: one (action id, keys) pair per default binding. */
  function ActionedKeybindings(custom: map<string, string>): (r: seq<(string, string)>)
    ensures |r| == |DefaultBindings| == 13
    ensures forall i :: 0 <= i < |r| ==> r[i].0 == DefaultBindings[i].action
  {
    seq(|DefaultBindings|, i requires 0 <= i < |DefaultBindings| =>
      (DefaultBindings[i].action, KeysFor(custom, DefaultBindings[i])))
  }

  /** A custom binding for a display name overrides the default in both lists;
      every other entry keeps its default keys. */
  lemma CustomOverridesDefault(custom: map<string, string>, i: nat)
    requires i < |DefaultBindings|
    ensures var b := DefaultBindings[i];
      NamedKeybindings(custom)[i].1 == ActionedKeybindings(custom)[i].1 ==
        (if b.name in custom then custom[b.name] else b.keys)
  {
  }

  /** Without custom bindings both lists are the defaults, in default order. */
  lemma NoCustomGivesDefaults()
    ensures forall i :: 0 <= i < 13 ==>
      NamedKeybindings(map[])[i] == (DefaultBindings[i].name, DefaultBindings[i].keys) &&
      ActionedKeybindings(map[])[i] == (DefaultBindings[i].action, DefaultBindings[i].keys)
  {
  }

  /** Custom bindings for names that are not display names change nothing. */
  lemma UnknownNamesIgnored(custom: map<string, string>)
    requires forall b :: b in DefaultBindings ==> b.name !in custom
    ensures NamedKeybindings(custom) == NamedKeybindings(map[])
    ensures ActionedKeybindings(custom) == ActionedKeybindings(map[])
  {
    assert forall i :: 0 <= i < 13 ==> DefaultBindings[i] in DefaultBindings;
  }
}
