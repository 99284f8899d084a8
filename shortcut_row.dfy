/** The shortcut editor row: a key combination rendered with key symbols. */
module ShortcutRow {
  import opened Wrappers
  import opened Strings

  /** The replacement list, in order: (name, symbol) at index `i`. */
  function Replacement(i: nat): (r: (string, string))
    requires i < ReplacementCount
    ensures |r.0| > 0
  {
    if i == 0 then ("ctrl", "^") else if i == 1 then ("alt", "⌥")
    else if i == 2 then ("option", "⌥") else if i == 3 then ("command", "⌘")
    else if i == 4 then ("meta", "⌘") else if i == 5 then ("shift", "⇧")
    else if i == 6 then ("backspace", "⌫") else if i == 7 then ("return", "⏎")
    else if i == 8 then ("enter", "⏎") else if i == 9 then ("left", "←")
    else if i == 10 then ("right", "→") else if i == 11 then ("up", "↑")
    else ("down", "↓")
  }

  const ReplacementCount := 13

  /** What follows a replaced name: one leading `+` is consumed with it. */
  function SkipPlus(rest: string): string
  {
    if |rest| > 0 && rest[0] == '+' then rest[1..] else rest
  }

  /** `binding.replace(RegExp(name + '\\+?'), symbol)`: the first occurrence of
      `name`, together with one `+` right after it if there is one, becomes `symbol`. */
  function ReplaceName(binding: string, name: string, symbol: string): string
    requires |name| > 0
  {
    var k := IndexOf(binding, name);
    if k == -1 then binding else binding[..k] + symbol + SkipPlus(binding[k + |name|..])
  }

  /** A binding that does not contain the name is returned unchanged. */
  lemma ReplaceNameAbsent(binding: string, name: string, symbol: string)
    requires |name| > 0 && !Contains(binding, name)
    ensures ReplaceName(binding, name, symbol) == binding
  {
    IndexOfFirst(binding, name);
  }

  /** A binding that contains the name has its first occurrence replaced: the
      name occurs at `k` and at no earlier position, what comes before `k` is kept,
      the symbol takes the place of the name and of one following `+`, and the
      rest is kept. */
  lemma ReplaceNameFirst(binding: string, name: string, symbol: string)
    requires |name| > 0 && Contains(binding, name)
    ensures exists k :: (0 <= k <= |binding| - |name| && StartsWith(binding[k..], name) &&
      (forall j :: 0 <= j < k ==> !StartsWith(binding[j..], name)) &&
      ReplaceName(binding, name, symbol) == binding[..k] + symbol + SkipPlus(binding[k + |name|..]))
  {
    IndexOfFirst(binding, name);
    IndexOfFound(binding, name);
    var k := IndexOf(binding, name);
    assert ReplaceName(binding, name, symbol) == binding[..k] + symbol + SkipPlus(binding[k + |name|..]);
    assert forall j :: 0 <= j < k ==> !StartsWith(binding[j..], name);
  }

  /** A name that opens the binding is replaced there. */
  lemma ReplaceAtStart(binding: string, name: string, symbol: string)
    requires |name| > 0 && StartsWith(binding, name)
    ensures ReplaceName(binding, name, symbol) == symbol + SkipPlus(binding[|name|..])
  {
    assert IndexOf(binding, name) == 0;
    var tail := SkipPlus(binding[|name|..]);
    assert ReplaceName(binding, name, symbol) == binding[..0] + symbol + tail;
    assert binding[..0] + symbol == symbol;
  }

  /** The replacements from index `i` on, applied in list order. */
  function ReplaceFrom(binding: string, i: nat): (r: string)
    requires i <= ReplacementCount
    decreases ReplacementCount - i
  {
    if i == ReplacementCount then binding
    else ReplaceFrom(ReplaceName(binding, Replacement(i).0, Replacement(i).1), i + 1)
  }

  /** `symbolizeKeybinding`; None stands for a null binding. */
  function SymbolizeKeybinding(binding: Option<string>): (r: string)
    ensures binding.None? || binding.value == "" ==> r == ""
  {
    if binding.None? || binding.value == "" then "" else ReplaceFrom(binding.value, 0)
  }

  /** A binding that contains none of the listed names is returned unchanged. */
  lemma {:induction false} NoNamesUnchanged(binding: string, i: nat)
    requires i <= ReplacementCount
    requires forall j :: i <= j < ReplacementCount ==> !Contains(binding, Replacement(j).0)
    ensures ReplaceFrom(binding, i) == binding
    decreases ReplacementCount - i
  {
    if i < ReplacementCount {
      ReplaceNameAbsent(binding, Replacement(i).0, Replacement(i).1);
      NoNamesUnchanged(binding, i + 1);
    }
  }

  /** A string too short for `p`, or without `p`'s first character, does not contain `p`. */
  lemma NotContained(s: string, p: string)
    requires |p| > 0 && (|p| > |s| || p[0] !in s)
    ensures !Contains(s, p)
  {
    forall i | 0 <= i <= |s| ensures !StartsWith(s[i..], p) {
      if |p| <= |s| - i { assert s[i..][..|p|][0] == s[i]; }
    }
  }

  /** None of the names from index `i` up to `j` fits into `s`, judged by length
      and first character. */
  predicate ShortOrForeign(s: string, i: nat, j: nat)
    requires i <= j <= ReplacementCount
    decreases j - i
  {
    i == j ||
    ((|Replacement(i).0| > |s| || Replacement(i).0[0] !in s) && ShortOrForeign(s, i + 1, j))
  }

  /** The names from index `i` up to `j` that cannot fit are skipped. */
  lemma {:induction false} SkipForeign(s: string, i: nat, j: nat)
    requires i <= j <= ReplacementCount
    requires ShortOrForeign(s, i, j)
    ensures ReplaceFrom(s, i) == ReplaceFrom(s, j)
    decreases j - i
  {
    if i < j {
      NotContained(s, Replacement(i).0);
      ReplaceNameAbsent(s, Replacement(i).0, Replacement(i).1);
      SkipForeign(s, i + 1, j);
    }
  }

  /** The names before index `i` cannot fit into `b`, name `i` opens `b` followed
      by `+`, and no later name fits into what is left: that is the rendering. */
  lemma OneNameLeading(b: string, i: nat, n: nat, result: string)
    requires i < ReplacementCount && n == |Replacement(i).0| > 0 && n < |b|
    requires ShortOrForeign(b, 0, i)
    requires b[..n] == Replacement(i).0 && b[n] == '+'
    requires result == Replacement(i).1 + b[n + 1..] && ShortOrForeign(result, i + 1, ReplacementCount)
    ensures SymbolizeKeybinding(Some(b)) == result
  {
    var (name, symbol) := Replacement(i);
    SkipForeign(b, 0, i);
    assert StartsWith(b, name);
    ReplaceAtStart(b, name, symbol);
    assert SkipPlus(b[n..]) == b[n + 1..];
    assert ReplaceName(b, name, symbol) == result;
    assert ReplaceFrom(b, i) == ReplaceFrom(result, i + 1);
    SkipForeign(result, i + 1, ReplacementCount);
  }

  /** `ctrl+a` becomes `^a`: `ctrl+` is replaced and no later name occurs. */
  lemma CtrlA()
    ensures SymbolizeKeybinding(Some("ctrl+a")) == "^a"
  {
    var b := "ctrl+a";
    assert b[..4] == "ctrl" && b[4] == '+';
    assert "^" + b[5..] == "^a";
    assert ShortOrForeign("^a", 1, ReplacementCount);
    OneNameLeading(b, 0, 4, "^a");
  }

  /** `shift+f` becomes `⇧f`: the names before `shift` do not occur, `shift+` is
      replaced, and no later name occurs. */
  lemma ShiftF()
    ensures SymbolizeKeybinding(Some("shift+f")) == "⇧f"
  {
    var b := "shift+f";
    assert ShortOrForeign(b, 0, 5);
    assert b[..5] == "shift" && b[5] == '+';
    assert "⇧" + b[6..] == "⇧f";
    assert ShortOrForeign("⇧f", 6, ReplacementCount);
    OneNameLeading(b, 5, 5, "⇧f");
  }
}
