/** Capture-template variable substitution (`substituteTemplateVariables`).
    The current date is a parameter: the three strings the date library would
    format from the clock. */
module CaptureSubstitution {
  import opened Wrappers
  import opened Strings

  /** The current date formatted as `yyyy-MM-dd eee`, as `yyyy-MM-dd eee HH:mm`
      and as `yyyy`. */
  datatype Clock = Clock(date: string, dateTime: string, year: string)

  /** The substitution table: `%`-keys with their values, in the insertion order
      of the JavaScript object that holds them. */
  type Table = seq<(string, string)>

  /** The built-in variables, in the order they are declared. */
  function Builtins(c: Clock): (r: Table)
    ensures |r| == 7
  {
    [("%t", "<" + c.date + ">"), ("%T", "<" + c.dateTime + ">"),
     ("%u", "[" + c.date + "]"), ("%U", "[" + c.dateTime + "]"),
     ("%r", c.date), ("%R", c.dateTime), ("%y", c.year)]
  }

  /** Every key is a `%` followed by the variable name. */
  predicate Keyed(table: Table)
  {
    forall i :: 0 <= i < |table| ==> |table[i].0| > 0 && table[i].0[0] == '%'
  }

  /** The position of a key in the table, -1 when it is not there. */
  function KeyIndex(table: Table, key: string): (r: int)
    ensures -1 <= r < |table|
    ensures r >= 0 ==> table[r].0 == key
    ensures r == -1 ==> forall i :: 0 <= i < |table| ==> table[i].0 != key
    decreases |table|
  {
    if |table| == 0 then -1
    else if table[|table| - 1].0 == key && KeyIndex(table[..|table| - 1], key) == -1 then |table| - 1
    else KeyIndex(table[..|table| - 1], key)
  }

  function Lookup(table: Table, key: string): Option<string>
  {
    var k := KeyIndex(table, key);
    if k == -1 then None else Some(table[k].1)
  }

  /** `substitutions[key] = value`: an existing key keeps its place and takes the
      new value; a new key goes at the end. */
  function Assign(table: Table, key: string, value: string): (r: Table)
    ensures |r| == |table| || |r| == |table| + 1
  {
    var k := KeyIndex(table, key);
    if k == -1 then table + [(key, value)] else table[k := (key, value)]
  }

  /** The table after assigning the first `n` custom variables. */
  function AssignCustom(table: Table, custom: seq<(string, string)>, n: nat): (r: Table)
    requires n <= |custom|
    decreases n
  {
    if n == 0 then table
    else Assign(AssignCustom(table, custom, n - 1), "%" + custom[n - 1].0, custom[n - 1].1)
  }

  /** The template after the first `n` entries of the table have been replaced,
      each with `replace(RegExp(key, 'g'), value)`. */
  function ReplaceEntries(s: string, table: Table, n: nat): string
    requires Keyed(table) && n <= |table|
    decreases n
  {
    if n == 0 then s
    else ReplaceAll(ReplaceEntries(s, table, n - 1), table[n - 1].0, table[n - 1].1)
  }

  /** The whole substitution: the text and the cursor position, if any. */
  function Substituted(template: string, custom: seq<(string, string)>, c: Clock): (string, Option<nat>)
  {
    if template == "" then ("", None)
    else
      var table := AssignCustom(Builtins(c), custom, |custom|);
      CustomKeyed(Builtins(c), custom, |custom|);
      var s := ReplaceEntries(template, table, |table|);
      var k := IndexOf(s, "%?");
      if k == -1 then (s, None) else (ReplaceFirst(s, "%?", ""), Some(k))
  }

  lemma {:induction false} CustomKeyed(table: Table, custom: seq<(string, string)>, n: nat)
    requires Keyed(table) && n <= |custom|
    ensures Keyed(AssignCustom(table, custom, n))
    decreases n
  {
    if n > 0 {
      CustomKeyed(table, custom, n - 1);
    }
  }

  /** `substituteTemplateVariables`: the custom variables are written into the
      table one by one, then the template is rewritten entry by entry, then the
      first `%?` is taken out and its position reported. */
  method SubstituteTemplateVariables(template: string, custom: seq<(string, string)>, c: Clock)
    returns (result: string, cursor: Option<nat>)
    ensures (result, cursor) == Substituted(template, custom, c)
  {
    if template == "" {
      return "", None;
    }
    var substitutions := Builtins(c);
    var i := 0;
    while i < |custom|
      invariant 0 <= i <= |custom|
      invariant substitutions == AssignCustom(Builtins(c), custom, i)
    {
      substitutions := Assign(substitutions, "%" + custom[i].0, custom[i].1);
      i := i + 1;
    }
    CustomKeyed(Builtins(c), custom, |custom|);
    var substituted := template;
    var j := 0;
    while j < |substitutions|
      invariant 0 <= j <= |substitutions|
      invariant substituted == ReplaceEntries(template, substitutions, j)
    {
      substituted := ReplaceAll(substituted, substitutions[j].0, substitutions[j].1);
      j := j + 1;
    }
    var k := IndexOf(substituted, "%?");
    cursor := if k == -1 then None else Some(k);
    result := ReplaceFirst(substituted, "%?", "");
  }

  /** Assigning a key makes it map to the value and leaves every other key alone. */
  lemma AssignLookup(table: Table, key: string, value: string, other: string)
    ensures Lookup(Assign(table, key, value), key) == Some(value)
    ensures other != key ==> Lookup(Assign(table, key, value), other) == Lookup(table, other)
  {
    var k := KeyIndex(table, key);
    var r := Assign(table, key, value);
    if k == -1 {
      KeyIndexSnoc(table, (key, value), key);
      KeyIndexSnoc(table, (key, value), other);
    } else {
      KeyIndexUpdate(table, k, value, key);
      KeyIndexUpdate(table, k, value, other);
    }
  }

  lemma KeyIndexSnoc(table: Table, e: (string, string), key: string)
    ensures KeyIndex(table + [e], key) == if KeyIndex(table, key) >= 0 then KeyIndex(table, key)
      else if e.0 == key then |table| else -1
  {
    assert (table + [e])[..|table|] == table;
  }

  /** Replacing the value of the entry at `k` leaves every key's position as it was. */
  lemma {:induction false} KeyIndexUpdate(table: Table, k: nat, value: string, key: string)
    requires k < |table|
    ensures KeyIndex(table[k := (table[k].0, value)], key) == KeyIndex(table, key)
    decreases |table|
  {
    var t := table[k := (table[k].0, value)];
    if k < |table| - 1 {
      assert t[..|t| - 1] == table[..|table| - 1][k := (table[k].0, value)];
      KeyIndexUpdate(table[..|table| - 1], k, value, key);
    } else {
      assert t[..|t| - 1] == table[..|table| - 1];
    }
  }


  /** With distinct custom names, each custom variable ends up with its own value,
      overriding a built-in of the same name. */
  lemma {:induction false} CustomOverrides(table: Table, custom: seq<(string, string)>, n: nat, i: nat)
    requires n <= |custom| && i < n
    requires forall a, b :: 0 <= a < b < |custom| ==> custom[a].0 != custom[b].0
    ensures Lookup(AssignCustom(table, custom, n), "%" + custom[i].0) == Some(custom[i].1)
    decreases n
  {
    var prev := AssignCustom(table, custom, n - 1);
    AssignLookup(prev, "%" + custom[n - 1].0, custom[n - 1].1, "%" + custom[i].0);
    if i < n - 1 {
      var a, b := "%" + custom[i].0, "%" + custom[n - 1].0;
      assert a[1..] == custom[i].0 && b[1..] == custom[n - 1].0;
      assert a != b;
      CustomOverrides(table, custom, n - 1, i);
    }
  }

  /** A built-in that no custom variable names keeps its value, and the built-ins
      keep the first seven places of the table. */
  lemma {:induction false} BuiltinsKept(c: Clock, custom: seq<(string, string)>, n: nat, key: string)
    requires n <= |custom|
    requires forall a :: 0 <= a < |custom| ==> "%" + custom[a].0 != key
    ensures Lookup(AssignCustom(Builtins(c), custom, n), key) == Lookup(Builtins(c), key)
    ensures |AssignCustom(Builtins(c), custom, n)| >= 7
    ensures forall i :: 0 <= i < 7 ==> AssignCustom(Builtins(c), custom, n)[i].0 == Builtins(c)[i].0
    decreases n
  {
    if n > 0 {
      BuiltinsKept(c, custom, n - 1, key);
      var prev := AssignCustom(Builtins(c), custom, n - 1);
      AssignLookup(prev, "%" + custom[n - 1].0, custom[n - 1].1, key);
    }
  }

  /** Text in which the key does not occur is left as it is. */
  lemma {:induction false} ReplaceAllUnmatched(s: string, p: string, v: string)
    requires |p| > 0 && !Contains(s, p)
    ensures ReplaceAll(s, p, v) == s
    decreases |s|
  {
    if |s| > 0 {
      assert s[0..] == s;
      assert !Contains(s[1..], p) by {
        forall i | 0 <= i <= |s| - 1 ensures !StartsWith(s[1..][i..], p) {
          assert s[1..][i..] == s[i + 1..];
        }
      }
      ReplaceAllUnmatched(s[1..], p, v);
      assert s == [s[0]] + s[1..];
    }
  }

  /** Text that does not even hold the key's first character cannot hold the key. */
  lemma FirstCharAbsent(s: string, p: string)
    requires |p| > 0 && p[0] !in s
    ensures !Contains(s, p)
  {
    forall i | 0 <= i <= |s| ensures !StartsWith(s[i..], p) {
      if i < |s| {
        assert s[i] in s;
      }
    }
  }

  /** After text that cannot start the key, an occurrence of the key is replaced
      and the scan goes on after it. */
  lemma {:induction false} ReplaceAllSplice(a: string, p: string, b: string, v: string)
    requires |p| > 0 && p[0] !in a
    ensures ReplaceAll(a + p + b, p, v) == a + v + ReplaceAll(b, p, v)
    decreases |a|
  {
    var s := a + p + b;
    if |a| == 0 {
      assert s == p + b;
      assert StartsWith(s, p) by { assert s[..|p|] == p; }
      assert s[|p|..] == b;
    } else {
      assert s[0] == a[0] != p[0];
      assert !StartsWith(s, p);
      assert forall x :: x in a[1..] ==> x in a;
      assert s[1..] == a[1..] + p + b;
      ReplaceAllSplice(a[1..], p, b, v);
      assert [a[0]] + (a[1..] + v + ReplaceAll(b, p, v)) == a + v + ReplaceAll(b, p, v);
    }
  }

  /** Every occurrence is replaced, not just the first: pieces that cannot start
      the key, joined by the key, come out joined by the value. */
  lemma {:induction false} ReplaceAllJoin(parts: seq<string>, p: string, v: string)
    requires |p| > 0
    requires forall i :: 0 <= i < |parts| ==> p[0] !in parts[i]
    ensures ReplaceAll(Join(parts, p), p, v) == Join(parts, v)
    decreases |parts|
  {
    if |parts| == 1 {
      FirstCharAbsent(parts[0], p);
      ReplaceAllUnmatched(parts[0], p, v);
    } else if |parts| > 1 {
      ReplaceAllJoin(parts[1..], p, v);
      ReplaceAllSplice(parts[0], p, Join(parts[1..], p), v);
    }
  }

  /** Replacements can create new occurrences of later keys, so the order of the
      table matters: `%%t` with `%t` as `T` and then `%T` as `Z` gives `Z`, the
      other order gives `%T`. */
  lemma OrderMatters()
    ensures ReplaceAll(ReplaceAll("%%t", "%t", "T"), "%T", "Z") == "Z"
    ensures ReplaceAll(ReplaceAll("%%t", "%T", "Z"), "%t", "T") == "%T"
  {
    var s := "%%t";
    assert s[..2][1] == '%';
    assert s[1..] == "" + "%t" + "";
    ReplaceAllSplice("", "%t", "", "T");
    assert ReplaceAll(s, "%t", "T") == "%T";
    assert "%T" == "" + "%T" + "";
    ReplaceAllSplice("", "%T", "", "Z");
    assert !Contains(s, "%T") by {
      forall i | 0 <= i <= |s| ensures !StartsWith(s[i..], "%T") {
        if i == 0 { assert s[i..][..2][1] == '%'; }
        if i == 1 { assert s[i..][..2][1] == 't'; }
      }
    }
    ReplaceAllUnmatched(s, "%T", "Z");
    assert s == "%" + "%t" + "";
    assert ReplaceAll(s, "%t", "T") == "%T";
  }

  /** An empty template gives the empty text and no cursor. */
  lemma EmptyTemplate(custom: seq<(string, string)>, c: Clock)
    ensures Substituted("", custom, c) == ("", None)
  {
  }

  /** The cursor is the first `%?` of the substituted text, and exactly that
      occurrence is removed: the text loses two characters and nothing else.
      Without `%?` there is no cursor and the text is not touched further. */
  lemma CursorMarker(template: string, custom: seq<(string, string)>, c: Clock)
    requires template != ""
    ensures var table := AssignCustom(Builtins(c), custom, |custom|);
      Keyed(table) &&
      var s := ReplaceEntries(template, table, |table|);
      var (r, cursor) := Substituted(template, custom, c);
      (cursor.None? <==> !Contains(s, "%?")) &&
      (cursor.None? ==> r == s) &&
      (cursor.Some? ==>
        var k := cursor.value;
        k + 2 <= |s| && s[k..k + 2] == "%?" &&
        (forall j :: 0 <= j < k ==> !StartsWith(s[j..], "%?")) &&
        r == s[..k] + s[k + 2..] && |r| == |s| - 2)
  {
    var table := AssignCustom(Builtins(c), custom, |custom|);
    CustomKeyed(Builtins(c), custom, |custom|);
    var s := ReplaceEntries(template, table, |table|);
    IndexOfFirst(s, "%?");
    var k := IndexOf(s, "%?");
    if k >= 0 {
      IndexOfFound(s, "%?");
      assert s[k..][..2] == s[k..k + 2];
      assert ReplaceFirst(s, "%?", "") == s[..k] + "" + s[k + 2..];
      assert s[..k] + "" == s[..k];
    }
  }
}
