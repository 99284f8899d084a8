/** The settings lists behind the capture-template, saved-query and file-setting
    editors (`src/reducers/capture.js`, `src/reducers/query.js` and the
    file-setting handlers of `src/reducers/org.js`). Each list holds Immutable
    maps with an `id`; the reducers find an entry by id with `findIndex` and
    then `setIn`/`updateIn`/`delete` at that index, so a missing id (-1)
    addresses the LAST entry. */
module SettingsLists {
  import opened Wrappers
  import opened OrgTypes
  import SeqOps

  /** One `{query, type}` entry of a saved query. */
  datatype QueryConfig = QueryConfig(query: string, kind: string)

  /** The values the editors store in a setting's fields. */
  datatype Value = Str(s: string) | Flag(b: bool) | Strs(items: seq<string>) | Configs(configs: seq<QueryConfig>)

  /** A capture template, saved query or file setting: an id and named fields. */
  datatype Setting = Setting(id: Id, fields: map<string, Value>)

  datatype ConfigKey = QueryKey | TypeKey

  /** The field paths the editors pass to `setIn`: `[name]`, `[name, index]` into
      a list of strings, and `['queries', index, 'query' | 'type']`. */
  datatype FieldPath = Field(name: string) | Item(name: string, index: nat) | ConfigField(index: nat, key: ConfigKey)

  /** `findIndex((s) => s.get('id') === id)`: -1 exactly when no entry has the id,
      otherwise the first entry that has it. */
  function IndexOfSettingWithId(list: seq<Setting>, id: Id): (r: int)
    ensures -1 <= r < |list|
    ensures r == -1 <==> forall k :: 0 <= k < |list| ==> list[k].id != id
    ensures r >= 0 ==> list[r].id == id && forall k :: 0 <= k < r ==> list[k].id != id
    decreases |list|
  {
    if |list| == 0 then -1
    else if list[0].id == id then 0
    else
      var r := IndexOfSettingWithId(list[1..], id);
      if r < 0 then -1 else r + 1
  }

  /** The entry an Immutable index addresses: a negative index counts from the
      end, and an index outside the list addresses nothing. */
  function Resolved(n: nat, i: int): (k: Option<nat>)
    ensures k.Some? ==> k.value < n && (k.value == i || k.value == n + i)
    ensures i < 0 && n > 0 && n + i >= 0 ==> k == Some(n + i)
    ensures 0 <= i < n ==> k == Some(i)
  {
    var k := if i < 0 then n + i else i;
    if 0 <= k < n then Some(k) else None
  }

  /** The entry the id-based handlers change. */
  function TargetOf(list: seq<Setting>, id: Id): Option<nat>
  {
    Resolved(|list|, IndexOfSettingWithId(list, id))
  }

  /** An id that is present addresses its first entry; an absent id addresses
      the last entry of a non-empty list. */
  lemma TargetOfId(list: seq<Setting>, id: Id)
    ensures (exists k :: 0 <= k < |list| && list[k].id == id) ==>
      TargetOf(list, id).Some? && list[TargetOf(list, id).value].id == id &&
      forall k :: 0 <= k < TargetOf(list, id).value ==> list[k].id != id
    ensures (forall k :: 0 <= k < |list| ==> list[k].id != id) ==>
      TargetOf(list, id) == if |list| > 0 then Some(|list| - 1) else None
  {
  }

  /** Reading a field path, where it exists. */
  function GetPath(x: Setting, path: FieldPath): Option<Value>
  {
    match path
    case Field(name) => if name in x.fields then Some(x.fields[name]) else None
    case Item(name, j) =>
      if name in x.fields && x.fields[name].Strs? && j < |x.fields[name].items|
      then Some(Str(x.fields[name].items[j])) else None
    case ConfigField(j, key) =>
      if "queries" in x.fields && x.fields["queries"].Configs? && j < |x.fields["queries"].configs|
      then
        var c := x.fields["queries"].configs[j];
        Some(Str(if key == QueryKey then c.query else c.kind))
      else None
  }

  /** `setting.setIn(path, v)` for the paths above. A list entry is only written
      inside the list and with a string. */
  function SetPath(x: Setting, path: FieldPath, v: Value): Setting
  {
    match path
    case Field(name) => x.(fields := x.fields[name := v])
    case Item(name, j) =>
      if name in x.fields && x.fields[name].Strs? && j < |x.fields[name].items| && v.Str?
      then x.(fields := x.fields[name := Strs(x.fields[name].items[j := v.s])]) else x
    case ConfigField(j, key) =>
      if "queries" in x.fields && x.fields["queries"].Configs? && j < |x.fields["queries"].configs| && v.Str?
      then
        var c := x.fields["queries"].configs[j];
        var c' := if key == QueryKey then c.(query := v.s) else c.(kind := v.s);
        x.(fields := x.fields["queries" := Configs(x.fields["queries"].configs[j := c'])])
      else x
  }

  /** Reading back what was written gives the written value. */
  lemma GetSetPath(x: Setting, path: FieldPath, v: Value)
    requires path.Field? || (GetPath(x, path).Some? && v.Str?)
    ensures GetPath(SetPath(x, path, v), path) == Some(v)
  {
  }

  /** Writing a path leaves the id and every other field as it was. */
  lemma SetPathKeepsOthers(x: Setting, path: FieldPath, v: Value, name: string)
    requires path.ConfigField? || name != path.name
    requires !path.ConfigField? || name != "queries"
    ensures SetPath(x, path, v).id == x.id
    ensures name in SetPath(x, path, v).fields <==> name in x.fields
    ensures name in x.fields ==> SetPath(x, path, v).fields[name] == x.fields[name]
  {
  }

  /** `updateFieldPathValue(id, path, v)`: `setIn([index, ...path], v)`. */
  function SetFieldPathValue(list: seq<Setting>, id: Id, path: FieldPath, v: Value): (r: seq<Setting>)
    ensures |r| == |list|
  {
    match TargetOf(list, id)
    case None => list
    case Some(k) => list[k := SetPath(list[k], path, v)]
  }

  /** The field-path update writes the path of the entry with the id and
      changes no other entry. */
  lemma SetFieldPathValueAt(list: seq<Setting>, id: Id, path: FieldPath, v: Value, k: nat)
    requires k < |list| && list[k].id == id
    requires forall j :: 0 <= j < k ==> list[j].id != id
    ensures var r := SetFieldPathValue(list, id, path, v);
      r[k] == SetPath(list[k], path, v) &&
      forall j :: 0 <= j < |list| && j != k ==> r[j] == list[j]
  {
    TargetOfId(list, id);
  }

  /** `updateIn([index, name], (l) => l.push(item))` on a list of strings. */
  function PushItem(list: seq<Setting>, id: Id, name: string, item: string): (r: seq<Setting>)
    ensures |r| == |list|
  {
    match TargetOf(list, id)
    case None => list
    case Some(k) =>
      var x := list[k];
      if name in x.fields && x.fields[name].Strs?
      then list[k := x.(fields := x.fields[name := Strs(x.fields[name].items + [item])])]
      else list
  }

  /** `updateIn([index, name], (l) => l.delete(j))` on a list of strings. */
  function DeleteItem(list: seq<Setting>, id: Id, name: string, j: int): (r: seq<Setting>)
    ensures |r| == |list|
  {
    match TargetOf(list, id)
    case None => list
    case Some(k) =>
      var x := list[k];
      if name in x.fields && x.fields[name].Strs?
      then list[k := x.(fields := x.fields[name := Strs(SeqOps.DeleteAt(x.fields[name].items, j))])]
      else list
  }

  /** Adding an availability entry or header path pushes exactly one '' at the
      end of that list of the entry with the id; removing one deletes exactly
      that index. Other entries are untouched. */
  lemma PushThenDeleteItem(list: seq<Setting>, id: Id, name: string, k: nat)
    requires k < |list| && list[k].id == id
    requires forall j :: 0 <= j < k ==> list[j].id != id
    requires name in list[k].fields && list[k].fields[name].Strs?
    ensures var items := list[k].fields[name].items;
      var r := PushItem(list, id, name, "");
      r[k].fields[name] == Strs(items + [""]) &&
      (forall j :: 0 <= j < |list| && j != k ==> r[j] == list[j]) &&
      DeleteItem(r, id, name, |items|) == list
  {
    TargetOfId(list, id);
    var items := list[k].fields[name].items;
    var r := PushItem(list, id, name, "");
    assert r[k].id == id;
    TargetOfId(r, id);
    assert TargetOf(r, id) == Some(k);
    assert SeqOps.DeleteAt(items + [""], |items|) == items;
    assert r[k].fields[name := Strs(items)] == list[k].fields;
    assert r[k].(fields := list[k].fields) == list[k];
    assert r[k := list[k]] == list;
  }

  /** `delete(findIndex(...))`: the entry with the id is removed and the others
      keep their order; with the id missing the LAST entry is removed. */
  function DeleteSetting(list: seq<Setting>, id: Id): (r: seq<Setting>)
    ensures var i := IndexOfSettingWithId(list, id);
      i >= 0 ==> r == list[..i] + list[i + 1..]
  {
    SeqOps.DeleteAt(list, IndexOfSettingWithId(list, id))
  }

  /** `findIndex` gives -1 for an id that is not in the list, and `delete(-1)`
      then removes the last entry. */
  lemma {:induction false} DeleteSettingMissingId(list: seq<Setting>, id: Id)
    requires |list| > 0 && forall k :: 0 <= k < |list| ==> list[k].id != id
    ensures DeleteSetting(list, id) == list[..|list| - 1]
  {
    assert IndexOfSettingWithId(list, id) == -1;
    SeqOps.DeleteAtLast(list);
  }

  /** With unique ids, deleting an entry removes its id from the list. */
  lemma DeleteSettingRemovesId(list: seq<Setting>, id: Id, k: nat)
    requires k < |list| && list[k].id == id
    requires forall a, b :: 0 <= a < b < |list| ==> list[a].id != list[b].id
    ensures var r := DeleteSetting(list, id);
      |r| == |list| - 1 && forall j :: 0 <= j < |r| ==> r[j].id != id
  {
    var i := IndexOfSettingWithId(list, id);
    assert i == k;
    var r := DeleteSetting(list, id);
    forall j | 0 <= j < |r| ensures r[j].id != id {
      if j < k { assert r[j] == list[j]; } else { assert r[j] == list[j + 1]; }
    }
  }

  /** `splice(from, 1).splice(to, 0, list.get(from))`: the drag-and-drop reorder
      of templates, queries and file settings keeps every entry exactly once. */
  function Reordered(list: seq<Setting>, from: nat, to: nat): (r: seq<Setting>)
    requires from < |list|
    ensures |r| == |list| && multiset(r) == multiset(list)
    ensures r[if to < |list| then to else |list| - 1] == list[from]
  {
    SeqOps.MoveIsPermutation(list, from, to);
    SeqOps.Move(list, from, to)
  }

  /** `push(fromJS({...}))` after creating the list when it is absent. */
  function Appended(list: Option<seq<Setting>>, x: Setting): (r: seq<Setting>)
    ensures |r| == (if list.Some? then |list.value| else 0) + 1
    ensures r[|r| - 1] == x
    ensures list.Some? ==> r[..|r| - 1] == list.value
  {
    (if list.Some? then list.value else []) + [x]
  }

  /** The new capture template of `addNewEmptyCaptureTemplate`. */
  function EmptyCaptureTemplate(id: Id): Setting
  {
    Setting(id, map[
      "description" := Str(""), "letter" := Str(""), "iconName" := Str(""),
      "isAvailableInAllOrgFiles" := Flag(true), "file" := Str(""),
      "orgFilesWhereAvailable" := Strs([""]), "headerPaths" := Strs([""]),
      "shouldPrepend" := Flag(false), "shouldCaptureAsNewHeader" := Flag(true),
      "template" := Str("")])
  }

  /** The new query of `addNewEmptyQuery`: one `{query: '', type: 'search'}`. */
  function EmptyQuery(id: Id): Setting
  {
    Setting(id, map[
      "description" := Str(""), "isAvailableInAllOrgFiles" := Flag(true),
      "orgFilesWhereAvailable" := Strs([""]),
      "queries" := Configs([QueryConfig("", "search")])])
  }

  /** The new file setting of `addNewEmptyFileSetting`. */
  function EmptyFileSetting(id: Id): Setting
  {
    Setting(id, map[
      "path" := Str(""), "loadOnStartup" := Flag(false), "includeInAgenda" := Flag(false),
      "includeInSearch" := Flag(false), "includeInRefile" := Flag(false),
      "includeInTasklist" := Flag(false)])
  }

  /** A new empty query carries exactly one search config with an empty query,
      and a new template is available in all files, with one empty header path. */
  lemma EmptySettingsShape(id: Id)
    ensures GetPath(EmptyQuery(id), ConfigField(0, QueryKey)) == Some(Str(""))
    ensures GetPath(EmptyQuery(id), ConfigField(0, TypeKey)) == Some(Str("search"))
    ensures GetPath(EmptyQuery(id), ConfigField(1, QueryKey)) == None
    ensures GetPath(EmptyCaptureTemplate(id), Item("headerPaths", 0)) == Some(Str(""))
    ensures GetPath(EmptyCaptureTemplate(id), Item("headerPaths", 1)) == None
    ensures GetPath(EmptyCaptureTemplate(id), Field("isAvailableInAllOrgFiles")) == Some(Flag(true))
  {
  }

  /** `addNewQueryConfig`: push `{query: '', type: 'search'}` to the entry's queries. */
  function PushQueryConfig(list: seq<Setting>, id: Id): (r: seq<Setting>)
    ensures |r| == |list|
  {
    match TargetOf(list, id)
    case None => list
    case Some(k) =>
      var x := list[k];
      if "queries" in x.fields && x.fields["queries"].Configs?
      then list[k := x.(fields := x.fields["queries" := Configs(x.fields["queries"].configs + [QueryConfig("", "search")])])]
      else list
  }

  /** `removeQueryConfig` as written: `queries.delete(queryIndex)` deletes the
      config whose position equals the QUERY's own position in the list (the
      action carries no config index). */
  function DeleteQueryConfig(list: seq<Setting>, id: Id): (r: seq<Setting>)
    ensures |r| == |list|
  {
    var i := IndexOfSettingWithId(list, id);
    match Resolved(|list|, i)
    case None => list
    case Some(k) =>
      var x := list[k];
      if "queries" in x.fields && x.fields["queries"].Configs?
      then list[k := x.(fields := x.fields["queries" := Configs(SeqOps.DeleteAt(x.fields["queries"].configs, i))])]
      else list
  }

  /** Removing a config of the query at position `k` deletes config number `k`
      of that query, whichever config the user meant: for the first query it is
      always its first config. */
  lemma DeleteQueryConfigUsesQueryIndex(list: seq<Setting>, id: Id, k: nat)
    requires k < |list| && list[k].id == id
    requires forall j :: 0 <= j < k ==> list[j].id != id
    requires "queries" in list[k].fields && list[k].fields["queries"].Configs?
    requires k < |list[k].fields["queries"].configs|
    ensures var configs := list[k].fields["queries"].configs;
      DeleteQueryConfig(list, id)[k].fields["queries"] == Configs(configs[..k] + configs[k + 1..])
  {
    TargetOfId(list, id);
  }

  /** `removeQueryConfig` as intended: the action names the config to remove
      (`configIndex`), and that config of the query goes. */
  function DeleteQueryConfigAt(list: seq<Setting>, id: Id, configIndex: nat): (r: seq<Setting>)
    ensures |r| == |list|
  {
    var i := IndexOfSettingWithId(list, id);
    match Resolved(|list|, i)
    case None => list
    case Some(k) =>
      var x := list[k];
      if "queries" in x.fields && x.fields["queries"].Configs?
      then list[k := x.(fields := x.fields["queries" := Configs(SeqOps.DeleteAt(x.fields["queries"].configs, configIndex))])]
      else list
  }

  /** The intended removal deletes the chosen config of the query with the id,
      and changes no other setting. */
  lemma DeleteQueryConfigAtRemovesChosen(list: seq<Setting>, id: Id, k: nat, c: nat)
    requires k < |list| && list[k].id == id
    requires forall j :: 0 <= j < k ==> list[j].id != id
    requires "queries" in list[k].fields && list[k].fields["queries"].Configs?
    requires c < |list[k].fields["queries"].configs|
    ensures var configs := list[k].fields["queries"].configs;
      DeleteQueryConfigAt(list, id, c)[k].fields["queries"] == Configs(configs[..c] + configs[c + 1..])
    ensures forall j :: 0 <= j < |list| && j != k ==> DeleteQueryConfigAt(list, id, c)[j] == list[j]
  {
    TargetOfId(list, id);
  }

  /** `updateQueryFieldPathValue` AS WRITTEN: it looks up `action.templateId`,
      which the query action never carries, so `findIndex` compares every id
      with `undefined`, answers -1, and the LAST query is edited. */
  function SetQueryFieldPathValueAsWritten(list: seq<Setting>, queryId: Id, path: FieldPath, v: Value): (r: seq<Setting>)
    ensures |r| == |list|
    ensures |list| > 0 ==> r == list[|list| - 1 := SetPath(list[|list| - 1], path, v)]
  {
    match Resolved(|list|, -1)
    case None => list
    case Some(k) => list[k := SetPath(list[k], path, v)]
  }

  /** The query edit as written changes the wrong query: with two queries, an
      edit of the first one's description lands on the second. */
  lemma QueryEditHitsLastQuery()
    ensures var q1 := Setting(1, map["description" := Str("a")]);
      var q2 := Setting(2, map["description" := Str("b")]);
      var r := SetQueryFieldPathValueAsWritten([q1, q2], 1, Field("description"), Str("x"));
      r[0] == q1 && r[1].fields["description"] == Str("x")
  {
  }

  /** The intended query edit, the same lookup the capture and file-setting
      reducers use: the query with the id is edited. */
  lemma QueryEditCorrected(list: seq<Setting>, queryId: Id, path: FieldPath, v: Value, k: nat)
    requires k < |list| && list[k].id == queryId
    requires forall j :: 0 <= j < k ==> list[j].id != queryId
    requires path.Field? || (GetPath(list[k], path).Some? && v.Str?)
    ensures var r := SetFieldPathValue(list, queryId, path, v);
      GetPath(r[k], path) == Some(v) && forall j :: 0 <= j < |list| && j != k ==> r[j] == list[j]
  {
    SetFieldPathValueAt(list, queryId, path, v, k);
    GetSetPath(list[k], path, v);
  }
}
