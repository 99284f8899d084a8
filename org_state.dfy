/** The state-level handlers of `src/reducers/org.js` around the files: search
    bookmarks, the drag-and-drop reorders of tags and properties, the rule that
    marks files dirty, and the per-file inclusion rule of agenda and search. */
module OrgState {
  import opened Wrappers
  import opened OrgTypes
  import opened OrgFiles
  import SeqOps
  import SettingsLists
  import TodoState

  /** `bookmarks.filter((x) => x !== b).unshift(b).take(10)`. */
  function Saved(bookmarks: seq<string>, b: string): (r: seq<string>)
  {
    SeqOps.Take([b] + SeqOps.Without(bookmarks, b), 10)
  }

  /** `bookmarks.filter((x) => x !== b).take(10)`. */
  function Deleted(bookmarks: seq<string>, b: string): (r: seq<string>)
  {
    SeqOps.Take(SeqOps.Without(bookmarks, b), 10)
  }

  /** `saveBookmark`: only the context's list changes. A context without a list
      hands `undefined` to the updater, whose `.filter` throws: `None`. */
  function SaveBookmark(bookmarks: map<string, seq<string>>, context: string, b: string)
    : (r: Option<map<string, seq<string>>>)
    ensures r.None? <==> context !in bookmarks
    ensures r.Some? ==> r.value.Keys == bookmarks.Keys && r.value[context] == Saved(bookmarks[context], b)
    ensures r.Some? ==> forall c :: c in bookmarks && c != context ==> r.value[c] == bookmarks[c]
  {
    if context !in bookmarks then None
    else Some(bookmarks[context := Saved(bookmarks[context], b)])
  }

  /** `deleteBookmark`, with the same failure for a context without a list. */
  function DeleteBookmark(bookmarks: map<string, seq<string>>, context: string, b: string)
    : (r: Option<map<string, seq<string>>>)
    ensures r.None? <==> context !in bookmarks
    ensures r.Some? ==> r.value.Keys == bookmarks.Keys && r.value[context] == Deleted(bookmarks[context], b)
    ensures r.Some? ==> forall c :: c in bookmarks && c != context ==> r.value[c] == bookmarks[c]
  {
    if context !in bookmarks then None
    else Some(bookmarks[context := Deleted(bookmarks[context], b)])
  }

  lemma {:induction false} WithoutAbsent<T>(s: seq<T>, v: T)
    requires v !in s
    ensures SeqOps.Without(s, v) == s
    decreases |s|
  {
    if |s| > 0 {
      WithoutAbsent(s[1..], v);
      assert s == [s[0]] + s[1..];
    }
  }

  /** A saved bookmark comes first and only once, the others keep their order
      without it, and at most ten are kept. */
  lemma SavedShape(bookmarks: seq<string>, b: string)
    ensures var r := Saved(bookmarks, b);
      |r| <= 10 && |r| > 0 && r[0] == b && b !in r[1..] &&
      r[1..] == SeqOps.Take(SeqOps.Without(bookmarks, b), |r| - 1) &&
      (|SeqOps.Without(bookmarks, b)| < 10 ==> r[1..] == SeqOps.Without(bookmarks, b))
  {
    var w := SeqOps.Without(bookmarks, b);
    var r := Saved(bookmarks, b);
    assert r == ([b] + w)[..|r|];
    assert r[1..] == w[..|r| - 1];
  }

  /** Saving the same bookmark twice is the same as saving it once. */
  lemma SaveIdempotent(bookmarks: seq<string>, b: string)
    ensures Saved(Saved(bookmarks, b), b) == Saved(bookmarks, b)
  {
    var r := Saved(bookmarks, b);
    SavedShape(bookmarks, b);
    assert r == [r[0]] + r[1..];
    WithoutAbsent(r[1..], b);
    assert SeqOps.Without(r, b) == r[1..];
  }

  /** A deleted bookmark is gone, every other one stays (a list that saves
      built never exceeds ten), and deleting undoes saving a new bookmark. */
  lemma DeletedShape(bookmarks: seq<string>, b: string)
    ensures b !in Deleted(bookmarks, b)
    ensures |bookmarks| <= 10 ==> Deleted(bookmarks, b) == SeqOps.Without(bookmarks, b)
    ensures b !in bookmarks && |bookmarks| < 10 ==> Deleted(Saved(bookmarks, b), b) == bookmarks
  {
    var r := Saved(bookmarks, b);
    if b !in bookmarks && |bookmarks| < 10 {
      WithoutAbsent(bookmarks, b);
      SavedShape(bookmarks, b);
      assert r == [b] + bookmarks;
      assert SeqOps.Without(r, b) == bookmarks;
    }
  }

  /** `reorderTags`: without a selected header nothing changes; otherwise the
      selected header's tags are reordered by a splice move. `findIndex` answers
      -1 for a selection that is gone, which addresses the last header. */
  function ReorderTags(file: OrgFile, from: nat, to: nat): (r: OrgFile)
    requires Truthy(file.selectedHeaderId) ==>
      |file.headers| > 0 && from < |file.headers[TodoState.TargetIndex(file.headers, file.selectedHeaderId.value)].titleLine.tags|
  {
    if !Truthy(file.selectedHeaderId) then file
    else
      var t := TodoState.TargetIndex(file.headers, file.selectedHeaderId.value);
      var h := file.headers[t];
      file.(headers := file.headers[t := h.(titleLine := h.titleLine.(tags := SeqOps.Move(h.titleLine.tags, from, to)))])
  }

  /** The tag reorder is a permutation of that header's tags and touches nothing
      else; without a selection it is the identity. */
  lemma ReorderTagsPermutes(file: OrgFile, from: nat, to: nat)
    requires Truthy(file.selectedHeaderId) ==>
      |file.headers| > 0 && from < |file.headers[TodoState.TargetIndex(file.headers, file.selectedHeaderId.value)].titleLine.tags|
    ensures !Truthy(file.selectedHeaderId) ==> ReorderTags(file, from, to) == file
    ensures Truthy(file.selectedHeaderId) ==>
      var t := TodoState.TargetIndex(file.headers, file.selectedHeaderId.value);
      var r := ReorderTags(file, from, to);
      |r.headers| == |file.headers| &&
      multiset(r.headers[t].titleLine.tags) == multiset(file.headers[t].titleLine.tags) &&
      r.headers[t].titleLine.(tags := file.headers[t].titleLine.tags) == file.headers[t].titleLine &&
      (forall k :: 0 <= k < |file.headers| && k != t ==> r.headers[k] == file.headers[k]) &&
      r.(headers := file.headers) == file
  {
    if Truthy(file.selectedHeaderId) {
      var t := TodoState.TargetIndex(file.headers, file.selectedHeaderId.value);
      SeqOps.MoveIsPermutation(file.headers[t].titleLine.tags, from, to);
    }
  }

  /** `reorderPropertyList`: the property drawer of the header with the given id
      is reordered (a missing id addresses the last header). */
  function ReorderPropertyList(file: OrgFile, headerId: Option<Id>, from: nat, to: nat): (r: OrgFile)
    requires Truthy(headerId) ==>
      |file.headers| > 0 && from < |file.headers[TodoState.TargetIndex(file.headers, headerId.value)].propertyListItems|
  {
    if !Truthy(headerId) then file
    else
      var t := TodoState.TargetIndex(file.headers, headerId.value);
      var h := file.headers[t];
      file.(headers := file.headers[t := h.(propertyListItems := SeqOps.Move(h.propertyListItems, from, to))])
  }

  /** The property reorder is a permutation of that header's properties and
      touches nothing else; without a header id it is the identity. */
  lemma ReorderPropertyListPermutes(file: OrgFile, headerId: Option<Id>, from: nat, to: nat)
    requires Truthy(headerId) ==>
      |file.headers| > 0 && from < |file.headers[TodoState.TargetIndex(file.headers, headerId.value)].propertyListItems|
    ensures !Truthy(headerId) ==> ReorderPropertyList(file, headerId, from, to) == file
    ensures Truthy(headerId) ==>
      var t := TodoState.TargetIndex(file.headers, headerId.value);
      var r := ReorderPropertyList(file, headerId, from, to);
      |r.headers| == |file.headers| &&
      multiset(r.headers[t].propertyListItems) == multiset(file.headers[t].propertyListItems) &&
      r.headers[t].(propertyListItems := file.headers[t].propertyListItems) == file.headers[t] &&
      (forall k :: 0 <= k < |file.headers| && k != t ==> r.headers[k] == file.headers[k]) &&
      r.(headers := file.headers) == file
  {
    if Truthy(headerId) {
      var t := TodoState.TargetIndex(file.headers, headerId.value);
      SeqOps.MoveIsPermutation(file.headers[t].propertyListItems, from, to);
    }
  }

  /** The part of a dispatched action that `determineAffectedFiles` reads. */
  datatype ActionKind =
    | RefileSubtreeAction(sourcePath: string, targetPath: string)
      /** `templateFile` is "" when the template names no file. */
    | InsertCaptureAction(templateFile: string)
    | OtherAction

  datatype Action = Action(dirtying: bool, kind: ActionKind)

  /** `determineAffectedFiles`. */
  function AffectedFiles(statePath: string, action: Action): (r: seq<string>)
  {
    if !action.dirtying then []
    else
      match action.kind
      case RefileSubtreeAction(source, target) => [source, target]
      case InsertCaptureAction(file) => if file != "" then [file] else [statePath]
      case OtherAction => [statePath]
  }

  /** A dirtying action affects one file, the viewed one, except that a refile
      affects both of its files and a capture the template's file; an action
      that does not dirty affects none. */
  lemma AffectedFilesRule(statePath: string, action: Action)
    ensures |AffectedFiles(statePath, action)| == 0 <==> !action.dirtying
    ensures action.dirtying && !action.kind.RefileSubtreeAction? ==> |AffectedFiles(statePath, action)| == 1
    ensures action.dirtying && (action.kind.OtherAction? || action.kind == InsertCaptureAction("")) ==>
      AffectedFiles(statePath, action) == [statePath]
    ensures forall p :: p in AffectedFiles(statePath, action) ==>
      p == statePath || (action.kind.RefileSubtreeAction? && (p == action.kind.sourcePath || p == action.kind.targetPath)) ||
      (action.kind.InsertCaptureAction? && p == action.kind.templateFile)
  {
  }

  /** The reducer's first step: `setIn(['files', path, 'isDirty'], true)` for
      every affected path, one after the other. The flags are held apart from
      the files. */
  method MarkDirty(isDirty: map<string, bool>, paths: seq<string>) returns (r: map<string, bool>)
    ensures r.Keys == isDirty.Keys + set p | p in paths
    ensures forall p :: p in paths ==> r[p]
    ensures forall p :: p in isDirty && p !in paths ==> r[p] == isDirty[p]
  {
    r := isDirty;
    var i := 0;
    while i < |paths|
      invariant i <= |paths|
      invariant r.Keys == isDirty.Keys + set p | p in paths[..i]
      invariant forall p :: p in paths[..i] ==> r[p]
      invariant forall p :: p in isDirty && p !in paths[..i] ==> r[p] == isDirty[p]
    {
      assert paths[..i + 1] == paths[..i] + [paths[i]];
      r := r[paths[i] := true];
      i := i + 1;
    }
    assert paths[..i] == paths;
  }

  /** Only dirtying actions mark files, and they always mark the viewed file
      unless the action is a refile or a capture into a named file. */
  method DirtyAfterAction(isDirty: map<string, bool>, statePath: string, action: Action) returns (r: map<string, bool>)
    ensures !action.dirtying ==> r == isDirty
    ensures r.Keys == isDirty.Keys + set p | p in AffectedFiles(statePath, action)
    ensures action.dirtying && action.kind.OtherAction? ==> statePath in r && r[statePath]
    ensures action.dirtying && action.kind.RefileSubtreeAction? ==>
      action.kind.sourcePath in r && r[action.kind.sourcePath] && action.kind.targetPath in r && r[action.kind.targetPath]
    ensures forall p :: p in isDirty && p !in AffectedFiles(statePath, action) ==> r[p] == isDirty[p]
  {
    r := MarkDirty(isDirty, AffectedFiles(statePath, action));
  }

  /** JavaScript truthiness of a stored setting value. */
  predicate Truthful(v: SettingsLists.Value)
  {
    match v
    case Str(s) => s != ""
    case Flag(b) => b
    case Strs(_) => true
    case Configs(_) => true
  }

  /** `fileSettings.find((s) => filePath === s.get('path'))`. */
  function SettingForPath(settings: seq<SettingsLists.Setting>, filePath: string): (r: Option<SettingsLists.Setting>)
    ensures r.Some? ==> r.value in settings && "path" in r.value.fields && r.value.fields["path"] == SettingsLists.Str(filePath)
    ensures r.None? ==> forall s :: s in settings ==> !("path" in s.fields && s.fields["path"] == SettingsLists.Str(filePath))
    decreases |settings|
  {
    if |settings| == 0 then None
    else if "path" in settings[0].fields && settings[0].fields["path"] == SettingsLists.Str(filePath) then Some(settings[0])
    else SettingForPath(settings[1..], filePath)
  }

  /** Whether `determineIncludedFiles` keeps a file's headers: the viewed file
      always; otherwise its setting decides, static files are never included,
      and files without a setting follow `includeByDefault`. */
  predicate Included(settings: seq<SettingsLists.Setting>, viewedPath: string, settingValue: string,
                     includeByDefault: bool, staticPrefix: string, filePath: string)
  {
    var setting := SettingForPath(settings, filePath);
    if viewedPath == filePath then true
    else if setting.Some? then settingValue in setting.value.fields && Truthful(setting.value.fields[settingValue])
    else if |staticPrefix| <= |filePath| && filePath[..|staticPrefix|] == staticPrefix then false
    else includeByDefault
  }

  /** `determineIncludedFiles`: every file keeps its path; its headers are kept
      or emptied. The static-file prefix is a parameter. */
  function IncludedFiles(files: map<string, seq<Header>>, settings: seq<SettingsLists.Setting>, viewedPath: string,
                         settingValue: string, includeByDefault: bool, staticPrefix: string): (r: map<string, seq<Header>>)
    ensures r.Keys == files.Keys
    ensures forall p :: p in files ==>
      r[p] == (if Included(settings, viewedPath, settingValue, includeByDefault, staticPrefix, p) then files[p] else [])
  {
    map p | p in files :: if Included(settings, viewedPath, settingValue, includeByDefault, staticPrefix, p) then files[p] else []
  }

  /** The viewed file is always searched in full, a static file without a
      setting never, and a setting that is switched off excludes its file. */
  lemma IncludedFilesRule(files: map<string, seq<Header>>, settings: seq<SettingsLists.Setting>, viewedPath: string,
                          settingValue: string, includeByDefault: bool, staticPrefix: string, p: string)
    requires p in files
    ensures var r := IncludedFiles(files, settings, viewedPath, settingValue, includeByDefault, staticPrefix);
      (p == viewedPath ==> r[p] == files[p]) &&
      (p != viewedPath && SettingForPath(settings, p).None? && |staticPrefix| <= |p| && p[..|staticPrefix|] == staticPrefix ==> r[p] == []) &&
      (p != viewedPath && SettingForPath(settings, p).None? && !(|staticPrefix| <= |p| && p[..|staticPrefix|] == staticPrefix) ==>
        r[p] == if includeByDefault then files[p] else []) &&
      (forall s :: (s in settings && p != viewedPath && SettingForPath(settings, p) == Some(s) &&
        settingValue in s.fields && s.fields[settingValue] == SettingsLists.Flag(false)) ==> r[p] == [])
  {
  }
}
