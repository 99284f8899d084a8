/** The Android storage plugin (`OrganiceSync.java`): how a path becomes a
    document URI, how a document is read into text, and the guards of the plugin
    calls that list, delete and create documents. The document provider is a
    map from URI to node; Android itself (the picker, content resolvers, the
    `Uri` parser and builder) is not part of this model. */
module AndroidStore {
  import opened Wrappers
  import opened Strings
  import opened SeqOps

  /** A document URI: everything up to the path, and the encoded path. */
  datatype Uri = Uri(root: string, encodedPath: string)

  /** `pathToUri`: the base itself for an empty path; otherwise the base with its
      encoded path replaced by the path less one leading `/`. */
  function PathToUri(base: Uri, path: string): (r: Uri)
    ensures path == "" ==> r == base
    ensures path != "" ==> r.root == base.root
    ensures StartsWith(path, "/") ==> "/" + r.encodedPath == path
    ensures path != "" && !StartsWith(path, "/") ==> r.encodedPath == path
  {
    if path == "" then base
    else base.(encodedPath := if StartsWith(path, "/") then path[1..] else path)
  }

  /** No segment is inspected: the segments of a path (`..` included) are the
      segments of the URI's path, after the empty one in front of a leading `/`. */
  lemma PathToUriSegments(base: Uri, path: string)
    requires path != ""
    ensures StartsWith(path, "/") ==> Split(path, '/') == [""] + Split(PathToUri(base, path).encodedPath, '/')
    ensures !StartsWith(path, "/") ==> Split(path, '/') == Split(PathToUri(base, path).encodedPath, '/')
  {
    if StartsWith(path, "/") {
      var p := PathToUri(base, path).encodedPath;
      assert path == "/" + p;
      assert IndexOfChar(path, '/') == 0;
      assert path[1..] == p;
    }
  }

  /** `readTextFromUri`, as written: the lines the reader yields (with their line
      breaks already removed) appended one after the other. */
  method ReadTextFromUri(lines: seq<string>) returns (text: string)
    ensures text == Concat(lines)
  {
    text := "";
    var i := 0;
    while i < |lines|
      invariant 0 <= i <= |lines|
      invariant text == Concat(lines[..i])
    {
      ConcatSnoc(lines[..i], lines[i]);
      assert lines[..i + 1] == lines[..i] + [lines[i]];
      text := text + lines[i];
      i := i + 1;
    }
    assert lines[..i] == lines;
  }

  /** The lines one after the other, with nothing between them. */
  function Concat(lines: seq<string>): (r: string)
    ensures |lines| == 0 ==> r == ""
    decreases |lines|
  {
    if |lines| == 0 then "" else lines[0] + Concat(lines[1..])
  }

  lemma {:induction false} ConcatSnoc(lines: seq<string>, x: string)
    ensures Concat(lines + [x]) == Concat(lines) + x
    decreases |lines|
  {
    if |lines| > 0 {
      assert (lines + [x])[1..] == lines[1..] + [x];
      ConcatSnoc(lines[1..], x);
    }
  }

  /** Reading as written loses the line breaks: a file of two headlines and a
      file of one line holding both read the same, so an org file comes back as
      one line. */
  lemma ReadTextLosesLineBreaks()
    ensures Concat(["* a", "* b"]) == Concat(["* a* b"])
    ensures ["* a", "* b"] != ["* a* b"]
  {
    assert Concat(["* a", "* b"]) == "* a" + Concat(["* b"]);
    assert Concat(["* a", "* b"][1..]) == Concat(["* b"]);
  }

  /** `readTextFromUri` keeping the file's lines: a line break between lines. */
  method ReadTextKeepingLines(lines: seq<string>) returns (text: string)
    ensures text == Join(lines, "\n")
  {
    if |lines| == 0 {
      return "";
    }
    text := lines[0];
    var i := 1;
    while i < |lines|
      invariant 1 <= i <= |lines|
      invariant text == Join(lines[..i], "\n")
    {
      JoinTakeSnoc(lines, i + 1, "\n");
      text := text + "\n" + lines[i];
      i := i + 1;
    }
    assert lines[..i] == lines;
  }

  /** Read with the line breaks kept, a file splits back into the lines the
      reader yielded. */
  lemma KeepingLinesRoundTrip(lines: seq<string>)
    requires |lines| >= 1
    requires forall k :: 0 <= k < |lines| ==> '\n' !in lines[k]
    ensures Split(Join(lines, "\n"), '\n') == lines
  {
    SplitJoin(lines, '\n');
  }

  /** A document of the provider. */
  datatype Node = Node(name: string, isDirectory: bool, isFile: bool, lastModified: int, length: int,
                       mimeType: Option<string>, contents: string, children: seq<Uri>, parent: Option<Uri>)

  /** The record `asFileMetaData` builds for a document. */
  datatype FileMetaData = FileMetaData(id: Uri, path: string, lastModified: int, length: int, name: string,
                                       mimeType: Option<string>, isDirectory: bool, isFile: bool)

  function MetaDataOf(u: Uri, n: Node): FileMetaData
  {
    FileMetaData(u, u.encodedPath, n.lastModified, n.length, n.name, n.mimeType, n.isDirectory, n.isFile)
  }

  /** Why a plugin call was rejected: a `null` argument, a URI that is not a
      directory, or an exception caught by the call. */
  datatype Reason = NullArgument | NotADirectory | Exception

  /** How a plugin call settles. */
  datatype Outcome<T> = Resolved(value: T) | Rejected(reason: Reason)

  /** Every child a directory lists is a document whose parent is that directory. */
  ghost predicate Linked(nodes: map<Uri, Node>)
  {
    forall u, c :: u in nodes && c in nodes[u].children ==> c in nodes && nodes[c].parent == Some(u)
  }

  /** The nodes after a document is deleted: the document is gone, and its parent
      no longer lists it. */
  function Deleted(nodes: map<Uri, Node>, uri: Uri): (r: map<Uri, Node>)
    ensures uri !in r
    ensures r.Keys == nodes.Keys - {uri}
  {
    if uri !in nodes then nodes
    else
      var rest := nodes - {uri};
      match nodes[uri].parent
      case Some(p) =>
        if p in rest then rest[p := rest[p].(children := Without(rest[p].children, uri))] else rest
      case None => rest
  }

  /** Deleting a document with no children keeps every listing's children in the
      store; the other documents are unchanged but for the parent's list. */
  lemma DeletedKeepsLinked(nodes: map<Uri, Node>, uri: Uri)
    requires Linked(nodes) && uri in nodes && nodes[uri].children == []
    ensures Linked(Deleted(nodes, uri))
    ensures forall u :: u in nodes && u != uri && Some(u) != nodes[uri].parent ==> Deleted(nodes, uri)[u] == nodes[u]
  {
    var r := Deleted(nodes, uri);
    forall u, c | u in r && c in r[u].children
      ensures c in r && r[c].parent == Some(u)
    {
      assert c in nodes[u].children;
      if Some(u) == nodes[uri].parent {
        assert uri !in r[u].children;
      } else {
        assert nodes[c].parent == Some(u);
      }
      assert c != uri;
    }
  }

  /** The document store the plugin works on. */
  class DocumentStore {
    var nodes: map<Uri, Node>

    constructor(nodes: map<Uri, Node>)
      ensures this.nodes == nodes
    {
      this.nodes := nodes;
    }

    /** `asFileMetaData`: throws for no document (`null`) and for a document that
        does not exist; otherwise the whole record of the document. */
    function AsFileMetaData(d: Option<Uri>): (r: Result<FileMetaData, string>)
      reads this
      ensures r.Ok? <==> d.Some? && d.value in nodes
      ensures d.None? ==> r == Err("DocumentFile is null")
      ensures r.Ok? ==> r.value.id == d.value && r.value == MetaDataOf(d.value, nodes[d.value])
    {
      match d
      case None => Err("DocumentFile is null")
      case Some(u) =>
        if u !in nodes then Err("DocumentFile does not exist:")
        else Ok(MetaDataOf(u, nodes[u]))
    }

    /** The records of the children, in order, or `None` where the first child
        that does not exist throws. */
    function Records(children: seq<Uri>): (r: Option<seq<FileMetaData>>)
      reads this
      ensures r.Some? <==> forall k :: 0 <= k < |children| ==> children[k] in nodes
      ensures r.Some? ==> |r.value| == |children|
      ensures r.Some? ==> forall k :: 0 <= k < |children| ==> r.value[k] == MetaDataOf(children[k], nodes[children[k]])
      decreases |children|
    {
      if |children| == 0 then Some([])
      else
        match AsFileMetaData(Some(children[0]))
        case Err(_) => None
        case Ok(m) =>
          match Records(children[1..])
          case None => None
          case Some(rest) => Some([m] + rest)
    }

    /** `listFiles`: rejects a `null` URI or path; otherwise resolves with one
        record per child when the URI names an existing directory, and rejects
        when it does not, or when a child's record throws. `Uri.parse` is not
        part of this model: `parse` stands for it. */
    function ListFiles(uriStr: Option<string>, path: Option<string>, parse: string -> Uri)
      : (r: Outcome<seq<FileMetaData>>)
      reads this
      ensures uriStr.None? || path.None? ==> r == Rejected(NullArgument)
      ensures uriStr.Some? && path.Some? ==>
        var uri := PathToUri(parse(uriStr.value), path.value);
        (r == Rejected(NotADirectory) <==> !(uri in nodes && nodes[uri].isDirectory)) &&
        (r.Resolved? <==> uri in nodes && nodes[uri].isDirectory &&
                          forall k :: 0 <= k < |nodes[uri].children| ==> nodes[uri].children[k] in nodes) &&
        (r.Resolved? ==> |r.value| == |nodes[uri].children| &&
                         forall k :: 0 <= k < |r.value| ==>
                           r.value[k] == MetaDataOf(nodes[uri].children[k], nodes[nodes[uri].children[k]]))
    {
      if uriStr.None? || path.None? then Rejected(NullArgument)
      else
        var uri := PathToUri(parse(uriStr.value), path.value);
        if uri in nodes && nodes[uri].isDirectory then
          match Records(nodes[uri].children)
          case None => Rejected(Exception)
          case Some(files) => Resolved(files)
        else Rejected(NotADirectory)
    }

    /** `deleteFile`: rejects a `null` URI or path; otherwise resolves exactly
        when the delete succeeds, that is when the document exists, and then the
        document is gone. */
    method DeleteFile(uriStr: Option<string>, path: Option<string>, parse: string -> Uri) returns (r: Outcome<()>)
      modifies this
      ensures uriStr.None? || path.None? ==> r == Rejected(NullArgument) && nodes == old(nodes)
      ensures uriStr.Some? && path.Some? ==>
        var uri := PathToUri(parse(uriStr.value), path.value);
        (r.Resolved? <==> uri in old(nodes)) && (r.Rejected? ==> r.reason == Exception) &&
        nodes == Deleted(old(nodes), uri)
    {
      if uriStr.None? || path.None? {
        return Rejected(NullArgument);
      }
      var uri := PathToUri(parse(uriStr.value), path.value);
      var deleted := uri in nodes;
      nodes := Deleted(nodes, uri);
      if deleted {
        r := Resolved(());
      } else {
        r := Rejected(Exception);
      }
    }

    /** `createFile`. A `null` URI or path rejects the call, but the method goes
        on, and the next statement (`Uri.parse(null)` or `null.isEmpty()`) throws
        out of it: `threw`. Otherwise the document is created (`created`, the
        provider's answer to `createDocument`; `None` where it throws) with the
        content, and the call resolves with the metadata of the PARENT
        directory (`parentOf`, standing for `removeLastPathSegment`), not of the
        new file; it rejects when the parent does not exist, after the file was
        created, and when the content is `null`, after an empty file was
        created. */
    method CreateFile(uriStr: Option<string>, path: Option<string>, content: Option<string>,
                      parse: string -> Uri, parentOf: Uri -> Uri, created: Option<Uri>, name: string)
      returns (r: Outcome<FileMetaData>, threw: bool)
      modifies this
      ensures threw <==> uriStr.None? || path.None?
      ensures threw ==> r == Rejected(NullArgument) && nodes == old(nodes)
      ensures !threw && created.None? ==> r == Rejected(Exception) && nodes == old(nodes)
      ensures !threw && created.Some? ==>
        var uri := PathToUri(parse(uriStr.value), path.value);
        var parent := parentOf(uri);
        nodes == old(nodes)[created.value := NewDocument(name, content, uri)] &&
        (r.Resolved? <==> content.Some? && parent in nodes) &&
        (r.Resolved? ==> r.value == MetaDataOf(parent, nodes[parent])) &&
        (r.Rejected? ==> r.reason == Exception)
    {
      if uriStr.None? || path.None? {
        return Rejected(NullArgument), true;
      }
      threw := false;
      var uri := PathToUri(parse(uriStr.value), path.value);
      var parent := parentOf(uri);
      if created.None? {
        return Rejected(Exception), threw;
      }
      nodes := nodes[created.value := NewDocument(name, content, uri)];
      if content.None? {
        return Rejected(Exception), threw;
      }
      match AsFileMetaData(Some(parent))
      case Err(_) => r := Rejected(Exception);
      case Ok(m) => r := Resolved(m);
    }
  }

  /** The document `createDocument` makes and `writeFile` fills: a file of type
      `application/octet-stream` holding the content (nothing for `null`). */
  function NewDocument(name: string, content: Option<string>, uri: Uri): Node
  {
    Node(name, false, true, 0, |content.GetOr("")|, Some("application/octet-stream"), content.GetOr(""), [], Some(uri))
  }

  /** In a store whose listings are linked, listing an existing directory
      resolves, with one record per child; a deleted file is no longer listed by
      its parent. */
  lemma ListLinked(store: DocumentStore, uriStr: string, path: string, parse: string -> Uri)
    requires Linked(store.nodes)
    requires var uri := PathToUri(parse(uriStr), path); uri in store.nodes && store.nodes[uri].isDirectory
    ensures var uri := PathToUri(parse(uriStr), path);
      var r := store.ListFiles(Some(uriStr), Some(path), parse);
      r.Resolved? && |r.value| == |store.nodes[uri].children|
  {
    var uri := PathToUri(parse(uriStr), path);
    assert forall k :: 0 <= k < |store.nodes[uri].children| ==> store.nodes[uri].children[k] in store.nodes by {
      forall k | 0 <= k < |store.nodes[uri].children|
        ensures store.nodes[uri].children[k] in store.nodes
      {
        assert store.nodes[uri].children[k] in store.nodes[uri].children;
      }
    }
  }
}

/** `src/sync_backend_clients/android_sync_backend_client.js`: the listing
    filter and sort over the plugin's records. */
module AndroidClient {
  import opened Wrappers
  import opened Strings
  import opened SeqOps
  import opened DirectoryListing
  import opened AndroidStore

  function IsDirectory(f: FileMetaData): bool { f.isDirectory }

  function FileName(f: FileMetaData): string { f.name }

  /** `name.match(/org$|org_archive$/)`: the name ends in `org` or in
      `org_archive`; the match is not tied to a `.`. */
  predicate IsOrgName(name: string)
  {
    EndsWith(name, "org") || EndsWith(name, "org_archive")
  }

  function Kept(f: FileMetaData): bool
  {
    f.isDirectory || IsOrgName(f.name)
  }

  /** A file named `borg` or `.org_archive` is kept like `todo.org`. */
  lemma OrgNameNotAnchored()
    ensures IsOrgName("borg") && IsOrgName("todo.org") && IsOrgName(".org_archive") && !IsOrgName("org.txt")
  {
    assert "borg"[1..] == "org";
    assert "todo.org"[5..] == "org";
    assert !EndsWith("org.txt", "org");
  }

  /** The comparator handed to `sort`, as written: -1 for a directory against a
      non-directory, and otherwise by name alone. */
  function CompareAsWritten(a: FileMetaData, b: FileMetaData): int
  {
    if a.isDirectory && !b.isDirectory then -1
    else if NameLess(b.name, a.name) then 1 else -1
  }

  /** The comparator as written says "first" for both orders of a file named
      before a directory, while directories-first puts the directory first. */
  lemma ComparatorInconsistent(id: Uri)
    ensures var file := FileMetaData(id, "", 0, 0, "a.org", None, false, true);
      var dir := FileMetaData(id, "", 0, 0, "b", None, true, false);
      CompareAsWritten(file, dir) == -1 && CompareAsWritten(dir, file) == -1 &&
      ListedBefore(IsDirectory, FileName, dir, file) && !ListedBefore(IsDirectory, FileName, file, dir)
  {
    assert NameLess("a.org", "b");
    NameLessAsymmetric("a.org", "b");
  }

  /** `filterAndSortDirectoryListing` (and `transformDirectoryListing`, which is
      it followed by `fromJS`), with directories first and then names in order:
      the directories and the org files of the listing, each once. */
  function FilterAndSortDirectoryListing(listing: seq<FileMetaData>): (r: seq<FileMetaData>)
    ensures Sorted(IsDirectory, FileName, r)
    ensures multiset(r) == multiset(Filter(Kept, listing))
    ensures forall f :: f in r <==> f in listing && (f.isDirectory || IsOrgName(f.name))
  {
    FilterMembers(Kept, listing);
    SortMembers(IsDirectory, FileName, Filter(Kept, listing));
    Sort(IsDirectory, FileName, Filter(Kept, listing))
  }
}
