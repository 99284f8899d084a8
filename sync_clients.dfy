/** The project URL handling the GitLab and Gitea clients share: a URL without
    a scheme gets `https://`, the URL is parsed, and one leading and one
    trailing `/` are cut off its path name. The URL parser (`new URL`) is not
    part of this model: it is a parameter answering the host name and path
    name, or `None` where it throws. */
module ProjectUrl {
  import opened Wrappers
  import opened Strings

  /** `new URL(u)`: `(hostname, pathname)`, or `None` where the constructor throws. */
  type UrlParser = string -> Option<(string, string)>

  /** `https://` is put in front of a URL that does not contain `://`. */
  function WithScheme(projectUrl: string): (r: string)
    ensures Contains(projectUrl, "://") ==> r == projectUrl
    ensures !Contains(projectUrl, "://") ==> r == "https://" + projectUrl
  {
    if Contains(projectUrl, "://") then projectUrl else "https://" + projectUrl
  }

  /** `pathname.replace(/(^\/)|(\/$)/g, '')`: one leading `/` and then one
      trailing `/` removed (a lone `/` goes entirely). */
  function TrimSlashes(pathname: string): (r: string)
    ensures var rest := if StartsWith(pathname, "/") then pathname[1..] else pathname;
      r <= rest && |rest| <= |r| + 1 &&
      (|r| < |rest| <==> |rest| > 0 && rest[|rest| - 1] == '/')
  {
    var rest := if StartsWith(pathname, "/") then pathname[1..] else pathname;
    if |rest| > 0 && rest[|rest| - 1] == '/' then rest[..|rest| - 1] else rest
  }

  /** `path.split('/')` has more than one piece exactly when `/` occurs. */
  lemma SplitHasMore(s: string, c: char)
    ensures |Split(s, c)| > 1 <==> c in s
  {
  }
}

/** `src/sync_backend_clients/gitlab_sync_backend_client.js`: its `Link` header
    parser, its project id and its listing conversion. */
module GitLabClient {
  import opened Wrappers
  import opened Strings
  import opened SeqOps
  import opened LinkHeader
  import opened ProjectUrl
  import opened DirectoryListing

  /** Every entry matches the link pattern. */
  predicate AllMatch(matcher: Matcher, entries: seq<string>)
  {
    forall k :: 0 <= k < |entries| ==> matcher(entries[k]).Some?
  }

  /** One more matching entry: the mapping gains (or overwrites) its name. */
  lemma LinksSnoc(matcher: Matcher, entries: seq<string>, i: nat)
    requires i < |entries| && AllMatch(matcher, entries[..i]) && matcher(entries[i]).Some?
    ensures AllMatch(matcher, entries[..i + 1])
    ensures Links(matcher, entries[..i + 1]) ==
      Links(matcher, entries[..i])[matcher(entries[i]).value.1 := matcher(entries[i]).value.0]
  {
    assert entries[..i + 1][..i] == entries[..i];
  }

  /** `parseLinkHeader`: `{}` for a missing or empty header; otherwise the
      name→url mapping of the comma-separated entries, filled in entry by entry.
      An entry that does not match reads `null[1]` and throws: `None`. */
  method ParseLinkHeader(links: Option<string>) returns (r: Option<map<string, string>>)
    ensures links.None? || links == Some("") ==> r == Some(map[])
    ensures links.Some? && links.value != "" ==>
      (r.None? <==> !AllMatch(MatchLink, Split(links.value, ',')))
    ensures links.Some? && links.value != "" && r.Some? ==>
      r.value == Links(MatchLink, Split(links.value, ','))
  {
    if links.None? || links.value == "" {
      return Some(map[]);
    }
    var entries := Split(links.value, ',');
    var acc := map[];
    var i := 0;
    while i < |entries|
      invariant 0 <= i <= |entries|
      invariant acc == Links(MatchLink, entries[..i])
      invariant AllMatch(MatchLink, entries[..i])
    {
      var m := MatchLink(entries[i]);
      if m.None? {
        return None;
      }
      LinksSnoc(MatchLink, entries, i);
      acc := acc[m.value.1 := m.value.0];
      i := i + 1;
    }
    assert entries[..i] == entries;
    return Some(acc);
  }

  /** `gitLabProjectIdFromURL`: the host name and the encoded project path, when
      the trimmed path has at least two segments; `undefined` (`None`) for an
      empty URL, a URL that does not parse and a single-segment path.
      `encodeURIComponent` is not part of this model: `encode` stands for it. */
  function ProjectIdFromUrl(projectUrl: string, parse: UrlParser, encode: string -> string)
    : (r: Option<(string, string)>)
    ensures projectUrl == "" ==> r.None?
    ensures projectUrl != "" ==>
      (r.Some? <==> parse(WithScheme(projectUrl)).Some? && '/' in TrimSlashes(parse(WithScheme(projectUrl)).value.1))
    ensures r.Some? ==>
      var (hostname, pathname) := parse(WithScheme(projectUrl)).value;
      r.value == (hostname, encode(TrimSlashes(pathname)))
  {
    if projectUrl == "" then None
    else
      match parse(WithScheme(projectUrl))
      case None => None
      case Some((hostname, pathname)) =>
        var path := TrimSlashes(pathname);
        SplitHasMore(path, '/');
        if |Split(path, '/')| > 1 then Some((hostname, encode(path))) else None
  }

  /** An item of GitLab's repository tree; `kind` is its `type`. */
  datatype TreeItem = TreeItem(id: string, name: string, path: string, kind: string)

  predicate IsTree(it: TreeItem)
  {
    it.kind == "tree"
  }

  /** The app's entry for an item: the path gets a leading `/`. */
  function ToEntry(it: TreeItem): Entry
  {
    Entry(it.id, it.name, "/" + it.path, IsTree(it))
  }

  function Kept(isOrgFile: string -> bool): TreeItem -> bool
  {
    it => IsTree(it) || isOrgFile(it.name)
  }

  /** `treeToDirectoryListing`: the directories and the org files, as entries,
      directories first and then by name. `orgFileExtensions` is not part of this
      model: `isOrgFile` stands for its match. */
  function TreeToDirectoryListing(tree: seq<TreeItem>, isOrgFile: string -> bool): (r: seq<Entry>)
    ensures Sorted(IsDir, Name, r)
    ensures |r| == |Filter(Kept(isOrgFile), tree)|
    ensures forall e :: e in r <==> exists it :: it in tree && (IsTree(it) || isOrgFile(it.name)) && e == ToEntry(it)
  {
    SortedListingMembers(Kept(isOrgFile), ToEntry, tree);
    Sort(IsDir, Name, Map(ToEntry, Filter(Kept(isOrgFile), tree)))
  }
}

/** `src/sync_backend_clients/gitea_sync_backend_client.js`: its `Link` header
    parser, its owner/repository split and its listing conversion. */
module GiteaClient {
  import opened Wrappers
  import opened Strings
  import opened SeqOps
  import opened LinkHeader
  import opened ProjectUrl
  import opened DirectoryListing

  /** `parseLinkHeader`: `{}` for a missing or empty header; otherwise the
      name→url mapping of the entries that match, filled in entry by entry. */
  method ParseLinkHeader(links: Option<string>) returns (r: map<string, string>)
    ensures links.None? || links == Some("") ==> r == map[]
    ensures links.Some? && links.value != "" ==> r == Links(MatchLink, Split(links.value, ','))
  {
    if links.None? || links.value == "" {
      return map[];
    }
    var entries := Split(links.value, ',');
    r := map[];
    var i := 0;
    while i < |entries|
      invariant 0 <= i <= |entries|
      invariant r == Links(MatchLink, entries[..i])
    {
      assert entries[..i + 1][..i] == entries[..i];
      var m := MatchLink(entries[i]);
      if m.Some? {
        r := r[m.value.1 := m.value.0];
      }
      i := i + 1;
    }
    assert entries[..i] == entries;
  }

  /** `giteaProjectFromURL`: `(owner, repo)` when the trimmed path is exactly two
      non-empty segments; `undefined` (`None`) otherwise, for an empty URL and
      for a URL that does not parse. */
  function ProjectFromUrl(projectUrl: string, parse: UrlParser): (r: Option<(string, string)>)
    ensures projectUrl == "" ==> r.None?
    ensures r.Some? ==> parse(WithScheme(projectUrl)).Some?
    ensures r.Some? ==>
      var (owner, repo) := r.value;
      owner != "" && repo != "" && '/' !in owner && '/' !in repo &&
      TrimSlashes(parse(WithScheme(projectUrl)).value.1) == owner + "/" + repo
  {
    if projectUrl == "" then None
    else
      match parse(WithScheme(projectUrl))
      case None => None
      case Some((hostname, pathname)) =>
        var path := TrimSlashes(pathname);
        var parts := Split(path, '/');
        if |parts| == 2 && parts[0] != "" && parts[1] != "" then
          JoinSplit(path, '/');
          JoinCons(parts[0], parts[1..], "/");
          assert parts[1..] == [parts[1]];
          Some((parts[0], parts[1]))
        else None
  }

  /** Every URL whose trimmed path is `owner/repo` gives that owner and
      repository. */
  lemma {:induction false} ProjectFromUrlFinds(projectUrl: string, parse: UrlParser, owner: string, repo: string)
    requires projectUrl != "" && parse(WithScheme(projectUrl)).Some?
    requires owner != "" && repo != "" && '/' !in owner && '/' !in repo
    requires TrimSlashes(parse(WithScheme(projectUrl)).value.1) == owner + "/" + repo
    ensures ProjectFromUrl(projectUrl, parse) == Some((owner, repo))
  {
    JoinCons(owner, [repo], "/");
    SplitJoin([owner, repo], '/');
  }

  /** An item of a Gitea directory listing; `kind` is its `type`. */
  datatype ContentItem = ContentItem(sha: string, name: string, path: string, kind: string)

  predicate IsDirItem(it: ContentItem)
  {
    it.kind == "dir"
  }

  /** The app's entry for an item: the id is the `sha`, the path gets a leading `/`. */
  function ToEntry(it: ContentItem): Entry
  {
    Entry(it.sha, it.name, "/" + it.path, IsDirItem(it))
  }

  function Kept(isOrgFile: string -> bool): ContentItem -> bool
  {
    it => IsDirItem(it) || isOrgFile(it.name)
  }

  /** `treeToDirectoryListing`: the directories and the org files, as entries,
      directories first and then by name. */
  function TreeToDirectoryListing(tree: seq<ContentItem>, isOrgFile: string -> bool): (r: seq<Entry>)
    ensures Sorted(IsDir, Name, r)
    ensures |r| == |Filter(Kept(isOrgFile), tree)|
    ensures forall e :: e in r <==> exists it :: it in tree && (IsDirItem(it) || isOrgFile(it.name)) && e == ToEntry(it)
  {
    SortedListingMembers(Kept(isOrgFile), ToEntry, tree);
    Sort(IsDir, Name, Map(ToEntry, Filter(Kept(isOrgFile), tree)))
  }
}

/** `src/sync_backend_clients/dropbox_sync_backend_client.js`: the listing
    filter and sort, and the conversion to the app's entries. */
module DropboxClient {
  import opened SeqOps
  import opened DirectoryListing

  /** A Dropbox listing entry; `tag` is its `.tag` (`folder`, `file`, …). */
  datatype DropboxEntry = DropboxEntry(id: string, name: string, tag: string, pathDisplay: string)

  predicate IsFolder(e: DropboxEntry)
  {
    e.tag == "folder"
  }

  function EntryName(e: DropboxEntry): string
  {
    e.name
  }

  function Kept(isOrgFile: string -> bool): DropboxEntry -> bool
  {
    e => IsFolder(e) || isOrgFile(e.name)
  }

  /** The comparator handed to `sort`, as written: -1 for a folder against a
      file, and otherwise by name alone. */
  function CompareAsWritten(a: DropboxEntry, b: DropboxEntry): int
  {
    if a.tag == "folder" && b.tag == "file" then -1
    else if NameLess(b.name, a.name) then 1 else -1
  }

  /** The comparator as written is not a consistent order: a file named before
      a folder compares as "first" against it, and the folder compares as
      "first" against the file too, so where the file ends up depends on which
      pair the sort happens to compare; folders-first puts the folder first. */
  lemma ComparatorInconsistent()
    ensures var file := DropboxEntry("", "a.org", "file", "");
      var folder := DropboxEntry("", "b", "folder", "");
      CompareAsWritten(file, folder) == -1 && CompareAsWritten(folder, file) == -1 &&
      ListedBefore(IsFolder, EntryName, folder, file) && !ListedBefore(IsFolder, EntryName, file, folder)
  {
    assert NameLess("a.org", "b");
    NameLessAsymmetric("a.org", "b");
  }

  /** `filterAndSortDirectoryListing`, with folders first and then names in
      order: the folders and the org files of the listing, each once. */
  function FilterAndSortDirectoryListing(listing: seq<DropboxEntry>, isOrgFile: string -> bool)
    : (r: seq<DropboxEntry>)
    ensures Sorted(IsFolder, EntryName, r)
    ensures multiset(r) == multiset(Filter(Kept(isOrgFile), listing))
    ensures forall e :: e in r <==> e in listing && (IsFolder(e) || isOrgFile(e.name))
  {
    FilterMembers(Kept(isOrgFile), listing);
    SortMembers(IsFolder, EntryName, Filter(Kept(isOrgFile), listing));
    Sort(IsFolder, EntryName, Filter(Kept(isOrgFile), listing))
  }

  /** The app's entry: a directory exactly when the tag is `folder`, the path is
      `path_display`. */
  function ToEntry(e: DropboxEntry): Entry
  {
    Entry(e.id, e.name, e.pathDisplay, IsFolder(e))
  }

  /** `transformDirectoryListing`: the filtered, sorted listing as entries. */
  function TransformDirectoryListing(listing: seq<DropboxEntry>, isOrgFile: string -> bool): (r: seq<Entry>)
    ensures Sorted(IsDir, Name, r)
    ensures forall e :: e in r <==>
      exists d :: d in listing && (IsFolder(d) || isOrgFile(d.name)) && e == ToEntry(d)
  {
    var sorted := FilterAndSortDirectoryListing(listing, isOrgFile);
    MapSorted(ToEntry, IsFolder, EntryName, IsDir, Name, sorted);
    MapMembers(ToEntry, sorted);
    Map(ToEntry, sorted)
  }
}

/** `src/sync_backend_clients/onedrive_sync_backend_client.js` and
    `pathComponents` of `src/sync_backend_clients/onedrive.js`. */
module OneDriveClient {
  import opened Strings
  import opened SeqOps
  import opened DirectoryListing

  /** A drive item; `folder` is whether its `folder` facet is present. */
  datatype DriveItem = DriveItem(id: string, name: string, folder: bool)

  function Kept(isOrgFile: string -> bool): DriveItem -> bool
  {
    (it: DriveItem) => it.folder || isOrgFile(it.name)
  }

  /** `filterAndSortDirectoryListing`: despite its name, a filter only; the
      folders and the org files, in the listing's order. */
  function FilterAndSortDirectoryListing(listing: seq<DriveItem>, isOrgFile: string -> bool): (r: seq<DriveItem>)
    ensures forall it :: it in r <==> it in listing && (it.folder || isOrgFile(it.name))
  {
    FilterMembers(Kept(isOrgFile), listing);
    Filter(Kept(isOrgFile), listing)
  }

  /** The listing of two runs of items is the listing of the first run followed
      by that of the second: the order of the kept items is the listing's. */
  lemma FilterKeepsOrder(a: seq<DriveItem>, b: seq<DriveItem>, isOrgFile: string -> bool)
    ensures FilterAndSortDirectoryListing(a + b, isOrgFile) ==
      FilterAndSortDirectoryListing(a, isOrgFile) + FilterAndSortDirectoryListing(b, isOrgFile)
  {
    FilterAppend(Kept(isOrgFile), a, b);
  }

  /** The app's entry for an item listed in the directory `path`. */
  function ToEntry(path: string, it: DriveItem): Entry
  {
    Entry(it.id, it.name, path + "/" + it.name, it.folder)
  }

  function EntryIn(path: string): DriveItem -> Entry
  {
    it => ToEntry(path, it)
  }

  /** `transformDirectoryListing`: the kept items as entries, in order, each path
      the directory path, `/` and the name. */
  function TransformDirectoryListing(path: string, listing: seq<DriveItem>, isOrgFile: string -> bool)
    : (r: seq<Entry>)
    ensures |r| == |FilterAndSortDirectoryListing(listing, isOrgFile)|
    ensures forall e :: e in r <==>
      exists it :: it in listing && (it.folder || isOrgFile(it.name)) && e == ToEntry(path, it)
    ensures forall e :: e in r ==> e.path == path + "/" + e.name
  {
    var kept := FilterAndSortDirectoryListing(listing, isOrgFile);
    MapMembers(EntryIn(path), kept);
    Map(EntryIn(path), kept)
  }

  /** The entries of two runs of items are the first run's followed by the
      second's. */
  lemma TransformKeepsOrder(path: string, a: seq<DriveItem>, b: seq<DriveItem>, isOrgFile: string -> bool)
    ensures TransformDirectoryListing(path, a + b, isOrgFile) ==
      TransformDirectoryListing(path, a, isOrgFile) + TransformDirectoryListing(path, b, isOrgFile)
  {
    FilterKeepsOrder(a, b, isOrgFile);
    MapAppend(EntryIn(path), FilterAndSortDirectoryListing(a, isOrgFile), FilterAndSortDirectoryListing(b, isOrgFile));
  }

  /** The Graph API's drive root, without its scheme. */
  const GraphRoot: string := "graph.microsoft.com/v1.0/me/drive/root"
  const ListUrl: string := "https://" + GraphRoot + "/{path}/children"
  const FileUrl: string := "https://" + GraphRoot + "/{path}"
  const ContentUrl: string := "https://" + GraphRoot + "/{path}/content"

  /** The path component: empty for the root, `:path:` otherwise. */
  function FinalPath(path: string): string
  {
    if path == "" then path else ":" + path + ":"
  }

  /** `pathComponents(url, path)`: the path component, and the URL with its first
      `/{path}` replaced by it and then its first `//` collapsed to `/`. */
  function PathComponents(url: string, path: string): (r: (string, string))
  {
    (FinalPath(path), ReplaceFirst(ReplaceFirst(url, "/{path}", FinalPath(path)), "//", "/"))
  }

  /** `replace` with a pattern whose first occurrence is known. */
  lemma ReplaceFirstAt(s: string, p: string, v: string, k: nat)
    requires k + |p| <= |s| && s[k..k + |p|] == p
    requires forall j :: 0 <= j < k ==> !StartsWith(s[j..], p)
    ensures ReplaceFirst(s, p, v) == s[..k] + v + s[k + |p|..]
  {
    assert StartsWith(s[k..], p);
    IndexOfFirst(s, p);
    IndexOfFound(s, p);
    var i := IndexOf(s, p);
    assert Contains(s, p);
    assert i >= 0;
  }

  /** In `https://host/{path}rest`, with no `{` in the host, the first
      `/{path}` is the one after the host. */
  lemma {:induction false} ReplacePlaceholder(host: string, rest: string, v: string)
    requires '{' !in host
    ensures ReplaceFirst("https://" + host + "/{path}" + rest, "/{path}", v) == "https://" + host + v + rest
  {
    var scheme := "https://";
    var t := scheme + host + "/{path}" + rest;
    var k := |scheme| + |host|;
    assert t[k..k + 7] == "/{path}";
    forall j | 0 <= j < k
      ensures !StartsWith(t[j..], "/{path}")
    {
      if j + 1 < |scheme| {
        assert t[j + 1] == scheme[j + 1];
      } else if j + 1 < k {
        assert t[j + 1] == host[j + 1 - |scheme|];
      } else {
        assert t[j + 1] == '/';
      }
      assert t[j..][1] != "/{path}"[1];
    }
    ReplaceFirstAt(t, "/{path}", v, k);
    assert t[..k] == scheme + host && t[k + 7..] == rest;
  }

  /** The first `//` of a URL with the scheme `https://` is the scheme's. */
  lemma {:induction false} CollapseScheme(tail: string)
    ensures ReplaceFirst("https://" + tail, "//", "/") == "https:/" + tail
  {
    var u := "https://" + tail;
    assert u[6..8] == "//";
    forall j | 0 <= j < 6
      ensures !StartsWith(u[j..], "//")
    {
      assert u[j] == "https://"[j];
    }
    ReplaceFirstAt(u, "//", "/", 6);
    assert u[..6] == "https:" && u[8..] == tail;
  }

  /** For a template `https://host/{path}rest` whose host holds no `{`, the `//`
      that is collapsed is the one after the scheme: the URL becomes
      `https:/host` followed by the path component and the rest. */
  lemma PathComponentsOfTemplate(host: string, rest: string, path: string)
    requires '{' !in host
    ensures PathComponents("https://" + host + "/{path}" + rest, path) ==
      (FinalPath(path), "https:/" + host + FinalPath(path) + rest)
  {
    var url := "https://" + host + "/{path}" + rest;
    var tail := host + FinalPath(path) + rest;
    ReplacePlaceholder(host, rest, FinalPath(path));
    assert ReplaceFirst(url, "/{path}", FinalPath(path)) == "https://" + tail;
    CollapseScheme(tail);
    assert "https:/" + tail == "https:/" + host + FinalPath(path) + rest;
  }

  /** What the three Graph URLs become for a path: the scheme loses a slash. */
  lemma GraphUrls(path: string)
    ensures PathComponents(ListUrl, path).1 == "https:/" + GraphRoot + FinalPath(path) + "/children"
    ensures PathComponents(FileUrl, path).1 == "https:/" + GraphRoot + FinalPath(path)
    ensures PathComponents(ContentUrl, path).1 == "https:/" + GraphRoot + FinalPath(path) + "/content"
  {
    assert '{' !in GraphRoot;
    assert ListUrl == "https://" + GraphRoot + "/{path}" + "/children";
    assert FileUrl == "https://" + GraphRoot + "/{path}" + "";
    assert ContentUrl == "https://" + GraphRoot + "/{path}" + "/content";
    PathComponentsOfTemplate(GraphRoot, "/children", path);
    PathComponentsOfTemplate(GraphRoot, "", path);
    PathComponentsOfTemplate(GraphRoot, "/content", path);
  }
}
