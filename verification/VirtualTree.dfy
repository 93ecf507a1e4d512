/**
 The browser's file tree (`buildTree`). Directories are found through a map from
 path to directory object, and the children arrays are shared and appended to as
 entries come in. Here the map from a directory's path to its children plays both
 parts; the top level is the directory "".
 */
module VirtualTree {
  import opened Base
  import opened Paths
  import opened MapSum

  datatype Entry = Entry(path: string, size: Option<nat>, unconfirmed: bool)

  datatype Node = File(name: string, entry: Entry) | Dir(name: string, path: string)

  type Arena = map<string, seq<Node>>

  /** `replace(/^\//, "")` */
  function StripSlash(path: string): string {
    if path != "" && path[0] == '/' then path[1..] else path
  }

  /** The path a node gets below a directory. */
  function Below(dir: string, name: string): string {
    dir + "/" + name
  }

  /** The directory path after walking some segments. */
  function Walked(segments: seq<string>): string {
    if segments == [] then "" else Below(Walked(segments[..|segments| - 1]), segments[|segments| - 1])
  }

  // ---- What the finished tree looks like ----------------------------------------------------

  /** A node fits its directory: no separator in its name, and its path is the directory's plus the name. */
  predicate Fits(dir: string, node: Node) {
    && '/' !in node.name
    && match node
       case Dir(name, path) => path == Below(dir, name)
       case File(name, entry) => Below(dir, name) == "/" + StripSlash(entry.path)
  }

  ghost predicate AllFit(arena: Arena) {
    forall d, i :: d in arena && 0 <= i < |arena[d]| ==> Fits(d, arena[d][i])
  }

  function FilesIn(children: seq<Node>): seq<Entry> {
    if children == [] then []
    else
      var last := children[|children| - 1];
      FilesIn(children[..|children| - 1]) + if last.File? then [last.entry] else []
  }

  function DirsIn(children: seq<Node>): seq<string> {
    if children == [] then []
    else
      var last := children[|children| - 1];
      DirsIn(children[..|children| - 1]) + if last.Dir? then [last.path] else []
  }

  ghost const FileBag := (children: seq<Node>) => multiset(FilesIn(children))
  ghost const DirBag := (children: seq<Node>) => multiset(DirsIn(children))

  /** All entries of all directories, reachable or not, and all links to directories. */
  ghost function Leaves(arena: Arena): multiset<Entry> { Gathered(arena, FileBag) }
  ghost function Links(arena: Arena): multiset<string> { Gathered(arena, DirBag) }

  /** Every directory but the top is linked exactly once, and every link leads to a directory. */
  ghost predicate Linked(arena: Arena) {
    "" in arena && Links(arena) == multiset(arena.Keys - {""})
  }

  // ---- The tree as it is rendered: from the top array down -----------------------------------

  /** A directory is shown if it is the top or some directory that is shown lists it. */
  ghost predicate Reachable(arena: Arena, d: string)
    decreases |d|
  {
    d == "" ||
    exists p, i :: p in arena && |p| < |d| && 0 <= i < |arena[p]| && Lists(arena[p][i], d) && Reachable(arena, p)
  }

  predicate Lists(node: Node, d: string) {
    node.Dir? && node.path == d
  }

  ghost function Longer(arena: Arena, d: string): set<string> {
    set k | k in arena && |k| > |d|
  }

  lemma LongerShrinks(arena: Arena, d: string, path: string)
    requires path in arena && |path| > |d|
    ensures |Longer(arena, path)| < |Longer(arena, d)|
  {
    assert Longer(arena, path) <= Longer(arena, d) - {path};
    Subset(Longer(arena, path), Longer(arena, d) - {path});
  }

  lemma {:induction false} Subset(a: set<string>, b: set<string>)
    requires a <= b
    ensures |a| <= |b|
    decreases |a|
  {
    if a != {} {
      var x :| x in a;
      Subset(a - {x}, b - {x});
    }
  }

  /** The files found by descending from a directory through the directories it lists. */
  ghost function Under(arena: Arena, d: string): multiset<Entry>
    decreases |Longer(arena, d)|, 1, 0
  {
    if d !in arena then multiset{} else UnderChildren(arena, d, arena[d])
  }

  ghost function UnderChildren(arena: Arena, d: string, children: seq<Node>): multiset<Entry>
    decreases |Longer(arena, d)|, 0, |children|
  {
    if children == [] then multiset{}
    else
      var last := children[|children| - 1];
      UnderChildren(arena, d, children[..|children| - 1])
      + match last
        case File(_, entry) => multiset{entry}
        case Dir(_, path) =>
          if path !in arena || |path| <= |d| then multiset{}
          else LongerShrinks(arena, d, path); Under(arena, path)
  }

  ghost function UnderIn(arena: Arena): string -> multiset<Entry> {
    d => Under(arena, d)
  }

  /** The files under each of a bag of directories. */
  ghost function UnderAll(arena: Arena, dirs: multiset<string>): multiset<Entry> {
    Union(dirs, UnderIn(arena))
  }

  /** A listed directory exists and has a longer path. */
  predicate Descends(arena: Arena, d: string, node: Node) {
    node.Dir? ==> node.path in arena && |node.path| > |d|
  }

  /** The own files and the files under the listed directories. */
  ghost function FilesAndBelow(arena: Arena, children: seq<Node>): multiset<Entry> {
    multiset(FilesIn(children)) + UnderAll(arena, multiset(DirsIn(children)))
  }

  lemma SplitsSnoc(arena: Arena, children: seq<Node>)
    requires children != []
    ensures var last := children[|children| - 1];
            FilesAndBelow(arena, children) == FilesAndBelow(arena, children[..|children| - 1])
              + if last.Dir? then Under(arena, last.path) else multiset{last.entry}
  {
    var before, last := children[..|children| - 1], children[|children| - 1];
    var files, below := multiset(FilesIn(before)), UnderAll(arena, multiset(DirsIn(before)));
    if last.Dir? {
      assert FilesIn(children) == FilesIn(before) && DirsIn(children) == DirsIn(before) + [last.path];
      UnionInsert(multiset(DirsIn(before)), last.path, UnderIn(arena));
      MoveLast(files, Under(arena, last.path), below);
    } else {
      assert FilesIn(children) == FilesIn(before) + [last.entry] && DirsIn(children) == DirsIn(before);
      MoveLast(files, multiset{last.entry}, below);
      assert multiset(FilesIn(children)) == files + multiset{last.entry};
    }
  }

  lemma {:induction false} UnderChildrenSplits(arena: Arena, d: string, children: seq<Node>)
    requires forall i :: 0 <= i < |children| ==> Descends(arena, d, children[i])
    ensures UnderChildren(arena, d, children) == FilesAndBelow(arena, children)
    decreases |children|
  {
    if children != [] {
      UnderChildrenSplits(arena, d, children[..|children| - 1]);
      SplitsSnoc(arena, children);
      assert Descends(arena, d, children[|children| - 1]);
    }
  }

  lemma {:induction false} DirsInHas(children: seq<Node>, i: nat)
    requires i < |children| && children[i].Dir?
    ensures children[i].path in DirsIn(children)
  {
    if i < |children| - 1 { DirsInHas(children[..|children| - 1], i); }
  }

  lemma AllDescend(arena: Arena, d: string, i: nat)
    requires Linked(arena) && AllFit(arena) && d in arena && i < |arena[d]|
    ensures Descends(arena, d, arena[d][i])
  {
    assert Fits(d, arena[d][i]);
    if arena[d][i].Dir? {
      DirsInHas(arena[d], i);
      GatheredRemove(arena, d, DirBag);
      assert arena[d][i].path in Links(arena);
    }
  }

  lemma UnderSplits(arena: Arena, d: string)
    requires Linked(arena) && AllFit(arena) && d in arena
    ensures Under(arena, d) == FileBag(arena[d]) + UnderAll(arena, DirBag(arena[d]))
  {
    forall i | 0 <= i < |arena[d]| ensures Descends(arena, d, arena[d][i]) { AllDescend(arena, d, i); }
    UnderChildrenSplits(arena, d, arena[d]);
  }

  /** Descending from the top finds every file there is, each exactly once. */
  lemma UnderTopIsAll(arena: Arena)
    requires Linked(arena) && AllFit(arena)
    ensures Under(arena, "") == Leaves(arena)
  {
    var under := UnderIn(arena);
    forall d | d in arena ensures under(d) == FileBag(arena[d]) + Union(DirBag(arena[d]), under) {
      UnderSplits(arena, d);
    }
    UnderRoot(arena, FileBag, DirBag, under, "");
  }

  /** Every directory is shown. */
  lemma {:induction false} ReachableFromTop(arena: Arena, d: string)
    requires Linked(arena) && AllFit(arena) && d in arena
    ensures Reachable(arena, d)
    decreases |d|
  {
    if d != "" {
      assert d in Links(arena);
      var p := GatheredFrom(arena, DirBag, d);
      var i := DirsInFrom(arena[p], d);
      assert Fits(p, arena[p][i]);
      ReachableFromTop(arena, p);
      assert Lists(arena[p][i], d);
    }
  }

  lemma AllReachable(arena: Arena)
    requires Linked(arena) && AllFit(arena)
    ensures forall d :: d in arena ==> Reachable(arena, d)
  {
    forall d | d in arena ensures Reachable(arena, d) { ReachableFromTop(arena, d); }
  }

  // ---- Appending a node ------------------------------------------------------------------------

  lemma FilesInSnoc(children: seq<Node>, node: Node)
    ensures FilesIn(children + [node]) == FilesIn(children) + if node.File? then [node.entry] else []
    ensures DirsIn(children + [node]) == DirsIn(children) + if node.Dir? then [node.path] else []
  {
    assert (children + [node])[..|children|] == children;
  }

  lemma FileAppended(arena: Arena, d: string, node: Node)
    requires d in arena && node.File?
    ensures var after := arena[d := arena[d] + [node]];
            Leaves(after) == Leaves(arena) + multiset{node.entry} && Links(after) == Links(arena)
  {
    FilesInSnoc(arena[d], node);
    GatheredGrow(arena, d, arena[d] + [node], FileBag, multiset{node.entry});
    GatheredGrow(arena, d, arena[d] + [node], DirBag, multiset{});
  }

  lemma DirAppended(arena: Arena, d: string, node: Node)
    requires d in arena && node.Dir?
    ensures var after := arena[d := arena[d] + [node]];
            Leaves(after) == Leaves(arena) && Links(after) == Links(arena) + multiset{node.path}
  {
    FilesInSnoc(arena[d], node);
    GatheredGrow(arena, d, arena[d] + [node], FileBag, multiset{});
    GatheredGrow(arena, d, arena[d] + [node], DirBag, multiset{node.path});
  }

  lemma FitAppended(arena: Arena, d: string, node: Node)
    requires AllFit(arena) && d in arena && Fits(d, node)
    ensures AllFit(arena[d := arena[d] + [node]])
  {
    var after := arena[d := arena[d] + [node]];
    forall e, i | e in after && 0 <= i < |after[e]| ensures Fits(e, after[e][i]) {
      if e == d && i == |arena[d]| {
        assert after[e][i] == node;
      } else {
        assert after[e][i] == arena[e][i];
      }
    }
  }

  lemma NewDirectory(arena: Arena, d: string)
    requires d !in arena
    ensures Leaves(arena[d := []]) == Leaves(arena) && Links(arena[d := []]) == Links(arena)
  {
    GatheredSet(arena, d, [], FileBag);
    GatheredSet(arena, d, [], DirBag);
    assert arena - {d} == arena;
  }

  // ---- Building ---------------------------------------------------------------------------------

  /** Everything holds, except that the directory being walked into may still be empty. */
  ghost predicate TreeBut(arena: Arena, open_: string) {
    && Linked(arena) && AllFit(arena) && open_ in arena
    && forall d :: d in arena && d != "" && d != open_ ==> arena[d] != []
  }

  lemma BelowInjective(d: string, n: string, d': string, n': string)
    requires '/' !in n && '/' !in n' && Below(d, n) == Below(d', n')
    ensures d == d' && n == n'
  {
    RFindLast(d, n);
    RFindLast(d', n');
    var s := Below(d, n);
    assert s[..|d|] == d && s[|d| + 1..] == n && s[..|d'|] == d' && s[|d'| + 1..] == n';
  }

  lemma {:induction false} DirsInFrom(children: seq<Node>, path: string) returns (i: nat)
    requires path in DirsIn(children)
    ensures i < |children| && children[i].Dir? && children[i].path == path
  {
    var last := children[|children| - 1];
    if last.Dir? && last.path == path {
      i := |children| - 1;
    } else {
      i := DirsInFrom(children[..|children| - 1], path);
    }
  }

  /** Every directory below the top is listed in the directory its path says. */
  lemma ListedInParent(arena: Arena, d: string, name: string)
    requires Linked(arena) && AllFit(arena) && '/' !in name && Below(d, name) in arena
    ensures d in arena && Dir(name, Below(d, name)) in arena[d]
  {
    var path := Below(d, name);
    assert path in Links(arena);
    var p := GatheredFrom(arena, DirBag, path);
    var i := DirsInFrom(arena[p], path);
    assert Fits(p, arena[p][i]);
    BelowInjective(d, name, p, arena[p][i].name);
    assert arena[p][i] in arena[p];
  }

  lemma LinkedMade(arena: Arena, d: string, node: Node)
    requires Linked(arena) && d in arena && node.Dir? && node.path != "" && node.path !in arena
    ensures var made := arena[node.path := []];
            var after := made[d := made[d] + [node]];
            Linked(after) && Leaves(after) == Leaves(arena)
  {
    var made := arena[node.path := []];
    var after := made[d := made[d] + [node]];
    NewDirectory(arena, node.path);
    DirAppended(made, d, node);
    KeysMade(arena, d, node);
    BagOfSet(arena.Keys - {""}, node.path);
  }

  lemma KeysMade(arena: Arena, d: string, node: Node)
    requires d in arena && node.Dir? && node.path != ""
    ensures var made := arena[node.path := []];
            made[d := made[d] + [node]].Keys - {""} == (arena.Keys - {""}) + {node.path}
  {
  }

  lemma BagOfSet(s: set<string>, x: string)
    requires x !in s
    ensures multiset(s + {x}) == multiset(s) + multiset{x}
  {
  }

  // ---- The order of the files in a directory ------------------------------------------------------

  function FilesAt(arena: Arena, d: string): seq<Entry> {
    if d in arena then FilesIn(arena[d]) else []
  }

  ghost predicate SameFiles(arena: Arena, after: Arena) {
    forall d :: FilesAt(after, d) == FilesAt(arena, d)
  }

  /** The directory an entry belongs to: all of its path but the last part. */
  function DirectoryOf(entry: Entry): string {
    var parts := Split(StripSlash(entry.path));
    Walked(parts[..|parts| - 1])
  }

  /** The entry comes last in its directory; all other directories list the files they did. */
  ghost predicate FileAdded(arena: Arena, after: Arena, entry: Entry) {
    forall d :: FilesAt(after, d) == FilesAt(arena, d) + if d == DirectoryOf(entry) then [entry] else []
  }

  /** The entries of a directory, in the order in which they come. */
  function FilesFor(entries: seq<Entry>, d: string): seq<Entry> {
    if entries == [] then []
    else
      var last := entries[|entries| - 1];
      FilesFor(entries[..|entries| - 1], d) + if DirectoryOf(last) == d then [last] else []
  }

  ghost predicate InOrder(arena: Arena, entries: seq<Entry>) {
    forall d :: FilesAt(arena, d) == FilesFor(entries, d)
  }

  lemma MakeDirectoryFiles(arena: Arena, d: string, node: Node)
    requires d in arena && node.Dir? && node.path !in arena
    ensures var made := arena[node.path := []];
            SameFiles(arena, made[d := made[d] + [node]])
  {
    FilesInSnoc(arena[d], node);
  }

  lemma AddFileFiles(arena: Arena, after: Arena, d: string, name: string, entry: Entry)
    requires SameFiles(arena, after) && d in after && d == DirectoryOf(entry)
    ensures FileAdded(arena, after[d := after[d] + [File(name, entry)]], entry)
  {
    FilesInSnoc(after[d], File(name, entry));
    forall e ensures FilesAt(after[d := after[d] + [File(name, entry)]], e)
                  == FilesAt(arena, e) + if e == DirectoryOf(entry) then [entry] else []
    {
      assert FilesAt(after, e) == FilesAt(arena, e);
    }
  }

  lemma InOrderSnoc(arena: Arena, after: Arena, sorted: seq<Entry>, i: nat)
    requires i < |sorted| && InOrder(arena, sorted[..i]) && FileAdded(arena, after, sorted[i])
    ensures InOrder(after, sorted[..i + 1])
  {
    assert sorted[..i + 1][..i] == sorted[..i];
    forall d ensures FilesAt(after, d) == FilesFor(sorted[..i + 1], d) {
      assert FilesAt(arena, d) == FilesFor(sorted[..i], d);
    }
  }

  lemma SameFilesTwice(a: Arena, b: Arena, c: Arena)
    requires SameFiles(a, b) && SameFiles(b, c)
    ensures SameFiles(a, c)
  {
    forall d ensures FilesAt(c, d) == FilesAt(a, d) { assert FilesAt(b, d) == FilesAt(a, d); }
  }

  lemma MakeDirectory(arena: Arena, d: string, name: string)
    requires TreeBut(arena, d) && '/' !in name && Below(d, name) !in arena
    ensures var made := arena[Below(d, name) := []];
            var after := made[d := made[d] + [Dir(name, Below(d, name))]];
            TreeBut(after, Below(d, name)) && Leaves(after) == Leaves(arena)
  {
    var node := Dir(name, Below(d, name));
    LinkedMade(arena, d, node);
    FitAppended(arena[node.path := []], d, node);
  }

  method EnterDirectory(arena: Arena, d: string, segment: string) returns (after: Arena, path: string)
    requires TreeBut(arena, d) && '/' !in segment
    ensures path == Below(d, segment) && TreeBut(after, path) && Leaves(after) == Leaves(arena)
    ensures SameFiles(arena, after)
  {
    path := d + "/" + segment;
    after := arena;
    if path !in after {
      MakeDirectory(arena, d, segment);
      MakeDirectoryFiles(arena, d, Dir(segment, path));
      after := after[path := []];
      after := after[d := after[d] + [Dir(segment, path)]];
    } else {
      ListedInParent(arena, d, segment);
    }
  }

  lemma AddFile(arena: Arena, d: string, name: string, entry: Entry)
    requires TreeBut(arena, d) && Fits(d, File(name, entry))
    ensures var after := arena[d := arena[d] + [File(name, entry)]];
            TreeBut(after, "") && Leaves(after) == Leaves(arena) + multiset{entry}
  {
    FileAppended(arena, d, File(name, entry));
    FitAppended(arena, d, File(name, entry));
    assert arena[d := arena[d] + [File(name, entry)]].Keys == arena.Keys;
  }

  lemma {:induction false} WalkedJoins(parts: seq<string>)
    requires parts != []
    ensures Below(Walked(parts[..|parts| - 1]), parts[|parts| - 1]) == "/" + Join(parts)
    decreases |parts|
  {
    var init, last := parts[..|parts| - 1], parts[|parts| - 1];
    assert parts == init + [last];
    if init != [] {
      WalkedJoins(init);
      JoinSnoc(init, last);
      assert ("/" + Join(init)) + "/" + last == "/" + (Join(init) + "/" + last);
    }
  }

  /** The loop over the directory parts of a path. */
  method EnterAll(arena: Arena, dirParts: seq<string>) returns (after: Arena, cumulativePath: string)
    requires TreeBut(arena, "") && forall i :: 0 <= i < |dirParts| ==> '/' !in dirParts[i]
    ensures cumulativePath == Walked(dirParts)
    ensures TreeBut(after, cumulativePath) && Leaves(after) == Leaves(arena) && SameFiles(arena, after)
  {
    cumulativePath := "";
    after := arena;
    for i := 0 to |dirParts|
      invariant cumulativePath == Walked(dirParts[..i])
      invariant TreeBut(after, cumulativePath) && Leaves(after) == Leaves(arena) && SameFiles(arena, after)
    {
      assert dirParts[..i + 1][..i] == dirParts[..i];
      ghost var before := after;
      after, cumulativePath := EnterDirectory(after, cumulativePath, dirParts[i]);
      SameFilesTwice(arena, before, after);
    }
    assert dirParts[..|dirParts|] == dirParts;
  }

  method PlaceEntry(arena: Arena, entry: Entry) returns (after: Arena)
    requires TreeBut(arena, "")
    ensures TreeBut(after, "") && Leaves(after) == Leaves(arena) + multiset{entry}
    ensures FileAdded(arena, after, entry)
  {
    var parts := Split(StripSlash(entry.path));
    JoinSplit(StripSlash(entry.path));
    var filename := parts[|parts| - 1];
    var dirParts := parts[..|parts| - 1];
    var cumulativePath;
    after, cumulativePath := EnterAll(arena, dirParts);
    WalkedJoins(parts);
    AddFile(after, cumulativePath, filename, entry);
    AddFileFiles(arena, after, cumulativePath, filename, entry);
    after := after[cumulativePath := after[cumulativePath] + [File(filename, entry)]];
  }

  /** `sorted` is the entries in whatever order the locale's collation gives them. */
  method BuildTree(entries: seq<Entry>, sorted: seq<Entry>) returns (arena: Arena)
    requires multiset(sorted) == multiset(entries)
    ensures Under(arena, "") == multiset(entries)
    ensures Linked(arena) && AllFit(arena)
    ensures forall d :: d in arena ==> Reachable(arena, d)
    ensures forall d :: d in arena && d != "" ==> arena[d] != []
    ensures forall d :: d in arena ==> FilesIn(arena[d]) == FilesFor(sorted, d)
  {
    arena := map["" := []];
    EmptyTree(arena);
    for i := 0 to |sorted|
      invariant TreeBut(arena, "") && Leaves(arena) == multiset(sorted[..i]) && InOrder(arena, sorted[..i])
    {
      ghost var before := arena;
      arena := PlaceEntry(arena, sorted[i]);
      BagSnoc(sorted, i);
      InOrderSnoc(before, arena, sorted, i);
    }
    assert sorted[..|sorted|] == sorted;
    assert forall d :: d in arena ==> FilesAt(arena, d) == FilesFor(sorted, d);
    UnderTopIsAll(arena);
    AllReachable(arena);
  }

  lemma BagSnoc(s: seq<Entry>, i: nat)
    requires i < |s|
    ensures multiset(s[..i + 1]) == multiset(s[..i]) + multiset{s[i]}
  {
    assert s[..i + 1] == s[..i] + [s[i]];
  }

  lemma EmptyTree(arena: Arena)
    requires arena == map["" := []]
    ensures TreeBut(arena, "") && Leaves(arena) == multiset{}
  {
    GatheredRemove(arena, "", FileBag);
    GatheredRemove(arena, "", DirBag);
    assert arena - {""} == map[];
    assert arena.Keys - {""} == {};
  }

  // ---- What that means for the reader of the tree ------------------------------------------------

  /** A file's path is its directory's path, a separator and its name, exactly when the entry's path starts with one. */
  lemma FilePathIff(arena: Arena, d: string, i: nat)
    requires AllFit(arena) && d in arena && i < |arena[d]| && arena[d][i].File?
    ensures var f := arena[d][i];
            f.entry.path == Below(d, f.name) <==> f.entry.path != "" && f.entry.path[0] == '/'
  {
    assert Fits(d, arena[d][i]);
    var path := arena[d][i].entry.path;
    if path != "" && path[0] == '/' { assert path == "/" + path[1..]; }
  }

  /** No directory is listed twice, and none outside the tree is listed. */
  lemma ListedOnce(arena: Arena, path: string)
    requires Linked(arena)
    ensures Links(arena)[path] == if path in arena && path != "" then 1 else 0
  {
    assert multiset(arena.Keys - {""})[path] == if path in arena.Keys - {""} then 1 else 0;
  }
}
