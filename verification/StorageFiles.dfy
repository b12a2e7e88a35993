/**
 `AddStorageFiles` of `pkg/data/bootstrap/util.go`: a recursive walk over an embedded directory
 tree that installs every file into the ignition config with `replaceOrAppend`.

 A leaf's `data` is the data URL of its rendered contents, or None when reading it or parsing
 its template fails.
 */
module StorageFiles {
  import opened Wrappers
  import opened KeyedList

  datatype FileBody = FileBody(mode: int, overwrite: bool, source: Option<string>, append: seq<Option<string>>)

  type File = Entry<FileBody>

  datatype Node =
    | Leaf(name: string, data: Option<string>)
    | Dir(name: string, children: seq<Node>)
    | Unreadable(name: string)

  // ---------------------------------------------------------------- paths

  const SLASH := '/'

  /** `path.Join` of a clean path and one more element. */
  function Join(base: string, name: string): string {
    if base == "" then name else base + [SLASH] + name
  }

  /** How many characters up to and including the last slash. */
  function AfterLastSlash(p: string): (n: nat)
    ensures n <= |p|
    ensures n > 0 ==> p[n - 1] == SLASH
    ensures SLASH !in p[n..]
  {
    if p == "" then 0
    else if p[|p| - 1] == SLASH then |p|
    else AfterLastSlash(p[..|p| - 1])
  }

  /** `path.Base` and `path.Dir` of a clean, non-empty path. */
  function Base(p: string): string {
    p[AfterLastSlash(p)..]
  }

  function DirOf(p: string): string {
    if AfterLastSlash(p) == 0 then "." else p[..AfterLastSlash(p) - 1]
  }

  lemma {:induction false} AfterLastSlashOfJoin(base: string, name: string)
    requires SLASH !in name
    ensures AfterLastSlash(base + [SLASH] + name) == |base| + 1
  {
    var p := base + [SLASH] + name;
    if name != "" {
      assert p[|p| - 1] == name[|name| - 1];
      assert p[..|p| - 1] == base + [SLASH] + name[..|name| - 1];
      AfterLastSlashOfJoin(base, name[..|name| - 1]);
    }
  }

  /** Below a directory, a file's base name is its own and its parent's base name the directory's. */
  lemma {:induction false} PathsBelowDirectory(uri: string, name: string)
    requires uri != "" && SLASH !in name
    ensures Base(Join(uri, name)) == name && Base(DirOf(Join(uri, name))) == Base(uri)
  {
    var p := Join(uri, name);
    AfterLastSlashOfJoin(uri, name);
    assert p[|uri| + 1..] == name && p[..|uri|] == uri;
    assert DirOf(p) == p[..|uri|];
  }

  function TrimTemplate(p: string): string {
    if |p| >= 9 && p[|p| - 9..] == ".template" then p[..|p| - 9] else p
  }

  // ---------------------------------------------------------------- one file

  const MODE_EXECUTABLE := 365   // 0555
  const MODE_SHARED := 420       // 0644
  const MODE_PRIVATE := 384      // 0600

  function FileFromBytes(path: string, mode: int, data: string): File {
    Entry(path, FileBody(mode, true, Some(data), []))
  }

  function ConvertToAppendix(f: File): File {
    f.(body := f.body.(append := [f.body.source], source := None, overwrite := false))
  }

  /** The ignition file for one leaf. */
  function LeafFile(base: string, uri: string, data: string): File {
    var filename, parentDir := Base(uri), Base(DirOf(uri));
    var path := TrimTemplate("/" + base);
    if parentDir == "bin" || parentDir == "dispatcher.d" then FileFromBytes(path, MODE_EXECUTABLE, data)
    else if filename == "motd" || filename == "containers.conf" then ConvertToAppendix(FileFromBytes(path, MODE_SHARED, data))
    else if filename == "registries.conf" then FileFromBytes(path, MODE_SHARED, data)
    else FileFromBytes(path, MODE_PRIVATE, data)
  }

  predicate EndsWith(s: string, t: string) {
    |t| <= |s| && s[|s| - |t|..] == t
  }

  /** What becomes of file `name` in directory `dir`: its path loses one template suffix; scripts are
      executable, the message of the day and the container settings are appended to what is there,
      those and the registries are readable by all, and everything else is private. */
  lemma {:induction false} LeafFileMeaning(base: string, dir: string, name: string, data: string)
    requires dir != "" && SLASH !in name
    ensures var f := LeafFile(base, Join(dir, name), data);
            && f.key + (if EndsWith("/" + base, ".template") then ".template" else "") == "/" + base
            && IsBodyFor(f.body, Base(dir), name, data)
  {
    PathsBelowDirectory(dir, name);
    TrimmedPath("/" + base);
  }

  predicate IsBodyFor(body: FileBody, parent: string, name: string, data: string) {
    var script := parent == "bin" || parent == "dispatcher.d";
    var appended := name == "motd" || name == "containers.conf";
    if script then body == FileBody(365, true, Some(data), [])
    else if appended then body == FileBody(420, false, None, [Some(data)])
    else body == FileBody(if name == "registries.conf" then 420 else 384, true, Some(data), [])
  }

  lemma {:induction false} TrimmedPath(p: string)
    ensures TrimTemplate(p) + (if EndsWith(p, ".template") then ".template" else "") == p
  {
    assert |".template"| == 9;
  }

  // ---------------------------------------------------------------- the tree, flattened

  /** A leaf where the walk meets it; `file` is None when the walk fails there. */
  datatype Found = Found(file: Option<File>)

  function Leaves(node: Node, base: string, uri: string): seq<Found>
    decreases node, 1
  {
    match node
    case Leaf(_, data) => [Found(if data.None? then None else Some(LeafFile(base, uri, data.value)))]
    case Unreadable(_) => [Found(None)]
    case Dir(_, children) => LeavesOfAll(children, base, uri)
  }

  function LeavesOfAll(children: seq<Node>, base: string, uri: string): seq<Found>
    decreases children, 0
  {
    if children == [] then []
    else
      Leaves(children[0], Join(base, children[0].name), Join(uri, children[0].name))
      + LeavesOfAll(children[1..], base, uri)
  }

  /** The tree has a leaf at this row of names, with this data. */
  ghost predicate HasLeaf(node: Node, names: seq<string>, data: Option<string>)
    decreases node, 1
  {
    match node
    case Leaf(_, d) => names == [] && data == d
    case Unreadable(_) => names == [] && data == None
    case Dir(_, children) => AmongChildren(children, names, data)
  }

  ghost predicate AmongChildren(children: seq<Node>, names: seq<string>, data: Option<string>)
    decreases children, 0
  {
    names != [] && exists i | 0 <= i < |children| :: children[i].name == names[0] && HasLeaf(children[i], names[1..], data)
  }

  function JoinAll(base: string, names: seq<string>): string
    decreases |names|
  {
    if names == [] then base else JoinAll(Join(base, names[0]), names[1..])
  }

  /** What the walk finds at the leaf with this row of names. */
  function FoundAt(base: string, uri: string, names: seq<string>, data: Option<string>): Found {
    Found(if data.None? then None else Some(LeafFile(JoinAll(base, names), JoinAll(uri, names), data.value)))
  }

  ghost predicate IsFound(node: Node, base: string, uri: string, f: Found) {
    exists names, data :: HasLeaf(node, names, data) && f == FoundAt(base, uri, names, data)
  }

  ghost predicate IsFoundAmong(children: seq<Node>, base: string, uri: string, f: Found) {
    exists names, data :: AmongChildren(children, names, data) && f == FoundAt(base, uri, names, data)
  }

  /** The walk finds every leaf of the tree under the path its names make up, and nothing else. */
  lemma {:induction false} WalkFindsTheLeaves(node: Node, base: string, uri: string, f: Found)
    ensures f in Leaves(node, base, uri) <==> IsFound(node, base, uri, f)
    decreases node, 1
  {
    match node
    case Leaf(_, data) => assert HasLeaf(node, [], data) && (f == FoundAt(base, uri, [], data) <==> f in Leaves(node, base, uri));
    case Unreadable(_) => assert HasLeaf(node, [], None) && (f == FoundAt(base, uri, [], None) <==> f in Leaves(node, base, uri));
    case Dir(_, children) =>
      WalkFindsAmong(children, base, uri, f);
      assert forall names, data :: HasLeaf(node, names, data) <==> AmongChildren(children, names, data);
  }

  lemma {:induction false} WalkFindsAmong(children: seq<Node>, base: string, uri: string, f: Found)
    ensures f in LeavesOfAll(children, base, uri) <==> IsFoundAmong(children, base, uri, f)
    decreases children, 0
  {
    if children != [] {
      var child := children[0];
      WalkFindsTheLeaves(child, Join(base, child.name), Join(uri, child.name), f);
      WalkFindsAmong(children[1..], base, uri, f);
      FoundAmongSplit(children, base, uri, f);
    }
  }

  lemma {:induction false} FoundAmongSplit(children: seq<Node>, base: string, uri: string, f: Found)
    requires children != []
    ensures IsFoundAmong(children, base, uri, f) <==>
              || IsFound(children[0], Join(base, children[0].name), Join(uri, children[0].name), f)
              || IsFoundAmong(children[1..], base, uri, f)
  {
    var child := children[0];
    if IsFound(child, Join(base, child.name), Join(uri, child.name), f) {
      var names, data :| HasLeaf(child, names, data) && f == FoundAt(Join(base, child.name), Join(uri, child.name), names, data);
      assert ([child.name] + names)[1..] == names;
      assert AmongChildren(children, [child.name] + names, data);
      assert f == FoundAt(base, uri, [child.name] + names, data);
    }
    if IsFoundAmong(children[1..], base, uri, f) {
      var names, data :| AmongChildren(children[1..], names, data) && f == FoundAt(base, uri, names, data);
      var i :| 0 <= i < |children[1..]| && children[1..][i].name == names[0] && HasLeaf(children[1..][i], names[1..], data);
      assert children[i + 1] == children[1..][i];
      assert AmongChildren(children, names, data);
    }
    if IsFoundAmong(children, base, uri, f) {
      var names, data :| AmongChildren(children, names, data) && f == FoundAt(base, uri, names, data);
      var i :| 0 <= i < |children| && children[i].name == names[0] && HasLeaf(children[i], names[1..], data);
      if i == 0 {
        assert f == FoundAt(Join(base, child.name), Join(uri, child.name), names[1..], data);
      } else {
        assert children[1..][i - 1] == children[i];
        assert AmongChildren(children[1..], names, data);
      }
    }
  }

  /** Directories are walked in listing order: the leaves of earlier entries come first. */
  lemma {:induction false} ListingOrder(a: seq<Node>, b: seq<Node>, base: string, uri: string)
    ensures LeavesOfAll(a + b, base, uri) == LeavesOfAll(a, base, uri) + LeavesOfAll(b, base, uri)
  {
    if a == [] {
      assert a + b == b;
    } else {
      assert (a + b)[0] == a[0] && (a + b)[1..] == a[1..] + b;
      ListingOrder(a[1..], b, base, uri);
    }
  }

  /** The files before the first failing leaf. */
  function Readable(found: seq<Found>): (files: seq<File>)
    ensures |files| <= |found|
    decreases |found|
  {
    if found == [] || found[0].file.None? then [] else [found[0].file.value] + Readable(found[1..])
  }

  predicate AllReadable(found: seq<Found>) {
    forall i :: 0 <= i < |found| ==> found[i].file.Some?
  }

  /** A fold of replace-or-append over the leaves, left to right, stopping at the first failure. */
  function Install(es: seq<File>, found: seq<Found>): (seq<File>, bool)
    decreases |found|
  {
    if found == [] then (es, true)
    else if found[0].file.None? then (es, false)
    else Install(Upsert(es, found[0].file.value), found[1..])
  }

  lemma {:induction false} InstallAppend(es: seq<File>, a: seq<Found>, b: seq<Found>)
    ensures Install(es, a + b) == if Install(es, a).1 then Install(Install(es, a).0, b) else Install(es, a)
    decreases |a|
  {
    if a == [] {
      assert a + b == b;
    } else if a[0].file.Some? {
      assert (a + b)[1..] == a[1..] + b;
      InstallAppend(Upsert(es, a[0].file.value), a[1..], b);
    }
  }

  lemma {:induction false} UpsertAllCons(es: seq<File>, e: File, add: seq<File>)
    ensures UpsertAll(es, [e] + add) == UpsertAll(Upsert(es, e), add)
  {
    UpsertAllInTwoGoes(es, [e], add);
    assert [e][..0] == [];
  }

  lemma {:induction false} InstallIsUpsertAll(es: seq<File>, found: seq<Found>)
    ensures Install(es, found) == (UpsertAll(es, Readable(found)), AllReadable(found))
    ensures AllReadable(found) ==> |Readable(found)| == |found|
    ensures AllReadable(found) ==> forall i :: 0 <= i < |found| ==> Readable(found)[i] == found[i].file.value
    decreases |found|
  {
    if found != [] && found[0].file.Some? {
      InstallIsUpsertAll(Upsert(es, found[0].file.value), found[1..]);
      UpsertAllCons(es, found[0].file.value, Readable(found[1..]));
      assert AllReadable(found) <==> AllReadable(found[1..]) by {
        assert forall i :: 1 <= i < |found| ==> found[i] == found[1..][i - 1];
        assert forall i :: 0 <= i < |found[1..]| ==> found[1..][i] == found[i + 1];
      }
    }
  }

  /** The last leaf that maps to a path, found or not. */
  function LastLeaf(node: Node, base: string, uri: string, path: string): Option<File> {
    Last(Readable(Leaves(node, base, uri)), path)
  }

  /** After a successful walk every leaf's path holds the last leaf that maps to it, and every
      other path holds what it held before. */
  lemma {:induction false} WalkInstallsLastLeaf(es: seq<File>, node: Node, base: string, uri: string, path: string)
    requires AllReadable(Leaves(node, base, uri))
    ensures var r := Install(es, Leaves(node, base, uri)).0;
            var last := LastLeaf(node, base, uri, path);
            && Lookup(r, path) == (if last.Some? then last else Lookup(es, path))
            && (last.Some? <==> exists f :: f in Leaves(node, base, uri) && f.file.value.key == path)
            && (Distinct(Keys(r)) <==> Distinct(Keys(es)))
  {
    var found := Leaves(node, base, uri);
    var files := Readable(found);
    InstallIsUpsertAll(es, found);
    LookupFindsLastWriter(es, files, path);
    DistinctnessIsKept(es, files);
    LastHasKey(files, path);
    if path in Keys(files) {
      var i :| 0 <= i < |files| && Keys(files)[i] == path;
      assert found[i] in found && found[i].file.value.key == path;
    }
    if f :| f in found && f.file.value.key == path {
      var i :| 0 <= i < |found| && found[i] == f;
      assert Keys(files)[i] == path;
    }
  }

  /** A second walk over the same tree changes nothing. */
  lemma {:induction false} WalkIsIdempotent(es: seq<File>, node: Node, base: string, uri: string)
    ensures Install(Install(es, Leaves(node, base, uri)).0, Leaves(node, base, uri)) == Install(es, Leaves(node, base, uri))
  {
    var found := Leaves(node, base, uri);
    InstallIsUpsertAll(es, found);
    InstallIsUpsertAll(Install(es, found).0, found);
    UpsertAllIsIdempotent(es, Readable(found));
  }

  // ---------------------------------------------------------------- the walk itself

  method AddStorageFiles(files: GoSlice<FileBody>, node: Node, base: string, uri: string) returns (ok: bool)
    requires files.Valid()
    modifies files, files.arr
    ensures files.Valid() && (files.arr == old(files.arr) || fresh(files.arr))
    ensures (files.Contents(), ok) == Install(old(files.Contents()), Leaves(node, base, uri))
    decreases node
  {
    match node
    case Unreadable(_) =>
      return false;
    case Leaf(_, data) =>
      if data.None? {
        return false;
      }
      files.ReplaceOrAppendOne(LeafFile(base, uri, data.value));
      assert Leaves(node, base, uri)[1..] == [];
      return true;
    case Dir(_, children) =>
      for i := 0 to |children|
        invariant files.Valid() && (files.arr == old(files.arr) || fresh(files.arr))
        invariant Install(old(files.Contents()), LeavesOfAll(children, base, uri))
               == Install(files.Contents(), LeavesOfAll(children[i..], base, uri))
      {
        ghost var es := files.Contents();
        var child := children[i];
        LeavesUnfold(es, children, i, base, uri);
        ok := AddStorageFiles(files, child, Join(base, child.name), Join(uri, child.name));
        if !ok {
          return;
        }
      }
      ok := true;
  }

  lemma {:induction false} LeavesUnfold(es: seq<File>, children: seq<Node>, i: nat, base: string, uri: string)
    requires i < |children|
    ensures var first := Install(es, Leaves(children[i], Join(base, children[i].name), Join(uri, children[i].name)));
            Install(es, LeavesOfAll(children[i..], base, uri)) ==
              (if first.1 then Install(first.0, LeavesOfAll(children[i + 1..], base, uri)) else first)
  {
    assert children[i..][0] == children[i] && children[i..][1..] == children[i + 1..];
    InstallAppend(es, Leaves(children[i], Join(base, children[i].name), Join(uri, children[i].name)),
                  LeavesOfAll(children[i + 1..], base, uri));
  }
}
