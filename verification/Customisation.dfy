/**
 `applyInstallConfigCustomisations` of `pkg/installer/custominstallconfig.go` after the graph has
 been resolved: a row of edits of one bootstrap asset, some of them made through the graph and
 some through a reference of the caller's own.

 What the edits add is generated elsewhere and comes in a plan; None stands for a generator that
 fails.  The edits themselves are those of `KeyedList`, `StorageFiles` and `McsCerts`.
 */
module Customisation {
  import opened Wrappers
  import opened KeyedList
  import opened StorageFiles
  import McsCerts

  type Unit = Entry<string>

  /** A manifest: its identity (group, kind, namespace, name), None when it is not readable YAML,
      the override that makes the version operator ignore it, and its ignition file. */
  datatype Manifest = Manifest(identity: Option<string>, override: string, file: File)

  datatype AssetFile = AssetFile(filename: string, data: string)

  /** A cluster version: the overrides it lists, and the rest of it. */
  datatype ClusterVersion = ClusterVersion(overrides: seq<string>, rest: string)

  datatype Plan = Plan(
    mtu: Option<Option<seq<File>>>,                     // None: the feature flag is off
    manifests: Option<seq<Manifest>>,                   // None: there are none
    outputDirectory: bool,                              // it could be created
    readVersion: (ClusterVersion, string) -> Option<ClusterVersion>,   // over what was read before
    writeVersion: ClusterVersion -> Option<string>,
    dnsFiles: Option<seq<File>>, dnsUnits: seq<Unit>,
    dnsConfigs: Option<seq<Option<File>>>,              // failures to marshal one are ignored
    loggingTree: Node, loggingUnits: Option<seq<Unit>>,
    manifestTree: Node,
    hostsFiles: Option<seq<File>>, hostsUnits: seq<Unit>,
    hostsConfigs: Option<seq<File>>,
    dnsManifest: Option<File>,
    pointerFiles: Option<seq<File>>,
    secrets: McsCerts.SecretCodec, apiIntIP: string, keyPair: Option<McsCerts.KeyPair>,
    marshal: (seq<File>, seq<Unit>) -> Option<string>)

  const CVO_OVERRIDES_FILENAME := "manifests/cvo-overrides.yaml"
  const CVO_OVERRIDES_PATH := "/opt/openshift/manifests/cvo-overrides.yaml"
  const MODE_OVERRIDES := 272   // 0420

  // ---------------------------------------------------------------- the files, as a function of the plan

  /** The first two manifests of one identity stop the run; so does an unreadable one. */
  ghost predicate ManifestsUsable(ms: seq<Manifest>) {
    && (forall i :: 0 <= i < |ms| ==> ms[i].identity.Some?)
    && (forall i, j :: 0 <= i < j < |ms| ==> ms[i].identity != ms[j].identity)
  }

  function Overrides(ms: seq<Manifest>): seq<string> {
    seq(|ms|, i requires 0 <= i < |ms| => ms[i].override)
  }

  function ManifestFiles(ms: seq<Manifest>): seq<File> {
    seq(|ms|, i requires 0 <= i < |ms| => ms[i].file)
  }

  /** Every file at the overrides' path is replaced by a new one. */
  function WithOverridesFile(files: seq<File>, data: string): (r: seq<File>)
    ensures Keys(r) == Keys(files)
  {
    seq(|files|, i requires 0 <= i < |files| =>
      if files[i].key == CVO_OVERRIDES_PATH then FileFromBytes(CVO_OVERRIDES_PATH, MODE_OVERRIDES, data) else files[i])
  }

  /** The version asset's files as rewritten, the version as it was last read and extended, and the
      data last written. */
  datatype Rewrite = Rewrite(files: seq<AssetFile>, version: ClusterVersion, data: string)

  const BLANK_VERSION := ClusterVersion([], "")

  /** One file after another: those of the overrides' name get the ignored resources added, and all
      are read into one and the same version.  None if one cannot be read or written. */
  function Rewritten(p: Plan, files: seq<AssetFile>, ignored: seq<string>): Option<Rewrite> {
    if files == [] then Some(Rewrite([], BLANK_VERSION, ""))
    else
      match Rewritten(p, files[..|files| - 1], ignored)
      case None => None
      case Some(w) => RewrittenOne(p, w, files[|files| - 1], ignored)
  }

  function RewrittenOne(p: Plan, w: Rewrite, f: AssetFile, ignored: seq<string>): Option<Rewrite> {
    if f.filename != CVO_OVERRIDES_FILENAME then Some(w.(files := w.files + [f]))
    else
      match p.readVersion(w.version, f.data)
      case None => None
      case Some(v) =>
        var extended := v.(overrides := v.overrides + ignored);
        match p.writeVersion(extended)
        case None => None
        case Some(text) => Some(Rewrite(w.files + [AssetFile(f.filename, text)], extended, text))
  }

  /** The data of the last overrides file, and nothing if there is none. */
  function LastOverrides(files: seq<AssetFile>): string {
    if files == [] then ""
    else if files[|files| - 1].filename == CVO_OVERRIDES_FILENAME then files[|files| - 1].data
    else LastOverrides(files[..|files| - 1])
  }

  /** The text is a written cluster version that lists the ignored resources last. */
  ghost predicate Ignores(p: Plan, text: string, ignored: seq<string>) {
    exists v: ClusterVersion, kept: seq<string> :: p.writeVersion(v) == Some(text) && v.overrides == kept + ignored
  }

  /** What becomes of a file of the version asset. */
  ghost predicate FileRewritten(p: Plan, was: AssetFile, now: AssetFile, ignored: seq<string>) {
    && now.filename == was.filename
    && if was.filename == CVO_OVERRIDES_FILENAME then Ignores(p, now.data, ignored) else now == was
  }

  lemma {:induction false} RewrittenOneIgnores(p: Plan, w: Rewrite, f: AssetFile, ignored: seq<string>)
    requires RewrittenOne(p, w, f, ignored).Some?
    ensures var r := RewrittenOne(p, w, f, ignored).value;
            && |r.files| == |w.files| + 1 && r.files[..|w.files|] == w.files
            && FileRewritten(p, f, r.files[|w.files|], ignored)
            && r.data == if f.filename == CVO_OVERRIDES_FILENAME then r.files[|w.files|].data else w.data
  {
    if f.filename == CVO_OVERRIDES_FILENAME {
      var r := RewrittenOne(p, w, f, ignored).value;
      var v := p.readVersion(w.version, f.data).value;
      assert r.version.overrides == v.overrides + ignored && p.writeVersion(r.version) == Some(r.data);
      assert Ignores(p, r.data, ignored);
    }
  }

  ghost predicate AllRewritten(p: Plan, was: seq<AssetFile>, now: seq<AssetFile>, ignored: seq<string>) {
    |now| == |was| && forall i :: 0 <= i < |was| ==> FileRewritten(p, was[i], now[i], ignored)
  }

  lemma {:induction false} AllRewrittenSnoc(p: Plan, was: seq<AssetFile>, now: seq<AssetFile>, ignored: seq<string>, n: nat)
    requires |was| == |now| == n + 1
    requires AllRewritten(p, was[..n], now[..n], ignored) && FileRewritten(p, was[n], now[n], ignored)
    ensures AllRewritten(p, was, now, ignored)
  {
    forall i | 0 <= i < |was|
      ensures FileRewritten(p, was[i], now[i], ignored)
    {
      if i < n {
        assert was[i] == was[..n][i] && now[i] == now[..n][i];
      }
    }
  }

  /** Every overrides file, and so what goes over the bootstrap's, lists the manifests' resources;
      the other files, all names and the order stay. */
  lemma {:induction false} RewrittenIgnores(p: Plan, files: seq<AssetFile>, ignored: seq<string>)
    requires Rewritten(p, files, ignored).Some?
    ensures var w := Rewritten(p, files, ignored).value;
            AllRewritten(p, files, w.files, ignored) && w.data == LastOverrides(w.files)
  {
    if files != [] {
      var init, f := files[..|files| - 1], files[|files| - 1];
      RewrittenIgnores(p, init, ignored);
      RewrittenOneIgnores(p, Rewritten(p, init, ignored).value, f, ignored);
      AllRewrittenSnoc(p, files, Rewritten(p, files, ignored).value.files, ignored, |init|);
    }
  }

  /** If one file cannot be rewritten, the whole list cannot. */
  lemma {:induction false} RewritingStops(p: Plan, files: seq<AssetFile>, ignored: seq<string>, i: nat)
    requires i <= |files| && Rewritten(p, files[..i], ignored).None?
    ensures Rewritten(p, files, ignored).None?
    decreases |files|
  {
    if i < |files| {
      assert files[..|files| - 1][..i] == files[..i];
      RewritingStops(p, files[..|files| - 1], ignored, i);
    } else {
      assert files[..i] == files;
    }
  }

  function Present(fs: seq<Option<File>>): seq<File> {
    if fs == [] then []
    else (if fs[0].Some? then [fs[0].value] else []) + Present(fs[1..])
  }

  /** The files that are plainly appended before anything is replaced. */
  function Appended(p: Plan): seq<File> {
    MtuFiles(p) + (if p.manifests.Some? then ManifestFiles(p.manifests.value) else [])
  }

  /** The files that are replaced or appended between the manifests and the hosts files. */
  function Replaced(p: Plan): seq<File> {
    (if p.dnsFiles.Some? then p.dnsFiles.value else [])
    + (if p.dnsConfigs.Some? then Present(p.dnsConfigs.value) else [])
    + Readable(Leaves(p.loggingTree, "etc", "etc"))
    + Readable(Leaves(p.manifestTree, "opt", "opt"))
  }

  function Hosts(p: Plan): seq<File> {
    if p.hostsFiles.Some? then p.hostsFiles.value else []
  }

  /** The files that are replaced or appended after the hosts files. */
  function ReplacedLast(p: Plan): seq<File> {
    (if p.hostsConfigs.Some? then p.hostsConfigs.value else [])
    + (if p.dnsManifest.Some? then [p.dnsManifest.value] else [])
    + (if p.pointerFiles.Some? then p.pointerFiles.value else [])
  }

  // ---------------------------------------------------------------- the assets

  class Bootstrap {
    var files: seq<File>
    var units: seq<Unit>
    var data: string

    constructor (files: seq<File>, units: seq<Unit>, data: string)
      ensures this.files == files && this.units == units && this.data == data
    {
      this.files, this.units, this.data := files, units, data;
    }
  }

  class CvoIgnore {
    var fileList: seq<AssetFile>

    constructor (fileList: seq<AssetFile>)
      ensures this.fileList == fileList
    {
      this.fileList := fileList;
    }
  }

  /** The resolved graph, as far as the edits look assets up in it. */
  class Graph {
    const bootstrap: Bootstrap
    const cvoIgnore: CvoIgnore

    constructor (bootstrap: Bootstrap, cvoIgnore: CvoIgnore)
      ensures this.bootstrap == bootstrap && this.cvoIgnore == cvoIgnore
    {
      this.bootstrap, this.cvoIgnore := bootstrap, cvoIgnore;
    }
  }

  // ---------------------------------------------------------------- the edits, one by one

  method MarshalInto(p: Plan, b: Bootstrap) returns (ok: bool)
    modifies b`data
    ensures ok <==> p.marshal(b.files, b.units).Some?
    ensures ok ==> p.marshal(b.files, b.units) == Some(b.data)
  {
    var data := p.marshal(b.files, b.units);
    ok := data.Some?;
    if ok {
      b.data := data.value;
    }
  }

  method OverrideEthernetMTU(p: Plan, g: Graph) returns (ok: bool)
    requires p.mtu.Some?
    modifies g.bootstrap
    ensures ok <==> p.mtu.value.Some? && p.marshal(old(g.bootstrap.files) + p.mtu.value.value, old(g.bootstrap.units)).Some?
    ensures ok ==> g.bootstrap.files == old(g.bootstrap.files) + p.mtu.value.value && g.bootstrap.units == old(g.bootstrap.units)
  {
    var b := g.bootstrap;
    if p.mtu.value.None? {
      return false;
    }
    b.files := b.files + p.mtu.value.value;
    ok := MarshalInto(p, b);
  }

  /** The loop with the `seen` map. */
  method CheckManifests(ms: seq<Manifest>) returns (ok: bool)
    ensures ok <==> ManifestsUsable(ms)
  {
    var seen: set<string> := {};
    for i := 0 to |ms|
      invariant ManifestsUsable(ms[..i])
      invariant forall k :: k in seen <==> exists j :: 0 <= j < i && ms[j].identity == Some(k)
    {
      if ms[i].identity.None? {
        return false;
      }
      if ms[i].identity.value in seen {
        var j :| 0 <= j < i && ms[j].identity == ms[i].identity;
        return false;
      }
      seen := seen + {ms[i].identity.value};
    }
    assert ms[..|ms|] == ms;
    ok := true;
  }

  /** The loop over the version asset's files. */
  method RewriteFiles(p: Plan, c: CvoIgnore, ignored: seq<string>) returns (ok: bool, cvData: string)
    modifies c
    ensures ok <==> Rewritten(p, old(c.fileList), ignored).Some?
    ensures ok ==> Rewritten(p, old(c.fileList), ignored).value.files == c.fileList
    ensures ok ==> Rewritten(p, old(c.fileList), ignored).value.data == cvData
  {
    ghost var was := c.fileList;
    var version := BLANK_VERSION;
    cvData := "";
    for i := 0 to |c.fileList|
      invariant |c.fileList| == |was| && c.fileList[i..] == was[i..]
      invariant Rewritten(p, was[..i], ignored) == Some(Rewrite(c.fileList[..i], version, cvData))
    {
      RewritingStep(p, c.fileList, was, i, ignored);
      if c.fileList[i].filename == CVO_OVERRIDES_FILENAME {
        var read := p.readVersion(version, c.fileList[i].data);
        if read.None? {
          RewritingStops(p, was, ignored, i + 1);
          return false, cvData;
        }
        version := read.value.(overrides := read.value.overrides + ignored);
        var updated := p.writeVersion(version);
        if updated.None? {
          RewritingStops(p, was, ignored, i + 1);
          return false, cvData;
        }
        cvData := updated.value;
        c.fileList := c.fileList[i := AssetFile(c.fileList[i].filename, cvData)];
      }
      assert c.fileList[..i + 1] == c.fileList[..i] + [c.fileList[i]];
    }
    assert was[..|was|] == was && c.fileList[..|was|] == c.fileList;
    ok := true;
  }

  /** The overrides go into the version asset, and what was written there last over the files at
      their path in the bootstrap asset. */
  method AppendFilesToCvoOverrides(p: Plan, g: Graph, ms: seq<Manifest>) returns (ok: bool)
    modifies g.bootstrap`files, g.cvoIgnore
    ensures ok <==> ManifestsUsable(ms) && Rewritten(p, old(g.cvoIgnore.fileList), Overrides(ms)).Some?
    ensures ok ==> g.cvoIgnore.fileList == Rewritten(p, old(g.cvoIgnore.fileList), Overrides(ms)).value.files
    ensures ok ==> g.bootstrap.files == WithOverridesFile(old(g.bootstrap.files), LastOverrides(g.cvoIgnore.fileList))
  {
    ok := CheckManifests(ms);
    if !ok {
      return;
    }
    ghost var was := g.cvoIgnore.fileList;
    var cvData: string;
    ok, cvData := RewriteFiles(p, g.cvoIgnore, Overrides(ms));
    if !ok {
      return;
    }
    RewrittenIgnores(p, was, Overrides(ms));
    var b := g.bootstrap;
    b.files := WithOverridesFile(b.files, cvData);
  }

  lemma {:induction false} RewritingStep(p: Plan, files: seq<AssetFile>, was: seq<AssetFile>, i: nat, ignored: seq<string>)
    requires i < |was| == |files| && files[i..] == was[i..]
    requires Rewritten(p, was[..i], ignored).Some?
    ensures files[i] == was[i]
    ensures Rewritten(p, was[..i + 1], ignored) == RewrittenOne(p, Rewritten(p, was[..i], ignored).value, was[i], ignored)
  {
    assert files[i] == files[i..][0] == was[i..][0] == was[i];
    assert was[..i + 1][..i] == was[..i];
  }

  method AppendFilesToBootstrap(p: Plan, g: Graph, ms: seq<Manifest>) returns (ok: bool)
    modifies g.bootstrap
    ensures ok <==> p.outputDirectory && p.marshal(old(g.bootstrap.files) + ManifestFiles(ms), old(g.bootstrap.units)).Some?
    ensures ok ==> g.bootstrap.files == old(g.bootstrap.files) + ManifestFiles(ms) && g.bootstrap.units == old(g.bootstrap.units)
  {
    if !p.outputDirectory {
      return false;
    }
    var b := g.bootstrap;
    b.files := b.files + ManifestFiles(ms);
    ok := MarshalInto(p, b);
  }

  method CreateDnsmasqFiles(p: Plan, b: Bootstrap) returns (ok: bool)
    modifies b`files, b`units
    ensures ok <==> p.dnsFiles.Some? && p.dnsConfigs.Some?
    ensures ok ==> b.units == UpsertAll(old(b.units), p.dnsUnits)
    ensures ok ==> b.files == UpsertAll(old(b.files), p.dnsFiles.value + Present(p.dnsConfigs.value))
  {
    if p.dnsFiles.None? {
      return false;
    }
    b.files := UpsertAll(b.files, p.dnsFiles.value);
    b.units := UpsertAll(b.units, p.dnsUnits);
    if p.dnsConfigs.None? {
      return false;
    }
    UpsertAllInTwoGoes(b.files, p.dnsFiles.value, Present(p.dnsConfigs.value));
    UpsertAllInTwoGoes(old(b.files), p.dnsFiles.value, Present(p.dnsConfigs.value));
    b.files := UpsertAll(b.files, Present(p.dnsConfigs.value));
    ok := true;
  }

  method AddTree(node: Node, base: string, b: Bootstrap) returns (ok: bool)
    modifies b`files
    ensures ok <==> AllReadable(Leaves(node, base, base))
    ensures b.files == UpsertAll(old(b.files), Readable(Leaves(node, base, base)))
  {
    InstallIsUpsertAll(b.files, Leaves(node, base, base));
    var (files, all) := Install(b.files, Leaves(node, base, base));
    b.files := files;
    ok := all;
  }

  method AppendEtcHostFiles(p: Plan, b: Bootstrap) returns (ok: bool)
    modifies b`files, b`units
    ensures ok <==> p.hostsFiles.Some? && p.hostsConfigs.Some?
    ensures ok ==> b.units == old(b.units) + p.hostsUnits
    ensures ok ==> b.files == UpsertAll(old(b.files) + p.hostsFiles.value, p.hostsConfigs.value)
  {
    if p.hostsFiles.None? {
      return false;
    }
    b.files := b.files + p.hostsFiles.value;
    b.units := b.units + p.hostsUnits;
    if p.hostsConfigs.None? {
      return false;
    }
    b.files := UpsertAll(b.files, p.hostsConfigs.value);
    ok := true;
  }

  /** The DNS manifest and the pointer ignition's user data. */
  method ReplaceGenerated(p: Plan, b: Bootstrap) returns (ok: bool)
    modifies b`files
    ensures ok <==> p.dnsManifest.Some? && p.pointerFiles.Some?
    ensures ok ==> b.files == UpsertAll(old(b.files), [p.dnsManifest.value] + p.pointerFiles.value)
  {
    if p.dnsManifest.None? {
      return false;
    }
    b.files := UpsertAll(b.files, [p.dnsManifest.value]);
    if p.pointerFiles.None? {
      return false;
    }
    UpsertAllInTwoGoes(old(b.files), [p.dnsManifest.value], p.pointerFiles.value);
    b.files := UpsertAll(b.files, p.pointerFiles.value);
    ok := true;
  }

  method UpdateCertificates(p: Plan, g: Graph) returns (ok: bool)
    modifies g.bootstrap`files
    ensures ok <==> McsCerts.Update(p.secrets, old(g.bootstrap.files), p.apiIntIP, p.keyPair).1.Done?
    ensures ok ==> McsCerts.Update(p.secrets, old(g.bootstrap.files), p.apiIntIP, p.keyPair) == (g.bootstrap.files, Done)
  {
    var b := g.bootstrap;
    var (files, status) := McsCerts.Update(p.secrets, b.files, p.apiIntIP, p.keyPair);
    b.files := files;
    ok := status.Done?;
  }

  // ---------------------------------------------------------------- the whole run

  function MtuFiles(p: Plan): seq<File> {
    if p.mtu.Some? && p.mtu.value.Some? then p.mtu.value.value else []
  }

  /** The files after the plain appends, given what was written over the overrides. */
  function AppendedTo(p: Plan, files: seq<File>, overrides: string): seq<File> {
    if p.manifests.Some? then WithOverridesFile(files + MtuFiles(p), overrides) + ManifestFiles(p.manifests.value)
    else files + MtuFiles(p)
  }

  /** The files before the certificates are renewed. */
  function FilesBeforeCerts(p: Plan, files: seq<File>, overrides: string): seq<File> {
    UpsertAll(UpsertAll(AppendedTo(p, files, overrides), Replaced(p)) + Hosts(p), ReplacedLast(p))
  }

  /** The certificates were renewed over the files the edits make. */
  ghost predicate Renewed(p: Plan, before: seq<File>, after: seq<File>, overrides: string) {
    McsCerts.Update(p.secrets, FilesBeforeCerts(p, before, overrides), p.apiIntIP, p.keyPair) == (after, Done)
  }

  /** The manifests went into the version asset as they should. */
  ghost predicate VersionUpdated(p: Plan, before: seq<AssetFile>, after: seq<AssetFile>) {
    if p.manifests.None? then after == before
    else
      && ManifestsUsable(p.manifests.value)
      && Rewritten(p, before, Overrides(p.manifests.value)).Some?
      && after == Rewritten(p, before, Overrides(p.manifests.value)).value.files
  }

  /** What the plain appends need: the MTU files if that flag is on; usable manifests, overrides that can
      be rewritten and the output directory if there are manifests; and each time a config to marshal. */
  ghost predicate AppendsGo(p: Plan, files: seq<File>, units: seq<Unit>, fileList: seq<AssetFile>) {
    && (p.mtu.Some? ==> p.mtu.value.Some? && p.marshal(files + p.mtu.value.value, units).Some?)
    && (p.manifests.Some? ==>
          var rewritten := Rewritten(p, fileList, Overrides(p.manifests.value));
          && ManifestsUsable(p.manifests.value) && rewritten.Some? && p.outputDirectory
          && p.marshal(AppendedTo(p, files, LastOverrides(rewritten.value.files)), units).Some?)
  }

  /** What the edits in between need. */
  predicate ReplacedGo(p: Plan) {
    && p.dnsFiles.Some? && p.dnsConfigs.Some?
    && AllReadable(Leaves(p.loggingTree, "etc", "etc")) && p.loggingUnits.Some?
    && AllReadable(Leaves(p.manifestTree, "opt", "opt"))
  }

  /** What the last edits need. */
  predicate ReplacedLastGo(p: Plan) {
    p.hostsFiles.Some? && p.hostsConfigs.Some? && p.dnsManifest.Some? && p.pointerFiles.Some?
  }

  /** The units after all the edits. */
  function UnitsAfter(p: Plan, units: seq<Unit>): seq<Unit>
    requires ReplacedGo(p)
  {
    UpsertAll(units, p.dnsUnits) + p.loggingUnits.value + p.hostsUnits
  }

  /** What the whole run needs: all of that, certificates that can be renewed, and a final config to
      marshal. */
  ghost predicate RunGoes(p: Plan, files: seq<File>, units: seq<Unit>, fileList: seq<AssetFile>) {
    && AppendsGo(p, files, units, fileList) && ReplacedGo(p) && ReplacedLastGo(p)
    && var overrides := LastOverrides(ListAfter(p, fileList));
       var renewed := McsCerts.Update(p.secrets, FilesBeforeCerts(p, files, overrides), p.apiIntIP, p.keyPair);
       renewed.1.Done? && p.marshal(renewed.0, UnitsAfter(p, units)).Some?
  }

  /** The version asset's files after the run. */
  function ListAfter(p: Plan, fileList: seq<AssetFile>): seq<AssetFile> {
    if p.manifests.None? || Rewritten(p, fileList, Overrides(p.manifests.value)).None? then fileList
    else Rewritten(p, fileList, Overrides(p.manifests.value)).value.files
  }

  method ApplyAppends(p: Plan, g: Graph) returns (ok: bool)
    modifies g.bootstrap, g.cvoIgnore
    ensures ok <==> AppendsGo(p, old(g.bootstrap.files), old(g.bootstrap.units), old(g.cvoIgnore.fileList))
    ensures ok ==> g.bootstrap.units == old(g.bootstrap.units) && g.cvoIgnore.fileList == ListAfter(p, old(g.cvoIgnore.fileList))
    ensures ok ==> VersionUpdated(p, old(g.cvoIgnore.fileList), g.cvoIgnore.fileList)
    ensures ok ==> g.bootstrap.files == AppendedTo(p, old(g.bootstrap.files), LastOverrides(g.cvoIgnore.fileList))
  {
    if p.mtu.Some? {
      ok := OverrideEthernetMTU(p, g);
      if !ok { return; }
    }
    ghost var mtu := MtuFiles(p);
    assert g.bootstrap.files == old(g.bootstrap.files) + mtu;
    if p.manifests.Some? {
      ok := AppendFilesToCvoOverrides(p, g, p.manifests.value);
      if !ok { return; }
      ok := AppendFilesToBootstrap(p, g, p.manifests.value);
      if !ok { return; }
    }
    ok := true;
  }

  method ApplyReplaced(p: Plan, b: Bootstrap) returns (ok: bool)
    modifies b`files, b`units
    ensures ok <==> ReplacedGo(p)
    ensures ok ==> b.units == UpsertAll(old(b.units), p.dnsUnits) + p.loggingUnits.value
    ensures ok ==> b.files == UpsertAll(old(b.files), Replaced(p))
  {
    ghost var logging, manifests := Readable(Leaves(p.loggingTree, "etc", "etc")), Readable(Leaves(p.manifestTree, "opt", "opt"));
    ok := CreateDnsmasqFiles(p, b);
    if !ok { return; }
    ghost var dns := p.dnsFiles.value + Present(p.dnsConfigs.value);
    ok := AddTree(p.loggingTree, "etc", b);
    if !ok { return; }
    UpsertAllInTwoGoes(old(b.files), dns, logging);
    if p.loggingUnits.None? {
      return false;
    }
    b.units := b.units + p.loggingUnits.value;
    ok := AddTree(p.manifestTree, "opt", b);
    UpsertAllInTwoGoes(old(b.files), dns + logging, manifests);
  }

  method ApplyReplacedLast(p: Plan, b: Bootstrap) returns (ok: bool)
    modifies b`files, b`units
    ensures ok <==> ReplacedLastGo(p)
    ensures ok ==> b.units == old(b.units) + p.hostsUnits
    ensures ok ==> b.files == UpsertAll(old(b.files) + Hosts(p), ReplacedLast(p))
  {
    ghost var before := b.files + Hosts(p);
    ok := AppendEtcHostFiles(p, b);
    if !ok { return; }
    assert b.files == UpsertAll(before, p.hostsConfigs.value);
    ok := ReplaceGenerated(p, b);
    if !ok { return; }
    LastInTwoGoes(p, before);
  }

  lemma {:induction false} LastInTwoGoes(p: Plan, files: seq<File>)
    requires p.hostsConfigs.Some? && p.dnsManifest.Some? && p.pointerFiles.Some?
    ensures UpsertAll(UpsertAll(files, p.hostsConfigs.value), [p.dnsManifest.value] + p.pointerFiles.value)
         == UpsertAll(files, ReplacedLast(p))
  {
    var generated := [p.dnsManifest.value] + p.pointerFiles.value;
    UpsertAllInTwoGoes(files, p.hostsConfigs.value, generated);
    assert p.hostsConfigs.value + generated == ReplacedLast(p);
  }

  /** The run from the resolved graph on.  However the edits were made, through the graph or through
      the caller's reference, the bootstrap data is the marshalled final config. */
  method ApplyCustomisations(p: Plan, g: Graph) returns (ok: bool)
    modifies g.bootstrap, g.cvoIgnore
    ensures ok <==> RunGoes(p, old(g.bootstrap.files), old(g.bootstrap.units), old(g.cvoIgnore.fileList))
    ensures ok ==> p.marshal(g.bootstrap.files, g.bootstrap.units) == Some(g.bootstrap.data)
    ensures ok ==> g.bootstrap.units == UnitsAfter(p, old(g.bootstrap.units))
    ensures ok ==> VersionUpdated(p, old(g.cvoIgnore.fileList), g.cvoIgnore.fileList)
    ensures ok ==> Renewed(p, old(g.bootstrap.files), g.bootstrap.files, LastOverrides(g.cvoIgnore.fileList))
  {
    ok := ApplyAppends(p, g);
    ghost var overrides := LastOverrides(g.cvoIgnore.fileList);
    if !ok { return; }
    var bootstrapAsset := g.bootstrap;
    ok := ApplyReplaced(p, bootstrapAsset);
    if !ok { return; }
    ok := ApplyReplacedLast(p, bootstrapAsset);
    if !ok { return; }
    assert bootstrapAsset.files == FilesBeforeCerts(p, old(g.bootstrap.files), overrides);
    ok := UpdateCertificates(p, g);
    if !ok { return; }
    assert Renewed(p, old(g.bootstrap.files), g.bootstrap.files, overrides);
    ok := MarshalInto(p, bootstrapAsset);
  }

  // ---------------------------------------------------------------- distinct paths

  lemma {:induction false} KeysAppend(a: seq<File>, b: seq<File>)
    ensures Keys(a + b) == Keys(a) + Keys(b)
  {
  }

  lemma {:induction false} RenewalKeepsKeys(codec: McsCerts.SecretCodec, files: seq<File>, pair: McsCerts.KeyPair)
    ensures Keys(McsCerts.UpdateAll(codec, files, pair).0) == Keys(files)
    decreases |files|
  {
    if files != [] && McsCerts.UpdatedSource(codec, files[0], pair).Success? {
      RenewalKeepsKeys(codec, files[1..], pair);
      var source := McsCerts.UpdatedSource(codec, files[0], pair).value;
      var rest := McsCerts.UpdateAll(codec, files[1..], pair).0;
      KeysAppend([McsCerts.WithSource(files[0], source)], rest);
      KeysAppend([files[0]], files[1..]);
      assert files == [files[0]] + files[1..];
    }
  }

  lemma {:induction false} AppendedKeys(p: Plan, before: seq<File>, overrides: string)
    ensures Keys(AppendedTo(p, before, overrides)) == Keys(before + Appended(p))
  {
    var mtu := before + MtuFiles(p);
    if p.manifests.Some? {
      var manifests := ManifestFiles(p.manifests.value);
      KeysAppend(WithOverridesFile(mtu, overrides), manifests);
      KeysAppend(mtu, manifests);
      assert before + Appended(p) == mtu + manifests;
    } else {
      assert before + Appended(p) == mtu;
    }
  }

  /** Exactly when a successful run leaves all file paths distinct: when the initial paths and those
      plainly appended at first were distinct, and the hosts files' paths are distinct and new to
      everything before them.  Nothing that is replaced or appended matters otherwise. */
  lemma {:induction false} PathsDistinctIff(p: Plan, before: seq<File>, after: seq<File>, overrides: string)
    requires Renewed(p, before, after, overrides)
    ensures Distinct(Keys(after)) <==>
              && Distinct(Keys(before + Appended(p)))
              && Distinct(Keys(Hosts(p)))
              && Disjoint(Keys(before + Appended(p) + Replaced(p)), Keys(Hosts(p)))
  {
    if |p.apiIntIP| > 0 && p.keyPair.Some? {
      RenewalKeepsKeys(p.secrets, FilesBeforeCerts(p, before, overrides), p.keyPair.value);
    }
    var appended := AppendedTo(p, before, overrides);
    AppendedKeys(p, before, overrides);
    EditsKeepDistinctIff(p, appended);
    DistinctnessIsKept(appended, Replaced(p));
    UpsertedKeys(appended, Replaced(p));
    KeysAppend(before + Appended(p), Replaced(p));
    DisjointFromSame(Keys(UpsertAll(appended, Replaced(p))), Keys(before + Appended(p) + Replaced(p)), Keys(Hosts(p)));
  }

  /** Replace-or-append leaves the old paths and the added ones, and no others. */
  lemma {:induction false} UpsertedKeys(es: seq<File>, add: seq<File>)
    ensures forall k :: k in Keys(UpsertAll(es, add)) <==> k in Keys(es) + Keys(add)
  {
    UpsertAllIsMerged(es, add);
    MergedKeys(es, add, UpsertAll(es, add));
    FreshMembers(Keys(es), Keys(add));
  }

  lemma {:induction false} DisjointFromSame(a: seq<string>, b: seq<string>, c: seq<string>)
    requires forall k :: k in a <==> k in b
    ensures Disjoint(a, c) <==> Disjoint(b, c)
  {
    DisjointIff(a, c);
    DisjointIff(b, c);
  }

  lemma {:induction false} DisjointIff(a: seq<string>, c: seq<string>)
    ensures Disjoint(a, c) <==> forall k :: k in a ==> k !in c
  {
    if k :| k in a && k in c {
      var i :| 0 <= i < |a| && a[i] == k;
      var j :| 0 <= j < |c| && c[j] == k;
      assert a[i] == c[j];
    }
    if !Disjoint(a, c) {
      var i, j :| 0 <= i < |a| && 0 <= j < |c| && a[i] == c[j];
      assert a[i] in a && a[i] in c;
    }
  }

  lemma {:induction false} EditsKeepDistinctIff(p: Plan, appended: seq<File>)
    ensures Distinct(Keys(UpsertAll(UpsertAll(appended, Replaced(p)) + Hosts(p), ReplacedLast(p)))) <==>
              && Distinct(Keys(UpsertAll(appended, Replaced(p))))
              && Distinct(Keys(Hosts(p)))
              && Disjoint(Keys(UpsertAll(appended, Replaced(p))), Keys(Hosts(p)))
  {
    var replaced := UpsertAll(appended, Replaced(p));
    DistinctnessIsKept(replaced + Hosts(p), ReplacedLast(p));
    KeysAppend(replaced, Hosts(p));
    DistinctAppend(Keys(replaced), Keys(Hosts(p)));
  }

  /** A hosts file at a path that is taken makes a second file of that path, and nothing that is
      replaced or appended later removes it. */
  lemma {:induction false} TakenPathStaysDouble(p: Plan, before: seq<File>, after: seq<File>, overrides: string, k: string)
    requires Renewed(p, before, after, overrides)
    requires k in Keys(before) && k in Keys(Hosts(p))
    ensures !Distinct(Keys(after))
  {
    PathsDistinctIff(p, before, after, overrides);
    var i :| 0 <= i < |before| && Keys(before)[i] == k;
    assert Keys(before + Appended(p) + Replaced(p))[i] == k;
  }

  // ---------------------------------------------------------------- who provides a file

  /** The first manifest with a file at this path. */
  function FirstManifest(ms: seq<Manifest>, k: string): Option<File> {
    if ms == [] then None
    else if ms[0].file.key == k then Some(ms[0].file)
    else FirstManifest(ms[1..], k)
  }

  /** The last config with this path among those that could be marshalled. */
  function LastPresent(fs: seq<Option<File>>, k: string): Option<File> {
    if fs == [] then None
    else if fs[|fs| - 1].Some? && fs[|fs| - 1].value.key == k then fs[|fs| - 1]
    else LastPresent(fs[..|fs| - 1], k)
  }

  function Or<T>(first: Option<T>, second: Option<T>): Option<T> {
    if first.Some? then first else second
  }

  /** What stands at a path before anything is replaced: the first file there, of the initial ones, the
      MTU files and the manifests.  One of the first two at the overrides' path has become the overrides. */
  function PlainProvider(p: Plan, before: seq<File>, overrides: string, k: string): Option<File> {
    var early := Or(Lookup(before, k), if p.mtu.Some? && p.mtu.value.Some? then Lookup(p.mtu.value.value, k) else None);
    if p.manifests.None? then early
    else if early.Some? then
      if k == "/opt/openshift/manifests/cvo-overrides.yaml"
      then Some(Entry(k, FileBody(272, true, Some(overrides), [])))
      else early
    else FirstManifest(p.manifests.value, k)
  }

  /** Whose file a path holds before the certificates are renewed.  The later an edit, the stronger;
      but the hosts files, plainly appended, come behind everything before them. */
  function Provider(p: Plan, before: seq<File>, overrides: string, k: string): Option<File>
    requires ReplacedGo(p) && ReplacedLastGo(p)
  {
    var replaced :=
      Or(LastLeaf(p.manifestTree, "opt", "opt", k),
         Or(LastLeaf(p.loggingTree, "etc", "etc", k),
            Or(LastPresent(p.dnsConfigs.value, k), Last(p.dnsFiles.value, k))));
    Or(Last(p.pointerFiles.value, k),
       Or(if p.dnsManifest.value.key == k then p.dnsManifest else None,
          Or(Last(p.hostsConfigs.value, k),
             Or(replaced, Or(PlainProvider(p, before, overrides, k), Lookup(p.hostsFiles.value, k))))))
  }

  lemma {:induction false} LookupAppend(a: seq<File>, b: seq<File>, k: string)
    ensures Lookup(a + b, k) == Or(Lookup(a, k), Lookup(b, k))
  {
    KeysAppend(a, b);
    IndexOfAppend(Keys(a), Keys(b), k);
    IndexOfMember(Keys(a), k);
  }

  lemma {:induction false} LastAppend(a: seq<File>, b: seq<File>, k: string)
    ensures Last(a + b, k) == Or(Last(b, k), Last(a, k))
  {
    if b == [] {
      assert a + b == a;
    } else {
      assert (a + b)[..|a + b| - 1] == a + b[..|b| - 1];
      LastAppend(a, b[..|b| - 1], k);
    }
  }

  lemma {:induction false} PresentAppend(a: seq<Option<File>>, b: seq<Option<File>>)
    ensures Present(a + b) == Present(a) + Present(b)
  {
    if a == [] {
      assert a + b == b;
    } else {
      assert (a + b)[0] == a[0] && (a + b)[1..] == a[1..] + b;
      PresentAppend(a[1..], b);
    }
  }

  lemma {:induction false} LastOfPresent(fs: seq<Option<File>>, k: string)
    ensures Last(Present(fs), k) == LastPresent(fs, k)
  {
    if fs != [] {
      var init, f := fs[..|fs| - 1], fs[|fs| - 1];
      LastOfPresent(init, k);
      assert fs == init + [f] && [f][1..] == [];
      PresentAppend(init, [f]);
      LastAppend(Present(init), Present([f]), k);
      if f.Some? {
        assert Present([f]) == [f.value] && [f.value][..0] == [];
      }
    }
  }

  lemma {:induction false} LookupOfManifests(ms: seq<Manifest>, k: string)
    ensures Lookup(ManifestFiles(ms), k) == FirstManifest(ms, k)
  {
    if ms != [] {
      assert ManifestFiles(ms) == [ms[0].file] + ManifestFiles(ms[1..]);
      LookupAppend([ms[0].file], ManifestFiles(ms[1..]), k);
      LookupOfManifests(ms[1..], k);
      assert Keys([ms[0].file]) == [ms[0].file.key];
    }
  }

  lemma {:induction false} LookupWithOverrides(files: seq<File>, data: string, k: string)
    ensures Lookup(WithOverridesFile(files, data), k) ==
              if k == "/opt/openshift/manifests/cvo-overrides.yaml" && Lookup(files, k).Some?
              then Some(Entry(k, FileBody(272, true, Some(data), []))) else Lookup(files, k)
  {
    assert Keys(WithOverridesFile(files, data)) == Keys(files);
    var i := IndexOf(Keys(files), k);
    assert i < |files| ==> files[i].key == k;
  }

  lemma {:induction false} PlainFiles(p: Plan, before: seq<File>, overrides: string, k: string)
    ensures Lookup(AppendedTo(p, before, overrides), k) == PlainProvider(p, before, overrides, k)
  {
    var mtu := before + MtuFiles(p);
    LookupAppend(before, MtuFiles(p), k);
    if p.manifests.Some? {
      LookupAppend(WithOverridesFile(mtu, overrides), ManifestFiles(p.manifests.value), k);
      LookupWithOverrides(mtu, overrides, k);
      LookupOfManifests(p.manifests.value, k);
    }
  }

  lemma {:induction false} LastReplaced(p: Plan, k: string)
    requires ReplacedGo(p)
    ensures Last(Replaced(p), k) ==
              Or(LastLeaf(p.manifestTree, "opt", "opt", k),
                 Or(LastLeaf(p.loggingTree, "etc", "etc", k),
                    Or(LastPresent(p.dnsConfigs.value, k), Last(p.dnsFiles.value, k))))
  {
    var dns, configs := p.dnsFiles.value, Present(p.dnsConfigs.value);
    var logging, manifests := Readable(Leaves(p.loggingTree, "etc", "etc")), Readable(Leaves(p.manifestTree, "opt", "opt"));
    assert Replaced(p) == dns + configs + logging + manifests;
    LastAppend(dns + configs + logging, manifests, k);
    LastAppend(dns + configs, logging, k);
    LastAppend(dns, configs, k);
    LastOfPresent(p.dnsConfigs.value, k);
  }

  lemma {:induction false} LastOfReplacedLast(p: Plan, k: string)
    requires ReplacedLastGo(p)
    ensures Last(ReplacedLast(p), k) ==
              Or(Last(p.pointerFiles.value, k),
                 Or(if p.dnsManifest.value.key == k then p.dnsManifest else None, Last(p.hostsConfigs.value, k)))
  {
    var configs, manifest, pointers := p.hostsConfigs.value, [p.dnsManifest.value], p.pointerFiles.value;
    assert ReplacedLast(p) == configs + manifest + pointers;
    LastAppend(configs + manifest, pointers, k);
    LastAppend(configs, manifest, k);
    assert manifest[..0] == [];
  }

  lemma {:induction false} FilesBeforeCertsHaveProviders(p: Plan, before: seq<File>, overrides: string, k: string)
    requires ReplacedGo(p) && ReplacedLastGo(p)
    ensures Lookup(FilesBeforeCerts(p, before, overrides), k) == Provider(p, before, overrides, k)
  {
    var appended := AppendedTo(p, before, overrides);
    var replaced := UpsertAll(appended, Replaced(p));
    PlainFiles(p, before, overrides, k);
    LookupFindsLastWriter(appended, Replaced(p), k);
    LastReplaced(p, k);
    LookupAppend(replaced, Hosts(p), k);
    LookupFindsLastWriter(replaced + Hosts(p), ReplacedLast(p), k);
    LastOfReplacedLast(p, k);
  }

  lemma {:induction false} LookupCarries(codec: McsCerts.SecretCodec, files: seq<File>, renewed: seq<File>, pair: McsCerts.KeyPair, k: string)
    requires |renewed| == |files| && forall i :: 0 <= i < |files| ==> McsCerts.Carries(codec, files[i], renewed[i], pair)
    ensures Lookup(renewed, k).Some? <==> Lookup(files, k).Some?
    ensures Lookup(files, k).Some? ==> McsCerts.Carries(codec, Lookup(files, k).value, Lookup(renewed, k).value, pair)
  {
    assert Keys(renewed) == Keys(files) by {
      forall i | 0 <= i < |files|
        ensures Keys(renewed)[i] == Keys(files)[i]
      {
        assert McsCerts.Carries(codec, files[i], renewed[i], pair);
      }
    }
  }

  /** After a successful run every path holds its provider's file and no other, with the renewed
      key pair in it where it is one of the certificate's files. */
  lemma {:induction false} EveryFileHasItsProvider(p: Plan, before: seq<File>, after: seq<File>, overrides: string, k: string)
    requires ReplacedGo(p) && ReplacedLastGo(p) && Renewed(p, before, after, overrides) && McsCerts.RoundTrips(p.secrets)
    ensures var provided, found := Provider(p, before, overrides, k), Lookup(after, k);
            if p.apiIntIP == "" then found == provided
            else
              && (found.Some? <==> provided.Some?)
              && (found.Some? ==> p.keyPair.Some? && McsCerts.Carries(p.secrets, provided.value, found.value, p.keyPair.value))
  {
    var files := FilesBeforeCerts(p, before, overrides);
    FilesBeforeCertsHaveProviders(p, before, overrides, k);
    McsCerts.RenewalOutcome(p.secrets, files, p.apiIntIP, p.keyPair);
    if p.apiIntIP != "" {
      LookupCarries(p.secrets, files, after, p.keyPair.value, k);
    }
  }

  /** The overrides list what every single manifest has to say. */
  lemma {:induction false} EveryManifestIsIgnored(p: Plan, fileList: seq<AssetFile>, ms: seq<Manifest>, i: nat, j: nat)
    requires Rewritten(p, fileList, Overrides(ms)).Some? && i < |ms| && j < |fileList|
    requires fileList[j].filename == "manifests/cvo-overrides.yaml"
    ensures var w := Rewritten(p, fileList, Overrides(ms)).value;
            && |w.files| == |fileList|
            && exists v: ClusterVersion :: p.writeVersion(v) == Some(w.files[j].data) && ms[i].override in v.overrides
  {
    var w := Rewritten(p, fileList, Overrides(ms)).value;
    RewrittenIgnores(p, fileList, Overrides(ms));
    assert FileRewritten(p, fileList[j], w.files[j], Overrides(ms));
    var v: ClusterVersion, kept: seq<string> :| p.writeVersion(v) == Some(w.files[j].data) && v.overrides == kept + Overrides(ms);
    assert v.overrides[|kept| + i] == ms[i].override;
  }
}
