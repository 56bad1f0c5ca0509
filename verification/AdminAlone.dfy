/**
 A documented run that the verifier accepts although a source package is held against nothing in it:
 honua-admin is installed from source, and honua-sdk, which it needs, from the index.
 */
module AdminAlone {
  import opened Common
  import opened InstallLineage
  import opened UndeclaredSources
  import opened PlainInstalls
  import Site = SiteCensus
  import Closure = DependencyClosure

  // ---- honua-admin from source, honua-sdk from the index ------------------------------------------------

  /** What a run of `pip install packages/honua-admin` meets. */
  datatype Documents = Documents(
    word: string, pin: string, tool: Artifact, index: Artifact, backend: Install, admin: Install, sdk: Install)

  /** The facts of such a run that the verifier's setting has to supply. */
  ghost predicate Documented(c: Setting, t: Documents) {
    NamesAdmin(c, t) && PinsBackend(c, t) && IndexHasSdk(c, t) && Installed(c, t)
  }

  /** The word names the source of honua-admin, which is not installed editable. */
  ghost predicate NamesAdmin(c: Setting, t: Documents) {
    && c.packages == map[t.admin.name := t.admin.version, t.sdk.name := t.sdk.version]
    && (forall x | x in {t.backend, t.admin, t.sdk} :: c.engine.canonical(x.name) == x.name)
    && c.sourceTarget(t.word) == Some(t.admin.name) && c.isFileUrl(c.sourceUrl(t.admin.name))
    && t.admin.direct == Some(Site.DirectUrl(c.sourceUrl(t.admin.name), false))
    && t.admin.name in c.sourceWheels && c.sourceWheels[t.admin.name] == WheelOf(t.admin)
  }

  /** The backend is one captured wheel without dependencies, pinned among the roots. */
  ghost predicate PinsBackend(c: Setting, t: Documents) {
    && c.backend == [t.tool] && t.tool.name == t.backend.name && t.tool.version == t.backend.version
    && t.tool.requiresDist == [] && Closure.Authentic(c.engine, t.tool, c.warehouse)
    && c.roots([Invocation([t.word], [false])]) == Some([t.pin]) && Pins(c.engine, t.pin, t.tool)
    && c.unzip(c.warehouse[t.tool.filename]) == WheelOf(t.backend) && t.backend.direct.None?
  }

  /** honua-sdk comes from the index. */
  ghost predicate IndexHasSdk(c: Setting, t: Documents) {
    && t.index.name == t.sdk.name && t.index.version == t.sdk.version
    && !c.isFileUrl(t.index.origin) && c.engine.originFilename(t.index.origin).Some?
  }

  /** pip installed the wheels beside one another. */
  ghost predicate Installed(c: Setting, t: Documents) {
    && c.lab.pathsBound(c.owned.site, c.owned.python)
    && WrittenByPip(c.lab, t.backend) && WrittenByPip(c.lab, t.admin)
    && Recorded(c.lab, t.backend) && Recorded(c.lab, t.admin) && Recorded(c.lab, t.sdk)
    && SideBySide(c.lab, c.owned, [t.backend, t.admin, t.sdk]) && SideBySide(c.lab, c.owned, [t.backend])
    && c.initial == Inventoried(c.lab, c.owned, [t.backend])
  }

  /** A requirement that the artifact alone satisfies. */
  ghost predicate Pins(e: Closure.Engine, pin: string, a: Artifact) {
    && e.parse(pin).Some?
    && var r := e.parse(pin).value;
       && e.canonical(r.name) == a.name && r.extras == {} && r.url == "" && r.marker.None?
       && e.admits(r.specifier, a.version)
  }

  lemma PinnedIsComplete(e: Closure.Engine, pin: string, a: Artifact)
    requires Pins(e, pin, a) && a.requiresDist == []
    ensures Closure.Complete(e, Closure.ByName([a]), [pin])
  {
    var installed, node := Closure.ByName([a]), Closure.Node(a.name, "");
    assert [a][0] in [a] && installed.Keys == {a.name} && installed[a.name] == a;
    var d := Closure.Demand(e.parse(pin).value, "");
    assert Closure.Demands(e, [pin], "") == {d};
    assert Closure.IsRoot(e, [pin], node) by {
      assert d in Closure.Demands(e, [pin], "") && Closure.Selects(e, d, node);
    }
    assert Closure.Closed(e, installed, [pin], {node});
    Closure.ReachedIsLeast(e, installed, [pin], {node});
    Closure.ReachedIsClosed(e, installed, [pin]);
  }

  function AdminItem(c: Setting, admin: Install): Item {
    Item(admin.name, admin.version, c.sourceUrl(admin.name), "", admin.direct)
  }

  /** The resolver takes honua-sdk from the index; the offline report says nothing of it. */
  ghost function AdminRun(c: Setting, t: Documents): Context
    requires SideBySide(c.lab, c.owned, [t.backend, t.admin, t.sdk])
  {
    var source, item := c.expectedSource, AdminItem(c, t.admin);
    Context(c, [Invocation([t.word], [false])],
            [Step(source, source, source, c.initial, Inventoried(c.lab, c.owned, [t.backend, t.admin, t.sdk]),
                  [t.backend.name, t.admin.name, t.sdk.name],
                  c.head, [item, Item(t.sdk.name, t.sdk.version, t.index.origin, t.index.sha256, None)], c.head, [item],
                  [t.index], [t.tool], [t.pin])])
  }

  lemma AdminNames(c: Setting, t: Documents)
    requires Documented(c, t)
    ensures t.backend.name != t.admin.name && t.backend.name != t.sdk.name && t.admin.name != t.sdk.name
    ensures ExpectedSources(c, Invocation([t.word], [false]))
         == map[t.admin.name := Source(t.admin.direct.value, t.admin.version)]
  {
    hide FilesOf, WrittenByPip, Recorded, Inventoried, Pins, Closure.Authentic;
    assert SideBySide(c.lab, c.owned, [t.backend, t.admin, t.sdk]);
    var installs := [t.backend, t.admin, t.sdk];
    assert installs[0].name != installs[1].name && installs[0].name != installs[2].name;
    assert installs[1].name != installs[2].name;
    var inv := Invocation([t.word], [false]);
    assert SourcePairs(c, inv, 0) == [];
    assert SourcePairs(c, inv, 1) == [(t.admin.name, Source(t.admin.direct.value, t.admin.version))];
    DictOfTwo(t.admin.name, Source(t.admin.direct.value, t.admin.version), "", Source(t.admin.direct.value, ""));
  }

  lemma AdminReports(c: Setting, t: Documents)
    requires Documented(c, t)
    ensures var s, expected := AdminRun(c, t).steps[0], ExpectedSources(c, Invocation([t.word], [false]));
      && ReportOk(c, s.resolverHead, s.resolver, expected, false)
      && ReportOk(c, s.installedHead, s.installed, expected, true)
      && Remotes(c, s.resolver) == [s.resolver[1]] && Remotes(c, s.installed) == []
  {
    hide FilesOf, WrittenByPip, Recorded, Inventoried, Pins, Closure.Authentic, SideBySide, ExpectedSources;
    AdminNames(c, t);
    var s := AdminRun(c, t).steps[0];
    var expected, item := ExpectedSources(c, Invocation([t.word], [false])), AdminItem(c, t.admin);
    var other := s.resolver[1];
    assert IsLocal(c, item) && !IsLocal(c, other);
    assert ItemOk(c, item, expected, false) && ItemOk(c, other, expected, false) && ItemOk(c, item, expected, true);
    assert item in s.resolver && item in s.installed;
    assert LocalNames(c, s.resolver) == {t.admin.name} && LocalNames(c, s.installed) == {t.admin.name};
    assert s.resolver[..1] == [item] && [item][..0] == [];
    assert Remotes(c, []) == [] && Remotes(c, [item]) == [];
  }

  lemma AdminDelta(c: Setting, t: Documents)
    requires Documented(c, t)
    ensures Delta(c, AdminRun(c, t).steps[0].resolver)
         == map[t.admin.name := t.admin.version, t.sdk.name := t.sdk.version]
    ensures BackendVersions(c.backend) == map[t.backend.name := t.backend.version]
    ensures ArtifactIdentities([t.index]) == RemoteIdentities(c, [AdminRun(c, t).steps[0].resolver[1]])
  {
    hide FilesOf, WrittenByPip, Recorded, Pins, Closure.Authentic, SideBySide, Inventoried;
    var items, artifacts := AdminRun(c, t).steps[0].resolver, c.backend;
    var pairs := seq(|items|, i requires 0 <= i < |items| => (NameOf(c, items[i]), items[i].version));
    assert pairs == [(t.admin.name, t.admin.version), (t.sdk.name, t.sdk.version)];
    DictOfTwo(t.admin.name, t.admin.version, t.sdk.name, t.sdk.version);
    var versions := seq(|artifacts|, i requires 0 <= i < |artifacts| => (artifacts[i].name, artifacts[i].version));
    assert versions == [(t.backend.name, t.backend.version)];
    DictOfTwo(t.backend.name, t.backend.version, "", "");
    var remotes, captured := [items[1]], [t.index];
    assert seq(|remotes|, i requires 0 <= i < |remotes| =>
      (NameOf(c, remotes[i]), (remotes[i].version, remotes[i].url, remotes[i].sha256)))
      == seq(|captured|, i requires 0 <= i < |captured| =>
           (captured[i].name, (captured[i].version, captured[i].origin, captured[i].sha256)));
  }

  lemma VersionsOfOne(inventory: Inventory, d: string)
    requires inventory.Keys == {d}
    ensures Versions(inventory) == map[d := inventory[d].version]
  {
  }

  lemma VersionsOfThree(inventory: Inventory, d: string, e: string, f: string)
    requires inventory.Keys == {d, e, f} && d != e && d != f && e != f
    ensures Versions(inventory)
         == map[d := inventory[d].version] + map[e := inventory[e].version, f := inventory[f].version]
  {
    var versions := map[d := inventory[d].version] + map[e := inventory[e].version, f := inventory[f].version];
    assert Versions(inventory).Keys == versions.Keys == {d, e, f};
    forall x | x in versions ensures Versions(inventory)[x] == versions[x] {
      assert x == d || x == e || x == f;
    }
  }

  lemma AdminVersions(c: Setting, t: Documents)
    requires Documented(c, t)
    ensures var s := AdminRun(c, t).steps[0];
      && Versions(c.initial) == map[t.backend.name := t.backend.version]
      && Versions(s.after) == Versions(c.initial) + Delta(c, s.resolver)
      && s.after.Keys == {t.backend.name, t.admin.name, t.sdk.name}
      && s.after[t.backend.name].version == t.backend.version && s.after[t.admin.name].directUrl == t.admin.direct
  {
    hide FilesOf, WrittenByPip, Recorded, Pins, Closure.Authentic, SideBySide, Inventoried, Delta, BackendVersions,
         ArtifactIdentities, RemoteIdentities, Versions;
    AdminNames(c, t);
    AdminDelta(c, t);
    OneInventoried(c.lab, c.owned, t.backend);
    ThreeInventoried(c.lab, c.owned, t.backend, t.admin, t.sdk);
    VersionsOfOne(c.initial, t.backend.name);
    VersionsOfThree(Inventoried(c.lab, c.owned, [t.backend, t.admin, t.sdk]), t.backend.name, t.admin.name, t.sdk.name);
  }

  lemma AdminBackend(c: Setting, t: Documents)
    requires Documented(c, t)
    ensures WheelArchives(c, [t.tool]) == Some([(t.backend.name, WheelOf(t.backend))])
  {
    hide FilesOf, WrittenByPip, Recorded, Pins, SideBySide, Inventoried;
    var artifacts := [t.tool];
    assert artifacts[0] == t.tool && t.tool in artifacts;
    assert seq(|artifacts|, i requires 0 <= i < |artifacts| =>
      (artifacts[i].name, c.unzip(c.warehouse[artifacts[i].filename]))) == [(t.backend.name, WheelOf(t.backend))];
  }

  lemma AdminStart(c: Setting, t: Documents, disk: map<Site.Path, Site.Bytes>)
    requires Documented(c, t)
    requires OnDisk(c.lab, c.owned, [t.backend], disk)
    ensures InitialOk(c)
  {
    hide FilesOf, WrittenByPip, Recorded, Pins, SideBySide, Inventoried, Site.SiteAccepted, Site.Explained, OnDisk,
         PlainRows, BackendVersions, Versions, WheelArchives, Closure.Authentic;
    AdminVersions(c, t);
    AdminDelta(c, t);
    AdminBackend(c, t);
    var installs, w := [t.backend], Wheels(c, [(t.backend.name, WheelOf(t.backend))], map[]);
    assert installs[0] == t.backend && w.origins == map[];
    InstallIsExplained(c.lab, c.owned, installs, 0);
    SideBySideIsAccepted(c.lab, c.owned, installs, w, disk);
  }

  lemma ActiveExtends(c: Setting, order: seq<string>, d: string, after: Inventory,
                      available: map<(string, string), Artifact>)
    requires d in after && forall e | e in order :: e in after
    ensures Active(c, [], after, available) == Some([])
    ensures var front := Active(c, order, after, available);
      Active(c, order + [d], after, available)
      == if front.None? || d in c.packages then front
         else if (d, after[d].version) !in available then None
         else Some(front.value + [available[(d, after[d].version)]])
  {
    assert (order + [d])[..|order|] == order;
  }

  lemma OneActive(c: Setting, d: string, e: string, f: string, after: Inventory,
                  available: map<(string, string), Artifact>, tool: Artifact)
    requires d in after && e in after && f in after && d !in c.packages && e in c.packages && f in c.packages
    requires (d, after[d].version) in available && available[(d, after[d].version)] == tool
    ensures Active(c, [d, e, f], after, available) == Some([tool])
  {
    hide Active;
    ActiveExtends(c, [], d, after, available);
    ActiveExtends(c, [d], e, after, available);
    ActiveExtends(c, [d, e], f, after, available);
    assert [] + [d] == [d] && [d] + [e] == [d, e] && [d, e] + [f] == [d, e, f];
    assert [] + [tool] == [tool];
  }

  lemma OneByIdentity(a: Artifact)
    ensures ByIdentity([a]) == map[(a.name, a.version) := a]
  {
    var artifacts := [a];
    assert seq(|artifacts|,
               i requires 0 <= i < |artifacts| => ((artifacts[i].name, artifacts[i].version), artifacts[i]))
        == [((a.name, a.version), a)];
    DictOfTwo((a.name, a.version), a, ("", ""), a);
  }

  lemma AdminCaptures(c: Setting, t: Documents)
    requires Documented(c, t)
    ensures var available := Available(InitialState(c), AdminRun(c, t).steps[0]);
      (t.backend.name, t.backend.version) in available && available[(t.backend.name, t.backend.version)] == t.tool
    ensures Origins(c, InitialState(c), Invocation([t.word], [false]))
         == map[t.admin.name := Source(t.admin.direct.value, t.admin.version)]
  {
    hide FilesOf, WrittenByPip, Recorded, Pins, Closure.Authentic, SideBySide, Inventoried, ExpectedSources, ByIdentity;
    AdminNames(c, t);
    OneByIdentity(t.tool);
    OneByIdentity(t.index);
  }

  lemma AdminActive(c: Setting, t: Documents)
    requires Documented(c, t)
    ensures var s := AdminRun(c, t).steps[0];
      WellFormedStep(s) && Active(c, s.afterOrder, s.after, Available(InitialState(c), s)) == Some([t.tool])
  {
    hide FilesOf, WrittenByPip, Recorded, Pins, Closure.Authentic, SideBySide, Inventoried, Delta, Versions, Active,
         Available, InitialState;
    AdminNames(c, t);
    AdminVersions(c, t);
    AdminCaptures(c, t);
    var s := AdminRun(c, t).steps[0];
    OneActive(c, t.backend.name, t.admin.name, t.sdk.name, s.after, Available(InitialState(c), s), t.tool);
  }

  lemma AdminEnvironment(c: Setting, t: Documents, disk: map<Site.Path, Site.Bytes>)
    requires Documented(c, t)
    requires OnDisk(c.lab, c.owned, [t.backend, t.admin, t.sdk], disk)
    ensures var s := AdminRun(c, t).steps[0];
      && EnvironmentOk(c, s, [t.tool], [t.pin], map[t.admin.name := Source(t.admin.direct.value, t.admin.version)])
      && Site.Reported(c.lab, s.after, disk, Site.SitePaths(c.lab, s.after))
  {
    hide FilesOf, WrittenByPip, Recorded, Pins, SideBySide, Inventoried, Site.SiteAccepted, Site.Explained, OnDisk,
         PlainRows, Versions, WheelArchives, Closure.Complete, Closure.Authentic, Closure.AuthenticSet, Delta,
         Site.Reported;
    AdminVersions(c, t);
    AdminBackend(c, t);
    PinnedIsComplete(c.engine, t.pin, t.tool);
    OneInventoried(c.lab, c.owned, t.backend);
    var installs := [t.backend, t.admin, t.sdk];
    var origins := map[t.admin.name := Source(t.admin.direct.value, t.admin.version)];
    var w := Wheels(c, [(t.backend.name, WheelOf(t.backend))], origins);
    assert installs[0] == t.backend && installs[1] == t.admin;
    InstallIsExplained(c.lab, c.owned, installs, 0);
    InstallIsExplained(c.lab, c.owned, installs, 1);
    assert Site.SourceArchive(w, t.admin.name) == Some(WheelOf(t.admin));
    SideBySideIsAccepted(c.lab, c.owned, installs, w, disk);
    assert Closure.AuthenticSet(c.engine, [t.tool], c.warehouse) by {
      OneIsASet(c.engine, t.tool, c.warehouse);
    }
    assert BackendKept(c, Inventoried(c.lab, c.owned, installs))
        && OriginsOk(Inventoried(c.lab, c.owned, installs), origins);
  }

  lemma OneIsASet(e: Closure.Engine, a: Artifact, directory: map<string, Closure.Bytes>)
    requires Closure.Authentic(e, a, directory)
    ensures Closure.AuthenticSet(e, [a], directory)
  {
  }

  lemma AdminStepIsOk(c: Setting, t: Documents, disk: map<Site.Path, Site.Bytes>)
    requires Documented(c, t) && OnDisk(c.lab, c.owned, [t.backend, t.admin, t.sdk], disk)
    ensures WellFormed(AdminRun(c, t)) && StepOkAt(AdminRun(c, t), InitialState(c), 0)
  {
    hide FilesOf, WrittenByPip, Recorded, Pins, SideBySide, Inventoried, OnDisk, Versions, Delta, ReportOk, Active,
         EnvironmentOk, ExpectedSources, ArtifactIdentities, RemoteIdentities, Remotes, Closure.Authentic,
         Site.Reported, Available, InitialState, Origins;
    AdminReports(c, t);
    AdminDelta(c, t);
    AdminVersions(c, t);
    AdminCaptures(c, t);
    AdminActive(c, t);
    AdminEnvironment(c, t, disk);
    var run := AdminRun(c, t);
    assert run.invocations[..1] == [Invocation([t.word], [false])];
    assert InitialState(c).previous == c.initial by {
      StartsFrom(c);
    }
  }

  lemma AdminHolds(c: Setting, t: Documents)
    requires Documented(c, t)
    ensures Undeclared(AdminRun(c, t), 0, t.sdk.name) && WheelArchives(c, [t.tool]).Some?
    ensures Site.HeldAgainst(HeldWheels(AdminRun(c, t), 0), t.backend.name, WheelOf(t.backend))
    ensures Site.HeldAgainst(HeldWheels(AdminRun(c, t), 0), t.admin.name, WheelOf(t.admin))
  {
    hide FilesOf, WrittenByPip, Recorded, Pins, SideBySide, Inventoried, Versions, Delta, ExpectedSources,
         WheelArchives, Closure.Authentic, WheelOf;
    AdminNames(c, t);
    AdminVersions(c, t);
    AdminBackend(c, t);
    var run := AdminRun(c, t);
    assert DeclaredOrigins(run, 1) == DeclaredOrigins(run, 0) + ExpectedSources(c, run.invocations[0]);
    assert HeldWheels(run, 0).active == [(t.backend.name, WheelOf(t.backend))];
  }

  /**
   Such a run is accepted. Its backend and honua-admin are held against wheels; honua-sdk, a source package
   too, is installed although nobody declared it.
   */
  lemma AdminAloneIsVerified(c: Setting, t: Documents, disk: map<Site.Path, Site.Bytes>)
    requires Documented(c, t)
    requires OnDisk(c.lab, c.owned, [t.backend, t.admin, t.sdk], disk)
    ensures var run := AdminRun(c, t);
      && WellFormed(run) && Verified(run) && Undeclared(run, 0, t.sdk.name)
      && Site.Reported(c.lab, run.steps[0].after, disk, Site.SitePaths(c.lab, run.steps[0].after))
      && WheelArchives(c, run.steps[0].activeArtifacts).Some?
      && Site.HeldAgainst(HeldWheels(run, 0), t.backend.name, WheelOf(t.backend))
      && Site.HeldAgainst(HeldWheels(run, 0), t.admin.name, WheelOf(t.admin))
  {
    hide NamesAdmin, PinsBackend, IndexHasSdk, SideBySide, Inventoried, OnDisk, StepOkAt, InitialOk, InitialState,
         WheelArchives, HeldWheels, Undeclared, Site.HeldAgainst, Site.Reported, EnvironmentOk, WellFormed;
    AdminStepIsOk(c, t, disk);
    AdminEnvironment(c, t, disk);
    AdminHolds(c, t);
    assert OnDisk(c.lab, c.owned, [t.backend], disk) by {
      FirstOnDisk(c.lab, c.owned, [t.backend, t.admin, t.sdk], disk);
    }
    AdminStart(c, t, disk);
    assert StateAfter(AdminRun(c, t), 0) == Some(InitialState(c));
  }

  lemma FirstOnDisk(lab: Site.Lab, owned: Site.Owned, installs: seq<Install>, disk: map<Site.Path, Site.Bytes>)
    requires installs != [] && OnDisk(lab, owned, installs, disk)
    ensures OnDisk(lab, owned, [installs[0]], disk)
  {
    hide FilesOf;
  }

  lemma StartsFrom(c: Setting)
    ensures InitialState(c).previous == c.initial
  {
  }

  // ---- one such setting -----------------------------------------------------------------------------------

  const HATCHLING := Install("hatchling", "1.30.1", None, "hatchling-1.30.1.dist-info", [], [1])
  const ADMIN := Install("honua-admin", "0.2.2", Some(Site.DirectUrl("file:///source/packages/honua-admin", false)),
                         "honua_admin-0.2.2.dist-info", [], [2])
  const SDK := Install("honua-sdk", "0.2.2", None, "honua_sdk-0.2.2.dist-info", [], [3])

  function RecordRows(digest: Site.Bytes -> string, encode: Site.DirectUrl -> Site.Bytes, x: Install)
    : seq<Site.RecordRow>
  {
    [Site.RecordRow(x.dir + "/METADATA", Some(digest(x.metadata)), Some(|x.metadata|)),
     Site.RecordRow(x.dir + "/INSTALLER", Some(digest(Site.PIP)), Some(|Site.PIP|)),
     Site.RecordRow(x.dir + "/RECORD", None, None)]
    + if x.direct.None? then []
      else [Site.RecordRow(x.dir + "/direct_url.json", Some(digest(encode(x.direct.value))),
                           Some(|encode(x.direct.value)|))]
  }

  /** A laboratory that reads the names and the RECORD texts of these three as they are meant. */
  function PlainLab(lab: Site.Lab): Site.Lab {
    lab.(kind := x => Site.Plain,
         metadataDirectory := n => if |n| < 9 then None else Some(n[..|n| - 9]),
         pathsBound := (site, python) => true, isSource := n => false, isCache := n => false,
         isGenerated := n => |n| < 9 || n[|n| - 9..] != "/METADATA",
         parseRecord := text =>
           Some(RecordRows(lab.digest, lab.encodeDirectUrl,
                           if text == [1] then HATCHLING else if text == [2] then ADMIN else SDK)),
         resolve := (site, n) => site + "/" + n)
  }

  function Tool(c: Setting): Artifact {
    Closure.Artifact("hatchling", "1.30.1", "hatchling.whl", "https://files/hatchling.whl", c.engine.digest([]), [])
  }

  function Index(c: Setting): Artifact {
    Closure.Artifact("honua-sdk", "0.2.2", "honua_sdk.whl", "https://files/honua_sdk.whl", "", [])
  }

  function PlainEngine(e: Closure.Engine): Closure.Engine {
    e.(parse := text => Some(Closure.Requirement("hatchling", {}, "", None, "==1.30.1")), canonical := name => name,
       admits := (specifier, version) => specifier == "==" + version,
       originFilename := url => if |url| < 14 then None else Some(url[14..]),
       wheelMetadata := (data, filename) => Some(Closure.Metadata("hatchling", "1.30.1", [])))
  }

  function PlainSetting(c: Setting): Setting {
    c.(engine := PlainEngine(c.engine), lab := PlainLab(c.lab),
       packages := map["honua-admin" := "0.2.2", "honua-sdk" := "0.2.2"],
       sourceTarget := word => Some("honua-admin"), sourceUrl := name => "file:///source/packages/" + name,
       isFileUrl := url => |url| > 0 && url[0] == 'f', roots := invocations => Some(["hatchling==1.30.1"]),
       unzip := data => WheelOf(HATCHLING), warehouse := map["hatchling.whl" := []],
       sourceWheels := map["honua-admin" := WheelOf(ADMIN)], backend := [Tool(c)])
  }

  /** And with what is installed at first. */
  ghost function DocumentedSetting(c: Setting): Setting {
    PlainInstallsAreSideBySide(PlainSetting(c), c.lab);
    PlainSetting(c).(initial := Inventoried(PlainSetting(c).lab, PlainSetting(c).owned, [HATCHLING]))
  }

  lemma RowNamesAre(digest: Site.Bytes -> string, encode: Site.DirectUrl -> Site.Bytes, x: Install)
    ensures var rows := RecordRows(digest, encode, x);
      && Site.DistinctRows(rows)
      && Site.RowNames(rows) == {x.dir + "/METADATA", x.dir + "/INSTALLER", x.dir + "/RECORD"}
                                + if x.direct.None? then {} else {x.dir + "/direct_url.json"}
  {
    Site.FileNamesDiffer(x.dir);
    var rows := RecordRows(digest, encode, x);
    assert rows[0] in rows && rows[1] in rows && rows[2] in rows;
    if x.direct.Some? {
      assert rows[3] in rows;
    }
  }

  lemma RecordRowIsRight(c: Setting, x: Install, r: Site.RecordRow)
    requires r in RecordRows(c.lab.digest, c.lab.encodeDirectUrl, x)
    requires forall n | n in FilesOf(c.lab, x) :: !c.lab.isCache(n)
    ensures Site.RowDescribes(c.lab, r, x.dir + "/RECORD", FilesOf(c.lab, x) - {x.dir + "/RECORD"})
  {
    hide FilesOf;
    Site.FileNamesDiffer(x.dir);
    ContentsAre(c.lab, x);
  }

  /** The RECORD of these rows is the one pip writes. */
  lemma RecordRowsAreRight(c: Setting, x: Install)
    requires forall n | n in FilesOf(c.lab, x) :: !c.lab.isCache(n)
    ensures Site.RecordOk(c.lab, Some(RecordRows(c.lab.digest, c.lab.encodeDirectUrl, x)), x.dir + "/RECORD",
                          FilesOf(c.lab, x) - {x.dir + "/RECORD"})
  {
    hide Site.DistinctRows, Site.RowNames, Site.RowDescribes, FilesOf;
    Site.FileNamesDiffer(x.dir);
    RowNamesAre(c.lab.digest, c.lab.encodeDirectUrl, x);
    FileNamesAre(c.lab, x);
    var rows, files := RecordRows(c.lab.digest, c.lab.encodeDirectUrl, x), FilesOf(c.lab, x);
    assert Site.RowNames(rows) == (files - {x.dir + "/RECORD"}).Keys + {x.dir + "/RECORD"};
    forall r | r in rows ensures Site.RowDescribes(c.lab, r, x.dir + "/RECORD", files - {x.dir + "/RECORD"}) {
      RecordRowIsRight(c, x, r);
    }
  }

  lemma TextIsRead(lab: Site.Lab, x: Install)
    requires x in {HATCHLING, ADMIN, SDK}
    ensures PlainLab(lab).parseRecord(x.record) == Some(RecordRows(lab.digest, lab.encodeDirectUrl, x))
  {
    hide RecordRows;
    assert HATCHLING.record[0] != ADMIN.record[0] && ADMIN.record[0] != SDK.record[0];
    assert HATCHLING.record[0] != SDK.record[0];
  }

  lemma NamesAreRead(lab: Site.Lab, dir: string)
    ensures PlainLab(lab).metadataDirectory(dir + "/METADATA") == Some(dir)
              && PlainLab(lab).isGenerated(dir + "/RECORD")
  {
    var n, record := dir + "/METADATA", dir + "/RECORD";
    assert n[..|n| - 9] == dir;
    if |record| >= 9 {
      assert record[|record| - 9..][8] == 'D' && "/METADATA"[8] == 'A';
    }
  }

  lemma PlainRecord(c: Setting, lab: Site.Lab, x: Install)
    requires c.lab == PlainLab(lab) && x in {HATCHLING, ADMIN, SDK}
    ensures WrittenByPip(c.lab, x) && Recorded(c.lab, x)
  {
    hide FilesOf, Site.RecordOk, Site.RowNames, Site.DistinctRows, RecordRows, HATCHLING, ADMIN, SDK, Site.PipFiles;
    var record := x.dir + "/RECORD";
    assert FilesOf(c.lab, x) == Site.PipFiles(c.lab, x.dir, x.metadata, x.direct, x.record) by {
      FilesAre(c.lab, x);
    }
    RecordRowsAreRight(c, x);
    RowNamesAre(lab.digest, lab.encodeDirectUrl, x);
    FileNamesAre(c.lab, x);
    TextIsRead(lab, x);
    NamesAreRead(lab, x.dir);
    ContentsAre(c.lab, x);
    assert Site.RecordOk(c.lab, c.lab.parseRecord(x.record), record, FilesOf(c.lab, x) - {record});
    assert Site.RecordLists(c.lab, x.record, FilesOf(c.lab, x).Keys);
  }

  lemma PathsAreApart(lab: Site.Lab, site: Site.Path, m: Site.FileName, n: Site.FileName)
    requires PlainLab(lab).resolve(site, m) == PlainLab(lab).resolve(site, n)
    ensures m == n
  {
    var p, q := site + "/" + m, site + "/" + n;
    assert p[|site| + 1..] == m && q[|site| + 1..] == n;
  }

  lemma DirectoryLetters()
    ensures |HATCHLING.dir| > 6 && |ADMIN.dir| > 6 && |SDK.dir| > 6
    ensures HATCHLING.dir[1] == 'a' && ADMIN.dir[1] == 'o' && SDK.dir[1] == 'o'
    ensures ADMIN.dir[6] == 'a' && SDK.dir[6] == 's'
  {
  }

  /** A character tells the directories apart. */
  lemma DirectoryTells(lab: Site.Lab, x: Install, y: Install, n: Site.FileName)
    requires x in {HATCHLING, ADMIN, SDK} && y in {HATCHLING, ADMIN, SDK}
    requires n in FilesOf(lab, x) && n in FilesOf(lab, y)
    ensures x == y
  {
    hide FilesOf, HATCHLING, ADMIN, SDK;
    DirectoryLetters();
    FilesAreInTheirDirectory(lab, x);
    FilesAreInTheirDirectory(lab, y);
    assert n[1] == n[..|x.dir|][1] == n[..|y.dir|][1] && n[6] == n[..|x.dir|][6] == n[..|y.dir|][6];
  }

  lemma PlainInstallsAreSideBySide(c: Setting, lab: Site.Lab)
    requires c.lab == PlainLab(lab)
    ensures SideBySide(c.lab, c.owned, [HATCHLING, ADMIN, SDK]) && SideBySide(c.lab, c.owned, [HATCHLING])
  {
    hide FilesOf, PlainLab;
    var installs := [HATCHLING, ADMIN, SDK];
    NamesTell();
    forall i, j, m, n | 0 <= i < |installs| && 0 <= j < |installs|
      && m in FilesOf(c.lab, installs[i]) && n in FilesOf(c.lab, installs[j])
      && c.lab.resolve(c.owned.site, m) == c.lab.resolve(c.owned.site, n)
      ensures i == j && m == n
    {
      PathsAreApart(lab, c.owned.site, m, n);
      DirectoryTells(c.lab, installs[i], installs[j], n);
    }
    forall m, n | m in FilesOf(c.lab, HATCHLING) && n in FilesOf(c.lab, HATCHLING)
      && c.lab.resolve(c.owned.site, m) == c.lab.resolve(c.owned.site, n)
      ensures m == n
    {
      PathsAreApart(lab, c.owned.site, m, n);
    }
  }

  lemma NamesTell()
    ensures HATCHLING.name != ADMIN.name && HATCHLING.name != SDK.name && ADMIN.name != SDK.name
  {
    assert HATCHLING.name[1] == 'a' && ADMIN.name[1] == 'o' && SDK.name[1] == 'o';
    assert ADMIN.name[6] == 'a' && SDK.name[6] == 's';
  }

  lemma PinIsRead(c: Setting)
    ensures Pins(PlainEngine(c.engine), "hatchling==1.30.1", Tool(c))
    ensures Closure.Authentic(PlainEngine(c.engine), Tool(c), PlainSetting(c).warehouse)
  {
    var tool := Tool(c);
    assert tool.origin[14..] == tool.filename;
    assert "==1.30.1" == "==" + tool.version;
  }

  function DocumentsOf(c: Setting): Documents {
    Documents("packages/honua-admin", "hatchling==1.30.1", Tool(c), Index(c), HATCHLING, ADMIN, SDK)
  }

  lemma DocumentedNamesAdmin(c: Setting)
    ensures NamesAdmin(DocumentedSetting(c), DocumentsOf(c))
  {
    hide SideBySide, Inventoried, PlainLab, WheelOf;
    var e := DocumentedSetting(c);
    assert "file:///source/packages/"[0] == 'f';
    assert e.sourceUrl("honua-admin") == ADMIN.direct.value.url;
  }

  lemma DocumentedIsInstalled(c: Setting)
    ensures Installed(DocumentedSetting(c), DocumentsOf(c))
  {
    hide SideBySide, Inventoried, WrittenByPip, Recorded, PlainLab, PlainEngine, HATCHLING, ADMIN, SDK, Tool, Index;
    var e := DocumentedSetting(c);
    PlainInstallsAreSideBySide(e, c.lab);
    PlainRecord(e, c.lab, HATCHLING);
    PlainRecord(e, c.lab, ADMIN);
    PlainRecord(e, c.lab, SDK);
    PathsAreBound(c.lab, e.owned);
  }

  /** Such settings exist. */
  lemma DocumentedIsPossible(c: Setting)
    ensures Documented(DocumentedSetting(c), DocumentsOf(c))
  {
    hide SideBySide, Inventoried, PlainLab, WheelOf, NamesAdmin, Installed, Pins, Closure.Authentic;
    DocumentedNamesAdmin(c);
    DocumentedIsInstalled(c);
    PinIsRead(c);
    assert Index(c).origin[0] == 'h';
  }

  lemma PathsAreBound(lab: Site.Lab, owned: Site.Owned)
    ensures PlainLab(lab).pathsBound(owned.site, owned.python)
  {
  }

  /** And a disk for them. */
  lemma PlainDisk(c: Setting) returns (disk: map<Site.Path, Site.Bytes>)
    ensures OnDisk(PlainLab(c.lab), c.owned, [HATCHLING, ADMIN, SDK], disk)
  {
    hide FilesOf, PlainLab, HATCHLING, ADMIN, SDK;
    var lab := PlainLab(c.lab);
    var all := FilesOf(lab, HATCHLING) + FilesOf(lab, ADMIN) + FilesOf(lab, SDK);
    forall m, n | m in all && n in all && lab.resolve(c.owned.site, m) == lab.resolve(c.owned.site, n) ensures m == n {
      PathsAreApart(c.lab, c.owned.site, m, n);
    }
    disk := Site.Overlaid(lab, c.owned.site, map[], all);
    var installs := [HATCHLING, ADMIN, SDK];
    DirectoriesDiffer();
    forall i, n | 0 <= i < |installs| && n in FilesOf(lab, installs[i])
      ensures lab.resolve(c.owned.site, n) in disk && disk[lab.resolve(c.owned.site, n)] == FilesOf(lab, installs[i])[n]
    {
      Site.OverlayShows(lab, c.owned.site, all, map[], n);
      if n in FilesOf(lab, ADMIN) && i != 1 {
        DirectoryTells(lab, installs[i], ADMIN, n);
      }
      if n in FilesOf(lab, SDK) && i != 2 {
        DirectoryTells(lab, installs[i], SDK, n);
      }
    }
  }

  lemma DirectoriesDiffer()
    ensures HATCHLING != ADMIN && HATCHLING != SDK && ADMIN != SDK
  {
    NamesTell();
  }

  /**
   An accepted run of `pip install packages/honua-admin` with two distributions held against wheels, and
   with honua-sdk installed and held against nothing.
   */
  lemma AcceptedWithAnUndeclaredSource(c: Setting)
    ensures exists run: Context, disk: map<Site.Path, Site.Bytes> ::
              && WellFormed(run) && Verified(run) && |run.steps| == |run.invocations| == 1
              && Undeclared(run, 0, "honua-sdk") && run.invocations == [Invocation(["packages/honua-admin"], [false])]
              && Site.Reported(run.setting.lab, run.steps[0].after, disk,
                               Site.SitePaths(run.setting.lab, run.steps[0].after))
              && WheelArchives(run.setting, run.steps[0].activeArtifacts).Some?
              && Site.HeldAgainst(HeldWheels(run, 0), "hatchling", WheelOf(HATCHLING))
              && Site.HeldAgainst(HeldWheels(run, 0), "honua-admin", WheelOf(ADMIN))
  {
    hide WellFormed, Verified, Undeclared, Site.Reported, Documented, OnDisk, WheelArchives, HeldWheels,
         Site.HeldAgainst, WheelOf, PlainLab, Inventoried, SideBySide, Site.SitePaths;
    var e, t := DocumentedSetting(c), DocumentsOf(c);
    DocumentedIsPossible(c);
    var disk := PlainDisk(c);
    PlainInstallsAreSideBySide(e, c.lab);
    AdminAloneIsVerified(e, t, disk);
    var run := AdminRun(e, t);
    assert run.setting == e;
    assert Site.Reported(run.setting.lab, run.steps[0].after, disk,
                         Site.SitePaths(run.setting.lab, run.steps[0].after));
  }
}
