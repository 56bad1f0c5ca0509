/**
 The verifier of a documented sequence of pip installs: each step starts from the inventory the
 previous one ended with, changes exactly what its resolver report says, and leaves an
 environment that is dependency-complete and whose files are all explained.
 */
module InstallLineage {
  import opened Common
  import Closure = DependencyClosure
  import Site = SiteCensus

  type Artifact = Closure.Artifact
  type Inventory = Site.Inventory

  /** One entry of a pip report. */
  datatype Item = Item(name: string, version: string, url: string, sha256: string, direct: Option<Site.DirectUrl>)

  /** What a report says of the pip and the interpreter that made it. */
  datatype Head = Head(pipVersion: string, environment: map<string, string>)

  datatype Invocation = Invocation(requested: seq<string>, editable: seq<bool>)

  datatype Source = Source(direct: Site.DirectUrl, version: string)

  datatype Step = Step(
    sourceBefore: map<string, string>, sourceResolved: map<string, string>, sourceAfter: map<string, string>,
    before: Inventory, after: Inventory, afterOrder: seq<string>,
    resolverHead: Head, resolver: seq<Item>, installedHead: Head, installed: seq<Item>, artifacts: seq<Artifact>,
    activeArtifacts: seq<Artifact>, requiredClosure: seq<string>)

  /** What stays fixed over one run of the verifier. */
  datatype Setting = Setting(
    engine: Closure.Engine,
    lab: Site.Lab,
    owned: Site.Owned,
    /** The pip and the interpreter of the verifier itself. */
    head: Head,
    /** Versions of the packages built from source, by name. */
    packages: map<string, string>,
    sourceTarget: string -> Option<string>,
    sourceUrl: string -> string,
    isFileUrl: string -> bool,
    wheelFilename: string -> Option<string>,
    warehouseUrl: string -> string,
    unzip: Closure.Bytes -> Site.Archive,
    roots: seq<Invocation> -> Option<seq<string>>,
    warehouse: map<string, Closure.Bytes>,
    editableWheels: map<string, Site.Archive>,
    sourceWheels: map<string, Site.Archive>,
    expectedSource: map<string, string>,
    backend: seq<Artifact>,
    initial: Inventory)

  /** One documented sequence: what its invocations ask, and what was recorded of each. */
  datatype Context = Context(setting: Setting, invocations: seq<Invocation>, steps: seq<Step>)

  // ---- resolver reports -------------------------------------------------------------------

  function SourcePairs(c: Setting, inv: Invocation, k: nat): seq<(string, Source)>
    requires k <= |inv.requested| && k <= |inv.editable|
  {
    if k == 0 then []
    else
      var target := c.sourceTarget(inv.requested[k - 1]);
      SourcePairs(c, inv, k - 1)
      + if target.Some? && target.value in c.packages
        then
          [(target.value,
            Source(Site.DirectUrl(c.sourceUrl(target.value), inv.editable[k - 1]), c.packages[target.value]))]
        else []
  }

  /** Each requested word comes with its editable flag; anything else is refused. */
  predicate Paired(inv: Invocation) {
    |inv.requested| == |inv.editable|
  }

  function ExpectedSources(c: Setting, inv: Invocation): map<string, Source> {
    Dict(SourcePairs(c, inv, if |inv.editable| < |inv.requested| then |inv.editable| else |inv.requested|))
  }

  function NameOf(c: Setting, x: Item): string {
    c.engine.canonical(x.name)
  }

  /** A local item is a file URL under a source package's name; anything else is remote. */
  predicate IsLocal(c: Setting, x: Item) {
    c.isFileUrl(x.url) && NameOf(c, x) in c.packages
  }

  predicate ItemOk(c: Setting, x: Item, expected: map<string, Source>, offline: bool) {
    if !c.isFileUrl(x.url) then c.engine.originFilename(x.url).Some?
    else if NameOf(c, x) !in c.packages then
      offline && c.wheelFilename(x.url).Some? && x.url == c.warehouseUrl(c.wheelFilename(x.url).value)
    else
      var name := NameOf(c, x);
      name in expected && x.direct == Some(expected[name].direct) && x.version == expected[name].version
  }

  function Remotes(c: Setting, items: seq<Item>): seq<Item> {
    if items == [] then []
    else Remotes(c, items[..|items| - 1]) + if IsLocal(c, items[|items| - 1]) then [] else [items[|items| - 1]]
  }

  function LocalNames(c: Setting, items: seq<Item>): set<string> {
    set x | x in items && IsLocal(c, x) :: NameOf(c, x)
  }

  predicate LocalsDistinct(c: Setting, items: seq<Item>) {
    forall i, j | 0 <= i < j < |items| && IsLocal(c, items[i]) && IsLocal(c, items[j]) ::
      NameOf(c, items[i]) != NameOf(c, items[j])
  }

  /**
   This pip and interpreter made it, every item has a bound origin, and the source packages resolved are
   exactly the expected ones, once each.
   */
  predicate ReportOk(c: Setting, head: Head, items: seq<Item>, expected: map<string, Source>, offline: bool) {
    && head == c.head
    && (forall x | x in items :: ItemOk(c, x, expected, offline))
    && LocalsDistinct(c, items) && LocalNames(c, items) == expected.Keys
  }

  /** What one more item does to the local names and the remote items of a report's prefix. */
  lemma PrefixGrows(c: Setting, items: seq<Item>, k: nat)
    requires k < |items|
    ensures Remotes(c, items[..k + 1])
         == if IsLocal(c, items[k]) then Remotes(c, items[..k]) else Remotes(c, items[..k]) + [items[k]]
    ensures LocalNames(c, items[..k + 1])
         == if IsLocal(c, items[k]) then LocalNames(c, items[..k]) + {NameOf(c, items[k])}
            else LocalNames(c, items[..k])
  {
    hide IsLocal;
    assert items[..k + 1] == items[..k] + [items[k]] && items[..k + 1][..k] == items[..k];
  }

  lemma LocalsStayDistinct(c: Setting, items: seq<Item>, k: nat)
    requires k < |items| && LocalsDistinct(c, items[..k])
    ensures LocalsDistinct(c, items[..k + 1])
       <==> !(IsLocal(c, items[k]) && NameOf(c, items[k]) in LocalNames(c, items[..k]))
  {
    hide IsLocal;
    var x := items[k];
    if IsLocal(c, x) && NameOf(c, x) in LocalNames(c, items[..k]) {
      var y :| y in items[..k] && IsLocal(c, y) && NameOf(c, y) == NameOf(c, x);
      var i :| 0 <= i < k && items[i] == y;
      assert items[..k + 1][i] == y && items[..k + 1][k] == x;
    } else {
      forall i | 0 <= i < k && IsLocal(c, items[i]) && IsLocal(c, x) ensures NameOf(c, items[i]) != NameOf(c, x) {
        assert items[..k][i] in items[..k];
      }
    }
  }

  lemma PrefixIsDistinct(c: Setting, items: seq<Item>, k: nat)
    requires k <= |items| && !LocalsDistinct(c, items[..k])
    ensures !LocalsDistinct(c, items)
  {
    var i, j :| 0 <= i < j < k && IsLocal(c, items[i]) && IsLocal(c, items[j])
        && NameOf(c, items[i]) == NameOf(c, items[j]);
  }

  method ReportItems(c: Setting, head: Head, items: seq<Item>, expected: map<string, Source>, offline: bool)
    returns (r: Result<seq<Item>>)
    ensures r.Ok? <==> ReportOk(c, head, items, expected, offline)
    ensures r.Ok? ==> r.value == Remotes(c, items)
  {
    hide ItemOk, LocalsDistinct, LocalNames, Remotes, IsLocal;
    if head != c.head {
      return Raised(Error("documentation report interpreter or pip identity differs"));
    }
    var local: set<string> := {};
    var remote: seq<Item> := [];
    EmptyReport(c);
    for k := 0 to |items|
      invariant forall j | 0 <= j < k :: ItemOk(c, items[j], expected, offline)
      invariant LocalsDistinct(c, items[..k])
      invariant local == LocalNames(c, items[..k]) && remote == Remotes(c, items[..k])
    {
      var x := items[k];
      PrefixGrows(c, items, k);
      LocalsStayDistinct(c, items, k);
      if !ItemOk(c, x, expected, offline) {
        assert x in items;
        return Raised(Error("unbound resolution origin"));
      }
      if !IsLocal(c, x) {
        remote := remote + [x];
      } else if NameOf(c, x) in local {
        PrefixIsDistinct(c, items, k + 1);
        return Raised(Error("duplicate source resolution item"));
      } else {
        local := local + {NameOf(c, x)};
      }
    }
    assert items[..|items|] == items;
    if local != expected.Keys {
      return Raised(Error("missing actual source resolution item"));
    }
    return Ok(remote);
  }

  lemma EmptyReport(c: Setting)
    ensures LocalsDistinct(c, []) && LocalNames(c, []) == {} && Remotes(c, []) == []
  {
  }

  // ---- one step -----------------------------------------------------------------------------

  /** What the verifier carries from step to step. */
  datatype State = State(
    previous: Inventory, available: map<(string, string), Artifact>, origins: map<string, Source>)

  function Versions(inventory: Inventory): map<string, string> {
    map d | d in inventory :: inventory[d].version
  }

  /** The versions a resolver report installs; a later item for one name wins. */
  function Delta(c: Setting, items: seq<Item>): map<string, string> {
    Dict(seq(|items|, i requires 0 <= i < |items| => (NameOf(c, items[i]), items[i].version)))
  }

  function RemoteIdentities(c: Setting, items: seq<Item>): map<string, (string, string, string)> {
    Dict(seq(|items|, i requires 0 <= i < |items| =>
      (NameOf(c, items[i]), (items[i].version, items[i].url, items[i].sha256))))
  }

  function ArtifactIdentities(artifacts: seq<Artifact>): map<string, (string, string, string)> {
    Dict(seq(|artifacts|, i requires 0 <= i < |artifacts| =>
      (artifacts[i].name, (artifacts[i].version, artifacts[i].origin, artifacts[i].sha256))))
  }

  function ByIdentity(artifacts: seq<Artifact>): map<(string, string), Artifact> {
    Dict(seq(|artifacts|, i requires 0 <= i < |artifacts| => ((artifacts[i].name, artifacts[i].version), artifacts[i])))
  }

  /** The captured artifacts of the installed distributions that were not built from source, in dict order. */
  function Active(c: Setting, order: seq<string>, after: Inventory, available: map<(string, string), Artifact>)
    : (r: Option<seq<Artifact>>)
    requires forall d | d in order :: d in after
  {
    if order == [] then Some([])
    else
      var front := Active(c, order[..|order| - 1], after, available);
      var d := order[|order| - 1];
      if front.None? || d in c.packages then front
      else if (d, after[d].version) !in available then None
      else Some(front.value + [available[(d, after[d].version)]])
  }

  function WheelArchives(c: Setting, artifacts: seq<Artifact>): Option<seq<(string, Site.Archive)>> {
    if forall a | a in artifacts :: a.filename in c.warehouse then
      Some(seq(|artifacts|, i requires 0 <= i < |artifacts| =>
        (artifacts[i].name, c.unzip(c.warehouse[artifacts[i].filename]))))
    else None
  }

  function Wheels(c: Setting, archives: seq<(string, Site.Archive)>, origins: map<string, Source>): Site.Wheels {
    Site.Wheels(archives, map d | d in origins :: origins[d].direct, c.editableWheels, c.sourceWheels)
  }

  predicate OfflineOk(c: Setting, items: seq<Item>, available: map<(string, string), Artifact>) {
    forall x | x in items ::
      (NameOf(c, x), x.version) in available
      && x.url == c.warehouseUrl(available[(NameOf(c, x), x.version)].filename)
  }

  predicate OriginsOk(after: Inventory, origins: map<string, Source>) {
    forall d | d in origins :: d in after && after[d].directUrl == Some(origins[d].direct)
  }

  predicate BackendKept(c: Setting, after: Inventory) {
    forall d | d in c.initial :: d in after && after[d].version == c.initial[d].version
  }

  /** JSON objects list each of their keys once. */
  ghost predicate WellFormedStep(s: Step) {
    forall d :: d in s.afterOrder <==> d in s.after
  }

  function Available(st: State, s: Step): map<(string, string), Artifact> {
    st.available + ByIdentity(s.artifacts)
  }

  function Origins(c: Setting, st: State, inv: Invocation): map<string, Source> {
    st.origins + ExpectedSources(c, inv)
  }

  /** The environment one step leaves is dependency-complete, truthful about its origins, and explained. */
  ghost predicate EnvironmentOk(c: Setting, s: Step, active: seq<Artifact>, required: seq<string>,
                                origins: map<string, Source>) {
    && Closure.AuthenticSet(c.engine, active, c.warehouse)
    && Closure.Complete(c.engine, Closure.ByName(active), required)
    && OriginsOk(s.after, origins)
    && BackendKept(c, s.after)
    && WheelArchives(c, active).Some?
    && Site.SiteAccepted(c.lab, c.owned, s.after, Wheels(c, WheelArchives(c, active).value, origins))
  }

  /** The judgement of one step, the last of the invocations being its own. */
  ghost predicate StepOk(c: Setting, st: State, s: Step, invocations: seq<Invocation>)
    requires WellFormedStep(s) && invocations != []
  {
    var inv := invocations[|invocations| - 1];
    var expected := ExpectedSources(c, inv);
    && Paired(inv)
    && s.sourceBefore == s.sourceResolved == s.sourceAfter == c.expectedSource
    && s.before == st.previous
    && ReportOk(c, s.resolverHead, s.resolver, expected, false)
    && ReportOk(c, s.installedHead, s.installed, expected, true)
    && ArtifactIdentities(s.artifacts) == RemoteIdentities(c, Remotes(c, s.resolver))
    && Versions(s.after) == Versions(s.before) + Delta(c, s.resolver)
    && OfflineOk(c, Remotes(c, s.installed), Available(st, s))
    && Active(c, s.afterOrder, s.after, Available(st, s)) == Some(s.activeArtifacts)
    && c.roots(invocations) == Some(s.requiredClosure)
    && EnvironmentOk(c, s, s.activeArtifacts, s.requiredClosure, Origins(c, st, inv))
  }

  function NextState(c: Setting, st: State, s: Step, inv: Invocation): State {
    State(s.after, Available(st, s), Origins(c, st, inv))
  }

  method CheckEnvironment(c: Setting, s: Step, active: seq<Artifact>, required: seq<string>,
                          origins: map<string, Source>)
    returns (verdict: Verdict)
    ensures verdict.Accepted? <==> EnvironmentOk(c, s, active, required, origins)
  {
    verdict := Closure.ValidateClosure(c.engine, active, required, c.warehouse);
    if verdict.Refused? {
      return;
    }
    if !OriginsOk(s.after, origins) {
      return Refused("installed source origin differs");
    }
    if !BackendKept(c, s.after) {
      return Refused("backend runtime changed during sequence");
    }
    var archives := WheelArchives(c, active);
    if archives.None? {
      return Refused("artifact is not in the warehouse");
    }
    verdict := Site.InstalledSourceAndArtifactBytes(c.lab, c.owned, s.after, Wheels(c, archives.value, origins));
  }

  method VerifyStep(c: Setting, st: State, s: Step, invocations: seq<Invocation>) returns (r: Result<State>)
    requires WellFormedStep(s) && invocations != []
    ensures r.Ok? <==> StepOk(c, st, s, invocations)
    ensures r.Ok? ==> r.value == NextState(c, st, s, invocations[|invocations| - 1])
  {
    hide ReportOk, EnvironmentOk, OfflineOk, Remotes, Delta, Versions, ArtifactIdentities, RemoteIdentities;
    var inv := invocations[|invocations| - 1];
    if s.sourceBefore != c.expectedSource || s.sourceResolved != c.expectedSource || s.sourceAfter != c.expectedSource {
      return Raised(Error("per-invocation source input lineage differs"));
    }
    if s.before != st.previous {
      return Raised(Error("ordered installed closure lineage differs"));
    }
    if !Paired(inv) {
      return Raised(Error("requested words and editable flags differ in number"));
    }
    var expected := ExpectedSources(c, inv);
    var remote :- ReportItems(c, s.resolverHead, s.resolver, expected, false);
    var installedRemote :- ReportItems(c, s.installedHead, s.installed, expected, true);
    if ArtifactIdentities(s.artifacts) != RemoteIdentities(c, remote) {
      return Raised(Error("original resolver artifact delta differs"));
    }
    var available := Available(st, s);
    if Versions(s.after) != Versions(s.before) + Delta(c, s.resolver) {
      return Raised(Error("actual installed version delta differs"));
    }
    if !OfflineOk(c, installedRemote, available) {
      return Raised(Error("offline artifact delta differs"));
    }
    var active := Active(c, s.afterOrder, s.after, available);
    var required := c.roots(invocations);
    if active != Some(s.activeArtifacts) || required != Some(s.requiredClosure) {
      return Raised(Error("complete per-invocation installed closure differs"));
    }
    var origins := Origins(c, st, inv);
    var verdict := CheckEnvironment(c, s, s.activeArtifacts, s.requiredClosure, origins);
    if verdict.Refused? {
      return Raised(Error(verdict.reason));
    }
    return Ok(State(s.after, available, origins));
  }

  // ---- the whole sequence ---------------------------------------------------------------------

  function BackendVersions(artifacts: seq<Artifact>): map<string, string> {
    Dict(seq(|artifacts|, i requires 0 <= i < |artifacts| => (artifacts[i].name, artifacts[i].version)))
  }

  ghost predicate WellFormed(c: Context) {
    forall s | s in c.steps :: WellFormedStep(s)
  }

  function InitialState(c: Setting): State {
    State(c.initial, ByIdentity(c.backend), map[])
  }

  ghost predicate InitialOk(c: Setting) {
    && Versions(c.initial) == BackendVersions(c.backend)
    && WheelArchives(c, c.backend).Some?
    && Site.SiteAccepted(c.lab, c.owned, c.initial, Wheels(c, WheelArchives(c, c.backend).value, map[]))
  }

  ghost predicate StepOkAt(c: Context, st: State, k: nat)
    requires WellFormed(c) && k < |c.steps| == |c.invocations|
  {
    StepOk(c.setting, st, c.steps[k], c.invocations[..k + 1])
  }

  function StateFrom(c: Context, st: State, k: nat): State
    requires k < |c.steps| == |c.invocations|
  {
    NextState(c.setting, st, c.steps[k], c.invocations[k])
  }

  /** The state after the first `k` steps, when all of them are accepted. */
  ghost function StateAfter(c: Context, k: nat): Option<State>
    requires WellFormed(c) && |c.steps| == |c.invocations| && k <= |c.steps|
  {
    if k == 0 then Some(InitialState(c.setting))
    else
      var st := StateAfter(c, k - 1);
      if st.Some? && StepOkAt(c, st.value, k - 1) then Some(StateFrom(c, st.value, k - 1)) else None
  }

  ghost predicate Verified(c: Context)
    requires WellFormed(c)
  {
    InitialOk(c.setting) && |c.steps| == |c.invocations| && StateAfter(c, |c.steps|).Some?
  }

  method Verify(c: Context) returns (verdict: Verdict)
    requires WellFormed(c)
    ensures verdict.Accepted? <==> Verified(c)
  {
    hide StepOk, NextState;
    var e := c.setting;
    if Versions(e.initial) != BackendVersions(e.backend) {
      return Refused("original backend installed baseline differs");
    }
    var archives := WheelArchives(e, e.backend);
    if archives.None? {
      return Refused("artifact is not in the warehouse");
    }
    verdict := Site.InstalledSourceAndArtifactBytes(e.lab, e.owned, e.initial, Wheels(e, archives.value, map[]));
    if verdict.Refused? {
      return;
    }
    if |c.steps| != |c.invocations| {
      return Refused("missing ordered pip invocation");
    }
    var st := InitialState(e);
    for k := 0 to |c.steps|
      invariant StateAfter(c, k) == Some(st)
    {
      assert c.steps[k] in c.steps;
      var next := VerifyStep(e, st, c.steps[k], c.invocations[..k + 1]);
      if next.Raised? {
        RefusedForGood(c, k + 1);
        return Refused("step refused");
      }
      st := next.value;
    }
    return Accepted;
  }

  lemma {:induction false} RefusedForGood(c: Context, k: nat)
    requires WellFormed(c) && |c.steps| == |c.invocations| && k <= |c.steps| && StateAfter(c, k).None?
    ensures StateAfter(c, |c.steps|).None?
    decreases |c.steps| - k
  {
    hide StepOkAt, StateFrom, InitialState;
    if k < |c.steps| {
      RefusedForGood(c, k + 1);
    }
  }

  // ---- what a verified sequence establishes ---------------------------------------------------

  /** The inventory in place before step `k`. */
  function InventoryBefore(c: Context, k: nat): Inventory
    requires k <= |c.steps|
  {
    if k == 0 then c.setting.initial else c.steps[k - 1].after
  }

  /** The initial versions overridden by the resolver deltas of the first `k` steps, in order. */
  function FoldedVersions(c: Context, k: nat): map<string, string>
    requires k <= |c.steps|
  {
    if k == 0 then Versions(c.setting.initial)
    else FoldedVersions(c, k - 1) + Delta(c.setting, c.steps[k - 1].resolver)
  }

  /** The source origins declared by the first `k` invocations; a later one replaces an earlier. */
  function DeclaredOrigins(c: Context, k: nat): map<string, Source>
    requires k <= |c.invocations|
  {
    if k == 0 then map[] else DeclaredOrigins(c, k - 1) + ExpectedSources(c.setting, c.invocations[k - 1])
  }

  /** The artifacts captured with the backend and by the first `k` steps. */
  function Captured(c: Context, k: nat): seq<Artifact>
    requires k <= |c.steps|
  {
    if k == 0 then c.setting.backend else Captured(c, k - 1) + c.steps[k - 1].artifacts
  }

  lemma {:induction false} PrefixAccepted(c: Context, k: nat)
    requires WellFormed(c) && |c.steps| == |c.invocations| && k <= |c.steps| && StateAfter(c, |c.steps|).Some?
    ensures StateAfter(c, k).Some?
  {
    hide StepOkAt, StateFrom, InitialState;
    if StateAfter(c, k).None? {
      RefusedForGood(c, k);
    }
  }

  lemma EachStepAccepted(c: Context, k: nat)
    requires WellFormed(c) && Verified(c) && k < |c.steps|
    ensures StateAfter(c, k).Some? && StepOkAt(c, StateAfter(c, k).value, k)
    ensures StateAfter(c, k + 1) == Some(StateFrom(c, StateAfter(c, k).value, k))
  {
    hide StepOkAt, StateFrom, InitialState;
    PrefixAccepted(c, k);
    PrefixAccepted(c, k + 1);
  }

  lemma {:induction false} StateTracksTheRun(c: Context, k: nat)
    requires WellFormed(c) && Verified(c) && k <= |c.steps|
    ensures StateAfter(c, k).Some?
    ensures var st := StateAfter(c, k).value;
            st.previous == InventoryBefore(c, k) && Versions(st.previous) == FoldedVersions(c, k)
            && st.origins == DeclaredOrigins(c, k)
  {
    hide StepOk, Versions, Delta, ExpectedSources, Available, ByIdentity;
    if k > 0 {
      StateTracksTheRun(c, k - 1);
      EachStepAccepted(c, k - 1);
      StepSays(c, StateAfter(c, k - 1).value, k - 1);
      assert c.invocations[k - 1] in c.invocations;
    }
  }

  lemma StepSays(c: Context, st: State, k: nat)
    requires WellFormed(c) && k < |c.steps| == |c.invocations| && StepOkAt(c, st, k)
    ensures c.steps[k].before == st.previous
    ensures Versions(c.steps[k].after) == Versions(c.steps[k].before) + Delta(c.setting, c.steps[k].resolver)
  {
    hide EnvironmentOk, ReportOk, OfflineOk, Active, Versions, Delta;
  }

  lemma {:induction false} AvailableWasCaptured(c: Context, k: nat)
    requires WellFormed(c) && Verified(c) && k <= |c.steps|
    ensures StateAfter(c, k).Some?
    ensures forall key | key in StateAfter(c, k).value.available ::
              var a := StateAfter(c, k).value.available[key];
              a in Captured(c, k) && (a.name, a.version) == key
  {
    hide StepOk, Origins, ByIdentity;
    if k == 0 {
      IdentitiesAreTheirOwn(c.setting.backend);
    } else {
      AvailableWasCaptured(c, k - 1);
      EachStepAccepted(c, k - 1);
      IdentitiesAreTheirOwn(c.steps[k - 1].artifacts);
    }
  }

  lemma {:induction false} IdentitiesAreTheirOwn(artifacts: seq<Artifact>)
    ensures forall key | key in ByIdentity(artifacts) ::
              ByIdentity(artifacts)[key] in artifacts
              && (ByIdentity(artifacts)[key].name, ByIdentity(artifacts)[key].version) == key
  {
    var pairs := seq(|artifacts|,
                     i requires 0 <= i < |artifacts| => ((artifacts[i].name, artifacts[i].version), artifacts[i]));
    DictComesFromPairs(pairs);
  }

  /**
   Lineage: step `k` starts where the previous one ended, the versions are the fold of the deltas,
   and every backend distribution keeps its version.
   */
  lemma VerifiedMeansLineage(c: Context, k: nat)
    requires WellFormed(c) && Verified(c) && k < |c.steps|
    ensures c.steps[k].before == InventoryBefore(c, k)
    ensures Versions(c.steps[k].after) == FoldedVersions(c, k + 1)
    ensures forall d | d in c.setting.initial ::
              d in c.steps[k].after && c.steps[k].after[d].version == c.setting.initial[d].version
  {
    hide ReportOk, OfflineOk, Active, Site.SiteAccepted;
    StateTracksTheRun(c, k);
    StateTracksTheRun(c, k + 1);
    EachStepAccepted(c, k);
  }

  lemma {:induction false} ActiveCovers(c: Setting, order: seq<string>, after: Inventory,
                                        available: map<(string, string), Artifact>)
    requires (forall d | d in order :: d in after) && Active(c, order, after, available).Some?
    requires forall key | key in available :: (available[key].name, available[key].version) == key
    ensures forall d | d in order && d !in c.packages ::
              exists a :: a in Active(c, order, after, available).value && a.name == d && a.version == after[d].version
    ensures forall a | a in Active(c, order, after, available).value ::
              a in available.Values && a.name in order && a.name !in c.packages && a.version == after[a.name].version
  {
    if order != [] {
      var front := order[..|order| - 1];
      assert order == front + [order[|order| - 1]];
      ActiveCovers(c, front, after, available);
    }
  }

  /** Every index-installed distribution after step `k` is an artifact captured by then, at its exact version. */
  lemma EveryDistributionWasCaptured(c: Context, k: nat, d: string)
    requires WellFormed(c) && Verified(c) && k < |c.steps| && d in c.steps[k].after && d !in c.setting.packages
    ensures exists a :: a in c.steps[k].activeArtifacts && a in Captured(c, k + 1)
                        && a.name == d && a.version == c.steps[k].after[d].version
  {
    hide ReportOk, OfflineOk, Active, Site.SiteAccepted;
    AvailableWasCaptured(c, k + 1);
    EachStepAccepted(c, k);
    var st, s := StateAfter(c, k).value, c.steps[k];
    assert s in c.steps;
    ActiveCovers(c.setting, s.afterOrder, s.after, Available(st, s));
  }

  /** After step `k` every declared source is installed from the origin its latest declaration names. */
  lemma DeclaredSourcesAreInPlace(c: Context, k: nat, d: string)
    requires WellFormed(c) && Verified(c) && k < |c.steps| && d in DeclaredOrigins(c, k + 1)
    ensures d in c.steps[k].after && c.steps[k].after[d].directUrl == Some(DeclaredOrigins(c, k + 1)[d].direct)
  {
    hide ReportOk, OfflineOk, Active, Site.SiteAccepted, Closure.Complete, Closure.AuthenticSet, DeclaredOrigins, Delta,
         Versions, Remotes;
    StateTracksTheRun(c, k + 1);
    EachStepAccepted(c, k);
  }

  /** After step `k` the captured distributions form a complete closure of what was asked for so far. */
  lemma EveryStepIsComplete(c: Context, k: nat)
    requires WellFormed(c) && Verified(c) && k < |c.steps|
    ensures Closure.DistinctNames(c.steps[k].activeArtifacts)
    ensures c.setting.roots(c.invocations[..k + 1]) == Some(c.steps[k].requiredClosure)
    ensures Closure.Complete(c.setting.engine, Closure.ByName(c.steps[k].activeArtifacts), c.steps[k].requiredClosure)
  {
    hide ReportOk, OfflineOk, Active, Site.SiteAccepted, Closure.Complete;
    EachStepAccepted(c, k);
  }

  /** The wheels step `k` is held against: its active artifacts, and the builds of the sources declared so far. */
  function HeldWheels(c: Context, k: nat): Site.Wheels
    requires k < |c.steps| == |c.invocations| && WheelArchives(c.setting, c.steps[k].activeArtifacts).Some?
  {
    Wheels(c.setting, WheelArchives(c.setting, c.steps[k].activeArtifacts).value, DeclaredOrigins(c, k + 1))
  }

  /** The build of the declared source, of the kind declared, or the warehouse's wheel of the captured artifact. */
  ghost predicate FromItsWheel(c: Context, k: nat, d: string, archive: Site.Archive)
    requires k < |c.steps| == |c.invocations| && d in c.steps[k].after
  {
    var declared := DeclaredOrigins(c, k + 1);
    if d in declared then
      var built := if declared[d].direct.editable then c.setting.editableWheels else c.setting.sourceWheels;
      d in built && built[d] == archive
    else
      exists a :: a in c.steps[k].activeArtifacts && a.name == d && a.version == c.steps[k].after[d].version
                  && a.filename in c.setting.warehouse && c.setting.unzip(c.setting.warehouse[a.filename]) == archive
  }

  /**
   After step `k` every distribution is, byte for byte, the contents of a captured wheel or of the source
   build its latest declaration names, provided it is not a source package nobody declared.
   */
  lemma EveryDistributionIsExact(c: Context, k: nat, d: string, disk: map<Site.Path, Site.Bytes>, site: set<Site.Path>)
    requires WellFormed(c) && Verified(c) && k < |c.steps| && d in c.steps[k].after
    requires d !in c.setting.packages || d in DeclaredOrigins(c, k + 1)
    requires Site.Faithful(c.setting.lab, c.steps[k].after, disk, site) && Site.Injective(c.setting.lab.digest)
    ensures WheelArchives(c.setting, c.steps[k].activeArtifacts).Some?
    ensures exists archive, dir ::
              && Site.HeldAgainst(HeldWheels(c, k), d, archive)
              && FromItsWheel(c, k, d, archive)
              && Site.ExactOnDisk(c.setting.lab, c.steps[k].after[d], archive, dir, disk)
              && Site.RecordMatchesDisk(c.setting.lab, c.steps[k].after[d], dir, disk)
              && Site.LaidOut(c.setting.lab, c.steps[k].after[d], archive, dir, disk)
  {
    hide ReportOk, OfflineOk, Active, Site.SiteAccepted, Site.ExactOnDisk, Site.RecordMatchesDisk, Site.Faithful,
         Closure.Complete;
    StateTracksTheRun(c, k + 1);
    EachStepAccepted(c, k);
    var e, s, origins := c.setting, c.steps[k], DeclaredOrigins(c, k + 1);
    assert EnvironmentOk(e, s, s.activeArtifacts, s.requiredClosure, origins);
    var w := HeldWheels(c, k);
    var archive := HeldArchive(c, k, d, w);
    Site.HeldDistributionsAreExact(e.lab, e.owned, s.after, w, disk, site, d, archive);
  }

  /** The archive the census held a distribution against. */
  lemma HeldArchive(c: Context, k: nat, d: string, w: Site.Wheels) returns (archive: Site.Archive)
    requires WellFormed(c) && Verified(c) && k < |c.steps| && d in c.steps[k].after
    requires d !in c.setting.packages || d in DeclaredOrigins(c, k + 1)
    requires WheelArchives(c.setting, c.steps[k].activeArtifacts).Some? && w == HeldWheels(c, k)
    requires Site.SiteAccepted(c.setting.lab, c.setting.owned, c.steps[k].after, w)
    ensures Site.HeldAgainst(w, d, archive) && FromItsWheel(c, k, d, archive)
  {
    hide WellFormed, StateAfter, InitialOk, StepOk, DeclaredOrigins, Site.Explained, Site.Apart, Site.Census,
         Site.SiteFiles;
    if d in DeclaredOrigins(c, k + 1) {
      assert d in w.origins && Site.SourceExplained(c.setting.lab, c.steps[k].after, w, d);
      archive := Site.SourceArchive(w, d).value;
    } else {
      EveryDistributionWasCaptured(c, k, d);
      var a :| a in c.steps[k].activeArtifacts && a.name == d && a.version == c.steps[k].after[d].version;
      var i :| 0 <= i < |c.steps[k].activeArtifacts| && c.steps[k].activeArtifacts[i] == a;
      archive := w.active[i].1;
      assert w.active[i] == (d, archive);
    }
  }

  // ---- acceptance is possible at every length ---------------------------------------------------

  function IdleStep(c: Setting): Step {
    Step(map[], map[], map[], map[], map[], [], c.head, [], c.head, [], [], [], [])
  }

  /** `n` invocations that ask for nothing, from an empty environment. */
  function IdleRun(c: Setting, n: nat): Context {
    Context(c.(packages := map[], roots := invocations => Some([]), expectedSource := map[], backend := [],
               initial := map[]),
            seq(n, i => Invocation([], [])), seq(n, i => IdleStep(c)))
  }

  lemma NothingIsComplete(e: Closure.Engine)
    ensures Closure.Complete(e, map[], [])
  {
    Closure.ReachedIsLeast(e, map[], [], {});
  }

  lemma EmptySiteIsAccepted(lab: Site.Lab, owned: Site.Owned, w: Site.Wheels)
    requires w.active == [] && w.origins == map[]
    ensures Site.SiteAccepted(lab, owned, map[], w)
  {
    assert Site.SiteFiles(lab, map[]) == {};
  }

  lemma IdleStepIsOk(c: Setting, n: nat, k: nat)
    requires k < n
    ensures WellFormed(IdleRun(c, n)) && StepOkAt(IdleRun(c, n), State(map[], map[], map[]), k)
    ensures StateFrom(IdleRun(c, n), State(map[], map[], map[]), k) == State(map[], map[], map[])
  {
    hide Closure.Complete, Site.SiteAccepted;
    var run, st := IdleRun(c, n), State(map[], map[], map[]);
    var e := run.setting;
    assert run.steps[k] == IdleStep(c) && run.invocations[..k + 1][k] == Invocation([], []);
    assert ExpectedSources(e, run.invocations[k]) == map[];
    NothingIsComplete(e.engine);
    EmptySiteIsAccepted(e.lab, e.owned, Wheels(e, [], map[]));
    assert Closure.ByName([]) == map[] && WheelArchives(e, []).Some? && WheelArchives(e, []).value == [];
    assert EnvironmentOk(e, IdleStep(c), [], [], map[]);
  }

  lemma {:induction false} IdleStateStays(c: Setting, n: nat, k: nat)
    requires k <= n && WellFormed(IdleRun(c, n))
    ensures StateAfter(IdleRun(c, n), k) == Some(State(map[], map[], map[]))
  {
    hide StepOkAt, StateFrom, WellFormed;
    if k > 0 {
      IdleStateStays(c, n, k - 1);
      IdleStepIsOk(c, n, k - 1);
    }
  }

  /** Runs of every length are accepted when each invocation asks for nothing and changes nothing. */
  lemma IdleRunsAreVerified(c: Setting, n: nat)
    ensures WellFormed(IdleRun(c, n)) && Verified(IdleRun(c, n))
  {
    hide StepOkAt, StateFrom, Site.SiteAccepted;
    var e := IdleRun(c, n).setting;
    assert WellFormed(IdleRun(c, n));
    IdleStateStays(c, n, n);
    EmptySiteIsAccepted(e.lab, e.owned, Wheels(e, [], map[]));
    assert WheelArchives(e, []).Some? && WheelArchives(e, []).value == [];
  }
}
