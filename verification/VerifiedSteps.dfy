/** What acceptance of a run says of its reports, artifacts and declarations, item by item. */
module VerifiedSteps {
  import opened Common
  import opened InstallLineage
  import Site = SiteCensus
  import Closure = DependencyClosure

  // ---- declarations -----------------------------------------------------------------------------------

  /** The `i`-th word of the invocation names the source of package `d`. */
  ghost predicate Names(c: Setting, inv: Invocation, i: nat, d: string) {
    && i < |inv.requested| && i < |inv.editable|
    && c.sourceTarget(inv.requested[i]) == Some(d) && d in c.packages
  }

  /** The last word that does says how the package is to be installed. */
  ghost predicate NamedAs(c: Setting, inv: Invocation, d: string, source: Source) {
    exists i: nat ::
      && Names(c, inv, i, d) && (forall j: nat | i < j :: !Names(c, inv, j, d))
      && source.direct.url == c.sourceUrl(d) && source.direct.editable == inv.editable[i]
      && source.version == c.packages[d]
  }

  /** Among the first `k` words, the last that names the package says it so. */
  ghost predicate NamedWithin(c: Setting, inv: Invocation, k: nat, d: string, source: Source) {
    exists i: nat ::
      && i < k && Names(c, inv, i, d) && (forall j: nat | i < j < k :: !Names(c, inv, j, d))
      && source.direct.url == c.sourceUrl(d) && source.direct.editable == inv.editable[i]
      && source.version == c.packages[d]
  }

  /** One word more: it names its target, if that is a package, and nothing else. */
  lemma OneWordMore(c: Setting, inv: Invocation, k: nat, d: string)
    requires k < |inv.requested| && k < |inv.editable|
    ensures var before, after := Dict(SourcePairs(c, inv, k)), Dict(SourcePairs(c, inv, k + 1));
      if Names(c, inv, k, d)
      then d in after && after[d] == Source(Site.DirectUrl(c.sourceUrl(d), inv.editable[k]), c.packages[d])
      else (d in after <==> d in before) && (d in before ==> after[d] == before[d])
  {
    var before, pairs, target := SourcePairs(c, inv, k), SourcePairs(c, inv, k + 1), c.sourceTarget(inv.requested[k]);
    if target.Some? && target.value in c.packages {
      assert pairs == before + [pairs[|before|]] && pairs[..|pairs| - 1] == before;
    } else {
      assert pairs == before;
    }
  }

  lemma {:induction false} PairsNameSources(c: Setting, inv: Invocation, k: nat, d: string)
    requires k <= |inv.requested| && k <= |inv.editable|
    ensures d in Dict(SourcePairs(c, inv, k)) <==> exists i: nat :: i < k && Names(c, inv, i, d)
    ensures d in Dict(SourcePairs(c, inv, k)) ==> NamedWithin(c, inv, k, d, Dict(SourcePairs(c, inv, k))[d])
  {
    if k > 0 {
      hide Names, SourcePairs, NamedWithin, Dict;
      PairsNameSources(c, inv, k - 1, d);
      OneWordMore(c, inv, k - 1, d);
      if Names(c, inv, k - 1, d) {
        LastWordNames(c, inv, k, d);
      } else if d in Dict(SourcePairs(c, inv, k - 1)) {
        OtherWordsLeaveIt(c, inv, k, d, Dict(SourcePairs(c, inv, k - 1))[d]);
      }
    }
  }

  lemma OtherWordsLeaveIt(c: Setting, inv: Invocation, k: nat, d: string, source: Source)
    requires 0 < k && NamedWithin(c, inv, k - 1, d, source) && !Names(c, inv, k - 1, d)
    ensures NamedWithin(c, inv, k, d, source)
  {
    hide Names;
  }

  lemma LastWordNames(c: Setting, inv: Invocation, k: nat, d: string)
    requires 0 < k <= |inv.requested| && k <= |inv.editable| && Names(c, inv, k - 1, d)
    ensures NamedWithin(c, inv, k, d, Source(Site.DirectUrl(c.sourceUrl(d), inv.editable[k - 1]), c.packages[d]))
  {
  }

  lemma ExpectedAreNamed(c: Setting, inv: Invocation, d: string)
    ensures d in ExpectedSources(c, inv) <==> exists i: nat :: Names(c, inv, i, d)
    ensures d in ExpectedSources(c, inv) ==> NamedAs(c, inv, d, ExpectedSources(c, inv)[d])
  {
    PairsNameSources(c, inv, if |inv.editable| < |inv.requested| then |inv.editable| else |inv.requested|, d);
  }

  /** The latest of the first `k` invocations that name the package, and how. */
  ghost predicate LatestDeclares(c: Context, k: nat, d: string, source: Source)
    requires k <= |c.invocations|
  {
    exists j: nat ::
      && j < k && NamedAs(c.setting, c.invocations[j], d, source)
      && forall l: nat, i: nat | j < l < k :: !Names(c.setting, c.invocations[l], i, d)
  }

  /** The declared origins are the packages some invocation named, as the latest of them said. */
  lemma {:induction false} DeclaredOriginsAre(c: Context, k: nat, d: string)
    requires k <= |c.invocations|
    ensures d in DeclaredOrigins(c, k) <==> exists j: nat, i: nat :: j < k && Names(c.setting, c.invocations[j], i, d)
    ensures d in DeclaredOrigins(c, k) ==> LatestDeclares(c, k, d, DeclaredOrigins(c, k)[d])
  {
    hide Names, NamedAs, ExpectedSources;
    if k > 0 {
      DeclaredOriginsAre(c, k - 1, d);
      ExpectedAreNamed(c.setting, c.invocations[k - 1], d);
      if d in DeclaredOrigins(c, k) && d !in ExpectedSources(c.setting, c.invocations[k - 1]) {
        var source := DeclaredOrigins(c, k)[d];
        assert LatestDeclares(c, k - 1, d, source);
      }
    }
  }

  // ---- reports ------------------------------------------------------------------------------------------

  /** An item read from a file under the name of a source package. */
  predicate FromSource(c: Setting, x: Item) {
    c.isFileUrl(x.url) && c.engine.canonical(x.name) in c.packages
  }

  /**
   A remote item has a captured origin or, offline, is a file of the warehouse; an item from source is where,
   how and in the version the invocation names it.
   */
  ghost predicate Bound(c: Setting, inv: Invocation, x: Item, offline: bool) {
    if !c.isFileUrl(x.url) then c.engine.originFilename(x.url).Some?
    else if c.engine.canonical(x.name) !in c.packages then
      && offline && c.wheelFilename(x.url).Some?
      && x.url == c.warehouseUrl(c.wheelFilename(x.url).value)
    else x.direct.Some? && NamedAs(c, inv, c.engine.canonical(x.name), Source(x.direct.value, x.version))
  }

  /** Exactly one item comes from the source of the package. */
  ghost predicate FromSourceOnce(c: Setting, items: seq<Item>, d: string) {
    exists p ::
      && 0 <= p < |items| && FromSource(c, items[p]) && c.engine.canonical(items[p].name) == d
      && forall q | 0 <= q < |items| && FromSource(c, items[q]) && c.engine.canonical(items[q].name) == d :: q == p
  }

  lemma ReportMeans(c: Setting, head: Head, items: seq<Item>, inv: Invocation, offline: bool)
    requires ReportOk(c, head, items, ExpectedSources(c, inv), offline)
    ensures head == c.head && forall x | x in items :: Bound(c, inv, x, offline)
    ensures forall d, i: nat | Names(c, inv, i, d) :: FromSourceOnce(c, items, d)
  {
    hide ExpectedSources, Names, NamedAs, Bound, ItemOk, FromSourceOnce, LocalsDistinct, LocalNames;
    forall x | x in items ensures Bound(c, inv, x, offline) {
      ItemIsBound(c, inv, x, offline);
    }
    forall d, i: nat | Names(c, inv, i, d) ensures FromSourceOnce(c, items, d) {
      ExpectedAreNamed(c, inv, d);
      LocalIsOnce(c, items, d);
    }
  }

  lemma ItemIsBound(c: Setting, inv: Invocation, x: Item, offline: bool)
    requires ItemOk(c, x, ExpectedSources(c, inv), offline)
    ensures Bound(c, inv, x, offline)
  {
    hide ExpectedSources, Names, NamedAs;
    ExpectedAreNamed(c, inv, c.engine.canonical(x.name));
  }

  lemma LocalIsOnce(c: Setting, items: seq<Item>, d: string)
    requires LocalsDistinct(c, items) && d in LocalNames(c, items)
    ensures FromSourceOnce(c, items, d)
  {
    var x :| x in items && IsLocal(c, x) && NameOf(c, x) == d;
    var p :| 0 <= p < |items| && items[p] == x;
    OnlyOneLocal(c, items, p);
    hide LocalsDistinct, LocalNames;
    assert FromSource(c, items[p]);
  }

  lemma OnlyOneLocal(c: Setting, items: seq<Item>, p: nat)
    requires LocalsDistinct(c, items) && p < |items| && IsLocal(c, items[p])
    ensures forall q | 0 <= q < |items| && IsLocal(c, items[q]) && NameOf(c, items[q]) == NameOf(c, items[p]) :: q == p
  {
    forall q | 0 <= q < |items| && IsLocal(c, items[q]) && NameOf(c, items[q]) == NameOf(c, items[p]) ensures q == p {
      assert !(q < p) && !(p < q);
    }
  }

  lemma StepReportsOk(c: Context, st: State, k: nat)
    requires WellFormed(c) && k < |c.steps| == |c.invocations| && StepOkAt(c, st, k)
    ensures var s, inv, e := c.steps[k], c.invocations[k], c.setting;
      && |inv.requested| == |inv.editable|
      && s.sourceBefore == s.sourceResolved == s.sourceAfter == e.expectedSource
      && ReportOk(e, s.resolverHead, s.resolver, ExpectedSources(e, inv), false)
      && ReportOk(e, s.installedHead, s.installed, ExpectedSources(e, inv), true)
  {
    hide EnvironmentOk, OfflineOk, Active, ReportOk, ExpectedSources, Delta, Versions, Remotes;
    assert c.invocations[..k + 1][k] == c.invocations[k];
  }

  /** Both reports of an accepted step are this pip's, bound item by item, and name each declared source once. */
  lemma StepReports(c: Context, k: nat)
    requires WellFormed(c) && Verified(c) && k < |c.steps|
    ensures |c.steps| == |c.invocations| && |c.invocations[k].requested| == |c.invocations[k].editable|
    ensures var s, inv, e := c.steps[k], c.invocations[k], c.setting;
      && s.resolverHead == e.head && s.installedHead == e.head
      && s.sourceBefore == e.expectedSource && s.sourceResolved == e.expectedSource && s.sourceAfter == e.expectedSource
      && (forall x | x in s.resolver :: Bound(e, inv, x, false))
      && (forall x | x in s.installed :: Bound(e, inv, x, true))
      && forall d, i: nat | Names(e, inv, i, d) :: FromSourceOnce(e, s.resolver, d) && FromSourceOnce(e, s.installed, d)
  {
    hide ReportOk, ExpectedSources, Bound, Names, FromSourceOnce, StepOkAt, StateAfter, InitialOk, WellFormed;
    EachStepAccepted(c, k);
    var s, inv := c.steps[k], c.invocations[k];
    StepReportsOk(c, StateAfter(c, k).value, k);
    ReportMeans(c.setting, s.resolverHead, s.resolver, inv, false);
    ReportMeans(c.setting, s.installedHead, s.installed, inv, true);
  }

  // ---- versions -----------------------------------------------------------------------------------------

  /** The last item of that name, if any has it. */
  ghost predicate LastNamed(c: Setting, items: seq<Item>, d: string, p: int) {
    && 0 <= p < |items| && c.engine.canonical(items[p].name) == d
    && forall q | p < q < |items| :: c.engine.canonical(items[q].name) != d
  }

  ghost predicate Mentions(c: Setting, items: seq<Item>, d: string) {
    exists x :: x in items && c.engine.canonical(x.name) == d
  }

  lemma DeltaIsLast(c: Setting, items: seq<Item>, d: string)
    ensures d in Delta(c, items) <==> Mentions(c, items, d)
    ensures d in Delta(c, items) ==> exists p :: LastNamed(c, items, d, p) && Delta(c, items)[d] == items[p].version
  {
    var pairs := seq(|items|, i requires 0 <= i < |items| => (NameOf(c, items[i]), items[i].version));
    DictHasTheLast(pairs, d);
    if Mentions(c, items, d) {
      var x :| x in items && c.engine.canonical(x.name) == d;
      var i :| 0 <= i < |items| && items[i] == x;
      assert pairs[i].0 == d;
    }
    if d in Delta(c, items) {
      var p :| 0 <= p < |pairs| && pairs[p] == (d, Dict(pairs)[d]) && forall j | p < j < |pairs| :: pairs[j].0 != d;
      assert forall q | p < q < |items| :: pairs[q].0 == c.engine.canonical(items[q].name);
      assert LastNamed(c, items, d, p) && items[p] in items;
    }
  }

  /** What is installed after an accepted step: the resolver's last word on each name, or what was there. */
  lemma StepVersions(c: Context, k: nat, d: string)
    requires WellFormed(c) && Verified(c) && k < |c.steps|
    ensures var s, before := c.steps[k], InventoryBefore(c, k);
      && (d in s.after <==> d in before || Mentions(c.setting, s.resolver, d))
      && (d in s.after && !Mentions(c.setting, s.resolver, d) ==> s.after[d].version == before[d].version)
      && (Mentions(c.setting, s.resolver, d) ==>
            exists p :: LastNamed(c.setting, s.resolver, d, p) && s.after[d].version == s.resolver[p].version)
  {
    hide Delta, Mentions, LastNamed, StepOk;
    VerifiedMeansLineage(c, k);
    EachStepAccepted(c, k);
    StateTracksTheRun(c, k);
    StepSays(c, StateAfter(c, k).value, k);
    DeltaIsLast(c.setting, c.steps[k].resolver, d);
    var s, before := c.steps[k], InventoryBefore(c, k);
    assert Versions(s.after) == Versions(before) + Delta(c.setting, s.resolver);
    assert d in s.after <==> d in Versions(s.after);
    assert d in before <==> d in Versions(before);
  }

  // ---- artifacts ------------------------------------------------------------------------------------------

  /** The last remote item of that name. */
  ghost predicate LastRemote(c: Setting, items: seq<Item>, d: string, x: Item) {
    exists p ::
      && 0 <= p < |items| && items[p] == x && !FromSource(c, x) && c.engine.canonical(x.name) == d
      && forall q | p < q < |items| :: FromSource(c, items[q]) || c.engine.canonical(items[q].name) != d
  }

  lemma LastRemoteStays(c: Setting, front: seq<Item>, last: Item, d: string, x: Item)
    requires LastRemote(c, front, d, x) && (FromSource(c, last) || c.engine.canonical(last.name) != d)
    ensures LastRemote(c, front + [last], d, x)
  {
    hide FromSource;
    var items := front + [last];
    var p :| 0 <= p < |front| && front[p] == x
      && forall q | p < q < |front| :: FromSource(c, front[q]) || c.engine.canonical(front[q].name) != d;
    assert items[p] == x && forall q | p < q < |front| :: items[q] == front[q];
  }

  lemma LastNamedShrinks(c: Setting, front: seq<Item>, last: Item, d: string, p: int)
    requires LastNamed(c, front + [last], d, p)
    ensures if c.engine.canonical(last.name) == d then p == |front| else p < |front| && LastNamed(c, front, d, p)
  {
    var items := front + [last];
    assert items[|front|] == last;
    assert forall q | 0 <= q < |front| :: items[q] == front[q];
  }

  lemma RemotesUnfold(c: Setting, items: seq<Item>)
    requires items != []
    ensures var front, last := items[..|items| - 1], items[|items| - 1];
      Remotes(c, items) == if FromSource(c, last) then Remotes(c, front) else Remotes(c, front) + [last]
  {
  }

  lemma {:induction false} RemotesKeepTheLast(c: Setting, items: seq<Item>, d: string, p: int)
    requires LastNamed(c, Remotes(c, items), d, p)
    ensures LastRemote(c, items, d, Remotes(c, items)[p])
  {
    hide FromSource, Remotes, LastRemote;
    if items == [] {
      assert false by {
        NothingIsNamed(c, d, p);
      }
    } else {
      var front, last := items[..|items| - 1], items[|items| - 1];
      RemotesUnfold(c, items);
      assert items == front + [last];
      if FromSource(c, last) {
        RemotesKeepTheLast(c, front, d, p);
        LastRemoteStays(c, front, last, d, Remotes(c, items)[p]);
      } else {
        LastNamedShrinks(c, Remotes(c, front), last, d, p);
        if c.engine.canonical(last.name) == d {
          NewestIsLast(c, front, last, d);
        } else {
          RemotesKeepTheLast(c, front, d, p);
          LastRemoteStays(c, front, last, d, Remotes(c, items)[p]);
        }
      }
    }
  }

  lemma NothingIsNamed(c: Setting, d: string, p: int)
    ensures !LastNamed(c, Remotes(c, []), d, p)
  {
  }

  lemma NewestIsLast(c: Setting, front: seq<Item>, last: Item, d: string)
    requires !FromSource(c, last) && c.engine.canonical(last.name) == d
    ensures LastRemote(c, front + [last], d, last)
  {
    assert (front + [last])[|front|] == last;
  }

  /** The last artifact of that name. */
  ghost predicate LastArtifact(artifacts: seq<Artifact>, d: string, a: Artifact) {
    exists p ::
      && 0 <= p < |artifacts| && artifacts[p] == a && a.name == d
      && forall q | p < q < |artifacts| :: artifacts[q].name != d
  }

  lemma IdentitiesAreLast(c: Setting, items: seq<Item>, artifacts: seq<Artifact>, d: string)
    requires ArtifactIdentities(artifacts) == RemoteIdentities(c, items)
    ensures (exists p :: LastNamed(c, items, d, p)) || (exists a :: a in artifacts && a.name == d) ==>
              exists p, a :: LastNamed(c, items, d, p) && LastArtifact(artifacts, d, a)
                             && a.version == items[p].version && a.origin == items[p].url && a.sha256 == items[p].sha256
  {
    var remote := seq(|items|, i requires 0 <= i < |items| =>
      (NameOf(c, items[i]), (items[i].version, items[i].url, items[i].sha256)));
    var captured := seq(|artifacts|, i requires 0 <= i < |artifacts| =>
      (artifacts[i].name, (artifacts[i].version, artifacts[i].origin, artifacts[i].sha256)));
    DictHasTheLast(remote, d);
    DictHasTheLast(captured, d);
    if p :| LastNamed(c, items, d, p) {
      assert remote[p].0 == d;
    }
    if a :| a in artifacts && a.name == d {
      var i :| 0 <= i < |artifacts| && artifacts[i] == a;
      assert captured[i].0 == d;
    }
    if d in Dict(remote) {
      var p := LastOfRemote(c, items, remote, d);
      var a := LastOfCaptured(artifacts, captured, d);
    }
  }

  lemma LastOfRemote(c: Setting, items: seq<Item>, pairs: seq<(string, (string, string, string))>, d: string)
    returns (p: int)
    requires |pairs| == |items| && d in Dict(pairs) && LastFor(pairs, d, Dict(pairs)[d])
    requires forall i | 0 <= i < |items| ::
               pairs[i] == (c.engine.canonical(items[i].name), (items[i].version, items[i].url, items[i].sha256))
    ensures LastNamed(c, items, d, p) && Dict(pairs)[d] == (items[p].version, items[p].url, items[p].sha256)
  {
    p :| 0 <= p < |pairs| && pairs[p] == (d, Dict(pairs)[d]) && forall j | p < j < |pairs| :: pairs[j].0 != d;
    assert forall q | p < q < |items| :: pairs[q].0 == c.engine.canonical(items[q].name);
  }

  lemma LastOfCaptured(artifacts: seq<Artifact>, pairs: seq<(string, (string, string, string))>, d: string)
    returns (a: Artifact)
    requires |pairs| == |artifacts| && d in Dict(pairs) && LastFor(pairs, d, Dict(pairs)[d])
    requires forall i | 0 <= i < |artifacts| ::
               pairs[i] == (artifacts[i].name, (artifacts[i].version, artifacts[i].origin, artifacts[i].sha256))
    ensures LastArtifact(artifacts, d, a) && Dict(pairs)[d] == (a.version, a.origin, a.sha256)
  {
    var p :| 0 <= p < |pairs| && pairs[p] == (d, Dict(pairs)[d]) && forall j | p < j < |pairs| :: pairs[j].0 != d;
    a := artifacts[p];
    assert forall q | p < q < |artifacts| :: pairs[q].0 == artifacts[q].name;
  }

  lemma {:induction false} SomeIsLast(c: Setting, items: seq<Item>, d: string)
    requires Mentions(c, items, d)
    ensures exists p :: LastNamed(c, items, d, p)
  {
    var front, last := items[..|items| - 1], items[|items| - 1];
    if c.engine.canonical(last.name) == d {
      assert LastNamed(c, items, d, |items| - 1);
    } else {
      var x :| x in items && c.engine.canonical(x.name) == d;
      assert items == front + [last] && x in front;
      SomeIsLast(c, front, d);
      var p :| LastNamed(c, front, d, p);
      assert LastNamed(c, items, d, p);
    }
  }

  lemma {:induction false} RemotesAre(c: Setting, items: seq<Item>, x: Item)
    ensures x in Remotes(c, items) <==> x in items && !FromSource(c, x)
  {
    if items != [] {
      RemotesAre(c, items[..|items| - 1], x);
      assert items == items[..|items| - 1] + [items[|items| - 1]];
    }
  }

  ghost predicate SomeRemote(c: Setting, items: seq<Item>, d: string) {
    exists x :: x in items && !FromSource(c, x) && c.engine.canonical(x.name) == d
  }

  /** The last remote item and the last artifact of a name are one version, from one origin, with one digest. */
  ghost predicate CapturedAs(c: Setting, items: seq<Item>, artifacts: seq<Artifact>, d: string) {
    exists x, a :: LastRemote(c, items, d, x) && LastArtifact(artifacts, d, a)
                   && a.version == x.version && a.origin == x.url && a.sha256 == x.sha256
  }

  lemma ArtifactsAreCaptured(c: Setting, items: seq<Item>, artifacts: seq<Artifact>, d: string)
    requires ArtifactIdentities(artifacts) == RemoteIdentities(c, Remotes(c, items))
    requires SomeRemote(c, items, d) || exists a :: a in artifacts && a.name == d
    ensures CapturedAs(c, items, artifacts, d)
  {
    hide ArtifactIdentities, RemoteIdentities, LastRemote, LastArtifact, FromSource, Remotes;
    if SomeRemote(c, items, d) {
      var x :| x in items && !FromSource(c, x) && c.engine.canonical(x.name) == d;
      RemotesAre(c, items, x);
      SomeIsLast(c, Remotes(c, items), d);
    }
    IdentitiesAreLast(c, Remotes(c, items), artifacts, d);
    var p, a :| LastNamed(c, Remotes(c, items), d, p) && LastArtifact(artifacts, d, a)
      && a.version == Remotes(c, items)[p].version && a.origin == Remotes(c, items)[p].url
      && a.sha256 == Remotes(c, items)[p].sha256;
    RemotesKeepTheLast(c, items, d, p);
  }

  /** What an accepted step captures is, name by name, what its resolver last names from an index. */
  lemma StepArtifacts(c: Context, k: nat, d: string)
    requires WellFormed(c) && Verified(c) && k < |c.steps|
    ensures SomeRemote(c.setting, c.steps[k].resolver, d) || (exists a :: a in c.steps[k].artifacts && a.name == d) ==>
              CapturedAs(c.setting, c.steps[k].resolver, c.steps[k].artifacts, d)
  {
    hide EnvironmentOk, OfflineOk, Active, ReportOk, ExpectedSources, Delta, Versions, Remotes, ArtifactIdentities,
         RemoteIdentities, CapturedAs, SomeRemote, StateAfter, InitialOk, WellFormed, StepOkAt;
    EachStepAccepted(c, k);
    StepCaptures(c, StateAfter(c, k).value, k);
    if SomeRemote(c.setting, c.steps[k].resolver, d) || exists a :: a in c.steps[k].artifacts && a.name == d {
      ArtifactsAreCaptured(c.setting, c.steps[k].resolver, c.steps[k].artifacts, d);
    }
  }

  lemma StepCaptures(c: Context, st: State, k: nat)
    requires WellFormed(c) && k < |c.steps| == |c.invocations| && StepOkAt(c, st, k)
    ensures ArtifactIdentities(c.steps[k].artifacts)
              == RemoteIdentities(c.setting, Remotes(c.setting, c.steps[k].resolver))
    ensures OfflineOk(c.setting, Remotes(c.setting, c.steps[k].installed), Available(st, c.steps[k]))
  {
    hide EnvironmentOk, OfflineOk, Active, ReportOk, Delta, Versions, Remotes, ArtifactIdentities, RemoteIdentities;
  }

  /** Offline, an accepted step installs from the warehouse only artifacts captured by then. */
  lemma StepOffline(c: Context, k: nat, x: Item)
    requires WellFormed(c) && Verified(c) && k < |c.steps| && x in c.steps[k].installed && !FromSource(c.setting, x)
    ensures exists a :: a in Captured(c, k + 1) && a.name == c.setting.engine.canonical(x.name)
                        && a.version == x.version && x.url == c.setting.warehouseUrl(a.filename)
  {
    hide EnvironmentOk, Active, ReportOk, Delta, Versions, Remotes, ArtifactIdentities, RemoteIdentities, InitialOk,
         WellFormed, StepOkAt, FromSource, Captured, ByIdentity, Origins;
    EachStepAccepted(c, k);
    var st := StateAfter(c, k).value;
    StepCaptures(c, st, k);
    RemotesAre(c.setting, c.steps[k].installed, x);
    AvailableWasCaptured(c, k + 1);
    var key := (NameOf(c.setting, x), x.version);
    assert key in Available(st, c.steps[k]);
    assert StateAfter(c, k + 1).value.available == Available(st, c.steps[k]);
  }
}
