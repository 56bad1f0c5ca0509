/**
 What a verified run says of a source package: its contents are a wheel's exactly when some invocation
 declared it, and reports that name everything leave none undeclared.
 */
module UndeclaredSources {
  import opened Common
  import opened InstallLineage
  import Site = SiteCensus
  import Closure = DependencyClosure

  // ---- exchanging one inventory of a run ------------------------------------------------------------

  /** The run with another inventory between step `k` and the next. */
  function Reinstalled(c: Context, k: nat, more: Inventory): Context
    requires k < |c.steps|
  {
    c.(steps := seq(|c.steps|, i requires 0 <= i < |c.steps| =>
      if i == k then c.steps[i].(after := more)
      else if i == k + 1 then c.steps[i].(before := more)
      else c.steps[i]))
  }

  /** The same versions, the declared origins in place, and everything held accounted for. */
  ghost predicate StandsIn(c: Context, k: nat, more: Inventory)
    requires k < |c.steps| == |c.invocations| && WheelArchives(c.setting, c.steps[k].activeArtifacts).Some?
  {
    && Versions(more) == Versions(c.steps[k].after)
    && OriginsOk(more, DeclaredOrigins(c, k + 1))
    && Site.SiteAccepted(c.setting.lab, c.setting.owned, more, HeldWheels(c, k))
  }

  lemma SameDistributions(one: Inventory, other: Inventory)
    requires Versions(one) == Versions(other)
    ensures one.Keys == other.Keys && forall d | d in one :: one[d].version == other[d].version
  {
    assert Versions(one).Keys == one.Keys && Versions(other).Keys == other.Keys;
    assert forall d | d in one :: Versions(one)[d] == one[d].version;
    assert forall d | d in other :: Versions(other)[d] == other[d].version;
  }

  /** What is active depends on the installed versions alone. */
  lemma {:induction false} ActiveDependsOnVersions(c: Setting, order: seq<string>, one: Inventory, other: Inventory,
                                                   available: map<(string, string), Artifact>)
    requires one.Keys == other.Keys && (forall d | d in one :: one[d].version == other[d].version)
    requires forall d | d in order :: d in one
    ensures Active(c, order, one, available) == Active(c, order, other, available)
  {
    if order != [] {
      ActiveDependsOnVersions(c, order[..|order| - 1], one, other, available);
    }
  }

  lemma ChangedEnvironmentIsOk(c: Setting, s: Step, origins: map<string, Source>, more: Inventory)
    requires EnvironmentOk(c, s, s.activeArtifacts, s.requiredClosure, origins)
    requires more.Keys == s.after.Keys && (forall d | d in more :: more[d].version == s.after[d].version)
    requires OriginsOk(more, origins) && WheelArchives(c, s.activeArtifacts).Some?
    requires Site.SiteAccepted(c.lab, c.owned, more, Wheels(c, WheelArchives(c, s.activeArtifacts).value, origins))
    ensures EnvironmentOk(c, s.(after := more), s.activeArtifacts, s.requiredClosure, origins)
  {
    hide Closure.Complete, Closure.AuthenticSet, WheelArchives, Site.SiteAccepted, OriginsOk;
  }

  lemma ChangedStepIsOk(c: Setting, st: State, s: Step, invocations: seq<Invocation>, more: Inventory)
    requires WellFormedStep(s) && invocations != [] && StepOk(c, st, s, invocations)
    requires Versions(more) == Versions(s.after) && WheelArchives(c, s.activeArtifacts).Some?
    requires var origins := Origins(c, st, invocations[|invocations| - 1]);
      && OriginsOk(more, origins)
      && Site.SiteAccepted(c.lab, c.owned, more, Wheels(c, WheelArchives(c, s.activeArtifacts).value, origins))
    ensures WellFormedStep(s.(after := more))
    ensures StepOk(c, st, s.(after := more), invocations)
  {
    hide ReportOk, OfflineOk, ArtifactIdentities, RemoteIdentities, Remotes, Delta, Versions, ExpectedSources, Active,
         EnvironmentOk, WheelArchives, Site.SiteAccepted, OriginsOk, Origins, Available, Wheels;
    SameDistributions(s.after, more);
    ActiveDependsOnVersions(c, s.afterOrder, s.after, more, Available(st, s));
    ChangedEnvironmentIsOk(c, s, Origins(c, st, invocations[|invocations| - 1]), more);
    assert Available(st, s) == Available(st, s.(after := more)) by {
      SameCaptures(st, s, more);
    }
  }

  lemma SameCaptures(st: State, s: Step, more: Inventory)
    ensures Available(st, s) == Available(st, s.(after := more))
  {
  }

  lemma RestartedStepIsOk(c: Setting, st: State, s: Step, invocations: seq<Invocation>, more: Inventory)
    requires WellFormedStep(s) && invocations != [] && StepOk(c, st, s, invocations)
    requires Versions(more) == Versions(st.previous)
    ensures WellFormedStep(s.(before := more))
    ensures StepOk(c, st.(previous := more), s.(before := more), invocations)
  {
    hide ReportOk, OfflineOk, ArtifactIdentities, RemoteIdentities, Remotes, Delta, Versions, Active, ExpectedSources,
         Closure.Complete, Closure.AuthenticSet, WheelArchives, Site.SiteAccepted, OriginsOk, BackendKept;
  }

  lemma ReinstalledIsWellFormed(c: Context, k: nat, more: Inventory)
    requires WellFormed(c) && k < |c.steps| && Versions(more) == Versions(c.steps[k].after)
    ensures WellFormed(Reinstalled(c, k, more))
  {
    SameDistributions(more, c.steps[k].after);
    var other := Reinstalled(c, k, more);
    forall s | s in other.steps ensures WellFormedStep(s) {
      var i :| 0 <= i < |other.steps| && other.steps[i] == s;
      assert c.steps[i] in c.steps;
    }
  }

  lemma ChangedStepAt(c: Context, st: State, k: nat, more: Inventory)
    requires WellFormed(c) && k < |c.steps| == |c.invocations| && StepOkAt(c, st, k)
    requires StateFrom(c, st, k).origins == DeclaredOrigins(c, k + 1)
    requires WheelArchives(c.setting, c.steps[k].activeArtifacts).Some? && StandsIn(c, k, more)
    requires WellFormed(Reinstalled(c, k, more))
    ensures StepOkAt(Reinstalled(c, k, more), st, k)
    ensures StateFrom(Reinstalled(c, k, more), st, k) == StateFrom(c, st, k).(previous := more)
  {
    hide StepOk, Versions, WheelArchives, Site.SiteAccepted, OriginsOk, DeclaredOrigins, Wheels, Origins, ByIdentity;
    assert c.steps[k] in c.steps && c.invocations[..k + 1][k] == c.invocations[k];
    ChangedStepIsOk(c.setting, st, c.steps[k], c.invocations[..k + 1], more);
  }

  lemma RestartedStepAt(c: Context, st: State, k: nat, more: Inventory)
    requires WellFormed(c) && k + 1 < |c.steps| == |c.invocations| && StepOkAt(c, st, k + 1)
    requires Versions(more) == Versions(st.previous) && WellFormed(Reinstalled(c, k, more))
    ensures StepOkAt(Reinstalled(c, k, more), st.(previous := more), k + 1)
    ensures StateFrom(Reinstalled(c, k, more), st.(previous := more), k + 1) == StateFrom(c, st, k + 1)
  {
    hide StepOk, Versions, ByIdentity;
    assert c.steps[k + 1] in c.steps;
    RestartedStepIsOk(c.setting, st, c.steps[k + 1], c.invocations[..k + 2], more);
  }

  lemma OtherStepAt(c: Context, st: State, k: nat, more: Inventory, i: nat)
    requires WellFormed(c) && k < |c.steps| && i < |c.steps| == |c.invocations| && i != k && i != k + 1
    requires StepOkAt(c, st, i) && WellFormed(Reinstalled(c, k, more))
    ensures StepOkAt(Reinstalled(c, k, more), st, i)
    ensures StateFrom(Reinstalled(c, k, more), st, i) == StateFrom(c, st, i)
  {
    hide StepOk, NextState;
  }

  lemma {:induction false} ReinstalledStates(c: Context, k: nat, more: Inventory, i: nat)
    requires WellFormed(c) && Verified(c) && k < |c.steps| && i <= |c.steps|
    requires WheelArchives(c.setting, c.steps[k].activeArtifacts).Some? && StandsIn(c, k, more)
    requires WellFormed(Reinstalled(c, k, more))
    ensures StateAfter(c, i).Some?
    ensures StateAfter(Reinstalled(c, k, more), i)
         == if i == k + 1 then Some(StateAfter(c, i).value.(previous := more)) else StateAfter(c, i)
  {
    hide StepOkAt, StateFrom, WellFormed, Verified, StandsIn, WheelArchives, InitialState, Versions, DeclaredOrigins;
    VerifiedPrefix(c, i);
    if i == 0 {
      FirstState(c, k, more);
    } else {
      ReinstalledStates(c, k, more, i - 1);
      EachStepAccepted(c, i - 1);
      StateTracksTheRun(c, i);
      var st := StateAfter(c, i - 1).value;
      if i - 1 == k {
        ChangedStepAt(c, st, k, more);
      } else if i - 1 == k + 1 {
        StateTracksTheRun(c, k + 1);
        StandsInVersions(c, k, more);
        RestartedStepAt(c, st, k, more);
      } else {
        OtherStepAt(c, st, k, more, i - 1);
      }
    }
  }

  lemma FirstState(c: Context, k: nat, more: Inventory)
    requires WellFormed(c) && k < |c.steps| == |c.invocations| && WellFormed(Reinstalled(c, k, more))
    ensures StateAfter(c, 0) == Some(InitialState(c.setting)) == StateAfter(Reinstalled(c, k, more), 0)
  {
  }

  lemma VerifiedPrefix(c: Context, i: nat)
    requires WellFormed(c) && Verified(c) && i <= |c.steps|
    ensures |c.steps| == |c.invocations| && StateAfter(c, i).Some?
  {
    hide StateAfter, InitialOk;
    PrefixAccepted(c, i);
  }

  lemma StandsInVersions(c: Context, k: nat, more: Inventory)
    requires k < |c.steps| == |c.invocations| && WheelArchives(c.setting, c.steps[k].activeArtifacts).Some?
    requires StandsIn(c, k, more)
    ensures Versions(more) == Versions(c.steps[k].after)
  {
  }

  /** Any inventory that stands in for the one after step `k` gives an accepted run. */
  lemma ReinstalledIsVerified(c: Context, k: nat, more: Inventory)
    requires WellFormed(c) && Verified(c) && k < |c.steps|
    requires WheelArchives(c.setting, c.steps[k].activeArtifacts).Some? && StandsIn(c, k, more)
    ensures WellFormed(Reinstalled(c, k, more)) && Verified(Reinstalled(c, k, more))
  {
    hide StandsIn, StateAfter, InitialOk, WheelArchives, Versions;
    StandsInVersions(c, k, more);
    ReinstalledIsWellFormed(c, k, more);
    ReinstalledStates(c, k, more, |c.steps|);
  }

  // ---- source packages nobody declared ----------------------------------------------------------------

  /** A source package that is installed after step `k` although no invocation so far has named it. */
  ghost predicate Undeclared(c: Context, k: nat, d: string)
    requires k < |c.steps| == |c.invocations|
  {
    d in c.steps[k].after && d in c.setting.packages && d !in DeclaredOrigins(c, k + 1)
  }

  /** The environment after step `k`, as the verifier accepted it. */
  lemma AcceptedEnvironment(c: Context, k: nat)
    requires WellFormed(c) && Verified(c) && k < |c.steps|
    ensures |c.steps| == |c.invocations| && WheelArchives(c.setting, c.steps[k].activeArtifacts).Some?
    ensures OriginsOk(c.steps[k].after, DeclaredOrigins(c, k + 1))
    ensures Site.SiteAccepted(c.setting.lab, c.setting.owned, c.steps[k].after, HeldWheels(c, k))
  {
    hide ReportOk, OfflineOk, Active, Site.SiteAccepted, Closure.Complete, Closure.AuthenticSet, WheelArchives,
         DeclaredOrigins, Versions, Delta, Remotes;
    StateTracksTheRun(c, k + 1);
    EachStepAccepted(c, k);
  }

  lemma ActiveIsNoSource(c: Context, k: nat)
    requires WellFormed(c) && Verified(c) && k < |c.steps|
    ensures forall a | a in c.steps[k].activeArtifacts :: a.name !in c.setting.packages
  {
    hide ReportOk, OfflineOk, Active, EnvironmentOk, Delta, Versions, Remotes, ExpectedSources;
    AvailableWasCaptured(c, k + 1);
    EachStepAccepted(c, k);
    var st, s := StateAfter(c, k).value, c.steps[k];
    assert s in c.steps;
    ActiveCovers(c.setting, s.afterOrder, s.after, Available(st, s));
  }

  lemma UndeclaredIsUnheld(c: Context, k: nat, d: string)
    requires WellFormed(c) && Verified(c) && k < |c.steps| && Undeclared(c, k, d)
    ensures WheelArchives(c.setting, c.steps[k].activeArtifacts).Some? && Site.Unheld(HeldWheels(c, k), d)
  {
    hide WellFormed, Verified, DeclaredOrigins, Site.SiteAccepted, OriginsOk;
    AcceptedEnvironment(c, k);
    ActiveIsNoSource(c, k);
    var w, active := HeldWheels(c, k), c.steps[k].activeArtifacts;
    forall x | x in w.active ensures x.0 != d {
      var i :| 0 <= i < |w.active| && w.active[i] == x;
      assert active[i] in active && x.0 == active[i].name;
    }
  }

  /** What the program reports of the distribution once it is these files, its version and origin unchanged. */
  function ShownAs(c: Context, k: nat, d: string, dir: string, contents: map<Site.FileName, Site.Bytes>): Site.Row
    requires k < |c.steps| && d in c.steps[k].after && dir + "/METADATA" in contents
  {
    var row := c.steps[k].after[d];
    Site.Shown(c.setting.lab, c.setting.owned, row.version, row.directUrl, dir, contents)
  }

  /** Files that could be installed as the distribution without touching another's. */
  ghost predicate Placeable(c: Context, k: nat, d: string, dir: string, contents: map<Site.FileName, Site.Bytes>)
    requires k < |c.steps| && d in c.steps[k].after
  {
    && Site.Distributable(c.setting.lab, dir, contents)
    && Site.FreePaths(c.setting.lab, c.steps[k].after, d, ShownAs(c, k, d, dir, contents))
  }

  /** The inventory after step `k` with the distribution exchanged for these files. */
  ghost function Exchanged(c: Context, k: nat, d: string, dir: string, contents: map<Site.FileName, Site.Bytes>)
    : Inventory
    requires WellFormed(c) && Verified(c) && k < |c.steps| && d in c.steps[k].after && Placeable(c, k, d, dir, contents)
  {
    AcceptedEnvironment(c, k);
    Site.AcceptedIsApart(c.setting.lab, c.setting.owned, c.steps[k].after, HeldWheels(c, k));
    Site.Swapped(c.setting.lab, c.setting.owned, c.steps[k].after, d, ShownAs(c, k, d, dir, contents))
  }

  lemma ExchangedIs(c: Context, k: nat, d: string, dir: string, contents: map<Site.FileName, Site.Bytes>)
    requires WellFormed(c) && Verified(c) && k < |c.steps| && d in c.steps[k].after && Placeable(c, k, d, dir, contents)
    ensures var more, after := Exchanged(c, k, d, dir, contents), c.steps[k].after;
      && more.Keys == after.Keys && more[d].files.Keys == contents.Keys
      && (forall e | e in after :: more[e].version == after[e].version && more[e].directUrl == after[e].directUrl)
      && (forall e | e in after && e != d :: more[e].files == after[e].files)
  {
    hide Site.Swapped, Site.FreePaths, Site.RecordLists, Verified, WellFormed, HeldWheels, Site.SiteAccepted,
         WheelArchives, DeclaredOrigins, Site.Apart, Site.SiteFiles;
    AcceptedEnvironment(c, k);
    Site.AcceptedIsApart(c.setting.lab, c.setting.owned, c.steps[k].after, HeldWheels(c, k));
    Site.SwappedIs(c.setting.lab, c.setting.owned, c.steps[k].after, d, ShownAs(c, k, d, dir, contents));
  }

  lemma ExchangedStandsIn(c: Context, k: nat, d: string, dir: string, contents: map<Site.FileName, Site.Bytes>)
    requires WellFormed(c) && Verified(c) && k < |c.steps| && Undeclared(c, k, d) && Placeable(c, k, d, dir, contents)
    ensures WheelArchives(c.setting, c.steps[k].activeArtifacts).Some?
    ensures StandsIn(c, k, Exchanged(c, k, d, dir, contents))
  {
    hide Site.Swapped, Site.FreePaths, Site.RecordLists, Verified, WellFormed, HeldWheels, Site.SiteAccepted,
         Site.Unheld, DeclaredOrigins, WheelArchives, Site.Apart, Site.SiteFiles;
    ExchangedIs(c, k, d, dir, contents);
    AcceptedEnvironment(c, k);
    UndeclaredIsUnheld(c, k, d);
    var e, after := c.setting, c.steps[k].after;
    Site.AcceptedIsApart(e.lab, e.owned, after, HeldWheels(c, k));
    Site.UnheldIsAccepted(e.lab, e.owned, after, HeldWheels(c, k), d, ShownAs(c, k, d, dir, contents));
  }

  /**
   In every accepted run, a source package installed but never declared can be any files at all whose
   paths are free: the run in which it is those files, and all else is as before, is accepted too.
   */
  lemma UndeclaredSourcesAreUnchecked(c: Context, k: nat, d: string, dir: string,
                                      contents: map<Site.FileName, Site.Bytes>, disk: map<Site.Path, Site.Bytes>,
                                      site: set<Site.Path>)
    requires WellFormed(c) && Verified(c) && k < |c.steps| && Undeclared(c, k, d) && Placeable(c, k, d, dir, contents)
    requires Site.Reported(c.setting.lab, c.steps[k].after, disk, site)
    ensures exists more, wider ::
              && WellFormed(Reinstalled(c, k, more)) && Verified(Reinstalled(c, k, more))
              && Site.Reported(c.setting.lab, more, wider, Site.SitePaths(c.setting.lab, more))
              && more.Keys == c.steps[k].after.Keys && more[d].files.Keys == contents.Keys
              && (forall n | n in contents ::
                    c.setting.lab.resolve(c.setting.owned.site, n) in wider
                    && wider[c.setting.lab.resolve(c.setting.owned.site, n)] == contents[n])
              && forall e | e in c.steps[k].after && e != d :: more[e].files == c.steps[k].after[e].files
  {
    hide Site.Swapped, Site.FreePaths, Site.RecordLists, Verified, WellFormed, StandsIn, HeldWheels, Site.SiteAccepted,
         Site.Reported, DeclaredOrigins, Site.SitePaths, Reinstalled, WheelArchives, Site.Apart, Site.SiteFiles,
         Site.Overlaid;
    VerifiedPrefix(c, k);
    var e, after, row := c.setting, c.steps[k].after, ShownAs(c, k, d, dir, contents);
    ExchangedStandsIn(c, k, d, dir, contents);
    ExchangedIs(c, k, d, dir, contents);
    var more := Exchanged(c, k, d, dir, contents);
    ReinstalledIsVerified(c, k, more);
    AcceptedEnvironment(c, k);
    Site.AcceptedIsApart(e.lab, e.owned, after, HeldWheels(c, k));
    Site.UnheldIsReported(e.lab, e.owned, after, d, after[d].version, after[d].directUrl, dir, contents, disk, site);
    Site.OwnPathsDiffer(e.lab, after, d, row);
    var wider := Site.Overlaid(e.lab, e.owned.site, disk, contents);
    forall n | n in contents
      ensures e.lab.resolve(e.owned.site, n) in wider && wider[e.lab.resolve(e.owned.site, n)] == contents[n]
    {
      Site.OverlayShows(e.lab, e.owned.site, contents, disk, n);
    }
    assert Verified(Reinstalled(c, k, more)) && Site.Reported(e.lab, more, wider, Site.SitePaths(e.lab, more));
  }

  /** Whatever else the inventory after step `k` might have been, if accepted it has the contents of a wheel there. */
  ghost predicate ContentsGuaranteed(c: Context, k: nat, d: string)
    requires k < |c.steps|
  {
    forall more, disk, site |
      && WellFormed(Reinstalled(c, k, more)) && Verified(Reinstalled(c, k, more))
      && Site.Reported(c.setting.lab, more, disk, site) && d in more ::
      exists archive, dir :: Site.ExactOnDisk(c.setting.lab, more[d], archive, dir, disk)
  }

  lemma {:induction false} DeclaredOriginsStay(c: Context, k: nat, more: Inventory, i: nat)
    requires k < |c.steps| && i <= |c.invocations|
    ensures DeclaredOrigins(Reinstalled(c, k, more), i) == DeclaredOrigins(c, i)
  {
    if i > 0 {
      DeclaredOriginsStay(c, k, more, i - 1);
    }
  }

  lemma DeclaredContentsAreGuaranteed(c: Context, k: nat, d: string)
    requires WellFormed(c) && Verified(c) && k < |c.steps| && Site.Injective(c.setting.lab.digest)
    requires d !in c.setting.packages || d in DeclaredOrigins(c, k + 1)
    ensures ContentsGuaranteed(c, k, d)
  {
    hide Verified, WellFormed, Site.ExactOnDisk, Site.Faithful, DeclaredOrigins, Site.ReadFrom, Reinstalled;
    VerifiedPrefix(c, k);
    forall more, disk, site |
      && WellFormed(Reinstalled(c, k, more)) && Verified(Reinstalled(c, k, more))
      && Site.Reported(c.setting.lab, more, disk, site) && d in more
      ensures exists archive, dir :: Site.ExactOnDisk(c.setting.lab, more[d], archive, dir, disk)
    {
      ReinstalledIsExact(c, k, d, more, disk, site);
    }
  }

  lemma ReinstalledIsExact(c: Context, k: nat, d: string, more: Inventory, disk: map<Site.Path, Site.Bytes>,
                           site: set<Site.Path>)
    requires k < |c.steps| == |c.invocations| && Site.Injective(c.setting.lab.digest)
    requires d !in c.setting.packages || d in DeclaredOrigins(c, k + 1)
    requires WellFormed(Reinstalled(c, k, more)) && Verified(Reinstalled(c, k, more))
    requires Site.Faithful(c.setting.lab, more, disk, site) && d in more
    ensures exists archive, dir :: Site.ExactOnDisk(c.setting.lab, more[d], archive, dir, disk)
  {
    hide Verified, WellFormed, Site.ExactOnDisk, Site.RecordMatchesDisk, Site.Faithful, DeclaredOrigins, WheelArchives,
         Site.HeldAgainst, HeldWheels;
    DeclaredOriginsStay(c, k, more, k + 1);
    EveryDistributionIsExact(Reinstalled(c, k, more), k, d, disk, site);
    assert Reinstalled(c, k, more).steps[k].after == more && Reinstalled(c, k, more).setting == c.setting;
  }

  /**
   Where files that pip did not sign could stand for the distribution: its contents are guaranteed after
   step `k` exactly when it is no source package or some invocation so far declared it.
   */
  lemma ContentsAreGuaranteedIff(c: Context, k: nat, d: string, dir: string, contents: map<Site.FileName, Site.Bytes>,
                                 disk: map<Site.Path, Site.Bytes>, site: set<Site.Path>)
    requires WellFormed(c) && Verified(c) && k < |c.steps| && d in c.steps[k].after
    requires Site.Reported(c.setting.lab, c.steps[k].after, disk, site) && Site.Injective(c.setting.lab.digest)
    requires Placeable(c, k, d, dir, contents) && Site.Unsigned(contents.Keys)
    ensures ContentsGuaranteed(c, k, d) <==> d !in c.setting.packages || d in DeclaredOrigins(c, k + 1)
  {
    hide Verified, WellFormed, Site.ExactOnDisk, Site.Reported, DeclaredOrigins, Placeable, Reinstalled;
    VerifiedPrefix(c, k);
    if d !in c.setting.packages || d in DeclaredOrigins(c, k + 1) {
      DeclaredContentsAreGuaranteed(c, k, d);
    } else {
      UndeclaredSourcesAreUnchecked(c, k, d, dir, contents, disk, site);
      var more: Inventory, wider: map<Site.Path, Site.Bytes> :|
        && WellFormed(Reinstalled(c, k, more)) && Verified(Reinstalled(c, k, more))
        && Site.Reported(c.setting.lab, more, wider, Site.SitePaths(c.setting.lab, more))
        && d in more && more[d].files.Keys == contents.Keys;
      forall archive, at ensures !Site.ExactOnDisk(c.setting.lab, more[d], archive, at, wider) {
        Site.UnsignedIsNoWheel(c.setting.lab, more[d], archive, at, wider);
      }
    }
  }

  // ---- when no package can go undeclared ----------------------------------------------------------------

  /** Whatever the resolver says it installs, the offline install says too, from the warehouse or a source. */
  ghost predicate OfflineNamesAll(c: Setting, s: Step) {
    forall x | x in s.resolver :: NamedOffline(c, s, NameOf(c, x))
  }

  ghost predicate NamedOffline(c: Setting, s: Step, name: string) {
    exists y :: y in s.installed && NameOf(c, y) == name && c.isFileUrl(y.url)
  }

  lemma DeltaNames(c: Setting, items: seq<Item>)
    ensures forall d | d in Delta(c, items) :: exists x :: x in items && NameOf(c, x) == d
  {
    var pairs := seq(|items|, i requires 0 <= i < |items| => (NameOf(c, items[i]), items[i].version));
    DictComesFromPairs(pairs);
    forall d | d in Delta(c, items) ensures exists x :: x in items && NameOf(c, x) == d {
      var i :| 0 <= i < |pairs| && pairs[i] == (d, Delta(c, items)[d]);
      assert items[i] in items && NameOf(c, items[i]) == d;
    }
  }

  /** A source package named by the resolver is one the invocation declares. */
  lemma NewSourcesAreDeclared(c: Context, st: State, k: nat, d: string)
    requires WellFormed(c) && k < |c.steps| == |c.invocations| && StepOkAt(c, st, k)
    requires OfflineNamesAll(c.setting, c.steps[k])
    requires d in c.setting.packages && d in Delta(c.setting, c.steps[k].resolver)
    ensures d in ExpectedSources(c.setting, c.invocations[k])
  {
    hide EnvironmentOk, OfflineOk, Active, ExpectedSources, ItemOk, Remotes, Versions;
    var e, s := c.setting, c.steps[k];
    DeltaNames(e, s.resolver);
    var x :| x in s.resolver && NameOf(e, x) == d;
    assert NamedOffline(e, s, NameOf(e, x));
    var y :| y in s.installed && NameOf(e, y) == d && e.isFileUrl(y.url);
    assert IsLocal(e, y) && d in LocalNames(e, s.installed);
    assert c.invocations[..k + 1][k] == c.invocations[k];
  }

  /**
   If the backend is no source package and each offline install names all that its resolver names, every
   source package that is ever installed has been declared, so `EveryDistributionIsExact` has no exception.
   */
  lemma {:induction false} FullReportsLeaveNoneUndeclared(c: Context, k: nat, d: string)
    requires WellFormed(c) && Verified(c) && k <= |c.steps|
    requires c.setting.initial.Keys !! c.setting.packages.Keys
    requires forall j | 0 <= j < k :: OfflineNamesAll(c.setting, c.steps[j])
    requires d in FoldedVersions(c, k) && d in c.setting.packages
    ensures d in DeclaredOrigins(c, k)
  {
    hide StepOkAt, Delta, ExpectedSources, OfflineNamesAll, StateAfter, InitialOk, WellFormed;
    if k > 0 {
      EachStepAccepted(c, k - 1);
      if d in Delta(c.setting, c.steps[k - 1].resolver) {
        NewSourcesAreDeclared(c, StateAfter(c, k - 1).value, k - 1, d);
      } else {
        FullReportsLeaveNoneUndeclared(c, k - 1, d);
      }
    }
  }

  lemma FullReportsGuaranteeAll(c: Context, k: nat, d: string)
    requires WellFormed(c) && Verified(c) && k < |c.steps| && Site.Injective(c.setting.lab.digest)
    requires c.setting.initial.Keys !! c.setting.packages.Keys
    requires forall j | 0 <= j <= k :: OfflineNamesAll(c.setting, c.steps[j])
    requires d in c.steps[k].after
    ensures !Undeclared(c, k, d) && ContentsGuaranteed(c, k, d)
  {
    hide WellFormed, Verified, ContentsGuaranteed, DeclaredOrigins, FoldedVersions, OfflineNamesAll;
    VerifiedPrefix(c, k);
    VerifiedMeansLineage(c, k);
    assert d in FoldedVersions(c, k + 1);
    if d in c.setting.packages {
      FullReportsLeaveNoneUndeclared(c, k + 1, d);
    }
    DeclaredContentsAreGuaranteed(c, k, d);
  }
}
