/**
 The lifecycle of the containers that run governed actions: create, inspect, attach, wait,
 clean up; and the scratch directory that must outlive any container not known to be gone.

 The daemon is faithful about what it reports and removes nothing that runs, but its
 containers progress between calls, and any call, write or sleep may raise or be interrupted.
 */
module OwnedContainers {
  import opened Common
  import Sorting

  type Id = string
  type Owner = string

  /** A daemon timestamp; `Never` is the zero time, year 0001. */
  datatype Stamp = Never | At(time: nat)

  datatype Status = Created | Running | Exited | Unusual(name: string)

  datatype MountKind = Bind | Tmpfs | Volume

  datatype Mount = Mount(kind: MountKind, source: string, destination: string, rw: bool)

  /** Everything the daemon reports that is fixed at creation. */
  datatype Identity = Identity(
    owner: Owner, imageId: string, declaredImage: string, readonlyRootfs: bool,
    arguments: seq<string>, user: string, tmpfs: map<string, string>)

  datatype Observation = Observation(
    id: Id, identity: Identity, mounts: seq<Mount>, status: Status, running: bool, exitCode: int,
    startedAt: Stamp, finishedAt: Stamp)

  // ---- judging one observation ------------------------------------------------------------

  datatype BindMount = BindMount(source: string, target: string, readonly: bool)

  datatype Expected = Expected(identity: Identity, binds: seq<BindMount>, tmpfsRoot: string)

  function BindRows(mounts: seq<Mount>): seq<Mount> {
    if mounts == [] then []
    else (if mounts[0].kind.Bind? then [mounts[0]] else []) + BindRows(mounts[1..])
  }

  function TmpfsRows(mounts: seq<Mount>): nat {
    if mounts == [] then 0 else (if mounts[0].kind.Tmpfs? then 1 else 0) + TmpfsRows(mounts[1..])
  }

  function ExpectedRows(binds: seq<BindMount>): seq<Mount> {
    seq(|binds|, i requires 0 <= i < |binds| => Mount(Bind, binds[i].source, binds[i].target, !binds[i].readonly))
  }

  function RowSet(rows: seq<Mount>): set<Mount> {
    set m | m in rows
  }

  predicate MountsMatch(e: Expected, mounts: seq<Mount>) {
    && (forall m | m in mounts ::
          m.kind.Bind? || (m.kind.Tmpfs? && m.source == "" && m.destination == e.tmpfsRoot && m.rw))
    && |BindRows(mounts)| == |e.binds|
    && RowSet(BindRows(mounts)) == RowSet(ExpectedRows(e.binds))
    && TmpfsRows(mounts) <= 1
  }

  ghost predicate HasTmpfs(mounts: seq<Mount>) {
    exists i :: 0 <= i < |mounts| && mounts[i].kind.Tmpfs?
  }

  ghost predicate IsBind(m: Mount, b: BindMount) {
    m.kind.Bind? && m.source == b.source && m.destination == b.target && m.rw != b.readonly
  }

  /** A mount for each bind expected, at most the private tmpfs besides, and nothing else. */
  ghost predicate MountsAre(e: Expected, mounts: seq<Mount>) {
    && |mounts| == |e.binds| + (if HasTmpfs(mounts) then 1 else 0)
    && (forall i, j | 0 <= i < j < |mounts| :: !(mounts[i].kind.Tmpfs? && mounts[j].kind.Tmpfs?))
    && (forall m | m in mounts ::
          (m.kind.Tmpfs? && m.source == "" && m.destination == e.tmpfsRoot && m.rw)
          || exists b :: b in e.binds && IsBind(m, b))
    && (forall b | b in e.binds :: exists m :: m in mounts && IsBind(m, b))
  }

  lemma {:induction false} TmpfsCount(mounts: seq<Mount>)
    ensures TmpfsRows(mounts) == 0 <==> !HasTmpfs(mounts)
    ensures TmpfsRows(mounts) <= 1 <==>
            forall i, j | 0 <= i < j < |mounts| :: !(mounts[i].kind.Tmpfs? && mounts[j].kind.Tmpfs?)
  {
    if mounts != [] {
      TmpfsCount(mounts[1..]);
      assert forall i | 0 < i < |mounts| :: mounts[i] == mounts[1..][i - 1];
    }
  }

  lemma {:induction false} BindRowsAre(mounts: seq<Mount>)
    ensures forall m :: m in BindRows(mounts) <==> m in mounts && m.kind.Bind?
  {
    if mounts != [] {
      BindRowsAre(mounts[1..]);
      assert mounts == [mounts[0]] + mounts[1..];
    }
  }

  lemma ExpectedRowsAre(e: Expected)
    ensures forall m :: m in ExpectedRows(e.binds) <==> exists b :: b in e.binds && IsBind(m, b)
  {
    forall m ensures m in ExpectedRows(e.binds) <==> exists b :: b in e.binds && IsBind(m, b) {
      if b :| b in e.binds && IsBind(m, b) {
        var i :| 0 <= i < |e.binds| && e.binds[i] == b;
        assert ExpectedRows(e.binds)[i] == m;
      }
      if m in ExpectedRows(e.binds) {
        var i :| 0 <= i < |e.binds| && ExpectedRows(e.binds)[i] == m;
        assert e.binds[i] in e.binds && IsBind(m, e.binds[i]);
      }
    }
  }

  /** As many rows are tmpfs as would be left out of a list of binds. */
  lemma {:induction false} TmpfsAreTheRest(mounts: seq<Mount>)
    requires forall m | m in mounts :: m.kind.Bind? || m.kind.Tmpfs?
    ensures TmpfsRows(mounts) + |BindRows(mounts)| == |mounts|
  {
    if mounts != [] {
      TmpfsAreTheRest(mounts[1..]);
    }
  }

  lemma MatchedMountsAre(e: Expected, mounts: seq<Mount>)
    requires MountsMatch(e, mounts)
    ensures MountsAre(e, mounts)
  {
    hide ExpectedRows, IsBind, HasTmpfs;
    TmpfsCount(mounts);
    BindRowsAre(mounts);
    ExpectedRowsAre(e);
    TmpfsAreTheRest(mounts);
    forall m | m in mounts && m.kind.Bind? ensures exists b :: b in e.binds && IsBind(m, b) {
      assert m in RowSet(BindRows(mounts));
    }
    forall b | b in e.binds ensures exists m :: m in mounts && IsBind(m, b) {
      var m := Mount(Bind, b.source, b.target, !b.readonly);
      BindsAreBinds();
      assert m in RowSet(ExpectedRows(e.binds));
    }
  }

  lemma MountsMatchIff(e: Expected, mounts: seq<Mount>)
    ensures MountsMatch(e, mounts) <==> MountsAre(e, mounts)
  {
    hide ExpectedRows, IsBind, HasTmpfs;
    if MountsMatch(e, mounts) {
      MatchedMountsAre(e, mounts);
    }
    if MountsAre(e, mounts) {
      TmpfsCount(mounts);
      BindRowsAre(mounts);
      ExpectedRowsAre(e);
      BindsAreBinds();
      forall m | m in mounts
        ensures m.kind.Bind? || (m.kind.Tmpfs? && m.source == "" && m.destination == e.tmpfsRoot && m.rw)
      {
      }
      TmpfsAreTheRest(mounts);
      assert |BindRows(mounts)| == |e.binds|;
      forall m ensures m in RowSet(BindRows(mounts)) <==> m in RowSet(ExpectedRows(e.binds)) {
        if b :| b in e.binds && IsBind(m, b) {
          var n :| n in mounts && IsBind(n, b);
          assert n == m;
        }
      }
    }
  }

  lemma BindsAreBinds()
    ensures forall m, b | IsBind(m, b) :: m == Mount(Bind, b.source, b.target, !b.readonly)
    ensures forall b: BindMount :: IsBind(Mount(Bind, b.source, b.target, !b.readonly), b)
  {
  }

  predicate ValidFor(e: Expected, container: Id, o: Observation) {
    o.id == container && o.identity == e.identity && MountsMatch(e, o.mounts)
  }

  predicate HasExited(o: Observation) {
    !o.running && o.status.Exited? && o.startedAt.At? && o.finishedAt.At?
  }

  predicate NeverStarted(o: Observation) {
    !o.running && o.status.Created? && o.startedAt.Never? && o.finishedAt.Never?
  }

  predicate Terminal(o: Observation) {
    HasExited(o) || NeverStarted(o)
  }

  // ---- the daemon ---------------------------------------------------------------------------

  datatype Phase =
    | NotStarted(requested: bool)
    | Live(remaining: nat, since: nat)
    | Stopped(status: Status, exitCode: int, startedAt: Stamp, finishedAt: Stamp)

  datatype Container = Container(identity: Identity, mounts: seq<Mount>, phase: Phase)

  type Containers = map<Id, Container>

  predicate PhaseEvolves(before: Phase, after: Phase) {
    match before
    case NotStarted(requested) => after == before || (requested && !after.NotStarted?)
    case Live(remaining, since) => after.Stopped?
        || (after.Live? && after.since == since && after.remaining < remaining)
    case Stopped(_, _, _, _) => after == before
  }

  /** Time passes: the same containers, each possibly further along. */
  predicate Evolves(before: Containers, after: Containers) {
    && after.Keys == before.Keys
    && forall id | id in before ::
         && after[id].identity == before[id].identity && after[id].mounts == before[id].mounts
         && PhaseEvolves(before[id].phase, after[id].phase)
  }

  /** A truthful report of one container, listing its mounts in any order. */
  predicate Reports(o: Observation, id: Id, c: Container) {
    && o.id == id && o.identity == c.identity && multiset(o.mounts) == multiset(c.mounts)
    && match c.phase
       case NotStarted(_) => NeverStarted(o) && o.exitCode == 0
       case Live(_, since) => o.running && o.startedAt == At(since)
       case Stopped(status, exitCode, startedAt, finishedAt) =>
         && !o.running && o.status == status && o.exitCode == exitCode
         && o.startedAt == startedAt && o.finishedAt == finishedAt
  }

  datatype Event = WasCreated(id: Id) | Observed(observation: Observation) | Removed(id: Id, answer: Option<Id>)

  function Requested(containers: Containers, id: Id): Containers {
    if id in containers && containers[id].phase.NotStarted?
    then containers[id := containers[id].(phase := NotStarted(true))]
    else containers
  }

  function OwnedIds(containers: Containers, owner: Owner): set<Id> {
    set id | id in containers && containers[id].identity.owner == owner
  }

  /** Any outside step that is not a daemon answer, a file write or a sleep; a smooth one does not fail. */
  method Fallible(smooth: bool) returns (r: Result<()>)
    ensures smooth ==> r.Ok?
  {
    r := *;
    if smooth {
      r := Ok(());
    }
  }

  predicate Succeeded(phase: Phase) {
    phase.Stopped? && phase.status.Exited? && phase.exitCode == 0 && phase.startedAt.At? && phase.finishedAt.At?
  }

  /** What stops, stops having succeeded. */
  predicate EndsWell(before: Containers, after: Containers) {
    forall id | id in before && id in after ::
      !before[id].phase.Stopped? && after[id].phase.Stopped? ==> Succeeded(after[id].phase)
  }

  /** Neither running nor about to. */
  predicate Settled(phase: Phase) {
    phase.Stopped? || phase == NotStarted(false)
  }

  /** The container is as it was to be made. */
  predicate Fits(e: Expected, c: Container) {
    c.identity == e.identity && MountsMatch(e, c.mounts)
  }

  /** A truthful report, with the mounts as they come. */
  function ReportOf(id: Id, c: Container): (o: Observation)
    ensures Reports(o, id, c)
  {
    match c.phase
    case NotStarted(_) => Observation(id, c.identity, c.mounts, Created, false, 0, Never, Never)
    case Live(_, since) => Observation(id, c.identity, c.mounts, Running, true, 0, At(since), Never)
    case Stopped(status, exitCode, startedAt, finishedAt) =>
      Observation(id, c.identity, c.mounts, status, false, exitCode, startedAt, finishedAt)
  }

  lemma {:induction false} FreshId(ids: set<Id>) returns (bound: nat)
    ensures forall id | id in ids :: |id| <= bound
  {
    if some :| some in ids {
      bound := FreshId(ids - {some});
      if bound < |some| {
        bound := |some|;
      }
      assert forall id | id in ids :: id == some || id in ids - {some};
    } else {
      bound := 0;
    }
  }

  lemma UnusedIdExists(ids: set<Id>)
    ensures exists id: Id :: id !in ids
  {
    var bound := FreshId(ids);
    var id: Id := seq(bound + 1, i => 'a');
    assert |id| > bound && id !in ids;
  }

  lemma {:induction false} ExpectedAreBinds(rows: seq<Mount>)
    requires forall m | m in rows :: m.kind.Bind?
    ensures BindRows(rows) == rows && TmpfsRows(rows) == 0
  {
    if rows != [] {
      ExpectedAreBinds(rows[1..]);
      assert rows == [rows[0]] + rows[1..];
    }
  }

  lemma ExpectedRowsMatch(e: Expected)
    ensures MountsMatch(e, ExpectedRows(e.binds))
  {
    ExpectedAreBinds(ExpectedRows(e.binds));
  }

  class Daemon {
    var containers: Containers
    /** Every id the daemon has given out; none is given out twice. */
    var issued: set<Id>
    ghost var log: seq<Event>
    /** Calls do not fail, containers are made as asked, and what is started succeeds. */
    const dutiful: bool

    constructor (containers: Containers, dutiful: bool)
      ensures this.containers == containers && issued == containers.Keys && log == [] && this.dutiful == dutiful
    {
      this.containers, issued, this.dutiful := containers, containers.Keys, dutiful;
      log := [];
    }

    method Pass()
      modifies this
      ensures Evolves(old(containers), containers) && log == old(log) && issued == old(issued)
      ensures dutiful ==> EndsWell(old(containers), containers)
    {
      var after: Containers := *;
      if !Evolves(containers, after) || (dutiful && !EndsWell(containers, after)) {
        after := map id | id in containers ::
          var c := containers[id];
          if !c.phase.Live? then c
          else if c.phase.remaining == 0 then c.(phase := Stopped(Exited, 0, At(c.phase.since), At(c.phase.since)))
          else c.(phase := Live(c.phase.remaining - 1, c.phase.since));
      }
      containers := after;
    }

    /** May create a container labelled with the owner even when it raises. */
    method Create(e: Expected) returns (r: Result<Id>, ghost made: Option<Id>)
      modifies this
      ensures made.None? ==>
                r.Raised? && Evolves(old(containers), containers) && log == old(log) && issued == old(issued)
      ensures made.Some? ==>
                && (r.Ok? ==> r.value == made.value)
                && made.value !in old(containers) && made.value in containers
                && made.value !in old(issued) && issued == old(issued) + {made.value}
                && Evolves(old(containers), containers - {made.value})
                && containers[made.value].identity.owner == e.identity.owner
                && containers[made.value].phase == NotStarted(false) && log == old(log) + [WasCreated(made.value)]
      ensures dutiful ==>
                && r.Ok? && Fits(e, containers[r.value]) && EndsWell(old(containers), containers - {r.value})
    {
      Pass();
      var id: Id := *;
      var c: Container := *;
      r := *;
      if dutiful {
        UnusedIdExists(containers.Keys + issued);
        ExpectedRowsMatch(e);
        id :| id !in containers.Keys + issued;
        c, r := Container(e.identity, ExpectedRows(e.binds), NotStarted(false)), Ok(id);
      }
      if id in containers || id in issued || c.identity.owner != e.identity.owner || c.phase != NotStarted(false) {
        made := None;
        r := Raised(Error("docker create failed"));
      } else {
        ghost var before := containers;
        containers, issued := containers[id := c], issued + {id};
        assert containers - {id} == before;
        made := Some(id);
        log := log + [WasCreated(id)];
        r := if r.Ok? then Ok(id) else r;
      }
    }

    method Inspect(id: Id) returns (r: Result<Observation>)
      modifies this
      ensures Evolves(old(containers), containers) && issued == old(issued)
      ensures r.Raised? ==> log == old(log)
      ensures r.Ok? ==>
                id in containers && Reports(r.value, id, containers[id]) && log == old(log) + [Observed(r.value)]
      ensures dutiful ==> EndsWell(old(containers), containers) && (id in old(containers) ==> r.Ok?)
    {
      Pass();
      r := *;
      if dutiful && id in containers {
        r := Ok(ReportOf(id, containers[id]));
      }
      if r.Ok? {
        if id in containers && Reports(r.value, id, containers[id]) {
          log := log + [Observed(r.value)];
        } else {
          r := Raised(Error("docker inspect failed"));
        }
      }
    }

    /** `docker start --attach`: a failed attach says nothing about whether the container runs. */
    method StartAttached(id: Id) returns (r: Result<int>)
      modifies this
      ensures Evolves(old(containers), containers) || Evolves(Requested(old(containers), id), containers)
      ensures log == old(log) && issued == old(issued)
      ensures dutiful && id in old(containers) && old(containers)[id].phase.NotStarted? ==>
                r == Ok(0) && EndsWell(old(containers), containers) && !containers[id].phase.NotStarted?
    {
      r := *;
      var reached: bool := *;
      if reached || dutiful {
        containers := Requested(containers, id);
      }
      Pass();
      if dutiful {
        r := Ok(0);
        if id in containers && containers[id].phase.NotStarted? {
          containers := containers[id := containers[id].(phase := Stopped(Exited, 0, At(0), At(0)))];
        }
      }
    }

    method Owned(owner: Owner) returns (r: Result<seq<Id>>)
      modifies this
      ensures Evolves(old(containers), containers) && log == old(log) && issued == old(issued)
      ensures r.Ok? ==>
                (set id | id in r.value) == OwnedIds(containers, owner) && |r.value| == |OwnedIds(containers, owner)|
      ensures dutiful ==> r.Ok? && EndsWell(old(containers), containers)
    {
      Pass();
      var fault: Option<Fault> := *;
      if fault.Some? && !dutiful {
        return Raised(fault.value);
      }
      var ids := ListSet(OwnedIds(containers, owner));
      assert (set id | id in ids) == OwnedIds(containers, owner);
      return Ok(ids);
    }

    /** `docker rm` without force: refuses a running container, and may raise or answer anything after removing. */
    method Remove(id: Id) returns (r: Result<Id>)
      modifies this
      ensures issued == old(issued)
      ensures log == old(log) ==> r.Raised? && Evolves(old(containers), containers)
      ensures log != old(log) ==>
                && log == old(log) + [Removed(id, if r.Ok? then Some(r.value) else None)] && id in old(containers)
                && Evolves(old(containers) - {id}, containers)
      ensures dutiful ==> EndsWell(old(containers), containers)
      ensures dutiful && id in old(containers) && Settled(old(containers)[id].phase) ==> r == Ok(id) && log != old(log)
    {
      Pass();
      r := *;
      var reached: bool := *;
      if dutiful {
        reached, r := true, Ok(id);
      }
      if !reached || id !in containers || containers[id].phase.Live? {
        r := Raised(Error("docker rm failed"));
      } else {
        containers := containers - {id};  // refused above while it runs
        log := log + [Removed(id, if r.Ok? then Some(r.value) else None)];
      }
    }
  }

  // ---- what survives between calls -------------------------------------------------------------

  /** The same containers; one that has stopped stays exactly as it is, and none that was started is as if not. */
  ghost predicate Persists(before: Containers, after: Containers) {
    && after.Keys == before.Keys
    && forall id | id in before ::
         && after[id].identity == before[id].identity && after[id].mounts == before[id].mounts
         && (before[id].phase.Stopped? ==> after[id].phase == before[id].phase)
         && (after[id].phase.NotStarted? ==> before[id].phase.NotStarted?)
  }

  /** What nobody asked to start does not start. */
  ghost predicate StaysIdle(before: Containers, after: Containers) {
    forall id | id in before && id in after ::
      before[id].phase == NotStarted(false) ==> after[id].phase == NotStarted(false)
  }

  /** Each removal directly follows a terminal observation of that very container. */
  ghost predicate Justified(log: seq<Event>) {
    forall k | 0 <= k < |log| && log[k].Removed? ::
      k > 0 && log[k - 1].Observed? && log[k - 1].observation.id == log[k].id && Terminal(log[k - 1].observation)
  }

  predicate EndsWith(log: seq<Event>, o: Observation) {
    log != [] && log[|log| - 1] == Observed(o)
  }

  lemma EvolvingPersists(before: Containers, after: Containers)
    requires Evolves(before, after) || exists id :: Evolves(Requested(before, id), after)
    ensures Persists(before, after)
  {
  }

  lemma EvolvingStaysIdle(before: Containers)
    ensures forall after | Evolves(before, after) :: StaysIdle(before, after)
  {
  }

  lemma PersistenceIsTransitive(a: Containers, b: Containers, c: Containers)
    requires Persists(a, b) && Persists(b, c)
    ensures Persists(a, c)
    ensures StaysIdle(a, b) && StaysIdle(b, c) ==> StaysIdle(a, c)
  {
  }

  /** What is left of a container's run; an observation says whether anything is. */
  function Remaining(c: Container): nat {
    if c.phase.Live? then c.phase.remaining + 1 else 0
  }

  lemma RunningMeansRemaining(o: Observation, id: Id, c: Container)
    requires Reports(o, id, c)
    ensures o.running <==> Remaining(c) > 0
  {
  }

  lemma RemainingShrinks(before: Containers, after: Containers, id: Id)
    requires Evolves(before, after) && id in before && Remaining(before[id]) > 0
    ensures Remaining(after[id]) < Remaining(before[id])
  {
  }

  lemma ObservationsKeepJustified(log: seq<Event>, o: Observation)
    requires Justified(log)
    ensures Justified(log + [Observed(o)])
  {
  }

  lemma RemovalAfterTerminalIsJustified(log: seq<Event>, o: Observation)
    requires Justified(log) && EndsWith(log, o) && Terminal(o)
    ensures forall answer :: Justified(log + [Removed(o.id, answer)])
  {
  }

  // ---- what a dutiful daemon keeps -----------------------------------------------------------------

  lemma {:induction false} BindCount(mounts: seq<Mount>, m: Mount)
    ensures multiset(BindRows(mounts))[m] == if m.kind.Bind? then multiset(mounts)[m] else 0
  {
    if mounts != [] {
      BindCount(mounts[1..], m);
      assert mounts == [mounts[0]] + mounts[1..];
    }
  }

  /** Matching does not depend on the order of the mounts. */
  lemma MatchingIsOrderless(e: Expected, a: seq<Mount>, b: seq<Mount>)
    requires multiset(a) == multiset(b) && MountsMatch(e, a)
    ensures MountsMatch(e, b)
  {
    forall m ensures multiset(BindRows(a))[m] == multiset(BindRows(b))[m] {
      BindCount(a, m);
      BindCount(b, m);
    }
    assert multiset(BindRows(a)) == multiset(BindRows(b));
    assert |multiset(BindRows(a))| == |BindRows(a)| && |multiset(BindRows(b))| == |BindRows(b)|;
    assert |multiset(a)| == |a| && |multiset(b)| == |b|;
    assert forall m :: m in BindRows(a) <==> m in multiset(BindRows(a));
    assert forall m :: m in BindRows(b) <==> m in multiset(BindRows(b));
    forall m | m in b ensures m in a {
      assert m in multiset(b);
    }
    TmpfsAreTheRest(a);
    TmpfsAreTheRest(b);
  }

  /** A truthful report of a container is valid exactly when the container fits. */
  lemma ReportsOfFitting(e: Expected, o: Observation, id: Id, c: Container)
    requires Reports(o, id, c)
    ensures ValidFor(e, id, o) <==> Fits(e, c)
  {
    hide MountsMatch;
    if ValidFor(e, id, o) {
      MatchingIsOrderless(e, o.mounts, c.mounts);
    }
    if Fits(e, c) {
      MatchingIsOrderless(e, c.mounts, o.mounts);
    }
  }

  lemma EndingWellIsTransitive(a: Containers, b: Containers, c: Containers)
    requires EndsWell(a, b) && EndsWell(b, c) && Persists(a, b) && Persists(b, c)
    ensures EndsWell(a, c)
  {
  }

  lemma FittingPersists(e: Expected, before: Containers, after: Containers, id: Id)
    requires Persists(before, after) && id in before
    ensures Fits(e, before[id]) <==> Fits(e, after[id])
  {
    hide MountsMatch;
  }

  /** What a cleanup can deal with: one container of the owner, as it was to be made, that ends or never starts. */
  predicate Removable(e: Expected, containers: Containers) {
    exists id | id in containers :: RemovableAs(e, containers, id)
  }

  predicate RemovableAs(e: Expected, containers: Containers, id: Id) {
    && id in containers && OwnedIds(containers, e.identity.owner) == {id} && Fits(e, containers[id])
    && match containers[id].phase
       case NotStarted(requested) => !requested
       case Live(_, _) => true
       case Stopped(status, _, startedAt, finishedAt) => status.Exited? && startedAt.At? && finishedAt.At?
  }

  // ---- the runner ----------------------------------------------------------------------------------

  /** Inspects, records and validates one container. */
  method InspectValid(d: Daemon, container: Id, e: Expected) returns (r: Result<Observation>)
    requires Justified(d.log)
    modifies d
    ensures Justified(d.log) && old(d.log) <= d.log && Evolves(old(d.containers), d.containers)
              && d.issued == old(d.issued)
    ensures r.Ok? ==>
              && container in d.containers && Reports(r.value, container, d.containers[container])
              && ValidFor(e, container, r.value) && EndsWith(d.log, r.value)
    ensures d.dutiful ==>
              && EndsWell(old(d.containers), d.containers)
              && (container in old(d.containers) && Fits(e, old(d.containers)[container]) ==> r.Ok?)
  {
    hide Reports, ValidFor, Evolves, Fits, EndsWell;
    ghost var before := d.log;
    var observed := d.Inspect(container);
    EvolvingPersists(old(d.containers), d.containers);
    if observed.Raised? {
      return observed;
    }
    if container in old(d.containers) {
      FittingPersists(e, old(d.containers), d.containers, container);
      ReportsOfFitting(e, observed.value, container, d.containers[container]);
    }
    ObservationsKeepJustified(before, observed.value);
    var recorded :- Fallible(d.dutiful);
    if !ValidFor(e, container, observed.value) {
      return Raised(Error("actual container differs"));
    }
    return observed;
  }

  /** Polls for as long as the container runs; a lost attach never cancels admitted work. */
  method WaitForTerminal(d: Daemon, container: Id, first: Observation, e: Expected) returns (r: Result<Observation>)
    requires container in d.containers && Reports(first, container, d.containers[container])
    requires EndsWith(d.log, first) && Justified(d.log) && ValidFor(e, container, first)
    modifies d
    ensures Justified(d.log) && old(d.log) <= d.log && d.issued == old(d.issued)
    ensures Persists(old(d.containers), d.containers) && StaysIdle(old(d.containers), d.containers)
    ensures r.Ok? ==>
              && container in d.containers && Reports(r.value, container, d.containers[container])
              && !r.value.running && ValidFor(e, container, r.value) && EndsWith(d.log, r.value)
    ensures d.dutiful ==> r.Ok? && EndsWell(old(d.containers), d.containers)
  {
    hide Reports, ValidFor, Evolves, Justified, Remaining, Fits, EndsWell;
    assert EndsWell(d.containers, d.containers) by {
      NothingEnds(d.containers);
    }
    var observed := first;
    while observed.running
      invariant container in d.containers && Reports(observed, container, d.containers[container])
      invariant EndsWith(d.log, observed) && Justified(d.log) && old(d.log) <= d.log && d.issued == old(d.issued)
      invariant Persists(old(d.containers), d.containers) && ValidFor(e, container, observed)
      invariant StaysIdle(old(d.containers), d.containers)
      invariant d.dutiful ==> EndsWell(old(d.containers), d.containers)
      decreases Remaining(d.containers[container])
    {
      var waited :- Fallible(d.dutiful);
      ghost var before := d.containers;
      EvolvingStaysIdle(before);
      RunningMeansRemaining(observed, container, before[container]);
      ReportsOfFitting(e, observed, container, before[container]);
      var next := InspectValid(d, container, e);
      EvolvingPersists(before, d.containers);
      if d.dutiful {
        EndingWellIsTransitive(old(d.containers), before, d.containers);
      }
      PersistenceIsTransitive(old(d.containers), before, d.containers);
      RemainingShrinks(before, d.containers, container);
      observed :- next;
    }
    return Ok(observed);
  }

  lemma NothingEnds(containers: Containers)
    ensures EndsWell(containers, containers)
  {
  }

  /** Starts the container attached, waits for it to end, and insists that it succeeded. */
  method CaptureAction(d: Daemon, container: Id, e: Expected) returns (r: Result<Observation>)
    requires container in d.containers && Justified(d.log)
    modifies d
    ensures Justified(d.log) && old(d.log) <= d.log && d.issued == old(d.issued)
    ensures Persists(old(d.containers), d.containers)
    ensures r.Ok? ==>
              && container in d.containers && Reports(r.value, container, d.containers[container])
              && ValidFor(e, container, r.value) && HasExited(r.value) && r.value.exitCode == 0
    ensures d.dutiful && old(d.containers)[container].phase.NotStarted? && Fits(e, old(d.containers)[container]) ==>
              r.Ok? && EndsWell(old(d.containers), d.containers)
  {
    hide Reports, ValidFor, Evolves, Justified, Persists, Fits, EndsWell;
    var code := d.StartAttached(container);
    EvolvingPersists(old(d.containers), d.containers);
    ghost var started := d.containers;
    FittingPersists(e, old(d.containers), started, container);
    if code.Raised? {
      return Raised(code.fault);
    }
    var recorded :- Fallible(d.dutiful);
    ghost var before := d.containers;
    var after := InspectValid(d, container, e);
    EvolvingPersists(before, d.containers);
    PersistenceIsTransitive(old(d.containers), before, d.containers);
    if after.Raised? {
      return after;
    }
    before := d.containers;
    after := WaitForTerminal(d, container, after.value, e);
    PersistenceIsTransitive(old(d.containers), before, d.containers);
    if after.Raised? {
      return after;
    }
    if d.dutiful && old(d.containers)[container].phase.NotStarted? && Fits(e, old(d.containers)[container]) {
      StartedHasSucceeded(old(d.containers), started, before, d.containers, container, after.value);
    }
    recorded :- Fallible(d.dutiful);
    if code.value != 0 || !HasExited(after.value) || after.value.exitCode != 0 {
      return Raised(Error("governed producer action failed"));
    }
    return after;
  }

  /** Once started, a container that is reported as not running has succeeded. */
  lemma StartedHasSucceeded(first: Containers, started: Containers, seen: Containers, last: Containers, id: Id,
                            o: Observation)
    requires id in first && first[id].phase.NotStarted? && Persists(first, started) && EndsWell(first, started)
    requires !started[id].phase.NotStarted? && Evolves(started, seen) && EndsWell(started, seen)
    requires Persists(seen, last) && EndsWell(seen, last) && id in last && Reports(o, id, last[id]) && !o.running
    ensures EndsWell(first, last) && HasExited(o) && o.exitCode == 0
  {
  }

  ghost predicate PersistsExceptOwned(before: Containers, after: Containers, owner: Owner) {
    && Persists(map id | id in after && id in before :: before[id], after)
    && after.Keys <= before.Keys
    && forall id | id in before && id !in after :: before[id].identity.owner == owner
  }

  lemma PersistsThenRemoves(before: Containers, mid: Containers, after: Containers, id: Id, owner: Owner)
    requires Persists(before, mid) && Evolves(mid - {id}, after)
    requires id in before && OwnedIds(before, owner) == {id}
    ensures PersistsExceptOwned(before, after, owner) && OwnedIds(after, owner) == {}
  {
    assert before[id].identity.owner == owner by {
      assert id in OwnedIds(before, owner);
    }
    forall i | i in after ensures after[i].identity.owner != owner {
      assert i in before && i != id && i !in OwnedIds(before, owner);
    }
  }

  lemma EndingWellThenLess(a: Containers, b: Containers, c: Containers)
    requires EndsWell(a, b) && Persists(a, b) && EndsWell(b, c)
    requires forall id | id in b && id in c :: b[id].phase.Stopped? ==> c[id].phase == b[id].phase
    requires c.Keys <= b.Keys
    ensures EndsWell(a, c)
  {
  }

  /** How a cleanup may end, and with which fault. */
  datatype Ending =
    | Unsettled(fault: Fault)       // the census, an observation, a wait or the terminal test raised
    | Unremoved(fault: Fault)       // the removal raised and removed nothing
    | Cleared(late: Option<Fault>)  // removed; the daemon's answer or the record may still raise

  function FaultOf(ending: Ending): Option<Fault> {
    match ending
    case Unsettled(fault) => Some(fault)
    case Unremoved(fault) => Some(fault)
    case Cleared(late) => late
  }

  /** Which containers each ending may leave. */
  ghost predicate MayEnd(owner: Owner, before: Containers, ending: Ending, after: Containers) {
    match ending
    case Unsettled(_) => Persists(before, after)
    case Unremoved(_) => Persists(before, after) && |OwnedIds(before, owner)| == 1
    case Cleared(_) =>
      && PersistsExceptOwned(before, after, owner)
      && |OwnedIds(before, owner)| == 1 && OwnedIds(after, owner) == {}
  }

  /** Removes the one container carrying the owner's label, once it is seen to be terminal. */
  method CleanupOwned(d: Daemon, e: Expected) returns (r: Result<Observation>, ghost ending: Ending)
    requires Justified(d.log)
    modifies d
    ensures Justified(d.log) && old(d.log) <= d.log && d.issued == old(d.issued)
    ensures MayEnd(e.identity.owner, old(d.containers), ending, d.containers)
    ensures FaultOf(ending) == if r.Raised? then Some(r.fault) else None
    ensures PersistsExceptOwned(old(d.containers), d.containers, e.identity.owner)
    ensures r.Ok? ==>
              && OwnedIds(d.containers, e.identity.owner) == {}
              && OwnedIds(old(d.containers), e.identity.owner) == {r.value.id}
              && d.log != [] && d.log[|d.log| - 1] == Removed(r.value.id, Some(r.value.id))
              && !r.value.running
              && (if r.value.status.Created? then r.value.startedAt.Never? && r.value.finishedAt.Never?
                  else r.value.status.Exited? && r.value.startedAt.At? && r.value.finishedAt.At?)
              && r.value.id in old(d.containers) && ValidFor(e, r.value.id, r.value)
              && (old(d.containers)[r.value.id].phase.Stopped? ==>
                    Reports(r.value, r.value.id, old(d.containers)[r.value.id]))
    ensures d.dutiful ==> EndsWell(old(d.containers), d.containers)
    ensures d.dutiful && Removable(e, old(d.containers)) ==> r.Ok?
  {
    hide Removable, EndsWell, Reports, ValidFor, Justified, Terminal, Settled, EndsWith;
    var seen := FindTerminal(d, e);
    if seen.Raised? {
      return seen, Unsettled(seen.fault);
    }
    var removed, gone := RemoveSeen(d, e, old(d.containers), seen.value);
    if removed.Raised? {
      return Raised(removed.fault), if gone then Cleared(Some(removed.fault)) else Unremoved(removed.fault);
    }
    TerminalStates(seen.value);
    if removed.value != seen.value.id {
      var mismatch := Error("removal did not acknowledge exact identity");
      return Raised(mismatch), Cleared(Some(mismatch));
    }
    var recorded := Fallible(d.dutiful);
    if recorded.Raised? {
      return Raised(recorded.fault), Cleared(Some(recorded.fault));
    }
    return seen, Cleared(None);
  }

  /** The removal itself, of a container just seen terminal; it may raise before or after, or answer anything. */
  method RemoveSeen(d: Daemon, e: Expected, ghost initial: Containers, o: Observation)
    returns (r: Result<Id>, ghost gone: bool)
    requires Justified(d.log) && EndsWith(d.log, o) && Terminal(o) && (d.dutiful ==> EndsWell(initial, d.containers))
    requires Persists(initial, d.containers) && OwnedIds(initial, e.identity.owner) == {o.id} && o.id in d.containers
    modifies d
    ensures Justified(d.log) && old(d.log) <= d.log && d.issued == old(d.issued)
    ensures !gone ==> r.Raised? && Persists(initial, d.containers)
    ensures gone ==>
              && d.log == old(d.log) + [Removed(o.id, if r.Ok? then Some(r.value) else None)]
              && PersistsExceptOwned(initial, d.containers, e.identity.owner)
              && OwnedIds(d.containers, e.identity.owner) == {}
    ensures d.dutiful ==> EndsWell(initial, d.containers)
    ensures d.dutiful && Settled(old(d.containers)[o.id].phase) ==> r == Ok(o.id) && gone
  {
    hide EndsWell, Justified, Terminal, Settled, EndsWith;
    ghost var before, log := d.containers, d.log;
    r := d.Remove(o.id);
    gone := d.log != log;
    if gone {
      RemovalAfterTerminalIsJustified(log, o);
      PersistsThenRemoves(initial, before, d.containers, o.id, e.identity.owner);
    } else {
      EvolvingPersists(before, d.containers);
      PersistenceIsTransitive(initial, before, d.containers);
    }
    if d.dutiful {
      EndingWellThenLess(initial, before, d.containers);
    }
  }

  lemma TerminalStates(o: Observation)
    requires Terminal(o)
    ensures !o.running
    ensures if o.status.Created? then o.startedAt.Never? && o.finishedAt.Never?
            else o.status.Exited? && o.startedAt.At? && o.finishedAt.At?
  {
  }

  /** Finds the one container carrying the owner's label and waits until it is terminal. */
  method FindTerminal(d: Daemon, e: Expected) returns (r: Result<Observation>)
    requires Justified(d.log)
    modifies d
    ensures Justified(d.log) && old(d.log) <= d.log && d.issued == old(d.issued)
    ensures Persists(old(d.containers), d.containers)
    ensures r.Ok? ==>
              && r.value.id in d.containers && Reports(r.value, r.value.id, d.containers[r.value.id])
              && OwnedIds(old(d.containers), e.identity.owner) == {r.value.id}
              && ValidFor(e, r.value.id, r.value) && Terminal(r.value) && EndsWith(d.log, r.value)
    ensures d.dutiful ==> EndsWell(old(d.containers), d.containers)
    ensures d.dutiful && Removable(e, old(d.containers)) ==> r.Ok? && Settled(d.containers[r.value.id].phase)
  {
    hide Reports, Evolves, Justified, Terminal, ValidFor, Fits, EndsWell, Removable, RemovableAs, StaysIdle, Persists,
         Settled, OwnedIds, EndsWith;
    var owned := d.Owned(e.identity.owner);
    EvolvingPersists(old(d.containers), d.containers);
    EvolvingStaysIdle(old(d.containers));
    ghost var first := d.containers;
    ghost var wanted := d.dutiful && Removable(e, old(d.containers));
    if owned.Raised? {
      return Raised(owned.fault);
    }
    if wanted {
      RemovableIsAlone(e, old(d.containers), first);
    }
    if |owned.value| != 1 {
      return Raised(Error("owned container cleanup census is missing or ambiguous"));
    }
    var candidate := owned.value[0];
    assert OwnedIds(old(d.containers), e.identity.owner) == {candidate} by {
      OnlyListed(owned.value);
      OwnersPersist(old(d.containers), d.containers, e.identity.owner);
    }
    if wanted {
      RemovableFits(e, old(d.containers), first, candidate);
    }
    var observed := InspectValid(d, candidate, e);
    EvolvingPersists(first, d.containers);
    EvolvingStaysIdle(first);
    PersistenceIsTransitive(old(d.containers), first, d.containers);
    if d.dutiful {
      EndingWellIsTransitive(old(d.containers), first, d.containers);
    }
    if observed.Raised? {
      return observed;
    }
    ghost var seen := d.containers;
    observed := WaitForTerminal(d, candidate, observed.value, e);
    PersistenceIsTransitive(old(d.containers), seen, d.containers);
    if d.dutiful {
      EndingWellIsTransitive(old(d.containers), seen, d.containers);
    }
    if observed.Raised? {
      return observed;
    }
    if wanted {
      RemovableEndsTerminal(e, old(d.containers), d.containers, candidate, observed.value);
    }
    assert observed.value.id == candidate by {
      ValidIsNamed(e, candidate, observed.value);
    }
    if !Terminal(observed.value) {
      return Raised(Error("refusing cleanup without a terminal or never-started owned state"));
    }
    return observed;
  }

  lemma OnlyListed(ids: seq<Id>)
    requires |ids| == 1
    ensures (set id | id in ids) == {ids[0]}
  {
  }

  lemma ValidIsNamed(e: Expected, id: Id, o: Observation)
    requires ValidFor(e, id, o)
    ensures o.id == id
  {
  }

  lemma RemovableIsAlone(e: Expected, before: Containers, after: Containers)
    requires Removable(e, before) && Persists(before, after)
    ensures |OwnedIds(after, e.identity.owner)| == 1
  {
    hide Fits;
    OwnersPersist(before, after, e.identity.owner);
  }

  lemma RemovableFits(e: Expected, before: Containers, after: Containers, id: Id)
    requires Removable(e, before) && Persists(before, after) && OwnedIds(before, e.identity.owner) == {id}
    ensures id in before && id in after && RemovableAs(e, before, id) && Fits(e, after[id])
  {
    hide Fits;
    var other :| other in before && RemovableAs(e, before, other);
    assert other == id;
    FittingPersists(e, before, after, id);
  }

  lemma RemovableEndsTerminal(e: Expected, before: Containers, after: Containers, id: Id, o: Observation)
    requires RemovableAs(e, before, id)
    requires Persists(before, after) && EndsWell(before, after) && StaysIdle(before, after)
    requires id in after && Reports(o, id, after[id]) && !o.running
    ensures Terminal(o) && Settled(after[id].phase)
  {
    hide Fits;
  }

  lemma OwnersPersist(before: Containers, after: Containers, owner: Owner)
    requires Persists(before, after)
    ensures OwnedIds(before, owner) == OwnedIds(after, owner)
  {
  }

  // ---- one action, then all of them ---------------------------------------------------------------

  datatype Record = Record(owner: Owner, before: Observation, after: Observation, cleanup: Observation)

  /** The `try` body of one action: create, inspect, run. */
  method StartAction(d: Daemon, e: Expected) returns (r: Result<(Observation, Observation)>)
    requires Justified(d.log) && OwnedIds(d.containers, e.identity.owner) == {}
    modifies d
    ensures Justified(d.log) && old(d.log) <= d.log && old(d.issued) <= d.issued
    ensures forall id | id in old(d.containers) ::
              id in d.containers && d.containers[id].identity == old(d.containers)[id].identity
    ensures forall id | id in d.containers && id !in old(d.containers) ::
              d.containers[id].identity.owner == e.identity.owner
    ensures r.Ok? ==>
              var (before, after) := r.value;
              && before.id == after.id && OwnedIds(d.containers, e.identity.owner) == {after.id}
              && before.id !in old(d.issued) && before.id in d.issued
              && NeverStarted(before) && ValidFor(e, before.id, before)
              && HasExited(after) && after.exitCode == 0 && ValidFor(e, after.id, after)
              && after.id in d.containers && d.containers[after.id].phase.Stopped?
              && Reports(after, after.id, d.containers[after.id])
    ensures d.dutiful ==> r.Ok?
  {
    var container, made := CreateOwned(d, e);
    if container.Raised? {
      return Raised(container.fault);
    }
    hide Justified, ValidFor, Persists, OwnedIds, Fits, EndsWell;
    ghost var created := d.containers;
    var before := InspectValid(d, container.value, e);
    EvolvingPersists(created, d.containers);
    FittingPersists(e, created, d.containers, container.value);
    OwnersPersist(created, d.containers, e.identity.owner);
    IdentitiesPersist(created, d.containers);
    if before.Raised? {
      return Raised(before.fault);
    }
    ghost var inspected := d.containers;
    var after := CaptureAction(d, container.value, e);
    OwnersPersist(inspected, d.containers, e.identity.owner);
    IdentitiesPersist(inspected, d.containers);
    if after.Raised? {
      return Raised(after.fault);
    }
    return Ok((before.value, after.value));
  }

  method CreateOwned(d: Daemon, e: Expected) returns (r: Result<Id>, ghost made: Option<Id>)
    requires Justified(d.log) && OwnedIds(d.containers, e.identity.owner) == {}
    modifies d
    ensures Justified(d.log) && old(d.log) <= d.log && old(d.issued) <= d.issued
    ensures r.Ok? ==> r.value !in old(d.issued) && r.value in d.issued
    ensures forall id | id in old(d.containers) ::
              id in d.containers && d.containers[id].identity == old(d.containers)[id].identity
    ensures forall id | id in d.containers && id !in old(d.containers) ::
              d.containers[id].identity.owner == e.identity.owner
    ensures r.Ok? ==> r.value in d.containers && d.containers[r.value].phase == NotStarted(false)
                      && OwnedIds(d.containers, e.identity.owner) == {r.value}
    ensures d.dutiful ==> r.Ok? && Fits(e, d.containers[r.value])
  {
    hide Fits;
    ghost var before, owner := d.containers, e.identity.owner;
    r, made := d.Create(e);
    if made.Some? {
      ghost var rest := d.containers - {made.value};
      EvolvingPersists(before, rest);
      OwnersPersist(before, rest, owner);
      forall id | id in d.containers && id != made.value ensures id !in OwnedIds(d.containers, owner) {
        assert id in rest && id !in OwnedIds(rest, owner);
      }
      assert OwnedIds(d.containers, owner) == {made.value};
      assert forall id | id in before :: id in rest;
    }
  }

  lemma IdentitiesPersist(before: Containers, after: Containers)
    requires Persists(before, after)
    ensures before.Keys == after.Keys && forall id | id in before :: after[id].identity == before[id].identity
  {
  }

  /** A run's containers: those labelled with one of its owners. */
  function Mine(containers: Containers, owners: set<Owner>): set<Id> {
    set id | id in containers && containers[id].identity.owner in owners
  }

  /** Other people's containers are all still there, under the same identity. */
  ghost predicate ForeignKept(before: Containers, after: Containers, owners: set<Owner>) {
    forall id | id in before && before[id].identity.owner !in owners ::
      id in after && after[id].identity == before[id].identity
  }

  function Canonical(leq: (Mount, Mount) -> bool, o: Observation): Observation {
    o.(mounts := Sorting.Sorted(leq, o.mounts))
  }

  /** The receipt verifier's judgement on the states of one action. */
  predicate LifecycleAccepted(leq: (Mount, Mount) -> bool, e: Expected, rec: Record) {
    && ValidFor(e, rec.before.id, rec.before)
    && ValidFor(e, rec.before.id, rec.after)
    && ValidFor(e, rec.before.id, rec.cleanup)
    && NeverStarted(rec.before) && HasExited(rec.after) && rec.after.exitCode == 0
    && rec.before.identity.owner == rec.owner
    && Canonical(leq, rec.cleanup) == Canonical(leq, rec.after)
  }

  /** Its judgement on a whole run: every action in order, over distinct containers. */
  predicate RunAccepted(leq: (Mount, Mount) -> bool, actions: seq<Expected>, records: seq<Record>) {
    && |records| == |actions|
    && (forall i | 0 <= i < |records| ::
          records[i].owner == actions[i].identity.owner && LifecycleAccepted(leq, actions[i], records[i]))
    && (forall i, j | 0 <= i < j < |records| ::
          records[i].before.id != records[j].before.id && records[i].owner != records[j].owner)
  }

  /** Up to the order of the mounts. */
  ghost predicate SameState(a: Observation, b: Observation) {
    && a.id == b.id && a.identity == b.identity && multiset(a.mounts) == multiset(b.mounts)
    && a.status == b.status && a.running == b.running && a.exitCode == b.exitCode
    && a.startedAt == b.startedAt && a.finishedAt == b.finishedAt
  }

  /** One container of the expected identity and mounts: never started, then exited well, and so left at its cleanup. */
  ghost predicate LifecycleCertified(e: Expected, rec: Record) {
    && rec.owner == e.identity.owner
    && rec.before.identity == e.identity && rec.after.identity == e.identity
    && rec.before.id == rec.after.id
    && MountsAre(e, rec.before.mounts) && MountsAre(e, rec.after.mounts)
    && rec.before.status.Created? && !rec.before.running
    && rec.before.startedAt.Never? && rec.before.finishedAt.Never?
    && rec.after.status.Exited? && !rec.after.running && rec.after.exitCode == 0
    && rec.after.startedAt.At? && rec.after.finishedAt.At?
    && SameState(rec.cleanup, rec.after)
  }

  /** One such record for each action in order, no two of one container or one owner. */
  ghost predicate RunCertified(actions: seq<Expected>, records: seq<Record>) {
    && |records| == |actions|
    && (forall i | 0 <= i < |records| :: LifecycleCertified(actions[i], records[i]))
    && forall i, j | 0 <= i < |records| && 0 <= j < |records| && i != j ::
         records[i].before.id != records[j].before.id && records[i].owner != records[j].owner
  }

  lemma CanonicalIff(leq: (Mount, Mount) -> bool, a: Observation, b: Observation)
    requires Sorting.TotalOrder(leq)
    ensures Canonical(leq, a) == Canonical(leq, b) <==> SameState(a, b)
  {
    Sorting.SortedEqualIffPermutation(leq, a.mounts, b.mounts);
  }

  lemma LifecycleIff(leq: (Mount, Mount) -> bool, e: Expected, rec: Record)
    requires Sorting.TotalOrder(leq) && rec.owner == e.identity.owner
    ensures LifecycleAccepted(leq, e, rec) <==> LifecycleCertified(e, rec)
  {
    hide MountsMatch, MountsAre, Canonical, Sorting.TotalOrder;
    CanonicalIff(leq, rec.cleanup, rec.after);
    MountsMatchIff(e, rec.before.mounts);
    MountsMatchIff(e, rec.after.mounts);
    if SameState(rec.cleanup, rec.after) && MountsMatch(e, rec.after.mounts) {
      MatchingIsOrderless(e, rec.after.mounts, rec.cleanup.mounts);
    }
  }

  /** What the receipt verifier accepts, without its own tests: the containers and their states. */
  lemma RunAcceptedIff(leq: (Mount, Mount) -> bool, actions: seq<Expected>, records: seq<Record>)
    requires Sorting.TotalOrder(leq)
    ensures RunAccepted(leq, actions, records) <==> RunCertified(actions, records)
  {
    hide LifecycleAccepted, LifecycleCertified, Sorting.TotalOrder;
    if |records| == |actions| {
      forall i | 0 <= i < |records|
        ensures records[i].owner == actions[i].identity.owner && LifecycleAccepted(leq, actions[i], records[i])
           <==> LifecycleCertified(actions[i], records[i])
      {
        if records[i].owner == actions[i].identity.owner {
          LifecycleIff(leq, actions[i], records[i]);
        } else {
          CertifiedIsOwned(actions[i], records[i]);
        }
      }
    }
  }

  lemma CertifiedIsOwned(e: Expected, rec: Record)
    ensures LifecycleCertified(e, rec) ==> rec.owner == e.identity.owner
  {
  }

  /** Two truthful reports of one stopped container differ at most in the order of their mounts. */
  lemma StoppedReportsAgree(leq: (Mount, Mount) -> bool, a: Observation, b: Observation, id: Id, c: Container)
    requires Sorting.TotalOrder(leq) && c.phase.Stopped? && Reports(a, id, c) && Reports(b, id, c)
    ensures Canonical(leq, a) == Canonical(leq, b)
  {
    Sorting.SortedEqualIffPermutation(leq, a.mounts, b.mounts);
  }

  lemma StartedIsRemovable(e: Expected, containers: Containers, after: Observation)
    requires OwnedIds(containers, e.identity.owner) == {after.id} && HasExited(after) && ValidFor(e, after.id, after)
    requires after.id in containers && containers[after.id].phase.Stopped?
    requires Reports(after, after.id, containers[after.id])
    ensures Removable(e, containers)
  {
    hide MountsMatch;
    ReportsOfFitting(e, after, after.id, containers[after.id]);
    assert RemovableAs(e, containers, after.id);
  }

  /** One action and its cleanup, which runs whatever the action did. */
  method RunAction(d: Daemon, e: Expected, ghost leq: (Mount, Mount) -> bool)
    returns (r: Result<Record>, cleanup: Result<Observation>)
    requires Justified(d.log) && OwnedIds(d.containers, e.identity.owner) == {} && Sorting.TotalOrder(leq)
    modifies d
    ensures Justified(d.log) && old(d.log) <= d.log && old(d.issued) <= d.issued
    ensures ForeignKept(old(d.containers), d.containers, {e.identity.owner})
    ensures forall id | id in d.containers && id !in old(d.containers) ::
              d.containers[id].identity.owner == e.identity.owner
    ensures cleanup.Ok? ==> OwnedIds(d.containers, e.identity.owner) == {}
    ensures cleanup.Raised? ==> r == Raised(cleanup.fault)
    ensures r.Ok? ==> r.value.owner == e.identity.owner && LifecycleAccepted(leq, e, r.value)
    ensures r.Ok? ==> r.value.before.id !in old(d.issued) && r.value.before.id in d.issued
    ensures d.dutiful ==> r.Ok?
  {
    hide Reports, MountsMatch, Justified, Removable;
    var started := StartAction(d, e);
    ghost var before := d.containers;
    if d.dutiful {
      StartedIsRemovable(e, before, started.value.1);
    }
    ghost var ending;
    cleanup, ending := CleanupOwned(d, e);
    if cleanup.Raised? {
      return Raised(cleanup.fault), cleanup;
    }
    if started.Raised? {
      return Raised(started.fault), cleanup;
    }
    var (first, after) := started.value;
    StoppedReportsAgree(leq, cleanup.value, after, after.id, before[after.id]);
    return Ok(Record(e.identity.owner, first, after, cleanup.value)), cleanup;
  }

  /** How the scratch directory ends. */
  datatype Scratch = Deleted | Retained

  /** `except Exception` marks the scratch as pending; an interrupted cleanup does not. */
  function ScratchAfter(cleanup: Option<Fault>): Scratch {
    if cleanup.Some? && cleanup.value.Error? then Retained else Deleted
  }

  /**
   Runs every action in order until one fails. Containers are removed only after being seen
   terminal, foreign ones never; a successful run leaves records the verifier accepts; and unless a
   cleanup was interrupted, deleting the scratch directory means every container of the run is gone.
   */
  method Execute(d: Daemon, actions: seq<Expected>, ghost leq: (Mount, Mount) -> bool)
    returns (r: Result<seq<Record>>, scratch: Scratch, cleanup: Option<Fault>)
    requires Justified(d.log) && Sorting.TotalOrder(leq)
    requires forall i, j | 0 <= i < j < |actions| :: actions[i].identity.owner != actions[j].identity.owner
    requires forall id, k | id in d.containers && 0 <= k < |actions| ::
               d.containers[id].identity.owner != actions[k].identity.owner
    modifies d
    ensures Justified(d.log) && old(d.log) <= d.log
    ensures ForeignKept(old(d.containers), d.containers, Owners(actions))
    ensures scratch == ScratchAfter(cleanup)
    ensures cleanup.None? ==> Mine(d.containers, Owners(actions)) == {}
    ensures scratch.Deleted? && Mine(d.containers, Owners(actions)) != {} ==> cleanup == Some(Interrupt)
    ensures r.Ok? ==> cleanup.None? && RunAccepted(leq, actions, r.value) && RunCertified(actions, r.value)
    ensures d.dutiful ==> r.Ok? && scratch.Deleted?
  {
    hide RunAccepted, RunCertified, LifecycleAccepted, MountsMatch, Justified;
    assert Mine(d.containers, Owners(actions)) == {} by {
      NoneIsMine(d.containers, actions);
    }
    assert RunAccepted(leq, actions[..0], []) by {
      NothingIsAccepted(leq, actions);
    }
    cleanup := None;
    var prepared := Fallible(d.dutiful);
    if prepared.Raised? {
      return Raised(prepared.fault), ScratchAfter(cleanup), cleanup;
    }
    var records: seq<Record> := [];
    for k := 0 to |actions|
      invariant Justified(d.log) && old(d.log) <= d.log
      invariant ForeignKept(old(d.containers), d.containers, Owners(actions))
      invariant Mine(d.containers, Owners(actions)) == {} && cleanup.None?
      invariant |records| == k && RunAccepted(leq, actions[..k], records)
      invariant forall i | 0 <= i < k :: records[i].before.id in d.issued
    {
      ghost var before := d.containers;
      NoneMineMeansNoneOwned(before, actions, k);
      var record, cleaned := RunAction(d, actions[k], leq);
      ForeignKeptThrough(old(d.containers), before, d.containers, actions, k);
      if cleaned.Raised? {
        cleanup := Some(cleaned.fault);
        return Raised(cleaned.fault), ScratchAfter(cleanup), cleanup;
      }
      NoneLeft(before, d.containers, actions, k);
      if record.Raised? {
        return Raised(record.fault), ScratchAfter(cleanup), cleanup;
      }
      RunGrows(leq, actions, records, record.value, k);
      records := records + [record.value];
    }
    assert actions[..|actions|] == actions;
    RunAcceptedIff(leq, actions, records);
    return Ok(records), ScratchAfter(cleanup), cleanup;
  }

  lemma NoneIsMine(containers: Containers, actions: seq<Expected>)
    ensures Mine(containers, Owners(actions)) == {} <==>
            forall id, k | id in containers && 0 <= k < |actions| ::
              containers[id].identity.owner != actions[k].identity.owner
  {
    if Mine(containers, Owners(actions)) == {} {
      forall id, k | id in containers && 0 <= k < |actions|
        ensures containers[id].identity.owner != actions[k].identity.owner
      {
        assert actions[k] in actions && id !in Mine(containers, Owners(actions));
      }
    }
  }

  lemma NothingIsAccepted(leq: (Mount, Mount) -> bool, actions: seq<Expected>)
    ensures RunAccepted(leq, actions[..0], [])
  {
  }

  lemma RunGrows(leq: (Mount, Mount) -> bool, actions: seq<Expected>, records: seq<Record>, record: Record, k: nat)
    requires k < |actions| && RunAccepted(leq, actions[..k], records)
    requires record.owner == actions[k].identity.owner && LifecycleAccepted(leq, actions[k], record)
    requires forall i | 0 <= i < k :: records[i].before.id != record.before.id
    requires forall i, j | 0 <= i < j < |actions| :: actions[i].identity.owner != actions[j].identity.owner
    ensures RunAccepted(leq, actions[..k + 1], records + [record])
  {
    hide LifecycleAccepted;
    assert actions[..k + 1] == actions[..k] + [actions[k]];
  }

  function Owners(actions: seq<Expected>): set<Owner> {
    set e | e in actions :: e.identity.owner
  }

  lemma NoneMineMeansNoneOwned(containers: Containers, actions: seq<Expected>, k: nat)
    requires k < |actions| && Mine(containers, Owners(actions)) == {}
    ensures OwnedIds(containers, actions[k].identity.owner) == {}
  {
    assert actions[k] in actions;
    assert forall id | id in OwnedIds(containers, actions[k].identity.owner) :: id in Mine(containers, Owners(actions));
  }

  lemma ForeignKeptThrough(initial: Containers, before: Containers, after: Containers, actions: seq<Expected>, k: nat)
    requires k < |actions| && ForeignKept(initial, before, Owners(actions))
    requires ForeignKept(before, after, {actions[k].identity.owner})
    ensures ForeignKept(initial, after, Owners(actions))
  {
    assert actions[k] in actions;
  }

  lemma NoneLeft(before: Containers, after: Containers, actions: seq<Expected>, k: nat)
    requires k < |actions| && Mine(before, Owners(actions)) == {}
    requires ForeignKept(before, after, {actions[k].identity.owner})
    requires forall id | id in after && id !in before :: after[id].identity.owner == actions[k].identity.owner
    requires OwnedIds(after, actions[k].identity.owner) == {}
    ensures Mine(after, Owners(actions)) == {}
  {
    forall id | id in after ensures after[id].identity.owner !in Owners(actions) {
      assert id !in OwnedIds(after, actions[k].identity.owner);
      assert id in before && id !in Mine(before, Owners(actions));
      assert actions[k] in actions;
    }
  }

  /** Deleting the scratch directory after every cleanup that may end with this fault leaves no container without it. */
  ghost predicate DeletionIsSound(owner: Owner, fault: Option<Fault>) {
    forall before, ending, after | MayEnd(owner, before, ending, after) && FaultOf(ending) == fault ::
      ScratchAfter(fault).Deleted? ==> OwnedIds(after, owner) == {}
  }

  /** An interrupted cleanup may leave whatever is there, and the scratch directory is deleted all the same. */
  lemma InterruptedCleanupLosesScratch(before: Containers, owner: Owner)
    requires OwnedIds(before, owner) != {}
    ensures exists ending, after ::
              && MayEnd(owner, before, ending, after) && FaultOf(ending) == Some(Interrupt)
              && ScratchAfter(FaultOf(ending)).Deleted? && OwnedIds(after, owner) != {}
  {
    assert MayEnd(owner, before, Unsettled(Interrupt), before) && FaultOf(Unsettled(Interrupt)) == Some(Interrupt);
  }

  /** The rule is sound for every way a cleanup may end exactly when what it raised, if anything, is an `Exception`. */
  lemma ScratchRuleIsSoundIff(owner: Owner, fault: Option<Fault>)
    ensures DeletionIsSound(owner, fault) <==> fault.None? || fault.value.Error?
  {
    if fault == Some(Interrupt) {
      var id, identity := "c", Identity(owner, "", "", true, [], "", map[]);
      var before := map[id := Container(identity, [], NotStarted(false))];
      assert id in OwnedIds(before, owner);
      InterruptedCleanupLosesScratch(before, owner);
    }
  }

  /** The mount test means the daemon's bind mounts are the expected ones, each exactly once. */
  lemma MatchedMountsAreThePermutation(e: Expected, mounts: seq<Mount>)
    requires MountsMatch(e, mounts)
    requires forall i, j | 0 <= i < j < |e.binds| :: e.binds[i].target != e.binds[j].target
    ensures multiset(BindRows(mounts)) == multiset(ExpectedRows(e.binds))
  {
    var actual, expected := BindRows(mounts), ExpectedRows(e.binds);
    assert forall i, j | 0 <= i < j < |expected| :: expected[i].destination != expected[j].destination;
    forall m | m in expected ensures m in actual {
      assert m in RowSet(expected);
    }
    Sorting.DistinctCoverIsPermutation(expected, actual);
  }
}
