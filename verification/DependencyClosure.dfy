/**
 The dependency-closure check of the development-input resolver.

 Requirement parsing, PEP 503 name normalization, PEP 508 marker evaluation, version
 specifiers, digests and wheel metadata are total functions supplied by an `Engine`; the
 worklist, its failure branches and its termination are modelled exactly.
 */
module DependencyClosure {
  import opened Common

  type Bytes = seq<bv8>

  datatype Requirement = Requirement(
    name: string, extras: set<string>, url: string, marker: Option<string>, specifier: string)

  datatype Artifact = Artifact(
    name: string, version: string, filename: string, origin: string, sha256: string, requiresDist: seq<string>)

  datatype Metadata = Metadata(name: string, version: string, dependencies: seq<string>)

  datatype Engine = Engine(
    parse: string -> Option<Requirement>,
    canonical: string -> string,
    markerHolds: (string, string) -> bool,
    admits: (string, string) -> bool,
    originFilename: string -> Option<string>,
    digest: Bytes -> string,
    wheelMetadata: (Bytes, string) -> Option<Metadata>)

  /** A distribution visited with one selected extra; the empty string selects none. */
  datatype Node = Node(name: string, extra: string)

  /** A requirement waiting to be judged, with the extra its markers see. */
  datatype Demand = Demand(requirement: Requirement, extra: string)

  type Installed = map<string, Artifact>

  // ---- what a single requirement asks ------------------------------------------------

  predicate Active(e: Engine, d: Demand) {
    d.requirement.marker.Some? ==> e.markerHolds(d.requirement.marker.value, d.extra)
  }

  /** The demand is not a direct reference and, when its marker holds, the installed version satisfies it. */
  predicate Met(e: Engine, installed: Installed, d: Demand) {
    && d.requirement.url == ""
    && (Active(e, d) ==>
          var name := e.canonical(d.requirement.name);
          name in installed && e.admits(d.requirement.specifier, installed[name].version))
  }

  function SelectedExtras(r: Requirement): set<string> {
    if r.extras == {} then {""} else r.extras
  }

  predicate Selects(e: Engine, d: Demand, n: Node) {
    Active(e, d) && e.canonical(d.requirement.name) == n.name && n.extra in SelectedExtras(d.requirement)
  }

  /** Parsing a list fails as soon as one member does. */
  predicate AllParse(e: Engine, values: seq<string>) {
    forall v | v in values :: e.parse(v).Some?
  }

  function Demands(e: Engine, values: seq<string>, extra: string): set<Demand> {
    set v | v in values && e.parse(v).Some? :: Demand(e.parse(v).value, extra)
  }

  function DependencyValues(installed: Installed, n: Node): seq<string> {
    if n.name in installed then installed[n.name].requiresDist else []
  }

  // ---- the least set of nodes reached through active requirements -------------------

  ghost predicate Step(e: Engine, installed: Installed, from: Node, to: Node) {
    exists d :: d in Demands(e, DependencyValues(installed, from), from.extra) && Selects(e, d, to)
  }

  ghost predicate IsRoot(e: Engine, requested: seq<string>, n: Node) {
    exists d :: d in Demands(e, requested, "") && Selects(e, d, n)
  }

  ghost predicate Path(e: Engine, installed: Installed, requested: seq<string>, p: seq<Node>) {
    && p != []
    && if |p| == 1 then IsRoot(e, requested, p[0])
       else Path(e, installed, requested, p[..|p| - 1]) && Step(e, installed, p[|p| - 2], p[|p| - 1])
  }

  ghost predicate Reached(e: Engine, installed: Installed, requested: seq<string>, n: Node) {
    exists p :: Path(e, installed, requested, p) && p[|p| - 1] == n
  }

  ghost predicate Closed(e: Engine, installed: Installed, requested: seq<string>, s: set<Node>) {
    && (forall n | IsRoot(e, requested, n) :: n in s)
    && (forall m, n | m in s && Step(e, installed, m, n) :: n in s)
  }

  lemma ReachedIsClosed(e: Engine, installed: Installed, requested: seq<string>)
    ensures forall n | IsRoot(e, requested, n) :: Reached(e, installed, requested, n)
    ensures forall m, n | Reached(e, installed, requested, m) && Step(e, installed, m, n) ::
              Reached(e, installed, requested, n)
  {
    forall n | IsRoot(e, requested, n) ensures Reached(e, installed, requested, n) {
      assert Path(e, installed, requested, [n]) && [n][|[n]| - 1] == n;
    }
    forall m, n | Reached(e, installed, requested, m) && Step(e, installed, m, n)
      ensures Reached(e, installed, requested, n)
    {
      var p :| Path(e, installed, requested, p) && p[|p| - 1] == m;
      var q := p + [n];
      assert q[..|q| - 1] == p;
      assert Path(e, installed, requested, q) && q[|q| - 1] == n;
    }
  }

  /** `Reached` is the least closed set: any closed set contains it. */
  lemma ReachedIsLeast(e: Engine, installed: Installed, requested: seq<string>, s: set<Node>)
    requires Closed(e, installed, requested, s)
    ensures forall n | Reached(e, installed, requested, n) :: n in s
  {
    forall n | Reached(e, installed, requested, n) ensures n in s {
      var p :| Path(e, installed, requested, p) && p[|p| - 1] == n;
      PathStaysInside(e, installed, requested, s, p);
    }
  }

  lemma {:induction false} PathStaysInside(e: Engine, installed: Installed, requested: seq<string>, s: set<Node>,
                                           p: seq<Node>)
    requires Closed(e, installed, requested, s) && Path(e, installed, requested, p)
    ensures p[|p| - 1] in s
  {
    if |p| > 1 {
      PathStaysInside(e, installed, requested, s, p[..|p| - 1]);
    }
  }

  // ---- what acceptance means ----------------------------------------------------------

  /** Everything demanded of the environment parses and is met, and nothing installed goes unreached. */
  ghost predicate Complete(e: Engine, installed: Installed, requested: seq<string>) {
    && AllParse(e, requested)
    && (forall d | d in Demands(e, requested, "") :: Met(e, installed, d))
    && (forall n | Reached(e, installed, requested, n) ::
          && AllParse(e, DependencyValues(installed, n))
          && forall d | d in Demands(e, DependencyValues(installed, n), n.extra) :: Met(e, installed, d))
    && (forall name | name in installed :: exists n :: Reached(e, installed, requested, n) && n.name == name)
  }

  // ---- the same, requirement by requirement -------------------------------------------

  /** A requirement that was followed, and one of the extras it was followed for; `""` when it names none. */
  datatype Link = Link(requirement: Requirement, extra: string)

  /** Some value of the list reads as the requirement, whose marker, if any, holds under the extra. */
  ghost predicate Lists(e: Engine, values: seq<string>, extra: string, r: Requirement) {
    && (exists v | v in values :: e.parse(v) == Some(r))
    && (r.marker.Some? ==> e.markerHolds(r.marker.value, extra))
  }

  function RequiredBy(e: Engine, installed: Installed, r: Requirement): seq<string> {
    if e.canonical(r.name) in installed then installed[e.canonical(r.name)].requiresDist else []
  }

  /**
   A chain of requirements: the first is requested, each next one is listed by the distribution the one
   before names, for the extra it was followed for.
   */
  ghost predicate Chain(e: Engine, installed: Installed, requested: seq<string>, chain: seq<Link>) {
    && chain != []
    && var last := chain[|chain| - 1];
       && (if last.requirement.extras == {} then last.extra == "" else last.extra in last.requirement.extras)
       && if |chain| == 1 then Lists(e, requested, "", last.requirement)
          else
            var before := chain[|chain| - 2];
            && Chain(e, installed, requested, chain[..|chain| - 1])
            && Lists(e, RequiredBy(e, installed, before.requirement), before.extra, last.requirement)
  }

  /** Every value of the list parses, refers to no URL, and is satisfied when its marker holds under the extra. */
  ghost predicate Satisfied(e: Engine, installed: Installed, values: seq<string>, extra: string) {
    forall v | v in values ::
      && e.parse(v).Some?
      && var r := e.parse(v).value;
         && r.url == ""
         && ((r.marker.Some? ==> e.markerHolds(r.marker.value, extra)) ==>
               && e.canonical(r.name) in installed
               && e.admits(r.specifier, installed[e.canonical(r.name)].version))
  }

  lemma DemandsAreListed(e: Engine, values: seq<string>, extra: string, d: Demand, n: Node)
    ensures d in Demands(e, values, extra) && Selects(e, d, n) ==>
              && d.extra == extra && Lists(e, values, extra, d.requirement) && n.name == e.canonical(d.requirement.name)
              && (if d.requirement.extras == {} then n.extra == "" else n.extra in d.requirement.extras)
  {
  }

  lemma ListedIsDemanded(e: Engine, values: seq<string>, extra: string, link: Link)
    requires Lists(e, values, extra, link.requirement)
    requires if link.requirement.extras == {} then link.extra == "" else link.extra in link.requirement.extras
    ensures Demand(link.requirement, extra) in Demands(e, values, extra)
    ensures Selects(e, Demand(link.requirement, extra), Node(e.canonical(link.requirement.name), link.extra))
  {
  }

  function EndOf(e: Engine, chain: seq<Link>): Node
    requires chain != []
  {
    var last := chain[|chain| - 1];
    Node(e.canonical(last.requirement.name), last.extra)
  }

  lemma {:induction false} ChainsAreReached(e: Engine, installed: Installed, requested: seq<string>, chain: seq<Link>)
    requires Chain(e, installed, requested, chain)
    ensures Reached(e, installed, requested, EndOf(e, chain))
  {
    hide Lists, Selects, Reached;
    ReachedIsClosed(e, installed, requested);
    var last := chain[|chain| - 1];
    var node := EndOf(e, chain);
    if |chain| == 1 {
      ListedIsDemanded(e, requested, "", last);
      assert IsRoot(e, requested, node);
    } else {
      var front := chain[..|chain| - 1];
      ChainsAreReached(e, installed, requested, front);
      var before := chain[|chain| - 2];
      ListedIsDemanded(e, RequiredBy(e, installed, before.requirement), before.extra, last);
      assert Step(e, installed, EndOf(e, front), node);
    }
  }

  lemma {:induction false} PathsAreChains(e: Engine, installed: Installed, requested: seq<string>, p: seq<Node>)
    returns (chain: seq<Link>)
    requires Path(e, installed, requested, p)
    ensures Chain(e, installed, requested, chain) && EndOf(e, chain) == p[|p| - 1]
  {
    hide Lists, Selects, Demands, Step;
    var n := p[|p| - 1];
    if |p| == 1 {
      var d :| d in Demands(e, requested, "") && Selects(e, d, n);
      DemandsAreListed(e, requested, "", d, n);
      chain := [Link(d.requirement, n.extra)];
    } else {
      var front := PathsAreChains(e, installed, requested, p[..|p| - 1]);
      chain := ChainExtends(e, installed, requested, front, n);
    }
  }

  lemma ChainExtends(e: Engine, installed: Installed, requested: seq<string>, front: seq<Link>, n: Node)
    returns (chain: seq<Link>)
    requires Chain(e, installed, requested, front) && Step(e, installed, EndOf(e, front), n)
    ensures Chain(e, installed, requested, chain) && EndOf(e, chain) == n
  {
    hide Lists, Selects, Demands;
    var m := EndOf(e, front);
    var d :| d in Demands(e, DependencyValues(installed, m), m.extra) && Selects(e, d, n);
    DemandsAreListed(e, DependencyValues(installed, m), m.extra, d, n);
    chain := front + [Link(d.requirement, n.extra)];
    assert chain[..|chain| - 1] == front && chain[|chain| - 2] == front[|front| - 1];
  }

  lemma DemandsAreSatisfied(e: Engine, installed: Installed, values: seq<string>, extra: string)
    ensures AllParse(e, values) && (forall d | d in Demands(e, values, extra) :: Met(e, installed, d))
       <==> Satisfied(e, installed, values, extra)
  {
    if Satisfied(e, installed, values, extra) {
      forall d | d in Demands(e, values, extra) ensures Met(e, installed, d) {
      }
    }
    if AllParse(e, values) && forall d | d in Demands(e, values, extra) :: Met(e, installed, d) {
      forall v | v in values ensures Met(e, installed, Demand(e.parse(v).value, extra)) {
        assert Demand(e.parse(v).value, extra) in Demands(e, values, extra);
      }
    }
  }

  lemma ReachedIffChained(e: Engine, installed: Installed, requested: seq<string>, n: Node)
    ensures Reached(e, installed, requested, n) <==> Chained(e, installed, requested, n)
  {
    if Reached(e, installed, requested, n) {
      var p :| Path(e, installed, requested, p) && p[|p| - 1] == n;
      var chain := PathsAreChains(e, installed, requested, p);
    }
    if Chained(e, installed, requested, n) {
      var chain :| Chain(e, installed, requested, chain) && EndOf(e, chain) == n;
      ChainsAreReached(e, installed, requested, chain);
    }
  }

  ghost predicate Chained(e: Engine, installed: Installed, requested: seq<string>, n: Node) {
    exists chain: seq<Link> :: Chain(e, installed, requested, chain) && EndOf(e, chain) == n
  }

  /** What completeness asks of one reached node. */
  lemma NodeIsSatisfied(e: Engine, installed: Installed, n: Node)
    ensures Satisfied(e, installed, DependencyValues(installed, n), n.extra)
       <==> AllParse(e, DependencyValues(installed, n))
            && forall d | d in Demands(e, DependencyValues(installed, n), n.extra) :: Met(e, installed, d)
  {
    DemandsAreSatisfied(e, installed, DependencyValues(installed, n), n.extra);
  }

  /** Whatever a chain leads to is satisfied. */
  ghost predicate ChainsSatisfied(e: Engine, installed: Installed, requested: seq<string>) {
    forall chain: seq<Link> | Chain(e, installed, requested, chain) ::
      var last := chain[|chain| - 1];
      Satisfied(e, installed, RequiredBy(e, installed, last.requirement), last.extra)
  }

  ghost predicate EndsAChain(e: Engine, installed: Installed, requested: seq<string>, name: string) {
    exists chain: seq<Link> ::
      Chain(e, installed, requested, chain) && e.canonical(chain[|chain| - 1].requirement.name) == name
  }

  lemma ReachedAreSatisfiedIff(e: Engine, installed: Installed, requested: seq<string>)
    ensures ChainsSatisfied(e, installed, requested)
       <==> forall n | Reached(e, installed, requested, n) ::
              Satisfied(e, installed, DependencyValues(installed, n), n.extra)
  {
    hide Path, Satisfied, Reached, Lists;
    if ChainsSatisfied(e, installed, requested) {
      forall n | Reached(e, installed, requested, n)
        ensures Satisfied(e, installed, DependencyValues(installed, n), n.extra)
      {
        ReachedIffChained(e, installed, requested, n);
        var chain: seq<Link> :| Chain(e, installed, requested, chain) && EndOf(e, chain) == n;
        assert RequiredBy(e, installed, chain[|chain| - 1].requirement) == DependencyValues(installed, n);
      }
    } else {
      var chain: seq<Link> :| Chain(e, installed, requested, chain)
        && !Satisfied(e, installed, RequiredBy(e, installed, chain[|chain| - 1].requirement), chain[|chain| - 1].extra);
      ReachedIffChained(e, installed, requested, EndOf(e, chain));
      assert Reached(e, installed, requested, EndOf(e, chain));
    }
  }

  lemma EndsAChainIff(e: Engine, installed: Installed, requested: seq<string>, name: string)
    ensures EndsAChain(e, installed, requested, name)
       <==> exists n :: Reached(e, installed, requested, n) && n.name == name
  {
    hide Path, Reached, Lists;
    if n :| Reached(e, installed, requested, n) && n.name == name {
      ReachedIffChained(e, installed, requested, n);
      var chain: seq<Link> :| Chain(e, installed, requested, chain) && EndOf(e, chain) == n;
    }
    if EndsAChain(e, installed, requested, name) {
      var chain: seq<Link> :| Chain(e, installed, requested, chain) && EndOf(e, chain).name == name;
      ReachedIffChained(e, installed, requested, EndOf(e, chain));
      assert Reached(e, installed, requested, EndOf(e, chain));
    }
  }

  /**
   An environment is complete exactly when the requested values are satisfied, so is everything listed at
   the end of any chain of requirements, and every installed distribution is at the end of one.
   */
  lemma CompleteIff(e: Engine, installed: Installed, requested: seq<string>)
    ensures Complete(e, installed, requested) <==>
            && Satisfied(e, installed, requested, "") && ChainsSatisfied(e, installed, requested)
            && forall name | name in installed :: EndsAChain(e, installed, requested, name)
  {
    hide Satisfied, Met, Demands, AllParse, Reached, EndsAChain, ChainsSatisfied;
    DemandsAreSatisfied(e, installed, requested, "");
    ReachedAreSatisfiedIff(e, installed, requested);
    forall n: Node
      ensures Satisfied(e, installed, DependencyValues(installed, n), n.extra)
         <==> AllParse(e, DependencyValues(installed, n))
              && forall d | d in Demands(e, DependencyValues(installed, n), n.extra) :: Met(e, installed, d)
    {
      NodeIsSatisfied(e, installed, n);
    }
    forall name | name in installed
      ensures EndsAChain(e, installed, requested, name)
         <==> exists n :: Reached(e, installed, requested, n) && n.name == name
    {
      EndsAChainIff(e, installed, requested, name);
    }
  }

  /** One recorded artifact agrees with its origin, its bytes and the metadata inside them. */
  predicate Authentic(e: Engine, a: Artifact, directory: map<string, Bytes>) {
    && e.originFilename(a.origin) == Some(a.filename)
    && a.filename in directory
    && e.digest(directory[a.filename]) == a.sha256
    && e.wheelMetadata(directory[a.filename], a.filename) == Some(Metadata(a.name, a.version, a.requiresDist))
  }

  predicate DistinctNames(artifacts: seq<Artifact>) {
    forall i, j | 0 <= i < j < |artifacts| :: artifacts[i].name != artifacts[j].name
  }

  predicate AuthenticSet(e: Engine, artifacts: seq<Artifact>, directory: map<string, Bytes>) {
    && (forall a | a in artifacts :: Authentic(e, a, directory))
    && DistinctNames(artifacts)
  }

  function ByName(artifacts: seq<Artifact>): Installed
    requires DistinctNames(artifacts)
  {
    map a | a in artifacts :: a.name := a
  }

  // ---- the worklist as a transition system that may pop any pending demand ------------

  datatype State = Running(seen: set<Node>, pending: seq<Demand>) | Done(accepted: bool)

  function FreshNodes(e: Engine, d: Demand, seen: set<Node>): set<Node> {
    set x | x in SelectedExtras(d.requirement) && Node(e.canonical(d.requirement.name), x) !in seen ::
      Node(e.canonical(d.requirement.name), x)
  }

  /** `ext` lists, in some order and with any repetition, what the newly selected nodes demand. */
  ghost predicate Extension(e: Engine, installed: Installed, added: set<Node>, ext: seq<Demand>) {
    forall d :: d in ext <==> exists n :: n in added && d in Demands(e, DependencyValues(installed, n), n.extra)
  }

  function Without(pending: seq<Demand>, i: nat): seq<Demand>
    requires i < |pending|
  {
    pending[..i] + pending[i + 1..]
  }

  /** Popping the demand at index `i`. */
  ghost predicate Pop(e: Engine, installed: Installed, s: State, i: nat, t: State)
    requires s.Running? && i < |s.pending|
  {
    var d := s.pending[i];
    if !Met(e, installed, d) then t == Done(false)
    else if !Active(e, d) then t == Running(s.seen, Without(s.pending, i))
    else
      var added := FreshNodes(e, d, s.seen);
      if exists n :: n in added && !AllParse(e, DependencyValues(installed, n)) then t == Done(false)
      else exists ext :: Extension(e, installed, added, ext)
                         && t == Running(s.seen + added, Without(s.pending, i) + ext)
  }

  function Names(seen: set<Node>): set<string> {
    set n | n in seen :: n.name
  }

  ghost predicate Next(e: Engine, installed: Installed, s: State, t: State) {
    && s.Running?
    && if s.pending == [] then t == Done(Names(s.seen) == installed.Keys)
       else exists i: nat :: i < |s.pending| && Pop(e, installed, s, i, t)
  }

  /** The run starts with the requested demands in any order; an unparsable request refuses at once. */
  ghost predicate Start(e: Engine, requested: seq<string>, s: State) {
    if AllParse(e, requested) then
      s.Running? && s.seen == {} && forall d :: d in s.pending <==> d in Demands(e, requested, "")
    else s == Done(false)
  }

  ghost predicate Sourced(e: Engine, installed: Installed, requested: seq<string>, seen: set<Node>, d: Demand) {
    || d in Demands(e, requested, "")
    || exists n :: n in seen && d in Demands(e, DependencyValues(installed, n), n.extra)
  }

  ghost predicate Handled(e: Engine, installed: Installed, seen: set<Node>, d: Demand) {
    Met(e, installed, d) && forall n | Selects(e, d, n) :: n in seen
  }

  ghost predicate Invariant(e: Engine, installed: Installed, requested: seq<string>, s: State) {
    match s
    case Done(accepted) => accepted <==> Complete(e, installed, requested)
    case Running(seen, pending) =>
      && AllParse(e, requested)
      && (forall n | n in seen :: Reached(e, installed, requested, n) && AllParse(e, DependencyValues(installed, n)))
      && (forall d | d in pending :: Sourced(e, installed, requested, seen, d))
      && (forall d | Sourced(e, installed, requested, seen, d) :: d in pending || Handled(e, installed, seen, d))
  }

  lemma StartHolds(e: Engine, installed: Installed, requested: seq<string>, s: State)
    requires Start(e, requested, s)
    ensures Invariant(e, installed, requested, s)
  {
  }

  lemma SourcedIsJudged(e: Engine, installed: Installed, requested: seq<string>, s: State, d: Demand)
    requires s.Running? && Invariant(e, installed, requested, s) && Sourced(e, installed, requested, s.seen, d)
    ensures !Met(e, installed, d) ==> !Complete(e, installed, requested)
    ensures forall n | Selects(e, d, n) :: Reached(e, installed, requested, n)
  {
    ReachedIsClosed(e, installed, requested);
    if d !in Demands(e, requested, "") {
      var m :| m in s.seen && d in Demands(e, DependencyValues(installed, m), m.extra);
      forall n | Selects(e, d, n) ensures Reached(e, installed, requested, n) {
        assert Step(e, installed, m, n);
      }
    }
  }

  lemma PopKeepsInvariant(e: Engine, installed: Installed, requested: seq<string>, s: State, i: nat, t: State)
    requires s.Running? && i < |s.pending|
    requires Invariant(e, installed, requested, s) && Pop(e, installed, s, i, t)
    ensures Invariant(e, installed, requested, t)
  {
    var d := s.pending[i];
    SourcedIsJudged(e, installed, requested, s, d);
    var rest := Without(s.pending, i);
    assert forall x :: x in s.pending ==> x in rest || x == d;
    if !Met(e, installed, d) {
    } else if !Active(e, d) {
      assert Handled(e, installed, s.seen, d);
    } else {
      var added := FreshNodes(e, d, s.seen);
      assert forall n :: n in added ==> Selects(e, d, n);
      if n :| n in added && !AllParse(e, DependencyValues(installed, n)) {
        assert Reached(e, installed, requested, n);
      } else {
        var ext :| Extension(e, installed, added, ext) && t == Running(s.seen + added, rest + ext);
        SelectionKeepsInvariant(e, installed, requested, s, i, added, ext);
      }
    }
  }

  lemma SelectionKeepsInvariant(e: Engine, installed: Installed, requested: seq<string>, s: State, i: nat,
                                added: set<Node>, ext: seq<Demand>)
    requires s.Running? && i < |s.pending| && Invariant(e, installed, requested, s)
    requires Met(e, installed, s.pending[i]) && Active(e, s.pending[i])
    requires added == FreshNodes(e, s.pending[i], s.seen) && Extension(e, installed, added, ext)
    requires forall n | n in added :: Reached(e, installed, requested, n) && AllParse(e, DependencyValues(installed, n))
    ensures Invariant(e, installed, requested, Running(s.seen + added, Without(s.pending, i) + ext))
  {
    var d, rest, seen := s.pending[i], Without(s.pending, i), s.seen + added;
    assert Handled(e, installed, seen, d);
    forall x | Sourced(e, installed, requested, seen, x)
      ensures x in rest + ext || Handled(e, installed, seen, x)
    {
      if Sourced(e, installed, requested, s.seen, x) {
        assert x in s.pending || Handled(e, installed, s.seen, x);
      } else {
        var n :| n in seen && x in Demands(e, DependencyValues(installed, n), n.extra);
        assert x in ext;
      }
    }
    forall x | x in rest + ext ensures Sourced(e, installed, requested, seen, x) {
      if x in rest {
        assert x in s.pending;
      }
    }
  }

  lemma EmptyWorklistDecides(e: Engine, installed: Installed, requested: seq<string>, s: State)
    requires s.Running? && s.pending == [] && Invariant(e, installed, requested, s)
    ensures Complete(e, installed, requested) <==> Names(s.seen) == installed.Keys
  {
    forall m, n | m in s.seen && Step(e, installed, m, n) ensures n in s.seen {
      var d :| d in Demands(e, DependencyValues(installed, m), m.extra) && Selects(e, d, n);
      assert Sourced(e, installed, requested, s.seen, d);
    }
    forall n | IsRoot(e, requested, n) ensures n in s.seen {
      var d :| d in Demands(e, requested, "") && Selects(e, d, n);
      assert Sourced(e, installed, requested, s.seen, d);
    }
    ReachedIsLeast(e, installed, requested, s.seen);
    forall d | d in Demands(e, requested, "") ensures Met(e, installed, d) {
      assert Sourced(e, installed, requested, s.seen, d);
    }
    forall n, d | n in s.seen && d in Demands(e, DependencyValues(installed, n), n.extra)
      ensures Met(e, installed, d)
    {
      assert Sourced(e, installed, requested, s.seen, d);
    }
    forall n | n in s.seen ensures n.name in installed {
      ReachedNodeIsInstalled(e, installed, requested, s.seen, n);
    }
    if Complete(e, installed, requested) {
      assert forall name :: name in installed ==> name in Names(s.seen);
    }
    if Names(s.seen) == installed.Keys {
      forall name | name in installed ensures exists n :: Reached(e, installed, requested, n) && n.name == name {
        assert name in Names(s.seen);
      }
    }
  }

  lemma ReachedNodeIsInstalled(e: Engine, installed: Installed, requested: seq<string>, seen: set<Node>, n: Node)
    requires Reached(e, installed, requested, n)
    requires forall m | Reached(e, installed, requested, m) :: m in seen
    requires forall d | Sourced(e, installed, requested, seen, d) :: Handled(e, installed, seen, d)
    ensures n.name in installed
  {
    var p :| Path(e, installed, requested, p) && p[|p| - 1] == n;
    if |p| == 1 {
      var d :| d in Demands(e, requested, "") && Selects(e, d, n);
      assert Sourced(e, installed, requested, seen, d);
    } else {
      var m := p[|p| - 2];
      assert Path(e, installed, requested, p[..|p| - 1]);
      assert Reached(e, installed, requested, m);
      assert Step(e, installed, m, n);
      var d :| d in Demands(e, DependencyValues(installed, m), m.extra) && Selects(e, d, n);
      assert Sourced(e, installed, requested, seen, d);
    }
  }

  /** However the pops are ordered, a finished run accepts exactly the complete environments. */
  lemma {:induction false} AnyOrderGivesTheSameVerdict(e: Engine, installed: Installed, requested: seq<string>,
                                                       run: seq<State>)
    requires run != [] && Start(e, requested, run[0])
    requires forall i | 0 < i < |run| :: Next(e, installed, run[i - 1], run[i])
    ensures Invariant(e, installed, requested, run[|run| - 1])
    ensures run[|run| - 1].Done? ==> (run[|run| - 1].accepted <==> Complete(e, installed, requested))
  {
    if |run| == 1 {
      StartHolds(e, installed, requested, run[0]);
    } else {
      AnyOrderGivesTheSameVerdict(e, installed, requested, run[..|run| - 1]);
      var s, t := run[|run| - 2], run[|run| - 1];
      assert Next(e, installed, s, t);
      if s.pending == [] {
        EmptyWorklistDecides(e, installed, requested, s);
      } else {
        var i: nat :| i < |s.pending| && Pop(e, installed, s, i, t);
        PopKeepsInvariant(e, installed, requested, s, i, t);
      }
    }
  }

  // ---- termination: the nodes still unseen, then the demands still pending ------------

  function Extras(e: Engine, values: seq<string>): set<string> {
    set v, x | v in values && e.parse(v).Some? && x in e.parse(v).value.extras :: x
  }

  /** Every node any run can visit: an installed name with an extra some requirement selects. */
  function Universe(e: Engine, installed: Installed, requested: seq<string>): set<Node> {
    var extras := {""} + Extras(e, requested)
                  + set name, x | name in installed && x in Extras(e, installed[name].requiresDist) :: x;
    set name, x | name in installed && x in extras :: Node(name, x)
  }

  ghost predicate Smaller(e: Engine, installed: Installed, requested: seq<string>, s: State, t: State)
    requires s.Running? && t.Running?
  {
    var u := Universe(e, installed, requested);
    || |u - t.seen| < |u - s.seen|
    || (t.seen == s.seen && |t.pending| < |s.pending|)
  }

  lemma FreshNodesAreInTheUniverse(e: Engine, installed: Installed, requested: seq<string>, s: State, d: Demand)
    requires s.Running? && Sourced(e, installed, requested, s.seen, d)
    requires Met(e, installed, d) && Active(e, d)
    ensures FreshNodes(e, d, s.seen) <= Universe(e, installed, requested)
  {
    if d in Demands(e, requested, "") {
      assert forall x :: x in d.requirement.extras ==> x in Extras(e, requested);
    } else {
      var m :| m in s.seen && d in Demands(e, DependencyValues(installed, m), m.extra);
      assert forall x :: x in d.requirement.extras ==> x in Extras(e, installed[m.name].requiresDist);
    }
  }

  lemma LargerSetLeavesLess<T>(u: set<T>, a: set<T>, b: set<T>)
    requires a <= b && exists x :: x in u && x in b && x !in a
    ensures |u - b| < |u - a|
  {
    var x :| x in u && x in b && x !in a;
    assert u - b <= (u - a) - {x};
    SubsetIsNoLarger(u - b, (u - a) - {x});
  }

  lemma {:induction false} SubsetIsNoLarger<T>(a: set<T>, b: set<T>)
    requires a <= b
    ensures |a| <= |b|
  {
    if a != {} {
      var x :| x in a;
      SubsetIsNoLarger(a - {x}, b - {x});
    }
  }

  /** Cycles included, every pop makes progress in one finite lexicographic measure. */
  lemma EveryPopProgresses(e: Engine, installed: Installed, requested: seq<string>, s: State, i: nat, t: State)
    requires s.Running? && i < |s.pending| && t.Running?
    requires Invariant(e, installed, requested, s) && Pop(e, installed, s, i, t)
    ensures Smaller(e, installed, requested, s, t)
  {
    var d := s.pending[i];
    if Active(e, d) {
      FreshNodesAreInTheUniverse(e, installed, requested, s, d);
      var added := FreshNodes(e, d, s.seen);
      var ext :| Extension(e, installed, added, ext) && t == Running(s.seen + added, Without(s.pending, i) + ext);
      if ext != [] {
        assert ext[0] in ext;
        assert added != {};
      }
      if n :| n in added {
        LargerSetLeavesLess(Universe(e, installed, requested), s.seen, t.seen);
      } else {
        assert t.seen == s.seen;
      }
    }
  }

  // ---- the check itself ------------------------------------------------------------------

  method ParseDemands(e: Engine, values: seq<string>, extra: string) returns (r: Option<seq<Demand>>)
    ensures r.Some? <==> AllParse(e, values)
    ensures r.Some? ==> forall d :: d in r.value <==> d in Demands(e, values, extra)
  {
    var demands: seq<Demand> := [];
    for k := 0 to |values|
      invariant AllParse(e, values[..k])
      invariant forall d :: d in demands <==> d in Demands(e, values[..k], extra)
    {
      assert values[..k + 1] == values[..k] + [values[k]];
      var parsed := e.parse(values[k]);
      if parsed.None? {
        return None;
      }
      demands := demands + [Demand(parsed.value, extra)];
    }
    assert values[..|values|] == values;
    return Some(demands);
  }

  method CheckArtifact(e: Engine, item: Artifact, directory: map<string, Bytes>) returns (verdict: Verdict)
    ensures verdict.Accepted? <==> Authentic(e, item, directory)
  {
    if e.originFilename(item.origin) != Some(item.filename) {
      return Refused("artifact filename differs from origin");
    }
    if item.filename !in directory {
      return Refused("artifact file is missing");
    }
    var data := directory[item.filename];
    if e.digest(data) != item.sha256 {
      return Refused("artifact digest differs");
    }
    if e.wheelMetadata(data, item.filename) != Some(Metadata(item.name, item.version, item.requiresDist)) {
      return Refused("artifact metadata differs");
    }
    return Accepted;
  }

  lemma NoNames()
    ensures DistinctNames([]) && ByName([]) == map[]
  {
  }

  lemma NameTaken(artifacts: seq<Artifact>, k: nat)
    requires k < |artifacts| && DistinctNames(artifacts[..k]) && artifacts[k].name in ByName(artifacts[..k])
    ensures !DistinctNames(artifacts)
  {
    var a :| a in artifacts[..k] && a.name == artifacts[k].name;
    var j :| 0 <= j < k && artifacts[j] == a;
    assert artifacts[j].name == artifacts[k].name;
  }

  method Authenticate(e: Engine, artifacts: seq<Artifact>, directory: map<string, Bytes>)
    returns (r: Result<Installed>)
    ensures r.Ok? <==> AuthenticSet(e, artifacts, directory)
    ensures r.Ok? ==> r.value == ByName(artifacts)
  {
    hide Authentic, DistinctNames, ByName;
    NoNames();
    var installed: Installed := map[];
    for k := 0 to |artifacts|
      invariant forall j | 0 <= j < k :: Authentic(e, artifacts[j], directory)
      invariant DistinctNames(artifacts[..k])
      invariant installed == ByName(artifacts[..k])
    {
      var verdict := CheckArtifact(e, artifacts[k], directory);
      if verdict.Refused? {
        assert artifacts[k] in artifacts;
        return Raised(Error(verdict.reason));
      }
      if artifacts[k].name in installed {
        NameTaken(artifacts, k);
        return Raised(Error("artifact duplicates a distribution"));
      }
      ByNameExtends(artifacts, k);
      installed := installed[artifacts[k].name := artifacts[k]];
    }
    assert artifacts[..|artifacts|] == artifacts;
    return Ok(installed);
  }

  lemma ByNameExtends(artifacts: seq<Artifact>, k: nat)
    requires k < |artifacts| && DistinctNames(artifacts[..k])
    requires artifacts[k].name !in ByName(artifacts[..k])
    ensures DistinctNames(artifacts[..k + 1])
    ensures ByName(artifacts[..k + 1]) == ByName(artifacts[..k])[artifacts[k].name := artifacts[k]]
  {
    var before, after := artifacts[..k], artifacts[..k + 1];
    assert after == before + [artifacts[k]];
    forall j | 0 <= j < k ensures after[j].name != artifacts[k].name {
      assert before[j] in before;
      assert before[j].name in ByName(before);
    }
  }

  /** Visits the extras one satisfied demand selects, extending the worklist with what new nodes require. */
  method Visit(e: Engine, installed: Installed, s: State, i: nat) returns (t: State)
    requires s.Running? && i < |s.pending|
    requires Met(e, installed, s.pending[i]) && Active(e, s.pending[i])
    ensures Pop(e, installed, s, i, t)
  {
    var d := s.pending[i];
    var name := e.canonical(d.requirement.name);
    var rest := Without(s.pending, i);
    var seen, pending, todo := s.seen, rest, SelectedExtras(d.requirement);
    ghost var added: set<Node>, ext: seq<Demand> := {}, [];
    while todo != {}
      invariant todo <= SelectedExtras(d.requirement)
      invariant seen == s.seen + added && pending == rest + ext
      invariant added == set x | x in SelectedExtras(d.requirement) - todo && Node(name, x) !in s.seen :: Node(name, x)
      invariant Extension(e, installed, added, ext)
      invariant forall n | n in added :: AllParse(e, DependencyValues(installed, n))
      decreases todo
    {
      var selected :| selected in todo;
      todo := todo - {selected};
      var n := Node(name, selected);
      if n !in seen {
        seen := seen + {n};
        var more := ParseDemands(e, installed[name].requiresDist, selected);
        if more.None? {
          assert n in FreshNodes(e, d, s.seen);
          return Done(false);
        }
        pending := pending + more.value;
        added, ext := added + {n}, ext + more.value;
        assert rest + ext == pending;
      }
    }
    assert added == FreshNodes(e, d, s.seen);
    return Running(seen, pending);
  }

  /** One turn of the worklist: judge the last pending demand, and pull in what it selects. */
  method PopLast(e: Engine, installed: Installed, s: State) returns (t: State, reason: string)
    requires s.Running? && s.pending != []
    ensures Pop(e, installed, s, |s.pending| - 1, t)
  {
    var last := |s.pending| - 1;
    var d := s.pending[last];
    if d.requirement.url != "" {
      return Done(false), "direct dependency origin refused";
    }
    if !Active(e, d) {
      return Running(s.seen, Without(s.pending, last)), "";
    }
    var name := e.canonical(d.requirement.name);
    if name !in installed || !e.admits(d.requirement.specifier, installed[name].version) {
      return Done(false), "incomplete dependency closure";
    }
    t := Visit(e, installed, s, last);
    reason := "invalid requirement";
  }

  /** The worklist, from its roots until nothing is pending. */
  method Traverse(e: Engine, installed: Installed, requested: seq<string>, roots: seq<Demand>)
    returns (verdict: Verdict)
    requires Start(e, requested, Running({}, roots))
    ensures verdict.Accepted? <==> Complete(e, installed, requested)
  {
    hide Complete, Start, Names, Pop, Sourced, AllParse, Reached, Handled;
    var s := Running({}, roots);
    StartHolds(e, installed, requested, s);
    while s.pending != []
      invariant s.Running? && Invariant(e, installed, requested, s)
      decreases |Universe(e, installed, requested) - s.seen|, |s.pending|
    {
      var last := |s.pending| - 1;
      var t, reason := PopLast(e, installed, s);
      PopKeepsInvariant(e, installed, requested, s, last, t);
      if t.Done? {
        assert !t.accepted by {
          PopNeverAccepts(e, installed, s, last, t);
        }
        return Refused(reason);
      }
      EveryPopProgresses(e, installed, requested, s, last, t);
      s := t;
    }
    EmptyWorklistDecides(e, installed, requested, s);
    if Names(s.seen) != installed.Keys {
      return Refused("unrequested artifacts in closure");
    }
    return Accepted;
  }

  lemma PopNeverAccepts(e: Engine, installed: Installed, s: State, i: nat, t: State)
    requires s.Running? && i < |s.pending| && Pop(e, installed, s, i, t)
    ensures t.Done? ==> !t.accepted
  {
  }

  /** The check accepts exactly the authentic, complete environments. */
  method ValidateClosure(e: Engine, artifacts: seq<Artifact>, requested: seq<string>, directory: map<string, Bytes>)
    returns (verdict: Verdict)
    ensures verdict.Accepted? <==>
            AuthenticSet(e, artifacts, directory) && Complete(e, ByName(artifacts), requested)
  {
    var authenticated := Authenticate(e, artifacts, directory);
    if authenticated.Raised? {
      return Refused("unauthentic artifacts");
    }
    var roots := ParseDemands(e, requested, "");
    if roots.None? {
      return Refused("invalid requirement");
    }
    verdict := Traverse(e, authenticated.value, requested, roots.value);
  }
}
