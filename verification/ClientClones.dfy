/**
 Clones of the admin client: who owns which HTTP client, what closing one closes, and which
 timeout and retry budget a clone of a clone ends up with.
 */
module ClientClones {
  import opened Common

  class Transport {
    var closed: bool

    constructor ()
      ensures !closed
    {
      closed := false;
    }
  }

  /** A transport with the wrappers around it; `NonClosing` shields what it wraps from being closed. */
  datatype Wrapped =
    | Bare(transport: Transport)
    | Retrying(inner: Wrapped, maxRetries: nat)
    | NonClosing(inner: Wrapped)

  /** The transport that requests go out over in the end. */
  function SendsOver(w: Wrapped): Transport {
    match w
    case Bare(t) => t
    case Retrying(inner, _) => SendsOver(inner)
    case NonClosing(inner) => SendsOver(inner)
  }

  /** The transports that closing the outermost wrapper closes. */
  function Closes(w: Wrapped): set<Transport> {
    match w
    case Bare(t) => {t}
    case Retrying(inner, _) => Closes(inner)
    case NonClosing(_) => {}
  }

  method CloseWrapped(w: Wrapped)
    modifies Closes(w)
    ensures forall t | t in Closes(w) :: t.closed
  {
    match w
    case Bare(t) => t.closed := true;
    case Retrying(inner, _) => CloseWrapped(inner);
    case NonClosing(_) =>
  }

  class HttpClient {
    var closed: bool
    const baseUrl: string
    const timeout: real
    const transport: Wrapped

    constructor (baseUrl: string, timeout: real, transport: Wrapped)
      ensures !closed && this.baseUrl == baseUrl && this.timeout == timeout && this.transport == transport
    {
      this.closed, this.baseUrl, this.timeout, this.transport := false, baseUrl, timeout, transport;
    }

    method Close()
      modifies this, Closes(transport)
      ensures closed && forall t | t in Closes(transport) :: t.closed
    {
      closed := true;
      CloseWrapped(transport);
    }
  }

  datatype Override = Override(timeout: Option<real>, maxRetries: Option<nat>, baseUrl: Option<string>)

  function OrElse<T>(first: Option<T>, second: Option<T>): Option<T> {
    if first.Some? then first else second
  }

  // ---- what a chain of overrides should amount to ----------------------------------------

  function LastGiven<T>(option: Override -> Option<T>, chain: seq<Override>): Option<T> {
    if chain == [] then None else OrElse(option(chain[|chain| - 1]), LastGiven(option, chain[..|chain| - 1]))
  }

  function LastTimeout(chain: seq<Override>): Option<real> {
    LastGiven((o: Override) => o.timeout, chain)
  }

  function LastMaxRetries(chain: seq<Override>): Option<nat> {
    LastGiven((o: Override) => o.maxRetries, chain)
  }

  function LastBaseUrl(chain: seq<Override>): Option<string> {
    LastGiven((o: Override) => o.baseUrl, chain)
  }

  function Least(initial: real, chain: seq<Override>): real {
    if chain == [] then initial
    else
      var rest := Least(initial, chain[..|chain| - 1]);
      var last := chain[|chain| - 1].timeout;
      if last.Some? && last.value < rest then last.value else rest
  }

  /** `Least` is the minimum: a lower bound of every timeout on the chain, and one of them. */
  lemma {:induction false} LeastIsTheMinimum(initial: real, chain: seq<Override>)
    ensures Least(initial, chain) <= initial
    ensures forall o | o in chain && o.timeout.Some? :: Least(initial, chain) <= o.timeout.value
    ensures Least(initial, chain) == initial || exists o :: o in chain && o.timeout == Some(Least(initial, chain))
  {
    if chain != [] {
      var front, last := chain[..|chain| - 1], chain[|chain| - 1];
      LeastIsTheMinimum(initial, front);
      assert chain == front + [last];
      assert last in chain;
    }
  }

  /** The value given on the chain with none given after it, if there is any. */
  ghost predicate MostRecent<T(!new)>(option: Override -> Option<T>, chain: seq<Override>, given: Option<T>) {
    match given
    case None => forall o | o in chain :: option(o).None?
    case Some(_) => exists i :: 0 <= i < |chain| && option(chain[i]) == given
                                && forall j | i < j < |chain| :: option(chain[j]).None?
  }

  lemma {:induction false} LastGivenIsTheMostRecent<T(!new)>(option: Override -> Option<T>, chain: seq<Override>)
    ensures MostRecent(option, chain, LastGiven(option, chain))
  {
    if chain != [] {
      var front, last := chain[..|chain| - 1], chain[|chain| - 1];
      LastGivenIsTheMostRecent(option, front);
      assert chain == front + [last];
      if option(last).Some? {
        assert option(chain[|chain| - 1]) == LastGiven(option, chain);
      } else if LastGiven(option, front).Some? {
        var i :| 0 <= i < |front| && option(front[i]) == LastGiven(option, front)
                 && forall j | i < j < |front| :: option(front[j]).None?;
        assert option(chain[i]) == LastGiven(option, chain);
        assert forall j | i < j < |chain| :: option(chain[j]).None?;
      }
    }
  }

  // ---- the client --------------------------------------------------------------------------

  class AdminClient {
    const http: HttpClient
    const initTimeout: real
    const initTransport: Option<Wrapped>
    const initMaxRetries: nat
    const initBaseUrl: string
    var owns: bool
    var optionsTimeout: Option<real>
    var optionsMaxRetries: Option<nat>

    /** Around a client the caller built and keeps. */
    constructor Around(http: HttpClient, timeout: real, maxRetries: nat, baseUrl: string)
      ensures this.http == http && initTimeout == timeout && initTransport == None
      ensures initMaxRetries == maxRetries && initBaseUrl == baseUrl
      ensures !owns && optionsTimeout == None && optionsMaxRetries == None
    {
      this.http, initTimeout, initTransport, initMaxRetries, initBaseUrl := http, timeout, None, maxRetries, baseUrl;
      owns, optionsTimeout, optionsMaxRetries := false, None, None;
    }

    /** With an HTTP client of its own, over the given transport or a new one. */
    constructor Owning(transport: Option<Wrapped>, timeout: real, maxRetries: nat, baseUrl: string)
      ensures fresh(http) && !http.closed && http.timeout == timeout && http.baseUrl == baseUrl
      ensures http.transport.Retrying? && http.transport.maxRetries == maxRetries
      ensures initTimeout == timeout && initTransport == transport
      ensures initMaxRetries == maxRetries && initBaseUrl == baseUrl
      ensures owns && optionsTimeout == None && optionsMaxRetries == None
      ensures match transport
              case Some(w) => Closes(http.transport) == Closes(w) && SendsOver(http.transport) == SendsOver(w)
              case None => fresh(SendsOver(http.transport)) && Closes(http.transport) == {SendsOver(http.transport)}
                           && !SendsOver(http.transport).closed
    {
      var inner: Wrapped;
      if transport.Some? {
        inner := transport.value;
      } else {
        var built := new Transport();
        inner := Bare(built);
      }
      var client := new HttpClient(baseUrl, timeout, Retrying(inner, maxRetries));
      http, initTimeout, initTransport, initMaxRetries, initBaseUrl := client, timeout, transport, maxRetries, baseUrl;
      owns, optionsTimeout, optionsMaxRetries := true, None, None;
    }

    /** `copy.copy`. */
    constructor CopyOf(other: AdminClient)
      ensures http == other.http && initTimeout == other.initTimeout && initTransport == other.initTransport
      ensures initMaxRetries == other.initMaxRetries && initBaseUrl == other.initBaseUrl
      ensures owns == other.owns && optionsTimeout == other.optionsTimeout
      ensures optionsMaxRetries == other.optionsMaxRetries
    {
      http, initTimeout, initTransport := other.http, other.initTimeout, other.initTransport;
      initMaxRetries, initBaseUrl := other.initMaxRetries, other.initBaseUrl;
      owns, optionsTimeout, optionsMaxRetries := other.owns, other.optionsTimeout, other.optionsMaxRetries;
    }

    method Close()
      modifies if owns then {http} + Closes(http.transport) else {}
      ensures owns ==> http.closed && forall t | t in Closes(http.transport) :: t.closed
    {
      if owns {
        http.Close();
      }
    }

    predicate NeedsOwnHttp(o: Override) {
      o.baseUrl.Some? || (o.timeout.Some? && o.timeout.value < initTimeout)
    }

    method WithOptions(o: Override) returns (clone: AdminClient)
      ensures fresh(clone)
      ensures clone.optionsTimeout == OrElse(o.timeout, optionsTimeout)
      ensures clone.optionsMaxRetries == OrElse(o.maxRetries, optionsMaxRetries)
      ensures clone.initTimeout
           == if o.timeout.Some? && o.timeout.value < initTimeout then o.timeout.value else initTimeout
      ensures clone.initMaxRetries == initMaxRetries
      ensures clone.initBaseUrl == if o.baseUrl.Some? then o.baseUrl.value else initBaseUrl
      ensures NeedsOwnHttp(o) ==>
                && clone.owns && fresh(clone.http) && !clone.http.closed && clone.http.timeout == clone.initTimeout
                && clone.http.baseUrl == clone.initBaseUrl
                && clone.http.transport.Retrying? && clone.http.transport.maxRetries == initMaxRetries
                && fresh(Closes(clone.http.transport)) && (forall t | t in Closes(clone.http.transport) :: !t.closed)
                && (clone.initTransport.Some? <==> initTransport.Some?)
                && (initTransport.Some? ==>
                      && SendsOver(clone.initTransport.value) == SendsOver(initTransport.value)
                      && SendsOver(clone.http.transport) == SendsOver(initTransport.value))
      ensures !NeedsOwnHttp(o) ==> !clone.owns && clone.http == http && clone.initTransport == initTransport
    {
      if NeedsOwnHttp(o) {
        var effective := if o.timeout.Some? && o.timeout.value < initTimeout then o.timeout.value else initTimeout;
        var transport := if initTransport.Some? then Some(NonClosing(initTransport.value)) else None;
        clone := new AdminClient.Owning(
          transport, effective, initMaxRetries, if o.baseUrl.Some? then o.baseUrl.value else initBaseUrl);
      } else {
        clone := new AdminClient.CopyOf(this);
        clone.owns := false;
      }
      clone.optionsTimeout := OrElse(o.timeout, optionsTimeout);
      clone.optionsMaxRetries := OrElse(o.maxRetries, optionsMaxRetries);
    }
  }

  // ---- a whole tree of clones ---------------------------------------------------------------

  datatype Root =
    | ExternalClient(http: HttpClient)      // the caller's HTTP client
    | SuppliedTransport(transport: Transport) // the caller's transport under a client of our own
    | OwnTransport

  datatype Op = Clone(parent: nat, override: Override) | CloseOf(client: nat)

  /** How each client came from the root, and whose `close` was called, after one more operation. */
  function AfterOp(chains: seq<seq<Override>>, closed: set<nat>, op: Op): (seq<seq<Override>>, set<nat>) {
    match op
    case Clone(parent, override) =>
      (if parent < |chains| then chains + [chains[parent] + [override]] else chains, closed)
    case CloseOf(client) => (chains, if client < |chains| then closed + {client} else closed)
  }

  function AfterOps(chains: seq<seq<Override>>, closed: set<nat>, ops: seq<Op>): (seq<seq<Override>>, set<nat>) {
    if ops == [] then (chains, closed)
    else
      var before := AfterOps(chains, closed, ops[..|ops| - 1]);
      AfterOp(before.0, before.1, ops[|ops| - 1])
  }

  /** What a client holds. */
  datatype View = View(
    owns: bool, http: HttpClient, initTimeout: real, initMaxRetries: nat, initBaseUrl: string,
    initTransport: Option<Wrapped>, optionsTimeout: Option<real>, optionsMaxRetries: Option<nat>)

  /** A tree of clients at one moment: what each holds, how it was derived, and what has been closed. */
  datatype Tree = Tree(
    root: Root, rootTimeout: real, rootMaxRetries: nat, rootBaseUrl: string, views: seq<View>,
    chains: seq<seq<Override>>, closeCalls: set<nat>,
    closedHttps: set<HttpClient>, closedTransports: set<Transport>)

  /** No HTTP client, and no transport it would close, has two owners. */
  ghost predicate SingleOwners(t: Tree) {
    && (forall i, j | 0 <= i < j < |t.views| && t.views[i].owns && t.views[j].owns ::
          t.views[i].http != t.views[j].http && Closes(t.views[i].http.transport) !! Closes(t.views[j].http.transport))
    && match t.root
       case ExternalClient(http) => forall i | 0 <= i < |t.views| && t.views[i].owns :: t.views[i].http != http
       case SuppliedTransport(transport) =>
         t.views != [] && t.views[0].owns && transport in Closes(t.views[0].http.transport)
       case OwnTransport => t.views != [] && t.views[0].owns
  }

  /** An HTTP client, or a transport under it, is closed exactly when its owner has been. */
  ghost predicate ClosedByOwners(t: Tree) {
    && (forall k | k in t.closeCalls :: k < |t.views|)
    && forall i | 0 <= i < |t.views| && t.views[i].owns ::
      && (t.views[i].http in t.closedHttps <==> i in t.closeCalls)
      && forall x | x in Closes(t.views[i].http.transport) :: x in t.closedTransports <==> i in t.closeCalls
  }

  ghost predicate SharesWith(v: View, w: View) {
    w.owns && w.http == v.http && w.initTimeout == v.initTimeout && w.initBaseUrl == v.initBaseUrl
  }

  /** A client either owns an HTTP client with its own timeout, or shares one with the same timeout. */
  ghost predicate Shared(t: Tree) {
    forall i | 0 <= i < |t.views| ::
      if t.views[i].owns then
        && t.views[i].http.timeout == t.views[i].initTimeout && t.views[i].http.baseUrl == t.views[i].initBaseUrl
        && t.views[i].http.transport.Retrying? && t.views[i].http.transport.maxRetries == t.views[i].initMaxRetries
      else (t.root.ExternalClient? && t.views[i].http == t.root.http)
           || exists j :: 0 <= j < |t.views| && SharesWith(t.views[i], t.views[j])
  }

  /** Options are the last ones given along the chain, and the transport timeout the least. */
  ghost predicate OptionsFollowChains(t: Tree) {
    && |t.chains| == |t.views|
    && forall i | 0 <= i < |t.views| ::
      && t.views[i].optionsTimeout == LastTimeout(t.chains[i])
      && t.views[i].optionsMaxRetries == LastMaxRetries(t.chains[i])
      && t.views[i].initTimeout == Least(t.rootTimeout, t.chains[i])
      && t.views[i].initMaxRetries == t.rootMaxRetries
      && t.views[i].initBaseUrl == (var given := LastBaseUrl(t.chains[i]);
                                    if given.Some? then given.value else t.rootBaseUrl)
  }

  /** Every client sends over the transport the caller supplied, and no other client knows one. */
  ghost predicate SendsOverSupplied(t: Tree) {
    forall i | 0 <= i < |t.views| ::
      if t.root.SuppliedTransport? then
        && SendsOver(t.views[i].http.transport) == t.root.transport
        && t.views[i].initTransport.Some? && SendsOver(t.views[i].initTransport.value) == t.root.transport
      else t.views[i].initTransport.None?
  }

  ghost predicate Sound(t: Tree) {
    && t.views != [] && SingleOwners(t) && ClosedByOwners(t) && Shared(t) && OptionsFollowChains(t)
    && SendsOverSupplied(t)
  }

  /** The view `with_options` gives a clone, over an HTTP client that is new when it needs its own. */
  ghost predicate ClonedFrom(parent: View, o: Override, clone: View, t: Tree) {
    && clone.optionsTimeout == OrElse(o.timeout, parent.optionsTimeout)
    && clone.optionsMaxRetries == OrElse(o.maxRetries, parent.optionsMaxRetries)
    && clone.initTimeout == (if o.timeout.Some? && o.timeout.value < parent.initTimeout then o.timeout.value
                             else parent.initTimeout)
    && clone.initMaxRetries == parent.initMaxRetries
    && clone.initBaseUrl == (if o.baseUrl.Some? then o.baseUrl.value else parent.initBaseUrl)
    && (clone.initTransport.Some? <==> parent.initTransport.Some?)
    && (parent.initTransport.Some? ==>
          SendsOver(clone.initTransport.value) == SendsOver(parent.initTransport.value))
    && if o.baseUrl.Some? || clone.initTimeout < parent.initTimeout then
         && clone.owns && clone.http.timeout == clone.initTimeout && clone.http.baseUrl == clone.initBaseUrl
         && clone.http.transport.Retrying? && clone.http.transport.maxRetries == clone.initMaxRetries
         && (parent.initTransport.Some? ==>
               SendsOver(clone.http.transport) == SendsOver(parent.initTransport.value))
         && clone.http !in t.closedHttps && Closes(clone.http.transport) !! t.closedTransports
         && (t.root.ExternalClient? ==> clone.http != t.root.http)
         && forall v | v in t.views && v.owns ::
              v.http != clone.http && Closes(v.http.transport) !! Closes(clone.http.transport)
       else !clone.owns && clone.http == parent.http
  }

  /** The tree with one client more. */
  ghost function Grown(t: Tree, parent: nat, o: Override, clone: View): Tree
    requires parent < |t.chains|
  {
    t.(views := t.views + [clone], chains := t.chains + [t.chains[parent] + [o]])
  }

  lemma CloningKeepsSound(t: Tree, parent: nat, o: Override, clone: View)
    requires Sound(t) && parent < |t.views| && ClonedFrom(t.views[parent], o, clone, t)
    ensures Sound(Grown(t, parent, o, clone))
  {
    CloningKeepsOwners(t, parent, o, clone);
    CloningKeepsOptions(t, parent, o, clone);
    CloningKeepsTransport(t, parent, o, clone);
    hide SingleOwners, ClosedByOwners, OptionsFollowChains, SendsOverSupplied;
    SharingSurvives(t, Grown(t, parent, o, clone), parent, clone);
  }

  lemma CloningKeepsOwners(t: Tree, parent: nat, o: Override, clone: View)
    requires Sound(t) && parent < |t.views| && ClonedFrom(t.views[parent], o, clone, t)
    ensures SingleOwners(Grown(t, parent, o, clone)) && ClosedByOwners(Grown(t, parent, o, clone))
  {
    hide Shared, SendsOverSupplied;
  }

  lemma CloningKeepsOptions(t: Tree, parent: nat, o: Override, clone: View)
    requires Sound(t) && parent < |t.views| && ClonedFrom(t.views[parent], o, clone, t)
    ensures OptionsFollowChains(Grown(t, parent, o, clone))
  {
    hide SingleOwners, ClosedByOwners, Shared, SendsOverSupplied;
    var chain := t.chains[parent] + [o];
    assert chain[..|chain| - 1] == t.chains[parent];
  }

  /** However it was cloned, a client sends over the transport its parent was built on. */
  lemma CloningKeepsTransport(t: Tree, parent: nat, o: Override, clone: View)
    requires Sound(t) && parent < |t.views| && ClonedFrom(t.views[parent], o, clone, t)
    ensures SendsOverSupplied(Grown(t, parent, o, clone))
  {
    hide SingleOwners, ClosedByOwners, Shared, OptionsFollowChains;
  }

  lemma SharingSurvives(t: Tree, after: Tree, parent: nat, clone: View)
    requires Shared(t) && parent < |t.views| && after.views == t.views + [clone] && after.root == t.root
    requires if clone.owns then
               && clone.http.timeout == clone.initTimeout && clone.http.baseUrl == clone.initBaseUrl
               && clone.http.transport.Retrying? && clone.http.transport.maxRetries == clone.initMaxRetries
             else
               && clone.http == t.views[parent].http && clone.initTimeout == t.views[parent].initTimeout
               && clone.initBaseUrl == t.views[parent].initBaseUrl
    ensures Shared(after)
  {
    forall i | 0 <= i < |after.views| && !after.views[i].owns
      ensures (after.root.ExternalClient? && after.views[i].http == after.root.http)
              || exists j :: 0 <= j < |after.views| && SharesWith(after.views[i], after.views[j])
    {
      var k := if i < |t.views| then i else parent;
      if t.views[k].owns {
        assert SharesWith(after.views[i], after.views[k]);
      } else if !(t.root.ExternalClient? && t.views[k].http == t.root.http) {
        var j :| 0 <= j < |t.views| && SharesWith(t.views[k], t.views[j]);
        assert SharesWith(after.views[i], after.views[j]);
      }
    }
  }

  lemma ClosingKeepsSound(t: Tree, i: nat)
    requires Sound(t) && i < |t.views|
    ensures Sound(AfterClose(t, i))
  {
    assert SingleOwners(AfterClose(t, i));
    SharingIgnoresClosing(t, i);
  }

  lemma SharingIgnoresClosing(t: Tree, i: nat)
    requires Shared(t) && i < |t.views|
    ensures Shared(AfterClose(t, i))
  {
  }

  /** Closing a client that owns nothing closes nothing. */
  ghost function AfterClose(t: Tree, i: nat): Tree
    requires i < |t.views|
  {
    var v := t.views[i];
    t.(closeCalls := t.closeCalls + {i},
       closedHttps := t.closedHttps + if v.owns then {v.http} else {},
       closedTransports := t.closedTransports + if v.owns then Closes(v.http.transport) else {})
  }

  /** A caller-supplied transport is closed exactly by closing the original. */
  lemma SuppliedTransportClosesWithTheRoot(t: Tree)
    requires Sound(t) && t.root.SuppliedTransport?
    ensures t.root.transport in t.closedTransports <==> 0 in t.closeCalls
  {
  }

  /** Two clients that own one HTTP client, or whose closing closes one transport, are the same. */
  lemma OwnersAreUnique(t: Tree, i: nat, j: nat)
    requires Sound(t) && i < |t.views| && j < |t.views| && t.views[i].owns && t.views[j].owns
    requires t.views[i].http == t.views[j].http
             || Closes(t.views[i].http.transport) * Closes(t.views[j].http.transport) != {}
    ensures i == j
  {
  }

  /** The clients made from one root, oldest first. */
  class Family {
    const root: Root
    const rootTimeout: real
    const rootMaxRetries: nat
    const rootBaseUrl: string
    var clients: seq<AdminClient>
    /** The overrides that led from the root to each client. */
    ghost var chains: seq<seq<Override>>
    /** The clients whose `close` has been called. */
    ghost var closeCalls: set<nat>
    ghost var https: set<HttpClient>
    ghost var transports: set<Transport>

    ghost function ViewOf(c: AdminClient): View
      reads c
    {
      View(c.owns, c.http, c.initTimeout, c.initMaxRetries, c.initBaseUrl, c.initTransport, c.optionsTimeout,
           c.optionsMaxRetries)
    }

    ghost function AsTree(): Tree
      reads this, clients, https, transports
    {
      Tree(root, rootTimeout, rootMaxRetries, rootBaseUrl,
           seq(|clients|, i requires 0 <= i < |clients| reads this, clients => ViewOf(clients[i])),
           chains, closeCalls,
           set h | h in https && h.closed, set t | t in transports && t.closed)
    }

    ghost predicate Valid()
      reads this, clients, https, transports
    {
      && (forall i, j | 0 <= i < j < |clients| :: clients[i] != clients[j])
      && (forall c | c in clients :: c.http in https && Closes(c.http.transport) <= transports)
      && (root.ExternalClient? ==> root.http in https)
      && |chains| == |clients| > 0
      && Sound(AsTree())
    }

    constructor (root: Root, timeout: real, maxRetries: nat, baseUrl: string)
      requires root.SuppliedTransport? ==> !root.transport.closed
      ensures Valid() && |clients| == 1 && closeCalls == {} && this.root == root && rootTimeout == timeout
      ensures rootMaxRetries == maxRetries && rootBaseUrl == baseUrl && chains == [[]]
    {
      var client: AdminClient;
      if root.ExternalClient? {
        client := new AdminClient.Around(root.http, timeout, maxRetries, baseUrl);
      } else {
        var transport := if root.SuppliedTransport? then Some(Bare(root.transport)) else None;
        client := new AdminClient.Owning(transport, timeout, maxRetries, baseUrl);
      }
      this.root, rootTimeout, rootMaxRetries, rootBaseUrl, clients := root, timeout, maxRetries, baseUrl, [client];
      chains, closeCalls := [[]], {};
      https, transports := {client.http}, Closes(client.http.transport);
    }

    method WithOptions(parent: nat, o: Override) returns (clone: AdminClient)
      requires Valid() && parent < |clients|
      modifies this
      ensures Valid() && clients == old(clients) + [clone] && closeCalls == old(closeCalls)
      ensures chains == old(chains) + [old(chains)[parent] + [o]]
      ensures fresh(clone) && old(https) <= https && fresh(https - old(https))
      ensures old(transports) <= transports && fresh(transports - old(transports))
    {
      hide Sound;
      ghost var before := AsTree();
      assert clients[parent] in clients;
      clone := clients[parent].WithOptions(o);
      assert ClonedFrom(before.views[parent], o, ViewOf(clone), before);
      CloningKeepsSound(before, parent, o, ViewOf(clone));
      clients := clients + [clone];
      chains := chains + [chains[parent] + [o]];
      https, transports := https + {clone.http}, transports + Closes(clone.http.transport);
      assert AsTree().closedHttps == before.closedHttps && AsTree().closedTransports == before.closedTransports;
      assert AsTree() == Grown(before, parent, o, ViewOf(clone));
    }

    method CloseClient(i: nat)
      requires Valid() && i < |clients|
      modifies https, transports, this`closeCalls
      ensures Valid() && AsTree() == AfterClose(old(AsTree()), i)
      ensures root.ExternalClient? ==> root.http.closed == old(root.http.closed)
    {
      hide Sound;
      ghost var before := AsTree();
      assert clients[i] in clients;
      ClosingKeepsSound(before, i);
      clients[i].Close();
      closeCalls := closeCalls + {i};
      assert AsTree() == AfterClose(before, i);
      if root.ExternalClient? {
        ExternalClientStaysOut(before, i);
        assert root.http in before.closedHttps <==> old(root.http.closed);
        assert root.http in AsTree().closedHttps <==> root.http.closed;
      }
    }

    /**
     Any sequence of clonings and closings, on any clients of the tree, keeps it sound and the caller's
     own client as it was.
     */
    method Perform(ops: seq<Op>)
      requires Valid()
      modifies this, https, transports
      ensures Valid()
      ensures root.SuppliedTransport? ==> (root.transport.closed <==> 0 in closeCalls)
      ensures root.ExternalClient? ==> root.http.closed == old(root.http.closed)
      ensures root.SuppliedTransport? ==> forall c | c in clients :: SendsOver(c.http.transport) == root.transport
      ensures old(clients) <= clients && (chains, closeCalls) == AfterOps(old(chains), old(closeCalls), ops)
      ensures 0 in closeCalls <==> 0 in old(closeCalls) || CloseOf(0) in ops
    {
      hide Sound;
      for n := 0 to |ops|
        invariant Valid() && |clients| > 0
        invariant root.ExternalClient? ==> root.http.closed == old(root.http.closed)
        invariant old(https) <= https && fresh(https - old(https))
        invariant old(transports) <= transports && fresh(transports - old(transports))
        invariant 0 in closeCalls <==> 0 in old(closeCalls) || CloseOf(0) in ops[..n]
        invariant old(clients) <= clients && (chains, closeCalls) == AfterOps(old(chains), old(closeCalls), ops[..n])
      {
        assert ops[..n + 1] == ops[..n] + [ops[n]] && ops[..n + 1][..n] == ops[..n];
        var op := ops[n];
        if op.Clone? && op.parent < |clients| {
          var clone := WithOptions(op.parent, op.override);
        } else if op.CloseOf? && op.client < |clients| {
          CloseClient(op.client);
        }
      }
      assert ops[..|ops|] == ops;
      if root.SuppliedTransport? {
        SuppliedTransportClosesWithTheRoot(AsTree());
        assert clients[0] in clients;
        RootHoldsSuppliedTransport(AsTree());
        forall c | c in clients ensures SendsOver(c.http.transport) == root.transport {
          var i :| 0 <= i < |clients| && clients[i] == c;
          AllSendOverSupplied(AsTree(), i);
        }
      }
    }
  }

  /** Closing any client leaves the caller's own HTTP client as it was. */
  lemma ExternalClientStaysOut(t: Tree, i: nat)
    requires Sound(t) && t.root.ExternalClient? && i < |t.views|
    ensures t.root.http in AfterClose(t, i).closedHttps <==> t.root.http in t.closedHttps
  {
  }

  lemma AllSendOverSupplied(t: Tree, i: nat)
    requires Sound(t) && t.root.SuppliedTransport? && i < |t.views|
    ensures SendsOver(t.views[i].http.transport) == t.root.transport
  {
  }

  lemma RootHoldsSuppliedTransport(t: Tree)
    requires Sound(t) && t.root.SuppliedTransport?
    ensures t.views != [] && t.root.transport in Closes(t.views[0].http.transport)
  {
  }
}
