/** Reading a whole admin catalog page by page. */
module CatalogWalk {
  import opened Common

  datatype Page<T> = Page(items: seq<T>, page: int, pageSize: int, total: int)

  /** Any server: its answer to request number `i`, which asks for page `p`. */
  type Server<T> = (nat, int) -> Page<T>

  /** `is_last_catalog_page`: a short page, an empty page, or a full total. */
  predicate IsLastPage(itemCount: nat, pageSize: int, total: int, collected: nat) {
    itemCount == 0 || collected >= total || itemCount < pageSize
  }

  // ---- what a walk sees -------------------------------------------------------------------------

  /** The page number asked for by request `i`. */
  function Asked<T>(server: Server<T>, i: nat): int
    decreases i, 0
  {
    if i == 0 then 1 else Answer(server, i - 1).page + 1
  }

  function Answer<T>(server: Server<T>, i: nat): Page<T>
    decreases i, 1
  {
    server(i, Asked(server, i))
  }

  /** Everything the first `i` answers carried. */
  function Gathered<T>(server: Server<T>, i: nat): seq<T> {
    if i == 0 then [] else Gathered(server, i - 1) + Answer(server, i - 1).items
  }

  predicate Stops<T>(server: Server<T>, i: nat) {
    var answer := Answer(server, i);
    IsLastPage(|answer.items|, answer.pageSize, answer.total, |Gathered(server, i + 1)|)
  }

  /** A full page that shows something, with more to come. */
  ghost predicate GoesOn<T>(server: Server<T>, i: nat) {
    var page := Answer(server, i);
    page.items != [] && |page.items| >= page.pageSize && |Gathered(server, i + 1)| < page.total
  }

  // ---- the walk ---------------------------------------------------------------------------------

  /** `admin_catalog_params` takes no page below the first. */
  predicate Refuses<T>(server: Server<T>, i: nat) {
    Asked(server, i) < 1
  }

  /** How a walk ends: with the list, or with a `ValueError` for the next page; or it is still going on. */
  datatype Walk<T> = Listed(items: seq<T>) | PageRefused | StillAsking

  /** `_advance_catalog_page`: what is collected, and the next page unless the walk is done. */
  function AdvanceCatalogPage<T>(collected: seq<T>, page: Page<T>): (seq<T>, Option<int>) {
    var extended := collected + page.items;
    (extended, if IsLastPage(|page.items|, page.pageSize, page.total, |extended|) then None else Some(page.page + 1))
  }

  /**
   `list_services` and `list_layers`, watched for `patience` requests, since the walk may well not end. It
   ends with the first answer that ends it, or that names a next page below the first; else it asks on.
   */
  method ListAll<T>(server: Server<T>, patience: nat) returns (walk: Walk<T>, requests: nat)
    ensures requests <= patience && forall i | 0 <= i < requests :: !Refuses(server, i)
    ensures forall i | 0 <= i < (if walk.Listed? then requests - 1 else requests) :: !Stops(server, i)
    ensures walk.Listed? ==> requests > 0 && Stops(server, requests - 1) && walk.items == Gathered(server, requests)
    ensures walk.PageRefused? ==> requests > 0 && Refuses(server, requests)
    ensures walk.StillAsking? ==> requests == patience
    ensures walk.Listed? ==>
              var last := Answer(server, requests - 1);
              last.items == [] || |walk.items| >= last.total || |last.items| < last.pageSize
    ensures forall i | 0 <= i < (if walk.Listed? then requests - 1 else requests) :: GoesOn(server, i)
  {
    var items := [];
    requests := 0;
    var pageNumber := 1;
    while requests < patience
      invariant requests <= patience && pageNumber == Asked(server, requests)
      invariant forall i | 0 <= i < requests :: !Stops(server, i) && !Refuses(server, i)
      invariant items == Gathered(server, requests)
      invariant forall i | 0 <= i < requests :: GoesOn(server, i)
    {
      if pageNumber < 1 {
        return PageRefused, requests;
      }
      var page := server(requests, pageNumber);
      var (extended, next) := AdvanceCatalogPage(items, page);
      items, requests := extended, requests + 1;
      if next.None? {
        return Listed(items), requests;
      }
      pageNumber := next.value;
    }
    walk := StillAsking;
  }

  // ---- any server -------------------------------------------------------------------------------

  lemma {:induction false} EveryPageAddsAnItem<T>(server: Server<T>, i: nat)
    requires forall j | 0 <= j < i :: !Stops(server, j)
    ensures |Gathered(server, i)| >= i
  {
    if i > 0 {
      EveryPageAddsAnItem(server, i - 1);
      assert !Stops(server, i - 1);
    }
  }

  /**
   A server whose totals never exceed `bound` ends the walk within `max(1, bound)` requests, whatever
   else it answers.
   */
  lemma BoundedTotalsStop<T>(server: Server<T>, bound: nat) returns (last: nat)
    requires forall i: nat :: Answer(server, i).total <= bound
    ensures Stops(server, last) && last < (if bound < 1 then 1 else bound)
  {
    last := if bound < 1 then 0 else bound - 1;
    if forall j | 0 <= j < last + 1 :: !Stops(server, j) {
      EveryPageAddsAnItem(server, last + 1);
      assert Stops(server, last);
    } else {
      last :| 0 <= last && last < (if bound < 1 then 1 else bound) && Stops(server, last);
    }
  }

  /** A server that always shows one item more and claims that another is left. */
  function Endless<T>(item: T): Server<T> {
    (i, p) => Page([item], p, 1, i + 2)
  }

  /** Such a server is asked for page after page, for ever. */
  lemma {:induction false} EndlessIsAskedOn<T>(item: T, i: nat)
    ensures Asked(Endless(item), i) == i + 1 && |Gathered(Endless(item), i)| == i
    ensures !Stops(Endless(item), i) && !Refuses(Endless(item), i)
  {
    if i > 0 {
      EndlessIsAskedOn(item, i - 1);
    }
  }

  /** A server whose second page claims to come before the first: the walk asks for page 0, which raises. */
  lemma BackwardsIsRefused<T>(item: T)
    ensures var server: Server<T> := (i, p) => Page([item], p - 2, 1, i + 2); !Stops(server, 0) && Refuses(server, 1)
  {
    var server: Server<T> := (i, p) => Page([item], p - 2, 1, i + 2);
    assert Answer(server, 0) == Page([item], -1, 1, 2);
    assert Gathered(server, 0) == [];
  }

  // ---- the server that echoes -------------------------------------------------------------------

  /** How many items `pages` full pages hold. */
  function Held(pages: int, size: nat): int {
    pages * size
  }

  lemma HeldGrows(pages: nat, size: nat)
    ensures Held(pages + 1, size) == Held(pages, size) + size
    ensures Held(0, size) == 0
  {
    assert (pages + 1) * size == pages * size + size;
  }

  lemma HeldIsNatural(pages: nat, size: nat)
    ensures Held(pages, size) >= 0
  {
  }

  function Min(a: int, b: int): int {
    if a < b then a else b
  }

  /** Page `p` of `items`, `size` to a page. */
  function Slice<T>(items: seq<T>, size: nat, p: int): seq<T>
    requires size > 0
  {
    assert p >= 1 ==> 0 <= Held(p - 1, size) <= Held(p, size) by {
      if p >= 1 {
        HeldGrows(p - 1, size);
        HeldIsNatural(p - 1, size);
      }
    }
    if p < 1 then [] else items[Min(Held(p - 1, size), |items|)..Min(Held(p, size), |items|)]
  }

  function Echo<T>(items: seq<T>, size: nat): Server<T>
    requires size > 0
  {
    (i, p) => Page(Slice(items, size, p), p, size, |items|)
  }

  lemma {:induction false} EchoGathers<T>(items: seq<T>, size: nat, i: nat)
    requires size > 0
    ensures Asked(Echo(items, size), i) == i + 1
    ensures Held(i, size) >= 0
    ensures Gathered(Echo(items, size), i) == items[..Min(Held(i, size), |items|)]
  {
    hide Held;
    HeldIsNatural(i, size);
    if i > 0 {
      EchoGathers(items, size, i - 1);
      HeldIsNatural(i - 1, size);
      HeldGrows(i - 1, size);
    } else {
      HeldGrows(0, size);
    }
  }

  lemma EchoStopsIff<T>(items: seq<T>, size: nat, i: nat)
    requires size > 0
    ensures Stops(Echo(items, size), i) <==> Held(i + 1, size) >= |items|
  {
    hide Held, Gathered, Asked;
    EchoGathers(items, size, i);
    EchoGathers(items, size, i + 1);
    HeldGrows(i, size);
  }

  /** `max(1, ceil(n / size))`. */
  function PagesOf(n: nat, size: nat): nat
    requires size > 0
  {
    if n == 0 then 1 else (n + size - 1) / size
  }

  lemma PagesCover(n: nat, size: nat)
    requires size > 0
    ensures PagesOf(n, size) >= 1
    ensures Held(PagesOf(n, size), size) >= n
    ensures n > 0 ==> Held(PagesOf(n, size) - 1, size) < n
  {
    if n > 0 {
      var r := (n + size - 1) / size;
      assert n + size - 1 == r * size + (n + size - 1) % size;
      assert (r - 1) * size == r * size - size;
    }
  }

  lemma {:induction false} HeldIsMonotone(r: nat, p: nat, size: nat)
    requires r <= p
    ensures Held(r, size) <= Held(p, size)
    decreases p
  {
    hide Held;
    if r < p {
      HeldIsMonotone(r, p - 1, size);
      HeldGrows(p - 1, size);
    }
  }

  /** A server that echoes page, size and total ends the walk with its last page. */
  lemma EchoStops<T>(items: seq<T>, size: nat)
    requires size > 0
    ensures Stops(Echo(items, size), PagesOf(|items|, size) - 1)
  {
    PagesCover(|items|, size);
    EchoStopsIff(items, size, PagesOf(|items|, size) - 1);
  }

  /** The walk over such a server collects exactly its items, in order, in as many requests as there are pages. */
  lemma EchoWalkIsComplete<T>(items: seq<T>, size: nat, requests: nat)
    requires size > 0 && requests >= 1
    requires Stops(Echo(items, size), requests - 1) && forall i | 0 <= i < requests - 1 :: !Stops(Echo(items, size), i)
    ensures Gathered(Echo(items, size), requests) == items && requests == PagesOf(|items|, size)
  {
    hide Held, PagesOf, Stops, Gathered;
    var n := PagesOf(|items|, size);
    PagesCover(|items|, size);
    EchoStops(items, size);
    EchoStopsIff(items, size, requests - 1);
    if requests < n {
      HeldIsMonotone(requests, n - 1, size);
      assert |items| > 0 by {
        assert n > 1;
        OnePageForNothing(size);
      }
    }
    EchoGathers(items, size, requests);
  }

  lemma OnePageForNothing(size: nat)
    requires size > 0
    ensures PagesOf(0, size) == 1
  {
  }
}
