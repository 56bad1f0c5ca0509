/** The table of contents: each page under the first section that wants it, the rest under "Other". */
module Contents {
  import Sorting

  datatype Page = Page(rel: string, title: string, kind: string)

  datatype Line = Title | Blank | Heading(section: string) | Entry(page: Page)

  const SECTIONS := ["Start here", "Quickstart", "Examples", "Guides", "Concepts", "Reference"]

  predicate StartsWith(s: string, prefix: string) {
    |prefix| <= |s| && s[..|prefix|] == prefix
  }

  predicate Contains(s: string, part: string) {
    StartsWith(s, part) || (s != "" && Contains(s[1..], part))
  }

  function Slashes(s: string): nat {
    if s == "" then 0 else (if s[0] == '/' then 1 else 0) + Slashes(s[1..])
  }

  /** Whether section `k` wants the page. */
  predicate Matches(k: nat, page: Page) {
    match k
    case 0 => page.rel == "index.md" || page.rel == "README.md" || (page.kind == "index" && Slashes(page.rel) <= 1)
    case 1 => Contains(page.rel, "quickstart")
    case 2 => StartsWith(page.rel, "examples/")
    case 3 => page.kind == "guide"
    case 4 => page.kind == "concept"
    case 5 => page.kind == "reference"
    case _ => false
  }

  function Lead(rel: string): nat {
    if rel == "index.md" || rel == "quickstart.md" then 0
    else if rel == "README.md" then 1
    else if rel == "features/README.md" then 2
    else 3
  }

  predicate StringLeq(s: string, t: string) {
    s == "" || (t != "" && (s[0] < t[0] || (s[0] == t[0] && StringLeq(s[1..], t[1..]))))
  }

  predicate PageLeq(p: Page, q: Page) {
    Lead(p.rel) < Lead(q.rel) || (Lead(p.rel) == Lead(q.rel) && StringLeq(p.rel, q.rel))
  }

  // ---- what the sections want, and in what order --------------------------------------------------

  /** `part` stands in `s`, from some position on. */
  ghost predicate StandsIn(s: string, part: string) {
    exists i :: 0 <= i <= |s| && part <= s[i..]
  }

  lemma {:induction false} ContainsIff(s: string, part: string)
    ensures Contains(s, part) <==> StandsIn(s, part)
  {
    assert s[0..] == s;
    if s != "" {
      var rest := s[1..];
      ContainsIff(rest, part);
      assert forall i | 0 <= i <= |rest| :: rest[i..] == s[i + 1..];
      if i :| 0 < i <= |s| && part <= s[i..] {
        assert rest[i - 1..] == s[i..];
      }
    }
  }

  /** No two slashes. */
  predicate Shallow(rel: string) {
    forall i, j | 0 <= i < j < |rel| :: rel[i] != '/' || rel[j] != '/'
  }

  lemma {:induction false} NoSlash(rel: string)
    ensures Slashes(rel) == 0 <==> '/' !in rel
  {
    if rel != "" {
      NoSlash(rel[1..]);
    }
  }

  lemma {:induction false} ShallowIff(rel: string)
    ensures Slashes(rel) <= 1 <==> Shallow(rel)
  {
    if rel != "" {
      ShallowIff(rel[1..]);
      NoSlash(rel[1..]);
      assert forall i | 0 < i < |rel| :: rel[i] == rel[1..][i - 1];
    }
  }

  /** What each section wants. */
  lemma SectionsWant(page: Page)
    ensures Matches(0, page) <==>
              page.rel in {"index.md", "README.md"} || (page.kind == "index" && Shallow(page.rel))
    ensures Matches(1, page) <==> StandsIn(page.rel, "quickstart")
    ensures Matches(2, page) <==> "examples/" <= page.rel
    ensures Matches(3, page) <==> page.kind == "guide"
    ensures Matches(4, page) <==> page.kind == "concept"
    ensures Matches(5, page) <==> page.kind == "reference"
  {
    ShallowIff(page.rel);
    ContainsIff(page.rel, "quickstart");
  }

  /** Up to some position the two agree; there `s` ends, or goes on with a lower character than `t`. */
  ghost predicate Precedes(s: string, t: string) {
    exists n :: 0 <= n <= |s| && n <= |t| && s[..n] == t[..n] && (n == |s| || (n < |t| && s[n] < t[n]))
  }

  lemma {:induction false} StringLeqIff(s: string, t: string)
    ensures StringLeq(s, t) <==> Precedes(s, t)
  {
    if s == "" {
      assert s[..0] == t[..0];
    } else if t != "" {
      StringLeqIff(s[1..], t[1..]);
      PrecedesByHead(s, t);
    }
  }

  lemma PrecedesByHead(s: string, t: string)
    requires s != "" && t != ""
    ensures Precedes(s, t) <==> s[0] < t[0] || (s[0] == t[0] && Precedes(s[1..], t[1..]))
  {
    if s[0] < t[0] {
      assert s[..0] == t[..0];
    }
    if Precedes(s, t) {
      var n :| 0 <= n <= |s| && n <= |t| && s[..n] == t[..n] && (n == |s| || (n < |t| && s[n] < t[n]));
      if n > 0 {
        SameHead(s, t, n);
      }
    }
    if s[0] == t[0] && Precedes(s[1..], t[1..]) {
      var n :| 0 <= n < |s| && n < |t| && s[1..][..n] == t[1..][..n]
        && (n + 1 == |s| || (n + 1 < |t| && s[1..][n] < t[1..][n]));
      assert s[..n + 1] == [s[0]] + s[1..][..n] && t[..n + 1] == [t[0]] + t[1..][..n];
    }
  }

  lemma SameHead(s: string, t: string, n: nat)
    requires 0 < n <= |s| && n <= |t| && s[..n] == t[..n]
    ensures s[0] == t[0] && s[1..][..n - 1] == t[1..][..n - 1]
  {
    assert s[0] == s[..n][0] && t[..n][0] == t[0];
    assert s[1..][..n - 1] == s[..n][1..] && t[1..][..n - 1] == t[..n][1..];
  }

  /** A section opens with its index pages, then the two README pages; the others follow by path. */
  lemma SectionOrder(p: Page, q: Page)
    ensures p.rel in {"index.md", "quickstart.md"} && q.rel !in {"index.md", "quickstart.md"} ==>
              PageLeq(p, q) && !PageLeq(q, p)
    ensures p.rel == "README.md" && q.rel !in {"index.md", "quickstart.md", "README.md"} ==>
              PageLeq(p, q) && !PageLeq(q, p)
    ensures p.rel == "features/README.md"
              && q.rel !in {"index.md", "quickstart.md", "README.md", "features/README.md"} ==>
              PageLeq(p, q) && !PageLeq(q, p)
    ensures (p.rel in {"index.md", "quickstart.md"} <==> q.rel in {"index.md", "quickstart.md"})
              && (p.rel == "README.md" <==> q.rel == "README.md")
              && (p.rel == "features/README.md" <==> q.rel == "features/README.md") ==>
              (PageLeq(p, q) <==> Precedes(p.rel, q.rel))
  {
    hide StringLeq, Precedes;
    StringLeqIff(p.rel, q.rel);
  }

  // ---- what the table should be -------------------------------------------------------------------

  function Filter<T>(keep: T -> bool, xs: seq<T>): seq<T> {
    if xs == [] then [] else (if keep(xs[0]) then [xs[0]] else []) + Filter(keep, xs[1..])
  }

  /** Some page of this path is wanted by a section before `k`. */
  predicate TakenBefore(pages: seq<Page>, k: nat, rel: string) {
    exists i, j | 0 <= i < |pages| && 0 <= j < k :: pages[i].rel == rel && Matches(j, pages[i])
  }

  predicate Belongs(pages: seq<Page>, k: nat, page: Page) {
    Matches(k, page) && !TakenBefore(pages, k, page.rel)
  }

  function SectionEntries(pages: seq<Page>, k: nat): seq<Page> {
    Sorting.Sorted(PageLeq, Filter(p => Belongs(pages, k, p), pages))
  }

  function Leftover(pages: seq<Page>): seq<Page> {
    Filter((p: Page) => !TakenBefore(pages, |SECTIONS|, p.rel), pages)
  }

  function Lines(entries: seq<Page>): seq<Line> {
    seq(|entries|, i requires 0 <= i < |entries| => Entry(entries[i]))
  }

  function Block(heading: string, entries: seq<Page>): seq<Line> {
    if entries == [] then [] else [Heading(heading), Blank] + Lines(entries) + [Blank]
  }

  function Blocks(pages: seq<Page>, k: nat): seq<Line>
    requires k <= |SECTIONS|
  {
    if k == 0 then [] else Blocks(pages, k - 1) + Block(SECTIONS[k - 1], SectionEntries(pages, k - 1))
  }

  function Table(pages: seq<Page>): seq<Line> {
    [Title, Blank] + Blocks(pages, |SECTIONS|) + Block("Other", Leftover(pages))
  }

  // ---- render -------------------------------------------------------------------------------------

  lemma {:induction false} FilterAgrees<T(!new)>(keep: T -> bool, other: T -> bool, xs: seq<T>)
    requires forall x | x in xs :: keep(x) == other(x)
    ensures Filter(keep, xs) == Filter(other, xs)
  {
    if xs != [] {
      FilterAgrees(keep, other, xs[1..]);
    }
  }

  lemma {:induction false} FilterMembers<T(!new)>(keep: T -> bool, xs: seq<T>)
    ensures forall x :: x in Filter(keep, xs) <==> x in xs && keep(x)
  {
    if xs != [] {
      FilterMembers(keep, xs[1..]);
      assert xs == [xs[0]] + xs[1..];
    }
  }

  method AppendBlock(lines: seq<Line>, heading: string, entries: seq<Page>) returns (longer: seq<Line>)
    ensures longer == lines + ([Heading(heading), Blank] + Lines(entries) + [Blank])
  {
    longer := lines + [Heading(heading), Blank];
    for n := 0 to |entries|
      invariant longer == lines + [Heading(heading), Blank] + Lines(entries[..n])
    {
      longer := longer + [Entry(entries[n])];
    }
    longer := longer + [Blank];
    assert entries[..|entries|] == entries;
  }

  /** What placing one section's entries does to the set of placed paths. */
  lemma PlacedGrows(pages: seq<Page>, k: nat, placed: set<string>, entries: seq<Page>)
    requires forall p | p in pages :: p.rel in placed <==> TakenBefore(pages, k, p.rel)
    requires forall p :: p in entries <==> p in pages && p.rel !in placed && Matches(k, p)
    ensures forall p | p in pages :: p.rel in placed + (set e | e in entries :: e.rel)
              <==> TakenBefore(pages, k + 1, p.rel)
  {
    hide Matches;
    forall p | p in pages
      ensures p.rel in placed + (set e | e in entries :: e.rel) <==> TakenBefore(pages, k + 1, p.rel)
    {
      if TakenBefore(pages, k + 1, p.rel) && !TakenBefore(pages, k, p.rel) {
        var i, j :| 0 <= i < |pages| && 0 <= j < k + 1 && pages[i].rel == p.rel && Matches(j, pages[i]);
        assert j == k && pages[i] in entries;
      }
      if e :| e in entries && e.rel == p.rel {
        var i :| 0 <= i < |pages| && pages[i] == e;
        assert Matches(k, pages[i]);
      }
    }
  }

  lemma SortedSame(xs: seq<Page>)
    ensures forall p :: p in Sorting.Sorted(PageLeq, xs) <==> p in xs
    ensures Sorting.Sorted(PageLeq, xs) == [] <==> xs == []
  {
    hide PageLeq;
    PageLeqIsKeyOrder();
    Sorting.SortedSorts(PageLeq, xs);
    var sorted := Sorting.Sorted(PageLeq, xs);
    assert forall p :: p in sorted <==> p in multiset(sorted);
    assert |multiset(sorted)| == |sorted| && |multiset(xs)| == |xs|;
  }

  /** One turn of the loop over the sections. */
  method RenderSection(pages: seq<Page>, k: nat, lines: seq<Line>, placed: set<string>)
    returns (longer: seq<Line>, grown: set<string>)
    requires k < |SECTIONS| && forall p | p in pages :: p.rel in placed <==> TakenBefore(pages, k, p.rel)
    ensures longer == lines + Block(SECTIONS[k], SectionEntries(pages, k))
    ensures forall p | p in pages :: p.rel in grown <==> TakenBefore(pages, k + 1, p.rel)
  {
    hide Matches, PageLeq, TakenBefore, Lines, SECTIONS;
    var entries := Filter((p: Page) => p.rel !in placed && Matches(k, p), pages);
    FilterMembers((p: Page) => p.rel !in placed && Matches(k, p), pages);
    FilterAgrees((p: Page) => p.rel !in placed && Matches(k, p), p => Belongs(pages, k, p), pages);
    PlacedGrows(pages, k, placed, entries);
    SortedSame(entries);
    if entries == [] {
      assert (set e | e in entries :: e.rel) == {};
      assert placed == placed + set e | e in entries :: e.rel;
      return lines, placed;
    }
    grown := placed + set e | e in entries :: e.rel;
    entries := Sorting.Sorted(PageLeq, entries);
    longer := AppendBlock(lines, SECTIONS[k], entries);
  }

  method Render(pages: seq<Page>) returns (lines: seq<Line>)
    ensures lines == Table(pages)
  {
    hide Matches, PageLeq, TakenBefore, Lines, SectionEntries, Block;
    lines := [Title, Blank];
    var placed: set<string> := {};
    NothingTakenYet(pages);
    for k := 0 to |SECTIONS|
      invariant lines == [Title, Blank] + Blocks(pages, k)
      invariant forall p | p in pages :: p.rel in placed <==> TakenBefore(pages, k, p.rel)
    {
      lines, placed := RenderSection(pages, k, lines, placed);
    }
    var leftover := Filter((p: Page) => p.rel !in placed, pages);
    FilterAgrees((p: Page) => p.rel !in placed, (p: Page) => !TakenBefore(pages, |SECTIONS|, p.rel), pages);
    lines := RenderLeftover(lines, leftover);
  }

  method RenderLeftover(lines: seq<Line>, leftover: seq<Page>) returns (longer: seq<Line>)
    ensures longer == lines + Block("Other", leftover)
  {
    longer := lines;
    if leftover != [] {
      longer := AppendBlock(lines, "Other", leftover);
    }
  }

  lemma NothingTakenYet(pages: seq<Page>)
    ensures forall rel :: !TakenBefore(pages, 0, rel)
  {
  }

  // ---- the order of a section -----------------------------------------------------------------------

  lemma {:induction false} StringLeqIsTotal(s: string, t: string)
    ensures StringLeq(s, t) || StringLeq(t, s)
    ensures StringLeq(s, t) && StringLeq(t, s) ==> s == t
  {
    if s != "" && t != "" && s[0] == t[0] {
      StringLeqIsTotal(s[1..], t[1..]);
      assert s == [s[0]] + s[1..] && t == [t[0]] + t[1..];
    }
  }

  lemma {:induction false} StringLeqIsTransitive(s: string, t: string, u: string)
    requires StringLeq(s, t) && StringLeq(t, u)
    ensures StringLeq(s, u)
  {
    if s != "" && s[0] == t[0] == u[0] {
      StringLeqIsTransitive(s[1..], t[1..], u[1..]);
    }
  }

  lemma PageLeqIsKeyOrder()
    ensures Sorting.KeyOrder(PageLeq)
  {
    hide Lead, StringLeq;
    forall p: Page, q: Page ensures PageLeq(p, q) || PageLeq(q, p) {
      StringLeqIsTotal(p.rel, q.rel);
    }
    forall p: Page, q: Page, r: Page | PageLeq(p, q) && PageLeq(q, r) ensures PageLeq(p, r) {
      if StringLeq(p.rel, q.rel) && StringLeq(q.rel, r.rel) {
        StringLeqIsTransitive(p.rel, q.rel, r.rel);
      }
    }
  }

  // ---- every page once ------------------------------------------------------------------------------

  /** The pages a table lists, top to bottom. */
  function EntriesOf(lines: seq<Line>): seq<Page> {
    if lines == [] then []
    else EntriesOf(lines[..|lines| - 1]) + (if lines[|lines| - 1].Entry? then [lines[|lines| - 1].page] else [])
  }

  function ListedUpTo(pages: seq<Page>, k: nat): seq<Page> {
    if k == 0 then [] else ListedUpTo(pages, k - 1) + SectionEntries(pages, k - 1)
  }

  lemma {:induction false} EntriesOfConcat(a: seq<Line>, b: seq<Line>)
    ensures EntriesOf(a + b) == EntriesOf(a) + EntriesOf(b)
  {
    if b == [] {
      assert a + b == a;
    } else {
      EntriesOfConcat(a, b[..|b| - 1]);
      assert (a + b)[..|a + b| - 1] == a + b[..|b| - 1];
    }
  }

  lemma {:induction false} EntriesOfLines(entries: seq<Page>)
    ensures EntriesOf(Lines(entries)) == entries
  {
    if entries != [] {
      var front := entries[..|entries| - 1];
      EntriesOfLines(front);
      assert Lines(entries)[..|entries| - 1] == Lines(front);
    }
  }

  lemma EntriesOfBlock(heading: string, entries: seq<Page>)
    ensures EntriesOf(Block(heading, entries)) == entries
  {
    hide Lines;
    if entries != [] {
      EntriesOfLines(entries);
      EntriesOfConcat([Heading(heading), Blank] + Lines(entries), [Blank]);
      EntriesOfConcat([Heading(heading), Blank], Lines(entries));
      assert [Heading(heading), Blank][..1] == [Heading(heading)];
      assert EntriesOf([Heading(heading), Blank]) == [] && EntriesOf([Blank]) == [];
    }
  }

  lemma {:induction false} EntriesOfBlocks(pages: seq<Page>, k: nat)
    requires k <= |SECTIONS|
    ensures EntriesOf(Blocks(pages, k)) == ListedUpTo(pages, k)
  {
    hide Block, SectionEntries;
    if k > 0 {
      EntriesOfBlocks(pages, k - 1);
      EntriesOfConcat(Blocks(pages, k - 1), Block(SECTIONS[k - 1], SectionEntries(pages, k - 1)));
      EntriesOfBlock(SECTIONS[k - 1], SectionEntries(pages, k - 1));
    }
  }

  lemma EntriesOfTable(pages: seq<Page>)
    ensures EntriesOf(Table(pages)) == ListedUpTo(pages, 6) + Leftover(pages)
  {
    hide Block, Blocks, Leftover, ListedUpTo;
    EntriesOfConcat([Title, Blank] + Blocks(pages, 6), Block("Other", Leftover(pages)));
    EntriesOfConcat([Title, Blank], Blocks(pages, 6));
    EntriesOfBlocks(pages, 6);
    EntriesOfBlock("Other", Leftover(pages));
    assert [Title, Blank][..1] == [Title];
    assert EntriesOf([Title, Blank]) == [];
  }

  lemma {:induction false} FilterCount<T>(keep: T -> bool, xs: seq<T>, x: T)
    ensures multiset(Filter(keep, xs))[x] == if keep(x) then multiset(xs)[x] else 0
  {
    if xs != [] {
      FilterCount(keep, xs[1..], x);
      assert xs == [xs[0]] + xs[1..];
    }
  }

  lemma SectionCount(pages: seq<Page>, k: nat, p: Page)
    ensures multiset(SectionEntries(pages, k))[p] == if Belongs(pages, k, p) then multiset(pages)[p] else 0
  {
    hide Belongs, PageLeq;
    PageLeqIsKeyOrder();
    Sorting.SortedSorts(PageLeq, Filter(q => Belongs(pages, k, q), pages));
    FilterCount(q => Belongs(pages, k, q), pages, p);
  }

  predicate PlacedBefore(pages: seq<Page>, k: nat, p: Page) {
    exists j | 0 <= j < k :: Belongs(pages, j, p)
  }

  lemma {:induction false} CountUpTo(pages: seq<Page>, k: nat, p: Page)
    requires p in pages
    ensures multiset(ListedUpTo(pages, k))[p] == if PlacedBefore(pages, k, p) then multiset(pages)[p] else 0
  {
    hide Matches, SectionEntries, TakenBefore;
    if k > 0 {
      CountUpTo(pages, k - 1, p);
      SectionCount(pages, k - 1, p);
      assert PlacedBefore(pages, k, p) <==> PlacedBefore(pages, k - 1, p) || Belongs(pages, k - 1, p);
      if PlacedBefore(pages, k - 1, p) {
        var j :| 0 <= j < k - 1 && Belongs(pages, j, p);
        MatchTakes(pages, p, j, k - 1);
      }
    }
  }

  lemma MatchTakes(pages: seq<Page>, p: Page, j: nat, k: nat)
    requires p in pages && Matches(j, p) && j < k
    ensures TakenBefore(pages, k, p.rel)
  {
    hide Matches;
    var i :| 0 <= i < |pages| && pages[i] == p;
    assert pages[i].rel == p.rel && Matches(j, pages[i]);
  }

  /** Listed by its own section, or wanted by no section under any of its kinds. */
  predicate Kept(pages: seq<Page>, p: Page) {
    PlacedBefore(pages, 6, p) || !TakenBefore(pages, 6, p.rel)
  }

  lemma TableCount(pages: seq<Page>, p: Page)
    requires p in pages
    ensures multiset(EntriesOf(Table(pages)))[p] == if Kept(pages, p) then multiset(pages)[p] else 0
  {
    hide Matches, TakenBefore, ListedUpTo, Table;
    EntriesOfTable(pages);
    CountUpTo(pages, 6, p);
    FilterCount((q: Page) => !TakenBefore(pages, |SECTIONS|, q.rel), pages, p);
    if PlacedBefore(pages, 6, p) {
      var j :| 0 <= j < 6 && Belongs(pages, j, p);
      MatchTakes(pages, p, j, 6);
    }
  }

  lemma {:induction false} OnlyPagesListed(pages: seq<Page>, k: nat, p: Page)
    requires p !in pages
    ensures multiset(ListedUpTo(pages, k))[p] == 0
  {
    hide Belongs, SectionEntries;
    if k > 0 {
      OnlyPagesListed(pages, k - 1, p);
      SectionCount(pages, k - 1, p);
    }
  }

  /** `k` is the first section that wants the page. */
  predicate WantedFirst(k: nat, page: Page) {
    Matches(k, page) && forall j | 0 <= j < k :: !Matches(j, page)
  }

  /** Pages that share a path are wanted by the same section first. */
  predicate SamePathsAgree(pages: seq<Page>) {
    forall i, j, k | 0 <= i < |pages| && 0 <= j < |pages| && 0 <= k < 6 && pages[i].rel == pages[j].rel ::
      WantedFirst(k, pages[i]) ==> WantedFirst(k, pages[j])
  }

  lemma {:induction false} FirstTaken(pages: seq<Page>, k: nat, rel: string) returns (first: nat, i: nat)
    requires TakenBefore(pages, k, rel)
    ensures first < k && i < |pages| && pages[i].rel == rel && WantedFirst(first, pages[i])
    ensures !TakenBefore(pages, first, rel)
  {
    hide Matches;
    if TakenBefore(pages, k - 1, rel) {
      first, i := FirstTaken(pages, k - 1, rel);
    } else {
      var at, j :| 0 <= at < |pages| && 0 <= j < k && pages[at].rel == rel && Matches(j, pages[at]);
      first, i := k - 1, at;
    }
  }

  lemma AgreeingPagesAreKept(pages: seq<Page>, p: Page)
    requires SamePathsAgree(pages) && p in pages
    ensures Kept(pages, p)
  {
    hide Matches, TakenBefore;
    if TakenBefore(pages, 6, p.rel) {
      var first, i := FirstTaken(pages, 6, p.rel);
      var at :| 0 <= at < |pages| && pages[at] == p;
      assert WantedFirst(first, pages[at]);
      assert Belongs(pages, first, p);
    }
  }

  lemma KeptPagesAgree(pages: seq<Page>)
    requires forall p | p in pages :: Kept(pages, p)
    ensures SamePathsAgree(pages)
  {
    hide Matches, TakenBefore;
    forall i, j, k | 0 <= i < |pages| && 0 <= j < |pages| && 0 <= k < 6 && pages[i].rel == pages[j].rel
        && WantedFirst(k, pages[i])
      ensures WantedFirst(k, pages[j])
    {
      var p, q := pages[i], pages[j];
      MatchTakes(pages, p, k, 6);
      assert Kept(pages, p) && Kept(pages, q);
      var m :| 0 <= m < 6 && Belongs(pages, m, p);
      var n :| 0 <= n < 6 && Belongs(pages, n, q);
      SameHome(pages, p, m, q, n);
      assert m == n && m >= k;
      if k < m {
        MatchTakes(pages, p, k, m);
      }
      forall l | 0 <= l < k ensures !Matches(l, q) {
        if Matches(l, q) {
          MatchTakes(pages, q, l, k);
        }
      }
    }
  }

  lemma SameHome(pages: seq<Page>, p: Page, m: nat, q: Page, n: nat)
    requires p in pages && q in pages && p.rel == q.rel && Belongs(pages, m, p) && Belongs(pages, n, q)
    ensures m == n
  {
    hide Matches, TakenBefore;
    if m < n {
      MatchTakes(pages, p, m, n);
    } else if n < m {
      MatchTakes(pages, q, n, m);
    }
  }

  /** The table lists every page exactly once precisely when pages that share a path agree on their section. */
  lemma EachPageOnceIff(pages: seq<Page>)
    ensures multiset(EntriesOf(Table(pages))) == multiset(pages) <==> SamePathsAgree(pages)
  {
    hide Table, Kept, SamePathsAgree;
    var listed := EntriesOf(Table(pages));
    forall p ensures p in pages ==> multiset(listed)[p] == if Kept(pages, p) then multiset(pages)[p] else 0 {
      if p in pages {
        TableCount(pages, p);
      }
    }
    if SamePathsAgree(pages) {
      forall p ensures multiset(listed)[p] == multiset(pages)[p] {
        if p in pages {
          AgreeingPagesAreKept(pages, p);
        } else {
          NothingElseListed(pages, p);
        }
      }
    }
    if multiset(listed) == multiset(pages) {
      forall p | p in pages ensures Kept(pages, p) {
        assert multiset(pages)[p] > 0;
      }
      KeptPagesAgree(pages);
    }
  }

  lemma NothingElseListed(pages: seq<Page>, p: Page)
    requires p !in pages
    ensures multiset(EntriesOf(Table(pages)))[p] == 0
  {
    hide Table, ListedUpTo, TakenBefore;
    EntriesOfTable(pages);
    OnlyPagesListed(pages, 6, p);
    FilterCount((q: Page) => !TakenBefore(pages, |SECTIONS|, q.rel), pages, p);
  }

  predicate DistinctPaths(pages: seq<Page>) {
    forall i, j | 0 <= i < j < |pages| :: pages[i].rel != pages[j].rel
  }

  /**
   With distinct paths: a section lists exactly the pages that want it first, by lead rank and then path;
   the leftovers are the pages no section wants, in input order.
   */
  lemma DistinctPathsAreSorted(pages: seq<Page>, k: nat)
    requires DistinctPaths(pages) && k < 6
    ensures SamePathsAgree(pages)
    ensures Sorting.SortedBy(PageLeq, SectionEntries(pages, k))
    ensures forall p :: p in SectionEntries(pages, k) <==> p in pages && WantedFirst(k, p)
    ensures Leftover(pages) == Filter((p: Page) => forall j | 0 <= j < 6 :: !Matches(j, p), pages)
  {
    hide Matches, PageLeq, TakenBefore;
    PageLeqIsKeyOrder();
    Sorting.SortedSorts(PageLeq, Filter(p => Belongs(pages, k, p), pages));
    SortedSame(Filter(p => Belongs(pages, k, p), pages));
    FilterMembers(p => Belongs(pages, k, p), pages);
    forall p, l: nat | p in pages ensures TakenBefore(pages, l, p.rel) <==> exists j | 0 <= j < l :: Matches(j, p) {
      OwnMatchesOnly(pages, p, l);
    }
    FilterAgrees((p: Page) => !TakenBefore(pages, |SECTIONS|, p.rel),
                 (p: Page) => forall j | 0 <= j < 6 :: !Matches(j, p), pages);
  }

  lemma OwnMatchesOnly(pages: seq<Page>, p: Page, l: nat)
    requires DistinctPaths(pages) && p in pages
    ensures TakenBefore(pages, l, p.rel) <==> exists j | 0 <= j < l :: Matches(j, p)
  {
    hide Matches;
    var at :| 0 <= at < |pages| && pages[at] == p;
    if TakenBefore(pages, l, p.rel) {
      var i, j :| 0 <= i < |pages| && 0 <= j < l && pages[i].rel == p.rel && Matches(j, pages[i]);
      assert i == at;
    }
    if j :| 0 <= j < l && Matches(j, p) {
      assert pages[at].rel == p.rel && Matches(j, pages[at]);
    }
  }

  lemma {:induction false} ContainedIsShorter(s: string, part: string)
    requires Contains(s, part)
    ensures |part| <= |s|
  {
    if !StartsWith(s, part) {
      ContainedIsShorter(s[1..], part);
    }
  }

  lemma MatchesByKind(k: nat, page: Page)
    requires page.rel == "a.md" && page.kind in {"guide", "concept"}
    ensures Matches(k, page) <==> k == (if page.kind == "guide" then 3 else 4)
  {
    assert "guide"[0] != "concept"[0] && "guide"[0] != "index"[0] && "concept"[0] != "index"[0];
    assert "guide"[0] != "reference"[0] && "concept"[0] != "reference"[0];
    assert "a.md"[0] != "index.md"[0] && "a.md"[0] != "README.md"[0];
    if Contains(page.rel, "quickstart") {
      ContainedIsShorter(page.rel, "quickstart");
    }
  }

  /** Were one path given twice, as a guide and as a concept, the concept page would be listed nowhere. */
  lemma SharedPathDropsAPage()
    ensures var guide, concept := Page("a.md", "t", "guide"), Page("a.md", "t", "concept");
      !SamePathsAgree([guide, concept]) && concept !in EntriesOf(Table([guide, concept]))
  {
    hide Matches, Table, EntriesOf;
    var guide, concept := Page("a.md", "t", "guide"), Page("a.md", "t", "concept");
    var pages := [guide, concept];
    assert "guide"[0] != "concept"[0];
    forall k: nat ensures (Matches(k, guide) <==> k == 3) && (Matches(k, concept) <==> k == 4) {
      MatchesByKind(k, guide);
      MatchesByKind(k, concept);
    }
    assert pages[0] == guide && pages[1] == concept;
    MatchTakes(pages, guide, 3, 4);
    MatchTakes(pages, guide, 3, 6);
    assert !Kept(pages, concept);
    TableCount(pages, concept);
    assert WantedFirst(3, pages[0]) && !WantedFirst(3, pages[1]);
  }
}
