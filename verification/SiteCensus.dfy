/**
 The finite census of an installed site: every installed file is explained by one wheel.

 Paths, digests, bytecode validity, entry-point scripts and the RECORD syntax are functions of
 a `Lab`; the order of checks and what they compare is modelled exactly.
 */
module SiteCensus {
  import opened Common

  type Bytes = seq<bv8>
  type FileName = string
  type Path = string

  datatype Entry = Entry(name: string, data: Bytes)

  type Archive = seq<Entry>

  /** How a wheel member is installed. */
  datatype Kind =
    | Directory
    | Script(installedAs: FileName, pythonShebang: bool)
    | UnmodelledData
    | Plain

  /** One RECORD row; a blank column is `None`. */
  datatype RecordRow = RecordRow(name: FileName, hash: Option<string>, size: Option<nat>)

  datatype DirectUrl = DirectUrl(url: string, editable: bool)

  /** What the inventory program reports of one installed distribution. */
  datatype Row = Row(
    version: string, directUrl: Option<DirectUrl>, site: Path, python: Path,
    files: map<FileName, string>, sizes: map<FileName, nat>, generated: map<FileName, Bytes>,
    metadataSha256: string, siteCensusSha256: string)

  datatype Lab = Lab(
    digest: Bytes -> string,
    kind: Entry -> Kind,
    metadataDirectory: string -> Option<string>,
    pathsBound: (Path, Path) -> bool,
    entryScripts: (Path, Bytes) -> Option<map<FileName, Bytes>>,
    encodeDirectUrl: DirectUrl -> Bytes,
    isSource: FileName -> bool,
    isCache: FileName -> bool,
    isGenerated: FileName -> bool,
    cachePath: (Path, FileName) -> FileName,
    validBytecode: (Bytes, Bytes, Path, FileName) -> bool,
    parseRecord: Bytes -> Option<seq<RecordRow>>,
    resolve: (Path, FileName) -> Path,
    insideSite: (Path, Path) -> bool,
    encodeCensus: map<Path, string> -> Bytes)

  // ---- the files one wheel accounts for -----------------------------------------------------

  function MetadataDirectories(lab: Lab, archive: Archive): set<string> {
    set x | x in archive && lab.metadataDirectory(x.name).Some? :: lab.metadataDirectory(x.name).value
  }

  function InstalledName(lab: Lab, x: Entry): FileName {
    if lab.kind(x).Script? then lab.kind(x).installedAs else x.name
  }

  predicate Skipped(lab: Lab, record: FileName, x: Entry) {
    lab.kind(x).Directory? || x.name == record
  }

  predicate Installable(lab: Lab, x: Entry) {
    !lab.kind(x).UnmodelledData? && !(lab.kind(x).Script? && lab.kind(x).pythonShebang)
  }

  /** The members copied out of the archive, unless one is unmodelled or two land on one name. */
  function Copied(lab: Lab, archive: Archive, record: FileName): Option<map<FileName, Bytes>> {
    if archive == [] then Some(map[])
    else
      var last := archive[|archive| - 1];
      var rest := Copied(lab, archive[..|archive| - 1], record);
      if rest.None? then None
      else if Skipped(lab, record, last) then rest
      else if !Installable(lab, last) || InstalledName(lab, last) in rest.value then None
      else Some(rest.value[InstalledName(lab, last) := last.data])
  }

  function DataOf(archive: Archive, name: string): Option<Bytes> {
    if archive == [] then None
    else if archive[|archive| - 1].name == name then Some(archive[|archive| - 1].data)
    else DataOf(archive[..|archive| - 1], name)
  }

  function Scripts(lab: Lab, row: Row, archive: Archive, dir: string): Option<map<FileName, Bytes>> {
    var entryPoints := DataOf(archive, dir + "/entry_points.txt");
    if entryPoints.None? then Some(map[]) else lab.entryScripts(row.python, entryPoints.value)
  }

  const PIP: Bytes := [112, 105, 112, 10]

  /** The bookkeeping files pip writes beside the wheel's own. */
  function Bookkeeping(lab: Lab, row: Row, dir: string): map<FileName, Bytes> {
    map[dir + "/INSTALLER" := PIP]
    + (if dir + "/REQUESTED" in row.files then map[dir + "/REQUESTED" := []] else map[])
    + (if row.directUrl.Some? then map[dir + "/direct_url.json" := lab.encodeDirectUrl(row.directUrl.value)] else map[])
  }

  function GeneratedBytes(row: Row, name: FileName): Bytes {
    if name in row.generated then row.generated[name] else []
  }

  predicate BytecodeOk(lab: Lab, row: Row, name: FileName, source: Bytes) {
    var cache := lab.cachePath(row.site, name);
    cache in row.files && lab.validBytecode(GeneratedBytes(row, cache), source, row.site, name)
  }

  function CachePaths(lab: Lab, site: Path, names: set<FileName>): set<FileName> {
    set n | n in names && lab.isSource(n) :: lab.cachePath(site, n)
  }

  function Retained(row: Row, names: set<FileName>): map<FileName, Bytes> {
    map c | c in names :: GeneratedBytes(row, c)
  }

  function Caches(lab: Lab, row: Row, sources: map<FileName, Bytes>): map<FileName, Bytes> {
    Retained(row, CachePaths(lab, row.site, sources.Keys))
  }

  /** Everything but RECORD: members, scripts, bookkeeping, then the bytecode compiled from them. */
  function Modelled(lab: Lab, row: Row, archive: Archive, dir: string): Option<map<FileName, Bytes>> {
    var copied := Copied(lab, archive, dir + "/RECORD");
    var scripts := Scripts(lab, row, archive, dir);
    if copied.None? || scripts.None? then None
    else
      var sources := copied.value + scripts.value + Bookkeeping(lab, row, dir);
      if exists n :: n in sources && lab.isSource(n) && !BytecodeOk(lab, row, n, sources[n]) then None
      else Some(sources + Caches(lab, row, sources))
  }

  // ---- the checks ---------------------------------------------------------------------------------

  predicate RowDescribes(lab: Lab, r: RecordRow, record: FileName, expected: map<FileName, Bytes>) {
    if r.name == record || lab.isCache(r.name) then r.hash.None? && r.size.None?
    else r.name in expected && r.hash == Some(lab.digest(expected[r.name])) && r.size == Some(|expected[r.name]|)
  }

  predicate DistinctRows(rows: seq<RecordRow>) {
    forall i, j | 0 <= i < j < |rows| :: rows[i].name != rows[j].name
  }

  function RowNames(rows: seq<RecordRow>): set<FileName> {
    set r | r in rows :: r.name
  }

  predicate RecordOk(lab: Lab, rows: Option<seq<RecordRow>>, record: FileName, expected: map<FileName, Bytes>) {
    && rows.Some? && DistinctRows(rows.value)
    && RowNames(rows.value) == expected.Keys + {record}
    && forall r | r in rows.value :: RowDescribes(lab, r, record, expected)
  }

  /** Digest, size and retained bytes of every installed file agree with the modelled contents. */
  predicate FilesOk(lab: Lab, row: Row, expected: map<FileName, Bytes>) {
    && row.files.Keys == expected.Keys && row.sizes.Keys == row.files.Keys
    && row.generated.Keys == (set n | n in expected && lab.isGenerated(n))
    && forall n | n in expected :: FileOk(lab, row, n, expected[n])
  }

  predicate FileOk(lab: Lab, row: Row, n: FileName, content: Bytes)
    requires n in row.files && n in row.sizes
  {
    && row.files[n] == lab.digest(content) && row.sizes[n] == |content|
    && (n in row.generated ==> row.generated[n] == content)
  }

  /** The whole finite set of files the archive accounts for, RECORD included. */
  function Contents(lab: Lab, row: Row, archive: Archive, dir: string): Option<map<FileName, Bytes>> {
    var modelled := Modelled(lab, row, archive, dir);
    if modelled.None? then None
    else Some(modelled.value[dir + "/RECORD" := GeneratedBytes(row, dir + "/RECORD")])
  }

  predicate Explained(lab: Lab, row: Row, archive: Archive) {
    && row.files != map[] && row.sizes.Keys == row.files.Keys && lab.pathsBound(row.site, row.python)
    && exists dir | dir in MetadataDirectories(lab, archive) ::
         MetadataDirectories(lab, archive) == {dir} && ExplainedBy(lab, row, archive, dir)
  }

  predicate ExplainedBy(lab: Lab, row: Row, archive: Archive, dir: string) {
    var modelled := Modelled(lab, row, archive, dir);
    var record := dir + "/RECORD";
    && modelled.Some?
    && RecordOk(lab, lab.parseRecord(GeneratedBytes(row, record)), record, modelled.value)
    && FilesOk(lab, row, Contents(lab, row, archive, dir).value)
    && dir + "/METADATA" in Contents(lab, row, archive, dir).value
    && row.metadataSha256 == lab.digest(Contents(lab, row, archive, dir).value[dir + "/METADATA"])
  }

  method CopyMembers(lab: Lab, archive: Archive, record: FileName) returns (r: Result<map<FileName, Bytes>>)
    ensures r.Ok? <==> Copied(lab, archive, record).Some?
    ensures r.Ok? ==> r.value == Copied(lab, archive, record).value
  {
    var expected: map<FileName, Bytes> := map[];
    for k := 0 to |archive|
      invariant Copied(lab, archive[..k], record) == Some(expected)
    {
      var x := archive[k];
      assert archive[..k + 1][..k] == archive[..k];
      if !Skipped(lab, record, x) {
        if lab.kind(x).UnmodelledData? || (lab.kind(x).Script? && lab.kind(x).pythonShebang) {
          CopyingFailsForGood(lab, archive, record, k + 1);
          return Raised(Error("unmodeled wheel install transformation"));
        }
        if InstalledName(lab, x) in expected {
          CopyingFailsForGood(lab, archive, record, k + 1);
          return Raised(Error("duplicate installed wheel mapping"));
        }
        expected := expected[InstalledName(lab, x) := x.data];
      }
    }
    assert archive[..|archive|] == archive;
    return Ok(expected);
  }

  lemma {:induction false} CopyingFailsForGood(lab: Lab, archive: Archive, record: FileName, k: nat)
    requires k <= |archive| && Copied(lab, archive[..k], record).None?
    ensures Copied(lab, archive, record).None?
    decreases |archive| - k
  {
    if k < |archive| {
      assert archive[..k + 1][..k] == archive[..k];
      CopyingFailsForGood(lab, archive, record, k + 1);
    } else {
      assert archive[..k] == archive;
    }
  }

  /** Adds the validated bytecode of every source file to the modelled files. */
  method AddBytecode(lab: Lab, row: Row, sources: map<FileName, Bytes>) returns (r: Result<map<FileName, Bytes>>)
    ensures r.Ok? <==> forall n | n in sources && lab.isSource(n) :: BytecodeOk(lab, row, n, sources[n])
    ensures r.Ok? ==> r.value == sources + Caches(lab, row, sources)
  {
    hide BytecodeOk, GeneratedBytes, Retained, CachePaths;
    NoCaches(lab, row, sources);
    var expected, done, todo := sources, {}, sources.Keys;
    while todo != {}
      invariant done + todo == sources.Keys
      invariant forall n | n in done && lab.isSource(n) :: BytecodeOk(lab, row, n, sources[n])
      invariant expected == sources + Retained(row, CachePaths(lab, row.site, done))
      decreases todo
    {
      var n :| n in todo;
      if lab.isSource(n) {
        if !BytecodeOk(lab, row, n, sources[n]) {
          return Raised(Error("compiled bytecode is missing or differs"));
        }
        var cache := lab.cachePath(row.site, n);
        expected := expected[cache := GeneratedBytes(row, cache)];
      }
      CachesGrow(lab, row, sources, done, n);
      done, todo := done + {n}, todo - {n};
    }
    assert done == sources.Keys;
    return Ok(expected);
  }

  lemma NoCaches(lab: Lab, row: Row, sources: map<FileName, Bytes>)
    ensures sources + Retained(row, CachePaths(lab, row.site, {})) == sources
  {
    assert CachePaths(lab, row.site, {}) == {};
  }

  lemma CachesGrow(lab: Lab, row: Row, sources: map<FileName, Bytes>, names: set<FileName>, n: FileName)
    ensures var before := sources + Retained(row, CachePaths(lab, row.site, names));
            var cache := lab.cachePath(row.site, n);
            sources + Retained(row, CachePaths(lab, row.site, names + {n}))
            == if lab.isSource(n) then before[cache := GeneratedBytes(row, cache)] else before
  {
    assert CachePaths(lab, row.site, names + {n})
        == CachePaths(lab, row.site, names) + if lab.isSource(n) then {lab.cachePath(row.site, n)} else {};
  }

  method CheckRecord(lab: Lab, row: Row, record: FileName, expected: map<FileName, Bytes>) returns (verdict: Verdict)
    ensures verdict.Accepted? <==> RecordOk(lab, lab.parseRecord(GeneratedBytes(row, record)), record, expected)
  {
    var parsed := lab.parseRecord(GeneratedBytes(row, record));
    if parsed.None? || !DistinctRows(parsed.value) {
      return Refused("installed RECORD rows are malformed or duplicated");
    }
    var rows := parsed.value;
    if RowNames(rows) != expected.Keys + {record} {
      return Refused("installed RECORD has extra or missing files");
    }
    for k := 0 to |rows|
      invariant forall r | r in rows[..k] :: RowDescribes(lab, r, record, expected)
    {
      assert rows[..k + 1] == rows[..k] + [rows[k]];
      if !RowDescribes(lab, rows[k], record, expected) {
        assert rows[k] in rows;
        return Refused("installed RECORD digest or size differs");
      }
    }
    assert rows[..|rows|] == rows;
    return Accepted;
  }

  method CheckFiles(lab: Lab, row: Row, expected: map<FileName, Bytes>) returns (verdict: Verdict)
    requires row.sizes.Keys == row.files.Keys
    ensures verdict.Accepted? <==> FilesOk(lab, row, expected)
  {
    if row.files.Keys != expected.Keys {
      return Refused("installed distribution has extra or missing files");
    }
    if row.generated.Keys != set n | n in expected && lab.isGenerated(n) {
      return Refused("generated installed file census differs");
    }
    verdict := CheckEachFile(lab, row, expected);
  }

  method CheckEachFile(lab: Lab, row: Row, expected: map<FileName, Bytes>) returns (verdict: Verdict)
    requires row.sizes.Keys == row.files.Keys == expected.Keys
    ensures verdict.Accepted? <==> forall n | n in expected :: FileOk(lab, row, n, expected[n])
  {
    hide FileOk;
    var names := ListSet(expected.Keys);
    for k := 0 to |names|
      invariant forall j | 0 <= j < k :: FileOk(lab, row, names[j], expected[names[j]])
    {
      var n := names[k];
      assert n in names;
      verdict := CompareFile(lab, row, n, expected[n]);
      if verdict.Refused? {
        return;
      }
    }
    return Accepted;
  }

  method CompareFile(lab: Lab, row: Row, n: FileName, content: Bytes) returns (verdict: Verdict)
    requires n in row.files && n in row.sizes
    ensures verdict.Accepted? <==> FileOk(lab, row, n, content)
  {
    if row.files[n] != lab.digest(content) || row.sizes[n] != |content| {
      return Refused("installed file differs from modeled original wheel input");
    }
    if n in row.generated && row.generated[n] != content {
      return Refused("generated installed file bytes differ");
    }
    return Accepted;
  }

  /** Accepts exactly the observations the archive explains. */
  method InstalledWheelBytes(lab: Lab, row: Row, archive: Archive) returns (verdict: Verdict)
    ensures verdict.Accepted? <==> Explained(lab, row, archive)
  {
    hide RecordOk, FilesOk, Caches, Copied, BytecodeOk, Scripts, Bookkeeping;
    if row.files == map[] || row.sizes.Keys != row.files.Keys {
      return Refused("installed file observation is incomplete");
    }
    if !lab.pathsBound(row.site, row.python) {
      return Refused("installed paths are not bound to an owned interpreter");
    }
    var dirs := ListSet(MetadataDirectories(lab, archive));
    if |dirs| != 1 {
      return Refused("wheel metadata directory is ambiguous");
    }
    var dir := dirs[0];
    assert MetadataDirectories(lab, archive) == {dir};
    assert Explained(lab, row, archive) <==> ExplainedBy(lab, row, archive, dir);
    var record := dir + "/RECORD";
    var copied := CopyMembers(lab, archive, record);
    var scripts := Scripts(lab, row, archive, dir);
    if copied.Raised? || scripts.None? {
      return Refused("unmodeled wheel content");
    }
    var sources := copied.value + scripts.value + Bookkeeping(lab, row, dir);
    var expected := AddBytecode(lab, row, sources);
    if expected.Raised? {
      return Refused("compiled bytecode is missing or differs");
    }
    verdict := CheckRecord(lab, row, record, expected.value);
    if verdict.Refused? {
      return;
    }
    var contents := expected.value[record := GeneratedBytes(row, record)];
    verdict := CheckFiles(lab, row, contents);
    if verdict.Refused? {
      return;
    }
    if dir + "/METADATA" !in contents || row.metadataSha256 != lab.digest(contents[dir + "/METADATA"]) {
      return Refused("installed metadata differs from original wheel");
    }
  }

  // ---- the whole site --------------------------------------------------------------------------------

  type Inventory = map<string, Row>

  datatype Located = Located(distribution: string, name: FileName)

  datatype Owned = Owned(site: Path, python: Path)

  /** Which archive each distribution is held against: resolver artifacts, then source builds. */
  datatype Wheels = Wheels(
    active: seq<(string, Archive)>,
    origins: map<string, DirectUrl>,
    editableWheels: map<string, Archive>,
    sourceWheels: map<string, Archive>)

  function SourceArchive(w: Wheels, name: string): Option<Archive>
    requires name in w.origins
  {
    if w.origins[name].editable
    then (if name in w.editableWheels then Some(w.editableWheels[name]) else None)
    else (if name in w.sourceWheels then Some(w.sourceWheels[name]) else None)
  }

  predicate HeldAgainst(w: Wheels, name: string, archive: Archive) {
    (name, archive) in w.active || (name in w.origins && SourceArchive(w, name) == Some(archive))
  }

  function AllFiles(after: Inventory): set<Located> {
    set d, n | d in after && n in after[d].files :: Located(d, n)
  }

  function PathOf(lab: Lab, after: Inventory, x: Located): Path
    requires x in AllFiles(after)
  {
    lab.resolve(after[x.distribution].site, x.name)
  }

  function SiteFiles(lab: Lab, after: Inventory): set<Located> {
    set x | x in AllFiles(after) && lab.insideSite(PathOf(lab, after, x), after[x.distribution].site)
  }

  /** No two installed files, of one distribution or of two, are the same path. */
  predicate Apart(lab: Lab, after: Inventory, files: set<Located>)
    requires files <= AllFiles(after)
  {
    forall x, y | x in files && y in files && PathOf(lab, after, x) == PathOf(lab, after, y) :: x == y
  }

  function Census(lab: Lab, after: Inventory, files: set<Located>): map<Path, string>
    requires files <= AllFiles(after) && Apart(lab, after, files)
  {
    map x | x in files :: PathOf(lab, after, x) := after[x.distribution].files[x.name]
  }

  predicate SiteAccepted(lab: Lab, owned: Owned, after: Inventory, w: Wheels) {
    && (forall d | d in after :: after[d].site == owned.site && after[d].python == owned.python)
    && Apart(lab, after, SiteFiles(lab, after))
    && (forall d | d in after ::
          after[d].siteCensusSha256 == lab.digest(lab.encodeCensus(Census(lab, after, SiteFiles(lab, after)))))
    && (forall x | x in w.active :: x.0 in after && Explained(lab, after[x.0], x.1))
    && (forall d | d in w.origins :: SourceExplained(lab, after, w, d))
  }

  /** The distribution has a file of that name inside the site. */
  ghost predicate InSite(lab: Lab, after: Inventory, d: string, n: FileName) {
    d in after && n in after[d].files && lab.insideSite(lab.resolve(after[d].site, n), after[d].site)
  }

  /** The paths of the site's files, each with the digest its distribution gives. */
  ghost predicate IsCensus(lab: Lab, after: Inventory, census: map<Path, string>) {
    && (forall p | p in census :: exists d, n :: InSite(lab, after, d, n) && lab.resolve(after[d].site, n) == p)
    && forall d, n | InSite(lab, after, d, n) ::
         lab.resolve(after[d].site, n) in census && census[lab.resolve(after[d].site, n)] == after[d].files[n]
  }

  ghost predicate OnePathEach(lab: Lab, after: Inventory) {
    forall d, n, e, m | InSite(lab, after, d, n) && InSite(lab, after, e, m)
      && lab.resolve(after[d].site, n) == lab.resolve(after[e].site, m) :: d == e && n == m
  }

  lemma SiteFilesAre(lab: Lab, after: Inventory)
    ensures forall d, n :: Located(d, n) in SiteFiles(lab, after) <==> InSite(lab, after, d, n)
  {
  }

  lemma ApartIff(lab: Lab, after: Inventory)
    ensures Apart(lab, after, SiteFiles(lab, after)) <==> OnePathEach(lab, after)
  {
    hide AllFiles;
    SiteFilesAre(lab, after);
    if OnePathEach(lab, after) {
      forall x, y | x in SiteFiles(lab, after) && y in SiteFiles(lab, after)
        && PathOf(lab, after, x) == PathOf(lab, after, y)
        ensures x == y
      {
        assert Located(x.distribution, x.name) == x && Located(y.distribution, y.name) == y;
      }
    }
    if Apart(lab, after, SiteFiles(lab, after)) {
      forall d, n, e, m | InSite(lab, after, d, n) && InSite(lab, after, e, m)
        && lab.resolve(after[d].site, n) == lab.resolve(after[e].site, m)
        ensures d == e && n == m
      {
        assert Located(d, n) in SiteFiles(lab, after) && Located(e, m) in SiteFiles(lab, after);
        assert PathOf(lab, after, Located(d, n)) == PathOf(lab, after, Located(e, m));
      }
    }
  }

  lemma CensusIsTheOne(lab: Lab, after: Inventory)
    requires Apart(lab, after, SiteFiles(lab, after))
    ensures IsCensus(lab, after, Census(lab, after, SiteFiles(lab, after)))
    ensures forall census | IsCensus(lab, after, census) :: census == Census(lab, after, SiteFiles(lab, after))
  {
    var taken := Census(lab, after, SiteFiles(lab, after));
    assert IsCensus(lab, after, taken) by {
      SiteFilesAre(lab, after);
      forall p | p in taken ensures exists d, n :: InSite(lab, after, d, n) && lab.resolve(after[d].site, n) == p {
        var x :| x in SiteFiles(lab, after) && PathOf(lab, after, x) == p;
        assert InSite(lab, after, x.distribution, x.name);
      }
      forall d, n | InSite(lab, after, d, n)
        ensures lab.resolve(after[d].site, n) in taken && taken[lab.resolve(after[d].site, n)] == after[d].files[n]
      {
        assert Located(d, n) in SiteFiles(lab, after) && PathOf(lab, after, Located(d, n)) in taken;
      }
    }
    forall census | IsCensus(lab, after, census) ensures census == taken {
      CensusIsUnique(lab, after, census, taken);
    }
  }

  lemma CensusIsUnique(lab: Lab, after: Inventory, a: map<Path, string>, b: map<Path, string>)
    requires IsCensus(lab, after, a) && IsCensus(lab, after, b)
    ensures a == b
  {
    forall p | p in a ensures p in b && a[p] == b[p] {
      var d, n :| InSite(lab, after, d, n) && lab.resolve(after[d].site, n) == p;
    }
    forall p | p in b ensures p in a {
      var d, n :| InSite(lab, after, d, n) && lab.resolve(after[d].site, n) == p;
    }
  }

  /**
   An inventory is accepted exactly when every row is of the owned site and interpreter, the files inside the
   site have a path each, every row tells the digest of the one census there is of them, and every active
   artifact and declared origin is installed as its wheel explains: of an editable origin the editable build.
   */
  lemma SiteAcceptedIff(lab: Lab, owned: Owned, after: Inventory, w: Wheels)
    ensures SiteAccepted(lab, owned, after, w) <==>
            && (forall d | d in after :: after[d].site == owned.site && after[d].python == owned.python)
            && OnePathEach(lab, after)
            && (exists census ::
                  && IsCensus(lab, after, census)
                  && forall d | d in after :: after[d].siteCensusSha256 == lab.digest(lab.encodeCensus(census)))
            && (forall x | x in w.active :: x.0 in after && Explained(lab, after[x.0], x.1))
            && forall d | d in w.origins ::
                 var built := if w.origins[d].editable then w.editableWheels else w.sourceWheels;
                 d in after && d in built && Explained(lab, after[d], built[d])
  {
    hide Explained, Apart, OnePathEach, IsCensus, Census;
    ApartIff(lab, after);
    if Apart(lab, after, SiteFiles(lab, after)) {
      CensusIsTheOne(lab, after);
    }
    if SiteAccepted(lab, owned, after, w) {
      assert IsCensus(lab, after, Census(lab, after, SiteFiles(lab, after)));
      forall d | d in w.origins
        ensures var built := if w.origins[d].editable then w.editableWheels else w.sourceWheels;
          d in after && d in built && Explained(lab, after[d], built[d])
      {
        assert SourceExplained(lab, after, w, d);
      }
    }
  }

  lemma PathTaken(lab: Lab, after: Inventory, done: set<Located>, path: Path)
    requires done <= AllFiles(after) && Apart(lab, after, done)
    ensures path in Census(lab, after, done) <==> exists y :: y in done && PathOf(lab, after, y) == path
  {
    hide PathOf, AllFiles;
  }

  /** Counting one more file: it is apart from the others exactly when its path is not yet taken. */
  lemma CensusGrows(lab: Lab, after: Inventory, done: set<Located>, x: Located)
    requires done <= AllFiles(after) && x in AllFiles(after) && x !in done && Apart(lab, after, done)
    ensures Apart(lab, after, done + {x}) <==> PathOf(lab, after, x) !in Census(lab, after, done)
    ensures PathOf(lab, after, x) !in Census(lab, after, done) ==>
      Census(lab, after, done + {x})
          == Census(lab, after, done)[PathOf(lab, after, x) := after[x.distribution].files[x.name]]
  {
    hide PathOf, AllFiles, Census;
    PathTaken(lab, after, done, PathOf(lab, after, x));
    if Apart(lab, after, done + {x}) {
      CensusExtends(lab, after, done, x);
    }
  }

  lemma CensusExtends(lab: Lab, after: Inventory, done: set<Located>, x: Located)
    requires done <= AllFiles(after) && x in AllFiles(after) && Apart(lab, after, done) && Apart(lab, after, done + {x})
    ensures Census(lab, after, done + {x})
         == Census(lab, after, done)[PathOf(lab, after, x) := after[x.distribution].files[x.name]]
  {
    hide PathOf, AllFiles;
  }

  method TakeCensus(lab: Lab, after: Inventory) returns (r: Result<map<Path, string>>)
    ensures r.Ok? <==> Apart(lab, after, SiteFiles(lab, after))
    ensures r.Ok? ==> r.value == Census(lab, after, SiteFiles(lab, after))
  {
    hide Census, PathOf;
    var census: map<Path, string> := map[];
    var done, todo := {}, SiteFiles(lab, after);
    assert Census(lab, after, {}) == map[] by {
      NothingCounted(lab, after);
    }
    while todo != {}
      invariant done + todo == SiteFiles(lab, after) && done !! todo
      invariant Apart(lab, after, done) && census == Census(lab, after, done)
      decreases todo
    {
      var x :| x in todo;
      var path := PathOf(lab, after, x);
      CensusGrows(lab, after, done, x);
      if path in census {
        assert done + {x} <= SiteFiles(lab, after);
        return Raised(Error("installed distributions overlap"));
      }
      census := census[path := after[x.distribution].files[x.name]];
      done, todo := done + {x}, todo - {x};
    }
    assert done == SiteFiles(lab, after);
    return Ok(census);
  }

  lemma NothingCounted(lab: Lab, after: Inventory)
    ensures Census(lab, after, {}) == map[]
  {
  }

  predicate SourceExplained(lab: Lab, after: Inventory, w: Wheels, d: string)
    requires d in w.origins
  {
    && SourceArchive(w, d).Some? && d in after
    && Explained(lab, after[d], SourceArchive(w, d).value)
  }

  /** The loop over the built sources. */
  method InstalledSourceBytes(lab: Lab, after: Inventory, w: Wheels) returns (verdict: Verdict)
    ensures verdict.Accepted? <==> forall d | d in w.origins :: SourceExplained(lab, after, w, d)
  {
    hide Explained;
    var todo := w.origins.Keys;
    while todo != {}
      invariant todo <= w.origins.Keys
      invariant forall d | d in w.origins && d !in todo :: SourceExplained(lab, after, w, d)
      decreases todo
    {
      var d :| d in todo;
      var archive := SourceArchive(w, d);
      if archive.None? || d !in after {
        return Refused("source build is missing");
      }
      verdict := InstalledWheelBytes(lab, after[d], archive.value);
      if verdict.Refused? {
        return;
      }
      todo := todo - {d};
    }
    return Accepted;
  }

  /** Accepts exactly the inventories whose every held distribution is explained and whose census agrees. */
  method InstalledSourceAndArtifactBytes(lab: Lab, owned: Owned, after: Inventory, w: Wheels) returns (verdict: Verdict)
    ensures verdict.Accepted? <==> SiteAccepted(lab, owned, after, w)
  {
    hide Explained, Apart, Census;
    if d :| d in after && (after[d].site != owned.site || after[d].python != owned.python) {
      return Refused("installed observation differs from the owned interpreter context");
    }
    var census := TakeCensus(lab, after);
    if census.Raised? {
      return Refused("installed distributions overlap");
    }
    var digest := lab.digest(lab.encodeCensus(census.value));
    if d :| d in after && after[d].siteCensusSha256 != digest {
      return Refused("installed finite site census differs");
    }
    for k := 0 to |w.active|
      invariant forall j | 0 <= j < k :: w.active[j].0 in after && Explained(lab, after[w.active[j].0], w.active[j].1)
    {
      assert w.active[k] in w.active;
      if w.active[k].0 !in after {
        return Refused("artifact is not installed");
      }
      verdict := InstalledWheelBytes(lab, after[w.active[k].0], w.active[k].1);
      if verdict.Refused? {
        return;
      }
    }
    verdict := InstalledSourceBytes(lab, after, w);
  }

  // ---- what acceptance establishes about the disk ----------------------------------------------------

  ghost predicate Injective<A(!new), B(!new)>(f: A -> B) {
    forall a, b :: f(a) == f(b) ==> a == b
  }

  /** The digest and the size of every file are true, and the bytes of exactly the generated ones are kept. */
  ghost predicate RowFaithful(lab: Lab, row: Row, disk: map<Path, Bytes>) {
    && row.sizes.Keys == row.files.Keys
    && row.generated.Keys == (set n | n in row.files && lab.isGenerated(n))
    && forall n | n in row.files ::
         lab.resolve(row.site, n) in disk && FileOk(lab, row, n, disk[lab.resolve(row.site, n)])
  }

  /** The inventory program reports every file truly, and the census of the files really in the site. */
  ghost predicate Faithful(lab: Lab, after: Inventory, disk: map<Path, Bytes>, site: set<Path>) {
    && site <= disk.Keys
    && (forall d | d in after :: RowFaithful(lab, after[d], disk))
    && forall d | d in after ::
         after[d].siteCensusSha256 == lab.digest(lab.encodeCensus(map p | p in site :: lab.digest(disk[p])))
  }

  ghost predicate Owns(lab: Lab, after: Inventory, x: Located, p: Path) {
    x in AllFiles(after) && PathOf(lab, after, x) == p
  }

  /** Every file in the site belongs to exactly one installed distribution, under exactly one name. */
  lemma EverySiteFileHasOneOwner(lab: Lab, owned: Owned, after: Inventory, w: Wheels, disk: map<Path, Bytes>,
                                 site: set<Path>)
    requires SiteAccepted(lab, owned, after, w) && Faithful(lab, after, disk, site) && after != map[]
    requires Injective(lab.digest) && Injective(lab.encodeCensus)
    ensures site == set x | x in SiteFiles(lab, after) :: PathOf(lab, after, x)
    ensures forall p | p in site :: exists x :: x in SiteFiles(lab, after) && Owns(lab, after, x, p)
    ensures forall p, x, y | p in site && Owns(lab, after, x, p) && Owns(lab, after, y, p) :: x == y
  {
    hide SiteAccepted, Faithful, Census, AllFiles, PathOf;
    CensusIsTheSite(lab, owned, after, w, disk, site);
    forall p, x | p in site && Owns(lab, after, x, p) ensures x in SiteFiles(lab, after) {
      var y :| y in SiteFiles(lab, after) && PathOf(lab, after, y) == p;
      SameSite(lab, owned, after, w, x);
      SameSite(lab, owned, after, w, y);
    }
  }

  lemma SameSite(lab: Lab, owned: Owned, after: Inventory, w: Wheels, x: Located)
    requires SiteAccepted(lab, owned, after, w) && x in AllFiles(after)
    ensures x.distribution in after && after[x.distribution].site == owned.site
  {
  }

  lemma CensusIsTheSite(lab: Lab, owned: Owned, after: Inventory, w: Wheels, disk: map<Path, Bytes>, site: set<Path>)
    requires SiteAccepted(lab, owned, after, w) && Faithful(lab, after, disk, site) && after != map[]
    requires Injective(lab.digest) && Injective(lab.encodeCensus)
    ensures Apart(lab, after, SiteFiles(lab, after))
    ensures site == set x | x in SiteFiles(lab, after) :: PathOf(lab, after, x)
  {
    hide Explained, SourceArchive, Apart, PathOf;
    var d :| d in after;
    var taken := Census(lab, after, SiteFiles(lab, after));
    var actual := map p | p in site :: lab.digest(disk[p]);
    assert lab.digest(lab.encodeCensus(taken)) == lab.digest(lab.encodeCensus(actual));
    assert taken == actual;
    assert taken.Keys == set x | x in SiteFiles(lab, after) :: PathOf(lab, after, x);
  }

  /** The installed files are the modelled ones, byte for byte. */
  ghost predicate ExactOnDisk(lab: Lab, row: Row, archive: Archive, dir: string, disk: map<Path, Bytes>) {
    var contents := Contents(lab, row, archive, dir);
    && contents.Some? && row.files.Keys == contents.value.Keys
    && forall n | n in row.files ::
         lab.resolve(row.site, n) in disk && disk[lab.resolve(row.site, n)] == contents.value[n]
  }

  /** RECORD lists each installed file exactly once, with its real digest and size unless it is exempt. */
  ghost predicate RecordMatchesDisk(lab: Lab, row: Row, dir: string, disk: map<Path, Bytes>) {
    var record := dir + "/RECORD";
    var rows := lab.parseRecord(GeneratedBytes(row, record));
    && rows.Some?
    && (forall i, j | 0 <= i < j < |rows.value| :: rows.value[i].name != rows.value[j].name)
    && (forall n :: n in row.files <==> exists r :: r in rows.value && r.name == n)
    && (forall r | r in rows.value && (r.name == record || lab.isCache(r.name)) :: r.hash.None? && r.size.None?)
    && forall r | r in rows.value && r.name != record && !lab.isCache(r.name) ::
         && lab.resolve(row.site, r.name) in disk
         && r.hash == Some(lab.digest(disk[lab.resolve(row.site, r.name)]))
         && r.size == Some(|disk[lab.resolve(row.site, r.name)]|)
  }

  lemma ExplainedMeansExact(lab: Lab, row: Row, archive: Archive, dir: string, disk: map<Path, Bytes>)
    requires ExplainedBy(lab, row, archive, dir) && RowFaithful(lab, row, disk) && Injective(lab.digest)
    ensures ExactOnDisk(lab, row, archive, dir, disk)
  {
    hide RecordOk, Modelled;
    var contents := Contents(lab, row, archive, dir).value;
    forall n | n in row.files ensures disk[lab.resolve(row.site, n)] == contents[n] {
      assert FileOk(lab, row, n, contents[n]);
    }
  }

  lemma ExplainedMeansRecorded(lab: Lab, row: Row, archive: Archive, dir: string, disk: map<Path, Bytes>)
    requires ExplainedBy(lab, row, archive, dir) && ExactOnDisk(lab, row, archive, dir, disk)
    ensures RecordMatchesDisk(lab, row, dir, disk)
  {
    hide Modelled, FileOk;
    var modelled := Modelled(lab, row, archive, dir).value;
    var record := dir + "/RECORD";
    var rows := lab.parseRecord(GeneratedBytes(row, record)).value;
    assert row.files.Keys == modelled.Keys + {record};
    RowsNameTheFiles(rows, row.files.Keys);
    forall r | r in rows && r.name != record && !lab.isCache(r.name)
      ensures lab.resolve(row.site, r.name) in disk
      ensures disk[lab.resolve(row.site, r.name)] == modelled[r.name]
    {
      assert RowDescribes(lab, r, record, modelled);
      assert r.name in row.files;
    }
  }

  lemma RowsNameTheFiles(rows: seq<RecordRow>, names: set<FileName>)
    requires RowNames(rows) == names
    ensures forall n :: n in names <==> exists r :: r in rows && r.name == n
  {
  }

  // ---- the same, file by file ------------------------------------------------------------------------

  /** Where a wheel member goes: scripts have a place of their own. */
  function PlaceOf(lab: Lab, x: Entry): FileName {
    match lab.kind(x)
    case Script(installedAs, _) => installedAs
    case _ => x.name
  }

  ghost predicate IsCachePath(lab: Lab, row: Row, n: FileName) {
    exists m :: m in row.files && lab.isSource(m) && lab.cachePath(row.site, m) == n
  }

  /** The names of the files pip writes by itself. */
  predicate PipsOwn(dir: string, n: FileName) {
    n in {dir + "/INSTALLER", dir + "/REQUESTED", dir + "/direct_url.json", dir + "/RECORD"}
  }

  /** Some member of the archive states the entry points that make these scripts. */
  ghost predicate StatesScripts(lab: Lab, row: Row, archive: Archive, dir: string, scripts: map<FileName, Bytes>) {
    exists x ::
      && x in archive && x.name == dir + "/entry_points.txt"
      && lab.entryScripts(row.python, x.data) == Some(scripts)
  }

  /** The scripts made from the wheel's entry points, if it has any. */
  ghost predicate MakesScripts(lab: Lab, row: Row, archive: Archive, dir: string, scripts: map<FileName, Bytes>) {
    if exists x :: x in archive && x.name == dir + "/entry_points.txt" then
      StatesScripts(lab, row, archive, dir, scripts)
    else scripts == map[]
  }

  ghost predicate Has(lab: Lab, row: Row, disk: map<Path, Bytes>, n: FileName, content: Bytes) {
    n in row.files && lab.resolve(row.site, n) in disk && disk[lab.resolve(row.site, n)] == content
  }

  /** Each member but RECORD is at its place, with its bytes unless pip writes another file there. */
  ghost predicate MembersLaid(lab: Lab, row: Row, archive: Archive, dir: string, disk: map<Path, Bytes>,
                              scripts: map<FileName, Bytes>)
  {
    forall x | x in archive && !lab.kind(x).Directory? && x.name != dir + "/RECORD" ::
      && !lab.kind(x).UnmodelledData? && (lab.kind(x).Script? ==> !lab.kind(x).pythonShebang)
      && PlaceOf(lab, x) in row.files
      && (!PipsOwn(dir, PlaceOf(lab, x)) && PlaceOf(lab, x) !in scripts && !IsCachePath(lab, row, PlaceOf(lab, x)) ==>
            Has(lab, row, disk, PlaceOf(lab, x), x.data))
  }

  /** So is each script made for an entry point. */
  ghost predicate ScriptsLaid(lab: Lab, row: Row, dir: string, disk: map<Path, Bytes>, scripts: map<FileName, Bytes>) {
    forall n | n in scripts ::
      && n in row.files
      && (!PipsOwn(dir, n) && !IsCachePath(lab, row, n) ==> Has(lab, row, disk, n, scripts[n]))
  }

  /** And what pip writes by itself; the metadata reported is that of the METADATA on disk. */
  ghost predicate PipsOwnLaid(lab: Lab, row: Row, dir: string, disk: map<Path, Bytes>) {
    && (!IsCachePath(lab, row, dir + "/INSTALLER") ==> Has(lab, row, disk, dir + "/INSTALLER", [112, 105, 112, 10]))
    && (dir + "/REQUESTED" in row.files && !IsCachePath(lab, row, dir + "/REQUESTED") ==>
          Has(lab, row, disk, dir + "/REQUESTED", []))
    && (row.directUrl.Some? && !IsCachePath(lab, row, dir + "/direct_url.json") ==>
          Has(lab, row, disk, dir + "/direct_url.json", lab.encodeDirectUrl(row.directUrl.value)))
    && dir + "/METADATA" in row.files && lab.resolve(row.site, dir + "/METADATA") in disk
    && row.metadataSha256 == lab.digest(disk[lab.resolve(row.site, dir + "/METADATA")])
  }

  /** Every source file has its bytecode, and what is on disk there is bytecode of the source on disk. */
  ghost predicate BytecodeMatchesDisk(lab: Lab, row: Row, dir: string, disk: map<Path, Bytes>) {
    forall n | n in row.files && lab.isSource(n) && n != dir + "/RECORD" && !IsCachePath(lab, row, n) ::
      var cache := lab.cachePath(row.site, n);
      && cache in row.files
      && lab.resolve(row.site, n) in disk && lab.resolve(row.site, cache) in disk
      && (lab.isGenerated(cache) && cache != dir + "/RECORD" ==>
            lab.validBytecode(disk[lab.resolve(row.site, cache)], disk[lab.resolve(row.site, n)], row.site, n))
  }

  /** There is no other file. */
  ghost predicate NothingElse(lab: Lab, row: Row, archive: Archive, dir: string, scripts: map<FileName, Bytes>) {
    forall n | n in row.files ::
      || (exists x :: x in archive && !lab.kind(x).Directory? && x.name != dir + "/RECORD" && PlaceOf(lab, x) == n)
      || n in scripts || PipsOwn(dir, n) || IsCachePath(lab, row, n)
  }

  /** What is on disk, told by the wheel's members alone. */
  ghost predicate LaidOut(lab: Lab, row: Row, archive: Archive, dir: string, disk: map<Path, Bytes>) {
    && (exists x :: x in archive && lab.metadataDirectory(x.name) == Some(dir))
    && (forall x | x in archive :: lab.metadataDirectory(x.name) in {None, Some(dir)})
    && lab.pathsBound(row.site, row.python)
    && PipsOwnLaid(lab, row, dir, disk) && BytecodeMatchesDisk(lab, row, dir, disk)
    && exists scripts ::
         && MakesScripts(lab, row, archive, dir, scripts)
         && MembersLaid(lab, row, archive, dir, disk, scripts) && ScriptsLaid(lab, row, dir, disk, scripts)
         && NothingElse(lab, row, archive, dir, scripts)
  }

  lemma {:induction false} CopiedMembers(lab: Lab, archive: Archive, record: FileName)
    requires Copied(lab, archive, record).Some?
    ensures var copied := Copied(lab, archive, record).value;
      forall x | x in archive && !lab.kind(x).Directory? && x.name != record ::
        && !lab.kind(x).UnmodelledData? && (lab.kind(x).Script? ==> !lab.kind(x).pythonShebang)
        && PlaceOf(lab, x) in copied && copied[PlaceOf(lab, x)] == x.data
  {
    if archive != [] {
      CopiedMembers(lab, archive[..|archive| - 1], record);
      assert archive == archive[..|archive| - 1] + [archive[|archive| - 1]];
    }
  }

  lemma {:induction false} CopiedAreMembers(lab: Lab, archive: Archive, record: FileName)
    requires Copied(lab, archive, record).Some?
    ensures forall n | n in Copied(lab, archive, record).value ::
              exists x :: x in archive && !lab.kind(x).Directory? && x.name != record && PlaceOf(lab, x) == n
  {
    if archive != [] {
      CopiedAreMembers(lab, archive[..|archive| - 1], record);
      assert archive == archive[..|archive| - 1] + [archive[|archive| - 1]];
    }
  }

  lemma {:induction false} DataIsOfAMember(archive: Archive, name: string)
    ensures match DataOf(archive, name)
            case None => forall x | x in archive :: x.name != name
            case Some(data) => exists x :: x in archive && x.name == name && x.data == data
  {
    if archive != [] {
      DataIsOfAMember(archive[..|archive| - 1], name);
    }
  }

  lemma ScriptsAreMade(lab: Lab, row: Row, archive: Archive, dir: string)
    requires Scripts(lab, row, archive, dir).Some?
    ensures MakesScripts(lab, row, archive, dir, Scripts(lab, row, archive, dir).value)
  {
    DataIsOfAMember(archive, dir + "/entry_points.txt");
  }

  /** Members, scripts and pip's own files, before the bytecode is added. */
  ghost function Sources(lab: Lab, row: Row, archive: Archive, dir: string): map<FileName, Bytes>
    requires Modelled(lab, row, archive, dir).Some?
  {
    Copied(lab, archive, dir + "/RECORD").value + Scripts(lab, row, archive, dir).value + Bookkeeping(lab, row, dir)
  }

  lemma ModelledIs(lab: Lab, row: Row, archive: Archive, dir: string)
    requires Modelled(lab, row, archive, dir).Some?
    ensures var sources := Sources(lab, row, archive, dir);
      && Modelled(lab, row, archive, dir).value == sources + Caches(lab, row, sources)
      && forall n | n in sources && lab.isSource(n) :: BytecodeOk(lab, row, n, sources[n])
  {
    hide Copied, Scripts, Bookkeeping, BytecodeOk, Caches;
  }

  lemma SourcesAreOnDisk(lab: Lab, row: Row, archive: Archive, dir: string, disk: map<Path, Bytes>)
    requires ExplainedBy(lab, row, archive, dir) && ExactOnDisk(lab, row, archive, dir, disk)
    ensures var sources := Sources(lab, row, archive, dir);
      && (forall n | n in sources ::
            n in row.files
            && (n != dir + "/RECORD" && !IsCachePath(lab, row, n) ==> Has(lab, row, disk, n, sources[n])))
      && (forall n | n in row.files :: n in sources || n == dir + "/RECORD" || IsCachePath(lab, row, n))
  {
    hide RecordOk, FilesOk, Modelled, Copied, Scripts, Bookkeeping, BytecodeOk;
    ModelledIs(lab, row, archive, dir);
    var sources, contents := Sources(lab, row, archive, dir), Contents(lab, row, archive, dir).value;
    assert forall n | n in sources :: n in contents;
    forall n | n in Caches(lab, row, sources) ensures IsCachePath(lab, row, n) {
      var m :| m in sources && lab.isSource(m) && lab.cachePath(row.site, m) == n;
    }
  }

  lemma MembersAreLaid(lab: Lab, row: Row, archive: Archive, dir: string, disk: map<Path, Bytes>)
    requires ExplainedBy(lab, row, archive, dir) && ExactOnDisk(lab, row, archive, dir, disk)
    ensures MembersLaid(lab, row, archive, dir, disk, Scripts(lab, row, archive, dir).value)
  {
    hide RecordOk, FilesOk, ExplainedBy, ExactOnDisk, Copied, Scripts, Has, IsCachePath, BytecodeOk, Caches,
         Bookkeeping, PlaceOf;
    SourcesAreOnDisk(lab, row, archive, dir, disk);
    IsModelled(lab, row, archive, dir);
    CopiedMembers(lab, archive, dir + "/RECORD");
    OwnNames(lab, row, dir);
  }

  lemma OwnNames(lab: Lab, row: Row, dir: string)
    ensures forall n | n in Bookkeeping(lab, row, dir) :: PipsOwn(dir, n)
  {
  }

  lemma ScriptsAreLaid(lab: Lab, row: Row, archive: Archive, dir: string, disk: map<Path, Bytes>)
    requires ExplainedBy(lab, row, archive, dir) && ExactOnDisk(lab, row, archive, dir, disk)
    ensures ScriptsLaid(lab, row, dir, disk, Scripts(lab, row, archive, dir).value)
    ensures NothingElse(lab, row, archive, dir, Scripts(lab, row, archive, dir).value)
  {
    hide RecordOk, FilesOk, ExplainedBy, ExactOnDisk, Copied, Scripts, Has, IsCachePath, BytecodeOk, Caches,
         Bookkeeping, PlaceOf;
    SourcesAreOnDisk(lab, row, archive, dir, disk);
    IsModelled(lab, row, archive, dir);
    CopiedAreMembers(lab, archive, dir + "/RECORD");
    OwnNames(lab, row, dir);
  }

  lemma IsModelled(lab: Lab, row: Row, archive: Archive, dir: string)
    requires ExplainedBy(lab, row, archive, dir)
    ensures Modelled(lab, row, archive, dir).Some?
  {
    hide Modelled, RecordOk, FilesOk;
  }

  lemma MetadataIsTold(lab: Lab, row: Row, archive: Archive, dir: string, disk: map<Path, Bytes>)
    requires ExplainedBy(lab, row, archive, dir) && ExactOnDisk(lab, row, archive, dir, disk)
    ensures dir + "/METADATA" in row.files && lab.resolve(row.site, dir + "/METADATA") in disk
    ensures row.metadataSha256 == lab.digest(disk[lab.resolve(row.site, dir + "/METADATA")])
  {
    hide RecordOk, FilesOk, Modelled, Contents;
  }

  lemma BookkeepingHas(lab: Lab, row: Row, dir: string)
    ensures var own := Bookkeeping(lab, row, dir);
      && dir + "/INSTALLER" in own && own[dir + "/INSTALLER"] == [112, 105, 112, 10]
      && (dir + "/REQUESTED" in row.files ==> dir + "/REQUESTED" in own && own[dir + "/REQUESTED"] == [])
      && (row.directUrl.Some? ==> dir + "/direct_url.json" in own
                                  && own[dir + "/direct_url.json"] == lab.encodeDirectUrl(row.directUrl.value))
  {
    FileNamesDiffer(dir);
  }

  lemma PipsOwnAreLaid(lab: Lab, row: Row, archive: Archive, dir: string, disk: map<Path, Bytes>)
    requires ExplainedBy(lab, row, archive, dir) && ExactOnDisk(lab, row, archive, dir, disk)
    ensures PipsOwnLaid(lab, row, dir, disk)
  {
    hide ExplainedBy, ExactOnDisk, Modelled, Copied, Scripts, Bookkeeping, Has, IsCachePath;
    FileNamesDiffer(dir);
    IsModelled(lab, row, archive, dir);
    SourcesAreOnDisk(lab, row, archive, dir, disk);
    BookkeepingHas(lab, row, dir);
    MetadataIsTold(lab, row, archive, dir, disk);
  }

  lemma BytecodeIsOnDisk(lab: Lab, row: Row, archive: Archive, dir: string, disk: map<Path, Bytes>)
    requires ExplainedBy(lab, row, archive, dir) && ExactOnDisk(lab, row, archive, dir, disk)
    requires RowFaithful(lab, row, disk)
    ensures BytecodeMatchesDisk(lab, row, dir, disk)
  {
    hide RecordOk, FilesOk, ExplainedBy, ExactOnDisk, Modelled, Copied, Scripts, Bookkeeping, Caches, IsCachePath;
    SourcesAreOnDisk(lab, row, archive, dir, disk);
    IsModelled(lab, row, archive, dir);
    ModelledIs(lab, row, archive, dir);
  }

  lemma ExplainedMeansLaidOut(lab: Lab, row: Row, archive: Archive, dir: string, disk: map<Path, Bytes>)
    requires MetadataDirectories(lab, archive) == {dir} && lab.pathsBound(row.site, row.python)
    requires ExplainedBy(lab, row, archive, dir) && ExactOnDisk(lab, row, archive, dir, disk)
    requires RowFaithful(lab, row, disk)
    ensures LaidOut(lab, row, archive, dir, disk)
  {
    hide ExplainedBy, ExactOnDisk, Scripts, MembersLaid, ScriptsLaid, NothingElse, PipsOwnLaid, BytecodeMatchesDisk,
         RowFaithful, MakesScripts;
    IsModelled(lab, row, archive, dir);
    PipsOwnAreLaid(lab, row, archive, dir, disk);
    BytecodeIsOnDisk(lab, row, archive, dir, disk);
    MembersAreLaid(lab, row, archive, dir, disk);
    ScriptsAreLaid(lab, row, archive, dir, disk);
    assert Scripts(lab, row, archive, dir).Some? by {
      ScriptsAreThere(lab, row, archive, dir);
    }
    ScriptsAreMade(lab, row, archive, dir);
    OneDirectory(lab, archive, dir);
  }

  lemma ScriptsAreThere(lab: Lab, row: Row, archive: Archive, dir: string)
    requires Modelled(lab, row, archive, dir).Some?
    ensures Scripts(lab, row, archive, dir).Some?
  {
    hide Scripts, Copied;
  }

  lemma OneDirectory(lab: Lab, archive: Archive, dir: string)
    requires MetadataDirectories(lab, archive) == {dir}
    ensures exists x :: x in archive && lab.metadataDirectory(x.name) == Some(dir)
    ensures forall x | x in archive :: lab.metadataDirectory(x.name) in {None, Some(dir)}
  {
    assert dir in MetadataDirectories(lab, archive);
    forall x | x in archive && lab.metadataDirectory(x.name).Some? ensures lab.metadataDirectory(x.name).value == dir {
      assert lab.metadataDirectory(x.name).value in MetadataDirectories(lab, archive);
    }
  }

  /** A distribution held against an archive has exactly that archive's contents on disk, as RECORD says. */
  lemma HeldDistributionsAreExact(lab: Lab, owned: Owned, after: Inventory, w: Wheels, disk: map<Path, Bytes>,
                                  site: set<Path>, d: string, archive: Archive)
    requires SiteAccepted(lab, owned, after, w) && Faithful(lab, after, disk, site) && Injective(lab.digest)
    requires HeldAgainst(w, d, archive)
    ensures d in after
    ensures exists dir ::
              && ExactOnDisk(lab, after[d], archive, dir, disk) && RecordMatchesDisk(lab, after[d], dir, disk)
              && LaidOut(lab, after[d], archive, dir, disk)
  {
    hide Apart, Census, ExplainedBy, ExactOnDisk, RecordMatchesDisk, LaidOut, RowFaithful, MetadataDirectories;
    assert d in after && Explained(lab, after[d], archive) by {
      if (d, archive) in w.active {
        assert (d, archive).0 in after;
      }
    }
    assert RowFaithful(lab, after[d], disk);
    var dir :| MetadataDirectories(lab, archive) == {dir} && ExplainedBy(lab, after[d], archive, dir);
    ExplainedMeansExact(lab, after[d], archive, dir, disk);
    ExplainedMeansRecorded(lab, after[d], archive, dir, disk);
    ExplainedMeansLaidOut(lab, after[d], archive, dir, disk);
  }

  // ---- a wheel that is METADATA alone ---------------------------------------------------------------

  /** The files pip leaves of such a wheel. */
  function PipFiles(lab: Lab, dir: string, metadata: Bytes, direct: Option<DirectUrl>, record: Bytes)
    : map<FileName, Bytes>
  {
    map[dir + "/METADATA" := metadata, dir + "/INSTALLER" := PIP, dir + "/RECORD" := record]
    + (if direct.Some? then map[dir + "/direct_url.json" := lab.encodeDirectUrl(direct.value)] else map[])
  }

  /** The laboratory takes these files for what they are, and the RECORD is the one pip writes of them. */
  ghost predicate PipWrites(lab: Lab, dir: string, metadata: Bytes, direct: Option<DirectUrl>, record: Bytes) {
    var files := PipFiles(lab, dir, metadata, direct, record);
    && lab.kind(Entry(dir + "/METADATA", metadata)).Plain? && lab.metadataDirectory(dir + "/METADATA") == Some(dir)
    && (forall n | n in files :: !lab.isSource(n)) && lab.isGenerated(dir + "/RECORD")
    && RecordOk(lab, lab.parseRecord(record), dir + "/RECORD", files - {dir + "/RECORD"})
  }

  lemma FileNamesDiffer(dir: string)
    ensures dir + "/METADATA" != dir + "/RECORD" && dir + "/METADATA" != dir + "/INSTALLER"
    ensures dir + "/INSTALLER" != dir + "/RECORD" && dir + "/METADATA" != dir + "/entry_points.txt"
    ensures dir + "/REQUESTED" != dir + "/INSTALLER" && dir + "/REQUESTED" != dir + "/METADATA"
    ensures dir + "/REQUESTED" != dir + "/RECORD" && dir + "/REQUESTED" != dir + "/direct_url.json"
    ensures dir + "/direct_url.json" != dir + "/METADATA" && dir + "/direct_url.json" != dir + "/INSTALLER"
    ensures dir + "/direct_url.json" != dir + "/RECORD"
  {
    assert |dir + "/METADATA"| == |dir| + 9 && |dir + "/RECORD"| == |dir| + 7;
    assert |dir + "/INSTALLER"| == |dir| + 10 && |dir + "/REQUESTED"| == |dir| + 10;
    assert |dir + "/direct_url.json"| == |dir| + 16 && |dir + "/entry_points.txt"| == |dir| + 17;
    assert (dir + "/INSTALLER")[|dir| + 1] == 'I' && (dir + "/REQUESTED")[|dir| + 1] == 'R';
  }

  lemma OneMemberCopied(lab: Lab, x: Entry, record: FileName)
    requires lab.kind(x).Plain? && x.name != record
    ensures Copied(lab, [x], record) == Some(map[x.name := x.data])
  {
    assert [x][..0] == [];
  }

  lemma AllButOne<K, V>(a: K, x: V, b: K, y: V, c: K, z: V, m: map<K, V>)
    requires c != a && c != b && c !in m
    ensures map[a := x] + (map[b := y] + m) == map[a := x, b := y, c := z] + m - {c}
  {
  }

  lemma PipsOwnFiles(lab: Lab, owned: Owned, version: string, dir: string, metadata: Bytes, direct: Option<DirectUrl>,
                     record: Bytes)
    ensures var files := PipFiles(lab, dir, metadata, direct, record);
      && dir + "/METADATA" in files
      && map[dir + "/METADATA" := metadata] + Bookkeeping(lab, Shown(lab, owned, version, direct, dir, files), dir)
         == files - {dir + "/RECORD"}
  {
    hide Shown;
    FileNamesDiffer(dir);
    var files := PipFiles(lab, dir, metadata, direct, record);
    var row := Shown(lab, owned, version, direct, dir, files);
    ShownHas(lab, owned, version, direct, dir, files);
    var origin := if direct.Some? then map[dir + "/direct_url.json" := lab.encodeDirectUrl(direct.value)] else map[];
    BookkeepingIs(lab, row, dir, origin);
    AllButOne(dir + "/METADATA", metadata, dir + "/INSTALLER", PIP, dir + "/RECORD", record, origin);
  }

  lemma BookkeepingIs(lab: Lab, row: Row, dir: string, origin: map<FileName, Bytes>)
    requires dir + "/REQUESTED" !in row.files
    requires origin
          == if row.directUrl.Some? then map[dir + "/direct_url.json" := lab.encodeDirectUrl(row.directUrl.value)]
             else map[]
    ensures Bookkeeping(lab, row, dir) == map[dir + "/INSTALLER" := PIP] + origin
  {
  }

  lemma ShownHas(lab: Lab, owned: Owned, version: string, direct: Option<DirectUrl>, dir: string,
                 contents: map<FileName, Bytes>)
    requires dir + "/METADATA" in contents
    ensures var row := Shown(lab, owned, version, direct, dir, contents);
      row.files.Keys == contents.Keys && row.directUrl == direct
  {
  }

  lemma PlainWheelIsModelled(lab: Lab, owned: Owned, version: string, dir: string, metadata: Bytes,
                             direct: Option<DirectUrl>, record: Bytes)
    requires PipWrites(lab, dir, metadata, direct, record)
    ensures var files := PipFiles(lab, dir, metadata, direct, record);
      && dir + "/METADATA" in files
      && Modelled(lab, Shown(lab, owned, version, direct, dir, files), [Entry(dir + "/METADATA", metadata)], dir)
         == Some(files - {dir + "/RECORD"})
  {
    hide RecordOk, Copied, Bookkeeping, Shown, BytecodeOk;
    FileNamesDiffer(dir);
    PipsOwnFiles(lab, owned, version, dir, metadata, direct, record);
    var files := PipFiles(lab, dir, metadata, direct, record);
    var archive, row := [Entry(dir + "/METADATA", metadata)], Shown(lab, owned, version, direct, dir, files);
    OneMemberCopied(lab, archive[0], dir + "/RECORD");
    assert archive[..0] == [] && DataOf(archive, dir + "/entry_points.txt") == None;
    var sources := files - {dir + "/RECORD"};
    assert map[dir + "/METADATA" := metadata] + map[] == map[dir + "/METADATA" := metadata];
    assert CachePaths(lab, row.site, sources.Keys) == {};
    assert sources + Caches(lab, row, sources) == sources;
  }

  lemma ShownFilesAreOk(lab: Lab, owned: Owned, version: string, direct: Option<DirectUrl>, dir: string,
                        contents: map<FileName, Bytes>)
    requires dir + "/METADATA" in contents
    ensures FilesOk(lab, Shown(lab, owned, version, direct, dir, contents), contents)
  {
  }

  /** Such a wheel explains what pip installs of it. */
  lemma PlainWheelIsExplained(lab: Lab, owned: Owned, version: string, dir: string, metadata: Bytes,
                              direct: Option<DirectUrl>, record: Bytes)
    requires PipWrites(lab, dir, metadata, direct, record) && lab.pathsBound(owned.site, owned.python)
    ensures var files := PipFiles(lab, dir, metadata, direct, record);
      && dir + "/METADATA" in files
      && Explained(lab, Shown(lab, owned, version, direct, dir, files), [Entry(dir + "/METADATA", metadata)])
  {
    hide Modelled, RecordOk, FilesOk;
    FileNamesDiffer(dir);
    PlainWheelIsModelled(lab, owned, version, dir, metadata, direct, record);
    var files := PipFiles(lab, dir, metadata, direct, record);
    var archive, row := [Entry(dir + "/METADATA", metadata)], Shown(lab, owned, version, direct, dir, files);
    assert GeneratedBytes(row, dir + "/RECORD") == record;
    assert (files - {dir + "/RECORD"})[dir + "/RECORD" := record] == files;
    ShownFilesAreOk(lab, owned, version, direct, dir, files);
    OnlyDirectory(lab, archive[0], dir);
    assert ExplainedBy(lab, row, archive, dir);
  }

  lemma OnlyDirectory(lab: Lab, x: Entry, dir: string)
    requires lab.metadataDirectory(x.name) == Some(dir)
    ensures MetadataDirectories(lab, [x]) == {dir}
  {
    assert [x][0] in [x];
    assert dir in MetadataDirectories(lab, [x]);
  }

  // ---- what is held, and what is not ------------------------------------------------------------------

  /** No active artifact and no declared origin names the distribution. */
  ghost predicate Unheld(w: Wheels, d: string) {
    (forall x | x in w.active :: x.0 != d) && d !in w.origins
  }

  /** The row's files are paths of their own, apart from one another and from every other distribution's. */
  ghost predicate FreePaths(lab: Lab, after: Inventory, d: string, row: Row) {
    && (forall m, n | m in row.files && n in row.files && lab.resolve(row.site, m) == lab.resolve(row.site, n) ::
          m == n)
    && forall x, n | x in AllFiles(after) && x.distribution != d && n in row.files ::
         PathOf(lab, after, x) != lab.resolve(row.site, n)
  }

  /** The inventory with its census digests taken again. */
  ghost function Refreshed(lab: Lab, after: Inventory): Inventory
    requires Apart(lab, after, SiteFiles(lab, after))
  {
    var digest := lab.digest(lab.encodeCensus(Census(lab, after, SiteFiles(lab, after))));
    map d | d in after :: after[d].(siteCensusSha256 := digest)
  }

  lemma PiecesIgnoreTheCensus(lab: Lab, row: Row, archive: Archive, dir: string, sources: map<FileName, Bytes>,
                              digest: string)
    ensures Scripts(lab, row, archive, dir) == Scripts(lab, row.(siteCensusSha256 := digest), archive, dir)
    ensures Bookkeeping(lab, row, dir) == Bookkeeping(lab, row.(siteCensusSha256 := digest), dir)
    ensures Caches(lab, row, sources) == Caches(lab, row.(siteCensusSha256 := digest), sources)
  {
    hide DataOf, CachePaths;
  }

  /** The model of a wheel's files does not look at the census digest. */
  lemma ModelIgnoresTheCensus(lab: Lab, row: Row, archive: Archive, dir: string, digest: string)
    ensures Modelled(lab, row, archive, dir) == Modelled(lab, row.(siteCensusSha256 := digest), archive, dir)
  {
    hide Copied, BytecodeOk, Scripts, Bookkeeping, Caches;
    var other := row.(siteCensusSha256 := digest);
    PiecesIgnoreTheCensus(lab, row, archive, dir, map[], digest);
    var copied, scripts := Copied(lab, archive, dir + "/RECORD"), Scripts(lab, row, archive, dir);
    if copied.Some? && scripts.Some? {
      var sources := copied.value + scripts.value + Bookkeeping(lab, row, dir);
      PiecesIgnoreTheCensus(lab, row, archive, dir, sources, digest);
      forall n | n in sources ensures BytecodeOk(lab, row, n, sources[n]) == BytecodeOk(lab, other, n, sources[n]) {
        BytecodeIgnoresTheCensus(lab, row, n, sources[n], digest);
      }
    }
  }

  lemma ContentsIgnoreTheCensus(lab: Lab, row: Row, archive: Archive, dir: string, digest: string)
    ensures Contents(lab, row, archive, dir) == Contents(lab, row.(siteCensusSha256 := digest), archive, dir)
  {
    hide Modelled;
    ModelIgnoresTheCensus(lab, row, archive, dir, digest);
  }

  lemma BytecodeIgnoresTheCensus(lab: Lab, row: Row, name: FileName, source: Bytes, digest: string)
    ensures BytecodeOk(lab, row, name, source) == BytecodeOk(lab, row.(siteCensusSha256 := digest), name, source)
  {
  }

  lemma FilesIgnoreTheCensus(lab: Lab, row: Row, expected: map<FileName, Bytes>, digest: string)
    ensures FilesOk(lab, row, expected) ==> FilesOk(lab, row.(siteCensusSha256 := digest), expected)
  {
  }

  lemma ExplanationIgnoresTheCensus(lab: Lab, row: Row, archive: Archive, digest: string)
    requires Explained(lab, row, archive)
    ensures Explained(lab, row.(siteCensusSha256 := digest), archive)
  {
    hide RecordOk, Modelled, Contents, FilesOk;
    var other := row.(siteCensusSha256 := digest);
    var dir :| MetadataDirectories(lab, archive) == {dir} && ExplainedBy(lab, row, archive, dir);
    ModelIgnoresTheCensus(lab, row, archive, dir, digest);
    ContentsIgnoreTheCensus(lab, row, archive, dir, digest);
    assert Modelled(lab, row, archive, dir).Some? == Contents(lab, row, archive, dir).Some? by {
      ContentsFollowTheModel(lab, row, archive, dir);
    }
    FilesIgnoreTheCensus(lab, row, Contents(lab, row, archive, dir).value, digest);
    assert GeneratedBytes(row, dir + "/RECORD") == GeneratedBytes(other, dir + "/RECORD");
    assert ExplainedBy(lab, other, archive, dir);
  }

  lemma ContentsFollowTheModel(lab: Lab, row: Row, archive: Archive, dir: string)
    ensures Contents(lab, row, archive, dir).Some? <==> Modelled(lab, row, archive, dir).Some?
  {
    hide Modelled;
  }

  lemma RefreshingKeepsFiles(lab: Lab, after: Inventory)
    requires Apart(lab, after, SiteFiles(lab, after))
    ensures var more := Refreshed(lab, after);
      && AllFiles(more) == AllFiles(after) && SiteFiles(lab, more) == SiteFiles(lab, after)
      && (forall x | x in AllFiles(after) :: PathOf(lab, more, x) == PathOf(lab, after, x))
      && Apart(lab, more, SiteFiles(lab, more))
      && Census(lab, more, SiteFiles(lab, more)) == Census(lab, after, SiteFiles(lab, after))
  {
    var more := Refreshed(lab, after);
    assert AllFiles(more) == AllFiles(after);
  }

  /** The inventory with distribution `d` replaced by a row, of the same interpreter, and the census taken again. */
  ghost function Swapped(lab: Lab, owned: Owned, after: Inventory, d: string, row: Row): Inventory
    requires Apart(lab, after, SiteFiles(lab, after)) && (forall e | e in after :: after[e].site == owned.site)
    requires row.site == owned.site && FreePaths(lab, after, d, row)
  {
    SwappedIsApart(lab, owned, after, d, row);
    Refreshed(lab, after[d := row])
  }

  lemma SwappingKeepsOthers(lab: Lab, after: Inventory, d: string, row: Row)
    ensures AllFiles(after[d := row])
         == (set x | x in AllFiles(after) && x.distribution != d) + (set n | n in row.files :: Located(d, n))
    ensures forall n | n in row.files :: PathOf(lab, after[d := row], Located(d, n)) == lab.resolve(row.site, n)
    ensures forall x | x in AllFiles(after) && x.distribution != d ::
              PathOf(lab, after[d := row], x) == PathOf(lab, after, x)
  {
    var more := after[d := row];
    forall x ensures x in AllFiles(more)
                <==> (x in AllFiles(after) && x.distribution != d) || (x.distribution == d && x.name in row.files) {
    }
  }

  lemma SwappedIsApart(lab: Lab, owned: Owned, after: Inventory, d: string, row: Row)
    requires Apart(lab, after, SiteFiles(lab, after)) && (forall e | e in after :: after[e].site == owned.site)
    requires row.site == owned.site && FreePaths(lab, after, d, row)
    ensures Apart(lab, after[d := row], SiteFiles(lab, after[d := row]))
  {
    hide AllFiles, PathOf;
    SwappingKeepsOthers(lab, after, d, row);
    var more := after[d := row];
    forall x | x in SiteFiles(lab, more) && x.distribution != d ensures x in SiteFiles(lab, after) {
      OfDistribution(after, x);
    }
  }

  lemma OfDistribution(after: Inventory, x: Located)
    requires x in AllFiles(after)
    ensures x.distribution in after
  {
  }

  /** An unheld distribution can be any row whose paths are free, in an inventory that is otherwise the same. */
  lemma UnheldIsAccepted(lab: Lab, owned: Owned, after: Inventory, w: Wheels, d: string, row: Row)
    requires SiteAccepted(lab, owned, after, w) && Unheld(w, d)
    requires row.site == owned.site && row.python == owned.python && FreePaths(lab, after, d, row)
    ensures SiteAccepted(lab, owned, Swapped(lab, owned, after, d, row), w)
  {
    hide Apart, Census, SiteFiles, Explained, AllFiles, FreePaths;
    SwappedIsApart(lab, owned, after, d, row);
    RefreshingKeepsFiles(lab, after[d := row]);
    var more := Swapped(lab, owned, after, d, row);
    forall x | x in w.active ensures x.0 in more && Explained(lab, more[x.0], x.1) {
      ExplanationIgnoresTheCensus(lab, after[x.0], x.1, more[x.0].siteCensusSha256);
    }
    forall e | e in w.origins ensures SourceExplained(lab, more, w, e) {
      assert SourceExplained(lab, after, w, e);
      ExplanationIgnoresTheCensus(lab, after[e], SourceArchive(w, e).value, more[e].siteCensusSha256);
    }
  }

  ghost function SitePaths(lab: Lab, after: Inventory): set<Path> {
    set x | x in SiteFiles(lab, after) :: PathOf(lab, after, x)
  }

  /** The disk with one distribution's files on it. */
  ghost function Overlaid(lab: Lab, site: Path, disk: map<Path, Bytes>, contents: map<FileName, Bytes>)
    : map<Path, Bytes>
    requires forall m, n | m in contents && n in contents && lab.resolve(site, m) == lab.resolve(site, n) :: m == n
  {
    disk + map n | n in contents :: lab.resolve(site, n) := contents[n]
  }

  /** What the inventory program reports of a distribution with these files. */
  function Shown(lab: Lab, owned: Owned, version: string, direct: Option<DirectUrl>, dir: string,
                 contents: map<FileName, Bytes>): Row
    requires dir + "/METADATA" in contents
  {
    Row(version, direct, owned.site, owned.python, map n | n in contents :: lab.digest(contents[n]),
        map n | n in contents :: |contents[n]|, map n | n in contents && lab.isGenerated(n) :: contents[n],
        lab.digest(contents[dir + "/METADATA"]), "")
  }

  /**
   An inventory as the program makes it: true, and of each distribution what its METADATA and its RECORD
   say, which are among its files.
   */
  ghost predicate Reported(lab: Lab, after: Inventory, disk: map<Path, Bytes>, site: set<Path>) {
    && Faithful(lab, after, disk, site)
    && forall d | d in after :: exists dir :: ReadFrom(lab, after[d], dir, disk)
  }

  ghost predicate ReadFrom(lab: Lab, row: Row, dir: string, disk: map<Path, Bytes>) {
    && dir + "/METADATA" in row.files && row.metadataSha256 == row.files[dir + "/METADATA"]
    && dir + "/RECORD" in row.files && lab.resolve(row.site, dir + "/RECORD") in disk
    && RecordLists(lab, disk[lab.resolve(row.site, dir + "/RECORD")], row.files.Keys)
  }

  predicate RecordLists(lab: Lab, record: Bytes, names: set<FileName>) {
    lab.parseRecord(record).Some? && RowNames(lab.parseRecord(record).value) == names
  }

  /** Files that can stand as a distribution: its METADATA, its RECORD that lists them all, and any others. */
  ghost predicate Distributable(lab: Lab, dir: string, contents: map<FileName, Bytes>) {
    && dir + "/METADATA" in contents && dir + "/RECORD" in contents
    && RecordLists(lab, contents[dir + "/RECORD"], contents.Keys)
  }

  lemma ShownIsFaithful(lab: Lab, owned: Owned, version: string, direct: Option<DirectUrl>, dir: string,
                        contents: map<FileName, Bytes>, disk: map<Path, Bytes>)
    requires Distributable(lab, dir, contents)
    requires forall n | n in contents ::
               lab.resolve(owned.site, n) in disk && disk[lab.resolve(owned.site, n)] == contents[n]
    ensures dir + "/METADATA" in contents
    ensures var row := Shown(lab, owned, version, direct, dir, contents);
      RowFaithful(lab, row, disk) && ReadFrom(lab, row, dir, disk)
  {
    hide RecordLists;
    var row := Shown(lab, owned, version, direct, dir, contents);
    forall n | n in contents ensures FileOk(lab, row, n, disk[lab.resolve(owned.site, n)]) {
    }
    assert row.files.Keys == contents.Keys;
  }

  lemma OverlayShows(lab: Lab, site: Path, contents: map<FileName, Bytes>, disk: map<Path, Bytes>, n: FileName)
    requires forall m, n | m in contents && n in contents && lab.resolve(site, m) == lab.resolve(site, n) :: m == n
    requires n in contents
    ensures lab.resolve(site, n) in Overlaid(lab, site, disk, contents)
    ensures Overlaid(lab, site, disk, contents)[lab.resolve(site, n)] == contents[n]
  {
  }

  lemma OverlayingSpares(lab: Lab, owned: Owned, after: Inventory, d: string, row: Row, e: string,
                         contents: map<FileName, Bytes>, disk: map<Path, Bytes>)
    requires row.site == owned.site && row.files.Keys == contents.Keys && FreePaths(lab, after, d, row)
    requires e in after && e != d && RowFaithful(lab, after[e], disk)
    ensures RowFaithful(lab, after[e], Overlaid(lab, owned.site, disk, contents))
    ensures forall dir | ReadFrom(lab, after[e], dir, disk) ::
              ReadFrom(lab, after[e], dir, Overlaid(lab, owned.site, disk, contents))
  {
    hide FileOk, RecordLists;
    var wider := Overlaid(lab, owned.site, disk, contents);
    forall n | n in after[e].files
      ensures lab.resolve(after[e].site, n) in wider
      ensures wider[lab.resolve(after[e].site, n)] == disk[lab.resolve(after[e].site, n)]
    {
      assert Located(e, n) in AllFiles(after) && PathOf(lab, after, Located(e, n)) == lab.resolve(after[e].site, n);
    }
  }

  lemma CensusIsIgnored(lab: Lab, row: Row, digest: string, disk: map<Path, Bytes>)
    requires RowFaithful(lab, row, disk)
    ensures RowFaithful(lab, row.(siteCensusSha256 := digest), disk)
    ensures forall dir | ReadFrom(lab, row, dir, disk) :: ReadFrom(lab, row.(siteCensusSha256 := digest), dir, disk)
  {
  }

  lemma CensusOfADisk(lab: Lab, after: Inventory, disk: map<Path, Bytes>)
    requires Apart(lab, after, SiteFiles(lab, after)) && forall d | d in after :: RowFaithful(lab, after[d], disk)
    ensures SitePaths(lab, after) <= disk.Keys
    ensures Census(lab, after, SiteFiles(lab, after)) == map p | p in SitePaths(lab, after) :: lab.digest(disk[p])
  {
  }

  /** An inventory whose rows are true and explained is accepted and reported, once its census is taken. */
  lemma TakenCensusIsAccepted(lab: Lab, owned: Owned, plain: Inventory, w: Wheels, disk: map<Path, Bytes>)
    requires Apart(lab, plain, SiteFiles(lab, plain))
    requires forall d | d in plain :: plain[d].site == owned.site && plain[d].python == owned.python
    requires forall d | d in plain ::
               RowFaithful(lab, plain[d], disk) && exists dir :: ReadFrom(lab, plain[d], dir, disk)
    requires forall x | x in w.active :: x.0 in plain && Explained(lab, plain[x.0], x.1)
    requires forall d | d in w.origins :: SourceExplained(lab, plain, w, d)
    ensures SiteAccepted(lab, owned, Refreshed(lab, plain), w)
    ensures Reported(lab, Refreshed(lab, plain), disk, SitePaths(lab, Refreshed(lab, plain)))
  {
    hide Apart, Census, SiteFiles, Explained, AllFiles, RowFaithful, ReadFrom, SitePaths;
    RefreshingKeepsFiles(lab, plain);
    var more := Refreshed(lab, plain);
    forall x | x in w.active ensures x.0 in more && Explained(lab, more[x.0], x.1) {
      ExplanationIgnoresTheCensus(lab, plain[x.0], x.1, more[x.0].siteCensusSha256);
    }
    forall e | e in w.origins ensures SourceExplained(lab, more, w, e) {
      assert SourceExplained(lab, plain, w, e);
      ExplanationIgnoresTheCensus(lab, plain[e], SourceArchive(w, e).value, more[e].siteCensusSha256);
    }
    forall e | e in more ensures RowFaithful(lab, more[e], disk) && exists dir :: ReadFrom(lab, more[e], dir, disk) {
      CensusIsIgnored(lab, plain[e], more[e].siteCensusSha256, disk);
      var dir :| ReadFrom(lab, plain[e], dir, disk);
      assert ReadFrom(lab, more[e], dir, disk);
    }
    CensusOfADisk(lab, more, disk);
  }

  /** Once those files are on the disk, the inventory with the distribution replaced is what the program reports. */
  lemma UnheldIsReported(lab: Lab, owned: Owned, after: Inventory, d: string, version: string,
                         direct: Option<DirectUrl>, dir: string, contents: map<FileName, Bytes>,
                         disk: map<Path, Bytes>, site: set<Path>)
    requires Apart(lab, after, SiteFiles(lab, after)) && (forall e | e in after :: after[e].site == owned.site)
    requires Reported(lab, after, disk, site) && Distributable(lab, dir, contents)
    requires FreePaths(lab, after, d, Shown(lab, owned, version, direct, dir, contents))
    ensures var row := Shown(lab, owned, version, direct, dir, contents);
      var more := Swapped(lab, owned, after, d, row);
      Reported(lab, more, Overlaid(lab, owned.site, disk, contents), SitePaths(lab, more))
  {
    hide Apart, Census, SiteFiles, RowFaithful, ReadFrom, FreePaths, RecordLists, SitePaths, Overlaid, AllFiles, PathOf;
    var row := Shown(lab, owned, version, direct, dir, contents);
    assert forall m, n | m in contents && n in contents
             && lab.resolve(owned.site, m) == lab.resolve(owned.site, n) :: m == n by {
      OwnPathsDiffer(lab, after, d, row);
    }
    var more, wider := Swapped(lab, owned, after, d, row), Overlaid(lab, owned.site, disk, contents);
    SwappedIsApart(lab, owned, after, d, row);
    RefreshingKeepsFiles(lab, after[d := row]);
    forall e | e in more ensures RowFaithful(lab, more[e], wider) && exists at :: ReadFrom(lab, more[e], at, wider) {
      var plain := after[d := row][e];
      if e == d {
        forall n | n in contents
          ensures lab.resolve(owned.site, n) in wider && wider[lab.resolve(owned.site, n)] == contents[n]
        {
          OverlayShows(lab, owned.site, contents, disk, n);
        }
        ShownIsFaithful(lab, owned, version, direct, dir, contents, wider);
      } else {
        OverlayingSpares(lab, owned, after, d, row, e, contents, disk);
        var at :| ReadFrom(lab, after[e], at, disk);
        assert ReadFrom(lab, plain, at, wider);
      }
      CensusIsIgnored(lab, plain, more[e].siteCensusSha256, wider);
      var at :| ReadFrom(lab, plain, at, wider);
      assert more[e] == plain.(siteCensusSha256 := more[e].siteCensusSha256);
      assert ReadFrom(lab, more[e], at, wider);
    }
    CensusOfADisk(lab, more, wider);
  }

  lemma OwnPathsDiffer(lab: Lab, after: Inventory, d: string, row: Row)
    requires FreePaths(lab, after, d, row)
    ensures forall m, n | m in row.files && n in row.files && lab.resolve(row.site, m) == lab.resolve(row.site, n) ::
              m == n
  {
  }

  lemma ContentsHaveAnInstaller(lab: Lab, row: Row, archive: Archive, dir: string)
    requires Contents(lab, row, archive, dir).Some?
    ensures dir + "/INSTALLER" in Contents(lab, row, archive, dir).value
  {
    hide Copied, Scripts, Caches;
  }

  /** No installer left its name. */
  ghost predicate Unsigned(names: set<FileName>) {
    forall dir: string :: dir + "/INSTALLER" !in names
  }

  /** A distribution that pip did not sign is the contents of no wheel at all. */
  lemma UnsignedIsNoWheel(lab: Lab, row: Row, archive: Archive, dir: string, disk: map<Path, Bytes>)
    requires Unsigned(row.files.Keys)
    ensures !ExactOnDisk(lab, row, archive, dir, disk)
  {
    hide Contents;
    if ExactOnDisk(lab, row, archive, dir, disk) {
      ContentsHaveAnInstaller(lab, row, archive, dir);
    }
  }

  /** Every accepted inventory the program can report has a wheel's exact contents for the distribution. */
  ghost predicate ExactnessGuaranteed(lab: Lab, owned: Owned, w: Wheels, d: string) {
    forall after, disk, site | SiteAccepted(lab, owned, after, w) && Reported(lab, after, disk, site) && d in after ::
      exists archive, dir :: ExactOnDisk(lab, after[d], archive, dir, disk)
  }

  /**
   What verification does not see: in any accepted inventory a distribution held against nothing can be
   replaced by any files whose paths are free, and the result is again accepted and reported of a disk.
   */
  lemma UnheldDistributionsAreUnchecked(lab: Lab, owned: Owned, after: Inventory, w: Wheels, d: string, version: string,
                                        direct: Option<DirectUrl>, dir: string, contents: map<FileName, Bytes>,
                                        disk: map<Path, Bytes>, site: set<Path>)
    requires SiteAccepted(lab, owned, after, w) && Reported(lab, after, disk, site) && Unheld(w, d)
    requires Distributable(lab, dir, contents)
    requires FreePaths(lab, after, d, Shown(lab, owned, version, direct, dir, contents))
    ensures exists more, wider ::
              && SiteAccepted(lab, owned, more, w) && Reported(lab, more, wider, SitePaths(lab, more))
              && more.Keys == after.Keys + {d} && more[d].version == version && more[d].directUrl == direct
              && more[d].files.Keys == contents.Keys
              && (forall n | n in contents ::
                    lab.resolve(owned.site, n) in wider && wider[lab.resolve(owned.site, n)] == contents[n])
              && forall e | e in after && e != d :: more[e].files == after[e].files
  {
    hide SiteAccepted, Reported, ReadFrom, RowFaithful, SitePaths, FreePaths, Apart, SiteFiles, Census, Overlaid,
         RecordLists, Refreshed;
    AcceptedIsApart(lab, owned, after, w);
    var row := Shown(lab, owned, version, direct, dir, contents);
    UnheldIsAccepted(lab, owned, after, w, d, row);
    UnheldIsReported(lab, owned, after, d, version, direct, dir, contents, disk, site);
    OwnPathsDiffer(lab, after, d, row);
    var more, wider := Swapped(lab, owned, after, d, row), Overlaid(lab, owned.site, disk, contents);
    SwappedIs(lab, owned, after, d, row);
    forall n | n in contents
      ensures lab.resolve(owned.site, n) in wider && wider[lab.resolve(owned.site, n)] == contents[n]
    {
      OverlayShows(lab, owned.site, contents, disk, n);
    }
    assert SiteAccepted(lab, owned, more, w) && Reported(lab, more, wider, SitePaths(lab, more));
  }

  /** Only the census digests of the others change. */
  lemma SwappedIs(lab: Lab, owned: Owned, after: Inventory, d: string, row: Row)
    requires Apart(lab, after, SiteFiles(lab, after)) && (forall e | e in after :: after[e].site == owned.site)
    requires row.site == owned.site && FreePaths(lab, after, d, row)
    ensures var more := Swapped(lab, owned, after, d, row);
      && more.Keys == after.Keys + {d}
      && forall e | e in more :: more[e] == after[d := row][e].(siteCensusSha256 := more[e].siteCensusSha256)
  {
    hide Apart, FreePaths, Census;
    SwappedIsApart(lab, owned, after, d, row);
  }

  lemma AcceptedIsApart(lab: Lab, owned: Owned, after: Inventory, w: Wheels)
    requires SiteAccepted(lab, owned, after, w)
    ensures Apart(lab, after, SiteFiles(lab, after))
    ensures forall e | e in after :: after[e].site == owned.site && after[e].python == owned.python
  {
  }

  /**
   Wherever some inventory is accepted and there are files free to stand for the distribution that pip did
   not sign: exact contents are guaranteed for what is held, and only for that.
   */
  lemma ExactnessIsGuaranteedIff(lab: Lab, owned: Owned, after: Inventory, w: Wheels, d: string, dir: string,
                                 contents: map<FileName, Bytes>, disk: map<Path, Bytes>, site: set<Path>)
    requires SiteAccepted(lab, owned, after, w) && Reported(lab, after, disk, site) && Injective(lab.digest)
    requires Distributable(lab, dir, contents) && Unsigned(contents.Keys)
    requires FreePaths(lab, after, d, Shown(lab, owned, "", None, dir, contents))
    ensures ExactnessGuaranteed(lab, owned, w, d) <==> !Unheld(w, d)
  {
    hide SiteAccepted, Faithful, ReadFrom, ExactOnDisk, RecordMatchesDisk, FreePaths, Distributable;
    if Unheld(w, d) {
      UnheldDistributionsAreUnchecked(lab, owned, after, w, d, "", None, dir, contents, disk, site);
      var more: Inventory, wider: map<Path, Bytes> :|
        && SiteAccepted(lab, owned, more, w) && Reported(lab, more, wider, SitePaths(lab, more))
        && d in more && more[d].files.Keys == contents.Keys;
      forall archive, at ensures !ExactOnDisk(lab, more[d], archive, at, wider) {
        UnsignedIsNoWheel(lab, more[d], archive, at, wider);
      }
    } else {
      forall other, wider, paths
        | SiteAccepted(lab, owned, other, w) && Reported(lab, other, wider, paths) && d in other
        ensures exists archive, at :: ExactOnDisk(lab, other[d], archive, at, wider)
      {
        var archive := ArchiveOf(lab, owned, other, w, d);
        HeldDistributionsAreExact(lab, owned, other, w, wider, paths, d, archive);
      }
    }
  }

  lemma ArchiveOf(lab: Lab, owned: Owned, after: Inventory, w: Wheels, d: string) returns (archive: Archive)
    requires SiteAccepted(lab, owned, after, w) && !Unheld(w, d)
    ensures HeldAgainst(w, d, archive)
  {
    hide Apart, Census, SiteFiles, Explained;
    if d in w.origins {
      archive := SourceArchive(w, d).value;
    } else {
      var x :| x in w.active && x.0 == d;
      archive := x.1;
      assert x == (d, archive);
    }
  }
}
