/** Wheels that hold METADATA alone, installed by pip side by side: the simplest inventories that are accepted. */
module PlainInstalls {
  import opened Common
  import Site = SiteCensus

  /** One installed wheel that holds METADATA alone, with the RECORD pip writes of it. */
  datatype Install = Install(
    name: string, version: string, direct: Option<Site.DirectUrl>, dir: string, metadata: Site.Bytes,
    record: Site.Bytes)

  function WheelOf(x: Install): Site.Archive {
    [Site.Entry(x.dir + "/METADATA", x.metadata)]
  }

  function FilesOf(lab: Site.Lab, x: Install): map<Site.FileName, Site.Bytes> {
    Site.PipFiles(lab, x.dir, x.metadata, x.direct, x.record)
  }

  function RowOf(lab: Site.Lab, owned: Site.Owned, x: Install): Site.Row {
    Site.Shown(lab, owned, x.version, x.direct, x.dir, FilesOf(lab, x))
  }

  /** Distinct names, and distinct paths for all their files. */
  ghost predicate SideBySide(lab: Site.Lab, owned: Site.Owned, installs: seq<Install>) {
    && (forall i, j | 0 <= i < j < |installs| :: installs[i].name != installs[j].name)
    && forall i, j, m, n | 0 <= i < |installs| && 0 <= j < |installs|
         && m in FilesOf(lab, installs[i]) && n in FilesOf(lab, installs[j])
         && lab.resolve(owned.site, m) == lab.resolve(owned.site, n) :: i == j && m == n
  }

  ghost predicate WrittenByPip(lab: Site.Lab, x: Install) {
    Site.PipWrites(lab, x.dir, x.metadata, x.direct, x.record)
  }

  /** All rows of some installs, before their census is taken. */
  ghost function PlainRows(lab: Site.Lab, owned: Site.Owned, installs: seq<Install>): Site.Inventory
    requires SideBySide(lab, owned, installs)
  {
    map i | 0 <= i < |installs| :: installs[i].name := RowOf(lab, owned, installs[i])
  }

  lemma PlainRowsAre(lab: Site.Lab, owned: Site.Owned, installs: seq<Install>)
    requires SideBySide(lab, owned, installs)
    ensures forall i | 0 <= i < |installs| ::
              && installs[i].name in PlainRows(lab, owned, installs)
              && PlainRows(lab, owned, installs)[installs[i].name] == RowOf(lab, owned, installs[i])
    ensures forall d | d in PlainRows(lab, owned, installs) :: exists i :: 0 <= i < |installs| && installs[i].name == d
  {
    hide RowOf, FilesOf;
  }

  lemma RowOfIs(lab: Site.Lab, owned: Site.Owned, x: Install)
    ensures RowOf(lab, owned, x).site == owned.site && RowOf(lab, owned, x).python == owned.python
    ensures RowOf(lab, owned, x).version == x.version && RowOf(lab, owned, x).directUrl == x.direct
    ensures RowOf(lab, owned, x).files.Keys == FilesOf(lab, x).Keys
  {
  }

  lemma SideBySideIsApart(lab: Site.Lab, owned: Site.Owned, installs: seq<Install>)
    requires SideBySide(lab, owned, installs)
    ensures Site.Apart(lab, PlainRows(lab, owned, installs), Site.SiteFiles(lab, PlainRows(lab, owned, installs)))
    ensures forall d | d in PlainRows(lab, owned, installs) ::
              && PlainRows(lab, owned, installs)[d].site == owned.site
              && PlainRows(lab, owned, installs)[d].python == owned.python
  {
    hide RowOf, FilesOf, PlainRows;
    PlainRowsAre(lab, owned, installs);
    var rows := PlainRows(lab, owned, installs);
    forall d | d in rows ensures rows[d].site == owned.site && rows[d].python == owned.python {
      var i :| 0 <= i < |installs| && installs[i].name == d;
      RowOfIs(lab, owned, installs[i]);
    }
    forall x, y | x in Site.AllFiles(rows) && y in Site.AllFiles(rows)
                  && Site.PathOf(lab, rows, x) == Site.PathOf(lab, rows, y)
      ensures x == y
    {
      var i :| 0 <= i < |installs| && installs[i].name == x.distribution;
      var j :| 0 <= j < |installs| && installs[j].name == y.distribution;
      RowOfIs(lab, owned, installs[i]);
      RowOfIs(lab, owned, installs[j]);
    }
  }

  /** A disk that has the files of all installs. */
  ghost predicate OnDisk(lab: Site.Lab, owned: Site.Owned, installs: seq<Install>, disk: map<Site.Path, Site.Bytes>) {
    forall i, n | 0 <= i < |installs| && n in FilesOf(lab, installs[i]) ::
      && lab.resolve(owned.site, n) in disk
      && disk[lab.resolve(owned.site, n)] == FilesOf(lab, installs[i])[n]
  }

  ghost predicate Recorded(lab: Site.Lab, x: Install) {
    Site.Distributable(lab, x.dir, FilesOf(lab, x))
  }

  lemma RowsAreTrue(lab: Site.Lab, owned: Site.Owned, installs: seq<Install>, disk: map<Site.Path, Site.Bytes>, i: nat)
    requires i < |installs| && Recorded(lab, installs[i]) && OnDisk(lab, owned, installs, disk)
    ensures Site.RowFaithful(lab, RowOf(lab, owned, installs[i]), disk)
    ensures exists dir :: Site.ReadFrom(lab, RowOf(lab, owned, installs[i]), dir, disk)
  {
    hide FilesOf, Site.RowFaithful, Site.ReadFrom, Site.Distributable;
    var x := installs[i];
    Site.ShownIsFaithful(lab, owned, x.version, x.direct, x.dir, FilesOf(lab, x), disk);
  }

  ghost function Inventoried(lab: Site.Lab, owned: Site.Owned, installs: seq<Install>): Site.Inventory
    requires SideBySide(lab, owned, installs)
  {
    SideBySideIsApart(lab, owned, installs);
    Site.Refreshed(lab, PlainRows(lab, owned, installs))
  }

  /** What is installed side by side is accepted when everything held against a wheel was installed from it. */
  lemma SideBySideIsAccepted(lab: Site.Lab, owned: Site.Owned, installs: seq<Install>, w: Site.Wheels,
                             disk: map<Site.Path, Site.Bytes>)
    requires SideBySide(lab, owned, installs) && OnDisk(lab, owned, installs, disk)
    requires forall x | x in installs :: Recorded(lab, x)
    requires forall x | x in w.active :: x.0 in PlainRows(lab, owned, installs)
                                        && Site.Explained(lab, PlainRows(lab, owned, installs)[x.0], x.1)
    requires forall d | d in w.origins :: Site.SourceExplained(lab, PlainRows(lab, owned, installs), w, d)
    ensures Site.SiteAccepted(lab, owned, Inventoried(lab, owned, installs), w)
    ensures Site.Reported(lab, Inventoried(lab, owned, installs), disk,
                          Site.SitePaths(lab, Inventoried(lab, owned, installs)))
  {
    hide RowOf, FilesOf, Site.Refreshed, Site.Explained, Site.SourceExplained, Site.RowFaithful, Site.ReadFrom,
         Recorded, Site.Apart, Site.SiteFiles, OnDisk, PlainRows, SideBySide;
    SideBySideIsApart(lab, owned, installs);
    PlainRowsAre(lab, owned, installs);
    var plain := PlainRows(lab, owned, installs);
    forall d | d in plain
      ensures Site.RowFaithful(lab, plain[d], disk) && exists dir :: Site.ReadFrom(lab, plain[d], dir, disk)
    {
      var i :| 0 <= i < |installs| && installs[i].name == d;
      RowsAreTrue(lab, owned, installs, disk, i);
    }
    Site.TakenCensusIsAccepted(lab, owned, plain, w, disk);
  }

  lemma InventoriedIs(lab: Site.Lab, owned: Site.Owned, installs: seq<Install>)
    requires SideBySide(lab, owned, installs)
    ensures forall i | 0 <= i < |installs| ::
              && installs[i].name in Inventoried(lab, owned, installs)
              && Inventoried(lab, owned, installs)[installs[i].name].version == installs[i].version
              && Inventoried(lab, owned, installs)[installs[i].name].directUrl == installs[i].direct
    ensures forall d | d in Inventoried(lab, owned, installs) ::
              exists i :: 0 <= i < |installs| && installs[i].name == d
  {
    hide RowOf, SideBySide, PlainRows, Site.Apart, Site.SiteFiles;
    PlainRowsAre(lab, owned, installs);
    SideBySideIsApart(lab, owned, installs);
    forall i | 0 <= i < |installs|
      ensures installs[i].name in Inventoried(lab, owned, installs)
      ensures Inventoried(lab, owned, installs)[installs[i].name].version == installs[i].version
      ensures Inventoried(lab, owned, installs)[installs[i].name].directUrl == installs[i].direct
    {
      RowOfIs(lab, owned, installs[i]);
    }
  }

  /** What a wheel of METADATA alone explains among the rows of several installs. */
  lemma InstallIsExplained(lab: Site.Lab, owned: Site.Owned, installs: seq<Install>, i: nat)
    requires SideBySide(lab, owned, installs) && i < |installs| && WrittenByPip(lab, installs[i])
    requires lab.pathsBound(owned.site, owned.python)
    ensures installs[i].name in PlainRows(lab, owned, installs)
    ensures Site.Explained(lab, PlainRows(lab, owned, installs)[installs[i].name], WheelOf(installs[i]))
  {
    hide SideBySide, PlainRows, Site.Explained, Site.PipWrites;
    PlainRowsAre(lab, owned, installs);
    var x := installs[i];
    Site.PlainWheelIsExplained(lab, owned, x.version, x.dir, x.metadata, x.direct, x.record);
  }

  lemma ThreeInventoried(lab: Site.Lab, owned: Site.Owned, x: Install, y: Install, z: Install)
    requires SideBySide(lab, owned, [x, y, z])
    ensures var after := Inventoried(lab, owned, [x, y, z]);
      && after.Keys == {x.name, y.name, z.name} && after[x.name].version == x.version
      && after[y.name].version == y.version && after[z.name].version == z.version && after[y.name].directUrl == y.direct
  {
    hide SideBySide, Inventoried;
    var installs := [x, y, z];
    InventoriedIs(lab, owned, installs);
    assert installs[0] == x && installs[1] == y && installs[2] == z;
  }

  lemma OneInventoried(lab: Site.Lab, owned: Site.Owned, x: Install)
    requires SideBySide(lab, owned, [x])
    ensures Inventoried(lab, owned, [x]).Keys == {x.name} && Inventoried(lab, owned, [x])[x.name].version == x.version
  {
    hide SideBySide, Inventoried;
    InventoriedIs(lab, owned, [x]);
    assert [x][0] == x;
  }

  lemma FilesAreInTheirDirectory(lab: Site.Lab, x: Install)
    ensures forall n | n in FilesOf(lab, x) :: |x.dir| < |n| && n[..|x.dir|] == x.dir
  {
  }

  lemma FileNamesAre(lab: Site.Lab, x: Install)
    ensures FilesOf(lab, x).Keys == {x.dir + "/METADATA", x.dir + "/INSTALLER", x.dir + "/RECORD"}
                                  + if x.direct.None? then {} else {x.dir + "/direct_url.json"}
  {
  }

  lemma FilesAre(lab: Site.Lab, x: Install)
    ensures FilesOf(lab, x) == Site.PipFiles(lab, x.dir, x.metadata, x.direct, x.record)
  {
  }

  lemma ContentsAre(lab: Site.Lab, x: Install)
    ensures var files := FilesOf(lab, x);
      && x.dir + "/METADATA" in files && files[x.dir + "/METADATA"] == x.metadata
      && x.dir + "/INSTALLER" in files && files[x.dir + "/INSTALLER"] == Site.PIP
      && x.dir + "/RECORD" in files && files[x.dir + "/RECORD"] == x.record
      && (x.direct.Some? ==> x.dir + "/direct_url.json" in files
                             && files[x.dir + "/direct_url.json"] == lab.encodeDirectUrl(x.direct.value))
  {
    Site.FileNamesDiffer(x.dir);
  }
}
