/**
 The ETL example: normalize and validate source rows, plan an upsert against a filtered
 snapshot of the target, apply it atomically, and converge.
 */
module EtlUpsert {
  import opened Common
  import Layer = FeatureStore

  /** A cell of the source frame: missing, or the text of its value. */
  datatype Cell = Missing | Text(text: string)

  /** Geometry is only ever tested for emptiness and validity. */
  datatype Geometry = Geometry(isEmpty: bool, isValid: bool, x: real, y: real)

  datatype SourceRow = SourceRow(
    uid: Cell, name: Cell, status: Cell, count: Option<int>, hasX: bool, hasY: bool, geometry: Option<Geometry>)

  /** A frame row with its index label; pandas does not require labels to be distinct. */
  datatype Labelled = Labelled(index: int, row: SourceRow)

  type Frame = seq<Labelled>

  datatype Reason =
    | MissingUid | DuplicateUid | MissingName | MissingStatus | MissingCoordinates | NullGeometry | InvalidGeometry

  datatype Issue = Issue(position: nat, uid: Option<string>, reasons: seq<Reason>)

  // ---- normalization ---------------------------------------------------------------------

  /** The characters `str.strip` removes: every Unicode white space. */
  predicate IsSpace(c: char) {
    || '\U{9}' <= c <= '\U{D}' || '\U{1C}' <= c <= '\U{20}' || c == '\U{85}' || c == '\U{A0}' || c == '\U{1680}'
    || '\U{2000}' <= c <= '\U{200A}' || c == '\U{2028}' || c == '\U{2029}' || c == '\U{202F}' || c == '\U{205F}'
    || c == '\U{3000}'
  }

  const SPACES := {
    '\U{9}', '\U{A}', '\U{B}', '\U{C}', '\U{D}', '\U{1C}', '\U{1D}', '\U{1E}', '\U{1F}', '\U{20}', '\U{85}',
    '\U{A0}', '\U{1680}', '\U{2000}', '\U{2001}', '\U{2002}', '\U{2003}', '\U{2004}', '\U{2005}', '\U{2006}',
    '\U{2007}', '\U{2008}', '\U{2009}', '\U{200A}', '\U{2028}', '\U{2029}', '\U{202F}', '\U{205F}', '\U{3000}'
  }

  /** The twenty-nine characters of white space, one by one. */
  lemma SpacesAre(c: char)
    ensures IsSpace(c) <==> c in SPACES
  {
  }

  function StripLeft(s: string): (r: string)
    ensures r != [] ==> !IsSpace(r[0])
    ensures |r| <= |s| && r == s[|s| - |r|..]
  {
    if s != [] && IsSpace(s[0]) then StripLeft(s[1..]) else s
  }

  function StripRight(s: string): (r: string)
    ensures r != [] ==> !IsSpace(r[|r| - 1])
    ensures |r| <= |s| && r == s[..|r|]
  {
    if s != [] && IsSpace(s[|s| - 1]) then StripRight(s[..|s| - 1]) else s
  }

  function Strip(s: string): string {
    StripRight(StripLeft(s))
  }

  function NormalizeText(c: Cell): Option<string> {
    match c
    case Missing => None
    case Text(s) => if Strip(s) == "" then None else Some(Strip(s))
  }

  function AsCell(t: Option<string>): Cell {
    if t.Some? then Text(t.value) else Missing
  }

  function LowerChar(c: char): char {
    if 'A' <= c <= 'Z' then (c as int + 32) as char else c
  }

  function Lower(s: string): string {
    seq(|s|, i requires 0 <= i < |s| => LowerChar(s[i]))
  }

  function NormalizeStatus(c: Cell): Option<string> {
    var t := NormalizeText(c);
    if t.Some? then Some(Lower(t.value)) else None
  }

  function NormalizeRow(r: SourceRow): SourceRow {
    r.(uid := AsCell(NormalizeText(r.uid)), name := AsCell(NormalizeText(r.name)),
       status := AsCell(NormalizeStatus(r.status)))
  }

  function Normalize(frame: Frame): Frame {
    seq(|frame|, i requires 0 <= i < |frame| => frame[i].(row := NormalizeRow(frame[i].row)))
  }

  lemma {:induction false} StripIsIdempotent(s: string)
    ensures Strip(Strip(s)) == Strip(s)
  {
    var t := Strip(s);
    if t != [] {
      assert t[0] == StripLeft(s)[0];
    }
  }

  /** Validation sees a normalized row's uid as it is, so the planner and the validator agree on it. */
  lemma NormalizedUidIsStable(r: SourceRow)
    ensures NormalizeText(NormalizeRow(r).uid) == NormalizeText(r.uid)
    ensures NormalizeRow(r).uid == AsCell(NormalizeText(r.uid))
  {
    if r.uid.Text? {
      StripIsIdempotent(r.uid.text);
    }
  }

  // ---- validation --------------------------------------------------------------------------

  function UidAt(frame: Frame, i: nat): Option<string>
    requires i < |frame|
  {
    NormalizeText(frame[i].row.uid)
  }

  /** An earlier row, valid or rejected, already carried this uid. */
  predicate SeenBefore(frame: Frame, i: nat)
    requires i < |frame|
  {
    exists j | 0 <= j < i :: UidAt(frame, j) == UidAt(frame, i)
  }

  function TextReasons(r: SourceRow): seq<Reason> {
    (if NormalizeText(r.name).None? then [MissingName] else [])
    + if NormalizeText(r.status).None? then [MissingStatus] else []
  }

  function PlaceReasons(r: SourceRow): seq<Reason> {
    if !r.hasX || !r.hasY then [MissingCoordinates]
    else if r.geometry.None? || r.geometry.value.isEmpty then [NullGeometry]
    else if !r.geometry.value.isValid then [InvalidGeometry]
    else []
  }

  function OtherReasons(r: SourceRow): seq<Reason> {
    TextReasons(r) + PlaceReasons(r)
  }

  function ReasonsAt(frame: Frame, i: nat): seq<Reason>
    requires i < |frame|
  {
    (if UidAt(frame, i).None? then [MissingUid] else if SeenBefore(frame, i) then [DuplicateUid] else [])
    + OtherReasons(frame[i].row)
  }

  /** Every check other than the earlier rows' uids passes and the uid is the first of its kind. */
  predicate AcceptsAt(frame: Frame, i: nat)
    requires i < |frame|
  {
    ReasonsAt(frame, i) == []
  }

  /** A row is valid exactly when its uid is the first occurrence among all earlier rows and its other checks pass. */
  lemma AcceptedExactlyWhenFirst(frame: Frame, i: nat)
    requires i < |frame|
    ensures AcceptsAt(frame, i) <==>
              && UidAt(frame, i).Some? && !SeenBefore(frame, i)
              && NormalizeText(frame[i].row.name).Some? && NormalizeText(frame[i].row.status).Some?
              && frame[i].row.hasX && frame[i].row.hasY
              && frame[i].row.geometry.Some? && !frame[i].row.geometry.value.isEmpty
              && frame[i].row.geometry.value.isValid
  {
    hide UidAt, SeenBefore, NormalizeText;
    var uidReasons := if UidAt(frame, i).None? then [MissingUid]
                      else if SeenBefore(frame, i) then [DuplicateUid] else [];
    assert |ReasonsAt(frame, i)| == |uidReasons| + |OtherReasons(frame[i].row)|;
  }

  /** The positions below `n` that validation accepts, in order. */
  function AcceptedPositions(frame: Frame, n: nat): seq<nat>
    requires n <= |frame|
  {
    if n == 0 then [] else AcceptedPositions(frame, n - 1) + if AcceptsAt(frame, n - 1) then [n - 1] else []
  }

  function RejectedIssues(frame: Frame, n: nat): seq<Issue>
    requires n <= |frame|
  {
    if n == 0 then []
    else RejectedIssues(frame, n - 1)
         + if AcceptsAt(frame, n - 1) then []
           else [Issue(n - 1, UidAt(frame, n - 1), ReasonsAt(frame, n - 1))]
  }

  predicate Increasing(positions: seq<nat>) {
    forall a, b | 0 <= a < b < |positions| :: positions[a] < positions[b]
  }

  function Positions(issues: seq<Issue>): seq<nat> {
    seq(|issues|, i requires 0 <= i < |issues| => issues[i].position)
  }

  lemma IncreasingAppends(positions: seq<nat>, n: nat)
    requires Increasing(positions) && forall p | p in positions :: p < n
    ensures Increasing(positions + [n])
  {
    assert forall a | 0 <= a < |positions| :: positions[a] in positions;
  }

  lemma {:induction false} AcceptedInOrder(frame: Frame, n: nat)
    requires n <= |frame|
    ensures Increasing(AcceptedPositions(frame, n))
    ensures forall k: nat :: k in AcceptedPositions(frame, n) <==> k < n && AcceptsAt(frame, k)
  {
    hide AcceptsAt, Increasing;
    if n > 0 {
      AcceptedInOrder(frame, n - 1);
      var before := AcceptedPositions(frame, n - 1);
      IncreasingAppends(before, n - 1);
      assert AcceptedPositions(frame, n) == if AcceptsAt(frame, n - 1) then before + [n - 1] else before;
    } else {
      NothingIncreases();
    }
  }

  lemma NothingIncreases()
    ensures Increasing([])
  {
  }

  lemma {:induction false} RejectedInOrder(frame: Frame, n: nat)
    requires n <= |frame|
    ensures Increasing(Positions(RejectedIssues(frame, n)))
    ensures forall k: nat :: k in Positions(RejectedIssues(frame, n)) <==> k < n && !AcceptsAt(frame, k)
    ensures forall x | x in RejectedIssues(frame, n) ::
              x.position < n && x.uid == UidAt(frame, x.position) && x.reasons == ReasonsAt(frame, x.position)
  {
    hide AcceptsAt, ReasonsAt, UidAt, Increasing;
    if n > 0 {
      RejectedInOrder(frame, n - 1);
      var before, after := Positions(RejectedIssues(frame, n - 1)), Positions(RejectedIssues(frame, n));
      assert after == if AcceptsAt(frame, n - 1) then before else before + [n - 1];
      IncreasingAppends(before, n - 1);
    } else {
      NothingIncreases();
      assert Positions(RejectedIssues(frame, 0)) == [];
    }
  }

  lemma {:induction false} EveryRowGoesSomewhere(frame: Frame, n: nat)
    requires n <= |frame|
    ensures |AcceptedPositions(frame, n)| + |RejectedIssues(frame, n)| == n
  {
    hide AcceptsAt, ReasonsAt, UidAt;
    if n > 0 {
      EveryRowGoesSomewhere(frame, n - 1);
    }
  }

  /** Accepted and rejected positions are both in order, and split the frame between them. */
  lemma ValidationPartitions(frame: Frame, n: nat)
    requires n <= |frame|
    ensures Increasing(AcceptedPositions(frame, n)) && Increasing(Positions(RejectedIssues(frame, n)))
    ensures forall k: nat :: k in AcceptedPositions(frame, n) <==> k < n && AcceptsAt(frame, k)
    ensures forall k: nat :: k in Positions(RejectedIssues(frame, n)) <==> k < n && !AcceptsAt(frame, k)
    ensures |AcceptedPositions(frame, n)| + |RejectedIssues(frame, n)| == n
    ensures forall x | x in RejectedIssues(frame, n) ::
              x.position < n && x.uid == UidAt(frame, x.position) && x.reasons == ReasonsAt(frame, x.position)
  {
    hide *;
    AcceptedInOrder(frame, n);
    RejectedInOrder(frame, n);
    EveryRowGoesSomewhere(frame, n);
  }

  /** Accepted rows carry pairwise distinct uids. */
  lemma AcceptedUidsAreDistinct(frame: Frame, i: nat, j: nat)
    requires i < j < |frame| && AcceptsAt(frame, i) && AcceptsAt(frame, j)
    ensures UidAt(frame, i).Some? && UidAt(frame, j).Some? && UidAt(frame, i) != UidAt(frame, j)
  {
    AcceptedExactlyWhenFirst(frame, i);
    AcceptedExactlyWhenFirst(frame, j);
  }

  /** `frame.loc[labels]`: for each label, every row that carries it. */
  function RowsLabelled(frame: Frame, index: int): seq<Labelled> {
    if frame == [] then []
    else RowsLabelled(frame[..|frame| - 1], index)
         + if frame[|frame| - 1].index == index then [frame[|frame| - 1]] else []
  }

  function Loc(frame: Frame, labels: seq<int>): seq<Labelled> {
    if labels == [] then []
    else Loc(frame, labels[..|labels| - 1]) + RowsLabelled(frame, labels[|labels| - 1])
  }

  function AcceptedLabels(frame: Frame, n: nat): seq<int>
    requires n <= |frame|
  {
    if n == 0 then [] else AcceptedLabels(frame, n - 1) + if AcceptsAt(frame, n - 1) then [frame[n - 1].index] else []
  }

  /** The valid frame: the rows that the labels of the accepted ones select. */
  function ValidFrame(frame: Frame): seq<Labelled> {
    Loc(frame, AcceptedLabels(frame, |frame|))
  }

  function Rejections(frame: Frame): seq<Issue> {
    RejectedIssues(frame, |frame|)
  }

  function AcceptedRows(frame: Frame, n: nat): seq<Labelled>
    requires n <= |frame|
  {
    if n == 0 then [] else AcceptedRows(frame, n - 1) + if AcceptsAt(frame, n - 1) then [frame[n - 1]] else []
  }

  method JudgeText(row: SourceRow, before: seq<Reason>) returns (reasons: seq<Reason>)
    ensures reasons == before + TextReasons(row)
  {
    hide NormalizeText;
    reasons := before;
    if NormalizeText(row.name).None? {
      reasons := reasons + [MissingName];
    }
    if NormalizeText(row.status).None? {
      reasons := reasons + [MissingStatus];
    }
  }

  method JudgePlace(row: SourceRow, before: seq<Reason>) returns (reasons: seq<Reason>)
    ensures reasons == before + PlaceReasons(row)
  {
    reasons := before;
    if !row.hasX || !row.hasY {
      reasons := reasons + [MissingCoordinates];
    } else if row.geometry.None? || row.geometry.value.isEmpty {
      reasons := reasons + [NullGeometry];
    } else if !row.geometry.value.isValid {
      reasons := reasons + [InvalidGeometry];
    }
  }

  /** The reasons one row collects, given the uids seen so far. */
  method JudgeRow(row: SourceRow, seen: set<string>) returns (reasons: seq<Reason>)
    ensures reasons == (if NormalizeText(row.uid).None? then [MissingUid]
                        else if NormalizeText(row.uid).value in seen then [DuplicateUid] else [])
                       + OtherReasons(row)
  {
    hide NormalizeText, TextReasons, PlaceReasons;
    var uid := NormalizeText(row.uid);
    reasons := [];
    if uid.None? {
      reasons := [MissingUid];
    } else if uid.value in seen {
      reasons := [DuplicateUid];
    }
    ghost var first := reasons;
    reasons := JudgeText(row, reasons);
    reasons := JudgePlace(row, reasons);
    assert reasons == first + (TextReasons(row) + PlaceReasons(row));
  }

  method Validate(frame: Frame) returns (valid: seq<Labelled>, rejected: seq<Issue>)
    ensures rejected == Rejections(frame) && valid == ValidFrame(frame)
  {
    hide OtherReasons, NormalizeText, Loc;
    rejected := [];
    var validLabels: seq<int> := [];
    var seen: set<string> := {};
    for k := 0 to |frame|
      invariant rejected == RejectedIssues(frame, k)
      invariant validLabels == AcceptedLabels(frame, k)
      invariant forall u :: u in seen <==> exists j | 0 <= j < k :: UidAt(frame, j) == Some(u)
    {
      var uid := NormalizeText(frame[k].row.uid);
      var reasons := JudgeRow(frame[k].row, seen);
      assert uid.Some? ==> (uid.value in seen <==> SeenBefore(frame, k));
      assert reasons == ReasonsAt(frame, k);
      if uid.Some? {
        seen := seen + {uid.value};
      }
      if reasons != [] {
        rejected := rejected + [Issue(k, uid, reasons)];
      } else {
        validLabels := validLabels + [frame[k].index];
      }
    }
    valid := Loc(frame, validLabels);
  }

  // ---- when the valid frame is the accepted rows ----------------------------------------------

  function LabelCount(frame: Frame, index: int): nat {
    |RowsLabelled(frame, index)|
  }

  lemma {:induction false} LabelOccurs(frame: Frame, i: nat)
    requires i < |frame|
    ensures frame[i] in RowsLabelled(frame, frame[i].index) && LabelCount(frame, frame[i].index) >= 1
  {
    var front := frame[..|frame| - 1];
    if i < |front| {
      assert front[i] == frame[i];
      LabelOccurs(front, i);
    }
  }

  lemma NothingLocated(frame: Frame)
    ensures Loc(frame, []) == []
  {
  }

  lemma LocExtends(frame: Frame, labels: seq<int>, index: int)
    ensures Loc(frame, labels + [index]) == Loc(frame, labels) + RowsLabelled(frame, index)
  {
    var longer := labels + [index];
    assert longer[..|longer| - 1] == labels;
  }

  ghost predicate AcceptedLabelsUnique(frame: Frame, n: nat)
    requires n <= |frame|
  {
    forall k: nat | k < n && AcceptsAt(frame, k) :: LabelCount(frame, frame[k].index) == 1
  }

  lemma {:induction false} LocSizes(frame: Frame, n: nat)
    requires n <= |frame|
    ensures |Loc(frame, AcceptedLabels(frame, n))| >= |AcceptedRows(frame, n)|
    ensures |Loc(frame, AcceptedLabels(frame, n))| == |AcceptedRows(frame, n)| ==> AcceptedLabelsUnique(frame, n)
  {
    hide AcceptsAt, RowsLabelled;
    if n > 0 {
      LocSizes(frame, n - 1);
      if AcceptsAt(frame, n - 1) {
        LabelOccurs(frame, n - 1);
        assert AcceptedLabels(frame, n) == AcceptedLabels(frame, n - 1) + [frame[n - 1].index];
        LocExtends(frame, AcceptedLabels(frame, n - 1), frame[n - 1].index);
      } else {
        assert AcceptedLabels(frame, n) == AcceptedLabels(frame, n - 1);
        assert AcceptedRows(frame, n) == AcceptedRows(frame, n - 1);
      }
    }
  }

  lemma UniqueLabelIsAlone(frame: Frame, i: nat)
    requires i < |frame| && LabelCount(frame, frame[i].index) == 1
    ensures RowsLabelled(frame, frame[i].index) == [frame[i]]
  {
    hide RowsLabelled;
    LabelOccurs(frame, i);
  }

  lemma {:induction false} UniqueLabelsLocate(frame: Frame, n: nat)
    requires n <= |frame| && AcceptedLabelsUnique(frame, n)
    ensures Loc(frame, AcceptedLabels(frame, n)) == AcceptedRows(frame, n)
  {
    hide AcceptsAt, RowsLabelled, Loc;
    if n == 0 {
      assert Loc(frame, []) == [] by {
        NothingLocated(frame);
      }
    } else {
      UniqueLabelsLocate(frame, n - 1);
      if AcceptsAt(frame, n - 1) {
        UniqueLabelIsAlone(frame, n - 1);
        assert AcceptedLabels(frame, n) == AcceptedLabels(frame, n - 1) + [frame[n - 1].index];
        LocExtends(frame, AcceptedLabels(frame, n - 1), frame[n - 1].index);
      } else {
        assert AcceptedLabels(frame, n) == AcceptedLabels(frame, n - 1);
        assert AcceptedRows(frame, n) == AcceptedRows(frame, n - 1);
      }
    }
  }

  /** The valid frame is exactly the accepted rows if and only if no accepted row shares its index label. */
  lemma ValidFrameIsTheAcceptedRowsIff(frame: Frame)
    ensures ValidFrame(frame) == AcceptedRows(frame, |frame|)
       <==> AcceptedLabelsUnique(frame, |frame|)
  {
    LocSizes(frame, |frame|);
    if AcceptedLabelsUnique(frame, |frame|) {
      UniqueLabelsLocate(frame, |frame|);
    }
  }

  lemma {:induction false} DistinctLabelsCountOnce(frame: Frame, index: int)
    requires forall i, j | 0 <= i < j < |frame| :: frame[i].index != frame[j].index
    ensures LabelCount(frame, index) == if exists x :: x in frame && x.index == index then 1 else 0
  {
    if frame != [] {
      var front, last := frame[..|frame| - 1], frame[|frame| - 1];
      DistinctLabelsCountOnce(front, index);
      assert frame == front + [last];
    }
  }

  /** With distinct labels none is shared. */
  lemma DistinctLabelsAreUnshared(frame: Frame, n: nat)
    requires n <= |frame| && forall i, j | 0 <= i < j < |frame| :: frame[i].index != frame[j].index
    ensures AcceptedLabelsUnique(frame, n)
  {
    hide AcceptsAt, RowsLabelled;
    forall k: nat | k < n && AcceptsAt(frame, k) ensures LabelCount(frame, frame[k].index) == 1 {
      DistinctLabelsCountOnce(frame, frame[k].index);
      assert frame[k] in frame;
    }
  }

  // ---- planning --------------------------------------------------------------------------------

  type Rows = Layer.Rows

  const LOAD_FIELDS: set<Layer.Field> := {Layer.Uid, Layer.Name, Layer.Status, Layer.Count}

  function CellValue(c: Cell): Layer.Value {
    if c.Text? then Layer.Text(c.text) else Layer.Null
  }

  /** The load columns of a valid row, as the feature sent to the server. */
  function Uploaded(r: SourceRow): Layer.Feature {
    Layer.Feature(
      map[Layer.Uid := CellValue(r.uid), Layer.Name := CellValue(r.name), Layer.Status := CellValue(r.status),
          Layer.Count := if r.count.Some? then Layer.Number(r.count.value as real) else Layer.Null],
      if r.geometry.Some? then Some(Layer.Point(r.geometry.value.x, r.geometry.value.y)) else None)
  }

  function UidOf(f: Layer.Feature): Option<string> {
    if Layer.Uid in f.attributes && f.attributes[Layer.Uid].Text? then Some(f.attributes[Layer.Uid].text) else None
  }

  /** One row of the pre-load snapshot. */
  datatype Existing = Existing(uid: Option<string>, objectId: Option<int>)

  datatype Plan = Plan(adds: seq<Layer.Feature>, updates: seq<Layer.Update>)

  /** Rows that came through validation: normalized, with pairwise distinct uids. */
  predicate Loadable(valid: seq<SourceRow>) {
    && (forall r | r in valid :: r.uid.Text? && r.geometry.Some?)
    && forall i, j | 0 <= i < j < |valid| :: valid[i].uid != valid[j].uid
  }

  function UidToObjectId(existing: seq<Existing>): map<Option<string>, Option<int>> {
    Dict(seq(|existing|, i requires 0 <= i < |existing| => (existing[i].uid, existing[i].objectId)))
  }

  /** The object id the planner assigns: none when the uid is unknown or its snapshot row has none. */
  function AssignedId(ids: map<Option<string>, Option<int>>, r: SourceRow): Option<int> {
    var uid := NormalizeUid(r.uid);
    if uid in ids then ids[uid] else None
  }

  function NormalizeUid(c: Cell): Option<string> {
    if c.Text? then Some(c.text) else None
  }

  function Adds(ids: map<Option<string>, Option<int>>, valid: seq<SourceRow>): seq<Layer.Feature> {
    if valid == [] then []
    else Adds(ids, valid[..|valid| - 1])
         + if AssignedId(ids, valid[|valid| - 1]).None? then [Uploaded(valid[|valid| - 1])] else []
  }

  function UpdateOf(id: int, r: SourceRow): Layer.Update {
    Layer.Update(id, Uploaded(r).attributes, Uploaded(r).geometry)
  }

  function Updates(ids: map<Option<string>, Option<int>>, valid: seq<SourceRow>): seq<Layer.Update> {
    if valid == [] then []
    else Updates(ids, valid[..|valid| - 1])
         + var id := AssignedId(ids, valid[|valid| - 1]);
           if id.Some? then [UpdateOf(id.value, valid[|valid| - 1])] else []
  }

  method BuildUpsertPlan(valid: seq<SourceRow>, existing: seq<Existing>) returns (plan: Plan)
    ensures plan == Plan(Adds(UidToObjectId(existing), valid), Updates(UidToObjectId(existing), valid))
  {
    var ids := UidToObjectId(existing);
    var adds: seq<Layer.Feature>, updates: seq<Layer.Update> := [], [];
    for k := 0 to |valid|
      invariant adds == Adds(ids, valid[..k]) && updates == Updates(ids, valid[..k])
    {
      assert valid[..k + 1][..k] == valid[..k];
      var id := AssignedId(ids, valid[k]);
      if id.None? {
        adds := adds + [Uploaded(valid[k])];
      } else {
        updates := updates + [UpdateOf(id.value, valid[k])];
      }
    }
    assert valid[..|valid|] == valid;
    return Plan(adds, updates);
  }

  // ---- convergence -------------------------------------------------------------------------------

  /** No two rows carry the same uid. */
  ghost predicate UniqueUids(rows: Rows) {
    forall i, j | i in rows && j in rows && UidOf(rows[i]).Some? && UidOf(rows[i]) == UidOf(rows[j]) :: i == j
  }

  /** The snapshot is the rows whose uid passes the filter, with their object ids. */
  ghost predicate SnapshotOf(rows: Rows, inside: string -> bool, existing: seq<Existing>) {
    forall x :: x in existing <==> Snapped(rows, inside, x)
  }

  ghost predicate Snapped(rows: Rows, inside: string -> bool, x: Existing) {
    x.uid.Some? && x.objectId.Some? && inside(x.uid.value)
    && x.objectId.value in rows && UidOf(rows[x.objectId.value]) == x.uid
  }

  /** What a uid-indexed reader sees of one row: the load fields and the geometry. */
  datatype Shown = Shown(fields: Layer.Attributes, geometry: Option<Layer.Point>)

  function ShownAs(f: Layer.Feature): Shown {
    Shown(map k | k in f.attributes && k in LOAD_FIELDS :: f.attributes[k], f.geometry)
  }

  /** The columns a load does not write. */
  function OtherFields(f: Layer.Feature): Layer.Attributes {
    map k | k in f.attributes && k !in LOAD_FIELDS :: f.attributes[k]
  }

  ghost function View(rows: Rows): map<string, Shown>
    requires UniqueUids(rows)
  {
    map id | id in rows && UidOf(rows[id]).Some? :: UidOf(rows[id]).value := ShownAs(rows[id])
  }

  function Overrides(valid: seq<SourceRow>): map<string, Shown>
    requires Loadable(valid)
  {
    map r | r in valid :: r.uid.text := ShownAs(Uploaded(r))
  }

  /** No target row the filter hides carries the uid of a valid row. */
  ghost predicate NothingHidden(rows: Rows, inside: string -> bool, valid: seq<SourceRow>) {
    forall r, id | r in valid && r.uid.Text? && id in rows && UidOf(rows[id]) == Some(r.uid.text) :: inside(r.uid.text)
  }

  lemma PlannerKnows(rows: Rows, inside: string -> bool, existing: seq<Existing>, r: SourceRow)
    requires UniqueUids(rows) && SnapshotOf(rows, inside, existing) && r.uid.Text?
    ensures var id := AssignedId(UidToObjectId(existing), r);
            && (id.Some? ==> id.value in rows && UidOf(rows[id.value]) == Some(r.uid.text) && inside(r.uid.text))
            && (forall i | i in rows && UidOf(rows[i]) == Some(r.uid.text) && inside(r.uid.text) :: id == Some(i))
  {
    var pairs := seq(|existing|, i requires 0 <= i < |existing| => (existing[i].uid, existing[i].objectId));
    DictComesFromPairs(pairs);
    var ids, uid := UidToObjectId(existing), Some(r.uid.text);
    if uid in ids {
      var k :| 0 <= k < |pairs| && pairs[k] == (uid, ids[uid]);
      assert existing[k] in existing && existing[k] == Existing(uid, ids[uid]);
      assert ids[uid].Some? && ids[uid].value in rows && UidOf(rows[ids[uid].value]) == uid;
    }
    forall i | i in rows && UidOf(rows[i]) == uid && inside(r.uid.text) ensures uid in ids {
      assert Existing(uid, Some(i)) in existing;
      var k :| 0 <= k < |existing| && existing[k] == Existing(uid, Some(i));
      assert pairs[k] in pairs;
    }
    forall i | i in rows && UidOf(rows[i]) == uid && inside(r.uid.text) ensures ids[uid] == Some(i) {
      SameUidSameId(rows, i, ids[uid].value);
    }
  }

  lemma SameUidSameId(rows: Rows, i: int, j: int)
    requires UniqueUids(rows) && i in rows && j in rows && UidOf(rows[i]).Some? && UidOf(rows[i]) == UidOf(rows[j])
    ensures i == j
  {
  }

  lemma {:induction false} UpdatesAre(ids: map<Option<string>, Option<int>>, valid: seq<SourceRow>)
    ensures forall u | u in Updates(ids, valid) ::
              exists r :: r in valid && AssignedId(ids, r) == Some(u.id) && u == UpdateOf(u.id, r)
    ensures forall r | r in valid && AssignedId(ids, r).Some? ::
              UpdateOf(AssignedId(ids, r).value, r) in Updates(ids, valid)
  {
    hide AssignedId, Uploaded;
    if valid != [] {
      var front := valid[..|valid| - 1];
      assert valid == front + [valid[|valid| - 1]];
      UpdatesAre(ids, front);
    }
  }

  /** A row is added or updated, never both. */
  lemma {:induction false} EveryRowIsPlanned(ids: map<Option<string>, Option<int>>, valid: seq<SourceRow>)
    ensures |Adds(ids, valid)| + |Updates(ids, valid)| == |valid|
  {
    hide AssignedId, Uploaded;
    if valid != [] {
      EveryRowIsPlanned(ids, valid[..|valid| - 1]);
    }
  }

  lemma {:induction false} AddsAre(ids: map<Option<string>, Option<int>>, valid: seq<SourceRow>)
    requires Loadable(valid)
    ensures forall f | f in Adds(ids, valid) :: exists r :: r in valid && AssignedId(ids, r).None? && f == Uploaded(r)
    ensures forall r | r in valid && AssignedId(ids, r).None? :: Uploaded(r) in Adds(ids, valid)
    ensures forall i, j | 0 <= i < j < |Adds(ids, valid)| :: UidOf(Adds(ids, valid)[i]) != UidOf(Adds(ids, valid)[j])
  {
    hide AssignedId, Uploaded, UidOf;
    if valid != [] {
      var front, last := valid[..|valid| - 1], valid[|valid| - 1];
      assert valid == front + [last];
      AddsAre(ids, front);
      forall r | r in front ensures UidOf(Uploaded(r)) != UidOf(Uploaded(last)) {
        var i :| 0 <= i < |front| && front[i] == r;
        assert valid[i].uid != valid[|valid| - 1].uid;
        UploadedUid(r);
        UploadedUid(last);
      }
      var before := Adds(ids, front);
      forall i | 0 <= i < |before| ensures exists r :: r in front && before[i] == Uploaded(r) {
        assert before[i] in before;
      }
    }
  }

  lemma UploadedUid(r: SourceRow)
    ensures UidOf(Uploaded(r)) == NormalizeUid(r.uid)
  {
  }

  /** An upsert of one row: its load fields and geometry replace what a reader saw, and its uid is kept. */
  lemma MergingLoads(f: Layer.Feature, id: int, r: SourceRow)
    requires r.uid.Text? && r.geometry.Some?
    ensures var g := Layer.Merged(f, UpdateOf(id, r));
            UidOf(g) == Some(r.uid.text) && ShownAs(g) == ShownAs(Uploaded(r)) && OtherFields(g) == OtherFields(f)
            && Layer.Merged(g, UpdateOf(id, r)) == g
  {
    var g := Layer.Merged(f, UpdateOf(id, r));
    assert ShownAs(g).fields == ShownAs(Uploaded(r)).fields;
    assert g.attributes + Uploaded(r).attributes == g.attributes;
  }

  /** The valid row an upsert writes into an existing row, if any. */
  ghost predicate Writes(rows: Rows, inside: string -> bool, r: SourceRow, id: int) {
    r.uid.Text? && id in rows && UidOf(rows[id]) == Some(r.uid.text) && inside(r.uid.text)
  }

  /** The target after the plan: written rows, untouched rows and added rows, and nothing else. */
  ghost predicate Upserted(rows: Rows, inside: string -> bool, valid: seq<SourceRow>, next: int,
                           adds: seq<Layer.Feature>, after: Rows)
    requires Loadable(valid)
  {
    && (forall id | id in rows ::
          id in after && UidOf(after[id]) == UidOf(rows[id]) && OtherFields(after[id]) == OtherFields(rows[id]))
    && (forall id, r | id in rows && r in valid && Writes(rows, inside, r, id) ::
          ShownAs(after[id]) == ShownAs(Uploaded(r)))
    && (forall id | id in rows && !(exists r :: r in valid && Writes(rows, inside, r, id)) :: after[id] == rows[id])
    && (forall id | next <= id < next + |adds| :: id in after && after[id] == Layer.Allocated(next, adds, id))
    && (forall id | id in after :: id in rows || next <= id < next + |adds|)
  }

  lemma PlanUpserts(rows: Rows, next: int, inside: string -> bool, existing: seq<Existing>, valid: seq<SourceRow>)
    requires UniqueUids(rows) && SnapshotOf(rows, inside, existing) && Loadable(valid)
    requires forall id | id in rows :: id < next
    ensures var ids := UidToObjectId(existing);
            && Layer.Applicable(rows, Updates(ids, valid), [])
            && Upserted(rows, inside, valid, next, Adds(ids, valid),
                        Layer.Committed(rows, next, Adds(ids, valid), Updates(ids, valid), []))
  {
    hide UidOf, Uploaded, ShownAs, AssignedId, UidToObjectId, UniqueUids, SnapshotOf, Layer.Committed, Layer.Merged,
         UpdateOf, Adds, Updates, Layer.Applicable, Layer.Allocated;
    var ids := UidToObjectId(existing);
    var adds, updates := Adds(ids, valid), Updates(ids, valid);
    var after := Layer.Committed(rows, next, adds, updates, []);
    UpdatesAre(ids, valid);
    forall r | r in valid
      ensures forall i :: Writes(rows, inside, r, i) <==> AssignedId(ids, r) == Some(i)
    {
      PlannerKnows(rows, inside, existing, r);
    }
    Layer.CommittedRows(rows, next, adds, updates, []);
    forall id | id in rows
      ensures id in after && UidOf(after[id]) == UidOf(rows[id]) && OtherFields(after[id]) == OtherFields(rows[id])
      ensures forall r | r in valid && Writes(rows, inside, r, id) :: ShownAs(after[id]) == ShownAs(Uploaded(r))
      ensures !(exists r :: r in valid && Writes(rows, inside, r, id)) ==> after[id] == rows[id]
    {
      WrittenRow(rows, inside, ids, valid, updates, id, after[id]);
    }
    PlanIsApplicable(rows, inside, existing, valid);
  }

  lemma WrittenRow(rows: Rows, inside: string -> bool, ids: map<Option<string>, Option<int>>, valid: seq<SourceRow>,
                   updates: seq<Layer.Update>, id: int, f: Layer.Feature)
    requires Loadable(valid) && id in rows
    requires forall u | u in updates ::
               exists r :: r in valid && AssignedId(ids, r) == Some(u.id) && u == UpdateOf(u.id, r)
    requires forall r | r in valid && AssignedId(ids, r).Some? :: UpdateOf(AssignedId(ids, r).value, r) in updates
    requires forall r, i | r in valid :: Writes(rows, inside, r, i) <==> AssignedId(ids, r) == Some(i)
    requires var u := Layer.UpdateFor(updates, id);
             f == if u.Some? then Layer.Merged(rows[id], u.value) else rows[id]
    ensures UidOf(f) == UidOf(rows[id]) && OtherFields(f) == OtherFields(rows[id])
    ensures forall r | r in valid && Writes(rows, inside, r, id) :: ShownAs(f) == ShownAs(Uploaded(r))
    ensures !(exists r :: r in valid && Writes(rows, inside, r, id)) ==> f == rows[id]
  {
    hide UidOf, Uploaded, ShownAs, AssignedId, Layer.Merged;
    var u := Layer.UpdateFor(updates, id);
    if u.Some? {
      var r :| r in valid && AssignedId(ids, r) == Some(id) && u.value == UpdateOf(id, r);
      MergingLoads(rows[id], id, r);
      assert Writes(rows, inside, r, id);
      forall q | q in valid && Writes(rows, inside, q, id) ensures q == r {
        SameUidSameRow(valid, q, r);
      }
    } else {
      forall r | r in valid ensures !Writes(rows, inside, r, id) {
        assert AssignedId(ids, r) == Some(id) ==> UpdateOf(id, r) in updates && UpdateOf(id, r).id == id;
      }
    }
  }

  lemma SameUidSameRow(valid: seq<SourceRow>, q: SourceRow, r: SourceRow)
    requires Loadable(valid) && q in valid && r in valid && q.uid.text == r.uid.text
    ensures q == r
  {
    var i :| 0 <= i < |valid| && valid[i] == q;
    var j :| 0 <= j < |valid| && valid[j] == r;
    assert q.uid == r.uid;
  }

  /** The target once the plan for a snapshot has been committed. */
  ghost function After(rows: Rows, next: int, existing: seq<Existing>, valid: seq<SourceRow>): Rows {
    var ids := UidToObjectId(existing);
    Layer.Committed(rows, next, Adds(ids, valid), Updates(ids, valid), [])
  }

  /** The setting of one load: a target with unique uids, its filtered snapshot and validated rows. */
  ghost predicate Loading(rows: Rows, next: int, inside: string -> bool, existing: seq<Existing>,
                          valid: seq<SourceRow>) {
    UniqueUids(rows) && SnapshotOf(rows, inside, existing) && Loadable(valid) && forall id | id in rows :: id < next
  }

  /**
   A row in the target afterwards was there before under the same uid, or is the upload of an unassigned
   valid row.
   */
  lemma WhereRowsComeFrom(rows: Rows, next: int, inside: string -> bool, existing: seq<Existing>, valid: seq<SourceRow>,
                          id: int)
    requires Loading(rows, next, inside, existing, valid) && id in After(rows, next, existing, valid)
    ensures var ids, f := UidToObjectId(existing), After(rows, next, existing, valid)[id];
            if id in rows then UidOf(f) == UidOf(rows[id])
            else exists r :: r in valid && AssignedId(ids, r).None? && f == Uploaded(r)
  {
    hide UidOf, Uploaded, ShownAs, AssignedId, UidToObjectId, UniqueUids, SnapshotOf, Layer.Committed, Adds, Updates;
    var ids := UidToObjectId(existing);
    PlanUpserts(rows, next, inside, existing, valid);
    AddsAre(ids, valid);
    if id !in rows {
      var f := Layer.Allocated(next, Adds(ids, valid), id);
      assert f == Adds(ids, valid)[id - next] && f in Adds(ids, valid);
    }
  }

  /** An unassigned valid row's upload is in the target afterwards, and under no other id than one. */
  lemma UnassignedRowsAreAdded(rows: Rows, next: int, inside: string -> bool, existing: seq<Existing>,
                               valid: seq<SourceRow>, r: SourceRow)
    requires Loading(rows, next, inside, existing, valid) && r in valid
    requires AssignedId(UidToObjectId(existing), r).None?
    ensures exists id :: id in After(rows, next, existing, valid) && id !in rows
                         && After(rows, next, existing, valid)[id] == Uploaded(r)
  {
    hide UidOf, Uploaded, ShownAs, AssignedId, UidToObjectId, UniqueUids, SnapshotOf, Layer.Committed, Adds, Updates;
    var adds := Adds(UidToObjectId(existing), valid);
    PlanUpserts(rows, next, inside, existing, valid);
    AddsAre(UidToObjectId(existing), valid);
    var k :| 0 <= k < |adds| && adds[k] == Uploaded(r);
    assert Layer.Allocated(next, adds, next + k) == adds[k];
  }

  lemma AddedRowsDiffer(rows: Rows, next: int, inside: string -> bool, existing: seq<Existing>, valid: seq<SourceRow>,
                        i: int, j: int)
    requires Loading(rows, next, inside, existing, valid)
    requires var after := After(rows, next, existing, valid);
             i in after && j in after && i !in rows && j !in rows && UidOf(after[i]) == UidOf(after[j])
    ensures i == j
  {
    hide UidOf, Uploaded, ShownAs, AssignedId, UidToObjectId, UniqueUids, SnapshotOf, Layer.Committed, Adds, Updates;
    var adds := Adds(UidToObjectId(existing), valid);
    PlanUpserts(rows, next, inside, existing, valid);
    AddsAre(UidToObjectId(existing), valid);
    assert Layer.Allocated(next, adds, i) == adds[i - next] && Layer.Allocated(next, adds, j) == adds[j - next];
  }

  /** The uids stay unique exactly when the filter hid no target row a valid row shares its uid with. */
  lemma UidsStayUniqueIff(rows: Rows, next: int, inside: string -> bool, existing: seq<Existing>, valid: seq<SourceRow>)
    requires Loading(rows, next, inside, existing, valid)
    ensures UniqueUids(After(rows, next, existing, valid)) <==> NothingHidden(rows, inside, valid)
  {
    hide Uploaded, UidOf, ShownAs, AssignedId, UidToObjectId, SnapshotOf, After;
    var after := After(rows, next, existing, valid);
    if NothingHidden(rows, inside, valid) {
      forall i, j | i in after && j in after && UidOf(after[i]).Some? && UidOf(after[i]) == UidOf(after[j])
        ensures i == j
      {
        WhereRowsComeFrom(rows, next, inside, existing, valid, i);
        WhereRowsComeFrom(rows, next, inside, existing, valid, j);
        if i !in rows && j !in rows {
          AddedRowsDiffer(rows, next, inside, existing, valid, i, j);
        } else if i !in rows || j !in rows {
          NewRowsAreNew(rows, next, inside, existing, valid, if i in rows then i else j, if i in rows then j else i);
        }
      }
    } else {
      var r, id :| r in valid && id in rows && UidOf(rows[id]) == Some(r.uid.text) && !inside(r.uid.text);
      PlannerKnows(rows, inside, existing, r);
      UnassignedRowsAreAdded(rows, next, inside, existing, valid, r);
      var added :| added in after && added !in rows && after[added] == Uploaded(r);
      UploadedUid(r);
      ExistingRowsRemain(rows, next, inside, existing, valid, id);
    }
  }

  lemma ExistingRowsRemain(rows: Rows, next: int, inside: string -> bool, existing: seq<Existing>,
                           valid: seq<SourceRow>, id: int)
    requires Loading(rows, next, inside, existing, valid) && id in rows
    ensures id in After(rows, next, existing, valid) && UidOf(After(rows, next, existing, valid)[id]) == UidOf(rows[id])
  {
    hide UidOf, Uploaded, ShownAs, UidToObjectId, UniqueUids, SnapshotOf, Layer.Committed, Adds, Updates;
    PlanUpserts(rows, next, inside, existing, valid);
  }

  /** With nothing hidden, no added row repeats the uid of a row that was there. */
  lemma NewRowsAreNew(rows: Rows, next: int, inside: string -> bool, existing: seq<Existing>, valid: seq<SourceRow>,
                      kept: int, added: int)
    requires Loading(rows, next, inside, existing, valid) && NothingHidden(rows, inside, valid)
    requires kept in rows && added in After(rows, next, existing, valid) && added !in rows
    ensures UidOf(After(rows, next, existing, valid)[added]) != UidOf(rows[kept])
  {
    hide Uploaded, UidOf, AssignedId, UidToObjectId, UniqueUids, SnapshotOf, After;
    WhereRowsComeFrom(rows, next, inside, existing, valid, added);
    var r :| r in valid && AssignedId(UidToObjectId(existing), r).None?
             && After(rows, next, existing, valid)[added] == Uploaded(r);
    UploadedUid(r);
    PlannerKnows(rows, inside, existing, r);
  }

  /** Convergence: the uid-indexed view is the old one overridden by the valid rows. */
  lemma LoadConverges(rows: Rows, next: int, inside: string -> bool, existing: seq<Existing>, valid: seq<SourceRow>)
    requires Loading(rows, next, inside, existing, valid) && NothingHidden(rows, inside, valid)
    ensures UniqueUids(After(rows, next, existing, valid))
    ensures View(After(rows, next, existing, valid)) == View(rows) + Overrides(valid)
  {
    hide Uploaded, UidOf, ShownAs, AssignedId, UidToObjectId, SnapshotOf, After, UniqueUids;
    UidsStayUniqueIff(rows, next, inside, existing, valid);
    var after := After(rows, next, existing, valid);
    var left, right := View(after), View(rows) + Overrides(valid);
    forall u | u in right ensures u in left && left[u] == right[u] {
      var id := RightInLeft(rows, next, inside, existing, valid, u);
      ViewAt(after, id);
    }
    forall u | u in left ensures u in right {
      var id :| id in after && UidOf(after[id]) == Some(u);
      WhereRowsComeFrom(rows, next, inside, existing, valid, id);
      if id in rows {
        ViewAt(rows, id);
      } else {
        var r :| r in valid && AssignedId(UidToObjectId(existing), r).None? && after[id] == Uploaded(r);
        UploadedUid(r);
      }
    }
  }

  lemma ViewAt(rows: Rows, id: int)
    requires UniqueUids(rows) && id in rows && UidOf(rows[id]).Some?
    ensures UidOf(rows[id]).value in View(rows) && View(rows)[UidOf(rows[id]).value] == ShownAs(rows[id])
  {
    hide UidOf, ShownAs;
    var u := UidOf(rows[id]).value;
    var i :| i in rows && UidOf(rows[i]) == Some(u) && View(rows)[u] == ShownAs(rows[i]);
    SameUidSameId(rows, i, id);
  }

  /** Where the target shows each uid of the overridden view, and what it shows. */
  lemma RightInLeft(rows: Rows, next: int, inside: string -> bool, existing: seq<Existing>, valid: seq<SourceRow>,
                    u: string)
    returns (id: int)
    requires Loading(rows, next, inside, existing, valid) && NothingHidden(rows, inside, valid)
    requires u in View(rows) + Overrides(valid)
    ensures var after := After(rows, next, existing, valid);
            id in after && UidOf(after[id]) == Some(u) && ShownAs(after[id]) == (View(rows) + Overrides(valid))[u]
  {
    hide Uploaded, UidOf, ShownAs, AssignedId, UidToObjectId, SnapshotOf, Layer.Committed, UniqueUids, Adds, Updates;
    PlanUpserts(rows, next, inside, existing, valid);
    if u in Overrides(valid) {
      var r :| r in valid && r.uid.text == u && Overrides(valid)[u] == ShownAs(Uploaded(r));
      UploadedUid(r);
      PlannerKnows(rows, inside, existing, r);
      var given := AssignedId(UidToObjectId(existing), r);
      if given.Some? {
        id := given.value;
        assert Writes(rows, inside, r, id);
      } else {
        UnassignedRowsAreAdded(rows, next, inside, existing, valid, r);
        id :| id in After(rows, next, existing, valid) && id !in rows
            && After(rows, next, existing, valid)[id] == Uploaded(r);
      }
    } else {
      id :| id in rows && UidOf(rows[id]) == Some(u) && View(rows)[u] == ShownAs(rows[id]);
      forall r | r in valid ensures !Writes(rows, inside, r, id) {
        assert r.uid.text in Overrides(valid);
      }
    }
  }

  /** Replanning the same rows against the loaded target adds nothing exactly when the filter shows every valid uid. */
  lemma ReplanAddsNothingIff(rows: Rows, next: int, inside: string -> bool, existing: seq<Existing>,
                             valid: seq<SourceRow>, again: seq<Existing>)
    requires Loading(rows, next, inside, existing, valid) && NothingHidden(rows, inside, valid)
    requires SnapshotOf(After(rows, next, existing, valid), inside, again)
    ensures Adds(UidToObjectId(again), valid) == [] <==> forall r | r in valid :: inside(r.uid.text)
  {
    hide Uploaded, UidOf, ShownAs, AssignedId, UidToObjectId, SnapshotOf, After, UniqueUids, Adds;
    UidsStayUniqueIff(rows, next, inside, existing, valid);
    var after := After(rows, next, existing, valid);
    AddsAre(UidToObjectId(again), valid);
    forall r | r in valid
      ensures AssignedId(UidToObjectId(again), r).Some? <==> inside(r.uid.text)
    {
      PlannerKnows(after, inside, again, r);
      var id := RightInLeft(rows, next, inside, existing, valid, r.uid.text);
    }
    if Adds(UidToObjectId(again), valid) != [] {
      assert Adds(UidToObjectId(again), valid)[0] in Adds(UidToObjectId(again), valid);
    }
    if r :| r in valid && !inside(r.uid.text) {
      assert Uploaded(r) in Adds(UidToObjectId(again), valid);
    }
  }

  /** Where replanning finds a loaded row. */
  lemma ReplanFinds(rows: Rows, next: int, inside: string -> bool, existing: seq<Existing>, valid: seq<SourceRow>,
                    again: seq<Existing>, r: SourceRow)
    requires Loading(rows, next, inside, existing, valid) && NothingHidden(rows, inside, valid)
    requires SnapshotOf(After(rows, next, existing, valid), inside, again)
    requires r in valid && inside(r.uid.text)
    ensures var id := AssignedId(UidToObjectId(again), r);
            id.Some? && id.value in After(rows, next, existing, valid)
            && UidOf(After(rows, next, existing, valid)[id.value]) == Some(r.uid.text)
  {
    hide Uploaded, UidOf, ShownAs, AssignedId, UidToObjectId, SnapshotOf, After, UniqueUids, View;
    UidsStayUniqueIff(rows, next, inside, existing, valid);
    PlannerKnows(After(rows, next, existing, valid), inside, again, r);
    OverridesEveryUid(valid, r);
    var id := RightInLeft(rows, next, inside, existing, valid, r.uid.text);
  }

  /** When the filter shows every valid uid, replanning updates exactly the uids written. */
  lemma ReplanUpdatesTheWritten(rows: Rows, next: int, inside: string -> bool, existing: seq<Existing>,
                                valid: seq<SourceRow>, again: seq<Existing>)
    requires Loading(rows, next, inside, existing, valid) && forall r | r in valid :: inside(r.uid.text)
    requires SnapshotOf(After(rows, next, existing, valid), inside, again)
    ensures var after, updates := After(rows, next, existing, valid), Updates(UidToObjectId(again), valid);
            && (forall r | r in valid :: exists id ::
                  id in after && UidOf(after[id]) == Some(r.uid.text) && UpdateOf(id, r) in updates)
            && (forall u | u in updates ::
                  u.id in after
                  && exists r :: r in valid && UidOf(after[u.id]) == Some(r.uid.text) && u == UpdateOf(u.id, r))
  {
    hide Uploaded, UidOf, AssignedId, UidToObjectId, SnapshotOf, After, UniqueUids, Updates, UpdateOf;
    UpdatesAre(UidToObjectId(again), valid);
    forall r | r in valid
      ensures AssignedId(UidToObjectId(again), r).Some?
      ensures var id := AssignedId(UidToObjectId(again), r).value;
              id in After(rows, next, existing, valid)
              && UidOf(After(rows, next, existing, valid)[id]) == Some(r.uid.text)
    {
      ReplanFinds(rows, next, inside, existing, valid, again, r);
    }
  }

  /** When the filter shows every valid uid, applying the new plan changes nothing a uid-indexed reader sees. */
  lemma {:induction false} ReapplyingIsIdle(rows: Rows, next: int, inside: string -> bool, existing: seq<Existing>,
                                            valid: seq<SourceRow>, again: seq<Existing>, later: int)
    requires Loading(rows, next, inside, existing, valid) && forall r | r in valid :: inside(r.uid.text)
    requires SnapshotOf(After(rows, next, existing, valid), inside, again)
    requires forall id | id in After(rows, next, existing, valid) :: id < later
    ensures var after := After(rows, next, existing, valid);
            UniqueUids(after) && UniqueUids(After(after, later, again, valid))
            && View(After(after, later, again, valid)) == View(after)
  {
    hide UidOf, SnapshotOf, After, UniqueUids, View, Overrides;
    LoadConverges(rows, next, inside, existing, valid);
    LoadConverges(After(rows, next, existing, valid), later, inside, again, valid);
    OverridingTwiceIsOnce(View(rows), Overrides(valid));
  }

  lemma OverridesEveryUid(valid: seq<SourceRow>, r: SourceRow)
    requires Loadable(valid) && r in valid
    ensures r.uid.text in Overrides(valid)
  {
  }

  lemma OverridingTwiceIsOnce<K, V>(a: map<K, V>, b: map<K, V>)
    ensures (a + b) + b == a + b
  {
  }

  // ---- the workflow -------------------------------------------------------------------------------

  function RowsOf(labelled: seq<Labelled>): seq<SourceRow> {
    seq(|labelled|, i requires 0 <= i < |labelled| => labelled[i].row)
  }

  /** The rows a frame contributes to the load: normalized, then validated. */
  function ValidRows(frame: Frame): seq<SourceRow> {
    RowsOf(AcceptedRows(Normalize(frame), |frame|))
  }

  lemma {:induction false} AcceptedRowsArePositioned(frame: Frame, n: nat)
    requires n <= |frame|
    ensures |AcceptedRows(frame, n)| == |AcceptedPositions(frame, n)|
    ensures forall k | 0 <= k < |AcceptedRows(frame, n)| ::
              AcceptedPositions(frame, n)[k] < n && AcceptsAt(frame, AcceptedPositions(frame, n)[k])
              && AcceptedRows(frame, n)[k] == frame[AcceptedPositions(frame, n)[k]]
  {
    hide AcceptsAt;
    if n > 0 {
      AcceptedRowsArePositioned(frame, n - 1);
    }
  }

  /** The `k`-th valid row is the normalized row at the `k`-th accepted position, with its stripped uid. */
  lemma ValidRowAt(frame: Frame, k: nat)
    requires k < |ValidRows(frame)|
    ensures k < |AcceptedPositions(Normalize(frame), |frame|)|
    ensures var at := AcceptedPositions(Normalize(frame), |frame|)[k];
      && at < |frame| && AcceptsAt(Normalize(frame), at)
      && ValidRows(frame)[k].uid.Text? && ValidRows(frame)[k].geometry.Some?
      && UidAt(Normalize(frame), at) == Some(ValidRows(frame)[k].uid.text)
  {
    hide AcceptsAt, Normalize, AcceptedRows, AcceptedPositions, SeenBefore;
    var normal := Normalize(frame);
    NormalizedRows(frame);
    AcceptedRowsArePositioned(normal, |normal|);
    var at := AcceptedPositions(normal, |normal|)[k];
    AcceptedExactlyWhenFirst(normal, at);
    NormalizedUidIsStable(frame[at].row);
  }

  /** The text without the white space around it; there is a text left. */
  ghost predicate Trimmed(raw: string, text: string) {
    && text != "" && !IsSpace(text[0]) && !IsSpace(text[|text| - 1])
    && exists before, after :: raw == before + text + after && Blank(before) && Blank(after)
  }

  ghost predicate Blank(s: string) {
    forall i | 0 <= i < |s| :: IsSpace(s[i])
  }

  lemma {:induction false} StrippedLeft(s: string)
    ensures Blank(s[..|s| - |StripLeft(s)|])
  {
    if s != [] && IsSpace(s[0]) {
      StrippedLeft(s[1..]);
    }
  }

  lemma {:induction false} StrippedRight(s: string)
    ensures Blank(s[|StripRight(s)|..])
  {
    if s != [] && IsSpace(s[|s| - 1]) {
      StrippedRight(s[..|s| - 1]);
    }
  }

  lemma StripTrims(raw: string)
    ensures Strip(raw) != "" ==> Trimmed(raw, Strip(raw))
  {
    hide IsSpace, StripLeft, StripRight;
    var left, text := StripLeft(raw), Strip(raw);
    var before, after := raw[..|raw| - |left|], left[|text|..];
    StrippedLeft(raw);
    StrippedRight(left);
    if text != "" {
      assert raw == before + left && left == text + after && left[0] == text[0];
      assert before + (text + after) == before + text + after;
      assert Blank(before) && Blank(after);
    }
  }

  /**
   Each valid row is some row of the frame with its texts trimmed and its status in small letters, and
   with its count and its geometry as they were.
   */
  lemma ValidRowsAreTheSource(frame: Frame, k: nat)
    requires k < |ValidRows(frame)|
    ensures exists at | 0 <= at < |frame| :: ComesFrom(frame[at].row, ValidRows(frame)[k])
  {
    hide AcceptsAt, Normalize, AcceptedRows, AcceptedPositions, ComesFrom;
    var normal := Normalize(frame);
    NormalizedRows(frame);
    AcceptedRowsArePositioned(normal, |normal|);
    var at := AcceptedPositions(normal, |normal|)[k];
    AcceptedExactlyWhenFirst(normal, at);
    AcceptedComesFrom(frame[at].row);
  }

  ghost predicate ComesFrom(source: SourceRow, r: SourceRow) {
    && source.uid.Text? && r.uid.Text? && Trimmed(source.uid.text, r.uid.text)
    && source.name.Text? && r.name.Text? && Trimmed(source.name.text, r.name.text)
    && source.status.Text? && r.status.Text? && LoweredTrim(source.status.text, r.status.text)
    && r.count == source.count && r.geometry == source.geometry && r.hasX && r.hasY && r.geometry.Some?
  }

  ghost predicate LoweredTrim(raw: string, text: string) {
    exists trimmed :: Trimmed(raw, trimmed) && |text| == |trimmed|
                      && forall i | 0 <= i < |text| ::
                           text[i] == if 'A' <= trimmed[i] <= 'Z' then 'a' + (trimmed[i] - 'A') else trimmed[i]
  }

  lemma AcceptedComesFrom(source: SourceRow)
    requires NormalizeText(NormalizeRow(source).uid).Some? && OtherReasons(NormalizeRow(source)) == []
    ensures ComesFrom(source, NormalizeRow(source))
  {
    hide Strip, IsSpace, Trimmed;
    var r := NormalizeRow(source);
    assert NormalizeText(r.name).Some? && NormalizeText(r.status).Some? && PlaceReasons(r) == [];
    StripTrims(source.uid.text);
    StripTrims(source.name.text);
    StripTrims(source.status.text);
    assert r.status.text == Lower(Strip(source.status.text));
  }

  lemma ValidRowsAreLoadable(frame: Frame)
    ensures Loadable(ValidRows(frame))
  {
    hide AcceptsAt, Normalize, AcceptedPositions, ValidRows, UidAt;
    var normal, rows := Normalize(frame), ValidRows(frame);
    assert |normal| == |frame| by {
      NormalizedRows(frame);
    }
    AcceptedInOrder(normal, |normal|);
    var at := AcceptedPositions(normal, |normal|);
    forall k | 0 <= k < |rows| ensures rows[k].uid.Text? && rows[k].geometry.Some? {
      ValidRowAt(frame, k);
    }
    forall i, j | 0 <= i < j < |rows| ensures rows[i].uid != rows[j].uid {
      ValidRowAt(frame, i);
      ValidRowAt(frame, j);
      AcceptedUidsAreDistinct(normal, at[i], at[j]);
    }
  }

  lemma NormalizedRows(frame: Frame)
    ensures |Normalize(frame)| == |frame|
    ensures forall i | 0 <= i < |frame| ::
              Normalize(frame)[i].row == NormalizeRow(frame[i].row) && Normalize(frame)[i].index == frame[i].index
  {
  }

  /** What validation hands to the planner: the rows its valid labels select. */
  function Handed(frame: Frame): seq<SourceRow> {
    RowsOf(ValidFrame(Normalize(frame)))
  }

  function PlanFor(existing: seq<Existing>, rows: seq<SourceRow>): Plan {
    Plan(Adds(UidToObjectId(existing), rows), Updates(UidToObjectId(existing), rows))
  }

  predicate DistinctTargets(updates: seq<Layer.Update>) {
    forall i, j | 0 <= i < j < |updates| :: updates[i].id != updates[j].id
  }

  /**
   A committed plan. What a row becomes that several updates name is left open; otherwise each update is
   merged into its row. Rows no update names stay, and the added rows get new ids in order.
   */
  ghost predicate CommitsTo(before: Rows, next: int, plan: Plan, after: Rows) {
    && (DistinctTargets(plan.updates) ==> after == Layer.Committed(before, next, plan.adds, plan.updates, []))
    && (forall id | id in before ::
          id in after && ((forall u | u in plan.updates :: u.id != id) ==> after[id] == before[id]))
    && (forall id | next <= id < next + |plan.adds| :: id in after && after[id] == Layer.Allocated(next, plan.adds, id))
    && (forall id | id in after :: id in before || next <= id < next + |plan.adds|)
  }

  lemma CommittedCommits(before: Rows, next: int, plan: Plan)
    requires Layer.Applicable(before, plan.updates, []) && forall id | id in before :: id < next
    ensures CommitsTo(before, next, plan, Layer.Committed(before, next, plan.adds, plan.updates, []))
  {
    hide Layer.Committed, Layer.Allocated, DistinctTargets, Layer.Applicable;
    Layer.CommittedRows(before, next, plan.adds, plan.updates, []);
  }

  datatype Stage = SourceSetup | PreLoadQuery | AllRejected | Applying | PostLoadQuery | Completed

  datatype Outcome = Outcome(exitCode: nat, stage: Stage)

  /** The target service: queries are truthful, batches all-or-nothing, and any call may raise. */
  class Service {
    /** No call raises, every plan is committed, and each of its edits is reported as successful. */
    const dutiful: bool
    var rows: Rows
    var next: int

    ghost predicate Valid()
      reads this
    {
      UniqueUids(rows) && forall id | id in rows :: id < next
    }

    constructor (rows: Rows, next: int, dutiful: bool)
      requires UniqueUids(rows) && forall id | id in rows :: id < next
      ensures Valid() && this.rows == rows && this.next == next && this.dutiful == dutiful
    {
      this.rows, this.next, this.dutiful := rows, next, dutiful;
    }

    method Snapshot(inside: string -> bool) returns (r: Result<seq<Existing>>)
      ensures r.Ok? ==> SnapshotOf(rows, inside, r.value)
      ensures dutiful ==> r.Ok?
    {
      var fault: Option<Fault> := *;
      if fault.Some? && !dutiful {
        return Raised(fault.value);
      }
      var here := rows;
      var inView := set id | id in here && UidOf(here[id]).Some? && inside(UidOf(here[id]).value);
      var shown := ListSet(inView);
      assert forall i | 0 <= i < |shown| :: shown[i] in shown && shown[i] in inView;
      var existing := seq(|shown|, i requires 0 <= i < |shown| && shown[i] in here =>
                        Existing(UidOf(here[shown[i]]), Some(shown[i])));
      forall x: Existing | Snapped(rows, inside, x) ensures x in existing {
        assert x.objectId.value in inView;
        var i :| 0 <= i < |shown| && shown[i] == x.objectId.value;
        assert existing[i] == x;
      }
      forall x | x in existing ensures Snapped(rows, inside, x) {
        var i :| 0 <= i < |existing| && existing[i] == x;
        assert shown[i] in shown;
      }
      return Ok(existing);
    }

    /** Commits the whole plan or nothing, and counts the edits its receipts report as successful. */
    method Apply(plan: Plan) returns (r: Result<nat>)
      requires Layer.Applicable(rows, plan.updates, [])
      requires forall id | id in rows :: id < next
      modifies this
      ensures rows == old(rows) || CommitsTo(old(rows), old(next), plan, rows)
      ensures r.Ok? && r.value > 0 ==> CommitsTo(old(rows), old(next), plan, rows)
      ensures dutiful ==>
                r == Ok(|plan.adds| + |plan.updates|) && CommitsTo(old(rows), old(next), plan, rows)
    {
      hide CommitsTo, Layer.Committed, Layer.Allocated;
      var reached: bool := *;
      r := *;
      if reached || dutiful {
        CommittedCommits(rows, next, plan);
        rows := Layer.Committed(rows, next, plan.adds, plan.updates, []);
        next := next + |plan.adds|;
        if dutiful {
          r := Ok(|plan.adds| + |plan.updates|);
        }
      } else if r.Ok? {
        r := Ok(0);
      }
    }
  }

  /**
   The complete upsert of a frame's valid rows: uids stay unique exactly when nothing was hidden, and
   then it converged.
   */
  ghost predicate Loaded(before: Rows, after: Rows, inside: string -> bool, valid: seq<SourceRow>)
    requires UniqueUids(before) && Loadable(valid)
  {
    && EachIsWritten(after, valid) && OthersStay(before, after, valid)
    && (UniqueUids(after) <==> NothingHidden(before, inside, valid))
    && (UniqueUids(after) ==> View(after) == View(before) + Overrides(valid))
  }

  /** The row's cells and its point, each in its own place. */
  ghost predicate Carries(f: Layer.Feature, r: SourceRow) {
    && {Layer.Uid, Layer.Name, Layer.Status, Layer.Count} <= f.attributes.Keys
    && r.uid.Text? && f.attributes[Layer.Uid] == Layer.Text(r.uid.text)
    && f.attributes[Layer.Name] == (match r.name case Text(name) => Layer.Text(name) case Missing => Layer.Null)
    && f.attributes[Layer.Status] == (match r.status case Text(status) => Layer.Text(status) case Missing => Layer.Null)
    && f.attributes[Layer.Count]
       == (match r.count case Some(count) => Layer.Number(count as real) case None => Layer.Null)
    && r.geometry.Some? && f.geometry.Some?
    && f.geometry.value.x == r.geometry.value.x && f.geometry.value.y == r.geometry.value.y
  }

  /** Each row is carried by a row of the target. */
  ghost predicate EachIsWritten(after: Rows, valid: seq<SourceRow>) {
    forall r | r in valid :: exists id :: id in after && Carries(after[id], r)
  }

  /**
   Rows whose uid no valid row has stay as they were, the others keep their uid and their columns beside
   the loaded ones, and every new row carries a valid one.
   */
  ghost predicate OthersStay(before: Rows, after: Rows, valid: seq<SourceRow>) {
    && (forall id | id in before ::
          && id in after
          && (forall k | k !in {Layer.Uid, Layer.Name, Layer.Status, Layer.Count} ::
                (k in after[id].attributes <==> k in before[id].attributes)
                && (k in before[id].attributes ==> after[id].attributes[k] == before[id].attributes[k]))
          && ((forall r | r in valid && r.uid.Text? :: UidOf(before[id]) != Some(r.uid.text)) ==>
                after[id] == before[id]))
    && forall id | id in after && id !in before :: exists r :: r in valid && Carries(after[id], r)
  }

  lemma UploadedCarries(f: Layer.Feature, r: SourceRow)
    requires r.uid.Text? && r.geometry.Some? && ShownAs(f) == ShownAs(Uploaded(r))
    ensures Carries(f, r)
  {
    var shown := ShownAs(f).fields;
    assert forall k | k in shown :: k in f.attributes && f.attributes[k] == shown[k];
    assert Layer.Uid in shown && Layer.Name in shown && Layer.Status in shown && Layer.Count in shown;
  }

  lemma ValidRowsAreWritten(rows: Rows, next: int, inside: string -> bool, existing: seq<Existing>,
                            valid: seq<SourceRow>)
    requires Loading(rows, next, inside, existing, valid)
    ensures EachIsWritten(After(rows, next, existing, valid), valid)
  {
    hide Uploaded, UidOf, ShownAs, AssignedId, UidToObjectId, SnapshotOf, Layer.Committed, UniqueUids, Adds, Updates,
         Carries;
    PlanUpserts(rows, next, inside, existing, valid);
    var after := After(rows, next, existing, valid);
    forall r | r in valid ensures exists id :: id in after && Carries(after[id], r) {
      PlannerKnows(rows, inside, existing, r);
      var given := AssignedId(UidToObjectId(existing), r);
      if given.Some? {
        assert Writes(rows, inside, r, given.value);
        UploadedCarries(after[given.value], r);
      } else {
        UnassignedRowsAreAdded(rows, next, inside, existing, valid, r);
        var id :| id in after && id !in rows && after[id] == Uploaded(r);
        UploadedCarries(after[id], r);
      }
    }
  }

  lemma OtherRowsStay(rows: Rows, next: int, inside: string -> bool, existing: seq<Existing>, valid: seq<SourceRow>)
    requires Loading(rows, next, inside, existing, valid)
    ensures OthersStay(rows, After(rows, next, existing, valid), valid)
  {
    hide Uploaded, UidOf, ShownAs, AssignedId, UidToObjectId, SnapshotOf, Layer.Committed, UniqueUids, Adds, Updates,
         Carries, LOAD_FIELDS, OtherFields;
    PlanUpserts(rows, next, inside, existing, valid);
    var after := After(rows, next, existing, valid);
    forall id | id in rows ensures id in after && OtherFields(after[id]) == OtherFields(rows[id]) {
    }
    forall id | id in rows {
      OtherFieldsAre(rows[id], after[id]);
    }
    forall id | id in after && id !in rows ensures exists r :: r in valid && Carries(after[id], r) {
      WhereRowsComeFrom(rows, next, inside, existing, valid, id);
      var r :| r in valid && after[id] == Uploaded(r);
      UploadedCarries(after[id], r);
    }
  }

  lemma OtherFieldsAre(f: Layer.Feature, g: Layer.Feature)
    ensures OtherFields(f) == OtherFields(g) ==>
              forall k | k !in {Layer.Uid, Layer.Name, Layer.Status, Layer.Count} ::
                (k in g.attributes <==> k in f.attributes)
                && (k in f.attributes ==> g.attributes[k] == f.attributes[k])
  {
    if OtherFields(f) == OtherFields(g) {
      forall k | k !in {Layer.Uid, Layer.Name, Layer.Status, Layer.Count}
        ensures k in g.attributes <==> k in f.attributes
        ensures k in f.attributes ==> g.attributes[k] == f.attributes[k]
      {
        assert k in OtherFields(f) <==> k in OtherFields(g);
      }
    }
  }

  /** The target is what committing the plan for these rows made of it. */
  ghost predicate LoadedFrom(before: Rows, next: int, after: Rows, inside: string -> bool, rows: seq<SourceRow>) {
    exists existing :: SnapshotOf(before, inside, existing) && CommitsTo(before, next, PlanFor(existing, rows), after)
  }

  /**
   The whole workflow, for any frame. The target changes only by a committed plan for the rows validation
   hands on, and a zero exit code means that it did and that the target was read back; where no accepted
   row shares its label, that is the complete upsert of the valid rows. A dutiful service is always loaded.
   */
  method RunWorkflow(service: Service, source: Result<Frame>, inside: string -> bool)
    returns (outcome: Outcome, readBack: Option<seq<Existing>>)
    requires service.Valid()
    modifies service
    ensures source.Raised? ==> service.rows == old(service.rows)
    ensures source.Ok? ==> Loadable(ValidRows(source.value))
    ensures source.Ok? && service.rows != old(service.rows) ==>
              LoadedFrom(old(service.rows), old(service.next), service.rows, inside, Handed(source.value))
    ensures source.Ok? && service.rows != old(service.rows) && LabelsUnique(source.value) ==>
              Loaded(old(service.rows), service.rows, inside, ValidRows(source.value))
    ensures outcome.exitCode == 0 ==>
              && outcome.stage.Completed? && source.Ok? && Handed(source.value) != []
              && LoadedFrom(old(service.rows), old(service.next), service.rows, inside, Handed(source.value))
    ensures outcome.exitCode == 0 && LabelsUnique(source.value) ==>
              && ValidRows(source.value) != []
              && Loaded(old(service.rows), service.rows, inside, ValidRows(source.value))
    ensures source.Raised? || outcome.stage in {PreLoadQuery, AllRejected} ==>
              outcome.exitCode == 1 && service.rows == old(service.rows)
    ensures readBack.Some? <==> outcome.stage.Completed?
    ensures readBack.Some? ==> SnapshotOf(service.rows, inside, readBack.value)
    ensures source.Raised? <==> outcome.stage.SourceSetup?
    ensures outcome.stage.AllRejected? ==> Handed(source.value) == []
    ensures service.dutiful && source.Ok? ==>
              outcome == if Handed(source.value) == [] then Outcome(1, AllRejected) else Outcome(0, Completed)
  {
    hide ValidRows, Loadable, SnapshotOf, UniqueUids, Loaded, UidToObjectId, Adds, Updates, Loc, AcceptedRows,
         AcceptedLabels, LabelsUnique, CommitsTo, PlanFor;
    if source.Raised? {
      return Outcome(1, SourceSetup), None;
    }
    ValidRowsAreLoadable(source.value);
    HandedIsValidRowsIff(source.value);
    var preLoad := service.Snapshot(inside);
    if preLoad.Raised? {
      return Outcome(1, PreLoadQuery), None;
    }
    var accepted, rejected := Validate(Normalize(source.value));
    var valid := RowsOf(accepted);
    assert valid == Handed(source.value);
    if valid == [] {
      return Outcome(1, AllRejected), None;
    }
    var plan := BuildUpsertPlan(valid, preLoad.value);
    assert plan == PlanFor(preLoad.value, valid) by {
      PlanIs(preLoad.value, valid);
    }
    PlanIsApplicable(service.rows, inside, preLoad.value, valid);
    EveryRowIsPlanned(UidToObjectId(preLoad.value), valid);
    ghost var before, next := service.rows, service.next;
    var applied := service.Apply(plan);
    if CommitsTo(before, next, plan, service.rows) && LabelsUnique(source.value) {
      CommitIsLoaded(before, next, service.rows, inside, preLoad.value, valid);
    }
    if applied.Raised? {
      return Outcome(1, Applying), None;
    }
    var postLoad := service.Snapshot(inside);
    if postLoad.Raised? {
      return Outcome(1, PostLoadQuery), None;
    }
    return Outcome(if applied.value > 0 then 0 else 1, Completed), Some(postLoad.value);
  }

  lemma PlanIs(existing: seq<Existing>, rows: seq<SourceRow>)
    ensures PlanFor(existing, rows) == Plan(Adds(UidToObjectId(existing), rows), Updates(UidToObjectId(existing), rows))
  {
  }

  /** No accepted row of the normalized frame shares its label with another row. */
  ghost predicate LabelsUnique(frame: Frame) {
    AcceptedLabelsUnique(Normalize(frame), |Normalize(frame)|)
  }

  /**
   Validation hands on exactly the valid rows if and only if no accepted row shares its label, and more
   rows otherwise.
   */
  lemma HandedIsValidRowsIff(frame: Frame)
    ensures Handed(frame) == ValidRows(frame) <==> LabelsUnique(frame)
    ensures !LabelsUnique(frame) ==> |Handed(frame)| > |ValidRows(frame)|
  {
    hide AcceptedRows, AcceptedLabels, Loc, AcceptedLabelsUnique;
    var normal := Normalize(frame);
    NormalizedRows(frame);
    LocSizes(normal, |normal|);
    if LabelsUnique(frame) {
      UniqueLabelsLocate(normal, |normal|);
    }
  }

  /** So frames with distinct labels are handed on exactly. */
  lemma DistinctLabelsAreHandedOnExactly(frame: Frame)
    requires forall i, j | 0 <= i < j < |frame| :: frame[i].index != frame[j].index
    ensures LabelsUnique(frame) && Handed(frame) == ValidRows(frame)
  {
    hide Handed, ValidRows, AcceptedLabelsUnique;
    NormalizedRows(frame);
    DistinctLabelsAreUnshared(Normalize(frame), |frame|);
    HandedIsValidRowsIff(frame);
  }

  /** An update always names a row the snapshot showed. */
  lemma PlanIsApplicable(rows: Rows, inside: string -> bool, existing: seq<Existing>, handed: seq<SourceRow>)
    requires UniqueUids(rows) && SnapshotOf(rows, inside, existing)
    ensures Layer.Applicable(rows, PlanFor(existing, handed).updates, [])
  {
    hide UniqueUids, UidToObjectId, Updates;
    var ids := UidToObjectId(existing);
    UpdatesAre(ids, handed);
    forall u | u in Updates(ids, handed) ensures u.id in rows {
      var r :| r in handed && AssignedId(ids, r) == Some(u.id);
      if r.uid.Text? {
        PlannerKnows(rows, inside, existing, r);
      } else {
        NoUidNoId(rows, inside, existing, r);
      }
    }
  }

  lemma NoUidNoId(rows: Rows, inside: string -> bool, existing: seq<Existing>, r: SourceRow)
    requires SnapshotOf(rows, inside, existing) && !r.uid.Text?
    ensures AssignedId(UidToObjectId(existing), r).None?
  {
    var pairs := seq(|existing|, i requires 0 <= i < |existing| => (existing[i].uid, existing[i].objectId));
    DictComesFromPairs(pairs);
    forall k | 0 <= k < |existing| ensures existing[k].uid.Some? {
      assert existing[k] in existing && Snapped(rows, inside, existing[k]);
    }
    assert forall pair | pair in pairs :: pair.0.Some?;
  }

  /** No update of the earlier rows has the target of the last row's. */
  lemma LastTargetIsNew(rows: Rows, inside: string -> bool, existing: seq<Existing>, front: seq<SourceRow>,
                        last: SourceRow)
    requires UniqueUids(rows) && SnapshotOf(rows, inside, existing) && Loadable(front + [last])
    ensures forall u | u in Updates(UidToObjectId(existing), front) ::
              AssignedId(UidToObjectId(existing), last) != Some(u.id)
  {
    hide UniqueUids, SnapshotOf, UidToObjectId, AssignedId, UidOf, Updates;
    var ids, valid := UidToObjectId(existing), front + [last];
    UpdatesAre(ids, front);
    assert valid[|front|] == last;
    PlannerKnows(rows, inside, existing, last);
    forall u | u in Updates(ids, front) ensures AssignedId(ids, last) != Some(u.id) {
      var r :| r in front && AssignedId(ids, r) == Some(u.id);
      var i :| 0 <= i < |front| && front[i] == r;
      assert valid[i] == r && valid[i].uid != valid[|front|].uid;
      PlannerKnows(rows, inside, existing, r);
    }
  }

  lemma {:induction false} UpdatesHaveDistinctTargets(rows: Rows, inside: string -> bool, existing: seq<Existing>,
                                                      valid: seq<SourceRow>)
    requires UniqueUids(rows) && SnapshotOf(rows, inside, existing) && Loadable(valid)
    ensures DistinctTargets(Updates(UidToObjectId(existing), valid))
  {
    hide UniqueUids, SnapshotOf, UidToObjectId, AssignedId, UidOf;
    if valid != [] {
      var ids, front, last := UidToObjectId(existing), valid[..|valid| - 1], valid[|valid| - 1];
      assert valid == front + [last];
      assert Loadable(front);
      UpdatesHaveDistinctTargets(rows, inside, existing, front);
      LastTargetIsNew(rows, inside, existing, front, last);
      var before := Updates(ids, front);
      assert forall i | 0 <= i < |before| :: before[i] in before;
    }
  }

  lemma CommitIsLoaded(before: Rows, next: int, after: Rows, inside: string -> bool, existing: seq<Existing>,
                       valid: seq<SourceRow>)
    requires Loading(before, next, inside, existing, valid) && CommitsTo(before, next, PlanFor(existing, valid), after)
    ensures Loaded(before, after, inside, valid)
  {
    hide UniqueUids, SnapshotOf, UidToObjectId, Loadable, NothingHidden, View, Overrides, Layer.Committed,
         EachIsWritten, OthersStay;
    UpdatesHaveDistinctTargets(before, inside, existing, valid);
    UidsStayUniqueIff(before, next, inside, existing, valid);
    if NothingHidden(before, inside, valid) {
      LoadConverges(before, next, inside, existing, valid);
    }
    ValidRowsAreWritten(before, next, inside, existing, valid);
    OtherRowsStay(before, next, inside, existing, valid);
  }

  // ---- where labels repeat, and where rows are hidden ------------------------------------------------

  function Interval(from: int, n: nat): set<int> {
    if n == 0 then {} else Interval(from, n - 1) + {from + n - 1}
  }

  lemma {:induction false} IntervalSize(from: int, n: nat)
    ensures |Interval(from, n)| == n && forall i :: i in Interval(from, n) <==> from <= i < from + n
  {
    if n > 0 {
      IntervalSize(from, n - 1);
    }
  }

  lemma {:induction false} AllRowsAreAdded(rows: seq<SourceRow>)
    ensures |Adds(map[], rows)| == |rows| && Updates(map[], rows) == []
    ensures forall i | 0 <= i < |rows| :: Adds(map[], rows)[i] == Uploaded(rows[i])
  {
    hide Uploaded;
    if rows != [] {
      AllRowsAreAdded(rows[..|rows| - 1]);
    }
  }

  /** The first load of an empty target leaves as many rows as there are valid ones exactly when labels are unique. */
  lemma FirstLoadIsExactIff(frame: Frame, next: int, after: Rows)
    requires CommitsTo(map[], next, PlanFor([], Handed(frame)), after)
    ensures |after| == |ValidRows(frame)| <==> LabelsUnique(frame)
  {
    hide Handed, ValidRows, LabelsUnique, Uploaded, Layer.Committed, Interval;
    HandedIsValidRowsIff(frame);
    assert UidToObjectId([]) == map[];
    AllRowsAreAdded(Handed(frame));
    var n := |PlanFor([], Handed(frame)).adds|;
    IntervalSize(next, n);
    forall id ensures id in after.Keys <==> id in Interval(next, n) {
    }
    SameElementsSameSet(after.Keys, Interval(next, n));
    assert |after| == |after.Keys|;
  }

  lemma SameElementsSameSet<T>(a: set<T>, b: set<T>)
    requires forall x :: x in a <==> x in b
    ensures a == b
  {
  }

  function PlainRow(uid: string, name: Cell): SourceRow {
    SourceRow(Text(uid), name, Text("s"), None, true, true, Some(Geometry(false, true, 0.0, 0.0)))
  }

  lemma LettersAreNormal(c: char)
    requires 'a' <= c <= 'z'
    ensures NormalizeText(Text([c])) == Some([c]) && NormalizeStatus(Text([c])) == Some([c])
  {
    assert !IsSpace(c);
    assert StripLeft([c]) == [c] && StripRight([c]) == [c];
    assert Lower([c]) == [c];
  }

  lemma PlainRowsAreNormal(c: char, name: Cell)
    requires 'a' <= c <= 'z' && (name == Missing || name == Text("n"))
    ensures NormalizeRow(PlainRow([c], name)) == PlainRow([c], name)
  {
    hide NormalizeText, NormalizeStatus;
    LettersAreNormal(c);
    LettersAreNormal('n');
    LettersAreNormal('s');
    assert NormalizeText(Missing) == None by {
      NothingIsNormal();
    }
  }

  lemma NothingIsNormal()
    ensures NormalizeText(Missing) == None
  {
  }

  /** Two rows under one label, with these names. */
  function Pair(first: Cell, second: Cell): Frame {
    [Labelled(0, PlainRow("a", first)), Labelled(0, PlainRow("b", second))]
  }

  lemma PairIsNormal(second: Cell)
    requires second == Missing || second == Text("n")
    ensures Normalize(Pair(Text("n"), second)) == Pair(Text("n"), second)
    ensures RowsLabelled(Pair(Text("n"), second), 0) == Pair(Text("n"), second)
  {
    hide NormalizeRow;
    PlainRowsAreNormal('a', Text("n"));
    PlainRowsAreNormal('b', second);
    var frame := Pair(Text("n"), second);
    assert frame[..1] == [frame[0]] && frame[..1][..0] == [];
    assert RowsLabelled(frame[..1], 0) == [frame[0]];
  }

  lemma PairIsJudged(second: Cell)
    requires second == Missing || second == Text("n")
    ensures var frame := Pair(Text("n"), second); AcceptsAt(frame, 0) && (AcceptsAt(frame, 1) <==> second == Text("n"))
  {
    hide NormalizeText;
    LettersAreNormal('a');
    LettersAreNormal('b');
    LettersAreNormal('n');
    LettersAreNormal('s');
    NothingIsNormal();
    var frame := Pair(Text("n"), second);
    assert UidAt(frame, 0) == Some("a") && UidAt(frame, 1) == Some("b");
    assert "a"[0] != "b"[0];
    AcceptedExactlyWhenFirst(frame, 0);
    AcceptedExactlyWhenFirst(frame, 1);
  }

  lemma TwinsAreHandedOnTwice()
    ensures var twins := Pair(Text("n"), Text("n"));
      !LabelsUnique(twins) && Handed(twins) == RowsOf(twins + twins)
  {
    hide AcceptsAt, RowsLabelled, Normalize, RowsOf;
    var twins := Pair(Text("n"), Text("n"));
    PairIsNormal(Text("n"));
    PairIsJudged(Text("n"));
    assert AcceptedLabels(twins, 1) == [0];
    assert AcceptedLabels(twins, 2) == [0] + [0];
    LocExtends(twins, [0], 0);
    LocExtends(twins, [], 0);
    assert [] + [0] == [0] && Loc(twins, []) == [];
    assert Loc(twins, AcceptedLabels(twins, 2)) == twins + twins;
    assert AcceptsAt(twins, 0) && LabelCount(twins, 0) == 2 && twins[0].index == 0;
    assert Normalize(twins) == twins && |twins| == 2;
    assert !AcceptedLabelsUnique(twins, 2);
  }

  /** Two good rows under one label: each is handed on twice, and a first load repeats their uids. */
  lemma TwinsAreDoubled(next: int, after: Rows)
    requires CommitsTo(map[], next, PlanFor([], Handed(Pair(Text("n"), Text("n")))), after)
    ensures !LabelsUnique(Pair(Text("n"), Text("n"))) && !UniqueUids(after)
  {
    hide Uploaded, Layer.Committed, Handed, LabelsUnique, UidOf;
    var twins := Pair(Text("n"), Text("n"));
    TwinsAreHandedOnTwice();
    var handed := Handed(twins);
    assert UidToObjectId([]) == map[];
    AllRowsAreAdded(handed);
    assert Layer.Allocated(next, Adds(map[], handed), next) == Uploaded(handed[0]);
    assert Layer.Allocated(next, Adds(map[], handed), next + 2) == Uploaded(handed[2]);
    assert after[next] == after[next + 2] == Uploaded(handed[0]);
    UploadedUid(handed[0]);
  }

  /** A rejected row under an accepted row's label is handed on with it. */
  lemma RejectedRowIsHandedOn()
    ensures !AcceptsAt(Normalize(Pair(Text("n"), Missing)), 1)
    ensures PlainRow("b", Missing) in Handed(Pair(Text("n"), Missing))
  {
    hide AcceptsAt, RowsLabelled, Normalize;
    var frame := Pair(Text("n"), Missing);
    PairIsNormal(Missing);
    PairIsJudged(Missing);
    assert AcceptedLabels(frame, 1) == [0] && AcceptedLabels(frame, 2) == [0];
    LocExtends(frame, [], 0);
    assert [] + [0] == [0] && Loc(frame, []) == [];
    assert Handed(frame) == RowsOf(frame);
    assert Handed(frame)[1] == PlainRow("b", Missing);
  }

  /** A target row whose uid lacks the filter's prefix is not found, and its uid is added again. */
  lemma HiddenRowIsDuplicated()
    ensures var row := PlainRow("a", Text("n"));
      var rows: Rows, prefixed := map[1 := Uploaded(row)], (uid: string) => "b" <= uid;
      && Loading(rows, 2, prefixed, [], [row]) && !NothingHidden(rows, prefixed, [row])
      && !UniqueUids(After(rows, 2, [], [row]))
  {
    hide After, Layer.Committed;
    var row := PlainRow("a", Text("n"));
    var rows: Rows, prefixed := map[1 := Uploaded(row)], (uid: string) => "b" <= uid;
    UploadedUid(row);
    assert "b"[0] != "a"[0];
    assert row in [row] && UidOf(rows[1]) == Some("a") && !prefixed("a");
    assert SnapshotOf(rows, prefixed, []);
    UidsStayUniqueIff(rows, 2, prefixed, [], [row]);
  }
}
