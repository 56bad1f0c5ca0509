/** What a normal return of the edit probe says, in terms of the receipts and the rows alone. */
module EditCertificate {
  import opened Common
  import opened FeatureStore
  import opened ConformanceEdits

  // ---- the authored fixtures ---------------------------------------------------------------------------

  /** The fixtures have the shape the protocol was written for. */
  ghost predicate Authored(f: Fixtures) {
    && |f.baseline| == 2
    && ((f.baseline[0].id == Seven && f.baseline[1].id == FortyTwo)
        || (f.baseline[0].id == FortyTwo && f.baseline[1].id == Seven))
    && f.negative.rollbackOnFailure && f.positive.rollbackOnFailure
    && |f.negative.deletes| == 2 && f.negative.deletes[0] == Seven && f.negative.deletes[1] == Eight
    && |f.negative.updates| == 1
    && |f.positive.deletes| == 1 && f.positive.deletes[0] == Seven
    && |f.positive.updates| == 1 && |f.positive.adds| == 1
  }

  lemma AuthoredIff(f: Fixtures)
    ensures Authored(f) <==> ShapeOk(f)
  {
    if ShapeOk(f) {
      BaselineIds(f);
    }
    if Authored(f) {
      assert {f.baseline[0].id, f.baseline[1].id} == {Seven, FortyTwo};
    }
  }

  /** Nothing but a name in text and an area in numbers, and at least one of them. */
  ghost predicate Mapped(attributes: FixtureFields) {
    && (NAME in attributes || AREA in attributes)
    && (forall k | k in attributes :: k == NAME || k == AREA)
    && (NAME in attributes ==> attributes[NAME].kind == "stringValue")
    && (AREA in attributes ==> attributes[AREA].kind == "doubleValue")
  }

  lemma MappedIff(attributes: FixtureFields)
    ensures Mapped(attributes) <==> FixtureAttributes(attributes).Ok?
  {
    assert attributes == map[] ==> NAME !in attributes && AREA !in attributes;
    if k :| k in attributes {
      assert attributes != map[];
    }
  }

  /** The fixtures have attributes that can be sent, and update rows that are there to be updated. */
  ghost predicate Sendable(f: Fixtures)
    requires Authored(f)
  {
    && Mapped(f.baseline[0].attributes) && Mapped(f.baseline[1].attributes)
    && Mapped(f.negative.updates[0].attributes) && Mapped(f.positive.updates[0].attributes)
    && Mapped(f.positive.adds[0].attributes)
    && f.negative.updates[0].id in {Seven, Eight, FortyTwo} && f.positive.updates[0].id == FortyTwo
  }

  lemma SendableIsCertifiable(store: Store, f: Fixtures)
    requires Authored(f) && Sendable(f) && store.conforming && store.next + 2 < 2147483647
    ensures ShapeOk(f) && Certifiable(store, f)
  {
    AuthoredIff(f);
    MappedIff(f.baseline[0].attributes);
    MappedIff(f.baseline[1].attributes);
    MappedIff(f.negative.updates[0].attributes);
    MappedIff(f.positive.updates[0].attributes);
    MappedIff(f.positive.adds[0].attributes);
  }

  /** The row has the fixture's name as its name, its area as its ratio, and its point. */
  ghost predicate IsAsAuthored(row: Feature, attributes: FixtureFields, x: real, y: real) {
    && Mapped(attributes)
    && (NAME in attributes ==> Name in row.attributes && row.attributes[Name] == attributes[NAME].value)
    && (AREA in attributes ==> Ratio in row.attributes && row.attributes[Ratio] == attributes[AREA].value)
    && row.geometry.Some?
    && x - 0.00000001 <= row.geometry.value.x <= x + 0.00000001
    && y - 0.00000001 <= row.geometry.value.y <= y + 0.00000001
  }

  /** A row passes the check against a fixture exactly when it is as the fixture was authored. */
  lemma ShowsIff(row: Feature, expected: FixtureFeature)
    ensures Shows(row, expected) <==> IsAsAuthored(row, expected.attributes, expected.point.x, expected.point.y)
  {
    hide Mapped;
    MappedIff(expected.attributes);
    if Mapped(expected.attributes) {
      var raw, translated := expected.attributes, FixtureAttributes(expected.attributes).value;
      assert NAME in raw ==> Name in translated && translated[Name] == raw[NAME].value;
      assert AREA in raw ==> Ratio in translated && translated[Ratio] == raw[AREA].value;
    }
  }

  // ---- what a return certifies ---------------------------------------------------------------------------

  /** The rows that carry the marker are these and no other. */
  ghost predicate MarkedAre(rows: Rows, marker: string, ids: set<int>) {
    forall id :: id in ids <==>
      id in rows && Description in rows[id].attributes && rows[id].attributes[Description] == Text(marker)
  }

  ghost predicate AllDone(receipts: seq<Receipt>) {
    forall i | 0 <= i < |receipts| :: receipts[i].success && receipts[i].error == None
  }

  ghost predicate Done(reply: EditReply, adds: nat, updates: nat, deletes: nat) {
    && reply.Replied? && reply.allSucceeded
    && |reply.adds| == adds && |reply.updates| == updates && |reply.deletes| == deletes
    && AllDone(reply.adds) && AllDone(reply.updates) && AllDone(reply.deletes)
  }

  /** The batch was refused as a whole, with 1003 for the row that is not there. */
  ghost predicate RefusedWhole(reply: EditReply) {
    && reply.Replied? && !reply.allSucceeded
    && |reply.adds| == 0 && |reply.updates| == 1 && |reply.deletes| == 2
    && !reply.updates[0].success && !reply.deletes[0].success && !reply.deletes[1].success
    && reply.deletes[1].objectId == Some(2147483647) && reply.deletes[1].error == Some(1003)
  }

  /** Both baseline rows, and only they, carry the marker, each as authored under its own id. */
  ghost predicate BaselineStands(f: Fixtures, marker: string, d: Details, rows: Rows)
    requires Authored(f)
  {
    && MarkedAre(rows, marker, {d.seven, d.fortyTwo})
    && forall i | 0 <= i < 2 ::
         var id := if f.baseline[i].id == Seven then d.seven else d.fortyTwo;
         id in rows && IsAsAuthored(rows[id], f.baseline[i].attributes, f.baseline[i].point.x, f.baseline[i].point.y)
  }

  /** The updated row keeps the baseline's attributes but for those the update gives, and keeps its point. */
  ghost predicate UpdatedAsAuthored(f: Fixtures, row: Feature)
    requires Authored(f)
  {
    var before := if f.baseline[0].id == FortyTwo then f.baseline[0] else f.baseline[1];
    exists merged: FixtureFields ::
      && (forall k :: k in merged <==> k in before.attributes || k in f.positive.updates[0].attributes)
      && (forall k | k in merged ::
            merged[k] == if k in f.positive.updates[0].attributes then f.positive.updates[0].attributes[k]
                         else before.attributes[k])
      && IsAsAuthored(row, merged, before.point.x, before.point.y)
  }

  ghost predicate Certificate(f: Fixtures, marker: string, d: Details, steps: seq<Rows>, replies: seq<EditReply>) {
    && Authored(f) && |steps| >= 3 && |replies| >= 3
    && d.seven > 0 && d.fortyTwo > 0 && d.added > 0 && d.added != 2147483647
    && d.seven != d.fortyTwo && d.added != d.seven && d.added != d.fortyTwo
    // the seed
    && Done(replies[0], 2, 0, 0)
    && (forall i | 0 <= i < 2 ::
          replies[0].adds[i].objectId == Some(if f.baseline[i].id == Seven then d.seven else d.fortyTwo))
    && BaselineStands(f, marker, d, steps[0])
    // the refused batch
    && RefusedWhole(replies[1]) && BaselineStands(f, marker, d, steps[1])
    // the committed batch
    && Done(replies[2], 1, 1, 1) && replies[2].adds[0].objectId == Some(d.added)
    && replies[2].updates[0].objectId == Some(d.fortyTwo) && replies[2].deletes[0].objectId == Some(d.seven)
    && MarkedAre(steps[2], marker, {d.fortyTwo, d.added}) && d.fortyTwo in steps[2] && d.added in steps[2]
    && UpdatedAsAuthored(f, steps[2][d.fortyTwo])
    && IsAsAuthored(steps[2][d.added], f.positive.adds[0].attributes, f.positive.adds[0].point.x,
                    f.positive.adds[0].point.y)
  }

  lemma MatchingAreMarked(rows: Rows, marker: string, ids: set<int>)
    requires Matching(rows, ByDescription(marker)) == ids
    ensures MarkedAre(rows, marker, ids)
  {
  }

  lemma CheckedIsDone(reply: EditReply, adds: nat, updates: nat, deletes: nat)
    requires Checked(reply, adds, updates, deletes)
    ensures Done(reply, adds, updates, deletes)
  {
  }

  lemma PresentedStands(f: Fixtures, marker: string, d: Details, rows: Rows)
    requires ShapeOk(f) && Authored(f)
    requires Presents(rows, marker, map[Seven := d.seven, FortyTwo := d.fortyTwo], BaselineRows(f))
    ensures BaselineStands(f, marker, d, rows)
  {
    hide Shows, IsAsAuthored, MarkedAre, Matching;
    BaselineIds(f);
    var ids, expected := map[Seven := d.seven, FortyTwo := d.fortyTwo], BaselineRows(f);
    assert (set key | key in expected :: ids[key]) == {d.seven, d.fortyTwo};
    MatchingAreMarked(rows, marker, {d.seven, d.fortyTwo});
    forall i | 0 <= i < 2
      ensures var id := if f.baseline[i].id == Seven then d.seven else d.fortyTwo;
        id in rows && IsAsAuthored(rows[id], f.baseline[i].attributes, f.baseline[i].point.x, f.baseline[i].point.y)
    {
      var key := f.baseline[i].id;
      assert key in expected && expected[key] == f.baseline[i];
      ShowsIff(rows[ids[key]], expected[key]);
    }
  }

  lemma UpdatedIsAsAuthored(f: Fixtures, row: Feature)
    requires ShapeOk(f) && Authored(f) && Shows(row, UpdatedRow(f))
    ensures UpdatedAsAuthored(f, row)
  {
    hide Shows, IsAsAuthored;
    BaselineIds(f);
    var before := if f.baseline[0].id == FortyTwo then f.baseline[0] else f.baseline[1];
    var merged := before.attributes + f.positive.updates[0].attributes;
    ShowsIff(row, UpdatedRow(f));
    assert UpdatedRow(f).attributes == merged && UpdatedRow(f).point == before.point;
  }

  /** The certificate of the run is all of this. */
  lemma CertifiedMeans(f: Fixtures, marker: string, d: Details, steps: seq<Rows>, replies: seq<EditReply>)
    requires ShapeOk(f) && Certified(f, marker, d, steps, replies)
    ensures Certificate(f, marker, d, steps, replies)
  {
    hide Presents, BaselineStands, Shows, IsAsAuthored, UpdatedAsAuthored, MarkedAre, Matching, BaselineRows, Checked,
         Done;
    AuthoredIff(f);
    BaselineIds(f);
    var ids := map[Seven := d.seven, FortyTwo := d.fortyTwo];
    CheckedIsDone(replies[0], 2, 0, 0);
    CheckedIsDone(replies[2], 1, 1, 1);
    PresentedStands(f, marker, d, steps[0]);
    PresentedStands(f, marker, d, steps[1]);
    MatchingAreMarked(steps[2], marker, {d.fortyTwo, d.added});
    UpdatedIsAsAuthored(f, steps[2][d.fortyTwo]);
    ShowsIff(steps[2][d.added], f.positive.adds[0]);
    var all := ids[Eight := MISSING_ID];
    assert all[Seven] in all.Values && all[FortyTwo] in all.Values && all[Eight] in all.Values;
  }

  /**
   The whole of `apply_edits`: fixtures of another shape are refused before anything is sent, foreign rows
   survive every batch, and a conforming server gets its certificate.
   */
  method CertifyEdits(store: Store, f: Fixtures, marker: string) returns (r: Result<Details>)
    requires store.Valid() && MarkerUnused(store.rows, marker)
    modifies store
    ensures !Authored(f) ==> r.Raised? && store.rows == old(store.rows) && store.history == old(store.history)
    ensures r.Ok? ==>
              && |old(store.history)| <= |store.history| && |old(store.replies)| <= |store.replies|
              && Certificate(f, marker, r.value, store.history[|old(store.history)|..],
                             store.replies[|old(store.replies)|..])
              && store.rows == old(store.rows)
    ensures Spared(old(store.rows), store, |old(store.history)|, marker)
    ensures store.conforming && Authored(f) && Sendable(f) && old(store.next) + 2 < 2147483647 ==> r.Ok?
  {
    hide Certified, Certificate, MarkerUnused, Mapped;
    AuthoredIff(f);
    if store.conforming && Authored(f) && Sendable(f) && store.next + 2 < 2147483647 {
      SendableIsCertifiable(store, f);
    }
    if !ShapeOk(f) {
      return Raised(Error("shared edit fixtures changed"));
    }
    var attempt, cleanup;
    r, attempt, cleanup := ApplyEdits(store, f, marker);
    if r.Ok? {
      CertifiedMeans(f, marker, r.value, store.history[|old(store.history)|..], store.replies[|old(store.replies)|..]);
    }
  }
}
