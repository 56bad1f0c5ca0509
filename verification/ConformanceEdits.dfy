/**
 The certification probe for applyEdits: seed two rows, send an atomic batch that must fail,
 send one that must succeed, read back after each, and always clean up.
 */
module ConformanceEdits {
  import opened Common
  import opened FeatureStore

  /** A fixture attribute with the type tag the shared fixtures write around it. */
  datatype Tagged = Tagged(kind: string, value: Value)

  /** The shared fixtures' attribute names. */
  datatype FixtureField = NAME | AREA | Unmapped(name: string)

  /** The fixtures' own feature ids, and the key the probe gives the row it adds. */
  datatype Key = Seven | Eight | FortyTwo | Added | OtherKey(id: string)

  type FixtureFields = map<FixtureField, Tagged>

  datatype FixtureFeature = FixtureFeature(id: Key, attributes: FixtureFields, point: Point)

  datatype Batch = Batch(
    adds: seq<FixtureFeature>, updates: seq<FixtureFeature>, deletes: seq<Key>, rollbackOnFailure: bool)

  datatype Fixtures = Fixtures(baseline: seq<FixtureFeature>, negative: Batch, positive: Batch)

  datatype Details = Details(seven: int, fortyTwo: int, added: int)

  const MISSING_ID := 2147483647
  const QUERY_LIMIT := 10

  // ---- fixtures --------------------------------------------------------------------------

  /** Maps NAME and AREA onto the seeded layer's fields; anything else is unmapped. */
  function FixtureAttributes(raw: FixtureFields): Result<Attributes> {
    if (NAME in raw && raw[NAME].kind != "stringValue") || (AREA in raw && raw[AREA].kind != "doubleValue") then
      Raised(Error("shared edit fixture attribute has an unexpected type"))
    else if raw == map[] || !(raw.Keys <= {NAME, AREA}) then
      Raised(Error("shared edit fixture has unmapped attributes"))
    else
      Ok((if NAME in raw then map[Name := raw[NAME].value] else map[])
         + if AREA in raw then map[Ratio := raw[AREA].value] else map[])
  }

  predicate ShapeOk(f: Fixtures) {
    && |f.baseline| == 2 && {f.baseline[0].id, f.baseline[1].id} == {Seven, FortyTwo}
    && f.negative.rollbackOnFailure && f.positive.rollbackOnFailure
    && f.negative.deletes == [Seven, Eight] && |f.negative.updates| == 1
    && f.positive.deletes == [Seven] && |f.positive.updates| == 1 && |f.positive.adds| == 1
  }

  function BaselineRow(f: Fixtures, id: Key): FixtureFeature
    requires ShapeOk(f)
  {
    if f.baseline[0].id == id then f.baseline[0] else f.baseline[1]
  }

  function BaselineRows(f: Fixtures): (r: map<Key, FixtureFeature>)
    requires ShapeOk(f)
    ensures r.Keys == {Seven, FortyTwo}
  {
    map[Seven := BaselineRow(f, Seven), FortyTwo := BaselineRow(f, FortyTwo)]
  }

  function UpdatedRow(f: Fixtures): FixtureFeature
    requires ShapeOk(f)
  {
    var row := BaselineRow(f, FortyTwo);
    FixtureFeature(row.id, row.attributes + f.positive.updates[0].attributes, row.point)
  }

  function PositiveRows(f: Fixtures): map<Key, FixtureFeature>
    requires ShapeOk(f)
  {
    map[FortyTwo := UpdatedRow(f), Added := f.positive.adds[0]]
  }

  function TranslatedAdd(f: FixtureFeature, marker: string): Result<Feature> {
    var attributes :- FixtureAttributes(f.attributes);
    Ok(Feature(attributes[Description := Text(marker)], Some(f.point)))
  }

  // ---- what a readback shows ---------------------------------------------------------------

  predicate Near(a: real, b: real) {
    -0.00000001 <= a - b <= 0.00000001
  }

  predicate Shows(row: Feature, expected: FixtureFeature) {
    && FixtureAttributes(expected.attributes).Ok?
    && (forall name | name in FixtureAttributes(expected.attributes).value ::
          name in row.attributes && row.attributes[name] == FixtureAttributes(expected.attributes).value[name])
    && row.geometry.Some?
    && Near(row.geometry.value.x, expected.point.x) && Near(row.geometry.value.y, expected.point.y)
  }

  /** The rows carrying the marker are exactly the expected ones, each as its fixture says. */
  predicate Presents(rows: Rows, marker: string, ids: map<Key, int>, expected: map<Key, FixtureFeature>)
    requires expected.Keys <= ids.Keys
  {
    && Matching(rows, ByDescription(marker)) == (set key | key in expected :: ids[key])
    && forall key | key in expected :: ids[key] in rows && Shows(rows[ids[key]], expected[key])
  }

  // ---- the protocol ----------------------------------------------------------------------------

  /** A readback that the server cut short is not one. */
  method Readback(store: Store, where: Where) returns (r: Result<seq<Hit>>, ghost reply: QueryReply)
    ensures Truthful(store.rows, where, QUERY_LIMIT, reply)
    ensures r.Ok? <==> reply.Found? && !reply.exceeded
    ensures r.Ok? ==> r.value == reply.hits
    ensures store.conforming && |Matching(store.rows, where)| <= QUERY_LIMIT ==>
              r.Ok? && |r.value| == |Matching(store.rows, where)|
    ensures r.Ok? ==> |r.value| <= |Matching(store.rows, where)|
  {
    var answer := store.Query(where, QUERY_LIMIT);
    reply := answer;
    if answer.QueryThrew? {
      r := Raised(answer.fault);
    } else if answer.exceeded {
      r := Raised(Error("readback was truncated"));
    } else {
      r := Ok(answer.hits);
    }
  }

  /** The rows carrying the run's marker; raises when the readback fails, is truncated, too large or names a bad id. */
  method Ours(store: Store, marker: string) returns (r: Result<set<int>>)
    requires store.Valid()
    ensures r.Ok? ==> r.value == Matching(store.rows, ByDescription(marker)) && |r.value| <= 4
    ensures r.Ok? ==> forall id | id in r.value :: id > 0
    ensures store.conforming && |Matching(store.rows, ByDescription(marker))| <= 4 ==> r.Ok?
  {
    var features, reply := Readback(store, ByDescription(marker));
    if features.Raised? {
      return Raised(features.fault);
    }
    if |features.value| > 4 {
      return Raised(Error("scratch readback is unbounded"));
    }
    var rows: set<int> := {};
    for k := 0 to |features.value|
      invariant rows == set h | h in features.value[..k] :: h.id
      invariant |rows| == k && forall id | id in rows :: id > 0
    {
      if features.value[k].id <= 0 {
        assert features.value[k] in features.value;
        return Raised(Error("scratch readback has no valid object id"));
      }
      assert features.value[..k + 1] == features.value[..k] + [features.value[k]];
      assert features.value[k].id !in rows;
      rows := rows + {features.value[k].id};
    }
    assert features.value[..|features.value|] == features.value;
    WholeReadback(store.rows, ByDescription(marker), reply, rows);
    return Ok(rows);
  }

  lemma WholeReadback(rows: Rows, where: Where, reply: QueryReply, ids: set<int>)
    requires Truthful(rows, where, QUERY_LIMIT, reply) && reply.Found? && !reply.exceeded
    requires ids == set h | h in reply.hits :: h.id
    ensures ids == Matching(rows, where)
  {
    forall id | id in Matching(rows, where) ensures id in ids {
      assert Hit(id, rows[id]) in reply.hits;
    }
  }

  method CheckRows(store: Store, marker: string, ids: map<Key, int>, expected: map<Key, FixtureFeature>)
    returns (r: Result<()>)
    requires store.Valid() && expected.Keys <= ids.Keys
    ensures r.Ok? ==> Presents(store.rows, marker, ids, expected)
    ensures store.conforming && |expected| <= 4 && Presents(store.rows, marker, ids, expected) ==> r.Ok?
  {
    ImageIsNoLarger(expected, ids);
    var actual :- Ours(store, marker);
    if actual != set key | key in expected :: ids[key] {
      return Raised(Error("edit readback differs from expected feature ids"));
    }
    assert forall key | key in expected :: ids[key] in actual;
    if key :| key in expected && !Shows(store.rows[ids[key]], expected[key]) {
      return Raised(Error("edit row differs from the authored fixture"));
    }
    return Ok(());
  }

  lemma {:induction false} ImageIsNoLarger(expected: map<Key, FixtureFeature>, ids: map<Key, int>)
    requires expected.Keys <= ids.Keys
    ensures |set key | key in expected :: ids[key]| <= |expected|
  {
    if key :| key in expected {
      var rest := expected - {key};
      ImageIsNoLarger(rest, ids);
      assert (set k | k in expected :: ids[k]) == (set k | k in rest :: ids[k]) + {ids[key]};
      assert |expected.Keys| == |rest.Keys| + 1;
    }
  }

  predicate AllCommitted(receipts: seq<Receipt>) {
    forall r | r in receipts :: r.success && r.error.None?
  }

  /** A response that claims full success, of the right shape and without contradictions. */
  predicate Checked(reply: EditReply, adds: nat, updates: nat, deletes: nat) {
    && reply.Replied? && reply.allSucceeded
    && |reply.adds| == adds && |reply.updates| == updates && |reply.deletes| == deletes
    && AllCommitted(reply.adds) && AllCommitted(reply.updates) && AllCommitted(reply.deletes)
  }

  predicate PositiveId(r: Receipt) {
    r.objectId.Some? && r.objectId.value > 0
  }

  method Seed(store: Store, f: Fixtures, marker: string, ghost initial: Rows) returns (r: Result<map<Key, int>>)
    requires store.Valid() && ShapeOk(f)
    requires initial == store.rows && MarkerUnused(initial, marker)
    modifies store
    ensures store.Valid() && Spared(initial, store, |old(store.history)|, marker)
    ensures r.Ok? ==>
              && r.value.Keys == {Seven, FortyTwo} && r.value[Seven] != r.value[FortyTwo]
              && Presents(store.rows, marker, r.value, BaselineRows(f))
              && store.history == old(store.history) + [store.rows]
              && SeededIds(f, store.replies[|old(store.replies)|]) == r
    ensures Appended(old(store.history), store.history, store.rows) && old(store.replies) <= store.replies
    ensures store.conforming && AttributesOk(f) ==> r.Ok? && store.next == old(store.next) + 2
  {
    var first :- TranslatedAdd(f.baseline[0], marker);
    var second :- TranslatedAdd(f.baseline[1], marker);
    var reply := Send(store, [first, second], [], [], marker, initial);
    assert Spared(initial, store, |old(store.history)|, marker);
    if store.conforming {
      ConformingSeed(initial, old(store.next), f, first, second, marker, store.rows, reply);
    }
    var ids :- SeededIds(f, reply);
    var shown :- CheckRows(store, marker, ids, BaselineRows(f));
    return Ok(ids);
  }

  /** The ids the seeding receipts report, by fixture id. */
  function SeededIds(f: Fixtures, reply: EditReply): (r: Result<map<Key, int>>)
    requires ShapeOk(f)
    ensures r.Ok? ==> r.value.Keys == {Seven, FortyTwo} && r.value[Seven] != r.value[FortyTwo]
    ensures r.Ok? ==> r.value[Seven] > 0 && r.value[FortyTwo] > 0 && Checked(reply, 2, 0, 0)
  {
    BaselineIds(f);
    if !Checked(reply, 2, 0, 0) then
      Raised(Error("applyEdits response is partial or failed"))
    else if !PositiveId(reply.adds[0]) || !PositiveId(reply.adds[1]) then
      Raised(Error("add receipt omitted its allocated object id"))
    else if reply.adds[0].objectId == reply.adds[1].objectId then
      Raised(Error("baseline add returned duplicate ids"))
    else
      Ok(map[f.baseline[0].id := reply.adds[0].objectId.value, f.baseline[1].id := reply.adds[1].objectId.value])
  }

  lemma BaselineIds(f: Fixtures)
    requires ShapeOk(f)
    ensures {f.baseline[0].id, f.baseline[1].id} == {Seven, FortyTwo} && f.baseline[0].id != f.baseline[1].id
  {
    assert Seven in {f.baseline[0].id, f.baseline[1].id} && FortyTwo in {f.baseline[0].id, f.baseline[1].id};
  }

  predicate AttributesOk(f: Fixtures)
    requires ShapeOk(f)
  {
    && FixtureAttributes(f.baseline[0].attributes).Ok? && FixtureAttributes(f.baseline[1].attributes).Ok?
    && FixtureAttributes(f.negative.updates[0].attributes).Ok?
    && FixtureAttributes(f.positive.updates[0].attributes).Ok?
    && FixtureAttributes(f.positive.adds[0].attributes).Ok?
  }

  lemma SeedCommitted(initial: Rows, next: int, first: Feature, second: Feature, rows: Rows)
    requires forall id | id in initial :: id < next
    requires rows == Committed(initial, next, [first, second], [], [])
    ensures next in rows && rows[next] == first && next + 1 in rows && rows[next + 1] == second
    ensures forall id | id in rows :: id == next || id == next + 1 || (id in initial && rows[id] == initial[id])
  {
    CommittedRows(initial, next, [first, second], [], []);
    assert rows[next + 0] == [first, second][0] && rows[next + 1] == [first, second][1];
  }

  lemma ConformingSeed(initial: Rows, next: int, f: Fixtures, first: Feature, second: Feature, marker: string,
                       rows: Rows, reply: EditReply)
    requires ShapeOk(f) && MarkerUnused(initial, marker)
    requires 0 < next && forall id | id in initial :: id < next
    requires TranslatedAdd(f.baseline[0], marker) == Ok(first) && TranslatedAdd(f.baseline[1], marker) == Ok(second)
    requires rows == Committed(initial, next, [first, second], [], [])
    requires reply == CommitReply(next, [first, second], [], [])
    ensures SeededIds(f, reply).Ok? && Presents(rows, marker, SeededIds(f, reply).value, BaselineRows(f))
  {
    SeedCommitted(initial, next, first, second, rows);
    SeededRowsShow(initial, rows, f, marker, SeededIds(f, reply).value);
  }

  lemma SeededRowsShow(initial: Rows, rows: Rows, f: Fixtures, marker: string, ids: map<Key, int>)
    requires ShapeOk(f) && MarkerUnused(initial, marker)
    requires ids.Keys == {Seven, FortyTwo}
    requires var a, b := ids[BaselineIdAt(f, 0)], ids[BaselineIdAt(f, 1)];
             && a in rows && TranslatedAdd(f.baseline[0], marker) == Ok(rows[a])
             && b in rows && TranslatedAdd(f.baseline[1], marker) == Ok(rows[b])
             && forall id | id in rows :: id == a || id == b || (id in initial && rows[id] == initial[id])
    ensures Presents(rows, marker, ids, BaselineRows(f))
  {
    BaselineIds(f);
    UnusedMarkerDescribesNothing(initial, marker);
    TranslatedShows(f.baseline[0], marker);
    TranslatedShows(f.baseline[1], marker);
    PresentsTwo(initial, rows, marker, ids, Seven, BaselineRow(f, Seven), FortyTwo, BaselineRow(f, FortyTwo));
  }

  lemma PresentsTwo(initial: Rows, rows: Rows, marker: string, ids: map<Key, int>,
                    k: Key, first: FixtureFeature, l: Key, second: FixtureFeature)
    requires k != l && k in ids && l in ids
    requires forall id | id in initial :: !Described(initial[id], marker)
    requires ids[k] in rows && Described(rows[ids[k]], marker) && Shows(rows[ids[k]], first)
    requires ids[l] in rows && Described(rows[ids[l]], marker) && Shows(rows[ids[l]], second)
    requires forall id | id in rows :: id == ids[k] || id == ids[l] || (id in initial && rows[id] == initial[id])
    ensures Presents(rows, marker, ids, map[k := first, l := second])
  {
    var expected := map[k := first, l := second];
    assert (set key | key in expected :: ids[key]) == {ids[k], ids[l]};
    assert Matching(rows, ByDescription(marker)) == {ids[k], ids[l]};
  }

  function BaselineIdAt(f: Fixtures, k: nat): (id: Key)
    requires ShapeOk(f) && k < 2
    ensures id in {Seven, FortyTwo}
  {
    BaselineIds(f);
    f.baseline[k].id
  }

  lemma TranslatedShows(expected: FixtureFeature, marker: string)
    requires FixtureAttributes(expected.attributes).Ok?
    ensures TranslatedAdd(expected, marker).Ok? && Shows(TranslatedAdd(expected, marker).value, expected)
    ensures Described(TranslatedAdd(expected, marker).value, marker)
  {
  }

  method RequireAbsent(store: Store) returns (r: Result<()>)
    requires store.Valid()
    ensures r.Ok? ==> MISSING_ID !in store.rows
    ensures store.conforming && store.next <= MISSING_ID ==> r.Ok?
  {
    var features, reply := Readback(store, ByObjectId(MISSING_ID));
    assert store.conforming && store.next <= MISSING_ID ==> Matching(store.rows, ByObjectId(MISSING_ID)) == {};
    if features.Raised? {
      return Raised(features.fault);
    }
    if features.value != [] {
      return Raised(Error("negative fixture's mapped missing target already exists"));
    }
    return Ok(());
  }

  method SendNegative(store: Store, edit: Update, deletes: seq<int>, marker: string, ghost initial: Rows)
    returns (r: Result<()>)
    requires store.Valid() && ForeignUntouched(initial, store.rows, marker)
    requires edit.id !in initial && Description !in edit.attributes
    requires |deletes| == 2 && deletes[0] !in initial && deletes[1] == MISSING_ID && MISSING_ID !in store.rows
    modifies store
    ensures store.Valid() && ForeignUntouched(initial, store.rows, marker)
    ensures store.history == old(store.history) + [store.rows]
    ensures |store.replies| == |old(store.replies)| + 1 && old(store.replies) <= store.replies
    ensures r.Ok? <==> RefusedMissing(store.replies[|old(store.replies)|])
    ensures store.conforming ==> r.Ok? && store.rows == old(store.rows) && store.next == old(store.next)
  {
    ConformingRefusal(store.rows, edit, deletes);
    var reply := Send(store, [], [edit], deletes, marker, initial);
    if !RefusedMissing(reply) {
      return Raised(Error("negative applyEdits response is not a refusal of the missing target"));
    }
    return Ok(());
  }

  /** Sends the batch whose second delete names a row that does not exist: nothing may change. */
  method Negative(store: Store, f: Fixtures, marker: string, baselineIds: map<Key, int>, ghost initial: Rows)
    returns (r: Result<map<Key, int>>)
    requires store.Valid() && ShapeOk(f)
    requires ForeignUntouched(initial, store.rows, marker) && MarkerUnused(initial, marker)
    requires baselineIds.Keys == {Seven, FortyTwo} && Presents(store.rows, marker, baselineIds, BaselineRows(f))
    modifies store
    ensures store.Valid() && ForeignUntouched(initial, store.rows, marker)
    ensures Appended(old(store.history), store.history, store.rows)
    ensures r.Ok? ==>
              && r.value == baselineIds[Eight := MISSING_ID] && MISSING_ID !in old(store.rows)
              && Presents(store.rows, marker, r.value, BaselineRows(f))
              && store.history == old(store.history) + [store.rows]
              && RefusedMissing(store.replies[|old(store.replies)|])
    ensures old(store.replies) <= store.replies
    ensures NegativeSucceeds(store, f, old(store.next)) ==> r.Ok? && store.next == old(store.next)
  {
    hide Presents, BaselineRows, MarkerUnused, ForeignUntouched;
    var absent :- RequireAbsent(store);
    var ids := baselineIds[Eight := MISSING_ID];
    var update := f.negative.updates[0];
    if update.id !in ids {
      return Raised(Error("unknown fixture id"));
    }
    var attributes :- FixtureAttributes(update.attributes);
    var edit, deletes := Update(ids[update.id], attributes, None), [ids[Seven], MISSING_ID];
    MoreIdsPresentTheSame(store.rows, marker, baselineIds, Eight, MISSING_ID, BaselineRows(f));
    NegativeNamesNoForeignRow(initial, store.rows, f, marker, ids);
    var refused :- SendNegative(store, edit, deletes, marker, initial);
    var shown :- CheckRows(store, marker, ids, BaselineRows(f));
    return Ok(ids);
  }

  lemma ConformingRefusal(rows: Rows, edit: Update, deletes: seq<int>)
    requires |deletes| == 2 && deletes[1] == MISSING_ID && MISSING_ID !in rows
    ensures !Applicable(rows, [edit], deletes) && RefusedMissing(RejectReply(rows, [], [edit], deletes))
  {
    assert deletes[1] in deletes;
  }

  lemma MoreIdsPresentTheSame(rows: Rows, marker: string, ids: map<Key, int>, key: Key, id: int,
                              expected: map<Key, FixtureFeature>)
    requires expected.Keys <= ids.Keys && key !in expected && Presents(rows, marker, ids, expected)
    ensures Presents(rows, marker, ids[key := id], expected)
  {
    assert (set k | k in expected :: ids[key := id][k]) == (set k | k in expected :: ids[k]);
  }

  predicate NegativeSucceeds(store: Store, f: Fixtures, next: int)
    requires ShapeOk(f)
    reads store
  {
    store.conforming && AttributesOk(f) && next <= MISSING_ID && f.negative.updates[0].id in {Seven, Eight, FortyTwo}
  }

  lemma NegativeNamesNoForeignRow(initial: Rows, rows: Rows, f: Fixtures, marker: string, ids: map<Key, int>)
    requires ShapeOk(f) && ForeignUntouched(initial, rows, marker) && MarkerUnused(initial, marker)
    requires ids.Keys == {Seven, FortyTwo, Eight} && ids[Eight] == MISSING_ID && MISSING_ID !in rows
    requires Presents(rows, marker, ids, BaselineRows(f))
    ensures forall key | key in ids :: ids[key] !in initial
  {
    OursAreNotForeign(initial, rows, marker);
    assert Seven in BaselineRows(f) && FortyTwo in BaselineRows(f);
    assert ids[Seven] in Matching(rows, ByDescription(marker))
        && ids[FortyTwo] in Matching(rows, ByDescription(marker));
  }

  /** No edit is reported as committed, and the missing delete is reported as not found. */
  predicate RefusedMissing(reply: EditReply) {
    && reply.Replied? && reply.adds == [] && |reply.updates| == 1 && |reply.deletes| == 2
    && !reply.allSucceeded
    && !reply.updates[0].success && !reply.deletes[0].success && !reply.deletes[1].success
    && reply.deletes[1].objectId == Some(MISSING_ID) && reply.deletes[1].error == Some(DELETE_NOT_FOUND)
  }

  /** The id the positive batch's receipts report for its add, once they name the intended targets. */
  function AddedId(reply: EditReply, ids: map<Key, int>): (r: Result<int>)
    requires ids.Keys == {Seven, FortyTwo, Eight}
    ensures r.Ok? ==> r.value !in ids.Values && r.value > 0 && Checked(reply, 1, 1, 1)
    ensures r.Ok? ==> reply.updates[0].objectId == Some(ids[FortyTwo]) && reply.deletes[0].objectId == Some(ids[Seven])
  {
    if !Checked(reply, 1, 1, 1) then
      Raised(Error("applyEdits response is partial or failed"))
    else if reply.updates[0].objectId != Some(ids[FortyTwo]) || reply.deletes[0].objectId != Some(ids[Seven]) then
      Raised(Error("positive update/delete receipts name different targets"))
    else if !PositiveId(reply.adds[0]) || reply.adds[0].objectId.value in ids.Values then
      Raised(Error("positive add did not allocate a distinct id"))
    else
      Ok(reply.adds[0].objectId.value)
  }

  method SendPositive(store: Store, f: Fixtures, marker: string, ids: map<Key, int>, add: Feature, edit: Update,
                      ghost initial: Rows)
    returns (r: Result<int>)
    requires store.Valid() && ShapeOk(f)
    requires ForeignUntouched(initial, store.rows, marker) && MarkerUnused(initial, marker)
    requires ids.Keys == {Seven, FortyTwo, Eight} && ids[Seven] != ids[FortyTwo] && ids[Eight] == MISSING_ID
    requires forall key | key in ids :: ids[key] !in initial
    requires Presents(store.rows, marker, ids, BaselineRows(f))
    requires TranslatedAdd(f.positive.adds[0], marker) == Ok(add)
    requires f.positive.updates[0].id in ids && edit.id == ids[f.positive.updates[0].id] && edit.geometry == None
    requires Ok(edit.attributes) == FixtureAttributes(f.positive.updates[0].attributes)
    modifies store
    ensures store.Valid() && ForeignUntouched(initial, store.rows, marker)
    ensures store.history == old(store.history) + [store.rows]
    ensures |store.replies| == |old(store.replies)| + 1 && old(store.replies) <= store.replies
    ensures r == AddedId(store.replies[|old(store.replies)|], ids)
    ensures PositiveSucceeds(store, f, old(store.next)) ==>
              r.Ok? && Presents(store.rows, marker, ids[Added := r.value], PositiveRows(f))
  {
    hide Presents, BaselineRows, PositiveRows, MarkerUnused;
    ghost var before, next := store.rows, store.next;
    var reply := Send(store, [add], [edit], [ids[Seven]], marker, initial);
    if PositiveSucceeds(store, f, next) {
      ConformingPositive(initial, before, next, f, marker, ids, add, edit, store.rows, store.next, reply);
    }
    r := AddedId(reply, ids);
  }

  /** Sends the batch that updates one seeded row, deletes the other and adds a third. */
  method Positive(store: Store, f: Fixtures, marker: string, ids: map<Key, int>, ghost initial: Rows)
    returns (r: Result<Details>)
    requires store.Valid() && ShapeOk(f)
    requires ForeignUntouched(initial, store.rows, marker) && MarkerUnused(initial, marker)
    requires ids.Keys == {Seven, FortyTwo, Eight} && ids[Seven] != ids[FortyTwo]
    requires ids[Eight] == MISSING_ID && MISSING_ID !in initial
    requires Presents(store.rows, marker, ids, BaselineRows(f))
    modifies store
    ensures store.Valid() && ForeignUntouched(initial, store.rows, marker)
    ensures Appended(old(store.history), store.history, store.rows)
    ensures store.history == old(store.history) ==> store.rows == old(store.rows)
    ensures r.Ok? ==>
              && r.value.seven == ids[Seven] && r.value.fortyTwo == ids[FortyTwo]
              && ShowsPositive(store.rows, marker, r.value, f)
              && store.history == old(store.history) + [store.rows]
              && AddedId(store.replies[|old(store.replies)|], ids) == Ok(r.value.added)
    ensures old(store.replies) <= store.replies
    ensures PositiveSucceeds(store, f, old(store.next)) ==> r.Ok?
  {
    hide Presents, BaselineRows, MarkerUnused, ForeignUntouched, ShowsPositive;
    var update := f.positive.updates[0];
    var add :- TranslatedAdd(f.positive.adds[0], marker);
    if update.id !in ids {
      return Raised(Error("unknown fixture id"));
    }
    var attributes :- FixtureAttributes(update.attributes);
    var edit := Update(ids[update.id], attributes, None);
    PositiveNamesNoForeignRow(initial, store.rows, f, marker, ids);
    var added :- SendPositive(store, f, marker, ids, add, edit, initial);
    var shown :- CheckRows(store, marker, ids[Added := added], PositiveRows(f));
    PositiveReadback(store.rows, marker, ids, added, f);
    return Ok(Details(ids[Seven], ids[FortyTwo], added));
  }

  predicate PositiveSucceeds(store: Store, f: Fixtures, next: int)
    requires ShapeOk(f)
    reads store
  {
    store.conforming && AttributesOk(f) && next < MISSING_ID && f.positive.updates[0].id == FortyTwo
  }

  /** The marked rows are the updated and the added one; the deleted one is gone. */
  predicate ShowsPositive(rows: Rows, marker: string, d: Details, f: Fixtures)
    requires ShapeOk(f)
  {
    && Matching(rows, ByDescription(marker)) == {d.fortyTwo, d.added}
    && d.fortyTwo != d.added && d.fortyTwo in rows && d.added in rows
    && Shows(rows[d.fortyTwo], UpdatedRow(f)) && Shows(rows[d.added], f.positive.adds[0])
  }

  lemma PositiveReadback(rows: Rows, marker: string, ids: map<Key, int>, added: int, f: Fixtures)
    requires ShapeOk(f) && ids.Keys == {Seven, FortyTwo, Eight} && added !in ids.Values
    requires Presents(rows, marker, ids[Added := added], PositiveRows(f))
    ensures ShowsPositive(rows, marker, Details(ids[Seven], ids[FortyTwo], added), f)
  {
    var all := ids[Added := added];
    assert FortyTwo in PositiveRows(f) && Added in PositiveRows(f) && all[FortyTwo] == ids[FortyTwo]
        && all[Added] == added;
    assert (set key | key in PositiveRows(f) :: all[key]) == {all[FortyTwo], all[Added]};
  }

  lemma PositiveNamesNoForeignRow(initial: Rows, rows: Rows, f: Fixtures, marker: string, ids: map<Key, int>)
    requires ShapeOk(f) && ForeignUntouched(initial, rows, marker) && MarkerUnused(initial, marker)
    requires ids.Keys == {Seven, FortyTwo, Eight} && ids[Eight] == MISSING_ID && MISSING_ID !in initial
    requires Presents(rows, marker, ids, BaselineRows(f))
    ensures forall key | key in ids :: ids[key] !in initial
    ensures ids[Seven] in rows && ids[FortyTwo] in rows
    ensures Described(rows[ids[FortyTwo]], marker)
    ensures Matching(rows, ByDescription(marker)) == {ids[Seven], ids[FortyTwo]}
  {
    OursAreNotForeign(initial, rows, marker);
    assert Seven in BaselineRows(f) && FortyTwo in BaselineRows(f);
    assert ids[Seven] in Matching(rows, ByDescription(marker))
        && ids[FortyTwo] in Matching(rows, ByDescription(marker));
  }

  /** Reading NAME and AREA commutes with overriding fixture attributes. */
  lemma OverriddenAttributes(a: FixtureFields, b: FixtureFields)
    requires FixtureAttributes(a).Ok? && FixtureAttributes(b).Ok?
    ensures FixtureAttributes(a + b) == Ok(FixtureAttributes(a).value + FixtureAttributes(b).value)
  {
    var merged := a + b;
    assert NAME in merged ==> merged[NAME] == if NAME in b then b[NAME] else a[NAME];
    assert AREA in merged ==> merged[AREA] == if AREA in b then b[AREA] else a[AREA];
    var k :| k in a;
    assert k in merged;
    var left, right := FixtureAttributes(merged).value, FixtureAttributes(a).value + FixtureAttributes(b).value;
    assert left.Keys == right.Keys;
    assert left == right;
  }

  /** What the committed positive batch leaves: the updated row, the added row and nothing else of ours. */
  lemma CommittedPositive(before: Rows, next: int, add: Feature, edit: Update, seven: int, rows: Rows)
    requires forall id | id in before :: id < next
    requires edit.id in before && seven in before && edit.id != seven
    requires rows == Committed(before, next, [add], [edit], [seven])
    ensures next in rows && rows[next] == add
    ensures edit.id in rows && rows[edit.id] == Merged(before[edit.id], edit)
    ensures forall id | id in rows && id != edit.id && id != next ::
              id in before && id != seven && rows[id] == before[id]
  {
    CommittedRows(before, next, [add], [edit], [seven]);
    assert rows[next + 0] == [add][0];
    assert UpdateFor([edit], edit.id) == Some(edit);
  }

  lemma MergedShowsUpdate(f: Fixtures, row: Feature, edit: Update)
    requires ShapeOk(f) && AttributesOk(f) && Shows(row, BaselineRow(f, FortyTwo))
    requires Ok(edit.attributes) == FixtureAttributes(f.positive.updates[0].attributes) && edit.geometry == None
    ensures Shows(Merged(row, edit), UpdatedRow(f)) && Description !in edit.attributes
  {
    OverriddenAttributes(BaselineRow(f, FortyTwo).attributes, f.positive.updates[0].attributes);
  }

  lemma PositiveRowsShow(initial: Rows, before: Rows, next: int, f: Fixtures, marker: string, ids: map<Key, int>,
                         add: Feature, edit: Update, rows: Rows)
    requires ShapeOk(f) && AttributesOk(f)
    requires ForeignUntouched(initial, before, marker) && MarkerUnused(initial, marker)
    requires ids.Keys == {Seven, FortyTwo, Eight} && ids[Eight] == MISSING_ID && MISSING_ID !in initial
    requires Presents(before, marker, ids, BaselineRows(f))
    requires TranslatedAdd(f.positive.adds[0], marker) == Ok(add)
    requires Ok(edit.attributes) == FixtureAttributes(f.positive.updates[0].attributes) && edit.geometry == None
    requires edit.id == ids[FortyTwo]
    requires next in rows && rows[next] == add
    requires edit.id in before && edit.id in rows && rows[edit.id] == Merged(before[edit.id], edit)
    requires forall id | id in rows && id != edit.id && id != next ::
               id in before && id != ids[Seven] && rows[id] == before[id]
    ensures Presents(rows, marker, ids[Added := next], PositiveRows(f))
  {
    hide AttributesOk, FixtureAttributes;
    PositiveNamesNoForeignRow(initial, before, f, marker, ids);
    assert FortyTwo in BaselineRows(f);
    MergedShowsUpdate(f, before[edit.id], edit);
    TranslatedShows(f.positive.adds[0], marker);
    UnusedMarkerDescribesNothing(initial, marker);
    assert Described(rows[edit.id], marker);
    forall id | id in rows && id != edit.id && id != next ensures id in initial && rows[id] == initial[id] {
      assert id !in Matching(before, ByDescription(marker));
    }
    PresentsTwo(initial, rows, marker, ids[Added := next], FortyTwo, UpdatedRow(f), Added, f.positive.adds[0]);
  }

  lemma ConformingPositiveReply(before: Rows, next: int, add: Feature, edit: Update, ids: map<Key, int>,
                                reply: EditReply)
    requires ids.Keys == {Seven, FortyTwo, Eight} && ids[Eight] == MISSING_ID && edit.id == ids[FortyTwo]
    requires 0 < next < MISSING_ID && ids[Seven] < next && ids[FortyTwo] < next
    requires reply == CommitReply(next, [add], [edit], [ids[Seven]])
    ensures AddedId(reply, ids) == Ok(next)
  {
  }

  lemma ConformingPositive(initial: Rows, before: Rows, next: int, f: Fixtures, marker: string, ids: map<Key, int>,
                           add: Feature, edit: Update, rows: Rows, nextAfter: int, reply: EditReply)
    requires ShapeOk(f) && AttributesOk(f)
    requires ForeignUntouched(initial, before, marker) && MarkerUnused(initial, marker)
    requires ids.Keys == {Seven, FortyTwo, Eight} && ids[Seven] != ids[FortyTwo] && ids[Eight] == MISSING_ID
    requires MISSING_ID !in initial
    requires Presents(before, marker, ids, BaselineRows(f))
    requires 0 < next < MISSING_ID && forall id | id in before :: id < next
    requires TranslatedAdd(f.positive.adds[0], marker) == Ok(add)
    requires Ok(edit.attributes) == FixtureAttributes(f.positive.updates[0].attributes)
    requires edit.id == ids[FortyTwo] && edit.geometry == None
    requires Exact(before, next, [add], [edit], [ids[Seven]], rows, nextAfter, reply)
    ensures AddedId(reply, ids) == Ok(next)
    ensures Presents(rows, marker, ids[Added := next], PositiveRows(f))
  {
    PositiveNamesNoForeignRow(initial, before, f, marker, ids);
    assert Applicable(before, [edit], [ids[Seven]]);
    ConformingPositiveReply(before, next, add, edit, ids, reply);
    CommittedPositive(before, next, add, edit, ids[Seven], rows);
    PositiveRowsShow(initial, before, next, f, marker, ids, add, edit, rows);
  }

  /** A conforming server with room for two ids below the missing one, and fixtures that say what they should. */
  predicate Certifiable(store: Store, f: Fixtures)
    requires ShapeOk(f)
    reads store
  {
    && store.conforming && AttributesOk(f) && store.next + 2 < MISSING_ID
    && f.negative.updates[0].id in {Seven, Eight, FortyTwo} && f.positive.updates[0].id == FortyTwo
  }

  /**
   What a normal return certifies about the replies to the seed, the refused and the committed batch,
   and the rows after each.
   */
  ghost predicate Certified(f: Fixtures, marker: string, d: Details, steps: seq<Rows>, replies: seq<EditReply>)
    requires ShapeOk(f)
  {
    var ids := map[Seven := d.seven, FortyTwo := d.fortyTwo];
    && |steps| >= 3 && |replies| >= 3
    && SeededIds(f, replies[0]) == Ok(ids)
    && RefusedMissing(replies[1])
    && AddedId(replies[2], ids[Eight := MISSING_ID]) == Ok(d.added)
    && Presents(steps[0], marker, ids, BaselineRows(f))
    && Presents(steps[1], marker, ids, BaselineRows(f))
    && ShowsPositive(steps[2], marker, d, f)
  }

  /** The two batches sent once the baseline is in place. */
  method Batches(store: Store, f: Fixtures, marker: string, ids: map<Key, int>, ghost initial: Rows)
    returns (r: Result<Details>)
    requires store.Valid() && ShapeOk(f)
    requires ForeignUntouched(initial, store.rows, marker) && MarkerUnused(initial, marker)
    requires ids.Keys == {Seven, FortyTwo} && ids[Seven] != ids[FortyTwo]
    requires Presents(store.rows, marker, ids, BaselineRows(f))
    modifies store
    ensures store.Valid() && old(store.history) <= store.history && old(store.replies) <= store.replies
    ensures Spared(initial, store, |old(store.history)|, marker)
    ensures r.Ok? ==>
              && r.value.seven == ids[Seven] && r.value.fortyTwo == ids[FortyTwo]
              && |store.history| == |old(store.history)| + 2
              && RefusedMissing(store.replies[|old(store.replies)|])
              && AddedId(store.replies[|old(store.replies)| + 1], ids[Eight := MISSING_ID]) == Ok(r.value.added)
              && Presents(store.history[|old(store.history)|], marker, ids, BaselineRows(f))
              && store.history[|old(store.history)| + 1] == store.rows
              && ShowsPositive(store.rows, marker, r.value, f)
    ensures NegativeSucceeds(store, f, old(store.next)) && PositiveSucceeds(store, f, old(store.next)) ==> r.Ok?
  {
    hide Presents, ShowsPositive, MarkerUnused, AttributesOk, BaselineRows;
    var all :- Negative(store, f, marker, ids, initial);
    FewerIdsPresentTheSame(store.rows, marker, ids, all, BaselineRows(f));
    r := Positive(store, f, marker, all, initial);
  }

  /** The body of the `try`. */
  method Attempt(store: Store, f: Fixtures, marker: string) returns (r: Result<Details>)
    requires store.Valid() && ShapeOk(f) && MarkerUnused(store.rows, marker)
    modifies store
    ensures store.Valid() && old(store.history) <= store.history && old(store.replies) <= store.replies
    ensures Spared(old(store.rows), store, |old(store.history)|, marker)
    ensures r.Ok? ==>
              && Certified(f, marker, r.value, store.history[|old(store.history)|..],
                           store.replies[|old(store.replies)|..])
              && ShowsPositive(store.rows, marker, r.value, f)
    ensures old(Certifiable(store, f)) ==> r.Ok?
  {
    hide Presents, ShowsPositive, MarkerUnused, AttributesOk, BaselineRows;
    ghost var initial := store.rows;
    var ids :- Seed(store, f, marker, initial);
    assert ids == map[Seven := ids[Seven], FortyTwo := ids[FortyTwo]];
    r := Batches(store, f, marker, ids, initial);
  }

  lemma FewerIdsPresentTheSame(rows: Rows, marker: string, ids: map<Key, int>, all: map<Key, int>,
                               expected: map<Key, FixtureFeature>)
    requires expected.Keys <= ids.Keys <= all.Keys && forall key | key in ids :: ids[key] == all[key]
    requires Presents(rows, marker, all, expected)
    ensures Presents(rows, marker, ids, expected)
  {
    assert (set k | k in expected :: all[k]) == (set k | k in expected :: ids[k]);
  }

  /** The `finally` block: delete exactly the marked rows and check that none is left. */
  method Cleanup(store: Store, marker: string, ghost initial: Rows) returns (r: Result<()>)
    requires store.Valid() && ForeignUntouched(initial, store.rows, marker) && MarkerUnused(initial, marker)
    modifies store
    ensures store.Valid() && ForeignUntouched(initial, store.rows, marker)
    ensures Appended(old(store.history), store.history, store.rows) && old(store.replies) <= store.replies
    ensures store.history == old(store.history) ==> store.rows == old(store.rows)
    ensures r.Ok? ==> store.rows == initial
    ensures store.conforming && |Matching(old(store.rows), ByDescription(marker))| <= 4 ==> r.Ok?
  {
    var remaining :- Ours(store, marker);
    if remaining != {} {
      OursAreNotForeign(initial, store.rows, marker);
      var deletes := ListSet(remaining);
      ghost var before, next := store.rows, store.next;
      var reply := Send(store, [], [], deletes, marker, initial);
      if store.conforming {
        CommittedRows(before, next, [], [], deletes);
        assert Matching(store.rows, ByDescription(marker)) == {};
      }
      if !Checked(reply, 0, 0, |deletes|) {
        return Raised(Error("applyEdits response is partial or failed"));
      }
      var left :- Ours(store, marker);
      if left != {} {
        return Raised(Error("SDK scratch cleanup left features behind"));
      }
    }
    NoMarkerRowsMeansRestored(initial, store.rows, marker);
    return Ok(());
  }

  /** What happens later does not take a certificate back. */
  lemma CertificateStands(f: Fixtures, marker: string, d: Details, steps: seq<Rows>, more: seq<Rows>,
                          replies: seq<EditReply>, moreReplies: seq<EditReply>)
    requires ShapeOk(f) && Certified(f, marker, d, steps, replies) && steps <= more && replies <= moreReplies
    ensures Certified(f, marker, d, more, moreReplies)
  {
    hide Presents, ShowsPositive, SeededIds, AddedId, RefusedMissing;
  }

  /**
   The whole probe. Foreign rows survive every batch on every exit; an exit whose cleanup succeeds
   leaves the store as it was; a normal return is a certificate; a conforming server gets one.
   */
  method ApplyEdits(store: Store, f: Fixtures, marker: string)
    returns (exit: Result<Details>, attempt: Result<Details>, cleanup: Result<()>)
    requires store.Valid() && ShapeOk(f) && MarkerUnused(store.rows, marker)
    modifies store
    ensures old(store.history) <= store.history && old(store.replies) <= store.replies
    ensures Spared(old(store.rows), store, |old(store.history)|, marker)
    ensures cleanup.Ok? ==> store.rows == old(store.rows) && exit == attempt
    ensures cleanup.Raised? ==> exit == Raised(cleanup.fault)
    ensures exit.Ok? ==>
              Certified(f, marker, exit.value, store.history[|old(store.history)|..],
                        store.replies[|old(store.replies)|..])
    ensures old(Certifiable(store, f)) ==> exit.Ok?
  {
    hide MarkerUnused, ForeignUntouched, Certified;
    ghost var initial, start := store.rows, |store.history|;
    attempt := Attempt(store, f, marker);
    ghost var history, replies := store.history, store.replies;
    cleanup := Cleanup(store, marker, initial);
    if attempt.Ok? {
      CertificateStands(f, marker, attempt.value, history[start..], store.history[start..],
                        replies[start..], store.replies[start..]);
    }
    exit := if cleanup.Raised? then Raised(cleanup.fault) else attempt;
  }
}
