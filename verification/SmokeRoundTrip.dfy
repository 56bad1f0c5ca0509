/**
 The staging smoke probe for applyEdits: add one row, read it back, update it, read it back,
 and clean up whatever carries the run's description or was reported as created.
 */
module SmokeRoundTrip {
  import opened Common
  import opened FeatureStore

  /** How the probe leaves: normally, or raising an error that may carry the cleanup's error. */
  datatype Exit = Returned | Raises(fault: Fault, cleanupError: Option<Fault>)

  const INITIAL_GEOMETRY := Point(-122.4013, 37.7925)
  const UPDATED_GEOMETRY := Point(-122.4008, 37.7931)
  const WRITE_QUERY_LIMIT := 25

  predicate Near(a: Point, b: Point) {
    -0.000001 <= a.x - b.x <= 0.000001 && -0.000001 <= a.y - b.y <= 0.000001
  }

  function SmokeAttributes(uid: string, description: string, name: string, status: string, count: real): Attributes {
    map[Uid := Text(uid), Name := Text(name), Status := Text(status), Count := Number(count),
        Description := Text(description)]
  }

  predicate ShowsFields(f: Feature, uid: string, description: string, name: string, status: string, count: real,
                        geometry: Point)
  {
    var expected := SmokeAttributes(uid, description, name, status, count);
    && (forall field | field in expected :: field in f.attributes && f.attributes[field] == expected[field])
    && f.geometry.Some? && Near(f.geometry.value, geometry)
  }

  /** The point up to a millionth of a degree either way. */
  ghost predicate At(f: Feature, x: real, y: real) {
    && f.geometry.Some?
    && x - 0.000001 <= f.geometry.value.x <= x + 0.000001 && y - 0.000001 <= f.geometry.value.y <= y + 0.000001
  }

  ghost predicate Fields(f: Feature, uid: string, description: string, name: string, status: string, count: real) {
    && {Uid, Name, Status, Count, Description} <= f.attributes.Keys
    && f.attributes[Uid] == Text(uid) && f.attributes[Description] == Text(description)
    && f.attributes[Name] == Text(name) && f.attributes[Status] == Text(status)
    && f.attributes[Count] == Number(count)
  }

  /** The one described row, as it was added. */
  ghost predicate ShowsAdded(rows: Rows, id: int, uid: string, description: string) {
    && id in rows && Matching(rows, ByDescription(description)) == {id}
    && Fields(rows[id], uid, description, "SDK smoke add", "active", 1.0) && At(rows[id], -122.4013, 37.7925)
  }

  /** And as it was rewritten. */
  ghost predicate ShowsUpdated(rows: Rows, id: int, uid: string, description: string) {
    && id in rows && Matching(rows, ByDescription(description)) == {id}
    && Fields(rows[id], uid, description, "SDK smoke updated", "inactive", 2.0) && At(rows[id], -122.4008, 37.7931)
  }

  lemma FieldsAreShown(f: Feature, uid: string, description: string, name: string, status: string, count: real,
                       geometry: Point)
    ensures ShowsFields(f, uid, description, name, status, count, geometry)
       <==> Fields(f, uid, description, name, status, count) && At(f, geometry.x, geometry.y)
  {
    var expected := SmokeAttributes(uid, description, name, status, count);
    assert Uid in expected && Name in expected && Status in expected && Count in expected && Description in expected;
  }

  predicate AnySuccess(receipts: seq<Receipt>) {
    exists r | r in receipts :: r.success
  }

  function FirstSuccess(receipts: seq<Receipt>): (r: Receipt)
    requires AnySuccess(receipts)
    ensures r.success
    ensures exists i :: 0 <= i < |receipts| && receipts[i] == r && forall j | 0 <= j < i :: !receipts[j].success
  {
    if receipts[0].success then receipts[0]
    else
      var rest := receipts[1..];
      assert AnySuccess(rest) by {
        var x :| x in receipts && x.success;
        assert x in rest;
      }
      var r := FirstSuccess(rest);
      assert exists i :: 0 <= i < |receipts| && receipts[i] == r && forall j | 0 <= j < i :: !receipts[j].success by {
        var i :| 0 <= i < |rest| && rest[i] == r && forall j | 0 <= j < i :: !rest[j].success;
        assert receipts[i + 1] == r && forall j | 0 <= j < i + 1 :: j > 0 ==> receipts[j] == rest[j - 1];
      }
      r
  }

  method QuerySingle(store: Store, description: string) returns (r: Result<Hit>)
    ensures r.Ok? ==>
              && r.value.id in store.rows && store.rows[r.value.id] == r.value.feature
              && Matching(store.rows, ByDescription(description)) == {r.value.id}
    ensures store.conforming && |Matching(store.rows, ByDescription(description))| == 1 ==> r.Ok?
  {
    var reply := store.Query(ByDescription(description), 2);
    if reply.QueryThrew? {
      return Raised(reply.fault);
    }
    if |reply.hits| != 1 {
      return Raised(Error("expected one smoke feature"));
    }
    var hit := reply.hits[0];
    forall id | id in Matching(store.rows, ByDescription(description)) ensures id == hit.id {
      assert Hit(id, store.rows[id]) in reply.hits;
    }
    return Ok(hit);
  }

  /** Adds the smoke row; the id its receipt reports is noted unchecked, before any readback. */
  method Add(store: Store, uid: string, description: string, ghost initial: Rows)
    returns (r: Result<()>, known: set<int>)
    requires store.Valid() && store.rows == initial && MarkerUnused(initial, description)
    modifies store
    ensures store.Valid() && ForeignUntouched(initial, store.rows, description)
    ensures store.history == old(store.history) + [store.rows]
    ensures store.honest ==> known !! initial.Keys && known <= store.rows.Keys
    ensures store.conforming ==>
              r.Ok? && known == {old(store.next)} && AddedAlone(initial, store.rows, old(store.next), uid, description)
  {
    var add := SmokeRow(uid, description);
    ghost var next := store.next;
    var reply := Send(store, [add], [], [], description, initial);
    if store.conforming {
      ConformingAdd(initial, next, add, store.rows, reply);
    }
    if reply.Threw? {
      return Raised(reply.fault), {};
    }
    if !AnySuccess(reply.adds) {
      return Raised(Error("no add succeeded")), {};
    }
    var receipt := FirstSuccess(reply.adds);
    known := if receipt.objectId.Some? then {receipt.objectId.value} else {};
    return Ok(()), known;
  }

  ghost predicate AddedAlone(initial: Rows, rows: Rows, id: int, uid: string, description: string) {
    && id in rows && id !in initial
    && rows[id] == SmokeRow(uid, description)
    && forall i | i in rows && i != id :: i in initial && rows[i] == initial[i]
  }

  lemma ConformingAdd(initial: Rows, next: int, add: Feature, rows: Rows, reply: EditReply)
    requires forall id | id in initial :: id < next
    requires rows == Committed(initial, next, [add], [], []) && reply == CommitReply(next, [add], [], [])
    ensures next in rows && rows[next] == add
    ensures forall id | id in rows && id != next :: id in initial && rows[id] == initial[id]
    ensures reply.adds == [Receipt(Some(next), true, None)] && AnySuccess(reply.adds)
  {
    CommittedRows(initial, next, [add], [], []);
    assert rows[next + 0] == [add][0];
    assert reply.adds[0].success && reply.adds[0] in reply.adds;
  }

  /** Reads the row back, notes its id, rewrites it and reads it back again. */
  method ReadAndUpdate(store: Store, uid: string, description: string, reported: set<int>, ghost initial: Rows)
    returns (r: Result<()>, known: set<int>)
    requires store.Valid()
    requires ForeignUntouched(initial, store.rows, description) && MarkerUnused(initial, description)
    modifies store
    ensures store.Valid() && ForeignUntouched(initial, store.rows, description)
    ensures Appended(old(store.history), store.history, store.rows)
    ensures store.history == old(store.history) ==> store.rows == old(store.rows)
    ensures reported <= known && (known - reported) !! initial.Keys
    ensures store.conforming
              && (exists id :: reported == {id} && AddedAlone(initial, old(store.rows), id, uid, description))
            ==> r.Ok? && known <= store.rows.Keys && |Matching(store.rows, ByDescription(description))| == 1
    ensures r.Ok? ==>
              && store.history == old(store.history) + [store.rows]
              && exists id :: ShowsAdded(old(store.rows), id, uid, description)
                              && ShowsUpdated(store.rows, id, uid, description)
  {
    known := reported;
    if store.conforming && exists id :: reported == {id} && AddedAlone(initial, store.rows, id, uid, description) {
      AddedRowIsTheOnlyMatch(initial, store.rows, uid, description);
    }
    OursAreNotForeign(initial, store.rows, description);
    var added := QuerySingle(store, description);
    if added.Raised? {
      return Raised(added.fault), known;
    }
    known := known + {added.value.id};
    if !ShowsFields(added.value.feature, uid, description, "SDK smoke add", "active", 1.0, INITIAL_GEOMETRY) {
      return Raised(Error("added smoke feature differs")), known;
    }
    FieldsAreShown(added.value.feature, uid, description, "SDK smoke add", "active", 1.0, INITIAL_GEOMETRY);
    assert ShowsAdded(store.rows, added.value.id, uid, description);
    r := UpdateRow(store, uid, description, added.value.id, initial);
  }

  lemma AddedRowIsTheOnlyMatch(initial: Rows, rows: Rows, uid: string, description: string)
    requires MarkerUnused(initial, description)
    ensures forall id | AddedAlone(initial, rows, id, uid, description) ::
              Matching(rows, ByDescription(description)) == {id}
  {
    UnusedMarkerDescribesNothing(initial, description);
    forall id | AddedAlone(initial, rows, id, uid, description)
      ensures Matching(rows, ByDescription(description)) == {id}
    {
    }
  }

  method UpdateRow(store: Store, uid: string, description: string, id: int, ghost initial: Rows)
    returns (r: Result<()>)
    requires store.Valid()
    requires ForeignUntouched(initial, store.rows, description) && MarkerUnused(initial, description)
    requires Matching(store.rows, ByDescription(description)) == {id}
    modifies store
    ensures store.Valid() && ForeignUntouched(initial, store.rows, description)
    ensures store.history == old(store.history) + [store.rows]
    ensures store.conforming ==> r.Ok? && Matching(store.rows, ByDescription(description)) == {id}
    ensures r.Ok? ==> ShowsUpdated(store.rows, id, uid, description)
  {
    var edit := Update(id, SmokeAttributes(uid, description, "SDK smoke updated", "inactive", 2.0),
                       Some(UPDATED_GEOMETRY));
    OursAreNotForeign(initial, store.rows, description);
    assert id in Matching(store.rows, ByDescription(description));
    ghost var before, next := store.rows, store.next;
    var reply := Send(store, [], [edit], [], description, initial);
    if store.conforming {
      ConformingUpdate(before, next, edit, uid, description, store.rows, store.next, reply);
    }
    if reply.Threw? {
      return Raised(reply.fault);
    }
    if !AnySuccess(reply.updates) {
      return Raised(Error("no update succeeded"));
    }
    var updated :- QuerySingle(store, description);
    if !ShowsFields(updated.feature, uid, description, "SDK smoke updated", "inactive", 2.0, UPDATED_GEOMETRY) {
      return Raised(Error("updated smoke feature differs"));
    }
    FieldsAreShown(updated.feature, uid, description, "SDK smoke updated", "inactive", 2.0, UPDATED_GEOMETRY);
    UpdatingDescribesNoOther(before, edit, store.rows, description, updated.id);
    return Ok(());
  }

  /** An update of the one described row leaves no other one described. */
  lemma UpdatingDescribesNoOther(before: Rows, edit: Update, after: Rows, description: string, id: int)
    requires Effect(before, [], [edit], [], after) && Matching(before, ByDescription(description)) == {edit.id}
    requires Matching(after, ByDescription(description)) == {id}
    ensures id == edit.id
  {
    assert id in Matching(after, ByDescription(description));
    assert id in before && after[id] == before[id] ==> id in Matching(before, ByDescription(description));
  }

  lemma ConformingUpdate(before: Rows, next: int, edit: Update, uid: string, description: string,
                         rows: Rows, nextAfter: int, reply: EditReply)
    requires forall id | id in before :: id < next
    requires Matching(before, ByDescription(description)) == {edit.id}
    requires edit.attributes == SmokeAttributes(uid, description, "SDK smoke updated", "inactive", 2.0)
    requires edit.geometry == Some(UPDATED_GEOMETRY)
    requires Exact(before, next, [], [edit], [], rows, nextAfter, reply)
    ensures reply.Replied? && AnySuccess(reply.updates)
    ensures Matching(rows, ByDescription(description)) == {edit.id} && edit.id in rows
    ensures ShowsFields(rows[edit.id], uid, description, "SDK smoke updated", "inactive", 2.0, UPDATED_GEOMETRY)
  {
    assert edit.id in Matching(before, ByDescription(description));
    CommittedRows(before, next, [], [edit], []);
    assert UpdateFor([edit], edit.id) == Some(edit);
    assert reply.updates[0] in reply.updates;
    assert Described(rows[edit.id], description);
    forall id | id in rows && id != edit.id ensures !Described(rows[id], description) {
      assert UpdateFor([edit], id).None? && id !in Matching(before, ByDescription(description));
    }
  }

  /** Deletes the rows found by description and the ids the probe remembers, if there are any. */
  method DeleteLeftovers(store: Store, description: string, known: set<int>, found: QueryReply, ghost initial: Rows)
    returns (r: Result<()>)
    requires store.Valid()
    requires ForeignUntouched(initial, store.rows, description) && MarkerUnused(initial, description)
    requires found.Found? && Truthful(store.rows, ByDescription(description), WRITE_QUERY_LIMIT, found)
    modifies store
    ensures store.Valid() && Appended(old(store.history), store.history, store.rows)
    ensures store.history == old(store.history) ==> store.rows == old(store.rows)
    ensures known !! initial.Keys ==> ForeignUntouched(initial, store.rows, description)
    ensures store.conforming && known <= old(store.rows).Keys && !found.exceeded
            ==> r.Ok? && Matching(store.rows, ByDescription(description)) == {}
  {
    hide ForeignUntouched, MarkerUnused, Truthful, Exact, Effect;
    var ids := known + set h | h in found.hits :: h.id;
    assert found.hits != [] ==> found.hits[0] in found.hits && found.hits[0].id in ids;
    if ids == {} {
      NoHitsMeansUnused(store.rows, description, found);
      return Ok(());
    }
    var deletes := ListSet(ids);
    ghost var before, next := store.rows, store.next;
    var deleted := store.ApplyEdits([], [], deletes);
    FoundAreNotForeign(initial, before, description, found);
    if known !! initial.Keys {
      BatchSparesForeignRows(initial, before, [], [], deletes, store.rows, description);
    }
    if store.conforming && known <= before.Keys && !found.exceeded {
      FoundArePresent(before, description, found);
      ConformingDelete(before, next, deletes, description, found, store.rows, store.next, deleted);
    }
    return if deleted.Threw? then Raised(deleted.fault) else Ok(());
  }

  lemma FoundArePresent(rows: Rows, description: string, found: QueryReply)
    requires found.Found? && Truthful(rows, ByDescription(description), WRITE_QUERY_LIMIT, found)
    ensures forall h | h in found.hits :: h.id in rows
  {
  }

  lemma FoundAreNotForeign(initial: Rows, rows: Rows, description: string, found: QueryReply)
    requires ForeignUntouched(initial, rows, description) && MarkerUnused(initial, description)
    requires found.Found? && Truthful(rows, ByDescription(description), WRITE_QUERY_LIMIT, found)
    ensures forall h | h in found.hits :: h.id !in initial
  {
    OursAreNotForeign(initial, rows, description);
    forall h | h in found.hits ensures h.id in Matching(rows, ByDescription(description)) {
      assert Matches(ByDescription(description), h.id, h.feature);
    }
  }

  /** Deletes every row found or reported, then insists that no described row is left. */
  method Cleanup(store: Store, description: string, known: set<int>, ghost initial: Rows) returns (r: Result<()>)
    requires store.Valid()
    requires ForeignUntouched(initial, store.rows, description) && MarkerUnused(initial, description)
    modifies store
    ensures store.Valid() && Appended(old(store.history), store.history, store.rows)
    ensures store.history == old(store.history) ==> store.rows == old(store.rows)
    ensures known !! initial.Keys ==> ForeignUntouched(initial, store.rows, description)
    ensures r.Ok? ==> MarkerUnused(store.rows, description)
    ensures r.Ok? && known !! initial.Keys ==> store.rows == initial
    ensures store.conforming && known <= old(store.rows).Keys
              && |Matching(old(store.rows), ByDescription(description))| <= 25
            ==> r.Ok?
  {
    hide ForeignUntouched, MarkerUnused, Truthful;
    var reply := store.Query(ByDescription(description), WRITE_QUERY_LIMIT);
    if reply.QueryThrew? {
      return Raised(reply.fault);
    }
    r := DeleteLeftovers(store, description, known, reply, initial);
    if r.Raised? {
      return;
    }
    var verify := store.Query(ByDescription(description), WRITE_QUERY_LIMIT);
    if verify.QueryThrew? {
      return Raised(verify.fault);
    }
    if verify.hits != [] {
      return Raised(Error("cleanup left smoke features behind"));
    }
    NoHitsMeansUnused(store.rows, description, verify);
    if known !! initial.Keys {
      NoMarkerRowsMeansRestored(initial, store.rows, description);
    }
  }

  lemma NoHitsMeansUnused(rows: Rows, description: string, found: QueryReply)
    requires found.Found? && found.hits == [] && Truthful(rows, ByDescription(description), WRITE_QUERY_LIMIT, found)
    ensures Matching(rows, ByDescription(description)) == {} && MarkerUnused(rows, description)
  {
  }

  lemma ConformingDelete(before: Rows, next: int, deletes: seq<int>, description: string, found: QueryReply,
                         rows: Rows, nextAfter: int, reply: EditReply)
    requires forall id | id in before :: id < next
    requires found.Found? && Truthful(before, ByDescription(description), WRITE_QUERY_LIMIT, found) && !found.exceeded
    requires forall h | h in found.hits :: h.id in deletes
    requires forall id | id in deletes :: id in before
    requires Exact(before, next, [], [], deletes, rows, nextAfter, reply)
    ensures reply.Replied? && Matching(rows, ByDescription(description)) == {}
  {
    CommittedRows(before, next, [], [], deletes);
    forall id | id in before && Described(before[id], description) ensures id in deletes {
      assert Hit(id, before[id]) in found.hits;
    }
    assert forall id | id in rows :: !Described(rows[id], description);
  }

  /** How the nested `try` blocks combine the two outcomes; `except Exception` lets interrupts through. */
  function ExitOf(main: Result<()>, cleanup: Result<()>): (exit: Exit)
    ensures exit.Returned? <==> main.Ok? && cleanup.Ok?
    ensures main.Raised? && main.fault.Error? && cleanup.Raised? && cleanup.fault.Error? ==>
              exit == Raises(main.fault, Some(cleanup.fault))
    ensures main == Raised(Interrupt) || cleanup == Raised(Interrupt) ==> exit == Raises(Interrupt, None)
    ensures main.Raised? != cleanup.Raised? ==> exit == Raises(if main.Raised? then main.fault else cleanup.fault, None)
    ensures cleanup.Raised? ==>
              ((exit.fault == cleanup.fault || exit.cleanupError == Some(cleanup.fault)) <==>
               !(main == Raised(Interrupt) && cleanup.fault.Error?))
  {
    if main.Raised? && main.fault.Interrupt? then
      Raises(Interrupt, None)
    else if cleanup.Raised? && cleanup.fault.Interrupt? then
      Raises(Interrupt, None)
    else if main.Raised? then
      Raises(main.fault, if cleanup.Raised? then Some(cleanup.fault) else None)
    else if cleanup.Raised? then
      Raises(cleanup.fault, None)
    else
      Returned
  }

  /** After the first batch the added row is there, and after the second the same row rewritten. */
  ghost predicate SawBoth(history: seq<Rows>, from: nat, uid: string, description: string) {
    && from + 2 <= |history|
    && exists id ::
      ShowsAdded(history[from], id, uid, description) && ShowsUpdated(history[from + 1], id, uid, description)
  }

  /**
   The whole probe. With truthful add receipts every foreign row survives every batch, and whenever
   the cleanup succeeds the store is back to where it started; a conforming server passes.
   */
  method Probe(store: Store, uid: string, description: string)
    returns (exit: Exit, main: Result<()>, cleanup: Result<()>)
    requires store.Valid() && MarkerUnused(store.rows, description)
    modifies store
    ensures exit == ExitOf(main, cleanup)
    ensures old(store.history) <= store.history
    ensures store.honest ==> Spared(old(store.rows), store, |old(store.history)|, description)
    ensures store.honest && cleanup.Ok? ==> store.rows == old(store.rows)
    ensures cleanup.Ok? ==> MarkerUnused(store.rows, description)
    ensures store.conforming ==> exit.Returned?
    ensures main.Ok? ==> SawBoth(store.history, |old(store.history)|, uid, description)
  {
    hide ShowsAdded, ShowsUpdated, SawBoth;
    ghost var initial := store.rows;
    var known: set<int>;
    main, known := Add(store, uid, description, initial);
    if main.Ok? {
      assert store.conforming ==> known == {old(store.next)};
      ghost var added := store.rows;
      main, known := ReadAndUpdate(store, uid, description, known, initial);
      if main.Ok? {
        assert store.history == old(store.history) + [added] + [store.rows];
        BothSeen(old(store.history), added, store.rows, uid, description);
      }
    }
    ghost var middle := store.history;
    cleanup := Cleanup(store, description, known, initial);
    exit := ExitOf(main, cleanup);
    if main.Ok? {
      assert middle <= store.history;
      HistoryKeeps(middle, store.history, |old(store.history)|, uid, description);
    }
  }

  lemma BothSeen(history: seq<Rows>, added: Rows, last: Rows, uid: string, description: string)
    requires exists id :: ShowsAdded(added, id, uid, description) && ShowsUpdated(last, id, uid, description)
    ensures SawBoth(history + [added] + [last], |history|, uid, description)
  {
    hide ShowsAdded, ShowsUpdated;
    var longer := history + [added] + [last];
    assert longer[|history|] == added && longer[|history| + 1] == last;
  }

  lemma HistoryKeeps(before: seq<Rows>, after: seq<Rows>, from: nat, uid: string, description: string)
    requires before <= after && SawBoth(before, from, uid, description)
    ensures SawBoth(after, from, uid, description)
  {
    hide ShowsAdded, ShowsUpdated;
  }

  /**
   Deleting a set of ids is safe against every store that only touches rows it is asked to
   exactly when none of the ids is foreign, which is why the receipts must be true.
   */
  lemma DeletesSpareForeignRowsIff(initial: Rows, rows: Rows, deletes: seq<int>, description: string)
    requires ForeignUntouched(initial, rows, description)
    ensures (forall after :: Effect(rows, [], [], deletes, after) ==> ForeignUntouched(initial, after, description))
            <==> forall id | id in deletes :: id !in initial
  {
    if forall id | id in deletes :: id !in initial {
      forall after | Effect(rows, [], [], deletes, after) ensures ForeignUntouched(initial, after, description) {
        BatchSparesForeignRows(initial, rows, [], [], deletes, after, description);
      }
    } else {
      var id :| id in deletes && id in initial;
      var after := rows - {id};
      assert Effect(rows, [], [], deletes, after);
      assert !ForeignUntouched(initial, after, description);
    }
  }

  function SmokeRow(uid: string, description: string): Feature {
    Feature(SmokeAttributes(uid, description, "SDK smoke add", "active", 1.0), Some(INITIAL_GEOMETRY))
  }

  /**
   A run of the probe's batches that loses row `foreign`: the add commits under a new id but its receipt
   names the foreign row, the cleanup deletes the noted id with the described row, and its final readback
   finds nothing to complain of.
   */
  ghost predicate LosesForeignRow(initial: Rows, foreign: int, uid: string, description: string, reply: EditReply,
                                  middle: Rows, deletes: seq<int>, final: Rows)
  {
    && MarkerUnused(initial, description) && foreign in initial
    && Effect(initial, [SmokeRow(uid, description)], [], [], middle) && ForeignUntouched(initial, middle, description)
    && reply.Replied? && AnySuccess(reply.adds) && FirstSuccess(reply.adds).objectId == Some(foreign)
    && !HonestAdds(initial, middle, reply)
    && (set id | id in deletes) == {foreign} + Matching(middle, ByDescription(description))
    && Effect(middle, [], [], deletes, final) && MarkerUnused(final, description)
    && foreign !in final
  }

  /** On every store, a false add receipt can cost any foreign row while the cleanup still reports success. */
  lemma FalseReceiptLosesForeignRow(initial: Rows, foreign: int, uid: string, description: string)
    requires MarkerUnused(initial, description) && foreign in initial
    ensures exists reply, middle, deletes, final ::
              LosesForeignRow(initial, foreign, uid, description, reply, middle, deletes, final)
  {
    var id := FreeId(initial);
    var row := SmokeRow(uid, description);
    var reply := Replied([Receipt(Some(foreign), true, None)], [], [], true);
    var middle, deletes, final := initial[id := row], [foreign, id], initial - {foreign};
    UnusedMarkerDescribesNothing(initial, description);
    assert Described(row, description);
    assert Matching(middle, ByDescription(description)) == {id};
    assert (set i | i in deletes) == {foreign, id};
    assert reply.adds[0].success && reply.adds[0] in reply.adds;
    assert Matching(final, ByDescription(description)) == {};
    assert LosesForeignRow(initial, foreign, uid, description, reply, middle, deletes, final);
  }

  lemma FreeId(rows: Rows) returns (id: int)
    ensures id !in rows
  {
    id := Above(rows.Keys);
  }

  lemma {:induction false} Above(ids: set<int>) returns (bound: int)
    ensures forall i | i in ids :: i < bound
  {
    if some :| some in ids {
      var rest := ids - {some};
      bound := Above(rest);
      if bound <= some {
        bound := some + 1;
      }
      assert forall i | i in ids :: i == some || i in rest;
    } else {
      bound := 0;
    }
  }
}
