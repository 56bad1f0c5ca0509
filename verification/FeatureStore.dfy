/**
 The remote feature layer the edit probes talk to, as an abstract store.

 Queries are truthful about the rows present. A batch changes only rows it names and creates
 only rows it adds, but it may apply any part of its edits, raise after doing so, and, unless
 the store is honest, return arbitrary receipts.
 */
module FeatureStore {
  import opened Common

  datatype Value = Null | Text(text: string) | Number(number: real)

  datatype Point = Point(x: real, y: real)

  /** Attribute names, lower-cased as every reader of the probes does. */
  datatype Field = Description | Uid | Name | Status | Count | Ratio | Other(name: string)

  type Attributes = map<Field, Value>

  datatype Feature = Feature(attributes: Attributes, geometry: Option<Point>)

  type Rows = map<int, Feature>

  datatype Update = Update(id: int, attributes: Attributes, geometry: Option<Point>)

  datatype Receipt = Receipt(objectId: Option<int>, success: bool, error: Option<int>)

  datatype EditReply =
    | Threw(fault: Fault)
    | Replied(adds: seq<Receipt>, updates: seq<Receipt>, deletes: seq<Receipt>, allSucceeded: bool)

  datatype Hit = Hit(id: int, feature: Feature)

  datatype QueryReply = QueryThrew(fault: Fault) | Found(hits: seq<Hit>, exceeded: bool)

  datatype Where = ByDescription(description: string) | ByObjectId(id: int)

  predicate Described(f: Feature, description: string) {
    Description in f.attributes && f.attributes[Description] == Text(description)
  }

  predicate Matches(where: Where, id: int, f: Feature) {
    match where
    case ByDescription(d) => Described(f, d)
    case ByObjectId(i) => id == i
  }

  function Merged(f: Feature, u: Update): Feature {
    Feature(f.attributes + u.attributes, if u.geometry.Some? then u.geometry else f.geometry)
  }

  /** `after` can result from `before` by applying any part of the batch. */
  predicate Effect(before: Rows, adds: seq<Feature>, updates: seq<Update>, deletes: seq<int>, after: Rows) {
    && (forall id | id in before ::
          if id in after
          then after[id] == before[id] || exists u | u in updates :: u.id == id && after[id] == Merged(before[id], u)
          else id in deletes)
    && (forall id | id in after && id !in before :: after[id] in adds)
  }

  /** An add receipt that claims success names a row this batch created. */
  predicate HonestAdds(before: Rows, after: Rows, reply: EditReply) {
    reply.Replied? ==>
      forall r | r in reply.adds && r.success && r.objectId.Some? ::
        r.objectId.value in after && r.objectId.value !in before
  }

  predicate Truthful(rows: Rows, where: Where, limit: nat, reply: QueryReply) {
    reply.Found? ==>
      && |reply.hits| <= limit
      && (forall h | h in reply.hits :: h.id in rows && rows[h.id] == h.feature && Matches(where, h.id, h.feature))
      && (forall i, j | 0 <= i < j < |reply.hits| :: reply.hits[i].id != reply.hits[j].id)
      && (|reply.hits| < limit || !reply.exceeded ==>
            forall id | id in rows && Matches(where, id, rows[id]) :: Hit(id, rows[id]) in reply.hits)
  }

  function Matching(rows: Rows, where: Where): set<int> {
    set id | id in rows && Matches(where, id, rows[id])
  }

  // ---- a conforming server: atomic batches, exact receipts -----------------------------

  predicate Applicable(rows: Rows, updates: seq<Update>, deletes: seq<int>) {
    (forall u | u in updates :: u.id in rows) && (forall id | id in deletes :: id in rows)
  }

  function UpdateFor(updates: seq<Update>, id: int): (r: Option<Update>)
    ensures r.Some? ==> r.value in updates && r.value.id == id
    ensures r.None? ==> forall u | u in updates :: u.id != id
  {
    if updates == [] then None
    else if updates[0].id == id then Some(updates[0])
    else UpdateFor(updates[1..], id)
  }

  function Allocated(next: int, adds: seq<Feature>, id: int): Feature
    requires next <= id < next + |adds|
  {
    adds[id - next]
  }

  function Committed(rows: Rows, next: int, adds: seq<Feature>, updates: seq<Update>, deletes: seq<int>): Rows {
    (map id | id in rows && id !in deletes ::
       var u := UpdateFor(updates, id);
       if u.Some? then Merged(rows[id], u.value) else rows[id])
    + (map id | next <= id < next + |adds| :: Allocated(next, adds, id))
  }

  lemma CommittedRows(rows: Rows, next: int, adds: seq<Feature>, updates: seq<Update>, deletes: seq<int>)
    requires forall id | id in rows :: id < next
    ensures var after := Committed(rows, next, adds, updates, deletes);
            && (forall id | id in rows && id !in deletes ::
                  id in after && after[id] == (var u := UpdateFor(updates, id);
                                               if u.Some? then Merged(rows[id], u.value) else rows[id]))
            && (forall k | 0 <= k < |adds| :: next + k in after && after[next + k] == adds[k])
            && (forall id | next <= id < next + |adds| :: id in after && after[id] == Allocated(next, adds, id))
            && (forall id | id in after :: (id in rows && id !in deletes) || next <= id < next + |adds|)
  {
  }

  function CommitReply(next: int, adds: seq<Feature>, updates: seq<Update>, deletes: seq<int>): EditReply {
    Replied(
      seq(|adds|, i => Receipt(Some(next + i), true, None)),
      seq(|updates|, i requires 0 <= i < |updates| => Receipt(Some(updates[i].id), true, None)),
      seq(|deletes|, i requires 0 <= i < |deletes| => Receipt(Some(deletes[i]), true, None)),
      true)
  }

  const DELETE_NOT_FOUND := 1003
  const ROLLED_BACK := 1000

  function RejectReply(rows: Rows, adds: seq<Feature>, updates: seq<Update>, deletes: seq<int>): EditReply {
    Replied(
      seq(|adds|, i => Receipt(None, false, Some(ROLLED_BACK))),
      seq(|updates|, i requires 0 <= i < |updates| => Receipt(Some(updates[i].id), false, Some(ROLLED_BACK))),
      seq(|deletes|, i requires 0 <= i < |deletes| =>
        Receipt(Some(deletes[i]), false, Some(if deletes[i] in rows then ROLLED_BACK else DELETE_NOT_FOUND))),
      false)
  }

  /** All or nothing, with receipts that say exactly what happened. */
  predicate Exact(before: Rows, next: int, adds: seq<Feature>, updates: seq<Update>, deletes: seq<int>,
                  after: Rows, nextAfter: int, reply: EditReply)
  {
    if Applicable(before, updates, deletes) then
      && after == Committed(before, next, adds, updates, deletes)
      && nextAfter == next + |adds|
      && reply == CommitReply(next, adds, updates, deletes)
    else
      after == before && nextAfter == next && reply == RejectReply(before, adds, updates, deletes)
  }

  class Store {
    /** Add receipts that claim success are true. */
    const honest: bool
    /** Batches are atomic, receipts exact and calls never fail. */
    const conforming: bool
    var rows: Rows
    /** A conforming store allocates ids from here on. */
    var next: int
    /** The rows after each batch, oldest first. */
    ghost var history: seq<Rows>
    /** The reply to each batch, oldest first. */
    ghost var replies: seq<EditReply>

    ghost predicate Valid()
      reads this
    {
      && |replies| == |history|
      && (conforming ==> honest && 0 < next && forall id | id in rows :: 0 < id < next)
    }

    constructor (rows: Rows, next: int, honest: bool, conforming: bool)
      requires conforming ==> honest && 0 < next && forall id | id in rows :: 0 < id < next
      ensures Valid()
      ensures this.rows == rows && this.next == next && this.honest == honest && this.conforming == conforming
      ensures history == [] && replies == []
    {
      this.rows, this.next, this.honest, this.conforming := rows, next, honest, conforming;
      history, replies := [], [];
    }

    method ApplyEdits(adds: seq<Feature>, updates: seq<Update>, deletes: seq<int>) returns (reply: EditReply)
      requires Valid()
      modifies this
      ensures Valid()
      ensures Effect(old(rows), adds, updates, deletes, rows)
      ensures honest ==> HonestAdds(old(rows), rows, reply)
      ensures conforming ==> Exact(old(rows), old(next), adds, updates, deletes, rows, next, reply)
      ensures history == old(history) + [rows] && replies == old(replies) + [reply]
    {
      var after: Rows := *;
      reply := *;
      if conforming {
        if Applicable(rows, updates, deletes) {
          after := Committed(rows, next, adds, updates, deletes);
          reply := CommitReply(next, adds, updates, deletes);
          next := next + |adds|;
        } else {
          after := rows;
          reply := RejectReply(rows, adds, updates, deletes);
        }
      } else {
        if !Effect(rows, adds, updates, deletes, after) {
          after := rows;
        }
        if honest && !HonestAdds(rows, after, reply) {
          reply := Threw(Error("connection lost"));
        }
      }
      rows := after;
      history, replies := history + [rows], replies + [reply];
    }

    method Query(where: Where, limit: nat) returns (reply: QueryReply)
      ensures Truthful(rows, where, limit, reply)
      ensures conforming && |Matching(rows, where)| <= limit ==>
                reply.Found? && !reply.exceeded && |reply.hits| == |Matching(rows, where)|
      ensures reply.Found? ==> |reply.hits| <= |Matching(rows, where)|
    {
      reply := *;
      if conforming && |Matching(rows, where)| <= limit {
        var hits := AllHits(where);
        reply := Found(hits, false);
      } else if !Truthful(rows, where, limit, reply) {
        reply := QueryThrew(Error("connection lost"));
      }
      if reply.Found? {
        DistinctHitsFit(reply.hits, Matching(rows, where));
      }
    }

    method AllHits(where: Where) returns (hits: seq<Hit>)
      ensures |hits| == |Matching(rows, where)|
      ensures forall h | h in hits :: h.id in Matching(rows, where) && h.feature == rows[h.id]
      ensures forall i, j | 0 <= i < j < |hits| :: hits[i].id != hits[j].id
      ensures forall id | id in Matching(rows, where) :: Hit(id, rows[id]) in hits
    {
      hits := [];
      var todo := Matching(rows, where);
      while todo != {}
        invariant todo <= Matching(rows, where) && |hits| + |todo| == |Matching(rows, where)|
        invariant forall h | h in hits :: h.id in Matching(rows, where) && h.id !in todo && h.feature == rows[h.id]
        invariant forall i, j | 0 <= i < j < |hits| :: hits[i].id != hits[j].id
        invariant forall id | id in Matching(rows, where) && id !in todo :: Hit(id, rows[id]) in hits
        decreases todo
      {
        var id :| id in todo;
        todo := todo - {id};
        hits := hits + [Hit(id, rows[id])];
      }
    }
  }

  lemma {:induction false} DistinctHitsFit(hits: seq<Hit>, ids: set<int>)
    requires forall h | h in hits :: h.id in ids
    requires forall i, j | 0 <= i < j < |hits| :: hits[i].id != hits[j].id
    ensures |hits| <= |ids|
  {
    if hits != [] {
      var last := |hits| - 1;
      assert hits[last] in hits;
      forall h | h in hits[..last] ensures h.id in ids - {hits[last].id} {
      }
      DistinctHitsFit(hits[..last], ids - {hits[last].id});
    }
  }

  // ---- foreign rows --------------------------------------------------------------------------

  /** Rows that were there first are untouched, and every other row carries the marker. */
  predicate ForeignUntouched(initial: Rows, rows: Rows, marker: string) {
    && (forall id | id in initial :: id in rows && rows[id] == initial[id])
    && (forall id | id in rows && id !in initial :: Described(rows[id], marker))
  }

  predicate KeepsDescription(u: Update, marker: string) {
    Description in u.attributes ==> u.attributes[Description] == Text(marker)
  }

  predicate MarkerUnused(rows: Rows, marker: string) {
    Matching(rows, ByDescription(marker)) == {}
  }

  /** A batch that names no foreign row, and never rewrites a description, leaves foreign rows alone. */
  lemma BatchSparesForeignRows(initial: Rows, before: Rows, adds: seq<Feature>, updates: seq<Update>, deletes: seq<int>,
                               after: Rows, marker: string)
    requires ForeignUntouched(initial, before, marker) && Effect(before, adds, updates, deletes, after)
    requires forall f | f in adds :: Described(f, marker)
    requires forall u | u in updates :: u.id !in initial && KeepsDescription(u, marker)
    requires forall id | id in deletes :: id !in initial
    ensures ForeignUntouched(initial, after, marker)
  {
    forall id | id in after && id !in initial ensures Described(after[id], marker) {
      if id in before && after[id] != before[id] {
        var u :| u in updates && u.id == id && after[id] == Merged(before[id], u);
      }
    }
  }

  lemma UnusedMarkerDescribesNothing(rows: Rows, marker: string)
    requires MarkerUnused(rows, marker)
    ensures forall id | id in rows :: !Described(rows[id], marker)
  {
    assert forall id | id in rows :: Described(rows[id], marker) <==> id in Matching(rows, ByDescription(marker));
  }

  lemma NoMarkerRowsMeansRestored(initial: Rows, rows: Rows, marker: string)
    requires ForeignUntouched(initial, rows, marker) && MarkerUnused(rows, marker)
    ensures rows == initial
  {
    UnusedMarkerDescribesNothing(rows, marker);
    assert forall id :: id in rows <==> id in initial;
    assert forall id :: id in rows.Keys <==> id in initial.Keys;
    assert forall id | id in rows :: rows[id] == initial[id];
  }

  /** The batches sent from index `from` on spared every foreign row. */
  ghost predicate Spared(initial: Rows, store: Store, from: nat, marker: string)
    reads store
  {
    && ForeignUntouched(initial, store.rows, marker)
    && forall k | from <= k < |store.history| :: ForeignUntouched(initial, store.history[k], marker)
  }

  ghost predicate Appended(before: seq<Rows>, after: seq<Rows>, rows: Rows) {
    after == before || after == before + [rows]
  }

  /** Rows carrying the marker are never rows that were there first. */
  lemma OursAreNotForeign(initial: Rows, rows: Rows, marker: string)
    requires ForeignUntouched(initial, rows, marker) && MarkerUnused(initial, marker)
    ensures forall id | id in Matching(rows, ByDescription(marker)) :: id !in initial
  {
    UnusedMarkerDescribesNothing(initial, marker);
  }

  /** A batch that names no foreign row and rewrites no description. */
  method Send(store: Store, adds: seq<Feature>, updates: seq<Update>, deletes: seq<int>, marker: string,
              ghost initial: Rows)
    returns (reply: EditReply)
    requires store.Valid() && ForeignUntouched(initial, store.rows, marker)
    requires forall f | f in adds :: Described(f, marker)
    requires forall u | u in updates :: u.id !in initial && KeepsDescription(u, marker)
    requires forall id | id in deletes :: id !in initial
    modifies store
    ensures store.Valid() && ForeignUntouched(initial, store.rows, marker)
    ensures store.history == old(store.history) + [store.rows] && store.replies == old(store.replies) + [reply]
    ensures Effect(old(store.rows), adds, updates, deletes, store.rows)
    ensures store.honest ==> HonestAdds(old(store.rows), store.rows, reply)
    ensures store.conforming ==>
              Exact(old(store.rows), old(store.next), adds, updates, deletes, store.rows, store.next, reply)
  {
    ghost var before := store.rows;
    reply := store.ApplyEdits(adds, updates, deletes);
    BatchSparesForeignRows(initial, before, adds, updates, deletes, store.rows, marker);
  }
}
