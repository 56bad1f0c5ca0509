/** Python dicts as what they are: pairs in insertion order, each key once. */
module OrderedDict {
  import opened Common

  type Items<V> = seq<(string, V)>

  predicate DistinctKeys<V>(d: Items<V>) {
    forall i, j | 0 <= i < j < |d| :: d[i].0 != d[j].0
  }

  function Find<V>(d: Items<V>, key: string): (i: nat)
    ensures i <= |d|
    ensures i < |d| ==> d[i].0 == key
    ensures forall j | 0 <= j < i :: d[j].0 != key
  {
    if d == [] || d[0].0 == key then 0 else 1 + Find(d[1..], key)
  }

  function Get<V>(d: Items<V>, key: string): Option<V> {
    if Find(d, key) < |d| then Some(d[Find(d, key)].1) else None
  }

  /** Assignment to a key: in place when the key is present, else at the end. */
  function Put<V>(d: Items<V>, key: string, value: V): Items<V> {
    if Find(d, key) < |d| then d[Find(d, key) := (key, value)] else d + [(key, value)]
  }

  /** `{rename(k): v for k, v in d.items()}`. */
  function Renamed<V>(rename: string -> string, d: Items<V>): Items<V> {
    if d == [] then []
    else Put(Renamed(rename, d[..|d| - 1]), rename(d[|d| - 1].0), d[|d| - 1].1)
  }

  predicate Separates<V>(rename: string -> string, d: Items<V>) {
    forall i, j | 0 <= i < j < |d| :: rename(d[i].0) != rename(d[j].0)
  }

  /** When no two keys collide, renaming touches the keys and nothing else. */
  lemma {:induction false} RenamingIsPointwise<V>(rename: string -> string, d: Items<V>)
    requires Separates(rename, d)
    ensures Renamed(rename, d) == seq(|d|, i requires 0 <= i < |d| => (rename(d[i].0), d[i].1))
  {
    if d != [] {
      var front := d[..|d| - 1];
      RenamingIsPointwise(rename, front);
      forall i | 0 <= i < |front| ensures rename(d[i].0) != rename(d[|d| - 1].0) {
        assert i < |d| - 1;
      }
    }
  }

  lemma GetAt<V>(d: Items<V>, i: nat)
    requires DistinctKeys(d) && i < |d|
    ensures Get(d, d[i].0) == Some(d[i].1)
  {
    var found := Find(d, d[i].0);
    assert found <= i;
  }

  lemma GetOnlyPresent<V>(d: Items<V>, key: string)
    ensures Get(d, key).None? <==> forall i | 0 <= i < |d| :: d[i].0 != key
  {
  }

  /** Appending a new key leaves every other lookup as it was. */
  lemma {:induction false} GetAfterAppend<V>(d: Items<V>, key: string, value: V)
    requires DistinctKeys(d) && forall j | 0 <= j < |d| :: d[j].0 != key
    ensures DistinctKeys(d + [(key, value)])
    ensures Get(d + [(key, value)], key) == Some(value)
    ensures forall other | other != key :: Get(d + [(key, value)], other) == Get(d, other)
  {
    var longer := d + [(key, value)];
    GetAt(longer, |d|);
    forall other | other != key ensures Get(longer, other) == Get(d, other) {
      var i := Find(d, other);
      if i < |d| {
        GetAt(longer, i);
        assert longer[i] == d[i];
      } else {
        GetOnlyPresent(longer, other);
      }
    }
  }

  /** Two dicts that answer every lookup alike: equal for Python, whatever their orders. */
  ghost predicate SameLookups<V(!new)>(c: Items<V>, d: Items<V>) {
    forall key :: Get(c, key) == Get(d, key)
  }

  /** `del d[key]`, or nothing when the key is missing. */
  function Without<V>(d: Items<V>, key: string): Items<V> {
    if Find(d, key) < |d| then d[..Find(d, key)] + d[Find(d, key) + 1..] else d
  }

  lemma WithoutOne<V>(d: Items<V>, key: string)
    requires DistinctKeys(d)
    ensures DistinctKeys(Without(d, key))
    ensures Get(Without(d, key), key) == None
    ensures forall other | other != key :: Get(Without(d, key), other) == Get(d, other)
  {
    var rest, at := Without(d, key), Find(d, key);
    assert forall j | 0 <= j < |rest| :: rest[j] == d[if j < at then j else j + 1];
    GetOnlyPresent(rest, key);
    forall other | other != key ensures Get(rest, other) == Get(d, other) {
      var i := Find(d, other);
      if i < |d| {
        var j := if i < at then i else i - 1;
        assert rest[j] == d[i];
        GetAt(rest, j);
      } else {
        GetOnlyPresent(rest, other);
      }
    }
  }

  /** Taking two keys out and writing them first changes the order only. */
  lemma MovedToFront<V(!new)>(d: Items<V>, first: string, second: string)
    requires DistinctKeys(d) && first != second && Get(d, first).Some? && Get(d, second).Some?
    ensures var moved := [(first, Get(d, first).value), (second, Get(d, second).value)]
                         + Without(Without(d, first), second);
      DistinctKeys(moved) && SameLookups(moved, d)
  {
    hide Without, DistinctKeys, Get;
    WithoutOne(d, first);
    WithoutOne(Without(d, first), second);
    var rest := Without(Without(d, first), second);
    GetAfterPrepend(rest, second, Get(d, second).value);
    var longer := [(second, Get(d, second).value)] + rest;
    GetAfterPrepend(longer, first, Get(d, first).value);
    assert [(first, Get(d, first).value), (second, Get(d, second).value)] + rest
        == [(first, Get(d, first).value)] + longer;
  }

  lemma GetAfterPrepend<V>(d: Items<V>, key: string, value: V)
    requires DistinctKeys(d) && Get(d, key).None?
    ensures DistinctKeys([(key, value)] + d)
    ensures forall other :: Get([(key, value)] + d, other) == if other == key then Some(value) else Get(d, other)
  {
    GetOnlyPresent(d, key);
    var longer := [(key, value)] + d;
    assert longer[1..] == d;
  }
}
