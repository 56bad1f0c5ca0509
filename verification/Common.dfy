/** Result types shared by the models. */
module Common {
  datatype Option<+T> = None | Some(value: T)

  /** What a Python call can raise: an `Exception`, or an interrupt that `except Exception` does not catch. */
  datatype Fault = Error(message: string) | Interrupt

  /** A call that returns a value or raises. */
  datatype Result<+T> = Ok(value: T) | Raised(fault: Fault) {
    predicate IsFailure() {
      Raised?
    }

    function PropagateFailure<U>(): Result<U>
      requires Raised?
    {
      Raised(fault)
    }

    function Extract(): T
      requires Ok?
    {
      value
    }
  }

  /** A checking routine either returns silently or raises. */
  datatype Verdict = Accepted | Refused(reason: string)

  /** Lists the members of a finite set in some order. */
  method ListSet<T(==)>(s: set<T>) returns (listed: seq<T>)
    ensures forall x :: x in listed <==> x in s
    ensures |listed| == |s|
  {
    listed := [];
    var todo := s;
    while todo != {}
      invariant todo <= s && |listed| + |todo| == |s|
      invariant forall x :: x in listed <==> x in s && x !in todo
      decreases todo
    {
      var x :| x in todo;
      todo := todo - {x};
      listed := listed + [x];
    }
  }

  /** A Python dict built from pairs in order: a later pair replaces an earlier one. */
  function Dict<K, V>(pairs: seq<(K, V)>): map<K, V> {
    if pairs == [] then map[] else Dict(pairs[..|pairs| - 1])[pairs[|pairs| - 1].0 := pairs[|pairs| - 1].1]
  }

  lemma {:induction false} DictComesFromPairs<K, V>(pairs: seq<(K, V)>)
    ensures forall k | k in Dict(pairs) :: (k, Dict(pairs)[k]) in pairs
    ensures forall x | x in pairs :: x.0 in Dict(pairs)
  {
    if pairs != [] {
      DictComesFromPairs(pairs[..|pairs| - 1]);
    }
  }

  lemma DictOfTwo<K, V>(j: K, v: V, k: K, w: V)
    ensures Dict([(j, v)]) == map[j := v] && Dict([(j, v), (k, w)]) == map[j := v][k := w]
  {
    assert [(j, v)][..0] == [] && [(j, v), (k, w)][..1] == [(j, v)];
  }

  /** The value at a key is that of the last pair with the key. */
  ghost predicate LastFor<K(!new), V(!new)>(pairs: seq<(K, V)>, k: K, v: V) {
    exists i :: 0 <= i < |pairs| && pairs[i] == (k, v) && forall j | i < j < |pairs| :: pairs[j].0 != k
  }

  lemma {:induction false} DictHasTheLast<K(!new), V(!new)>(pairs: seq<(K, V)>, k: K)
    ensures k in Dict(pairs) <==> exists i :: 0 <= i < |pairs| && pairs[i].0 == k
    ensures k in Dict(pairs) ==> LastFor(pairs, k, Dict(pairs)[k])
  {
    if pairs != [] {
      var front, last := pairs[..|pairs| - 1], pairs[|pairs| - 1];
      DictHasTheLast(front, k);
      if last.0 == k {
        assert pairs[|pairs| - 1] == (k, Dict(pairs)[k]);
      } else if k in Dict(front) {
        var i :| 0 <= i < |front| && front[i] == (k, Dict(front)[k]) && forall j | i < j < |front| :: front[j].0 != k;
        assert pairs[i] == (k, Dict(pairs)[k]) && forall j | i < j < |pairs| :: pairs[j].0 != k;
      }
      if i :| 0 <= i < |pairs| && pairs[i].0 == k {
        assert i < |front| ==> front[i].0 == k;
      }
    }
  }
}
