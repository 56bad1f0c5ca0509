/**
 The migration artifact models and their API dictionaries. A dataclass is described by its fields;
 `CamelDict` is `_dataclass_to_camel_dict` and `FromDict` the `from_dict` every such class declares.
 */
module AdminModels {
  import opened Common
  import opened FieldCasing
  import opened OrderedDict

  /** A dataclass: its fields in declaration order. */
  datatype Class = Class(fields: seq<Field>)

  /** A field name is its words, joined by underscores. */
  datatype Field = Field(words: seq<string>, kind: Kind) {
    function Name(): string {
      if words == [] then "" else words[0] + JoinTail(words[1..])
    }
  }

  /** How `from_dict` reads a field. */
  datatype Kind =
    | Required
    | Optional(default: Value)
    | Nested(cls: Class)
    | Models(cls: Class)
    | OptionalModels(cls: Class)

  datatype Value =
    | Null
    | Bool(b: bool)
    | Number(n: int)
    | Text(s: string)
    | List(items: seq<Value>)
    | Dict(entries: seq<(string, Value)>)
    | Model(cls: Class, attributes: seq<Value>)

  // ---- to_dict ------------------------------------------------------------------------------

  /** `_to_dict_value`. */
  function ToDictValue(v: Value): Value
    decreases v, 1
  {
    match v
    case Model(cls, attributes) =>
      Dict(CamelDict(v, if |attributes| < |cls.fields| then |attributes| else |cls.fields|))
    case List(items) => List(seq(|items|, i requires 0 <= i < |items| => ToDictValue(items[i])))
    case Dict(entries) =>
      Dict(seq(|entries|, i requires 0 <= i < |entries| => (entries[i].0, ToDictValue(entries[i].1))))
    case _ => v
  }

  /** `_dataclass_to_camel_dict` after `n` fields: a `None` attribute leaves no key. */
  function CamelDict(v: Value, n: nat): Items<Value>
    requires v.Model? && n <= |v.attributes| && n <= |v.cls.fields|
    decreases v, 0, n
  {
    if n == 0 then []
    else if v.attributes[n - 1].Null? then CamelDict(v, n - 1)
    else Put(CamelDict(v, n - 1), ToCamel(v.cls.fields[n - 1].Name()), ToDictValue(v.attributes[n - 1]))
  }

  method DataclassToCamelDict(instance: Value) returns (d: Items<Value>)
    requires instance.Model? && |instance.attributes| == |instance.cls.fields|
    ensures d == CamelDict(instance, |instance.cls.fields|)
  {
    d := [];
    for n := 0 to |instance.cls.fields|
      invariant d == CamelDict(instance, n)
    {
      var val := instance.attributes[n];
      if val != Null {
        d := Put(d, ToCamel(instance.cls.fields[n].Name()), ToDictValue(val));
      }
    }
  }

  // ---- from_dict ----------------------------------------------------------------------------

  function AllOk(results: seq<Result<Value>>): Result<seq<Value>> {
    if results == [] then Ok([])
    else
      var front :- AllOk(results[..|results| - 1]);
      var last :- results[|results| - 1];
      Ok(front + [last])
  }

  /** `cls.from_dict(data)`. */
  function FromDict(cls: Class, data: Items<Value>): Result<Value>
    decreases cls, 0
  {
    var d := SnakeKeys(data);
    var attributes :- AllOk(seq(|cls.fields|, i requires 0 <= i < |cls.fields| =>
      ReadField(cls.fields[i].kind, Get(d, cls.fields[i].Name()))));
    Ok(Model(cls, attributes))
  }

  function ReadField(kind: Kind, got: Option<Value>): Result<Value>
    decreases kind, 0
  {
    match kind
    case Required => if got.Some? then Ok(got.value) else Raised(Error("missing argument"))
    case Optional(default) => Ok(if got.Some? then got.value else default)
    case Nested(cls) => if got.Some? then ReadModel(cls, got.value) else Ok(Null)
    case Models(cls) => ReadModels(cls, if got.Some? then got.value else List([]))
    case OptionalModels(cls) => if got.Some? && got.value != Null then ReadModels(cls, got.value) else Ok(Null)
  }

  /** `cls.from_dict(v) if isinstance(v, dict) else v`. */
  function ReadModel(cls: Class, v: Value): Result<Value>
    decreases cls, 1
  {
    if v.Dict? then FromDict(cls, v.entries) else Ok(v)
  }

  /** `_model_list`. */
  function ReadModels(cls: Class, v: Value): Result<Value>
    decreases cls, 2
  {
    if !v.List? then Ok(List([]))
    else
      var items :- AllOk(seq(|v.items|, i requires 0 <= i < |v.items| => ReadModel(cls, v.items[i])));
      Ok(List(items))
  }

  // ---- instances ----------------------------------------------------------------------------

  /** Field names that come back from camel case and stay apart, here and in every nested class. */
  ghost predicate WellNamed(cls: Class)
    decreases cls, 0
  {
    && (forall i | 0 <= i < |cls.fields| :: RecoverableName(cls.fields[i].Name()))
    && (forall i, j | 0 <= i < j < |cls.fields| :: cls.fields[i].Name() != cls.fields[j].Name())
    && (forall i | 0 <= i < |cls.fields| :: WellNamedKind(cls.fields[i].kind))
  }

  ghost predicate WellNamedKind(kind: Kind)
    decreases kind, 0
  {
    kind.Nested? || kind.Models? || kind.OptionalModels? ==> WellNamed(kind.cls)
  }

  /** A value with no model inside: what JSON can hold. */
  ghost predicate Json(v: Value) {
    match v
    case Model(_, _) => false
    case List(items) => forall i | 0 <= i < |items| :: Json(items[i])
    case Dict(entries) => forall i | 0 <= i < |entries| :: Json(entries[i].1)
    case _ => true
  }

  /** An instance of `cls` by its declared types, except that any attribute may be `None`. */
  ghost predicate Shaped(cls: Class, v: Value)
    decreases cls, 0
  {
    && v.Model? && v.cls == cls && |v.attributes| == |cls.fields|
    && (forall i | 0 <= i < |cls.fields| :: ShapedField(cls.fields[i].kind, v.attributes[i]))
  }

  ghost predicate ShapedField(kind: Kind, v: Value)
    decreases kind, 0
  {
    match kind
    case Required => Json(v)
    case Optional(_) => Json(v)
    case Nested(cls) => v == Null || Shaped(cls, v)
    case Models(cls) => v == Null || (v.List? && forall i | 0 <= i < |v.items| :: Shaped(cls, v.items[i]))
    case OptionalModels(cls) => v == Null || (v.List? && forall i | 0 <= i < |v.items| :: Shaped(cls, v.items[i]))
  }

  /** No `None` anywhere that `from_dict` would not put back itself. */
  ghost predicate Restorable(cls: Class, v: Value)
    requires Shaped(cls, v)
    decreases cls, 0
  {
    forall i | 0 <= i < |cls.fields| :: RestorableField(cls.fields[i].kind, v.attributes[i])
  }

  ghost predicate RestorableField(kind: Kind, v: Value)
    requires ShapedField(kind, v)
    decreases kind, 0
  {
    match kind
    case Required => v != Null
    case Optional(default) => v == Null ==> default == Null
    case Nested(cls) => v == Null || Restorable(cls, v)
    case Models(cls) => v != Null && forall i | 0 <= i < |v.items| :: Restorable(cls, v.items[i])
    case OptionalModels(cls) => v == Null || forall i | 0 <= i < |v.items| :: Restorable(cls, v.items[i])
  }

  // ---- the round trip -------------------------------------------------------------------------

  lemma {:induction false} JsonIsUntouched(v: Value)
    requires Json(v)
    ensures ToDictValue(v) == v
  {
    if v.List? {
      forall i | 0 <= i < |v.items| ensures ToDictValue(v.items[i]) == v.items[i] {
        JsonIsUntouched(v.items[i]);
      }
    } else if v.Dict? {
      forall i | 0 <= i < |v.entries| ensures ToDictValue(v.entries[i].1) == v.entries[i].1 {
        JsonIsUntouched(v.entries[i].1);
      }
    }
  }

  lemma {:induction false} AllOkIff(results: seq<Result<Value>>, values: seq<Value>)
    requires |results| == |values|
    ensures AllOk(results) == Ok(values) <==> forall i | 0 <= i < |values| :: results[i] == Ok(values[i])
    ensures AllOk(results).Ok? ==> |AllOk(results).value| == |results|
  {
    if results != [] {
      var n := |results| - 1;
      AllOkIff(results[..n], values[..n]);
      assert values == values[..n] + [values[n]];
      if forall i | 0 <= i < |values| :: results[i] == Ok(values[i]) {
        assert forall i | 0 <= i < n :: results[..n][i] == Ok(values[..n][i]);
      }
      if AllOk(results) == Ok(values) {
        var front := AllOk(results[..n]).value;
        assert (front + [results[n].value])[..n] == front;
        assert forall i | 0 <= i < n :: results[i] == results[..n][i];
      }
    }
  }

  /** Every key of the dictionary is the camel-cased name of a field with a value, and maps to that value. */
  lemma {:induction false} CamelDictEntries(v: Value, n: nat)
    requires v.Model? && n <= |v.attributes| == |v.cls.fields| && WellNamed(v.cls)
    ensures DistinctKeys(CamelDict(v, n))
    ensures forall j | 0 <= j < |CamelDict(v, n)| :: Written(v, n, CamelDict(v, n)[j])
    ensures forall i | 0 <= i < n && v.attributes[i] != Null ::
              Get(CamelDict(v, n), ToCamel(v.cls.fields[i].Name())) == Some(ToDictValue(v.attributes[i]))
  {
    hide ToDictValue, ToCamel, RecoverableName, WellNamedKind, CamelDict, Get, Put;
    if n == 0 {
      assert CamelDict(v, 0) == [] by {
        CamelDictStarts(v);
      }
    } else {
      CamelDictEntries(v, n - 1);
      var before, after := CamelDict(v, n - 1), CamelDict(v, n);
      CamelDictStep(v, n, before);
      var key, value := ToCamel(v.cls.fields[n - 1].Name()), v.attributes[n - 1];
      if value != Null {
        GetAfterAppend(before, key, ToDictValue(value));
      }
      forall j | 0 <= j < |after| ensures Written(v, n, after[j]) {
        if j < |before| {
          assert Written(v, n - 1, before[j]);
        } else {
          assert EntryOf(v, n - 1, after[j]);
        }
      }
    }
  }

  lemma CamelDictStarts(v: Value)
    requires v.Model?
    ensures CamelDict(v, 0) == []
  {
  }

  ghost predicate EntryOf(v: Value, i: nat, entry: (string, Value))
    requires v.Model? && i < |v.attributes| == |v.cls.fields|
  {
    v.attributes[i] != Null && entry == (ToCamel(v.cls.fields[i].Name()), ToDictValue(v.attributes[i]))
  }

  ghost predicate Written(v: Value, n: nat, entry: (string, Value))
    requires v.Model? && n <= |v.attributes| == |v.cls.fields|
  {
    exists i | 0 <= i < n :: EntryOf(v, i, entry)
  }

  lemma CamelDictStep(v: Value, n: nat, before: Items<Value>)
    requires v.Model? && 0 < n <= |v.attributes| == |v.cls.fields| && WellNamed(v.cls)
    requires before == CamelDict(v, n - 1) && forall j | 0 <= j < |before| :: Written(v, n - 1, before[j])
    ensures CamelDict(v, n) == if v.attributes[n - 1] == Null then before
      else before + [(ToCamel(v.cls.fields[n - 1].Name()), ToDictValue(v.attributes[n - 1]))]
    ensures forall i | 0 <= i < n - 1 :: ToCamel(v.cls.fields[i].Name()) != ToCamel(v.cls.fields[n - 1].Name())
    ensures forall j | 0 <= j < |before| :: before[j].0 != ToCamel(v.cls.fields[n - 1].Name())
  {
    hide ToDictValue, ToCamel, RecoverableName, WellNamedKind;
    forall i | 0 <= i < n - 1 ensures ToCamel(v.cls.fields[i].Name()) != ToCamel(v.cls.fields[n - 1].Name()) {
      CamelNamesStayApart(v.cls.fields[i].Name(), v.cls.fields[n - 1].Name());
    }
    forall j | 0 <= j < |before| ensures before[j].0 != ToCamel(v.cls.fields[n - 1].Name()) {
      assert Written(v, n - 1, before[j]);
    }
  }

  /** Looking a field up in the snake-cased dictionary finds what was written under its camel-cased name. */
  lemma LookUp(cls: Class, data: Items<Value>, i: nat)
    requires WellNamed(cls) && DistinctKeys(data) && i < |cls.fields|
    requires forall j | 0 <= j < |data| :: Keyed(cls, data[j].0)
    ensures Get(SnakeKeys(data), cls.fields[i].Name()) == Get(data, ToCamel(cls.fields[i].Name()))
  {
    hide ToCamel, ToSnake, RecoverableName, WellNamedKind;
    var name := cls.fields[i].Name();
    assert ToSnake(ToCamel(name)) == name by {
      Restored(name);
    }
    forall j | 0 <= j < |data| ensures ToCamel(ToSnake(data[j].0)) == data[j].0 {
      var k :| 0 <= k < |cls.fields| && KeyOf(cls, k, data[j].0);
      Restored(cls.fields[k].Name());
    }
    RenamingIsPointwise(ToSnake, data);
    var d := SnakeKeys(data);
    var at := Find(data, ToCamel(name));
    if at < |data| {
      assert d[at] == (name, data[at].1);
      GetAt(d, at);
    } else {
      assert forall j | 0 <= j < |d| :: d[j].0 == ToSnake(data[j].0);
      GetOnlyPresent(d, name);
    }
  }

  ghost predicate KeyOf(cls: Class, k: nat, key: string)
    requires k < |cls.fields|
  {
    key == ToCamel(cls.fields[k].Name())
  }

  ghost predicate Keyed(cls: Class, key: string) {
    exists k | 0 <= k < |cls.fields| :: KeyOf(cls, k, key)
  }

  /** What `from_dict` finds for each field of an instance `to_dict` has written. */
  lemma FoundIs(cls: Class, v: Value, i: nat)
    requires WellNamed(cls) && Shaped(cls, v) && i < |cls.fields|
    ensures Get(SnakeKeys(CamelDict(v, |cls.fields|)), cls.fields[i].Name())
         == if v.attributes[i] == Null then None else Some(ToDictValue(v.attributes[i]))
  {
    hide ToDictValue, ToCamel, ToSnake, RecoverableName, WellNamedKind, ShapedField, CamelDict, SnakeKeys;
    var n := |cls.fields|;
    var data := CamelDict(v, n);
    CamelDictEntries(v, n);
    forall j | 0 <= j < |data| ensures Keyed(cls, data[j].0) {
      assert Written(v, n, data[j]);
      var k :| 0 <= k < n && EntryOf(v, k, data[j]);
      assert KeyOf(cls, k, data[j].0);
    }
    LookUp(cls, data, i);
    var key := ToCamel(cls.fields[i].Name());
    if v.attributes[i] == Null {
      forall j | 0 <= j < |data| ensures data[j].0 != key {
        assert Written(v, n, data[j]);
        var k :| 0 <= k < n && EntryOf(v, k, data[j]);
        if k != i {
          CamelNamesStayApart(cls.fields[k].Name(), cls.fields[i].Name());
        }
      }
      GetOnlyPresent(data, key);
    }
  }

  /** `from_dict(to_dict(x)) == x` exactly when no field that `from_dict` fills otherwise was `None`. */
  lemma {:induction false} RoundTripIff(cls: Class, v: Value)
    requires WellNamed(cls) && Shaped(cls, v)
    ensures FromDict(cls, CamelDict(v, |cls.fields|)) == Ok(v) <==> Restorable(cls, v)
    decreases cls, 0
  {
    hide ToDictValue, ToCamel, ToSnake, RecoverableName, SnakeKeys, CamelDict, ReadField, WellNamedKind, ShapedField,
         RestorableField, AllOk;
    var n := |cls.fields|;
    var d := SnakeKeys(CamelDict(v, n));
    var read := seq(n, i requires 0 <= i < n => ReadField(cls.fields[i].kind, Get(d, cls.fields[i].Name())));
    forall i | 0 <= i < n
      ensures read[i] == Ok(v.attributes[i]) <==> RestorableField(cls.fields[i].kind, v.attributes[i])
    {
      FoundIs(cls, v, i);
      FieldRoundTripIff(cls.fields[i].kind, v.attributes[i]);
    }
    AllOkIff(read, v.attributes);
    FromDictUnfolds(cls, CamelDict(v, n), read);
  }

  lemma FromDictUnfolds(cls: Class, data: Items<Value>, read: seq<Result<Value>>)
    requires read == seq(|cls.fields|, i requires 0 <= i < |cls.fields| =>
      ReadField(cls.fields[i].kind, Get(SnakeKeys(data), cls.fields[i].Name())))
    ensures FromDict(cls, data)
         == if AllOk(read).Ok? then Ok(Model(cls, AllOk(read).value)) else Raised(AllOk(read).fault)
  {
    hide AllOk, ReadField, SnakeKeys;
  }

  lemma {:induction false} FieldRoundTripIff(kind: Kind, v: Value)
    requires WellNamedKind(kind) && ShapedField(kind, v)
    ensures ReadField(kind, if v == Null then None else Some(ToDictValue(v))) == Ok(v) <==> RestorableField(kind, v)
    decreases kind, 0
  {
    hide CamelDict, FromDict, AllOk;
    match kind
    case Required => JsonIsUntouched(v);
    case Optional(_) => JsonIsUntouched(v);
    case Nested(cls) =>
      if v != Null {
        RoundTripIff(cls, v);
      }
    case Models(cls) =>
      if v != Null {
        ModelsRoundTripIff(cls, v);
      }
    case OptionalModels(cls) =>
      if v != Null {
        ModelsRoundTripIff(cls, v);
      }
  }

  lemma {:induction false} ModelsRoundTripIff(cls: Class, v: Value)
    requires WellNamed(cls) && v.List? && forall i | 0 <= i < |v.items| :: Shaped(cls, v.items[i])
    ensures ToDictValue(v).List?
    ensures ReadModels(cls, ToDictValue(v)) == Ok(v) <==> forall i | 0 <= i < |v.items| :: Restorable(cls, v.items[i])
    decreases cls, 1
  {
    hide CamelDict, FromDict, AllOk, Restorable, WellNamed;
    var n := |v.items|;
    var written := ToDictValue(v);
    var read := seq(n, i requires 0 <= i < n => ReadModel(cls, written.items[i]));
    forall i | 0 <= i < n ensures read[i] == Ok(v.items[i]) <==> Restorable(cls, v.items[i]) {
      RoundTripIff(cls, v.items[i]);
      assert written.items[i] == ToDictValue(v.items[i]);
    }
    AllOkIff(read, v.items);
  }

  // ---- what comes back ------------------------------------------------------------------------

  /** What reading back gives: every `None` that `from_dict` fills is filled, and a required one raises. */
  ghost function Refilled(cls: Class, v: Value): Result<Value>
    requires Shaped(cls, v)
    decreases cls, 0
  {
    var attributes :- AllOk(seq(|cls.fields|, i requires 0 <= i < |cls.fields| =>
      RefilledField(cls.fields[i].kind, v.attributes[i])));
    Ok(Model(cls, attributes))
  }

  ghost function RefilledField(kind: Kind, v: Value): Result<Value>
    requires ShapedField(kind, v)
    decreases kind, 0
  {
    match kind
    case Required => if v == Null then Raised(Error("missing argument")) else Ok(v)
    case Optional(default) => Ok(if v == Null then default else v)
    case Nested(cls) => if v == Null then Ok(Null) else Refilled(cls, v)
    case Models(cls) => if v == Null then Ok(List([])) else RefilledModels(cls, v)
    case OptionalModels(cls) => if v == Null then Ok(Null) else RefilledModels(cls, v)
  }

  ghost function RefilledModels(cls: Class, v: Value): Result<Value>
    requires v.List? && forall i | 0 <= i < |v.items| :: Shaped(cls, v.items[i])
    decreases cls, 1
  {
    var items :- AllOk(seq(|v.items|, i requires 0 <= i < |v.items| => Refilled(cls, v.items[i])));
    Ok(List(items))
  }

  /** Reading back what an instance wrote refills it, and does nothing else. */
  lemma {:induction false} ReadsBackRefilled(cls: Class, v: Value)
    requires WellNamed(cls) && Shaped(cls, v)
    ensures FromDict(cls, CamelDict(v, |cls.fields|)) == Refilled(cls, v)
    decreases cls, 0
  {
    hide ToDictValue, ToCamel, ToSnake, RecoverableName, SnakeKeys, CamelDict, ReadField, WellNamedKind, ShapedField,
         RefilledField, AllOk;
    var n := |cls.fields|;
    var d := SnakeKeys(CamelDict(v, n));
    var read := seq(n, i requires 0 <= i < n => ReadField(cls.fields[i].kind, Get(d, cls.fields[i].Name())));
    var refilled := seq(n, i requires 0 <= i < n => RefilledField(cls.fields[i].kind, v.attributes[i]));
    forall i | 0 <= i < n ensures read[i] == refilled[i] {
      FoundIs(cls, v, i);
      FieldReadsBackRefilled(cls.fields[i].kind, v.attributes[i]);
    }
    assert read == refilled;
    FromDictUnfolds(cls, CamelDict(v, n), read);
    RefilledUnfolds(cls, v, refilled);
  }

  lemma RefilledUnfolds(cls: Class, v: Value, refilled: seq<Result<Value>>)
    requires Shaped(cls, v) && |refilled| == |cls.fields|
    requires forall i | 0 <= i < |refilled| :: refilled[i] == RefilledField(cls.fields[i].kind, v.attributes[i])
    ensures Refilled(cls, v)
         == if AllOk(refilled).Ok? then Ok(Model(cls, AllOk(refilled).value)) else Raised(AllOk(refilled).fault)
  {
    hide AllOk, RefilledField, ShapedField;
    var fields := seq(|cls.fields|, i requires 0 <= i < |cls.fields| =>
      RefilledField(cls.fields[i].kind, v.attributes[i]));
    assert fields == refilled;
  }

  lemma NoModelsRead(cls: Class)
    ensures ReadModels(cls, List([])) == Ok(List([]))
  {
    assert AllOk([]) == Ok([]);
  }

  lemma {:induction false} FieldReadsBackRefilled(kind: Kind, v: Value)
    requires WellNamedKind(kind) && ShapedField(kind, v)
    ensures ReadField(kind, if v == Null then None else Some(ToDictValue(v))) == RefilledField(kind, v)
    decreases kind, 0
  {
    hide CamelDict, FromDict, AllOk, Refilled, RefilledModels;
    match kind
    case Required => JsonIsUntouched(v);
    case Optional(_) => JsonIsUntouched(v);
    case Nested(cls) =>
      if v != Null {
        ReadsBackRefilled(cls, v);
      }
    case Models(cls) =>
      if v == Null {
        NoModelsRead(cls);
      } else {
        ModelsReadBackRefilled(cls, v);
      }
    case OptionalModels(cls) =>
      if v != Null {
        ModelsReadBackRefilled(cls, v);
      }
  }

  lemma {:induction false} ModelsReadBackRefilled(cls: Class, v: Value)
    requires WellNamed(cls) && v.List? && forall i | 0 <= i < |v.items| :: Shaped(cls, v.items[i])
    ensures ToDictValue(v).List?
    ensures ReadModels(cls, ToDictValue(v)) == RefilledModels(cls, v)
    decreases cls, 1
  {
    hide CamelDict, FromDict, AllOk, Refilled, WellNamed;
    var n := |v.items|;
    var written := ToDictValue(v);
    var read := seq(n, i requires 0 <= i < n => ReadModel(cls, written.items[i]));
    var refilled := seq(n, i requires 0 <= i < n => Refilled(cls, v.items[i]));
    forall i | 0 <= i < n ensures read[i] == refilled[i] {
      ReadsBackRefilled(cls, v.items[i]);
      assert written.items[i] == ToDictValue(v.items[i]);
    }
    assert read == refilled;
  }

  /** A list of models that was `None` comes back as an empty list, when nothing else is replaced. */
  lemma MissingListComesBackEmpty(cls: Class, v: Value, i: nat)
    requires WellNamed(cls) && Shaped(cls, v)
    requires i < |cls.fields| && cls.fields[i].kind.Models? && v.attributes[i] == Null
    requires forall j | 0 <= j < |cls.fields| && j != i :: RestorableField(cls.fields[j].kind, v.attributes[j])
    ensures FromDict(cls, CamelDict(v, |cls.fields|)) == Ok(Model(cls, v.attributes[i := List([])]))
  {
    hide ShapedField, WellNamedKind, RestorableField, ReadField, ToDictValue, AllOk, FromDict, CamelDict, Refilled,
         RecoverableName;
    var n, filled := |cls.fields|, v.attributes[i := List([])];
    ReadsBackRefilled(cls, v);
    var refilled := seq(n, j requires 0 <= j < n => RefilledField(cls.fields[j].kind, v.attributes[j]));
    forall j | 0 <= j < n ensures refilled[j] == Ok(filled[j]) {
      if j != i {
        FieldRoundTripIff(cls.fields[j].kind, v.attributes[j]);
        FieldReadsBackRefilled(cls.fields[j].kind, v.attributes[j]);
      }
    }
    AllOkIff(refilled, filled);
    RefilledUnfolds(cls, v, refilled);
  }
}
