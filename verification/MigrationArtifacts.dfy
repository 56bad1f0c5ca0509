/** The classes a migration source inventory is made of, and its own `to_dict`. */
module MigrationArtifacts {
  import opened Common
  import opened FieldCasing
  import opened OrderedDict
  import opened AdminModels

  const SOURCE_IDENTITY := Class([
    Field(["display", "name"], Required),
    Field(["base", "url"], Required),
    Field(["product"], Optional(Null)),
    Field(["version"], Optional(Null)),
    Field(["build"], Optional(Null)),
    Field(["service", "type"], Optional(Null))])

  const AUTH_POSTURE := Class([
    Field(["mode"], Required),
    Field(["credentials", "supplied"], Optional(Bool(false))),
    Field(["access", "confirmed"], Optional(Bool(false))),
    Field(["notes"], Optional(List([])))])

  const COMPLETENESS := Class([
    Field(["status"], Required),
    Field(["warnings"], Optional(List([]))),
    Field(["missing", "artifacts"], Optional(List([])))])

  const SUMMARY := Class([
    Field(["container", "count"], Optional(Number(0))),
    Field(["resource", "count"], Optional(Number(0))),
    Field(["style", "count"], Optional(Number(0))),
    Field(["external", "dependency", "count"], Optional(Number(0))),
    Field(["compatible", "count"], Optional(Number(0))),
    Field(["partially", "compatible", "count"], Optional(Number(0))),
    Field(["incompatible", "count"], Optional(Number(0)))])

  const ASSESSMENT := Class([
    Field(["level"], Required),
    Field(["reason"], Required),
    Field(["code"], Optional(Null)),
    Field(["warnings"], Optional(List([]))),
    Field(["manual", "steps"], Optional(List([])))])

  const CODED_VALUE := Class([
    Field(["code"], Required),
    Field(["name"], Required)])

  const SPATIAL_REFERENCE := Class([
    Field(["role"], Required),
    Field(["source", "value"], Optional(Null)),
    Field(["srid"], Optional(Null)),
    Field(["crs", "uri"], Optional(Null)),
    Field(["datum"], Optional(Null)),
    Field(["unit"], Optional(Null)),
    Field(["axis", "order"], Optional(Null)),
    Field(["is", "geographic"], Optional(Null))])

  const INVENTORY_FIELD := Class([
    Field(["name"], Required),
    Field(["field", "type"], Required),
    Field(["alias"], Optional(Null)),
    Field(["nullable"], Optional(Null)),
    Field(["domain", "type"], Optional(Null)),
    Field(["domain", "name"], Optional(Null)),
    Field(["domain", "values"], OptionalModels(CODED_VALUE))])

  const CONTAINER := Class([
    Field(["id"], Required),
    Field(["kind"], Required),
    Field(["name"], Required),
    Field(["compatibility"], Nested(ASSESSMENT)),
    Field(["title"], Optional(Null)),
    Field(["description"], Optional(Null)),
    Field(["is", "default"], Optional(Null))])

  const RESOURCE := Class([
    Field(["id"], Required),
    Field(["container", "id"], Required),
    Field(["kind"], Required),
    Field(["name"], Required),
    Field(["compatibility"], Nested(ASSESSMENT)),
    Field(["title"], Optional(Null)),
    Field(["description"], Optional(Null)),
    Field(["geometry", "type"], Optional(Null)),
    Field(["feature", "count"], Optional(Null)),
    Field(["has", "attachments"], Optional(Null)),
    Field(["capabilities"], Optional(List([]))),
    Field(["spatial", "references"], Models(SPATIAL_REFERENCE)),
    Field(["fields"], Models(INVENTORY_FIELD)),
    Field(["style", "ids"], Optional(List([]))),
    Field(["external", "dependency", "ids"], Optional(List([])))])

  const STYLE := Class([
    Field(["id"], Required),
    Field(["container", "id"], Required),
    Field(["kind"], Required),
    Field(["name"], Required),
    Field(["compatibility"], Nested(ASSESSMENT)),
    Field(["format"], Optional(Null)),
    Field(["resource", "ids"], Optional(List([]))),
    Field(["external", "dependency", "ids"], Optional(List([]))),
    Field(["metadata"], Optional(Dict([])))])

  const EXTERNAL_DEPENDENCY := Class([
    Field(["id"], Required),
    Field(["container", "id"], Required),
    Field(["kind"], Required),
    Field(["name"], Required),
    Field(["compatibility"], Nested(ASSESSMENT)),
    Field(["resource", "id"], Optional(Null)),
    Field(["dependency", "type"], Optional(Null)),
    Field(["address"], Optional(Null)),
    Field(["metadata"], Optional(Dict([]))),
    Field(["spatial", "references"], Models(SPATIAL_REFERENCE))])

  const SOURCE_INVENTORY := Class([
    Field(["source", "kind"], Required),
    Field(["source"], Nested(SOURCE_IDENTITY)),
    Field(["auth", "posture"], Nested(AUTH_POSTURE)),
    Field(["scan", "completeness"], Nested(COMPLETENESS)),
    Field(["summary"], Nested(SUMMARY)),
    Field(["overall", "compatibility"], Nested(ASSESSMENT)),
    Field(["containers"], Models(CONTAINER)),
    Field(["resources"], Models(RESOURCE)),
    Field(["styles"], Models(STYLE)),
    Field(["external", "dependencies"], Models(EXTERNAL_DEPENDENCY)),
    Field(["artifact", "kind"], Optional(Text("honua.migration.source-inventory"))),
    Field(["artifact", "version"], Optional(Text("1.0")))])

  // ---- names made of words ---------------------------------------------------------------------

  /** Letters only, two or more: what every word of every field name is. */
  predicate Word(s: string) {
    |s| > 1 && forall i | 0 <= i < |s| :: IsLower(s[i])
  }

  predicate Words(words: seq<string>) {
    words != [] && forall k | 0 <= k < |words| :: Word(words[k])
  }

  lemma WordsArePlain(words: seq<string>)
    requires Words(words)
    ensures AllPlain(words)
  {
  }

  lemma {:induction false} JoinedIsName(parts: seq<string>)
    requires AllPlain(parts)
    ensures IsName(JoinTail(parts))
  {
    if parts != [] {
      assert AllPlain(parts[1..]);
      JoinedIsName(parts[1..]);
    }
  }

  lemma WordsAreTheParts(field: Field)
    requires Words(field.words)
    ensures Split(field.Name()) == field.words && RecoverableName(field.Name())
  {
    hide Word, Plain, Split, JoinTail, IsLowerOrDigit;
    var words := field.words;
    WordsArePlain(words);
    SplitOfJoin(words);
    assert AllPlain(words[1..]);
    JoinedIsName(words[1..]);
    assert Plain(words[0]);
    PlainIsName(words[0], JoinTail(words[1..]));
    forall k | 1 <= k < |words| ensures Findable(words, k) {
      assert Word(words[k]) && Word(words[k - 1]);
      WordsFollow(words, k);
    }
  }

  lemma PlainIsName(part: string, rest: string)
    requires Plain(part) && IsName(rest)
    ensures IsName(part + rest)
  {
  }

  lemma WordsFollow(words: seq<string>, k: nat)
    requires 1 <= k < |words| && Word(words[k]) && Word(words[k - 1])
    ensures Findable(words, k)
  {
  }

  predicate MadeOfWords(cls: Class) {
    && (forall i | 0 <= i < |cls.fields| :: Words(cls.fields[i].words))
    && (forall i, j | 0 <= i < j < |cls.fields| :: cls.fields[i].words != cls.fields[j].words)
  }

  lemma MadeOfWordsIsWellNamed(cls: Class)
    requires MadeOfWords(cls)
    requires forall i | 0 <= i < |cls.fields| :: WellNamedKind(cls.fields[i].kind)
    ensures WellNamed(cls)
  {
    hide Words, RecoverableName, WellNamedKind, Split;
    forall i | 0 <= i < |cls.fields|
      ensures RecoverableName(cls.fields[i].Name()) && Split(cls.fields[i].Name()) == cls.fields[i].words
    {
      WordsAreTheParts(cls.fields[i]);
    }
  }

  lemma SourceIdentityNames()
    ensures WellNamed(SOURCE_IDENTITY)
  {
    hide WellNamed;
    MadeOfWordsIsWellNamed(SOURCE_IDENTITY);
  }

  lemma AuthPostureNames()
    ensures WellNamed(AUTH_POSTURE)
  {
    hide WellNamed;
    MadeOfWordsIsWellNamed(AUTH_POSTURE);
  }

  lemma CompletenessNames()
    ensures WellNamed(COMPLETENESS)
  {
    hide WellNamed;
    MadeOfWordsIsWellNamed(COMPLETENESS);
  }

  lemma SummaryWords()
    ensures forall i | 0 <= i < |SUMMARY.fields| :: Words(SUMMARY.fields[i].words)
  {
  }

  lemma SummaryNamesDiffer()
    ensures forall i, j | 0 <= i < j < |SUMMARY.fields| :: SUMMARY.fields[i].words != SUMMARY.fields[j].words
  {
    hide Words;
  }

  lemma SummaryNames()
    ensures WellNamed(SUMMARY)
  {
    hide WellNamed, Words;
    SummaryWords();
    SummaryNamesDiffer();
    MadeOfWordsIsWellNamed(SUMMARY);
  }

  lemma AssessmentNames()
    ensures WellNamed(ASSESSMENT)
  {
    hide WellNamed;
    MadeOfWordsIsWellNamed(ASSESSMENT);
  }

  lemma CodedValueNames()
    ensures WellNamed(CODED_VALUE)
  {
    hide WellNamed;
    MadeOfWordsIsWellNamed(CODED_VALUE);
  }

  lemma SpatialReferenceNames()
    ensures WellNamed(SPATIAL_REFERENCE)
  {
    hide WellNamed;
    MadeOfWordsIsWellNamed(SPATIAL_REFERENCE);
  }

  lemma InventoryFieldNames()
    ensures WellNamed(INVENTORY_FIELD)
  {
    hide WellNamed;
    CodedValueNames();
    MadeOfWordsIsWellNamed(INVENTORY_FIELD);
  }

  lemma ContainerNames()
    ensures WellNamed(CONTAINER)
  {
    hide WellNamed;
    AssessmentNames();
    MadeOfWordsIsWellNamed(CONTAINER);
  }

  lemma ResourceVocabulary()
    ensures Word("id") && Word("container") && Word("kind") && Word("name") && Word("compatibility")
    ensures Word("title") && Word("description") && Word("geometry") && Word("type") && Word("feature")
  {
  }

  lemma MoreResourceVocabulary()
    ensures Word("count") && Word("has") && Word("attachments") && Word("capabilities") && Word("spatial")
    ensures Word("references") && Word("fields") && Word("style") && Word("ids") && Word("external")
    ensures Word("dependency")
  {
  }

  lemma ResourceWords()
    ensures forall i | 0 <= i < |RESOURCE.fields| :: Words(RESOURCE.fields[i].words)
  {
    hide Word;
    ResourceVocabulary();
    MoreResourceVocabulary();
  }

  lemma ResourceNamesDiffer()
    ensures forall i, j | 0 <= i < j < |RESOURCE.fields| :: RESOURCE.fields[i].words != RESOURCE.fields[j].words
  {
    hide Words;
  }

  lemma ResourceKinds()
    ensures forall i | 0 <= i < |RESOURCE.fields| :: WellNamedKind(RESOURCE.fields[i].kind)
  {
    hide WellNamed, Words;
    AssessmentNames();
    SpatialReferenceNames();
    InventoryFieldNames();
  }

  lemma ResourceNames()
    ensures WellNamed(RESOURCE)
  {
    hide WellNamed, Words;
    ResourceWords();
    ResourceNamesDiffer();
    ResourceKinds();
    MadeOfWordsIsWellNamed(RESOURCE);
  }

  lemma StyleNames()
    ensures WellNamed(STYLE)
  {
    hide WellNamed;
    AssessmentNames();
    MadeOfWordsIsWellNamed(STYLE);
  }

  lemma ExternalDependencyNames()
    ensures WellNamed(EXTERNAL_DEPENDENCY)
  {
    hide WellNamed;
    AssessmentNames();
    SpatialReferenceNames();
    MadeOfWordsIsWellNamed(EXTERNAL_DEPENDENCY);
  }

  lemma InventoryVocabulary()
    ensures Word("source") && Word("kind") && Word("auth") && Word("posture") && Word("scan")
    ensures Word("completeness") && Word("summary") && Word("overall")
  {
  }

  lemma MoreInventoryVocabulary()
    ensures Word("compatibility") && Word("containers") && Word("resources") && Word("styles") && Word("external")
    ensures Word("dependencies") && Word("artifact") && Word("version")
  {
  }

  lemma SourceInventoryWords()
    ensures forall i | 0 <= i < |SOURCE_INVENTORY.fields| :: Words(SOURCE_INVENTORY.fields[i].words)
  {
    hide Word;
    InventoryVocabulary();
    MoreInventoryVocabulary();
  }

  lemma SourceInventoryNamesDiffer()
    ensures forall i, j | 0 <= i < j < |SOURCE_INVENTORY.fields| ::
              SOURCE_INVENTORY.fields[i].words != SOURCE_INVENTORY.fields[j].words
  {
    hide Words;
  }

  lemma SourceInventoryKinds()
    ensures forall i | 0 <= i < |SOURCE_INVENTORY.fields| :: WellNamedKind(SOURCE_INVENTORY.fields[i].kind)
  {
    hide WellNamed, Words;
    SourceIdentityNames();
    AuthPostureNames();
    CompletenessNames();
    SummaryNames();
    AssessmentNames();
    ContainerNames();
    ResourceNames();
    StyleNames();
    ExternalDependencyNames();
  }

  /** Every class of the source inventory has fields whose names survive camel case. */
  lemma SourceInventoryNames()
    ensures WellNamed(SOURCE_INVENTORY)
  {
    hide WellNamed, Words;
    SourceInventoryWords();
    SourceInventoryNamesDiffer();
    SourceInventoryKinds();
    MadeOfWordsIsWellNamed(SOURCE_INVENTORY);
  }

  // ---- the artifact itself ------------------------------------------------------------------------

  /** `MigrationSourceInventoryArtifact.to_dict`: the kind and the version first; `pop` wants both. */
  function InventoryToDict(v: Value): Result<Items<Value>>
    requires Shaped(SOURCE_INVENTORY, v)
  {
    var d := CamelDict(v, |SOURCE_INVENTORY.fields|);
    if Get(d, "artifactKind").None? || Get(d, "artifactVersion").None? then Raised(Error("KeyError"))
    else
      Ok([("artifactKind", Get(d, "artifactKind").value), ("artifactVersion", Get(d, "artifactVersion").value)]
         + Without(Without(d, "artifactKind"), "artifactVersion"))
  }

  lemma ArtifactKeys()
    ensures ToCamel(SOURCE_INVENTORY.fields[10].Name()) == "artifactKind"
    ensures ToCamel(SOURCE_INVENTORY.fields[11].Name()) == "artifactVersion"
  {
    CamelOfTwo(SOURCE_INVENTORY.fields[10]);
    CamelOfTwo(SOURCE_INVENTORY.fields[11]);
    assert "kind"[1..] == "ind" && ['K'] + "ind" == "Kind";
    assert "version"[1..] == "ersion" && ['V'] + "ersion" == "Version";
    assert "artifact" + "Kind" == "artifactKind" && "artifact" + "Version" == "artifactVersion";
  }

  lemma CamelOfTwo(field: Field)
    requires Words(field.words) && |field.words| == 2
    ensures ToCamel(field.Name()) == field.words[0] + ([UpperChar(field.words[1][0])] + field.words[1][1..])
  {
    WordsAreTheParts(field);
    LoweredPlain(field.words[1][1..]);
    assert CapitalizedAll(field.words[2..]) == "";
    assert CapitalizedAll(field.words[1..]) == Capitalized(field.words[1]);
  }

  /** A dictionary is read by its keys alone: the order of the entries does not matter. */
  lemma {:induction false} OrderDoesNotMatter(cls: Class, c: Items<Value>, d: Items<Value>)
    requires WellNamed(cls) && DistinctKeys(c) && DistinctKeys(d) && SameLookups(c, d)
    requires forall j | 0 <= j < |d| :: Keyed(cls, d[j].0)
    ensures FromDict(cls, c) == FromDict(cls, d)
  {
    hide FromDict, SnakeKeys, ReadField, WellNamed, Keyed, AllOk;
    forall j | 0 <= j < |c| ensures Keyed(cls, c[j].0) {
      GetAt(c, j);
      var i := Find(d, c[j].0);
      assert Get(c, c[j].0) == Get(d, c[j].0);
    }
    var n := |cls.fields|;
    var fromC := seq(n, i requires 0 <= i < n =>
      ReadField(cls.fields[i].kind, Get(SnakeKeys(c), cls.fields[i].Name())));
    var fromD := seq(n, i requires 0 <= i < n =>
      ReadField(cls.fields[i].kind, Get(SnakeKeys(d), cls.fields[i].Name())));
    forall i | 0 <= i < n ensures fromC[i] == fromD[i] {
      LookUp(cls, c, i);
      LookUp(cls, d, i);
      assert Get(c, ToCamel(cls.fields[i].Name())) == Get(d, ToCamel(cls.fields[i].Name()));
    }
    assert fromC == fromD;
    FromDictUnfolds(cls, c, fromC);
    FromDictUnfolds(cls, d, fromD);
  }

  /** The keys `_dataclass_to_camel_dict` writes are the class's own, each once. */
  lemma CamelDictIsKeyed(cls: Class, v: Value)
    requires WellNamed(cls) && Shaped(cls, v)
    ensures DistinctKeys(CamelDict(v, |cls.fields|))
    ensures forall j | 0 <= j < |CamelDict(v, |cls.fields|)| :: Keyed(cls, CamelDict(v, |cls.fields|)[j].0)
  {
    hide ToCamel, WellNamed, CamelDict, ToDictValue, ShapedField;
    var n := |cls.fields|;
    CamelDictEntries(v, n);
    forall j | 0 <= j < |CamelDict(v, n)| ensures Keyed(cls, CamelDict(v, n)[j].0) {
      assert Written(v, n, CamelDict(v, n)[j]);
      var k :| 0 <= k < n && EntryOf(v, k, CamelDict(v, n)[j]);
      assert KeyOf(cls, k, CamelDict(v, n)[j].0);
    }
  }

  lemma WrittenUnderIts(cls: Class, v: Value, i: nat, key: string)
    requires WellNamed(cls) && Shaped(cls, v) && i < |cls.fields| && key == ToCamel(cls.fields[i].Name())
    ensures Get(CamelDict(v, |cls.fields|), key)
         == if v.attributes[i] == Null then None else Some(ToDictValue(v.attributes[i]))
  {
    hide WellNamed, CamelDict, ToDictValue, ShapedField, ToCamel, SnakeKeys, Get, Keyed, DistinctKeys;
    CamelDictIsKeyed(cls, v);
    LookUp(cls, CamelDict(v, |cls.fields|), i);
    FoundIs(cls, v, i);
  }

  lemma PopSucceedsIff(v: Value)
    requires Shaped(SOURCE_INVENTORY, v)
    ensures |v.attributes| == 12
    ensures InventoryToDict(v).Ok? <==> v.attributes[10] != Null && v.attributes[11] != Null
    ensures InventoryToDict(v).Ok? ==>
      DistinctKeys(InventoryToDict(v).value)
      && SameLookups(InventoryToDict(v).value, CamelDict(v, |SOURCE_INVENTORY.fields|))
  {
    hide WellNamed, CamelDict, ToDictValue, ShapedField, ToCamel, Get, Without, SameLookups, DistinctKeys, Keyed;
    var d := CamelDict(v, |SOURCE_INVENTORY.fields|);
    SourceInventoryNames();
    ArtifactKeys();
    WrittenUnderIts(SOURCE_INVENTORY, v, 10, "artifactKind");
    WrittenUnderIts(SOURCE_INVENTORY, v, 11, "artifactVersion");
    CamelDictIsKeyed(SOURCE_INVENTORY, v);
    assert "artifactKind"[8] != "artifactVersion"[8];
    if Get(d, "artifactKind").Some? && Get(d, "artifactVersion").Some? {
      MovedToFront(d, "artifactKind", "artifactVersion");
    }
  }

  lemma KindAndVersionMatter(v: Value)
    requires Shaped(SOURCE_INVENTORY, v) && Restorable(SOURCE_INVENTORY, v)
    ensures v.attributes[10] != Null && v.attributes[11] != Null
  {
    assert RestorableField(SOURCE_INVENTORY.fields[10].kind, v.attributes[10]);
    assert RestorableField(SOURCE_INVENTORY.fields[11].kind, v.attributes[11]);
  }

  /**
   A source inventory, however nested, is read back unchanged from the dictionary it writes exactly
   when no attribute is `None` that `from_dict` would fill with something else.
   */
  lemma InventoryRoundTripIff(v: Value)
    requires Shaped(SOURCE_INVENTORY, v)
    ensures InventoryToDict(v).Ok? && FromDict(SOURCE_INVENTORY, InventoryToDict(v).value) == Ok(v)
       <==> Restorable(SOURCE_INVENTORY, v)
  {
    hide FromDict, CamelDict, ToDictValue, InventoryToDict, Restorable, ShapedField, WellNamed, Keyed, DistinctKeys,
         SameLookups;
    SourceInventoryNames();
    PopSucceedsIff(v);
    AdminModels.RoundTripIff(SOURCE_INVENTORY, v);
    CamelDictIsKeyed(SOURCE_INVENTORY, v);
    if InventoryToDict(v).Ok? {
      OrderDoesNotMatter(SOURCE_INVENTORY, InventoryToDict(v).value, CamelDict(v, |SOURCE_INVENTORY.fields|));
    }
    if Restorable(SOURCE_INVENTORY, v) {
      KindAndVersionMatter(v);
    }
  }

  // ---- well-typed instances ------------------------------------------------------------------------

  /** A value of the default's own type. */
  predicate TypedAs(default: Value, v: Value) {
    match default
    case Bool(_) => v.Bool?
    case Number(_) => v.Number?
    case Text(_) => v.Text?
    case List(_) => v.List?
    case Dict(_) => v.Dict?
    case Model(_, _) => v.Model?
    case Null => true
  }

  /** Every attribute has its declared type: `None` stands only where the declaration says `| None`. */
  ghost predicate WellTyped(cls: Class, v: Value)
    requires Shaped(cls, v)
    decreases cls, 0
  {
    forall i | 0 <= i < |cls.fields| :: WellTypedField(cls.fields[i].kind, v.attributes[i])
  }

  ghost predicate WellTypedField(kind: Kind, v: Value)
    requires ShapedField(kind, v)
    decreases kind, 0
  {
    match kind
    case Required => v.Text?
    case Optional(default) => TypedAs(default, v)
    case Nested(cls) => v.Model? && WellTyped(cls, v)
    case Models(cls) => v.List? && forall i | 0 <= i < |v.items| :: WellTyped(cls, v.items[i])
    case OptionalModels(cls) => v == Null || forall i | 0 <= i < |v.items| :: WellTyped(cls, v.items[i])
  }

  lemma {:induction false} WellTypedIsRestorable(cls: Class, v: Value)
    requires Shaped(cls, v) && WellTyped(cls, v)
    ensures Restorable(cls, v)
    decreases cls, 0
  {
    hide ShapedField, WellTypedField, RestorableField;
    forall i | 0 <= i < |cls.fields| ensures RestorableField(cls.fields[i].kind, v.attributes[i]) {
      WellTypedFieldIsRestorable(cls.fields[i].kind, v.attributes[i]);
    }
  }

  lemma {:induction false} WellTypedFieldIsRestorable(kind: Kind, v: Value)
    requires ShapedField(kind, v) && WellTypedField(kind, v)
    ensures RestorableField(kind, v)
    decreases kind, 0
  {
    hide WellTyped, Restorable;
    match kind
    case Required =>
    case Optional(_) =>
    case Nested(cls) => WellTypedIsRestorable(cls, v);
    case Models(cls) =>
      forall i | 0 <= i < |v.items| ensures Restorable(cls, v.items[i]) {
        WellTypedIsRestorable(cls, v.items[i]);
      }
    case OptionalModels(cls) =>
      if v != Null {
        forall i | 0 <= i < |v.items| ensures Restorable(cls, v.items[i]) {
          WellTypedIsRestorable(cls, v.items[i]);
        }
      }
  }

  /** Every well-typed source inventory is read back unchanged. */
  lemma WellTypedInventoryRoundTrips(v: Value)
    requires Shaped(SOURCE_INVENTORY, v) && WellTyped(SOURCE_INVENTORY, v)
    ensures InventoryToDict(v).Ok? && FromDict(SOURCE_INVENTORY, InventoryToDict(v).value) == Ok(v)
  {
    hide FromDict, InventoryToDict, Restorable, ShapedField, WellTyped;
    WellTypedIsRestorable(SOURCE_INVENTORY, v);
    InventoryRoundTripIff(v);
  }

  const ASSESSED := Model(ASSESSMENT, [Text("l"), Text("r"), Null, List([]), List([])])

  /** An external dependency, well typed but for its list of spatial references, which is `references`. */
  function Dependency(references: Value): Value {
    Model(EXTERNAL_DEPENDENCY,
      [Text("i"), Text("c"), Text("k"), Text("n"), ASSESSED, Null, Null, Null, Dict([]), references])
  }

  lemma AssessedIsShaped()
    ensures Shaped(ASSESSMENT, ASSESSED) && Restorable(ASSESSMENT, ASSESSED)
  {
    assert forall i | 0 <= i < 5 :: ShapedField(ASSESSMENT.fields[i].kind, ASSESSED.attributes[i]);
  }

  lemma DependencyIsShaped()
    ensures Shaped(EXTERNAL_DEPENDENCY, Dependency(Null))
    ensures forall j | 0 <= j < 9 :: RestorableField(EXTERNAL_DEPENDENCY.fields[j].kind, Dependency(Null).attributes[j])
  {
    hide ASSESSED, ASSESSMENT, Restorable, SPATIAL_REFERENCE;
    AssessedIsShaped();
    var kinds, attributes := EXTERNAL_DEPENDENCY.fields, Dependency(Null).attributes;
    assert Shaped(ASSESSMENT, attributes[4]) && Restorable(ASSESSMENT, attributes[4]);
    assert forall j | 0 <= j < 10 :: ShapedField(kinds[j].kind, attributes[j]);
  }

  /** A `None` list is not restored: an empty one comes back. */
  lemma MissingReferencesComeBackEmpty()
    ensures Shaped(EXTERNAL_DEPENDENCY, Dependency(Null))
    ensures FromDict(EXTERNAL_DEPENDENCY, CamelDict(Dependency(Null), 10))
         == Ok(Dependency(List([]))) != Ok(Dependency(Null))
  {
    hide ShapedField, RestorableField, FromDict, CamelDict, WellNamed;
    DependencyIsShaped();
    ExternalDependencyNames();
    MissingListComesBackEmpty(EXTERNAL_DEPENDENCY, Dependency(Null), 9);
    assert Dependency(Null).attributes[9 := List([])] == Dependency(List([])).attributes;
  }
}
