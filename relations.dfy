/** Recognising an existing many-to-one relation in the list the Directus
    instance returns, and the two request bodies the initialiser uses to
    create one. A relation record may name its ends in three places: at the
    top level, under `meta`, or in the flat `collection` / `field` /
    `related_collection` form; the first of these that is present wins. */
module RelationMatch {
  import opened Json
  import opened Catalog

  /** A relation record as the instance lists it: a JSON object. */
  type Record = map<string, JsValue>

  /** `a ?? b ?? … ?? z`: the first value that is neither null nor
      undefined, and the last value when every one of them is. */
  function FirstPresent(vs: seq<JsValue>): (v: JsValue)
    ensures v == Undefined || v in vs
    ensures !Nullish(v) ==> exists i :: 0 <= i < |vs| && vs[i] == v && forall j :: 0 <= j < i ==> Nullish(vs[j])
    ensures Nullish(v) ==> forall i :: 0 <= i < |vs| ==> Nullish(vs[i])
  {
    if vs == [] then Undefined
    else if !Nullish(vs[0]) || |vs| == 1 then vs[0]
    else
      var rest := FirstPresent(vs[1..]);
      assert forall i :: 1 <= i < |vs| ==> vs[i] == vs[1..][i - 1];
      rest
  }

  /** The three places one attribute may be found, in priority order. */
  function Aliases(r: Record, top: string, metaKey: string, flat: string): seq<JsValue> {
    [Get(r, top), OptGet(Get(r, "meta"), metaKey), Get(r, flat)]
  }

  /** `r.top ?? r.meta?.metaKey ?? r.flat` */
  function Resolve(r: Record, top: string, metaKey: string, flat: string): JsValue {
    Coalesce(Coalesce(Get(r, top), OptGet(Get(r, "meta"), metaKey)), Get(r, flat))
  }

  function ManyOf(r: Record): JsValue {
    Resolve(r, "many_collection", "many_collection", "collection")
  }

  function OneOf(r: Record): JsValue {
    Resolve(r, "one_collection", "one_collection", "related_collection")
  }

  function FieldOf(r: Record): JsValue {
    Resolve(r, "many_field", "many_field", "field")
  }

  /** `relationMatches`: all three resolved attributes are strictly equal to
      the wanted strings. */
  predicate RelationMatches(r: Record, many: string, one: string, fieldMany: string) {
    ManyOf(r) == Str(many) && OneOf(r) == Str(one) && FieldOf(r) == Str(fieldMany)
  }

  predicate Matches(r: Record, rel: RelationDef) {
    RelationMatches(r, rel.many, rel.one, rel.fieldMany)
  }

  /** `relations.some(…)` */
  predicate AnyMatches(records: seq<Record>, rel: RelationDef) {
    exists i :: 0 <= i < |records| && Matches(records[i], rel)
  }

  /** The `??` chain is the first present alias. */
  lemma ResolveIsFirstPresent(r: Record, top: string, metaKey: string, flat: string)
    ensures Resolve(r, top, metaKey, flat) == FirstPresent(Aliases(r, top, metaKey, flat))
  {
    var vs := Aliases(r, top, metaKey, flat);
    assert vs[1..] == [vs[1], vs[2]];
    assert vs[1..][1..] == [vs[2]];
    assert vs[1..][1..][1..] == [];
    assert FirstPresent([vs[2]]) == vs[2];
    assert FirstPresent([vs[1], vs[2]]) == Coalesce(vs[1], FirstPresent([vs[2]]));
  }

  /** A record matches exactly when, for each attribute, the first alias
      present holds the wanted name. */
  lemma MatchesIffFirstAliases(r: Record, many: string, one: string, fieldMany: string)
    ensures RelationMatches(r, many, one, fieldMany) <==>
      FirstPresent(Aliases(r, "many_collection", "many_collection", "collection")) == Str(many)
      && FirstPresent(Aliases(r, "one_collection", "one_collection", "related_collection")) == Str(one)
      && FirstPresent(Aliases(r, "many_field", "many_field", "field")) == Str(fieldMany)
  {
    ResolveIsFirstPresent(r, "many_collection", "many_collection", "collection");
    ResolveIsFirstPresent(r, "one_collection", "one_collection", "related_collection");
    ResolveIsFirstPresent(r, "many_field", "many_field", "field");
  }

  /** A present top-level alias decides on its own: when it names another
      collection the record does not match, whatever the other aliases
      say. */
  lemma TopLevelAliasWins(r: Record, many: string, one: string, fieldMany: string)
    requires !Nullish(Get(r, "many_collection")) && Get(r, "many_collection") != Str(many)
    ensures !RelationMatches(r, many, one, fieldMany)
  {
  }

  /** The same holds one level down: with no top-level alias, a present
      `meta` alias naming another collection rules the record out even when
      the flat `collection` agrees. */
  lemma MetaAliasBeatsFlat(r: Record, many: string, one: string, fieldMany: string)
    requires Nullish(Get(r, "many_collection"))
    requires !Nullish(OptGet(Get(r, "meta"), "many_collection"))
    requires OptGet(Get(r, "meta"), "many_collection") != Str(many)
    ensures !RelationMatches(r, many, one, fieldMany)
  {
  }

  /** A record in the flat form only. */
  function FlatRecord(rel: RelationDef): Record {
    map["collection" := Str(rel.many), "field" := Str(rel.fieldMany), "related_collection" := Str(rel.one)]
  }

  /** A record carrying the names only under `meta`. */
  function MetaRecord(rel: RelationDef): Record {
    map["meta" := Obj(map["many_collection" := Str(rel.many), "one_collection" := Str(rel.one),
                          "many_field" := Str(rel.fieldMany)])]
  }

  /** A record carrying the names only at the top level. */
  function TopLevelRecord(rel: RelationDef): Record {
    map["many_collection" := Str(rel.many), "one_collection" := Str(rel.one), "many_field" := Str(rel.fieldMany)]
  }

  /** The record the instance stores for a relation and lists back: the flat
      names, repeated under `meta`. */
  function StoredRecord(rel: RelationDef): Record {
    FlatRecord(rel)["meta" := Obj(map["many_collection" := Str(rel.many), "one_collection" := Str(rel.one),
                                      "many_field" := Str(rel.fieldMany)])]
  }

  /** Each of the tolerated record layouts is recognised, and recognised
      only for its own relation. */
  lemma FlatRecordMatches(rel: RelationDef, other: RelationDef)
    ensures Matches(FlatRecord(rel), other) <==> rel == other
  {
  }

  lemma MetaRecordMatches(rel: RelationDef, other: RelationDef)
    ensures Matches(MetaRecord(rel), other) <==> rel == other
  {
  }

  lemma TopLevelRecordMatches(rel: RelationDef, other: RelationDef)
    ensures Matches(TopLevelRecord(rel), other) <==> rel == other
  {
  }

  lemma StoredRecordMatches(rel: RelationDef, other: RelationDef)
    ensures Matches(StoredRecord(rel), other) <==> rel == other
  {
  }

  /** The two request bodies `ensureRelation` tries, in order. */
  datatype Shape = CollectionField | ManyOne

  const Shapes: seq<Shape> := [CollectionField, ManyOne]

  function Payload(shape: Shape, rel: RelationDef): (body: Record)
    ensures shape.CollectionField? ==> body.Keys == {"collection", "field", "related_collection", "schema"}
    ensures shape.ManyOne? ==> body.Keys == {"collection_many", "collection_one", "field_many", "field_one"}
  {
    match shape
    case CollectionField =>
      map["collection" := Str(rel.many), "field" := Str(rel.fieldMany), "related_collection" := Str(rel.one),
          "schema" := Obj(map["table" := Str(rel.many), "column" := Str(rel.fieldMany),
                              "foreign_key_table" := Str(rel.one), "foreign_key_column" := Str("id")])]
    case ManyOne =>
      map["collection_many" := Str(rel.many), "collection_one" := Str(rel.one),
          "field_many" := Str(rel.fieldMany), "field_one" := Null]
  }

  /** The first body is written in the layout the matcher reads back. */
  lemma CollectionFieldPayloadMatches(rel: RelationDef)
    ensures Matches(Payload(CollectionField, rel), rel)
  {
  }

  /** The second body uses keys the matcher does not look at, so a record
      in that layout would never be recognised. */
  lemma ManyOnePayloadNeverMatches(rel: RelationDef)
    ensures forall other :: !Matches(Payload(ManyOne, rel), other)
  {
    var body := Payload(ManyOne, rel);
    assert "many_collection" !in body && "meta" !in body && "collection" !in body;
  }
}
