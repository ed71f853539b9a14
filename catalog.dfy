/** The schema catalog the initialiser reconciles the Directus instance
    against: eleven collection definitions (three dictionaries, the main
    `kosciol_katolicki` collection and seven extensions), the table of
    many-to-one relations, and the order in which the initialiser ensures
    them. Field types, schema options and editor interfaces are carried as
    plain tags. */
module Catalog {
  import opened Wrappers

  /** The Directus field types the catalog uses. */
  datatype FieldType =
    | StringType
    | TextType
    | BooleanType
    | IntegerType
    | FloatType
    | GeometryType
    | UuidType
    | JsonType
    | DateTimeType
    | TimeType

  /** One field definition, posted as it is to `/fields/<collection>`:
      its name, its type, whether its schema says `is_nullable: true`, its
      editing interface and an optional editor note. */
  datatype FieldDef = FieldDef(field: string, kind: FieldType, isNullable: bool, ui: string, note: Option<string>)

  datatype CollectionMeta = CollectionMeta(icon: Option<string>, note: Option<string>)

  datatype CollectionDef = CollectionDef(collection: string, meta: Option<CollectionMeta>, fields: seq<FieldDef>)

  /** A many-to-one relation: the field `fieldMany` of collection `many`
      refers to collection `one`. */
  datatype RelationDef = RelationDef(many: string, one: string, fieldMany: string)

  function Plain(field: string, kind: FieldType, ui: string): FieldDef {
    FieldDef(field, kind, false, ui, None)
  }

  function Noted(field: string, kind: FieldType, ui: string, note: string): FieldDef {
    FieldDef(field, kind, false, ui, Some(note))
  }

  /** A nullable reference to an uploaded image. */
  function FileRef(field: string): FieldDef {
    FieldDef(field, UuidType, true, "file-image", None)
  }

  /** A nullable many-to-one key. */
  function ForeignKey(field: string): FieldDef {
    FieldDef(field, IntegerType, true, "select-dropdown-m2o", None)
  }

  function Meta(icon: string, note: string): Option<CollectionMeta> {
    Some(CollectionMeta(Some(icon), Some(note)))
  }

  /** `adres_pocztowy` (scripts/init-db.js:28). */
  const AdresPocztowy: CollectionDef := CollectionDef("adres_pocztowy", Meta("location_on", "PostalAddress (schema.org)"), [
    Plain("ulicaIBudynek", StringType, "input"),
    Plain("miejscowosc", StringType, "input"),
    Plain("kodPocztowy", StringType, "input"),
    Plain("kraj", StringType, "input")
  ])

  /** `organizacja` (scripts/init-db.js:41). */
  const Organizacja: CollectionDef := CollectionDef("organizacja", Meta("business", "Organization (schema.org)"), [
    Plain("nazwa", StringType, "input"),
    Plain("typ", StringType, "input"),
    Plain("telefon", StringType, "input"),
    Plain("stronaWww", StringType, "input")
  ])

  /** `ocena_zbiorcza` (scripts/init-db.js:54). */
  const OcenaZbiorcza: CollectionDef := CollectionDef("ocena_zbiorcza", Meta("star", "AggregateRating (schema.org)"), [
    Plain("sredniaOcena", FloatType, "input"),
    Plain("liczbaOpinii", IntegerType, "input")
  ])

  /** `kosciol_katolicki` (scripts/init-db.js:69). */
  const KosciolKatolicki: CollectionDef := CollectionDef("kosciol_katolicki", Meta("church", "CatholicChurch = Place + Thing (schema.org)"), [
    Plain("nazwa", StringType, "input"),
    Plain("opis", TextType, "input-rich-text-html"),
    Plain("krotkiOpisWyrozniajacy", TextType, "input-multiline"),
    Plain("identyfikator", StringType, "input"),
    Plain("stronaWww", StringType, "input"),
    Plain("potencjalnaAkcja", JsonType, "input-code"),
    Noted("alternatywnaNazwa", TextType, "input-multiline", "Jedna nazwa w każdej linii (alternateName)"),
    Noted("dodatkowyTyp", TextType, "input-multiline", "Typ lub URL w każdej linii (additionalType)"),
    Plain("glownyTematStrony", StringType, "input"),
    Noted("linkiZewnetrzne", TextType, "input-multiline", "Jedna domena/URL w każdej linii (sameAs)"),
    Plain("tematDla", JsonType, "input-code"),
    Plain("telefon", StringType, "input"),
    Plain("faks", StringType, "input"),
    Plain("slogan", StringType, "input"),
    Plain("slowaKluczowe", StringType, "input"),
    Plain("szerokoscGeograficzna", FloatType, "input"),
    Plain("dlugoscGeograficzna", FloatType, "input"),
    Plain("godzinyOtwarcia", StringType, "input"),
    Plain("mapaUrl", StringType, "input"),
    Plain("linkCyfrowyGS1", StringType, "input"),
    FileRef("logo"),
    FileRef("obraz"),
    FileRef("zdjecie"),
    ForeignKey("adres_id"),
    ForeignKey("organizacja_id"),
    ForeignKey("ocenaZbiorcza_id")
  ])

  /** `cechy_obiektu` (scripts/init-db.js:108). */
  const CechyObiektu: CollectionDef := CollectionDef("cechy_obiektu", Meta("tune", "Place: amenityFeature / branchCode / capacity / tourBookingPage (schema.org)"), [
    Plain("darmowyWstep", BooleanType, "boolean"),
    Plain("dostepPubliczny", BooleanType, "boolean"),
    Plain("moznaPalic", BooleanType, "boolean"),
    Plain("maksymalnaPojemnosc", IntegerType, "input"),
    Plain("obslugaDriveThrough", BooleanType, "boolean"),
    Plain("stronaRezerwacjiWycieczek", StringType, "input"),
    Plain("kodOddzialu", StringType, "input"),
    Plain("globalnyNumerLokalizacyjny", StringType, "input"),
    Plain("kodISICV4", StringType, "input"),
    ForeignKey("kosciol_id")
  ])

  /** `relacje_przestrzenne` (scripts/init-db.js:128). */
  const RelacjePrzestrzenne: CollectionDef := CollectionDef("relacje_przestrzenne", Meta("map", "Place: geo, containedInPlace, containsPlace, geo* (schema.org)"), [
    Plain("geometria", GeometryType, "map"),
    Noted("zawartyWMiejscu", StringType, "input", "Nazwa lub URL miejsca nadrzędnego (containedInPlace)"),
    Noted("zawieraMiejsce", TextType, "input-multiline", "Jedno zawarte miejsce w linii – nazwa lub URL (containsPlace)"),
    Plain("geoZawiera", GeometryType, "map"),
    Plain("geoPokrytyPrzez", GeometryType, "map"),
    Plain("geoPokrywa", GeometryType, "map"),
    Plain("geoPrzecina", GeometryType, "map"),
    Plain("geoRozlaczny", GeometryType, "map"),
    Plain("geoRowny", GeometryType, "map"),
    Plain("geoPrzecinaSie", GeometryType, "map"),
    Plain("geoNaklagaSie", GeometryType, "map"),
    Plain("geoDotyka", GeometryType, "map"),
    Plain("geoWewnatrz", GeometryType, "map"),
    ForeignKey("kosciol_id")
  ])

  /** `certyfikat` (scripts/init-db.js:151). */
  const Certyfikat: CollectionDef := CollectionDef("certyfikat", Meta("verified", "Certification (schema.org)"), [
    Plain("nazwa", StringType, "input"),
    Plain("stronaWww", StringType, "input"),
    ForeignKey("kosciol_id")
  ])

  /** `dodatkowa_wlasciwosc` (scripts/init-db.js:163). */
  const DodatkowaWlasciwosc: CollectionDef := CollectionDef("dodatkowa_wlasciwosc", Meta("label", "PropertyValue / additionalProperty (schema.org)"), [
    Plain("nazwa", StringType, "input"),
    Plain("wartosc", StringType, "input"),
    ForeignKey("kosciol_id")
  ])

  /** `opinia` (scripts/init-db.js:175). */
  const Opinia: CollectionDef := CollectionDef("opinia", Meta("rate_review", "Review (schema.org)"), [
    Plain("autor", StringType, "input"),
    Plain("trescOpinii", TextType, "input-multiline"),
    Plain("ocena", IntegerType, "input"),
    ForeignKey("kosciol_id")
  ])

  /** `wydarzenie` (scripts/init-db.js:188). */
  const Wydarzenie: CollectionDef := CollectionDef("wydarzenie", Meta("event", "Event (schema.org)"), [
    Plain("nazwa", StringType, "input"),
    Plain("dataRozpoczecia", DateTimeType, "datetime"),
    Plain("dataZakonczenia", DateTimeType, "datetime"),
    ForeignKey("kosciol_id")
  ])

  /** `godziny_otwarcia_szczegoly` (scripts/init-db.js:201). */
  const GodzinyOtwarciaSzczegoly: CollectionDef := CollectionDef("godziny_otwarcia_szczegoly", Meta("schedule", "OpeningHoursSpecification (schema.org)"), [
    Plain("dzienTygodnia", StringType, "input"),
    Plain("otwarcie", TimeType, "input"),
    Plain("zamkniecie", TimeType, "input"),
    Plain("czySpecjalne", BooleanType, "boolean"),
    ForeignKey("kosciol_id")
  ])

  const MainCollection := "kosciol_katolicki"

  /** The system collection of uploaded files; it always exists and the
      initialiser never ensures it. */
  const SystemFiles := "directus_files"

  /** The relation table (scripts/init-db.js:214-225). */
  const Relations: seq<RelationDef> := [
    RelationDef("kosciol_katolicki", "adres_pocztowy", "adres_id"),
    RelationDef("kosciol_katolicki", "organizacja", "organizacja_id"),
    RelationDef("kosciol_katolicki", "ocena_zbiorcza", "ocenaZbiorcza_id"),
    RelationDef("cechy_obiektu", "kosciol_katolicki", "kosciol_id"),
    RelationDef("relacje_przestrzenne", "kosciol_katolicki", "kosciol_id"),
    RelationDef("certyfikat", "kosciol_katolicki", "kosciol_id"),
    RelationDef("dodatkowa_wlasciwosc", "kosciol_katolicki", "kosciol_id"),
    RelationDef("opinia", "kosciol_katolicki", "kosciol_id"),
    RelationDef("wydarzenie", "kosciol_katolicki", "kosciol_id"),
    RelationDef("godziny_otwarcia_szczegoly", "kosciol_katolicki", "kosciol_id")
  ]

  const Dictionaries: seq<CollectionDef> := [AdresPocztowy, Organizacja, OcenaZbiorcza]

  /** The relations of the main collection, ensured right after it: the
      three dictionary keys and the three image references. */
  const MainRelations: seq<RelationDef> := [
    RelationDef("kosciol_katolicki", "adres_pocztowy", "adres_id"),
    RelationDef("kosciol_katolicki", "organizacja", "organizacja_id"),
    RelationDef("kosciol_katolicki", "ocena_zbiorcza", "ocenaZbiorcza_id"),
    RelationDef("kosciol_katolicki", "directus_files", "logo"),
    RelationDef("kosciol_katolicki", "directus_files", "obraz"),
    RelationDef("kosciol_katolicki", "directus_files", "zdjecie")
  ]

  const Extensions: seq<CollectionDef> :=
    [CechyObiektu, RelacjePrzestrzenne, Certyfikat, DodatkowaWlasciwosc, Opinia, Wydarzenie, GodzinyOtwarciaSzczegoly]

  function AllCollections(): seq<CollectionDef> {
    Dictionaries + [KosciolKatolicki] + Extensions
  }

  /** One step of the initialiser's plan. */
  datatype Step = EnsureCollectionStep(def: CollectionDef) | EnsureRelationStep(rel: RelationDef)

  function CollectionSteps(defs: seq<CollectionDef>): (steps: seq<Step>)
    ensures |steps| == |defs|
    ensures forall i :: 0 <= i < |defs| ==> steps[i] == EnsureCollectionStep(defs[i])
  {
    seq(|defs|, i requires 0 <= i < |defs| => EnsureCollectionStep(defs[i]))
  }

  function RelationSteps(rels: seq<RelationDef>): (steps: seq<Step>)
    ensures |steps| == |rels|
    ensures forall i :: 0 <= i < |rels| ==> steps[i] == EnsureRelationStep(rels[i])
  {
    seq(|rels|, i requires 0 <= i < |rels| => EnsureRelationStep(rels[i]))
  }

  /** The entries of a relation table that the initialiser's final loop
      ensures: those whose many side is not `main`, in table order. */
  function ExtensionRelations(table: seq<RelationDef>, main: string): (r: seq<RelationDef>)
    ensures |r| <= |table|
    ensures forall x :: x in r <==> x in table && x.many != main
  {
    if table == [] then []
    else if table[0].many == main then ExtensionRelations(table[1..], main)
    else [table[0]] + ExtensionRelations(table[1..], main)
  }

  /** The initialiser's plan for a catalog: the dictionaries, the main
      collection, its relations, the extensions, then every table relation
      whose many side is not the main collection. */
  function PlanOf(dicts: seq<CollectionDef>, main: CollectionDef, mainRels: seq<RelationDef>,
                  exts: seq<CollectionDef>, table: seq<RelationDef>): seq<Step>
  {
    CollectionSteps(dicts) + [EnsureCollectionStep(main)] + RelationSteps(mainRels)
    + CollectionSteps(exts) + RelationSteps(ExtensionRelations(table, main.collection))
  }

  /** What the initialiser does, in order. */
  function Plan(): seq<Step> {
    PlanOf(Dictionaries, KosciolKatolicki, MainRelations, Extensions, Relations)
  }

  // Well-formedness of the catalog.

  predicate Distinct<T(==)>(s: seq<T>) {
    forall i, j :: 0 <= i < j < |s| ==> s[i] != s[j]
  }

  function FieldNames(d: CollectionDef): (names: seq<string>)
    ensures |names| == |d.fields|
    ensures forall i :: 0 <= i < |names| ==> names[i] == d.fields[i].field
  {
    seq(|d.fields|, i requires 0 <= i < |d.fields| => d.fields[i].field)
  }

  /** Length, first, middle and last character: enough to tell the names of
      any one collection apart, and cheap to compare. */
  function Key(s: string): (int, char, char, char) {
    if s == [] then (0, ' ', ' ', ' ') else (|s|, s[0], s[|s| / 2], s[|s| - 1])
  }

  /** Keys tell names apart: distinct keys make distinct names. */
  lemma DistinctByKeys(names: seq<string>, keys: seq<(int, char, char, char)>)
    requires |keys| == |names|
    requires forall i :: 0 <= i < |names| ==> Key(names[i]) == keys[i]
    requires Distinct(keys)
    ensures Distinct(names)
  {
    forall i, j | 0 <= i < j < |names|
      ensures names[i] != names[j]
    {
      assert keys[i] != keys[j];
    }
  }

  const AdresPocztowyKeys: seq<(int, char, char, char)> :=
    [(13, 'u', 'B', 'k'), (11, 'm', 'c', 'c'), (11, 'k', 'c', 'y'), (4, 'k', 'a', 'j')]

  lemma AdresPocztowyKeys1()
    ensures forall i :: 0 <= i < 2 ==> Key(FieldNames(AdresPocztowy)[i]) == AdresPocztowyKeys[i]
  {
  }

  lemma AdresPocztowyKeys2()
    ensures forall i :: 2 <= i < 4 ==> Key(FieldNames(AdresPocztowy)[i]) == AdresPocztowyKeys[i]
  {
  }

  lemma AdresPocztowyKeysApart1()
    ensures forall i, j :: 0 <= i < j && 1 <= j < 4 ==> AdresPocztowyKeys[i] != AdresPocztowyKeys[j]
  {
  }

  lemma AdresPocztowyKeysDistinct()
    ensures Distinct(AdresPocztowyKeys)
  {
    AdresPocztowyKeysApart1();
  }

  lemma AdresPocztowyFieldsUnique()
    ensures Distinct(FieldNames(AdresPocztowy))
  {
    AdresPocztowyKeys1();
    AdresPocztowyKeys2();
    AdresPocztowyKeysDistinct();
    DistinctByKeys(FieldNames(AdresPocztowy), AdresPocztowyKeys);
  }

  const OrganizacjaKeys: seq<(int, char, char, char)> :=
    [(5, 'n', 'z', 'a'), (3, 't', 'y', 'p'), (7, 't', 'e', 'n'), (9, 's', 'n', 'w')]

  lemma OrganizacjaKeys1()
    ensures forall i :: 0 <= i < 2 ==> Key(FieldNames(Organizacja)[i]) == OrganizacjaKeys[i]
  {
  }

  lemma OrganizacjaKeys2()
    ensures forall i :: 2 <= i < 4 ==> Key(FieldNames(Organizacja)[i]) == OrganizacjaKeys[i]
  {
  }

  lemma OrganizacjaKeysApart1()
    ensures forall i, j :: 0 <= i < j && 1 <= j < 4 ==> OrganizacjaKeys[i] != OrganizacjaKeys[j]
  {
  }

  lemma OrganizacjaKeysDistinct()
    ensures Distinct(OrganizacjaKeys)
  {
    OrganizacjaKeysApart1();
  }

  lemma OrganizacjaFieldsUnique()
    ensures Distinct(FieldNames(Organizacja))
  {
    OrganizacjaKeys1();
    OrganizacjaKeys2();
    OrganizacjaKeysDistinct();
    DistinctByKeys(FieldNames(Organizacja), OrganizacjaKeys);
  }

  const OcenaZbiorczaKeys: seq<(int, char, char, char)> :=
    [(12, 's', 'a', 'a'), (12, 'l', 'O', 'i')]

  lemma OcenaZbiorczaKeys1()
    ensures forall i :: 0 <= i < 2 ==> Key(FieldNames(OcenaZbiorcza)[i]) == OcenaZbiorczaKeys[i]
  {
  }

  lemma OcenaZbiorczaKeysApart1()
    ensures forall i, j :: 0 <= i < j && 1 <= j < 2 ==> OcenaZbiorczaKeys[i] != OcenaZbiorczaKeys[j]
  {
  }

  lemma OcenaZbiorczaKeysDistinct()
    ensures Distinct(OcenaZbiorczaKeys)
  {
    OcenaZbiorczaKeysApart1();
  }

  lemma OcenaZbiorczaFieldsUnique()
    ensures Distinct(FieldNames(OcenaZbiorcza))
  {
    OcenaZbiorczaKeys1();
    OcenaZbiorczaKeysDistinct();
    DistinctByKeys(FieldNames(OcenaZbiorcza), OcenaZbiorczaKeys);
  }

  const KosciolKatolickiKeys: seq<(int, char, char, char)> :=
    [(5, 'n', 'z', 'a'), (4, 'o', 'i', 's'), (22, 'k', 'y', 'y'), (13, 'i', 'f', 'r'), (9, 's', 'n', 'w'), (16, 'p', 'l', 'a'), (17, 'a', 'y', 'a'), (12, 'd', 'o', 'p'), (17, 'g', 'm', 'y'), (15, 'l', 'w', 'e'), (8, 't', 't', 'a'), (7, 't', 'e', 'n'), (4, 'f', 'k', 's'), (6, 's', 'g', 'n'), (13, 's', 'l', 'e'), (21, 's', 'e', 'a'), (19, 'd', 'o', 'a'), (15, 'g', 'O', 'a'), (7, 'm', 'a', 'l'), (14, 'l', 'r', '1'), (4, 'l', 'g', 'o'), (5, 'o', 'r', 'z'), (7, 'z', 'e', 'e'), (8, 'a', 's', 'd'), (14, 'o', 'a', 'd'), (16, 'o', 'o', 'd')]

  lemma KosciolKatolickiKeys1()
    ensures forall i :: 0 <= i < 2 ==> Key(FieldNames(KosciolKatolicki)[i]) == KosciolKatolickiKeys[i]
  {
  }

  lemma KosciolKatolickiKeys2()
    ensures forall i :: 2 <= i < 4 ==> Key(FieldNames(KosciolKatolicki)[i]) == KosciolKatolickiKeys[i]
  {
  }

  lemma KosciolKatolickiKeys3()
    ensures forall i :: 4 <= i < 6 ==> Key(FieldNames(KosciolKatolicki)[i]) == KosciolKatolickiKeys[i]
  {
  }

  lemma KosciolKatolickiKeys4()
    ensures forall i :: 6 <= i < 8 ==> Key(FieldNames(KosciolKatolicki)[i]) == KosciolKatolickiKeys[i]
  {
  }

  lemma KosciolKatolickiKeys5()
    ensures forall i :: 8 <= i < 10 ==> Key(FieldNames(KosciolKatolicki)[i]) == KosciolKatolickiKeys[i]
  {
  }

  lemma KosciolKatolickiKeys6()
    ensures forall i :: 10 <= i < 12 ==> Key(FieldNames(KosciolKatolicki)[i]) == KosciolKatolickiKeys[i]
  {
  }

  lemma KosciolKatolickiKeys7()
    ensures forall i :: 12 <= i < 14 ==> Key(FieldNames(KosciolKatolicki)[i]) == KosciolKatolickiKeys[i]
  {
  }

  lemma KosciolKatolickiKeys8()
    ensures forall i :: 14 <= i < 16 ==> Key(FieldNames(KosciolKatolicki)[i]) == KosciolKatolickiKeys[i]
  {
  }

  lemma KosciolKatolickiKeys9()
    ensures forall i :: 16 <= i < 18 ==> Key(FieldNames(KosciolKatolicki)[i]) == KosciolKatolickiKeys[i]
  {
  }

  lemma KosciolKatolickiKeys10()
    ensures forall i :: 18 <= i < 20 ==> Key(FieldNames(KosciolKatolicki)[i]) == KosciolKatolickiKeys[i]
  {
  }

  lemma KosciolKatolickiKeys11()
    ensures forall i :: 20 <= i < 22 ==> Key(FieldNames(KosciolKatolicki)[i]) == KosciolKatolickiKeys[i]
  {
  }

  lemma KosciolKatolickiKeys12()
    ensures forall i :: 22 <= i < 24 ==> Key(FieldNames(KosciolKatolicki)[i]) == KosciolKatolickiKeys[i]
  {
  }

  lemma KosciolKatolickiKeys13()
    ensures forall i :: 24 <= i < 26 ==> Key(FieldNames(KosciolKatolicki)[i]) == KosciolKatolickiKeys[i]
  {
  }

  lemma KosciolKatolickiKeysApart1()
    ensures forall i, j :: 0 <= i < j && 1 <= j < 11 ==> KosciolKatolickiKeys[i] != KosciolKatolickiKeys[j]
  {
  }

  lemma KosciolKatolickiKeysApart2()
    ensures forall i, j :: 0 <= i < j && 11 <= j < 15 ==> KosciolKatolickiKeys[i] != KosciolKatolickiKeys[j]
  {
  }

  lemma KosciolKatolickiKeysApart3()
    ensures forall i, j :: 0 <= i < j && 15 <= j < 18 ==> KosciolKatolickiKeys[i] != KosciolKatolickiKeys[j]
  {
  }

  lemma KosciolKatolickiKeysApart4()
    ensures forall i, j :: 0 <= i < j && 18 <= j < 21 ==> KosciolKatolickiKeys[i] != KosciolKatolickiKeys[j]
  {
  }

  lemma KosciolKatolickiKeysApart5()
    ensures forall i, j :: 0 <= i < j && 21 <= j < 23 ==> KosciolKatolickiKeys[i] != KosciolKatolickiKeys[j]
  {
  }

  lemma KosciolKatolickiKeysApart6()
    ensures forall i, j :: 0 <= i < j && 23 <= j < 25 ==> KosciolKatolickiKeys[i] != KosciolKatolickiKeys[j]
  {
  }

  lemma KosciolKatolickiKeysApart7()
    ensures forall i, j :: 0 <= i < j && 25 <= j < 26 ==> KosciolKatolickiKeys[i] != KosciolKatolickiKeys[j]
  {
  }

  lemma KosciolKatolickiKeysDistinct()
    ensures Distinct(KosciolKatolickiKeys)
  {
    KosciolKatolickiKeysApart1();
    KosciolKatolickiKeysApart2();
    KosciolKatolickiKeysApart3();
    KosciolKatolickiKeysApart4();
    KosciolKatolickiKeysApart5();
    KosciolKatolickiKeysApart6();
    KosciolKatolickiKeysApart7();
  }

  lemma KosciolKatolickiFieldsUnique()
    ensures Distinct(FieldNames(KosciolKatolicki))
  {
    KosciolKatolickiKeys1();
    KosciolKatolickiKeys2();
    KosciolKatolickiKeys3();
    KosciolKatolickiKeys4();
    KosciolKatolickiKeys5();
    KosciolKatolickiKeys6();
    KosciolKatolickiKeys7();
    KosciolKatolickiKeys8();
    KosciolKatolickiKeys9();
    KosciolKatolickiKeys10();
    KosciolKatolickiKeys11();
    KosciolKatolickiKeys12();
    KosciolKatolickiKeys13();
    KosciolKatolickiKeysDistinct();
    DistinctByKeys(FieldNames(KosciolKatolicki), KosciolKatolickiKeys);
  }

  const CechyObiektuKeys: seq<(int, char, char, char)> :=
    [(12, 'd', 'y', 'p'), (15, 'd', 'u', 'y'), (10, 'm', 'P', 'c'), (19, 'm', 'a', 'c'), (19, 'o', 'i', 'h'), (25, 's', 'a', 'k'), (11, 'k', 'd', 'u'), (26, 'g', 'L', 'y'), (9, 'k', 'S', '4'), (10, 'k', 'o', 'd')]

  lemma CechyObiektuKeys1()
    ensures forall i :: 0 <= i < 2 ==> Key(FieldNames(CechyObiektu)[i]) == CechyObiektuKeys[i]
  {
  }

  lemma CechyObiektuKeys2()
    ensures forall i :: 2 <= i < 4 ==> Key(FieldNames(CechyObiektu)[i]) == CechyObiektuKeys[i]
  {
  }

  lemma CechyObiektuKeys3()
    ensures forall i :: 4 <= i < 6 ==> Key(FieldNames(CechyObiektu)[i]) == CechyObiektuKeys[i]
  {
  }

  lemma CechyObiektuKeys4()
    ensures forall i :: 6 <= i < 8 ==> Key(FieldNames(CechyObiektu)[i]) == CechyObiektuKeys[i]
  {
  }

  lemma CechyObiektuKeys5()
    ensures forall i :: 8 <= i < 10 ==> Key(FieldNames(CechyObiektu)[i]) == CechyObiektuKeys[i]
  {
  }

  lemma CechyObiektuKeysApart1()
    ensures forall i, j :: 0 <= i < j && 1 <= j < 10 ==> CechyObiektuKeys[i] != CechyObiektuKeys[j]
  {
  }

  lemma CechyObiektuKeysDistinct()
    ensures Distinct(CechyObiektuKeys)
  {
    CechyObiektuKeysApart1();
  }

  lemma CechyObiektuFieldsUnique()
    ensures Distinct(FieldNames(CechyObiektu))
  {
    CechyObiektuKeys1();
    CechyObiektuKeys2();
    CechyObiektuKeys3();
    CechyObiektuKeys4();
    CechyObiektuKeys5();
    CechyObiektuKeysDistinct();
    DistinctByKeys(FieldNames(CechyObiektu), CechyObiektuKeys);
  }

  const RelacjePrzestrzenneKeys: seq<(int, char, char, char)> :=
    [(9, 'g', 'e', 'a'), (15, 'z', 'W', 'u'), (14, 'z', 'M', 'e'), (10, 'g', 'w', 'a'), (15, 'g', 'y', 'z'), (10, 'g', 'k', 'a'), (11, 'g', 'z', 'a'), (12, 'g', 'l', 'y'), (8, 'g', 'o', 'y'), (14, 'g', 'c', 'e'), (13, 'g', 'l', 'e'), (9, 'g', 'o', 'a'), (11, 'g', 'w', 'z'), (10, 'k', 'o', 'd')]

  lemma RelacjePrzestrzenneKeys1()
    ensures forall i :: 0 <= i < 2 ==> Key(FieldNames(RelacjePrzestrzenne)[i]) == RelacjePrzestrzenneKeys[i]
  {
  }

  lemma RelacjePrzestrzenneKeys2()
    ensures forall i :: 2 <= i < 4 ==> Key(FieldNames(RelacjePrzestrzenne)[i]) == RelacjePrzestrzenneKeys[i]
  {
  }

  lemma RelacjePrzestrzenneKeys3()
    ensures forall i :: 4 <= i < 6 ==> Key(FieldNames(RelacjePrzestrzenne)[i]) == RelacjePrzestrzenneKeys[i]
  {
  }

  lemma RelacjePrzestrzenneKeys4()
    ensures forall i :: 6 <= i < 8 ==> Key(FieldNames(RelacjePrzestrzenne)[i]) == RelacjePrzestrzenneKeys[i]
  {
  }

  lemma RelacjePrzestrzenneKeys5()
    ensures forall i :: 8 <= i < 10 ==> Key(FieldNames(RelacjePrzestrzenne)[i]) == RelacjePrzestrzenneKeys[i]
  {
  }

  lemma RelacjePrzestrzenneKeys6()
    ensures forall i :: 10 <= i < 12 ==> Key(FieldNames(RelacjePrzestrzenne)[i]) == RelacjePrzestrzenneKeys[i]
  {
  }

  lemma RelacjePrzestrzenneKeys7()
    ensures forall i :: 12 <= i < 14 ==> Key(FieldNames(RelacjePrzestrzenne)[i]) == RelacjePrzestrzenneKeys[i]
  {
  }

  lemma RelacjePrzestrzenneKeysApart1()
    ensures forall i, j :: 0 <= i < j && 1 <= j < 11 ==> RelacjePrzestrzenneKeys[i] != RelacjePrzestrzenneKeys[j]
  {
  }

  lemma RelacjePrzestrzenneKeysApart2()
    ensures forall i, j :: 0 <= i < j && 11 <= j < 14 ==> RelacjePrzestrzenneKeys[i] != RelacjePrzestrzenneKeys[j]
  {
  }

  lemma RelacjePrzestrzenneKeysDistinct()
    ensures Distinct(RelacjePrzestrzenneKeys)
  {
    RelacjePrzestrzenneKeysApart1();
    RelacjePrzestrzenneKeysApart2();
  }

  lemma RelacjePrzestrzenneFieldsUnique()
    ensures Distinct(FieldNames(RelacjePrzestrzenne))
  {
    RelacjePrzestrzenneKeys1();
    RelacjePrzestrzenneKeys2();
    RelacjePrzestrzenneKeys3();
    RelacjePrzestrzenneKeys4();
    RelacjePrzestrzenneKeys5();
    RelacjePrzestrzenneKeys6();
    RelacjePrzestrzenneKeys7();
    RelacjePrzestrzenneKeysDistinct();
    DistinctByKeys(FieldNames(RelacjePrzestrzenne), RelacjePrzestrzenneKeys);
  }

  const CertyfikatKeys: seq<(int, char, char, char)> :=
    [(5, 'n', 'z', 'a'), (9, 's', 'n', 'w'), (10, 'k', 'o', 'd')]

  lemma CertyfikatKeys1()
    ensures forall i :: 0 <= i < 2 ==> Key(FieldNames(Certyfikat)[i]) == CertyfikatKeys[i]
  {
  }

  lemma CertyfikatKeys2()
    ensures forall i :: 2 <= i < 3 ==> Key(FieldNames(Certyfikat)[i]) == CertyfikatKeys[i]
  {
  }

  lemma CertyfikatKeysApart1()
    ensures forall i, j :: 0 <= i < j && 1 <= j < 3 ==> CertyfikatKeys[i] != CertyfikatKeys[j]
  {
  }

  lemma CertyfikatKeysDistinct()
    ensures Distinct(CertyfikatKeys)
  {
    CertyfikatKeysApart1();
  }

  lemma CertyfikatFieldsUnique()
    ensures Distinct(FieldNames(Certyfikat))
  {
    CertyfikatKeys1();
    CertyfikatKeys2();
    CertyfikatKeysDistinct();
    DistinctByKeys(FieldNames(Certyfikat), CertyfikatKeys);
  }

  const DodatkowaWlasciwoscKeys: seq<(int, char, char, char)> :=
    [(5, 'n', 'z', 'a'), (7, 'w', 't', 'c'), (10, 'k', 'o', 'd')]

  lemma DodatkowaWlasciwoscKeys1()
    ensures forall i :: 0 <= i < 2 ==> Key(FieldNames(DodatkowaWlasciwosc)[i]) == DodatkowaWlasciwoscKeys[i]
  {
  }

  lemma DodatkowaWlasciwoscKeys2()
    ensures forall i :: 2 <= i < 3 ==> Key(FieldNames(DodatkowaWlasciwosc)[i]) == DodatkowaWlasciwoscKeys[i]
  {
  }

  lemma DodatkowaWlasciwoscKeysApart1()
    ensures forall i, j :: 0 <= i < j && 1 <= j < 3 ==> DodatkowaWlasciwoscKeys[i] != DodatkowaWlasciwoscKeys[j]
  {
  }

  lemma DodatkowaWlasciwoscKeysDistinct()
    ensures Distinct(DodatkowaWlasciwoscKeys)
  {
    DodatkowaWlasciwoscKeysApart1();
  }

  lemma DodatkowaWlasciwoscFieldsUnique()
    ensures Distinct(FieldNames(DodatkowaWlasciwosc))
  {
    DodatkowaWlasciwoscKeys1();
    DodatkowaWlasciwoscKeys2();
    DodatkowaWlasciwoscKeysDistinct();
    DistinctByKeys(FieldNames(DodatkowaWlasciwosc), DodatkowaWlasciwoscKeys);
  }

  const OpiniaKeys: seq<(int, char, char, char)> :=
    [(5, 'a', 't', 'r'), (11, 't', 'O', 'i'), (5, 'o', 'e', 'a'), (10, 'k', 'o', 'd')]

  lemma OpiniaKeys1()
    ensures forall i :: 0 <= i < 2 ==> Key(FieldNames(Opinia)[i]) == OpiniaKeys[i]
  {
  }

  lemma OpiniaKeys2()
    ensures forall i :: 2 <= i < 4 ==> Key(FieldNames(Opinia)[i]) == OpiniaKeys[i]
  {
  }

  lemma OpiniaKeysApart1()
    ensures forall i, j :: 0 <= i < j && 1 <= j < 4 ==> OpiniaKeys[i] != OpiniaKeys[j]
  {
  }

  lemma OpiniaKeysDistinct()
    ensures Distinct(OpiniaKeys)
  {
    OpiniaKeysApart1();
  }

  lemma OpiniaFieldsUnique()
    ensures Distinct(FieldNames(Opinia))
  {
    OpiniaKeys1();
    OpiniaKeys2();
    OpiniaKeysDistinct();
    DistinctByKeys(FieldNames(Opinia), OpiniaKeys);
  }

  const WydarzenieKeys: seq<(int, char, char, char)> :=
    [(5, 'n', 'z', 'a'), (15, 'd', 'p', 'a'), (15, 'd', 'o', 'a'), (10, 'k', 'o', 'd')]

  lemma WydarzenieKeys1()
    ensures forall i :: 0 <= i < 2 ==> Key(FieldNames(Wydarzenie)[i]) == WydarzenieKeys[i]
  {
  }

  lemma WydarzenieKeys2()
    ensures forall i :: 2 <= i < 4 ==> Key(FieldNames(Wydarzenie)[i]) == WydarzenieKeys[i]
  {
  }

  lemma WydarzenieKeysApart1()
    ensures forall i, j :: 0 <= i < j && 1 <= j < 4 ==> WydarzenieKeys[i] != WydarzenieKeys[j]
  {
  }

  lemma WydarzenieKeysDistinct()
    ensures Distinct(WydarzenieKeys)
  {
    WydarzenieKeysApart1();
  }

  lemma WydarzenieFieldsUnique()
    ensures Distinct(FieldNames(Wydarzenie))
  {
    WydarzenieKeys1();
    WydarzenieKeys2();
    WydarzenieKeysDistinct();
    DistinctByKeys(FieldNames(Wydarzenie), WydarzenieKeys);
  }

  const GodzinyOtwarciaSzczegolyKeys: seq<(int, char, char, char)> :=
    [(13, 'd', 'y', 'a'), (8, 'o', 'r', 'e'), (10, 'z', 'i', 'e'), (12, 'c', 'c', 'e'), (10, 'k', 'o', 'd')]

  lemma GodzinyOtwarciaSzczegolyKeys1()
    ensures forall i :: 0 <= i < 2 ==> Key(FieldNames(GodzinyOtwarciaSzczegoly)[i]) == GodzinyOtwarciaSzczegolyKeys[i]
  {
  }

  lemma GodzinyOtwarciaSzczegolyKeys2()
    ensures forall i :: 2 <= i < 4 ==> Key(FieldNames(GodzinyOtwarciaSzczegoly)[i]) == GodzinyOtwarciaSzczegolyKeys[i]
  {
  }

  lemma GodzinyOtwarciaSzczegolyKeys3()
    ensures forall i :: 4 <= i < 5 ==> Key(FieldNames(GodzinyOtwarciaSzczegoly)[i]) == GodzinyOtwarciaSzczegolyKeys[i]
  {
  }

  lemma GodzinyOtwarciaSzczegolyKeysApart1()
    ensures forall i, j :: 0 <= i < j && 1 <= j < 5 ==> GodzinyOtwarciaSzczegolyKeys[i] != GodzinyOtwarciaSzczegolyKeys[j]
  {
  }

  lemma GodzinyOtwarciaSzczegolyKeysDistinct()
    ensures Distinct(GodzinyOtwarciaSzczegolyKeys)
  {
    GodzinyOtwarciaSzczegolyKeysApart1();
  }

  lemma GodzinyOtwarciaSzczegolyFieldsUnique()
    ensures Distinct(FieldNames(GodzinyOtwarciaSzczegoly))
  {
    GodzinyOtwarciaSzczegolyKeys1();
    GodzinyOtwarciaSzczegolyKeys2();
    GodzinyOtwarciaSzczegolyKeys3();
    GodzinyOtwarciaSzczegolyKeysDistinct();
    DistinctByKeys(FieldNames(GodzinyOtwarciaSzczegoly), GodzinyOtwarciaSzczegolyKeys);
  }

  /** No collection definition declares the same field name twice. */
  lemma FieldNamesUnique()
    ensures forall d :: d in AllCollections() ==> Distinct(FieldNames(d))
  {
    AdresPocztowyFieldsUnique();
    OrganizacjaFieldsUnique();
    OcenaZbiorczaFieldsUnique();
    KosciolKatolickiFieldsUnique();
    CechyObiektuFieldsUnique();
    RelacjePrzestrzenneFieldsUnique();
    CertyfikatFieldsUnique();
    DodatkowaWlasciwoscFieldsUnique();
    OpiniaFieldsUnique();
    WydarzenieFieldsUnique();
    GodzinyOtwarciaSzczegolyFieldsUnique();
    assert AllCollections() == [AdresPocztowy, Organizacja, OcenaZbiorcza, KosciolKatolicki, CechyObiektu, RelacjePrzestrzenne, Certyfikat, DodatkowaWlasciwosc, Opinia, Wydarzenie, GodzinyOtwarciaSzczegoly];
  }

  // The order of the plan.

  /** Step `j < i` of the plan ensures the collection `name`. */
  ghost predicate EnsuredBefore(plan: seq<Step>, i: int, name: string) {
    exists j :: 0 <= j < i && j < |plan| && plan[j].EnsureCollectionStep? && plan[j].def.collection == name
  }

  /** Step `j < i` of the plan ensures the collection `name` and that
      collection's definition declares `field`. */
  ghost predicate DeclaredBefore(plan: seq<Step>, i: int, name: string, field: string) {
    exists j :: 0 <= j < i && j < |plan| && plan[j].EnsureCollectionStep? && plan[j].def.collection == name
      && field in FieldNames(plan[j].def)
  }

  /** A relation may be created at step i: the collection holding its key
      has been ensured with that key declared, and so has the collection it
      points to, unless that is the system file collection. */
  ghost predicate Ready(plan: seq<Step>, i: int, r: RelationDef) {
    DeclaredBefore(plan, i, r.many, r.fieldMany)
    && (r.one == SystemFiles || EnsuredBefore(plan, i, r.one))
  }

  ghost predicate WellOrdered(plan: seq<Step>) {
    forall i :: 0 <= i < |plan| && plan[i].EnsureRelationStep? ==> Ready(plan, i, plan[i].rel)
  }

  /** The main collection's relations start from it, are keyed by fields it
      declares and point to a dictionary or to the system file collection. */
  ghost predicate MainRelationsFit(dicts: seq<CollectionDef>, main: CollectionDef, mainRels: seq<RelationDef>) {
    forall r :: r in mainRels ==>
      r.many == main.collection && r.fieldMany in FieldNames(main)
      && (r.one == SystemFiles || exists k :: 0 <= k < |dicts| && dicts[k].collection == r.one)
  }

  /** Every other table relation starts from an extension, is keyed by a
      field that extension declares and points to the main collection, a
      dictionary or the system file collection. */
  ghost predicate TableRelationsFit(dicts: seq<CollectionDef>, main: CollectionDef, exts: seq<CollectionDef>,
                                    table: seq<RelationDef>) {
    forall r :: r in table && r.many != main.collection ==>
      (exists k :: 0 <= k < |exts| && exts[k].collection == r.many && r.fieldMany in FieldNames(exts[k]))
      && (r.one == SystemFiles || r.one == main.collection
          || exists k :: 0 <= k < |dicts| && dicts[k].collection == r.one)
  }

  /** In any catalog's plan, a relation of the main collection that fits
      the catalog is ready at its step. */
  lemma MainRelationReady(dicts: seq<CollectionDef>, main: CollectionDef, mainRels: seq<RelationDef>,
                          exts: seq<CollectionDef>, table: seq<RelationDef>, i: int)
    requires MainRelationsFit(dicts, main, mainRels)
    requires |dicts| < i <= |dicts| + |mainRels|
    ensures PlanOf(dicts, main, mainRels, exts, table)[i] == EnsureRelationStep(mainRels[i - |dicts| - 1])
    ensures Ready(PlanOf(dicts, main, mainRels, exts, table), i, mainRels[i - |dicts| - 1])
  {
    var p := PlanOf(dicts, main, mainRels, exts, table);
    var m := |dicts|;
    var r := mainRels[i - m - 1];
    assert p[m] == EnsureCollectionStep(main);
    assert p[i] == EnsureRelationStep(r);
    assert r in mainRels;
    if r.one != SystemFiles {
      var k :| 0 <= k < |dicts| && dicts[k].collection == r.one;
      assert p[k] == EnsureCollectionStep(dicts[k]);
    }
  }

  /** In any catalog's plan, a table relation the final loop ensures is
      ready at its step when it fits the catalog. */
  lemma TableRelationReady(dicts: seq<CollectionDef>, main: CollectionDef, mainRels: seq<RelationDef>,
                           exts: seq<CollectionDef>, table: seq<RelationDef>, i: int)
    requires TableRelationsFit(dicts, main, exts, table)
    requires |dicts| + 1 + |mainRels| + |exts| <= i < |PlanOf(dicts, main, mainRels, exts, table)|
    ensures Ready(PlanOf(dicts, main, mainRels, exts, table), i, PlanOf(dicts, main, mainRels, exts, table)[i].rel)
  {
    var extRels := ExtensionRelations(table, main.collection);
    var p := PlanOf(dicts, main, mainRels, exts, table);
    var m := |dicts|;
    var e := m + 1 + |mainRels|;
    var x := e + |exts|;
    var r := extRels[i - x];
    assert p[m] == EnsureCollectionStep(main);
    assert p[i] == EnsureRelationStep(r);
    assert r in extRels;
    var k :| 0 <= k < |exts| && exts[k].collection == r.many && r.fieldMany in FieldNames(exts[k]);
    assert p[e + k] == EnsureCollectionStep(exts[k]);
    if r.one != SystemFiles && r.one != main.collection {
      var j :| 0 <= j < |dicts| && dicts[j].collection == r.one;
      assert p[j] == EnsureCollectionStep(dicts[j]);
    }
  }

  /** Any catalog whose relations fit its collections gives a plan that
      never creates a relation before both of its ends exist. */
  lemma ShapeWellOrdered(dicts: seq<CollectionDef>, main: CollectionDef, mainRels: seq<RelationDef>,
                         exts: seq<CollectionDef>, table: seq<RelationDef>)
    requires MainRelationsFit(dicts, main, mainRels)
    requires TableRelationsFit(dicts, main, exts, table)
    ensures WellOrdered(PlanOf(dicts, main, mainRels, exts, table))
  {
    var p := PlanOf(dicts, main, mainRels, exts, table);
    var m := |dicts|;
    var e := m + 1 + |mainRels|;
    assert forall i :: 0 <= i < m ==> p[i] == EnsureCollectionStep(dicts[i]);
    assert p[m] == EnsureCollectionStep(main);
    assert forall i :: e <= i < e + |exts| ==> p[i] == EnsureCollectionStep(exts[i - e]);
    forall i | 0 <= i < |p| && p[i].EnsureRelationStep?
      ensures Ready(p, i, p[i].rel)
    {
      if m < i < e {
        MainRelationReady(dicts, main, mainRels, exts, table, i);
      } else if e + |exts| <= i {
        TableRelationReady(dicts, main, mainRels, exts, table, i);
      }
    }
  }

  /** The keys of the main collection's relations are declared fields. */
  lemma MainKeysDeclared()
    ensures forall r :: r in MainRelations ==> r.fieldMany in FieldNames(KosciolKatolicki)
  {
    var names := FieldNames(KosciolKatolicki);
    assert names[20] == "logo" && names[21] == "obraz" && names[22] == "zdjecie";
    assert names[23] == "adres_id" && names[24] == "organizacja_id" && names[25] == "ocenaZbiorcza_id";
  }

  /** Relation i of the main collection starts from it and points to a
      dictionary or to the system file collection. */
  lemma MainRelationEnds(i: int)
    requires 0 <= i < |MainRelations|
    ensures MainRelations[i].many == KosciolKatolicki.collection
    ensures MainRelations[i].one == SystemFiles
            || exists k :: 0 <= k < |Dictionaries| && Dictionaries[k].collection == MainRelations[i].one
  {
    if i < 3 {
      assert Dictionaries[i].collection == MainRelations[i].one;
    }
  }

  lemma MainRelationsFitCatalog()
    ensures MainRelationsFit(Dictionaries, KosciolKatolicki, MainRelations)
  {
    MainKeysDeclared();
    forall r | r in MainRelations
      ensures r.many == KosciolKatolicki.collection
      ensures r.one == SystemFiles || exists k :: 0 <= k < |Dictionaries| && Dictionaries[k].collection == r.one
    {
      var i :| 0 <= i < |MainRelations| && MainRelations[i] == r;
      MainRelationEnds(i);
    }
  }

  /** Every extension declares the `kosciol_id` key, as its last field. */
  lemma ExtensionKeysDeclared()
    ensures forall k :: 0 <= k < |Extensions| ==> "kosciol_id" in FieldNames(Extensions[k])
  {
    forall k | 0 <= k < |Extensions|
      ensures "kosciol_id" in FieldNames(Extensions[k])
    {
      var d := Extensions[k];
      assert d.fields[|d.fields| - 1].field == "kosciol_id";
      assert FieldNames(d)[|d.fields| - 1] == "kosciol_id";
    }
  }

  /** Extension k is the many side of table entry k + 3. */
  lemma ExtensionsNamed()
    ensures forall k :: 0 <= k < |Extensions| ==> Extensions[k].collection == Relations[k + 3].many
  {
  }

  /** Only the first three table entries start from the main collection,
      and every entry points to it or starts from it. */
  lemma TableEnds()
    ensures forall i :: 3 <= i < |Relations| ==> Relations[i].one == KosciolKatolicki.collection
    ensures forall i :: 0 <= i < 3 ==> Relations[i].many == KosciolKatolicki.collection
  {
  }

  lemma TableRelationsFitCatalog()
    ensures TableRelationsFit(Dictionaries, KosciolKatolicki, Extensions, Relations)
  {
    ExtensionKeysDeclared();
    ExtensionsNamed();
    TableEnds();
    forall r | r in Relations && r.many != KosciolKatolicki.collection
      ensures exists k ::
        0 <= k < |Extensions| && Extensions[k].collection == r.many && r.fieldMany in FieldNames(Extensions[k])
      ensures r.one == KosciolKatolicki.collection
    {
      var i :| 0 <= i < |Relations| && Relations[i] == r;
      assert Relations[i].fieldMany == "kosciol_id";
      assert Extensions[i - 3].collection == r.many;
    }
  }

  /** Every relation is created only after the collection holding its key
      has been ensured with that key declared, and after the collection it
      points to (the system file collection always exists). */
  lemma PlanWellOrdered()
    ensures WellOrdered(Plan())
  {
    MainRelationsFitCatalog();
    TableRelationsFitCatalog();
    ShapeWellOrdered(Dictionaries, KosciolKatolicki, MainRelations, Extensions, Relations);
  }

  /** The final loop skips exactly the first three table entries, the ones
      whose many side is the main collection. */
  lemma ExtensionRelationsOfTable()
    ensures ExtensionRelations(Relations, MainCollection) == Relations[3..]
  {
    var rest := Relations[3..];
    assert Relations == Relations[..3] + rest;
    assert forall k :: 0 <= k < |rest| ==> rest[k].many != MainCollection;
    assert ExtensionRelations(Relations, MainCollection) == ExtensionRelations(rest, MainCollection);
    ExtensionRelationsKeep(rest, MainCollection);
  }

  lemma {:induction false} ExtensionRelationsKeep(table: seq<RelationDef>, main: string)
    requires forall k :: 0 <= k < |table| ==> table[k].many != main
    ensures ExtensionRelations(table, main) == table
  {
    if table != [] {
      ExtensionRelationsKeep(table[1..], main);
    }
  }

  /** Any catalog's plan ensures every relation of its table: those the
      final loop skips are exactly the ones listed among the main
      collection's relations. */
  lemma ShapeCoversTable(dicts: seq<CollectionDef>, main: CollectionDef, mainRels: seq<RelationDef>,
                         exts: seq<CollectionDef>, table: seq<RelationDef>)
    requires forall r :: r in table && r.many == main.collection ==> r in mainRels
    ensures forall r :: r in table ==> EnsureRelationStep(r) in PlanOf(dicts, main, mainRels, exts, table)
  {
    var p := PlanOf(dicts, main, mainRels, exts, table);
    var extRels := ExtensionRelations(table, main.collection);
    var e := |dicts| + 1 + |mainRels|;
    forall r | r in table
      ensures EnsureRelationStep(r) in p
    {
      if r.many == main.collection {
        var k :| 0 <= k < |mainRels| && mainRels[k] == r;
        assert p[|dicts| + 1 + k] == EnsureRelationStep(r);
      } else {
        var k :| 0 <= k < |extRels| && extRels[k] == r;
        assert p[e + |exts| + k] == EnsureRelationStep(r);
      }
    }
  }

  /** Every entry of the relation table is ensured by the plan. */
  lemma PlanCoversTable()
    ensures forall r :: r in Relations ==> EnsureRelationStep(r) in Plan()
  {
    forall r | r in Relations && r.many == KosciolKatolicki.collection
      ensures r in MainRelations
    {
      var i :| 0 <= i < |Relations| && Relations[i] == r;
      assert i < 3;
      assert MainRelations[i] == r;
    }
    ShapeCoversTable(Dictionaries, KosciolKatolicki, MainRelations, Extensions, Relations);
  }

  /** No relation step of `plan` occurs twice. */
  predicate RelationStepsOnce(plan: seq<Step>) {
    forall i, j :: 0 <= i < j < |plan| && plan[i].EnsureRelationStep? ==> plan[i] != plan[j]
  }

  /** In any catalog's plan whose main relations are distinct and start
      from the main collection, and whose final-loop relations are
      distinct, no relation step occurs twice. */
  lemma ShapeRelationsOnce(dicts: seq<CollectionDef>, main: CollectionDef, mainRels: seq<RelationDef>,
                           exts: seq<CollectionDef>, table: seq<RelationDef>)
    requires Distinct(mainRels) && Distinct(ExtensionRelations(table, main.collection))
    requires forall k :: 0 <= k < |mainRels| ==> mainRels[k].many == main.collection
    ensures RelationStepsOnce(PlanOf(dicts, main, mainRels, exts, table))
  {
    var p := PlanOf(dicts, main, mainRels, exts, table);
    var extRels := ExtensionRelations(table, main.collection);
    var m := |dicts| + 1;
    var e := m + |mainRels| + |exts|;
    assert |p| == e + |extRels|;
    forall i, j | 0 <= i < j < |p| && p[i].EnsureRelationStep?
      ensures p[i] != p[j]
    {
      if i < e {
        assert m <= i < m + |mainRels| && p[i] == EnsureRelationStep(mainRels[i - m]);
        if j < m + |mainRels| {
          assert p[j] == EnsureRelationStep(mainRels[j - m]);
        } else if e <= j {
          assert p[j] == EnsureRelationStep(extRels[j - e]);
          assert extRels[j - e] in extRels;
        }
      } else {
        assert p[i] == EnsureRelationStep(extRels[i - e]);
        assert p[j] == EnsureRelationStep(extRels[j - e]);
      }
    }
  }

  lemma MainRelationsDistinct()
    ensures Distinct(MainRelations)
    ensures forall k :: 0 <= k < |MainRelations| ==> MainRelations[k].many == KosciolKatolicki.collection
  {
    assert forall k :: 0 <= k < |MainRelations| ==> |MainRelations[k].fieldMany| == [8, 14, 16, 4, 5, 7][k];
  }

  lemma ExtensionRelationsDistinct()
    ensures Distinct(Relations[3..])
  {
    var keys := [(13, 'c'), (20, 'r'), (10, 'c'), (20, 'd'), (6, 'o'), (10, 'w'), (26, 'g')];
    var rest := Relations[3..];
    assert forall k :: 0 <= k < |rest| ==> (|rest[k].many|, rest[k].many[0]) == keys[k];
    assert Distinct(keys);
  }

  /** The plan ensures each relation exactly once: no relation step
      occurs twice. */
  lemma PlanRelationsOnce()
    ensures RelationStepsOnce(Plan())
  {
    MainRelationsDistinct();
    ExtensionRelationsDistinct();
    ExtensionRelationsOfTable();
    ShapeRelationsOnce(Dictionaries, KosciolKatolicki, MainRelations, Extensions, Relations);
  }

  /** Any catalog's plan ensures each of its collections. */
  lemma ShapeCoversCollections(dicts: seq<CollectionDef>, main: CollectionDef, mainRels: seq<RelationDef>,
                               exts: seq<CollectionDef>, table: seq<RelationDef>)
    ensures forall d :: d in dicts + [main] + exts ==> EnsureCollectionStep(d) in PlanOf(dicts, main, mainRels, exts, table)
  {
    var p := PlanOf(dicts, main, mainRels, exts, table);
    var e := |dicts| + 1 + |mainRels|;
    forall d | d in dicts + [main] + exts
      ensures EnsureCollectionStep(d) in p
    {
      if d in dicts {
        var k :| 0 <= k < |dicts| && dicts[k] == d;
        assert p[k] == EnsureCollectionStep(d);
      } else if d == main {
        assert p[|dicts|] == EnsureCollectionStep(d);
      } else {
        var k :| 0 <= k < |exts| && exts[k] == d;
        assert p[e + k] == EnsureCollectionStep(d);
      }
    }
  }

  /** Every collection of the catalog is ensured by the plan. */
  lemma PlanCoversCollections()
    ensures forall d :: d in AllCollections() ==> EnsureCollectionStep(d) in Plan()
  {
    ShapeCoversCollections(Dictionaries, KosciolKatolicki, MainRelations, Extensions, Relations);
  }
}
