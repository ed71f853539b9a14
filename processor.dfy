/** Ingestion preprocessing for one church record sent by the assistant
    plugin: payload validation, the bot-active switch, the record built for
    the `sk_koscioly` collection and the pipeline that ties them together
    with a linear probe for a free slug. */
module Processor {
  import opened Wrappers
  import opened Decimal
  import opened Json
  import opened JsText
  import opened Slug

  const NotAnObject := "Oczekiwano obiektu JSON"
  const MissingName := "Brak lub pusta nazwa kościoła"
  const BotDisabled := "Operacje bota są wyłączone (aktywne: false)"

  /** `{ valid: true }` / `{ allowed: true }`, or the refusal with its
      message. */
  datatype Check = Ok | Rejected(error: string)

  /** The payload must be a non-array object whose `nazwa` is a string that
      is not blank. */
  function ValidateChurchPayload(data: JsValue): (r: Check)
    ensures r.Ok? <==>
      data.Obj? && "nazwa" in data.props && data.props["nazwa"].Str?
      && Trim(data.props["nazwa"].s) != []
    ensures !data.Obj? ==> r == Rejected(NotAnObject)
    ensures data.Obj? && !r.Ok? ==> r == Rejected(MissingName)
  {
    if data.Null? || !TypeofObject(data) || data.Arr? then Rejected(NotAnObject)
    else
      var name := Get(data.props, "nazwa");
      if !Truthy(name) || !name.Str? || Trim(name.s) == [] then Rejected(MissingName)
      else Ok
  }

  /** Bot operations go ahead only when the flag is exactly `true`. */
  function CheckBotActive(isActive: JsValue): (r: Check)
    ensures r.Ok? <==> isActive == Bool(true)
    ensures !r.Ok? ==> r.error == BotDisabled
  {
    if isActive != Bool(true) then Rejected(BotDisabled) else Ok
  }

  /** The record stored in `sk_koscioly`; `None` and `Null` are JSON null. */
  datatype ChurchRecord = ChurchRecord(
    nazwa: string,
    slug: string,
    opisSeo: Option<string>,
    ludzie: JsValue,
    stylArchitektoniczny: Option<string>,
    adresFull: Option<string>,
    metadata: JsValue)

  /** `String(raw.nazwa ?? '').trim()` */
  function RecordName(name: JsValue): (n: string)
    ensures name.Str? ==> n == Trim(name.s)
    ensures Nullish(name) ==> n == []
  {
    var text := ToStr(Coalesce(name, Str("")));
    assert name.Str? ==> text == name.s;
    assert Nullish(name) ==> text == [];
    Trim(text)
  }

  /** `v != null ? String(v) : null` */
  function OptionalText(v: JsValue): (t: Option<string>)
    ensures t.None? <==> Nullish(v)
    ensures v.Str? ==> t == Some(v.s)
  {
    if Nullish(v) then None else Some(ToStr(v))
  }

  /** `v != null && typeof v === 'object'`: an object or an array. */
  predicate IsObject(v: JsValue) {
    !v.Null? && TypeofObject(v)
  }

  /** Builds the stored record from the raw payload. The slug is `baseSlug`
      when given, otherwise the slug of the trimmed name; it is not made
      unique here. */
  function ToChurchRecord(raw: map<string, JsValue>, baseSlug: Option<string>): (rec: ChurchRecord)
    ensures "nazwa" in raw && raw["nazwa"].Str? ==> rec.nazwa == Trim(raw["nazwa"].s)
    ensures Nullish(Get(raw, "nazwa")) ==> rec.nazwa == []
    ensures baseSlug.Some? ==> rec.slug == baseSlug.value
    ensures baseSlug.None? ==> rec.slug == Slugify(Str(rec.nazwa))
  {
    var nazwa := RecordName(Get(raw, "nazwa"));
    var slug := if baseSlug.Some? then baseSlug.value else Slugify(Str(nazwa));
    ChurchRecord(
      nazwa,
      slug,
      OptionalText(Get(raw, "opis_seo")),
      if IsObject(Get(raw, "ludzie")) then Get(raw, "ludzie") else Null,
      OptionalText(Get(raw, "styl_architektoniczny")),
      OptionalText(Get(raw, "adres_full")),
      if IsObject(Get(raw, "metadata")) then Get(raw, "metadata") else Obj(raw))
  }

  /** The optional text fields are null exactly when the payload leaves them
      out or sends null, and text sent as a string is kept as it is. */
  lemma RecordTextFields(raw: map<string, JsValue>, baseSlug: Option<string>)
    ensures ToChurchRecord(raw, baseSlug).opisSeo.None? <==> Nullish(Get(raw, "opis_seo"))
    ensures ToChurchRecord(raw, baseSlug).stylArchitektoniczny.None? <==> Nullish(Get(raw, "styl_architektoniczny"))
    ensures ToChurchRecord(raw, baseSlug).adresFull.None? <==> Nullish(Get(raw, "adres_full"))
    ensures "opis_seo" in raw && raw["opis_seo"].Str? ==> ToChurchRecord(raw, baseSlug).opisSeo == Some(raw["opis_seo"].s)
    ensures "styl_architektoniczny" in raw && raw["styl_architektoniczny"].Str? ==>
      ToChurchRecord(raw, baseSlug).stylArchitektoniczny == Some(raw["styl_architektoniczny"].s)
    ensures "adres_full" in raw && raw["adres_full"].Str? ==> ToChurchRecord(raw, baseSlug).adresFull == Some(raw["adres_full"].s)
  {
  }

  /** `ludzie` is kept only when it is an object or an array, and is null
      otherwise. */
  lemma RecordPeople(raw: map<string, JsValue>, baseSlug: Option<string>)
    ensures IsObject(Get(raw, "ludzie")) ==> ToChurchRecord(raw, baseSlug).ludzie == raw["ludzie"]
    ensures !IsObject(Get(raw, "ludzie")) ==> ToChurchRecord(raw, baseSlug).ludzie == Null
  {
  }

  /** `metadata` is kept only when it is an object or an array; otherwise it
      is a copy of the whole payload. */
  lemma RecordMetadata(raw: map<string, JsValue>, baseSlug: Option<string>)
    ensures IsObject(Get(raw, "metadata")) ==> ToChurchRecord(raw, baseSlug).metadata == raw["metadata"]
    ensures !IsObject(Get(raw, "metadata")) ==> ToChurchRecord(raw, baseSlug).metadata == Obj(raw)
  {
  }

  /** The n-th slug the probe tries: `slug`, then `slug-1`, `slug-2`, … */
  function Candidate(base: string, n: nat): string {
    if n == 0 then base else base + "-" + NatToDecimal(n)
  }

  /** Step 0 tries the slug itself; step n > 0 tries the slug, a dash and
      the decimal text of n, which reads back as n. */
  lemma CandidateReadsBack(base: string, n: nat)
    ensures n == 0 ==> Candidate(base, n) == base
    ensures n > 0 ==> var c := Candidate(base, n);
      |c| > |base| + 1 && c[..|base|] == base && c[|base|] == '-'
      && (forall i :: |base| + 1 <= i < |c| ==> IsDigit(c[i]))
      && DecimalValue(c[|base| + 1..]) == n
  {
    if n > 0 {
      var c := Candidate(base, n);
      assert c[|base| + 1..] == NatToDecimal(n);
      DecimalRoundTrip(n);
    }
  }

  /** Different probe steps try different slugs. */
  lemma CandidateInjective(base: string, m: nat, n: nat)
    requires Candidate(base, m) == Candidate(base, n)
    ensures m == n
  {
    if m != 0 && n != 0 {
      var c := Candidate(base, m);
      assert NatToDecimal(m) == c[|base| + 1..];
      assert NatToDecimal(n) == c[|base| + 1..];
      DecimalInjective(m, n);
    }
  }

  /** The slugs tried before step n. */
  ghost function CandidatesBelow(base: string, n: nat): set<string> {
    set k | 0 <= k < n :: Candidate(base, k)
  }

  lemma {:induction false} CandidatesBelowSize(base: string, n: nat)
    ensures |CandidatesBelow(base, n)| == n
  {
    if n > 0 {
      CandidatesBelowSize(base, n - 1);
      assert CandidatesBelow(base, n) == CandidatesBelow(base, n - 1) + {Candidate(base, n - 1)};
      if Candidate(base, n - 1) in CandidatesBelow(base, n - 1) {
        var k :| 0 <= k < n - 1 && Candidate(base, k) == Candidate(base, n - 1);
        CandidateInjective(base, k, n - 1);
      }
    }
  }

  /** Every probed slug keeps the slug shape: a dash and digits appended to
      a slug give a slug. */
  lemma CandidateIsSlug(base: string, n: nat)
    requires IsSlug(base)
    ensures IsSlug(Candidate(base, n))
  {
    if n > 0 {
      var digits := NatToDecimal(n);
      var c := base + "-" + digits;
      assert forall i :: 0 <= i < |digits| ==> c[|base| + 1 + i] == digits[i];
      assert forall i :: 0 <= i < |base| ==> c[i] == base[i];
      assert c[|base|] == '-';
      assert forall i :: |base| < i < |c| ==> IsDigit(c[i]);
    }
  }

  /** A payload that passes validation always has a non-empty slug, so the
      `'kosciol'` fallback after slugifying the name never fires. */
  lemma ValidNameHasSlug(body: JsValue)
    requires ValidateChurchPayload(body).Ok?
    ensures IsSlug(Slugify(Get(body.props, "nazwa")))
  {
    var name := Get(body.props, "nazwa");
    SlugifyShape(name);
  }

  /** The pipeline: the bot switch first, then validation, then the slug
      (made unique against `slugExists` when one is given) and the record.
      `slugExists` is the set of slugs already stored. */
  method ProcessChurchTask(body: JsValue, botActive: JsValue, slugExists: Option<set<string>>)
    returns (r: Result<ChurchRecord, string>)
    ensures !CheckBotActive(botActive).Ok? ==> r == Failure(BotDisabled)
    ensures CheckBotActive(botActive).Ok? && !ValidateChurchPayload(body).Ok? ==>
      r == Failure(ValidateChurchPayload(body).error)
    ensures r.Success? <==> CheckBotActive(botActive).Ok? && ValidateChurchPayload(body).Ok?
    ensures r.Success? ==> r.value == ToChurchRecord(body.props, Some(r.value.slug))
    ensures r.Success? ==> IsSlug(r.value.slug)
    ensures r.Success? && slugExists.None? ==> r.value.slug == Slugify(Get(body.props, "nazwa"))
    ensures r.Success? && slugExists.Some? ==>
      exists n: nat ::
        r.value.slug == Candidate(Slugify(Get(body.props, "nazwa")), n)
        && n <= |slugExists.value|
        && r.value.slug !in slugExists.value
        && forall k :: 0 <= k < n ==> Candidate(Slugify(Get(body.props, "nazwa")), k) in slugExists.value
  {
    var activeCheck := CheckBotActive(botActive);
    if !activeCheck.Ok? {
      return Failure(activeCheck.error);
    }
    var validation := ValidateChurchPayload(body);
    if !validation.Ok? {
      return Failure(validation.error);
    }
    var raw := body.props;
    var slug := Slugify(Get(raw, "nazwa"));
    ValidNameHasSlug(body);
    if slug == [] {
      slug := DefaultSlug;
    }
    if slugExists.Some? {
      slug := ProbeFreeSlug(slug, slugExists.value);
    }
    var record := ToChurchRecord(raw, Some(slug));
    return Success(record);
  }

  /** The slug probe: asks for `slug`, `slug-1`, `slug-2`, … in turn and
      stops at the first one not yet stored. It stops after at most
      `|existing|` further tries, because the tried slugs are distinct. */
  method ProbeFreeSlug(slug: string, existing: set<string>) returns (candidate: string)
    ensures candidate !in existing
    ensures IsSlug(slug) ==> IsSlug(candidate)
    ensures exists n: nat ::
      candidate == Candidate(slug, n) && n <= |existing|
      && forall k :: 0 <= k < n ==> Candidate(slug, k) in existing
  {
    candidate := slug;
    var n: nat := 0;
    CandidatesBelowSize(slug, 0);
    while candidate in existing
      invariant candidate == Candidate(slug, n)
      invariant CandidatesBelow(slug, n) <= existing
      invariant n <= |existing|
      decreases |existing| - n
    {
      assert CandidatesBelow(slug, n + 1) == CandidatesBelow(slug, n) + {candidate};
      CandidatesBelowSize(slug, n + 1);
      SubsetSize(CandidatesBelow(slug, n + 1), existing);
      n := n + 1;
      candidate := slug + "-" + NatToDecimal(n);
    }
    assert forall k :: 0 <= k < n ==> Candidate(slug, k) in CandidatesBelow(slug, n);
    if IsSlug(slug) {
      CandidateIsSlug(slug, n);
    }
  }

  lemma SubsetSize<T>(a: set<T>, b: set<T>)
    requires a <= b
    ensures |a| <= |b|
  {
    assert b == a + (b - a);
  }
}
