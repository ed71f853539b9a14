/** The schema initialiser: fail-open reads, `ensureCollection`,
    `ensureRelation`, and the fixed plan that runs them in dependency order
    and stops at the first error. Nothing is ever deleted or altered; the
    initialiser only adds what it finds missing. */
module Reconciler {
  import opened Wrappers
  import opened Json
  import opened Catalog
  import opened RelationMatch
  import opened Remote

  // Fail-open reads: a failed GET reads as an empty listing.

  method GetCollections(store: Directus) returns (names: set<string>)
    modifies store
    ensures store.sent == old(store.sent) + 1 && store.State() == old(store.State()) && store.posts == old(store.posts)
    ensures names == if store.ReadFails(old(store.sent), CollectionList) then {} else store.collections
  {
    var r := store.ListCollections();
    names := if r.Success? then r.value else {};
  }

  method GetFieldNames(store: Directus, collection: string) returns (names: set<string>)
    modifies store
    ensures store.sent == old(store.sent) + 1 && store.State() == old(store.State()) && store.posts == old(store.posts)
    ensures names == if store.ReadFails(old(store.sent), FieldList(collection)) then {} else FieldsOf(store.State(), collection)
  {
    var r := store.ListFields(collection);
    names := if r.Success? then r.value else {};
  }

  method GetRelations(store: Directus) returns (records: seq<Record>)
    modifies store
    ensures store.sent == old(store.sent) + 1 && store.State() == old(store.State()) && store.posts == old(store.posts)
    ensures records == if store.ReadFails(old(store.sent), RelationList) then [] else store.relations
  {
    var r := store.ListRelations();
    records := if r.Success? then r.value else [];
  }

  // ensureCollection

  /** `meta?.icon ?? 'folder'` */
  function IconOf(meta: Option<CollectionMeta>): string {
    if meta.Some? && meta.value.icon.Some? then meta.value.icon.value else "folder"
  }

  /** `meta?.note ?? ''` */
  function NoteOf(meta: Option<CollectionMeta>): string {
    if meta.Some? && meta.value.note.Some? then meta.value.note.value else ""
  }

  /** The field POSTs for the first `n` declared fields: one per field
      whose name is not in `skip`, in declaration order. */
  function FieldPosts(c: string, fields: seq<FieldDef>, skip: set<string>, n: nat): (ms: seq<Mutation>)
    requires n <= |fields|
    ensures |ms| <= n
  {
    if n == 0 then []
    else
      FieldPosts(c, fields, skip, n - 1)
      + if fields[n - 1].field in skip then [] else [CreateField(c, fields[n - 1])]
  }

  /** The POSTs `ensureCollection` makes when nothing fails, given whether
      it saw the collection and the field names it read. */
  function CollectionRequests(def: CollectionDef, present: bool, names: set<string>): seq<Mutation> {
    var c := def.collection;
    if present then FieldPosts(c, def.fields, names, |def.fields|)
    else [CreateCollection(c, IconOf(def.meta), NoteOf(def.meta))] + FieldPosts(c, def.fields, {}, |def.fields|)
  }

  /** Exactly the declared fields not in `skip` are posted, each to the
      collection at hand. */
  lemma {:induction false} FieldPostsMembers(c: string, fields: seq<FieldDef>, skip: set<string>, n: nat)
    requires n <= |fields|
    ensures forall m :: m in FieldPosts(c, fields, skip, n) ==>
      m.CreateField? && m.collection == c && m.def in fields && m.def.field !in skip
    ensures forall i :: 0 <= i < n && fields[i].field !in skip ==> CreateField(c, fields[i]) in FieldPosts(c, fields, skip, n)
  {
    if n > 0 {
      FieldPostsMembers(c, fields, skip, n - 1);
    }
  }

  /** With nothing to skip, every declared field is posted, in order. */
  lemma {:induction false} FieldPostsAll(c: string, fields: seq<FieldDef>, n: nat)
    requires n <= |fields|
    ensures |FieldPosts(c, fields, {}, n)| == n
    ensures forall i :: 0 <= i < n ==> FieldPosts(c, fields, {}, n)[i] == CreateField(c, fields[i])
  {
    if n > 0 {
      FieldPostsAll(c, fields, n - 1);
    }
  }

  /** The POSTs for fewer fields are a prefix of those for more. */
  lemma {:induction false} FieldPostsPrefix(c: string, fields: seq<FieldDef>, skip: set<string>, i: nat, n: nat)
    requires i <= n <= |fields|
    ensures IsPrefix(FieldPosts(c, fields, skip, i), FieldPosts(c, fields, skip, n))
  {
    if i < n {
      FieldPostsPrefix(c, fields, skip, i, n - 1);
      PrefixTransitive(FieldPosts(c, fields, skip, i), FieldPosts(c, fields, skip, n - 1), FieldPosts(c, fields, skip, n));
    }
  }

  /** For a collection it saw, `ensureCollection` creates no collection and
      posts exactly the declared fields it did not see. */
  lemma ExistingCollectionRequests(def: CollectionDef, names: set<string>)
    ensures forall m :: m in CollectionRequests(def, true, names) ==>
      m.CreateField? && m.collection == def.collection && m.def in def.fields && m.def.field !in names
    ensures forall f :: f in def.fields && f.field !in names ==> CreateField(def.collection, f) in CollectionRequests(def, true, names)
  {
    FieldPostsMembers(def.collection, def.fields, names, |def.fields|);
  }

  /** For a collection it did not see, `ensureCollection` creates it first,
      with the icon `folder` and an empty note unless the definition gives
      them, and then posts every declared field in order. */
  lemma AbsentCollectionRequests(def: CollectionDef, names: set<string>)
    ensures |CollectionRequests(def, false, names)| == |def.fields| + 1
    ensures CollectionRequests(def, false, names)[0].CreateCollection?
    ensures CollectionRequests(def, false, names)[0].collection == def.collection
    ensures CollectionRequests(def, false, names)[0].icon ==
      if def.meta.Some? && def.meta.value.icon.Some? then def.meta.value.icon.value else "folder"
    ensures CollectionRequests(def, false, names)[0].note ==
      if def.meta.Some? && def.meta.value.note.Some? then def.meta.value.note.value else ""
    ensures forall i :: 0 <= i < |def.fields| ==> CollectionRequests(def, false, names)[i + 1] == CreateField(def.collection, def.fields[i])
  {
    FieldPostsAll(def.collection, def.fields, |def.fields|);
  }

  /** Nothing is posted for a collection it saw exactly when every declared
      field name was among those it read; in particular a second run over a
      collection the first run completed posts nothing. */
  lemma NothingMissing(def: CollectionDef, names: set<string>)
    ensures CollectionRequests(def, true, names) == [] <==> forall f :: f in def.fields ==> f.field in names
  {
    ExistingCollectionRequests(def, names);
    var plan := CollectionRequests(def, true, names);
    if plan != [] {
      assert plan[0] in plan;
    }
  }

  /** Accepted POSTs of the first `n` fields leave each of them that was
      posted in the collection. */
  lemma {:induction false} AcceptedFieldsPresent(s: Schema, c: string, fields: seq<FieldDef>, skip: set<string>, n: nat)
    requires n <= |fields|
    ensures forall i :: 0 <= i < n && fields[i].field !in skip ==>
      (c, fields[i].field) in Replay(s, AcceptedRun(FieldPosts(c, fields, skip, n))).fields
  {
    if n > 0 {
      var front := FieldPosts(c, fields, skip, n - 1);
      var run := AcceptedRun(front);
      AcceptedFieldsPresent(s, c, fields, skip, n - 1);
      if fields[n - 1].field in skip {
        assert FieldPosts(c, fields, skip, n) == front;
      } else {
        var m := CreateField(c, fields[n - 1]);
        AcceptedRunSnoc(front, m);
        ReplaySnoc(s, run, Exchange(m, None));
      }
    }
  }

  /** When every request of `ensureCollection` is accepted, the collection
      ends up with every declared field, provided what it read held of the
      schema it started from. */
  lemma CollectionRequestsEstablish(s: Schema, def: CollectionDef, present: bool, names: set<string>)
    requires present ==> def.collection in s.collections
    requires present ==> forall n :: n in names ==> (def.collection, n) in s.fields
    ensures Holds(Replay(s, AcceptedRun(CollectionRequests(def, present, names))), def)
  {
    var c := def.collection;
    var n := |def.fields|;
    if present {
      var run := AcceptedRun(FieldPosts(c, def.fields, names, n));
      AcceptedFieldsPresent(s, c, def.fields, names, n);
      ReplayIncludes(s, run);
      forall f | f in def.fields
        ensures (c, f.field) in Replay(s, run).fields
      {
        var i :| 0 <= i < n && def.fields[i] == f;
      }
    } else {
      var create := CreateCollection(c, IconOf(def.meta), NoteOf(def.meta));
      var first := [Exchange(create, None)];
      var rest := AcceptedRun(FieldPosts(c, def.fields, {}, n));
      assert AcceptedRun(CollectionRequests(def, false, names)) == first + rest;
      ReplayConcat(s, first, rest);
      ReplaySnoc(s, [], Exchange(create, None));
      assert [] + first == first;
      AcceptedFieldsPresent(Apply(s, create), c, def.fields, {}, n);
      ReplayIncludes(Apply(s, create), rest);
      forall f | f in def.fields
        ensures (c, f.field) in Replay(s, first + rest).fields
      {
        var i :| 0 <= i < n && def.fields[i] == f;
      }
    }
  }

  /** A failed field POST ends the loop with a fail-fast run. */
  lemma FieldLoopStop(c: string, fields: seq<FieldDef>, skip: set<string>, i: nat, ex: seq<Exchange>, e: Exchange)
    requires i < |fields| && fields[i].field !in skip
    requires ex == AcceptedRun(FieldPosts(c, fields, skip, i))
    requires e.mutation == CreateField(c, fields[i]) && e.error.Some?
    ensures FailFast(ex + [e], FieldPosts(c, fields, skip, |fields|), e.error)
  {
    FieldPostsPrefix(c, fields, skip, i + 1, |fields|);
    FailFastStopped(FieldPosts(c, fields, skip, i), e.mutation, e.error.value, FieldPosts(c, fields, skip, |fields|));
  }

  /** One turn of the field loop that posts: sends the field POST and
      extends the run. An accepted POST keeps the loop going; a failed one
      completes a fail-fast run. */
  method PostField(store: Directus, c: string, fields: seq<FieldDef>, skip: set<string>, i: nat,
                   ghost base: Schema, ghost before: seq<Exchange>, ghost ex: seq<Exchange>)
    returns (err: Option<ApiError>, ghost ex': seq<Exchange>)
    requires i < |fields| && fields[i].field !in skip
    requires store.posts == before + ex && store.State() == Replay(base, ex)
    requires ex == AcceptedRun(FieldPosts(c, fields, skip, i))
    modifies store
    ensures store.posts == before + ex' && store.State() == Replay(base, ex')
    ensures store.sent == old(store.sent) + 1 && |ex'| == |ex| + 1
    ensures err.None? ==> ex' == AcceptedRun(FieldPosts(c, fields, skip, i + 1))
    ensures err.Some? ==> FailFast(ex', FieldPosts(c, fields, skip, |fields|), err)
    ensures store.AcceptsEverything() ==> err.None?
  {
    var m := CreateField(c, fields[i]);
    err := store.Post(m);
    ghost var e := Exchange(m, err);
    ReplaySnoc(base, ex, e);
    if err.Some? {
      FieldLoopStop(c, fields, skip, i, ex, e);
    } else {
      AcceptedRunSnoc(FieldPosts(c, fields, skip, i), m);
    }
    ex' := ex + [e];
  }

  /** The field loop of `ensureCollection`: posts, in order, each field of
      `fields` whose name is not in `skip`, and stops at the first POST that
      fails. For a freshly created collection `skip` is empty and every
      field is posted. */
  method PostFields(store: Directus, c: string, fields: seq<FieldDef>, skip: set<string>)
    returns (err: Option<ApiError>, ghost ex: seq<Exchange>)
    modifies store
    ensures store.posts == old(store.posts) + ex
    ensures store.State() == Replay(old(store.State()), ex)
    ensures store.sent == old(store.sent) + |ex|
    ensures FailFast(ex, FieldPosts(c, fields, skip, |fields|), err)
    ensures store.AcceptsEverything() ==> err.None?
  {
    err := None;
    ex := [];
    for i := 0 to |fields|
      invariant err.None?
      invariant store.posts == old(store.posts) + ex
      invariant store.State() == Replay(old(store.State()), ex)
      invariant ex == AcceptedRun(FieldPosts(c, fields, skip, i))
      invariant store.sent == old(store.sent) + |ex|
    {
      if fields[i].field in skip {
        continue;
      }
      err, ex := PostField(store, c, fields, skip, i, old(store.State()), old(store.posts), ex);
      if err.Some? {
        return;
      }
    }
    FailFastComplete(FieldPosts(c, fields, skip, |fields|));
  }

  /** The branch of `ensureCollection` for a collection it did not see:
      creates it, then posts every declared field. */
  method CreateWithFields(store: Directus, def: CollectionDef) returns (err: Option<ApiError>, ghost ex: seq<Exchange>)
    modifies store
    ensures store.posts == old(store.posts) + ex
    ensures store.State() == Replay(old(store.State()), ex)
    ensures store.sent == old(store.sent) + |ex|
    ensures FailFast(ex, CollectionRequests(def, false, {}), err)
    ensures store.AcceptsEverything() ==> err.None?
  {
    ghost var s := store.State();
    err, ex := PostCreate(store, def);
    if err.Some? {
      return;
    }
    ghost var rest;
    err, rest := PostFields(store, def.collection, def.fields, {});
    ReplayConcat(s, ex, rest);
    CreateThenFields(def, rest, err);
    ex := ex + rest;
  }

  /** The creation POST of `ensureCollection`, with the icon and note
      defaults; a refused one ends the call with its error. */
  method PostCreate(store: Directus, def: CollectionDef) returns (err: Option<ApiError>, ghost ex: seq<Exchange>)
    modifies store
    ensures store.posts == old(store.posts) + ex
    ensures store.State() == Replay(old(store.State()), ex)
    ensures store.sent == old(store.sent) + 1
    ensures ex == [Exchange(CollectionRequests(def, false, {})[0], err)]
    ensures err.Some? ==> FailFast(ex, CollectionRequests(def, false, {}), err)
    ensures store.AcceptsEverything() ==> err.None?
  {
    var create := CreateCollection(def.collection, IconOf(def.meta), NoteOf(def.meta));
    ghost var s := store.State();
    err := store.Post(create);
    ex := [Exchange(create, err)];
    ReplaySnoc(s, [], Exchange(create, err));
    assert [] + ex == ex;
    if err.Some? {
      CreateRefused(def, err.value);
    }
  }

  /** A refused creation is a fail-fast run of the whole request list. */
  lemma CreateRefused(def: CollectionDef, e: ApiError)
    ensures FailFast([Exchange(CollectionRequests(def, false, {})[0], Some(e))], CollectionRequests(def, false, {}), Some(e))
  {
    var plan := CollectionRequests(def, false, {});
    assert IsPrefix([] + [plan[0]], plan);
    FailFastStopped([], plan[0], e, plan);
    assert AcceptedRun([]) == [];
  }

  /** A fail-fast run of the field POSTs after an accepted creation is a
      fail-fast run of the whole request list. */
  lemma CreateThenFields(def: CollectionDef, rest: seq<Exchange>, err: Option<ApiError>)
    requires FailFast(rest, FieldPosts(def.collection, def.fields, {}, |def.fields|), err)
    ensures FailFast([Exchange(CollectionRequests(def, false, {})[0], None)] + rest, CollectionRequests(def, false, {}), err)
  {
    var create := CollectionRequests(def, false, {})[0];
    var ex := [Exchange(create, None)] + rest;
    assert Mutations(ex) == [create] + Mutations(rest);
    if err.Some? {
      assert ex[..|ex| - 1] == [Exchange(create, None)] + rest[..|rest| - 1];
    }
  }

  /** A run of `ensureCollection` that ends without an error leaves the
      collection with every declared field. */
  lemma CollectionEnsured(s: Schema, def: CollectionDef, present: bool, names: set<string>, ex: seq<Exchange>)
    requires present ==> def.collection in s.collections
    requires present ==> forall n :: n in names ==> (def.collection, n) in s.fields
    requires FailFast(ex, CollectionRequests(def, present, names), None)
    ensures Holds(Replay(s, ex), def)
  {
    FailFastAccepted(ex, CollectionRequests(def, present, names));
    CollectionRequestsEstablish(s, def, present, names);
  }

  /** `ensureCollection`: reads the collection list; for a collection it
      sees, reads its field names and posts each declared field not among
      them; otherwise creates the collection and posts every declared field.
      The first POST that fails ends the call with its error. */
  method EnsureCollection(store: Directus, def: CollectionDef)
    returns (err: Option<ApiError>, ghost present: bool, ghost names: set<string>, ghost ex: seq<Exchange>)
    modifies store
    ensures present <==> !store.ReadFails(old(store.sent), CollectionList) && def.collection in old(store.collections)
    ensures present ==>
      names == if store.ReadFails(old(store.sent) + 1, FieldList(def.collection)) then {}
               else FieldsOf(old(store.State()), def.collection)
    ensures !present ==> names == {}
    ensures store.posts == old(store.posts) + ex
    ensures store.State() == Replay(old(store.State()), ex)
    ensures !present ==> store.sent == old(store.sent) + 1 + |ex|
    ensures present ==> store.sent == old(store.sent) + 2 + |ex|
    ensures FailFast(ex, CollectionRequests(def, present, names), err)
    ensures err.None? ==> Holds(store.State(), def)
    ensures store.AcceptsEverything() ==> err.None?
  {
    names := {};
    var collections := GetCollections(store);
    var existing := def.collection in collections;
    present := existing;
    if existing {
      var seen := GetFieldNames(store, def.collection);
      names := seen;
      err, ex := PostFields(store, def.collection, def.fields, seen);
    } else {
      err, ex := CreateWithFields(store, def);
    }
    if err.None? {
      CollectionEnsured(old(store.State()), def, present, names, ex);
    }
  }

  // ensureRelation

  /** The POSTs `ensureRelation` tries for a relation it did not find: one
      per request body, in order. */
  function RelationRequests(rel: RelationDef): (ms: seq<Mutation>)
    ensures |ms| == |Shapes|
    ensures forall k :: 0 <= k < |Shapes| ==> ms[k] == CreateRelation(Shapes[k], rel)
  {
    seq(|Shapes|, k requires 0 <= k < |Shapes| => CreateRelation(Shapes[k], rel))
  }

  /** The first `k` request bodies were posted, in order, and all refused. */
  ghost predicate ShapesRefused(ex: seq<Exchange>, rel: RelationDef, k: nat) {
    k <= |Shapes| && |ex| == k && Mutations(ex) == RelationRequests(rel)[..k]
    && forall j :: 0 <= j < k ==> ex[j].error.Some?
  }

  /** One turn of the payload loop: posts one body. */
  method TryShape(store: Directus, rel: RelationDef, k: nat,
                  ghost base: Schema, ghost before: seq<Exchange>, ghost ex: seq<Exchange>)
    returns (err: Option<ApiError>, ghost ex': seq<Exchange>)
    requires k < |Shapes|
    requires store.posts == before + ex && store.State() == Replay(base, ex)
    requires ShapesRefused(ex, rel, k)
    modifies store
    ensures store.posts == before + ex' && store.State() == Replay(base, ex')
    ensures ex' == ex + [Exchange(CreateRelation(Shapes[k], rel), err)]
    ensures store.sent == old(store.sent) + 1
    ensures err.Some? ==> ShapesRefused(ex', rel, k + 1)
    ensures err.None? ==> AnyMatches(store.relations, rel) && FirstSuccess(ex', RelationRequests(rel), None)
    ensures store.AcceptsEverything() ==> err.None?
  {
    var m := CreateRelation(Shapes[k], rel);
    err := store.Post(m);
    assert store.AcceptsEverything() ==> err.None?;
    ex' := ex + [Exchange(m, err)];
    ReplaySnoc(base, ex, Exchange(m, err));
    if err.None? {
      CreatedRelationMatches(Replay(base, ex), Shapes[k], rel);
      ShapeAccepted(ex, rel, k, Exchange(m, err));
    } else {
      ShapesRefusedSnoc(ex, rel, k, Exchange(m, err));
    }
  }

  /** An accepted POST of the next body completes a first-success run. */
  lemma ShapeAccepted(ex: seq<Exchange>, rel: RelationDef, k: nat, e: Exchange)
    requires ShapesRefused(ex, rel, k) && k < |Shapes|
    requires e.mutation == CreateRelation(Shapes[k], rel) && e.error.None?
    ensures FirstSuccess(ex + [e], RelationRequests(rel), None)
  {
    assert Mutations(ex + [e]) == Mutations(ex) + [e.mutation];
    assert RelationRequests(rel)[..k + 1] == RelationRequests(rel)[..k] + [RelationRequests(rel)[k]];
  }

  /** A refused POST of the next body extends the refused run by one. */
  lemma ShapesRefusedSnoc(ex: seq<Exchange>, rel: RelationDef, k: nat, e: Exchange)
    requires ShapesRefused(ex, rel, k) && k < |Shapes|
    requires e.mutation == CreateRelation(Shapes[k], rel) && e.error.Some?
    ensures ShapesRefused(ex + [e], rel, k + 1)
  {
    assert Mutations(ex + [e]) == Mutations(ex) + [e.mutation];
    assert RelationRequests(rel)[..k + 1] == RelationRequests(rel)[..k] + [RelationRequests(rel)[k]];
  }

  /** `ensureRelation`: reads the relation list and does nothing when a
      record matches; otherwise posts the request bodies in turn until one
      is accepted, and fails with the last error when none is. */
  method EnsureRelation(store: Directus, rel: RelationDef)
    returns (err: Option<ApiError>, ghost matched: bool, ghost ex: seq<Exchange>)
    modifies store
    ensures matched <==> !store.ReadFails(old(store.sent), RelationList) && AnyMatches(old(store.relations), rel)
    ensures store.posts == old(store.posts) + ex
    ensures store.State() == Replay(old(store.State()), ex)
    ensures store.sent == old(store.sent) + 1 + |ex|
    ensures matched ==> ex == [] && err.None?
    ensures !matched ==> FirstSuccess(ex, RelationRequests(rel), err)
    ensures store.AcceptsEverything() ==> err.None?
    ensures err.None? ==> AnyMatches(store.relations, rel)
  {
    var relations := GetRelations(store);
    var found := AnyMatches(relations, rel);
    matched := found;
    if found {
      return None, matched, [];
    }
    err, ex := TryShapes(store, rel);
  }

  /** The payload loop of `ensureRelation`: posts the request bodies in
      turn until one is accepted. */
  method TryShapes(store: Directus, rel: RelationDef) returns (err: Option<ApiError>, ghost ex: seq<Exchange>)
    modifies store
    ensures store.posts == old(store.posts) + ex
    ensures store.State() == Replay(old(store.State()), ex)
    ensures store.sent == old(store.sent) + |ex|
    ensures FirstSuccess(ex, RelationRequests(rel), err)
    ensures store.AcceptsEverything() ==> err.None?
    ensures err.None? ==> AnyMatches(store.relations, rel)
  {
    ex := [];
    ghost var accepts := store.AcceptsEverything();
    var lastErr: Option<ApiError> := None;
    for k := 0 to |Shapes|
      invariant store.posts == old(store.posts) + ex
      invariant store.State() == Replay(old(store.State()), ex)
      invariant ShapesRefused(ex, rel, k)
      invariant store.sent == old(store.sent) + k
      invariant k > 0 ==> lastErr == Last(ex).error
      invariant k > 0 ==> !accepts
    {
      var e;
      e, ex := TryShape(store, rel, k, old(store.State()), old(store.posts), ex);
      if e.None? {
        return None, ex;
      }
      lastErr := e;
    }
    AllShapesFailed(ex, rel, lastErr);
    err := lastErr;
  }

  /** Every request body was refused: the run is a first-success run that
      ends with the last error. */
  lemma AllShapesFailed(ex: seq<Exchange>, rel: RelationDef, lastErr: Option<ApiError>)
    requires ShapesRefused(ex, rel, |Shapes|)
    requires lastErr == Last(ex).error
    ensures FirstSuccess(ex, RelationRequests(rel), lastErr)
  {
    assert RelationRequests(rel)[..|Shapes|] == RelationRequests(rel);
  }

  // The main pass

  /** The POSTs a step may make. */
  predicate OfStep(m: Mutation, step: Step) {
    match step
    case EnsureCollectionStep(def) => (m.CreateCollection? || m.CreateField?) && m.collection == def.collection
    case EnsureRelationStep(rel) => m.CreateRelation? && m.rel == rel
  }

  /** What a step establishes once it has gone through. */
  predicate StepHolds(s: Schema, step: Step) {
    match step
    case EnsureCollectionStep(def) => Holds(s, def)
    case EnsureRelationStep(rel) => AnyMatches(s.relations, rel)
  }

  /** A step that holds keeps holding as POSTs add to the schema. */
  lemma StepHoldsKept(s: Schema, t: Schema, step: Step)
    requires StepHolds(s, step) && Includes(s, t)
    ensures StepHolds(t, step)
  {
    if step.EnsureRelationStep? {
      MatchKept(s, t, step.rel);
    }
  }

  /** The first `n` steps all hold. */
  predicate HoldsUpTo(s: Schema, steps: seq<Step>, n: nat)
    requires n <= |steps|
  {
    forall i :: 0 <= i < n ==> StepHolds(s, steps[i])
  }

  lemma HoldsUpToKept(s: Schema, t: Schema, steps: seq<Step>, n: nat)
    requires n <= |steps| && HoldsUpTo(s, steps, n) && Includes(s, t)
    ensures HoldsUpTo(t, steps, n)
  {
    forall i | 0 <= i < n
      ensures StepHolds(t, steps[i])
    {
      StepHoldsKept(s, t, steps[i]);
    }
  }

  /** The last POST of a failed `ensureCollection` is one of its own. */
  lemma CollectionFailureOfStep(def: CollectionDef, present: bool, names: set<string>, ex: seq<Exchange>, err: Option<ApiError>)
    requires FailFast(ex, CollectionRequests(def, present, names), err) && err.Some?
    ensures ex != [] && OfStep(Last(ex).mutation, EnsureCollectionStep(def))
  {
    var plan := CollectionRequests(def, present, names);
    assert Last(ex).mutation == Mutations(ex)[|ex| - 1] == plan[|ex| - 1];
    if present {
      ExistingCollectionRequests(def, names);
      assert plan[|ex| - 1] in plan;
    } else {
      AbsentCollectionRequests(def, names);
      if |ex| > 1 {
        assert plan[(|ex| - 2) + 1] == CreateField(def.collection, def.fields[|ex| - 2]);
      }
    }
  }

  /** What one step posted: its POSTs, with what `ensureCollection` read
      before posting (whether the collection was listed, and the field
      names it saw), since its request list depends on them. */
  datatype StepTrace = StepTrace(present: bool, names: set<string>, ex: seq<Exchange>)

  /** `t` is a run of `step` ending with `err`: the fail-fast run of
      `ensureCollection` over the request list for what it read, or, for
      `ensureRelation`, nothing (a matching record was listed) or a
      first-success run over the request bodies. */
  predicate StepRun(step: Step, t: StepTrace, err: Option<ApiError>) {
    match step
    case EnsureCollectionStep(def) => FailFast(t.ex, CollectionRequests(def, t.present, t.names), err)
    case EnsureRelationStep(rel) => (t.ex == [] && err.None?) || FirstSuccess(t.ex, RelationRequests(rel), err)
  }

  /** The POSTs of several step runs, one after the other. */
  function Flatten(runs: seq<StepTrace>): (ex: seq<Exchange>)
    decreases |runs|
  {
    if runs == [] then [] else Flatten(runs[..|runs| - 1]) + runs[|runs| - 1].ex
  }

  lemma {:induction false} FlattenConcat(x: seq<StepTrace>, y: seq<StepTrace>)
    ensures Flatten(x + y) == Flatten(x) + Flatten(y)
    decreases |y|
  {
    if y == [] {
      assert x + y == x;
    } else {
      assert (x + y)[..|x + y| - 1] == x + y[..|y| - 1];
      FlattenConcat(x, y[..|y| - 1]);
    }
  }

  /** `ex` splits into `runs`: one error-free run for each of the first
      `done` steps, in order, then, when the pass failed, the run of step
      `done` ending in `err`, and no POST after it. */
  predicate Traced(steps: seq<Step>, done: nat, err: Option<ApiError>, ex: seq<Exchange>, runs: seq<StepTrace>) {
    done <= |steps| && |runs| == (if err.None? then done else done + 1) && Flatten(runs) == ex
    && (forall i {:trigger runs[i]} :: 0 <= i < done ==> StepRun(steps[i], runs[i], None))
    && (err.Some? ==> done < |steps| && StepRun(steps[done], runs[done], err))
  }

  lemma TracedNil(steps: seq<Step>)
    ensures Traced(steps, 0, None, [], [])
  {
  }

  /** One more step run after error-free runs of the first `i` steps. */
  lemma TracedSnoc(steps: seq<Step>, i: nat, ex: seq<Exchange>, runs: seq<StepTrace>, t: StepTrace, err: Option<ApiError>)
    requires i < |steps| && Traced(steps, i, None, ex, runs) && StepRun(steps[i], t, err)
    ensures Traced(steps, if err.None? then i + 1 else i, err, ex + t.ex, runs + [t])
  {
    SnocRuns(steps, i, ex, runs, t);
  }

  /** Appending one run keeps the earlier runs and their POSTs in front. */
  lemma SnocRuns(steps: seq<Step>, i: nat, ex: seq<Exchange>, runs: seq<StepTrace>, t: StepTrace)
    requires i < |steps| && Traced(steps, i, None, ex, runs)
    ensures |runs + [t]| == i + 1 && Flatten(runs + [t]) == ex + t.ex && (runs + [t])[i] == t
    ensures forall j {:trigger (runs + [t])[j]} :: 0 <= j < i ==> StepRun(steps[j], (runs + [t])[j], None)
  {
    var runs' := runs + [t];
    assert runs'[..|runs'| - 1] == runs;
    forall j | 0 <= j < i
      ensures StepRun(steps[j], runs'[j], None)
    {
      assert runs'[j] == runs[j];
    }
  }

  /** A trace that stopped within the first part of a plan is a trace of
      the whole plan. */
  lemma TracedPrefix(a: seq<Step>, b: seq<Step>, done: nat, err: Option<ApiError>, ex: seq<Exchange>, runs: seq<StepTrace>)
    requires Traced(a, done, err, ex, runs) && err.Some?
    ensures Traced(a + b, done, err, ex, runs)
  {
    assert forall i :: 0 <= i < |a| ==> (a + b)[i] == a[i];
  }

  /** Error-free runs of all of `a` and of the first `d` steps of `b`
      are error-free runs of the first `|a| + d` steps of `a + b`. */
  lemma JoinedRuns(a: seq<Step>, rx: seq<StepTrace>, b: seq<Step>, ry: seq<StepTrace>, d: nat)
    requires |rx| == |a| && d <= |b| && d <= |ry|
    requires forall i {:trigger rx[i]} :: 0 <= i < |a| ==> StepRun(a[i], rx[i], None)
    requires forall i {:trigger ry[i]} :: 0 <= i < d ==> StepRun(b[i], ry[i], None)
    ensures forall j {:trigger (rx + ry)[j]} :: 0 <= j < |a| + d ==> StepRun((a + b)[j], (rx + ry)[j], None)
  {
    forall j | 0 <= j < |a| + d
      ensures StepRun((a + b)[j], (rx + ry)[j], None)
    {
      if j < |a| {
        assert (a + b)[j] == a[j] && (rx + ry)[j] == rx[j];
      } else {
        assert (a + b)[j] == b[j - |a|] && (rx + ry)[j] == ry[j - |a|];
      }
    }
  }

  /** An error-free trace of a whole first part followed by a trace of
      the second part is a trace of the joined plan. */
  lemma TracedConcat(a: seq<Step>, x: seq<Exchange>, rx: seq<StepTrace>,
                     b: seq<Step>, d: nat, err: Option<ApiError>, y: seq<Exchange>, ry: seq<StepTrace>)
    requires Traced(a, |a|, None, x, rx) && Traced(b, d, err, y, ry)
    ensures Traced(a + b, |a| + d, err, x + y, rx + ry)
  {
    FlattenConcat(rx, ry);
    JoinedRuns(a, rx, b, ry, d);
    if err.Some? {
      FailedRunJoined(a, rx, b, ry, d, err);
    }
    assert |rx + ry| == (if err.None? then |a| + d else |a| + d + 1);
  }

  /** The failed run of the second part stays at its place in the joined
      trace. */
  lemma FailedRunJoined(a: seq<Step>, rx: seq<StepTrace>, b: seq<Step>, ry: seq<StepTrace>, d: nat, err: Option<ApiError>)
    requires |rx| == |a| && d < |b| && d < |ry| && StepRun(b[d], ry[d], err)
    ensures StepRun((a + b)[|a| + d], (rx + ry)[|a| + d], err)
  {
    assert (a + b)[|a| + d] == b[d] && (rx + ry)[|a| + d] == ry[d];
  }

  /** Runs one step of the plan. A step fails only through a POST: the
      reads are fail-open. */
  method Attempt(store: Directus, step: Step) returns (err: Option<ApiError>, ghost ex: seq<Exchange>, ghost t: StepTrace)
    modifies store
    ensures store.posts == old(store.posts) + ex
    ensures store.State() == Replay(old(store.State()), ex)
    ensures err.None? ==> StepHolds(store.State(), step)
    ensures err.Some? ==> ex != [] && Last(ex).error == err && OfStep(Last(ex).mutation, step)
    ensures t.ex == ex && StepRun(step, t, err)
    ensures store.AcceptsEverything() ==> err.None?
    ensures store.ReadsReliable() && StepHolds(old(store.State()), step) ==> ex == [] && err.None?
  {
    match step
    case EnsureCollectionStep(def) =>
      ghost var present, names;
      err, present, names, ex := EnsureCollection(store, def);
      t := StepTrace(present, names, ex);
      if err.Some? {
        CollectionFailureOfStep(def, present, names, ex, err);
      }
      if store.ReadsReliable() && Holds(old(store.State()), def) {
        HeldCollectionIdle(old(store.State()), def, ex, err);
      }
    case EnsureRelationStep(rel) =>
      ghost var matched;
      err, matched, ex := EnsureRelation(store, rel);
      t := StepTrace(false, {}, ex);
      if err.Some? {
        assert Last(ex).mutation == Mutations(ex)[|ex| - 1] == RelationRequests(rel)[|ex| - 1];
      }
  }

  /** One turn of the main pass: runs step `i`, which keeps every earlier
      step holding, since POSTs only add. */
  method AttemptNext(store: Directus, step: Step, ghost steps: seq<Step>, ghost i: nat,
                     ghost base: Schema, ghost before: seq<Exchange>, ghost ex: seq<Exchange>, ghost runs: seq<StepTrace>)
    returns (err: Option<ApiError>, ghost ex': seq<Exchange>, ghost runs': seq<StepTrace>)
    requires i < |steps| && steps[i] == step
    requires store.posts == before + ex && store.State() == Replay(base, ex)
    requires HoldsUpTo(store.State(), steps, i)
    requires Traced(steps, i, None, ex, runs)
    modifies store
    ensures store.posts == before + ex' && store.State() == Replay(base, ex')
    ensures HoldsUpTo(store.State(), steps, i)
    ensures err.None? ==> HoldsUpTo(store.State(), steps, i + 1)
    ensures Traced(steps, if err.None? then i + 1 else i, err, ex', runs')
    ensures err.Some? ==> ex' != [] && Last(ex').error == err && OfStep(Last(ex').mutation, steps[i])
    ensures store.AcceptsEverything() ==> err.None?
    ensures store.ReadsReliable() && StepHolds(old(store.State()), steps[i]) ==> ex' == ex && err.None?
  {
    ghost var s := store.State();
    ghost var run, t;
    err, run, t := Attempt(store, step);
    NextStepKept(base, s, store.State(), steps, i, ex, runs, t, err);
    AppendAssoc(before, ex, t.ex);
    ex' := ex + t.ex;
    runs' := runs + [t];
  }

  lemma AppendAssoc(a: seq<Exchange>, b: seq<Exchange>, c: seq<Exchange>)
    ensures a + b + c == a + (b + c)
  {
  }

  /** What one more step run adds to a pass: earlier steps keep holding,
      the state is the replay of all POSTs so far, and the trace grows by
      the step's run. */
  lemma NextStepKept(base: Schema, s: Schema, t: Schema, steps: seq<Step>, i: nat,
                     ex: seq<Exchange>, runs: seq<StepTrace>, tr: StepTrace, err: Option<ApiError>)
    requires i < |steps| && s == Replay(base, ex) && t == Replay(s, tr.ex)
    requires HoldsUpTo(s, steps, i) && Traced(steps, i, None, ex, runs) && StepRun(steps[i], tr, err)
    requires err.None? ==> StepHolds(t, steps[i])
    requires err.Some? ==> tr.ex != [] && Last(tr.ex).error == err && OfStep(Last(tr.ex).mutation, steps[i])
    ensures t == Replay(base, ex + tr.ex)
    ensures HoldsUpTo(t, steps, i)
    ensures err.None? ==> HoldsUpTo(t, steps, i + 1)
    ensures Traced(steps, if err.None? then i + 1 else i, err, ex + tr.ex, runs + [tr])
    ensures err.Some? ==> ex + tr.ex != [] && Last(ex + tr.ex).error == err && OfStep(Last(ex + tr.ex).mutation, steps[i])
  {
    ReplayConcat(base, ex, tr.ex);
    ReplayIncludes(s, tr.ex);
    HoldsUpToKept(s, t, steps, i);
    TracedSnoc(steps, i, ex, runs, tr, err);
    if tr.ex != [] {
      assert Last(ex + tr.ex) == Last(tr.ex);
    }
  }

  /** Where a fail-fast pass over `steps` stopped: the first `done` steps
      hold; without an error every step went through, and with one the last
      POST was made by step `done` and failed with it; and `runs` splits
      the POSTs `ex` into the steps' runs, in order, with nothing after the
      failing one. */
  predicate Progress(s: Schema, steps: seq<Step>, done: nat, err: Option<ApiError>, ex: seq<Exchange>, runs: seq<StepTrace>) {
    done <= |steps| && HoldsUpTo(s, steps, done)
    && (err.None? <==> done == |steps|)
    && Traced(steps, done, err, ex, runs)
    && (err.Some? ==> ex != [] && Last(ex).error == err && OfStep(Last(ex).mutation, steps[done]))
  }

  /** Runs the steps in order and stops at the first that fails, as the
      `try` block of the initialiser does. */
  method AttemptAll(store: Directus, steps: seq<Step>)
    returns (err: Option<ApiError>, ghost done: nat, ghost ex: seq<Exchange>, ghost runs: seq<StepTrace>)
    modifies store
    ensures store.posts == old(store.posts) + ex
    ensures store.State() == Replay(old(store.State()), ex)
    ensures Progress(store.State(), steps, done, err, ex, runs)
    ensures store.AcceptsEverything() ==> err.None?
    ensures store.ReadsReliable() && HoldsUpTo(old(store.State()), steps, |steps|) ==> ex == [] && err.None?
  {
    err := None;
    ex := [];
    runs := [];
    var i := 0;
    while i < |steps|
      invariant i <= |steps| && err.None?
      invariant store.posts == old(store.posts) + ex
      invariant store.State() == Replay(old(store.State()), ex)
      invariant HoldsUpTo(store.State(), steps, i)
      invariant Traced(steps, i, None, ex, runs)
      invariant store.ReadsReliable() && HoldsUpTo(old(store.State()), steps, |steps|) ==> ex == []
    {
      err, ex, runs := AttemptNext(store, steps[i], steps, i, old(store.State()), old(store.posts), ex, runs);
      if err.Some? {
        done := i;
        return;
      }
      i := i + 1;
    }
    done := i;
  }

  /** `ensureCollection` over a collection that already has every declared
      field, read back correctly, posts nothing. */
  lemma HeldCollectionIdle(s: Schema, def: CollectionDef, ex: seq<Exchange>, err: Option<ApiError>)
    requires Holds(s, def)
    requires FailFast(ex, CollectionRequests(def, true, FieldsOf(s, def.collection)), err)
    ensures ex == [] && err.None?
  {
    NothingMissing(def, FieldsOf(s, def.collection));
  }

  /** Dropping the first entry of a table: it is skipped when its many side
      is `main` and comes first otherwise. */
  lemma ExtensionRelationsStep(table: seq<RelationDef>, k: nat, main: string)
    requires k < |table|
    ensures ExtensionRelations(table[k..], main) ==
      if table[k].many == main then ExtensionRelations(table[k + 1..], main)
      else [table[k]] + ExtensionRelations(table[k + 1..], main)
  {
    assert table[k..][1..] == table[k + 1..];
  }

  /** The state of the final loop after the first `k` table entries: `done`
      of the relations to ensure are behind it, all hold, and each left one
      traced run. */
  ghost predicate TableLoop(s: Schema, table: seq<RelationDef>, main: string, rels: seq<RelationDef>, steps: seq<Step>,
                            k: nat, done: nat, ex: seq<Exchange>, runs: seq<StepTrace>) {
    k <= |table| && done <= |rels| && steps == RelationSteps(rels)
    && rels[done..] == ExtensionRelations(table[k..], main)
    && HoldsUpTo(s, steps, done) && Traced(steps, done, None, ex, runs)
  }

  /** One entry of the final loop: skipped when its many side is `main`,
      ensured otherwise. */
  method TableEntry(store: Directus, table: seq<RelationDef>, main: string, k: nat,
                    ghost rels: seq<RelationDef>, ghost steps: seq<Step>, ghost done: nat,
                    ghost base: Schema, ghost before: seq<Exchange>, ghost ex: seq<Exchange>, ghost runs: seq<StepTrace>)
    returns (err: Option<ApiError>, ghost done': nat, ghost ex': seq<Exchange>, ghost runs': seq<StepTrace>)
    requires k < |table|
    requires TableLoop(store.State(), table, main, rels, steps, k, done, ex, runs)
    requires store.posts == before + ex && store.State() == Replay(base, ex)
    modifies store
    ensures store.posts == before + ex' && store.State() == Replay(base, ex')
    ensures err.None? ==> TableLoop(store.State(), table, main, rels, steps, k + 1, done', ex', runs')
    ensures err.Some? ==> Progress(store.State(), steps, done', err, ex', runs')
    ensures store.AcceptsEverything() ==> err.None?
    ensures store.ReadsReliable() && ex == [] && HoldsUpTo(base, steps, |steps|) ==> ex' == [] && err.None?
  {
    var rel := table[k];
    ExtensionRelationsStep(table, k, main);
    if rel.many == main {
      return None, done, ex, runs;
    }
    assert rels[done..][0] == rel;
    err, ex', runs' := AttemptNext(store, EnsureRelationStep(rel), steps, done, base, before, ex, runs);
    done' := if err.None? then done + 1 else done;
    if err.None? {
      assert rels[done + 1..] == rels[done..][1..];
    }
  }

  /** The final loop of the initialiser: walks the relation table, skips
      the entries whose many side is the main collection (they were ensured
      with it) and ensures each other one, stopping at the first failure. */
  method EnsureTableRelations(store: Directus, table: seq<RelationDef>, main: string)
    returns (err: Option<ApiError>, ghost done: nat, ghost ex: seq<Exchange>, ghost runs: seq<StepTrace>)
    modifies store
    ensures store.posts == old(store.posts) + ex
    ensures store.State() == Replay(old(store.State()), ex)
    ensures Progress(store.State(), RelationSteps(ExtensionRelations(table, main)), done, err, ex, runs)
    ensures store.AcceptsEverything() ==> err.None?
    ensures store.ReadsReliable() && HoldsUpTo(old(store.State()), RelationSteps(ExtensionRelations(table, main)), |ExtensionRelations(table, main)|) ==>
      ex == [] && err.None?
  {
    ghost var rels := ExtensionRelations(table, main);
    ghost var steps := RelationSteps(rels);
    err := None;
    ex := [];
    runs := [];
    done := 0;
    assert table[0..] == table;
    for k := 0 to |table|
      invariant err.None?
      invariant TableLoop(store.State(), table, main, rels, steps, k, done, ex, runs)
      invariant store.posts == old(store.posts) + ex
      invariant store.State() == Replay(old(store.State()), ex)
      invariant store.ReadsReliable() && HoldsUpTo(old(store.State()), steps, |steps|) ==> ex == []
    {
      err, done, ex, runs := TableEntry(store, table, main, k, rels, steps, done, old(store.State()), old(store.posts), ex, runs);
      if err.Some? {
        return;
      }
    }
    assert table[|table|..] == [];
  }

  // Reporting the error that ended the pass

  /** `err.response?.data?.errors?.[0]?.message || err.response?.data?.message
      || err.message`: the first error of a Directus error body, else the
      body's own message, else the client's; `||` lets an empty string fall
      through. */
  function ReportedMessage(e: ApiError): (msg: JsValue)
    ensures Truthy(msg) || msg == Str(e.message)
  {
    var data := OptGet(e.response, "data");
    Or(Or(OptGet(OptIndex(OptGet(data, "errors"), 0), "message"), OptGet(data, "message")), Str(e.message))
  }

  /** What the initialiser prints after `Błąd Directus:` before exiting
      with status 1: the message when it is not empty, else the response
      body when there is one, else the error itself. */
  datatype Report = Message(text: JsValue) | Body(data: JsValue) | Raw(error: ApiError)

  function Diagnose(e: ApiError): (r: Report)
    ensures r.Message? ==> Truthy(r.text)
    ensures r.Body? ==> Truthy(r.data) && r.data == OptGet(e.response, "data")
    ensures r.Raw? ==> e.message == [] && r.error == e
  {
    var msg := ReportedMessage(e);
    var data := OptGet(e.response, "data");
    if Truthy(msg) then Message(msg) else if Truthy(data) then Body(data) else Raw(e)
  }

  /** A Directus error body reports the message of its first error. */
  lemma DirectusErrorReported(m: string, rest: seq<JsValue>, client: string)
    requires m != []
    ensures Diagnose(ApiError(Obj(map["data" := Obj(map["errors" := Arr([Obj(map["message" := Str(m)])] + rest)])]), client))
      == Message(Str(m))
  {
  }

  /** A body with a top-level message and no error list reports that
      message. */
  lemma BodyMessageReported(m: string, client: string)
    requires m != []
    ensures Diagnose(ApiError(Obj(map["data" := Obj(map["message" := Str(m)])]), client)) == Message(Str(m))
  {
  }

  /** With no response at all (the network failed), the client's own
      message is reported. */
  lemma NoResponseReported(client: string)
    requires client != []
    ensures Diagnose(ApiError(Undefined, client)) == Message(Str(client))
  {
  }

  /** An error list whose first entry has an empty message falls through
      to the body's message. */
  lemma EmptyFirstErrorFallsThrough(m: string, client: string)
    requires m != []
    ensures Diagnose(ApiError(Obj(map["data" := Obj(map["errors" := Arr([Obj(map["message" := Str("")])]),
                                                      "message" := Str(m)])]), client))
      == Message(Str(m))
  {
  }

  // The whole pass

  /** A pass that stopped within the first part of a plan stopped at the
      same step of the whole plan. */
  lemma ProgressPrefix(s: Schema, a: seq<Step>, b: seq<Step>, done: nat, err: Option<ApiError>,
                       ex: seq<Exchange>, runs: seq<StepTrace>)
    requires Progress(s, a, done, err, ex, runs) && err.Some?
    ensures Progress(s, a + b, done, err, ex, runs)
  {
    assert forall i :: 0 <= i < |a| ==> (a + b)[i] == a[i];
    TracedPrefix(a, b, done, err, ex, runs);
  }

  /** A pass through the whole first part of a plan followed by a pass
      over the second part is a pass over the whole plan. */
  lemma ProgressConcat(s: Schema, a: seq<Step>, b: seq<Step>, d: nat, err: Option<ApiError>,
                       ex: seq<Exchange>, rx: seq<StepTrace>, rest: seq<Exchange>, ry: seq<StepTrace>)
    requires HoldsUpTo(s, a, |a|) && Traced(a, |a|, None, ex, rx) && Progress(s, b, d, err, rest, ry)
    ensures Progress(s, a + b, |a| + d, err, ex + rest, rx + ry)
  {
    assert forall i :: |a| <= i < |a| + |b| ==> (a + b)[i] == b[i - |a|];
    assert forall i :: 0 <= i < |a| ==> (a + b)[i] == a[i];
    if rest != [] {
      assert Last(ex + rest) == Last(rest);
    }
    TracedConcat(a, ex, rx, b, d, err, rest, ry);
  }

  /** Runs the leading steps of a plan, then the table's relations whose
      many side is not `main`, stopping at the first failure. */
  method RunPlan(store: Directus, head: seq<Step>, table: seq<RelationDef>, main: string)
    returns (err: Option<ApiError>, ghost done: nat, ghost ex: seq<Exchange>, ghost runs: seq<StepTrace>)
    modifies store
    ensures store.posts == old(store.posts) + ex
    ensures store.State() == Replay(old(store.State()), ex)
    ensures Progress(store.State(), head + RelationSteps(ExtensionRelations(table, main)), done, err, ex, runs)
    ensures store.AcceptsEverything() ==> err.None?
    ensures store.ReadsReliable() && HoldsUpTo(old(store.State()), head + RelationSteps(ExtensionRelations(table, main)),
                                               |head + RelationSteps(ExtensionRelations(table, main))|)
      ==> ex == [] && err.None?
  {
    ghost var tail := RelationSteps(ExtensionRelations(table, main));
    ghost var s := store.State();
    if store.ReadsReliable() && HoldsUpTo(s, head + tail, |head + tail|) {
      SplitHolds(s, head, tail);
    }
    err, done, ex, runs := AttemptAll(store, head);
    if err.Some? {
      ProgressPrefix(store.State(), head, tail, done, err, ex, runs);
      return;
    }
    err, done, ex, runs := RunTail(store, head, table, main, s, old(store.posts), ex, runs);
  }

  /** The rest of the pass once the leading steps all went through. */
  method RunTail(store: Directus, head: seq<Step>, table: seq<RelationDef>, main: string,
                 ghost s: Schema, ghost before: seq<Exchange>, ghost ex: seq<Exchange>, ghost runs: seq<StepTrace>)
    returns (err: Option<ApiError>, ghost done: nat, ghost ex': seq<Exchange>, ghost runs': seq<StepTrace>)
    requires store.posts == before + ex && store.State() == Replay(s, ex)
    requires HoldsUpTo(store.State(), head, |head|) && Traced(head, |head|, None, ex, runs)
    modifies store
    ensures store.posts == before + ex' && store.State() == Replay(s, ex')
    ensures Progress(store.State(), head + RelationSteps(ExtensionRelations(table, main)), done, err, ex', runs')
    ensures store.AcceptsEverything() ==> err.None?
    ensures store.ReadsReliable() && ex == [] && HoldsUpTo(old(store.State()), RelationSteps(ExtensionRelations(table, main)),
                                                           |ExtensionRelations(table, main)|)
      ==> ex' == [] && err.None?
  {
    ghost var tail := RelationSteps(ExtensionRelations(table, main));
    ghost var mid := store.State();
    ghost var d, rest, more;
    err, d, rest, more := EnsureTableRelations(store, table, main);
    PassThenTail(s, mid, store.State(), head, tail, d, err, ex, runs, rest, more, store.ReadsReliable());
    AppendAssoc(before, ex, rest);
    done := |head| + d;
    ex' := ex + rest;
    runs' := runs + more;
  }

  /** `main()` once the client exists, over a catalog: the `try` block
      runs the dictionaries, the main collection and its relations, the
      extensions, then the table's other relations, stopping at the first
      failure; the `catch` block reports that failure, after which the
      process exits with status 1. The initialiser runs it over
      `Dictionaries`, `KosciolKatolicki`, `MainRelations`, `Extensions` and
      `Relations`, whose plan is `Plan()`. */
  method Reconcile(store: Directus, dicts: seq<CollectionDef>, main: CollectionDef, mainRels: seq<RelationDef>,
                   exts: seq<CollectionDef>, table: seq<RelationDef>)
    returns (outcome: Outcome<Report>, ghost err: Option<ApiError>, ghost done: nat, ghost ex: seq<Exchange>,
             ghost runs: seq<StepTrace>)
    modifies store
    ensures store.posts == old(store.posts) + ex
    ensures store.State() == Replay(old(store.State()), ex)
    ensures Progress(store.State(), PlanOf(dicts, main, mainRels, exts, table), done, err, ex, runs)
    ensures outcome.Pass? <==> err.None?
    ensures outcome.Fail? ==> outcome.error == Diagnose(err.value)
    ensures store.AcceptsEverything() ==>
      outcome.Pass? && HoldsUpTo(store.State(), PlanOf(dicts, main, mainRels, exts, table), |PlanOf(dicts, main, mainRels, exts, table)|)
    ensures store.ReadsReliable() && HoldsUpTo(old(store.State()), PlanOf(dicts, main, mainRels, exts, table), |PlanOf(dicts, main, mainRels, exts, table)|)
      ==> ex == [] && outcome.Pass?
  {
    var head := CollectionSteps(dicts) + [EnsureCollectionStep(main)] + RelationSteps(mainRels) + CollectionSteps(exts);
    var e;
    e, done, ex, runs := RunPlan(store, head, table, main.collection);
    err := e;
    outcome := if e.Some? then Fail(Diagnose(e.value)) else Pass;
  }

  /** Gluing the two parts of a pass together. */
  lemma PassThenTail(s: Schema, mid: Schema, t: Schema, head: seq<Step>, tail: seq<Step>, d: nat,
                     err: Option<ApiError>, ex: seq<Exchange>, rx: seq<StepTrace>, rest: seq<Exchange>, ry: seq<StepTrace>,
                     reliable: bool)
    requires mid == Replay(s, ex) && t == Replay(mid, rest)
    requires reliable && HoldsUpTo(mid, tail, |tail|) ==> rest == [] && err.None?
    requires HoldsUpTo(mid, head, |head|) && Traced(head, |head|, None, ex, rx) && Progress(t, tail, d, err, rest, ry)
    ensures t == Replay(s, ex + rest)
    ensures reliable && ex == [] && HoldsUpTo(mid, tail, |tail|) ==> ex + rest == [] && err.None?
    ensures Progress(t, head + tail, |head| + d, err, ex + rest, rx + ry)
  {
    ReplayConcat(s, ex, rest);
    ReplayIncludes(mid, rest);
    HoldsUpToKept(mid, t, head, |head|);
    ProgressConcat(t, head, tail, d, err, ex, rx, rest, ry);
  }

  lemma SplitHolds(s: Schema, a: seq<Step>, b: seq<Step>)
    requires HoldsUpTo(s, a + b, |a + b|)
    ensures HoldsUpTo(s, a, |a|) && HoldsUpTo(s, b, |b|)
  {
    assert forall i :: 0 <= i < |a| ==> (a + b)[i] == a[i];
    assert forall i :: 0 <= i < |b| ==> (a + b)[|a| + i] == b[i];
  }

  /** A plan whose every step holds leaves each step it contains holding. */
  lemma StepOfConverged(s: Schema, plan: seq<Step>, step: Step)
    requires HoldsUpTo(s, plan, |plan|) && step in plan
    ensures StepHolds(s, step)
  {
    var i :| 0 <= i < |plan| && plan[i] == step;
  }

  /** Once a whole plan holds, every collection of the catalog exists with
      all its declared fields, and every relation of the table is
      recognised in the relation list, provided the table relations the
      final loop skips are among the main collection's. */
  lemma PlanConverged(s: Schema, dicts: seq<CollectionDef>, main: CollectionDef, mainRels: seq<RelationDef>,
                      exts: seq<CollectionDef>, table: seq<RelationDef>)
    requires forall r :: r in table && r.many == main.collection ==> r in mainRels
    requires HoldsUpTo(s, PlanOf(dicts, main, mainRels, exts, table), |PlanOf(dicts, main, mainRels, exts, table)|)
    ensures forall d :: d in dicts + [main] + exts ==> Holds(s, d)
    ensures forall r :: r in table ==> AnyMatches(s.relations, r)
  {
    var plan := PlanOf(dicts, main, mainRels, exts, table);
    ShapeCoversCollections(dicts, main, mainRels, exts, table);
    ShapeCoversTable(dicts, main, mainRels, exts, table);
    forall d | d in dicts + [main] + exts
      ensures Holds(s, d)
    {
      StepOfConverged(s, plan, EnsureCollectionStep(d));
    }
    forall r | r in table
      ensures AnyMatches(s.relations, r)
    {
      StepOfConverged(s, plan, EnsureRelationStep(r));
    }
  }
}
