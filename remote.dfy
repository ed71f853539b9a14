/** The Directus instance the initialiser talks to, reduced to what it
    reads and creates: collection names, the field names of each
    collection, and the list of relation records. Whether a request fails
    is decided by an oracle over the request's position in the session and
    the request itself, which stands for the network, permissions and the
    server's own validation. */
module Remote {
  import opened Wrappers
  import opened Json
  import opened Catalog
  import opened RelationMatch

  /** A failed request as the HTTP client reports it: the server's response
      (undefined when none arrived) and the client's own message. */
  datatype ApiError = ApiError(response: JsValue, message: string)

  /** `GET /collections`, `GET /fields/<collection>`, `GET /relations`. */
  datatype Query = CollectionList | FieldList(collection: string) | RelationList

  /** `POST /collections`, `POST /fields/<collection>`, `POST /relations`.
      A field is sent with its whole definition; a relation with one of the
      two request bodies. */
  datatype Mutation =
    | CreateCollection(collection: string, icon: string, note: string)
    | CreateField(collection: string, def: FieldDef)
    | CreateRelation(shape: Shape, rel: RelationDef)

  datatype Request = Read(query: Query) | Write(mutation: Mutation)

  /** One POST and the error it failed with, if it failed. */
  datatype Exchange = Exchange(mutation: Mutation, error: Option<ApiError>)

  /** What the instance holds; a field is the pair of its collection's name
      and its own. */
  datatype Schema = Schema(collections: set<string>, fields: set<(string, string)>, relations: seq<Record>)

  /** The field names of one collection, as `GET /fields/<collection>`
      lists them. */
  function FieldsOf(s: Schema, collection: string): (names: set<string>)
    ensures forall f :: f in names <==> (collection, f) in s.fields
  {
    set p | p in s.fields && p.0 == collection :: p.1
  }

  /** The schema after an accepted POST. A created relation is listed back
      in the instance's own layout, whichever body created it. */
  function Apply(s: Schema, m: Mutation): (t: Schema)
    ensures Includes(s, t)
    ensures m.CreateCollection? ==> t.collections == s.collections + {m.collection} && t.fields == s.fields
    ensures m.CreateField? ==> t.fields == s.fields + {(m.collection, m.def.field)} && t.collections == s.collections
    ensures m.CreateRelation? ==> t.relations == s.relations + [StoredRecord(m.rel)] && t.collections == s.collections && t.fields == s.fields
    ensures !m.CreateRelation? ==> t.relations == s.relations
  {
    match m
    case CreateCollection(c, _, _) => s.(collections := s.collections + {c})
    case CreateField(c, fd) => s.(fields := s.fields + {(c, fd.field)})
    case CreateRelation(_, rel) => s.(relations := s.relations + [StoredRecord(rel)])
  }

  /** A created relation is recognised by the matcher from then on. */
  lemma CreatedRelationMatches(s: Schema, shape: Shape, rel: RelationDef)
    ensures AnyMatches(Apply(s, CreateRelation(shape, rel)).relations, rel)
  {
    var t := Apply(s, CreateRelation(shape, rel));
    StoredRecordMatches(rel, rel);
    assert Matches(t.relations[|s.relations|], rel);
  }

  function Last<T>(s: seq<T>): T
    requires s != []
  {
    s[|s| - 1]
  }

  predicate IsPrefix<T(==)>(a: seq<T>, b: seq<T>) {
    |a| <= |b| && a == b[..|a|]
  }

  /** Nothing is ever removed: collections and fields only accumulate and
      the relation list only grows at its end. */
  predicate Includes(s: Schema, t: Schema) {
    s.collections <= t.collections
    && s.fields <= t.fields
    && IsPrefix(s.relations, t.relations)
  }

  lemma IncludesTransitive(s: Schema, t: Schema, u: Schema)
    requires Includes(s, t) && Includes(t, u)
    ensures Includes(s, u)
  {
    assert s.relations == t.relations[..|s.relations|] == u.relations[..|t.relations|][..|s.relations|];
  }

  /** The collection of `def` exists and has every field `def` declares. */
  predicate Holds(s: Schema, def: CollectionDef) {
    def.collection in s.collections && forall f :: f in def.fields ==> (def.collection, f.field) in s.fields
  }

  lemma HoldsKept(s: Schema, t: Schema, def: CollectionDef)
    requires Holds(s, def) && Includes(s, t)
    ensures Holds(t, def)
  {
  }

  lemma MatchKept(s: Schema, t: Schema, rel: RelationDef)
    requires AnyMatches(s.relations, rel) && Includes(s, t)
    ensures AnyMatches(t.relations, rel)
  {
    var i :| 0 <= i < |s.relations| && Matches(s.relations[i], rel);
    assert t.relations[i] == s.relations[i];
  }

  /** The mutations of a run of POSTs, in order. */
  function Mutations(ex: seq<Exchange>): (ms: seq<Mutation>)
    ensures |ms| == |ex|
    ensures forall i :: 0 <= i < |ex| ==> ms[i] == ex[i].mutation
  {
    seq(|ex|, i requires 0 <= i < |ex| => ex[i].mutation)
  }

  predicate AllAccepted(ex: seq<Exchange>) {
    forall i :: 0 <= i < |ex| ==> ex[i].error.None?
  }

  /** The POSTs `ex` of a fail-fast walk over `plan`: a prefix of the plan
      in order, all accepted but the last, which failed with `err` when
      there is an error and ends the plan otherwise. */
  predicate FailFast(ex: seq<Exchange>, plan: seq<Mutation>, err: Option<ApiError>) {
    IsPrefix(Mutations(ex), plan)
    && (err.None? ==> |ex| == |plan| && AllAccepted(ex))
    && (err.Some? ==> ex != [] && AllAccepted(ex[..|ex| - 1]) && Last(ex).error == err)
  }

  /** The POSTs `ex` of a first-success walk over `plan`: a prefix of the
      plan in order, all failed but the last; the walk stops at the first
      accepted one, and `err` is the last failure when none was. */
  predicate FirstSuccess(ex: seq<Exchange>, plan: seq<Mutation>, err: Option<ApiError>) {
    IsPrefix(Mutations(ex), plan) && ex != []
    && (forall i :: 0 <= i < |ex| - 1 ==> ex[i].error.Some?)
    && (err.None? <==> Last(ex).error.None?)
    && (err.Some? ==> |ex| == |plan| && err == Last(ex).error)
  }

  /** The exchanges of POSTs that were all accepted. */
  function AcceptedRun(ms: seq<Mutation>): (ex: seq<Exchange>)
    ensures |ex| == |ms| && AllAccepted(ex) && Mutations(ex) == ms
  {
    seq(|ms|, i requires 0 <= i < |ms| => Exchange(ms[i], None))
  }

  lemma AcceptedRunSnoc(ms: seq<Mutation>, m: Mutation)
    ensures AcceptedRun(ms + [m]) == AcceptedRun(ms) + [Exchange(m, None)]
  {
  }

  /** Walking a whole plan with every POST accepted is a fail-fast run. */
  lemma FailFastComplete(plan: seq<Mutation>)
    ensures FailFast(AcceptedRun(plan), plan, None)
  {
    assert Mutations(AcceptedRun(plan)) == plan[..|plan|];
  }

  /** Stopping at the first failure is a fail-fast run. */
  lemma FailFastStopped(done: seq<Mutation>, m: Mutation, e: ApiError, plan: seq<Mutation>)
    requires IsPrefix(done + [m], plan)
    ensures FailFast(AcceptedRun(done) + [Exchange(m, Some(e))], plan, Some(e))
  {
    var ex := AcceptedRun(done) + [Exchange(m, Some(e))];
    assert ex[..|ex| - 1] == AcceptedRun(done);
    assert Mutations(ex) == done + [m];
  }

  lemma PrefixTransitive<T>(a: seq<T>, b: seq<T>, c: seq<T>)
    requires IsPrefix(a, b) && IsPrefix(b, c)
    ensures IsPrefix(a, c)
  {
    assert a == c[..|b|][..|a|];
  }

  /** The schema after a run of POSTs: every accepted one applied in
      order, the failed ones ignored. */
  function Replay(s: Schema, ex: seq<Exchange>): Schema {
    if ex == [] then s
    else
      var prev := Replay(s, ex[..|ex| - 1]);
      if Last(ex).error.None? then Apply(prev, Last(ex).mutation) else prev
  }

  lemma ReplaySnoc(s: Schema, ex: seq<Exchange>, e: Exchange)
    ensures Replay(s, ex + [e]) == if e.error.None? then Apply(Replay(s, ex), e.mutation) else Replay(s, ex)
  {
    assert (ex + [e])[..|ex|] == ex;
  }

  lemma {:induction false} ReplayConcat(s: Schema, a: seq<Exchange>, b: seq<Exchange>)
    ensures Replay(s, a + b) == Replay(Replay(s, a), b)
  {
    if b == [] {
      assert a + b == a;
    } else {
      var front := b[..|b| - 1];
      ReplayConcat(s, a, front);
      assert a + b == (a + front) + [Last(b)];
      assert b == front + [Last(b)];
      ReplaySnoc(s, a + front, Last(b));
      ReplaySnoc(Replay(s, a), front, Last(b));
    }
  }

  /** POSTs never remove anything. */
  lemma {:induction false} ReplayIncludes(s: Schema, ex: seq<Exchange>)
    ensures Includes(s, Replay(s, ex))
  {
    if ex != [] {
      ReplayIncludes(s, ex[..|ex| - 1]);
      IncludesTransitive(s, Replay(s, ex[..|ex| - 1]), Replay(s, ex));
    }
  }

  /** A fail-fast run that ends without an error accepted the whole plan. */
  lemma FailFastAccepted(ex: seq<Exchange>, plan: seq<Mutation>)
    requires FailFast(ex, plan, None)
    ensures ex == AcceptedRun(plan)
  {
    assert Mutations(ex) == plan;
    assert forall i :: 0 <= i < |ex| ==> ex[i] == Exchange(plan[i], None);
  }

  class Directus {
    var collections: set<string>
    var fields: set<(string, string)>
    var relations: seq<Record>
    /** Number of requests sent so far. */
    var sent: nat
    /** Every POST sent, with its outcome. */
    var posts: seq<Exchange>
    /** Whether the request sent as number `t` fails, and how. */
    const verdict: (nat, Request) -> Option<ApiError>

    constructor (schema: Schema, verdict: (nat, Request) -> Option<ApiError>)
      ensures State() == schema && sent == 0 && posts == [] && this.verdict == verdict
    {
      collections := schema.collections;
      fields := schema.fields;
      relations := schema.relations;
      sent := 0;
      posts := [];
      this.verdict := verdict;
    }

    function State(): Schema
      reads this
    {
      Schema(collections, fields, relations)
    }

    /** No read ever fails. */
    ghost predicate ReadsReliable() {
      forall t, q :: verdict(t, Read(q)).None?
    }

    /** No POST ever fails. */
    ghost predicate AcceptsEverything() {
      forall t, m :: verdict(t, Write(m)).None?
    }

    predicate ReadFails(t: nat, q: Query) {
      verdict(t, Read(q)).Some?
    }

    method ListCollections() returns (r: Result<set<string>, ApiError>)
      modifies this
      ensures sent == old(sent) + 1 && State() == old(State()) && posts == old(posts)
      ensures r.Failure? <==> ReadFails(old(sent), CollectionList)
      ensures r.Success? ==> r.value == collections
    {
      var verdict := verdict(sent, Read(CollectionList));
      sent := sent + 1;
      r := if verdict.Some? then Failure(verdict.value) else Success(collections);
    }

    method ListFields(collection: string) returns (r: Result<set<string>, ApiError>)
      modifies this
      ensures sent == old(sent) + 1 && State() == old(State()) && posts == old(posts)
      ensures r.Failure? <==> ReadFails(old(sent), FieldList(collection))
      ensures r.Success? ==> r.value == FieldsOf(State(), collection)
    {
      var verdict := verdict(sent, Read(FieldList(collection)));
      sent := sent + 1;
      r := if verdict.Some? then Failure(verdict.value) else Success(FieldsOf(State(), collection));
    }

    method ListRelations() returns (r: Result<seq<Record>, ApiError>)
      modifies this
      ensures sent == old(sent) + 1 && State() == old(State()) && posts == old(posts)
      ensures r.Failure? <==> ReadFails(old(sent), RelationList)
      ensures r.Success? ==> r.value == relations
    {
      var verdict := verdict(sent, Read(RelationList));
      sent := sent + 1;
      r := if verdict.Some? then Failure(verdict.value) else Success(relations);
    }

    /** Sends one POST; the schema changes only when it is accepted. */
    method Post(m: Mutation) returns (err: Option<ApiError>)
      modifies this
      ensures err == verdict(old(sent), Write(m))
      ensures AcceptsEverything() ==> err.None?
      ensures sent == old(sent) + 1
      ensures posts == old(posts) + [Exchange(m, err)]
      ensures State() == if err.None? then Apply(old(State()), m) else old(State())
    {
      err := verdict(sent, Write(m));
      sent := sent + 1;
      posts := posts + [Exchange(m, err)];
      if err.None? {
        match m
        case CreateCollection(c, _, _) =>
          collections := collections + {c};
        case CreateField(c, fd) =>
          fields := fields + {(c, fd.field)};
        case CreateRelation(_, rel) =>
          relations := relations + [StoredRecord(rel)];
      }
    }
  }
}
