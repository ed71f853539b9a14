# KatalogKosciolow core, modelled in Dafny

This project models the two pieces of logic in the church-catalogue backend.

1. **The Directus schema initialiser** (`scripts/init-db.js`). It brings a
   Directus instance up to the catalogue schema and never deletes anything.
   It covers:
   - eleven collection definitions: three dictionaries, the main
     `kosciol_katolicki` collection and seven extensions;
   - the many-to-one relation table;
   - the fail-open reads of the collection list, of a collection's field
     names and of the relation list;
   - `ensureCollection`, the alias-tolerant `relationMatches`, and
     `ensureRelation` with its two request bodies;
   - the fail-fast plan of `main`, with the message it reports on failure.
2. **The ingestion preprocessing** (`src/processor.js`):
   - `slugify`;
   - `validateChurchPayload` and `checkBotActive`;
   - the record built by `toChurchRecord`;
   - the `processChurchTask` pipeline with its linear probe for a free slug.

The Directus instance is the class `Remote.Directus`. Its state is a set of
collection names, a set of (collection, field) pairs and a sequence of
relation records. An oracle `verdict(t, request)` decides whether the t-th
request of the session fails. It stands for the network, permissions and the
server's own validation. The class logs every POST together with the error it
got. `Replay` recomputes the schema from that log, so each method states its
new state as `Replay(old state, exchanges)`. The method then relates the
exchanges to the request list the source would send:
- `FailFast` means every request accepted, or stopped at the first refusal.
- `FirstSuccess` means tried in order until one is accepted.

Modules, one per file:
- `wrappers.dfy`: `Option`, `Result` and `Outcome`.
- `json.dfy`: JavaScript values, truthiness, `??`, `||`, optional chaining and `String(x)`.
- `jstext.dfy`: JavaScript white space and `trim`.
- `decimal.dfy`: the decimal rendering of a counter.
- `slug.dfy`: `slugify`.
- `processor.dfy`: the rest of `src/processor.js`.
- `catalog.dfy`: the catalogue constants, the plan and its well-formedness.
- `relations.dfy`: `relationMatches` and the request bodies.
- `remote.dfy`: the Directus instance.
- `reconciler.dfy`: the initialiser's operations.

## Model

| member | source | states |
|---|---|---|
| Reconciler.GetCollections | scripts/init-db.js:228-232 | one GET is sent and nothing is written; the result is the instance's collection set, or the empty set when the read fails |
| Reconciler.GetFieldNames | scripts/init-db.js:235-239 | one GET is sent and nothing is written; the result is exactly the collection's field names, or the empty set when the read fails |
| Reconciler.GetRelations | scripts/init-db.js:242-246 | one GET is sent and nothing is written; the result is the instance's relation list, or the empty list when the read fails |
| Reconciler.FieldPostsMembers | scripts/init-db.js:257-264 | the field loop posts a field exactly when it is declared and its name is not among the names read, always to the collection at hand |
| Reconciler.FieldPostsAll | scripts/init-db.js:275-278 | for a new collection every declared field is posted, in declaration order, one POST per field |
| Reconciler.ExistingCollectionRequests | scripts/init-db.js:254-265 | for a collection already present, only field POSTs are sent, no create-collection request, and each missing declared field is among them |
| Reconciler.AbsentCollectionRequests | scripts/init-db.js:268-278 | for an absent collection the first request creates it, with icon defaulting to `folder` and note to the empty string, followed by every field in order |
| Reconciler.NothingMissing | scripts/init-db.js:254-265 | a present collection gets no POST at all exactly when every declared field name was read back |
| Reconciler.CollectionRequestsEstablish | scripts/init-db.js:249-279 | once all requests of `ensureCollection` are accepted, the collection exists with every declared field |
| Reconciler.PostFields | scripts/init-db.js:257-264 | the field loop with `continue` posts the requests in order and stops at the first refused POST, whose error it returns; earlier fields stay created; one request is sent per POST; a store that accepts every POST never fails it |
| Reconciler.PostField | scripts/init-db.js:262 | one field POST: exactly one request is sent; accepted, the run so far grows by that field; refused, the run is a complete fail-fast run of the field list ending with that error; a store that accepts every POST never fails it |
| Reconciler.CreateWithFields | scripts/init-db.js:268-278 | create the collection, then post every field; a refused creation stops the call before any field POST; a store that accepts every POST never fails it |
| Reconciler.PostCreate | scripts/init-db.js:268-272 | one creation POST, with the icon defaulting to `folder` and the note to an empty string: exactly one request is sent; refused, it is a complete fail-fast run of the collection's requests; a store that accepts every POST never fails it |
| Reconciler.CollectionEnsured | scripts/init-db.js:249-279 | an `ensureCollection` run that ends without error leaves the collection present with all its declared fields |
| Reconciler.EnsureCollection | scripts/init-db.js:249-279 | the collection is treated as present iff the list read succeeded and named it; the POSTs are exactly the fail-fast run of the request list that follows; success leaves the collection complete; one GET for an absent collection and two for a present one, plus one request per POST; a store that accepts every POST never fails it |
| Reconciler.HeldCollectionIdle | scripts/init-db.js:254-265 | against a store that already holds the collection with all its fields, the field loop sends nothing and succeeds |
| Reconciler.RelationRequests | scripts/init-db.js:297-315 | exactly two request bodies, in the order collection/field first, many/one second |
| Reconciler.TryShape | scripts/init-db.js:318-324 | one POST of the k-th body; an accepted one makes a matching relation appear and ends the attempts; a store that accepts every POST never fails it |
| Reconciler.ShapeAccepted | scripts/init-db.js:317-321 | after refused earlier bodies, an accepted next body completes a first-success run of the request bodies |
| Reconciler.ShapesRefusedSnoc | scripts/init-db.js:317-324 | a refused next body extends the in-order run of refused bodies by one |
| Reconciler.EnsureRelation | scripts/init-db.js:289-327 | no POST iff the relation read succeeded and some record matches; otherwise the bodies are tried in order until the first success; with both refused the error is the second body's; one GET plus one request per POST; a store that accepts every POST never fails it |
| Reconciler.TryShapes | scripts/init-db.js:316-326 | the two bodies are posted in order until one is accepted, one request each: a first-success run whose success leaves a matching relation listed; a store that accepts every POST never fails it |
| Reconciler.AllShapesFailed | scripts/init-db.js:316-326 | two refused attempts make a complete first-success run that ends with the last error |
| Reconciler.Attempt | scripts/init-db.js:344-371 | one step of the plan: success means the step holds afterwards; failure names a request of that step; the POSTs form that step's own run (fail-fast for a collection, first-success or nothing for a relation); with reliable reads, a step that already holds sends nothing; a store that accepts every POST never fails it |
| Reconciler.AttemptNext | scripts/init-db.js:342-372 | one step inside the pass: earlier steps still hold, the trace of steps so far grows by exactly this step's run, and a failure is attributed to this step; a store that accepts every POST never fails it |
| Reconciler.AttemptAll | scripts/init-db.js:342-372 | steps run in order, one run per step in the trace: every step before the stopping point ran to success and holds, the step at the stopping point ran and ended with the error, no later step sent anything; the pass fails iff some step failed; a converged store sees no POST; a store that accepts every POST never fails it |
| Reconciler.EnsureTableRelations | scripts/init-db.js:369-372 | the final loop skips table rows whose many side is the main collection and ensures the others in order, one traced run per row, stopping at the first failure; a store that accepts every POST never fails it |
| Reconciler.TableEntry | scripts/init-db.js:369-371 | one table row: a row starting from the main collection is skipped with nothing sent; any other is ensured as the next traced step, and a failure stops the loop there; a store that accepts every POST never fails it |
| Reconciler.ReportedMessage | scripts/init-db.js:376-379 | the `||` chain ends in a truthy message or, failing that, in the client's own message; the lemmas below fix which alternative wins |
| Reconciler.Diagnose | scripts/init-db.js:380 | what is printed: the message when truthy, else the response body when truthy, else the raw error, which then has an empty message |
| Reconciler.DirectusErrorReported | scripts/init-db.js:376-377 | a Directus error list reports its first error's message |
| Reconciler.BodyMessageReported | scripts/init-db.js:378 | a body with only `message` reports that message |
| Reconciler.NoResponseReported | scripts/init-db.js:379 | with no response the client's message is reported |
| Reconciler.EmptyFirstErrorFallsThrough | scripts/init-db.js:376-379 | an empty first error message is skipped in favour of the next alternative |
| Reconciler.RunPlan | scripts/init-db.js:342-372 | the fixed steps and then the relation loop form one fail-fast pass: a single trace, in order, that stops at the first failing step; a store that accepts every POST never fails it |
| Reconciler.RunTail | scripts/init-db.js:368-372 | after the fixed steps all succeeded, the relation loop continues the same trace; a converged tail sends nothing; a store that accepts every POST never fails it |
| Reconciler.TracedConcat | scripts/init-db.js:342-372 | a completed in-order pass followed by a second pass makes one in-order pass over the joined steps, with the runs and the POSTs joined |
| Reconciler.FailedRunJoined | scripts/init-db.js:342-372 | the failing run of the second part keeps its step in the joined pass |
| Reconciler.TracedSnoc | scripts/init-db.js:342-372 | appending one step's run extends the in-order trace by that step, and an error run closes it |
| Reconciler.SnocRuns | scripts/init-db.js:342-372 | one more run after the error-free runs of the first steps keeps those runs in place and appends its POSTs to the log |
| Reconciler.Reconcile | scripts/init-db.js:330-383 | `main` over a catalogue: the POSTs are the in-order, stop-at-first-error pass over the plan, one traced run per step; the outcome passes iff no step failed, a failure carries the diagnosed error of the step that stopped the pass, and a store that already holds the whole plan gets no POST; against a store that accepts every POST the outcome is a pass and every step of the plan holds afterwards |
| Reconciler.PlanConverged | scripts/init-db.js:342-372 | once the whole plan holds, every collection of the catalogue is complete and every relation of the table is matched |
| Catalog.FieldNamesUnique | scripts/init-db.js:28-211 | no collection definition declares the same field name twice |
| Catalog.MainKeysDeclared | scripts/init-db.js:95-101 | the keys of the main collection's six relations are fields it declares |
| Catalog.ExtensionKeysDeclared | scripts/init-db.js:121 | every extension declares `kosciol_id` |
| Catalog.MainRelationsFitCatalog | scripts/init-db.js:352-357 | the main collection's relations start from it, use declared keys and point to a dictionary or to `directus_files` |
| Catalog.TableRelationsFitCatalog | scripts/init-db.js:214-225 | each table row not starting from the main collection starts from an extension that declares its key and points to the main collection, a dictionary or `directus_files` (that it is the main collection is `Catalog.TableEnds`) |
| Catalog.TableEnds | scripts/init-db.js:214-225 | the first three table rows start from the main collection and the other seven point to it |
| Catalog.ShapeWellOrdered | scripts/init-db.js:342-372 | in any catalogue whose relations fit it, every relation is ensured after both of its ends |
| Catalog.PlanWellOrdered | scripts/init-db.js:342-372 | the initialiser's plan never ensures a relation before the collection holding its key, with that key declared, and the collection it points to |
| Catalog.ExtensionRelationsOfTable | scripts/init-db.js:369-372 | the final loop ensures exactly the last seven table rows, in table order |
| Catalog.ShapeCoversTable | scripts/init-db.js:351-372 | when the skipped rows are all among the main collection's relations, every table row is ensured by the plan |
| Catalog.PlanCoversTable | scripts/init-db.js:214-225 | every row of the relation table is ensured by the plan, among the main relations or by the final loop |
| Catalog.ShapeRelationsOnce | scripts/init-db.js:344-372 | in any catalogue whose main relations are distinct and start from the main collection and whose final-loop rows are distinct, no relation step occurs twice in the plan |
| Catalog.MainRelationsDistinct | scripts/init-db.js:352-357 | the six main relations are distinct and all start from the main collection |
| Catalog.ExtensionRelationsDistinct | scripts/init-db.js:218-224 | the seven rows of the final loop are distinct |
| Catalog.PlanRelationsOnce | scripts/init-db.js:342-372 | the plan ensures each relation exactly once: with `PlanCoversTable`, each table row once |
| Catalog.PlanCoversCollections | scripts/init-db.js:344-366 | every one of the eleven collection definitions is ensured by the plan |
| Catalog.ShapeCoversCollections | scripts/init-db.js:344-366 | in any catalogue, the plan ensures every dictionary, the main collection and every extension |
| Catalog.ExtensionRelations | scripts/init-db.js:369-371 | the rows kept are exactly the table rows whose many side is not the main collection |
| RelationMatch.FirstPresent | scripts/init-db.js:283-285 | a `??` chain yields the first non-nullish alias, and is nullish only when all aliases are |
| RelationMatch.MatchesIffFirstAliases | scripts/init-db.js:282-287 | a record matches iff, for each of the three attributes, the first present alias equals the wanted name |
| RelationMatch.TopLevelAliasWins | scripts/init-db.js:283 | a present top-level alias naming another collection rules the record out, whatever the lower aliases say |
| RelationMatch.MetaAliasBeatsFlat | scripts/init-db.js:283 | with no top-level alias, a `meta` alias naming another collection rules the record out even when the flat one agrees |
| RelationMatch.FlatRecordMatches | scripts/init-db.js:282-287 | a record in the flat layout matches its own relation and no other |
| RelationMatch.MetaRecordMatches | scripts/init-db.js:282-287 | a record in the `meta` layout matches its own relation and no other |
| RelationMatch.TopLevelRecordMatches | scripts/init-db.js:282-287 | a record in the top-level layout matches its own relation and no other |
| RelationMatch.StoredRecordMatches | scripts/init-db.js:282-287 | the record the instance lists back matches its own relation and no other |
| RelationMatch.Payload | scripts/init-db.js:297-315 | the key sets of the two request bodies |
| RelationMatch.CollectionFieldPayloadMatches | scripts/init-db.js:298-308 | the first body, read as a record, matches its relation |
| RelationMatch.ManyOnePayloadNeverMatches | scripts/init-db.js:309-314 | the second body uses keys the matcher never reads, so as a record it matches no relation at all, its own included |
| Remote.Apply | scripts/init-db.js:262-276 | an accepted POST only adds: a collection, a field, or a relation record at the end of the list |
| Remote.CreatedRelationMatches | scripts/init-db.js:319 | a relation created with either body is then listed by a record that matches it |
| Remote.ReplayIncludes | scripts/init-db.js:249-279 | whatever the POSTs and their outcomes, the collections, the fields and the relation list only grow |
| Remote.FailFastAccepted | scripts/init-db.js:257-278 | a fail-fast run without an error accepted every request of its list |
| Remote.Directus.Post | scripts/init-db.js:262 | one POST: exactly one request is sent and logged with the verdict it got; accepted, the schema gains what the request creates; refused, the schema is unchanged; a store that accepts every POST never refuses one |
| Remote.Directus.ListCollections | scripts/init-db.js:228-232 | one GET of the collection list, nothing written; on success it returns the instance's collections |
| Remote.Directus.ListFields | scripts/init-db.js:235-239 | one GET of a collection's fields, nothing written; on success it returns exactly that collection's field names |
| Remote.Directus.ListRelations | scripts/init-db.js:242-246 | one GET of the relation list, nothing written; on success it returns the instance's relation records |
| Slug.KeepAllowed | src/processor.js:22 | filtering leaves only `[a-z0-9]`, white space and dashes, and keeps every letter and digit |
| Slug.KeepAllowedFilter | src/processor.js:22 | the filter acts character by character: a character is kept, in place, exactly when it is a letter, digit, white space or dash |
| Slug.LowerHasNoCapitals | src/processor.js:20 | no ASCII capital survives lower-casing |
| Slug.FoldLeavesNoPolish | src/processor.js:16-21 | no letter of the diacritic table survives the replacement |
| Slug.SpacesToDash | src/processor.js:23 | white-space runs become dashes without touching letters or digits; filtered input comes out in `[a-z0-9-]` |
| Slug.SpacesToDashNoSpace | src/processor.js:23 | text without white space passes the white-space replacement unchanged |
| Slug.SpaceRunToDash | src/processor.js:23 | a maximal white-space run between two pieces becomes exactly one dash there, and each piece is replaced as it would be alone |
| Slug.SquashDashes | src/processor.js:23 | no two dashes in a row afterwards; letters, digits and the leading dash are kept |
| Slug.SquashDashesNoDash | src/processor.js:23 | text without dashes passes the dash replacement unchanged |
| Slug.DashRunToDash | src/processor.js:23 | a maximal run of dashes between two pieces becomes exactly one dash there, and each piece is squashed as it would be alone |
| Slug.TrimDashesShape | src/processor.js:24 | after the edge dashes go, a squashed string has no dash at either end and keeps its letters and digits |
| Slug.SlugCoreShape | src/processor.js:20-24 | the replacement chain yields a slug whose letters and digits are exactly the lowered, folded letters and digits of the name |
| Slug.PolishLettersFold | src/processor.js:16-21 | every Polish diacritic, capital or small, becomes its ASCII letter |
| Slug.SlugifyShape | src/processor.js:14-25 | the empty string exactly for a non-string or empty input, otherwise a slug: `[a-z0-9-]` only, no `--`, no dash at either end |
| Slug.SlugifyStringIsSlug | src/processor.js:20-24 | a non-empty string always gives a non-empty slug |
| Slug.SlugifyContent | src/processor.js:20-24 | `kosciol` when nothing alphanumeric survives, otherwise the slug spells the name's transliterated letters and digits |
| Slug.SlugCoreJoinsWords | src/processor.js:20-24 | two slugs separated by white space come out of the replacement chain as the two slugs joined by one dash |
| Slug.SlugifyJoinsWords | src/processor.js:14-25 | `slugify` of two slugs separated by a white-space run is the two slugs joined by exactly one dash |
| Slug.SlugifyFixesSlugs | src/processor.js:14-25 | a slug is its own slug |
| Slug.SlugCoreFixesSlugs | src/processor.js:20-24 | a slug passes through the replacement chain unchanged |
| Slug.SlugifyIdempotent | src/processor.js:14-25 | `slugify` is idempotent on its non-empty outputs |
| JsText.TrimStart | src/processor.js:20 | drops exactly the leading white space |
| JsText.TrimEnd | src/processor.js:20 | drops exactly the trailing white space |
| JsText.TrimIdentity | src/processor.js:50 | a string with no white space at either end is its own trim |
| Decimal.DecimalRoundTrip | src/processor.js:104 | the decimal rendering of the probe counter reads back as the counter |
| Decimal.DecimalInjective | src/processor.js:104 | distinct counters render differently |
| Decimal.NatToDecimal | src/processor.js:104 | the counter's text is non-empty, digits only, with a leading zero only for zero |
| Processor.ValidateChurchPayload | src/processor.js:32-41 | valid iff a non-array object whose `nazwa` is a string with a non-space character; otherwise the matching message |
| Processor.CheckBotActive | src/processor.js:68-73 | allowed iff the flag is exactly `true`, otherwise the bot-disabled message |
| Processor.RecordName | src/processor.js:50 | `nazwa` is the trimmed string name, empty when the name is absent or null |
| Processor.OptionalText | src/processor.js:55-58 | null exactly for a nullish input, the string itself for a string |
| Processor.ToChurchRecord | src/processor.js:49-60 | the trimmed name; the given slug, or the slug of the trimmed name when none is given |
| Processor.RecordTextFields | src/processor.js:55-58 | `opis_seo`, `styl_architektoniczny` and `adres_full` are null iff nullish in the input, and copied when they are strings |
| Processor.RecordPeople | src/processor.js:56 | `ludzie` is kept iff it is an object, otherwise null |
| Processor.RecordMetadata | src/processor.js:59 | `metadata` is kept iff it is an object, otherwise it is a copy of the whole input |
| Processor.CandidateInjective | src/processor.js:100-105 | the probe never tries the same slug twice |
| Processor.CandidatesBelowSize | src/processor.js:100-105 | the first n probes try n distinct slugs |
| Processor.CandidateIsSlug | src/processor.js:104 | appending a dash and a counter to a slug gives a slug |
| Processor.CandidateReadsBack | src/processor.js:100-105 | probe step 0 tries the slug itself and step n tries the slug, a dash and n in decimal, which reads back as n |
| Processor.ValidNameHasSlug | src/processor.js:90-97 | a validated name always has a non-empty slug, so the `kosciol` fallback never fires |
| Processor.ProbeFreeSlug | src/processor.js:99-107 | the first of `slug`, `slug-1`, … not yet stored; all earlier ones are stored; at most one try per stored slug |
| Processor.ProcessChurchTask | src/processor.js:84-111 | the bot check comes before validation and each refusal returns its message; success iff both pass; the record is `toChurchRecord` with a non-empty slug, either `slugify(nazwa)` or the first free candidate |

## Left out

- Console output, `dotenv`, the token check and `process.exit` in `main` are I/O and are not modelled; `Reconcile` returns the outcome that `main` prints.
- `createDirectusClient` (config/AuthService.js) is not part of this model. The HTTP client becomes the `Remote.Directus` class and its failure oracle.
- The route in server/routes/church-task.post.js and nuxt.config.ts are I/O glue and are not part of this model. The route's `slugExists` query becomes a set of stored slugs.
- Reconciler.Reconcile: it is stated for any catalogue. No method applies it to the eleven constant definitions, because unfolding them inside a method's proof is too expensive for the verifier. The constant plan's properties are proved separately: `Catalog.PlanWellOrdered`, `Catalog.PlanCoversTable` and `Catalog.PlanCoversCollections`.
- Response envelopes are not modelled: a read's result may be a bare array or `{ data: [...] }`, and the server is taken to return the list itself.
- Null entries in a listed collection or relation list are not modelled. In the source they raise a `TypeError`.
- Reconciler.Attempt: "a step that already holds sends nothing" is stated only for a store whose reads never fail. A failed read is taken as an empty list, and then the source posts again.
- Remote.Directus.Post: a POST the server committed but the client reported as failed (for example when the response misses the client's 15-second timeout) is modelled as leaving the schema unchanged. The verdict decides both the outcome and the effect. So the exact state `Replay` computes assumes a refused POST changed nothing; the growth of the schema (`Remote.ReplayIncludes`) holds either way.
- Remote.Apply: the instance is assumed to list a created relation with its names both flat and under `meta`. How Directus stores relations is outside the source.
- Field types, schema options and interfaces are opaque tags. Floats and geometry carry no numbers.
- Fields are kept as (collection, name) pairs. The instance's field metadata is not modelled.
- Writers racing against the initialiser are not modelled, and neither is the read-then-write race between them; the source makes no attempt to coordinate.
- `async`/`await` are not modelled: the code is sequential. A `slugExists` that throws is not modelled; the route turns its errors into `false`.
- JavaScript `String(x)` of arbitrary values is modelled only for the JSON values here (strings, numbers as integers, booleans, null, arrays, objects). The identity added by the server when a record is stored is not modelled.
- Slug.Lower: it maps only the capitals whose lower case can survive the filter. These are the ASCII capitals, the Polish capitals, the dotted capital I and the Kelvin sign. Every other code point is kept as it is, and the filter drops it anyway.
- Strings are sequences of Unicode scalar values rather than UTF-16 code units. `\s` is the ECMAScript white-space and line-terminator set.
