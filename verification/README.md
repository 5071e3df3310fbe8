# Verified model of the RabbitMQ management client and its scripts

The repository generates OpenAPI documents for RabbitMQ's management API, serves them
through a client with a rate limiter, a circuit breaker and retries, and has two report
scripts. This project models the algorithms with the most state and branching and proves
what they promise, for all inputs and all runs.

**The OpenAPI generator.** A schema is its ordered dictionary (`Schemas`), because the
generator compares `OrderedDict`s. `Covers` is a strict reading: a schema covers the values
it holds evidence for, so `{}` covers nothing. Merging (`SchemaMerge`) is an upper bound for
it, hence enrichment (`Enrichment`) loses no evidence and, for a document built from the
reference table (`OpenApiBuild`), a published operation covers every documented example and
every used observation (`EnrichmentRuns` and `BuiltDocument` say so on observations and rows).
`TemplateLaws` and `ExpansionLaws` say what templates match and how they are filled, on the
text itself. `CoversIsAccepted` carries this over to the usual open reading, and
`OneOfReading` says when a schema also takes its own value if exactly one branch of a
`oneOf` may hold. `PathExtraction` finds the paths a table cell mentions. The YAML
printer (`YamlPrinter`) is inverted by an independent reader (`YamlReader`); `YamlLayout`
pins its exact text.

**The coverage filter.** `RustTokens` is a grammar of tokens with nested comments, and
`TokenShapes` says which texts they are;
`RustScanner` is the hand-written scanner, proved to find the closing brace of a module
exactly when the grammar has one; `RustCharLiterals` compares its tokens with Rust's
character literals. `CoverageFilter` is the filter built on it; `KeptLines` states which lines
of a record stay, and `CoverageReport` what happens to a report as a whole, from source text to
line.

**The resilience stack.** `CircuitBreaker`, `RateLimiter` and `ApiClient`, with `RetryLoop`
inside it, are state machines over their critical sections, with a clock reading in each step,
and any interleaving of calls; the classes are the code, tied to the steps by their contracts.

**Caches and publication.** `QueryCache` (arbitrary eviction), `StorePublication` (processes
sharing a directory), `SharedConnection` (look-up, build outside the lock, insert if absent)
and `ProfileFold` (bisection and memoisation against the plain forms; `ProfileLaws` says what
is counted).

`Options`, `Sequences`, `OrderedDicts`, `TextLines`, `Hexadecimal`, `Unsigned32` and `Json` are shared
vocabulary.

## What turned out to be conditional

- If exactly one branch of a `oneOf` may hold, a schema takes the value it was inferred
  from, or first observed from, if and only if the value is like itself
  (`OneOfReading.InferTakesOwn`, `ObserveTakesOwn`; `Like` speaks of values only, and counts
  a float without a fractional part as an integer, as JSON Schema does). Each item of a mixed
  array is then taken by its own branch if and only if no item is like another one
  (`TakesOwnIffApart`), and for leaves that means: kinds pairwise different and no integer
  beside a float (`LeavesUnlike`). `[1, "a", 1]`, `[1, 1.5]` and
  `[{"a": 1, "b": 1.5}, {"a": 2.0, "b": 3}]` fail it (`RepeatedKindFails`,
  `IntegerBesideFloatFails`, `WholeFloatFails`), and so do the documented examples 1 and 2.0
  (`WholeFloatExampleFails`). An item need not be taken by its own branch: `ForeignBranch` is
  a list that its schema takes although its first item is not like itself.
- Observing the same value twice in a row is observing it once if and only if the value is an
  object and the schema an object's (or empty), or both are arrays'
  (`SchemaMerge.RepeatedObservation`). Everywhere else the marked schema and the unmarked one
  of the value become two branches, and a leaf that is observed twice is no longer taken
  (`OneOfReading.ObserveTwiceTakesOwn`).
- `merge(s, s) == s` holds for every well-formed schema, with or without markers.
- A built document is valid if and only if no two paths that its rows ask for with the same
  method join to the same text (`BuiltDocument.BuiltIsValidIff`); `build_openapi` itself
  does not notice, `validate_document` does. `BuiltAndInvalid` is a table with `/api/a-b` and
  `/api/a/b`.
- As text, filtering a coverage report twice is filtering it once if and only if some line
  of the report is not an end marker (`CoverageFilter.FilterTextIsIdempotent`): an empty
  result is written as one empty line, and a second pass reads that as a record
  (`EmptyReportGrows`).
- The scanner reads `'\x41'` and `'\u{41}'` character by character. Its token boundaries
  include Rust's if and only if no such literal is followed at once by what ends a character
  literal for the scanner (`RustCharLiterals.AgreesIffNoStraddle`); then it finds Rust's
  closing brace (`FindsRustClosing`). `StraddledModule` is `'\u{41}','{'}`.
- The limiter reads its clock before it takes its lock. Its bound survives readings in any
  order if and only if the limit is at most one or the window is empty
  (`RateLimiter.OrderMatters`); with readings in lock order it always holds.
- The breaker's counter is a wrapping 32-bit integer (the release build's arithmetic). The
  opening time is the last completed call until 2^32 failures in a row
  (`CircuitBreaker.BreakerRefinesHistory`); `WrappedCounterAdmits` is a run in which it is
  not, and `FailureDatesBreaker` says exactly which failures date the breaker.
- A half-open breaker lets every caller through until some call completes, while the
  comment at `src/core/circuit_breaker.rs:44-47` speaks of one trial call. The calls let
  through are exactly those that start after the timeout and before the next completion
  (`CircuitBreaker.TrialsAreLateStarts`), so there is one trial call if and only if one call
  starts then; `TwoTrialCalls` is a run with two. The pacing bound is stated for calls made
  one after the other.
- The client's scan and the generator's pattern see the same holes in a path if and only if
  every opening brace of the path starts a hole (`PathTemplates.ExpandIsExact`);
  `UnclosedHole` is the path `/{x`.
- The retry loop gives up on a service that never answers if and only if `retry_attempts`
  is below the largest 32-bit value (`RetryLoop.Dispatch`, `GivesUpBelowMax`): its counter
  wraps before it exceeds that value. The sends of a client are bounded under the same
  condition and no other, in every interval (`ApiClient.SendsAreBoundedIff`).
- Bisection agrees with a linear scan at every address if and only if the sorted, disjoint
  ranges lie end to end (`ProfileFold.BisectionIsExact`): a symbol without a size inside
  another one hides the rest of it (`SizelessSymbolHides`). On ranges that may share
  addresses they agree everywhere if and only if they do where a range starts or ends
  (`AgreementAtEdges`); two names for one range are told differently (`AliasesDiffer`).
- The frames of a folded stack can be told from its text if and only if no name has a
  semicolon (`ProfileLaws.FoldedSplits`); Rust's names of arrays have one.
- A cached value is answered for its whole time to live as long as the keys stored since the
  last clear fit into the cache (`QueryCache.Get`); beyond that any entry may be evicted, and
  only what was just stored is certain.
- A process that has published its store file finds its own image there exactly while the
  image published last is that one, and so as long as no process of another build publishes
  the same version (`StorePublication.OwnImageIff`). `OtherBuildShadows` is a run in which
  another build's live process replaces it later, a case that the comment at
  `src/data/store.rs:55-58`, which is about leftovers of an earlier installation, does not
  consider.

## Model

| member | source | states |
|---|---|---|
| YamlReader.DumpRoundTrip | scripts/generate_openapi.py:635-679 | the reader gives back every value from its printed text: empty and nested containers, lists in lists, any string |
| YamlReader.BlockRoundTrip | scripts/generate_openapi.py:647-675 | a printed block is read back and reading stops before any shallower line that follows |
| YamlReader.DumpIsInjective | scripts/generate_openapi.py:678-679 | two different values never have the same text |
| YamlLayout.EntryLayout | scripts/generate_openapi.py:647-660 | an entry is the quoted key and a colon, the value after a space, or below it and two spaces further in when it has entries or items |
| YamlLayout.ItemLayout | scripts/generate_openapi.py:661-673 | an item is a dash, the value after a space, or below it and two spaces further in |
| YamlLayout.LinesShift | scripts/generate_openapi.py:647-675 | a block written deeper is the same block with spaces before every line |
| YamlLayout.EscapeIsShortest | scripts/generate_openapi.py:635-644 | every character is written by the shortest of the texts that read back as it, with small hexadecimal digits |
| YamlLayout.NumeralIsPlain | scripts/generate_openapi.py:642-643 | no numeral begins with a needless zero |
| YamlLayout.CodesAreRead | scripts/generate_openapi.py:635-644 | the reader takes every four-digit escape for the character with that code |
| YamlLayout.FloatTextsAre | scripts/generate_openapi.py:642-643 | decimals, exponents, infinities and `nan` as Python prints them are among the float texts assumed |
| YamlLayout.FloatsPrintedIs | scripts/generate_openapi.py:642-643 | nothing but the texts of its floats is assumed of a value |
| Json.ReadQuote | scripts/generate_openapi.py:635-644 | quoting a string is undone by reading it, whatever follows the closing quote |
| Schemas.InferCovers | scripts/generate_openapi.py:230-268 | an inferred schema covers the value it was inferred from |
| Schemas.InferWellFormed | scripts/generate_openapi.py:230-268 | an inferred schema has the shape all schemas of the generator have |
| Schemas.InferRequires | scripts/generate_openapi.py:239-242 | `required` is there exactly when some key of the value is required, lists those keys in the value's order, and the marker is there exactly when asked for |
| Schemas.CoversIsAccepted | scripts/generate_openapi.py:277-305 | a schema that covers a value accepts it under the open reading of JSON Schema |
| SchemaMerge.MergeSchema | scripts/generate_openapi.py:277-305 | the recursive method with its loops over properties and variants computes `Merge` |
| SchemaMerge.MergeIsUpperBound | scripts/generate_openapi.py:277-305 | whatever either side covers the merge covers |
| SchemaMerge.EmptyIsIdentity | scripts/generate_openapi.py:278-281 | the empty schema is a two-sided identity |
| SchemaMerge.ObjectMergeNames | scripts/generate_openapi.py:282-291 | an object merge names exactly the union, left names first, each side in order |
| SchemaMerge.NewOneOfIsDistinct | scripts/generate_openapi.py:297-305 | a newly built `oneOf` repeats no branch and holds exactly the branches of both sides |
| SchemaMerge.MergeKeepsWellFormed | scripts/generate_openapi.py:277-305 | merging keeps the shape of well-formed schemas |
| SchemaMerge.MergeIsIdempotent | scripts/generate_openapi.py:277-305 | merging a well-formed schema with itself changes nothing, with or without markers |
| SchemaMerge.ObserveCovers | scripts/generate_openapi.py:403-422 | observing a value adds it and keeps all earlier evidence |
| SchemaMerge.MergedProperty | scripts/generate_openapi.py:284-286 | a merged property is the merge of the two properties of that name, or the one there is |
| SchemaMerge.MergedEntries | scripts/generate_openapi.py:282-294 | merging objects or arrays changes no other key of the left schema |
| SchemaMerge.MergeAbsorbs | scripts/generate_openapi.py:277-305 | merging the same evidence in again changes nothing, for all well-formed schemas |
| SchemaMerge.RepeatedObservation | scripts/generate_openapi.py:271-305 | from any schema, observing a value again changes nothing exactly when both are of one container type; otherwise it leaves two branches that have both seen the value |
| OneOfReading.AlikeIs | scripts/generate_openapi.py:230-268 | two values have the same inferred schema exactly when they are alike |
| OneOfReading.TakesIsLike | scripts/generate_openapi.py:230-268 | under the exactly-one reading of `oneOf` an inferred schema takes a value exactly when the value is like the one it was inferred from |
| OneOfReading.InferTakesOwn | scripts/generate_openapi.py:230-268 | an inferred schema takes its own value exactly when the value is like itself, whatever names are required |
| OneOfReading.ObserveTakesOwn | scripts/generate_openapi.py:271-305 | the same for the schema after a first observation |
| OneOfReading.RepeatedObservationTakes | scripts/generate_openapi.py:403-422 | when a schema takes a value that is observed twice in a row |
| OneOfReading.ObserveTwiceTakesOwn | scripts/generate_openapi.py:403-422 | observed twice, leaves are refused, objects and arrays taken as after the first time |
| OneOfReading.ExamplesTake | scripts/generate_openapi.py:434-450 | the schema of several examples takes one exactly when it suits just one of them |
| OneOfReading.MixedLikes | scripts/generate_openapi.py:245-252 | a mixed array of items that are like themselves is like itself exactly when no item is like another one |
| OneOfReading.ObjectsLike | scripts/generate_openapi.py:230-243 | an object is like another exactly when no key they share disagrees |
| OneOfReading.TakesOwnIffApart | scripts/generate_openapi.py:245-252 | for all values: taken, and each item of a mixed array by its own branch, exactly when items of mixed arrays are unlike each other at every depth |
| OneOfReading.LeavesUnlike | scripts/generate_openapi.py:245-252 | leaves are unlike exactly when their kinds are pairwise different and no integer stands beside a float |
| OneOfReading.PlainTakesOwn | scripts/generate_openapi.py:245-252 | with leaves only in its mixed arrays, a value is taken exactly when these have their items unlike |
| OneOfReading.ForeignBranch | scripts/generate_openapi.py:245-252 | a list that is taken although its first item is taken by the second item's branch only |
| OneOfReading.MixedListFails | scripts/generate_openapi.py:245-252 | a mixed list of leaves with kinds not apart is covered and stable under observation, and not taken |
| OneOfReading.RepeatedKindFails | scripts/generate_openapi.py:245-252 | `[1, "a", 1]` is not taken by the schema observed from it |
| OneOfReading.WholeFloatFails | scripts/generate_openapi.py:245-252 | `[{"a": 1, "b": 1.5}, {"a": 2.0, "b": 3}]` is not taken by the schema observed from it |
| OneOfReading.WholeFloatExampleFails | scripts/generate_openapi.py:434-450 | the schema of the examples 1 and 2.0 does not take 2.0 |
| OneOfReading.IntegerBesideFloatFails | scripts/generate_openapi.py:245-252 | `[1, 1.5]` is not taken by the schema observed from it |
| PathTemplates.MatchPath | scripts/generate_openapi.py:308-317 | a matching template that is ahead of all others by static length and name, or none when none matches |
| PathTemplates.BestIsUnique | scripts/generate_openapi.py:308-317 | the match does not depend on the order of the templates |
| TemplateLaws.MatchPathIs | scripts/generate_openapi.py:308-317 | a template is found exactly when the path fills its holes and it is preferred, by characters outside the holes and then as the later text, to every other such template; trailing slashes do not count |
| TemplateLaws.MatchesIs | scripts/generate_openapi.py:314-315 | a template matches exactly the texts that are its literals with one non-empty text without slashes for each hole |
| TemplateLaws.MatchesBySegments | scripts/generate_openapi.py:314-315 | any template matches segment by segment: as many segments, each of them matched by its own |
| TemplateLaws.WholeSegmentsMatch | scripts/generate_openapi.py:314-315 | where holes are whole segments: as many segments, equal literal segments, some text in each hole |
| TemplateLaws.HoleHoldsOneSegment | scripts/generate_openapi.py:314-315 | a hole at the end of a template takes no second segment |
| TemplateLaws.SlashStaysOut | scripts/generate_openapi.py:314-315 | `/api/vhosts/{name}` is not found for `/api/vhosts/a/permissions` |
| TemplateLaws.PiecesAre | scripts/generate_openapi.py:314-316 | the cut of a template at its holes is the only one that gives it back and leaves no hole among the literals |
| TemplateLaws.NamesAround | scripts/generate_openapi.py:483 | a hole is seen wherever it stands, between the names before and after it |
| TemplateLaws.NamesAreMentioned | scripts/generate_openapi.py:613 | the holes of a path are the names that stand in braces in it |
| PathTemplates.ApplyPathParams | src/services/api_client.rs:48-73 | the character loop computes `Expand`, unterminated and unknown names included |
| PathTemplates.ReadName | src/services/api_client.rs:57-63 | the inner loop yields the name before the first closing brace and the rest after it |
| PathTemplates.DecodeEncode | src/services/api_client.rs:48-73 | percent-decoding undoes the encoding of every argument text |
| PathTemplates.ExpandIsExact | src/services/api_client.rs:48-73 | the client fills exactly the holes the generator sees if and only if every opening brace starts one |
| PathTemplates.UnclosedHole | src/services/api_client.rs:48-73 | the path `/{x`: no parameter for the generator, filled by the client |
| PathTemplates.ExpansionMatches | scripts/generate_openapi.py:308-317 | an expansion with non-empty arguments matches its own template |
| PathTemplates.ExpansionIsFound | scripts/generate_openapi.py:308-317 | among templates that include it, the look-up finds a matching one of at least its static length, trailing slashes included |
| PathTemplates.ExtractExpansion | src/services/api_client.rs:48-73 | cutting the expansion at slashes and decoding gives all argument texts back |
| PathTemplates.ExpansionIsInjective | src/services/api_client.rs:48-73 | arguments with the same expansion agree on every hole |
| ExpansionLaws.EncodeIs | src/services/api_client.rs:48-73 | the encoding is the concatenation of one text per byte: a letter or digit itself, else `%` and two capital hexadecimal digits |
| ExpansionLaws.ExpandIs | src/services/api_client.rs:48-73 | where every opening brace starts a hole: the literals stay, each hole is its own argument encoded, or nothing when it is missing |
| ExpansionLaws.ExpandReads | src/services/api_client.rs:52-70 | on any path: text before a brace is copied, a name reaches to the next closing brace or to the end |
| ExpansionLaws.ArgumentsComeBack | src/services/api_client.rs:48-73 | with whole-segment holes the k-th one gives back the bytes of its argument |
| ExpansionLaws.SamePathSameArguments | src/services/api_client.rs:48-73 | arguments with the same expansion are equal under every name that the path mentions |
| OpenApiDocument.ValidateItem | scripts/generate_openapi.py:611-632 | one path's loop succeeds exactly when its operations are sound and their ids new, and an error names a real fault |
| OpenApiDocument.ValidateDocument | scripts/generate_openapi.py:605-632 | validation succeeds exactly on valid documents, and the error explains what is wrong |
| OpenApiDocument.ValidIs | scripts/generate_openapi.py:605-632 | valid means: the version, `/api/` in front of every path, known methods, non-empty ids that differ from place to place, required path parameters exactly for the names in braces, and responses |
| Enrichment.StatusesAreSorted | scripts/generate_openapi.py:338-340 | the status list is strictly ascending and holds exactly the old statuses and the new one |
| Enrichment.AddObservedNames | scripts/generate_openapi.py:345-401 | the parameter loop computes `AddNames` with its set of known keys |
| Enrichment.EnrichedParameters | scripts/generate_openapi.py:345-401 | parameters added by one observation are optional, unique by location and lower-case name, and are exactly the observed names that were missing and not ignored |
| EnrichmentRuns.ParametersAfterAll | scripts/generate_openapi.py:320-401 | after the whole loop, for every operation: old parameters in front; new ones optional and unique by location and name without case; every query name and every header not ignored of its observations there; nothing else added |
| Enrichment.Document.EnrichWithObservation | scripts/generate_openapi.py:327-422 | one pass of the loop updates exactly the operation the observation belongs to |
| Enrichment.Document.EnrichWithObservations | scripts/generate_openapi.py:320-431 | the whole loop computes `EnrichAll` and the three counters, and leaves the version alone |
| Enrichment.StepKeepsTargets | scripts/generate_openapi.py:308-334 | enriching changes neither the paths nor the operation any observation belongs to |
| EnrichmentRuns.TargetIs | scripts/generate_openapi.py:327-332 | an observation belongs to the operation under its best matching template, not empty, and its verb in lower case, if the path has that |
| EnrichmentRuns.CaseIsIgnored | scripts/generate_openapi.py:329 | observations whose verbs differ in letter case enrich a document alike |
| EnrichmentRuns.StatusesAfterAll | scripts/generate_openapi.py:338-340 | after the loop the statuses of an operation are its old ones and those of its observations, in order, and each has an entry among the responses, with or without a body |
| EnrichmentRuns.EnrichedBodies | scripts/generate_openapi.py:402-422 | a request is learnt for put and post only, a response at its own status only, in the JSON content, which is marked; nothing else of the bodies changes |
| EnrichmentRuns.UntouchedStays | scripts/generate_openapi.py:320-422 | an operation without observations stays as it is; none appears or goes |
| EnrichmentRuns.NoEvidenceIsLost | scripts/generate_openapi.py:320-422 | after the loop every observation is covered at the operation it belongs to and its own status, and so is everything covered before |
| Enrichment.EnrichmentKeepsValidity | scripts/generate_openapi.py:320-431 | a valid document stays valid |
| EnrichmentRuns.CountersAreExact | scripts/generate_openapi.py:424-431 | the number used is the number of observations that belong to an operation; the observed operations are those, at most as many |
| PathExtraction.RowPathsAreClean | scripts/generate_openapi.py:132-140 | extracted paths start with `/api/`, consist of path characters and end without punctuation |
| PathExtraction.PathsAreFound | scripts/generate_openapi.py:136 | the runs of a line are in order, as long as they can be, and every `/api/` lies in one |
| PathExtraction.RunsAreUnique | scripts/generate_openapi.py:136 | no other runs are like that |
| PathExtraction.CellOfPath | scripts/generate_openapi.py:132-140 | a cell that is a path yields that path |
| PathExtraction.RowPathsAre | scripts/generate_openapi.py:132-140 | the paths of a cell are those of all runs of all its lines, in order, each without the punctuation at its end |
| PathExtraction.PathCharIs | scripts/generate_openapi.py:136 | which characters a path has, by code |
| TextLines.SplitLinesCuts | scripts/generate_openapi.py:134 | where a cell is cut into lines: at the ten boundaries of `splitlines`, `\r\n` as one |
| OpenApiBuild.SharedIds | scripts/generate_openapi.py:143-145 | operations share an id exactly when method and joined path agree |
| OpenApiBuild.BuildPath | scripts/generate_openapi.py:548-553 | the loop over the methods of a path computes the fold of its cells, first duplicate included |
| OpenApiBuild.BuildRow | scripts/generate_openapi.py:546-553 | the loop over the paths of a row computes the fold of its cells |
| OpenApiBuild.BuildOpenapi | scripts/generate_openapi.py:539-556 | the whole build computes `Build`, errors included |
| OpenApiBuild.BuildSucceeds | scripts/generate_openapi.py:539-556 | a table builds exactly when it names a path and marks no operation twice; then it holds exactly what is marked, each made from its row; a failure names an operation marked twice |
| OpenApiBuild.MadeOutlineIsOk | scripts/generate_openapi.py:463-536 | a made operation has an id, its path's parameters and responses |
| OpenApiBuild.BuiltIsValid | scripts/generate_openapi.py:539-632 | a built document is valid exactly when no two of its operations share an id |
| OpenApiBuild.BuiltAndInvalid | scripts/generate_openapi.py:143-145 | a table with `/api/a-b` and `/api/a/b` builds and its document is invalid |
| BuiltDocument.BuiltOperations | scripts/generate_openapi.py:539-554 | in a document that builds an operation stands exactly when some row with its six cells names the path and marks the method, made from that row; a path exactly when such a row names it |
| BuiltDocument.BuildsIff | scripts/generate_openapi.py:539-556 | a table builds exactly when some row names a path and none is asked for twice with the same method; an error names an operation asked for twice |
| BuiltDocument.BuiltOrder | scripts/generate_openapi.py:541-553 | paths come in the order of their first mention, the methods of a path row after row, and as get, put, delete, post within a row |
| BuiltDocument.BuiltIsValidIff | scripts/generate_openapi.py:539-632 | a document that builds is valid exactly when no two paths asked for with one method join to the same text |
| BuiltDocument.JoinedIs | scripts/generate_openapi.py:143-145 | the joined path is what one scan over the letters and digits gives, a capital at the start of each run |
| BuiltDocument.MadeIs | scripts/generate_openapi.py:463-536 | id, a request body for put and post only, and the responses 2XX, 4XX and 5XX of a made operation |
| BuiltDocument.MadeParameters | scripts/generate_openapi.py:482-492 | its parameters: the names in braces once each in the order of their first occurrence, required, in the path |
| BuiltDocument.BodiesAre | scripts/generate_openapi.py:497-535 | its content types and schemas: JSON always in a request, a form beside it where the description says so, JSON in a success only with examples |
| BuiltDocument.ExampleSchemaIs | scripts/generate_openapi.py:434-450 | one example gives its inferred schema, marked; several give a choice of theirs, only the choice marked |
| OpenApiBuild.ExamplesAreCovered | scripts/generate_openapi.py:434-460 | the schema made from a list of examples covers each of them |
| OpenApiBuild.MadeCoversExamples | scripts/generate_openapi.py:480-535 | a made operation covers its row's request and response examples |
| BuiltDocument.PublishedCovers | scripts/generate_openapi.py:320-602 | after building and enriching, every example of a row and every observation is covered at the operation it belongs to |
| RustTokens.ClosesOnce | scripts/check_production_coverage.py:26-39 | nested comments end at one place only |
| RustTokens.TokenIsUnique | scripts/check_production_coverage.py:21-66 | at a position at most one token starts |
| RustTokens.ClosingIsUnique | scripts/check_production_coverage.py:17-68 | a module has at most one closing brace |
| RustTokens.StuckHasNoClosing | scripts/check_production_coverage.py:17-68 | text whose tokens run out with the module open has no closing brace |
| TokenShapes.RawStringIs | scripts/check_production_coverage.py:40-48 | a raw string token is `r` or `br`, hashes, a quote, a body without the quote and as many hashes, and these; nothing else is one |
| TokenShapes.RawStringHides | scripts/check_production_coverage.py:40-48 | in braces, for every number of hashes and every body, braces included: only the last character closes |
| TokenShapes.StringHides | scripts/check_production_coverage.py:49-57 | the same for the literal of any string |
| TokenShapes.CharHides | scripts/check_production_coverage.py:58-60 | the same for the literal of any character |
| TokenShapes.LineCommentHides | scripts/check_production_coverage.py:22-25 | the same for a line comment with any text |
| TokenShapes.NestedCommentHides | scripts/check_production_coverage.py:26-39 | the same for block comments nested to any depth |
| TokenShapes.BracesNest | scripts/check_production_coverage.py:61-66 | of nested braces only the last one closes the first |
| RustScanner.SkipComment | scripts/check_production_coverage.py:26-39 | the depth loop ends exactly where the nested comment grammar ends, or runs off the text when there is no such place |
| RustScanner.SkipString | scripts/check_production_coverage.py:49-57 | the escape loop ends at the closing quote, or runs off the text, even past its end after a backslash |
| RustScanner.MatchingBrace | scripts/check_production_coverage.py:17-68 | the result is the first brace token at which the depth is zero; an error means there is none |
| RustScanner.TestRanges | scripts/check_production_coverage.py:71-82 | one range for each header, from its line to the line of its closing brace; fails exactly when some module has none |
| RustScanner.RangeIsModuleLines | scripts/check_production_coverage.py:71-82 | a line is in the range exactly when the module has a character on it |
| RustCharLiterals.AgreesIffNoStraddle | scripts/check_production_coverage.py:57-60 | every boundary of Rust's tokens is one of the scanner's exactly when no long character literal is straddled |
| RustCharLiterals.FindsRustClosing | scripts/check_production_coverage.py:17-68 | then the brace that closes the module for Rust is the one the scanner finds |
| RustCharLiterals.StraddledModule | scripts/check_production_coverage.py:57-60 | `'\u{41}','{'}` closes a module for Rust and not for the scanner |
| RustCharLiterals.LongCharsAre | scripts/check_production_coverage.py:57-60 | the two forms of long character literals, written out for all digits |
| CoverageFilter.FilterRecord | scripts/check_production_coverage.py:85-102 | the loop computes `FilterOf`, malformed lines included |
| CoverageFilter.FilterReport | scripts/check_production_coverage.py:111-129 | the record loop computes `ReportOf` |
| CoverageFilter.KeepLinesConserves | scripts/check_production_coverage.py:85-102 | in one record kept plus removed data lines are the original ones; the counters count what is kept |
| CoverageFilter.ReportTotals | scripts/check_production_coverage.py:111-129 | the grand totals count the printed data lines and hits, hits at most lines |
| CoverageReport.ReportIsRecords | scripts/check_production_coverage.py:111-129 | the record loop filters exactly the records of the report, in order, a last one without end marker included |
| CoverageReport.RecordConserves | scripts/check_production_coverage.py:85-102 | a filtered record ends with LF and LH lines that carry its counts of kept data lines and hits, has no others, and keeps every data line outside the test modules |
| CoverageReport.ReportConserves | scripts/check_production_coverage.py:85-129 | for any report, printed data lines plus those in test modules are the data lines of the report, and the totals count the printed ones |
| CoverageReport.DroppedIffInTestModule | scripts/check_production_coverage.py:71-102 | a data line is dropped exactly when a test module of its source has a character on that line |
| KeptLines.KeptAre | scripts/check_production_coverage.py:85-102 | a filtered record is the record without its summaries and the data lines of test modules of its first source line, every other line in its place, and then new summaries |
| KeptLines.RecordFails | scripts/check_production_coverage.py:85-94 | exactly which records cannot be filtered, and that the error names the first bad line |
| KeptLines.LineOfIs | scripts/check_production_coverage.py:79-80 | a line number is one more than the number of line feeds before the position |
| TextLines.SplitIs | scripts/check_production_coverage.py:92 | fields are the texts without commas that join to the line |
| CoverageFilter.FilterTwice | scripts/check_production_coverage.py:85-102 | filtering a filtered record again changes nothing |
| CoverageFilter.FilterIsIdempotent | scripts/check_production_coverage.py:85-129 | filtering a filtered report again changes neither lines nor totals |
| CoverageFilter.FilterTextIsIdempotent | scripts/check_production_coverage.py:111-130 | as texts, exactly when some line is not an end marker |
| CoverageFilter.EmptyReportGrows | scripts/check_production_coverage.py:130 | the empty report filtered twice is not the empty report filtered once |
| CircuitBreaker.CircuitBreaker.Admit | src/core/circuit_breaker.rs:72-82 | rejects exactly while open and within the timeout, else half opens an open breaker |
| CircuitBreaker.CircuitBreaker.OnSuccess | src/core/circuit_breaker.rs:95-99 | closes and clears the count |
| CircuitBreaker.CircuitBreaker.OnFailure | src/core/circuit_breaker.rs:101-108 | counts, and opens at the threshold or from half open |
| CircuitBreaker.StreakIsLastFailed | src/core/circuit_breaker.rs:95-108 | the streak reaches n exactly when the last n completed calls failed |
| CircuitBreaker.AlwaysConsistent | src/core/circuit_breaker.rs:67-108 | on every interleaving the fields say what the history says |
| CircuitBreaker.BreakerRefinesHistory | src/core/circuit_breaker.rs:67-108 | not closed exactly when the last `threshold` completions failed; rejects exactly when they did and the last was less than the timeout ago; the opening time is set when read |
| CircuitBreaker.TrialsAreLateStarts | src/core/circuit_breaker.rs:44-81 | the trial calls admitted are exactly those that start after the timeout and before the next completion |
| CircuitBreaker.TwoTrialCalls | src/core/circuit_breaker.rs:44-81 | two calls that start when the timeout is over are both admitted |
| CircuitBreaker.WrappedCounterAdmits | src/core/circuit_breaker.rs:101-108 | a run of 2^32 failures in flight after which a call is admitted at once |
| CircuitBreaker.FailureDatesBreaker | src/core/circuit_breaker.rs:101-108 | exactly which failures restart the timeout |
| CircuitBreaker.SequentialIsPaced | src/core/circuit_breaker.rs:67-108 | between calls made one at a time the breaker is never half open and failures past the threshold are a timeout apart |
| CircuitBreaker.PacingBound | src/core/circuit_breaker.rs:67-108 | the last of n failures lies at least (n - threshold) timeouts after the one that opened the breaker |
| RateLimiter.RateLimiter.Acquire | src/core/rate_limiter.rs:25-35 | prunes, then grants exactly below the limit, and records the grant |
| RateLimiter.PrunedListIsExact | src/core/rate_limiter.rs:25-35 | rejects exactly when the whole history has `limit` grants in the window |
| RateLimiter.GrantsAreBounded | src/core/rate_limiter.rs:25-35 | every window-long interval holds at most `limit` grants |
| RateLimiter.IntervalBound | src/core/rate_limiter.rs:25-35 | any interval holds at most `limit` grants for each window that covers it |
| RateLimiter.OrderMatters | src/core/rate_limiter.rs:26-27 | without lock order on the readings the bound holds exactly for limits of at most one or an empty window |
| RetryLoop.Dispatch | src/services/api_client.rs:162-211 | for every 32-bit number of retries, watched for any number of sends: ends with the first response or the first error after which it does not try again, and against a service that never answers exactly when the retries are below the largest value and fit |
| RetryLoop.StillTryingIs | src/services/api_client.rs:203-207 | what the wrapping counter decides: send again exactly while the errors are at most `retry_attempts`, or always for the largest value |
| RetryLoop.EndsOnce | src/services/api_client.rs:162-211 | the number of sends is determined by the outcomes |
| RetryLoop.SendsAreBounded | src/services/api_client.rs:162-211 | below the largest value a call sends at most `retry_attempts + 1` times |
| RetryLoop.GivesUpBelowMax | src/services/api_client.rs:203-207 | a service that never answers is given up on exactly when the number of retries is below the largest 32-bit value |
| ApiClient.AlwaysConsistent | src/services/api_client.rs:112-211 | on every interleaving: no call sends more often than the retry loop does, none unless admitted, one breaker outcome per completed call |
| ApiClient.ThroughputBound | src/services/api_client.rs:97-211 | the calls granted in an interval send at most limit times windows times (`retry_attempts` + 1) |
| ApiClient.EndlessSends | src/services/api_client.rs:203-207 | with the largest 32-bit number of retries one call can send any number of times |
| ApiClient.SendsAreBoundedIff | src/services/api_client.rs:97-211 | a bound on the sends of the calls granted in an interval exists exactly below that number |
| ApiClient.SoloIsRun | src/services/api_client.rs:112-160 | the effect of a call on limiter and breaker is that of its steps in the machine |
| ApiClient.ApiClient.ThroughBreaker | src/core/circuit_breaker.rs:67-93 | dispatch inside the breaker: nothing is sent when it rejects, and its outcome is recorded once |
| ApiClient.ApiClient.Execute | src/services/api_client.rs:112-160 | limiter, preparation, breaker, sends, in that order; each later stage is untouched when an earlier one refuses; what it leaves behind is a run of the machine |
| QueryCache.QueryCache.Get | src/core/cache_manager.rs:28-36 | on its run: what it returns was stored last under the key since the last clear and is not older than the time to live; it returns that whenever the keys stored since fit, or nothing was stored after; an entry too old is dropped |
| QueryCache.QueryCache.Set | src/core/cache_manager.rs:38-53 | evicts one entry when full and the key is new, then stores with its expiry |
| QueryCache.QueryCache.Clear | src/core/cache_manager.rs:55-57 | empties the cache |
| QueryCache.CacheIsBounded | src/core/cache_manager.rs:28-57 | for any evictions, only current entries and at most max(`max_size`, 1) of them |
| QueryCache.TimedMapIs | src/core/cache_manager.rs:28-57 | an unbounded cache holds for each key the value and expiry of its last store since the last clear |
| QueryCache.GetAnswers | src/core/cache_manager.rs:28-57 | for any run and evictions: only what was stored last and is fresh; all of it while the keys stored since the last clear fit; always what was just stored |
| StorePublication.RenameIntoPlace | src/data/store.rs:136-153 | stops at the first success or after six tries, sleeping at most 750 ms |
| StorePublication.BackoffIsBounded | src/data/store.rs:140-143 | the total sleep after n failures, in closed form |
| StorePublication.GivesUpAfterSix | src/data/store.rs:136-153 | a process whose renames fail is still trying after five and has given up after six, with all files as they were |
| StorePublication.StepIsSafe | src/data/store.rs:59-157 | every step of any process keeps shared files complete and temporary files private |
| StorePublication.PublicationIsAtomic | src/data/store.rs:59-157 | on every run a shared file is absent or complete and no process publishes a version twice |
| StorePublication.SharedChangesByRename | src/data/store.rs:136-156 | a shared file changes in a rename only, and then to a whole image of the renaming process |
| StorePublication.FileIsLastPublished | src/data/store.rs:59-157 | the shared file is the image published last, or what was there at the start |
| StorePublication.OwnImageIff | src/data/store.rs:53-58 | after publishing, a process finds its own image exactly while the last publication is of that image |
| StorePublication.ExtractionRuns | src/data/store.rs:59-157 | an undisturbed extraction from any state leaves the image at the shared path, no temporary file, and the version marked as extracted |
| StorePublication.OtherBuildShadows | src/data/store.rs:53-58 | two builds: the first has extracted its image and the file is the second's |
| SharedConnection.CallersAgree | src/data/store.rs:220-240 | successful callers share a connection exactly when they share the key, and it was built for that key |
| SharedConnection.EntriesStay | src/data/store.rs:220-240 | an entry, and a caller's result, never changes |
| SharedConnection.KeysAreIndependent | src/data/store.rs:220-240 | the callers of a key fare as if they were alone |
| SharedConnection.CallerReturns | src/data/store.rs:220-240 | whatever others do in between: a caller returns exactly when it finds the key or its build works, with what it found or what is in the cache after its insert, and fails otherwise |
| ProfileFold.BisectRight | scripts/samply_to_text.py:93-95 | all ranges before the position start at or before the address, all others after it |
| ProfileFold.LookUp | scripts/samply_to_text.py:93-99 | the look-up by bisection computes `Bisected` |
| ProfileFold.BisectionIsExact | scripts/samply_to_text.py:53-99 | on sorted disjoint ranges it agrees with a scan at every address exactly when they lie end to end |
| ProfileFold.AgreementAtEdges | scripts/samply_to_text.py:53-99 | on any ranges, agreement at every address is agreement where a range starts or ends |
| ProfileFold.AliasesDiffer | scripts/samply_to_text.py:56-59 | two names for one range: bisection gives the last, the scan the first |
| ProfileFold.SizelessSymbolHides | scripts/samply_to_text.py:56-59 | sorted and disjoint ranges for which bisection misses a name the scan finds |
| ProfileFold.ResolveFrameName | scripts/samply_to_text.py:65-99 | every fallback and the known addresses before the ranges |
| ProfileFold.FramesArePlain | scripts/samply_to_text.py:102-113 | stacks unwound with bisection are those unwound with a scan |
| ProfileFold.StackWalker.StackFrames | scripts/samply_to_text.py:102-113 | the memoised walk returns the uncached recursion, whatever was asked before |
| ProfileFold.StackWalker.CollapseThread | scripts/samply_to_text.py:116-128 | the two counters are the multisets of folded stacks and of innermost names |
| ProfileLaws.CountersCount | scripts/samply_to_text.py:116-128 | a folded counter is the number of samples whose stack folds to that text, a self-time counter the number of samples that end in that name |
| ProfileLaws.FramesAreChain | scripts/samply_to_text.py:102-113 | the frames of a stack are the names of its prefix chain, root first |
| ProfileLaws.FoldedSplits | scripts/samply_to_text.py:126 | splitting a folded stack gives its frames back exactly when no name has a semicolon |
| ProfileLaws.FrameNameIs | scripts/samply_to_text.py:65-99 | a known address first, then the range that holds the address, then the function name |
| ProfileLaws.BisectedHolds | scripts/samply_to_text.py:93-99 | the bisection finds exactly the range that holds the address with no later start at or before it |
| ProfileFold.TotalsAgree | scripts/samply_to_text.py:116-128 | both totals are the number of samples that have a stack |

## Left out

- Docker, Chrome, downloads, HTTP, SQLite, zstd, clocks and file writing: outcomes, readings and bytes are parameters; a send is a transport error or a response.
- HTML parsing and the prose heuristics (`json_examples`, `explicit_key_rules`, `summary`, `tag_for`): a row carries what they yield. Tags, summaries, descriptions, `deprecated` and the fixed document header take no part in any property.
- `urlsplit` and `parse_qs`: an observation carries the path component and the distinct query names.
- Letter case beyond ASCII, lone surrogates in strings, and UTF-8 encoding (arguments are bytes).
- Float formatting: a float is the text Python prints; `FloatsPrinted` says what such texts look like. Nothing is computed with it.
- `int()` in the coverage filter, reading a source file, and the pattern that finds test module headers: a function and spans given as parameters (`CoverageReport.DroppedIffInTestModule` puts the pieces together). The printed percentage and the threshold test only use the totals.
- The list of observed sources kept beside the statuses: the same operation on another list.
- Schemas.InferCovers: requires object keys to be distinct, as they are in Python; `required` lists and the markers play no part in covering.
- `build_symbolicator`: sorted ranges and known addresses are given; joining by code id is not part of this model.
- RateLimiter.PrunedListIsExact: assumes clock readings in lock order; `OrderMatters` says when that is not needed.
- CircuitBreaker.BreakerRefinesHistory: the rejection clause needs fewer than 2^32 failures in a row; `FailureDatesBreaker` gives the exact condition. A debug build stops at the overflow instead of wrapping.
- ApiClient.AlwaysConsistent: one client over its lifetime; `src/tools/call_tool.rs` makes a new one for each call, so its limits do not add up across calls. URL building, headers and credentials are one flag, `prepared`.
- RetryLoop.Dispatch: watched for `limit` sends, since with the largest number of retries it need not end; what it does later follows from a larger `limit`. A debug build stops at the overflow of the counter instead of wrapping.
- ApiClient.ThroughputBound: needs fewer than 2^32 - 1 retries; `SendsAreBoundedIff` says that no bound holds otherwise.
- OneOfReading.TakesOwnIffApart: a value can be taken without each item being taken by its own branch (`ForeignBranch`); `InferTakesOwn` is exact for those too, item by item.
- RustCharLiterals.AgreesIffNoStraddle: compares character literals only; the other tokens of Rust are the scanner's.
- ApiClient.ApiClient.Execute: one call without interleaving; the step machine covers interleavings.
- StorePublication.PublicationIsAtomic: process ids are unique among live processes, and programs that write the shared file themselves are not modelled; an initial directory may hold complete files of known builds.
- ProfileFold.StackWalker.StackFrames: indices in range and an acyclic prefix table are required; the original recurses forever or fails otherwise.
