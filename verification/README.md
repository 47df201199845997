# App server: schema export, event forwarding and bookkeeping

A Dafny model of the parts of the app server whose correctness is not visible from one function at a
time, with proofs of what they keep over all inputs and all runs. `dafny verify dfyconfig.toml` checks it.

- **Schema export** (`Json`, `SchemaRefs`, `Graph`, `SchemaTitles`, `TitleLaws`, `SchemaTitleRefs`,
  `SchemaBundle`, `SchemaNames`, `SchemaMeaning`, `SchemaBundler`, `SchemaFlat`, `SchemaExport`,
  `SchemaStrip`). Many self-contained JSON Schemas are lifted into one bundle with a `v2` namespace and
  every reference is rewritten; the namespace is later flattened again. It is proved what each reference
  of a schema means in the bundle, that a bundle is closed under its references, that flattening it never
  fails its own checks, that following any reference in the flat document lands on the rewritten image of
  what it meant in the bundle, and that each definition comes out of the whole export as its schema gave
  it. The references are JSON Pointers in a URI fragment (section 6 of RFC 6901), resolved as in section
  8.3 of JSON Schema Core draft-07. `SchemaBundle` and `SchemaFlat` hold the specification and its laws;
  the imperative passes of `SchemaBundler`, `SchemaFlat` and `SchemaStrip` are proved equal to it.
- **Canonical JSON** (`Sorting`, `JsonText`, `JsonGrammar`, `Canonical`, `CanonicalLaws`). The normal form
  of the fixtures decides exactly the equivalence generated by elementary swaps. Serialisation is defined
  here, proved to be JSON and injective, so the tie breaker of the sort needs no assumption.
- **TypeScript filters** (`TsScan`, `TsText`, `TsFilter`, `TsSpan`, `TsFields`, `TsInterface`, `TsImports`,
  `TsArm`, `TsProperty`, `TsScanner`). The hand-written scanner splits exactly what joining put together;
  the union filter, and the field filter on type aliases and interfaces, keep precisely the parts and
  the imports they should and change nothing when run again.
- **Event forwarding** (`EventForwarding`, `RemoteWorker`). A bounded channel with a lossless tier, a lossy
  tier and lag markers, beside a consumer that may act at any point, and the remote worker's router of
  requests and replies. `EventQueue.Consumer` is the concurrent consumer: it runs at every send.
- **Commands** (`CommandOutput`, `CommandSessions`), **file watches** (`FsWatch`), **turn bookkeeping**
  (`TurnBookkeeping`, `TurnLaws`) and **shell quoting** (`ShellQuote`). `Selection` says what it is to pick
  elements of a sequence by their positions.

The laws of each area say what the code decides in the words of its inputs - which names, variants, imports,
events or outputs - and not by the functions that decide it.

Nondeterministic `if *` stands for the scheduler, the timers and the other party: what is proved holds for
every choice. The unwatch handshake is a state machine whose steps interleave freely.

What the proofs brought out about the code:

- A closing connection does not wait for its file watches: each may still notify once, and no more
  (`FsWatch.AtMostOneChangeAfterClose`, `FsWatch.ChangeAfterClose`), and it can exactly when its task has
  already looked at its slot in this round or holds a batch (`FsWatch.ChangeFollowsCloseExactly`). An
  unwatch call does wait.
- When the raw event channel closes, changes read but not yet sent are dropped: exactly when a path was
  read after the timer last fired (`FsWatch.LostExactlyLate`; `FsWatch.LossyRun` is such a run).
- Each rollback request is answered exactly once, because the core reports once on every operation it
  accepted and on no other (`TurnBookkeeping.RollbacksAnswered`). The handler relies on that: by itself it
  balances its answers if and only if a submission that fails is still the one in progress
  (`TurnBookkeeping.RollbacksBalance`, with `TurnBookkeeping.UnguardedRollback` for the other case).
- On accepted schemas (`SchemaBundle.Accepted`: self-contained ones of a single namespace) flattening keeps
  the meaning of every reference (`SchemaExport.ExportPreservesMeaning`). Only outside them can a shared root
  schema override a namespaced definition that is referred to: `SchemaExport.OverriddenReference` is such an
  input, which no list of accepted schemas can be, and `SchemaFlat.FlattenPreservesMeaning` gives the exact
  condition.
- An experimental field is dropped unless its name is both quoted and optional: the reader of property
  names allows a `?` after a bare name only (`TsProperty.FieldKept`).
- Interrupt requests wait for an abort; the completion of a turn does not answer them
  (`TurnBookkeeping.InterruptsConserved`).
- With an output cap of zero, the first output produces one empty delta that is marked as capped
  (`CommandOutput.CollectOutput`).

## Model

| member | source | states |
|---|---|---|
| SchemaRefs.NamespaceRefIdempotent | codex-rs/app-server-protocol/src/export.rs:1508-1530 | rewriting a reference into its namespace a second time changes nothing |
| SchemaRefs.NamespaceRefInverse | codex-rs/app-server-protocol/src/export.rs:1141-1158 | replacing the namespace prefix restores every reference that did not contain it |
| SchemaRefs.ResolveRoot | codex-rs/app-server-protocol/src/export.rs:1187-1231 | a reference to a plain root name, read as a JSON Pointer, resolves to that definition, and to nothing when there is none |
| SchemaRefs.ResolveNamespaced | codex-rs/app-server-protocol/src/export.rs:1508-1530 | a namespaced reference resolves, as a JSON Pointer, to the definition inside the namespace |
| SchemaFlat.RewriteToNamespaceIdempotent | codex-rs/app-server-protocol/src/export.rs:1508-1530 | the namespace rewrite of a whole schema, at every depth, is idempotent |
| SchemaFlat.RewriteToNamespaceInverse | codex-rs/app-server-protocol/src/export.rs:1141-1158 | removing the namespace prefix undoes the rewrite on every schema whose references do not contain it |
| SchemaTitles.AnnotateAddsTitles | codex-rs/app-server-protocol/src/export.rs:1661-1767 | when existing variant titles are strings, annotation only ever adds title entries: every other path and value is unchanged |
| SchemaTitles.AddsTitlesKeepsRefs | codex-rs/app-server-protocol/src/export.rs:1661-1726 | adding titles keeps the set of references |
| SchemaTitles.AnnotateRefs | codex-rs/app-server-protocol/src/export.rs:1661-1767 | on every schema, also one with titles that are no strings, annotation brings in no reference |
| SchemaTitles.AnnotateIdempotent | codex-rs/app-server-protocol/src/export.rs:1661-1826 | annotating an annotated schema changes nothing and cannot meet a title collision |
| TitleLaws.UpperMeans | codex-rs/app-server-protocol/src/export.rs:1835-1855 | a small letter becomes the capital at its place of the alphabet, and no other character changes |
| TitleLaws.PascalWord | codex-rs/app-server-protocol/src/export.rs:1835-1855 | a word gets a capital first letter |
| TitleLaws.PascalWords | codex-rs/app-server-protocol/src/export.rs:1835-1855 | words between separators are put together, each so written |
| TitleLaws.NewTitleMeans | codex-rs/app-server-protocol/src/export.rs:1605-1659 | a variant gets a title exactly when it has none and its method, its type, its only property or its only required member spells one, with the suffix of its definition |
| TitleLaws.VariantTitled | codex-rs/app-server-protocol/src/export.rs:1728-1767 | an annotated variant has its own title, or else that one |
| TitleLaws.PropertyTitled | codex-rs/app-server-protocol/src/export.rs:1661-1826 | an annotated property has its own title, or that of its object followed by its own name when it is one of the six that tell variants apart and allows just one word |
| TitleLaws.PlainTitled | codex-rs/app-server-protocol/src/export.rs:1673-1726 | no other node gets a title, and below a definition its name is the base of the titles |
| TitleLaws.PanicsExactly | codex-rs/app-server-protocol/src/export.rs:1673-1767 | annotation panics exactly when, along some path it takes, a variant gets a title that another variant of its list has or an earlier one gets as well |
| SchemaTitleRefs.AnnotateMapRefs | codex-rs/app-server-protocol/src/export.rs:1508-1726 | adding titles commutes with every rewrite of the references, at every depth |
| SchemaTitles.GeneratedTitlesDistinct | codex-rs/app-server-protocol/src/export.rs:1728-1767 | in a list without collision, a generated title differs from the title of every other variant |
| SchemaTitles.AnnotateVariantList | codex-rs/app-server-protocol/src/export.rs:1728-1767 | the loop succeeds exactly when no generated title meets an existing or earlier one, and then annotates each variant by itself |
| SchemaRefs.NamedRefMeans | codex-rs/app-server-protocol/src/export.rs:1861-1885 | references to a taken-over name, and to anything inside it, follow it into its namespace, and no other reference changes |
| SchemaBundle.ForcedRefIsFixed | codex-rs/app-server-protocol/src/export.rs:1542-1603 | after the rewrite to known namespaces, the rewrite for a taken-over name finds no reference left to change |
| SchemaBundle.CollectContents | codex-rs/app-server-protocol/src/export.rs:946-1013 | collecting succeeds exactly when no title collides and namespaced names do not conflict; the namespace then holds each namespaced schema and lifted definition with its rewritten body and nothing else, and the root map the last contribution for each name |
| SchemaBundle.RootMapLast | codex-rs/app-server-protocol/src/export.rs:968-1012 | of several root bodies for one name the last one wins |
| SchemaNames.OwnedMeans | codex-rs/app-server-protocol/src/export.rs:1569-1603 | a namespace owns a name exactly when a namespaced schema has it, or defines it, or does so for the name without its numeric suffix |
| SchemaNames.RootNames | codex-rs/app-server-protocol/src/export.rs:946-1013 | the root map defines exactly the names of the root schemas, and those of their liftable definitions that no namespace owns or that come from the v1 directory |
| SchemaNames.NamespaceNames | codex-rs/app-server-protocol/src/export.rs:946-1013 | the namespace defines exactly the names of the namespaced schemas and of their liftable definitions |
| SchemaBundle.BundleOrderIndependent | codex-rs/app-server-protocol/src/export.rs:946-1028 | every permutation of the schemas succeeds alike, and yields the same bundle when root bodies agree |
| SchemaBundle.CollectAnyOrder | codex-rs/app-server-protocol/src/export.rs:968-1005 | with one namespace, the order in which taken-over names are visited does not matter |
| SchemaBundle.BundleIsClosed | codex-rs/app-server-protocol/src/export.rs:946-1028 | on accepted inputs every definition reference of the bundle has its target, and none leads out of the namespace; there is a namespace when some schema is namespaced |
| SchemaMeaning.NamespacedReferenceMeans | codex-rs/app-server-protocol/src/export.rs:946-1013 | a namespaced schema's reference to a local definition denotes, in the bundle, exactly that definition, annotated and rewritten |
| SchemaMeaning.RootReferenceMeans | codex-rs/app-server-protocol/src/export.rs:946-1013 | a root schema's reference to a local definition denotes the namespace's definition of that name exactly when a namespace owns it, and otherwise the last root contribution of that name |
| SchemaMeaning.LastRootDefinitionWins | codex-rs/app-server-protocol/src/export.rs:968-1012 | a root reference denotes the definition its own schema gives, if no later root schema contributes the name |
| SchemaBundler.AddNamespacedSchema | codex-rs/app-server-protocol/src/export.rs:962-1011 | the pass over the local definitions in any order, inserting one by one, inserts all of them at once or aborts on a conflict |
| SchemaBundler.LiftRootLocals | codex-rs/app-server-protocol/src/export.rs:968-1001 | a root schema's local definitions reach the root map, except those a namespace takes over; the list holds exactly those names, each with its namespace |
| SchemaBundler.AddRootSchema | codex-rs/app-server-protocol/src/export.rs:962-1012 | adding a root schema under any namespaces, with the rewrites for taken-over names in some order, equals the specification |
| SchemaBundler.BuildSchemaBundle | codex-rs/app-server-protocol/src/export.rs:946-1028 | the bundle built step by step is the specified one, for any namespaces; with one namespace it does not depend on the visiting orders |
| Graph.ReachableIsLeast | codex-rs/app-server-protocol/src/export.rs:1119-1139 | the names reached by walks contain the seeds, are closed, and are inside every closed set with the seeds |
| SchemaFlat.CollectDefinitionDependencies | codex-rs/app-server-protocol/src/export.rs:1119-1139 | the worklist ends and returns exactly the least closed set containing the seeds |
| SchemaFlat.CollectShared | codex-rs/app-server-protocol/src/export.rs:1060-1070 | the loop over the shared names collects their definitions and the root names they refer to |
| SchemaFlat.PullIn | codex-rs/app-server-protocol/src/export.rs:1072-1079 | pulling in dependencies adds exactly the missing ones that are not namespaces and overwrites nothing |
| SchemaFlat.BuildFlatV2Schema | codex-rs/app-server-protocol/src/export.rs:1041-1089 | the flattening pass with its two checks computes the specified document, or fails exactly when it does |
| SchemaFlat.FlattenChecks | codex-rs/app-server-protocol/src/export.rs:1041-1089 | flattening gives up exactly when there is no namespace, or some reference, along any path of its result, leads into the namespace or names no definition |
| SchemaFlat.FlatHead | codex-rs/app-server-protocol/src/export.rs:1041-1089 | the title of the flat document is that of the bundle, or the default one, followed by V2, and the other members stay |
| SchemaFlat.FlattenSucceeds | codex-rs/app-server-protocol/src/export.rs:1041-1231 | on every closed bundle neither the prefix check nor the missing-definition check fails |
| SchemaFlat.DependenciesOutside | codex-rs/app-server-protocol/src/export.rs:1072-1079 | the dependencies pulled in from the root are root definitions that the namespace does not have |
| SchemaFlat.FlatDefinition | codex-rs/app-server-protocol/src/export.rs:1041-1089 | which names the flat document defines, each as the rewritten original with exactly the rewritten references |
| SchemaFlat.FlatMeaning | codex-rs/app-server-protocol/src/export.rs:1041-1158 | every definition reference of a flat definition resolves to the rewritten image of its old target, or of the shared root schema that overrides it |
| SchemaFlat.FlattenPreservesMeaning | codex-rs/app-server-protocol/src/export.rs:1041-1158 | on any closed bundle a reference resolves in the flat document to the rewritten image of what it resolved to in the bundle, if and only if no shared root schema with a different image overrides its target |
| SchemaFlat.ExportSucceeds | codex-rs/app-server-protocol/src/export.rs:946-1089 | on accepted inputs with a namespaced schema, bundling succeeds exactly without name conflicts and title collisions, and flattening the result then always succeeds |
| SchemaExport.ExportPreservesMeaning | codex-rs/app-server-protocol/src/export.rs:946-1158 | on accepted inputs every definition reference of the flat document leads to the rewritten image of what it denoted in the bundle |
| SchemaExport.ExportRoundTrip | codex-rs/app-server-protocol/src/export.rs:946-1158 | each definition of the flat document comes from some schema: it is the body that schema gave the name, with titles added, if and only if no reference in the body contains the namespace's prefix |
| SchemaExport.NamespacedRoundTrip | codex-rs/app-server-protocol/src/export.rs:946-1158 | every namespaced schema gets each definition, and itself unless a shared root schema has its name, back from the flat document as it gave them, with titles added, if and only if no reference in the body contains the namespace's prefix |
| SchemaExport.OverriddenReference | codex-rs/app-server-protocol/src/export.rs:1041-1158 | an input outside the accepted ones whose namespaced definition is overridden: its reference comes to denote the root schema |
| SchemaStrip.ReachableLocalDefinitions | codex-rs/app-server-protocol/src/export.rs:1383-1467 | the search ends with exactly the least set of local names that holds the seeds and is closed under references |
| SchemaStrip.StripMethodVariants | codex-rs/app-server-protocol/src/export.rs:1347-1381 | the pass removes the variants and unreachable definitions and nothing else |
| SchemaStrip.StripRemovesExactly | codex-rs/app-server-protocol/src/export.rs:1347-1381 | the variant at a position is removed exactly when its method property spells one of the methods; the others stay in order, and nothing else outside the definitions changes |
| SchemaStrip.OutsideMapsMean | codex-rs/app-server-protocol/src/export.rs:1400-1467 | the references that keep definitions alive are those found along paths through no definition map |
| SchemaStrip.StripKeepsTargets | codex-rs/app-server-protocol/src/export.rs:1347-1467 | a reference left outside skipped maps or inside kept definitions dangles only if it did before |
| SchemaStrip.StripKeepsLeast | codex-rs/app-server-protocol/src/export.rs:1347-1398 | a definition is kept exactly when it is in every closed set that contains the seeds, and it is kept unchanged |
| Sorting.SortForgetsOrder | codex-rs/app-server-protocol/src/schema_fixtures.rs:148-204 | sorting permutations of one list gives one result when ties are equal elements |
| JsonText.SerializeUnique | codex-rs/app-server-protocol/src/schema_fixtures.rs:148-204 | a serialised value can be read back without looking past its end |
| JsonText.SerializeInjective | codex-rs/app-server-protocol/src/schema_fixtures.rs:148-204 | equal serialisations come from equal documents |
| JsonGrammar.SerializeDenotes | codex-rs/app-server-protocol/src/schema_fixtures.rs:148-204 | the serialised text is JSON for the document, by the grammar of RFC 8259 without white space |
| Canonical.CanonicalizeJson | codex-rs/app-server-protocol/src/schema_fixtures.rs:148-204 | the recursive pass with its vector of sort keys computes the canonical form |
| Canonical.CanonicalDecides | codex-rs/app-server-protocol/src/schema_fixtures.rs:148-223 | two documents have equal canonical forms if and only if swaps of object entries, and of neighbours in arrays whose items all have a sort key, at any depth, lead from one to the other |
| Canonical.CanonicalIdempotent | codex-rs/app-server-protocol/src/schema_fixtures.rs:148-223 | canonicalising twice is canonicalising once |
| CanonicalLaws.ArrayForgetsOrder | codex-rs/app-server-protocol/src/schema_fixtures.rs:148-223 | an array of nulls, booleans, numbers, strings and objects with a string reference or title has one canonical form, whatever the order |
| CanonicalLaws.ArrayKeepsOrder | codex-rs/app-server-protocol/src/schema_fixtures.rs:148-223 | an array with any other item keeps the order of its canonical items |
| CanonicalLaws.ArraySorted | codex-rs/app-server-protocol/src/schema_fixtures.rs:148-223 | the canonical items come in ascending order of their spelled-out key texts, and of their JSON texts among equal ones |
| CanonicalLaws.StringsAscend | codex-rs/app-server-protocol/src/schema_fixtures.rs:148-223 | an array of strings comes out as the same strings in ascending order by code point |
| CanonicalLaws.EntriesAscend | codex-rs/app-server-protocol/src/schema_fixtures.rs:148-204 | object entries come in ascending order of their keys |
| TsScanner.ScanState.Observe | codex-rs/app-server-protocol/src/export.rs:884-931 | one character updates depths, string delimiter and escape as the scanner function says |
| TsScanner.SplitTopLevelMulti | codex-rs/app-server-protocol/src/export.rs:761-780 | the loop over the characters returns the specified parts |
| TsScanner.FindTopLevelBraceSpan | codex-rs/app-server-protocol/src/export.rs:738-755 | the loop returns the first brace that returns to top level after an opening there, with the last such opening before it, or nothing when there is no such brace |
| TsSpan.BraceSpanIs | codex-rs/app-server-protocol/src/export.rs:738-755 | the search yields a span if and only if it is that first span, and none if and only if no brace closes one |
| TsScan.SplitParts | codex-rs/app-server-protocol/src/export.rs:761-780 | every part is trimmed, not empty, contains no top-level delimiter, and all but the last are balanced |
| TsScan.SplitJoinFrom | codex-rs/app-server-protocol/src/export.rs:761-780 | splitting joined parts returns exactly those parts |
| TsScan.SplitJoinFiltered | codex-rs/app-server-protocol/src/export.rs:308-331 | the same for the parts of any text that a filter keeps |
| TsText.PruneHead | codex-rs/app-server-protocol/src/export.rs:654-682 | pruning imports in front of import-free text keeps the used ones and leaves the rest as it was |
| TsImports.ImportedTypeMeans | codex-rs/app-server-protocol/src/export.rs:673-682 | the reader finds a name exactly in lines that read import type, one plain name between the braces, and from something |
| TsImports.UnionImports | codex-rs/app-server-protocol/src/export.rs:308-331 | a line in front of the filtered union stays, in order, exactly when it imports nothing or a name that occurs in the new union |
| TsImports.FieldImports | codex-rs/app-server-protocol/src/export.rs:373-398 | the same for the field filter, on aliases and interfaces |
| TsFilter.FilterKeepsExactly | codex-rs/app-server-protocol/src/export.rs:308-331 | the filtered union splits into precisely the arms whose method is not experimental, in order |
| TsFilter.UnionKeeps | codex-rs/app-server-protocol/src/export.rs:308-331 | an arm stays, in order, exactly when no experimental method is what the filter reads in it |
| TsFilter.FilterClientRequestIdempotent | codex-rs/app-server-protocol/src/export.rs:308-331 | filtering the union a second time changes nothing |
| TsArm.MethodOfArm | codex-rs/app-server-protocol/src/export.rs:782-877 | of any generated arm, whatever its further fields hold, the filter reads exactly the method |
| TsArm.ArmKept | codex-rs/app-server-protocol/src/export.rs:308-331 | such an arm is kept exactly when its method is not experimental |
| TsInterface.FilterKeepsFields | codex-rs/app-server-protocol/src/export.rs:373-398 | the filtered object type of an alias or an interface has precisely the fields that are not experimental, in order |
| TsInterface.FieldsKept | codex-rs/app-server-protocol/src/export.rs:373-398 | a field stays, in order, exactly when no experimental name is what the filter reads in it |
| TsInterface.FilterFieldsIdempotent | codex-rs/app-server-protocol/src/export.rs:373-398 | filtering the fields of either kind of file a second time changes nothing |
| TsInterface.InterfaceSpan | codex-rs/app-server-protocol/src/export.rs:721-736 | without an equals sign, the braces are those of the text behind the first interface marker |
| TsFields.FilterTypeFieldsKeepsExactly | codex-rs/app-server-protocol/src/export.rs:373-398 | the filtered object type of an alias file has precisely the fields that are not experimental, in order |
| TsFields.FilterTypeFieldsIdempotent | codex-rs/app-server-protocol/src/export.rs:373-398 | filtering the fields of an alias file a second time changes nothing |
| TsProperty.FieldName | codex-rs/app-server-protocol/src/export.rs:797-861 | of a field with any block comments before its name, the reader finds exactly the name, bare or quoted; it finds none when a quoted name is optional |
| TsProperty.FieldKept | codex-rs/app-server-protocol/src/export.rs:373-398 | such a field is kept exactly when its name is not experimental, or is both quoted and optional |
| TsProperty.PropertyNameMeans | codex-rs/app-server-protocol/src/export.rs:822-861 | the reader finds a name exactly in fields that begin with it, between quotes or bare with an optional question mark, followed by a colon |
| TsFields.SpanOfReplaced | codex-rs/app-server-protocol/src/export.rs:721-755 | with a balanced text put between the braces, the search finds the same braces around it |
| EventForwarding.AccountsPos | codex-rs/app-server-client/src/lib.rs:142-208 | real events plus lag markers plus the pending count equal the number of inputs |
| EventForwarding.AccountsAt | codex-rs/app-server-client/src/lib.rs:142-208 | each delivered event is the input at the position its predecessors add up to, and markers stand only for droppable events |
| EventForwarding.RequiredDelivered | codex-rs/app-server-client/src/lib.rs:87-208 | events that require delivery come out complete and in order |
| EventForwarding.LosslessDelivered | codex-rs/app-server-client/src/lib.rs:87-208 | ends of turns, completed items, the four kinds of streamed text and disconnects are delivered completely and in order |
| EventForwarding.DeliveredOrLost | codex-rs/app-server-client/src/lib.rs:142-208 | every input is delivered or counted as lost, and none is both |
| EventForwarding.RequestsDeliveredOrLost | codex-rs/app-server-client/src/lib.rs:142-208 | the same for server requests by id |
| EventForwarding.EventQueue.TrySend | codex-rs/app-server-client/src/lib.rs:165-207 | a full or closed channel takes nothing; otherwise the entry goes last and the capacity is kept |
| EventForwarding.EventQueue.Send | codex-rs/app-server-client/src/lib.rs:154-194 | the send puts the entry last within the capacity, or fails because the consumer closed |
| EventForwarding.ForwardInProcessEvent | codex-rs/app-server-client/src/lib.rs:87-208 | one event keeps the books: channel content and pending count explain all inputs, and refused requests are the lost ones; an event is lost only to a full channel, never when it is of a lossless kind, and for no other kind does the forwarder wait for room |
| EventForwarding.DeliverEvent | codex-rs/app-server-client/src/remote.rs:807-901 | the same for the remote path, which also fails when a rejection cannot be written; only a marker and the event are added, at the end |
| EventForwarding.RejectIfServerRequestDropped | codex-rs/app-server-client/src/remote.rs:871-891 | fails exactly for a server request whose rejection cannot be written |
| EventForwarding.RunInProcessWorker | codex-rs/app-server-client/src/lib.rs:404-506 | over any events and any consumer the books hold; token refresh requests are refused by the worker itself |
| EventForwarding.LedgerMeaning | codex-rs/app-server-client/src/lib.rs:142-208 | what the books say: gaps are exactly marked, required events complete and in order, every server request passed on or refused, never both |
| RemoteWorker.PendingIsHolder | codex-rs/app-server-client/src/remote.rs:209-243 | a caller is without an answer exactly while it is the registered holder of its request id |
| RemoteWorker.HolderMeans | codex-rs/app-server-client/src/remote.rs:209-311 | a caller holds its id while no response or error for it has come since it took the id when it was free |
| RemoteWorker.ReplyReaches | codex-rs/app-server-client/src/remote.rs:300-311 | such a caller is told the result of the first response to its id or the error of the first error message, whichever comes first |
| RemoteWorker.AnsweredAtOnce | codex-rs/app-server-client/src/remote.rs:202-295 | what the callers of all other commands are told |
| RemoteWorker.DisconnectReads | codex-rs/app-server-client/src/remote.rs:230-447 | what the event that says the connection is gone reads, cause by cause |
| RemoteWorker.OutcomeStep | codex-rs/app-server-client/src/remote.rs:300-311 | answers never change, and a wire reply reaches only the caller registered for its id |
| RemoteWorker.DuplicateRefused | codex-rs/app-server-client/src/remote.rs:209-218 | a duplicate id is refused and leaves the original waiter and all others untouched |
| RemoteWorker.FailPending | codex-rs/app-server-client/src/remote.rs:450-458 | at the end every caller still waiting, and no other, is told that the pipe is broken |
| RemoteWorker.HandleInput | codex-rs/app-server-client/src/remote.rs:202-447 | one input answers who is to be answered and no one else, refuses unknown calls, and calls for the specified event |
| RemoteWorker.DeliverNext | codex-rs/app-server-client/src/remote.rs:312-447 | delivering that event keeps the books, and the worker ends when it fails or says the connection is gone |
| RemoteWorker.RunRemoteWorker | codex-rs/app-server-client/src/remote.rs:197-458 | by its end the worker has answered every command it took exactly once; at most one disconnect event appears and nothing follows it |
| RemoteWorker.NothingUnaccounted | codex-rs/app-server-client/src/remote.rs:298-447 | while the consumer is open and rejections can be written, every server request read is enqueued or rejected, never both, never neither |
| CommandOutput.CollectOutput | codex-rs/app-server/src/command_exec.rs:566-628 | for every chunking and schedule the bytes are the first min(cap, total); the deltas concatenate to what buffering returns; the last delta alone is marked, exactly when the cap is reached |
| CommandOutput.CappedStops | codex-rs/app-server/src/command_exec.rs:589-624 | once the cap is reached no further chunk changes the result |
| CommandSessions.FreeKey | codex-rs/app-server/src/command_exec.rs:167-255 | a key that is free in the table belongs to no running task of an open connection |
| CommandSessions.InvEnd | codex-rs/app-server/src/command_exec.rs:218-302 | a finishing task removes its own entry or none, and every entry left still has its task |
| CommandSessions.ActiveChannelsOwned | codex-rs/app-server/src/command_exec.rs:375-402 | the channels found for a connection are those of all its controllable tasks and of no other |
| CommandSessions.CommandExecManager.Start | codex-rs/app-server/src/command_exec.rs:143-302 | with which error a start is refused, and otherwise that its key belonged to no task before and is listed for this one |
| CommandSessions.CommandExecManager.End | codex-rs/app-server/src/command_exec.rs:218-302 | the end of a task, or a failed spawn, removes only the entry that task owns |
| CommandSessions.CommandExecManager.SendControl | codex-rs/app-server/src/command_exec.rs:404-440 | a control reaches the process of the same connection and client id, never another, and never a sandboxed or unnamed one |
| CommandSessions.CommandExecManager.ConnectionClosed | codex-rs/app-server/src/command_exec.rs:375-402 | exactly the connection's entries go, and exactly their active processes get one terminate message each |
| CommandSessions.TerminateAllEach | codex-rs/app-server/src/command_exec.rs:393-401 | the messages sent for the removed entries are one terminate per active channel and nothing else |
| CommandSessions.Drive | codex-rs/app-server/src/command_exec.rs:143-440 | over any run at most one task holds a key and every entry is owned by its task |
| FsWatch.DebouncedReceiver.Recv | codex-rs/app-server/src/fs_watch.rs:50-68 | one call returns the next batch of the run, or none when the channel closes, leaving what is pending behind |
| FsWatch.Drain | codex-rs/app-server/src/fs_watch.rs:50-68 | over a whole run the batches are those of the timer, each all that arrived since it last fired, and what is lost at the close is what has arrived since then |
| FsWatch.PendingMeans | codex-rs/app-server/src/fs_watch.rs:50-68 | a path is pending exactly when it arrived and the timer has not fired since |
| FsWatch.BatchesMean | codex-rs/app-server/src/fs_watch.rs:50-68 | each batch belongs to a firing of the timer that finds something new, and holds exactly the paths that arrived since the firing before |
| FsWatch.BatchesConserve | codex-rs/app-server/src/fs_watch.rs:50-68 | batches and pending paths together are exactly what arrived, and no batch is empty |
| FsWatch.LostExactlyLate | codex-rs/app-server/src/fs_watch.rs:50-68 | the close loses something if and only if a path arrived after the timer last fired |
| FsWatch.LossyRun | codex-rs/app-server/src/fs_watch.rs:50-68 | a run that loses a change |
| FsWatch.InvStep | codex-rs/app-server/src/fs_watch.rs:118-222 | each step of tasks, unwatch calls and closes keeps the handshake's invariant, under any interleaving |
| FsWatch.EndsExactly | codex-rs/app-server/src/fs_watch.rs:145-194 | a watch ends exactly when a poll finds its slot taken, or when after a poll the event channel is closed |
| FsWatch.NoChangeAfterUnwatch | codex-rs/app-server/src/fs_watch.rs:145-214 | after the unwatch call that removed a watch has returned, no run sends a change for that watch |
| FsWatch.UnwatchCanReturn | codex-rs/app-server/src/fs_watch.rs:196-214 | the handshake cannot get stuck: once the watch looks at its slot, a waiting unwatch call can return, and the watch is over |
| FsWatch.UnwatchCompletes | codex-rs/app-server/src/fs_watch.rs:196-214 | in every reachable state an unwatch call for a watch of its connection can run to its end, with the watch gone and over; for any other it returns at once and changes nothing |
| FsWatch.AtMostOneChangeAfterClose | codex-rs/app-server/src/fs_watch.rs:216-222 | after its connection closed, a watch sends at most one more change |
| FsWatch.ChangeAfterClose | codex-rs/app-server/src/fs_watch.rs:216-222 | and a run that sends one exists |
| FsWatch.ChangeFollowsCloseExactly | codex-rs/app-server/src/fs_watch.rs:145-222 | in every reachable state, a change can follow the close if and only if the watch has already looked at its slot in this round or holds a batch |
| ShellQuote.QuoteRoundTrip | codex-rs/app-server-test-client/src/lib.rs:620-622 | any string survives quoting as one word |
| ShellQuote.ReadQuote | codex-rs/app-server-test-client/src/lib.rs:620-622 | a quoted string adds exactly itself to the word in progress |
| ShellQuote.SpecialRefused | codex-rs/app-server-test-client/src/lib.rs:620-622 | the reader that quoting is proved against accepts no operator, expansion or double quote outside quotes |
| ShellQuote.OpenQuoteRefused | codex-rs/app-server-test-client/src/lib.rs:620-622 | nor text that ends inside quotes |
| ShellQuote.CommandLine | codex-rs/app-server-test-client/src/lib.rs:530-537 | the shell reads the argument part of the command line as exactly the binary, the overrides and the listen URL |
| TurnBookkeeping.ThreadState.Handle | codex-rs/app-server/src/bespoke_event_handling.rs:298-306 | the handler's state stays the summary of all that happened, and it sends what that history calls for |
| TurnBookkeeping.ThreadState.HandleTurnEnd | codex-rs/app-server/src/bespoke_event_handling.rs:1756-1784 | a turn end takes the summary and, at an abort, every waiting interrupt |
| TurnBookkeeping.LastErrorMeaning | codex-rs/app-server/src/bespoke_event_handling.rs:2098-2197 | the remembered error is the last turn-affecting, non-rollback error since the previous turn end |
| TurnLaws.OutputsMean | codex-rs/app-server/src/bespoke_event_handling.rs:1356-1820 | each step sends exactly what the inputs so far call for: which starts, completions, deltas, turn reports, and which answers to interrupts and rollbacks, a success only for a rollback that was read back |
| TurnBookkeeping.OneReportPerTurn | codex-rs/app-server/src/bespoke_event_handling.rs:2106-2141 | each turn end reports one turn, failed with e exactly when e is that error and the turn was not aborted; interrupted turns carry none |
| TurnBookkeeping.StartsAreSeparated | codex-rs/app-server/src/bespoke_event_handling.rs:1554-1600 | between two starts of one file change the item was completed or its turn ended |
| TurnBookkeeping.InterruptsConserved | codex-rs/app-server/src/bespoke_event_handling.rs:1756-1780 | every interrupt gets one response, in order and in its own version, or still waits for an abort |
| TurnBookkeeping.RollbacksBalance | codex-rs/app-server/src/codex_message_processor.rs:3197-3235 | of the handler alone: rollback requests balance at every point if and only if each submission that fails is still the one in progress |
| TurnBookkeeping.CoreRunOrderly | codex-rs/core/src/codex.rs:5436-5538 | while the core reports once on each operation it accepted, at most one operation exists, and it belongs to the request in progress; so every submission that fails is still in progress |
| TurnBookkeeping.RollbacksAnswered | codex-rs/app-server/src/codex_message_processor.rs:3197-3235 | with that core, at every point each rollback request has been answered exactly once or is the one in progress; once the core has dealt with all operations, every request has exactly one answer |
| TurnBookkeeping.UnguardedRollback | codex-rs/app-server/src/codex_message_processor.rs:3197-3235 | what the handler would do with a core that reports on an operation it did not accept: one request answered twice, another never; no run with the real core goes so |

## Left out

- The trees that the exporter rewrites through mutable references are modelled as values that each pass returns: exclusive ownership makes the difference unobservable. The passes that loop over definitions or worklists are methods.
- Two JSON types: the exporter's objects are maps, because nothing it does depends on the order of keys; the canonicaliser's objects are ordered entries, because order is what it removes.
- An abort by error and an abort by panic are one `None`; messages are not modelled.
- Namespaces other than the single one the exporter is used with: the passes of `SchemaBundler` are proved equal to their specification for any namespaces, but the laws of bundling are stated for one (`SchemaBundle.OneNamespace`).
- BundleIsClosed: stated for schemas that meet `SchemaBundle.Accepted`: each reference into the definitions names a local definition, no `$defs` under a namespaced schema, no ignored or special local names, no look-up by a name without its numeric suffix. A reference into the inside of a shared root definition would fail the flattening check.
- ExportSucceeds: also needs a namespaced schema to exist, since the flattening fails without a `v2` namespace.
- AnnotateAddsTitles: a variant whose existing title is not a string is excluded, since the code replaces such a title.
- Definition names with `/`, `~` or percent-encoding: references are compared as plain text, as the code does.
- `to_pascal_case` upper-cases ASCII letters only, where the code uses Unicode upper-casing.
- The JSON counterpart of the experimental filters, numbered definition collisions, headers, index files, formatting and all file system work.
- Scanner depths are unbounded and positions count characters; the code uses 32-bit depths and byte offsets of the same characters.
- FilterKeepsExactly: for files without carriage returns whose alias holds the first `=` and whose body has no import-like line.
- FilterKeepsFields: for such alias files, and interface files without `=`, carriage returns or import lines behind the marker, with an object type whose body the scanner finds balanced (`TsInterface.TypeFile`).
- FilterTypeFieldsKeepsExactly: for the alias files among them.
- Forwarding is exact up to saturation of the 64-bit count of skipped events; beyond that nothing is claimed.
- Events that arrive after the consumer has closed: the in-process worker stops forwarding them, and no claim is made about them.
- The in-process worker's command branches, which hand each command to the runtime; the events read before the remote client starts its worker, which are returned first; connecting, authentication and timeouts.
- Whether a rejection in the in-process path is accepted by the runtime: the code ignores that result.
- Message framing is a sequence of inputs, each with the outcome of the write it causes.
- Process spawning, terminals, byte decoding and the select loop that runs a process; `CommandExecManager.End` covers both the end of a task and a failed spawn.
- CommandExecManager.Start: the connection must not have closed before, which is the promise that connection ids are not reused; generated ids do not wrap around.
- CommandExecManager.ConnectionClosed: removal and messages are one step, and a full control channel is not modelled.
- Real time in the debouncer: no minimum distance between batches is claimed, since the allowance is set once and never renewed.
- Watch ids are unique by assumption, as the random ids of the code are; normalising paths decides only whether a batch is sent.
- The shell grammar outside the argument part of the command line, and expansions: text that would need them is refused by `ShellQuote.Words`.
- What the core does between accepting a rollback and its one report; `TurnBookkeeping.CoreRun` says only which steps can follow a history.
- Handlers that only map one event to one notification, the content of items, and the cancellation of server requests at a turn end. Each handler is one step: the code holds its lock only while it changes the state.
