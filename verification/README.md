# Models of the Goyim-Arena tooling

Dafny models of the tools that guard the repository: the sealed stream of the backups, the finder
of copied code and its baseline, the compiler from OpenAPI schemas to TypeScript types, the check
that a contract stays compatible, the readers of workflow files and Caddyfiles, the retention of
backups, the message templates, the canonical query of signed requests, the drill that compares
ledgers and the reader of diffs. Each file is one module:

| file | models |
|---|---|
| SealedStream | the chunking writer and the streaming reader of sealed objects |
| Findings, DuplicateBlocks, Baseline | findings, the index of copied blocks, the ratchet over both |
| TypeScript, ContractTypes | a TypeScript type language with its text, and the compiler into it |
| JsonValues, Schemas, SchemaCompat | JSON values, the walk through the references of two documents, and the comparison of their schemas |
| Workflow, WorkflowRefusals, WorkflowPrint, WorkflowReading, WorkflowPaths | the indentation-stack reader, what it refuses, a printer, the round trip, the lookups by path |
| Caddyfile | lexer, parser and printer of Caddyfiles |
| Retention | the split of backups into kept and removed, and the pruning of the archive |
| Messages | placeholders, replacement, the bundle, the pseudo-locale |
| CanonicalQuery | percent encoding and the canonical query |
| LedgerCompare | the invariants of a ledger and the comparison of two readings |
| DiffLines | the tracker of inserted lines |
| Text, Order, Wrappers | shared: strings, the byte-wise order, options and results |

The algorithms that work step by step in the original (buffers, indexes, cursors, stacks, running
sums, builders) are methods with loops, and classes where fields are updated in place
(`SealedStream.SealedWriter`, `SealedStream.Sink`, `DuplicateBlocks.Region`, `Messages.Bundle`). Each
is proved against a function of its inputs, and what the original promises is proved about that
function. Clocks, nonces, digests and ciphers are parameters; what is assumed of a cipher is said by
`Correct` (what was sealed opens) or `Ideal` (only the object's records open), and `IdealIsAttainable`
shows that the stronger of the two can be met.

Where the code and its own comments differ the model follows the code. The cases found:

- the end mark of a sealed stream is not authenticated, so an object cut back to its first records and
  given an end mark is accepted (`SealedStream.AcceptedExactly`);
- a null member of an enumeration is accepted and given an empty literal, so the emitted union does
  not cover it (`ContractTypes.EnumCoveredExactly`), and a component may take a name that TypeScript
  reserves, whose declaration TypeScript refuses (`ContractTypes.OnlyIdentifiersAreAsked`; for the four
  primitives also `PrimitiveNameIsTaken`). `TypeScript.IsReserved` lists the names `TypeMeaning` leaves out;
- a component that refers back to itself is compared without end when both documents have it
  (`SchemaCompat.RecursiveComponentNeverReturns`, with the condition in `Schemas.ReturnsExactly` and
  `SelfComparisonReturnsExactly`);
- an enumeration introduced where there was none is not reported (`SchemaCompat.IntroducedEnumsAreNotFound`,
  for a component behind references `ComponentEnumIsNotFound`); which values that costs is said, if and only
  if, by `SilenceAdmitsExactly`;
- a value with an opening brace and one with a closing brace can spell a name whose turn is still to come
  (`Messages.TwoValuesSpellAName`, with the condition of each replacement in `ReplaceFillsExactly`);
- a Caddyfile that ends inside a block, or with one closing brace too many, is accepted
  (`Caddyfile.AcceptedIsBalancedExactly`, `UnbalancedIsAccepted`);
- a workflow list written at its key's own column is counted under the mapping that holds the key
  (`WorkflowReading.FlatListReads`);
- a workflow item whose first key has no value on its own line takes the item's other keys under that
  key (`WorkflowReading.WriteReadRoundTrip`), and a list written below its key is read as no list by the
  lookup that promises to read both forms (`WorkflowPaths.FlowListIsInline`, `FlowListExactly`);
- the baseline derives an owner from the least path while the finding takes it from the least place
  (`Baseline.NestedPathsDisagree`, with the condition in `PrintedDocumentIsAccepted`);
- two backups of one instant can lose the log the earlier one needs (`Retention.TiesAreNotSafe`, with the
  condition in `SafeExactly`);
- an inserted line that starts with two plus signs is taken for a file name and shifts what follows in
  its hunk (`DiffLines.AddedExactly`);
- the declared growth of the pseudo-locale is missed by long texts of wide characters
  (`Messages.GrowthExactly`, `WideTextFallsShort`);
- the rows behind one wallet are not compared (`LedgerCompare.RowsAreNotCompared`, with the condition in
  `RestoredIsCleanExactly`), and wallets that repeat an account are missed or come back twice unseen
  (`LedgerCompare.RepeatedAccountIsMissed`, `DuplicateIsUnseen`).

## Model

| member | source | states |
|---|---|---|
| SealedStream.SealedSize | tools/backupctl/seal.go:141-226 | The size of a sealed object depends on the size of its plaintext only: 26 bytes, the plaintext, and 20 for each record |
| SealedStream.RecordsSplit | tools/backupctl/seal.go:168-190 | Full records do not depend on what follows them, so any cut of the plaintext at a record boundary gives the same bytes |
| SealedStream.RoundTrip | tools/backupctl/seal.go:232-300 | Unsealing a sealed object followed by anything delivers the plaintext, and is accepted exactly when nothing follows |
| SealedStream.RefusedHeader | tools/backupctl/seal.go:232-259 | What is refused before the first record, and for what: a key of another length, other letters, a cut header, another chunk size |
| SealedStream.RefusedAfter | tools/backupctl/seal.go:268-300 | What is refused behind honest records, and for what: a cut, a length beyond the format, a record that does not open at its position; the records before it are delivered |
| SealedStream.CutObjectIsRefused | tools/backupctl/seal.go:237-299 | Every proper prefix of a sealed object is refused, with the reason its length decides, and delivers only a prefix of the plaintext |
| SealedStream.IdealIsAttainable | tools/backupctl/seal.go:302-325 | Some cipher meets the ideal condition for every object |
| SealedStream.ReadsOnlyRecords | tools/backupctl/seal.go:255-300 | From position i on, a reader of any stream delivers the object's records i to k in order, and accepts only those records and the end mark |
| SealedStream.AcceptedExactly | tools/backupctl/seal.go:232-310 | Under an ideal cipher every stream delivers exactly the first k records for some k, and is accepted exactly when it is the sealed form of such a prefix |
| SealedStream.SealedPrefixIsAccepted | tools/backupctl/seal.go:232-300 | The sealed form of the first k records is accepted and delivers them: dropping the tail goes unseen |
| SealedStream.AssociatedDataInjective | tools/backupctl/seal.go:304-310 | Associated data names one nonce and one 64-bit position |
| SealedStream.AssociatedDataLayout | tools/backupctl/seal.go:304-310 | Associated data is the nonce and the position in eight bytes, the high byte first |
| SealedStream.HeaderLayout | tools/backupctl/seal.go:141-166 | The first 22 bytes, each written out: five letters and a line end, the nonce, and 65536 in four bytes; the end mark is four zeros |
| SealedStream.RecordLayout | tools/backupctl/seal.go:209-226 | Where record i of a sealed object lies, that its first four bytes are the length of its chunk, and that the rest is the sealed chunk bound to its position |
| SealedStream.FlushedRecord | tools/backupctl/seal.go:209-226 | A flush adds the record of the buffered bytes at the position of the wrapping counter, and a full one keeps the boundary |
| SealedStream.SealedWriter.constructor | tools/backupctl/seal.go:141-166 | A new writer is empty, open, and its own buffer is fresh |
| SealedStream.SealedWriter.Flush | tools/backupctl/seal.go:209-226 | Exactly the buffered record arrives, or the part of it there is room for; only success empties the buffer and moves the counter |
| SealedStream.SealedWriter.Fill | tools/backupctl/seal.go:168-190 | Copying into the free end of the buffer keeps the tie between buffer, counter and emitted bytes |
| SealedStream.SealedWriter.FlushFull | tools/backupctl/seal.go:176-186 | A full buffer is flushed and the writer is in order or broken for good |
| SealedStream.SealedWriter.Accept | tools/backupctl/seal.go:172-188 | One round of a write takes the piece, whatever becomes of the flush |
| SealedStream.SealedWriter.Write | tools/backupctl/seal.go:168-190 | The plaintext taken grows by what is reported written; a failure breaks the object, a closed writer takes nothing |
| SealedStream.SealedWriter.Close | tools/backupctl/seal.go:194-207 | A successful first close leaves exactly the sealed object of everything taken; closing again reports success whatever the first close said |
| SealedStream.SealedWriter.Finish | tools/backupctl/seal.go:194-207 | The last flush and the end mark complete the object or leave a proper prefix of it |
| SealedStream.NewSealedWriter | tools/backupctl/seal.go:141-166 | No writer without a key of 32 bytes or when the header did not arrive; otherwise the header has been emitted and nothing else |
| SealedStream.PutHeader | tools/backupctl/seal.go:151-164 | The header arrives whole or up to the room there is |
| SealedStream.SealPieces | tools/backupctl/main.go:813-865 | For every way of cutting the plaintext into writes the stored bytes are the sealed object of the concatenation; a destination that fills up is left with something that is refused |
| SealedStream.BrokenIsRefused | tools/backupctl/seal.go:237-299 | What a broken writer has stored is refused and delivers a prefix of the plaintext |
| SealedStream.Unseal | tools/backupctl/seal.go:232-300 | The reader delivers and reports what the format says, and stops when the destination is full |
| SealedStream.UnsealRecords | tools/backupctl/seal.go:255-300 | The loop over records, with its wrapping position, delivers what the format says |
| Baseline.PathsNotEmpty | tools/complexityaudit/metrics.go:55-70 | The paths of a finding are sorted, they are exactly the paths of its places, and there is one when there is a place |
| Findings.PlaceRoundTrip | tools/complexityaudit/metrics.go:55-70 | A place written as path and line gives the path back |
| Findings.OwnerExactly | tools/complexityaudit/budgets.go:64-69 | The owner of a file is its directory, and a file that no directory holds is its own |
| Findings.IdentityExactly | tools/complexityaudit/metrics.go:43-52 | Two findings have one identity exactly when kind, file, name and measure are the same, or digest and files; line, value and owner are no part of it |
| DuplicateBlocks.NormalizedLines | tools/complexityaudit/metrics.go:373-386 | The counted lines of a source with their numbers, none with a newline in its text |
| DuplicateBlocks.LinesExactly | tools/complexityaudit/metrics.go:373-386 | In the lines of a file stands each raw line that counts, once, in order, under its path and the number it has in the file |
| DuplicateBlocks.CountsExactly | tools/complexityaudit/metrics.go:373-386 | A line counts exactly when something is left of it without the white space at its ends, and that does not start with two slashes |
| DuplicateBlocks.SpacesCollapse | tools/complexityaudit/metrics.go:373-386 | Words with any white space around them are read as the words with one space between them |
| DuplicateBlocks.CopiesSurviveCommentsAndIndentation | tools/complexityaudit/metrics.go:373-386 | Putting a blank or comment line into a block, or indenting a line, does not change the texts compared |
| DuplicateBlocks.OccurrencesExact | tools/complexityaudit/metrics.go:394-402 | The occurrence list of a window is the increasing list of exactly the windows with its text, and they share it |
| DuplicateBlocks.WindowTextInjective | tools/complexityaudit/metrics.go:479-486 | The concatenated text of a window loses nothing: equal texts are equal lists of lines |
| DuplicateBlocks.JoinIntsInjective | tools/complexityaudit/metrics.go:495-511 | The string key of an occurrence list names that list and no other |
| DuplicateBlocks.BuiltSkips | tools/complexityaudit/metrics.go:415-429 | A window already indexed, or not copied, keeps the index complete |
| DuplicateBlocks.BuiltExtends | tools/complexityaudit/metrics.go:430-434 | A window one line after an indexed one lengthens that region, and the index stays complete |
| DuplicateBlocks.BuiltOpens | tools/complexityaudit/metrics.go:435-437 | Any other copied window opens a region that nothing precedes |
| DuplicateBlocks.RunsPartition | tools/complexityaudit/metrics.go:404-438 | Every window that occurs twice is in exactly one region at one offset, and every window of a region occurs twice |
| DuplicateBlocks.RunsMaximal | tools/complexityaudit/metrics.go:404-438 | No region can grow a line at either end and still occur in the same places |
| DuplicateBlocks.RunsExact | tools/complexityaudit/metrics.go:390-466 | The regions are exactly the maximal runs: one partition of the copied windows, same places, same lines within one file, maximal |
| DuplicateBlocks.CopiedExactly | tools/complexityaudit/metrics.go:390-402 | A line starts a copied window exactly when the twenty counted lines from it on, all of one file, have the texts of twenty others |
| DuplicateBlocks.ReportedExactly | tools/complexityaudit/metrics.go:390-466 | In an exact report a line is in a region exactly when it starts such twenty lines, then in one region at one place, and every region has twenty lines and two places |
| DuplicateBlocks.IndexWindows | tools/complexityaudit/metrics.go:394-402 | The index maps every text to exactly where it occurs |
| DuplicateBlocks.FindRegions | tools/complexityaudit/metrics.go:404-438 | The loop over maps of regions extended in place ends with exactly the maximal runs |
| DuplicateBlocks.DuplicatedBlocks | tools/complexityaudit/metrics.go:440-458 | One finding for each maximal run, filed at its first place and owned by its least |
| DuplicateBlocks.FindingSays | tools/complexityaudit/metrics.go:440-466 | What a finding says of its run: path and line of the first copy, length, places in order, owner of the least, digest of the first twenty lines |
| DuplicateBlocks.FirstWindowNamesTheRun | tools/complexityaudit/metrics.go:447-455 | No two regions start with the same window text |
| DuplicateBlocks.RegionsHaveDistinctIdentities | tools/complexityaudit/metrics.go:47-52 | With a digest that tells texts apart, two regions never share an identity |
| Baseline.EntryOfKeepsIdentity | tools/complexityaudit/baseline.go:55-73 | The line printed for a finding has the finding's identity as its key |
| Baseline.AcceptsExactly | tools/complexityaudit/baseline.go:55-63 | A line accepts a finding exactly when file, name and measure are the same, or digest and files, listed in whatever order |
| Baseline.JudgeDocument | tools/complexityaudit/baseline.go:92-131 | The loop finds every fault of every line, and the lines whose key an earlier line has |
| Baseline.DocumentIsCleanExactly | tools/complexityaudit/baseline.go:92-131 | The document is clean exactly when its schema is the one read, every line is complete and no key is listed twice |
| Baseline.FaultsExactly | tools/complexityaudit/baseline.go:92-131 | For each of the five faults of a line, the exact condition under which it is found, field by field, and that there are no others |
| Baseline.BudgetsAre | tools/complexityaudit/budgets.go:126-166 | The fifteen budgets, measure by measure, of the product, its tools and the tests |
| Baseline.FloorsAre | tools/complexityaudit/baseline.go:186-214 | What the value of a line has to exceed: the budget of its measure where its file lies, or nineteen lines |
| Baseline.IndexEntries | tools/complexityaudit/baseline.go:136-151 | The map holds the last line of every key, and every line that is a hole or misnames its owner is found |
| Baseline.JudgeFindings | tools/complexityaudit/baseline.go:153-173 | Every finding that is new, grew or shrank against the line that accepts it is found |
| Baseline.FindOutlived | tools/complexityaudit/baseline.go:174-180 | Every line whose finding is gone is found |
| Baseline.JudgeEntries | tools/complexityaudit/baseline.go:136-183 | The comparison finds all the disagreements and nothing else |
| Baseline.ViolationsExactly | tools/complexityaudit/baseline.go:136-183 | For each of the six disagreements, the exact condition under which it is found: which way a value moved, against the last line of its key |
| Baseline.JudgedIsEmpty | tools/complexityaudit/baseline.go:136-183 | It is silent exactly when no line is a hole, nothing moved and no line outlived its finding |
| Baseline.RatchetIsExact | tools/complexityaudit/baseline.go:136-229 | Without repeats, silence means the same key set with equal values, every line above its floor and every owner the derived one, and conversely |
| Baseline.MeasuredEntry | tools/complexityaudit/baseline.go:65-73 | The line of a measured finding is complete, and sound exactly when the two ways to derive its owner agree |
| Baseline.PrintedDocumentIsAccepted | tools/complexityaudit/main.go:153-164 | The document a tree prints is accepted by the same tree exactly when identities are distinct and the owners agree |
| Baseline.UnnestedPathsAgree | tools/complexityaudit/baseline.go:216-229 | The owners agree when no path of a copied block begins another |
| Baseline.NestedPathsDisagree | tools/complexityaudit/baseline.go:216-229 | A family of copied blocks, in a file and in a directory whose name extends the file's, whose printed line is refused |
| Baseline.CopiedBlockIsMeasured | tools/complexityaudit/metrics.go:440-458 | Every finding of the duplicate finder is a measured finding |
| TypeScript.EscapePrefixFree | tools/contractgen/generate.go:524-547 | Escapes of string literals are prefix-free |
| TypeScript.QuotedUnique | tools/contractgen/generate.go:524-547 | A quoted literal ends where its text says it does |
| TypeScript.AtomUnique | tools/contractgen/generate.go:363-425 | Two alternatives with the same text in context are the same type |
| TypeScript.TypeUnique | tools/contractgen/generate.go:409-453 | Two types with the same text in context are the same type, through nested arrays |
| TypeScript.PrintInjective | tools/contractgen/generate.go:429-453 | Removing a repeated alternative by its text removes nothing else |
| TypeScript.UnionText | tools/contractgen/generate.go:429-453 | The text of a union is the texts of its parts with a bar between |
| TypeScript.AtomText | tools/contractgen/generate.go:363-425 | The texts of the single types |
| TypeScript.LiteralReadsBack | tools/contractgen/generate.go:524-547 | An escaped string literal reads back, escape by escape, as its text |
| TypeScript.LiteralIsSafe | tools/contractgen/generate.go:524-547 | No control character, line separator or character of markup stands in a literal as it is |
| ContractTypes.TypeMeaning | tools/contractgen/generate.go:292-425 | Every value valid under a schema inhabits the type emitted for it, through recursive references, arrays, nullable types, unions and enumerations; in a lossless schema nothing else does |
| ContractTypes.InterfaceMeaning | tools/contractgen/generate.go:238-289 | The interface of a component holds every valid object, and in a lossless document nothing else |
| ContractTypes.UnionMeaning | tools/contractgen/generate.go:429-453 | The collapsed union holds exactly the values of some member |
| ContractTypes.EnumMeaning | tools/contractgen/generate.go:486-547 | The literal types hold exactly the values an enumeration lists |
| ContractTypes.CollapseHasNoRepeats | tools/contractgen/generate.go:429-453 | No alternative is kept twice |
| ContractTypes.TypeWellFormed | tools/contractgen/generate.go:292-425 | Every emitted type is one whose text reads back |
| ContractTypes.EnumCoveredExactly | tools/contractgen/generate.go:524-547 | The emitted union covers an enumeration exactly when null is not a member |
| ContractTypes.ComponentIsWhole | tools/contractgen/generate.go:238-289 | In a lossless document validity by the keywords of an interface is validity under the whole component; in any document it asks for no more |
| ContractTypes.SupportedExactly | tools/contractgen/generate.go:292-547 | A fragment is accepted if and only if it is of the subset, said keyword by keyword: what a reference may have beside it, what a union, an enumeration, a type with its format and an array need |
| ContractTypes.ComponentSupportedExactly | tools/contractgen/generate.go:238-289 | A component is accepted if and only if it is an object of named properties, all supported, that defines what it requires |
| ContractTypes.DocumentSupportedExactly | tools/contractgen/generate.go:151-197 | A document is accepted if and only if it has components, and all are of the subset under plain names |
| ContractTypes.AcceptedType | tools/contractgen/generate.go:378-425 | The type of an accepted text, number, flag and array, written out |
| ContractTypes.OneTypeRendered | tools/contractgen/generate.go:332-360 | One type, alone or with null on either side: null comes last |
| ContractTypes.ReferenceType | tools/contractgen/generate.go:458-472 | A reference becomes the name after the prefix, or is refused for its siblings, its form, or a name nobody declares |
| ContractTypes.TypeRefused | tools/contractgen/generate.go:332-425 | Which refusal a fragment gets: no type, a nested object, an array without items or with a tuple, an unknown type, a format |
| ContractTypes.TwoTypesRefused | tools/contractgen/generate.go:332-360 | Two types beside each other that are not null are refused, and for being two when either would do alone |
| ContractTypes.InterfaceMembers | tools/contractgen/generate.go:238-289 | The members of an interface are exactly the properties in ascending order, each with its own type, optional exactly when it is not required |
| ContractTypes.OnlyIdentifiersAreAsked | tools/contractgen/generate.go:238-289 | A document of one component is accepted exactly when the name is an identifier and the component an interface: no reserved name is refused |
| ContractTypes.PrimitiveNameIsTaken | tools/contractgen/generate.go:378-406 | A reference to a component named like a primitive is written as the primitive, which holds none of the component's values |
| ContractTypes.EmitEnum | tools/contractgen/generate.go:486-519 | The loop over members with its set of seen texts computes the enumeration's type, and refuses what the function refuses |
| ContractTypes.EmitUnion | tools/contractgen/generate.go:429-453 | The loop over members computes the union |
| ContractTypes.EmitType | tools/contractgen/generate.go:292-329 | The compiler of fragments with its loops computes the type, and succeeds if and only if the fragment is of the subset |
| ContractTypes.EmitInterface | tools/contractgen/generate.go:238-289 | The component is refused or its sorted properties are rendered; it succeeds if and only if the component is of the subset |
| Schemas.DepthFalls | internal/contract/compat.go:426-514 | Where the comparison of a pair never meets a pair that leads back to itself, the recursion goes to pairs with fewer pairs ahead: the finite set of pairs ahead is the measure |
| Schemas.ReturnsExactly | internal/contract/compat.go:122-133 | The comparison has a bounded depth if and only if no pair of schemas it meets leads back to itself |
| Schemas.CycleHasTarget | internal/contract/compat.go:122-133 | Every chain of schemas that comes back to its start passes the target of a reference that leads back to itself |
| Schemas.OneAcyclicDocumentIsEnough | internal/contract/compat.go:122-133 | The comparison ends as soon as the references of one of the two documents form no cycle, whatever the other's do |
| Schemas.SelfComparisonReturnsExactly | internal/contract/compat.go:122-133 | A document is compared with itself to an end, from every schema, exactly when its references form no cycle |
| Schemas.SelfReferenceNeverReturns | internal/contract/compat.go:449-474 | A schema with a property or items that refer back to it is compared without end |
| SchemaCompat.SilenceUnfolds | internal/contract/compat.go:426-514 | Silence is a condition on each level and silence of every shared child, wherever the comparison started |
| SchemaCompat.SilentIff | internal/contract/compat.go:426-514 | The same, without the path |
| SchemaCompat.SelfIsSilent | internal/contract/compat.go:411-555 | A schema is compatible with itself wherever the comparison returns |
| SchemaCompat.FoundHere | internal/contract/compat.go:426-555 | What one level finds, kind by kind, with every keyword written out: required fields added, properties removed, types changed, values withdrawn, and the six keywords that may not change, when and only when |
| SchemaCompat.DiffExactly | internal/contract/compat.go:426-521 | A comparison finds exactly what is found at the levels it comes to, each at the place its path of properties and items is written as |
| SchemaCompat.SilenceFixesCombinators | internal/contract/compat.go:502-506 | Silence leaves allOf, oneOf, anyOf and not as they were |
| SchemaCompat.ComponentsExactly | internal/contract/compat.go:384-407 | The comparison of components finds exactly the components that are gone and what is found below those both have |
| SchemaCompat.Reflexive | internal/contract/compat.go:411-555 | In a document whose references form no cycle the comparison of every schema with itself returns and finds nothing |
| SchemaCompat.Transitive | internal/contract/compat.go:411-555 | Compatibility is transitive across three documents, through properties, items, enumerations, combinators and additional properties; that the third comparison returns follows |
| SchemaCompat.SilenceAdmitsExactly | internal/contract/compat.go:426-555 | After a silent comparison a value the baseline declares and accepts is valid under the head if and only if the enumerations the head introduces, wherever references lead, list what it holds there |
| SchemaCompat.SilenceKeepsValues | internal/contract/compat.go:426-555 | So a silent comparison without new enumerations keeps every such value valid |
| SchemaCompat.IntroducedEnumsAreNotFound | internal/contract/compat.go:426-555 | Enumerations introduced anywhere in the head document, behind references too, keep a silent comparison silent, and exactly the values they list stay valid |
| SchemaCompat.IntroducedEnumIsNotFound | internal/contract/compat.go:535-555 | One enumeration at the end of a path of properties and items defined in place: silent stays silent, and exactly the values that hold something unlisted there stop being valid |
| SchemaCompat.ComponentEnumIsNotFound | internal/contract/compat.go:384-555 | Giving an enumeration to a component, referred to from anywhere, keeps the comparison of all components silent, and says for each component which values stay valid |
| SchemaCompat.EnumBehindReference | internal/contract/compat.go:449-474 | The smallest pair of documents: a component whose property refers to one that gets an enumeration; nothing is found, whatever is listed, and the unlisted values stop being valid |
| SchemaCompat.IntroducedEnumBreaksExactly | internal/contract/compat.go:535-555 | Of the values the baseline declares and accepts, exactly those survive one more enumeration in place that the others admit and that hold nothing unlisted there |
| SchemaCompat.SilentSchemas | internal/contract/compat.go:384-407 | The comparison of two sets of components is silent exactly when none is missing and each pair is silent |
| SchemaCompat.ReferenceResolves | internal/contract/compat.go:102-120 | A reference to a component is followed to that component when it is there and an object, and nowhere else |
| SchemaCompat.RecursiveComponentNeverReturns | internal/contract/compat.go:384-407 | In every document that has a component with a property or items of its own type the comparison of the components with themselves does not return |
| SchemaCompat.RecursiveComponentExample | internal/contract/compat.go:384-407 | Such a document: one component with a property of its own type |
| SchemaCompat.CollectRequired | internal/contract/compat.go:436-445 | The loop finds exactly the fields that became required |
| SchemaCompat.CollectEnum | internal/contract/compat.go:535-555 | The loop finds exactly the values that were withdrawn |
| SchemaCompat.CollectRemoved | internal/contract/compat.go:449-474 | The loop finds exactly the properties that were removed |
| SchemaCompat.CompareProperties | internal/contract/compat.go:449-474 | The recursion over shared properties finds what the comparison says |
| SchemaCompat.CollectCombinators | internal/contract/compat.go:488-514 | The loop finds exactly the combinators that changed |
| SchemaCompat.CompareItems | internal/contract/compat.go:488-514 | The recursion into items finds what the comparison says |
| SchemaCompat.Compare | internal/contract/compat.go:426-433 | The whole comparison of two schemas finds exactly what is found at the levels along its paths |
| Workflow.FindComment | tools/ciaudit/workflow.go:251-270 | The loop with its two quote flags finds the comment the scan defines |
| Workflow.Unwind | tools/ciaudit/workflow.go:118-120 | The loop closes exactly the levels that are not above the line; every stack is strictly ascending by its type |
| Workflow.CollectBlock | tools/ciaudit/workflow.go:189-211 | The loop collects the lines of a block scalar and where it ends |
| Workflow.EmitBlock | tools/ciaudit/workflow.go:189-216 | The block without the blank lines that end it |
| Workflow.ReadLine | tools/ciaudit/workflow.go:108-175 | One line's effect on entries and stack, or its refusal |
| WorkflowRefusals.RefusedExactly | tools/ciaudit/workflow.go:106-155 | A line is skipped exactly when it is white space and perhaps a comment; it is refused exactly for a tab in front, else for standing below a value, else for being neither item nor key |
| WorkflowRefusals.KeyExactly | tools/ciaudit/workflow.go:230-241 | Without a comment a line is a key exactly when it opens a mapping; its value is what follows the colon, trimmed and unquoted |
| WorkflowRefusals.QuotesHideComments | tools/ciaudit/workflow.go:251-270 | A hash in matching quotes starts no comment |
| WorkflowRefusals.CommentsStart | tools/ciaudit/workflow.go:251-270 | Outside quotes a hash starts a comment exactly in front or behind a space or tab |
| Workflow.ReadItemLine | tools/ciaudit/workflow.go:126-159 | The branch for an item of a list |
| Workflow.ReadKeyLine | tools/ciaudit/workflow.go:161-174 | The branch for a key |
| Workflow.ParseWorkflow | tools/ciaudit/workflow.go:100-177 | The loop over lines gives the entries or the first refusal |
| WorkflowPrint.FieldSplits | tools/ciaudit/workflow.go:230-280 | The line of a key gives back key, unquoted value and comment, for every text that starts no comment of its own |
| WorkflowReading.ScriptReads | tools/ciaudit/workflow.go:189-216 | A written block scalar is read back whole, at any depth and before anything that ends it |
| WorkflowReading.ScriptValue | tools/ciaudit/workflow.go:218-227 | A block under a bar keeps its lines; one under an angle bracket is one line, a space where a line ended, trimmed |
| WorkflowReading.QuotesAreTaken | tools/ciaudit/workflow.go:274-280 | A text in matching quotes is read as what is between them, any other as it stands |
| WorkflowReading.MappingOpensExactly | tools/ciaudit/workflow.go:230-246 | Which lines open a mapping: a key of the characters allowed, a colon, and nothing or white space after it |
| WorkflowReading.ItemsStart | tools/ciaudit/workflow.go:100-178 | An item starts with a dash that stands alone or before a space |
| WorkflowReading.ReadFields | tools/ciaudit/workflow.go:100-177 | The fields of a mapping at any column are read into their scalars and the stack returns to the mapping's level |
| WorkflowReading.ReadItems | tools/ciaudit/workflow.go:126-159 | The items of a list are read into their scalars under counted paths |
| WorkflowReading.FlatListReads | tools/ciaudit/workflow.go:116-159 | A list at its key's own column is counted under the mapping that holds the key, for every key, column and list |
| WorkflowReading.WriteReads | tools/ciaudit/workflow.go:100-177 | What the reader makes of every written document, well shaped or not, with either line end |
| WorkflowReading.WriteReadRoundTrip | tools/ciaudit/workflow.go:100-177 | Writing and reading gives exactly the tree's paths, values, comments and lines in order, when and only when the first key of every item with several keys has its value on its line |
| WorkflowPaths.Under | tools/ciaudit/workflow.go:301-312 | The loop selects the entries at or below a path |
| WorkflowPaths.At | tools/ciaudit/workflow.go:284-291 | The loop finds the first entry at a path |
| WorkflowPaths.UnderIsSubtree | tools/ciaudit/workflow.go:299-312 | What is under the path of any place of a document is exactly that place's scalars, in order |
| WorkflowPaths.KeysApart | tools/ciaudit/workflow.go:301-312 | Nothing is below two different keys of one mapping |
| WorkflowPaths.ItemsApart | tools/ciaudit/workflow.go:301-312 | Nothing is below two different items of one list |
| WorkflowPaths.SplitFlow | tools/ciaudit/workflow.go:386-397 | The loop splits an inline list into its unquoted, non-empty parts |
| WorkflowPaths.BracketsAreRead | tools/ciaudit/workflow.go:384-397 | Texts written in brackets with commas, white space and quotes around them are read as the texts |
| WorkflowPaths.PlainIsOnePart | tools/ciaudit/workflow.go:384-397 | A scalar without brackets is a list of one |
| WorkflowPaths.FlowList | tools/ciaudit/workflow.go:371-382 | The lookup of a list as the code does it |
| WorkflowPaths.FlowListIsInline | tools/ciaudit/workflow.go:368-382 | In every accepted file the lookup reads only a list written on its key's line |
| WorkflowPaths.FlowListExactly | tools/ciaudit/workflow.go:368-382 | For every key of a written document: an inline list is read into its parts, a list below its key as nothing |
| Caddyfile.ScanQuoted | tools/caddyaudit/parse.go:101-129 | The scan of a quoted value finds its end, if it has one, and counts its lines |
| Caddyfile.EmitUnescaped | tools/caddyaudit/parse.go:165-183 | The flag-driven loop drops backslashes and keeps what follows one |
| Caddyfile.NextToken | tools/caddyaudit/parse.go:79-139 | One round of the lexer |
| Caddyfile.Tokenize | tools/caddyaudit/parse.go:75-141 | The lexer's loop over index and line gives the tokens, or the refusal of an unclosed quote |
| Caddyfile.ReadArgs | tools/caddyaudit/parse.go:52-58 | The arguments of one line |
| Caddyfile.ReadStatement | tools/caddyaudit/parse.go:50-70 | One statement with its block, and where the cursor is after it |
| Caddyfile.ReadStatements | tools/caddyaudit/parse.go:45-72 | The shared cursor reads a list of statements to the end or past its brace |
| Caddyfile.ReadFile | tools/caddyaudit/parse.go:27-43 | A whole file, or the refusal of what follows the last block |
| Caddyfile.QuotedReadsBack | tools/caddyaudit/parse.go:101-129 | An escaped and quoted argument reads back as itself |
| Caddyfile.LexBare | tools/caddyaudit/parse.go:93-154 | A word without quotes is one token with its line, braces inside or in front of it included; only a brace that is the whole word stands alone |
| Caddyfile.LexWords | tools/caddyaudit/parse.go:75-154 | A line of such words, with any white space between them, gives exactly its words |
| Caddyfile.LexCommentLine | tools/caddyaudit/parse.go:86-92 | A comment ends with its line and leaves no token |
| Caddyfile.LexRaw | tools/caddyaudit/parse.go:101-129 | A text in backquotes, without a backslash, is one token with the line it ends on |
| Caddyfile.LexUnclosed | tools/caddyaudit/parse.go:101-129 | A value whose quote does not come again is refused |
| Caddyfile.LexPrinted | tools/caddyaudit/parse.go:75-141 | Lexing printed statements, bare words and quoted ones, gives their tokens with their lines |
| Caddyfile.ParseKeepsArguments | tools/caddyaudit/parse.go:45-72 | The arguments of a parse, in preorder, and the tokens left are the tokens that are no braces |
| Caddyfile.AcceptedKeepsEveryToken | tools/caddyaudit/parse.go:27-72 | In every accepted file the arguments in preorder are exactly the tokens that are no braces |
| Caddyfile.ParseStopsUnmatched | tools/caddyaudit/parse.go:45-72 | A parse stops behind the first closing brace that closes nothing, however deep the blocks before it |
| Caddyfile.AcceptedBraces | tools/caddyaudit/parse.go:27-43 | Accepted are exactly the token lists of which no proper beginning closes more blocks than it opens |
| Caddyfile.AcceptedIsBalancedExactly | tools/caddyaudit/parse.go:27-72 | An accepted file balances its braces, or ends inside a block, or ends with one closing brace too many: each exactly by its balance |
| Caddyfile.UnbalancedIsAccepted | tools/caddyaudit/parse.go:45-72 | The two shortest files that are accepted without balance: a lone opening brace and a lone closing one |
| Caddyfile.ParsedIsParsable | tools/caddyaudit/parse.go:45-72 | Every tree the parser returns is one that can be printed and parsed |
| Caddyfile.ParsePrinted | tools/caddyaudit/parse.go:45-72 | Parsing the tokens of such a tree gives the tree and consumes the brace after it |
| Caddyfile.PrintParseRoundTrip | tools/caddyaudit/parse.go:27-183 | Printing, which leaves bare words bare and quotes the others, and parsing is the identity exactly on the trees a parser can return |
| Retention.NewestFirstKeeps | tools/backupctl/main.go:562-571 | The sort loses and adds nothing |
| Retention.NewestFirstSorts | tools/backupctl/main.go:562-571 | The sort puts the newest first |
| Retention.NewestFirstIsStable | tools/backupctl/main.go:562-571 | The sort keeps the order of backups of one instant |
| Retention.Rise | tools/backupctl/main.go:562-571 | The inner loop of swaps puts one manifest in its place |
| Retention.SortNewestFirst | tools/backupctl/main.go:562-571 | The in-place sort gives the sorted list |
| Retention.Divide | tools/backupctl/main.go:572-582 | The loop cuts the sorted list in two |
| Retention.SelectBackups | tools/backupctl/main.go:561-582 | Kept are the first of the sorted list, removed the others |
| Retention.SelectionKeeps | tools/backupctl/main.go:561-582 | Nothing is lost or duplicated, what is newer than the cutoff stays, the floor is held, nothing removed is newer than anything kept |
| Retention.RaisingAKnobKeepsMore | tools/backupctl/main.go:561-582 | Raising either knob never removes more |
| Retention.KeptExactly | tools/backupctl/main.go:561-592 | Which backups stay: the newest by number, and those younger than that many days of 24 hours; an unreadable date is the oldest |
| Retention.SegmentReadsBack | tools/backupctl/main.go:690-704 | The name of a position reads back as its timeline, its log and the 16 MiB that hold the offset |
| Retention.HexReadsBack | tools/backupctl/main.go:690-704 | Digits written in either case read back to their number |
| Retention.HexValueExactly | tools/backupctl/main.go:690-704 | Text is read as a number exactly when it is made of hexadecimal digits |
| Retention.StartReadsBack | tools/backupctl/main.go:690-704 | The start a manifest writes, in digits of either case and with leading zeros, is the position read |
| Retention.StartExactly | tools/backupctl/main.go:690-704 | A backup has a start exactly when its manifest writes, with white space around, two hexadecimal numbers of 32 bits and a slash; then that is its start |
| Retention.NoFloorExactly | tools/backupctl/main.go:667-704 | For which reason no floor is derived from a backup |
| Retention.NameOrder | tools/backupctl/main.go:635-659 | Archived names are ordered like the three numbers they read as |
| Retention.NameBeforeStart | tools/backupctl/main.go:635-659 | A name is below the floor of a backup exactly when all of its segment lies before the start of the backup |
| Retention.SegmentOfLSNIsValid | tools/backupctl/main.go:690-714 | Every segment name derived from a position is a valid one |
| Retention.HexOrder | tools/backupctl/main.go:690-704 | Fixed-width hexadecimal text is ordered like the numbers |
| Retention.SegmentOrder | tools/backupctl/main.go:690-704 | The string order of segment names is the order of timeline, log and offset's top byte, for all 32-bit inputs |
| Retention.OldestSegmentOf | tools/backupctl/main.go:667-684 | The floor is the start segment of the first of the oldest kept backups, or the refusal to derive one |
| Retention.PrunedExact | tools/backupctl/main.go:635-659 | Deleted are exactly the valid segment names before the floor |
| Retention.PrunedByPosition | tools/backupctl/main.go:617-659 | Deleted are exactly the archived names that say a segment all of which lies before the start of the oldest kept backup |
| Retention.PruneWAL | tools/backupctl/main.go:617-662 | The whole policy, with its refusals; by position, deleted are exactly the archived segments that end before the start of the oldest kept backup |
| Retention.SafeExactly | tools/backupctl/main.go:617-662 | Pruning is safe for every archive exactly when no kept backup starts before the floor |
| Retention.PruningKeepsWhatIsNeeded | tools/backupctl/main.go:617-688 | When kept backups start in the order they were created, nothing at or after any kept backup's start is deleted |
| Retention.DeletedLiesBeforeEveryStart | tools/backupctl/main.go:617-688 | When kept backups start in the order they were created, all of every deleted segment lies before the start of every kept backup, in numbers read from its name |
| Retention.TiesAreNotSafe | tools/backupctl/main.go:667-684 | Two backups of one instant that start in different segments lose the earlier one's |
| Messages.RenderScan | internal/i18ngen/validate.go:155-170 | Reading placeholders loses no byte of a message |
| Messages.ScanRender | internal/i18ngen/validate.go:155-170 | A clean template is what its text is read as |
| Messages.AcceptedIsClean | internal/i18ngen/validate.go:155-170 | A message is accepted exactly when no brace stands outside a placeholder |
| Messages.NamesAre | internal/i18ngen/validate.go:155-170 | What a placeholder name is, character by character |
| Messages.PlaceholdersAscend | internal/i18ngen/validate.go:155-170 | The names of an accepted message are in ascending order |
| Messages.ReplaceFills | internal/i18n/i18n.go:61-74 | Replacing one name in a clean template's text fills its holes and nothing else |
| Messages.ReplaceFillsExactly | internal/i18n/i18n.go:61-74 | With braces in the text, replacing one name fills its holes and nothing else if and only if no letters spell its placeholder, or its value is the placeholder |
| Messages.UnspelledIsSimultaneous | internal/i18n/i18n.go:61-74 | Replacing names one at a time, in any order, is simultaneous substitution as long as no value spells the name whose turn it is |
| Messages.SequentialIsSimultaneous | internal/i18n/i18n.go:61-74 | For a clean template that is so whenever no value opens a brace, or none closes one |
| Messages.SubstituteHasNoBrace | internal/i18n/i18n.go:61-74 | The result holds no brace |
| Messages.AcceptedMessageFormats | internal/i18n/i18n.go:61-74 | Every accepted message formats to its substitution when no value opens a brace or none closes one |
| Messages.ValueWithBracesIsReplacedAgain | internal/i18n/i18n.go:61-74 | The condition on values is needed: a value that is a placeholder is replaced again |
| Messages.TwoValuesSpellAName | internal/i18n/i18n.go:61-74 | And on all values together: what one value opens and another closes is replaced as a third name |
| Messages.Format | internal/i18n/i18n.go:61-74 | An unknown locale or key is refused, else the first name without a value; otherwise the stored message of the key is substituted with every name it has |
| Messages.Bundle.AbsorbMessage | internal/i18ngen/validate.go:103-131 | One message is stored, or refused as malformed or as diverging, exactly when it is; every locale's message of a key keeps the key's placeholders |
| Messages.Bundle.Absorb | internal/i18ngen/validate.go:103-131 | A catalog is taken in key by key up to the first refusal; without one every message is stored |
| Messages.KeepsOthers | internal/i18ngen/validate.go:103-131 | Taking in a message stores it and touches no other key |
| Messages.Bundle.CheckKeyParity | internal/i18ngen/validate.go:134-151 | Accepts exactly the bundles in which every key has every locale |
| Messages.Bundle.EveryLocaleFormats | internal/i18ngen/validate.go:103-131 | In a bundle every locale's message formats with the key's one list of names |
| Messages.PseudoMessage | internal/i18n/pseudo.go:89-125 | The flag-driven loop and the padding loop give the derived message |
| Messages.PseudoKeepsPlaceholders | internal/i18n/pseudo.go:60-125 | The derived message is accepted when its source is, with the same names |
| Messages.PseudoReads | internal/i18n/pseudo.go:89-125 | The derived message opens with a bracket, holds the message letter by letter, accented exactly where no brace is open, and is filled with bullets, four for every twelve bytes begun of half its characters |
| Messages.AccentsAre | internal/i18n/pseudo.go:60-69 | The sixteen letters that are accented, each with its accent, and no others |
| Messages.PseudoSize | internal/i18n/pseudo.go:89-125 | The size of a derived message to the byte, and at least half the characters and six bytes more |
| Messages.GrowthExactly | internal/i18n/pseudo.go:50-54 | When the declared minimum growth is met, exactly, and a bound on bytes per character that suffices |
| Messages.WideTextFallsShort | internal/i18n/pseudo.go:50-54 | Every long enough text of characters of three bytes or more misses it |
| CanonicalQuery.EncodeRoundTrip | tools/backupctl/s3.go:479-490 | Encoding emits only unreserved bytes and triples (sections 2.1 and 2.3 of RFC 3986) and decodes to its input |
| CanonicalQuery.EncodeByteExactly | tools/backupctl/s3.go:479-490 | Which bytes stand for themselves, and that any other is a percent sign and its two upper-case digits |
| CanonicalQuery.EncodeInjective | tools/backupctl/s3.go:479-490 | Encoding is injective |
| CanonicalQuery.EncodeAvoids | tools/backupctl/s3.go:479-490 | No separator is ever emitted |
| CanonicalQuery.EmitKey | tools/backupctl/s3.go:479-490 | The encoder's loop |
| CanonicalQuery.EmitPath | tools/backupctl/s3.go:468-474 | The encoder of paths overwrites the segments in place |
| CanonicalQuery.EncodePathInjective | tools/backupctl/s3.go:468-474 | Two keys are never sent to one path, and segments stay segments |
| CanonicalQuery.CanonicalQuery | tools/backupctl/s3.go:446-465 | The nested loops over sorted keys and sorted values give the canonical text; a query that does not parse stays as it is |
| CanonicalQuery.CanonicalReadsBack | tools/backupctl/s3.go:446-465 | Split at the ampersands, and each part decoded around its equals sign, the text lists every key with exactly its values, by key and then by value |
| CanonicalQuery.QueryDeterminesPairs | tools/backupctl/s3.go:446-465 | Equal texts list the same pairs in the same order |
| CanonicalQuery.CanonicalExactly | tools/backupctl/s3.go:446-465 | Two queries get one text exactly when they hold the same keys with the same values as often |
| LedgerCompare.Violations | tools/drillaudit/ledger.go:188-239 | The loop with its two running 64-bit sums gives the refusals of a reading |
| LedgerCompare.CleanExactly | tools/drillaudit/ledger.go:188-239 | A reading is clean exactly when no wallet is negative or drifted, the wallets add up to the totals and every row is explained |
| LedgerCompare.RefusedExactly | tools/drillaudit/ledger.go:188-239 | For each of the eight rules of a reading, the exact condition under which it is refused, and under which name |
| LedgerCompare.WrapExactly | tools/drillaudit/ledger.go:194-200 | Sums and doubles are those of 64 bits: the one value in range that differs by a multiple of two to the 64th |
| LedgerCompare.TotalsAreTrueSums | tools/drillaudit/ledger.go:194-232 | The totals are the true sums exactly when those fit in 64 bits |
| LedgerCompare.IndexWallets | tools/drillaudit/ledger.go:251-254 | The map holds the last wallet of every account |
| LedgerCompare.CompareRestored | tools/drillaudit/ledger.go:255-268 | The loop finds the wallets added or changed |
| LedgerCompare.CompareLost | tools/drillaudit/ledger.go:269-277 | The two loops find the wallets lost |
| LedgerCompare.Compare | tools/drillaudit/ledger.go:245-309 | The whole comparison gives the differences in order |
| LedgerCompare.DifferencesExactly | tools/drillaudit/ledger.go:245-309 | For each of the nine differences of two readings, the exact condition under which it is found: added, changed against the last wallet of its account, lost, and figure by figure |
| LedgerCompare.SilentExactly | tools/drillaudit/ledger.go:245-309 | With unique accounts in the baseline, silence means the same wallets with the same four balances and the same figures, in any order, and conversely |
| LedgerCompare.RepeatedAccountIsMissed | tools/drillaudit/ledger.go:251-277 | Silence means the same wallets, whatever comes back, exactly when no earlier wallet of an account in the baseline differs from the last |
| LedgerCompare.DuplicateIsUnseen | tools/drillaudit/ledger.go:255-277 | A wallet that comes back twice is not noticed, and the restored wallets then add up to more |
| LedgerCompare.SilentSumsExactly | tools/drillaudit/ledger.go:245-309 | After every silent comparison the restored sums are the baseline's and what the wallets that came back again add up to |
| LedgerCompare.SilentMoneyExactly | tools/drillaudit/ledger.go:188-309 | So the restored money of a baseline in order is in order exactly when what came back again vanishes in 64 bits |
| LedgerCompare.SameSums | tools/drillaudit/ledger.go:194-200 | The same wallets add up to the same sums in whatever order they are listed |
| LedgerCompare.SilenceConservesMoney | tools/drillaudit/ledger.go:245-309 | After a silent comparison the restored money is in order exactly when the baseline's was, and the sums are equal |
| LedgerCompare.RestoredIsCleanExactly | tools/drillaudit/ledger.go:188-309 | After a silent comparison the restored reading is clean exactly when the baseline's money was in order and the rows of every restored wallet explain it |
| LedgerCompare.RowsAreNotCompared | tools/drillaudit/ledger.go:255-268 | A clean baseline and a silent comparison do not make the restored reading clean |
| DiffLines.AddedLines | tools/coverageaudit/diff.go:46-86 | The loop with its counter gives the lines found |
| DiffLines.HeaderReadsBack | tools/coverageaudit/diff.go:88-108 | The start in the header of every hunk is read back, whatever the section text |
| DiffLines.AtoiExactly | tools/coverageaudit/diff.go:88-108 | Every 64-bit integer is read from its decimal text, and no number beyond them |
| DiffLines.AtoiIsDigits | tools/coverageaudit/diff.go:88-108 | What is read as a number is decimal digits behind at most one sign |
| DiffLines.MalformedStartsNowhere | tools/coverageaudit/diff.go:88-108 | A header without a plus sign, without an end of its range, or with a start that is no number, starts nowhere |
| DiffLines.RunInserted | tools/coverageaudit/diff.go:59-76 | Inserted lines are numbered from the hunk's start, the unseen ones left out |
| DiffLines.AddedIsFound | tools/coverageaudit/diff.go:46-86 | What the reader finds in the text of every valid diff |
| DiffLines.HunksExactly | tools/coverageaudit/diff.go:46-108 | The lines found are those the headers speak for, across any number of hunks, when and only when no inserted line starts with two plus signs |
| DiffLines.ReportedPlaces | tools/coverageaudit/diff.go:88-108 | For every script of kept, deleted and inserted lines the numbers in the headers of its hunks are the positions of the inserted lines in the new file |
| DiffLines.EveryScriptIsReported | tools/coverageaudit/diff.go:46-86 | Every script is reported by some hunks |
| DiffLines.AddedExactly | tools/coverageaudit/diff.go:46-108 | From the diff between any two files only positions of inserted lines in the new file are found, and all of them exactly when no inserted line starts with two plus signs |

## Left out

- Wiring, flags and process edges (`cmd/`, `internal/bootstrap`, `internal/ports`, `internal/buildinfo`) and the product modules, whose packages hold no logic.
- The inside of ciphers and digests, randomness and key files: ciphers and digests are parameters with stated conditions, the nonce is an input.
- Sealed streams: write errors that come and go, and read errors other than the end of the stream. A destination fills up once and for all.
- HTTP, object storage, pagination, git and test subprocesses, database queries, file walks and JSON decoding: the models start from the decoded value, and whether a query parses is an input.
- Measures over Go syntax trees (cyclomatic complexity, nesting, statement counts) and regular expression engines; the placeholder and mapping patterns are predicates over characters.
- The order in which findings are reported and the `Index` of a finding of the duplicate finder.
- The rule lists of composeaudit, caddyaudit, ciaudit, dependencyaudit, diffaudit, deadcodeaudit, governanceaudit and dast, whose checks are single branches.
- Messages of refusals, report printing, the text layout of interfaces, generated catalogs and front-end files.
- Operations, parameters, responses, security and version bumps of `compat.go`: dropped parameters and media types pass there, so silence is not transitive at that level. The comparison by canonical JSON is modelled as equality of values.
- Workflow files with blank lines and comment lines between entries, and lists at their key's own column, are read by the model but not written by the printer; `jobIDs` and `stepPaths` are not modelled.
- The attribution of inserted lines to coverage blocks (`lineCovered`, `diffCoverage`).
- Creation times of backups are instants, not their text; the listing and deletion of objects and `validArchivedName` are not part of the model.
- Directory walks of the message loader and `DerivePseudo`, which maps the derivation over a catalog; catalogs are maps from namespace and key.
