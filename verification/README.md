# RAGFlow: metadata push-down, canvas runs and DSL migration

A Dafny 4.11 model of three connected parts of RAGFlow, three small companions, and proofs about them.

* **Metadata filters.** `MetaFilter` is the in-memory filter: every filter is tried on every value bucket of its key and
  the document sets are folded; `MemoryVerdicts` says what it decides in terms of numbers, dates and texts. `EsQuery`
  gives Elasticsearch bool queries a meaning, `EsTranslate` is the translation to them, `PushdownOperands` says what it
  asks for in terms of the filter value, and `Pushdown`, `PushdownAgreement` and `PushdownSoundness` compare the two
  verdicts document by document and then for whole queries. `InfinityFilter` prints the same filters as SQL text;
  `SqlText` and `SqlTree` read that text back (literals as in section 5.3 of ISO/IEC 9075-2:2003, NOT over AND over OR),
  and `InfinityMeaning`, `InfinityDenotation` and `InfinityRows` prove what it denotes and which rows it selects.
  `Globs` is the wildcard and LIKE matcher both backends share.
* **Canvas runs.** `CanvasModel` is the worklist of the agent engine as a state machine, `CanvasBatch` says exactly what
  one turn does, `CanvasSafety` and `CanvasTheorems` prove what holds in every state of every run, and `CanvasRun` is
  the object that rewrites its path in place, proved to move exactly as the machine does. `Variables` and `VariableTree`
  are variable reading and writing, on values and on dictionary objects updated in place; `Templates` is text
  substitution and `TemplateValues` what it renders.
* **DSL migration.** `DslMigration` states what the migration makes of a JSON document (`JsonDoc`), `MigrationCode` is
  the code with its loops and overwrites, `References` and `ReferenceScan` are its reference scanner.
  `MigrationIdempotence`, `MigrationIsomorphism`, `MigrationCompleteness`, `MigrationGraph`, `MigrationEdgeIds`,
  `MigrationTexts`, `ReferencePreservation` and `MigrationReferences` hold the theorems; `PrefixReplacement` is about
  text replacements that exchange prefixes.
* **Companions.** `MetadataMerge` (merging metadata), `TokenUsage` (counters shared by concurrent calls) and
  `McpSession` (the request, reply and close protocol of an MCP session). `Text`, `PyValues` and `Sequences` are shared.

What the interpreter decides is a parameter: `ast.literal_eval`, `str`, ordering of values, `json.loads`,
`json_repair.loads`, `int`, `getattr`. So is what a component does: its outcome, successors, input references,
cancellation and user input are parameters of a canvas run. Every theorem holds for all of them.

## What the proofs show about the code

Where the code and its documentation part, the model follows the code.

* The comment at `common/metadata_es_filter.py:83-85` says that the pushed-down `not contains` has the in-memory
  meaning on multi-valued fields. It does not: on the values `[a, b]`, `not contains a` is rejected by the query and
  accepted in memory (`NotContainsExample`). The same holds for `not empty`. `PlainAgreement` gives the exact
  condition: the two differ if and only if one value of the key passes the test and another does not.
* Nor does the query always stay inside what the in-memory filter selects. `OneSidedIff` says, operator by operator
  and exactly, when it does, for filter values that reach the keyword sub-field as plain text: for `contains` and
  `not contains` the filter value must be a string, for `=` a date or without surrounding blanks, for `≠` no date and
  without surrounding blanks, and so on. `not contains` with the number 5, which the routing accepts, finds a document
  where nothing can match in memory (`NotContainsNumberExample`); `not in` with the text `abc,d`, which only the
  translator accepts, finds the value `a`, which occurs in that text (`NotInTextExample`). A query over one-sided
  filters is one-sided as a whole (`PushdownIsSound`).
* A filter `> 3` does not only select documents with a number greater than 3. A stored text that is no literal is
  compared with the text `3`, so that `draft` passes (`TextPassesNumberExample`); `NumberFilterSelects` says exactly
  which values do. The SQL text compares numbers only (`BuiltTextSelectsRows`).
* `in` with a comma-separated text is a test for a listed member in the index and a substring test in memory.
  `InTextAgreement` says on which documents the two agree; there is no text on which they agree for all documents
  (`InTextNeverAlwaysAgrees`).
* `empty` also finds documents without the key; they are in no bucket. The two agree exactly on documents that have
  the key (`EmptyAgreement`).
* `≠` with a date is not even one-sided: in memory only dates can differ from a date. `NotEqualDateUnsound` says
  exactly which documents the clauses accept although the in-memory test rejects them.
* Surrounding blanks are trimmed from `in` members and `=` values by the push-down only, and `contains` with a value
  that is no string matches nothing in memory; each is an if-and-only-if (`InNeedsTrimmedMembers`,
  `EqualNeedsTrimmedValue`, `ContainsNeedsString`). An empty filter list finds everything in the knowledge bases in
  one path and nothing in the other (`EmptyFilterListAgreement`).
* The migration's reference pattern is wider than the one templates are evaluated with: it allows blanks inside the
  braces and hyphens in ids. A template keeps its value exactly when everything the migration renames is also a
  reference at run time (`TemplateKeepsItsText`); `{ Splitter:A@x }` is plain text at run time and is rewritten all
  the same (`GapExample`).
* Two component ids collide after the renaming exactly when a legacy id and its current spelling are both present
  (`InjectiveIffNoClash`), and then, and only then, a component is lost (`ComponentCountKept`).
* Edge ids are rewritten by plain text replacement, so a legacy id is also replaced inside a longer one: with the
  components `Splitter:A` and `MySplitter:A`, the edge id `MySplitter:A` becomes `MyTokenChunker:A` although that
  component keeps its id (`EdgeIdExample`). An edge id stays as it is if and only if no legacy id occurs in it
  (`EdgeIdStays`). An edge id built from its ends becomes the one built from their images if and only if every place at
  which the replacements act, longest id first, is a legacy end that still stands, and both ends are reached
  (`EdgeIdIsImage`): a letter replaced anywhere else is never restored by a later replacement.
* A migrated document draws the same canvas under new names if and only if no two components collide and nothing that
  named no component comes to name one (`MigrationIsIsomorphism`).
* A paused path is taken up as a resume only when the id of its first entry contains `userfillup`; the kind of the
  component is not looked at. The saved entries are executed if and only if it does (`PausedPathResumes`). Otherwise
  the next run begins anew, and a fill-up whose form stays unfilled is in no batch of it (`UnsatisfiedNeverRuns`): the
  check for missing input (`agent/canvas.py:768-780`) first invokes the fill-up without any input, which clears its form
  (`agent/component/fillup.py:88-115`). A canvas whose only fill-up has the id `ask` pauses on it, skips the saved
  entry, and has it in no batch while its input stays unsatisfied (`AskedForNothing`).
* Where the entry `begin` that a fresh run adds is no begin component and misses an input, the first batch deletes it
  again and the run processes nothing; the theorems about runs cover this.
* The references `c@` and `c@.x` write the output with the empty name and read all outputs; the round trip holds
  exactly for references with an output name (`OutputRoundTrip`). JSON text on a path is read through but overwritten
  by a write (`JsonTextIsReplaced`); a diverging path reads as before if and only if the nodes it shares with the
  written one are dictionaries, or it read nothing (`DivergingPathUnchanged`).
* A call with a malformed count has already added the counts before it when it fails, and is not counted as a call
  (`MalformedCallLeaks`); the totals are exact if and only if no finished malformed call did so (`UsageIsExactIff`).
* Closing an MCP session from another loop can leave one request queued for ever, exactly when a caller stands between
  its check of `_close` and its put (`StrandingIff`); on the session's own loop this cannot happen
  (`NothingQueuedAfterClose`).

## Model

| member | source | states |
|---|---|---|
| MetaFilter.TestBucket | common/metadata_utils.py:49-125 | one turn of the bucket loop decides by the original filter value, although it overwrites `value` |
| MetaFilter.FilterOut | common/metadata_utils.py:40-129 | the ids returned are exactly the documents in matching buckets, for every order in which the buckets are visited |
| MetaFilter.Listing | common/metadata_utils.py:150 | listing the final set gives each document once |
| MetaFilter.MetaFilter | common/metadata_utils.py:131-150 | the fold with its early return is the intersection (or union) over the filters of the documents in matching buckets, without duplicates; no filter selects nothing |
| Text.StripIsExact | common/metadata_utils.py:51-52 | stripping takes characters of the set off both ends, and nothing else; `StripsOff` says that it takes all of them |
| Text.SplitIsExact | agent/canvas.py:258 | the parts of a text hold no separator, and joined by it they are the text |
| Text.LowerInFull | common/metadata_utils.py:84-88 | capital letters become the small letters in the same place of the alphabet, everything else stays |
| MemoryVerdicts.NumberFilterSelects | common/metadata_utils.py:40-138 | where the interpreter orders numbers and texts as usual, `=`, `≠`, `>`, `<`, `≥` and `≤` with a numeric literal select a document if and only if one of its values, read as a number, stands in that relation to it, or is a text that is no literal and stands in it as a text; other literals differ and do not compare |
| MemoryVerdicts.DateFilterSelects | common/metadata_utils.py:57-67 | with a date they select a document if and only if one of its values, trimmed, is a date that stands in the relation to it |
| MemoryVerdicts.DatesCompareAsDays | common/metadata_utils.py:112-123 | comparing two dates as texts is comparing the days they name |
| MemoryVerdicts.QuotedVerdict | common/metadata_utils.py:79-88 | with a quoted text, quoted values are compared by what they quote and unquoted ones with the quoted spelling |
| MemoryVerdicts.TextVerdict | common/metadata_utils.py:69-88 | with a text that is no literal and no date, values are compared as texts, case folded |
| MemoryVerdicts.BareNumberVerdict | common/metadata_utils.py:79-82 | with a number that is no text, every value differs and none compares |
| MemoryVerdicts.TextOperators | common/metadata_utils.py:90-111 | containment, prefix and suffix with a string, case folded, and the substring meaning of `in` with a text |
| MemoryVerdicts.EmptinessVerdict | common/metadata_utils.py:108-111 | `empty` and `not empty` look at the stored text alone, whatever the filter value |
| MemoryVerdicts.MembershipVerdict | common/metadata_utils.py:90-103 | `in` and `not in` with a list fold case on both sides, with a tuple on one; a member that is no string matches nothing |
| MemoryVerdicts.NoMatchOtherwise | common/metadata_utils.py:94-125 | what raises matches nothing: `contains` with a value that is no string, membership in a value that is no collection |
| MemoryVerdicts.TextPassesNumberExample | common/metadata_utils.py:79-88 | the value `draft` passes `> 3` |
| Pushdown.FlattenMetadata | api/db/services/doc_metadata_service.py:782-799 | the buckets list exactly the values carried by the documents of the knowledge bases |
| Pushdown.AddDocument | api/db/services/doc_metadata_service.py:785-799 | one document adds exactly its own values |
| Pushdown.HitIsPerDocument | common/metadata_utils.py:131-138 | a document is in a matching bucket of the flattened metadata if and only if one of its own values passes the bucket test |
| Globs.EscapeIsPerCharacter | common/metadata_es_filter.py:576-578 | the three replacements one after the other escape each character once, as a single pass would |
| Globs.ContainsPattern | common/metadata_es_filter.py:295-304 | star, escaped text, star matches a value if and only if the text occurs in it, for all texts |
| Globs.EndsWithPattern | common/metadata_es_filter.py:310-312 | star, escaped text matches a value if and only if the value ends with the text |
| Globs.StartsWithPattern | common/metadata_infinity_filter.py:194-197 | escaped text, many-wildcard matches a value if and only if the value starts with the text |
| EsTranslate.CsvOrList | common/metadata_es_filter.py:472-504 | the members are those of the list, the literal or the comma-separated text, trimmed and folded; nothing left is an error |
| EsTranslate.PlanPushdown | common/metadata_es_filter.py:329-346 | a plan exists if and only if the logic is known and every filter translates; it then holds one translation per filter, in order |
| EsTranslate.TranslationHasMust | common/metadata_es_filter.py:238-312 | every translation has a positive clause, so no filter can disappear from the query |
| EsTranslate.ToClausesIsAtomic | common/metadata_es_filter.py:116-134 | a translation contributes exactly one clause, which holds when all of `must` and none of `must_not` hold |
| EsTranslate.FlattenKeepsFilters | common/metadata_es_filter.py:158-159 | flattening never lets half a filter satisfy an OR |
| EsTranslate.QueryMeaning | common/metadata_es_filter.py:147-177 | the rendered query is knowledge-base membership and the and/or fold over whole filters; an empty plan is membership alone |
| EsQuery.SomeAccepted | common/metadata_es_filter.py:161-167 | one `should` clause is enough when one is asked for |
| Pushdown.TermsMeaning | common/metadata_es_filter.py:540-555 | the `in` clause accepts a document if and only if some value equals some member, case and blanks around the member aside |
| Pushdown.WildcardMeaning | common/metadata_es_filter.py:295-312 | the pushed-down `contains` and `end with` clauses mean substring and suffix, case folded |
| Pushdown.EsMeaning | common/metadata_es_filter.py:258-312 | a positive filter accepts when some value passes its test, a negated one when there are values and none passes |
| Pushdown.RangeMeaning | common/metadata_es_filter.py:275-282 | a range filter asks for the key and for the engine's answer on its own operator and coerced bound |
| PushdownOperands.TranslatedIff | common/metadata_es_filter.py:206-312 | a filter is translated if and only if it has a key, a known operator and a value that operator can use |
| PushdownOperands.EqualAsks | common/metadata_es_filter.py:264-273 | `=` asks for the stored date, for the engine's answer on the field itself to the number the trimmed text spells, or for the text, case folded; `≠` for the key and the opposite |
| PushdownOperands.RangeAsks | common/metadata_es_filter.py:275-282 | a range filter asks for the key and for the engine's answer to its own operator and to the date, the number the trimmed text spells, or the trimmed text |
| PushdownOperands.MembershipAsks | common/metadata_es_filter.py:472-555 | `in` asks that one member is met: a string one among the values, trimmed and folded, any other by the engine; a list without strings is asked for as a whole; `not in` asks for the key and the opposite |
| PushdownAgreement.PlainAgreement | common/metadata_es_filter.py:77-86 | both paths agree on a document if and only if the operator is not negated or the values do not fall on both sides; what the clauses accept, memory accepts |
| PushdownAgreement.SingleValuedAgreement | common/metadata_es_filter.py:258-312 | with at most one value for the key, every such filter agrees |
| PushdownAgreement.ContainsNeedsString | common/metadata_utils.py:96-97 | `contains` agrees on every document if and only if the filter value is a string |
| PushdownAgreement.InNeedsTrimmedMembers | common/metadata_es_filter.py:498-504 | `in` with a list of strings agrees on every document if and only if its members carry no surrounding blanks |
| PushdownAgreement.EqualNeedsTrimmedValue | common/metadata_es_filter.py:412-435 | `=` on a string that is no literal and no date agrees on every document if and only if it carries no surrounding blanks |
| PushdownAgreement.EqualDateAgreement | common/metadata_utils.py:59-67 | `=` with a date agrees if and only if the date is stored verbatim or no stored value trims to it |
| PushdownAgreement.NotEqualDateUnsound | common/metadata_utils.py:59-67 | exactly which documents `≠` with a date accepts in the index and rejects in memory |
| PushdownAgreement.NotEqualDateExample | common/metadata_es_filter.py:268-273 | such a document: the value `draft` under `≠ 2024-01-02` |
| PushdownAgreement.NotContainsExample | common/metadata_es_filter.py:83-85 | the values `[a, b]` under `not contains a` are rejected by the query and accepted in memory |
| PushdownAgreement.EmptyAgreement | common/metadata_es_filter.py:238-256 | `empty` agrees if and only if the document has the key |
| PushdownAgreement.InTextAgreement | common/metadata_utils.py:100-101 | `in` with a comma-separated text selects no document the in-memory substring test rejects, and agrees exactly where a value is listed or none occurs in the text |
| PushdownAgreement.InTextNeverAlwaysAgrees | common/metadata_utils.py:100-101 | no comma-separated text makes the two agree on every document |
| PushdownAgreement.AgreeingIff | common/metadata_es_filter.py:238-312 | for plain filters, `empty`, `=` with a date and `in` with a comma-separated text, both paths agree on a document if and only if the condition of that filter holds of it |
| PushdownAgreement.PushdownPreservesMeaning | common/metadata_es_filter.py:147-177 | for every corpus, non-empty list of such filters and logic, the query finds exactly the documents `meta_filter` selects, where those conditions hold |
| PushdownSoundness.OneSidedIff | common/metadata_es_filter.py:238-312 | for every filter whose value reaches the keyword sub-field as plain text, the query accepts no document memory rejects if and only if the value meets the condition of the operator |
| PushdownSoundness.CommaTextIsOneSided | common/metadata_es_filter.py:472-504 | a comma-separated text is one-sided under `in` and never under `not in` |
| PushdownSoundness.NotContainsNumberExample | common/metadata_es_filter.py:295-304 | `not contains` with a number finds a document where nothing matches in memory |
| PushdownSoundness.NotInTextExample | common/metadata_es_filter.py:284-293 | `not in` with the text `abc,d` finds the value `a`, which memory rejects |
| PushdownSoundness.PushdownIsSound | common/metadata_es_filter.py:147-177 | for one-sided filters, every document the query finds is one `meta_filter` selects, whatever the documents carry |
| PushdownAgreement.EmptyFilterListAgreement | common/metadata_es_filter.py:155-156 | with no filter the two paths agree if and only if the knowledge bases hold no document |
| InfinityFilter.SplitMembers | common/metadata_infinity_filter.py:144-151 | string and number members end up in their own lists, in order; a None fails |
| InfinityFilter.TranslateIn | common/metadata_infinity_filter.py:140-157 | the printed `in` fragment for every member list |
| InfinityFilter.TranslateNotIn | common/metadata_infinity_filter.py:159-176 | the printed `not in` fragment, unparenthesised between its two groups |
| InfinityFilter.BuildInfinityFilter | common/metadata_infinity_filter.py:205-218 | fails exactly on an unknown logic or a filter without a fragment; otherwise joins the fragments in order, and no filter gives `1=1` |
| SqlText.LiteralReadsBack | common/metadata_infinity_filter.py:308-309 | a quoted, escaped text is lexed back as itself |
| SqlText.SpellingLexes | common/metadata_infinity_filter.py:112-202 | emitted text is lexed back token by token, so no user text can end a literal early or leave one open |
| SqlTree.PrintedDenotes | common/metadata_infinity_filter.py:212-218 | a printed boolean tree parses back to the same tree under NOT over AND over OR |
| InfinityDenotation.FragmentSpelled | common/metadata_infinity_filter.py:76-202 | the text of every fragment is the print of a tree |
| InfinityDenotation.FragmentMeaning | common/metadata_infinity_filter.py:112-202 | that tree means what the filter asks of a row |
| InfinityDenotation.FilterDenotesFold | common/metadata_infinity_filter.py:212-218 | the built text denotes the and/or fold of the filters' meanings |
| InfinityDenotation.NoFiltersDenoteTrue | common/metadata_infinity_filter.py:213-214 | the text for no filters is true of every row |
| InfinityDenotation.NotInIsNegatedIn | common/metadata_infinity_filter.py:140-176 | for every member list the `not in` text denotes the negation of the `in` text |
| InfinityDenotation.LikeRoundTrip | common/metadata_infinity_filter.py:194-202 | for all texts, quotes, wildcards and backslashes included, the emitted literal is a LIKE pattern (section 8.5 of ISO/IEC 9075-2:2003, backslash as escape) that accepts exactly the texts starting, or ending, with it |
| InfinityRows.BuiltTextSelectsRows | common/metadata_infinity_filter.py:112-218 | the built text, read back by an engine whose operators are the order relations, LIKE and JSON containment, selects exactly the rows of which all, or some, filters are true, each stated of the extracted value and the number or text the filter value spells |
| InfinityRows.FragmentIff | common/metadata_infinity_filter.py:76-202 | a filter has a fragment if and only if its key fits the pattern, its operator is known and its value is one that operator can use |
| InfinityRows.KeyIff | common/metadata_infinity_filter.py:24-29 | the key pattern accepts identifiers, and identifiers with one newline behind them |
| CanvasRun.Canvas.RunBatch | agent/canvas.py:570-592 | the scan that pops entries while its bound moves leaves exactly the swept path |
| CanvasRun.Canvas.ExtendPath | agent/canvas.py:733-746 | successors are appended in order, an immediate repetition skipped, nothing after an exception goto |
| CanvasRun.Canvas.GetStart | agent/component/iteration.py:48-53 | the search finds the first item component of an iteration or loop, and gives None if it has none |
| CanvasRun.Canvas.Schedule | agent/canvas.py:748-761 | the chain of cases schedules exactly the successors of an entry |
| CanvasRun.Canvas.PostProcess | agent/canvas.py:711-761 | the path and error after one entry's post-processing, exception goto and raised exceptions included |
| CanvasRun.Canvas.PostProcessBatch | agent/canvas.py:652-761 | the path and error after a whole batch |
| CanvasRun.Canvas.Turn | agent/canvas.py:635-784 | one turn of the main loop ends in the state of the machine |
| CanvasRun.Canvas.Run | agent/canvas.py:516-785 | a run ends in the state of the machine, so the theorems below are about it |
| CanvasBatch.RunBegins | agent/canvas.py:516-533 | where a run begins, on a resume and otherwise; one that is cancelled before its first turn does nothing |
| CanvasBatch.FillUpNameIff | agent/canvas.py:516 | which ids make a path a resume: those that contain `userfillup`, in whatever case |
| CanvasBatch.SweepIsExact | agent/canvas.py:570-592 | for every path and batch, the entries left are those that stay, in their order, between an unchanged front and an unchanged rest; an entry goes if and only if it is neither begin nor fill-up, the head has no fill-up name, and an input component is not on the path before it, counting the entries that stayed |
| CanvasBatch.EntryAdds | agent/canvas.py:711-761 | post-processing an entry fails if and only if it is stuck; otherwise it appends the ids of the handler that takes over, or its successors in order, an id like the one before it left out; the error is its own if no handler takes it |
| CanvasBatch.SuccessorReachesPath | agent/canvas.py:733-761 | every successor of an entry that is not diverted is on the path afterwards, at the end it had or behind it |
| CanvasBatch.BatchEnds | agent/canvas.py:652-761 | post-processing a batch raises if and only if one of its entries is stuck, and otherwise ends with the last error that no handler took |
| CanvasBatch.TurnEnds | agent/canvas.py:635-785 | which turn crashes, is cancelled, fails with which error, pauses or goes on, exactly |
| CanvasSafety.StartIsFirstItem | agent/component/loop.py:67-72 | a container, and nothing else, has a start: its first item in the order of the component table, or None |
| CanvasSafety.TargetsAreSuccessors | agent/canvas.py:748-761 | what is scheduled is downstream of the container that is left, the chosen branch, the start of the container entered, the start of the container whose body ends, or plainly downstream, and nothing else |
| CanvasSafety.SweepIsCausal | agent/canvas.py:571-592 | deleting blocked entries leaves every remaining entry behind the one that scheduled it |
| CanvasSafety.SweepLeavesNoneBlocked | agent/canvas.py:581-589 | after the scan every entry of the batch has its inputs on the path before it |
| CanvasSafety.RunKeepsInvariant | agent/canvas.py:635-784 | the run invariant holds before every turn of every run |
| CanvasTheorems.Causality | agent/canvas.py:711-761 | every entry a run has put on the path is a successor of an entry before it |
| CanvasTheorems.CausesAreProcessed | agent/canvas.py:711-766 | while a run goes on, that earlier entry is one it has processed |
| CanvasTheorems.DependencyClosure | agent/canvas.py:581-589 | in a run that is no resume, every entry of a batch except begin and user fill-ups has all its input components of that very round on the path before it, however the turn ends |
| CanvasTheorems.ProcessedHadInputs | agent/canvas.py:581-589 | every processed entry was in the batch of one earlier turn of the same run, and its inputs of that round are on the path before it |
| CanvasTheorems.ResumeDeletesNothing | agent/canvas.py:582 | a resumed run never deletes an entry |
| CanvasTheorems.ProcessedPrefixIsStable | agent/canvas.py:635-766 | what has been processed is never rewritten while the run goes on |
| CanvasTheorems.HeadNeverChanges | agent/canvas.py:516-592 | the first entry of the path stays until the run pauses |
| CanvasTheorems.SplitIsStablePartition | agent/canvas.py:768-770 | fill-ups and others keep their order and together are the known entries, each as often as before |
| CanvasTheorems.PauseConservesWork | agent/canvas.py:768-784 | a pausing run saves exactly the known pending entries, fill-ups first, and no executed one |
| CanvasTheorems.PausedPathResumes | agent/canvas.py:516-532 | the next run invokes the saved entries if and only if the id of the first of them, a fill-up, contains `userfillup` |
| CanvasTheorems.UnsatisfiedNeverRuns | agent/canvas.py:768-784 | in a run that is no resume, a fill-up whose form stays unfilled is in no batch, at whatever position |
| CanvasTheorems.AskedForNothing | agent/canvas.py:516-532 | a canvas that pauses on its fill-up; the next run skips the saved entry and, while the input stays unsatisfied, has the fill-up in no batch |
| CanvasTheorems.FailureRestoresPrefix | agent/canvas.py:763-785 | on an error the saved path is exactly the prefix before the failing batch |
| CanvasTheorems.FinishedHasNoPending | agent/canvas.py:635-785 | on normal completion no entry is pending |
| CanvasTheorems.StoppedRunIsStable | agent/canvas.py:763-785 | a run that is over changes nothing more |
| Variables.GetParamValue | agent/canvas.py:254-281 | the reading loop follows the path step by step, and gives nothing where it returns early |
| Variables.IndexIsExact | agent/canvas.py:272-278 | places of a list are counted from the front, or with negative numbers from the back, and no others exist |
| Variables.ReadsOn | agent/canvas.py:254-281 | what reading one key further gives in a dictionary, a list, a JSON text, nothing, and anything else |
| Variables.BracesAreStripped | agent/canvas.py:232 | braces, blanks and braces again are taken off both ends of a reference, however many there are |
| Variables.ResolvesToGlobal | agent/canvas.py:233-234 | a reference is a global if and only if it holds no `@` |
| Variables.ResolvesToOutput | agent/canvas.py:241-247 | the first `@` ends the component, the first dot behind it the name of the output |
| Variables.WritableIff | agent/canvas.py:283-304 | a write raises if and only if the component is unknown or a path leads into an output that holds something other than a dictionary |
| Variables.ReadsOutput | agent/canvas.py:231-252 | a read raises if and only if the global or component is unknown; otherwise it gives the output, all outputs, or the empty text, and what stands below it at the path |
| Variables.ReadAfterWrite | agent/canvas.py:306-316 | for every dictionary, path and value, what is written at the path is read there |
| Variables.ReadInsideWritten | agent/canvas.py:254-316 | reading on below a written path reads inside the written value |
| Variables.DivergingPathUnchanged | agent/canvas.py:306-316 | a path that parts from the written one reads as before if and only if the existing nodes they share are dictionaries or it read nothing |
| Variables.JsonTextIsReplaced | agent/canvas.py:264-268 | a diverging path through JSON text, readable before the write and gone after it |
| Variables.GetAfterSet | agent/canvas.py:231-304 | a variable that was written is read back, for every reference with an output name |
| Variables.OutputRoundTrip | agent/canvas.py:231-304 | for every writable reference to an output, path or no path, the round trip holds for all values if and only if the output has a name |
| Variables.OtherVariablesUnchanged | agent/canvas.py:283-304 | writing one variable leaves all others as they were |
| Variables.OtherPathsUnchanged | agent/canvas.py:283-316 | within one output, a diverging path reads as before if and only if the shared nodes are dictionaries or it read nothing |
| Variables.Memory.SetVariableValue | agent/canvas.py:283-304 | the variables after a write are those of the specification; where it raises nothing is written |
| VariableTree.Node.Put | agent/canvas.py:306-316 | writing through dictionary objects in place, a dictionary object or any other value, leaves the tree that the value-level write describes |
| VariableTree.Node.Descend | agent/canvas.py:311-314 | a missing or non-dictionary node on the way becomes an empty dictionary, everything else stays |
| References.MatchIsWritten | agent/dsl_migration.py:32 | a match is its own groups written out at the head of the text, and takes every closing brace |
| References.WrittenIsMatched | agent/dsl_migration.py:32 | well-formed groups are matched again wherever they are written |
| ReferenceScan.NoMatchIsKept | agent/dsl_migration.py:67-71 | where the pattern did not match, it does not match after the rewriting |
| ReferenceScan.ScanOfSubstituted | agent/dsl_migration.py:63-71 | the rewritten text scans to the same pieces with only reference ids mapped |
| MigrationCode.BuildIdMap | agent/dsl_migration.py:53-61 | the id map sends every component id, and nothing else, to its new spelling |
| MigrationCode.NewId | agent/dsl_migration.py:55-60 | the first legacy prefix that fits is replaced |
| MigrationCode.RewriteComponentFields | agent/dsl_migration.py:84-100 | rewriting every string and then overwriting name, links and parent one after the other comes to the field-by-field description, or raises exactly where an id or name cannot be looked up |
| MigrationCode.MapNames | agent/dsl_migration.py:93-96 | a list of ids, looked up entry by entry; a list or dictionary in it raises |
| MigrationCode.BuildComponents | agent/dsl_migration.py:82-104 | the new table, later components overwriting earlier ones on a collision; an unhashable id or name raises |
| MigrationTexts.DocumentTexts | agent/dsl_migration.py:63-164 | wherever a text stands in history, messages, reference, the form of a node or a component, at any depth, it becomes the new spelling if it is a component id and otherwise has the ids of its references mapped; names, types and links are looked up in addition, and everything else stays in its place |
| MigrationTexts.ComponentTexts | agent/dsl_migration.py:82-104 | where no components collide, each is found under its new id with every text mapped, and a component id at any position of it but its name reads as its new spelling |
| MigrationTexts.LastComponentWins | agent/dsl_migration.py:82-104 | of components with the same new id, the last one is found under it |
| MigrationTexts.MappedTextIsOne | agent/dsl_migration.py:63-71 | the references and the rest of a text determine it, so that there is one text it can become |
| MigrationTexts.TableInFull | agent/dsl_migration.py:22-61 | the renamed ids, names and node types, spelled out |
| MigrationTexts.MigrationRaisesIff | agent/dsl_migration.py:84-104 | the migration raises if and only if a list or an object stands where a component name, an entry of a link list or an entry of the path is looked up |
| MigrationEdgeIds.SortIsStable | agent/dsl_migration.py:146 | the replacements are sorted longest id first, and ids of the same length keep their order |
| MigrationEdgeIds.EdgeIdIsImage | agent/dsl_migration.py:144-158 | an edge id built from the ids of its ends becomes the one built from their images if and only if the replacements, in their order, act at legacy ends that still stand and nowhere else, and reach both |
| MigrationEdgeIds.EdgeIdStays | agent/dsl_migration.py:155-158 | an edge id stays as it is if and only if no legacy component id occurs in it |
| PrefixReplacement.ReachesGoalIff | agent/dsl_migration.py:155-158 | the same for every renaming by a table of prefixes of this kind, every order of the replacements and every text with two ends |
| MigrationEdgeIds.EdgeIdExample | agent/dsl_migration.py:155-158 | an edge id that changes although the component it names does not |
| MigrationCode.RewriteEdgeFields | agent/dsl_migration.py:149-158 | overwriting source, target and id in turn gives the described edge, with ends that name the images of what they named |
| MigrationCode.BuildEdges | agent/dsl_migration.py:143-158 | all edges, one sorted list of replacements serving them all |
| MigrationCode.RewriteNodeFields | agent/dsl_migration.py:113-141 | overwriting id, parent, type and data in turn gives the described node: it names the images of what it named, and nothing legacy is left on it |
| MigrationCode.RewriteData | agent/dsl_migration.py:128-141 | overwriting label, name and form in turn gives the described data, whose label and name are current |
| MigrationCode.BuildNodes | agent/dsl_migration.py:111-141 | all nodes |
| MigrationCode.BuildGraph | agent/dsl_migration.py:109-158 | overwriting nodes and edges in turn gives the described graph, with as many nodes and edges as before and no legacy node |
| MigrationCode.RewriteTop | agent/dsl_migration.py:104-162 | the six overwrites of the document in turn come to the field-by-field description; an unhashable path entry raises |
| MigrationCode.NormalizeChunkerDsl | agent/dsl_migration.py:35-164 | the code gives the document the specification names, or raises where it says so |
| MigrationIdempotence.NormalizeIsIdempotent | agent/dsl_migration.py:35-164 | migrating a migrated document changes nothing, for every document |
| MigrationIsomorphism.InjectiveIffNoClash | agent/dsl_migration.py:53-61 | new ids collide if and only if a legacy id and its current spelling are both components |
| MigrationIsomorphism.ComponentCountKept | agent/dsl_migration.py:82-104 | the number of components is kept if and only if the id map is injective |
| MigrationIsomorphism.ComponentIsFound | agent/dsl_migration.py:82-104 | every component is found, rewritten, under its new id |
| MigrationIsomorphism.TwiceRenamedOnce | agent/dsl_migration.py:85-96 | a link is renamed by two passes and still renamed once |
| MigrationIsomorphism.LinksAreImages | agent/dsl_migration.py:93-96 | after the migration the image of `a` links to the image of `b` if and only if `a` linked to `b`, or an entry of `a` that named no component becomes the new id of `b` |
| MigrationGraph.MigrationIsIsomorphism | agent/dsl_migration.py:82-158 | components, nodes, edges and path entries are as many as before, and links, parents, node ids, edge ends and path entries hold of the images exactly as they held of the originals, if and only if the id map is injective and no dangling name comes to name a component |
| MigrationGraph.DrawingIsRenamed | agent/dsl_migration.py:106-152 | without any such condition, whatever named a component names its image |
| MigrationGraph.NothingLegacyRemains | agent/dsl_migration.py:22-30 | no component id, component name, node type, label or name of a migrated document is a legacy one |
| MigrationCompleteness.NoLegacyIdRemains | agent/dsl_migration.py:53-61 | no component of a migrated document has a legacy id |
| MigrationCompleteness.ComponentNameIsCurrent | agent/dsl_migration.py:88-91 | every component object has a name afterwards, and no legacy one |
| MigrationCompleteness.OtherFieldsUntouched | agent/dsl_migration.py:104-162 | only six top-level fields can change, and all stay in their order |
| ReferencePreservation.EvaluationIsPreserved | agent/canvas.py:202-229 | where all references resolve, evaluating the rewritten text in the renamed store gives the old text if and only if only run-time references were renamed |
| ReferencePreservation.MatchVarOfWritten | agent/component/base.py:358-359 | a reference of the migration is a run-time reference if and only if it has no inner blanks and no hyphen in its id |
| Templates.GetValueWithVariable | agent/canvas.py:202-229 | the loop over the matches builds the evaluated text, and fails on the first reference that does not resolve |
| TemplateValues.TemplateIsRendered | agent/canvas.py:202-229 | for every template made of plain texts and references, with whatever braces and blanks around them: the texts are copied, each reference is replaced by the value of what it names, and one that names nothing known makes the evaluation raise |
| MigrationReferences.MigrationIsIdRenaming | agent/dsl_migration.py:22-61 | the migration's renaming keeps ids well-formed and changes the first character of every id it changes |
| MigrationReferences.TemplateKeepsItsText | agent/dsl_migration.py:63-71 | a template evaluated in the migrated canvas gives its old text if and only if only run-time references were renamed |
| MigrationReferences.TemplateKeepsItsReferences | agent/dsl_migration.py:63-71 | the rewritten template has the same references with ids mapped and is otherwise unchanged |
| MigrationReferences.GapExample | agent/dsl_migration.py:32 | a text without run-time references that the migration rewrites |
| MetadataMerge.DedupeList | common/metadata_utils.py:289-298 | the result lists the items whose key did not occur before them, in order |
| MetadataMerge.DedupeIsExact | common/metadata_utils.py:289-298 | of a list the items stay, in their order, before which no item has the same text, and no others |
| MetadataMerge.DedupeKeepsKeys | common/metadata_utils.py:289-298 | deduplication loses no key and leaves none twice |
| MetadataMerge.DedupeAbsorbs | common/metadata_utils.py:289-298 | deduplicating before or after appending comes to the same |
| MetadataMerge.Metadata.Put | common/metadata_utils.py:313-331 | one incoming value is combined with the value of its key; no other key changes |
| MetadataMerge.Metadata.Update | common/metadata_utils.py:301-333 | the metadata becomes the merge, whatever form the argument has |
| MetadataMerge.MergedValue | common/metadata_utils.py:313-331 | the value of every key after the merge: a text is appended to a list and written over anything else, a list contributes its texts without repetitions, and a value without texts changes nothing |
| MetadataMerge.RepairedIff | common/metadata_utils.py:301-311 | what is merged are the entries of a dictionary, given as such or as a non-empty text that reads as one |
| MetadataMerge.MergeIsIdempotent | common/metadata_utils.py:301-333 | merging the same dictionary twice is merging it once |
| MetadataMerge.MergeFrame | common/metadata_utils.py:313-331 | keys the dictionary does not mention keep their value and no key disappears |
| MetadataMerge.MergedList | common/metadata_utils.py:314-331 | a list that was merged into is duplicate-free, keeps its first occurrences in front and gains every new text |
| MetadataMerge.EntryOrderIsIrrelevant | common/metadata_utils.py:313-331 | the iteration order of the dictionary does not matter |
| TokenUsage.Sink.Record | common/token_utils.py:71-76 | one call adds its counts up to its first malformed argument |
| TokenUsage.LockedRunsAreSerial | common/token_utils.py:56-76 | under the lock, every interleaving leaves what the finished calls leave one after the other, each once |
| TokenUsage.UsageIsConserved | common/token_utils.py:62-76 | with well-formed calls each counter is the sum of its own argument over the finished calls and `calls` is their number |
| TokenUsage.UsageIsExactIff | common/token_utils.py:71-80 | a counter is exact if and only if no finished malformed call had added to it |
| TokenUsage.MalformedCallLeaks | common/token_utils.py:73-80 | a call whose second argument is malformed leaves its first count behind |
| TokenUsage.UnlockedRunsLoseCounts | common/token_utils.py:56-59 | without the lock an interleaving loses a count |
| McpSession.RequestsAreConserved | common/mcp_tool_call_conn.py:128-181 | in every state a sent request is queued, in flight, replied to or abandoned, once, and an answered caller was replied to once |
| McpSession.QueueIsFirstInFirstOut | common/mcp_tool_call_conn.py:128-181 | requests leave the queue in the order they entered it |
| McpSession.NothingQueuedAfterClose | common/mcp_tool_call_conn.py:237-253 | after a drain on the session's own loop nothing is queued, then or later |
| McpSession.AllButOneReplied | common/mcp_tool_call_conn.py:237-258 | when the loop has stopped, every request was replied to except at most the one being served |
| McpSession.DrainRepliesToAll | common/mcp_tool_call_conn.py:243-253 | the drain replies to every queued request, in order, and ends |
| McpSession.DrainIsUninterrupted | common/mcp_tool_call_conn.py:243-253 | on the session's own loop nothing else happens while a close drains: in every run, what has been replied to is exactly what it has taken from the queue |
| McpSession.LateCallersAreRefused | common/mcp_tool_call_conn.py:163-168 | once a close has begun, whoever had not made its check by then is refused when making it, and its request is never queued |
| McpSession.WorkerTakesNoMore | common/mcp_tool_call_conn.py:128-160 | once a close has begun, a worker that is not waiting for a request takes none any more, even if it is started again |
| McpSession.CancelledIsNeverReplied | common/mcp_tool_call_conn.py:128-160 | the request the worker serves when it is cancelled never gets a reply |
| McpSession.StrandingIff | common/mcp_tool_call_conn.py:163-168 | after a drain from another loop a request can be left queued for ever if and only if a caller stands between its check and its put |
| McpSession.AtMostOneStranded | common/mcp_tool_call_conn.py:284-308 | whichever loop closes the session, at most one request is left queued |
| McpSession.StrandedExample | common/mcp_tool_call_conn.py:284-308 | a run in which one is |
| McpSession.Session.Submit | common/mcp_tool_call_conn.py:163-168 | a request is queued if and only if the session is open, and the object then shows the protocol state after the check and the put |
| McpSession.Session.Close | common/mcp_tool_call_conn.py:237-253 | closing empties the queue and replies to everything in it, in order, and the object then shows the protocol state at the end of the drain; closing again does nothing |

## Left out

- Text: characters fold and count as blanks one by one, as in ASCII; Unicode case folding and Unicode whitespace are not modelled.
- Values: dictionaries as filter values and the float NaN are opaque; ordering and `ast.literal_eval` are parameters.
- The index: dynamic mapping, the length limit of keyword fields, and what clauses over analysed parent fields (numbers, ranges) accept are a parameter of the model; the comparison theorems cover filters that reach the keyword sub-field.
- Pushdown.RangeMeaning: the comparison itself is the index engine's, a parameter of the model; the theorems on one-sidedness and agreement are about filters that reach the keyword sub-field.
- PushdownSoundness.OneSidedIff: leaves out `=` and `≠` with a quoted literal, None or a list as text, and member lists with numbers; some of their terms reach the keyword sub-field too, but what memory makes of them depends on how the interpreter reads the stored values.
- MemoryVerdicts.NumberFilterSelects: a filter text that spells a list, a tuple or None is in the model but not in these theorems; how such values compare is the interpreter's.
- Results: `extract_doc_ids`, paging, the result size limit, and the routing pre-check `is_pushdown_supported`, which only rejects operators.
- Infinity: what the engine extracts from a row, and whether the JSON value at a path contains another, are parameters of a row; that strings compare character by character there, and that `str` of a number is one word of the text which the engine reads as that number, are assumptions named in the statements.
- `apply_meta_data_filter`: the LLM modes and database calls around the filters.
- Canvas: component bodies, streaming, events, timing, text to speech, history and retrieval bookkeeping; an exception that leaves a run is the status `Crashed`; the concurrent invocations inside one batch are one step, since post-processing starts after all of them.
- Canvas ids: Python's None on a path is the empty id, which no component has.
- CanvasRun.Canvas.Run: takes a bound on the number of turns, because a graph with loops may run for ever; every bound is covered.
- VariableTree.Node.Put: the loop that walks down the dictionaries is a recursive method, and neither the tree nor the written dictionary is shared with other trees; lists, JSON text and other objects on the way are values.
- Variables.Memory.SetVariableValue: nested dictionaries are values here, so a second name for an inner dictionary is not seen to change.
- MigrationCode.NormalizeChunkerDsl: the deep copy is a value whose fields are overwritten one by one, so no second name for a part of it is seen to change; that the keys of an object are unique, at every depth, is a fact about dictionaries.
- ReferencePreservation.EvaluationIsPreserved: outputs are their rendered texts; partial outputs and JSON rendering happen before.
- MetadataMerge.Metadata.Update: that the extended list object may have other holders is not modelled.
- TokenUsage: a run without a sink does nothing; a sink without its counters and `usage_from_response` are not modelled.
- McpSession: how a caller interprets its reply, how the transport connects, and timeouts as durations (a timeout may happen at any moment); a queue operation is one step even between loops.
