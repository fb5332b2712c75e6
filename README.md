# Mainframe lineage heuristics, modelled in Dafny

This project models the analysis core of a retrieval assistant for
mainframe sources (COBOL, copybooks, JCL, CICS, DB2, MQ). It covers:

- **The CRUD / lineage scan** (`lineage.py`). The regular-expression matches
  found in each stored chunk become observations of the form
  (subject, operation, program). The observations are folded into the `files`
  and `tables` dictionaries, and each subject's program set is then finalised
  as a sorted list.
- **The field-usage classifier** (`field_lineage.py`). It selects the
  copybook chunks for a hint and parses their field tables, with the first
  definition winning across copybooks. It then scans every chunk and sorts
  each field into the input, derived/updated, static and unused buckets.
- **The CRUD graph** (`graph_builder.py`):
  - turning the lineage report into edges and nodes;
  - building a directed graph with node attributes by namespace;
  - the neighbourhood query, i.e. target choice plus a radius-bounded search
    in both directions, then the induced subgraph.
- **Ingestion chunking**:
  - `ingest.py`: whitespace collapse, then overlapping character windows;
  - `code_ingest.py`: the text cut into lines, blocks of N lines, and each
    line prefixed with its five-digit 1-based number.
- **The CSV/DB2 comparison** (`csv_diff.py`): column-name normalisation, the
  three-way schema difference, and the key-column check of the data
  difference.
- **Log redaction** (`guardrails.py`): the three PII patterns applied in
  order.

## How the model is organised

There is one module per source file, plus four shared modules:

- `Wrappers`: Option and Result.
- `Text`: Python string operations used by the core, with `strip` and
  ASCII `upper`/`lower`.
- `Ordering`: code-point order on strings and the sorted list of a set.
- `Seqs`: permutation helpers.

The regex engine itself is not modelled. Each pattern's matches arrive as an
input sequence in match order. Where a pattern's capture group is a closed
alternation (SQL verb, CICS verb, MQ verb), the match is an enumeration.

Four scanners are written out, because their exact behaviour matters to
the properties:

- `\b[A-Z][A-Z0-9-]+\b`, including backtracking off a trailing `-`;
- host variables `:[A-Z0-9_-]+`;
- in-session line splitting;
- the three PII patterns.

State changes follow the source:

- `_add_op` is the method `LineageMap.AddOp` on a class whose field is the
  dictionary.
- `TextIngestor` and `CodeIngestor` are classes holding their
  configuration.
- The graph is the class `DiGraph`, with a node order, a node-attribute map
  and an edge map.
- Loops that build a dictionary, list or set step by step are `while` loops with invariants: the row loop of `analyze_session` and `finalize`; the copybook field loop, selection, merge and row loops of `analyze_fields`; the graph construction, target search and neighbourhood search; the window, block and storing loops of the two ingestors; the key check; the pattern loop of `redact_for_logs`. The per-match loops of one chunk in `analyze_session` become the sequence of observations handed to `LineageMap.AddAll`, and the per-match loops of one program chunk in `analyze_fields` become set-valued functions.
- Each loop-based method is proved equal to a specification function, and
  the lemmas state what that function promises.

The model follows the code in these places:

- Subjects are stripped but not case-folded (`lineage.py:37`).
- The record name of a copybook is its *first* 01-level name
  (`field_lineage.py:44-46`).
- A field is static when its *stripped* VALUE text is non-empty
  (`field_lineage.py:52-53`).
- The neighbourhood target is chosen in one exact-or-suffix pass, then one
  fuzzy pass (`graph_builder.py:48-58`).
- With radius 0, a self-loop on the target survives in the subgraph.
- The copybook-selection test `"copybook:" in fn.upper()` can never hold
  (`field_lineage.py:71`).
- The COPY pattern's name class contains `.`, so `COPY CUSTMAST.` captures
  the period. It credits `COPYBOOK:CUSTMAST` and `COPYBOOK:CUSTMAST..CPY`,
  with two dots (`lineage.py:21`, `43-49`).

## Model

| member | source | states |
|---|---|---|
| Lineage.NormSubjectKeepsClean | lineage.py:37 | a subject whose first and last characters are not whitespace, `.`, `"` or `'` is recorded as it is |
| Lineage.NormSubjectDropsDots | lineage.py:37 | trailing periods after such a subject are removed, and nothing else is |
| Lineage.NormSubjectOnlyRemoves | lineage.py:37 | stripping never introduces a character the raw subject did not contain |
| Lineage.AddedOpEffect | lineage.py:36-41 | after one `_add_op`, the normalised subject is a key; its count for `op` is one more than before (1 if new); `program` is in its program set; every other op and every other subject is unchanged |
| Lineage.LineageMap.AddOp | lineage.py:36-41 | the dictionary becomes exactly the one-observation update of the old dictionary |
| Lineage.LineageMap.AddAll | lineage.py:72-129 | calling `_add_op` for a sequence of observations gives the left fold of the update over that sequence |
| Lineage.AddCommutes | lineage.py:36-41 | two `_add_op` calls give the same dictionary in either order |
| Lineage.FoldPermutation | lineage.py:63-129 | any permutation of the same observations folds to the same dictionary |
| Lineage.CopyLogicalShape | lineage.py:45-47 | the logical name is the upper-cased text of the last `/` segment up to its first `.`; it contains no `.`, no `/` and no lower-case letter |
| Lineage.CopyPhysicalShape | lineage.py:45-49 | the physical name is the upper-cased segment exactly when that segment already ends in `.CPY` or `.COPYBOOK`, and otherwise the segment with `.CPY` added; it always ends in one of those extensions, contains a `.` and no `/` |
| Lineage.CopyKeysDistinct | lineage.py:100-103 | the two keys one COPY match credits are always different subjects |
| Lineage.PhysicalKeyIsItself | lineage.py:37 | a physical key ending in `.CPY` or `.COPYBOOK` passes the subject stripping unchanged |
| Lineage.CopyWithTrailingDot | lineage.py:43-49 | a name captured with the statement's closing period has logical name `stem` but physical name `stem..CPY` and key `COPYBOOK:stem..CPY` |
| Lineage.CustmastCopyKeys | lineage.py:100-103 | `COPY CUSTMAST.` credits `COPYBOOK:CUSTMAST..CPY` as its physical key |
| Lineage.FoldAt | lineage.py:36-41 | after any sequence of `_add_op` calls, a key's count of an op has grown by exactly the number of calls filing that op under that key, its programs by exactly theirs, and a key no call files under keeps its entry |
| Lineage.FoldOneMore | lineage.py:36-41 | one more call changes only its own key: one more of its op, its program added, every other op and subject as before |
| Lineage.TaggedCredits | lineage.py:72-83 | folding the matches of a single-group pattern (also the XML patterns, lines 115-118) adds that pattern's op to a key once per match normalising to it, records the program there, and changes nothing else |
| Lineage.TableNamesFilter | lineage.py:91-94 | the table names are the FROM/INTO captures with the empty ones dropped: every non-empty capture as often as it was captured |
| Lineage.BlockCredits | lineage.py:86-97 | folding one SQL block changes nothing when it has no verb; otherwise each table key gets the first verb once per non-empty capture that files under it, and no other op or key changes |
| Lineage.CicsCredits | lineage.py:106-108 | one CICS call adds one `CICS_<verb>` and its program to the key of its resource name (the name itself when its ends are clean) and changes nothing else |
| Lineage.MqCountsVerbs | lineage.py:111-112 | the subject `MQ` counts each MQ verb once per call that uses it |
| Lineage.SelectAssignCredits | lineage.py:121-124 | one `SELECT x ASSIGN TO dd` pair adds one `ASSIGN:<dd stripped of quotes and spaces>` and its program to the key of `LOGICAL:x` and changes nothing else; with clean ends the key is `LOGICAL:x` and the op `ASSIGN:dd` |
| Lineage.JclCredits | lineage.py:127-129 | one `DD DSN=` statement adds one `JCL_DD` and its program to the key of `DSN:<dsn>` (that text itself when the name ends cleanly) and changes nothing else |
| Lineage.RowFileObs | lineage.py:63-69 | a chunk whose lower-cased file name holds none of the six markers contributes no file observation |
| Lineage.RowTableObs | lineage.py:63-69 | such a chunk contributes no table observation either |
| Lineage.FlatMapPermutation | lineage.py:63 | reordering the chunks only permutes the observations |
| Lineage.Finalized | lineage.py:132-136 | finalising keeps every subject and its op counts, and turns its program set into a strictly sorted list of exactly those programs |
| Lineage.Finalize | lineage.py:132-136 | the loop over the subjects computes `Finalized` |
| Lineage.AnalyzeSession | lineage.py:51-138 | the scan over the chunks returns the finalised `files` and `tables` of the whole observation fold |
| Lineage.SessionOrderIndependent | lineage.py:60-138 | the report depends only on the multiset of chunks, not on their id order |
| Lineage.FilteredRowChangesNothing | lineage.py:67-69 | adding a chunk with a non-scanned file name changes neither dictionary |
| Lineage.CopyCreditsBoth | lineage.py:100-103 | one COPY match bumps the COPY count of two distinct subjects, the logical and the physical key |
| Lineage.MqCreditsLiteralSubject | lineage.py:111-112 | MQ calls add at most the key `MQ` and leave every other subject unchanged |
| FieldLineage.Wordset | field_lineage.py:56-57 | every word has the shape `[A-Z][A-Z0-9-]+` and stands in the upper-cased text between two `\b` boundaries; not every such stretch is collected, because the scan resumes after each match (`CD` in `AB-CD` is not) |
| FieldLineage.WordsetOfName | field_lineage.py:56-57 | a field name not ending in `-` is its own word set |
| FieldLineage.WordsetFindsWord | field_lineage.py:56-57 | a word-shaped name that ends in a letter or digit is collected from any text in which it stands at the text's ends or next to characters that are neither word characters nor `-` |
| FieldLineage.HostVars | field_lineage.py:31 | every capture is non-empty, contains no `:`, and is the whole run of `[A-Z0-9_-]` characters directly after some `:` of the text |
| FieldLineage.HostVarAlone | field_lineage.py:31 | `:NAME` yields exactly `NAME` |
| FieldLineage.HostVarsFindsName | field_lineage.py:31 | `:NAME` anywhere in a text yields `NAME` when no host-variable character follows it |
| FieldLineage.MetaOf | field_lineage.py:49-53 | a field is static iff its stripped VALUE text is non-empty, and that text has no surrounding whitespace |
| FieldLineage.FieldTable | field_lineage.py:47-53 | every entry satisfies the static-iff-value rule |
| FieldLineage.CollectCopybookFields | field_lineage.py:42-54 | the record is the first 01-level name, upper-cased, if any; the fields are the table of all field matches |
| FieldLineage.FieldTableKeys | field_lineage.py:48-53 | the table's keys are exactly the upper-cased names matched |
| FieldLineage.FieldTableLastWins | field_lineage.py:48-53 | within one copybook, the last match of a name decides its meta |
| FieldLineage.FirstWins | field_lineage.py:85-86 | `setdefault` merging keeps the union of the keys |
| FieldLineage.MergeFirstWins | field_lineage.py:85-86 | the `setdefault` loop computes `FirstWins` |
| FieldLineage.MergedFields | field_lineage.py:82-86 | the merged table keeps the static-iff-value rule |
| FieldLineage.MergedFirstWins | field_lineage.py:82-86 | across copybooks, a name takes its meta from the first selected copybook that declares it |
| FieldLineage.MergedKeysFrom | field_lineage.py:82-86 | the merged table declares no name that no selected copybook declares |
| FieldLineage.SelectedFirstWins | field_lineage.py:68-86 | over the session's rows in order, a name's merged meta is that of the first selected row declaring it; unselected rows and later copybooks do not override it |
| FieldLineage.AnalysisFirstWins | field_lineage.py:59-91 | the same for the report: `field_meta` is present and holds that first declaration |
| FieldLineage.CopybookPrefixNeverMatches | field_lineage.py:71 | the `"copybook:"` test on an upper-cased name never holds, so selection is by `.cpy` / `.copybook` alone |
| FieldLineage.SelectedRows | field_lineage.py:68-74 | a chunk is kept iff its name marks a copybook and the hint is empty or occurs in its upper-cased name or content |
| FieldLineage.SelectCopybooks | field_lineage.py:68-74 | the selection loop computes `SelectedRows` |
| FieldLineage.MergeCopybooks | field_lineage.py:80-86 | the merge loop computes the record names and the first-wins field table |
| FieldLineage.KnownNames | field_lineage.py:138-140 | a name is collected iff it is a declared field and the upper case of one of the given names |
| FieldLineage.IfInputs | field_lineage.py:103-106 | a name is an input iff it is a candidate word and a word of some IF condition |
| FieldLineage.MoveSources | field_lineage.py:109-111 | every declared MOVE source is an input |
| FieldLineage.MoveDestinations | field_lineage.py:109-112 | every declared MOVE destination is updated |
| FieldLineage.ClauseHostVars | field_lineage.py:136-140 | a clause's host variables count only if they are declared fields |
| FieldLineage.BlockInputs | field_lineage.py:132-156 | a block with none of INSERT, UPDATE or SELECT contributes no input |
| FieldLineage.BlockUpdates | field_lineage.py:146-150 | only a SELECT block updates fields, through its INTO host variables |
| FieldLineage.SqlInputs | field_lineage.py:132-156 | SQL inputs are declared fields |
| FieldLineage.SqlUpdates | field_lineage.py:132-150 | SQL updates are declared fields |
| FieldLineage.Candidates | field_lineage.py:96-100 | candidate words are declared fields |
| FieldLineage.RowInputs | field_lineage.py:103-156 | a chunk's inputs include all its known MOVE sources and are declared fields |
| FieldLineage.ArithmeticUpdates | field_lineage.py:109-129 | MOVE/COMPUTE/ADD/SUBTRACT/MULTIPLY/DIVIDE destinations count only if declared |
| FieldLineage.RowUpdates | field_lineage.py:109-166 | a WRITE or REWRITE of a record name marks every field updated; arithmetic destinations are always included |
| FieldLineage.InputUse | field_lineage.py:95-168 | `input_use` stays within the declared fields |
| FieldLineage.UpdatedUse | field_lineage.py:95-168 | `updated_use` stays within the declared fields |
| FieldLineage.AnalyzeFields | field_lineage.py:59-192 | the whole procedure returns `FieldAnalysis` of the rows and hint |
| FieldLineage.ClassifyUses | field_lineage.py:95-168 | the scan over all chunks computes `input_use` and `updated_use` |
| FieldLineage.ClassifyRow | field_lineage.py:96-166 | one chunk's contribution is `RowInputs` / `RowUpdates` |
| FieldLineage.FieldReportNoCopybook | field_lineage.py:76-77 | the error result appears iff no chunk is selected, and it carries the upper-cased hint |
| FieldLineage.FieldReportBuckets | field_lineage.py:171-172 | input and updated are declared fields; input ∪ updated ∪ unused is every field, and unused is disjoint from both |
| FieldLineage.FieldReportTotals | field_lineage.py:174-191 | every list is strictly sorted; each total is the size of its bucket; static is exactly the static metas |
| FieldLineage.SqlInputsIff | field_lineage.py:132-156 | a field is an SQL input iff it is declared and some block reads it: a host variable of an INSERT or UPDATE block (SET clause included), or of a SELECT block's WHERE clause |
| FieldLineage.BlockInputsIff | field_lineage.py:134-156 | one block's inputs are exactly the declared host variables it reads |
| FieldLineage.BlockUpdatesIff | field_lineage.py:146-150 | one block's updates are exactly the declared host variables of its INTO clauses, and only for a SELECT block |
| FieldLineage.SqlUpdatesIff | field_lineage.py:132-150 | a field is an SQL update iff it is declared and some SELECT block has it in an INTO clause |
| FieldLineage.RowInputsIff | field_lineage.py:96-156 | what one chunk adds to `input_use` is exactly the declared fields it reads: IF-condition words of the chunk, MOVE sources, and SQL host variables read |
| FieldLineage.RowUpdatesIff | field_lineage.py:109-166 | what one chunk adds to `updated_use` is exactly the declared fields it writes: arithmetic and MOVE destinations, SELECT ... INTO host variables, and every field when it writes a record |
| FieldLineage.InputUseIff | field_lineage.py:95-168 | `input_use` holds exactly the declared fields that some chunk reads |
| FieldLineage.UpdatedUseIff | field_lineage.py:95-168 | `updated_use` holds exactly the declared fields that some chunk writes |
| FieldLineage.FieldReportClassified | field_lineage.py:95-172 | in the report, `input` is the fields some chunk reads, `derived_or_updated` the fields some chunk writes, and `unused` exactly the declared fields that no chunk reads or writes |
| FieldLineage.FieldReportRowRules | field_lineage.py:109-166 | for each chunk, MOVE sources are reported as input and arithmetic destinations as updated, and a record write makes every field updated |
| GraphBuilder.AfterSepOfId | graph_builder.py:35-39 | `n.split("::",1)[1]` of `PGM::x`, `FILE::x` or `TABLE::x` is `x` |
| GraphBuilder.NodeAttrsOfIds | graph_builder.py:33-41 | each namespaced node is labelled with its name and typed by its namespace |
| GraphBuilder.NamespacesDiffer | graph_builder.py:13-26 | program, file and table ids never collide |
| GraphBuilder.SubjectEdges | graph_builder.py:14-18 | one edge per listed program |
| GraphBuilder.LineageToEdges | graph_builder.py:7-28 | the edges come in dictionary order; the node list holds each collected node exactly once |
| GraphBuilder.AddGroup | graph_builder.py:12-18 | the loop over one dictionary appends its edges and adds its nodes |
| GraphBuilder.AddSubject | graph_builder.py:13-18 | one subject adds its node, its programs' nodes and one edge per program |
| GraphBuilder.ListOf | graph_builder.py:28 | `list(nodes)` holds each element of the set exactly once |
| GraphBuilder.GroupEdgesSound | graph_builder.py:12-18 | every edge goes from a listed program of some subject to that subject, labelled with its sorted ops |
| GraphBuilder.GroupEdgesComplete | graph_builder.py:12-18 | every (program, subject) pair of the dictionary has its edge |
| GraphBuilder.SubjectEdgesSpec | graph_builder.py:14-18 | a subject's edges are exactly its program-to-subject edges |
| GraphBuilder.GroupNodesHas | graph_builder.py:13-15 | every subject and every listed program is a node |
| GraphBuilder.GroupNodesShape | graph_builder.py:13-15 | every node carries the group prefix or `PGM::` |
| GraphBuilder.LineageEdgeShape | graph_builder.py:7-28 | every edge runs from a `PGM::` node to a `FILE::`/`TABLE::` node of the right group; both ends are nodes, and there is no self-loop |
| GraphBuilder.LineageNodeShape | graph_builder.py:7-28 | every node is in one of the three namespaces |
| GraphBuilder.EdgeEndsDetermineAttrs | graph_builder.py:12-26 | with distinct dictionary keys, two edges with the same ends are the same edge, so `add_edge` loses nothing |
| GraphBuilder.DiGraph.AddNode | graph_builder.py:35-41 | adds or re-attributes one node, appending it to the node order if new |
| GraphBuilder.DiGraph.AddEdge | graph_builder.py:42-43 | sets the attributes of `(u, v)`; a missing end node is added with empty attributes at the end of the node order (`u` before `v`), and no other node changes |
| GraphBuilder.BuildCrudGraph | graph_builder.py:30-44 | the graph's nodes carry the namespace attributes, and its edges are the edge map of the lineage edges |
| GraphBuilder.AddCrudNodes | graph_builder.py:33-41 | the node loop gives each listed node its attributes |
| GraphBuilder.AddCrudEdges | graph_builder.py:42-43 | the edge loop builds the edge map and leaves the nodes alone |
| GraphBuilder.CrudGraphEdges | graph_builder.py:42-43 | every lineage edge is in the graph with its own attributes |
| GraphBuilder.CrudGraphShape | graph_builder.py:30-44 | every graph edge goes program to file or table, never to itself |
| GraphBuilder.FirstExact | graph_builder.py:49-52 | the first node equal to the element or ending in `::element` |
| GraphBuilder.FirstFuzzy | graph_builder.py:55-58 | the first node whose lower case contains the element's lower case |
| GraphBuilder.ExactImpliesFuzzy | graph_builder.py:49-58 | an exact or suffix match is also a fuzzy match |
| GraphBuilder.TargetChoice | graph_builder.py:48-58 | the target is a node; an exact/suffix node, if any exists, is preferred; the target always passes the fuzzy test |
| GraphBuilder.TargetNone | graph_builder.py:59-60 | there is no target iff no node passes the fuzzy test |
| GraphBuilder.FindTarget | graph_builder.py:48-58 | the two search loops compute `Target` |
| GraphBuilder.Expand | graph_builder.py:66-69 | the new frontier is all successors and predecessors of the frontier |
| GraphBuilder.Filter | graph_builder.py:72 | the kept nodes are those of the order that are in the set |
| GraphBuilder.InducedValid | graph_builder.py:72 | the induced subgraph is well formed: distinct order, nodes as attributes, edges between kept nodes |
| GraphBuilder.Subgraph | graph_builder.py:72 | `G.subgraph(nodes).copy()` has exactly the kept nodes, each once, with their attributes, and exactly the edges among them; the model lists them in `g`'s order |
| GraphBuilder.Search | graph_builder.py:62-71 | the search collects the ball of `max(radius, 0)` rounds around the target |
| GraphBuilder.NeighborhoodSubgraph | graph_builder.py:46-72 | the result is the subgraph induced by the neighbourhood, which is empty without a target |
| GraphBuilder.BallIsReach | graph_builder.py:62-71 | a node is collected iff an undirected walk of at most `radius` steps reaches it from the target |
| GraphBuilder.BallMonotone | graph_builder.py:65-71 | a larger radius never collects fewer nodes |
| GraphBuilder.LayerInBall | graph_builder.py:65-71 | every frontier of the first `radius` rounds is collected |
| GraphBuilder.NeighborhoodCentre | graph_builder.py:62-72 | the target is always kept; with radius ≤ 0 it is the only node |
| GraphBuilder.BallInGraph | graph_builder.py:62-71 | the search never leaves the graph |
| GraphBuilder.NeighborhoodIsInduced | graph_builder.py:72 | the subgraph's nodes are exactly the collected nodes |
| Ingest.Collapse | ingest.py:33 | `re.sub(r"\s+", " ", …)`: empty iff the input is; whitespace appears only as single spaces |
| Ingest.NormalizeShape | ingest.py:33 | after the strip: no whitespace other than single inner spaces, none at either end |
| Ingest.NormalizeEmpty | ingest.py:33 | the normalised text is empty iff the input is all whitespace |
| Ingest.CollapseVisible | ingest.py:33 | the collapse keeps every non-whitespace character, in order, and adds none |
| Ingest.StripVisible | ingest.py:33 | `strip()` removes only whitespace |
| Ingest.NormalizeVisible | ingest.py:33 | with the whitespace taken out, the normalised text is the input: only whitespace changes |
| Ingest.TextIngestor.Chunk | ingest.py:32-44 | `_chunk` returns the windows of the normalised text |
| Ingest.TextIngestor.Windows | ingest.py:35-43 | the window loop computes `ChunksFrom` from position 0 |
| Ingest.TextIngestor.IngestText | ingest.py:46-53 | each chunk is stored with its index, and the count returned is the number of chunks |
| Ingest.ChunksEmpty | ingest.py:37 | no window iff the start is at or past the end |
| Ingest.ChunkLengths | ingest.py:38-40 | every window is non-empty and at most `chunk_size` long; all but the last are exactly `chunk_size` |
| Ingest.FirstChunk | ingest.py:38-40 | the first window is the text's first `min(n, chunk_size)` characters |
| Ingest.ChunksRejoin | ingest.py:37-43 | the first window plus each later window minus its overlap rebuilds the text from `start` |
| Ingest.ChunksCover | ingest.py:37-43 | the windows rebuild the whole normalised text |
| Ingest.LastChunkEnds | ingest.py:41 | the last window is a suffix of the text |
| Ingest.ChunksOverlap | ingest.py:42-43 | consecutive windows share exactly `chunk_overlap` characters |
| Ingest.NoChunksForBlankText | ingest.py:32-44 | no chunk iff the text is all whitespace |
| CodeIngest.SplitLines | code_ingest.py:17 | every line contains no line boundary |
| CodeIngest.SplitTerminated | code_ingest.py:17 | splitting newline-terminated lines gives those lines back |
| CodeIngest.SplitLinesLast | code_ingest.py:17 | a non-empty last line with no boundary after it is kept as the last element |
| CodeIngest.SplitLinesBreak | code_ingest.py:17 | a line followed by any boundary is the first element and the split goes on after the boundary, `\r\n` counting as one; with the empty text giving no line, this fixes the split of every text |
| CodeIngest.Decimal | code_ingest.py:21 | `str(n)` is a non-empty digit string whose value is `n`, with no leading zero unless `n` is 0 |
| CodeIngest.Pad5 | code_ingest.py:21 | `:05d`: digits only, length `max(5, len(str(n)))` |
| CodeIngest.Pad5Value | code_ingest.py:21 | the padded number still denotes `n` |
| CodeIngest.NumberedRoundTrip | code_ingest.py:21 | the number and the text can be read back from a numbered line |
| CodeIngest.NumberedHasNoNewline | code_ingest.py:21 | numbering a line adds no newline |
| CodeIngest.NumberBlockJoin | code_ingest.py:21 | a numbered block is the numbered lines joined by `\n` |
| CodeIngest.CodeIngestor.IngestCode | code_ingest.py:16-35 | `linesPerChunk == 0` is an error (`range` step 0); otherwise each chunk is stored with its index and their number is returned |
| CodeIngest.CodeIngestor.BuildChunks | code_ingest.py:19-22 | a negative step gives no chunk; a positive one gives one numbered block per `range(0, len, n)` start |
| CodeIngest.StartsAt | code_ingest.py:19 | the `k`-th start is `k * n` |
| CodeIngest.ChunkCount | code_ingest.py:19 | the chunk count is `ceil(len(lines) / n)` |
| CodeIngest.ChunkContents | code_ingest.py:19-21 | chunk `k` is the numbered block of lines `k*n` up to `min(len, k*n + n)` |
| CodeIngest.ChunkLine | code_ingest.py:19-21 | line `j` of chunk `k` is source line `k*n + j`, numbered `k*n + j + 1` |
| CodeIngest.BlockLines | code_ingest.py:21 | splitting a numbered block at `\n` gives its numbered lines |
| CodeIngest.ChunkSize | code_ingest.py:19-21 | each chunk holds between 1 and `n` lines, and exactly `n` unless it is the last |
| CodeIngest.BlockText | code_ingest.py:21 | removing the numbers from a block gives the block's lines |
| CodeIngest.ChunksRoundTrip | code_ingest.py:19-22 | the chunks, unnumbered and concatenated, are the lines from the first start on |
| CodeIngest.CodeRoundTrip | code_ingest.py:17-22 | the chunks of a text, unnumbered and concatenated, are exactly its lines; the count is `ceil(lines / n)` |
| CsvDiff.NormalizedName | csv_diff.py:9 | a normalised name has no lower-case letter and no whitespace at either end |
| CsvDiff.NormalizeIdempotent | csv_diff.py:8-9 | normalising twice is normalising once |
| CsvDiff.SchemaDiffPartition | csv_diff.py:24-32 | a name is only-in-DB2, only-in-CSV or common iff it occurs on that side only or on both |
| CsvDiff.SchemaDiffCovers | csv_diff.py:27-31 | the three lists are pairwise disjoint, and together they are the union of both sides |
| CsvDiff.SchemaDiffSorted | csv_diff.py:29-31 | each list is strictly sorted |
| CsvDiff.SchemaDiffSwap | csv_diff.py:24-32 | swapping the sources swaps the one-sided lists and keeps the common one |
| CsvDiff.CheckKeys | csv_diff.py:37-43 | it succeeds iff every upper-cased key is a normalised column of both sources; otherwise the error names the first missing key |
| CsvDiff.FirstAbsent | csv_diff.py:41-43 | the first key missing from either column list, or none |
| Guardrails.MatchAt | guardrails.py:6-10 | a match is non-empty, inside the text and starts at a digit |
| Guardrails.RedactForLogs | guardrails.py:12-16 | the loop applies card, then phone, then nine-digit substitution (`Redacted`) |
| Guardrails.NoDigitsUnchanged | guardrails.py:12-16 | text without a digit is logged unchanged |
| Guardrails.MarkersHaveNoDigits | guardrails.py:7-9 | the three markers contain no digit, so a later pattern never matches inside one |
| Guardrails.DigitWordReplaced | guardrails.py:7-9 | between digit-free text, a whole digit word of allowed length is replaced by the marker |
| Guardrails.FramedMatches | guardrails.py:7-9 | in a framed text, the digit-word pattern matches only at the word, and only when its length is allowed |
| Guardrails.PhoneNeverFramed | guardrails.py:8 | the phone pattern does not match a plain digit word |
| Guardrails.DigitWordKept | guardrails.py:7-9 | between digit-free text, a digit word of another length is left alone |
| Guardrails.CardRedacted | guardrails.py:7 | between digit-free text, a 13-to-19-digit word is logged as `[REDACTED_CARD]` |
| Guardrails.IdRedacted | guardrails.py:9 | between digit-free text, a 9-digit word is logged as `[REDACTED_SSN_OR_NAS]` |
| Guardrails.OtherDigitWordKept | guardrails.py:6-16 | between digit-free text, a digit word of any other length survives all three patterns |
| Guardrails.GluedDigitsKept | guardrails.py:7-9 | between digit-free text, digits glued to a letter or `_` are not a word and are not redacted |
| Guardrails.PhoneRedacted | guardrails.py:8 | between digit-free text, a whole `ddd-ddd-dddd` word is logged as `[REDACTED_PHONE]` |
| Guardrails.PhoneMatches | guardrails.py:8 | the phone pattern matches such a word over its 12 characters |
| Guardrails.SubSplitAt | guardrails.py:6-10 | every pattern's substitution splits at a character that is neither a word character nor `-`: the text before it and the text after it are substituted independently and the character is kept |
| Guardrails.SubAround | guardrails.py:6-10 | with such characters (or the ends) around `w`, substituting `pre + w + post` substitutes the three parts independently, and the substituted `pre` and `post` still end and start with such characters |
| Guardrails.RedactedAround | guardrails.py:12-16 | the same split for the whole three-pattern redaction |
| Guardrails.DigitWordReplacedAround | guardrails.py:7-9 | a digit word of allowed length is replaced by the marker whatever text lies beyond its boundaries |
| Guardrails.DigitWordKeptAround | guardrails.py:7-9 | a digit word of another length is kept whatever text lies beyond its boundaries |
| Guardrails.GluedDigitsKeptAround | guardrails.py:7-9 | digits glued to a letter or `_` are kept whatever text lies beyond the boundaries around them |
| Guardrails.CardRedactedAround | guardrails.py:7-16 | in any bounded context a 13-to-19-digit word is logged as `[REDACTED_CARD]`, the rest being redacted on its own |
| Guardrails.IdRedactedAround | guardrails.py:9-16 | in any bounded context a 9-digit word is logged as `[REDACTED_SSN_OR_NAS]` |
| Guardrails.OtherDigitWordKeptAround | guardrails.py:6-16 | in any bounded context a digit word of any other length survives all three patterns |
| Guardrails.PhoneRedactedAround | guardrails.py:8-16 | in any bounded context a `ddd-ddd-dddd` word is logged as `[REDACTED_PHONE]` |
| Ordering.SortedSet | lineage.py:135 | `sorted(list(s))` is strictly sorted, holds exactly `s`, and has `|s|` elements |
| Ordering.SortedUnique | lineage.py:135 | there is only one strictly sorted list of a set |
| Ordering.SortSet | lineage.py:135 | the sort computes `SortedSet` |

## Left out

- `to_pyvis_html` (`graph_builder.py:74-83`): HTML rendering through an external library.
- `extract_text` (`ingest.py:17-30`): PDF, DOCX and charset decoding are foreign libraries.
- `read_csv_bytes` and `fetch_db2_sample` (`csv_diff.py:11-22`): CSV parsing and the DB2 query are I/O.
- `data_diff_on_key` beyond its key check (`csv_diff.py:45-74`): it is pandas frame indexing and value comparison. Only the normalisation and the key check are modelled (`CsvDiff.CheckKeys`).
- The sqlite reads of `analyze_session` and `analyze_fields`, and the `add_chunk` / `add_texts` calls of the ingestors, are I/O. Rows come in as a sequence in id order, and the stored chunks are returned as (index, text) pairs; the other meta fields are not modelled.
- The regex engine is not modelled: the matches of each pattern are inputs, except for the scanners named above.
- `referenced` in `analyze_fields` is built but never returned, so it is left out.
- Python's Unicode `\d`, `\w`, `isspace` edge cases and case mapping are modelled over ASCII letters and digits, with Python's whitespace set for `strip`/`\s`.
- `filename` being `None` (`or ""`) is not modelled: file names are strings.
- Dictionary iteration order is an input: dictionaries are sequences of (key, value) items in insertion order.
- Ingest.TextIngestor.Chunk, Ingest.TextIngestor.Windows, Ingest.TextIngestor.IngestText: require `0 < chunk_size` and `chunk_overlap < chunk_size`, because otherwise the loop can fail to advance; with `chunk_size <= 0` and a smaller overlap the source's loop ends but emits empty chunks or slices with a negative end, and those inputs are not covered either; a negative start is clamped at 0 as in the source.
- Lineage.LineageMap.AddOp: the unused `line` argument of `_add_op` is dropped.
- GraphBuilder.DiGraph.AddNode: replaces a node's attributes rather than merging them as networkx does; every node is added once, so the difference never shows.
- `MAINFRAME_EXTS` (`code_ingest.py:7`) is never used by the code and is left out.
- Guardrails.DigitWordReplaced, Guardrails.DigitWordKept, Guardrails.GluedDigitsKept: the text around the word must be digit-free; the `…Around` lemmas drop that condition when the word is bounded by characters that are neither word characters nor `-`.
- Guardrails.CardRedacted: needs digit-free text around the word; Guardrails.CardRedactedAround covers any context bounded by characters that are neither word characters nor `-`.
- Guardrails.IdRedacted: needs digit-free text around the word; Guardrails.IdRedactedAround covers any bounded context.
- Guardrails.OtherDigitWordKept: needs digit-free text around the word; Guardrails.OtherDigitWordKeptAround covers any bounded context.
- Guardrails.PhoneRedacted: needs digit-free text around the word; Guardrails.PhoneRedactedAround covers any bounded context.
- Guardrails.DigitWordReplacedAround, Guardrails.DigitWordKeptAround, Guardrails.GluedDigitsKeptAround, Guardrails.CardRedactedAround, Guardrails.IdRedactedAround, Guardrails.OtherDigitWordKeptAround, Guardrails.PhoneRedactedAround: a word whose neighbour is `-` in text that has other digits is not covered, because a phone match can run across a `-`, so the text does not split there.
- Lineage.TableNamesFilter: states the table names as a multiset; their order (that of the matches) is not stated, and the maps do not depend on it (`Lineage.FoldPermutation`).
- FieldLineage.SelectedRows: its ensures state which rows are kept, not their order; the order is the row order of its definition, and FieldLineage.SelectedFirstWins states what that order decides.
- Ingest.Collapse, Ingest.NormalizeVisible: they state the shape of the result and that only whitespace changes, but not that a space stands exactly where a whitespace run separated two other characters; that is the definition of `Ingest.Collapse` itself.
- GraphBuilder.Subgraph: lists the kept nodes in `g`'s node order; networkx does not promise that order for `G.subgraph(nodes)`, whose node iteration can follow the order of the `nodes` set instead. The node set, the attributes and the edges do not depend on it.
- GraphBuilder.NeighborhoodSubgraph: the same fixed order for the returned neighbourhood.
