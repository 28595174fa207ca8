# Support-ticket knowledge graph, modelled in Dafny

The system turns a CSV export of customer-support tickets into a Neo4j knowledge graph and
shows aggregates of that graph on a dashboard. This project models its deterministic core:

- **Preprocessing** (`Preprocessor`, `preprocessor.dfy`):
  - drop rows whose Ticket ID was already seen, keeping the first;
  - fill missing subject, description, resolution and rating with fixed defaults;
  - lower-case the priority;
  - derive the customer segment from the age;
  - mask the e-mail address.

  A data frame is its set of column names plus its rows. A cell is a `Value`: a string, an
  integer, None, NaN or NaT.
- **Extraction** (`Extractor`, `extractor.dfy`):
  - replace NaN/NaT with None;
  - take the greedy `{`…`}` span of the language model's reply;
  - merge the decoded fields into the cleaned row, falling back to the cleaned row on any
    exception.

  The model call and the JSON decoder are function parameters.
- **Graph upload** (`GraphManager`, `graph_manager.dfy`):
  - one MERGE/SET statement per record, in order;
  - customers keyed by email, products by name, tickets by id;
  - RAISED and ABOUT relationship sets.

  The graph is a value, `GraphState`. The class `KnowledgeGraphManager` holds it in
  fields that `UploadData` updates in a loop. The graph is also characterized by:
  - `Ingest`, a statement-by-statement reference;
  - `Overlay`, a closed form, that is, the old graph overlaid with the items' writes.
- **Schema setup** (`SchemaBuilder`, `schema_builder.dfy`): the database schema is a set of
  schema objects. Setup adds, if absent, three uniqueness constraints and the vector index
  `ticket_vectors`.
- **Dashboard** (`Dashboard`, `dashboard.dfy`):
  - the KPI and chart queries, as functions of the graph (ticket total, critical count,
    status distribution, top-10 product ranking, critical percentage);
  - the `"\n\n"` join of retrieved documents.
- **Python semantics** (`Values`, `values.dfy`): the Python behaviour the rest relies on,
  namely `str()`, `dict.get`, `pd.isna`, `str.find`, and the last-occurrence search that
  ends the greedy `\{.*\}` match.
- **Record keys** (`Columns`, `columns.dfy`): every column and field name, defined once.

Three behaviours of the code are modelled as written:

- **RAISED edges.** Nothing removes an old RAISED edge. A ticket id that reappears with
  another email therefore ends up with two RAISED edges (`SameTicketTwoCustomers`). The
  code does not keep one customer per ticket.
- **Critical count.** The count compares the priority case-sensitively with `'High'` and
  `'Critical'`. Preprocessing lower-cases every priority, so a graph built only from
  preprocessed records never has a critical ticket (`CriticalStaysZero`).
- **Product ranking.** The ranking reads AFFECTS relationships, but the upload creates ABOUT
  relationships. On a graph built by the upload, the only valid ranking is empty
  (`RankingEmptyAfterUpload`).

Inside the store, a property set to None is the same as an absent property, so a stored
`Null` means "no such property". A MERGE whose key is null fails the statement. The failure
ends `upload_data` with every earlier statement committed, because each `session.run`
auto-commits on its own.

## Model

| member | source | states |
|---|---|---|
| Values.Get | src/module2_extraction/graph_manager.py:43-45 | `dict.get(key)`: the stored value when the key is there, None otherwise |
| Values.GetOr | src/module2_extraction/graph_manager.py:24-25 | `dict.get(key, default)`: the default applies only when the key is absent |
| Values.Find | src/module1_preprocess/preprocessor.py:36 | `str.find`: -1 exactly when the character is absent; otherwise the index of its first occurrence |
| Values.RFind | src/module2_extraction/extractor.py:44 | the index of the last occurrence of a character, or -1 when it is absent |
| Values.ParseNatToDecimal | src/module2_extraction/graph_manager.py:23 | decimal rendering of a natural number parses back to the same number |
| Values.ShowIntInjective | src/module2_extraction/graph_manager.py:23 | `str()` of two integers is equal only when the integers are equal |
| Values.SignOfDecimal | src/module2_extraction/graph_manager.py:23 | an integer's text starts with `-` exactly when it is negative |
| Values.IsMissing | src/module2_extraction/extractor.py:21 | definition: `pd.isna`, true of None, NaN and NaT only; it decides what `Extractor.CleanValue` clears and what `Preprocessor.FillNa` fills |
| Values.Show | src/module2_extraction/graph_manager.py:28-32 | definition: `str()` as an f-string interpolates it, with None printed as `None`; properties in `ShowIntInjective`, `SignOfDecimal`, `GraphManager.TicketIdKeys` and `GraphManager.RichTextOfMissingFields` |
| GraphManager.TicketId | src/module2_extraction/graph_manager.py:23 | definition: `str(item.get('Ticket ID'))`; its properties are in `TicketIdKeys` |
| GraphManager.Email | src/module2_extraction/graph_manager.py:43 | definition: `item.get('Customer Email')`, the Customer MERGE key; it is null-checked by `Step` |
| GraphManager.RichText | src/module2_extraction/graph_manager.py:28-32 | definition: the `rag_content` template with `str()` of each field; `RichTextOfMissingFields` and `TicketLastWriteWins` state what is stored |
| GraphManager.CustomerName | src/module2_extraction/graph_manager.py:24 | the customer name defaults to `'User'` only when the key is absent |
| GraphManager.ProductName | src/module2_extraction/graph_manager.py:25 | the product name defaults to `'Product'` only when the key is absent |
| GraphManager.TicketIdKeys | src/module2_extraction/graph_manager.py:23 | distinct integer ids give distinct ticket keys; a missing or None id becomes `"None"`, so all such items share one Ticket |
| GraphManager.RichTextOfMissingFields | src/module2_extraction/graph_manager.py:28-32 | `rag_content` of an item without AI fields ends in `Root Cause: None. Sentiment: None.` |
| GraphManager.SetTicket | src/module2_extraction/graph_manager.py:37-38 | merging a Ticket adds its id if absent, overwrites the four properties, sets `name` to the id, keeps the node's other properties and leaves every other Ticket untouched |
| GraphManager.Step | src/module2_extraction/graph_manager.py:34-45 | one statement fails exactly when the email or the product key is null, naming the first failing MERGE |
| GraphManager.Mergeable | src/module2_extraction/graph_manager.py:35-36 | definition: both MERGE keys that can be null, the email and the product name, are present; `Step` fails exactly when it is false, and `IngestStopsAtFirstNullKey` and `IngestOfMergeable` state what that does to an upload |
| GraphManager.ErrorOf | src/module2_extraction/graph_manager.py:35-36 | definition: the Customer MERGE is reported when the email is null, the Product MERGE otherwise; `Step` and `IngestStopsAtFirstNullKey` return it |
| GraphManager.Ingest | src/module2_extraction/graph_manager.py:21-45 | definition: the statements run in order, the first failure ending the loop; characterized by `IngestIsOverlay`, `IngestStopsAtFirstNullKey`, `IngestAfterFailure` and implemented by `KnowledgeGraphManager.UploadData` |
| GraphManager.Overlay | src/module2_extraction/graph_manager.py:34-45 | reference definition: the old graph with the items' last writes per key and their nodes and edges added; related to `Ingest` by `IngestIsOverlay` |
| GraphManager.Processed | src/module2_extraction/graph_manager.py:21-45 | the number of statements run: all before it succeed and the next one has a null key |
| GraphManager.IngestIsOverlay | src/module2_extraction/graph_manager.py:21-45 | ingesting a list equals overlaying the processed prefix's writes on the old graph, and reports the first failing item |
| GraphManager.IngestStopsAtFirstNullKey | src/module2_extraction/graph_manager.py:21-45 | the first item with a null key stops the loop; the graph is the one after the items before it |
| GraphManager.IngestOfMergeable | src/module2_extraction/graph_manager.py:21-45 | when no item has a null key, the upload reports no failure |
| GraphManager.IngestAfterFailure | src/module2_extraction/graph_manager.py:21-45 | items after a failure have no effect |
| GraphManager.IngestSnoc | src/module2_extraction/graph_manager.py:21-45 | one more item is one more statement on the graph so far, unless the loop already stopped |
| GraphManager.IngestIdempotent | src/module2_extraction/graph_manager.py:34-45 | ingesting the same list twice leaves the graph and the outcome of ingesting it once |
| GraphManager.IngestMonotone | src/module2_extraction/graph_manager.py:34-41 | no customer, product, ticket or edge is removed; AFFECTS and the tickets' other properties are unchanged |
| GraphManager.IngestFramesUntouched | src/module2_extraction/graph_manager.py:35-38 | a ticket or customer that no processed item names keeps its node exactly |
| GraphManager.TicketLastWriteWins | src/module2_extraction/graph_manager.py:37-38 | for a repeated ticket id the last item's `rag_content`, `status` and `priority` are stored, and `name` is the id |
| GraphManager.CustomerLastWriteWins | src/module2_extraction/graph_manager.py:35 | for a repeated email the last item's customer name is stored |
| GraphManager.IngestedItemIsLinked | src/module2_extraction/graph_manager.py:34-41 | every processed item leaves its customer, product and ticket nodes and its RAISED and ABOUT edges |
| GraphManager.IngestEdges | src/module2_extraction/graph_manager.py:40-41 | the edge sets are the old ones plus exactly the processed items' (email, id) and (id, product) pairs |
| GraphManager.TicketIdsAfterIngest | src/module2_extraction/graph_manager.py:37 | the Ticket keys are the old keys plus the processed items' ids: one Ticket per id |
| GraphManager.TicketCountAfterIngest | src/module2_extraction/graph_manager.py:37 | the number of Ticket nodes is the number of distinct ids, old and new |
| GraphManager.IngestKeepsNamesAreIds | src/module2_extraction/graph_manager.py:38 | every Ticket's `name` equals its id, before and after ingestion |
| GraphManager.IngestKeepsEdgesJoinNodes | src/module2_extraction/graph_manager.py:34-41 | every RAISED and ABOUT edge joins existing nodes, before and after ingestion |
| GraphManager.SameTicketTwoCustomers | src/module2_extraction/graph_manager.py:40 | a ticket id ingested under two emails has two RAISED edges |
| GraphManager.TicketWritesLast | src/module2_extraction/graph_manager.py:38 | the reference ticket writes hold the last item's fields for each id |
| GraphManager.CustomerWritesLast | src/module2_extraction/graph_manager.py:35 | the reference customer writes hold the last item's name for each email |
| GraphManager.OverlayIdempotent | src/module2_extraction/graph_manager.py:34-45 | overlaying the same writes twice is overlaying them once |
| GraphManager.KnowledgeGraphManager.UploadData | src/module2_extraction/graph_manager.py:21-45 | the loop leaves the fields holding `Ingest` of the old graph and returns its failure |
| GraphManager.KnowledgeGraphManager.RunStatement | src/module2_extraction/graph_manager.py:34-45 | one statement changes the graph as `Step` does, or reports its error and changes nothing |
| GraphManager.KnowledgeGraphManager.MergeCustomer | src/module2_extraction/graph_manager.py:35 | the customer of that email gets that name; no other field changes |
| GraphManager.KnowledgeGraphManager.MergeProduct | src/module2_extraction/graph_manager.py:36 | the product is added if absent; no other field changes |
| GraphManager.KnowledgeGraphManager.MergeTicket | src/module2_extraction/graph_manager.py:37-38 | the ticket is set as `SetTicket` does; no other field changes |
| GraphManager.KnowledgeGraphManager.MergeEdges | src/module2_extraction/graph_manager.py:40-41 | the RAISED and ABOUT pairs are added; no other field changes |
| Preprocessor.Dedup | src/module1_preprocess/preprocessor.py:10 | specification of `drop_duplicates(subset=['Ticket ID'])`; stated independently by `DedupIsFirstOccurrences`, `DedupDistinct`, `DedupShorter`, `DedupIdempotent` |
| Preprocessor.DropDuplicates | src/module1_preprocess/preprocessor.py:10 | the loop computes `Dedup`: the first row of each Ticket ID, in input order |
| Preprocessor.DedupIsFirstOccurrences | src/module1_preprocess/preprocessor.py:10 | the kept rows are exactly the first occurrences of their ids, at strictly increasing input positions |
| Preprocessor.DedupIndicesPick | src/module1_preprocess/preprocessor.py:10 | each kept row is the input row at its recorded position, and that row is a first occurrence |
| Preprocessor.DedupIndicesIncreasing | src/module1_preprocess/preprocessor.py:10 | the recorded positions are strictly increasing, so input order is kept |
| Preprocessor.DedupIndicesComplete | src/module1_preprocess/preprocessor.py:10 | every first occurrence is kept |
| Preprocessor.DedupDistinct | src/module1_preprocess/preprocessor.py:10 | the kept rows have pairwise distinct ids and every id of the input |
| Preprocessor.DedupShorter | src/module1_preprocess/preprocessor.py:10 | dedup never increases the row count |
| Preprocessor.DedupOfDistinct | src/module1_preprocess/preprocessor.py:10 | rows that already have distinct ids are kept unchanged |
| Preprocessor.DedupIdempotent | src/module1_preprocess/preprocessor.py:10 | dedup applied twice is dedup applied once |
| Preprocessor.FillNa | src/module1_preprocess/preprocessor.py:14-17 | a missing value becomes the default; a present value is unchanged |
| Preprocessor.MapColumn | src/module1_preprocess/preprocessor.py:14-22 | a column assignment keeps the row count and changes only that column of each row |
| Preprocessor.TryMapColumn | src/module1_preprocess/preprocessor.py:30-36 | `apply` succeeds exactly when the function succeeds on every row, and then sets the column row by row |
| Preprocessor.CleanRows | src/module1_preprocess/preprocessor.py:10-22 | definition: dedup, the four fills, the lower-cased priority; its rows are described by `CleanRowsFilled`, `CleanRowsKeep`, `CleanRowsProperties` |
| Preprocessor.CleanRowsFilled | src/module1_preprocess/preprocessor.py:14-22 | each cleaned row holds the default where a text or the rating was missing, the original value where it was present, and the lower-cased priority |
| Preprocessor.CleanRowsProperties | src/module1_preprocess/preprocessor.py:10-22 | cleaning keeps the deduplicated rows' ids and leaves no missing subject, description, resolution or rating and every priority already lower-cased |
| Preprocessor.LowerAscii | src/module1_preprocess/preprocessor.py:22 | lower-casing keeps the length and lower-cases each character |
| Preprocessor.LowerPriority | src/module1_preprocess/preprocessor.py:22 | definition of `.str.lower()` on one cell; properties in `LowerPriorityProperties` |
| Preprocessor.LowerPriorityProperties | src/module1_preprocess/preprocessor.py:22 | every output priority is missing or has no upper-case letter; lower-casing is idempotent and keeps the length |
| Preprocessor.SegmentOf | src/module1_preprocess/preprocessor.py:30-32 | Youth exactly below 30, Adult exactly from 30 below 50, Senior exactly from 50 |
| Preprocessor.Segment | src/module1_preprocess/preprocessor.py:30-32 | an integer age gets its segment, NaN gets Senior (every comparison with NaN is false), and any other cell raises |
| Preprocessor.SliceFrom | src/module1_preprocess/preprocessor.py:36 | Python's `s[start:]`, where a negative start counts from the end |
| Preprocessor.MaskEmail | src/module1_preprocess/preprocessor.py:36 | definition of the mask lambda on a text, None where `str(x)[0]` raises; properties in `MaskWithAt`, `MaskWithoutAt`, `MaskIdempotent` |
| Preprocessor.MaskValue | src/module1_preprocess/preprocessor.py:36 | the mask of `str(x)` for a cell; properties in `MaskValueFails`, `MaskValueIsMasked` |
| Preprocessor.MaskWithAt | src/module1_preprocess/preprocessor.py:36 | with the first `@` at index i, the mask is first character, `***`, then `s[i:]`, of length 4 + len(s) - i |
| Preprocessor.MaskWithoutAt | src/module1_preprocess/preprocessor.py:36 | without `@`, `find` gives -1 and the mask is first character, `***`, last character |
| Preprocessor.MaskIdempotent | src/module1_preprocess/preprocessor.py:36 | masking a non-empty text whose first character is not `@` twice is masking it once |
| Preprocessor.MaskValueFails | src/module1_preprocess/preprocessor.py:36 | the mask raises exactly on an empty text |
| Preprocessor.MaskValueIsMasked | src/module1_preprocess/preprocessor.py:36 | every masked cell is a text with `***` after its first character |
| Preprocessor.FirstMissing | src/module1_preprocess/preprocessor.py:10-30 | none exactly when every column of the order is there; otherwise a missing column all of whose predecessors are there |
| Preprocessor.FirstMissingAt | src/module1_preprocess/preprocessor.py:10-30 | a column missing after all earlier ones were found is the one reported |
| Preprocessor.MissingColumn | src/module1_preprocess/preprocessor.py:10-30 | among the nine columns read before the email column (id, four filled columns, both dates, priority, age, in reading order), the first one the frame lacks; none exactly when all are there |
| Preprocessor.LoadAndClean | src/module1_preprocess/preprocessor.py:10-30 | the steps up to the segment raise a KeyError for the first missing column, and otherwise yield the deduplicated, filled and lower-cased rows |
| Preprocessor.Preprocess | src/module1_preprocess/preprocessor.py:10-36 | definition of the modelled pipeline with its three error kinds, KeyError raised at two points; properties in `PreprocessKeyError`, `PreprocessSucceeds`, `PreprocessProperties`, `PreprocessRowValues`; implemented by `RunPreprocessPipeline` |
| Preprocessor.PreprocessKeyError | src/module1_preprocess/preprocessor.py:10-36 | a KeyError names a missing column; a missing column among the nine read first (dates included) always raises one; a missing email column raises one only after every age was segmented |
| Preprocessor.PreprocessSucceeds | src/module1_preprocess/preprocessor.py:10-36 | with every column there, the run succeeds exactly when every age can be segmented and no email text is empty |
| Preprocessor.PreprocessProperties | src/module1_preprocess/preprocessor.py:10-36 | a successful run keeps at most the input's rows, with pairwise distinct ids and every input id, and every row filled, lower-cased, segmented and masked |
| Preprocessor.PreprocessRowValues | src/module1_preprocess/preprocessor.py:10-36 | output row i is kept row i cleaned, with the segment of its age and its masked email; every other column is the cleaned row's |
| Preprocessor.CleanRowsKeep | src/module1_preprocess/preprocessor.py:14-22 | cleaning changes no column other than the four filled ones and the priority |
| Preprocessor.RunPreprocessPipeline | src/module1_preprocess/preprocessor.py:10-36 | the step-by-step pipeline computes `Preprocess`, the error cases included |
| Extractor.CleanValue | src/module2_extraction/extractor.py:17-23 | NaN, NaT and None become None; every other value is returned unchanged |
| Extractor.CleanRow | src/module2_extraction/extractor.py:48 | the cleaned row has the same keys and each value cleaned |
| Extractor.JsonSpan | src/module2_extraction/extractor.py:44 | there is no span exactly when no `}` follows a `{`; a span starts with `{` and ends with `}` |
| Extractor.JsonSpanFirstToLast | src/module2_extraction/extractor.py:44 | the span runs from the first `{` to the last `}` |
| Extractor.AiData | src/module2_extraction/extractor.py:43-45 | definition of the try block's `ai_data`: None when a step raises, `{}` without a span, else the decoded span |
| Extractor.AssembleRecord | src/module2_extraction/extractor.py:48-53 | definition of the appended record; properties in `AssembleOnSuccess`, `AssembleWithoutSpan`, `AssembleOnFailure`, `RowValuesNeverNaN`; produced per row by `RunAiExtraction` |
| Extractor.AssembleOnSuccess | src/module2_extraction/extractor.py:48-49 | on success the keys are the union of the row keys and the AI keys; AI values win; other keys keep the cleaned row value |
| Extractor.AssembleWithoutSpan | src/module2_extraction/extractor.py:44-45 | a reply without a span gives `{}`, so the record is the cleaned row |
| Extractor.AssembleOnFailure | src/module2_extraction/extractor.py:52-53 | a missing description, a failed call or a failed decoding yields exactly the cleaned row |
| Extractor.RowValuesNeverNaN | src/module2_extraction/extractor.py:48-53 | a NaN or NaT in a record can only be a value the decoder supplied |
| Extractor.RunAiExtraction | src/module2_extraction/extractor.py:41-53 | one record per row, in row order, each the assembled record of its row, whichever branch ran |
| SchemaBuilder.CreateIfNotExists | src/module1_schema/schema_builder.py:16-25 | a statement never removes objects and adds at most its own; a constraint is always there afterwards; the index is there exactly when it already was or nothing blocked it |
| SchemaBuilder.BlocksIndex | src/module1_schema/schema_builder.py:21-25 | definition: an existing vector index with the same name, or on the same label and property, makes `IF NOT EXISTS` skip the new one; used by `CreateIfNotExists`, `SetupIndex` and `SetupIdempotent` |
| SchemaBuilder.IndexBlocked | src/module1_schema/schema_builder.py:21-25 | definition: some object of the schema blocks the index; `CreateIfNotExists` adds the index exactly when it is not blocked |
| SchemaBuilder.Setup | src/module1_schema/schema_builder.py:16-25 | definition: the four statements in order; properties in `SetupEstablishes`, `SetupIndex`, `SetupIdempotent`; implemented by `SchemaStore.SetupDatabaseSchema` |
| SchemaBuilder.SetupEstablishes | src/module1_schema/schema_builder.py:16-25 | after setup the three uniqueness constraints exist, an index holds the name `ticket_vectors` or the property `Ticket.rag_content`, nothing was removed, and only these four objects were added |
| SchemaBuilder.SetupIndex | src/module1_schema/schema_builder.py:21-25 | the 384-dimension cosine index on `Ticket.rag_content` is there after setup exactly when it was there before or nothing blocked it |
| SchemaBuilder.SetupIdempotent | src/module1_schema/schema_builder.py:16-25 | running setup twice gives the schema of running it once |
| SchemaBuilder.SchemaStore.CreateConstraint | src/module1_schema/schema_builder.py:16-18 | the schema becomes `CreateIfNotExists` of the old schema and the constraint |
| SchemaBuilder.SchemaStore.CreateVectorIndex | src/module1_schema/schema_builder.py:21-25 | the schema becomes `CreateIfNotExists` of the old schema and the index |
| SchemaBuilder.SchemaStore.SetupDatabaseSchema | src/module1_schema/schema_builder.py:16-25 | the four statements leave the schema `Setup` of the old one |
| Dashboard.TotalTickets | src/module4_dashboard/app.py:70 | definition: the number of Ticket nodes; related by `StatusCountsSumToTotal` and `CriticalAtMostTotal` |
| Dashboard.IsCritical | src/module4_dashboard/app.py:73 | definition: exact, case-sensitive match with `'High'` or `'Critical'`; see `LowerCasedNeverCritical` |
| Dashboard.CriticalTickets | src/module4_dashboard/app.py:73 | definition: the number of Tickets whose priority is critical; properties in `CriticalAtMostTotal`, `CriticalStaysZero` |
| Dashboard.CriticalAtMostTotal | src/module4_dashboard/app.py:70-73 | the critical count never exceeds the total |
| Dashboard.CriticalShare | src/module4_dashboard/app.py:118 | the delta is 0 when there are no tickets; otherwise it is the floor of 100·critical/total, at most 100 |
| Dashboard.StatusDistribution | src/module4_dashboard/app.py:76 | one group per distinct status value, a missing status being its own group, each counting its tickets and never empty |
| Dashboard.SumCountsRemove | src/module4_dashboard/app.py:76 | the sum of group counts is one group's count plus the sum of the others |
| Dashboard.SumOverStatuses | src/module4_dashboard/app.py:76 | the counts of a set of groups sum to the number of tickets in those groups |
| Dashboard.StatusCountsSumToTotal | src/module4_dashboard/app.py:70-76 | the status counts sum to the ticket total |
| Dashboard.AffectsCount | src/module4_dashboard/app.py:80 | definition: the Tickets with an AFFECTS edge to an existing product (a ticket counts once; see Left out) |
| Dashboard.IsProductRanking | src/module4_dashboard/app.py:80 | specification of the query's result: at most 10 distinct affected products with their counts, non-increasing, and full whenever a product is left out |
| Dashboard.MostAffectedExists | src/module4_dashboard/app.py:80 | a non-empty set of products has one with the largest AFFECTS count |
| Dashboard.TopRowsCounts | src/module4_dashboard/app.py:80 | the constructed ranking has at most k rows, and each row is a candidate product with its AFFECTS count |
| Dashboard.TopRowsOrdered | src/module4_dashboard/app.py:80 | no product repeats in the constructed ranking, and its counts are non-increasing |
| Dashboard.TopRowsComplete | src/module4_dashboard/app.py:80 | a candidate left out of the constructed ranking leaves all k rows taken, and counts no more than the last row; a product tied with the last row may be the one left out, as `LIMIT 10` allows |
| Dashboard.TopRowsProperties | src/module4_dashboard/app.py:80 | the constructed ranking has at most k rows, distinct products with their counts, in non-increasing order, and it is full whenever a product is left out |
| Dashboard.ProductRankingIsRanking | src/module4_dashboard/app.py:80 | a top-10 AFFECTS ranking exists on every graph |
| Dashboard.ProductRanking | src/module4_dashboard/app.py:80 | definition: one result the top-10 query can return, built by `TopRows` over the affected products; `ProductRankingIsRanking` proves it meets `IsProductRanking` |
| Dashboard.RankingWithoutAffects | src/module4_dashboard/app.py:80 | without AFFECTS edges the only valid ranking is empty |
| Dashboard.RankingEmptyAfterUpload | src/module4_dashboard/app.py:80 | on a graph built by the upload, which only creates ABOUT edges, the ranking is empty |
| Dashboard.LowerCasedNeverCritical | src/module4_dashboard/app.py:73 | a lower-cased priority is never `'High'` or `'Critical'` |
| Dashboard.TicketWritesNotCritical | src/module4_dashboard/app.py:73 | items without a critical priority write no critical priority |
| Dashboard.CriticalStaysZero | src/module4_dashboard/app.py:73 | uploading preprocessed records to a graph without critical tickets leaves the critical count 0 |
| Dashboard.JoinContents | src/module4_dashboard/app.py:61 | definition of `"\n\n".join(...)`; its layout is stated by `JoinContentsLength`, `JoinContentsAt`, `JoinContentsSeparator` |
| Dashboard.JoinContentsLength | src/module4_dashboard/app.py:61 | the joined text is as long as the contents plus two characters per separator |
| Dashboard.JoinContentsAt | src/module4_dashboard/app.py:61 | each document's content appears intact at its offset, in retrieval order |
| Dashboard.JoinContentsSeparator | src/module4_dashboard/app.py:61 | `"\n\n"` lies between each pair of neighbouring contents |

## Left out

- The Neo4j driver, sessions, environment variables and the JSON and CSV files. Each
  `session.run` is one atomic step on the abstract graph, and the input list is a parameter.
- Concurrency. Other writers are represented only by the `others` properties of a Ticket
  and the given AFFECTS edges.
- Date parsing, `Resolution_Time_Hours` and the ingestion timestamp in the preprocessor.
  These are clock and floating-point work. The two date columns are only checked to be
  present; a date that `pd.to_datetime` cannot parse (it raises on `Date of Purchase`) is
  not modelled, and the output frame does not gain the `Resolution_Time_Hours` and
  `ingestion_timestamp` columns.
- Preprocessor.Frame: every row is taken to carry every column of the frame, a missing cell
  being a stored None or NaN. Nothing enforces this; a row lacking a key behaves like a row
  holding None there (the age raises, the email masks as `N***e`), which a data frame
  cannot produce.
- Dashboard.AffectsCount: AFFECTS relationships are a set of pairs, so parallel AFFECTS
  relationships between one ticket and one product count once here, while Cypher's
  `count(t)` counts each matched path.
- Progress messages printed to the console (the preprocessor's start and end lines, the
  extractor's start line, the schema builder's two lines, and the upload's closing line,
  printed only when the whole loop succeeded).
- Floating-point cells. A cell is a string, an integer, None, NaN or NaT, and booleans and
  nested JSON values are not values here.
  - The rating default `fillna(0)` is modelled as the integer 0.
  - Ages are integers or NaN.
- Preprocessor.LowerPriority: `.str.lower()` raises on a column that has no strings at all.
  The model does not raise: it maps an integer cell to NaN and leaves a missing cell as it
  is, which is what pandas does in a column that holds strings.
- Preprocessor.LowerAscii: lower-cases ASCII letters only. Python's Unicode case mapping is
  not modelled.
- Preprocessor.DropDuplicates: pandas treats every missing id as one key. The model also
  treats None and NaN as two different keys.
- Dashboard.CriticalShare: states the exact floor of 100·critical/total. The source uses
  floating-point division, which can give one less; for example, 29/100·100 is
  28.999999999999996, which `int` truncates to 28.
- The language-model calls and `json.loads`. They are the `respond` and `parse` parameters;
  what they return is not modelled.
- The vector store, the embeddings, the retriever's top-5 search and the `page_content`
  formatting. The join takes the retrieved contents as given.
- `time.sleep`, `tqdm`, the Streamlit UI, charts and chat history, and `main.py`.
- Dictionary key order of the records and of the query results.
- Status groups as a sequence. The status result is a map from status value to count, and
  row order is not modelled.
- `Dashboard.ProductRanking` is a specification. It is built by repeatedly choosing a
  most-affected product, and it fixes no tie order among equal counts.
- SchemaBuilder.CreateIfNotExists: a vector index is blocked only by an index with the same
  name or the same label and property. Neo4j's other conflicts are not modelled, such as a
  constraint clashing with an existing index.
