# document-handler: a Dafny model of the reconciliation core

The document handler mirrors Word documents from SharePoint drives into a database. It keeps
each mirrored file as converted HTML with an embedding, and logs every content change. Given
one change, it asks a language model which similar documents should absorb that change, and
streams the rewritten documents back as HTML diffs.

This project models the parts of that system that decide what happens:

- **Webhook** — the POST `/webhook` handler. It answers the validation handshake and validates
  a notification batch. It then runs one delta-ingestion transaction per matched subscription:
  unknown items are inserted, deletions are removed, and a changed cTag records an "updated"
  change and overwrites the row.
- **SharepointHelpers** — `createNewDbSharepointFile`, the validation chain that turns a delta
  item into a file record or `null`.
- **DriveSync** — `updateSyncedSharepointSites`. It selects drives to add and to delete. It
  inserts drives with `on conflict do nothing`. It subscribes to each new drive, stores its
  first cursor and ingests its Word documents. It deletes opted-out drives with their
  subscriptions and files.
- **SiteListing** — `getSharepointSites`, the drive list shown to the operator.
- **Llm** — both decide-then-generate protocols: the current one over SharePoint files, and
  the older one over uploaded documents. Each has a forced yes/no function call, at most one
  corrective retry, and a streamed rewrite whose growing diff is emitted after every chunk.
- **Reconcile** — `runUpdateForChanges` and `runUpdateForDocuments`. Each claims a change or
  document once, searches similar documents, evaluates every candidate, and answers with the
  rewritten ones. All of it is one transaction.
- **Query** — the `where(or(...))` key lookup the procedures share, including its behaviour
  on an empty list of conditions.
- **MergeTags** — `mergeConsecutiveHTMLTags`, the editor's pre-import merge of sibling
  `STRONG`/`SPAN`/`I` elements that hold only text. Only tag names are compared, so a merge
  keeps the first element's attributes and drops the second's.
- **ClientRetry** — the browser query client's retry rule and its unauthorized-error
  classification.

External services are parameters: every call to Microsoft Graph, the download, pandoc, the
embedding model, the chat model, the vector search and `htmlDiff`. `Graph.Services` and
`Reconcile.Oracles` group them. The database's generated row ids are the parameter `rowId`,
and a site's drive listing is the parameter `drivesOf`. A database transaction is a function
returning `Result<Store>` (the webhook and drive sync) or an `Outcome` whose tables are the
ones before the call when the answer is an error (reconciliation).

Four procedures carry a fault the findings below describe: the webhook, both reconciliation
procedures and the drive sync. Each of them takes a `Variant` argument. `AsWritten` runs the
code as written; `Corrected` runs the behaviour its authors evidently intended. The lemmas about
these procedures are stated for both variants wherever they hold for both, and name the variant
where the two differ.

Some behaviours of the code that the model keeps as they are:

- The webhook inserts a newly seen file without writing any change record.
- In the webhook, one drive's failed transaction is re-thrown, so the remaining subscriptions
  are not processed.
- The webhook makes no vector-store updates.
- A refused claim in either reconciliation procedure calls `trx.rollback()` before it builds
  its `NOT_FOUND` error. Drizzle's rollback throws its own rollback error, so that error is
  what leaves the transaction. The model's refusal is `TransactionRollback`.
- `runUpdateForChanges` passes the file's id where the destination-only flag belongs. The
  search is therefore restricted to destination documents exactly when the id is non-empty.
- `runUpdateForDocuments` passes the base text where a document is expected, so the prompts
  read its title and text as `undefined`.

The table schema of the SharePoint tables is not part of this model. The model assumes:

- drives are unique on their (siteId, driveId) pair;
- files are unique on their item id;
- a file row is deleted with its drive (the procedure deletes no file rows itself);
- a change row is not deleted with its file or its drive. The only link column the code
  shows, `dbSharepointFileId`, is never written by the webhook, so a cascade on it would not
  reach the rows the webhook writes.

The model has two views of the change table, and they are not linked. `Db.ChangeRecord` is
what the webhook writes: a change type, the item id and the old and new content
(src/server/webhookHandler.ts:176-181). `Reconcile.ChangeRow` is what `runUpdateForChanges`
reads: the processed flag, the contents and `dbSharepointFileId`
(src/server/api/routers/changes/procedures/runUpdate.ts:16-46). The webhook never writes
`dbSharepointFileId`, so in the source a change the webhook records would point at no file.

## Model

| member | source | states |
|---|---|---|
| Webhook.ValidationEchoesToken | src/server/webhookHandler.ts:32-38 | in both variants, a request with a non-empty validation token is answered 200 with that token, and the store is untouched |
| Webhook.CheckEntries | src/server/webhookHandler.ts:42-52 | the validation loop can only refuse with 401 Unauthorized or 400 Bad request |
| Webhook.FirstFault | src/server/webhookHandler.ts:42-52 | the position of the first entry with a wrong clientState or missing subscriptionId: every entry before it is sound, and it is not |
| Webhook.CheckEntriesFirstFault | src/server/webhookHandler.ts:42-52 | the first faulty entry alone decides: 401 if its clientState is wrong, else 400; a batch with no faulty entry passes |
| Webhook.FaultyBatchRefused | src/server/webhookHandler.ts:42-52 | in both variants, any faulty entry anywhere in the batch gets the request refused with 401 or 400, with nothing ingested |
| Webhook.FaultyEntryRejected | src/server/webhookHandler.ts:42-52 | any faulty entry makes the validation loop refuse |
| Webhook.SubscriptionIds | src/server/webhookHandler.ts:61-63 | one looked-up id per notification, in order: its subscription id, or the empty string when it has none |
| Webhook.MatchingSubscriptions | src/server/webhookHandler.ts:56-66 | the subscription lookup returns only stored subscriptions; for an empty batch, corrected it returns none and as written it returns every stored subscription |
| Webhook.AcceptedIffSubscriptionMatches | src/server/webhookHandler.ts:56-78 | in both variants, a valid batch is answered 404 exactly when the lookup matches no stored subscription, leaving the store; otherwise 202, and ingestion runs over exactly the matched subscriptions. For a non-empty batch, a subscription is matched exactly when it is stored and some notification names it, so the answer is 404 exactly when no notification names a stored subscription |
| Webhook.EmptyBatchNotFound | src/server/webhookHandler.ts:56-71 | corrected: an empty batch finds no subscription, gets 404 and changes nothing |
| Webhook.EmptyBatchMatchesAllAsWritten | src/server/webhookHandler.ts:56-78 | as written: an empty batch, with subscriptions stored, is accepted and ingestion runs over every stored subscription |
| Webhook.DeltaRequestFor | src/server/webhookHandler.ts:94-102 | the delta is fetched incrementally from the stored cursor exactly when one is stored, else as a full listing of the drive's site and drive |
| Webhook.FilterItems | src/server/webhookHandler.ts:115 | the kept items are exactly the delta items passing the filter, none added |
| Webhook.CursorAdvancesOnlyWithNewLink | src/server/webhookHandler.ts:82-111 | a missing drive row fails with "Drive not found", a delta without cursor fails with "Delta link not found", and a successful pass stores the new cursor on the drive |
| Webhook.EntryKeepsDrives | src/server/webhookHandler.ts:117-188 | processing an item never touches drives or subscriptions |
| Webhook.EntriesKeepDrives | src/server/webhookHandler.ts:117-188 | a whole item loop never touches drives or subscriptions |
| Webhook.ItemWithoutIdFails | src/server/webhookHandler.ts:118-119 | an item without an id fails the pass with "No item id" |
| Webhook.UnknownDeletedSkipped | src/server/webhookHandler.ts:129-133 | an unknown item already deleted is skipped with no write |
| Webhook.UnknownInsertedWithoutChange | src/server/webhookHandler.ts:129-147 | an unknown live item is inserted as a clean row (or skipped on `null`), and no change record is written |
| Webhook.KnownDeletedRemoved | src/server/webhookHandler.ts:150-156 | a known item reported deleted removes exactly its row |
| Webhook.SameCTagNoWrite | src/server/webhookHandler.ts:158-163 | a known item with the same cTag causes no write |
| Webhook.NewCTagRecordsOneChange | src/server/webhookHandler.ts:165-187 | a known item with a new cTag appends one "updated" change with the stored and new content, and overwrites the row marked updated; `null` writes nothing |
| Webhook.ReplaceKeepsWellKeyedShape | src/server/webhookHandler.ts:183-187 | overwriting a row under its own item id is a plain map update |
| Webhook.EntryAppendsAtMostOneChange | src/server/webhookHandler.ts:176-181 | the change log grows by at most one record per item, always an "updated" record whose old content is the stored content |
| Webhook.EntryKeepsWellKeyed | src/server/webhookHandler.ts:117-188 | every file row stays keyed by its own item id after one item |
| Webhook.EntriesKeepWellKeyed | src/server/webhookHandler.ts:117-188 | the same holds through the whole item loop |
| Webhook.IngestKeepsWellKeyed | src/server/webhookHandler.ts:79-193 | the same holds through a whole drive transaction |
| Webhook.FailureStopsLaterDrives | src/server/webhookHandler.ts:78-194 | in both variants, transactions run in order; on a failure the store is what the earlier ones committed, the failing one is rolled back and no later one runs |
| Webhook.NonDocxFileFailsAsWritten | src/server/webhookHandler.ts:115-139 | as written: a new non-docx file in the delta fails the drive's transaction with the helper's wrong-type error |
| Webhook.EntriesNeverRejectType | src/server/webhookHandler.ts:117-188 | with the corrected filter, an item loop never fails on file type |
| Webhook.NeverRejectsType | src/server/webhookHandler.ts:115-139 | corrected: a drive's transaction never fails on file type |
| Webhook.NonDocxFileBlocksHandlerAsWritten | src/server/webhookHandler.ts:73-194 | as written: a notification whose drive's delta holds a new PDF is accepted, its ingestion fails with the wrong-type error, and the store, cursor included, is left as it was, so the next notification meets the same delta |
| Webhook.CorrectedHandlerNeverRejectsType | src/server/webhookHandler.ts:78-194 | corrected: no run of the ingestion loop ends on a file's type |
| Webhook.ApplyEntry | src/server/webhookHandler.ts:117-187 | in both variants, processing one item fails only with "No item id", one of the helper's three errors or a refused insert |
| Webhook.ApplyEntries | src/server/webhookHandler.ts:117-188 | the item loop fails only with those errors, and an empty loop leaves the store as it was |
| Webhook.IngestDriveWith | src/server/webhookHandler.ts:79-193 | one drive's transaction, for either filter (`KeepFor` picks the as-written or the corrected one): it fails only with "Drive not found", "Delta link not found" or an item's error |
| Webhook.IngestDrive | src/server/webhookHandler.ts:79-193 | in both variants, one drive's transaction fails only with "Drive not found", "Delta link not found" or an item's error, and a subscription whose drive row is missing fails with "Drive not found" |
| Webhook.IngestSubscriptions | src/server/webhookHandler.ts:78-194 | in both variants, the loop over matched subscriptions reports only those errors, and with no subscription it does nothing |
| Webhook.CommitAll | src/server/webhookHandler.ts:78-194 | in both variants, committing the matched subscriptions one after another fails only with those errors, and with no subscription it leaves the store as it was |
| Webhook.Handle | src/server/webhookHandler.ts:31-196 | in both variants, the handler answers 200, 202, 400, 401 or 404; it answers 200 exactly when a validation token is present; any answer other than 202 leaves the store untouched and reports no failure |
| Webhook.CommitStep | src/server/webhookHandler.ts:78-194 | committing the first subscription and then k more is the same as committing k+1 from the start |
| Db.FindDrive | src/server/webhookHandler.ts:82-92 | the drive found has the subscription's drive id and is stored; none found means no stored drive has that id |
| Db.SetDeltaLink | src/server/webhookHandler.ts:107-111 | the drive with that row id gets the new cursor; every other row is unchanged |
| Db.InsertFile | src/server/webhookHandler.ts:145 | the insert is refused with a unique violation on the item id exactly when that id is stored; otherwise the new row is stored under its item id and every other row is kept |
| Db.ReplaceFile | src/server/webhookHandler.ts:183-187 | the overwrite is refused with a unique violation only when the new item id is already held by another row; otherwise the row under the old key is replaced by the new row under its item id, and every other row is kept |
| Db.InsertKeepsWellKeyed | src/server/webhookHandler.ts:145 | an insert succeeds exactly when the item id is not yet stored, and keeps rows keyed by item id |
| Db.ReplaceKeepsWellKeyed | src/server/webhookHandler.ts:183-187 | an overwrite keeps rows keyed by item id, and under the same id it is a plain update |
| SharepointHelpers.EscapeSpaces | src/server/packages/sharepoint/helpers.ts:38 | escaping spaces never shortens the name |
| SharepointHelpers.SplitOn | src/server/packages/sharepoint/helpers.ts:39 | splitting always yields at least one segment |
| SharepointHelpers.SecondSegmentNonEmptyIff | src/server/packages/sharepoint/helpers.ts:39 | the second dot-segment exists and is non-empty exactly when the first dot is followed by a non-dot |
| SharepointHelpers.FirstSegmentEmptyIff | src/server/packages/sharepoint/helpers.ts:39 | the first dot-segment is empty exactly when the name starts with a dot |
| SharepointHelpers.EscapePreservesTypeSegment | src/server/packages/sharepoint/helpers.ts:38-39 | escaping spaces does not change whether a type segment exists |
| SharepointHelpers.FileTypePresentIff | src/server/packages/sharepoint/helpers.ts:37-41 | the file type is truthy exactly when the name's first dot is followed by a non-dot character |
| SharepointHelpers.FileType | src/server/packages/sharepoint/helpers.ts:37-41 | there is no file type when there is no name, or when the name holds no dot |
| SharepointHelpers.RejectsBeforeFetch | src/server/packages/sharepoint/helpers.ts:17-24 | a non-docx item or one without id is rejected with the wrong-type error, whatever the services answer |
| SharepointHelpers.DeletedYieldsNull | src/server/packages/sharepoint/helpers.ts:26-35 | a fetched item marked deleted yields `null`, not an error |
| SharepointHelpers.RecordIff | src/server/packages/sharepoint/helpers.ts:12-78 | a record is produced exactly when every check passes; it carries the fetched id, name, cTag, the drive's row id, the converted HTML and that HTML's embedding |
| SharepointHelpers.CreateNewDbSharepointFile | src/server/packages/sharepoint/helpers.ts:12-78 | as written (it has no known fault): the helper fails only with its three errors; success requires a Word document with an id; a record belongs to the drive and has a non-empty item id |
| SharepointHelpers.NoDotNoRecord | src/server/packages/sharepoint/helpers.ts:37-44 | a fetched name without a dot fails with the missing-properties error |
| SharepointHelpers.NoDotNoTypeSegment | src/server/packages/sharepoint/helpers.ts:39 | a string with no dot has no type segment |
| SharepointHelpers.TypeSegmentAfterFirstDot | src/server/packages/sharepoint/helpers.ts:39 | `a.b`, with no dot in `a` and `b` not starting with a dot, has a type segment |
| Query.SelectWhereKeyIn | src/server/api/routers/changes/procedures/runUpdate.ts:61-71 | the selected rows are exactly the table rows whose key is among the ids, none invented |
| Query.SelectDistributes | src/server/api/routers/changes/procedures/runUpdate.ts:61-71 | the selection keeps table order: selecting from two halves and joining equals selecting from the whole |
| Query.SelectWhereKeyInAsWritten | src/server/api/routers/changes/procedures/runUpdate.ts:61-71 | as written: with at least one id, exactly the rows whose key is among the ids; with none, the whole table |
| Query.Select | src/server/api/routers/changes/procedures/runUpdate.ts:61-71 | the lookup in either variant: both select exactly the rows with a listed key when ids are given; for no ids, as written returns every row and corrected returns none |
| Llm.StreamResponse | src/server/api/routers/changes/helpers/llm.ts:211-218 | the streaming loop's response is the left fold of the non-empty chunks, and the snapshots are the response after each non-empty chunk |
| Llm.StreamIsConcatenation | src/server/api/routers/changes/helpers/llm.ts:211-218 | the response is the in-order concatenation of the non-empty chunks; the k-th emitted diff is taken of the first k+1 chunks joined |
| Llm.EmptyIffNoContent | src/server/api/routers/changes/helpers/llm.ts:211-222 | the response is empty exactly when no chunk carried text |
| Llm.EventsV2 | src/server/api/routers/changes/helpers/llm.ts:213-217 | one newTokenV2 event per snapshot, carrying the change id, the candidate and the diff of its content against that snapshot |
| Llm.Events | src/server/api/routers/documents/helpers/llm.ts:95-99 | one newToken event per snapshot, carrying the candidate and the diff of its text against that snapshot |
| Llm.Decide | src/server/api/routers/changes/helpers/llm.ts:145-188 | as written, assuming the chat helpers noted under Left out: the model is asked at most twice, first with the history; a retry extends that history; the answer that counts is the reply to the last conversation sent. The chat model is asked with an attempt number, so the retry may be answered differently even when the conversation did not grow |
| Llm.DecideLegacy | src/server/api/routers/documents/helpers/llm.ts:55-70 | as written: the same for the older protocol, whose retry appends exactly the one reminder |
| Llm.CheckIfDocumentNeedsUpdate | src/server/api/routers/changes/helpers/llm.ts:116-228 | every verdict is about the candidate it was given, and the only error is "Failed to get response from OpenAI" |
| Llm.CheckIfDocumentNeedsUpdateLegacy | src/server/api/routers/documents/helpers/llm.ts:18-110 | the same for the older protocol |
| Llm.RetryIffMalformed | src/server/api/routers/changes/helpers/llm.ts:145-188 | the model is asked a second time exactly when the first answer has no call or an unknown call; there is never a third ask, and the last answer is final |
| Llm.RetryHistory | src/server/api/routers/changes/helpers/llm.ts:159-179 | before the retry, text without a call adds the text and the reminder; an unknown call adds the call and a message naming it; both add four messages; neither adds nothing |
| Llm.Corrections | src/server/api/routers/changes/helpers/llm.ts:159-179 | the messages added before a retry come in pairs, two or four of them, each pair closed by a system reminder; nothing is added exactly when the reply has neither truthy text nor a call |
| Llm.SilentReplyRetriedAsIs | src/server/api/routers/changes/helpers/llm.ts:145-188 | a first reply with neither text nor a call is retried with the very same conversation, and the retry's reply is final |
| Llm.SilentThenYes | src/server/api/routers/changes/helpers/llm.ts:145-188 | a retried request can be answered differently from the first: a silent first reply followed by `answer_yes` ends in a yes |
| Llm.LegacyRetryOnlyWithoutCall | src/server/api/routers/documents/helpers/llm.ts:55-70 | the older protocol retries exactly when no function was called, with one reminder appended |
| Llm.HallucinatedCallHandledDifferently | src/server/api/routers/changes/helpers/llm.ts:22-85 | an unknown first call is retried by the current protocol, while the deprecated one takes it as final and skips |
| Llm.SkippedUnlessYes | src/server/api/routers/changes/helpers/llm.ts:194-199 | the candidate is Skipped, with nothing generated or emitted, exactly when the final answer is not `answer_yes`; a malformed second answer skips |
| Llm.Verdict | src/server/api/routers/changes/helpers/llm.ts:194-227 | the verdict is about the given candidate; it is Skipped exactly when the answer is not yes; it fails exactly when the answer is yes and the streamed text is empty; otherwise it is Updated with that non-empty text |
| Llm.GeneratedAfterYes | src/server/api/routers/changes/helpers/llm.ts:201-227 | after a yes the rewrite prompt is sent once, one event per non-empty chunk carries the running diff, an empty stream is the error, and otherwise the verdict is Updated with the whole text |
| Llm.LegacyGeneratedAfterYes | src/server/api/routers/documents/helpers/llm.ts:76-109 | the same for the older protocol, with diffs against the document's text |
| Llm.FailsOnlyOnEmptyStream | src/server/api/routers/changes/helpers/llm.ts:194-222 | an evaluation fails exactly when the answer is yes and no chunk carries text |
| Llm.HelloWorldStream | src/server/api/routers/changes/helpers/llm.ts:211-227 | the stream "Hello", " world" emits two events, the last the diff against "Hello world", and the verdict is Updated with "Hello world" |
| Reconcile.SearchFor | src/server/packages/qdrant.ts:23-57 | the search asks for ten points near the vector, filtered to destination documents exactly when the flag is truthy |
| Reconcile.FindFile | src/server/api/routers/changes/procedures/runUpdate.ts:40-53 | the file found has the requested id and is stored; none found means no stored file has it |
| Reconcile.Collect | src/server/api/routers/changes/procedures/runUpdate.ts:80-95 | a failed collection reports the error of one failed evaluation |
| Reconcile.CollectAllOrNothing | src/server/api/routers/changes/procedures/runUpdate.ts:80-95 | the collection succeeds exactly when every evaluation did; then it lists exactly the rewritten candidates, each with the diff of its content against the rewrite |
| Reconcile.ClaimChange | src/server/api/routers/changes/procedures/runUpdate.ts:16-36 | a claim succeeds exactly when the change exists unprocessed, and then marks only it processed |
| Reconcile.ChangeClaimedOnce | src/server/api/routers/changes/procedures/runUpdate.ts:16-36 | in both variants, the claim is refused with the rollback's error exactly when the change is missing or processed; a success marks it processed and changes nothing else |
| Reconcile.SecondRunRefused | src/server/api/routers/changes/procedures/runUpdate.ts:16-36 | in both variants, right after a success the same change is refused with the rollback's error, with the tables unchanged |
| Reconcile.FailureRollsBack | src/server/api/routers/changes/procedures/runUpdate.ts:15-97 | in both variants, a call that fails after its claim succeeded leaves the change stored and unprocessed, so a later call can claim it again |
| Reconcile.MissingFileIsNotFound | src/server/api/routers/changes/procedures/runUpdate.ts:40-53 | in both variants, a claimed change whose file is gone is refused as "Document not found" and rolled back |
| Reconcile.ChangeCandidates | src/server/api/routers/changes/procedures/runUpdate.ts:61-71 | in both variants, when the search returned points the candidates are exactly the files it returned; as written, when it returned none, every file is a candidate |
| Reconcile.ChangesPipeline | src/server/api/routers/changes/procedures/runUpdate.ts:38-95 | in both variants: the search is for the file's embedding, ten points, destination-only iff the file id is non-empty; each candidate (as the previous row describes them) is evaluated against the change's diff; the answer is all-or-nothing and lists the rewritten ones |
| Reconcile.RunUpdateForChanges | src/server/api/routers/changes/procedures/runUpdate.ts:12-98 | in both variants, a failed call leaves the tables as they were, and a successful one required an unprocessed change and commits exactly its claim |
| Reconcile.EmptySearchAnswersNothing | src/server/api/routers/changes/procedures/runUpdate.ts:56-80 | corrected: a search with no hits runs no evaluation and answers an empty list |
| Reconcile.EmptySearchEvaluatesEveryFileAsWritten | src/server/api/routers/changes/procedures/runUpdate.ts:56-95 | as written: a search with no hits puts every stored file, in table order, to the model against the change's diff |
| Reconcile.ClaimDocument | src/server/api/routers/documents/procedures/runUpdateForDocuments.ts:16-31 | every row with the id that is marked updated is cleared, others are kept; a row is returned exactly when one matched, and it is such a row |
| Reconcile.DocumentClaimedOnce | src/server/api/routers/documents/procedures/runUpdateForDocuments.ts:16-31 | in both variants, the claim is refused with the rollback's error exactly when no row with the id is marked updated; a success only clears that mark; a failure rolls back; a second call after a success is refused |
| Reconcile.DocumentRunFailsOnlyInModel | src/server/api/routers/documents/procedures/runUpdateForDocuments.ts:13-69 | in both variants, once a document is claimed, the only error is the model's empty response, which rolls the claim back; a success commits exactly the cleared flags |
| Reconcile.DocumentCandidates | src/server/api/routers/documents/procedures/runUpdateForDocuments.ts:41-47 | in both variants, when the search returned points the candidates are exactly the documents it returned; as written, when it returned none, every document is a candidate |
| Reconcile.DocumentsPipeline | src/server/api/routers/documents/procedures/runUpdateForDocuments.ts:33-69 | in both variants: the search is always destination-only, ten points; each candidate (as the previous row describes them) is evaluated with the claimed text as base; the answer is all-or-nothing and lists the rewritten ones |
| Reconcile.RunUpdateForDocuments | src/server/api/routers/documents/procedures/runUpdateForDocuments.ts:12-71 | in both variants, a failed call leaves the tables as they were, and a successful one required a claimable row and commits exactly the cleared flags |
| Reconcile.EmptySearchEvaluatesEveryDocumentAsWritten | src/server/api/routers/documents/procedures/runUpdateForDocuments.ts:33-69 | as written, a search with no hits evaluates every document, the claimed one included; corrected, it evaluates none and answers an empty list |
| Reconcile.DocumentsPromptShowsUndefined | src/server/api/routers/documents/procedures/runUpdateForDocuments.ts:49-53 | with the base text passed as a document, both prompts show its title and text as `undefined` |
| DriveSync.DrivesToAdd | src/server/api/routers/sharepoint/procedures/updateSyncedSharepointSites.ts:47-53 | exactly the entries wanted synced whose drive id no stored drive has |
| DriveSync.DrivesToDelete | src/server/api/routers/sharepoint/procedures/updateSyncedSharepointSites.ts:54-60 | exactly the entries wanted unsynced whose drive id some stored drive has |
| DriveSync.SelectionPartitions | src/server/api/routers/sharepoint/procedures/updateSyncedSharepointSites.ts:47-60 | the two lists share no drive id; an entry already in its wanted state is in neither; any other entry is in exactly one |
| DriveSync.InsertDrives | src/server/api/routers/sharepoint/procedures/updateSyncedSharepointSites.ts:66-72 | rows are appended; afterwards every entry's pair is stored; the returned rows are new pairs built from entries; pairs stay unique |
| DriveSync.SetDeltaLinkWhere | src/server/api/routers/sharepoint/procedures/updateSyncedSharepointSites.ts:106-115 | the rows with the drive's (site, drive) pair get the cursor; others are unchanged |
| DriveSync.DocxItems | src/server/api/routers/sharepoint/procedures/updateSyncedSharepointSites.ts:117-122 | exactly the delta items that are Word documents; none when the page has no items |
| DriveSync.FilterDocx | src/server/api/routers/sharepoint/procedures/updateSyncedSharepointSites.ts:117-122 | exactly the items that are Word documents |
| DriveSync.IngestInitialErrors | src/server/api/routers/sharepoint/procedures/updateSyncedSharepointSites.ts:124-147 | the initial ingestion fails only with the helper's three errors or "Failed to insert file" |
| DriveSync.SubscriptionGuard | src/server/api/routers/sharepoint/procedures/updateSyncedSharepointSites.ts:76-82 | "Subscription not created" arises exactly when the subscription lacks an id or an expiry |
| DriveSync.CursorGuard | src/server/api/routers/sharepoint/procedures/updateSyncedSharepointSites.ts:84-115 | a full listing without a cursor fails with "No delta link"; on success the cursor is on the drive's pair, the subscription row is recorded for the drive, and no change is logged |
| DriveSync.NullRecordSkipped | src/server/api/routers/sharepoint/procedures/updateSyncedSharepointSites.ts:132-134 | a `null` record is skipped without touching the files |
| DriveSync.DuplicateRecordFails | src/server/api/routers/sharepoint/procedures/updateSyncedSharepointSites.ts:136-147 | a record whose item id is already stored fails with "Failed to insert file" |
| DriveSync.InsertNewFile | src/server/api/routers/sharepoint/procedures/updateSyncedSharepointSites.ts:136-147 | the insert fails with "Failed to insert file" exactly when the item id is already stored; otherwise the record is added under its item id, not marked updated, and every other row is kept |
| DriveSync.IngestInitial | src/server/api/routers/sharepoint/procedures/updateSyncedSharepointSites.ts:117-153 | a successful initial ingestion keeps every stored file id, and ingesting no items leaves the files as they were |
| DriveSync.IngestInitialOnlyAdds | src/server/api/routers/sharepoint/procedures/updateSyncedSharepointSites.ts:124-153 | a successful initial ingestion keeps stored rows as they were; every new row is keyed by its item id, belongs to the drive and is not marked updated |
| DriveSync.AddDrive | src/server/api/routers/sharepoint/procedures/updateSyncedSharepointSites.ts:74-154 | as written (no known fault): a successful addition appends exactly one subscription row, for the drive, and touches no change row |
| DriveSync.AddDrives | src/server/api/routers/sharepoint/procedures/updateSyncedSharepointSites.ts:74-154 | adding several drives appends one subscription row per drive and touches no change row |
| DriveSync.MatchedRows | src/server/api/routers/sharepoint/procedures/updateSyncedSharepointSites.ts:160-173 | exactly the stored drives whose (site, drive) pair some entry names |
| DriveSync.RowIds | src/server/api/routers/sharepoint/procedures/updateSyncedSharepointSites.ts:180-181 | the matched rows' ids, one per row, in order |
| DriveSync.KeepDrives | src/server/api/routers/sharepoint/procedures/updateSyncedSharepointSites.ts:208-217 | exactly the drive rows whose id is not being deleted remain |
| DriveSync.KeepSubscriptions | src/server/api/routers/sharepoint/procedures/updateSyncedSharepointSites.ts:191-201 | exactly the subscriptions whose drive is not being deleted remain |
| DriveSync.RowIdsMembership | src/server/api/routers/sharepoint/procedures/updateSyncedSharepointSites.ts:180-181 | an id is listed exactly when some matched row has it |
| DriveSync.RemoveDrivesExact | src/server/api/routers/sharepoint/procedures/updateSyncedSharepointSites.ts:158-218 | removal takes exactly the matched drives with their subscriptions and files; remaining files and the change log are unchanged |
| DriveSync.RemoveDrives | src/server/api/routers/sharepoint/procedures/updateSyncedSharepointSites.ts:158-218 | corrected: no remaining drive has a requested (site, drive) pair; the remaining drives, subscriptions and files were all stored before; the change log is untouched |
| DriveSync.DeleteRowsOf | src/server/api/routers/sharepoint/procedures/updateSyncedSharepointSites.ts:180-217 | deleting by the ids of some drive rows keeps exactly the drives, subscriptions and files that belong to none of those rows, with the kept files unchanged and the change log untouched |
| DriveSync.RemoveDrivesByPair | src/server/api/routers/sharepoint/procedures/updateSyncedSharepointSites.ts:158-218 | with unique row ids, a drive survives exactly when no entry names its pair |
| DriveSync.RemoveDrivesAsWrittenWipesAll | src/server/api/routers/sharepoint/procedures/updateSyncedSharepointSites.ts:175-217 | when no stored row matches the requested pairs, the deletion as written removes every drive, subscription and file, where the corrected one changes nothing |
| DriveSync.RemoveDrivesAsWritten | src/server/api/routers/sharepoint/procedures/updateSyncedSharepointSites.ts:158-218 | as written: when some row matched, the deletion equals the corrected one; when none matched, it empties the drive, subscription and file tables |
| DriveSync.KeepNothingIdentity | src/server/api/routers/sharepoint/procedures/updateSyncedSharepointSites.ts:208-217 | deleting no drive ids keeps every drive row |
| DriveSync.KeepNoSubscriptionIdentity | src/server/api/routers/sharepoint/procedures/updateSyncedSharepointSites.ts:191-201 | deleting no drive ids keeps every subscription |
| DriveSync.AgreeingRequestIsNoOp | src/server/api/routers/sharepoint/procedures/updateSyncedSharepointSites.ts:47-221 | in both variants, a request whose every entry already agrees with storage succeeds and changes nothing |
| DriveSync.UpdateSyncedSharepointSites | src/server/api/routers/sharepoint/procedures/updateSyncedSharepointSites.ts:28-222 | in both variants, only the add path can fail, so a request with nothing to add succeeds, and no change row is ever touched |
| DriveSync.UnmatchedOptOutWipesAsWritten | src/server/api/routers/sharepoint/procedures/updateSyncedSharepointSites.ts:47-221 | an opt-out for a stored drive id under a site id no stored row has: as written, the procedure succeeds with every drive, subscription and file deleted; corrected, it changes nothing |
| SiteListing.SyncedEntries | src/server/api/routers/sharepoint/procedures/getSharepointSites.ts:14-18 | one synced entry per stored drive, in storage order, carrying the row |
| SiteListing.DriveEntries | src/server/api/routers/sharepoint/procedures/getSharepointSites.ts:28-38 | exactly the site's drives that have an id and a name, as unsynced entries |
| SiteListing.SiteEntries | src/server/api/routers/sharepoint/procedures/getSharepointSites.ts:20-39 | exactly the drive entries of the sites that have an id and a name |
| SiteListing.Unsynced | src/server/api/routers/sharepoint/procedures/getSharepointSites.ts:41-50 | exactly the entries whose (site, drive) pair no stored drive has |
| SiteListing.GetSharepointSites | src/server/api/routers/sharepoint/procedures/getSharepointSites.ts:9-54 | as written (no known fault): the listing holds at least one entry per stored drive; its full shape is the next row |
| SiteListing.ListingShape | src/server/api/routers/sharepoint/procedures/getSharepointSites.ts:41-52 | the listing ends with every stored drive marked synced, in order; everything before is an unsynced entry with non-empty ids and names and an unstored pair |
| SiteListing.NoDuplicatePairs | src/server/api/routers/sharepoint/procedures/getSharepointSites.ts:41-52 | no (site, drive) pair is listed both unsynced and synced |
| SiteListing.ListingComplete | src/server/api/routers/sharepoint/procedures/getSharepointSites.ts:20-52 | every usable drive of every usable site is listed unsynced exactly when no stored drive has its pair |
| MergeTags.NextElement | src/pages/components/editor/utils/mergeConsecutiveHtmlTags.ts:8 | the next element sibling: an element position, with only text nodes skipped, or none |
| MergeTags.MergePartner | src/pages/components/editor/utils/mergeConsecutiveHtmlTags.ts:8-13 | the sibling compared is a later element; with `adjacentOnly` it is the very next node |
| MergeTags.MergeAt | src/pages/components/editor/utils/mergeConsecutiveHtmlTags.ts:15-23 | a merge removes one node and one element, puts both texts joined in the leaf, and keeps the text order when the two were adjacent; the merged element keeps the leaf's tag and attributes, and the removed sibling's attributes are lost |
| MergeTags.ProcessElem | src/pages/components/editor/utils/mergeConsecutiveHtmlTags.ts:1-37 | the walk keeps the root's tag and attributes, never adds elements, leaves a leaf alone, and keeps the text when merging only adjacent nodes |
| MergeTags.ProcessKids | src/pages/components/editor/utils/mergeConsecutiveHtmlTags.ts:28-36 | the sibling loop never adds elements, and keeps the text when merging only adjacent nodes |
| MergeTags.MergeConsecutiveTagsAsWritten | src/pages/components/editor/utils/mergeConsecutiveHtmlTags.ts:1-37 | as written: the merge keeps the root's tag and attributes, never adds elements and leaves a root without element children alone; it does not keep text order, see SpacedBoldReordered |
| MergeTags.MergeConsecutiveTags | src/pages/components/editor/utils/mergeConsecutiveHtmlTags.ts:1-37 | the corrected merge keeps the root's tag, its attributes and its text exactly, and never adds elements |
| MergeTags.RunCollapses | src/pages/components/editor/utils/mergeConsecutiveHtmlTags.ts:7-36 | a run of text-only siblings of one mergeable tag collapses into one element with the run's whole text |
| MergeTags.NothingToMergeUnchanged | src/pages/components/editor/utils/mergeConsecutiveHtmlTags.ts:26-36 | where no leaf can merge with the node right after it, the corrected walk changes nothing |
| MergeTags.SpacedBoldReordered | src/pages/components/editor/utils/mergeConsecutiveHtmlTags.ts:8-22 | as written, bold "a", a space and bold "b" become bold "ab" then the space, so "a b" reads "ab " |
| MergeTags.SpacedBoldFirstMerge | src/pages/components/editor/utils/mergeConsecutiveHtmlTags.ts:8-22 | in bold "a", space, bold "b", the first leaf is compared with the element past the space and merged with it |
| MergeTags.SpacedBoldKept | src/pages/components/editor/utils/mergeConsecutiveHtmlTags.ts:8-22 | the corrected merge leaves that tree unchanged |
| MergeTags.ClassedSpansLoseSecondClass | src/pages/components/editor/utils/mergeConsecutiveHtmlTags.ts:10-22 | in both variants, `<span class="a">x</span><span class="b">y</span>` becomes `<span class="a">xy</span>`: "y" takes the first span's class and class "b" is gone |
| ClientRetry.UnauthorizedShape | src/utils/api.ts:136-143 | the unauthorized test holds exactly for a non-null, non-function object whose `code` is "UNAUTHORIZED" |
| ClientRetry.IsUnauthorized | src/utils/api.ts:136-143 | undefined, null, a string or a function is never unauthorized |
| ClientRetry.HandleUnauthorized | src/utils/api.ts:120-134 | an error counts as unauthorized only in a browser, only for a tRPC client error, and only when its data is an object whose `code` is "UNAUTHORIZED" |
| ClientRetry.ShouldRetry | src/utils/api.ts:79-83 | a retry needs fewer than three failures; with fewer than three, an error outside a browser or one that is not a tRPC client error is always retried |
| ClientRetry.RetryIff | src/utils/api.ts:79-83 | a query is retried exactly when its error is not an unauthorized tRPC error seen in a browser and it has failed fewer than three times |
| ClientRetry.ServerRetriesByCount | src/utils/api.ts:120-122 | outside a browser nothing is unauthorized, and retrying depends on the count alone |
| ClientRetry.OtherErrorsNotUnauthorized | src/utils/api.ts:123-126 | an error that is not a tRPC client error is never unauthorized |
| ClientRetry.UnauthorizedNeverRetried | src/utils/api.ts:120-134 | an unauthorized tRPC error in a browser is never retried, whatever the count |
| ClientRetry.AtMostThreeRetries | src/utils/api.ts:79-83 | from a count of three on, nothing is retried |
| ClientRetry.RetriesGranted | src/utils/api.ts:79-83 | over successive failures, retrying stops at the first unauthorized error or when the count reaches three, whichever comes first |
| ClientRetry.RetriesFromZero | src/utils/api.ts:79-83 | counting from zero, errors that are never unauthorized get min(3, failures) retries, and an unauthorized first error gets none |

## Left out

- Network, file-system and process calls are uninterpreted function parameters. This covers Microsoft Graph (delta, item fetch, download, subscriptions), pandoc, the embedding and chat models, the vector search and `htmlDiff`. Each is a total function here: its answer is taken as given, and the errors it could throw (a failed request, a timeout) are not modelled.
- Side effects on remote services are not recorded and are not undone when a transaction rolls back. These are subscription creation and deletion, embedding uploads and deletions in the vector store, and the events sent to listeners. Under the wiping deletion of the findings, every file's embedding is also deleted from the vector store.
- `uploadEmbeddingToQdrant` is called with two arguments, so the stored point's document type is undefined. The vector store's contents are not modelled.
- The text of the four system prompts and the tool schemas are named symbolically (`Llm.Instruction`), not spelled out. The sampling temperatures and the streaming flag passed to the chat call are not modelled.
- Concurrency is not modelled. Webhook requests and reconciliation calls may interleave; here each call runs alone. `Promise.all` starts all evaluations at once; here they run in candidate order. A failed collection reports the first failed evaluation in that order, where the source reports whichever failure settles first.
- Reconcile.Collect: states only that the error belongs to some failed evaluation, not which one, because the source's choice depends on timing.
- The schema of the SharePoint tables is not part of this model. Uniqueness and cascading follow the assumptions stated above.
- The webhook responds 202 before ingesting. The model returns the response together with the store after ingestion, and does not model the client seeing the response early.
- A webhook subscription's `clientState` is compared with the secret as an optional string. The secret itself is a parameter.
- ClientRetry.RetriesGranted: assumes the query library passes 0, 1, 2, … as the failure count on successive failures. That convention belongs to the library, which is not part of this model.
- `failureCount` is a JavaScript number; the model takes it as an integer.
- MergeTags: when the root element is a leaf, the model leaves it alone. In the source, the root's next element sibling is consulted; for the document body there is none.
- Row order: the selects have no ORDER BY, so the database may return rows in any order. The model returns them in storage order. This applies to Query.SelectWhereKeyIn, Query.Select, Db.FindDrive, Reconcile.FindFile, DriveSync.MatchedRows and the synced entries of SiteListing.
- MergeTags: attribute values are plain strings; the DOM's attribute order and namespaces are not modelled.
- Logging (`console.log`) and the "done" message are not modelled.
- The `updatedAt: new Date()` the webhook writes when it overwrites a changed file is not modelled. The clock is not part of this model, and nothing in the core reads that column.
- The chat helpers the two `llm.ts` files need are not all in the `openAI.ts` shown. That file has no `addFunctionMessage` and no function role in `BaseMessage`. Its `createAnswer` takes three parameters and builds a non-streaming request. The callers pass a fourth argument `true` and read the reply with `for await`. The model assumes a helper that appends a function-role message and a `createAnswer` that streams when asked. The rows below depend on that assumption.
- Llm.Decide: assumes the function-role message exists. With the `openAI.ts` shown, the unknown-call branch would throw a TypeError when it builds the retry.
- Llm.RetryIffMalformed: the same assumption; with the `openAI.ts` shown, a first answer with an unknown call ends in a TypeError instead of a retry.
- Llm.RetryHistory: the same assumption; the four messages added after an unknown call cannot be built with the `openAI.ts` shown.
- Llm.HallucinatedCallHandledDifferently: the same assumption; with the `openAI.ts` shown, the current protocol throws on the unknown call where the model retries.
- Llm.StreamResponse: assumes `createAnswer` returns a stream. With the `openAI.ts` shown, the reply is a completed response, which is not async-iterable, so the loop would throw.
- Llm.CheckIfDocumentNeedsUpdate: both assumptions above; the TypeError and the failed iteration are not among its errors.
- Llm.CheckIfDocumentNeedsUpdateLegacy: assumes the streaming `createAnswer`; the failed iteration is not among its errors.
- Llm.GeneratedAfterYes: describes the streamed rewrite, so it assumes the streaming `createAnswer`.
- Llm.LegacyGeneratedAfterYes: describes the streamed rewrite, so it assumes the streaming `createAnswer`.
- Llm.FailsOnlyOnEmptyStream: describes the streamed rewrite, so it assumes the streaming `createAnswer`.
- Llm.HelloWorldStream: describes the streamed rewrite, so it assumes the streaming `createAnswer`.
- Llm.StreamIsConcatenation: describes the streamed rewrite, so it assumes the streaming `createAnswer`.
- Llm.EmptyIffNoContent: describes the streamed rewrite, so it assumes the streaming `createAnswer`.

## Findings

| source | as written | input that shows it | evidently intended | confidence | as-written member | corrected member |
|---|---|---|---|---|---|---|
| src/server/webhookHandler.ts:115 | the delta is filtered only on the file facet, so a new non-docx file reaches the helper, which throws; the drive's transaction rolls back, its cursor does not move, and every later notification fails the same way | a delta whose only item is a new PDF with an id | keep Word documents and deletion notices only, as the initial ingestion does | not executed | Webhook.NonDocxFileBlocksHandlerAsWritten | Webhook.CorrectedHandlerNeverRejectsType |
| src/server/api/routers/sharepoint/procedures/updateSyncedSharepointSites.ts:175-217 | `or()` over an empty list is no condition, so when no stored row matches the requested (site, drive) pairs the deletes have no WHERE clause and remove every subscription and drive (and by cascade every file) | a request marking unsynced a stored drive id under a different site id | delete nothing when no row matched | not executed | DriveSync.UnmatchedOptOutWipesAsWritten | DriveSync.RemoveDrivesExact |
| src/server/api/routers/changes/procedures/runUpdate.ts:61-71 | the same empty `or()`: a vector search with no hits selects every file as a candidate, and an empty notification batch selects every subscription | a search returning no points | select no rows for an empty id list | not executed | Reconcile.EmptySearchEvaluatesEveryFileAsWritten | Reconcile.EmptySearchAnswersNothing |
| src/pages/components/editor/utils/mergeConsecutiveHtmlTags.ts:8 | `nextElementSibling` skips text nodes, so a leaf is merged with a later element across text, and the text in between ends up after the merged element | bold "a", a space, bold "b" | merge only with the immediately following node | not executed | MergeTags.SpacedBoldReordered | MergeTags.SpacedBoldKept |
