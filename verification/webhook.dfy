/** The POST `/webhook` handler: validation of a change notification batch, then one delta
    ingestion transaction per matched subscription's drive. */
module Webhook {
  import opened Wrappers
  import opened Graph
  import opened SharepointHelpers
  import opened Db
  import Query

  datatype Notification = Notification(subscriptionId: Option<string>, clientState: Option<string>)
  datatype Request = Request(validationToken: Option<string>, value: seq<Notification>)
  datatype HttpResponse = HttpResponse(status: int, body: string)

  const Unauthorized: HttpResponse := HttpResponse(401, "Unauthorized")
  const BadRequest: HttpResponse := HttpResponse(400, "Bad request")
  const NotFound: HttpResponse := HttpResponse(404, "Subscription not found")
  const Accepted: HttpResponse := HttpResponse(202, "Accepted")

  const DriveNotFoundMessage: string := "Drive not found"
  const DeltaLinkNotFoundMessage: string := "Delta link not found"
  const NoItemIdMessage: string := "No item id"
  const UpdatedChangeType: string := "updated"

  // ---------------------------------------------------------------------------
  // Validation

  predicate GoodState(n: Notification, secret: string) {
    n.clientState == Some(secret)
  }

  predicate EntryOk(n: Notification, secret: string) {
    GoodState(n, secret) && Truthy(n.subscriptionId)
  }

  /** The validation loop: the first entry with a wrong clientState answers 401, the first with
      a missing subscriptionId answers 400; `None` lets the request through. */
  function CheckEntries(entries: seq<Notification>, secret: string): (r: Option<HttpResponse>)
    ensures r.Some? ==> r.value == Unauthorized || r.value == BadRequest
  {
    if |entries| == 0 then None
    else if !GoodState(entries[0], secret) then Some(Unauthorized)
    else if !Truthy(entries[0].subscriptionId) then Some(BadRequest)
    else CheckEntries(entries[1..], secret)
  }

  /** The position of the first entry with a wrong clientState or a missing subscriptionId, or
      the length of the batch when every entry is fine. */
  function FirstFault(entries: seq<Notification>, secret: string): (k: nat)
    ensures k <= |entries|
    ensures forall j :: 0 <= j < k ==> EntryOk(entries[j], secret)
    ensures k < |entries| ==> !EntryOk(entries[k], secret)
  {
    if |entries| == 0 || !EntryOk(entries[0], secret) then 0
    else 1 + FirstFault(entries[1..], secret)
  }

  /** The entries are examined in order, clientState before subscriptionId: the first faulty
      entry decides the answer, 401 for a wrong clientState and 400 for a missing id, and a
      batch without a faulty entry is let through. */
  lemma {:induction false} CheckEntriesFirstFault(entries: seq<Notification>, secret: string)
    ensures var k := FirstFault(entries, secret);
            CheckEntries(entries, secret)
              == if k == |entries| then None
                 else if !GoodState(entries[k], secret) then Some(Unauthorized)
                 else Some(BadRequest)
  {
    if |entries| > 0 && EntryOk(entries[0], secret) {
      CheckEntriesFirstFault(entries[1..], secret);
    }
  }

  /** The subscription ids of a validated batch, one per notification in batch order. */
  function SubscriptionIds(entries: seq<Notification>): (r: seq<string>)
    ensures |r| == |entries|
    ensures forall i :: 0 <= i < |entries| ==> r[i] == entries[i].subscriptionId.GetOr("")
  {
    if |entries| == 0 then []
    else [entries[0].subscriptionId.GetOr("")] + SubscriptionIds(entries[1..])
  }

  /** The stored subscriptions the lookup selects for the batch. */
  function MatchingSubscriptions(v: Variant, stored: seq<SubscriptionRow>, entries: seq<Notification>): (r: seq<SubscriptionRow>)
    ensures forall s :: s in r ==> s in stored
    ensures v.Corrected? && |entries| == 0 ==> r == []
    ensures v.AsWritten? && |entries| == 0 ==> r == stored
  {
    Query.Select(v, stored, (s: SubscriptionRow) => s.id, SubscriptionIds(entries))
  }

  // ---------------------------------------------------------------------------
  // Ingestion of one drive

  /** A stored cursor selects an incremental fetch; without one the whole drive is listed. */
  function DeltaRequestFor(drive: Drive): (r: DeltaRequest)
    ensures r.Incremental? <==> Truthy(drive.deltaLink)
    ensures r.Incremental? ==> r.deltaLink == drive.deltaLink.value
    ensures r.Full? ==> r.siteId == drive.siteId && r.driveId == drive.driveId
  {
    if Truthy(drive.deltaLink) then Incremental(drive.deltaLink.value) else Full(drive.siteId, drive.driveId)
  }

  /** The delta items kept for processing, in delta order. */
  function FilterItems(keep: DriveItem -> bool, items: seq<DriveItem>): (r: seq<DriveItem>)
    ensures |r| <= |items|
    ensures forall x :: x in r <==> x in items && keep(x)
  {
    if |items| == 0 then []
    else (if keep(items[0]) then [items[0]] else []) + FilterItems(keep, items[1..])
  }

  /** One delta item applied to the store: skip, insert, delete, or record an update. */
  function ApplyEntry(store: Store, drive: Drive, item: DriveItem, svc: Services): (r: Result<Store>)
    ensures r.Err? ==> PassError(r.error)
  {
    if !Truthy(item.id) then Err(Thrown(NoItemIdMessage))
    else
      var itemId := item.id.value;
      if itemId !in store.files then
        if IsDeleted(item) then Ok(store)
        else
          var created :- CreateNewDbSharepointFile(svc, drive, item);
          if created.None? then Ok(store)
          else
            var files :- InsertFile(store.files, FileRow(created.value, false));
            Ok(store.(files := files))
      else
        var dbFile := store.files[itemId];
        if IsDeleted(item) then Ok(store.(files := store.files - {itemId}))
        else if item.cTag == Some(dbFile.record.cTag) then Ok(store)
        else
          var created :- CreateNewDbSharepointFile(svc, drive, item);
          if created.None? then Ok(store)
          else
            var change := ChangeRecord(UpdatedChangeType, itemId, dbFile.record.content, created.value.content);
            var files :- ReplaceFile(store.files, itemId, FileRow(created.value, true));
            Ok(store.(changes := store.changes + [change], files := files))
  }

  /** The errors an item can raise: no id, one of the helper's three, or a refused write. */
  predicate PassError(e: Error) {
    e in {Thrown(NoItemIdMessage), Thrown(WrongTypeMessage), Thrown(MissingPropertiesMessage), Thrown(NoDownloadUrlMessage)}
    || e.UniqueViolation?
  }

  /** The entries in order; the first error ends the pass. */
  function ApplyEntries(store: Store, drive: Drive, items: seq<DriveItem>, svc: Services): (r: Result<Store>)
    ensures r.Err? ==> PassError(r.error)
    ensures |items| == 0 ==> r == Ok(store)
    decreases |items|
  {
    if |items| == 0 then Ok(store)
    else
      var next :- ApplyEntry(store, drive, items[0], svc);
      ApplyEntries(next, drive, items[1..], svc)
  }

  /** The body of one ingestion transaction, given which delta items it processes. */
  function IngestDriveWith(keep: DriveItem -> bool, store: Store, sub: SubscriptionRow, svc: Services): (r: Result<Store>)
    ensures r.Err? ==> r.error in {Thrown(DriveNotFoundMessage), Thrown(DeltaLinkNotFoundMessage)} || PassError(r.error)
  {
    var found := FindDrive(store.drives, sub.dbDriveId);
    if found.None? then Err(Thrown(DriveNotFoundMessage))
    else
      var drive := found.value;
      var page := svc.delta(DeltaRequestFor(drive));
      if !Truthy(page.deltaLink) then Err(Thrown(DeltaLinkNotFoundMessage))
      else
        var moved := store.(drives := SetDeltaLink(store.drives, drive.id, page.deltaLink.value));
        ApplyEntries(moved, drive, FilterItems(keep, page.value.GetOr([])), svc)
  }

  /** The items the source processes: anything with a file facet. */
  predicate KeepAsWritten(item: DriveItem) {
    HasFileFacet(item)
  }

  /** The items the helper can take: files that are Word documents, plus deletion notices,
      which never reach the helper. */
  predicate Keep(item: DriveItem) {
    HasFileFacet(item) && (IsDocx(item) || IsDeleted(item))
  }

  function KeepFor(v: Variant): DriveItem -> bool {
    if v.AsWritten? then KeepAsWritten else Keep
  }

  /** One drive's ingestion transaction in the given variant. */
  function IngestDrive(v: Variant, store: Store, sub: SubscriptionRow, svc: Services): (r: Result<Store>)
    ensures r.Err? ==> r.error in {Thrown(DriveNotFoundMessage), Thrown(DeltaLinkNotFoundMessage)} || PassError(r.error)
    ensures FindDrive(store.drives, sub.dbDriveId).None? ==> r == Err(Thrown(DriveNotFoundMessage))
  {
    IngestDriveWith(KeepFor(v), store, sub, svc)
  }

  /** One transaction per subscription, in order. A failed transaction leaves the store as it
      was, and its error is re-thrown, so the remaining subscriptions are not processed. */
  function IngestSubscriptions(v: Variant, store: Store, subs: seq<SubscriptionRow>, svc: Services): (r: (Store, Option<Error>))
    ensures r.1.Some? ==> r.1.value in {Thrown(DriveNotFoundMessage), Thrown(DeltaLinkNotFoundMessage)} || PassError(r.1.value)
    ensures |subs| == 0 ==> r == (store, None)
    decreases |subs|
  {
    if |subs| == 0 then (store, None)
    else
      match IngestDrive(v, store, subs[0], svc)
      case Err(e) => (store, Some(e))
      case Ok(next) => IngestSubscriptions(v, next, subs[1..], svc)
  }

  // ---------------------------------------------------------------------------
  // The handler

  /** What the handler sends, the store once its ingestion work is over, and the error that
      ended that work early, if any. */
  datatype Outcome = Outcome(response: HttpResponse, store: Store, failure: Option<Error>)

  /** The handler: only a 202 runs any ingestion, and every other answer leaves the store as
      it was. */
  function Handle(v: Variant, req: Request, secret: string, store: Store, svc: Services): (o: Outcome)
    ensures o.response.status in {200, 202, 400, 401, 404}
    ensures o.response.status == 200 <==> Truthy(req.validationToken)
    ensures o.response != Accepted ==> o.store == store && o.failure.None?
  {
    if Truthy(req.validationToken) then Outcome(HttpResponse(200, req.validationToken.value), store, None)
    else
      var rejected := CheckEntries(req.value, secret);
      if rejected.Some? then Outcome(rejected.value, store, None)
      else
        var matched := MatchingSubscriptions(v, store.subscriptions, req.value);
        if |matched| == 0 then Outcome(NotFound, store, None)
        else
          var (after, failure) := IngestSubscriptions(v, store, matched, svc);
          Outcome(Accepted, after, failure)
  }

  // ---------------------------------------------------------------------------
  // Properties of the handler

  /** A validation handshake is answered 200 with the token and nothing else happens. */
  lemma ValidationEchoesToken(v: Variant, req: Request, secret: string, store: Store, svc: Services)
    requires Truthy(req.validationToken)
    ensures Handle(v, req, secret, store, svc) == Outcome(HttpResponse(200, req.validationToken.value), store, None)
  {
  }

  /** A batch with a faulty entry is refused with 401 or 400 and nothing is ingested. */
  lemma FaultyBatchRefused(v: Variant, req: Request, secret: string, store: Store, svc: Services, i: int)
    requires !Truthy(req.validationToken)
    requires 0 <= i < |req.value| && !EntryOk(req.value[i], secret)
    ensures var o := Handle(v, req, secret, store, svc);
            o.response in {Unauthorized, BadRequest} && o.store == store && o.failure.None?
  {
    FaultyEntryRejected(req.value, secret, i);
  }

  lemma {:induction false} FaultyEntryRejected(entries: seq<Notification>, secret: string, i: int)
    requires 0 <= i < |entries| && !EntryOk(entries[i], secret)
    ensures CheckEntries(entries, secret).Some?
  {
    if EntryOk(entries[0], secret) {
      assert entries[1..][i - 1] == entries[i];
      FaultyEntryRejected(entries[1..], secret, i - 1);
    }
  }

  /** The notification names the stored subscription. */
  predicate Names(n: Notification, s: SubscriptionRow) {
    n.subscriptionId == Some(s.id)
  }

  /** A valid batch is answered 404 with nothing ingested exactly when the lookup selects no
      subscription, and otherwise 202 with the ingestion run over the selected ones. For a
      non-empty batch, in either variant, the selected subscriptions are exactly the stored ones
      some notification names, so 404 means no notification names a stored subscription. */
  lemma AcceptedIffSubscriptionMatches(v: Variant, req: Request, secret: string, store: Store, svc: Services)
    requires !Truthy(req.validationToken)
    requires forall i :: 0 <= i < |req.value| ==> EntryOk(req.value[i], secret)
    ensures var o := Handle(v, req, secret, store, svc);
            var matched := MatchingSubscriptions(v, store.subscriptions, req.value);
            && (o.response == NotFound <==> |matched| == 0)
            && (o.response == NotFound ==> o.store == store)
            && (o.response != NotFound ==>
                  o.response == Accepted && (o.store, o.failure) == IngestSubscriptions(v, store, matched, svc))
    ensures |req.value| > 0 ==>
              forall s :: s in MatchingSubscriptions(v, store.subscriptions, req.value) <==>
                s in store.subscriptions && exists i :: 0 <= i < |req.value| && Names(req.value[i], s)
    ensures |req.value| > 0 ==>
              (|MatchingSubscriptions(v, store.subscriptions, req.value)| == 0 <==>
                 forall s, i :: s in store.subscriptions && 0 <= i < |req.value| ==> !Names(req.value[i], s))
  {
    CheckEntriesFirstFault(req.value, secret);
    var ids := SubscriptionIds(req.value);
    forall s: SubscriptionRow
      ensures s.id in ids <==> exists i :: 0 <= i < |req.value| && Names(req.value[i], s)
    {
      if s.id in ids {
        var i :| 0 <= i < |ids| && ids[i] == s.id;
        assert EntryOk(req.value[i], secret);
        assert Names(req.value[i], s);
      }
      if i :| 0 <= i < |req.value| && Names(req.value[i], s) {
        assert ids[i] == s.id;
      }
    }
    var matched := MatchingSubscriptions(v, store.subscriptions, req.value);
    if |req.value| > 0 && |matched| > 0 {
      assert matched[0] in matched;
    }
  }

  /** With the intended lookup a batch naming nothing finds no subscription and is answered 404. */
  lemma EmptyBatchNotFound(secret: string, store: Store, svc: Services)
    ensures Handle(Corrected, Request(None, []), secret, store, svc) == Outcome(NotFound, store, None)
  {
  }

  /** As written, a valid batch with no notification selects every stored subscription: when
      any exists it is answered 202 and every drive is ingested again. */
  lemma EmptyBatchMatchesAllAsWritten(secret: string, store: Store, svc: Services)
    requires |store.subscriptions| > 0
    ensures var (after, failure) := IngestSubscriptions(AsWritten, store, store.subscriptions, svc);
            Handle(AsWritten, Request(None, []), secret, store, svc) == Outcome(Accepted, after, failure)
  {
  }

  // ---------------------------------------------------------------------------
  // Properties of one drive pass

  /** The transaction fails without a drive row or without a new cursor; otherwise the drive's
      cursor is the new one, requested incrementally exactly when a cursor was stored. */
  lemma CursorAdvancesOnlyWithNewLink(keep: DriveItem -> bool, store: Store, sub: SubscriptionRow, svc: Services)
    ensures FindDrive(store.drives, sub.dbDriveId).None? ==>
              IngestDriveWith(keep, store, sub, svc) == Err(Thrown(DriveNotFoundMessage))
    ensures FindDrive(store.drives, sub.dbDriveId).Some? ==>
              var drive := FindDrive(store.drives, sub.dbDriveId).value;
              var page := svc.delta(DeltaRequestFor(drive));
              && (!Truthy(page.deltaLink) ==> IngestDriveWith(keep, store, sub, svc) == Err(Thrown(DeltaLinkNotFoundMessage)))
              && (IngestDriveWith(keep, store, sub, svc).Ok? ==>
                    Truthy(page.deltaLink)
                    && IngestDriveWith(keep, store, sub, svc).value.drives == SetDeltaLink(store.drives, drive.id, page.deltaLink.value))
  {
    var found := FindDrive(store.drives, sub.dbDriveId);
    if found.Some? {
      var drive := found.value;
      var page := svc.delta(DeltaRequestFor(drive));
      if Truthy(page.deltaLink) {
        var moved := store.(drives := SetDeltaLink(store.drives, drive.id, page.deltaLink.value));
        EntriesKeepDrives(moved, drive, FilterItems(keep, page.value.GetOr([])), svc);
      }
    }
  }

  lemma EntryKeepsDrives(store: Store, drive: Drive, item: DriveItem, svc: Services)
    ensures ApplyEntry(store, drive, item, svc).Ok? ==>
              ApplyEntry(store, drive, item, svc).value.drives == store.drives
              && ApplyEntry(store, drive, item, svc).value.subscriptions == store.subscriptions
  {
  }

  lemma {:induction false} EntriesKeepDrives(store: Store, drive: Drive, items: seq<DriveItem>, svc: Services)
    ensures ApplyEntries(store, drive, items, svc).Ok? ==>
              ApplyEntries(store, drive, items, svc).value.drives == store.drives
              && ApplyEntries(store, drive, items, svc).value.subscriptions == store.subscriptions
    decreases |items|
  {
    if |items| > 0 {
      EntryKeepsDrives(store, drive, items[0], svc);
      var next := ApplyEntry(store, drive, items[0], svc);
      if next.Ok? {
        EntriesKeepDrives(next.value, drive, items[1..], svc);
      }
    }
  }

  /** A delta item without an id fails the pass. */
  lemma ItemWithoutIdFails(store: Store, drive: Drive, item: DriveItem, svc: Services)
    requires !Truthy(item.id)
    ensures ApplyEntry(store, drive, item, svc) == Err(Thrown(NoItemIdMessage))
  {
  }

  /** An unknown item that is already deleted is skipped with no write. */
  lemma UnknownDeletedSkipped(store: Store, drive: Drive, item: DriveItem, svc: Services)
    requires Truthy(item.id) && item.id.value !in store.files && IsDeleted(item)
    ensures ApplyEntry(store, drive, item, svc) == Ok(store)
  {
  }

  /** An unknown live item is inserted as a clean row, and no change record is written. */
  lemma UnknownInsertedWithoutChange(store: Store, drive: Drive, item: DriveItem, svc: Services)
    requires Truthy(item.id) && item.id.value !in store.files && !IsDeleted(item)
    requires CreateNewDbSharepointFile(svc, drive, item).Ok?
    ensures var created := CreateNewDbSharepointFile(svc, drive, item).value;
            var r := ApplyEntry(store, drive, item, svc);
            && (created.None? ==> r == Ok(store))
            && (created.Some? && created.value.itemId !in store.files ==>
                  r == Ok(store.(files := store.files[created.value.itemId := FileRow(created.value, false)])))
            && (r.Ok? ==> r.value.changes == store.changes)
  {
  }

  /** A known item reported deleted removes exactly its row. */
  lemma KnownDeletedRemoved(store: Store, drive: Drive, item: DriveItem, svc: Services)
    requires Truthy(item.id) && item.id.value in store.files && IsDeleted(item)
    ensures ApplyEntry(store, drive, item, svc) == Ok(store.(files := store.files - {item.id.value}))
  {
  }

  /** A known item whose cTag has not changed causes no write at all. */
  lemma SameCTagNoWrite(store: Store, drive: Drive, item: DriveItem, svc: Services)
    requires Truthy(item.id) && item.id.value in store.files && !IsDeleted(item)
    requires item.cTag == Some(store.files[item.id.value].record.cTag)
    ensures ApplyEntry(store, drive, item, svc) == Ok(store)
  {
  }

  /** A known item with a new cTag writes exactly one "updated" change carrying the stored and
      the new content, and overwrites the row marked updated; a `null` from the helper writes
      nothing. */
  lemma NewCTagRecordsOneChange(store: Store, drive: Drive, item: DriveItem, svc: Services)
    requires Truthy(item.id) && item.id.value in store.files && !IsDeleted(item)
    requires item.cTag != Some(store.files[item.id.value].record.cTag)
    requires CreateNewDbSharepointFile(svc, drive, item).Ok?
    ensures var key := item.id.value;
            var prior := store.files[key];
            var created := CreateNewDbSharepointFile(svc, drive, item).value;
            var r := ApplyEntry(store, drive, item, svc);
            && (created.None? ==> r == Ok(store))
            && (created.Some? && created.value.itemId == key ==>
                  r == Ok(store.(changes := store.changes + [ChangeRecord("updated", key, prior.record.content, created.value.content)],
                                 files := store.files[key := FileRow(created.value, true)])))
  {
    var created := CreateNewDbSharepointFile(svc, drive, item).value;
    if created.Some? && created.value.itemId == item.id.value {
      ReplaceKeepsWellKeyedShape(store.files, item.id.value, FileRow(created.value, true));
    }
  }

  lemma ReplaceKeepsWellKeyedShape(files: map<string, FileRow>, key: string, row: FileRow)
    requires key in files && row.record.itemId == key
    ensures ReplaceFile(files, key, row) == Ok(files[key := row])
  {
    assert (files - {key})[key := row] == files[key := row];
  }

  /** The change log only grows, by at most one record per entry, and every record written is an
      "updated" one whose old content is what the store held for that item. */
  lemma EntryAppendsAtMostOneChange(store: Store, drive: Drive, item: DriveItem, svc: Services)
    ensures var r := ApplyEntry(store, drive, item, svc);
            r.Ok? ==>
              && (r.value.changes == store.changes
                  || (&& |r.value.changes| == |store.changes| + 1
                      && r.value.changes[..|store.changes|] == store.changes
                      && var c := r.value.changes[|store.changes|];
                         c.changeType == "updated" && c.itemId in store.files
                         && c.oldContent == store.files[c.itemId].record.content))
  {
    var r := ApplyEntry(store, drive, item, svc);
    if r.Ok? && r.value.changes != store.changes {
      assert r.value.changes[..|store.changes|] == store.changes;
    }
  }

  /** Every row stays under its own item id through a whole pass. */
  lemma EntryKeepsWellKeyed(store: Store, drive: Drive, item: DriveItem, svc: Services)
    requires WellKeyed(store.files)
    ensures ApplyEntry(store, drive, item, svc).Ok? ==> WellKeyed(ApplyEntry(store, drive, item, svc).value.files)
  {
    if Truthy(item.id) && !IsDeleted(item) {
      var created := CreateNewDbSharepointFile(svc, drive, item);
      if created.Ok? && created.value.Some? {
        if item.id.value !in store.files {
          InsertKeepsWellKeyed(store.files, FileRow(created.value.value, false));
        } else {
          ReplaceKeepsWellKeyed(store.files, item.id.value, FileRow(created.value.value, true));
        }
      }
    }
  }

  lemma {:induction false} IngestKeepsWellKeyed(keep: DriveItem -> bool, store: Store, sub: SubscriptionRow, svc: Services)
    requires WellKeyed(store.files)
    ensures IngestDriveWith(keep, store, sub, svc).Ok? ==> WellKeyed(IngestDriveWith(keep, store, sub, svc).value.files)
  {
    var found := FindDrive(store.drives, sub.dbDriveId);
    if found.Some? {
      var page := svc.delta(DeltaRequestFor(found.value));
      if Truthy(page.deltaLink) {
        var moved := store.(drives := SetDeltaLink(store.drives, found.value.id, page.deltaLink.value));
        EntriesKeepWellKeyed(moved, found.value, FilterItems(keep, page.value.GetOr([])), svc);
      }
    }
  }

  lemma {:induction false} EntriesKeepWellKeyed(store: Store, drive: Drive, items: seq<DriveItem>, svc: Services)
    requires WellKeyed(store.files)
    ensures ApplyEntries(store, drive, items, svc).Ok? ==> WellKeyed(ApplyEntries(store, drive, items, svc).value.files)
    decreases |items|
  {
    if |items| > 0 {
      EntryKeepsWellKeyed(store, drive, items[0], svc);
      var next := ApplyEntry(store, drive, items[0], svc);
      if next.Ok? {
        EntriesKeepWellKeyed(next.value, drive, items[1..], svc);
      }
    }
  }

  /** The subscriptions run one after another: if one fails, the store is the one committed by
      the subscriptions before it and none after it is attempted; otherwise every one committed. */
  lemma {:induction false} FailureStopsLaterDrives(v: Variant, store: Store, subs: seq<SubscriptionRow>, svc: Services)
    ensures IngestSubscriptions(v, store, subs, svc).1.Some? ==>
              exists k :: 0 <= k < |subs| && CommitAll(v, store, subs[..k], svc) == Ok(IngestSubscriptions(v, store, subs, svc).0)
                          && IngestDrive(v, IngestSubscriptions(v, store, subs, svc).0, subs[k], svc)
                             == Err(IngestSubscriptions(v, store, subs, svc).1.value)
    ensures IngestSubscriptions(v, store, subs, svc).1.None? ==>
              CommitAll(v, store, subs, svc) == Ok(IngestSubscriptions(v, store, subs, svc).0)
    decreases |subs|
  {
    if |subs| > 0 {
      var first := IngestDrive(v, store, subs[0], svc);
      if first.Err? {
        assert CommitAll(v, store, subs[..0], svc) == Ok(store) by {
          assert subs[..0] == [];
        }
      } else {
        var next := first.value;
        FailureStopsLaterDrives(v, next, subs[1..], svc);
        var rest := IngestSubscriptions(v, next, subs[1..], svc);
        if rest.1.Some? {
          var k :| 0 <= k < |subs[1..]| && CommitAll(v, next, subs[1..][..k], svc) == Ok(rest.0)
                   && IngestDrive(v, rest.0, subs[1..][k], svc) == Err(rest.1.value);
          CommitStep(v, store, subs, svc, k);
          assert subs[k + 1] == subs[1..][k];
        }
      }
    }
  }

  /** Committing the first subscription and then k more is committing k+1 from the start. */
  lemma CommitStep(v: Variant, store: Store, subs: seq<SubscriptionRow>, svc: Services, k: nat)
    requires k < |subs| && IngestDrive(v, store, subs[0], svc).Ok?
    ensures CommitAll(v, store, subs[..k + 1], svc) == CommitAll(v, IngestDrive(v, store, subs[0], svc).value, subs[1..][..k], svc)
  {
    assert subs[..k + 1][1..] == subs[1..][..k];
    assert subs[..k + 1][0] == subs[0];
  }

  /** Every subscription of the list committed, in order. */
  function CommitAll(v: Variant, store: Store, subs: seq<SubscriptionRow>, svc: Services): (r: Result<Store>)
    ensures r.Err? ==> r.error in {Thrown(DriveNotFoundMessage), Thrown(DeltaLinkNotFoundMessage)} || PassError(r.error)
    ensures |subs| == 0 ==> r == Ok(store)
    decreases |subs|
  {
    if |subs| == 0 then Ok(store)
    else
      var next :- IngestDrive(v, store, subs[0], svc);
      CommitAll(v, next, subs[1..], svc)
  }

  // ---------------------------------------------------------------------------
  // The file-type filter

  /** A new file of another type (a PDF, say) in the delta makes the source's pass fail, on
      every retry from the same cursor. */
  lemma NonDocxFileFailsAsWritten(store: Store, sub: SubscriptionRow, svc: Services, pdf: DriveItem)
    requires FindDrive(store.drives, sub.dbDriveId).Some?
    requires var page := svc.delta(DeltaRequestFor(FindDrive(store.drives, sub.dbDriveId).value));
             Truthy(page.deltaLink) && page.value == Some([pdf])
    requires Truthy(pdf.id) && pdf.id.value !in store.files && !IsDeleted(pdf)
    requires pdf.file == Some(FileFacet(Some("application/pdf")))
    ensures IngestDrive(AsWritten, store, sub, svc) == Err(Thrown(WrongTypeMessage))
  {
    var drive := FindDrive(store.drives, sub.dbDriveId).value;
    var page := svc.delta(DeltaRequestFor(drive));
    assert FilterItems(KeepAsWritten, [pdf]) == [pdf];
  }

  /** As written, a notification for that drive is accepted, the pass fails on the PDF and the
      store, cursor included, stays as it was; so the same notification, and every later one
      for the drive, meets the same delta and fails again. */
  lemma NonDocxFileBlocksHandlerAsWritten(req: Request, secret: string, store: Store, svc: Services, sub: SubscriptionRow, pdf: DriveItem)
    requires !Truthy(req.validationToken) && CheckEntries(req.value, secret).None?
    requires MatchingSubscriptions(AsWritten, store.subscriptions, req.value) == [sub]
    requires FindDrive(store.drives, sub.dbDriveId).Some?
    requires var page := svc.delta(DeltaRequestFor(FindDrive(store.drives, sub.dbDriveId).value));
             Truthy(page.deltaLink) && page.value == Some([pdf])
    requires Truthy(pdf.id) && pdf.id.value !in store.files && !IsDeleted(pdf)
    requires pdf.file == Some(FileFacet(Some("application/pdf")))
    ensures Handle(AsWritten, req, secret, store, svc) == Outcome(Accepted, store, Some(Thrown(WrongTypeMessage)))
  {
    NonDocxFileFailsAsWritten(store, sub, svc, pdf);
  }

  /** With the intended filter a pass never fails on a file's type. */
  lemma {:induction false} EntriesNeverRejectType(store: Store, drive: Drive, items: seq<DriveItem>, svc: Services)
    requires forall x :: x in items ==> Keep(x)
    ensures ApplyEntries(store, drive, items, svc) != Err(Thrown(WrongTypeMessage))
    decreases |items|
  {
    if |items| > 0 {
      assert items[0] in items;
      var next := ApplyEntry(store, drive, items[0], svc);
      if next.Ok? {
        forall x | x in items[1..] ensures Keep(x) { assert x in items; }
        EntriesNeverRejectType(next.value, drive, items[1..], svc);
      }
    }
  }

  lemma NeverRejectsType(store: Store, sub: SubscriptionRow, svc: Services)
    ensures IngestDrive(Corrected, store, sub, svc) != Err(Thrown(WrongTypeMessage))
  {
    var found := FindDrive(store.drives, sub.dbDriveId);
    if found.Some? {
      var page := svc.delta(DeltaRequestFor(found.value));
      if Truthy(page.deltaLink) {
        var moved := store.(drives := SetDeltaLink(store.drives, found.value.id, page.deltaLink.value));
        EntriesNeverRejectType(moved, found.value, FilterItems(Keep, page.value.GetOr([])), svc);
      }
    }
  }

  /** With the intended filter no notification's ingestion ends on a file's type. */
  lemma {:induction false} CorrectedHandlerNeverRejectsType(store: Store, subs: seq<SubscriptionRow>, svc: Services)
    ensures IngestSubscriptions(Corrected, store, subs, svc).1 != Some(Thrown(WrongTypeMessage))
    decreases |subs|
  {
    if |subs| > 0 {
      NeverRejectsType(store, subs[0], svc);
      var first := IngestDrive(Corrected, store, subs[0], svc);
      if first.Ok? {
        CorrectedHandlerNeverRejectsType(first.value, subs[1..], svc);
      }
    }
  }
}
