/** `updateSyncedSharepointSites`: the operator sends every listed drive with the synced state
    wanted; drives newly opted in are stored, subscribed to and fully ingested, drives opted
    out are removed with their subscriptions and files. The whole change is one transaction. */
module DriveSync {
  import opened Wrappers
  import opened Graph
  import opened SharepointHelpers
  import opened Db
  import Query

  /** One entry of the request: a drive and whether it should be synchronized. */
  datatype SyncRequest = SyncRequest(siteId: string, siteName: string, driveId: string, driveName: string, synced: bool)

  const SubscriptionNotCreatedMessage: string := "Subscription not created"
  const NoDeltaLinkMessage: string := "No delta link"
  const FailedToInsertFileMessage: string := "Failed to insert file"

  /** `currentlySynced.some(d => d.driveId === driveId)`: matching is by drive id alone. */
  predicate IsStored(current: seq<Drive>, driveId: string) {
    exists d :: d in current && d.driveId == driveId
  }

  function DrivesToAdd(input: seq<SyncRequest>, current: seq<Drive>): (r: seq<SyncRequest>)
    ensures |r| <= |input|
    ensures forall x :: x in r <==> x in input && x.synced && !IsStored(current, x.driveId)
    ensures (forall x :: x in input ==> !x.synced || IsStored(current, x.driveId)) ==> r == []
  {
    if |input| == 0 then []
    else (if input[0].synced && !IsStored(current, input[0].driveId) then [input[0]] else [])
         + DrivesToAdd(input[1..], current)
  }

  function DrivesToDelete(input: seq<SyncRequest>, current: seq<Drive>): (r: seq<SyncRequest>)
    ensures |r| <= |input|
    ensures forall x :: x in r <==> x in input && !x.synced && IsStored(current, x.driveId)
    ensures (forall x :: x in input ==> x.synced || !IsStored(current, x.driveId)) ==> r == []
  {
    if |input| == 0 then []
    else (if !input[0].synced && IsStored(current, input[0].driveId) then [input[0]] else [])
         + DrivesToDelete(input[1..], current)
  }

  /** The two lists never share a drive id; an entry whose wanted state already holds is in
      neither, and every other entry is in exactly one of them. */
  lemma SelectionPartitions(input: seq<SyncRequest>, current: seq<Drive>)
    ensures forall a, b :: a in DrivesToAdd(input, current) && b in DrivesToDelete(input, current) ==> a.driveId != b.driveId
    ensures forall x :: x in input && x.synced == IsStored(current, x.driveId) ==>
              x !in DrivesToAdd(input, current) && x !in DrivesToDelete(input, current)
    ensures forall x :: x in input && x.synced != IsStored(current, x.driveId) ==>
              (x in DrivesToAdd(input, current) <==> x !in DrivesToDelete(input, current))
  {
  }

  // ---------------------------------------------------------------------------
  // Adding drives

  predicate HasPair(drives: seq<Drive>, siteId: string, driveId: string) {
    exists d :: d in drives && d.siteId == siteId && d.driveId == driveId
  }

  /** No two stored drives share a (site, drive) pair. */
  ghost predicate UniquePairs(drives: seq<Drive>) {
    forall i, j :: 0 <= i < j < |drives| ==> !(drives[i].siteId == drives[j].siteId && drives[i].driveId == drives[j].driveId)
  }

  /** The row stored for a requested drive; `rowId` stands for the database's generated id. */
  function NewDriveRow(x: SyncRequest, rowId: (string, string) -> string): Drive {
    Drive(rowId(x.siteId, x.driveId), x.siteId, x.siteName, x.driveId, x.driveName, None)
  }

  /** `insert ... on conflict do nothing returning`: each entry is stored unless its (site,
      drive) pair is already taken; the rows returned are the ones stored. */
  function InsertDrives(drives: seq<Drive>, entries: seq<SyncRequest>, rowId: (string, string) -> string): (r: (seq<Drive>, seq<Drive>))
    decreases |entries|
    ensures r.0 == drives + r.1
    ensures forall x :: x in entries ==> HasPair(r.0, x.siteId, x.driveId)
    ensures forall d :: d in r.1 ==> !HasPair(drives, d.siteId, d.driveId) && exists x :: x in entries && d == NewDriveRow(x, rowId)
    ensures UniquePairs(drives) ==> UniquePairs(r.0)
  {
    if |entries| == 0 then (drives, [])
    else
      var x := entries[0];
      if HasPair(drives, x.siteId, x.driveId) then InsertDrives(drives, entries[1..], rowId)
      else
        var row := NewDriveRow(x, rowId);
        assert row in drives + [row];
        var rest := InsertDrives(drives + [row], entries[1..], rowId);
        assert rest.0 == drives + ([row] + rest.1);
        (rest.0, [row] + rest.1)
  }

  /** `update drives set deltaLink = link where siteId = ? and driveId = ?` */
  function SetDeltaLinkWhere(drives: seq<Drive>, siteId: string, driveId: string, link: string): (r: seq<Drive>)
    ensures |r| == |drives|
    ensures forall i :: 0 <= i < |drives| ==>
              r[i] == (if drives[i].siteId == siteId && drives[i].driveId == driveId
                       then drives[i].(deltaLink := Some(link)) else drives[i])
  {
    if |drives| == 0 then []
    else [if drives[0].siteId == siteId && drives[0].driveId == driveId then drives[0].(deltaLink := Some(link)) else drives[0]]
         + SetDeltaLinkWhere(drives[1..], siteId, driveId, link)
  }

  /** The delta items that are Word documents; a page without items has none. */
  function DocxItems(page: DeltaPage): (r: seq<DriveItem>)
    ensures forall it :: it in r <==> page.value.Some? && it in page.value.value && IsDocx(it)
  {
    if page.value.None? then [] else FilterDocx(page.value.value)
  }

  function FilterDocx(items: seq<DriveItem>): (r: seq<DriveItem>)
    ensures forall it :: it in r <==> it in items && IsDocx(it)
  {
    if |items| == 0 then [] else (if IsDocx(items[0]) then [items[0]] else []) + FilterDocx(items[1..])
  }

  /** `insert ... on conflict do nothing returning` then `[0]`: a record whose item id is
      already stored returns no row, which is an error. */
  function InsertNewFile(files: map<string, FileRow>, rec: FileRecord): (r: Result<map<string, FileRow>>)
    ensures r.Ok? <==> rec.itemId !in files
    ensures r.Err? ==> r.error == Thrown(FailedToInsertFileMessage)
    ensures r.Ok? ==> r.value.Keys == files.Keys + {rec.itemId} && r.value[rec.itemId] == FileRow(rec, false)
                      && forall k :: k in files ==> r.value[k] == files[k]
  {
    if rec.itemId in files then Err(Thrown(FailedToInsertFileMessage))
    else Ok(files[rec.itemId := FileRow(rec, false)])
  }

  /** The initial ingestion of a drive's Word documents, in delta order. */
  function IngestInitial(files: map<string, FileRow>, drive: Drive, items: seq<DriveItem>, svc: Services): (r: Result<map<string, FileRow>>)
    ensures r.Ok? ==> files.Keys <= r.value.Keys
    ensures |items| == 0 ==> r == Ok(files)
    decreases |items|
  {
    if |items| == 0 then Ok(files)
    else
      var made :- CreateNewDbSharepointFile(svc, drive, items[0]);
      var next :- if made.None? then Ok(files) else InsertNewFile(files, made.value);
      IngestInitial(next, drive, items[1..], svc)
  }

  predicate HasSubscription(subs: seq<SubscriptionRow>, id: string) {
    exists s :: s in subs && s.id == id
  }

  /** Subscribe to one newly stored drive, store its first cursor and ingest its documents:
      one subscription row for the drive is appended and no change row is touched. */
  function AddDrive(store: Store, drive: Drive, svc: Services): (r: Result<Store>)
    ensures r.Ok? ==> r.value.changes == store.changes
    ensures r.Ok? ==> |r.value.subscriptions| == |store.subscriptions| + 1
                      && r.value.subscriptions[..|store.subscriptions|] == store.subscriptions
                      && r.value.subscriptions[|store.subscriptions|].dbDriveId == drive.id
  {
    var sub := svc.createSubscription(drive.siteId, drive.driveId);
    if !Truthy(sub.id) || !Truthy(sub.expirationDateTime) then Err(Thrown(SubscriptionNotCreatedMessage))
    else if HasSubscription(store.subscriptions, sub.id.value) then Err(UniqueViolation(sub.id.value))
    else
      var subs := store.subscriptions + [SubscriptionRow(sub.id.value, drive.id, sub.expirationDateTime.value)];
      var page := svc.delta(Full(drive.siteId, drive.driveId));
      if !Truthy(page.deltaLink) then Err(Thrown(NoDeltaLinkMessage))
      else
        var drives := SetDeltaLinkWhere(store.drives, drive.siteId, drive.driveId, page.deltaLink.value);
        var files :- IngestInitial(store.files, drive, DocxItems(page), svc);
        Ok(store.(drives := drives, subscriptions := subs, files := files))
  }

  function AddDrives(store: Store, added: seq<Drive>, svc: Services): (r: Result<Store>)
    ensures r.Ok? ==> r.value.changes == store.changes
    ensures r.Ok? ==> |r.value.subscriptions| == |store.subscriptions| + |added|
    decreases |added|
  {
    if |added| == 0 then Ok(store)
    else
      var next :- AddDrive(store, added[0], svc);
      AddDrives(next, added[1..], svc)
  }

  // ---------------------------------------------------------------------------
  // Removing drives

  /** The stored row matches a requested entry on both site and drive id. */
  predicate PairRequested(entries: seq<SyncRequest>, d: Drive) {
    exists x :: x in entries && x.siteId == d.siteId && x.driveId == d.driveId
  }

  /** `select drives where or(...entries.map(e => siteId = e.siteId and driveId = e.driveId))` */
  function MatchedRows(drives: seq<Drive>, entries: seq<SyncRequest>): (r: seq<Drive>)
    ensures forall d :: d in r <==> d in drives && PairRequested(entries, d)
    ensures (forall d :: d in drives ==> !PairRequested(entries, d)) ==> r == []
  {
    if |drives| == 0 then []
    else (if PairRequested(entries, drives[0]) then [drives[0]] else []) + MatchedRows(drives[1..], entries)
  }

  function RowIds(rows: seq<Drive>): (r: seq<string>)
    ensures |r| == |rows|
    ensures forall i :: 0 <= i < |rows| ==> r[i] == rows[i].id
  {
    if |rows| == 0 then [] else [rows[0].id] + RowIds(rows[1..])
  }

  function KeepDrives(drives: seq<Drive>, ids: seq<string>): (r: seq<Drive>)
    ensures forall d :: d in r <==> d in drives && d.id !in ids
  {
    if |drives| == 0 then [] else (if drives[0].id in ids then [] else [drives[0]]) + KeepDrives(drives[1..], ids)
  }

  function KeepSubscriptions(subs: seq<SubscriptionRow>, ids: seq<string>): (r: seq<SubscriptionRow>)
    ensures forall s :: s in r <==> s in subs && s.dbDriveId !in ids
  {
    if |subs| == 0 then [] else (if subs[0].dbDriveId in ids then [] else [subs[0]]) + KeepSubscriptions(subs[1..], ids)
  }

  /** Delete the subscriptions and drive rows of the drives with the given row ids; their files
      go with them through the foreign key. With `everything` the conditions are absent and
      every row goes. */
  function DeleteDriveRows(store: Store, ids: seq<string>, everything: bool): Store {
    store.(
      drives := if everything then [] else KeepDrives(store.drives, ids),
      subscriptions := if everything then [] else KeepSubscriptions(store.subscriptions, ids),
      files := if everything then map[]
               else map k | k in store.files && store.files[k].record.sharepointDriveId !in ids :: store.files[k])
  }

  /** The deletion with conditions over the matched rows only. */
  function RemoveDrives(store: Store, toDelete: seq<SyncRequest>): (r: Store)
    ensures forall d :: d in r.drives ==> d in store.drives && d !in MatchedRows(store.drives, toDelete)
    ensures forall s :: s in r.subscriptions ==> s in store.subscriptions
    ensures r.files.Keys <= store.files.Keys && r.changes == store.changes
  {
    var gone := MatchedRows(store.drives, toDelete);
    assert forall d :: d in gone ==> d.id in RowIds(gone) by {
      forall d | d in gone ensures d.id in RowIds(gone) { RowIdsMembership(gone, d.id); }
    }
    DeleteDriveRows(store, RowIds(gone), false)
  }

  /** The deletion as written: `or()` over no matched rows is no condition at all, so it agrees
      with the intended deletion whenever some row matched, and empties the drive, subscription
      and file tables otherwise. */
  function RemoveDrivesAsWritten(store: Store, toDelete: seq<SyncRequest>): (r: Store)
    ensures |MatchedRows(store.drives, toDelete)| > 0 ==> r == RemoveDrives(store, toDelete)
    ensures |MatchedRows(store.drives, toDelete)| == 0 ==> r == store.(drives := [], subscriptions := [], files := map[])
  {
    var ids := RowIds(MatchedRows(store.drives, toDelete));
    DeleteDriveRows(store, ids, |ids| == 0)
  }

  lemma RowIdsMembership(rows: seq<Drive>, id: string)
    ensures id in RowIds(rows) <==> exists d :: d in rows && d.id == id
  {
    if id in RowIds(rows) {
      var i :| 0 <= i < |RowIds(rows)| && RowIds(rows)[i] == id;
      assert rows[i] in rows;
    }
  }

  /** Removal takes exactly the matched drives: a drive row stays unless it shares its row id
      with a row matching a requested (site, drive) pair, a subscription or file stays unless it
      belongs to such a row, and nothing else changes. */
  lemma RemoveDrivesExact(store: Store, toDelete: seq<SyncRequest>)
    ensures var r := RemoveDrives(store, toDelete);
            var gone := MatchedRows(store.drives, toDelete);
            && (forall d :: d in r.drives <==> d in store.drives && !(exists m :: m in gone && m.id == d.id))
            && (forall s :: s in r.subscriptions <==> s in store.subscriptions && !(exists m :: m in gone && m.id == s.dbDriveId))
            && (forall k :: k in r.files <==> k in store.files && !(exists m :: m in gone && m.id == store.files[k].record.sharepointDriveId))
            && (forall k :: k in r.files ==> r.files[k] == store.files[k])
            && r.changes == store.changes
  {
    var gone := MatchedRows(store.drives, toDelete);
    assert RemoveDrives(store, toDelete) == DeleteDriveRows(store, RowIds(gone), false);
    DeleteRowsOf(store, gone);
  }

  /** Deleting by the ids of some rows removes exactly what belongs to one of those rows. */
  lemma DeleteRowsOf(store: Store, gone: seq<Drive>)
    ensures var r := DeleteDriveRows(store, RowIds(gone), false);
            && (forall d :: d in r.drives <==> d in store.drives && !(exists m :: m in gone && m.id == d.id))
            && (forall s :: s in r.subscriptions <==> s in store.subscriptions && !(exists m :: m in gone && m.id == s.dbDriveId))
            && (forall k :: k in r.files <==> k in store.files && !(exists m :: m in gone && m.id == store.files[k].record.sharepointDriveId))
            && (forall k :: k in r.files ==> r.files[k] == store.files[k])
            && r.changes == store.changes
  {
    forall id {
      RowIdsMembership(gone, id);
    }
  }

  /** With unique row ids, a stored drive survives exactly when no request names its pair. */
  lemma RemoveDrivesByPair(store: Store, toDelete: seq<SyncRequest>)
    requires forall a, b :: a in store.drives && b in store.drives && a.id == b.id ==> a == b
    ensures forall d :: d in RemoveDrives(store, toDelete).drives <==> d in store.drives && !PairRequested(toDelete, d)
  {
    RemoveDrivesExact(store, toDelete);
  }

  /** When no stored row matches the requested pairs (a request naming a stored drive id under
      another site id), the deletion as written wipes every drive, subscription and file, where
      the intended deletion changes nothing. */
  lemma RemoveDrivesAsWrittenWipesAll(store: Store, toDelete: seq<SyncRequest>)
    requires forall d :: d in store.drives ==> !PairRequested(toDelete, d)
    ensures RemoveDrivesAsWritten(store, toDelete) == store.(drives := [], subscriptions := [], files := map[])
    ensures RemoveDrives(store, toDelete) == store
  {
    var gone := MatchedRows(store.drives, toDelete);
    assert |gone| == 0;
    var ids := RowIds(gone);
    assert ids == [];
    var r := RemoveDrives(store, toDelete);
    assert r.drives == store.drives by {
      KeepNothingIdentity(store.drives);
    }
    assert r.subscriptions == store.subscriptions by {
      KeepNoSubscriptionIdentity(store.subscriptions);
    }
    assert r.files == store.files;
  }

  lemma {:induction false} KeepNothingIdentity(drives: seq<Drive>)
    ensures KeepDrives(drives, []) == drives
  {
    if |drives| > 0 {
      KeepNothingIdentity(drives[1..]);
    }
  }

  lemma {:induction false} KeepNoSubscriptionIdentity(subs: seq<SubscriptionRow>)
    ensures KeepSubscriptions(subs, []) == subs
  {
    if |subs| > 0 {
      KeepNoSubscriptionIdentity(subs[1..]);
    }
  }

  // ---------------------------------------------------------------------------
  // The procedure

  /** `Ok` is the procedure's "Success"; an error rolls the whole transaction back. Only the add
      path can fail, and no change row is ever touched. */
  function UpdateSyncedSharepointSites(v: Variant, input: seq<SyncRequest>, store: Store, svc: Services, rowId: (string, string) -> string): (r: Result<Store>)
    ensures r.Ok? ==> r.value.changes == store.changes
    ensures DrivesToAdd(input, store.drives) == [] ==> r.Ok?
  {
    var toAdd := DrivesToAdd(input, store.drives);
    var toDelete := DrivesToDelete(input, store.drives);
    var afterAdd :-
      if |toAdd| > 0 then
        var inserted := InsertDrives(store.drives, toAdd, rowId);
        AddDrives(store.(drives := inserted.0), inserted.1, svc)
      else Ok(store);
    Ok(if |toDelete| == 0 then afterAdd
       else if v.AsWritten? then RemoveDrivesAsWritten(afterAdd, toDelete)
       else RemoveDrives(afterAdd, toDelete))
  }

  // ---------------------------------------------------------------------------
  // Properties of the add path

  /** The initial ingestion fails only with the record builder's errors or a refused insert. */
  lemma {:induction false} IngestInitialErrors(files: map<string, FileRow>, drive: Drive, items: seq<DriveItem>, svc: Services)
    ensures var r := IngestInitial(files, drive, items, svc);
            r.Err? ==> r.error in {Thrown(WrongTypeMessage), Thrown(MissingPropertiesMessage),
                                   Thrown(NoDownloadUrlMessage), Thrown(FailedToInsertFileMessage)}
    decreases |items|
  {
    if |items| > 0 {
      var made := CreateNewDbSharepointFile(svc, drive, items[0]);
      if made.Ok? {
        var next := if made.value.None? then Ok(files) else InsertNewFile(files, made.value.value);
        if next.Ok? {
          IngestInitialErrors(next.value, drive, items[1..], svc);
        }
      }
    }
  }

  /** A subscription without an id or an expiry aborts before anything is fetched, and that
      error arises in no other way. */
  lemma SubscriptionGuard(store: Store, drive: Drive, svc: Services)
    ensures var sub := svc.createSubscription(drive.siteId, drive.driveId);
            (!Truthy(sub.id) || !Truthy(sub.expirationDateTime)) <==>
              AddDrive(store, drive, svc) == Err(Thrown(SubscriptionNotCreatedMessage))
  {
    IngestInitialErrors(store.files, drive, DocxItems(svc.delta(Full(drive.siteId, drive.driveId))), svc);
  }

  /** Past the subscription, a full listing without a cursor aborts; otherwise the cursor is
      stored on the drive's (site, drive) row and the subscription row is recorded for it. */
  lemma CursorGuard(store: Store, drive: Drive, svc: Services)
    requires var sub := svc.createSubscription(drive.siteId, drive.driveId);
             Truthy(sub.id) && Truthy(sub.expirationDateTime) && !HasSubscription(store.subscriptions, sub.id.value)
    ensures var page := svc.delta(Full(drive.siteId, drive.driveId));
            !Truthy(page.deltaLink) ==> AddDrive(store, drive, svc) == Err(Thrown(NoDeltaLinkMessage))
    ensures var sub := svc.createSubscription(drive.siteId, drive.driveId);
            var page := svc.delta(Full(drive.siteId, drive.driveId));
            var r := AddDrive(store, drive, svc);
            r.Ok? ==>
              && Truthy(page.deltaLink)
              && r.value.drives == SetDeltaLinkWhere(store.drives, drive.siteId, drive.driveId, page.deltaLink.value)
              && r.value.subscriptions == store.subscriptions + [SubscriptionRow(sub.id.value, drive.id, sub.expirationDateTime.value)]
              && r.value.changes == store.changes
  {
  }

  /** A null record is skipped without touching the files. */
  lemma NullRecordSkipped(files: map<string, FileRow>, drive: Drive, items: seq<DriveItem>, svc: Services)
    requires |items| > 0 && CreateNewDbSharepointFile(svc, drive, items[0]) == Ok(None)
    ensures IngestInitial(files, drive, items, svc) == IngestInitial(files, drive, items[1..], svc)
  {
  }

  /** A record whose item id is already stored aborts the ingestion. */
  lemma DuplicateRecordFails(files: map<string, FileRow>, drive: Drive, items: seq<DriveItem>, svc: Services, rec: FileRecord)
    requires |items| > 0 && CreateNewDbSharepointFile(svc, drive, items[0]) == Ok(Some(rec)) && rec.itemId in files
    ensures IngestInitial(files, drive, items, svc) == Err(Thrown(FailedToInsertFileMessage))
  {
  }

  /** A successful initial ingestion only adds rows: stored rows are kept as they were, every
      new row is keyed by its item id, belongs to the drive and is not marked updated. */
  lemma {:induction false} IngestInitialOnlyAdds(files: map<string, FileRow>, drive: Drive, items: seq<DriveItem>, svc: Services)
    requires WellKeyed(files)
    ensures var r := IngestInitial(files, drive, items, svc);
            r.Ok? ==>
              && WellKeyed(r.value)
              && (forall k :: k in files ==> k in r.value && r.value[k] == files[k])
              && (forall k :: k in r.value && k !in files ==> r.value[k].record.sharepointDriveId == drive.id && !r.value[k].updated)
    decreases |items|
  {
    if |items| > 0 {
      var made := CreateNewDbSharepointFile(svc, drive, items[0]);
      if made.Ok? {
        if made.value.None? {
          IngestInitialOnlyAdds(files, drive, items[1..], svc);
        } else {
          var rec := made.value.value;
          RecordIff(svc, drive, items[0]);
          if rec.itemId !in files {
            var next := files[rec.itemId := FileRow(rec, false)];
            IngestInitialOnlyAdds(next, drive, items[1..], svc);
          }
        }
      }
    }
  }

  /** The request `synced = true` for a drive already stored under its drive id adds nothing,
      and an all-agreeing request changes nothing at all. */
  lemma AgreeingRequestIsNoOp(v: Variant, input: seq<SyncRequest>, store: Store, svc: Services, rowId: (string, string) -> string)
    requires forall x :: x in input ==> x.synced == IsStored(store.drives, x.driveId)
    ensures UpdateSyncedSharepointSites(v, input, store, svc, rowId) == Ok(store)
  {
    SelectionPartitions(input, store.drives);
    var toAdd := DrivesToAdd(input, store.drives);
    var toDelete := DrivesToDelete(input, store.drives);
    assert |toAdd| == 0;
    assert |toDelete| == 0;
  }

  /** An opt-out request naming a stored drive id under a site id no stored row has (the
      matching of the selection is by drive id, that of the deletion by site and drive id):
      as written the procedure succeeds with every drive, subscription and file deleted; the
      intended procedure changes nothing. */
  lemma UnmatchedOptOutWipesAsWritten(input: seq<SyncRequest>, store: Store, svc: Services, rowId: (string, string) -> string, x: SyncRequest)
    requires forall e :: e in input ==> !e.synced
    requires x in input && IsStored(store.drives, x.driveId)
    requires forall d :: d in store.drives ==> !PairRequested(input, d)
    ensures UpdateSyncedSharepointSites(AsWritten, input, store, svc, rowId) ==
              Ok(store.(drives := [], subscriptions := [], files := map[]))
    ensures UpdateSyncedSharepointSites(Corrected, input, store, svc, rowId) == Ok(store)
  {
    var toAdd := DrivesToAdd(input, store.drives);
    var toDelete := DrivesToDelete(input, store.drives);
    assert |toAdd| == 0;
    assert x in toDelete;
    RemoveDrivesAsWrittenWipesAll(store, toDelete);
  }
}
