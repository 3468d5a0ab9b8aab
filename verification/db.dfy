/** The relational state the SharePoint procedures read and write: synchronized drives, their
    webhook subscriptions, the mirrored files keyed by remote item id, and the change log. */
module Db {
  import opened Wrappers
  import opened Graph
  import opened SharepointHelpers

  datatype SubscriptionRow = SubscriptionRow(id: string, dbDriveId: string, expirationDateTime: string)

  /** A stored file: the helper's record plus the "dirty" flag set when an update is ingested. */
  datatype FileRow = FileRow(record: FileRecord, updated: bool)

  /** The values of one inserted change row. */
  datatype ChangeRecord = ChangeRecord(changeType: string, itemId: string, oldContent: string, newContent: string)

  datatype Store = Store(
    drives: seq<Drive>,
    subscriptions: seq<SubscriptionRow>,
    files: map<string, FileRow>,
    changes: seq<ChangeRecord>)

  /** Every file row sits under the key of its own item id. */
  ghost predicate WellKeyed(files: map<string, FileRow>) {
    forall k :: k in files ==> files[k].record.itemId == k
  }

  /** The first drive whose row id is `id` (`select ... where id = ?` then `[0]`). */
  function FindDrive(drives: seq<Drive>, id: string): (r: Option<Drive>)
    ensures r.Some? ==> r.value in drives && r.value.id == id
    ensures r.None? ==> forall d :: d in drives ==> d.id != id
  {
    if |drives| == 0 then None
    else if drives[0].id == id then Some(drives[0])
    else FindDrive(drives[1..], id)
  }

  /** `update drives set deltaLink = link where id = ?` */
  function SetDeltaLink(drives: seq<Drive>, id: string, link: string): (r: seq<Drive>)
    ensures |r| == |drives|
    ensures forall i :: 0 <= i < |drives| ==>
              r[i] == (if drives[i].id == id then drives[i].(deltaLink := Some(link)) else drives[i])
  {
    if |drives| == 0 then []
    else [if drives[0].id == id then drives[0].(deltaLink := Some(link)) else drives[0]]
         + SetDeltaLink(drives[1..], id, link)
  }

  /** Insert a new row; a second row under the same item id is refused. */
  function InsertFile(files: map<string, FileRow>, row: FileRow): (r: Result<map<string, FileRow>>)
    ensures r.Err? ==> r.error == UniqueViolation(row.record.itemId) && row.record.itemId in files
    ensures r.Ok? ==> r.value.Keys == files.Keys + {row.record.itemId} && r.value[row.record.itemId] == row
                      && forall k :: k in files ==> r.value[k] == files[k]
  {
    if row.record.itemId in files then Err(UniqueViolation(row.record.itemId))
    else Ok(files[row.record.itemId := row])
  }

  /** Overwrite the row stored under `key` with `row`, whose own item id becomes its key. */
  function ReplaceFile(files: map<string, FileRow>, key: string, row: FileRow): (r: Result<map<string, FileRow>>)
    requires key in files
    ensures r.Err? ==> r.error == UniqueViolation(row.record.itemId) && row.record.itemId in files && row.record.itemId != key
    ensures r.Ok? ==> r.value.Keys == (files.Keys - {key}) + {row.record.itemId} && r.value[row.record.itemId] == row
                      && forall k :: k in files && k != key && k != row.record.itemId ==> r.value[k] == files[k]
  {
    if row.record.itemId != key && row.record.itemId in files then Err(UniqueViolation(row.record.itemId))
    else Ok((files - {key})[row.record.itemId := row])
  }

  lemma InsertKeepsWellKeyed(files: map<string, FileRow>, row: FileRow)
    requires WellKeyed(files)
    ensures InsertFile(files, row).Ok? ==> WellKeyed(InsertFile(files, row).value)
    ensures InsertFile(files, row).Ok? <==> row.record.itemId !in files
  {
  }

  lemma ReplaceKeepsWellKeyed(files: map<string, FileRow>, key: string, row: FileRow)
    requires WellKeyed(files) && key in files
    ensures ReplaceFile(files, key, row).Ok? ==> WellKeyed(ReplaceFile(files, key, row).value)
    ensures row.record.itemId == key ==> ReplaceFile(files, key, row) == Ok(files[key := row])
  {
    if row.record.itemId == key {
      assert (files - {key})[key := row] == files[key := row];
    }
  }
}
