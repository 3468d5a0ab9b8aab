/** `getSharepointSites`: the drive list shown to the operator, made of the remote drives not
    yet synchronized followed by the stored drives marked synced. */
module SiteListing {
  import opened Wrappers
  import opened Graph

  datatype RemoteSite = RemoteSite(id: Option<string>, name: Option<string>)
  datatype RemoteDrive = RemoteDrive(id: Option<string>, name: Option<string>)

  /** One listed drive; a synced entry is the stored row spread with `synced: true`. */
  datatype ListedDrive = ListedDrive(siteId: string, siteName: string, driveId: string, driveName: string, synced: bool, row: Option<Drive>)

  function SyncedEntry(d: Drive): ListedDrive {
    ListedDrive(d.siteId, d.siteName, d.driveId, d.driveName, true, Some(d))
  }

  function RemoteEntry(siteId: string, siteName: string, d: RemoteDrive): ListedDrive
    requires d.id.Some? && d.name.Some?
  {
    ListedDrive(siteId, siteName, d.id.value, d.name.value, false, None)
  }

  predicate Usable(d: RemoteDrive) {
    Truthy(d.id) && Truthy(d.name)
  }

  predicate UsableSite(s: RemoteSite) {
    Truthy(s.id) && Truthy(s.name)
  }

  function SyncedEntries(stored: seq<Drive>): (r: seq<ListedDrive>)
    ensures |r| == |stored|
    ensures forall i :: 0 <= i < |stored| ==> r[i] == SyncedEntry(stored[i])
  {
    if |stored| == 0 then [] else [SyncedEntry(stored[0])] + SyncedEntries(stored[1..])
  }

  /** The drives of one site, dropping those without an id or a name. */
  function DriveEntries(siteId: string, siteName: string, drives: seq<RemoteDrive>): (r: seq<ListedDrive>)
    ensures forall e :: e in r <==> exists d :: d in drives && Usable(d) && e == RemoteEntry(siteId, siteName, d)
  {
    if |drives| == 0 then []
    else
      var rest := DriveEntries(siteId, siteName, drives[1..]);
      assert forall d :: d in drives[1..] ==> d in drives;
      assert forall d :: d in drives ==> d == drives[0] || d in drives[1..];
      (if Usable(drives[0]) then [RemoteEntry(siteId, siteName, drives[0])] else []) + rest
  }

  /** Every site's drives in site order; a site without an id or a name contributes nothing
      and its drives are not fetched. */
  function SiteEntries(sites: seq<RemoteSite>, drivesOf: string -> seq<RemoteDrive>): (r: seq<ListedDrive>)
    ensures forall e :: e in r <==>
              exists s :: s in sites && UsableSite(s) && e in DriveEntries(s.id.value, s.name.value, drivesOf(s.id.value))
  {
    if |sites| == 0 then []
    else
      var rest := SiteEntries(sites[1..], drivesOf);
      assert forall s :: s in sites[1..] ==> s in sites;
      assert forall s :: s in sites ==> s == sites[0] || s in sites[1..];
      var s := sites[0];
      (if UsableSite(s) then DriveEntries(s.id.value, s.name.value, drivesOf(s.id.value)) else []) + rest
  }

  /** A stored drive has the entry's (site, drive) pair. */
  predicate IsSyncedPair(stored: seq<Drive>, e: ListedDrive) {
    exists d :: d in stored && d.driveId == e.driveId && d.siteId == e.siteId
  }

  function Unsynced(entries: seq<ListedDrive>, stored: seq<Drive>): (r: seq<ListedDrive>)
    ensures forall e :: e in r <==> e in entries && !IsSyncedPair(stored, e)
  {
    if |entries| == 0 then []
    else (if IsSyncedPair(stored, entries[0]) then [] else [entries[0]]) + Unsynced(entries[1..], stored)
  }

  function GetSharepointSites(sites: seq<RemoteSite>, drivesOf: string -> seq<RemoteDrive>, stored: seq<Drive>): (r: seq<ListedDrive>)
    ensures |r| >= |stored|
  {
    Unsynced(SiteEntries(sites, drivesOf), stored) + SyncedEntries(stored)
  }

  /** The listing ends with every stored drive, in storage order, marked synced; everything
      before is an unsynced remote drive with a non-empty site id, site name, drive id and
      drive name whose (site, drive) pair no stored drive has. */
  lemma ListingShape(sites: seq<RemoteSite>, drivesOf: string -> seq<RemoteDrive>, stored: seq<Drive>)
    ensures var r := GetSharepointSites(sites, drivesOf, stored);
            var k := |r| - |stored|;
            && 0 <= k
            && (forall i :: 0 <= i < |stored| ==> r[k + i] == SyncedEntry(stored[i]))
            && (forall i :: 0 <= i < k ==>
                  && !r[i].synced && r[i].row.None?
                  && r[i].siteId != "" && r[i].siteName != "" && r[i].driveId != "" && r[i].driveName != ""
                  && !IsSyncedPair(stored, r[i]))
  {
    var remote := Unsynced(SiteEntries(sites, drivesOf), stored);
    var r := GetSharepointSites(sites, drivesOf, stored);
    forall i | 0 <= i < |remote|
      ensures && !r[i].synced && r[i].row.None?
              && r[i].siteId != "" && r[i].siteName != "" && r[i].driveId != "" && r[i].driveName != ""
              && !IsSyncedPair(stored, r[i])
    {
      assert r[i] == remote[i];
      assert remote[i] in remote;
      var s :| s in sites && UsableSite(s) && remote[i] in DriveEntries(s.id.value, s.name.value, drivesOf(s.id.value));
      var d :| d in drivesOf(s.id.value) && Usable(d) && remote[i] == RemoteEntry(s.id.value, s.name.value, d);
    }
  }

  /** No (site, drive) pair is listed both as a remote drive and as a stored one. */
  lemma NoDuplicatePairs(sites: seq<RemoteSite>, drivesOf: string -> seq<RemoteDrive>, stored: seq<Drive>)
    ensures var r := GetSharepointSites(sites, drivesOf, stored);
            forall a, b :: a in r && b in r && !a.synced && b.synced ==> !(a.siteId == b.siteId && a.driveId == b.driveId)
  {
    var remote := Unsynced(SiteEntries(sites, drivesOf), stored);
    var synced := SyncedEntries(stored);
    forall a: ListedDrive, b: ListedDrive | a in remote + synced && b in remote + synced && !a.synced && b.synced
      ensures !(a.siteId == b.siteId && a.driveId == b.driveId)
    {
      var j :| 0 <= j < |synced| && synced[j] == b;
      assert stored[j] in stored;
    }
  }

  /** Every usable drive of every usable site is listed, as an unsynced entry unless a stored
      drive has its pair. */
  lemma ListingComplete(sites: seq<RemoteSite>, drivesOf: string -> seq<RemoteDrive>, stored: seq<Drive>, s: RemoteSite, d: RemoteDrive)
    requires s in sites && UsableSite(s) && d in drivesOf(s.id.value) && Usable(d)
    ensures var e := RemoteEntry(s.id.value, s.name.value, d);
            e in GetSharepointSites(sites, drivesOf, stored) <==> !IsSyncedPair(stored, e)
  {
    var e := RemoteEntry(s.id.value, s.name.value, d);
    var synced := SyncedEntries(stored);
    assert e in DriveEntries(s.id.value, s.name.value, drivesOf(s.id.value));
  }
}
