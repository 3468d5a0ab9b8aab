/** The parts of the Microsoft Graph drive API the core reads: drive items, delta pages and
    subscriptions, plus the stored drive row. Every network call is an oracle in `Services`. */
module Graph {
  import opened Wrappers

  type Bytes = seq<bv8>
  /** An embedding vector; its numbers are never inspected by the core. */
  type Vector = seq<real>

  /** The mimeType of a Word document, the only file type the core ingests. */
  const DocxMimeType: string := "application/vnd.openxmlformats-officedocument.wordprocessingml.document"

  datatype FileFacet = FileFacet(mimeType: Option<string>)
  datatype DeletedFacet = DeletedFacet(state: Option<string>)

  /** A `DriveItem` as returned by a delta page or by an item fetch. */
  datatype DriveItem = DriveItem(
    id: Option<string>,
    name: Option<string>,
    cTag: Option<string>,
    file: Option<FileFacet>,
    deleted: Option<DeletedFacet>,
    downloadUrl: Option<string>)

  /** `item.deleted?.state === "deleted"` */
  predicate IsDeleted(item: DriveItem) {
    item.deleted.Some? && item.deleted.value.state == Some("deleted")
  }

  /** `item.file` is present (a file rather than a folder). */
  predicate HasFileFacet(item: DriveItem) {
    item.file.Some?
  }

  /** `item.file?.mimeType === DocxMimeType` */
  predicate IsDocx(item: DriveItem) {
    item.file.Some? && item.file.value.mimeType == Some(DocxMimeType)
  }

  /** One page of a drive delta: the next cursor and the changed items. */
  datatype DeltaPage = DeltaPage(deltaLink: Option<string>, value: Option<seq<DriveItem>>)

  /** The two ways the core asks for a delta: from a stored cursor, or a full listing of a drive. */
  datatype DeltaRequest =
    | Incremental(deltaLink: string)
    | Full(siteId: string, driveId: string)

  /** A subscription as returned by the subscription-creation call. */
  datatype CreatedSubscription = CreatedSubscription(id: Option<string>, expirationDateTime: Option<string>)

  /** A synchronized drive row. */
  datatype Drive = Drive(
    id: string,
    siteId: string,
    siteName: string,
    driveId: string,
    driveName: string,
    deltaLink: Option<string>)

  /** The external calls the SharePoint code makes, as uninterpreted functions:
      a delta fetch, an item fetch by (site, drive, item), a download, the pandoc
      docx-to-html conversion (given the media directory it extracts into), the
      embedding call and the subscription creation. */
  datatype Services = Services(
    delta: DeltaRequest -> DeltaPage,
    fetchItem: (string, string, string) -> DriveItem,
    download: string -> Bytes,
    convert: (Bytes, string) -> string,
    embed: string -> Vector,
    createSubscription: (string, string) -> CreatedSubscription)
}
