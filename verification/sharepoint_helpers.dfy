/** `createNewDbSharepointFile`: turn a changed drive item into the row to store for it,
    through a chain of validations, or report that the item has been deleted meanwhile. */
module SharepointHelpers {
  import opened Wrappers
  import opened Graph

  /** The values inserted into the files table for one document. */
  datatype FileRecord = FileRecord(
    itemId: string,
    name: string,
    sharepointDriveId: string,
    embedding: Vector,
    cTag: string,
    content: string)

  const WrongTypeMessage: string := "Drive item not a file or wrong file type"
  const MissingPropertiesMessage: string := "No drive item found or has missing properties"
  const NoDownloadUrlMessage: string := "No download url in drive item response"

  /** `name.replace(/ /g, "\\ ")`: every space becomes a backslash followed by a space. */
  function EscapeSpaces(s: string): (r: string)
    ensures |r| >= |s|
  {
    if |s| == 0 then ""
    else (if s[0] == ' ' then "\\ " else [s[0]]) + EscapeSpaces(s[1..])
  }

  /** JavaScript's `s.split(sep)` for a one-character separator: always at least one segment. */
  function SplitOn(s: string, sep: char): (r: seq<string>)
    ensures |r| >= 1
  {
    if |s| == 0 then [""]
    else if s[0] == sep then [""] + SplitOn(s[1..], sep)
    else
      var rest := SplitOn(s[1..], sep);
      [[s[0]] + rest[0]] + rest[1..]
  }

  /** `name?.replace(/ /g, "\\ ").split(".")[1]`: the second dot-separated segment, if any. */
  function FileType(name: Option<string>): (r: Option<string>)
    ensures name.None? ==> r.None?
    ensures name.Some? && '.' !in name.value ==> r.None?
  {
    if name.None? then None
    else
      var segments := SplitOn(EscapeSpaces(name.value), '.');
      // without a '.' the split below has a single segment, so the answer is the same
      if '.' !in name.value then
        EscapeKeepsNoDot(name.value);
        SplitWithoutSeparator(EscapeSpaces(name.value), '.');
        None
      else if |segments| > 1 then Some(segments[1]) else None
  }

  /** Escaping spaces brings in no '.'. */
  lemma {:induction false} EscapeKeepsNoDot(s: string)
    requires '.' !in s
    ensures '.' !in EscapeSpaces(s)
  {
    if |s| > 0 {
      assert s[0] in s;
      assert forall c :: c in s[1..] ==> c in s;
      EscapeKeepsNoDot(s[1..]);
    }
  }

  /** A string without the separator splits into itself alone. */
  lemma {:induction false} SplitWithoutSeparator(s: string, sep: char)
    requires sep !in s
    ensures SplitOn(s, sep) == [s]
  {
    if |s| > 0 {
      assert s[0] in s;
      assert forall c :: c in s[1..] ==> c in s;
      SplitWithoutSeparator(s[1..], sep);
      assert [s[0]] + s[1..] == s;
    }
  }

  /** The directory pandoc extracts the media of item `id` into. */
  function MediaDir(id: string): string {
    "./public/media/" + id
  }

  /** The helper: validation of the delta item, item fetch, deletion check, property checks,
      download, conversion, embedding and the record. `Ok(None)` is the source's `null`. */
  function CreateNewDbSharepointFile(svc: Services, drive: Drive, file: DriveItem): (r: Result<Option<FileRecord>>)
    ensures r.Err? ==> r.error in {Thrown(WrongTypeMessage), Thrown(MissingPropertiesMessage), Thrown(NoDownloadUrlMessage)}
    ensures r.Ok? ==> IsDocx(file) && Truthy(file.id)
    ensures r.Ok? && r.value.Some? ==> r.value.value.sharepointDriveId == drive.id && r.value.value.itemId != ""
  {
    if !IsDocx(file) || !Truthy(file.id) then Err(Thrown(WrongTypeMessage))
    else
      var item := svc.fetchItem(drive.siteId, drive.driveId, file.id.value);
      if IsDeleted(item) then Ok(None)
      else if !Truthy(item.id) || !Truthy(FileType(item.name)) || !Truthy(item.name) || !Truthy(item.cTag) then
        Err(Thrown(MissingPropertiesMessage))
      else if !Truthy(item.downloadUrl) then Err(Thrown(NoDownloadUrlMessage))
      else
        var html := svc.convert(svc.download(item.downloadUrl.value), MediaDir(item.id.value));
        Ok(Some(FileRecord(item.id.value, item.name.value, drive.id, svc.embed(html), item.cTag.value, html)))
  }

  // ---------------------------------------------------------------------------
  // The file-type rule, stated without split or replace

  /** The first '.' of `s` exists and is followed by a character other than '.'. */
  predicate HasTypeSegment(s: string) {
    if |s| == 0 then false
    else if s[0] == '.' then |s| > 1 && s[1] != '.'
    else HasTypeSegment(s[1..])
  }

  lemma {:induction false} SecondSegmentNonEmptyIff(s: string)
    ensures var segments := SplitOn(s, '.');
            (|segments| > 1 && segments[1] != "") <==> HasTypeSegment(s)
  {
    if |s| == 0 {
    } else if s[0] == '.' {
      var tail := SplitOn(s[1..], '.');
      assert SplitOn(s, '.')[1] == tail[0];
      if |s| > 1 {
        FirstSegmentEmptyIff(s[1..]);
      } else {
        assert s[1..] == "";
      }
    } else {
      SecondSegmentNonEmptyIff(s[1..]);
    }
  }

  lemma {:induction false} FirstSegmentEmptyIff(s: string)
    requires |s| > 0
    ensures SplitOn(s, '.')[0] == "" <==> s[0] == '.'
  {
  }

  lemma {:induction false} EscapePreservesTypeSegment(s: string)
    ensures HasTypeSegment(EscapeSpaces(s)) <==> HasTypeSegment(s)
  {
    if |s| == 0 {
    } else {
      var e := EscapeSpaces(s);
      var rest := EscapeSpaces(s[1..]);
      if s[0] == '.' {
        assert e == ['.'] + rest;
        assert e[1..] == rest;
        if |s| > 1 {
          assert rest == (if s[1] == ' ' then "\\ " else [s[1]]) + EscapeSpaces(s[2..]) by {
            assert s[1..][1..] == s[2..];
          }
        }
      } else if s[0] == ' ' {
        assert e == "\\ " + rest;
        assert e[1..][1..] == rest;
        EscapePreservesTypeSegment(s[1..]);
      } else {
        assert e == [s[0]] + rest;
        assert e[1..] == rest;
        EscapePreservesTypeSegment(s[1..]);
      }
    }
  }

  /** The file type is present exactly when the name's first '.' is followed by a character
      other than another '.'; so a name without a dot, or "a..docx", has none. */
  lemma FileTypePresentIff(name: string)
    ensures Truthy(FileType(Some(name))) <==> HasTypeSegment(name)
  {
    SecondSegmentNonEmptyIff(EscapeSpaces(name));
    EscapePreservesTypeSegment(name);
  }

  // ---------------------------------------------------------------------------
  // Properties of the helper

  /** A delta item that is not a docx file, or has no id, is rejected whatever the services
      would answer: nothing is fetched before the rejection. */
  lemma RejectsBeforeFetch(svc: Services, other: Services, drive: Drive, file: DriveItem)
    requires !IsDocx(file) || !Truthy(file.id)
    ensures CreateNewDbSharepointFile(svc, drive, file) == Err(Thrown(WrongTypeMessage))
    ensures CreateNewDbSharepointFile(other, drive, file) == CreateNewDbSharepointFile(svc, drive, file)
  {
  }

  /** A fetched item marked deleted yields `null`, not an error. */
  lemma DeletedYieldsNull(svc: Services, drive: Drive, file: DriveItem)
    requires IsDocx(file) && Truthy(file.id)
    requires IsDeleted(svc.fetchItem(drive.siteId, drive.driveId, file.id.value))
    ensures CreateNewDbSharepointFile(svc, drive, file) == Ok(None)
  {
  }

  /** The helper yields a record exactly when every check passes; the record carries the
      fetched id, the unescaped name, the fetched cTag, the drive's row id and the converted
      html, and the embedding is that of the html. */
  lemma RecordIff(svc: Services, drive: Drive, file: DriveItem)
    ensures CreateNewDbSharepointFile(svc, drive, file).Ok? && CreateNewDbSharepointFile(svc, drive, file).value.Some?
      <==>
      && IsDocx(file) && Truthy(file.id)
      && var item := svc.fetchItem(drive.siteId, drive.driveId, file.id.value);
      && !IsDeleted(item)
      && Truthy(item.id) && Truthy(item.name) && HasTypeSegment(item.name.value)
      && Truthy(item.cTag) && Truthy(item.downloadUrl)
    ensures CreateNewDbSharepointFile(svc, drive, file).Ok? && CreateNewDbSharepointFile(svc, drive, file).value.Some? ==>
      var item := svc.fetchItem(drive.siteId, drive.driveId, file.id.value);
      var rec := CreateNewDbSharepointFile(svc, drive, file).value.value;
      && rec.itemId == item.id.value
      && rec.name == item.name.value
      && rec.cTag == item.cTag.value
      && rec.sharepointDriveId == drive.id
      && rec.content == svc.convert(svc.download(item.downloadUrl.value), MediaDir(item.id.value))
      && rec.embedding == svc.embed(rec.content)
  {
    if IsDocx(file) && Truthy(file.id) {
      var item := svc.fetchItem(drive.siteId, drive.driveId, file.id.value);
      if item.name.Some? {
        FileTypePresentIff(item.name.value);
      }
    }
  }

  /** A name without any '.' always fails the property check. */
  lemma NoDotNoRecord(svc: Services, drive: Drive, file: DriveItem)
    requires IsDocx(file) && Truthy(file.id)
    requires var item := svc.fetchItem(drive.siteId, drive.driveId, file.id.value);
             !IsDeleted(item) && item.name.Some? && '.' !in item.name.value
    ensures CreateNewDbSharepointFile(svc, drive, file) == Err(Thrown(MissingPropertiesMessage))
  {
    var item := svc.fetchItem(drive.siteId, drive.driveId, file.id.value);
    NoDotNoTypeSegment(item.name.value);
    FileTypePresentIff(item.name.value);
  }

  lemma {:induction false} NoDotNoTypeSegment(s: string)
    requires '.' !in s
    ensures !HasTypeSegment(s)
  {
    if |s| > 0 {
      assert s[0] in s;
      assert forall c :: c in s[1..] ==> c in s;
      NoDotNoTypeSegment(s[1..]);
    }
  }

  /** `a.b` with no dot in `a` and a `b` that does not start with a dot has a type segment. */
  lemma {:induction false} TypeSegmentAfterFirstDot(a: string, b: string)
    requires '.' !in a && |b| > 0 && b[0] != '.'
    ensures HasTypeSegment(a + "." + b)
  {
    if |a| > 0 {
      assert (a + "." + b)[1..] == a[1..] + "." + b;
      assert forall c :: c in a[1..] ==> c in a;
      assert a[0] in a;
      TypeSegmentAfterFirstDot(a[1..], b);
    } else {
      assert a + "." + b == "." + b;
    }
  }
}
