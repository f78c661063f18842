/** The two IPC handlers of the main process that touch the disk, `save-video`
    and `delete-video`, over a filesystem seen as a map from path to contents.
    The save dialog, the clock and the operating system's verdict on a write or
    an unlink are inputs: the chosen path (empty when the dialog is cancelled),
    the current time in milliseconds, and an `Io` outcome. */
module Bridge {
  import opened Types
  import FileNames

  /** The files on disk: path to contents. */
  type FileSystem = map<string, Bytes>

  /** What the operating system does with one write or unlink, beyond what the
      map can tell: it goes through, or it fails with an error message (disk
      full, permission denied, ...). */
  datatype Io = Succeeds | Fails(message: string)

  /** Why an unlink was refused. */
  datatype FsError = NoSuchFile(path: string) | IoFailure(message: string)

  /** How the `save-video` invocation settles in the renderer: it resolves to a
      record, resolves to `null` because the dialog was cancelled, or rejects
      with the write's error message. */
  datatype SaveReply = Returned(video: Video) | Cancelled | Rejected(message: string)

  /** The disk after a save, and the reply the renderer receives. */
  datatype SaveOutcome = SaveOutcome(fs: FileSystem, reply: SaveReply)

  /** How the `delete-video` invocation settles: it resolves (to `true`) with
      the file gone, or rejects and the disk is as it was. */
  datatype DeleteOutcome = Unlinked(fs: FileSystem) | Refused(error: FsError)

  /** The record the handler builds for a buffer written to `path` at `now`. */
  function RecordFor(path: string, buffer: Bytes, now: int): (v: Video)
    ensures v.path == path && v.size == |buffer| && v.createdAt == now
    ensures v.name == FileNames.FileName(path) && FileNames.Separator !in v.name
  {
    FileNames.FileNameIsLastSegment(path);
    Video(path, FileNames.FileName(path), |buffer|, now)
  }

  /** The `save-video` handler: a cancelled dialog writes nothing and replies
      `null`; otherwise the whole buffer is written to the chosen path before a
      record of it is returned, and a failed write rejects. */
  function SaveVideo(fs: FileSystem, chosen: string, buffer: Bytes, now: int, io: Io): (out: SaveOutcome)
    ensures chosen == "" ==> out == SaveOutcome(fs, Cancelled)
    ensures out.reply.Returned? <==> chosen != "" && io.Succeeds?
    ensures out.reply.Returned? ==>
      && chosen in out.fs && out.fs[chosen] == buffer
      && out.fs.Keys == fs.Keys + {chosen}
      && (forall p :: p in fs && p != chosen ==> out.fs[p] == fs[p])
      && out.reply.video == RecordFor(chosen, buffer, now)
    ensures !out.reply.Returned? ==> out.fs == fs
    ensures chosen != "" && io.Fails? ==> out.reply == Rejected(io.message)
  {
    if chosen != "" then
      match io
      case Succeeds => SaveOutcome(fs[chosen := buffer], Returned(RecordFor(chosen, buffer, now)))
      case Fails(message) => SaveOutcome(fs, Rejected(message))
    else
      SaveOutcome(fs, Cancelled)
  }

  /** The `delete-video` handler: `unlink` the path. A missing file rejects,
      so does an operating-system failure; on success exactly that path is gone. */
  function DeleteVideo(fs: FileSystem, path: string, io: Io): (out: DeleteOutcome)
    ensures out.Unlinked? <==> path in fs && io.Succeeds?
    ensures out.Unlinked? ==>
      && out.fs.Keys == fs.Keys - {path}
      && (forall p :: p in out.fs ==> out.fs[p] == fs[p])
    ensures path !in fs ==> out == Refused(NoSuchFile(path))
    ensures path in fs && io.Fails? ==> out == Refused(IoFailure(io.message))
  {
    if path !in fs then Refused(NoSuchFile(path))
    else
      match io
      case Succeeds => Unlinked(fs - {path})
      case Fails(message) => Refused(IoFailure(message))
  }

  /** Deleting a file just saved restores every other file as it was, and a
      second delete of the same path finds nothing to remove. */
  lemma SaveThenDelete(fs: FileSystem, chosen: string, buffer: Bytes, now: int)
    requires chosen != ""
    ensures var saved := SaveVideo(fs, chosen, buffer, now, Succeeds).fs;
      && DeleteVideo(saved, chosen, Succeeds) == Unlinked(fs - {chosen})
      && DeleteVideo(fs - {chosen}, chosen, Succeeds) == Refused(NoSuchFile(chosen))
  {
    var saved := SaveVideo(fs, chosen, buffer, now, Succeeds).fs;
    assert saved - {chosen} == fs - {chosen};
  }
}
