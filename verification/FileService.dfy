/** The upload call itself, as the code runs it: save to a temporary file, rename, insert the row,
    and remove the object again if the row cannot be inserted. Every write is also a step of the
    concurrent system, so the invariant of all its runs holds between any two of them, and between any two
    of them other uploads may take steps of their own.
 */
module FileServices {
  import opened Options
  import opened Storage
  import opened Uploads

  /** Which of the calls to the operating system and the database succeed. */
  datatype Faults = Faults(openOk: bool, readOk: nat -> bool, closeOk: bool, renameOk: bool, insertOk: bool,
      removeOk: bool)

  datatype UploadResult = Uploaded(filePath: string) | NameRequired | DangerousType | Failed

  function Concat(chunks: seq<Bytes>): Bytes {
    if chunks == [] then [] else Concat(chunks[..|chunks| - 1]) + chunks[|chunks| - 1]
  }

  lemma {:induction false} ConcatPrefix(chunks: seq<Bytes>, i: nat)
    requires i <= |chunks|
    ensures Concat(chunks[..i]) <= Concat(chunks)
  {
    if i == |chunks| {
      assert chunks[..i] == chunks;
    } else {
      assert chunks[..|chunks| - 1][..i] == chunks[..i];
      ConcatPrefix(chunks[..|chunks| - 1], i);
    }
  }

  lemma ConcatSnoc(chunks: seq<Bytes>, i: nat)
    requires i < |chunks|
    ensures Concat(chunks[..i + 1]) == Concat(chunks[..i]) + chunks[i]
    ensures Concat(chunks[..i]) + chunks[i] <= Concat(chunks)
  {
    assert chunks[..i + 1][..i] == chunks[..i];
    ConcatPrefix(chunks, i + 1);
  }

  lemma NothingConcat(chunks: seq<Bytes>)
    ensures Concat(chunks[..0]) == []
  {
  }

  // ---------------------------------------------------------------- the files of one upload

  /** The object at `p` or a temporary file next to it. */
  predicate OwnPath(p: string, path: string) {
    path == p || p + ".tmp." <= path
  }

  ghost predicate SameFiles(p: string, disk: map<string, Bytes>, disk': map<string, Bytes>) {
    forall path | OwnPath(p, path) :: (path in disk <==> path in disk') && (path in disk ==> disk'[path] == disk[path])
  }

  ghost predicate NoFiles(p: string, disk: map<string, Bytes>) {
    forall path | OwnPath(p, path) :: path !in disk
  }

  /** The one file there is holds exactly these bytes. */
  ghost predicate OneFile(p: string, disk: map<string, Bytes>, path: string, bytes: Bytes) {
    path in disk && disk[path] == bytes && forall path' | OwnPath(p, path') && path' != path :: path' !in disk
  }

  lemma FilesSeen(p: string, disk: map<string, Bytes>, disk': map<string, Bytes>, path: string, bytes: Bytes)
    requires SameFiles(p, disk, disk') && OwnPath(p, path)
    ensures NoFiles(p, disk) ==> NoFiles(p, disk')
    ensures OneFile(p, disk, path, bytes) ==> OneFile(p, disk', path, bytes)
  {
  }

  lemma FilesWritten(p: string, disk: map<string, Bytes>, path: string, bytes: Bytes, bytes': Bytes)
    requires OwnPath(p, path) && (NoFiles(p, disk) || OneFile(p, disk, path, bytes))
    ensures OneFile(p, disk[path := bytes'], path, bytes') && NoFiles(p, disk - {path})
    ensures OneFile(p, (disk - {path})[p := bytes'], p, bytes')
    ensures OneFile(p, disk, path, bytes) ==> NoFiles(p, disk - {path})
  {
  }

  lemma OwnPaths(final: string, rnd: string)
    ensures OwnPath(final, final) && OwnPath(final, TempPath(final, rnd))
  {
    assert final + ".tmp." <= TempPath(final, rnd);
  }

  /** From `t0` on, nobody but this upload took a step. */
  ghost predicate Alone(t0: seq<Event>, trace: seq<Event>, id: Id) {
    t0 <= trace && forall k | |t0| <= k < |trace| :: Concerns(trace[k], id)
  }

  lemma AloneBefore(t0: seq<Event>, before: seq<Event>, trace: seq<Event>, id: Id)
    requires t0 <= before <= trace
    ensures Alone(t0, trace, id) ==> Alone(t0, before, id)
    ensures Alone(t0, trace, id) && (forall k | |before| <= k < |trace| :: !Concerns(trace[k], id)) ==> trace == before
  {
    hide Concerns;
    if Alone(t0, trace, id) {
      forall k | |t0| <= k < |before| ensures Concerns(before[k], id) {
        assert Concerns(trace[k], id);
      }
      if |before| < |trace| {
        assert Concerns(trace[|before|], id);
      }
    }
  }

  class FileService {
    const root: string
    var disk: map<string, Bytes>
    var rows: map<Id, FileRow>
    ghost var flights: map<Id, Stage>
    ghost var asked: map<Id, Request>
    ghost var trace: seq<Event>

    ghost predicate Valid()
      reads this
    {
      Now() == Run(root, trace)
    }

    ghost function Now(): State
      reads this
    {
      State(disk, rows, flights, asked)
    }

    constructor (root: string)
      ensures Valid() && this.root == root && disk == map[] && rows == map[]
    {
      this.root := root;
      disk, rows, flights, asked, trace := map[], map[], map[], map[], [];
    }

    /** Records that the write just made was step `e`. */
    ghost method Mark(e: Event)
      requires var s := Apply(root, Run(root, trace), e); s.disk == disk && s.rows == rows
      modifies this`flights, this`asked, this`trace
      ensures Valid() && trace == old(trace) + [e]
      ensures flights == Run(root, trace).flights && asked == Run(root, trace).asked
    {
      var s := Apply(root, Run(root, trace), e);
      flights, asked := s.flights, s.asked;
      assert (trace + [e])[..|trace|] == trace;
      trace := trace + [e];
    }

    /** Interference: any steps but those of this upload. */
    method Steps(ghost id: Id)
      requires Valid()
      modifies this
      ensures Valid() && old(trace) <= trace && forall k | |old(trace)| <= k < |trace| :: !Concerns(trace[k], id)
    {
    }

    /** Whatever they are, this upload finds its own files, stage and row untouched. */
    method OtherUploads(ghost id: Id, ghost p: string, ghost t0: seq<Event>)
      requires Valid() && id in asked && ValidId(id) && p == FinalPath(root, id, asked[id].name) && t0 <= trace
      modifies this
      ensures Valid() && old(trace) <= trace && id in asked && asked[id] == old(asked[id])
      ensures (id in flights <==> id in old(flights)) && (id in flights ==> flights[id] == old(flights)[id])
      ensures (id in rows <==> id in old(rows)) && (id in rows ==> rows[id] == old(rows)[id])
      ensures SameFiles(p, old(disk), disk)
      ensures Alone(t0, trace, id) ==> Alone(t0, old(trace), id) && trace == old(trace)
                                       && disk == old(disk) && rows == old(rows) && asked == old(asked)
    {
      hide FinalPath, ValidId, Concerns, Alone, Run;
      Steps(id);
      OthersKeepOwn(root, old(trace), trace, id);
      AloneBefore(t0, old(trace), trace, id);
      forall path | OwnPath(p, path) ensures IsPathOf(root, old(asked), id, path) {
      }
    }

    /** os.CreateTemp: an empty file under a name nobody has. */
    method CreateTemp(tmp: string, rnd: string, ghost id: Id)
      requires Valid() && ValidId(id) && id in asked && id in flights && flights[id] == Named
      requires tmp == TempPath(FinalPath(root, id, asked[id].name), rnd) && tmp !in disk
      modifies this`disk, this`flights, this`asked, this`trace
      ensures Valid() && asked == old(asked) && old(trace) <= trace
      ensures disk == old(disk)[tmp := []] && flights == old(flights)[id := Copying(tmp, 0)]
    {
      hide FinalPath;
      disk := disk[tmp := []];
      Mark(Advance(id, OpenTemp(rnd)));
    }

    /** One write of io.Copy. */
    method Append(tmp: string, chunk: Bytes, ghost id: Id)
      requires Valid() && ValidId(id) && id in asked && id in flights && tmp in disk
      requires flights[id] == Copying(tmp, |disk[tmp]|) && disk[tmp] + chunk <= asked[id].content
      modifies this`disk, this`flights, this`asked, this`trace
      ensures Valid() && asked == old(asked) && old(trace) <= trace
      ensures disk == old(disk)[tmp := old(disk[tmp]) + chunk]
      ensures flights == old(flights)[id := Copying(tmp, |old(disk[tmp]) + chunk|)]
    {
      hide FinalPath;
      assert asked[id].content[..|disk[tmp] + chunk|] == disk[tmp] + chunk;
      disk := disk[tmp := disk[tmp] + chunk];
      Mark(Advance(id, Write(|chunk|)));
    }

    /** Closing the complete file and renaming it to its final path. */
    method CloseAndRename(tmp: string, p: string, faults: Faults, ghost id: Id, ghost t0: seq<Event>) returns (ok: bool)
      requires Valid() && ValidId(id) && id in asked && id in flights && id !in rows && t0 <= trace
      requires p == FinalPath(root, id, asked[id].name) && OwnPath(p, tmp) && tmp != p
      requires flights[id] == Copying(tmp, |asked[id].content|) && OneFile(p, disk, tmp, asked[id].content)
      modifies this
      ensures Valid() && old(trace) <= trace && id in asked && asked[id] == old(asked[id]) && id !in rows
      ensures ok ==> id in flights && flights[id] == Stored && OneFile(p, disk, p, asked[id].content)
      ensures !ok ==> id !in flights && NoFiles(p, disk - {tmp}) && (faults.removeOk ==> NoFiles(p, disk))
      ensures Alone(t0, trace, id) ==> && Alone(t0, old(trace), id) && rows == old(rows) && asked == old(asked)
                                       && disk == if ok then (old(disk) - {tmp})[p := asked[id].content]
                                                  else if faults.removeOk then old(disk) - {tmp} else old(disk)
    {
      hide FinalPath, ValidId, Valid, Run, OneFile, NoFiles, SameFiles, OwnPath, Concerns, Alone;
      ghost var content := asked[id].content;
      AloneBefore(t0, trace, trace, id);
      FilesWritten(p, disk, tmp, content, content);
      FileThere(p, disk, tmp, content);
      NoFilesLeft(p, disk - {tmp}, tmp);
      if !faults.closeOk {
        Discard(tmp, faults.removeOk, id);
        AloneBefore(t0, old(trace), trace, id);
        return false;
      }
      CloseTemp(tmp, id);
      ghost var closed := trace;
      OtherUploads(id, p, t0);
      AloneBefore(t0, old(trace), closed, id);
      FilesSeen(p, old(disk), disk, tmp, content);
      FilesWritten(p, disk, tmp, content, content);
      FileThere(p, disk, tmp, content);
      NoFilesLeft(p, disk - {tmp}, tmp);
      ghost var waited := trace;
      if !faults.renameOk {
        Discard(tmp, faults.removeOk, id);
        AloneBefore(t0, waited, trace, id);
        return false;
      }
      Rename(tmp, p, id);
      AloneBefore(t0, waited, trace, id);
      return true;
    }

    method CloseTemp(tmp: string, ghost id: Id)
      requires Valid() && ValidId(id) && id in asked && id in flights
               && flights[id] == Copying(tmp, |asked[id].content|)
      modifies this`flights, this`asked, this`trace
      ensures Valid() && asked == old(asked) && trace == old(trace) + [Advance(id, Close)]
      ensures flights == old(flights)[id := Copied(tmp)]
    {
      hide FinalPath;
      Mark(Advance(id, Close));
    }

    method Rename(tmp: string, p: string, ghost id: Id)
      requires Valid() && ValidId(id) && id in asked && id in flights && flights[id] == Copied(tmp)
      requires tmp in disk && p == FinalPath(root, id, asked[id].name)
      modifies this`disk, this`flights, this`asked, this`trace
      ensures Valid() && asked == old(asked) && trace == old(trace) + [Advance(id, Step.Rename)]
      ensures disk == (old(disk) - {tmp})[p := old(disk)[tmp]] && flights == old(flights)[id := Stored]
    {
      hide FinalPath;
      disk := (disk - {tmp})[p := disk[tmp]];
      Mark(Advance(id, Step.Rename));
    }

    /** io.Copy: chunk by chunk; a reader or writer error ends it and the temporary file is cleaned up. */
    method Copy(tmp: string, p: string, chunks: seq<Bytes>, faults: Faults, ghost id: Id, ghost t0: seq<Event>)
        returns (ok: bool)
      requires Valid() && ValidId(id) && id in asked && id in flights && flights[id] == Copying(tmp, 0) && id !in rows
      requires p == FinalPath(root, id, asked[id].name) && OwnPath(p, tmp) && t0 <= trace
      requires asked[id].content == Concat(chunks) && OneFile(p, disk, tmp, [])
      modifies this
      ensures Valid() && old(trace) <= trace && id in asked && asked[id] == old(asked[id]) && id !in rows
      ensures ok ==> && id in flights && flights[id] == Copying(tmp, |Concat(chunks)|)
                     && OneFile(p, disk, tmp, Concat(chunks))
      ensures !ok ==> id !in flights && NoFiles(p, disk - {tmp}) && (faults.removeOk ==> NoFiles(p, disk))
      ensures Alone(t0, trace, id) ==> && Alone(t0, old(trace), id) && rows == old(rows) && asked == old(asked)
                                       && (ok ==> disk == old(disk)[tmp := Concat(chunks)])
                                       && (!ok && faults.removeOk ==> disk == old(disk) - {tmp})
                                       && (!ok ==> disk - {tmp} == old(disk) - {tmp})
    {
      hide FinalPath, ValidId, Valid, Run, Concat, OwnPath, OneFile, NoFiles, SameFiles, Alone, Concerns;
      AloneBefore(t0, trace, trace, id);
      NothingConcat(chunks);
      FileThere(p, disk, tmp, []);
      for i := 0 to |chunks|
        invariant Valid() && old(trace) <= trace && id in asked && asked[id] == old(asked[id]) && id !in rows
        invariant id in flights && flights[id] == Copying(tmp, |Concat(chunks[..i])|)
        invariant OneFile(p, disk, tmp, Concat(chunks[..i]))
        invariant Alone(t0, trace, id) ==> && Alone(t0, old(trace), id) && rows == old(rows) && asked == old(asked)
                                           && disk == old(disk)[tmp := Concat(chunks[..i])]
      {
        ConcatSnoc(chunks, i);
        ok := CopyChunk(tmp, p, Concat(chunks[..i]), chunks[i], faults.readOk(i), faults.removeOk, id, t0);
        if !ok {
          return;
        }
      }
      assert chunks[..|chunks|] == chunks;
      ok := true;
    }

    /** One round of io.Copy. */
    method CopyChunk(tmp: string, p: string, ghost sofar: Bytes, chunk: Bytes, readOk: bool, removeOk: bool,
                     ghost id: Id, ghost t0: seq<Event>) returns (ok: bool)
      requires Valid() && ValidId(id) && id in asked && id in flights && flights[id] == Copying(tmp, |sofar|)
               && id !in rows
      requires p == FinalPath(root, id, asked[id].name) && OwnPath(p, tmp) && t0 <= trace
      requires sofar + chunk <= asked[id].content && OneFile(p, disk, tmp, sofar)
      modifies this
      ensures Valid() && old(trace) <= trace && id in asked && asked[id] == old(asked[id]) && id !in rows
      ensures ok ==> && id in flights && flights[id] == Copying(tmp, |sofar + chunk|)
                     && OneFile(p, disk, tmp, sofar + chunk)
      ensures !ok ==> id !in flights && NoFiles(p, disk - {tmp}) && (removeOk ==> NoFiles(p, disk))
      ensures Alone(t0, trace, id) ==> && Alone(t0, old(trace), id) && rows == old(rows) && asked == old(asked)
                                       && (ok ==> disk == old(disk)[tmp := sofar + chunk])
                                       && (!ok && removeOk ==> disk == old(disk) - {tmp})
                                       && (!ok ==> disk - {tmp} == old(disk) - {tmp})
    {
      hide FinalPath, ValidId, Valid, Run, OwnPath, OneFile, NoFiles, SameFiles, Alone, Concerns;
      OtherUploads(id, p, t0);
      FilesSeen(p, old(disk), disk, tmp, sofar);
      FileThere(p, disk, tmp, sofar);
      FilesWritten(p, disk, tmp, sofar, sofar + chunk);
      ghost var waited := trace;
      if readOk {
        Append(tmp, chunk, id);
      } else {
        NoFilesLeft(p, disk - {tmp}, tmp);
        Discard(tmp, removeOk, id);
      }
      AloneBefore(t0, waited, trace, id);
      ok := readOk;
    }

    /** Save, from the open temporary file on. */
    method CopyAndRename(tmp: string, p: string, chunks: seq<Bytes>, faults: Faults, ghost id: Id, ghost t0: seq<Event>)
      returns (ok: bool)
      requires Valid() && ValidId(id) && id in asked && id in flights && flights[id] == Copying(tmp, 0) && id !in rows
      requires p == FinalPath(root, id, asked[id].name) && OwnPath(p, tmp) && tmp != p && t0 <= trace
      requires asked[id].content == Concat(chunks) && OneFile(p, disk, tmp, [])
      modifies this
      ensures Valid() && old(trace) <= trace && id in asked && asked[id] == old(asked[id]) && id !in rows
      ensures ok ==> id in flights && flights[id] == Stored && OneFile(p, disk, p, Concat(chunks))
      ensures !ok ==> id !in flights && NoFiles(p, disk - {tmp}) && (faults.removeOk ==> NoFiles(p, disk))
      ensures Alone(t0, trace, id) ==> && Alone(t0, old(trace), id) && rows == old(rows) && asked == old(asked)
                                       && (ok ==> disk == (old(disk) - {tmp})[p := Concat(chunks)])
                                       && (!ok && faults.removeOk ==> disk == old(disk) - {tmp})
                                       && (!ok ==> disk - {tmp} == old(disk) - {tmp})
    {
      hide FinalPath, ValidId, Valid, Run, Concat, OwnPath, OneFile, NoFiles, Alone;
      ok := Copy(tmp, p, chunks, faults, id, t0);
      if ok {
        ok := CloseAndRename(tmp, p, faults, id, t0);
      }
    }

    /** Local.Save: stream into a temporary file next to the object, then rename it into place. Whatever other
        uploads do meanwhile, in the end the only file of this one is the whole object, or there is none but
        a temporary file that could not be removed. With nobody else at work nothing else on the disk changes. */
    method Save(key: string, rnd: string, chunks: seq<Bytes>, faults: Faults, ghost id: Id, ghost t0: seq<Event>)
        returns (ok: bool)
      requires Valid() && ValidId(id) && id in asked && id in flights && flights[id] == Named && id !in rows
               && t0 <= trace
      requires key == UploadKey(id, asked[id].name) && asked[id].content == Concat(chunks)
      requires NoFiles(FinalPath(root, id, asked[id].name), disk)
      modifies this
      ensures Valid() && old(trace) <= trace && id in asked && asked[id] == old(asked[id]) && id !in rows
      ensures StoredAt(root, id, asked[id].name, key, FinalPath(root, id, asked[id].name))
      ensures var p := FinalPath(root, id, asked[id].name);
              && (ok ==> id in flights && flights[id] == Stored && OneFile(p, disk, p, Concat(chunks)))
              && (!ok ==> && id !in flights && NoFiles(p, disk - {TempPath(p, rnd)})
                          && (faults.removeOk ==> NoFiles(p, disk)))
              && (Alone(t0, trace, id) ==> && Alone(t0, old(trace), id) && rows == old(rows) && asked == old(asked)
                                           && (ok ==> disk == old(disk)[p := Concat(chunks)])
                                           && (!ok && faults.removeOk ==> disk == old(disk))
                                           && (!ok ==> disk - {TempPath(p, rnd)} == old(disk)))
    {
      hide FinalPath, UploadKey, ValidId, Resolve, Valid, Run, Concat, TempPath, OwnPath, OneFile, NoFiles, SameFiles,
           Alone, Concerns;
      hide StoredAt;
      AloneBefore(t0, trace, trace, id);
      ValidLength(id);
      UploadPath(root, id, asked[id].name);
      UploadKeyResolves(root, id, asked[id].name);
      var p := Resolve(root, key).value;
      var tmp := TempPath(p, rnd);
      TempIsNotFinal(root, id, asked[id].name, rnd);
      OwnPaths(p, rnd);
      OtherUploads(id, p, t0);
      FilesSeen(p, old(disk), disk, tmp, []);
      NoFileThere(p, disk, tmp);
      ghost var opening := trace;
      NoFilesLeft(p, disk, tmp);
      if !faults.openOk {
        Refuse(id);
        AloneBefore(t0, opening, trace, id);
        return false;
      }
      FilesWritten(p, disk, tmp, [], []);
      CreateTemp(tmp, rnd, id);
      AloneBefore(t0, opening, trace, id);
      ghost var created := trace;
      ok := CopyAndRename(tmp, p, chunks, faults, id, t0);
      AloneBefore(t0, created, trace, id);
    }

    ghost method Refuse(id: Id)
      requires Valid() && ValidId(id) && id in asked && id in flights && flights[id] == Named
      modifies this`flights, this`asked, this`trace
      ensures Valid() && asked == old(asked) && flights == old(flights) - {id} && old(trace) <= trace
    {
      Mark(Advance(id, Abort(true)));
    }

    /** The cleanup of a failed save: the removal of the temporary file may fail too. */
    method Discard(tmp: string, removeOk: bool, ghost id: Id)
      requires Valid() && ValidId(id) && id in asked && id in flights
      requires flights[id] == Copied(tmp) || (flights[id].Copying? && flights[id].tmp == tmp)
      modifies this`disk, this`flights, this`asked, this`trace
      ensures Valid() && asked == old(asked) && flights == old(flights) - {id} && old(trace) <= trace
      ensures disk == if removeOk then old(disk) - {tmp} else old(disk)
    {
      if removeOk {
        disk := disk - {tmp};
      }
      Mark(Advance(id, Abort(removeOk)));
    }

    /** FileService.Upload. A recorded upload adds one object and one row, whole, whatever other uploads do
        meanwhile; any failure leaves no row of it, and no file unless the cleanup itself fails. With nobody
        else at work nothing else changes. */
    method Upload(id: Id, rnd: string, name: string, chunks: seq<Bytes>, faults: Faults) returns (r: UploadResult)
      requires Valid() && ValidId(id) && id !in asked
      modifies this
      ensures Valid() && old(trace) <= trace
      ensures r == NameRequired <==> name == ""
      ensures r == DangerousType <==> name != "" && Denied(name)
      ensures r == NameRequired || r == DangerousType ==> trace == old(trace)
      ensures r.Uploaded? ==> StoredAt(root, id, name, r.filePath, FinalPath(root, id, name))
      ensures var p := FinalPath(root, id, name);
              && (r.Uploaded? ==> && r.filePath == UploadKey(id, name) && id in rows
                                  && rows[id] == FileRow(r.filePath, false)
                                  && OneFile(p, disk, p, Concat(chunks))
                                  && Served(root, Run(root, trace), id) == Some(Concat(chunks)))
              && (!r.Uploaded? ==> id !in rows && (faults.removeOk ==> NoFiles(p, disk)))
              && (Alone(old(trace), trace, id) ==>
                    && (r.Uploaded? ==> && rows == old(rows)[id := FileRow(r.filePath, false)]
                                        && disk == old(disk)[p := Concat(chunks)])
                    && (!r.Uploaded? ==> rows == old(rows) && (faults.removeOk ==> disk == old(disk))))
    {
      hide FinalPath, UploadKey, Served, Concat, Valid, Run, TempPath, OwnPath, OneFile, NoFiles, SameFiles, Alone,
           Concerns;
      ghost var t0 := trace;
      UploadableExactly(name);
      UploadPath(root, id, name);
      hide StoredAt, Denied;
      NothingOf(id, name);
      OwnPaths(FinalPath(root, id, name), "");
      NoFileThere(FinalPath(root, id, name), disk, FinalPath(root, id, name));
      if name == "" {
        return NameRequired;
      }
      var ext := ToLower(FileExt(name));
      if ext in DANGEROUS_EXTENSIONS {
        return DangerousType;
      }
      hide Uploadable;
      Begin(id, Request(name, Concat(chunks)));
      AloneBefore(t0, t0, trace, id);
      var key := UploadKey(id, name);
      var saved := Save(key, rnd, chunks, faults, id, t0);
      if !saved {
        return Failed;
      }
      var recorded := RecordRow(id, key, FinalPath(root, id, name), faults, t0);
      if !recorded {
        return Failed;
      }
      return Uploaded(key);
    }

    /** FileService.Open, up to the bytes. A row without its object is an error of the storage. */
    method Open(id: Id, dbFails: bool) returns (r: Option<Bytes>)
      requires Valid()
      ensures r == if dbFails then None else Served(root, Now(), id)
      ensures !dbFails && id in rows && !rows[id].deleted ==> id in asked && r == Some(asked[id].content)
    {
      hide Resolve;
      if id in rows {
        RowImpliesCompleteObject(root, trace, id);
      }
      if dbFails || id !in rows || rows[id].deleted {
        return None;
      }
      var path := Resolve(root, rows[id].filePath);
      if path.None? || path.value !in disk {
        return None;
      }
      return Some(disk[path.value]);
    }

    /** FileService.SoftDelete: the object stays, but its row no longer serves it. */
    method Delete(id: Id, loadFails: bool, dbFails: bool) returns (found: bool, ok: bool)
      requires Valid()
      modifies this
      ensures Valid() && disk == old(disk)
      ensures found <==> !loadFails && id in old(rows) && !old(rows)[id].deleted
      ensures ok <==> found && !dbFails
      ensures ok ==> Served(root, Now(), id) == None
      ensures rows == if ok then old(rows)[id := FileRow(old(rows)[id].filePath, true)] else old(rows)
    {
      hide Resolve;
      if loadFails || id !in rows || rows[id].deleted {
        return false, false;
      }
      if dbFails {
        return true, false;
      }
      rows := rows[id := rows[id].(deleted := true)];
      Mark(SoftDelete(id));
      return true, true;
    }

    /** An id that was not drawn yet has no row and no file. */
    lemma NothingOf(id: Id, name: string)
      requires Valid() && ValidId(id) && id !in asked
      ensures id !in rows && NoFiles(FinalPath(root, id, name), disk)
    {
      hide FinalPath;
      RunInv(root, trace);
      FreshId(root, Run(root, trace), id, Request(name, []));
      forall path | OwnPath(FinalPath(root, id, name), path)
        ensures IsPathOf(root, asked[id := Request(name, [])], id, path)
      {
      }
    }

    ghost method Begin(id: Id, request: Request)
      requires Valid() && ValidId(id) && id !in asked && Uploadable(request.name)
      modifies this`flights, this`asked, this`trace
      ensures Valid() && trace == old(trace) + [Start(id, request)]
      ensures asked == old(asked)[id := request] && flights == old(flights)[id := Named]
    {
      Mark(Start(id, request));
    }

    /** Inserting the row, or removing the object again when that fails. */
    method RecordRow(id: Id, key: string, p: string, faults: Faults, ghost t0: seq<Event>) returns (ok: bool)
      requires Valid() && ValidId(id) && id in asked && id in flights && flights[id] == Stored && id !in rows
               && t0 <= trace
      requires key == UploadKey(id, asked[id].name) && p == FinalPath(root, id, asked[id].name)
      requires OneFile(p, disk, p, asked[id].content)
      modifies this
      ensures Valid() && old(trace) <= trace
      ensures ok ==> && id in rows && rows[id] == FileRow(key, false) && OneFile(p, disk, p, old(asked[id]).content)
                     && Served(root, Run(root, trace), id) == Some(old(asked[id]).content)
      ensures !ok ==> id !in rows && (faults.removeOk ==> NoFiles(p, disk))
      ensures Alone(t0, trace, id) ==> && Alone(t0, old(trace), id)
                                       && rows == (if ok then old(rows)[id := FileRow(key, false)] else old(rows))
                                       && disk == if !ok && faults.removeOk then old(disk) - {p} else old(disk)
    {
      hide FinalPath, UploadKey, Served, Resolve, Valid, Run, ValidId, OwnPath, OneFile, NoFiles, SameFiles, Alone,
           Concerns;
      ghost var content := asked[id].content;
      OwnPaths(p, "");
      OtherUploads(id, p, t0);
      FilesSeen(p, old(disk), disk, p, content);
      ghost var waited := trace;
      if faults.insertOk {
        InsertRow(id, key);
        AloneBefore(t0, waited, trace, id);
        return true;
      }
      ghost var disk' := disk;
      FailRow(id);
      ghost var failed := trace;
      OtherUploads(id, p, t0);
      AloneBefore(t0, waited, failed, id);
      FilesSeen(p, disk', disk, p, content);
      FilesWritten(p, disk, p, content, content);
      ghost var waited' := trace;
      RemoveObject(id, key, faults.removeOk);
      AloneBefore(t0, waited', trace, id);
      return false;
    }

    /** CreateFile. */
    method InsertRow(id: Id, key: string)
      requires Valid() && ValidId(id) && id in asked && id in flights && flights[id] == Stored && id !in rows
      requires key == UploadKey(id, asked[id].name)
      modifies this`rows, this`flights, this`asked, this`trace
      ensures Valid() && trace == old(trace) + [Advance(id, Record)]
      ensures rows == old(rows)[id := FileRow(key, false)]
      ensures Served(root, Run(root, trace), id) == Some(old(asked[id]).content)
    {
      hide FinalPath, UploadKey, Served, Resolve;
      rows := rows[id := FileRow(key, false)];
      Mark(Advance(id, Record));
      RowImpliesCompleteObject(root, trace, id);
    }

    ghost method FailRow(id: Id)
      requires Valid() && ValidId(id) && id in asked && id in flights && flights[id] == Stored
      modifies this`flights, this`asked, this`trace
      ensures Valid() && trace == old(trace) + [Advance(id, RecordFails)]
      ensures asked == old(asked) && flights == old(flights)[id := Unrecorded]
    {
      hide FinalPath, UploadKey;
      Mark(Advance(id, RecordFails));
    }

    /** Local.Delete, best effort. */
    method RemoveObject(id: Id, key: string, removeOk: bool)
      requires Valid() && ValidId(id) && id in asked && id in flights && flights[id] == Unrecorded
      requires key == UploadKey(id, asked[id].name)
      modifies this`disk, this`flights, this`asked, this`trace
      ensures Valid() && trace == old(trace) + [Advance(id, Compensate(removeOk))]
      ensures disk == if removeOk then old(disk) - {FinalPath(root, id, old(asked[id]).name)} else old(disk)
    {
      hide FinalPath, UploadKey, Resolve;
      if removeOk {
        UploadKeyResolves(root, id, asked[id].name);
        disk := disk - {Resolve(root, key).value};
      }
      Mark(Advance(id, Compensate(removeOk)));
    }
  }

  lemma FileThere(p: string, disk: map<string, Bytes>, path: string, bytes: Bytes)
    requires OneFile(p, disk, path, bytes)
    ensures path in disk && disk[path] == bytes
  {
  }

  lemma NoFileThere(p: string, disk: map<string, Bytes>, path: string)
    requires NoFiles(p, disk) && OwnPath(p, path)
    ensures path !in disk
  {
  }

  lemma NoFilesLeft(p: string, disk: map<string, Bytes>, path: string)
    requires NoFiles(p, disk)
    ensures NoFiles(p, disk - {path})
  {
  }

  lemma ValidLength(id: Id)
    ensures ValidId(id) ==> |id| >= 2
  {
  }

  lemma TempIsNotFinal(root: string, id: Id, name: string, rnd: string)
    requires ValidId(id)
    ensures TempPath(FinalPath(root, id, name), rnd) != FinalPath(root, id, name)
  {
    PathsAreDisjoint(root, id, name, rnd, id, name, "");
  }
}
