/** Concurrent uploads as a step system: any number of uploads are under way, each step of each may
    interleave with any other, any call may fail where the real one can, and the process may stop
    after any step, leaving only the disk and the file table.
 */
module Uploads {
  import opened Options
  import opened Storage

  type Id = string
  type Bytes = seq<bv8>

  /** A row of the file table, as far as serving the file needs it. */
  datatype FileRow = FileRow(filePath: string, deleted: bool)
  /** What one upload call was asked to store. */
  datatype Request = Request(name: string, content: Bytes)
  datatype Stage =
    | Named                              // the id is drawn and the extension accepted
    | Copying(tmp: string, written: nat) // the temporary file is open
    | Copied(tmp: string)                // it is complete and closed
    | Stored                             // it has been renamed to the final path
    | Unrecorded                         // the row could not be inserted

  datatype State = State(disk: map<string, Bytes>, rows: map<Id, FileRow>,
                         flights: map<Id, Stage>, asked: map<Id, Request>)

  /** One step of an upload under way. */
  datatype Step =
    | OpenTemp(rnd: string)
    | Write(n: nat)
    | Close
    | Rename
    | Abort(removed: bool)       // Save failed; the temporary file may survive the cleanup
    | Record
    | RecordFails
    | Compensate(removed: bool)  // best-effort removal of the object without a row

  datatype Event =
    | Start(id: Id, upload: Request)
    | Advance(id: Id, step: Step)
    | SoftDelete(id: Id)
    | Crash

  const EMPTY := State(map[], map[], map[], map[])

  function Final(root: string, asked: map<Id, Request>, id: Id): string
    requires id in asked && ValidId(id)
  {
    FinalPath(root, id, asked[id].name)
  }

  /** An event that cannot happen in a state leaves it alone. */
  function Apply(root: string, s: State, e: Event): State {
    match e
    case Start(id, u) =>
      if ValidId(id) && id !in s.asked && Uploadable(u.name)
      then s.(asked := s.asked[id := u], flights := s.flights[id := Named]) else s
    case Advance(id, step) =>
      if id in s.flights && id in s.asked && ValidId(id) then NextStep(root, s, id, step) else s
    case SoftDelete(id) =>
      if id in s.rows then s.(rows := s.rows[id := s.rows[id].(deleted := true)]) else s
    case Crash => s.(flights := map[])
  }

  function NextStep(root: string, s: State, id: Id, step: Step): State
    requires id in s.flights && id in s.asked && ValidId(id)
  {
    var final, content := Final(root, s.asked, id), s.asked[id].content;
    match (s.flights[id], step)
    case (Named, OpenTemp(rnd)) =>
      var tmp := TempPath(final, rnd);
      if tmp in s.disk then s else Moved(s, id, Copying(tmp, 0), s.disk[tmp := []])
    case (Copying(tmp, written), Write(n)) =>
      if written + n > |content| then s
      else Moved(s, id, Copying(tmp, written + n), s.disk[tmp := content[..written + n]])
    case (Copying(tmp, written), Close) =>
      if written < |content| then s else Moved(s, id, Copied(tmp), s.disk)
    case (Copied(tmp), Rename) =>
      if tmp !in s.disk then s else Moved(s, id, Stored, (s.disk - {tmp})[final := s.disk[tmp]])
    case (Named, Abort(_)) => Ended(s, id, s.disk)
    case (Copying(tmp, _), Abort(removed)) => Ended(s, id, if removed then s.disk - {tmp} else s.disk)
    case (Copied(tmp), Abort(removed)) => Ended(s, id, if removed then s.disk - {tmp} else s.disk)
    case (Stored, Record) =>
      if id in s.rows then s
      else Ended(s, id, s.disk).(rows := s.rows[id := FileRow(UploadKey(id, s.asked[id].name), false)])
    case (Stored, RecordFails) => Moved(s, id, Unrecorded, s.disk)
    case (Unrecorded, Compensate(removed)) => Ended(s, id, if removed then s.disk - {final} else s.disk)
    case _ => s
  }

  function Moved(s: State, id: Id, stage: Stage, disk: map<string, Bytes>): State {
    s.(disk := disk, flights := s.flights[id := stage])
  }

  function Ended(s: State, id: Id, disk: map<string, Bytes>): State {
    s.(disk := disk, flights := s.flights - {id})
  }

  /** The state after a run of steps on an empty store. */
  function Run(root: string, events: seq<Event>): State {
    if events == [] then EMPTY else Apply(root, Run(root, events[..|events| - 1]), events[|events| - 1])
  }

  // ---------------------------------------------------------------- the invariant

  predicate IsTempOf(root: string, asked: map<Id, Request>, id: Id, path: string)
    requires id in asked && ValidId(id)
  {
    var mark := Final(root, asked, id) + ".tmp.";
    mark <= path
  }

  predicate IsPathOf(root: string, asked: map<Id, Request>, id: Id, path: string)
    requires id in asked && ValidId(id)
  {
    path == Final(root, asked, id) || IsTempOf(root, asked, id, path)
  }

  ghost predicate NoPathOf(root: string, asked: map<Id, Request>, id: Id, disk: map<string, Bytes>)
    requires id in asked && ValidId(id)
  {
    forall path | IsPathOf(root, asked, id, path) :: path !in disk
  }

  /** Whatever is at a final path is complete. */
  ghost predicate NoPartialObjects(root: string, asked: map<Id, Request>, disk: map<string, Bytes>) {
    forall id | id in asked && ValidId(id) && Final(root, asked, id) in disk ::
      disk[Final(root, asked, id)] == asked[id].content
  }

  /** Every row's object is there, complete, and no step of that upload is left to run. */
  ghost predicate RowOk(root: string, s: State, id: Id)
    requires id in s.rows
  {
    && id in s.asked && ValidId(id) && id !in s.flights
    && s.rows[id].filePath == UploadKey(id, s.asked[id].name)
    && Final(root, s.asked, id) in s.disk
  }

  ghost predicate FlightOk(root: string, s: State, id: Id)
    requires id in s.flights
  {
    && id in s.asked && ValidId(id)
    && match s.flights[id]
       case Named => true
       case Copying(tmp, written) =>
         IsTempOf(root, s.asked, id, tmp) && tmp in s.disk
         && written <= |s.asked[id].content| && s.disk[tmp] == s.asked[id].content[..written]
       case Copied(tmp) => IsTempOf(root, s.asked, id, tmp) && tmp in s.disk && s.disk[tmp] == s.asked[id].content
       case Stored => Final(root, s.asked, id) in s.disk
       case Unrecorded => true
  }

  /** Nothing is on the disk that no upload put there. */
  ghost predicate DiskAccounted(root: string, asked: map<Id, Request>, disk: map<string, Bytes>) {
    forall path | path in disk ::
      exists id :: id in asked && ValidId(id) && (path == Final(root, asked, id) || IsTempOf(root, asked, id, path))
  }

  ghost predicate Inv(root: string, s: State) {
    && NoPartialObjects(root, s.asked, s.disk) && DiskAccounted(root, s.asked, s.disk)
    && (forall id | id in s.flights :: FlightOk(root, s, id))
    && (forall id | id in s.rows :: RowOk(root, s, id))
  }

  lemma TempsAreNotFinals(root: string, s: State, id: Id, id': Id, path: string)
    requires id in s.asked && ValidId(id) && id' in s.asked && ValidId(id') && IsTempOf(root, s.asked, id, path)
    ensures path != Final(root, s.asked, id')
    ensures IsTempOf(root, s.asked, id', path) ==> id == id'
  {
    hide FinalPath, ValidId;
    var p, p' := Final(root, s.asked, id), Final(root, s.asked, id');
    var rnd := path[|p| + 5..];
    assert path == TempPath(p, rnd);
    if IsTempOf(root, s.asked, id', path) {
      var rnd' := path[|p'| + 5..];
      assert path == TempPath(p', rnd');
      PathsAreDisjoint(root, id, s.asked[id].name, rnd, id', s.asked[id'].name, rnd');
    }
    PathsAreDisjoint(root, id, s.asked[id].name, rnd, id', s.asked[id'].name, "");
  }

  lemma FinalsAreDistinct(root: string, s: State, id: Id, id': Id)
    requires id in s.asked && ValidId(id) && id' in s.asked && ValidId(id') && id != id'
    ensures Final(root, s.asked, id) != Final(root, s.asked, id')
  {
    PathsAreDisjoint(root, id, s.asked[id].name, "", id', s.asked[id'].name, "");
  }

  lemma PathsApart(root: string, s: State, id: Id, id': Id, path: string)
    requires id in s.asked && ValidId(id) && id' in s.asked && ValidId(id') && id != id'
             && IsPathOf(root, s.asked, id, path)
    ensures !IsPathOf(root, s.asked, id', path)
  {
    hide FinalPath;
    FinalsAreDistinct(root, s, id, id');
    if IsTempOf(root, s.asked, id, path) {
      TempsAreNotFinals(root, s, id, id', path);
    } else if IsTempOf(root, s.asked, id', path) {
      TempsAreNotFinals(root, s, id', id, path);
    }
  }

  // ---------------------------------------------------------------- every step keeps it

  /** Nothing is different but at the two kinds of path of upload `id`. */
  ghost predicate DiskLocal(root: string, asked: map<Id, Request>, id: Id, disk: map<string, Bytes>,
      disk': map<string, Bytes>)
    requires id in asked && ValidId(id)
  {
    forall path | !IsPathOf(root, asked, id, path) ::
      (path in disk <==> path in disk') && (path in disk ==> disk[path] == disk'[path])
  }

  /** What a step of upload `id` may touch: its own paths, its stage and its row. */
  ghost predicate Local(root: string, s: State, s': State, id: Id)
    requires id in s.asked && ValidId(id)
  {
    && s'.asked == s.asked
    && DiskLocal(root, s.asked, id, s.disk, s'.disk)
    && (forall id' | id' != id :: (id' in s.flights <==> id' in s'.flights)
                                  && (id' in s.flights ==> s.flights[id'] == s'.flights[id']))
    && (forall id' | id' != id :: (id' in s.rows <==> id' in s'.rows)
                                  && (id' in s.rows ==> s.rows[id'] == s'.rows[id']))
  }

  lemma OthersUntouched(root: string, s: State, s': State, id: Id, id': Id)
    requires id in s.asked && ValidId(id) && id' in s.asked && ValidId(id') && id != id' && Local(root, s, s', id)
    ensures (Final(root, s.asked, id') in s.disk <==> Final(root, s.asked, id') in s'.disk)
            && (Final(root, s.asked, id') in s.disk
               ==> s.disk[Final(root, s.asked, id')] == s'.disk[Final(root, s.asked, id')])
    ensures id' in s.flights && FlightOk(root, s, id') ==> FlightOk(root, s', id')
  {
    hide FinalPath;
    FinalsAreDistinct(root, s, id, id');
    if IsTempOf(root, s.asked, id, Final(root, s.asked, id')) {
      TempsAreNotFinals(root, s, id, id', Final(root, s.asked, id'));
    }
    if id' in s.flights && FlightOk(root, s, id') && (s.flights[id'].Copying? || s.flights[id'].Copied?) {
      TempsAreNotFinals(root, s, id', id, s.flights[id'].tmp);
    }
  }

  lemma FlightIsAsked(root: string, s: State, id: Id, id': Id)
    requires Inv(root, s) && (id' in s.flights || id' == id) && id in s.asked && ValidId(id)
    ensures id' in s.asked && ValidId(id')
  {
  }

  /** The own half of the invariant of upload `id`. */
  ghost predicate OwnOk(root: string, s: State, id: Id) {
    && id in s.asked && ValidId(id)
    && (Final(root, s.asked, id) in s.disk ==> s.disk[Final(root, s.asked, id)] == s.asked[id].content)
    && (id in s.flights ==> FlightOk(root, s, id))
    && (id in s.rows ==> RowOk(root, s, id))
  }

  lemma LocalKeepsInv(root: string, s: State, s': State, id: Id)
    requires Inv(root, s) && id in s.asked && ValidId(id) && Local(root, s, s', id) && OwnOk(root, s', id)
    ensures Inv(root, s')
  {
    hide FinalPath, IsTempOf, FlightOk;
    forall id' | id' in s'.asked && ValidId(id') ensures OwnOk(root, s', id') {
      if id' != id {
        OthersUntouched(root, s, s', id, id');
      }
    }
    forall id' | id' in s'.flights ensures FlightOk(root, s', id') {
      assert id' in s.flights || id' == id;
      assert id' in s.flights ==> FlightOk(root, s, id');
      FlightIsAsked(root, s, id, id');
      assert OwnOk(root, s', id');
    }
    forall id' | id' in s'.rows ensures RowOk(root, s', id') {
      assert id' in s.rows || id' == id;
      assert OwnOk(root, s', id');
    }
    DiskStaysAccounted(root, s, s', id);
  }

  lemma DiskStaysAccounted(root: string, s: State, s': State, id: Id)
    requires DiskAccounted(root, s.asked, s.disk) && id in s.asked && ValidId(id) && Local(root, s, s', id)
    ensures DiskAccounted(root, s'.asked, s'.disk)
  {
    hide FinalPath;
    forall path | path in s'.disk
      ensures exists id' :: id' in s.asked && ValidId(id')
                            && (path == Final(root, s'.asked, id') || IsTempOf(root, s'.asked, id', path))
    {
      if !IsPathOf(root, s.asked, id, path) {
        var id' :| id' in s.asked && ValidId(id')
                   && (path == Final(root, s.asked, id') || IsTempOf(root, s.asked, id', path));
        assert path == Final(root, s'.asked, id') || IsTempOf(root, s'.asked, id', path);
      } else {
        assert path == Final(root, s'.asked, id) || IsTempOf(root, s'.asked, id, path);
      }
    }
  }

  lemma OwnDiskSteps(root: string, asked: map<Id, Request>, id: Id, disk: map<string, Bytes>, path: string,
      bytes: Bytes)
    requires id in asked && ValidId(id) && IsPathOf(root, asked, id, path)
    ensures DiskLocal(root, asked, id, disk, disk) && DiskLocal(root, asked, id, disk, disk - {path})
    ensures DiskLocal(root, asked, id, disk, disk[path := bytes])
    ensures DiskLocal(root, asked, id, disk, (disk - {path})[Final(root, asked, id) := bytes])
  {
  }

  lemma StepIsLocal(root: string, s: State, id: Id, step: Step)
    requires id in s.flights && FlightOk(root, s, id)
    ensures Local(root, s, NextStep(root, s, id, step), id)
  {
    hide FinalPath, UploadKey, DiskLocal;
    var final, content := Final(root, s.asked, id), s.asked[id].content;
    OwnDiskSteps(root, s.asked, id, s.disk, final, []);
    match (s.flights[id], step)
    case (Named, OpenTemp(rnd)) =>
      assert final + ".tmp." <= TempPath(final, rnd);
      OwnDiskSteps(root, s.asked, id, s.disk, TempPath(final, rnd), []);
    case (Copying(tmp, written), Write(n)) =>
      if written + n <= |content| {
        OwnDiskSteps(root, s.asked, id, s.disk, tmp, content[..written + n]);
      }
    case (Copying(tmp, _), Abort(_)) => OwnDiskSteps(root, s.asked, id, s.disk, tmp, []);
    case (Copied(tmp), _) => OwnDiskSteps(root, s.asked, id, s.disk, tmp, s.disk[tmp]);
    case _ =>
  }

  lemma StepKeepsOwn(root: string, s: State, id: Id, step: Step)
    requires id in s.flights && id in s.asked && ValidId(id) && OwnOk(root, s, id)
    ensures OwnOk(root, NextStep(root, s, id, step), id)
  {
    hide FinalPath, UploadKey;
    var final := Final(root, s.asked, id);
    if s.flights[id].Copying? || s.flights[id].Copied? {
      TempsAreNotFinals(root, s, id, id, s.flights[id].tmp);
    }
    if step.OpenTemp? {
      assert final + ".tmp." <= TempPath(final, step.rnd);
      TempsAreNotFinals(root, s, id, id, TempPath(final, step.rnd));
    }
  }

  lemma OwnHalf(root: string, s: State, id: Id)
    requires Inv(root, s) && id in s.asked && ValidId(id)
    ensures OwnOk(root, s, id)
  {
  }

  lemma ApplyKeepsInv(root: string, s: State, e: Event)
    requires Inv(root, s)
    ensures Inv(root, Apply(root, s, e))
  {
    hide FinalPath, UploadKey, NextStep, Inv, Local, OwnOk, Uploadable, ValidId;
    match e
    case Advance(id, step) =>
      if id in s.flights && id in s.asked && ValidId(id) {
        OwnHalf(root, s, id);
        StepIsLocal(root, s, id, step);
        StepKeepsOwn(root, s, id, step);
        LocalKeepsInv(root, s, NextStep(root, s, id, step), id);
      }
    case Start(id, u) =>
      if ValidId(id) && id !in s.asked {
        StartKeepsInv(root, s, id, u);
      }
    case SoftDelete(id) => SoftDeleteKeepsInv(root, s, id);
    case Crash => CrashKeepsInv(root, s);
  }

  lemma SoftDeleteKeepsInv(root: string, s: State, id: Id)
    requires Inv(root, s)
    ensures Inv(root, Apply(root, s, SoftDelete(id)))
  {
    hide FinalPath, UploadKey, IsTempOf;
    var s' := Apply(root, s, SoftDelete(id));
    forall id' | id' in s'.rows ensures RowOk(root, s', id') {
      assert RowOk(root, s, id');
    }
    forall id' | id' in s'.flights ensures FlightOk(root, s', id') {
      assert FlightOk(root, s, id');
    }
  }

  lemma CrashKeepsInv(root: string, s: State)
    requires Inv(root, s)
    ensures Inv(root, Apply(root, s, Crash))
  {
    hide FinalPath, UploadKey, IsTempOf;
    var s' := Apply(root, s, Crash);
    forall id' | id' in s'.rows ensures RowOk(root, s', id') {
      assert RowOk(root, s, id');
    }
  }

  /** A fresh id has no row, no stage and nothing on the disk. */
  lemma FreshId(root: string, s: State, id: Id, u: Request)
    requires Inv(root, s) && ValidId(id) && id !in s.asked
    ensures id !in s.rows && id !in s.flights && NoPathOf(root, s.asked[id := u], id, s.disk)
  {
    hide FinalPath, UploadKey;
    var s' := s.(asked := s.asked[id := u]);
    assert id in s.rows ==> RowOk(root, s, id);
    assert id in s.flights ==> FlightOk(root, s, id);
    forall path | IsPathOf(root, s'.asked, id, path) ensures path !in s.disk {
      if path in s.disk {
        var id' :| id' in s.asked && ValidId(id')
                   && (path == Final(root, s.asked, id') || IsTempOf(root, s.asked, id', path));
        assert IsPathOf(root, s'.asked, id', path);
        PathsApart(root, s', id, id', path);
      }
    }
  }

  /** Drawing an id is a local change of the state in which it is known. */
  lemma StartKeepsInv(root: string, s: State, id: Id, u: Request)
    requires Inv(root, s) && ValidId(id) && id !in s.asked
    ensures Inv(root, s.(asked := s.asked[id := u], flights := s.flights[id := Named]))
  {
    hide FinalPath, UploadKey, Inv, ValidId;
    var s1 := s.(asked := s.asked[id := u]);
    var s' := s1.(flights := s1.flights[id := Named]);
    FreshId(root, s, id, u);
    AskKeepsInv(root, s, id, u);
    LocalKeepsInv(root, s1, s', id);
    assert s' == s.(asked := s.asked[id := u], flights := s.flights[id := Named]);
  }

  lemma AskKeepsInv(root: string, s: State, id: Id, u: Request)
    requires Inv(root, s) && ValidId(id) && id !in s.asked
    ensures Inv(root, s.(asked := s.asked[id := u]))
  {
    hide FinalPath, UploadKey, ValidId, DiskAccounted;
    var s' := s.(asked := s.asked[id := u]);
    FreshId(root, s, id, u);
    forall id' | id' in s'.flights ensures FlightOk(root, s', id') {
      assert FlightOk(root, s, id');
    }
    forall id' | id' in s'.rows ensures RowOk(root, s', id') {
      assert RowOk(root, s, id');
    }
    AskKeepsDisk(root, s, id, u);
  }

  lemma AskKeepsDisk(root: string, s: State, id: Id, u: Request)
    requires DiskAccounted(root, s.asked, s.disk) && id !in s.asked
    ensures DiskAccounted(root, s.asked[id := u], s.disk)
  {
    hide FinalPath, UploadKey, ValidId;
    var s' := s.(asked := s.asked[id := u]);
    forall path | path in s'.disk
      ensures exists id' :: id' in s'.asked && ValidId(id')
                            && (path == Final(root, s'.asked, id') || IsTempOf(root, s'.asked, id', path))
    {
      var id' :| id' in s.asked && ValidId(id')
                 && (path == Final(root, s.asked, id') || IsTempOf(root, s.asked, id', path));
      assert path == Final(root, s'.asked, id') || IsTempOf(root, s'.asked, id', path);
    }
  }

  lemma {:induction false} RunInv(root: string, events: seq<Event>)
    ensures Inv(root, Run(root, events))
  {
    hide Inv;
    if events == [] {
      EmptyInv(root);
    } else {
      RunInv(root, events[..|events| - 1]);
      ApplyKeepsInv(root, Run(root, events[..|events| - 1]), events[|events| - 1]);
    }
  }

  lemma EmptyInv(root: string)
    ensures Inv(root, EMPTY)
  {
  }

  // ---------------------------------------------------------------- what every run guarantees

  /** FileService.Open, up to the bytes served. */
  function Served(root: string, s: State, id: Id): Option<Bytes> {
    if id !in s.rows || s.rows[id].deleted then None
    else match Resolve(root, s.rows[id].filePath)
      case None => None
      case Some(path) => if path in s.disk then Some(s.disk[path]) else None
  }

  /** Theorem: in every reachable state, crashes included, the path of every row resolves to an
      object holding exactly the bytes of that upload, so every live row is served in full. */
  lemma RowImpliesCompleteObject(root: string, events: seq<Event>, id: Id)
    requires id in Run(root, events).rows
    ensures var s := Run(root, events);
            && id in s.asked
            && (var path := Resolve(root, s.rows[id].filePath);
                path.Some? && path.value in s.disk && s.disk[path.value] == s.asked[id].content)
            && (!s.rows[id].deleted ==> Served(root, s, id) == Some(s.asked[id].content))
  {
    hide FinalPath, UploadKey, Resolve;
    RunInv(root, events);
    var s := Run(root, events);
    assert RowOk(root, s, id);
    UploadKeyResolves(root, id, s.asked[id].name);
  }

  /** Theorem: no reachable state has anything but a complete object at a final path. */
  lemma NoPartialObjectEver(root: string, events: seq<Event>, id: Id)
    requires ValidId(id) && id in Run(root, events).asked
    ensures var s := Run(root, events);
            FinalPath(root, id, s.asked[id].name) in s.disk ==>
              s.disk[FinalPath(root, id, s.asked[id].name)] == s.asked[id].content
  {
    RunInv(root, events);
    assert Final(root, Run(root, events).asked, id) == FinalPath(root, id, Run(root, events).asked[id].name);
  }

  // ---------------------------------------------------------------- uploads do not see each other

  /** The event is a step of this upload, or ends the process. */
  predicate Concerns(e: Event, id: Id) {
    match e
    case Start(id', _) => id' == id
    case Advance(id', _) => id' == id
    case SoftDelete(id') => id' == id
    case Crash => true
  }

  /** For upload `id` nothing has changed. */
  ghost predicate OwnSame(root: string, s: State, s': State, id: Id) {
    && id in s.asked && id in s'.asked && ValidId(id) && s'.asked[id] == s.asked[id]
    && (id in s.flights <==> id in s'.flights) && (id in s.flights ==> s'.flights[id] == s.flights[id])
    && (id in s.rows <==> id in s'.rows) && (id in s.rows ==> s'.rows[id] == s.rows[id])
    && forall path | IsPathOf(root, s.asked, id, path) ::
         (path in s.disk <==> path in s'.disk) && (path in s.disk ==> s'.disk[path] == s.disk[path])
  }

  lemma OtherStepKeepsOwn(root: string, s: State, e: Event, id: Id)
    requires Inv(root, s) && id in s.asked && ValidId(id) && !Concerns(e, id)
    ensures OwnSame(root, s, Apply(root, s, e), id)
  {
    hide FinalPath, UploadKey, IsTempOf, NextStep, NoPartialObjects, DiskAccounted, RowOk, Uploadable, ValidId;
    match e
    case Start(_, _) =>
    case SoftDelete(_) =>
    case Crash =>
    case Advance(id', step) =>
      if id' in s.flights {
        assert FlightOk(root, s, id');
        hide FlightOk;
        StepIsLocal(root, s, id', step);
        forall path | IsPathOf(root, s.asked, id, path) ensures !IsPathOf(root, s.asked, id', path) {
          PathsApart(root, s, id, id', path);
        }
      }
  }

  /** Theorem: whatever steps other uploads take, an upload finds its own files, stage and row as it left them. */
  lemma {:induction false} OthersKeepOwn(root: string, before: seq<Event>, events: seq<Event>, id: Id)
    requires before <= events && id in Run(root, before).asked && ValidId(id)
    requires forall k | |before| <= k < |events| :: !Concerns(events[k], id)
    ensures OwnSame(root, Run(root, before), Run(root, events), id)
  {
    hide Apply, Concerns, Inv, IsPathOf, ValidId;
    if before != events {
      var front := events[..|events| - 1];
      OthersKeepOwn(root, before, front, id);
      RunInv(root, front);
      OtherStepKeepsOwn(root, Run(root, front), events[|events| - 1], id);
      SamePaths(root, Run(root, before).asked, Run(root, front).asked, id);
    }
  }

  lemma SamePaths(root: string, asked: map<Id, Request>, asked': map<Id, Request>, id: Id)
    requires id in asked && id in asked' && ValidId(id) && asked[id] == asked'[id]
    ensures forall path :: IsPathOf(root, asked, id, path) <==> IsPathOf(root, asked', id, path)
  {
  }

  // ---------------------------------------------------------------- what is served

  lemma RowsStay(root: string, s: State, e: Event, id: Id)
    requires id in s.rows
    ensures var s' := Apply(root, s, e);
            id in s'.rows && s'.rows[id].filePath == s.rows[id].filePath
            && s'.rows[id].deleted == (s.rows[id].deleted || e == SoftDelete(id))
  {
    hide FinalPath, UploadKey, Uploadable, ValidId;
  }

  /** A row is deleted from the first deletion after it was recorded on, and not before. */
  lemma {:induction false} DeletedSince(root: string, events: seq<Event>, k: nat, id: Id)
    requires k <= |events| && id in Run(root, events[..k]).rows
    ensures var row, row' := Run(root, events[..k]).rows[id], Run(root, events).rows;
            id in row' && (row'[id].deleted <==> row.deleted || SoftDelete(id) in events[k..])
  {
    if k == |events| {
      assert events[..k] == events;
    } else {
      hide Apply;
      var front, last := events[..|events| - 1], events[|events| - 1];
      assert front[..k] == events[..k] && events[k..] == front[k..] + [last];
      DeletedSince(root, front, k, id);
      RowsStay(root, Run(root, front), last, id);
    }
  }

  /** Theorem: an upload that was recorded is served, in full, until somebody deletes it, and never after; whatever
      else is uploaded or deleted, and whenever the process is stopped. */
  lemma ServedUntilDeleted(root: string, events: seq<Event>, k: nat, id: Id)
    requires k <= |events| && id in Run(root, events[..k]).rows && !Run(root, events[..k]).rows[id].deleted
    ensures id in Run(root, events).asked
    ensures Served(root, Run(root, events), id) ==
            if SoftDelete(id) in events[k..] then None else Some(Run(root, events).asked[id].content)
  {
    hide Run, Resolve;
    DeletedSince(root, events, k, id);
    RowImpliesCompleteObject(root, events, id);
  }

  // ---------------------------------------------------------------- what never gets a row

  lemma StepKeepsAsked(root: string, s: State, e: Event, id: Id)
    requires id in s.asked ==> !Denied(s.asked[id].name) && s.asked[id].name != ""
    ensures var s' := Apply(root, s, e); id in s'.asked ==> !Denied(s'.asked[id].name) && s'.asked[id].name != ""
    ensures id in s.asked ==> id in Apply(root, s, e).asked
  {
    hide FinalPath, UploadKey, Uploadable, ValidId, Denied;
    if e.Start? {
      UploadableExactly(e.upload.name);
    }
  }

  /** Theorem: in every reachable state an upload that was started has a name, without a denied extension. */
  lemma {:induction false} NoDeniedUpload(root: string, events: seq<Event>, id: Id)
    requires id in Run(root, events).asked
    ensures Run(root, events).asked[id].name != "" && !Denied(Run(root, events).asked[id].name)
  {
    if events != [] {
      hide Apply, Denied;
      var front := events[..|events| - 1];
      if id in Run(root, front).asked {
        NoDeniedUpload(root, front, id);
      }
      StepKeepsAsked(root, Run(root, front), events[|events| - 1], id);
    }
  }

  /** Nothing is under way for an upload that was started, and it has no row. */
  predicate Forgotten(s: State, id: Id) {
    id in s.asked && id !in s.flights && id !in s.rows
  }

  lemma StaysForgotten(root: string, s: State, e: Event, id: Id)
    requires Forgotten(s, id)
    ensures Forgotten(Apply(root, s, e), id)
  {
    hide FinalPath, UploadKey, Uploadable, ValidId;
  }

  /** Theorem: an upload without a row when the process stops never gets one. */
  lemma {:induction false} CrashForgets(root: string, events: seq<Event>, k: nat, id: Id)
    requires k < |events| && events[k] == Crash
    requires id in Run(root, events[..k]).asked && id !in Run(root, events[..k]).rows
    ensures Forgotten(Run(root, events), id)
  {
    var front := events[..|events| - 1];
    if k == |events| - 1 {
      assert front == events[..k];
    } else {
      hide Apply;
      assert front[..k] == events[..k];
      CrashForgets(root, front, k, id);
      StaysForgotten(root, Run(root, front), events[|events| - 1], id);
    }
  }
}
