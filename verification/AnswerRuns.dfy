/** Answer submissions interleaved with everything else that happens to the two tables.

    A submission is three statements without a transaction: read the published survey, try to
    patch the row to resume, fall back to an insert. An administrator's edit is two. Between any two of
    them any other session may run any of its own.
 */
module AnswerRuns {
  import opened Options
  import opened AnswerTable

  datatype Project = Project(survey: Option<string>, mode: Option<string>, status: Option<int>, deleted: bool)

  type Token = nat  // names a request in progress

  datatype Flight =
    | Patching(project: Id, input: SubmitInput, creator: string, survey: Survey, meta: string)
    | Inserting(project: Id, input: SubmitInput, creator: string, survey: Survey, meta: string)
    | Editing(patch: Patch)

  datatype State = State(projects: map<Id, Project>, answers: Table, flights: map<Token, Flight>)

  datatype Event =
    // any write of a project row: create, update, trash, restore, destroy
    | SetProject(project: Id, row: Option<Project>)
    | SubmitRead(req: Token, project: Id, input: SubmitInput, partner: Option<Partner>, meta: string)
    | SubmitPatch(req: Token, fails: bool)
    | SubmitInsert(req: Token, id: Id, fails: bool)
    | EditRead(req: Token, id: Id, edit: Edit, actor: string)
    | EditPatch(req: Token, fails: bool)
    | SoftDelete(id: Id, actor: string)
    | Restore(id: Id, actor: string)
    | Destroy(id: Id)
    | Import(id: Id, imported: Answer)              // one row of a spreadsheet upload

  /** GetPublishedSurvey */
  predicate Published(s: State, project: Id) {
    project in s.projects && !s.projects[project].deleted && s.projects[project].status == Some(1)
  }

  /** What publication means for the columns: this is the project's row, not deleted, with status 1. */
  predicate Public(s: State, project: Id, p: Project) {
    project in s.projects && s.projects[project] == p && !p.deleted && p.status == Some(1)
  }

  predicate NotPublic(s: State, project: Id) {
    project !in s.projects || s.projects[project].deleted || s.projects[project].status != Some(1)
  }

  /** The survey as it is read from the row: its text and mode, "" for NULL. */
  predicate Carries(survey: Survey, p: Project) {
    && (if p.survey.Some? then survey.text == p.survey.value else survey.text == "")
    && (if p.mode.Some? then survey.mode == p.mode.value else survey.mode == "")
  }

  function OrEmpty(s: Option<string>): string {
    if s.None? then "" else s.value
  }

  function PublicSurvey(s: State, project: Id): Survey
    requires project in s.projects
  {
    Survey(OrEmpty(s.projects[project].survey), OrEmpty(s.projects[project].mode))
  }

  /** A published survey is found, with the text and mode of its row; no other one is. */
  lemma PublicSurveyRead(s: State, project: Id)
    ensures Published(s, project) ==> Public(s, project, s.projects[project])
                                      && Carries(PublicSurvey(s, project), s.projects[project])
    ensures !Published(s, project) ==> NotPublic(s, project)
  {
  }

  /** One statement, or a project write. A request that is not at the statement ignores the event. */
  function Apply(s: State, e: Event): State {
    match e
    case SetProject(project, row) =>
      s.(projects := if row.None? then s.projects - {project} else s.projects[project := row.value])
    case SubmitRead(req, project, input, partner, meta) =>
      if req in s.flights || !Published(s, project) then s
      else
        var survey, creator := PublicSurvey(s, project), Creator(partner);
        s.(flights := s.flights[req := if input.resumeId != "" then Patching(project, input, creator, survey, meta)
                                       else Inserting(project, input, creator, survey, meta)])
    case SubmitPatch(req, fails) =>
      if req !in s.flights || !s.flights[req].Patching? then s
      else if fails then Finish(s, req, s.answers)
      else
        var f := s.flights[req];
        var p := PatchOf(f);
        if Hits(s.answers, p) then Finish(s, req, UpdateAnswerInPlace(s.answers, p))
        else s.(flights := s.flights[req := Inserting(f.project, f.input, f.creator, f.survey, f.meta)])
    case SubmitInsert(req, id, fails) =>
      if req !in s.flights || !s.flights[req].Inserting? then s
      else Finish(s, req, if fails || id in s.answers then s.answers else s.answers[id := RowOf(s.flights[req])])
    case EditRead(req, id, edit, actor) =>
      if req in s.flights || !Live(s.answers, id) then s
      else s.(flights := s.flights[req := Editing(AdminPatch(id, s.answers[id], edit, actor))])
    case EditPatch(req, fails) =>
      if req !in s.flights || !s.flights[req].Editing? then s
      else Finish(s, req, if fails then s.answers else UpdateAnswerInPlace(s.answers, s.flights[req].patch))
    case SoftDelete(id, actor) => s.(answers := SoftDeleteAnswer(s.answers, id, actor))
    case Restore(id, actor) => s.(answers := RestoreAnswer(s.answers, id, actor))
    case Destroy(id) => s.(answers := HardDeleteAnswer(s.answers, id))
    case Import(id, row) =>
      if id in s.answers then s else s.(answers := s.answers[id := row.(survey := None, deleted := false)])
  }

  function PatchOf(f: Flight): Patch
    requires f.Patching?
  {
    ResumePatch(f.project, f.input, f.creator, f.survey, f.meta)
  }

  function RowOf(f: Flight): Answer
    requires f.Inserting?
  {
    SubmitRow(f.project, f.input, f.creator, f.survey, f.meta)
  }

  function Finish(s: State, req: Token, answers: Table): State {
    s.(answers := answers, flights := s.flights - {req})
  }

  function Run(s0: State, events: seq<Event>): State {
    if events == [] then s0 else Apply(Run(s0, events[..|events| - 1]), events[|events| - 1])
  }

  // ---------------------------------------------------------------- where a survey snapshot comes from

  /** At this moment the project was published with this survey text. */
  predicate Shows(s: State, project: Id, text: string) {
    Published(s, project) && s.projects[project].survey == Some(text)
  }

  /** At some moment of the run it was. */
  ghost predicate Shown(s0: State, events: seq<Event>, project: Id, text: string) {
    exists k :: 0 <= k <= |events| && Shows(Run(s0, events[..k]), project, text)
  }

  lemma ShownLater(s0: State, events: seq<Event>, e: Event, project: Id, text: string)
    requires Shown(s0, events, project, text) || Shows(Run(s0, events), project, text)
    ensures Shown(s0, events + [e], project, text)
  {
    if Shown(s0, events, project, text) {
      var k :| 0 <= k <= |events| && Shows(Run(s0, events[..k]), project, text);
      assert (events + [e])[..k] == events[..k];
    } else {
      assert (events + [e])[..|events|] == events;
    }
  }

  /** Every snapshot in a row or on its way into one is among `ok`. */
  ghost predicate SnapshotsFrom(s: State, ok: iset<(Id, string)>) {
    && (forall id | id in s.answers && s.answers[id].survey.Some? ::
          (s.answers[id].projectId, s.answers[id].survey.value) in ok)
    && (forall req | req in s.flights :: FlightFrom(s.flights[req], ok))
  }

  ghost predicate FlightFrom(f: Flight, ok: iset<(Id, string)>) {
    if f.Editing? then f.patch.survey.None? else f.survey.text != "" ==> (f.project, f.survey.text) in ok
  }

  /** One step stores no snapshot but those already on their way, and picks up only what is shown now. */
  lemma StepKeepsSnapshots(s: State, e: Event, ok: iset<(Id, string)>)
    requires SnapshotsFrom(s, ok) && forall project, text | Shows(s, project, text) :: (project, text) in ok
    ensures SnapshotsFrom(Apply(s, e), ok)
  {
    hide Apply, FlightFrom, Shows;
    var s' := Apply(s, e);
    forall req | req in s'.flights ensures FlightFrom(s'.flights[req], ok) {
      FlightSnapshot(s, e, ok, req);
    }
    forall id | id in s'.answers && s'.answers[id].survey.Some?
      ensures (s'.answers[id].projectId, s'.answers[id].survey.value) in ok
    {
      RowSnapshot(s, e, ok, id);
    }
  }

  /** What a request carries after the step was read just now or carried before. */
  lemma FlightSnapshot(s: State, e: Event, ok: iset<(Id, string)>, req: Token)
    requires SnapshotsFrom(s, ok) && forall project, text | Shows(s, project, text) :: (project, text) in ok
    requires req in Apply(s, e).flights
    ensures FlightFrom(Apply(s, e).flights[req], ok)
  {
    if req in s.flights {
      assert FlightFrom(s.flights[req], ok);
    } else if e.SubmitRead? && PublicSurvey(s, e.project).text != "" {
      assert Shows(s, e.project, PublicSurvey(s, e.project).text);
    }
  }

  /** What a row holds after the step it held before or got from the request whose step this is. */
  lemma RowSnapshot(s: State, e: Event, ok: iset<(Id, string)>, id: Id)
    requires SnapshotsFrom(s, ok) && id in Apply(s, e).answers && Apply(s, e).answers[id].survey.Some?
    ensures (Apply(s, e).answers[id].projectId, Apply(s, e).answers[id].survey.value) in ok
  {
    if (e.SubmitPatch? || e.SubmitInsert? || e.EditPatch?) && e.req in s.flights {
      assert FlightFrom(s.flights[e.req], ok);
    }
  }

  lemma {:induction false} RunSnapshots(s0: State, events: seq<Event>)
    requires s0.flights == map[] && forall id | id in s0.answers :: s0.answers[id].survey.None?
    ensures SnapshotsFrom(Run(s0, events), iset project, text | Shown(s0, events, project, text) :: (project, text))
  {
    if events != [] {
      var before, e := events[..|events| - 1], events[|events| - 1];
      var ok := iset project, text | Shown(s0, events, project, text) :: (project, text);
      RunSnapshots(s0, before);
      assert events == before + [e];
      forall project, text | Shown(s0, before, project, text) || Shows(Run(s0, before), project, text)
        ensures (project, text) in ok
      {
        ShownLater(s0, before, e, project, text);
      }
      hide Apply;
      StepKeepsSnapshots(Run(s0, before), e, ok);
    }
  }

  /** Theorem: starting from rows without snapshots, every survey text stored in a row of a project is
      one that the project showed, published and undeleted, at some moment of the run. */
  lemma SnapshotProvenance(s0: State, events: seq<Event>, id: Id)
    requires s0.flights == map[] && forall id | id in s0.answers :: s0.answers[id].survey.None?
    requires id in Run(s0, events).answers && Run(s0, events).answers[id].survey.Some?
    ensures var row := Run(s0, events).answers[id];
            exists k, p: Project :: 0 <= k <= |events| && p.survey == row.survey
                           && Public(Run(s0, events[..k]), row.projectId, p)
  {
    RunSnapshots(s0, events);
    var row := Run(s0, events).answers[id];
    assert Shown(s0, events, row.projectId, row.survey.value);
    var k :| 0 <= k <= |events| && Shows(Run(s0, events[..k]), row.projectId, row.survey.value);
    var s := Run(s0, events[..k]);
    assert Public(s, row.projectId, s.projects[row.projectId]);
  }

  // ---------------------------------------------------------------- who may change which row

  /** What a submission may do to the table: patch one live row of its project and creator, or add one row of theirs. */
  ghost predicate SubmissionEffect(t: Table, t': Table, project: Id, creator: string) {
    || t' == t
    || exists id :: id in t' && t' == t[id := t'[id]]
         && t'[id].projectId == project
         && if id in t then Live(t, id) && Live(t', id) && t[id].projectId == project
            && Owner(t[id].createBy) == creator
                            && t'[id].createBy == t[id].createBy
            else Live(t', id) && t'[id].createBy == Some(creator)
  }

  predicate ByParticipant(e: Event) {
    e.SubmitRead? || e.SubmitPatch? || e.SubmitInsert?
  }

  predicate ByEditor(e: Event) {
    e.EditRead? || e.EditPatch?
  }

  /** A submission's statement touches nothing but a live row of the project and creator it carries, or a fresh one. */
  lemma SubmissionFrame(s: State, e: Event)
    requires e.SubmitPatch? || e.SubmitInsert?
    ensures var t, t' := s.answers, Apply(s, e).answers;
            t' == t || (e.req in s.flights && !s.flights[e.req].Editing?
                        && SubmissionEffect(t, t', s.flights[e.req].project, s.flights[e.req].creator))
  {
    var t, t' := s.answers, Apply(s, e).answers;
    if t' != t {
      var id := if e.SubmitPatch? then s.flights[e.req].input.resumeId else e.id;
      assert id in t' && t' == t[id := t'[id]];
    }
  }

  /** Theorem: no step ever moves a row to another project or creator, brings an id back without inserting it,
      or lets a participant or an editor touch a trashed row. */
  lemma RowIdentity(s: State, e: Event, id: Id)
    requires id in s.answers
    ensures var t, t' := s.answers, Apply(s, e).answers;
            && (id in t' ==> t'[id].projectId == t[id].projectId && t'[id].createBy == t[id].createBy
                             && t'[id].examType == t[id].examType)
            && (id !in t' ==> e == Destroy(id))
            && (t[id].deleted && (ByParticipant(e) || ByEditor(e)) ==> id in t' && t'[id] == t[id])
            && (ByParticipant(e) || ByEditor(e) ==> id in t' && t'[id].deleted == t[id].deleted)
  {
  }

  /** Theorem: over any stretch of a run in which it is not destroyed, a row keeps its project and creator;
      a trashed row is the very same row until somebody restores it. */
  lemma {:induction false} RowIdentityOverRuns(s0: State, events: seq<Event>, id: Id)
    requires id in s0.answers && Destroy(id) !in events
    ensures var t := Run(s0, events).answers;
            && id in t && t[id].projectId == s0.answers[id].projectId && t[id].createBy == s0.answers[id].createBy
            && (s0.answers[id].deleted && (forall e | e in events :: !(e.Restore? && e.id == id)) ==>
                  t[id] == s0.answers[id])
  {
    if events != [] {
      var before := events[..|events| - 1];
      RowIdentityOverRuns(s0, before, id);
      assert events[|events| - 1] in events;
      RowIdentity(Run(s0, before), events[|events| - 1], id);
    }
  }

  // ---------------------------------------------------------------- one effect per submission

  predicate OfRequest(e: Event, req: Token) {
    (e.SubmitRead? || e.SubmitPatch? || e.SubmitInsert? || e.EditRead? || e.EditPatch?) && e.req == req
  }

  /** Step `k` of the run is one of this request and changed the table. */
  predicate Effective(s0: State, events: seq<Event>, k: nat, req: Token)
    requires k < |events|
  {
    OfRequest(events[k], req) && Run(s0, events[..k]).answers != Run(s0, events[..k + 1]).answers
  }

  lemma {:induction false} SilentUntilStarted(s0: State, events: seq<Event>, i: nat, j: nat, req: Token)
    requires i <= j <= |events| && req !in Run(s0, events[..i]).flights
    requires forall k | i <= k < j :: !(OfRequest(events[k], req) && (events[k].SubmitRead? || events[k].EditRead?))
    ensures req !in Run(s0, events[..j]).flights
  {
    if i < j {
      hide Apply;
      SilentUntilStarted(s0, events, i, j - 1, req);
      assert events[..j][..j - 1] == events[..j - 1];
      StaysOut(Run(s0, events[..j - 1]), events[j - 1], req);
    }
  }

  lemma StaysOut(s: State, e: Event, req: Token)
    requires req !in s.flights && !(OfRequest(e, req) && (e.SubmitRead? || e.EditRead?))
    ensures req !in Apply(s, e).flights
  {
  }

  /** A step of a request that changes the table is its last. */
  lemma EffectEndsRequest(s: State, e: Event, req: Token)
    requires OfRequest(e, req) && Apply(s, e).answers != s.answers
    ensures req in s.flights && req !in Apply(s, e).flights
  {
  }

  /** Theorem: a request changes the table at most once: two of its steps that do have a new start of
      the same token between them. */
  lemma AtMostOneEffect(s0: State, events: seq<Event>, i: nat, j: nat, req: Token)
    requires i < j < |events| && Effective(s0, events, i, req) && Effective(s0, events, j, req)
    ensures exists k :: i < k < j && OfRequest(events[k], req) && (events[k].SubmitRead? || events[k].EditRead?)
  {
    hide Apply, OfRequest;
    assert events[..i + 1][..i] == events[..i] && events[..j + 1][..j] == events[..j];
    EffectEndsRequest(Run(s0, events[..i]), events[i], req);
    EffectEndsRequest(Run(s0, events[..j]), events[j], req);
    if forall k | i < k < j :: !(OfRequest(events[k], req) && (events[k].SubmitRead? || events[k].EditRead?)) {
      SilentUntilStarted(s0, events, i + 1, j, req);
    }
  }

  // ---------------------------------------------------------------- ownership over whole runs

  /** The project was published then, with this survey. */
  predicate OpenedOn(s: State, project: Id, survey: Survey) {
    project in s.projects && Public(s, project, s.projects[project]) && Carries(survey, s.projects[project])
  }

  /** Step `k` read the survey that `f`, a submission still under way after the run, carries; `f` is for
      the project, the input and the creator of that step. */
  ghost predicate OpenedAt(s0: State, events: seq<Event>, k: nat, req: Token, f: Flight) {
    && k < |events| && events[k].SubmitRead? && events[k].req == req && !f.Editing?
    && OpenedOn(Run(s0, events[..k]), f.project, f.survey)
    && events[k].project == f.project && Creator(events[k].partner) == f.creator
    && events[k].input == f.input && events[k].meta == f.meta
    && forall j | k < j <= |events| :: req in Run(s0, events[..j]).flights
  }

  lemma OpenedBefore(s0: State, events: seq<Event>, e: Event, k: nat, req: Token, f: Flight, f': Flight)
    requires OpenedAt(s0, events, k, req, f) && req in Run(s0, events + [e]).flights && !f'.Editing?
    requires f'.project == f.project && f'.creator == f.creator && f'.survey == f.survey
             && f'.input == f.input && f'.meta == f.meta
    ensures OpenedAt(s0, events + [e], k, req, f')
  {
    hide Run, OpenedOn;
    forall j | 0 <= j <= |events| ensures (events + [e])[..j] == events[..j] {
    }
    assert (events + [e])[..|events| + 1] == events + [e];
  }

  /** Between its first step and its last, a submission keeps what it carries. */
  lemma FlightStep(s: State, e: Event, req: Token)
    requires req in Apply(s, e).flights && !Apply(s, e).flights[req].Editing?
    ensures var f := Apply(s, e).flights[req];
            if req in s.flights then
              var f0 := s.flights[req];
              !f0.Editing? && f.project == f0.project && f.creator == f0.creator && f.survey == f0.survey
              && f.input == f0.input && f.meta == f0.meta
            else
              e.SubmitRead? && e.req == req && OpenedOn(s, f.project, f.survey)
              && e.project == f.project && Creator(e.partner) == f.creator && e.input == f.input && e.meta == f.meta
  {
    hide Creator;
  }

  /** A submission under way was opened by its own first step. */
  lemma {:induction false} FlightOpened(s0: State, events: seq<Event>, req: Token)
    requires s0.flights == map[] && req in Run(s0, events).flights && !Run(s0, events).flights[req].Editing?
    ensures exists k: nat :: OpenedAt(s0, events, k, req, Run(s0, events).flights[req])
  {
    if events != [] {
      hide Apply, OpenedAt, Creator, OpenedOn;
      var before, e := events[..|events| - 1], events[|events| - 1];
      var s, f := Run(s0, before), Run(s0, events).flights[req];
      assert events == before + [e];
      FlightStep(s, e, req);
      if req in s.flights {
        FlightOpened(s0, before, req);
        var k: nat :| OpenedAt(s0, before, k, req, s.flights[req]);
        OpenedBefore(s0, before, e, k, req, s.flights[req], f);
      } else {
        JustOpened(s0, before, e, req);
      }
    }
  }

  lemma JustOpened(s0: State, events: seq<Event>, e: Event, req: Token)
    requires req !in Run(s0, events).flights && req in Run(s0, events + [e]).flights
    requires !Run(s0, events + [e]).flights[req].Editing?
    ensures OpenedAt(s0, events + [e], |events|, req, Run(s0, events + [e]).flights[req])
  {
    hide Apply, Creator, OpenedOn;
    var all := events + [e];
    assert all[..|events|] == events && all[..|all|] == all;
    FlightStep(Run(s0, events), e, req);
  }

  /** Step `i` is the work of the submission that step `k` opened: it touches only what that submission may, and
      every step in between left the request under way. */
  ghost predicate WorkOf(s0: State, events: seq<Event>, k: nat, i: nat)
    requires k < i < |events|
  {
    && events[k].SubmitRead? && OfRequest(events[i], events[k].req)
    && SubmissionEffect(Run(s0, events[..i]).answers, Run(s0, events[..i + 1]).answers,
                        events[k].project, Creator(events[k].partner))
    && forall j | k <= j < i :: !Effective(s0, events, j, events[k].req)
  }

  /** Theorem: in every run from a state with nothing under way, each participant step that changes the table is the
      work of the submission some earlier step opened: the only row it touches is a live row of the project and
      creator of that opening step, or one fresh row of theirs, and it is the submission's only effect. */
  lemma OwnershipOverRuns(s0: State, events: seq<Event>, i: nat)
    requires s0.flights == map[] && i < |events| && ByParticipant(events[i]) && Effective(s0, events, i, events[i].req)
    ensures exists k: nat :: k < i && WorkOf(s0, events, k, i)
  {
    hide Apply, OpenedAt, SubmissionEffect, Creator;
    var req, s, upto := events[i].req, Run(s0, events[..i]), events[..i];
    assert events[..i + 1][..i] == upto;
    EffectEndsRequest(s, events[i], req);
    ReadChangesNoRow(s, events[i]);
    SubmissionFrame(s, events[i]);
    FlightOpened(s0, upto, req);
    var k: nat :| OpenedAt(s0, upto, k, req, s.flights[req]);
    QuietSince(s0, events, k, i, req, s.flights[req]);
    assert WorkOf(s0, events, k, i);
  }

  /** A submission under way has not changed anything yet. */
  lemma QuietSince(s0: State, events: seq<Event>, k: nat, i: nat, req: Token, f: Flight)
    requires i < |events| && OpenedAt(s0, events[..i], k, req, f)
    ensures k < i && events[k].SubmitRead? && events[k].req == req && !f.Editing?
    ensures events[k].project == f.project && Creator(events[k].partner) == f.creator
    ensures forall j: nat | k <= j < i :: !Effective(s0, events, j, req)
  {
    hide Apply, Run, OfRequest, OpenedOn, Creator;
    forall j: nat | k <= j < i ensures !Effective(s0, events, j, req) {
      assert events[..i][..j + 1] == events[..j + 1];
      if Effective(s0, events, j, req) {
        EffectiveEnds(s0, events, j, req);
      }
    }
  }

  lemma EffectiveEnds(s0: State, events: seq<Event>, j: nat, req: Token)
    requires j < |events| && Effective(s0, events, j, req)
    ensures req !in Run(s0, events[..j + 1]).flights
  {
    hide Apply, OfRequest;
    assert events[..j + 1][..j] == events[..j];
    EffectEndsRequest(Run(s0, events[..j]), events[j], req);
  }

  lemma ReadChangesNoRow(s: State, e: Event)
    ensures e.SubmitRead? ==> Apply(s, e).answers == s.answers
    ensures ByParticipant(e) && Apply(s, e).answers != s.answers ==>
              e.req in s.flights && !s.flights[e.req].Editing?
  {
  }

  // ---------------------------------------------------------------- how a live row is lost

  lemma {:induction false} RunConcat(s0: State, a: seq<Event>, b: seq<Event>)
    ensures Run(s0, a + b) == Run(Run(s0, a), b)
  {
    if b == [] {
      assert a + b == a;
    } else {
      assert (a + b)[..|a + b| - 1] == a + b[..|b| - 1];
      RunConcat(s0, a, b[..|b| - 1]);
    }
  }

  predicate Removes(e: Event, id: Id) {
    (e.SoftDelete? || e.Destroy?) && e.id == id
  }

  lemma StaysLive(s: State, e: Event, id: Id)
    requires Live(s.answers, id) && !Removes(e, id)
    ensures Live(Apply(s, e).answers, id)
  {
  }

  /** A live row is gone later only if some step in between trashed or destroyed it. */
  lemma {:induction false} LostBetween(s0: State, events: seq<Event>, id: Id)
    requires Live(s0.answers, id) && !Live(Run(s0, events).answers, id)
    ensures exists k :: 0 <= k < |events| && Removes(events[k], id)
  {
    if events != [] {
      hide Apply;
      var before, e := events[..|events| - 1], events[|events| - 1];
      if Live(Run(s0, before).answers, id) {
        if !Removes(e, id) {
          StaysLive(Run(s0, before), e, id);
        }
      } else {
        LostBetween(s0, before, id);
      }
    }
  }
}
