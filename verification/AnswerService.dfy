/** The answer service as the code runs it. The tables are shared: between two statements of a request other
    sessions may take any steps of their own. The trace records every step, so all that holds of the runs
    holds of the tables at any time.
 */
module AnswerServices {
  import opened Options
  import opened AnswerTable
  import opened AnswerRuns

  datatype Result = Saved(id: Id) | NotFound | Failed
  /** What a query for one row returns. */
  datatype Loaded<T> = Found(value: T) | Missing | Broken

  class AnswerService {
    var projects: map<Id, Project>
    var answers: Table
    ghost var flights: map<Token, Flight>
    ghost const start: State
    ghost var trace: seq<Event>

    /** A new installation has no answers and nothing under way. */
    ghost predicate FromNothing() {
      start == State(start.projects, map[], map[])
    }

    ghost predicate Valid()
      reads this
    {
      FromNothing() && State(projects, answers, flights) == Run(start, trace)
    }

    constructor (projects: map<Id, Project>)
      ensures Valid() && answers == map[] && this.projects == projects && trace == [] && flights == map[]
    {
      this.projects, answers, flights, trace := projects, map[], map[], [];
      start := State(projects, map[], map[]);
    }

    /** Records that the statement just run was step `e`. */
    ghost method Mark(e: Event)
      requires FromNothing() && var s := Apply(Run(start, trace), e); s.projects == projects && s.answers == answers
      modifies this`flights, this`trace
      ensures Valid() && trace == old(trace) + [e] && flights == Apply(Run(start, old(trace)), e).flights
    {
      flights := Apply(Run(start, trace), e).flights;
      assert (trace + [e])[..|trace|] == trace;
      trace := trace + [e];
    }

    /** Interference: any steps of other requests. Callers know nothing more than this contract says. */
    method OtherSessions(ghost req: Token)
      requires Valid()
      modifies this
      ensures Valid() && old(trace) <= trace
      ensures req in flights <==> req in old(flights)
      ensures req in flights ==> flights[req] == old(flights)[req]
      ensures forall k | |old(trace)| <= k < |trace| :: !OfRequest(trace[k], req)
    {
    }

    /** UpdateAnswerInPlace, with the number of rows it touched. */
    method UpdateInPlace(p: Patch) returns (n: nat)
      modifies this`answers
      ensures answers == UpdateAnswerInPlace(old(answers), p) && (n > 0 <==> Hits(old(answers), p))
    {
      n := 0;
      if p.id in answers && !answers[p.id].deleted && answers[p.id].projectId == p.projectId {
        var creator := answers[p.id].createBy;
        var owner := if creator.None? || creator.value == "" then "guest" else creator.value;
        if owner == p.createBy {
          answers := answers[p.id := Patched(answers[p.id], p)];
          n := 1;
        }
      }
    }

    /** GetPublic: the survey of a published, undeleted project. */
    method ReadSurvey(project: Id, input: SubmitInput, partner: Option<Partner>, meta: string, fails: bool,
        ghost req: Token)
      returns (r: Loaded<Survey>)
      requires Valid() && req !in flights
      modifies this`flights, this`trace
      ensures Valid()
      ensures r.Broken? <==> fails
      ensures fails ==> trace == old(trace) && flights == old(flights)
      ensures !fails ==> trace == old(trace) + [SubmitRead(req, project, input, partner, meta)]
      ensures r.Found? <==> !fails && Published(Run(start, old(trace)), project)
      ensures r.Found? ==> r.value == PublicSurvey(Run(start, old(trace)), project)
      ensures r.Found? ==> && project in projects && Public(Run(start, old(trace)), project, projects[project])
                           && Carries(r.value, projects[project])
      ensures r.Missing? ==> NotPublic(Run(start, old(trace)), project)
      ensures !r.Found? ==> req !in flights
      ensures r.Found? ==> req in flights && flights[req] ==
                            if input.resumeId != "" then Patching(project, input, Creator(partner), r.value, meta)
                            else Inserting(project, input, Creator(partner), r.value, meta)
    {
      if fails {
        return Broken;
      }
      if project in projects && !projects[project].deleted && projects[project].status == Some(1) {
        r := Found(Survey(OrEmpty(projects[project].survey), OrEmpty(projects[project].mode)));
      } else {
        r := Missing;
      }
      Mark(SubmitRead(req, project, input, partner, meta));
    }

    /** The resume path: patch the row the client names, if it is live and its own. */
    method Resume(p: Patch, fails: bool, ghost req: Token) returns (n: nat)
      requires Valid() && req in flights && flights[req].Patching? && p == PatchOf(flights[req])
      modifies this`answers, this`flights, this`trace
      ensures Valid() && trace == old(trace) + [SubmitPatch(req, fails)]
      ensures answers == if fails then old(answers) else UpdateAnswerInPlace(old(answers), p)
      ensures n > 0 <==> !fails && Hits(old(answers), p)
      ensures fails || n > 0 ==> req !in flights
      ensures !fails && n == 0 ==> var f := old(flights)[req];
                req in flights && flights[req] == Inserting(f.project, f.input, f.creator, f.survey, f.meta)
    {
      n := 0;
      if !fails {
        n := UpdateInPlace(p);
      }
      Mark(SubmitPatch(req, fails));
    }

    /** CreateAnswer: the primary key refuses an id that is already there. */
    method Insert(id: Id, row: Answer, fails: bool, ghost req: Token) returns (ok: bool)
      requires Valid() && req in flights && flights[req].Inserting? && row == RowOf(flights[req])
      modifies this`answers, this`flights, this`trace
      ensures Valid() && trace == old(trace) + [SubmitInsert(req, id, fails)] && req !in flights
      ensures ok <==> !fails && id !in old(answers)
      ensures answers == if ok then old(answers)[id := row] else old(answers)
    {
      ok := !fails && id !in answers;
      if ok {
        answers := answers[id := row];
      }
      Mark(SubmitInsert(req, id, fails));
    }

    /** Submit: read the published survey, patch the row to resume, or insert a new one. Whatever the
        others did in between, a successful call wrote exactly the columns of its submission, with the survey
        that a project row published at some moment of the call holds, into the row it names: the live one to
        resume or a new one. The call's own steps touch nothing but that row. */
    method Submit(project: Id, input: SubmitInput, partner: Option<Partner>, meta: string, newId: Id,
                  readFails: bool, updateFails: bool, insertFails: bool, ghost req: Token)
      returns (r: Result, ghost who: string)
      requires Valid() && req !in flights
      modifies this
      ensures Valid() && old(trace) <= trace && req !in flights && Signs(partner, who)
      ensures r.Saved? ==> && (r.id == newId || (r.id == input.resumeId && r.id != "")) && Live(answers, r.id)
                           && SavedDuring(start, trace, |old(trace)|, r.id, project, input, who, meta)
      ensures r.Saved? && input.resumeId != "" && r.id != input.resumeId ==>
                NotResumable(start, trace, |old(trace)|, input.resumeId, project, who)
      ensures r == NotFound ==> exists k :: |old(trace)| <= k <= |trace| && NotPublic(Run(start, trace[..k]), project)
      ensures r == Failed ==> readFails || (updateFails && input.resumeId != "") || insertFails || newId in answers
      ensures OwnStepsFit(start, trace, |old(trace)|, req, project, who)
    {
      hide Published, PublicSurvey, SavedDuring, NotResumable, Valid, Apply, Run, OfRequest, OwnStepsFit;
      hide Public, Carries, NotPublic, Signs, SubmissionEffect;
      ghost var from := |trace|;
      who := Creator(partner);
      CreatorSigns(partner);
      NothingDone(start, trace, req, project, who);
      OtherSessions(req);
      FitOthers(start, old(trace), trace, from, req, project, who);
      ghost var seen := trace;
      var survey := ReadSurvey(project, input, partner, meta, readFails, req);
      if survey.Broken? {
        return Failed, who;
      }
      FitRead(start, seen, SubmitRead(req, project, input, partner, meta), from, req, project, who);
      if survey.Missing? {
        assert trace[..|seen|] == seen;
        return NotFound, who;
      }
      var createBy := "guest";
      if partner.Some? {
        createBy := if partner.value.userId != "" then partner.value.userId else partner.value.id;
      }
      r := Store(project, input, createBy, survey.value, meta, newId, updateFails, insertFails, from, seen,
                 projects[project], req);
    }

    /** The writing half of Submit: resume or insert. */
    method Store(project: Id, input: SubmitInput, createBy: string, survey: Survey, meta: string, newId: Id,
                 updateFails: bool, insertFails: bool, ghost from: nat, ghost seen: seq<Event>, ghost p: Project,
                 ghost req: Token)
      returns (r: Result)
      requires Valid() && from <= |seen| && seen < trace && req in flights
      requires flights[req] == if input.resumeId != "" then Patching(project, input, createBy, survey, meta)
                               else Inserting(project, input, createBy, survey, meta)
      requires Public(Run(start, seen), project, p) && Carries(survey, p)
      requires OwnStepsFit(start, trace, from, req, project, createBy)
      modifies this
      ensures Valid() && old(trace) <= trace && req !in flights && r != NotFound
      ensures r.Saved? ==> && (r.id == newId || (r.id == input.resumeId && r.id != "")) && Live(answers, r.id)
                           && SavedDuring(start, trace, from, r.id, project, input, createBy, meta)
      ensures r.Saved? && input.resumeId != "" && r.id != input.resumeId ==>
                NotResumable(start, trace, from, input.resumeId, project, createBy)
      ensures r == Failed ==> (updateFails && input.resumeId != "") || insertFails || newId in answers
      ensures OwnStepsFit(start, trace, from, req, project, createBy)
    {
      hide Public, Carries, SavedDuring, NotResumable, Valid, Apply, Run, OfRequest, UpdateAnswerInPlace, Patched, Hits,
           SubmitRow, ResumePatch, OwnStepsFit, SubmissionEffect, Wrote, Resumable;
      OtherSessions(req);
      FitOthers(start, old(trace), trace, from, req, project, createBy);
      ghost var missed := trace;
      if input.resumeId != "" {
        ghost var before, sofar := answers, trace;
        var n := Resume(ResumePatch(project, input, createBy, survey, meta), updateFails, req);
        FitWrite(start, sofar, SubmitPatch(req, updateFails), from, req, project, createBy);
        if updateFails {
          return Failed;
        }
        HitsResumable(before, project, input, createBy, survey, meta);
        if n > 0 {
          ResumeWrites(before, project, input, createBy, survey, meta);
          SavedNow(start, seen, sofar, trace, from, input.resumeId, project, input, createBy, meta, survey, p);
          return Saved(input.resumeId);
        }
        missed := trace;
        OtherSessions(req);
        FitOthers(start, missed, trace, from, req, project, createBy);
        MissedAt(start, sofar, trace, from, input.resumeId, project, createBy);
      }
      var row := SubmitRow(project, input, createBy, survey, meta);
      ghost var before, sofar := answers, trace;
      var ok := Insert(newId, row, insertFails, req);
      FitWrite(start, sofar, SubmitInsert(req, newId, insertFails), from, req, project, createBy);
      MissedLater(start, sofar, trace, from, input.resumeId, project, createBy);
      if !ok {
        return Failed;
      }
      InsertWrites(before, newId, project, input, createBy, survey, meta);
      SavedNow(start, seen, sofar, trace, from, newId, project, input, createBy, meta, survey, p);
      return Saved(newId);
    }

    /** AdminUpdate: load the row, then patch it under its own project and creator. The number of rows hit is
        ignored: the edit takes effect, as if made in one go, if and only if the row is still live at the patch, of
        the project and creator it was loaded with; these differ only if it was destroyed and its id reused. */
    method AdminUpdate(id: Id, edit: Edit, actor: string, loadFails: bool, updateFails: bool, ghost req: Token)
      returns (r: Result, ghost loaded: seq<Event>, ghost before: seq<Event>)
      requires Valid() && req !in flights
      modifies this
      ensures Valid() && old(trace) <= loaded <= before <= trace && req !in flights
      ensures r.Saved? ==> r.id == id && Live(Run(start, loaded).answers, id)
                           && trace == before + [EditPatch(req, false)]
      ensures r.Saved? ==> var t := Run(start, before).answers;
                answers == if SameRow(Run(start, loaded).answers, t, id) then EditNow(t, id, edit, actor) else t
      ensures r.Saved? && (Destroy(id) !in before[|loaded|..] || id !in Run(start, before).answers) ==>
                && answers == EditNow(Run(start, before).answers, id, edit, actor)
                && (Live(answers, id) <==> Live(Run(start, before).answers, id))
      ensures r == Failed ==> loadFails || updateFails
      ensures r == NotFound ==> !Live(Run(start, loaded).answers, id)
    {
      hide Apply, Patched, UpdateAnswerInPlace, Hits, Live, SameRow;
      OtherSessions(req);
      loaded, before := trace, trace;
      var row := LoadForEdit(id, edit, actor, loadFails, req);
      match row {
        case Broken => return Failed, loaded, before;
        case Missing => return NotFound, loaded, before;
        case Found(_) =>
      }
      ghost var seen := trace;
      OtherSessions(req);
      before := trace;
      ApplyEdit(AdminPatch(id, row.value, edit, actor), updateFails, req);
      if updateFails {
        return Failed, loaded, before;
      }
      EditLands(start, loaded, before[|loaded|..], id, edit, actor);
      assert before == loaded + before[|loaded|..];
      EditKeepsLive(Run(start, before).answers, id, edit, actor);
      return Saved(id), loaded, before;
    }

    method LoadForEdit(id: Id, edit: Edit, actor: string, fails: bool, ghost req: Token) returns (r: Loaded<Answer>)
      requires Valid() && req !in flights
      modifies this`flights, this`trace
      ensures Valid()
      ensures r.Broken? <==> fails
      ensures fails ==> trace == old(trace) && flights == old(flights)
      ensures !fails ==> trace == old(trace) + [EditRead(req, id, edit, actor)]
      ensures r.Found? <==> !fails && Live(answers, id)
      ensures r.Found? ==> r.value == answers[id] && req in flights
                           && flights[req] == Editing(AdminPatch(id, r.value, edit, actor))
      ensures !r.Found? ==> req !in flights
    {
      if fails {
        return Broken;
      }
      r := if id in answers && !answers[id].deleted then Found(answers[id]) else Missing;
      Mark(EditRead(req, id, edit, actor));
    }

    method ApplyEdit(p: Patch, fails: bool, ghost req: Token)
      requires Valid() && req in flights && flights[req] == Editing(p)
      modifies this`answers, this`flights, this`trace
      ensures Valid() && trace == old(trace) + [EditPatch(req, fails)] && req !in flights
      ensures answers == if fails then old(answers) else UpdateAnswerInPlace(old(answers), p)
    {
      if !fails {
        var _ := UpdateInPlace(p);
      }
      Mark(EditPatch(req, fails));
    }

    /** SoftDelete: load the row, then trash it. Between the two the row may be trashed or destroyed by another
        session; the statement then does nothing and the call succeeds all the same. */
    method SoftDelete(id: Id, actor: string, loadFails: bool, updateFails: bool) returns (r: Result, ghost loaded: nat)
      requires Valid()
      modifies this
      ensures Valid() && old(trace) <= trace && |old(trace)| <= loaded <= |trace|
      ensures r == NotFound <==> !loadFails && !Live(Run(start, trace[..loaded]).answers, id)
      ensures r == Failed <==> loadFails || (updateFails && Live(Run(start, trace[..loaded]).answers, id))
      ensures r.Saved? ==> r.id == id && loaded < |trace| && trace[|trace| - 1] == AnswerRuns.SoftDelete(id, actor)
    {
      hide Apply;
      AnyoneElse();
      loaded := |trace|;
      assert trace[..loaded] == trace;
      if loadFails {
        return Failed, loaded;
      }
      if id !in answers || answers[id].deleted {
        return NotFound, loaded;
      }
      ghost var seen := trace;
      AnyoneElse();
      assert trace[..loaded] == seen;
      if updateFails {
        return Failed, loaded;
      }
      seen := trace;
      Execute(AnswerRuns.SoftDelete(id, actor));
      assert trace[..loaded] == seen[..loaded];
      return Saved(id), loaded;
    }

    /** Interference with a request that has no statement pending. */
    method AnyoneElse()
      requires Valid()
      modifies this
      ensures Valid() && old(trace) <= trace
    {
    }

    /** The trash statements: each is a single one and reports no row count. */
    method Execute(e: Event)
      requires Valid() && OnTrash(e)
      modifies this`answers, this`flights, this`trace
      ensures Valid() && trace == old(trace) + [e] && flights == old(flights)
      ensures answers == match e case SoftDelete(id, actor) => SoftDeleteAnswer(old(answers), id, actor)
                                 case Restore(id, actor) => RestoreAnswer(old(answers), id, actor)
                                 case Destroy(id) => HardDeleteAnswer(old(answers), id)
                                 case _ => old(answers)
    {
      match e {
        case SoftDelete(id, actor) =>
          if id in answers && !answers[id].deleted {
            answers := answers[id := answers[id].(deleted := true, updateBy := Some(actor))];
          }
        case Restore(id, actor) =>
          if id in answers && answers[id].deleted {
            answers := answers[id := answers[id].(deleted := false, updateBy := Some(actor))];
          }
        case Destroy(id) => answers := answers - {id};
        case _ =>
      }
      Mark(e);
    }
  }

  predicate OnTrash(e: Event) {
    e.SoftDelete? || e.Restore? || e.Destroy?
  }

  /** The row loaded is still live, and is one of the same project and creator. */
  predicate SameRow(t0: Table, t: Table, id: Id)
    requires Live(t0, id)
  {
    Live(t, id) && t[id].projectId == t0[id].projectId && Owner(t[id].createBy) == Owner(t0[id].createBy)
  }

  /** An edit loaded at one time and applied later does what an edit in one go would do if the row is still live and
      of the same project and creator, and else nothing. That it is live is enough unless it was destroyed
      and its id reused. */
  lemma EditLands(start: State, seen: seq<Event>, others: seq<Event>, id: Id, edit: Edit, actor: string)
    requires Live(Run(start, seen).answers, id)
    ensures var t0, t := Run(start, seen).answers, Run(start, seen + others).answers;
            var p := AdminPatch(id, t0[id], edit, actor);
            && (Hits(t, p) <==> SameRow(t0, t, id))
            && UpdateAnswerInPlace(t, p) == (if SameRow(t0, t, id) then EditNow(t, id, edit, actor) else t)
            && (Destroy(id) !in others || id !in t ==>
                  (Hits(t, p) <==> Live(t, id)) && UpdateAnswerInPlace(t, p) == EditNow(t, id, edit, actor))
  {
    RunConcat(start, seen, others);
    if Destroy(id) !in others {
      RowIdentityOverRuns(Run(start, seen), others, id);
    }
  }

  lemma EditKeepsLive(t: Table, id: Id, edit: Edit, actor: string)
    ensures Live(EditNow(t, id, edit, actor), id) <==> Live(t, id)
  {
  }

  /** Theorem: an edit whose row is trashed between its two statements is lost, although it succeeds. */
  lemma LostEdit(s: State, req: Token, id: Id, edit: Edit, actor: string, actor': string)
    requires req !in s.flights && Live(s.answers, id)
    ensures Run(s, [EditRead(req, id, edit, actor), AnswerRuns.SoftDelete(id, actor'), EditPatch(req, false)]).answers
            == SoftDeleteAnswer(s.answers, id, actor')
  {
    var e1, e2, e3 := EditRead(req, id, edit, actor), AnswerRuns.SoftDelete(id, actor'), EditPatch(req, false);
    assert [e1, e2, e3][..2] == [e1, e2] && [e1, e2][..1] == [e1] && [e1][..0] == [];
    assert Run(s, [e1]) == Apply(s, e1);
    assert Run(s, [e1, e2]) == Apply(Apply(s, e1), e2);
  }

  // ---------------------------------------------------------------- the steps of one submission

  /** Step `k` touches only a live row of this project and creator, or adds one of theirs. */
  ghost predicate StepFits(start: State, trace: seq<Event>, k: nat, project: Id, creator: string)
    requires k < |trace|
  {
    SubmissionEffect(Run(start, trace[..k]).answers, Run(start, trace[..k + 1]).answers, project, creator)
  }

  /** From step `from` on, so does every step of this request. */
  ghost predicate OwnStepsFit(start: State, trace: seq<Event>, from: nat, req: Token, project: Id, creator: string) {
    forall k: nat | from <= k < |trace| && OfRequest(trace[k], req) :: StepFits(start, trace, k, project, creator)
  }

  lemma NothingDone(start: State, trace: seq<Event>, req: Token, project: Id, creator: string)
    ensures OwnStepsFit(start, trace, |trace|, req, project, creator)
  {
  }

  lemma FitsLater(start: State, trace: seq<Event>, trace': seq<Event>, k: nat, project: Id, creator: string)
    requires k < |trace| && trace <= trace' && StepFits(start, trace, k, project, creator)
    ensures StepFits(start, trace', k, project, creator)
  {
    assert trace'[..k] == trace[..k] && trace'[..k + 1] == trace[..k + 1];
  }

  lemma FitOthers(start: State, trace: seq<Event>, trace': seq<Event>, from: nat, req: Token, project: Id,
      creator: string)
    requires trace <= trace' && OwnStepsFit(start, trace, from, req, project, creator)
    requires forall k: nat | |trace| <= k < |trace'| && OfRequest(trace'[k], req) ::
             StepFits(start, trace', k, project, creator)
    ensures OwnStepsFit(start, trace', from, req, project, creator)
  {
    hide StepFits, OfRequest;
    forall k: nat | from <= k < |trace'| && OfRequest(trace'[k], req)
      ensures StepFits(start, trace', k, project, creator)
    {
      if k < |trace| {
        FitsLater(start, trace, trace', k, project, creator);
      }
    }
  }

  lemma FitStep(start: State, trace: seq<Event>, e: Event, from: nat, req: Token, project: Id, creator: string)
    requires OwnStepsFit(start, trace, from, req, project, creator)
    requires SubmissionEffect(Run(start, trace).answers, Apply(Run(start, trace), e).answers, project, creator)
    ensures OwnStepsFit(start, trace + [e], from, req, project, creator)
  {
    hide Apply, OfRequest, SubmissionEffect, OwnStepsFit;
    var trace' := trace + [e];
    assert trace'[..|trace|] == trace && trace'[..|trace| + 1] == trace';
    FitOthers(start, trace, trace', from, req, project, creator);
  }

  lemma FitRead(start: State, trace: seq<Event>, e: Event, from: nat, req: Token, project: Id, creator: string)
    requires OwnStepsFit(start, trace, from, req, project, creator) && e.SubmitRead?
    ensures OwnStepsFit(start, trace + [e], from, req, project, creator)
  {
    hide Apply, SubmissionEffect;
    ReadChangesNoRow(Run(start, trace), e);
    NoEffect(Run(start, trace).answers, project, creator);
    FitStep(start, trace, e, from, req, project, creator);
  }

  lemma NoEffect(t: Table, project: Id, creator: string)
    ensures SubmissionEffect(t, t, project, creator)
  {
  }

  lemma FitWrite(start: State, trace: seq<Event>, e: Event, from: nat, req: Token, project: Id, creator: string)
    requires OwnStepsFit(start, trace, from, req, project, creator) && (e.SubmitPatch? || e.SubmitInsert?)
             && e.req == req
    requires var s := Run(start, trace); req in s.flights && !s.flights[req].Editing?
                                         && s.flights[req].project == project && s.flights[req].creator == creator
    ensures OwnStepsFit(start, trace + [e], from, req, project, creator)
  {
    hide Apply, SubmissionEffect;
    SubmissionFrame(Run(start, trace), e);
    NoEffect(Run(start, trace).answers, project, creator);
    FitStep(start, trace, e, from, req, project, creator);
  }

  /** The last step wrote this submission, with the survey of a project row that was published at some moment since
      step `from`. */
  ghost predicate SavedDuring(start: State, trace: seq<Event>, from: nat, id: Id, project: Id, input: SubmitInput,
                              who: string, meta: string) {
    |trace| > from && exists k, p ::
      && from <= k < |trace| && Public(Run(start, trace[..k]), project, p)
      && Wrote(Run(start, trace[..|trace| - 1]).answers, Run(start, trace).answers, id, project, input, who, meta,
               if p.survey.Some? then p.survey.value else "", if p.mode.Some? then p.mode.value else "")
  }

  lemma SavedNow(start: State, seen: seq<Event>, sofar: seq<Event>, trace: seq<Event>, from: nat, id: Id, project: Id,
                 input: SubmitInput, who: string, meta: string, survey: Survey, p: Project)
    requires from <= |seen| && seen <= sofar && |trace| == |sofar| + 1 && sofar <= trace
    requires Public(Run(start, seen), project, p) && Carries(survey, p)
    requires Wrote(Run(start, sofar).answers, Run(start, trace).answers, id, project, input, who, meta,
                   survey.text, survey.mode)
    ensures SavedDuring(start, trace, from, id, project, input, who, meta)
    ensures Live(Run(start, trace).answers, id)
  {
    hide Run, Public, Answered, Resumable;
    assert trace[..|seen|] == seen && trace[..|trace| - 1] == sofar;
  }

  /** At some moment since step `from` the row was not one to resume. */
  ghost predicate NotResumable(start: State, trace: seq<Event>, from: nat, id: Id, project: Id, who: string) {
    exists k :: from <= k <= |trace| && !Resumable(Run(start, trace[..k]).answers, id, project, who)
  }

  lemma MissedAt(start: State, sofar: seq<Event>, trace: seq<Event>, from: nat, id: Id, project: Id, who: string)
    requires from <= |sofar| && sofar <= trace && !Resumable(Run(start, sofar).answers, id, project, who)
    ensures NotResumable(start, trace, from, id, project, who)
  {
    assert trace[..|sofar|] == sofar;
  }

  lemma MissedLater(start: State, sofar: seq<Event>, trace: seq<Event>, from: nat, id: Id, project: Id, who: string)
    requires sofar <= trace
    ensures NotResumable(start, sofar, from, id, project, who) ==> NotResumable(start, trace, from, id, project, who)
  {
    hide Run, Resumable;
    if NotResumable(start, sofar, from, id, project, who) {
      var k :| from <= k <= |sofar| && !Resumable(Run(start, sofar[..k]).answers, id, project, who);
      assert trace[..k] == sofar[..k];
    }
  }
}
