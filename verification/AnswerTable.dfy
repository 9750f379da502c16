/** The answer table and the statements that change it, one function per statement. */
module AnswerTable {
  import opened Options

  type Id = string

  /** A row; SQL NULL is `None`. */
  datatype Answer = Answer(
    projectId: Id, survey: Option<string>, answer: Option<string>, attachment: Option<string>,
    metaInfo: Option<string>, tempSave: Option<int>, examScore: Option<real>, examType: Option<string>,
    deleted: bool, createBy: Option<string>, updateBy: Option<string>)

  type Table = map<Id, Answer>

  /** The arguments of UpdateAnswerInPlace. */
  datatype Patch = Patch(
    id: Id, projectId: Id, createBy: string, updateBy: string,
    survey: Option<string>, answer: Option<string>, attachment: Option<string>,
    metaInfo: Option<string>, tempSave: Option<int>, examScore: Option<real>)

  /** COALESCE(NULLIF(create_by, ''), 'guest') */
  function Owner(createBy: Option<string>): string {
    if createBy.None? || createBy.value == "" then "guest" else createBy.value
  }

  /** The WHERE clause of UpdateAnswerInPlace, for the row with the right id. */
  predicate Owned(row: Answer, p: Patch) {
    !row.deleted && row.projectId == p.projectId && Owner(row.createBy) == p.createBy
  }

  /** Its SET clause. */
  function Patched(row: Answer, p: Patch): Answer {
    row.(survey := Coalesce(p.survey, row.survey),
         answer := Coalesce(p.answer, row.answer),
         attachment := Coalesce(p.attachment, row.attachment),
         metaInfo := Coalesce(p.metaInfo, row.metaInfo),
         tempSave := Coalesce(p.tempSave, Coalesce(row.tempSave, Some(0))),
         examScore := Coalesce(p.examScore, row.examScore),
         updateBy := Some(p.updateBy))
  }

  predicate Hits(t: Table, p: Patch) {
    p.id in t && Owned(t[p.id], p)
  }

  function UpdateAnswerInPlace(t: Table, p: Patch): Table {
    if Hits(t, p) then t[p.id := Patched(t[p.id], p)] else t
  }

  predicate Live(t: Table, id: Id) {
    id in t && !t[id].deleted
  }

  predicate Trashed(t: Table, id: Id) {
    id in t && t[id].deleted
  }

  function SoftDeleteAnswer(t: Table, id: Id, actor: string): Table {
    if Live(t, id) then t[id := t[id].(deleted := true, updateBy := Some(actor))] else t
  }

  function RestoreAnswer(t: Table, id: Id, actor: string): Table {
    if Trashed(t, id) then t[id := t[id].(deleted := false, updateBy := Some(actor))] else t
  }

  function HardDeleteAnswer(t: Table, id: Id): Table {
    t - {id}
  }

  // ---------------------------------------------------------------- what a submission writes

  datatype Partner = Partner(id: string, userId: string)
  datatype Survey = Survey(text: string, mode: string)  // "" for NULL
  datatype SubmitInput = SubmitInput(
    answer: string, attachment: string, tempSave: int, examScore: Option<real>, resumeId: Id)

  function NonEmpty(s: string): Option<string> {
    if s == "" then None else Some(s)
  }

  function Creator(partner: Option<Partner>): string {
    if partner.None? then "guest" else if partner.value.userId != "" then partner.value.userId else partner.value.id
  }

  function ResumePatch(project: Id, input: SubmitInput, creator: string, survey: Survey, meta: string): Patch {
    Patch(input.resumeId, project, creator, creator, NonEmpty(survey.text), NonEmpty(input.answer),
          NonEmpty(input.attachment), Some(meta), Some(input.tempSave), input.examScore)
  }

  function SubmitRow(project: Id, input: SubmitInput, creator: string, survey: Survey, meta: string): Answer {
    Answer(project, NonEmpty(survey.text), NonEmpty(input.answer), NonEmpty(input.attachment), Some(meta),
           Some(input.tempSave), input.examScore, if survey.mode == "exam" then Some("O") else None,
           false, Some(creator), None)
  }

  /** What an administrator changes; absent fields are left alone. */
  datatype Edit = Edit(answer: string, attachment: Option<string>, tempSave: Option<int>, examScore: Option<real>)

  /** AdminUpdate repeats the row's own project and creator so that the WHERE clause matches. */
  function AdminPatch(id: Id, row: Answer, edit: Edit, actor: string): Patch {
    Patch(id, row.projectId, Owner(row.createBy), actor, None, NonEmpty(edit.answer),
          edit.attachment, None, edit.tempSave, edit.examScore)
  }

  /** Loading a row and patching it with nobody in between. */
  function EditNow(t: Table, id: Id, edit: Edit, actor: string): Table {
    if Live(t, id) then UpdateAnswerInPlace(t, AdminPatch(id, t[id], edit, actor)) else t
  }

  /** Theorem: whatever its create_by, a live row is hit by its own edit, which changes that row only: the given
      columns take the new values, the others stay, and a missing temp_save becomes 0. */
  lemma EditHitsItsRow(t: Table, id: Id, edit: Edit, actor: string)
    requires Live(t, id)
    ensures var t' := UpdateAnswerInPlace(t, AdminPatch(id, t[id], edit, actor));
            && Hits(t, AdminPatch(id, t[id], edit, actor)) && t' == t[id := t'[id]]
            && t'[id].projectId == t[id].projectId && t'[id].createBy == t[id].createBy && !t'[id].deleted
            && t'[id].survey == t[id].survey && t'[id].metaInfo == t[id].metaInfo && t'[id].examType == t[id].examType
            && t'[id].updateBy == Some(actor)
            && t'[id].answer == (if edit.answer != "" then Some(edit.answer) else t[id].answer)
            && t'[id].attachment == (if edit.attachment.Some? then edit.attachment else t[id].attachment)
            && t'[id].examScore == (if edit.examScore.Some? then edit.examScore else t[id].examScore)
            && t'[id].tempSave == (if edit.tempSave.Some? then edit.tempSave
                                   else if t[id].tempSave.Some? then t[id].tempSave else Some(0))
  {
  }

  /** Theorem: deleting and restoring gives the row back, apart from who touched it last. */
  lemma DeleteRestore(t: Table, id: Id, actor: string, actor': string)
    requires Live(t, id)
    ensures var t' := RestoreAnswer(SoftDeleteAnswer(t, id, actor), id, actor');
            t' == t[id := t[id].(updateBy := Some(actor'))]
  {
  }

  // ---------------------------------------------------------------- what a submission promises, column by column

  /** The name a participant acts under. */
  predicate Signs(partner: Option<Partner>, who: string) {
    && (partner.None? ==> who == "guest")
    && (partner.Some? && partner.value.userId != "" ==> who == partner.value.userId)
    && (partner.Some? && partner.value.userId == "" ==> who == partner.value.id)
  }

  /** The row is one that `who` may resume: live, of the project, and theirs; rows without a creator are the guest's. */
  predicate Resumable(t: Table, id: Id, project: Id, who: string) {
    && id in t && !t[id].deleted && t[id].projectId == project
    && ((who != "" && t[id].createBy == Some(who))
        || (who == "guest" && (t[id].createBy == None || t[id].createBy == Some(""))))
  }

  /** A column for which "" stands for "not given". */
  predicate TextSet(given: string, was: Option<string>, now: Option<string>) {
    if given != "" then now == Some(given) else now == was
  }

  predicate ScoreSet(given: Option<real>, was: Option<real>, now: Option<real>) {
    if given.Some? then now == given else now == was
  }

  /** The columns a submission gives, on a row that had `was`. */
  predicate Answered(was: Answer, row: Answer, input: SubmitInput, survey: string, meta: string) {
    && TextSet(survey, was.survey, row.survey) && TextSet(input.answer, was.answer, row.answer)
    && TextSet(input.attachment, was.attachment, row.attachment)
    && ScoreSet(input.examScore, was.examScore, row.examScore)
    && row.metaInfo == Some(meta) && row.tempSave == Some(input.tempSave)
  }

  const NO_ROW := Answer("", None, None, None, None, None, None, None, false, None, None)

  /** The one row the submission wrote: the one to resume, which keeps what it is not given, or a new one,
      in which that is NULL. */
  predicate Wrote(t: Table, t': Table, id: Id, project: Id, input: SubmitInput, who: string, meta: string,
                  survey: string, mode: string) {
    && id in t' && t' == t[id := t'[id]] && !t'[id].deleted && t'[id].projectId == project
    && if id in t then
         && id == input.resumeId && id != "" && Resumable(t, id, project, who)
         && Answered(t[id], t'[id], input, survey, meta)
         && t'[id].createBy == t[id].createBy && t'[id].examType == t[id].examType && t'[id].updateBy == Some(who)
       else
         && Answered(NO_ROW, t'[id], input, survey, meta)
         && t'[id].createBy == Some(who) && t'[id].updateBy == None
         && t'[id].examType == if mode == "exam" then Some("O") else None
  }

  lemma CreatorSigns(partner: Option<Partner>)
    ensures Signs(partner, Creator(partner))
  {
  }

  lemma HitsResumable(t: Table, project: Id, input: SubmitInput, who: string, survey: Survey, meta: string)
    ensures Hits(t, ResumePatch(project, input, who, survey, meta)) <==> Resumable(t, input.resumeId, project, who)
  {
  }

  /** Theorem: the resume statement writes exactly the columns it should. */
  lemma ResumeWrites(t: Table, project: Id, input: SubmitInput, who: string, survey: Survey, meta: string)
    requires Hits(t, ResumePatch(project, input, who, survey, meta)) && input.resumeId != ""
    ensures Wrote(t, UpdateAnswerInPlace(t, ResumePatch(project, input, who, survey, meta)), input.resumeId,
                  project, input, who, meta, survey.text, survey.mode)
  {
    HitsResumable(t, project, input, who, survey, meta);
  }

  /** Theorem: so does the insert. */
  lemma InsertWrites(t: Table, id: Id, project: Id, input: SubmitInput, who: string, survey: Survey, meta: string)
    requires id !in t
    ensures Wrote(t, t[id := SubmitRow(project, input, who, survey, meta)], id, project, input, who, meta,
                  survey.text, survey.mode)
  {
  }
}
