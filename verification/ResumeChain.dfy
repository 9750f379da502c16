/** A client that saves repeatedly and always passes back the id it was given last. Each save is three
    statements without a transaction; any of them may fail, and before, between and after them
    everybody else keeps working on the same tables.
 */
module ResumeChain {
  import opened Options
  import opened AnswerTable
  import opened AnswerRuns

  /** The client has one save under way at a time, under the token `req`. */
  datatype Client = Client(project: Id, partner: Option<Partner>, req: Token)

  /** One statement of the client's current save, or any step of any other request. */
  datatype Item =
    | StartSave(input: SubmitInput, meta: string)
    | TryPatch(fails: bool)
    | TryInsert(newId: Id, fails: bool)  // `newId` is the id drawn for the insert
    | Other(event: Event)

  /** `cur` is the id the client holds ("" before its first save), `created` counts its inserts. */
  datatype Chain = Chain(s: State, cur: Id, created: nat)

  function StepOf(c: Client, cur: Id, item: Item): Event {
    match item
    case StartSave(input, meta) => SubmitRead(c.req, c.project, input.(resumeId := cur), c.partner, meta)
    case TryPatch(fails) => SubmitPatch(c.req, fails)
    case TryInsert(newId, fails) => SubmitInsert(c.req, newId, fails)
    case Other(event) => event
  }

  predicate IsInserting(c: Client, s: State) {
    c.req in s.flights && s.flights[c.req].Inserting?
  }

  /** This item adds a row and hands its id to the client. */
  predicate Creates(c: Client, h: Chain, item: Item) {
    item.TryInsert? && !item.fails && IsInserting(c, h.s) && item.newId !in h.s.answers
  }

  /** Nobody else uses the client's token. */
  function Next(c: Client, h: Chain, item: Item): Chain {
    if item.Other? && OfRequest(item.event, c.req) then h
    else
      var s := Apply(h.s, StepOf(c, h.cur, item));
      if Creates(c, h, item) then Chain(s, item.newId, h.created + 1) else h.(s := s)
  }

  function Follow(c: Client, s0: State, items: seq<Item>): Chain {
    if items == [] then Chain(s0, "", 0) else Next(c, Follow(c, s0, items[..|items| - 1]), items[|items| - 1])
  }

  // ---------------------------------------------------------------- how many rows

  /** The held row would still be resumed. */
  predicate Usable(c: Client, h: Chain) {
    h.cur != "" && Live(h.s.answers, h.cur)
    && h.s.answers[h.cur].projectId == c.project && Owner(h.s.answers[h.cur].createBy) == Creator(c.partner)
  }

  /** Somebody deletes the row the client holds while it is live. */
  predicate Takes(h: Chain, item: Item) {
    item.Other? && (item.event.SoftDelete? || item.event.Destroy?) && item.event.id == h.cur && Live(h.s.answers, h.cur)
  }

  function Deletions(c: Client, s0: State, items: seq<Item>): nat {
    if items == [] then 0 else
      var before := items[..|items| - 1];
      Deletions(c, s0, before) + if Takes(Follow(c, s0, before), items[|items| - 1]) then 1 else 0
  }

  /** A row just inserted by a client is one it can resume, exactly when the client has a name. */
  lemma OwnRowIsResumed(t: Table, id: Id, project: Id, in1: SubmitInput, in2: SubmitInput, partner: Option<Partner>,
                        survey: Survey, survey': Survey, meta: string, meta': string)
    requires in2.resumeId == id
    ensures var t' := t[id := SubmitRow(project, in1, Creator(partner), survey, meta)];
            Hits(t', ResumePatch(project, in2, Creator(partner), survey', meta')) <==> Creator(partner) != ""
  {
  }

  /** Whatever the client's save is at, it is for this project and creator and names the held row. */
  predicate FlightIsMine(c: Client, h: Chain) {
    c.req in h.s.flights ==>
      var f := h.s.flights[c.req];
      && !f.Editing? && f.project == c.project && f.creator == Creator(c.partner) && f.input.resumeId == h.cur
      && (f.Patching? ==> h.cur != "")
  }

  /** Nobody but a deletion makes a held row unusable. */
  lemma OnlyDeletionsLose(c: Client, h: Chain, e: Event)
    requires Usable(c, h) && !Takes(h, Other(e))
    ensures Usable(c, Next(c, h, Other(e)))
  {
    RowIdentity(h.s, e, h.cur);
  }

  lemma FlightStaysMine(c: Client, h: Chain, item: Item)
    requires FlightIsMine(c, h)
    ensures FlightIsMine(c, Next(c, h, item))
  {
  }

  /** The client is owed nothing while it holds a usable row and is not about to insert another. */
  predicate Settled(c: Client, h: Chain) {
    Usable(c, h) && !IsInserting(c, h.s)
  }

  /** An insert settles the client; only a deletion of the held row unsettles it. */
  lemma StepSettles(c: Client, h: Chain, item: Item)
    requires Creator(c.partner) != "" && FlightIsMine(c, h) && (item.TryInsert? ==> item.newId != "")
    ensures Creates(c, h, item) ==> !Settled(c, h) && Settled(c, Next(c, h, item))
    ensures Settled(c, h) && !Takes(h, item) ==> Settled(c, Next(c, h, item))
  {
    if item.Other? {
      if Usable(c, h) && !Takes(h, item) {
        OnlyDeletionsLose(c, h, item.event);
      }
    }
  }

  /** Theorem: however the statements of the saves, failed ones included, interleave with other sessions, a
      client never creates more than one row plus one per deletion of the live row it was holding. */
  lemma {:induction false} RowsCreated(c: Client, s0: State, items: seq<Item>)
    requires Creator(c.partner) != "" && c.req !in s0.flights
    requires forall i | i in items && i.TryInsert? :: i.newId != ""
    ensures var h := Follow(c, s0, items);
            && FlightIsMine(c, h)
            && h.created <= Deletions(c, s0, items) + if Settled(c, h) then 1 else 0
  {
    if items != [] {
      hide Next, FlightIsMine, Takes, Creates, Settled;
      var before, item := items[..|items| - 1], items[|items| - 1];
      var h := Follow(c, s0, before);
      RowsCreated(c, s0, before);
      assert item in items;
      FlightStaysMine(c, h, item);
      StepSettles(c, h, item);
      CreatedMoves(c, h, item);
    }
  }

  lemma CreatedMoves(c: Client, h: Chain, item: Item)
    ensures Next(c, h, item).created == h.created + if Creates(c, h, item) then 1 else 0
    ensures !(Creates(c, h, item) && Takes(h, item))
  {
  }

  // ---------------------------------------------------------------- what the row holds

  /** A save under way, with the survey it read. */
  datatype Pending = Pending(input: SubmitInput, meta: string, survey: Survey)

  /** What the saves so far add up to: the row, if there is one yet, and the save under way. */
  datatype Fold = Fold(row: Option<Answer>, saving: Option<Pending>)

  function PatchFor(c: Client, cur: Id, p: Pending): Patch {
    ResumePatch(c.project, p.input.(resumeId := cur), Creator(c.partner), p.survey, p.meta)
  }

  function RowFor(c: Client, p: Pending): Answer {
    SubmitRow(c.project, p.input, Creator(c.partner), p.survey, p.meta)
  }

  /** A save reads the survey that is published when it starts; the first to finish makes the row, and every
      later one that finishes patches it. */
  function FoldItem(c: Client, s: State, f: Fold, item: Item): Fold {
    match item
    case StartSave(input, meta) =>
      if f.saving.Some? || !Published(s, c.project) then f
      else f.(saving := Some(Pending(input, meta, PublicSurvey(s, c.project))))
    case TryPatch(fails) =>
      if f.saving.None? || f.row.None? then f
      else Fold(if fails then f.row else Some(Patched(f.row.value, PatchFor(c, "", f.saving.value))), None)
    case TryInsert(_, fails) =>
      if f.saving.None? || f.row.Some? then f
      else Fold(if fails then None else Some(RowFor(c, f.saving.value)), None)
    case Other(_) => f
  }

  function Folded(c: Client, s0: State, items: seq<Item>): Fold {
    if items == [] then Fold(None, None) else
      var before := items[..|items| - 1];
      FoldItem(c, Follow(c, s0, before).s, Folded(c, s0, before), items[|items| - 1])
  }

  /** Other sessions leave the held row as it is, and the ids drawn are new. */
  predicate Leaves(c: Client, h: Chain, item: Item) {
    match item
    case TryInsert(newId, _) => newId != "" && newId !in h.s.answers
    case Other(_) => h.cur != "" && h.cur in h.s.answers ==>
      var t := Next(c, h, item).s.answers; h.cur in t && t[h.cur] == h.s.answers[h.cur]
    case _ => true
  }

  predicate Undisturbed(c: Client, s0: State, items: seq<Item>) {
    items == [] ||
    var before := items[..|items| - 1];
    Undisturbed(c, s0, before) && Leaves(c, Follow(c, s0, before), items[|items| - 1])
  }

  /** The tables hold exactly what the saves add up to. */
  predicate Matches(c: Client, h: Chain, f: Fold) {
    && (if f.row.None? then h.cur == "" && h.created == 0
        else h.created == 1 && Usable(c, h) && h.s.answers[h.cur] == f.row.value)
    && (c.req in h.s.flights <==> f.saving.Some?)
    && (f.saving.Some? ==>
          var p := f.saving.value;
          var input, creator := p.input.(resumeId := h.cur), Creator(c.partner);
          h.s.flights[c.req] == if f.row.None? then Inserting(c.project, input, creator, p.survey, p.meta)
                                else Patching(c.project, input, creator, p.survey, p.meta))
  }

  lemma FoldStep(c: Client, h: Chain, f: Fold, item: Item)
    requires Creator(c.partner) != "" && Matches(c, h, f) && Leaves(c, h, item)
    ensures Matches(c, Next(c, h, item), FoldItem(c, h.s, f, item))
  {
    hide Published, PublicSurvey, Creator;
    match item
    case StartSave(_, _) =>
    case TryPatch(_) => PatchStep(c, h, f, item);
    case TryInsert(_, _) =>
    case Other(_) =>
  }

  lemma PatchStep(c: Client, h: Chain, f: Fold, item: Item)
    requires Creator(c.partner) != "" && Matches(c, h, f) && item.TryPatch?
    ensures Matches(c, Next(c, h, item), FoldItem(c, h.s, f, item))
  {
    hide Creator;
    if f.row.Some? && f.saving.Some? {
      assert PatchOf(h.s.flights[c.req]) == PatchFor(c, h.cur, f.saving.value);
    }
  }

  /** Theorem: a client whose row nobody else touches has exactly one row from its first successful insert on,
      live and its own. Its columns are that insert patched by every later save that did not fail,
      each with the survey published when it started. */
  lemma {:induction false} ChainFolds(c: Client, s0: State, items: seq<Item>)
    requires Creator(c.partner) != "" && c.req !in s0.flights && Undisturbed(c, s0, items)
    ensures Matches(c, Follow(c, s0, items), Folded(c, s0, items))
  {
    if items != [] {
      var before := items[..|items| - 1];
      ChainFolds(c, s0, before);
      FoldStep(c, Follow(c, s0, before), Folded(c, s0, before), items[|items| - 1]);
    }
  }

  // ---------------------------------------------------------------- a save with nobody in between

  function SaveNow(c: Client, h: Chain, p: Pending, newId: Id): Chain {
    if h.cur != "" && Hits(h.s.answers, PatchFor(c, h.cur, p)) then
      h.(s := h.s.(answers := UpdateAnswerInPlace(h.s.answers, PatchFor(c, h.cur, p))))
    else if newId in h.s.answers then h
    else Chain(h.s.(answers := h.s.answers[newId := RowFor(c, p)]), newId, h.created + 1)
  }

  /** Uninterrupted and without errors, the three statements are one atomic save. */
  lemma SaveIsThreeSteps(c: Client, h: Chain, input: SubmitInput, meta: string, newId: Id)
    requires c.req !in h.s.flights
    ensures Next(c, Next(c, Next(c, h, StartSave(input, meta)), TryPatch(false)), TryInsert(newId, false))
            == if Published(h.s, c.project) then
                 SaveNow(c, h, Pending(input, meta, PublicSurvey(h.s, c.project)), newId)
               else h
  {
    hide PublicSurvey, Creator, Hits, UpdateAnswerInPlace;
    var h1 := Next(c, h, StartSave(input, meta));
    if Published(h.s, c.project) {
      var p, creator := Pending(input, meta, PublicSurvey(h.s, c.project)), Creator(c.partner);
      var insert := Inserting(c.project, input.(resumeId := h.cur), creator, p.survey, meta);
      PutAndRemove(h.s.flights, c.req, h1.s.flights[c.req], insert);
      assert RowOf(insert) == RowFor(c, p);
    }
  }

  lemma PutAndRemove(m: map<Token, Flight>, req: Token, f: Flight, f': Flight)
    requires req !in m
    ensures m[req := f] - {req} == m == m[req := f'] - {req}
    ensures m[req := f][req := f'] == m[req := f']
  {
  }
}
