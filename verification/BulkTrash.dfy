/** The trash handlers: one statement (or a load and a statement) per listed id, with a per-id result and a
    final count. Other sessions may work on the same rows at any time in between.
 */
module BulkTrash {
  import opened AnswerTable
  import opened AnswerRuns
  import opened AnswerServices
  import opened Trash

  datatype Item = Item(id: Id, ok: bool)
  /** A handler refuses an empty list; one that meets a database error stops there and reports no count. */
  datatype Bulk = Rejected | Counted(n: nat, results: seq<Item>) | Stopped(results: seq<Item>)
  datatype Op = Deleting(actor: string) | Restoring(actor: string) | Destroying

  function StatementOf(op: Op, id: Id): Event {
    match op
    case Deleting(actor) => SoftDelete(id, actor)
    case Restoring(actor) => Restore(id, actor)
    case Destroying => Destroy(id)
  }

  function CountOk(results: seq<Item>): nat {
    if results == [] then 0 else CountOk(results[..|results| - 1]) + if results[|results| - 1].ok then 1 else 0
  }

  lemma CountOkSnoc(results: seq<Item>, r: Item)
    ensures CountOk(results + [r]) == CountOk(results) + if r.ok then 1 else 0
  {
    assert (results + [r])[..|results|] == results;
  }

  // ---------------------------------------------------------------- what a handler did

  /** The handler stopped at the last result, the first id for which a query failed. */
  predicate StoppedAt(ids: seq<Id>, results: seq<Item>, loadFails: nat -> bool, dbFails: nat -> bool) {
    && 0 < |results| <= |ids| && results[|results| - 1] == Item(ids[|results| - 1], false)
    && (loadFails(|results| - 1) || dbFails(|results| - 1))
    && forall k: nat | k < |results| - 1 :: !loadFails(k) && (results[k].ok ==> !dbFails(k))
  }

  const NEVER: nat -> bool := _ => false

  /** Each result that is ok stands for the step at its position, a statement for its id; the positions ascend. */
  ghost predicate Carried(trace: seq<Event>, from: nat, ids: seq<Id>, op: Op, results: seq<Item>, at: seq<nat>) {
    && |at| == |results| <= |ids|
    && (forall i | 0 <= i < |at| :: results[i].id == ids[i] && from <= at[i] <= |trace|)
    && (forall i | 0 <= i < |at| && results[i].ok :: at[i] < |trace| && trace[at[i]] == StatementOf(op, ids[i]))
    && (forall i, j | 0 <= i < j < |at| && results[i].ok :: at[i] < at[j])
  }

  /** Each of the first `n` results says whether the row was live when it was loaded, no later than its statement. */
  ghost predicate LoadedFirst(start: State, trace: seq<Event>, from: nat, results: seq<Item>, loads: seq<nat>,
      at: seq<nat>, n: nat)
    requires n <= |results| == |at|
  {
    && |loads| == |at|
    && forall i | 0 <= i < n :: from <= loads[i] <= at[i] && loads[i] <= |trace|
                                && (results[i].ok <==> Live(Run(start, trace[..loads[i]]).answers, results[i].id))
  }

  /** Step `k` changed a row. */
  ghost predicate Took(start: State, trace: seq<Event>, k: nat) {
    k < |trace| && Run(start, trace[..k]).answers != Run(start, trace[..k + 1]).answers
  }

  /** How many rows the handler's own statements changed. */
  ghost function Effects(start: State, trace: seq<Event>, results: seq<Item>, at: seq<nat>): nat
    requires |at| == |results|
  {
    if results == [] then 0 else
      var n := |results| - 1;
      Effects(start, trace, results[..n], at[..n]) + if results[n].ok && Took(start, trace, at[n]) then 1 else 0
  }

  lemma RunNext(start: State, trace: seq<Event>, k: nat)
    requires k < |trace|
    ensures Run(start, trace[..k + 1]) == Apply(Run(start, trace[..k]), trace[k])
  {
    hide Apply;
    assert trace[..k + 1][..k] == trace[..k];
  }

  lemma StatementTakes(s: State, e: Event)
    ensures var t, t' := s.answers, Apply(s, e).answers;
            && (e.SoftDelete? ==> (t' != t <==> Live(t, e.id)) && t' == SoftDeleteAnswer(t, e.id, e.actor))
            && (e.Restore? ==> (t' != t <==> Trashed(t, e.id)) && t' == RestoreAnswer(t, e.id, e.actor))
            && (e.Destroy? ==> (t' != t <==> e.id in t) && t' == HardDeleteAnswer(t, e.id))
  {
    if e.SoftDelete? && Live(s.answers, e.id) {
      assert Apply(s, e).answers[e.id].deleted;
    } else if e.Restore? && Trashed(s.answers, e.id) {
      assert !Apply(s, e).answers[e.id].deleted;
    } else if e.Destroy? {
      assert e.id !in Apply(s, e).answers;
    }
  }

  /** A trash statement changes exactly one row, and that only when there is one in the right state. */
  lemma TookMeans(start: State, trace: seq<Event>, k: nat)
    requires k < |trace|
    ensures var e, t, t' := trace[k], Run(start, trace[..k]).answers, Run(start, trace[..k + 1]).answers;
            var took := if Took(start, trace, k) then 1 else 0;
            && (e.SoftDelete? ==> (Took(start, trace, k) <==> Live(t, e.id)) && |LiveIds(t')| == |LiveIds(t)| - took)
            && (e.Restore? ==> (Took(start, trace, k) <==> Trashed(t, e.id)) && |LiveIds(t')| == |LiveIds(t)| + took)
            && (e.Destroy? ==> (Took(start, trace, k) <==> e.id in t) && |t'| == |t| - took)
  {
    hide Run, Apply, LiveIds, Live, Trashed, SoftDeleteAnswer, RestoreAnswer, HardDeleteAnswer;
    var e, t := trace[k], Run(start, trace[..k]).answers;
    RunNext(start, trace, k);
    StatementTakes(Run(start, trace[..k]), e);
    match e
    case SoftDelete(id, actor) => OneLess(t, id, actor);
    case Restore(id, actor) => OneMore(t, id, actor);
    case Destroy(id) => OneGone(t, id);
    case _ =>
  }

  /** The reported count is never below the number of rows changed, and equal to it exactly when each ok result's
      statement found a row to change. */
  lemma {:induction false} EffectsBound(start: State, trace: seq<Event>, results: seq<Item>, at: seq<nat>)
    requires |at| == |results|
    ensures Effects(start, trace, results, at) <= CountOk(results)
    ensures Effects(start, trace, results, at) == CountOk(results) <==>
            forall i | 0 <= i < |results| && results[i].ok :: Took(start, trace, at[i])
  {
    if results != [] {
      hide Took;
      EffectsBound(start, trace, results[..|results| - 1], at[..|at| - 1]);
    }
  }

  // ---------------------------------------------------------------- one more id

  lemma CarriedSnoc(trace: seq<Event>, trace': seq<Event>, from: nat, ids: seq<Id>, op: Op, results: seq<Item>,
                    at: seq<nat>,
                    r: Item, k: nat)
    requires Carried(trace, from, ids, op, results, at) && trace <= trace' && from <= |trace|
    requires |results| < |ids| && r.id == ids[|results|] && |trace| <= k <= |trace'|
    requires r.ok ==> k < |trace'| && trace'[k] == StatementOf(op, r.id)
    ensures Carried(trace', from, ids, op, results + [r], at + [k])
  {
    hide StatementOf;
  }

  lemma LoadedSnoc(start: State, trace: seq<Event>, trace': seq<Event>, from: nat, results: seq<Item>, loads: seq<nat>,
                   at: seq<nat>, r: Item, l: nat, k: nat)
    requires |at| == |results| && LoadedFirst(start, trace, from, results, loads, at, |results|) && trace <= trace'
    requires from <= |trace| <= l <= k && l <= |trace'| && (r.ok <==> Live(Run(start, trace'[..l]).answers, r.id))
    ensures LoadedFirst(start, trace', from, results + [r], loads + [l], at + [k], |results| + 1)
  {
    hide Run, Live;
    forall i | 0 <= i < |results| ensures trace'[..loads[i]] == trace[..loads[i]] {
    }
  }

  lemma LoadedFailed(start: State, trace: seq<Event>, trace': seq<Event>, from: nat, results: seq<Item>,
                     loads: seq<nat>, at: seq<nat>, r: Item, l: nat, k: nat)
    requires |at| == |results| && LoadedFirst(start, trace, from, results, loads, at, |results|) && trace <= trace'
    ensures LoadedFirst(start, trace', from, results + [r], loads + [l], at + [k], |results|)
  {
    hide Run, Live;
    forall i | 0 <= i < |results| ensures trace'[..loads[i]] == trace[..loads[i]] {
    }
  }

  /** What a deletion reports when nobody else is at work: each live row once, at its first mention. */
  predicate AsListed(t: Table, ids: seq<Id>, results: seq<Item>) {
    |results| <= |ids| &&
    forall k | 0 <= k < |results| :: results[k] == Item(ids[k], Live(t, ids[k]) && ids[k] !in ids[..k])
  }

  lemma QuietDelete(start: State, t: Table, trace: seq<Event>, trace': seq<Event>, ids: seq<Id>, actor: string,
                    results: seq<Item>, found: bool, l: nat)
    requires |results| < |ids| && AsListed(t, ids, results)
    requires Run(start, trace).answers == SoftDeleteAll(t, ids[..|results|], actor)
    requires trace' == trace + if found then [SoftDelete(ids[|results|], actor)] else []
    requires l == |trace| && (found <==> Live(Run(start, trace'[..l]).answers, ids[|results|]))
    ensures Run(start, trace').answers == SoftDeleteAll(t, ids[..|results| + 1], actor)
    ensures AsListed(t, ids, results + [Item(ids[|results|], found)])
  {
    hide SoftDeleteAll, SoftDeleteAnswer, Live, AsListed, Run;
    var i := |results|;
    DeleteStep(t, ids, i, actor);
    AsListedSnoc(t, ids, results);
    if found {
      assert trace'[..l] == trace;
      RunDeletion(start, trace, ids[i], actor);
    } else {
      assert trace' == trace && trace'[..l] == trace;
      NotLiveNotDeleted(Run(start, trace).answers, ids[i], actor);
    }
  }

  lemma AsListedSnoc(t: Table, ids: seq<Id>, results: seq<Item>)
    requires |results| < |ids| && AsListed(t, ids, results)
    ensures var i := |results|;
            AsListed(t, ids, results + [Item(ids[i], Live(t, ids[i]) && ids[i] !in ids[..i])])
  {
    hide Live;
  }

  lemma RunDeletion(start: State, trace: seq<Event>, id: Id, actor: string)
    ensures Run(start, trace + [SoftDelete(id, actor)]).answers
            == SoftDeleteAnswer(Run(start, trace).answers, id, actor)
  {
    assert (trace + [SoftDelete(id, actor)])[..|trace|] == trace;
  }

  lemma NotLiveNotDeleted(t: Table, id: Id, actor: string)
    ensures !Live(t, id) ==> SoftDeleteAnswer(t, id, actor) == t
  {
  }

  class TrashBin {
    const service: AnswerService

    constructor (service: AnswerService)
      ensures this.service == service
    {
      this.service := service;
    }

    /** handleSKAnswerDelete. The number reported is that of the rows this call trashed if and only if every
        row it found live was still live at its statement; otherwise it is too large. With nobody else at work
        it is exactly the drop in live answers, duplicates and stale ids included. */
    method Delete(ids: seq<Id>, actor: string, loadFails: nat -> bool, dbFails: nat -> bool)
      returns (r: Bulk, ghost loads: seq<nat>, ghost at: seq<nat>)
      requires service.Valid()
      modifies service
      ensures service.Valid() && old(service.trace) <= service.trace
      ensures r.Rejected? <==> ids == []
      ensures r.Rejected? ==> service.trace == old(service.trace)
      ensures r.Stopped? ==> StoppedAt(ids, r.results, loadFails, dbFails)
      ensures !r.Rejected? ==> Carried(service.trace, |old(service.trace)|, ids, Deleting(actor), r.results, at)
      ensures !r.Rejected? ==> LoadedFirst(service.start, service.trace, |old(service.trace)|, r.results, loads, at,
                                           if r.Counted? then |r.results| else |r.results| - 1)
      ensures r.Counted? ==> |r.results| == |ids| && r.n == CountOk(r.results)
      ensures r.Counted? ==> Effects(service.start, service.trace, r.results, at) <= r.n
      ensures r.Counted? ==> (Effects(service.start, service.trace, r.results, at) == r.n <==>
                                forall i | 0 <= i < |ids| && r.results[i].ok ::
                                  Live(Run(service.start, service.trace[..at[i]]).answers, ids[i]))
      ensures ids != [] && (forall i: nat | i < |ids| :: !loadFails(i) && !dbFails(i)) ==> r.Counted?
      ensures r.Counted? && |service.trace| == |old(service.trace)| + r.n ==>
                && service.answers == SoftDeleteAll(old(service.answers), ids, actor)
                && r.n == |LiveIds(old(service.answers))| - |LiveIds(service.answers)|
                && AsListed(old(service.answers), ids, r.results)
    {
      hide SoftDeleteAnswer, SoftDeleteAll, CountOk, LiveIds, Run, Carried, LoadedFirst, AsListed, Effects, Took, Live;
      ghost var t, from := service.answers, |service.trace|;
      NothingDeleted(service.start, service.trace, t, from, ids, actor);
      loads, at := [], [];
      if |ids| == 0 {
        return Rejected, loads, at;
      }
      var results: seq<Item> := [];
      for i := 0 to |ids|
        invariant service.Valid() && old(service.trace) <= service.trace && |results| == |at| == |loads| == i
        invariant Carried(service.trace, from, ids, Deleting(actor), results, at)
        invariant LoadedFirst(service.start, service.trace, from, results, loads, at, i)
        invariant from + CountOk(results) <= |service.trace|
        invariant from + CountOk(results) == |service.trace| ==>
                    service.answers == SoftDeleteAll(t, ids[..i], actor) && AsListed(t, ids, results)
                    && CountOk(results) == |LiveIds(t)| - |LiveIds(service.answers)|
        invariant forall k: nat | k < i :: !loadFails(k) && (results[k].ok ==> !dbFails(k))
      {
        ghost var before, quiet := service.trace, from + CountOk(results) == |service.trace|;
        var d;
        ghost var l;
        d, l := service.SoftDelete(ids[i], actor, loadFails(i), dbFails(i));
        var found := d.Saved?;
        ghost var k := if found then |service.trace| - 1 else |service.trace|;
        CarriedSnoc(before, service.trace, from, ids, Deleting(actor), results, at, Item(ids[i], found), k);
        if d.Failed? {
          LoadedFailed(service.start, before, service.trace, from, results, loads, at, Item(ids[i], false), l, k);
          return Stopped(results + [Item(ids[i], false)]), loads + [l], at + [k];
        }
        LoadedSnoc(service.start, before, service.trace, from, results, loads, at, Item(ids[i], found), l, k);
        CountOkSnoc(results, Item(ids[i], found));
        if quiet && |service.trace| == |before| + if found then 1 else 0 {
          QuietDelete(service.start, t, before, service.trace, ids, actor, results, found, l);
          DeleteStep(t, ids, i, actor);
        }
        results := results + [Item(ids[i], found)];
        loads, at := loads + [l], at + [k];
      }
      assert ids[..|ids|] == ids;
      Reported(service.start, service.trace, from, ids, Deleting(actor), results, at);
      return Counted(CountOk(results), results), loads, at;
    }

    /** handleSKAnswerRestore: every listed id is reported restored, whether or not a row was. */
    method Restore(ids: seq<Id>, actor: string, dbFails: nat -> bool) returns (r: Bulk, ghost at: seq<nat>)
      requires service.Valid()
      modifies service
      ensures service.Valid() && old(service.trace) <= service.trace
      ensures r.Rejected? <==> ids == []
      ensures r.Rejected? ==> service.trace == old(service.trace)
      ensures r.Counted? <==> ids != [] && forall i: nat | i < |ids| :: !dbFails(i)
      ensures r.Stopped? ==> StoppedAt(ids, r.results, NEVER, dbFails)
      ensures !r.Rejected? ==> Carried(service.trace, |old(service.trace)|, ids, Restoring(actor), r.results, at)
                               && AllOk(r.results, if r.Counted? then |r.results| else |r.results| - 1)
      ensures r.Counted? ==> r.n == |ids| == |r.results| && Effects(service.start, service.trace, r.results, at) <= r.n
      ensures r.Counted? ==> (Effects(service.start, service.trace, r.results, at) == r.n <==>
                                forall i | 0 <= i < |ids| ::
                                  Trashed(Run(service.start, service.trace[..at[i]]).answers, ids[i]))
      ensures r.Counted? && |service.trace| == |old(service.trace)| + |ids| ==>
                && service.answers == RestoreAll(old(service.answers), ids, actor)
                && |LiveIds(service.answers)| - |LiveIds(old(service.answers))| <= r.n
                && (|LiveIds(service.answers)| - |LiveIds(old(service.answers))| == r.n <==>
                      Distinct(ids) && forall id | id in ids :: Trashed(old(service.answers), id))
    {
      hide RestoreAnswer, RestoreAll, CountOk, LiveIds, Run, Carried, Effects, Trashed, Trash.Distinct;
      ghost var t, from := service.answers, |service.trace|;
      NothingRestored(service.trace, t, from, ids, actor);
      at := [];
      if |ids| == 0 {
        return Rejected, at;
      }
      var results: seq<Item> := [];
      for i := 0 to |ids|
        invariant service.Valid() && old(service.trace) <= service.trace && |results| == |at| == i == CountOk(results)
        invariant Carried(service.trace, from, ids, Restoring(actor), results, at) && AllOk(results, i)
        invariant from + i <= |service.trace|
        invariant from + i == |service.trace| ==> service.answers == RestoreAll(t, ids[..i], actor)
        invariant forall k: nat | k < i :: !dbFails(k)
      {
        ghost var before := service.trace;
        service.AnyoneElse();
        assert |before| == |service.trace| ==> before == service.trace;
        if dbFails(i) {
          ghost var k := |service.trace|;
          CarriedSnoc(before, service.trace, from, ids, Restoring(actor), results, at, Item(ids[i], false), k);
          return Stopped(results + [Item(ids[i], false)]), at + [k];
        }
        ghost var k := |service.trace|;
        service.Execute(AnswerRuns.Restore(ids[i], actor));
        CarriedSnoc(before, service.trace, from, ids, Restoring(actor), results, at, Item(ids[i], true), k);
        CountOkSnoc(results, Item(ids[i], true));
        RestoreStep(t, ids, i, actor);
        results := results + [Item(ids[i], true)];
        at := at + [k];
      }
      assert ids[..|ids|] == ids;
      Reported(service.start, service.trace, from, ids, Restoring(actor), results, at);
      RestoredCount(t, ids, actor);
      return Counted(CountOk(results), results), at;
    }

    /** handleSKAnswerDestroy: likewise. */
    method Destroy(ids: seq<Id>, dbFails: nat -> bool) returns (r: Bulk, ghost at: seq<nat>)
      requires service.Valid()
      modifies service
      ensures service.Valid() && old(service.trace) <= service.trace
      ensures r.Rejected? <==> ids == []
      ensures r.Rejected? ==> service.trace == old(service.trace)
      ensures r.Counted? <==> ids != [] && forall i: nat | i < |ids| :: !dbFails(i)
      ensures r.Stopped? ==> StoppedAt(ids, r.results, NEVER, dbFails)
      ensures !r.Rejected? ==> Carried(service.trace, |old(service.trace)|, ids, Destroying, r.results, at)
                               && AllOk(r.results, if r.Counted? then |r.results| else |r.results| - 1)
      ensures r.Counted? ==> r.n == |ids| == |r.results| && Effects(service.start, service.trace, r.results, at) <= r.n
      ensures r.Counted? ==> (Effects(service.start, service.trace, r.results, at) == r.n <==>
                                forall i | 0 <= i < |ids| ::
                                    ids[i] in Run(service.start, service.trace[..at[i]]).answers)
      ensures r.Counted? && |service.trace| == |old(service.trace)| + |ids| ==>
                && service.answers == DestroyAll(old(service.answers), ids)
                && |old(service.answers)| - |service.answers| <= r.n
                && (|old(service.answers)| - |service.answers| == r.n
                   <==> Distinct(ids) && AllIn(old(service.answers), ids))
    {
      hide HardDeleteAnswer, DestroyAll, CountOk, Run, Carried, Effects, Trash.Distinct, AllIn;
      ghost var t, from := service.answers, |service.trace|;
      NothingDestroyed(service.trace, t, from, ids);
      at := [];
      if |ids| == 0 {
        return Rejected, at;
      }
      var results: seq<Item> := [];
      for i := 0 to |ids|
        invariant service.Valid() && old(service.trace) <= service.trace && |results| == |at| == i == CountOk(results)
        invariant Carried(service.trace, from, ids, Destroying, results, at) && AllOk(results, i)
        invariant from + i <= |service.trace|
        invariant from + i == |service.trace| ==> service.answers == DestroyAll(t, ids[..i])
        invariant forall k: nat | k < i :: !dbFails(k)
      {
        ghost var before := service.trace;
        service.AnyoneElse();
        assert |before| == |service.trace| ==> before == service.trace;
        if dbFails(i) {
          ghost var k := |service.trace|;
          CarriedSnoc(before, service.trace, from, ids, Destroying, results, at, Item(ids[i], false), k);
          return Stopped(results + [Item(ids[i], false)]), at + [k];
        }
        ghost var k := |service.trace|;
        service.Execute(AnswerRuns.Destroy(ids[i]));
        CarriedSnoc(before, service.trace, from, ids, Destroying, results, at, Item(ids[i], true), k);
        CountOkSnoc(results, Item(ids[i], true));
        DestroyNext(t, ids, i);
        results := results + [Item(ids[i], true)];
        at := at + [k];
      }
      assert ids[..|ids|] == ids;
      Reported(service.start, service.trace, from, ids, Destroying, results, at);
      DestroyedCount(t, ids);
      return Counted(CountOk(results), results), at;
    }
  }

  /** The first `n` results are ok. */
  predicate AllOk(results: seq<Item>, n: int) {
    n <= |results| && forall i | 0 <= i < n :: results[i].ok
  }

  /** A row that was live when it was loaded and is not at its statement was trashed or destroyed in between. */
  lemma OvercountNeedsRemoval(start: State, trace: seq<Event>, loaded: nat, at: nat, id: Id)
    requires loaded <= at <= |trace|
    requires Live(Run(start, trace[..loaded]).answers, id) && !Live(Run(start, trace[..at]).answers, id)
    ensures exists k :: loaded <= k < at && Removes(trace[k], id)
  {
    var between := trace[loaded..at];
    assert trace[..at] == trace[..loaded] + between;
    RunConcat(start, trace[..loaded], between);
    LostBetween(Run(start, trace[..loaded]), between, id);
    var k :| 0 <= k < |between| && Removes(between[k], id);
    assert trace[loaded + k] == between[k];
  }

  /** Theorem: two sessions that delete the same row at the same time: the second reports one row and trashed none. */
  lemma OneTooMany(start: State, id: Id, actor: string, actor': string)
    requires Live(start.answers, id)
    ensures var trace, results := [SoftDelete(id, actor'), SoftDelete(id, actor)], [Item(id, true)];
            && Carried(trace, 0, [id], Deleting(actor), results, [1])
            && LoadedFirst(start, trace, 0, results, [0], [1], 1)
            && CountOk(results) == 1 && Effects(start, trace, results, [1]) == 0
  {
    var e, e' := SoftDelete(id, actor), SoftDelete(id, actor');
    var trace, results := [e', e], [Item(id, true)];
    assert trace[..0] == [] && trace[..1] == [e'] && [e'][..0] == [];
    assert Run(start, [e']) == Apply(start, e');
    assert results[..0] == [];
    TookMeans(start, trace, 1);
    EffectsBound(start, trace, results, [1]);
  }

  lemma NothingDeleted(start: State, trace: seq<Event>, t: Table, from: nat, ids: seq<Id>, actor: string)
    ensures Carried(trace, from, ids, Deleting(actor), [], []) && LoadedFirst(start, trace, from, [], [], [], 0)
    ensures SoftDeleteAll(t, ids[..0], actor) == t && CountOk([]) == 0 && AsListed(t, ids, [])
  {
  }

  lemma NothingRestored(trace: seq<Event>, t: Table, from: nat, ids: seq<Id>, actor: string)
    ensures Carried(trace, from, ids, Restoring(actor), [], []) && RestoreAll(t, ids[..0], actor) == t
            && CountOk([]) == 0
  {
  }

  lemma RestoreStep(t: Table, ids: seq<Id>, i: nat, actor: string)
    requires i < |ids|
    ensures RestoreAll(t, ids[..i + 1], actor) == RestoreAnswer(RestoreAll(t, ids[..i], actor), ids[i], actor)
  {
    NextId(ids, i);
  }

  lemma NothingDestroyed(trace: seq<Event>, t: Table, from: nat, ids: seq<Id>)
    ensures Carried(trace, from, ids, Destroying, [], []) && DestroyAll(t, ids[..0]) == t && CountOk([]) == 0
  {
  }

  lemma DestroyNext(t: Table, ids: seq<Id>, i: nat)
    requires i < |ids|
    ensures DestroyAll(t, ids[..i + 1]) == HardDeleteAnswer(DestroyAll(t, ids[..i]), ids[i])
  {
    NextId(ids, i);
  }

  /** When the count is right, for each kind of statement. */
  lemma Reported(start: State, trace: seq<Event>, from: nat, ids: seq<Id>, op: Op, results: seq<Item>, at: seq<nat>)
    requires Carried(trace, from, ids, op, results, at)
    ensures Effects(start, trace, results, at) <= CountOk(results)
    ensures Effects(start, trace, results, at) == CountOk(results) <==>
            forall i | 0 <= i < |results| && results[i].ok :: Ready(op, Run(start, trace[..at[i]]).answers, ids[i])
  {
    hide Effects, CountOk, Took, Run, Ready;
    EffectsBound(start, trace, results, at);
    forall i | 0 <= i < |results| && results[i].ok
      ensures Took(start, trace, at[i]) <==> Ready(op, Run(start, trace[..at[i]]).answers, ids[i])
    {
      ReadyTakes(start, trace, at[i], op, ids[i]);
    }
  }

  /** There is a row for the statement to change. */
  predicate Ready(op: Op, t: Table, id: Id) {
    match op case Deleting(_) => Live(t, id) case Restoring(_) => Trashed(t, id) case Destroying => id in t
  }

  lemma ReadyTakes(start: State, trace: seq<Event>, k: nat, op: Op, id: Id)
    requires k < |trace| && trace[k] == StatementOf(op, id)
    ensures Took(start, trace, k) <==> Ready(op, Run(start, trace[..k]).answers, id)
  {
    hide Took;
    TookMeans(start, trace, k);
  }

  lemma DeleteStep(t: Table, ids: seq<Id>, i: nat, actor: string)
    requires i < |ids|
    ensures var now, next := SoftDeleteAll(t, ids[..i], actor), SoftDeleteAll(t, ids[..i + 1], actor);
            var hit := Live(t, ids[i]) && ids[i] !in ids[..i];
            && (Live(now, ids[i]) <==> hit) && next == SoftDeleteAnswer(now, ids[i], actor)
            && |LiveIds(next)| == |LiveIds(now)| - if hit then 1 else 0
  {
    NextId(ids, i);
    SoftDeleteAllSpec(t, ids[..i], actor);
    OneLess(SoftDeleteAll(t, ids[..i], actor), ids[i], actor);
  }

  lemma NextId(ids: seq<Id>, i: nat)
    requires i < |ids|
    ensures ids[..i + 1] == ids[..i] + [ids[i]] && ids[..i + 1][..i] == ids[..i]
  {
  }
}
