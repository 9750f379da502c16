/** Counting rows: the live and trashed counts, the report counters, and what the bulk handlers claim. */
module Trash {
  import opened Options
  import opened AnswerTable

  function LiveIds(t: Table): set<Id> {
    set id | id in t && !t[id].deleted
  }

  /** CountAnswersByProject, CountTrashedAnswers and the rows stored, for one project. */
  function LiveOf(t: Table, project: Id): set<Id> {
    set id | id in t && t[id].projectId == project && !t[id].deleted
  }

  function TrashedOf(t: Table, project: Id): set<Id> {
    set id | id in t && t[id].projectId == project && t[id].deleted
  }

  function StoredOf(t: Table, project: Id): set<Id> {
    set id | id in t && t[id].projectId == project
  }

  /** ProjectAnswerStats: answers with a given temp_save. */
  function LiveWith(t: Table, project: Id, tempSave: int): set<Id> {
    set id | id in LiveOf(t, project) && t[id].tempSave == Some(tempSave)
  }

  lemma CountsAddUp(t: Table, project: Id)
    ensures |LiveOf(t, project)| + |TrashedOf(t, project)| == |StoredOf(t, project)|
  {
    assert StoredOf(t, project) == LiveOf(t, project) + TrashedOf(t, project);
  }

  /** A new row counts once, for its own project and in its own state. */
  lemma OneRowCounts(t: Table, id: Id, row: Answer, project: Id)
    requires id !in t
    ensures var t' := t[id := row];
            var live, trashed := row.projectId == project && !row.deleted, row.projectId == project && row.deleted;
            && |LiveOf(t', project)| == |LiveOf(t, project)| + (if live then 1 else 0)
            && |TrashedOf(t', project)| == |TrashedOf(t, project)| + (if trashed then 1 else 0)
            && |StoredOf(t', project)| == |StoredOf(t, project)| + (if live || trashed then 1 else 0)
  {
    hide LiveOf, TrashedOf, StoredOf;
    LiveAdds(t, id, row, project);
    TrashedAdds(t, id, row, project);
    CountsAddUp(t, project);
    CountsAddUp(t[id := row], project);
  }

  lemma LiveAdds(t: Table, id: Id, row: Answer, project: Id)
    requires id !in t
    ensures |LiveOf(t[id := row], project)|
            == |LiveOf(t, project)| + if row.projectId == project && !row.deleted then 1 else 0
  {
    var ids := LiveOf(t[id := row], project);
    LiveMembers(t, id, row, project);
    hide LiveOf;
    if row.projectId == project && !row.deleted {
      assert ids == LiveOf(t, project) + {id};
    } else {
      assert ids == LiveOf(t, project);
    }
  }

  lemma TrashedAdds(t: Table, id: Id, row: Answer, project: Id)
    requires id !in t
    ensures |TrashedOf(t[id := row], project)|
            == |TrashedOf(t, project)| + if row.projectId == project && row.deleted then 1 else 0
  {
    var ids := TrashedOf(t[id := row], project);
    if row.projectId == project && row.deleted {
      assert ids == TrashedOf(t, project) + {id};
    } else {
      assert ids == TrashedOf(t, project);
    }
  }

  lemma LiveMembers(t: Table, id: Id, row: Answer, project: Id)
    requires id !in t
    ensures id !in LiveOf(t, project) && forall x | x in LiveOf(t, project) :: x in t && x != id
    ensures forall x :: x in LiveOf(t[id := row], project) <==>
              x in LiveOf(t, project) || (x == id && row.projectId == project && !row.deleted)
  {
  }

  /** Among the live answers it counts for the temp_save it has: 1 is finished, 0 a draft. */
  lemma OneRowReported(t: Table, id: Id, row: Answer, project: Id, tempSave: int)
    requires id !in t
    ensures |LiveWith(t[id := row], project, tempSave)|
            == |LiveWith(t, project, tempSave)|
               + if row.projectId == project && !row.deleted && row.tempSave == Some(tempSave) then 1 else 0
  {
    var ids := LiveWith(t[id := row], project, tempSave);
    LiveMembers(t, id, row, project);
    hide LiveOf;
    if row.projectId == project && !row.deleted && row.tempSave == Some(tempSave) {
      assert ids == LiveWith(t, project, tempSave) + {id};
    } else {
      assert ids == LiveWith(t, project, tempSave);
    }
  }

  /** An empty table counts nothing. */
  lemma NothingCounts(project: Id)
    ensures |LiveOf(map[], project)| == |TrashedOf(map[], project)| == |StoredOf(map[], project)| == 0
  {
  }

  /** Theorem: finished and draft answers never exceed the total, and add up to it exactly when every
      live answer is one or the other. */
  lemma ReportCounters(t: Table, project: Id)
    ensures |LiveWith(t, project, 1)| + |LiveWith(t, project, 0)| <= |LiveOf(t, project)|
    ensures |LiveWith(t, project, 1)| + |LiveWith(t, project, 0)| == |LiveOf(t, project)| <==>
            forall id | id in LiveOf(t, project) :: t[id].tempSave == Some(0) || t[id].tempSave == Some(1)
  {
    var done, drafts, all := LiveWith(t, project, 1), LiveWith(t, project, 0), LiveOf(t, project);
    var other := all - (done + drafts);
    assert done !! drafts && all == done + drafts + other;
    assert |all| == |done| + |drafts| + |other|;
  }

  // ---------------------------------------------------------------- one statement per id

  function SoftDeleteAll(t: Table, ids: seq<Id>, actor: string): Table {
    if ids == [] then t else SoftDeleteAnswer(SoftDeleteAll(t, ids[..|ids| - 1], actor), ids[|ids| - 1], actor)
  }

  function RestoreAll(t: Table, ids: seq<Id>, actor: string): Table {
    if ids == [] then t else RestoreAnswer(RestoreAll(t, ids[..|ids| - 1], actor), ids[|ids| - 1], actor)
  }

  function DestroyAll(t: Table, ids: seq<Id>): Table {
    if ids == [] then t else HardDeleteAnswer(DestroyAll(t, ids[..|ids| - 1]), ids[|ids| - 1])
  }

  predicate Distinct(ids: seq<Id>) {
    forall i, j | 0 <= i < j < |ids| :: ids[i] != ids[j]
  }

  lemma DistinctSnoc(ids: seq<Id>, id: Id)
    ensures Distinct(ids + [id]) <==> Distinct(ids) && id !in ids
  {
    var all := ids + [id];
    if Distinct(all) {
      assert forall i | 0 <= i < |ids| :: all[i] == ids[i] && all[i] != all[|ids|];
    }
  }

  /** Theorem: a bulk deletion trashes exactly the listed live rows and nothing else. */
  lemma {:induction false} SoftDeleteAllSpec(t: Table, ids: seq<Id>, actor: string)
    ensures var t' := SoftDeleteAll(t, ids, actor);
            && t'.Keys == t.Keys
            && forall id | id in t :: t'[id] == if id in ids && !t[id].deleted
                                                 then t[id].(deleted := true, updateBy := Some(actor)) else t[id]
  {
    if ids != [] {
      SoftDeleteAllSpec(t, ids[..|ids| - 1], actor);
      assert ids == ids[..|ids| - 1] + [ids[|ids| - 1]];
    }
  }

  lemma {:induction false} RestoreAllSpec(t: Table, ids: seq<Id>, actor: string)
    ensures var t' := RestoreAll(t, ids, actor);
            && t'.Keys == t.Keys
            && forall id | id in t :: t'[id] == if id in ids && t[id].deleted
                                                 then t[id].(deleted := false, updateBy := Some(actor)) else t[id]
  {
    if ids != [] {
      RestoreAllSpec(t, ids[..|ids| - 1], actor);
      assert ids == ids[..|ids| - 1] + [ids[|ids| - 1]];
    }
  }

  lemma OneLess(t: Table, id: Id, actor: string)
    ensures |LiveIds(SoftDeleteAnswer(t, id, actor))| == |LiveIds(t)| - if Live(t, id) then 1 else 0
  {
    if Live(t, id) {
      assert LiveIds(SoftDeleteAnswer(t, id, actor)) == LiveIds(t) - {id};
    }
  }

  lemma OneMore(t: Table, id: Id, actor: string)
    ensures |LiveIds(RestoreAnswer(t, id, actor))| == |LiveIds(t)| + if Trashed(t, id) then 1 else 0
  {
    if Trashed(t, id) {
      assert LiveIds(RestoreAnswer(t, id, actor)) == LiveIds(t) + {id};
    }
  }

  /** Theorem: the restore handler reports one restored answer per listed id. That is the number of answers
      that came back exactly when the ids are distinct and all in the trash; otherwise it is too large. */
  lemma {:induction false} RestoredCount(t: Table, ids: seq<Id>, actor: string)
    ensures |LiveIds(RestoreAll(t, ids, actor))| - |LiveIds(t)| <= |ids|
    ensures |LiveIds(RestoreAll(t, ids, actor))| - |LiveIds(t)| == |ids| <==>
            Distinct(ids) && forall id | id in ids :: Trashed(t, id)
  {
    if ids != [] {
      var front, last := ids[..|ids| - 1], ids[|ids| - 1];
      RestoredCount(t, front, actor);
      RestoreAllSpec(t, front, actor);
      OneMore(RestoreAll(t, front, actor), last, actor);
      DistinctSnoc(front, last);
      assert ids == front + [last];
      assert Trashed(RestoreAll(t, front, actor), last) <==> Trashed(t, last) && last !in front;
      hide RestoreAnswer, Distinct;
      assert (forall id | id in ids :: Trashed(t, id))
          <==> (forall id | id in front :: Trashed(t, id)) && Trashed(t, last);
    }
  }

  lemma {:induction false} DestroyAllSpec(t: Table, ids: seq<Id>)
    ensures DestroyAll(t, ids).Keys == t.Keys - (set id | id in ids)
    ensures forall id | id in DestroyAll(t, ids) :: DestroyAll(t, ids)[id] == t[id]
  {
    if ids != [] {
      DestroyAllSpec(t, ids[..|ids| - 1]);
      assert ids == ids[..|ids| - 1] + [ids[|ids| - 1]];
    }
  }

  lemma OneGone(t: Table, id: Id)
    ensures |HardDeleteAnswer(t, id)| == |t| - if id in t then 1 else 0
  {
    var t' := HardDeleteAnswer(t, id);
    assert t'.Keys == t.Keys - {id} && |t'| == |t'.Keys| && |t| == |t.Keys|;
  }

  lemma DestroyStep(t: Table, front: seq<Id>, last: Id)
    ensures |DestroyAll(t, front + [last])| == |DestroyAll(t, front)| - if last in t && last !in front then 1 else 0
  {
    DestroyAllSpec(t, front);
    OneGone(DestroyAll(t, front), last);
    assert (front + [last])[..|front|] == front;
  }

  predicate AllIn(t: Table, ids: seq<Id>) {
    forall id | id in ids :: id in t
  }

  /** Theorem: likewise for the number of destroyed answers. */
  lemma {:induction false} DestroyedCount(t: Table, ids: seq<Id>)
    ensures |t| - |DestroyAll(t, ids)| <= |ids|
    ensures |t| - |DestroyAll(t, ids)| == |ids| <==> Distinct(ids) && AllIn(t, ids)
  {
    if ids != [] {
      hide DestroyAll, Distinct;
      var front, last := ids[..|ids| - 1], ids[|ids| - 1];
      assert ids == front + [last];
      DestroyedCount(t, front);
      DestroyStep(t, front, last);
      DistinctSnoc(front, last);
    }
  }
}
