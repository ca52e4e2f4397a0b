/** What the operations of the plain store do in full, and the order of what it returns. */
module StoreFacts {
  import opened Prelude
  import opened Graph
  import opened Jobs
  import opened JobStores

  /** `add`, `update` and `remove`: the answer, and all of the new contents. */
  lemma OperationsExactly(m: Memory, op: Operation)
    requires ValidMemory(m)
    ensures
      var m', r := MemoryStep(m, op), Respond(m.jobs, op);
      match op
      case Add(job) =>
        if job.id in m.jobs then r == Conflict && m' == m
        else r == Done && m'.order == m.order + [job.id] && m'.jobs.Keys == m.jobs.Keys + {job.id}
             && m'.jobs[job.id] == job && forall id :: id in m.jobs ==> m'.jobs[id] == m.jobs[id]
      case Update(job) =>
        if job.id !in m.jobs then r == NotFound && m' == m
        else r == Done && m'.order == m.order && m'.jobs.Keys == m.jobs.Keys
             && m'.jobs[job.id] == job && forall id :: id in m.jobs && id != job.id ==> m'.jobs[id] == m.jobs[id]
      case Remove(id) =>
        if id !in m.jobs then r == NotFound && m' == m
        else r == Done && m'.jobs.Keys == m.jobs.Keys - {id} && forall i :: i in m'.jobs ==> m'.jobs[i] == m.jobs[i]
  {
  }

  /** Removing a job keeps the order of the others. */
  lemma {:induction false} RemovalKeepsOrder(before: seq<JobId>, id: JobId, after: seq<JobId>)
    requires id !in before && id !in after
    ensures Without(before + [id] + after, id) == before + after
    decreases |before|
  {
    var all := before + [id] + after;
    if before == [] {
      assert all[1..] == after;
      NothingWithout(after, id);
    } else {
      assert all[0] == before[0] && all[1..] == before[1..] + [id] + after;
      RemovalKeepsOrder(before[1..], id, after);
      assert [before[0]] + (before[1..] + after) == before + after;
    }
  }

  lemma {:induction false} NothingWithout(ids: seq<JobId>, id: JobId)
    requires id !in ids
    ensures Without(ids, id) == ids
  {
    if ids != [] {
      NothingWithout(ids[1..], id);
    }
  }

  /** Which jobs are due, and when. */
  lemma DueExactly(m: Memory, now: int)
    requires ValidMemory(m)
    ensures
      var list := MemoryDue(m, now);
      && (forall id :: (exists i :: 0 <= i < |list| && list[i].id == id) <==>
            id in m.jobs && m.jobs[id].nextRunTime.Some? && m.jobs[id].nextRunTime.value <= now)
      && (forall i :: 0 <= i < |list| ==> list[i].id in m.jobs && list[i] == m.jobs[list[i].id] && list[i].nextRunTime.Some?)
      && (forall i, j :: 0 <= i < j < |list| ==> list[i].id != list[j].id && list[i].nextRunTime.value <= list[j].nextRunTime.value)
  {
    MemoryDueIsExact(m, now);
    var list := MemoryDue(m, now);
    forall id
      ensures (exists i :: 0 <= i < |list| && list[i].id == id) <==> IsDue(m.jobs, id, now)
    {
      if id in Ids(list) {
        var i :| 0 <= i < |list| && Ids(list)[i] == id;
        assert list[i].id == id;
      }
      if i :| 0 <= i < |list| && list[i].id == id {
        assert Ids(list)[i] == id;
      }
    }
    forall i, j | 0 <= i < j < |list|
      ensures list[i].id != list[j].id && list[i].nextRunTime.value <= list[j].nextRunTime.value
    {
      assert Ids(list)[i] == list[i].id && Ids(list)[j] == list[j].id;
    }
  }

  // ---- jobs of equal time ----

  /** `a` comes before `b` in the sequence. */
  ghost predicate Precedes(ids: seq<JobId>, a: JobId, b: JobId) {
    exists i, j :: 0 <= i < j < |ids| && ids[i] == a && ids[j] == b
  }

  lemma {:induction false} InsertedBehind(jobs: map<JobId, Job>, ids: seq<JobId>, id: JobId, a: JobId)
    requires InTimeOrder(jobs, ids) && id in jobs && jobs[id].nextRunTime.Some? && a in ids
    requires jobs[a].nextRunTime.value <= jobs[id].nextRunTime.value
    ensures Precedes(InsertByTime(jobs, ids, id), a, id)
    decreases |ids|
  {
    var r := InsertByTime(jobs, ids, id);
    var i :| 0 <= i < |ids| && ids[i] == a;
    assert jobs[ids[0]].nextRunTime.value <= jobs[a].nextRunTime.value;
    var rest := InsertByTime(jobs, ids[1..], id);
    assert r == [ids[0]] + rest;
    if a == ids[0] {
      assert id in rest;
      var k :| 0 <= k < |rest| && rest[k] == id;
      assert r[0] == a && r[k + 1] == id;
    } else {
      assert ids[1..][i - 1] == a;
      InsertedBehind(jobs, ids[1..], id, a);
      LaterInTail(ids[0], rest, a, id);
    }
  }

  lemma LaterInTail(first: JobId, rest: seq<JobId>, a: JobId, b: JobId)
    requires Precedes(rest, a, b)
    ensures Precedes([first] + rest, a, b)
  {
    var i, j :| 0 <= i < j < |rest| && rest[i] == a && rest[j] == b;
    assert ([first] + rest)[i + 1] == a && ([first] + rest)[j + 1] == b;
  }

  lemma {:induction false} InsertionKeepsOrder(jobs: map<JobId, Job>, ids: seq<JobId>, id: JobId, a: JobId, b: JobId)
    requires InTimeOrder(jobs, ids) && id in jobs && jobs[id].nextRunTime.Some? && Precedes(ids, a, b)
    ensures Precedes(InsertByTime(jobs, ids, id), a, b)
    decreases |ids|
  {
    var r := InsertByTime(jobs, ids, id);
    var i, j :| 0 <= i < j < |ids| && ids[i] == a && ids[j] == b;
    if jobs[ids[0]].nextRunTime.value <= jobs[id].nextRunTime.value {
      var rest := InsertByTime(jobs, ids[1..], id);
      assert r == [ids[0]] + rest;
      if i == 0 {
        assert ids[1..][j - 1] == b && b in rest;
        var k :| 0 <= k < |rest| && rest[k] == b;
        assert r[0] == a && r[k + 1] == b;
      } else {
        assert ids[1..][i - 1] == a && ids[1..][j - 1] == b;
        InsertionKeepsOrder(jobs, ids[1..], id, a, b);
        LaterInTail(ids[0], rest, a, b);
      }
    } else {
      assert r[i + 1] == a && r[j + 1] == b;
    }
  }

  /** Due jobs of equal time come in the order in which they were added: the sort is stable. */
  lemma {:induction false} TiesKeepOrder(jobs: map<JobId, Job>, ids: seq<JobId>, now: int, a: JobId, b: JobId)
    requires NoDuplicates(ids) && Precedes(ids, a, b) && IsDue(jobs, a, now) && IsDue(jobs, b, now)
    requires jobs[a].nextRunTime == jobs[b].nextRunTime
    ensures Precedes(DueIds(jobs, ids, now), a, b)
    decreases |ids|
  {
    var rest, last := ids[..|ids| - 1], ids[|ids| - 1];
    var i, j :| 0 <= i < j < |ids| && ids[i] == a && ids[j] == b;
    assert rest[i] == a;
    var due := DueIds(jobs, rest, now);
    if j == |ids| - 1 {
      assert a in due;
      InsertedBehind(jobs, due, last, a);
    } else {
      assert rest[j] == b;
      TiesKeepOrder(jobs, rest, now, a, b);
      if IsDue(jobs, last, now) {
        InsertionKeepsOrder(jobs, due, last, a, b);
      }
    }
  }
}
