/**
  Job stores: the plain scan of src/schedflow/core/jobstore.py and the index of src/schedflow/core/stores/redis.py.

  A stored job is a value: both stores hand out copies.
 */
module JobStores {
  import opened Prelude
  import opened Calendar
  import opened Triggers
  import opened Jobs
  import opened Graph

  datatype Operation = Add(job: Job) | Update(job: Job) | Remove(id: JobId)

  /** The answer to an operation: done, `JobConflictError` or `JobNotFoundError`. */
  datatype Response = Done | Conflict | NotFound

  ghost predicate Keyed(jobs: map<JobId, Job>) {
    forall id :: id in jobs ==> jobs[id].id == id
  }

  predicate IsDue(jobs: map<JobId, Job>, id: JobId, now: int) {
    id in jobs && jobs[id].nextRunTime.Some? && jobs[id].nextRunTime.value <= now
  }

  /** The ids name jobs with a run time, in nondecreasing order of these times. */
  predicate InTimeOrder(jobs: map<JobId, Job>, ids: seq<JobId>) {
    && (forall i :: 0 <= i < |ids| ==> ids[i] in jobs && jobs[ids[i]].nextRunTime.Some?)
    && (forall i, j :: 0 <= i < j < |ids| ==> jobs[ids[i]].nextRunTime.value <= jobs[ids[j]].nextRunTime.value)
  }

  function JobsOf(jobs: map<JobId, Job>, ids: seq<JobId>): (r: seq<Job>)
    requires forall i :: 0 <= i < |ids| ==> ids[i] in jobs
    ensures |r| == |ids| && forall i :: 0 <= i < |r| ==> r[i] == jobs[ids[i]]
  {
    seq(|ids|, i requires 0 <= i < |ids| => jobs[ids[i]])
  }

  /** `t` is the least run time of the jobs, or `None` when no job has one. */
  predicate IsNextRunTime(jobs: map<JobId, Job>, t: Option<int>) {
    && (forall id :: id in jobs && jobs[id].nextRunTime.Some? ==> t.Some? && t.value <= jobs[id].nextRunTime.value)
    && (t.Some? ==> exists id :: id in jobs && jobs[id].nextRunTime == t)
  }

  // ---- the plain store ----

  /** A dictionary of jobs and its insertion order. */
  datatype Memory = Memory(order: seq<JobId>, jobs: map<JobId, Job>)

  ghost predicate ValidMemory(m: Memory) {
    Keyed(m.jobs) && NoDuplicates(m.order) && forall id :: id in m.order <==> id in m.jobs
  }

  lemma StillNoDuplicates(id: JobId, ids: seq<JobId>)
    requires NoDuplicates(ids) && id !in ids
    ensures NoDuplicates([id] + ids)
  {
  }

  lemma TailNoDuplicates(ids: seq<JobId>)
    requires ids != [] && NoDuplicates(ids)
    ensures NoDuplicates(ids[1..]) && ids[0] !in ids[1..]
  {
  }

  lemma StillInTimeOrder(jobs: map<JobId, Job>, id: JobId, ids: seq<JobId>)
    requires InTimeOrder(jobs, ids) && id in jobs && jobs[id].nextRunTime.Some?
    requires forall x :: x in ids ==> jobs[id].nextRunTime.value <= jobs[x].nextRunTime.value
    ensures InTimeOrder(jobs, [id] + ids)
  {
  }

  function Without(ids: seq<JobId>, id: JobId): (r: seq<JobId>)
    ensures forall x :: x in r <==> x in ids && x != id
    ensures NoDuplicates(ids) ==> NoDuplicates(r)
  {
    if ids == [] then []
    else
      var rest := Without(ids[1..], id);
      assert NoDuplicates(ids) ==> NoDuplicates([ids[0]] + rest) by {
        if NoDuplicates(ids) { TailNoDuplicates(ids); StillNoDuplicates(ids[0], rest); }
      }
      if ids[0] == id then rest else [ids[0]] + rest
  }

  function MemoryStep(m: Memory, op: Operation): Memory {
    match op
    case Add(job) => if job.id in m.jobs then m else Memory(m.order + [job.id], m.jobs[job.id := job])
    case Update(job) => if job.id in m.jobs then m.(jobs := m.jobs[job.id := job]) else m
    case Remove(id) => if id in m.jobs then Memory(Without(m.order, id), m.jobs - {id}) else m
  }

  /** Both stores answer from the ids they hold. */
  function Respond(jobs: map<JobId, Job>, op: Operation): Response {
    match op
    case Add(job) => if job.id in jobs then Conflict else Done
    case Update(job) => if job.id in jobs then Done else NotFound
    case Remove(id) => if id in jobs then Done else NotFound
  }

  lemma MemoryStaysValid(m: Memory, op: Operation)
    requires ValidMemory(m)
    ensures ValidMemory(MemoryStep(m, op))
  {
  }

  /** Inserts `id` behind the ids that are not later, as a stable sort does. */
  function InsertByTime(jobs: map<JobId, Job>, ids: seq<JobId>, id: JobId): (r: seq<JobId>)
    requires InTimeOrder(jobs, ids) && id in jobs && jobs[id].nextRunTime.Some?
    ensures InTimeOrder(jobs, r)
    ensures forall x :: x in r <==> x in ids || x == id
    ensures NoDuplicates(ids) && id !in ids ==> NoDuplicates(r)
  {
    if ids == [] then [id]
    else if jobs[ids[0]].nextRunTime.value <= jobs[id].nextRunTime.value then
      var rest := InsertByTime(jobs, ids[1..], id);
      assert NoDuplicates(ids) && id !in ids ==> NoDuplicates([ids[0]] + rest) by {
        if NoDuplicates(ids) && id !in ids { TailNoDuplicates(ids); StillNoDuplicates(ids[0], rest); }
      }
      StillInTimeOrder(jobs, ids[0], rest);
      [ids[0]] + rest
    else [id] + ids
  }

  /** The due ones among the first ids of the dictionary, sorted by run time. */
  function DueIds(jobs: map<JobId, Job>, ids: seq<JobId>, now: int): (r: seq<JobId>)
    ensures InTimeOrder(jobs, r)
    ensures forall id :: id in r <==> id in ids && IsDue(jobs, id, now)
    ensures NoDuplicates(ids) ==> NoDuplicates(r)
  {
    if ids == [] then []
    else
      var rest, last := ids[..|ids| - 1], ids[|ids| - 1];
      assert ids == rest + [last];
      assert NoDuplicates(ids) ==> NoDuplicates(rest) && last !in rest;
      if IsDue(jobs, last, now) then InsertByTime(jobs, DueIds(jobs, rest, now), last) else DueIds(jobs, rest, now)
  }

  function MemoryDue(m: Memory, now: int): seq<Job> {
    JobsOf(m.jobs, DueIds(m.jobs, m.order, now))
  }

  function LeastRunTime(jobs: map<JobId, Job>, ids: seq<JobId>): (t: Option<int>)
    ensures forall id :: id in ids && id in jobs && jobs[id].nextRunTime.Some? ==> t.Some? && t.value <= jobs[id].nextRunTime.value
    ensures t.Some? ==> exists id :: id in ids && id in jobs && jobs[id].nextRunTime == t
  {
    if ids == [] then None
    else
      var rest := LeastRunTime(jobs, ids[1..]);
      if ids[0] !in jobs || jobs[ids[0]].nextRunTime.None? then rest
      else
        var t := jobs[ids[0]].nextRunTime.value;
        Some(if rest.Some? then Min(t, rest.value) else t)
  }

  /** `MemoryJobStore` */
  class MemoryJobStore {
    var jobs: map<JobId, Job>
    var order: seq<JobId>

    function Value(): Memory
      reads this
    {
      Memory(order, jobs)
    }

    ghost predicate Valid()
      reads this
    {
      ValidMemory(Value())
    }

    constructor ()
      ensures Valid() && Value() == Memory([], map[])
    {
      jobs, order := map[], [];
    }

    method Add(job: Job) returns (r: Response)
      requires Valid()
      modifies this
      ensures Valid() && Value() == MemoryStep(old(Value()), Operation.Add(job))
      ensures r == Respond(old(jobs), Operation.Add(job))
    {
      MemoryStaysValid(Value(), Operation.Add(job));
      if job.id in jobs {
        return Conflict;
      }
      jobs, order := jobs[job.id := job], order + [job.id];
      r := Done;
    }

    method Update(job: Job) returns (r: Response)
      requires Valid()
      modifies this
      ensures Valid() && Value() == MemoryStep(old(Value()), Operation.Update(job))
      ensures r == Respond(old(jobs), Operation.Update(job))
    {
      MemoryStaysValid(Value(), Operation.Update(job));
      if job.id !in jobs {
        return NotFound;
      }
      jobs := jobs[job.id := job];
      r := Done;
    }

    method Remove(id: JobId) returns (r: Response)
      requires Valid()
      modifies this
      ensures Valid() && Value() == MemoryStep(old(Value()), Operation.Remove(id))
      ensures r == Respond(old(jobs), Operation.Remove(id))
    {
      MemoryStaysValid(Value(), Operation.Remove(id));
      if id !in jobs {
        return NotFound;
      }
      jobs, order := jobs - {id}, Without(order, id);
      r := Done;
    }

    function Get(id: JobId): (r: Option<Job>)
      reads this
    {
      if id in jobs then Some(jobs[id]) else None
    }

    function GetDue(now: int): seq<Job>
      reads this
    {
      MemoryDue(Value(), now)
    }

    function GetNextRunTime(): Option<int>
      reads this
    {
      LeastRunTime(jobs, order)
    }
  }

  // ---- the index ----

  /** A member of a sorted set. */
  datatype Entry = Entry(score: int, member: JobId)

  /** 1970-01-01 on the civil time line. */
  const EPOCH := 62_135_683_200 * MICROS

  lemma EpochIs1970()
    ensures Sec(DateTime(1970, 1, 1, 0, 0, 0)) * MICROS == EPOCH
  {
  }

  /** `timestamp()` of a civil instant in a zone that is `offset` ahead of UTC, in microseconds. */
  function Score(offset: int, t: int): int {
    t - offset - EPOCH
  }

  /** `fromtimestamp` */
  function TimeOf(offset: int, score: int): int {
    score + offset + EPOCH
  }

  /** The hash of jobs and the sorted set of their run times, as seconds since 1970 UTC, in microseconds. `offset` is
      that of the zone of the civil time line. */
  datatype Redis = Redis(offset: int, hash: map<JobId, Job>, index: seq<Entry>)

  /** The index lists exactly the jobs that have a run time, each once, with that time, in time order. */
  ghost predicate ValidRedis(r: Redis) {
    && Keyed(r.hash)
    && Sorted(r.index)
    && OneEach(r.index)
    && forall e :: e in r.index <==> e.member in r.hash && r.hash[e.member].nextRunTime == Some(TimeOf(r.offset, e.score))
  }

  predicate Sorted(z: seq<Entry>) {
    forall i, j :: 0 <= i < j < |z| ==> z[i].score <= z[j].score
  }

  predicate OneEach(z: seq<Entry>) {
    forall i, j :: 0 <= i < j < |z| ==> z[i].member != z[j].member
  }

  lemma StillOneEach(e: Entry, z: seq<Entry>)
    requires OneEach(z) && forall x :: x in z ==> x.member != e.member
    ensures OneEach([e] + z)
  {
  }

  lemma StillSorted(e: Entry, z: seq<Entry>)
    requires Sorted(z) && forall x :: x in z ==> e.score <= x.score
    ensures Sorted([e] + z)
  {
  }

  lemma FirstIsLeast(z: seq<Entry>, e: Entry)
    requires Sorted(z) && e in z
    ensures z[0].score <= e.score
  {
  }

  /** Members of equal score are in lexicographic order. */
  predicate LexLess(a: string, b: string) {
    b != "" && (a == "" || a[0] < b[0] || (a[0] == b[0] && LexLess(a[1..], b[1..])))
  }

  /** `ZREM` */
  function ZRem(z: seq<Entry>, id: JobId): (r: seq<Entry>)
    ensures forall e :: e in r <==> e in z && e.member != id
    ensures Sorted(z) ==> Sorted(r)
    ensures OneEach(z) ==> OneEach(r)
  {
    if z == [] then []
    else
      var rest := ZRem(z[1..], id);
      KeepsOrder(z, rest);
      if z[0].member == id then rest else [z[0]] + rest
  }

  /** Putting the first entry back in front of some of the later ones. */
  lemma KeepsOrder(z: seq<Entry>, rest: seq<Entry>)
    requires z != [] && forall e :: e in rest ==> e in z[1..]
    requires (Sorted(z[1..]) ==> Sorted(rest)) && (OneEach(z[1..]) ==> OneEach(rest))
    ensures Sorted(z) ==> Sorted(rest) && Sorted([z[0]] + rest)
    ensures OneEach(z) ==> OneEach(rest) && OneEach([z[0]] + rest)
  {
    if Sorted(z) {
      forall e | e in rest ensures z[0].score <= e.score { assert e in z[1..]; }
      StillSorted(z[0], rest);
    }
    if OneEach(z) {
      forall e | e in rest ensures z[0].member != e.member { assert e in z[1..]; }
      StillOneEach(z[0], rest);
    }
  }

  function ZInsert(z: seq<Entry>, e: Entry): (r: seq<Entry>)
    requires Sorted(z)
    ensures Sorted(r)
    ensures forall x :: x in r <==> x in z || x == e
    ensures OneEach(z) && (forall x :: x in z ==> x.member != e.member) ==> OneEach(r)
  {
    if z == [] || e.score < z[0].score || (e.score == z[0].score && LexLess(e.member, z[0].member)) then [e] + z
    else
      var rest := ZInsert(z[1..], e);
      assert OneEach(z) && (forall x :: x in z ==> x.member != e.member) ==> OneEach([z[0]] + rest) by {
        if OneEach(z) && (forall x :: x in z ==> x.member != e.member) { StillOneEach(z[0], rest); }
      }
      StillSorted(z[0], rest);
      [z[0]] + rest
  }

  /** `ZADD` */
  function ZAdd(z: seq<Entry>, id: JobId, score: int): (r: seq<Entry>)
    requires Sorted(z)
    ensures Sorted(r) && (OneEach(z) ==> OneEach(r))
    ensures forall e :: e in r <==> (e in z && e.member != id) || e == Entry(score, id)
  {
    ZInsert(ZRem(z, id), Entry(score, id))
  }

  /** `ZRANGEBYSCORE` */
  function ZRangeByScore(z: seq<Entry>, low: int, high: int): (r: seq<JobId>)
    ensures forall id :: id in r <==> exists e :: e in z && e.member == id && low <= e.score <= high
  {
    if z == [] then []
    else (if low <= z[0].score <= high then [z[0].member] else []) + ZRangeByScore(z[1..], low, high)
  }

  /** The index with the run time of `job`. */
  function Indexed(r: Redis, job: Job): seq<Entry>
    requires Sorted(r.index) && job.nextRunTime.Some?
  {
    ZAdd(r.index, job.id, Score(r.offset, job.nextRunTime.value))
  }

  function RedisStep(r: Redis, op: Operation): Redis
    requires Sorted(r.index)
  {
    match op
    case Add(job) =>
      if job.id in r.hash then r
      else Redis(r.offset, r.hash[job.id := job], if job.nextRunTime.Some? then Indexed(r, job) else r.index)
    case Update(job) =>
      if job.id !in r.hash then r
      else Redis(r.offset, r.hash[job.id := job],
                 if job.nextRunTime.Some? then Indexed(r, job) else ZRem(r.index, job.id))
    case Remove(id) => if id in r.hash then Redis(r.offset, r.hash - {id}, ZRem(r.index, id)) else r
  }

  lemma RedisStaysValid(r: Redis, op: Operation)
    requires ValidRedis(r)
    ensures ValidRedis(RedisStep(r, op))
  {
    match op
    case Add(job) => IndexFollows(r, job);
    case Update(job) => IndexFollows(r, job);
    case Remove(id) =>
  }

  /** The index follows the hash when a job is stored, whether or not its id was there before. */
  lemma IndexFollows(r: Redis, job: Job)
    requires ValidRedis(r)
    ensures ValidRedis(Redis(r.offset, r.hash[job.id := job],
                             if job.nextRunTime.Some? then Indexed(r, job) else ZRem(r.index, job.id)))
    ensures job.id !in r.hash ==> ZRem(r.index, job.id) == r.index
  {
    if job.nextRunTime.Some? {
      TimeIsIndexed(r, job);
    } else {
      TimeIsRemoved(r, job);
    }
    if job.id !in r.hash {
      forall e | e in r.index ensures e.member != job.id { }
      NothingToRemove(r.index, job.id);
    }
  }

  lemma TimeIsIndexed(r: Redis, job: Job)
    requires ValidRedis(r) && job.nextRunTime.Some?
    ensures ValidRedis(Redis(r.offset, r.hash[job.id := job], Indexed(r, job)))
  {
  }

  lemma TimeIsRemoved(r: Redis, job: Job)
    requires ValidRedis(r) && job.nextRunTime.None?
    ensures ValidRedis(Redis(r.offset, r.hash[job.id := job], ZRem(r.index, job.id)))
  {
  }

  lemma {:induction false} NothingToRemove(z: seq<Entry>, id: JobId)
    requires forall e :: e in z ==> e.member != id
    ensures ZRem(z, id) == z
  {
    if z != [] {
      assert z[0] in z;
      NothingToRemove(z[1..], id);
    }
  }

  function RedisDue(r: Redis, now: int): seq<Job> {
    JobsIn(r.hash, ZRangeByScore(r.index, 0, Score(r.offset, now)))
  }

  /** The jobs of the ids that the hash still holds. */
  function JobsIn(hash: map<JobId, Job>, ids: seq<JobId>): (r: seq<Job>)
    ensures (forall i :: 0 <= i < |ids| ==> ids[i] in hash) ==> r == JobsOf(hash, ids)
  {
    if ids == [] then []
    else (if ids[0] in hash then [hash[ids[0]]] else []) + JobsIn(hash, ids[1..])
  }

  function RedisNextRunTime(r: Redis): Option<int> {
    if r.index == [] then None else Some(TimeOf(r.offset, r.index[0].score))
  }

  /** `RedisJobStore` */
  class RedisJobStore {
    const offset: int
    var hash: map<JobId, Job>
    var index: seq<Entry>

    function Value(): Redis
      reads this
    {
      Redis(offset, hash, index)
    }

    ghost predicate Valid()
      reads this
    {
      ValidRedis(Value())
    }

    constructor (offset: int)
      ensures Valid() && Value() == Redis(offset, map[], [])
    {
      this.offset, hash, index := offset, map[], [];
    }

    method Add(job: Job) returns (r: Response)
      requires Valid()
      modifies this
      ensures Valid() && Value() == RedisStep(old(Value()), Operation.Add(job))
      ensures r == Respond(old(hash), Operation.Add(job))
    {
      RedisStaysValid(Value(), Operation.Add(job));
      if job.id in hash {
        return Conflict;
      }
      hash := hash[job.id := job];
      if job.nextRunTime.Some? {
        index := ZAdd(index, job.id, Score(offset, job.nextRunTime.value));
      }
      r := Done;
    }

    method Update(job: Job) returns (r: Response)
      requires Valid()
      modifies this
      ensures Valid() && Value() == RedisStep(old(Value()), Operation.Update(job))
      ensures r == Respond(old(hash), Operation.Update(job))
    {
      RedisStaysValid(Value(), Operation.Update(job));
      if job.id !in hash {
        return NotFound;
      }
      hash := hash[job.id := job];
      if job.nextRunTime.Some? {
        index := ZAdd(index, job.id, Score(offset, job.nextRunTime.value));
      } else {
        index := ZRem(index, job.id);
      }
      r := Done;
    }

    method Remove(id: JobId) returns (r: Response)
      requires Valid()
      modifies this
      ensures Valid() && Value() == RedisStep(old(Value()), Operation.Remove(id))
      ensures r == Respond(old(hash), Operation.Remove(id))
    {
      RedisStaysValid(Value(), Operation.Remove(id));
      if id !in hash {
        return NotFound;
      }
      hash := hash - {id};
      index := ZRem(index, id);
      r := Done;
    }

    function GetDue(now: int): seq<Job>
      reads this
    {
      RedisDue(Value(), now)
    }

    function GetNextRunTime(): Option<int>
      reads this
    {
      RedisNextRunTime(Value())
    }
  }

  // ---- what the stores return ----

  lemma MemoryAnswers(m: Memory)
    requires ValidMemory(m)
    ensures IsNextRunTime(m.jobs, LeastRunTime(m.jobs, m.order))
  {
  }

  lemma RedisAnswers(r: Redis)
    requires ValidRedis(r)
    ensures IsNextRunTime(r.hash, RedisNextRunTime(r))
  {
    forall id | id in r.hash && r.hash[id].nextRunTime.Some?
      ensures r.index != [] && TimeOf(r.offset, r.index[0].score) <= r.hash[id].nextRunTime.value
    {
      var e := Entry(Score(r.offset, r.hash[id].nextRunTime.value), id);
      assert e in r.index;
      FirstIsLeast(r.index, e);
    }
    if r.index != [] {
      assert r.index[0] in r.index;
    }
  }

  lemma {:induction false} RangeInTimeOrder(offset: int, hash: map<JobId, Job>, z: seq<Entry>, low: int, high: int)
    requires Sorted(z) && OneEach(z)
    requires forall e :: e in z ==> e.member in hash && hash[e.member].nextRunTime == Some(TimeOf(offset, e.score))
    ensures InTimeOrder(hash, ZRangeByScore(z, low, high)) && NoDuplicates(ZRangeByScore(z, low, high))
  {
    if z != [] {
      RangeInTimeOrder(offset, hash, z[1..], low, high);
      assert z[0] in z;
      var rest := ZRangeByScore(z[1..], low, high);
      forall x | x in rest
        ensures x != z[0].member && x in hash && TimeOf(offset, z[0].score) <= hash[x].nextRunTime.value
      {
        var e :| e in z[1..] && e.member == x;
        assert e in z;
      }
      StillNoDuplicates(z[0].member, rest);
      StillInTimeOrder(hash, z[0].member, rest);
      assert [] + rest == rest;
    }
  }

  function RunTimes(jobs: map<JobId, Job>, ids: seq<JobId>): (r: seq<int>)
    requires InTimeOrder(jobs, ids)
    ensures |r| == |ids| && forall i :: 0 <= i < |r| ==> r[i] == jobs[ids[i]].nextRunTime.value
  {
    seq(|ids|, i requires 0 <= i < |ids| => jobs[ids[i]].nextRunTime.value)
  }

  /** A sequence without its element at `i`. */
  function WithoutAt<T>(s: seq<T>, i: nat): (r: seq<T>)
    requires i < |s|
    ensures |r| == |s| - 1
    ensures forall k :: 0 <= k < |r| ==> r[k] == if k < i then s[k] else s[k + 1]
  {
    s[..i] + s[i + 1..]
  }

  lemma RemoveAt(jobs: map<JobId, Job>, ids: seq<JobId>, i: nat)
    requires i < |ids| && NoDuplicates(ids) && InTimeOrder(jobs, ids)
    ensures var r := WithoutAt(ids, i);
            && NoDuplicates(r) && InTimeOrder(jobs, r)
            && forall x :: x in r <==> x in ids && x != ids[i]
  {
    var r := WithoutAt(ids, i);
    forall x | x in ids && x != ids[i]
      ensures x in r
    {
      var k :| 0 <= k < |ids| && ids[k] == x;
      assert k < i ==> r[k] == x;
      assert k > i ==> r[k - 1] == x;
    }
  }

  /** Two orders by time of the same jobs differ only between jobs of equal time. */
  lemma {:induction false} SameTimes(jobs: map<JobId, Job>, a: seq<JobId>, b: seq<JobId>)
    requires NoDuplicates(a) && InTimeOrder(jobs, a) && NoDuplicates(b) && InTimeOrder(jobs, b)
    requires forall id :: id in a <==> id in b
    ensures RunTimes(jobs, a) == RunTimes(jobs, b)
    decreases |a|
  {
    if a != [] {
      assert a[0] in b;
      var i :| 0 <= i < |b| && b[i] == a[0];
      RemoveAt(jobs, a, 0);
      RemoveAt(jobs, b, i);
      SameTimes(jobs, WithoutAt(a, 0), WithoutAt(b, i));
      FirstTimesAgree(jobs, a, b, i);
      RunTimesWithout(jobs, a, 0);
      RunTimesWithout(jobs, b, i);
      SameWithoutFirst(RunTimes(jobs, a), RunTimes(jobs, b), i);
    } else if b != [] {
      NothingIsIn(b, a);
    }
  }

  lemma NothingIsIn(b: seq<JobId>, a: seq<JobId>)
    requires b != [] && forall id :: id in b ==> id in a
    ensures a != []
  {
    assert b[0] in a;
  }

  lemma RunTimesWithout(jobs: map<JobId, Job>, ids: seq<JobId>, i: nat)
    requires i < |ids| && InTimeOrder(jobs, ids) && InTimeOrder(jobs, WithoutAt(ids, i))
    ensures RunTimes(jobs, WithoutAt(ids, i)) == WithoutAt(RunTimes(jobs, ids), i)
  {
  }

  lemma SameWithoutFirst(s: seq<int>, t: seq<int>, i: nat)
    requires s != [] && i < |t| && WithoutAt(s, 0) == WithoutAt(t, i)
    requires forall k :: 0 <= k <= i ==> t[k] == s[0]
    ensures s == t
  {
    forall k | 0 < k < |s|
      ensures s[k] == t[k]
    {
      assert s[k] == WithoutAt(s, 0)[k - 1] == WithoutAt(t, i)[k - 1];
    }
  }

  lemma FirstTimesAgree(jobs: map<JobId, Job>, a: seq<JobId>, b: seq<JobId>, i: nat)
    requires a != [] && i < |b| && b[i] == a[0]
    requires InTimeOrder(jobs, a) && InTimeOrder(jobs, b)
    requires forall id :: id in b ==> id in a
    ensures forall k :: 0 <= k <= i ==> jobs[b[k]].nextRunTime == jobs[a[0]].nextRunTime
  {
    forall k | 0 <= k <= i
      ensures jobs[b[k]].nextRunTime.value == jobs[a[0]].nextRunTime.value
    {
      assert b[k] in a;
    }
  }

  // ---- agreement ----

  /** The two stores hold the same jobs, and the index is exact. */
  ghost predicate Agree(m: Memory, r: Redis) {
    ValidMemory(m) && ValidRedis(r) && m.jobs == r.hash
  }

  /** Both stores after a sequence of operations, with their answers. */
  function RunMemory(m: Memory, ops: seq<Operation>): (Memory, seq<Response>)
    decreases |ops|
  {
    if ops == [] then (m, [])
    else
      var (last, answers) := RunMemory(MemoryStep(m, ops[0]), ops[1..]);
      (last, [Respond(m.jobs, ops[0])] + answers)
  }

  ghost function RunRedis(r: Redis, ops: seq<Operation>): (Redis, seq<Response>)
    requires ValidRedis(r)
    decreases |ops|
  {
    if ops == [] then (r, [])
    else
      RedisStaysValid(r, ops[0]);
      var (last, answers) := RunRedis(RedisStep(r, ops[0]), ops[1..]);
      (last, [Respond(r.hash, ops[0])] + answers)
  }

  /** Every sequence of operations gets the same answers from both stores and leaves the index exact. */
  lemma {:induction false} StoresAgree(m: Memory, r: Redis, ops: seq<Operation>)
    requires Agree(m, r)
    ensures Agree(RunMemory(m, ops).0, RunRedis(r, ops).0)
    ensures RunMemory(m, ops).1 == RunRedis(r, ops).1
    decreases |ops|
  {
    if ops != [] {
      MemoryStaysValid(m, ops[0]);
      RedisStaysValid(r, ops[0]);
      StoresAgree(MemoryStep(m, ops[0]), RedisStep(r, ops[0]), ops[1..]);
    }
  }

  /** Both stores name the same next run time. */
  lemma NextRunTimesAgree(m: Memory, r: Redis)
    requires Agree(m, r)
    ensures LeastRunTime(m.jobs, m.order) == RedisNextRunTime(r)
  {
    MemoryAnswers(m);
    RedisAnswers(r);
    OneNextRunTime(m.jobs, LeastRunTime(m.jobs, m.order), RedisNextRunTime(r));
  }

  lemma OneNextRunTime(jobs: map<JobId, Job>, s: Option<int>, t: Option<int>)
    requires IsNextRunTime(jobs, s) && IsNextRunTime(jobs, t)
    ensures s == t
  {
  }

  function Ids(jobs: seq<Job>): (r: seq<JobId>)
    ensures |r| == |jobs| && forall i :: 0 <= i < |r| ==> r[i] == jobs[i].id
  {
    seq(|jobs|, i requires 0 <= i < |jobs| => jobs[i].id)
  }

  /** The jobs are stored under their ids, each is listed once, and the list is in time order. */
  ghost predicate ListsStored(jobs: map<JobId, Job>, list: seq<Job>) {
    && (forall i :: 0 <= i < |list| ==> list[i].id in jobs && list[i] == jobs[list[i].id])
    && NoDuplicates(Ids(list)) && InTimeOrder(jobs, Ids(list))
  }

  /** The plain store returns exactly the due jobs. */
  lemma MemoryDueIsExact(m: Memory, now: int)
    requires ValidMemory(m)
    ensures ListsStored(m.jobs, MemoryDue(m, now))
    ensures forall id :: id in Ids(MemoryDue(m, now)) <==> IsDue(m.jobs, id, now)
  {
    assert Ids(MemoryDue(m, now)) == DueIds(m.jobs, m.order, now);
  }

  /** The time of the job is not before 1970, in a zone with the given offset. */
  predicate SinceEpoch(offset: int, job: Job) {
    job.nextRunTime.Some? ==> EPOCH + offset <= job.nextRunTime.value
  }

  /** The index returns exactly the due jobs whose time is not before 1970. */
  lemma RedisDueIsExact(r: Redis, now: int)
    requires ValidRedis(r)
    ensures ListsStored(r.hash, RedisDue(r, now))
    ensures forall id :: id in Ids(RedisDue(r, now)) <==> IsDue(r.hash, id, now) && SinceEpoch(r.offset, r.hash[id])
  {
    var ids := ZRangeByScore(r.index, 0, Score(r.offset, now));
    RangeInTimeOrder(r.offset, r.hash, r.index, 0, Score(r.offset, now));
    assert RedisDue(r, now) == JobsOf(r.hash, ids);
    assert Ids(RedisDue(r, now)) == ids;
    forall id
      ensures id in ids <==> IsDue(r.hash, id, now) && SinceEpoch(r.offset, r.hash[id])
    {
      if IsDue(r.hash, id, now) {
        assert Entry(Score(r.offset, r.hash[id].nextRunTime.value), id) in r.index;
      }
    }
  }

  /** The stores return the same due jobs, in an order that differs only between jobs of equal time, if and only if
      no due job has a time before 1970. */
  lemma DueJobsAgree(m: Memory, r: Redis, now: int)
    requires Agree(m, r)
    ensures var a, b := Ids(MemoryDue(m, now)), Ids(RedisDue(r, now));
            && InTimeOrder(m.jobs, a) && InTimeOrder(m.jobs, b)
            && ((forall id :: id in a <==> id in b) && RunTimes(m.jobs, a) == RunTimes(m.jobs, b)
                <==> forall id :: IsDue(m.jobs, id, now) ==> SinceEpoch(r.offset, m.jobs[id]))
  {
    MemoryDueIsExact(m, now);
    RedisDueIsExact(r, now);
    var a, b := Ids(MemoryDue(m, now)), Ids(RedisDue(r, now));
    if forall id :: id in a <==> id in b {
      SameTimes(m.jobs, a, b);
      forall id | IsDue(m.jobs, id, now)
        ensures SinceEpoch(r.offset, m.jobs[id])
      {
        assert id in a && id in b;
      }
    }
  }

  // ---- a job the index never returns ----

  /** A job due on 1 January 1960. */
  function OldJob(): Job {
    Job("old", None, None, 1, Running, Some(Sec(DateTime(1960, 1, 1, 0, 0, 0)) * MICROS))
  }

  lemma OldTime()
    ensures Sec(DateTime(1960, 1, 1, 0, 0, 0)) == 61_820_064_000
    ensures Instant(OldJob().nextRunTime.value) && OldJob().nextRunTime.value + DAY_SECONDS * MICROS < EPOCH
  {
  }

  /** Added to both stores, in any zone less than a day off, it is due for ever in the plain one and never in the
      other. */
  lemma OldJobIsNeverReturned(offset: int, now: int)
    requires -DAY_SECONDS * MICROS < offset < DAY_SECONDS * MICROS && OldJob().nextRunTime.value <= now
    ensures ValidRedis(Redis(offset, map[], [])) && ValidMemory(Memory([], map[]))
    ensures var m, r := RunMemory(Memory([], map[]), [Add(OldJob())]).0, RunRedis(Redis(offset, map[], []), [Add(OldJob())]).0;
            && Agree(m, r)
            && "old" in Ids(MemoryDue(m, now)) && "old" !in Ids(RedisDue(r, now))
  {
    var m0, r0, op := Memory([], map[]), Redis(offset, map[], []), Add(OldJob());
    OldTime();
    StoresAgree(m0, r0, [op]);
    var m, r := MemoryStep(m0, op), RedisStep(r0, op);
    assert [op][1..] == [];
    assert RunMemory(m0, [op]).0 == RunMemory(m, []).0 == m;
    assert RunRedis(r0, [op]).0 == RunRedis(r, []).0 == r;
    MemoryDueIsExact(m, now);
    RedisDueIsExact(r, now);
    assert IsDue(m.jobs, "old", now) && !SinceEpoch(offset, r.hash["old"]);
  }
}
