/**
 * The job scheduler of the alarm worker: recurrence arithmetic of a fire
 * condition, and a store made of a job hash (job id -> job) and a runtimes
 * index (job id -> next fire time, a sorted set). Times are whole seconds.
 */
module Scheduler {
  import opened Opt

  // ---------------------------------------------------------------------------
  // Recurrence arithmetic
  // ---------------------------------------------------------------------------

  /** The mathematical ceiling of `a / b`. */
  function CeilDiv(a: int, b: int): (q: int)
    requires b != 0
    ensures b > 0 ==> (q - 1) * b < a <= q * b
    ensures b < 0 ==> q * b <= a < (q - 1) * b
  {
    if b > 0 then
      var f := (-a) / b;
      assert -a == b * f + (-a) % b;
      assert (-f - 1) * b == -(f * b) - b;
      -f
    else
      var f := a / b;
      assert a == b * f + a % b;
      assert (f - 1) * b == f * b - b;
      f
  }

  /**
   * When a job should fire: `start` and an optional `interval` in seconds
   * (`None` or zero make it a one-shot job).
   */
  datatype FireCondition = FireCondition(start: int, interval: Option<int>)

  predicate Repeating(c: FireCondition) {
    c.interval.Some? && c.interval.value != 0
  }

  /**
   * `FireCondition.get_next_fire_time(date)`: the start while it is still
   * ahead; nothing for an exhausted one-shot job; otherwise the first point
   * of the grid `start + k * interval` at or after `date`.
   */
  function NextFireTime(c: FireCondition, date: int): (r: Option<int>)
    ensures date < c.start ==> r == Some(c.start)
    ensures c.start <= date && !Repeating(c) ==> r.None?
    ensures c.start <= date && Repeating(c) && c.interval.value > 0 ==>
      r.Some? && date <= r.value < date + c.interval.value && (r.value - c.start) % c.interval.value == 0
    ensures c.start <= date && Repeating(c) && c.interval.value < 0 ==>
      r.Some? && date + c.interval.value < r.value <= date && c.start <= r.value
      && (r.value - c.start) % c.interval.value == 0
  {
    if c.start > date then Some(c.start)
    else if !Repeating(c) then None
    else
      var i := c.interval.value;
      CeilGrid(date - c.start, i);
      Some(c.start + i * CeilDiv(date - c.start, i))
  }

  /** Multiplying by a positive factor keeps the order. */
  lemma MulCancel(a: int, b: int, i: int)
    requires i > 0
    ensures a * i < b * i <==> a < b
  {
    assert b * i - a * i == (b - a) * i;
  }

  /** The grid point `i * ceil(t / i)` for a non-negative offset `t`. */
  lemma CeilGrid(t: int, i: int)
    requires t >= 0 && i != 0
    ensures i > 0 ==> t <= i * CeilDiv(t, i) < t + i
    ensures i < 0 ==> t + i < i * CeilDiv(t, i) <= t && 0 <= i * CeilDiv(t, i)
    ensures (i * CeilDiv(t, i)) % i == 0
  {
    var k := CeilDiv(t, i);
    if i > 0 {
      CeilGridPositive(t, i, k);
    } else {
      CeilGridNegative(t, i, k);
    }
    MulMod(i, k);
  }

  /** A multiple of `i` leaves no remainder. */
  lemma MulMod(i: int, k: int)
    requires i != 0
    ensures (i * k) % i == 0
  {
    var x := i * k;
    var q := x / i;
    assert x == i * q + x % i;
    assert i * k - i * q == i * (k - q);
    ProductBounds(i, k - q);
  }

  lemma {:induction false} MulAtLeast(a: int, b: int)
    requires a > 0 && b > 0
    ensures a * b >= a
    decreases b
  {
    if b > 1 {
      MulAtLeast(a, b - 1);
      assert a * b == a * (b - 1) + a;
    }
  }

  /** A non-zero multiple of `i` is at least `|i|` away from zero. */
  lemma ProductBounds(i: int, d: int)
    ensures i > 0 && d > 0 ==> i * d >= i
    ensures i > 0 && d < 0 ==> i * d <= -i
    ensures i < 0 && d > 0 ==> i * d <= i
    ensures i < 0 && d < 0 ==> i * d >= -i
  {
    if i > 0 && d > 0 { MulAtLeast(i, d); }
    if i > 0 && d < 0 { MulAtLeast(i, -d); assert i * d == -(i * -d); }
    if i < 0 && d > 0 { MulAtLeast(-i, d); assert i * d == -((-i) * d); }
    if i < 0 && d < 0 { MulAtLeast(-i, -d); assert i * d == (-i) * (-d); }
  }

  lemma CeilGridPositive(t: int, i: int, k: int)
    requires i > 0 && (k - 1) * i < t <= k * i
    ensures t <= i * k < t + i
  {
    assert (k - 1) * i == k * i - i;
  }

  lemma CeilGridNegative(t: int, i: int, k: int)
    requires t >= 0 && i < 0 && k * i <= t < (k - 1) * i
    ensures t + i < i * k <= t && 0 <= i * k
  {
    assert (k - 1) * i == k * i - i;
    MulCancel(0, k, -i);
    assert k * (-i) == -(k * i);
  }

  /** A positive-interval job lands on `date` itself exactly when `date` lies on its grid. */
  lemma NextFireAligned(c: FireCondition, date: int)
    requires c.start <= date && Repeating(c) && c.interval.value > 0
    ensures NextFireTime(c, date) == Some(date) <==> (date - c.start) % c.interval.value == 0
  {
    var i := c.interval.value;
    var t := date - c.start;
    var k := CeilDiv(t, i);
    if t % i == 0 {
      var m := t / i;
      assert t == m * i;
      MulCancel(k - 1, m, i);
      MulCancel(m, k, i);
    }
  }

  /** The next fire time is the least grid point at or after `date`. */
  lemma NextFireLeast(c: FireCondition, date: int, k: int)
    requires c.start <= date && Repeating(c) && c.interval.value > 0
    requires c.start + k * c.interval.value >= date
    ensures NextFireTime(c, date).value <= c.start + k * c.interval.value
  {
    var i := c.interval.value;
    var q := CeilDiv(date - c.start, i);
    MulCancel(q - 1, k, i);
    MulCancel(k, q, i);
  }

  // ---------------------------------------------------------------------------
  // Jobs and the store
  // ---------------------------------------------------------------------------

  type JobId = string

  /**
   * A stored job: its id, a reference to the coroutine function to call
   * (`module:qualname`), its arguments and its fire condition.
   */
  datatype Job = Job(id: JobId, func: string, args: seq<string>, kwargs: map<string, string>, cond: FireCondition)

  /** The two store structures: the job hash and the runtimes index. */
  datatype Store = Store(jobs: map<JobId, Job>, runtimes: map<JobId, int>)

  /** Every hash record is filed under its own job's id. */
  predicate Keyed(jobs: map<JobId, Job>) {
    forall id :: id in jobs ==> jobs[id].id == id
  }

  /** Every indexed id has a hash record. */
  predicate Covered(s: Store) {
    forall id :: id in s.runtimes ==> id in s.jobs
  }

  /** The score `add_job` gives a new job: its next fire time after `now`, or `now`. */
  function InitialScore(job: Job, now: int): int {
    NextFireTime(job.cond, now).GetOr(now)
  }

  /** `add_job`: the record and its score are written together. */
  function AddSpec(s: Store, job: Job, now: int): (r: Store) {
    Store(s.jobs[job.id := job], s.runtimes[job.id := InitialScore(job, now)])
  }

  /** `remove_job`: nothing happens unless the hash holds the id. */
  function RemoveSpec(s: Store, id: JobId): (r: Store) {
    if id !in s.jobs then s else Store(s.jobs - {id}, s.runtimes - {id})
  }

  /** `ZRANGEBYSCORE key 0 date` membership. */
  predicate IsDue(r: map<JobId, int>, id: JobId, date: int) {
    id in r && 0 <= r[id] <= date
  }

  /** The index after `_get_jobs(date)`: due ids without a hash record are dropped. */
  function Prune(r: map<JobId, int>, jobs: map<JobId, Job>, date: int): map<JobId, int> {
    map id | id in r && !(IsDue(r, id, date) && id !in jobs) :: r[id]
  }

  /** The index after `_enqueue_job_repeat(js, date)`. */
  function Repeat(r: map<JobId, int>, js: seq<Job>, date: int): map<JobId, int>
    decreases |js|
  {
    if js == [] then r
    else
      var n := NextFireTime(js[0].cond, date);
      Repeat(if n.Some? then r[js[0].id := n.value] else r - {js[0].id}, js[1..], date)
  }

  /**
   * The index after one iteration of the processing loop at `date`, stated id
   * by id: an id not due keeps its score; a due id without a record, or whose
   * job has no next fire time, leaves the index; any other due id is moved to
   * its job's next fire time.
   */
  predicate StaysIndexed(s: Store, id: JobId, date: int) {
    !IsDue(s.runtimes, id, date) || (id in s.jobs && NextFireTime(s.jobs[id].cond, date).Some?)
  }

  function NewScore(s: Store, id: JobId, date: int): int
    requires id in s.runtimes && StaysIndexed(s, id, date)
  {
    if IsDue(s.runtimes, id, date) then NextFireTime(s.jobs[id].cond, date).value else s.runtimes[id]
  }

  function TickRuntimes(s: Store, date: int): map<JobId, int> {
    map id | id in s.runtimes && StaysIndexed(s, id, date) :: NewScore(s, id, date)
  }

  function TickStore(s: Store, date: int): Store {
    Store(s.jobs, TickRuntimes(s, date))
  }

  /** Successive iterations of the processing loop at the clock readings `nows`. */
  function Ticks(s: Store, nows: seq<int>): Store
    decreases |nows|
  {
    if nows == [] then s else Ticks(TickStore(s, nows[0]), nows[1..])
  }

  // ---------------------------------------------------------------------------
  // Order of the runtimes index: by score, then by member
  // ---------------------------------------------------------------------------

  /** Lexicographic order of member strings, as the sorted set breaks score ties. */
  predicate StrLess(a: string, b: string)
    decreases |a|
  {
    |b| > 0 && (|a| == 0 || a[0] < b[0] || (a[0] == b[0] && StrLess(a[1..], b[1..])))
  }

  lemma {:induction false} StrLessIrreflexive(a: string)
    ensures !StrLess(a, a)
  {
    if |a| > 0 { StrLessIrreflexive(a[1..]); }
  }

  lemma {:induction false} StrLessTransitive(a: string, b: string, c: string)
    requires StrLess(a, b) && StrLess(b, c)
    ensures StrLess(a, c)
  {
    if |a| > 0 && a[0] == b[0] && b[0] == c[0] {
      StrLessTransitive(a[1..], b[1..], c[1..]);
    }
  }

  lemma {:induction false} StrLessTotal(a: string, b: string)
    requires a != b
    ensures StrLess(a, b) || StrLess(b, a)
  {
    if |a| > 0 && |b| > 0 && a[0] == b[0] {
      assert a == [a[0]] + a[1..] && b == [b[0]] + b[1..];
      StrLessTotal(a[1..], b[1..]);
    }
  }

  predicate Before(r: map<JobId, int>, a: JobId, b: JobId)
    requires a in r && b in r
  {
    r[a] < r[b] || (r[a] == r[b] && StrLess(a, b))
  }

  /** The index order is transitive. */
  lemma BeforeTransitive(r: map<JobId, int>, a: JobId, b: JobId, c: JobId)
    requires a in r && b in r && c in r
    requires Before(r, a, b) && Before(r, b, c)
    ensures Before(r, a, c)
  {
    if r[a] == r[b] == r[c] {
      StrLessTransitive(a, b, c);
    }
  }

  /** Two different indexed ids are always ordered one way or the other. */
  lemma BeforeTotal(r: map<JobId, int>, a: JobId, b: JobId)
    requires a in r && b in r && a != b
    ensures Before(r, a, b) || Before(r, b, a)
  {
    if r[a] == r[b] {
      StrLessTotal(a, b);
    }
  }

  /** The first member of a non-empty set of indexed ids. */
  lemma {:induction false} FirstOf(ids: set<JobId>, r: map<JobId, int>) returns (m: JobId)
    requires ids != {} && ids <= r.Keys
    ensures m in ids && forall y :: y in ids && y != m ==> Before(r, m, y)
    decreases |ids|
  {
    var x :| x in ids;
    var rest := ids - {x};
    if rest == {} {
      assert ids == {x};
      m := x;
    } else {
      var n := FirstOf(rest, r);
      if Before(r, x, n) {
        forall y | y in ids && y != x
          ensures Before(r, x, y)
        {
          if y != n {
            BeforeTransitive(r, x, n, y);
          }
        }
        m := x;
      } else {
        BeforeTotal(r, x, n);
        assert forall y :: y in ids ==> y == x || y in rest;
        m := n;
      }
    }
  }

  /** Every non-empty set of indexed ids has a first member. */
  lemma MinExists(ids: set<JobId>, r: map<JobId, int>)
    requires ids != {} && ids <= r.Keys
    ensures exists m :: m in ids && forall y :: y in ids && y != m ==> Before(r, m, y)
  {
    var m := FirstOf(ids, r);
  }

  /** `ids` is the answer of `ZRANGEBYSCORE runtimes 0 date`: every due id, in index order. */
  ghost predicate IsDueOrder(ids: seq<JobId>, r: map<JobId, int>, date: int) {
    && (forall i :: 0 <= i < |ids| ==> IsDue(r, ids[i], date))
    && (forall id :: IsDue(r, id, date) ==> id in ids)
    && (forall i, j :: 0 <= i < j < |ids| ==> Before(r, ids[i], ids[j]))
  }

  lemma DueOrderDistinct(ids: seq<JobId>, r: map<JobId, int>, date: int)
    requires IsDueOrder(ids, r, date)
    ensures forall i, j :: 0 <= i < j < |ids| ==> ids[i] != ids[j]
  {
    forall i, j | 0 <= i < j < |ids| ensures ids[i] != ids[j] {
      if ids[i] == ids[j] { StrLessIrreflexive(ids[i]); }
    }
  }

  /** The jobs of `ids` that have a hash record, in the order of `ids` (`HMGET` and the skip). */
  function Lookup(ids: seq<JobId>, jobs: map<JobId, Job>): seq<Job> {
    if ids == [] then []
    else Lookup(ids[..|ids| - 1], jobs) + (if ids[|ids| - 1] in jobs then [jobs[ids[|ids| - 1]]] else [])
  }

  /** The index once the ids of `ids` without a hash record are dropped. */
  function PruneIds(r: map<JobId, int>, ids: seq<JobId>, jobs: map<JobId, Job>): map<JobId, int> {
    map id | id in r && !(id in ids && id !in jobs) :: r[id]
  }

  lemma PruneIdsStep(r: map<JobId, int>, ids: seq<JobId>, id: JobId, jobs: map<JobId, Job>)
    ensures id !in jobs ==> PruneIds(r, ids + [id], jobs) == PruneIds(r, ids, jobs) - {id}
    ensures id in jobs ==> PruneIds(r, ids + [id], jobs) == PruneIds(r, ids, jobs)
  {
  }

  lemma PruneIdsDue(r: map<JobId, int>, ids: seq<JobId>, jobs: map<JobId, Job>, date: int)
    requires IsDueOrder(ids, r, date)
    ensures PruneIds(r, ids, jobs) == Prune(r, jobs, date)
  {
  }

  // ---------------------------------------------------------------------------
  // Properties of the store operations
  // ---------------------------------------------------------------------------

  /** Removing a job that was just added restores the store it was added to. */
  lemma AddThenRemove(s: Store, job: Job, now: int)
    requires job.id !in s.jobs && job.id !in s.runtimes
    ensures RemoveSpec(AddSpec(s, job, now), job.id) == s
  {
    assert s.jobs[job.id := job] - {job.id} == s.jobs;
    assert s.runtimes[job.id := InitialScore(job, now)] - {job.id} == s.runtimes;
  }

  /** Removing an id the hash does not hold leaves a stale index entry in place. */
  lemma RemoveKeepsOrphan(s: Store, id: JobId)
    requires id !in s.jobs && id in s.runtimes
    ensures id in RemoveSpec(s, id).runtimes
  {
  }

  /** A removed job is gone from both structures. */
  lemma RemoveErases(s: Store, id: JobId)
    requires id in s.jobs
    ensures id !in RemoveSpec(s, id).jobs && id !in RemoveSpec(s, id).runtimes
    ensures forall other :: other != id ==>
      (other in RemoveSpec(s, id).jobs <==> other in s.jobs)
      && (other in RemoveSpec(s, id).runtimes <==> other in s.runtimes)
  {
  }

  /** A new job is indexed at its next fire time after `now`, never before `now`. */
  lemma AddScheduledNotBeforeNow(s: Store, job: Job, now: int)
    ensures (job.cond.interval.None? || job.cond.interval.value >= 0) ==> AddSpec(s, job, now).runtimes[job.id] >= now
    ensures job.cond.start > now ==> AddSpec(s, job, now).runtimes[job.id] == job.cond.start
  {
  }

  /** Adding, removing and ticking keep every indexed id backed by a hash record. */
  lemma CoveredPreserved(s: Store, job: Job, id: JobId, now: int)
    requires Covered(s)
    ensures Covered(AddSpec(s, job, now))
    ensures Covered(RemoveSpec(s, id))
    ensures Covered(TickStore(s, now))
  {
  }

  /** After a tick at `date`, no due id without a hash record remains indexed. */
  lemma TickPrunesOrphans(s: Store, date: int)
    ensures forall id :: IsDue(s.runtimes, id, date) && id !in s.jobs ==> id !in TickRuntimes(s, date)
  {
  }

  /** A one-shot job that has fired leaves the index but keeps its hash record. */
  lemma ExhaustedStaysInHash(s: Store, id: JobId, date: int)
    requires IsDue(s.runtimes, id, date) && id in s.jobs
    requires s.jobs[id].cond.start <= date && !Repeating(s.jobs[id].cond)
    ensures id !in TickStore(s, date).runtimes && id in TickStore(s, date).jobs
  {
  }

  /**
   * A repeating job due at `date` is moved to a fire time after `date` unless
   * `date` lies exactly on its grid: then its score becomes `date` itself and
   * it is due again at the next iteration.
   */
  lemma TickAdvances(s: Store, id: JobId, date: int)
    requires IsDue(s.runtimes, id, date) && id in s.jobs
    requires s.jobs[id].cond.start <= date && Repeating(s.jobs[id].cond) && s.jobs[id].cond.interval.value > 0
    ensures id in TickRuntimes(s, date)
    ensures (date - s.jobs[id].cond.start) % s.jobs[id].cond.interval.value != 0 ==> TickRuntimes(s, date)[id] > date
    ensures (date - s.jobs[id].cond.start) % s.jobs[id].cond.interval.value == 0 ==>
      IsDue(TickRuntimes(s, date), id, date + 1)
  {
    NextFireAligned(s.jobs[id].cond, date);
  }

  /** A tick never touches the job hash and never indexes a new id. */
  lemma TickFrame(s: Store, date: int)
    ensures TickStore(s, date).jobs == s.jobs
    ensures TickRuntimes(s, date).Keys <= s.runtimes.Keys
    ensures forall id :: id in s.runtimes && !IsDue(s.runtimes, id, date) ==>
      id in TickRuntimes(s, date) && TickRuntimes(s, date)[id] == s.runtimes[id]
  {
  }

  /** The fold `Repeat` leaves an id that none of the jobs has as it was. */
  lemma {:induction false} RepeatAbsent(r: map<JobId, int>, js: seq<Job>, date: int, id: JobId)
    requires forall k :: 0 <= k < |js| ==> js[k].id != id
    ensures (id in Repeat(r, js, date) <==> id in r) && (id in r ==> Repeat(r, js, date)[id] == r[id])
    decreases |js|
  {
    if js != [] {
      var n := NextFireTime(js[0].cond, date);
      var r' := if n.Some? then r[js[0].id := n.value] else r - {js[0].id};
      assert forall m :: 0 <= m < |js[1..]| ==> js[1..][m] == js[m + 1];
      RepeatAbsent(r', js[1..], date, id);
    }
  }

  /** For jobs with distinct ids, the fold `Repeat` leaves the id of `js[k]` at that job's next fire time, if any. */
  lemma {:induction false} RepeatAtIndex(r: map<JobId, int>, js: seq<Job>, date: int, k: nat)
    requires forall i, j :: 0 <= i < j < |js| ==> js[i].id != js[j].id
    requires k < |js|
    ensures var id := js[k].id;
      (id in Repeat(r, js, date) <==> NextFireTime(js[k].cond, date).Some?)
      && (id in Repeat(r, js, date) ==> Repeat(r, js, date)[id] == NextFireTime(js[k].cond, date).value)
    decreases |js|
  {
    var n := NextFireTime(js[0].cond, date);
    var r' := if n.Some? then r[js[0].id := n.value] else r - {js[0].id};
    assert forall m :: 0 <= m < |js[1..]| ==> js[1..][m] == js[m + 1];
    if k == 0 {
      RepeatAbsent(r', js[1..], date, js[0].id);
    } else {
      RepeatAtIndex(r', js[1..], date, k - 1);
    }
  }

  /** Where the fold `Repeat` leaves one id, for a list of jobs with distinct ids. */
  lemma RepeatAt(r: map<JobId, int>, js: seq<Job>, date: int, id: JobId)
    requires forall i, j :: 0 <= i < j < |js| ==> js[i].id != js[j].id
    ensures (forall k :: 0 <= k < |js| ==> js[k].id != id) ==>
      (id in Repeat(r, js, date) <==> id in r) && (id in r ==> Repeat(r, js, date)[id] == r[id])
    ensures forall k :: 0 <= k < |js| && js[k].id == id ==>
      (id in Repeat(r, js, date) <==> NextFireTime(js[k].cond, date).Some?)
      && (id in Repeat(r, js, date) ==> Repeat(r, js, date)[id] == NextFireTime(js[k].cond, date).value)
  {
    if forall k :: 0 <= k < |js| ==> js[k].id != id {
      RepeatAbsent(r, js, date, id);
    }
    forall k | 0 <= k < |js| && js[k].id == id
      ensures id in Repeat(r, js, date) <==> NextFireTime(js[k].cond, date).Some?
      ensures id in Repeat(r, js, date) ==> Repeat(r, js, date)[id] == NextFireTime(js[k].cond, date).value
    {
      RepeatAtIndex(r, js, date, k);
    }
  }

  /** Looking up one more id appends its record, if there is one. */
  lemma LookupStep(ids: seq<JobId>, id: JobId, jobs: map<JobId, Job>)
    ensures Lookup(ids + [id], jobs) == Lookup(ids, jobs) + (if id in jobs then [jobs[id]] else [])
  {
    assert (ids + [id])[..|ids|] == ids;
  }

  /** Each job `Lookup` returns is the hash record of one of the ids. */
  lemma {:induction false} LookupFrom(ids: seq<JobId>, jobs: map<JobId, Job>)
    requires Keyed(jobs)
    ensures forall k :: 0 <= k < |Lookup(ids, jobs)| ==>
      Lookup(ids, jobs)[k].id in ids && Lookup(ids, jobs)[k].id in jobs && Lookup(ids, jobs)[k] == jobs[Lookup(ids, jobs)[k].id]
  {
    if ids != [] {
      var front := ids[..|ids| - 1];
      LookupFrom(front, jobs);
      var l := Lookup(front, jobs);
      forall k | 0 <= k < |Lookup(ids, jobs)|
        ensures Lookup(ids, jobs)[k].id in ids && Lookup(ids, jobs)[k].id in jobs
        ensures Lookup(ids, jobs)[k] == jobs[Lookup(ids, jobs)[k].id]
      {
        if k < |l| {
          assert Lookup(ids, jobs)[k] == l[k];
          assert l[k].id in front;
        }
      }
    }
  }

  /** Distinct ids give jobs with distinct ids. */
  lemma {:induction false} LookupDistinct(ids: seq<JobId>, jobs: map<JobId, Job>)
    requires Keyed(jobs)
    requires forall i, j :: 0 <= i < j < |ids| ==> ids[i] != ids[j]
    ensures forall i, j :: 0 <= i < j < |Lookup(ids, jobs)| ==> Lookup(ids, jobs)[i].id != Lookup(ids, jobs)[j].id
  {
    if ids != [] {
      var front := ids[..|ids| - 1];
      var last := ids[|ids| - 1];
      LookupDistinct(front, jobs);
      LookupFrom(front, jobs);
      var l := Lookup(front, jobs);
      assert forall k :: 0 <= k < |l| ==> l[k].id != last;
      assert forall k :: 0 <= k < |l| ==> Lookup(ids, jobs)[k] == l[k];
    }
  }

  /** Every id that has a record has its job among those `Lookup` returns. */
  lemma {:induction false} LookupHas(ids: seq<JobId>, jobs: map<JobId, Job>, id: JobId)
    requires Keyed(jobs) && id in ids && id in jobs
    ensures exists k :: 0 <= k < |Lookup(ids, jobs)| && Lookup(ids, jobs)[k].id == id
  {
    var front := ids[..|ids| - 1];
    var l := Lookup(front, jobs);
    if id in front {
      LookupHas(front, jobs, id);
      var k :| 0 <= k < |l| && l[k].id == id;
      assert Lookup(ids, jobs)[k] == l[k];
    } else {
      assert id == ids[|ids| - 1];
      assert Lookup(ids, jobs)[|l|].id == id;
    }
  }

  /** Each job `Lookup` returns is the hash record of one of the ids, in order. */
  lemma LookupAt(ids: seq<JobId>, jobs: map<JobId, Job>, id: JobId)
    requires Keyed(jobs)
    requires forall i, j :: 0 <= i < j < |ids| ==> ids[i] != ids[j]
    ensures forall i, j :: 0 <= i < j < |Lookup(ids, jobs)| ==> Lookup(ids, jobs)[i].id != Lookup(ids, jobs)[j].id
    ensures forall k :: 0 <= k < |Lookup(ids, jobs)| ==>
      Lookup(ids, jobs)[k].id in ids && Lookup(ids, jobs)[k].id in jobs && Lookup(ids, jobs)[k] == jobs[Lookup(ids, jobs)[k].id]
    ensures id in ids && id in jobs ==> exists k :: 0 <= k < |Lookup(ids, jobs)| && Lookup(ids, jobs)[k].id == id
  {
    LookupDistinct(ids, jobs);
    LookupFrom(ids, jobs);
    if id in ids && id in jobs {
      LookupHas(ids, jobs, id);
    }
  }

  /** `TickEffect` for a due id that has a record: it moves to its job's next fire time, or leaves. */
  lemma TickEffectDue(s: Store, ids: seq<JobId>, date: int, id: JobId)
    requires Keyed(s.jobs) && IsDueOrder(ids, s.runtimes, date)
    requires IsDue(s.runtimes, id, date) && id in s.jobs
    ensures var got := Repeat(Prune(s.runtimes, s.jobs, date), Lookup(ids, s.jobs), date);
      (id in got <==> NextFireTime(s.jobs[id].cond, date).Some?)
      && (id in got ==> got[id] == NextFireTime(s.jobs[id].cond, date).value)
  {
    DueOrderDistinct(ids, s.runtimes, date);
    LookupDistinct(ids, s.jobs);
    LookupFrom(ids, s.jobs);
    LookupHas(ids, s.jobs, id);
    var js := Lookup(ids, s.jobs);
    var k :| 0 <= k < |js| && js[k].id == id;
    assert js[k] == s.jobs[id];
    RepeatAtIndex(Prune(s.runtimes, s.jobs, date), js, date, k);
  }

  /** `TickEffect` for any other id: its entry after pruning is left as it is. */
  lemma TickEffectRest(s: Store, ids: seq<JobId>, date: int, id: JobId)
    requires Keyed(s.jobs) && IsDueOrder(ids, s.runtimes, date)
    requires !(IsDue(s.runtimes, id, date) && id in s.jobs)
    ensures var p := Prune(s.runtimes, s.jobs, date);
      var got := Repeat(p, Lookup(ids, s.jobs), date);
      (id in got <==> id in p) && (id in got ==> got[id] == p[id])
  {
    LookupFrom(ids, s.jobs);
    var js := Lookup(ids, s.jobs);
    forall k | 0 <= k < |js|
      ensures js[k].id != id
    {
      var i :| 0 <= i < |ids| && ids[i] == js[k].id;
    }
    RepeatAbsent(Prune(s.runtimes, s.jobs, date), js, date, id);
  }

  /** `TickEffect` for one id. */
  lemma TickEffectAt(s: Store, ids: seq<JobId>, date: int, id: JobId)
    requires Keyed(s.jobs) && IsDueOrder(ids, s.runtimes, date)
    ensures var got := Repeat(Prune(s.runtimes, s.jobs, date), Lookup(ids, s.jobs), date);
      (id in got <==> id in TickRuntimes(s, date)) && (id in got ==> got[id] == TickRuntimes(s, date)[id])
  {
    if IsDue(s.runtimes, id, date) && id in s.jobs {
      TickEffectDue(s, ids, date, id);
    } else {
      TickEffectRest(s, ids, date, id);
    }
  }

  /**
   * One iteration of the processing loop, as the source performs it (prune
   * while reading the due jobs, then reschedule each of them), has the
   * id-by-id effect `TickRuntimes` states.
   */
  lemma TickEffect(s: Store, ids: seq<JobId>, date: int)
    requires Keyed(s.jobs) && IsDueOrder(ids, s.runtimes, date)
    ensures Repeat(Prune(s.runtimes, s.jobs, date), Lookup(ids, s.jobs), date) == TickRuntimes(s, date)
  {
    var got := Repeat(Prune(s.runtimes, s.jobs, date), Lookup(ids, s.jobs), date);
    var want := TickRuntimes(s, date);
    forall id
      ensures (id in got <==> id in want) && (id in got ==> got[id] == want[id])
    {
      TickEffectAt(s, ids, date, id);
    }
    assert got == want;
  }

  // ---------------------------------------------------------------------------
  // The scheduler object
  // ---------------------------------------------------------------------------

  /** The tasks started for `js`, numbered from `first`. */
  function Started(first: nat, js: seq<Job>): map<nat, Job> {
    if js == [] then map[]
    else Started(first, js[..|js| - 1])[first + |js| - 1 := js[|js| - 1]]
  }

  /**
   * `Scheduler`: the store it works on, its running tasks (numbered in order of
   * creation, each with the job it runs) and the `_active` flag.
   */
  class Scheduler {
    var jobs: map<JobId, Job>
    var runtimes: map<JobId, int>
    var running: map<nat, Job>
    var nextTask: nat
    var active: bool

    ghost predicate Valid()
      reads this
    {
      Keyed(jobs) && forall t :: t in running ==> t < nextTask
    }

    function State(): Store
      reads this
    {
      Store(jobs, runtimes)
    }

    /** A scheduler connected to a store, inactive and running nothing. */
    constructor (s: Store)
      requires Keyed(s.jobs)
      ensures Valid() && State() == s && running == map[] && !active
    {
      jobs, runtimes := s.jobs, s.runtimes;
      running, nextTask, active := map[], 0, false;
    }

    /**
     * `add_job`: a job with the fresh id `id`, arguments defaulting to empty,
     * starting at `start` or now; its record and score are written together.
     */
    method AddJob(id: JobId, func: string, args: Option<seq<string>>, kwargs: Option<map<string, string>>,
                  start: Option<int>, interval: Option<int>, now: int) returns (job: Job)
      requires Valid()
      modifies this`jobs, this`runtimes
      ensures Valid()
      ensures job == Job(id, func, args.GetOr([]), kwargs.GetOr(map[]), FireCondition(start.GetOr(now), interval))
      ensures State() == AddSpec(old(State()), job, now)
    {
      var cond := FireCondition(start.GetOr(now), interval);
      job := Job(id, func, args.GetOr([]), kwargs.GetOr(map[]), cond);
      var next := NextFireTime(job.cond, now);
      jobs := jobs[job.id := job];
      runtimes := runtimes[job.id := if next.Some? then next.value else now];
    }

    /** `remove_job`: a no-op unless the hash holds `id`; then both entries go. */
    method RemoveJob(id: JobId)
      requires Valid()
      modifies this`jobs, this`runtimes
      ensures Valid()
      ensures State() == RemoveSpec(old(State()), id)
    {
      if id !in jobs {
        return;
      }
      jobs := jobs - {id};
      runtimes := runtimes - {id};
    }

    /** `start`: the processing loop may run. */
    method Start()
      modifies this`active
      ensures active
    {
      active := true;
    }

    /** `stop`: the processing loop ends after its current iteration. */
    method Stop()
      modifies this`active
      ensures !active
    {
      active := false;
    }

    /** `shutdown`: stop, then wait until every running task has finished and been discarded. */
    method Shutdown()
      requires Valid()
      modifies this`active, this`running
      ensures Valid() && !active && running == map[]
    {
      active := false;
      while running != map[]
        invariant Valid() && !active
        decreases |running.Keys|
      {
        var t :| t in running;
        TaskDone(t);
      }
    }

    /** `ZRANGEBYSCORE runtimes 0 date`: the due ids by score, ties by member. */
    method RangeByScore(date: int) returns (ids: seq<JobId>)
      ensures IsDueOrder(ids, runtimes, date)
    {
      ids := [];
      var rest := set id | id in runtimes && IsDue(runtimes, id, date);
      while rest != {}
        invariant forall id :: id in rest ==> IsDue(runtimes, id, date)
        invariant forall i :: 0 <= i < |ids| ==> IsDue(runtimes, ids[i], date) && ids[i] !in rest
        invariant forall id :: IsDue(runtimes, id, date) ==> id in ids || id in rest
        invariant forall i, j :: 0 <= i < j < |ids| ==> Before(runtimes, ids[i], ids[j])
        invariant forall i, id :: 0 <= i < |ids| && id in rest ==> Before(runtimes, ids[i], id)
        decreases |rest|
      {
        MinExists(rest, runtimes);
        var m :| m in rest && forall y :: y in rest && y != m ==> Before(runtimes, m, y);
        ids := ids + [m];
        rest := rest - {m};
      }
    }

    /**
     * The loop of `_get_jobs` over the ids read: the record of each id that has
     * one is kept, in order; an id without a record is dropped from the index.
     */
    method ReadRecords(order: seq<JobId>) returns (due: seq<Job>)
      modifies this`runtimes
      ensures due == Lookup(order, jobs)
      ensures runtimes == PruneIds(old(runtimes), order, jobs)
    {
      due := [];
      var i := 0;
      while i < |order|
        invariant 0 <= i <= |order|
        invariant due == Lookup(order[..i], jobs)
        invariant runtimes == PruneIds(old(runtimes), order[..i], jobs)
      {
        var id := order[i];
        PruneIdsStep(old(runtimes), order[..i], id, jobs);
        LookupStep(order[..i], id, jobs);
        assert order[..i + 1] == order[..i] + [id];
        if id !in jobs {
          runtimes := runtimes - {id};
        } else {
          due := due + [jobs[id]];
        }
        i := i + 1;
      }
      assert order[..|order|] == order;
    }

    /**
     * `_get_jobs(date)`: the due jobs that have a record, in index order; each
     * due id without a record is dropped from the index.
     */
    method GetJobs(date: int) returns (due: seq<Job>, ghost ids: seq<JobId>)
      modifies this`runtimes
      ensures IsDueOrder(ids, old(runtimes), date) && due == Lookup(ids, jobs)
      ensures runtimes == Prune(old(runtimes), jobs, date)
    {
      var order := RangeByScore(date);
      due := ReadRecords(order);
      PruneIdsDue(old(runtimes), order, jobs, date);
      ids := order;
    }

    /** `_enqueue_job_repeat(js, date)`: reschedule or unindex each job; the hash is untouched. */
    method EnqueueJobRepeat(js: seq<Job>, date: int)
      modifies this`runtimes
      ensures runtimes == Repeat(old(runtimes), js, date)
    {
      var i := 0;
      while i < |js|
        invariant 0 <= i <= |js|
        invariant Repeat(runtimes, js[i..], date) == Repeat(old(runtimes), js, date)
      {
        var job := js[i];
        var next := NextFireTime(job.cond, date);
        assert js[i..][1..] == js[i + 1..];
        if next.Some? {
          runtimes := runtimes[job.id := next.value];
        } else {
          runtimes := runtimes - {job.id};
        }
        i := i + 1;
      }
    }

    /** `_run_job`: start a task for `job` and keep it among the running tasks. */
    method RunJob(job: Job) returns (t: nat)
      requires Valid()
      modifies this`running, this`nextTask
      ensures Valid()
      ensures t == old(nextTask) && t !in old(running)
      ensures running == old(running)[t := job] && nextTask == t + 1
    {
      t := nextTask;
      running := running[t := job];
      nextTask := nextTask + 1;
    }

    /** The done-callback of a task: it is discarded; an exception is only logged. */
    method TaskDone(t: nat)
      requires Valid()
      modifies this`running
      ensures Valid() && running == old(running) - {t}
    {
      running := running - {t};
    }

    /** The `for job in jobs: self._run_job(job)` step of `_process_jobs`. */
    method RunJobs(js: seq<Job>)
      requires Valid()
      modifies this`running, this`nextTask
      ensures Valid()
      ensures running == old(running) + Started(old(nextTask), js)
      ensures nextTask == old(nextTask) + |js|
    {
      assert Started(nextTask, js[..0]) == map[];
      var i := 0;
      while i < |js|
        invariant 0 <= i <= |js|
        invariant Valid()
        invariant running == old(running) + Started(old(nextTask), js[..i])
        invariant nextTask == old(nextTask) + i
      {
        var t := RunJob(js[i]);
        assert js[..i + 1][..i] == js[..i];
        i := i + 1;
      }
      assert js[..|js|] == js;
    }

    /** One iteration of `_process_jobs` at the clock reading `now`. */
    method Tick(now: int) returns (due: seq<Job>, ghost ids: seq<JobId>)
      requires Valid()
      modifies this`runtimes, this`running, this`nextTask
      ensures Valid() && jobs == old(jobs)
      ensures runtimes == TickRuntimes(old(State()), now)
      ensures IsDueOrder(ids, old(runtimes), now) && due == Lookup(ids, jobs)
      ensures running == old(running) + Started(old(nextTask), due)
      ensures nextTask == old(nextTask) + |due|
    {
      due, ids := GetJobs(now);
      RunJobs(due);
      EnqueueJobRepeat(due, now);
      TickEffect(old(State()), ids, now);
    }

    /**
     * `_process_jobs`: iterations at the clock readings `nows` for as long as
     * the scheduler is active.
     */
    method ProcessJobs(nows: seq<int>)
      requires Valid()
      modifies this`runtimes, this`running, this`nextTask
      ensures Valid() && active == old(active)
      ensures State() == if old(active) then Ticks(old(State()), nows) else old(State())
    {
      var i := 0;
      while i < |nows| && active
        invariant 0 <= i <= |nows|
        invariant Valid() && active == old(active)
        invariant !active ==> i == 0 && State() == old(State())
        invariant Ticks(State(), nows[i..]) == Ticks(old(State()), nows)
      {
        var due, ids := Tick(nows[i]);
        assert nows[i..][1..] == nows[i + 1..];
        i := i + 1;
      }
    }
  }
}
