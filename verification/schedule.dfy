/** The generator of healthy runs: every active job at each of its scheduled times, after its
    parents, over a history of days. */
module Schedule {
  import opened Basics
  import opened Graphs
  import opened TopologyModel

  const MINUTES_PER_DAY := 1440

  /** Scheduled times are in minutes, starts and ends in seconds, since a fixed day zero. */
  datatype Execution = Execution(runId: string, job: Id, scheduled: int, start: int, end: int)

  datatype LogEvent = LogEvent(id: nat, runId: string, time: real)

  // ----- run ids

  function Two(n: nat): (s: string)
    requires n < 100
    ensures |s| == 2
  {
    [('0' as int + n / 10) as char, ('0' as int + n % 10) as char]
  }

  /** RUN_<date>_<hour><minute>_<job>_01; date is the eight digits of the day. */
  function RunId(date: string, minute: nat, job: Id): string
    requires minute < MINUTES_PER_DAY
  {
    "RUN_" + date + "_" + Two(minute / 60) + Two(minute % 60) + "_" + job + "_01"
  }

  /** A naming of days by eight characters that tells any two days apart. */
  ghost predicate NamesDays(date: int -> string) {
    && (forall d :: |date(d)| == 8)
    && (forall d, e :: date(d) == date(e) ==> d == e)
  }

  function RunIdOf(date: int -> string, scheduled: int, job: Id): string {
    RunId(date(scheduled / MINUTES_PER_DAY), scheduled % MINUTES_PER_DAY, job)
  }

  lemma TwoDigitsTell(m: nat, n: nat)
    requires m < 100 && n < 100 && Two(m) == Two(n)
    ensures m == n
  {
    assert Two(m)[0] == Two(n)[0] && Two(m)[1] == Two(n)[1];
  }

  /** The fields of a run id can be read off at fixed places. */
  lemma RunIdFields(date: string, minute: nat, job: Id)
    requires minute < MINUTES_PER_DAY && |date| == 8
    ensures var s := RunId(date, minute, job);
      && |s| == 21 + |job| && s[4..12] == date && s[13..15] == Two(minute / 60)
      && s[15..17] == Two(minute % 60) && s[18..|s| - 3] == job
  {
    var s := RunId(date, minute, job);
    var a := "RUN_" + date + "_" + Two(minute / 60) + Two(minute % 60) + "_";
    assert s == a + (job + "_01");
    assert s[18..|s| - 3] == job;
    assert s[..18] == a;
  }

  /** Two runs with the same id are runs of the same job at the same scheduled time. */
  lemma RunIdsAreUnique(date: int -> string, s: int, t: int, j: Id, k: Id)
    requires NamesDays(date) && RunIdOf(date, s, j) == RunIdOf(date, t, k)
    ensures s == t && j == k
  {
    var m, n := s % MINUTES_PER_DAY, t % MINUTES_PER_DAY;
    RunIdFields(date(s / MINUTES_PER_DAY), m, j);
    RunIdFields(date(t / MINUTES_PER_DAY), n, k);
    TwoDigitsTell(m / 60, n / 60);
    TwoDigitsTell(m % 60, n % 60);
  }

  // ----- schedule times

  /** The minutes of the day a schedule names. */
  function MinutesOf(schedule: string): (ms: seq<nat>)
    ensures forall i :: 0 <= i < |ms| ==> ms[i] < MINUTES_PER_DAY
    ensures forall i, k :: 0 <= i < k < |ms| ==> ms[i] < ms[k]
  {
    if schedule == "hourly" then seq(24, i => i * 60)
    else if schedule == "every_15_min" then seq(96, i => i * 15)
    else [0]
  }

  /** Every full hour, every quarter of an hour, or midnight, and nothing else. */
  lemma MinutesIff(schedule: string, m: nat)
    ensures m in MinutesOf(schedule) <==>
      && m < 1440
      && (if schedule == "hourly" then m % 60 == 0
          else if schedule == "every_15_min" then m % 15 == 0
          else m == 0)
  {
    var ms := MinutesOf(schedule);
    if schedule == "hourly" {
      if m < 1440 && m % 60 == 0 {
        assert ms[m / 60] == m;
      }
    } else if schedule == "every_15_min" {
      if m < 1440 && m % 15 == 0 {
        assert ms[m / 15] == m;
      }
    }
  }

  /** _get_schedule_times. */
  method GetScheduleTimes(schedule: string, day: int) returns (times: seq<int>)
    ensures |times| == |MinutesOf(schedule)|
    ensures forall i :: 0 <= i < |times| ==> times[i] == day * MINUTES_PER_DAY + MinutesOf(schedule)[i]
  {
    times := [];
    if schedule == "hourly" {
      for h := 0 to 24
        invariant |times| == h && forall i :: 0 <= i < h ==> times[i] == day * MINUTES_PER_DAY + i * 60
      {
        times := times + [day * MINUTES_PER_DAY + h * 60];
      }
    } else if schedule == "daily" {
      times := times + [day * MINUTES_PER_DAY];
    } else if schedule == "every_15_min" {
      var quarters := [0, 15, 30, 45];
      for h := 0 to 24
        invariant |times| == 4 * h && forall i :: 0 <= i < 4 * h ==> times[i] == day * MINUTES_PER_DAY + i * 15
      {
        for q := 0 to 4
          invariant |times| == 4 * h + q
          invariant forall i :: 0 <= i < 4 * h + q ==> times[i] == day * MINUTES_PER_DAY + i * 15
        {
          times := times + [day * MINUTES_PER_DAY + h * 60 + quarters[q]];
        }
      }
    } else {
      times := times + [day * MINUTES_PER_DAY];
    }
  }

  // ----- what a history must satisfy

  type Completions = map<(Id, int), int>

  ghost predicate Ran(xs: seq<Execution>, job: Id, scheduled: int) {
    exists i :: 0 <= i < |xs| && xs[i].job == job && xs[i].scheduled == scheduled
  }

  /** The completion table holds exactly the executions so far. */
  ghost predicate Recorded(xs: seq<Execution>, done: Completions) {
    && (forall i :: 0 <= i < |xs| ==>
          (xs[i].job, xs[i].scheduled) in done && done[(xs[i].job, xs[i].scheduled)] == xs[i].end)
    && (forall i, k :: 0 <= i < k < |xs| ==> xs[i].job != xs[k].job || xs[i].scheduled != xs[k].scheduled)
    && (forall key :: key in done ==> Ran(xs, key.0, key.1))
  }

  /** A child never starts before a required parent of the same scheduled time has ended. */
  ghost predicate Causal(rows: seq<Edge>, xs: seq<Execution>) {
    forall e, i, k | e in rows && e.required && 0 <= i < |xs| && 0 <= k < |xs| ::
      xs[i].job == e.parent && xs[k].job == e.child && xs[i].scheduled == xs[k].scheduled
      ==> xs[k].start >= xs[i].end
  }

  predicate InOrder(x: Execution) {
    x.scheduled * 60 <= x.start <= x.end
  }

  /** A time a run may count its delay from: its scheduled time, or the end of a required
      parent at the same scheduled time. */
  ghost predicate Base(rows: seq<Edge>, xs: seq<Execution>, x: Execution, base: int) {
    || base == x.scheduled * 60
    || exists e, i :: e in rows && e.required && e.child == x.job && 0 <= i < |xs| && xs[i].job == e.parent
                      && xs[i].scheduled == x.scheduled && xs[i].end == base
  }

  /** The run starts at most slack seconds after such a time. */
  ghost predicate Prompt(rows: seq<Edge>, xs: seq<Execution>, x: Execution, slack: nat) {
    exists base :: Base(rows, xs, x, base) && base <= x.start <= base + slack
  }

  function Slack(job: Job): nat {
    if job.schedule == "hourly" then 60 else 300
  }

  /** An hourly job starts within a minute of that, any other within five. */
  lemma SlackIsShort(job: Job)
    ensures Slack(job) == 60 <==> job.schedule == "hourly"
    ensures Slack(job) == 60 || Slack(job) == 300
  {
  }

  /** The run lasts its default duration, give or take a fifth, cut to whole seconds. */
  predicate Lasts(job: Job, x: Execution) {
    job.durationSec >= 0 ==> 8 * job.durationSec - 10 < 10 * (x.end - x.start) <= 12 * job.durationSec
  }

  lemma PromptStays(rows: seq<Edge>, xs: seq<Execution>, y: Execution, x: Execution, slack: nat)
    requires Prompt(rows, xs, x, slack)
    ensures Prompt(rows, xs + [y], x, slack)
  {
    var base :| Base(rows, xs, x, base) && base <= x.start <= base + slack;
    var ys := xs + [y];
    if base != x.scheduled * 60 {
      var e, i :| e in rows && e.required && e.child == x.job && 0 <= i < |xs| && xs[i].job == e.parent
                  && xs[i].scheduled == x.scheduled && xs[i].end == base;
      assert ys[i] == xs[i];
    }
    assert Base(rows, ys, x, base);
  }

  /** Log ids count from one, four to an execution, within its time if it has one. */
  ghost predicate Logged(xs: seq<Execution>, logs: seq<LogEvent>) {
    && |logs| == 4 * |xs|
    && forall k :: 0 <= k < |logs| ==>
      && logs[k].id == k + 1 && logs[k].runId == xs[k / 4].runId
      && (xs[k / 4].start <= xs[k / 4].end ==> xs[k / 4].start as real <= logs[k].time <= xs[k / 4].end as real)
  }

  /** What has run belongs to an earlier day, or to this day and a job already dealt with. */
  ghost predicate Before(done: Completions, day: int, jobs: set<Id>) {
    forall key :: key in done ==>
      key.1 / MINUTES_PER_DAY < day || (key.1 / MINUTES_PER_DAY == day && key.0 in jobs)
  }

  lemma RecordedStays(xs: seq<Execution>, done: Completions, x: Execution)
    requires Recorded(xs, done) && (x.job, x.scheduled) !in done
    ensures Recorded(xs + [x], done[(x.job, x.scheduled) := x.end])
  {
    var ys := xs + [x];
    assert ys[|xs|] == x;
    forall key | key in done ensures Ran(ys, key.0, key.1) {
      var i :| 0 <= i < |xs| && xs[i].job == key.0 && xs[i].scheduled == key.1;
      assert ys[i] == xs[i];
    }
  }

  /** A run that waits for its recorded parents keeps the history causal, provided none of
      its children has run at that time yet. */
  lemma CausalStays(rows: seq<Edge>, xs: seq<Execution>, done: Completions, x: Execution)
    requires Recorded(xs, done) && Causal(rows, xs)
    requires forall e :: e in rows && e.required && e.child == x.job && (e.parent, x.scheduled) in done ==>
               x.start >= done[(e.parent, x.scheduled)]
    requires forall e :: e in rows && e.parent == x.job ==> e.child != x.job && (e.child, x.scheduled) !in done
    ensures Causal(rows, xs + [x])
  {
    var ys := xs + [x];
    forall e, i, k | e in rows && e.required && 0 <= i < |ys| && 0 <= k < |ys|
      && ys[i].job == e.parent && ys[k].job == e.child && ys[i].scheduled == ys[k].scheduled
      ensures ys[k].start >= ys[i].end
    {
      if i < |xs| {
        assert (xs[i].job, xs[i].scheduled) in done;
      }
      if k < |xs| {
        assert (xs[k].job, xs[k].scheduled) in done;
      }
    }
  }

  /** A duration scaled by a factor and cut to whole seconds. */
  function Scaled(d: int, f: real): int {
    Truncated(d as real * f)
  }

  class Generator {
    const topology: Topology
    const date: int -> string
    /** Whether the jobs are dealt with parents first, which only an acyclic topology allows. */
    ghost const ordered: bool
    /** What the random number generator will say. */
    var integers: seq<nat>
    var fractions: seq<real>
    var logCounter: nat
    var executions: seq<Execution>
    var logs: seq<LogEvent>
    var completions: Completions

    constructor (topology: Topology, date: int -> string, integers: seq<nat>, fractions: seq<real>,
                 ghost ordered: bool)
      ensures this.topology == topology && this.date == date && this.ordered == ordered
      ensures logCounter == 0 && executions == [] && logs == [] && completions == map[]
    {
      this.topology, this.date, this.integers, this.fractions := topology, date, integers, fractions;
      this.ordered := ordered;
      logCounter, executions, logs, completions := 0, [], [], map[];
    }

    /** Everything promised of the history so far. */
    ghost predicate Sound()
      reads this, topology
    {
      && Recorded(executions, completions) && (ordered ==> Causal(topology.rows, executions))
      && Logged(executions, logs) && logCounter == |logs|
      && (forall i :: 0 <= i < |executions| ==> Proper(executions[i]) && IsPrompt(executions[i]))
    }

    ghost predicate IsPrompt(x: Execution)
      reads this, topology
    {
      x.job in topology.jobs && Prompt(topology.rows, executions, x, Slack(topology.jobs[x.job]))
    }

    /** A run of a known job, under its own id, in temporal order if its duration allows. */
    ghost predicate Proper(x: Execution)
      reads topology
    {
      && x.runId == RunIdOf(date, x.scheduled, x.job)
      && x.job in topology.jobs
      && x.scheduled * 60 <= x.start
      && (topology.jobs[x.job].durationSec >= 0 ==> InOrder(x)) && Lasts(topology.jobs[x.job], x)
    }

    /** randint(0, most). */
    method RandInt(most: nat) returns (n: nat)
      modifies this`integers
      ensures n <= most
      ensures old(integers) != [] ==>
        integers == old(integers)[1..] && n == old(integers)[0] % (most + 1)
    {
      if integers == [] {
        return 0;
      }
      n := integers[0] % (most + 1);
      integers := integers[1..];
    }

    /** random(): a fraction from zero up to, not including, one. */
    method Random() returns (x: real)
      modifies this`fractions
      ensures 0.0 <= x < 1.0
      ensures old(fractions) != [] ==>
        fractions == old(fractions)[1..] && (0.0 <= old(fractions)[0] < 1.0 ==> x == old(fractions)[0])
    {
      if fractions == [] {
        return 0.0;
      }
      x := fractions[0];
      fractions := fractions[1..];
      if x < 0.0 || x >= 1.0 {
        x := 0.0;
      }
    }

    /** The latest end among the required parents that ran at this time, or the time itself. */
    method LatestParent(job: Id, scheduled: int) returns (latest: int)
      requires topology.Valid() && job in topology.jobs
      ensures latest >= scheduled * 60
      ensures forall e :: e in topology.rows && e.required && e.child == job && (e.parent, scheduled) in completions ==>
                latest >= completions[(e.parent, scheduled)]
      ensures latest == scheduled * 60 ||
        exists e :: e in topology.rows && e.required && e.child == job && (e.parent, scheduled) in completions
                    && completions[(e.parent, scheduled)] == latest
    {
      latest := scheduled * 60;
      var edges := topology.parents[job];
      var i := 0;
      while i < |edges|
        invariant 0 <= i <= |edges| && latest >= scheduled * 60
        invariant forall k :: 0 <= k < i && edges[k].required && (edges[k].parent, scheduled) in completions ==>
                    latest >= completions[(edges[k].parent, scheduled)]
        invariant latest == scheduled * 60 ||
          exists k :: 0 <= k < i && edges[k].required && (edges[k].parent, scheduled) in completions
                      && completions[(edges[k].parent, scheduled)] == latest
      {
        if edges[i].required && (edges[i].parent, scheduled) in completions
           && completions[(edges[i].parent, scheduled)] > latest {
          latest := completions[(edges[i].parent, scheduled)];
        }
        i := i + 1;
      }
      forall e | e in topology.rows && e.required && e.child == job && (e.parent, scheduled) in completions
        ensures latest >= completions[(e.parent, scheduled)]
      {
        EdgesIntoMembers(topology.rows, job, e);
      }
      if latest != scheduled * 60 {
        var k :| 0 <= k < |edges| && edges[k].required && (edges[k].parent, scheduled) in completions
                 && completions[(edges[k].parent, scheduled)] == latest;
        EdgesIntoMembers(topology.rows, job, edges[k]);
      }
    }

    /** The duration drawn for a job: its default give or take a fifth, cut to seconds. */
    method DrawDuration(job: Job) returns (duration: int)
      modifies this`fractions
      ensures job.durationSec >= 0 ==> duration >= 0
      ensures job.durationSec >= 0 ==> 8 * job.durationSec - 10 < 10 * duration <= 12 * job.durationSec
    {
      hide Scaled;
      var fraction := Random();
      var factor := 0.8 + fraction * 0.4;
      assert 0.8 <= factor <= 1.2;
      duration := Scaled(job.durationSec, factor);
      if job.durationSec >= 0 {
        ScaledDuration(job.durationSec, factor);
      }
    }

    /** The new run counts its delay from a time the history knows. */
    lemma NewRunIsPrompt(x: Execution, latest: int, slack: nat)
      requires Recorded(executions, completions) && latest <= x.start <= latest + slack
      requires latest == x.scheduled * 60 ||
        exists e :: e in topology.rows && e.required && e.child == x.job && (e.parent, x.scheduled) in completions
                    && completions[(e.parent, x.scheduled)] == latest
      ensures Prompt(topology.rows, executions, x, slack)
    {
      if latest != x.scheduled * 60 {
        var e :| e in topology.rows && e.required && e.child == x.job && (e.parent, x.scheduled) in completions
                 && completions[(e.parent, x.scheduled)] == latest;
        var key := (e.parent, x.scheduled);
        assert Ran(executions, key.0, key.1);
        var i :| 0 <= i < |executions| && executions[i].job == e.parent && executions[i].scheduled == x.scheduled;
        assert executions[i].end == latest;
      }
      assert Base(topology.rows, executions, x, latest);
    }

    /** One execution with its four log events. */
    method RunOnce(job: Job, scheduled: int)
      requires topology.Valid() && Sound() && job.id in topology.jobs && topology.jobs[job.id] == job
      requires (job.id, scheduled) !in completions
      requires ordered ==> forall e :: e in topology.rows && e.parent == job.id ==>
                 e.child != job.id && (e.child, scheduled) !in completions
      modifies this
      ensures Sound()
      ensures completions.Keys == old(completions).Keys + {(job.id, scheduled)}
    {
      hide Recorded, Causal, Logged, RunIdOf, MinutesOf, Scaled, Prompt, Listed, Linked;
      var latest := LatestParent(job.id, scheduled);
      var delay := RandInt(if job.schedule == "hourly" then 60 else 300);
      var start := latest + delay;
      var duration := DrawDuration(job);
      var end := start + duration;
      var x := Execution(RunIdOf(date, scheduled, job.id), job.id, scheduled, start, end);
      RecordedStays(executions, completions, x);
      if ordered {
        CausalStays(topology.rows, executions, completions, x);
      }
      NewRunIsPrompt(x, latest, Slack(job));
      ghost var before := executions;
      forall y | y in before + [x] ensures y.job in topology.jobs
        && Prompt(topology.rows, before + [x], y, Slack(topology.jobs[y.job]))
      {
        if y in before {
          assert Proper(y) && IsPrompt(y);
        }
        PromptStays(topology.rows, before, x, y, Slack(topology.jobs[y.job]));
      }
      completions := completions[(job.id, scheduled) := end];
      executions := executions + [x];
      LogRun(before, x, duration);
      forall i | 0 <= i < |executions| ensures IsPrompt(executions[i]) {
        assert executions[i] in before + [x];
      }
    }

    /** The four events of a run. */
    method LogRun(ghost before: seq<Execution>, x: Execution, duration: int)
      requires Logged(before, logs) && logCounter == |logs| && x.end == x.start + duration
      modifies this`logCounter, this`logs
      ensures Logged(before + [x], logs) && logCounter == |logs|
    {
      var d := duration as real;
      Log(x.runId, x.start as real);
      Log(x.runId, x.start as real + d * 0.1);
      Log(x.runId, x.start as real + d * 0.5);
      Log(x.runId, x.end as real);
      ghost var ys := before + [x];
      forall k | 0 <= k < |logs|
        ensures logs[k].id == k + 1 && logs[k].runId == ys[k / 4].runId
        ensures ys[k / 4].start <= ys[k / 4].end ==>
                  ys[k / 4].start as real <= logs[k].time <= ys[k / 4].end as real
      {
        if k >= 4 * |before| {
          assert k / 4 == |before|;
        } else {
          assert k / 4 < |before|;
        }
      }
    }

    method Log(runId: string, time: real)
      modifies this`logCounter, this`logs
      ensures logCounter == old(logCounter) + 1
      ensures logs == old(logs) + [LogEvent(logCounter, runId, time)]
    {
      logCounter := logCounter + 1;
      logs := logs + [LogEvent(logCounter, runId, time)];
    }

    /** All runs of one job on one day. */
    method GenerateJob(job: Job, day: int, ghost dealt: set<Id>)
      requires topology.Valid() && Sound() && job.id in topology.jobs && topology.jobs[job.id] == job
      requires Before(completions, day, dealt) && job.id !in dealt
      requires ordered ==>
                 forall e :: e in topology.rows && e.parent == job.id ==> e.child != job.id && e.child !in dealt
      modifies this
      ensures Sound() && Before(completions, day, dealt + {job.id})
      ensures old(completions).Keys <= completions.Keys
      ensures forall m :: m in MinutesOf(job.schedule) ==> (job.id, day * MINUTES_PER_DAY + m) in completions
    {
      hide Recorded, Causal, Logged, RunIdOf, Proper, IsPrompt, MinutesOf, Before, Listed, Linked;
      var times := GetScheduleTimes(job.schedule, day);
      TimesAreOfTheDay(job.schedule, day, times);
      NotYetRun(completions, day, dealt, job.id, times);
      RunAll(job, day, dealt, times);
      TimesCoverTheDay(job.schedule, day, times, job.id, completions);
    }

    /** The loop over the scheduled times of a day. */
    method RunAll(job: Job, day: int, ghost dealt: set<Id>, times: seq<int>)
      requires topology.Valid() && Sound() && job.id in topology.jobs && topology.jobs[job.id] == job
      requires Before(completions, day, dealt + {job.id})
      requires ordered ==>
                 forall e :: e in topology.rows && e.parent == job.id ==> e.child != job.id && e.child !in dealt
      requires forall k :: 0 <= k < |times| ==> times[k] / MINUTES_PER_DAY == day && (job.id, times[k]) !in completions
      requires forall k, l :: 0 <= k < l < |times| ==> times[k] != times[l]
      modifies this
      ensures Sound() && Before(completions, day, dealt + {job.id})
      ensures old(completions).Keys <= completions.Keys
      ensures forall k :: 0 <= k < |times| ==> (job.id, times[k]) in completions
    {
      hide Recorded, Causal, Logged, RunIdOf, Proper, IsPrompt;
      var i := 0;
      while i < |times|
        invariant 0 <= i <= |times| && Sound() && Before(completions, day, dealt + {job.id})
        invariant old(completions).Keys <= completions.Keys
        invariant forall k :: 0 <= k < i ==> (job.id, times[k]) in completions
        invariant forall k :: i <= k < |times| ==> (job.id, times[k]) !in completions
      {
        RunOnce(job, times[i]);
        i := i + 1;
      }
    }

    /** One day: the jobs in topological order. */
    method GenerateDay(day: int, sorted: seq<Id>)
      requires topology.Valid() && Sound() && NoRepeats(sorted)
      requires ordered ==> Sorted(topology.ChildGraph(), sorted)
      requires Before(completions, day, {})
      modifies this
      ensures Sound() && Before(completions, day + 1, {}) && Covered(topology, completions, day, sorted)
      ensures old(completions).Keys <= completions.Keys
    {
      hide Recorded, Causal, Logged, RunIdOf, Proper, IsPrompt, Sorted, NoRepeats, MinutesOf, Listed,
        Linked, Before, Elements;
      var i := 0;
      if sorted != [] {
        OneMoreElement(sorted, 0);
      }
      assert Elements(sorted[..0]) == {} by { NoElements(sorted); }
      while i < |sorted|
        invariant 0 <= i <= |sorted| && Sound() && Before(completions, day, Elements(sorted[..i]))
        invariant Covered(topology, completions, day, sorted[..i]) && old(completions).Keys <= completions.Keys
      {
        var id := sorted[i];
        ghost var before := completions;
        OneMoreElement(sorted, i);
        if id in topology.jobs && topology.jobs[id].active {
          JobIsItself(id);
          NotAmongEarlier(sorted, i);
          if ordered {
            ChildrenComeLater(sorted, i);
          }
          GenerateJob(topology.jobs[id], day, Elements(sorted[..i]));
          CoveredStays(topology, before, completions, day, sorted[..i]);
        } else {
          BeforeGrows(completions, day, Elements(sorted[..i]), id);
        }
        i := i + 1;
      }
      assert sorted[..i] == sorted;
      NextDay(completions, day, Elements(sorted));
    }

    lemma JobIsItself(id: Id)
      requires topology.Valid() && id in topology.jobs
      ensures topology.jobs[id].id == id
    {
    }

    lemma NotAmongEarlier(sorted: seq<Id>, i: nat)
      requires NoRepeats(sorted) && i < |sorted|
      ensures sorted[i] !in Elements(sorted[..i])
    {
    }

    /** No child of a job, nor the job itself, stands before it in the order. */
    lemma ChildrenComeLater(sorted: seq<Id>, i: nat)
      requires topology.Valid() && NoRepeats(sorted) && Sorted(topology.ChildGraph(), sorted)
      requires i < |sorted| && sorted[i] in topology.jobs
      ensures forall e :: e in topology.rows && e.parent == sorted[i] ==>
                e.child != sorted[i] && e.child !in Elements(sorted[..i])
    {
      forall e | e in topology.rows && e.parent == sorted[i]
        ensures e.child != sorted[i] && e.child !in Elements(sorted[..i])
      {
        topology.ChildEdges(sorted[i], e.child);
        assert e.child in sorted[i + 1..];
      }
    }

    /** generate, with the sorted jobs and the span of days already worked out. */
    method GenerateDays(first: int, last: int, sorted: seq<Id>)
      requires topology.Valid() && NoRepeats(sorted) && (ordered ==> Sorted(topology.ChildGraph(), sorted))
      requires Sound() && Before(completions, first, {})
      modifies this
      ensures Sound()
      ensures forall day :: first <= day <= last ==> Covered(topology, completions, day, sorted)
    {
      hide Recorded, Causal, Logged, RunIdOf, Proper, IsPrompt, Sorted, NoRepeats, MinutesOf, Listed,
        Linked, Before, Covered;
      var day := first;
      while day <= last
        invariant Sound() && Before(completions, day, {}) && first <= day
        invariant forall d :: first <= d < day && d <= last ==> Covered(topology, completions, d, sorted)
        decreases last - day
      {
        ghost var before := completions;
        GenerateDay(day, sorted);
        forall d | first <= d < day && d <= last ensures Covered(topology, completions, d, sorted) {
          CoveredStays(topology, before, completions, d, sorted);
        }
        day := day + 1;
      }
    }
  }

  lemma NoElements(s: seq<Id>)
    ensures Elements(s[..0]) == {}
  {
  }

  function Elements(s: seq<Id>): set<Id> {
    set x | x in s
  }

  lemma OneMoreElement(s: seq<Id>, i: nat)
    requires i < |s|
    ensures Elements(s[..0]) == {} && Elements(s[..i + 1]) == Elements(s[..i]) + {s[i]}
    ensures s[..i + 1] == s[..i] + [s[i]]
  {
  }

  /** Every active job of the listing has run at each of its times on this day. */
  ghost predicate Covered(t: Topology, done: Completions, day: int, listing: seq<Id>)
    reads t
  {
    forall j, m :: j in listing && j in t.jobs && t.jobs[j].active && m in MinutesOf(t.jobs[j].schedule) ==>
      (j, day * MINUTES_PER_DAY + m) in done
  }

  lemma CoveredStays(t: Topology, before: Completions, after: Completions, day: int, listing: seq<Id>)
    requires Covered(t, before, day, listing) && before.Keys <= after.Keys
    ensures Covered(t, after, day, listing)
  {
    hide MinutesOf;
    forall j, m | j in listing && j in t.jobs && t.jobs[j].active && m in MinutesOf(t.jobs[j].schedule)
      ensures (j, day * MINUTES_PER_DAY + m) in after
    {
      assert (j, day * MINUTES_PER_DAY + m) in before.Keys;
    }
  }

  lemma BeforeGrows(done: Completions, day: int, jobs: set<Id>, id: Id)
    requires Before(done, day, jobs)
    ensures Before(done, day, jobs + {id})
  {
  }

  lemma NextDay(done: Completions, day: int, jobs: set<Id>)
    requires Before(done, day, jobs)
    ensures Before(done, day + 1, {})
  {
  }

  lemma TimesAreOfTheDay(schedule: string, day: int, times: seq<int>)
    requires |times| == |MinutesOf(schedule)|
    requires forall i :: 0 <= i < |times| ==> times[i] == day * MINUTES_PER_DAY + MinutesOf(schedule)[i]
    ensures forall k :: 0 <= k < |times| ==> times[k] / MINUTES_PER_DAY == day
    ensures forall k, l :: 0 <= k < l < |times| ==> times[k] != times[l]
  {
    var ms := MinutesOf(schedule);
    forall k | 0 <= k < |times| ensures times[k] / MINUTES_PER_DAY == day {
      assert 0 <= ms[k] < MINUTES_PER_DAY;
    }
  }

  lemma TimesCoverTheDay(schedule: string, day: int, times: seq<int>, job: Id, done: Completions)
    requires |times| == |MinutesOf(schedule)|
    requires forall i :: 0 <= i < |times| ==> times[i] == day * MINUTES_PER_DAY + MinutesOf(schedule)[i]
    requires forall k :: 0 <= k < |times| ==> (job, times[k]) in done
    ensures forall m :: m in MinutesOf(schedule) ==> (job, day * MINUTES_PER_DAY + m) in done
  {
    var ms := MinutesOf(schedule);
    forall m | m in ms ensures (job, day * MINUTES_PER_DAY + m) in done {
      var k :| 0 <= k < |ms| && ms[k] == m;
      assert (job, times[k]) in done;
    }
  }

  lemma NotYetRun(done: Completions, day: int, dealt: set<Id>, job: Id, times: seq<int>)
    requires Before(done, day, dealt) && job !in dealt
    requires forall k :: 0 <= k < |times| ==> times[k] / MINUTES_PER_DAY == day
    ensures forall k :: 0 <= k < |times| ==> (job, times[k]) !in done
    ensures Before(done, day, dealt + {job})
  {
  }

  lemma ProductBetween(a: real, low: real, f: real, high: real)
    requires a >= 0.0 && low <= f <= high
    ensures a * low <= a * f <= a * high
  {
  }

  lemma CutToSeconds(p: real, d: int)
    requires d >= 0 && d as real * 0.8 <= p <= d as real * 1.2
    ensures Truncated(p) >= 0 && 8 * d - 10 < 10 * Truncated(p) <= 12 * d
  {
    var t := p.Floor;
    assert t as real <= p < t as real + 1.0;
    assert (8 * d) as real <= 10.0 * p <= (12 * d) as real;
    assert (10 * t) as real <= (12 * d) as real && (8 * d) as real < (10 * t + 10) as real;
  }

  lemma ScaledDuration(d: int, f: real)
    requires d >= 0 && 0.8 <= f <= 1.2
    ensures var t := Scaled(d, f);
      t >= 0 && 8 * d - 10 < 10 * t <= 12 * d
  {
    ProductBetween(d as real, 0.8, f, 1.2);
    var p := d as real * f;
    CutToSeconds(p, d);
  }

  /** What the generated history promises of its runs, whatever the topology. */
  ghost predicate Promised(t: Topology, xs: seq<Execution>, logs: seq<LogEvent>)
    reads t
  {
    && Logged(xs, logs)
    && (forall i, k :: 0 <= i < k < |xs| ==> xs[i].runId != xs[k].runId)
    && (forall i :: 0 <= i < |xs| ==>
          xs[i].job in t.jobs && xs[i].scheduled * 60 <= xs[i].start
          && (t.jobs[xs[i].job].durationSec >= 0 ==> InOrder(xs[i]))
          && Lasts(t.jobs[xs[i].job], xs[i]) && Prompt(t.rows, xs, xs[i], Slack(t.jobs[xs[i].job])))
  }

  /** Every active job has run at each of its times on this day. */
  ghost predicate Complete(t: Topology, xs: seq<Execution>, day: int)
    reads t
  {
    forall j, m :: j in t.jobs && t.jobs[j].active && m in MinutesOf(t.jobs[j].schedule) ==>
      Ran(xs, j, day * MINUTES_PER_DAY + m)
  }

  lemma SoundIsPromised(g: Generator)
    requires g.Sound() && NamesDays(g.date)
    ensures Promised(g.topology, g.executions, g.logs)
  {
    hide Causal, Logged, RunIdOf, Prompt;
    var xs := g.executions;
    forall i, k | 0 <= i < k < |xs| ensures xs[i].runId != xs[k].runId {
      assert g.Proper(xs[i]) && g.Proper(xs[k]);
      if xs[i].runId == xs[k].runId {
        RunIdsAreUnique(g.date, xs[i].scheduled, xs[k].scheduled, xs[i].job, xs[k].job);
      }
    }
    forall i | 0 <= i < |xs| ensures g.Proper(xs[i]) && g.IsPrompt(xs[i]) {
    }
  }

  lemma CoveredIsComplete(t: Topology, xs: seq<Execution>, done: Completions, day: int, listing: seq<Id>)
    requires Recorded(xs, done) && Covered(t, done, day, listing)
    requires forall j :: j in t.jobs ==> j in listing
    ensures Complete(t, xs, day)
  {
    hide MinutesOf;
    forall j, m | j in t.jobs && t.jobs[j].active && m in MinutesOf(t.jobs[j].schedule)
      ensures Ran(xs, j, day * MINUTES_PER_DAY + m)
    {
      var key := (j, day * MINUTES_PER_DAY + m);
      assert key in done;
      assert Ran(xs, key.0, key.1);
    }
  }

  /** HealthyRunGenerator.generate: uniquely named, in temporal order, logged, and complete for
      every active job and day of the history; and causal, if the topology has no cycle. */
  method Generate(t: Topology, date: int -> string, base: int, historyDays: int, integers: seq<nat>,
                  fractions: seq<real>)
    returns (executions: seq<Execution>, logs: seq<LogEvent>)
    requires t.Valid() && NamesDays(date)
    ensures Promised(t, executions, logs)
    ensures !Cyclic(t.ChildGraph()) ==> Causal(t.rows, executions)
    ensures forall day :: base - historyDays <= day <= base ==> Complete(t, executions, day)
  {
    var generator := new Generator(t, date, integers, fractions, !Cyclic(t.ChildGraph()));
    assert generator.Sound() && Before(generator.completions, base - historyDays, {});
    hide Cyclic, Sorted, Causal, Logged, Recorded, Covered, Complete, Promised, NamesDays, Listed, Linked,
      NoRepeats, Before;
    var sorted := t.TopologicalSort();
    generator.GenerateDays(base - historyDays, base, sorted);
    SoundIsPromised(generator);
    forall day | base - historyDays <= day <= base ensures Complete(t, generator.executions, day) {
      CoveredIsComplete(t, generator.executions, generator.completions, day, sorted);
    }
    return generator.executions, generator.logs;
  }
}
