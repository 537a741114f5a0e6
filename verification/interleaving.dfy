/** Concurrent tasks over one table. Every database call is one step; between two steps of a task any other
    task may run, so a task writes back from a snapshot that may be stale by then. */
module Interleaving {
  import opened Domain
  import opened Validators
  import opened Lifecycle
  import opened Histories
  import opened Tables

  /** remove_proxy is a SELECT and a DELETE, add_proxy one upsert. */
  datatype Stage = Selecting | Deleting | Adding

  /** Where a record in flight comes from: the snapshot that was read, and what the task made of it. */
  datatype Origin = Origin(snapshot: Proxy, cause: Event)

  datatype Task =
    | Queued(from: Pool, snapshot: Proxy, probe: Probe)
    | Checking(from: Pool, snapshot: Proxy, probe: Probe)
    | Moving(from: Pool, to: Pool, record: Proxy, origin: Origin, stage: Stage, permit: bool, next: Task)
    | Saving(pool: Pool, record: Proxy, origin: Origin)
    | Reporting(id: string, report: Report, now: int, cooledAt: int)
    | Releasing(pending: seq<Proxy>, now: int)
    | DeleteSelecting(id: string)
    | DeleteDeleting(id: string)
    | Fetching(pending: seq<Proxy>)
    | RescoreReading(id: string, delta: int)
    | RescoreWriting(pool: Pool, record: Proxy)
    | MoveReading(from: Pool, to: Pool, id: string)
    | MoveUpdating(to: Pool, id: string, record: Proxy)
    | Finished

  datatype World = World(table: Table, tasks: seq<Task>, permits: nat)

  function AfterTask(cfg: Config, t: Table, task: Task): Task {
    match task
    case Queued(from, p, probe) => Checking(from, p, probe)
    case Checking(from, p, probe) =>
      var out := Validated(cfg, p, probe);
      Moving(from, out.target, out.proxy, Origin(p, Validate(probe)), Selecting, true, Finished)
    case Moving(from, to, record, origin, stage, permit, next) =>
      (match stage
       case Selecting =>
         if record.id in t && t[record.id].pool == from then Moving(from, to, record, origin, Deleting, permit, next)
         else Moving(from, to, record, origin, Adding, permit, next)
       case Deleting => Moving(from, to, record, origin, Adding, permit, next)
       case Adding => next)
    case Reporting(id, report, now, cooledAt) =>
      if id !in t then Finished
      else
        var pool := t[id].pool;
        var stored := Reported(cfg, pool, t[id].payload, report, now, cooledAt);
        var origin := Origin(t[id].payload, Use(report, now, cooledAt));
        if stored.status != pool then Moving(pool, stored.status, stored, origin, Selecting, false, Finished)
        else Saving(pool, stored, origin)
    case Releasing(pending, now) =>
      if pending == [] then Finished
      else if Expired(pending[0], now) then
        Moving(Cooldown, Raw, Released(pending[0]), Origin(pending[0], Release(now)), Selecting, false,
               Releasing(pending[1..], now))
      else Releasing(pending[1..], now)
    case DeleteSelecting(id) => if id in t then DeleteDeleting(id) else Finished
    case Fetching(pending) => if pending == [] then Finished else Fetching(pending[1..])
    case RescoreReading(id, delta) =>
      if id !in t then Finished
      else RescoreWriting(t[id].pool, t[id].payload.(score := t[id].payload.score + delta))
    case MoveReading(from, to, id) =>
      if id in t && t[id].pool == from then MoveUpdating(to, id, t[id].payload.(status := to)) else Finished
    case _ => Finished
  }

  function AfterTable(t: Table, task: Task): Table {
    match task
    case Moving(_, to, record, _, stage, _, _) =>
      (match stage
       case Selecting => t
       case Deleting => t - {record.id}
       case Adding => Put(t, to, record))
    case Saving(pool, record, _) => Put(t, pool, record)
    case DeleteDeleting(id) => t - {id}
    case Fetching(pending) => if pending == [] then t else Put(t, Raw, pending[0])
    case RescoreWriting(pool, record) => t[record.id := RowOf(pool, record)]
    case MoveUpdating(to, id, record) => if id in t then t[id := RowOf(to, record)] else t
    case _ => t
  }

  /** A queued validation needs a permit of the semaphore; everything else unfinished can go on. */
  predicate Enabled(w: World, i: nat) {
    i < |w.tasks| && !w.tasks[i].Finished? && (w.tasks[i].Queued? ==> w.permits > 0)
  }

  predicate GivesBack(task: Task) { task.Moving? && task.permit && task.stage == Adding }

  function Advanced(cfg: Config, w: World, i: nat): World
    requires Enabled(w, i)
  {
    var task := w.tasks[i];
    World(AfterTable(w.table, task),
          w.tasks[i := AfterTask(cfg, w.table, task)],
          if task.Queued? then w.permits - 1 else if GivesBack(task) then w.permits + 1 else w.permits)
  }

  datatype Action = Start(task: Task) | Advance(i: nat)

  predicate InPool(t: Table, pool: Pool, p: Proxy) {
    p.id in t && t[p.id].pool == pool && t[p.id].payload == p
  }

  predicate DistinctIds(ps: seq<Proxy>) { forall i, j :: 0 <= i < j < |ps| ==> ps[i].id != ps[j].id }

  /** What a new task may start from: validations and releases start from rows just listed, fetches from
      fresh records, the others from nothing. */
  predicate CanStart(t: Table, task: Task) {
    match task
    case Queued(from, p, _) => InPool(t, from, p)
    case Releasing(pending, _) => (forall p :: p in pending ==> InPool(t, Cooldown, p)) && DistinctIds(pending)
    case Fetching(pending) => forall p :: p in pending ==> Fresh(p)
    case Reporting(_, _, _, _) => true
    case DeleteSelecting(_) => true
    case RescoreReading(_, _) => true
    case MoveReading(_, _, _) => true
    case _ => false
  }

  predicate Possible(w: World, e: Action) {
    match e
    case Start(task) => CanStart(w.table, task)
    case Advance(i) => Enabled(w, i)
  }

  function Next(cfg: Config, w: World, e: Action): World
    requires Possible(w, e)
  {
    match e
    case Start(task) => w.(tasks := w.tasks + [task])
    case Advance(i) => Advanced(cfg, w, i)
  }

  /** A run: any number of actions, each possible where it happens. */
  ghost predicate IsRun(cfg: Config, ws: seq<World>, es: seq<Action>) {
    |ws| == |es| + 1
    && forall k :: 0 <= k < |es| ==> Possible(ws[k], es[k]) && ws[k + 1] == Next(cfg, ws[k], es[k])
  }

  // ---------------------------------------------------------------- columns and payloads agree

  predicate TaskAgrees(task: Task) {
    match task
    case Moving(_, _, _, _, _, _, next) => TaskAgrees(next)
    case RescoreWriting(pool, record) => record.status == pool
    case MoveUpdating(to, id, record) => record.id == id && record.status == to
    case _ => true
  }

  ghost predicate WorldAgrees(w: World) {
    Agrees(w.table) && forall i :: 0 <= i < |w.tasks| ==> TaskAgrees(w.tasks[i])
  }

  lemma StepAgrees(cfg: Config, t: Table, task: Task)
    requires Agrees(t) && TaskAgrees(task)
    ensures Agrees(AfterTable(t, task)) && TaskAgrees(AfterTask(cfg, t, task))
  {
    if task.RescoreReading? && task.id in t {
      assert RowAgrees(task.id, t[task.id]);
    } else if task.MoveReading? && task.id in t {
      assert RowAgrees(task.id, t[task.id]);
    }
  }

  /** In every state of every run, score updates and pool moves included and whatever writers interleave,
      each row is filed under its payload's id and its columns equal the payload's fields. */
  lemma {:induction false} RunsKeepAgreement(cfg: Config, ws: seq<World>, es: seq<Action>, k: nat)
    requires IsRun(cfg, ws, es) && k < |ws| && WorldAgrees(ws[0])
    ensures WorldAgrees(ws[k])
  {
    if k > 0 {
      RunsKeepAgreement(cfg, ws, es, k - 1);
      var e := es[k - 1];
      assert ws[k] == Next(cfg, ws[k - 1], e);
      if e.Advance? {
        StepAgrees(cfg, ws[k - 1].table, ws[k - 1].tasks[e.i]);
      }
    }
  }

  // ---------------------------------------------------------------- the lifecycle invariant

  /** Tasks of the services; the direct score update and pool move are store operations nobody calls. */
  predicate OfServices(task: Task) {
    !(task.RescoreReading? || task.RescoreWriting? || task.MoveReading? || task.MoveUpdating?)
  }

  /** Every snapshot in flight satisfies the record invariant of the pool it was read from or goes to. */
  predicate TaskOk(task: Task) {
    match task
    case Queued(from, p, _) => RecordOk(p) && p.status == from
    case Checking(from, p, _) => RecordOk(p) && p.status == from
    case Moving(_, to, record, _, _, _, next) => RecordOk(record) && record.status == to && TaskOk(next)
    case Saving(pool, record, _) => RecordOk(record) && record.status == pool
    case Releasing(pending, _) => forall p :: p in pending ==> RecordOk(p) && p.status == Cooldown
    case Fetching(pending) => forall p :: p in pending ==> Fresh(p)
    case _ => OfServices(task)
  }

  predicate TableOk(t: Table) {
    forall id :: id in t ==> RowAgrees(id, t[id]) && RecordOk(t[id].payload)
  }

  ghost predicate WorldOk(w: World) {
    TableOk(w.table) && forall i :: 0 <= i < |w.tasks| ==> TaskOk(w.tasks[i])
  }

  lemma StepTableOk(t: Table, task: Task)
    requires TableOk(t) && TaskOk(task)
    ensures TableOk(AfterTable(t, task))
  {
    if task.Fetching? && task.pending != [] {
      assert task.pending[0] in task.pending;
      FreshIsOk(task.pending[0].(status := Raw));
    }
  }

  lemma ReportingStaysOk(cfg: Config, t: Table, task: Task)
    requires TableOk(t) && task.Reporting?
    ensures TaskOk(AfterTask(cfg, t, task))
  {
    if task.id in t {
      assert RowAgrees(task.id, t[task.id]);
      var stored := Reported(cfg, t[task.id].pool, t[task.id].payload, task.report, task.now, task.cooledAt);
      ReportedIsOk(cfg, t[task.id].payload, task.report, task.now, task.cooledAt);
      WriteIsOk(t[task.id].pool, stored, Origin(t[task.id].payload, Use(task.report, task.now, task.cooledAt)));
    }
  }

  lemma WriteIsOk(pool: Pool, record: Proxy, origin: Origin)
    requires RecordOk(record)
    ensures TaskOk(Moving(pool, record.status, record, origin, Selecting, false, Finished))
    ensures record.status == pool ==> TaskOk(Saving(pool, record, origin))
  {}

  lemma ReleasingStaysOk(cfg: Config, t: Table, task: Task)
    requires task.Releasing? && TaskOk(task)
    ensures TaskOk(AfterTask(cfg, t, task))
  {
    if task.pending != [] {
      assert task.pending[0] in task.pending;
      ReleasedIsOk(task.pending[0]);
    }
  }

  lemma {:induction false} StepTaskOk(cfg: Config, t: Table, task: Task)
    requires TableOk(t) && TaskOk(task)
    ensures TaskOk(AfterTask(cfg, t, task))
  {
    match task {
      case Checking(_, p, probe) => ValidatedIsOk(cfg, p, probe);
      case Reporting(_, _, _, _) => ReportingStaysOk(cfg, t, task);
      case Releasing(_, _) => ReleasingStaysOk(cfg, t, task);
      case _ =>
    }
  }

  /** Under any interleaving of fetches, validations, reports, releases and deletes, started in any number
      at any time, every row and every snapshot in flight satisfies the record invariant: status equals
      pool, failures in a row never exceed failures, no cooldown outside cooldown and dead, at most two
      failures in a row in checked and elite, elite anonymity in elite, and the score bounds. */
  lemma {:induction false} RunsKeepInvariant(cfg: Config, ws: seq<World>, es: seq<Action>, k: nat)
    requires IsRun(cfg, ws, es) && k < |ws| && WorldOk(ws[0])
    requires forall j :: 0 <= j < |es| && es[j].Start? ==> OfServices(es[j].task)
    ensures WorldOk(ws[k])
  {
    if k > 0 {
      RunsKeepInvariant(cfg, ws, es, k - 1);
      StepKeepsInvariant(cfg, ws[k - 1], es[k - 1]);
    }
  }

  lemma {:induction false} StepKeepsInvariant(cfg: Config, w: World, e: Action)
    requires WorldOk(w) && Possible(w, e) && (e.Start? ==> OfServices(e.task))
    ensures WorldOk(Next(cfg, w, e))
  {
    match e {
      case Advance(i) =>
        StepTableOk(w.table, w.tasks[i]);
        StepTaskOk(cfg, w.table, w.tasks[i]);
      case Start(task) =>
        StartIsOk(w.table, task);
    }
  }

  lemma StartIsOk(t: Table, task: Task)
    requires TableOk(t) && CanStart(t, task) && OfServices(task)
    ensures TaskOk(task)
  {
    if task.Queued? {
      assert RowAgrees(task.snapshot.id, t[task.snapshot.id]);
    } else if task.Releasing? {
      forall p | p in task.pending ensures RecordOk(p) && p.status == Cooldown {
        assert RowAgrees(p.id, t[p.id]);
      }
    }
  }

  /** The invariant starts from nothing. */
  lemma EmptyWorldIsOk(permits: nat)
    ensures WorldOk(World(map[], [], permits)) && WorldAgrees(World(map[], [], permits))
  {}
}

/** A batch of validations sharing a semaphore, with no other writer. */
module Batches {
  import opened Domain
  import opened Validators
  import opened Lifecycle
  import opened Tables
  import opened Services
  import opened Interleaving

  /** Distinct records of one pool, as a listing returns them. */
  ghost predicate IsBatch(t: Table, from: Pool, batch: seq<Proxy>) {
    && (forall i :: 0 <= i < |batch| ==> InPool(t, from, batch[i]))
    && DistinctIds(batch)
  }

  function Gathered(t: Table, from: Pool, batch: seq<Proxy>, probes: string -> Probe, concurrency: nat): (w: World)
    ensures |w.tasks| == |batch| && w.table == t && w.permits == concurrency
    ensures forall i :: 0 <= i < |batch| ==> w.tasks[i] == Queued(from, batch[i], probes(batch[i].id))
  {
    World(t, seq(|batch|, i requires 0 <= i < |batch| => Queued(from, batch[i], probes(batch[i].id))), concurrency)
  }

  /** A schedule: any run of the gathered tasks in which nothing else happens. */
  ghost predicate IsSchedule(cfg: Config, t: Table, from: Pool, batch: seq<Proxy>, probes: string -> Probe,
                             concurrency: nat, ws: seq<World>, es: seq<Action>) {
    && IsRun(cfg, ws, es)
    && ws[0] == Gathered(t, from, batch, probes, concurrency)
    && forall k :: 0 <= k < |es| ==> es[k].Advance?
  }

  /** The table after validating the batch one record after the other. */
  function OneAtATime(cfg: Config, t: Table, batch: seq<Proxy>, probes: string -> Probe): Table {
    WriteAll(t, OutcomeWrites(BatchOutcomes(cfg, batch, probes)))
  }

  // ---------------------------------------------------------------- permits

  predicate Holding(task: Task) { task.Checking? || (task.Moving? && task.permit) }

  function Holders(tasks: seq<Task>): nat {
    if tasks == [] then 0
    else Holders(tasks[..|tasks| - 1]) + if Holding(tasks[|tasks| - 1]) then 1 else 0
  }

  function StepsOf(task: Task): nat {
    match task
    case Queued(_, _, _) => 5
    case Checking(_, _, _) => 4
    case Moving(_, _, _, _, stage, _, _) => (match stage case Selecting => 3 case Deleting => 2 case Adding => 1)
    case _ => 0
  }

  function StepsLeft(tasks: seq<Task>): nat {
    if tasks == [] then 0 else StepsLeft(tasks[..|tasks| - 1]) + StepsOf(tasks[|tasks| - 1])
  }

  lemma {:induction false} ReplaceTask(tasks: seq<Task>, i: nat, task: Task)
    requires i < |tasks|
    ensures Holders(tasks[i := task]) + (if Holding(tasks[i]) then 1 else 0)
            == Holders(tasks) + (if Holding(task) then 1 else 0)
    ensures StepsLeft(tasks[i := task]) + StepsOf(tasks[i]) == StepsLeft(tasks) + StepsOf(task)
  {
    var last := |tasks| - 1;
    if i == last {
      assert tasks[i := task][..last] == tasks[..last];
    } else {
      ReplaceTask(tasks[..last], i, task);
      assert tasks[i := task][..last] == tasks[..last][i := task];
    }
  }

  // ---------------------------------------------------------------- the invariant of a batch

  /** How far task and row of one record of the batch have come. */
  predicate OnTrack(t: Table, from: Pool, p: Proxy, probe: Probe, out: Outcome, task: Task) {
    match task
    case Queued(f, s, pr) => f == from && s == p && pr == probe && InPool(t, from, p)
    case Checking(f, s, pr) => f == from && s == p && pr == probe && InPool(t, from, p)
    case Moving(f, to, record, _, stage, permit, next) =>
      && f == from && to == out.target && record == out.proxy && permit && next == Finished
      && if stage == Adding then p.id !in t else InPool(t, from, p)
    case Finished => p.id in t && t[p.id] == RowOf(out.target, out.proxy)
    case _ => false
  }

  ghost predicate Untouched(t0: Table, t: Table, batch: seq<Proxy>) {
    forall id :: (forall i :: 0 <= i < |batch| ==> batch[i].id != id) ==>
      (id in t <==> id in t0) && (id in t0 ==> t[id] == t0[id])
  }

  ghost predicate RecordOnTrack(cfg: Config, from: Pool, batch: seq<Proxy>, probes: string -> Probe, w: World, i: nat)
    requires i < |batch| == |w.tasks|
  {
    OnTrack(w.table, from, batch[i], probes(batch[i].id), BatchOutcomes(cfg, batch, probes)[i], w.tasks[i])
  }

  ghost predicate BatchInv(cfg: Config, t0: Table, from: Pool, batch: seq<Proxy>, probes: string -> Probe, w: World) {
    && |w.tasks| == |batch|
    && (forall i :: 0 <= i < |batch| ==> RecordOnTrack(cfg, from, batch, probes, w, i))
    && Untouched(t0, w.table, batch)
  }

  /** A step keeps its own record on track and touches no other row. */
  lemma StepOnTrack(cfg: Config, t: Table, from: Pool, p: Proxy, probe: Probe, task: Task)
    requires OnTrack(t, from, p, probe, Validated(cfg, p, probe), task) && !task.Finished?
    ensures OnTrack(AfterTable(t, task), from, p, probe, Validated(cfg, p, probe), AfterTask(cfg, t, task))
    ensures SameOutside(t, AfterTable(t, task), p.id)
    ensures StepsOf(AfterTask(cfg, t, task)) + 1 == StepsOf(task)
    ensures Holding(AfterTask(cfg, t, task)) == ((Holding(task) || task.Queued?) && !GivesBack(task))
    ensures (GivesBack(task) ==> Holding(task)) && (task.Queued? ==> !Holding(task))
  {
    assert Validated(cfg, p, probe).proxy.id == p.id;
  }

  ghost predicate SameOutside(t: Table, u: Table, id: string) {
    forall other :: other != id ==> (other in u <==> other in t) && (other in t ==> u[other] == t[other])
  }

  lemma StepKeepsBatch(cfg: Config, t0: Table, from: Pool, batch: seq<Proxy>, probes: string -> Probe, w: World, i: nat)
    requires IsBatch(t0, from, batch) && BatchInv(cfg, t0, from, batch, probes, w) && Enabled(w, i)
    ensures BatchInv(cfg, t0, from, batch, probes, Advanced(cfg, w, i))
    ensures var w' := Advanced(cfg, w, i);
            && w'.permits + Holders(w'.tasks) == w.permits + Holders(w.tasks)
            && StepsLeft(w'.tasks) + 1 == StepsLeft(w.tasks)
  {
    assert RecordOnTrack(cfg, from, batch, probes, w, i);
    OutcomeAt(cfg, batch, probes, i);
    StepOnTrack(cfg, w.table, from, batch[i], probes(batch[i].id), w.tasks[i]);
    ReplaceTask(w.tasks, i, AfterTask(cfg, w.table, w.tasks[i]));
    var w' := Advanced(cfg, w, i);
    forall j | 0 <= j < |batch| && j != i ensures RecordOnTrack(cfg, from, batch, probes, w', j) {
      assert RecordOnTrack(cfg, from, batch, probes, w, j) && batch[j].id != batch[i].id;
      SameRowOnTrack(w.table, w'.table, from, batch[j], probes(batch[j].id),
                     BatchOutcomes(cfg, batch, probes)[j], w.tasks[j]);
    }
    assert RecordOnTrack(cfg, from, batch, probes, w', i);
  }

  lemma SameRowOnTrack(t: Table, u: Table, from: Pool, p: Proxy, probe: Probe, out: Outcome, task: Task)
    requires OnTrack(t, from, p, probe, out, task)
    requires (p.id in u <==> p.id in t) && (p.id in t ==> u[p.id] == t[p.id])
    ensures OnTrack(u, from, p, probe, out, task)
  {}

  lemma {:induction false} GatheredIsOnTrack(tasks: seq<Task>)
    requires forall i :: 0 <= i < |tasks| ==> tasks[i].Queued?
    ensures Holders(tasks) == 0 && StepsLeft(tasks) == 5 * |tasks|
  {
    if tasks != [] {
      GatheredIsOnTrack(tasks[..|tasks| - 1]);
    }
  }

  lemma StartsOnTrack(cfg: Config, t: Table, from: Pool, batch: seq<Proxy>, probes: string -> Probe, concurrency: nat)
    requires IsBatch(t, from, batch)
    ensures var w := Gathered(t, from, batch, probes, concurrency);
            && BatchInv(cfg, t, from, batch, probes, w)
            && w.permits + Holders(w.tasks) == concurrency
            && StepsLeft(w.tasks) == 5 * |batch|
  {
    var w := Gathered(t, from, batch, probes, concurrency);
    GatheredIsOnTrack(w.tasks);
    forall i | 0 <= i < |batch| ensures RecordOnTrack(cfg, from, batch, probes, w, i) {
      assert InPool(t, from, batch[i]);
    }
  }

  lemma ScheduleStep(cfg: Config, t: Table, from: Pool, batch: seq<Proxy>, probes: string -> Probe,
                     concurrency: nat, ws: seq<World>, es: seq<Action>, k: nat)
    requires IsSchedule(cfg, t, from, batch, probes, concurrency, ws, es) && k < |es|
    ensures es[k].Advance? && Enabled(ws[k], es[k].i) && ws[k + 1] == Advanced(cfg, ws[k], es[k].i)
  {
    assert Possible(ws[k], es[k]);
  }

  /** In every state of every schedule each record is on track, other ids are untouched, the permits add up
      to the concurrency, and the steps still to do are what the schedule has left. */
  lemma {:induction false} ScheduleInvariant(cfg: Config, t: Table, from: Pool, batch: seq<Proxy>,
      probes: string -> Probe, concurrency: nat, ws: seq<World>, es: seq<Action>, k: nat)
    requires IsBatch(t, from, batch) && IsSchedule(cfg, t, from, batch, probes, concurrency, ws, es) && k < |ws|
    ensures BatchInv(cfg, t, from, batch, probes, ws[k])
    ensures ws[k].permits + Holders(ws[k].tasks) == concurrency
    ensures StepsLeft(ws[k].tasks) + k == 5 * |batch|
  {
    if k == 0 {
      StartsOnTrack(cfg, t, from, batch, probes, concurrency);
    } else {
      ScheduleInvariant(cfg, t, from, batch, probes, concurrency, ws, es, k - 1);
      ScheduleStep(cfg, t, from, batch, probes, concurrency, ws, es, k - 1);
      StepKeepsBatch(cfg, t, from, batch, probes, ws[k - 1], es[k - 1].i);
    }
  }

  // ---------------------------------------------------------------- the results

  /** Never more tasks inside the semaphore than its size. */
  lemma ConcurrencyIsBounded(cfg: Config, t: Table, from: Pool, batch: seq<Proxy>, probes: string -> Probe,
                             concurrency: nat, ws: seq<World>, es: seq<Action>, k: nat)
    requires IsBatch(t, from, batch) && IsSchedule(cfg, t, from, batch, probes, concurrency, ws, es) && k < |ws|
    ensures Holders(ws[k].tasks) <= concurrency
  {
    ScheduleInvariant(cfg, t, from, batch, probes, concurrency, ws, es, k);
  }

  ghost predicate AllFinished(w: World) { forall i :: 0 <= i < |w.tasks| ==> w.tasks[i].Finished? }

  lemma {:induction false} SomeoneHolds(tasks: seq<Task>)
    ensures Holders(tasks) > 0 <==> exists i :: 0 <= i < |tasks| && Holding(tasks[i])
  {
    if tasks != [] {
      SomeoneHolds(tasks[..|tasks| - 1]);
      if i :| 0 <= i < |tasks| - 1 && Holding(tasks[i]) {
        assert Holding(tasks[..|tasks| - 1][i]);
      }
    }
  }

  /** A schedule that is not finished can go on exactly when the semaphore admits anyone at all. A waiting
      task never depends on the order in which the semaphore admits: all waiting tasks are enabled at once. */
  lemma NoScheduleIsStuck(cfg: Config, t: Table, from: Pool, batch: seq<Proxy>, probes: string -> Probe,
                          concurrency: nat, ws: seq<World>, es: seq<Action>, k: nat)
    requires IsBatch(t, from, batch) && IsSchedule(cfg, t, from, batch, probes, concurrency, ws, es) && k < |ws|
    requires !AllFinished(ws[k])
    ensures (exists i: nat :: Enabled(ws[k], i)) <==> concurrency >= 1
  {
    var w := ws[k];
    ScheduleInvariant(cfg, t, from, batch, probes, concurrency, ws, es, k);
    forall i: nat | i < |w.tasks|
      ensures w.tasks[i].Finished? || w.tasks[i].Queued? || Holding(w.tasks[i])
    {
      assert RecordOnTrack(cfg, from, batch, probes, w, i);
    }
    SomeCanGoOn(w, concurrency);
  }

  lemma SomeCanGoOn(w: World, concurrency: nat)
    requires w.permits + Holders(w.tasks) == concurrency && !AllFinished(w)
    requires forall i: nat :: i < |w.tasks| ==> w.tasks[i].Finished? || w.tasks[i].Queued? || Holding(w.tasks[i])
    ensures (exists i: nat :: Enabled(w, i)) <==> concurrency >= 1
  {
    SomeoneHolds(w.tasks);
    var i: nat :| i < |w.tasks| && !w.tasks[i].Finished?;
    if w.permits > 0 {
      assert Enabled(w, i);
    } else if Holders(w.tasks) > 0 {
      var j: nat :| j < |w.tasks| && Holding(w.tasks[j]);
      assert Enabled(w, j);
    }
  }

  /** Schedule independence: whatever the interleaving, once all tasks have finished the table is the one
      that validating the records one at a time leaves, after exactly five steps a record. */
  lemma ScheduleIndependence(cfg: Config, t: Table, from: Pool, batch: seq<Proxy>, probes: string -> Probe,
                             concurrency: nat, ws: seq<World>, es: seq<Action>)
    requires IsBatch(t, from, batch) && IsSchedule(cfg, t, from, batch, probes, concurrency, ws, es)
    ensures AllFinished(ws[|es|]) <==> |es| == 5 * |batch|
    ensures AllFinished(ws[|es|]) ==> ws[|es|].table == OneAtATime(cfg, t, batch, probes)
  {
    var w := ws[|es|];
    ScheduleInvariant(cfg, t, from, batch, probes, concurrency, ws, es, |es|);
    forall i | 0 <= i < |batch| ensures StepsOf(w.tasks[i]) == 0 <==> w.tasks[i].Finished? {
      assert RecordOnTrack(cfg, from, batch, probes, w, i);
    }
    NoStepsLeft(w.tasks);
    if AllFinished(w) {
      FinishedTable(cfg, t, from, batch, probes, w);
    }
  }

  lemma FinishedRow(cfg: Config, from: Pool, batch: seq<Proxy>, probes: string -> Probe, w: World, i: nat)
    requires i < |batch| == |w.tasks| && RecordOnTrack(cfg, from, batch, probes, w, i) && w.tasks[i].Finished?
    ensures var out := BatchOutcomes(cfg, batch, probes)[i];
            && out.proxy.id == batch[i].id && out.proxy.id in w.table
            && w.table[out.proxy.id] == RowOf(out.target, out.proxy)
  {
    BatchWriteIds(cfg, batch, probes);
  }

  lemma FinishedTable(cfg: Config, t: Table, from: Pool, batch: seq<Proxy>, probes: string -> Probe, w: World)
    requires IsBatch(t, from, batch) && BatchInv(cfg, t, from, batch, probes, w) && AllFinished(w)
    ensures w.table == OneAtATime(cfg, t, batch, probes)
  {
    var outs := BatchOutcomes(cfg, batch, probes);
    BatchWriteIds(cfg, batch, probes);
    forall i | 0 <= i < |outs|
      ensures outs[i].proxy.id in w.table && w.table[outs[i].proxy.id] == RowOf(outs[i].target, outs[i].proxy)
    {
      FinishedRow(cfg, from, batch, probes, w, i);
    }
    UntouchedByOutcomes(t, w.table, batch, outs);
    OutcomeTable(t, w.table, outs);
  }

  lemma UntouchedByOutcomes(t: Table, u: Table, batch: seq<Proxy>, outs: seq<Outcome>)
    requires Untouched(t, u, batch) && |outs| == |batch|
    requires forall i :: 0 <= i < |outs| ==> outs[i].proxy.id == batch[i].id
    ensures forall id :: (forall i :: 0 <= i < |outs| ==> outs[i].proxy.id != id) ==>
              (id in u <==> id in t) && (id in t ==> u[id] == t[id])
  {
    forall id | forall i :: 0 <= i < |outs| ==> outs[i].proxy.id != id
      ensures (id in u <==> id in t) && (id in t ==> u[id] == t[id])
    {
      assert forall i :: 0 <= i < |batch| ==> batch[i].id != id;
    }
  }

  lemma OutcomeTable(t: Table, u: Table, outs: seq<Outcome>)
    requires forall i :: 0 <= i < |outs| ==> outs[i].proxy.status == outs[i].target
    requires forall i, j :: 0 <= i < j < |outs| ==> outs[i].proxy.id != outs[j].proxy.id
    requires forall i :: 0 <= i < |outs| ==>
               outs[i].proxy.id in u && u[outs[i].proxy.id] == RowOf(outs[i].target, outs[i].proxy)
    requires forall id :: (forall i :: 0 <= i < |outs| ==> outs[i].proxy.id != id) ==>
               (id in u <==> id in t) && (id in t ==> u[id] == t[id])
    ensures u == WriteAll(t, OutcomeWrites(outs))
  {
    var after := WriteAll(t, OutcomeWrites(outs));
    forall id ensures (id in u <==> id in after) && (id in after ==> u[id] == after[id]) {
      if i :| 0 <= i < |outs| && outs[i].proxy.id == id {
        OutcomeRow(t, outs, i);
      } else {
        NoOutcomeRow(t, outs, id);
      }
    }
  }

  lemma OutcomeRow(t: Table, outs: seq<Outcome>, i: nat)
    requires i < |outs| && outs[i].proxy.status == outs[i].target
    requires forall i, j :: 0 <= i < j < |outs| ==> outs[i].proxy.id != outs[j].proxy.id
    ensures outs[i].proxy.id in WriteAll(t, OutcomeWrites(outs))
    ensures WriteAll(t, OutcomeWrites(outs))[outs[i].proxy.id] == RowOf(outs[i].target, outs[i].proxy)
  {
    WriteAllAt(t, OutcomeWrites(outs), i);
  }

  lemma NoOutcomeRow(t: Table, outs: seq<Outcome>, id: string)
    requires forall i :: 0 <= i < |outs| ==> outs[i].proxy.id != id
    ensures var after := WriteAll(t, OutcomeWrites(outs));
            (id in after <==> id in t) && (id in t ==> after[id] == t[id])
  {
    assert !Touches(OutcomeWrites(outs), id);
    WriteAllOutside(t, OutcomeWrites(outs), id);
  }

  /** A validation writes back the record it read, under the same id and the pool in its status. */
  lemma BatchWriteIds(cfg: Config, batch: seq<Proxy>, probes: string -> Probe)
    ensures var outs := BatchOutcomes(cfg, batch, probes);
            forall i :: 0 <= i < |outs| ==> outs[i].proxy.id == batch[i].id && outs[i].proxy.status == outs[i].target
  {
    forall i: nat | i < |batch|
      ensures var out := BatchOutcomes(cfg, batch, probes)[i];
              out.proxy.id == batch[i].id && out.proxy.status == out.target
    {
      OutcomeAt(cfg, batch, probes, i);
    }
  }

  lemma {:induction false} NoStepsLeft(tasks: seq<Task>)
    ensures StepsLeft(tasks) == 0 <==> forall i :: 0 <= i < |tasks| ==> StepsOf(tasks[i]) == 0
  {
    if tasks != [] {
      var init := tasks[..|tasks| - 1];
      NoStepsLeft(init);
      assert forall i :: 0 <= i < |init| ==> init[i] == tasks[i];
    }
  }
}
