/** Five strikes in the table: what of a record's history survives when tasks overlap. */
module Strikes {
  import opened Domain
  import opened Validators
  import opened Lifecycle
  import opened Histories
  import opened Tables
  import opened Interleaving

  // ---------------------------------------------------------------- what a task holds of one id

  function FirstExpired(pending: seq<Proxy>, id: string, now: int): Option<Proxy> {
    if pending == [] then None
    else if Expired(pending[0], now) && pending[0].id == id then Some(pending[0])
    else FirstExpired(pending[1..], id, now)
  }

  /** What a task has read of an id and will write back, if it holds anything of it. */
  function Claim(task: Task, id: string): Option<Origin> {
    match task
    case Queued(_, p, probe) => if p.id == id then Some(Origin(p, Validate(probe))) else None
    case Checking(_, p, probe) => if p.id == id then Some(Origin(p, Validate(probe))) else None
    case Moving(_, _, record, origin, _, _, next) => if record.id == id then Some(origin) else Claim(next, id)
    case Saving(_, record, origin) => if record.id == id then Some(origin) else None
    case Releasing(pending, now) =>
      var p := FirstExpired(pending, id, now);
      if p.Some? then Some(Origin(p.value, Release(now))) else None
    case _ => None
  }

  /** The next step of the task writes the id back. */
  predicate WritesBack(task: Task, id: string) {
    match task
    case Moving(_, _, record, _, stage, _, _) => stage == Adding && record.id == id
    case Saving(_, record, _) => record.id == id
    case _ => false
  }

  /** A record in flight is what its cause makes of its snapshot. */
  predicate MadeFrom(cfg: Config, record: Proxy, origin: Origin) {
    && origin.snapshot.id == record.id
    && record == Effect(cfg, origin.snapshot, origin.cause)
  }

  predicate Honest(cfg: Config, task: Task) {
    match task
    case Queued(from, p, _) => p.status == from
    case Checking(from, p, _) => p.status == from
    case Moving(_, to, record, origin, _, _, next) =>
      && MadeFrom(cfg, record, origin) && to == record.status
      && (next.Finished? || next.Releasing?) && Claim(next, record.id).None? && Honest(cfg, next)
    case Saving(pool, record, origin) => MadeFrom(cfg, record, origin) && pool == record.status
    case Releasing(pending, _) => DistinctIds(pending) && forall p :: p in pending ==> p.status == Cooldown
    case _ => true
  }

  /** The task is none of those that replace a record by something unrelated to its history: fetches,
      score updates, pool moves. */
  predicate Spares(task: Task, id: string) {
    match task
    case Moving(_, _, _, _, _, _, next) => Spares(next, id)
    case Fetching(pending) => forall p :: p in pending ==> p.id != id
    case RescoreReading(other, _) => other != id
    case RescoreWriting(_, record) => record.id != id
    case MoveReading(_, _, other) => other != id
    case MoveUpdating(_, other, _) => other != id
    case _ => true
  }

  predicate ReportsOn(task: Task, id: string) { task.Reporting? && task.id == id }

  lemma {:induction false} NoneExpired(pending: seq<Proxy>, id: string, now: int)
    requires forall p :: p in pending ==> p.id != id
    ensures FirstExpired(pending, id, now).None?
  {
    if pending != [] {
      NoneExpired(pending[1..], id, now);
    }
  }

  lemma {:induction false} FirstExpiredIsPending(pending: seq<Proxy>, id: string, now: int)
    ensures var p := FirstExpired(pending, id, now);
            p.Some? ==> p.value in pending && p.value.id == id && Expired(p.value, now)
  {
    if pending != [] {
      FirstExpiredIsPending(pending[1..], id, now);
    }
  }

  lemma RestIsDistinct(pending: seq<Proxy>, now: int)
    requires pending != [] && DistinctIds(pending)
    ensures DistinctIds(pending[1..]) && FirstExpired(pending[1..], pending[0].id, now).None?
  {
    NoneExpired(pending[1..], pending[0].id, now);
  }

  // ---------------------------------------------------------------- one step

  lemma ReportStaysHonest(cfg: Config, t: Table, task: Task)
    requires Agrees(t) && task.Reporting?
    ensures Honest(cfg, AfterTask(cfg, t, task))
  {
    if task.id in t {
      assert RowAgrees(task.id, t[task.id]);
    }
  }

  lemma ReleaseStaysHonest(cfg: Config, t: Table, task: Task)
    requires task.Releasing? && Honest(cfg, task)
    ensures Honest(cfg, AfterTask(cfg, t, task))
  {
    if task.pending != [] {
      RestIsDistinct(task.pending, task.now);
      assert task.pending[0] in task.pending;
    }
  }

  lemma StepStaysHonest(cfg: Config, t: Table, task: Task)
    requires Agrees(t) && Honest(cfg, task)
    ensures Honest(cfg, AfterTask(cfg, t, task))
  {
    match task {
      case Reporting(_, _, _, _) => ReportStaysHonest(cfg, t, task);
      case Releasing(_, _) => ReleaseStaysHonest(cfg, t, task);
      case _ =>
    }
  }

  lemma StepStillSpares(cfg: Config, t: Table, task: Task, id: string)
    requires Agrees(t) && Spares(task, id)
    ensures Spares(AfterTask(cfg, t, task), id)
  {
    if task.RescoreReading? && task.id in t {
      assert RowAgrees(task.id, t[task.id]);
    }
  }

  /** A step that does not write an id back leaves its row alone or deletes it. */
  lemma RowAfterStep(t: Table, task: Task, id: string)
    requires Spares(task, id) && !WritesBack(task, id)
    ensures id in AfterTable(t, task) ==> id in t && AfterTable(t, task)[id] == t[id]
  {
    if task.Fetching? && task.pending != [] {
      assert task.pending[0] in task.pending;
    }
  }

  lemma ClaimAfterCheck(cfg: Config, t: Table, task: Task, id: string)
    requires task.Queued? || task.Checking?
    ensures Claim(AfterTask(cfg, t, task), id) == Claim(task, id)
  {
    assert Validated(cfg, task.snapshot, task.probe).proxy.id == task.snapshot.id;
  }

  lemma ClaimAfterReport(cfg: Config, t: Table, task: Task, id: string)
    requires task.Reporting? && Agrees(t)
    ensures Claim(AfterTask(cfg, t, task), id)
            == if task.id == id && id in t
               then Some(Origin(t[id].payload, Use(task.report, task.now, task.cooledAt))) else None
  {
    if task.id in t {
      assert RowAgrees(task.id, t[task.id]);
    }
  }

  lemma ClaimAfterRelease(cfg: Config, t: Table, task: Task, id: string)
    requires task.Releasing?
    ensures Claim(AfterTask(cfg, t, task), id) == Claim(task, id)
  {}

  /** A step that does not write an id back keeps what the task holds of it; a report takes the row it finds. */
  lemma ClaimAfterStep(cfg: Config, t: Table, task: Task, id: string)
    requires !WritesBack(task, id) && Agrees(t)
    ensures var after := AfterTask(cfg, t, task);
            if ReportsOn(task, id) && id in t
            then Claim(after, id) == Some(Origin(t[id].payload, Use(task.report, task.now, task.cooledAt)))
            else Claim(after, id) == Claim(task, id)
  {
    match task {
      case Queued(_, _, _) => ClaimAfterCheck(cfg, t, task, id);
      case Checking(_, _, _) => ClaimAfterCheck(cfg, t, task, id);
      case Reporting(_, _, _, _) => ClaimAfterReport(cfg, t, task, id);
      case Releasing(_, _) => ClaimAfterRelease(cfg, t, task, id);
      case _ =>
    }
  }

  /** A step that writes an id back leaves the effect of what the task holds, and the task lets go of it. */
  lemma WriteBackStep(cfg: Config, t: Table, task: Task, id: string)
    requires Honest(cfg, task) && WritesBack(task, id)
    ensures Claim(task, id).Some? && Claim(AfterTask(cfg, t, task), id).None?
    ensures var o := Claim(task, id).value; var q := Effect(cfg, o.snapshot, o.cause);
            && o.snapshot.id == id && id in AfterTable(t, task)
            && AfterTable(t, task)[id] == RowOf(q.status, q)
  {}

  // ---------------------------------------------------------------- runs

  /** Columns agree, and every task is honest and spares the id. */
  ghost predicate Sound(cfg: Config, w: World, id: string) {
    WorldAgrees(w) && forall i :: 0 <= i < |w.tasks| ==> Honest(cfg, w.tasks[i]) && Spares(w.tasks[i], id)
  }

  lemma StartIsHonest(cfg: Config, t: Table, task: Task)
    requires Agrees(t) && CanStart(t, task)
    ensures Honest(cfg, task) && TaskAgrees(task)
  {
    if task.Queued? {
      assert RowAgrees(task.snapshot.id, t[task.snapshot.id]);
    } else if task.Releasing? {
      forall p | p in task.pending ensures p.status == Cooldown {
        assert RowAgrees(p.id, t[p.id]);
      }
    }
  }

  lemma StepKeepsSound(cfg: Config, w: World, e: Action, id: string)
    requires Sound(cfg, w, id) && Possible(w, e) && (e.Start? ==> Spares(e.task, id))
    ensures Sound(cfg, Next(cfg, w, e), id)
  {
    match e {
      case Start(task) => StartIsHonest(cfg, w.table, task);
      case Advance(i) =>
        StepAgrees(cfg, w.table, w.tasks[i]);
        StepStaysHonest(cfg, w.table, w.tasks[i]);
        StepStillSpares(cfg, w.table, w.tasks[i], id);
    }
  }

  /** What the action writes back to the id, if it does. */
  function WrittenBack(w: World, e: Action, id: string): Option<Origin> {
    if e.Advance? && e.i < |w.tasks| && WritesBack(w.tasks[e.i], id) then Claim(w.tasks[e.i], id) else None
  }

  /** The events on the id whose results were written back by the first `k` actions, in that order. */
  function FinishedEvents(ws: seq<World>, es: seq<Action>, id: string, k: nat): seq<Event>
    requires k <= |es| < |ws|
  {
    if k == 0 then []
    else
      var o := WrittenBack(ws[k - 1], es[k - 1], id);
      FinishedEvents(ws, es, id, k - 1) + if o.Some? then [o.value.cause] else []
  }

  /** How many of the events are attempts. */
  function AttemptsIn(es: seq<Event>): nat {
    if es == [] then 0 else AttemptsIn(es[..|es| - 1]) + if es[|es| - 1].Release? then 0 else 1
  }

  /** Which write-backs make an older snapshot stale: all of them, or those that count an attempt. */
  datatype Scope = AllWrites | AttemptWrites

  predicate Outdates(scope: Scope, cause: Event) { scope.AllWrites? || !cause.Release? }

  function OthersHolding(w: World, id: string, i: nat): set<nat> {
    set j: nat | j < |w.tasks| && j != i && Claim(w.tasks[j], id).Some?
  }

  /** The tasks between whose read and write-back of the id another task wrote the id back. */
  function Overtaken(ws: seq<World>, es: seq<Action>, id: string, scope: Scope, k: nat): set<nat>
    requires k <= |es| < |ws|
  {
    if k == 0 then {}
    else
      var o := WrittenBack(ws[k - 1], es[k - 1], id);
      Overtaken(ws, es, id, scope, k - 1)
      + if o.Some? && Outdates(scope, o.value.cause) then OthersHolding(ws[k - 1], id, es[k - 1].i) else {}
  }

  /** No task overtaken on the id writes it back among the first `k` actions. */
  predicate InOrder(ws: seq<World>, es: seq<Action>, id: string, scope: Scope, k: nat)
    requires k <= |es| < |ws|
  {
    k > 0 ==>
      && InOrder(ws, es, id, scope, k - 1)
      && (WrittenBack(ws[k - 1], es[k - 1], id).Some? ==> es[k - 1].i !in Overtaken(ws, es, id, scope, k - 1))
  }

  /** A run from a state in which no task holds anything of the id, and in which nothing unrelated replaces it. */
  ghost predicate RunOn(cfg: Config, ws: seq<World>, es: seq<Action>, id: string) {
    && IsRun(cfg, ws, es)
    && Sound(cfg, ws[0], id) && id in ws[0].table
    && (forall j :: 0 <= j < |ws[0].tasks| ==> Claim(ws[0].tasks[j], id).None?)
    && forall k :: 0 <= k < |es| && es[k].Start? ==> Spares(es[k].task, id)
  }

  lemma {:induction false} RunStaysSound(cfg: Config, ws: seq<World>, es: seq<Action>, id: string, k: nat)
    requires RunOn(cfg, ws, es, id) && k < |ws|
    ensures Sound(cfg, ws[k], id)
  {
    if k > 0 {
      RunStaysSound(cfg, ws, es, id, k - 1);
      StepKeepsSound(cfg, ws[k - 1], es[k - 1], id);
    }
  }

  // ---------------------------------------------------------------- strikes are never gained

  predicate SnapshotCounts(task: Task, id: string, n: nat, late: bool, exact: bool) {
    Claim(task, id).Some? ==>
      var c := Claim(task, id).value.snapshot.consecutiveFailCount;
      c <= n && (late ==> c < n) && (exact && !late ==> c == n)
  }

  predicate RowCounts(t: Table, id: string, n: nat, exact: bool) {
    id in t ==> t[id].payload.consecutiveFailCount <= n && (exact ==> t[id].payload.consecutiveFailCount == n)
  }

  /** With `n` attempts written back: nobody has seen more strikes than `n`, overtaken tasks have seen fewer,
      and as long as all is in order the row and everybody else have seen exactly `n`. */
  ghost predicate Counted(w: World, id: string, n: nat, late: set<nat>, exact: bool) {
    && RowCounts(w.table, id, n, exact)
    && (forall j: nat :: j < |w.tasks| ==> SnapshotCounts(w.tasks[j], id, n, j in late, exact))
    && (forall j :: j in late ==> j < |w.tasks| && !ReportsOn(w.tasks[j], id))
  }

  /** No success ahead of the id: what is under way does not succeed. */
  predicate Fails(task: Task, id: string) {
    && (Claim(task, id).Some? ==> NoSuccess(Claim(task, id).value.cause))
    && (ReportsOn(task, id) ==> !task.report.ok)
  }

  ghost predicate AllFail(w: World, id: string) { forall j :: 0 <= j < |w.tasks| ==> Fails(w.tasks[j], id) }

  lemma EffectCounts(cfg: Config, p: Proxy, e: Event)
    requires NoSuccess(e)
    ensures Effect(cfg, p, e).consecutiveFailCount == p.consecutiveFailCount + if e.Release? then 0 else 1
  {}

  lemma StepStillFails(cfg: Config, t: Table, task: Task, id: string)
    requires Agrees(t) && Honest(cfg, task) && Fails(task, id)
    ensures Fails(AfterTask(cfg, t, task), id)
  {
    if WritesBack(task, id) {
      WriteBackStep(cfg, t, task, id);
    } else {
      ClaimAfterStep(cfg, t, task, id);
    }
  }

  lemma StepKeepsFailing(cfg: Config, w: World, e: Action, id: string)
    requires Sound(cfg, w, id) && AllFail(w, id) && Possible(w, e) && (e.Start? ==> Fails(e.task, id))
    ensures AllFail(Next(cfg, w, e), id)
  {
    if e.Advance? {
      StepStillFails(cfg, w.table, w.tasks[e.i], id);
    }
  }

  /** An action that writes nothing back keeps the count. */
  lemma QuietStepCounts(cfg: Config, w: World, e: Action, id: string, n: nat, late: set<nat>, exact: bool)
    requires Sound(cfg, w, id) && Possible(w, e) && (e.Start? ==> Spares(e.task, id))
    requires Counted(w, id, n, late, exact) && WrittenBack(w, e, id).None?
    ensures Counted(Next(cfg, w, e), id, n, late, exact)
  {
    match e {
      case Start(task) => StartCounts(w.table, task, id, n, exact);
      case Advance(i) =>
        var task := w.tasks[i];
        assert SnapshotCounts(task, id, n, i in late, exact);
        RowAfterStep(w.table, task, id);
        ClaimAfterStep(cfg, w.table, task, id);
    }
  }

  lemma StartCounts(t: Table, task: Task, id: string, n: nat, exact: bool)
    requires CanStart(t, task) && RowCounts(t, id, n, exact)
    ensures SnapshotCounts(task, id, n, false, exact)
  {
    if task.Releasing? {
      FirstExpiredIsPending(task.pending, id, task.now);
    }
  }

  /** A write-back counts on from what the task has seen: exactly one further if it is not overtaken, and
      short of it if it is. */
  lemma WriteBackCounts(cfg: Config, w: World, i: nat, id: string, n: nat, late: set<nat>, exact: bool)
    requires Sound(cfg, w, id) && AllFail(w, id) && Enabled(w, i) && WritesBack(w.tasks[i], id)
    requires Counted(w, id, n, late, exact)
    ensures var cause := Claim(w.tasks[i], id).value.cause;
            var w' := Next(cfg, w, Advance(i));
            var n' := n + if cause.Release? then 0 else 1;
            && Counted(w', id, n', late + (if cause.Release? then {} else OthersHolding(w, id, i)), exact && i !in late)
            && (i in late ==> id in w'.table && w'.table[id].payload.consecutiveFailCount < n')
  {
    var task := w.tasks[i];
    WriteBackStep(cfg, w.table, task, id);
    var o := Claim(task, id).value;
    assert Fails(task, id) && SnapshotCounts(task, id, n, i in late, exact);
    EffectCounts(cfg, o.snapshot, o.cause);
  }

  /** A run in which nothing succeeds on the id: its validations do not connect and its reports are failures,
      in any number, overlapping in any way, with releases and deletes between them. */
  ghost predicate FailingRunOn(cfg: Config, ws: seq<World>, es: seq<Action>, id: string) {
    && RunOn(cfg, ws, es, id)
    && Fresh(ws[0].table[id].payload) && ws[0].table[id].pool == Raw && ProtocolCheck(ws[0].table[id].payload).ok
    && AllFail(ws[0], id)
    && forall k :: 0 <= k < |es| && es[k].Start? ==> Fails(es[k].task, id)
  }

  /** The failed attempts on the id that were written back by the first `k` actions. */
  function StrikesWritten(ws: seq<World>, es: seq<Action>, id: string, k: nat): nat
    requires k <= |es| < |ws|
  {
    AttemptsIn(FinishedEvents(ws, es, id, k))
  }

  lemma OneMoreEvent(es: seq<Event>, e: Event)
    ensures AttemptsIn(es + [e]) == AttemptsIn(es) + if e.Release? then 0 else 1
  {
    assert (es + [e])[..|es|] == es;
  }

  ghost predicate CountedAt(ws: seq<World>, es: seq<Action>, id: string, k: nat)
    requires k <= |es| < |ws|
  {
    Counted(ws[k], id, StrikesWritten(ws, es, id, k), Overtaken(ws, es, id, AttemptWrites, k),
            InOrder(ws, es, id, AttemptWrites, k))
  }

  lemma RunStep(cfg: Config, ws: seq<World>, es: seq<Action>, id: string, k: nat)
    requires FailingRunOn(cfg, ws, es, id) && 0 < k < |ws|
    ensures Sound(cfg, ws[k - 1], id) && Possible(ws[k - 1], es[k - 1]) && ws[k] == Next(cfg, ws[k - 1], es[k - 1])
    ensures es[k - 1].Start? ==> Spares(es[k - 1].task, id) && Fails(es[k - 1].task, id)
  {
    RunStaysSound(cfg, ws, es, id, k - 1);
  }

  lemma QuietStepCountedAt(cfg: Config, ws: seq<World>, es: seq<Action>, id: string, k: nat)
    requires FailingRunOn(cfg, ws, es, id) && 0 < k < |ws| && WrittenBack(ws[k - 1], es[k - 1], id).None?
    requires CountedAt(ws, es, id, k - 1)
    ensures CountedAt(ws, es, id, k)
  {
    RunStep(cfg, ws, es, id, k);
    QuietStepCounts(cfg, ws[k - 1], es[k - 1], id, StrikesWritten(ws, es, id, k - 1),
                    Overtaken(ws, es, id, AttemptWrites, k - 1), InOrder(ws, es, id, AttemptWrites, k - 1));
    assert FinishedEvents(ws, es, id, k) == FinishedEvents(ws, es, id, k - 1);
    assert Overtaken(ws, es, id, AttemptWrites, k) == Overtaken(ws, es, id, AttemptWrites, k - 1);
  }

  lemma WriteBackUnfolds(ws: seq<World>, es: seq<Action>, id: string, k: nat)
    requires 0 < k <= |es| < |ws| && WrittenBack(ws[k - 1], es[k - 1], id).Some?
    ensures var cause := WrittenBack(ws[k - 1], es[k - 1], id).value.cause; var i := es[k - 1].i;
            && StrikesWritten(ws, es, id, k) == StrikesWritten(ws, es, id, k - 1) + (if cause.Release? then 0 else 1)
            && Overtaken(ws, es, id, AttemptWrites, k)
               == Overtaken(ws, es, id, AttemptWrites, k - 1)
                  + (if cause.Release? then {} else OthersHolding(ws[k - 1], id, i))
            && (InOrder(ws, es, id, AttemptWrites, k)
                <==> InOrder(ws, es, id, AttemptWrites, k - 1) && i !in Overtaken(ws, es, id, AttemptWrites, k - 1))
  {
    OneMoreEvent(FinishedEvents(ws, es, id, k - 1), WrittenBack(ws[k - 1], es[k - 1], id).value.cause);
  }

  /** Besides keeping the count: a write-back of an overtaken task leaves fewer strikes than were written back. */
  lemma WriteBackCountedAt(cfg: Config, ws: seq<World>, es: seq<Action>, id: string, k: nat)
    requires FailingRunOn(cfg, ws, es, id) && 0 < k < |ws| && WrittenBack(ws[k - 1], es[k - 1], id).Some?
    requires CountedAt(ws, es, id, k - 1) && AllFail(ws[k - 1], id)
    ensures CountedAt(ws, es, id, k)
    ensures es[k - 1].i in Overtaken(ws, es, id, AttemptWrites, k - 1) ==>
              id in ws[k].table && ws[k].table[id].payload.consecutiveFailCount < StrikesWritten(ws, es, id, k)
  {
    RunStep(cfg, ws, es, id, k);
    WriteBackCounts(cfg, ws[k - 1], es[k - 1].i, id, StrikesWritten(ws, es, id, k - 1),
                    Overtaken(ws, es, id, AttemptWrites, k - 1), InOrder(ws, es, id, AttemptWrites, k - 1));
    WriteBackUnfolds(ws, es, id, k);
  }

  lemma {:induction false} RunStaysFailing(cfg: Config, ws: seq<World>, es: seq<Action>, id: string, k: nat)
    requires FailingRunOn(cfg, ws, es, id) && k < |ws|
    ensures AllFail(ws[k], id)
  {
    if k > 0 {
      RunStaysFailing(cfg, ws, es, id, k - 1);
      RunStep(cfg, ws, es, id, k);
      StepKeepsFailing(cfg, ws[k - 1], es[k - 1], id);
    }
  }

  lemma {:induction false} RunStaysCounted(cfg: Config, ws: seq<World>, es: seq<Action>, id: string, k: nat)
    requires FailingRunOn(cfg, ws, es, id) && k < |ws|
    ensures CountedAt(ws, es, id, k)
  {
    if k > 0 {
      RunStaysCounted(cfg, ws, es, id, k - 1);
      if WrittenBack(ws[k - 1], es[k - 1], id).Some? {
        RunStaysFailing(cfg, ws, es, id, k - 1);
        WriteBackCountedAt(cfg, ws, es, id, k);
      } else {
        QuietStepCountedAt(cfg, ws, es, id, k);
      }
    }
  }

  /** The row of the id, if there is one, shows as many failures in a row as were written back. */
  ghost predicate ShowsEveryStrike(ws: seq<World>, es: seq<Action>, id: string, k: nat)
    requires k <= |es| < |ws|
  {
    id in ws[k].table ==> ws[k].table[id].payload.consecutiveFailCount == StrikesWritten(ws, es, id, k)
  }

  /** However tasks overlap, no row ever shows more failures in a row than were written back. */
  lemma NoStrikeIsGained(cfg: Config, ws: seq<World>, es: seq<Action>, id: string, k: nat)
    requires FailingRunOn(cfg, ws, es, id) && k < |ws| && id in ws[k].table
    ensures ws[k].table[id].payload.consecutiveFailCount <= StrikesWritten(ws, es, id, k)
  {
    RunStaysCounted(cfg, ws, es, id, k);
  }

  /** Strikes survive exactly when no write-back is overtaken: if between the read and the write-back of some
      task another attempt on the record is written back, a strike is lost there, and otherwise none is. */
  lemma {:induction false} StrikesSurviveIffInOrder(cfg: Config, ws: seq<World>, es: seq<Action>, id: string, k: nat)
    requires FailingRunOn(cfg, ws, es, id) && k < |ws|
    ensures InOrder(ws, es, id, AttemptWrites, k) <==> forall m :: 0 <= m <= k ==> ShowsEveryStrike(ws, es, id, m)
  {
    RowShowsStrikes(cfg, ws, es, id, k);
    if k > 0 {
      StrikesSurviveIffInOrder(cfg, ws, es, id, k - 1);
    }
  }

  lemma RowShowsStrikes(cfg: Config, ws: seq<World>, es: seq<Action>, id: string, k: nat)
    requires FailingRunOn(cfg, ws, es, id) && k < |ws|
    ensures InOrder(ws, es, id, AttemptWrites, k) ==> ShowsEveryStrike(ws, es, id, k)
    ensures k > 0 && InOrder(ws, es, id, AttemptWrites, k - 1) && !InOrder(ws, es, id, AttemptWrites, k) ==>
              !ShowsEveryStrike(ws, es, id, k)
  {
    RunStaysCounted(cfg, ws, es, id, k);
    if k > 0 && WrittenBack(ws[k - 1], es[k - 1], id).Some? {
      RunStaysCounted(cfg, ws, es, id, k - 1);
      RunStaysFailing(cfg, ws, es, id, k - 1);
      WriteBackCountedAt(cfg, ws, es, id, k);
    }
  }

  // ---------------------------------------------------------------- five strikes in the table

  /** Where a record with nothing but failures stands: in raw or cooldown with up to four of them, in dead
      with five. */
  predicate Struck(p: Proxy) {
    && ProtocolCheck(p).ok
    && (p.consecutiveFailCount <= 4 ==> p.status in {Raw, Cooldown})
    && (p.consecutiveFailCount == 5 ==> p.status == Dead)
  }

  predicate ClaimStruck(task: Task, id: string) {
    Claim(task, id).Some? ==>
      var o := Claim(task, id).value;
      Struck(o.snapshot) && (o.cause.Release? ==> o.snapshot.status == Cooldown)
  }

  ghost predicate AllStruck(w: World, id: string) {
    && (id in w.table ==> Struck(w.table[id].payload))
    && (forall j :: 0 <= j < |w.tasks| ==> ClaimStruck(w.tasks[j], id))
  }

  lemma EffectIsStruck(cfg: Config, p: Proxy, e: Event)
    requires Struck(p) && NoSuccess(e) && (e.Release? ==> p.status == Cooldown)
    ensures Struck(Effect(cfg, p, e))
  {}

  lemma StartIsStruck(t: Table, task: Task, id: string)
    requires Agrees(t) && CanStart(t, task) && (id in t ==> Struck(t[id].payload))
    ensures ClaimStruck(task, id)
  {
    if task.Releasing? {
      FirstExpiredIsPending(task.pending, id, task.now);
      assert id in t ==> RowAgrees(id, t[id]);
    }
  }

  lemma StepKeepsStruck(cfg: Config, w: World, e: Action, id: string)
    requires Sound(cfg, w, id) && AllFail(w, id) && AllStruck(w, id) && Possible(w, e)
    requires e.Start? ==> Spares(e.task, id)
    ensures AllStruck(Next(cfg, w, e), id)
  {
    match e {
      case Start(task) => StartIsStruck(w.table, task, id);
      case Advance(i) =>
        var task := w.tasks[i];
        assert ClaimStruck(task, id) && Fails(task, id);
        if WritesBack(task, id) {
          WriteBackStep(cfg, w.table, task, id);
          EffectIsStruck(cfg, Claim(task, id).value.snapshot, Claim(task, id).value.cause);
        } else {
          RowAfterStep(w.table, task, id);
          ClaimAfterStep(cfg, w.table, task, id);
        }
    }
  }

  lemma {:induction false} RunStaysStruck(cfg: Config, ws: seq<World>, es: seq<Action>, id: string, k: nat)
    requires FailingRunOn(cfg, ws, es, id) && k < |ws|
    ensures AllStruck(ws[k], id)
  {
    if k > 0 {
      RunStaysStruck(cfg, ws, es, id, k - 1);
      RunStaysFailing(cfg, ws, es, id, k - 1);
      RunStep(cfg, ws, es, id, k);
      StepKeepsStruck(cfg, ws[k - 1], es[k - 1], id);
    } else {
      assert RowAgrees(id, ws[0].table[id]);
    }
  }

  /** Five strikes in the table: in every state of every failing run the row is raw or cooled down while fewer
      than five failed attempts were written back; with the fifth it is dead exactly when it shows all five,
      which it does if no write-back was overtaken. */
  lemma FiveStrikesInTheTable(cfg: Config, ws: seq<World>, es: seq<Action>, id: string, k: nat)
    requires FailingRunOn(cfg, ws, es, id) && k < |ws| && id in ws[k].table
    ensures var n := StrikesWritten(ws, es, id, k); var row := ws[k].table[id];
            && (n <= 4 ==> row.pool in {Raw, Cooldown})
            && (n == 5 ==> (row.pool == Dead <==> row.payload.consecutiveFailCount == 5))
            && (n == 5 && InOrder(ws, es, id, AttemptWrites, k) ==> row.pool == Dead)
  {
    RunStaysCounted(cfg, ws, es, id, k);
    RunStaysStruck(cfg, ws, es, id, k);
    RunStaysSound(cfg, ws, es, id, k);
    assert RowAgrees(id, ws[k].table[id]);
  }

  // ---------------------------------------------------------------- rows are histories

  /** Validations of the id start from raw rows, as validation jobs start them. */
  predicate FromRaw(task: Task, id: string) { task.Queued? && task.snapshot.id == id ==> task.from == Raw }

  /** A run in which the id is validated from raw, reported on with any result, released and deleted. */
  ghost predicate HistoryRun(cfg: Config, ws: seq<World>, es: seq<Action>, id: string) {
    && RunOn(cfg, ws, es, id)
    && forall k :: 0 <= k < |es| && es[k].Start? ==> FromRaw(es[k].task, id)
  }

  predicate HoldsCurrent(task: Task, id: string, h: Proxy) {
    Claim(task, id).Some? ==> Claim(task, id).value.snapshot == h && Acts(h, Claim(task, id).value.cause)
  }

  predicate RowHolds(t: Table, id: string, h: Proxy) { id in t ==> t[id] == RowOf(h.status, h) }

  /** The row is `h`, and so is what every task has read of it that has not been overtaken. */
  ghost predicate Tracked(w: World, id: string, h: Proxy, late: set<nat>) {
    && RowHolds(w.table, id, h)
    && (forall j: nat :: j < |w.tasks| && j !in late ==> HoldsCurrent(w.tasks[j], id, h))
    && (forall j :: j in late ==> j < |w.tasks|)
  }

  lemma StartHoldsCurrent(t: Table, task: Task, id: string, h: Proxy)
    requires CanStart(t, task) && RowHolds(t, id, h) && FromRaw(task, id)
    ensures HoldsCurrent(task, id, h)
  {
    if task.Releasing? {
      FirstExpiredIsPending(task.pending, id, task.now);
    }
  }

  lemma QuietStepTracks(cfg: Config, w: World, e: Action, id: string, h: Proxy, late: set<nat>)
    requires Sound(cfg, w, id) && Possible(w, e) && (e.Start? ==> Spares(e.task, id) && FromRaw(e.task, id))
    requires Tracked(w, id, h, late) && WrittenBack(w, e, id).None?
    ensures Tracked(Next(cfg, w, e), id, h, late)
  {
    match e {
      case Start(task) => StartHoldsCurrent(w.table, task, id, h);
      case Advance(i) =>
        RowAfterStep(w.table, w.tasks[i], id);
        ClaimAfterStep(cfg, w.table, w.tasks[i], id);
    }
  }

  lemma WriteBackTracks(cfg: Config, w: World, i: nat, id: string, h: Proxy, late: set<nat>)
    requires Sound(cfg, w, id) && Enabled(w, i) && WritesBack(w.tasks[i], id) && i !in late
    requires Tracked(w, id, h, late)
    ensures var cause := Claim(w.tasks[i], id).value.cause;
            && Acts(h, cause)
            && Tracked(Next(cfg, w, Advance(i)), id, Apply(cfg, h, cause), late + OthersHolding(w, id, i))
  {
    WriteBackStep(cfg, w.table, w.tasks[i], id);
    assert HoldsCurrent(w.tasks[i], id, h);
  }

  lemma {:induction false} HistorySnoc(cfg: Config, p: Proxy, es: seq<Event>, e: Event)
    requires Acts(History(cfg, p, es), e) && Attempts(cfg, p, es) == AttemptsIn(es)
    ensures History(cfg, p, es + [e]) == Apply(cfg, History(cfg, p, es), e)
    ensures Attempts(cfg, p, es + [e]) == AttemptsIn(es + [e])
  {
    assert (es + [e])[..|es|] == es;
  }

  lemma OneMoreWriteBack(ws: seq<World>, es: seq<Action>, id: string, k: nat)
    requires 0 < k <= |es| < |ws| && WrittenBack(ws[k - 1], es[k - 1], id).Some?
    ensures FinishedEvents(ws, es, id, k)
            == FinishedEvents(ws, es, id, k - 1) + [WrittenBack(ws[k - 1], es[k - 1], id).value.cause]
    ensures Overtaken(ws, es, id, AllWrites, k)
            == Overtaken(ws, es, id, AllWrites, k - 1) + OthersHolding(ws[k - 1], id, es[k - 1].i)
  {}

  ghost predicate TrackedAt(cfg: Config, ws: seq<World>, es: seq<Action>, id: string, k: nat)
    requires k <= |es| < |ws| && id in ws[0].table
  {
    var p, events := ws[0].table[id].payload, FinishedEvents(ws, es, id, k);
    && Tracked(ws[k], id, History(cfg, p, events), Overtaken(ws, es, id, AllWrites, k))
    && Attempts(cfg, p, events) == AttemptsIn(events)
  }

  lemma HistoryStep(cfg: Config, ws: seq<World>, es: seq<Action>, id: string, k: nat)
    requires HistoryRun(cfg, ws, es, id) && 0 < k < |ws|
    ensures Sound(cfg, ws[k - 1], id) && Possible(ws[k - 1], es[k - 1]) && ws[k] == Next(cfg, ws[k - 1], es[k - 1])
    ensures es[k - 1].Start? ==> Spares(es[k - 1].task, id) && FromRaw(es[k - 1].task, id)
  {
    RunStaysSound(cfg, ws, es, id, k - 1);
  }

  lemma QuietStepTrackedAt(cfg: Config, ws: seq<World>, es: seq<Action>, id: string, k: nat)
    requires HistoryRun(cfg, ws, es, id) && 0 < k < |ws| && WrittenBack(ws[k - 1], es[k - 1], id).None?
    requires TrackedAt(cfg, ws, es, id, k - 1)
    ensures TrackedAt(cfg, ws, es, id, k)
  {
    var events := FinishedEvents(ws, es, id, k - 1);
    HistoryStep(cfg, ws, es, id, k);
    QuietStepTracks(cfg, ws[k - 1], es[k - 1], id, History(cfg, ws[0].table[id].payload, events),
                    Overtaken(ws, es, id, AllWrites, k - 1));
    assert FinishedEvents(ws, es, id, k) == events;
    assert Overtaken(ws, es, id, AllWrites, k) == Overtaken(ws, es, id, AllWrites, k - 1);
  }

  lemma WriteBackTrackedAt(cfg: Config, ws: seq<World>, es: seq<Action>, id: string, k: nat)
    requires HistoryRun(cfg, ws, es, id) && 0 < k < |ws| && WrittenBack(ws[k - 1], es[k - 1], id).Some?
    requires TrackedAt(cfg, ws, es, id, k - 1) && InOrder(ws, es, id, AllWrites, k)
    ensures TrackedAt(cfg, ws, es, id, k)
  {
    HistoryStep(cfg, ws, es, id, k);
    OneMoreWriteBack(ws, es, id, k);
    WriteBackTracksEvents(cfg, ws[k - 1], es[k - 1].i, id, ws[0].table[id].payload,
                          FinishedEvents(ws, es, id, k - 1), Overtaken(ws, es, id, AllWrites, k - 1));
  }

  lemma WriteBackTracksEvents(cfg: Config, w: World, i: nat, id: string, p: Proxy, events: seq<Event>, late: set<nat>)
    requires Sound(cfg, w, id) && Enabled(w, i) && WritesBack(w.tasks[i], id) && i !in late
    requires Tracked(w, id, History(cfg, p, events), late) && Attempts(cfg, p, events) == AttemptsIn(events)
    ensures Claim(w.tasks[i], id).Some?
    ensures var events' := events + [Claim(w.tasks[i], id).value.cause];
            && Tracked(Next(cfg, w, Advance(i)), id, History(cfg, p, events'), late + OthersHolding(w, id, i))
            && Attempts(cfg, p, events') == AttemptsIn(events')
  {
    WriteBackTracks(cfg, w, i, id, History(cfg, p, events), late);
    HistorySnoc(cfg, p, events, Claim(w.tasks[i], id).value.cause);
  }

  lemma {:induction false} RunStaysTracked(cfg: Config, ws: seq<World>, es: seq<Action>, id: string, k: nat)
    requires HistoryRun(cfg, ws, es, id) && k < |ws| && InOrder(ws, es, id, AllWrites, k)
    ensures TrackedAt(cfg, ws, es, id, k)
  {
    if k > 0 {
      RunStaysTracked(cfg, ws, es, id, k - 1);
      if WrittenBack(ws[k - 1], es[k - 1], id).Some? {
        WriteBackTrackedAt(cfg, ws, es, id, k);
      } else {
        QuietStepTrackedAt(cfg, ws, es, id, k);
      }
    } else {
      assert RowAgrees(id, ws[0].table[id]);
    }
  }

  /** If no write-back is overtaken, the row of the id is, in every state, the history of the events that
      were written back, each of which acted: what is proved of histories holds of table rows. */
  lemma RowsAreHistories(cfg: Config, ws: seq<World>, es: seq<Action>, id: string, k: nat)
    requires HistoryRun(cfg, ws, es, id) && k < |ws| && InOrder(ws, es, id, AllWrites, k)
    ensures var events := FinishedEvents(ws, es, id, k); var h := History(cfg, ws[0].table[id].payload, events);
            && (id in ws[k].table ==> ws[k].table[id] == RowOf(h.status, h))
            && Attempts(cfg, ws[0].table[id].payload, events) == AttemptsIn(events)
  {
    RunStaysTracked(cfg, ws, es, id, k);
  }

  /** So a row that starts fresh has counted every attempt that was written back exactly once, has been granted
      the initial score at most once, and keeps its score between the two extremes. */
  lemma RowsKeepScoreBound(cfg: Config, ws: seq<World>, es: seq<Action>, id: string, k: nat)
    requires HistoryRun(cfg, ws, es, id) && k < |ws| && InOrder(ws, es, id, AllWrites, k)
    requires Fresh(ws[0].table[id].payload) && ws[0].table[id].pool == Raw && id in ws[k].table
    ensures var q := ws[k].table[id].payload; var events := FinishedEvents(ws, es, id, k);
            var g := Grants(cfg, ws[0].table[id].payload, events);
            && q.successCount + q.failCount == AttemptsIn(events)
            && g <= 1 && Within(q, g)
  {
    assert RowAgrees(id, ws[0].table[id]);
    RowsAreHistories(cfg, ws, es, id, k);
    ScoreBound(cfg, ws[0].table[id].payload, FinishedEvents(ws, es, id, k));
  }
}

/** A run in which five strikes do not last: the validation it starts with finishes after the fifth report. */
module LostStrikes {
  import opened Domain
  import opened Validators
  import opened Lifecycle
  import opened Histories
  import opened Tables
  import opened Interleaving
  import opened Isolation
  import opened Strikes

  lemma {:induction false} SamePrefix(ws: seq<World>, es: seq<Action>, ws': seq<World>, es': seq<Action>, id: string,
                                        k: nat)
    requires k <= |es| && |ws| == |es| + 1 && |ws'| == |es'| + 1 && ws <= ws' && es <= es'
    ensures FinishedEvents(ws', es', id, k) == FinishedEvents(ws, es, id, k)
  {
    if k > 0 {
      SamePrefix(ws, es, ws', es', id, k - 1);
    }
  }

  /** 1 when the action writes an attempt on the id back. */
  function AttemptWritten(w: World, e: Action, id: string): nat {
    var o := WrittenBack(w, e, id);
    if o.Some? && !o.value.cause.Release? then 1 else 0
  }

  lemma StrikesAfter(ws: seq<World>, es: seq<Action>, w: World, e: Action, id: string)
    requires |ws| == |es| + 1
    ensures StrikesWritten(ws + [w], es + [e], id, |es| + 1)
            == StrikesWritten(ws, es, id, |es|) + AttemptWritten(ws[|es|], e, id)
  {
    SamePrefix(ws, es, ws + [w], es + [e], id, |es|);
    var before, o := FinishedEvents(ws, es, id, |es|), WrittenBack(ws[|es|], e, id);
    if o.Some? {
      OneMoreEvent(before, o.value.cause);
    } else {
      assert before + [] == before;
    }
  }

  /** A run goes on with any action that is possible. */
  lemma Extend(cfg: Config, ws: seq<World>, es: seq<Action>, e: Action, id: string)
    requires FailingRunOn(cfg, ws, es, id) && Possible(ws[|es|], e)
    requires e.Start? ==> Spares(e.task, id) && Fails(e.task, id)
    ensures FailingRunOn(cfg, ws + [Next(cfg, ws[|es|], e)], es + [e], id)
  {}

  /** A task of one of the services that does not wait for a permit. */
  predicate Proceeds(task: Task) {
    match task
    case Checking(_, _, _) => true
    case Moving(_, _, _, _, _, _, next) => next.Finished?
    case Saving(_, _, _) => true
    case Reporting(_, _, _, _) => true
    case Finished => true
    case _ => false
  }

  /** What the task will still write back: one attempt if it holds the id or is about to read it. */
  function ToWrite(t: Table, task: Task, id: string): nat {
    if ReportsOn(task, id) then (if id in t then 1 else 0)
    else if Claim(task, id).Some? && !Claim(task, id).value.cause.Release? then 1 else 0
  }

  lemma StepWrites(cfg: Config, w: World, i: nat, id: string)
    requires Sound(cfg, w, id) && Enabled(w, i) && Proceeds(w.tasks[i])
    ensures var task := w.tasks[i]; var after := AfterTask(cfg, w.table, task);
            && Proceeds(after)
            && AttemptWritten(w, Advance(i), id) + ToWrite(AfterTable(w.table, task), after, id)
               == ToWrite(w.table, task, id)
  {
    var task := w.tasks[i];
    if WritesBack(task, id) {
      WriteBackStep(cfg, w.table, task, id);
    } else {
      ClaimAfterStep(cfg, w.table, task, id);
    }
  }

  lemma GoOn(cfg: Config, ws: seq<World>, es: seq<Action>, i: nat, id: string)
    requires FailingRunOn(cfg, ws, es, id) && Enabled(ws[|es|], i) && Proceeds(ws[|es|].tasks[i])
    ensures var w := ws[|es|]; var w' := Advanced(cfg, w, i);
            && FailingRunOn(cfg, ws + [w'], es + [Advance(i)], id)
            && Proceeds(w'.tasks[i])
            && StrikesWritten(ws + [w'], es + [Advance(i)], id, |es| + 1) + ToWrite(w'.table, w'.tasks[i], id)
               == StrikesWritten(ws, es, id, |es|) + ToWrite(w.table, w.tasks[i], id)
  {
    RunStaysSound(cfg, ws, es, id, |es|);
    StepWrites(cfg, ws[|es|], i, id);
    Extend(cfg, ws, es, Advance(i), id);
    StrikesAfter(ws, es, Advanced(cfg, ws[|es|], i), Advance(i), id);
  }

  /** From any point of a run a task can go on alone to its end. */
  lemma {:induction false} FinishAlone(cfg: Config, ws: seq<World>, es: seq<Action>, i: nat, id: string)
    returns (ws': seq<World>, es': seq<Action>)
    requires FailingRunOn(cfg, ws, es, id) && i < |ws[|es|].tasks| && Proceeds(ws[|es|].tasks[i])
    ensures FailingRunOn(cfg, ws', es', id) && ws <= ws' && es <= es'
    ensures var w, w' := ws[|es|], ws'[|es'|];
            && w'.table == RunAlone(cfg, w.table, w.tasks[i]) && w'.tasks == w.tasks[i := Finished]
            && StrikesWritten(ws', es', id, |es'|)
               == StrikesWritten(ws, es, id, |es|) + ToWrite(w.table, w.tasks[i], id)
    decreases Size(ws[|es|].tasks[i])
  {
    var w := ws[|es|];
    if w.tasks[i].Finished? {
      ws', es' := ws, es;
    } else {
      StepShrinks(cfg, w.table, w.tasks[i]);
      GoOn(cfg, ws, es, i, id);
      ws', es' := FinishAlone(cfg, ws + [Advanced(cfg, w, i)], es + [Advance(i)], i, id);
    }
  }

  /** The validation is past the semaphore with its snapshot, nothing else is under way. */
  lemma BeginValidation(cfg: Config, ws: seq<World>, es: seq<Action>, p: Proxy, probe: Probe)
    returns (ws': seq<World>, es': seq<Action>)
    requires es == [] && FailingRunOn(cfg, ws, es, p.id) && InPool(ws[0].table, Raw, p)
    requires ws[0].tasks == [] && ws[0].permits > 0
    requires !ConnectivityCheck(probe.connect).ok
    ensures FailingRunOn(cfg, ws', es', p.id) && ws <= ws'
    ensures ws'[|es'|].table == ws[0].table && ws'[|es'|].tasks == [Checking(Raw, p, probe)]
    ensures StrikesWritten(ws', es', p.id, |es'|) == 0
  {
    var start := Start(Queued(Raw, p, probe));
    var w1 := Next(cfg, ws[0], start);
    var w2 := Next(cfg, w1, Advance(0));
    Extend(cfg, ws, es, start, p.id);
    StrikesAfter(ws, es, w1, start, p.id);
    Extend(cfg, ws + [w1], es + [start], Advance(0), p.id);
    StrikesAfter(ws + [w1], es + [start], w2, Advance(0), p.id);
    ws', es' := ws + [w1] + [w2], es + [start] + [Advance(0)];
  }

  /** A further failure report, run to its end. */
  lemma ReportOnce(cfg: Config, ws: seq<World>, es: seq<Action>, id: string)
    returns (ws': seq<World>, es': seq<Action>)
    requires FailingRunOn(cfg, ws, es, id) && id in ws[|es|].table
    ensures FailingRunOn(cfg, ws', es', id) && ws <= ws' && es <= es'
    ensures var w, w' := ws[|es|], ws'[|es'|];
            && w'.tasks == w.tasks + [Finished] && id in w'.table
            && w'.table[id].payload.consecutiveFailCount == w.table[id].payload.consecutiveFailCount + 1
            && StrikesWritten(ws', es', id, |es'|) == StrikesWritten(ws, es, id, |es|) + 1
  {
    var w := ws[|es|];
    var task := Reporting(id, FAILURE, 0, 0);
    RunStaysSound(cfg, ws, es, id, |es|);
    assert RowAgrees(id, w.table[id]);
    Extend(cfg, ws, es, Start(task), id);
    StrikesAfter(ws, es, Next(cfg, w, Start(task)), Start(task), id);
    ReportAlone(cfg, w.table, id, FAILURE, 0, 0);
    ws', es' := FinishAlone(cfg, ws + [Next(cfg, w, Start(task))], es + [Start(task)], |w.tasks|, id);
  }

  /** Five failure reports while a validation is under way: five strikes, and the row is dead. */
  lemma FiveReports(cfg: Config, p: Proxy, probe: Probe) returns (ws: seq<World>, es: seq<Action>)
    requires Fresh(p) && p.status == Raw && ProtocolCheck(p).ok && !ConnectivityCheck(probe.connect).ok
    ensures FailingRunOn(cfg, ws, es, p.id) && ws[0].table == map[p.id := RowOf(Raw, p)]
    ensures p.id in ws[|es|].table && ws[|es|].table[p.id].pool == Dead && StrikesWritten(ws, es, p.id, |es|) == 5
    ensures |ws[|es|].tasks| > 0 && ws[|es|].tasks[0] == Checking(Raw, p, probe)
  {
    ws, es := [World(map[p.id := RowOf(Raw, p)], [], 1)], [];
    ws, es := BeginValidation(cfg, ws, es, p, probe);
    for k := 0 to 5
      invariant FailingRunOn(cfg, ws, es, p.id) && ws[0].table == map[p.id := RowOf(Raw, p)]
      invariant StrikesWritten(ws, es, p.id, |es|) == k
      invariant p.id in ws[|es|].table && ws[|es|].table[p.id].payload.consecutiveFailCount == k
      invariant |ws[|es|].tasks| > 0 && ws[|es|].tasks[0] == Checking(Raw, p, probe)
    {
      ws, es := ReportOnce(cfg, ws, es, p.id);
    }
    FiveStrikesInTheTable(cfg, ws, es, p.id, |es|);
  }

  /** For every fresh record and every validation that does not connect there is a run in which the fifth
      failed attempt puts the row in dead, and the sixth, a validation that has read the record before the
      first, leaves it in cooldown with a single failure. */
  lemma FiveStrikesCanBeLost(cfg: Config, p: Proxy, probe: Probe)
    returns (ws: seq<World>, es: seq<Action>, m: nat)
    requires Fresh(p) && p.status == Raw && ProtocolCheck(p).ok && !ConnectivityCheck(probe.connect).ok
    ensures FailingRunOn(cfg, ws, es, p.id) && ws[0].table == map[p.id := RowOf(Raw, p)]
    ensures m < |es| && p.id in ws[m].table && ws[m].table[p.id].pool == Dead && StrikesWritten(ws, es, p.id, m) == 5
    ensures StrikesWritten(ws, es, p.id, |es|) == 6 && !InOrder(ws, es, p.id, AttemptWrites, |es|)
    ensures p.id in ws[|es|].table && ws[|es|].table[p.id].pool == Cooldown
    ensures var q := ws[|es|].table[p.id].payload; q.consecutiveFailCount == 1 && q.failCount == 1
  {
    var before, actions := FiveReports(cfg, p, probe);
    m := |actions|;
    ValidationWritesItsOutcome(cfg, before[m].table, Raw, p, probe);
    ws, es := FinishAlone(cfg, before, actions, 0, p.id);
    SamePrefix(before, actions, ws, es, p.id, m);
    StrikesSurviveIffInOrder(cfg, ws, es, p.id, |es|);
    assert !ShowsEveryStrike(ws, es, p.id, |es|);
  }
}

/** Every row of every run of the services is the history of some fetched record, however tasks overlap. */
module RowHistories {
  import opened Domain
  import opened Lifecycle
  import opened Histories
  import opened Tables
  import opened Interleaving
  import opened Strikes

  predicate AllOf(events: seq<Event>, issued: set<Event>) { forall e :: e in events ==> e in issued }

  ghost predicate HistoryOf(cfg: Config, issued: set<Event>, p: Proxy, q: Proxy, events: seq<Event>) {
    Fresh(q) && q.status == Raw && p == History(cfg, q, events) && AllOf(events, issued)
  }

  /** The record is what some of the issued events have made of some fetched record. */
  ghost predicate IsHistory(cfg: Config, issued: set<Event>, p: Proxy) {
    exists q, events :: HistoryOf(cfg, issued, p, q, events)
  }

  lemma FetchedIsHistory(cfg: Config, issued: set<Event>, q: Proxy)
    requires Fresh(q) && q.status == Raw
    ensures IsHistory(cfg, issued, q)
  {
    assert HistoryOf(cfg, issued, q, q, []);
  }

  lemma EffectIsHistory(cfg: Config, issued: set<Event>, p: Proxy, e: Event)
    requires IsHistory(cfg, issued, p) && Acts(p, e) && e in issued
    ensures IsHistory(cfg, issued, Effect(cfg, p, e))
  {
    var q, events :| HistoryOf(cfg, issued, p, q, events);
    assert (events + [e])[..|events|] == events;
    assert HistoryOf(cfg, issued, Effect(cfg, p, e), q, events + [e]);
  }

  /** Whatever a task has read or is about to write is a history, what it will make of it is issued, and
      validations work on raw records. */
  ghost predicate CarriesHistory(cfg: Config, issued: set<Event>, task: Task) {
    match task
    case Queued(_, p, probe) => p.status == Raw && IsHistory(cfg, issued, p) && Validate(probe) in issued
    case Checking(_, p, probe) => p.status == Raw && IsHistory(cfg, issued, p) && Validate(probe) in issued
    case Moving(_, to, record, _, _, _, next) =>
      to == record.status && IsHistory(cfg, issued, record) && CarriesHistory(cfg, issued, next)
    case Saving(pool, record, _) => pool == record.status && IsHistory(cfg, issued, record)
    case Reporting(_, report, now, cooledAt) => Use(report, now, cooledAt) in issued
    case Releasing(pending, now) =>
      && Release(now) in issued
      && forall p :: p in pending ==> p.status == Cooldown && IsHistory(cfg, issued, p)
    case Fetching(pending) => forall p :: p in pending ==> Fresh(p)
    case _ => OfServices(task)
  }

  ghost predicate AllHistories(cfg: Config, issued: set<Event>, t: Table) {
    forall id :: id in t ==> RowAgrees(id, t[id]) && IsHistory(cfg, issued, t[id].payload)
  }

  ghost predicate WorldOfHistories(cfg: Config, issued: set<Event>, w: World) {
    AllHistories(cfg, issued, w.table) && forall i :: 0 <= i < |w.tasks| ==> CarriesHistory(cfg, issued, w.tasks[i])
  }

  lemma StepKeepsTable(cfg: Config, issued: set<Event>, t: Table, task: Task)
    requires AllHistories(cfg, issued, t) && CarriesHistory(cfg, issued, task)
    ensures AllHistories(cfg, issued, AfterTable(t, task))
  {
    if task.Fetching? && task.pending != [] {
      assert task.pending[0] in task.pending;
      FetchedIsHistory(cfg, issued, task.pending[0].(status := Raw));
    }
  }

  lemma ReportCarries(cfg: Config, issued: set<Event>, t: Table, task: Task)
    requires AllHistories(cfg, issued, t) && task.Reporting? && CarriesHistory(cfg, issued, task)
    ensures CarriesHistory(cfg, issued, AfterTask(cfg, t, task))
  {
    if task.id in t {
      assert RowAgrees(task.id, t[task.id]);
      EffectIsHistory(cfg, issued, t[task.id].payload, Use(task.report, task.now, task.cooledAt));
    }
  }

  lemma ReleaseCarries(cfg: Config, issued: set<Event>, t: Table, task: Task)
    requires task.Releasing? && CarriesHistory(cfg, issued, task)
    ensures CarriesHistory(cfg, issued, AfterTask(cfg, t, task))
  {
    if task.pending != [] {
      assert task.pending[0] in task.pending;
      if Expired(task.pending[0], task.now) {
        EffectIsHistory(cfg, issued, task.pending[0], Release(task.now));
      }
    }
  }

  lemma CheckCarries(cfg: Config, issued: set<Event>, t: Table, task: Task)
    requires task.Checking? && CarriesHistory(cfg, issued, task)
    ensures CarriesHistory(cfg, issued, AfterTask(cfg, t, task))
  {
    EffectIsHistory(cfg, issued, task.snapshot, Validate(task.probe));
  }

  lemma StepCarries(cfg: Config, issued: set<Event>, t: Table, task: Task)
    requires AllHistories(cfg, issued, t) && CarriesHistory(cfg, issued, task)
    ensures CarriesHistory(cfg, issued, AfterTask(cfg, t, task))
  {
    match task {
      case Checking(_, _, _) => CheckCarries(cfg, issued, t, task);
      case Reporting(_, _, _, _) => ReportCarries(cfg, issued, t, task);
      case Releasing(_, _) => ReleaseCarries(cfg, issued, t, task);
      case _ =>
    }
  }

  /** A task the services start: its event is issued, and a validation works on a raw row. */
  predicate Issues(task: Task, issued: set<Event>) {
    match task
    case Queued(from, _, probe) => from == Raw && Validate(probe) in issued
    case Reporting(_, report, now, cooledAt) => Use(report, now, cooledAt) in issued
    case Releasing(_, now) => Release(now) in issued
    case _ => OfServices(task)
  }

  lemma StartCarries(cfg: Config, issued: set<Event>, t: Table, task: Task)
    requires AllHistories(cfg, issued, t) && CanStart(t, task) && Issues(task, issued)
    ensures CarriesHistory(cfg, issued, task)
  {
    if task.Queued? {
      assert RowAgrees(task.snapshot.id, t[task.snapshot.id]);
    } else if task.Releasing? {
      forall p | p in task.pending ensures p.status == Cooldown && IsHistory(cfg, issued, p) {
        assert RowAgrees(p.id, t[p.id]);
      }
    }
  }

  lemma StepKeepsHistories(cfg: Config, issued: set<Event>, w: World, e: Action)
    requires WorldOfHistories(cfg, issued, w) && Possible(w, e)
    requires e.Start? ==> Issues(e.task, issued)
    ensures WorldOfHistories(cfg, issued, Next(cfg, w, e))
  {
    match e {
      case Start(task) => StartCarries(cfg, issued, w.table, task);
      case Advance(i) =>
        StepKeepsTable(cfg, issued, w.table, w.tasks[i]);
        StepCarries(cfg, issued, w.table, w.tasks[i]);
    }
  }

  /** A run of service tasks, whose events are the issued ones, from a state of histories, such as the empty
      one. */
  ghost predicate ServiceRun(cfg: Config, issued: set<Event>, ws: seq<World>, es: seq<Action>) {
    && IsRun(cfg, ws, es) && WorldOfHistories(cfg, issued, ws[0])
    && forall k :: 0 <= k < |es| && es[k].Start? ==> Issues(es[k].task, issued)
  }

  lemma {:induction false} RunsKeepHistories(cfg: Config, issued: set<Event>, ws: seq<World>, es: seq<Action>, k: nat)
    requires ServiceRun(cfg, issued, ws, es) && k < |ws|
    ensures WorldOfHistories(cfg, issued, ws[k])
  {
    if k > 0 {
      RunsKeepHistories(cfg, issued, ws, es, k - 1);
      StepKeepsHistories(cfg, issued, ws[k - 1], es[k - 1]);
    }
  }

  /** However fetches, validations, reports, releases and deletes overlap, and whatever is overwritten, every row
      of every state is the history of a fetched record with the same id under some events of the run's tasks:
      so it counts each of them once, has been granted the initial score at most once, and keeps its score
      bounds. */
  lemma EveryRowIsAHistory(cfg: Config, issued: set<Event>, ws: seq<World>, es: seq<Action>, k: nat, id: string)
    returns (q: Proxy, events: seq<Event>)
    requires ServiceRun(cfg, issued, ws, es) && k < |ws| && id in ws[k].table
    ensures Fresh(q) && q.status == Raw && SameIdentity(q, ws[k].table[id].payload) && q.id == id
    ensures var h := History(cfg, q, events);
            && ws[k].table[id] == RowOf(h.status, h) && AllOf(events, issued)
            && h.successCount + h.failCount == Attempts(cfg, q, events)
            && Grants(cfg, q, events) <= 1 && Within(h, Grants(cfg, q, events))
  {
    RunsKeepHistories(cfg, issued, ws, es, k);
    assert RowAgrees(id, ws[k].table[id]);
    q, events :| HistoryOf(cfg, issued, ws[k].table[id].payload, q, events);
    ScoreBound(cfg, q, events);
    HistoryKeepsIdentity(cfg, q, events);
  }

  lemma EmptyIsOfHistories(cfg: Config, issued: set<Event>, permits: nat)
    ensures WorldOfHistories(cfg, issued, World(map[], [], permits))
  {}
}
