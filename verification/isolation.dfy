/** A task that nobody interrupts does what the service method does in one go. */
module Isolation {
  import opened Domain
  import opened Validators
  import opened Lifecycle
  import opened Histories
  import opened Tables
  import opened Services
  import opened Interleaving

  /** An upper bound on the steps a task has left. */
  function Size(task: Task): nat {
    match task
    case Queued(_, _, _) => 5
    case Checking(_, _, _) => 4
    case Moving(_, _, _, _, stage, _, next) =>
      (match stage case Selecting => 3 case Deleting => 2 case Adding => 1) + Size(next)
    case Saving(_, _, _) => 1
    case Reporting(_, _, _, _) => 4
    case Releasing(pending, _) => 1 + 4 * |pending|
    case DeleteSelecting(_) => 2
    case DeleteDeleting(_) => 1
    case Fetching(pending) => 1 + |pending|
    case RescoreReading(_, _) => 2
    case RescoreWriting(_, _) => 1
    case MoveReading(_, _, _) => 2
    case MoveUpdating(_, _, _) => 1
    case Finished => 0
  }

  lemma StepShrinks(cfg: Config, t: Table, task: Task)
    requires !task.Finished?
    ensures Size(AfterTask(cfg, t, task)) < Size(task)
  {}

  /** The table once a task has run to its end without interruption. */
  function RunAlone(cfg: Config, t: Table, task: Task): Table
    decreases Size(task)
  {
    if task.Finished? then t
    else
      StepShrinks(cfg, t, task);
      RunAlone(cfg, AfterTable(t, task), AfterTask(cfg, t, task))
  }

  lemma DeleteThenPut(t: Table, to: Pool, record: Proxy)
    ensures Put(t - {record.id}, to, record) == Put(t, to, record)
  {}

  lemma RunMoving(cfg: Config, t: Table, task: Task)
    requires task.Moving?
    ensures RunAlone(cfg, t, task)
            == match task.stage
               case Selecting =>
                 var found := task.record.id in t && t[task.record.id].pool == task.from;
                 RunAlone(cfg, t, task.(stage := if found then Deleting else Adding))
               case Deleting => RunAlone(cfg, t - {task.record.id}, task.(stage := Adding))
               case Adding => RunAlone(cfg, Put(t, task.to, task.record), task.next)
  {}

  /** Whatever the table holds and however far the move has come, it ends with the record in its new pool. */
  lemma {:induction false} MoveAlone(cfg: Config, t: Table, from: Pool, to: Pool, record: Proxy, origin: Origin,
                                     stage: Stage, permit: bool, next: Task)
    ensures RunAlone(cfg, t, Moving(from, to, record, origin, stage, permit, next))
            == RunAlone(cfg, Put(t, to, record), next)
    decreases if stage == Selecting then 2 else if stage == Deleting then 1 else 0
  {
    RunMoving(cfg, t, Moving(from, to, record, origin, stage, permit, next));
    match stage {
      case Adding =>
      case Deleting =>
        MoveAlone(cfg, t - {record.id}, from, to, record, origin, Adding, permit, next);
        DeleteThenPut(t, to, record);
      case Selecting =>
        var found := record.id in t && t[record.id].pool == from;
        MoveAlone(cfg, t, from, to, record, origin, if found then Deleting else Adding, permit, next);
    }
  }

  /** A validation under way ends by writing its own outcome, whatever happened to the row since its snapshot
      was taken: a report in between is lost, and a deleted record comes back. */
  lemma ValidationWritesItsOutcome(cfg: Config, t: Table, from: Pool, p: Proxy, probe: Probe)
    ensures var out := Validated(cfg, p, probe);
            && RunAlone(cfg, t, Checking(from, p, probe)) == Put(t, out.target, out.proxy)
            && p.id in RunAlone(cfg, t, Checking(from, p, probe))
  {
    var out := Validated(cfg, p, probe);
    MoveAlone(cfg, t, from, out.target, out.proxy, Origin(p, Validate(probe)), Selecting, true, Finished);
  }

  /** A failing validation under way adds a strike to the row exactly when its snapshot holds as many strikes
      as the row does by now; otherwise the strikes in between are overwritten. */
  lemma StrikeCountsIffCurrent(cfg: Config, t: Table, from: Pool, p: Proxy, probe: Probe)
    requires !ConnectivityCheck(probe.connect).ok && p.id in t
    ensures var u := RunAlone(cfg, t, Checking(from, p, probe));
            && p.id in u && u[p.id].payload.consecutiveFailCount == p.consecutiveFailCount + 1
            && (u[p.id].payload.consecutiveFailCount == t[p.id].payload.consecutiveFailCount + 1
                <==> p.consecutiveFailCount == t[p.id].payload.consecutiveFailCount)
  {
    ValidationWritesItsOutcome(cfg, t, from, p, probe);
  }

  /** An uninterrupted report leaves the table that ReportResult promises. */
  lemma ReportAlone(cfg: Config, t: Table, id: string, r: Report, now: int, cooledAt: int)
    ensures RunAlone(cfg, t, Reporting(id, r, now, cooledAt))
            == if id !in t then t
               else var stored := Reported(cfg, t[id].pool, t[id].payload, r, now, cooledAt);
                    Put(t, stored.status, stored)
  {
    if id in t {
      var pool := t[id].pool;
      var stored := Reported(cfg, pool, t[id].payload, r, now, cooledAt);
      var origin := Origin(t[id].payload, Use(r, now, cooledAt));
      if stored.status != pool {
        MoveAlone(cfg, t, pool, stored.status, stored, origin, Selecting, false, Finished);
      } else {
        assert RunAlone(cfg, t, Saving(pool, stored, origin)) == Put(t, pool, stored);
      }
    }
  }

  lemma DeleteAlone(cfg: Config, t: Table, id: string)
    ensures RunAlone(cfg, t, DeleteSelecting(id)) == t - {id}
  {
    if id in t {
      assert RunAlone(cfg, t, DeleteDeleting(id)) == t - {id};
    } else {
      assert t - {id} == t;
    }
  }

  /** An uninterrupted score update or pool move leaves the table that the store method promises. */
  lemma RescoreAlone(cfg: Config, t: Table, id: string, delta: int)
    requires Agrees(t)
    ensures RunAlone(cfg, t, RescoreReading(id, delta))
            == if id !in t then t
               else Put(t, t[id].payload.status, t[id].payload.(score := t[id].payload.score + delta))
  {
    if id in t {
      assert RowAgrees(id, t[id]);
      var record := t[id].payload.(score := t[id].payload.score + delta);
      assert RunAlone(cfg, t, RescoreWriting(t[id].pool, record)) == t[id := RowOf(t[id].pool, record)];
      assert record.(status := t[id].pool) == record;
    }
  }

  lemma UpdatingAlone(cfg: Config, t: Table, to: Pool, id: string, record: Proxy)
    requires id in t
    ensures RunAlone(cfg, t, MoveUpdating(to, id, record)) == t[id := RowOf(to, record)]
  {}

  lemma MoveReadingAlone(cfg: Config, t: Table, from: Pool, to: Pool, id: string)
    ensures RunAlone(cfg, t, MoveReading(from, to, id))
            == if id in t && t[id].pool == from
               then RunAlone(cfg, t, MoveUpdating(to, id, t[id].payload.(status := to)))
               else t
  {}

  lemma MoveProxyAlone(cfg: Config, t: Table, from: Pool, to: Pool, id: string)
    requires Agrees(t)
    ensures RunAlone(cfg, t, MoveReading(from, to, id))
            == if id in t && t[id].pool == from then Put(t, to, t[id].payload) else t
  {
    MoveReadingAlone(cfg, t, from, to, id);
    if id in t && t[id].pool == from {
      assert RowAgrees(id, t[id]);
      UpdatingAlone(cfg, t, to, id, t[id].payload.(status := to));
    }
  }

  lemma {:induction false} WriteAllCons(t: Table, w: Write, ws: seq<Write>)
    ensures WriteAll(t, [w] + ws) == WriteAll(Put(t, w.pool, w.proxy), ws)
  {
    if ws == [] {
      assert [w] + ws == [w] && [w][..0] == [];
    } else {
      WriteAllCons(t, w, ws[..|ws| - 1]);
      assert ([w] + ws)[..|ws|] == [w] + ws[..|ws| - 1];
    }
  }

  lemma {:induction false} ReleaseWritesCons(p: Proxy, rest: seq<Proxy>, now: int)
    ensures ReleaseWrites([p] + rest, now)
            == (if Expired(p, now) then [Write(Raw, Released(p))] else []) + ReleaseWrites(rest, now)
  {
    if rest == [] {
      assert [p] + rest == [p] && [p][..0] == [];
    } else {
      ReleaseWritesCons(p, rest[..|rest| - 1], now);
      assert ([p] + rest)[..|rest|] == [p] + rest[..|rest| - 1];
    }
  }

  /** An uninterrupted release leaves the table that ReleaseExpired promises. */
  lemma {:induction false} ReleaseAlone(cfg: Config, t: Table, pending: seq<Proxy>, now: int)
    ensures RunAlone(cfg, t, Releasing(pending, now)) == WriteAll(t, ReleaseWrites(pending, now))
    decreases |pending|
  {
    if pending != [] {
      var p, rest := pending[0], pending[1..];
      assert pending == [p] + rest;
      ReleaseWritesCons(p, rest, now);
      if Expired(p, now) {
        var w := Write(Raw, Released(p));
        MoveAlone(cfg, t, Cooldown, Raw, Released(p), Origin(p, Release(now)), Selecting, false, Releasing(rest, now));
        ReleaseAlone(cfg, Put(t, Raw, Released(p)), rest, now);
        WriteAllCons(t, w, ReleaseWrites(rest, now));
      } else {
        ReleaseAlone(cfg, t, rest, now);
        assert [] + ReleaseWrites(rest, now) == ReleaseWrites(rest, now);
      }
    }
  }

  /** An uninterrupted fetch leaves the table that FetchToRawPool promises. */
  lemma {:induction false} FetchAlone(cfg: Config, t: Table, pending: seq<Proxy>)
    ensures RunAlone(cfg, t, Fetching(pending)) == WriteAll(t, RawWrites(pending))
    decreases |pending|
  {
    if pending != [] {
      var rest := pending[1..];
      FetchAlone(cfg, Put(t, Raw, pending[0]), rest);
      assert RawWrites(pending) == [Write(Raw, pending[0])] + RawWrites(rest);
      WriteAllCons(t, Write(Raw, pending[0]), RawWrites(rest));
    }
  }
}
