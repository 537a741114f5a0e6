/** When a delete lasts: a deleted record comes back exactly through a task that has read it before. */
module Deletion {
  import opened Domain
  import opened Lifecycle
  import opened Histories
  import opened Tables
  import opened Interleaving
  import opened Batches
  import opened Isolation
  import opened Strikes

  ghost predicate NobodyClaims(w: World, id: string) {
    forall j :: 0 <= j < |w.tasks| ==> Claim(w.tasks[j], id).None?
  }

  /** A run from `w` in which the id is not fetched anew. */
  ghost predicate SparingRun(cfg: Config, ws: seq<World>, es: seq<Action>, w: World, id: string) {
    && IsRun(cfg, ws, es) && ws[0] == w
    && forall k :: 0 <= k < |es| && es[k].Start? ==> Spares(es[k].task, id)
  }

  lemma StartClaimsNothing(t: Table, task: Task, id: string)
    requires CanStart(t, task) && id !in t
    ensures Claim(task, id).None?
  {
    if task.Releasing? {
      FirstExpiredIsPending(task.pending, id, task.now);
    }
  }

  lemma StepStaysAway(cfg: Config, w: World, e: Action, id: string)
    requires Sound(cfg, w, id) && Possible(w, e) && (e.Start? ==> Spares(e.task, id))
    requires id !in w.table && NobodyClaims(w, id)
    ensures id !in Next(cfg, w, e).table && NobodyClaims(Next(cfg, w, e), id)
  {
    match e {
      case Start(task) => StartClaimsNothing(w.table, task, id);
      case Advance(i) =>
        if WritesBack(w.tasks[i], id) {
          WriteBackStep(cfg, w.table, w.tasks[i], id);
        } else {
          RowAfterStep(w.table, w.tasks[i], id);
          ClaimAfterStep(cfg, w.table, w.tasks[i], id);
        }
    }
  }

  lemma {:induction false} StaysAbsent(cfg: Config, ws: seq<World>, es: seq<Action>, w: World, id: string, k: nat)
    requires SparingRun(cfg, ws, es, w, id) && Sound(cfg, w, id) && id !in w.table && NobodyClaims(w, id)
    requires k < |ws|
    ensures Sound(cfg, ws[k], id) && id !in ws[k].table && NobodyClaims(ws[k], id)
  {
    if k > 0 {
      StaysAbsent(cfg, ws, es, w, id, k - 1);
      StepKeepsSound(cfg, ws[k - 1], es[k - 1], id);
      StepStaysAway(cfg, ws[k - 1], es[k - 1], id);
    }
  }

  // ---------------------------------------------------------------- how it comes back

  lemma Extend(cfg: Config, ws: seq<World>, es: seq<Action>, w: World, id: string, i: nat)
    requires SparingRun(cfg, ws, es, w, id) && Sound(cfg, ws[|es|], id) && Enabled(ws[|es|], i)
    ensures SparingRun(cfg, ws + [Advanced(cfg, ws[|es|], i)], es + [Advance(i)], w, id)
    ensures Sound(cfg, Advanced(cfg, ws[|es|], i), id)
  {
    StepKeepsSound(cfg, ws[|es|], Advance(i), id);
  }

  /** A task that does not write the id back yet keeps its claim, and does not start to wait. */
  lemma ClaimGoesOn(cfg: Config, t: Table, task: Task, id: string)
    requires Agrees(t) && Honest(cfg, task) && !task.Queued? && Claim(task, id).Some? && !WritesBack(task, id)
    ensures var after := AfterTask(cfg, t, task); !after.Queued? && Claim(after, id) == Claim(task, id)
  {
    ClaimAfterStep(cfg, t, task, id);
  }

  /** A task past the semaphore that holds the id writes it back, run to that point alone. */
  lemma {:induction false} WritesBackAlone(cfg: Config, ws: seq<World>, es: seq<Action>, w: World, id: string, i: nat)
    returns (ws': seq<World>, es': seq<Action>)
    requires SparingRun(cfg, ws, es, w, id) && Sound(cfg, ws[|es|], id) && i < |ws[|es|].tasks|
    requires var task := ws[|es|].tasks[i]; !task.Queued? && Claim(task, id).Some?
    ensures SparingRun(cfg, ws', es', w, id) && id in ws'[|es'|].table
    decreases Size(ws[|es|].tasks[i])
  {
    var now := ws[|es|];
    var next := Advanced(cfg, now, i);
    Extend(cfg, ws, es, w, id, i);
    if WritesBack(now.tasks[i], id) {
      WriteBackStep(cfg, now.table, now.tasks[i], id);
      ws', es' := ws + [next], es + [Advance(i)];
    } else {
      ClaimGoesOn(cfg, now.table, now.tasks[i], id);
      StepShrinks(cfg, now.table, now.tasks[i]);
      ws', es' := WritesBackAlone(cfg, ws + [next], es + [Advance(i)], w, id, i);
    }
  }

  /** A task inside the semaphore gives its permit back, run to that point alone. */
  lemma {:induction false} GivesPermit(cfg: Config, ws: seq<World>, es: seq<Action>, w: World, id: string, h: nat)
    returns (ws': seq<World>, es': seq<Action>)
    requires SparingRun(cfg, ws, es, w, id) && Sound(cfg, ws[|es|], id)
    requires h < |ws[|es|].tasks| && Holding(ws[|es|].tasks[h])
    ensures SparingRun(cfg, ws', es', w, id) && Sound(cfg, ws'[|es'|], id) && ws'[|es'|].permits > 0
    ensures |ws'[|es'|].tasks| == |ws[|es|].tasks|
    ensures forall j :: 0 <= j < |ws[|es|].tasks| && j != h ==> ws'[|es'|].tasks[j] == ws[|es|].tasks[j]
    decreases Size(ws[|es|].tasks[h])
  {
    var now := ws[|es|];
    var next := Advanced(cfg, now, h);
    Extend(cfg, ws, es, w, id, h);
    if GivesBack(now.tasks[h]) {
      ws', es' := ws + [next], es + [Advance(h)];
    } else {
      StepShrinks(cfg, now.table, now.tasks[h]);
      ws', es' := GivesPermit(cfg, ws + [next], es + [Advance(h)], w, id, h);
    }
  }

  /** A waiting validation that holds the id gets its permit, sooner or later, and then writes it back. */
  lemma ComesBack(cfg: Config, w: World, id: string, i: nat) returns (ws: seq<World>, es: seq<Action>)
    requires Sound(cfg, w, id) && w.permits + Holders(w.tasks) >= 1
    requires i < |w.tasks| && Claim(w.tasks[i], id).Some?
    ensures SparingRun(cfg, ws, es, w, id) && id in ws[|es|].table
  {
    ws, es := [w], [];
    if w.tasks[i].Queued? {
      if w.permits == 0 {
        SomeoneHolds(w.tasks);
        var h: nat :| h < |w.tasks| && Holding(w.tasks[h]);
        ws, es := GivesPermit(cfg, ws, es, w, id, h);
      }
      Extend(cfg, ws, es, w, id, i);
      ws, es := ws + [Advanced(cfg, ws[|es|], i)], es + [Advance(i)];
    }
    ws, es := WritesBackAlone(cfg, ws, es, w, id, i);
  }

  /** The id is absent at the end of every run that does not fetch it anew. */
  ghost predicate StaysAway(cfg: Config, w: World, id: string) {
    forall ws: seq<World>, es: seq<Action> :: SparingRun(cfg, ws, es, w, id) ==> id !in ws[|es|].table
  }

  /** A deleted record stays away, whatever the services do short of fetching it, exactly when no task has read
      it and is still to write it back: no validation, report or release under way holds it. */
  lemma DeleteLastsIff(cfg: Config, w: World, id: string)
    requires Sound(cfg, w, id) && id !in w.table && w.permits + Holders(w.tasks) >= 1
    ensures StaysAway(cfg, w, id) <==> NobodyClaims(w, id)
  {
    if NobodyClaims(w, id) {
      forall ws: seq<World>, es: seq<Action> | SparingRun(cfg, ws, es, w, id) ensures id !in ws[|es|].table {
        StaysAbsent(cfg, ws, es, w, id, |es|);
      }
    } else {
      var i: nat :| i < |w.tasks| && Claim(w.tasks[i], id).Some?;
      var ws, es := ComesBack(cfg, w, id, i);
    }
  }
}
