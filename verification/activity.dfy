/** A bounded, time-pruned log, newest entry first. */
module BoundedLog {
  import opened Domain
  import opened Paging

  /** Expired entries are popped from the old end until one is young enough. */
  function PruneTail<T>(items: seq<T>, stamp: T -> int, threshold: int): seq<T> {
    if items != [] && stamp(items[|items| - 1]) < threshold then PruneTail(items[..|items| - 1], stamp, threshold)
    else items
  }

  /** `appendleft` on a deque of bounded length: the oldest entry falls off the other end. */
  function Push<T>(items: seq<T>, x: T, limit: nat): seq<T> {
    ([x] + items)[..Min(limit, |items| + 1)]
  }

  function Paginate<T>(items: seq<T>, limit: Option<int>, offset: int): seq<T> {
    if limit.None? then items[Min(Max(offset, 0), |items|)..]
    else Slice(items, Max(offset, 0), Max(limit.value, 0))
  }

  // ---------------------------------------------------------------- runs against the plain history

  datatype Op<T> = Record(item: T, at: int) | List(at: int)

  /** The log after a run of calls, each at the clock reading `at`. */
  function Logged<T>(limit: nat, retention: int, stamp: T -> int, ops: seq<Op<T>>): seq<T> {
    if ops == [] then []
    else
      var op := ops[|ops| - 1];
      var pruned := PruneTail(Logged(limit, retention, stamp, ops[..|ops| - 1]), stamp, op.at - retention);
      if op.Record? then Push(pruned, op.item, limit) else pruned
  }

  /** Everything recorded so far, newest first. */
  function Recorded<T>(ops: seq<Op<T>>): seq<T> {
    if ops == [] then []
    else if ops[|ops| - 1].Record? then [ops[|ops| - 1].item] + Recorded(ops[..|ops| - 1])
    else Recorded(ops[..|ops| - 1])
  }

  /** The newest entries of the history, at most as many as the log may hold. */
  function Newest<T>(ops: seq<Op<T>>, limit: nat): seq<T> {
    Recorded(ops)[..Min(limit, |Recorded(ops)|)]
  }

  function Live<T>(items: seq<T>, stamp: T -> int, threshold: int): seq<T> {
    if items == [] then []
    else Live(items[..|items| - 1], stamp, threshold)
         + if stamp(items[|items| - 1]) >= threshold then [items[|items| - 1]] else []
  }

  ghost predicate ClockMonotone<T>(ops: seq<Op<T>>) {
    forall i, j :: 0 <= i < j < |ops| ==> ops[i].at <= ops[j].at
  }

  /** No expired entry is younger in recording order than one that has not expired. */
  ghost predicate ExpiredFormTail<T>(items: seq<T>, stamp: T -> int, threshold: int) {
    forall i, j :: 0 <= i < j < |items| && stamp(items[i]) < threshold ==> stamp(items[j]) < threshold
  }

  /** The kept entries are a prefix of the newest ones, and whatever is missing has expired. */
  ghost predicate KeepsNewest<T>(kept: seq<T>, newest: seq<T>, stamp: T -> int, threshold: int) {
    kept <= newest && forall j :: |kept| <= j < |newest| ==> stamp(newest[j]) < threshold
  }

  lemma {:induction false} PruneKeeps<T>(kept: seq<T>, newest: seq<T>, stamp: T -> int, threshold: int)
    requires KeepsNewest(kept, newest, stamp, threshold)
    ensures var pruned := PruneTail(kept, stamp, threshold);
            && KeepsNewest(pruned, newest, stamp, threshold)
            && (pruned != [] ==> stamp(pruned[|pruned| - 1]) >= threshold)
  {
    if kept != [] && stamp(kept[|kept| - 1]) < threshold {
      assert kept[|kept| - 1] == newest[|kept| - 1];
      PruneKeeps(kept[..|kept| - 1], newest, stamp, threshold);
    }
  }

  lemma PushKeeps<T>(kept: seq<T>, history: seq<T>, x: T, limit: nat, stamp: T -> int, threshold: int)
    requires KeepsNewest(kept, history[..Min(limit, |history|)], stamp, threshold)
    ensures KeepsNewest(Push(kept, x, limit), ([x] + history)[..Min(limit, |history| + 1)], stamp, threshold)
  {
    var newest := history[..Min(limit, |history|)];
    var newest' := ([x] + history)[..Min(limit, |history| + 1)];
    forall j | |Push(kept, x, limit)| <= j < |newest'| ensures stamp(newest'[j]) < threshold {
      assert newest'[j] == newest[j - 1];
    }
  }

  lemma {:induction false} LogKeepsNewest<T>(limit: nat, retention: int, stamp: T -> int, ops: seq<Op<T>>, now: int)
    requires ClockMonotone(ops) && (forall i :: 0 <= i < |ops| ==> ops[i].at <= now)
    ensures KeepsNewest(Logged(limit, retention, stamp, ops), Newest(ops, limit), stamp, now - retention)
  {
    if ops != [] {
      var init, op := ops[..|ops| - 1], ops[|ops| - 1];
      var threshold := op.at - retention;
      LogKeepsNewest(limit, retention, stamp, init, op.at);
      var kept := Logged(limit, retention, stamp, init);
      PruneKeeps(kept, Newest(init, limit), stamp, threshold);
      if op.Record? {
        PushKeeps(PruneTail(kept, stamp, threshold), Recorded(init), op.item, limit, stamp, threshold);
      }
    }
  }

  lemma {:induction false} LiveOfPrefix<T>(items: seq<T>, n: nat, stamp: T -> int, threshold: int)
    requires n <= |items|
    requires forall j :: n <= j < |items| ==> stamp(items[j]) < threshold
    ensures Live(items, stamp, threshold) == Live(items[..n], stamp, threshold)
  {
    if n < |items| {
      assert items[..|items| - 1][..n] == items[..n];
      LiveOfPrefix(items[..|items| - 1], n, stamp, threshold);
    } else {
      assert items[..n] == items;
    }
  }

  lemma {:induction false} LiveIsAll<T>(items: seq<T>, stamp: T -> int, threshold: int)
    ensures |Live(items, stamp, threshold)| <= |items|
    ensures Live(items, stamp, threshold) == items <==> forall i :: 0 <= i < |items| ==> stamp(items[i]) >= threshold
  {
    if items != [] {
      var init := items[..|items| - 1];
      LiveIsAll(init, stamp, threshold);
      if stamp(items[|items| - 1]) >= threshold {
        assert items == init + [items[|items| - 1]];
        if Live(items, stamp, threshold) == items {
          assert Live(init, stamp, threshold) == items[..|items| - 1];
        }
      }
    }
  }

  /** The log refines the plain history: under a clock that never goes back, a listing at time `now` is
      exactly the unexpired part of the newest `limit` entries ever recorded, newest first, if and only if
      no expired entry among them was recorded after an unexpired one. */
  lemma {:induction false} ListingRefinesHistory<T>(limit: nat, retention: int, stamp: T -> int, ops: seq<Op<T>>,
                                                    now: int)
    requires ClockMonotone(ops) && (forall i :: 0 <= i < |ops| ==> ops[i].at <= now)
    ensures var listed := PruneTail(Logged(limit, retention, stamp, ops), stamp, now - retention);
            var newest := Newest(ops, limit);
            listed == Live(newest, stamp, now - retention) <==> ExpiredFormTail(newest, stamp, now - retention)
  {
    LogKeepsNewest(limit, retention, stamp, ops, now);
    PrunedIsLive(Logged(limit, retention, stamp, ops), Newest(ops, limit), stamp, now - retention);
  }

  lemma PrunedIsLive<T>(kept: seq<T>, newest: seq<T>, stamp: T -> int, threshold: int)
    requires KeepsNewest(kept, newest, stamp, threshold)
    ensures PruneTail(kept, stamp, threshold) == Live(newest, stamp, threshold)
            <==> ExpiredFormTail(newest, stamp, threshold)
  {
    PruneKeeps(kept, newest, stamp, threshold);
    ListedIsLive(PruneTail(kept, stamp, threshold), newest, stamp, threshold);
  }

  lemma ListedIsLive<T>(listed: seq<T>, newest: seq<T>, stamp: T -> int, threshold: int)
    requires KeepsNewest(listed, newest, stamp, threshold)
    requires listed != [] ==> stamp(listed[|listed| - 1]) >= threshold
    ensures listed == Live(newest, stamp, threshold) <==> ExpiredFormTail(newest, stamp, threshold)
  {
    LiveOfPrefix(newest, |listed|, stamp, threshold);
    LiveIsAll(listed, stamp, threshold);
    assert newest[..|listed|] == listed;
    TailMeansAllLive(listed, newest, stamp, threshold);
  }

  /** A pruned listing holds no expired entry exactly when the expired ones form a tail. */
  lemma TailMeansAllLive<T>(listed: seq<T>, newest: seq<T>, stamp: T -> int, threshold: int)
    requires KeepsNewest(listed, newest, stamp, threshold)
    requires listed != [] ==> stamp(listed[|listed| - 1]) >= threshold
    ensures ExpiredFormTail(newest, stamp, threshold)
            <==> forall i :: 0 <= i < |listed| ==> stamp(listed[i]) >= threshold
  {
    if ExpiredFormTail(newest, stamp, threshold) {
      forall i | 0 <= i < |listed| ensures stamp(listed[i]) >= threshold {
        assert listed[|listed| - 1] == newest[|listed| - 1] && listed[i] == newest[i];
      }
    } else {
      var i, j :| 0 <= i < j < |newest| && stamp(newest[i]) < threshold && stamp(newest[j]) >= threshold;
      assert j < |listed| && listed[i] == newest[i];
    }
  }

  /** Stamps that never decrease in recording order meet that condition at every time. */
  lemma RisingStampsSuffice<T>(limit: nat, stamp: T -> int, ops: seq<Op<T>>, threshold: int)
    requires forall i, j :: 0 <= i < j < |Recorded(ops)| ==> stamp(Recorded(ops)[i]) >= stamp(Recorded(ops)[j])
    ensures ExpiredFormTail(Newest(ops, limit), stamp, threshold)
  {}

  /** The first `n` pages of a listing, requested one after the other. */
  function ListedPages<T>(items: seq<T>, size: nat, n: nat): seq<T> {
    if n == 0 then [] else ListedPages(items, size, n - 1) + Paginate(items, Some(size), PageStart(size, n - 1))
  }

  lemma {:induction false} ListedAreSlices<T>(items: seq<T>, size: nat, n: nat)
    ensures ListedPages(items, size, n) == Pages(items, size, n)
  {
    if n > 0 {
      ListedAreSlices(items, size, n - 1);
    }
  }

  /** The entry at position `i` of a page is the one as far behind the offset in the list; an offset or a limit
      below zero counts as zero, and a page without a limit goes to the end. */
  lemma PageEntries<T>(items: seq<T>, limit: Option<int>, offset: int)
    ensures var page := Paginate(items, limit, offset); var start := if offset < 0 then 0 else offset;
            && (forall i :: 0 <= i < |page| ==> start + i < |items| && page[i] == items[start + i])
            && |page| == (var left := if start < |items| then |items| - start else 0;
                          if limit == None || limit.value > left then left
                          else if limit.value < 0 then 0 else limit.value)
  {}

  /** Pages of any size, one after the other, are the listing; so is the unlimited page. */
  lemma PagesAreListing<T>(items: seq<T>, size: nat, n: nat)
    requires n * size >= |items|
    ensures ListedPages(items, size, n) == items
    ensures Paginate(items, None, 0) == items
  {
    ListedAreSlices(items, size, n);
    PagesPartition(items, size, n);
    PageStartIsProduct(size, n);
  }
}

/** The in-memory activity record: events and validation jobs. */
module Activity {
  import opened Domain
  import opened BoundedLog

  datatype EventLevel = Info | Warning | Error

  datatype EventEntry = EventEntry(number: nat, kind: string, level: EventLevel, message: string, createdAt: int)

  datatype JobStatus = Running | Succeeded | Failed

  datatype ValidationJob = ValidationJob(
    id: string,
    startedAt: int,
    finishedAt: Option<int>,
    checkedCount: nat,
    successCount: nat,
    failCount: nat,
    timeoutCount: nat,
    status: JobStatus)

  function EventStamp(e: EventEntry): int { e.createdAt }

  function JobStamp(j: ValidationJob): int { if j.finishedAt.Some? then j.finishedAt.value else j.startedAt }

  /** The job has finished, or has started without finishing, before a time. */
  predicate EndedBefore(j: ValidationJob, time: int) {
    match j.finishedAt
    case None => j.startedAt < time
    case Some(end) => end < time
  }

  /** The events after one more is recorded at `now`. */
  function Noted(events: seq<EventEntry>, event: EventEntry, limit: nat, retention: int, now: int): seq<EventEntry> {
    Push(PruneTail(events, EventStamp, now - retention), event, limit)
  }

  class RuntimeActivity {
    const eventLimit: nat
    const jobLimit: nat
    const eventRetention: int
    const jobRetention: int
    var events: seq<EventEntry>
    var jobs: seq<ValidationJob>
    var nextNumber: nat
    var lastValidateAt: Option<int>

    constructor (eventLimit: nat, jobLimit: nat, eventRetention: int, jobRetention: int)
      ensures events == [] && jobs == [] && nextNumber == 1 && lastValidateAt.None?
      ensures this.eventLimit == eventLimit && this.jobLimit == jobLimit
      ensures this.eventRetention == eventRetention && this.jobRetention == jobRetention
    {
      this.eventLimit, this.jobLimit := eventLimit, jobLimit;
      this.eventRetention, this.jobRetention := eventRetention, jobRetention;
      events, jobs, nextNumber, lastValidateAt := [], [], 1, None;
    }

    method RecordEvent(kind: string, level: EventLevel, message: string, createdAt: Option<int>, now: int)
      returns (event: EventEntry)
      modifies this`events, this`nextNumber
      ensures event == EventEntry(old(nextNumber), kind, level, message,
                                  if createdAt.Some? then createdAt.value else now)
      ensures nextNumber == old(nextNumber) + 1
      ensures events == Noted(old(events), event, eventLimit, eventRetention, now)
      ensures events == Push(PruneTail(old(events), EventStamp, now - eventRetention), event, eventLimit)
      ensures |events| <= eventLimit && (eventLimit > 0 ==> events != [] && events[0] == event)
    {
      event := EventEntry(nextNumber, kind, level, message, if createdAt.Some? then createdAt.value else now);
      nextNumber := nextNumber + 1;
      PruneEvents(now);
      events := [event] + events;
      if |events| > eventLimit {
        events := events[..eventLimit];
      }
    }

    method ListEvents(limit: Option<int>, offset: int, now: int) returns (page: seq<EventEntry>, total: nat)
      modifies this`events
      ensures events == PruneTail(old(events), EventStamp, now - eventRetention)
      ensures page == Paginate(events, limit, offset) && total == |events|
    {
      PruneEvents(now);
      total := |events|;
      page := Paginate(events, limit, offset);
    }

    method PruneEvents(now: int)
      modifies this`events
      ensures events == PruneTail(old(events), EventStamp, now - eventRetention)
      ensures events <= old(events)
      ensures forall i :: |events| <= i < |old(events)| ==> old(events)[i].createdAt < now - eventRetention
      ensures events != [] ==> events[|events| - 1].createdAt >= now - eventRetention
    {
      var threshold := now - eventRetention;
      while events != [] && EventStamp(events[|events| - 1]) < threshold
        invariant PruneTail(events, EventStamp, threshold) == PruneTail(old(events), EventStamp, threshold)
        invariant events <= old(events)
        invariant forall i :: |events| <= i < |old(events)| ==> old(events)[i].createdAt < threshold
        decreases |events|
      {
        events := events[..|events| - 1];
      }
    }

    method RecordValidationJob(job: ValidationJob, now: int)
      modifies this`jobs, this`lastValidateAt
      ensures jobs == Push(PruneTail(old(jobs), JobStamp, now - jobRetention), job, jobLimit)
      ensures |jobs| <= jobLimit && (jobLimit > 0 ==> jobs != [] && jobs[0] == job)
      ensures lastValidateAt == Some(JobStamp(job))
      ensures lastValidateAt == if job.finishedAt == None then Some(job.startedAt) else job.finishedAt
    {
      PruneJobs(now);
      jobs := [job] + jobs;
      if |jobs| > jobLimit {
        jobs := jobs[..jobLimit];
      }
      lastValidateAt := Some(if job.finishedAt.Some? then job.finishedAt.value else job.startedAt);
    }

    method ListValidationJobs(limit: Option<int>, offset: int, now: int) returns (page: seq<ValidationJob>, total: nat)
      modifies this`jobs
      ensures jobs == PruneTail(old(jobs), JobStamp, now - jobRetention)
      ensures page == Paginate(jobs, limit, offset) && total == |jobs|
    {
      PruneJobs(now);
      total := |jobs|;
      page := Paginate(jobs, limit, offset);
    }

    method PruneJobs(now: int)
      modifies this`jobs
      ensures jobs == PruneTail(old(jobs), JobStamp, now - jobRetention)
      ensures jobs <= old(jobs)
      ensures forall i :: |jobs| <= i < |old(jobs)| ==> EndedBefore(old(jobs)[i], now - jobRetention)
      ensures jobs != [] ==> !EndedBefore(jobs[|jobs| - 1], now - jobRetention)
    {
      var threshold := now - jobRetention;
      while jobs != []
        invariant PruneTail(jobs, JobStamp, threshold) == PruneTail(old(jobs), JobStamp, threshold)
        invariant jobs <= old(jobs)
        invariant forall i :: |jobs| <= i < |old(jobs)| ==> EndedBefore(old(jobs)[i], threshold)
        decreases |jobs|
      {
        var last := jobs[|jobs| - 1];
        var marker := if last.finishedAt.Some? then last.finishedAt.value else last.startedAt;
        if marker >= threshold {
          break;
        }
        jobs := jobs[..|jobs| - 1];
      }
    }
  }
}
