/** Session affinity over whole runs of overlapping requests. Every database call of a request is one step;
    between two steps of a request anything else may happen. */
module Stickiness {
  import opened Domain
  import opened Tables
  import opened Query
  import opened KeyValue
  import opened Services

  /** Where a request stands: about to read the binding, to delete the expired binding it read, to load the
      bound record, to select from a pool, to bind its choice; or answered. */
  datatype Stage =
    | Asking
    | Dropping
    | Loading(id: string)
    | Electing(pool: Pool)
    | Binding(choice: Proxy)
    | Answered(answer: Option<Proxy>)

  datatype Request = Request(session: Option<string>, f: Filters, stage: Stage)

  datatype State = State(rows: Table, kv: Kv, requests: seq<Request>)

  /** The one-row SELECT of get_best_proxy on one pool. */
  function Elected(rows: Table, pool: Pool, f: Filters): Option<Proxy> {
    var row := ListFiltered(rows, Some(pool), f, 1, 0).0;
    if row == [] then None else Some(row[0])
  }

  /** The record a session is bound to can still be served to it. */
  predicate StillEligible(rows: Table, id: string, f: Filters) {
    id in rows && rows[id].payload.status in {Checked, Elite} && MatchesFilters(rows[id].payload, f)
  }

  function AfterStage(rows: Table, kv: Kv, r: Request, now: int): Stage {
    match r.stage
    case Asking =>
      if r.session.None? then Electing(Elite)
      else
        var key := SessionKey(r.session.value);
        if key !in kv then Electing(Elite) else if Live(kv[key], now) then Loading(kv[key].value) else Dropping
    case Dropping => Electing(Elite)
    case Loading(id) => if StillEligible(rows, id, r.f) then Answered(Some(rows[id].payload)) else Electing(Elite)
    case Electing(pool) =>
      (match Elected(rows, pool, r.f)
       case Some(p) => if r.session.Some? then Binding(p) else Answered(Some(p))
       case None => if pool == Elite then Electing(Checked) else Answered(None))
    case Binding(p) => Answered(Some(p))
    case Answered(_) => r.stage
  }

  function AfterKv(kv: Kv, r: Request, ttl: int, now: int): Kv {
    if r.session.None? then kv
    else
      match r.stage
      case Dropping => kv - {SessionKey(r.session.value)}
      case Binding(p) => Saved(kv, SessionKey(r.session.value), p.id, ttl, now)
      case _ => kv
  }

  /** What can happen: a request arrives, a request takes its next step, any service changes the table, any
      other call is made on the key/value store. */
  datatype Action =
    | Ask(session: Option<string>, f: Filters)
    | Go(i: nat)
    | Rewrite(rows: Table)
    | Touch(op: Op)

  datatype Moment = Moment(action: Action, at: int)

  function After(s: State, m: Moment, ttl: int): State {
    match m.action
    case Ask(session, f) => s.(requests := s.requests + [Request(session, f, Asking)])
    case Go(i) =>
      if i >= |s.requests| then s
      else
        var r := s.requests[i];
        State(s.rows, AfterKv(s.kv, r, ttl, m.at),
              s.requests[i := r.(stage := AfterStage(s.rows, s.kv, r, m.at))])
    case Rewrite(rows) => s.(rows := rows)
    case Touch(op) => s.(kv := Step(s.kv, Call(op, m.at)))
  }

  function States(s: State, ms: seq<Moment>, ttl: int): State {
    if ms == [] then s else After(States(s, ms[..|ms| - 1], ttl), ms[|ms| - 1], ttl)
  }

  // ---------------------------------------------------------------- an uninterrupted request

  function StepsLeft(stage: Stage): nat {
    match stage
    case Asking => 5
    case Dropping => 4
    case Loading(_) => 4
    case Electing(pool) => if pool == Elite then 3 else 2
    case Binding(_) => 1
    case Answered(_) => 0
  }

  /** The bindings and the answer once a request has run to its end at one time, without interruption. */
  function AnsweredAlone(rows: Table, kv: Kv, r: Request, ttl: int, now: int): (Kv, Option<Proxy>)
    decreases StepsLeft(r.stage)
  {
    if r.stage.Answered? then (kv, r.stage.answer)
    else AnsweredAlone(rows, AfterKv(kv, r, ttl, now), r.(stage := AfterStage(rows, kv, r, now)), ttl, now)
  }

  lemma ElectingAlone(rows: Table, kv: Kv, session: Option<string>, f: Filters, ttl: int, now: int)
    ensures AnsweredAlone(rows, kv, Request(session, f, Electing(Elite)), ttl, now)
            == (match Best(rows, f)
                case None => (kv, None)
                case Some(p) => (if session.None? then kv else Saved(kv, SessionKey(session.value), p.id, ttl, now),
                                 Some(p)))
  {
    var r := Request(session, f, Electing(Elite));
    if Elected(rows, Elite, f).Some? {
      BindingAlone(rows, kv, session, f, Elected(rows, Elite, f).value, ttl, now);
    } else if Elected(rows, Checked, f).Some? {
      BindingAlone(rows, kv, session, f, Elected(rows, Checked, f).value, ttl, now);
    } else {
      assert AnsweredAlone(rows, kv, Request(session, f, Electing(Checked)), ttl, now) == (kv, None);
    }
  }

  lemma BindingAlone(rows: Table, kv: Kv, session: Option<string>, f: Filters, p: Proxy, ttl: int, now: int)
    ensures session.Some? ==>
              AnsweredAlone(rows, kv, Request(session, f, Binding(p)), ttl, now)
              == (Saved(kv, SessionKey(session.value), p.id, ttl, now), Some(p))
    ensures AnsweredAlone(rows, kv, Request(session, f, Answered(Some(p))), ttl, now) == (kv, Some(p))
  {}

  lemma LoadingAlone(rows: Table, kv: Kv, session: string, f: Filters, id: string, ttl: int, now: int)
    ensures AnsweredAlone(rows, kv, Request(Some(session), f, Loading(id)), ttl, now)
            == if StillEligible(rows, id, f) then (kv, Some(rows[id].payload))
               else AnsweredAlone(rows, kv, Request(Some(session), f, Electing(Elite)), ttl, now)
  {}

  lemma AskingAlone(rows: Table, kv: Kv, session: string, f: Filters, ttl: int, now: int)
    ensures var key := SessionKey(session);
            AnsweredAlone(rows, kv, Request(Some(session), f, Asking), ttl, now)
            == if key in kv && Live(kv[key], now)
               then AnsweredAlone(rows, kv, Request(Some(session), f, Loading(kv[key].value)), ttl, now)
               else AnsweredAlone(rows, kv - {key}, Request(Some(session), f, Electing(Elite)), ttl, now)
  {
    var key := SessionKey(session);
    if key !in kv {
      assert kv - {key} == kv;
    } else if !Live(kv[key], now) {
      assert AnsweredAlone(rows, kv, Request(Some(session), f, Dropping), ttl, now)
             == AnsweredAlone(rows, kv - {key}, Request(Some(session), f, Electing(Elite)), ttl, now);
    }
  }

  lemma PinnedCases(rows: Table, kv: Kv, session: string, f: Filters, now: int)
    ensures var key := SessionKey(session);
            && (key in kv && Live(kv[key], now) ==>
                  && Pinned(rows, kv, session, f, now)
                     == (if StillEligible(rows, kv[key].value, f) then Some(rows[kv[key].value].payload) else None)
                  && AfterRead(kv, key, now) == kv)
            && (!(key in kv && Live(kv[key], now)) ==>
                  Pinned(rows, kv, session, f, now).None? && AfterRead(kv, key, now) == kv - {key})
  {
    var key := SessionKey(session);
    assert key !in kv ==> kv - {key} == kv;
  }

  /** An uninterrupted request does what GetProxy promises in one go. */
  lemma RequestAlone(rows: Table, kv: Kv, session: Option<string>, f: Filters, ttl: int, now: int)
    ensures AnsweredAlone(rows, kv, Request(session, f, Asking), ttl, now)
            == (ServedKv(rows, kv, session, f, ttl, now), Served(rows, kv, session, f, now))
  {
    if session.None? {
      ElectingAlone(rows, kv, session, f, ttl, now);
    } else {
      PinnedCases(rows, kv, session.value, f, now);
      AskingAlone(rows, kv, session.value, f, ttl, now);
      ElectingAlone(rows, AfterRead(kv, SessionKey(session.value), now), session, f, ttl, now);
      if SessionKey(session.value) in kv && Live(kv[SessionKey(session.value)], now) {
        LoadingAlone(rows, kv, session.value, f, kv[SessionKey(session.value)].value, ttl, now);
      }
    }
  }

  // ---------------------------------------------------------------- the binding stays

  predicate Bound(kv: Kv, session: string, id: string, expiry: int) {
    SessionKey(session) in kv && kv[SessionKey(session)] == Entry(id, Some(expiry))
  }

  /** What a session is pinned to: the id it is bound to until the expiry, and the filters it asks with. */
  datatype Pin = Pin(session: string, f: Filters, id: string, expiry: int)

  /** The binding is in place, unchanged or, if renewing is allowed, with an expiry that is no earlier. */
  predicate Held(kv: Kv, pin: Pin, renew: bool) {
    var key := SessionKey(pin.session);
    && key in kv && kv[key].value == pin.id && kv[key].expiresAt.Some?
    && if renew then pin.expiry <= kv[key].expiresAt.value else kv[key].expiresAt.value == pin.expiry
  }

  predicate Serves(p: Proxy, pin: Pin) {
    p.id == pin.id && p.status in {Checked, Elite} && MatchesFilters(p, pin.f)
  }

  /** An open request of the session keeps to the binding: it is about to read it, it has read it, or, if
      renewing is allowed, it is about to bind the same proxy again. */
  predicate KeepsTo(r: Request, pin: Pin, renew: bool) {
    r.session == Some(pin.session) && !r.stage.Answered? ==>
      && r.f == pin.f
      && (r.stage.Asking? || r.stage == Loading(pin.id)
          || (renew && r.stage.Binding? && Serves(r.stage.choice, pin)))
  }

  ghost predicate AllKeepTo(s: State, pin: Pin, renew: bool) {
    forall i :: 0 <= i < |s.requests| ==> KeepsTo(s.requests[i], pin, renew)
  }

  /** Nothing but requests of the session touches its binding, and they ask with the same filters. */
  predicate LeavesBinding(m: Moment, pin: Pin) {
    match m.action
    case Ask(other, g) => other == Some(pin.session) ==> g == pin.f
    case Go(_) => true
    case Rewrite(_) => true
    case Touch(op) => op.Read? || op.key != SessionKey(pin.session)
  }

  /** The run stays between `since` and the expiry, leaves the binding to its session, and keeps the proxy
      eligible. */
  predicate Undisturbed(s: State, ms: seq<Moment>, ttl: int, pin: Pin, since: int) {
    && Agrees(States(s, ms, ttl).rows) && StillEligible(States(s, ms, ttl).rows, pin.id, pin.f)
    && (ms != [] ==>
          && Undisturbed(s, ms[..|ms| - 1], ttl, pin, since)
          && since <= ms[|ms| - 1].at <= pin.expiry
          && LeavesBinding(ms[|ms| - 1], pin))
  }

  /** If the request is of the session and answered, then with the given proxy. */
  predicate GivesProxy(r: Request, pin: Pin) {
    r.session == Some(pin.session) && r.stage.Answered? ==>
      r.stage.answer.Some? && Serves(r.stage.answer.value, pin)
  }

  /** The binding is in place, every request of the session keeps to it, and those not in `answered` give the
      bound proxy. */
  ghost predicate Sticking(s: State, pin: Pin, renew: bool, answered: set<nat>) {
    && Held(s.kv, pin, renew) && AllKeepTo(s, pin, renew)
    && (forall i: nat :: i < |s.requests| && i !in answered ==> GivesProxy(s.requests[i], pin))
    && (forall i :: i in answered ==> i < |s.requests| && s.requests[i].stage.Answered?)
  }

  lemma RequestStepSticks(rows: Table, kv: Kv, r: Request, ttl: int, now: int, pin: Pin, renew: bool)
    requires Agrees(rows) && Held(kv, pin, renew) && StillEligible(rows, pin.id, pin.f) && now <= pin.expiry
    requires KeepsTo(r, pin, renew) && (renew ==> pin.expiry <= now + ttl)
    ensures Held(AfterKv(kv, r, ttl, now), pin, renew)
    ensures var r' := r.(stage := AfterStage(rows, kv, r, now));
            KeepsTo(r', pin, renew) && (!r.stage.Answered? ==> GivesProxy(r', pin))
  {
    assert RowAgrees(pin.id, rows[pin.id]);
    if r.session.Some? && r.session != Some(pin.session) {
      KeysApart(r.session.value, pin.session);
    }
  }

  lemma MomentSticks(s: State, m: Moment, ttl: int, pin: Pin, renew: bool, answered: set<nat>)
    requires Agrees(s.rows) && StillEligible(s.rows, pin.id, pin.f) && m.at <= pin.expiry && LeavesBinding(m, pin)
    requires Sticking(s, pin, renew, answered) && (renew ==> pin.expiry <= m.at + ttl)
    ensures Sticking(After(s, m, ttl), pin, renew, answered)
  {
    if m.action.Go? && m.action.i < |s.requests| {
      RequestStepSticks(s.rows, s.kv, s.requests[m.action.i], ttl, m.at, pin, renew);
    }
  }

  lemma {:induction false} StaysSticking(s: State, ms: seq<Moment>, ttl: int, pin: Pin, since: int, renew: bool,
                                         answered: set<nat>)
    requires Sticking(s, pin, renew, answered) && Undisturbed(s, ms, ttl, pin, since)
    requires renew ==> pin.expiry <= since + ttl
    ensures Sticking(States(s, ms, ttl), pin, renew, answered)
  {
    if ms != [] {
      StaysSticking(s, ms[..|ms| - 1], ttl, pin, since, renew, answered);
      MomentSticks(States(s, ms[..|ms| - 1], ttl), ms[|ms| - 1], ttl, pin, renew, answered);
    }
  }

  /** The session still has its binding, and every request that was open at the start, or came since, is
      answered with the bound proxy if it is answered at all. */
  ghost predicate KeepsItsProxy(s: State, end: State, pin: Pin, renew: bool) {
    && Held(end.kv, pin, renew)
    && |s.requests| <= |end.requests|
    && forall i: nat :: i < |end.requests| && (i < |s.requests| ==> !s.requests[i].stage.Answered?) ==>
         GivesProxy(end.requests[i], pin)
  }

  /** Stickiness: a bound session all of whose open requests keep to the binding keeps its proxy through any
      run in which the proxy stays eligible and the clock has not passed the expiry, however its requests and
      those of others overlap and whatever better proxies arrive. The entry itself stays; if a request is about
      to bind the same proxy again, and the clock has not gone back before the binding was made, its expiry
      may move on. */
  lemma {:induction false} SessionSticks(s: State, ms: seq<Moment>, ttl: int, pin: Pin, since: int, renew: bool)
    requires Held(s.kv, pin, renew) && AllKeepTo(s, pin, renew) && Undisturbed(s, ms, ttl, pin, since)
    requires renew ==> pin.expiry <= since + ttl
    ensures KeepsItsProxy(s, States(s, ms, ttl), pin, renew) && AllKeepTo(States(s, ms, ttl), pin, renew)
  {
    var answered := set i: nat | i < |s.requests| && s.requests[i].stage.Answered?;
    StaysSticking(s, ms, ttl, pin, since, renew, answered);
    RequestsStay(s, ms, ttl);
  }

  lemma {:induction false} RequestsStay(s: State, ms: seq<Moment>, ttl: int)
    ensures |s.requests| <= |States(s, ms, ttl).requests|
  {
    if ms != [] {
      RequestsStay(s, ms[..|ms| - 1], ttl);
    }
  }

  // ---------------------------------------------------------------- and otherwise it need not

  lemma {:induction false} StatesAppend(s: State, ms: seq<Moment>, m: Moment, ttl: int)
    ensures States(s, ms + [m], ttl) == After(States(s, ms, ttl), m, ttl)
  {
    assert (ms + [m])[..|ms|] == ms;
  }

  /** An undisturbed run goes on with an action that leaves binding and eligibility alone. */
  lemma GoOn(s: State, ms: seq<Moment>, action: Action, at: int, ttl: int, pin: Pin, since: int)
    returns (longer: seq<Moment>)
    requires Undisturbed(s, ms, ttl, pin, since) && since <= at <= pin.expiry
    requires LeavesBinding(Moment(action, at), pin)
    requires action.Rewrite? ==> Agrees(action.rows) && StillEligible(action.rows, pin.id, pin.f)
    ensures Undisturbed(s, longer, ttl, pin, since)
    ensures States(s, longer, ttl) == After(States(s, ms, ttl), Moment(action, at), ttl)
  {
    longer := ms + [Moment(action, at)];
    StatesAppend(s, ms, Moment(action, at), ttl);
    assert longer[..|ms|] == ms;
  }

  /** The table that holds one record, in the given pool. */
  function Only(p: Proxy, pool: Pool): Table { map[p.id := RowOf(pool, p.(status := pool))] }

  lemma OnlyElectsNothingElsewhere(p: Proxy, pool: Pool, other: Pool, f: Filters)
    requires pool != other
    ensures Elected(Only(p, pool), other, f).None?
  {
    OneRow(Only(p, pool), f, other);
  }

  lemma OnlyIsEligible(p: Proxy, pool: Pool, f: Filters)
    requires MatchesFilters(p, f) && pool in {Checked, Elite}
    ensures Agrees(Only(p, pool)) && StillEligible(Only(p, pool), p.id, f)
  {}

  lemma FindsNothing(s: State, i: nat, at: int, ttl: int)
    requires i < |s.requests| && s.requests[i].stage.Electing?
    requires Elected(s.rows, s.requests[i].stage.pool, s.requests[i].f).None?
    ensures var r := s.requests[i];
            After(s, Moment(Go(i), at), ttl).requests
            == s.requests[i := r.(stage := if r.stage.pool == Elite then Electing(Checked) else Answered(None))]
  {}

  /** The record of the session becomes the only one, in a pool other than the one the request selects from;
      then the request takes its step and finds nothing. */
  lemma SelectInVain(s: State, ms: seq<Moment>, i: nat, p: Proxy, pool: Pool, ttl: int, pin: Pin, since: int)
    returns (longer: seq<Moment>)
    requires Undisturbed(s, ms, ttl, pin, since) && since <= pin.expiry
    requires p.id == pin.id && MatchesFilters(p, pin.f) && pool in {Checked, Elite}
    requires var now := States(s, ms, ttl);
             i < |now.requests| && now.requests[i].stage.Electing? && now.requests[i].stage.pool != pool
    ensures Undisturbed(s, longer, ttl, pin, since)
    ensures var now := States(s, ms, ttl); var r := now.requests[i];
            States(s, longer, ttl).requests
            == now.requests[i := r.(stage := if r.stage.pool == Elite then Electing(Checked) else Answered(None))]
  {
    var r := States(s, ms, ttl).requests[i];
    OnlyIsEligible(p, pool, pin.f);
    OnlyElectsNothingElsewhere(p, pool, r.stage.pool, r.f);
    longer := GoOn(s, ms, Rewrite(Only(p, pool)), pin.expiry, ttl, pin, since);
    FindsNothing(States(s, longer, ttl), i, pin.expiry, ttl);
    longer := GoOn(s, longer, Go(i), pin.expiry, ttl, pin, since);
  }

  /** A request of the session that has found no binding can end without an answer. */
  lemma ElectingIsLost(s: State, before: seq<Moment>, i: nat, p: Proxy, ttl: int, pin: Pin, since: int)
    returns (ms: seq<Moment>)
    requires Undisturbed(s, before, ttl, pin, since) && since <= pin.expiry
    requires p.id == pin.id && MatchesFilters(p, pin.f)
    requires var now := States(s, before, ttl);
             i < |now.requests| && now.requests[i].session == Some(pin.session) && now.requests[i].stage.Electing?
    ensures Undisturbed(s, ms, ttl, pin, since)
    ensures var end := States(s, ms, ttl);
            |end.requests| == |States(s, before, ttl).requests| && !GivesProxy(end.requests[i], pin)
  {
    ms := before;
    if States(s, ms, ttl).requests[i].stage.pool == Elite {
      ms := SelectInVain(s, ms, i, p, Checked, ttl, pin, since);
    }
    ms := SelectInVain(s, ms, i, p, Elite, ttl, pin, since);
  }

  /** So can one that has read another binding: the record it loads may be gone by then. */
  lemma LoadingIsLost(s: State, i: nat, ttl: int, pin: Pin, since: int) returns (ms: seq<Moment>)
    requires since <= pin.expiry && Agrees(s.rows) && StillEligible(s.rows, pin.id, pin.f)
    requires i < |s.requests| && s.requests[i].session == Some(pin.session)
    requires s.requests[i].stage.Loading? && s.requests[i].stage.id != pin.id
    ensures Undisturbed(s, ms, ttl, pin, since)
    ensures var end := States(s, ms, ttl); |end.requests| == |s.requests| && !GivesProxy(end.requests[i], pin)
  {
    var p := s.rows[pin.id].payload;
    assert RowAgrees(pin.id, s.rows[pin.id]);
    ms := GoOn(s, [], Rewrite(Only(p, Checked)), pin.expiry, ttl, pin, since);
    ms := GoOn(s, ms, Go(i), pin.expiry, ttl, pin, since);
    ms := ElectingIsLost(s, ms, i, p, ttl, pin, since);
  }

  /** And one that is about to drop the binding or to bind another record takes the binding away. */
  lemma NextStepLoses(s: State, i: nat, ttl: int, pin: Pin, since: int) returns (ms: seq<Moment>)
    requires since <= pin.expiry && Agrees(s.rows) && StillEligible(s.rows, pin.id, pin.f)
    requires i < |s.requests| && s.requests[i].session == Some(pin.session)
    requires s.requests[i].stage.Dropping? || (s.requests[i].stage.Binding? && !Serves(s.requests[i].stage.choice, pin))
    ensures Undisturbed(s, ms, ttl, pin, since)
    ensures var end := States(s, ms, ttl);
            |end.requests| == |s.requests| && (!Held(end.kv, pin, true) || !GivesProxy(end.requests[i], pin))
  {
    ms := GoOn(s, [], Go(i), pin.expiry, ttl, pin, since);
  }

  /** The open requests of the session ask with its filters. */
  ghost predicate AsksAlike(s: State, pin: Pin) {
    forall i :: 0 <= i < |s.requests| ==>
      (s.requests[i].session == Some(pin.session) && !s.requests[i].stage.Answered? ==> s.requests[i].f == pin.f)
  }

  lemma StrayLoses(s: State, i: nat, ttl: int, pin: Pin, since: int) returns (ms: seq<Moment>)
    requires since <= pin.expiry && Agrees(s.rows) && StillEligible(s.rows, pin.id, pin.f) && AsksAlike(s, pin)
    requires i < |s.requests| && !KeepsTo(s.requests[i], pin, true)
    ensures Undisturbed(s, ms, ttl, pin, since) && !KeepsItsProxy(s, States(s, ms, ttl), pin, true)
  {
    match s.requests[i].stage {
      case Loading(_) => ms := LoadingIsLost(s, i, ttl, pin, since);
      case Electing(_) =>
        assert RowAgrees(pin.id, s.rows[pin.id]);
        ms := ElectingIsLost(s, [], i, s.rows[pin.id].payload, ttl, pin, since);
      case _ => ms := NextStepLoses(s, i, ttl, pin, since);
    }
  }

  /** The session keeps its proxy through this run, if the run is undisturbed. */
  ghost predicate SafeRun(s: State, ms: seq<Moment>, ttl: int, pin: Pin, since: int) {
    Undisturbed(s, ms, ttl, pin, since) ==> KeepsItsProxy(s, States(s, ms, ttl), pin, true)
  }

  /** A bound session keeps its proxy through every undisturbed run exactly when all its open requests keep to
      the binding: any other open request can take the binding away, or end without the proxy. */
  lemma SticksIff(s: State, ttl: int, pin: Pin, since: int)
    requires Held(s.kv, pin, true) && Agrees(s.rows) && StillEligible(s.rows, pin.id, pin.f) && AsksAlike(s, pin)
    requires since <= pin.expiry <= since + ttl
    ensures AllKeepTo(s, pin, true) <==> forall ms :: SafeRun(s, ms, ttl, pin, since)
  {
    if AllKeepTo(s, pin, true) {
      forall ms ensures SafeRun(s, ms, ttl, pin, since) {
        if Undisturbed(s, ms, ttl, pin, since) {
          SessionSticks(s, ms, ttl, pin, since, true);
        }
      }
    } else {
      var i: nat :| i < |s.requests| && !KeepsTo(s.requests[i], pin, true);
      var ms := StrayLoses(s, i, ttl, pin, since);
      assert !SafeRun(s, ms, ttl, pin, since);
    }
  }

  /** While it sticks, an open request of the session is answered by its second step. */
  lemma AnsweredInTwoSteps(rows: Table, kv: Kv, r: Request, now: int, pin: Pin, renew: bool)
    requires Held(kv, pin, renew) && StillEligible(rows, pin.id, pin.f) && now <= pin.expiry
    requires KeepsTo(r, pin, renew) && r.session == Some(pin.session)
    ensures var stage := AfterStage(rows, kv, r, now);
            if r.stage.Asking? then stage == Loading(pin.id) else stage.Answered?
  {}

  /** The first answer binds: until `now + ttl` the session is bound to the proxy it was given. */
  lemma FirstAnswerBinds(rows: Table, kv: Kv, session: string, f: Filters, ttl: int, now: int)
    requires Agrees(rows) && Pinned(rows, kv, session, f, now).None?
    requires Served(rows, kv, Some(session), f, now).Some?
    ensures var p := Served(rows, kv, Some(session), f, now).value;
            var after := ServedKv(rows, kv, Some(session), f, ttl, now);
            && Bound(after, session, p.id, now + ttl)
            && StillEligible(rows, p.id, f)
  {
    BestWithQuery(rows, f);
  }

  // ---------------------------------------------------------------- overlapping first requests

  const NO_FILTERS := Filters(None, None, None, None, None, None)

  lemma ElectsTop(rows: Table, p: Proxy)
    requires Agrees(rows) && Tops(rows, NO_FILTERS, Elite, p)
    ensures Elected(rows, Elite, NO_FILTERS) == Some(p)
  {
    OneRow(rows, NO_FILTERS, Elite);
    FirstTops(rows, NO_FILTERS, Elite);
    assert NO_FILTERS.(query := None) == NO_FILTERS;
  }

  function Of(session: string, stage: Stage): Request { Request(Some(session), NO_FILTERS, stage) }

  lemma OnlyRowIsElected(first: Proxy)
    requires first.status == Elite
    ensures Elected(map[first.id := RowOf(Elite, first)], Elite, NO_FILTERS) == Some(first)
  {
    var rows := map[first.id := RowOf(Elite, first)];
    forall o | Eligible(rows, NO_FILTERS, Elite, o) ensures o == first {}
    ElectsTop(rows, first);
  }

  lemma BetterIsElected(first: Proxy, better: Proxy)
    requires first.id != better.id && first.status == Elite && better.status == Elite && first.score < better.score
    ensures var rows := map[first.id := RowOf(Elite, first), better.id := RowOf(Elite, better)];
            && Agrees(rows) && StillEligible(rows, first.id, NO_FILTERS)
            && Elected(rows, Elite, NO_FILTERS) == Some(better)
  {
    var rows := map[first.id := RowOf(Elite, first), better.id := RowOf(Elite, better)];
    forall o | Eligible(rows, NO_FILTERS, Elite, o) ensures o == better || o == first {}
    ElectsTop(rows, better);
  }

  /** Both requests read; then the first chooses, binds and answers. */
  lemma BothRead(s: State, session: string, first: Proxy, ttl: nat) returns (ms: seq<Moment>)
    requires s == State(map[first.id := RowOf(Elite, first)], map[], []) && first.status == Elite
    ensures States(s, ms, ttl)
            == s.(kv := Saved(map[], SessionKey(session), first.id, ttl, 0),
                  requests := [Of(session, Answered(Some(first))), Of(session, Electing(Elite))])
  {
    OnlyRowIsElected(first);
    ms := [];
    ms := Then(s, ms, Ask(Some(session), NO_FILTERS), ttl);
    ms := Then(s, ms, Ask(Some(session), NO_FILTERS), ttl);
    assert States(s, ms, ttl).requests == [Of(session, Asking), Of(session, Asking)];
    ms := Then(s, ms, Go(0), ttl);
    ms := Then(s, ms, Go(1), ttl);
    assert States(s, ms, ttl).requests == [Of(session, Electing(Elite)), Of(session, Electing(Elite))];
    ms := Then(s, ms, Go(0), ttl);
    ms := Then(s, ms, Go(0), ttl);
  }

  lemma Then(s: State, ms: seq<Moment>, action: Action, ttl: int) returns (longer: seq<Moment>)
    ensures longer == ms + [Moment(action, 0)]
    ensures States(s, longer, ttl) == After(States(s, ms, ttl), Moment(action, 0), ttl)
  {
    longer := ms + [Moment(action, 0)];
    StatesAppend(s, ms, Moment(action, 0), ttl);
  }

  /** A better record arrives; then the second request chooses and binds it. */
  lemma LateBind(s: State, rows: Table, session: string, first: Proxy, better: Proxy, ttl: nat)
    returns (ms: seq<Moment>)
    requires first.id != better.id && first.status == Elite && better.status == Elite && first.score < better.score
    requires s.rows == map[first.id := RowOf(Elite, first)]
    requires rows == map[first.id := RowOf(Elite, first), better.id := RowOf(Elite, better)]
    requires s.requests == [Of(session, Answered(Some(first))), Of(session, Electing(Elite))]
    ensures Undisturbed(s, ms, ttl, Pin(session, NO_FILTERS, first.id, ttl), 0)
    ensures Bound(States(s, ms, ttl).kv, session, better.id, ttl)
    ensures States(s, ms, ttl).requests == [Of(session, Answered(Some(first))), Of(session, Answered(Some(better)))]
  {
    BetterIsElected(first, better);
    var pin := Pin(session, NO_FILTERS, first.id, ttl);
    ms := [];
    ms := GoOn(s, ms, Rewrite(rows), 0, ttl, pin, 0);
    ChooseAndBind(States(s, ms, ttl), session, better, ttl);
    ms := GoOn(s, ms, Go(1), 0, ttl, pin, 0);
    ms := GoOn(s, ms, Go(1), 0, ttl, pin, 0);
  }

  lemma ChooseAndBind(s: State, session: string, p: Proxy, ttl: nat)
    requires |s.requests| == 2 && s.requests[1] == Of(session, Electing(Elite))
    requires Elected(s.rows, Elite, NO_FILTERS) == Some(p)
    ensures var chosen := After(s, Moment(Go(1), 0), ttl); var bound := After(chosen, Moment(Go(1), 0), ttl);
            && chosen.rows == s.rows
            && bound == State(s.rows, Saved(s.kv, SessionKey(session), p.id, ttl, 0),
                              [s.requests[0], Of(session, Answered(Some(p)))])
  {}

  /** Two first requests of a session that overlap: both find no binding, one binds `first` and is answered
      with it, a better record arrives, and the other re-binds the session, although `first` is still eligible
      and the binding unexpired. So without the condition on requests past their read a session does not
      stick. */
  lemma OverlappingRequestsRebind(session: string, first: Proxy, better: Proxy, ttl: nat)
    returns (s: State, before: seq<Moment>, after: seq<Moment>)
    requires first.id != better.id && first.status == Elite && better.status == Elite && first.score < better.score
    ensures s.kv == map[] && s.requests == []
    ensures var mid := States(s, before, ttl); var end := States(mid, after, ttl);
            && Bound(mid.kv, session, first.id, ttl)
            && |mid.requests| == 2 && mid.requests[0].stage == Answered(Some(first))
            && Undisturbed(mid, after, ttl, Pin(session, NO_FILTERS, first.id, ttl), 0)
            && Bound(end.kv, session, better.id, ttl)
            && |end.requests| == 2 && end.requests[1].stage == Answered(Some(better))
  {
    var rows := map[first.id := RowOf(Elite, first)];
    s := State(rows, map[], []);
    before := BothRead(s, session, first, ttl);
    var more := map[first.id := RowOf(Elite, first), better.id := RowOf(Elite, better)];
    var mid := States(s, before, ttl);
    after := LateBind(mid, more, session, first, better, ttl);
  }
}

/** Admin login over the key/value store. */
module Auth {
  import opened Domain
  import opened KeyValue
  import opened Storage

  datatype AuthSession = AuthSession(username: string, createdAt: int, expiresAt: int)

  datatype AuthMethod = BySession | ByPassword

  datatype Admin = Admin(session: AuthSession, how: AuthMethod)

  /** JSON dumping and validation, as an oracle. */
  datatype Codec = Codec(dump: AuthSession -> string, load: string -> Option<AuthSession>)

  ghost predicate RoundTrips(codec: Codec) { forall s :: codec.load(codec.dump(s)) == Some(s) }

  /** The session a token stands for at `now`. */
  function SessionFor(codec: Codec, kv: Kv, token: Option<string>, now: int): Option<AuthSession> {
    if token.None? || token.value == "" then None
    else
      match Peek(kv, AdminKey(token.value), now)
      case None => None
      case Some(payload) => codec.load(payload)
  }

  /** The table after looking a token up: an expired entry is dropped, and so is a payload that is invalid. */
  function LookedUp(codec: Codec, kv: Kv, token: Option<string>, now: int): Kv {
    if token.None? || token.value == "" then kv
    else if Peek(kv, AdminKey(token.value), now).Some? && SessionFor(codec, kv, token, now).Some? then kv
    else kv - {AdminKey(token.value)}
  }

  class AuthService {
    const store: Store
    const codec: Codec
    const enabled: bool
    const adminUsername: string
    const adminPassword: string
    const ttl: int

    constructor (store: Store, codec: Codec, enabled: bool, adminUsername: string, adminPassword: string, ttl: int)
      ensures this.store == store && this.codec == codec && this.enabled == enabled
      ensures this.adminUsername == adminUsername && this.adminPassword == adminPassword && this.ttl == ttl
    {
      this.store, this.codec, this.enabled := store, codec, enabled;
      this.adminUsername, this.adminPassword, this.ttl := adminUsername, adminPassword, ttl;
    }

    predicate Verifies(username: string, password: string) {
      && enabled && adminUsername != "" && adminPassword != ""
      && username == adminUsername && password == adminPassword
    }

    /** `token` is the random token drawn for the login. The clock is read three times: for the creation time,
        for the expiry the session carries, and for the expiry of the stored entry. */
    method CreateSession(username: string, token: string, createdAt: int, expiryBase: int, savedAt: int)
      returns (session: AuthSession)
      modifies store`kv
      ensures session == AuthSession(username, createdAt, expiryBase + ttl)
      ensures store.kv == Saved(old(store.kv), AdminKey(token), codec.dump(session), ttl, savedAt)
      ensures createdAt <= expiryBase <= savedAt ==>
                && session.expiresAt >= session.createdAt + ttl
                && forall t :: session.createdAt <= t <= session.expiresAt ==>
                     Peek(store.kv, AdminKey(token), t) == Some(codec.dump(session))
    {
      session := AuthSession(username, createdAt, expiryBase + ttl);
      store.SaveAdminSession(token, codec.dump(session), ttl, savedAt);
    }

    /** A payload that does not validate is deleted. */
    method GetSession(token: Option<string>, now: int) returns (session: Option<AuthSession>)
      modifies store`kv
      ensures session == SessionFor(codec, old(store.kv), token, now)
      ensures store.kv == LookedUp(codec, old(store.kv), token, now)
      ensures token in {None, Some("")} ==> session.None? && store.kv == old(store.kv)
      ensures token.Some? && token.value != "" ==>
                && (session.Some? ==> store.kv == old(store.kv))
                && (session.None? ==> store.kv == old(store.kv) - {AdminKey(token.value)})
    {
      if token.None? || token.value == "" {
        return None;
      }
      var payload := store.GetAdminSession(token.value, now);
      if payload.None? {
        return None;
      }
      session := codec.load(payload.value);
      if session.None? {
        var _ := store.DeleteAdminSession(token.value);
      }
    }

    method DeleteSession(token: Option<string>)
      modifies store`kv
      ensures store.kv == if token.None? || token.value == "" then old(store.kv)
                          else old(store.kv) - {AdminKey(token.value)}
    {
      if token.Some? && token.value != "" {
        var _ := store.DeleteAdminSession(token.value);
      }
    }

    /** A valid token wins over credentials; without either, or with authentication off, nobody is let in. */
    method Authenticate(token: Option<string>, credentials: Option<(string, string)>, now: int, createdAt: int,
                        expiryBase: int) returns (admin: Option<Admin>)
      modifies store`kv
      ensures !enabled ==> admin == None && store.kv == old(store.kv)
      ensures enabled ==> store.kv == LookedUp(codec, old(store.kv), token, now)
      ensures enabled ==>
                var session := SessionFor(codec, old(store.kv), token, now);
                && (session.Some? ==> admin == Some(Admin(session.value, BySession)))
                && (session.None? ==>
                      (admin.Some? <==>
                         && adminUsername != "" && adminPassword != ""
                         && credentials == Some((adminUsername, adminPassword))))
                && (session.None? && admin.Some? ==>
                      && admin.value.how == ByPassword
                      && admin.value.session == AuthSession(adminUsername, createdAt, expiryBase + ttl))
    {
      if !enabled {
        return None;
      }
      var session := GetSession(token, now);
      if session.Some? {
        return Some(Admin(session.value, BySession));
      }
      if credentials.Some? && Verifies(credentials.value.0, credentials.value.1) {
        return Some(Admin(AuthSession(credentials.value.0, createdAt, expiryBase + ttl), ByPassword));
      }
      admin := None;
    }
  }

  /** A login token stands for its session exactly until its TTL has passed or a logout deletes it, through
      any calls on the store that do not log in under the same token, on a clock that never goes back. */
  lemma {:induction false} TokenLifetime(codec: Codec, kv: Kv, token: string, session: AuthSession, ttl: int, at: int,
                      cs: seq<Call>, now: int)
    requires RoundTrips(codec) && token != ""
    requires Ordered(at, cs) && LastAt(at, cs) <= now
    requires forall c :: c in cs && c.op.Save? ==> c.op.key != AdminKey(token)
    ensures SessionFor(codec, Run(Saved(kv, AdminKey(token), codec.dump(session), ttl, at), cs), Some(token), now)
            == if (exists c :: c in cs && c.op == Delete(AdminKey(token))) || at + ttl < now then None
               else Some(session)
  {
    EntryLifetime(kv, AdminKey(token), codec.dump(session), ttl, at, cs, now);
  }
}
