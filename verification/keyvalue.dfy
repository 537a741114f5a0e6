/** The `kv_store` table: values with an expiry, dropped only when a read finds them expired. */
module KeyValue {
  import opened Domain

  datatype Entry = Entry(value: string, expiresAt: Option<int>)

  type Kv = map<string, Entry>

  function SessionKey(session: string): string { "session:" + session }

  function AdminKey(token: string): string { "admin_session:" + token }

  /** The two key families never meet, and each is injective. */
  lemma KeysApart(a: string, b: string)
    ensures "session:" <= SessionKey(a) && !("session:" <= AdminKey(b))
    ensures SessionKey(a) == SessionKey(b) ==> a == b
    ensures AdminKey(a) == AdminKey(b) ==> a == b
  {
    assert SessionKey(a)[0] == 's' && AdminKey(b)[0] == 'a';
    assert SessionKey(a)[|"session:"|..] == a && SessionKey(b)[|"session:"|..] == b;
    assert AdminKey(a)[|"admin_session:"|..] == a && AdminKey(b)[|"admin_session:"|..] == b;
  }

  /** An entry is valid through `expiresAt` itself. */
  predicate Live(e: Entry, now: int) { e.expiresAt.None? || now <= e.expiresAt.value }

  function Saved(kv: Kv, key: string, value: string, ttl: int, now: int): Kv {
    kv[key := Entry(value, Some(now + ttl))]
  }

  function Peek(kv: Kv, key: string, now: int): Option<string> {
    if key in kv && Live(kv[key], now) then Some(kv[key].value) else None
  }

  /** A read drops the entry it finds expired. */
  function AfterRead(kv: Kv, key: string, now: int): Kv {
    if key in kv && !Live(kv[key], now) then kv - {key} else kv
  }

  // ---------------------------------------------------------------- runs of calls

  datatype Op = Save(key: string, value: string, ttl: int) | Read(key: string) | Delete(key: string)

  datatype Call = Call(op: Op, at: int)

  datatype Reply = Done | Value(value: Option<string>) | Deleted(found: bool)

  function Step(kv: Kv, c: Call): Kv {
    match c.op
    case Save(key, value, ttl) => Saved(kv, key, value, ttl, c.at)
    case Read(key) => AfterRead(kv, key, c.at)
    case Delete(key) => kv - {key}
  }

  function Answer(kv: Kv, c: Call): Reply {
    match c.op
    case Save(_, _, _) => Done
    case Read(key) => Value(Peek(kv, key, c.at))
    case Delete(key) => Deleted(key in kv)
  }

  function Run(kv: Kv, cs: seq<Call>): Kv {
    if cs == [] then kv else Step(Run(kv, cs[..|cs| - 1]), cs[|cs| - 1])
  }

  // ---------------------------------------------------------------- the eager reference

  function Purge(kv: Kv, now: int): Kv { map key | key in kv && Live(kv[key], now) :: kv[key] }

  /** A store without lazy state: it purges on time, and a read is a plain lookup. */
  function EagerStep(kv: Kv, c: Call): Kv {
    var purged := Purge(kv, c.at);
    match c.op
    case Save(key, value, ttl) => Saved(purged, key, value, ttl, c.at)
    case Read(_) => purged
    case Delete(key) => purged - {key}
  }

  function EagerAnswer(kv: Kv, c: Call): Reply {
    var purged := Purge(kv, c.at);
    match c.op
    case Save(_, _, _) => Done
    case Read(key) => Value(if key in purged then Some(purged[key].value) else None)
    case Delete(key) => Deleted(key in purged)
  }

  function EagerRun(kv: Kv, cs: seq<Call>): Kv {
    if cs == [] then kv else EagerStep(EagerRun(kv, cs[..|cs| - 1]), cs[|cs| - 1])
  }

  ghost predicate Monotone(cs: seq<Call>) {
    forall i, j :: 0 <= i < j < |cs| ==> cs[i].at <= cs[j].at
  }

  /** Lazy and eager stores differ in expired entries only. */
  ghost predicate Alike(lazy: Kv, eager: Kv, now: int) { Purge(lazy, now) == Purge(eager, now) }

  lemma StepsAlike(lazy: Kv, eager: Kv, earlier: int, c: Call)
    requires Alike(lazy, eager, earlier) && earlier <= c.at
    ensures Alike(Step(lazy, c), EagerStep(eager, c), c.at)
    ensures !c.op.Delete? ==> Answer(lazy, c) == EagerAnswer(eager, c)
    ensures c.op.Delete? ==>
      (Answer(lazy, c) == EagerAnswer(eager, c) <==> (c.op.key in lazy ==> Live(lazy[c.op.key], c.at)))
  {
    assert forall k :: k in Purge(lazy, c.at) <==> k in Purge(Purge(lazy, earlier), c.at);
    assert forall k :: k in Purge(eager, c.at) <==> k in Purge(Purge(eager, earlier), c.at);
    assert Purge(lazy, c.at) == Purge(Purge(lazy, earlier), c.at);
    assert Purge(eager, c.at) == Purge(Purge(eager, earlier), c.at);
    assert Purge(lazy, c.at) == Purge(eager, c.at);
    assert forall k :: k in lazy && Live(lazy[k], c.at) <==> k in Purge(lazy, c.at);
  }

  lemma {:induction false} RunsAlike(kv: Kv, cs: seq<Call>)
    requires Monotone(cs) && cs != []
    ensures Alike(Run(kv, cs), EagerRun(kv, cs), cs[|cs| - 1].at)
  {
    var init := cs[..|cs| - 1];
    if init != [] {
      RunsAlike(kv, init);
      StepsAlike(Run(kv, init), EagerRun(kv, init), init[|init| - 1].at, cs[|cs| - 1]);
    } else {
      StepsAlike(kv, kv, cs[0].at, cs[0]);
    }
  }

  /** Lazy expiry refines eager expiry: after any run of calls under a clock that never goes back, the next
      read answers as if entries were purged on time. A delete's answer agrees unless it meets an entry
      that has expired without having been read. */
  lemma {:induction false} LazyRefinesEager(kv: Kv, cs: seq<Call>, c: Call)
    requires Monotone(cs + [c])
    ensures var lazy := Run(kv, cs); var eager := EagerRun(kv, cs);
            && (!c.op.Delete? ==> Answer(lazy, c) == EagerAnswer(eager, c))
            && (c.op.Delete? ==>
                 (Answer(lazy, c) == EagerAnswer(eager, c) <==> (c.op.key in lazy ==> Live(lazy[c.op.key], c.at))))
  {
    var all := cs + [c];
    assert all[|cs|] == c;
    if cs != [] {
      assert forall i :: 0 <= i < |cs| ==> all[i] == cs[i];
      assert Monotone(cs);
      assert cs[|cs| - 1].at <= c.at by { assert all[|cs| - 1].at <= all[|cs|].at; }
      RunsAlike(kv, cs);
      StepsAlike(Run(kv, cs), EagerRun(kv, cs), cs[|cs| - 1].at, c);
    } else {
      StepsAlike(kv, kv, c.at, c);
    }
  }

  /** The clock must not go back: an entry the eager store has purged is still there for a lazy read. */
  lemma BackwardClockRevives(key: string, other: string, value: string)
    requires key != other
    ensures var cs := [Call(Save(key, value, 10), 0), Call(Read(other), 20)]; var c := Call(Read(key), 5);
            && Answer(Run(map[], cs), c) == Value(Some(value))
            && EagerAnswer(EagerRun(map[], cs), c) == Value(None)
  {
    var cs := [Call(Save(key, value, 10), 0), Call(Read(other), 20)];
    var one := [cs[0]];
    assert cs[..1] == one && one[..0] == [];
    var kv := Step(map[], cs[0]);
    assert Run(map[], one) == kv && EagerRun(map[], one) == EagerStep(map[], cs[0]);
    assert Purge(map[], 0) == map[];
    assert Run(map[], cs) == kv;
    assert key !in Purge(kv, 20);
  }

  // ---------------------------------------------------------------- affinity and admin keys

  const SESSIONS := "session:"

  /** The calls on keys with (or without) a prefix, the others left out. */
  function Family(cs: seq<Call>, prefix: string, inside: bool): seq<Call> {
    if cs == [] then []
    else Family(cs[..|cs| - 1], prefix, inside)
         + if (prefix <= cs[|cs| - 1].op.key) == inside then [cs[|cs| - 1]] else []
  }

  predicate SameAt(a: Kv, b: Kv, key: string) {
    (key in a <==> key in b) && (key in a ==> a[key] == b[key])
  }

  lemma StepLocal(a: Kv, b: Kv, c: Call, key: string)
    requires SameAt(a, b, key)
    ensures SameAt(Step(a, c), Step(b, c), key)
    ensures c.op.key != key ==> SameAt(Step(a, c), b, key)
  {}

  lemma RunSnoc(kv: Kv, cs: seq<Call>, c: Call)
    ensures Run(kv, cs + [c]) == Step(Run(kv, cs), c)
  {
    assert (cs + [c])[..|cs|] == cs;
  }

  /** Key families never affect each other: leaving out every call of the other family changes no entry
      of this one, hence no answer. */
  lemma {:induction false} FamiliesAreIndependent(kv: Kv, cs: seq<Call>, prefix: string, key: string)
    ensures SameAt(Run(kv, cs), Run(kv, Family(cs, prefix, prefix <= key)), key)
  {
    if cs != [] {
      var init, c, inside := cs[..|cs| - 1], cs[|cs| - 1], prefix <= key;
      FamiliesAreIndependent(kv, init, prefix, key);
      var kept := Family(init, prefix, inside);
      StepLocal(Run(kv, init), Run(kv, kept), c, key);
      if (prefix <= c.op.key) == inside {
        assert Family(cs, prefix, inside) == kept + [c];
        RunSnoc(kv, kept, c);
      } else {
        assert Family(cs, prefix, inside) == kept + [] == kept;
        assert c.op.key != key;
      }
    }
  }

  /** So no admin call changes what an affinity read answers, and the other way round. */
  lemma AffinityAndAdminAreIndependent(kv: Kv, cs: seq<Call>, session: string, token: string, now: int)
    ensures Peek(Run(kv, cs), SessionKey(session), now)
            == Peek(Run(kv, Family(cs, SESSIONS, true)), SessionKey(session), now)
    ensures Peek(Run(kv, cs), AdminKey(token), now)
            == Peek(Run(kv, Family(cs, SESSIONS, false)), AdminKey(token), now)
  {
    KeysApart(session, token);
    KeysApart(token, token);
    FamiliesAreIndependent(kv, cs, SESSIONS, SessionKey(session));
    FamiliesAreIndependent(kv, cs, SESSIONS, AdminKey(token));
  }

  // ---------------------------------------------------------------- the life of one entry

  /** The entry is there unless it was deleted or a read at or before `clock` dropped it. */
  predicate Tracks(kv: Kv, key: string, e: Entry, deleted: bool, clock: int) {
    && (key in kv ==> kv[key] == e && !deleted)
    && (key !in kv ==> deleted || !Live(e, clock))
  }

  function LastAt(start: int, cs: seq<Call>): int { if cs == [] then start else cs[|cs| - 1].at }

  /** Calls on one clock that starts at `start` and never goes back. */
  predicate Ordered(start: int, cs: seq<Call>) {
    cs == [] || (Ordered(start, cs[..|cs| - 1]) && LastAt(start, cs[..|cs| - 1]) <= cs[|cs| - 1].at)
  }

  lemma {:induction false} RunTracks(kv: Kv, key: string, e: Entry, start: int, cs: seq<Call>)
    requires key in kv && kv[key] == e && Ordered(start, cs)
    requires forall c :: c in cs && c.op.Save? ==> c.op.key != key
    ensures Tracks(Run(kv, cs), key, e, exists c :: c in cs && c.op == Delete(key), LastAt(start, cs))
  {
    if cs != [] {
      assert cs == cs[..|cs| - 1] + [cs[|cs| - 1]];
      RunTracks(kv, key, e, start, cs[..|cs| - 1]);
    }
  }

  /** A saved entry is read back exactly until its TTL has passed or a delete removes it, whatever other
      calls come in between, as long as the clock does not go back. */
  lemma {:induction false} EntryLifetime(kv: Kv, key: string, value: string, ttl: int, at: int, cs: seq<Call>, now: int)
    requires Ordered(at, cs) && LastAt(at, cs) <= now
    requires forall c :: c in cs && c.op.Save? ==> c.op.key != key
    ensures Peek(Run(Saved(kv, key, value, ttl, at), cs), key, now)
            == if (exists c :: c in cs && c.op == Delete(key)) || at + ttl < now then None else Some(value)
  {
    RunTracks(Saved(kv, key, value, ttl, at), key, Entry(value, Some(at + ttl)), at, cs);
  }
}
