/**
 The pull request handlers among other operations. What the others will ask for while a handler runs
 is a script, given before the call; which part of it runs where is left open. The handler answers
 for every environment that the script leaves alone.
 */
module EphemeralInterleaving {
  import opened Text
  import opened EphemeralModel

  datatype Request =
    | Creates(spec: EnvSpec, workload: string, nameNanos: nat, idNanos: nat, now: int)
    | TearsDown(id: string, reason: string, now: int)
    | Sweeps(now: int)

  /** No request of the script is about this environment. */
  predicate LeftAlone(script: seq<Request>, id: string, e: Env) {
    forall r <- script :: (r.TearsDown? ==> r.id != id) && (r.Sweeps? ==> r.now <= e.expiresAt)
  }

  function NewIds(script: seq<Request>): set<string> {
    set r <- script | r.Creates? :: EnvironmentID(r.idNanos)
  }

  function Names(calls: seq<Call>): set<string> { set c <- calls :: c.name }

  /** What runs on the backend changed only under the names of the calls. */
  ghost predicate OnlyCalled(live: set<string>, live': set<string>, calls: seq<Call>) {
    forall name :: (name in live') != (name in live) ==> name in Names(calls)
  }

  lemma {:induction false} OnlyCalledMeaning(live: set<string>, live': set<string>, calls: seq<Call>, name: string)
    requires OnlyCalled(live, live', calls) && forall c <- calls :: c.name != name
    ensures name in live' <==> name in live
  {
  }

  lemma {:induction false} OnlyCalledMore(a: set<string>, b: set<string>, c: set<string>, calls: seq<Call>,
                                          more: seq<Call>)
    requires OnlyCalled(a, b, calls) && OnlyCalled(b, c, more)
    ensures OnlyCalled(a, c, calls + more)
  {
    forall name | (name in c) != (name in a) ensures name in Names(calls + more) {
      assert name in Names(calls) || name in Names(more);
      assert forall x <- calls :: x in calls + more;
      assert forall x <- more :: x in calls + more;
    }
  }

  /** A call the script accounts for. */
  ghost predicate Foreign(c: Call, m: Envs, script: seq<Request>) {
    match c
    case Deployed(name, _, _) => exists r <- script :: r.Creates? && r.workload == name
    case Destroyed(name, _) => exists id <- m :: m[id].name == name && !LeftAlone(script, id, m[id])
  }

  /** What any part of the script may have done. */
  ghost predicate Interfered(m: Envs, m': Envs, calls: seq<Call>, script: seq<Request>) {
    && Grows(m, m')
    && m'.Keys <= m.Keys + NewIds(script)
    && (forall id <- m | LeftAlone(script, id, m[id]) :: m'[id] == m[id])
    && (forall c <- calls :: Foreign(c, m', script))
  }

  lemma {:induction false} ForeignLater(c: Call, m: Envs, m': Envs, script: seq<Request>)
    requires Foreign(c, m, script) && Grows(m, m')
    ensures Foreign(c, m', script)
  {
    if c.Destroyed? {
      var id :| id in m && m[id].name == c.name && !LeftAlone(script, id, m[id]);
      assert id in m' && m'[id].name == c.name && m'[id].expiresAt == m[id].expiresAt;
      assert !LeftAlone(script, id, m'[id]);
    }
  }

  lemma {:induction false} SameLeftAlone(script: seq<Request>, id: string, e: Env, e': Env)
    requires e'.expiresAt == e.expiresAt
    ensures LeftAlone(script, id, e') <==> LeftAlone(script, id, e)
  {
  }

  lemma {:induction false} InterferedMore(m0: Envs, m1: Envs, m2: Envs, calls: seq<Call>, more: seq<Call>,
                                          script: seq<Request>)
    requires Interfered(m0, m1, calls, script) && Interfered(m1, m2, more, script)
    ensures Interfered(m0, m2, calls + more, script)
  {
    GrowsTransitive(m0, m1, m2);
    forall id <- m0 | LeftAlone(script, id, m0[id]) ensures m2[id] == m0[id] {
      assert id in m1 && m1[id] == m0[id];
    }
    forall c <- calls + more ensures Foreign(c, m2, script) {
      if c in calls {
        ForeignLater(c, m1, m2, script);
      }
    }
  }

  /** The operations as requests of the script. */
  lemma {:induction false} CreationInterferes(r: Request, script: seq<Request>, m: Envs, m': Envs, env: Env,
                                              calls: seq<Call>)
    requires r in script && r.Creates? && EnvironmentID(r.idNanos) !in m
    requires m' == m[EnvironmentID(r.idNanos) := env]
    requires forall c <- calls :: c.Deployed? && c.name == r.workload
    ensures Interfered(m, m', calls, script)
  {
  }

  lemma {:induction false} TeardownInterferes(r: Request, script: seq<Request>, m: Envs, m': Envs, destroyed: bool,
                                              calls: seq<Call>)
    requires r in script && r.TearsDown? && AllSettled(m)
    requires Step(Teardown(r.id, destroyed, r.reason, r.now), m, m')
    requires forall c <- calls :: c.Destroyed? && r.id in m && c.name == m[r.id].name
    ensures Interfered(m, m', calls, script)
  {
    StepGrows(Teardown(r.id, destroyed, r.reason, r.now), m, m');
    forall c <- calls ensures Foreign(c, m', script) {
      assert m'[r.id].name == c.name && !LeftAlone(script, r.id, m'[r.id]);
    }
  }

  lemma {:induction false} SweepInterferes(r: Request, script: seq<Request>, m: Envs, m': Envs, failed: set<string>,
                                           calls: seq<Call>)
    requires r in script && r.Sweeps? && AllSettled(m)
    requires Step(Sweep(r.now, failed), m, m')
    requires forall c <- calls :: DestroysExpired(c, m, r.now, failed, {})
    ensures Interfered(m, m', calls, script)
  {
    StepGrows(Sweep(r.now, failed), m, m');
    forall c <- calls ensures Foreign(c, m', script) {
      var id :| id in m && Expires(m[id], r.now) && c == Destroyed(m[id].name, id !in failed);
      assert m'[id].name == c.name && !LeftAlone(script, id, m'[id]);
    }
  }

  // ---------------------------------------------------------------------------------------
  // The cleanup, part of the way

  /** The destroy of an expired environment that has been looked at. */
  ghost predicate DestroysExpired(c: Call, before: Envs, now: int, failed: set<string>, todo: set<string>) {
    exists id <- before :: id !in todo && Expires(before[id], now) && c == Destroyed(before[id].name, id !in failed)
  }

  function ExpiredIds(m: Envs, now: int): set<string> { set id <- m | Expires(m[id], now) }

  ghost predicate AllSent(before: Envs, now: int, failed: set<string>, todo: set<string>, sent: seq<Call>) {
    forall id <- before | id !in todo && Expires(before[id], now) :: Destroyed(before[id].name, id !in failed) in sent
  }

  ghost predicate OnlyExpired(before: Envs, now: int, failed: set<string>, todo: set<string>, sent: seq<Call>) {
    forall c <- sent :: DestroysExpired(c, before, now, failed, todo)
  }

  /** The calls are one for each expired environment looked at, and no others. */
  ghost predicate SweepCalls(before: Envs, now: int, failed: set<string>, todo: set<string>, sent: seq<Call>) {
    && AllSent(before, now, failed, todo, sent)
    && OnlyExpired(before, now, failed, todo, sent)
    && |sent| == |ExpiredIds(before, now) - todo|
  }

  /** What is left to look at is as it was, the rest is swept. */
  ghost predicate SweptSoFar(before: Envs, m: Envs, now: int, failed: set<string>, todo: set<string>) {
    && m.Keys == before.Keys && failed !! todo
    && forall id <- m :: m[id] == if id in todo then before[id] else SweptOne(before[id], now, id in failed)
  }

  lemma {:induction false} SweepStart(before: Envs, now: int)
    ensures SweptSoFar(before, before, now, {}, before.Keys) && SweepCalls(before, now, {}, before.Keys, [])
  {
    assert ExpiredIds(before, now) - before.Keys == {};
  }

  lemma {:induction false} SweepDone(before: Envs, m: Envs, now: int, failed: set<string>)
    requires SweptSoFar(before, m, now, failed, {})
    ensures Step(Sweep(now, failed), before, m)
  {
    assert m == Swept(before, now, failed);
  }

  /** On the fields, and which destroys were sent. */
  lemma {:induction false} SweepMeaning(before: Envs, m: Envs, now: int, failed: set<string>, sent: seq<Call>)
    requires Step(Sweep(now, failed), before, m) && SweepCalls(before, now, failed, {}, sent)
    ensures m.Keys == before.Keys
    ensures forall id <- before :: var e := before[id];
      m[id] == if e.phase == Ready && now > e.expiresAt
               then Env(e.name, e.namespace, e.prNumber, e.expiresAt, Terminated,
                        if id in failed then "cleanup failed" else "TTL expired", Some(now))
               else e
    ensures forall id <- before | before[id].phase == Ready && now > before[id].expiresAt ::
      Destroyed(before[id].name, id !in failed) in sent
    ensures |sent| == |set id <- before | before[id].phase == Ready && now > before[id].expiresAt|
  {
    var expired := set id <- before | before[id].phase == Ready && now > before[id].expiresAt;
    assert expired == ExpiredIds(before, now) - {};
  }

  lemma {:induction false} SweepMore(before: Envs, m: Envs, now: int, failed: set<string>, todo: set<string>,
                                     id: string, ok: bool)
    requires SweptSoFar(before, m, now, failed, todo)
    requires id in todo && id in m && Expires(m[id], now)
    ensures SweptSoFar(before, m[id := Ended(m[id], if ok then "TTL expired" else "cleanup failed", now)], now,
                       if ok then failed else failed + {id}, todo - {id})
  {
  }

  lemma {:induction false} SweepCallsMore(before: Envs, now: int, failed: set<string>, todo: set<string>,
                                          sent: seq<Call>, id: string, ok: bool)
    requires SweepCalls(before, now, failed, todo, sent) && failed !! todo
    requires id in todo && id in before && Expires(before[id], now)
    ensures SweepCalls(before, now, if ok then failed else failed + {id}, todo - {id},
                       sent + [Destroyed(before[id].name, ok)])
  {
    AllSentMore(before, now, failed, todo, sent, id, ok);
    OnlyExpiredMore(before, now, failed, todo, sent, id, ok);
    OneMoreOutside(ExpiredIds(before, now), todo, id);
  }

  lemma {:induction false} AllSentMore(before: Envs, now: int, failed: set<string>, todo: set<string>, sent: seq<Call>,
                                       id: string, ok: bool)
    requires AllSent(before, now, failed, todo, sent) && failed !! todo
    requires id in todo && id in before
    ensures AllSent(before, now, if ok then failed else failed + {id}, todo - {id},
                    sent + [Destroyed(before[id].name, ok)])
  {
    var failed', sent' := if ok then failed else failed + {id}, sent + [Destroyed(before[id].name, ok)];
    forall i <- before | i !in todo - {id} && Expires(before[i], now)
      ensures Destroyed(before[i].name, i !in failed') in sent'
    {
      if i != id {
        assert Destroyed(before[i].name, i !in failed) in sent;
      }
    }
  }

  lemma {:induction false} OnlyExpiredMore(before: Envs, now: int, failed: set<string>, todo: set<string>,
                                           sent: seq<Call>, id: string, ok: bool)
    requires OnlyExpired(before, now, failed, todo, sent) && failed !! todo
    requires id in todo && id in before && Expires(before[id], now)
    ensures OnlyExpired(before, now, if ok then failed else failed + {id}, todo - {id},
                        sent + [Destroyed(before[id].name, ok)])
  {
    var failed', todo' := if ok then failed else failed + {id}, todo - {id};
    assert DestroysExpired(Destroyed(before[id].name, id !in failed'), before, now, failed', todo');
    forall c <- sent ensures DestroysExpired(c, before, now, failed', todo') {
      StillExpired(c, before, now, failed, failed', todo, todo');
    }
  }

  lemma {:induction false} OneMoreOutside<T>(s: set<T>, todo: set<T>, x: T)
    requires x in s && x in todo
    ensures |s - (todo - {x})| == |s - todo| + 1
  {
    assert s - (todo - {x}) == (s - todo) + {x};
  }

  lemma {:induction false} StillExpired(c: Call, before: Envs, now: int, failed: set<string>, failed': set<string>,
                                        todo: set<string>, todo': set<string>)
    requires DestroysExpired(c, before, now, failed, todo)
    requires todo' <= todo && failed <= failed' && failed' - failed <= todo
    ensures DestroysExpired(c, before, now, failed', todo')
  {
    var i :| i in before && i !in todo && Expires(before[i], now) && c == Destroyed(before[i].name, i !in failed);
    assert i in failed' <==> i in failed;
  }

  lemma {:induction false} SweepSkip(before: Envs, m: Envs, now: int, failed: set<string>, todo: set<string>,
                                     sent: seq<Call>, id: string)
    requires SweptSoFar(before, m, now, failed, todo) && SweepCalls(before, now, failed, todo, sent)
    requires id in todo && id in m && !Expires(m[id], now)
    ensures SweptSoFar(before, m, now, failed, todo - {id}) && SweepCalls(before, now, failed, todo - {id}, sent)
  {
    assert ExpiredIds(before, now) - (todo - {id}) == ExpiredIds(before, now) - todo;
    forall c <- sent ensures DestroysExpired(c, before, now, failed, todo - {id}) {
      StillExpired(c, before, now, failed, failed, todo, todo - {id});
    }
  }

  // ---------------------------------------------------------------------------------------
  // What a handler does

  /** Ended for this reason, at some time, and otherwise as it was. */
  predicate EndedFor(e: Env, e': Env, reason: string) {
    e'.terminatedAt.Some? && e' == Ended(e, reason, e'.terminatedAt.value)
  }

  /** An environment a pull request handler is after. */
  predicate IsTarget(e: Env, prNumber: int) { e.prNumber == prNumber && e.phase.Ready? }

  /** Who made each of a handler's calls: the handler, for one environment, or the script. */
  type Owners = seq<Option<string>>

  /**
   Every call is the script's or the handler's destroy of a target, no target is destroyed twice, and
   only the script adds environments.
   */
  ghost predicate Accounted(before: Envs, m: Envs, calls: seq<Call>, owners: Owners, script: seq<Request>,
                            prNumber: int)
  {
    if calls == [] || owners == [] then calls == [] && owners == [] else
    var n, k := |calls| - 1, |owners| - 1;
    && Accounted(before, m, calls[..n], owners[..k], script, prNumber)
    && match owners[k]
       case None => Foreign(calls[n], m, script)
       case Some(id) => OwnCall(before, m, calls[n], id, prNumber) && Some(id) !in owners[..k]
  }

  ghost predicate OwnCall(before: Envs, m: Envs, c: Call, id: string, prNumber: int) {
    && id in m && m[id].prNumber == prNumber && Going(m, id)
    && (id in before ==> IsTarget(before[id], prNumber))
    && c.Destroyed? && c.name == m[id].name
  }

  /** Whether the handler's destroy of an environment succeeded, if there was one. */
  function Outcome(calls: seq<Call>, owners: Owners, id: string): Option<bool>
    requires |calls| == |owners|
  {
    if calls == [] then None else
    var n := |calls| - 1;
    if owners[n] == Some(id) then Some(calls[n].ok) else Outcome(calls[..n], owners[..n], id)
  }

  /** How many of the handler's own calls failed. */
  function Failures(calls: seq<Call>, owners: Owners): nat
    requires |calls| == |owners|
  {
    if calls == [] then 0 else
    var n := |calls| - 1;
    Failures(calls[..n], owners[..n]) + if owners[n].Some? && !calls[n].ok then 1 else 0
  }

  /**
   The environments that the script leaves alone: one that the handler destroyed has ended for its
   reason, or is Terminating if that destroy failed; every other is as it was.
   */
  ghost predicate Exactly(before: Envs, m: Envs, calls: seq<Call>, owners: Owners, script: seq<Request>, reason: string)
    requires |calls| == |owners|
  {
    forall id <- before | LeftAlone(script, id, before[id]) ::
      id in m && Fate(before[id], m[id], Outcome(calls, owners, id), reason)
  }

  predicate Fate(e: Env, e': Env, outcome: Option<bool>, reason: string) {
    match outcome
    case None => e' == e
    case Some(ok) => if ok then EndedFor(e, e', reason) else e' == e.(phase := Terminating)
  }

  /** Of the targets that the script leaves alone, exactly those no longer to be visited were destroyed. */
  ghost predicate Covered(before: Envs, owners: Owners, script: seq<Request>, todo: set<string>, prNumber: int) {
    && (forall id <- before | LeftAlone(script, id, before[id]) && IsTarget(before[id], prNumber) ::
          id !in todo ==> Some(id) in owners)
    && (forall id <- todo :: Some(id) !in owners)
  }

  /** A pull request's environments that are no longer to be visited are on their way out. */
  ghost predicate Handled(before: Envs, m: Envs, todo: set<string>, prNumber: int) {
    && Grows(before, m)
    && todo <= before.Keys
    && forall id <- before :: before[id].prNumber == prNumber && id !in todo ==> Going(m, id)
  }

  /** One visit's calls: the script's, the handler's own if it makes one, and the script's again. */
  datatype Visit = Visit(earlier: seq<Call>, own: seq<Call>, later: seq<Call>) {
    function Calls(): seq<Call> { earlier + own + later }

    function Owners(id: string): (owners: Owners)
      ensures |owners| == |Calls()|
    {
      Nobody(|earlier|) + seq(|own|, _ => Some(id)) + Nobody(|later|)
    }
  }

  function Nobody(n: nat): (owners: Owners)
    ensures |owners| == n
  {
    seq(n, _ => None)
  }

  /** What one visit of `id` does, among others. */
  ghost predicate Visited(m: Envs, m': Envs, v: Visit, script: seq<Request>, id: string, prNumber: int, reason: string,
                          failed: bool)
    requires id in m
  {
    && Grows(m, m') && m'.Keys <= m.Keys + NewIds(script)
    && (m'[id].prNumber == prNumber ==> Going(m', id))
    && (v.own == [] || (v.own == [Destroyed(m[id].name, !failed)] && IsTarget(m[id], prNumber)))
    && (failed ==> v.own != [])
    && (forall c <- v.earlier :: Foreign(c, m', script))
    && (forall c <- v.later :: Foreign(c, m', script))
    && (forall i <- m | LeftAlone(script, i, m[i]) ::
          if i == id && IsTarget(m[i], prNumber)
          then v.own != [] && if failed then m'[i] == m[i].(phase := Terminating) else EndedFor(m[i], m'[i], reason)
          else m'[i] == m[i])
  }

  // ---------------------------------------------------------------------------------------
  // Keeping the account

  lemma {:induction false} AccountedLater(before: Envs, m: Envs, m': Envs, calls: seq<Call>, owners: Owners,
                                          script: seq<Request>, prNumber: int)
    requires Accounted(before, m, calls, owners, script, prNumber) && Grows(m, m')
    ensures Accounted(before, m', calls, owners, script, prNumber) && |calls| == |owners|
  {
    if calls != [] {
      var n := |calls| - 1;
      AccountedLater(before, m, m', calls[..n], owners[..|owners| - 1], script, prNumber);
      match owners[n]
      case None => ForeignLater(calls[n], m, m', script);
      case Some(id) => GoingStays(m, m');
    }
  }

  /** One more call of anybody's. */
  lemma {:induction false} OneMoreCall(before: Envs, m: Envs, calls: seq<Call>, owners: Owners, script: seq<Request>,
                                       prNumber: int, c: Call, owner: Option<string>)
    requires Accounted(before, m, calls, owners, script, prNumber) && |calls| == |owners|
    requires owner.None? ==> Foreign(c, m, script)
    requires owner.Some? ==> OwnCall(before, m, c, owner.value, prNumber) && owner !in owners
    ensures Accounted(before, m, calls + [c], owners + [owner], script, prNumber)
    ensures Failures(calls + [c], owners + [owner]) == Failures(calls, owners) + if owner.Some? && !c.ok then 1 else 0
    ensures forall id :: Outcome(calls + [c], owners + [owner], id)
                         == if owner == Some(id) then Some(c.ok) else Outcome(calls, owners, id)
  {
    assert (calls + [c])[..|calls|] == calls && (owners + [owner])[..|owners|] == owners;
  }

  lemma LastOf(calls: seq<Call>)
    requires calls != []
    ensures calls[..|calls| - 1] + [calls[|calls| - 1]] == calls
  {
  }

  lemma NobodyMore(n: nat)
    ensures Nobody(n) + [None] == Nobody(n + 1)
  {
  }

  lemma {:induction false} ForeignMore(before: Envs, m: Envs, calls: seq<Call>, owners: Owners, script: seq<Request>,
                                       prNumber: int, more: seq<Call>)
    requires Accounted(before, m, calls, owners, script, prNumber) && |calls| == |owners|
    requires forall c <- more :: Foreign(c, m, script)
    ensures var calls', owners' := calls + more, owners + Nobody(|more|);
      && Accounted(before, m, calls', owners', script, prNumber)
      && Failures(calls', owners') == Failures(calls, owners)
      && forall id :: Outcome(calls', owners', id) == Outcome(calls, owners, id)
  {
    if more == [] {
      assert calls + more == calls && owners + Nobody(0) == owners;
    } else {
      var n := |more| - 1;
      ForeignMore(before, m, calls, owners, script, prNumber, more[..n]);
      OneMoreCall(before, m, calls + more[..n], owners + Nobody(n), script, prNumber, more[n], None);
      Regroup(calls, more[..n], [more[n]]);
      Regroup(owners, Nobody(n), [None]);
      LastOf(more);
      NobodyMore(n);
    }
  }

  /** An environment in the account is on its way out, so that it is not a target again. */
  lemma {:induction false} OwnedIsGoing(before: Envs, m: Envs, calls: seq<Call>, owners: Owners, script: seq<Request>,
                                        prNumber: int, id: string)
    requires Accounted(before, m, calls, owners, script, prNumber) && Some(id) in owners
    ensures Going(m, id)
  {
    var n := |owners| - 1;
    if owners[n] != Some(id) {
      OwnedIsGoing(before, m, calls[..|calls| - 1], owners[..n], script, prNumber, id);
    }
  }

  /** The calls of a visit, and what they did to the backend, in three parts. */
  lemma {:induction false} CallsOfVisit(c0: seq<Call>, c1: seq<Call>, c2: seq<Call>, c3: seq<Call>, l0: set<string>,
                                        l1: set<string>, l2: set<string>, l3: set<string>, v: Visit)
    requires c1 == c0 + v.earlier && c2 == c1 + v.own && c3 == c2 + v.later
    requires OnlyCalled(l0, l1, v.earlier) && OnlyCalled(l1, l2, v.own) && OnlyCalled(l2, l3, v.later)
    ensures c3 == c0 + v.Calls() && OnlyCalled(l0, l3, v.Calls())
  {
    OnlyCalledMore(l0, l1, l2, v.earlier, v.own);
    OnlyCalledMore(l0, l2, l3, v.earlier + v.own, v.later);
  }

  lemma {:induction false} AccountedStep(before: Envs, m: Envs, m': Envs, calls: seq<Call>, owners: Owners, v: Visit,
                                         script: seq<Request>, id: string, prNumber: int, reason: string, failed: bool)
    requires Grows(before, m) && AllSettled(before) && id in m && |calls| == |owners|
    requires Accounted(before, m, calls, owners, script, prNumber) && Failures(calls, owners) == 0
    requires Visited(m, m', v, script, id, prNumber, reason, failed)
    ensures var calls', owners' := calls + v.Calls(), owners + v.Owners(id);
      && Accounted(before, m', calls', owners', script, prNumber)
      && Failures(calls', owners') == (if failed then 1 else 0)
      && (forall i :: Outcome(calls', owners', i)
                      == if v.own != [] && i == id then Some(!failed) else Outcome(calls, owners, i))
  {
    AccountedLater(before, m, m', calls, owners, script, prNumber);
    if v.own != [] {
      NotOwnedYet(before, m, calls, owners, script, prNumber, id);
      TargetsOwnCall(before, m, m', v.own[0], id, prNumber);
    }
    AccountedVisit(before, m', calls, owners, v, script, id, prNumber, !failed);
  }

  /** The calls of a visit, one part after the other. */
  lemma {:induction false} AccountedVisit(before: Envs, m: Envs, calls: seq<Call>, owners: Owners, v: Visit,
                                          script: seq<Request>, id: string, prNumber: int, ok: bool)
    requires Accounted(before, m, calls, owners, script, prNumber) && |calls| == |owners|
    requires (forall c <- v.earlier :: Foreign(c, m, script)) && (forall c <- v.later :: Foreign(c, m, script))
    requires |v.own| <= 1
    requires v.own != [] ==> OwnCall(before, m, v.own[0], id, prNumber) && v.own[0].ok == ok && Some(id) !in owners
    ensures var calls', owners' := calls + v.Calls(), owners + v.Owners(id);
      && Accounted(before, m, calls', owners', script, prNumber)
      && Failures(calls', owners') == Failures(calls, owners) + (if v.own != [] && !ok then 1 else 0)
      && (forall i :: Outcome(calls', owners', i)
                      == if v.own != [] && i == id then Some(ok) else Outcome(calls, owners, i))
  {
    var calls1, owners1 := calls + v.earlier, owners + Nobody(|v.earlier|);
    var calls2, owners2 := calls1 + v.own, owners1 + seq(|v.own|, _ => Some(id));
    ForeignMore(before, m, calls, owners, script, prNumber, v.earlier);
    OwnMore(before, m, calls1, owners1, script, prNumber, v.own, id, ok);
    ForeignMore(before, m, calls2, owners2, script, prNumber, v.later);
    Regroup(calls, v.earlier, v.own);
    Regroup(calls, v.earlier + v.own, v.later);
    Regroup(owners, Nobody(|v.earlier|), seq(|v.own|, _ => Some(id)));
    Regroup(owners, Nobody(|v.earlier|) + seq(|v.own|, _ => Some(id)), Nobody(|v.later|));
  }

  /** The handler's own call, if there is one. */
  lemma {:induction false} OwnMore(before: Envs, m: Envs, calls: seq<Call>, owners: Owners, script: seq<Request>,
                                   prNumber: int, own: seq<Call>, id: string, ok: bool)
    requires Accounted(before, m, calls, owners, script, prNumber) && |calls| == |owners| && |own| <= 1
    requires own != [] ==> OwnCall(before, m, own[0], id, prNumber) && own[0].ok == ok && Some(id) !in owners
    ensures var calls', owners' := calls + own, owners + seq(|own|, _ => Some(id));
      && Accounted(before, m, calls', owners', script, prNumber)
      && Failures(calls', owners') == Failures(calls, owners) + (if own != [] && !ok then 1 else 0)
      && (forall i :: Outcome(calls', owners', i)
                      == if own != [] && i == id then Some(ok) else Outcome(calls, owners, i))
  {
    var mine := seq(|own|, _ => Some(id));
    if own != [] {
      assert own == [own[0]] && mine == [Some(id)];
      OneMoreCall(before, m, calls, owners, script, prNumber, own[0], Some(id));
    } else {
      assert calls + own == calls && owners + mine == owners;
    }
  }

  lemma {:induction false} NotOwnedYet(before: Envs, m: Envs, calls: seq<Call>, owners: Owners, script: seq<Request>,
                                       prNumber: int, id: string)
    requires Accounted(before, m, calls, owners, script, prNumber) && id in m && IsTarget(m[id], prNumber)
    ensures Some(id) !in owners
  {
    if Some(id) in owners {
      OwnedIsGoing(before, m, calls, owners, script, prNumber, id);
    }
  }

  lemma {:induction false} TargetsOwnCall(before: Envs, m: Envs, m': Envs, c: Call, id: string, prNumber: int)
    requires Grows(before, m) && Grows(m, m') && AllSettled(before) && id in m && IsTarget(m[id], prNumber)
    requires Going(m', id) && c.Destroyed? && c.name == m[id].name
    ensures OwnCall(before, m', c, id, prNumber)
  {
    if id in before {
      assert Settled(before[id]) && before[id].phase.Rank() <= m[id].phase.Rank();
    }
  }

  // ---------------------------------------------------------------------------------------
  // One visit

  /** How far a handler has come after some visits, the last of which may have failed. */
  ghost predicate Reached(before: Envs, m: Envs, calls: seq<Call>, owners: Owners, script: seq<Request>,
                          todo: set<string>, prNumber: int, reason: string, failed: bool)
  {
    && |calls| == |owners|
    && Handled(before, m, todo, prNumber) && m.Keys <= before.Keys + NewIds(script)
    && Accounted(before, m, calls, owners, script, prNumber)
    && Failures(calls, owners) == (if failed then 1 else 0)
    && Exactly(before, m, calls, owners, script, reason)
    && Covered(before, owners, script, todo, prNumber)
  }

  lemma {:induction false} HandledStep(before: Envs, m: Envs, m': Envs, todo: set<string>, todo': set<string>,
                                       id: string, prNumber: int)
    requires Handled(before, m, todo, prNumber) && Grows(m, m') && todo - {id} <= todo' <= todo
    requires id in m' && (m'[id].prNumber == prNumber ==> Going(m', id))
    ensures Handled(before, m', todo', prNumber)
  {
    GrowsTransitive(before, m, m');
    GoingStays(m, m');
  }

  /** A target that has not been destroyed has no outcome. */
  lemma {:induction false} NoOutcome(calls: seq<Call>, owners: Owners, id: string)
    requires |calls| == |owners|
    ensures Outcome(calls, owners, id).Some? <==> Some(id) in owners
  {
    if calls != [] {
      var n := |calls| - 1;
      NoOutcome(calls[..n], owners[..n], id);
      assert owners == owners[..n] + [owners[n]];
    }
  }

  lemma {:induction false} ExactlyStep(before: Envs, m: Envs, m': Envs, calls: seq<Call>, owners: Owners,
                                       calls': seq<Call>, owners': Owners, v: Visit, script: seq<Request>,
                                       id: string, prNumber: int, reason: string, failed: bool)
    requires Grows(before, m) && id in m && |calls| == |owners| && |calls'| == |owners'|
    requires Exactly(before, m, calls, owners, script, reason)
    requires Visited(m, m', v, script, id, prNumber, reason, failed)
    requires v.own != [] ==> Outcome(calls, owners, id).None?
    requires forall i :: Outcome(calls', owners', i)
                         == if v.own != [] && i == id then Some(!failed) else Outcome(calls, owners, i)
    ensures Exactly(before, m', calls', owners', script, reason)
  {
    forall i <- before | LeftAlone(script, i, before[i])
      ensures i in m' && Fate(before[i], m'[i], Outcome(calls', owners', i), reason)
    {
      assert i in m;
      SameLeftAlone(script, i, before[i], m[i]);
    }
  }

  lemma {:induction false} CoveredStep(before: Envs, m: Envs, m': Envs, calls: seq<Call>, owners: Owners, v: Visit,
                                       script: seq<Request>, todo: set<string>, todo': set<string>, id: string,
                                       prNumber: int, reason: string, failed: bool)
    requires Grows(before, m) && id in m && |calls| == |owners| && todo <= before.Keys
    requires Exactly(before, m, calls, owners, script, reason) && Covered(before, owners, script, todo, prNumber)
    requires Visited(m, m', v, script, id, prNumber, reason, failed)
    requires if id in before then id in todo && todo' == todo - {id} else todo' == todo
    ensures Covered(before, owners + v.Owners(id), script, todo', prNumber)
  {
    VisitOwns(v, id);
    if id in before && LeftAlone(script, id, before[id]) && IsTarget(before[id], prNumber) {
      NoOutcome(calls, owners, id);
      SameLeftAlone(script, id, before[id], m[id]);
    }
  }

  lemma {:induction false} VisitOwns(v: Visit, id: string)
    ensures forall i :: Some(i) in v.Owners(id) <==> i == id && v.own != []
  {
    if v.own != [] {
      assert v.Owners(id)[|v.earlier|] == Some(id);
    }
  }

  /** One visit takes a handler further. */
  lemma {:induction false} ProgressStep(before: Envs, m: Envs, m': Envs, calls: seq<Call>, owners: Owners, v: Visit,
                                        script: seq<Request>, todo: set<string>, todo': set<string>, id: string,
                                        prNumber: int, reason: string, failed: bool)
    requires Reached(before, m, calls, owners, script, todo, prNumber, reason, false) && AllSettled(before) && id in m
    requires Visited(m, m', v, script, id, prNumber, reason, failed)
    requires if id in before then id in todo && todo' == todo - {id} else todo' == todo
    ensures Reached(before, m', calls + v.Calls(), owners + v.Owners(id), script, todo', prNumber, reason, failed)
  {
    HandledStep(before, m, m', todo, todo', id, prNumber);
    CoveredStep(before, m, m', calls, owners, v, script, todo, todo', id, prNumber, reason, failed);
    AccountedStep(before, m, m', calls, owners, v, script, id, prNumber, reason, failed);
    if v.own != [] {
      NotOwnedYet(before, m, calls, owners, script, prNumber, id);
      NoOutcome(calls, owners, id);
    }
    ExactlyStep(before, m, m', calls, owners, calls + v.Calls(), owners + v.Owners(id), v, script, id, prNumber, reason,
                failed);
  }

  /** A teardown of a target, with the script running before it (m0 to m1) and after it (m2 to m3). */
  lemma {:induction false} TeardownVisits(m0: Envs, m1: Envs, m2: Envs, m3: Envs, v: Visit, script: seq<Request>,
                                          id: string, prNumber: int, destroyed: bool, reason: string, now: int)
    requires AllSettled(m1) && id in m0 && IsTarget(m0[id], prNumber)
    requires Interfered(m0, m1, v.earlier, script) && Interfered(m2, m3, v.later, script)
    requires Step(Teardown(id, destroyed, reason, now), m1, m2) && Going(m2, id)
    requires id in m1 && v.own == if m1[id].phase.Terminated? then [] else [Destroyed(m1[id].name, destroyed)]
    requires !destroyed ==> v.own != []
    ensures Visited(m0, m3, v, script, id, prNumber, reason, !destroyed)
  {
    TeardownGrows(m0, m1, m2, m3, v, script, id, destroyed, reason, now);
    forall c <- v.earlier ensures Foreign(c, m3, script) {
      ForeignLater(c, m1, m3, script);
    }
    TeardownExact(m0, m1, m2, m3, v.earlier, v.later, script, id, destroyed, reason, now);
  }

  lemma {:induction false} TeardownGrows(m0: Envs, m1: Envs, m2: Envs, m3: Envs, v: Visit, script: seq<Request>,
                                         id: string, destroyed: bool, reason: string, now: int)
    requires AllSettled(m1) && Interfered(m0, m1, v.earlier, script) && Interfered(m2, m3, v.later, script)
    requires Step(Teardown(id, destroyed, reason, now), m1, m2) && Going(m2, id)
    ensures Grows(m0, m3) && Grows(m1, m2) && Grows(m1, m3) && Going(m3, id) && m3.Keys <= m0.Keys + NewIds(script)
  {
    StepGrows(Teardown(id, destroyed, reason, now), m1, m2);
    GrowsTransitive(m0, m1, m2);
    GrowsTransitive(m0, m2, m3);
    GrowsTransitive(m1, m2, m3);
    GoingStays(m2, m3);
  }

  /** The environments left alone, across a teardown. */
  lemma {:induction false} TeardownExact(m0: Envs, m1: Envs, m2: Envs, m3: Envs, earlier: seq<Call>, later: seq<Call>,
                                         script: seq<Request>, id: string, destroyed: bool, reason: string, now: int)
    requires Interfered(m0, m1, earlier, script) && Grows(m1, m2) && Interfered(m2, m3, later, script)
    requires Step(Teardown(id, destroyed, reason, now), m1, m2)
    ensures forall i <- m0 | LeftAlone(script, i, m0[i]) ::
              && m1[i] == m0[i]
              && m3[i] == if i == id && !m0[i].phase.Terminated? then TornDown(m0[i], destroyed, reason, now) else m0[i]
  {
    forall i <- m0 | LeftAlone(script, i, m0[i])
      ensures m1[i] == m0[i]
      ensures m3[i] == if i == id && !m0[i].phase.Terminated? then TornDown(m0[i], destroyed, reason, now) else m0[i]
    {
      assert m1[i] == m0[i] && i in m2;
      SameLeftAlone(script, i, m0[i], m2[i]);
    }
  }

  // ---------------------------------------------------------------------------------------
  // What it comes to

  /**
   On success, an environment of the pull request that the script left alone is Terminated exactly
   when it was not already Terminating: a teardown that failed before is not tried again.
   */
  lemma {:induction false} TerminatedIff(before: Envs, m: Envs, calls: seq<Call>, owners: Owners,
                                         script: seq<Request>, prNumber: int, reason: string)
    requires |calls| == |owners| && AllSettled(before)
    requires Accounted(before, m, calls, owners, script, prNumber) && Failures(calls, owners) == 0
    requires Exactly(before, m, calls, owners, script, reason) && Covered(before, owners, script, {}, prNumber)
    ensures forall id <- before | before[id].prNumber == prNumber && LeftAlone(script, id, before[id]) ::
              && id in m && (m[id].phase.Terminated? <==> !before[id].phase.Terminating?)
              && (before[id].phase.Terminating? ==> m[id] == before[id])
  {
    forall id <- before | before[id].prNumber == prNumber && LeftAlone(script, id, before[id])
      ensures id in m && (m[id].phase.Terminated? <==> !before[id].phase.Terminating?)
      ensures before[id].phase.Terminating? ==> m[id] == before[id]
    {
      NoOutcome(calls, owners, id);
      SuccessfulOutcome(before, m, calls, owners, script, prNumber, id);
      assert Settled(before[id]);
    }
  }

  lemma {:induction false} SuccessfulOutcome(before: Envs, m: Envs, calls: seq<Call>, owners: Owners,
                                             script: seq<Request>, prNumber: int, id: string)
    requires |calls| == |owners|
    requires Accounted(before, m, calls, owners, script, prNumber)
    ensures Failures(calls, owners) == 0 ==> Outcome(calls, owners, id) != Some(false)
    ensures Some(id) in owners && id in before ==> IsTarget(before[id], prNumber)
  {
    if calls != [] {
      var n := |calls| - 1;
      SuccessfulOutcome(before, m, calls[..n], owners[..n], script, prNumber, id);
      assert owners == owners[..n] + [owners[n]];
    }
  }

  /**
   On the fields, for an environment that no request of the script names and no cleanup of it finds
   expired: one that is not a Ready one of the pull request is as it was; one that is has ended with
   the handler's reason and a time, unless the handler failed: then it may also be Terminating or
   not have been reached.
   */
  lemma {:induction false} FateMeaning(before: Envs, m: Envs, calls: seq<Call>, owners: Owners, script: seq<Request>,
                                       prNumber: int, reason: string, failed: bool, id: string)
    requires |calls| == |owners| && id in before
    requires Accounted(before, m, calls, owners, script, prNumber) && Exactly(before, m, calls, owners, script, reason)
    requires !failed ==> Failures(calls, owners) == 0 && Covered(before, owners, script, {}, prNumber)
    requires forall r <- script :: (r.TearsDown? ==> r.id != id) && (r.Sweeps? ==> r.now <= before[id].expiresAt)
    ensures id in m
    ensures before[id].prNumber != prNumber || before[id].phase != Ready ==> m[id] == before[id]
    ensures m[id] == before[id] || FailedOrEnded(before[id], m[id], reason)
    ensures before[id].prNumber == prNumber && before[id].phase == Ready && !failed ==>
      m[id].phase == Terminated && m[id].reason == reason && m[id].terminatedAt.Some?
  {
    assert LeftAlone(script, id, before[id]);
    NoOutcome(calls, owners, id);
    SuccessfulOutcome(before, m, calls, owners, script, prNumber, id);
  }

  lemma {:induction false} FatesMeaning(before: Envs, m: Envs, calls: seq<Call>, owners: Owners, script: seq<Request>,
                                        prNumber: int, reason: string, failed: bool)
    requires |calls| == |owners| && Grows(before, m)
    requires Accounted(before, m, calls, owners, script, prNumber) && Exactly(before, m, calls, owners, script, reason)
    requires !failed ==> Failures(calls, owners) == 0 && Covered(before, owners, script, {}, prNumber)
    ensures forall id <- before |
      && (before[id].prNumber != prNumber || before[id].phase != Ready)
      && (forall r <- script :: (r.TearsDown? ==> r.id != id) && (r.Sweeps? ==> r.now <= before[id].expiresAt)) ::
        id in m && m[id] == before[id]
    ensures !failed ==> forall id <- before |
      && before[id].prNumber == prNumber && before[id].phase == Ready
      && (forall r <- script :: (r.TearsDown? ==> r.id != id) && (r.Sweeps? ==> r.now <= before[id].expiresAt)) ::
        id in m && m[id].phase == Terminated && m[id].reason == reason && m[id].terminatedAt.Some?
  {
    forall id <- before |
      forall r <- script :: (r.TearsDown? ==> r.id != id) && (r.Sweeps? ==> r.now <= before[id].expiresAt)
      ensures id in m
      ensures before[id].prNumber != prNumber || before[id].phase != Ready ==> m[id] == before[id]
      ensures before[id].prNumber == prNumber && before[id].phase == Ready && !failed ==>
        m[id].phase == Terminated && m[id].reason == reason && m[id].terminatedAt.Some?
    {
      FateMeaning(before, m, calls, owners, script, prNumber, reason, failed, id);
    }
  }

  /** Terminated with the reason, or Terminating; otherwise the same environment. */
  predicate FailedOrEnded(e: Env, e': Env, reason: string) {
    && e'.name == e.name && e'.namespace == e.namespace && e'.prNumber == e.prNumber && e'.expiresAt == e.expiresAt
    && (|| (e'.phase == Terminated && e'.reason == reason && e'.terminatedAt.Some?)
        || (e'.phase == Terminating && e'.reason == e.reason && e'.terminatedAt == e.terminatedAt))
  }

  /** How many of the handler's calls failed, counted by position. */
  lemma {:induction false} FailuresMeaning(calls: seq<Call>, owners: Owners)
    requires |calls| == |owners|
    ensures Failures(calls, owners) == |set i | 0 <= i < |calls| && owners[i].Some? && !calls[i].ok|
  {
    var failed := set i | 0 <= i < |calls| && owners[i].Some? && !calls[i].ok;
    if calls != [] {
      var n := |calls| - 1;
      FailuresMeaning(calls[..n], owners[..n]);
      var earlier := set i | 0 <= i < |calls[..n]| && owners[..n][i].Some? && !calls[..n][i].ok;
      assert failed == if owners[n].Some? && !calls[n].ok then earlier + {n} else earlier;
    }
  }

  /**
   By position: a call of the handler's is a destroy under the name of an environment of the pull
   request, once for each, and any other is a request's: a deployment of its workload, or a destroy of
   an environment it names or finds expired.
   */
  lemma {:induction false} AccountMeaning(before: Envs, m: Envs, calls: seq<Call>, owners: Owners,
                                          script: seq<Request>, prNumber: int, i: nat)
    requires Accounted(before, m, calls, owners, script, prNumber) && |calls| == |owners| && i < |calls|
    ensures owners[i].Some? ==>
      var id := owners[i].value;
      && id in m && m[id].prNumber == prNumber && calls[i] == Destroyed(m[id].name, calls[i].ok)
      && m[id].phase in {Terminating, Terminated}
      && (id in before ==> before[id].prNumber == prNumber && before[id].phase == Ready)
    ensures owners[i].Some? ==> owners[i] !in owners[..i]
    ensures owners[i].None? && calls[i].Deployed? ==> exists r <- script :: r.Creates? && r.workload == calls[i].name
    ensures owners[i].None? && calls[i].Destroyed? ==>
      exists id <- m, r <- script ::
        m[id].name == calls[i].name && ((r.TearsDown? && r.id == id) || (r.Sweeps? && r.now > m[id].expiresAt))
  {
    var n := |calls| - 1;
    if i < n {
      AccountMeaning(before, m, calls[..n], owners[..n], script, prNumber, i);
      assert owners[..n][..i] == owners[..i];
    }
  }

  /** Alone and without a target, a handler does nothing and cannot fail. */
  lemma {:induction false} NothingToDo(before: Envs, m: Envs, calls: seq<Call>, owners: Owners, prNumber: int,
                                       reason: string)
    requires |calls| == |owners| && m.Keys <= before.Keys + NewIds([])
    requires Accounted(before, m, calls, owners, [], prNumber) && Exactly(before, m, calls, owners, [], reason)
    requires forall id <- before :: !IsTarget(before[id], prNumber)
    ensures m == before && calls == [] && Failures(calls, owners) == 0
  {
    assert NewIds([]) == {};
    NoCalls(before, m, calls, owners, prNumber);
    forall id <- before ensures m[id] == before[id] {
      assert LeftAlone([], id, before[id]);
    }
  }

  lemma {:induction false} NoCalls(before: Envs, m: Envs, calls: seq<Call>, owners: Owners, prNumber: int)
    requires m.Keys <= before.Keys && Accounted(before, m, calls, owners, [], prNumber)
    requires forall id <- before :: !IsTarget(before[id], prNumber)
    ensures calls == []
  {
  }
}
