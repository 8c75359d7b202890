/**
 Ephemeral environments on values: the phases, what each critical section of the manager does
 to them, and what therefore holds in every reachable state.
 */
module EphemeralModel {
  import opened Integers
  import opened MapSum
  import opened Text

  datatype Phase = Creating | Ready | Terminating | Terminated {
    function Rank(): nat {
      match this
      case Creating => 0
      case Ready => 1
      case Terminating => 2
      case Terminated => 3
    }
  }

  datatype Env = Env(name: string, namespace: string, prNumber: int, expiresAt: int,
                     phase: Phase, reason: string, terminatedAt: Option<int>)

  /** The environments by id. */
  type Envs = map<string, Env>

  // ---------------------------------------------------------------------------------------
  // Requests, and the calls they make on the backend

  /** `ttl` is the parsed duration, or None when it does not parse. */
  datatype EnvSpec = EnvSpec(enabled: bool, maxEnvironments: int, namespacePrefix: string,
                             prNumber: int, branchName: string, ttl: Option<int>)

  datatype Error = Disabled | LimitReached | InvalidTTL | DeployFailed | NotFound | DestroyFailed

  function EnvironmentName(spec: EnvSpec, nanos: nat): string {
    if spec.prNumber > 0 then "pr-" + Decimal(spec.prNumber)
    else if spec.branchName != "" then "branch-" + spec.branchName
    else "ephem-" + Decimal(nanos)
  }

  function NamespaceOf(spec: EnvSpec, name: string): string {
    (if spec.namespacePrefix == "" then "ephem-" else spec.namespacePrefix) + name
  }

  /** Ids come from the clock. */
  function EnvironmentID(nanos: nat): string { "ephem-" + Decimal(nanos) }

  /** How environments, their namespaces and their ids are named. */
  lemma {:induction false} NamesMeaning(spec: EnvSpec, nanos: nat, name: string)
    ensures spec.prNumber > 0 ==> EnvironmentName(spec, nanos) == "pr-" + Decimal(spec.prNumber)
    ensures spec.prNumber <= 0 && spec.branchName != "" ==> EnvironmentName(spec, nanos) == "branch-" + spec.branchName
    ensures spec.prNumber <= 0 && spec.branchName == "" ==> EnvironmentName(spec, nanos) == EnvironmentID(nanos)
    ensures spec.namespacePrefix == "" ==> NamespaceOf(spec, name) == "ephem-" + name
    ensures NamespaceOf(spec, name)[|NamespaceOf(spec, name)| - |name|..] == name
    ensures spec.namespacePrefix <= NamespaceOf(spec, name)
  {
  }

  /** Different clock readings give different ids. */
  lemma {:induction false} EnvironmentIDInjective(n: nat, m: nat)
    requires EnvironmentID(n) == EnvironmentID(m)
    ensures n == m
  {
    assert EnvironmentID(n)[6..] == Decimal(n) && EnvironmentID(m)[6..] == Decimal(m);
    DecimalInjective(n, m);
  }

  /** Different pull requests have differently named environments. */
  lemma {:induction false} PullRequestNamesInjective(spec: EnvSpec, spec': EnvSpec, nanos: nat, nanos': nat)
    requires spec.prNumber > 0 && spec'.prNumber > 0
    requires EnvironmentName(spec, nanos) == EnvironmentName(spec', nanos')
    ensures spec.prNumber == spec'.prNumber
  {
    assert EnvironmentName(spec, nanos)[3..] == Decimal(spec.prNumber);
    assert EnvironmentName(spec', nanos')[3..] == Decimal(spec'.prNumber);
    DecimalInjective(spec.prNumber, spec'.prNumber);
  }

  /** The refusals that come before anything is recorded. */
  function Refusal(spec: EnvSpec, active: nat): Option<Error> {
    if !spec.enabled then Some(Disabled)
    else if spec.maxEnvironments > 0 && Int32(active) >= spec.maxEnvironments then Some(LimitReached)
    else if spec.ttl.None? then Some(InvalidTTL)
    else None
  }

  datatype Call = Deployed(name: string, namespace: string, ok: bool) | Destroyed(name: string, ok: bool)

  // ---------------------------------------------------------------------------------------
  // What one critical section does

  function Ended(e: Env, reason: string, now: int): Env {
    e.(phase := Terminated, reason := reason, terminatedAt := Some(now))
  }

  /** A new environment once its deployment has answered. */
  function Created(name: string, namespace: string, prNumber: int, expiresAt: int, deployed: bool,
                   failure: string, now: int): Env
  {
    var e := Env(name, namespace, prNumber, expiresAt, Creating, "", None);
    if deployed then e.(phase := Ready) else Ended(e, failure, now)
  }

  /** A teardown of an environment that is not Terminated; the destroy may fail. */
  function TornDown(e: Env, destroyed: bool, reason: string, now: int): Env {
    if destroyed then Ended(e, reason, now) else e.(phase := Terminating)
  }

  predicate Expires(e: Env, now: int) { e.phase.Ready? && now > e.expiresAt }

  function SweptOne(e: Env, now: int, failed: bool): Env {
    if Expires(e, now) then Ended(e, if failed then "cleanup failed" else "TTL expired", now) else e
  }

  /** The cleanup ends every expired environment, also those whose destroy failed. */
  function Swept(m: Envs, now: int, failed: set<string>): Envs {
    map id <- m :: SweptOne(m[id], now, id in failed)
  }

  ghost function Active(m: Envs): set<string> {
    set id <- m | !m[id].phase.Terminated?
  }

  /** What each critical section records, on the fields. */
  lemma {:induction false} RecordedMeaning(e: Env, failed: bool, reason: string, now: int)
    ensures TornDown(e, true, reason, now)
            == Env(e.name, e.namespace, e.prNumber, e.expiresAt, Terminated, reason, Some(now))
    ensures TornDown(e, false, reason, now)
            == Env(e.name, e.namespace, e.prNumber, e.expiresAt, Terminating, e.reason, e.terminatedAt)
    ensures e.phase == Ready && now > e.expiresAt ==>
      SweptOne(e, now, failed) == Env(e.name, e.namespace, e.prNumber, e.expiresAt, Terminated,
                                      if failed then "cleanup failed" else "TTL expired", Some(now))
    ensures e.phase != Ready || now <= e.expiresAt ==> SweptOne(e, now, failed) == e
    ensures Created(e.name, e.namespace, e.prNumber, e.expiresAt, true, reason, now)
            == Env(e.name, e.namespace, e.prNumber, e.expiresAt, Ready, "", None)
    ensures Created(e.name, e.namespace, e.prNumber, e.expiresAt, false, reason, now)
            == Env(e.name, e.namespace, e.prNumber, e.expiresAt, Terminated, reason, Some(now))
  {
  }

  datatype Op =
    | Create(id: string, env: Env, limit: int)
    | Teardown(id: string, destroyed: bool, reason: string, now: int)
    | Sweep(now: int, failed: set<string>)

  /**
   A request within its limit records a settled environment under its id. Refused requests and
   teardowns of unknown or Terminated environments change nothing.
   */
  ghost predicate Step(op: Op, m: Envs, m': Envs) {
    match op
    case Create(id, env, limit) =>
      || m' == m
      || (&& Settled(env)
          && (limit > 0 ==> Int32(|Active(m)|) < limit)
          && m' == m[id := env])
    case Teardown(id, destroyed, reason, now) =>
      m' == if id in m && !m[id].phase.Terminated? then m[id := TornDown(m[id], destroyed, reason, now)] else m
    case Sweep(now, failed) => m' == Swept(m, now, failed)
  }

  ghost predicate Run(ops: seq<Op>, states: seq<Envs>) {
    && |states| == |ops| + 1
    && states[0] == map[]
    && forall i {:trigger ops[i]} :: 0 <= i < |ops| ==> Step(ops[i], states[i], states[i + 1])
  }

  // ---------------------------------------------------------------------------------------
  // Invariants

  /** Past Creating, and carrying a termination time exactly when Terminated. */
  predicate Settled(e: Env) {
    !e.phase.Creating? && (e.phase.Terminated? <==> e.terminatedAt.Some?)
  }

  ghost predicate AllSettled(m: Envs) { forall id <- m :: Settled(m[id]) }

  /**
   What any other operation may do while a handler is not looking: add environments and move
   known ones forward. Nothing disappears, and a Terminated environment is final.
   */
  ghost predicate Grows(m: Envs, m': Envs) {
    forall id <- m ::
      && id in m'
      && m[id].phase.Rank() <= m'[id].phase.Rank()
      && SameIdentity(m[id], m'[id])
      && (m[id].phase.Terminated? ==> m'[id] == m[id])
  }

  /** What never changes about an environment. */
  predicate SameIdentity(e: Env, e': Env) {
    && e'.prNumber == e.prNumber && e'.name == e.name && e'.namespace == e.namespace
    && e'.expiresAt == e.expiresAt
  }

  /** On the fields: which phase may follow which, and what stays. */
  lemma {:induction false} GrowsMeaning(m: Envs, m': Envs)
    requires Grows(m, m')
    ensures forall id <- m ::
      && id in m'
      && (m'[id].phase == m[id].phase
          || (m[id].phase == Creating && m'[id].phase != Creating)
          || (m[id].phase == Ready && m'[id].phase in {Terminating, Terminated})
          || (m[id].phase == Terminating && m'[id].phase == Terminated))
      && (m[id].phase == Terminated ==> m'[id] == m[id])
      && m'[id].name == m[id].name && m'[id].namespace == m[id].namespace
      && m'[id].prNumber == m[id].prNumber && m'[id].expiresAt == m[id].expiresAt
  {
    forall id <- m
      ensures m'[id].phase == m[id].phase
        || (m[id].phase == Creating && m'[id].phase != Creating)
        || (m[id].phase == Ready && m'[id].phase in {Terminating, Terminated})
        || (m[id].phase == Terminating && m'[id].phase == Terminated)
    {
      assert m[id].phase.Rank() <= m'[id].phase.Rank();
    }
  }

  lemma {:induction false} GrowsTransitive(m0: Envs, m1: Envs, m2: Envs)
    requires Grows(m0, m1) && Grows(m1, m2)
    ensures Grows(m0, m2)
  {
    forall id <- m0
      ensures id in m2 && m0[id].phase.Rank() <= m2[id].phase.Rank()
      ensures SameIdentity(m0[id], m2[id])
      ensures m0[id].phase.Terminated? ==> m2[id] == m0[id]
    {
      assert id in m1;
    }
  }

  /** On its way out: Terminating or Terminated. */
  predicate Going(m: Envs, id: string) {
    id in m && (m[id].phase.Terminating? || m[id].phase.Terminated?)
  }

  lemma {:induction false} GoingStays(m: Envs, m': Envs)
    requires Grows(m, m')
    ensures forall id <- m :: Going(m, id) ==> Going(m', id)
  {
    forall id <- m | Going(m, id) ensures Going(m', id) {
      assert m[id].phase.Rank() <= m'[id].phase.Rank();
    }
  }

  lemma {:induction false} StepSettles(op: Op, m: Envs, m': Envs)
    requires Step(op, m, m') && AllSettled(m)
    ensures AllSettled(m')
  {
  }

  /** Every operation only moves known environments forward; a creation must not reuse an id. */
  lemma {:induction false} StepGrows(op: Op, m: Envs, m': Envs)
    requires Step(op, m, m') && AllSettled(m)
    requires op.Create? ==> op.id !in m
    ensures Grows(m, m')
  {
  }

  /** In every reachable state no environment is Creating and termination times match phases. */
  lemma {:induction false} AlwaysSettled(ops: seq<Op>, states: seq<Envs>)
    requires Run(ops, states)
    ensures forall m <- states :: AllSettled(m)
    ensures forall m: Envs <- states :: forall id <- m ::
      m[id].phase != Creating && (m[id].phase == Terminated <==> m[id].terminatedAt.Some?)
  {
    for i := 0 to |ops|
      invariant forall j :: 0 <= j <= i ==> AllSettled(states[j])
    {
      StepSettles(ops[i], states[i], states[i + 1]);
    }
  }

  /** No two creations use the same id. */
  predicate FreshIds(ops: seq<Op>) {
    forall i, j :: 0 <= i < j < |ops| && ops[i].Create? && ops[j].Create? ==> ops[i].id != ops[j].id
  }

  lemma {:induction false} KnownWasCreated(ops: seq<Op>, states: seq<Envs>, k: nat, id: string) returns (i: nat)
    requires Run(ops, states) && k < |states| && id in states[k]
    ensures i < k && ops[i].Create? && ops[i].id == id
  {
    assert Step(ops[k - 1], states[k - 1], states[k]);
    if id in states[k - 1] {
      i := KnownWasCreated(ops, states, k - 1, id);
    } else {
      i := k - 1;
    }
  }

  /** Between any two moments of a run: nothing is lost, no phase goes back, Terminated is final. */
  lemma {:induction false} AlwaysGrows(ops: seq<Op>, states: seq<Envs>, i: nat, j: nat)
    requires Run(ops, states) && FreshIds(ops) && i <= j < |states|
    ensures Grows(states[i], states[j])
    ensures forall id <- states[i] ::
      && id in states[j]
      && (states[i][id].phase == Terminated ==> states[j][id] == states[i][id])
      && (states[i][id].phase == Terminating ==> states[j][id].phase in {Terminating, Terminated})
      && states[j][id].name == states[i][id].name && states[j][id].namespace == states[i][id].namespace
      && states[j][id].prNumber == states[i][id].prNumber && states[j][id].expiresAt == states[i][id].expiresAt
  {
    AlwaysSettled(ops, states);
    for k := i to j
      invariant Grows(states[i], states[k])
    {
      assert states[k] in states;
      if ops[k].Create? && ops[k].id in states[k] {
        var earlier := KnownWasCreated(ops, states, k, ops[k].id);
      }
      StepGrows(ops[k], states[k], states[k + 1]);
      GrowsTransitive(states[i], states[k], states[k + 1]);
    }
    GrowsMeaning(states[i], states[j]);
  }

  // ---------------------------------------------------------------------------------------
  // The concurrency limit

  lemma {:induction false} ActiveAfterStep(op: Op, m: Envs, m': Envs, limit: nat)
    requires Step(op, m, m') && |Active(m)| <= limit < TWO31
    requires op.Create? ==> 0 < op.limit <= limit
    ensures |Active(m')| <= limit
  {
    if op.Create? && m' != m {
      Int32Exact(|Active(m)|);
      assert Active(m') <= Active(m) + {op.id};
      SizeAtMost(Active(m'), Active(m) + {op.id});
    } else {
      assert Active(m') <= Active(m);
      SizeAtMost(Active(m'), Active(m));
    }
  }

  /** When every request carries a positive 32-bit limit of at most M, at most M environments are ever active. */
  lemma {:induction false} LimitAlwaysKept(ops: seq<Op>, states: seq<Envs>, limit: nat)
    requires Run(ops, states) && limit < TWO31
    requires forall op <- ops :: op.Create? ==> 0 < op.limit <= limit
    ensures forall m: Envs <- states :: |Active(m)| <= limit && |set id <- m | m[id].phase != Terminated| <= limit
  {
    forall m: Envs <- states ensures Active(m) == set id <- m | m[id].phase != Terminated {
      assert forall id <- m :: id in Active(m) <==> m[id].phase != Terminated;
    }
    assert Active(states[0]) == {};
    for i := 0 to |ops|
      invariant forall j :: 0 <= j <= i ==> |Active(states[j])| <= limit
    {
      ActiveAfterStep(ops[i], states[i], states[i + 1], limit);
    }
  }

  // ---------------------------------------------------------------------------------------
  // Reused ids

  /**
   Ids come from the clock. What a creation records under its id keeps the history of the others
   exactly when the id is new, or the overwritten environment was the same one, no further on.
   */
  lemma {:induction false} FreshIdIff(m: Envs, id: string, env: Env)
    requires AllSettled(m) && Settled(env) && !env.phase.Terminating?
    ensures Grows(m, m[id := env]) <==>
      || id !in m || m[id] == env
      || (&& m[id].prNumber == env.prNumber && m[id].name == env.name && m[id].namespace == env.namespace
          && m[id].expiresAt == env.expiresAt
          && (m[id].phase.Ready? || (m[id].phase.Terminating? && env.phase.Terminated?)))
  {
    var m' := m[id := env];
    if id in m && Grows(m, m') {
      assert m[id].phase.Rank() <= m'[id].phase.Rank();
    }
  }
}
