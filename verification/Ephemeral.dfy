/**
 The ephemeral environment manager. One method is one critical section, except the pull
 request handlers, which release the lock around each teardown: there Others() runs, which
 may perform any number of the manager's own operations.
 */
module Ephemeral {
  import opened Integers
  import opened MapSum
  import opened Text
  import opened EphemeralModel
  import opened EphemeralInterleaving

  class EnvironmentStatus {
    const id: string
    const name: string
    const namespace: string
    const prNumber: int
    const expiresAt: int
    var phase: Phase
    var terminationReason: string
    var terminatedAt: Option<int>

    constructor (id: string, name: string, namespace: string, prNumber: int, expiresAt: int)
      ensures this.id == id
      ensures Value() == Env(name, namespace, prNumber, expiresAt, Creating, "", None)
    {
      this.id, this.name, this.namespace := id, name, namespace;
      this.prNumber, this.expiresAt := prNumber, expiresAt;
      phase, terminationReason, terminatedAt := Creating, "", None;
    }

    function Value(): Env reads this {
      Env(name, namespace, prNumber, expiresAt, phase, terminationReason, terminatedAt)
    }

    /** The deployment has answered. */
    method Answered(deployed: bool, now: int)
      requires phase.Creating? && terminationReason == "" && terminatedAt.None?
      modifies this
      ensures Value() == Created(name, namespace, prNumber, expiresAt, deployed, "deployment failed", now)
    {
      if !deployed {
        Terminate("deployment failed", now);
      } else {
        phase := Ready;
      }
    }

    method Terminate(reason: string, now: int)
      modifies this
      ensures Value() == Ended(old(Value()), reason, now)
    {
      phase := Terminated;
      terminationReason := reason;
      terminatedAt := Some(now);
    }
  }

  class Workload {
    var name: string
    var namespace: string
    constructor (name: string) ensures this.name == name { this.name, namespace := name, ""; }
  }

  /** A backend addressed by name. A failed call may or may not have taken effect; `calls` records each. */
  class Driver {
    var live: set<string>
    ghost var calls: seq<Call>

    method Deploy(workload: Workload) returns (ok: bool)
      modifies this
      ensures ok ==> live == old(live) + {workload.name}
      ensures !ok ==> live == old(live) || live == old(live) + {workload.name}
      ensures calls == old(calls) + [Deployed(workload.name, workload.namespace, ok)]
    {
      ok := *;
      calls := calls + [Deployed(workload.name, workload.namespace, ok)];
      var effect: bool := *;
      if ok || effect {
        live := live + {workload.name};
      }
    }

    method Destroy(name: string) returns (ok: bool)
      modifies this
      ensures ok ==> live == old(live) - {name}
      ensures !ok ==> live == old(live) || live == old(live) - {name}
      ensures calls == old(calls) + [Destroyed(name, ok)]
    {
      ok := *;
      calls := calls + [Destroyed(name, ok)];
      var effect: bool := *;
      if ok || effect {
        live := live - {name};
      }
    }
  }

  class Manager {
    var environments: map<string, EnvironmentStatus>
    const driver: Driver
    ghost var envs: Envs // the same map, with the environments' values
    ghost var repr: set<object>

    ghost predicate Valid()
      reads this, repr
    {
      && this in repr && driver in repr
      && envs.Keys == environments.Keys
      && AllSettled(envs)
      && forall id <- environments ::
           environments[id] in repr && environments[id].id == id && environments[id].Value() == envs[id]
    }

    /** The footprint grew by new objects only. */
    twostate predicate Extended()
      reads this
    {
      old(repr) <= repr && forall o <- repr :: o !in old(repr) ==> !old(allocated(o))
    }

    /** The calls made, and that nothing else changed what runs. */
    twostate predicate Called(sent: seq<Call>)
      reads this, driver
    {
      driver.calls == old(driver.calls) + sent && OnlyCalled(old(driver.live), driver.live, sent)
    }

    constructor (driver: Driver)
      ensures Valid() && envs == map[] && repr == {this, driver}
    {
      environments, envs := map[], map[];
      this.driver := driver;
      repr := {this, driver};
    }

    /** Counts by going over the map, in any order. */
    method CountActiveEnvironments() returns (count: nat)
      requires Valid()
      ensures count == |set id <- envs | envs[id].phase != Terminated|
      ensures count == |Active(envs)|
    {
      count := 0;
      var todo := environments.Keys;
      ghost var seen: set<string> := {};
      while todo != {}
        invariant todo <= environments.Keys
        invariant seen == set id <- Active(envs) | id !in todo
        invariant count == |seen|
      {
        var id :| id in todo;
        if !environments[id].phase.Terminated? {
          count := count + 1;
          seen := seen + {id};
        }
        todo := todo - {id};
      }
      assert seen == Active(envs);
      assert Active(envs) == set id <- envs | envs[id].phase != Terminated;
    }

    /** Records what became of one environment. */
    ghost method Sync(status: EnvironmentStatus)
      requires status in repr && status.id in environments && environments[status.id] == status
      requires this in repr && driver in repr && AllSettled(envs) && Settled(status.Value())
      requires envs.Keys + {status.id} == environments.Keys
      requires forall id <- environments :: environments[id] in repr && environments[id].id == id
      requires forall id <- environments :: id != status.id ==> environments[id].Value() == envs[id]
      modifies this`envs
      ensures Valid() && envs == old(envs)[status.id := status.Value()]
    {
      envs := envs[status.id := status.Value()];
    }

    /**
     The clock is read once for a generated name and again for the id. Unless refused, the new status
     is Ready, or Terminated if the deployment failed, and the only environment that changes.
     */
    method CreateEnvironment(spec: EnvSpec, workload: Workload, nameNanos: nat, idNanos: nat, now: int)
      returns (status: EnvironmentStatus?, error: Option<Error>)
      requires Valid() && workload !in repr
      modifies repr, workload
      ensures Valid() && Extended()
      ensures error == Some(Disabled) <==> !spec.enabled
      ensures error == Some(LimitReached) <==>
        spec.enabled && 0 < spec.maxEnvironments <= Int32(|set id <- old(envs) | old(envs)[id].phase != Terminated|)
      ensures error == Some(InvalidTTL) <==>
        && spec.enabled && spec.ttl.None?
        && !(0 < spec.maxEnvironments <= Int32(|set id <- old(envs) | old(envs)[id].phase != Terminated|))
      ensures error in {None, Some(Disabled), Some(LimitReached), Some(InvalidTTL), Some(DeployFailed)}
      ensures error in {None, Some(DeployFailed)} ==>
        && status != null && status.id == "ephem-" + Decimal(idNanos)
        && environments == old(environments)[status.id := status]
        && envs == old(envs)[status.id := status.Value()]
        && status.name == (if spec.prNumber > 0 then "pr-" + Decimal(spec.prNumber)
                           else if spec.branchName != "" then "branch-" + spec.branchName
                           else "ephem-" + Decimal(nameNanos))
        && status.namespace == (if spec.namespacePrefix == "" then "ephem-" else spec.namespacePrefix) + status.name
        && status.prNumber == spec.prNumber && spec.ttl.Some? && status.expiresAt == now + spec.ttl.value
      ensures error == None ==>
        status.phase == Ready && status.terminationReason == "" && status.terminatedAt == None
      ensures error == Some(DeployFailed) ==>
        && status.phase == Terminated && status.terminationReason == "deployment failed"
        && status.terminatedAt == Some(now)
      ensures error == Refusal(spec, |Active(old(envs))|)
              || (Refusal(spec, |Active(old(envs))|).None? && error == Some(DeployFailed))
      ensures Refusal(spec, |Active(old(envs))|).Some? ==>
        envs == old(envs) && driver.calls == old(driver.calls) && driver.live == old(driver.live)
      ensures Refusal(spec, |Active(old(envs))|).None? ==>
        var id, name := EnvironmentID(idNanos), EnvironmentName(spec, nameNanos);
        && status != null && id in environments && environments[id] == status
        && Step(Create(id, status.Value(), spec.maxEnvironments), old(envs), envs)
        && envs == old(envs)[id := Created(name, NamespaceOf(spec, name), spec.prNumber, now + spec.ttl.value,
                                           error.None?, "deployment failed", now)]
        && workload.namespace == NamespaceOf(spec, name)
        && driver.calls == old(driver.calls) + [Deployed(old(workload.name), NamespaceOf(spec, name), error.None?)]
        && (driver.live == old(driver.live) + {old(workload.name)}
            || (error.Some? && driver.live == old(driver.live)))
    {
      if !spec.enabled {
        return null, Some(Disabled);
      }
      var activeCount := CountActiveEnvironments();
      if spec.maxEnvironments > 0 && Int32(activeCount) >= spec.maxEnvironments {
        return null, Some(LimitReached);
      }
      var envName := EnvironmentName(spec, nameNanos);
      var envID := EnvironmentID(idNanos);
      if spec.ttl.None? {
        return null, Some(InvalidTTL);
      }
      status, error := Launch(envID, envName, NamespaceOf(spec, envName), spec.prNumber, now + spec.ttl.value,
                              workload, now);
    }

    /** Records the environment, deploys its workload, and records the answer. */
    method Launch(envID: string, name: string, namespace: string, prNumber: int, expiresAt: int,
                  workload: Workload, now: int)
      returns (status: EnvironmentStatus, error: Option<Error>)
      requires Valid() && workload !in repr
      modifies repr, workload
      ensures Valid() && Extended()
      ensures error == None || error == Some(DeployFailed)
      ensures environments == old(environments)[envID := status] && status.id == envID
      ensures status.Value() == Created(name, namespace, prNumber, expiresAt, error.None?, "deployment failed", now)
      ensures envs == old(envs)[envID := status.Value()]
      ensures workload.namespace == namespace
      ensures driver.calls == old(driver.calls) + [Deployed(old(workload.name), namespace, error.None?)]
      ensures driver.live == old(driver.live) + {old(workload.name)} || (error.Some? && driver.live == old(driver.live))
    {
      ghost var before := envs;
      status := new EnvironmentStatus(envID, name, namespace, prNumber, expiresAt);
      environments := environments[envID := status];
      repr := repr + {status};
      assert Extended();
      error := DeployInto(status, workload, now);
      assert envs == before;
      Sync(status);
    }

    /** Deploys the workload into the environment's namespace and records the answer. */
    method DeployInto(status: EnvironmentStatus, workload: Workload, now: int) returns (error: Option<Error>)
      requires status.phase.Creating? && status.terminationReason == "" && status.terminatedAt.None?
      modifies driver, workload, status
      ensures error == None || error == Some(DeployFailed)
      ensures status.Value() == Created(status.name, status.namespace, status.prNumber, status.expiresAt,
                                        error.None?, "deployment failed", now)
      ensures workload.namespace == status.namespace
      ensures driver.calls == old(driver.calls) + [Deployed(old(workload.name), status.namespace, error.None?)]
      ensures driver.live == old(driver.live) + {old(workload.name)} || (error.Some? && driver.live == old(driver.live))
    {
      workload.namespace := status.namespace;
      var ok := driver.Deploy(workload);
      error := if ok then None else Some(DeployFailed);
      status.Answered(ok, now);
    }

    method TeardownEnvironment(envID: string, reason: string, now: int) returns (error: Option<Error>)
      requires Valid()
      modifies repr
      ensures Valid() && repr == old(repr) && environments == old(environments)
      ensures error == Some(NotFound) <==> envID !in old(envs)
      ensures error.Some? ==> error == Some(NotFound) || error == Some(DestroyFailed)
      ensures error == Some(DestroyFailed) ==> !old(envs)[envID].phase.Terminated?
      ensures envID in old(envs) && old(envs)[envID].phase != Terminated ==>
        var e := old(envs)[envID];
        envs == old(envs)[envID :=
          if error.None? then Env(e.name, e.namespace, e.prNumber, e.expiresAt, Terminated, reason, Some(now))
          else Env(e.name, e.namespace, e.prNumber, e.expiresAt, Terminating, e.reason, e.terminatedAt)]
      ensures envID !in old(envs) || old(envs)[envID].phase == Terminated ==> envs == old(envs)
      ensures Step(Teardown(envID, error.None?, reason, now), old(envs), envs)
      ensures Grows(old(envs), envs) && (envID in envs ==> Going(envs, envID))
      ensures if envID in old(envs) && !old(envs)[envID].phase.Terminated?
              then && driver.calls == old(driver.calls) + [Destroyed(old(envs)[envID].name, error.None?)]
                   && (driver.live == old(driver.live) - {old(envs)[envID].name}
                       || (error.Some? && driver.live == old(driver.live)))
              else driver.calls == old(driver.calls) && driver.live == old(driver.live)
    {
      ghost var before := envs;
      if envID !in environments {
        return Some(NotFound);
      }
      var status := environments[envID];
      if status.phase.Terminated? {
        return None;
      }
      status.phase := Terminating;
      var ok := driver.Destroy(status.name);
      if !ok {
        Sync(status);
        StepGrows(Teardown(envID, false, reason, now), before, envs);
        return Some(DestroyFailed);
      }
      status.Terminate(reason, now);
      Sync(status);
      StepGrows(Teardown(envID, true, reason, now), before, envs);
      return None;
    }

    /** `failed` are the environments whose destroy was refused, `sent` the calls made. */
    method CleanupExpiredEnvironments(now: int) returns (ghost failed: set<string>, ghost sent: seq<Call>)
      requires Valid()
      modifies repr
      ensures Valid() && repr == old(repr) && environments == old(environments)
      ensures envs.Keys == old(envs).Keys
      ensures forall id <- old(envs) :: var e := old(envs)[id];
        envs[id] == if e.phase == Ready && now > e.expiresAt
                    then Env(e.name, e.namespace, e.prNumber, e.expiresAt, Terminated,
                             if id in failed then "cleanup failed" else "TTL expired", Some(now))
                    else e
      ensures forall id <- old(envs) | old(envs)[id].phase == Ready && now > old(envs)[id].expiresAt ::
        Destroyed(old(envs)[id].name, id !in failed) in sent
      ensures |sent| == |set id <- old(envs) | old(envs)[id].phase == Ready && now > old(envs)[id].expiresAt|
      ensures Step(Sweep(now, failed), old(envs), envs)
      ensures Called(sent) && SweepCalls(old(envs), now, failed, {}, sent)
    {
      failed, sent := {}, [];
      ghost var before := envs;
      var todo := environments.Keys;
      SweepStart(before, now);
      while todo != {}
        invariant todo <= environments.Keys
        invariant Valid() && repr == old(repr) && environments == old(environments)
        invariant Called(sent)
        invariant SweptSoFar(before, envs, now, failed, todo) && SweepCalls(before, now, failed, todo, sent)
      {
        var id :| id in todo;
        ghost var more, live := [], driver.live;
        failed, more := SweepNext(before, failed, todo, sent, id, now);
        Regroup(old(driver.calls), sent, more);
        OnlyCalledMore(old(driver.live), live, driver.live, sent, more);
        sent := sent + more;
        todo := todo - {id};
      }
      SweepDone(before, envs, now, failed);
      SweepMeaning(before, envs, now, failed, sent);
    }

    method SweepNext(ghost before: Envs, ghost failed: set<string>, ghost todo: set<string>, ghost sent: seq<Call>,
                     id: string, now: int)
      returns (ghost failed': set<string>, ghost more: seq<Call>)
      requires Valid() && id in environments && id in todo
      requires SweptSoFar(before, envs, now, failed, todo) && SweepCalls(before, now, failed, todo, sent)
      modifies repr
      ensures Valid() && repr == old(repr) && environments == old(environments)
      ensures Called(more)
      ensures SweptSoFar(before, envs, now, failed', todo - {id})
      ensures SweepCalls(before, now, failed', todo - {id}, sent + more)
    {
      failed', more := failed, [];
      assert sent + more == sent;
      var env := environments[id];
      ghost var mid := envs;
      if env.phase.Ready? && now > env.expiresAt {
        var ok := Expire(env, now);
        SweepMore(before, mid, now, failed, todo, id, ok);
        SweepCallsMore(before, now, failed, todo, sent, id, ok);
        failed' := if ok then failed else failed + {id};
        more := [Destroyed(env.name, ok)];
      } else {
        SweepSkip(before, mid, now, failed, todo, sent, id);
      }
    }

    /** The cleanup of one expired environment: Terminated whether or not the destroy worked. */
    method Expire(env: EnvironmentStatus, now: int) returns (ok: bool)
      requires Valid() && env.id in environments && environments[env.id] == env
      modifies repr
      ensures Valid() && repr == old(repr) && environments == old(environments)
      ensures envs == old(envs)[env.id := Ended(old(envs)[env.id], if ok then "TTL expired" else "cleanup failed", now)]
      ensures Called([Destroyed(env.name, ok)])
    {
      env.phase := Terminating;
      ok := driver.Destroy(env.name);
      env.Terminate(if ok then "TTL expired" else "cleanup failed", now);
      Sync(env);
    }

    // -------------------------------------------------------------------------------------
    // Pull request events

    /** The next part of the script, of any length: operations of the manager's, asked for by others. */
    method Others(script: seq<Request>, pos: nat) returns (pos': nat, ghost sent: seq<Call>)
      requires Valid() && pos <= |script|
      modifies repr
      ensures Valid() && Extended() && pos <= pos' <= |script|
      ensures Called(sent) && Interfered(old(envs), envs, sent, script)
    {
      pos', sent := pos, [];
      var end: nat := *;
      while pos' < end && pos' < |script|
        invariant Valid() && Extended() && pos <= pos' <= |script|
        invariant Called(sent) && Interfered(old(envs), envs, sent, script)
      {
        ghost var mid, live, more := envs, driver.live, [];
        more := Serve(script[pos'], script);
        OnlyCalledMore(old(driver.live), live, driver.live, sent, more);
        InterferedMore(old(envs), mid, envs, sent, more, script);
        Regroup(old(driver.calls), sent, more);
        sent := sent + more;
        pos' := pos' + 1;
      }
    }

    /** One request of the script. Creations use fresh ids. */
    method Serve(r: Request, ghost script: seq<Request>) returns (ghost sent: seq<Call>)
      requires Valid() && r in script
      modifies repr
      ensures Valid() && Extended()
      ensures Called(sent) && Interfered(old(envs), envs, sent, script)
    {
      match r
      case Creates(_, _, _, _, _) => sent := ServeCreation(r, script);
      case TearsDown(id, reason, now) =>
        ghost var before := envs;
        var error := TeardownEnvironment(id, reason, now);
        sent := if id in before && !before[id].phase.Terminated? then [Destroyed(before[id].name, error.None?)] else [];
        TeardownInterferes(r, script, before, envs, error.None?, sent);
      case Sweeps(now) =>
        ghost var before, failed := envs, {};
        failed, sent := CleanupExpiredEnvironments(now);
        SweepInterferes(r, script, before, envs, failed, sent);
    }

    method ServeCreation(r: Request, ghost script: seq<Request>) returns (ghost sent: seq<Call>)
      requires Valid() && r in script && r.Creates?
      modifies repr
      ensures Valid() && Extended()
      ensures Called(sent) && Interfered(old(envs), envs, sent, script)
    {
      sent := [];
      if EnvironmentID(r.idNanos) !in environments {
        ghost var before, active := envs, |Active(envs)|;
        var workload := new Workload(r.workload);
        var status, error := CreateEnvironment(r.spec, workload, r.nameNanos, r.idNanos, r.now);
        if Refusal(r.spec, active).None? {
          sent := [Deployed(r.workload, workload.namespace, error.None?)];
          CreationInterferes(r, script, before, envs, envs[EnvironmentID(r.idNanos)], sent);
        }
      }
    }

    /**
     HandlePRMerge and HandlePRClose differ only in the reason they pass. The loop ranges over the
     live map: every environment present at the start is visited once, and those added meanwhile
     may be (at most `extra` visits).
     */
    method TeardownForPR(prNumber: int, reason: string, now: int, script: seq<Request>)
      returns (error: Option<Error>, ghost sent: seq<Call>, ghost owners: Owners)
      requires Valid()
      modifies repr
      ensures Valid() && Extended() && Called(sent) && |sent| == |owners|
      ensures Handled(old(envs), envs, if error.None? then {} else old(envs).Keys, prNumber)
      ensures envs.Keys <= old(envs).Keys + NewIds(script)
      ensures Accounted(old(envs), envs, sent, owners, script, prNumber)
      ensures Exactly(old(envs), envs, sent, owners, script, reason)
      ensures error.None? ==> Failures(sent, owners) == 0 && Covered(old(envs), owners, script, {}, prNumber)
      ensures error.Some? ==> Failures(sent, owners) == 1 && error.value == DestroyFailed
    {
      sent, owners := [], [];
      ghost var before := envs;
      var start := environments.Keys;
      var todo := start;
      var extra, pos: nat := *, 0;
      while todo != {} || extra > 0
        invariant Valid() && Extended() && Called(sent) && pos <= |script|
        invariant Reached(before, envs, sent, owners, script, todo, prNumber, reason, false)
        decreases |todo| + extra
      {
        ghost var more, mine, live := [], [], driver.live;
        todo, extra, pos, error, more, mine :=
          VisitNext(before, sent, owners, start, todo, extra, pos, prNumber, reason, now, script);
        Regroup(old(driver.calls), sent, more);
        OnlyCalledMore(old(driver.live), live, driver.live, sent, more);
        sent, owners := sent + more, owners + mine;
        if error.Some? {
          return;
        }
      }
      return None, sent, owners;
    }

    method VisitNext(ghost before: Envs, ghost sent: seq<Call>, ghost owners: Owners, start: set<string>,
                     todo: set<string>, extra: nat, pos: nat, prNumber: int, reason: string, now: int,
                     script: seq<Request>)
      returns (todo': set<string>, extra': nat, pos': nat, error: Option<Error>, ghost more: seq<Call>,
               ghost mine: Owners)
      requires Valid() && AllSettled(before)
      requires Reached(before, envs, sent, owners, script, todo, prNumber, reason, false)
      requires start == before.Keys && (todo != {} || extra > 0) && pos <= |script|
      modifies repr
      ensures Valid() && Extended() && Called(more) && pos' <= |script|
      ensures |todo'| + extra' < |todo| + extra
      ensures Reached(before, envs, sent + more, owners + mine, script, todo', prNumber, reason, error.Some?)
      ensures error.Some? ==> error.value == DestroyFailed
    {
      todo', extra', pos', error, more, mine := todo, extra, pos, None, [], [];
      var id: string := *;
      var late: bool := *;
      if extra > 0 && (todo == {} || late) {
        extra' := extra - 1;
        if id !in environments || id in start {
          NothingMore(sent);
          NothingMore(owners);
          return;
        }
      } else {
        id :| id in todo;
        todo' := todo - {id};
        SmallerWithout(todo, id);
        assert id in before && id in envs;
      }
      ghost var mid, v := envs, Visit([], [], []);
      error, pos', v := VisitForPR(id, prNumber, reason, now, script, pos);
      more, mine := v.Calls(), v.Owners(id);
      ProgressStep(before, mid, envs, sent, owners, v, script, todo, todo', id, prNumber, reason, error.Some?);
    }

    /** One iteration: the check under the read lock, and the teardown with the lock released. */
    method VisitForPR(id: string, prNumber: int, reason: string, now: int, script: seq<Request>, pos: nat)
      returns (error: Option<Error>, pos': nat, ghost v: Visit)
      requires Valid() && id in environments && pos <= |script|
      modifies repr
      ensures Valid() && Extended() && Called(v.Calls()) && pos' <= |script|
      ensures Visited(old(envs), envs, v, script, id, prNumber, reason, error.Some?)
      ensures error.Some? ==> error.value == DestroyFailed
    {
      error, pos', v := None, pos, Visit([], [], []);
      var env := environments[id];
      if env.prNumber == prNumber && env.phase.Ready? {
        error, pos', v := TeardownUnlocked(id, prNumber, reason, now, script, pos);
      }
    }

    /** A teardown of a known environment, and the call it makes. */
    method TeardownKnown(id: string, reason: string, now: int) returns (error: Option<Error>, ghost own: seq<Call>)
      requires Valid() && id in envs
      modifies repr
      ensures Valid() && repr == old(repr) && Called(own)
      ensures Step(Teardown(id, error.None?, reason, now), old(envs), envs) && Going(envs, id)
      ensures own == if old(envs)[id].phase.Terminated? then [] else [Destroyed(old(envs)[id].name, error.None?)]
      ensures error.Some? ==> error.value == DestroyFailed && own != []
    {
      error := TeardownEnvironment(id, reason, now);
      own := if old(envs)[id].phase.Terminated? then [] else [Destroyed(old(envs)[id].name, error.None?)];
      NothingMore(old(driver.calls));
    }

    /** One teardown with the lock released before and after it. */
    method TeardownUnlocked(id: string, ghost prNumber: int, reason: string, now: int, script: seq<Request>, pos: nat)
      returns (error: Option<Error>, pos': nat, ghost v: Visit)
      requires Valid() && id in envs && IsTarget(envs[id], prNumber) && pos <= |script|
      modifies repr
      ensures Valid() && Extended() && Called(v.Calls()) && pos' <= |script|
      ensures Visited(old(envs), envs, v, script, id, prNumber, reason, error.Some?)
      ensures error.Some? ==> error.value == DestroyFailed
    {
      ghost var earlier, own, later, calls0, live0 := [], [], [], driver.calls, driver.live;
      pos', earlier := Others(script, pos);
      ghost var mid, calls1, live1 := envs, driver.calls, driver.live;
      var delay: nat := *;
      var at := now + delay;
      error, own := TeardownKnown(id, reason, at);
      ghost var after, calls2, live2 := envs, driver.calls, driver.live;
      pos', later := Others(script, pos');
      v := Visit(earlier, own, later);
      TeardownVisits(old(envs), mid, after, envs, v, script, id, prNumber, error.None?, reason, at);
      CallsOfVisit(calls0, calls1, calls2, driver.calls, live0, live1, live2, driver.live, v);
    }

    /**
     On success every environment of the pull request is on its way out, whatever the script did
     meanwhile, and each Ready one that the script leaves alone was destroyed. On failure exactly one
     of the handler's calls failed. Either way, of the environments that the script leaves alone, one
     that the handler destroyed has ended for this reason, or is Terminating if that destroy failed,
     and all others are as they were; and every call is the script's or the only destroy of a target.
     */
    method HandlePRMerge(prNumber: int, now: int, script: seq<Request>)
      returns (error: Option<Error>, ghost sent: seq<Call>, ghost owners: Owners)
      requires Valid()
      modifies repr
      ensures Valid() && Extended() && Called(sent) && |sent| == |owners|
      ensures Grows(old(envs), envs) && envs.Keys <= old(envs).Keys + NewIds(script)
      ensures error.None? ==> forall id <- old(envs) :: old(envs)[id].prNumber == prNumber ==>
        id in envs && envs[id].phase in {Terminating, Terminated}
      ensures error.None? ==> forall id <- old(envs) ::
        old(envs)[id].prNumber == prNumber && LeftAlone(script, id, old(envs)[id])
        ==> (envs[id].phase.Terminated? <==> !old(envs)[id].phase.Terminating?)
      ensures error.None? ==> forall id <- old(envs) |
        && old(envs)[id].prNumber == prNumber && old(envs)[id].phase == Ready
        && (forall r <- script :: (r.TearsDown? ==> r.id != id) && (r.Sweeps? ==> r.now <= old(envs)[id].expiresAt)) ::
          envs[id].phase == Terminated && envs[id].reason == "PR merged" && envs[id].terminatedAt.Some?
      ensures forall id <- old(envs) |
        && (old(envs)[id].prNumber != prNumber || old(envs)[id].phase != Ready)
        && (forall r <- script :: (r.TearsDown? ==> r.id != id) && (r.Sweeps? ==> r.now <= old(envs)[id].expiresAt)) ::
          envs[id] == old(envs)[id]
      ensures |set i | 0 <= i < |sent| && owners[i].Some? && !sent[i].ok| == if error.Some? then 1 else 0
      ensures Accounted(old(envs), envs, sent, owners, script, prNumber)
      ensures Exactly(old(envs), envs, sent, owners, script, "PR merged")
      ensures error.None? ==> Failures(sent, owners) == 0 && Covered(old(envs), owners, script, {}, prNumber)
      ensures error.Some? ==> Failures(sent, owners) == 1 && error.value == DestroyFailed
    {
      error, sent, owners := TeardownForPR(prNumber, "PR merged", now, script);
      if error.None? {
        TerminatedIff(old(envs), envs, sent, owners, script, prNumber, "PR merged");
      }
      FailuresMeaning(sent, owners);
      FatesMeaning(old(envs), envs, sent, owners, script, prNumber, "PR merged", error.Some?);
    }

    method HandlePRClose(prNumber: int, now: int, script: seq<Request>)
      returns (error: Option<Error>, ghost sent: seq<Call>, ghost owners: Owners)
      requires Valid()
      modifies repr
      ensures Valid() && Extended() && Called(sent) && |sent| == |owners|
      ensures Grows(old(envs), envs) && envs.Keys <= old(envs).Keys + NewIds(script)
      ensures error.None? ==> forall id <- old(envs) :: old(envs)[id].prNumber == prNumber ==>
        id in envs && envs[id].phase in {Terminating, Terminated}
      ensures error.None? ==> forall id <- old(envs) ::
        old(envs)[id].prNumber == prNumber && LeftAlone(script, id, old(envs)[id])
        ==> (envs[id].phase.Terminated? <==> !old(envs)[id].phase.Terminating?)
      ensures error.None? ==> forall id <- old(envs) |
        && old(envs)[id].prNumber == prNumber && old(envs)[id].phase == Ready
        && (forall r <- script :: (r.TearsDown? ==> r.id != id) && (r.Sweeps? ==> r.now <= old(envs)[id].expiresAt)) ::
          envs[id].phase == Terminated && envs[id].reason == "PR closed" && envs[id].terminatedAt.Some?
      ensures forall id <- old(envs) |
        && (old(envs)[id].prNumber != prNumber || old(envs)[id].phase != Ready)
        && (forall r <- script :: (r.TearsDown? ==> r.id != id) && (r.Sweeps? ==> r.now <= old(envs)[id].expiresAt)) ::
          envs[id] == old(envs)[id]
      ensures |set i | 0 <= i < |sent| && owners[i].Some? && !sent[i].ok| == if error.Some? then 1 else 0
      ensures Accounted(old(envs), envs, sent, owners, script, prNumber)
      ensures Exactly(old(envs), envs, sent, owners, script, "PR closed")
      ensures error.None? ==> Failures(sent, owners) == 0 && Covered(old(envs), owners, script, {}, prNumber)
      ensures error.Some? ==> Failures(sent, owners) == 1 && error.value == DestroyFailed
    {
      error, sent, owners := TeardownForPR(prNumber, "PR closed", now, script);
      if error.None? {
        TerminatedIff(old(envs), envs, sent, owners, script, prNumber, "PR closed");
      }
      FailuresMeaning(sent, owners);
      FatesMeaning(old(envs), envs, sent, owners, script, prNumber, "PR closed", error.Some?);
    }
  }

  // -------------------------------------------------------------------------------------
  // What the contracts come to on the backend

  /**
   A creation and its teardown, both successful. The deployment is under the workload's name and the
   destroy under the environment's. The backend is as it was exactly when nothing ran under the
   environment's name, and the workload's name is the same or was running already. When the names
   differ, the workload keeps running, and whatever ran under the environment's name is gone.
   */
  method CreateThenTeardown(manager: Manager, spec: EnvSpec, workload: Workload, nameNanos: nat, idNanos: nat, now: int,
                            reason: string, later: int)
    returns (created: Option<Error>, torn: Option<Error>)
    requires manager.Valid() && workload !in manager.repr
    modifies manager.repr, workload
    ensures manager.Valid()
    ensures created.None? && torn.None? ==>
      var name, environment, live := old(workload.name), EnvironmentName(spec, nameNanos), old(manager.driver.live);
      && manager.driver.live == live + {name} - {environment}
      && (manager.driver.live == live <==> environment !in live && (name == environment || name in live))
      && (name != environment ==> name in manager.driver.live && environment !in manager.driver.live)
  {
    var status;
    status, created := manager.CreateEnvironment(spec, workload, nameNanos, idNanos, now);
    torn := None;
    if created.None? {
      torn := manager.TeardownEnvironment(EnvironmentID(idNanos), reason, later);
    }
  }

  /** For pull request 7 and a workload "api": "api" keeps running, and anybody's "pr-7" is destroyed. */
  method ApiOutlivesItsEnvironment(manager: Manager, nameNanos: nat, idNanos: nat, now: int, reason: string, later: int)
    returns (created: Option<Error>, torn: Option<Error>)
    requires manager.Valid() && "api" !in manager.driver.live && "pr-7" in manager.driver.live
    modifies manager.repr
    ensures created.None? && torn.None? ==>
      manager.driver.live == old(manager.driver.live) + {"api"} - {"pr-7"}
      && "api" in manager.driver.live && "pr-7" !in manager.driver.live
  {
    var workload := new Workload("api");
    var spec := EnvSpec(true, 0, "", 7, "", Some(1));
    assert Decimal(7) == "7" && EnvironmentName(spec, nameNanos) == "pr-7";
    assert "api"[0] != "pr-7"[0];
    created, torn := CreateThenTeardown(manager, spec, workload, nameNanos, idNanos, now, reason, later);
  }

  /** With nothing Ready for the pull request and nobody else around, a merge does nothing. */
  method MergeWithoutTargets(manager: Manager, prNumber: int, now: int) returns (merged: Option<Error>)
    requires manager.Valid() && forall id <- manager.envs :: !IsTarget(manager.envs[id], prNumber)
    modifies manager.repr
    ensures manager.Valid() && manager.Extended() && merged.None?
    ensures manager.envs == old(manager.envs)
    ensures manager.driver.calls == old(manager.driver.calls) && manager.driver.live == old(manager.driver.live)
  {
    ghost var before, calls, sent, owners := manager.envs, manager.driver.calls, [], [];
    merged, sent, owners := manager.HandlePRMerge(prNumber, now, []);
    NothingToDo(before, manager.envs, sent, owners, prNumber, "PR merged");
    assert calls + [] == calls;
  }

  /**
   Success that does not mean Terminated: after a teardown that failed, the handler of the merge
   returns nil without a call to the backend, and the environment stays Terminating.
   */
  method FailedTeardownIsNotRetried(manager: Manager, id: string, reason: string, now: int, later: int)
    returns (torn: Option<Error>, merged: Option<Error>)
    requires manager.Valid() && manager.envs.Keys == {id} && manager.envs[id].phase.Ready?
    modifies manager.repr
    ensures torn.Some? ==>
      && merged.None?
      && id in manager.envs && manager.envs[id].phase.Terminating?
      && manager.driver.calls == old(manager.driver.calls) + [Destroyed(old(manager.envs)[id].name, false)]
  {
    ghost var before := manager.envs;
    torn := manager.TeardownEnvironment(id, reason, now);
    merged := None;
    if torn.Some? {
      assert manager.envs == before[id := TornDown(before[id], false, reason, now)];
      merged := MergeWithoutTargets(manager, manager.environments[id].prNumber, later);
    }
  }

  /**
   A deployment that fails after taking effect leaks: its environment is Terminated, and neither a
   teardown nor the cleanup nor the merge of its pull request makes a call for it. What `running` is
   right after the creation stays so, with the workload in it if the deployment took effect.
   */
  method FailedDeploymentLeaks(manager: Manager, spec: EnvSpec, workload: Workload, nameNanos: nat, idNanos: nat,
                               now: int, reason: string, later: int)
    returns (created: Option<Error>, ghost running: set<string>)
    requires manager.Valid() && manager.envs == map[] && workload !in manager.repr
    modifies manager.repr, workload
    ensures created == Some(DeployFailed) ==>
      && (running == old(manager.driver.live) || running == old(manager.driver.live) + {old(workload.name)})
      && manager.driver.live == running
      && manager.driver.calls == old(manager.driver.calls)
           + [Deployed(old(workload.name), NamespaceOf(spec, EnvironmentName(spec, nameNanos)), false)]
  {
    var status;
    status, created := manager.CreateEnvironment(spec, workload, nameNanos, idNanos, now);
    running := manager.driver.live;
    if created == Some(DeployFailed) {
      TeardownAll(manager, spec.prNumber, EnvironmentID(idNanos), reason, later);
    }
  }

  /** Every operation that destroys, on a manager whose only environment is Terminated: none makes a call. */
  method TeardownAll(manager: Manager, prNumber: int, id: string, reason: string, now: int)
    requires manager.Valid() && manager.envs.Keys == {id} && manager.envs[id].phase.Terminated?
    modifies manager.repr
    ensures manager.Valid() && manager.envs == old(manager.envs)
    ensures manager.driver.calls == old(manager.driver.calls) && manager.driver.live == old(manager.driver.live)
  {
    ghost var before, calls := manager.envs, manager.driver.calls;
    var torn := manager.TeardownEnvironment(id, reason, now);
    ghost var failed, sent := manager.CleanupExpiredEnvironments(now);
    assert ExpiredIds(before, now) == {};
    assert sent == [] && calls + [] == calls && Swept(before, now, failed) == before;
    var merged := MergeWithoutTargets(manager, prNumber, now);
  }
}
