/**
 What the results of the migration protocol say, written out: names, fields and calls, without the
 protocol's own vocabulary.
 */
module MigrationMeaning {
  import opened Text
  import opened WorkloadSpecs
  import opened Migration

  lemma ShadowName(req: Request)
    ensures ShadowOf(req) == req.workloadID + "-migrating"
  {
  }

  /** On no backend does anything change but the workload, and on the target its shadow if one is asked for. */
  lemma {:induction false} FrameMeaning(w0: World, calls: seq<Call>, req: Request, source: string, b: string,
                                        name: string)
    requires Sound(w0, calls, req, source) && b in w0.stores
    requires b == source ==> name != req.workloadID
    requires b == req.targetBackend ==>
      name != req.workloadID && (req.zeroDowntime ==> name != req.workloadID + "-migrating")
    ensures var store := Replay(w0, calls).stores[b];
      && (name in store <==> name in w0.stores[b])
      && (name in store ==> store[name] == w0.stores[b][name])
  {
    var store, gone := Replay(w0, calls).stores[b], Footprint(req, source, b);
    assert name !in gone;
    assert name in store - gone <==> name in w0.stores[b] - gone;
    assert name in store ==> (store - gone)[name] == (w0.stores[b] - gone)[name];
  }

  /** At every moment the source has the workload, or the target has a copy of it that was seen ready. */
  lemma {:induction false} AvailableMeaning(w0: World, calls: seq<Call>, req: Request, source: string, k: nat)
    requires Sound(w0, calls, req, source) && req.workloadID in w0.stores[source] && k <= |calls|
    ensures var w := Replay(w0, calls[..k]);
      || req.workloadID in w.stores[source]
      || (req.workloadID in w.stores[req.targetBackend] && (req.targetBackend, req.workloadID) in w.confirmed)
  {
    assert Available(Replay(w0, calls[..k]), source, req.targetBackend, req.workloadID);
  }

  /**
   Seen ready: some call asked about this very copy, and the answer showed as many replicas ready as
   the copy has and at least one, or the state Running.
   */
  lemma {:induction false} ConfirmedMeaning(w0: World, calls: seq<Call>, b: string, name: string) returns (k: nat)
    requires (b, name) in Replay(w0, calls).confirmed && (b, name) !in w0.confirmed
    ensures k < |calls| && calls[k].StatusCall? && calls[k].backend == b && calls[k].name == name
    ensures b in w0.stores && calls[k].status.Some?
    ensures var before, after := Replay(w0, calls[..k]).stores[b], Replay(w0, calls).stores[b];
      && name in before && name in after && after[name] == before[name]
      && var st, replicas := calls[k].status.value, before[name].replicas;
         || (st.readyReplicas >= 1 && st.readyReplicas >= replicas)
         || (st.readyReplicas == 0 && st.ready >= 1 && st.ready >= replicas)
         || ToLower(st.state) == "running"
  {
    var n := |calls| - 1;
    if (b, name) in Replay(w0, calls[..n]).confirmed {
      k := ConfirmedMeaning(w0, calls[..n], b, name);
      assert calls[..n][..k] == calls[..k];
    } else {
      k := n;
      ShowsReadyIff(calls[n].status.value, Replay(w0, calls[..n]).stores[b][name].replicas);
    }
  }

  lemma {:induction false} FaultlessMeaning(calls: seq<Call>)
    ensures Faultless(calls) <==>
      forall k | 0 <= k < |calls| :: (calls[k].DeployCall? && calls[k].took ==> calls[k].ok)
                                     && (calls[k].DestroyCall? ==> calls[k].ok)
  {
    if Faultless(calls) {
      assert forall k | 0 <= k < |calls| :: calls[k] in calls;
    }
  }

  /** A completed migration: gone from the source, on the target as specified, and no shadow left. */
  lemma {:induction false} CompletedMeaning(w0: World, calls: seq<Call>, w: World, req: Request, source: string,
                                            copy: Deployed, shadow: Deployed, name: string)
    requires source in w0.stores && req.targetBackend in w0.stores && w.stores.Keys == w0.stores.Keys
    requires Exit(w0, calls, w, req, source, copy, shadow, Completed)
    ensures req.workloadID !in w.stores[source]
    ensures name != req.workloadID ==>
      && (name in w.stores[source] <==> name in w0.stores[source])
      && (name in w.stores[source] ==> w.stores[source][name] == w0.stores[source][name])
    ensures req.workloadID in w.stores[req.targetBackend] && w.stores[req.targetBackend][req.workloadID] == copy
    ensures req.zeroDowntime && Faultless(calls) ==> req.workloadID + "-migrating" !in w.stores[req.targetBackend]
  {
  }

  /** A source that could not be destroyed: the copy and the shadow stay on the target as they were deployed. */
  lemma {:induction false} UncompensatedMeaning(w0: World, calls: seq<Call>, w: World, req: Request, source: string,
                                                copy: Deployed, shadow: Deployed)
    requires source in w0.stores && req.targetBackend in w0.stores && w.stores.Keys == w0.stores.Keys
    requires Exit(w0, calls, w, req, source, copy, shadow, Failed(SourceDestroyFailed))
    ensures var n := |calls| - 1;
      n >= 0 && calls[n].DestroyCall? && !calls[n].ok && calls[n].backend == source && calls[n].name == req.workloadID
    ensures req.workloadID in w.stores[req.targetBackend] && w.stores[req.targetBackend][req.workloadID] == copy
    ensures req.zeroDowntime ==>
      var name := req.workloadID + "-migrating";
      name in w.stores[req.targetBackend] && w.stores[req.targetBackend][name] == shadow
  {
    ShadowName(req);
  }

  /** A rollback without faults takes away from the target exactly what was deployed before the failure. */
  lemma {:induction false} RolledBackMeaning(w0: World, calls: seq<Call>, w: World, req: Request, source: string,
                                             copy: Deployed, shadow: Deployed, f: Failure, b: string, name: string)
    requires source in w0.stores && req.targetBackend in w0.stores && w.stores.Keys == w0.stores.Keys
    requires Exit(w0, calls, w, req, source, copy, shadow, Failed(f)) && RollsBack(req, f) && Faultless(calls)
    requires b in w0.stores
    ensures var shadowed := req.zeroDowntime && name == req.workloadID + "-migrating";
      var taken := b == req.targetBackend && match f
        case ShadowNotReady(_) => shadowed
        case DeployFailed => shadowed
        case NotReady(_) => shadowed || name == req.workloadID
        case _ => false;
      && (name in w.stores[b] <==> name in w0.stores[b] && !taken)
      && (name in w.stores[b] ==> w.stores[b][name] == w0.stores[b][name])
  {
    ShadowName(req);
  }

  /** The copies: under their names on the target, and otherwise as specified but for what placing drivers rewrite. */
  lemma {:induction false} CopyMeaning(req: Request, build: Build, spec: Deployed, places: bool)
    ensures var copy, shadow := RealCopy(req, build, spec, places), ShadowCopy(req, build, spec, places);
      && copy.name == req.workloadID && shadow.name == req.workloadID + "-migrating"
      && (forall d <- {copy, shadow} ::
            && d.backend == req.targetBackend && d.namespace == spec.namespace && d.image == spec.image
            && d.replicas == spec.replicas && d.env == spec.env)
      && (!places ==> copy.scheduling == spec.scheduling && shadow.scheduling == spec.scheduling)
  {
  }

  /** A specification made up from the source's answer wants at least one replica. */
  lemma {:induction false} DerivedMeaning(req: Request, source: string, st: Status)
    ensures var d := DerivedSpec(req, source, st);
      && d.name == req.workloadID && d.image == st.image && d.backend == source
      && d.env == None && d.scheduling == None
      && d.replicas >= 1 && d.replicas >= st.replicas && (d.replicas == 1 || d.replicas == st.replicas)
      && d.namespace == TrimSpace(if TrimSpace(req.namespace) == "" then st.namespace else req.namespace)
  {
  }

  /** Which requests are refused, the first reason that applies. */
  lemma {:induction false} RefusalMeaning(req: Request, source: string, backends: set<string>)
    ensures var r := Refusal(req, source, backends);
      var blank := TrimSpace(req.workloadID) == "" || TrimSpace(req.targetBackend) == "";
      && (r == Some(InvalidRequest) <==> blank)
      && (r == Some(SameBackend) <==> !blank && source == req.targetBackend)
      && (r == Some(NoSourceDriver) <==> !blank && source != req.targetBackend && source !in backends)
      && (r == Some(NoTargetDriver) <==>
            !blank && source != req.targetBackend && source in backends && req.targetBackend !in backends)
      && (r == None <==> !blank && source != req.targetBackend && source in backends && req.targetBackend in backends)
  {
  }

  /** What a failure rests on, call by call. */
  lemma {:induction false} WarrantedMeaning(calls: seq<Call>, f: Failure, elapsed: int, timeout: int)
    requires Warranted(calls, f, elapsed, timeout)
    ensures f == ShadowDeployFailed || f == DeployFailed ==>
      exists k :: 0 <= k < |calls| && calls[k].DeployCall? && !calls[k].ok
    ensures f == SourceDestroyFailed ==> exists k :: 0 <= k < |calls| && calls[k].DestroyCall? && !calls[k].ok
    ensures f.ShadowNotReady? || f.NotReady? ==>
      && f.waited != Ready
      && (f.waited == TimedOut ==> elapsed > timeout)
      && (f.waited == StatusError ==> exists k :: 0 <= k < |calls| && calls[k].StatusCall? && calls[k].status == None)
  {
    match f
    case ShadowDeployFailed => var c :| c in calls && c.DeployCall? && !c.ok;
    case DeployFailed => var c :| c in calls && c.DeployCall? && !c.ok;
    case SourceDestroyFailed => var c :| c in calls && c.DestroyCall? && !c.ok;
    case _ =>
  }

  /** The bound on polls: one for every two seconds of the timeout, and one. */
  lemma PollBoundMeaning(timeout: int)
    ensures PollBound(timeout) == if timeout < 0 then 0 else timeout / 2_000_000_000 + 1
  {
  }

  /** Deployments of a migration on a placing target: one, or two with a shadow. */
  lemma AllPlacementsMeaning(fleet: Fleet, req: Request)
    ensures AllPlacements(fleet, req)
            == if req.targetBackend in fleet.placing then (if req.zeroDowntime then 2 else 1) else 0
  {
  }
}
