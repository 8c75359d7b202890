/**
 Draining a node: cordon it, then go over its pods. The cluster's answers are inputs: whether
 each API call succeeds, which pods are listed, and which deletions fail.
 */
module NodeDrain {
  import opened Text
  import opened HealthModel

  const DRAIN_KEY := "kranix.io/drain"
  const NO_SCHEDULE := "NoSchedule"

  datatype Taint = Taint(key: string, value: string, effect: string)
  datatype ConditionType = Ready | MemoryPressure | DiskPressure | PIDPressure | OtherCondition
  datatype Condition = Condition(kind: ConditionType, isTrue: bool)

  datatype NodeObject = NodeObject(unschedulable: bool, labels: map<string, string>, taints: seq<Taint>,
                                   conditions: seq<Condition>)

  datatype PodObject = PodObject(namespace: string, name: string, labels: map<string, string>, ownerKinds: seq<string>)

  datatype DrainRequest = DrainRequest(nodeName: string, reason: string, ignoreDaemonSets: bool)

  datatype Phase = Drained | Evicting | FailedPhase
  datatype DrainResult = DrainResult(phase: Phase, evicted: nat, remaining: nat)
  datatype DrainError = NameRequired | NodeUnavailable | CordonFailed | PodsUnavailable

  // ---------------------------------------------------------------------------------------
  // The node

  method AppendTaint(existing: seq<Taint>, taint: Taint) returns (taints: seq<Taint>)
    ensures taints == WithTaint(existing, taint)
  {
    for i := 0 to |existing|
      invariant forall t <- existing[..i] :: !(t.key == taint.key && t.effect == taint.effect)
    {
      if existing[i].key == taint.key && existing[i].effect == taint.effect {
        return existing;
      }
    }
    assert existing[..|existing|] == existing;
    return existing + [taint];
  }

  predicate HasTaint(taints: seq<Taint>, key: string, effect: string) {
    exists t <- taints :: t.key == key && t.effect == effect
  }

  function WithTaint(existing: seq<Taint>, taint: Taint): seq<Taint> {
    if HasTaint(existing, taint.key, taint.effect) then existing else existing + [taint]
  }

  function SpacesToDashes(s: string): string {
    seq(|s|, i requires 0 <= i < |s| => if s[i] == ' ' then '-' else s[i])
  }

  function DrainValue(reason: string): string {
    if reason == "" then "maintenance" else
    var v := SpacesToDashes(ToLower(TrimSpace(reason)));
    if |v| > 63 then v[..63] else v
  }

  /** What the cordon makes of a node. */
  function Cordoned(node: NodeObject, reason: string): NodeObject {
    node.(unschedulable := true,
          labels := node.labels[DRAIN_KEY := "true"],
          taints := WithTaint(node.taints, Taint(DRAIN_KEY, DrainValue(reason), NO_SCHEDULE)))
  }

  /** On the fields: what a cordon marks, and that it keeps every other label, taint and condition. */
  lemma CordonMeaning(node: NodeObject, reason: string)
    ensures var c := Cordoned(node, reason);
      && c.unschedulable && c.conditions == node.conditions
      && c.labels == node.labels["kranix.io/drain" := "true"]
      && c.taints == node.taints + (
           if exists t <- node.taints :: t.key == "kranix.io/drain" && t.effect == "NoSchedule" then []
           else [Taint("kranix.io/drain", DrainValue(reason), "NoSchedule")])
  {
    NothingMore(node.taints);
  }

  /** The taint's value: the trimmed reason in lower case with dashes for blanks, cut to 63 characters. */
  lemma DrainValueMeaning(reason: string)
    ensures reason == "" ==> DrainValue(reason) == "maintenance"
    ensures reason != "" ==>
      var v, lower := DrainValue(reason), ToLower(TrimSpace(reason));
      && |v| == (if |lower| > 63 then 63 else |lower|)
      && forall i :: 0 <= i < |v| ==> v[i] == if lower[i] == ' ' then '-' else lower[i]
  {
  }

  predicate NodeDraining(node: NodeObject) {
    (exists t <- node.taints :: t.key == DRAIN_KEY) || (DRAIN_KEY in node.labels && node.labels[DRAIN_KEY] == "true")
  }

  predicate HasCondition(conditions: seq<Condition>, kind: ConditionType) {
    exists c <- conditions :: c.isTrue && c.kind == kind
  }

  method ScoreNode(node: NodeObject) returns (score: int, ready: bool, draining: bool)
    ensures ready <==> HasCondition(node.conditions, Ready)
    ensures draining <==> NodeDraining(node)
    ensures score == NodeScore(node)
    ensures ready <==> exists c <- node.conditions :: c.kind == Ready && c.isTrue
    ensures draining <==>
      || (exists t <- node.taints :: t.key == "kranix.io/drain")
      || ("kranix.io/drain" in node.labels && node.labels["kranix.io/drain"] == "true")
  {
    ready := false;
    var memoryPressure, diskPressure, pidPressure := false, false, false;
    for i := 0 to |node.conditions|
      invariant ready <==> HasCondition(node.conditions[..i], Ready)
      invariant memoryPressure <==> HasCondition(node.conditions[..i], MemoryPressure)
      invariant diskPressure <==> HasCondition(node.conditions[..i], DiskPressure)
      invariant pidPressure <==> HasCondition(node.conditions[..i], PIDPressure)
    {
      var c := node.conditions[i];
      assert node.conditions[..i + 1] == node.conditions[..i] + [c];
      if !c.isTrue {
        continue;
      }
      match c.kind
      case Ready => ready := true;
      case MemoryPressure => memoryPressure := true;
      case DiskPressure => diskPressure := true;
      case PIDPressure => pidPressure := true;
      case OtherCondition =>
    }
    assert node.conditions[..|node.conditions|] == node.conditions;
    draining := NodeDraining(node);
    score := ScoreNodeReady(100, ready, memoryPressure, diskPressure, pidPressure, node.unschedulable, draining);
  }

  function NodeScore(node: NodeObject): int {
    ScoreNodeReady(100, HasCondition(node.conditions, Ready), HasCondition(node.conditions, MemoryPressure),
                   HasCondition(node.conditions, DiskPressure), HasCondition(node.conditions, PIDPressure),
                   node.unschedulable, NodeDraining(node))
  }

  /** In points: one hundred, less those for each condition, for cordoned and for draining, but not below zero. */
  lemma NodeScoreInPoints(node: NodeObject)
    ensures
      var exact := 100
        - (if exists c <- node.conditions :: c.kind == Ready && c.isTrue then 0 else 50)
        - (if exists c <- node.conditions :: c.kind == MemoryPressure && c.isTrue then 15 else 0)
        - (if exists c <- node.conditions :: c.kind == DiskPressure && c.isTrue then 15 else 0)
        - (if exists c <- node.conditions :: c.kind == PIDPressure && c.isTrue then 10 else 0)
        - (if node.unschedulable then 10 else 0) - (if NodeDraining(node) then 25 else 0);
      NodeScore(node) == if exact < 0 then 0 else exact
  {
    NodeScoreMeaning(100, HasCondition(node.conditions, Ready), HasCondition(node.conditions, MemoryPressure),
                     HasCondition(node.conditions, DiskPressure), HasCondition(node.conditions, PIDPressure),
                     node.unschedulable, NodeDraining(node));
  }

  /** A cordoned node reports draining and scores at most 65, whatever its conditions and earlier taints. */
  lemma CordonedNodeIsMarked(node: NodeObject, reason: string)
    ensures NodeDraining(Cordoned(node, reason))
    ensures NodeScore(Cordoned(node, reason)) <= 65
    ensures HasTaint(Cordoned(node, reason).taints, DRAIN_KEY, NO_SCHEDULE)
  {
    var taint := Taint(DRAIN_KEY, DrainValue(reason), NO_SCHEDULE);
    var taints := WithTaint(node.taints, taint);
    if !HasTaint(node.taints, DRAIN_KEY, NO_SCHEDULE) {
      assert taints[|taints| - 1] == taint;
    }
    ScoreDrainingCap(HasCondition(node.conditions, Ready), HasCondition(node.conditions, MemoryPressure),
                     HasCondition(node.conditions, DiskPressure), HasCondition(node.conditions, PIDPressure));
  }

  lemma ScoreDrainingCap(ready: bool, memory: bool, disk: bool, pid: bool)
    ensures ScoreNodeReady(100, ready, memory, disk, pid, true, true) <= 65
  {
    ClampMonotone(100.0 - (if ready then 0.0 else 50.0) - (if memory then 15.0 else 0.0)
                  - (if disk then 15.0 else 0.0) - (if pid then 10.0 else 0.0) - 10.0 - 25.0, 65.0);
    assert ClampScore(65.0) == 65;
  }

  /** Draining again, even for another reason, changes nothing on the node: the first reason stays. */
  lemma CordonIdempotent(node: NodeObject, reason: string, again: string)
    ensures Cordoned(Cordoned(node, reason), again) == Cordoned(node, reason)
  {
    CordonedNodeIsMarked(node, reason);
    var labels := node.labels[DRAIN_KEY := "true"];
    assert labels[DRAIN_KEY := "true"] == labels;
  }

  // ---------------------------------------------------------------------------------------
  // The pods

  datatype Fate = Evicted | Remains | Skipped

  predicate IsDaemonSetPod(pod: PodObject) { "DaemonSet" in pod.ownerKinds }

  predicate IsKubeProxy(pod: PodObject) {
    pod.namespace == "kube-system" && "component" in pod.labels && pod.labels["component"] == "kube-proxy"
  }

  /** Daemon set pods are looked at first, so a kube-proxy daemon set pod remains rather than being skipped. */
  function FateOf(pod: PodObject, ignoreDaemonSets: bool, deleteFails: bool): Fate {
    if ignoreDaemonSets && IsDaemonSetPod(pod) then Remains
    else if IsKubeProxy(pod) then Skipped
    else if deleteFails then Remains
    else Evicted
  }

  function Count(fates: seq<Fate>, f: Fate): nat {
    if fates == [] then 0 else Count(fates[..|fates| - 1], f) + if fates[|fates| - 1] == f then 1 else 0
  }

  /** Every pod has exactly one fate. */
  lemma {:induction false} FatesPartition(fates: seq<Fate>)
    ensures Count(fates, Evicted) + Count(fates, Remains) + Count(fates, Skipped) == |fates|
  {
    if fates != [] {
      FatesPartition(fates[..|fates| - 1]);
    }
  }

  lemma {:induction false} CountZeroIff(fates: seq<Fate>, f: Fate)
    ensures Count(fates, f) == 0 <==> f !in fates
  {
    if fates != [] {
      var n := |fates| - 1;
      CountZeroIff(fates[..n], f);
      assert fates == fates[..n] + [fates[n]];
    }
  }

  lemma KubeProxyMeaning(pod: PodObject)
    ensures IsKubeProxy(pod) <==>
      pod.namespace == "kube-system" && "component" in pod.labels && pod.labels["component"] == "kube-proxy"
  {
  }

  /** Which fate a pod has, on its fields. */
  lemma FateMeaning(pod: PodObject, ignoreDaemonSets: bool, deleteFails: bool)
    ensures var daemon := ignoreDaemonSets && "DaemonSet" in pod.ownerKinds;
      var proxy := && pod.namespace == "kube-system"
                   && "component" in pod.labels && pod.labels["component"] == "kube-proxy";
      && (FateOf(pod, ignoreDaemonSets, deleteFails) == Skipped <==> !daemon && proxy)
      && (FateOf(pod, ignoreDaemonSets, deleteFails) == Remains <==> daemon || (!proxy && deleteFails))
      && (FateOf(pod, ignoreDaemonSets, deleteFails) == Evicted <==> !daemon && !proxy && !deleteFails)
  {
  }

  function Places(fates: seq<Fate>, f: Fate): set<int> { set i | 0 <= i < |fates| && fates[i] == f }

  lemma PlacesMore(fates: seq<Fate>, last: Fate, f: Fate)
    ensures Places(fates + [last], f) == Places(fates, f) + if last == f then {|fates|} else {}
  {
  }

  /** A count is the number of positions. */
  lemma {:induction false} CountMeaning(fates: seq<Fate>, f: Fate)
    ensures Count(fates, f) == |Places(fates, f)|
  {
    if fates != [] {
      var n := |fates| - 1;
      CountMeaning(fates[..n], f);
      PlacesMore(fates[..n], fates[n], f);
      assert fates[..n] + [fates[n]] == fates;
    }
  }

  function Fates(pods: seq<PodObject>, failures: set<int>, ignoreDaemonSets: bool): (fates: seq<Fate>)
    ensures |fates| == |pods|
  {
    seq(|pods|, i requires 0 <= i < |pods| => FateOf(pods[i], ignoreDaemonSets, i in failures))
  }

  /** How many pods have each fate, counted on their fields. */
  lemma {:induction false} FatesMeaning(pods: seq<PodObject>, failures: set<int>, ignoreDaemonSets: bool)
    ensures Count(Fates(pods, failures, ignoreDaemonSets), Evicted)
      == |set i | 0 <= i < |pods| && !(ignoreDaemonSets && "DaemonSet" in pods[i].ownerKinds)
                  && !IsKubeProxy(pods[i]) && i !in failures|
    ensures Count(Fates(pods, failures, ignoreDaemonSets), Remains)
      == |set i | 0 <= i < |pods| && ((ignoreDaemonSets && "DaemonSet" in pods[i].ownerKinds)
                                      || (!IsKubeProxy(pods[i]) && i in failures))|
    ensures Count(Fates(pods, failures, ignoreDaemonSets), Skipped)
      == |set i | 0 <= i < |pods| && !(ignoreDaemonSets && "DaemonSet" in pods[i].ownerKinds)
                  && IsKubeProxy(pods[i])|
  {
    var fates := Fates(pods, failures, ignoreDaemonSets);
    CountMeaning(fates, Evicted);
    CountMeaning(fates, Remains);
    CountMeaning(fates, Skipped);
    assert Places(fates, Evicted) == set i | 0 <= i < |pods| && !(ignoreDaemonSets && "DaemonSet" in pods[i].ownerKinds)
                              && !IsKubeProxy(pods[i]) && i !in failures;
    assert Places(fates, Remains) == set i | 0 <= i < |pods| && ((ignoreDaemonSets && "DaemonSet" in pods[i].ownerKinds)
                                                  || (!IsKubeProxy(pods[i]) && i in failures));
    assert Places(fates, Skipped) == set i | 0 <= i < |pods| && !(ignoreDaemonSets && "DaemonSet" in pods[i].ownerKinds)
                              && IsKubeProxy(pods[i]);
  }

  /** The counting loop; `failures` are the positions of the pods whose deletion is refused. */
  method EvictPods(pods: seq<PodObject>, failures: set<int>, ignoreDaemonSets: bool)
    returns (evicted: nat, remaining: nat)
    ensures evicted == Count(Fates(pods, failures, ignoreDaemonSets), Evicted)
    ensures remaining == Count(Fates(pods, failures, ignoreDaemonSets), Remains)
  {
    evicted, remaining := 0, 0;
    ghost var fates := Fates(pods, failures, ignoreDaemonSets);
    for i := 0 to |pods|
      invariant evicted == Count(fates[..i], Evicted)
      invariant remaining == Count(fates[..i], Remains)
    {
      assert fates[..i + 1][..i] == fates[..i];
      if ignoreDaemonSets && IsDaemonSetPod(pods[i]) {
        remaining := remaining + 1;
        continue;
      }
      if IsKubeProxy(pods[i]) {
        continue;
      }
      if i in failures {
        remaining := remaining + 1;
        continue;
      }
      evicted := evicted + 1;
    }
    assert fates[..|pods|] == fates;
  }

  /**
   The cluster as the driver sees it: nodes by name. An update may fail after taking effect;
   `updates` records how each went.
   */
  class Cluster {
    var nodes: map<string, NodeObject>
    ghost var updates: seq<bool>

    constructor (nodes: map<string, NodeObject>)
      ensures this.nodes == nodes && updates == []
    {
      this.nodes, updates := nodes, [];
    }

    method UpdateNode(name: string, node: NodeObject) returns (ok: bool)
      modifies this
      ensures ok ==> nodes == old(nodes)[name := node]
      ensures !ok ==> nodes == old(nodes) || nodes == old(nodes)[name := node]
      ensures updates == old(updates) + [ok]
    {
      ok := *;
      updates := updates + [ok];
      var effect: bool := *;
      if ok || effect {
        nodes := nodes[name := node];
      }
    }
  }

  function WithCordon(nodes: map<string, NodeObject>, req: DrainRequest): map<string, NodeObject> {
    if req.nodeName in nodes then nodes[req.nodeName := Cordoned(nodes[req.nodeName], req.reason)] else nodes
  }

  /** `answered` is whether the lookup of the node gets an answer; without one it fails for any node. */
  method DrainNode(cluster: Cluster, req: DrainRequest, answered: bool, pods: Option<seq<PodObject>>,
                   failures: set<int>)
    returns (result: DrainResult, error: Option<DrainError>)
    modifies cluster
    ensures error == Some(NameRequired) <==> req.nodeName == ""
    ensures error == Some(NodeUnavailable) <==>
      req.nodeName != "" && (!answered || req.nodeName !in old(cluster.nodes))
    ensures error.Some? ==> result.phase.FailedPhase?
    // the cordon touches this node only, and a failure to list pods does not undo it
    ensures error == Some(NameRequired) || error == Some(NodeUnavailable) ==> cluster.nodes == old(cluster.nodes)
    ensures error == Some(CordonFailed) ==>
      cluster.nodes == old(cluster.nodes) || cluster.nodes == WithCordon(old(cluster.nodes), req)
    ensures error == Some(PodsUnavailable) || error == None ==>
      req.nodeName in old(cluster.nodes) && cluster.nodes == WithCordon(old(cluster.nodes), req)
    ensures error == Some(NameRequired) || error == Some(NodeUnavailable) ==> cluster.updates == old(cluster.updates)
    ensures error != Some(NameRequired) && error != Some(NodeUnavailable) ==>
      && cluster.updates == old(cluster.updates) + [error != Some(CordonFailed)]
      && (error != Some(CordonFailed) ==> (error == Some(PodsUnavailable) <==> pods.None?))
    // what the cordon writes
    ensures error == Some(PodsUnavailable) || error == None ==>
      && cluster.nodes.Keys == old(cluster.nodes).Keys
      && (forall n <- cluster.nodes :: n != req.nodeName ==> cluster.nodes[n] == old(cluster.nodes)[n])
      && var node, was := cluster.nodes[req.nodeName], old(cluster.nodes)[req.nodeName];
         && node.unschedulable && node.conditions == was.conditions
         && node.labels == was.labels["kranix.io/drain" := "true"]
         && node.taints == was.taints + (
              if exists t <- was.taints :: t.key == "kranix.io/drain" && t.effect == "NoSchedule" then []
              else [Taint("kranix.io/drain", DrainValue(req.reason), "NoSchedule")])
    // what becomes of the pods
    ensures error.None? ==> var all := pods.value;
      && result.evicted
         == |set i | 0 <= i < |all| && !(req.ignoreDaemonSets && "DaemonSet" in all[i].ownerKinds)
                     && !IsKubeProxy(all[i]) && i !in failures|
      && result.remaining
         == |set i | 0 <= i < |all| && ((req.ignoreDaemonSets && "DaemonSet" in all[i].ownerKinds)
                                        || (!IsKubeProxy(all[i]) && i in failures))|
    // conservation
    ensures error.None? ==> pods.Some? && var fates := Fates(pods.value, failures, req.ignoreDaemonSets);
      && result.evicted == Count(fates, Evicted)
      && result.evicted + result.remaining + Count(fates, Skipped) == |pods.value|
      && (result.phase.Drained? <==> result.remaining == 0)
      && (result.phase.Drained? <==> Remains !in fates)
  {
    result := DrainResult(FailedPhase, 0, 0);
    if req.nodeName == "" {
      return result, Some(NameRequired);
    }
    if !answered || req.nodeName !in cluster.nodes {
      return result, Some(NodeUnavailable);
    }
    var node := cluster.nodes[req.nodeName];
    var drainValue := "maintenance";
    if req.reason != "" {
      drainValue := DrainValue(req.reason);
    }
    var taints := AppendTaint(node.taints, Taint(DRAIN_KEY, drainValue, NO_SCHEDULE));
    node := node.(unschedulable := true, labels := node.labels[DRAIN_KEY := "true"], taints := taints);
    var ok := cluster.UpdateNode(req.nodeName, node);
    if !ok {
      return result, Some(CordonFailed);
    }
    if pods.None? {
      CordonMeaning(old(cluster.nodes)[req.nodeName], req.reason);
      return result, Some(PodsUnavailable);
    }
    var evicted, remaining := EvictPods(pods.value, failures, req.ignoreDaemonSets);
    CordonMeaning(old(cluster.nodes)[req.nodeName], req.reason);
    FatesMeaning(pods.value, failures, req.ignoreDaemonSets);
    FatesPartition(Fates(pods.value, failures, req.ignoreDaemonSets));
    CountZeroIff(Fates(pods.value, failures, req.ignoreDaemonSets), Remains);
    var phase := Drained;
    if remaining > 0 {
      phase := Evicting;
    }
    return DrainResult(phase, evicted, remaining), None;
  }

  /** With daemon sets ignored, one daemon set pod is enough to keep a node from ever being Drained. */
  lemma {:induction false} DaemonSetsBlockDrained(pods: seq<PodObject>, failures: set<int>, ignoreDaemonSets: bool)
    ensures Remains in Fates(pods, failures, ignoreDaemonSets)
      <==> exists i :: 0 <= i < |pods|
                       && ((ignoreDaemonSets && "DaemonSet" in pods[i].ownerKinds)
                           || (!IsKubeProxy(pods[i]) && i in failures))
  {
    var fates := Fates(pods, failures, ignoreDaemonSets);
    if Remains in fates {
      var i :| 0 <= i < |fates| && fates[i] == Remains;
      assert FateOf(pods[i], ignoreDaemonSets, i in failures).Remains?;
    }
    if i :| 0 <= i < |pods|
            && ((ignoreDaemonSets && IsDaemonSetPod(pods[i])) || (!IsKubeProxy(pods[i]) && i in failures)) {
      assert fates[i] == Remains;
    }
  }
}
