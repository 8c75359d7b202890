/**
 The passes that rewrite a workload specification in place before it becomes a pod
 specification, and the converters that build the pod specification.
 */
module Scheduling {
  import opened Text
  import opened SchedulingModel
  import opened SchedulingMeaning
  import opened SchedulingLabels
  import opened WorkloadSpecs
  import NodeSelection

  // ---------------------------------------------------------------------------------------
  // internal/placement

  method ApplyNodePlacement(spec: WorkloadSpec)
    modifies spec`scheduling, spec.scheduling
    ensures spec.scheduling != null
    ensures spec.scheduling == old(spec.scheduling) || (old(spec.scheduling) == null && fresh(spec.scheduling))
    ensures spec.Intent() == Placed(old(spec.Intent()))
  {
    if spec.scheduling == null {
      spec.scheduling := new SchedulingConfig();
    }
    var s := spec.scheduling;
    var selectors := if s.nodeSelectors.None? then map[] else s.nodeSelectors.value;
    var region, zone := Region(s.Value()), Zone(s.Value());
    if region != "" {
      selectors := selectors[REGION_LABEL := region];
    }
    if zone != "" {
      selectors := selectors[ZONE_LABEL := zone];
    }
    var hardware := Hardware(s.Value());
    if hardware != "" {
      selectors := selectors[HARDWARE_LABEL := hardware];
    }
    var instanceType := InstanceType(s.Value());
    if instanceType != "" {
      selectors := selectors[INSTANCE_TYPE_LABEL := instanceType];
    }
    if s.nodePlacement.Some? {
      selectors := AddRequiredLabels(selectors, s.nodePlacement.value.requiredLabels);
      var affinity := MergePreferredLabels(s.affinity, s.nodePlacement.value.preferredLabels);
      s.nodeSelectors, s.affinity := Some(selectors), affinity;
    } else {
      assert selectors + map[] == selectors;
      s.nodeSelectors := Some(selectors);
    }
  }

  /** Copies the usable labels one by one, in any order. */
  method AddRequiredLabels(selectors: Labels, labels: Labels) returns (result: Labels)
    ensures result == selectors + Effective(labels)
  {
    result := selectors;
    var todo := labels.Keys;
    ghost var done: Labels := map[];
    while todo != {}
      invariant todo <= labels.Keys
      invariant done == map k <- Effective(labels) | k !in todo :: labels[k]
      invariant result == selectors + done
    {
      var k :| k in todo;
      if k != "" && labels[k] != "" {
        result := result[k := labels[k]];
        done := done[k := labels[k]];
      }
      todo := todo - {k};
    }
    assert done == Effective(labels);
  }

  method MergePreferredLabels(affinity: Option<Affinity>, prefs: seq<LabelPreference>)
    returns (merged: Option<Affinity>)
    ensures merged == MergedAffinity(affinity, prefs)
  {
    if |prefs| == 0 {
      return affinity;
    }
    var node := NodeAffinityOf(affinity);
    var preferred := node.preferred;
    for i := 0 to |prefs|
      invariant preferred == node.preferred + PreferredTerms(prefs[..i])
    {
      assert prefs[..i + 1][..i] == prefs[..i];
      var pref := prefs[i];
      if pref.key == "" {
        continue;
      }
      var weight := pref.weight;
      if weight <= 0 {
        weight := 1;
      }
      preferred := preferred + [PreferredTerm(weight, Term([Requirement(pref.key, "In", [pref.value])], []))];
    }
    assert prefs[..|prefs|] == prefs;
    return Some(Affinity(Some(node.(preferred := preferred))));
  }

  // ---------------------------------------------------------------------------------------
  // internal/arch

  method ApplyArchitectureScheduling(spec: WorkloadSpec)
    modifies spec`scheduling, spec.scheduling
    ensures spec.scheduling == old(spec.scheduling) || (old(spec.scheduling) == null && fresh(spec.scheduling))
    ensures spec.Intent() == Routed(old(spec.Intent()), ResolveArchitecture(spec.image, old(spec.Intent())))
    ensures TrimSpace(old(spec.Intent()).architecture) != "" ==>
      var a, s := ToLower(TrimSpace(old(spec.Intent()).architecture)), Selectors(spec.Intent());
      && "kubernetes.io/arch" in s
      && (s["kubernetes.io/arch"] == "arm64" <==> a in {"arm64", "aarch64"})
      && (s["kubernetes.io/arch"] == "amd64" <==> a in {"amd64", "x86_64", "x64"})
      && (a !in {"arm64", "aarch64", "amd64", "x86_64", "x64"} ==> s["kubernetes.io/arch"] == a)
  {
    ghost var c := spec.Intent();
    if TrimSpace(c.architecture) != "" {
      RoutedSelector(spec.image, c, ToLower(TrimSpace(c.architecture)));
    }
    var arch := ResolveArchitecture(spec.image, spec.Intent());
    if arch == "" {
      return;
    }
    if spec.scheduling == null {
      spec.scheduling := new SchedulingConfig();
    }
    var s := spec.scheduling;
    var selectors := if s.nodeSelectors.None? then map[] else s.nodeSelectors.value;
    var node := NodeAffinityOf(s.affinity);
    var hasArch := ScanForArch(node.required);
    var required := node.required;
    if !hasArch {
      required := required + [Term([Requirement(ARCH_LABEL, "In", [arch])], [])];
    }
    s.nodeSelectors := Some(selectors[ARCH_LABEL := arch]);
    s.affinity := Some(Affinity(Some(NodeAffinity(required, node.preferred))));
  }

  /** The nested scan; the inner loop stops at the first hit, the outer one does not. */
  method ScanForArch(required: seq<Term>) returns (hasArch: bool)
    ensures hasArch <==> MentionsArch(required)
  {
    hasArch := false;
    for i := 0 to |required|
      invariant hasArch <==> MentionsArch(required[..i])
    {
      var term := required[i];
      assert required[..i + 1] == required[..i] + [term];
      for j := 0 to |term.matchExpressions|
        invariant forall r <- term.matchExpressions[..j] :: r.key != ARCH_LABEL
        invariant hasArch <==> MentionsArch(required[..i])
      {
        if term.matchExpressions[j].key == ARCH_LABEL {
          assert term.matchExpressions[j] in term.matchExpressions;
          hasArch := true;
          break;
        }
      }
      assert hasArch <==> MentionsArch(required[..i]) || exists r <- term.matchExpressions :: r.key == ARCH_LABEL;
    }
    assert required[..|required|] == required;
  }

  // ---------------------------------------------------------------------------------------
  // internal/kubernetes: the converters fill slices made at their final length

  method ConvertNodeSelectorRequirements(reqs: seq<Requirement>)
    returns (out: seq<NodeSelection.NodeSelectorRequirement>)
    ensures out == ConvertRequirements(reqs)
  {
    var slice := new NodeSelection.NodeSelectorRequirement[|reqs|];
    for i := 0 to |reqs|
      invariant forall j :: 0 <= j < i ==> slice[j] == ConvertRequirement(reqs[j])
    {
      slice[i] := NodeSelection.NodeSelectorRequirement(reqs[i].key, reqs[i].operator, reqs[i].values);
    }
    out := slice[..];
  }

  method ConvertNodeSelectorTerms(terms: seq<Term>) returns (out: seq<NodeSelection.NodeSelectorTerm>)
    ensures out == ConvertTerms(terms)
  {
    var slice := new NodeSelection.NodeSelectorTerm[|terms|];
    for i := 0 to |terms|
      invariant forall j :: 0 <= j < i ==> slice[j] == ConvertTerm(terms[j])
    {
      var expressions := ConvertNodeSelectorRequirements(terms[i].matchExpressions);
      var fields := ConvertNodeSelectorRequirements(terms[i].matchFields);
      slice[i] := NodeSelection.NodeSelectorTerm(expressions, fields);
    }
    out := slice[..];
  }

  method ConvertPreferredSchedulingTerms(terms: seq<PreferredTerm>)
    returns (out: seq<NodeSelection.PreferredSchedulingTerm>)
    ensures out == ConvertPreferred(terms)
  {
    var slice := new NodeSelection.PreferredSchedulingTerm[|terms|];
    for i := 0 to |terms|
      invariant forall j :: 0 <= j < i ==>
        slice[j] == NodeSelection.PreferredSchedulingTerm(terms[j].weight, ConvertTerm(terms[j].preference))
    {
      var expressions := ConvertNodeSelectorRequirements(terms[i].preference.matchExpressions);
      var fields := ConvertNodeSelectorRequirements(terms[i].preference.matchFields);
      slice[i] := NodeSelection.PreferredSchedulingTerm(terms[i].weight,
                                                        NodeSelection.NodeSelectorTerm(expressions, fields));
    }
    out := slice[..];
  }

  method ConvertAffinityConfig(affinity: Option<Affinity>) returns (out: Option<NodeSelection.Affinity>)
    ensures out == ConvertAffinity(affinity)
  {
    if affinity.None? {
      return None;
    }
    if affinity.value.nodeAffinity.None? {
      return Some(NodeSelection.Affinity(None));
    }
    var node := affinity.value.nodeAffinity.value;
    var required, preferred := None, [];
    if |node.required| > 0 {
      var terms := ConvertNodeSelectorTerms(node.required);
      required := Some(terms);
    }
    assert ConvertPreferred([]) == [];
    if |node.preferred| > 0 {
      preferred := ConvertPreferredSchedulingTerms(node.preferred);
    }
    return Some(NodeSelection.Affinity(Some(NodeSelection.NodeAffinity(required, preferred))));
  }

  /** The two passes, in this order, as a driver's deployment runs them. */
  method PlaceAndRoute(spec: WorkloadSpec)
    modifies spec`scheduling, spec.scheduling
    ensures spec.scheduling != null
    ensures spec.scheduling == old(spec.scheduling) || (old(spec.scheduling) == null && fresh(spec.scheduling))
    ensures spec.Intent() == BuiltConfig(spec.image, old(spec.Intent()))
  {
    ApplyNodePlacement(spec);
    ApplyArchitectureScheduling(spec);
  }

  /**
   workloadPodSpec, with the container's outcome as an input: when building it fails there is no pod,
   but the specification has been rewritten all the same.
   */
  method WorkloadPodSpec(spec: WorkloadSpec, containerBuilt: bool) returns (pod: Option<NodeSelection.PodSpec>)
    modifies spec`scheduling, spec.scheduling
    ensures spec.Intent() == BuiltConfig(spec.image, old(spec.Intent()))
    ensures pod == if containerBuilt then Some(Built(spec.image, old(spec.Intent()))) else None
    ensures containerBuilt && TrimSpace(old(spec.Intent()).architecture) != "" ==>
      var a, s := ToLower(TrimSpace(old(spec.Intent()).architecture)), pod.value.nodeSelector;
      && "kubernetes.io/arch" in s
      && (s["kubernetes.io/arch"] == "arm64" <==> a in {"arm64", "aarch64"})
      && (s["kubernetes.io/arch"] == "amd64" <==> a in {"amd64", "x86_64", "x64"})
      && (a !in {"arm64", "aarch64", "amd64", "x86_64", "x64"} ==> s["kubernetes.io/arch"] == a)
    ensures containerBuilt && old(spec.Intent()).architecture == "" ==>
      var lower, s, key := ToLower(spec.image), pod.value.nodeSelector, "kubernetes.io/arch";
      if Contains(lower, "arm64") || Contains(lower, "aarch64") then key in s && s[key] == "arm64"
      else if Contains(lower, "arm/v7") || Contains(lower, "arm32") then key in s && s[key] == "arm"
      else if Contains(lower, "amd64") || Contains(lower, "x86_64") then key in s && s[key] == "amd64"
      else s == PlacedSelectors(old(spec.Intent()))
  {
    BuiltSelector(spec.image, spec.Intent());
    PlaceAndRoute(spec);
    if !containerBuilt {
      return None;
    }
    var selector, affinity := map[], None;
    if spec.scheduling != null {
      if spec.scheduling.nodeSelectors.Some? && |spec.scheduling.nodeSelectors.value| > 0 {
        selector := spec.scheduling.nodeSelectors.value;
      }
      affinity := ConvertAffinityConfig(spec.scheduling.affinity);
    }
    return Some(NodeSelection.PodSpec(selector, affinity));
  }
}
