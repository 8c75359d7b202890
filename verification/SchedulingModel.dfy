/**
 Scheduling intent on values: what placement and architecture routing do to a workload's
 scheduling configuration, how it becomes a pod specification, and which nodes that admits.
 */
module SchedulingModel {
  import opened Text
  import NodeSelection

  const ARCH_LABEL := "kubernetes.io/arch"
  const REGION_LABEL := "topology.kubernetes.io/region"
  const ZONE_LABEL := "topology.kubernetes.io/zone"
  const INSTANCE_TYPE_LABEL := "node.kubernetes.io/instance-type"
  const HARDWARE_LABEL := "kranix.io/hardware"

  type Labels = map<string, string>

  datatype Requirement = Requirement(key: string, operator: string, values: seq<string>)
  datatype Term = Term(matchExpressions: seq<Requirement>, matchFields: seq<Requirement>)
  datatype PreferredTerm = PreferredTerm(weight: int, preference: Term)
  datatype NodeAffinity = NodeAffinity(required: seq<Term>, preferred: seq<PreferredTerm>)
  datatype Affinity = Affinity(nodeAffinity: Option<NodeAffinity>)
  datatype LabelPreference = LabelPreference(key: string, value: string, weight: int)
  datatype NodePlacement = NodePlacement(region: string, zone: string, hardwareType: string, instanceType: string,
                                         requiredLabels: Labels, preferredLabels: seq<LabelPreference>)

  datatype Config = Config(
    architecture: string, nodeSelectors: Option<Labels>, affinity: Option<Affinity>,
    nodePlacement: Option<NodePlacement>, preferredRegions: seq<string>, preferredZones: seq<string>)

  const EMPTY := Config("", None, None, None, [], [])

  function Selectors(c: Config): Labels { if c.nodeSelectors.None? then map[] else c.nodeSelectors.value }

  function NodeAffinityOf(a: Option<Affinity>): NodeAffinity {
    if a.None? || a.value.nodeAffinity.None? then NodeAffinity([], []) else a.value.nodeAffinity.value
  }

  function Required(c: Config): seq<Term> { NodeAffinityOf(c.affinity).required }

  function Preferred(c: Config): seq<PreferredTerm> { NodeAffinityOf(c.affinity).preferred }

  // ---------------------------------------------------------------------------------------
  // Placement

  /** The first value that is not blank, trimmed; "" when all are blank. */
  function FirstPreferred(values: seq<string>): string
    decreases |values|
  {
    if values == [] then ""
    else if TrimSpace(values[0]) != "" then TrimSpace(values[0])
    else FirstPreferred(values[1..])
  }

  function PlacementField(c: Config, field: NodePlacement -> string): string {
    if c.nodePlacement.None? then "" else TrimSpace(field(c.nodePlacement.value))
  }

  function Region(c: Config): string {
    FirstNonEmpty(PlacementField(c, (p: NodePlacement) => p.region), FirstPreferred(c.preferredRegions))
  }

  function Zone(c: Config): string {
    FirstNonEmpty(PlacementField(c, (p: NodePlacement) => p.zone), FirstPreferred(c.preferredZones))
  }

  function Hardware(c: Config): string { PlacementField(c, (p: NodePlacement) => p.hardwareType) }

  function InstanceType(c: Config): string { PlacementField(c, (p: NodePlacement) => p.instanceType) }

  function Set(m: Labels, key: string, value: string): Labels {
    if value != "" then m[key := value] else m
  }

  function Effective(labels: Labels): Labels {
    map k <- labels | k != "" && labels[k] != "" :: labels[k]
  }

  function RequiredLabels(c: Config): Labels {
    if c.nodePlacement.None? then map[] else Effective(c.nodePlacement.value.requiredLabels)
  }

  function TopologySelectors(c: Config): Labels {
    Set(Set(Set(Set(Selectors(c), REGION_LABEL, Region(c)), ZONE_LABEL, Zone(c)),
            HARDWARE_LABEL, Hardware(c)), INSTANCE_TYPE_LABEL, InstanceType(c))
  }

  function PlacedSelectors(c: Config): Labels { TopologySelectors(c) + RequiredLabels(c) }

  function InTerm(key: string, value: string): Term { Term([Requirement(key, "In", [value])], []) }

  function PreferredTerms(prefs: seq<LabelPreference>): seq<PreferredTerm> {
    if prefs == [] then [] else
    var p := prefs[|prefs| - 1];
    PreferredTerms(prefs[..|prefs| - 1])
    + if p.key == "" then [] else [PreferredTerm(if p.weight <= 0 then 1 else p.weight, InTerm(p.key, p.value))]
  }

  function PreferredLabels(c: Config): seq<LabelPreference> {
    if c.nodePlacement.None? then [] else c.nodePlacement.value.preferredLabels
  }

  function MergedAffinity(a: Option<Affinity>, prefs: seq<LabelPreference>): Option<Affinity> {
    if prefs == [] then a else
    var n := NodeAffinityOf(a);
    Some(Affinity(Some(n.(preferred := n.preferred + PreferredTerms(prefs)))))
  }

  function Placed(c: Config): Config {
    c.(nodeSelectors := Some(PlacedSelectors(c)), affinity := MergedAffinity(c.affinity, PreferredLabels(c)))
  }

  // ---------------------------------------------------------------------------------------
  // Architecture

  function DetectFromImage(image: string): string {
    var lower := ToLower(image);
    if Contains(lower, "arm64") || Contains(lower, "aarch64") then "arm64"
    else if Contains(lower, "arm/v7") || Contains(lower, "arm32") then "arm"
    else if Contains(lower, "amd64") || Contains(lower, "x86_64") then "amd64"
    else ""
  }

  function NormalizeArchitecture(arch: string): string {
    var a := ToLower(TrimSpace(arch));
    if a == "arm64" || a == "aarch64" then "arm64"
    else if a == "amd64" || a == "x86_64" || a == "x64" then "amd64"
    else a
  }

  /** "" when no architecture resolves; an explicit but blank one also resolves to "". */
  function ResolveArchitecture(image: string, c: Config): string {
    if c.architecture != "" then NormalizeArchitecture(c.architecture) else DetectFromImage(image)
  }

  predicate MentionsArch(terms: seq<Term>) {
    exists t <- terms :: exists r <- t.matchExpressions :: r.key == ARCH_LABEL
  }

  function ArchTerms(required: seq<Term>, arch: string): seq<Term> {
    if MentionsArch(required) then required else required + [InTerm(ARCH_LABEL, arch)]
  }

  function Routed(c: Config, arch: string): Config {
    if arch == "" then c else
    c.(nodeSelectors := Some(Selectors(c)[ARCH_LABEL := arch]),
       affinity := Some(Affinity(Some(NodeAffinity(ArchTerms(Required(c), arch), Preferred(c))))))
  }

  // ---------------------------------------------------------------------------------------
  // The pod specification

  function ConvertRequirement(r: Requirement): NodeSelection.NodeSelectorRequirement {
    NodeSelection.NodeSelectorRequirement(r.key, r.operator, r.values)
  }

  function ConvertRequirements(rs: seq<Requirement>): (out: seq<NodeSelection.NodeSelectorRequirement>)
    ensures |out| == |rs| && forall i :: 0 <= i < |rs| ==> out[i] == ConvertRequirement(rs[i])
  {
    seq(|rs|, i requires 0 <= i < |rs| => ConvertRequirement(rs[i]))
  }

  function ConvertTerm(t: Term): NodeSelection.NodeSelectorTerm {
    NodeSelection.NodeSelectorTerm(ConvertRequirements(t.matchExpressions), ConvertRequirements(t.matchFields))
  }

  function ConvertTerms(ts: seq<Term>): (out: seq<NodeSelection.NodeSelectorTerm>)
    ensures |out| == |ts| && forall i :: 0 <= i < |ts| ==> out[i] == ConvertTerm(ts[i])
  {
    seq(|ts|, i requires 0 <= i < |ts| => ConvertTerm(ts[i]))
  }

  function ConvertPreferred(ps: seq<PreferredTerm>): seq<NodeSelection.PreferredSchedulingTerm> {
    seq(|ps|, i requires 0 <= i < |ps| =>
      NodeSelection.PreferredSchedulingTerm(ps[i].weight, ConvertTerm(ps[i].preference)))
  }

  function ConvertNodeAffinity(n: NodeAffinity): NodeSelection.NodeAffinity {
    NodeSelection.NodeAffinity(if n.required == [] then None else Some(ConvertTerms(n.required)),
                               ConvertPreferred(n.preferred))
  }

  function ConvertAffinity(a: Option<Affinity>): Option<NodeSelection.Affinity> {
    if a.None? then None
    else Some(NodeSelection.Affinity(
      if a.value.nodeAffinity.None? then None else Some(ConvertNodeAffinity(a.value.nodeAffinity.value))))
  }

  function PodOf(c: Config): NodeSelection.PodSpec {
    NodeSelection.PodSpec(Selectors(c), ConvertAffinity(c.affinity))
  }

  // ---------------------------------------------------------------------------------------
  // What a configuration means, without Kubernetes

  type Node = NodeSelection.Node

  predicate Holds(t: Term, node: Node) {
    && (t.matchExpressions != [] || t.matchFields != [])
    && (forall r <- t.matchExpressions :: NodeSelection.Matches(r.key, r.operator, r.values, node.labels))
    && (forall r <- t.matchFields :: NodeSelection.MatchesField(r.key, r.operator, r.values, node))
  }

  predicate RequiredHolds(terms: seq<Term>, node: Node) {
    terms == [] || exists t <- terms :: Holds(t, node)
  }

  /** The node carries the selected labels and meets one of the required terms, if there are any. */
  predicate Allows(c: Config, node: Node) {
    NodeSelection.Selects(Selectors(c), node.labels) && RequiredHolds(Required(c), node)
  }

  predicate HasArch(node: Node, arch: string) {
    ARCH_LABEL in node.labels && node.labels[ARCH_LABEL] == arch
  }

  lemma {:induction false} ConvertTermMeaning(t: Term, node: Node)
    ensures NodeSelection.TermMatches(ConvertTerm(t), node) <==> Holds(t, node)
  {
    var k := ConvertTerm(t);
    RequirementsMeaning(t.matchExpressions);
    RequirementsMeaning(t.matchFields);
  }

  lemma {:induction false} RequirementsMeaning(rs: seq<Requirement>)
    ensures forall r <- rs :: ConvertRequirement(r) in ConvertRequirements(rs)
    ensures forall k <- ConvertRequirements(rs) :: Requirement(k.key, k.operator, k.values) in rs
    ensures (rs == []) == (ConvertRequirements(rs) == [])
  {
    var out := ConvertRequirements(rs);
    forall r <- rs ensures ConvertRequirement(r) in out {
      var i :| 0 <= i < |rs| && rs[i] == r;
      assert out[i] == ConvertRequirement(r);
    }
    forall k <- out ensures Requirement(k.key, k.operator, k.values) in rs {
      var i :| 0 <= i < |out| && out[i] == k;
      assert rs[i] == Requirement(k.key, k.operator, k.values);
    }
  }

  /** The converters preserve meaning: the pod admits exactly the nodes the configuration allows. */
  lemma {:induction false} ConversionPreservesMeaning(c: Config, node: Node)
    ensures NodeSelection.Admits(PodOf(c), node) <==> Allows(c, node)
  {
    var ts, ks := Required(c), ConvertTerms(Required(c));
    if ts != [] {
      if k :| k in ks && NodeSelection.TermMatches(k, node) {
        var i :| 0 <= i < |ks| && ks[i] == k;
        ConvertTermMeaning(ts[i], node);
        assert ts[i] in ts;
      }
      if t :| t in ts && Holds(t, node) {
        var i :| 0 <= i < |ts| && ts[i] == t;
        ConvertTermMeaning(t, node);
        assert ks[i] in ks;
      }
    }
  }
}
