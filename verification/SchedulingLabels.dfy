/**
 Which labels a workload's pod asks for, key by key and value by value: the architecture it names
 or its image suggests, the topology and hardware it is placed by, and the labels it requires.
 */
module SchedulingLabels {
  import opened Text
  import opened NodeSelection
  import opened SchedulingModel
  import opened SchedulingMeaning

  /** The spellings of an architecture, by its trimmed lower-case text `a`. */
  lemma {:induction false} NamedArchitecture(arch: string, a: string)
    requires a == ToLower(TrimSpace(arch))
    ensures NormalizeArchitecture(arch) == "arm64" <==> a in {"arm64", "aarch64"}
    ensures NormalizeArchitecture(arch) == "amd64" <==> a in {"amd64", "x86_64", "x64"}
    ensures a !in {"arm64", "aarch64", "amd64", "x86_64", "x64"} ==> NormalizeArchitecture(arch) == a
    ensures NormalizeArchitecture(arch) == "" <==> TrimSpace(arch) == ""
  {
    assert "arm64"[1] != "amd64"[1];
  }

  /** What the lower-case text `lower` of an image suggests: the first of three pairs of substrings that it has. */
  lemma {:induction false} SuggestedArchitecture(image: string, lower: string)
    requires lower == ToLower(image)
    ensures DetectFromImage(image) == "arm64" <==> Contains(lower, "arm64") || Contains(lower, "aarch64")
    ensures DetectFromImage(image) == "arm" <==>
      && !Contains(lower, "arm64") && !Contains(lower, "aarch64")
      && (Contains(lower, "arm/v7") || Contains(lower, "arm32"))
    ensures DetectFromImage(image) == "amd64" <==>
      && !Contains(lower, "arm64") && !Contains(lower, "aarch64")
      && !Contains(lower, "arm/v7") && !Contains(lower, "arm32")
      && (Contains(lower, "amd64") || Contains(lower, "x86_64"))
    ensures DetectFromImage(image) in {"arm64", "arm", "amd64", ""}
  {
    assert "arm64"[1] != "amd64"[1] && |"arm"| == 3 && |"arm64"| == 5;
  }

  /**
   The architecture selector of a built pod: the one that the workload names, or else the one that its
   image suggests, or else, with a blank name too, what placement asks for.
   */
  lemma {:induction false} BuiltSelector(image: string, c: Config)
    ensures TrimSpace(c.architecture) != "" ==>
      var a, s := ToLower(TrimSpace(c.architecture)), Built(image, c).nodeSelector;
      && "kubernetes.io/arch" in s
      && (s["kubernetes.io/arch"] == "arm64" <==> a in {"arm64", "aarch64"})
      && (s["kubernetes.io/arch"] == "amd64" <==> a in {"amd64", "x86_64", "x64"})
      && (a !in {"arm64", "aarch64", "amd64", "x86_64", "x64"} ==> s["kubernetes.io/arch"] == a)
    ensures c.architecture == "" ==>
      var lower, s, key := ToLower(image), Built(image, c).nodeSelector, "kubernetes.io/arch";
      if Contains(lower, "arm64") || Contains(lower, "aarch64") then key in s && s[key] == "arm64"
      else if Contains(lower, "arm/v7") || Contains(lower, "arm32") then key in s && s[key] == "arm"
      else if Contains(lower, "amd64") || Contains(lower, "x86_64") then key in s && s[key] == "amd64"
      else s == PlacedSelectors(c)
    ensures c.architecture != "" && TrimSpace(c.architecture) == "" ==>
      Built(image, c).nodeSelector == PlacedSelectors(c)
  {
    NamedArchitecture(c.architecture, ToLower(TrimSpace(c.architecture)));
    SuggestedArchitecture(image, ToLower(image));
    assert TrimSpace("") == "";
  }

  /** The same after routing alone. */
  lemma {:induction false} RoutedSelector(image: string, c: Config, a: string)
    requires a == ToLower(TrimSpace(c.architecture)) && TrimSpace(c.architecture) != ""
    ensures var s := Selectors(Routed(c, ResolveArchitecture(image, c)));
      && "kubernetes.io/arch" in s
      && (s["kubernetes.io/arch"] == "arm64" <==> a in {"arm64", "aarch64"})
      && (s["kubernetes.io/arch"] == "amd64" <==> a in {"amd64", "x86_64", "x64"})
      && (a !in {"arm64", "aarch64", "amd64", "x86_64", "x64"} ==> s["kubernetes.io/arch"] == a)
      && s.Keys == Selectors(c).Keys + {"kubernetes.io/arch"}
      && forall k <- Selectors(c) :: k != "kubernetes.io/arch" ==> s[k] == Selectors(c)[k]
  {
    assert TrimSpace("") == "";
    NamedArchitecture(c.architecture, a);
  }

  /** A node of another architecture never runs a workload that names one. */
  lemma {:induction false} NamedArchitectureIsEnforced(image: string, c: Config, a: string, node: Node)
    requires a == ToLower(TrimSpace(c.architecture)) && Admits(Built(image, c), node)
    ensures a in {"arm64", "aarch64"} ==>
      "kubernetes.io/arch" in node.labels && node.labels["kubernetes.io/arch"] == "arm64"
    ensures a in {"amd64", "x86_64", "x64"} ==>
      "kubernetes.io/arch" in node.labels && node.labels["kubernetes.io/arch"] == "amd64"
  {
    BuiltSelector(image, c);
  }

  /** The required term that routing adds unless one mentions the architecture already. */
  lemma {:induction false} ArchTermsMeaning(required: seq<Term>, arch: string)
    ensures ArchTerms(required, arch) == required + (
      if exists t <- required, r <- t.matchExpressions :: r.key == "kubernetes.io/arch" then []
      else [Term([Requirement("kubernetes.io/arch", "In", [arch])], [])])
  {
    NothingMore(required);
    if MentionsArch(required) {
      var t :| t in required && exists r <- t.matchExpressions :: r.key == ARCH_LABEL;
      var r :| r in t.matchExpressions && r.key == ARCH_LABEL;
    }
  }

  // ---------------------------------------------------------------------------------------
  // Placement

  /** The topology and hardware labels of a placement; a label required of the same key wins. */
  lemma {:induction false} PlacedLabels(c: Config, p: NodePlacement, key: string, value: string)
    requires c.nodePlacement == Some(p) && !(key in p.requiredLabels && p.requiredLabels[key] != "")
    requires value != ""
    requires || (key == "topology.kubernetes.io/region" && value == TrimSpace(p.region))
             || (key == "topology.kubernetes.io/zone" && value == TrimSpace(p.zone))
             || (key == "kranix.io/hardware" && value == TrimSpace(p.hardwareType))
             || (key == "node.kubernetes.io/instance-type" && value == TrimSpace(p.instanceType))
    ensures key in PlacedSelectors(c) && PlacedSelectors(c)[key] == value
  {
    LabelsDistinct();
    TrimSpaceIdempotent(p.region);
    TrimSpaceIdempotent(p.zone);
    PlacedLookup(c, key);
  }

  /** Without a region or zone of its own a workload gets the first of its preferences that is not blank. */
  lemma {:induction false} PreferredTopology(c: Config, key: string, field: string, preferred: seq<string>, i: nat)
    requires || (key == "topology.kubernetes.io/region" && preferred == c.preferredRegions
                 && field == if c.nodePlacement.Some? then c.nodePlacement.value.region else "")
             || (key == "topology.kubernetes.io/zone" && preferred == c.preferredZones
                 && field == if c.nodePlacement.Some? then c.nodePlacement.value.zone else "")
    requires TrimSpace(field) == "" && i < |preferred| && TrimSpace(preferred[i]) != ""
    requires forall j :: 0 <= j < i ==> TrimSpace(preferred[j]) == ""
    requires c.nodePlacement.Some? ==> key !in c.nodePlacement.value.requiredLabels
    ensures key in PlacedSelectors(c) && PlacedSelectors(c)[key] == TrimSpace(preferred[i])
  {
    LabelsDistinct();
    assert TrimSpace("") == "";
    FirstPreferredMeaning(preferred, i);
    TrimSpaceIdempotent(preferred[i]);
    PlacedLookup(c, key);
  }

  lemma {:induction false} FirstPreferredMeaning(values: seq<string>, i: nat)
    requires i < |values| && TrimSpace(values[i]) != "" && forall j :: 0 <= j < i ==> TrimSpace(values[j]) == ""
    ensures FirstPreferred(values) == TrimSpace(values[i])
  {
    if i > 0 {
      assert forall j :: 0 <= j < i - 1 ==> values[1..][j] == values[j + 1];
      FirstPreferredMeaning(values[1..], i - 1);
    }
  }

  /** Required labels that are not empty win over everything, and no other key changes. */
  lemma {:induction false} RequiredLabelsWin(c: Config, p: NodePlacement, key: string)
    requires c.nodePlacement == Some(p) && key != ""
    ensures key in p.requiredLabels && p.requiredLabels[key] != "" ==>
      key in PlacedSelectors(c) && PlacedSelectors(c)[key] == p.requiredLabels[key]
    ensures (&& !(key in p.requiredLabels && p.requiredLabels[key] != "")
             && key !in {"topology.kubernetes.io/region", "topology.kubernetes.io/zone", "kranix.io/hardware",
                         "node.kubernetes.io/instance-type"}) ==>
      && (key in PlacedSelectors(c) <==> key in Selectors(c))
      && (key in PlacedSelectors(c) ==> PlacedSelectors(c)[key] == Selectors(c)[key])
  {
    PlacedLookup(c, key);
  }

  /** Nothing to place by: the selectors stay. */
  lemma {:induction false} NothingToPlace(c: Config)
    requires c.nodePlacement.None? && (forall r <- c.preferredRegions :: TrimSpace(r) == "")
    requires forall z <- c.preferredZones :: TrimSpace(z) == ""
    ensures PlacedSelectors(c) == Selectors(c)
  {
    FieldPrecedence("", c.preferredRegions);
    FieldPrecedence("", c.preferredZones);
    assert TrimSpace("") == "" && Region(c) == "" && Zone(c) == "";
  }
}
