/** Which nodes a workload's pod may run on after placement and architecture routing. */
module SchedulingMeaning {
  import opened Text
  import opened NodeSelection
  import opened SchedulingModel

  /** What building a workload's pod leaves in its specification. */
  function BuiltConfig(image: string, c: Config): Config {
    Routed(Placed(c), ResolveArchitecture(image, Placed(c)))
  }

  /** The same after `n` builds of the same specification. */
  function BuiltTimes(image: string, c: Config, n: nat): Config {
    if n == 0 then c else BuiltConfig(image, BuiltTimes(image, c, n - 1))
  }

  /** A workload's pod, from the configuration it was submitted with. */
  function Built(image: string, c: Config): PodSpec { PodOf(BuiltConfig(image, c)) }

  // ---------------------------------------------------------------------------------------
  // Placement

  /** A placement field wins over the preference list; either way the result is trimmed. */
  lemma {:induction false} FieldPrecedence(field: string, preferred: seq<string>)
    ensures FirstNonEmpty(TrimSpace(field), FirstPreferred(preferred))
            == if TrimSpace(field) != "" then TrimSpace(field) else FirstPreferred(preferred)
    ensures FirstPreferred(preferred) == "" <==> forall v <- preferred :: TrimSpace(v) == ""
    decreases |preferred|
  {
    TrimSpaceIdempotent(field);
    if preferred != [] {
      assert preferred[0] in preferred;
      if TrimSpace(preferred[0]) != "" {
        TrimSpaceIdempotent(preferred[0]);
      } else {
        FieldPrecedence(field, preferred[1..]);
        assert forall v <- preferred :: v == preferred[0] || v in preferred[1..];
        assert forall v <- preferred[1..] :: v in preferred;
      }
    }
  }

  /** What placement asks of one label key, the strongest source first. */
  function Asked(c: Config, key: string): Option<string> {
    if Placement(c, key).Some? then Placement(c, key)
    else if key in Selectors(c) then Some(Selectors(c)[key])
    else None
  }

  /** The part that overrides selectors already there. */
  function Placement(c: Config, key: string): Option<string> {
    if key in RequiredLabels(c) then Some(RequiredLabels(c)[key])
    else if key == REGION_LABEL && Region(c) != "" then Some(Region(c))
    else if key == ZONE_LABEL && Zone(c) != "" then Some(Zone(c))
    else if key == HARDWARE_LABEL && Hardware(c) != "" then Some(Hardware(c))
    else if key == INSTANCE_TYPE_LABEL && InstanceType(c) != "" then Some(InstanceType(c))
    else None
  }

  lemma {:induction false} PlacedLookup(c: Config, key: string)
    ensures key in PlacedSelectors(c) <==> Asked(c, key).Some?
    ensures key in PlacedSelectors(c) ==> PlacedSelectors(c)[key] == Asked(c, key).value
  {
    LabelsDistinct();
    var m0 := Selectors(c);
    var m1 := Set(m0, REGION_LABEL, Region(c));
    var m2 := Set(m1, ZONE_LABEL, Zone(c));
    var m3 := Set(m2, HARDWARE_LABEL, Hardware(c));
    SetLookup(m0, REGION_LABEL, Region(c), key);
    SetLookup(m1, ZONE_LABEL, Zone(c), key);
    SetLookup(m2, HARDWARE_LABEL, Hardware(c), key);
    SetLookup(m3, INSTANCE_TYPE_LABEL, InstanceType(c), key);
  }

  lemma {:induction false} SetLookup(m: Labels, key: string, value: string, k: string)
    ensures k in Set(m, key, value) <==> (k == key && value != "") || k in m
    ensures k in Set(m, key, value) ==> Set(m, key, value)[k] == if k == key && value != "" then value else m[k]
  {
  }

  lemma LabelsDistinct()
    ensures REGION_LABEL != ZONE_LABEL && REGION_LABEL != HARDWARE_LABEL && REGION_LABEL != INSTANCE_TYPE_LABEL
    ensures ZONE_LABEL != HARDWARE_LABEL && ZONE_LABEL != INSTANCE_TYPE_LABEL && HARDWARE_LABEL != INSTANCE_TYPE_LABEL
  {
    assert REGION_LABEL[|REGION_LABEL| - 1] == 'n' && ZONE_LABEL[|ZONE_LABEL| - 1] == 'e';
    assert |REGION_LABEL| == 29 && |ZONE_LABEL| == 27 && |HARDWARE_LABEL| == 18 && |INSTANCE_TYPE_LABEL| == 32;
  }

  /** A placed workload goes to the nodes that carry every label asked for and meet the required terms. */
  lemma {:induction false} PlacementMeaning(c: Config, node: Node)
    ensures Admits(PodOf(Placed(c)), node)
            <==> (forall key | Asked(c, key).Some? :: key in node.labels && node.labels[key] == Asked(c, key).value)
                 && RequiredHolds(Required(c), node)
  {
    ConversionPreservesMeaning(Placed(c), node);
    PlacementKeepsRequired(c);
    forall key ensures key in PlacedSelectors(c) <==> Asked(c, key).Some?
               ensures key in PlacedSelectors(c) ==> PlacedSelectors(c)[key] == Asked(c, key).value
    {
      PlacedLookup(c, key);
    }
  }

  lemma PlacementKeepsRequired(c: Config)
    ensures Required(Placed(c)) == Required(c)
    ensures Preferred(Placed(c)) == Preferred(c) + PreferredTerms(PreferredLabels(c))
  {
    assert PreferredTerms([]) == [];
  }

  /** Placing again changes no selector and no required term, but appends the preferences again. */
  lemma {:induction false} PlacementTwice(c: Config)
    ensures Selectors(Placed(Placed(c))) == Selectors(Placed(c))
    ensures Required(Placed(Placed(c))) == Required(Placed(c))
    ensures Preferred(Placed(Placed(c))) == Preferred(Placed(c)) + PreferredTerms(PreferredLabels(c))
  {
    var d := Placed(c);
    PlacementKeepsRequired(c);
    PlacementKeepsRequired(d);
    forall key ensures key in PlacedSelectors(d) <==> key in PlacedSelectors(c)
               ensures key in PlacedSelectors(c) ==> PlacedSelectors(d)[key] == PlacedSelectors(c)[key]
    {
      PlacedLookup(c, key);
      PlacedLookup(d, key);
      SameAsking(c, key);
    }
  }

  /** The passes rewrite selectors and affinity only, so what placement overrides stays the same. */
  lemma SamePlacement(c: Config, selectors: Option<Labels>, affinity: Option<SchedulingModel.Affinity>, key: string)
    ensures Placement(c.(nodeSelectors := selectors, affinity := affinity), key) == Placement(c, key)
  {
    var d := c.(nodeSelectors := selectors, affinity := affinity);
    assert RequiredLabels(d) == RequiredLabels(c);
    assert Region(d) == Region(c) && Zone(d) == Zone(c);
    assert Hardware(d) == Hardware(c) && InstanceType(d) == InstanceType(c);
  }

  lemma SameAsking(c: Config, key: string)
    ensures Asked(Placed(c), key) == Asked(c, key)
  {
    SamePlacement(c, Placed(c).nodeSelectors, Placed(c).affinity, key);
    PlacedLookup(c, key);
  }

  /** So placement is idempotent exactly when it has no effective preference to add. */
  lemma {:induction false} PlacementIdempotentIff(c: Config)
    ensures Placed(Placed(c)) == Placed(c) <==> PreferredTerms(PreferredLabels(c)) == []
  {
    PlacementTwice(c);
    var extra := PreferredTerms(PreferredLabels(c));
    var d := Placed(c);
    if extra == [] {
      assert Preferred(d) + extra == Preferred(d);
    } else {
      assert |Preferred(Placed(d))| > |Preferred(d)|;
    }
  }

  // ---------------------------------------------------------------------------------------
  // Architecture

  lemma {:induction false} ArchTermMeaning(arch: string, node: Node)
    ensures Holds(InTerm(ARCH_LABEL, arch), node) <==> HasArch(node, arch)
  {
    var t := InTerm(ARCH_LABEL, arch);
    assert t.matchExpressions[0] == Requirement(ARCH_LABEL, "In", [arch]);
    assert arch in [arch];
  }

  lemma {:induction false} RoutedSelects(c: Config, arch: string, node: Node)
    requires arch != ""
    ensures Selects(Selectors(Routed(c, arch)), node.labels)
            <==> HasArch(node, arch)
                 && forall k <- Selectors(c) ::
                      k != ARCH_LABEL ==> k in node.labels && node.labels[k] == Selectors(c)[k]
  {
    var s := Selectors(c)[ARCH_LABEL := arch];
    assert ARCH_LABEL in s;
    assert forall k <- Selectors(c) :: k in s;
  }

  /** A resolved architecture is always enforced. */
  lemma {:induction false} OnlyNodesOfTheArchitecture(c: Config, arch: string, node: Node)
    requires arch != "" && Admits(PodOf(Routed(c, arch)), node)
    ensures HasArch(node, arch)
  {
    RoutedSelects(c, arch, node);
  }

  /** No selector asks for another architecture. */
  predicate NoOtherArch(c: Config, arch: string) {
    ARCH_LABEL in Selectors(c) ==> Selectors(c)[ARCH_LABEL] == arch
  }

  /** The architecture term cannot displace a required term: there is none, or one is about the architecture. */
  predicate RequiredSurvives(c: Config) {
    Required(c) == [] || MentionsArch(Required(c))
  }

  /** Then routing is the conjunction it looks like. */
  lemma {:induction false} RoutingIsConjunction(c: Config, arch: string, node: Node)
    requires arch != "" && RequiredSurvives(c) && NoOtherArch(c, arch)
    ensures Admits(PodOf(Routed(c, arch)), node) <==> Admits(PodOf(c), node) && HasArch(node, arch)
  {
    ConversionPreservesMeaning(c, node);
    ConversionPreservesMeaning(Routed(c, arch), node);
    RoutedSelects(c, arch, node);
    if Required(c) == [] {
      assert !MentionsArch(Required(c));
      assert Required(Routed(c, arch)) == [InTerm(ARCH_LABEL, arch)];
      assert InTerm(ARCH_LABEL, arch) in Required(Routed(c, arch));
      ArchTermMeaning(arch, node);
    }
  }

  /**
   Otherwise the architecture term is one more alternative, met by every node the selector leaves:
   the required terms no longer restrict anything.
   */
  lemma {:induction false} RoutingDropsRequired(c: Config, arch: string, node: Node)
    requires arch != "" && !RequiredSurvives(c)
    ensures Admits(PodOf(Routed(c, arch)), node) <==> Selects(Selectors(Routed(c, arch)), node.labels)
  {
    ConversionPreservesMeaning(Routed(c, arch), node);
    RoutedSelects(c, arch, node);
    ArchTermMeaning(arch, node);
    var required := Required(Routed(c, arch));
    assert required[|required| - 1] == InTerm(ARCH_LABEL, arch);
  }

  /**
   The exact condition for routing to be a conjunction: the required terms survive, or they
   exclude no node that the final selector leaves.
   */
  lemma {:induction false} RoutingIsConjunctionIff(c: Config, arch: string)
    requires arch != "" && NoOtherArch(c, arch)
    ensures (forall node :: Admits(PodOf(Routed(c, arch)), node) <==> Admits(PodOf(c), node) && HasArch(node, arch))
            <==> RequiredSurvives(c)
                 || forall node: Node | Selects(Selectors(Routed(c, arch)), node.labels) ::
                      RequiredHolds(Required(c), node)
  {
    if RequiredSurvives(c) {
      forall node ensures Admits(PodOf(Routed(c, arch)), node) <==> Admits(PodOf(c), node) && HasArch(node, arch) {
        RoutingIsConjunction(c, arch, node);
      }
    } else {
      forall node: Node
        ensures (Admits(PodOf(Routed(c, arch)), node) <==> Admits(PodOf(c), node) && HasArch(node, arch))
                <==> (Selects(Selectors(Routed(c, arch)), node.labels) ==> RequiredHolds(Required(c), node))
      {
        RoutingDropsRequired(c, arch, node);
        ConversionPreservesMeaning(c, node);
        RoutedSelects(c, arch, node);
      }
    }
  }

  /** The selectors other than the architecture's are met. */
  predicate MeetsOtherSelectors(c: Config, node: Node) {
    forall k <- Selectors(c) :: k != ARCH_LABEL ==> k in node.labels && node.labels[k] == Selectors(c)[k]
  }

  /**
   Where routing is not the conjunction it looks like, node by node and for every configuration: on
   a node of the architecture that meets the other selectors, when another architecture had been
   selected and is overridden, or when the required terms exclude the node and are dropped.
   */
  lemma {:induction false} RoutingDiffersIff(c: Config, arch: string, node: Node)
    requires arch != ""
    ensures !(Admits(PodOf(Routed(c, arch)), node) <==> Admits(PodOf(c), node) && HasArch(node, arch))
            <==> && HasArch(node, arch) && MeetsOtherSelectors(c, node)
                 && if RequiredSurvives(c)
                    then !NoOtherArch(c, arch) && RequiredHolds(Required(c), node)
                    else !NoOtherArch(c, arch) || !RequiredHolds(Required(c), node)
  {
    ConversionPreservesMeaning(c, node);
    ConversionPreservesMeaning(Routed(c, arch), node);
    RoutedSelects(c, arch, node);
    RoutedRequired(c, arch, node);
  }

  /** Routing twice is routing once. */
  lemma {:induction false} RoutingIdempotent(c: Config, image: string)
    ensures var once := Routed(c, ResolveArchitecture(image, c));
      Routed(once, ResolveArchitecture(image, once)) == once
  {
    var arch := ResolveArchitecture(image, c);
    if arch != "" {
      var terms := ArchTerms(Required(c), arch);
      if !MentionsArch(Required(c)) {
        var t := InTerm(ARCH_LABEL, arch);
        assert terms[|terms| - 1] == t;
        assert t.matchExpressions[0].key == ARCH_LABEL;
      }
      assert MentionsArch(terms);
      var s := Selectors(c)[ARCH_LABEL := arch];
      assert s[ARCH_LABEL := arch] == s;
    }
  }

  /**
   The whole pipeline, for every workload: the node carries every label asked for, except that a
   resolved architecture overrides what was asked of its own label, and it meets the required
   terms, unless routing made them pointless.
   */
  lemma {:induction false} BuiltMeaning(image: string, c: Config, node: Node)
    ensures var arch := ResolveArchitecture(image, c);
      Admits(Built(image, c), node)
      <==> && (forall key | Asked(c, key).Some? && (arch == "" || key != ARCH_LABEL) ::
                 key in node.labels && node.labels[key] == Asked(c, key).value)
           && (arch != "" ==> HasArch(node, arch))
           && (arch == "" || RequiredSurvives(c) ==> RequiredHolds(Required(c), node))
  {
    var arch, d := ResolveArchitecture(image, c), Placed(c);
    PlacementMeaning(c, node);
    PlacementKeepsRequired(c);
    if arch != "" {
      forall key ensures key in Selectors(d) <==> Asked(c, key).Some?
                 ensures key in Selectors(d) ==> Selectors(d)[key] == Asked(c, key).value
      {
        PlacedLookup(c, key);
      }
      RoutedSelects(d, arch, node);
      RoutedRequired(d, arch, node);
      ConversionPreservesMeaning(Routed(d, arch), node);
    }
  }

  /** The required terms after routing, on a node of the architecture. */
  lemma {:induction false} RoutedRequired(c: Config, arch: string, node: Node)
    requires arch != ""
    ensures HasArch(node, arch) ==>
      (RequiredHolds(Required(Routed(c, arch)), node) <==> (RequiredSurvives(c) ==> RequiredHolds(Required(c), node)))
  {
    var required := Required(Routed(c, arch));
    ArchTermMeaning(arch, node);
    if !MentionsArch(Required(c)) {
      assert required[|required| - 1] == InTerm(ARCH_LABEL, arch);
    }
  }

  /**
   Building mutates the specification. Building it again, as the second deployment of a migration
   may, admits the same nodes: no selector and no required term changes the second time.
   */
  lemma {:induction false} RebuiltAdmitsTheSame(image: string, c: Config, node: Node)
    ensures Admits(Built(image, BuiltConfig(image, c)), node) <==> Admits(Built(image, c), node)
  {
    var once := BuiltConfig(image, c);
    RebuiltSelectors(image, c);
    RebuiltRequired(image, c);
    ConversionPreservesMeaning(once, node);
    ConversionPreservesMeaning(BuiltConfig(image, once), node);
  }

  lemma {:induction false} RebuiltRequired(image: string, c: Config)
    ensures Required(BuiltConfig(image, BuiltConfig(image, c))) == Required(BuiltConfig(image, c))
  {
    var once, arch := BuiltConfig(image, c), ResolveArchitecture(image, c);
    PlacementKeepsRequired(c);
    PlacementKeepsRequired(once);
    if arch != "" {
      ArchTermsMention(Required(c), arch);
    }
  }

  lemma {:induction false} ArchTermsMention(required: seq<Term>, arch: string)
    ensures MentionsArch(ArchTerms(required, arch))
  {
    if !MentionsArch(required) {
      var terms := ArchTerms(required, arch);
      assert terms[|terms| - 1] == InTerm(ARCH_LABEL, arch);
      assert InTerm(ARCH_LABEL, arch).matchExpressions[0].key == ARCH_LABEL;
    }
  }

  lemma {:induction false} RebuiltSelectors(image: string, c: Config)
    ensures Selectors(BuiltConfig(image, BuiltConfig(image, c))) == Selectors(BuiltConfig(image, c))
  {
    var once, arch := BuiltConfig(image, c), ResolveArchitecture(image, c);
    if arch == "" {
      PlacementTwice(c);
    } else {
      var s, t := PlacedSelectors(c), PlacedSelectors(once);
      forall key | key != ARCH_LABEL
        ensures key in t <==> key in s
        ensures key in s ==> t[key] == s[key]
      {
        PlacedLookup(c, key);
        PlacedLookup(once, key);
        SamePlacement(c, once.nodeSelectors, once.affinity, key);
      }
      assert t[ARCH_LABEL := arch] == s[ARCH_LABEL := arch];
    }
  }
}
