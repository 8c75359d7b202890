/**
 Preferred terms: they exclude no node but add their weights to a node's score. What the
 passes and the converters do to that score, also when a specification is built again.
 */
module SchedulingPreferences {
  import opened Text
  import opened NodeSelection
  import opened SchedulingModel
  import opened SchedulingMeaning

  /** The scheduler's score: the weights of the preferred terms the node matches. */
  function Score(terms: seq<PreferredSchedulingTerm>, node: Node): int {
    if terms == [] then 0 else
    var last := terms[|terms| - 1];
    Score(terms[..|terms| - 1], node) + if TermMatches(last.preference, node) then last.weight else 0
  }

  function PodScore(pod: PodSpec, node: Node): int {
    if pod.affinity.None? || pod.affinity.value.nodeAffinity.None? then 0
    else Score(pod.affinity.value.nodeAffinity.value.preferred, node)
  }

  /** The same on the configuration, without Kubernetes. */
  function Liking(terms: seq<PreferredTerm>, node: Node): int {
    if terms == [] then 0 else
    var last := terms[|terms| - 1];
    Liking(terms[..|terms| - 1], node) + if Holds(last.preference, node) then last.weight else 0
  }

  /** What the preferred labels of a placement wish for; a weight that is not positive counts one. */
  function Wishes(prefs: seq<LabelPreference>, node: Node): int {
    if prefs == [] then 0 else
    var p := prefs[|prefs| - 1];
    Wishes(prefs[..|prefs| - 1], node)
    + if p.key != "" && p.key in node.labels && node.labels[p.key] == p.value
      then (if p.weight <= 0 then 1 else p.weight) else 0
  }

  /** A matching term counts its weight, a met wish its weight or one, and lists add up. */
  lemma {:induction false} ScoreMeaning(a: seq<PreferredSchedulingTerm>, b: seq<PreferredSchedulingTerm>,
                                        t: PreferredSchedulingTerm, node: Node)
    ensures Score([], node) == 0
    ensures Score([t], node) == if TermMatches(t.preference, node) then t.weight else 0
    ensures Score(a + b, node) == Score(a, node) + Score(b, node)
    decreases |b|
  {
    assert [t][..0] == [];
    if b == [] {
      assert a + b == a;
    } else {
      ScoreMeaning(a, b[..|b| - 1], t, node);
      assert (a + b)[..|a + b| - 1] == a + b[..|b| - 1];
    }
  }

  lemma {:induction false} WishesMeaning(a: seq<LabelPreference>, b: seq<LabelPreference>, p: LabelPreference,
                                         node: Node)
    ensures Wishes([], node) == 0
    ensures p.key in node.labels && node.labels[p.key] == p.value && p.key != "" ==>
      Wishes([p], node) == if p.weight >= 1 then p.weight else 1
    ensures p.key !in node.labels || node.labels[p.key] != p.value || p.key == "" ==> Wishes([p], node) == 0
    ensures Wishes(a + b, node) == Wishes(a, node) + Wishes(b, node)
    decreases |b|
  {
    assert [p][..0] == [];
    if b == [] {
      assert a + b == a;
    } else {
      WishesMeaning(a, b[..|b| - 1], p, node);
      assert (a + b)[..|a + b| - 1] == a + b[..|b| - 1];
    }
  }

  /** There is nothing to prefer exactly when no preference has a key. */
  lemma {:induction false} NoPreferenceIff(prefs: seq<LabelPreference>)
    ensures PreferredTerms(prefs) == [] <==> forall p <- prefs :: p.key == ""
  {
    if prefs != [] {
      var n := |prefs| - 1;
      NoPreferenceIff(prefs[..n]);
      assert prefs == prefs[..n] + [prefs[n]];
    }
  }

  lemma {:induction false} ScoreIsLiking(terms: seq<PreferredTerm>, node: Node)
    ensures Score(ConvertPreferred(terms), node) == Liking(terms, node)
  {
    if terms != [] {
      var n := |terms| - 1;
      ScoreIsLiking(terms[..n], node);
      ConvertTermMeaning(terms[n].preference, node);
      assert ConvertPreferred(terms)[..n] == ConvertPreferred(terms[..n]);
    }
  }

  /** The converters keep every node's score. */
  lemma {:induction false} ConversionPreservesScore(c: Config, node: Node)
    ensures PodScore(PodOf(c), node) == Liking(Preferred(c), node)
  {
    ScoreIsLiking(Preferred(c), node);
  }

  lemma {:induction false} LikingAppend(a: seq<PreferredTerm>, b: seq<PreferredTerm>, node: Node)
    ensures Liking(a + b, node) == Liking(a, node) + Liking(b, node)
  {
    if b == [] {
      assert a + b == a;
    } else {
      var n := |b| - 1;
      LikingAppend(a, b[..n], node);
      assert (a + b)[..|a + b| - 1] == a + b[..n];
    }
  }

  lemma {:induction false} LikingOneMore(a: seq<PreferredTerm>, t: PreferredTerm, node: Node)
    ensures Liking(a + [t], node) == Liking(a, node) + if Holds(t.preference, node) then t.weight else 0
  {
    assert (a + [t])[..|a|] == a;
  }

  lemma {:induction false} InTermMeaning(key: string, value: string, node: Node)
    ensures Holds(InTerm(key, value), node) <==> key in node.labels && node.labels[key] == value
  {
    var t := InTerm(key, value);
    assert t.matchExpressions[0] == Requirement(key, "In", [value]);
    assert value in [value];
  }

  /** The terms compiled from preferred labels score exactly what the labels wish for. */
  lemma {:induction false} PreferredTermsMeaning(prefs: seq<LabelPreference>, node: Node)
    ensures Liking(PreferredTerms(prefs), node) == Wishes(prefs, node)
  {
    if prefs != [] {
      var n := |prefs| - 1;
      var p := prefs[n];
      PreferredTermsMeaning(prefs[..n], node);
      if p.key != "" {
        InTermMeaning(p.key, p.value, node);
        var t := PreferredTerm(if p.weight <= 0 then 1 else p.weight, InTerm(p.key, p.value));
        LikingOneMore(PreferredTerms(prefs[..n]), t, node);
      } else {
        assert PreferredTerms(prefs) == PreferredTerms(prefs[..n]);
      }
    }
  }

  /** Placement adds its wishes to the score, and routing adds nothing. */
  lemma {:induction false} BuiltScore(image: string, c: Config, node: Node)
    ensures PodScore(Built(image, c), node) == PodScore(PodOf(c), node) + Wishes(PreferredLabels(c), node)
  {
    var d := Placed(c);
    var e := Routed(d, ResolveArchitecture(image, d));
    PlacementKeepsRequired(c);
    assert Preferred(e) == Preferred(d);
    ConversionPreservesScore(e, node);
    ConversionPreservesScore(c, node);
    LikingAppend(Preferred(c), PreferredTerms(PreferredLabels(c)), node);
    PreferredTermsMeaning(PreferredLabels(c), node);
  }

  /**
   Building mutates the specification, so building it again counts the wishes again: a node keeps
   its score exactly when nothing is wished of it.
   */
  lemma {:induction false} RebuiltScoreIff(image: string, c: Config, node: Node)
    ensures PodScore(Built(image, BuiltConfig(image, c)), node) == PodScore(Built(image, c), node)
            <==> Wishes(PreferredLabels(c), node) == 0
  {
    BuiltScore(image, c, node);
    BuiltScore(image, BuiltConfig(image, c), node);
    assert PodOf(BuiltConfig(image, c)) == Built(image, c);
  }

  // ---------------------------------------------------------------------------------------
  // Building the same specification any number of times

  /** After the first build only the preferences still change. */
  lemma {:induction false} BuiltTimesShape(image: string, c: Config, n: nat)
    requires n >= 1
    ensures var d := BuiltTimes(image, c, n);
      && Selectors(d) == Selectors(BuiltConfig(image, c)) && Required(d) == Required(BuiltConfig(image, c))
      && |Preferred(d)| >= |Preferred(c)| + |PreferredTerms(PreferredLabels(c))|
      && d == c.(nodeSelectors := d.nodeSelectors, affinity := d.affinity)
  {
    var e := BuiltTimes(image, c, n - 1);
    PlacementKeepsRequired(e);
    if n > 1 {
      BuiltTimesShape(image, c, n - 1);
      var e0 := BuiltTimes(image, c, n - 2);
      assert e == BuiltConfig(image, e0) && BuiltTimes(image, c, n) == BuiltConfig(image, e);
      RebuiltSelectors(image, e0);
      RebuiltRequired(image, e0);
    }
  }

  /** A configuration that a build left is kept by the next one when its parts are. */
  lemma {:induction false} KeptByParts(image: string, e: Config)
    ensures var c := BuiltConfig(image, e);
      var d := BuiltConfig(image, c);
      Selectors(d) == Selectors(c) && Required(d) == Required(c) && PreferredTerms(PreferredLabels(c)) == [] ==> d == c
  {
    var c := BuiltConfig(image, e);
    var d := BuiltConfig(image, c);
    PlacementKeepsRequired(c);
    if Required(d) == Required(c) && PreferredTerms(PreferredLabels(c)) == [] {
      assert Preferred(c) + [] == Preferred(c);
      assert d.affinity == c.affinity;
    }
  }

  lemma {:induction false} SurvivedBuilds(image: string, c: Config, n: nat)
    requires n >= 1 && BuiltTimes(image, c, n) == c
    ensures BuiltConfig(image, c) == c
  {
    var e := BuiltTimes(image, c, n - 1);
    BuiltTimesShape(image, c, n);
    KeptByParts(image, e);
  }

  lemma {:induction false} KeptBuilds(image: string, c: Config, n: nat)
    requires BuiltConfig(image, c) == c
    ensures BuiltTimes(image, c, n) == c
  {
    for i := 0 to n
      invariant BuiltTimes(image, c, i) == c
    {
    }
  }

  /** A specification survives any number of builds exactly when it survives one. */
  lemma {:induction false} SurvivesBuildsIff(image: string, c: Config, n: nat)
    ensures BuiltTimes(image, c, n) == c <==> n == 0 || BuiltConfig(image, c) == c
  {
    if n > 0 && BuiltTimes(image, c, n) == c {
      SurvivedBuilds(image, c, n);
    }
    if BuiltConfig(image, c) == c {
      KeptBuilds(image, c, n);
    }
  }

  /** What a build asks of a label is selected already. */
  predicate SelectsAlready(image: string, c: Config, key: string) {
    var arch := ResolveArchitecture(image, c);
    var asked := if arch != "" && key == ARCH_LABEL then Some(arch) else Placement(c, key);
    asked.Some? ==> key in Selectors(c) && Selectors(c)[key] == asked.value
  }

  predicate SameLookup(m: Labels, n: Labels, key: string) {
    (key in m <==> key in n) && (key in m ==> m[key] == n[key])
  }

  lemma {:induction false} LabelKeptIff(image: string, c: Config, key: string)
    ensures SameLookup(Selectors(BuiltConfig(image, c)), Selectors(c), key) <==> SelectsAlready(image, c, key)
  {
    PlacedLookup(c, key);
  }

  /** A build leaves the selectors as they are exactly when they have every label it asks for. */
  lemma {:induction false} SelectorsKeptIff(image: string, c: Config)
    ensures Selectors(BuiltConfig(image, c)) == Selectors(c) <==> forall key :: SelectsAlready(image, c, key)
  {
    forall key
      ensures SameLookup(Selectors(BuiltConfig(image, c)), Selectors(c), key) <==> SelectsAlready(image, c, key)
    {
      LabelKeptIff(image, c, key);
    }
    SameMapIff(Selectors(BuiltConfig(image, c)), Selectors(c));
  }

  lemma {:induction false} SameMapIff(m: Labels, n: Labels)
    ensures m == n <==> forall key :: SameLookup(m, n, key)
  {
    if forall key :: SameLookup(m, n, key) {
      assert forall key :: SameLookup(m, n, key) ==> (key in m <==> key in n);
    }
  }

  /** A node affinity is there, if only an empty one. */
  predicate HasNodeAffinity(c: Config) { c.affinity.Some? && c.affinity.value.nodeAffinity.Some? }

  lemma {:induction false} MergeKeepsIff(a: Option<SchedulingModel.Affinity>, prefs: seq<LabelPreference>)
    ensures MergedAffinity(a, prefs) == a <==>
      PreferredTerms(prefs) == [] && (prefs != [] ==> a.Some? && a.value.nodeAffinity.Some?)
    ensures |NodeAffinityOf(MergedAffinity(a, prefs)).preferred|
            == |NodeAffinityOf(a).preferred| + |PreferredTerms(prefs)|
  {
    var terms := PreferredTerms(prefs);
    if terms == [] {
      assert NodeAffinityOf(a).preferred + terms == NodeAffinityOf(a).preferred;
    }
  }

  lemma {:induction false} RoutingKeepsIff(d: Config, arch: string)
    requires arch != ""
    ensures Routed(d, arch).affinity == d.affinity <==> MentionsArch(Required(d))
    ensures Preferred(Routed(d, arch)) == Preferred(d)
    ensures !MentionsArch(Required(d)) ==> |Required(Routed(d, arch))| == |Required(d)| + 1
  {
  }

  /** A build leaves the affinity as it is exactly when it has nothing to add, and nowhere to add it first. */
  lemma {:induction false} AffinityKeptIff(image: string, c: Config)
    ensures BuiltConfig(image, c).affinity == c.affinity <==>
      && PreferredTerms(PreferredLabels(c)) == []
      && (PreferredLabels(c) != [] ==> HasNodeAffinity(c))
      && (ResolveArchitecture(image, c) != "" ==> MentionsArch(Required(c)))
  {
    var arch, d := ResolveArchitecture(image, c), Placed(c);
    MergeKeepsIff(c.affinity, PreferredLabels(c));
    PlacementKeepsRequired(c);
    if arch != "" {
      RoutingKeepsIff(d, arch);
    }
  }

  /**
   A build changes nothing exactly when there are selectors, with every label asked for, and there is
   no preference to add, and the required terms mention a resolved architecture.
   */
  lemma {:induction false} BuildChangesNothingIff(image: string, c: Config)
    ensures BuiltConfig(image, c) == c <==>
      && c.nodeSelectors.Some? && (forall key :: SelectsAlready(image, c, key))
      && PreferredTerms(PreferredLabels(c)) == []
      && (PreferredLabels(c) != [] ==> HasNodeAffinity(c))
      && (ResolveArchitecture(image, c) != "" ==> MentionsArch(Required(c)))
  {
    SelectorsKeptIff(image, c);
    AffinityKeptIff(image, c);
    OnlySchedulingChanges(image, c);
  }

  lemma {:induction false} OnlySchedulingChanges(image: string, c: Config)
    ensures var d := BuiltConfig(image, c);
      d.nodeSelectors.Some? && d == c.(nodeSelectors := d.nodeSelectors, affinity := d.affinity)
  {
  }
}
