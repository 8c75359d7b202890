/**
 A migration on drivers that place and route: what becomes of the caller's scheduling configuration,
 which both deployments share, and how the second pod differs from the first.
 */
module MigrationScheduling {
  import opened Text
  import opened WorkloadSpecs
  import opened SchedulingModel
  import opened SchedulingMeaning
  import opened SchedulingPreferences
  import NodeSelection
  import Scheduling
  import Migration

  /** What the two passes do, as the drivers' rewriting. */
  const PLACE_AND_ROUTE: Migration.Build := (image: string, c: Config) => BuiltConfig(image, c)

  /** Running the passes on a specification is what a placing deployment does to it. */
  method RewriteByPasses(spec: WorkloadSpec)
    modifies spec`scheduling, spec.scheduling
    ensures spec.scheduling == old(spec.scheduling) || (old(spec.scheduling) == null && fresh(spec.scheduling))
    ensures spec.Value() == Migration.Again(PLACE_AND_ROUTE, old(spec.Value()), 1)
  {
    ghost var was := spec.Value();
    Scheduling.PlaceAndRoute(spec);
    PassesOnce(was.image, was.Intent());
  }

  lemma {:induction false} PassesOnce(image: string, c: Config)
    ensures Migration.Times(PLACE_AND_ROUTE, image, c, 1) == BuiltConfig(image, c)
  {
    assert Migration.Times(PLACE_AND_ROUTE, image, c, 0) == c;
  }

  lemma {:induction false} PassesAreBuilds(image: string, c: Config, n: nat)
    ensures Migration.Times(PLACE_AND_ROUTE, image, c, n) == BuiltTimes(image, c, n)
  {
    for i := 0 to n
      invariant Migration.Times(PLACE_AND_ROUTE, image, c, i) == BuiltTimes(image, c, i)
    {
    }
  }

  /** The caller's specification survives exactly when nothing was placed, or placing changes nothing. */
  lemma {:induction false} CallerSurvivesIff(d: Deployed, n: nat)
    ensures Migration.Reworked(PLACE_AND_ROUTE, d, n) == d <==>
      n == 0 || d.scheduling.None? || BuiltConfig(d.image, d.scheduling.value) == d.scheduling.value
  {
    if d.scheduling.Some? {
      PassesAreBuilds(d.image, d.scheduling.value, n);
      SurvivesBuildsIff(d.image, d.scheduling.value, n);
    }
  }

  /** The pod that the nth deployment of a migration builds. */
  function PodOfTurn(d: Deployed, nth: nat): NodeSelection.PodSpec {
    PodOf(Migration.Turn(PLACE_AND_ROUTE, d, nth, true).Intent())
  }

  /**
   The second deployment's pod against the first's: it admits the same nodes, and scores a node the
   same exactly when the caller gave no scheduling or wishes nothing of the node.
   */
  lemma {:induction false} SecondCopyIff(d: Deployed, node: NodeSelection.Node)
    ensures NodeSelection.Admits(PodOfTurn(d, 2), node) <==> NodeSelection.Admits(PodOfTurn(d, 1), node)
    ensures PodScore(PodOfTurn(d, 2), node) == PodScore(PodOfTurn(d, 1), node)
            <==> d.scheduling.None? || Wishes(PreferredLabels(d.Intent()), node) == 0
  {
    var c := d.Intent();
    PassesOnce(d.image, c);
    PassesAreBuilds(d.image, c, 2);
    assert BuiltTimes(d.image, c, 1) == BuiltConfig(d.image, BuiltTimes(d.image, c, 0));
    RebuiltAdmitsTheSame(d.image, c, node);
    RebuiltScoreIff(d.image, c, node);
  }

  /**
   A migration of a given specification to a placing backend: its scheduling configuration is rewritten
   in the caller's own object, once for each deployment that came that far. It is unchanged afterwards
   exactly when there was none, or no deployment came that far, or the passes change nothing in it.
   */
  method MigrateGiven(fleet: Migration.Fleet, req: Migration.Request, spec: WorkloadSpec, defaultBackend: string,
                      fallbackTimeout: int, parse: string -> Option<int>)
    returns (r: Migration.Outcome)
    requires fleet.Valid() && fleet.Fresh() && fleet.build == PLACE_AND_ROUTE
    modifies fleet, spec.scheduling
    ensures var n, c := Migration.Placements(fleet.log), old(spec.Intent());
      && (spec.scheduling != null ==> spec.scheduling.Value() == BuiltTimes(spec.image, c, n))
      && (spec.Value() == old(spec.Value())
          <==> n == 0 || spec.scheduling == null || BuiltConfig(spec.image, c) == c)
      && n <= Migration.AllPlacements(fleet, req)
      && (r == Migration.Completed ==> n == Migration.AllPlacements(fleet, req))
    // what the caller can check before the call
    ensures r == Migration.Completed ==>
      (spec.Value() == old(spec.Value())
       <==> req.targetBackend !in fleet.placing || spec.scheduling == null
            || BuiltConfig(spec.image, old(spec.Intent())) == old(spec.Intent()))
    ensures req.targetBackend !in fleet.placing || spec.scheduling == null
            || BuiltConfig(spec.image, old(spec.Intent())) == old(spec.Intent())
            ==> spec.Value() == old(spec.Value())
  {
    ghost var given := spec.Value();
    ghost var seen, cut;
    r, seen, cut := Migration.MigrateWorkload(fleet, req, spec, defaultBackend, fallbackTimeout, parse);
    CallerSurvivesIff(given, Migration.Placements(fleet.log));
    PassesAreBuilds(given.image, given.Intent(), Migration.Placements(fleet.log));
  }

  /** A configuration that the passes change: one that only names a region. */
  lemma RegionIsRewritten()
    ensures var c := EMPTY.(preferredRegions := ["eu"]);
      BuiltConfig("img", c) != c && Selectors(BuiltConfig("img", c)) != Selectors(c)
  {
    var c := EMPTY.(preferredRegions := ["eu"]);
    assert TrimSpace("eu") == "eu";
    PlacedLookup(c, REGION_LABEL);
    assert REGION_LABEL in PlacedSelectors(c);
  }
}
