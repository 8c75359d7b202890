/**
 Workload specifications as they live on the heap. A driver rewrites the scheduling configuration of
 the specification it is given, so who shares that object matters.
 */
module WorkloadSpecs {
  import opened Text
  import opened SchedulingModel

  class SchedulingConfig {
    var architecture: string
    var nodeSelectors: Option<Labels>
    var affinity: Option<Affinity>
    var nodePlacement: Option<NodePlacement>
    var preferredRegions: seq<string>
    var preferredZones: seq<string>

    constructor ()
      ensures Value() == EMPTY
    {
      architecture, nodeSelectors, affinity := "", None, None;
      nodePlacement, preferredRegions, preferredZones := None, [], [];
    }

    /** Takes over the fields of a configuration. */
    method Become(c: Config)
      modifies this
      ensures Value() == c
    {
      architecture, nodeSelectors, affinity := c.architecture, c.nodeSelectors, c.affinity;
      nodePlacement, preferredRegions, preferredZones := c.nodePlacement, c.preferredRegions, c.preferredZones;
    }

    function Value(): Config reads this {
      Config(architecture, nodeSelectors, affinity, nodePlacement, preferredRegions, preferredZones)
    }
  }

  class EnvMap {
    var entries: map<string, string>
    constructor () ensures entries == map[] { entries := map[]; }
  }

  /** A specification's value, as it is when a backend deploys it. */
  datatype Deployed = Deployed(name: string, namespace: string, image: string, backend: string, replicas: int,
                               env: Option<map<string, string>>, scheduling: Option<Config>)
  {
    /** A missing configuration reads as an empty one. */
    function Intent(): Config { if scheduling.None? then EMPTY else scheduling.value }
  }

  class WorkloadSpec {
    var name: string
    var namespace: string
    var image: string
    var backend: string
    var replicas: int
    var env: EnvMap?
    var scheduling: SchedulingConfig?

    constructor (name: string, namespace: string, image: string, backend: string, replicas: int, env: EnvMap?,
                 scheduling: SchedulingConfig?)
      ensures this.name == name && this.namespace == namespace && this.image == image
      ensures this.backend == backend && this.replicas == replicas
      ensures this.env == env && this.scheduling == scheduling
    {
      this.name, this.namespace, this.image := name, namespace, image;
      this.backend, this.replicas, this.env := backend, replicas, env;
      this.scheduling := scheduling;
    }

    function Intent(): Config
      reads this`scheduling, scheduling
    {
      if scheduling == null then EMPTY else scheduling.Value()
    }

    function Value(): Deployed
      reads this, env, scheduling
    {
      Deployed(name, namespace, image, backend, replicas, if env == null then None else Some(env.entries),
               if scheduling == null then None else Some(scheduling.Value()))
    }
  }
}
