/**
 The migration orchestrator: it copies a workload to another backend, waits for the copy,
 and only then destroys the original, undoing its own deployments when a step fails.

 The outside world is a Fleet. Each driver call picks its outcome nondeterministically
 (including an error returned after the call took effect) and appends itself to a log,
 so that a claim about every prefix of the log is a claim about every moment of the run.
 */
module Migration {
  import opened Text
  import opened WorkloadSpecs
  import opened SchedulingModel

  const SHADOW_SUFFIX := "-migrating"
  const POLL_INTERVAL := 2_000_000_000 // nanoseconds
  const DEFAULT_TIMEOUT := 300_000_000_000

  datatype Status = Status(readyReplicas: int, ready: int, state: string,
                           replicas: int, namespace: string, image: string)

  // ---------------------------------------------------------------------------------------
  // The world and the effect of driver calls on it

  /** `confirmed` holds the (backend, name) pairs whose current copy was seen ready. */
  datatype World = World(stores: map<string, map<string, Deployed>>, confirmed: set<(string, string)>)

  datatype Call =
    | DeployCall(backend: string, spec: Deployed, ok: bool, took: bool, placed: bool)
    | StatusCall(backend: string, name: string, status: Option<Status>)
    | DestroyCall(backend: string, name: string, ok: bool, took: bool)

  predicate ShowsReady(st: Status, replicas: int) {
    || (if st.readyReplicas == 0 then st.ready else st.readyReplicas) >= (if replicas <= 0 then 1 else replicas)
    || EqualFold(st.state, "Running")
  }

  /** On the fields: as many ready as wanted and at least one, by either counter, or the state Running. */
  lemma {:induction false} ShowsReadyIff(st: Status, replicas: int)
    ensures ShowsReady(st, replicas) <==>
      || (st.readyReplicas >= 1 && st.readyReplicas >= replicas)
      || (st.readyReplicas == 0 && st.ready >= 1 && st.ready >= replicas)
      || ToLower(st.state) == "running"
  {
    LowerRunning();
  }

  lemma LowerRunning()
    ensures ToLower("Running") == "running"
  {
    assert forall i :: 0 <= i < 7 ==> LowerChar("Running"[i]) == "running"[i];
  }

  function Apply(w: World, c: Call): (r: World)
    ensures r.stores.Keys == w.stores.Keys
  {
    if c.backend !in w.stores then w else
    var store := w.stores[c.backend];
    match c
    case DeployCall(b, spec, _, took, _) =>
      if took then World(w.stores[b := store[spec.name := spec]], w.confirmed - {(b, spec.name)}) else w
    case StatusCall(b, name, status) =>
      if status.Some? && name in store && ShowsReady(status.value, store[name].replicas)
      then w.(confirmed := w.confirmed + {(b, name)}) else w
    case DestroyCall(b, name, _, took) =>
      if took then World(w.stores[b := store - {name}], w.confirmed - {(b, name)}) else w
  }

  /** The world after a sequence of calls. */
  function Replay(w: World, calls: seq<Call>): (r: World)
    ensures r.stores.Keys == w.stores.Keys
  {
    if calls == [] then w else Apply(Replay(w, calls[..|calls| - 1]), calls[|calls| - 1])
  }

  /** The workload is served: by the source, or by a copy on the target that was seen ready. */
  predicate Available(w: World, source: string, target: string, id: string)
    requires source in w.stores && target in w.stores
  {
    || id in w.stores[source]
    || (id in w.stores[target] && (target, id) in w.confirmed)
  }

  /** Available at the start and after each of the calls. */
  ghost predicate AlwaysAvailable(w: World, calls: seq<Call>, source: string, target: string, id: string)
    requires source in w.stores && target in w.stores
  {
    forall k {:trigger calls[..k]} :: 0 <= k <= |calls| ==> Available(Replay(w, calls[..k]), source, target, id)
  }

  lemma {:induction false} ReplayStep(w: World, calls: seq<Call>, c: Call)
    ensures Replay(w, calls + [c]) == Apply(Replay(w, calls), c)
  {
    assert (calls + [c])[..|calls|] == calls;
  }

  lemma {:induction false} AvailableStep(w: World, calls: seq<Call>, c: Call, source: string, target: string,
                                         id: string)
    requires source in w.stores && target in w.stores
    requires AlwaysAvailable(w, calls, source, target, id)
    requires Available(Apply(Replay(w, calls), c), source, target, id)
    ensures AlwaysAvailable(w, calls + [c], source, target, id)
  {
    var all := calls + [c];
    forall k | 0 <= k <= |all| ensures Available(Replay(w, all[..k]), source, target, id) {
      if k == |all| {
        assert all[..k] == all;
        ReplayStep(w, calls, c);
      } else {
        assert all[..k] == calls[..k];
      }
    }
  }

  /** A fault is a failed deployment that left something behind, or a failed destroy. */
  predicate Faultless(calls: seq<Call>) {
    forall c <- calls :: (c.DeployCall? && !c.ok ==> !c.took) && (c.DestroyCall? ==> c.ok)
  }

  lemma {:induction false} FaultlessPrefix(calls: seq<Call>, more: seq<Call>)
    requires calls <= more
    ensures Faultless(more) ==> Faultless(calls)
  {
    assert forall c <- calls :: c in more;
  }

  // ---------------------------------------------------------------------------------------
  // The drivers

  // What a deployment does to the specification it is given

  /** What a placing driver makes of the scheduling configuration of a workload with this image. */
  type Build = (string, Config) -> Config

  function Times(build: Build, image: string, c: Config, n: nat): Config {
    if n == 0 then c else build(image, Times(build, image, c, n - 1))
  }

  /** After `n` placing drivers have deployed it. */
  function Again(build: Build, d: Deployed, n: nat): Deployed {
    if n == 0 then d else d.(scheduling := Some(Times(build, d.image, d.Intent(), n)))
  }

  /** The same for a specification whose clones were deployed: they share its scheduling object, if it has one. */
  function Reworked(build: Build, d: Deployed, n: nat): Deployed {
    if d.scheduling.None? then d else Again(build, d, n)
  }

  /** A clone as the nth deployment of a migration sends it. */
  function Turn(build: Build, d: Deployed, nth: nat, places: bool): Deployed {
    if !places then d else if d.scheduling.None? then Again(build, d, 1) else Again(build, d, nth)
  }

  function Placements(calls: seq<Call>): nat {
    if calls == [] then 0 else
    Placements(calls[..|calls| - 1]) + if calls[|calls| - 1].DeployCall? && calls[|calls| - 1].placed then 1 else 0
  }

  /**
   `log` records every call since `origin`; both exist for the proof only. The drivers of the backends
   in `placing` (docker and kubernetes) rewrite the specification they are given, by `build`.
   */
  class Fleet {
    const placing: set<string>
    const build: Build
    var stores: map<string, map<string, Deployed>>
    var now: int
    ghost var placements: nat
    ghost var confirmed: set<(string, string)>
    ghost var origin: World
    ghost var log: seq<Call>

    ghost function Current(): World reads this { World(stores, confirmed) }

    ghost predicate Valid() reads this {
      Current() == Replay(origin, log) && placements == Placements(log)
    }

    /** Recording starts here. */
    ghost predicate Fresh() reads this { log == [] && origin == Current() }

    constructor (placing: set<string>, build: Build, stores: map<string, map<string, Deployed>>, now: int)
      ensures Valid() && Fresh() && this.placing == placing && this.build == build && this.stores == stores
    {
      this.placing, this.build, this.stores, this.now, placements := placing, build, stores, now, 0;
      confirmed, origin, log := {}, World(stores, {}), [];
    }

    /** Later in the same run. */
    twostate predicate Continued() reads this {
      origin == old(origin) && old(log) <= log && now >= old(now)
    }

    ghost method Record(c: Call)
      requires Current() == Apply(Replay(origin, log), c) && placements == Placements(log)
      modifies this`log, this`placements
      ensures Valid() && log == old(log) + [c]
      ensures placements == old(placements) + if c.DeployCall? && c.placed then 1 else 0
    {
      ghost var w := Current();
      ReplayStep(origin, log, c);
      assert (log + [c])[..|log|] == log;
      log := log + [c];
      placements := placements + if c.DeployCall? && c.placed then 1 else 0;
      assert Current() == w;
    }

    method Elapse(atLeast: nat)
      requires Valid()
      modifies this`now
      ensures Valid() && now >= old(now) + atLeast
    {
      var d: nat :| d >= atLeast;
      now := now + d;
    }

    /**
     A driver in `placing` rewrites the specification before it deploys it; a call that failed may or
     may not have come that far.
     */
    method Deploy(backend: string, spec: WorkloadSpec)
      returns (ok: bool, ghost sent: Deployed, ghost took: bool, ghost placed: bool)
      requires Valid() && backend in stores
      modifies this, spec`scheduling, spec.scheduling
      ensures Valid() && origin == old(origin) && (ok ==> took) && now >= old(now)
      ensures log == old(log) + [DeployCall(backend, sent, ok, took, placed)]
      ensures placements == old(placements) + if placed then 1 else 0
      ensures stores == if took then old(stores)[backend := old(stores)[backend][sent.name := sent]] else old(stores)
      ensures spec.scheduling == old(spec.scheduling) || (old(spec.scheduling) == null && fresh(spec.scheduling))
      ensures sent == spec.Value() == Again(build, old(spec.Value()), if placed then 1 else 0)
      ensures (placed ==> backend in placing) && (took && backend in placing ==> placed)
    {
      ok := *;
      var effect: bool := *;
      effect := effect || ok;
      took := effect;
      placed := Rewrite(backend, spec, effect);
      sent := spec.Value();
      Commit(backend, spec.Value(), ok, effect, placed);
    }

    /** The call on the backend, with the specification's value at that time. */
    method Commit(backend: string, sent: Deployed, ok: bool, effect: bool, ghost placed: bool)
      requires Valid() && backend in stores
      modifies this
      ensures Valid() && origin == old(origin) && now == old(now)
      ensures log == old(log) + [DeployCall(backend, sent, ok, effect, placed)]
      ensures placements == old(placements) + if placed then 1 else 0
      ensures stores == if effect then old(stores)[backend := old(stores)[backend][sent.name := sent]] else old(stores)
    {
      ghost var c := DeployCall(backend, sent, ok, effect, placed);
      confirmed := Apply(Current(), c).confirmed;
      if effect {
        stores := stores[backend := stores[backend][sent.name := sent]];
      }
      Record(c);
    }

    method Rewrite(backend: string, spec: WorkloadSpec, certain: bool) returns (placed: bool)
      modifies spec`scheduling, spec.scheduling
      ensures spec.scheduling == old(spec.scheduling) || (old(spec.scheduling) == null && fresh(spec.scheduling))
      ensures spec.Value() == Again(build, old(spec.Value()), if placed then 1 else 0)
      ensures (placed ==> backend in placing) && (certain && backend in placing ==> placed)
    {
      var anyway: bool := *;
      placed := backend in placing && (certain || anyway);
      if placed {
        var c := build(spec.image, spec.Intent());
        assert Times(build, spec.image, spec.Intent(), 1)
            == build(spec.image, Times(build, spec.image, spec.Intent(), 0));
        if spec.scheduling == null {
          spec.scheduling := new SchedulingConfig();
        }
        spec.scheduling.Become(c);
      }
    }

    method Destroy(backend: string, name: string) returns (ok: bool, ghost took: bool)
      requires Valid() && backend in stores
      modifies this
      ensures Valid() && origin == old(origin) && (ok ==> took) && now >= old(now)
      ensures log == old(log) + [DestroyCall(backend, name, ok, took)] && placements == old(placements)
      ensures stores == if took then old(stores)[backend := old(stores)[backend] - {name}] else old(stores)
    {
      ok := *;
      var effect: bool := *;
      effect := effect || ok;
      took := effect;
      ghost var c := DestroyCall(backend, name, ok, took);
      confirmed := Apply(Current(), c).confirmed;
      if effect {
        stores := stores[backend := stores[backend] - {name}];
      }
      Record(c);
    }

    method GetStatus(backend: string, name: string) returns (status: Option<Status>)
      requires Valid() && backend in stores
      modifies this
      ensures Valid() && origin == old(origin) && now >= old(now)
      ensures log == old(log) + [StatusCall(backend, name, status)] && placements == old(placements)
      ensures stores == old(stores)
      ensures status.Some? && name in stores[backend] && ShowsReady(status.value, stores[backend][name].replicas)
        ==> (backend, name) in confirmed
    {
      status := *;
      Elapse(0);
      ghost var c := StatusCall(backend, name, status);
      confirmed := Apply(Current(), c).confirmed;
      Record(c);
    }
  }

  // ---------------------------------------------------------------------------------------
  // Copying the specification

  /** cloneSpec: the same value, in a new object with its own environment but the same scheduling object. */
  method CloneSpec(spec: WorkloadSpec?) returns (copy: WorkloadSpec)
    ensures fresh(copy) && (copy.env != null ==> fresh(copy.env))
    ensures spec == null ==> copy.Value() == Deployed("", "", "", "", 0, None, None)
    ensures spec != null ==> copy.Value() == spec.Value() && copy.scheduling == spec.scheduling
  {
    if spec == null {
      copy := new WorkloadSpec("", "", "", "", 0, null, null);
      return;
    }
    copy := new WorkloadSpec(spec.name, spec.namespace, spec.image, spec.backend, spec.replicas, null,
                             spec.scheduling);
    if spec.env != null {
      var entries := new EnvMap();
      var todo := spec.env.entries.Keys;
      while todo != {}
        invariant todo <= spec.env.entries.Keys
        invariant entries.entries.Keys == spec.env.entries.Keys - todo
        invariant forall k <- entries.entries :: entries.entries[k] == spec.env.entries[k]
        modifies entries
      {
        var k :| k in todo;
        entries.entries := entries.entries[k := spec.env.entries[k]];
        todo := todo - {k};
      }
      assert entries.entries == spec.env.entries;
      copy.env := entries;
    }
  }

  // ---------------------------------------------------------------------------------------
  // Waiting

  datatype WaitResult = Ready | TimedOut | StatusError | Cancelled

  function PollBound(timeout: int): nat {
    if timeout < 0 then 0 else timeout / POLL_INTERVAL + 1
  }

  predicate PollsOf(calls: seq<Call>, backend: string, name: string) {
    forall c <- calls :: c.StatusCall? && c.backend == backend && c.name == name
  }

  /** What one poll means for the wait: None to go on. */
  function Answer(c: Call, replicas: int): Option<WaitResult>
    requires c.StatusCall?
  {
    if c.status.None? then Some(StatusError)
    else if ShowsReady(c.status.value, replicas) then Some(Ready)
    else None
  }

  /** A wait ends at the first poll that settles it. */
  predicate WaitedFor(polls: seq<Call>, replicas: int, r: WaitResult)
    requires forall c <- polls :: c.StatusCall?
  {
    if r.TimedOut? || r.Cancelled? then NoneSettles(polls, replicas)
    else
      && polls != []
      && NoneSettles(polls[..|polls| - 1], replicas)
      && Answer(polls[|polls| - 1], replicas) == Some(r)
  }

  predicate NoneSettles(polls: seq<Call>, replicas: int)
    requires forall c <- polls :: c.StatusCall?
  {
    forall c <- polls :: Answer(c, replicas).None?
  }

  /** What a finished wait says about the fields of each answer. */
  lemma {:induction false} WaitedMeaning(polls: seq<Call>, replicas: int, r: WaitResult, k: nat)
    requires (forall c <- polls :: c.StatusCall?) && WaitedFor(polls, replicas, r) && k < |polls|
    ensures polls[k].status.None? <==> r.StatusError? && k == |polls| - 1
    ensures polls[k].status.Some? ==>
      var st := polls[k].status.value;
      (r.Ready? && k == |polls| - 1
       <==> || (st.readyReplicas >= 1 && st.readyReplicas >= replicas)
            || (st.readyReplicas == 0 && st.ready >= 1 && st.ready >= replicas)
            || ToLower(st.state) == "running")
  {
    if polls[k].status.Some? {
      ShowsReadyIff(polls[k].status.value, replicas);
    }
    if k < |polls| - 1 && !(r.TimedOut? || r.Cancelled?) {
      assert polls[k] in polls[..|polls| - 1];
    }
    assert polls[k] in polls;
  }

  lemma {:induction false} WaitedMore(polls: seq<Call>, c: Call, backend: string, name: string, replicas: int)
    requires PollsOf(polls, backend, name) && NoneSettles(polls, replicas)
    requires c.StatusCall? && c.backend == backend && c.name == name
    ensures var all := polls + [c];
      && PollsOf(all, backend, name)
      && match Answer(c, replicas)
         case None => NoneSettles(all, replicas) && WaitedFor(all, replicas, Cancelled)
         case Some(r) => WaitedFor(all, replicas, r)
  {
    assert (polls + [c])[..|polls|] == polls;
  }

  method WaitUntilReady(fleet: Fleet, backend: string, name: string, replicas: int, timeout: int)
    returns (r: WaitResult, ghost polls: seq<Call>)
    requires fleet.Valid() && backend in fleet.stores
    modifies fleet
    ensures fleet.Valid() && fleet.Continued() && fleet.stores == old(fleet.stores)
    ensures fleet.log == old(fleet.log) + polls && PollsOf(polls, backend, name)
    ensures |polls| <= if timeout < 0 then 0 else timeout / 2_000_000_000 + 1
    ensures WaitedFor(polls, replicas, r) && fleet.placements == old(fleet.placements)
    // on the answers' fields: ready at the first one that shows enough, and no other way
    ensures forall k | 0 <= k < |polls| :: polls[k].status.Some? ==>
      var st := polls[k].status.value;
      (r.Ready? && k == |polls| - 1
       <==> || (st.readyReplicas >= 1 && st.readyReplicas >= replicas)
            || (st.readyReplicas == 0 && st.ready >= 1 && st.ready >= replicas)
            || ToLower(st.state) == "running")
    ensures forall k | 0 <= k < |polls| :: polls[k].status.None? <==> r.StatusError? && k == |polls| - 1
    ensures r.Ready? || r.StatusError? ==> polls != []
    ensures r.TimedOut? ==> fleet.now > old(fleet.now) + timeout
    ensures r.Ready? && name in fleet.stores[backend] && fleet.stores[backend][name].replicas == replicas
      ==> (backend, name) in fleet.confirmed
  {
    r, polls := PollUntilReady(fleet, backend, name, replicas, timeout);
    forall k | 0 <= k < |polls|
      ensures polls[k].status.None? <==> r.StatusError? && k == |polls| - 1
      ensures polls[k].status.Some? ==>
        var st := polls[k].status.value;
        (r.Ready? && k == |polls| - 1
         <==> || (st.readyReplicas >= 1 && st.readyReplicas >= replicas)
              || (st.readyReplicas == 0 && st.ready >= 1 && st.ready >= replicas)
              || ToLower(st.state) == "running")
    {
      WaitedMeaning(polls, replicas, r, k);
    }
  }

  method PollUntilReady(fleet: Fleet, backend: string, name: string, replicas: int, timeout: int)
    returns (r: WaitResult, ghost polls: seq<Call>)
    requires fleet.Valid() && backend in fleet.stores
    modifies fleet
    ensures fleet.Valid() && fleet.Continued() && fleet.stores == old(fleet.stores)
    ensures fleet.log == old(fleet.log) + polls && PollsOf(polls, backend, name)
    ensures |polls| <= PollBound(timeout) && WaitedFor(polls, replicas, r) && fleet.placements == old(fleet.placements)
    ensures r.TimedOut? ==> fleet.now > old(fleet.now) + timeout
    ensures r.Ready? && name in fleet.stores[backend] && fleet.stores[backend][name].replicas == replicas
      ==> (backend, name) in fleet.confirmed
  {
    fleet.Elapse(0);
    var deadline := fleet.now + timeout;
    polls := [];
    ghost var begun := fleet.now;
    while true
      invariant fleet.Valid() && fleet.Continued() && fleet.stores == old(fleet.stores)
      invariant fleet.placements == old(fleet.placements)
      invariant fleet.log == old(fleet.log) + polls
      invariant begun >= old(fleet.now) && fleet.now >= begun + |polls| * POLL_INTERVAL
      invariant |polls| <= PollBound(timeout) && PollsOf(polls, backend, name) && NoneSettles(polls, replicas)
      decreases deadline - fleet.now
    {
      fleet.Elapse(0);
      if fleet.now > deadline {
        return TimedOut, polls;
      }
      var answer, poll := Poll(fleet, backend, name, replicas);
      WaitedMore(polls, poll, backend, name, replicas);
      Regroup(old(fleet.log), polls, [poll]);
      polls := polls + [poll];
      if answer.Some? {
        return answer.value, polls;
      }
      var cancelled: bool := *;
      if cancelled {
        return Cancelled, polls;
      }
      fleet.Elapse(POLL_INTERVAL);
    }
  }

  method Poll(fleet: Fleet, backend: string, name: string, replicas: int)
    returns (answer: Option<WaitResult>, ghost poll: Call)
    requires fleet.Valid() && backend in fleet.stores
    modifies fleet
    ensures fleet.Valid() && fleet.Continued() && fleet.stores == old(fleet.stores)
    ensures poll.StatusCall? && poll.backend == backend && poll.name == name
    ensures fleet.log == old(fleet.log) + [poll] && answer == Answer(poll, replicas)
    ensures fleet.placements == old(fleet.placements)
    ensures answer == Some(Ready) && name in fleet.stores[backend] && fleet.stores[backend][name].replicas == replicas
      ==> (backend, name) in fleet.confirmed
  {
    var wanted := if replicas <= 0 then 1 else replicas;
    var status := fleet.GetStatus(backend, name);
    poll := StatusCall(backend, name, status);
    if status.None? {
      return Some(StatusError), poll;
    }
    var ready := status.value.readyReplicas;
    if ready == 0 {
      ready := status.value.ready;
    }
    answer := if ready >= wanted || EqualFold(status.value.state, "Running") then Some(Ready) else None;
  }

  /** parseTimeout; `parse` stands for time.ParseDuration. */
  function ParseTimeout(raw: string, fallback: int, parse: string -> Option<int>): (d: int)
    ensures d > 0
    ensures TrimSpace(raw) == "" && fallback > 0 ==> d == fallback
    ensures TrimSpace(raw) != "" && parse(TrimSpace(raw)).Some? && parse(TrimSpace(raw)).value > 0
            ==> d == parse(TrimSpace(raw)).value
    ensures (if TrimSpace(raw) == "" then fallback <= 0
             else parse(TrimSpace(raw)).None? || parse(TrimSpace(raw)).value <= 0)
            ==> d == 300_000_000_000
  {
    var t := TrimSpace(raw);
    if t == "" then (if fallback <= 0 then DEFAULT_TIMEOUT else fallback)
    else match parse(t)
      case None => DEFAULT_TIMEOUT
      case Some(d) => if d <= 0 then DEFAULT_TIMEOUT else d
  }

  // ---------------------------------------------------------------------------------------
  // The protocol

  datatype Request = Request(workloadID: string, sourceBackend: string, targetBackend: string,
                             namespace: string, zeroDowntime: bool, readyTimeout: string)

  datatype Failure =
    | InvalidRequest | SameBackend | NoSourceDriver | NoTargetDriver | StatusUnavailable
    | ShadowDeployFailed | ShadowNotReady(waited: WaitResult)
    | DeployFailed | NotReady(waited: WaitResult) | SourceDestroyFailed

  datatype Outcome = Completed | Failed(failure: Failure)

  function SourceOf(req: Request, defaultBackend: string): string {
    if req.sourceBackend == "" then defaultBackend else req.sourceBackend
  }

  function ShadowOf(req: Request): string { req.workloadID + SHADOW_SUFFIX }

  /** The names an exit before the source is destroyed has deployed on the target and taken away again. */
  function Withdrawn(req: Request, f: Failure): set<string> {
    var shadow := if req.zeroDowntime then {ShadowOf(req)} else {};
    match f
    case ShadowNotReady(_) => {ShadowOf(req)}
    case DeployFailed => shadow
    case NotReady(_) => if req.zeroDowntime then {ShadowOf(req), req.workloadID} else {req.workloadID}
    case _ => {}
  }

  /** What a failure rests on: a call that failed, or a wait that was cancelled or took too long. */
  ghost predicate Warranted(calls: seq<Call>, f: Failure, elapsed: int, timeout: int) {
    match f
    case ShadowDeployFailed => exists c <- calls :: c.DeployCall? && !c.ok
    case DeployFailed => exists c <- calls :: c.DeployCall? && !c.ok
    case SourceDestroyFailed => exists c <- calls :: c.DestroyCall? && !c.ok
    case ShadowNotReady(w) => WaitFailed(calls, w, elapsed, timeout)
    case NotReady(w) => WaitFailed(calls, w, elapsed, timeout)
    case _ => true
  }

  ghost predicate WaitFailed(calls: seq<Call>, w: WaitResult, elapsed: int, timeout: int) {
    match w
    case Ready => false
    case TimedOut => elapsed > timeout
    case StatusError => exists c <- calls :: c.StatusCall? && c.status.None?
    case Cancelled => true
  }

  lemma {:induction false} WaitFailedLater(calls: seq<Call>, more: seq<Call>, w: WaitResult, elapsed: int,
                                           elapsed': int, timeout: int)
    requires WaitFailed(calls, w, elapsed, timeout) && calls <= more && elapsed <= elapsed'
    ensures WaitFailed(more, w, elapsed', timeout)
  {
    if w.StatusError? {
      var c :| c in calls && c.StatusCall? && c.status.None?;
      assert c in more;
    }
  }

  /** The names the orchestrator may touch on a backend. */
  function Footprint(req: Request, source: string, b: string): set<string> {
    if b == source then {req.workloadID}
    else if b != req.targetBackend then {}
    else if req.zeroDowntime then {req.workloadID, ShadowOf(req)}
    else {req.workloadID}
  }

  /**
   What holds between any two calls of a migration out of `source`: the workload was available
   throughout, and no backend changed outside the footprint.
   */
  ghost predicate Sound(w0: World, calls: seq<Call>, req: Request, source: string) {
    && source != req.targetBackend
    && source in w0.stores && req.targetBackend in w0.stores
    && (req.workloadID in w0.stores[source]
        ==> AlwaysAvailable(w0, calls, source, req.targetBackend, req.workloadID))
    && forall b <- w0.stores ::
         Replay(w0, calls).stores[b] - Footprint(req, source, b) == w0.stores[b] - Footprint(req, source, b)
  }

  function Subject(c: Call): string {
    match c
    case DeployCall(_, spec, _, _, _) => spec.name
    case StatusCall(_, name, _) => name
    case DestroyCall(_, name, _, _) => name
  }

  lemma {:induction false} SoundCall(w0: World, calls: seq<Call>, c: Call, req: Request, source: string)
    requires Sound(w0, calls, req, source)
    requires Subject(c) in Footprint(req, source, c.backend)
    requires req.workloadID in w0.stores[source]
             ==> Available(Apply(Replay(w0, calls), c), source, req.targetBackend, req.workloadID)
    ensures Sound(w0, calls + [c], req, source)
    ensures Replay(w0, calls + [c]) == Apply(Replay(w0, calls), c)
  {
    ReplayStep(w0, calls, c);
    if req.workloadID in w0.stores[source] {
      AvailableStep(w0, calls, c, source, req.targetBackend, req.workloadID);
    }
    var w, w' := Replay(w0, calls), Apply(Replay(w0, calls), c);
    forall b <- w0.stores
      ensures w'.stores[b] - Footprint(req, source, b) == w0.stores[b] - Footprint(req, source, b)
    {
      assert w'.stores[b] - Footprint(req, source, b) == w.stores[b] - Footprint(req, source, b);
    }
  }

  lemma {:induction false} SoundPolls(w0: World, calls: seq<Call>, polls: seq<Call>, name: string, req: Request,
                                      source: string)
    requires Sound(w0, calls, req, source)
    requires PollsOf(polls, req.targetBackend, name)
    requires name in Footprint(req, source, req.targetBackend)
    ensures Sound(w0, calls + polls, req, source)
  {
    if polls == [] {
      assert calls + polls == calls;
    } else {
      var n := |polls| - 1;
      SoundPolls(w0, calls, polls[..n], name, req, source);
      assert calls + polls == (calls + polls[..n]) + [polls[n]];
      var before := calls + polls[..n];
      assert before[..|before|] == before;
      SoundCall(w0, before, polls[n], req, source);
    }
  }

  lemma {:induction false} ShadowDiffers(req: Request)
    ensures ShadowOf(req) != req.workloadID
  {
    assert |ShadowOf(req)| > |req.workloadID|;
  }

  predicate ValidRequest(req: Request) {
    TrimSpace(req.workloadID) != "" && TrimSpace(req.targetBackend) != ""
  }

  /** The exits taken before any driver is called. */
  function Refusal(req: Request, source: string, backends: set<string>): Option<Failure> {
    if !ValidRequest(req) then Some(InvalidRequest)
    else if req.targetBackend == source then Some(SameBackend)
    else if source !in backends then Some(NoSourceDriver)
    else if req.targetBackend !in backends then Some(NoTargetDriver)
    else None
  }

  type Stores = map<string, map<string, Deployed>>

  function Stored(stores: Stores, b: string, spec: Deployed): Stores
    requires b in stores
  {
    stores[b := stores[b][spec.name := spec]]
  }

  function Removed(stores: Stores, b: string, names: set<string>): Stores
    requires b in stores
  {
    stores[b := stores[b] - names]
  }

  lemma {:induction false} RemovedNothing(stores: Stores, b: string)
    requires b in stores
    ensures Removed(stores, b, {}) == stores
  {
    assert stores[b] - {} == stores[b];
  }

  lemma {:induction false} RemovedStored(stores: Stores, b: string, spec: Deployed)
    requires b in stores
    ensures Removed(Stored(stores, b, spec), b, {spec.name}) == Removed(stores, b, {spec.name})
  {
    assert stores[b][spec.name := spec] - {spec.name} == stores[b] - {spec.name};
  }

  /**
   Taking the withdrawn names away, as a rollback without faults does, restores the target exactly
   when they were free there: a workload already deployed under one of them is lost.
   */
  lemma {:induction false} RollbackRestoresIff(stores: Stores, req: Request, f: Failure)
    requires req.targetBackend in stores
    ensures var after := Removed(stores, req.targetBackend, Withdrawn(req, f));
      after == stores <==> stores[req.targetBackend].Keys !! Withdrawn(req, f)
  {
    var m, gone := stores[req.targetBackend], Withdrawn(req, f);
    var after := Removed(stores, req.targetBackend, gone);
    assert after[req.targetBackend] == m - gone;
    if m.Keys !! gone {
      assert m - gone == m;
    } else {
      var n :| n in m && n in gone;
      assert n !in m - gone;
    }
  }

  /** The failures after which the target is rolled back. */
  predicate RollsBack(req: Request, f: Failure) {
    f.DeployFailed? || f.NotReady? || (req.zeroDowntime && (f.ShadowDeployFailed? || f.ShadowNotReady?))
  }

  /**
   Before the call: every rollback that can happen without faults restores the target exactly when
   neither the workload's name nor, for a zero-downtime migration, the shadow's is deployed there.
   */
  lemma {:induction false} EveryRollbackRestoresIff(stores: Stores, req: Request)
    requires req.targetBackend in stores
    ensures (forall f | RollsBack(req, f) :: Removed(stores, req.targetBackend, Withdrawn(req, f)) == stores)
            <==> && req.workloadID !in stores[req.targetBackend]
                 && (req.zeroDowntime ==> ShadowOf(req) !in stores[req.targetBackend])
  {
    forall f | RollsBack(req, f)
      ensures Removed(stores, req.targetBackend, Withdrawn(req, f)) == stores
              <==> stores[req.targetBackend].Keys !! Withdrawn(req, f)
    {
      RollbackRestoresIff(stores, req, f);
    }
    assert RollsBack(req, NotReady(TimedOut));
  }

  /** The specification a request without one is given, from the source's status. */
  function DerivedSpec(req: Request, source: string, st: Status): Deployed {
    Deployed(req.workloadID, FirstNonEmpty(req.namespace, st.namespace), st.image, source,
             if st.replicas > 1 then st.replicas else 1, None, None)
  }

  /** The specification as deployed on the target under `name`. */
  function CopyOf(spec: Deployed, name: string, target: string): Deployed {
    spec.(name := name, backend := target)
  }

  function ShadowCopy(req: Request, build: Build, spec: Deployed, places: bool): Deployed {
    CopyOf(Turn(build, spec, 1, places), ShadowOf(req), req.targetBackend)
  }

  /** The real copy is the second deployment when there was a shadow. */
  function RealCopy(req: Request, build: Build, spec: Deployed, places: bool): Deployed {
    CopyOf(Turn(build, spec, if req.zeroDowntime then 2 else 1, places), req.workloadID, req.targetBackend)
  }

  predicate ReadyPoll(c: Call, backend: string, name: string, replicas: int) {
    c.StatusCall? && c.backend == backend && c.name == name && c.status.Some? && ShowsReady(c.status.value, replicas)
  }

  predicate SourceDestroy(c: Call, source: string, name: string) {
    c.DestroyCall? && c.backend == source && c.name == name
  }

  ghost predicate SeenReady(calls: seq<Call>, target: string, id: string, replicas: int) {
    exists k :: 0 <= k < |calls| && ReadyPoll(calls[k], target, id, replicas)
  }

  /** The target showed the workload ready before the source was told to destroy it. */
  ghost predicate ReadyBeforeDestroy(calls: seq<Call>, source: string, target: string, id: string, replicas: int) {
    exists k, j ::
      0 <= k < j < |calls| && ReadyPoll(calls[k], target, id, replicas) && SourceDestroy(calls[j], source, id)
  }

  lemma {:induction false} ReadyThenDestroy(calls: seq<Call>, c: Call, source: string, target: string, id: string,
                                            replicas: int)
    requires SeenReady(calls, target, id, replicas) && SourceDestroy(c, source, id)
    ensures ReadyBeforeDestroy(calls + [c], source, target, id, replicas)
  {
    var k :| 0 <= k < |calls| && ReadyPoll(calls[k], target, id, replicas);
    var all := calls + [c];
    assert all[k] == calls[k] && all[|calls|] == c;
  }

  lemma {:induction false} ReadyBeforeDestroyLater(calls: seq<Call>, c: Call, source: string, target: string,
                                                   id: string, replicas: int)
    requires ReadyBeforeDestroy(calls, source, target, id, replicas)
    ensures ReadyBeforeDestroy(calls + [c], source, target, id, replicas)
  {
    var k, j :|
      0 <= k < j < |calls| && ReadyPoll(calls[k], target, id, replicas) && SourceDestroy(calls[j], source, id);
    var all := calls + [c];
    assert all[k] == calls[k] && all[j] == calls[j];
  }

  /** What each exit leaves behind, once both drivers were found; `copy` and `shadow` are the copies to be deployed. */
  ghost predicate Exit(w0: World, calls: seq<Call>, w: World, req: Request, source: string, copy: Deployed,
                       shadow: Deployed, r: Outcome)
    requires source in w0.stores && req.targetBackend in w0.stores
    requires w.stores.Keys == w0.stores.Keys
  {
    var id, target := req.workloadID, req.targetBackend;
    match r
    case Completed =>
      // cut over: gone from the source, ready on the target, the shadow cleaned up
      && w.stores[source] == w0.stores[source] - {id}
      && id in w.stores[target] && (target, id) in w.confirmed
      && w.stores[target][id] == copy
      && ReadyBeforeDestroy(calls, source, target, id, copy.replicas)
      && (req.zeroDowntime && Faultless(calls) ==> ShadowOf(req) !in w.stores[target])
    case Failed(SourceDestroyFailed) =>
      // no compensation: the ready copy and the shadow stay on the target
      && calls != [] && calls[|calls| - 1].DestroyCall? && !calls[|calls| - 1].ok
      && calls[|calls| - 1].backend == source && calls[|calls| - 1].name == id
      && id in w.stores[target] && (target, id) in w.confirmed
      && w.stores[target][id] == copy
      && ReadyBeforeDestroy(calls, source, target, id, copy.replicas)
      && (req.zeroDowntime ==> ShadowOf(req) in w.stores[target]
                               && w.stores[target][ShadowOf(req)] == shadow)
    case Failed(f) =>
      // rolled back: the source is as it was, the target lost at most what was deployed
      && w.stores[source] == w0.stores[source]
      && (Faultless(calls) ==>
            w.stores == Removed(w0.stores, target, Withdrawn(req, f)))
  }

  /** At most one placement, and exactly one when a deployment on a placing backend succeeded. */
  predicate OncePlaced(before: nat, after: nat, places: bool, succeeded: bool) {
    before <= after <= before + (if places then 1 else 0) && (succeeded && places ==> after == before + 1)
  }

  /**
   The same for whole runs. Without `Faultless` it fails: a destroy that fails leaves the copy behind,
   and a deployment that fails may have left one.
   */
  lemma {:induction false} RolledBackRunRestoresIff(w0: World, calls: seq<Call>, w: World, req: Request, source: string,
                                                    copy: Deployed, shadow: Deployed, f: Failure)
    requires source in w0.stores && req.targetBackend in w0.stores && w.stores.Keys == w0.stores.Keys
    requires Exit(w0, calls, w, req, source, copy, shadow, Failed(f)) && f != SourceDestroyFailed && Faultless(calls)
    ensures w.stores == w0.stores <==> w0.stores[req.targetBackend].Keys !! Withdrawn(req, f)
  {
    RollbackRestoresIff(w0.stores, req, f);
  }

  /** A destroy that fails without effect leaves the copy on the target, whose name was free before. */
  lemma {:induction false} FailedWithdrawalLeavesCopy(w0: World, b: string, copy: Deployed)
    requires b in w0.stores && copy.name !in w0.stores[b]
    ensures var calls := [DeployCall(b, copy, true, true, false), DestroyCall(b, copy.name, false, false)];
      !Faultless(calls) && Replay(w0, calls).stores != w0.stores && copy.name in Replay(w0, calls).stores[b]
  {
    var deploy, destroy := DeployCall(b, copy, true, true, false), DestroyCall(b, copy.name, false, false);
    ReplayStep(w0, [], deploy);
    ReplayStep(w0, [deploy], destroy);
    assert [] + [deploy] == [deploy] && [deploy] + [destroy] == [deploy, destroy];
    assert destroy in [deploy, destroy];
  }

  /** The orchestrator is between calls and has not yet touched the source. */
  ghost predicate Preparing(fleet: Fleet, req: Request, source: string)
    reads fleet
  {
    && fleet.Valid() && Sound(fleet.origin, fleet.log, req, source)
    && fleet.stores.Keys == fleet.origin.stores.Keys
    && fleet.stores[source] == fleet.origin.stores[source]
  }

  method DeployCopy(fleet: Fleet, req: Request, ghost source: string, spec: WorkloadSpec)
    returns (deployed: bool, ghost sent: Deployed)
    requires Preparing(fleet, req, source)
    requires spec.name in Footprint(req, source, req.targetBackend)
    modifies fleet, spec`scheduling, spec.scheduling
    ensures Preparing(fleet, req, source) && fleet.Continued()
    ensures deployed ==> fleet.stores == Stored(old(fleet.stores), req.targetBackend, sent)
    ensures !deployed && Faultless(fleet.log) ==> fleet.stores == old(fleet.stores)
    ensures !deployed ==> exists c <- fleet.log :: c.DeployCall? && !c.ok
    ensures |fleet.log| == |old(fleet.log)| + 1
    ensures spec.scheduling == old(spec.scheduling) || (old(spec.scheduling) == null && fresh(spec.scheduling))
    ensures OncePlaced(old(fleet.placements), fleet.placements, req.targetBackend in fleet.placing, deployed)
    ensures sent == spec.Value() == Again(fleet.build, old(spec.Value()), fleet.placements - old(fleet.placements))
  {
    ghost var took, placed;
    deployed, sent, took, placed := fleet.Deploy(req.targetBackend, spec);
    assert sent.name in Footprint(req, source, req.targetBackend);
    CopySent(fleet.origin, old(fleet.log), DeployCall(req.targetBackend, sent, deployed, took, placed), req, source);
  }

  method CloneAs(spec: WorkloadSpec, name: string, target: string) returns (copy: WorkloadSpec)
    ensures fresh(copy) && (copy.env != null ==> fresh(copy.env)) && copy.scheduling == spec.scheduling
    ensures copy.name == name && copy.Value() == CopyOf(spec.Value(), name, target)
  {
    copy := CloneSpec(spec);
    copy.name := name;
    copy.backend := target;
  }

  /**
   Deploys a clone under another name on the target. The clone has its own environment but shares the
   scheduling object, which the deployment rewrites.
   */
  method SendCopy(fleet: Fleet, req: Request, ghost source: string, spec: WorkloadSpec, name: string)
    returns (deployed: bool, replicas: int, ghost sent: Deployed)
    requires Preparing(fleet, req, source)
    requires name in Footprint(req, source, req.targetBackend)
    modifies fleet, spec.scheduling
    ensures Preparing(fleet, req, source) && fleet.Continued()
    ensures deployed ==> fleet.stores == Stored(old(fleet.stores), req.targetBackend, sent)
    ensures !deployed && Faultless(fleet.log) ==> fleet.stores == old(fleet.stores)
    ensures !deployed ==> exists c <- fleet.log :: c.DeployCall? && !c.ok
    ensures |fleet.log| == |old(fleet.log)| + 1
    ensures OncePlaced(old(fleet.placements), fleet.placements, req.targetBackend in fleet.placing, deployed)
    ensures sent == Again(fleet.build, CopyOf(old(spec.Value()), name, req.targetBackend),
                          fleet.placements - old(fleet.placements))
    ensures sent.replicas == replicas
    ensures spec.Value() == Reworked(fleet.build, old(spec.Value()), fleet.placements - old(fleet.placements))
  {
    ghost var given := spec.Value();
    var copy := CloneAs(spec, name, req.targetBackend);
    deployed, sent := DeployCopy(fleet, req, source, copy);
    replicas := copy.replicas;
    assert spec.Value() == given.(scheduling := if spec.scheduling == null then None else sent.scheduling);
  }

  /** One deployment on an allowed name of the target. */
  lemma {:induction false} CopySent(w0: World, calls: seq<Call>, c: Call, req: Request, source: string)
    requires Sound(w0, calls, req, source) && Replay(w0, calls).stores[source] == w0.stores[source]
    requires c.DeployCall? && c.backend == req.targetBackend && c.spec.name in Footprint(req, source, c.backend)
    ensures Sound(w0, calls + [c], req, source)
    ensures c in calls + [c]
  {
    SoundCall(w0, calls, c, req, source);
    assert (calls + [c])[|calls|] == c;
  }

  method AwaitCopy(fleet: Fleet, req: Request, ghost source: string, name: string, replicas: int, timeout: int)
    returns (waited: WaitResult)
    requires Preparing(fleet, req, source)
    requires name in Footprint(req, source, req.targetBackend) && name in fleet.stores[req.targetBackend]
    requires fleet.stores[req.targetBackend][name].replicas == replicas
    modifies fleet
    ensures Preparing(fleet, req, source) && fleet.Continued()
    ensures fleet.stores == old(fleet.stores)
    ensures waited.Ready? ==>
      (req.targetBackend, name) in fleet.confirmed && SeenReady(fleet.log, req.targetBackend, name, replicas)
    ensures !waited.Ready? ==> WaitFailed(fleet.log, waited, fleet.now - old(fleet.now), timeout)
    ensures |fleet.log| <= |old(fleet.log)| + PollBound(timeout) && fleet.placements == old(fleet.placements)
  {
    ghost var log := fleet.log;
    ghost var polls;
    waited, polls := WaitUntilReady(fleet, req.targetBackend, name, replicas, timeout);
    SoundPolls(fleet.origin, log, polls, name, req, source);
    if waited.StatusError? {
      assert polls[|polls| - 1] in fleet.log;
    } else if waited.Ready? {
      PolledReady(log, polls, req.targetBackend, name, replicas);
    }
  }

  lemma {:induction false} PolledReady(log: seq<Call>, polls: seq<Call>, backend: string, name: string, replicas: int)
    requires PollsOf(polls, backend, name) && WaitedFor(polls, replicas, Ready)
    ensures SeenReady(log + polls, backend, name, replicas)
  {
    var all, n := log + polls, |polls| - 1;
    assert polls[n] in polls && all[|log| + n] == polls[n];
    assert ReadyPoll(all[|log| + n], backend, name, replicas);
  }

  /** Removes a copy from the target; the driver's error is ignored, as in the source. */
  method Withdraw(fleet: Fleet, req: Request, ghost source: string, name: string)
    requires Preparing(fleet, req, source)
    requires name in Footprint(req, source, req.targetBackend)
    modifies fleet
    ensures Preparing(fleet, req, source) && fleet.Continued()
    ensures Faultless(fleet.log) ==> fleet.stores == Removed(old(fleet.stores), req.targetBackend, {name})
    ensures |fleet.log| == |old(fleet.log)| + 1 && fleet.placements == old(fleet.placements)
  {
    var ok, took := fleet.Destroy(req.targetBackend, name);
    ghost var call := DestroyCall(req.targetBackend, name, ok, took);
    SoundCall(fleet.origin, old(fleet.log), call, req, source);
    assert call in fleet.log;
  }

  /**
   Destroys the source, then the shadow. From here on the target's ready copy carries availability.
   */
  method CutOver(fleet: Fleet, req: Request, source: string, ghost copy: Deployed, ghost shadow: Deployed)
    returns (r: Outcome)
    requires Preparing(fleet, req, source)
    requires var target := req.targetBackend;
      && req.workloadID in fleet.stores[target] && (target, req.workloadID) in fleet.confirmed
      && fleet.stores[target][req.workloadID] == copy
      && SeenReady(fleet.log, target, req.workloadID, copy.replicas)
      && (req.zeroDowntime ==> ShadowOf(req) in fleet.stores[target] && fleet.stores[target][ShadowOf(req)] == shadow)
    modifies fleet
    ensures r == Completed || r == Failed(SourceDestroyFailed)
    ensures fleet.Valid() && fleet.Continued()
    ensures Sound(fleet.origin, fleet.log, req, source)
    ensures Exit(fleet.origin, fleet.log, fleet.Current(), req, source, copy, shadow, r)
    ensures |fleet.log| <= |old(fleet.log)| + 2 && fleet.placements == old(fleet.placements)
  {
    ShadowDiffers(req);
    var ok, took := fleet.Destroy(source, req.workloadID);
    ghost var cut := DestroyCall(source, req.workloadID, ok, took);
    SoundCall(fleet.origin, old(fleet.log), cut, req, source);
    ReadyThenDestroy(old(fleet.log), cut, source, req.targetBackend, req.workloadID, copy.replicas);
    if !ok {
      return Failed(SourceDestroyFailed);
    }
    assert fleet.Continued();
    if req.zeroDowntime {
      DropShadow(fleet, req, source, copy);
    }
    return Completed;
  }

  /** The shadow's destroy, whose error is ignored. */
  method DropShadow(fleet: Fleet, req: Request, source: string, ghost copy: Deployed)
    requires fleet.Valid() && Sound(fleet.origin, fleet.log, req, source) && req.zeroDowntime
    requires fleet.stores.Keys == fleet.origin.stores.Keys
    requires req.workloadID in fleet.stores[req.targetBackend]
             && (req.targetBackend, req.workloadID) in fleet.confirmed
    requires ReadyBeforeDestroy(fleet.log, source, req.targetBackend, req.workloadID, copy.replicas)
    modifies fleet
    ensures fleet.Valid() && fleet.Continued() && Sound(fleet.origin, fleet.log, req, source)
    ensures ReadyBeforeDestroy(fleet.log, source, req.targetBackend, req.workloadID, copy.replicas)
    ensures fleet.stores[source] == old(fleet.stores)[source] && fleet.stores.Keys == old(fleet.stores).Keys
    ensures var target, id := req.targetBackend, req.workloadID;
      && id in fleet.stores[target] && fleet.stores[target][id] == old(fleet.stores)[target][id]
      && (target, id) in fleet.confirmed
      && (Faultless(fleet.log) ==> ShadowOf(req) !in fleet.stores[target])
    ensures |fleet.log| == |old(fleet.log)| + 1 && fleet.placements == old(fleet.placements)
  {
    ShadowDiffers(req);
    ghost var log := fleet.log;
    var ok, took := fleet.Destroy(req.targetBackend, req.workloadID + SHADOW_SUFFIX);
    ghost var call := DestroyCall(req.targetBackend, ShadowOf(req), ok, took);
    SoundCall(fleet.origin, log, call, req, source);
    ReadyBeforeDestroyLater(log, call, source, req.targetBackend, req.workloadID, copy.replicas);
    assert call in fleet.log;
  }

  /** The caller's specification, or the one derived from the first call's answer. */
  function SpecUsed(req: Request, source: string, given: Option<Deployed>, log: seq<Call>): Option<Deployed> {
    if given.Some? then given
    else if log != [] && log[0].StatusCall? && log[0].status.Some?
    then Some(DerivedSpec(req, source, log[0].status.value))
    else None
  }

  /** The deployments of a migration that rewrite the specification. */
  function AllPlacements(fleet: Fleet, req: Request): nat {
    if req.targetBackend !in fleet.placing then 0 else if req.zeroDowntime then 2 else 1
  }

  method MigrateWorkload(fleet: Fleet, req: Request, spec0: WorkloadSpec?, defaultBackend: string,
                         fallbackTimeout: int, parse: string -> Option<int>)
    returns (r: Outcome, ghost seen: nat, ghost cut: nat)
    requires fleet.Valid() && fleet.Fresh()
    modifies fleet, if spec0 == null then {} else {spec0.scheduling}
    ensures fleet.Valid() && fleet.origin == old(fleet.origin)
    // refused requests touch nothing
    ensures var refusal := Refusal(req, SourceOf(req, defaultBackend), old(fleet.stores.Keys));
      refusal.Some? ==> r == Failed(refusal.value) && fleet.log == []
    // every moment of every other run keeps the workload available and the rest of the fleet alone
    ensures var source := SourceOf(req, defaultBackend);
      Refusal(req, source, old(fleet.stores.Keys)).None? ==>
        && Sound(fleet.origin, fleet.log, req, source)
        && match SpecUsed(req, source, if spec0 == null then None else Some(old(spec0.Value())), fleet.log)
           case None => r == Failed(StatusUnavailable) && fleet.stores == old(fleet.stores)
           case Some(spec) =>
             var places := req.targetBackend in fleet.placing;
             Exit(fleet.origin, fleet.log, fleet.Current(), req, source, RealCopy(req, fleet.build, spec, places),
                  ShadowCopy(req, fleet.build, spec, places), r)
    // before the source was destroyed, some answer for the target's copy showed it ready, on these fields
    ensures r == Completed || r == Failed(SourceDestroyFailed) ==>
      && (spec0 == null ==> fleet.log != [] && fleet.log[0].StatusCall? && fleet.log[0].status.Some?)
      && var replicas := if spec0 != null then old(spec0.replicas) else fleet.log[0].status.value.replicas;
      && seen < cut < |fleet.log|
      && fleet.log[seen].StatusCall? && fleet.log[seen].status.Some?
      && fleet.log[seen].backend == req.targetBackend && fleet.log[seen].name == req.workloadID
      && (var st := fleet.log[seen].status.value;
          || (st.readyReplicas >= 1 && st.readyReplicas >= replicas)
          || (st.readyReplicas == 0 && st.ready >= 1 && st.ready >= replicas)
          || ToLower(st.state) == "running")
      && fleet.log[cut].DestroyCall? && fleet.log[cut].name == req.workloadID
      && fleet.log[cut].backend == if req.sourceBackend == "" then defaultBackend else req.sourceBackend
    // every failure rests on a failed call or wait, and no run makes more calls than this
    ensures var timeout := ParseTimeout(req.readyTimeout, fallbackTimeout, parse);
      && (r.Failed? ==> Warranted(fleet.log, r.failure, fleet.now - old(fleet.now), timeout))
      && |fleet.log| <= 2 * PollBound(timeout) + 5
    // of the caller's specification only its scheduling object changes: each placing deployment rewrites it
    ensures spec0 != null ==>
      && spec0.scheduling == old(spec0.scheduling)
      && spec0.Value() == Reworked(fleet.build, old(spec0.Value()), Placements(fleet.log))
    ensures Placements(fleet.log) <= AllPlacements(fleet, req)
    ensures r == Completed || r == Failed(SourceDestroyFailed) ==> Placements(fleet.log) == AllPlacements(fleet, req)
  {
    if TrimSpace(req.workloadID) == "" || TrimSpace(req.targetBackend) == "" {
      return Failed(InvalidRequest), 0, 0;
    }
    var source := req.sourceBackend;
    if source == "" {
      source := defaultBackend;
    }
    var target := req.targetBackend;
    if target == source {
      return Failed(SameBackend), 0, 0;
    }
    if source !in fleet.stores {
      return Failed(NoSourceDriver), 0, 0;
    }
    if target !in fleet.stores {
      return Failed(NoTargetDriver), 0, 0;
    }
    var timeout := ParseTimeout(req.readyTimeout, fallbackTimeout, parse);
    r, seen, cut := MigrateBetween(fleet, req, source, spec0, timeout);
  }

  /** The same on the fields of the answer. */
  lemma {:induction false} ReadyOnFields(calls: seq<Call>, source: string, target: string, id: string, replicas: int)
    returns (k: nat, j: nat)
    requires ReadyBeforeDestroy(calls, source, target, id, replicas)
    ensures k < j < |calls|
    ensures calls[k].StatusCall? && calls[k].status.Some? && calls[k].backend == target && calls[k].name == id
    ensures var st := calls[k].status.value;
      || (st.readyReplicas >= 1 && st.readyReplicas >= replicas)
      || (st.readyReplicas == 0 && st.ready >= 1 && st.ready >= replicas)
      || ToLower(st.state) == "running"
    ensures calls[j].DestroyCall? && calls[j].name == id && calls[j].backend == source
  {
    k, j :| 0 <= k < j < |calls| && ReadyPoll(calls[k], target, id, replicas) && SourceDestroy(calls[j], source, id);
    ShowsReadyIff(calls[k].status.value, replicas);
  }

  /** A migration between two different known backends. */
  method MigrateBetween(fleet: Fleet, req: Request, source: string, spec0: WorkloadSpec?, timeout: int)
    returns (r: Outcome, ghost seen: nat, ghost cut: nat)
    requires fleet.Valid() && fleet.Fresh() && Refusal(req, source, fleet.stores.Keys).None?
    modifies fleet, if spec0 == null then {} else {spec0.scheduling}
    ensures fleet.Valid() && fleet.Continued() && Sound(fleet.origin, fleet.log, req, source)
    ensures match SpecUsed(req, source, if spec0 == null then None else Some(old(spec0.Value())), fleet.log)
      case None => r == Failed(StatusUnavailable) && fleet.stores == old(fleet.stores)
      case Some(spec) =>
        var places := req.targetBackend in fleet.placing;
        Exit(fleet.origin, fleet.log, fleet.Current(), req, source, RealCopy(req, fleet.build, spec, places),
             ShadowCopy(req, fleet.build, spec, places), r)
    ensures r == Completed || r == Failed(SourceDestroyFailed) ==>
      && (spec0 == null ==> fleet.log != [] && fleet.log[0].StatusCall? && fleet.log[0].status.Some?)
      && var replicas := if spec0 != null then old(spec0.replicas) else fleet.log[0].status.value.replicas;
      && seen < cut < |fleet.log|
      && fleet.log[seen].StatusCall? && fleet.log[seen].status.Some?
      && fleet.log[seen].backend == req.targetBackend && fleet.log[seen].name == req.workloadID
      && (var st := fleet.log[seen].status.value;
          || (st.readyReplicas >= 1 && st.readyReplicas >= replicas)
          || (st.readyReplicas == 0 && st.ready >= 1 && st.ready >= replicas)
          || ToLower(st.state) == "running")
      && fleet.log[cut].DestroyCall? && fleet.log[cut].name == req.workloadID
      && fleet.log[cut].backend == source
    ensures r.Failed? ==> Warranted(fleet.log, r.failure, fleet.now - old(fleet.now), timeout)
    ensures |fleet.log| <= 2 * PollBound(timeout) + 5
    ensures spec0 != null ==> spec0.Value() == Reworked(fleet.build, old(spec0.Value()), fleet.placements)
    ensures fleet.placements <= AllPlacements(fleet, req)
    ensures r == Completed || r == Failed(SourceDestroyFailed) ==> fleet.placements == AllPlacements(fleet, req)
  {
    var spec := LoadSpec(fleet, req, source, spec0);
    seen, cut := 0, 0;
    if spec == null {
      return Failed(StatusUnavailable), seen, cut;
    }
    r, seen, cut := PrepareSeen(fleet, req, source, spec, timeout);
  }

  /** The copies and the cut-over, with the answer that allowed it and the destroy that followed. */
  method PrepareSeen(fleet: Fleet, req: Request, source: string, spec: WorkloadSpec, timeout: int)
    returns (r: Outcome, ghost seen: nat, ghost cut: nat)
    requires Preparing(fleet, req, source) && fleet.stores == fleet.origin.stores && fleet.placements == 0
    modifies fleet, spec.scheduling
    ensures fleet.Valid() && fleet.Continued()
    ensures Sound(fleet.origin, fleet.log, req, source)
    ensures var places := req.targetBackend in fleet.placing;
      Exit(fleet.origin, fleet.log, fleet.Current(), req, source, RealCopy(req, fleet.build, old(spec.Value()), places),
           ShadowCopy(req, fleet.build, old(spec.Value()), places), r)
    ensures r == Completed || r == Failed(SourceDestroyFailed) ==>
      && seen < cut < |fleet.log|
      && fleet.log[seen].StatusCall? && fleet.log[seen].status.Some?
      && fleet.log[seen].backend == req.targetBackend && fleet.log[seen].name == req.workloadID
      && (var st := fleet.log[seen].status.value;
          || (st.readyReplicas >= 1 && st.readyReplicas >= old(spec.replicas))
          || (st.readyReplicas == 0 && st.ready >= 1 && st.ready >= old(spec.replicas))
          || ToLower(st.state) == "running")
      && fleet.log[cut].DestroyCall? && fleet.log[cut].name == req.workloadID && fleet.log[cut].backend == source
    ensures r.Failed? ==> Warranted(fleet.log, r.failure, fleet.now - old(fleet.now), timeout)
    ensures |fleet.log| <= |old(fleet.log)| + 2 * PollBound(timeout) + 4
    ensures spec.Value() == Reworked(fleet.build, old(spec.Value()), fleet.placements)
    ensures fleet.placements <= AllPlacements(fleet, req)
    ensures r == Completed || r == Failed(SourceDestroyFailed) ==> fleet.placements == AllPlacements(fleet, req)
  {
    seen, cut := 0, 0;
    r := Prepare(fleet, req, source, spec, timeout);
    if r == Completed || r == Failed(SourceDestroyFailed) {
      seen, cut := ReadyOnFields(fleet.log, source, req.targetBackend, req.workloadID, old(spec.replicas));
    }
  }

  /** The caller's specification, or one made up from the source's status. */
  method LoadSpec(fleet: Fleet, req: Request, source: string, given: WorkloadSpec?) returns (spec: WorkloadSpec?)
    requires fleet.Valid() && fleet.Fresh()
    requires Refusal(req, source, fleet.stores.Keys).None?
    modifies fleet
    ensures Preparing(fleet, req, source) && fleet.Continued() && fleet.stores == fleet.origin.stores
    ensures fleet.placements == 0
    ensures given != null ==> spec == given && fleet.log == []
    ensures given == null ==>
      && |fleet.log| == 1 && fleet.log[0].StatusCall?
      && (spec == null <==> fleet.log[0].status.None?)
      && (spec != null ==> fresh(spec) && spec.env == null
                           && spec.Value() == DerivedSpec(req, source, fleet.log[0].status.value))
  {
    if given != null {
      return given;
    }
    var status := fleet.GetStatus(source, req.workloadID);
    SoundCall(fleet.origin, [], StatusCall(source, req.workloadID, status), req, source);
    if status.None? {
      return null;
    }
    spec := new WorkloadSpec(req.workloadID, FirstNonEmpty(req.namespace, status.value.namespace),
                             status.value.image, source,
                             if status.value.replicas > 1 then status.value.replicas else 1, null, null);
  }

  /** The shadow copy, taken down again when it does not come up. */
  method StageShadow(fleet: Fleet, req: Request, source: string, spec: WorkloadSpec, timeout: int,
                     ghost shadow: Deployed)
    returns (failure: Option<Failure>)
    requires Preparing(fleet, req, source) && fleet.stores == fleet.origin.stores && req.zeroDowntime
    requires shadow == ShadowCopy(req, fleet.build, spec.Value(), req.targetBackend in fleet.placing)
    modifies fleet, spec.scheduling
    ensures Preparing(fleet, req, source) && fleet.Continued()
    ensures failure.None? ==> fleet.stores == Stored(fleet.origin.stores, req.targetBackend, shadow)
    ensures |fleet.log| <= |old(fleet.log)| + PollBound(timeout) + 2
    ensures failure.None? ==> |fleet.log| <= |old(fleet.log)| + PollBound(timeout) + 1
    ensures failure.Some? ==>
      && (failure.value.ShadowDeployFailed? || failure.value.ShadowNotReady?)
      && Warranted(fleet.log, failure.value, fleet.now - old(fleet.now), timeout)
      && (Faultless(fleet.log) ==>
            fleet.stores == Removed(fleet.origin.stores, req.targetBackend, Withdrawn(req, failure.value)))
    ensures OncePlaced(old(fleet.placements), fleet.placements, req.targetBackend in fleet.placing, failure.None?)
    ensures spec.Value() == Reworked(fleet.build, old(spec.Value()), fleet.placements - old(fleet.placements))
  {
    var deployed, replicas, sent := SendCopy(fleet, req, source, spec, req.workloadID + SHADOW_SUFFIX);
    failure := ConcludeShadow(fleet, req, source, deployed, replicas, timeout, shadow);
  }

  method ConcludeShadow(fleet: Fleet, req: Request, source: string, deployed: bool, replicas: int, timeout: int,
                        ghost shadow: Deployed)
    returns (failure: Option<Failure>)
    requires Preparing(fleet, req, source) && req.zeroDowntime
    requires deployed ==>
      && shadow.name == ShadowOf(req) && shadow.replicas == replicas
      && fleet.stores == Stored(fleet.origin.stores, req.targetBackend, shadow)
    requires !deployed ==>
      && (exists c <- fleet.log :: c.DeployCall? && !c.ok)
      && (Faultless(fleet.log) ==> fleet.stores == fleet.origin.stores)
    modifies fleet
    ensures Preparing(fleet, req, source) && fleet.Continued() && fleet.placements == old(fleet.placements)
    ensures failure.None? ==>
      deployed && fleet.stores == old(fleet.stores) && |fleet.log| <= |old(fleet.log)| + PollBound(timeout)
    ensures |fleet.log| <= |old(fleet.log)| + PollBound(timeout) + 1
    ensures failure.Some? ==>
      && (failure.value.ShadowDeployFailed? || failure.value.ShadowNotReady?)
      && Warranted(fleet.log, failure.value, fleet.now - old(fleet.now), timeout)
      && (Faultless(fleet.log) ==>
            fleet.stores == Removed(fleet.origin.stores, req.targetBackend, Withdrawn(req, failure.value)))
  {
    RemovedNothing(fleet.origin.stores, req.targetBackend);
    if !deployed {
      return Some(ShadowDeployFailed);
    }
    failure := AwaitShadow(fleet, req, source, shadow, replicas, timeout);
  }

  method AwaitShadow(fleet: Fleet, req: Request, source: string, ghost shadow: Deployed, replicas: int, timeout: int)
    returns (failure: Option<Failure>)
    requires Preparing(fleet, req, source) && req.zeroDowntime
    requires fleet.stores == Stored(fleet.origin.stores, req.targetBackend, shadow)
    requires shadow.name == ShadowOf(req) && shadow.replicas == replicas
    modifies fleet
    ensures Preparing(fleet, req, source) && fleet.Continued() && fleet.placements == old(fleet.placements)
    ensures failure.None? ==> fleet.stores == old(fleet.stores) && |fleet.log| <= |old(fleet.log)| + PollBound(timeout)
    ensures |fleet.log| <= |old(fleet.log)| + PollBound(timeout) + 1
    ensures failure.Some? ==>
      && failure.value.ShadowNotReady?
      && WaitFailed(fleet.log, failure.value.waited, fleet.now - old(fleet.now), timeout)
      && (Faultless(fleet.log) ==> fleet.stores == Removed(fleet.origin.stores, req.targetBackend, {ShadowOf(req)}))
  {
    var waited := AwaitCopy(fleet, req, source, req.workloadID + SHADOW_SUFFIX, replicas, timeout);
    if waited.Ready? {
      return None;
    }
    ghost var log, until := fleet.log, fleet.now;
    Withdraw(fleet, req, source, req.workloadID + SHADOW_SUFFIX);
    RemovedStored(fleet.origin.stores, req.targetBackend, shadow);
    WaitFailedLater(log, fleet.log, waited, until - old(fleet.now), fleet.now - old(fleet.now), timeout);
    return Some(ShadowNotReady(waited));
  }

  lemma {:induction false} TimesAdd(build: Build, image: string, c: Config, a: nat, b: nat)
    ensures Times(build, image, Times(build, image, c, a), b) == Times(build, image, c, a + b)
  {
    if b > 0 {
      TimesAdd(build, image, c, a, b - 1);
    }
  }

  lemma {:induction false} ReworkedAdd(build: Build, d: Deployed, a: nat, b: nat)
    ensures Reworked(build, Reworked(build, d, a), b) == Reworked(build, d, a + b)
  {
    if d.scheduling.Some? {
      TimesAdd(build, d.image, d.scheduling.value, a, b);
    }
  }

  /** What the last deployment sends, after those before it have been placed. */
  lemma {:induction false} LastTurn(build: Build, d: Deployed, before: nat, places: bool)
    requires !places ==> before == 0
    ensures Again(build, Reworked(build, d, before), if places then 1 else 0) == Turn(build, d, before + 1, places)
  {
    TimesAdd(build, d.image, d.Intent(), before, 1);
  }

  /** The shadow, if asked for, and then the real copy. */
  method Prepare(fleet: Fleet, req: Request, source: string, spec: WorkloadSpec, timeout: int)
    returns (r: Outcome)
    requires Preparing(fleet, req, source) && fleet.stores == fleet.origin.stores && fleet.placements == 0
    modifies fleet, spec.scheduling
    ensures fleet.Valid() && fleet.Continued()
    ensures Sound(fleet.origin, fleet.log, req, source)
    ensures var places := req.targetBackend in fleet.placing;
      Exit(fleet.origin, fleet.log, fleet.Current(), req, source, RealCopy(req, fleet.build, old(spec.Value()), places),
           ShadowCopy(req, fleet.build, old(spec.Value()), places), r)
    ensures r.Failed? ==> Warranted(fleet.log, r.failure, fleet.now - old(fleet.now), timeout)
    ensures |fleet.log| <= |old(fleet.log)| + 2 * PollBound(timeout) + 4
    ensures spec.Value() == Reworked(fleet.build, old(spec.Value()), fleet.placements)
    ensures fleet.placements <= AllPlacements(fleet, req)
    ensures r == Completed || r == Failed(SourceDestroyFailed) ==> fleet.placements == AllPlacements(fleet, req)
  {
    ghost var given, places := spec.Value(), req.targetBackend in fleet.placing;
    ghost var shadow := ShadowCopy(req, fleet.build, given, places);
    if req.zeroDowntime {
      var failure := StageShadow(fleet, req, source, spec, timeout, shadow);
      if failure.Some? {
        return Failed(failure.value);
      }
    }
    ghost var staged := fleet.placements;
    LastTurn(fleet.build, given, staged, places);
    r := Finish(fleet, req, source, spec, timeout, RealCopy(req, fleet.build, given, places), shadow);
    ReworkedAdd(fleet.build, given, staged, fleet.placements - staged);
  }

  /** The fleet once the shadow is up: the origin, plus the shadow if there is one. */
  ghost predicate Staged(fleet: Fleet, req: Request, shadow: Deployed)
    reads fleet
    requires req.targetBackend in fleet.origin.stores
  {
    fleet.stores == WithShadow(fleet.origin.stores, req, shadow)
  }

  function WithShadow(stores: Stores, req: Request, shadow: Deployed): Stores
    requires req.targetBackend in stores
  {
    if req.zeroDowntime then Stored(stores, req.targetBackend, shadow) else stores
  }

  /** Compensation when the real copy does not come up. */
  method AbandonCopies(fleet: Fleet, req: Request, ghost source: string, ghost copy: Deployed, ghost shadow: Deployed,
                       ghost waited: WaitResult)
    requires Preparing(fleet, req, source)
    requires copy.name == req.workloadID && shadow.name == ShadowOf(req)
    requires fleet.stores == Stored(WithShadow(fleet.origin.stores, req, shadow), req.targetBackend, copy)
    modifies fleet
    ensures Preparing(fleet, req, source) && fleet.Continued()
    ensures Faultless(fleet.log)
      ==> fleet.stores == Removed(fleet.origin.stores, req.targetBackend, Withdrawn(req, NotReady(waited)))
    ensures |fleet.log| <= |old(fleet.log)| + 2 && fleet.placements == old(fleet.placements)
  {
    RemovedBothStored(fleet.origin.stores, req, shadow, copy, waited);
    Withdraw(fleet, req, source, req.workloadID);
    if req.zeroDowntime {
      ghost var log := fleet.log;
      Withdraw(fleet, req, source, req.workloadID + SHADOW_SUFFIX);
      FaultlessPrefix(log, fleet.log);
    }
  }

  lemma {:induction false} RemovedBothStored(stores: Stores, req: Request, shadow: Deployed, copy: Deployed,
                                             waited: WaitResult)
    requires req.targetBackend in stores && copy.name == req.workloadID && shadow.name == ShadowOf(req)
    ensures var b := req.targetBackend;
      var once := Removed(Stored(WithShadow(stores, req, shadow), b, copy), b, {req.workloadID});
      Removed(stores, b, Withdrawn(req, NotReady(waited)))
      == if req.zeroDowntime then Removed(once, b, {ShadowOf(req)}) else once
  {
    var b := req.targetBackend;
    if req.zeroDowntime {
      var m := stores[b];
      assert m[shadow.name := shadow][copy.name := copy] - {copy.name} - {shadow.name} == m - {shadow.name, copy.name};
    } else {
      RemovedStored(stores, b, copy);
    }
  }

  /** The shadow goes too when the real copy cannot be deployed. */
  method AbandonShadow(fleet: Fleet, req: Request, ghost source: string, ghost shadow: Deployed)
    requires Preparing(fleet, req, source) && shadow.name == ShadowOf(req)
    requires Faultless(fleet.log) ==> fleet.stores == WithShadow(fleet.origin.stores, req, shadow)
    modifies fleet
    ensures Preparing(fleet, req, source) && fleet.Continued()
    ensures Faultless(fleet.log)
      ==> fleet.stores == Removed(fleet.origin.stores, req.targetBackend, Withdrawn(req, DeployFailed))
    ensures |fleet.log| <= |old(fleet.log)| + 1 && fleet.placements == old(fleet.placements)
  {
    if req.zeroDowntime {
      ghost var log := fleet.log;
      Withdraw(fleet, req, source, req.workloadID + SHADOW_SUFFIX);
      FaultlessPrefix(log, fleet.log);
      RemovedStored(fleet.origin.stores, req.targetBackend, shadow);
    } else {
      RemovedNothing(fleet.origin.stores, req.targetBackend);
    }
  }

  /** The real copy, the cut-over, and the compensation when the copy does not come up. */
  method Finish(fleet: Fleet, req: Request, source: string, spec: WorkloadSpec, timeout: int,
                ghost copy: Deployed, ghost shadow: Deployed)
    returns (r: Outcome)
    requires Preparing(fleet, req, source) && Staged(fleet, req, shadow) && shadow.name == ShadowOf(req)
    requires copy == Again(fleet.build, CopyOf(spec.Value(), req.workloadID, req.targetBackend),
                           if req.targetBackend in fleet.placing then 1 else 0)
    modifies fleet, spec.scheduling
    ensures fleet.Valid() && fleet.Continued()
    ensures Sound(fleet.origin, fleet.log, req, source)
    ensures Exit(fleet.origin, fleet.log, fleet.Current(), req, source, copy, shadow, r)
    ensures r.Failed? ==> Warranted(fleet.log, r.failure, fleet.now - old(fleet.now), timeout)
    ensures |fleet.log| <= |old(fleet.log)| + PollBound(timeout) + 3
    ensures OncePlaced(old(fleet.placements), fleet.placements, req.targetBackend in fleet.placing,
                       r == Completed || r == Failed(SourceDestroyFailed))
    ensures spec.Value() == Reworked(fleet.build, old(spec.Value()), fleet.placements - old(fleet.placements))
  {
    var deployed, replicas, sent := SendCopy(fleet, req, source, spec, req.workloadID);
    r := Conclude(fleet, req, source, deployed, replicas, timeout, copy, shadow);
  }

  /** The compensation when the real copy could not be deployed, and otherwise the wait for it. */
  method Conclude(fleet: Fleet, req: Request, source: string, deployed: bool, replicas: int, timeout: int,
                  ghost copy: Deployed, ghost shadow: Deployed)
    returns (r: Outcome)
    requires Preparing(fleet, req, source) && shadow.name == ShadowOf(req)
    requires deployed ==>
      && copy.name == req.workloadID && copy.replicas == replicas
      && fleet.stores == Stored(WithShadow(fleet.origin.stores, req, shadow), req.targetBackend, copy)
    requires !deployed ==>
      && (exists c <- fleet.log :: c.DeployCall? && !c.ok)
      && (Faultless(fleet.log) ==> fleet.stores == WithShadow(fleet.origin.stores, req, shadow))
    modifies fleet
    ensures fleet.Valid() && fleet.Continued() && fleet.placements == old(fleet.placements)
    ensures Sound(fleet.origin, fleet.log, req, source)
    ensures Exit(fleet.origin, fleet.log, fleet.Current(), req, source, copy, shadow, r)
    ensures r.Failed? ==> Warranted(fleet.log, r.failure, fleet.now - old(fleet.now), timeout)
    ensures |fleet.log| <= |old(fleet.log)| + PollBound(timeout) + 2
    ensures !deployed ==> r == Failed(DeployFailed)
  {
    if !deployed {
      AbandonShadow(fleet, req, source, shadow);
      return Failed(DeployFailed);
    }
    r := Confirm(fleet, req, source, replicas, timeout, copy, shadow);
  }

  /** Waits for the real copy, and then cuts over or compensates. */
  method Confirm(fleet: Fleet, req: Request, source: string, replicas: int, timeout: int,
                 ghost copy: Deployed, ghost shadow: Deployed)
    returns (r: Outcome)
    requires Preparing(fleet, req, source)
    requires copy.name == req.workloadID && shadow.name == ShadowOf(req) && copy.replicas == replicas
    requires fleet.stores == Stored(WithShadow(fleet.origin.stores, req, shadow), req.targetBackend, copy)
    modifies fleet
    ensures fleet.Valid() && fleet.Continued() && fleet.placements == old(fleet.placements)
    ensures Sound(fleet.origin, fleet.log, req, source)
    ensures Exit(fleet.origin, fleet.log, fleet.Current(), req, source, copy, shadow, r)
    ensures r.Failed? ==> Warranted(fleet.log, r.failure, fleet.now - old(fleet.now), timeout)
    ensures |fleet.log| <= |old(fleet.log)| + PollBound(timeout) + 2
  {
    ShadowDiffers(req);
    var waited := AwaitCopy(fleet, req, source, req.workloadID, replicas, timeout);
    if !waited.Ready? {
      ghost var log, until := fleet.log, fleet.now;
      AbandonCopies(fleet, req, source, copy, shadow, waited);
      WaitFailedLater(log, fleet.log, waited, until - old(fleet.now), fleet.now - old(fleet.now), timeout);
      return Failed(NotReady(waited));
    }
    r := CutOver(fleet, req, source, copy, shadow);
  }
}
