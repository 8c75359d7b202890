/**
 Cross-namespace traffic policies: the rules built for Kubernetes, evaluated the way
 networking.k8s.io/v1 evaluates them, against what the policy's author asked for.
 */
module NetworkPolicies {
  import opened Text
  import NodeSelection

  const NAMESPACE_NAME_LABEL := "kubernetes.io/metadata.name"
  const KUBE_SYSTEM := "kube-system"

  /** The author's policy. An unset AllowSameNamespace means yes. */
  datatype TrafficPolicy = TrafficPolicy(
    enabled: bool, allowSameNamespace: Option<bool>,
    allowedIngress: seq<string>, allowedEgress: seq<string>,
    blockClusterDNS: bool, allowEgressInternet: bool)

  // ---------------------------------------------------------------------------------------
  // The Kubernetes object and its evaluation

  type Selector = map<string, string>

  datatype Peer = Peer(podSelector: Option<Selector>, namespaceSelector: Option<Selector>)
  datatype Protocol = TCP | UDP | SCTP
  datatype Port = Port(protocol: Protocol, port: int)
  datatype Rule = Rule(peers: seq<Peer>, ports: seq<Port>)
  datatype Direction = Ingress | Egress
  datatype NetworkPolicy = NetworkPolicy(
    name: string, namespace: string, labels: map<string, string>, podSelector: Selector,
    policyTypes: seq<Direction>, ingress: seq<Rule>, egress: seq<Rule>)

  /** The other end of a connection: a pod in a namespace, or an address outside the cluster. */
  datatype Endpoint =
    | Pod(namespace: string, namespaceLabels: map<string, string>, labels: map<string, string>)
    | External

  /** The API server labels every namespace with its own name. */
  predicate WellLabelled(ep: Endpoint) {
    ep.Pod? ==> NAMESPACE_NAME_LABEL in ep.namespaceLabels && ep.namespaceLabels[NAMESPACE_NAME_LABEL] == ep.namespace
  }

  /** Without a namespace selector a peer stays in the policy's namespace; without a pod selector it means all pods. */
  predicate PeerMatches(p: Peer, namespace: string, ep: Endpoint) {
    && ep.Pod?
    && (match p.namespaceSelector
        case None => ep.namespace == namespace
        case Some(s) => NodeSelection.Selects(s, ep.namespaceLabels))
    && (p.podSelector.Some? ==> NodeSelection.Selects(p.podSelector.value, ep.labels))
  }

  predicate AnyMatches(peers: seq<Peer>, namespace: string, ep: Endpoint) {
    exists p <- peers :: PeerMatches(p, namespace, ep)
  }

  /** No peers means every peer, no ports means every port. */
  predicate RuleAdmits(r: Rule, namespace: string, ep: Endpoint, port: Port) {
    && (r.peers == [] || AnyMatches(r.peers, namespace, ep))
    && (r.ports == [] || port in r.ports)
  }

  function Rules(np: NetworkPolicy, d: Direction): seq<Rule> {
    if d.Ingress? then np.ingress else np.egress
  }

  predicate AnyAdmits(rules: seq<Rule>, namespace: string, ep: Endpoint, port: Port) {
    exists r <- rules :: RuleAdmits(r, namespace, ep, port)
  }

  /** A direction that is not listed is not restricted; a listed one admits what some rule admits. */
  predicate Admits(np: NetworkPolicy, d: Direction, ep: Endpoint, port: Port) {
    d in np.policyTypes ==> AnyAdmits(Rules(np, d), np.namespace, ep, port)
  }

  /** A policy is about the pods of its namespace that carry the labels of its pod selector. */
  predicate Restricts(np: NetworkPolicy, namespace: string, labels: map<string, string>) {
    namespace == np.namespace && NodeSelection.Selects(np.podSelector, labels)
  }

  /** Whether a pod may connect to, or be connected from, an endpoint when this is the only policy. */
  predicate Permits(np: NetworkPolicy, namespace: string, labels: map<string, string>, d: Direction, ep: Endpoint,
                    port: Port)
  {
    Restricts(np, namespace, labels) ==> Admits(np, d, ep, port)
  }

  /** The evaluation, clause by clause: what is unrestricted, and that peers and rules are alternatives. */
  lemma {:induction false} EvaluationMeaning(np: NetworkPolicy, d: Direction, ep: Endpoint, port: Port, r: Rule,
                                             rs: seq<Rule>, q: Peer, qs: seq<Peer>, ports: seq<Port>)
    ensures d !in np.policyTypes ==> Admits(np, d, ep, port)
    ensures Ingress in np.policyTypes && np.ingress == [] ==> !Admits(np, Ingress, ep, port)
    ensures Egress in np.policyTypes && np.egress == [r] + rs ==>
      (Admits(np, Egress, ep, port)
       <==> RuleAdmits(r, np.namespace, ep, port) || Admits(np.(egress := rs), Egress, ep, port))
    ensures RuleAdmits(Rule([], []), np.namespace, ep, port)
    ensures RuleAdmits(Rule([q], ports), np.namespace, ep, port)
            <==> PeerMatches(q, np.namespace, ep) && (ports == [] || port in ports)
    ensures qs != [] ==>
      (RuleAdmits(Rule([q] + qs, ports), np.namespace, ep, port)
       <==> RuleAdmits(Rule([q], ports), np.namespace, ep, port) || RuleAdmits(Rule(qs, ports), np.namespace, ep, port))
  {
    assert r in [r] + rs && forall x <- rs :: x in [r] + rs;
    assert forall x <- [r] + rs :: x == r || x in rs;
    assert q in [q];
    assert q in [q] + qs && forall x <- qs :: x in [q] + qs;
    assert forall x <- [q] + qs :: x == q || x in qs;
  }

  // ---------------------------------------------------------------------------------------
  // What the author asked for

  predicate SameNamespaceAllowed(p: TrafficPolicy) {
    p.allowSameNamespace.None? || p.allowSameNamespace.value
  }

  function Listed(p: TrafficPolicy, d: Direction): seq<string> {
    if d.Ingress? then p.allowedIngress else p.allowedEgress
  }

  /** The peer is in the workload's namespace, if that is allowed, or in a listed one. */
  predicate WantsPeer(p: TrafficPolicy, d: Direction, namespace: string, ep: Endpoint) {
    && ep.Pod?
    && ((SameNamespaceAllowed(p) && ep.namespace == namespace)
        || (ep.namespace != "" && ep.namespace in Listed(p, d)))
  }

  predicate WantsDNS(p: TrafficPolicy, ep: Endpoint, port: Port) {
    && !p.blockClusterDNS && ep.Pod? && ep.namespace == KUBE_SYSTEM
    && port.port == 53 && (port.protocol.UDP? || port.protocol.TCP?)
  }

  predicate WantsInternet(p: TrafficPolicy, port: Port) {
    p.allowEgressInternet && port.protocol.TCP? && (port.port == 80 || port.port == 443)
  }

  predicate Wants(p: TrafficPolicy, d: Direction, namespace: string, ep: Endpoint, port: Port) {
    || WantsPeer(p, d, namespace, ep)
    || (d.Egress? && (WantsDNS(p, ep, port) || WantsInternet(p, port)))
  }

  /** The policy allows something in this direction. */
  predicate HasPeers(p: TrafficPolicy, d: Direction) {
    SameNamespaceAllowed(p) || exists ns <- Listed(p, d) :: ns != ""
  }

  predicate HasRule(p: TrafficPolicy, d: Direction) {
    HasPeers(p, d) || (d.Egress? && (!p.blockClusterDNS || p.allowEgressInternet))
  }

  // ---------------------------------------------------------------------------------------
  // The rules

  const ANY_POD: Option<Selector> := Some(map[])

  function NamespacePeer(ns: string): Peer {
    Peer(ANY_POD, Some(map[NAMESPACE_NAME_LABEL := ns]))
  }

  function NamespacePeers(namespaces: seq<string>): seq<Peer> {
    if namespaces == [] then [] else
    NamespacePeers(namespaces[..|namespaces| - 1])
    + if namespaces[|namespaces| - 1] == "" then [] else [NamespacePeer(namespaces[|namespaces| - 1])]
  }

  function Peers(p: TrafficPolicy, d: Direction): seq<Peer> {
    (if SameNamespaceAllowed(p) then [Peer(ANY_POD, None)] else []) + NamespacePeers(Listed(p, d))
  }

  const DNS_RULE := Rule([Peer(None, Some(map[NAMESPACE_NAME_LABEL := KUBE_SYSTEM]))], [Port(UDP, 53), Port(TCP, 53)])
  const INTERNET_RULE := Rule([], [Port(TCP, 80), Port(TCP, 443)])

  function PeerRules(p: TrafficPolicy, d: Direction): seq<Rule> {
    if Peers(p, d) == [] then [] else [Rule(Peers(p, d), [])]
  }

  function EgressRules(p: TrafficPolicy): seq<Rule> {
    (if p.blockClusterDNS then [] else [DNS_RULE])
    + (if p.allowEgressInternet then [INTERNET_RULE] else [])
    + PeerRules(p, Egress)
  }

  function SanitizePolicyName(name: string): (r: string)
    ensures |r| <= 40
    ensures forall c <- r :: c != '_' && !('A' <= c <= 'Z')
  {
    var s := ToLower(seq(|name|, i requires 0 <= i < |name| => if name[i] == '_' then '-' else name[i]));
    if |s| <= 40 then s else s[..40]
  }

  /** Character by character, up to the fortieth. */
  lemma {:induction false} SanitizeMeaning(name: string)
    ensures var r := SanitizePolicyName(name);
      && |r| == (if |name| > 40 then 40 else |name|)
      && forall i :: 0 <= i < |r| ==> r[i] == if name[i] == '_' then '-' else LowerChar(name[i])
  {
    assert LowerChar('-') == '-';
  }

  const NAME_PREFIX := "kranix-ns-traffic-"

  function Labels(workload: string): map<string, string> {
    map["app.kubernetes.io/managed-by" := "kranix", "kranix.io/workload" := workload]
  }

  function Compiled(p: TrafficPolicy, namespace: string, workloadName: string, selector: Selector): NetworkPolicy {
    var workload := if workloadName == "" then "workload" else workloadName;
    NetworkPolicy(NAME_PREFIX + SanitizePolicyName(workload), namespace,
      Labels(workload),
      selector,
      (if PeerRules(p, Ingress) == [] then [] else [Ingress]) + (if EgressRules(p) == [] then [] else [Egress]),
      PeerRules(p, Ingress), EgressRules(p))
  }

  datatype BuildResult = NotRequested | Rejected | Built(policy: NetworkPolicy)

  method BuildPeers(allowSameNs: bool, namespaces: seq<string>) returns (peers: seq<Peer>)
    ensures peers == (if allowSameNs then [Peer(ANY_POD, None)] else []) + NamespacePeers(namespaces)
  {
    peers := [];
    if allowSameNs {
      peers := peers + [Peer(ANY_POD, None)];
    }
    ghost var start := peers;
    for i := 0 to |namespaces|
      invariant peers == start + NamespacePeers(namespaces[..i])
    {
      assert namespaces[..i + 1][..i] == namespaces[..i];
      if namespaces[i] == "" {
        continue;
      }
      peers := peers + [NamespacePeer(namespaces[i])];
    }
    assert namespaces[..|namespaces|] == namespaces;
  }

  method BuildEgress(p: TrafficPolicy, allowSameNs: bool) returns (toPeers: seq<Peer>, egress: seq<Rule>)
    requires allowSameNs == SameNamespaceAllowed(p)
    ensures toPeers == Peers(p, Egress) && egress == EgressRules(p)
  {
    egress := [];
    toPeers := BuildPeers(allowSameNs, p.allowedEgress);
    if !p.blockClusterDNS {
      egress := egress + [Rule([Peer(None, Some(map[NAMESPACE_NAME_LABEL := KUBE_SYSTEM]))],
                               [Port(UDP, 53), Port(TCP, 53)])];
    }
    if p.allowEgressInternet {
      egress := egress + [Rule([], [Port(TCP, 80), Port(TCP, 443)])];
    }
    if |toPeers| > 0 {
      egress := egress + [Rule(toPeers, [])];
    }
  }

  /** ensureCrossNamespaceNetworkPolicy up to the API call. */
  method BuildPolicy(policy: Option<TrafficPolicy>, namespace: string, workloadName: string, selector: Selector)
    returns (r: BuildResult)
    ensures r.NotRequested? <==> policy.None? || !policy.value.enabled
    ensures r.Rejected? <==> policy.Some? && policy.value.enabled
                             && !HasRule(policy.value, Ingress) && !HasRule(policy.value, Egress)
    ensures r.Rejected? <==>
      && policy.Some? && policy.value.enabled
      && policy.value.allowSameNamespace == Some(false)
      && (forall ns <- policy.value.allowedIngress :: ns == "") && (forall ns <- policy.value.allowedEgress :: ns == "")
      && policy.value.blockClusterDNS && !policy.value.allowEgressInternet
    ensures r.Built? ==> r.policy == Compiled(policy.value, namespace, workloadName, selector)
    ensures r.Built? ==>
      var workload := if workloadName == "" then "workload" else workloadName;
      && r.policy.name == "kranix-ns-traffic-" + SanitizePolicyName(workload)
      && r.policy.namespace == namespace && r.policy.podSelector == selector
      && r.policy.labels == map["app.kubernetes.io/managed-by" := "kranix", "kranix.io/workload" := workload]
  {
    if policy.None? || !policy.value.enabled {
      return NotRequested;
    }
    var p := policy.value;
    var workload := workloadName;
    if workload == "" {
      workload := "workload";
    }
    var name := NAME_PREFIX + SanitizePolicyName(workload);
    var allowSameNs := p.allowSameNamespace.None? || p.allowSameNamespace.value;

    var ingress := BuildIngress(p, allowSameNs);
    var toPeers, egress := BuildEgress(p, allowSameNs);
    RejectedIff(p);
    if |ingress| == 0 && |toPeers| == 0 && !p.allowEgressInternet && p.blockClusterDNS {
      return Rejected;
    }
    var policyTypes := ListDirections(ingress, egress);
    return Built(NetworkPolicy(name, namespace, Labels(workload), selector, policyTypes, ingress, egress));
  }

  method BuildIngress(p: TrafficPolicy, allowSameNs: bool) returns (ingress: seq<Rule>)
    requires allowSameNs == SameNamespaceAllowed(p)
    ensures ingress == PeerRules(p, Ingress)
  {
    ingress := [];
    var fromPeers := BuildPeers(allowSameNs, p.allowedIngress);
    if |fromPeers| > 0 {
      ingress := ingress + [Rule(fromPeers, [])];
    }
  }

  method ListDirections(ingress: seq<Rule>, egress: seq<Rule>) returns (policyTypes: seq<Direction>)
    ensures policyTypes == (if ingress == [] then [] else [Ingress]) + (if egress == [] then [] else [Egress])
  {
    policyTypes := [];
    if |ingress| > 0 {
      policyTypes := policyTypes + [Ingress];
    }
    if |egress| > 0 {
      policyTypes := policyTypes + [Egress];
    }
  }

  /** The code's test for the error, and what it means. */
  lemma {:induction false} RejectedIff(p: TrafficPolicy)
    ensures PeerRules(p, Ingress) == [] && Peers(p, Egress) == [] && !p.allowEgressInternet && p.blockClusterDNS
            <==> !HasRule(p, Ingress) && !HasRule(p, Egress)
  {
    PeersNonEmpty(p, Ingress);
    PeersNonEmpty(p, Egress);
  }

  // ---------------------------------------------------------------------------------------
  // What the rules mean

  lemma {:induction false} NamespacePeersNonEmpty(namespaces: seq<string>)
    ensures NamespacePeers(namespaces) != [] <==> exists ns <- namespaces :: ns != ""
  {
    if namespaces != [] {
      var n := |namespaces| - 1;
      NamespacePeersNonEmpty(namespaces[..n]);
      assert namespaces[n] in namespaces;
      assert forall ns <- namespaces :: ns in namespaces[..n] || ns == namespaces[n];
      assert forall ns <- namespaces[..n] :: ns in namespaces;
    }
  }

  lemma {:induction false} PeersNonEmpty(p: TrafficPolicy, d: Direction)
    ensures Peers(p, d) != [] <==> HasPeers(p, d)
  {
    NamespacePeersNonEmpty(Listed(p, d));
  }

  lemma {:induction false} AnyMatchesAppend(a: seq<Peer>, b: seq<Peer>, namespace: string, ep: Endpoint)
    ensures AnyMatches(a + b, namespace, ep) <==> AnyMatches(a, namespace, ep) || AnyMatches(b, namespace, ep)
  {
    assert forall p <- a + b :: p in a || p in b;
    assert forall p <- a :: p in a + b;
    assert forall p <- b :: p in a + b;
  }

  lemma {:induction false} AnyMatchesOne(p: Peer, namespace: string, ep: Endpoint)
    ensures AnyMatches([p], namespace, ep) <==> PeerMatches(p, namespace, ep)
  {
    assert [p][0] in [p];
  }

  lemma {:induction false} AnyAdmitsAppend(a: seq<Rule>, b: seq<Rule>, namespace: string, ep: Endpoint, port: Port)
    ensures AnyAdmits(a + b, namespace, ep, port)
            <==> AnyAdmits(a, namespace, ep, port) || AnyAdmits(b, namespace, ep, port)
  {
    assert forall r <- a + b :: r in a || r in b;
    assert forall r <- a :: r in a + b;
    assert forall r <- b :: r in a + b;
  }

  lemma {:induction false} AnyAdmitsOne(r: Rule, namespace: string, ep: Endpoint, port: Port)
    ensures AnyAdmits([r], namespace, ep, port) <==> RuleAdmits(r, namespace, ep, port)
  {
    assert [r][0] in [r];
  }

  lemma {:induction false} NamespacePeersMeaning(namespaces: seq<string>, namespace: string, ep: Endpoint)
    requires WellLabelled(ep)
    ensures AnyMatches(NamespacePeers(namespaces), namespace, ep)
            <==> ep.Pod? && ep.namespace != "" && ep.namespace in namespaces
  {
    if namespaces != [] {
      var n := |namespaces| - 1;
      var init, last := namespaces[..n], namespaces[n];
      NamespacePeersMeaning(init, namespace, ep);
      assert namespaces == init + [last];
      if last != "" {
        AnyMatchesAppend(NamespacePeers(init), [NamespacePeer(last)], namespace, ep);
        AnyMatchesOne(NamespacePeer(last), namespace, ep);
      }
    }
  }

  lemma {:induction false} PeersMeaning(p: TrafficPolicy, d: Direction, namespace: string, ep: Endpoint)
    requires WellLabelled(ep)
    ensures AnyMatches(Peers(p, d), namespace, ep) <==> WantsPeer(p, d, namespace, ep)
  {
    NamespacePeersMeaning(Listed(p, d), namespace, ep);
    var same := if SameNamespaceAllowed(p) then [Peer(ANY_POD, None)] else [];
    AnyMatchesAppend(same, NamespacePeers(Listed(p, d)), namespace, ep);
    AnyMatchesOne(Peer(ANY_POD, None), namespace, ep);
  }

  lemma {:induction false} PeerRulesMeaning(p: TrafficPolicy, d: Direction, namespace: string, ep: Endpoint, port: Port)
    requires WellLabelled(ep)
    ensures AnyAdmits(PeerRules(p, d), namespace, ep, port) <==> WantsPeer(p, d, namespace, ep)
  {
    PeersMeaning(p, d, namespace, ep);
    AnyAdmitsOne(Rule(Peers(p, d), []), namespace, ep, port);
  }

  lemma {:induction false} EgressRulesMeaning(p: TrafficPolicy, namespace: string, ep: Endpoint, port: Port)
    requires WellLabelled(ep)
    ensures AnyAdmits(EgressRules(p), namespace, ep, port) <==> Wants(p, Egress, namespace, ep, port)
  {
    var dns := if p.blockClusterDNS then [] else [DNS_RULE];
    var internet := if p.allowEgressInternet then [INTERNET_RULE] else [];
    AnyAdmitsAppend(dns + internet, PeerRules(p, Egress), namespace, ep, port);
    AnyAdmitsAppend(dns, internet, namespace, ep, port);
    PeerRulesMeaning(p, Egress, namespace, ep, port);
    DnsRuleMeaning(namespace, ep, port);
    AnyAdmitsOne(DNS_RULE, namespace, ep, port);
    AnyAdmitsOne(INTERNET_RULE, namespace, ep, port);
  }

  lemma {:induction false} DnsRuleMeaning(namespace: string, ep: Endpoint, port: Port)
    requires WellLabelled(ep)
    ensures RuleAdmits(DNS_RULE, namespace, ep, port)
            <==> ep.Pod? && ep.namespace == KUBE_SYSTEM && port.port == 53 && (port.protocol.UDP? || port.protocol.TCP?)
  {
    AnyMatchesOne(DNS_RULE.peers[0], namespace, ep);
    assert DNS_RULE.peers == [DNS_RULE.peers[0]];
  }

  /** A direction is listed exactly when it has a rule. */
  lemma {:induction false} ListedIff(p: TrafficPolicy, namespace: string, workload: string, selector: Selector,
                                     d: Direction)
    ensures d in Compiled(p, namespace, workload, selector).policyTypes <==> HasRule(p, d)
  {
    PeersNonEmpty(p, d);
  }

  /** A listed direction admits exactly what the author asked for. */
  lemma {:induction false} ListedDirectionIsExact(p: TrafficPolicy, namespace: string, workload: string,
                                                  selector: Selector, d: Direction, ep: Endpoint, port: Port)
    requires WellLabelled(ep) && HasRule(p, d)
    ensures Admits(Compiled(p, namespace, workload, selector), d, ep, port) <==> Wants(p, d, namespace, ep, port)
  {
    ListedIff(p, namespace, workload, selector, d);
    if d.Ingress? {
      PeerRulesMeaning(p, d, namespace, ep, port);
    } else {
      EgressRulesMeaning(p, namespace, ep, port);
    }
  }

  /**
   The exact condition under which a direction does what was asked for every peer: it must allow
   something. A direction that allows nothing is left out of the object and so admits everything.
   */
  lemma {:induction false} DirectionExactIff(p: TrafficPolicy, namespace: string, workload: string,
                                             selector: Selector, d: Direction)
    ensures (forall ep, port :: WellLabelled(ep) ==>
              (Admits(Compiled(p, namespace, workload, selector), d, ep, port) <==> Wants(p, d, namespace, ep, port)))
            <==> HasRule(p, d)
  {
    var np := Compiled(p, namespace, workload, selector);
    ListedIff(p, namespace, workload, selector, d);
    if HasRule(p, d) {
      forall ep, port | WellLabelled(ep) ensures Admits(np, d, ep, port) <==> Wants(p, d, namespace, ep, port) {
        ListedDirectionIsExact(p, namespace, workload, selector, d, ep, port);
      }
    } else {
      assert WellLabelled(External) && Admits(np, d, External, Port(SCTP, 0));
      assert !Wants(p, d, namespace, External, Port(SCTP, 0));
    }
  }

  /**
   What the built object does to any pod, in numbers and labels: it leaves alone the pods that are not
   the workload's, and a direction in which nothing is allowed. Otherwise a pod is let in from its own
   namespace, unless that is turned off, and from the listed ones; and let out to these, to kube-system
   on port 53 unless blocked, and to ports 80 and 443 over TCP if the internet is allowed.
   */
  lemma {:induction false} WorkloadTraffic(p: TrafficPolicy, namespace: string, workload: string, selector: Selector,
                                           podNamespace: string, labels: map<string, string>, ep: Endpoint, port: Port)
    requires ep.Pod? ==>
      "kubernetes.io/metadata.name" in ep.namespaceLabels
      && ep.namespaceLabels["kubernetes.io/metadata.name"] == ep.namespace
    ensures var np := Compiled(p, namespace, workload, selector);
      var own := podNamespace == namespace && forall k <- selector :: k in labels && labels[k] == selector[k];
      var same := p.allowSameNamespace != Some(false);
      && (Permits(np, podNamespace, labels, Ingress, ep, port) <==>
            || !own
            || (!same && forall ns <- p.allowedIngress :: ns == "")
            || (ep.Pod? && same && ep.namespace == namespace)
            || (ep.Pod? && ep.namespace != "" && ep.namespace in p.allowedIngress))
      && (Permits(np, podNamespace, labels, Egress, ep, port) <==>
            || !own
            || (!same && p.blockClusterDNS && !p.allowEgressInternet && forall ns <- p.allowedEgress :: ns == "")
            || (ep.Pod? && same && ep.namespace == namespace)
            || (ep.Pod? && ep.namespace != "" && ep.namespace in p.allowedEgress)
            || (ep.Pod? && ep.namespace == "kube-system" && !p.blockClusterDNS
                && port in {Port(TCP, 53), Port(UDP, 53)})
            || (p.allowEgressInternet && port in {Port(TCP, 80), Port(TCP, 443)}))
  {
    DirectionTraffic(p, namespace, workload, selector, Ingress, ep, port);
    DirectionTraffic(p, namespace, workload, selector, Egress, ep, port);
  }

  /** On the workload's own pods. */
  lemma {:induction false} DirectionTraffic(p: TrafficPolicy, namespace: string, workload: string, selector: Selector,
                                            d: Direction, ep: Endpoint, port: Port)
    requires WellLabelled(ep)
    ensures Admits(Compiled(p, namespace, workload, selector), d, ep, port)
            <==> !HasRule(p, d) || Wants(p, d, namespace, ep, port)
  {
    if HasRule(p, d) {
      ListedDirectionIsExact(p, namespace, workload, selector, d, ep, port);
    } else {
      ListedIff(p, namespace, workload, selector, d);
    }
  }
}
