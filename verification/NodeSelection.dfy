/** How the Kubernetes scheduler decides whether a node may run a pod (core/v1 node selection). */
module NodeSelection {
  import opened Integers
  import opened Text

  datatype Node = Node(name: string, labels: map<string, string>)

  datatype NodeSelectorRequirement = NodeSelectorRequirement(key: string, operator: string, values: seq<string>)
  datatype NodeSelectorTerm = NodeSelectorTerm(matchExpressions: seq<NodeSelectorRequirement>,
                                               matchFields: seq<NodeSelectorRequirement>)
  datatype PreferredSchedulingTerm = PreferredSchedulingTerm(weight: int, preference: NodeSelectorTerm)
  datatype NodeAffinity = NodeAffinity(required: Option<seq<NodeSelectorTerm>>, preferred: seq<PreferredSchedulingTerm>)
  datatype Affinity = Affinity(nodeAffinity: Option<NodeAffinity>)
  datatype PodSpec = PodSpec(nodeSelector: map<string, string>, affinity: Option<Affinity>)

  /** A base-10 int64 with an optional sign. */
  function ParseInt(s: string): Option<int> {
    var negative := s != "" && s[0] == '-';
    var digits := if s != "" && (s[0] == '-' || s[0] == '+') then s[1..] else s;
    match ParseDigits(digits)
    case None => None
    case Some(n) =>
      var v: int := if negative then -(n as int) else n;
      if InInt64(v) then Some(v) else None
  }

  /** One requirement on labels; a malformed one matches nothing. */
  predicate Matches(key: string, operator: string, values: seq<string>, labels: map<string, string>) {
    if operator == "In" then
      key in labels && labels[key] in values
    else if operator == "NotIn" then
      values != [] && !(key in labels && labels[key] in values)
    else if operator == "Exists" then
      values == [] && key in labels
    else if operator == "DoesNotExist" then
      values == [] && key !in labels
    else if operator == "Gt" || operator == "Lt" then
      && |values| == 1 && key in labels
      && ParseInt(labels[key]).Some? && ParseInt(values[0]).Some?
      && (if operator == "Gt" then ParseInt(labels[key]).value > ParseInt(values[0]).value
          else ParseInt(labels[key]).value < ParseInt(values[0]).value)
    else
      false
  }

  /** One requirement on the node's fields, of which only its name can be selected on. */
  predicate MatchesField(key: string, operator: string, values: seq<string>, node: Node) {
    var value := if key == "metadata.name" then node.name else "";
    && |values| == 1
    && ((operator == "In" && value == values[0]) || (operator == "NotIn" && value != values[0]))
  }

  predicate Selects(selector: map<string, string>, labels: map<string, string>) {
    forall k <- selector :: k in labels && labels[k] == selector[k]
  }

  /** The requirements of a term must all hold; a term without any matches nothing. */
  predicate TermMatches(t: NodeSelectorTerm, node: Node) {
    && (t.matchExpressions != [] || t.matchFields != [])
    && (forall r <- t.matchExpressions :: Matches(r.key, r.operator, r.values, node.labels))
    && (forall r <- t.matchFields :: MatchesField(r.key, r.operator, r.values, node))
  }

  /** Required terms are alternatives. Preferred terms never exclude a node. */
  predicate AffinityAdmits(a: Option<Affinity>, node: Node) {
    a.Some? && a.value.nodeAffinity.Some? && a.value.nodeAffinity.value.required.Some?
    ==> exists t <- a.value.nodeAffinity.value.required.value :: TermMatches(t, node)
  }

  predicate Admits(pod: PodSpec, node: Node) {
    Selects(pod.nodeSelector, node.labels) && AffinityAdmits(pod.affinity, node)
  }

  // ---------------------------------------------------------------------------------------
  // What these definitions come to

  /** One value, several values, complements, comparisons, and operators there are not. */
  lemma {:induction false} MatchesMeaning(key: string, v: string, vs: seq<string>, ws: seq<string>,
                                          labels: map<string, string>)
    ensures Matches(key, "In", [v], labels) <==> key in labels && labels[key] == v
    ensures !Matches(key, "In", [], labels) && !Matches(key, "NotIn", [], labels)
    ensures Matches(key, "In", vs + ws, labels) <==> Matches(key, "In", vs, labels) || Matches(key, "In", ws, labels)
    ensures vs != [] ==> (Matches(key, "NotIn", vs, labels) <==> !Matches(key, "In", vs, labels))
    ensures Matches(key, "Exists", [], labels) <==> key in labels
    ensures Matches(key, "DoesNotExist", [], labels) <==> key !in labels
    ensures vs != [] ==> !Matches(key, "Exists", vs, labels) && !Matches(key, "DoesNotExist", vs, labels)
  {
    assert "DoesNotExist"[0] != "Exists"[0];
  }

  /** Greater and less, on labels that are decimal numbers. */
  lemma {:induction false} ComparesNumbers(key: string, n: nat, m: nat, labels: map<string, string>)
    requires n < 0x8000_0000_0000_0000 && m < 0x8000_0000_0000_0000
    requires key in labels && labels[key] == Decimal(n)
    ensures Matches(key, "Gt", [Decimal(m)], labels) <==> n > m
    ensures Matches(key, "Lt", [Decimal(m)], labels) <==> n < m
  {
    ParseIntDecimal(n);
    ParseIntDecimal(m);
    assert "Gt"[0] != "Lt"[0];
  }

  lemma {:induction false} ParseIntDecimal(n: nat)
    requires n < 0x8000_0000_0000_0000
    ensures ParseInt(Decimal(n)) == Some(n)
  {
    ParseDecimal(n);
    DecimalFirst(n);
  }

  lemma {:induction false} DecimalFirst(n: nat)
    ensures Decimal(n) != "" && '0' <= Decimal(n)[0] <= '9'
  {
    if n >= 10 {
      DecimalFirst(n / 10);
    }
  }

  /** A term is the conjunction of its requirements, and nothing without any. */
  lemma {:induction false} TermMeaning(a: NodeSelectorTerm, b: NodeSelectorTerm, r: NodeSelectorRequirement, node: Node)
    ensures !TermMatches(NodeSelectorTerm([], []), node)
    ensures TermMatches(NodeSelectorTerm([r], []), node) <==> Matches(r.key, r.operator, r.values, node.labels)
    ensures TermMatches(NodeSelectorTerm([], [r]), node) <==> MatchesField(r.key, r.operator, r.values, node)
    ensures (a.matchExpressions != [] || a.matchFields != []) && (b.matchExpressions != [] || b.matchFields != []) ==>
      var both := NodeSelectorTerm(a.matchExpressions + b.matchExpressions, a.matchFields + b.matchFields);
      (TermMatches(both, node) <==> TermMatches(a, node) && TermMatches(b, node))
  {
    assert r in [r];
    var both := NodeSelectorTerm(a.matchExpressions + b.matchExpressions, a.matchFields + b.matchFields);
    assert forall x <- a.matchExpressions :: x in both.matchExpressions;
    assert forall x <- b.matchExpressions :: x in both.matchExpressions;
    assert forall x <- a.matchFields :: x in both.matchFields;
    assert forall x <- b.matchFields :: x in both.matchFields;
  }

  lemma {:induction false} FieldMeaning(name: string, v: string, labels: map<string, string>)
    ensures MatchesField("metadata.name", "In", [v], Node(name, labels)) <==> name == v
    ensures MatchesField("metadata.name", "NotIn", [v], Node(name, labels)) <==> name != v
  {
  }

  /** Selectors all count, required terms are alternatives, preferred ones exclude nothing. */
  lemma {:induction false} AdmitsMeaning(selector: map<string, string>, key: string, v: string, t: NodeSelectorTerm,
                                         ts: seq<NodeSelectorTerm>, preferred: seq<PreferredSchedulingTerm>, node: Node)
    requires key !in selector
    ensures Admits(PodSpec(map[], None), node)
    ensures Admits(PodSpec(selector[key := v], None), node)
            <==> Admits(PodSpec(selector, None), node) && key in node.labels && node.labels[key] == v
    ensures ts != [] ==>
      var pod := PodSpec(selector, Some(Affinity(Some(NodeAffinity(Some([t] + ts), preferred)))));
      Admits(pod, node)
      <==> Admits(PodSpec(selector, None), node)
           && (TermMatches(t, node)
               || Admits(PodSpec(selector, Some(Affinity(Some(NodeAffinity(Some(ts), []))))), node))
    ensures
      var pod := PodSpec(selector, Some(Affinity(Some(NodeAffinity(Some([t]), preferred)))));
      Admits(pod, node) <==> Admits(PodSpec(selector, None), node) && TermMatches(t, node)
  {
    assert forall k <- selector :: k in selector[key := v];
    assert key in selector[key := v];
    assert forall x <- [t] + ts :: x == t || x in ts;
    assert t in [t] + ts && forall x <- ts :: x in [t] + ts;
    assert t in [t];
  }
}
