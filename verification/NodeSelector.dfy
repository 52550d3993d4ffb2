/** Checking a resource's node selector against the workers it is meant for. */
module NodeSelector {
  import opened Wrappers
  import opened Text
  import opened Inventory
  import opened TargetScope

  datatype Node = Node(name: string, labels: map<string, string>)

  datatype Requirement = Requirement(key: string, operator: string, values: seq<string>)

  datatype Term = Term(expressions: seq<Requirement>, fields: seq<Requirement>)

  /** spec.nodeSelector: `flat` is its reading as a string map, `terms` as node selector
      terms; None where that reading fails. */
  datatype Selector = NotAMap | Missing | Map(size: nat, flat: Option<map<string, string>>, terms: Option<seq<Term>>)

  datatype Resource = Resource(kind: string, selector: Selector)

  /** labels.NewRequirement and Matches: None for an invalid requirement. */
  type Matcher = (Requirement, map<string, string>) -> Option<bool>

  const OPERATORS := {"In", "NotIn", "Exists", "DoesNotExist", "Gt", "Lt"}

  function MatchesRequirement(lib: Matcher, req: Requirement, values: map<string, string>): Option<bool> {
    if req.operator in OPERATORS then lib(req, values) else None
  }

  function FieldMatches(lib: Matcher, req: Requirement, node: Node): Option<bool> {
    if req.key != "metadata.name" then None else MatchesRequirement(lib, req, map["metadata.name" := node.name])
  }

  // ---------- What a selector selects ----------

  ghost predicate TermValid(lib: Matcher, term: Term, node: Node) {
    && (forall r :: r in term.expressions ==> MatchesRequirement(lib, r, node.labels).Some?)
    && (forall r :: r in term.fields ==> FieldMatches(lib, r, node).Some?)
  }

  /** Requirements are a conjunction, but an empty term matches nothing. */
  ghost predicate TermMatches(lib: Matcher, term: Term, node: Node) {
    && term != Term([], [])
    && (forall r :: r in term.expressions ==> MatchesRequirement(lib, r, node.labels) == Some(true))
    && (forall r :: r in term.fields ==> FieldMatches(lib, r, node) == Some(true))
  }

  ghost predicate ValidFor(lib: Matcher, resource: Resource, node: Node) {
    match resource.selector
    case NotAMap => false
    case Missing => true
    case Map(_, flat, terms) =>
      if resource.kind == "SriovNetworkNodePolicy" then flat.Some?
      else terms.Some? && forall t :: t in terms.value ==> TermValid(lib, t, node)
  }

  /** Terms are a disjunction; a flat map asks for all its labels. */
  ghost predicate Selects(lib: Matcher, resource: Resource, node: Node)
    requires ValidFor(lib, resource, node)
  {
    match resource.selector
    case Missing => true
    case Map(_, flat, terms) =>
      if resource.kind == "SriovNetworkNodePolicy"
      then forall k :: k in flat.value ==> k in node.labels && node.labels[k] == flat.value[k]
      else exists t :: t in terms.value && TermMatches(lib, t, node)
  }

  // ---------- resourceSelectsNode ----------

  method MatchTerm(lib: Matcher, term: Term, node: Node) returns (r: Option<bool>)
    ensures r.Some? <==> TermValid(lib, term, node)
    ensures r.Some? ==> (r.value <==> TermMatches(lib, term, node))
  {
    var matches := |term.expressions| + |term.fields| > 0;
    for i := 0 to |term.expressions|
      invariant forall j :: 0 <= j < i ==> MatchesRequirement(lib, term.expressions[j], node.labels).Some?
      invariant matches <==> (&& term != Term([], [])
                              && forall j :: 0 <= j < i ==> MatchesRequirement(lib, term.expressions[j], node.labels) == Some(true))
    {
      var matched := MatchesRequirement(lib, term.expressions[i], node.labels);
      if matched.None? { return None; }
      matches := matches && matched.value;
    }
    ghost var first := matches;
    for i := 0 to |term.fields|
      invariant forall j :: 0 <= j < i ==> FieldMatches(lib, term.fields[j], node).Some?
      invariant matches <==> first && forall j :: 0 <= j < i ==> FieldMatches(lib, term.fields[j], node) == Some(true)
    {
      if term.fields[i].key != "metadata.name" {
        assert FieldMatches(lib, term.fields[i], node).None?;
        return None;
      }
      var matched := MatchesRequirement(lib, term.fields[i], map["metadata.name" := node.name]);
      if matched.None? {
        assert FieldMatches(lib, term.fields[i], node).None?;
        return None;
      }
      matches := matches && matched.value;
    }
    r := Some(matches);
  }

  method ResourceSelectsNode(lib: Matcher, resource: Resource, node: Node) returns (r: Option<bool>)
    ensures r.Some? <==> ValidFor(lib, resource, node)
    ensures r.Some? ==> (r.value <==> Selects(lib, resource, node))
  {
    if resource.selector.NotAMap? { return None; }
    if resource.selector.Missing? { return Some(true); }
    if resource.kind == "SriovNetworkNodePolicy" {
      var flat := resource.selector.flat;
      if flat.None? { return None; }
      return Some(forall k :: k in flat.value ==> k in node.labels && node.labels[k] == flat.value[k]);
    }
    if resource.selector.terms.None? { return None; }
    hide TermValid, TermMatches;
    var terms := resource.selector.terms.value;
    var anyMatch := false;
    for i := 0 to |terms|
      invariant forall j :: 0 <= j < i ==> TermValid(lib, terms[j], node)
      invariant anyMatch <==> exists j :: 0 <= j < i && TermMatches(lib, terms[j], node)
    {
      var matches := MatchTerm(lib, terms[i], node);
      if matches.None? { return None; }
      anyMatch := anyMatch || matches.value;
    }
    r := Some(anyMatch);
  }

  // ---------- checkTargetScope ----------

  datatype Answer = Verified | Unverified | Mismatch

  ghost predicate AllValid(lib: Matcher, resource: Resource, nodes: seq<Node>) {
    forall n :: n in nodes ==> ValidFor(lib, resource, n)
  }

  /** Some node of this name is selected. */
  ghost predicate Picked(lib: Matcher, resource: Resource, nodes: seq<Node>, name: string) {
    exists n :: n in nodes && n.name == name && ValidFor(lib, resource, n) && Selects(lib, resource, n)
  }

  /** Verified exactly when there is an inventory, the selector is a nonempty map that can
      be evaluated on each node, and it picks precisely the intended workers. */
  method CheckTargetScope(lib: Matcher, resource: Resource, workers: Option<seq<string>>, nodes: seq<Node>)
    returns (answer: Answer)
    ensures answer.Unverified? <==> workers.None?
    ensures answer.Verified? <==>
            && workers.Some? && resource.selector.Map? && resource.selector.size > 0
            && AllValid(lib, resource, nodes) && Distinct(workers.value)
            && forall name :: name in workers.value <==> Picked(lib, resource, nodes, name)
  {
    if workers.None? { return Unverified; }
    if !resource.selector.Map? || resource.selector.size == 0 { return Mismatch; }
    var ok, selected := SelectedNodes(lib, resource, nodes);
    if !ok { return Mismatch; }
    hide ValidFor, Selects, Picked, AllValid;
    var same := SameNames(selected, workers.value);
    answer := if same then Verified else Mismatch;
  }

  method SelectedNodes(lib: Matcher, resource: Resource, nodes: seq<Node>) returns (ok: bool, selected: set<string>)
    ensures ok <==> AllValid(lib, resource, nodes)
    ensures ok ==> forall name :: name in selected <==> Picked(lib, resource, nodes, name)
  {
    hide ValidFor, Selects;
    selected := {};
    for i := 0 to |nodes|
      invariant AllValid(lib, resource, nodes[..i])
      invariant forall name :: name in selected <==> Picked(lib, resource, nodes[..i], name)
    {
      assert nodes[..i + 1] == nodes[..i] + [nodes[i]];
      var matches := ResourceSelectsNode(lib, resource, nodes[i]);
      if matches.None? { return false, selected; }
      PickedStep(lib, resource, nodes[..i], nodes[i]);
      if matches.value { selected := selected + {nodes[i].name}; }
    }
    assert nodes[..|nodes|] == nodes;
    ok := true;
  }

  lemma PickedStep(lib: Matcher, resource: Resource, nodes: seq<Node>, n: Node)
    requires ValidFor(lib, resource, n)
    ensures forall name :: Picked(lib, resource, nodes + [n], name) <==>
              Picked(lib, resource, nodes, name) || (n.name == name && Selects(lib, resource, n))
  {
    hide ValidFor, Selects;
    var all := nodes + [n];
    assert n in all && forall m :: m in nodes ==> m in all;
    forall name | Picked(lib, resource, nodes, name) ensures Picked(lib, resource, all, name) {
      var m :| m in nodes && m.name == name && ValidFor(lib, resource, m) && Selects(lib, resource, m);
      assert m in all;
    }
  }

  /** Crossing the workers off the selected names, with nothing missing or left over. */
  method SameNames(selected: set<string>, workers: seq<string>) returns (same: bool)
    ensures same <==> Distinct(workers) && forall name :: name in workers <==> name in selected
  {
    var left, missing: seq<string> := selected, [];
    for i := 0 to |workers|
      invariant left == selected - set j | 0 <= j < i :: workers[j]
      invariant missing == [] <==> Distinct(workers[..i]) && forall j :: 0 <= j < i ==> workers[j] in selected
    {
      assert Distinct(workers[..i + 1]) <==> Distinct(workers[..i]) && forall j :: 0 <= j < i ==> workers[j] != workers[i];
      if workers[i] !in left { missing := missing + [workers[i]]; }
      left := left - {workers[i]};
    }
    assert workers[..|workers|] == workers;
    same := |missing| == 0 && |left| == 0;
  }

  // ---------- The two inspections ----------

  /** What the API server answers to a read. */
  datatype Read<T> = Failed | NotFound | Got(value: T)

  ghost predicate Exact(lib: Matcher, resource: Resource, scope: Scope, nodes: seq<Node>) {
    && scope.Inventoried? && resource.selector.Map? && resource.selector.size > 0
    && AllValid(lib, resource, nodes) && Distinct(scope.workers)
    && forall name :: name in scope.workers <==> Picked(lib, resource, nodes, name)
  }

  /** inspectDesiredTargetScope for a kind that has a scope: the intent comes from the
      resource's own annotation and the configured groups. */
  method InspectDesired(lib: Matcher, a: Annotation, groups: seq<Group>, desired: Resource, nodes: Read<seq<Node>>)
    returns (answer: Answer)
    ensures answer.Unverified? <==> Intent(a, groups).SelectorOnly?
    ensures answer.Verified? <==> nodes.Got? && Exact(lib, desired, Intent(a, groups), nodes.value)
  {
    hide Intent, ValidFor, Selects, Picked, AllValid;
    var scope := ResolveTargetScope(a, groups);
    match scope {
      case Refused => answer := Mismatch;
      case SelectorOnly => answer := CheckTargetScope(lib, desired, None, []);
      case Inventoried(workers) =>
        if !nodes.Got? { return Mismatch; }
        answer := CheckTargetScope(lib, desired, Some(workers), nodes.value);
    }
  }

  /** inspectLiveTargetScope: the live object only supplies the selector, never the intent.
      A missing object passes unchecked, which the source leaves to readiness. */
  method InspectLive(lib: Matcher, a: Annotation, groups: seq<Group>, live: Read<Resource>, nodes: Read<seq<Node>>)
    returns (answer: Option<Answer>)
    ensures answer.None? <==> live.NotFound? && !Intent(a, groups).Refused?
    ensures answer == Some(Unverified) <==> live.Got? && Intent(a, groups).SelectorOnly?
    ensures answer == Some(Verified) <==> live.Got? && nodes.Got? && Exact(lib, live.value, Intent(a, groups), nodes.value)
  {
    hide Intent, ValidFor, Selects, Picked, AllValid;
    var scope := ResolveTargetScope(a, groups);
    if scope.Refused? || live.Failed? { return Some(Mismatch); }
    if live.NotFound? { return None; }
    var r;
    match scope {
      case SelectorOnly => r := CheckTargetScope(lib, live.value, None, []);
      case Inventoried(workers) =>
        if !nodes.Got? { return Some(Mismatch); }
        r := CheckTargetScope(lib, live.value, Some(workers), nodes.value);
    }
    answer := Some(r);
  }

  /** Requirements with an unknown operator, and field requirements on anything but the name
      of the node, are errors; all others are the label library's to judge. */
  lemma RequirementMeans(lib: Matcher, req: Requirement, node: Node)
    ensures req.operator !in {"In", "NotIn", "Exists", "DoesNotExist", "Gt", "Lt"} ==>
              MatchesRequirement(lib, req, node.labels).None? && FieldMatches(lib, req, node).None?
    ensures req.key != "metadata.name" ==> FieldMatches(lib, req, node).None?
    ensures req.operator in {"In", "NotIn", "Exists", "DoesNotExist", "Gt", "Lt"} ==>
              && MatchesRequirement(lib, req, node.labels) == lib(req, node.labels)
              && (req.key == "metadata.name" ==> FieldMatches(lib, req, node) == lib(req, map["metadata.name" := node.name]))
  {}
}
