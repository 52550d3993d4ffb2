/** Loading a bundle of generated files and sorting its documents into the classes the
    deploy works on. */
module Loading {
  import opened Wrappers
  import opened Text
  import opened Kubernetes
  import opened Cluster
  import opened Phases

  datatype Role = Deployment | Validation

  datatype FileKind = IgnoredFile | ResourceFile(role: Role) | ValuesFile | Misnamed

  datatype File = File(name: string, content: string)

  /** A decoded object; `allowlist` is its data / allowlist.conf if that is a string. */
  datatype Resource = Resource(manifest: Manifest, allowlist: Option<string>)

  datatype Document = Document(file: string, number: nat, role: Role, resource: Resource)

  datatype ObjectRef = ObjectRef(group: string, kind: string, namespace: string, name: string)

  /** YAML decoding: None for a malformed file. */
  datatype Decoder = Decoder(resources: File -> Option<seq<Resource>>, values: string -> bool)

  function RefOf(d: Document): ObjectRef {
    var m := d.resource.manifest;
    ObjectRef(m.gvk.group, m.gvk.kind, m.namespace, m.name)
  }

  // ---------- File names ----------

  predicate FlatName(name: string) { name !in {"", ".", ".."} && '/' !in name && '\\' !in name }

  /** filepath.Ext of a basename. */
  function Extension(name: string): string { if LastIndex(name, '.') < 0 then "" else name[LastIndex(name, '.')..] }

  predicate Contains(s: string, part: string) { exists i :: 0 <= i <= |s| && part <= s[i..] }

  function Classify(name: string): FileKind {
    if name == "cluster-config.yaml" || name == "cluster-config.yml" then IgnoredFile
    else if EqualFold(name, "values.yaml") || EqualFold(name, "values.yml") then
      if name != "values.yaml" then Misnamed else ValuesFile
    else if Extension(name) != ".yaml" && Extension(name) != ".yml" then IgnoredFile
    else ResourceFile(if Contains(ToLower(name), "example") then Validation else Deployment)
  }

  // ---------- What a list of files holds ----------

  /** The fields of a bundle. */
  datatype Contents = Contents(files: seq<File>, documents: seq<Document>, values: Option<string>)

  function Numbered(f: File, role: Role, resources: seq<Resource>): (r: seq<Document>)
    ensures |r| == |resources| && forall i :: 0 <= i < |r| ==> r[i] == Document(f.name, i + 1, role, resources[i])
  {
    seq(|resources|, i requires 0 <= i < |resources| => Document(f.name, i + 1, role, resources[i]))
  }

  ghost predicate DistinctRefs(docs: seq<Document>) { forall i, j :: 0 <= i < j < |docs| ==> RefOf(docs[i]) != RefOf(docs[j]) }

  ghost predicate Seen(seen: set<ObjectRef>, docs: seq<Document>) {
    forall r :: r in seen <==> exists i :: 0 <= i < |docs| && RefOf(docs[i]) == r
  }

  lemma SeenAppend(seen: set<ObjectRef>, docs: seq<Document>, d: Document)
    requires Seen(seen, docs)
    ensures Seen(seen + {RefOf(d)}, docs + [d])
    ensures RefOf(d) !in seen && DistinctRefs(docs) ==> DistinctRefs(docs + [d])
  {
    hide RefOf;
    var all := docs + [d];
    forall r ensures r in seen + {RefOf(d)} <==> exists i :: 0 <= i < |all| && RefOf(all[i]) == r {
      if r in seen {
        var i :| 0 <= i < |docs| && RefOf(docs[i]) == r;
        assert all[i] == docs[i];
      }
      assert all[|docs|] == d;
    }
  }

  /** One file taken in. */
  ghost function Take(c: Decoder, b: Contents, f: File): Option<Contents> {
    match Classify(f.name)
    case Misnamed => None
    case IgnoredFile => Some(b)
    case ValuesFile => if c.values(f.content) then Some(b.(files := b.files + [f], values := Some(f.content))) else None
    case ResourceFile(role) =>
      var resources := c.resources(f);
      if resources.None? then None else
        var documents := b.documents + Numbered(f, role, resources.value);
        if DistinctRefs(documents) then Some(b.(files := b.files + [f], documents := documents)) else None
  }

  ghost function TakeAll(c: Decoder, files: seq<File>): Option<Contents> {
    if files == [] then Some(Contents([], [], None)) else
      var n := |files| - 1;
      var front := TakeAll(c, files[..n]);
      if front.None? then None else Take(c, front.value, files[n])
  }

  function NameOf(f: File): string { f.name }

  ghost predicate GoodNames(files: seq<File>) {
    (forall f :: f in files ==> FlatName(f.name)) && Distinct(KeysOf(files, NameOf))
  }

  /** The bundle of the files, taken in name order. */
  ghost function Loaded(c: Decoder, files: seq<File>): Option<Contents> {
    if GoodNames(files) then TakeAll(c, SortedBy(files, NameOf)) else None
  }

  class Bundle {
    var files: seq<File>
    var documents: seq<Document>
    var values: Option<string>

    constructor ()
      ensures Holds() == Contents([], [], None)
    {
      files, documents, values := [], [], None;
    }

    function Holds(): Contents
      reads this
    {
      Contents(files, documents, values)
    }

    /** The loop over the decoded documents. */
    method AddDocuments(docs: seq<Document>, seen: set<ObjectRef>) returns (ok: bool, seen': set<ObjectRef>)
      requires DistinctRefs(documents) && Seen(seen, documents)
      modifies this
      ensures files == old(files) && values == old(values)
      ensures ok <==> DistinctRefs(old(documents) + docs)
      ensures ok ==> documents == old(documents) + docs
      ensures ok ==> Seen(seen', documents)
    {
      hide RefOf;
      seen' := seen;
      ghost var before := documents;
      for i := 0 to |docs|
        invariant files == old(files) && values == old(values) && documents == before + docs[..i]
        invariant DistinctRefs(documents) && Seen(seen', documents)
      {
        var ref := RefOf(docs[i]);
        assert (before + docs)[|before| + i] == docs[i];
        assert forall j :: 0 <= j < |before| + i ==> (before + docs)[j] == documents[j];
        if ref in seen' { return false, seen'; }
        SeenAppend(seen', documents, docs[i]);
        seen' := seen' + {ref};
        documents := documents + [docs[i]];
      }
      assert docs[..|docs|] == docs;
      ok := true;
    }
  }

  /** The name loop. */
  method CheckNames(files: seq<File>) returns (ok: bool)
    ensures ok <==> GoodNames(files)
  {
    var seen := {};
    for i := 0 to |files|
      invariant forall j :: 0 <= j < i ==> FlatName(files[j].name)
      invariant forall n :: n in seen <==> exists j :: 0 <= j < i && files[j].name == n
      invariant forall j, k :: 0 <= j < k < i ==> files[j].name != files[k].name
    {
      var name := files[i].name;
      assert files[i] in files && KeysOf(files, NameOf)[i] == name;
      if !FlatName(name) { return false; }
      if name in seen {
        ghost var j :| 0 <= j < i && files[j].name == name;
        assert KeysOf(files, NameOf)[j] == KeysOf(files, NameOf)[i];
        return false;
      }
      seen := seen + {name};
    }
    ok := true;
  }

  /** One file of the loop. */
  method TakeFile(c: Decoder, b: Bundle, f: File, seen: set<ObjectRef>) returns (ok: bool, seen': set<ObjectRef>)
    requires DistinctRefs(b.documents)
    requires Seen(seen, b.documents)
    modifies b
    ensures ok <==> Take(c, old(b.Holds()), f).Some?
    ensures ok ==> Take(c, old(b.Holds()), f) == Some(b.Holds()) && DistinctRefs(b.documents)
    ensures ok ==> Seen(seen', b.documents)
  {
    hide RefOf, DistinctRefs;
    seen' := seen;
    match Classify(f.name) {
      case Misnamed => return false, seen';
      case IgnoredFile => return true, seen';
      case ValuesFile =>
        b.files := b.files + [f];
        if !c.values(f.content) { return false, seen'; }
        b.values := Some(f.content);
        return true, seen';
      case ResourceFile(role) =>
        b.files := b.files + [f];
        var resources := c.resources(f);
        if resources.None? { return false, seen'; }
        ok, seen' := b.AddDocuments(Numbered(f, role, resources.value), seen);
    }
    if ok { KeptDistinct(b.documents); }
  }

  lemma KeptDistinct(docs: seq<Document>)
    ensures DistinctRefs(docs) <==> DistinctRefs(docs + [])
  {
    assert docs + [] == docs;
  }

  /** FromFiles: a bundle exactly when the names are flat and distinct, every file in name
      order is well-formed and no object is declared twice. */
  method FromFiles(c: Decoder, files: seq<File>) returns (b: Bundle?)
    ensures b != null <==> Loaded(c, files).Some?
    ensures b != null ==> fresh(b) && Loaded(c, files) == Some(b.Holds()) && DistinctRefs(b.documents)
  {
    hide Take, GoodNames, RefOf;
    var ok := CheckNames(files);
    if !ok { return null; }
    var ordered := SortedBy(files, NameOf);
    var made := new Bundle();
    var seen: set<ObjectRef> := {};
    for i := 0 to |ordered|
      invariant fresh(made) && TakeAll(c, ordered[..i]) == Some(made.Holds()) && DistinctRefs(made.documents)
      invariant Seen(seen, made.documents)
    {
      assert ordered[..i + 1][..i] == ordered[..i];
      ok, seen := TakeFile(c, made, ordered[i], seen);
      if !ok {
        FailsLater(c, ordered, i + 1);
        return null;
      }
    }
    assert ordered[..|ordered|] == ordered;
    b := made;
  }

  lemma {:induction false} FailsLater(c: Decoder, files: seq<File>, i: nat)
    requires i <= |files| && TakeAll(c, files[..i]).None?
    ensures TakeAll(c, files).None?
    decreases |files|
  {
    if i < |files| {
      assert files[..|files| - 1][..i] == files[..i];
      FailsLater(c, files[..|files| - 1], i);
    } else {
      assert files[..i] == files;
    }
  }

  /** The order in which the files arrive does not matter. */
  lemma OrderIndependent(c: Decoder, a: seq<File>, b: seq<File>)
    requires multiset(a) == multiset(b)
    ensures Loaded(c, a) == Loaded(c, b)
  {
    SameKeys(a, b, NameOf);
    DistinctCounts(KeysOf(a, NameOf));
    DistinctCounts(KeysOf(b, NameOf));
    forall f ensures f in a <==> f in b { assert f in multiset(a) <==> f in multiset(b); }
    if GoodNames(a) { SortedByUnique(a, b, NameOf); }
  }

  // ---------- prepareDeploymentObjects ----------

  const SYSCTL_FILE := "04-cni-sysctl-allowlist-patch.yaml"

  predicate PatchesSysctl(m: Manifest) { IsSysctlPatch(ApiVersion(m.gvk), m.gvk.kind, m.namespace, m.name) }

  predicate IsOperatorConfig(m: Manifest) {
    || PatchesSysctl(m)
    || (m.gvk.group == "sriovnetwork.openshift.io" && m.gvk.kind == "SriovOperatorConfig")
    || (m.gvk.group == "maintenance.nvidia.com" && m.gvk.kind == "MaintenanceOperatorConfig")
    || (m.gvk.group == "nfd.openshift.io" && m.gvk.kind == "NodeFeatureDiscovery")
  }

  /** A required allowlist that is not blank. */
  predicate HasEntries(r: Resource) { r.allowlist.Some? && TrimSpace(r.allowlist.value) != "" }

  predicate SysctlOk(d: Document, ocp: bool) {
    && (d.file == SYSCTL_FILE ==> PatchesSysctl(d.resource.manifest))
    && (PatchesSysctl(d.resource.manifest) ==> HasEntries(d.resource) && ocp)
  }

  datatype Class = Skipped | ClusterPolicy | NodePolicy | OperatorConfig | Plain

  /** The one class of a document. */
  function ClassOf(d: Document, ocp: bool): Class {
    var m := d.resource.manifest;
    if d.role != Deployment then Skipped
    else if m.gvk.kind == "NicClusterPolicy" then ClusterPolicy
    else if m.gvk.kind == "NicNodePolicy" then NodePolicy
    else if ocp && IsOperatorConfig(m) then OperatorConfig else Plain
  }

  /** The manifests of one class, in order. */
  function Select(docs: seq<Document>, ocp: bool, wanted: Class): seq<Manifest> {
    if docs == [] then [] else
      var n := |docs| - 1;
      Select(docs[..n], ocp, wanted) + if ClassOf(docs[n], ocp) == wanted then [docs[n].resource.manifest] else []
  }

  datatype Selected = Selected(policy: Option<Manifest>, nodePolicies: seq<Manifest>, others: seq<Manifest>,
                               operatorConfigs: seq<Manifest>)

  function PolicyList(s: Selected): seq<Manifest> { if s.policy.Some? then [s.policy.value] else [] }

  /** Each class of `s` has exactly its documents. */
  ghost predicate Selects(s: Selected, docs: seq<Document>, ocp: bool) {
    && PolicyList(s) == Select(docs, ocp, ClusterPolicy) && s.nodePolicies == Select(docs, ocp, NodePolicy)
    && s.others == Select(docs, ocp, Plain) && s.operatorConfigs == Select(docs, ocp, OperatorConfig)
  }

  ghost predicate Preparable(docs: seq<Document>, ocp: bool) {
    && (forall d :: d in docs && d.role == Deployment ==> SysctlOk(d, ocp))
    && |Select(docs, ocp, ClusterPolicy)| <= 1
  }

  lemma SelectAppend(docs: seq<Document>, d: Document, ocp: bool, wanted: Class)
    ensures Select(docs + [d], ocp, wanted) ==
            Select(docs, ocp, wanted) + if ClassOf(d, ocp) == wanted then [d.resource.manifest] else []
  {
    assert (docs + [d])[..|docs|] == docs;
  }

  lemma {:induction false} SelectMonotone(docs: seq<Document>, i: nat, ocp: bool, wanted: Class)
    requires i <= |docs|
    ensures |Select(docs[..i], ocp, wanted)| <= |Select(docs, ocp, wanted)|
    decreases |docs|
  {
    if i < |docs| {
      assert docs[..|docs| - 1][..i] == docs[..i];
      SelectMonotone(docs[..|docs| - 1], i, ocp, wanted);
    } else {
      assert docs[..i] == docs;
    }
  }

  method PrepareDeploymentObjects(docs: seq<Document>, ocp: bool) returns (r: Option<Selected>)
    ensures r.Some? <==> Preparable(docs, ocp)
    ensures r.Some? ==> Selects(r.value, docs, ocp)
  {
    hide SysctlOk, Select;
    var s := Selected(None, [], [], []);
    NothingSelected(ocp);
    for i := 0 to |docs|
      invariant Selects(s, docs[..i], ocp)
      invariant forall j :: 0 <= j < i && docs[j].role == Deployment ==> SysctlOk(docs[j], ocp)
    {
      var d := docs[i];
      assert docs[..i + 1] == docs[..i] + [d] && d in docs;
      SelectedNext(s, docs[..i], d, ocp);
      if d.role != Deployment { continue; }
      var checked := CheckSysctl(d, ocp);
      if !checked { return None; }
      var m := d.resource.manifest;
      match m.gvk.kind {
        case "NicClusterPolicy" =>
          if s.policy.Some? {
            SelectMonotone(docs, i + 1, ocp, ClusterPolicy);
            return None;
          }
          s := s.(policy := Some(m));
        case "NicNodePolicy" => s := s.(nodePolicies := s.nodePolicies + [m]);
        case _ =>
          if ocp && IsOperatorConfig(m) {
            s := s.(operatorConfigs := s.operatorConfigs + [m]);
          } else {
            s := s.(others := s.others + [m]);
          }
      }
    }
    assert docs[..|docs|] == docs;
    r := Some(s);
  }

  lemma NothingSelected(ocp: bool)
    ensures Selects(Selected(None, [], [], []), [], ocp)
  {}

  lemma SelectedNext(s: Selected, docs: seq<Document>, d: Document, ocp: bool)
    requires Selects(s, docs, ocp)
    ensures forall wanted :: Select(docs + [d], ocp, wanted) ==
              Select(docs, ocp, wanted) + if ClassOf(d, ocp) == wanted then [d.resource.manifest] else []
    ensures ClassOf(d, ocp).Skipped? ==> Selects(s, docs + [d], ocp)
  {
    forall wanted ensures Select(docs + [d], ocp, wanted) ==
                          Select(docs, ocp, wanted) + if ClassOf(d, ocp) == wanted then [d.resource.manifest] else [] {
      SelectAppend(docs, d, ocp, wanted);
    }
  }

  method CheckSysctl(d: Document, ocp: bool) returns (ok: bool)
    ensures ok <==> SysctlOk(d, ocp)
  {
    var m := d.resource.manifest;
    if d.file == SYSCTL_FILE && !PatchesSysctl(m) { return false; }
    if PatchesSysctl(m) {
      if !HasEntries(d.resource) { return false; }
      if !ocp { return false; }
    }
    ok := true;
  }

  // ---------- The classes partition the documents ----------

  /** The manifests of all deployment documents. */
  function Deployments(docs: seq<Document>): seq<Manifest> {
    if docs == [] then [] else
      var n := |docs| - 1;
      Deployments(docs[..n]) + if docs[n].role == Deployment then [docs[n].resource.manifest] else []
  }

  lemma {:induction false} ClassesPartition(docs: seq<Document>, ocp: bool)
    ensures multiset(Select(docs, ocp, ClusterPolicy)) + multiset(Select(docs, ocp, NodePolicy))
          + multiset(Select(docs, ocp, Plain)) + multiset(Select(docs, ocp, OperatorConfig)) == multiset(Deployments(docs))
  {
    if docs != [] { ClassesPartition(docs[..|docs| - 1], ocp); }
  }

  /** Every deployment document is selected exactly once. */
  lemma SelectedOnce(s: Selected, docs: seq<Document>, ocp: bool)
    requires Selects(s, docs, ocp)
    ensures multiset(PolicyList(s)) + multiset(s.nodePolicies) + multiset(s.others) + multiset(s.operatorConfigs)
         == multiset(Deployments(docs))
  {
    ClassesPartition(docs, ocp);
  }

  /** What the deploy is asked to do. */
  function PlanOf(s: Selected, opts: Options): Plan { Plan(s.policy, PolicyList(s) + s.nodePolicies, s.others, opts) }

  lemma {:induction false} SelectedFrom(docs: seq<Document>, ocp: bool, wanted: Class, i: nat) returns (at: nat)
    requires i < |Select(docs, ocp, wanted)|
    ensures at < |docs| && docs[at].resource.manifest == Select(docs, ocp, wanted)[i] && ClassOf(docs[at], ocp) == wanted
    ensures |Select(docs[..at], ocp, wanted)| == i
  {
    var n := |docs| - 1;
    if i < |Select(docs[..n], ocp, wanted)| {
      at := SelectedFrom(docs[..n], ocp, wanted, i);
      assert docs[..n][..at] == docs[..at];
    } else {
      at := n;
    }
  }

  lemma ClassDistinct(docs: seq<Document>, ocp: bool, a: Class, i: nat, b: Class, j: nat)
    requires DistinctRefs(docs) && i < |Select(docs, ocp, a)| && j < |Select(docs, ocp, b)| && (a != b || i != j)
    ensures Select(docs, ocp, a)[i] != Select(docs, ocp, b)[j]
  {
    var x := SelectedFrom(docs, ocp, a, i);
    var y := SelectedFrom(docs, ocp, b, j);
    hide Select, ClassOf;
    assert x != y;
  }

  /** The plan prepared from a loaded bundle is one the deploy takes: no object occurs
      twice, policies have no target scope and the rest is no NicClusterPolicy. */
  lemma PreparedPlanFits(s: Selected, docs: seq<Document>, ocp: bool, opts: Options)
    requires DistinctRefs(docs) && Selects(s, docs, ocp)
    ensures PlanOf(s, opts).Distinct()
    ensures forall m :: m in PlanOf(s, opts).boot ==> !HasTargetScope(m)
    ensures forall m :: m in PlanOf(s, opts).others ==> !IsNicClusterPolicy(m)
  {
    hide Select, DistinctRefs;
    var p := PlanOf(s, opts);
    var k := |PolicyList(s)|;
    forall i, j | 0 <= i < j < |p.boot| ensures p.boot[i] != p.boot[j] {
      if i < k <= j { ClassDistinct(docs, ocp, ClusterPolicy, i, NodePolicy, j - k); }
      if k <= i { ClassDistinct(docs, ocp, NodePolicy, i - k, NodePolicy, j - k); }
    }
    forall i, j | 0 <= i < j < |p.others| ensures p.others[i] != p.others[j] { ClassDistinct(docs, ocp, Plain, i, Plain, j); }
    forall i, j | 0 <= i < |p.boot| && 0 <= j < |p.others| ensures p.boot[i] != p.others[j] {
      if i < k { ClassDistinct(docs, ocp, ClusterPolicy, i, Plain, j); } else { ClassDistinct(docs, ocp, NodePolicy, i - k, Plain, j); }
    }
    forall i | 0 <= i < |p.boot| ensures !HasTargetScope(p.boot[i]) {
      if i < k { var at := SelectedFrom(docs, ocp, ClusterPolicy, i); } else { var at := SelectedFrom(docs, ocp, NodePolicy, i - k); }
    }
    forall i | 0 <= i < |p.others| ensures !IsNicClusterPolicy(p.others[i]) { var at := SelectedFrom(docs, ocp, Plain, i); }
  }
}
