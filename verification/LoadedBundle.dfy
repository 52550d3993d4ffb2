/** What a loaded bundle holds, told on its files, and what becomes of its documents. */
module LoadedBundle {
  import opened Wrappers
  import opened Text
  import opened Kubernetes
  import opened Cluster
  import opened Loading

  // ---------- Which files are read how ----------

  predicate EndsIn(name: string, suffix: string) { |name| >= |suffix| && name[|name| - |suffix|..] == suffix }

  predicate IsYaml(name: string) { EndsIn(name, ".yaml") || EndsIn(name, ".yml") }

  /** "example" occurs in the name, in any letter case. */
  predicate IsExample(name: string) { exists i: nat :: i <= |name| && OccursAt(ToLower(name), "example", i) }

  predicate OccursAt(s: string, part: string, i: nat) { i + |part| <= |s| && s[i..i + |part|] == part }

  predicate IsConfig(name: string) { name in {"cluster-config.yaml", "cluster-config.yml"} }

  predicate IsValues(name: string) { EqualFold(name, "values.yaml") || EqualFold(name, "values.yml") }

  lemma ExtensionMeans(name: string, c: string)
    requires '.' !in c
    ensures Extension(name) == "." + c <==> EndsIn(name, "." + c)
  {
    var ext, k := "." + c, LastIndex(name, '.');
    if EndsIn(name, ext) {
      var at := |name| - |ext|;
      assert name[at] == '.' && forall i :: at < i < |name| ==> name[i] == ext[i - at] == c[i - at - 1];
      assert k == at;
    }
  }

  lemma ExampleMeans(name: string)
    ensures Contains(ToLower(name), "example") <==> IsExample(name)
  {
    var low := ToLower(name);
    forall i | 0 <= i <= |low| ensures "example" <= low[i..] <==> OccursAt(low, "example", i) {
      if OccursAt(low, "example", i) { assert low[i..][..7] == low[i..i + 7]; }
      if "example" <= low[i..] { assert low[i..i + 7] == low[i..][..7]; }
    }
  }

  /** The cluster configuration and files that are no YAML are ignored, values.yaml is the
      chart's under exactly that name; of the rest the examples only validate. */
  lemma ClassifyMeans(name: string)
    ensures Classify(name) == IgnoredFile <==> IsConfig(name) || (!IsValues(name) && !IsYaml(name))
    ensures Classify(name) == ValuesFile <==> name == "values.yaml"
    ensures Classify(name) == Misnamed <==> IsValues(name) && name != "values.yaml"
    ensures Classify(name) == ResourceFile(Deployment) <==> IsYaml(name) && !IsConfig(name) && !IsValues(name) && !IsExample(name)
    ensures Classify(name) == ResourceFile(Validation) <==> IsYaml(name) && !IsConfig(name) && !IsValues(name) && IsExample(name)
  {
    ExtensionMeans(name, "yaml");
    ExtensionMeans(name, "yml");
    assert "." + "yaml" == ".yaml" && "." + "yml" == ".yml";
    ExampleMeans(name);
    hide Extension, EndsIn, Contains, IsExample, ToLower, EqualFold;
    ValuesNames();
  }

  lemma ValuesNames()
    ensures EqualFold("values.yaml", "values.yaml")
    ensures !EqualFold("cluster-config.yaml", "values.yaml") && !EqualFold("cluster-config.yaml", "values.yml")
    ensures !EqualFold("cluster-config.yml", "values.yaml") && !EqualFold("cluster-config.yml", "values.yml")
  {}

  // ---------- What a bundle holds ----------

  /** `d` is one of the file's objects, numbered from 1, in the role the name gives it. */
  ghost predicate IsObject(c: Decoder, f: File, d: Document) {
    && Classify(f.name).ResourceFile? && c.resources(f).Some?
    && d.file == f.name && d.role == Classify(f.name).role && 1 <= d.number <= |c.resources(f).value|
    && d.resource == c.resources(f).value[d.number - 1]
  }

  /** Nothing in the file stops the load. */
  ghost predicate Readable(c: Decoder, f: File) {
    match Classify(f.name)
    case Misnamed => false
    case IgnoredFile => true
    case ValuesFile => c.values(f.content)
    case ResourceFile(_) => c.resources(f).Some?
  }

  lemma {:induction false} TakenMeans(c: Decoder, files: seq<File>)
    requires TakeAll(c, files).Some?
    ensures var b := TakeAll(c, files).value;
            && (forall d :: d in b.documents <==> exists f :: f in files && IsObject(c, f, d))
            && (forall f :: f in b.files <==> f in files && Classify(f.name) != IgnoredFile)
            && (forall f :: f in files ==> Readable(c, f))
            && (b.values.Some? <==> exists f :: f in files && Classify(f.name) == ValuesFile)
            && (b.values.Some? ==> exists f :: f in files && Classify(f.name) == ValuesFile && f.content == b.values.value)
  {
    hide Classify, DistinctRefs;
    if files != [] {
      var n := |files| - 1;
      var front, f := TakeAll(c, files[..n]).value, files[n];
      assert files == files[..n] + [f];
      TakenMeans(c, files[..n]);
      OneTaken(c, front, f);
    }
  }

  /** What one more file adds. */
  lemma OneTaken(c: Decoder, b: Contents, f: File)
    requires Take(c, b, f).Some?
    ensures var after := Take(c, b, f).value;
            && (forall d :: d in after.documents <==> d in b.documents || IsObject(c, f, d))
            && (forall g :: g in after.files <==> g in b.files || (g == f && Classify(f.name) != IgnoredFile))
            && Readable(c, f) && after.values == if Classify(f.name) == ValuesFile then Some(f.content) else b.values
  {
    hide Classify, DistinctRefs;
    var after := Take(c, b, f).value;
    if Classify(f.name).ResourceFile? {
      var rs := c.resources(f).value;
      var more := Numbered(f, Classify(f.name).role, rs);
      forall d ensures d in more <==> IsObject(c, f, d) {
        if IsObject(c, f, d) { assert more[d.number - 1] == d; }
      }
    }
  }

  /** Exactly what a bundle holds: every object of every resource file in the role of the
      file, and the chart values if there are any. */
  lemma LoadedMeans(c: Decoder, files: seq<File>)
    requires Loaded(c, files).Some?
    ensures var b := Loaded(c, files).value;
            && (forall d :: d in b.documents <==> exists f :: f in files && IsObject(c, f, d))
            && (forall f :: f in b.files <==> f in files && Classify(f.name) != IgnoredFile)
            && (b.values.Some? <==> exists f :: f in files && f.name == "values.yaml")
            && forall f :: f in files && f.name == "values.yaml" ==> b.values == Some(f.content) && c.values(f.content)
  {
    hide Classify, TakeAll, IsObject;
    var sorted := SortedBy(files, NameOf);
    SortedByElements(files, NameOf);
    TakenMeans(c, sorted);
    assert Classify("values.yaml") == ValuesFile && forall name :: Classify(name) == ValuesFile ==> name == "values.yaml" by {
      ClassifyMeans("values.yaml");
      forall name | Classify(name) == ValuesFile ensures name == "values.yaml" { ClassifyMeans(name); }
    }
    forall f | f in files && f.name == "values.yaml" ensures Loaded(c, files).value.values == Some(f.content) && c.values(f.content) {
      var g :| g in sorted && Classify(g.name) == ValuesFile && Some(g.content) == Loaded(c, files).value.values;
      OneFileEach(files, f, g);
      assert Readable(c, f);
    }
  }

  lemma OneFileEach(files: seq<File>, f: File, g: File)
    requires GoodNames(files) && f in files && g in files && f.name == g.name
    ensures f == g
  {
    var i :| 0 <= i < |files| && files[i] == f;
    var j :| 0 <= j < |files| && files[j] == g;
    assert KeysOf(files, NameOf)[i] == KeysOf(files, NameOf)[j];
  }

  // ---------- When loading fails ----------

  /** The objects of all files, as far as they can be read. */
  ghost function Objects(c: Decoder, files: seq<File>): seq<Document> {
    if files == [] then [] else
      var n := |files| - 1;
      var f := files[n];
      Objects(c, files[..n]) +
      if Classify(f.name).ResourceFile? && c.resources(f).Some? then Numbered(f, Classify(f.name).role, c.resources(f).value) else []
  }

  lemma DistinctFront(a: seq<Document>, b: seq<Document>)
    requires DistinctRefs(a + b)
    ensures DistinctRefs(a)
  {
    hide RefOf;
    forall i, j | 0 <= i < j < |a| ensures RefOf(a[i]) != RefOf(a[j]) { assert (a + b)[i] == a[i] && (a + b)[j] == a[j]; }
  }

  lemma {:induction false} TakenExactly(c: Decoder, files: seq<File>)
    ensures TakeAll(c, files).Some? <==> (forall f :: f in files ==> Readable(c, f)) && DistinctRefs(Objects(c, files))
    ensures TakeAll(c, files).Some? ==> TakeAll(c, files).value.documents == Objects(c, files)
  {
    hide Classify, DistinctRefs, Numbered;
    if files != [] {
      var n := |files| - 1;
      var f := files[n];
      assert files == files[..n] + [f];
      assert f in files && forall g :: g in files ==> g in files[..n] || g == f;
      TakenExactly(c, files[..n]);
      var front := Objects(c, files[..n]);
      if Classify(f.name).ResourceFile? && c.resources(f).Some? {
        var more := Numbered(f, Classify(f.name).role, c.resources(f).value);
        assert Objects(c, files) == front + more;
        if DistinctRefs(front + more) { DistinctFront(front, more); }
      } else {
        assert Objects(c, files) == front;
      }
    } else {
      NoRefs();
    }
  }

  lemma NoRefs()
    ensures DistinctRefs([])
  {}

  /** No two objects have group, kind, namespace and name in common. */
  ghost predicate ObjectsApart(docs: seq<Document>) {
    forall i, j :: 0 <= i < j < |docs| ==>
      var a, b := docs[i].resource.manifest, docs[j].resource.manifest;
      !(a.gvk.group == b.gvk.group && a.gvk.kind == b.gvk.kind && a.namespace == b.namespace && a.name == b.name)
  }

  ghost predicate PlainNames(files: seq<File>) {
    && (forall f :: f in files ==> f.name !in {"", ".", ".."} && '/' !in f.name && '\\' !in f.name)
    && forall i, j :: 0 <= i < j < |files| ==> files[i].name != files[j].name
  }

  /** A bundle exists exactly when the names are plain and different, every file can be read
      and no object is declared twice; its documents are the objects of the files in name
      order. */
  lemma LoadsExactly(c: Decoder, files: seq<File>)
    ensures Loaded(c, files).Some? <==>
            PlainNames(files) && (forall f :: f in files ==> Readable(c, f)) && ObjectsApart(Objects(c, SortedBy(files, NameOf)))
    ensures Loaded(c, files).Some? ==> Loaded(c, files).value.documents == Objects(c, SortedBy(files, NameOf))
  {
    hide Classify, Objects, TakeAll, DistinctRefs, ObjectsApart, PlainNames, GoodNames, Readable, SortedBy;
    var sorted := SortedBy(files, NameOf);
    SortedByElements(files, NameOf);
    TakenExactly(c, sorted);
    NamesApart(files);
    RefsApart(Objects(c, sorted));
    assert (forall f :: f in files ==> Readable(c, f)) <==> (forall f :: f in sorted ==> Readable(c, f));
  }

  lemma RefsApart(docs: seq<Document>)
    ensures DistinctRefs(docs) <==> ObjectsApart(docs)
  {}

  lemma NamesApart(files: seq<File>)
    ensures GoodNames(files) <==> PlainNames(files)
  {
    assert forall i :: 0 <= i < |files| ==> KeysOf(files, NameOf)[i] == files[i].name;
  }

  // ---------- Which documents are deployed how ----------

  /** The OpenShift operator objects that are merged instead of applied. */
  predicate ForOperator(m: Manifest) {
    || (m.gvk.group == "sriovnetwork.openshift.io" && m.gvk.kind == "SriovOperatorConfig")
    || (m.gvk.group == "maintenance.nvidia.com" && m.gvk.kind == "MaintenanceOperatorConfig")
    || (m.gvk.group == "nfd.openshift.io" && m.gvk.kind == "NodeFeatureDiscovery")
    || ForAllowlist(m)
  }

  predicate ForAllowlist(m: Manifest) {
    m.gvk == GVK("", "v1", "ConfigMap") && m.namespace == "openshift-multus" && m.name == "cni-sysctl-allowlist"
  }

  lemma AllowlistMeans(m: Manifest)
    ensures PatchesSysctl(m) <==> ForAllowlist(m)
  {
    if m.gvk.group != "" {
      var v := m.gvk.group + "/" + m.gvk.version;
      assert v[|m.gvk.group|] == '/';
      assert '/' !in "v1";
      assert v != "v1";
    }
  }

  lemma {:induction false} SelectMeans(docs: seq<Document>, ocp: bool, wanted: Class)
    ensures forall m :: m in Select(docs, ocp, wanted) <==> exists d :: d in docs && ClassOf(d, ocp) == wanted && d.resource.manifest == m
  {
    hide ClassOf;
    if docs != [] {
      var n := |docs| - 1;
      assert docs == docs[..n] + [docs[n]];
      SelectMeans(docs[..n], ocp, wanted);
    }
  }

  /** Where the object of a deployment document goes: by its kind to the cluster policy or
      the node policies, on OpenShift to the operator settings, else to the others. Objects
      of validation documents go nowhere. */
  lemma SelectedByKind(s: Selected, docs: seq<Document>, ocp: bool, m: Manifest)
    requires Selects(s, docs, ocp)
    ensures var deployed := exists d :: d in docs && d.role == Deployment && d.resource.manifest == m;
            && (s.policy == Some(m) <==> deployed && m.gvk.kind == "NicClusterPolicy")
            && (m in s.nodePolicies <==> deployed && m.gvk.kind == "NicNodePolicy")
            && (m in s.operatorConfigs <==>
                  deployed && m.gvk.kind !in {"NicClusterPolicy", "NicNodePolicy"} && ocp && ForOperator(m))
            && (m in s.others <==>
                  deployed && m.gvk.kind !in {"NicClusterPolicy", "NicNodePolicy"} && !(ocp && ForOperator(m)))
  {
    SelectMeans(docs, ocp, ClusterPolicy);
    SelectMeans(docs, ocp, NodePolicy);
    SelectMeans(docs, ocp, OperatorConfig);
    SelectMeans(docs, ocp, Plain);
    AllowlistMeans(m);
    hide Select, PatchesSysctl;
    assert s.policy == Some(m) <==> m in PolicyList(s);
    if d :| d in docs && d.role == Deployment && d.resource.manifest == m {
      assert ClassOf(d, ocp) == if m.gvk.kind == "NicClusterPolicy" then ClusterPolicy
                                else if m.gvk.kind == "NicNodePolicy" then NodePolicy
                                else if ocp && ForOperator(m) then OperatorConfig else Plain;
    }
  }

  /** Preparation is refused exactly for a misplaced, blank or unsupported allowlist patch and
      for a second NicClusterPolicy. */
  lemma PreparableMeans(docs: seq<Document>, ocp: bool)
    ensures Preparable(docs, ocp) <==>
            && (forall d :: d in docs && d.role == Deployment ==>
                  && (d.file == "04-cni-sysctl-allowlist-patch.yaml" ==> ForAllowlist(d.resource.manifest))
                  && (ForAllowlist(d.resource.manifest) ==>
                        ocp && d.resource.allowlist.Some? && TrimSpace(d.resource.allowlist.value) != ""))
            && forall i, j :: 0 <= i < j < |docs| && docs[i].role == docs[j].role == Deployment
                              && docs[i].resource.manifest.gvk.kind == "NicClusterPolicy" ==>
               docs[j].resource.manifest.gvk.kind != "NicClusterPolicy"
  {
    hide TrimSpace, PatchesSysctl, Select;
    forall m ensures PatchesSysctl(m) <==> ForAllowlist(m) { AllowlistMeans(m); }
    AtMostOne(docs, ocp);
  }

  predicate IsPolicy(d: Document) { d.role == Deployment && d.resource.manifest.gvk.kind == "NicClusterPolicy" }

  lemma {:induction false} NoneSelected(docs: seq<Document>, ocp: bool)
    ensures Select(docs, ocp, ClusterPolicy) == [] <==> forall i :: 0 <= i < |docs| ==> !IsPolicy(docs[i])
  {
    if docs != [] { NoneSelected(docs[..|docs| - 1], ocp); }
  }

  lemma {:induction false} AtMostOne(docs: seq<Document>, ocp: bool)
    ensures |Select(docs, ocp, ClusterPolicy)| <= 1 <==> forall i, j :: 0 <= i < j < |docs| && IsPolicy(docs[i]) ==> !IsPolicy(docs[j])
  {
    if docs != [] {
      var n := |docs| - 1;
      AtMostOne(docs[..n], ocp);
      NoneSelected(docs[..n], ocp);
    }
  }
}
