/** Additive merges into live OpenShift operator objects, and the validation that uses
    them as a fixpoint test. */
module OcpConfig {
  import opened Wrappers
  import opened Text
  import opened Kubernetes
  import opened OcpSysctl

  datatype Value = Null | Str(text: string) | List(items: seq<Value>) | Fields(fields: map<string, Value>) | Other(code: int)

  type Tree = map<string, Value>

  /** The YAML text of an NFD configuration: None where it is no mapping. An empty document
      reads as the empty mapping. */
  datatype Codec = Codec(decode: string -> Option<Tree>, encode: Tree -> string)

  ghost predicate Stable(c: Codec) { forall t :: c.encode(t) != "" && c.decode(c.encode(t)) == Some(t) }

  datatype Object = Object(apiVersion: string, kind: string, namespace: string, name: string, content: Tree)

  function Get(t: Tree, key: string): Value { if key in t then t[key] else Null }

  /** NestedMap with its error ignored, and nil as the empty map. */
  function MapAt(t: Tree, key: string): Tree { if Get(t, key).Fields? then Get(t, key).fields else map[] }

  function StringAt(t: Tree, key: string): string { if Get(t, key).Str? then Get(t, key).text else "" }

  // ---------- mergeOCPStringList ----------

  /** The strings of a list; a missing list has none. */
  function Strings(v: Value): (r: Option<seq<string>>)
    ensures v.List? && r.Some? ==> |r.value| == |v.items| && forall i :: 0 <= i < |v.items| ==> v.items[i] == Str(r.value[i])
  {
    match v
    case Null => Some([])
    case List(items) =>
      if forall i :: 0 <= i < |items| ==> items[i].Str?
      then Some(seq(|items|, i requires 0 <= i < |items| => items[i].text)) else None
    case _ => None
  }

  function ListOf(names: seq<string>): Value { List(seq(|names|, i requires 0 <= i < |names| => Str(names[i]))) }

  function MergedList(existing: Value, desired: Value): Option<Value> {
    if Strings(existing).Some? && Strings(desired).Some?
    then Some(ListOf(Firsts(Strings(existing).value + Strings(desired).value))) else None
  }

  /** One of the two lists going through the loop. */
  method TakeList(value: Value, merged: seq<string>, seen: set<string>, ghost before: seq<string>)
    returns (ok: bool, merged': seq<string>, seen': set<string>)
    requires merged == Firsts(before) && forall x :: x in seen <==> x in merged
    ensures ok <==> Strings(value).Some?
    ensures ok ==> merged' == Firsts(before + Strings(value).value) && forall x :: x in seen' <==> x in merged'
  {
    hide Firsts, Distinct;
    merged', seen' := merged, seen;
    if value.Null? {
      assert before + [] == before;
      return true, merged, seen;
    }
    if !value.List? { return false, merged, seen; }
    var items := value.items;
    ghost var names: seq<string> := [];
    assert before + names == before;
    for i := 0 to |items|
      invariant |names| == i && forall j :: 0 <= j < i ==> items[j] == Str(names[j])
      invariant merged' == Firsts(before + names) && forall x :: x in seen' <==> x in merged'
    {
      if !items[i].Str? { return false, merged', seen'; }
      var name := items[i].text;
      FirstsAppend(before + names, name);
      assert before + (names + [name]) == before + names + [name];
      names := names + [name];
      if name !in seen' {
        merged' := merged' + [name];
        seen' := seen' + {name};
      }
    }
    assert names == Strings(value).value;
    ok := true;
  }

  method MergeStringList(existing: Value, desired: Value) returns (merged: Option<Value>)
    ensures merged == MergedList(existing, desired)
  {
    hide Strings;
    var ok, names, seen := TakeList(existing, [], {}, []);
    if !ok { return None; }
    assert [] + Strings(existing).value == Strings(existing).value;
    ok, names, seen := TakeList(desired, names, seen, Strings(existing).value);
    merged := if ok then Some(ListOf(names)) else None;
  }

  lemma StringsOfList(names: seq<string>)
    ensures Strings(ListOf(names)) == Some(names)
  {
    assert Strings(ListOf(names)).value == names;
  }

  /** Merging again changes nothing. */
  lemma MergedListTwice(existing: Value, desired: Value)
    requires MergedList(existing, desired).Some?
    ensures MergedList(MergedList(existing, desired).value, desired) == MergedList(existing, desired)
  {
    var names := Firsts(Strings(existing).value + Strings(desired).value);
    StringsOfList(names);
    NothingNew(names, Strings(desired).value);
  }

  lemma {:induction false} FirstsPrefix(a: seq<string>, b: seq<string>)
    ensures Firsts(a) <= Firsts(a + b)
  {
    if b == [] {
      assert a + b == a;
    } else {
      var n := |b| - 1;
      assert (a + b)[..|a + b| - 1] == a + b[..n];
      FirstsPrefix(a, b[..n]);
    }
  }

  /** The merged list starts with the existing items in order and has exactly the items of
      both lists, each once. */
  lemma MergedListMeans(existing: Value, desired: Value)
    requires MergedList(existing, desired).Some?
    ensures Strings(MergedList(existing, desired).value).Some?
    ensures var have, want, merged := Strings(existing).value, Strings(desired).value,
                                      Strings(MergedList(existing, desired).value).value;
            && Firsts(have) <= merged && Distinct(merged)
            && forall x :: x in merged <==> x in have || x in want
  {
    var have, want := Strings(existing).value, Strings(desired).value;
    StringsOfList(Firsts(have + want));
    FirstsPrefix(have, want);
  }

  // ---------- One level of fields ----------

  /** The wanted fields over the existing ones; the list field is united instead. */
  function MergedFields(have: Tree, want: Tree, listKey: Option<string>): Option<Tree> {
    if listKey.Some? && listKey.value in want && MergedList(Get(have, listKey.value), want[listKey.value]).None? then None
    else Some(map k | k in have.Keys + want.Keys ::
                if k !in want then have[k]
                else if listKey == Some(k) then MergedList(Get(have, k), want[k]).value else want[k])
  }

  lemma ListFails(have: Tree, want: Tree, k: string)
    requires k in want && MergedList(Get(have, k), want[k]).None?
    ensures MergedFields(have, want, Some(k)).None?
  {}

  lemma Assembled(have: Tree, want: Tree, listKey: Option<string>, out: Tree)
    requires out.Keys == have.Keys + want.Keys && forall k :: k in out && k !in want ==> out[k] == have[k]
    requires forall k :: k in want ==>
               if listKey == Some(k) then MergedList(Get(have, k), want[k]) == Some(out[k]) else out[k] == want[k]
    ensures MergedFields(have, want, listKey) == Some(out)
  {
    hide MergedList;
    assert MergedFields(have, want, listKey).value == out;
  }

  /** The loop over the wanted fields, which a map yields in any order. */
  method MergeFields(have: Tree, want: Tree, listKey: Option<string>) returns (merged: Option<Tree>)
    ensures merged == MergedFields(have, want, listKey)
  {
    hide MergedList, MergedFields;
    var out := have;
    var todo := want.Keys;
    while todo != {}
      invariant todo <= want.Keys && out.Keys == have.Keys + (want.Keys - todo)
      invariant forall k :: k in out && (k !in want || k in todo) ==> out[k] == have[k]
      invariant forall k :: k in want && k !in todo ==>
                  if listKey == Some(k) then MergedList(Get(have, k), want[k]) == Some(out[k]) else out[k] == want[k]
    {
      var k :| k in todo;
      if listKey == Some(k) {
        var list := MergeStringList(Get(out, k), want[k]);
        if list.None? {
          ListFails(have, want, k);
          return None;
        }
        out := out[k := list.value];
      } else {
        out := out[k := want[k]];
      }
      todo := todo - {k};
    }
    Assembled(have, want, listKey, out);
    merged := Some(out);
  }

  lemma MergedFieldsTwice(have: Tree, want: Tree, listKey: Option<string>)
    requires MergedFields(have, want, listKey).Some?
    ensures MergedFields(MergedFields(have, want, listKey).value, want, listKey) == MergedFields(have, want, listKey)
  {
    hide MergedList;
    var merged := MergedFields(have, want, listKey).value;
    if listKey.Some? && listKey.value in want {
      MergedListTwice(Get(have, listKey.value), want[listKey.value]);
      assert merged[listKey.value] == MergedList(Get(have, listKey.value), want[listKey.value]).value;
    }
    assert MergedFields(merged, want, listKey).Some?;
    assert MergedFields(merged, want, listKey).value == merged;
  }

  /** Each wanted field is there with its value; the list field is a list without
      repetition that has the wanted items. */
  ghost predicate FieldsHold(have: Tree, want: Tree, listKey: Option<string>) {
    forall k :: k in want ==> k in have && if listKey == Some(k) then ListHolds(have[k], want[k]) else have[k] == want[k]
  }

  /** Exactly then a merge changes nothing. */
  lemma FieldsFixpoint(have: Tree, want: Tree, listKey: Option<string>)
    ensures MergedFields(have, want, listKey) == Some(have) <==> FieldsHold(have, want, listKey)
  {
    hide MergedList, ListHolds;
    if listKey.Some? && listKey.value in want { ListFixpoint(Get(have, listKey.value), want[listKey.value]); }
    if FieldsHold(have, want, listKey) {
      assert MergedFields(have, want, listKey).Some?;
      assert MergedFields(have, want, listKey).value == have;
    }
    if MergedFields(have, want, listKey) == Some(have) {
      forall k | k in want ensures k in have && if listKey == Some(k) then ListHolds(have[k], want[k]) else have[k] == want[k] {
        assert k in MergedFields(have, want, listKey).value;
      }
    }
  }

  ghost predicate ListHolds(live: Value, desired: Value) {
    && live.List? && Strings(live).Some? && Strings(desired).Some? && Distinct(Strings(live).value)
    && forall x :: x in Strings(desired).value ==> x in Strings(live).value
  }

  lemma ListFixpoint(live: Value, desired: Value)
    ensures MergedList(live, desired) == Some(live) <==> ListHolds(live, desired)
  {
    if ListHolds(live, desired) {
      NothingNew(Strings(live).value, Strings(desired).value);
      assert ListOf(Strings(live).value) == live;
    }
    if MergedList(live, desired) == Some(live) { MergedListMeans(live, desired); }
  }

  // ---------- NFD configuration data ----------

  const WHITELIST: Option<string> := Some("deviceClassWhitelist")

  function Pci(t: Tree): Tree { MapAt(MapAt(t, "sources"), "pci") }

  /** The tree with its sources.pci replaced. */
  function WithPci(t: Tree, pci: Tree): Tree { t["sources" := Fields(MapAt(t, "sources")["pci" := Fields(pci)])] }

  function DecodeExisting(c: Codec, existing: string): Option<Tree> { if existing == "" then Some(map[]) else c.decode(existing) }

  function MergedNFD(c: Codec, existing: string, desired: string): Option<string> {
    var have, want := DecodeExisting(c, existing), c.decode(desired);
    if have.None? || want.None? then None else
      var pci := MergedFields(Pci(have.value), Pci(want.value), WHITELIST);
      if pci.None? then None else Some(c.encode(WithPci(have.value, pci.value)))
  }

  method MergeNFDConfigData(c: Codec, existing: string, desired: string) returns (merged: Option<string>)
    ensures merged == MergedNFD(c, existing, desired)
  {
    hide MergedFields;
    var have: Tree := map[];
    if existing != "" {
      var decoded := c.decode(existing);
      if decoded.None? { return None; }
      have := decoded.value;
    }
    var want := c.decode(desired);
    if want.None? { return None; }
    var wantedPCI := Pci(want.value);
    var existingSources := MapAt(have, "sources");
    var existingPCI := MapAt(existingSources, "pci");
    var pci := MergeFields(existingPCI, wantedPCI, WHITELIST);
    if pci.None? { return None; }
    existingSources := existingSources["pci" := Fields(pci.value)];
    have := have["sources" := Fields(existingSources)];
    merged := Some(c.encode(have));
  }

  lemma MergedNFDTwice(c: Codec, existing: string, desired: string)
    requires Stable(c) && MergedNFD(c, existing, desired).Some?
    ensures MergedNFD(c, MergedNFD(c, existing, desired).value, desired) == MergedNFD(c, existing, desired)
  {
    hide MergedFields;
    var have, want := DecodeExisting(c, existing).value, c.decode(desired).value;
    var pci := MergedFields(Pci(have), Pci(want), WHITELIST).value;
    var tree := WithPci(have, pci);
    MergedFieldsTwice(Pci(have), Pci(want), WHITELIST);
    assert c.encode(tree) != "" && c.decode(c.encode(tree)) == Some(tree);
    assert Pci(tree) == pci;
    var sources := MapAt(tree, "sources");
    assert sources["pci" := Fields(pci)] == sources;
    assert tree["sources" := Fields(sources)] == tree;
  }

  /** Everything outside sources.pci, and every pci field nobody wants, stays. */
  lemma MergedNFDKeeps(c: Codec, existing: string, desired: string, key: string)
    requires Stable(c) && MergedNFD(c, existing, desired).Some?
    ensures var have, want := DecodeExisting(c, existing).value, c.decode(desired).value;
            var after := c.decode(MergedNFD(c, existing, desired).value);
            && after.Some?
            && (key != "sources" ==> Get(after.value, key) == Get(have, key))
            && (key != "pci" ==> Get(MapAt(after.value, "sources"), key) == Get(MapAt(have, "sources"), key))
            && (key !in Pci(want) ==> Get(Pci(after.value), key) == Get(Pci(have), key))
            && (key in Pci(want) && key != "deviceClassWhitelist" ==> Get(Pci(after.value), key) == Pci(want)[key])
  {
    hide MergedList;
    var have, want := DecodeExisting(c, existing).value, c.decode(desired).value;
    var pci := MergedFields(Pci(have), Pci(want), WHITELIST).value;
    assert c.decode(c.encode(WithPci(have, pci))) == Some(WithPci(have, pci));
  }

  /** The text is the encoder's own form of a document that holds the wanted fields. */
  ghost predicate NFDHolds(c: Codec, text: string, want: Tree) {
    var live := c.decode(text);
    && live.Some? && text == c.encode(live.value)
    && Get(live.value, "sources").Fields? && Get(MapAt(live.value, "sources"), "pci").Fields?
    && FieldsHold(Pci(live.value), Pci(want), Some("deviceClassWhitelist"))
  }

  /** Exactly then the NFD merge changes nothing: holding the wanted fields is not enough,
      as texts are compared. */
  lemma NFDFixpoint(c: Codec, text: string, desired: string)
    requires Stable(c)
    ensures MergedNFD(c, text, desired) == Some(text) <==> c.decode(desired).Some? && NFDHolds(c, text, c.decode(desired).value)
  {
    hide MergedFields, FieldsHold;
    if c.decode(desired).Some? && DecodeExisting(c, text).Some? {
      var have, want := DecodeExisting(c, text).value, c.decode(desired).value;
      FieldsFixpoint(Pci(have), Pci(want), WHITELIST);
      var merged := MergedFields(Pci(have), Pci(want), WHITELIST);
      if merged.Some? {
        var tree := WithPci(have, merged.value);
        assert c.encode(tree) != "" && c.decode(c.encode(tree)) == Some(tree);
        assert Get(tree, "sources").Fields? && Get(MapAt(tree, "sources"), "pci") == Fields(merged.value);
      }
      if NFDHolds(c, text, want) {
        assert c.encode(have) == text && text != "";
        var sources := MapAt(have, "sources");
        assert sources["pci" := Fields(Pci(have))] == sources;
        assert have["sources" := Fields(sources)] == have;
      }
    }
  }

  // ---------- mergeOCPConfiguration ----------

  predicate PatchesSysctl(o: Object) { IsSysctlPatch(o.apiVersion, o.kind, o.namespace, o.name) }

  const ALLOWLIST := "allowlist.conf"

  /** NestedString at data / allowlist.conf: None for a field of another shape. */
  function Allowlist(t: Tree): Option<string> {
    match Get(t, "data")
    case Null => Some("")
    case Fields(data) => if ALLOWLIST !in data then Some("") else if data[ALLOWLIST].Str? then Some(data[ALLOWLIST].text) else None
    case _ => None
  }

  /** SetNestedField refuses a null in the way. */
  function WithAllowlist(t: Tree, text: string): Option<Tree> {
    if "data" in t && !t["data"].Fields? then None
    else Some(t["data" := Fields(MapAt(t, "data")[ALLOWLIST := Str(text)])])
  }

  function MergedSysctl(current: Tree, desired: Tree): Option<Tree> {
    var required, existing := Allowlist(desired), Allowlist(current);
    if required.None? || TrimSpace(required.value) == "" || existing.None? then None else
      var text := MergedText(existing.value, required.value);
      if text == existing.value then Some(current) else WithAllowlist(current, text)
  }

  function ListKey(kind: string): Option<string> { if kind == "SriovOperatorConfig" then Some("disablePlugins") else None }

  function MergedSpec(c: Codec, kind: string, have: Tree, want: Tree): Option<Tree> {
    if kind == "NodeFeatureDiscovery" then
      var data := MergedNFD(c, StringAt(MapAt(have, "workerConfig"), "configData"), StringAt(MapAt(want, "workerConfig"), "configData"));
      if data.None? then None
      else Some(have["workerConfig" := Fields(MapAt(have, "workerConfig")["configData" := Str(data.value)])])
    else MergedFields(have, want, ListKey(kind))
  }

  /** The live object after the merge; None when the merge fails. */
  function Merged(c: Codec, current: Tree, desired: Object): Option<Tree> {
    if PatchesSysctl(desired) then MergedSysctl(current, desired.content) else
      var spec := MergedSpec(c, desired.kind, MapAt(current, "spec"), MapAt(desired.content, "spec"));
      if spec.None? then None else Some(current["spec" := Fields(spec.value)])
  }

  /** An object read from the cluster, changed in memory. */
  class Live {
    var content: Tree

    constructor (t: Tree)
      ensures content == t
    {
      content := t;
    }
  }

  /** The object changes as `Merged` says, and not at all when the merge fails. */
  method MergeOCPConfiguration(c: Codec, current: Live, desired: Object) returns (ok: bool)
    modifies current
    ensures ok <==> Merged(c, old(current.content), desired).Some?
    ensures current.content == if ok then Merged(c, old(current.content), desired).value else old(current.content)
  {
    hide MergedFields, MergedNFD, MergedText, TrimSpace;
    if PatchesSysctl(desired) {
      ok := MergeSysctl(current, desired.content);
      return;
    }
    var want, have := MapAt(desired.content, "spec"), MapAt(current.content, "spec");
    if desired.kind == "NodeFeatureDiscovery" {
      var worker := MapAt(have, "workerConfig");
      var desiredData := StringAt(MapAt(want, "workerConfig"), "configData");
      var merged := MergeNFDConfigData(c, StringAt(worker, "configData"), desiredData);
      if merged.None? { return false; }
      worker := worker["configData" := Str(merged.value)];
      have := have["workerConfig" := Fields(worker)];
    } else {
      var merged := MergeFields(have, want, ListKey(desired.kind));
      if merged.None? { return false; }
      have := merged.value;
    }
    current.content := current.content["spec" := Fields(have)];
    ok := true;
  }

  method MergeSysctl(current: Live, desired: Tree) returns (ok: bool)
    modifies current
    ensures ok <==> MergedSysctl(old(current.content), desired).Some?
    ensures current.content == if ok then MergedSysctl(old(current.content), desired).value else old(current.content)
  {
    hide MergedText, TrimSpace;
    var required := Allowlist(desired);
    if required.None? || TrimSpace(required.value) == "" { return false; }
    var existing := Allowlist(current.content);
    if existing.None? { return false; }
    var merged := MergeText(existing.value, required.value);
    if merged == existing.value { return true; }
    var changed := WithAllowlist(current.content, merged);
    if changed.None? { return false; }
    current.content := changed.value;
    ok := true;
  }

  // ---------- Deploying and validating agree ----------

  lemma MergedSpecTwice(c: Codec, kind: string, have: Tree, want: Tree)
    requires Stable(c) && MergedSpec(c, kind, have, want).Some?
    ensures MergedSpec(c, kind, MergedSpec(c, kind, have, want).value, want) == MergedSpec(c, kind, have, want)
  {
    hide MergedFields, MergedNFD;
    if kind == "NodeFeatureDiscovery" {
      MergedNFDTwice(c, StringAt(MapAt(have, "workerConfig"), "configData"), StringAt(MapAt(want, "workerConfig"), "configData"));
      var merged := MergedSpec(c, kind, have, want).value;
      var worker := MapAt(merged, "workerConfig");
      assert worker["configData" := worker["configData"]] == worker;
      assert merged["workerConfig" := Fields(worker)] == merged;
    } else {
      MergedFieldsTwice(have, want, ListKey(kind));
    }
  }

  lemma MergedSysctlTwice(current: Tree, desired: Tree)
    requires MergedSysctl(current, desired).Some?
    ensures MergedSysctl(MergedSysctl(current, desired).value, desired) == MergedSysctl(current, desired)
  {
    hide MergedText, TrimSpace;
    var required, existing := Allowlist(desired).value, Allowlist(current).value;
    MergedTextMeans(existing, required);
    var text := MergedText(existing, required);
    if text != existing { assert Allowlist(MergedSysctl(current, desired).value) == Some(text); }
  }

  /** A merged object is a fixpoint of the merge: what the deploy wrote passes the
      validation's merge-equals-live test. */
  lemma MergedTwice(c: Codec, current: Tree, desired: Object)
    requires Stable(c) && Merged(c, current, desired).Some?
    ensures Merged(c, Merged(c, current, desired).value, desired) == Merged(c, current, desired)
  {
    hide MergedSpec, MergedSysctl;
    if PatchesSysctl(desired) {
      MergedSysctlTwice(current, desired.content);
    } else {
      var spec := MergedSpec(c, desired.kind, MapAt(current, "spec"), MapAt(desired.content, "spec")).value;
      MergedSpecTwice(c, desired.kind, MapAt(current, "spec"), MapAt(desired.content, "spec"));
      var merged := Merged(c, current, desired).value;
      assert merged["spec" := Fields(spec)] == merged;
    }
  }

  /** Fields outside the merged part survive: all but data (or spec) of the object, all
      but the allowlist of its data, and each spec field nobody wants. */
  lemma UnrelatedSurvives(c: Codec, current: Tree, desired: Object, key: string)
    requires Merged(c, current, desired).Some?
    ensures var after := Merged(c, current, desired).value;
            && (key != (if PatchesSysctl(desired) then "data" else "spec") ==> Get(after, key) == Get(current, key))
            && (PatchesSysctl(desired) && key != "allowlist.conf" ==> Get(MapAt(after, "data"), key) == Get(MapAt(current, "data"), key))
            && (!PatchesSysctl(desired) && key !in MapAt(desired.content, "spec") && desired.kind != "NodeFeatureDiscovery" ==>
                  Get(MapAt(after, "spec"), key) == Get(MapAt(current, "spec"), key))
            && (!PatchesSysctl(desired) && key != "workerConfig" && desired.kind == "NodeFeatureDiscovery" ==>
                  Get(MapAt(after, "spec"), key) == Get(MapAt(current, "spec"), key))
  {
    hide MergedText, TrimSpace, MergedNFD, MergedList;
  }

  datatype State = NotDeployed | Error | Success

  /** The operator-config branch of ValidateBundleWithConfig; `live` is None when the GET
      failed. Success means exactly that the merge is defined and changes nothing. */
  method ValidateOperatorConfig(c: Codec, live: Option<Tree>, desired: Object) returns (state: State)
    ensures state.NotDeployed? <==> live.None?
    ensures state.Success? <==> live.Some? && Merged(c, live.value, desired) == Some(live.value)
  {
    hide Merged;
    if live.None? { return NotDeployed; }
    var merged := new Live(live.value);
    var ok := MergeOCPConfiguration(c, merged, desired);
    if !ok { return Error; }
    if merged.content != live.value { return Error; }
    state := Success;
  }

  /** The update branch of the deploy: what is sent to the server, if anything. */
  method ConfigureExisting(c: Codec, read: Tree, desired: Object) returns (ok: bool, sent: Option<Tree>)
    ensures ok <==> Merged(c, read, desired).Some?
    ensures sent.Some? ==> ok && Merged(c, read, desired) == sent && sent.value != read
    ensures ok && sent.None? ==> Merged(c, read, desired) == Some(read)
  {
    hide Merged;
    var current := new Live(read);
    ok := MergeOCPConfiguration(c, current, desired);
    sent := if ok && current.content != read then Some(current.content) else None;
  }

  /** For the SR-IOV and maintenance configurations: validation succeeds exactly when the
      live spec has every wanted field; of the SR-IOV plugins it may have more. */
  lemma SuccessMeans(c: Codec, live: Tree, desired: Object)
    requires !PatchesSysctl(desired) && desired.kind != "NodeFeatureDiscovery"
    ensures Merged(c, live, desired) == Some(live) <==>
            && Get(live, "spec").Fields?
            && FieldsHold(MapAt(live, "spec"), MapAt(desired.content, "spec"),
                          if desired.kind == "SriovOperatorConfig" then Some("disablePlugins") else None)
  {
    hide MergedFields, FieldsHold;
    FieldsFixpoint(MapAt(live, "spec"), MapAt(desired.content, "spec"), ListKey(desired.kind));
    if Merged(c, live, desired) == Some(live) { assert live["spec"].Fields?; }
    if Get(live, "spec").Fields? && FieldsHold(MapAt(live, "spec"), MapAt(desired.content, "spec"), ListKey(desired.kind)) {
      assert live["spec" := Fields(MapAt(live, "spec"))] == live;
    }
  }

  function Worker(t: Tree): Tree { MapAt(MapAt(t, "spec"), "workerConfig") }

  /** For node feature discovery: validation succeeds exactly when the live configuration
      text is canonical and holds the wanted fields of sources.pci. */
  lemma NFDSuccessMeans(c: Codec, live: Tree, desired: Object)
    requires Stable(c) && !PatchesSysctl(desired) && desired.kind == "NodeFeatureDiscovery"
    ensures var want := c.decode(StringAt(Worker(desired.content), "configData"));
            Merged(c, live, desired) == Some(live) <==>
            && Get(live, "spec").Fields? && Get(MapAt(live, "spec"), "workerConfig").Fields? && Get(Worker(live), "configData").Str?
            && want.Some? && NFDHolds(c, StringAt(Worker(live), "configData"), want.value)
  {
    hide MergedNFD, NFDHolds;
    var text, required := StringAt(Worker(live), "configData"), StringAt(Worker(desired.content), "configData");
    NFDFixpoint(c, text, required);
    var spec := MapAt(live, "spec");
    if MergedNFD(c, text, required) == Some(text) && Get(live, "spec").Fields? && Get(spec, "workerConfig").Fields?
       && Get(Worker(live), "configData").Str?
    {
      assert Worker(live)["configData" := Str(text)] == Worker(live);
      assert spec["workerConfig" := Fields(Worker(live))] == spec;
      assert live["spec" := Fields(spec)] == live;
    }
    if Merged(c, live, desired) == Some(live) {
      assert live["spec"].Fields? && spec["workerConfig"].Fields? && Worker(live)["configData"].Str?;
      assert MergedNFD(c, text, required) == Some(Worker(live)["configData"].text);
    }
  }

  /** For the sysctl allowlist: validation succeeds exactly when the required text is not
      blank and each of its entries is a line of the live allowlist. */
  lemma SysctlSuccessMeans(c: Codec, live: Tree, desired: Object)
    requires PatchesSysctl(desired)
    ensures var required, existing := Allowlist(desired.content), Allowlist(live);
            Merged(c, live, desired) == Some(live) <==>
            && required.Some? && TrimSpace(required.value) != "" && existing.Some?
            && forall x :: x in Lines(required.value) && x != "" ==> x in Lines(existing.value)
  {
    hide MergedText, TrimSpace, Lines;
    var required, existing := Allowlist(desired.content), Allowlist(live);
    if required.Some? && existing.Some? {
      MergedTextMeans(existing.value, required.value);
      var text := MergedText(existing.value, required.value);
      var changed := WithAllowlist(live, text);
      if changed.Some? { assert Allowlist(changed.value) == Some(text); }
    }
  }

  // ---------- What happens to the lists ----------

  /** `after` is a list of strings with those of `have` first, in their order, then the new
      ones of `want`, each once. */
  ghost predicate United(after: Value, have: Value, want: Value) {
    && after.List? && Strings(after).Some? && Strings(have).Some? && Strings(want).Some?
    && Firsts(Strings(have).value) <= Strings(after).value && Distinct(Strings(after).value)
    && (Distinct(Strings(have).value) ==> Strings(have).value <= Strings(after).value)
    && forall x :: x in Strings(after).value <==> x in Strings(have).value || x in Strings(want).value
  }

  lemma FieldsUnited(have: Tree, want: Tree, key: string)
    requires MergedFields(have, want, Some(key)).Some?
    ensures var after := MergedFields(have, want, Some(key)).value;
            && (key in want ==> key in after && United(after[key], Get(have, key), want[key]))
            && forall k :: k in want && k != key ==> k in after && after[k] == want[k]
  {
    hide MergedList;
    if key in want {
      MergedListMeans(Get(have, key), want[key]);
      ListsAreLists(Get(have, key), want[key]);
      var live := Strings(Get(have, key)).value;
      assert live + [] == live;
      if Distinct(live) { NothingNew(live, []); }
    }
  }

  lemma ListsAreLists(have: Value, want: Value)
    requires MergedList(have, want).Some?
    ensures MergedList(have, want).value.List? && Strings(have).Some? && Strings(want).Some?
  {}

  /** The live plugins an SR-IOV operator disables survive, the generated ones join them;
      every other generated field of the spec replaces the live one. The merge fails exactly
      when the plugins on one side are no list of strings. */
  lemma PluginsAreUnited(c: Codec, current: Tree, desired: Object)
    requires desired.kind == "SriovOperatorConfig"
    ensures var have, want := MapAt(current, "spec"), MapAt(desired.content, "spec");
            var merged := Merged(c, current, desired);
            && (merged.None? <==>
                  ("disablePlugins" in want && (Strings(Get(have, "disablePlugins")).None? || Strings(want["disablePlugins"]).None?)))
            && (merged.Some? ==>
                  var after := MapAt(merged.value, "spec");
                  && ("disablePlugins" in want ==>
                        United(Get(after, "disablePlugins"), Get(have, "disablePlugins"), want["disablePlugins"]))
                  && forall k :: k in want && k != "disablePlugins" ==> Get(after, k) == want[k])
  {
    hide United;
    var have, want := MapAt(current, "spec"), MapAt(desired.content, "spec");
    if MergedFields(have, want, Some("disablePlugins")).Some? { FieldsUnited(have, want, "disablePlugins"); }
  }

  /** Every generated field of a maintenance configuration replaces the live one. */
  lemma MaintenanceIsReplaced(c: Codec, current: Tree, desired: Object, key: string)
    requires desired.kind == "MaintenanceOperatorConfig" && key in MapAt(desired.content, "spec")
    ensures Merged(c, current, desired).Some?
    ensures Get(MapAt(Merged(c, current, desired).value, "spec"), key) == MapAt(desired.content, "spec")[key]
  {}

  /** The live device classes of node feature discovery survive, the generated ones join
      them; every other generated field of sources.pci replaces the live one. */
  lemma ClassesAreUnited(c: Codec, current: Tree, desired: Object)
    requires Stable(c) && desired.kind == "NodeFeatureDiscovery" && Merged(c, current, desired).Some?
    ensures var wanted := c.decode(StringAt(Worker(desired.content), "configData"));
            var live := DecodeExisting(c, StringAt(Worker(current), "configData"));
            var merged := c.decode(StringAt(Worker(Merged(c, current, desired).value), "configData"));
            && wanted.Some? && live.Some? && merged.Some?
            && var have, want, after := Pci(live.value), Pci(wanted.value), Pci(merged.value);
               && ("deviceClassWhitelist" in want ==>
                     United(Get(after, "deviceClassWhitelist"), Get(have, "deviceClassWhitelist"), want["deviceClassWhitelist"]))
               && forall k :: k in want && k != "deviceClassWhitelist" ==> Get(after, k) == want[k]
  {
    hide United, MergedFields;
    var text, required := StringAt(Worker(current), "configData"), StringAt(Worker(desired.content), "configData");
    var have, want := DecodeExisting(c, text).value, c.decode(required).value;
    FieldsUnited(Pci(have), Pci(want), "deviceClassWhitelist");
    var pci := MergedFields(Pci(have), Pci(want), WHITELIST).value;
    assert c.decode(c.encode(WithPci(have, pci))) == Some(WithPci(have, pci));
    assert Pci(WithPci(have, pci)) == pci;
  }

  /** The shared ConfigMap keeps its live allowlist and gets every required entry behind it. */
  lemma AllowlistIsExtended(c: Codec, current: Tree, desired: Object)
    requires desired.apiVersion == "v1" && desired.kind == "ConfigMap"
    requires desired.namespace == "openshift-multus" && desired.name == "cni-sysctl-allowlist"
    requires Merged(c, current, desired).Some?
    ensures var before := StringAt(MapAt(current, "data"), "allowlist.conf");
            var required := StringAt(MapAt(desired.content, "data"), "allowlist.conf");
            var after := StringAt(MapAt(Merged(c, current, desired).value, "data"), "allowlist.conf");
            && before <= after && TrimSpace(required) != ""
            && forall x :: x != "" ==> (x in Lines(after) <==> x in Lines(before) || x in Lines(required))
  {
    hide MergedText, TrimSpace, Lines;
    var required, existing := Allowlist(desired.content), Allowlist(current);
    MergedTextMeans(existing.value, required.value);
  }
}
