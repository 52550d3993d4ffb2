/** YAML documents as values: shallow merging of mappings, lookup by path and
    patching by path. */
module YamlDoc {
  import opened Wrappers

  /** `Blank` is the zero kind of a node that has just been allocated. */
  datatype Kind = Blank | Document | Sequence | Mapping | Scalar | Alias

  /** One document node; a mapping's kids alternate keys and values. One comment
      stands for the head, line and foot comments, which are treated alike. */
  datatype Doc = Doc(kind: Kind, tag: string, value: string, anchor: string, comment: string, kids: seq<Doc>)

  const MERGE := "!!merge"

  // ---------- Fields of a mapping ----------

  /** The flat list has a `p`-th key and value. */
  predicate HasPair(kids: seq<Doc>, p: nat) { 2 * p + 1 < |kids| }

  function Key(kids: seq<Doc>, p: nat): Doc
    requires HasPair(kids, p)
  {
    kids[2 * p]
  }

  function Val(kids: seq<Doc>, p: nat): Doc
    requires HasPair(kids, p)
  {
    kids[2 * p + 1]
  }

  /** The first pair from `p` on whose key is `name`. */
  function Find(kids: seq<Doc>, name: string, p: nat): (at: Option<nat>)
    ensures at.Some? ==> p <= at.value && HasPair(kids, at.value) && Key(kids, at.value).value == name
    ensures forall j: nat :: p <= j && HasPair(kids, j) && (at.None? || j < at.value) ==> Key(kids, j).value != name
    decreases |kids| - 2 * p
  {
    if !HasPair(kids, p) then None
    else if Key(kids, p).value == name then Some(p)
    else Find(kids, name, p + 1)
  }

  function LookupFrom(kids: seq<Doc>, name: string, p: nat): Option<Doc> {
    match Find(kids, name, p)
    case None => None
    case Some(at) => Some(Val(kids, at))
  }

  function Lookup(kids: seq<Doc>, name: string): Option<Doc> { LookupFrom(kids, name, 0) }

  /** putYAMLField: an existing key is replaced or kept, a new one appended. */
  function Put(kids: seq<Doc>, key: Doc, val: Doc, replace: bool): seq<Doc> {
    match Find(kids, key.value, 0)
    case None => kids + [key, val]
    case Some(p) => if replace then kids[2 * p := key][2 * p + 1 := val] else kids
  }

  /** Well-formed fields of an expanded mapping: whole pairs, distinct keys, no
      merge keys. */
  ghost predicate GoodFields(kids: seq<Doc>) {
    && |kids| % 2 == 0
    && (forall i: nat, j: nat :: i < j && HasPair(kids, j) ==> Key(kids, i).value != Key(kids, j).value)
    && (forall i: nat :: HasPair(kids, i) ==> Key(kids, i).tag != "!!merge")
  }

  lemma FindUnique(kids: seq<Doc>, p: nat)
    requires GoodFields(kids) && HasPair(kids, p)
    ensures Find(kids, Key(kids, p).value, 0) == Some(p)
  {}

  lemma PutPairs(kids: seq<Doc>, key: Doc, val: Doc, replace: bool)
    requires |kids| % 2 == 0
    ensures var kids', found := Put(kids, key, val, replace), Find(kids, key.value, 0);
            && |kids'| % 2 == 0 && |kids'| >= |kids| && (found.None? ==> |kids'| == |kids| + 2)
            && (found.Some? ==> |kids'| == |kids|)
            && (forall i: nat :: HasPair(kids', i) ==>
                  if HasPair(kids, i) && !(replace && found == Some(i))
                  then Key(kids', i) == Key(kids, i) && Val(kids', i) == Val(kids, i)
                  else Key(kids', i) == key && Val(kids', i) == val)
  {}

  lemma PutGood(kids: seq<Doc>, key: Doc, val: Doc, replace: bool)
    requires GoodFields(kids) && key.tag != MERGE
    ensures GoodFields(Put(kids, key, val, replace))
  {
    PutPairs(kids, key, val, replace);
  }

  lemma PutLookup(kids: seq<Doc>, key: Doc, val: Doc, replace: bool, name: string)
    requires GoodFields(kids) && key.tag != MERGE
    ensures GoodFields(Put(kids, key, val, replace))
    ensures Lookup(Put(kids, key, val, replace), name) ==
            if name == key.value && (replace || Lookup(kids, name).None?) then Some(val) else Lookup(kids, name)
  {
    hide Put;
    var kids', n := Put(kids, key, val, replace), Find(kids, name, 0);
    PutPairs(kids, key, val, replace);
    PutGood(kids, key, val, replace);
    if n.Some? {
      assert HasPair(kids', n.value);
      FindUnique(kids', n.value);
    } else if name == key.value {
      assert HasPair(kids', |kids| / 2) && Key(kids', |kids| / 2) == key;
      FindUnique(kids', |kids| / 2);
    }
  }

  // ---------- Merge keys ----------

  function Sources(val: Doc): seq<Doc> { if val.kind == Sequence then val.kids else [val] }

  function InheritFields(acc: seq<Doc>, fields: seq<Doc>, p: nat): seq<Doc>
    decreases |fields| - 2 * p
  {
    if !HasPair(fields, p) then acc
    else InheritFields(Put(acc, Key(fields, p), Val(fields, p), false), fields, p + 1)
  }

  function InheritSources(acc: seq<Doc>, sources: seq<Doc>, i: nat): Option<seq<Doc>>
    decreases |sources| - i
  {
    if i >= |sources| then Some(acc)
    else if sources[i].kind != Mapping then None
    else InheritSources(InheritFields(acc, sources[i].kids, 0), sources, i + 1)
  }

  function MergePass(acc: seq<Doc>, entries: seq<Doc>, p: nat): Option<seq<Doc>>
    decreases |entries| - 2 * p
  {
    if !HasPair(entries, p) then Some(acc)
    else if Key(entries, p).tag != MERGE then MergePass(acc, entries, p + 1)
    else
      match InheritSources(acc, Sources(Val(entries, p)), 0)
      case None => None
      case Some(acc') => MergePass(acc', entries, p + 1)
  }

  function ExplicitPass(acc: seq<Doc>, entries: seq<Doc>, p: nat): seq<Doc>
    decreases |entries| - 2 * p
  {
    if !HasPair(entries, p) then acc
    else ExplicitPass(if Key(entries, p).tag == MERGE then acc else Put(acc, Key(entries, p), Val(entries, p), true), entries, p + 1)
  }

  /** The fields of a mapping whose entries have been expanded. */
  function Merge(entries: seq<Doc>): Option<seq<Doc>> {
    match MergePass([], entries, 0)
    case None => None
    case Some(acc) => Some(ExplicitPass(acc, entries, 0))
  }

  // ---------- What merging means: last explicit value, else first source ----------

  function Or(a: Option<Doc>, b: Option<Doc>): Option<Doc> { if a.Some? then a else b }

  /** The last explicit value of `name`. */
  function LastExplicit(entries: seq<Doc>, name: string, p: nat): Option<Doc>
    decreases |entries| - 2 * p
  {
    if !HasPair(entries, p) then None
    else Or(LastExplicit(entries, name, p + 1),
            if Key(entries, p).tag != "!!merge" && Key(entries, p).value == name then Some(Val(entries, p)) else None)
  }

  /** The value in the first of the sources that has `name`. */
  function FirstSource(sources: seq<Doc>, name: string, i: nat): Option<Doc>
    decreases |sources| - i
  {
    if i >= |sources| then None else Or(Lookup(sources[i].kids, name), FirstSource(sources, name, i + 1))
  }

  function FirstInherited(entries: seq<Doc>, name: string, p: nat): Option<Doc>
    decreases |entries| - 2 * p
  {
    if !HasPair(entries, p) then None
    else Or(if Key(entries, p).tag == "!!merge" then FirstSource(Sources(Val(entries, p)), name, 0) else None,
            FirstInherited(entries, name, p + 1))
  }

  /** The merge sources of these entries have themselves been expanded. */
  ghost predicate GoodSources(entries: seq<Doc>) {
    forall p: nat, s :: HasPair(entries, p) && Key(entries, p).tag == "!!merge" && s in Sources(Val(entries, p)) && s.kind == Mapping
                        ==> GoodFields(s.kids)
  }

  lemma {:induction false} InheritFieldsMeans(acc: seq<Doc>, fields: seq<Doc>, p: nat, name: string)
    requires GoodFields(acc) && GoodFields(fields)
    ensures GoodFields(InheritFields(acc, fields, p))
    ensures Lookup(InheritFields(acc, fields, p), name) == Or(Lookup(acc, name), LookupFrom(fields, name, p))
    decreases |fields| - 2 * p
  {
    if HasPair(fields, p) {
      PutLookup(acc, Key(fields, p), Val(fields, p), false, name);
      InheritFieldsMeans(Put(acc, Key(fields, p), Val(fields, p), false), fields, p + 1, name);
    }
  }

  lemma {:induction false} InheritSourcesMeans(acc: seq<Doc>, sources: seq<Doc>, i: nat, name: string)
    requires GoodFields(acc) && InheritSources(acc, sources, i).Some?
    requires forall j :: 0 <= j < |sources| && sources[j].kind == Mapping ==> GoodFields(sources[j].kids)
    ensures var r := InheritSources(acc, sources, i).value;
            GoodFields(r) && Lookup(r, name) == Or(Lookup(acc, name), FirstSource(sources, name, i))
    decreases |sources| - i
  {
    if i < |sources| {
      InheritFieldsMeans(acc, sources[i].kids, 0, name);
      InheritSourcesMeans(InheritFields(acc, sources[i].kids, 0), sources, i + 1, name);
    }
  }

  lemma {:induction false} MergePassMeans(acc: seq<Doc>, entries: seq<Doc>, p: nat, name: string)
    requires GoodFields(acc) && GoodSources(entries) && MergePass(acc, entries, p).Some?
    ensures var r := MergePass(acc, entries, p).value;
            GoodFields(r) && Lookup(r, name) == Or(Lookup(acc, name), FirstInherited(entries, name, p))
    decreases |entries| - 2 * p
  {
    if HasPair(entries, p) {
      if Key(entries, p).tag == MERGE {
        var sources := Sources(Val(entries, p));
        InheritSourcesMeans(acc, sources, 0, name);
        MergePassMeans(InheritSources(acc, sources, 0).value, entries, p + 1, name);
      } else {
        MergePassMeans(acc, entries, p + 1, name);
      }
    }
  }

  lemma {:induction false} ExplicitPassMeans(acc: seq<Doc>, entries: seq<Doc>, p: nat, name: string)
    requires GoodFields(acc)
    ensures GoodFields(ExplicitPass(acc, entries, p))
    ensures Lookup(ExplicitPass(acc, entries, p), name) == Or(LastExplicit(entries, name, p), Lookup(acc, name))
    decreases |entries| - 2 * p
  {
    if HasPair(entries, p) {
      if Key(entries, p).tag == MERGE {
        ExplicitPassMeans(acc, entries, p + 1, name);
      } else {
        PutLookup(acc, Key(entries, p), Val(entries, p), true, name);
        ExplicitPassMeans(Put(acc, Key(entries, p), Val(entries, p), true), entries, p + 1, name);
      }
    }
  }

  /** Merging yields whole pairs with distinct, ordinary keys, and each key resolves
      to its last explicit value, else to the first merge source that has it. */
  lemma MergeMeans(entries: seq<Doc>, name: string)
    requires GoodSources(entries) && Merge(entries).Some?
    ensures GoodFields(Merge(entries).value)
    ensures Lookup(Merge(entries).value, name) == Or(LastExplicit(entries, name, 0), FirstInherited(entries, name, 0))
  {
    MergePassMeans([], entries, 0, name);
    ExplicitPassMeans(MergePass([], entries, 0).value, entries, 0, name);
  }

  /** Merging fails exactly when some merge value is neither a mapping nor a
      sequence of mappings. */
  lemma {:induction false} MergeFails(entries: seq<Doc>)
    ensures Merge(entries).None? <==>
            exists p: nat :: HasPair(entries, p) && Key(entries, p).tag == "!!merge"
              && exists s :: s in Sources(Val(entries, p)) && s.kind != Mapping
  {
    MergePassFails([], entries, 0);
  }

  lemma {:induction false} InheritSourcesFails(acc: seq<Doc>, sources: seq<Doc>, i: nat)
    ensures InheritSources(acc, sources, i).None? <==> exists j :: i <= j < |sources| && sources[j].kind != Mapping
    decreases |sources| - i
  {
    if i < |sources| && sources[i].kind == Mapping {
      InheritSourcesFails(InheritFields(acc, sources[i].kids, 0), sources, i + 1);
    }
  }

  lemma {:induction false} MergePassFails(acc: seq<Doc>, entries: seq<Doc>, p: nat)
    ensures MergePass(acc, entries, p).None? <==>
            exists q: nat :: p <= q && HasPair(entries, q) && Key(entries, q).tag == MERGE
              && exists s :: s in Sources(Val(entries, q)) && s.kind != Mapping
    decreases |entries| - 2 * p
  {
    if HasPair(entries, p) {
      if Key(entries, p).tag == MERGE {
        var sources := Sources(Val(entries, p));
        InheritSourcesFails(acc, sources, 0);
        if InheritSources(acc, sources, 0).Some? {
          MergePassFails(InheritSources(acc, sources, 0).value, entries, p + 1);
        } else {
          var j :| 0 <= j < |sources| && sources[j].kind != Mapping;
          assert sources[j] in sources;
        }
      } else {
        MergePassFails(acc, entries, p + 1);
      }
    }
  }

  // ---------- Where fields stand ----------

  lemma {:induction false} NothingInherited(acc: seq<Doc>, entries: seq<Doc>, p: nat)
    requires GoodFields(entries)
    ensures MergePass(acc, entries, p) == Some(acc)
    decreases |entries| - 2 * p
  {
    if HasPair(entries, p) { NothingInherited(acc, entries, p + 1); }
  }

  lemma {:induction false} PutInTurn(entries: seq<Doc>, p: nat)
    requires GoodFields(entries) && 2 * p <= |entries|
    ensures ExplicitPass(entries[..2 * p], entries, p) == entries
    decreases |entries| - 2 * p
  {
    if HasPair(entries, p) {
      var acc, key, val := entries[..2 * p], Key(entries, p), Val(entries, p);
      assert key == entries[2 * p] && val == entries[2 * p + 1];
      forall j: nat | HasPair(acc, j) ensures Key(acc, j).value != key.value { assert Key(acc, j) == Key(entries, j); }
      assert Put(acc, key, val, true) == entries[..2 * (p + 1)];
      PutInTurn(entries, p + 1);
    } else {
      assert entries[..2 * p] == entries;
    }
  }

  /** Entries without merge keys and with different keys stay as they are. */
  lemma MergeOfPlain(entries: seq<Doc>)
    requires GoodFields(entries)
    ensures Merge(entries) == Some(entries)
  {
    NothingInherited([], entries, 0);
    assert entries[..0] == [];
    PutInTurn(entries, 0);
  }

  /** Inherited fields keep their places at the front; explicit ones replace them there or
      come behind. */
  lemma {:induction false} ExplicitKeepsPlaces(acc: seq<Doc>, entries: seq<Doc>, p: nat, i: nat)
    requires |acc| % 2 == 0 && HasPair(acc, i)
    ensures var r := ExplicitPass(acc, entries, p); HasPair(r, i) && Key(r, i).value == Key(acc, i).value
    decreases |entries| - 2 * p
  {
    if HasPair(entries, p) {
      if Key(entries, p).tag == MERGE {
        ExplicitKeepsPlaces(acc, entries, p + 1, i);
      } else {
        PutPairs(acc, Key(entries, p), Val(entries, p), true);
        ExplicitKeepsPlaces(Put(acc, Key(entries, p), Val(entries, p), true), entries, p + 1, i);
      }
    }
  }

  // ---------- Expanded documents ----------

  /** No aliases, no anchors, no merge keys, distinct keys per mapping. */
  ghost predicate Clean(d: Doc) {
    && d.kind != Alias && d.anchor == ""
    && (d.kind == Mapping ==> GoodFields(d.kids))
    && forall i :: 0 <= i < |d.kids| ==> Clean(d.kids[i])
  }

  ghost predicate AllClean(kids: seq<Doc>) { forall i :: 0 <= i < |kids| ==> Clean(kids[i]) }

  lemma PutClean(kids: seq<Doc>, key: Doc, val: Doc, replace: bool)
    requires AllClean(kids) && Clean(key) && Clean(val)
    ensures AllClean(Put(kids, key, val, replace))
  {
    var kids' := Put(kids, key, val, replace);
    forall i | 0 <= i < |kids'| ensures Clean(kids'[i]) {
      assert kids'[i] == key || kids'[i] == val || (i < |kids| && kids'[i] == kids[i]);
    }
  }

  lemma {:induction false} InheritFieldsClean(acc: seq<Doc>, fields: seq<Doc>, p: nat)
    requires AllClean(acc) && AllClean(fields)
    ensures AllClean(InheritFields(acc, fields, p))
    decreases |fields| - 2 * p
  {
    if HasPair(fields, p) {
      PutClean(acc, Key(fields, p), Val(fields, p), false);
      InheritFieldsClean(Put(acc, Key(fields, p), Val(fields, p), false), fields, p + 1);
    }
  }

  lemma {:induction false} InheritSourcesClean(acc: seq<Doc>, sources: seq<Doc>, i: nat)
    requires AllClean(acc) && AllClean(sources) && InheritSources(acc, sources, i).Some?
    ensures AllClean(InheritSources(acc, sources, i).value)
    decreases |sources| - i
  {
    if i < |sources| {
      assert Clean(sources[i]);
      InheritFieldsClean(acc, sources[i].kids, 0);
      InheritSourcesClean(InheritFields(acc, sources[i].kids, 0), sources, i + 1);
    }
  }

  lemma {:induction false} MergePassClean(acc: seq<Doc>, entries: seq<Doc>, p: nat)
    requires AllClean(acc) && AllClean(entries) && MergePass(acc, entries, p).Some?
    ensures AllClean(MergePass(acc, entries, p).value)
    decreases |entries| - 2 * p
  {
    if HasPair(entries, p) {
      if Key(entries, p).tag == MERGE {
        var sources := Sources(Val(entries, p));
        assert Clean(Val(entries, p));
        InheritSourcesClean(acc, sources, 0);
        MergePassClean(InheritSources(acc, sources, 0).value, entries, p + 1);
      } else {
        MergePassClean(acc, entries, p + 1);
      }
    }
  }

  lemma {:induction false} ExplicitPassClean(acc: seq<Doc>, entries: seq<Doc>, p: nat)
    requires AllClean(acc) && AllClean(entries)
    ensures AllClean(ExplicitPass(acc, entries, p))
    decreases |entries| - 2 * p
  {
    if HasPair(entries, p) {
      var k, v := Key(entries, p), Val(entries, p);
      if k.tag == MERGE {
        ExplicitPassClean(acc, entries, p + 1);
      } else {
        PutClean(acc, k, v, true);
        ExplicitPassClean(Put(acc, k, v, true), entries, p + 1);
      }
    }
  }

  /** A mapping merged from clean entries is clean. */
  lemma MergeClean(entries: seq<Doc>)
    requires AllClean(entries) && Merge(entries).Some?
    ensures AllClean(Merge(entries).value) && GoodSources(entries) && GoodFields(Merge(entries).value)
  {
    MergePassClean([], entries, 0);
    ExplicitPassClean(MergePass([], entries, 0).value, entries, 0);
    forall p: nat, s | HasPair(entries, p) && s in Sources(Val(entries, p)) && s.kind == Mapping ensures GoodFields(s.kids) {
      assert Clean(Val(entries, p));
      assert Clean(s);
    }
    MergeMeans(entries, "");
  }

  // ---------- Patching by path ----------

  function LookupPath(d: Doc, path: seq<string>): Option<Doc>
    decreases |path|
  {
    if path == [] then Some(d)
    else if d.kind != Mapping then None
    else match Lookup(d.kids, path[0]) case None => None case Some(v) => LookupPath(v, path[1..])
  }

  /** copyComments: the new node keeps its own comment, else takes the old one. */
  function Commented(v: Doc, was: Doc): Doc {
    if v.comment == "" then v.(comment := was.comment) else v
  }

  const BLANK := Doc(Blank, "", "", "", "", [])
  const MAPPING := Doc(Mapping, "!!map", "", "", "", [])

  function KeyNode(name: string): Doc { Doc(Scalar, "!!str", name, "", "", []) }

  /** patchYAMLPath as a function. */
  function PatchDoc(d: Doc, path: seq<string>, v: Doc): Doc
    decreases |path|
  {
    if path == [] then Commented(v, d)
    else
      var m := if d.kind == Mapping then d else MAPPING;
      match Find(m.kids, path[0], 0)
      case Some(p) => m.(kids := m.kids[2 * p + 1 := PatchDoc(Val(m.kids, p), path[1..], v)])
      case None => m.(kids := m.kids + [KeyNode(path[0]), PatchDoc(BLANK, path[1..], v)])
  }

  /** Neither path is a prefix of the other. */
  predicate Incomparable(p: seq<string>, q: seq<string>) { !(p <= q) && !(q <= p) }

  /** Where one step of a patch leaves every other key. */
  lemma PatchStep(d: Doc, path: seq<string>, v: Doc, name: string)
    requires path != [] && (d.kind == Mapping ==> |d.kids| % 2 == 0)
    ensures var r := PatchDoc(d, path, v);
            && r.kind == Mapping
            && Lookup(r.kids, name) ==
               var was := if d.kind == Mapping then Lookup(d.kids, name) else None;
               if name == path[0] then Some(PatchDoc(if was.Some? then was.value else BLANK, path[1..], v)) else was
    ensures d.kind == Mapping && GoodFields(d.kids) ==> GoodFields(PatchDoc(d, path, v).kids)
    ensures d.kind != Mapping ==> GoodFields(PatchDoc(d, path, v).kids)
  {
    var m := if d.kind == Mapping then d else MAPPING;
    var r := PatchDoc(d, path, v);
    var found := Find(m.kids, path[0], 0);
    SameKeysFind(m.kids, r.kids, name, 0);
    forall i: nat | HasPair(r.kids, i) && !HasPair(m.kids, i)
      ensures found.None? && i == |m.kids| / 2 && Key(r.kids, i).value == path[0] && Key(r.kids, i).tag != MERGE
    {}
    if found.None? { assert HasPair(r.kids, |m.kids| / 2); }
  }

  /** The keys of `a` lead those of `b`, pair by pair. */
  lemma {:induction false} SameKeysFind(a: seq<Doc>, b: seq<Doc>, name: string, p: nat)
    requires forall i: nat :: HasPair(a, i) ==> HasPair(b, i) && Key(a, i) == Key(b, i)
    ensures Find(a, name, p).Some? ==> Find(b, name, p) == Find(a, name, p)
    decreases |a| - 2 * p
  {
    if HasPair(a, p) { SameKeysFind(a, b, name, p + 1); }
  }

  /** The patched path holds the new value, with its own comment or else the one that
      stood there. */
  lemma {:induction false} PatchedHere(d: Doc, path: seq<string>, v: Doc)
    requires Clean(d)
    ensures var was := LookupPath(d, path);
            LookupPath(PatchDoc(d, path, v), path) ==
            Some(v.(comment := if v.comment != "" then v.comment else if was.Some? then was.value.comment else ""))
    decreases |path|
  {
    if path != [] {
      PatchStep(d, path, v, path[0]);
      var was := if d.kind == Mapping then Lookup(d.kids, path[0]) else None;
      PatchedHere(if was.Some? then was.value else BLANK, path[1..], v);
    }
  }

  /** `r` is the mapping `m` with its keys in place, possibly one more string key behind. */
  ghost predicate SameKeys(m: Doc, r: Doc, name: string) {
    && r.kind == m.kind == Mapping && r.tag == m.tag && r.value == m.value && r.anchor == m.anchor && r.comment == m.comment
    && (forall i: nat :: HasPair(m.kids, i) ==> HasPair(r.kids, i) && Key(r.kids, i) == Key(m.kids, i))
    && (|r.kids| == |m.kids|
        || (|r.kids| == |m.kids| + 2 && Key(r.kids, |m.kids| / 2) == Doc(Scalar, "!!str", name, "", "", [])))
  }

  /** The mappings above a patched path keep their own attributes, their keys and the order
      of these; a missing field is appended. */
  lemma {:induction false} PatchedAround(d: Doc, path: seq<string>, v: Doc, q: seq<string>)
    requires Clean(d) && q < path && LookupPath(d, q).Some? && LookupPath(d, q).value.kind == Mapping
    ensures LookupPath(PatchDoc(d, path, v), q).Some?
    ensures SameKeys(LookupPath(d, q).value, LookupPath(PatchDoc(d, path, v), q).value, path[|q|])
    decreases |path|
  {
    if q != [] {
      assert q[0] == path[0];
      PatchStep(d, path, v, q[0]);
      PatchedAround(Lookup(d.kids, q[0]).value, path[1..], v, q[1..]);
    } else {
      OneLevel(d, path, v);
    }
  }

  /** A mapping of one string key. */
  ghost predicate OneField(m: Doc, name: string) {
    && m.kind == Mapping && m.tag == "!!map" && m.value == m.anchor == m.comment == "" && |m.kids| == 2
    && m.kids[0] == Doc(Scalar, "!!str", name, "", "", [])
  }

  /** Where the patched path leads through nothing, or through a value that is no mapping,
      there is a new mapping of just the field on the path. */
  lemma {:induction false} PatchedThrough(d: Doc, path: seq<string>, v: Doc, q: seq<string>)
    requires Clean(d) && q < path && (LookupPath(d, q).None? || LookupPath(d, q).value.kind != Mapping)
    ensures LookupPath(PatchDoc(d, path, v), q).Some? && OneField(LookupPath(PatchDoc(d, path, v), q).value, path[|q|])
    decreases |path|
  {
    if q != [] {
      assert q[0] == path[0];
      PatchStep(d, path, v, q[0]);
      var was := if d.kind == Mapping then Lookup(d.kids, q[0]) else None;
      PatchedThrough(if was.Some? then was.value else BLANK, path[1..], v, q[1..]);
    }
  }

  lemma OneLevel(d: Doc, path: seq<string>, v: Doc)
    requires d.kind == Mapping && |d.kids| % 2 == 0 && path != []
    ensures SameKeys(d, PatchDoc(d, path, v), path[0])
  {}

  /** Every path that is neither above nor below the patched one keeps its value,
      present or absent. */
  lemma {:induction false} PatchedElsewhere(d: Doc, path: seq<string>, v: Doc, other: seq<string>)
    requires Clean(d) && Incomparable(path, other)
    ensures LookupPath(PatchDoc(d, path, v), other) == LookupPath(d, other)
    decreases |path|
  {
    PatchStep(d, path, v, other[0]);
    if other[0] == path[0] {
      assert Incomparable(path[1..], other[1..]) by {
        assert path == [path[0]] + path[1..] && other == [other[0]] + other[1..];
      }
      var was := if d.kind == Mapping then Lookup(d.kids, path[0]) else None;
      PatchedElsewhere(if was.Some? then was.value else BLANK, path[1..], v, other[1..]);
      assert LookupPath(BLANK, other[1..]) == None;
    }
  }

  /** Patching keeps a clean document clean. */
  lemma {:induction false} PatchedClean(d: Doc, path: seq<string>, v: Doc)
    requires Clean(d) && Clean(v)
    ensures Clean(PatchDoc(d, path, v))
    decreases |path|
  {
    if path != [] {
      PatchStep(d, path, v, "");
      var m := if d.kind == Mapping then d else MAPPING;
      var found := Find(m.kids, path[0], 0);
      if found.Some? { assert Clean(Val(m.kids, found.value)); }
      PatchedClean(if found.Some? then Val(m.kids, found.value) else BLANK, path[1..], v);
    }
  }

  datatype Edit = Edit(path: seq<string>, value: Doc)

  function PatchAll(d: Doc, edits: seq<Edit>): Doc {
    if edits == [] then d
    else PatchDoc(PatchAll(d, edits[..|edits| - 1]), edits[|edits| - 1].path, edits[|edits| - 1].value)
  }

  lemma {:induction false} PatchAllClean(d: Doc, edits: seq<Edit>)
    requires Clean(d) && forall j :: 0 <= j < |edits| ==> Clean(edits[j].value)
    ensures Clean(PatchAll(d, edits))
  {
    if edits != [] {
      var n := |edits| - 1;
      PatchAllClean(d, edits[..n]);
      PatchedClean(PatchAll(d, edits[..n]), edits[n].path, edits[n].value);
    }
  }

  /** A path no edit is above or below holds what the source held. */
  lemma {:induction false} PatchAllElsewhere(d: Doc, edits: seq<Edit>, q: seq<string>)
    requires Clean(d) && forall j :: 0 <= j < |edits| ==> Clean(edits[j].value)
    requires forall j :: 0 <= j < |edits| ==> Incomparable(edits[j].path, q)
    ensures LookupPath(PatchAll(d, edits), q) == LookupPath(d, q)
  {
    if edits != [] {
      var n := |edits| - 1;
      PatchAllElsewhere(d, edits[..n], q);
      PatchAllClean(d, edits[..n]);
      PatchedElsewhere(PatchAll(d, edits[..n]), edits[n].path, edits[n].value, q);
    }
  }

  /** An edit that no later one is above or below holds its value. */
  lemma {:induction false} PatchAllHere(d: Doc, edits: seq<Edit>, i: nat)
    requires Clean(d) && forall j :: 0 <= j < |edits| ==> Clean(edits[j].value)
    requires i < |edits| && forall j :: i < j < |edits| ==> Incomparable(edits[j].path, edits[i].path)
    ensures var r := LookupPath(PatchAll(d, edits), edits[i].path);
            r.Some? && r.value == edits[i].value.(comment := r.value.comment)
  {
    hide Clean, PatchDoc, LookupPath, Incomparable;
    var n := |edits| - 1;
    PatchAllClean(d, edits[..n]);
    if i == n {
      PatchedHere(PatchAll(d, edits[..n]), edits[n].path, edits[n].value);
    } else {
      PatchAllHere(d, edits[..n], i);
      PatchedElsewhere(PatchAll(d, edits[..n]), edits[n].path, edits[n].value, edits[i].path);
    }
  }
}
