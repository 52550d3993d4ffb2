/** mergeDefaultValue over configuration values as generic trees of pointers, structs
    and leaves, filling a configuration in place. */
module Defaults {
  import opened Wrappers
  import opened YamlDoc
  import opened Presence

  datatype Type = PointerTo(elem: Type) | StructOf(decls: seq<FieldDecl>) | LeafType

  /** A struct field; fields tagged "-" are not persisted. */
  datatype FieldDecl = FieldDecl(name: string, persisted: bool, typ: Type)

  /** Scalars, lists, maps and structs merged as one YAML value are leaves; 0 is the
      zero value. */
  datatype Val = Pointer(target: Option<Val>) | Struct(fields: seq<Val>) | Leaf(data: int)

  ghost predicate HasType(v: Val, t: Type) {
    match t
    case PointerTo(elem) => v.Pointer? && (v.target.Some? ==> HasType(v.target.value, elem))
    case StructOf(decls) => v.Struct? && |v.fields| == |decls| && forall i :: 0 <= i < |decls| ==> HasType(v.fields[i], decls[i].typ)
    case LeafType => v.Leaf?
  }

  /** reflect.New: nil pointers and zero leaves. */
  function Zero(t: Type): (v: Val)
    ensures HasType(v, t)
  {
    match t
    case PointerTo(_) => Pointer(None)
    case StructOf(decls) => Struct(seq(|decls|, i requires 0 <= i < |decls| => Zero(decls[i].typ)))
    case LeafType => Leaf(0)
  }

  predicate Skipped(f: FieldDecl) { !f.persisted || f.name == "clusterConfig" }

  /** What merging makes of a value. */
  function Merged(v: Val, d: Val, t: Type, path: string, present: set<string>): (r: Val)
    requires HasType(v, t) && HasType(d, t)
    ensures HasType(r, t)
    decreases t
  {
    match t
    case PointerTo(elem) =>
      if d.target.None? then v
      else Pointer(Some(Merged(if v.target.Some? then v.target.value else Zero(elem), d.target.value, elem, path, present)))
    case StructOf(decls) =>
      Struct(seq(|decls|, i requires 0 <= i < |decls| =>
        if Skipped(decls[i]) then v.fields[i]
        else Merged(v.fields[i], d.fields[i], decls[i].typ, Extend(path, decls[i].name), present)))
    case LeafType => if path in present || v.data != 0 || d.data == 0 then v else d
  }

  // ---------- Locations inside a configuration ----------

  /** A chain of field indices; a pointer is followed by index 0. */
  predicate Leads(v: Val, loc: seq<nat>)
    decreases |loc|
  {
    loc == [] ||
    match v
    case Pointer(target) => loc[0] == 0 && target.Some? && Leads(target.value, loc[1..])
    case Struct(fields) => loc[0] < |fields| && Leads(fields[loc[0]], loc[1..])
    case Leaf(_) => false
  }

  function At(v: Val, loc: seq<nat>): Val
    requires Leads(v, loc)
    decreases |loc|
  {
    if loc == [] then v
    else if v.Pointer? then At(v.target.value, loc[1..])
    else At(v.fields[loc[0]], loc[1..])
  }

  function Set(v: Val, loc: seq<nat>, x: Val): Val
    requires Leads(v, loc)
    decreases |loc|
  {
    if loc == [] then x
    else if v.Pointer? then Pointer(Some(Set(v.target.value, loc[1..], x)))
    else Struct(v.fields[loc[0] := Set(v.fields[loc[0]], loc[1..], x)])
  }

  lemma {:induction false} SetThenAt(v: Val, loc: seq<nat>, x: Val, y: Val)
    requires Leads(v, loc)
    ensures Leads(Set(v, loc, x), loc) && At(Set(v, loc, x), loc) == x && Set(Set(v, loc, x), loc, y) == Set(v, loc, y)
    ensures Set(v, loc, At(v, loc)) == v
    decreases |loc|
  {
    if loc != [] {
      if v.Pointer? {
        SetThenAt(v.target.value, loc[1..], x, y);
      } else {
        SetThenAt(v.fields[loc[0]], loc[1..], x, y);
      }
    }
  }

  lemma {:induction false} Deeper(v: Val, loc: seq<nat>, i: nat, x: Val)
    requires Leads(v, loc) && Leads(At(v, loc), [i])
    ensures Leads(v, loc + [i]) && At(v, loc + [i]) == At(At(v, loc), [i])
    ensures Set(v, loc + [i], x) == Set(v, loc, Set(At(v, loc), [i], x))
    decreases |loc|
  {
    if loc == [] {
      assert loc + [i] == [i];
    } else {
      assert (loc + [i])[1..] == loc[1..] + [i];
      Deeper(if v.Pointer? then v.target.value else v.fields[loc[0]], loc[1..], i, x);
    }
  }

  /** The configuration being completed. */
  class Config {
    var root: Val

    constructor (root: Val)
      ensures this.root == root
    {
      this.root := root;
    }
  }

  /** mergeDefaultValue: the value at `loc` becomes its merge with the default, and
      nothing else in the configuration changes. */
  method MergeDefaultValue(cfg: Config, loc: seq<nat>, d: Val, t: Type, path: string, present: PathSet)
    requires Leads(cfg.root, loc) && HasType(At(cfg.root, loc), t) && HasType(d, t)
    modifies cfg
    ensures cfg.root == Set(old(cfg.root), loc, Merged(At(old(cfg.root), loc), d, t, path, present.paths))
    decreases t
  {
    ghost var root, v := cfg.root, At(cfg.root, loc);
    SetThenAt(root, loc, v, v);
    match t {
      case PointerTo(elem) =>
        if d.target.None? { return; }
        if At(cfg.root, loc).target.None? {
          cfg.root := Set(cfg.root, loc, Pointer(Some(Zero(elem))));
          SetThenAt(root, loc, Pointer(Some(Zero(elem))), v);
        }
        ghost var held := At(cfg.root, loc);
        assert cfg.root == Set(root, loc, held);
        ghost var x := Merged(held.target.value, d.target.value, elem, path, present.paths);
        Deeper(cfg.root, loc, 0, x);
        MergeDefaultValue(cfg, loc + [0], d.target.value, elem, path, present);
        SetThenAt(root, loc, held, Pointer(Some(x)));
      case StructOf(decls) =>
        ghost var goal := Merged(v, d, t, path, present.paths);
        ghost var held := v;
        for i := 0 to |decls|
          invariant held.Struct? && |held.fields| == |decls| && cfg.root == Set(root, loc, held)
          invariant forall j :: 0 <= j < |decls| ==> held.fields[j] == if j < i then goal.fields[j] else v.fields[j]
        {
          if decls[i].persisted && decls[i].name != "clusterConfig" {
            var childPath := if path == "" then decls[i].name else path + "." + decls[i].name;
            SetThenAt(root, loc, held, held.(fields := held.fields[i := goal.fields[i]]));
            Deeper(cfg.root, loc, i, goal.fields[i]);
            MergeDefaultValue(cfg, loc + [i], d.fields[i], decls[i].typ, childPath, present);
            held := held.(fields := held.fields[i := goal.fields[i]]);
          }
        }
        assert held.fields == goal.fields;
      case LeafType =>
        var has := present.Has(path);
        if has || At(cfg.root, loc).data != 0 || d.data == 0 { return; }
        cfg.root := Set(cfg.root, loc, d);
    }
  }

  // ---------- What merging means, leaf by leaf ----------

  /** yamlField: the first persisted field of that name. */
  function FieldIndex(decls: seq<FieldDecl>, name: string): (at: Option<nat>)
    ensures at.Some? ==> at.value < |decls| && decls[at.value].persisted && decls[at.value].name == name
    ensures at.None? ==> forall i :: 0 <= i < |decls| && decls[i].persisted ==> decls[i].name != name
  {
    if decls == [] then None
    else if decls[0].persisted && decls[0].name == name then Some(0)
    else match FieldIndex(decls[1..], name) case None => None case Some(i) => Some(i + 1)
  }

  /** The leaf a chain of field names leads to, through non-nil pointers. */
  function LeafAt(v: Val, t: Type, names: seq<string>): Option<int>
    requires HasType(v, t)
    decreases t
  {
    match t
    case PointerTo(elem) => if v.target.None? then None else LeafAt(v.target.value, elem, names)
    case StructOf(decls) =>
      if names == [] then None
      else (match FieldIndex(decls, names[0])
            case None => None
            case Some(i) => LeafAt(v.fields[i], decls[i].typ, names[1..]))
    case LeafType => if names == [] then Some(v.data) else None
  }

  function Under(path: string, names: seq<string>): string
    decreases |names|
  {
    if names == [] then path else Under(Extend(path, names[0]), names[1..])
  }

  /** A leaf that has a default takes it unless it is present or nonzero; a leaf
      without a default stays what it was. */
  function Resolved(x: Option<int>, dflt: Option<int>, present: bool): Option<int> {
    if dflt.None? then x
    else
      var held := if x.Some? then x.value else 0;
      Some(if present || held != 0 then held else dflt.value)
  }

  lemma {:induction false} ZeroLeaf(d: Val, t: Type, names: seq<string>)
    requires HasType(d, t)
    ensures LeafAt(Zero(t), t, names) in {None, Some(0)}
    ensures LeafAt(d, t, names) == None ==> LeafAt(Zero(t), t, names) == None
    decreases t
  {
    match t
    case PointerTo(elem) =>
    case StructOf(decls) =>
      if names != [] && FieldIndex(decls, names[0]).Some? {
        var i := FieldIndex(decls, names[0]).value;
        ZeroLeaf(d.fields[i], decls[i].typ, names[1..]);
      }
    case LeafType =>
  }

  /** The exact effect on every leaf outside clusterConfig. */
  lemma {:induction false} MergedLeaf(v: Val, d: Val, t: Type, path: string, present: set<string>, names: seq<string>)
    requires HasType(v, t) && HasType(d, t) && "clusterConfig" !in names
    ensures LeafAt(Merged(v, d, t, path, present), t, names) ==
            Resolved(LeafAt(v, t, names), LeafAt(d, t, names), Under(path, names) in present)
    decreases t
  {
    match t
    case PointerTo(elem) =>
      if d.target.Some? {
        var held := if v.target.Some? then v.target.value else Zero(elem);
        ZeroLeaf(d.target.value, elem, names);
        MergedLeaf(held, d.target.value, elem, path, present, names);
      }
    case StructOf(decls) =>
      if names != [] && FieldIndex(decls, names[0]).Some? {
        var i := FieldIndex(decls, names[0]).value;
        MergedLeaf(v.fields[i], d.fields[i], decls[i].typ, Extend(path, names[0]), present, names[1..]);
      }
    case LeafType =>
  }

  /** Nothing below clusterConfig is ever filled: a leaf there keeps its value, and can
      only appear, as zero, with a struct allocated around it. */
  lemma {:induction false} ClusterConfigUntouched(v: Val, d: Val, t: Type, path: string, present: set<string>, names: seq<string>)
    requires HasType(v, t) && HasType(d, t) && "clusterConfig" in names
    ensures LeafAt(Merged(v, d, t, path, present), t, names) == LeafAt(v, t, names)
            || (LeafAt(v, t, names) == None && LeafAt(Merged(v, d, t, path, present), t, names) == Some(0))
    decreases t
  {
    match t
    case PointerTo(elem) =>
      if d.target.Some? {
        var held := if v.target.Some? then v.target.value else Zero(elem);
        ZeroLeaf(d.target.value, elem, names);
        ClusterConfigUntouched(held, d.target.value, elem, path, present, names);
      }
    case StructOf(decls) =>
      if FieldIndex(decls, names[0]).Some? && names[0] != "clusterConfig" {
        var i := FieldIndex(decls, names[0]).value;
        assert "clusterConfig" in names[1..];
        ClusterConfigUntouched(v.fields[i], d.fields[i], decls[i].typ, Extend(path, names[0]), present, names[1..]);
      }
    case LeafType =>
  }

  /** Merging the same defaults again changes nothing. */
  lemma {:induction false} MergeTwice(v: Val, d: Val, t: Type, path: string, present: set<string>)
    requires HasType(v, t) && HasType(d, t)
    ensures var r := Merged(v, d, t, path, present); Merged(r, d, t, path, present) == r
    decreases t
  {
    match t
    case PointerTo(elem) =>
      if d.target.Some? {
        MergeTwice(if v.target.Some? then v.target.value else Zero(elem), d.target.value, elem, path, present);
      }
    case StructOf(decls) =>
      var r := Merged(v, d, t, path, present);
      forall i | 0 <= i < |decls| ensures Merged(r, d, t, path, present).fields[i] == r.fields[i] {
        if !Skipped(decls[i]) {
          MergeTwice(v.fields[i], d.fields[i], decls[i].typ, Extend(path, decls[i].name), present);
        }
      }
      assert Merged(r, d, t, path, present).fields == r.fields;
    case LeafType =>
  }

  /** Fields that are not persisted keep their values, at every struct. */
  lemma NotPersistedUntouched(v: Val, d: Val, decls: seq<FieldDecl>, path: string, present: set<string>, i: nat)
    requires HasType(v, StructOf(decls)) && HasType(d, StructOf(decls)) && i < |decls| && !decls[i].persisted
    ensures Merged(v, d, StructOf(decls), path, present).fields[i] == v.fields[i]
  {}
}
