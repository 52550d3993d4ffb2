/** Which configuration paths a document supplies: collectPresentPaths against the
    set of its leaves. */
module Presence {
  import opened Wrappers
  import opened YamlDoc

  // ---------- Dotted paths ----------

  /** The path of a child: the key itself at the top, dotted below. */
  function Extend(prefix: string, key: string): string {
    if prefix == "" then key else prefix + "." + key
  }

  function Dotted(path: seq<string>): string {
    if path == [] then "" else Extend(Dotted(path[..|path| - 1]), path[|path| - 1])
  }

  predicate PlainKey(key: string) { key != "" && '.' !in key }

  predicate IsUnder(path: string, s: string) { s == path || path + "." <= s }

  /** Siblings with plain keys have no descendants in common. */
  lemma SiblingsApart(prefix: string, a: string, b: string, s: string)
    requires PlainKey(a) && PlainKey(b) && IsUnder(Extend(prefix, a), s) && IsUnder(Extend(prefix, b), s)
    ensures a == b
  {
    var k := if prefix == "" then 0 else |prefix| + 1;
    var pa, pb := Extend(prefix, a), Extend(prefix, b);
    assert |s| == |pa| || s[|pa|] == '.';
    assert |s| == |pb| || s[|pb|] == '.';
    assert forall i :: 0 <= i < |a| ==> s[k + i] == a[i];
    assert forall i :: 0 <= i < |b| ==> s[k + i] == b[i];
  }

  /** PathSet.DeletePrefix as a function. */
  function Without(paths: set<string>, path: string): set<string> { set s | s in paths && !IsUnder(path, s) }

  /** PathSet: a set of paths that its methods change. */
  class PathSet {
    var paths: set<string>

    constructor ()
      ensures paths == {}
    {
      paths := {};
    }

    method Has(path: string) returns (found: bool)
      ensures found <==> path in paths
    {
      found := path in paths;
    }

    method Add(path: string)
      modifies this
      ensures paths == old(paths) + if path == "" then {} else {path}
    {
      if path != "" { paths := paths + {path}; }
    }

    method DeletePrefix(path: string)
      modifies this
      ensures paths == Without(old(paths), path)
    {
      var todo := paths;
      while todo != {}
        invariant todo <= old(paths)
        invariant forall s :: s in paths <==> s in old(paths) && (s in todo || !IsUnder(path, s))
      {
        var candidate :| candidate in todo;
        if candidate == path || path + "." <= candidate { paths := paths - {candidate}; }
        todo := todo - {candidate};
      }
    }
  }

  // ---------- Collecting ----------

  predicate IsNull(d: Doc) { d.kind == Scalar && d.tag == "!!null" }

  /** A supplied leaf: anything but null and a mapping with fields. */
  predicate IsLeaf(d: Doc) { !IsNull(d) && (d.kind == Mapping ==> d.kids == []) }

  function Collect(d: Doc, prefix: string, present: set<string>): set<string>
    decreases d, 1, 0
  {
    if d.kind == Document then CollectAll(d, 0, prefix, present)
    else if d.kind != Mapping then present
    else CollectFields(d, 0, prefix, present)
  }

  function CollectAll(d: Doc, i: nat, prefix: string, present: set<string>): set<string>
    decreases d, 0, |d.kids| - i
  {
    if i >= |d.kids| then present else CollectAll(d, i + 1, prefix, Collect(d.kids[i], prefix, present))
  }

  function CollectFields(d: Doc, p: nat, prefix: string, present: set<string>): set<string>
    decreases d, 0, |d.kids| - 2 * p
  {
    if !HasPair(d.kids, p) then present
    else CollectFields(d, p + 1, prefix, CollectField(d, p, prefix, present))
  }

  function CollectField(d: Doc, p: nat, prefix: string, present: set<string>): set<string>
    requires HasPair(d.kids, p)
    decreases d, 0, |d.kids| - 2 * p - 1
  {
    var path, v := Extend(prefix, Key(d.kids, p).value), d.kids[2 * p + 1];
    if IsNull(v) then Without(present, path)
    else if v.kind == Mapping && v.kids != [] then Collect(v, path, present)
    else present + if path == "" then {} else {path}
  }

  /** collectPresentPaths. */
  method CollectPresentPaths(d: Doc, prefix: string, present: PathSet)
    modifies present
    ensures present.paths == Collect(d, prefix, old(present.paths))
    decreases d
  {
    if d.kind == Document {
      var i := 0;
      while i < |d.kids|
        invariant 0 <= i
        invariant CollectAll(d, i, prefix, present.paths) == CollectAll(d, 0, prefix, old(present.paths))
      {
        CollectPresentPaths(d.kids[i], prefix, present);
        i := i + 1;
      }
      return;
    }
    if d.kind != Mapping { return; }
    var i := 0;
    while i + 1 < |d.kids|
      invariant 0 <= i && i % 2 == 0
      invariant CollectFields(d, i / 2, prefix, present.paths) == CollectFields(d, 0, prefix, old(present.paths))
    {
      ghost var before := present.paths;
      assert d.kids[i] == Key(d.kids, i / 2);
      var key, value := d.kids[i].value, d.kids[i + 1];
      var path := key;
      if prefix != "" { path := prefix + "." + key; }
      if IsNull(value) {
        present.DeletePrefix(path);
      } else if value.kind == Mapping && value.kids != [] {
        CollectPresentPaths(value, path, present);
      } else {
        present.Add(path);
      }
      assert present.paths == CollectField(d, i / 2, prefix, before);
      i := i + 2;
    }
  }

  // ---------- Supplying and erasing ----------

  /** What a field does to the set: a leaf supplies its path, a null erases its path
      and all below it. */
  datatype Effect = Supply(path: string) | Erase(path: string)

  /** The effects of all fields of a document, in document order. */
  function Effects(d: Doc, prefix: string): seq<Effect>
    decreases d, 1, 0
  {
    if d.kind == Document then PartEffects(d, 0, prefix)
    else if d.kind != Mapping then []
    else FieldEffects(d, 0, prefix)
  }

  function PartEffects(d: Doc, i: nat, prefix: string): seq<Effect>
    decreases d, 0, |d.kids| - i
  {
    if i >= |d.kids| then [] else Effects(d.kids[i], prefix) + PartEffects(d, i + 1, prefix)
  }

  function FieldEffects(d: Doc, p: nat, prefix: string): seq<Effect>
    decreases d, 0, |d.kids| - 2 * p
  {
    if !HasPair(d.kids, p) then []
    else OwnEffects(d.kids[2 * p + 1], Extend(prefix, Key(d.kids, p).value)) + FieldEffects(d, p + 1, prefix)
  }

  function OwnEffects(v: Doc, path: string): seq<Effect>
    decreases v, 2, 0
  {
    if IsNull(v) then [Erase(path)] else if IsLeaf(v) then [Supply(path)] else Effects(v, path)
  }

  /** The supply at `i` is that of `s`, and no later null lies at or above it. */
  ghost predicate Survives(es: seq<Effect>, i: nat, s: string) {
    i < |es| && es[i] == Supply(s) && forall j :: i < j < |es| && es[j].Erase? ==> !IsUnder(es[j].path, s)
  }

  function After(es: seq<Effect>, present: set<string>): set<string> {
    if es == [] then present
    else
      var before, e := After(es[..|es| - 1], present), es[|es| - 1];
      if e.Erase? then Without(before, e.path) else before + if e.path == "" then {} else {e.path}
  }

  lemma {:induction false} AfterJoin(a: seq<Effect>, b: seq<Effect>, present: set<string>)
    ensures After(a + b, present) == After(b, After(a, present))
  {
    if b == [] {
      assert a + b == a;
    } else {
      AfterJoin(a, b[..|b| - 1], present);
      assert (a + b)[..|a + b| - 1] == a + b[..|b| - 1];
    }
  }

  lemma {:induction false} AfterMeans(es: seq<Effect>, s: string)
    ensures s in After(es, {}) <==> s != "" && exists i: nat :: Survives(es, i, s)
  {
    if es != [] {
      var u, e := es[..|es| - 1], es[|es| - 1];
      AfterMeans(u, s);
      if s in After(es, {}) {
        if e == Supply(s) {
          assert Survives(es, |u|, s);
        } else {
          var i: nat :| Survives(u, i, s);
          assert Survives(es, i, s);
        }
      }
      if i: nat :| Survives(es, i, s) && i < |u| { assert Survives(u, i, s); }
    }
  }

  lemma {:induction false} CollectIsAfter(d: Doc, prefix: string, present: set<string>)
    ensures Collect(d, prefix, present) == After(Effects(d, prefix), present)
    decreases d, 1, 0
  {
    if d.kind == Document {
      CollectAllIsAfter(d, 0, prefix, present);
    } else if d.kind == Mapping {
      CollectFieldsIsAfter(d, 0, prefix, present);
    }
  }

  lemma {:induction false} CollectAllIsAfter(d: Doc, i: nat, prefix: string, present: set<string>)
    ensures CollectAll(d, i, prefix, present) == After(PartEffects(d, i, prefix), present)
    decreases d, 0, |d.kids| - i
  {
    if i < |d.kids| {
      CollectIsAfter(d.kids[i], prefix, present);
      CollectAllIsAfter(d, i + 1, prefix, Collect(d.kids[i], prefix, present));
      AfterJoin(Effects(d.kids[i], prefix), PartEffects(d, i + 1, prefix), present);
    }
  }

  lemma {:induction false} CollectFieldsIsAfter(d: Doc, p: nat, prefix: string, present: set<string>)
    ensures CollectFields(d, p, prefix, present) == After(FieldEffects(d, p, prefix), present)
    decreases d, 0, |d.kids| - 2 * p
  {
    if HasPair(d.kids, p) {
      var path, v := Extend(prefix, Key(d.kids, p).value), d.kids[2 * p + 1];
      var present' := CollectField(d, p, prefix, present);
      assert present' == After(OwnEffects(v, path), present) by {
        if v.kind == Mapping && v.kids != [] { CollectIsAfter(v, path, present); } else { assert OwnEffects(v, path)[..0] == []; }
      }
      CollectFieldsIsAfter(d, p + 1, prefix, present');
      AfterJoin(OwnEffects(v, path), FieldEffects(d, p + 1, prefix), present);
    }
  }

  /** What is collected from any document at all: exactly the nonempty paths some leaf
      supplies with no null at or above the path later in the document. */
  lemma CollectExactly(d: Doc, s: string)
    ensures s in Collect(d, "", {}) <==> s != "" && exists i: nat :: Survives(Effects(d, ""), i, s)
  {
    CollectIsAfter(d, "", {});
    AfterMeans(Effects(d, ""), s);
  }

  // ---------- What is supplied ----------

  /** A scalar that is not null, a sequence, or a mapping without fields. */
  ghost predicate HoldsValue(v: Doc) {
    if v.kind == Scalar then v.tag != "!!null" else v.kind == Mapping ==> v.kids == []
  }

  /** `q` leads to a leaf through the fields from pair `p` on. */
  ghost predicate LeafFrom(d: Doc, p: nat, q: seq<string>) {
    && d.kind == Mapping && q != []
    && LookupFrom(d.kids, q[0], p).Some?
    && var v := LookupPath(LookupFrom(d.kids, q[0], p).value, q[1..]); v.Some? && HoldsValue(v.value)
  }

  ghost predicate LeafPath(d: Doc, q: seq<string>) { LeafFrom(d, 0, q) }

  lemma DottedSnoc(pre: seq<string>, key: string)
    ensures Dotted(pre + [key]) == Extend(Dotted(pre), key)
  {
    assert (pre + [key])[..|pre|] == pre;
  }

  /** `s` names a leaf among the fields of `d` from pair `p` on. */
  ghost predicate Supplied(d: Doc, p: nat, pre: seq<string>, s: string) {
    exists q :: LeafFrom(d, p, q) && s == Dotted(pre + q)
  }

  ghost predicate LeafBelow(v: Doc, r: seq<string>) {
    LookupPath(v, r).Some? && HoldsValue(LookupPath(v, r).value)
  }

  /** `s` names a leaf inside the value `v` at `pre`. */
  ghost predicate SuppliedBelow(v: Doc, pre: seq<string>, s: string) {
    exists r :: LeafBelow(v, r) && s == Dotted(pre + r)
  }

  lemma CleanField(d: Doc, p: nat)
    requires Clean(d) && d.kind == Mapping && HasPair(d.kids, p)
    ensures Clean(Val(d.kids, p)) && Val(d.kids, p) == d.kids[2 * p + 1]
  {}

  lemma LeafSplit(d: Doc, p: nat, q: seq<string>)
    requires GoodFields(d.kids) && d.kind == Mapping && HasPair(d.kids, p)
    ensures LeafFrom(d, p, q) <==>
            (q != [] && q[0] == Key(d.kids, p).value && LeafBelow(Val(d.kids, p), q[1..])) || LeafFrom(d, p + 1, q)
  {}

  lemma Regroup(pre: seq<string>, k: string, r: seq<string>)
    ensures pre + ([k] + r) == pre + [k] + r && ([k] + r)[1..] == r
  {}

  /** A leaf from pair `p` on lies in the value of that pair or comes later. */
  lemma SuppliedSplit(d: Doc, p: nat, pre: seq<string>, s: string)
    requires GoodFields(d.kids) && d.kind == Mapping && HasPair(d.kids, p)
    ensures Supplied(d, p, pre, s) <==>
            SuppliedBelow(Val(d.kids, p), pre + [Key(d.kids, p).value], s) || Supplied(d, p + 1, pre, s)
  {
    var k, v := Key(d.kids, p).value, Val(d.kids, p);
    hide LeafFrom, LeafBelow, Dotted, GoodFields, Key, Val;
    if q :| LeafFrom(d, p, q) && s == Dotted(pre + q) {
      LeafSplit(d, p, q);
      if !LeafFrom(d, p + 1, q) {
        Regroup(pre, k, q[1..]);
        assert q == [k] + q[1..];
      }
    }
    if r :| LeafBelow(v, r) && s == Dotted(pre + [k] + r) {
      Regroup(pre, k, r);
      LeafSplit(d, p, [k] + r);
    }
    if q :| LeafFrom(d, p + 1, q) && s == Dotted(pre + q) { LeafSplit(d, p, q); }
  }

  lemma {:induction false} OwnSupplies(v: Doc, pre: seq<string>, s: string)
    requires Clean(v)
    ensures Supply(s) in OwnEffects(v, Dotted(pre)) <==> SuppliedBelow(v, pre, s)
    decreases v, 2, 0
  {
    if IsNull(v) {
      assert forall r :: !LeafBelow(v, r);
    } else if IsLeaf(v) {
      assert LeafBelow(v, []) && pre + [] == pre;
      assert forall r :: LeafBelow(v, r) ==> r == [];
    } else {
      FieldSupplies(v, 0, pre, s);
      if r :| LeafBelow(v, r) && s == Dotted(pre + r) { assert LeafFrom(v, 0, r); }
      if q :| LeafFrom(v, 0, q) && s == Dotted(pre + q) { assert LeafBelow(v, q); }
    }
  }

  lemma {:induction false} FieldSupplies(d: Doc, p: nat, pre: seq<string>, s: string)
    requires Clean(d) && d.kind == Mapping
    ensures Supply(s) in FieldEffects(d, p, Dotted(pre)) <==> Supplied(d, p, pre, s)
    decreases d, 0, |d.kids| - 2 * p
  {
    hide LeafBelow, OwnEffects, Dotted;
    if HasPair(d.kids, p) {
      var k := Key(d.kids, p).value;
      CleanField(d, p);
      DottedSnoc(pre, k);
      OwnSupplies(Val(d.kids, p), pre + [k], s);
      FieldSupplies(d, p + 1, pre, s);
      SuppliedSplit(d, p, pre, s);
    } else {
      assert forall q :: !LeafFrom(d, p, q);
    }
  }

  /** The supplied paths of an expanded mapping, whatever its keys, are the dotted paths
      to its non-null scalars, sequences and empty mappings. */
  lemma SuppliesAreLeaves(d: Doc, s: string)
    requires Clean(d) && d.kind == Mapping
    ensures Supply(s) in Effects(d, "") <==> exists q :: LeafPath(d, q) && s == Dotted(q)
  {
    FieldSupplies(d, 0, [], s);
    if q :| LeafFrom(d, 0, q) && s == Dotted([] + q) { assert [] + q == q && LeafPath(d, q); }
    if q :| LeafPath(d, q) && s == Dotted(q) { assert [] + q == q && LeafFrom(d, 0, q); }
  }

  /** Presence is right, that is exactly the paths to leaves are collected, if and only
      if no leaf has the empty path and each leaf's path has an occurrence with no null
      at or above it later in the document. Nothing but leaves is ever collected. */
  lemma PresenceIsRight(d: Doc)
    requires Clean(d) && d.kind == Mapping
    ensures forall s :: s in Collect(d, "", {}) ==> exists q :: LeafPath(d, q) && s == Dotted(q)
    ensures (forall q :: LeafPath(d, q) ==> Dotted(q) in Collect(d, "", {})) <==>
            (forall s :: Supply(s) in Effects(d, "") ==> s != "" && exists i: nat :: Survives(Effects(d, ""), i, s))
  {
    hide LeafFrom, Survives;
    var es := Effects(d, "");
    forall s ensures s in Collect(d, "", {}) <==> s != "" && exists i: nat :: Survives(es, i, s) { CollectExactly(d, s); }
    forall s ensures Supply(s) in es <==> exists q :: LeafPath(d, q) && s == Dotted(q) { SuppliesAreLeaves(d, s); }
    forall s | s in Collect(d, "", {}) ensures Supply(s) in es {
      var i: nat :| Survives(es, i, s);
      SurvivorSupplies(es, i, s);
    }
    if forall q :: LeafPath(d, q) ==> Dotted(q) in Collect(d, "", {}) {
      forall s | Supply(s) in es ensures s in Collect(d, "", {}) {
        var q :| LeafPath(d, q) && s == Dotted(q);
      }
    }
    if forall s :: Supply(s) in es ==> s != "" && exists i: nat :: Survives(es, i, s) {
      forall q | LeafPath(d, q) ensures Dotted(q) in Collect(d, "", {}) { assert Supply(Dotted(q)) in es; }
    }
  }

  lemma SurvivorSupplies(es: seq<Effect>, i: nat, s: string)
    requires Survives(es, i, s)
    ensures Supply(s) in es
  {}

  // ---------- Plain keys ----------

  /** All keys of all mappings below are plain. */
  ghost predicate PlainKeys(d: Doc) {
    && (d.kind == Mapping ==> forall p: nat :: HasPair(d.kids, p) ==> PlainKey(Key(d.kids, p).value))
    && forall i :: 0 <= i < |d.kids| ==> PlainKeys(d.kids[i])
  }

  /** Clean documents whose keys are plain, as decoding of a configuration yields. */
  ghost predicate Plain(d: Doc) { Clean(d) && PlainKeys(d) }

  lemma PlainField(d: Doc, p: nat)
    requires Plain(d) && d.kind == Mapping && HasPair(d.kids, p)
    ensures Plain(Val(d.kids, p)) && PlainKey(Key(d.kids, p).value) && Val(d.kids, p) == d.kids[2 * p + 1]
  {}

  /** All effects lie at or under `path`, and no null is later than a leaf under it. */
  ghost predicate Tidy(es: seq<Effect>, path: string) {
    && (forall e :: e in es ==> IsUnder(path, e.path))
    && forall i, j :: 0 <= i < j < |es| && es[i].Supply? && es[j].Erase? ==> !IsUnder(es[j].path, es[i].path)
  }

  /** The same for the fields from pair `p` on, each under its own path. */
  ghost predicate TidyFields(es: seq<Effect>, d: Doc, p: nat, prefix: string) {
    && (forall e :: e in es ==> exists j: nat :: p <= j && HasPair(d.kids, j) && IsUnder(Extend(prefix, Key(d.kids, j).value), e.path))
    && forall i, j :: 0 <= i < j < |es| && es[i].Supply? && es[j].Erase? ==> !IsUnder(es[j].path, es[i].path)
  }

  lemma UnderTrans(a: string, b: string, s: string)
    requires IsUnder(a, b) && IsUnder(b, s)
    ensures IsUnder(a, s)
  {}

  lemma {:induction false} OwnTidy(v: Doc, path: string)
    requires Plain(v) && path != ""
    ensures Tidy(OwnEffects(v, path), path)
    decreases v, 2, 0
  {
    hide PlainKeys, Clean;
    if !IsNull(v) && !IsLeaf(v) {
      FieldsTidy(v, 0, path);
      forall e | e in FieldEffects(v, 0, path) ensures IsUnder(path, e.path) {
        var j: nat :| HasPair(v.kids, j) && IsUnder(Extend(path, Key(v.kids, j).value), e.path);
        UnderTrans(path, Extend(path, Key(v.kids, j).value), e.path);
      }
    }
  }

  lemma {:induction false} FieldsTidy(d: Doc, p: nat, prefix: string)
    requires Plain(d) && d.kind == Mapping
    ensures TidyFields(FieldEffects(d, p, prefix), d, p, prefix)
    decreases d, 0, |d.kids| - 2 * p
  {
    hide PlainKeys, OwnEffects;
    if HasPair(d.kids, p) {
      var path, v := Extend(prefix, Key(d.kids, p).value), Val(d.kids, p);
      PlainField(d, p);
      OwnTidy(v, path);
      FieldsTidy(d, p + 1, prefix);
      TidyJoin(OwnEffects(v, path), FieldEffects(d, p + 1, prefix), d, p, prefix);
    }
  }

  lemma TidyJoin(a: seq<Effect>, b: seq<Effect>, d: Doc, p: nat, prefix: string)
    requires Plain(d) && d.kind == Mapping && HasPair(d.kids, p)
    requires Tidy(a, Extend(prefix, Key(d.kids, p).value)) && TidyFields(b, d, p + 1, prefix)
    ensures TidyFields(a + b, d, p, prefix)
  {
    hide IsUnder, Extend, PlainKeys, Clean;
    var es := a + b;
    forall i, j | 0 <= i < j < |es| && es[i].Supply? && es[j].Erase? ensures !IsUnder(es[j].path, es[i].path) {
      if i < |a| <= j && IsUnder(es[j].path, es[i].path) {
        assert es[j] in b && es[i] in a;
        var k: nat :| p + 1 <= k && HasPair(d.kids, k) && IsUnder(Extend(prefix, Key(d.kids, k).value), es[j].path);
        UnderTrans(Extend(prefix, Key(d.kids, k).value), es[j].path, es[i].path);
        PlainField(d, p);
        PlainField(d, k);
        SiblingsApart(prefix, Key(d.kids, p).value, Key(d.kids, k).value, es[i].path);
        assert false by { KeysDiffer(d, p, k); }
      }
    }
  }

  lemma KeysDiffer(d: Doc, i: nat, j: nat)
    requires Clean(d) && d.kind == Mapping && i < j && HasPair(d.kids, j)
    ensures Key(d.kids, i).value != Key(d.kids, j).value
  {}

  /** On an expanded mapping with plain keys, the collected set is exactly the set of
      dotted paths to non-null scalars, sequences and empty mappings. */
  lemma CollectMeans(d: Doc, s: string)
    requires Plain(d) && d.kind == Mapping
    ensures s in Collect(d, "", {}) <==> exists q :: LeafPath(d, q) && s == Dotted(q)
  {
    var es := Effects(d, "");
    FieldsTidy(d, 0, "");
    CollectExactly(d, s);
    SuppliesAreLeaves(d, s);
    if Supply(s) in es {
      var i: nat :| i < |es| && es[i] == Supply(s);
      var j: nat :| HasPair(d.kids, j) && IsUnder(Extend("", Key(d.kids, j).value), es[i].path);
      PlainField(d, j);
      assert Survives(es, i, s);
    }
  }

  // ---------- Where it goes wrong ----------

  /** A null sibling erases a dotted key. */
  lemma DottedKeyIsLost()
    ensures var one, nil := Doc(Scalar, "!!int", "1", "", "", []), Doc(Scalar, "!!null", "", "", "", []);
            var d := Doc(Mapping, "!!map", "", "", "", [KeyNode("a.b"), one, KeyNode("a"), nil]);
            LeafPath(d, ["a.b"]) && Collect(d, "", {}) == {}
  {
    var one, nil := Doc(Scalar, "!!int", "1", "", "", []), Doc(Scalar, "!!null", "", "", "", []);
    var d := Doc(Mapping, "!!map", "", "", "", [KeyNode("a.b"), one, KeyNode("a"), nil]);
    assert Key(d.kids, 0).value == "a.b" && Val(d.kids, 0) == one;
    assert CollectField(d, 0, "", {}) == {"a.b"};
    assert "a" + "." <= "a.b";
    assert CollectField(d, 1, "", {"a.b"}) == {};
    assert CollectFields(d, 2, "", {}) == {};
    assert CollectFields(d, 1, "", {"a.b"}) == {};
  }

  /** An empty key has no path of its own: a leaf there is lost, and a field below it
      is mistaken for a field at the top, so that a null field at the top erases it. */
  lemma EmptyKeyIsLost()
    ensures var one, nil := Doc(Scalar, "!!int", "1", "", "", []), Doc(Scalar, "!!null", "", "", "", []);
            var d := Doc(Mapping, "!!map", "", "", "", [KeyNode(""), one]);
            var inner := Doc(Mapping, "!!map", "", "", "", [KeyNode("a"), one]);
            var e := Doc(Mapping, "!!map", "", "", "", [KeyNode(""), inner]);
            var f := Doc(Mapping, "!!map", "", "", "", [KeyNode(""), inner, KeyNode("a"), nil]);
            && LeafPath(d, [""]) && Collect(d, "", {}) == {}
            && LeafPath(e, ["", "a"]) && Collect(e, "", {}) == {"a"}
            && LeafPath(f, ["", "a"]) && Collect(f, "", {}) == {}
  {
    var one, nil := Doc(Scalar, "!!int", "1", "", "", []), Doc(Scalar, "!!null", "", "", "", []);
    var d := Doc(Mapping, "!!map", "", "", "", [KeyNode(""), one]);
    var inner := Doc(Mapping, "!!map", "", "", "", [KeyNode("a"), one]);
    var e := Doc(Mapping, "!!map", "", "", "", [KeyNode(""), inner]);
    var f := Doc(Mapping, "!!map", "", "", "", [KeyNode(""), inner, KeyNode("a"), nil]);
    assert CollectField(d, 0, "", {}) == {} && CollectFields(d, 1, "", {}) == {};
    assert CollectField(inner, 0, "", {}) == {"a"} && CollectFields(inner, 1, "", {"a"}) == {"a"};
    assert Collect(inner, "", {}) == {"a"};
    assert CollectField(e, 0, "", {}) == {"a"} && CollectFields(e, 1, "", {"a"}) == {"a"};
    assert CollectField(f, 0, "", {}) == {"a"} && CollectField(f, 1, "", {"a"}) == {} && CollectFields(f, 2, "", {}) == {};
    assert CollectFields(f, 1, "", {"a"}) == {};
    assert ["", "a"][1..] == ["a"] && [""][1..] == [] && ["a"][1..] == [];
    assert LookupPath(one, []) == Some(one);
    assert Find(inner.kids, "a", 0) == Some(0) && LookupPath(inner, ["a"]) == Some(one);
  }
}
