/** expandYAMLNode, putYAMLField and the patching methods, on the heap. */
module YamlExpand {
  import opened Wrappers
  import opened YamlDoc
  import opened YamlGraph

  // ---------- Moving subtrees between lists ----------

  ghost function PutTrees(ts: seq<Tree>, k: Tree, v: Tree, replace: bool): (ts': seq<Tree>)
    ensures Docs(ts') == Put(Docs(ts), k.doc, v.doc, replace)
  {
    match Find(Docs(ts), k.doc.value, 0)
    case None => ts + [k, v]
    case Some(p) => if replace then ts[2 * p := k][2 * p + 1 := v] else ts
  }

  /** The fields built so far in `mapping`: live, unshared, and inside `S`. */
  ghost predicate Built(mapping: Node, ts: seq<Tree>, S: set<Node>)
    reads mapping, AllRefs(ts)
  {
    mapping.content == Roots(ts) && AllLive(ts) && AllUnshared(ts) && AllRefs(ts) <= S && mapping !in S
  }

  /** A live, unshared key or value outside `S` and away from `mapping`. */
  ghost predicate Loose(mapping: Node, t: Tree, S: set<Node>)
    reads t.nodes
  {
    Live(t) && Unshared(t) && S !! t.nodes && mapping !in t.nodes
  }

  lemma PutTreesSeparate(ts: seq<Tree>, k: Tree, v: Tree, replace: bool, S: set<Node>)
    requires AllUnshared(ts) && AllRefs(ts) <= S && Unshared(k) && Unshared(v)
    requires S !! k.nodes && S !! v.nodes && k.nodes !! v.nodes
    ensures AllUnshared(PutTrees(ts, k, v, replace)) && AllRefs(PutTrees(ts, k, v, replace)) <= S + k.nodes + v.nodes
  {
    var ts' := PutTrees(ts, k, v, replace);
    forall i | 0 <= i < |ts'| ensures ts'[i] == k || ts'[i] == v || (i < |ts| && ts'[i] == ts[i] && ts[i].nodes <= AllRefs(ts)) {}
  }

  /** putYAMLField moves `key` and `val` into the mapping, in place. */
  method PutYamlField(mapping: Node, key: Node, val: Node, replace: bool,
                      ghost ts: seq<Tree>, ghost k: Tree, ghost v: Tree)
    requires mapping.content == Roots(ts) && k.ref == key && key.value == k.doc.value && v.ref == val
    requires forall i :: 0 <= i < |ts| ==> ts[i].ref != mapping && ts[i].ref.value == ts[i].doc.value
    modifies mapping`content
    ensures mapping.content == Roots(PutTrees(ts, k, v, replace))
  {
    var i := 0;
    while i + 1 < |mapping.content|
      invariant 0 <= i && i % 2 == 0
      invariant mapping.content == Roots(ts)
      invariant Find(Docs(ts), k.doc.value, 0) == Find(Docs(ts), k.doc.value, i / 2)
    {
      if mapping.content[i].value == key.value {
        if replace {
          mapping.content := mapping.content[i := key][i + 1 := val];
        }
        return;
      }
      i := i + 2;
    }
    mapping.content := mapping.content + [key, val];
  }

  /** One field put: the mapping stays built, now inside `S` and the new subtrees. */
  method PutLooseField(mapping: Node, key: Node, val: Node, replace: bool,
                       ghost ts: seq<Tree>, ghost k: Tree, ghost v: Tree, ghost S: set<Node>)
    requires Built(mapping, ts, S) && Loose(mapping, k, S) && Loose(mapping, v, S) && k.nodes !! v.nodes
    requires k.ref == key && v.ref == val
    modifies mapping`content
    ensures Built(mapping, PutTrees(ts, k, v, replace), S + k.nodes + v.nodes)
  {
    forall i | 0 <= i < |ts| ensures ts[i].ref != mapping && ts[i].ref.value == ts[i].doc.value {
      assert Live(ts[i]) && ts[i].ref in ts[i].nodes && ts[i].ref in AllRefs(ts);
    }
    PutYamlField(mapping, key, val, replace, ts, k, v);
    assert mapping !in k.nodes && mapping !in v.nodes && mapping !in AllRefs(ts);
    assert Live(k);
    assert Live(v);
    assert AllLive(ts);
    PutTreesSeparate(ts, k, v, replace, S);
    ghost var ts' := PutTrees(ts, k, v, replace);
    forall i | 0 <= i < |ts'| ensures Live(ts'[i]) {
      assert ts'[i] == k || ts'[i] == v || (i < |ts| && ts'[i] == ts[i]);
    }
  }

  // ---------- Resolving merge keys ----------

  lemma AllRefsSplit(ts: seq<Tree>, i: nat, j: nat)
    requires i <= j <= |ts|
    ensures AllRefs(ts[..j]) == AllRefs(ts[..i]) + AllRefs(ts[i..j])
    ensures AllRefs(ts[..j]) <= AllRefs(ts)
    ensures AllUnshared(ts) ==> AllRefs(ts[..i]) !! AllRefs(ts[i..])
  {
    assert forall k :: 0 <= k < j ==> ts[..j][k] == if k < i then ts[..i][k] else ts[i..j][k - i];
    assert forall k :: i <= k < |ts| ==> ts[i..][k - i] == ts[k];
  }

  lemma AllRefsPair(ts: seq<Tree>, i: nat)
    requires i + 1 < |ts|
    ensures AllRefs(ts[..i + 2]) == AllRefs(ts[..i]) + ts[i].nodes + ts[i + 1].nodes
    ensures AllRefs(ts[..i + 2]) <= AllRefs(ts) && ts[i].nodes <= AllRefs(ts) && ts[i + 1].nodes <= AllRefs(ts)
    ensures AllUnshared(ts) ==> AllRefs(ts[..i]) !! ts[i].nodes && AllRefs(ts[..i]) !! ts[i + 1].nodes && ts[i].nodes !! ts[i + 1].nodes
  {
    assert forall k :: 0 <= k < i ==> ts[..i + 2][k] == ts[..i][k];
    assert ts[..i + 2][i] == ts[i] && ts[..i + 2][i + 1] == ts[i + 1];
  }

  lemma AllRefsOne(ts: seq<Tree>, i: nat)
    requires i < |ts|
    ensures AllRefs(ts[..i + 1]) == AllRefs(ts[..i]) + ts[i].nodes
    ensures AllRefs(ts[..i + 1]) <= AllRefs(ts) && ts[i].nodes <= AllRefs(ts)
    ensures AllUnshared(ts) ==> AllRefs(ts[..i]) !! ts[i].nodes
  {
    assert forall k :: 0 <= k < i ==> ts[..i + 1][k] == ts[..i][k];
    assert ts[..i + 1][i] == ts[i];
  }

  lemma BuiltWithin(mapping: Node, ts: seq<Tree>, S: set<Node>, S': set<Node>)
    requires Built(mapping, ts, S) && S <= S' && mapping !in S'
    ensures Built(mapping, ts, S')
  {}

  /** The `j`-th field of a loose tree is loose next to what was taken before it. */
  lemma LooseField(mapping: Node, st: Tree, S: set<Node>, j: nat)
    requires Loose(mapping, st, S) && j + 1 < |st.kids|
    ensures var S', k, v := S + AllRefs(st.kids[..j]), st.kids[j], st.kids[j + 1];
            && Loose(mapping, k, S') && Loose(mapping, v, S') && k.nodes !! v.nodes
            && S' + k.nodes + v.nodes == S + AllRefs(st.kids[..j + 2]) && AllRefs(st.kids[..j + 2]) <= st.nodes
            && st.ref.content == Roots(st.kids)
  {
    hide AllLive;
    AllRefsPair(st.kids, j);
  }

  /** One inherited field. */
  method InheritField(mapping: Node, source: Node, j: nat, ghost ts: seq<Tree>, ghost st: Tree, ghost S: set<Node>)
    returns (ghost ts': seq<Tree>)
    requires j % 2 == 0 && j + 1 < |st.kids| && st.ref == source && mapping != source && mapping !in st.nodes
    requires Loose(mapping, st, S) && Built(mapping, ts, S + AllRefs(st.kids[..j]))
    requires st.doc.kids == Docs(st.kids) && source.content == Roots(st.kids)
    modifies mapping`content
    ensures Loose(mapping, st, S) && Built(mapping, ts', S + AllRefs(st.kids[..j + 2]))
    ensures InheritFields(Docs(ts'), st.doc.kids, j / 2 + 1) == InheritFields(Docs(ts), st.doc.kids, j / 2)
  {
    hide Built, Loose, Live, Unshared, Put;
    LooseField(mapping, st, S, j);
    PutLooseField(mapping, source.content[j], source.content[j + 1], false, ts, st.kids[j], st.kids[j + 1], S + AllRefs(st.kids[..j]));
    ts' := PutTrees(ts, st.kids[j], st.kids[j + 1], false);
  }

  lemma InheritStart(mapping: Node, ts: seq<Tree>, st: Tree, S: set<Node>)
    requires Built(mapping, ts, S) && Loose(mapping, st, S)
    ensures mapping !in st.nodes && mapping != st.ref && mapping !in S
    ensures st.ref.content == Roots(st.kids) && st.doc.kids == Docs(st.kids)
    ensures S + AllRefs(st.kids[..0]) == S
  {}

  lemma InheritFieldsDone(acc: seq<Doc>, fields: seq<Doc>, p: nat)
    requires !HasPair(fields, p)
    ensures InheritFields(acc, fields, p) == acc
  {}

  /** The innermost merge loop: inherit what `source` has and `mapping` lacks. */
  method InheritMapping(mapping: Node, source: Node, ghost ts: seq<Tree>, ghost st: Tree, ghost S: set<Node>)
    returns (ghost ts': seq<Tree>)
    requires Built(mapping, ts, S) && Loose(mapping, st, S) && st.ref == source
    modifies mapping`content
    ensures Built(mapping, ts', S + st.nodes)
    ensures Docs(ts') == InheritFields(Docs(ts), st.doc.kids, 0)
  {
    hide Built, Loose, Live, Put, PutTrees, Unshared, AllRefs, InheritFields;
    ts' := ts;
    ghost var fields := st.kids;
    InheritStart(mapping, ts, st, S);
    var j := 0;
    while j + 1 < |source.content|
      invariant 0 <= j && j % 2 == 0 && j <= |fields| && source.content == Roots(fields)
      invariant Loose(mapping, st, S)
      invariant Built(mapping, ts', S + AllRefs(fields[..j]))
      invariant InheritFields(Docs(ts'), st.doc.kids, j / 2) == InheritFields(Docs(ts), st.doc.kids, 0)
    {
      ts' := InheritField(mapping, source, j, ts', st, S);
      j := j + 2;
    }
    InheritFieldsDone(Docs(ts'), st.doc.kids, j / 2);
    LooseSpan(mapping, st, S, j);
    BuiltWithin(mapping, ts', S + AllRefs(fields[..j]), S + st.nodes);
  }

  lemma LooseSpan(mapping: Node, st: Tree, S: set<Node>, j: nat)
    requires Loose(mapping, st, S) && j <= |st.kids| && mapping !in S
    ensures AllRefs(st.kids[..j]) <= st.nodes && mapping !in S + st.nodes
  {
    AllRefsSplit(st.kids, 0, j);
  }

  /** Trees standing apart from each other, from `S` and from `mapping`. */
  ghost predicate LooseAll(mapping: Node, ts: seq<Tree>, S: set<Node>)
    reads AllRefs(ts)
  {
    AllLive(ts) && AllUnshared(ts) && S !! AllRefs(ts) && mapping !in AllRefs(ts)
  }

  lemma LooseOne(mapping: Node, ts: seq<Tree>, S: set<Node>, i: nat)
    requires LooseAll(mapping, ts, S) && i < |ts| && mapping !in S
    ensures Loose(mapping, ts[i], S + AllRefs(ts[..i])) && ts[i].ref.kind == ts[i].doc.kind
    ensures S + AllRefs(ts[..i]) + ts[i].nodes == S + AllRefs(ts[..i + 1])
    ensures mapping !in S + AllRefs(ts)
  {
    AllRefsOne(ts, i);
  }

  lemma NothingTaken(ts: seq<Tree>, S: set<Node>)
    ensures S + AllRefs(ts[..0]) == S && ts[..|ts|] == ts
  {}

  /** The middle merge loop: the sources of one merge key, earlier ones first. */
  method InheritMappings(mapping: Node, mappings: seq<Node?>, ghost ts: seq<Tree>, ghost sources: seq<Tree>, ghost S: set<Node>)
    returns (ok: bool, ghost ts': seq<Tree>)
    requires Built(mapping, ts, S) && LooseAll(mapping, sources, S) && mappings == Roots(sources) && mapping !in S
    requires mapping !in AllRefs(sources)
    modifies mapping`content
    ensures if ok then Built(mapping, ts', S + AllRefs(sources)) && InheritSources(Docs(ts), Docs(sources), 0) == Some(Docs(ts'))
            else InheritSources(Docs(ts), Docs(sources), 0) == None
  {
    hide Built, Loose, Live, LooseAll, Unshared, AllUnshared, InheritFields;
    ts' := ts;
    NothingTaken(sources, S);
    for i := 0 to |mappings|
      invariant LooseAll(mapping, sources, S)
      invariant Built(mapping, ts', S + AllRefs(sources[..i]))
      invariant InheritSources(Docs(ts'), Docs(sources), i) == InheritSources(Docs(ts), Docs(sources), 0)
    {
      LooseOne(mapping, sources, S, i);
      if mappings[i].kind != Mapping { return false, ts'; }
      ts' := InheritMapping(mapping, mappings[i], ts', sources[i], S + AllRefs(sources[..i]));
    }
    ok := true;
  }

  /** Everything under the values of the merge keys before position `i`. */
  ghost function MergedRefs(es: seq<Tree>, i: nat): set<Node>
    requires i <= |es|
  {
    set k, n | 0 <= k < i && k % 2 == 1 && es[k - 1].doc.tag == MERGE && n in es[k].nodes :: n
  }

  ghost function SourceTrees(v: Tree): (ts: seq<Tree>)
    ensures v.doc.kids == Docs(v.kids) ==> Docs(ts) == Sources(v.doc)
  {
    if v.doc.kind == Sequence then v.kids else [v]
  }

  lemma MergedRefsStep(es: seq<Tree>, i: nat)
    requires i % 2 == 0 && i + 1 < |es|
    ensures MergedRefs(es, i + 2) == if es[i].doc.tag == MERGE then MergedRefs(es, i) + es[i + 1].nodes else MergedRefs(es, i)
  {
    forall k | i <= k < i + 2 && k % 2 == 1 ensures k == i + 1 {}
  }

  lemma MergedBefore(es: seq<Tree>, i: nat)
    requires i <= |es|
    ensures MergedRefs(es, i) <= AllRefs(es)
    ensures AllUnshared(es) ==> forall j :: i <= j < |es| ==> MergedRefs(es, i) !! es[j].nodes
  {}

  lemma SourcesStand(v: Tree)
    requires Live(v) && Unshared(v)
    ensures var sources := SourceTrees(v);
            && AllLive(sources) && AllUnshared(sources) && AllRefs(sources) <= v.nodes
            && Docs(sources) == Sources(v.doc)
            && Roots(sources) == if v.doc.kind == Sequence then v.ref.content else [v.ref]
  {}

  lemma MergeKeyApart(mapping: Node, es: seq<Tree>, i: nat)
    requires LooseAll(mapping, es, {}) && i % 2 == 0 && i + 1 < |es|
    ensures es[i].ref.tag == es[i].doc.tag && es[i + 1].ref.kind == es[i + 1].doc.kind
    ensures var sources := SourceTrees(es[i + 1]);
            && LooseAll(mapping, sources, MergedRefs(es, i)) && AllRefs(sources) <= es[i + 1].nodes
            && Docs(sources) == Sources(es[i + 1].doc)
            && Roots(sources) == if es[i + 1].doc.kind == Sequence then es[i + 1].ref.content else [es[i + 1].ref]
    ensures mapping !in MergedRefs(es, i) && mapping !in MergedRefs(es, |es|) && mapping !in AllRefs(es)
    ensures MergedRefs(es, i + 2) == if es[i].doc.tag == MERGE then MergedRefs(es, i) + es[i + 1].nodes else MergedRefs(es, i)
  {
    hide MergedRefs;
    var v := es[i + 1];
    assert Live(v) && Unshared(v) && Live(es[i]);
    hide Live, Unshared;
    MergedRefsStep(es, i);
    MergedBefore(es, i);
    MergedBefore(es, |es|);
    SourcesStand(v);
    assert v.nodes <= AllRefs(es);
  }

  lemma MergedApart(es: seq<Tree>, i: nat)
    requires AllUnshared(es) && i < |es| && (i % 2 == 0 || es[i - 1].doc.tag != MERGE)
    ensures MergedRefs(es, |es|) !! es[i].nodes
  {
    forall n | n in MergedRefs(es, |es|) ensures n !in es[i].nodes {
      var k :| 0 <= k < |es| && k % 2 == 1 && es[k - 1].doc.tag == MERGE && n in es[k].nodes;
      assert k != i;
    }
  }

  lemma ExplicitKeyApart(mapping: Node, es: seq<Tree>, i: nat)
    requires LooseAll(mapping, es, {}) && i % 2 == 0 && i + 1 < |es| && es[i].doc.tag != MERGE
    ensures var S, k, v := MergedRefs(es, |es|) + AllRefs(es[..i]), es[i], es[i + 1];
            && Loose(mapping, k, S) && Loose(mapping, v, S) && k.nodes !! v.nodes
            && S + k.nodes + v.nodes == MergedRefs(es, |es|) + AllRefs(es[..i + 2])
  {
    hide Live, Unshared, MergedRefs;
    AllRefsPair(es, i);
    MergedApart(es, i);
    MergedApart(es, i + 1);
    assert Live(es[i]) && Live(es[i + 1]) && Unshared(es[i]) && Unshared(es[i + 1]);
  }

  lemma MergePassStep(acc: seq<Doc>, es: seq<Tree>, p: nat)
    requires HasPair(Docs(es), p)
    ensures MergePass(acc, Docs(es), p) ==
            if es[2 * p].doc.tag != MERGE then MergePass(acc, Docs(es), p + 1)
            else match InheritSources(acc, Sources(es[2 * p + 1].doc), 0)
                 case None => None
                 case Some(acc') => MergePass(acc', Docs(es), p + 1)
    ensures ExplicitPass(acc, Docs(es), p) ==
            ExplicitPass(if es[2 * p].doc.tag == MERGE then acc else Put(acc, es[2 * p].doc, es[2 * p + 1].doc, true), Docs(es), p + 1)
  {}

  lemma PassDone(acc: seq<Doc>, es: seq<Tree>, i: nat)
    requires i % 2 == 0 && i + 1 >= |es| >= i
    ensures MergePass(acc, Docs(es), i / 2) == Some(acc) && ExplicitPass(acc, Docs(es), i / 2) == acc
    ensures MergedRefs(es, i) == MergedRefs(es, |es|)
  {}

  /** The outer merge loop: one merge key after the other. */
  method MergeKeys(mapping: Node, entries: seq<Node?>, ghost es: seq<Tree>) returns (ok: bool, ghost ts: seq<Tree>)
    requires Built(mapping, [], {}) && LooseAll(mapping, es, {}) && entries == Roots(es) && mapping !in AllRefs(es)
    modifies mapping`content
    ensures LooseAll(mapping, es, {})
    ensures if ok then Built(mapping, ts, MergedRefs(es, |es|)) && MergePass([], Docs(es), 0) == Some(Docs(ts))
            else MergePass([], Docs(es), 0) == None
  {
    hide Built, LooseAll, Live, Unshared, AllUnshared, MergePass, ExplicitPass, InheritSources, Sources, HasPair;
    ts := [];
    assert MergedRefs(es, 0) == {};
    var i := 0;
    while i + 1 < |entries|
      invariant 0 <= i <= |es| && i % 2 == 0
      invariant LooseAll(mapping, es, {}) && Built(mapping, ts, MergedRefs(es, i))
      invariant MergePass(Docs(ts), Docs(es), i / 2) == MergePass([], Docs(es), 0)
    {
      MergeKeyApart(mapping, es, i);
      PairAt(es, i);
      MergePassStep(Docs(ts), es, i / 2);
      if entries[i].tag == MERGE {
        var mappings := [entries[i + 1]];
        if entries[i + 1].kind == Sequence { mappings := entries[i + 1].content; }
        ghost var sources, S := SourceTrees(es[i + 1]), MergedRefs(es, i);
        assert AllRefs(sources) <= AllRefs(es) by { AllRefsPair(es, i); }
        ok, ts := InheritMappings(mapping, mappings, ts, sources, S);
        if !ok { return; }
        BuiltWithin(mapping, ts, S + AllRefs(sources), MergedRefs(es, i + 2));
      }
      i := i + 2;
    }
    PassDone(Docs(ts), es, i);
    ok := true;
  }

  lemma PairAt(es: seq<Tree>, i: nat)
    requires i % 2 == 0 && i + 1 < |es|
    ensures HasPair(Docs(es), i / 2) && 2 * (i / 2) == i
  {}

  /** The explicit keys, the last one of a name winning. */
  method ExplicitKeys(mapping: Node, entries: seq<Node?>, ghost es: seq<Tree>, ghost merged: seq<Tree>) returns (ghost ts: seq<Tree>)
    requires Built(mapping, merged, MergedRefs(es, |es|)) && LooseAll(mapping, es, {}) && entries == Roots(es) && mapping !in AllRefs(es)
    modifies mapping`content
    ensures Built(mapping, ts, AllRefs(es))
    ensures Docs(ts) == ExplicitPass(Docs(merged), Docs(es), 0)
  {
    hide Built, LooseAll, Live, Unshared, AllUnshared, MergePass, ExplicitPass, Put, HasPair, MergedRefs;
    ts := merged;
    ghost var S := MergedRefs(es, |es|);
    NothingTaken(es, S);
    var i := 0;
    while i + 1 < |entries|
      invariant 0 <= i <= |es| && i % 2 == 0
      invariant LooseAll(mapping, es, {}) && Built(mapping, ts, S + AllRefs(es[..i]))
      invariant ExplicitPass(Docs(ts), Docs(es), i / 2) == ExplicitPass(Docs(merged), Docs(es), 0)
    {
      MergeKeyApart(mapping, es, i);
      PairAt(es, i);
      MergePassStep(Docs(ts), es, i / 2);
      AllRefsPair(es, i);
      if entries[i].tag != MERGE {
        ExplicitKeyApart(mapping, es, i);
        PutLooseField(mapping, entries[i], entries[i + 1], true, ts, es[i], es[i + 1], S + AllRefs(es[..i]));
        ts := PutTrees(ts, es[i], es[i + 1], true);
      } else {
        BuiltWithin(mapping, ts, S + AllRefs(es[..i]), S + AllRefs(es[..i + 2]));
      }
      i := i + 2;
    }
    PassDone(Docs(ts), es, i);
    AllRefsSplit(es, i, i);
    MergedBefore(es, |es|);
    BuiltWithin(mapping, ts, S + AllRefs(es[..i]), AllRefs(es));
  }

  /** The tail of expandYAMLNode for a mapping: its expanded entries are replaced by
      the merged fields. */
  method MergeMapping(mapping: Node, ghost es: seq<Tree>) returns (ok: bool, ghost ts: seq<Tree>)
    requires LooseAll(mapping, es, {}) && mapping.content == Roots(es) && mapping !in AllRefs(es)
    modifies mapping`content
    ensures if ok then Built(mapping, ts, AllRefs(es)) && Merge(Docs(es)) == Some(Docs(ts)) else Merge(Docs(es)) == None
  {
    hide LooseAll, Live, Unshared, MergePass, ExplicitPass;
    var entries := mapping.content;
    mapping.content := [];
    ok, ts := MergeKeys(mapping, entries, es);
    if !ok { return; }
    ts := ExplicitKeys(mapping, entries, es, ts);
  }

  // ---------- Expansion ----------

  datatype Fault = MissingNode | CyclicAlias | BadMerge

  datatype Expanded = Ok(node: Node) | Err(fault: Fault)

  /** expandYAMLNode. On any finite graph, cyclic or not, it ends; it succeeds exactly
      when the graph denotes a document, and then builds that document as a fresh
      tree no part of which is shared. */
  method ExpandYamlNode(node: Node?, active: Active, ghost U: set<Node>)
    returns (r: Expanded, ghost tree: Option<Tree>, ghost depth: nat)
    requires Closed(U) && active.nodes <= U && (node != null ==> node in U)
    requires forall a :: a in active.nodes ==> Below(a, node, U)
    modifies active
    ensures active.nodes == old(active.nodes)
    ensures r.Ok? ==> tree.Some? && r.node == tree.value.ref && Live(tree.value) && Unshared(tree.value) && fresh(tree.value.nodes)
    ensures r.Ok? ==> Denote(node, depth, U) == Some(tree.value.doc)
    ensures r.Err? ==> forall k: nat :: !Denotes(node, k, U)
    decreases U - active.nodes, 0
  {
    hide Live, Unshared, Denote;
    tree, depth := None, 0;
    if node == null {
      NothingDenotes(U);
      return Err(MissingNode), None, 0;
    }
    if node in active.nodes {
      forall k: nat ensures !Denotes(node, k, U) { CycleDenotesNothing(node, U, k); }
      return Err(CyclicAlias), None, 0;
    }
    active.nodes := active.nodes + {node};
    if node.kind == Alias {
      BelowAlias(node, U);
      forall a | a in active.nodes ensures Below(a, node.alias, U) {
        if a != node { BelowChild(a, node, node.alias, U); }
      }
      r, tree, depth := ExpandYamlNode(node.alias, active, U);
      active.nodes := active.nodes - {node};
      AliasDenotes(node, depth, U);
      depth := depth + 1;
      return;
    }
    r, tree, depth := ExpandContent(node, active, U);
    active.nodes := active.nodes - {node};
  }

  lemma NothingDenotes(U: set<Node>)
    requires Closed(U)
    ensures forall k: nat :: !Denotes(null, k, U)
  {}

  lemma DenoteAllUnique(ns: seq<Node?>, k: nat, k': nat, U: set<Node>)
    requires Closed(U) && (forall i :: 0 <= i < |ns| ==> ns[i] != null ==> ns[i] in U)
    requires DenoteAll(ns, k, U).Some? && DenoteAll(ns, k', U).Some?
    ensures DenoteAll(ns, k, U) == DenoteAll(ns, k', U)
  {
    if k <= k' { DenoteAllAtLeast(ns, k, k', U); } else { DenoteAllAtLeast(ns, k', k, U); }
  }

  lemma DenoteAllExtend(ns: seq<Node?>, i: nat, k: nat, ds: seq<Doc>, d: nat, doc: Doc, U: set<Node>) returns (depth: nat)
    requires Closed(U) && (forall j :: 0 <= j < |ns| ==> ns[j] != null ==> ns[j] in U) && i < |ns|
    requires DenoteAll(ns[..i], k, U) == Some(ds) && Denote(ns[i], d, U) == Some(doc)
    ensures DenoteAll(ns[..i + 1], depth, U) == Some(ds + [doc])
  {
    depth := if k <= d then d else k;
    DenoteAllAtLeast(ns[..i], k, depth, U);
    DenoteAtLeast(ns[i], d, depth, U);
    assert ns[..i + 1][..i] == ns[..i];
  }

  /** No child that denotes nothing below a node that denotes something. */
  lemma ChildFails(node: Node, i: nat, U: set<Node>)
    requires Closed(U) && node in U && node.kind != Alias && i < |node.content|
    requires forall k: nat :: !Denotes(node.content[i], k, U)
    ensures forall k: nat :: !Denotes(node, k, U)
  {
    BelowContent(node, i, U);
  }

  lemma MergeFailsForGood(node: Node, kids: seq<Doc>, depth: nat, U: set<Node>)
    requires Closed(U) && node in U && node.kind == Mapping && DenoteAll(node.content, depth, U) == Some(kids) && Merge(kids) == None
    ensures forall k: nat :: !Denotes(node, k, U)
  {
    forall k: nat | Denotes(node, k, U) ensures false { DenoteAllUnique(node.content, depth, k - 1, U); }
  }

  lemma AppendApart(kids: seq<Tree>, t: Tree)
    requires AllUnshared(kids) && Unshared(t) && AllRefs(kids) !! t.nodes
    ensures AllUnshared(kids + [t]) && AllRefs(kids + [t]) == AllRefs(kids) + t.nodes
    ensures Docs(kids + [t]) == Docs(kids) + [t.doc] && Roots(kids + [t]) == Roots(kids) + [t.ref]
    ensures AllLive(kids) && Live(t) ==> AllLive(kids + [t])
  {
    var ts := kids + [t];
    forall i | 0 <= i < |ts| ensures ts[i] == if i < |kids| then kids[i] else t {}
    forall n | n in AllRefs(kids) + t.nodes ensures n in AllRefs(ts) {
      if n in t.nodes {
        assert n in ts[|kids|].nodes;
      } else {
        var i :| 0 <= i < |kids| && n in kids[i].nodes;
        assert n in ts[i].nodes;
      }
    }
    forall i | 0 <= i < |kids| ensures kids[i].nodes <= AllRefs(kids) {}
  }

  lemma NoChildren(U: set<Node>)
    requires Closed(U)
    ensures DenoteAll([], 0, U) == Some([]) && AllLive([]) && AllUnshared([]) && AllRefs([]) == {}
  {}

  /** The children of `node` expanded one after the other onto `copy`. */
  method ExpandChildren(node: Node, copy: Node, active: Active, ghost U: set<Node>)
    returns (fault: Option<Fault>, ghost kids: seq<Tree>, ghost depth: nat)
    requires Closed(U) && active.nodes <= U && node in active.nodes && node.kind != Alias
    requires forall a :: a in active.nodes && a != node ==> Below(a, node, U)
    requires copy !in U && copy.content == []
    modifies active, copy`content
    ensures active.nodes == old(active.nodes)
    ensures fault.None? ==> copy.content == Roots(kids) && AllLive(kids) && AllUnshared(kids) && fresh(AllRefs(kids))
    ensures fault.None? ==> DenoteAll(node.content, depth, U) == Some(Docs(kids))
    ensures fault.Some? ==> forall k: nat :: !Denotes(node, k, U)
    decreases U - active.nodes, 1
  {
    hide Live, Unshared, AllUnshared, Denotes, Below, DenoteAll, AllLive, Denote;
    fault, kids, depth := None, [], 0;
    NoChildren(U);
    for i := 0 to |node.content|
      invariant active.nodes == old(active.nodes)
      invariant copy.content == Roots(kids) && AllLive(kids) && AllUnshared(kids) && fresh(AllRefs(kids))
      invariant DenoteAll(node.content[..i], depth, U) == Some(Docs(kids))
    {
      BelowContent(node, i, U);
      forall a | a in active.nodes ensures Below(a, node.content[i], U) {
        if a != node { BelowChild(a, node, node.content[i], U); }
      }
      var child, t, d := ExpandYamlNode(node.content[i], active, U);
      if child.Err? {
        ChildFails(node, i, U);
        return Some(child.fault), kids, depth;
      }
      depth := DenoteAllExtend(node.content, i, depth, Docs(kids), d, t.value.doc, U);
      copy.content := copy.content + [child.node];
      AppendApart(kids, t.value);
      kids := kids + [t.value];
    }
    assert node.content[..|node.content|] == node.content;
  }

  lemma CopyDenotes(node: Node, depth: nat, es: seq<Tree>, kids: seq<Tree>, U: set<Node>)
    requires Closed(U) && node in U && node.kind != Alias && DenoteAll(node.content, depth, U) == Some(Docs(es))
    requires if node.kind == Mapping then Merge(Docs(es)) == Some(Docs(kids)) else kids == es
    ensures Denote(node, depth + 1, U) == Some(Doc(node.kind, node.tag, node.value, "", node.comment, Docs(kids)))
  {
    hide Merge, DenoteAll;
  }

  /** The copy of a node over its expanded children, merge keys resolved. */
  method ExpandContent(node: Node, active: Active, ghost U: set<Node>)
    returns (r: Expanded, ghost tree: Option<Tree>, ghost depth: nat)
    requires Closed(U) && active.nodes <= U && node in active.nodes && node.kind != Alias
    requires forall a :: a in active.nodes && a != node ==> Below(a, node, U)
    modifies active
    ensures active.nodes == old(active.nodes)
    ensures r.Ok? ==> tree.Some? && r.node == tree.value.ref && Live(tree.value) && Unshared(tree.value) && fresh(tree.value.nodes)
    ensures r.Ok? ==> Denote(node, depth, U) == Some(tree.value.doc)
    ensures r.Err? ==> forall k: nat :: !Denotes(node, k, U)
    decreases U - active.nodes, 2
  {
    hide Live, Unshared, AllUnshared, AllLive, Denotes, Below, DenoteAll, Denote, Merge;
    tree := None;
    var copy := new Node(node.kind, node.tag, node.value, "", node.comment);
    var fault;
    ghost var kids;
    fault, kids, depth := ExpandChildren(node, copy, active, U);
    if fault.Some? { return Err(fault.value), None, 0; }
    ghost var es := kids;
    if copy.kind == Mapping {
      var ok;
      ok, kids := MergeMapping(copy, es);
      if !ok {
        MergeFailsForGood(node, Docs(es), depth, U);
        return Err(BadMerge), None, 0;
      }
    }
    CopyDenotes(node, depth, es, kids, U);
    depth := depth + 1;
    tree := Some(Tree(copy, {copy} + AllRefs(kids), Doc(node.kind, node.tag, node.value, "", node.comment, Docs(kids)), kids));
    WholeTree(tree.value);
    r := Ok(copy);
  }
}
