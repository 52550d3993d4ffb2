/** The node graph of a parsed document, possibly shared and cyclic through
    aliases, and its expansion into an independent tree, in place on the heap. */
module YamlGraph {
  import opened Wrappers
  import opened YamlDoc

  class Node {
    var kind: Kind
    var tag: string
    var value: string
    var anchor: string
    var comment: string
    var content: seq<Node?>
    var alias: Node?

    constructor (kind: Kind, tag: string, value: string, anchor: string, comment: string)
      ensures this.kind == kind && this.tag == tag && this.value == value
      ensures this.anchor == anchor && this.comment == comment && content == [] && alias == null
    {
      this.kind, this.tag, this.value, this.anchor, this.comment := kind, tag, value, anchor, comment;
      content, alias := [], null;
    }
  }

  /** The set `active` of the source: the nodes being expanded right now. */
  class Active {
    var nodes: set<Node>

    constructor ()
      ensures nodes == {}
    {
      nodes := {};
    }
  }

  // ---------- Trees on the heap ----------

  /** A tree with the heap node of each vertex and the set of all nodes below it. */
  datatype Tree = Tree(ref: Node, nodes: set<Node>, doc: Doc, kids: seq<Tree>)

  ghost function Docs(ts: seq<Tree>): (ds: seq<Doc>)
    ensures |ds| == |ts| && forall i :: 0 <= i < |ts| ==> ds[i] == ts[i].doc
  {
    seq(|ts|, i requires 0 <= i < |ts| => ts[i].doc)
  }

  ghost function Roots(ts: seq<Tree>): (rs: seq<Node?>)
    ensures |rs| == |ts| && forall i :: 0 <= i < |ts| ==> rs[i] == ts[i].ref
  {
    seq(|ts|, i requires 0 <= i < |ts| => ts[i].ref)
  }

  ghost function AllRefs(ts: seq<Tree>): set<Node> {
    set i, n | 0 <= i < |ts| && n in ts[i].nodes :: n
  }

  /** The heap holds exactly the document `t.doc` at `t.ref`. */
  ghost predicate Live(t: Tree)
    reads t.nodes
  {
    && t.nodes == {t.ref} + AllRefs(t.kids)
    && t.ref.kind == t.doc.kind && t.ref.tag == t.doc.tag && t.ref.value == t.doc.value
    && t.ref.anchor == t.doc.anchor && t.ref.comment == t.doc.comment
    && t.ref.content == Roots(t.kids) && t.doc.kids == Docs(t.kids)
    && forall i :: 0 <= i < |t.kids| ==> Live(t.kids[i])
  }

  ghost predicate AllLive(ts: seq<Tree>)
    reads AllRefs(ts)
  {
    forall i :: 0 <= i < |ts| ==> Live(ts[i])
  }

  /** No heap node occurs twice. */
  ghost predicate Unshared(t: Tree) { t.ref !in AllRefs(t.kids) && AllUnshared(t.kids) }

  ghost predicate AllUnshared(ts: seq<Tree>) {
    && (forall i :: 0 <= i < |ts| ==> Unshared(ts[i]))
    && (forall i, j :: 0 <= i < j < |ts| ==> ts[i].nodes !! ts[j].nodes)
  }

  /** The root of a tree holds the attributes of `d` over the given kids. */
  ghost predicate RootHolds(node: Node, d: Doc, kids: seq<Tree>)
    reads node
  {
    && node.kind == d.kind && node.tag == d.tag && node.value == d.value && node.anchor == d.anchor && node.comment == d.comment
    && node.content == Roots(kids) && d.kids == Docs(kids)
  }

  lemma WholeTree(t: Tree)
    requires RootHolds(t.ref, t.doc, t.kids) && t.nodes == {t.ref} + AllRefs(t.kids)
    requires AllLive(t.kids) && AllUnshared(t.kids) && t.ref !in AllRefs(t.kids)
    ensures Live(t) && Unshared(t)
  {}

  // ---------- What a graph denotes ----------

  ghost predicate Closed(U: set<Node>)
    reads U
  {
    forall n: Node :: n in U ==>
      && (n.alias != null ==> n.alias in U)
      && forall i :: 0 <= i < |n.content| ==> n.content[i] != null ==> n.content[i] in U
  }

  /** The document at `n` when aliases and merges are followed to depth `k`; none if
      that depth is too small, a node is missing or a merge value is no mapping. */
  ghost function Denote(n: Node?, k: nat, U: set<Node>): Option<Doc>
    requires Closed(U) && (n != null ==> n in U)
    reads U
    decreases k, 0
  {
    if n == null || k == 0 then None
    else if n.kind == Alias then Denote(n.alias, k - 1, U)
    else
      match DenoteAll(n.content, k - 1, U)
      case None => None
      case Some(kids) => Finish(n, kids)
  }

  ghost function DenoteAll(ns: seq<Node?>, k: nat, U: set<Node>): (ds: Option<seq<Doc>>)
    requires Closed(U) && forall i :: 0 <= i < |ns| ==> ns[i] != null ==> ns[i] in U
    ensures ds.Some? ==> |ds.value| == |ns|
    reads U
    decreases k, 1 + |ns|
  {
    if ns == [] then Some([])
    else
      match (DenoteAll(ns[..|ns| - 1], k, U), Denote(ns[|ns| - 1], k, U))
      case (Some(ds), Some(d)) => Some(ds + [d])
      case _ => None
  }

  /** The node itself over its expanded entries: no anchor, merges resolved. */
  ghost function Finish(n: Node, kids: seq<Doc>): Option<Doc>
    reads n
  {
    if n.kind != Mapping then Some(Doc(n.kind, n.tag, n.value, "", n.comment, kids))
    else
      match Merge(kids)
      case None => None
      case Some(fields) => Some(Doc(n.kind, n.tag, n.value, "", n.comment, fields))
  }

  ghost predicate Denotes(n: Node?, k: nat, U: set<Node>)
    requires Closed(U) && (n != null ==> n in U)
    reads U
  {
    Denote(n, k, U).Some?
  }

  lemma {:induction false} DenoteDeeper(n: Node?, k: nat, U: set<Node>)
    requires Closed(U) && (n != null ==> n in U) && Denotes(n, k, U)
    ensures Denote(n, k + 1, U) == Denote(n, k, U)
    decreases k, 0
  {
    if n.kind == Alias {
      DenoteDeeper(n.alias, k - 1, U);
    } else {
      DenoteAllDeeper(n.content, k - 1, U);
    }
  }

  lemma {:induction false} DenoteAllDeeper(ns: seq<Node?>, k: nat, U: set<Node>)
    requires Closed(U) && (forall i :: 0 <= i < |ns| ==> ns[i] != null ==> ns[i] in U) && DenoteAll(ns, k, U).Some?
    ensures DenoteAll(ns, k + 1, U) == DenoteAll(ns, k, U)
    decreases k, 1 + |ns|
  {
    if ns != [] {
      DenoteAllDeeper(ns[..|ns| - 1], k, U);
      DenoteDeeper(ns[|ns| - 1], k, U);
    }
  }

  lemma {:induction false} DenoteAtLeast(n: Node?, k: nat, k': nat, U: set<Node>)
    requires Closed(U) && (n != null ==> n in U) && Denotes(n, k, U) && k <= k'
    ensures Denote(n, k', U) == Denote(n, k, U)
    decreases k' - k
  {
    if k < k' {
      DenoteDeeper(n, k, U);
      DenoteAtLeast(n, k + 1, k', U);
    }
  }

  lemma {:induction false} DenoteAllAtLeast(ns: seq<Node?>, k: nat, k': nat, U: set<Node>)
    requires Closed(U) && (forall i :: 0 <= i < |ns| ==> ns[i] != null ==> ns[i] in U) && DenoteAll(ns, k, U).Some? && k <= k'
    ensures DenoteAll(ns, k', U) == DenoteAll(ns, k, U)
    decreases k' - k
  {
    if k < k' {
      DenoteAllDeeper(ns, k, U);
      DenoteAllAtLeast(ns, k + 1, k', U);
    }
  }

  lemma {:induction false} DenoteAllElement(ns: seq<Node?>, k: nat, U: set<Node>, i: nat)
    requires Closed(U) && (forall j :: 0 <= j < |ns| ==> ns[j] != null ==> ns[j] in U)
    requires DenoteAll(ns, k, U).Some? && i < |ns|
    ensures Denotes(ns[i], k, U) && DenoteAll(ns, k, U).value[i] == Denote(ns[i], k, U).value
  {
    if i < |ns| - 1 { DenoteAllElement(ns[..|ns| - 1], k, U, i); }
  }

  lemma {:induction false} DenoteAllPrefix(ns: seq<Node?>, k: nat, U: set<Node>, i: nat)
    requires Closed(U) && (forall j :: 0 <= j < |ns| ==> ns[j] != null ==> ns[j] in U)
    requires DenoteAll(ns, k, U).Some? && i <= |ns|
    ensures DenoteAll(ns[..i], k, U).Some?
  {
    if i < |ns| {
      assert ns[..|ns| - 1][..i] == ns[..i];
      DenoteAllPrefix(ns[..|ns| - 1], k, U, i);
    } else {
      assert ns[..i] == ns;
    }
  }

  /** What a graph denotes is clean. */
  lemma {:induction false} DenotedClean(n: Node?, k: nat, U: set<Node>)
    requires Closed(U) && (n != null ==> n in U) && Denotes(n, k, U)
    ensures Clean(Denote(n, k, U).value)
    decreases k, 0
  {
    if n.kind == Alias {
      DenotedClean(n.alias, k - 1, U);
    } else {
      DenotedAllClean(n.content, k - 1, U);
      var kids := DenoteAll(n.content, k - 1, U).value;
      if n.kind == Mapping { MergeClean(kids); }
    }
  }

  lemma {:induction false} DenotedAllClean(ns: seq<Node?>, k: nat, U: set<Node>)
    requires Closed(U) && (forall i :: 0 <= i < |ns| ==> ns[i] != null ==> ns[i] in U) && DenoteAll(ns, k, U).Some?
    ensures AllClean(DenoteAll(ns, k, U).value)
    decreases k, 1 + |ns|
  {
    if ns != [] {
      DenotedAllClean(ns[..|ns| - 1], k, U);
      DenotedClean(ns[|ns| - 1], k, U);
    }
  }

  // ---------- Cycles ----------

  /** `a` can denote only if `n` denotes at a smaller depth. */
  ghost predicate Below(a: Node, n: Node?, U: set<Node>)
    requires Closed(U) && a in U && (n != null ==> n in U)
    reads U
  {
    forall k: nat :: Denotes(a, k, U) ==> k > 0 && Denotes(n, k - 1, U)
  }

  /** A node that must denote below itself denotes nothing. */
  lemma {:induction false} CycleDenotesNothing(a: Node, U: set<Node>, k: nat)
    requires Closed(U) && a in U && Below(a, a, U)
    ensures !Denotes(a, k, U)
  {
    if k > 0 && Denotes(a, k, U) { CycleDenotesNothing(a, U, k - 1); }
  }

  lemma BelowChild(a: Node, n: Node, child: Node?, U: set<Node>)
    requires Closed(U) && a in U && n in U && (child != null ==> child in U)
    requires Below(a, n, U) && Below(n, child, U)
    ensures Below(a, child, U)
  {
    forall k: nat | Denotes(a, k, U) ensures k > 0 && Denotes(child, k - 1, U) {
      assert Denotes(n, k - 1, U);
      assert Denotes(child, k - 2, U);
      DenoteDeeper(child, k - 2, U);
    }
  }

  lemma BelowAlias(n: Node, U: set<Node>)
    requires Closed(U) && n in U && n.kind == Alias
    ensures Below(n, n.alias, U)
  {}

  lemma BelowContent(n: Node, i: nat, U: set<Node>)
    requires Closed(U) && n in U && n.kind != Alias && i < |n.content|
    ensures Below(n, n.content[i], U)
  {
    forall k: nat | Denotes(n, k, U) ensures k > 0 && Denotes(n.content[i], k - 1, U) {
      DenoteAllElement(n.content, k - 1, U, i);
    }
  }

  // ---------- Which graphs denote ----------

  ghost predicate Edge(m: Node, c: Node?)
    reads m
  {
    if m.kind == Alias then c == m.alias else c in m.content
  }

  /** A walk along aliases and children inside the graph. */
  ghost predicate Walk(p: seq<Node>, U: set<Node>)
    requires Closed(U)
    reads U
  {
    && (forall i :: 0 <= i < |p| ==> p[i] in U)
    && (forall i :: 0 <= i < |p| - 1 ==> Edge(p[i], p[i + 1]))
  }

  lemma EdgeBelow(m: Node, c: Node?, U: set<Node>)
    requires Closed(U) && m in U && (c != null ==> c in U) && Edge(m, c)
    ensures Below(m, c, U)
  {
    if m.kind != Alias {
      var i :| 0 <= i < |m.content| && m.content[i] == c;
      BelowContent(m, i, U);
    }
  }

  lemma {:induction false} WalkBelow(p: seq<Node>, U: set<Node>)
    requires Closed(U) && Walk(p, U) && |p| >= 2
    ensures Below(p[0], p[|p| - 1], U)
  {
    var n := |p| - 1;
    EdgeBelow(p[n - 1], p[n], U);
    if n > 1 {
      WalkBelow(p[..n], U);
      BelowChild(p[0], p[n - 1], p[n], U);
    }
  }

  /** A node on a cycle of aliases and children denotes nothing at any depth. */
  lemma CyclicDenotesNothing(p: seq<Node>, U: set<Node>, k: nat)
    requires Closed(U) && Walk(p, U) && |p| >= 2 && p[0] == p[|p| - 1]
    ensures !Denotes(p[0], k, U)
  {
    WalkBelow(p, U);
    CycleDenotesNothing(p[0], U, k);
  }

  /** Nothing is missing below a node, and its children rank lower. */
  ghost predicate Ranked(rank: map<Node, nat>, U: set<Node>)
    requires Closed(U)
    reads U
  {
    && U <= rank.Keys
    && (forall m :: m in U && m.kind == Alias ==> m.alias != null && rank[m.alias] < rank[m])
    && (forall m, c :: m in U && m.kind != Alias && c in m.content ==> c != null && rank[c] < rank[m])
  }

  ghost predicate MergesWellFormed(U: set<Node>)
    requires Closed(U)
    reads U
  {
    forall m: Node, k: nat :: m in U && m.kind == Mapping && DenoteAll(m.content, k, U).Some?
                              ==> Merge(DenoteAll(m.content, k, U).value).Some?
  }

  /** Cycles, missing nodes and bad merge values are the only obstacles. */
  lemma {:induction false} RankedDenotes(n: Node, rank: map<Node, nat>, U: set<Node>)
    requires Closed(U) && n in U && Ranked(rank, U) && MergesWellFormed(U)
    ensures Denotes(n, rank[n] + 1, U)
    decreases rank[n]
  {
    hide Denote, DenoteAll, MergesWellFormed, Ranked;
    RanksBelow(n, rank, U);
    if n.kind == Alias {
      RankedDenotes(n.alias, rank, U);
      DenoteAtLeast(n.alias, rank[n.alias] + 1, rank[n], U);
      AliasDenotes(n, rank[n], U);
    } else {
      forall i | 0 <= i < |n.content| ensures Denotes(n.content[i], rank[n], U) {
        RankedDenotes(n.content[i], rank, U);
        DenoteAtLeast(n.content[i], rank[n.content[i]] + 1, rank[n], U);
      }
      AllDenote(n.content, rank[n], U);
      Finishes(n, rank[n], U);
    }
  }

  lemma RanksBelow(n: Node, rank: map<Node, nat>, U: set<Node>)
    requires Closed(U) && n in U && Ranked(rank, U)
    ensures n in rank
    ensures n.kind == Alias ==> n.alias != null && n.alias in U && n.alias in rank && rank[n.alias] < rank[n]
    ensures n.kind != Alias ==> forall i :: 0 <= i < |n.content| ==>
              n.content[i] != null && n.content[i] in U && n.content[i] in rank && rank[n.content[i]] < rank[n]
  {
    if n.kind != Alias {
      forall i | 0 <= i < |n.content|
        ensures n.content[i] != null && n.content[i] in U && n.content[i] in rank && rank[n.content[i]] < rank[n]
      {
        var c := n.content[i];
        assert c in n.content;
        assert c != null && rank[c] < rank[n];
      }
    }
  }

  lemma Finishes(n: Node, k: nat, U: set<Node>)
    requires Closed(U) && n in U && n.kind != Alias && MergesWellFormed(U) && DenoteAll(n.content, k, U).Some?
    ensures Denotes(n, k + 1, U)
  {
    hide Merge, DenoteAll;
  }

  /** An alias denotes what its target does. */
  lemma AliasDenotes(node: Node, depth: nat, U: set<Node>)
    requires Closed(U) && node in U && node.kind == Alias
    ensures Denote(node, depth + 1, U) == Denote(node.alias, depth, U)
    ensures Denotes(node.alias, depth, U) <==> Denotes(node, depth + 1, U)
    ensures (forall k: nat :: !Denotes(node.alias, k, U)) ==> forall k: nat :: !Denotes(node, k, U)
  {
    forall k: nat | Denotes(node, k, U) ensures Denotes(node.alias, k - 1, U) {}
  }

  lemma {:induction false} AllDenote(ns: seq<Node?>, k: nat, U: set<Node>)
    requires Closed(U) && forall i :: 0 <= i < |ns| ==> (ns[i] != null ==> ns[i] in U) && Denotes(ns[i], k, U)
    ensures DenoteAll(ns, k, U).Some?
  {
    if ns != [] { AllDenote(ns[..|ns| - 1], k, U); }
  }

  // ---------- What is denoted ----------

  /** An alias denotes what its target does; any other node keeps its kind, tag, value and
      comment, and has below it what its children denote, the fields of a mapping merged. */
  lemma DenotedShape(n: Node, k: nat, U: set<Node>) returns (below: seq<Doc>)
    requires Closed(U) && n in U && Denotes(n, k + 1, U)
    ensures n.kind == Alias ==> Denote(n, k + 1, U) == Denote(n.alias, k, U)
    ensures n.kind != Alias ==>
              var d := Denote(n, k + 1, U).value;
              && d.kind == n.kind && d.tag == n.tag && d.value == n.value && d.comment == n.comment && d.anchor == ""
              && |below| == |n.content| && (forall i :: 0 <= i < |below| ==> Denote(n.content[i], k, U) == Some(below[i]))
              && if n.kind == Mapping then Merge(below) == Some(d.kids) else d.kids == below
  {
    below := [];
    if n.kind != Alias {
      below := DenoteAll(n.content, k, U).value;
      forall i | 0 <= i < |below| ensures Denote(n.content[i], k, U) == Some(below[i]) {
        DenoteAllElement(n.content, k, U, i);
      }
    }
  }

  /** A tree that is expanded already denotes itself. */
  lemma {:induction false} TreeDenotesItself(t: Tree, U: set<Node>) returns (k: nat)
    requires Closed(U) && Live(t) && Clean(t.doc) && t.nodes <= U
    ensures Denote(t.ref, k, U) == Some(t.doc)
    decreases t, 0
  {
    forall i | 0 <= i < |t.kids| ensures Clean(t.kids[i].doc) { assert t.doc.kids[i] == t.kids[i].doc; }
    var below := TreesDenote(t.kids, U);
    k := below + 1;
    if t.doc.kind == Mapping { MergeOfPlain(t.doc.kids); }
  }

  /** A live tree of a list lies in every set that holds the list's nodes. */
  lemma RefsWithin(ts: seq<Tree>, i: nat, U: set<Node>)
    requires i < |ts| && Live(ts[i]) && AllRefs(ts) <= U
    ensures ts[i].nodes <= U && ts[i].ref in U
  {
    forall n | n in ts[i].nodes ensures n in U { assert n in AllRefs(ts); }
  }

  /** Documents of a list, one more, at a depth that is enough for both. */
  lemma OneMoreDenotes(ns: seq<Node?>, ds: seq<Doc>, last: Node, d: Doc, a: nat, b: nat, U: set<Node>) returns (k: nat)
    requires Closed(U) && last in U && forall i :: 0 <= i < |ns| ==> ns[i] != null ==> ns[i] in U
    requires DenoteAll(ns, a, U) == Some(ds) && Denote(last, b, U) == Some(d)
    ensures DenoteAll(ns + [last], k, U) == Some(ds + [d])
  {
    hide Closed;
    k := if a < b then b else a;
    DenoteAllAtLeast(ns, a, k, U);
    DenoteAtLeast(last, b, k, U);
    var all := ns + [last];
    assert all[..|all| - 1] == ns && all[|all| - 1] == last;
  }

  lemma {:induction false} TreesDenote(ts: seq<Tree>, U: set<Node>) returns (k: nat)
    requires Closed(U) && AllLive(ts) && AllRefs(ts) <= U && forall i :: 0 <= i < |ts| ==> Clean(ts[i].doc)
    ensures (forall i :: 0 <= i < |ts| ==> ts[i].ref in U) && DenoteAll(Roots(ts), k, U) == Some(Docs(ts))
    decreases ts, 1
  {
    hide Closed, Clean, Denote, Live, Unshared;
    forall i | 0 <= i < |ts| ensures ts[i].ref in U && ts[i].nodes <= U { RefsWithin(ts, i, U); }
    if ts == [] {
      k := 0;
    } else {
      var n := |ts| - 1;
      var front, last := ts[..n], ts[n];
      var a := TreesDenote(front, U);
      var b := TreeDenotesItself(last, U);
      k := OneMoreDenotes(Roots(front), Docs(front), last.ref, last.doc, a, b, U);
      assert Roots(ts) == Roots(front) + [last.ref] && Docs(ts) == Docs(front) + [last.doc];
    }
  }
}
