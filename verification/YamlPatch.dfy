/** Patching an expanded document in place, and the whole of PatchConfigYAML between
    parsing and encoding. */
module YamlPatch {
  import opened Wrappers
  import opened YamlDoc
  import opened YamlGraph
  import opened YamlExpand

  /** A tree standing by itself on the heap. */
  ghost predicate Standing(t: Tree)
    reads t.nodes
  {
    Live(t) && Unshared(t)
  }

  /** Replacing one kid by a tree made of that kid's nodes, of `extra` ones and of
      ones that are in neither. */
  lemma ReplaceKid(t: Tree, j: nat, c: Tree, extra: set<Node>)
    requires Unshared(t) && t.nodes == {t.ref} + AllRefs(t.kids) && j < |t.kids| && Unshared(c)
    requires c.nodes <= t.kids[j].nodes + extra && extra !! t.nodes
    ensures var kids := t.kids[j := c];
            AllUnshared(kids) && t.ref !in AllRefs(kids) && AllRefs(kids) <= AllRefs(t.kids) + extra
    ensures forall i :: 0 <= i < |t.kids| && i != j ==> t.kids[i].nodes !! c.nodes && t.kids[i].nodes <= t.nodes
  {
    var kids := t.kids[j := c];
    forall i | 0 <= i < |t.kids| ensures t.kids[i].nodes <= AllRefs(t.kids) {}
    forall i | 0 <= i < |kids| ensures kids[i] == if i == j then c else t.kids[i] {}
    forall i | 0 <= i < |t.kids| && i != j ensures t.kids[i].nodes !! c.nodes {
      assert t.kids[i].nodes !! t.kids[j].nodes;
    }
  }

  /** A node that is no mapping is emptied into one. */
  method EnsureMapping(node: Node, ghost t: Tree) returns (ghost m: Tree)
    requires Standing(t) && t.ref == node
    modifies node
    ensures Standing(m) && m.ref == node && m.nodes <= t.nodes
    ensures m.doc == if t.doc.kind == Mapping then t.doc else MAPPING
    ensures t.doc.kind == Mapping ==> m == t && unchanged(node)
  {
    m := t;
    if node.kind != Mapping {
      node.kind, node.tag, node.value, node.anchor, node.comment := Mapping, "!!map", "", "", "";
      node.content, node.alias := [], null;
      m := Tree(node, {node}, MAPPING, []);
    }
  }

  lemma RootIn(t: Tree)
    requires Standing(t)
    ensures t.ref in t.nodes && t.nodes == {t.ref} + AllRefs(t.kids) && RootHolds(t.ref, t.doc, t.kids)
    ensures AllLive(t.kids) && AllUnshared(t.kids) && t.ref !in AllRefs(t.kids)
  {}

  lemma MakeStanding(t: Tree)
    requires RootHolds(t.ref, t.doc, t.kids) && t.nodes == {t.ref} + AllRefs(t.kids)
    requires AllLive(t.kids) && AllUnshared(t.kids) && t.ref !in AllRefs(t.kids)
    ensures Standing(t)
  {}

  lemma KeysHold(t: Tree)
    requires Standing(t)
    ensures t.ref.content == Roots(t.kids) && t.doc.kids == Docs(t.kids)
    ensures forall i :: 0 <= i < |t.kids| ==> t.kids[i].ref.value == t.kids[i].doc.value
  {
    forall i | 0 <= i < |t.kids| ensures t.kids[i].ref.value == t.kids[i].doc.value { assert Live(t.kids[i]); }
  }

  method CopyComments(src: Node, dst: Node)
    modifies dst`comment
    ensures dst.comment == if old(dst.comment) == "" then old(src.comment) else old(dst.comment)
  {
    if dst.comment == "" { dst.comment := src.comment; }
  }

  /** The end of a path: `*node = *replacement`. */
  method Overwrite(node: Node, replacement: Node, ghost t: Tree, ghost rt: Tree) returns (ghost t': Tree)
    requires Standing(t) && Standing(rt) && t.nodes !! rt.nodes && t.ref == node && rt.ref == replacement
    modifies node, replacement`comment
    ensures Standing(t') && t'.ref == node && t'.nodes <= {node} + rt.nodes && t'.doc == Commented(rt.doc, t.doc)
  {
    hide Live, Unshared, AllUnshared, AllLive, AllRefs;
    RootIn(t);
    RootIn(rt);
    CopyComments(node, replacement);
    node.kind, node.tag, node.value := replacement.kind, replacement.tag, replacement.value;
    node.anchor, node.comment := replacement.anchor, replacement.comment;
    node.content, node.alias := replacement.content, replacement.alias;
    t' := Tree(node, {node} + AllRefs(rt.kids), Commented(rt.doc, t.doc), rt.kids);
    MakeStanding(t');
  }

  /** The position of the value of `name` in a mapping, if it has one. */
  method FindValue(node: Node, name: string, ghost m: Tree) returns (at: Option<nat>)
    requires Standing(m) && m.ref == node
    ensures match Find(m.doc.kids, name, 0)
            case None => at == None
            case Some(p) => at == Some(2 * p + 1) && 2 * p + 1 < |m.kids|
  {
    hide Live;
    KeysHold(m);
    var i := 0;
    while i + 1 < |node.content|
      invariant 0 <= i && i % 2 == 0
      invariant Find(m.doc.kids, name, 0) == Find(m.doc.kids, name, i / 2)
    {
      assert Key(m.doc.kids, i / 2) == m.kids[i].doc;
      if node.content[i].value == name { return Some(i + 1); }
      i := i + 2;
    }
    at := None;
  }

  lemma KidStands(t: Tree, j: nat)
    requires Standing(t) && j < |t.kids|
    ensures Standing(t.kids[j]) && t.kids[j].nodes <= t.nodes && t.ref !in t.kids[j].nodes
    ensures t.kids[j].ref == t.ref.content[j] && RootHolds(t.ref, t.doc, t.kids)
    ensures t.nodes == {t.ref} + AllRefs(t.kids)
    ensures AllLive(t.kids[..j]) && AllLive(t.kids[j + 1..])
    ensures AllRefs(t.kids[..j]) !! t.kids[j].nodes && AllRefs(t.kids[j + 1..]) !! t.kids[j].nodes
    ensures AllRefs(t.kids[..j]) <= t.nodes && AllRefs(t.kids[j + 1..]) <= t.nodes
  {
    assert AllUnshared(t.kids);
    assert t.kids[j].nodes <= AllRefs(t.kids);
  }

  lemma KidsLive(kids: seq<Tree>, j: nat, c: Tree)
    requires j < |kids| && AllLive(kids[..j]) && AllLive(kids[j + 1..]) && Live(c)
    ensures AllLive(kids[j := c])
  {
    hide Live;
    var after := kids[j := c];
    forall i | 0 <= i < |after| ensures Live(after[i]) {
      if i < j { assert kids[..j][i] == kids[i]; }
      if i > j { assert kids[j + 1..][i - j - 1] == kids[i]; }
    }
  }

  lemma Reassemble(t: Tree, j: nat, c: Tree, extra: set<Node>)
    requires j < |t.kids| && Unshared(t) && t.nodes == {t.ref} + AllRefs(t.kids) && RootHolds(t.ref, t.doc, t.kids)
    requires AllLive(t.kids[..j]) && AllLive(t.kids[j + 1..])
    requires Standing(c) && c.ref == t.kids[j].ref && c.nodes <= t.kids[j].nodes + extra && extra !! t.nodes
    ensures var kids := t.kids[j := c];
            && Standing(Tree(t.ref, {t.ref} + AllRefs(kids), t.doc.(kids := t.doc.kids[j := c.doc]), kids))
            && AllRefs(kids) <= AllRefs(t.kids) + extra
  {
    hide Live, Unshared, AllUnshared, AllLive, AllRefs;
    var kids := t.kids[j := c];
    RootIn(c);
    StandingParts(c);
    ReplaceKid(t, j, c, extra);
    KidsLive(t.kids, j, c);
    assert Roots(kids) == Roots(t.kids) && Docs(kids) == Docs(t.kids)[j := c.doc];
    MakeStanding(Tree(t.ref, {t.ref} + AllRefs(kids), t.doc.(kids := t.doc.kids[j := c.doc]), kids));
  }

  /** The patched path goes through an existing value. */
  method PatchInside(node: Node, j: nat, parts: seq<string>, replacement: Node, ghost m: Tree, ghost rt: Tree) returns (ghost t': Tree)
    requires |parts| > 0 && j < |m.kids| && j < |node.content|
    requires Standing(m) && Standing(rt) && m.nodes !! rt.nodes && m.ref == node && rt.ref == replacement
    modifies m.nodes, replacement`comment
    ensures Standing(t') && t'.ref == node && fresh(t'.nodes - m.nodes - rt.nodes)
    ensures t'.doc == m.doc.(kids := m.doc.kids[j := PatchDoc(m.doc.kids[j], parts[1..], rt.doc)])
    decreases |parts|, 0
  {
    hide Live, Unshared, AllUnshared, PatchDoc, AllLive;
    KidStands(m, j);
    RootIn(rt);
    RootIn(m);
    assert Unshared(m);
    ghost var c := PatchYamlPath(node.content[j], parts[1..], replacement, m.kids[j], rt);
    ghost var extra := c.nodes - m.kids[j].nodes;
    Reassemble(m, j, c, extra);
    ghost var kids := m.kids[j := c];
    t' := Tree(node, {node} + AllRefs(kids), m.doc.(kids := m.doc.kids[j := c.doc]), kids);
  }

  lemma PatchDocStep(d: Doc, m: Doc, parts: seq<string>, v: Doc)
    requires |parts| > 0 && m == if d.kind == Mapping then d else MAPPING
    ensures PatchDoc(d, parts, v) ==
            match Find(m.kids, parts[0], 0)
            case Some(p) => m.(kids := m.kids[2 * p + 1 := PatchDoc(m.kids[2 * p + 1], parts[1..], v)])
            case None => m.(kids := m.kids + [KeyNode(parts[0]), PatchDoc(BLANK, parts[1..], v)])
  {}

  /** patchYAMLPath: the node and its subtree are updated in place, keeping a
      standing tree that holds exactly the patched document. */
  method PatchYamlPath(node: Node, parts: seq<string>, replacement: Node, ghost t: Tree, ghost rt: Tree) returns (ghost t': Tree)
    requires Standing(t) && Standing(rt) && t.nodes !! rt.nodes && t.ref == node && rt.ref == replacement
    modifies t.nodes, replacement`comment
    ensures Standing(t') && t'.ref == node && t'.doc == PatchDoc(t.doc, parts, rt.doc)
    ensures fresh(t'.nodes - t.nodes - rt.nodes)
    decreases |parts|, 1
  {
    if |parts| == 0 {
      t' := Overwrite(node, replacement, t, rt);
      return;
    }
    ghost var m := EnsureMapping(node, t);
    var at := FindValue(node, parts[0], m);
    PatchDocStep(t.doc, m.doc, parts, rt.doc);
    if at.Some? {
      t' := PatchInside(node, at.value, parts, replacement, m, rt);
    } else {
      t' := PatchNewKey(node, parts, replacement, m, rt);
    }
  }

  /** The patched path starts with a key the mapping does not have. */
  method PatchNewKey(node: Node, parts: seq<string>, replacement: Node, ghost m: Tree, ghost rt: Tree) returns (ghost t': Tree)
    requires |parts| > 0
    requires Standing(m) && Standing(rt) && m.nodes !! rt.nodes && m.ref == node && rt.ref == replacement
    modifies m.nodes, replacement`comment
    ensures Standing(t') && t'.ref == node && fresh(t'.nodes - m.nodes - rt.nodes)
    ensures t'.doc == m.doc.(kids := m.doc.kids + [KeyNode(parts[0]), PatchDoc(BLANK, parts[1..], rt.doc)])
    decreases |parts|, 0
  {
    hide Live, Unshared, AllUnshared, PatchDoc, AllLive, AllRefs;
    RootIn(rt);
    RootIn(m);
    var key := new Node(Scalar, "!!str", parts[0], "", "");
    var val := new Node(Blank, "", "", "", "");
    node.content := node.content + [key, val];
    ghost var k, v := Tree(key, {key}, KeyNode(parts[0]), []), Tree(val, {val}, BLANK, []);
    NewNodeStands(k);
    NewNodeStands(v);
    v := PatchYamlPath(val, parts[1..], replacement, v, rt);
    NewNodeStands(k);
    AppendApart(m.kids, k);
    AppendApart(m.kids + [k], v);
    ghost var kids := m.kids + [k] + [v];
    t' := Tree(node, {node} + AllRefs(kids), m.doc.(kids := m.doc.kids + [KeyNode(parts[0]), v.doc]), kids);
    MakeStanding(t');
  }

  lemma NewNodeStands(t: Tree)
    requires t.kids == [] && t.nodes == {t.ref} && RootHolds(t.ref, t.doc, [])
    ensures Standing(t)
  {}

  // ---------- PatchConfigYAML ----------

  /** Encoding a configuration value: a fresh tree holding it. */
  method Encode(d: Doc) returns (node: Node, ghost t: Tree)
    ensures Standing(t) && t.ref == node && t.doc == d && fresh(t.nodes)
    decreases d
  {
    hide Live, Unshared, AllUnshared, AllLive, Standing, AllRefs;
    node := new Node(d.kind, d.tag, d.value, d.anchor, d.comment);
    ghost var kids: seq<Tree>, below: set<Node> := [], {};
    NoKids();
    for i := 0 to |d.kids|
      invariant node.kind == d.kind && node.tag == d.tag && node.value == d.value && node.anchor == d.anchor && node.comment == d.comment
      invariant node.content == Roots(kids) && Docs(kids) == d.kids[..i]
      invariant AllLive(kids) && AllUnshared(kids) && below == AllRefs(kids) && fresh(below) && fresh(node) && node !in below
    {
      var child, c := Encode(d.kids[i]);
      RootIn(c);
      StandingParts(c);
      AppendApart(kids, c);
      node.content := node.content + [child];
      kids, below := kids + [c], below + c.nodes;
    }
    t := Tree(node, {node} + AllRefs(kids), d, kids);
    MakeStanding(t);
  }

  lemma NoKids()
    ensures AllLive([]) && AllUnshared([]) && AllRefs([]) == {}
  {}

  lemma StandingParts(t: Tree)
    ensures Standing(t) <==> Live(t) && Unshared(t)
  {}

  /** One path of patchConfigPaths, applied below the document node. */
  method PatchBelow(document: Node, edit: Edit, ghost t: Tree) returns (ghost t': Tree)
    requires Standing(t) && t.ref == document && |t.kids| > 0
    modifies t.nodes
    ensures Standing(t') && t'.ref == document && fresh(t'.nodes - t.nodes)
    ensures t'.doc == t.doc.(kids := t.doc.kids[0 := PatchDoc(t.doc.kids[0], edit.path, edit.value)]) && |t'.kids| > 0
  {
    hide Live, Unshared, AllUnshared, AllLive, PatchDoc, AllRefs;
    var replacement, rt := Encode(edit.value);
    KidStands(t, 0);
    RootIn(t);
    RootIn(rt);
    StandingParts(t);
    ghost var c := PatchYamlPath(document.content[0], edit.path, replacement, t.kids[0], rt);
    ghost var extra := c.nodes - t.kids[0].nodes;
    Reassemble(t, 0, c, extra);
    ghost var kids := t.kids[0 := c];
    t' := Tree(document, {document} + AllRefs(kids), t.doc.(kids := t.doc.kids[0 := c.doc]), kids);
  }

  /** A requested path; no value when the configuration has no such field. */
  datatype Request = Request(path: seq<string>, value: Option<Doc>)

  ghost function Edits(requests: seq<Request>): (es: seq<Edit>)
    requires forall i :: 0 <= i < |requests| ==> requests[i].value.Some?
    ensures |es| == |requests| && forall i :: 0 <= i < |es| ==> es[i] == Edit(requests[i].path, requests[i].value.value)
  {
    seq(|requests|, i requires 0 <= i < |requests| => Edit(requests[i].path, requests[i].value.value))
  }

  /** patchConfigPaths: the requested paths in order, up to the first unknown one. */
  method PatchConfigPaths(document: Node, requests: seq<Request>, ghost t: Tree) returns (ok: bool, ghost t': Tree)
    requires Standing(t) && t.ref == document && |t.kids| > 0 && |t.doc.kids| > 0
    modifies t.nodes
    ensures ok <==> forall i :: 0 <= i < |requests| ==> requests[i].value.Some?
    ensures ok ==> Standing(t') && t'.ref == document && fresh(t'.nodes - t.nodes)
                   && t'.doc == t.doc.(kids := t.doc.kids[0 := PatchAll(t.doc.kids[0], Edits(requests))])
  {
    hide Live, Unshared, AllUnshared, AllLive, PatchDoc, AllRefs, PatchAll;
    t' := t;
    ghost var d := t.doc;
    PatchNone(d.kids[0]);
    assert d.(kids := d.kids[0 := d.kids[0]]) == d;
    for i := 0 to |requests|
      invariant forall j :: 0 <= j < i ==> requests[j].value.Some?
      invariant Standing(t') && t'.ref == document && fresh(t'.nodes - t.nodes) && |t'.kids| > 0
      invariant t'.doc == d.(kids := d.kids[0 := PatchAll(d.kids[0], Edits(requests[..i]))])
    {
      if requests[i].value.None? { return false, t'; }
      var edit := Edit(requests[i].path, requests[i].value.value);
      t' := PatchBelow(document, edit, t');
      assert Edits(requests[..i + 1]) == Edits(requests[..i]) + [edit];
      PatchLast(d.kids[0], Edits(requests[..i]), edit);
    }
    assert requests[..|requests|] == requests;
    ok := true;
  }

  /** What the parsed source means: an empty source is an empty mapping. */
  ghost function SourceDoc(document: Node, depth: nat, U: set<Node>): Option<Doc>
    requires Closed(U) && document in U
    reads U
  {
    if document.content == [] then Some(Doc(Document, "", "", "", "", [MAPPING])) else Denote(document, depth, U)
  }

  /** PatchConfigYAML between parsing and encoding: the result is a standing tree over
      the source's expanded document with exactly the requested edits made. */
  method PatchConfigYaml(document: Node, requests: seq<Request>, banner: string, ghost U: set<Node>)
    returns (out: Option<Node>, ghost t: Option<Tree>, ghost depth: nat)
    requires Closed(U) && document in U && (document.content != [] ==> document.kind == Document)
    ensures out.Some? ==>
      && (forall i :: 0 <= i < |requests| ==> requests[i].value.Some?)
      && SourceDoc(document, depth, U).Some? && t.Some? && t.value.ref == out.value && Standing(t.value) && fresh(t.value.nodes)
      && var d := SourceDoc(document, depth, U).value;
         |d.kids| > 0 && t.value.doc == d.(comment := if banner == "" then d.comment else banner,
                                          kids := d.kids[0 := PatchAll(d.kids[0], Edits(requests))])
    ensures out.None? ==> (exists i :: 0 <= i < |requests| && requests[i].value.None?) || forall k: nat :: SourceDoc(document, k, U).None?
  {
    hide Live, Unshared, AllUnshared, AllLive, PatchDoc, AllRefs, PatchAll, Denotes;
    out, t, depth := None, None, 0;
    var root: Node;
    ghost var tree: Tree;
    if |document.content| == 0 {
      root, tree := Encode(Doc(Document, "", "", "", "", [MAPPING]));
    } else {
      var active := new Active();
      var r, et, d := ExpandYamlNode(document, active, U);
      if r.Err? { NoDocument(document, U); return; }
      root, tree, depth := r.node, et.value, d;
      StandingParts(tree);
      DocumentHasRoot(document, depth, U);
    }
    ghost var d := tree.doc;
    KeysHold(tree);
    var ok;
    ok, tree := PatchConfigPaths(root, requests, tree);
    if !ok { return; }
    if banner != "" {
      RootIn(tree);
      root.comment := banner;
      tree := tree.(doc := tree.doc.(comment := banner));
      MakeStanding(tree);
    }
    out, t := Some(root), Some(tree);
  }

  lemma NoDocument(document: Node, U: set<Node>)
    requires Closed(U) && document in U && document.content != [] && forall k: nat :: !Denotes(document, k, U)
    ensures forall k: nat :: SourceDoc(document, k, U).None?
  {
    forall k: nat ensures SourceDoc(document, k, U).None? { assert !Denotes(document, k, U); }
  }

  lemma DocumentHasRoot(document: Node, depth: nat, U: set<Node>)
    requires Closed(U) && document in U && document.content != [] && document.kind == Document && Denote(document, depth, U).Some?
    ensures |Denote(document, depth, U).value.kids| == |document.content|
  {}

  lemma PatchNone(d: Doc)
    ensures PatchAll(d, []) == d
  {}

  lemma PatchLast(d: Doc, edits: seq<Edit>, edit: Edit)
    ensures PatchAll(d, edits + [edit]) == PatchDoc(PatchAll(d, edits), edit.path, edit.value)
  {
    assert (edits + [edit])[..|edits|] == edits;
  }
}
