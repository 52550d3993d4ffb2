/** The entry check of a doSPCX archive: one pass over the headers against a
    predicate on the entries that does not mention their order. */
module Archive {
  import opened Text

  datatype Type = Dir | Reg | GlobalHeader | Other

  /** A tar header; `readable` says whether the announced content can be read. */
  datatype Entry = Entry(name: string, typ: Type, size: int, readable: bool)

  const MAX_EXPANDED := 0x200_0000
  const MAX_ENTRIES := 4096
  const REQUIRED_DIRECTORIES := ["data", "data/features", "data/profiles", "data/templates"]
  const REQUIRED_FILES := ["data/execution-groups.yaml", "data/formulas.yaml", "data/hca-types.yaml",
                           "data/phase-config.yaml", "data/platform-types.yaml"]

  // ---------- Paths ----------

  function LastSlash(s: string): int { LastIndex(s, '/') }

  /** path.Dir on a clean relative path. */
  function Parent(s: string): string { if LastSlash(s) < 0 then "." else s[..LastSlash(s)] }

  predicate IsAncestor(p: string, s: string) { p + "/" <= s }

  /** No segment is empty, "." or "..": what path.Clean leaves as it is. */
  predicate CleanSegments(s: string)
    decreases |s|
  {
    var last := s[LastSlash(s) + 1..];
    last !in {"", ".", ".."} && (LastSlash(s) >= 0 ==> CleanSegments(s[..LastSlash(s)]))
  }

  function TrimSlash(name: string): string {
    if name != "" && name[|name| - 1] == '/' then name[..|name| - 1] else name
  }

  function Name(e: Entry): string { TrimSlash(e.name) }

  /** A clean path at or below data, without NUL and backslash. */
  predicate ValidName(name: string) {
    && name != "" && '\0' !in name && '\\' !in name && CleanSegments(name)
    && (name == "data" || "data/" <= name)
  }

  lemma AncestorStep(p: string, s: string)
    requires LastSlash(s) >= 0
    ensures IsAncestor(p, s) <==> p == Parent(s) || IsAncestor(p, Parent(s))
  {
    var k := LastSlash(s);
    if IsAncestor(p, s) { assert s[|p|] == '/' && p == s[..|p|]; }
    if p == Parent(s) { assert p + "/" == s[..k + 1]; }
  }

  lemma NoAncestors(p: string, s: string)
    requires LastSlash(s) < 0
    ensures !IsAncestor(p, s)
  {
    var t := p + "/";
    assert t[|p|] == '/' && '/' !in s;
  }

  /** The ancestors of a path are its parent, if it has one, and the parent's. */
  lemma AncestorsOf(s: string)
    ensures if LastSlash(s) < 0 then forall p :: !IsAncestor(p, s)
            else IsAncestor(Parent(s), s) && forall p :: IsAncestor(p, s) <==> p == Parent(s) || IsAncestor(p, Parent(s))
  {
    if LastSlash(s) < 0 {
      forall p ensures !IsAncestor(p, s) { NoAncestors(p, s); }
    } else {
      AncestorStep(Parent(s), s);
      forall p ensures IsAncestor(p, s) <==> p == Parent(s) || IsAncestor(p, Parent(s)) { AncestorStep(p, s); }
    }
  }

  // ---------- What is accepted ----------

  predicate Counts(e: Entry) { e.typ != GlobalHeader }

  predicate GoodEntry(e: Entry) {
    Counts(e) ==> ValidName(Name(e)) && e.typ in {Dir, Reg} && (e.typ == Reg ==> e.size >= 0 && e.readable)
  }

  function FileSize(e: Entry): int { if e.typ == Reg then e.size else 0 }

  function TotalSize(es: seq<Entry>): int {
    if es == [] then 0 else TotalSize(es[..|es| - 1]) + FileSize(es[|es| - 1])
  }

  /** Names are distinct and no file lies above another entry. */
  ghost predicate Compatible(a: Entry, b: Entry) {
    !(Counts(a) && Counts(b))
    || (&& Name(a) != Name(b)
        && (a.typ == Reg ==> !IsAncestor(Name(a), Name(b))) && (b.typ == Reg ==> !IsAncestor(Name(b), Name(a))))
  }

  ghost predicate AllCompatible(es: seq<Entry>) { forall i, j :: 0 <= i < j < |es| ==> Compatible(es[i], es[j]) }

  ghost predicate AllGood(es: seq<Entry>) { forall i :: 0 <= i < |es| ==> GoodEntry(es[i]) }

  ghost predicate Fits(es: seq<Entry>) {
    |es| <= MAX_ENTRIES && TotalSize(es) <= MAX_EXPANDED && AllGood(es) && AllCompatible(es)
  }

  /** `p` is an entry or lies above one. */
  ghost predicate Listed(es: seq<Entry>, p: string) {
    exists e :: e in es && Counts(e) && (Name(e) == p || IsAncestor(p, Name(e)))
  }

  ghost predicate IsFile(es: seq<Entry>, p: string) { exists e :: e in es && e.typ == Reg && Name(e) == p }

  ghost predicate Complete(es: seq<Entry>) {
    && (forall d :: d in REQUIRED_DIRECTORIES ==> Listed(es, d) && !IsFile(es, d))
    && (forall f :: f in REQUIRED_FILES ==> IsFile(es, f))
  }

  ghost predicate Acceptable(es: seq<Entry>) { Fits(es) && Complete(es) }

  // ---------- The check ----------

  /** The `types` map of the source: every listed path, files marked as files. */
  ghost predicate TypesOf(types: map<string, Type>, es: seq<Entry>) {
    forall p :: (p in types <==> Listed(es, p)) && (p in types ==> types[p] == if IsFile(es, p) then Reg else Dir)
  }

  ghost predicate ClearAbove(types: map<string, Type>, name: string) {
    forall p :: IsAncestor(p, name) && p in types ==> types[p] == Dir
  }

  ghost predicate Marked(types: map<string, Type>, types': map<string, Type>, name: string) {
    && (forall p :: p in types' <==> p in types || IsAncestor(p, name))
    && (forall p :: p in types' ==> types'[p] == if IsAncestor(p, name) then Dir else types[p])
  }

  /** The walk over the ancestors of `name`, marking each as a directory. */
  method MarkParents(name: string, types: map<string, Type>) returns (ok: bool, types': map<string, Type>)
    requires forall p :: p in types ==> types[p] in {Dir, Reg}
    requires name != "." && forall p :: IsAncestor(p, name) ==> p != "."
    ensures ok <==> ClearAbove(types, name)
    ensures ok ==> Marked(types, types', name)
  {
    hide IsAncestor, Parent, AtOrAbove;
    types' := types;
    var parent := Parent(name);
    WalkStart(name);
    while parent != "."
      invariant forall p :: AtOrAbove(p, parent) ==> IsAncestor(p, name)
      invariant forall p :: p in types' <==> p in types || (IsAncestor(p, name) && !AtOrAbove(p, parent))
      invariant forall p :: p in types' ==> types'[p] == if IsAncestor(p, name) && !AtOrAbove(p, parent) then Dir else types[p]
      invariant forall p :: IsAncestor(p, name) && !AtOrAbove(p, parent) && p in types ==> types[p] == Dir
      invariant forall p :: AtOrAbove(p, parent) ==> p != "."
      decreases if parent == "." then 0 else 1, |parent|
    {
      WalkStep(parent);
      if parent in types' && types'[parent] != Dir { return false, types'; }
      types' := types'[parent := Dir];
      parent := Parent(parent);
    }
    WalkEnd();
    ok := true;
  }

  /** The walk starts below all ancestors ... */
  lemma WalkStart(name: string)
    requires name != "." && forall p :: IsAncestor(p, name) ==> p != "."
    ensures forall p :: AtOrAbove(p, Parent(name)) <==> IsAncestor(p, name)
  {
    hide IsAncestor, LastIndex;
    AncestorsOf(name);
  }

  /** ... leaves one behind with each step ... */
  lemma WalkStep(parent: string)
    requires parent != "." && forall p :: AtOrAbove(p, parent) ==> p != "."
    ensures AtOrAbove(parent, parent)
    ensures forall p :: AtOrAbove(p, Parent(parent)) <==> AtOrAbove(p, parent) && p != parent
    ensures Parent(parent) == "." || |Parent(parent)| < |parent|
  {
    AncestorsOf(parent);
    NotOwnAncestor(parent);
    hide IsAncestor, LastIndex;
    assert IsAncestor(Parent(parent), parent) ==> AtOrAbove(Parent(parent), parent);
  }

  /** ... and ends above them all. */
  lemma WalkEnd()
    ensures forall p :: !AtOrAbove(p, ".")
  {}

  /** `p` still awaits the walk standing at `parent`. */
  ghost predicate AtOrAbove(p: string, parent: string) { parent != "." && (p == parent || IsAncestor(p, parent)) }

  // ---------- One entry after the other ----------

  lemma {:induction false} TotalSizeAtLeast(es: seq<Entry>, i: nat)
    requires i <= |es| && forall j :: 0 <= j < |es| ==> GoodEntry(es[j])
    ensures 0 <= TotalSize(es[..i]) <= TotalSize(es)
  {
    if es == [] {
    } else if i == |es| {
      assert es[..i] == es;
      TotalSizeAtLeast(es[..|es| - 1], i - 1);
    } else {
      assert es[..|es| - 1][..i] == es[..i];
      TotalSizeAtLeast(es[..|es| - 1], i);
    }
  }

  lemma FitsPrefix(es: seq<Entry>, i: nat)
    requires i <= |es| && Fits(es)
    ensures Fits(es[..i])
  {
    TotalSizeAtLeast(es, i);
  }

  ghost predicate NoClash(es: seq<Entry>, e: Entry) { forall a :: a in es ==> Compatible(a, e) }

  lemma FitsStep(es: seq<Entry>, e: Entry)
    ensures Fits(es + [e]) <==>
            && Fits(es) && |es| < MAX_ENTRIES && GoodEntry(e) && TotalSize(es) + FileSize(e) <= MAX_EXPANDED
            && NoClash(es, e)
    ensures Fits(es) ==> TotalSize(es) <= MAX_EXPANDED
  {
    var all := es + [e];
    assert all[..|es|] == es;
    if Fits(all) {
      FitsPrefix(all, |es|);
      forall a | a in es ensures Compatible(a, e) {
        var i :| 0 <= i < |es| && es[i] == a;
        assert Compatible(all[i], all[|es|]);
      }
      assert GoodEntry(all[|es|]);
    }
  }

  ghost predicate SeenIn(seen: set<string>, es: seq<Entry>) {
    forall p :: p in seen <==> exists e :: e in es && Counts(e) && Name(e) == p
  }

  lemma ValidNamesNotDot(name: string)
    requires ValidName(name)
    ensures name != "." && forall p :: IsAncestor(p, name) ==> p != "."
  {
    assert name[0] == 'd';
  }

  /** When the bookkeeping lets an entry through, it is compatible with all before. */
  lemma PassedIsCompatible(es: seq<Entry>, e: Entry, seen: set<string>, types: map<string, Type>)
    requires SeenIn(seen, es) && TypesOf(types, es) && Counts(e) && Name(e) !in seen
    requires Name(e) in types ==> types[Name(e)] == e.typ
    requires ClearAbove(types[Name(e) := e.typ], Name(e))
    ensures NoClash(es, e)
  {
    NotOwnAncestor(Name(e));
    forall a | a in es && Counts(a)
      ensures Name(a) in types && Name(a) in seen && (a.typ == Reg ==> types[Name(a)] == Reg)
      ensures IsAncestor(Name(e), Name(a)) ==> Name(e) in types && types[Name(e)] == Dir
    {
      assert Listed(es, Name(a)) && (a.typ == Reg ==> IsFile(es, Name(a)));
      if IsAncestor(Name(e), Name(a)) { assert Listed(es, Name(e)) && !IsFile(es, Name(e)); }
    }
  }

  /** A listed path that is no entry's own name lies above some entry. */
  lemma ConflictIsIncompatible(es: seq<Entry>, e: Entry, seen: set<string>, types: map<string, Type>)
    requires SeenIn(seen, es) && TypesOf(types, es) && Counts(e) && e.typ in {Dir, Reg} && Name(e) !in seen
    requires Name(e) in types && types[Name(e)] != e.typ
    ensures !NoClash(es, e)
  {
    assert Listed(es, Name(e)) && !IsFile(es, Name(e));
    var a :| a in es && Counts(a) && (Name(a) == Name(e) || IsAncestor(Name(e), Name(a)));
    assert !Compatible(a, e);
  }

  lemma FileAboveIsIncompatible(es: seq<Entry>, e: Entry, types: map<string, Type>)
    requires TypesOf(types, es) && Counts(e) && !ClearAbove(types[Name(e) := e.typ], Name(e))
    ensures !NoClash(es, e)
  {
    NotOwnAncestor(Name(e));
    var p :| IsAncestor(p, Name(e)) && p in types && types[p] != Dir;
    var a :| a in es && a.typ == Reg && Name(a) == p;
    assert !Compatible(a, e);
  }

  lemma TypesAfter(es: seq<Entry>, e: Entry, seen: set<string>, types: map<string, Type>, types': map<string, Type>)
    requires SeenIn(seen, es) && TypesOf(types, es) && Counts(e) && e.typ in {Dir, Reg}
    requires Name(e) in types ==> types[Name(e)] == e.typ
    requires ClearAbove(types[Name(e) := e.typ], Name(e)) && Marked(types[Name(e) := e.typ], types', Name(e))
    ensures SeenIn(seen + {Name(e)}, es + [e]) && TypesOf(types', es + [e])
  {
    SeenAfter(es, e, seen);
    hide SeenIn, ClearAbove, Marked, Listed, IsFile, IsAncestor;
    forall p
      ensures p in types' <==> Listed(es + [e], p)
      ensures p in types' ==> types'[p] == if IsFile(es + [e], p) then Reg else Dir
    {
      TypeAfter(es, e, types, types', p);
    }
  }

  lemma TypeAfter(es: seq<Entry>, e: Entry, types: map<string, Type>, types': map<string, Type>, p: string)
    requires TypesOf(types, es) && Counts(e) && e.typ in {Dir, Reg} && (Name(e) in types ==> types[Name(e)] == e.typ)
    requires ClearAbove(types[Name(e) := e.typ], Name(e)) && Marked(types[Name(e) := e.typ], types', Name(e))
    ensures p in types' <==> Listed(es + [e], p)
    ensures p in types' ==> types'[p] == if IsFile(es + [e], p) then Reg else Dir
  {
    NotOwnAncestor(Name(e));
    ListedAfter(es, e);
    MarkedAs(types, es, p);
    hide TypesOf, Listed, IsFile, IsAncestor;
  }

  lemma ListedAfter(es: seq<Entry>, e: Entry)
    requires Counts(e)
    ensures forall p :: Listed(es + [e], p) <==> Listed(es, p) || p == Name(e) || IsAncestor(p, Name(e))
    ensures forall p :: IsFile(es + [e], p) <==> IsFile(es, p) || (e.typ == Reg && p == Name(e))
  {
    hide IsAncestor, Name;
    var all := es + [e];
    assert e in all && forall a :: a in es ==> a in all;
    forall p ensures Listed(all, p) <==> Listed(es, p) || p == Name(e) || IsAncestor(p, Name(e)) {
      if Listed(es, p) {
        var a :| a in es && Counts(a) && (Name(a) == p || IsAncestor(p, Name(a)));
        assert a in all;
      }
    }
    forall p ensures IsFile(all, p) <==> IsFile(es, p) || (e.typ == Reg && p == Name(e)) {
      if IsFile(es, p) {
        var a :| a in es && a.typ == Reg && Name(a) == p;
        assert a in all;
      }
    }
  }

  lemma SeenAfter(es: seq<Entry>, e: Entry, seen: set<string>)
    requires SeenIn(seen, es) && Counts(e)
    ensures SeenIn(seen + {Name(e)}, es + [e])
  {
    hide Name;
    var all := es + [e];
    assert e in all && forall a :: a in es ==> a in all;
    forall p ensures p in seen + {Name(e)} <==> exists a :: a in all && Counts(a) && Name(a) == p {
      if p in seen {
        var a :| a in es && Counts(a) && Name(a) == p;
        assert a in all;
      }
    }
  }

  lemma SeenIsIncompatible(es: seq<Entry>, e: Entry, seen: set<string>)
    requires SeenIn(seen, es) && Counts(e) && Name(e) in seen
    ensures !NoClash(es, e)
  {
    var a :| a in es && Counts(a) && Name(a) == Name(e);
    assert !Compatible(a, e);
  }

  /** The body of the entry loop for an entry that is not a global header. */
  method CheckEntry(e: Entry, seen: set<string>, types: map<string, Type>, expanded: int, ghost es: seq<Entry>)
    returns (ok: bool, types': map<string, Type>)
    requires Fits(es) && |es| < MAX_ENTRIES && Counts(e)
    requires SeenIn(seen, es) && TypesOf(types, es) && expanded == TotalSize(es)
    ensures ok <==> Fits(es + [e])
    ensures ok ==> SeenIn(seen + {Name(e)}, es + [e]) && TypesOf(types', es + [e])
  {
    hide Fits, SeenIn, TypesOf, NoClash, ClearAbove, Marked, ValidName, IsAncestor, TotalSize;
    FitsStep(es, e);
    KnownTypes(types, es);
    types' := types;
    var name := TrimSlash(e.name);
    if !ValidName(name) { return false, types'; }
    if name in seen {
      SeenIsIncompatible(es, e, seen);
      return false, types';
    }
    if e.typ != Dir && e.typ != Reg { return false, types'; }
    if name in types && types[name] != e.typ {
      ConflictIsIncompatible(es, e, seen, types);
      return false, types';
    }
    ValidNamesNotDot(name);
    ok, types' := MarkParents(name, types[name := e.typ]);
    if !ok {
      FileAboveIsIncompatible(es, e, types);
      return;
    }
    PassedIsCompatible(es, e, seen, types);
    TypesAfter(es, e, seen, types, types');
    if e.typ == Reg {
      if e.size < 0 || e.size > MAX_EXPANDED - expanded || !e.readable { return false, types'; }
    }
  }

  lemma NotOwnAncestor(name: string)
    ensures !IsAncestor(name, name)
  {}

  lemma KnownTypes(types: map<string, Type>, es: seq<Entry>)
    requires TypesOf(types, es)
    ensures forall p :: p in types ==> types[p] in {Dir, Reg}
  {
    hide Listed, IsFile;
  }

  /** The entry loop. */
  method CheckEntries(es: seq<Entry>) returns (ok: bool, types: map<string, Type>)
    ensures ok <==> Fits(es)
    ensures ok ==> TypesOf(types, es)
  {
    hide Fits, SeenIn, TypesOf, Name, TotalSize;
    NothingYet();
    var seen: set<string>, expanded := {}, 0;
    types := map[];
    for count := 0 to |es|
      invariant Fits(es[..count]) && expanded == TotalSize(es[..count])
      invariant SeenIn(seen, es[..count]) && TypesOf(types, es[..count])
    {
      assert es[..count + 1] == es[..count] + [es[count]];
      if count >= MAX_ENTRIES {
        FitsFails(es, count);
        return false, types;
      }
      var e := es[count];
      TotalSizeStep(es[..count], e);
      if e.typ != GlobalHeader {
        ok, types := CheckEntry(e, seen, types, expanded, es[..count]);
        if !ok {
          FitsFails(es, count);
          return;
        }
        seen := seen + {Name(e)};
        if e.typ == Reg { expanded := expanded + e.size; }
      } else {
        GlobalHeaderStep(es[..count], e, seen, types);
      }
    }
    assert es[..|es|] == es;
    ok := true;
  }

  /** The two loops over the required paths. */
  method CheckLayout(types: map<string, Type>, ghost es: seq<Entry>) returns (ok: bool)
    requires TypesOf(types, es)
    ensures ok <==> Complete(es)
  {
    hide Listed, IsFile, TypesOf;
    var directories, files := REQUIRED_DIRECTORIES, REQUIRED_FILES;
    for i := 0 to |directories|
      invariant forall j :: 0 <= j < i ==> Listed(es, directories[j]) && !IsFile(es, directories[j])
    {
      MarkedAs(types, es, directories[i]);
      if !(directories[i] in types && types[directories[i]] == Dir) { return false; }
    }
    for i := 0 to |files|
      invariant forall j :: 0 <= j < i ==> IsFile(es, files[j])
    {
      MarkedAs(types, es, files[i]);
      if !(files[i] in types && types[files[i]] == Reg) { return false; }
    }
    ok := true;
  }

  lemma MarkedAs(types: map<string, Type>, es: seq<Entry>, p: string)
    requires TypesOf(types, es)
    ensures p in types && types[p] == Dir <==> Listed(es, p) && !IsFile(es, p)
    ensures p in types && types[p] == Reg <==> IsFile(es, p)
  {
    assert IsFile(es, p) ==> Listed(es, p);
  }

  lemma NothingYet()
    ensures Fits([]) && SeenIn({}, []) && TypesOf(map[], []) && TotalSize([]) == 0
  {}

  /** validateDospcxArchive. The verdict is the declarative one: the envelope is sound
      and the entries are acceptable. */
  method ValidateArchive(compressed: nat, opens: bool, es: seq<Entry>, ends: bool, drains: bool, decompressed: nat)
    returns (ok: bool)
    ensures ok <==> compressed <= 0x10_0000 && opens && ends && drains && decompressed <= 0x280_0000 && Acceptable(es)
  {
    hide Fits, Complete, TypesOf;
    if compressed > 0x10_0000 || !opens { return false; }
    var types;
    ok, types := CheckEntries(es);
    if !ok || !ends || !drains || decompressed > 0x280_0000 { return false; }
    ok := CheckLayout(types, es);
  }

  lemma FitsFails(es: seq<Entry>, count: nat)
    requires count < |es| && (count >= MAX_ENTRIES || !Fits(es[..count + 1]))
    ensures !Fits(es)
  {
    if Fits(es) { FitsPrefix(es, count + 1); }
  }

  /** Only files take room. */
  lemma TotalSizeStep(es: seq<Entry>, e: Entry)
    ensures TotalSize(es + [e]) == TotalSize(es) + if e.typ == Reg then e.size else 0
  {
    assert (es + [e])[..|es|] == es;
  }

  lemma HeaderIsNoFile(es: seq<Entry>, e: Entry, p: string)
    requires !Counts(e)
    ensures (Listed(es + [e], p) <==> Listed(es, p)) && (IsFile(es + [e], p) <==> IsFile(es, p))
  {
    hide IsAncestor, TrimSlash;
    if Listed(es, p) {
      var a :| a in es && Counts(a) && (Name(a) == p || IsAncestor(p, Name(a)));
      assert a in es + [e];
    }
    if IsFile(es, p) {
      var a :| a in es && a.typ == Reg && Name(a) == p;
      assert a in es + [e];
    }
  }

  lemma HeaderIsUnseen(es: seq<Entry>, e: Entry, seen: set<string>)
    requires !Counts(e) && SeenIn(seen, es)
    ensures SeenIn(seen, es + [e])
  {
    hide TrimSlash;
    forall p ensures p in seen <==> exists a :: a in es + [e] && Counts(a) && Name(a) == p {
      if p in seen {
        var a :| a in es && Counts(a) && Name(a) == p;
        assert a in es + [e];
      }
    }
  }

  lemma HeaderHasNoType(es: seq<Entry>, e: Entry, types: map<string, Type>)
    requires !Counts(e) && TypesOf(types, es)
    ensures TypesOf(types, es + [e])
  {
    hide Listed, IsFile, Counts;
    var all := es + [e];
    forall p ensures (p in types <==> Listed(all, p)) && (p in types ==> types[p] == if IsFile(all, p) then Reg else Dir) {
      HeaderIsNoFile(es, e, p);
    }
  }

  lemma HeaderFits(es: seq<Entry>, e: Entry)
    requires !Counts(e) && Fits(es) && |es| < MAX_ENTRIES
    ensures Fits(es + [e]) && TotalSize(es + [e]) == TotalSize(es)
  {
    FitsStep(es, e);
    TotalSizeStep(es, e);
  }

  lemma GlobalHeaderStep(es: seq<Entry>, e: Entry, seen: set<string>, types: map<string, Type>)
    requires !Counts(e) && Fits(es) && |es| < MAX_ENTRIES && SeenIn(seen, es) && TypesOf(types, es)
    ensures Fits(es + [e]) && SeenIn(seen, es + [e]) && TypesOf(types, es + [e]) && TotalSize(es + [e]) == TotalSize(es)
  {
    hide Fits, SeenIn, TypesOf, TotalSize, Counts;
    HeaderFits(es, e);
    HeaderIsUnseen(es, e, seen);
    HeaderHasNoType(es, e, types);
  }

  // ---------- Order does not matter ----------

  lemma {:induction false} TotalSizeSplit(a: seq<Entry>, e: Entry, b: seq<Entry>)
    ensures TotalSize(a + [e] + b) == TotalSize(a + b) + FileSize(e)
  {
    if b == [] {
      assert a + [e] + b == a + [e] && a + b == a;
      TotalSizeStep(a, e);
    } else {
      var n := |b| - 1;
      assert a + [e] + b == (a + [e] + b[..n]) + [b[n]] && a + b == (a + b[..n]) + [b[n]];
      TotalSizeStep(a + [e] + b[..n], b[n]);
      TotalSizeStep(a + b[..n], b[n]);
      TotalSizeSplit(a, e, b[..n]);
    }
  }

  lemma {:induction false} PermutedTotalSize(a: seq<Entry>, b: seq<Entry>)
    requires multiset(a) == multiset(b)
    ensures |a| == |b| && TotalSize(a) == TotalSize(b)
  {
    if a == [] {
      assert |multiset(a)| == |multiset(b)|;
    } else {
      var n := |a| - 1;
      var e := a[n];
      assert a == a[..n] + [e];
      assert e in multiset(b);
      var i :| 0 <= i < |b| && b[i] == e;
      var front, back := b[..i], b[i + 1..];
      assert b == front + [e] + back;
      RemovedMultiset(a[..n], e, front, back);
      PermutedTotalSize(a[..n], front + back);
      TotalSizeSplit(front, e, back);
      TotalSizeStep(a[..n], e);
    }
  }

  lemma RemovedMultiset(a: seq<Entry>, e: Entry, front: seq<Entry>, back: seq<Entry>)
    requires multiset(a + [e]) == multiset(front + [e] + back)
    ensures multiset(a) == multiset(front + back)
  {
    assert multiset(a + [e]) - multiset{e} == multiset(a);
    assert multiset(front + [e] + back) - multiset{e} == multiset(front + back);
  }

  /** Compatibility of a whole listing, said of the multiset of its entries. */
  lemma CompatibleMultiset(es: seq<Entry>)
    ensures AllCompatible(es) <==>
            && (forall e :: e in multiset(es) && Counts(e) ==> multiset(es)[e] == 1)
            && (forall e, f :: e in multiset(es) && f in multiset(es) && e != f ==> Compatible(e, f))
  {
    if AllCompatible(es) {
      forall e | e in multiset(es) && Counts(e) ensures multiset(es)[e] == 1 { OnceOnly(es, e); }
      forall e, f | e in multiset(es) && f in multiset(es) && e != f ensures Compatible(e, f) {
        var i, j :| 0 <= i < |es| && 0 <= j < |es| && es[i] == e && es[j] == f;
        assert i < j ==> Compatible(es[i], es[j]);
        assert j < i ==> Compatible(es[j], es[i]);
      }
    }
    if (forall e :: e in multiset(es) && Counts(e) ==> multiset(es)[e] == 1)
       && (forall e, f :: e in multiset(es) && f in multiset(es) && e != f ==> Compatible(e, f)) {
      forall i, j | 0 <= i < j < |es| ensures Compatible(es[i], es[j]) {
        assert es[i] in multiset(es) && es[j] in multiset(es);
        if es[i] == es[j] && Counts(es[i]) { TwiceIn(es, i, j); }
      }
    }
  }

  lemma {:induction false} OnceOnly(es: seq<Entry>, e: Entry)
    requires AllCompatible(es) && Counts(e) && e in es
    ensures multiset(es)[e] == 1
  {
    var i :| 0 <= i < |es| && es[i] == e;
    assert es == es[..i] + [e] + es[i + 1..];
    forall j | 0 <= j < |es| && j != i ensures es[j] != e {
      assert if j < i then Compatible(es[j], e) else Compatible(e, es[j]);
    }
  }

  lemma TwiceIn(es: seq<Entry>, i: nat, j: nat)
    requires i < j < |es| && es[i] == es[j]
    ensures multiset(es)[es[i]] >= 2
  {
    assert es == es[..i] + [es[i]] + es[i + 1..j] + [es[j]] + es[j + 1..];
  }

  lemma SameElements(a: seq<Entry>, b: seq<Entry>)
    requires multiset(a) == multiset(b)
    ensures forall e :: e in a <==> e in b
    ensures AllGood(a) <==> AllGood(b)
    ensures forall p :: Listed(a, p) <==> Listed(b, p)
    ensures forall p :: IsFile(a, p) <==> IsFile(b, p)
  {
    hide GoodEntry, IsAncestor;
    forall e ensures e in a <==> e in b { assert e in multiset(a) <==> e in multiset(b); }
    GoodElements(a);
    GoodElements(b);
  }

  lemma GoodElements(es: seq<Entry>)
    ensures AllGood(es) <==> forall e :: e in es ==> GoodEntry(e)
  {
    hide GoodEntry;
  }

  lemma SameCompleteness(a: seq<Entry>, b: seq<Entry>)
    requires forall p :: Listed(a, p) <==> Listed(b, p)
    requires forall p :: IsFile(a, p) <==> IsFile(b, p)
    ensures Complete(a) <==> Complete(b)
  {
    hide Listed, IsFile;
  }

  /** Any order of the same entries gets the same verdict. */
  lemma OrderIndependent(a: seq<Entry>, b: seq<Entry>)
    requires multiset(a) == multiset(b)
    ensures Acceptable(a) <==> Acceptable(b)
  {
    hide AllGood, AllCompatible, Complete, Listed, IsFile, Compatible;
    PermutedTotalSize(a, b);
    CompatibleMultiset(a);
    CompatibleMultiset(b);
    SameElements(a, b);
    SameCompleteness(a, b);
  }

  /** Nothing above an entry of a fitting listing is a file. */
  lemma NoFileAbove(es: seq<Entry>, e: Entry, q: string)
    requires AllCompatible(es) && e in es && Counts(e) && IsAncestor(q, Name(e))
    ensures !IsFile(es, q)
  {
    forall f | f in es && f.typ == Reg ensures Name(f) != q {
      var i, j :| 0 <= i < |es| && 0 <= j < |es| && es[i] == e && es[j] == f;
      assert i == j || Compatible(e, f) || Compatible(f, e);
      NotOwnAncestor(Name(e));
    }
  }

  /** The accepted paths form a tree: each listed path but the root has its parent
      listed, and everything above a listed path is a directory. */
  lemma AcceptedIsTree(es: seq<Entry>, p: string)
    requires Acceptable(es) && Listed(es, p)
    ensures p == "data" || (LastSlash(p) >= 0 && Listed(es, Parent(p)))
    ensures forall q :: IsAncestor(q, p) ==> Listed(es, q) && !IsFile(es, q)
  {
    hide Complete, Compatible, AllCompatible, ValidName;
    var e :| e in es && Counts(e) && (Name(e) == p || IsAncestor(p, Name(e)));
    assert GoodEntry(e);
    forall q | IsAncestor(q, p) ensures Listed(es, q) && !IsFile(es, q) {
      assert IsAncestor(q, Name(e));
      NoFileAbove(es, e, q);
    }
    AncestorsOf(p);
    if LastSlash(p) < 0 { UnderData(Name(e), p); }
  }

  lemma UnderData(name: string, p: string)
    requires ValidName(name) && (name == p || IsAncestor(p, name)) && LastSlash(p) < 0
    ensures p == "data"
  {
    hide CleanSegments;
    var root := "data";
    if name == root {
      NoAncestors(p, root);
    } else {
      assert name[..4] == root && name[4] == '/';
      assert forall i :: 0 <= i < |p| ==> p[i] == name[i] && p[i] != '/';
      assert name[|p|] == '/';
    }
  }

  // ---------- Acceptance in terms of segments ----------

  /** A name loses one trailing slash. */
  lemma NameMeans(e: Entry)
    ensures e.name == Name(e) || e.name == Name(e) + "/"
    ensures e.name == Name(e) ==> e.name == "" || e.name[|e.name| - 1] != '/'
  {}

  predicate Proper(segment: string) { segment !in {"", ".", ".."} }

  lemma ProperAppend(front: seq<string>, last: string)
    ensures (forall x :: x in front + [last] ==> Proper(x)) <==> (forall x :: x in front ==> Proper(x)) && Proper(last)
  {
    hide Proper;
    assert (front + [last])[|front|] == last;
  }

  lemma {:induction false} SegmentsClean(s: string)
    ensures CleanSegments(s) <==> forall x :: x in Split(s, '/') ==> Proper(x)
    decreases |s|
  {
    var k := LastSlash(s);
    var last := s[k + 1..];
    if k >= 0 {
      SegmentsClean(s[..k]);
      ProperAppend(Split(s[..k], '/'), last);
      assert Split(s, '/') == Split(s[..k], '/') + [last];
    } else {
      ProperAppend([], last);
      assert Split(s, '/') == [] + [last];
    }
    hide Split;
    assert CleanSegments(s) <==> Proper(last) && (k >= 0 ==> CleanSegments(s[..k]));
  }

  lemma SlashBehindData(s: string)
    requires "data/" <= s
    ensures LastSlash(s) >= 4
  {
    assert s[4] == '/';
  }

  lemma {:induction false} FirstSegment(s: string)
    ensures Split(s, '/')[0] == "data" <==> s == "data" || "data/" <= s
    decreases |s|
  {
    var k, d := LastSlash(s), "data/";
    if d <= s { SlashBehindData(s); }
    if k >= 0 {
      FirstSegment(s[..k]);
      assert d <= s[..k] ==> s[..5] == s[..k][..5];
      assert s[..k] == "data" ==> s[..5] == d;
      assert d <= s && k == 4 ==> s[..k] == d[..4];
      assert d <= s && k > 4 ==> s[..k][..5] == s[..5];
    }
  }

  /** A path lies in the tree of data and nowhere else: its first segment is data, and none
      is empty or leads up. */
  predicate Inside(name: string) {
    && '\0' !in name && '\\' !in name && Split(name, '/')[0] == "data"
    && forall x :: x in Split(name, '/') ==> Proper(x)
  }

  lemma ValidMeans(name: string)
    ensures ValidName(name) <==> Inside(name)
  {
    SegmentsClean(name);
    FirstSegment(name);
    hide Split, CleanSegments;
  }

  ghost predicate HasDirectory(es: seq<Entry>, d: string) { Listed(es, d) && !IsFile(es, d) }

  /** Exactly what is accepted: at most 4096 entries of at most 32 MiB together, all of them
      directories or readable files inside data (global headers aside), of different names
      and none below a file, and among them the required directories and files. */
  lemma AcceptableMeans(es: seq<Entry>)
    ensures Acceptable(es) <==>
            && |es| <= 4096 && TotalSize(es) <= 33554432
            && (forall e :: e in es && e.typ != GlobalHeader ==>
                  Inside(Name(e)) && (e.typ == Dir || (e.typ == Reg && e.size >= 0 && e.readable)))
            && (forall i, j :: 0 <= i < |es| && 0 <= j < |es| && i != j && es[i].typ != GlobalHeader && es[j].typ != GlobalHeader ==>
                  Name(es[i]) != Name(es[j]) && (es[i].typ == Reg ==> !IsAncestor(Name(es[i]), Name(es[j]))))
            && HasDirectory(es, "data") && HasDirectory(es, "data/features")
            && HasDirectory(es, "data/profiles") && HasDirectory(es, "data/templates")
            && IsFile(es, "data/execution-groups.yaml") && IsFile(es, "data/formulas.yaml") && IsFile(es, "data/hca-types.yaml")
            && IsFile(es, "data/phase-config.yaml") && IsFile(es, "data/platform-types.yaml")
  {
    hide Inside, ValidName, IsAncestor, Name, AllGood, AllCompatible, Complete, TotalSize, HasDirectory, IsFile;
    GoodMeans(es);
    CompatibleMeans(es);
    RequiredMeans(es);
  }

  lemma GoodMeans(es: seq<Entry>)
    ensures AllGood(es) <==>
            forall e :: e in es && e.typ != GlobalHeader ==>
              Inside(Name(e)) && (e.typ == Dir || (e.typ == Reg && e.size >= 0 && e.readable))
  {
    hide Inside, ValidName, Name;
    forall e ensures ValidName(Name(e)) <==> Inside(Name(e)) { ValidMeans(Name(e)); }
    if AllGood(es) {
      forall e | e in es && e.typ != GlobalHeader
        ensures Inside(Name(e)) && (e.typ == Dir || (e.typ == Reg && e.size >= 0 && e.readable))
      {
        var i :| 0 <= i < |es| && es[i] == e;
        assert GoodEntry(es[i]);
      }
    }
  }

  lemma CompatibleMeans(es: seq<Entry>)
    ensures AllCompatible(es) <==>
            forall i, j :: 0 <= i < |es| && 0 <= j < |es| && i != j && es[i].typ != GlobalHeader && es[j].typ != GlobalHeader ==>
              Name(es[i]) != Name(es[j]) && (es[i].typ == Reg ==> !IsAncestor(Name(es[i]), Name(es[j])))
  {
    hide IsAncestor, Name;
    if AllCompatible(es) {
      forall i, j | 0 <= i < |es| && 0 <= j < |es| && i != j && es[i].typ != GlobalHeader && es[j].typ != GlobalHeader
        ensures Name(es[i]) != Name(es[j]) && (es[i].typ == Reg ==> !IsAncestor(Name(es[i]), Name(es[j])))
      {
        assert if i < j then Compatible(es[i], es[j]) else Compatible(es[j], es[i]);
      }
    }
  }

  lemma RequiredMeans(es: seq<Entry>)
    ensures Complete(es) <==>
            && HasDirectory(es, "data") && HasDirectory(es, "data/features")
            && HasDirectory(es, "data/profiles") && HasDirectory(es, "data/templates")
            && IsFile(es, "data/execution-groups.yaml") && IsFile(es, "data/formulas.yaml") && IsFile(es, "data/hca-types.yaml")
            && IsFile(es, "data/phase-config.yaml") && IsFile(es, "data/platform-types.yaml")
  {
    hide Listed, IsFile;
    var ds, fs := REQUIRED_DIRECTORIES, REQUIRED_FILES;
    assert ds[0] in ds && ds[1] in ds && ds[2] in ds && ds[3] in ds;
    assert fs[0] in fs && fs[1] in fs && fs[2] in fs && fs[3] in fs && fs[4] in fs;
  }
}
