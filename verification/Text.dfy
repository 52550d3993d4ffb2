/** Strings: byte order, sorted copies, trimming, searching and decimals. */
module Text {

  predicate Leq(a: string, b: string) {
    a == "" || (b != "" && (a[0] < b[0] || (a[0] == b[0] && Leq(a[1..], b[1..]))))
  }

  lemma {:induction false} LeqTotal(a: string, b: string)
    ensures Leq(a, b) || Leq(b, a)
  {
    if a != "" && b != "" { LeqTotal(a[1..], b[1..]); }
  }

  lemma {:induction false} LeqAntisymmetric(a: string, b: string)
    requires Leq(a, b) && Leq(b, a)
    ensures a == b
  {
    if a != "" {
      LeqAntisymmetric(a[1..], b[1..]);
      assert a == [a[0]] + a[1..] && b == [b[0]] + b[1..];
    }
  }

  lemma {:induction false} LeqTransitive(a: string, b: string, c: string)
    requires Leq(a, b) && Leq(b, c)
    ensures Leq(a, c)
  {
    if a != "" && a[0] == b[0] == c[0] { LeqTransitive(a[1..], b[1..], c[1..]); }
  }

  /** The order of bytes: a beginning comes first, else the first difference decides. */
  lemma {:induction false} LeqMeans(a: string, b: string)
    ensures Leq(a, b) <==> a <= b || exists i :: 0 <= i < |a| && i < |b| && a[..i] == b[..i] && a[i] < b[i]
  {
    if a != "" && b != "" && a[0] == b[0] {
      var x, y := a[1..], b[1..];
      LeqMeans(x, y);
      assert a == [a[0]] + x && b == [b[0]] + y;
      if i :| 0 <= i < |x| && i < |y| && x[..i] == y[..i] && x[i] < y[i] {
        assert a[..i + 1] == [a[0]] + x[..i] == b[..i + 1] && a[i + 1] < b[i + 1];
      }
      if i :| 0 <= i < |a| && i < |b| && a[..i] == b[..i] && a[i] < b[i] {
        assert x[..i - 1] == a[..i][1..] == b[..i][1..] == y[..i - 1] && x[i - 1] < y[i - 1];
      }
    } else if a != "" && b != "" && a[0] < b[0] {
      assert a[..0] == b[..0];
    }
  }

  ghost predicate IsSorted(s: seq<string>) { forall i, j :: 0 <= i < j < |s| ==> Leq(s[i], s[j]) }

  function Insert(x: string, s: seq<string>): (r: seq<string>)
    requires IsSorted(s)
    ensures IsSorted(r) && multiset(r) == multiset(s) + multiset{x}
  {
    if s == [] then [x]
    else
      assert s == [s[0]] + s[1..];
      LeqTotal(x, s[0]);
      if Leq(x, s[0]) then
        assert forall j :: 0 < j < |s| ==> Leq(s[0], s[j]);
        InFront(x, s);
        [x] + s
      else
        var rest := Insert(x, s[1..]);
        InFrontOfAll(s[0], rest, s[1..], x);
        [s[0]] + rest
  }

  lemma InFront(x: string, s: seq<string>)
    requires IsSorted(s) && s != [] && Leq(x, s[0])
    ensures IsSorted([x] + s)
  {
    forall j | 0 < j < |s| ensures Leq(x, s[j]) { LeqTransitive(x, s[0], s[j]); }
  }

  lemma InFrontOfAll(first: string, rest: seq<string>, s: seq<string>, x: string)
    requires IsSorted(rest) && multiset(rest) == multiset(s) + multiset{x} && Leq(first, x)
    requires forall y :: y in s ==> Leq(first, y)
    ensures IsSorted([first] + rest)
  {
    forall j | 0 <= j < |rest| ensures Leq(first, rest[j]) {
      assert rest[j] in multiset(rest);
      assert rest[j] == x || rest[j] in s;
    }
  }

  /** slices.Sort. */
  function Sorted(s: seq<string>): (r: seq<string>)
    ensures IsSorted(r) && multiset(r) == multiset(s)
  {
    if s == [] then [] else
      assert s == [s[0]] + s[1..];
      Insert(s[0], Sorted(s[1..]))
  }

  /** Sorting forgets exactly the order. */
  lemma {:induction false} SortedUnique(a: seq<string>, b: seq<string>)
    requires IsSorted(a) && IsSorted(b) && multiset(a) == multiset(b)
    ensures a == b
  {
    hide IsSorted, Leq;
    assert |multiset(a)| == |multiset(b)|;
    if a != [] {
      var x := a[0];
      assert x in multiset(b) && b[0] in multiset(a);
      FirstIsLeast(a, b[0]);
      FirstIsLeast(b, x);
      LeqAntisymmetric(x, b[0]);
      RestMultiset(a);
      RestMultiset(b);
      SortedUnique(a[1..], b[1..]);
      assert a == [x] + a[1..] && b == [x] + b[1..];
    }
  }

  lemma RestMultiset(s: seq<string>)
    requires s != []
    ensures multiset(s[1..]) == multiset(s) - multiset{s[0]}
  {
    assert s == [s[0]] + s[1..];
  }

  lemma FirstIsLeast(s: seq<string>, x: string)
    requires IsSorted(s) && x in s
    ensures Leq(s[0], x) && IsSorted(s[1..])
  {
    LeqTotal(x, x);
    hide Leq;
    var i :| 0 <= i < |s| && s[i] == x;
  }

  lemma SortedEqual(a: seq<string>, b: seq<string>)
    ensures Sorted(a) == Sorted(b) <==> multiset(a) == multiset(b)
  {
    if multiset(a) == multiset(b) { SortedUnique(Sorted(a), Sorted(b)); }
  }

  // ---------- sort.Slice by a string key ----------

  function KeysOf<T>(xs: seq<T>, key: T -> string): (r: seq<string>)
    ensures |r| == |xs| && forall i :: 0 <= i < |r| ==> r[i] == key(xs[i])
  {
    seq(|xs|, i requires 0 <= i < |xs| => key(xs[i]))
  }

  function InsertBy<T>(x: T, xs: seq<T>, key: T -> string): (r: seq<T>)
    ensures multiset(r) == multiset(xs) + multiset{x} && |r| == |xs| + 1
  {
    if xs == [] || Leq(key(x), key(xs[0])) then [x] + xs
    else
      assert xs == [xs[0]] + xs[1..];
      [xs[0]] + InsertBy(x, xs[1..], key)
  }

  function SortedBy<T>(xs: seq<T>, key: T -> string): (r: seq<T>)
    ensures multiset(r) == multiset(xs) && |r| == |xs|
  {
    if xs == [] then [] else
      assert xs == [xs[0]] + xs[1..];
      InsertBy(xs[0], SortedBy(xs[1..], key), key)
  }

  lemma {:induction false} InsertByKeys<T>(x: T, xs: seq<T>, key: T -> string)
    requires IsSorted(KeysOf(xs, key))
    ensures KeysOf(InsertBy(x, xs, key), key) == Insert(key(x), KeysOf(xs, key))
  {
    hide Leq, IsSorted, KeysOf;
    var ks := KeysOf(xs, key);
    if xs == [] || Leq(key(x), key(xs[0])) {
      assert KeysOf([x] + xs, key) == [key(x)] + ks;
    } else {
      RestSorted(ks);
      assert ks[1..] == KeysOf(xs[1..], key);
      InsertByKeys(x, xs[1..], key);
      var rest := InsertBy(x, xs[1..], key);
      assert KeysOf([xs[0]] + rest, key) == [ks[0]] + KeysOf(rest, key);
    }
  }

  lemma RestSorted(s: seq<string>)
    requires s != [] && IsSorted(s)
    ensures IsSorted(s[1..])
  {}

  /** Elements sorted by key have the sorted keys. */
  lemma {:induction false} SortedByKeys<T>(xs: seq<T>, key: T -> string)
    ensures KeysOf(SortedBy(xs, key), key) == Sorted(KeysOf(xs, key))
  {
    if xs != [] {
      SortedByKeys(xs[1..], key);
      assert KeysOf(xs, key)[1..] == KeysOf(xs[1..], key);
      InsertByKeys(xs[0], SortedBy(xs[1..], key), key);
    }
  }

  lemma SortedByElements<T>(xs: seq<T>, key: T -> string)
    ensures forall x :: x in SortedBy(xs, key) <==> x in xs
  {
    forall x ensures x in SortedBy(xs, key) <==> x in xs { assert x in multiset(SortedBy(xs, key)) <==> x in multiset(xs); }
  }

  ghost predicate Distinct<T>(s: seq<T>) { forall i, j :: 0 <= i < j < |s| ==> s[i] != s[j] }

  lemma {:induction false} DistinctCounts<T>(s: seq<T>)
    ensures Distinct(s) <==> forall x :: x in multiset(s) ==> multiset(s)[x] == 1
  {
    if s != [] {
      var n := |s| - 1;
      assert s == s[..n] + [s[n]];
      DistinctCounts(s[..n]);
      if Distinct(s) {
        assert s[n] !in s[..n];
        forall x | x in multiset(s) ensures multiset(s)[x] == 1 { assert x != s[n] ==> x in multiset(s[..n]); }
      } else if Distinct(s[..n]) {
        var i :| 0 <= i < n && s[i] == s[n];
        assert s[n] in multiset(s[..n]) && multiset(s)[s[n]] >= 2;
      } else {
        var x :| x in multiset(s[..n]) && multiset(s[..n])[x] != 1;
        assert x in multiset(s) && multiset(s)[x] >= 2;
      }
    }
  }

  /** First occurrences, in order. */
  function Firsts(names: seq<string>): (r: seq<string>)
    ensures forall x :: x in r <==> x in names
    ensures Distinct(r)
  {
    if names == [] then [] else
      var n := |names| - 1;
      assert names == names[..n] + [names[n]];
      var front := Firsts(names[..n]);
      if names[n] in front then front else front + [names[n]]
  }

  lemma FirstsAppend(names: seq<string>, name: string)
    ensures Firsts(names + [name]) == if name in Firsts(names) then Firsts(names) else Firsts(names) + [name]
  {
    assert (names + [name])[..|names|] == names;
  }

  lemma {:induction false} NothingNew(names: seq<string>, more: seq<string>)
    requires Distinct(names) && forall x :: x in more ==> x in names
    ensures Firsts(names + more) == names
  {
    if more != [] {
      var n := |more| - 1;
      assert (names + more)[..|names + more| - 1] == names + more[..n];
      assert more[n] in more;
      NothingNew(names, more[..n]);
    } else if names != [] {
      var n := |names| - 1;
      assert names + more == names;
      assert names[n] !in names[..n];
      NothingNew(names[..n], []);
      assert names[..n] + [] == names[..n] && names == names[..n] + [names[n]];
    } else {
      assert names + more == [];
    }
  }

  lemma JoinDistinct(a: seq<string>, b: seq<string>)
    requires Distinct(a) && Distinct(b) && forall x :: x in a ==> x !in b
    ensures Distinct(a + b)
  {
    forall i, j | 0 <= i < j < |a + b| ensures (a + b)[i] != (a + b)[j] {
      if i < |a| { assert a[i] in a; }
    }
  }

  lemma SortedElements(s: seq<string>)
    ensures forall x :: x in Sorted(s) <==> x in s
    ensures Distinct(s) <==> Distinct(Sorted(s))
    ensures |Sorted(s)| == |s|
  {
    forall x ensures x in Sorted(s) <==> x in s { assert x in multiset(Sorted(s)) <==> x in multiset(s); }
    DistinctCounts(s);
    DistinctCounts(Sorted(s));
    assert |multiset(Sorted(s))| == |multiset(s)|;
  }

  lemma DistinctSame(a: seq<string>, b: seq<string>)
    requires Distinct(a) && Distinct(b) && forall x :: x in a <==> x in b
    ensures multiset(a) == multiset(b)
  {
    DistinctCounts(a);
    DistinctCounts(b);
    forall x ensures multiset(a)[x] == multiset(b)[x] { assert (x in multiset(a) <==> x in a) && (x in multiset(b) <==> x in b); }
  }

  /** Lists of the same elements with the same distinct keys are equal. */
  lemma SameKeyed<T>(x: seq<T>, y: seq<T>, key: T -> string)
    requires multiset(x) == multiset(y) && KeysOf(x, key) == KeysOf(y, key) && Distinct(KeysOf(x, key))
    ensures x == y
  {
    assert |KeysOf(x, key)| == |KeysOf(y, key)|;
    forall i | 0 <= i < |x| ensures x[i] == y[i] {
      assert y[i] in multiset(y) && y[i] in multiset(x);
      var j :| 0 <= j < |x| && x[j] == y[i];
      assert KeysOf(y, key)[i] == KeysOf(x, key)[j];
    }
  }

  /** Two lists of elements with distinct keys sort to the same list. */
  lemma SortedByUnique<T>(a: seq<T>, b: seq<T>, key: T -> string)
    requires multiset(a) == multiset(b) && Distinct(KeysOf(a, key))
    ensures SortedBy(a, key) == SortedBy(b, key)
  {
    hide Distinct, Sorted, KeysOf;
    SortedByKeys(a, key);
    SortedByKeys(b, key);
    SameKeys(a, b, key);
    SortedEqual(KeysOf(a, key), KeysOf(b, key));
    SortedElements(KeysOf(a, key));
    SameKeyed(SortedBy(a, key), SortedBy(b, key), key);
  }

  lemma {:induction false} SameKeys<T>(a: seq<T>, b: seq<T>, key: T -> string)
    requires multiset(a) == multiset(b)
    ensures multiset(KeysOf(a, key)) == multiset(KeysOf(b, key))
  {
    assert |multiset(a)| == |multiset(b)|;
    if a != [] {
      assert a[0] in multiset(b);
      var i :| 0 <= i < |b| && b[i] == a[0];
      CutOut(a, 0, key);
      CutOut(b, i, key);
      SameKeys(Without(a, 0), Without(b, i), key);
    }
  }

  function Without<T>(s: seq<T>, i: nat): seq<T>
    requires i < |s|
  {
    s[..i] + s[i + 1..]
  }

  lemma WithoutOne<T>(s: seq<T>, i: nat)
    requires i < |s|
    ensures multiset(Without(s, i)) == multiset(s) - multiset{s[i]} && |Without(s, i)| == |s| - 1
  {
    assert s == s[..i] + [s[i]] + s[i + 1..];
  }

  lemma CutOut<T>(s: seq<T>, i: nat, key: T -> string)
    requires i < |s|
    ensures multiset(Without(s, i)) == multiset(s) - multiset{s[i]} && |Without(s, i)| == |s| - 1
    ensures multiset(KeysOf(s, key)) == multiset(KeysOf(Without(s, i), key)) + multiset{key(s[i])}
  {
    WithoutOne(s, i);
    WithoutOne(KeysOf(s, key), i);
    assert KeysOf(Without(s, i), key) == Without(KeysOf(s, key), i);
    assert KeysOf(s, key)[i] == key(s[i]) && key(s[i]) in multiset(KeysOf(s, key));
  }

  /** unicode.IsSpace. */
  predicate IsSpace(c: char) {
    || '\t' <= c <= '\r' || c == ' ' || c == '\U{85}' || c == '\U{A0}' || c == '\U{1680}'
    || '\U{2000}' <= c <= '\U{200A}' || c in {'\U{2028}', '\U{2029}', '\U{202F}', '\U{205F}', '\U{3000}'}
  }

  /** strings.TrimSpace. */
  function TrimSpace(s: string): (r: string)
    ensures r != "" ==> !IsSpace(r[0]) && !IsSpace(r[|r| - 1])
    ensures s != "" && !IsSpace(s[0]) && !IsSpace(s[|s| - 1]) ==> r == s
    ensures |r| <= |s|
    decreases |s|
  {
    if s == "" then "" else
    if IsSpace(s[0]) then TrimSpace(s[1..]) else
    if IsSpace(s[|s| - 1]) then TrimSpace(s[..|s| - 1]) else s
  }

  /** Only white space is trimmed, and only from the ends. */
  lemma {:induction false} TrimMeans(s: string) returns (i: nat, j: nat)
    ensures i <= j <= |s| && TrimSpace(s) == s[i..j]
    ensures (forall k :: 0 <= k < i ==> IsSpace(s[k])) && forall k :: j <= k < |s| ==> IsSpace(s[k])
    decreases |s|
  {
    hide IsSpace;
    if s != "" && IsSpace(s[0]) {
      i, j := TrimMeans(s[1..]);
      assert s[1..][i..j] == s[i + 1..j + 1];
      forall k | j + 1 <= k < |s| ensures IsSpace(s[k]) { assert s[1..][k - 1] == s[k]; }
      forall k | 0 <= k < i + 1 ensures IsSpace(s[k]) { if k > 0 { assert s[1..][k - 1] == s[k]; } }
      i, j := i + 1, j + 1;
    } else if s != "" && IsSpace(s[|s| - 1]) {
      var n := |s| - 1;
      i, j := TrimMeans(s[..n]);
      assert s[..n][i..j] == s[i..j];
      forall k | j <= k < |s| ensures IsSpace(s[k]) { if k < n { assert s[..n][k] == s[k]; } }
    } else {
      i, j := 0, |s|;
    }
  }

  predicate Trimmed(s: string) { TrimSpace(s) == s }

  function LowerChar(c: char): char { if 'A' <= c <= 'Z' then c - 'A' + 'a' else c }

  function ToLower(s: string): (r: string)
    ensures |r| == |s|
  {
    seq(|s|, i requires 0 <= i < |s| => LowerChar(s[i]))
  }

  /** strings.EqualFold with a lower-case ASCII text: the long s and the Kelvin sign fold
      to ASCII letters too. */
  predicate EqualFold(s: string, low: string) {
    |s| == |low| && forall i :: 0 <= i < |s| ==>
      LowerChar(s[i]) == low[i] || (s[i] == '\U{17F}' && low[i] == 's') || (s[i] == '\U{212A}' && low[i] == 'k')
  }

  /** strings.LastIndexByte. */
  function LastIndex(s: string, c: char): (k: int)
    ensures -1 <= k < |s| && (k >= 0 ==> s[k] == c) && forall i :: k < i < |s| ==> s[i] != c
  {
    if s == "" then -1 else if s[|s| - 1] == c then |s| - 1 else LastIndex(s[..|s| - 1], c)
  }

  /** strings.Split at a character. */
  function Split(s: string, c: char): (r: seq<string>)
    ensures r != [] && forall x :: x in r ==> c !in x
    decreases |s|
  {
    var k := LastIndex(s, c);
    if k < 0 then [s] else
      assert c !in s[k + 1..];
      Split(s[..k], c) + [s[k + 1..]]
  }

  lemma NoSplit(s: string, c: char)
    requires c !in s
    ensures Split(s, c) == [s]
  {
    assert LastIndex(s, c) < 0;
  }

  lemma SplitAtLast(s: string, c: char, t: string)
    requires c !in t
    ensures Split(s + [c] + t, c) == Split(s, c) + [t]
  {
    var all := s + [c] + t;
    var k := LastIndex(all, c);
    assert all[|s|] == c && forall i :: |s| < i < |all| ==> all[i] == t[i - |s| - 1];
    assert k == |s| && all[..k] == s && all[k + 1..] == t;
  }

  function Digit(d: nat): char
    requires d < 10
  {
    "0123456789"[d]
  }

  /** The %d verb. */
  function Decimal(n: nat): (s: string)
    ensures s != "" && forall i :: 0 <= i < |s| ==> '0' <= s[i] <= '9'
  {
    if n < 10 then [Digit(n)] else Decimal(n / 10) + [Digit(n % 10)]
  }

  /** The number that decimal digits stand for. */
  ghost function Reading(s: string): int {
    if s == "" then 0 else 10 * Reading(s[..|s| - 1]) + (s[|s| - 1] as int - '0' as int)
  }

  /** A decimal reads as its number, and starts with a zero only for zero. */
  lemma {:induction false} DecimalReads(n: nat)
    ensures Reading(Decimal(n)) == n && (n > 0 ==> Decimal(n)[0] != '0')
  {
    assert forall d: nat :: d < 10 ==> Digit(d) as int - '0' as int == d;
    var s := Decimal(n);
    if n >= 10 {
      DecimalReads(n / 10);
      assert s[..|s| - 1] == Decimal(n / 10);
    } else {
      assert s[..0] == "";
    }
  }

  lemma {:induction false} DecimalInjective(m: nat, n: nat)
    ensures Decimal(m) == Decimal(n) ==> m == n
  {
    if Decimal(m) == Decimal(n) {
      var k := |Decimal(m)| - 1;
      assert Digit(m % 10) == Digit(n % 10) ==> m % 10 == n % 10;
      hide Digit;
      if m >= 10 && n >= 10 {
        assert Decimal(m)[..k] == Decimal(m / 10) && Decimal(n)[..k] == Decimal(n / 10);
        assert Decimal(m)[k] == Digit(m % 10) && Decimal(n)[k] == Digit(n % 10);
        DecimalInjective(m / 10, n / 10);
      } else {
        assert Decimal(m)[k] == Digit(m % 10) && Decimal(n)[k] == Digit(n % 10);
      }
    }
  }
}
