/** Generated resource names: SanitizeIdentifier, with the hash left uninterpreted. */
module Identifiers {
  import opened Text

  const MAX_LENGTH := 30
  const HASH_LENGTH := 6

  /** FNV-32a in eight hex digits; nothing is known about collisions. */
  type Hash = h: string -> string | forall s :: |h(s)| == 8 witness (s => "00000000")

  function Join(segments: seq<string>): string {
    var n := |segments| - 1;
    if n < 0 then "" else if n == 0 then segments[0] else Join(segments[..n]) + "-" + segments[n]
  }

  function DashSpaces(s: string): (r: string)
    ensures |r| == |s|
  {
    seq(|s|, i requires 0 <= i < |s| => if s[i] == ' ' then '-' else s[i])
  }

  function Kept(segments: seq<string>): seq<string> {
    if segments == [] then [] else
      var n := |segments| - 1;
      Kept(segments[..n]) + match segments[n]
        case "nvidia" => []
        case "thinksystem" => ["ts"]
        case "poweredge" => ["pe"]
        case other => [other]
  }

  function Normalize(s: string): string { Join(Kept(Split(DashSpaces(ToLower(s)), '-'))) }

  function TrimRight(s: string): string {
    if s != "" && s[|s| - 1] in {'-', '_', '.'} then TrimRight(s[..|s| - 1]) else s
  }

  function Truncate(h: Hash, s: string): (r: string)
    ensures |s| <= MAX_LENGTH ==> r == s
  {
    if |s| <= MAX_LENGTH then s
    else TrimRight(s[..MAX_LENGTH - HASH_LENGTH - 1]) + "-" + h(s)[..HASH_LENGTH]
  }

  function Sanitize(h: Hash, s: string): string { Truncate(h, Normalize(s)) }

  // ---------- The names tried for one bucket ----------

  function Base(identifier: string, rails: nat): string { identifier + "-r" + Decimal(rails) }

  /** The n-th name tried: the base, then the base with -2, -3, ... */
  function Attempt(identifier: string, rails: nat, n: nat): string {
    if n == 0 then Base(identifier, rails) else Base(identifier, rails) + "-" + Decimal(n + 1)
  }

  function Candidate(h: Hash, identifier: string, rails: nat, n: nat): string {
    Sanitize(h, Attempt(identifier, rails, n))
  }

  lemma DigitsUntouched(s: string, t: string)
    requires forall i :: 0 <= i < |t| ==> '0' <= t[i] <= '9' || t[i] == 'r'
    ensures DashSpaces(ToLower(s + "-" + t)) == DashSpaces(ToLower(s)) + "-" + t
  {}

  lemma KeptAppend(segments: seq<string>, t: string)
    requires t !in {"nvidia", "thinksystem", "poweredge"}
    ensures Kept(segments + [t]) == Kept(segments) + [t]
  {
    assert (segments + [t])[..|segments|] == segments;
  }

  /** Normalising "s-t" only puts "-t" behind what s has become. */
  lemma NormalizeAppend(s: string, t: string)
    requires t != "" && forall i :: 0 <= i < |t| ==> '0' <= t[i] <= '9' || t[i] == 'r'
    ensures Kept(Split(DashSpaces(ToLower(s)), '-')) != [] ==> Normalize(s + "-" + t) == Normalize(s) + "-" + t
    ensures Kept(Split(DashSpaces(ToLower(s + "-" + t)), '-')) != []
  {
    var low := DashSpaces(ToLower(s));
    DigitsUntouched(s, t);
    SplitAtLast(low, '-', t);
    assert t !in {"nvidia", "thinksystem", "poweredge"} by {
      assert t[0] !in {'n', 't', 'p'} && "nvidia"[0] == 'n' && "thinksystem"[0] == 't' && "poweredge"[0] == 'p';
    }
    KeptAppend(Split(low, '-'), t);
    var kept := Kept(Split(low, '-'));
    assert (kept + [t])[..|kept|] == kept;
  }

  lemma NormalizedAttempt(identifier: string, rails: nat, n: nat)
    ensures var base := Normalize(Base(identifier, rails));
            Normalize(Attempt(identifier, rails, n)) == if n == 0 then base else base + "-" + Decimal(n + 1)
  {
    var t := "r" + Decimal(rails);
    assert Base(identifier, rails) == identifier + "-" + t;
    NormalizeAppend(identifier, t);
    if n > 0 { NormalizeAppend(Base(identifier, rails), Decimal(n + 1)); }
  }

  /** Names that fit the length limit are all different. */
  lemma FittingCandidatesDiffer(h: Hash, identifier: string, rails: nat, m: nat, n: nat)
    requires m < n
    requires |Normalize(Attempt(identifier, rails, m))| <= MAX_LENGTH
    requires |Normalize(Attempt(identifier, rails, n))| <= MAX_LENGTH
    ensures Candidate(h, identifier, rails, m) != Candidate(h, identifier, rails, n)
  {
    NormalizedAttempt(identifier, rails, m);
    NormalizedAttempt(identifier, rails, n);
    var base := Normalize(Base(identifier, rails));
    var a, b := Normalize(Attempt(identifier, rails, m)), Normalize(Attempt(identifier, rails, n));
    if a == b {
      assert m > 0;
      assert a[|base| + 1..] == Decimal(m + 1) && b[|base| + 1..] == Decimal(n + 1);
      DecimalInjective(m + 1, n + 1);
    }
  }

  // ---------- What a sanitized name is ----------

  lemma {:induction false} TrimRightMeans(s: string)
    ensures |TrimRight(s)| <= |s| && TrimRight(s) == s[..|TrimRight(s)|]
    ensures TrimRight(s) != "" ==> TrimRight(s)[|TrimRight(s)| - 1] !in {'-', '_', '.'}
    ensures forall i :: |TrimRight(s)| <= i < |s| ==> s[i] in {'-', '_', '.'}
    decreases |s|
  {
    if s != "" && s[|s| - 1] in {'-', '_', '.'} { TrimRightMeans(s[..|s| - 1]); }
  }

  /** A sanitized name has at most 30 characters: the normalised one if that fits, else a
      beginning of it without trailing separators and six digits of its hash. */
  lemma SanitizeMeans(h: Hash, s: string)
    ensures |Sanitize(h, s)| <= 30
    ensures var n := Normalize(s);
            if |n| <= 30 then Sanitize(h, s) == n
            else exists k :: 0 <= k <= 23 && Sanitize(h, s) == n[..k] + "-" + h(n)[..6]
                             && (k > 0 ==> n[k - 1] !in {'-', '_', '.'}) && forall i :: k <= i < 23 ==> n[i] in {'-', '_', '.'}
  {
    hide Normalize;
    var n := Normalize(s);
    if |n| > 30 {
      TrimRightMeans(n[..23]);
      var k := |TrimRight(n[..23])|;
      assert TrimRight(n[..23]) == n[..k];
    }
  }

  lemma {:induction false} SplitJoin(segments: seq<string>)
    requires segments != [] && forall i :: 0 <= i < |segments| ==> '-' !in segments[i]
    ensures Split(Join(segments), '-') == segments
  {
    hide Split;
    var n := |segments| - 1;
    var last := segments[n];
    if n == 0 {
      NoSplit(last, '-');
      assert segments == [last];
    } else {
      var front := segments[..n];
      SplitJoin(front);
      assert Join(segments) == Join(front) + ['-'] + last by { assert "-" == ['-']; }
      SplitAtLast(Join(front), '-', last);
      assert segments == front + [last];
    }
  }

  lemma {:induction false} KeptMeans(segments: seq<string>)
    ensures forall x :: x in Kept(segments) ==> x !in {"nvidia", "thinksystem", "poweredge"}
    ensures forall x :: x in Kept(segments) <==>
              (x in segments && x !in {"nvidia", "thinksystem", "poweredge"})
              || (x == "ts" && "thinksystem" in segments) || (x == "pe" && "poweredge" in segments)
    ensures |Kept(segments)| <= |segments|
  {
    if segments != [] {
      var n := |segments| - 1;
      assert segments == segments[..n] + [segments[n]];
      KeptMeans(segments[..n]);
    }
  }

  lemma {:induction false} KeptTwice(segments: seq<string>)
    requires forall x :: x in segments ==> x !in {"nvidia", "thinksystem", "poweredge"}
    ensures Kept(segments) == segments
  {
    if segments != [] {
      var n := |segments| - 1;
      assert segments[n] in segments && forall x :: x in segments[..n] ==> x in segments;
      KeptTwice(segments[..n]);
      assert segments == segments[..n] + [segments[n]];
    }
  }

  predicate Plain(s: string) { forall c :: c in s ==> c != ' ' && !('A' <= c <= 'Z') }

  lemma PlainPart(s: string, i: nat, j: nat)
    requires Plain(s) && i <= j <= |s|
    ensures Plain(s[i..j])
  {
    forall c | c in s[i..j] ensures c in s {
      var k :| 0 <= k < j - i && s[i..j][k] == c;
      assert s[i + k] == c;
    }
  }

  lemma {:induction false} SplitPlain(s: string)
    requires Plain(s)
    ensures forall x :: x in Split(s, '-') ==> Plain(x)
    decreases |s|
  {
    var k := LastIndex(s, '-');
    if k >= 0 {
      PlainPart(s, k + 1, |s|);
      PlainPart(s, 0, k);
      assert s[0..k] == s[..k] && s[k + 1..|s|] == s[k + 1..];
      SplitPlain(s[..k]);
      var front, last := Split(s[..k], '-'), s[k + 1..];
      assert Split(s, '-') == front + [last];
      hide Plain;
      forall x | x in front + [last] ensures Plain(x) { assert x in front || x == last; }
    }
  }

  lemma {:induction false} JoinPlain(segments: seq<string>)
    requires forall x :: x in segments ==> Plain(x)
    ensures Plain(Join(segments))
  {
    var n := |segments| - 1;
    if n > 0 {
      JoinPlain(segments[..n]);
      assert segments[n] in segments;
    } else if n == 0 {
      assert segments[0] in segments;
    }
  }

  lemma PlainStays(s: string)
    requires Plain(s)
    ensures DashSpaces(ToLower(s)) == s
  {
    forall i | 0 <= i < |s| ensures DashSpaces(ToLower(s))[i] == s[i] { assert s[i] in s; }
  }

  /** The segments a name is normalised to. */
  function Segments(s: string): seq<string> { Kept(Split(DashSpaces(ToLower(s)), '-')) }

  lemma {:induction false} KeptPlain(segments: seq<string>)
    requires forall x :: x in segments ==> Plain(x) && '-' !in x
    ensures forall x :: x in Kept(segments) ==> Plain(x) && '-' !in x
  {
    if segments != [] {
      var n := |segments| - 1;
      assert segments[n] in segments && forall x :: x in segments[..n] ==> x in segments;
      KeptPlain(segments[..n]);
      assert Plain("ts") && Plain("pe") && '-' !in "ts" && '-' !in "pe";
      hide Plain;
    }
  }

  lemma LowPlain(s: string)
    ensures Plain(DashSpaces(ToLower(s)))
  {
    var low := DashSpaces(ToLower(s));
    forall c | c in low ensures c != ' ' && !('A' <= c <= 'Z') { var i :| 0 <= i < |low| && low[i] == c; }
  }

  lemma SegmentsMean(s: string)
    ensures forall i :: 0 <= i < |Segments(s)| ==>
              var x := Segments(s)[i]; Plain(x) && '-' !in x && x !in {"nvidia", "thinksystem", "poweredge"}
  {
    hide Split, Kept, Plain, DashSpaces, ToLower;
    var low := DashSpaces(ToLower(s));
    LowPlain(s);
    SplitPlain(low);
    KeptMeans(Split(low, '-'));
    KeptPlain(Split(low, '-'));
    forall i | 0 <= i < |Segments(s)|
      ensures var x := Segments(s)[i]; Plain(x) && '-' !in x && x !in {"nvidia", "thinksystem", "poweredge"}
    {
      assert Segments(s)[i] in Segments(s);
    }
  }

  /** A normalised name is lower-case without spaces, has no vendor segment left, and is
      normal already. */
  lemma NormalizeMeans(s: string)
    ensures Plain(Normalize(s)) && Normalize(Normalize(s)) == Normalize(s)
    ensures forall x :: x in Split(Normalize(s), '-') ==> x !in {"nvidia", "thinksystem", "poweredge"}
  {
    SegmentsMean(s);
    hide Split, Kept, DashSpaces, ToLower, Plain;
    var kept := Segments(s);
    JoinPlain(kept);
    PlainStays(Normalize(s));
    KeptTwice(kept);
    if kept == [] {
      NoSplit("", '-');
      KeptTwice([""]);
    } else {
      SplitJoin(kept);
    }
  }

  /** The names tried for a bucket of a GPU and a rail count: the two joined, and then with
      2, 3 and so on behind. */
  lemma AttemptMeans(identifier: string, rails: nat, n: nat)
    ensures Attempt(identifier, rails, 0) == identifier + "-r" + Decimal(rails)
    ensures Attempt(identifier, rails, n + 1) == identifier + "-r" + Decimal(rails) + "-" + Decimal(n + 2)
  {}
}
