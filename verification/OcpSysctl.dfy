/** The additive patch of the shared sysctl allowlist, on its text. */
module OcpSysctl {
  import opened Text

  /** The trimmed lines of a text. */
  function Lines(text: string): seq<string> { Trims(Split(text, '\n')) }

  function EndLine(text: string): string {
    if text != "" && text[|text| - 1] != '\n' then text + "\n" else text
  }

  /** One required line added unless it is blank or already there. */
  function Add(text: string, line: string): string {
    var entry := TrimSpace(line);
    if entry == "" || entry in Lines(text) then text else EndLine(text) + entry + "\n"
  }

  function AddAll(text: string, lines: seq<string>): string {
    if lines == [] then text else Add(AddAll(text, lines[..|lines| - 1]), lines[|lines| - 1])
  }

  /** The allowlist after the patch. */
  function MergedText(existing: string, required: string): string { AddAll(existing, Split(required, '\n')) }

  lemma {:induction false} TrimmedPart(s: string, c: char)
    requires c !in s
    ensures c !in TrimSpace(s)
    decreases |s|
  {
    if s != "" {
      if IsSpace(s[0]) { TrimmedPart(s[1..], c); }
      else if IsSpace(s[|s| - 1]) { TrimmedPart(s[..|s| - 1], c); }
    }
  }

  lemma TrimTwice(s: string)
    ensures TrimSpace(TrimSpace(s)) == TrimSpace(s)
  {}

  /** The pieces after an entry is appended. */
  lemma PiecesAfter(text: string, entry: string)
    requires '\n' !in entry
    ensures var parts := Split(EndLine(text) + entry, '\n');
            && parts[|parts| - 1] == entry && Split(EndLine(text) + entry + "\n", '\n') == parts + [""]
            && (Split(text, '\n') == parts[..|parts| - 1] || Split(text, '\n') == parts[..|parts| - 1] + [""])
  {
    hide LastIndex;
    SplitAtLast(EndLine(text) + entry, '\n', "");
    assert EndLine(text) + entry + ['\n'] + "" == EndLine(text) + entry + "\n";
    if text == "" {
      NoSplit(entry, '\n');
      NoSplit(text, '\n');
      assert EndLine(text) + entry == entry;
    } else {
      LastLine(text, entry);
    }
  }

  lemma LastLine(text: string, entry: string)
    requires '\n' !in entry && text != ""
    ensures var parts := Split(EndLine(text) + entry, '\n');
            && parts[|parts| - 1] == entry
            && (Split(text, '\n') == parts[..|parts| - 1] || Split(text, '\n') == parts[..|parts| - 1] + [""])
  {
    var n := |text| - 1;
    var before := if text[n] == '\n' then text[..n] else text;
    SplitAtLast(before, '\n', entry);
    SplitAtLast(before, '\n', "");
    hide Split;
    assert EndLine(text) == before + ['\n'] && before + ['\n'] + "" == EndLine(text);
  }

  /** Appending a line keeps the lines and adds that one. */
  lemma LinesAfter(text: string, entry: string)
    requires entry != "" && '\n' !in entry && TrimSpace(entry) == entry
    ensures forall x :: x != "" ==> (x in Lines(EndLine(text) + entry + "\n") <==> x in Lines(text) || x == entry)
  {
    PiecesAfter(text, entry);
    hide Split, TrimSpace, Lines;
    var parts := Split(EndLine(text) + entry, '\n');
    SameLines(text, EndLine(text) + entry + "\n", parts, entry);
  }

  /** The pieces of `text` but for a last empty one, then the entry, then an empty one. */
  lemma SameLines(text: string, whole: string, parts: seq<string>, entry: string)
    requires parts != [] && parts[|parts| - 1] == entry && entry != "" && TrimSpace(entry) == entry
    requires Split(whole, '\n') == parts + [""]
    requires Split(text, '\n') == parts[..|parts| - 1] || Split(text, '\n') == parts[..|parts| - 1] + [""]
    ensures forall x :: x != "" ==> (x in Lines(whole) <==> x in Lines(text) || x == entry)
  {
    hide Split;
    assert TrimSpace("") == "";
    hide TrimSpace;
    var n := |parts| - 1;
    var a, b := Lines(whole), Lines(text);
    assert forall i :: 0 <= i < n ==> a[i] == b[i];
    assert a[n] == entry && a[n + 1] == "" && |a| == n + 2;
    forall x | x != "" ensures x in a <==> x in b || x == entry {
      if x in a {
        var i :| 0 <= i < |a| && a[i] == x;
        assert i < n ==> b[i] == x;
      }
      if x in b {
        var i :| 0 <= i < |b| && b[i] == x;
        assert i < n;
        assert a[i] == x;
      }
    }
  }

  lemma AddStep(text: string, line: string)
    requires '\n' !in line
    ensures text <= Add(text, line)
    ensures forall x :: x != "" ==> (x in Lines(Add(text, line)) <==> x in Lines(text) || x == TrimSpace(line))
  {
    TrimmedPart(line, '\n');
    TrimTwice(line);
    hide TrimSpace, Lines;
    if TrimSpace(line) != "" && TrimSpace(line) !in Lines(text) { LinesAfter(text, TrimSpace(line)); }
  }

  lemma {:induction false} LinesGrow(text: string, lines: seq<string>)
    requires forall l :: l in lines ==> '\n' !in l
    ensures text <= AddAll(text, lines)
    ensures forall x :: x != "" ==> (x in Lines(AddAll(text, lines)) <==> x in Lines(text) || x in Trims(lines))
  {
    if lines != [] {
      var n := |lines| - 1;
      assert lines == lines[..n] + [lines[n]];
      LinesGrow(text, lines[..n]);
      AddStep(AddAll(text, lines[..n]), lines[n]);
      hide Add, TrimSpace, Lines;
      assert Trims(lines) == Trims(lines[..n]) + [TrimSpace(lines[n])];
    }
  }

  function Trims(raw: seq<string>): (r: seq<string>)
    ensures |r| == |raw| && forall i :: 0 <= i < |r| ==> r[i] == TrimSpace(raw[i])
  {
    seq(|raw|, i requires 0 <= i < |raw| => TrimSpace(raw[i]))
  }

  lemma {:induction false} NothingToAdd(text: string, lines: seq<string>)
    requires forall x :: x in Trims(lines) && x != "" ==> x in Lines(text)
    ensures AddAll(text, lines) == text
  {
    hide TrimSpace, Lines;
    if lines != [] {
      var n := |lines| - 1;
      assert Trims(lines) == Trims(lines[..n]) + [TrimSpace(lines[n])];
      NothingToAdd(text, lines[..n]);
    }
  }

  /** The old text is a prefix of the new one, every required entry is there, nothing else
      was added, and a second patch changes nothing. */
  lemma MergedTextMeans(existing: string, required: string)
    ensures existing <= MergedText(existing, required)
    ensures forall x :: x != "" ==>
              (x in Lines(MergedText(existing, required)) <==> x in Lines(existing) || x in Lines(required))
    ensures MergedText(MergedText(existing, required), required) == MergedText(existing, required)
    ensures MergedText(existing, required) == existing <==>
            forall x :: x in Lines(required) && x != "" ==> x in Lines(existing)
  {
    var lines := Split(required, '\n');
    var merged := MergedText(existing, required);
    LinesGrow(existing, lines);
    assert Lines(required) == Trims(lines);
    hide TrimSpace, Split, AddAll, Lines;
    NothingToAdd(merged, lines);
    if forall x :: x in Lines(required) && x != "" ==> x in Lines(existing) { NothingToAdd(existing, lines); }
  }

  /** The two loops of mergeOCPSysctlAllowlist: what was seen, then line by line. */
  method MergeText(existing: string, required: string) returns (merged: string)
    ensures merged == MergedText(existing, required)
  {
    hide TrimSpace, Split, EndLine;
    var old_lines := Split(existing, '\n');
    var seen: set<string> := {};
    for i := 0 to |old_lines|
      invariant forall x :: x in seen <==> x in Lines(existing)[..i]
    {
      seen := seen + {TrimSpace(old_lines[i])};
    }
    merged := existing;
    var lines := Split(required, '\n');
    for i := 0 to |lines|
      invariant merged == AddAll(existing, lines[..i])
      invariant forall x :: x != "" ==> (x in seen <==> x in Lines(merged))
    {
      assert lines[..i + 1][..i] == lines[..i];
      var entry := TrimSpace(lines[i]);
      if entry == "" || entry in seen { continue; }
      TrimmedPart(lines[i], '\n');
      TrimTwice(lines[i]);
      LinesAfter(merged, entry);
      merged := EndLine(merged) + entry + "\n";
      seen := seen + {entry};
    }
    assert lines[..|lines|] == lines;
  }
}
