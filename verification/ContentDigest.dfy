/** The canonical text behind the content digest of scripts/buildDevToolsRelease.js. */
module ContentDigest {
  import opened Ordering

  datatype FileDigest = FileDigest(path: string, sha256: string)

  function Line(entry: FileDigest): string {
    entry.path + ":" + entry.sha256
  }

  /** Array.prototype.join with a newline. */
  function Join(lines: seq<string>): string {
    if lines == [] then ""
    else if |lines| == 1 then lines[0]
    else lines[0] + "\n" + Join(lines[1..])
  }

  function CanonicalText(entries: seq<FileDigest>): string {
    Join(StableSort(Map(entries, Line), StringLe))
  }

  function ContentDigest(entries: seq<FileDigest>, sha256: string -> string): string {
    sha256(CanonicalText(entries))
  }

  /** What the digests of real files look like: a hash of 64 characters, no line break anywhere. */
  predicate WellFormed(entry: FileDigest) {
    '\n' !in entry.path && '\n' !in entry.sha256 && |entry.sha256| == 64
  }

  /** The lines of a text, the inverse of Join. */
  function Lines(text: string): (r: seq<string>)
    ensures r != []
  {
    if text == [] then [""]
    else if text[0] == '\n' then [""] + Lines(text[1..])
    else var rest := Lines(text[1..]); [[text[0]] + rest[0]] + rest[1..]
  }

  lemma {:induction false} LinesOfLine(line: string, rest: string)
    requires '\n' !in line
    ensures Lines(line) == [line]
    ensures Lines(line + "\n" + rest) == [line] + Lines(rest)
  {
    if line == [] {
      assert line + "\n" + rest == "\n" + rest;
    } else {
      LinesOfLine(line[1..], rest);
      assert (line + "\n" + rest)[1..] == line[1..] + "\n" + rest;
      assert line == [line[0]] + line[1..];
    }
  }

  lemma {:induction false} LinesOfJoin(lines: seq<string>)
    requires lines != [] && forall l :: l in lines ==> '\n' !in l
    ensures Lines(Join(lines)) == lines
  {
    if |lines| == 1 {
      LinesOfLine(lines[0], "");
      assert lines == [lines[0]];
    } else {
      LinesOfJoin(lines[1..]);
      LinesOfLine(lines[0], Join(lines[1..]));
      assert lines == [lines[0]] + lines[1..];
    }
  }

  lemma SortedLines(entries: seq<FileDigest>) returns (lines: seq<string>)
    ensures lines == StableSort(Map(entries, Line), StringLe)
    ensures SortedBy(StringLe, lines) && multiset(lines) == multiset(Map(entries, Line))
    ensures |lines| == |entries|
    ensures (forall e :: e in entries ==> WellFormed(e)) ==> forall l :: l in lines ==> '\n' !in l && |l| > 0
  {
    StringLeIsTotalOrder();
    SortSorts(Map(entries, Line), StringLe);
    lines := StableSort(Map(entries, Line), StringLe);
    SameMembers(lines, Map(entries, Line));
    if forall e :: e in entries ==> WellFormed(e) {
      forall l | l in lines ensures '\n' !in l && |l| > 0 {
        var i :| 0 <= i < |entries| && l == Line(entries[i]);
        assert WellFormed(entries[i]);
      }
    }
  }

  /** The text does not depend on the order in which the files were found. */
  lemma CanonicalUnderPermutation(a: seq<FileDigest>, b: seq<FileDigest>)
    requires multiset(a) == multiset(b)
    ensures CanonicalText(a) == CanonicalText(b)
  {
    MapPermutation(a, b, Line);
    var la := SortedLines(a);
    var lb := SortedLines(b);
    StringLeIsTotalOrder();
    SortedUnique(la, lb, StringLe);
  }

  function Unline(line: string): FileDigest {
    if |line| < 65 then FileDigest("", "") else FileDigest(line[..|line| - 65], line[|line| - 64..])
  }

  lemma UnlineLines(entries: seq<FileDigest>)
    requires forall e :: e in entries ==> WellFormed(e)
    ensures Map(Map(entries, Line), Unline) == entries
  {
    forall i | 0 <= i < |entries| ensures Unline(Line(entries[i])) == entries[i] {
      assert WellFormed(entries[i]);
    }
  }

  lemma CanonicalTextSplits(entries: seq<FileDigest>, lines: seq<string>)
    requires lines == StableSort(Map(entries, Line), StringLe)
    requires forall l :: l in lines ==> '\n' !in l && |l| > 0
    ensures lines == if CanonicalText(entries) == "" then [] else Lines(CanonicalText(entries))
  {
    if lines != [] {
      LinesOfJoin(lines);
      assert lines[0] in lines;
    }
  }

  /** Two well-formed lists have the same text exactly when they hold the same files with the same digests. */
  lemma CanonicalTextIdentifies(a: seq<FileDigest>, b: seq<FileDigest>)
    requires forall e :: e in a ==> WellFormed(e)
    requires forall e :: e in b ==> WellFormed(e)
    ensures CanonicalText(a) == CanonicalText(b) <==> multiset(a) == multiset(b)
  {
    if multiset(a) == multiset(b) {
      CanonicalUnderPermutation(a, b);
    }
    if CanonicalText(a) == CanonicalText(b) {
      var la := SortedLines(a);
      var lb := SortedLines(b);
      CanonicalTextSplits(a, la);
      CanonicalTextSplits(b, lb);
      MapPermutation(Map(a, Line), Map(b, Line), Unline);
      UnlineLines(a);
      UnlineLines(b);
    }
  }

  /** With a collision-free hash the digest itself identifies the files. */
  lemma ContentDigestIdentifies(a: seq<FileDigest>, b: seq<FileDigest>, sha256: string -> string)
    requires forall x, y :: sha256(x) == sha256(y) ==> x == y
    requires forall e :: e in a ==> WellFormed(e)
    requires forall e :: e in b ==> WellFormed(e)
    ensures ContentDigest(a, sha256) == ContentDigest(b, sha256) <==> multiset(a) == multiset(b)
  {
    CanonicalTextIdentifies(a, b);
  }

  // ---- the text, spelled out ----

  /** Up to the first difference the same, and there the lesser character or the end of the text. */
  ghost predicate NotAfter(a: string, b: string) {
    a <= b || exists k :: 0 <= k < |a| && k < |b| && a[..k] == b[..k] && a[k] < b[k]
  }

  lemma {:induction false} LeIsNotAfter(a: string, b: string)
    requires StringLe(a, b)
    ensures NotAfter(a, b)
  {
    if a != [] && a[0] == b[0] {
      LeIsNotAfter(a[1..], b[1..]);
      assert a == [a[0]] + a[1..] && b == [b[0]] + b[1..];
      if !(a[1..] <= b[1..]) {
        var k :| 0 <= k < |a[1..]| && k < |b[1..]| && a[1..][..k] == b[1..][..k] && a[1..][k] < b[1..][k];
        DeeperDifference(a, b, k);
      }
    } else if a != [] {
      assert a[..0] == b[..0];
    }
  }

  lemma DeeperDifference(a: string, b: string, k: nat)
    requires a != [] && b != [] && a[0] == b[0] && k < |a[1..]| && k < |b[1..]|
    requires a[1..][..k] == b[1..][..k] && a[1..][k] < b[1..][k]
    ensures NotAfter(a, b)
  {
    assert a[..k + 1] == [a[0]] + a[1..][..k] && b[..k + 1] == [b[0]] + b[1..][..k];
    assert a[k + 1] < b[k + 1];
  }

  /** The hashed text holds one line `path:sha256` for every file, and the lines are in ascending order. */
  lemma CanonicalTextIs(entries: seq<FileDigest>)
    requires entries != [] && forall e :: e in entries ==> WellFormed(e)
    ensures var lines := Lines(CanonicalText(entries));
            && multiset(lines) == multiset(seq(|entries|, i requires 0 <= i < |entries| => entries[i].path + ":" + entries[i].sha256))
            && forall i, j :: 0 <= i < j < |lines| ==> NotAfter(lines[i], lines[j])
  {
    var lines := SortedLines(entries);
    LinesOfJoin(lines);
    assert Map(entries, Line) == seq(|entries|, i requires 0 <= i < |entries| => entries[i].path + ":" + entries[i].sha256);
    forall i, j | 0 <= i < j < |lines| ensures NotAfter(lines[i], lines[j]) {
      LeIsNotAfter(lines[i], lines[j]);
    }
  }
}
