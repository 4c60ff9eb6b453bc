/**
  What the tag-of-interest post-processor computes: one pass deduplicates one tag line, and
  repeating it for line after line is proved to be a single greedy scan of the tag lines.
 */
module ToiSpec {
  import opened ToiText

  const HEADER_LINES := 6
  const MAX_LINES := 10000
  const MAX_EPC_NIBBLES := 64
  const TOO_LONG := 0xFFFF

  /** Where the code looks for a line's EPC; -1 when the packet type is missing. */
  function TypeAt(line: string): int {
    Find(line, ",T5,")
  }

  function LengthField(line: string): string {
    Slice(line, TypeAt(line) + 4, TypeAt(line) + 6)
  }

  /** int() accepts the length field. */
  predicate Parsable(line: string) {
    IntOf(LengthField(line)).Some?
  }

  /** The EPC length in nibbles; negative when the field has a minus sign. */
  function EpcLength(line: string): int
    requires Parsable(line)
  {
    IntOf(LengthField(line)).value * 2
  }

  predicate Overlong(line: string)
    requires Parsable(line)
  {
    EpcLength(line) > MAX_EPC_NIBBLES
  }

  function Epc(line: string): string
    requires Parsable(line)
  {
    Slice(line, TypeAt(line) + 7, TypeAt(line) + 7 + EpcLength(line))
  }

  lemma EpcInLine(line: string)
    requires Parsable(line)
    ensures Contains(line, Epc(line))
  {
    hide IntOf, Slice, Contains, TypeAt;
    SliceIsContained(line, TypeAt(line) + 7, TypeAt(line) + 7 + EpcLength(line));
  }

  /** p is where the first ",T5," of the line begins, or -1 when it has none. */
  predicate TypePosition(line: string, p: int) {
    || (p == -1 && !Contains(line, ",T5,"))
    || (0 <= p && OccursAt(line, ",T5,", p) && forall j :: 0 <= j < p ==> !OccursAt(line, ",T5,", j))
  }

  lemma FieldAt(line: string, p: int)
    requires TypePosition(line, p) && p + 6 <= |line|
    ensures TypeAt(line) == p && LengthField(line) == [line[p + 4], line[p + 5]]
  {
    if p >= 0 {
      assert Contains(line, ",T5,");
    }
    assert Bound(line, p + 4) == p + 4 && Bound(line, p + 6) == p + 6;
    assert line[p + 4..p + 6] == [line[p + 4], line[p + 5]];
  }

  /** A line whose length field holds two digits: their value counts bytes, at most 32, two characters each. */
  lemma EpcOfLine(line: string, p: int)
    requires TypePosition(line, p) && p + 6 <= |line|
    requires '0' <= line[p + 4] <= '9' && '0' <= line[p + 5] <= '9'
    ensures Parsable(line)
    ensures var bytes := 10 * (line[p + 4] as int - 48) + (line[p + 5] as int - 48);
            && (Overlong(line) <==> bytes > 32)
            && (|line| >= p + 7 + 2 * bytes ==> Epc(line) == line[p + 7..p + 7 + 2 * bytes])
            && (p + 7 <= |line| < p + 7 + 2 * bytes ==> Epc(line) == line[p + 7..])
            && (|line| < p + 7 ==> Epc(line) == "")
  {
    hide IntOf, TypeAt, LengthField;
    FieldAt(line, p);
    IntOfTwo(line[p + 4], line[p + 5]);
  }

  /** A length field with a minus sign: the EPC ends that many characters before it starts, counted round the end. */
  lemma EpcOfMinusLine(line: string, p: int)
    requires TypePosition(line, p) && p + 6 <= |line|
    requires line[p + 4] == '-' && '0' <= line[p + 5] <= '9'
    ensures Parsable(line) && !Overlong(line)
    ensures var end := p + 7 - 2 * (line[p + 5] as int - 48);
            Epc(line) == if end < 0 && p + 7 <= |line| + end then line[p + 7..|line| + end] else ""
  {
    hide IntOf, TypeAt, LengthField;
    FieldAt(line, p);
    IntOfTwo('-', line[p + 5]);
  }

  predicate AllParsable(lines: seq<string>) {
    forall l :: l in lines ==> Parsable(l)
  }

  /** The lines that do not contain the given EPC. */
  function Others(epc: string, lines: seq<string>): (r: seq<string>)
    ensures |r| <= |lines|
    ensures forall l :: l in r <==> l in lines && !Contains(l, epc)
  {
    if lines == [] then []
    else if Contains(lines[0], epc) then Others(epc, lines[1..])
    else [lines[0]] + Others(epc, lines[1..])
  }

  lemma {:induction false} OthersSnoc(epc: string, lines: seq<string>, l: string)
    ensures Others(epc, lines + [l]) == Others(epc, lines) + if Contains(l, epc) then [] else [l]
    decreases |lines|
  {
    if lines == [] {
      assert lines + [l] == [l];
      assert Others(epc, [l][1..]) == [];
    } else {
      assert (lines + [l])[1..] == lines[1..] + [l];
      OthersSnoc(epc, lines[1..], l);
    }
  }

  /** A tag line and how many lines were read for it. */
  datatype Tag = Tag(line: string, count: nat)

  /** The line as it is written once its count is known. */
  function Counted(line: string, count: nat): string {
    StripNewlines(line) + "," + Decimal(count) + "\n"
  }

  /** The text of a line stays as it is, and the count goes between it and its newline. */
  lemma CountedKeepsLine(body: string, count: nat)
    requires body == "" || body[|body| - 1] != '\n'
    ensures Counted(body + "\n", count) == body + "," + Decimal(count) + "\n"
    ensures Counted(body, count) == body + "," + Decimal(count) + "\n"
  {
    assert StripNewlines(body + "\n") == body by {
      assert (body + "\n")[..|body|] == body;
    }
  }

  function Render(tags: seq<Tag>): (r: seq<string>)
    ensures |r| == |tags|
  {
    seq(|tags|, i requires 0 <= i < |tags| => Counted(tags[i].line, tags[i].count))
  }

  // ---- Pass after pass ----

  /** Repeating the pass until no tag line is left: each pass keeps its line and counts the lines with its EPC. */
  function Singulate(tags: seq<string>): seq<Tag>
    requires AllParsable(tags)
    decreases |tags|
  {
    if tags == [] then []
    else
      var kept := Others(Epc(tags[0]), tags[1..]);
      [Tag(tags[0], |tags| - |kept|)] + Singulate(kept)
  }

  // ---- One greedy scan ----

  ghost predicate ParsableTags(tags: seq<Tag>) {
    forall i :: 0 <= i < |tags| ==> Parsable(tags[i].line)
  }

  /** Counts a line towards the first tag whose EPC it contains, or starts a new tag. */
  ghost function Insert(found: seq<Tag>, line: string): (r: seq<Tag>)
    requires ParsableTags(found) && Parsable(line)
    ensures ParsableTags(r)
  {
    if found == [] then [Tag(line, 1)]
    else if Contains(line, Epc(found[0].line)) then [found[0].(count := found[0].count + 1)] + found[1..]
    else [found[0]] + Insert(found[1..], line)
  }

  ghost function Scan(tags: seq<string>): (r: seq<Tag>)
    requires AllParsable(tags)
    ensures ParsableTags(r)
    decreases |tags|
  {
    if tags == [] then []
    else Insert(Scan(tags[..|tags| - 1]), tags[|tags| - 1])
  }

  lemma {:induction false} SingulateParsable(tags: seq<string>)
    requires AllParsable(tags)
    ensures ParsableTags(Singulate(tags))
    decreases |tags|
  {
    if tags != [] {
      SingulateParsable(Others(Epc(tags[0]), tags[1..]));
    }
  }

  /** Singulate, one step unfolded. */
  lemma SingulateStep(first: string, rest: seq<string>)
    requires AllParsable([first] + rest)
    ensures AllParsable(rest) && AllParsable(Others(Epc(first), rest))
    ensures var kept := Others(Epc(first), rest);
            Singulate([first] + rest) == [Tag(first, 1 + |rest| - |kept|)] + Singulate(kept)
  {
    hide Contains, Epc, Parsable;
    var tags := [first] + rest;
    assert tags[0] == first && tags[1..] == rest;
    assert AllParsable(rest) by {
      forall l | l in rest ensures Parsable(l) {
        assert l in tags;
      }
    }
  }

  /** One more line at the end is counted where the scan counts it. */
  lemma {:induction false} SingulateSnoc(tags: seq<string>, line: string)
    requires AllParsable(tags) && Parsable(line)
    ensures ParsableTags(Singulate(tags))
    ensures Singulate(tags + [line]) == Insert(Singulate(tags), line)
    decreases |tags|, 1
  {
    hide Contains, Epc, Parsable;
    if tags == [] {
      assert tags + [line] == [line] + [];
      SingulateStep(line, []);
    } else {
      hide Singulate;
      SingulateSnocStep(tags[0], tags[1..], line);
      assert [tags[0]] + tags[1..] == tags;
    }
  }

  lemma {:induction false} SingulateSnocStep(first: string, rest: seq<string>, line: string)
    requires AllParsable([first] + rest) && Parsable(line)
    ensures ParsableTags(Singulate([first] + rest))
    ensures Singulate([first] + rest + [line]) == Insert(Singulate([first] + rest), line)
    decreases |rest| + 1, 0
  {
    hide Contains, Epc, Parsable, Singulate, Others;
    var epc := Epc(first);
    var kept := Others(epc, rest);
    SingulateParsable([first] + rest);
    assert [first] + rest + [line] == [first] + (rest + [line]);
    SingulateStep(first, rest);
    SingulateStep(first, rest + [line]);
    OthersSnoc(epc, rest, line);
    assert Singulate([first] + rest)[1..] == Singulate(kept);
    if Contains(line, epc) {
      assert kept + [] == kept;
    } else {
      SingulateSnoc(kept, line);
    }
  }

  /** The repeated passes and the single greedy scan compute the same tags and the same counts. */
  lemma {:induction false} PassesAreScan(tags: seq<string>)
    requires AllParsable(tags)
    ensures Singulate(tags) == Scan(tags)
    decreases |tags|
  {
    if tags != [] {
      var init, last := tags[..|tags| - 1], tags[|tags| - 1];
      assert tags == init + [last];
      PassesAreScan(init);
      SingulateSnoc(init, last);
    }
  }

  // ---- Conservation ----

  function SumCounts(tags: seq<Tag>): nat {
    if tags == [] then 0 else tags[0].count + SumCounts(tags[1..])
  }

  /** No read is lost or invented: the counts add up to the number of tag lines. */
  lemma {:induction false} ReadsConserved(tags: seq<string>)
    requires AllParsable(tags)
    ensures SumCounts(Singulate(tags)) == |tags|
    decreases |tags|
  {
    if tags != [] {
      ReadsConserved(Others(Epc(tags[0]), tags[1..]));
    }
  }

  /** Every surviving tag was read at least once. */
  lemma {:induction false} CountsPositive(tags: seq<string>)
    requires AllParsable(tags)
    ensures forall t :: t in Singulate(tags) ==> t.count >= 1
    decreases |tags|
  {
    if tags != [] {
      CountsPositive(Others(Epc(tags[0]), tags[1..]));
    }
  }

  // ---- Which lines survive ----

  function Survivors(tags: seq<Tag>): (r: seq<string>)
    ensures |r| == |tags|
  {
    seq(|tags|, i requires 0 <= i < |tags| => tags[i].line)
  }

  /** a can be obtained from b by leaving lines out. */
  predicate Subsequence(a: seq<string>, b: seq<string>) {
    if a == [] then true
    else if b == [] then false
    else if a[0] == b[0] then Subsequence(a[1..], b[1..])
    else Subsequence(a, b[1..])
  }

  lemma {:induction false} SubsequenceTransitive(a: seq<string>, b: seq<string>, c: seq<string>)
    requires Subsequence(a, b) && Subsequence(b, c)
    ensures Subsequence(a, c)
    decreases |b| + |c|
  {
    if a != [] {
      if b[0] == c[0] {
        if a[0] == b[0] {
          SubsequenceTransitive(a[1..], b[1..], c[1..]);
        } else {
          SubsequenceTransitive(a, b[1..], c[1..]);
          SubsequenceLonger(a, c[0], c[1..]);
        }
      } else {
        SubsequenceTransitive(a, b, c[1..]);
        SubsequenceLonger(a, c[0], c[1..]);
      }
    }
  }

  lemma {:induction false} SubsequenceLonger(a: seq<string>, x: string, b: seq<string>)
    requires Subsequence(a, b)
    ensures Subsequence(a, [x] + b)
    decreases |b|, 1
  {
    assert ([x] + b)[1..] == b;
    if a != [] && a[0] == x {
      SubsequenceTail(a, b);
    }
  }

  lemma {:induction false} SubsequenceTail(a: seq<string>, b: seq<string>)
    requires Subsequence(a, b) && a != []
    ensures Subsequence(a[1..], b)
    decreases |b|, 0
  {
    if a[0] == b[0] {
      SubsequenceLonger(a[1..], b[0], b[1..]);
      assert [b[0]] + b[1..] == b;
    } else {
      SubsequenceTail(a, b[1..]);
      SubsequenceLonger(a[1..], b[0], b[1..]);
      assert [b[0]] + b[1..] == b;
    }
  }

  lemma {:induction false} OthersSubsequence(epc: string, lines: seq<string>)
    ensures Subsequence(Others(epc, lines), lines)
    decreases |lines|
  {
    if lines != [] {
      OthersSubsequence(epc, lines[1..]);
      if Contains(lines[0], epc) {
        SubsequenceLonger(Others(epc, lines[1..]), lines[0], lines[1..]);
        assert [lines[0]] + lines[1..] == lines;
      }
    }
  }

  /** The surviving lines are original lines in their original order. */
  lemma {:induction false} SurvivorsInOrder(tags: seq<string>)
    requires AllParsable(tags)
    ensures Subsequence(Survivors(Singulate(tags)), tags)
    decreases |tags|
  {
    hide Contains, Epc, Parsable;
    if tags != [] {
      var kept := Others(Epc(tags[0]), tags[1..]);
      SurvivorsInOrder(kept);
      OthersSubsequence(Epc(tags[0]), tags[1..]);
      SubsequenceTransitive(Survivors(Singulate(kept)), kept, tags[1..]);
      assert Survivors(Singulate(tags))[1..] == Survivors(Singulate(kept));
    }
  }

  lemma {:induction false} SurvivorsAreLines(tags: seq<string>)
    requires AllParsable(tags)
    ensures forall t :: t in Singulate(tags) ==> t.line in tags
    decreases |tags|
  {
    if tags != [] {
      SurvivorsAreLines(Others(Epc(tags[0]), tags[1..]));
    }
  }

  /** No surviving line contains the EPC of an earlier survivor. */
  ghost predicate Separated(tags: seq<Tag>)
    requires ParsableTags(tags)
  {
    forall i, j :: 0 <= i < j < |tags| ==> !Contains(tags[j].line, Epc(tags[i].line))
  }

  lemma {:induction false} SurvivorsSeparated(tags: seq<string>)
    requires AllParsable(tags)
    ensures ParsableTags(Singulate(tags))
    ensures Separated(Singulate(tags))
    decreases |tags|
  {
    hide Contains, Epc, Parsable;
    SingulateParsable(tags);
    if tags != [] {
      var kept := Others(Epc(tags[0]), tags[1..]);
      SurvivorsSeparated(kept);
      SurvivorsAreLines(kept);
    }
  }

  /** The EPCs of the survivors are pairwise different. */
  lemma SurvivorEpcsDistinct(tags: seq<string>, i: nat, j: nat)
    requires AllParsable(tags)
    requires i < j < |Singulate(tags)|
    ensures Parsable(Singulate(tags)[i].line) && Parsable(Singulate(tags)[j].line)
    ensures Epc(Singulate(tags)[i].line) != Epc(Singulate(tags)[j].line)
  {
    SurvivorsSeparated(tags);
    EpcInLine(Singulate(tags)[j].line);
  }

  /** The tag accounts for the line: the line contains the tag's EPC. */
  ghost predicate AccountsFor(tag: Tag, line: string) {
    Parsable(tag.line) && Contains(line, Epc(tag.line))
  }

  ghost predicate AllIn(a: seq<string>, b: seq<string>) {
    forall l :: l in a ==> l in b
  }

  /** Every line, dropped or not, contains the EPC of a survivor that occurs no later in the input. */
  lemma {:induction false} EveryLineAccountedFor(tags: seq<string>, m: nat)
    requires AllParsable(tags) && m < |tags|
    ensures exists t :: t in Singulate(tags) && t.line in tags[..m + 1] && AccountsFor(t, tags[m])
    decreases |tags|
  {
    hide Contains, Epc, Parsable;
    var epc := Epc(tags[0]);
    if Contains(tags[m], epc) {
      assert Singulate(tags)[0].line == tags[0];
      assert tags[..m + 1][0] == tags[0];
    } else {
      EpcInLine(tags[0]);
      var kept := Others(epc, tags[1..]);
      var k := PositionInOthers(epc, tags[1..], m - 1);
      EveryLineAccountedFor(kept, k);
      var t :| t in Singulate(kept) && t.line in kept[..k + 1] && AccountsFor(t, kept[k]);
      assert t in Singulate(tags);
      assert AllIn(tags[1..][..m], tags[..m + 1]) by {
        assert tags[1..][..m] == tags[..m + 1][1..];
      }
    }
  }

  /** Where a kept line ends up; the lines kept up to it come from the lines up to it. */
  lemma {:induction false} PositionInOthers(epc: string, lines: seq<string>, m: nat) returns (k: nat)
    requires m < |lines| && !Contains(lines[m], epc)
    ensures k < |Others(epc, lines)| && Others(epc, lines)[k] == lines[m]
    ensures AllIn(Others(epc, lines)[..k + 1], lines[..m + 1])
    decreases |lines|
  {
    hide Contains;
    if m == 0 {
      k := 0;
    } else {
      var r := PositionInOthers(epc, lines[1..], m - 1);
      assert AllIn(lines[1..][..m], lines[..m + 1]) by {
        assert lines[1..][..m] == lines[..m + 1][1..];
      }
      if Contains(lines[0], epc) {
        k := r;
      } else {
        k := r + 1;
        assert Others(epc, lines)[..k + 1] == [lines[0]] + Others(epc, lines[1..])[..r + 1];
        assert lines[0] == lines[..m + 1][0];
      }
    }
  }
}
