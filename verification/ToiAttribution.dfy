/** Which tag a read is counted for, and when that is the tag that was read. */
module ToiAttribution {
  import opened ToiText
  import opened ToiSpec
  import opened Wrappers

  /** The EPC of the first of the given lines whose EPC the line contains; its own EPC when there is none. */
  ghost function FirstEpcIn(lines: seq<string>, line: string): (epc: string)
    requires AllParsable(lines) && Parsable(line)
    ensures Contains(line, epc)
  {
    if lines == [] then EpcInLine(line); Epc(line)
    else if Contains(line, Epc(lines[0])) then Epc(lines[0])
    else FirstEpcIn(lines[1..], line)
  }

  /** How many of the lines are counted for the survivor with the given EPC. */
  ghost function ReadsCountedFor(epc: string, survivors: seq<string>, lines: seq<string>): nat
    requires AllParsable(survivors) && AllParsable(lines)
  {
    if lines == [] then 0
    else (if FirstEpcIn(survivors, lines[0]) == epc then 1 else 0) + ReadsCountedFor(epc, survivors, lines[1..])
  }

  /** How many of the lines carry the given EPC. */
  ghost function ReadsOf(epc: string, lines: seq<string>): nat
    requires AllParsable(lines)
  {
    if lines == [] then 0 else (if Epc(lines[0]) == epc then 1 else 0) + ReadsOf(epc, lines[1..])
  }

  lemma SurvivorsParsable(tags: seq<string>)
    requires AllParsable(tags)
    ensures AllParsable(Survivors(Singulate(tags)))
  {
    hide Parsable, Singulate;
    SingulateParsable(tags);
  }

  lemma SurvivorsStep(tags: seq<string>)
    requires AllParsable(tags) && tags != []
    ensures Survivors(Singulate(tags)) == [tags[0]] + Survivors(Singulate(Others(Epc(tags[0]), tags[1..])))
  {
    hide Parsable, Epc, Others, Contains;
  }

  // ---- What a count counts ----

  /** The first survivor takes the lines that contain its EPC. */
  lemma {:induction false} FirstSurvivorTakes(first: string, others: seq<string>, lines: seq<string>)
    requires AllParsable([first] + others) && AllParsable(lines)
    ensures Parsable(first)
    ensures ReadsCountedFor(Epc(first), [first] + others, lines) == |lines| - |Others(Epc(first), lines)|
    decreases |lines|
  {
    hide Parsable, Epc, Contains;
    assert ([first] + others)[0] == first && ([first] + others)[1..] == others;
    if lines != [] {
      FirstSurvivorTakes(first, others, lines[1..]);
    }
  }

  /** The survivors after it share what it leaves. */
  lemma {:induction false} LaterSurvivorsShare(first: string, others: seq<string>, lines: seq<string>, epc: string)
    requires AllParsable([first] + others) && AllParsable(lines) && AllParsable(others)
    requires Parsable(first) && epc != Epc(first)
    ensures ReadsCountedFor(epc, [first] + others, lines) == ReadsCountedFor(epc, others, Others(Epc(first), lines))
    decreases |lines|
  {
    hide Parsable, Epc, Contains;
    assert ([first] + others)[0] == first && ([first] + others)[1..] == others;
    if lines != [] {
      LaterSurvivorsShare(first, others, lines[1..], epc);
      var kept := Others(Epc(first), lines);
      if !Contains(lines[0], Epc(first)) {
        assert kept[0] == lines[0] && kept[1..] == Others(Epc(first), lines[1..]);
      }
    }
  }

  /** The count on a surviving line is the number of lines for which it is the first survivor they contain. */
  lemma {:induction false} CountIsReadsCountedFor(tags: seq<string>, i: nat)
    requires AllParsable(tags) && i < |Singulate(tags)| && AllParsable(Survivors(Singulate(tags)))
    ensures Parsable(Singulate(tags)[i].line)
    ensures Singulate(tags)[i].count ==
            ReadsCountedFor(Epc(Singulate(tags)[i].line), Survivors(Singulate(tags)), tags)
    decreases |tags|
  {
    hide Parsable, Epc, Contains, FirstEpcIn, ReadsCountedFor, Survivors;
    var first, rest := tags[0], tags[1..];
    var epc := Epc(first);
    var kept := Others(epc, rest);
    SurvivorsParsable(kept);
    SurvivorsStep(tags);
    var others := Survivors(Singulate(kept));
    assert Others(epc, tags) == kept by { EpcInLine(first); }
    if i == 0 {
      FirstSurvivorTakes(first, others, tags);
    } else {
      CountIsReadsCountedFor(kept, i - 1);
      SurvivorEpcsDistinct(tags, 0, i);
      LaterSurvivorsShare(first, others, tags, Epc(Singulate(tags)[i].line));
    }
  }

  // ---- When reads are counted for their own tag ----

  /** Every line contains its own EPC before that of any line with a different one, in the order of the lines. */
  ghost predicate OwnEpcFirst(lines: seq<string>)
    requires AllParsable(lines)
  {
    forall l :: l in lines ==> FirstEpcIn(lines, l) == Epc(l)
  }

  /** Every line is counted for a survivor with its own EPC. */
  ghost predicate CountedForOwn(lines: seq<string>)
    requires AllParsable(lines) && AllParsable(Survivors(Singulate(lines)))
  {
    forall l :: l in lines ==> FirstEpcIn(Survivors(Singulate(lines)), l) == Epc(l)
  }

  /** Leaving out lines that carry an EPC the line does not contain changes nothing for the line. */
  lemma {:induction false} LeftOutDoNotMatter(epc: string, lines: seq<string>, line: string)
    requires AllParsable(lines) && Parsable(line) && !Contains(line, epc)
    requires forall l :: l in lines && Contains(l, epc) ==> Epc(l) == epc
    ensures FirstEpcIn(Others(epc, lines), line) == FirstEpcIn(lines, line)
    decreases |lines|
  {
    hide Parsable, Epc, Contains;
    if lines != [] {
      LeftOutDoNotMatter(epc, lines[1..], line);
      var kept := Others(epc, lines);
      if !Contains(lines[0], epc) {
        assert kept[0] == lines[0] && kept[1..] == Others(epc, lines[1..]);
      }
    }
  }

  /** Reads are counted for their own tag exactly when no line comes under another EPC among the input lines. */
  lemma {:induction false} CountedForOwnExactlyWhen(tags: seq<string>)
    requires AllParsable(tags)
    ensures AllParsable(Survivors(Singulate(tags)))
    ensures CountedForOwn(tags) <==> OwnEpcFirst(tags)
    decreases |tags|
  {
    hide Parsable, Epc, Contains, Others, Singulate, Survivors, FirstEpcIn;
    SurvivorsParsable(tags);
    if tags != [] {
      var epc := Epc(tags[0]);
      var kept := Others(epc, tags[1..]);
      CountedForOwnExactlyWhen(kept);
      SurvivorsStep(tags);
      var own := forall l :: l in tags && Contains(l, epc) ==> Epc(l) == epc;
      forall l | l in tags && Contains(l, epc)
        ensures FirstEpcIn(tags, l) == epc == FirstEpcIn(Survivors(Singulate(tags)), l)
      {
        FirstTakes(tags, l);
        FirstTakes(Survivors(Singulate(tags)), l);
      }
      forall l | l in tags && !Contains(l, epc) && own
        ensures l in kept
        ensures FirstEpcIn(tags, l) == FirstEpcIn(kept, l)
        ensures FirstEpcIn(Survivors(Singulate(tags)), l) == FirstEpcIn(Survivors(Singulate(kept)), l)
      {
        EpcInLine(tags[0]);
        assert l in tags[1..];
        FirstPasses(tags, l);
        assert ([tags[0]] + Survivors(Singulate(kept)))[1..] == Survivors(Singulate(kept));
        FirstPasses(Survivors(Singulate(tags)), l);
        LeftOutDoNotMatter(epc, tags[1..], l);
      }
    }
  }

  lemma FirstTakes(lines: seq<string>, line: string)
    requires AllParsable(lines) && Parsable(line) && lines != [] && Contains(line, Epc(lines[0]))
    ensures FirstEpcIn(lines, line) == Epc(lines[0])
  {
  }

  lemma FirstPasses(lines: seq<string>, line: string)
    requires AllParsable(lines) && Parsable(line) && lines != [] && !Contains(line, Epc(lines[0]))
    ensures AllParsable(lines[1..]) && FirstEpcIn(lines, line) == FirstEpcIn(lines[1..], line)
  {
  }

  lemma {:induction false} CountedForOwnCount(epc: string, survivors: seq<string>, lines: seq<string>)
    requires AllParsable(survivors) && AllParsable(lines)
    requires forall l :: l in lines ==> FirstEpcIn(survivors, l) == Epc(l)
    ensures ReadsCountedFor(epc, survivors, lines) == ReadsOf(epc, lines)
    decreases |lines|
  {
    hide Parsable, Epc, Contains, FirstEpcIn;
    if lines != [] {
      CountedForOwnCount(epc, survivors, lines[1..]);
    }
  }

  /** The count on every surviving line is the number of times its EPC was read. */
  ghost predicate CountsAreReads(tags: seq<string>)
    requires AllParsable(tags) && ParsableTags(Singulate(tags))
  {
    forall i :: 0 <= i < |Singulate(tags)| ==>
      Singulate(tags)[i].count == ReadsOf(Epc(Singulate(tags)[i].line), tags)
  }

  /** Every line that contains the EPC carries it. */
  ghost predicate OnlyOwn(epc: string, lines: seq<string>)
    requires AllParsable(lines)
  {
    forall l :: l in lines && Contains(l, epc) ==> Epc(l) == epc
  }

  /** The lines left out for an EPC are at least those that carry it, and as many only if all of them do. */
  lemma {:induction false} LeftOutAtLeastReads(epc: string, lines: seq<string>)
    requires AllParsable(lines)
    ensures ReadsOf(epc, lines) <= |lines| - |Others(epc, lines)|
    ensures ReadsOf(epc, lines) == |lines| - |Others(epc, lines)| <==> OnlyOwn(epc, lines)
    decreases |lines|
  {
    hide Parsable, Epc, Contains;
    if lines != [] {
      EpcInLine(lines[0]);
      LeftOutAtLeastReads(epc, lines[1..]);
      assert forall l :: l in lines <==> l == lines[0] || l in lines[1..];
    }
  }

  /** Leaving out the lines of one EPC does not touch the reads of another. */
  lemma {:induction false} OtherReadsKept(epc: string, lines: seq<string>, other: string)
    requires AllParsable(lines) && OnlyOwn(epc, lines) && other != epc
    ensures ReadsOf(other, Others(epc, lines)) == ReadsOf(other, lines)
    decreases |lines|
  {
    hide Parsable, Epc, Contains;
    if lines != [] {
      OtherReadsKept(epc, lines[1..], other);
      var kept := Others(epc, lines);
      if !Contains(lines[0], epc) {
        assert kept[0] == lines[0] && kept[1..] == Others(epc, lines[1..]);
      }
    }
  }

  lemma {:induction false} CountsAreReadsIfOwn(tags: seq<string>)
    requires AllParsable(tags) && OwnEpcFirst(tags)
    ensures ParsableTags(Singulate(tags)) && CountsAreReads(tags)
  {
    hide Parsable, Epc, Contains, FirstEpcIn, Singulate, Survivors;
    SingulateParsable(tags);
    CountedForOwnExactlyWhen(tags);
    forall i: nat | i < |Singulate(tags)|
      ensures Singulate(tags)[i].count == ReadsOf(Epc(Singulate(tags)[i].line), tags)
    {
      CountIsReadsCountedFor(tags, i);
      CountedForOwnCount(Epc(Singulate(tags)[i].line), Survivors(Singulate(tags)), tags);
    }
  }

  /** Right counts on a list of lines leave the first survivor with its own lines only, and right counts on the rest. */
  lemma CountsAreReadsStep(tags: seq<string>)
    requires AllParsable(tags) && tags != [] && ParsableTags(Singulate(tags)) && CountsAreReads(tags)
    ensures OnlyOwn(Epc(tags[0]), tags)
    ensures var kept := Others(Epc(tags[0]), tags[1..]); ParsableTags(Singulate(kept)) && CountsAreReads(kept)
  {
    hide Parsable, Epc, Contains, FirstEpcIn, ReadsOf;
    var epc := Epc(tags[0]);
    var kept := Others(epc, tags[1..]);
    EpcInLine(tags[0]);
    assert Others(epc, tags) == kept;
    SingulateParsable(kept);
    assert Singulate(tags)[0] == Tag(tags[0], |tags| - |kept|);
    LeftOutAtLeastReads(epc, tags);
    forall i: nat | i < |Singulate(kept)|
      ensures Singulate(kept)[i].count == ReadsOf(Epc(Singulate(kept)[i].line), kept)
    {
      assert Singulate(kept)[i] == Singulate(tags)[i + 1];
      SurvivorEpcsDistinct(tags, 0, i + 1);
      OtherReadsKept(epc, tags, Epc(Singulate(kept)[i].line));
    }
  }

  lemma {:induction false} OwnIfCountsAreReads(tags: seq<string>)
    requires AllParsable(tags) && ParsableTags(Singulate(tags)) && CountsAreReads(tags)
    ensures OwnEpcFirst(tags)
    decreases |tags|
  {
    hide Parsable, Epc, Contains, Others, Singulate, FirstEpcIn, CountsAreReads;
    if tags != [] {
      var epc := Epc(tags[0]);
      var kept := Others(epc, tags[1..]);
      CountsAreReadsStep(tags);
      OwnIfCountsAreReads(kept);
      forall l | l in tags ensures FirstEpcIn(tags, l) == Epc(l) {
        if Contains(l, epc) {
          FirstTakes(tags, l);
        } else {
          EpcInLine(tags[0]);
          assert l in tags[1..];
          FirstPasses(tags, l);
          LeftOutDoNotMatter(epc, tags[1..], l);
        }
      }
    }
  }

  /** The counts are the numbers of reads of each EPC exactly when no line comes under another EPC first. */
  lemma CountsAreReadsExactlyWhen(tags: seq<string>)
    requires AllParsable(tags)
    ensures ParsableTags(Singulate(tags))
    ensures CountsAreReads(tags) <==> OwnEpcFirst(tags)
  {
    hide CountsAreReads, OwnEpcFirst, Parsable, Singulate;
    SingulateParsable(tags);
    if OwnEpcFirst(tags) {
      CountsAreReadsIfOwn(tags);
    }
    if CountsAreReads(tags) {
      OwnIfCountsAreReads(tags);
    }
  }

  /** A tag line with an empty EPC, which it has when its length field is zero, takes every later line. */
  lemma {:induction false} EmptyEpcTakesAll(tags: seq<string>)
    requires AllParsable(tags) && tags != [] && (EpcLength(tags[0]) == 0 || Epc(tags[0]) == "")
    ensures Singulate(tags) == [Tag(tags[0], |tags|)]
  {
    hide Parsable;
    assert Epc(tags[0]) == "";
    NoOthersOfEmpty(tags[1..]);
  }

  lemma {:induction false} NoOthersOfEmpty(lines: seq<string>)
    ensures Others("", lines) == []
    decreases |lines|
  {
    if lines != [] {
      NoOthersOfEmpty(lines[1..]);
      assert OccursAt(lines[0], "", 0);
    }
  }

  /** A line with ",T5," as its second field, a length below ten and the EPC after it. */
  lemma EpcOfShortLine(line: string, d: char)
    requires IsDigit(d) && |line| >= 8 + 2 * Digit(d)
    requires line[0] != ',' && line[1..5] == ",T5," && line[5] == '0' && line[6] == d
    ensures Parsable(line) && Epc(line) == line[8..8 + 2 * Digit(d)]
  {
    assert OccursAt(line, ",T5,", 1);
    assert line[0..4][0] == line[0];
    EpcOfLine(line, 1);
  }

  /** Two reads of different tags counted as one: the first line's EPC "3E" occurs in the second's EPC. */
  lemma MiscountedPair()
    ensures var tags := ["9,T5,01,3E\n", "9,T5,02,003E\n"];
            && AllParsable(tags) && Epc(tags[0]) != Epc(tags[1])
            && Singulate(tags) == [Tag(tags[0], 2)]
  {
    hide Parsable, Epc;
    var a, b := "9,T5,01,3E\n", "9,T5,02,003E\n";
    EpcOfShortLine(a, '1');
    EpcOfShortLine(b, '2');
    assert Epc(a) == "3E" && Epc(b) == "003E";
    assert OccursAt(b, "3E", 10);
    assert Others(Epc(a), [b]) == [];
    assert [a, b][1..] == [b];
  }
}
