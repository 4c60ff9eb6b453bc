/** A whole run of the tag-of-interest post-processor: pass after pass over the copied file. */
module ToiRun {
  import opened ToiText
  import opened ToiSpec
  import opened ToiPass
  import opened Wrappers

  const MAX_PASSES := MAX_LINES - HEADER_LINES

  // ---- The file after k passes ----

  function TagLines(e: seq<string>): seq<string> {
    if |e| <= HEADER_LINES then [] else e[HEADER_LINES..]
  }

  lemma TagLinesParsable(e: seq<string>)
    requires FirstHalt(e, HEADER_LINES) == |e|
    ensures AllParsable(TagLines(e))
  {
  }

  /** The tag lines that k passes have not come to yet. */
  function Rest(tags: seq<string>, k: nat): (r: seq<string>)
    requires AllParsable(tags)
    ensures AllParsable(r) && forall l :: l in r ==> l in tags
    decreases k
  {
    if k == 0 || tags == [] then tags else Rest(Others(Epc(tags[0]), tags[1..]), k - 1)
  }

  /** Pass k + 1 works on the first line that is left; the passes are over when none is. */
  lemma {:induction false} RestUnfolds(tags: seq<string>, k: nat)
    requires AllParsable(tags)
    ensures Rest(tags, k) == [] <==> |Singulate(tags)| <= k
    ensures k < |Singulate(tags)| ==>
              var r := Rest(tags, k);
              && Rest(tags, k + 1) == Others(Epc(r[0]), r[1..])
              && Singulate(tags)[k] == Tag(r[0], |r| - |Rest(tags, k + 1)|)
    decreases k
  {
    hide Contains, Epc, Parsable, Others;
    if tags != [] {
      var kept := Others(Epc(tags[0]), tags[1..]);
      if k == 0 {
        assert Rest(kept, 0) == kept;
      } else {
        RestUnfolds(kept, k - 1);
      }
    }
  }

  /** No pass loses a read: the counts written so far and the lines left add up to the tag lines. */
  lemma {:induction false} ReadsConservedSoFar(tags: seq<string>, k: nat)
    requires AllParsable(tags) && k <= |Singulate(tags)|
    ensures SumCounts(Singulate(tags)[..k]) + |Rest(tags, k)| == |tags|
    ensures k + |Rest(tags, k)| <= |tags|
    decreases k
  {
    hide Contains, Epc, Parsable;
    if k == 0 {
      assert Singulate(tags)[..0] == [];
    } else {
      var kept := Others(Epc(tags[0]), tags[1..]);
      ReadsConservedSoFar(kept, k - 1);
      assert Singulate(tags)[..k][1..] == Singulate(kept)[..k - 1];
    }
  }

  /** The lines of the file after k passes. */
  function After(e: seq<string>, k: nat): (r: seq<string>)
    requires |e| > HEADER_LINES && AllParsable(TagLines(e)) && k <= |Singulate(TagLines(e))|
    ensures |r| == HEADER_LINES + k + |Rest(TagLines(e), k)|
  {
    e[..HEADER_LINES] + Render(Singulate(TagLines(e))[..k]) + Rest(TagLines(e), k)
  }

  lemma RenderSnoc(tags: seq<Tag>, t: Tag)
    ensures Render(tags + [t]) == Render(tags) + [Counted(t.line, t.count)]
  {
  }

  /** A pass at line h + 1 of a file whose first h lines are done. */
  lemma PassAtLine(done: seq<string>, rest: seq<string>)
    requires rest != [] && AllParsable(rest)
    ensures ParsableFrom(done + rest, |done|)
    ensures var kept := Others(Epc(rest[0]), rest[1..]);
            PassOn(done + rest, |done| + 1) == done + [Counted(rest[0], |rest| - |kept|)] + kept
  {
    hide Contains, Epc, Parsable, Others, Counted;
    var lines, n := done + rest, |done| + 1;
    assert ParsableFrom(lines, |done|) by {
      forall j | |done| <= j < |lines| ensures Parsable(lines[j]) {
        assert lines[j] == rest[j - |done|];
      }
    }
    assert lines[n..] == rest[1..] && lines[..n] == done + [rest[0]];
    assert lines[n - 1] == rest[0];
  }

  /** One pass takes the file after k passes to the file after k + 1. */
  lemma PassAdvances(e: seq<string>, k: nat)
    requires |e| > HEADER_LINES && AllParsable(TagLines(e)) && k < |Singulate(TagLines(e))|
    ensures ParsableFrom(After(e, k), HEADER_LINES + k)
    ensures PassOn(After(e, k), HEADER_LINES + k + 1) == After(e, k + 1)
  {
    hide Contains, Epc, Parsable, Others, Counted, PassOn, Singulate, Rest, Render, TagLines;
    var tags := TagLines(e);
    var found := Singulate(tags);
    RestUnfolds(tags, k);
    var done := e[..HEADER_LINES] + Render(found[..k]);
    PassAtLine(done, Rest(tags, k));
    assert found[..k + 1] == found[..k] + [found[k]];
    RenderSnoc(found[..k], found[k]);
    assert done + [Counted(found[k].line, found[k].count)] == e[..HEADER_LINES] + Render(found[..k + 1]);
  }

  /** When no tag line halts the first pass, none halts a later one. */
  lemma NeverHalts(e: seq<string>, k: nat)
    requires |e| > HEADER_LINES && FirstHalt(e, HEADER_LINES) == |e|
    requires AllParsable(TagLines(e)) && k < |Singulate(TagLines(e))|
    ensures FirstHalt(After(e, k), HEADER_LINES + k) == |After(e, k)|
  {
    hide Parsable, Overlong, Halts, Singulate, Render, Rest;
    var tags := TagLines(e);
    var a := After(e, k);
    forall j | HEADER_LINES + k <= j < |a| ensures !Halts(a[j]) {
      assert a[j] == Rest(tags, k)[j - HEADER_LINES - k];
      assert a[j] in tags;
      var i :| 0 <= i < |tags| && tags[i] == a[j];
      assert e[HEADER_LINES + i] == a[j];
    }
  }

  // ---- How a run ends ----

  /** What is printed at the end: nothing, or a number of tags. */
  datatype Report = Silent | TagsSingulated(tags: nat)

  /** Crashed stands for an exception that nothing catches; the file is then the copied text. */
  datatype Outcome = Ended(lines: seq<string>, report: Report) | Crashed

  /** The driver loop gives up after this pass, or has seen that this was the last one. */
  predicate Stops(e: seq<string>, k: nat)
    requires |e| > HEADER_LINES && AllParsable(TagLines(e)) && k <= |Singulate(TagLines(e))|
  {
    k >= MAX_PASSES || Rest(TagLines(e), k) == [] || |After(e, k)| == TOO_LONG
  }

  /** The first pass, from k on, after which the driver loop ends. */
  function LastPass(e: seq<string>, k: nat): (r: nat)
    requires |e| > HEADER_LINES && AllParsable(TagLines(e)) && k <= |Singulate(TagLines(e))| && k <= MAX_PASSES
    ensures k <= r <= |Singulate(TagLines(e))| && r <= MAX_PASSES
    decreases MAX_PASSES - k
  {
    if Stops(e, k) then k
    else
      RestUnfolds(TagLines(e), k);
      LastPass(e, k + 1)
  }

  lemma {:induction false} LastPassIs(e: seq<string>, k: nat, r: nat)
    requires |e| > HEADER_LINES && AllParsable(TagLines(e)) && k <= r <= |Singulate(TagLines(e))| && r <= MAX_PASSES
    requires Stops(e, r) && forall j :: k <= j < r ==> !Stops(e, j)
    ensures LastPass(e, k) == r
    decreases r - k
  {
    hide Stops, Parsable, Singulate, TagLines;
    if k < r {
      LastPassIs(e, k + 1, r);
    }
  }

  function RunOn(e: seq<string>): (r: Outcome) {
    var h := FirstHalt(e, HEADER_LINES);
    if e == [] then Ended([], TagsSingulated(0))
    else if |e| <= HEADER_LINES then Ended(e, TagsSingulated(MAX_PASSES))
    else if h < |e| then
      if Parsable(e[h]) then Ended(PassOn(e[..h], HEADER_LINES + 1), Silent) else Crashed
    else
      TagLinesParsable(e);
      SomeSurvivor(TagLines(e));
      var k := LastPass(e, 1);
      Ended(After(e, k), if |After(e, k)| == TOO_LONG then Silent else TagsSingulated(k))
  }

  lemma SomeSurvivor(tags: seq<string>)
    requires AllParsable(tags)
    ensures tags != [] <==> |Singulate(tags)| >= 1
  {
  }

  // ---- The driver loop ----

  lemma EmptyText()
    ensures SplitLines("") == []
  {
  }

  /** copy_file: opening the destination empties it before the first line is read. */
  method CopyFile(src: TagFile, dst: TagFile)
    modifies dst
    ensures dst.content == if src == dst then "" else old(src.content)
  {
    hide SplitLines;
    EmptyText();
    dst.content := "";
    var lines := SplitLines(src.content);
    JoinSplit(src.content);
    var i := 0;
    assert lines[..0] == [];
    while i < |lines|
      invariant i <= |lines|
      invariant src != dst ==> dst.content == JoinLines(lines[..i])
      invariant src == dst ==> lines == [] && dst.content == ""
    {
      assert lines[..i + 1] == lines[..i] + [lines[i]];
      JoinSnoc(lines[..i], lines[i]);
      dst.content := dst.content + lines[i];
      i := i + 1;
    }
    assert lines[..|lines|] == lines;
  }

  /** What holds of the lines in the file when k passes have been made and the loop goes on. */
  ghost predicate Underway(e: seq<string>, k: nat, cur: seq<string>) {
    if |e| <= HEADER_LINES then cur == e && (k > 0 ==> e != [])
    else if FirstHalt(e, HEADER_LINES) < |e| then cur == e && k == 0
    else
      && AllParsable(TagLines(e)) && k < |Singulate(TagLines(e))| && cur == After(e, k)
      && forall j :: 1 <= j <= k ==> !Stops(e, j)
  }

  lemma Begins(e: seq<string>)
    ensures Underway(e, 0, e)
  {
    hide Parsable, Singulate, Overlong, Halts;
    if |e| > HEADER_LINES && FirstHalt(e, HEADER_LINES) == |e| {
      TagLinesParsable(e);
      SomeSurvivor(TagLines(e));
      assert Singulate(TagLines(e))[..0] == [] && Rest(TagLines(e), 0) == TagLines(e);
      assert After(e, 0) == e[..HEADER_LINES] + TagLines(e) == e;
    }
  }

  /** The next pass on a file without tag lines. */
  lemma ShortPass(e: seq<string>, k: nat)
    requires Underway(e, k, e) && |e| <= HEADER_LINES
    ensures OnePass(e, HEADER_LINES + k + 1) == Returned(e, |e|)
    ensures RunOn(e) == if e == [] then Ended([], TagsSingulated(0)) else Ended(e, TagsSingulated(MAX_PASSES))
    ensures e == [] ==> k == 0
    ensures e != [] ==> Underway(e, k + 1, e)
  {
    hide Parsable, Halts;
    assert e[..|e|] == e;
  }

  /** The next pass when some tag line halts it: the run ends here. */
  lemma HaltingPass(e: seq<string>)
    requires |e| > HEADER_LINES && FirstHalt(e, HEADER_LINES) < |e|
    ensures OnePass(e, HEADER_LINES + 1) == Raised ==> RunOn(e) == Crashed
    ensures OnePass(e, HEADER_LINES + 1) != Raised ==>
              OnePass(e, HEADER_LINES + 1).lineCnt == TOO_LONG
              && RunOn(e) == Ended(OnePass(e, HEADER_LINES + 1).lines, Silent)
  {
    hide Parsable, Overlong, Halts, PassOn;
  }

  lemma PassGoesThrough(e: seq<string>, k: nat)
    requires |e| > HEADER_LINES && FirstHalt(e, HEADER_LINES) == |e|
    requires AllParsable(TagLines(e)) && k < |Singulate(TagLines(e))|
    ensures OnePass(After(e, k), HEADER_LINES + k + 1) == Returned(After(e, k + 1), |After(e, k + 1)|)
  {
    hide Parsable, Halts, PassOn, Singulate, FirstHalt, Rest, After, TagLines;
    PassAdvances(e, k);
    NeverHalts(e, k);
    assert After(e, k)[..|After(e, k)|] == After(e, k);
  }

  /** The next pass otherwise: it goes through and either the loop goes on or the run is over. */
  lemma OrdinaryPass(e: seq<string>, k: nat, cur: seq<string>)
    requires Underway(e, k, cur) && |e| > HEADER_LINES && FirstHalt(e, HEADER_LINES) == |e| && k < MAX_PASSES
    ensures OnePass(cur, HEADER_LINES + k + 1) == Returned(After(e, k + 1), |After(e, k + 1)|)
    ensures |After(e, k + 1)| != 0
    ensures |After(e, k + 1)| != HEADER_LINES + k + 1 && |After(e, k + 1)| != TOO_LONG && k + 1 < MAX_PASSES ==>
              Underway(e, k + 1, After(e, k + 1))
    ensures |After(e, k + 1)| == HEADER_LINES + k + 1 ==> RunOn(e) == Ended(After(e, k + 1), TagsSingulated(k + 1))
    ensures |After(e, k + 1)| == TOO_LONG ==> RunOn(e) == Ended(After(e, k + 1), Silent)
    ensures k + 1 == MAX_PASSES && |After(e, k + 1)| != TOO_LONG ==>
              RunOn(e) == Ended(After(e, k + 1), TagsSingulated(k + 1))
  {
    hide Parsable, Halts, OnePass, Singulate, FirstHalt, Rest, After, TagLines, RunOn;
    PassGoesThrough(e, k);
    RestUnfolds(TagLines(e), k + 1);
    if Stops(e, k + 1) {
      EndsAt(e, k + 1);
    }
  }

  lemma EndsAt(e: seq<string>, k: nat)
    requires |e| > HEADER_LINES && FirstHalt(e, HEADER_LINES) == |e|
    requires AllParsable(TagLines(e)) && 1 <= k <= |Singulate(TagLines(e))| && k <= MAX_PASSES
    requires Stops(e, k) && forall j :: 1 <= j < k ==> !Stops(e, j)
    ensures RunOn(e) == Ended(After(e, k), if |After(e, k)| == TOO_LONG then Silent else TagsSingulated(k))
  {
    hide Parsable, Overlong, Halts, PassOn, Singulate, FirstHalt, Rest, After, TagLines, Stops;
    LastPassIs(e, 1, k);
  }

  /** What the next pass returns decides how the run goes on, or what its outcome is. */
  lemma NextPass(e: seq<string>, k: nat, cur: seq<string>)
    requires Underway(e, k, cur) && k < MAX_PASSES
    ensures match OnePass(cur, HEADER_LINES + k + 1)
            case Raised => k == 0 && cur == e && RunOn(e) == Crashed
            case Returned(lines, lineCnt) =>
              if lineCnt == 0 then k == 0 && RunOn(e) == Ended(lines, TagsSingulated(0))
              else if lineCnt == HEADER_LINES + k + 1 then RunOn(e) == Ended(lines, TagsSingulated(k + 1))
              else if lineCnt == TOO_LONG then RunOn(e) == Ended(lines, Silent)
              else if k + 1 == MAX_PASSES then RunOn(e) == Ended(lines, TagsSingulated(k + 1))
              else Underway(e, k + 1, lines)
  {
    hide Parsable, Overlong, Halts, FirstHalt, PassOn, OnePass, Singulate, After, Rest, Stops, RunOn;
    if |e| <= HEADER_LINES {
      ShortPass(e, k);
    } else if FirstHalt(e, HEADER_LINES) < |e| {
      HaltingPass(e);
    } else {
      OrdinaryPass(e, k, cur);
    }
  }

  /** unique_tag_count: runs pass after pass over the copy, for whatever text the source file holds. */
  method UniqueTagCount(src: TagFile, toi: TagFile) returns (report: Option<Report>)
    modifies toi
    ensures var text := if src == toi then "" else old(src.content);
            match RunOn(Effective(SplitLines(text)))
            case Crashed => report == None && toi.content == text
            case Ended(lines, printed) =>
              report == Some(printed) && toi.content == JoinLines(lines) && SplitLines(toi.content) == lines
  {
    hide OnePass, JoinLines, SplitLines, Effective, RunOn, Underway;
    CopyFile(src, toi);
    ghost var text := toi.content;
    ghost var e := Effective(SplitLines(text));
    ghost var k := 0;
    ghost var cur := e;
    var totalLineNumber := 0;
    var numberToi := HEADER_LINES;
    Begins(e);
    while numberToi < MAX_LINES
      invariant numberToi == HEADER_LINES + k <= MAX_LINES
      invariant cur == Effective(SplitLines(toi.content))
      invariant k == 0 ==> toi.content == text
      invariant k > 0 ==> toi.content == JoinLines(cur) && SplitLines(toi.content) == cur
      invariant totalLineNumber != TOO_LONG
      invariant k < MAX_PASSES ==> Underway(e, k, cur)
      invariant k == MAX_PASSES ==> RunOn(e) == Ended(cur, TagsSingulated(MAX_PASSES))
    {
      NextPass(e, k, cur);
      numberToi := numberToi + 1;
      var total := toi.MakeOneEpcUnique(numberToi);
      if total == None {
        return None;
      }
      totalLineNumber := total.value;
      cur := SplitLines(toi.content);
      if totalLineNumber == 0 {
        numberToi := numberToi - 1;
        break;
      } else if totalLineNumber == numberToi {
        break;
      } else if totalLineNumber == TOO_LONG {
        break;
      }
      k := k + 1;
    }
    if totalLineNumber != TOO_LONG {
      numberToi := numberToi - HEADER_LINES;
      report := Some(TagsSingulated(numberToi));
    } else {
      report := Some(Silent);
    }
  }
}
