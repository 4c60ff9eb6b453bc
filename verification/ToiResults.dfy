/** What a whole run of the tag-of-interest post-processor amounts to. */
module ToiResults {
  import opened ToiText
  import opened ToiSpec
  import opened ToiPass
  import opened ToiRun

  // ---- Reading a written count back ----

  /** What follows the last comma. */
  function LastField(s: string): string {
    if s == "" || s[|s| - 1] == ',' then "" else LastField(s[..|s| - 1]) + [s[|s| - 1]]
  }

  /** The number in the last field of a line; 0 when there is none. */
  function CountOf(line: string): nat {
    var f := LastField(StripNewlines(line));
    if AllDigits(f) then Value(f) else 0
  }

  lemma {:induction false} LastFieldOf(s: string, digits: string)
    requires AllDigits(digits)
    ensures LastField(s + "," + digits) == digits
    decreases |digits|
  {
    var t := s + "," + digits;
    if digits == "" {
      assert t[|t| - 1] == ',';
    } else {
      var init := digits[..|digits| - 1];
      assert t[..|t| - 1] == s + "," + init;
      LastFieldOf(s, init);
    }
  }

  /** The count written to a line is the number its last field reads as. */
  lemma CountReadsBack(line: string, count: nat)
    ensures CountOf(Counted(line, count)) == count
  {
    var d := Decimal(count);
    var t := StripNewlines(line) + "," + d;
    DecimalReadsBack(count);
    LastFieldOf(StripNewlines(line), d);
    assert Counted(line, count) == t + "\n";
    assert t[|t| - 1] == d[|d| - 1];
    assert StripNewlines(t + "\n") == t by {
      assert (t + "\n")[..|t|] == t;
    }
  }

  function SumOf(lines: seq<string>): nat {
    if lines == [] then 0 else CountOf(lines[0]) + SumOf(lines[1..])
  }

  lemma {:induction false} SumOfRendered(tags: seq<Tag>)
    ensures SumOf(Render(tags)) == SumCounts(tags)
    decreases |tags|
  {
    hide CountOf, Counted;
    if tags != [] {
      assert Render(tags)[1..] == Render(tags[1..]);
      SumOfRendered(tags[1..]);
      CountReadsBack(tags[0].line, tags[0].count);
    }
  }

  /**
    After every pass the header is what it was, and the counts on the finished lines plus the
    lines still to come add up to the tag lines there were.
   */
  lemma FileConservesReads(e: seq<string>, k: nat)
    requires |e| > HEADER_LINES && AllParsable(TagLines(e)) && k <= |Singulate(TagLines(e))|
    ensures var f := After(e, k);
            && f[..HEADER_LINES] == e[..HEADER_LINES]
            && SumOf(f[HEADER_LINES..HEADER_LINES + k]) + |f| - HEADER_LINES - k == |e| - HEADER_LINES
  {
    hide Parsable, Singulate, Rest, CountOf;
    var done := Singulate(TagLines(e))[..k];
    assert After(e, k)[HEADER_LINES..HEADER_LINES + k] == Render(done);
    SumOfRendered(done);
    ReadsConservedSoFar(TagLines(e), k);
  }

  // ---- Where the run ends ----

  lemma {:induction false} LastPassStops(e: seq<string>, k: nat)
    requires |e| > HEADER_LINES && AllParsable(TagLines(e)) && k <= |Singulate(TagLines(e))| && k <= MAX_PASSES
    ensures Stops(e, LastPass(e, k))
    ensures forall j :: k <= j < LastPass(e, k) ==> !Stops(e, j)
    decreases MAX_PASSES - k
  {
    hide Parsable, Singulate, TagLines, Rest, After;
    if !Stops(e, k) {
      RestUnfolds(TagLines(e), k);
      LastPassStops(e, k + 1);
    }
  }

  /** Some pass leaves exactly as many lines as the number the code uses to signal an error. */
  ghost predicate Mistaken(e: seq<string>)
    requires |e| > HEADER_LINES && AllParsable(TagLines(e))
  {
    exists k :: 1 <= k <= |Singulate(TagLines(e))| && |After(e, k)| == TOO_LONG
  }

  /** Only a file with that many lines can be mistaken. */
  lemma ShortFilesNotMistaken(e: seq<string>)
    requires HEADER_LINES < |e| < 65535 && AllParsable(TagLines(e))
    ensures !Mistaken(e)
  {
    hide Parsable, Singulate, Rest;
    forall k | 1 <= k <= |Singulate(TagLines(e))| ensures |After(e, k)| != TOO_LONG {
      ReadsConservedSoFar(TagLines(e), k);
    }
  }

  /** The file as a run should leave it: the header, then every tag found by the scan with its count. */
  ghost function Singulated(e: seq<string>): seq<string>
    requires |e| > HEADER_LINES && AllParsable(TagLines(e))
  {
    e[..HEADER_LINES] + Render(Scan(TagLines(e)))
  }

  /** Every pass goes through, and they come to an end in time. */
  ghost predicate RunsThrough(e: seq<string>) {
    && |e| > HEADER_LINES && FirstHalt(e, HEADER_LINES) == |e| && AllParsable(TagLines(e))
    && |Scan(TagLines(e))| <= MAX_PASSES && !Mistaken(e)
  }

  /** A run over a file with tag lines leaves the scan's tags and counts, and reports how many there are. */
  lemma WholeRun(e: seq<string>)
    requires RunsThrough(e)
    ensures RunOn(e) == Ended(Singulated(e), TagsSingulated(|Scan(TagLines(e))|))
  {
    hide Parsable, Overlong, Halts, FirstHalt, Singulate, Rest, Scan, Render, TagLines;
    var tags := TagLines(e);
    PassesAreScan(tags);
    var u := |Singulate(tags)|;
    assert u >= 1 by { TagLinesExist(e); }
    LastPassStops(e, 1);
    var r := LastPass(e, 1);
    RestUnfolds(tags, r);
    RestUnfolds(tags, u);
    assert r == u;
    assert Singulate(tags)[..u] == Singulate(tags);
    assert After(e, u) == Singulated(e);
  }

  /** The final file has the old header, and the counts read back from its other lines add up to the old tag lines. */
  lemma WholeRunConservesReads(e: seq<string>)
    requires RunsThrough(e)
    ensures RunOn(e).Ended? && |RunOn(e).lines| >= HEADER_LINES
    ensures RunOn(e).lines[..HEADER_LINES] == e[..HEADER_LINES]
    ensures SumOf(RunOn(e).lines[HEADER_LINES..]) == |e| - HEADER_LINES
  {
    hide RunOn, Mistaken, Scan, Render, SumOf, FirstHalt, Halts, Parsable;
    var tags := TagLines(e);
    WholeRun(e);
    PassesAreScan(tags);
    assert Singulated(e)[HEADER_LINES..] == Render(Scan(tags));
    SumOfRendered(Scan(tags));
    ReadsConserved(tags);
  }

  lemma TagLinesExist(e: seq<string>)
    requires |e| > HEADER_LINES && AllParsable(TagLines(e))
    ensures |Singulate(TagLines(e))| >= 1
  {
  }

  /**
    The printed number is the number of surviving tags exactly when the file is empty, or it
    has tag lines, none of them stops a pass, at most MAX_PASSES of them survive and no pass
    is mistaken for an error.
   */
  lemma ReportIsSurvivorCount(e: seq<string>)
    ensures (&& AllParsable(TagLines(e)) && RunOn(e).Ended?
             && RunOn(e).report == TagsSingulated(|Scan(TagLines(e))|)) <==> e == [] || RunsThrough(e)
  {
    hide Parsable, Overlong, Halts, FirstHalt, Singulate, Rest, Scan, Render, PassOn, Singulated;
    var tags := TagLines(e);
    if |e| <= HEADER_LINES {
      assert |Scan([])| == 0 by { NothingScanned(); }
    } else if FirstHalt(e, HEADER_LINES) == |e| {
      TagLinesParsable(e);
      PassesAreScan(tags);
      var u := |Singulate(tags)|;
      TagLinesExist(e);
      if u <= MAX_PASSES && !Mistaken(e) {
        WholeRun(e);
      } else {
        LastPassStops(e, 1);
        if u <= MAX_PASSES {
          var k :| 1 <= k <= u && |After(e, k)| == TOO_LONG;
          RestUnfolds(tags, u);
          assert Stops(e, k);
        }
      }
    }
  }

  lemma NothingScanned()
    ensures Scan([]) == []
  {
  }

  /** A file without tag lines makes every pass and reports 9994 tags, though there is none. */
  lemma HeaderOnlyReports9994(e: seq<string>)
    requires 0 < |e| <= 6
    ensures RunOn(e) == Ended(e, TagsSingulated(9994))
  {
  }

  /**
    When the first line that stops a pass is overlong, nothing is printed, the file ends
    before that line, and the one pass that was made has lost none of the reads before it.
   */
  lemma OverlongCutsShort(e: seq<string>)
    requires var h := FirstHalt(e, 6); h < |e| && Parsable(e[h])
    ensures var h := FirstHalt(e, 6);
            && RunOn(e).Ended? && RunOn(e).report == Silent && RunOn(e).lines[..6] == e[..6]
            && (h == 6 ==> RunOn(e).lines == e[..6])
            && (h > 6 ==> |RunOn(e).lines| > 6 && CountOf(RunOn(e).lines[6]) + |RunOn(e).lines| - 7 == h - 6)
  {
    hide Parsable, Overlong, Halts, Contains, Epc, Others, CountOf;
    var h := FirstHalt(e, 6);
    assert e[..h][..6] == e[..6];
    if h > 6 {
      CountReadsBack(e[6], h - |KeepOn(e[..h], 7)| + 1);
    }
  }

  /** With more than 9994 surviving tags the run ends after 9994 passes and reports that many. */
  lemma TooManyTags(e: seq<string>)
    requires |e| > 6 && FirstHalt(e, 6) == |e| && AllParsable(TagLines(e))
    requires |Scan(TagLines(e))| > 9994 && !Mistaken(e)
    ensures |Singulate(TagLines(e))| > 9994
    ensures RunOn(e) == Ended(After(e, 9994), TagsSingulated(9994))
  {
    hide Parsable, Overlong, Halts, FirstHalt, Singulate, Rest, Scan, Render, TagLines, After;
    PassesAreScan(TagLines(e));
    LastPassStops(e, 1);
    RestUnfolds(TagLines(e), LastPass(e, 1));
  }

  /** A run crashes exactly when the first tag line that stops a pass has a length field that int() refuses. */
  lemma CrashesExactlyWhen(e: seq<string>)
    ensures RunOn(e) == Crashed <==>
            exists i :: HEADER_LINES <= i < |e| && !Parsable(e[i]) && forall j :: HEADER_LINES <= j < i ==> !Halts(e[j])
  {
    hide Parsable, Overlong, PassOn, LastPass, After, Rest, Singulate;
    var h := FirstHalt(e, HEADER_LINES);
    if RunOn(e) != Crashed && HEADER_LINES <= h < |e| {
      assert Parsable(e[h]);
    }
  }
}
