/** One pass of the tag-of-interest post-processor over its file: two rewrite loops, line by line. */
module ToiPass {
  import opened ToiText
  import opened ToiSpec
  import opened Wrappers

  // ---- What a pass reads ----

  /** The index of the first blank line at or after i, or the number of lines. */
  function FirstBlank(lines: seq<string>, i: nat): (k: nat)
    requires i <= |lines|
    ensures i <= k <= |lines|
    ensures forall j :: i <= j < k ==> lines[j] != "\n"
    ensures k < |lines| ==> lines[k] == "\n"
    decreases |lines| - i
  {
    if i == |lines| || lines[i] == "\n" then i else FirstBlank(lines, i + 1)
  }

  /** Both loops stop at the first blank line. */
  function Effective(lines: seq<string>): (r: seq<string>)
    ensures r <= lines && "\n" !in r
    ensures "\n" !in lines ==> r == lines
  {
    lines[..FirstBlank(lines, 0)]
  }

  predicate ParsableFrom(lines: seq<string>, i: nat) {
    forall j :: i <= j < |lines| ==> Parsable(lines[j])
  }

  /** A pass ends at this line: int() refuses its length field, or the EPC length is above the limit. */
  predicate Halts(line: string) {
    !Parsable(line) || Overlong(line)
  }

  /** The index of the first line at or after i at which a pass ends, or the number of lines. */
  function FirstHalt(lines: seq<string>, i: nat): (k: nat)
    ensures k <= |lines| && ParsableFrom(lines[..k], i)
    ensures forall j :: i <= j < k ==> !Halts(lines[j])
    ensures k < |lines| ==> i <= k && Halts(lines[k])
    decreases |lines| - i
  {
    if i >= |lines| then |lines| else if Halts(lines[i]) then i else FirstHalt(lines, i + 1)
  }

  // ---- What a pass writes ----

  /** After the first loop: of the lines past line n, only those without line n's EPC are left. */
  function KeepOn(lines: seq<string>, n: nat): (r: seq<string>)
    requires n > 0 && ParsableFrom(lines, n - 1)
    ensures |r| <= |lines| && (n <= |lines| ==> n <= |r|)
  {
    if |lines| < n then lines else lines[..n] + Others(Epc(lines[n - 1]), lines[n..])
  }

  /** After the second loop: line n also carries the number of lines read for its EPC. */
  function PassOn(lines: seq<string>, n: nat): (r: seq<string>)
    requires n > 0 && ParsableFrom(lines, n - 1)
    ensures |r| == |KeepOn(lines, n)|
  {
    var kept := KeepOn(lines, n);
    if |lines| < n then lines else kept[n - 1 := Counted(lines[n - 1], |lines| - |kept| + 1)]
  }

  lemma ParsableSnoc(lines: seq<string>, n: nat, l: string)
    requires n > 0 && ParsableFrom(lines + [l], n - 1)
    ensures ParsableFrom(lines, n - 1) && (n <= |lines| + 1 ==> Parsable(l))
    ensures n <= |lines| ==> Parsable(lines[n - 1])
  {
    hide Parsable;
    forall j | n - 1 <= j < |lines| ensures Parsable(lines[j]) {
      assert (lines + [l])[j] == lines[j];
    }
    assert (lines + [l])[|lines|] == l;
  }

  /** One more line read: up to line n it is kept, past it only if it does not contain line n's EPC. */
  lemma KeepOnSnoc(lines: seq<string>, n: nat, l: string)
    requires n > 0 && ParsableFrom(lines + [l], n - 1)
    ensures ParsableFrom(lines, n - 1)
    ensures |lines| < n ==> KeepOn(lines + [l], n) == lines + [l]
    ensures |lines| >= n && Contains(l, Epc(lines[n - 1])) ==> KeepOn(lines + [l], n) == KeepOn(lines, n)
    ensures |lines| >= n && !Contains(l, Epc(lines[n - 1])) ==> KeepOn(lines + [l], n) == KeepOn(lines, n) + [l]
  {
    hide Contains, Epc, Parsable, ParsableFrom, Others;
    ParsableSnoc(lines, n, l);
    var more := lines + [l];
    if |lines| >= n {
      assert more[n..] == lines[n..] + [l] && more[..n] == lines[..n] && more[n - 1] == lines[n - 1];
      OthersSnoc(Epc(lines[n - 1]), lines[n..], l);
    } else if |more| == n {
      assert more[n - 1] == l && more[n..] == [] && more[..n] == more;
      NoneLeft(Epc(l));
    }
  }

  lemma NoneLeft(epc: string)
    ensures Others(epc, []) == []
  {
  }

  // ---- A pass leaves a text without blank lines ----

  lemma {:induction false} OthersIsText(epc: string, lines: seq<string>)
    requires IsText(lines)
    ensures IsText(Others(epc, lines))
    decreases |lines|
  {
    hide Contains;
    if lines != [] {
      OthersIsText(epc, lines[1..]);
      assert lines[1..] == [] ==> Others(epc, lines[1..]) == [];
    }
  }

  lemma CountedIsLine(line: string, count: nat)
    requires IsLine(line)
    ensures IsLine(Counted(line, count)) && Ended(Counted(line, count)) && Counted(line, count) != "\n"
  {
  }

  lemma TextJoin(a: seq<string>, b: seq<string>)
    requires IsText(a) && IsText(b) && forall i :: 0 <= i < |a| ==> Ended(a[i])
    ensures IsText(a + b)
  {
  }

  lemma KeepOnIsText(lines: seq<string>, n: nat)
    requires n > 0 && ParsableFrom(lines, n - 1) && IsText(lines) && "\n" !in lines
    ensures IsText(KeepOn(lines, n)) && "\n" !in KeepOn(lines, n)
  {
    hide Contains, Epc, Parsable, IsLine, Ended;
    if n <= |lines| {
      OthersIsText(Epc(lines[n - 1]), lines[n..]);
      if n < |lines| {
        TextJoin(lines[..n], Others(Epc(lines[n - 1]), lines[n..]));
      } else {
        assert KeepOn(lines, n) == lines;
      }
    }
  }

  lemma PassOnIsText(lines: seq<string>, n: nat)
    requires n > 0 && ParsableFrom(lines, n - 1) && IsText(lines) && "\n" !in lines
    ensures IsText(PassOn(lines, n)) && "\n" !in PassOn(lines, n)
  {
    hide Contains, Epc, Parsable, IsLine, Ended, KeepOn, Counted;
    KeepOnIsText(lines, n);
    if n <= |lines| {
      CountedIsLine(lines[n - 1], |lines| - |KeepOn(lines, n)| + 1);
    }
  }

  /** What line n of a file is once n lines have been kept. */
  lemma KeptLine(lines: seq<string>, n: nat)
    requires n > 0 && ParsableFrom(lines, n - 1) && n <= |lines|
    ensures KeepOn(lines, n)[n - 1] == lines[n - 1]
  {
  }

  // ---- The two loops ----

  /** What reading line i adds to the text written so far. */
  lemma OneMoreLine(e: seq<string>, i: nat, n: nat)
    requires n > 0 && i < |e| && ParsableFrom(e[..i], n - 1) && (i >= n - 1 ==> Parsable(e[i]))
    ensures ParsableFrom(e[..i + 1], n - 1) && (i >= n ==> Parsable(e[n - 1]))
    ensures var before, after := KeepOn(e[..i], n), KeepOn(e[..i + 1], n);
            if i >= n && Contains(e[i], Epc(e[n - 1])) then after == before
            else |after| == |before| + 1 && JoinLines(after) == JoinLines(before) + e[i]
  {
    hide Contains, Epc, Parsable, KeepOn, JoinLines;
    assert e[..i + 1] == e[..i] + [e[i]];
    assert i >= n ==> e[..i][n - 1] == e[n - 1];
    KeepOnSnoc(e[..i], n, e[i]);
    JoinShort(e[..i], n);
    JoinSnoc(KeepOn(e[..i], n), e[i]);
  }

  /**
    The first loop. Returns the new text, the line count (or TOO_LONG), the number of lines
    left out, and whether int() has raised an exception.
   */
  method WriteUnique(lines: seq<string>, n: nat)
    returns (out: string, lineCnt: nat, multiReadTimes: nat, raised: bool)
    requires n > 0
    ensures var e := Effective(lines);
            var k := FirstHalt(e, n - 1);
            && raised == (k < |e| && !Parsable(e[k]))
            && out == JoinLines(KeepOn(e[..k], n))
            && (!raised ==> lineCnt == if k < |e| then TOO_LONG else |KeepOn(e[..k], n)|)
            && multiReadTimes == k - |KeepOn(e[..k], n)|
  {
    hide Contains, Epc, Parsable, Overlong, Halts, KeepOn, JoinLines, ParsableFrom;
    ghost var e := Effective(lines);
    out, lineCnt, multiReadTimes, raised := "", 0, 0, false;
    var cEpc := "";
    var i := 0;
    EmptyFile(n);
    assert e[..0] == [];
    while i < |lines|
      invariant i <= |e| && !raised
      invariant ParsableFrom(e[..i], n - 1)
      invariant forall j :: n - 1 <= j < i ==> !Halts(e[j])
      invariant out == JoinLines(KeepOn(e[..i], n))
      invariant lineCnt == |KeepOn(e[..i], n)|
      invariant i < n ==> lineCnt == i
      invariant multiReadTimes == i - |KeepOn(e[..i], n)|
      invariant i >= n ==> Parsable(e[n - 1]) && cEpc == Epc(e[n - 1])
    {
      var line := lines[i];
      if line == "\n" {
        break;
      }
      assert i < |e| && e[i] == line;
      HaltMeans(line);
      lineCnt := lineCnt + 1;
      if lineCnt < n {
        OneMoreLine(e, i, n);
        out := out + line;
      } else {
        var cEpcLength := IntOf(LengthField(line));
        if cEpcLength == None {
          raised := true;
          break;
        }
        if cEpcLength.value * 2 > MAX_EPC_NIBBLES {
          lineCnt := TOO_LONG;
          break;
        }
        OneMoreLine(e, i, n);
        if lineCnt == n {
          cEpc := Epc(line);
          out := out + line;
        } else if !Contains(line, cEpc) {
          out := out + line;
        } else {
          lineCnt := lineCnt - 1;
          multiReadTimes := multiReadTimes + 1;
        }
      }
      i := i + 1;
    }
    assert i == FirstHalt(e, n - 1);
    assert i == |e| ==> e[..i] == e;
  }

  lemma HaltMeans(line: string)
    ensures Parsable(line) <==> IntOf(LengthField(line)).Some?
    ensures Halts(line) <==> !Parsable(line) || IntOf(LengthField(line)).value * 2 > MAX_EPC_NIBBLES
  {
  }

  lemma EmptyFile(n: nat)
    requires n > 0
    ensures ParsableFrom([], n - 1) && KeepOn([], n) == [] && JoinLines([]) == ""
  {
  }

  lemma JoinShort(lines: seq<string>, n: nat)
    requires n > 0 && ParsableFrom(lines, n - 1)
    ensures |lines| < n ==> KeepOn(lines, n) == lines
  {
  }

  /** The second loop: appends the count to line n of a text without blank lines. */
  method WriteCount(lines: seq<string>, n: nat, count: nat) returns (out: string)
    requires n > 0 && "\n" !in lines
    ensures out == JoinLines(if n <= |lines| then lines[n - 1 := Counted(lines[n - 1], count)] else lines)
  {
    ghost var counted := if n <= |lines| then lines[n - 1 := Counted(lines[n - 1], count)] else lines;
    out := "";
    var currentLine := 0;
    var i := 0;
    assert counted[..0] == [];
    while i < |lines|
      invariant currentLine == i <= |lines|
      invariant out == JoinLines(counted[..i])
    {
      var line := lines[i];
      if line == "\n" {
        break;
      }
      assert counted[..i + 1] == counted[..i] + [counted[i]];
      JoinSnoc(counted[..i], counted[i]);
      currentLine := currentLine + 1;
      if currentLine == n {
        line := StripNewlines(line);
        out := out + (line + "," + Decimal(count) + "\n");
      } else {
        out := out + line;
      }
      i := i + 1;
    }
    assert counted[..|lines|] == counted;
  }

  /** The lines a pass leaves in the file and what it returns, or an exception that leaves the file alone. */
  datatype Pass = Returned(lines: seq<string>, lineCnt: nat) | Raised

  /** A pass ends at the first line, from line n on, at which it halts; an overlong one cuts the file short. */
  function OnePass(lines: seq<string>, n: nat): Pass
    requires n > 0
  {
    var k := FirstHalt(lines, n - 1);
    if k < |lines| && !Parsable(lines[k]) then Raised
    else Returned(PassOn(lines[..k], n), if k < |lines| then TOO_LONG else |PassOn(lines[..k], n)|)
  }

  class TagFile {
    var content: string

    constructor (content: string)
      ensures this.content == content
    {
      this.content := content;
    }

    /**
      make_one_epc_unique: removes the later reads of line n's tag and appends the count to
      line n.  None stands for the exception of int(), which reaches the caller.
     */
    method MakeOneEpcUnique(n: nat) returns (r: Option<nat>)
      modifies this
      ensures n == 0 ==> r == Some(TOO_LONG) && content == old(content)
      ensures n > 0 ==>
                match OnePass(Effective(SplitLines(old(content))), n)
                case Raised => r == None && content == old(content)
                case Returned(lines, lineCnt) =>
                  && content == JoinLines(lines) && r == Some(lineCnt)
                  && SplitLines(content) == Effective(SplitLines(content)) == lines
    {
      hide Parsable, Overlong, Halts, KeepOn, JoinLines, SplitLines, IsLine, Ended;
      if n == 0 {
        return Some(TOO_LONG);
      }
      var lines := SplitLines(content);
      SplitIsText(content);
      ghost var e := Effective(lines);
      ghost var kept := e[..FirstHalt(e, n - 1)];
      var fileTmp, cnt, multiReadTimes, raised := WriteUnique(lines, n);
      if raised {
        return None;
      }
      content := fileTmp;
      KeepOnIsText(kept, n);
      SplitJoin(KeepOn(kept, n));
      lines := SplitLines(content);
      assert n <= |kept| ==> lines[n - 1] == kept[n - 1] by { if n <= |kept| { KeptLine(kept, n); } }
      fileTmp := WriteCount(lines, n, multiReadTimes + 1);
      content := fileTmp;
      JoinShort(kept, n);
      PassOnIsText(kept, n);
      SplitJoin(PassOn(kept, n));
      return Some(cnt);
    }
  }
}
