/** Text files as Python reads and writes them, and the few string operations the post-processor uses. */
module ToiText {
  import opened Wrappers

  // ---- Lines ----

  /** The index of the first newline at or after i, or the length. */
  function NewlineFrom(s: string, i: nat): (k: nat)
    requires i <= |s|
    ensures i <= k <= |s|
    ensures forall j :: i <= j < k ==> s[j] != '\n'
    ensures k < |s| ==> s[k] == '\n'
    decreases |s| - i
  {
    if i == |s| || s[i] == '\n' then i else NewlineFrom(s, i + 1)
  }

  /** readlines(): every line keeps its newline. */
  function SplitLines(s: string): seq<string>
    decreases |s|
  {
    if s == "" then []
    else
      var k := NewlineFrom(s, 0);
      if k == |s| then [s] else [s[..k + 1]] + SplitLines(s[k + 1..])
  }

  /** What a file holds after the lines have been written to it in turn. */
  function JoinLines(lines: seq<string>): string {
    if lines == [] then "" else lines[0] + JoinLines(lines[1..])
  }

  /** A line has a newline nowhere but at its end. */
  predicate IsLine(l: string) {
    l != "" && forall i :: 0 <= i < |l| - 1 ==> l[i] != '\n'
  }

  predicate Ended(l: string) {
    l != "" && l[|l| - 1] == '\n'
  }

  /** A sequence that some file reads as: only the last line may lack its newline. */
  predicate IsText(lines: seq<string>) {
    && (forall i :: 0 <= i < |lines| ==> IsLine(lines[i]))
    && (forall i :: 0 <= i < |lines| - 1 ==> Ended(lines[i]))
  }

  lemma {:induction false} SplitIsText(s: string)
    ensures IsText(SplitLines(s))
    decreases |s|
  {
    if s != "" {
      var k := NewlineFrom(s, 0);
      if k < |s| {
        SplitIsText(s[k + 1..]);
      }
    }
  }

  /** Reading back what has been written gives the lines that were written. */
  lemma {:induction false} SplitJoin(lines: seq<string>)
    requires IsText(lines)
    ensures SplitLines(JoinLines(lines)) == lines
    decreases |lines|
  {
    if lines != [] {
      var l, rest, s := lines[0], JoinLines(lines[1..]), JoinLines(lines);
      var k := NewlineFrom(s, 0);
      assert forall i :: 0 <= i < |l| ==> s[i] == l[i];
      SplitJoin(lines[1..]);
      if Ended(l) {
        assert s[|l| - 1] == '\n';
        assert k == |l| - 1;
        assert s[..k + 1] == l && s[k + 1..] == rest;
      } else {
        assert lines == [l];
        assert s == l;
      }
    }
  }

  /** Writing out the lines that were read gives the text back. */
  lemma {:induction false} JoinSplit(s: string)
    ensures JoinLines(SplitLines(s)) == s
    decreases |s|
  {
    if s != "" {
      var k := NewlineFrom(s, 0);
      if k < |s| {
        JoinSplit(s[k + 1..]);
        assert s[..k + 1] + s[k + 1..] == s;
      } else {
        assert JoinLines([s]) == s + JoinLines([]);
      }
    }
  }

  lemma {:induction false} JoinSnoc(lines: seq<string>, l: string)
    ensures JoinLines(lines + [l]) == JoinLines(lines) + l
    decreases |lines|
  {
    if lines == [] {
      assert lines + [l] == [l];
      assert JoinLines([l]) == l + JoinLines([]);
    } else {
      assert (lines + [l])[1..] == lines[1..] + [l];
      JoinSnoc(lines[1..], l);
    }
  }

  // ---- Strings ----

  /** pattern occurs in s at position i. */
  predicate OccursAt(s: string, pattern: string, i: nat) {
    i + |pattern| <= |s| && s[i..i + |pattern|] == pattern
  }

  /** pattern in s */
  predicate Contains(s: string, pattern: string) {
    exists i :: 0 <= i <= |s| && OccursAt(s, pattern, i)
  }

  /** s.find(pattern) */
  function Find(s: string, pattern: string): (r: int)
    ensures r == -1 ==> !Contains(s, pattern)
    ensures r != -1 ==> 0 <= r && OccursAt(s, pattern, r) && forall i :: 0 <= i < r ==> !OccursAt(s, pattern, i)
  {
    FindFrom(s, pattern, 0)
  }

  function FindFrom(s: string, pattern: string, i: nat): (r: int)
    requires i <= |s|
    ensures r == -1 ==> forall j :: i <= j <= |s| ==> !OccursAt(s, pattern, j)
    ensures r != -1 ==> i <= r && OccursAt(s, pattern, r) && forall j :: i <= j < r ==> !OccursAt(s, pattern, j)
    decreases |s| - i
  {
    if OccursAt(s, pattern, i) then i
    else if i == |s| then -1
    else FindFrom(s, pattern, i + 1)
  }

  /** Where an index of a slice falls: a negative one counts from the end, and none leaves the string. */
  function Bound(s: string, i: int): (b: nat)
    ensures b <= |s|
  {
    if i > |s| then |s| else if i >= 0 then i else if i + |s| >= 0 then i + |s| else 0
  }

  /** s[a:b] */
  function Slice(s: string, a: int, b: int): string {
    if Bound(s, a) <= Bound(s, b) then s[Bound(s, a)..Bound(s, b)] else ""
  }

  lemma SliceIsContained(s: string, a: int, b: int)
    ensures Contains(s, Slice(s, a, b))
  {
    assert OccursAt(s, Slice(s, a, b), Bound(s, a));
  }

  predicate IsDigit(c: char) {
    '0' <= c <= '9'
  }

  predicate AllDigits(s: string) {
    forall i :: 0 <= i < |s| ==> IsDigit(s[i])
  }

  predicate IsSpace(c: char) {
    c == ' ' || 9 <= c as int <= 13 || 28 <= c as int <= 31
  }

  /** s.strip() */
  function Strip(s: string): string
    decreases |s|
  {
    if s != "" && IsSpace(s[0]) then Strip(s[1..])
    else if s != "" && IsSpace(s[|s| - 1]) then Strip(s[..|s| - 1])
    else s
  }

  /** int(s) of a string of at most two ASCII characters; None stands for the ValueError. */
  function IntOf(s: string): Option<int> {
    var t := Strip(s);
    var digits := if t != "" && (t[0] == '+' || t[0] == '-') then t[1..] else t;
    if digits == "" || !AllDigits(digits) then None
    else Some(if t[0] == '-' then -(Value(digits) as int) else Value(digits))
  }

  lemma ValueOfTwo(a: char, b: char)
    requires IsDigit(a) && IsDigit(b)
    ensures Value([a]) == a as int - 48 && Value([a, b]) == 10 * (a as int - 48) + (b as int - 48)
  {
    assert [a, b][..1] == [a] && [a][..0] == "";
  }

  lemma StripOfTwo(a: char, b: char)
    ensures Strip([a, b]) == if IsSpace(a) then Strip([b]) else if IsSpace(b) then [a] else [a, b]
    ensures Strip([b]) == if IsSpace(b) then "" else [b]
  {
    assert [a, b][1..] == [b] && [a, b][..1] == [a] && [b][1..] == "";
  }

  /** What int() makes of any two ASCII characters. */
  lemma IntOfTwo(a: char, b: char)
    ensures IntOf([a, b]) ==
            if '0' <= b <= '9' then
              if '0' <= a <= '9' then Some(10 * (a as int - 48) + (b as int - 48))
              else if a == '-' then Some(-(b as int - 48))
              else if a == '+' || IsSpace(a) then Some(b as int - 48)
              else None
            else if '0' <= a <= '9' && IsSpace(b) then Some(a as int - 48)
            else None
  {
    hide Strip, Value;
    StripOfTwo(a, b);
    assert [a, b][1..] == [b] && [a][1..] == "" && [b][1..] == "";
    assert AllDigits([a, b]) <==> IsDigit(a) && IsDigit(b) by { assert [a, b][0] == a && [a, b][1] == b; }
    assert AllDigits([a]) <==> IsDigit(a) by { assert [a][0] == a; }
    assert AllDigits([b]) <==> IsDigit(b) by { assert [b][0] == b; }
    if IsDigit(a) {
      ValueOfTwo(a, a);
    }
    if IsDigit(b) {
      ValueOfTwo(b, b);
    }
    if IsDigit(a) && IsDigit(b) {
      ValueOfTwo(a, b);
    }
  }

  /** A field cut off by the end of the line: one character is a number exactly when it is a digit. */
  lemma IntOfOne(a: char)
    ensures IntOf("") == None
    ensures IntOf([a]) == if '0' <= a <= '9' then Some(a as int - 48) else None
  {
    StripOfTwo(a, a);
    assert [a][1..] == "" && [a][0] == a;
    if IsDigit(a) {
      ValueOfTwo(a, a);
    }
  }

  /** s.rstrip("\n") */
  function StripNewlines(s: string): (r: string)
    ensures r == "" || r[|r| - 1] != '\n'
    ensures r <= s && forall i :: |r| <= i < |s| ==> s[i] == '\n'
    decreases |s|
  {
    if s != "" && s[|s| - 1] == '\n' then StripNewlines(s[..|s| - 1]) else s
  }

  /** A number in decimal. */
  function Decimal(n: nat): (r: string)
    ensures r != "" && AllDigits(r)
    decreases n
  {
    var last := [('0' as int + n % 10) as char];
    if n < 10 then last else Decimal(n / 10) + last
  }

  function Digit(c: char): nat
    requires IsDigit(c)
  {
    c as int - '0' as int
  }

  function Value(s: string): nat
    requires AllDigits(s)
  {
    if s == "" then 0 else 10 * Value(s[..|s| - 1]) + Digit(s[|s| - 1])
  }

  /** No number is written with a leading zero. */
  lemma {:induction false} DecimalLeads(n: nat)
    ensures n > 0 ==> Decimal(n)[0] != '0'
    ensures n == 0 ==> Decimal(n) == "0"
    decreases n
  {
    if n >= 10 {
      DecimalLeads(n / 10);
    }
  }

  /** The digits written for a number read back as that number. */
  lemma {:induction false} DecimalReadsBack(n: nat)
    ensures Value(Decimal(n)) == n
    decreases n
  {
    var last := [('0' as int + n % 10) as char];
    if n >= 10 {
      DecimalReadsBack(n / 10);
      assert Decimal(n)[..|Decimal(n)| - 1] == Decimal(n / 10);
    } else {
      assert Decimal(n) == last && last[..0] == "";
    }
  }
}
