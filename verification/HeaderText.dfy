/** Splitting a file into lines and stripping what may stand before a licence header. */
module HeaderText {
  import opened Strings

  /** The line boundaries of str.splitlines; reading in text mode leaves no carriage return. */
  predicate IsLineBreak(c: char) {
    || c == '\n' || c == '\U{0B}' || c == '\U{0C}' || c == '\U{1C}' || c == '\U{1D}' || c == '\U{1E}'
    || c == '\U{85}' || c == '\U{2028}' || c == '\U{2029}'
  }

  function SplitLines(s: string): seq<string> {
    if s == "" then [] else
    var rest := SplitLines(s[1..]);
    if IsLineBreak(s[0]) then [""] + rest
    else if rest == [] then [s]
    else [[s[0]] + rest[0]] + rest[1..]
  }

  /** Each line followed by a newline. */
  function Terminated(lines: seq<string>): string {
    if lines == [] then "" else lines[0] + "\n" + Terminated(lines[1..])
  }

  ghost predicate Unbroken(s: string) { forall i :: 0 <= i < |s| ==> !IsLineBreak(s[i]) }

  lemma {:induction false} SplitLinesFirst(line: string, c: char, rest: string)
    requires Unbroken(line) && IsLineBreak(c)
    ensures SplitLines(line + [c] + rest) == [line] + SplitLines(rest)
  {
    var s := line + [c] + rest;
    if line == "" {
      assert s[1..] == rest;
    } else {
      assert s[1..] == line[1..] + [c] + rest;
      SplitLinesFirst(line[1..], c, rest);
      assert line == [line[0]] + line[1..];
    }
  }

  lemma {:induction false} SplitLinesLast(line: string)
    requires Unbroken(line) && line != ""
    ensures SplitLines(line) == [line]
  {
    if |line| > 1 {
      SplitLinesLast(line[1..]);
      assert [line[0]] + line[1..] == line;
    }
  }

  /**
   * Lines end at line feeds, vertical tabs, form feeds, the separators 1C to 1E, at U+0085, U+2028
   * and U+2029, and nowhere else; a last line needs no end.
   */
  lemma SplitLinesIs(line: string, c: char, rest: string)
    requires forall x :: x in line ==> x !in "\n\U{0B}\U{0C}\U{1C}\U{1D}\U{1E}\U{85}\U{2028}\U{2029}"
    requires c in "\n\U{0B}\U{0C}\U{1C}\U{1D}\U{1E}\U{85}\U{2028}\U{2029}"
    ensures SplitLines(line + [c] + rest) == [line] + SplitLines(rest)
    ensures SplitLines(line) == if line == "" then [] else [line]
  {
    forall i | 0 <= i < |line| ensures !IsLineBreak(line[i]) {
      assert line[i] in line;
      BreakIff(line[i]);
    }
    BreakIff(c);
    SplitLinesFirst(line, c, rest);
    if line != "" { SplitLinesLast(line); }
  }

  lemma BreakIff(c: char)
    ensures IsLineBreak(c) <==> c in "\n\U{0B}\U{0C}\U{1C}\U{1D}\U{1E}\U{85}\U{2028}\U{2029}"
  {
    var breaks := "\n\U{0B}\U{0C}\U{1C}\U{1D}\U{1E}\U{85}\U{2028}\U{2029}";
    assert breaks[0] == '\n' && breaks[1] == '\U{0B}' && breaks[2] == '\U{0C}' && breaks[3] == '\U{1C}'
        && breaks[4] == '\U{1D}' && breaks[5] == '\U{1E}' && breaks[6] == '\U{85}'
        && breaks[7] == '\U{2028}' && breaks[8] == '\U{2029}';
  }

  lemma Reassociate(lines: seq<string>, more: seq<string>)
    requires lines != []
    ensures [lines[0]] + (lines[1..] + more) == lines + more
  {
  }

  lemma {:induction false} SplitLinesTerminated(lines: seq<string>, tail: string)
    requires forall i :: 0 <= i < |lines| ==> Unbroken(lines[i])
    ensures SplitLines(Terminated(lines) + tail) == lines + SplitLines(tail)
  {
    if lines == [] {
      assert Terminated(lines) + tail == tail;
    } else {
      var rest := Terminated(lines[1..]) + tail;
      assert Terminated(lines) + tail == lines[0] + "\n" + rest;
      assert ['\n'] == "\n";
      SplitLinesFirst(lines[0], '\n', rest);
      SplitLinesTerminated(lines[1..], tail);
      Reassociate(lines, SplitLines(tail));
    }
  }

  lemma {:induction false} SplitTerminated(lines: seq<string>, tail: string)
    requires forall i :: 0 <= i < |lines| ==> '\n' !in lines[i]
    ensures Split(Terminated(lines) + tail, '\n') == lines + Split(tail, '\n')
  {
    if lines == [] {
      assert Terminated(lines) + tail == tail;
    } else {
      var rest := Terminated(lines[1..]) + tail;
      assert Terminated(lines) + tail == lines[0] + ['\n'] + rest;
      SplitFirst(lines[0], rest, '\n');
      SplitTerminated(lines[1..], tail);
      Reassociate(lines, Split(tail, '\n'));
    }
  }

  lemma {:induction false} TerminatedConcat(a: seq<string>, b: seq<string>)
    ensures Terminated(a + b) == Terminated(a) + Terminated(b)
  {
    if a == [] {
      assert a + b == b;
    } else {
      assert (a + b)[1..] == a[1..] + b;
      TerminatedConcat(a[1..], b);
    }
  }

  lemma {:induction false} JoinTerminated(lines: seq<string>, more: seq<string>)
    requires more != []
    ensures Join(lines + more, '\n') == Terminated(lines) + Join(more, '\n')
  {
    if lines == [] {
      assert lines + more == more;
    } else {
      JoinTerminated(lines[1..], more);
      assert (lines + more)[1..] == lines[1..] + more;
      assert ['\n'] == "\n";
    }
  }

  // ----- Stripping -----

  /**
   * A pattern to strip: lines that start in one of some ways, either a block of them closed by
   * an empty line, or one of them with all the empty lines that follow.
   */
  datatype Pattern = Block(starts: seq<string>) | Line(starts: seq<string>)

  const GO_BUILD_CONSTRAINTS := Block(["//go:build", "// +build"])
  const SHEBANG := Line(["#!"])

  predicate Triggers(p: Pattern, line: string) {
    exists i :: 0 <= i < |p.starts| && p.starts[i] <= line
  }

  /** The number of lines the pattern matches at the head; the last line has no newline to match. */
  function MatchLength(p: Pattern, lines: seq<string>): (n: nat)
    ensures n > 0 ==> n < |lines|
  {
    if |lines| < 2 || !Triggers(p, lines[0]) then 0
    else if p.Line? then 1 + EmptyLines(lines[1..])
    else if |lines| > 2 && lines[1] == "" then 2
    else
      var m := MatchLength(p, lines[1..]);
      if m == 0 then 0 else 1 + m
  }

  function EmptyLines(lines: seq<string>): (n: nat)
    ensures n > 0 ==> n < |lines|
  {
    if |lines| > 1 && lines[0] == "" then 1 + EmptyLines(lines[1..]) else 0
  }

  /** The lines without the first match; a match can start at any line. */
  function StripLines(p: Pattern, lines: seq<string>): (r: seq<string>)
    requires lines != []
    ensures r != []
  {
    var n := MatchLength(p, lines);
    if n > 0 then lines[n..]
    else if |lines| == 1 then lines
    else [lines[0]] + StripLines(p, lines[1..])
  }

  function Strip(p: Pattern, s: string): string {
    Join(StripLines(p, Split(s, '\n')), '\n')
  }

  ghost predicate AllEmpty(lines: seq<string>) { forall i :: 0 <= i < |lines| ==> lines[i] == "" }

  ghost predicate AllTrigger(p: Pattern, lines: seq<string>) {
    forall i :: 0 <= i < |lines| ==> Triggers(p, lines[i])
  }

  /** The lines `t` match the whole pattern, when the lines `rest` follow. */
  ghost predicate Matches(p: Pattern, t: seq<string>, rest: seq<string>) {
    && t != [] && rest != []
    && match p
       case Block(_) => |t| > 1 && t[|t| - 1] == "" && AllTrigger(p, t[..|t| - 1])
       case Line(_) => Triggers(p, t[0]) && AllEmpty(t[1..]) && (|rest| > 1 ==> rest[0] != "")
  }

  ghost predicate Plain(p: Pattern) { !Triggers(p, "") }

  lemma {:induction false} EmptyLinesIff(lines: seq<string>, n: nat)
    requires lines != []
    ensures EmptyLines(lines) == n
       <==> n < |lines| && AllEmpty(lines[..n]) && (n + 1 < |lines| ==> lines[n] != "")
  {
    if |lines| > 1 && lines[0] == "" {
      if 0 < n <= |lines| {
        EmptyLinesIff(lines[1..], n - 1);
        assert lines[..n] == [""] + lines[1..][..n - 1];
        assert AllEmpty(lines[..n]) ==> AllEmpty(lines[1..][..n - 1]);
      }
    } else if n > 0 && n < |lines| {
      assert lines[..n][0] == lines[0];
    }
  }

  lemma BlockTail(p: Pattern, t: seq<string>, rest: seq<string>)
    requires p.Block? && |t| > 1 && Triggers(p, t[0])
    requires t[1] == "" ==> rest == []
    ensures Matches(p, t, rest) <==> Matches(p, t[1..], rest)
  {
    if |t| > 2 && rest != [] {
      var front, back := t[..|t| - 1], t[1..][..|t| - 2];
      assert forall i :: 0 < i < |front| ==> front[i] == back[i - 1];
      assert forall i :: 0 <= i < |back| ==> back[i] == front[i + 1];
      assert AllTrigger(p, front) <==> AllTrigger(p, back);
    }
  }

  /** A match is found exactly where there is one, and with its only possible length. */
  lemma {:induction false} MatchLengthIff(p: Pattern, lines: seq<string>, n: nat)
    requires Plain(p) && n > 0
    ensures MatchLength(p, lines) == n <==> n <= |lines| && Matches(p, lines[..n], lines[n..])
  {
    if |lines| < 2 || !Triggers(p, lines[0]) {
      if 1 < n <= |lines| { assert lines[..n][..n - 1][0] == lines[0]; }
    } else if p.Line? {
      EmptyLinesIff(lines[1..], n - 1);
      if n <= |lines| {
        assert lines[..n][1..] == lines[1..][..n - 1] && lines[n..] == lines[1..][n - 1..];
      }
    } else if |lines| > 2 && lines[1] == "" {
      if 2 < n <= |lines| { assert lines[..n][..n - 1][1] == ""; }
    } else if 1 < n <= |lines| {
      MatchLengthIff(p, lines[1..], n - 1);
      assert lines[1..][..n - 1] == lines[..n][1..] && lines[1..][n - 1..] == lines[n..];
      BlockTail(p, lines[..n], lines[n..]);
    }
  }

  // ----- What stripping does to any text -----

  ghost predicate MatchAt(p: Pattern, lines: seq<string>, i: int, n: int) {
    0 <= i && 0 < n && i + n <= |lines| && Matches(p, lines[i..i + n], lines[i + n..])
  }

  ghost predicate IsFirstMatch(p: Pattern, lines: seq<string>, i: int, n: int) {
    MatchAt(p, lines, i, n) && forall j, k :: j < i ==> !MatchAt(p, lines, j, k)
  }

  ghost predicate NoMatch(p: Pattern, lines: seq<string>) { forall j, k :: !MatchAt(p, lines, j, k) }

  lemma MatchAtTail(p: Pattern, lines: seq<string>, j: int, k: int)
    requires lines != [] && 0 <= j
    ensures MatchAt(p, lines[1..], j, k) <==> MatchAt(p, lines, j + 1, k)
  {
    if 0 < k && j + 1 + k <= |lines| {
      assert lines[1..][j..j + k] == lines[j + 1..j + 1 + k] && lines[1..][j + k..] == lines[j + 1 + k..];
    }
  }

  lemma MatchAtHead(p: Pattern, lines: seq<string>, n: int)
    requires Plain(p) && n > 0
    ensures MatchAt(p, lines, 0, n) <==> MatchLength(p, lines) == n
  {
    MatchLengthIff(p, lines, n);
    if n <= |lines| { assert lines[0..0 + n] == lines[..n]; }
  }

  lemma NoHeadNoLength(p: Pattern, lines: seq<string>)
    requires Plain(p) && forall k :: !MatchAt(p, lines, 0, k)
    ensures MatchLength(p, lines) == 0
  {
    if MatchLength(p, lines) > 0 { MatchAtHead(p, lines, MatchLength(p, lines)); }
  }

  lemma FirstMatchTail(p: Pattern, lines: seq<string>, i: int, n: int)
    requires lines != [] && IsFirstMatch(p, lines, i, n) && i > 0
    ensures IsFirstMatch(p, lines[1..], i - 1, n)
  {
    MatchAtTail(p, lines, i - 1, n);
    forall j, k | 0 <= j < i - 1 ensures !MatchAt(p, lines[1..], j, k) {
      MatchAtTail(p, lines, j, k);
    }
  }

  lemma WithHead<T>(lines: seq<T>, i: nat, n: nat)
    requires 0 < i && i + n <= |lines|
    ensures [lines[0]] + (lines[1..][..i - 1] + lines[1..][i - 1 + n..]) == lines[..i] + lines[i + n..]
  {
    assert lines[..i] == [lines[0]] + lines[1..][..i - 1];
  }

  lemma {:induction false} StripLinesAt(p: Pattern, lines: seq<string>, i: int, n: int)
    requires Plain(p) && IsFirstMatch(p, lines, i, n)
    ensures StripLines(p, lines) == lines[..i] + lines[i + n..]
  {
    if i == 0 {
      MatchAtHead(p, lines, n);
    } else {
      NoHeadNoLength(p, lines);
      FirstMatchTail(p, lines, i, n);
      StripLinesAt(p, lines[1..], i - 1, n);
      WithHead(lines, i, n);
    }
  }

  lemma {:induction false} StripLinesNone(p: Pattern, lines: seq<string>)
    requires Plain(p) && lines != [] && NoMatch(p, lines)
    ensures StripLines(p, lines) == lines
  {
    NoHeadNoLength(p, lines);
    if |lines| > 1 {
      forall j, k ensures !MatchAt(p, lines[1..], j, k) {
        if 0 <= j { MatchAtTail(p, lines, j, k); }
      }
      StripLinesNone(p, lines[1..]);
    }
  }

  lemma {:induction false} FirstMatchExists(p: Pattern, lines: seq<string>, j: int, k: int) returns (i: int, n: int)
    requires MatchAt(p, lines, j, k)
    ensures IsFirstMatch(p, lines, i, n)
    decreases j
  {
    if j', k' :| j' < j && MatchAt(p, lines, j', k') {
      i, n := FirstMatchExists(p, lines, j', k');
    } else {
      i, n := j, k;
    }
  }

  /** The text without the lines of its first match, wherever that starts. */
  ghost predicate StripsTo(p: Pattern, s: string, text: string) {
    var lines := Split(s, '\n');
    || (NoMatch(p, lines) && text == s)
    || exists i, n :: IsFirstMatch(p, lines, i, n) && text == Join(lines[..i] + lines[i + n..], '\n')
  }

  /** Stripping removes the first match, and nothing from a text without one. */
  lemma StripIff(p: Pattern, s: string, text: string)
    requires Plain(p)
    ensures Strip(p, s) == text <==> StripsTo(p, s, text)
  {
    var lines := Split(s, '\n');
    forall i, n | IsFirstMatch(p, lines, i, n) { StripLinesAt(p, lines, i, n); }
    if j, k :| MatchAt(p, lines, j, k) {
      var i, n := FirstMatchExists(p, lines, j, k);
    } else {
      StripLinesNone(p, lines);
      JoinSplit(s, '\n');
    }
  }

  /** How many empty lines may stand before a match without showing in what is left. */
  function Unseen(p: Pattern, n: int): int { match p case Block(_) => 1 case Line(_) => n - 1 }

  /**
   * Only the top of the lines is gone if and only if the first match begins there, but for empty
   * lines that the match repeats at its end.
   */
  lemma OnlyTopIff(p: Pattern, lines: seq<string>, i: int, n: int)
    requires Plain(p) && IsFirstMatch(p, lines, i, n)
    ensures (exists k :: 0 <= k <= |lines| && StripLines(p, lines) == lines[k..])
       <==> (AllEmpty(lines[..i]) && i <= Unseen(p, n))
  {
    StripLinesAt(p, lines, i, n);
    var kept := lines[..i] + lines[i + n..];
    if k :| 0 <= k <= |lines| && kept == lines[k..] {
      assert |kept| == |lines| - n && |lines[k..]| == |lines| - k;
      forall j | 0 <= j < i ensures lines[j] == lines[n + j] {
        assert kept[j] == lines[j] && lines[k..][j] == lines[k + j];
      }
      ShiftedIsEmpty(p, lines, i, n);
    }
    if AllEmpty(lines[..i]) && i <= Unseen(p, n) {
      EmptyIsUnseen(p, lines, i, n);
    }
  }

  lemma EmptyIsUnseen(p: Pattern, lines: seq<string>, i: int, n: int)
    requires MatchAt(p, lines, i, n) && AllEmpty(lines[..i]) && i <= Unseen(p, n)
    ensures lines[..i] + lines[i + n..] == lines[n..]
  {
    var t := lines[i..i + n];
    forall j | 0 <= j < i ensures lines[n + j] == lines[j] {
      assert lines[..i][j] == lines[j] && t[n + j - i] == lines[n + j];
      if p.Line? { assert t[1..][n + j - i - 1] == lines[n + j]; }
    }
    var kept := lines[..i] + lines[i + n..];
    forall j | 0 <= j < |kept| ensures kept[j] == lines[n..][j] {}
  }

  lemma ShiftedIsEmpty(p: Pattern, lines: seq<string>, i: int, n: int)
    requires Plain(p) && IsFirstMatch(p, lines, i, n)
    requires forall j :: 0 <= j < i ==> lines[j] == lines[n + j]
    ensures AllEmpty(lines[..i]) && i <= Unseen(p, n)
  {
    var t := lines[i..i + n];
    assert forall x :: 0 <= x < n ==> t[x] == lines[i + x];
    if i >= n {
      EarlierRepeats(p, lines, i, n);
      assert false;
    } else if p.Line? {
      forall j | 0 <= j < i ensures lines[j] == "" {
        assert lines[j] == t[1..][n + j - i - 1];
      }
    } else if i > 0 {
      assert lines[i - 1] == t[n - 1] == "";
      if i > 1 {
        assert lines[i - 2] == t[..n - 1][n - 2];
        assert lines[i - 2..i] == [lines[i - 2], ""];
        assert MatchAt(p, lines, i - 2, 2);
      }
    }
  }

  lemma EarlierRepeats(p: Pattern, lines: seq<string>, i: int, n: int)
    requires MatchAt(p, lines, i, n) && n <= i
    requires forall j :: 0 <= j < i ==> lines[j] == lines[n + j]
    ensures Plain(p) ==> !IsFirstMatch(p, lines, i, n)
  {
    var early := lines[i - n..i];
    assert early == lines[i..i + n] by {
      forall x | 0 <= x < n ensures early[x] == lines[i..i + n][x] {
        assert early[x] == lines[i - n + x];
      }
    }
    if Plain(p) {
      if p.Line? {
        var rest := lines[i - n..];
        assert rest[0] == early[0];
        MatchAtHead(p, rest, MatchLength(p, rest));
        MatchAtShift(p, lines, i - n, MatchLength(p, rest));
      } else {
        assert MatchAt(p, lines, i - n, n);
      }
    }
  }

  lemma MatchAtShift(p: Pattern, lines: seq<string>, i: nat, n: int)
    requires i <= |lines| && MatchAt(p, lines[i..], 0, n)
    ensures MatchAt(p, lines, i, n)
  {
    assert lines[i..][0..n] == lines[i..i + n] && lines[i..][n..] == lines[i + n..];
  }

  // ----- Lines a pattern cannot touch -----

  lemma {:induction false} StripSkips(p: Pattern, lines: seq<string>, rest: seq<string>)
    requires rest != []
    requires forall i :: 0 <= i < |lines| ==> !Triggers(p, lines[i])
    ensures StripLines(p, lines + rest) == lines + StripLines(p, rest)
  {
    if lines == [] {
      assert lines + rest == rest;
    } else {
      assert (lines + rest)[1..] == lines[1..] + rest;
      StripSkips(p, lines[1..], rest);
    }
  }

  /** Lines that trigger nothing are kept, whatever is stripped after them. */
  lemma StripKeeps(p: Pattern, lines: seq<string>, tail: string)
    requires forall i :: 0 <= i < |lines| ==> '\n' !in lines[i] && !Triggers(p, lines[i])
    ensures Strip(p, Terminated(lines) + tail) == Terminated(lines) + Strip(p, tail)
  {
    SplitTerminated(lines, tail);
    StripSkips(p, lines, Split(tail, '\n'));
    JoinTerminated(lines, StripLines(p, Split(tail, '\n')));
  }

  /** The first match is removed wherever it starts, not only at the top of the file. */
  lemma StripRemoves(p: Pattern, lines: seq<string>, t: seq<string>, rest: string)
    requires Plain(p) && Matches(p, t, Split(rest, '\n'))
    requires forall j, k :: j < |lines| ==> !MatchAt(p, lines + (t + Split(rest, '\n')), j, k)
    requires forall i :: 0 <= i < |lines| ==> '\n' !in lines[i]
    requires forall i :: 0 <= i < |t| ==> '\n' !in t[i]
    ensures Strip(p, Terminated(lines) + (Terminated(t) + rest)) == Terminated(lines) + rest
  {
    var after := Split(rest, '\n');
    SplitTerminated(t, rest);
    SplitTerminated(lines, Terminated(t) + rest);
    StripLinesBetween(p, lines, t, after);
    JoinTerminated(lines, after);
    JoinSplit(rest, '\n');
  }

  lemma StripLinesBetween(p: Pattern, lines: seq<string>, t: seq<string>, after: seq<string>)
    requires Plain(p) && Matches(p, t, after)
    requires forall j, k :: j < |lines| ==> !MatchAt(p, lines + (t + after), j, k)
    ensures StripLines(p, lines + (t + after)) == lines + after
  {
    Slices(lines, t, after);
    StripLinesAt(p, lines + (t + after), |lines|, |t|);
  }

  lemma Slices<T>(a: seq<T>, b: seq<T>, c: seq<T>)
    ensures (a + (b + c))[..|a|] == a
    ensures (a + (b + c))[|a|..|a| + |b|] == b
    ensures (a + (b + c))[|a| + |b|..] == c
  {
  }

  lemma MatchTriggers(p: Pattern, lines: seq<string>, j: int, k: int)
    requires MatchAt(p, lines, j, k)
    ensures Triggers(p, lines[j])
  {
    var t := lines[j..j + k];
    assert t[0] == lines[j];
    if p.Block? { assert t[..k - 1][0] == lines[j]; }
  }

  lemma NoTriggerNoMatch(p: Pattern, lines: seq<string>, rest: seq<string>)
    requires forall i :: 0 <= i < |lines| ==> !Triggers(p, lines[i])
    ensures forall j, k :: j < |lines| ==> !MatchAt(p, lines + rest, j, k)
  {
    forall j, k | MatchAt(p, lines + rest, j, k) ensures Triggers(p, (lines + rest)[j]) {
      MatchTriggers(p, lines + rest, j, k);
    }
  }
}
