/**
 Splitting the mapped file contents into lines (main.cpp, the loop that fills
 `lines`). A line is the text between two '\n' terminators; a final segment with
 no terminator is kept, and a trailing '\n' does not produce an empty line.
 */
module Lines {
  import opened Wrappers

  /** `std::string_view::find(c, from)`: the first index at or after `from`
      holding `c`, or None (npos) when there is none. */
  function IndexOf(s: string, c: char, from: nat): (r: Option<nat>)
    ensures r.Some? ==> from <= r.value < |s| && s[r.value] == c
    ensures r.Some? ==> forall i :: from <= i < r.value ==> s[i] != c
    ensures r.None? ==> forall i :: from <= i < |s| ==> s[i] != c
    decreases |s| - from
  {
    if from >= |s| then None
    else if s[from] == c then Some(from)
    else IndexOf(s, c, from + 1)
  }

  /** The lines of `s` from offset `pos` on, as the splitting loop produces them. */
  function SplitFrom(s: string, pos: nat): (lines: seq<string>)
    ensures forall i :: 0 <= i < |lines| ==> '\n' !in lines[i]
    ensures lines == [] <==> pos >= |s|
    decreases |s| - pos
  {
    if pos >= |s| then []
    else match IndexOf(s, '\n', pos)
      case None => [s[pos..]]
      case Some(next) => [s[pos..next]] + SplitFrom(s, next + 1)
  }

  /** The `lines` vector built from the whole file contents. */
  function SplitLines(content: string): (lines: seq<string>)
    ensures forall i :: 0 <= i < |lines| ==> '\n' !in lines[i]
    ensures lines == [] <==> content == []
  {
    SplitFrom(content, 0)
  }

  /** True when `s` is empty or its last character is a line terminator. */
  predicate Terminated(s: string) {
    s == [] || s[|s| - 1] == '\n'
  }

  /** `s` with a terminator appended unless it already ends in one (or is empty). */
  function Closed(s: string): string {
    if Terminated(s) then s else s + "\n"
  }

  lemma ClosedPrepend(line: string, after: string)
    ensures Closed(line + "\n" + after) == line + "\n" + Closed(after)
  {
    var whole := line + "\n" + after;
    if after != [] {
      assert whole[|whole| - 1] == after[|after| - 1];
    } else {
      assert whole[|whole| - 1] == '\n';
    }
  }

  /** Writes every line followed by a terminator. */
  function Unsplit(lines: seq<string>): string {
    if lines == [] then [] else lines[0] + "\n" + Unsplit(lines[1..])
  }

  /** Joins the lines with a '\n' separator between consecutive lines. */
  function Join(lines: seq<string>): string {
    if lines == [] then []
    else if |lines| == 1 then lines[0]
    else lines[0] + "\n" + Join(lines[1..])
  }

  lemma {:induction false} UnsplitSplitFrom(s: string, pos: nat)
    requires pos <= |s|
    ensures Unsplit(SplitFrom(s, pos)) == Closed(s[pos..])
    decreases |s| - pos
  {
    if pos < |s| {
      var tail := s[pos..];
      match IndexOf(s, '\n', pos)
      case None =>
        UnsplitLast(s, pos);
      case Some(next) =>
        UnsplitSplitFrom(s, next + 1);
        UnsplitStep(s, pos, next);
    }
  }

  /** The last, unterminated segment becomes one line, written back with a
      terminator. */
  lemma UnsplitLast(s: string, pos: nat)
    requires pos < |s| && IndexOf(s, '\n', pos).None?
    ensures Unsplit(SplitFrom(s, pos)) == Closed(s[pos..])
  {
    var tail := s[pos..];
    assert tail[|tail| - 1] == s[|s| - 1];
    assert SplitFrom(s, pos) == [tail];
    assert Unsplit([tail]) == tail + "\n";
  }

  /** One step of the splitting loop, given what the rest of the loop produces. */
  lemma UnsplitStep(s: string, pos: nat, next: nat)
    requires pos <= next < |s| && s[next] == '\n'
    requires IndexOf(s, '\n', pos) == Some(next)
    requires Unsplit(SplitFrom(s, next + 1)) == Closed(s[next + 1..])
    ensures Unsplit(SplitFrom(s, pos)) == Closed(s[pos..])
  {
    var line := s[pos..next];
    var rest := SplitFrom(s, next + 1);
    SplitFromStep(s, pos, next);
    UnsplitCons(line, rest);
    CutAtTerminator(s, pos, next);
    ClosedPrepend(line, s[next + 1..]);
  }

  lemma SplitFromStep(s: string, pos: nat, next: nat)
    requires pos <= next < |s|
    requires IndexOf(s, '\n', pos) == Some(next)
    ensures SplitFrom(s, pos) == [s[pos..next]] + SplitFrom(s, next + 1)
  {
  }

  lemma UnsplitCons(line: string, rest: seq<string>)
    ensures Unsplit([line] + rest) == line + "\n" + Unsplit(rest)
  {
    assert ([line] + rest)[1..] == rest;
  }

  lemma CutAtTerminator(s: string, pos: nat, next: nat)
    requires pos <= next < |s| && s[next] == '\n'
    ensures s[pos..] == s[pos..next] + "\n" + s[next + 1..]
  {
  }

  /** Writing the lines back with terminators reproduces the contents, with one
      terminator appended exactly when the contents did not already end in one. */
  lemma SplitThenUnsplit(content: string)
    ensures Unsplit(SplitLines(content)) == if Terminated(content) then content else content + "\n"
  {
    UnsplitSplitFrom(content, 0);
    assert content[0..] == content;
  }

  lemma {:induction false} UnsplitIsJoinTerminated(lines: seq<string>)
    requires lines != []
    ensures Unsplit(lines) == Join(lines) + "\n"
  {
    if |lines| > 1 {
      UnsplitIsJoinTerminated(lines[1..]);
    }
  }

  /** Joining the lines with '\n' gives back the contents, less the final
      terminator when there is one. */
  lemma SplitThenJoin(content: string)
    ensures Join(SplitLines(content)) + (if content != [] && content[|content| - 1] == '\n' then "\n" else "") == content
  {
    SplitThenUnsplit(content);
    var lines := SplitLines(content);
    if lines != [] {
      UnsplitIsJoinTerminated(lines);
      var joined := Join(lines);
      if !Terminated(content) {
        assert joined + "\n" == content + "\n";
        assert joined == (joined + "\n")[..|joined|];
      } else {
        assert content == joined + "\n";
      }
    }
  }

  lemma {:induction false} SplitFromUnsplit(prefix: string, lines: seq<string>)
    requires forall i :: 0 <= i < |lines| ==> '\n' !in lines[i]
    ensures SplitFrom(prefix + Unsplit(lines), |prefix|) == lines
    decreases |lines|
  {
    if lines == [] {
      assert prefix + Unsplit(lines) == prefix;
    } else {
      var first, others := lines[0], lines[1..];
      var prefix' := prefix + first + "\n";
      assert lines == [first] + others;
      assert forall i :: 0 <= i < |others| ==> others[i] == lines[i + 1];
      SplitFromUnsplit(prefix', others);
      SplitFromCons(prefix, first, others);
    }
  }

  /** The first line is cut at its own terminator, and splitting resumes just
      after it. */
  lemma SplitFromCons(prefix: string, first: string, others: seq<string>)
    requires '\n' !in first
    ensures SplitFrom(prefix + Unsplit([first] + others), |prefix|)
         == [first] + SplitFrom(prefix + first + "\n" + Unsplit(others), |prefix + first + "\n"|)
  {
    var after := Unsplit(others);
    var s := prefix + first + "\n" + after;
    var at := |prefix| + |first|;
    assert |prefix + first + "\n"| == at + 1;
    UnsplitCons(first, others);
    assert prefix + Unsplit([first] + others) == s;
    FirstTerminator(prefix, first, after);
    SplitFromStep(s, |prefix|, at);
    assert s[|prefix|..at] == first;
  }

  /** The first terminator after a '\n'-free line is the one that ends it. */
  lemma FirstTerminator(prefix: string, line: string, after: string)
    requires '\n' !in line
    ensures IndexOf(prefix + line + "\n" + after, '\n', |prefix|) == Some(|prefix| + |line|)
  {
    var s := prefix + line + "\n" + after;
    var at := |prefix| + |line|;
    assert s[at] == '\n';
    assert forall i :: |prefix| <= i < at ==> s[i] == line[i - |prefix|];
  }

  /** Conversely, lines free of '\n' written with terminators split back into
      exactly those lines (empty lines included). */
  lemma UnsplitThenSplit(lines: seq<string>)
    requires forall i :: 0 <= i < |lines| ==> '\n' !in lines[i]
    ensures SplitLines(Unsplit(lines)) == lines
  {
    SplitFromUnsplit([], lines);
    assert [] + Unsplit(lines) == Unsplit(lines);
  }
}
