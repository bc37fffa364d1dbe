/** The line heuristic that stands in for a unified-diff applier (`_naive_apply_diff`): it ignores
    hunk positions, removes the first equal line once per `-` line and appends every `+` line at the
    end of the file. */
module NaiveDiff {
  import opened Text

  /** What one line of the diff text contributes. */
  datatype LineKind = Header | Added(text: string) | Removed(text: string) | Context

  /** Lines starting `+++`, `---` or `@@` are skipped; otherwise a leading `+` or `-` marks an added or
      removed line (the rest of the line, newline included); any other line is context. */
  function Classify(line: string): (k: LineKind)
    ensures k.Added? ==> |line| > 0 && line == "+" + k.text && !StartsWith(line, "+++")
    ensures k.Removed? ==> |line| > 0 && line == "-" + k.text && !StartsWith(line, "---")
    ensures k.Header? <==> StartsWith(line, "+++") || StartsWith(line, "---") || StartsWith(line, "@@")
    ensures k.Context? <==> !StartsWith(line, "+") && !StartsWith(line, "-") && !StartsWith(line, "@@")
  {
    if StartsWith(line, "+++") || StartsWith(line, "---") || StartsWith(line, "@@") then Header
    else if StartsWith(line, "+") then Added(line[1..])
    else if StartsWith(line, "-") then Removed(line[1..])
    else Context
  }

  /** The `+` lines of the diff, without their marker, in order. */
  function Additions(lines: seq<string>): (adds: seq<string>)
    ensures |adds| <= |lines|
  {
    if lines == [] then []
    else
      var last := lines[|lines| - 1];
      var rest := Additions(lines[..|lines| - 1]);
      if Classify(last).Added? then rest + [Classify(last).text] else rest
  }

  /** The `-` lines of the diff, without their marker, in order. */
  function Removals(lines: seq<string>): (removes: seq<string>)
    ensures |removes| <= |lines|
  {
    if lines == [] then []
    else
      var last := lines[|lines| - 1];
      var rest := Removals(lines[..|lines| - 1]);
      if Classify(last).Removed? then rest + [Classify(last).text] else rest
  }

  /** The index of the first element equal to `x` (`list.index`), or `|xs|` when there is none. */
  function FirstIndex(xs: seq<string>, x: string): (i: nat)
    ensures i <= |xs|
    ensures i < |xs| ==> xs[i] == x
    ensures forall j :: 0 <= j < i ==> xs[j] != x
    ensures i == |xs| <==> x !in xs
  {
    if xs == [] then 0 else if xs[0] == x then 0 else 1 + FirstIndex(xs[1..], x)
  }

  /** `xs.pop(xs.index(x))`, or `xs` unchanged when `x` does not occur (the `ValueError` is swallowed):
      the first occurrence of `x` goes and nothing else moves. */
  function RemoveFirst(xs: seq<string>, x: string): (ys: seq<string>)
    ensures x !in xs ==> ys == xs
    ensures x in xs ==> (|ys| == |xs| - 1
      && ys[..FirstIndex(xs, x)] == xs[..FirstIndex(xs, x)]
      && ys[FirstIndex(xs, x)..] == xs[FirstIndex(xs, x) + 1..])
    ensures multiset(ys) == multiset(xs) - multiset{x}
  {
    var i := FirstIndex(xs, x);
    if i == |xs| then xs
    else
      assert xs == xs[..i] + [xs[i]] + xs[i + 1..];
      xs[..i] + xs[i + 1..]
  }

  /** The removals applied one after another, in order; each takes away at most one line. */
  function RemoveEach(xs: seq<string>, removes: seq<string>): (r: seq<string>)
    ensures |xs| - |removes| <= |r| <= |xs|
  {
    if removes == [] then xs
    else RemoveFirst(RemoveEach(xs, removes[..|removes| - 1]), removes[|removes| - 1])
  }

  /** What `_naive_apply_diff` returns: the original lines with each removal applied in turn,
      followed by all added lines. */
  function Patched(original: seq<string>, diffText: string): (r: seq<string>)
    ensures var lines := SplitLines(diffText);
      |original| - |Removals(lines)| + |Additions(lines)| <= |r| <= |original| + |Additions(lines)|
  {
    var lines := SplitLines(diffText);
    RemoveEach(original, Removals(lines)) + Additions(lines)
  }

  /** `_naive_apply_diff(original_lines, diff_text)`: copies the list, collects the `+` and `-` lines,
      pops the first match of each removal and inserts the additions at an advancing position that
      starts at the end. The argument is a value, so the caller's list is never changed. */
  method NaiveApplyDiff(originalLines: seq<string>, diffText: string) returns (newLines: seq<string>)
    ensures newLines == Patched(originalLines, diffText)
  {
    var adds, removes := Collect(SplitLines(diffText));
    newLines := RemoveAll(originalLines, removes);
    newLines := InsertAtEnd(newLines, adds);
  }

  /** The first loop of `_naive_apply_diff`: sorts the diff lines into additions and removals. */
  method Collect(lines: seq<string>) returns (adds: seq<string>, removes: seq<string>)
    ensures adds == Additions(lines) && removes == Removals(lines)
  {
    adds, removes := [], [];
    for i := 0 to |lines|
      invariant adds == Additions(lines[..i])
      invariant removes == Removals(lines[..i])
    {
      var line := lines[i];
      assert lines[..i + 1][..i] == lines[..i];
      if StartsWith(line, "+++") || StartsWith(line, "---") || StartsWith(line, "@@") {
      } else if StartsWith(line, "+") {
        adds := adds + [line[1..]];
      } else if StartsWith(line, "-") {
        removes := removes + [line[1..]];
      }
    }
    assert lines[..|lines|] == lines;
  }

  /** The second loop: for each removal in turn, pops the first equal line if there is one. */
  method RemoveAll(original: seq<string>, removes: seq<string>) returns (newLines: seq<string>)
    ensures newLines == RemoveEach(original, removes)
  {
    newLines := original;
    for j := 0 to |removes|
      invariant newLines == RemoveEach(original, removes[..j])
    {
      var r := removes[j];
      RemoveEachStep(original, removes, j);
      var idx := Index(newLines, r);
      RemoveFirstAt(newLines, r, idx);
      if idx < |newLines| {
        newLines := newLines[..idx] + newLines[idx + 1..];
      }
    }
    assert removes[..|removes|] == removes;
  }

  /** One more removal applies to what the earlier ones left. */
  lemma RemoveEachStep(xs: seq<string>, removes: seq<string>, j: nat)
    requires j < |removes|
    ensures RemoveEach(xs, removes[..j + 1]) == RemoveFirst(RemoveEach(xs, removes[..j]), removes[j])
  {
    assert removes[..j + 1][..j] == removes[..j];
  }

  /** Popping the first index of `x`, when there is one, is `RemoveFirst`. */
  lemma RemoveFirstAt(xs: seq<string>, x: string, idx: nat)
    requires idx == FirstIndex(xs, x)
    ensures RemoveFirst(xs, x) == if idx < |xs| then xs[..idx] + xs[idx + 1..] else xs
  {
    if idx < |xs| {
      assert RemoveFirst(xs, x) == xs[..idx] + xs[idx + 1..];
    } else {
      assert x !in xs;
    }
  }

  /** The third loop: inserts each addition at `insert_at`, which starts at the end and moves past
      every inserted line. */
  method InsertAtEnd(lines: seq<string>, adds: seq<string>) returns (newLines: seq<string>)
    ensures newLines == lines + adds
  {
    newLines := lines;
    var insertAt := |newLines|;
    for j := 0 to |adds|
      invariant newLines == lines + adds[..j]
      invariant insertAt == |newLines|
    {
      assert adds[..j + 1] == adds[..j] + [adds[j]];
      newLines := newLines[..insertAt] + [adds[j]] + newLines[insertAt..];
      insertAt := insertAt + 1;
    }
    assert adds[..|adds|] == adds;
  }

  /** `list.index` as a left-to-right search; `|xs|` stands for the `ValueError` of a missing line. */
  method Index(xs: seq<string>, x: string) returns (idx: nat)
    ensures idx == FirstIndex(xs, x)
  {
    idx := 0;
    while idx < |xs| && xs[idx] != x
      invariant idx <= |xs|
      invariant forall k :: 0 <= k < idx ==> xs[k] != x
    {
      idx := idx + 1;
    }
    FirstIndexUnique(xs, x, idx);
  }

  /** A position that holds `x`, or the end, with no `x` before it is the first index of `x`. */
  lemma FirstIndexUnique(xs: seq<string>, x: string, i: nat)
    requires i <= |xs| && (i < |xs| ==> xs[i] == x)
    requires forall k :: 0 <= k < i ==> xs[k] != x
    ensures FirstIndex(xs, x) == i
  {
  }

  /** The added lines of a diff made of two pieces are those of the first piece, then those of the second. */
  lemma {:induction false} AdditionsAppend(a: seq<string>, b: seq<string>)
    ensures Additions(a + b) == Additions(a) + Additions(b)
    decreases |b|
  {
    if b == [] {
      assert a + b == a;
    } else {
      var b' := b[..|b| - 1];
      assert (a + b)[..|a + b| - 1] == a + b';
      assert (a + b)[|a + b| - 1] == b[|b| - 1];
      AdditionsAppend(a, b');
    }
  }

  /** The removed lines of a diff made of two pieces are those of the first piece, then those of the second. */
  lemma {:induction false} RemovalsAppend(a: seq<string>, b: seq<string>)
    ensures Removals(a + b) == Removals(a) + Removals(b)
    decreases |b|
  {
    if b == [] {
      assert a + b == a;
    } else {
      var b' := b[..|b| - 1];
      assert (a + b)[..|a + b| - 1] == a + b';
      assert (a + b)[|a + b| - 1] == b[|b| - 1];
      RemovalsAppend(a, b');
    }
  }

  /** A `+++`, `---` or `@@` line, wherever it stands, adds and removes nothing. */
  lemma HeaderLineIgnored(a: seq<string>, line: string, b: seq<string>)
    requires StartsWith(line, "+++") || StartsWith(line, "---") || StartsWith(line, "@@")
    ensures Additions(a + [line] + b) == Additions(a + b)
    ensures Removals(a + [line] + b) == Removals(a + b)
  {
    AdditionsAppend(a + [line], b);
    AdditionsAppend(a, [line]);
    AdditionsAppend(a, b);
    RemovalsAppend(a + [line], b);
    RemovalsAppend(a, [line]);
    RemovalsAppend(a, b);
    assert [line][..0] == [];
  }

  /** Applying the removals takes away exactly their multiset of lines, as far as the lines occur. */
  lemma {:induction false} RemoveEachMultiset(xs: seq<string>, removes: seq<string>)
    ensures multiset(RemoveEach(xs, removes)) == multiset(xs) - multiset(removes)
    decreases |removes|
  {
    if removes != [] {
      var front := removes[..|removes| - 1];
      var r := removes[|removes| - 1];
      assert removes == front + [r];
      RemoveEachMultiset(xs, front);
      assert multiset(removes) == multiset(front) + multiset{r};
    }
  }

  /** Removals of lines the file does not hold change nothing. */
  lemma {:induction false} RemoveEachAbsent(xs: seq<string>, removes: seq<string>)
    requires forall i :: 0 <= i < |removes| ==> removes[i] !in xs
    ensures RemoveEach(xs, removes) == xs
    decreases |removes|
  {
    if removes != [] {
      RemoveEachAbsent(xs, removes[..|removes| - 1]);
    }
  }

  /** The lines of the result: those of the file, less the removed ones that occur, plus the added ones. */
  lemma PatchedMultiset(original: seq<string>, diffText: string)
    ensures var lines := SplitLines(diffText);
      multiset(Patched(original, diffText)) == multiset(original) - multiset(Removals(lines)) + multiset(Additions(lines))
  {
    RemoveEachMultiset(original, Removals(SplitLines(diffText)));
  }

  /** With no `-` lines the result is the file followed by the added lines. */
  lemma NoRemovalsAppends(original: seq<string>, diffText: string)
    requires Removals(SplitLines(diffText)) == []
    ensures Patched(original, diffText) == original + Additions(SplitLines(diffText))
  {
  }

  /** The result always ends with the added lines, in the order the diff gives them. */
  lemma AdditionsAtTheEnd(original: seq<string>, diffText: string)
    ensures var adds := Additions(SplitLines(diffText));
      |adds| <= |Patched(original, diffText)| && Patched(original, diffText)[|Patched(original, diffText)| - |adds|..] == adds
  {
  }

  /** A removal line keeps its newline, so it never matches a last line that has none: `-x` then
      `+y` on a file whose only line is an unterminated `x` leaves `x` in place and puts `y` after it. */
  lemma UnterminatedLastLineSurvives(x: string, y: string)
    requires '\n' !in x && '\n' !in y && !StartsWith(x, "--") && !StartsWith(y, "++")
    ensures Patched([x], "-" + x + "\n" + "+" + y) == [x, y]
  {
    var r := x + "\n";
    var diff := "-" + x + "\n" + "+" + y;
    assert diff == ("-" + x) + "\n" + ("+" + y);
    SplitLinesCons("-" + x, "+" + y);
    SplitLinesSingle("+" + y);
    assert "-" + x + "\n" == "-" + r;
    assert SplitLines(diff) == ["-" + r, "+" + y];
    NoLeadingPair(x, '-');
    DiffLines(r, y);
    assert r !in [x] by {
      assert |r| != |x|;
    }
    RemoveEachAbsent([x], [r]);
    assert Patched([x], diff) == [x] + [y];
  }

  /** A diff whose payload ends in a removal line: the payload is stripped at its end, so that line
      carries no newline. It takes away a last line `x` without a newline, and leaves a line `x`
      that has one. */
  lemma FinalRemovalIsUnterminated(x: string)
    requires '\n' !in x && !StartsWith(x, "--")
    ensures Patched([x + "\n"], "-" + x) == [x + "\n"]
    ensures Patched([x], "-" + x) == []
  {
    SplitLinesSingle("-" + x);
    OneRemoval(x);
    var r := x + "\n";
    assert x !in [r] by {
      assert |r| != |x|;
    }
    RemoveEachAbsent([r], [x]);
    var xs: seq<string> := [x];
    assert RemoveEach(xs, [x]) == RemoveFirst(RemoveEach(xs, []), x) by {
      assert [x][..0] == [];
    }
    assert FirstIndex(xs, x) == 0;
  }

  /** The one-line diff `-r` removes `r` and adds nothing. */
  lemma OneRemoval(r: string)
    requires !StartsWith(r, "--")
    ensures Removals(["-" + r]) == [r] && Additions(["-" + r]) == []
  {
    var lines := ["-" + r];
    assert lines[0][0] == '-';
    assert Classify(lines[0]) == Removed(r) by {
      assert lines[0][1..] == r;
    }
    assert lines[..0] == [];
  }

  /** A terminated line is taken away: `-x` then `+y`, both terminated, on a file that starts with
      the line `x` leaves the rest of the file followed by `y`. */
  lemma TerminatedLineReplaced(x: string, y: string, rest: seq<string>)
    requires '\n' !in x && '\n' !in y && !StartsWith(x, "--") && !StartsWith(y, "++")
    ensures Patched([x + "\n"] + rest, "-" + x + "\n" + "+" + y + "\n") == rest + [y + "\n"]
  {
    var r := x + "\n";
    var a := y + "\n";
    var diff := "-" + x + "\n" + "+" + y + "\n";
    assert diff == ("-" + x) + "\n" + ("+" + a);
    assert "+" + a == ("+" + y) + "\n" + "";
    SplitLinesCons("-" + x, "+" + a);
    SplitLinesCons("+" + y, "");
    assert "-" + x + "\n" == "-" + r;
    assert ("+" + y) + "\n" == "+" + a;
    assert SplitLines("") == [];
    assert SplitLines("+" + a) == ["+" + a];
    assert SplitLines(diff) == ["-" + r, "+" + a];
    NoLeadingPair(x, '-');
    NoLeadingPair(y, '+');
    DiffLines(r, a);
    var xs := [r] + rest;
    assert RemoveEach(xs, [r]) == RemoveFirst(RemoveEach(xs, []), r) by {
      assert [r][..0] == [];
    }
    assert FirstIndex(xs, r) == 0;
    assert xs[1..] == rest;
  }

  /** The two-line diff `-r`, `+a` removes `r` and adds `a`. */
  lemma DiffLines(r: string, a: string)
    requires !StartsWith(r, "--") && !StartsWith(a, "++")
    ensures Removals(["-" + r, "+" + a]) == [r] && Additions(["-" + r, "+" + a]) == [a]
  {
    var lines := ["-" + r, "+" + a];
    assert lines[0][0] == '-' && lines[1][0] == '+';
    assert Classify(lines[0]) == Removed(r) by {
      assert lines[0][1..] == r;
    }
    assert Classify(lines[1]) == Added(a) by {
      assert lines[1][1..] == a;
    }
    assert lines[..1] == [lines[0]];
    assert [lines[0]][..0] == [];
  }

  /** Ending a line with a newline does not make it start with two `c`s. */
  lemma NoLeadingPair(x: string, c: char)
    requires c != '\n' && !StartsWith(x, [c, c])
    ensures !StartsWith(x + "\n", [c, c])
  {
    if |x| >= 2 {
      assert (x + "\n")[..2] == x[..2];
    } else {
      assert |x + "\n"| < 2 || (x + "\n")[..2][1] == '\n';
    }
  }
}
