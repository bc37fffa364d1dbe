/** The Python `str` operations the builder and the demo service rely on, over `seq<char>`. */
module Text {

  /** `c.isspace()`; the same set is what `\s` matches in a `str` regular expression and what
      `strip()` and `rstrip()` remove. */
  predicate IsSpace(c: char) {
    c == ' ' || ('\t' <= c <= '\r') || ('\U{1C}' <= c <= '\U{1F}')
    || c == '\U{85}' || c == '\U{A0}' || c == '\U{1680}' || ('\U{2000}' <= c <= '\U{200A}')
    || c == '\U{2028}' || c == '\U{2029}' || c == '\U{202F}' || c == '\U{205F}' || c == '\U{3000}'
  }

  /** `s[i:].startswith(p)`, with `i` inside `s`. */
  predicate StartsAt(s: string, i: nat, p: string) {
    i <= |s| && |p| <= |s| - i && s[i..i + |p|] == p
  }

  predicate StartsWith(s: string, p: string) {
    StartsAt(s, 0, p)
  }

  predicate EndsWith(s: string, p: string) {
    |p| <= |s| && s[|s| - |p|..] == p
  }

  /** `p in s`. */
  predicate Contains(s: string, p: string) {
    exists i: nat | i <= |s| :: StartsAt(s, i, p)
  }

  /** The first index at or after `i` that does not hold a space (or `|s|`): where a greedy `\s*` stops. */
  function SkipSpace(s: string, i: nat): (j: nat)
    requires i <= |s|
    ensures i <= j <= |s|
    ensures forall k :: i <= k < j ==> IsSpace(s[k])
    ensures j < |s| ==> !IsSpace(s[j])
    decreases |s| - i
  {
    if i < |s| && IsSpace(s[i]) then SkipSpace(s, i + 1) else i
  }

  /** `s.lstrip()`: the suffix of `s` after its leading spaces. */
  function TrimStart(s: string): (r: string)
    ensures |r| <= |s| && r == s[|s| - |r|..]
    ensures forall k :: 0 <= k < |s| - |r| ==> IsSpace(s[k])
    ensures |r| > 0 ==> !IsSpace(r[0])
  {
    s[SkipSpace(s, 0)..]
  }

  /** `s.rstrip()`: the prefix of `s` before its trailing spaces. */
  function TrimEnd(s: string): (r: string)
    ensures |r| <= |s| && r == s[..|r|]
    ensures forall k :: |r| <= k < |s| ==> IsSpace(s[k])
    ensures |r| > 0 ==> !IsSpace(r[|r| - 1])
  {
    if |s| > 0 && IsSpace(s[|s| - 1]) then TrimEnd(s[..|s| - 1]) else s
  }

  /** No space at either end: what `strip()` returns. */
  predicate IsStripped(s: string) {
    |s| > 0 ==> !IsSpace(s[0]) && !IsSpace(s[|s| - 1])
  }

  /** `s.strip()`: `s` without its leading and trailing spaces. */
  function Strip(s: string): (r: string)
    ensures IsStripped(r)
    ensures SkipSpace(s, 0) + |r| <= |s| && r == s[SkipSpace(s, 0)..SkipSpace(s, 0) + |r|]
    ensures forall k :: SkipSpace(s, 0) + |r| <= k < |s| ==> IsSpace(s[k])
  {
    TrimEnd(TrimStart(s))
  }

  /** `s.lstrip("\n")`. */
  function TrimLeadingNewlines(s: string): (r: string)
    ensures |r| <= |s| && r == s[|s| - |r|..]
    ensures forall k :: 0 <= k < |s| - |r| ==> s[k] == '\n'
    ensures |r| > 0 ==> r[0] != '\n'
  {
    if |s| > 0 && s[0] == '\n' then TrimLeadingNewlines(s[1..]) else s
  }

  /** `"".join(parts)`. */
  function Concat(parts: seq<string>): string {
    if parts == [] then "" else parts[0] + Concat(parts[1..])
  }

  /** `sep.join(parts)`. */
  function Join(parts: seq<string>, sep: string): string {
    if |parts| == 0 then ""
    else if |parts| == 1 then parts[0]
    else parts[0] + sep + Join(parts[1..], sep)
  }

  /** `s.split(sep)` for a non-empty separator: the pieces between the occurrences of `sep`,
      found left to right without overlap (`SplitLeftmost` states where each cut falls). */
  function Split(s: string, sep: string): (parts: seq<string>)
    requires |sep| > 0
    ensures |parts| >= 1
    ensures |parts[0]| <= |s| && parts[0] == s[..|parts[0]|]
    decreases |s|
  {
    if |s| < |sep| then [s]
    else if s[..|sep|] == sep then [""] + Split(s[|sep|..], sep)
    else
      var rest := Split(s[1..], sep);
      [[s[0]] + rest[0]] + rest[1..]
  }

  /** An occurrence in `s[1..]` at `i` is one in `s` at `i + 1`. */
  lemma StartsAtShift(s: string, i: nat, p: string)
    requires |s| > 0
    ensures StartsAt(s[1..], i, p) <==> StartsAt(s, i + 1, p)
  {
    if i + 1 + |p| <= |s| {
      assert s[1..][i..i + |p|] == s[i + 1..i + 1 + |p|];
    }
  }

  /** A string that does not start with `p` contains it exactly when its tail does. */
  lemma ContainsShift(s: string, p: string)
    requires |s| > 0 && !StartsAt(s, 0, p)
    ensures Contains(s, p) <==> Contains(s[1..], p)
  {
    if Contains(s[1..], p) {
      ContainsTail(s, p);
    }
    if Contains(s, p) {
      var i: nat :| i <= |s| && StartsAt(s, i, p);
      StartsAtShift(s, i - 1, p);
    }
  }

  /** `s.replace(p, r)`. */
  function Replace(s: string, p: string, r: string): string {
    if p == "" then ReplaceEmpty(s, r) else ReplaceNonEmpty(s, p, r)
  }

  /** `s.replace(p, r)` for a non-empty `p`: every occurrence, found left to right without overlap, becomes `r`. */
  function ReplaceNonEmpty(s: string, p: string, r: string): string
    requires |p| > 0
    decreases |s|
  {
    if |s| < |p| then s
    else if s[..|p|] == p then r + ReplaceNonEmpty(s[|p|..], p, r)
    else [s[0]] + ReplaceNonEmpty(s[1..], p, r)
  }

  /** `s.replace("", r)`: `r` before every character of `s` and once more at the end. */
  function ReplaceEmpty(s: string, r: string): (t: string)
    ensures |t| == |s| + (|s| + 1) * |r|
  {
    if s == "" then r else r + [s[0]] + ReplaceEmpty(s[1..], r)
  }

  /** The index of the first `c` in `s`, or `|s|` when there is none. */
  function IndexOf(s: string, c: char): (i: nat)
    ensures i <= |s|
    ensures i < |s| ==> s[i] == c
    ensures forall j :: 0 <= j < i ==> s[j] != c
  {
    if s == "" then 0 else if s[0] == c then 0 else 1 + IndexOf(s[1..], c)
  }

  /** `s.splitlines(keepends=True)` where `\n` is the only line break. */
  function SplitLines(s: string): (lines: seq<string>)
    ensures Concat(lines) == s
    ensures forall i :: 0 <= i < |lines| ==> |lines[i]| > 0
    ensures forall i, j :: 0 <= i < |lines| && 0 <= j < |lines[i]| - 1 ==> lines[i][j] != '\n'
    ensures forall i :: 0 <= i < |lines| - 1 ==> lines[i][|lines[i]| - 1] == '\n'
    decreases |s|
  {
    if s == "" then []
    else
      var i := IndexOf(s, '\n');
      if i == |s| then [s]
      else
        var rest := SplitLines(s[i + 1..]);
        LinesAt(s, i, rest);
        [s[..i + 1]] + rest
  }

  /** Lines as `SplitLines` cuts them: none empty, `\n` only as the last character, and every line
      but the last ending in one. */
  predicate LinesShaped(lines: seq<string>) {
    && (forall i :: 0 <= i < |lines| ==> |lines[i]| > 0)
    && (forall i, j :: 0 <= i < |lines| && 0 <= j < |lines[i]| - 1 ==> lines[i][j] != '\n')
    && (forall i :: 0 <= i < |lines| - 1 ==> lines[i][|lines[i]| - 1] == '\n')
  }

  /** The lines of `s` that has its first `\n` at `i`: the line up to it, then the lines of the rest. */
  lemma LinesAt(s: string, i: nat, rest: seq<string>)
    requires i < |s| && s[i] == '\n' && forall j :: 0 <= j < i ==> s[j] != '\n'
    requires Concat(rest) == s[i + 1..] && LinesShaped(rest)
    ensures Concat([s[..i + 1]] + rest) == s && LinesShaped([s[..i + 1]] + rest)
  {
    assert s[..i + 1] + s[i + 1..] == s;
    LinesCons(s[..i + 1], rest);
  }

  /** A first line that ends at its only `\n`, put before well-formed lines, keeps them well formed. */
  lemma LinesCons(head: string, rest: seq<string>)
    requires |head| > 0 && head[|head| - 1] == '\n'
    requires forall j :: 0 <= j < |head| - 1 ==> head[j] != '\n'
    requires LinesShaped(rest)
    ensures Concat([head] + rest) == head + Concat(rest)
    ensures LinesShaped([head] + rest)
  {
    var lines := [head] + rest;
    assert lines[1..] == rest;
    assert forall i :: 1 <= i < |lines| ==> lines[i] == rest[i - 1];
  }

  /** `s.lower()` restricted to ASCII letters. */
  function AsciiLower(s: string): (r: string)
    ensures |r| == |s|
    ensures forall i :: 0 <= i < |s| ==> r[i] == if 'A' <= s[i] <= 'Z' then (s[i] as int + 32) as char else s[i]
  {
    if s == "" then "" else [if 'A' <= s[0] <= 'Z' then (s[0] as int + 32) as char else s[0]] + AsciiLower(s[1..])
  }

  /** `s[-n:]` for a positive `n`: the last `n` characters, or all of `s` when it is shorter. */
  function Tail(s: string, n: nat): (r: string)
    requires n > 0
    ensures |r| <= n
    ensures |r| == if |s| <= n then |s| else n
    ensures r == s[|s| - |r|..]
  {
    if |s| <= n then s else s[|s| - n..]
  }

  lemma JoinHead(c: char, x: string, t: seq<string>, sep: string)
    ensures Join([[c] + x] + t, sep) == [c] + Join([x] + t, sep)
  {
    if |t| > 0 {
      assert ([[c] + x] + t)[1..] == t;
      assert ([x] + t)[1..] == t;
    }
  }

  /** Joining the pieces of a split with the same separator gives back the string. */
  lemma {:induction false} JoinSplit(s: string, sep: string)
    requires |sep| > 0
    ensures Join(Split(s, sep), sep) == s
    decreases |s|
  {
    if |s| < |sep| {
    } else if s[..|sep|] == sep {
      JoinSplit(s[|sep|..], sep);
      JoinAfterSeparator(s, sep, Split(s[|sep|..], sep));
    } else {
      JoinSplit(s[1..], sep);
      JoinAfterChar(s, sep, Split(s[1..], sep));
    }
  }

  /** The step of `JoinSplit` where `s` starts with the separator. */
  lemma JoinAfterSeparator(s: string, sep: string, rest: seq<string>)
    requires |sep| <= |s| && s[..|sep|] == sep && |rest| >= 1 && Join(rest, sep) == s[|sep|..]
    ensures Join([""] + rest, sep) == s
  {
    var parts := [""] + rest;
    assert |parts| > 1 && parts[0] == "" && parts[1..] == rest;
    assert Join(parts, sep) == parts[0] + sep + Join(rest, sep);
    assert "" + sep == sep;
    assert s == s[..|sep|] + s[|sep|..];
  }

  /** The step of `JoinSplit` where the first character of `s` joins the first piece. */
  lemma JoinAfterChar(s: string, sep: string, rest: seq<string>)
    requires |s| > 0 && |rest| >= 1 && Join(rest, sep) == s[1..]
    ensures Join([[s[0]] + rest[0]] + rest[1..], sep) == s
  {
    JoinHead(s[0], rest[0], rest[1..], sep);
    assert [rest[0]] + rest[1..] == rest;
    assert s == [s[0]] + s[1..];
  }

  /** An occurrence of `p` in `s[1..]` is one in `s`. */
  lemma ContainsTail(s: string, p: string)
    requires |s| > 0 && Contains(s[1..], p)
    ensures Contains(s, p)
  {
    var i: nat :| StartsAt(s[1..], i, p);
    assert StartsAt(s[1..], i, p);
    assert s[i + 1..i + 1 + |p|] == s[1..][i..i + |p|];
    assert StartsAt(s, i + 1, p);
  }

  /** Where the cuts of `s.split(sep)` fall: there is more than one piece exactly when `sep` occurs;
       a single piece is `s` itself; otherwise the first piece ends at the leftmost occurrence. */
  lemma {:induction false} SplitLeftmost(s: string, sep: string)
    requires |sep| > 0
    ensures |Split(s, sep)| > 1 <==> Contains(s, sep)
    ensures |Split(s, sep)| == 1 ==> Split(s, sep) == [s]
    ensures |Split(s, sep)| > 1 ==>
      StartsAt(s, |Split(s, sep)[0]|, sep) && forall i :: 0 <= i < |Split(s, sep)[0]| ==> !StartsAt(s, i, sep)
    decreases |s|, 1
  {
    if |s| < |sep| {
      assert !Contains(s, sep);
    } else if s[..|sep|] == sep {
      assert StartsAt(s, 0, sep);
      assert Split(s, sep) == [""] + Split(s[|sep|..], sep);
    } else {
      SplitLeftmostSkip(s, sep);
    }
  }

  /** The step of `SplitLeftmost` where `s` does not start with the separator: its first character
      joins the first piece of the split of its tail. */
  lemma {:induction false} SplitLeftmostSkip(s: string, sep: string)
    requires |sep| <= |s| && |sep| > 0 && s[..|sep|] != sep
    ensures |Split(s, sep)| > 1 <==> Contains(s, sep)
    ensures |Split(s, sep)| == 1 ==> Split(s, sep) == [s]
    ensures |Split(s, sep)| > 1 ==>
      StartsAt(s, |Split(s, sep)[0]|, sep) && forall i :: 0 <= i < |Split(s, sep)[0]| ==> !StartsAt(s, i, sep)
    decreases |s|, 0
  {
    var parts, rest := Split(s, sep), Split(s[1..], sep);
    SplitSkipShape(s, sep);
    var n := |rest[0]|;
    SplitLeftmost(s[1..], sep);
    assert !StartsAt(s, 0, sep);
    ContainsShift(s, sep);
    if |rest| > 1 {
      StartsAtShift(s, n, sep);
      forall i | 0 < i < |parts[0]|
        ensures !StartsAt(s, i, sep)
      {
        StartsAtShift(s, i - 1, sep);
      }
    } else {
      assert [s[0]] + s[1..] == s;
    }
  }

  /** After the first piece, the pieces of a split are the split of what follows the leftmost
      separator, which ends at `k`. */
  lemma {:induction false} SplitRest(s: string, sep: string, k: nat)
    requires |sep| > 0 && |Split(s, sep)| > 1 && k == |Split(s, sep)[0]| + |sep|
    ensures k <= |s| && Split(s, sep)[1..] == Split(s[k..], sep)
    decreases |s|, 1
  {
    if s[..|sep|] == sep {
      assert Split(s, sep) == [""] + Split(s[|sep|..], sep);
    } else {
      SplitRestSkip(s, sep, k);
    }
  }

  /** The step of `SplitRest` where `s` does not start with the separator. */
  lemma {:induction false} SplitRestSkip(s: string, sep: string, k: nat)
    requires |sep| <= |s| && |sep| > 0 && s[..|sep|] != sep
    requires |Split(s, sep)| > 1 && k == |Split(s, sep)[0]| + |sep|
    ensures k <= |s| && Split(s, sep)[1..] == Split(s[k..], sep)
    decreases |s|, 0
  {
    SplitSkipShape(s, sep);
    SplitRest(s[1..], sep, k - 1);
    assert s[1..][k - 1..] == s[k..];
  }

  /** Where `s` does not start with the separator, its first character joins the first piece of
      the split of its tail. */
  lemma SplitSkipShape(s: string, sep: string)
    requires |sep| <= |s| && |sep| > 0 && s[..|sep|] != sep
    ensures Split(s, sep)[1..] == Split(s[1..], sep)[1..]
    ensures Split(s, sep)[0] == [s[0]] + Split(s[1..], sep)[0]
  {
  }

  /** No piece of a split holds the separator. */
  lemma {:induction false} SplitPiecesAreFree(s: string, sep: string)
    requires |sep| > 0
    ensures forall i :: 0 <= i < |Split(s, sep)| ==> !Contains(Split(s, sep)[i], sep)
    decreases |s|
  {
    var parts := Split(s, sep);
    if |s| < |sep| {
    } else if s[..|sep|] == sep {
      SplitPiecesAreFree(s[|sep|..], sep);
      assert forall i :: 1 <= i < |parts| ==> parts[i] == Split(s[|sep|..], sep)[i - 1];
    } else {
      var rest := Split(s[1..], sep);
      SplitPiecesAreFree(s[1..], sep);
      var head := [s[0]] + rest[0];
      assert head == s[..|head|];
      forall i: nat | i <= |head| ensures !StartsAt(head, i, sep) {
        if i == 0 {
          if |sep| <= |head| { assert s[..|sep|] == head[..|sep|]; }
        } else if i - 1 + |sep| <= |rest[0]| {
          assert head[i..i + |sep|] == rest[0][i - 1..i - 1 + |sep|];
          assert !StartsAt(rest[0], i - 1, sep);
        }
      }
      assert forall i :: 1 <= i < |parts| ==> parts[i] == rest[i];
    }
  }

  /** A string without the separator splits into itself alone. */
  lemma {:induction false} SplitWithoutSeparator(s: string, sep: string)
    requires |sep| > 0 && !Contains(s, sep)
    ensures Split(s, sep) == [s]
    decreases |s|
  {
    assert !StartsAt(s, 0, sep);
    if |s| < |sep| {
    } else if s[..|sep|] == sep {
      assert false;
    } else {
      if Contains(s[1..], sep) { ContainsTail(s, sep); }
      SplitWithoutSeparator(s[1..], sep);
      assert [s[0]] + s[1..] == s;
    }
  }

  /** Splitting on one character cuts at its first occurrence. */
  lemma {:induction false} SplitAtFirst(a: string, c: char, b: string)
    requires c !in a
    ensures Split(a + [c] + b, [c]) == [a] + Split(b, [c])
    decreases |a|
  {
    var s := a + [c] + b;
    if a == "" {
      assert s[..1] == [c];
      assert s[1..] == b;
    } else {
      assert s[..1] == [a[0]] && s[..1] != [c];
      assert s[1..] == a[1..] + [c] + b;
      SplitAtFirst(a[1..], c, b);
      assert [a[0]] + a[1..] == a;
    }
  }

  /** Splitting on a character the pieces do not hold undoes a join. */
  lemma {:induction false} SplitJoin(parts: seq<string>, c: char)
    requires |parts| >= 1
    requires forall i :: 0 <= i < |parts| ==> c !in parts[i]
    ensures Split(Join(parts, [c]), [c]) == parts
    decreases |parts|
  {
    if |parts| == 1 {
      forall i: nat | i <= |parts[0]| ensures !StartsAt(parts[0], i, [c]) {
        if i < |parts[0]| { assert parts[0][i] != c; }
      }
      SplitWithoutSeparator(parts[0], [c]);
    } else {
      SplitJoin(parts[1..], c);
      SplitAtFirst(parts[0], c, Join(parts[1..], [c]));
      assert parts[0] + [c] + Join(parts[1..], [c]) == Join(parts, [c]);
      assert [parts[0]] + parts[1..] == parts;
    }
  }

  /** `s.replace(p, r)` is `r.join(s.split(p))` for a non-empty `p`. */
  lemma {:induction false} ReplaceIsJoinOfSplit(s: string, p: string, r: string)
    requires |p| > 0
    ensures ReplaceNonEmpty(s, p, r) == Join(Split(s, p), r)
    decreases |s|
  {
    if |s| < |p| {
    } else if s[..|p|] == p {
      var rest := Split(s[|p|..], p);
      ReplaceIsJoinOfSplit(s[|p|..], p, r);
      assert ([""] + rest)[1..] == rest;
    } else {
      var rest := Split(s[1..], p);
      ReplaceIsJoinOfSplit(s[1..], p, r);
      JoinHead(s[0], rest[0], rest[1..], r);
      assert [rest[0]] + rest[1..] == rest;
    }
  }

  /** A replace whose non-empty pattern does not occur leaves the string as it is. */
  lemma ReplaceAbsent(s: string, p: string, r: string)
    requires |p| > 0 && !Contains(s, p)
    ensures Replace(s, p, r) == s
  {
    ReplaceIsJoinOfSplit(s, p, r);
    SplitWithoutSeparator(s, p);
  }

  /** Replacing a non-empty pattern in the pattern itself gives the replacement. */
  lemma ReplaceWhole(p: string, r: string)
    requires |p| > 0
    ensures Replace(p, p, r) == r
  {
    assert p[..|p|] == p;
    assert ReplaceNonEmpty(p[|p|..], p, r) == "";
  }

  /** A line without a break, then a break, starts the lines of the text. */
  lemma SplitLinesCons(a: string, b: string)
    requires '\n' !in a
    ensures SplitLines(a + "\n" + b) == [a + "\n"] + SplitLines(b)
  {
    var s := a + "\n" + b;
    var i := IndexOf(s, '\n');
    assert s[|a|] == '\n';
    assert i == |a|;
    assert s[..i + 1] == a + "\n";
    assert s[i + 1..] == b;
  }

  /** Text without a break is one line. */
  lemma SplitLinesSingle(b: string)
    requires b != "" && '\n' !in b
    ensures SplitLines(b) == [b]
  {
  }

  /** Joining with the empty separator runs the pieces together. */
  lemma {:induction false} JoinEmptyIsConcat(parts: seq<string>)
    ensures Join(parts, "") == Concat(parts)
  {
    if |parts| > 1 {
      JoinEmptyIsConcat(parts[1..]);
      assert Concat(parts[1..]) == parts[1] + Concat(parts[2..]) by {
        assert parts[1..][1..] == parts[2..];
      }
    } else if |parts| == 1 {
      assert parts[1..] == [];
    }
  }

  /** An occurrence of `p` in `s` is one in `x + s`. */
  lemma ContainsAfter(x: string, s: string, p: string)
    requires Contains(s, p)
    ensures Contains(x + s, p)
  {
    var i: nat :| i <= |s| && StartsAt(s, i, p);
    assert StartsAt(s, i, p);
    assert (x + s)[|x| + i..|x| + i + |p|] == s[i..i + |p|];
    assert StartsAt(x + s, |x| + i, p);
  }

  /** An occurrence of `p` in `s` is one in `s + y`. */
  lemma ContainsBefore(s: string, y: string, p: string)
    requires Contains(s, p)
    ensures Contains(s + y, p)
  {
    var i: nat :| i <= |s| && StartsAt(s, i, p);
    assert StartsAt(s, i, p);
    assert (s + y)[i..i + |p|] == s[i..i + |p|];
    assert StartsAt(s + y, i, p);
  }

  /** Every part occurs in the joined string. */
  lemma {:induction false} JoinContains(parts: seq<string>, sep: string, i: nat)
    requires i < |parts|
    ensures Contains(Join(parts, sep), parts[i])
    decreases i
  {
    if i == 0 {
      var j := Join(parts, sep);
      assert j[..|parts[0]|] == parts[0];
      assert StartsAt(j, 0, parts[0]);
    } else {
      JoinContains(parts[1..], sep, i - 1);
      ContainsAfter(parts[0] + sep, Join(parts[1..], sep), parts[i]);
      assert parts[0] + sep + Join(parts[1..], sep) == (parts[0] + sep) + Join(parts[1..], sep);
    }
  }

  /** Joining one more part puts the separator before it. */
  lemma {:induction false} JoinSnoc(parts: seq<string>, x: string, sep: string)
    requires |parts| > 0
    ensures Join(parts + [x], sep) == Join(parts, sep) + sep + x
    decreases |parts|
  {
    if |parts| == 1 {
      assert (parts + [x])[1..] == [x];
    } else {
      assert (parts + [x])[1..] == parts[1..] + [x];
      JoinSnoc(parts[1..], x, sep);
    }
  }

  /** A string without the one-character pattern `[c]` has no `c`. */
  lemma CharFree(s: string, c: char)
    requires !Contains(s, [c])
    ensures c !in s
  {
    forall k | 0 <= k < |s|
      ensures s[k] != c
    {
      assert s[k..k + 1] == [s[k]];
      assert !StartsAt(s, k, [c]);
    }
  }

  /** A character the replacement does not hold is gone once every occurrence of it is replaced. */
  lemma {:induction false} ReplaceCharGone(s: string, c: char, r: string)
    requires c !in r
    ensures c !in ReplaceNonEmpty(s, [c], r)
    decreases |s|
  {
    if |s| >= 1 {
      if s[..1] == [c] {
        ReplaceCharGone(s[1..], c, r);
      } else {
        assert s[0] != c;
        ReplaceCharGone(s[1..], c, r);
      }
    }
  }

  /** A string without `c` does not contain the one-character pattern `[c]`. */
  lemma CharAbsent(s: string, c: char)
    requires c !in s
    ensures !Contains(s, [c])
  {
    forall i: nat | i <= |s|
      ensures !StartsAt(s, i, [c])
    {
      assert i < |s| ==> s[i..i + 1] == [s[i]];
    }
  }

  /** Replacing a non-empty pattern in a text that starts with it: the replacement comes first. */
  lemma ReplaceLead(z: string, p: string, r: string)
    requires |p| > 0
    ensures ReplaceNonEmpty(p + z, p, r) == r + ReplaceNonEmpty(z, p, r)
  {
    assert (p + z)[..|p|] == p;
    assert (p + z)[|p|..] == z;
  }

  /** Replacing a non-empty pattern in a text whose first character cannot start it: that character stays. */
  lemma ReplaceSkips(c: char, z: string, p: string, r: string)
    requires |p| > 0 && p[0] != c
    ensures ReplaceNonEmpty([c] + z, p, r) == [c] + ReplaceNonEmpty(z, p, r)
  {
    assert ([c] + z)[1..] == z;
  }

  /** What text-mode reading with universal newlines gives: each `\r\n` and each lone `\r` reads
      as `\n` (`UniversalNewlinesIsReplace`). No carriage return is left, nothing grows, and a text
      without one reads as written. */
  function UniversalNewlines(s: string): (r: string)
    ensures '\r' !in r
    ensures '\r' !in s ==> r == s
    ensures |r| <= |s|
    decreases |s|
  {
    if s == "" then ""
    else if s[0] == '\r' then "\n" + UniversalNewlines(if |s| > 1 && s[1] == '\n' then s[2..] else s[1..])
    else
      assert s == [s[0]] + s[1..];
      [s[0]] + UniversalNewlines(s[1..])
  }

  /** `list(s)`: the characters of `s`, each as a string of its own. */
  function Chars(s: string): (cs: seq<string>)
    ensures |cs| == |s|
  {
    if s == "" then [] else [[s[0]]] + Chars(s[1..])
  }

  /** `s.replace("", r)` is `r + r.join(list(s)) + r` for a non-empty `s`: the result is fixed
      character by character. */
  lemma {:induction false} ReplaceEmptyIsJoin(s: string, r: string)
    requires s != ""
    ensures ReplaceEmpty(s, r) == r + Join(Chars(s), r) + r
    decreases |s|
  {
    var cs := Chars(s);
    if |s| == 1 {
      assert Join(cs, r) == [s[0]];
    } else {
      var j1 := Join(Chars(s[1..]), r);
      assert Join(cs, r) == [s[0]] + r + j1 by {
        assert cs == [[s[0]]] + Chars(s[1..]);
        assert cs[1..] == Chars(s[1..]);
      }
      assert ReplaceEmpty(s[1..], r) == r + j1 + r by {
        ReplaceEmptyIsJoin(s[1..], r);
      }
      calc {
        ReplaceEmpty(s, r);
        r + [s[0]] + ReplaceEmpty(s[1..], r);
        r + [s[0]] + (r + j1 + r);
        r + ([s[0]] + r + j1) + r;
        r + Join(cs, r) + r;
      }
    }
  }

  /** Universal newlines read a text as `s.replace("\r\n", "\n").replace("\r", "\n")` would. */
  lemma {:induction false} UniversalNewlinesIsReplace(s: string)
    ensures UniversalNewlines(s) == ReplaceNonEmpty(ReplaceNonEmpty(s, "\r\n", "\n"), "\r", "\n")
    decreases |s|
  {
    if s == "" {
    } else if s[0] == '\r' && |s| > 1 && s[1] == '\n' {
      UniversalNewlinesIsReplace(s[2..]);
      assert s == "\r\n" + s[2..];
      ReplaceLead(s[2..], "\r\n", "\n");
      ReplaceSkips('\n', ReplaceNonEmpty(s[2..], "\r\n", "\n"), "\r", "\n");
    } else if s[0] == '\r' {
      UniversalNewlinesIsReplace(s[1..]);
      assert s == "\r" + s[1..];
      assert |s| > 1 ==> s[..2] != "\r\n";
      assert ReplaceNonEmpty(s, "\r\n", "\n") == "\r" + ReplaceNonEmpty(s[1..], "\r\n", "\n");
      ReplaceLead(ReplaceNonEmpty(s[1..], "\r\n", "\n"), "\r", "\n");
    } else {
      UniversalNewlinesIsReplace(s[1..]);
      assert s == [s[0]] + s[1..];
      ReplaceSkips(s[0], s[1..], "\r\n", "\n");
      ReplaceSkips(s[0], ReplaceNonEmpty(s[1..], "\r\n", "\n"), "\r", "\n");
    }
  }

  /** A Windows line end and an old Mac line end both read as a newline. */
  lemma UniversalNewlinesExample()
    ensures UniversalNewlines("a\r\nb\rc") == "a\nb\nc"
  {
    var s := "a\r\nb\rc";
    assert s[1..][2..] == "b\rc";
    assert s[1..][2..][1..][1..] == "c";
  }
}
