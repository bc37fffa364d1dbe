/** The extractor of the block protocol: the three header patterns
      file:  ---\s*file:\s*(.+?)\s*---\n(.*?)(?=(?:\n---\s*file:\s*)|\Z)
      diff:  ---\s*diff:\s*(.+?)\s*---\n(.*?)(?=(?:\n---\s*(?:file|diff|patch):\s*)|\Z)
      patch: ---\s*patch:\s*(.+?)\s*---\n(.*?)(?=(?:\n---\s*(?:file|diff|patch):\s*)|\Z)
    (with `.` matching newlines) as scanners that return the matches `re.findall` returns, and
    `_parse_blocks`, which turns them into three ordered lists of blocks. */
module Blocks {
  import opened Text
  import opened Wrappers
  import Fences

  datatype Kind = FileKind | DiffKind | PatchKind

  /** The word a header of the kind carries. */
  function Word(k: Kind): string {
    match k
    case FileKind => "file"
    case DiffKind => "diff"
    case PatchKind => "patch"
  }

  /** `---\s*<w>:` starts at `i`. The greedy `\s*` is followed by a letter, so only its longest
      match can succeed. */
  predicate HeaderAt(t: string, i: nat, w: string) {
    StartsAt(t, i, "---") && StartsAt(t, SkipSpace(t, i + 3), w + ":")
  }

  /** A newline at `q` followed by a header of any of the three kinds. */
  predicate AnyHeaderAfter(t: string, q: nat) {
    q < |t| && t[q] == '\n' && (HeaderAt(t, q + 1, "file") || HeaderAt(t, q + 1, "diff") || HeaderAt(t, q + 1, "patch"))
  }

  /** A newline at `q` followed by a file header. */
  predicate FileHeaderAfter(t: string, q: nat) {
    q < |t| && t[q] == '\n' && HeaderAt(t, q + 1, "file")
  }

  /** Where the lookahead of kind `k` lets a payload stop: at the end of the text (`\Z`), or before a
      newline and a header. The file pattern looks ahead for file headers only; the other two look
      ahead for all three kinds. */
  predicate StopsAt(t: string, k: Kind, q: nat) {
    q == |t| || if k == FileKind then FileHeaderAfter(t, q) else AnyHeaderAfter(t, q)
  }

  /** The lazy payload `(.*?)` that starts at `c` ends at the first stop. */
  function PayloadEnd(t: string, k: Kind, c: nat): (q: nat)
    requires c <= |t|
    ensures c <= q <= |t| && StopsAt(t, k, q)
    ensures forall i :: c <= i < q ==> !StopsAt(t, k, i)
    decreases |t| - c
  {
    if StopsAt(t, k, c) then c else PayloadEnd(t, k, c + 1)
  }

  /** A path ending at `e` is closed by `\s*---\n`: the greedy `\s*` is followed by `-`, so only its
      longest match can succeed. */
  predicate Closes(t: string, e: nat) {
    e <= |t| && StartsAt(t, SkipSpace(t, e), "---\n")
  }

  /** The lazy path `(.+?)`: the first end at or after `e` that is closed. */
  function CloseAfter(t: string, e: nat): (r: Option<nat>)
    requires e <= |t| + 1
    ensures r.Some? ==> e <= r.value <= |t| && Closes(t, r.value)
    ensures r.Some? ==> forall j :: e <= j < r.value ==> !Closes(t, j)
    ensures r.None? <==> forall j :: e <= j <= |t| ==> !Closes(t, j)
    decreases |t| + 1 - e
  {
    if e > |t| then None
    else if Closes(t, e) then Some(e)
    else CloseAfter(t, e + 1)
  }

  /** The greedy `\s*` before the path gives back one space at a time: the path starts `w`, `w - 1`, ...,
      `h` are tried in turn, each with its lazy path, and the first that is closed wins. */
  function PathSpan(t: string, h: nat, w: nat): (r: Option<(nat, nat)>)
    requires h <= w <= |t|
    ensures r.Some? ==> h <= r.value.0 <= w && r.value.0 < r.value.1 <= |t| && Closes(t, r.value.1)
    ensures r.Some? ==> forall j :: r.value.0 < j < r.value.1 ==> !Closes(t, j)
    ensures r.Some? ==> r.value.0 == w || CloseAfter(t, r.value.0 + 2).None?
    ensures r.None? <==> forall j :: h < j <= |t| ==> !Closes(t, j)
    decreases w - h
  {
    match CloseAfter(t, w + 1)
    case Some(e) => Some((w, e))
    case None => if w == h then None else PathSpan(t, h, w - 1)
  }

  /** One match: where it starts, the span of its path group and the span of its payload group. */
  datatype Match = Match(start: nat, pathStart: nat, pathEnd: nat, payloadStart: nat, payloadEnd: nat)

  /** What every match of kind `k` looks like: its header and path, and its payload. */
  predicate WellPlaced(t: string, k: Kind, m: Match) {
    PathPlaced(t, k, m.start, m.pathStart, m.pathEnd) && PayloadPlaced(t, k, m)
  }

  /** A header at `p`; a path `s..e` that starts after the spaces following the colon, or after as
      few of them as the greedy `\s*` must give back for a close to follow; and a path closed by
      spaces and `---\n` at `e`, its first closable end. */
  predicate PathPlaced(t: string, k: Kind, p: nat, s: nat, e: nat) {
    && HeaderAt(t, p, Word(k))
    && AfterColon(t, k, p) <= s <= SkipSpace(t, AfterColon(t, k, p))
    && s < e <= |t| && Closes(t, e)
    && (s == SkipSpace(t, AfterColon(t, k, p)) || CloseAfter(t, s + 2).None?)
    && (forall j :: s < j < e ==> !Closes(t, j))
  }

  /** A payload that starts after the spaces and `---\n` that close the path and runs to the first
      point where the lookahead holds. */
  predicate PayloadPlaced(t: string, k: Kind, m: Match) {
    && m.pathEnd + 4 <= m.payloadStart <= m.payloadEnd <= |t|
    && StartsAt(t, m.payloadStart - 4, "---\n")
    && (forall i :: m.pathEnd <= i < m.payloadStart - 4 ==> IsSpace(t[i]))
    && StopsAt(t, k, m.payloadEnd)
    && (forall i :: m.payloadStart <= i < m.payloadEnd ==> !StopsAt(t, k, i))
  }

  /** The shape pins a match down: two matches of one kind that start at the same place are the
      same match, so `MatchAtWellPlaced` says all there is to say about what `MatchAt` returns. */
  lemma WellPlacedUnique(t: string, k: Kind, m1: Match, m2: Match)
    requires WellPlaced(t, k, m1) && WellPlaced(t, k, m2) && m1.start == m2.start
    ensures m1 == m2
  {
    PathStartUnique(t, k, m1, m2);
    PathStartUnique(t, k, m2, m1);
    PathEndUnique(t, k, m1, m2);
    PathEndUnique(t, k, m2, m1);
    PayloadStartFixed(t, k, m1);
    PayloadStartFixed(t, k, m2);
    PayloadEndUnique(t, k, m1, m2);
    PayloadEndUnique(t, k, m2, m1);
  }

  /** Two well-placed paths that start together end together: each ends at the first close. */
  lemma PathEndUnique(t: string, k: Kind, m1: Match, m2: Match)
    requires WellPlaced(t, k, m1) && WellPlaced(t, k, m2) && m1.pathStart == m2.pathStart
    ensures m1.pathEnd <= m2.pathEnd
  {
    assert Closes(t, m1.pathEnd);
  }

  /** Two well-placed payloads that start together end together: each ends at the first stop. */
  lemma PayloadEndUnique(t: string, k: Kind, m1: Match, m2: Match)
    requires WellPlaced(t, k, m1) && WellPlaced(t, k, m2) && m1.payloadStart == m2.payloadStart
    ensures m1.payloadEnd <= m2.payloadEnd
  {
    assert StopsAt(t, k, m1.payloadEnd);
  }

  /** Of two well-placed matches that start together, the first cannot begin its path earlier. */
  lemma PathStartUnique(t: string, k: Kind, m1: Match, m2: Match)
    requires WellPlaced(t, k, m1) && WellPlaced(t, k, m2) && m1.start == m2.start
    ensures m1.pathStart >= m2.pathStart
  {
    assert Closes(t, m2.pathEnd) && m2.pathStart < m2.pathEnd;
  }

  /** The `---\n` line that closes a path sits right after the spaces that follow it, so the
      payload starts at a fixed place. */
  lemma PayloadStartFixed(t: string, k: Kind, m: Match)
    requires PayloadPlaced(t, k, m)
    ensures m.payloadStart == SkipSpace(t, m.pathEnd) + 4
  {
    var x, y := m.payloadStart - 4, SkipSpace(t, m.pathEnd);
    assert t[x] == t[x..x + 4][0] == '-';
    assert !IsSpace(t[x]);
  }

  /** Where the path group may begin: just after `<word>:`. */
  function AfterColon(t: string, k: Kind, p: nat): (h: nat)
    requires HeaderAt(t, p, Word(k))
    ensures h <= |t|
  {
    SkipSpace(t, p + 3) + |Word(k)| + 1
  }

  /** The match of kind `k` that starts at `p`, if there is one: the pattern tried at one position,
      in the order the regular-expression engine backtracks. */
  function MatchAt(t: string, k: Kind, p: nat): (r: Option<Match>)
    requires p <= |t|
    ensures r.Some? ==> r.value.start == p < r.value.payloadEnd <= |t|
    ensures r.None? <==> !HeaderAt(t, p, Word(k)) || forall j :: AfterColon(t, k, p) < j <= |t| ==> !Closes(t, j)
  {
    if !HeaderAt(t, p, Word(k)) then None
    else
      var h := AfterColon(t, k, p);
      match PathSpan(t, h, SkipSpace(t, h))
      case None => None
      case Some(span) =>
        PathSpanPlaced(t, k, p);
        Some(PlacedMatch(t, k, p, span.0, span.1))
  }

  /** The path span the backtracking finds after a header is placed as every path is. */
  lemma PathSpanPlaced(t: string, k: Kind, p: nat)
    requires HeaderAt(t, p, Word(k))
    requires PathSpan(t, AfterColon(t, k, p), SkipSpace(t, AfterColon(t, k, p))).Some?
    ensures var span := PathSpan(t, AfterColon(t, k, p), SkipSpace(t, AfterColon(t, k, p))).value;
      PathPlaced(t, k, p, span.0, span.1)
  {
  }

  /** Every match the pattern finds has the shape `WellPlaced` describes. */
  lemma MatchAtWellPlaced(t: string, k: Kind, p: nat)
    requires p <= |t| && MatchAt(t, k, p).Some?
    ensures WellPlaced(t, k, MatchAt(t, k, p).value)
  {
    var h := AfterColon(t, k, p);
    var span := PathSpan(t, h, SkipSpace(t, h)).value;
    PathSpanPlaced(t, k, p);
    assert MatchAt(t, k, p).value == PlacedMatch(t, k, p, span.0, span.1);
    PlacedMatchWellPlaced(t, k, p, span.0, span.1);
  }

  /** The match for a header at `p` and a path span `s..e` after its colon that spaces and `---\n`
      close: the payload starts after the `---\n` line and runs to the first stop. */
  function PlacedMatch(t: string, k: Kind, p: nat, s: nat, e: nat): (m: Match)
    requires PathPlaced(t, k, p, s, e)
    ensures m.start == p && m.pathStart == s && m.pathEnd == e
    ensures p < m.payloadEnd <= |t|
  {
    var z := SkipSpace(t, e);
    assert StartsAt(t, z, "---\n");
    Match(p, s, e, z + 4, PayloadEnd(t, k, z + 4))
  }

  /** The match `PlacedMatch` builds has the shape of every match. */
  lemma PlacedMatchWellPlaced(t: string, k: Kind, p: nat, s: nat, e: nat)
    requires PathPlaced(t, k, p, s, e)
    ensures WellPlaced(t, k, PlacedMatch(t, k, p, s, e))
  {
    var z := SkipSpace(t, e);
    var m := PlacedMatch(t, k, p, s, e);
    assert m == Match(p, s, e, z + 4, PayloadEnd(t, k, z + 4));
    assert PayloadPlaced(t, k, m) by {
      PayloadAfterClose(t, k, p, s, e);
    }
  }

  /** The payload that follows a closed path has the shape of every payload. */
  lemma PayloadAfterClose(t: string, k: Kind, p: nat, s: nat, e: nat)
    requires e <= |t| && Closes(t, e)
    ensures SkipSpace(t, e) + 4 <= |t|
    ensures PayloadPlaced(t, k, Match(p, s, e, SkipSpace(t, e) + 4, PayloadEnd(t, k, SkipSpace(t, e) + 4)))
  {
    var z := SkipSpace(t, e);
    assert StartsAt(t, z, "---\n");
  }

  /** The matches of position `q` lie inside one of the matches `ms`. */
  predicate Claimed(ms: seq<Match>, q: nat) {
    exists i :: 0 <= i < |ms| && ms[i].start <= q < ms[i].payloadEnd
  }

  /** The pattern matches at position `q`. */
  predicate CanStart(t: string, k: Kind, q: nat) {
    q <= |t| && MatchAt(t, k, q).Some?
  }

  /** `m` is the match the pattern finds at `m.start`. */
  predicate IsMatch(t: string, k: Kind, m: Match) {
    m.start <= |t| && MatchAt(t, k, m.start) == Some(m)
  }

  /** `re.findall` from position `p`: the leftmost match, then the leftmost match from where it ended,
      and so on; every position where a match could start is the start of a returned match or lies
      inside one. */
  function FindAll(t: string, k: Kind, p: nat): (ms: seq<Match>)
    requires p <= |t|
    ensures forall i :: 0 <= i < |ms| ==> p <= ms[i].start && IsMatch(t, k, ms[i])
    ensures forall i, j :: 0 <= i < j < |ms| ==> ms[i].payloadEnd <= ms[j].start
    ensures forall q :: p <= q && CanStart(t, k, q) ==> Claimed(ms, q)
    decreases |t| - p
  {
    if p == |t| then []
    else match MatchAt(t, k, p)
      case None => FindAll(t, k, p + 1)
      case Some(m) =>
        var rest := FindAll(t, k, m.payloadEnd);
        FindAllCons(t, k, p, m, rest);
        [m] + rest
  }

  /** The step of `FindAll` that puts the leftmost match `m` at `p` ahead of the matches `rest`
      found from where it ends. */
  lemma FindAllCons(t: string, k: Kind, p: nat, m: Match, rest: seq<Match>)
    requires p <= |t| && MatchAt(t, k, p) == Some(m)
    requires forall i :: 0 <= i < |rest| ==> m.payloadEnd <= rest[i].start && IsMatch(t, k, rest[i])
    requires forall i, j :: 0 <= i < j < |rest| ==> rest[i].payloadEnd <= rest[j].start
    requires forall q :: m.payloadEnd <= q && CanStart(t, k, q) ==> Claimed(rest, q)
    ensures var ms := [m] + rest;
      && (forall i :: 0 <= i < |ms| ==> p <= ms[i].start && IsMatch(t, k, ms[i]))
      && (forall i, j :: 0 <= i < j < |ms| ==> ms[i].payloadEnd <= ms[j].start)
      && (forall q :: p <= q && CanStart(t, k, q) ==> Claimed(ms, q))
  {
    var ok := (x: Match) => IsMatch(t, k, x);
    var can := (q: nat) => CanStart(t, k, q);
    MatchesCons(p, m, rest, ok);
    ClaimedCons(p, |t|, m, rest, can);
  }

  /** The step of `FindAll` that keeps the leftmost match `m` at `p` ahead of the matches `rest`
      found from its end: every element is still a match from `p`, in order. */
  lemma MatchesCons(p: nat, m: Match, rest: seq<Match>, ok: Match -> bool)
    requires ok(m) && m.start == p && p <= m.payloadEnd
    requires forall i :: 0 <= i < |rest| ==> m.payloadEnd <= rest[i].start && ok(rest[i])
    requires forall i, j :: 0 <= i < j < |rest| ==> rest[i].payloadEnd <= rest[j].start
    ensures var ms := [m] + rest;
      && (forall i :: 0 <= i < |ms| ==> p <= ms[i].start && ok(ms[i]))
      && (forall i, j :: 0 <= i < j < |ms| ==> ms[i].payloadEnd <= ms[j].start)
  {
    var ms := [m] + rest;
    assert ms[0] == m;
    assert forall i :: 0 <= i < |rest| ==> ms[i + 1] == rest[i];
  }

  /** The same step keeps every position where a match can start claimed. */
  lemma ClaimedCons(p: nat, end: nat, m: Match, rest: seq<Match>, can: nat -> bool)
    requires m.start == p < m.payloadEnd
    requires forall q :: m.payloadEnd <= q <= end && can(q) ==> Claimed(rest, q)
    ensures forall q :: p <= q <= end && can(q) ==> Claimed([m] + rest, q)
  {
    var ms := [m] + rest;
    forall q | p <= q <= end && can(q)
      ensures Claimed(ms, q)
    {
      if q < m.payloadEnd {
        assert ms[0] == m;
      } else {
        var i :| 0 <= i < |rest| && rest[i].start <= q < rest[i].payloadEnd;
        assert ms[i + 1] == rest[i];
      }
    }
  }

  datatype Block = Block(kind: Kind, filename: string, content: string)

  /** Payload normalization: no leading newline, no trailing space. */
  predicate Tidy(c: string) {
    |c| > 0 ==> c[0] != '\n' && !IsSpace(c[|c| - 1])
  }

  /** `{"filename": f.strip(), "content": c.lstrip("\n").rstrip()}` for the groups of one match. */
  function ToBlock(t: string, k: Kind, m: Match): (b: Block)
    requires IsMatch(t, k, m)
    ensures b.kind == k && IsStripped(b.filename) && Tidy(b.content)
  {
    MatchAtWellPlaced(t, k, m.start);
    Block(k, Strip(t[m.pathStart..m.pathEnd]), TrimEnd(TrimLeadingNewlines(t[m.payloadStart..m.payloadEnd])))
  }

  /** The blocks of kind `k` in `t`, in the order their matches appear. */
  function BlocksOf(t: string, k: Kind): (bs: seq<Block>)
    ensures |bs| == |FindAll(t, k, 0)|
    ensures forall i :: 0 <= i < |bs| ==> bs[i] == ToBlock(t, k, FindAll(t, k, 0)[i])
  {
    var ms := FindAll(t, k, 0);
    seq(|ms|, i requires 0 <= i < |ms| => ToBlock(t, k, ms[i]))
  }

  datatype Parsed = Parsed(files: seq<Block>, diffs: seq<Block>, patches: seq<Block>)

  const NO_BLOCKS := "No blocks parsed. Preview:\n"

  /** The message of the `ValueError` for a reply without blocks: the first 600 characters of the
      stripped text, with each newline shown as backslash and `n`, so that the preview is one line;
      a short text without newlines is shown as it is. */
  function NoBlocksMessage(text: string): (m: string)
    ensures StartsWith(m, NO_BLOCKS)
    ensures '\n' !in m[|NO_BLOCKS|..]
    ensures |text| <= 600 && '\n' !in text ==> m == NO_BLOCKS + text
  {
    var head := if |text| <= 600 then text else text[..600];
    ReplaceCharGone(head, '\n', "\\n");
    assert '\n' !in head ==> Replace(head, "\n", "\\n") == head by {
      if '\n' !in head { CharAbsent(head, '\n'); ReplaceAbsent(head, "\n", "\\n"); }
    }
    var m := NO_BLOCKS + Replace(head, "\n", "\\n");
    assert m[|NO_BLOCKS|..] == Replace(head, "\n", "\\n");
    m
  }

  /** Every block of the list has the kind and the normalized path and payload. */
  predicate AllTidy(bs: seq<Block>, k: Kind) {
    forall i :: 0 <= i < |bs| ==> bs[i].kind == k && IsStripped(bs[i].filename) && Tidy(bs[i].content)
  }

  /** `_parse_blocks(raw)`: fails exactly when none of the three patterns matches the stripped text;
      otherwise gives each kind's blocks in source order, with stripped paths and tidy payloads. */
  function ParseBlocks(raw: string): (r: Result<Parsed, string>)
    ensures var text := Fences.StripCodeFences(raw);
      && (r.Err? <==> FindAll(text, FileKind, 0) == [] && FindAll(text, DiffKind, 0) == [] && FindAll(text, PatchKind, 0) == [])
      && (r.Err? ==> r.error == NoBlocksMessage(text))
      && (r.Ok? ==> r.value == Parsed(BlocksOf(text, FileKind), BlocksOf(text, DiffKind), BlocksOf(text, PatchKind)))
      && (r.Ok? ==> |r.value.files| == |FindAll(text, FileKind, 0)| && AllTidy(r.value.files, FileKind))
      && (r.Ok? ==> |r.value.diffs| == |FindAll(text, DiffKind, 0)| && AllTidy(r.value.diffs, DiffKind))
      && (r.Ok? ==> |r.value.patches| == |FindAll(text, PatchKind, 0)| && AllTidy(r.value.patches, PatchKind))
  {
    var text := Fences.StripCodeFences(raw);
    var files := BlocksOf(text, FileKind);
    var diffs := BlocksOf(text, DiffKind);
    var patches := BlocksOf(text, PatchKind);
    if files == [] && diffs == [] && patches == [] then Err(NoBlocksMessage(text))
    else Ok(Parsed(files, diffs, patches))
  }

  /** A diff or patch payload holds no newline followed by a header of any kind. (It can start
      with a header: see `HeaderRightAfterHeaderIsPayload`.) */
  lemma PayloadStopsAtAnyHeader(t: string, k: Kind, m: Match, i: nat)
    requires k != FileKind && m in FindAll(t, k, 0)
    requires m.payloadStart <= i < m.payloadEnd
    ensures !AnyHeaderAfter(t, i)
  {
    var ms := FindAll(t, k, 0);
    var j :| 0 <= j < |ms| && ms[j] == m;
    MatchAtWellPlaced(t, k, m.start);
    assert !StopsAt(t, k, i);
  }

  /** A file payload holds no newline followed by a file header. */
  lemma FilePayloadStopsAtFileHeader(t: string, m: Match, i: nat)
    requires m in FindAll(t, FileKind, 0)
    requires m.payloadStart <= i < m.payloadEnd
    ensures !FileHeaderAfter(t, i)
  {
    var ms := FindAll(t, FileKind, 0);
    var j :| 0 <= j < |ms| && ms[j] == m;
    MatchAtWellPlaced(t, FileKind, m.start);
    assert !StopsAt(t, FileKind, i);
  }

  /** A file payload with no newline and file header after its start runs to the end of the text,
      so it holds every diff and patch header that follows it. */
  lemma FilePayloadRunsToEnd(t: string, m: Match)
    requires m in FindAll(t, FileKind, 0)
    requires forall q :: m.payloadStart <= q < |t| ==> !FileHeaderAfter(t, q)
    ensures m.payloadEnd == |t|
    ensures forall q :: m.payloadStart <= q < |t| && AnyHeaderAfter(t, q) ==> q < m.payloadEnd
  {
    MatchAtWellPlaced(t, FileKind, m.start);
  }

  /** The lookahead never stops at a header itself: it wants a newline first. */
  lemma HeaderIsNoStop(t: string, k: Kind, q: nat, w: string)
    requires HeaderAt(t, q, w)
    ensures !StopsAt(t, k, q)
  {
    assert t[q] == t[q..q + 3][0] == '-';
  }

  /** A match starts before its payload, and its payload runs forward to a stop. */
  lemma MatchSpans(t: string, k: Kind, m: Match)
    requires IsMatch(t, k, m)
    ensures m.start < m.payloadStart <= m.payloadEnd <= |t| && StopsAt(t, k, m.payloadEnd)
  {
    MatchAtWellPlaced(t, k, m.start);
  }

  /** A payload that starts with a header line and runs to a stop is not empty. */
  lemma HeaderOpensPayload(t: string, k: Kind, s: nat, e: nat, w: string)
    requires s <= e && StopsAt(t, k, e) && HeaderAt(t, s, w)
    ensures s < e
  {
    HeaderIsNoStop(t, k, s, w);
  }

  /** A header line right after a header line is no header of its own: the payload of the first
      match starts with it, and no match starts there. The lookahead wants a newline before a header,
      and the newline that ends the first header line belongs to that line. */
  lemma HeaderRightAfterHeaderIsPayload(t: string, k: Kind, a: nat, w: string)
    requires a < |FindAll(t, k, 0)| && HeaderAt(t, FindAll(t, k, 0)[a].payloadStart, w)
    ensures FindAll(t, k, 0)[a].payloadStart < FindAll(t, k, 0)[a].payloadEnd
    ensures forall b :: 0 <= b < |FindAll(t, k, 0)| ==> FindAll(t, k, 0)[b].start != FindAll(t, k, 0)[a].payloadStart
  {
    var ms := FindAll(t, k, 0);
    MatchSpans(t, k, ms[a]);
    HeaderOpensPayload(t, k, ms[a].payloadStart, ms[a].payloadEnd, w);
    forall b | 0 <= b < |ms|
      ensures ms[b].start != ms[a].payloadStart
    {
      MatchSpans(t, k, ms[b]);
    }
  }
}
