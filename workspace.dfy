/** The working tree the three appliers change (`_safe_write`/`write_blocks`, `apply_unified_diff`,
    `apply_json_patches`), as a map from project-relative file names to file contents.
    Directories are not stored: a name is a directory when it is the root (`""`) or some file
    lies below it. */
module Workspace {
  import opened Text
  import opened Wrappers
  import opened Paths
  import opened Blocks
  import NaiveDiff
  import JsonPatch

  /** File contents keyed by normalized relative name. */
  type Tree = map<string, string>

  /** `b` names something inside the directory `a`. */
  predicate Below(a: string, b: string) {
    StartsWith(b, a + "/")
  }

  /** Every name is a normalized file name other than the root, and no file lies below another
      (a file is never also a directory). */
  predicate WellFormed(fs: Tree) {
    && (forall k :: k in fs ==> k != "" && Normalize(k) == k)
    && (forall a, b :: a in fs && b in fs ==> !Below(a, b))
  }

  /** The name is a directory: the root, or the parent of some file. */
  predicate IsDirectory(fs: Tree, key: string) {
    key == "" || exists f :: f in fs && Below(key, f)
  }

  /** Some proper ancestor of the name is a file, so its parent cannot be created as a directory. */
  predicate UnderAFile(fs: Tree, key: string) {
    exists f :: f in fs && Below(f, key)
  }

  /** The exceptions an applier raises for one block. */
  datatype ApplyError =
    | UnsafePath(kind: Kind, path: string)       // ValueError from the path guard
    | TargetNotFound(kind: Kind, path: string)   // FileNotFoundError: a diff or patch for a missing file
    | IsADirectory(path: string)                 // reading or writing a directory
    | NotADirectory(path: string)                // creating a parent directory where a file is
    | MalformedPatch(path: string)               // json.loads rejects the payload
    | BadPatch(path: string, reason: JsonPatch.PatchError)

  /** The message of the exceptions whose text the appliers write themselves: those of the path
      guard and of the existence check, each ending with the offending path as given. The others
      carry the operating system's or the JSON decoder's message. */
  function Message(e: ApplyError): (r: Option<string>)
    ensures r.Some? <==> e.UnsafePath? || e.TargetNotFound?
    ensures r.Some? ==> EndsWith(r.value, e.path)
  {
    match e
    case UnsafePath(FileKind, p) => Some("Unsafe path: " + p)
    case UnsafePath(DiffKind, p) => Some("Unsafe path in diff: " + p)
    case UnsafePath(PatchKind, p) => Some("Unsafe path in patch: " + p)
    case TargetNotFound(DiffKind, p) => Some("File for diff not found: " + p)
    case TargetNotFound(_, p) => Some("File for patch not found: " + p)
    case _ => None
  }

  /** `_safe_write(root, rel, content)`: the guard, then `mkdir` of the parent, then `write_text`. */
  function WriteFile(fs: Tree, rel: string, content: string): (r: Result<Tree, ApplyError>)
    ensures !IsSafeRelative(rel) ==> r == Err(UnsafePath(FileKind, rel))
    ensures r.Ok? <==> IsSafeRelative(rel) && !UnderAFile(fs, Normalize(rel)) && !IsDirectory(fs, Normalize(rel))
    ensures r.Ok? ==> r.value.Keys == fs.Keys + {Normalize(rel)} && r.value[Normalize(rel)] == content
    ensures r.Ok? ==> forall k :: k in fs && k != Normalize(rel) ==> r.value[k] == fs[k]
  {
    if !IsSafeRelative(rel) then Err(UnsafePath(FileKind, rel))
    else
      var key := Normalize(rel);
      if UnderAFile(fs, key) then Err(NotADirectory(rel))
      else if IsDirectory(fs, key) then Err(IsADirectory(rel))
      else Ok(fs[key := content])
  }

  /** How an existing target is reached by a diff or a patch: the guard, then `exists()`, then the
      read (which fails on a directory). Gives the name of the file to rewrite. */
  function Target(fs: Tree, kind: Kind, rel: string): (r: Result<string, ApplyError>)
    ensures !IsSafeRelative(rel) ==> r == Err(UnsafePath(kind, rel))
    ensures r.Ok? <==> IsSafeRelative(rel) && Normalize(rel) in fs
    ensures r.Ok? ==> r.value == Normalize(rel)
    ensures r.Err? && IsSafeRelative(rel) ==> r.error == if IsDirectory(fs, Normalize(rel)) then IsADirectory(rel) else TargetNotFound(kind, rel)
  {
    if !IsSafeRelative(rel) then Err(UnsafePath(kind, rel))
    else
      var key := Normalize(rel);
      if key in fs then Ok(key)
      else if IsDirectory(fs, key) then Err(IsADirectory(rel))
      else Err(TargetNotFound(kind, rel))
  }

  /** One diff block of `apply_unified_diff`: the file's lines (with their ends, after text-mode
      reading has turned every line end into `\n`), patched line by line, joined back and written
      over the file; no other file changes. */
  function DiffFile(fs: Tree, rel: string, diffText: string): (r: Result<Tree, ApplyError>)
    ensures r.Ok? <==> Target(fs, DiffKind, rel).Ok?
    ensures r.Err? ==> r.error == Target(fs, DiffKind, rel).error
    ensures r.Ok? ==> (r.value.Keys == fs.Keys
      && r.value[Normalize(rel)] == Concat(NaiveDiff.Patched(SplitLines(UniversalNewlines(fs[Normalize(rel)])), diffText)))
    ensures r.Ok? ==> forall k :: k in fs && k != Normalize(rel) ==> r.value[k] == fs[k]
  {
    match Target(fs, DiffKind, rel)
    case Err(e) => Err(e)
    case Ok(key) => Ok(fs[key := Concat(NaiveDiff.Patched(SplitLines(UniversalNewlines(fs[key])), diffText))])
  }

  /** One patch block of `apply_json_patches`, with `json.loads` given as `decode`: the file's text
      (line ends read as `\n`) with the operations applied, written over the file; no other file
      changes. It fails exactly when the target is unreachable, the payload does not decode or the
      operations are malformed. */
  function PatchFile(fs: Tree, rel: string, payload: string, decode: string -> Option<JsonPatch.Json>): (r: Result<Tree, ApplyError>)
    ensures Target(fs, PatchKind, rel).Err? ==> r == Err(Target(fs, PatchKind, rel).error)
    ensures Target(fs, PatchKind, rel).Ok? && decode(payload).None? ==> r == Err(MalformedPatch(rel))
    ensures Target(fs, PatchKind, rel).Ok? && decode(payload).Some? ==>
      var patched := JsonPatch.PatchedText(UniversalNewlines(fs[Normalize(rel)]), decode(payload).value);
      && (r.Ok? <==> patched.Ok?)
      && (patched.Err? ==> r == Err(BadPatch(rel, patched.error)))
    ensures r.Ok? ==> (r.value.Keys == fs.Keys && decode(payload).Some?
      && JsonPatch.PatchedText(UniversalNewlines(fs[Normalize(rel)]), decode(payload).value) == Ok(r.value[Normalize(rel)]))
    ensures r.Ok? ==> forall k :: k in fs && k != Normalize(rel) ==> r.value[k] == fs[k]
  {
    match Target(fs, PatchKind, rel)
    case Err(e) => Err(e)
    case Ok(key) =>
      match decode(payload)
      case None => Err(MalformedPatch(rel))
      case Some(v) =>
        match JsonPatch.PatchedText(UniversalNewlines(fs[key]), v)
        case Err(e) => Err(BadPatch(rel, e))
        case Ok(text) => Ok(fs[key := text])
  }

  /** Which of the three loops runs over a list of blocks. */
  datatype Applier = Writer | Differ | Patcher(decode: string -> Option<JsonPatch.Json>)

  /** One iteration of the applier's loop; `write_blocks` skips blocks that are not file blocks.
      A step changes at most the file its block names, and only a write can add a name. */
  function Step(a: Applier, fs: Tree, b: Block): (r: Result<Tree, ApplyError>)
    ensures r.Ok? ==> forall k :: k in fs && k != Normalize(b.filename) ==> k in r.value && r.value[k] == fs[k]
    ensures r.Ok? ==> fs.Keys <= r.value.Keys <= fs.Keys + {Normalize(b.filename)}
    ensures r.Ok? && !a.Writer? ==> r.value.Keys == fs.Keys
  {
    match a
    case Writer => if b.kind != FileKind then Ok(fs) else WriteFile(fs, b.filename, b.content)
    case Differ => DiffFile(fs, b.filename, b.content)
    case Patcher(decode) => PatchFile(fs, b.filename, b.content, decode)
  }

  /** Some block of the list names the file `k`. */
  predicate Named(bs: seq<Block>, k: string) {
    exists i :: 0 <= i < |bs| && Normalize(bs[i].filename) == k
  }

  /** The tree after a loop and the exception that ended it, if any. */
  datatype Outcome = Outcome(tree: Tree, failure: Option<ApplyError>)

  /** A whole loop: the blocks in order, each on the tree the earlier ones left; the first exception
      ends the loop with the earlier blocks applied. A file that no block names keeps its content,
      and the loop fails only on some block. */
  function Batch(a: Applier, fs: Tree, bs: seq<Block>): (o: Outcome)
    ensures forall k :: k in fs && !Named(bs, k) ==> k in o.tree && o.tree[k] == fs[k]
    ensures fs.Keys <= o.tree.Keys
    ensures o.failure.Some? ==> |bs| > 0
    decreases |bs|
  {
    if bs == [] then Outcome(fs, None)
    else match Step(a, fs, bs[0])
      case Err(e) => Outcome(fs, Some(e))
      case Ok(next) => Batch(a, next, bs[1..])
  }

  /** Writing a file keeps the tree well formed. */
  lemma WriteFileKeepsWellFormed(fs: Tree, rel: string, content: string)
    requires WellFormed(fs) && WriteFile(fs, rel, content).Ok?
    ensures WellFormed(WriteFile(fs, rel, content).value)
  {
    var key := Normalize(rel);
    NormalizeIdempotent(rel);
    var t := WriteFile(fs, rel, content).value;
    forall a, b | a in t && b in t
      ensures !Below(a, b)
    {
      if a == key && b == key {
        assert |key + "/"| > |key|;
      }
    }
  }

  /** Every step keeps the tree well formed: diffs and patches rewrite an existing file and create
      none. */
  lemma StepKeepsWellFormed(a: Applier, fs: Tree, b: Block)
    requires WellFormed(fs) && Step(a, fs, b).Ok?
    ensures WellFormed(Step(a, fs, b).value)
  {
    match a
    case Writer =>
      if b.kind == FileKind {
        WriteFileKeepsWellFormed(fs, b.filename, b.content);
      }
    case Differ =>
    case Patcher(_) =>
  }

  /** A whole loop keeps the tree well formed, whether it completes or stops early. */
  lemma {:induction false} BatchKeepsWellFormed(a: Applier, fs: Tree, bs: seq<Block>)
    requires WellFormed(fs)
    ensures WellFormed(Batch(a, fs, bs).tree)
    decreases |bs|
  {
    if bs != [] {
      match Step(a, fs, bs[0])
      case Err(_) =>
      case Ok(next) =>
        StepKeepsWellFormed(a, fs, bs[0]);
        BatchKeepsWellFormed(a, next, bs[1..]);
    }
  }

  /** Running the loop over two lists in turn is running it over their concatenation; a failure in
      the first list means the second is never attempted. */
  lemma {:induction false} BatchAppend(a: Applier, fs: Tree, xs: seq<Block>, ys: seq<Block>)
    ensures Batch(a, fs, xs + ys) == if Batch(a, fs, xs).failure.Some? then Batch(a, fs, xs) else Batch(a, Batch(a, fs, xs).tree, ys)
    decreases |xs|
  {
    if xs == [] {
      assert xs + ys == ys;
    } else {
      assert (xs + ys)[0] == xs[0] && (xs + ys)[1..] == xs[1..] + ys;
      match Step(a, fs, xs[0])
      case Err(_) =>
      case Ok(next) => BatchAppend(a, next, xs[1..], ys);
    }
  }

  /** When block `b` fails after the blocks `xs` went through, the loop ends with the tree `xs` left,
      reports `b`'s exception and never looks at the blocks `ys` after it. */
  lemma StopsAtFirstFailure(a: Applier, fs: Tree, xs: seq<Block>, b: Block, ys: seq<Block>)
    requires Batch(a, fs, xs).failure.None?
    requires Step(a, Batch(a, fs, xs).tree, b).Err?
    ensures Batch(a, fs, xs + [b] + ys) == Outcome(Batch(a, fs, xs).tree, Some(Step(a, Batch(a, fs, xs).tree, b).error))
  {
    BatchAppend(a, fs, xs, [b] + ys);
    assert xs + [b] + ys == xs + ([b] + ys);
    assert ([b] + ys)[0] == b;
  }

  /** An unsafe path in the first block fails the loop before anything is written or read. */
  lemma UnsafeFirstBlockChangesNothing(a: Applier, fs: Tree, bs: seq<Block>)
    requires |bs| > 0 && !IsSafeRelative(bs[0].filename) && (a.Writer? ==> bs[0].kind == FileKind)
    ensures Batch(a, fs, bs) == Outcome(fs, Some(UnsafePath(if a.Writer? then FileKind else if a.Differ? then DiffKind else PatchKind, bs[0].filename)))
    ensures Message(Batch(a, fs, bs).failure.value) ==
      Some((if a.Writer? then "Unsafe path: " else if a.Differ? then "Unsafe path in diff: " else "Unsafe path in patch: ") + bs[0].filename)
  {
  }

  /** A diff or patch loop never adds or removes a file, even when it stops early. */
  lemma {:induction false} ChangesKeepNames(a: Applier, fs: Tree, bs: seq<Block>)
    requires !a.Writer?
    ensures Batch(a, fs, bs).tree.Keys == fs.Keys
    decreases |bs|
  {
    if bs != [] {
      match Step(a, fs, bs[0])
      case Err(_) =>
      case Ok(next) => ChangesKeepNames(a, next, bs[1..]);
    }
  }

  /** Of two file blocks for the same path, the later one decides the content. */
  lemma LastWriteWins(fs: Tree, path: string, first: string, second: string)
    requires WriteFile(fs, path, first).Ok?
    ensures var bs := [Block(FileKind, path, first), Block(FileKind, path, second)];
      Batch(Writer, fs, bs).failure.None? && Batch(Writer, fs, bs).tree == fs[Normalize(path) := second]
  {
    var key := Normalize(path);
    var t := WriteFile(fs, path, first).value;
    var bs := [Block(FileKind, path, first), Block(FileKind, path, second)];
    RewriteAllowed(fs, path, first, second);
    assert Step(Writer, fs, bs[0]) == Ok(t);
    assert Batch(Writer, t, bs[1..]) == Batch(Writer, fs[key := second], []) by {
      assert bs[1..][0] == Block(FileKind, path, second);
      assert bs[1..][1..] == [];
    }
  }

  /** A file just written can be written again, and the second write replaces the first. */
  lemma RewriteAllowed(fs: Tree, path: string, first: string, second: string)
    requires WriteFile(fs, path, first).Ok?
    ensures WriteFile(WriteFile(fs, path, first).value, path, second) == Ok(fs[Normalize(path) := second])
  {
    var key := Normalize(path);
    var t := WriteFile(fs, path, first).value;
    assert !UnderAFile(t, key) by {
      forall f | f in t
        ensures !Below(f, key)
      {
        if f == key {
          assert |key + "/"| > |key|;
        }
      }
    }
    assert !IsDirectory(t, key) by {
      forall f | f in t
        ensures !Below(key, f)
      {
        if f == key {
          assert |key + "/"| > |key|;
        }
      }
    }
    assert t[key := second] == fs[key := second];
  }
}
