/** The scaffolder object: its system instructions, its transcript and the working tree it edits.
    `Send` keeps the transcript discipline of one model exchange; the three applier methods run the
    block loops of `write_blocks`, `apply_unified_diff` and `apply_json_patches` over the tree. */
module Builder {
  import opened Text
  import opened Wrappers
  import opened Blocks
  import opened Workspace
  import opened Prompts
  import NaiveDiff
  import JsonPatch
  import Fences

  /** What the model call gives back: the reply text, or the exception it raised (its type name
      and message). */
  datatype ModelReply = Reply(text: string) | CallFailed(errorType: string, message: string)

  /** The exception `send` re-raises. */
  datatype SendError = SendError(errorType: string, message: string)

  /** The result of `send` for a reply: the parsed blocks, the `ValueError` of a reply without
      blocks, or the call's own exception. */
  function SendOutcome(reply: ModelReply): (r: Result<Parsed, SendError>)
    ensures reply.CallFailed? ==> r == Err(SendError(reply.errorType, reply.message))
    ensures reply.Reply? ==> (r.Ok? <==> ParseBlocks(reply.text).Ok?)
    ensures reply.Reply? && r.Ok? ==> Ok(r.value) == ParseBlocks(reply.text)
    ensures reply.Reply? && r.Err? ==> r.error == SendError("ValueError", NoBlocksMessage(Fences.StripCodeFences(reply.text)))
  {
    match reply
    case CallFailed(t, m) => Err(SendError(t, m))
    case Reply(text) =>
      match ParseBlocks(text)
      case Ok(p) => Ok(p)
      case Err(msg) => Err(SendError("ValueError", msg))
  }

  /** `f"[ERROR] {type(e).__name__}: {e}"` */
  function ErrorEntry(e: SendError): (s: string)
    ensures StartsWith(s, "[ERROR] " + e.errorType + ": ") && EndsWith(s, e.message)
    ensures |s| == 10 + |e.errorType| + |e.message|
  {
    var head := "[ERROR] " + e.errorType + ": ";
    var s := head + e.message;
    assert s[..|head|] == head;
    s
  }

  /** The transcript entry recorded after the call: the reply text when it parsed, otherwise the
      error entry of the exception. */
  function AssistantTurn(reply: ModelReply): (t: ChatTurn)
    ensures t.role == "assistant"
    ensures SendOutcome(reply).Ok? ==> reply.Reply? && t.content == reply.text
    ensures SendOutcome(reply).Err? ==> t.content == ErrorEntry(SendOutcome(reply).error)
  {
    match SendOutcome(reply)
    case Ok(_) => ChatTurn("assistant", reply.text)
    case Err(e) => ChatTurn("assistant", ErrorEntry(e))
  }

  /** A transcript made of exchanges: user turns at even positions, assistant turns at odd ones,
      and as many of each. */
  predicate Alternates(h: seq<ChatTurn>) {
    |h| % 2 == 0 && forall i :: 0 <= i < |h| ==> h[i].role == if i % 2 == 0 then "user" else "assistant"
  }

  /** One exchange keeps a transcript made of exchanges. */
  lemma ExchangeKeepsAlternation(h: seq<ChatTurn>, prompt: string, answer: ChatTurn)
    requires Alternates(h) && answer.role == "assistant"
    ensures Alternates(h + [ChatTurn("user", prompt), answer])
  {
    var h' := h + [ChatTurn("user", prompt), answer];
    forall i | 0 <= i < |h'|
      ensures h'[i].role == if i % 2 == 0 then "user" else "assistant"
    {
      if i < |h| {
        assert h'[i] == h[i];
      }
    }
  }

  /** A failed exchange is recorded, and recorded as an error. */
  lemma FailedExchangeIsMarked(reply: ModelReply)
    requires SendOutcome(reply).Err?
    ensures StartsWith(AssistantTurn(reply).content, "[ERROR] ")
  {
    var e := SendOutcome(reply).error;
    var c := AssistantTurn(reply).content;
    assert c[..8] == ("[ERROR] " + e.errorType + ": ")[..8];
  }

  class Scaffolder {
    var systemInstructions: string
    var history: seq<ChatTurn>
    var files: Tree

    /** A scaffolder over the tree `tree`; its system instructions are the given ones, or the
        default ones when none are given; its transcript is the saved one when that could be
        loaded, and empty otherwise. */
    constructor (instructions: Option<string>, saved: Option<seq<ChatTurn>>, tree: Tree)
      ensures systemInstructions == if instructions.Some? then instructions.value else DEFAULT_SYSTEM
      ensures files == tree
      ensures history == if saved.Some? then saved.value else []
    {
      systemInstructions := if instructions.Some? then instructions.value else DEFAULT_SYSTEM;
      history := if saved.Some? then saved.value else [];
      files := tree;
    }

    /** `send(user_prompt, preset, mode)`: the request is built from the transcript as it was, the
        user turn is recorded before the call and exactly one assistant turn after it, whether the
        reply parses, fails to parse, or the call fails. */
    method Send(userPrompt: string, preset: Option<string>, mode: string, ask: seq<Message> -> ModelReply)
      returns (msgs: seq<Message>, r: Result<Parsed, SendError>)
      modifies this`history
      ensures msgs == BuildMessages(ComposeSystem(systemInstructions, preset, mode), old(history), userPrompt)
      ensures r == SendOutcome(ask(msgs))
      ensures history == old(history) + [ChatTurn("user", userPrompt), AssistantTurn(ask(msgs))]
      ensures Alternates(old(history)) ==> Alternates(history)
    {
      msgs := BuildMessages(ComposeSystem(systemInstructions, preset, mode), history, userPrompt);
      ghost var before := history;
      history := history + [ChatTurn("user", userPrompt)];
      ghost var asked := history;
      var reply := ask(msgs);
      match reply {
        case CallFailed(t, m) =>
          r := Err(SendError(t, m));
          history := history + [ChatTurn("assistant", ErrorEntry(r.error))];
        case Reply(text) =>
          var parsed := ParseBlocks(text);
          match parsed {
            case Ok(p) =>
              r := Ok(p);
              history := history + [ChatTurn("assistant", text)];
            case Err(msg) =>
              r := Err(SendError("ValueError", msg));
              history := history + [ChatTurn("assistant", ErrorEntry(r.error))];
          }
      }
      assert history == asked + [AssistantTurn(reply)];
      assert history == before + [ChatTurn("user", userPrompt), AssistantTurn(reply)];
      if Alternates(before) {
        ExchangeKeepsAlternation(before, userPrompt, AssistantTurn(reply));
      }
    }

    /** `_safe_write(root, rel, content)`: the path guard, the parent directory, then the write. */
    method SafeWrite(rel: string, content: string) returns (failure: Option<ApplyError>)
      modifies this`files
      ensures WriteFile(old(files), rel, content).Ok? ==> files == WriteFile(old(files), rel, content).value && failure.None?
      ensures WriteFile(old(files), rel, content).Err? ==> files == old(files) && failure == Some(WriteFile(old(files), rel, content).error)
    {
      if !Paths.IsSafeRelative(rel) {
        return Some(UnsafePath(FileKind, rel));
      }
      var key := Paths.Normalize(rel);
      if UnderAFile(files, key) {
        return Some(NotADirectory(rel));
      }
      if IsDirectory(files, key) {
        return Some(IsADirectory(rel));
      }
      files := files[key := content];
      return None;
    }

    /** `write_blocks(blocks)`: every file block in order; other kinds are skipped and the first
        exception ends the loop. */
    method WriteBlocks(blocks: seq<Block>) returns (failure: Option<ApplyError>)
      modifies this`files
      ensures Outcome(files, failure) == Batch(Writer, old(files), blocks)
    {
      for i := 0 to |blocks|
        invariant Batch(Writer, old(files), blocks) == Batch(Writer, files, blocks[i..])
      {
        var b := blocks[i];
        assert blocks[i..][0] == b && blocks[i..][1..] == blocks[i + 1..];
        if b.kind == FileKind {
          var f := SafeWrite(b.filename, b.content);
          if f.Some? {
            return f;
          }
        }
      }
      assert blocks[|blocks|..] == [];
      return None;
    }

    /** `apply_unified_diff(diff_blocks)`: for each block, the target is checked, its lines (line
        ends read as `\n`) are patched by `_naive_apply_diff` and written back; the first exception
        ends the loop. */
    method ApplyUnifiedDiff(diffBlocks: seq<Block>) returns (failure: Option<ApplyError>)
      modifies this`files
      ensures Outcome(files, failure) == Batch(Differ, old(files), diffBlocks)
    {
      for i := 0 to |diffBlocks|
        invariant Batch(Differ, old(files), diffBlocks) == Batch(Differ, files, diffBlocks[i..])
      {
        var d := diffBlocks[i];
        assert diffBlocks[i..][0] == d && diffBlocks[i..][1..] == diffBlocks[i + 1..];
        var target := Target(files, DiffKind, d.filename);
        if target.Err? {
          return Some(target.error);
        }
        var key := target.value;
        var patched := NaiveDiff.NaiveApplyDiff(SplitLines(UniversalNewlines(files[key])), d.content);
        assert Step(Differ, files, d) == Ok(files[key := Concat(patched)]);
        files := files[key := Concat(patched)];
      }
      assert diffBlocks[|diffBlocks|..] == [];
      return None;
    }

    /** `apply_json_patches(patch_blocks)` with `json.loads` given as `decode`: for each block, the
        target is checked, the payload decoded and its operations folded over the text, which is
        then written back; the first exception ends the loop. */
    method ApplyJsonPatches(patchBlocks: seq<Block>, decode: string -> Option<JsonPatch.Json>) returns (failure: Option<ApplyError>)
      modifies this`files
      ensures Outcome(files, failure) == Batch(Patcher(decode), old(files), patchBlocks)
    {
      for i := 0 to |patchBlocks|
        invariant Batch(Patcher(decode), old(files), patchBlocks) == Batch(Patcher(decode), files, patchBlocks[i..])
      {
        var p := patchBlocks[i];
        assert patchBlocks[i..][0] == p && patchBlocks[i..][1..] == patchBlocks[i + 1..];
        var target := Target(files, PatchKind, p.filename);
        if target.Err? {
          return Some(target.error);
        }
        var key := target.value;
        var v := decode(p.content);
        if v.None? {
          return Some(MalformedPatch(p.filename));
        }
        var text := JsonPatch.ApplyPatchValue(UniversalNewlines(files[key]), v.value);
        if text.Err? {
          return Some(BadPatch(p.filename, text.error));
        }
        assert Step(Patcher(decode), files, p) == Ok(files[key := text.value]);
        files := files[key := text.value];
      }
      assert patchBlocks[|patchBlocks|..] == [];
      return None;
    }
  }
}
