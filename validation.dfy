/** The command gate of `run_cmd` and the follow-up prompt `feedback_prompt_from_results`; the
    process launch is the parameter `run`. */
module Validation {
  import opened Text

  const WHITELISTED_COMMANDS: seq<string> := [
    "npm ci", "npm install", "pnpm install", "yarn install",
    "npm run build", "npm run dev", "npm run lint", "npm run typecheck",
    "vite build", "tsc -v",
    "python -m pytest -q", "pytest -q",
    "firebase emulators:start --only hosting"
  ]

  /** Most characters of stdout and of stderr kept in a result. */
  const OUTPUT_LIMIT: nat := 8000

  /** The gate: some whitelist entry is a prefix of the stripped command. */
  predicate Whitelisted(cmd: string) {
    exists i :: 0 <= i < |WHITELISTED_COMMANDS| && StartsWith(Strip(cmd), WHITELISTED_COMMANDS[i])
  }

  /** What a launched process reports: success, stdout and stderr. */
  datatype Proc = Proc(ok: bool, stdout: string, stderr: string)

  /** The dictionary `run_cmd` returns. */
  datatype CmdResult = CmdResult(cmd: string, ok: bool, stdout: string, stderr: string)

  const REFUSED: string := "Command not whitelisted."

  /** `run_cmd(cmd)`: a command the gate refuses is answered without `run`; an admitted one is run
      as written and its outputs cut to their last `OUTPUT_LIMIT` characters. */
  function RunCmd(cmd: string, run: string -> Proc): (r: CmdResult)
    ensures r.cmd == cmd
    ensures !Whitelisted(cmd) ==> r == CmdResult(cmd, false, "", REFUSED)
    ensures Whitelisted(cmd) ==> r.ok == run(cmd).ok
    ensures Whitelisted(cmd) ==> r.stdout == Tail(run(cmd).stdout, OUTPUT_LIMIT) && r.stderr == Tail(run(cmd).stderr, OUTPUT_LIMIT)
    ensures Whitelisted(cmd) ==> EndsWith(run(cmd).stdout, r.stdout) && EndsWith(run(cmd).stderr, r.stderr)
    ensures Whitelisted(cmd) && |run(cmd).stdout| <= OUTPUT_LIMIT ==> r.stdout == run(cmd).stdout
    ensures Whitelisted(cmd) && |run(cmd).stderr| <= OUTPUT_LIMIT ==> r.stderr == run(cmd).stderr
    ensures |r.stdout| <= OUTPUT_LIMIT && |r.stderr| <= OUTPUT_LIMIT
  {
    if !Whitelisted(cmd) then CmdResult(cmd, false, "", REFUSED)
    else
      var p := run(cmd);
      CmdResult(cmd, p.ok, Tail(p.stdout, OUTPUT_LIMIT), Tail(p.stderr, OUTPUT_LIMIT))
  }

  /** A refused command's result does not depend on the launcher: it is never run. */
  lemma RefusedCommandNeverRuns(cmd: string, run1: string -> Proc, run2: string -> Proc)
    requires !Whitelisted(cmd)
    ensures RunCmd(cmd, run1) == RunCmd(cmd, run2)
  {
  }

  /** The gate only looks at a prefix: an entry followed by anything (`npm ci && ...`), after
      optional leading spaces, is admitted. */
  lemma PrefixGateAdmitsAnySuffix(lead: string, i: nat, rest: string)
    requires i < |WHITELISTED_COMMANDS|
    requires forall k :: 0 <= k < |lead| ==> IsSpace(lead[k])
    ensures Whitelisted(lead + WHITELISTED_COMMANDS[i] + rest)
  {
    EntriesStripped();
    StripKeepsWord(lead, WHITELISTED_COMMANDS[i], rest);
  }

  /** No whitelist entry is empty or starts or ends with a space. */
  lemma EntriesStripped()
    ensures forall i :: 0 <= i < |WHITELISTED_COMMANDS| ==> |WHITELISTED_COMMANDS[i]| > 0 && IsStripped(WHITELISTED_COMMANDS[i])
  {
    forall i | 0 <= i < |WHITELISTED_COMMANDS|
      ensures |WHITELISTED_COMMANDS[i]| > 0 && IsStripped(WHITELISTED_COMMANDS[i])
    {
      var w := WHITELISTED_COMMANDS[i];
      assert w[0] == 'n' || w[0] == 'p' || w[0] == 'y' || w[0] == 'v' || w[0] == 't' || w[0] == 'f';
      assert w[|w| - 1] == 'i' || w[|w| - 1] == 'l' || w[|w| - 1] == 'd' || w[|w| - 1] == 'v'
        || w[|w| - 1] == 't' || w[|w| - 1] == 'k' || w[|w| - 1] == 'q' || w[|w| - 1] == 'g';
    }
  }

  /** Stripping spaces, then a word that neither starts nor ends with a space, then anything,
      leaves a text that starts with the word. */
  lemma StripKeepsWord(lead: string, w: string, rest: string)
    requires |w| > 0 && IsStripped(w)
    requires forall k :: 0 <= k < |lead| ==> IsSpace(lead[k])
    ensures StartsWith(Strip(lead + w + rest), w)
  {
    var cmd := lead + w + rest;
    SkipLead(cmd, lead);
    var r := Strip(cmd);
    var s := |lead|;
    assert cmd[s..s + |w|] == w;
    assert cmd[s + |w| - 1] == w[|w| - 1];
    assert s + |r| >= s + |w|;
    assert r[..|w|] == cmd[s..s + |w|];
  }

  /** Leading spaces followed by a non-space character are skipped exactly. */
  lemma SkipLead(cmd: string, lead: string)
    requires StartsWith(cmd, lead) && |cmd| > |lead| && !IsSpace(cmd[|lead|])
    requires forall k :: 0 <= k < |lead| ==> IsSpace(lead[k])
    ensures SkipSpace(cmd, 0) == |lead|
  {
    var j := SkipSpace(cmd, 0);
    assert forall k :: 0 <= k < |lead| ==> cmd[k] == lead[k];
  }

  /** `str(ok)`. */
  function OkText(ok: bool): string {
    if ok then "True" else "False"
  }

  /** `r['stderr'] or '(empty)'`. */
  function StderrText(stderr: string): (t: string)
    ensures t != ""
    ensures stderr != "" ==> t == stderr
    ensures stderr == "" ==> t == "(empty)"
  {
    if stderr == "" then "(empty)" else stderr
  }

  /** What one result contributes to the prompt. */
  function Chunk(r: CmdResult): (c: string)
    ensures StartsWith(c, "$ " + r.cmd + "\nOK=" + OkText(r.ok) + "\nSTDERR:\n")
    ensures EndsWith(c, StderrText(r.stderr))
    ensures |c| == |"$ " + r.cmd + "\nOK=" + OkText(r.ok) + "\nSTDERR:\n"| + |StderrText(r.stderr)|
  {
    var head := "$ " + r.cmd + "\nOK=" + OkText(r.ok) + "\nSTDERR:\n";
    var c := head + StderrText(r.stderr);
    assert c[..|head|] == head;
    c
  }

  function Chunks(rs: seq<CmdResult>): (cs: seq<string>)
    ensures |cs| == |rs| && forall i :: 0 <= i < |rs| ==> cs[i] == Chunk(rs[i])
  {
    seq(|rs|, i requires 0 <= i < |rs| => Chunk(rs[i]))
  }

  const FEEDBACK_HEAD: string := "Validation results:\n"
  const FEEDBACK_TAIL: string := "\n\nPlease return ONLY changed blocks (file/diff/patch) to fix these issues."

  /** `feedback_prompt_from_results(results)`: the heading, the chunks separated by blank lines, and
      the request for changed blocks only. */
  function FeedbackPrompt(rs: seq<CmdResult>): (p: string)
    ensures StartsWith(p, FEEDBACK_HEAD) && EndsWith(p, FEEDBACK_TAIL)
  {
    var p := FEEDBACK_HEAD + Join(Chunks(rs), "\n\n") + FEEDBACK_TAIL;
    assert p[..|FEEDBACK_HEAD|] == FEEDBACK_HEAD;
    assert p[|p| - |FEEDBACK_TAIL|..] == FEEDBACK_TAIL;
    p
  }

  /** Every result's chunk occurs in the prompt. */
  lemma FeedbackListsEveryResult(rs: seq<CmdResult>)
    ensures forall i :: 0 <= i < |rs| ==> Contains(FeedbackPrompt(rs), Chunk(rs[i]))
  {
    ChunksOccur(rs, FEEDBACK_HEAD, Join(Chunks(rs), "\n\n"), FEEDBACK_TAIL);
  }

  /** Each chunk occurs in the text around the joined chunks. */
  lemma ChunksOccur(rs: seq<CmdResult>, head: string, body: string, tail: string)
    requires body == Join(Chunks(rs), "\n\n")
    ensures forall i :: 0 <= i < |rs| ==> Contains(head + body + tail, Chunk(rs[i]))
  {
    var cs := Chunks(rs);
    forall i | 0 <= i < |rs|
      ensures Contains(head + body + tail, cs[i])
    {
      JoinContains(cs, "\n\n", i);
      ContainsInside(head, body, tail, cs[i]);
    }
  }

  /** An occurrence in the middle piece is one in the whole text. */
  lemma ContainsInside(head: string, body: string, tail: string, p: string)
    requires Contains(body, p)
    ensures Contains(head + body + tail, p)
  {
    ContainsBefore(body, tail, p);
    ContainsAfter(head, body + tail, p);
    assert head + body + tail == head + (body + tail);
  }

  /** With no results the prompt is the heading and the request alone. */
  lemma NoResultsFeedback()
    ensures FeedbackPrompt([]) == FEEDBACK_HEAD + FEEDBACK_TAIL
  {
    assert Chunks([]) == [];
  }

  /** A single result's prompt is its chunk between the heading and the request. */
  lemma FeedbackOne(r: CmdResult)
    ensures FeedbackPrompt([r]) == FEEDBACK_HEAD + Chunk(r) + FEEDBACK_TAIL
  {
    assert Chunks([r]) == [Chunk(r)];
  }

  /** One more result adds a blank line and its chunk before the request. */
  lemma FeedbackAppend(rs: seq<CmdResult>, r: CmdResult)
    requires |rs| > 0
    ensures FeedbackPrompt(rs + [r]) == FEEDBACK_HEAD + Join(Chunks(rs), "\n\n") + "\n\n" + Chunk(r) + FEEDBACK_TAIL
  {
    var js := Join(Chunks(rs), "\n\n");
    var c := Chunk(r);
    ChunksSnoc(rs, r);
    JoinSnoc(Chunks(rs), c, "\n\n");
    assert Join(Chunks(rs + [r]), "\n\n") == js + "\n\n" + c;
    Reassoc(FEEDBACK_HEAD, js, "\n\n", c, FEEDBACK_TAIL);
  }

  lemma Reassoc(h: string, js: string, sep: string, c: string, t: string)
    ensures h + (js + sep + c) + t == h + js + sep + c + t
  {
  }

  lemma ChunksSnoc(rs: seq<CmdResult>, r: CmdResult)
    ensures Chunks(rs + [r]) == Chunks(rs) + [Chunk(r)]
  {
    var a := Chunks(rs + [r]);
    var b := Chunks(rs) + [Chunk(r)];
    assert |a| == |b|;
    forall i | 0 <= i < |a|
      ensures a[i] == b[i]
    {
      assert (rs + [r])[i] == if i < |rs| then rs[i] else r;
    }
  }

  /** A single refused command reports `OK=False` and the refusal as its stderr. */
  lemma RefusedFeedback(cmd: string, run: string -> Proc)
    requires !Whitelisted(cmd)
    ensures FeedbackPrompt([RunCmd(cmd, run)]) == FEEDBACK_HEAD + ("$ " + cmd + "\nOK=False\nSTDERR:\n" + REFUSED) + FEEDBACK_TAIL
  {
    var r := RunCmd(cmd, run);
    assert r == CmdResult(cmd, false, "", REFUSED);
    RefusedChunk(r);
  }

  /** The prompt for the one refusal `r`. */
  lemma RefusedChunk(r: CmdResult)
    requires r == CmdResult(r.cmd, false, "", REFUSED)
    ensures FeedbackPrompt([r]) == FEEDBACK_HEAD + ("$ " + r.cmd + "\nOK=False\nSTDERR:\n" + REFUSED) + FEEDBACK_TAIL
  {
    var c := "$ " + r.cmd + "\nOK=False\nSTDERR:\n" + REFUSED;
    assert Chunk(r) == c by {
      assert OkText(false) == "False" && StderrText(REFUSED) == REFUSED;
    }
    FeedbackOne(r);
  }
}
