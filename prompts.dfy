/** The conversation side of the scaffolder: the system prompt and its presets
    (`_compose_system`), the message list sent to the model (`_build_messages`) and the transcript
    entries (`ChatTurn`). */
module Prompts {
  import opened Text
  import opened Wrappers

  /** The default system instructions: the block protocol the replies must follow. */
  const DEFAULT_SYSTEM: string :=
    "You are a senior full-stack engineer.\n"
    + "When the user describes an app or change, output either:\n"
    + "1) COMPLETE files, or\n"
    + "2) ONLY UPDATED files,\n"
    + "using exactly one of these block formats:\n"
    + "\n"
    + "--- file: <relative/path/filename.ext> ---\n"
    + "<raw file contents>\n"
    + "\n"
    + "--- diff: <relative/path/filename.ext> ---\n"
    + "<unified diff patch affecting ONLY this file>\n"
    + "\n"
    + "--- patch: <relative/path/filename.ext> ---\n"
    + "A JSON object or array of objects in the form:\n"
    + "  {\"op\":\"replace\"|\"insert\"|\"delete\", \"find\":\"...\", \"replace\":\"...\"}\n"
    + "  Minimal, line-oriented where possible.\n"
    + "\n"
    + "Rules:\n"
    + "- Output ONLY blocks (no commentary before/after).\n"
    + "- Do NOT wrap contents in ``` or ''' code fences.\n"
    + "- Use clear, conventional project structure.\n"

  /** Added for `preset == "firebase"`. */
  const FIREBASE_PRESET: string :=
    "\n"
    + "Firebase preset:\n"
    + "- If building a web app, include:\n"
    + "  - firebase.json (SPA rewrite to /index.html; optionally rewrite /api/**)\n"
    + "  - .firebaserc (project id: \"your-firebase-project-id\")\n"
    + "  - firestore.rules, storage.rules\n"
    + "  - .gitignore, .env.example, emulators.json\n"
    + "- If API requested: Cloud Functions (Node 20, TS) exposing /api/hello (+ rewrite).\n"
    + "- Include a minimal README with Firebase CLI steps.\n"

  /** Added for `preset == "gcp-run"`. */
  const GCP_RUN_PRESET: string :=
    "\n"
    + "GCP Run preset:\n"
    + "- Backend for Google Cloud Run (Python FastAPI):\n"
    + "  - backend/main.py (FastAPI hello at /api/hello)\n"
    + "  - backend/requirements.txt (fastapi, uvicorn[standard])\n"
    + "  - Dockerfile (python:3.11-slim)\n"
    + "  - README.md with build/push/deploy steps for Artifact Registry + Cloud Run.\n"
    + "- Firebase Hosting rewrites /api/** to Cloud Run (placeholder serviceId+region), SPA fallback for frontend.\n"
    + "- Front-end default: Vite + React + Tailwind unless user opts out.\n"

  /** Added in `code` mode. */
  const CODE_ONLY_PRESET: string :=
    "\n"
    + "CODE-ONLY mode:\n"
    + "- No website scaffolding unless explicitly asked.\n"
    + "- Return only requested scripts/notebooks/modules as file/diff/patch blocks.\n"

  /** The text of a preset name, when the name is one of the two known presets. */
  function PresetText(preset: Option<string>): (r: Option<string>)
    ensures r.Some? <==> preset == Some("firebase") || preset == Some("gcp-run")
    ensures preset == Some("firebase") ==> r == Some(FIREBASE_PRESET)
    ensures preset == Some("gcp-run") ==> r == Some(GCP_RUN_PRESET)
  {
    if preset == Some("firebase") then Some(FIREBASE_PRESET)
    else if preset == Some("gcp-run") then Some(GCP_RUN_PRESET)
    else None
  }

  /** `s + "\n\n" + section`: a section after a blank line. */
  function WithSection(s: string, section: string): (r: string)
    ensures StartsWith(r, s) && StartsAt(r, |s|, "\n\n" + section)
    ensures EndsWith(r, "\n\n" + section)
    ensures |r| == |s| + 2 + |section|
  {
    var r := s + "\n\n" + section;
    assert r[..|s|] == s;
    assert r[|s|..] == "\n\n" + section;
    r
  }

  /** `_compose_system(preset, mode)`: the base instructions, then the code-only section in `code`
      mode, then the preset's section; each section follows a blank line. */
  function ComposeSystem(base: string, preset: Option<string>, mode: string): (s: string)
    ensures StartsWith(s, base)
    ensures mode == "code" ==> StartsAt(s, |base|, "\n\n" + CODE_ONLY_PRESET)
    ensures PresetText(preset).Some? ==> EndsWith(s, "\n\n" + PresetText(preset).value)
    ensures |s| == |base| + (if mode == "code" then 2 + |CODE_ONLY_PRESET| else 0)
      + (if PresetText(preset).Some? then 2 + |PresetText(preset).value| else 0)
  {
    Sections(base, if mode == "code" then Some(CODE_ONLY_PRESET) else None, PresetText(preset))
  }

  /** The base text followed by the sections that are present, in order. */
  function Sections(base: string, first: Option<string>, second: Option<string>): (s: string)
    ensures StartsWith(s, base)
    ensures first.Some? ==> StartsAt(s, |base|, "\n\n" + first.value)
    ensures second.Some? ==> EndsWith(s, "\n\n" + second.value)
    ensures |s| == |base| + (if first.Some? then 2 + |first.value| else 0)
      + (if second.Some? then 2 + |second.value| else 0)
  {
    var withFirst := if first.Some? then WithSection(base, first.value) else base;
    match second
    case Some(text) =>
      var s := WithSection(withFirst, text);
      PrefixOfPrefix(s, withFirst, base);
      assert first.Some? ==> StartsAt(s, |base|, "\n\n" + first.value) by {
        if first.Some? {
          assert s[|base|..|base| + 2 + |first.value|] == withFirst[|base|..|base| + 2 + |first.value|];
        }
      }
      s
    case None => withFirst
  }

  /** A prefix of a prefix is a prefix. */
  lemma PrefixOfPrefix(s: string, t: string, u: string)
    requires StartsWith(s, t) && StartsWith(t, u)
    ensures StartsWith(s, u)
  {
    assert s[..|u|] == t[..|u|];
  }

  /** Without `code` mode and without a known preset the base instructions are used as they are. */
  lemma PlainSystemIsBase(base: string, preset: Option<string>, mode: string)
    requires mode != "code" && preset != Some("firebase") && preset != Some("gcp-run")
    ensures ComposeSystem(base, preset, mode) == base
  {
  }

  /** A transcript entry. */
  datatype ChatTurn = ChatTurn(role: string, content: string)

  /** One `{"role": ..., "content": ...}` message of the request. */
  datatype Message = Message(role: string, content: string)

  /** `_build_messages(new_user_message, preset, mode)` for a composed system prompt: the system
      message, one message per transcript entry in order, then the new user message. */
  function BuildMessages(system: string, history: seq<ChatTurn>, newUser: string): (msgs: seq<Message>)
    ensures |msgs| == |history| + 2
    ensures msgs[0] == Message("system", system)
    ensures forall i :: 0 <= i < |history| ==> msgs[i + 1] == Message(history[i].role, history[i].content)
    ensures msgs[|msgs| - 1] == Message("user", newUser)
  {
    [Message("system", system)] + seq(|history|, i requires 0 <= i < |history| => Message(history[i].role, history[i].content)) + [Message("user", newUser)]
  }

  /** A later request repeats an earlier one's system message and transcript: only the new turns and
      the new user message differ. */
  lemma MessagesExtendTranscript(system: string, history: seq<ChatTurn>, more: seq<ChatTurn>, u1: string, u2: string)
    ensures BuildMessages(system, history + more, u2)[..|history| + 1] == BuildMessages(system, history, u1)[..|history| + 1]
  {
    var a := BuildMessages(system, history + more, u2)[..|history| + 1];
    var b := BuildMessages(system, history, u1)[..|history| + 1];
    assert forall i :: 0 <= i < |history| ==> (history + more)[i] == history[i];
    assert forall i :: 1 <= i < |history| + 1 ==> a[i] == b[i];
  }
}
