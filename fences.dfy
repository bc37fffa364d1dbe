/** `strip_code_fences`: removing the code fences a model may wrap its blocks in. */
module Fences {
  import opened Text
  import opened Wrappers

  /** A character of the optional language tag `[a-zA-Z0-9_-]`. */
  predicate IsTagChar(c: char) {
    'a' <= c <= 'z' || 'A' <= c <= 'Z' || '0' <= c <= '9' || c == '_' || c == '-'
  }

  /** Where the run of tag characters starting at `i` ends. */
  function TagEnd(t: string, i: nat): (j: nat)
    requires i <= |t|
    ensures i <= j <= |t|
    ensures forall k :: i <= k < j ==> IsTagChar(t[k])
    ensures j < |t| ==> !IsTagChar(t[j])
    decreases |t| - i
  {
    if i < |t| && IsTagChar(t[i]) then TagEnd(t, i + 1) else i
  }

  /** Three `q` characters in a row: a fence. */
  function Fence(q: char): string {
    [q, q, q]
  }

  /** The end of an opening fence `qqq(?:[a-zA-Z0-9_-]+)?\n` that starts at `i`, if one does: the
      fence, a run of tag characters and a newline. The greedy tag is followed by the newline or the
      pattern fails at `i`, since a shorter tag would be followed by a tag character. */
  function OpenerEnd(t: string, i: nat, q: char): (r: Option<nat>)
    requires i <= |t|
    ensures r.Some? ==> StartsAt(t, i, Fence(q)) && i + 3 < r.value <= |t| && t[r.value - 1] == '\n'
    ensures r.Some? ==> forall k :: i + 3 <= k < r.value - 1 ==> IsTagChar(t[k])
    ensures r.None? ==> forall j :: StartsAt(t, i, Fence(q)) && i + 3 <= j < |t| && t[j] == '\n' ==>
      exists k :: i + 3 <= k < j && !IsTagChar(t[k])
  {
    if StartsAt(t, i, Fence(q)) then
      var j := TagEnd(t, i + 3);
      if j < |t| && t[j] == '\n' then Some(j + 1)
      else
        assert forall j' :: i + 3 <= j' < |t| && t[j'] == '\n' ==> exists k :: i + 3 <= k < j' && !IsTagChar(t[k]) by {
          forall j' | i + 3 <= j' < |t| && t[j'] == '\n'
            ensures exists k :: i + 3 <= k < j' && !IsTagChar(t[k])
          {
            assert !IsTagChar(t[j']);
            assert j < j';
            assert !IsTagChar(t[j]);
          }
        }
        None
    else None
  }

  /** `re.sub(r"qqq(?:[a-zA-Z0-9_-]+)?\n", "", t)`: drops the opening fences, scanning left to right. */
  function DropOpeners(t: string, q: char): (r: string)
    ensures |r| <= |t|
    ensures !Contains(t, Fence(q)) ==> r == t
    decreases |t|
  {
    if t == "" then ""
    else match OpenerEnd(t, 0, q)
      case Some(e) => DropOpeners(t[e..], q)
      case None =>
        assert !Contains(t, Fence(q)) ==> !Contains(t[1..], Fence(q)) by {
          if Contains(t[1..], Fence(q)) { ContainsTail(t, Fence(q)); }
        }
        assert [t[0]] + t[1..] == t;
        [t[0]] + DropOpeners(t[1..], q)
  }

  /** The tag run that starts at `i` ends at `j` when everything before `j` is a tag character and
      `t[j]` is not. */
  lemma TagEndIs(t: string, i: nat, j: nat)
    requires i <= j <= |t|
    requires forall k :: i <= k < j ==> IsTagChar(t[k])
    requires j < |t| ==> !IsTagChar(t[j])
    ensures TagEnd(t, i) == j
  {
    var e := TagEnd(t, i);
    assert e < |t| ==> !IsTagChar(t[e]);
  }

  /** An opener at the front, with any tag, is deleted and the scan goes on after it. */
  lemma DropOpenersDeletesOpener(tag: string, rest: string, q: char)
    requires forall k :: 0 <= k < |tag| ==> IsTagChar(tag[k])
    ensures DropOpeners(Fence(q) + tag + "\n" + rest, q) == DropOpeners(rest, q)
  {
    var t := Fence(q) + tag + "\n" + rest;
    var j := 3 + |tag|;
    assert t[..3] == Fence(q);
    assert forall k :: 3 <= k < j ==> t[k] == tag[k - 3];
    assert t[j] == '\n';
    TagEndIs(t, 3, j);
    assert OpenerEnd(t, 0, q) == Some(j + 1);
    assert t[j + 1..] == rest;
  }

  /** Text without the fence character passes through the scan unchanged. */
  lemma {:induction false} DropOpenersFree(body: string, tail: string, q: char)
    requires q !in body
    ensures DropOpeners(body + tail, q) == body + DropOpeners(tail, q)
    decreases |body|
  {
    if body != "" {
      var t := body + tail;
      assert t[0] == body[0] != q;
      assert !StartsAt(t, 0, Fence(q));
      assert t[1..] == body[1..] + tail;
      DropOpenersFree(body[1..], tail, q);
      assert [body[0]] + body[1..] == body;
    } else {
      assert body + tail == tail;
    }
  }

  /** Text without the pattern's first character passes through a replace unchanged. */
  lemma {:induction false} ReplaceFree(body: string, tail: string, p: string, r: string)
    requires |p| > 0 && p[0] !in body
    ensures ReplaceNonEmpty(body + tail, p, r) == body + ReplaceNonEmpty(tail, p, r)
    decreases |body|
  {
    var t := body + tail;
    if body == "" {
      assert t == tail;
    } else if |t| < |p| {
      assert ReplaceNonEmpty(tail, p, r) == tail;
    } else {
      assert t[..|p|] != p by {
        assert t[0] == body[0];
      }
      assert t[1..] == body[1..] + tail;
      ReplaceFree(body[1..], tail, p, r);
      assert [body[0]] + body[1..] == body;
    }
  }

  /** No fence character, no fence. */
  lemma NoCharNoFence(s: string, q: char)
    requires q !in s
    ensures !Contains(s, Fence(q))
  {
    forall i: nat | i <= |s|
      ensures !StartsAt(s, i, Fence(q))
    {
      assert i < |s| ==> s[i] != q;
    }
  }

  /** A replace by the empty string never lengthens the text. */
  lemma {:induction false} RemovingShrinks(s: string, p: string)
    requires |p| > 0
    ensures |ReplaceNonEmpty(s, p, "")| <= |s|
    decreases |s|
  {
    if |s| < |p| {
    } else if s[..|p|] == p {
      RemovingShrinks(s[|p|..], p);
    } else {
      RemovingShrinks(s[1..], p);
    }
  }

  /** Removing fences from a text that does not start with one keeps its first character, which the
      scan then passes over. */
  lemma RemovalKeepsHead(u: string, q: char)
    requires |u| > 0 && !StartsWith(u, Fence(q))
    ensures |ReplaceNonEmpty(u, Fence(q), "")| > 0 && ReplaceNonEmpty(u, Fence(q), "")[0] == u[0]
    ensures |u| >= 3 ==> ReplaceNonEmpty(u, Fence(q), "") == [u[0]] + ReplaceNonEmpty(u[1..], Fence(q), "")
  {
  }

  /** Removing every fence leaves none: a removal never brings two runs of the character together
      into a new fence, because the scan takes the leftmost fence first. */
  lemma {:induction false} RemovalLeavesNoFence(s: string, q: char)
    ensures !Contains(ReplaceNonEmpty(s, Fence(q), ""), Fence(q))
    decreases |s|
  {
    var f := Fence(q);
    if |s| < 3 {
    } else if s[..3] == f {
      RemovalLeavesNoFence(s[3..], q);
      assert ReplaceNonEmpty(s, f, "") == ReplaceNonEmpty(s[3..], f, "");
    } else {
      var u := s[1..];
      RemovalLeavesNoFence(u, q);
      var y := ReplaceNonEmpty(u, f, "");
      var x := [s[0]] + y;
      assert ReplaceNonEmpty(s, f, "") == x;
      forall i: nat | i <= |x|
        ensures !StartsAt(x, i, f)
      {
        if i > 0 && i + 3 <= |x| {
          assert x[i..i + 3] == y[i - 1..i + 2];
          assert !StartsAt(y, i - 1, f);
        } else if i == 0 && |y| >= 2 && s[0] == q && y[0] == q {
          assert s[..3] == [s[0], u[0], u[1]];
          assert !StartsWith(u, f);
          RemovalKeepsHead(u, q);
          assert u[0] == q;
          assert u[1] != q;
          if |u| >= 3 {
            var v := u[1..];
            assert v[0] == u[1];
            assert !StartsWith(v, f);
            RemovalKeepsHead(v, q);
            assert y[1] == ReplaceNonEmpty(v, f, "")[0];
          } else {
            assert y == u;
          }
        }
      }
    }
  }

  /** `strip_code_fences(text)`: openers with backticks, then every remaining triple backtick, then the
      same for triple quotes. The result is never longer, and no triple quote is left. (A triple
      backtick can be: removing a quote opener may join two runs of backticks.) */
  function StripCodeFences(t: string): (s: string)
    ensures |s| <= |t|
    ensures !Contains(s, Fence('\''))
  {
    var a := DropOpeners(t, '`');
    var b := Replace(a, Fence('`'), "");
    var c := DropOpeners(b, '\'');
    RemovingShrinks(a, Fence('`'));
    RemovingShrinks(c, Fence('\''));
    RemovalLeavesNoFence(c, '\'');
    Replace(c, Fence('\''), "")
  }

  /** A text without any triple backtick or triple quote passes through unchanged. */
  lemma StripCodeFencesProperties(t: string)
    ensures !Contains(t, Fence('`')) && !Contains(t, Fence('\'')) ==> StripCodeFences(t) == t
  {
    var a := DropOpeners(t, '`');
    var c := DropOpeners(Replace(a, Fence('`'), ""), '\'');
    if !Contains(t, Fence('`')) && !Contains(t, Fence('\'')) {
      ReplaceAbsent(a, Fence('`'), "");
      ReplaceAbsent(c, Fence('\''), "");
    }
  }

  /** A fence with nothing after it is no opener, and a replace removes it. */
  lemma BareFence(q: char)
    ensures DropOpeners(Fence(q), q) == Fence(q)
    ensures ReplaceNonEmpty(Fence(q), Fence(q), "") == ""
  {
    var f := Fence(q);
    assert TagEnd(f, 3) == 3;
    assert OpenerEnd(f, 0, q).None?;
    assert !Contains(f[1..], f);
    assert [f[0]] + f[1..] == f;
    assert f[..3] == f && f[3..] == "";
  }

  /** A body fenced by backticks, with any tag, comes out as the body when it holds no backtick and
      no quote. */
  lemma FencedBodyUnwrapped(tag: string, body: string)
    requires forall k :: 0 <= k < |tag| ==> IsTagChar(tag[k])
    requires '`' !in body && '\'' !in body
    ensures StripCodeFences("```" + tag + "\n" + body + "```") == body
  {
    var f := Fence('`');
    var t := "```" + tag + "\n" + body + "```";
    var a := DropOpeners(t, '`');
    assert a == body + f by {
      assert t == f + tag + "\n" + (body + f);
      DropOpenersDeletesOpener(tag, body + f, '`');
      DropOpenersFree(body, f, '`');
      BareFence('`');
    }
    var b := Replace(a, f, "");
    assert b == body by {
      ReplaceFree(body, f, f, "");
      BareFence('`');
      assert body + "" == body;
    }
    NoCharNoFence(body, '\'');
    ReplaceAbsent(body, Fence('\''), "");
  }

  /** Removing a quote opener can bring backticks together: two backticks, a quote opener and one
      backtick come out as a triple backtick. */
  lemma TripleBacktickCanSurvive()
    ensures StripCodeFences("``'''\n`") == "```"
  {
    var t := "``'''\n`";
    assert !Contains(t, Fence('`')) by {
      forall i: nat | i <= |t|
        ensures !StartsAt(t, i, Fence('`'))
      {
        if i + 3 <= |t| {
          var w := if i <= 2 then 2 else i;
          assert t[w] != '`';
          assert t[i..i + 3][w - i] == t[w];
        }
      }
    }
    ReplaceAbsent(t, Fence('`'), "");
    assert t == "``" + (Fence('\'') + "" + "\n" + "`");
    DropOpenersFree("``", Fence('\'') + "" + "\n" + "`", '\'');
    DropOpenersDeletesOpener("", "`", '\'');
    NoCharNoFence("`", '\'');
    assert "``" + "`" == "```";
    NoCharNoFence("```", '\'');
    ReplaceAbsent("```", Fence('\''), "");
  }
}
