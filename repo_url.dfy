/** `parse_origin_url_to_repo`, which reads `(owner, repo)` from a GitHub remote URL, and
    `first_nonempty`. */
module RepoUrl {
  import opened Text
  import opened Wrappers

  const SSH_PREFIX: string := "git@github.com:"
  const HTTPS_PREFIX: string := "https://github.com/"

  /** The path after the prefix: `origin.split(prefix)[1]`, which stops at a second occurrence of
      the prefix. */
  function AfterPrefix(o: string, prefix: string): (rest: string)
    requires |prefix| > 0 && StartsWith(o, prefix)
    ensures rest == Split(o[|prefix|..], prefix)[0]
  {
    assert o[..|prefix|] == prefix;
    Split(o, prefix)[1]
  }

  /** `rest[:-4] if rest.endswith(".git") else rest`. */
  function DropGitSuffix(rest: string): (r: string)
    ensures EndsWith(rest, ".git") ==> r + ".git" == rest
    ensures !EndsWith(rest, ".git") ==> r == rest
  {
    if EndsWith(rest, ".git") then rest[..|rest| - 4] else rest
  }

  /** The path split at `/`: exactly two segments give the pair, any other count `None`. */
  function OwnerRepo(rest: string): (r: Option<(string, string)>)
    ensures r.Some? <==> |Split(rest, "/")| == 2
    ensures r.Some? ==> '/' !in r.value.0 && '/' !in r.value.1 && rest == r.value.0 + "/" + r.value.1
  {
    var parts := Split(rest, "/");
    if |parts| != 2 then None
    else
      SplitPiecesAreFree(rest, "/");
      JoinSplit(rest, "/");
      assert Join(parts, "/") == parts[0] + "/" + parts[1] by {
        assert parts[1..] == [parts[1]];
      }
      CharFree(parts[0], '/');
      CharFree(parts[1], '/');
      Some((parts[0], parts[1]))
  }

  /** `parse_origin_url_to_repo(origin)`: an empty origin, an unknown prefix or a path that is not
      exactly two `/`-separated segments gives `None`; otherwise the two segments. */
  function ParseOriginUrl(origin: string): (r: Option<(string, string)>)
    ensures origin == "" ==> r.None?
    ensures !StartsWith(Strip(origin), SSH_PREFIX) && !StartsWith(Strip(origin), HTTPS_PREFIX) ==> r.None?
    ensures r.Some? ==> '/' !in r.value.0 && '/' !in r.value.1
    ensures r.Some? ==>
      exists prefix :: prefix in [SSH_PREFIX, HTTPS_PREFIX] && StartsWith(Strip(origin), prefix) && DropGitSuffix(AfterPrefix(Strip(origin), prefix)) == r.value.0 + "/" + r.value.1
  {
    if origin == "" then None
    else
      var o := Strip(origin);
      var prefix := if StartsWith(o, SSH_PREFIX) then Some(SSH_PREFIX) else if StartsWith(o, HTTPS_PREFIX) then Some(HTTPS_PREFIX) else None;
      match prefix
      case None => None
      case Some(pre) =>
        var r := OwnerRepo(DropGitSuffix(AfterPrefix(o, pre)));
        assert pre in [SSH_PREFIX, HTTPS_PREFIX];
        r
  }

  /** No `/` in a string means no occurrence of the pattern `/`. */
  lemma SlashFree(s: string)
    requires '/' !in s
    ensures !Contains(s, "/")
  {
    forall i: nat | i <= |s|
      ensures !StartsAt(s, i, "/")
    {
      if i < |s| {
        assert s[i] != '/';
        assert s[i..i + 1] == [s[i]];
      }
    }
  }

  /** A string whose first and last characters are not whitespace is already stripped. */
  lemma StripUnchanged(s: string)
    requires |s| > 0 && !IsSpace(s[0]) && !IsSpace(s[|s| - 1])
    ensures Strip(s) == s
  {
    assert SkipSpace(s, 0) == 0;
  }

  /** `o/r` with no `/` in either part splits into the two parts. */
  lemma SplitOwnerRepo(o: string, r: string)
    requires '/' !in o && '/' !in r
    ensures Split(o + "/" + r, "/") == [o, r]
  {
    SplitAtFirst(o, '/', r);
    SlashFree(r);
    SplitWithoutSeparator(r, "/");
  }

  /** A text with at most one `/` never holds a prefix that has two `/` in a row. */
  lemma NoDoubleSlashPrefix(o: string, tail: string, prefix: string)
    requires '/' !in o && '/' !in tail
    requires |prefix| >= 8 && prefix[6] == '/' && prefix[7] == '/'
    ensures !Contains(o + "/" + tail, prefix)
  {
    var x := o + "/" + tail;
    assert forall k :: 0 <= k < |x| && k != |o| ==> x[k] != '/';
  }

  /** The parse of a stripped URL that starts with the prefix the function picks, whose path does
      not hold that prefix again and comes to `o/r` once `.git` is dropped. */
  lemma ParsesTo(url: string, pre: string, tail: string, o: string, r: string)
    requires url == pre + tail && Strip(url) == url && url != ""
    requires pre == SSH_PREFIX || (pre == HTTPS_PREFIX && !StartsWith(url, SSH_PREFIX))
    requires !Contains(tail, pre) && DropGitSuffix(tail) == o + "/" + r
    requires '/' !in o && '/' !in r
    ensures ParseOriginUrl(url) == Some((o, r))
  {
    assert url[..|pre|] == pre && url[|pre|..] == tail;
    assert StartsWith(url, pre);
    SplitWithoutSeparator(tail, pre);
    assert AfterPrefix(url, pre) == tail;
    SplitOwnerRepo(o, r);
    assert OwnerRepo(o + "/" + r) == Some((o, r));
  }

  /** `https://github.com/o/r.git` names `(o, r)` when neither part holds `/`. */
  lemma HttpsRoundTrip(o: string, r: string)
    requires '/' !in o && '/' !in r
    ensures ParseOriginUrl(HTTPS_PREFIX + o + "/" + r + ".git") == Some((o, r))
  {
    var url := HTTPS_PREFIX + o + "/" + r + ".git";
    StripUnchanged(url);
    var tail := o + "/" + (r + ".git");
    assert url == HTTPS_PREFIX + tail;
    assert !StartsWith(url, SSH_PREFIX) by {
      assert url[0] != SSH_PREFIX[0];
    }
    assert '/' !in r + ".git";
    NoDoubleSlashPrefix(o, r + ".git", HTTPS_PREFIX);
    assert EndsWith(tail, ".git") by {
      assert tail[|tail| - 4..] == ".git";
    }
    assert (o + "/" + r) + ".git" == tail;
    ParsesTo(url, HTTPS_PREFIX, tail, o, r);
  }

  /** `git@github.com:o/r` names `(o, r)` when neither part holds `/`, the remote path does not
      hold the prefix again, and `r` does not end in `.git` or in whitespace. */
  lemma SshRoundTrip(o: string, r: string)
    requires '/' !in o && '/' !in r && !Contains(o + "/" + r, SSH_PREFIX)
    requires !EndsWith(r, ".git") && (|r| > 0 ==> !IsSpace(r[|r| - 1]))
    ensures ParseOriginUrl(SSH_PREFIX + o + "/" + r) == Some((o, r))
  {
    var tail := o + "/" + r;
    var url := SSH_PREFIX + tail;
    assert url == SSH_PREFIX + o + "/" + r;
    StripUnchanged(url);
    assert !EndsWith(tail, ".git") by {
      if |r| >= 4 {
        assert tail[|tail| - 4..] == r[|r| - 4..];
      } else {
        assert tail[|tail| - |r| - 1] == '/';
      }
    }
    ParsesTo(url, SSH_PREFIX, tail, o, r);
  }

  /** `if v:` for the values `first_nonempty` is given: present and not the empty string. */
  predicate Truthy(v: Option<string>) {
    v.Some? && v.value != ""
  }

  /** `first_nonempty(*vals)`: the first present, non-empty value, or `None`. */
  function FirstNonEmpty(vals: seq<Option<string>>): (r: Option<string>)
    ensures r.None? <==> forall i :: 0 <= i < |vals| ==> !Truthy(vals[i])
    ensures r.Some? ==> exists i :: 0 <= i < |vals| && vals[i] == r && Truthy(r) && forall j :: 0 <= j < i ==> !Truthy(vals[j])
  {
    if vals == [] then None
    else if Truthy(vals[0]) then vals[0]
    else
      var r := FirstNonEmpty(vals[1..]);
      assert forall i :: 1 <= i < |vals| ==> vals[i] == vals[1..][i - 1];
      r
  }
}
