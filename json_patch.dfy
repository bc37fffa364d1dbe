/** The operation fold of `apply_json_patches`: a patch payload is decoded as JSON (the decoder is
    a parameter) into one operation object or a list of them, and each `replace`, `insert` or
    `delete` rewrites the whole text with Python's `str.replace`. */
module JsonPatch {
  import opened Text
  import opened Wrappers

  /** A decoded JSON value; numbers keep their literal, objects are maps (a repeated key keeps its
      last value, as `json.loads` does). */
  datatype Json =
    | JNull
    | JBool(b: bool)
    | JNumber(literal: string)
    | JString(s: string)
    | JArray(items: seq<Json>)
    | JObject(fields: map<string, Json>)

  /** Why a patch fails: the decoded value cannot be iterated (`TypeError`), an operation is not an
      object and has no `get` (`AttributeError`), or a `find`/`replace` value is not a string
      (`TypeError` from `str.replace` or from `+`). */
  datatype PatchError = NotIterable | NotAnObject | NotAString

  /** `if isinstance(ops, dict): ops = [ops]`, then `for op in ops`: an object is one operation, a
      list gives its items, a string gives its characters (each a one-character string) and any
      other value is not iterable. */
  function Operations(v: Json): (r: Result<seq<Json>, PatchError>)
    ensures v.JObject? ==> r == Ok([v])
    ensures v.JArray? ==> r == Ok(v.items)
    ensures v.JString? ==> r.Ok? && |r.value| == |v.s| && forall i :: 0 <= i < |v.s| ==> r.value[i] == JString([v.s[i]])
    ensures r.Err? <==> v.JNull? || v.JBool? || v.JNumber?
  {
    match v
    case JObject(_) => Ok([v])
    case JArray(items) => Ok(items)
    case JString(s) => Ok(seq(|s|, i requires 0 <= i < |s| => JString([s[i]])))
    case _ => Err(NotIterable)
  }

  /** `op.get(key, "")` where the value must be a string. */
  function Field(fields: map<string, Json>, key: string): (r: Result<string, PatchError>)
    ensures key !in fields ==> r == Ok("")
    ensures key in fields ==> (r.Ok? <==> fields[key].JString?)
    ensures r.Ok? && key in fields ==> fields[key] == JString(r.value)
  {
    if key !in fields then Ok("")
    else match fields[key]
      case JString(s) => Ok(s)
      case _ => Err(NotAString)
  }

  /** `op.get("op") == name`. */
  predicate OpIs(fields: map<string, Json>, name: string) {
    "op" in fields && fields["op"] == JString(name)
  }

  /** The operation names the loop acts on; every other value of `op`, or none, is skipped. */
  predicate Known(fields: map<string, Json>) {
    OpIs(fields, "replace") || OpIs(fields, "insert") || OpIs(fields, "delete")
  }

  /** One pass of the operation loop over the current text. */
  function ApplyOp(text: string, op: Json): (r: Result<string, PatchError>)
    ensures !op.JObject? ==> r == Err(NotAnObject)
    ensures op.JObject? && !Known(op.fields) ==> r == Ok(text)
    ensures op.JObject? && OpIs(op.fields, "delete") ==> (r.Ok? <==> Field(op.fields, "find").Ok?)
    ensures op.JObject? && Known(op.fields) && !OpIs(op.fields, "delete") ==>
      (r.Ok? <==> Field(op.fields, "find").Ok? && Field(op.fields, "replace").Ok?)
    ensures r.Err? ==> r.error != NotIterable
  {
    match op
    case JObject(fields) =>
      if OpIs(fields, "replace") then
        match (Field(fields, "find"), Field(fields, "replace"))
        case (Ok(find), Ok(rep)) => Ok(Replace(text, find, rep))
        case _ => Err(NotAString)
      else if OpIs(fields, "insert") then
        match (Field(fields, "find"), Field(fields, "replace"))
        case (Ok(anchor), Ok(rep)) => Ok(Replace(text, anchor, anchor + rep))
        case _ => Err(NotAString)
      else if OpIs(fields, "delete") then
        match Field(fields, "find")
        case Ok(find) => Ok(Replace(text, find, ""))
        case Err(e) => Err(e)
      else Ok(text)
    case _ => Err(NotAnObject)
  }

  /** The operations applied left to right, each to the text the previous one produced; the first
      failure ends the fold. */
  function ApplyOps(text: string, ops: seq<Json>): (r: Result<string, PatchError>)
    ensures ops == [] ==> r == Ok(text)
    ensures r.Err? ==> |ops| > 0 && r.error != NotIterable
    decreases |ops|
  {
    if ops == [] then Ok(text)
    else match ApplyOp(text, ops[0])
      case Err(e) => Err(e)
      case Ok(next) => ApplyOps(next, ops[1..])
  }

  /** The text after the whole decoded patch `v`: a single object is the one operation, and only a
      value that is neither an object, a list nor a string fails before any operation runs. */
  function PatchedText(text: string, v: Json): (r: Result<string, PatchError>)
    ensures v.JObject? ==> r == ApplyOp(text, v)
    ensures r.Err? && r.error == NotIterable <==> v.JNull? || v.JBool? || v.JNumber?
  {
    match Operations(v)
    case Err(e) => Err(e)
    case Ok(ops) => ApplyOps(text, ops)
  }

  /** The inner loop of `apply_json_patches`: reassigns `text` once per operation. */
  method ApplyPatchValue(text: string, v: Json) returns (r: Result<string, PatchError>)
    ensures r == PatchedText(text, v)
  {
    var ops := Operations(v);
    if ops.Err? {
      return Err(ops.error);
    }
    var cur := text;
    for i := 0 to |ops.value|
      invariant ApplyOps(cur, ops.value[i..]) == ApplyOps(text, ops.value)
    {
      var op := ops.value[i];
      assert ops.value[i..][0] == op && ops.value[i..][1..] == ops.value[i + 1..];
      var step := ApplyOp(cur, op);
      if step.Err? {
        return Err(step.error);
      }
      cur := step.value;
    }
    return Ok(cur);
  }

  /** `{"op": "replace", "find": find, "replace": rep}` */
  function ReplaceOp(find: string, rep: string): Json {
    JObject(map["op" := JString("replace"), "find" := JString(find), "replace" := JString(rep)])
  }

  /** `{"op": "insert", "find": anchor, "replace": rep}` */
  function InsertOp(anchor: string, rep: string): Json {
    JObject(map["op" := JString("insert"), "find" := JString(anchor), "replace" := JString(rep)])
  }

  /** `{"op": "delete", "find": find}` */
  function DeleteOp(find: string): Json {
    JObject(map["op" := JString("delete"), "find" := JString(find)])
  }

  /** A single object is treated as the list that holds only it. */
  lemma SingleObjectIsList(text: string, fields: map<string, Json>)
    ensures PatchedText(text, JObject(fields)) == PatchedText(text, JArray([JObject(fields)]))
  {
  }

  /** Folding two lists of operations one after the other is folding their concatenation. */
  lemma {:induction false} ApplyOpsAppend(text: string, xs: seq<Json>, ys: seq<Json>)
    ensures ApplyOps(text, xs + ys) == match ApplyOps(text, xs) case Err(e) => Err(e) case Ok(t) => ApplyOps(t, ys)
    decreases |xs|
  {
    if xs == [] {
      assert xs + ys == ys;
    } else {
      assert (xs + ys)[0] == xs[0] && (xs + ys)[1..] == xs[1..] + ys;
      match ApplyOp(text, xs[0])
      case Err(_) =>
      case Ok(next) => ApplyOpsAppend(next, xs[1..], ys);
    }
  }

  /** A `replace` whose non-empty `find` does not occur leaves the text as it is. */
  lemma AbsentFindIsNoOp(text: string, find: string, rep: string)
    requires |find| > 0 && !Contains(text, find)
    ensures ApplyOp(text, ReplaceOp(find, rep)) == Ok(text)
  {
    ReplaceAbsent(text, find, rep);
  }

  /** Operations see the text the previous ones produced: `A -> B` then `B -> C` turns `A` into `C`. */
  lemma ChainedReplaces(a: string, b: string, c: string)
    requires |a| > 0 && |b| > 0
    ensures ApplyOps(a, [ReplaceOp(a, b), ReplaceOp(b, c)]) == Ok(c)
  {
    ReplaceOpApplies(a, a, b);
    ReplaceWhole(a, b);
    ReplaceOpApplies(b, b, c);
    ReplaceWhole(b, c);
    ApplyOpsTwo(a, ReplaceOp(a, b), b, ReplaceOp(b, c), c);
  }

  /** Two operations that succeed in turn. */
  lemma ApplyOpsTwo(text: string, op1: Json, mid: string, op2: Json, last: string)
    requires ApplyOp(text, op1) == Ok(mid) && ApplyOp(mid, op2) == Ok(last)
    ensures ApplyOps(text, [op1, op2]) == Ok(last)
  {
    assert [op2][0] == op2 && [op2][1..] == [];
    assert ApplyOps(mid, [op2]) == ApplyOps(last, []);
    assert [op1, op2][0] == op1 && [op1, op2][1..] == [op2];
    assert ApplyOps(text, [op1, op2]) == ApplyOps(mid, [op2]);
  }

  /** The object `{"op": "replace", "find": f, "replace": r}` is `text.replace(f, r)`. */
  lemma ReplaceOpApplies(text: string, find: string, rep: string)
    ensures ApplyOp(text, ReplaceOp(find, rep)) == Ok(Replace(text, find, rep))
  {
    var fields := ReplaceOp(find, rep).fields;
    assert OpIs(fields, "replace");
    assert Field(fields, "find") == Ok(find);
    assert Field(fields, "replace") == Ok(rep);
  }

  /** A `delete` is the `replace` of the same `find` by the empty string, whatever else the object holds. */
  lemma DeleteIsReplaceWithEmpty(text: string, fields: map<string, Json>)
    requires OpIs(fields, "delete")
    ensures ApplyOp(text, JObject(fields)) == ApplyOp(text, JObject(fields["op" := JString("replace")]["replace" := JString("")]))
  {
    var g := fields["op" := JString("replace")]["replace" := JString("")];
    assert OpIs(g, "replace");
    assert Field(g, "find") == Field(fields, "find");
    assert Field(g, "replace") == Ok("");
  }

  /** An `insert` puts the replacement after every occurrence of a non-empty anchor. */
  lemma InsertAfterEveryAnchor(text: string, anchor: string, rep: string)
    requires |anchor| > 0
    ensures ApplyOp(text, InsertOp(anchor, rep)) == Ok(Join(Split(text, anchor), anchor + rep))
  {
    ReplaceIsJoinOfSplit(text, anchor, anchor + rep);
  }

  /** An empty `find` (also the default when the key is missing) puts the replacement before every
      character and at the end, as Python's `str.replace` does. */
  lemma EmptyFindReplacesEverywhere(text: string, rep: string)
    ensures text == "" ==> ApplyOp(text, ReplaceOp("", rep)) == Ok(rep)
    ensures text != "" ==> ApplyOp(text, ReplaceOp("", rep)) == Ok(rep + Join(Chars(text), rep) + rep)
    ensures ApplyOp(text, ReplaceOp("", rep)).Ok?
      && |ApplyOp(text, ReplaceOp("", rep)).value| == |text| + (|text| + 1) * |rep|
  {
    if text != "" {
      ReplaceEmptyIsJoin(text, rep);
    }
  }

  /** A missing or unrecognised `op` skips the operation, so a list of such objects changes nothing. */
  lemma {:induction false} UnknownOpsAreNoOps(text: string, ops: seq<Json>)
    requires forall i :: 0 <= i < |ops| ==> ops[i].JObject? && !Known(ops[i].fields)
    ensures ApplyOps(text, ops) == Ok(text)
    decreases |ops|
  {
    if ops != [] {
      UnknownOpsAreNoOps(text, ops[1..]);
    }
  }

  /** A value that is neither an object, a list nor a string fails before any operation runs. */
  lemma ScalarPatchFails(text: string, v: Json)
    requires v.JNull? || v.JBool? || v.JNumber?
    ensures PatchedText(text, v) == Err(NotIterable)
  {
  }

  /** A non-empty string payload fails on its first character, which has no `get`. */
  lemma StringPatchFails(text: string, s: string)
    requires |s| > 0
    ensures PatchedText(text, JString(s)) == Err(NotAnObject)
  {
    var ops := Operations(JString(s)).value;
    assert ops[0] == JString([s[0]]);
  }

  /** A `delete` of a non-empty `find` removes every occurrence: the pieces between them, run together. */
  lemma DeleteRemovesEveryOccurrence(text: string, find: string)
    requires |find| > 0
    ensures ApplyOp(text, DeleteOp(find)) == Ok(Concat(Split(text, find)))
  {
    var fields := DeleteOp(find).fields;
    assert OpIs(fields, "delete") && !OpIs(fields, "replace") && !OpIs(fields, "insert");
    assert Field(fields, "find") == Ok(find);
    ReplaceIsJoinOfSplit(text, find, "");
    JoinEmptyIsConcat(Split(text, find));
  }
}
