/** The entry point of `src/lib.rs`: both documents are parsed, the four
    top-level collections of a Hazo dataset are diffed one by one, and the
    non-empty diffs are written to the caller's buffer as one object. */
module Lib {
  import opened Wrappers
  import Json
  import JsonDiff

  type JsonValue = Json.JsonValue

  datatype JsonDiffErrorType = InvalidStructureObjectKey | InvalidStructureGeneral | PropertyMissing

  /** A parse error is reported under the diff error of the same name. */
  function FromParserError(e: Json.JsonParserErrorType): (r: JsonDiffErrorType)
    ensures r != PropertyMissing
    ensures e.InvalidStructureObjectKey? <==> r.InvalidStructureObjectKey?
  {
    match e
    case InvalidStructureObjectKey => InvalidStructureObjectKey
    case InvalidStructureGeneral => InvalidStructureGeneral
  }

  /** `get_prop`: the value of the first member named `key` of an object;
      nothing for a missing key or a value that is not an object. */
  function GetProp(obj: JsonValue, key: string): (r: Option<JsonValue>)
    ensures r.Some? <==> obj.Object? && key in JsonDiff.Keys(obj.pairs)
  {
    if obj.Object? then
      JsonDiff.FindKeyIn(obj.pairs, key);
      match JsonDiff.FindKey(obj.pairs, key)
      case Some(j) => Some(obj.pairs[j].1)
      case None => None
    else None
  }

  /** The value found is that of the first member with the key. */
  lemma GetPropFirst(obj: JsonValue, key: string)
    requires GetProp(obj, key).Some?
    ensures exists j | 0 <= j < |obj.pairs| ::
      obj.pairs[j] == (key, GetProp(obj, key).value) && forall i | 0 <= i < j :: obj.pairs[i].0 != key
  {
    var j := JsonDiff.FindKey(obj.pairs, key).value;
    assert obj.pairs[j] == (key, GetProp(obj, key).value);
  }

  /** The collections compared, in the order they are written. */
  const Props: seq<string> := ["taxons", "characters", "states", "books"]

  /** One collection of the output: its name as a key, then its diff. */
  function PropText(p: string, d: string): string {
    "\"" + p + "\":" + d
  }

  /** What one pass of the property loop finds: a property missing from
      one side, or the forced diff of the two values. */
  datatype Outcome = Missing | Found(diff: string)

  function PropOutcome(ov: JsonValue, nv: JsonValue, p: string): (r: Outcome)
    ensures r.Missing? <==> GetProp(ov, p).None? || GetProp(nv, p).None?
  {
    match GetProp(ov, p)
    case None => Missing
    case Some(a) =>
      match GetProp(nv, p)
      case None => Missing
      case Some(b) => Found(JsonDiff.Diff(a, b, true, false))
  }

  /** The loop over the outcomes of `props`: the first missing property
      stops it with `PropertyMissing`; a non-empty diff is kept as a
      fragment, an empty one is skipped. */
  function Collect(props: seq<string>, os: seq<Outcome>): Result<seq<string>, JsonDiffErrorType>
    requires |os| == |props|
  {
    if props == [] then Ok([])
    else
      match Collect(props[..|props| - 1], os[..|os| - 1])
      case Err(e) => Err(e)
      case Ok(fs) =>
        match os[|os| - 1]
        case Missing => Err(PropertyMissing)
        case Found(d) => Ok(fs + if d == "" then [] else [PropText(props[|props| - 1], d)])
  }

  function Outcomes(ov: JsonValue, nv: JsonValue): (os: seq<Outcome>)
    ensures |os| == |Props| && forall k | 0 <= k < |Props| :: os[k] == PropOutcome(ov, nv, Props[k])
  {
    seq(|Props|, k requires 0 <= k < |Props| => PropOutcome(ov, nv, Props[k]))
  }

  /** What `diff_json_strs` appends for two parsed documents: nothing when
      every collection is unchanged, else the braced list of fragments. */
  function DiffValues(ov: JsonValue, nv: JsonValue): Result<string, JsonDiffErrorType> {
    match Collect(Props, Outcomes(ov, nv))
    case Err(e) => Err(e)
    case Ok(fs) => Ok(if fs == [] then "" else "{" + JsonDiff.Join(fs, ",") + "}")
  }

  /** `diff_json_strs`: the text appended to the buffer, or the error. */
  function DiffStrs(oldJson: string, newJson: string): Result<string, JsonDiffErrorType> {
    match Json.Parse(oldJson)
    case Err(e) => Err(FromParserError(e))
    case Ok(ov) =>
      match Json.Parse(newJson)
      case Err(e) => Err(FromParserError(e))
      case Ok(nv) => DiffValues(ov, nv)
  }

  // ---------------------------------------------------------------------
  // Properties
  // ---------------------------------------------------------------------

  /** The loop fails exactly when some property is missing, and then
      always with `PropertyMissing`. */
  lemma {:induction false} CollectErr(props: seq<string>, os: seq<Outcome>)
    requires |os| == |props|
    ensures Collect(props, os).Err? <==> exists k | 0 <= k < |os| :: os[k].Missing?
    ensures Collect(props, os).Err? ==> Collect(props, os).error == PropertyMissing
  {
    if props != [] {
      var init := os[..|os| - 1];
      CollectErr(props[..|props| - 1], init);
      assert forall k | 0 <= k < |init| :: init[k] == os[k];
      if exists k | 0 <= k < |os| :: os[k].Missing? {
        var k :| 0 <= k < |os| && os[k].Missing?;
        if k < |init| {
          assert init[k].Missing?;
        }
      }
    }
  }

  /** On success the loop keeps one fragment per non-empty diff: none at
      all exactly when every diff is empty. */
  lemma {:induction false} CollectNone(props: seq<string>, os: seq<Outcome>)
    requires |os| == |props| && Collect(props, os).Ok?
    ensures forall k | 0 <= k < |os| :: os[k].Found?
    ensures Collect(props, os).value == [] <==> forall k | 0 <= k < |os| :: os[k].Found? && os[k].diff == ""
  {
    CollectErr(props, os);
    if props != [] {
      var init := os[..|os| - 1];
      CollectNone(props[..|props| - 1], init);
      assert forall k | 0 <= k < |init| :: init[k] == os[k];
    }
  }

  predicate Present(ov: JsonValue, nv: JsonValue, p: string) {
    GetProp(ov, p).Some? && GetProp(nv, p).Some?
  }

  /** The documents give `PropertyMissing` exactly when one of the four
      collections is missing from one of them. */
  lemma DiffValuesMissing(ov: JsonValue, nv: JsonValue)
    ensures DiffValues(ov, nv).Err? <==> exists k | 0 <= k < |Props| :: !Present(ov, nv, Props[k])
    ensures DiffValues(ov, nv).Err? ==> DiffValues(ov, nv).error == PropertyMissing
  {
    var os := Outcomes(ov, nv);
    CollectErr(Props, os);
    if exists k | 0 <= k < |Props| :: !Present(ov, nv, Props[k]) {
      var k :| 0 <= k < |Props| && !Present(ov, nv, Props[k]);
      assert os[k].Missing?;
    }
  }

  /** Nothing is written exactly when all four collections are present on
      both sides and none of them changed; as arrays are diffed forced,
      two arrays always count as changed. */
  lemma DiffValuesEmpty(ov: JsonValue, nv: JsonValue)
    ensures DiffValues(ov, nv) == Ok("") <==>
      forall k | 0 <= k < |Props| :: Present(ov, nv, Props[k]) &&
        JsonDiff.Unchanged(GetProp(ov, Props[k]).value, GetProp(nv, Props[k]).value, true)
  {
    var os := Outcomes(ov, nv);
    CollectErr(Props, os);
    if Collect(Props, os).Ok? {
      CollectNone(Props, os);
      forall k | 0 <= k < |Props|
        ensures os[k].Found? && os[k].diff == "" <==> (Present(ov, nv, Props[k]) &&
          JsonDiff.Unchanged(GetProp(ov, Props[k]).value, GetProp(nv, Props[k]).value, true))
      {
        if Present(ov, nv, Props[k]) {
          JsonDiff.DiffEmptyIff(GetProp(ov, Props[k]).value, GetProp(nv, Props[k]).value, true, false);
        }
      }
    } else {
      var k :| 0 <= k < |os| && os[k].Missing?;
    }
  }

  /** `PropertyMissing` is reported exactly when both documents parse and
      one of the four collections is missing from one of them. */
  lemma DiffStrsMissing(oldJson: string, newJson: string)
    ensures DiffStrs(oldJson, newJson) == Err(PropertyMissing) <==>
      Json.Parse(oldJson).Ok? && Json.Parse(newJson).Ok? &&
      exists k | 0 <= k < |Props| :: !Present(Json.Parse(oldJson).value, Json.Parse(newJson).value, Props[k])
  {
    if Json.Parse(oldJson).Ok? && Json.Parse(newJson).Ok? {
      DiffValuesMissing(Json.Parse(oldJson).value, Json.Parse(newJson).value);
    }
  }

  lemma CollectFour(os: seq<Outcome>, d: string)
    requires d != "" && os == [Found(d), Found(d), Found(d), Found(d)]
    ensures Collect(Props, os) == Ok([PropText(Props[0], d), PropText(Props[1], d), PropText(Props[2], d), PropText(Props[3], d)])
  {
    var fs := [PropText(Props[0], d), PropText(Props[1], d), PropText(Props[2], d), PropText(Props[3], d)];
    var e: seq<string> := [];
    assert Collect(Props[..0], os[..0]) == Ok(e);
    CollectStep(Props, os, 0);
    assert e + [fs[0]] == fs[..1];
    CollectStep(Props, os, 1);
    assert fs[..1] + [fs[1]] == fs[..2];
    CollectStep(Props, os, 2);
    assert fs[..2] + [fs[2]] == fs[..3];
    CollectStep(Props, os, 3);
    assert fs[..3] + [fs[3]] == fs;
    assert Props[..4] == Props && os[..4] == os;
  }

  lemma JoinFour(w: string, x: string, y: string, z: string)
    ensures "{" + JsonDiff.Join([w, x, y, z], ",") + "}" == "{" + w + "," + x + "," + y + "," + z + "}"
  {
    JoinFourPlain(w, x, y, z);
    var c := ",";
    var j := w + c + x + c + y + c + z;
    assert "{" + j == "{" + w + c + x + c + y + c + z;
  }

  lemma JoinFourPlain(w: string, x: string, y: string, z: string)
    ensures JsonDiff.Join([w, x, y, z], ",") == w + "," + x + "," + y + "," + z
  {
    var e: seq<string> := [];
    JsonDiff.JoinSnoc(e, w, ",");
    assert e + [w] == [w];
    JsonDiff.JoinSnoc([w], x, ",");
    assert [w] + [x] == [w, x];
    JsonDiff.JoinSnoc([w, x], y, ",");
    assert [w, x] + [y] == [w, x, y];
    JsonDiff.JoinSnoc([w, x, y], z, ",");
    assert [w, x, y] + [z] == [w, x, y, z];
  }

  /** The forced diff of two empty arrays. */
  const EmptyArraysDiff: string := "{\"added\":[],\"removed\":[]}"

  lemma OutcomesEmptyArrays(ov: JsonValue, nv: JsonValue)
    requires forall k | 0 <= k < |Props| :: GetProp(ov, Props[k]) == Some(Json.Array([])) && GetProp(nv, Props[k]) == Some(Json.Array([]))
    ensures Outcomes(ov, nv) == [Found(EmptyArraysDiff), Found(EmptyArraysDiff), Found(EmptyArraysDiff), Found(EmptyArraysDiff)]
  {
    JsonDiff.DiffSameArrayForced(Json.Array([]), false);
  }

  /** Two documents whose four collections are all empty arrays still
      produce the forced diff of each collection. */
  lemma EmptyCollectionsReported(ov: JsonValue, nv: JsonValue)
    requires forall k | 0 <= k < |Props| :: GetProp(ov, Props[k]) == Some(Json.Array([])) && GetProp(nv, Props[k]) == Some(Json.Array([]))
    ensures DiffValues(ov, nv) == Ok("{" + PropText("taxons", EmptyArraysDiff) + "," + PropText("characters", EmptyArraysDiff)
      + "," + PropText("states", EmptyArraysDiff) + "," + PropText("books", EmptyArraysDiff) + "}")
  {
    var d := EmptyArraysDiff;
    OutcomesEmptyArrays(ov, nv);
    CollectFour(Outcomes(ov, nv), d);
    var fs := [PropText("taxons", d), PropText("characters", d), PropText("states", d), PropText("books", d)];
    assert Collect(Props, Outcomes(ov, nv)) == Ok(fs);
    assert DiffValues(ov, nv) == Ok("{" + JsonDiff.Join(fs, ",") + "}");
    JoinFour(PropText("taxons", d), PropText("characters", d), PropText("states", d), PropText("books", d));
  }

  /** A non-empty output is one braced object. */
  lemma DiffStrsShape(oldJson: string, newJson: string)
    requires DiffStrs(oldJson, newJson).Ok? && DiffStrs(oldJson, newJson).value != ""
    ensures var t := DiffStrs(oldJson, newJson).value;
      |t| >= 2 && t[0] == '{' && t[|t| - 1] == '}'
  {
  }

  // ---------------------------------------------------------------------
  // The method
  // ---------------------------------------------------------------------

  lemma CollectStep(props: seq<string>, os: seq<Outcome>, i: nat)
    requires |os| == |props| && i < |props|
    ensures Collect(props[..i + 1], os[..i + 1]) ==
      match Collect(props[..i], os[..i])
      case Err(e) => Err(e)
      case Ok(fs) =>
        match os[i]
        case Missing => Err(PropertyMissing)
        case Found(d) => Ok(fs + if d == "" then [] else [PropText(props[i], d)])
  {
    assert props[..i + 1][..i] == props[..i];
    assert os[..i + 1][..i] == os[..i];
  }

  /** Once the loop has failed, the whole loop fails with that error. */
  lemma {:induction false} CollectErrKept(props: seq<string>, os: seq<Outcome>, i: nat)
    requires |os| == |props| && i <= |props| && Collect(props[..i], os[..i]).Err?
    ensures Collect(props, os) == Collect(props[..i], os[..i])
    decreases |props| - i
  {
    if i < |props| {
      CollectStep(props, os, i);
      CollectErrKept(props, os, i + 1);
    } else {
      assert props[..i] == props && os[..i] == os;
    }
  }

  lemma FragmentFirst(p: string, d: string)
    ensures "{" + JsonDiff.Join([PropText(p, d)], ",") == ((("{" + "\"") + p) + "\":") + d
  {
    JsonDiff.JoinSnoc([], PropText(p, d), ",");
    assert [] + [PropText(p, d)] == [PropText(p, d)];
  }

  lemma FragmentNext(done: seq<string>, p: string, d: string)
    requires done != []
    ensures "{" + JsonDiff.Join(done + [PropText(p, d)], ",") == ((((("{" + JsonDiff.Join(done, ",")) + ",") + "\"") + p) + "\":") + d
  {
    JsonDiff.JoinSnoc(done, PropText(p, d), ",");
  }

  /** The body of the property loop once both values are found: a
      non-empty diff is written after a comma, unless it is the first. */
  method PushFragment(tmpBuf: string, first: bool, prop: string, propBuf: string, ghost done: seq<string>)
    returns (t: string, f: bool)
    requires first == (done == []) && tmpBuf == "{" + JsonDiff.Join(done, ",")
    ensures var done' := done + if propBuf == "" then [] else [PropText(prop, propBuf)];
      f == (done' == []) && t == "{" + JsonDiff.Join(done', ",")
  {
    t, f := tmpBuf, first;
    if propBuf != "" {
      if !f {
        t := t + ",";
        FragmentNext(done, prop, propBuf);
      } else {
        f := false;
        FragmentFirst(prop, propBuf);
        assert done + [PropText(prop, propBuf)] == [PropText(prop, propBuf)];
        assert t == "{";
      }
      t := t + "\"";
      t := t + prop;
      t := t + "\":";
      t := t + propBuf;
    } else {
      assert done + [] == done;
    }
  }

  /** The property loop of `diff_json_strs`: the scratch buffer opened
      with a brace and the fragments written into it, and whether none was. */
  method PropLoop(ov: JsonValue, nv: JsonValue) returns (r: Result<(), JsonDiffErrorType>, tmpBuf: string, first: bool)
    ensures Collect(Props, Outcomes(ov, nv)).Err? ==> r == Err(Collect(Props, Outcomes(ov, nv)).error)
    ensures Collect(Props, Outcomes(ov, nv)).Ok? ==>
      r == Ok(()) &&
      first == (Collect(Props, Outcomes(ov, nv)).value == []) &&
      tmpBuf == "{" + JsonDiff.Join(Collect(Props, Outcomes(ov, nv)).value, ",")
  {
    ghost var os := Outcomes(ov, nv);
    tmpBuf := "{";
    first := true;
    for i := 0 to |Props|
      invariant Collect(Props[..i], os[..i]).Ok?
      invariant first == (Collect(Props[..i], os[..i]).value == [])
      invariant tmpBuf == "{" + JsonDiff.Join(Collect(Props[..i], os[..i]).value, ",")
    {
      var prop := Props[i];
      CollectStep(Props, os, i);
      var oldP := GetProp(ov, prop);
      if oldP.None? {
        CollectErrKept(Props, os, i + 1);
        return Err(PropertyMissing), tmpBuf, first;
      }
      var newP := GetProp(nv, prop);
      if newP.None? {
        CollectErrKept(Props, os, i + 1);
        return Err(PropertyMissing), tmpBuf, first;
      }
      var propBuf := JsonDiff.DiffJsonValue(oldP.value, newP.value, true, false, "");
      assert propBuf == os[i].diff by {
        assert "" + JsonDiff.Diff(oldP.value, newP.value, true, false) == JsonDiff.Diff(oldP.value, newP.value, true, false);
      }
      tmpBuf, first := PushFragment(tmpBuf, first, prop, propBuf, Collect(Props[..i], os[..i]).value);
    }
    assert Props[..|Props|] == Props && os[..|os|] == os;
    r := Ok(());
  }

  /** `diff_json_strs` over a `String` buffer: `buf` before the call in,
      the status and the buffer after it out. The buffer only changes once
      every collection has been diffed, so a failed call leaves it as it was. */
  method DiffJsonStrs(oldJson: string, newJson: string, buf: string) returns (r: Result<(), JsonDiffErrorType>, out: string)
    ensures DiffStrs(oldJson, newJson).Ok? ==> r == Ok(()) && out == buf + DiffStrs(oldJson, newJson).value
    ensures DiffStrs(oldJson, newJson).Err? ==> r == Err(DiffStrs(oldJson, newJson).error) && out == buf
  {
    out := buf;
    var oldVal := Json.ParseJson(oldJson);
    if oldVal.Err? {
      return Err(FromParserError(oldVal.error)), out;
    }
    var newVal := Json.ParseJson(newJson);
    if newVal.Err? {
      return Err(FromParserError(newVal.error)), out;
    }
    var tmpBuf, first;
    r, tmpBuf, first := PropLoop(oldVal.value, newVal.value);
    if r.Err? {
      return;
    }
    tmpBuf := tmpBuf + "}";
    if !first {
      out := out + tmpBuf;
    } else {
      assert out == buf + "";
    }
  }
}
