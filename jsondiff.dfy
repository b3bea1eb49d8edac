/** The diff engine and the compact renderer of `src/jsondiff.rs`.

    `Diff(a, b, force, flat)` is the text `diff_json_value` appends to its
    buffer; the method `DiffJsonValue` follows the source's loops and is
    proved to append exactly that text. */
module JsonDiff {
  import opened Wrappers
  import opened Numbers
  import opened Json
  import JsonFacts

  // ---------------------------------------------------------------------
  // Escaping
  // ---------------------------------------------------------------------

  /** One character of a `json_escape`d string: `"`, `\` and newline get a
      backslash, every other character is copied. */
  function EscapeChar(c: char): string {
    if c == '"' then "\\\"" else if c == '\n' then "\\n" else if c == '\\' then "\\\\" else [c]
  }

  function EscapeBody(s: string): string {
    if s == [] then [] else EscapeChar(s[0]) + EscapeBody(s[1..])
  }

  /** `json_escape`: the escaped text between two quotes. */
  function Escape(s: string): string {
    "\"" + EscapeBody(s) + "\""
  }

  /** Reads back what EscapeBody writes. */
  function UnescapeBody(t: string): string
    decreases |t|
  {
    if t == [] then []
    else if |t| >= 2 && t[0] == '\\' && (t[1] == '"' || t[1] == 'n' || t[1] == '\\') then
      [if t[1] == 'n' then '\n' else t[1]] + UnescapeBody(t[2..])
    else [t[0]] + UnescapeBody(t[1..])
  }

  lemma {:induction false} EscapeBodyConcat(s: string, t: string)
    ensures EscapeBody(s + t) == EscapeBody(s) + EscapeBody(t)
  {
    if s == [] {
      assert s + t == t;
    } else {
      assert (s + t)[1..] == s[1..] + t;
      EscapeBodyConcat(s[1..], t);
    }
  }

  /** `json_escape` loses nothing: its body reads back to the input. */
  lemma {:induction false} EscapeRoundTrip(s: string)
    ensures UnescapeBody(EscapeBody(s)) == s
  {
    if s != [] {
      EscapeRoundTrip(s[1..]);
      var e := EscapeChar(s[0]);
      var t := e + EscapeBody(s[1..]);
      if |e| == 2 {
        assert t[2..] == EscapeBody(s[1..]);
      } else {
        assert t[1..] == EscapeBody(s[1..]);
      }
    }
  }

  /** A string without `"`, `\` or newline is copied unchanged. */
  lemma {:induction false} EscapePlain(s: string)
    requires forall k | 0 <= k < |s| :: s[k] != '"' && s[k] != '\\' && s[k] != '\n'
    ensures EscapeBody(s) == s
  {
    if s != [] {
      EscapePlain(s[1..]);
    }
  }

  /** The char loop of `json_escape`. */
  method JsonEscape(s: string) returns (out: string)
    ensures out == Escape(s)
  {
    out := "\"";
    for i := 0 to |s|
      invariant out == "\"" + EscapeBody(s[..i])
    {
      var c := s[i];
      if c == '"' {
        out := out + "\\\"";
      } else if c == '\n' {
        out := out + "\\n";
      } else if c == '\\' {
        out := out + "\\\\";
      } else {
        out := out + [c];
      }
      assert s[..i + 1] == s[..i] + [c];
      EscapeBodyConcat(s[..i], [c]);
      assert EscapeBody([c]) == EscapeChar(c) + EscapeBody([]);
    }
    assert s[..|s|] == s;
    out := out + "\"";
  }

  /** `escape_key`: only `"` gets a backslash. The result is never shorter
      than the key, and every `"` in it follows a backslash, so it cannot
      end the quoted key it is written into. */
  function EscapeKey(k: string): (r: string)
    ensures |r| >= |k|
    ensures forall i | 0 <= i < |r| && r[i] == '"' :: i > 0 && r[i - 1] == '\\'
  {
    if k == [] then [] else (if k[0] == '"' then "\\\"" else [k[0]]) + EscapeKey(k[1..])
  }

  function UnescapeKey(t: string): string
    decreases |t|
  {
    if t == [] then []
    else if |t| >= 2 && t[0] == '\\' && t[1] == '"' then ['"'] + UnescapeKey(t[2..])
    else [t[0]] + UnescapeKey(t[1..])
  }

  /** An escaped key never starts with a bare `"`. */
  lemma EscapeKeyHead(k: string)
    ensures EscapeKey(k) != [] ==> EscapeKey(k)[0] != '"'
  {
  }

  /** `escape_key` loses nothing: a backslash already in the key cannot be
      mistaken for the start of an escape, because the escape of the rest
      never starts with a bare `"`. */
  lemma {:induction false} EscapeKeyRoundTrip(k: string)
    ensures UnescapeKey(EscapeKey(k)) == k
  {
    if k != [] {
      EscapeKeyRoundTrip(k[1..]);
      var rest := EscapeKey(k[1..]);
      if k[0] == '"' {
        assert ("\\\"" + rest)[2..] == rest;
      } else {
        EscapeKeyHead(k[1..]);
        assert ([k[0]] + rest)[1..] == rest;
      }
    }
  }

  /** A key without `"` is copied unchanged. */
  lemma {:induction false} EscapeKeyPlain(k: string)
    requires forall j | 0 <= j < |k| :: k[j] != '"'
    ensures EscapeKey(k) == k
  {
    if k != [] {
      EscapeKeyPlain(k[1..]);
    }
  }

  /** Keys read by the parser never hold a `"`, so a diff writes every
      parsed key back exactly as it appeared in the input. */
  lemma ParsedKeysVerbatim(src: string)
    requires Parse(src).Ok? && Parse(src).value.Object?
    ensures forall k | 0 <= k < |Parse(src).value.pairs| :: EscapeKey(Parse(src).value.pairs[k].0) == Parse(src).value.pairs[k].0
  {
    JsonFacts.ParseQuoteFree(src);
    var pairs := Parse(src).value.pairs;
    forall k | 0 <= k < |pairs| ensures EscapeKey(pairs[k].0) == pairs[k].0 {
      assert JsonFacts.NoQuote(pairs[k].0);
      EscapeKeyPlain(pairs[k].0);
    }
  }

  // ---------------------------------------------------------------------
  // Rendering
  // ---------------------------------------------------------------------

  function BoolText(b: bool): string {
    if b then "true" else "false"
  }

  /** `Vec::join`: the parts with `sep` between neighbours. */
  function Join(parts: seq<string>, sep: string): string {
    if |parts| == 0 then ""
    else if |parts| == 1 then parts[0]
    else Join(parts[..|parts| - 1], sep) + sep + parts[|parts| - 1]
  }

  /** One object member as the renderer and the diff write it. */
  function Member(k: string, text: string): string {
    "\"" + EscapeKey(k) + "\":" + text
  }

  /** `json_value_to_string`: compact rendering, arrays and objects in
      their own order. */
  function Render(v: JsonValue): string
    decreases v
  {
    match v
    case String(s) => Escape(s)
    case Number(n) => RenderNum(n)
    case Boolean(b) => BoolText(b)
    case Null => "null"
    case Array(elems) =>
      "[" + Join(seq(|elems|, i requires 0 <= i < |elems| => Render(elems[i])), ",") + "]"
    case Object(pairs) =>
      "{" + Join(seq(|pairs|, i requires 0 <= i < |pairs| => Member(pairs[i].0, Render(pairs[i].1))), ",") + "}"
  }

  function Renders(vs: seq<JsonValue>): (r: seq<string>)
    ensures |r| == |vs| && forall i | 0 <= i < |vs| :: r[i] == Render(vs[i])
  {
    seq(|vs|, i requires 0 <= i < |vs| => Render(vs[i]))
  }

  /** The first character of a rendering tells the variant. */
  lemma RenderHead(v: JsonValue)
    ensures var r := Render(v);
      |r| > 0 &&
      (v.String? <==> r[0] == '"') &&
      (v.Number? <==> (IsDigit(r[0]) || r[0] == '-')) &&
      (v.Boolean? <==> (r[0] == 't' || r[0] == 'f')) &&
      (v.Null? <==> r[0] == 'n') &&
      (v.Array? <==> r[0] == '[') &&
      (v.Object? <==> r[0] == '{')
  {
    if v.Number? {
      RenderNumShape(v.n);
    }
  }

  predicate Blank(c: char) {
    c == ' ' || c == '\t' || c == '\n' || c == '\r'
  }

  /** No blank character anywhere in `t`. */
  predicate NoBlank(t: string) {
    forall i | 0 <= i < |t| :: !Blank(t[i])
  }

  /** Strings hold no space, tab or carriage return (a newline is escaped),
      keys no blank at all, at every depth. */
  predicate BlankFreeValue(v: JsonValue) {
    match v
    case String(s) => forall i | 0 <= i < |s| :: s[i] == '\n' || !Blank(s[i])
    case Array(elems) => forall i | 0 <= i < |elems| :: BlankFreeValue(elems[i])
    case Object(pairs) => forall i | 0 <= i < |pairs| :: NoBlank(pairs[i].0) && BlankFreeValue(pairs[i].1)
    case _ => true
  }

  lemma {:induction false} JoinNoBlank(parts: seq<string>, sep: string)
    requires NoBlank(sep) && forall i | 0 <= i < |parts| :: NoBlank(parts[i])
    ensures NoBlank(Join(parts, sep))
  {
    if |parts| > 1 {
      JoinNoBlank(parts[..|parts| - 1], sep);
      var init := Join(parts[..|parts| - 1], sep);
      assert Join(parts, sep) == init + sep + parts[|parts| - 1];
    }
  }

  lemma {:induction false} EscapeBodyNoBlank(s: string)
    requires forall i | 0 <= i < |s| :: s[i] == '\n' || !Blank(s[i])
    ensures NoBlank(EscapeBody(s))
  {
    if s != [] {
      EscapeBodyNoBlank(s[1..]);
    }
  }

  lemma {:induction false} EscapeKeyNoBlank(k: string)
    requires NoBlank(k)
    ensures NoBlank(EscapeKey(k))
  {
    if k != [] {
      EscapeKeyNoBlank(k[1..]);
    }
  }

  /** `json_value_to_string` writes the compact form: whitespace in its
      output can only come from inside the strings and keys it copies. */
  lemma {:induction false} RenderNoBlank(v: JsonValue)
    requires BlankFreeValue(v)
    ensures NoBlank(Render(v))
    decreases v
  {
    match v
    case String(s) =>
      EscapeBodyNoBlank(s);
    case Number(n) =>
      RenderNumShape(n);
    case Boolean(b) =>
    case Null =>
    case Array(elems) =>
      var parts := seq(|elems|, i requires 0 <= i < |elems| => Render(elems[i]));
      forall i | 0 <= i < |elems| ensures NoBlank(parts[i]) {
        RenderNoBlank(elems[i]);
      }
      JoinNoBlank(parts, ",");
    case Object(pairs) =>
      var parts := seq(|pairs|, i requires 0 <= i < |pairs| => Member(pairs[i].0, Render(pairs[i].1)));
      forall i | 0 <= i < |pairs| ensures NoBlank(parts[i]) {
        RenderNoBlank(pairs[i].1);
        EscapeKeyNoBlank(pairs[i].0);
      }
      JoinNoBlank(parts, ",");
  }

  // ---------------------------------------------------------------------
  // Keys
  // ---------------------------------------------------------------------

  /** `iter().find` on the key: the position of the first pair with key `k`. */
  function FindKey(pairs: seq<(string, JsonValue)>, k: string): (r: Option<nat>)
    ensures r.Some? ==> r.value < |pairs| && pairs[r.value].0 == k
    ensures r.Some? ==> forall j | 0 <= j < r.value :: pairs[j].0 != k
    ensures r.None? ==> forall j | 0 <= j < |pairs| :: pairs[j].0 != k
  {
    if pairs == [] then None
    else if pairs[0].0 == k then Some(0)
    else match FindKey(pairs[1..], k)
      case None => None
      case Some(j) => Some(j + 1)
  }

  /** Rust's order on `str`: byte-wise lexicographic, a proper prefix first. */
  predicate Below(a: string, b: string) {
    if a == [] then b != []
    else b != [] && (a[0] < b[0] || (a[0] == b[0] && Below(a[1..], b[1..])))
  }

  lemma {:induction false} BelowIrreflexive(a: string)
    ensures !Below(a, a)
  {
    if a != [] {
      BelowIrreflexive(a[1..]);
    }
  }

  lemma {:induction false} BelowTransitive(a: string, b: string, c: string)
    requires Below(a, b) && Below(b, c)
    ensures Below(a, c)
  {
    if a != [] && a[0] == b[0] && b[0] == c[0] {
      BelowTransitive(a[1..], b[1..], c[1..]);
    }
  }

  lemma {:induction false} BelowTotal(a: string, b: string)
    ensures a == b || Below(a, b) || Below(b, a)
  {
    if a != [] && b != [] && a[0] == b[0] {
      BelowTotal(a[1..], b[1..]);
      if a[1..] == b[1..] {
        assert a == [a[0]] + a[1..] && b == [b[0]] + b[1..];
      }
    }
  }

  lemma {:induction false} BelowAsymmetric(a: string, b: string)
    requires Below(a, b)
    ensures !Below(b, a)
  {
    if a != [] && a[0] == b[0] {
      BelowAsymmetric(a[1..], b[1..]);
    }
  }

  predicate StrictlySorted(s: seq<string>) {
    forall i, j | 0 <= i < j < |s| :: Below(s[i], s[j])
  }

  function Insert(x: string, s: seq<string>): (r: seq<string>)
    requires StrictlySorted(s)
    ensures StrictlySorted(r)
    ensures forall y :: y in r <==> y == x || y in s
  {
    if s == [] then [x]
    else if x == s[0] then s
    else if Below(x, s[0]) then
      assert forall j | 0 < j < |s| :: Below(x, s[j]) by {
        forall j | 0 < j < |s| ensures Below(x, s[j]) {
          BelowTransitive(x, s[0], s[j]);
        }
      }
      [x] + s
    else
      BelowTotal(x, s[0]);
      var r' := Insert(x, s[1..]);
      assert forall y | y in r' :: Below(s[0], y);
      [s[0]] + r'
  }

  function SortDedup(keys: seq<string>): (r: seq<string>)
    ensures StrictlySorted(r)
    ensures forall y :: y in r <==> y in keys
  {
    if keys == [] then []
    else Insert(keys[|keys| - 1], SortDedup(keys[..|keys| - 1]))
  }

  function Keys(pairs: seq<(string, JsonValue)>): (r: seq<string>)
    ensures |r| == |pairs| && forall i | 0 <= i < |pairs| :: r[i] == pairs[i].0
  {
    seq(|pairs|, i requires 0 <= i < |pairs| => pairs[i].0)
  }

  /** `unique_sorted_keys`: the keys of both objects, sorted, each once. */
  function UniqueSortedKeys(oa: seq<(string, JsonValue)>, ob: seq<(string, JsonValue)>): (r: seq<string>)
    ensures StrictlySorted(r)
    ensures forall k :: k in r <==> k in Keys(oa) || k in Keys(ob)
  {
    SortDedup(Keys(oa) + Keys(ob))
  }

  lemma SameMembersEmpty(s: seq<string>, t: seq<string>)
    requires forall y :: y in s <==> y in t
    ensures s == [] <==> t == []
  {
    if s != [] {
      assert s[0] in s;
    }
    if t != [] {
      assert t[0] in t;
    }
  }

  /** A strictly sorted listing of a set of keys is unique, so the key walk
      of the object diff is fixed by the two key sets alone. */
  lemma {:induction false} SortedListingUnique(s: seq<string>, t: seq<string>)
    requires StrictlySorted(s) && StrictlySorted(t)
    requires forall y :: y in s <==> y in t
    ensures s == t
    decreases |s|
  {
    SameMembersEmpty(s, t);
    if s != [] {
      if s[0] != t[0] {
        assert t[0] in s && s[0] in t;
        var i :| 0 <= i < |s| && s[i] == t[0];
        var j :| 0 <= j < |t| && t[j] == s[0];
        assert i > 0 && j > 0;
        BelowAsymmetric(s[0], t[0]);
        assert false;
      }
      assert forall y :: y in s[1..] <==> y in t[1..] by {
        forall y ensures y in s[1..] <==> y in t[1..] {
          assert s == [s[0]] + s[1..] && t == [t[0]] + t[1..];
          if y in s[1..] {
            var i :| 0 <= i < |s[1..]| && s[1..][i] == y;
            BelowIrreflexive(s[0]);
            assert Below(s[0], s[i + 1]);
            assert y != t[0];
            assert y in s;
            assert y in t;
            var j :| 0 <= j < |t| && t[j] == y;
            assert j > 0 && t[1..][j - 1] == y;
          }
          if y in t[1..] {
            var j :| 0 <= j < |t[1..]| && t[1..][j] == y;
            BelowIrreflexive(t[0]);
            assert Below(t[0], t[j + 1]);
            assert y != s[0];
            assert y in t;
            assert y in s;
            var i :| 0 <= i < |s| && s[i] == y;
            assert i > 0 && s[1..][i - 1] == y;
          }
        }
      }
      SortedListingUnique(s[1..], t[1..]);
    }
  }

  // ---------------------------------------------------------------------
  // The diff, as a function of the two values
  // ---------------------------------------------------------------------

  /** The fragment that reports a changed value. */
  function OldNew(x: string, y: string): string {
    "{\"old\":" + x + ",\"new\":" + y + "}"
  }

  /** What one key of the union contributes to an object diff. */
  datatype KeyChange = Added(text: string) | Removed(text: string) | Modified(text: string) | Kept

  function Min(x: nat, y: nat): nat {
    if x < y then x else y
  }

  /** The non-empty strings of `ms`, in order. */
  function NonEmpty(ms: seq<string>): seq<string> {
    if ms == [] then []
    else NonEmpty(ms[..|ms| - 1]) + (if ms[|ms| - 1] != "" then [ms[|ms| - 1]] else [])
  }

  function AddedTexts(cs: seq<KeyChange>): seq<string> {
    if cs == [] then []
    else AddedTexts(cs[..|cs| - 1]) + (if cs[|cs| - 1].Added? then [cs[|cs| - 1].text] else [])
  }

  function RemovedTexts(cs: seq<KeyChange>): seq<string> {
    if cs == [] then []
    else RemovedTexts(cs[..|cs| - 1]) + (if cs[|cs| - 1].Removed? then [cs[|cs| - 1].text] else [])
  }

  function ModifiedTexts(cs: seq<KeyChange>): seq<string> {
    if cs == [] then []
    else ModifiedTexts(cs[..|cs| - 1]) + (if cs[|cs| - 1].Modified? then [cs[|cs| - 1].text] else [])
  }

  /** The text `diff_json_value(a, b, force, flat, buf)` appends to `buf`. */
  function Diff(a: JsonValue, b: JsonValue, force: bool, flat: bool): string
    decreases a, 3
  {
    if a.String? && b.String? then (if a.s != b.s then OldNew(Escape(a.s), Escape(b.s)) else "")
    else if a.Number? && b.Number? then (if !NumEq(a.n, b.n) then OldNew(RenderNum(a.n), RenderNum(b.n)) else "")
    else if a.Boolean? && b.Boolean? then (if a.b != b.b then OldNew(BoolText(a.b), BoolText(b.b)) else "")
    else if a.Null? && b.Null? then ""
    else if a.Array? && b.Array? then ArrayDiff(a, b, force)
    else if a.Object? && b.Object? then ObjectDiff(a, b, flat)
    else if Render(a) != Render(b) then OldNew(Render(a), Render(b))
    else ""
  }

  /** One common position of two arrays: two objects are compared by the
      flattened object diff, anything else by its whole rendering. */
  function ElementDiff(x: JsonValue, y: JsonValue): string
    decreases x, 4
  {
    if x.Object? && y.Object? then Diff(x, y, false, true)
    else if Render(x) != Render(y) then OldNew(Render(x), Render(y))
    else ""
  }

  function ElementDiffs(a: JsonValue, b: JsonValue): (r: seq<string>)
    requires a.Array? && b.Array?
    ensures |r| == Min(|a.elems|, |b.elems|)
    ensures forall i | 0 <= i < |r| :: r[i] == ElementDiff(a.elems[i], b.elems[i])
    decreases a, 1
  {
    var n := Min(|a.elems|, |b.elems|);
    seq(n, i requires 0 <= i < n => ElementDiff(a.elems[i], b.elems[i]))
  }

  /** The rendered values, comma-separated. */
  function RenderList(vs: seq<JsonValue>): string {
    Join(Renders(vs), ",")
  }

  function ModifiedSection(mods: seq<string>): string {
    if NonEmpty(mods) == [] then "" else ",\"modified\":[" + Join(NonEmpty(mods), ",") + "]"
  }

  /** The lists of an array diff, from their rendered contents. */
  function ArrayText(added: string, removed: string, modified: string): string {
    "{\"added\":[" + added + "],\"removed\":[" + removed + "]" + modified + "}"
  }

  function ArrayDiff(a: JsonValue, b: JsonValue, force: bool): string
    requires a.Array? && b.Array?
    decreases a, 2
  {
    var va, vb := a.elems, b.elems;
    var mods := ElementDiffs(a, b);
    if |va| == |vb| && NonEmpty(mods) == [] && !force then ""
    else
      ArrayText(RenderList(if |vb| > |va| then vb[|va|..] else []),
                RenderList(if |va| > |vb| then va[|vb|..] else []),
                ModifiedSection(mods))
  }

  /** One key of the union: removed when only the old object has it, added
      when only the new one has it, modified when the nested diff of the
      first occurrences (both flags off) is not empty. */
  function KeyDiff(a: JsonValue, b: JsonValue, k: string): KeyChange
    requires a.Object? && b.Object?
    decreases a, 0
  {
    match (FindKey(a.pairs, k), FindKey(b.pairs, k))
    case (Some(x), None) => Removed(Member(k, Render(a.pairs[x].1)))
    case (None, Some(y)) => Added(Member(k, Render(b.pairs[y].1)))
    case (Some(x), Some(y)) =>
      var sub := Diff(a.pairs[x].1, b.pairs[y].1, false, false);
      if sub == "" then Kept else Modified(Member(k, sub))
    case (None, None) => Kept
  }

  function KeyChanges(a: JsonValue, b: JsonValue, keys: seq<string>): (r: seq<KeyChange>)
    requires a.Object? && b.Object?
    ensures |r| == |keys| && forall i | 0 <= i < |keys| :: r[i] == KeyDiff(a, b, keys[i])
    decreases a, 1
  {
    seq(|keys|, i requires 0 <= i < |keys| => KeyDiff(a, b, keys[i]))
  }

  /** The sections of an object diff, each written only when non-empty and
      separated from an earlier one by a comma. */
  function AddedPart(added: seq<string>): string {
    if added != [] then "\"added\":{" + Join(added, ",") + "}" else ""
  }

  function RemovedPart(added: seq<string>, removed: seq<string>): string {
    if removed != [] then (if added != [] then "," else "") + ("\"removed\":{" + Join(removed, ",") + "}") else ""
  }

  function ModifiedPart(added: seq<string>, removed: seq<string>, modified: seq<string>, flat: bool): string {
    if modified != [] then
      (if added != [] || removed != [] then "," else "")
      + (if flat then Join(modified, ",") else "\"modified\":{" + Join(modified, ",") + "}")
    else ""
  }

  /** The braces around the non-empty sections, in the order added,
      removed, modified; `flat` splices the modified members in bare. */
  function ObjectText(added: seq<string>, removed: seq<string>, modified: seq<string>, flat: bool): string {
    "{" + AddedPart(added) + RemovedPart(added, removed) + ModifiedPart(added, removed, modified, flat) + "}"
  }

  function ObjectDiff(a: JsonValue, b: JsonValue, flat: bool): string
    requires a.Object? && b.Object?
    decreases a, 2
  {
    var changes := KeyChanges(a, b, UniqueSortedKeys(a.pairs, b.pairs));
    ObjectText(AddedTexts(changes), RemovedTexts(changes), ModifiedTexts(changes), flat)
  }

  // ---------------------------------------------------------------------
  // Properties of the diff
  // ---------------------------------------------------------------------

  lemma {:induction false} NonEmptyNone(ms: seq<string>)
    ensures NonEmpty(ms) == [] <==> forall i | 0 <= i < |ms| :: ms[i] == ""
  {
    if ms != [] {
      var init := ms[..|ms| - 1];
      NonEmptyNone(init);
      assert forall i | 0 <= i < |init| :: init[i] == ms[i];
    }
  }

  /** An object diff is never empty: it is at least the braces. */
  lemma ObjectDiffBraces(a: JsonValue, b: JsonValue, force: bool, flat: bool)
    requires a.Object? && b.Object?
    ensures var d := Diff(a, b, force, flat);
      |d| >= 2 && d[0] == '{' && d[|d| - 1] == '}'
  {
  }

  /** A common array position is a change unless both sides are not both
      objects and render the same. */
  lemma ElementDiffEmpty(x: JsonValue, y: JsonValue)
    ensures ElementDiff(x, y) == "" <==> !(x.Object? && y.Object?) && Render(x) == Render(y)
  {
    if x.Object? && y.Object? {
      ObjectDiffBraces(x, y, false, true);
    }
  }

  predicate SameVariant(a: JsonValue, b: JsonValue) {
    (a.String? && b.String?) || (a.Number? && b.Number?) || (a.Boolean? && b.Boolean?) ||
    (a.Null? && b.Null?) || (a.Array? && b.Array?) || (a.Object? && b.Object?)
  }

  /** Values of different variants always render differently, so the
      catch-all arm reports them. */
  lemma DiffMismatch(a: JsonValue, b: JsonValue, force: bool, flat: bool)
    requires !SameVariant(a, b)
    ensures Diff(a, b, force, flat) == OldNew(Render(a), Render(b))
  {
    RenderHead(a);
    RenderHead(b);
  }

  /** Two values that are neither arrays nor objects: nothing when they are
      equal, otherwise the old and the new value each rendered whole. */
  lemma DiffScalar(a: JsonValue, b: JsonValue, force: bool, flat: bool)
    requires !a.Array? && !a.Object? && !b.Array? && !b.Object?
    ensures Diff(a, b, force, flat) == if Unchanged(a, b, force) then "" else OldNew(Render(a), Render(b))
  {
    if !SameVariant(a, b) {
      DiffMismatch(a, b, force, flat);
    }
  }

  /** When `diff_json_value` appends nothing, stated without the diff:
      equal scalars (numbers by f64 `==`), two nulls, or two arrays of the
      same length, not forced, whose common positions are never two
      objects and render the same. Two objects always differ. */
  predicate Unchanged(a: JsonValue, b: JsonValue, force: bool) {
    match (a, b)
    case (String(sa), String(sb)) => sa == sb
    case (Number(na), Number(nb)) => NumEq(na, nb)
    case (Boolean(ba), Boolean(bb)) => ba == bb
    case (Null, Null) => true
    case (Array(va), Array(vb)) =>
      !force && |va| == |vb| &&
      forall i | 0 <= i < |va| :: !(va[i].Object? && vb[i].Object?) && Render(va[i]) == Render(vb[i])
    case _ => false
  }

  lemma ArrayDiffEmpty(a: JsonValue, b: JsonValue, force: bool, flat: bool)
    requires a.Array? && b.Array?
    ensures Diff(a, b, force, flat) == "" <==> Unchanged(a, b, force)
  {
    var mods := ElementDiffs(a, b);
    NonEmptyNone(mods);
    forall i | 0 <= i < |mods| ensures mods[i] == "" <==> !(a.elems[i].Object? && b.elems[i].Object?) && Render(a.elems[i]) == Render(b.elems[i]) {
      ElementDiffEmpty(a.elems[i], b.elems[i]);
    }
  }

  /** The diff is empty exactly when the values are unchanged. */
  lemma DiffEmptyIff(a: JsonValue, b: JsonValue, force: bool, flat: bool)
    ensures Diff(a, b, force, flat) == "" <==> Unchanged(a, b, force)
  {
    if !SameVariant(a, b) {
      DiffMismatch(a, b, force, flat);
    } else if a.Array? {
      ArrayDiffEmpty(a, b, force, flat);
    } else if a.Object? {
      ObjectDiffBraces(a, b, force, flat);
    }
  }

  /** A value compared with itself, not forced, gives nothing unless it is
      an object or an array holding an object. */
  lemma DiffSelf(v: JsonValue, flat: bool)
    ensures Diff(v, v, false, flat) == "" <==> !v.Object? && (v.Array? ==> forall i | 0 <= i < |v.elems| :: !v.elems[i].Object?)
  {
    DiffEmptyIff(v, v, false, flat);
  }

  lemma FindKeyIn(pairs: seq<(string, JsonValue)>, k: string)
    ensures FindKey(pairs, k).Some? <==> k in Keys(pairs)
  {
    if FindKey(pairs, k).Some? {
      assert Keys(pairs)[FindKey(pairs, k).value] == k;
    }
  }

  /** Every key of the union lands in the section its presence calls for. */
  lemma KeyDiffSection(a: JsonValue, b: JsonValue, k: string)
    requires a.Object? && b.Object?
    ensures KeyDiff(a, b, k).Added? <==> k !in Keys(a.pairs) && k in Keys(b.pairs)
    ensures KeyDiff(a, b, k).Removed? <==> k in Keys(a.pairs) && k !in Keys(b.pairs)
    ensures KeyDiff(a, b, k).Modified? <==>
      FindKey(a.pairs, k).Some? && FindKey(b.pairs, k).Some? &&
      Diff(a.pairs[FindKey(a.pairs, k).value].1, b.pairs[FindKey(b.pairs, k).value].1, false, false) != ""
    ensures KeyDiff(a, b, k).Kept? <==>
      (k !in Keys(a.pairs) && k !in Keys(b.pairs)) ||
      (FindKey(a.pairs, k).Some? && FindKey(b.pairs, k).Some? &&
       Diff(a.pairs[FindKey(a.pairs, k).value].1, b.pairs[FindKey(b.pairs, k).value].1, false, false) == "")
  {
    FindKeyIn(a.pairs, k);
    FindKeyIn(b.pairs, k);
  }

  /** An array compared with itself under `force`, when no element is an
      object: both lists written, both empty, and no modified section. */
  lemma DiffSameArrayForced(v: JsonValue, flat: bool)
    requires v.Array? && forall i | 0 <= i < |v.elems| :: !v.elems[i].Object?
    ensures Diff(v, v, true, flat) == "{\"added\":[],\"removed\":[]}"
  {
    var mods := ElementDiffs(v, v);
    assert forall i | 0 <= i < |mods| :: mods[i] == "";
    NonEmptyNone(mods);
    assert Renders([]) == [];
  }

  /** A list of one or more values renders to a non-empty text. */
  lemma RenderListNonEmpty(vs: seq<JsonValue>)
    requires |vs| > 0
    ensures RenderList(vs) != ""
  {
    var parts := Renders(vs);
    RenderHead(vs[|vs| - 1]);
    if |parts| > 1 {
      assert Join(parts, ",") == Join(parts[..|parts| - 1], ",") + "," + parts[|parts| - 1];
    }
  }

  /** The array branch writes the tail of the longer array as added or
      removed, according to which side is longer, and the other list empty;
      the tail's list is non-empty exactly when the lengths differ. */
  lemma ArrayDiffLists(a: JsonValue, b: JsonValue, force: bool, flat: bool)
    requires a.Array? && b.Array?
    ensures var d := Diff(a, b, force, flat);
      var mods := ModifiedSection(ElementDiffs(a, b));
      (d != "" && |b.elems| <= |a.elems| ==> d == ArrayText("", RenderList(a.elems[|b.elems|..]), mods)) &&
      (d != "" && |a.elems| <= |b.elems| ==> d == ArrayText(RenderList(b.elems[|a.elems|..]), "", mods))
    ensures |b.elems| < |a.elems| ==> RenderList(a.elems[|b.elems|..]) != ""
    ensures |a.elems| < |b.elems| ==> RenderList(b.elems[|a.elems|..]) != ""
  {
    assert Renders([]) == [];
    if |b.elems| < |a.elems| {
      RenderListNonEmpty(a.elems[|b.elems|..]);
    } else if |a.elems| < |b.elems| {
      RenderListNonEmpty(b.elems[|a.elems|..]);
    } else {
      assert a.elems[|b.elems|..] == [];
    }
  }

  // ---------------------------------------------------------------------
  // diff_json_value, step by step
  // ---------------------------------------------------------------------

  lemma JoinSnoc(parts: seq<string>, x: string, sep: string)
    ensures Join(parts + [x], sep) == if parts == [] then x else Join(parts, sep) + sep + x
  {
    assert (parts + [x])[..|parts|] == parts;
  }

  lemma RenderListStep(vs: seq<JsonValue>, j: nat)
    requires j < |vs|
    ensures RenderList(vs[..j + 1]) == RenderList(vs[..j]) + (if j > 0 then "," else "") + Render(vs[j])
  {
    assert Renders(vs[..j + 1]) == Renders(vs[..j]) + [Render(vs[j])];
    JoinSnoc(Renders(vs[..j]), Render(vs[j]), ",");
  }

  lemma NonEmptyStep(ms: seq<string>, i: nat)
    requires i < |ms|
    ensures NonEmpty(ms[..i + 1]) == NonEmpty(ms[..i]) + (if ms[i] != "" then [ms[i]] else [])
  {
    assert ms[..i + 1][..i] == ms[..i];
  }

  lemma TextsStep(cs: seq<KeyChange>, i: nat)
    requires i < |cs|
    ensures AddedTexts(cs[..i + 1]) == AddedTexts(cs[..i]) + (if cs[i].Added? then [cs[i].text] else [])
    ensures RemovedTexts(cs[..i + 1]) == RemovedTexts(cs[..i]) + (if cs[i].Removed? then [cs[i].text] else [])
    ensures ModifiedTexts(cs[..i + 1]) == ModifiedTexts(cs[..i]) + (if cs[i].Modified? then [cs[i].text] else [])
  {
    assert cs[..i + 1][..i] == cs[..i];
  }

  lemma AppendAssoc(buf: string, p: string, x: string)
    ensures (buf + p) + x == buf + (p + x)
  {
  }

  /** The five pushes that report a changed value. */
  method PushOldNew(buf: string, x: string, y: string) returns (out: string)
    ensures out == buf + OldNew(x, y)
  {
    ghost var frag := "{\"old\":";
    out := buf + "{\"old\":";
    out := out + x;
    AppendAssoc(buf, frag, x);
    frag := frag + x;
    out := out + ",\"new\":";
    AppendAssoc(buf, frag, ",\"new\":");
    frag := frag + ",\"new\":";
    out := out + y;
    AppendAssoc(buf, frag, y);
    frag := frag + y;
    out := out + "}";
    AppendAssoc(buf, frag, "}");
  }

  /** `diff_json_value` on the `String` buffer: `buf` before the call in,
      the buffer after it out. */
  method DiffJsonValue(a: JsonValue, b: JsonValue, force: bool, flat: bool, buf: string) returns (out: string)
    ensures out == buf + Diff(a, b, force, flat)
    decreases a, 3
  {
    out := buf;
    if a.String? && b.String? {
      if a.s != b.s {
        var ea := JsonEscape(a.s);
        var eb := JsonEscape(b.s);
        out := PushOldNew(buf, ea, eb);
      }
    } else if a.Number? && b.Number? {
      if !NumEq(a.n, b.n) {
        out := PushOldNew(buf, RenderNum(a.n), RenderNum(b.n));
      }
    } else if a.Boolean? && b.Boolean? {
      if a.b != b.b {
        out := PushOldNew(buf, BoolText(a.b), BoolText(b.b));
      }
    } else if a.Null? && b.Null? {
    } else if a.Array? && b.Array? {
      out := DiffArrays(a, b, force, buf);
    } else if a.Object? && b.Object? {
      out := DiffObjects(a, b, flat, buf);
    } else if Render(a) != Render(b) {
      out := PushOldNew(buf, Render(a), Render(b));
    }
  }

  /** The first loop of the Array arm: whether any common position differs. */
  method ArrayHasDiff(a: JsonValue, b: JsonValue) returns (hasDiff: bool)
    requires a.Array? && b.Array?
    ensures hasDiff == (|a.elems| != |b.elems| || NonEmpty(ElementDiffs(a, b)) != [])
    decreases a, 1
  {
    var va, vb := a.elems, b.elems;
    ghost var mods := ElementDiffs(a, b);
    hasDiff := |va| != |vb|;
    for i := 0 to Min(|va|, |vb|)
      invariant hasDiff == (|va| != |vb| || NonEmpty(mods[..i]) != [])
    {
      if va[i].Object? && vb[i].Object? {
        var tmp := DiffJsonValue(va[i], vb[i], false, true, "");
        if tmp != "" {
          hasDiff := true;
        }
      } else if Render(va[i]) != Render(vb[i]) {
        hasDiff := true;
      }
      NonEmptyStep(mods, i);
    }
    assert mods[..|mods|] == mods;
  }

  /** The enumerate loops of the Array arm: the values rendered, with a
      comma before all but the first. */
  method PushRendered(vs: seq<JsonValue>, buf: string) returns (out: string)
    ensures out == buf + RenderList(vs)
  {
    out := buf;
    for j := 0 to |vs|
      invariant out == buf + RenderList(vs[..j])
    {
      RenderListStep(vs, j);
      if j > 0 {
        out := out + ",";
        AppendAssoc(buf, RenderList(vs[..j]), ",");
        AppendAssoc(buf, RenderList(vs[..j]) + ",", Render(vs[j]));
      } else {
        AppendAssoc(buf, RenderList(vs[..j]) + "", Render(vs[j]));
      }
      out := out + Render(vs[j]);
    }
    assert vs[..|vs|] == vs;
  }

  /** One common position in the `modified` loop of the Array arm. */
  method ElementChange(x: JsonValue, y: JsonValue) returns (m: string)
    ensures m == ElementDiff(x, y)
    decreases x, 4
  {
    if x.Object? && y.Object? {
      m := DiffJsonValue(x, y, false, true, "");
    } else if Render(x) != Render(y) {
      m := PushOldNew("", Render(x), Render(y));
    } else {
      m := "";
    }
  }

  /** The `modified` list as far as it has been written: nothing before
      the first change, the opening and the changes after it. */
  function ModifiedSoFar(done: seq<string>): string {
    if done == [] then "" else ",\"modified\":[" + Join(done, ",")
  }

  lemma ModifiedSoFarSnoc(buf: string, done: seq<string>, m: string)
    ensures buf + ModifiedSoFar(done + [m]) == (buf + ModifiedSoFar(done)) + (if done == [] then ",\"modified\":[" else ",") + m
  {
    JoinSnoc(done, m, ",");
    if done != [] {
      var open := ",\"modified\":[";
      assert ModifiedSoFar(done + [m]) == open + (Join(done, ",") + "," + m);
      assert ModifiedSoFar(done + [m]) == ModifiedSoFar(done) + "," + m;
    }
  }

  /** The last loop of the Array arm: the `modified` list, opened before
      the first change and closed after the last. */
  method PushModified(a: JsonValue, b: JsonValue, buf: string) returns (out: string)
    requires a.Array? && b.Array?
    ensures out == buf + ModifiedSection(ElementDiffs(a, b))
    decreases a, 1
  {
    var va, vb := a.elems, b.elems;
    ghost var mods := ElementDiffs(a, b);
    out := buf;
    var firstMod := true;
    for i := 0 to Min(|va|, |vb|)
      invariant firstMod == (NonEmpty(mods[..i]) == [])
      invariant out == buf + ModifiedSoFar(NonEmpty(mods[..i]))
    {
      NonEmptyStep(mods, i);
      var m := ElementChange(va[i], vb[i]);
      assert m == mods[i];
      ghost var done := NonEmpty(mods[..i]);
      if m != "" {
        assert NonEmpty(mods[..i + 1]) == done + [m];
        ModifiedSoFarSnoc(buf, done, m);
        if firstMod {
          out := out + ",\"modified\":[";
          firstMod := false;
        } else {
          out := out + ",";
        }
        out := out + m;
      } else {
        assert NonEmpty(mods[..i + 1]) == done + [];
        assert done + [] == done;
      }
    }
    assert mods[..|mods|] == mods;
    if !firstMod {
      AppendAssoc(buf, ModifiedSoFar(NonEmpty(mods)), "]");
      out := out + "]";
    } else {
      assert out == buf + "";
    }
  }

  lemma ArrayPushes(buf: string, x: string, y: string, z: string)
    ensures ((((((((buf + "{") + "\"added\":[") + x) + "]") + ",\"removed\":[") + y) + "]") + z) + "}" == buf + ArrayText(x, y, z)
  {
  }

  /** The Array arm. */
  method DiffArrays(a: JsonValue, b: JsonValue, force: bool, buf: string) returns (out: string)
    requires a.Array? && b.Array?
    ensures out == buf + ArrayDiff(a, b, force)
    decreases a, 2
  {
    var va, vb := a.elems, b.elems;
    var hasDiff := ArrayHasDiff(a, b);
    if !hasDiff && !force {
      return buf;
    }
    var added: seq<JsonValue> := if |vb| > |va| then vb[|va|..] else [];
    var removed: seq<JsonValue> := if |va| > |vb| then va[|vb|..] else [];
    out := buf + "{";
    out := out + "\"added\":[";
    if |vb| > |va| {
      out := PushRendered(added, out);
    } else {
      assert out == out + RenderList(added);
    }
    out := out + "]";
    out := out + ",\"removed\":[";
    if |va| > |vb| {
      out := PushRendered(removed, out);
    } else {
      assert out == out + RenderList(removed);
    }
    out := out + "]";
    out := PushModified(a, b, out);
    out := out + "}";
    ArrayPushes(buf, RenderList(added), RenderList(removed), ModifiedSection(ElementDiffs(a, b)));
  }

  /** The pushes that write one member: quote, escaped key, `":`, text. */
  method MemberText(k: string, text: string) returns (s: string)
    ensures s == Member(k, text)
  {
    s := "\"";
    s := s + EscapeKey(k);
    s := s + "\":";
    s := s + text;
  }

  /** The key loop of the Object arm: the three lists of members. */
  method CollectMembers(a: JsonValue, b: JsonValue, keys: seq<string>)
    returns (added: seq<string>, removed: seq<string>, modified: seq<string>)
    requires a.Object? && b.Object?
    ensures added == AddedTexts(KeyChanges(a, b, keys))
    ensures removed == RemovedTexts(KeyChanges(a, b, keys))
    ensures modified == ModifiedTexts(KeyChanges(a, b, keys))
    decreases a, 1
  {
    var oa, ob := a.pairs, b.pairs;
    ghost var changes := KeyChanges(a, b, keys);
    added, removed, modified := [], [], [];
    for i := 0 to |keys|
      invariant added == AddedTexts(changes[..i])
      invariant removed == RemovedTexts(changes[..i])
      invariant modified == ModifiedTexts(changes[..i])
    {
      var k := keys[i];
      TextsStep(changes, i);
      var fa, fb := FindKey(oa, k), FindKey(ob, k);
      if fa.Some? && fb.None? {
        var s := MemberText(k, Render(oa[fa.value].1));
        removed := removed + [s];
      } else if fa.None? && fb.Some? {
        var s := MemberText(k, Render(ob[fb.value].1));
        added := added + [s];
      } else if fa.Some? && fb.Some? {
        var subBuf := DiffJsonValue(oa[fa.value].1, ob[fb.value].1, false, false, "");
        assert subBuf == Diff(oa[fa.value].1, ob[fb.value].1, false, false) by {
          assert "" + Diff(oa[fa.value].1, ob[fb.value].1, false, false) == Diff(oa[fa.value].1, ob[fb.value].1, false, false);
        }
        if subBuf != "" {
          var s := MemberText(k, subBuf);
          modified := modified + [s];
        }
      }
    }
    assert changes[..|keys|] == changes;
  }

  lemma Assoc3(x: string, p: string, q: string, r: string)
    ensures ((x + p) + q) + r == x + (p + q + r)
  {
  }

  /** The Object arm: the members collected, then the sections written
      into a scratch string that is appended to `buf` whole. */
  method DiffObjects(a: JsonValue, b: JsonValue, flat: bool, buf: string) returns (out: string)
    requires a.Object? && b.Object?
    ensures out == buf + ObjectDiff(a, b, flat)
    decreases a, 2
  {
    var added, removed, modified := CollectMembers(a, b, UniqueSortedKeys(a.pairs, b.pairs));
    var tmp := "{";
    if added != [] {
      tmp := tmp + "\"added\":{";
      tmp := tmp + Join(added, ",");
      tmp := tmp + "}";
      Assoc3("{", "\"added\":{", Join(added, ","), "}");
    }
    assert tmp == "{" + AddedPart(added);
    ghost var t1 := tmp;
    if removed != [] {
      if added != [] {
        tmp := tmp + ",";
      }
      ghost var t := tmp;
      tmp := tmp + "\"removed\":{";
      tmp := tmp + Join(removed, ",");
      tmp := tmp + "}";
      Assoc3(t, "\"removed\":{", Join(removed, ","), "}");
      AppendAssoc(t1, if added != [] then "," else "", "\"removed\":{" + Join(removed, ",") + "}");
    }
    assert tmp == t1 + RemovedPart(added, removed);
    ghost var t2 := tmp;
    if modified != [] {
      if added != [] || removed != [] {
        tmp := tmp + ",";
      }
      ghost var t := tmp;
      if flat {
        tmp := tmp + Join(modified, ",");
      } else {
        tmp := tmp + "\"modified\":{";
        tmp := tmp + Join(modified, ",");
        tmp := tmp + "}";
        Assoc3(t, "\"modified\":{", Join(modified, ","), "}");
      }
      AppendAssoc(t2, if added != [] || removed != [] then "," else "",
        if flat then Join(modified, ",") else "\"modified\":{" + Join(modified, ",") + "}");
    }
    assert tmp == t2 + ModifiedPart(added, removed, modified, flat);
    tmp := tmp + "}";
    out := buf + tmp;
  }
}
