/** The unit tests of `src/jsondiff.rs`, stated on the values their inputs
    parse to. */
module JsonDiffExamples {
  import opened Wrappers
  import opened Numbers
  import opened Json
  import opened JsonDiff

  lemma DiffNumbers()
    ensures Diff(JsonValue.Number(Num(false, 1, 0)), JsonValue.Number(Num(false, 2, 0)), false, false)
         == OldNew("1", "2")
  {
    assert RenderNum(Num(false, 1, 0)) == "1";
    assert RenderNum(Num(false, 2, 0)) == "2";
  }

  /** Two different strings without a quote, a backslash or a newline are
      reported between plain quotes, as `"foo"` and `"bar"` are. */
  lemma DiffPlainStrings(x: string, y: string)
    requires x != y
    requires forall k | 0 <= k < |x| :: x[k] != '"' && x[k] != '\\' && x[k] != '\n'
    requires forall k | 0 <= k < |y| :: y[k] != '"' && y[k] != '\\' && y[k] != '\n'
    ensures Diff(JsonValue.String(x), JsonValue.String(y), false, false)
         == OldNew("\"" + x + "\"", "\"" + y + "\"")
  {
    EscapePlain(x);
    EscapePlain(y);
    DiffScalar(JsonValue.String(x), JsonValue.String(y), false, false);
  }

  /** The number written as the single decimal digit `d`. */
  function Digit(d: nat): (v: JsonValue)
    requires d < 10
    ensures v.Number? && Render(v) == [DigitChar(d)]
  {
    JsonValue.Number(Num(false, d, 0))
  }

  /** `[1,2]` against `[1,2,3]`, forced: the 3 is added, nothing removed. */
  lemma DiffArrayAdded()
    ensures Diff(JsonValue.Array([Digit(1), Digit(2)]), JsonValue.Array([Digit(1), Digit(2), Digit(3)]), true, false)
         == ArrayText("3", "", "")
  {
    var a, b := JsonValue.Array([Digit(1), Digit(2)]), JsonValue.Array([Digit(1), Digit(2), Digit(3)]);
    var mods := ElementDiffs(a, b);
    NonEmptyNone(mods);
    assert b.elems[|a.elems|..] == [Digit(3)];
    assert Renders([Digit(3)]) == ["3"];
    assert Renders([]) == [];
  }

  /** `[1,2,3]` against `[1,2]`, forced: the 3 is removed, nothing added. */
  lemma DiffArrayRemoved()
    ensures Diff(JsonValue.Array([Digit(1), Digit(2), Digit(3)]), JsonValue.Array([Digit(1), Digit(2)]), true, false)
         == ArrayText("", "3", "")
  {
    var a, b := JsonValue.Array([Digit(1), Digit(2), Digit(3)]), JsonValue.Array([Digit(1), Digit(2)]);
    var mods := ElementDiffs(a, b);
    NonEmptyNone(mods);
    assert a.elems[|b.elems|..] == [Digit(3)];
    assert Renders([Digit(3)]) == ["3"];
    assert Renders([]) == [];
  }

  /** `[1,2,3]` against `[1,4,3]`, forced: both lists empty and one
      modified entry for the middle position. */
  lemma DiffArrayModified()
    ensures Diff(JsonValue.Array([Digit(1), Digit(2), Digit(3)]), JsonValue.Array([Digit(1), Digit(4), Digit(3)]), true, false)
         == ArrayText("", "", ",\"modified\":[" + OldNew("2", "4") + "]")
  {
    var a, b := JsonValue.Array([Digit(1), Digit(2), Digit(3)]), JsonValue.Array([Digit(1), Digit(4), Digit(3)]);
    var mods := ElementDiffs(a, b);
    assert mods == ["", OldNew("2", "4"), ""];
    var m := OldNew("2", "4");
    assert NonEmpty([""]) == [] by { assert [""][..0] == []; }
    assert NonEmpty(["", m]) == [m] by { assert ["", m][..1] == [""]; }
    assert NonEmpty(mods) == [m] by { assert mods[..2] == ["", m]; }
    assert Renders([]) == [];
  }

  /** Two objects whose keys are `k1`, or `k1` then `k2`, and not both
      only `k1`: their key union is `k1`, `k2`. */
  lemma KeysTwo(oa: seq<(string, JsonValue)>, ob: seq<(string, JsonValue)>, k1: string, k2: string)
    requires Below(k1, k2)
    requires Keys(oa) == [k1] || Keys(oa) == [k1, k2]
    requires Keys(ob) == [k1] || Keys(ob) == [k1, k2]
    requires Keys(oa) == [k1, k2] || Keys(ob) == [k1, k2]
    ensures UniqueSortedKeys(oa, ob) == [k1, k2]
  {
    var u := UniqueSortedKeys(oa, ob);
    assert forall k :: k in u <==> k in [k1, k2];
    SortedListingUnique(u, [k1, k2]);
  }

  /** A kept key followed by one change: the sections hold that change only. */
  lemma KeptThen(c: KeyChange)
    ensures AddedTexts([Kept, c]) == if c.Added? then [c.text] else []
    ensures RemovedTexts([Kept, c]) == if c.Removed? then [c.text] else []
    ensures ModifiedTexts([Kept, c]) == if c.Modified? then [c.text] else []
  {
    assert [Kept, c][..1] == [Kept];
    assert [Kept][..0] == [];
  }

  /** Key `a` holds the same 1 on both sides, so it is kept. */
  lemma KeptA(a: JsonValue, b: JsonValue)
    requires a.Object? && b.Object? && |a.pairs| > 0 && |b.pairs| > 0
    requires a.pairs[0] == ("a", Digit(1)) && b.pairs[0] == ("a", Digit(1))
    ensures KeyDiff(a, b, "a") == Kept
  {
    assert FindKey(a.pairs, "a") == Some(0);
    assert FindKey(b.pairs, "a") == Some(0);
  }

  /** The object `{"a":1,"b":v}`. */
  function AB(v: JsonValue): (o: JsonValue)
    ensures o.Object? && Keys(o.pairs) == ["a", "b"]
  {
    JsonValue.Object([("a", Digit(1)), ("b", v)])
  }

  /** The object `{"a":1}`. */
  function A(): (o: JsonValue)
    ensures o.Object? && Keys(o.pairs) == ["a"]
  {
    JsonValue.Object([("a", Digit(1))])
  }

  lemma FindB(v: JsonValue)
    ensures FindKey(AB(v).pairs, "b") == Some(1)
    ensures FindKey(A().pairs, "b") == None
  {
    FindKeyIn(AB(v).pairs, "b");
    FindKeyIn(A().pairs, "b");
  }

  lemma MemberB(text: string)
    ensures Member("b", text) == "\"b\":" + text
  {
    assert EscapeKey("b") == "b";
  }

  /** An object diff with one section of one member. */
  lemma AddedOnly(m: string)
    ensures ObjectText([m], [], [], false) == "{\"added\":{" + m + "}}"
  {
    assert Join([m], ",") == m;
    assert AddedPart([m]) == "\"added\":{" + m + "}";
    assert RemovedPart([m], []) == "";
    assert ModifiedPart([m], [], [], false) == "";
  }

  lemma RemovedOnly(m: string)
    ensures ObjectText([], [m], [], false) == "{\"removed\":{" + m + "}}"
  {
    assert Join([m], ",") == m;
    assert AddedPart([]) == "";
    assert RemovedPart([], [m]) == "\"removed\":{" + m + "}";
    assert ModifiedPart([], [m], [], false) == "";
  }

  lemma ModifiedOnly(m: string)
    ensures ObjectText([], [], [m], false) == "{\"modified\":{" + m + "}}"
  {
    assert Join([m], ",") == m;
    assert AddedPart([]) == "";
    assert RemovedPart([], []) == "";
    assert ModifiedPart([], [], [m], false) == "\"modified\":{" + m + "}";
  }

  /** The object diff of `a` and `b` when their keys are `k1` then `k2`,
      `k1` is kept and `k2` makes change `c`. */
  lemma ObjectDiffTwo(a: JsonValue, b: JsonValue, k1: string, k2: string, c: KeyChange, flat: bool)
    requires a.Object? && b.Object?
    requires UniqueSortedKeys(a.pairs, b.pairs) == [k1, k2]
    requires KeyDiff(a, b, k1) == Kept && KeyDiff(a, b, k2) == c
    ensures Diff(a, b, false, flat) ==
      ObjectText(if c.Added? then [c.text] else [], if c.Removed? then [c.text] else [],
                 if c.Modified? then [c.text] else [], flat)
  {
    assert Diff(a, b, false, flat) == ObjectDiff(a, b, flat);
    var changes := KeyChanges(a, b, [k1, k2]);
    assert changes == [Kept, c] by {
      assert |changes| == 2 && changes[0] == Kept && changes[1] == c;
    }
    KeptThen(c);
  }

  lemma AddedB()
    ensures KeyDiff(A(), AB(Digit(2)), "b") == Added(Member("b", "2"))
  {
    FindB(Digit(2));
  }

  lemma RemovedB()
    ensures KeyDiff(AB(Digit(2)), A(), "b") == Removed(Member("b", "2"))
  {
    FindB(Digit(2));
  }

  lemma MemberB2()
    ensures "{\"added\":{" + Member("b", "2") + "}}" == "{\"added\":{\"b\":2}}"
    ensures "{\"removed\":{" + Member("b", "2") + "}}" == "{\"removed\":{\"b\":2}}"
  {
    MemberB("2");
    assert "\"b\":" + "2" == "\"b\":2";
  }

  /** `{"a":1}` against `{"a":1,"b":2}`: only an added section, holding b. */
  lemma DiffObjectAdded()
    ensures Diff(A(), AB(Digit(2)), false, false) == "{\"added\":{\"b\":2}}"
  {
    var a, b := A(), AB(Digit(2));
    KeysTwo(a.pairs, b.pairs, "a", "b");
    KeptA(a, b);
    AddedB();
    ObjectDiffTwo(a, b, "a", "b", Added(Member("b", "2")), false);
    AddedOnly(Member("b", "2"));
    MemberB2();
  }

  /** `{"a":1,"b":2}` against `{"a":1}`: only a removed section, holding b. */
  lemma DiffObjectRemoved()
    ensures Diff(AB(Digit(2)), A(), false, false) == "{\"removed\":{\"b\":2}}"
  {
    var a, b := AB(Digit(2)), A();
    KeysTwo(a.pairs, b.pairs, "a", "b");
    KeptA(a, b);
    RemovedB();
    ObjectDiffTwo(a, b, "a", "b", Removed(Member("b", "2")), false);
    RemovedOnly(Member("b", "2"));
    MemberB2();
  }

  lemma ModifiedLiteral(sub: string)
    ensures "{\"modified\":{" + Member("b", sub) + "}}" == "{\"modified\":{\"b\":" + sub + "}}"
  {
    MemberB(sub);
    assert "{\"modified\":{" + "\"b\":" == "{\"modified\":{\"b\":";
    assert "{\"modified\":{" + ("\"b\":" + sub) + "}}" == ("{\"modified\":{" + "\"b\":") + sub + "}}";
  }

  lemma ModifiedB()
    ensures KeyDiff(AB(Digit(2)), AB(Digit(3)), "b") == Modified(Member("b", OldNew("2", "3")))
  {
    FindB(Digit(2));
    FindB(Digit(3));
    assert Diff(Digit(2), Digit(3), false, false) == OldNew("2", "3");
  }

  /** `{"a":1,"b":2}` against `{"a":1,"b":3}`: only a modified section,
      holding b with its old and new value. */
  lemma DiffObjectModified()
    ensures Diff(AB(Digit(2)), AB(Digit(3)), false, false)
         == "{\"modified\":{\"b\":" + OldNew("2", "3") + "}}"
  {
    var a, b := AB(Digit(2)), AB(Digit(3));
    KeysTwo(a.pairs, b.pairs, "a", "b");
    KeptA(a, b);
    ModifiedB();
    var sub := OldNew("2", "3");
    ObjectDiffTwo(a, b, "a", "b", Modified(Member("b", sub)), false);
    ModifiedOnly(Member("b", sub));
    ModifiedLiteral(sub);
  }


  // The collection diffs in the unit tests of `src/lib.rs`, which that
  // file writes after the property name.

  /** The record `{"id":n}`. */
  function Id(n: nat): (o: JsonValue)
    ensures o.Object?
  {
    JsonValue.Object([("id", JsonValue.Number(Num(false, n, 0)))])
  }

  lemma RenderId(n: nat)
    ensures Render(Id(n)) == "{\"id\":" + NatDigits(n) + "}"
  {
    var t := NatDigits(n);
    assert Render(Id(n).pairs[0].1) == t by { assert "" + t == t; }
    assert EscapeKey("id") == "id";
    assert Member("id", t) == "\"id\":" + t;
    assert Render(Id(n)) == "{" + Join([Member("id", t)], ",") + "}";
  }

  /** One taxon added to an empty collection. */
  lemma DiffTaxonAdded()
    ensures Diff(JsonValue.Array([]), JsonValue.Array([Id(1)]), true, false) == ArrayText("{\"id\":1}", "", "")
  {
    var a, b := JsonValue.Array([]), JsonValue.Array([Id(1)]);
    assert ElementDiffs(a, b) == [];
    assert b.elems[|a.elems|..] == [Id(1)];
    RenderId(1);
    assert NatDigits(1) == "1";
    assert "{\"id\":" + "1" + "}" == "{\"id\":1}";
    assert Renders([Id(1)]) == ["{\"id\":1}"];
    assert Renders([]) == [];
  }

  /** The only book removed. */
  lemma DiffBookRemoved()
    ensures Diff(JsonValue.Array([Id(42)]), JsonValue.Array([]), true, false) == ArrayText("", "{\"id\":42}", "")
  {
    var a, b := JsonValue.Array([Id(42)]), JsonValue.Array([]);
    assert ElementDiffs(a, b) == [];
    assert a.elems[|b.elems|..] == [Id(42)];
    RenderId(42);
    assert NatDigits(42) == "42";
    assert "{\"id\":" + "42" + "}" == "{\"id\":42}";
    assert Renders([Id(42)]) == ["{\"id\":42}"];
    assert Renders([]) == [];
  }

  /** The state record `{"id":1,"name":name}`. */
  function State(name: string): (o: JsonValue)
    ensures o.Object? && Keys(o.pairs) == ["id", "name"]
  {
    JsonValue.Object([("id", Digit(1)), ("name", JsonValue.String(name))])
  }

  lemma StateKeys(x: string, y: string)
    ensures UniqueSortedKeys(State(x).pairs, State(y).pairs) == ["id", "name"]
    ensures KeyDiff(State(x), State(y), "id") == Kept
  {
    assert Below("id", "name");
    KeysTwo(State(x).pairs, State(y).pairs, "id", "name");
    assert FindKey(State(x).pairs, "id") == Some(0);
    assert FindKey(State(y).pairs, "id") == Some(0);
  }

  lemma StateName()
    ensures KeyDiff(State("A"), State("B"), "name") == Modified(Member("name", OldNew("\"A\"", "\"B\"")))
  {
    FindKeyIn(State("A").pairs, "name");
    FindKeyIn(State("B").pairs, "name");
    assert FindKey(State("A").pairs, "name") == Some(1);
    assert FindKey(State("B").pairs, "name") == Some(1);
    EscapePlain("A");
    EscapePlain("B");
  }

  /** A flattened object diff with one modified member: the member alone
      between braces. */
  lemma FlatModifiedOnly(m: string)
    ensures ObjectText([], [], [m], true) == "{" + m + "}"
  {
    assert Join([m], ",") == m;
    assert AddedPart([]) == "";
    assert RemovedPart([], []) == "";
  }

  /** The two states as elements of an array: the flattened object diff. */
  lemma StateElement()
    ensures ElementDiff(State("A"), State("B")) == "{" + Member("name", OldNew("\"A\"", "\"B\"")) + "}"
  {
    var m := Member("name", OldNew("\"A\"", "\"B\""));
    StateKeys("A", "B");
    StateName();
    ObjectDiffTwo(State("A"), State("B"), "id", "name", Modified(m), true);
    FlatModifiedOnly(m);
  }

  /** Two one-element arrays whose elements differ, forced: both lists
      empty and the element diff as the one modified entry. */
  lemma SingleModified(x: JsonValue, y: JsonValue)
    requires ElementDiff(x, y) != ""
    ensures Diff(JsonValue.Array([x]), JsonValue.Array([y]), true, false)
         == ArrayText("", "", ModifiedSection([ElementDiff(x, y)]))
  {
    var a, b := JsonValue.Array([x]), JsonValue.Array([y]);
    assert Diff(a, b, true, false) == ArrayDiff(a, b, true);
    assert ElementDiffs(a, b) == [ElementDiff(x, y)];
    assert Renders([]) == [];
  }

  /** The two states differ in their name only; the array diff reports the
      position with the flattened object diff, naming the one member. */
  lemma DiffStateModified()
    ensures Diff(JsonValue.Array([State("A")]), JsonValue.Array([State("B")]), true, false)
         == ArrayText("", "", ModifiedSection(["{" + Member("name", OldNew("\"A\"", "\"B\"")) + "}"]))
  {
    StateElement();
    SingleModified(State("A"), State("B"));
  }
}
