/** Parses of small inputs: the atoms and arrays of the unit tests of
    `src/json.rs`, and an array nested directly in an array, which the
    stack parser rejects. */
module JsonExamples {
  import opened Wrappers
  import opened Numbers
  import opened Json
  import JsonFacts

  lemma ParseTrue()
    ensures Parse("true") == Ok(Boolean(true))
  {
    var src := "true";
    assert src[0..4] == "true";
    assert Scan(src, ScanState(0, 0, false)) == (Some(Token(0, 4, TokenType.True)), ScanState(4, 4, false));
  }

  lemma ParseEmptyArray()
    ensures Parse("[]") == Ok(Array([]))
  {
    var src := "[]";
    assert Scan(src, ScanState(0, 0, false)) == (Some(Token(0, 1, ArrayStart)), ScanState(1, 1, false));
    assert Scan(src, ScanState(1, 1, false)) == (Some(Token(1, 2, ArrayEnd)), ScanState(2, 2, false));
    var e: seq<JsonValue> := [];
    assert e + [Array([])] == [Array([])];
    assert [Array([])][..0] == [];
    assert SplitAtMarker([Array([])], true) == ([], []);
    assert CloseArray([Array([])]) == [Array([])];
    JsonFacts.ParseFromStep(src, ScanState(0, 0, false), [], Token(0, 1, ArrayStart), ScanState(1, 1, false), [Array([])]);
    JsonFacts.ParseFromStep(src, ScanState(1, 1, false), [Array([])], Token(1, 2, ArrayEnd), ScanState(2, 2, false), [Array([])]);
    JsonFacts.ParseFromEnd(src, [Array([])]);
  }

  lemma ParseFalse()
    ensures Parse("false") == Ok(Boolean(false))
  {
    var src := "false";
    assert src[0..5] == "false";
    assert Scan(src, ScanState(0, 0, false)) == (Some(Token(0, 5, TokenType.False)), ScanState(5, 5, false));
  }

  lemma ParseNull()
    ensures Parse("null") == Ok(JsonValue.Null)
  {
    var src := "null";
    assert src[0..4] == "null";
    assert Scan(src, ScanState(0, 0, false)) == (Some(Token(0, 4, TokenType.Null)), ScanState(4, 4, false));
  }

  /** `[1]`: the element is collected into the array that the `[` pushed. */
  lemma ParseSingleElementArray()
    ensures Parse("[1]") == Ok(Array([JsonValue.Number(Num(false, 1, 0))]))
  {
    var src := "[1]";
    var one := JsonValue.Number(Num(false, 1, 0));
    SingleElementScans();
    SingleElementStacks(one);
    JsonFacts.ParseFromStep(src, ScanState(0, 0, false), [], Token(0, 1, ArrayStart), ScanState(1, 1, false), [Array([])]);
    JsonFacts.ParseFromStep(src, ScanState(1, 1, false), [Array([])], Token(1, 2, TokenType.Number), ScanState(2, 2, false), [Array([]), one]);
    JsonFacts.ParseFromStep(src, ScanState(2, 2, false), [Array([]), one], Token(2, 3, ArrayEnd), ScanState(3, 3, false), [Array([one])]);
  }

  /** The three tokens of `[1]`, and the number token's text. */
  lemma SingleElementScans()
    ensures Scan("[1]", ScanState(0, 0, false)) == (Some(Token(0, 1, ArrayStart)), ScanState(1, 1, false))
    ensures Scan("[1]", ScanState(1, 1, false)) == (Some(Token(1, 2, TokenType.Number)), ScanState(2, 2, false))
    ensures Scan("[1]", ScanState(2, 2, false)) == (Some(Token(2, 3, ArrayEnd)), ScanState(3, 3, false))
    ensures "[1]"[1..2] == "1"
  {
    var src := "[1]";
    assert Scan(src, ScanState(0, 0, false)) == (Some(Token(0, 1, ArrayStart)), ScanState(1, 1, false));
    assert NumberEnd(src, 1) == 2;
    assert Scan(src, ScanState(1, 1, false)) == (Some(Token(1, 2, TokenType.Number)), ScanState(2, 2, false));
    assert src[1..2] == "1";
  }

  /** The stacks `[1]` passes through: the marker, then the number, then the closed array. */
  lemma SingleElementStacks(one: JsonValue)
    requires one == JsonValue.Number(Num(false, 1, 0))
    ensures ApplyToken("[1]", [], Token(0, 1, ArrayStart)) == Ok([Array([])])
    ensures ApplyToken("[1]", [Array([])], Token(1, 2, TokenType.Number)) == Ok([Array([]), one])
    ensures ApplyToken("[1]", [Array([]), one], Token(2, 3, ArrayEnd)) == Ok([Array([one])])
  {
    ParseNumOne();
    assert "[1]"[1..2] == "1";
    var e: seq<JsonValue> := [];
    assert e + [Array([])] == [Array([])];
    assert [Array([])] + [one] == [Array([]), one];
    assert [Array([]), one][..1] == [Array([])];
    assert [Array([])][..0] == [];
    assert SplitAtMarker([Array([])], true) == ([], []);
    assert e + [one] == [one];
    assert SplitAtMarker([Array([]), one], true) == ([], [one]);
    assert CloseArray([Array([]), one]) == [Array([one])];
  }

  lemma ParseNumOne()
    ensures ParseNum("1") == Some(Num(false, 1, 0))
  {
    ParseSign(false, "1");
    ParseWhole(false, "1");
    assert DigitsValue("1") == 1;
  }

  /** `]` after `[[1`: the inner array is closed. */
  lemma CloseInner(one: JsonValue)
    requires !one.Array?
    ensures CloseArray([Array([]), Array([]), one]) == [Array([]), Array([one])]
  {
    var st := [Array([]), Array([]), one];
    assert st[..2] == [Array([]), Array([])];
    assert [Array([]), Array([])][..1] == [Array([])];
    assert SplitAtMarker([Array([]), Array([])], true) == ([Array([])], []);
    assert [] + [one] == [one];
    assert SplitAtMarker(st, true) == ([Array([])], [one]);
  }

  /** `]` after `[[1]`: the finished inner array is taken for the marker. */
  lemma CloseOuter(one: JsonValue)
    ensures CloseArray([Array([]), Array([one])]) == [Array([]), Array([])]
  {
    assert [Array([]), Array([one])][..1] == [Array([])];
  }

  lemma NestedOpen1()
    ensures Parse("[[1]]") == ParseFrom("[[1]]", ScanState(2, 2, false), [Array([]), Array([])])
  {
    var src := "[[1]]";
    assert Scan(src, ScanState(0, 0, false)) == (Some(Token(0, 1, ArrayStart)), ScanState(1, 1, false));
    assert Scan(src, ScanState(1, 1, false)) == (Some(Token(1, 2, ArrayStart)), ScanState(2, 2, false));
    var e: seq<JsonValue> := [];
    assert e + [Array([])] == [Array([])];
    assert [Array([])] + [Array([])] == [Array([]), Array([])];
    JsonFacts.ParseFromStep(src, ScanState(0, 0, false), [], Token(0, 1, ArrayStart), ScanState(1, 1, false), [Array([])]);
    JsonFacts.ParseFromStep(src, ScanState(1, 1, false), [Array([])], Token(1, 2, ArrayStart), ScanState(2, 2, false), [Array([]), Array([])]);
  }

  lemma NestedOpen2()
    ensures ParseFrom("[[1]]", ScanState(2, 2, false), [Array([]), Array([])])
         == ParseFrom("[[1]]", ScanState(3, 3, false), [Array([]), Array([]), JsonValue.Number(Num(false, 1, 0))])
  {
    var src := "[[1]]";
    assert NumberEnd(src, 2) == 3;
    assert Scan(src, ScanState(2, 2, false)) == (Some(Token(2, 3, TokenType.Number)), ScanState(3, 3, false));
    assert src[2..3] == "1";
    ParseNumOne();
    assert [Array([]), Array([])] + [JsonValue.Number(Num(false, 1, 0))]
        == [Array([]), Array([]), JsonValue.Number(Num(false, 1, 0))];
    JsonFacts.ParseFromStep(src, ScanState(2, 2, false), [Array([]), Array([])], Token(2, 3, TokenType.Number), ScanState(3, 3, false), [Array([]), Array([]), JsonValue.Number(Num(false, 1, 0))]);
  }

  lemma NestedClose()
    ensures ParseFrom("[[1]]", ScanState(3, 3, false), [Array([]), Array([]), JsonValue.Number(Num(false, 1, 0))])
         == Err(InvalidStructureGeneral)
  {
    var src := "[[1]]";
    var one := JsonValue.Number(Num(false, 1, 0));
    assert Scan(src, ScanState(3, 3, false)) == (Some(Token(3, 4, ArrayEnd)), ScanState(4, 4, false));
    assert Scan(src, ScanState(4, 4, false)) == (Some(Token(4, 5, ArrayEnd)), ScanState(5, 5, false));
    CloseInner(one);
    CloseOuter(one);
    JsonFacts.ParseFromStep(src, ScanState(3, 3, false), [Array([]), Array([]), one], Token(3, 4, ArrayEnd), ScanState(4, 4, false), [Array([]), Array([one])]);
    JsonFacts.ParseFromStep(src, ScanState(4, 4, false), [Array([]), Array([one])], Token(4, 5, ArrayEnd), ScanState(5, 5, false), [Array([]), Array([])]);
  }

  /** `[[1]]` leaves two entries on the stack, so it is rejected. */
  lemma ParseNestedArray()
    ensures Parse("[[1]]") == Err(InvalidStructureGeneral)
  {
    NestedOpen1();
    NestedOpen2();
    NestedClose();
  }

  /** The string atom: the quotes are stripped. */
  lemma ParseStringValue()
    ensures Parse("\"string_value\"") == Ok(JsonValue.String("string_value"))
  {
    JsonFacts.ParseQuoted("string_value");
    assert "\"" + "string_value" + "\"" == "\"string_value\"";
  }

  lemma DigitsDecimal()
    ensures DigitsValue("123456") == 123456
  {
    assert "123456"[..5] == "12345" && "12345"[..4] == "1234" && "1234"[..3] == "123";
    assert "123"[..2] == "12" && "12"[..1] == "1" && "1"[..0] == "";
  }

  lemma DecimalPieces()
    ensures AllDigits("123") && AllDigits("456")
    ensures "123" + "." + "456" == "123.456"
    ensures "123" + "456" == "123456"
  {
  }

  lemma FractionDecimal()
    ensures ParseUnsigned(false, "123.456") == Some(Num(false, 123456, 3))
  {
    DecimalPieces();
    ParseFraction(false, "123", "456");
    DigitsDecimal();
  }

  /** The number atom 123.456, held exactly. */
  lemma ParseDecimal()
    ensures Parse("123.456") == Ok(JsonValue.Number(Num(false, 123456, 3)))
  {
    JsonFacts.ParseNumberText("123.456");
    ParseSign(false, "123.456");
    assert "" + "123.456" == "123.456";
    FractionDecimal();
  }

  /** The object of the unit tests without its closing `}` (the text is
      written in pieces): the values are never collected, and the parse
      fails with InvalidStructureGeneral. */
  lemma ParseMissingBrace()
    ensures Parse("{\"key\"" + ": \"value\", " + "\"number\": 123, " + "\"boolean\": true, " + "\"null_value\": null")
         == Err(InvalidStructureGeneral)
  {
    var p1, p2, p3, p4 := ": \"value\", ", "\"number\": 123, ", "\"boolean\": true, ", "\"null_value\": null";
    assert JsonFacts.NoClosing(p1) && JsonFacts.NoClosing(p2);
    assert JsonFacts.NoClosing(p3) && JsonFacts.NoClosing(p4);
    JsonFacts.NoClosingConcat(p1, p2);
    JsonFacts.NoClosingConcat(p1 + p2, p3);
    JsonFacts.NoClosingConcat(p1 + p2 + p3, p4);
    JsonFacts.ParseUnclosedObject("key", p1 + p2 + p3 + p4);
    assert "{\"" + "key" + "\"" == "{\"key\"";
    assert "{\"key\"" + p1 + p2 + p3 + p4 == "{\"key\"" + (p1 + p2 + p3 + p4);
  }
}
