/** The tokenizer and the stack parser of `src/json.rs`.

    The input text is a `string` in which each character stands for one byte
    of the UTF-8 input; only ASCII bytes are ever inspected. Tokens are spans
    of that text, and string values are sub-sequences of it. */
module Json {
  import opened Wrappers
  import opened Numbers

  // ---------------------------------------------------------------------
  // Tokens
  // ---------------------------------------------------------------------

  datatype TokenType =
    | String | Number | True | False | Null
    | ObjectStart | ObjectEnd | ArrayStart | ArrayEnd | Comma | Colon

  /** A span `[start, end)` of the input and what it holds. */
  datatype Token = Token(start: nat, end: nat, tokenType: TokenType)

  /** The tokenizer's three mutable fields: the cursor, the start of the
      current string and whether the cursor is inside a string. */
  datatype ScanState = ScanState(i: nat, start: nat, inString: bool)

  predicate ScanValid(src: string, st: ScanState) {
    st.start <= st.i <= |src|
  }

  /** The one-byte structural tokens. */
  function PunctuationType(c: char): Option<TokenType> {
    match c
    case '{' => Some(ObjectStart)
    case '}' => Some(ObjectEnd)
    case '[' => Some(ArrayStart)
    case ']' => Some(ArrayEnd)
    case ',' => Some(Comma)
    case ':' => Some(Colon)
    case _ => None
  }

  /** `lit` lies wholly inside the input at position `i`. */
  predicate LiteralAt(src: string, i: nat, lit: string) {
    i + |lit| <= |src| && src[i..i + |lit|] == lit
  }

  predicate NumberChar(c: char) {
    IsDigit(c) || c == '.'
  }

  /** The end of a Number token whose last byte so far is at `j`: the scan
      extends over following digits and points only. */
  function NumberEnd(src: string, j: nat): (e: nat)
    requires j < |src|
    ensures j < e <= |src|
    ensures forall k | j < k < e :: NumberChar(src[k])
    ensures e < |src| ==> !NumberChar(src[e])
    decreases |src| - j
  {
    if j + 1 < |src| && NumberChar(src[j + 1]) then NumberEnd(src, j + 1) else j + 1
  }

  /** What one pass of the loop in `Tokenizer::next` does with the byte at
      the cursor: either it returns a token and the state after it, or it
      moves on to the next state. */
  datatype Step = Yield(token: Token, next: ScanState) | Continue(next: ScanState)

  function ScanStep(src: string, st: ScanState): (r: Step)
    requires ScanValid(src, st) && st.i < |src|
    ensures ScanValid(src, r.next) && r.next.i > st.i
    ensures r.Yield? ==> !r.next.inString && r.token.end == r.next.i
    ensures r.Yield? ==> (if st.inString then st.start else st.i) <= r.token.start < r.token.end
    ensures r.Continue? ==> r.next.inString == (st.inString != (src[st.i] == '"'))
    ensures r.Continue? && r.next.inString ==> r.next.start == (if st.inString then st.start else st.i)
  {
    var i, c := st.i, src[st.i];
    if c == '"' && !st.inString then Continue(ScanState(i + 1, i, true))
    else if c == '"' then Yield(Token(st.start, i + 1, TokenType.String), ScanState(i + 1, i + 1, false))
    else if st.inString then Continue(ScanState(i + 1, st.start, true))
    else if PunctuationType(c).Some? then
      Yield(Token(i, i + 1, PunctuationType(c).value), ScanState(i + 1, i + 1, false))
    else if LiteralAt(src, i, "true") then Yield(Token(i, i + 4, True), ScanState(i + 4, i + 4, false))
    else if LiteralAt(src, i, "false") then Yield(Token(i, i + 5, False), ScanState(i + 5, i + 5, false))
    else if LiteralAt(src, i, "null") then Yield(Token(i, i + 4, TokenType.Null), ScanState(i + 4, i + 4, false))
    else if IsDigit(c) || c == '-' then
      var e := NumberEnd(src, i);
      Yield(Token(i, e, TokenType.Number), ScanState(e, e, false))
    else Continue(ScanState(i + 1, st.start, false))
  }

  /** One call of `Tokenizer::next` from state `st`: the token it yields (if
      any) and the state it leaves behind. */
  function Scan(src: string, st: ScanState): (r: (Option<Token>, ScanState))
    requires ScanValid(src, st)
    ensures ScanValid(src, r.1) && r.1.i >= st.i
    ensures r.0.Some? ==> !r.1.inString && r.0.value.end == r.1.i > st.i
    ensures r.0.Some? ==> (if st.inString then st.start else st.i) <= r.0.value.start < r.0.value.end
    ensures r.0.None? ==> r.1.i == |src|
    ensures st.i == |src| ==> r.0.None?
    decreases |src| - st.i
  {
    if st.i == |src| then (None, st)
    else
      match ScanStep(src, st)
      case Yield(t, next) => (Some(t), next)
      case Continue(next) => Scan(src, next)
  }

  lemma LiteralFirst(src: string, i: nat, lit: string)
    requires |lit| > 0
    ensures LiteralAt(src, i, lit) ==> i < |src| && src[i] == lit[0]
  {
    if LiteralAt(src, i, lit) {
      assert src[i..i + |lit|][0] == src[i];
    }
  }

  /** The tokens `next` yields from state `st` until it first yields `None`. */
  function TokensFrom(src: string, st: ScanState): seq<Token>
    requires ScanValid(src, st)
    decreases |src| - st.i
  {
    var r := Scan(src, st);
    if r.0.None? then [] else [r.0.value] + TokensFrom(src, r.1)
  }

  function Tokens(src: string): seq<Token> {
    TokensFrom(src, ScanState(0, 0, false))
  }

  class Tokenizer {
    const src: string
    var i: nat
    var start: nat
    var inString: bool

    function State(): ScanState
      reads this
    {
      ScanState(i, start, inString)
    }

    ghost predicate Valid()
      reads this
    {
      ScanValid(src, State())
    }

    constructor (input: string)
      ensures src == input && State() == ScanState(0, 0, false) && Valid()
    {
      src := input;
      i, start, inString := 0, 0, false;
    }

    /** `Tokenizer::next`: runs the byte-by-byte loop until a pass yields a
        token or the input is exhausted. */
    method Next() returns (token: Option<Token>)
      requires Valid()
      modifies this
      ensures Valid()
      ensures (token, State()) == Scan(src, old(State()))
    {
      while i < |src|
        invariant Valid()
        invariant Scan(src, State()) == Scan(src, old(State()))
        decreases |src| - i
      {
        var t := Pass();
        if t.Some? {
          return t;
        }
      }
      token := None;
    }

    /** One pass of the loop in `next`: the `match` on the byte at the
        cursor, followed by the cursor increment when no token is returned. */
    method Pass() returns (token: Option<Token>)
      requires Valid() && i < |src|
      modifies this
      ensures Valid()
      ensures match ScanStep(src, old(State()))
        case Yield(t, next) => token == Some(t) && State() == next
        case Continue(next) => token == None && State() == next
    {
      var c := src[i];
      if c == '"' && !inString {
        inString := true;
        start := i;
      } else if c == '"' && inString {
        token := Some(Token(start, i + 1, TokenType.String));
        inString := false;
        start := i + 1;
        i := i + 1;
        return;
      } else if !inString && PunctuationType(c).Some? {
        // `{`, `}`, `[`, `]`, `,` and `:` each yield their own one-byte token
        token := Some(Token(i, i + 1, PunctuationType(c).value));
        start := i + 1;
        i := i + 1;
        return;
      } else if c == 't' && !inString && i + 3 < |src| && src[i..i + 4] == "true" {
        token := Some(Token(i, i + 4, True));
        i := i + 4;
        start := i;
        return;
      } else if c == 'f' && !inString && i + 4 < |src| && src[i..i + 5] == "false" {
        LiteralFirst(src, i, "true");
        token := Some(Token(i, i + 5, False));
        i := i + 5;
        start := i;
        return;
      } else if c == 'n' && !inString && i + 3 < |src| && src[i..i + 4] == "null" {
        LiteralFirst(src, i, "true");
        LiteralFirst(src, i, "false");
        token := Some(Token(i, i + 4, TokenType.Null));
        i := i + 4;
        start := i;
        return;
      } else if !inString && (IsDigit(c) || c == '-') {
        LiteralFirst(src, i, "true");
        LiteralFirst(src, i, "false");
        LiteralFirst(src, i, "null");
        var numStart := i;
        while i + 1 < |src| && (IsDigit(src[i + 1]) || src[i + 1] == '.')
          invariant numStart <= i < |src| && !inString
          invariant NumberEnd(src, i) == NumberEnd(src, numStart)
          decreases |src| - i
        {
          i := i + 1;
        }
        token := Some(Token(numStart, i + 1, TokenType.Number));
        i := i + 1;
        start := i;
        return;
      } else if !inString {
        LiteralFirst(src, i, "true");
        LiteralFirst(src, i, "false");
        LiteralFirst(src, i, "null");
      }
      i := i + 1;
      token := None;
    }
  }

  // ---------------------------------------------------------------------
  // Values and the stack parser
  // ---------------------------------------------------------------------

  datatype JsonValue =
    | String(s: string)
    | Number(n: Num)
    | Boolean(b: bool)
    | Null
    | Array(elems: seq<JsonValue>)
    | Object(pairs: seq<(string, JsonValue)>)

  datatype JsonParserErrorType = InvalidStructureObjectKey | InvalidStructureGeneral

  function Reversed<T>(s: seq<T>): (r: seq<T>)
    ensures |r| == |s|
  {
    if s == [] then [] else Reversed(s[1..]) + [s[0]]
  }

  /** The text of a String token with one leading and one trailing quote
      removed, each only when present. */
  function StripQuotes(s: string): string {
    var s1 := if |s| > 0 && s[0] == '"' then s[1..] else s;
    if |s1| > 0 && s1[|s1| - 1] == '"' then s1[..|s1| - 1] else s1
  }

  /** The stack entry that ends an ArrayEnd (`forArray`) or ObjectEnd pop loop:
      any value of the Array, respectively Object, variant. */
  predicate IsMarker(v: JsonValue, forArray: bool) {
    if forArray then v.Array? else v.Object?
  }

  /** The pop loop of ArrayEnd/ObjectEnd: the stack left below the first
      marker from the top (which is discarded), and the values above it in
      source order. Without a marker the whole stack is collected. */
  function SplitAtMarker(stack: seq<JsonValue>, forArray: bool): (r: (seq<JsonValue>, seq<JsonValue>))
    decreases |stack|
  {
    if stack == [] then ([], [])
    else if IsMarker(stack[|stack| - 1], forArray) then (stack[..|stack| - 1], [])
    else
      var r := SplitAtMarker(stack[..|stack| - 1], forArray);
      (r.0, r.1 + [stack[|stack| - 1]])
  }

  /** Appends `tail` to the pairs of a successful pairing. */
  function AppendPairs(r: Result<seq<(string, JsonValue)>, JsonParserErrorType>, tail: seq<(string, JsonValue)>)
    : Result<seq<(string, JsonValue)>, JsonParserErrorType>
  {
    match r
    case Ok(ps) => Ok(ps + tail)
    case Err(e) => Err(e)
  }

  /** The pairing loop of ObjectEnd: (key, value) pairs taken from the end,
      in source order; an odd leftover at the front is dropped. */
  function PairUp(vals: seq<JsonValue>): Result<seq<(string, JsonValue)>, JsonParserErrorType>
    decreases |vals|
  {
    if |vals| < 2 then Ok([])
    else
      var key, value := vals[|vals| - 2], vals[|vals| - 1];
      if !key.String? then Err(InvalidStructureObjectKey)
      else AppendPairs(PairUp(vals[..|vals| - 2]), [(key.s, value)])
  }

  function CloseArray(stack: seq<JsonValue>): seq<JsonValue> {
    var r := SplitAtMarker(stack, true);
    r.0 + [Array(r.1)]
  }

  function CloseObject(stack: seq<JsonValue>): Result<seq<JsonValue>, JsonParserErrorType> {
    var r := SplitAtMarker(stack, false);
    match PairUp(r.1)
    case Ok(pairs) => Ok(r.0 + [Object(pairs)])
    case Err(e) => Err(e)
  }

  /** What one token does to the parse stack. */
  function ApplyToken(src: string, stack: seq<JsonValue>, t: Token): Result<seq<JsonValue>, JsonParserErrorType>
    requires t.start <= t.end <= |src|
  {
    match t.tokenType
    case String => Ok(stack + [JsonValue.String(StripQuotes(src[t.start..t.end]))])
    case Number =>
      (match ParseNum(src[t.start..t.end])
       case Some(n) => Ok(stack + [JsonValue.Number(n)])
       case None => Err(InvalidStructureGeneral))
    case True => Ok(stack + [Boolean(true)])
    case False => Ok(stack + [Boolean(false)])
    case Null => Ok(stack + [JsonValue.Null])
    case Comma => Ok(stack)
    case Colon => Ok(stack)
    case ArrayStart => Ok(stack + [Array([])])
    case ArrayEnd => Ok(CloseArray(stack))
    case ObjectStart => Ok(stack + [Object([])])
    case ObjectEnd => CloseObject(stack)
  }

  /** The parse of the tokens that remain from tokenizer state `st`, with
      `stack` as the stack built so far. */
  function ParseFrom(src: string, st: ScanState, stack: seq<JsonValue>): Result<JsonValue, JsonParserErrorType>
    requires ScanValid(src, st)
    decreases |src| - st.i
  {
    var r := Scan(src, st);
    match r.0
    case None => if |stack| == 1 then Ok(stack[0]) else Err(InvalidStructureGeneral)
    case Some(t) =>
      match ApplyToken(src, stack, t)
      case Err(e) => Err(e)
      case Ok(stack') => ParseFrom(src, r.1, stack')
  }

  /** `parse_json`. */
  function Parse(src: string): Result<JsonValue, JsonParserErrorType> {
    ParseFrom(src, ScanState(0, 0, false), [])
  }

  lemma {:induction false} ReversedSnoc<T>(s: seq<T>, x: T)
    ensures Reversed(s + [x]) == [x] + Reversed(s)
  {
    if s != [] {
      assert (s + [x])[1..] == s[1..] + [x];
      ReversedSnoc(s[1..], x);
    }
  }

  lemma AppendPairsNil(r: Result<seq<(string, JsonValue)>, JsonParserErrorType>)
    ensures AppendPairs(r, Reversed([])) == r
  {
    if r.Ok? {
      assert r.value + [] == r.value;
    }
  }

  lemma AppendPairsAssoc(r: Result<seq<(string, JsonValue)>, JsonParserErrorType>, a: seq<(string, JsonValue)>, b: seq<(string, JsonValue)>)
    ensures AppendPairs(AppendPairs(r, a), b) == AppendPairs(r, a + b)
  {
    if r.Ok? {
      assert r.value + a + b == r.value + (a + b);
    }
  }

  /** The ArrayEnd pop loop followed by `reverse` and the push. */
  method PopArray(stack: seq<JsonValue>) returns (stack': seq<JsonValue>)
    ensures stack' == CloseArray(stack)
  {
    var s := stack;
    var elems: seq<JsonValue> := [];
    var found := false;
    assert SplitAtMarker(s, true).1 + Reversed(elems) == SplitAtMarker(s, true).1;
    while !found && |s| > 0
      invariant !found ==>
        SplitAtMarker(stack, true) == (SplitAtMarker(s, true).0, SplitAtMarker(s, true).1 + Reversed(elems))
      invariant found ==> SplitAtMarker(stack, true) == (s, Reversed(elems))
      decreases |s|, !found
    {
      var val := s[|s| - 1];
      ghost var before := s;
      s := s[..|s| - 1];
      if val.Array? {
        assert SplitAtMarker(before, true) == (s, []);
        assert [] + Reversed(elems) == Reversed(elems);
        found := true;
      } else {
        assert SplitAtMarker(before, true) == (SplitAtMarker(s, true).0, SplitAtMarker(s, true).1 + [val]);
        ReversedSnoc(elems, val);
        assert SplitAtMarker(s, true).1 + [val] + Reversed(elems) == SplitAtMarker(s, true).1 + Reversed(elems + [val]);
        elems := elems + [val];
      }
    }
    if !found {
      assert SplitAtMarker(s, true) == ([], []);
      assert [] + Reversed(elems) == Reversed(elems);
    }
    elems := Reversed(elems);
    stack' := s + [Array(elems)];
  }

  /** The ObjectEnd pop loop, `reverse`, the pairing loop and the push. */
  method PopObject(stack: seq<JsonValue>) returns (r: Result<seq<JsonValue>, JsonParserErrorType>)
    ensures r == CloseObject(stack)
  {
    var s := stack;
    var tempVals: seq<JsonValue> := [];
    var found := false;
    assert SplitAtMarker(s, false).1 + Reversed(tempVals) == SplitAtMarker(s, false).1;
    while !found && |s| > 0
      invariant !found ==>
        SplitAtMarker(stack, false) == (SplitAtMarker(s, false).0, SplitAtMarker(s, false).1 + Reversed(tempVals))
      invariant found ==> SplitAtMarker(stack, false) == (s, Reversed(tempVals))
      decreases |s|, !found
    {
      var val := s[|s| - 1];
      ghost var before := s;
      s := s[..|s| - 1];
      if val.Object? {
        assert SplitAtMarker(before, false) == (s, []);
        assert [] + Reversed(tempVals) == Reversed(tempVals);
        found := true;
      } else {
        assert SplitAtMarker(before, false) == (SplitAtMarker(s, false).0, SplitAtMarker(s, false).1 + [val]);
        ReversedSnoc(tempVals, val);
        assert SplitAtMarker(s, false).1 + [val] + Reversed(tempVals) == SplitAtMarker(s, false).1 + Reversed(tempVals + [val]);
        tempVals := tempVals + [val];
      }
    }
    if !found {
      assert SplitAtMarker(s, false) == ([], []);
      assert [] + Reversed(tempVals) == Reversed(tempVals);
    }
    tempVals := Reversed(tempVals);
    ghost var vals := tempVals;
    assert SplitAtMarker(stack, false) == (s, vals);
    var pairs: seq<(string, JsonValue)> := [];
    AppendPairsNil(PairUp(vals));
    while |tempVals| >= 2
      invariant PairUp(vals) == AppendPairs(PairUp(tempVals), Reversed(pairs))
      decreases |tempVals|
    {
      var value := tempVals[|tempVals| - 1];
      var key := tempVals[|tempVals| - 2];
      ghost var before := tempVals;
      tempVals := tempVals[..|tempVals| - 2];
      assert key.String? ==> PairUp(before) == AppendPairs(PairUp(tempVals), [(key.s, value)]);
      if !key.String? {
        assert PairUp(before) == Err(InvalidStructureObjectKey);
        return Err(InvalidStructureObjectKey);
      }
      AppendPairsAssoc(PairUp(tempVals), [(key.s, value)], Reversed(pairs));
      ReversedSnoc(pairs, (key.s, value));
      pairs := pairs + [(key.s, value)];
    }
    assert PairUp(tempVals) == Ok([]);
    assert [] + Reversed(pairs) == Reversed(pairs);
    pairs := Reversed(pairs);
    r := Ok(s + [Object(pairs)]);
  }

  /** `parse_json`, driving a `Tokenizer` over an explicit value stack. */
  method ParseJson(input: string) returns (r: Result<JsonValue, JsonParserErrorType>)
    ensures r == Parse(input)
  {
    var tokenizer := new Tokenizer(input);
    var stack: seq<JsonValue> := [];
    while true
      invariant tokenizer.Valid() && tokenizer.src == input
      invariant ParseFrom(input, tokenizer.State(), stack) == Parse(input)
      decreases |input| - tokenizer.i
    {
      var token := tokenizer.Next();
      if token.None? {
        break;
      }
      var t := token.value;
      match t.tokenType {
        case String =>
          var s := input[t.start..t.end];
          if |s| > 0 && s[0] == '"' {
            s := s[1..];
          }
          if |s| > 0 && s[|s| - 1] == '"' {
            s := s[..|s| - 1];
          }
          stack := stack + [JsonValue.String(s)];
        case Number =>
          var num := ParseNum(input[t.start..t.end]);
          if num.None? {
            return Err(InvalidStructureGeneral);
          }
          stack := stack + [JsonValue.Number(num.value)];
        case True =>
          stack := stack + [Boolean(true)];
        case False =>
          stack := stack + [Boolean(false)];
        case Null =>
          stack := stack + [JsonValue.Null];
        case Comma =>
        case Colon =>
        case ArrayStart =>
          stack := stack + [Array([])];
        case ArrayEnd =>
          stack := PopArray(stack);
        case ObjectStart =>
          stack := stack + [Object([])];
        case ObjectEnd =>
          var closed := PopObject(stack);
          if closed.Err? {
            return Err(closed.error);
          }
          stack := closed.value;
      }
    }
    if |stack| == 1 {
      r := Ok(stack[0]);
    } else {
      r := Err(InvalidStructureGeneral);
    }
  }
}
