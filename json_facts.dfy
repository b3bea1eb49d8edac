/** Properties of the tokenizer and the stack parser of `src/json.rs`. */
module JsonFacts {
  import opened Wrappers
  import opened Numbers
  import opened Json

  // ---------------------------------------------------------------------
  // Tokenizer
  // ---------------------------------------------------------------------

  /** A byte at which `next`, outside a string, starts a token. */
  predicate StartsToken(src: string, k: nat)
    requires k < |src|
  {
    src[k] == '"' || PunctuationType(src[k]).Some? || LiteralAt(src, k, "true")
    || LiteralAt(src, k, "false") || LiteralAt(src, k, "null") || IsDigit(src[k]) || src[k] == '-'
  }

  /** What the span of a token holds, kind by kind. */
  predicate WellFormedToken(src: string, t: Token) {
    t.start < t.end <= |src| &&
    match t.tokenType
    case String =>
      t.end - t.start >= 2 && src[t.start] == '"' && src[t.end - 1] == '"'
      && forall k | t.start < k < t.end - 1 :: src[k] != '"'
    case Number =>
      (IsDigit(src[t.start]) || src[t.start] == '-')
      && (forall k | t.start < k < t.end :: NumberChar(src[k]))
      && (t.end < |src| ==> !NumberChar(src[t.end]))
    case True => src[t.start..t.end] == "true"
    case False => src[t.start..t.end] == "false"
    case Null => src[t.start..t.end] == "null"
    case _ => t.end == t.start + 1 && PunctuationType(src[t.start]) == Some(t.tokenType)
  }

  /** Inside a string, `next` runs to the very next `"`, whatever precedes
      it (a backslash included); without one it yields nothing. */
  lemma {:induction false} ScanInString(src: string, st: ScanState)
    requires ScanValid(src, st) && st.inString
    ensures var r := Scan(src, st);
      (r.0.Some? ==>
        r.0.value.tokenType == TokenType.String && r.0.value.start == st.start &&
        src[r.1.i - 1] == '"' && forall k | st.i <= k < r.1.i - 1 :: src[k] != '"') &&
      (r.0.None? ==> forall k | st.i <= k < |src| :: src[k] != '"')
    decreases |src| - st.i
  {
    if st.i < |src| && src[st.i] != '"' {
      ScanInString(src, ScanState(st.i + 1, st.start, true));
    }
  }

  /** The postcondition of ScanOutside, as a predicate of the state. */
  predicate ScanOutsideHolds(src: string, st: ScanState)
    requires ScanValid(src, st)
  {
    var r := Scan(src, st);
    (r.0.Some? ==>
      WellFormedToken(src, r.0.value) &&
      forall k | st.i <= k < r.0.value.start :: !StartsToken(src, k)) &&
    (r.0.None? ==>
      (forall k | st.i <= k < |src| :: !StartsToken(src, k)) ||
      exists q | st.i <= q < |src| ::
        src[q] == '"' && (forall k | st.i <= k < q :: !StartsToken(src, k)) &&
        forall k | q < k < |src| :: src[k] != '"')
  }

  /** A pass that yields at once, outside a string, yields a well-formed
      token starting at the cursor. */
  lemma ScanStepYield(src: string, st: ScanState)
    requires ScanValid(src, st) && !st.inString && st.i < |src| && src[st.i] != '"'
    requires ScanStep(src, st).Yield?
    ensures WellFormedToken(src, ScanStep(src, st).token) && ScanStep(src, st).token.start == st.i
  {
  }

  lemma ScanOpenQuote(src: string, st: ScanState)
    requires ScanValid(src, st) && !st.inString && st.i < |src| && src[st.i] == '"'
    ensures ScanOutsideHolds(src, st)
  {
    var i := st.i;
    var inner := ScanState(i + 1, i, true);
    assert ScanStep(src, st) == Continue(inner);
    assert Scan(src, st) == Scan(src, inner);
    ScanInString(src, inner);
    var r := Scan(src, inner);
    if r.0.Some? {
      assert r.0.value.start == i;
    }
  }

  /** A byte that starts no token is skipped. */
  lemma ScanStepSkip(src: string, st: ScanState)
    requires ScanValid(src, st) && !st.inString && st.i < |src| && !StartsToken(src, st.i)
    ensures ScanStep(src, st) == Continue(ScanState(st.i + 1, st.start, false))
  {
  }

  lemma ScanSkip(src: string, st: ScanState)
    requires ScanValid(src, st) && !st.inString && st.i < |src| && !StartsToken(src, st.i)
    requires ScanOutsideHolds(src, ScanState(st.i + 1, st.start, false))
    ensures ScanOutsideHolds(src, st)
  {
    var i := st.i;
    var next := ScanState(i + 1, st.start, false);
    ScanStepSkip(src, st);
    var r := Scan(src, next);
    assert Scan(src, st) == r;
    if r.0.Some? {
      assert forall k | i <= k < r.0.value.start :: !StartsToken(src, k);
    } else if forall k | i + 1 <= k < |src| :: !StartsToken(src, k) {
      assert forall k | i <= k < |src| :: !StartsToken(src, k);
    } else {
      var q :| i + 1 <= q < |src| && src[q] == '"' &&
        (forall k | i + 1 <= k < q :: !StartsToken(src, k)) &&
        forall k | q < k < |src| :: src[k] != '"';
      assert forall k | i <= k < q :: !StartsToken(src, k);
    }
  }

  /** Outside a string, `next` skips every byte that starts no token and
      yields the token that starts at the first byte that does; it yields
      nothing only when no byte starts a token or the first one opens a
      string that is never closed. */
  lemma {:induction false} ScanOutside(src: string, st: ScanState)
    requires ScanValid(src, st) && !st.inString
    ensures ScanOutsideHolds(src, st)
    decreases |src| - st.i
  {
    if st.i < |src| {
      if src[st.i] == '"' {
        ScanOpenQuote(src, st);
      } else if StartsToken(src, st.i) {
        ScanStepYield(src, st);
      } else {
        ScanOutside(src, ScanState(st.i + 1, st.start, false));
        ScanSkip(src, st);
      }
    }
  }

  /** The tokens come out in source order with non-overlapping spans, each
      well formed, from the position the tokenizer starts at. */
  lemma {:induction false} TokensFromOrdered(src: string, st: ScanState)
    requires ScanValid(src, st) && !st.inString
    ensures var ts := TokensFrom(src, st);
      (forall j | 0 <= j < |ts| :: WellFormedToken(src, ts[j]) && st.i <= ts[j].start) &&
      (forall j | 0 < j < |ts| :: ts[j - 1].end <= ts[j].start)
    decreases |src| - st.i
  {
    var r := Scan(src, st);
    if r.0.Some? {
      ScanOutside(src, st);
      assert WellFormedToken(src, r.0.value);
      TokensFromOrdered(src, r.1);
      var ts := TokensFrom(src, st);
      assert ts == [r.0.value] + TokensFrom(src, r.1);
      forall j | 0 < j < |ts|
        ensures ts[j - 1].end <= ts[j].start
      {
        assert ts[j] == TokensFrom(src, r.1)[j - 1];
      }
    }
  }

  lemma TokensOrdered(src: string)
    ensures var ts := Tokens(src);
      (forall j | 0 <= j < |ts| :: WellFormedToken(src, ts[j])) &&
      (forall j | 0 < j < |ts| :: ts[j - 1].end <= ts[j].start)
  {
    TokensFromOrdered(src, ScanState(0, 0, false));
    assert Tokens(src) == TokensFrom(src, ScanState(0, 0, false));
  }

  // ---------------------------------------------------------------------
  // Parser
  // ---------------------------------------------------------------------

  /** The pop loop of ArrayEnd/ObjectEnd removes the topmost marker and
      takes every value above it, in source order; without a marker it
      drains the whole stack. */
  lemma {:induction false} SplitAtMarkerSpec(stack: seq<JsonValue>, forArray: bool)
    ensures var (rest, vals) := SplitAtMarker(stack, forArray);
      |rest| + |vals| <= |stack| &&
      (forall k | 0 <= k < |vals| :: !IsMarker(vals[k], forArray)) &&
      (|rest| + |vals| < |stack| ==>
        stack == rest + [stack[|rest|]] + vals && IsMarker(stack[|rest|], forArray)) &&
      (|rest| + |vals| == |stack| ==> rest == [] && vals == stack)
    decreases |stack|
  {
    if stack != [] {
      var n := |stack|;
      var init := stack[..n - 1];
      if IsMarker(stack[n - 1], forArray) {
        assert stack == init + [stack[n - 1]] + [];
      } else {
        SplitAtMarkerSpec(init, forArray);
        assert stack == init + [stack[n - 1]];
      }
    }
  }

  /** The keys the pairing loop of ObjectEnd reads: every value at an even
      distance after the odd leftover it drops. */
  predicate KeysAreStrings(vals: seq<JsonValue>) {
    forall k | |vals| % 2 <= k < |vals| && (k - |vals| % 2) % 2 == 0 :: vals[k].String?
  }

  /** The pairing loop succeeds exactly when every key it reads is a string,
      and fails with InvalidStructureObjectKey otherwise. */
  lemma {:induction false} PairUpOk(vals: seq<JsonValue>)
    ensures PairUp(vals).Ok? <==> KeysAreStrings(vals)
    ensures PairUp(vals).Err? ==> PairUp(vals).error == InvalidStructureObjectKey
    decreases |vals|
  {
    var n := |vals|;
    if n >= 2 {
      var init := vals[..n - 2];
      assert (n - 2) % 2 == n % 2 && n % 2 <= n - 2;
      if !vals[n - 2].String? {
        assert ((n - 2) - n % 2) % 2 == 0;
      } else {
        PairUpOk(init);
        assert KeysAreStrings(vals) <==> KeysAreStrings(init) by {
          assert forall k | 0 <= k < n - 2 :: init[k] == vals[k];
          assert ((n - 1) - n % 2) % 2 != 0;
        }
      }
    }
  }

  /** On success the pairing loop yields one (key, value) pair per two
      values, in source order. */
  lemma {:induction false} PairUpPairs(vals: seq<JsonValue>)
    requires PairUp(vals).Ok?
    ensures var off, ps := |vals| % 2, PairUp(vals).value;
      |ps| == |vals| / 2 &&
      forall m | 0 <= m < |ps| ::
        vals[off + 2 * m] == JsonValue.String(ps[m].0) && vals[off + 2 * m + 1] == ps[m].1
    decreases |vals|
  {
    var n := |vals|;
    if n >= 2 {
      var init := vals[..n - 2];
      assert PairUp(init).Ok?;
      PairUpPairs(init);
      var ps := PairUp(vals).value;
      var ps' := PairUp(init).value;
      assert ps == ps' + [(vals[n - 2].s, vals[n - 1])];
      assert n % 2 + 2 * |ps'| == n - 2;
    }
  }

  /** An ArrayEnd right after a finished array finds that array as its
      marker: the finished array is lost and an empty one takes its place. */
  lemma CloseArrayAfterArray(stack: seq<JsonValue>)
    requires stack != [] && stack[|stack| - 1].Array?
    ensures CloseArray(stack) == stack[..|stack| - 1] + [Array([])]
  {
  }

  /** Likewise an ObjectEnd right after a finished object. */
  lemma CloseObjectAfterObject(stack: seq<JsonValue>)
    requires stack != [] && stack[|stack| - 1].Object?
    ensures CloseObject(stack) == Ok(stack[..|stack| - 1] + [Object([])])
  {
  }

  /** The text of a String token without its delimiting quotes. */
  lemma StripStringToken(src: string, t: Token)
    requires WellFormedToken(src, t) && t.tokenType == TokenType.String
    ensures StripQuotes(src[t.start..t.end]) == src[t.start + 1..t.end - 1]
  {
    var s := src[t.start..t.end];
    assert s[0] == '"' && s[1..][|s| - 2] == '"';
  }

  predicate NoQuote(s: string) {
    forall k | 0 <= k < |s| :: s[k] != '"'
  }

  /** No string of the tree, value or key, holds a `"`. */
  predicate QuoteFree(v: JsonValue) {
    match v
    case String(s) => NoQuote(s)
    case Array(elems) => forall k | 0 <= k < |elems| :: QuoteFree(elems[k])
    case Object(pairs) => forall k | 0 <= k < |pairs| :: NoQuote(pairs[k].0) && QuoteFree(pairs[k].1)
    case _ => true
  }

  predicate AllQuoteFree(stack: seq<JsonValue>) {
    forall k | 0 <= k < |stack| :: QuoteFree(stack[k])
  }

  lemma {:induction false} SplitQuoteFree(stack: seq<JsonValue>, forArray: bool)
    requires AllQuoteFree(stack)
    ensures AllQuoteFree(SplitAtMarker(stack, forArray).0)
    ensures AllQuoteFree(SplitAtMarker(stack, forArray).1)
    decreases |stack|
  {
    if stack != [] {
      var init := stack[..|stack| - 1];
      assert AllQuoteFree(init);
      if !IsMarker(stack[|stack| - 1], forArray) {
        SplitQuoteFree(init, forArray);
        var vals := SplitAtMarker(init, forArray).1;
        assert SplitAtMarker(stack, forArray).1 == vals + [stack[|stack| - 1]];
      }
    }
  }

  lemma CloseArrayQuoteFree(stack: seq<JsonValue>)
    requires AllQuoteFree(stack)
    ensures AllQuoteFree(CloseArray(stack))
  {
    SplitQuoteFree(stack, true);
    var (rest, vals) := SplitAtMarker(stack, true);
    assert QuoteFree(Array(vals));
  }

  lemma CloseObjectQuoteFree(stack: seq<JsonValue>)
    requires AllQuoteFree(stack)
    ensures CloseObject(stack).Ok? ==> AllQuoteFree(CloseObject(stack).value)
  {
    SplitQuoteFree(stack, false);
    var (rest, vals) := SplitAtMarker(stack, false);
    if PairUp(vals).Ok? {
      PairUpPairs(vals);
      var off, ps := |vals| % 2, PairUp(vals).value;
      forall m | 0 <= m < |ps|
        ensures NoQuote(ps[m].0) && QuoteFree(ps[m].1)
      {
        assert QuoteFree(vals[off + 2 * m]) && QuoteFree(vals[off + 2 * m + 1]);
      }
      assert QuoteFree(Object(ps));
    }
  }

  lemma ApplyTokenQuoteFree(src: string, stack: seq<JsonValue>, t: Token)
    requires WellFormedToken(src, t) && AllQuoteFree(stack)
    ensures ApplyToken(src, stack, t).Ok? ==> AllQuoteFree(ApplyToken(src, stack, t).value)
  {
    match t.tokenType
    case String =>
      StripStringToken(src, t);
      assert NoQuote(src[t.start + 1..t.end - 1]);
    case ArrayEnd => CloseArrayQuoteFree(stack);
    case ObjectEnd => CloseObjectQuoteFree(stack);
    case _ =>
  }

  lemma {:induction false} ParseFromQuoteFree(src: string, st: ScanState, stack: seq<JsonValue>)
    requires ScanValid(src, st) && !st.inString && AllQuoteFree(stack)
    ensures ParseFrom(src, st, stack).Ok? ==> QuoteFree(ParseFrom(src, st, stack).value)
    decreases |src| - st.i
  {
    var r := Scan(src, st);
    if r.0.Some? {
      ScanOutside(src, st);
      ApplyTokenQuoteFree(src, stack, r.0.value);
      if ApplyToken(src, stack, r.0.value).Ok? {
        ParseFromQuoteFree(src, r.1, ApplyToken(src, stack, r.0.value).value);
      }
    }
  }

  /** The tokenizer ends a string at the first `"` and knows no escapes, so
      no string of a parsed tree, value or key, holds a `"`. */
  lemma ParseQuoteFree(src: string)
    ensures Parse(src).Ok? ==> QuoteFree(Parse(src).value)
  {
    ParseFromQuoteFree(src, ScanState(0, 0, false), []);
  }

  // ---------------------------------------------------------------------
  // Whole inputs
  // ---------------------------------------------------------------------

  /** One token moves the parse on to the state after it. */
  lemma ParseFromStep(src: string, st: ScanState, stack: seq<JsonValue>, t: Token, next: ScanState, stack': seq<JsonValue>)
    requires ScanValid(src, st) && Scan(src, st) == (Some(t), next)
    requires t.start <= t.end <= |src| && ApplyToken(src, stack, t) == Ok(stack')
    ensures ParseFrom(src, st, stack) == ParseFrom(src, next, stack')
  {
  }

  /** At the end of the input with one value on the stack, the parse
      returns that value. */
  lemma ParseFromEnd(src: string, stack: seq<JsonValue>)
    requires |stack| == 1
    ensures ParseFrom(src, ScanState(|src|, |src|, false), stack) == Ok(stack[0])
  {
  }

  /** The quotes around any text are what `StripQuotes` removes. */
  lemma StripQuoted(s: string)
    ensures StripQuotes("\"" + s + "\"") == s
  {
    var w := "\"" + s + "\"";
    assert w[1..] == s + "\"";
    assert (s + "\"")[..|s|] == s;
  }

  /** A String token spanning a quoted text pushes that text. */
  lemma ApplyString(src: string, stack: seq<JsonValue>, t: Token, s: string)
    requires t.tokenType == TokenType.String && t.start <= t.end <= |src|
    requires src[t.start..t.end] == "\"" + s + "\""
    ensures ApplyToken(src, stack, t) == Ok(stack + [JsonValue.String(s)])
  {
    StripQuoted(s);
  }

  /** A closing token is the one byte `]` or `}`. */
  lemma ClosingChar(src: string, t: Token)
    requires WellFormedToken(src, t) && (t.tokenType == ArrayEnd || t.tokenType == ObjectEnd)
    ensures t.start < |src| && (src[t.start] == ']' || src[t.start] == '}')
  {
  }

  /** Inside a string, `next` runs to the first `"` at or after the cursor
      and yields the String token that ends there. */
  lemma {:induction false} ScanToQuote(src: string, st: ScanState, q: nat)
    requires ScanValid(src, st) && st.inString && st.i <= q < |src| && src[q] == '"'
    requires forall k | st.i <= k < q :: src[k] != '"'
    ensures Scan(src, st) == (Some(Token(st.start, q + 1, TokenType.String)), ScanState(q + 1, q + 1, false))
    decreases q - st.i
  {
    if st.i < q {
      ScanToQuote(src, ScanState(st.i + 1, st.start, true), q);
    }
  }

  /** A quoted text without a `"` inside parses to that text. */
  lemma ParseQuoted(s: string)
    requires NoQuote(s)
    ensures Parse("\"" + s + "\"") == Ok(JsonValue.String(s))
  {
    var src := "\"" + s + "\"";
    var n := |src|;
    assert forall k | 1 <= k < n - 1 :: src[k] == s[k - 1];
    ScanToQuote(src, ScanState(1, 0, true), n - 1);
    var t := Token(0, n, TokenType.String);
    assert Scan(src, ScanState(0, 0, false)) == (Some(t), ScanState(n, n, false));
    assert src[0..n] == src;
    ApplyString(src, [], t, s);
    assert [] + [JsonValue.String(s)] == [JsonValue.String(s)];
    ParseFromStep(src, ScanState(0, 0, false), [], t, ScanState(n, n, false), [JsonValue.String(s)]);
    ParseFromEnd(src, [JsonValue.String(s)]);
  }

  /** A Number token runs to the end of the input when only digits and
      points follow. */
  lemma {:induction false} NumberEndAll(src: string, j: nat)
    requires j < |src| && forall k | j < k < |src| :: NumberChar(src[k])
    ensures NumberEnd(src, j) == |src|
    decreases |src| - j
  {
    if j + 1 < |src| {
      NumberEndAll(src, j + 1);
    }
  }

  /** A digit or `-` followed by digits and points is one Number token, so
      the input parses to the number `str::parse` reads from it, or fails. */
  lemma ParseNumberText(src: string)
    requires |src| > 0 && (IsDigit(src[0]) || src[0] == '-')
    requires forall k | 1 <= k < |src| :: NumberChar(src[k])
    ensures Parse(src) == match ParseNum(src)
      case Some(n) => Ok(JsonValue.Number(n))
      case None => Err(InvalidStructureGeneral)
  {
    LiteralFirst(src, 0, "true");
    LiteralFirst(src, 0, "false");
    LiteralFirst(src, 0, "null");
    NumberEndAll(src, 0);
    var t := Token(0, |src|, TokenType.Number);
    var end := ScanState(|src|, |src|, false);
    assert Scan(src, ScanState(0, 0, false)) == (Some(t), end);
    assert src[0..|src|] == src;
    match ParseNum(src)
    case Some(n) =>
      assert ApplyToken(src, [], t) == Ok([] + [JsonValue.Number(n)]);
      assert [] + [JsonValue.Number(n)] == [JsonValue.Number(n)];
      ParseFromStep(src, ScanState(0, 0, false), [], t, end, [JsonValue.Number(n)]);
      ParseFromEnd(src, [JsonValue.Number(n)]);
    case None =>
  }

  /** The token a scan yields comes from a `]` or `}` ahead of the cursor
      whenever it closes an array or an object. */
  lemma ScanClosing(src: string, st: ScanState)
    requires ScanValid(src, st) && Scan(src, st).0.Some?
    requires forall k | st.i <= k < |src| :: src[k] != ']' && src[k] != '}'
    ensures Scan(src, st).0.value.tokenType != ArrayEnd && Scan(src, st).0.value.tokenType != ObjectEnd
  {
    var t := Scan(src, st).0.value;
    if st.inString {
      ScanInString(src, st);
    } else {
      ScanOutside(src, st);
      assert WellFormedToken(src, t);
      if t.tokenType == ArrayEnd || t.tokenType == ObjectEnd {
        ClosingChar(src, t);
        assert false;
      }
    }
  }

  /** No `]` and no `}` in `s`. */
  predicate NoClosing(s: string) {
    forall k | 0 <= k < |s| :: s[k] != ']' && s[k] != '}'
  }

  lemma NoClosingConcat(a: string, b: string)
    requires NoClosing(a) && NoClosing(b)
    ensures NoClosing(a + b)
  {
    assert forall k | |a| <= k < |a + b| :: (a + b)[k] == b[k - |a|];
  }

  /** Without a `]` or `}` ahead nothing is popped again, so a stack of two
      or more values is never reduced to one: the parse fails with
      InvalidStructureGeneral. */
  lemma {:induction false} UnclosedFails(src: string, st: ScanState, stack: seq<JsonValue>)
    requires ScanValid(src, st) && |stack| >= 2
    requires forall k | st.i <= k < |src| :: src[k] != ']' && src[k] != '}'
    ensures ParseFrom(src, st, stack) == Err(InvalidStructureGeneral)
    decreases |src| - st.i
  {
    var r := Scan(src, st);
    if r.0.Some? {
      ScanClosing(src, st);
      var next := ApplyToken(src, stack, r.0.value);
      if next.Ok? {
        assert |next.value| >= |stack|;
        UnclosedFails(src, r.1, next.value);
      }
    }
  }

  /** An object whose first key is read but which is never closed fails
      with InvalidStructureGeneral. */
  lemma ParseUnclosedObject(key: string, rest: string)
    requires NoQuote(key) && NoClosing(rest)
    ensures Parse("{\"" + key + "\"" + rest) == Err(InvalidStructureGeneral)
  {
    var src := "{\"" + key + "\"" + rest;
    var q := |key| + 2;
    assert src[0] == '{' && src[1] == '"' && src[q] == '"';
    assert forall k | 2 <= k < q :: src[k] == key[k - 2];
    assert forall k | q < k < |src| :: src[k] == rest[k - q - 1];
    var t0 := Token(0, 1, ObjectStart);
    assert Scan(src, ScanState(0, 0, false)) == (Some(t0), ScanState(1, 1, false));
    ScanToQuote(src, ScanState(2, 1, true), q);
    var t1 := Token(1, q + 1, TokenType.String);
    assert Scan(src, ScanState(1, 1, false)) == (Some(t1), ScanState(q + 1, q + 1, false));
    assert src[1..q + 1] == "\"" + key + "\"";
    var stack := [Object([]), JsonValue.String(key)];
    assert ApplyToken(src, [], t0) == Ok([] + [Object([])]);
    assert [] + [Object([])] == [Object([])];
    ApplyString(src, [Object([])], t1, key);
    assert [Object([])] + [JsonValue.String(key)] == stack;
    ParseFromStep(src, ScanState(0, 0, false), [], t0, ScanState(1, 1, false), [Object([])]);
    ParseFromStep(src, ScanState(1, 1, false), [Object([])], t1, ScanState(q + 1, q + 1, false), stack);
    UnclosedFails(src, ScanState(q + 1, q + 1, false), stack);
  }
}
