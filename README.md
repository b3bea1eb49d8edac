# HazoJsonDiff in Dafny

HazoJsonDiff compares two versions of a Hazo dataset, given as JSON text. It
reports what changed in the dataset's four collections: `taxons`,
`characters`, `states` and `books`. The library has four parts:

- its own JSON tokenizer and stack-based parser (`src/json.rs`);
- a structural differ that writes the differences as compact JSON text
  (`src/jsondiff.rs`);
- the entry point that parses both documents and diffs each collection
  (`src/lib.rs`);
- two output buffers behind the `ByteBuffer` trait: `String`, and a growable
  `Uint8Array` wrapper for WebAssembly (`src/buffer.rs`).

The model follows the source file by file:

| file | module | form |
|---|---|---|
| `src/json.rs` | `Json` (model), `JsonFacts` (properties), `JsonExamples` (unit-test inputs) | The tokenizer is a class `Json.Tokenizer` with the source's three mutable fields. Its `Next` loop is proved against a scanning function `Scan`. `ParseJson` runs the tokenizer and the stack loop, and is proved equal to the recursive specification `Parse`. The pop loops of `]` and `}` are the methods `PopArray` and `PopObject`. |
| `src/jsondiff.rs` | `JsonDiff`, `JsonDiffExamples` (unit-test inputs), `RenderParse` (rendering read back by the parser) | `Render` (`json_value_to_string`), `EscapeKey` and `UniqueSortedKeys` are functions. `json_escape` and `diff_json_value` are methods that push onto a `string` buffer. They are proved equal to `Escape` and to the specification `Diff`. |
| `src/lib.rs` | `Lib` | `GetProp` is a function. `DiffJsonStrs` is a method proved equal to the specification `DiffStrs`. |
| `src/buffer.rs` | `Buffer` | The `String` buffer is a pair of functions. `JsByteBuffer` is a class over an `array<bv8>` with an explicit length. |
| (numbers) | `Numbers` | An f64 is modelled as an exact decimal. `ParseNum` follows Rust's `str::parse::<f64>` on the characters a Number token can hold. `RenderNum` follows f64 `Display`. |

Text is a `string`, and each character stands for one byte of the UTF-8
input. Only ASCII bytes are ever inspected.

Several quirks of the parser are modelled as written, not corrected:

- `]` pops until *any* array value, and `}` pops until *any* object value.
  So a finished array directly inside an array is taken for the opening
  marker, and `[[1]]` is rejected with `InvalidStructureGeneral`
  (`JsonExamples.ParseNestedArray`). The same happens to objects nested
  directly in objects.
- Commas and colons are ignored.
- An object's values are paired from the end, and an odd leading value is
  dropped.
- A string value is the raw text between its quotes. A backslash does not
  escape a quote.

## Model

| member | source | states |
|---|---|---|
| Numbers.ParseNum | src/json.rs:228-237 | A successful parse of a number token yields a value in normal form: no trailing zero after the decimal point. |
| Numbers.ParseSign | src/json.rs:229-230 | A leading `-` before a digit only sets the sign; the digits parse as they would without it. |
| Numbers.ParseWhole | src/json.rs:229-230 | A run of digits parses to its decimal value, with scale 0. |
| Numbers.ParseFraction | src/json.rs:229-230 | `d.f` parses to the value of the digits `d f` scaled by the length of `f`, then normalised. |
| Numbers.ParseRenderRoundTrip | src/jsondiff.rs:18 | Rendering a number and parsing the text back gives the same number, for every normal number. |
| Numbers.RenderNumShape | src/jsondiff.rs:214 | A rendered number is non-empty. It starts with a digit or `-`, and continues with digits and points only, so it always forms a single Number token. |
| Json.NumberEnd | src/json.rs:153-166 | A number token extends over the digits and points that follow its first byte. It stops at the first other byte or at the end of the input. |
| Json.ScanStep | src/json.rs:45-169 | One pass of the `next` loop always moves the cursor forward. A token it yields leaves the string state and ends at the new cursor. A pass that yields nothing toggles the string state exactly on a quote. |
| Json.Scan | src/json.rs:44-172 | `next` either yields a token that ends past the old cursor, or returns `None` exactly with the cursor at the end of the input. At the end of the input it returns `None`. |
| Json.Tokenizer.constructor | src/json.rs:32-39 | A new tokenizer starts at byte 0, outside a string. |
| Json.Tokenizer.Next | src/json.rs:44-172 | The loop returns exactly the token and the new state that `Scan` gives for the old state. |
| Json.Tokenizer.Pass | src/json.rs:46-169 | One loop iteration yields, or moves to, exactly the state given by `ScanStep`. |
| Json.PopArray | src/json.rs:245-255 | The `]` loop leaves the stack given by `CloseArray`. The values above the first array value are wrapped in order into a new array, which replaces them and that marker. |
| Json.PopObject | src/json.rs:259-282 | The `}` loop gives `CloseObject`: the paired object in place of the values and the marker, or the key error. |
| Json.ParseJson | src/json.rs:212-293 | `parse_json` returns exactly `Parse(input)`: the value, or the same error. |
| JsonFacts.ScanInString | src/json.rs:48-62 | Inside a string, the next token is a String token. It runs from the opening quote to the first quote that follows. With no further quote, nothing more is yielded. |
| JsonFacts.ScanStepYield | src/json.rs:63-166 | A token yielded outside a string starts at the cursor and is well formed: punctuation is one byte, literals spell their word, and a number starts with a digit or `-`. |
| JsonFacts.ScanOutside | src/json.rs:44-172 | Outside a string, `next` skips only bytes that start no token. It yields a well-formed token, or nothing at all. Nothing is yielded either when no token starts, or when a string opens and never closes. |
| JsonFacts.TokensOrdered | src/json.rs:44-172 | Every token of the input is well formed. The tokens come in order and do not overlap. |
| JsonFacts.SplitAtMarkerSpec | src/json.rs:246-253 | The pop loop splits the stack into the rest, the marker and the popped values, and none of those values is a marker. Without a marker, the whole stack is popped. |
| JsonFacts.PairUpOk | src/json.rs:268-279 | Pairing succeeds exactly when every key position holds a string. Otherwise it fails with `InvalidStructureObjectKey`. |
| JsonFacts.PairUpPairs | src/json.rs:267-281 | From an odd count, the leading value is dropped. The pairs are the (key, value) neighbours in source order. |
| JsonFacts.CloseArrayAfterArray | src/json.rs:245-254 | `]` right after an array value replaces that value with an empty array. |
| JsonFacts.CloseObjectAfterObject | src/json.rs:259-282 | `}` right after an object value replaces that value with an empty object. |
| JsonFacts.StripStringToken | src/json.rs:218-226 | The value of a String token is exactly the text between its two quotes. |
| JsonFacts.ScanToQuote | src/json.rs:48-62 | Inside a string, the scan runs to the next quote and yields a String token that ends just after it. |
| JsonFacts.ParseQuoted | src/json.rs:218-226 | A text in quotes that holds no quote parses to the string of that text. |
| JsonFacts.ParseNumberText | src/json.rs:228-237 | An input that is one number token parses to the number `ParseNum` gives, or fails with `InvalidStructureGeneral` when the number does not parse. |
| JsonFacts.UnclosedFails | src/json.rs:286-292 | With two or more values on the stack and no `]` or `}` ahead, the parse fails with `InvalidStructureGeneral`. |
| JsonFacts.ParseUnclosedObject | src/json.rs:286-292 | An object whose first key is followed by text without `]` or `}` is rejected with `InvalidStructureGeneral`. |
| JsonFacts.ParseQuoteFree | src/json.rs:212-293 | No string and no key in a parsed value contains a quote character. |
| JsonExamples.ParseStringValue | src/json.rs:325-332 | `"string_value"` parses to the string `string_value`. |
| JsonExamples.ParseDecimal | src/json.rs:334-341 | `123.456` parses to the number 123.456, held exactly. |
| JsonExamples.ParseMissingBrace | src/json.rs:469-484 | The object of the object test without its closing `}` is rejected with `InvalidStructureGeneral`. |
| JsonExamples.ParseTrue | src/json.rs:343-350 | `true` parses to `Boolean(true)`. |
| JsonExamples.ParseFalse | src/json.rs:352-359 | `false` parses to `Boolean(false)`. |
| JsonExamples.ParseNull | src/json.rs:361-368 | `null` parses to `Null`. |
| JsonExamples.ParseNumOne | src/json.rs:228-231 | The token `1` parses to the number 1. |
| JsonExamples.ParseEmptyArray | src/json.rs:372-380 | `[]` parses to the empty array. |
| JsonExamples.ParseSingleElementArray | src/json.rs:384-398 | `[1]` parses to an array holding the number 1. |
| JsonExamples.ParseNestedArray | src/json.rs:245-254 | `[[1]]` is rejected with `InvalidStructureGeneral`. |
| JsonDiff.EscapeRoundTrip | src/jsondiff.rs:196-209 | Unescaping the body that `json_escape` writes gives back the original text. |
| JsonDiff.EscapeBodyConcat | src/jsondiff.rs:199-206 | Escaping works character by character, so it distributes over concatenation. |
| JsonDiff.EscapePlain | src/jsondiff.rs:199-206 | Text without a quote, a backslash or a newline is written unchanged. |
| JsonDiff.JsonEscape | src/jsondiff.rs:196-209 | The method writes exactly `Escape(s)`: a quote, each character escaped, a quote. |
| JsonDiff.EscapeKey | src/jsondiff.rs:192-194 | An escaped key is never shorter than the key, and every quote in it follows a backslash. |
| JsonDiff.EscapeKeyNoBlank | src/jsondiff.rs:192-194 | Escaping a key adds no space, tab, newline or carriage return. |
| JsonDiff.EscapeKeyRoundTrip | src/jsondiff.rs:192-194 | `escape_key` is undone by its inverse, so distinct keys stay distinct. |
| JsonDiff.EscapeKeyPlain | src/jsondiff.rs:192-194 | A key without a quote is unchanged. |
| JsonDiff.ParsedKeysVerbatim | src/jsondiff.rs:192-194 | Every top-level key of a parsed object is unchanged by `escape_key`, since a parsed key holds no quote. |
| JsonDiff.RenderHead | src/jsondiff.rs:211-247 | The first character of a rendering tells the variant, in both directions. So values of different variants never render the same. |
| JsonDiff.RenderNoBlank | src/jsondiff.rs:211-247 | The rendering is compact: no space, tab, newline or carriage return appears in it unless a string or key of the value holds one (a newline in a string is written as `\n`). |
| RenderParse.RenderParseScalar | src/jsondiff.rs:211-247 | `parse_json` reads a rendered scalar back as itself: a string without a quote, a backslash or a newline, a number in canonical form, a boolean or null. |
| JsonDiff.FindKey | src/jsondiff.rs:121-122 | `find` gives the first position with the key, or none when no pair has it. |
| JsonDiff.FindKeyIn | src/jsondiff.rs:121-122 | A lookup succeeds exactly when the key is among the object's keys. |
| JsonDiff.BelowIrreflexive | src/jsondiff.rs:251 | Byte-wise string order is irreflexive. |
| JsonDiff.BelowTransitive | src/jsondiff.rs:251 | Byte-wise string order is transitive. |
| JsonDiff.BelowTotal | src/jsondiff.rs:251 | Byte-wise string order is total. |
| JsonDiff.BelowAsymmetric | src/jsondiff.rs:251 | Byte-wise string order is asymmetric. |
| JsonDiff.SortDedup | src/jsondiff.rs:251-252 | Sorting then deduplicating gives a strictly increasing list with exactly the same members. |
| JsonDiff.UniqueSortedKeys | src/jsondiff.rs:249-254 | The result is strictly increasing, and holds exactly the keys of either object. |
| JsonDiff.SortedListingUnique | src/jsondiff.rs:249-254 | Two strictly increasing lists with the same members are equal, so the key list is determined by the key sets alone. |
| JsonDiff.DiffEmptyIff | src/jsondiff.rs:4-190 | The diff is empty exactly when the values are `Unchanged`. For scalars that means equal, with numbers compared by f64 `==`. For nulls it always holds. For arrays: not forced, same length, and no common position that is two objects or that renders differently. Two objects always produce text. |
| JsonDiff.DiffSelf | src/jsondiff.rs:4-190 | A value diffed with itself, not forced, gives nothing, unless it is an object or an array holding an object. |
| JsonDiff.DiffScalar | src/jsondiff.rs:6-33 | For two values that are neither arrays nor objects, the diff is empty or it is `{"old":…,"new":…}` of their renderings. |
| JsonDiff.DiffMismatch | src/jsondiff.rs:180-188 | Values of different variants always produce `{"old":…,"new":…}` of their renderings. |
| JsonDiff.ArrayDiffEmpty | src/jsondiff.rs:34-58 | An array diff is empty exactly when not forced, the lengths are equal, and every common position is unchanged. |
| JsonDiff.ElementDiffEmpty | src/jsondiff.rs:40-55 | A common array position contributes nothing exactly when it is not two objects and both render the same. |
| JsonDiff.ArrayDiffLists | src/jsondiff.rs:59-75 | When an array diff is written, its `added` list holds the renderings of the new array's extra tail and its `removed` list those of the old array's extra tail, with the other list empty (both empty for equal lengths), followed by the modified section of the common positions. |
| JsonDiff.RenderListNonEmpty | src/jsondiff.rs:62-65 | A non-empty list of values renders to non-empty text, so an extra tail always shows in its list. |
| JsonDiff.DiffSameArrayForced | src/jsondiff.rs:56-75 | An array without object elements, diffed with itself under `force`, gives `{"added":[],"removed":[]}`. |
| JsonDiff.ObjectDiffBraces | src/jsondiff.rs:155-178 | An object diff is always written, even with no change, and is enclosed in braces. |
| JsonDiff.KeyDiffSection | src/jsondiff.rs:120-154 | A key is reported as added exactly when only the new object has it, and as removed exactly when only the old one has it. It is reported as modified exactly when both objects have it and the nested diff of its first values (not forced, not flat) is non-empty. It is left out of every section exactly when neither object has it or that nested diff is empty. |
| JsonDiff.PushOldNew | src/jsondiff.rs:8-12 | The five pushes append `{"old":x,"new":y}`. |
| JsonDiff.DiffJsonValue | src/jsondiff.rs:4-190 | The method appends exactly `Diff(a, b, force, flat)` to the buffer. |
| JsonDiff.ArrayHasDiff | src/jsondiff.rs:35-58 | `has_diff` holds exactly when the lengths differ or some common position differs. |
| JsonDiff.PushRendered | src/jsondiff.rs:62-65 | The loop appends the renderings of the values, comma-separated. |
| JsonDiff.ElementChange | src/jsondiff.rs:78-108 | The text for one common position: the flattened object diff for two objects, otherwise `{"old":…,"new":…}` when the renderings differ. |
| JsonDiff.PushModified | src/jsondiff.rs:76-112 | The loop appends the non-empty position diffs inside `,"modified":[…]`, or nothing when there are none. |
| JsonDiff.DiffArrays | src/jsondiff.rs:34-114 | The array arm appends the array diff: nothing when unchanged and not forced; otherwise the added tail, the removed tail and the modified positions. |
| JsonDiff.MemberText | src/jsondiff.rs:125-129 | One member: the escaped key in quotes, a colon, then the text. |
| JsonDiff.CollectMembers | src/jsondiff.rs:116-154 | Over the sorted keys, the key loop collects the added, removed and modified members in key order. |
| JsonDiff.DiffObjects | src/jsondiff.rs:115-179 | The object arm appends the braces around the non-empty sections, in the order added, removed, modified. With `flat`, the modified members go in bare. |
| JsonDiffExamples.DiffNumbers | src/jsondiff.rs:313-316 | The diff of `1` and `2` is `{"old":1,"new":2}`. |
| JsonDiffExamples.DiffPlainStrings | src/jsondiff.rs:317-319 | Two different strings without a quote, a backslash or a newline, such as `"foo"` and `"bar"`, are reported as `{"old":"foo","new":"bar"}`: each string between plain quotes. |
| JsonDiffExamples.DiffArrayAdded | src/jsondiff.rs:276-281 | Forced, `[1,2]` against `[1,2,3]` gives `{"added":[3],"removed":[]}`. |
| JsonDiffExamples.DiffArrayRemoved | src/jsondiff.rs:282-284 | Forced, `[1,2,3]` against `[1,2]` gives `{"added":[],"removed":[3]}`. |
| JsonDiffExamples.DiffArrayModified | src/jsondiff.rs:286-292 | Forced, `[1,2,3]` against `[1,4,3]` gives `{"added":[],"removed":[],"modified":[{"old":2,"new":4}]}`. |
| JsonDiffExamples.DiffObjectAdded | src/jsondiff.rs:294-299 | `{"a":1}` against `{"a":1,"b":2}` gives `{"added":{"b":2}}`. |
| JsonDiffExamples.DiffObjectRemoved | src/jsondiff.rs:300-302 | `{"a":1,"b":2}` against `{"a":1}` gives `{"removed":{"b":2}}`. |
| JsonDiffExamples.DiffObjectModified | src/jsondiff.rs:304-310 | `{"a":1,"b":2}` against `{"a":1,"b":3}` gives `{"modified":{"b":{"old":2,"new":3}}}`. |
| JsonDiffExamples.DiffTaxonAdded | src/lib.rs:86-93 | The forced diff of `[]` and `[{"id":1}]`, the taxons of that test, is `{"added":[{"id":1}],"removed":[]}`. |
| JsonDiffExamples.DiffBookRemoved | src/lib.rs:95-102 | The forced diff of `[{"id":42}]` and `[]`, the books of that test, is `{"added":[],"removed":[{"id":42}]}`. |
| JsonDiffExamples.DiffStateModified | src/lib.rs:104-111 | The forced diff of the two state lists of that test is `{"added":[],"removed":[],"modified":[{"name":{"old":"A","new":"B"}}]}`: the flattened object diff of the one state. |
| Lib.FromParserError | src/lib.rs:30-31 | A parse error is reported as the diff error of the same name, never as `PropertyMissing`. |
| Lib.GetProp | src/lib.rs:13-23 | A property is found exactly when the document is an object with that key. |
| Lib.GetPropFirst | src/lib.rs:19 | The property found is the value of the first pair with that key. |
| Lib.PropOutcome | src/lib.rs:36-43 | One pass of the property loop fails exactly when either document lacks the property. |
| Lib.CollectErr | src/lib.rs:35-51 | The property loop fails exactly when some property is missing, and then always with `PropertyMissing`. |
| Lib.CollectNone | src/lib.rs:35-51 | After a successful loop, every property was found. No fragment is produced exactly when every forced diff is empty. |
| Lib.DiffValuesMissing | src/lib.rs:35-41 | Two documents give `PropertyMissing` exactly when one of the four collections is missing from one of them. |
| Lib.DiffValuesEmpty | src/lib.rs:42-56 | Nothing is appended exactly when all four collections are present and `Unchanged` under `force`. |
| Lib.DiffStrsMissing | src/lib.rs:25-57 | `diff_json_strs` fails with `PropertyMissing` exactly when both texts parse and a collection is missing from one of them. |
| Lib.DiffStrsShape | src/lib.rs:52-55 | Any text that is appended is enclosed in braces. |
| Lib.EmptyCollectionsReported | src/lib.rs:76-84 | Documents whose four collections are empty arrays still report `{"added":[],"removed":[]}` for each of them, in the order taxons, characters, states, books. |
| Lib.PushFragment | src/lib.rs:44-50 | A non-empty collection diff is appended as `"name":diff`, with a comma before every fragment except the first. |
| Lib.PropLoop | src/lib.rs:32-52 | The loop over the four properties stops at the first missing one with `PropertyMissing`. Otherwise it leaves `{` followed by the comma-joined fragments, and `first` set exactly when there are none. |
| Lib.DiffJsonStrs | src/lib.rs:25-57 | The method returns `Ok` and appends `DiffStrs(old, new)` to the buffer, or returns its error and leaves the buffer unchanged. |
| Buffer.StringPush | src/buffer.rs:8-10 | `push` on a `String` appends one character with the byte's code. |
| Buffer.StringPushStr | src/buffer.rs:11-13 | `push_str` on a `String` appends the text unchanged. |
| Buffer.DoubledBounds | src/buffer.rs:39-42 | Doubling stops at a power-of-two multiple of the start that holds what is needed. It is less than twice what is needed whenever it doubled at all. |
| Buffer.GrowCapBounds | src/buffer.rs:39-42 | A grown capacity is at least 8, at least what is needed and at least the old capacity. It is a power-of-two multiple of the old capacity (or of 8). |
| Buffer.JsByteBuffer.constructor | src/buffer.rs:24-29 | `new` gives an empty buffer over a fresh array of `capacity` bytes. |
| Buffer.JsByteBuffer.Len | src/buffer.rs:30-32 | `len` is the number of bytes written. |
| Buffer.JsByteBuffer.AsUint8Array | src/buffer.rs:33-35 | The copy is a fresh array holding exactly the bytes written. |
| Buffer.JsByteBuffer.EnsureCapacity | src/buffer.rs:36-47 | The contents are kept, and afterwards `additional` more bytes fit. The capacity never shrinks. The array is replaced only when they did not fit before, and then by a fresh array of the grown capacity. |
| Buffer.JsByteBuffer.Push | src/buffer.rs:51-55 | The byte is appended to the contents. The capacity never shrinks. |
| Buffer.JsByteBuffer.PushStr | src/buffer.rs:56-63 | The bytes are appended to the contents, in order. Afterwards the capacity holds them all and has not shrunk. |

## Left out

- `src/main.rs` is a command-line wrapper: it reads files, prints, and sets the exit status. It is not part of this model. It also calls `diff_json_strs` with two arguments, while the library function takes three.
- `diff_hazo_json_strs` (`src/lib.rs:59-70`) is the WebAssembly export. It crosses into JavaScript and encodes errors as f64. It is not modelled; the buffer it uses is.
- f64 is modelled as an exact decimal, with no rounding, overflow, infinities or exponents. Two number tokens with the same f64 value but different exact decimals (beyond 15 significant digits, such as 9007199254740993 and 9007199254740992) compare as different here. The text of a number with more digits than f64 holds is not modelled.
- `ByteBuffer` is a trait, and the diff functions are generic over it. `DiffJsonValue` and `DiffJsonStrs` are modelled over the `String` buffer only: the output is the `string` that would be pushed. `JsByteBuffer` is modelled on its own.
- Buffer.JsByteBuffer.PushStr: takes the bytes of the text (`as_bytes`) as its argument; the UTF-8 encoding of the text is not modelled.
- Buffer.StringPush: appends the character with the byte's code, as `byte as char` does; the character's UTF-8 encoding in the `String` is not modelled.
- Buffer.JsByteBuffer.EnsureCapacity: `len`, `needed` and the capacity are unbounded here. In the source, `new_cap *= 2` (`src/buffer.rs:40-41`) is `u32` arithmetic and can overflow once more than 2 GiB is needed (from a power-of-two capacity it always does).
- `lib.rs` imports `JsonDiffErrorType` from `json.rs`, which defines no such type. It also applies `?` to a `JsonParserError`, with no conversion into `JsonDiffError` shown. Lib.FromParserError: models the evident intent, each parser error reported under the diff error of the same name.
- The `Display` implementations of the error types (`src/json.rs:197-210`) produce messages only and are not modelled.
- The text is one character per input byte. `json_escape` walks `chars()`, which agrees with that only for ASCII. Multi-byte UTF-8 characters are not distinguished.
- Lifetimes and borrowing (string values as slices of the input) become copies of sub-sequences.
- Unit tests not stated as lemmas, which rest on the general lemmas instead:
  - the 17-token tokenizer test (`src/json.rs:300-321`): `JsonFacts.TokensOrdered` states the order and shape of tokens, but the token list of that input is not derived;
  - the four-element array test (`src/json.rs:401-430`), the object test (`src/json.rs:433-467`) and the realistic test (`src/json.rs:487` onwards): only `Json.ParseJson`, `JsonFacts.PairUpPairs` and the atom lemmas apply; the parse of those inputs is not derived;
  - the tests of `src/lib.rs` are stated for the collection diff of the property they check (`JsonDiffExamples.DiffTaxonAdded`, `DiffBookRemoved`, `DiffStateModified`, `Lib.EmptyCollectionsReported`, `Lib.DiffStrsMissing`). That each whole document parses to the object holding those collections is not derived;
  - the array and object diff tests of `src/jsondiff.rs` are stated on the values their inputs parse to, without deriving those parses (`JsonDiff.DiffSelf` covers `test_diff_array_no_change_not_forced`).
- RenderParse.RenderParseScalar: covers scalars only, and only strings without a quote, a backslash or a newline, because the tokenizer reads no escapes; arrays and objects nested directly in arrays or objects are not read back by the parser (see `JsonExamples.ParseNestedArray`).
