# witnet-utils core, modelled in Dafny

This project models the helper library and the Radon command line of the
Witnet utilities:

- **Byte and text codecs:**
  - `toUtf8Array` and `utf8ArrayToStr`;
  - `toHexString`, `fromHexString` and `isHexString`.
- **Text helpers:** `parseURL`, `commas`, `toFixedTrunc` and `toUpperCamelCase`.
- **Template placeholders:** the `\N\` placeholders (`getWildcardsCountFromString`, `isWildcard`, `replaceWildcards`, `spliceWildcard`).
- **Command-line helpers:**
  - `extractFromArgs` and `deleteExtraFlags`;
  - `transpose` and `countLeaves`;
  - `flattenWitnetArtifacts`.
- **Decoding a request:**
  - `decodeRadonRequest` reads a serialized data request: hex, then protobuf, then CBOR for each script and filter;
  - `parseScript` and `parseScriptOperator` rebuild a Radon script from its CBOR array form.
- **The `decode` and `dryRun` commands:**
  - they select artifacts by a case-insensitive key pattern;
  - they share the positional arguments between the selected templates and retrievals;
  - they set the report headline.

JavaScript values are the datatype `Values.JsValue`. An exception is the
`Failure` case of `Common.Result`. It carries the error class (`TypeError`,
`ReferenceError`, `RangeError`), or the string a `throw` statement raises.

Three collaborators are passed in as parameters:

- the protobuf decoder of `RADRequest`;
- the CBOR decoder;
- the operator registry `RadonOperators`.

The Radon type classes are not modelled as classes. A script is a term that
records which calls `parseScriptOperator` made.

Each loop of the source is a method with invariants. Each method is proved
equal to a specification function, and the properties are lemmas about those
functions.

## Model

| member | source | states |
|---|---|---|
| Utf8.EncodeUnit | src/lib/helpers.js:406-415 | One unit below U+0080 gives one byte, below U+0800 two bytes, otherwise three. The lead byte is of the right class, and the bytes after it are continuation bytes. |
| Utf8.ToUtf8Array | src/lib/helpers.js:402-431 | The loop computes `ToUtf8`. It throws exactly when the string holds a surrogate unit. |
| Utf8.ToUtf8 | src/lib/helpers.js:402-431 | `toUtf8Array` fails exactly on a string holding a surrogate unit, with the TypeError of the `const` assignment. Otherwise it gives `TotalSize` bytes, which decode back to the string. |
| Utf8.EncodedLength | src/lib/helpers.js:402-431 | The output is as long as the sum of the per-unit sizes. |
| Utf8.Width | src/lib/helpers.js:440-459 | Each step of the decoder consumes one to three bytes. |
| Utf8.Emitted | src/lib/helpers.js:440-459 | Each step emits at most one code unit. |
| Utf8.StepOne | src/lib/helpers.js:443-446 | A byte below 0x80 is copied. |
| Utf8.StepTwo | src/lib/helpers.js:447-451 | Nibble 12 or 13 combines the low five bits with six bits of the next byte. A missing next byte reads as 0. |
| Utf8.StepThree | src/lib/helpers.js:452-459 | Nibble 14 combines four, six and six bits of three bytes. |
| Utf8.StepSkipped | src/lib/helpers.js:442-460 | Nibbles 8 to 11 and 15 emit nothing and consume one byte. |
| Utf8.Utf8ArrayToStr | src/lib/helpers.js:433-463 | The loop computes `Decoded`, and the output is no longer than the input. |
| Utf8.Decoded | src/lib/helpers.js:433-463 | `utf8ArrayToStr` never yields more units than it reads bytes. |
| Utf8.DecodedLength | src/lib/helpers.js:433-463 | The decoder never emits more units than it reads bytes. |
| Utf8.DecodeEncoded | src/lib/helpers.js:402-463 | Round trip: decoding the encoding of any string without surrogate units gives the string back. |
| Utf8.SurrogatePairThrows | src/lib/helpers.js:416-428 | As written, a surrogate pair throws, because the code assigns to a `const`. |
| Utf8.PairCodePoint | src/lib/helpers.js:422-423 | A surrogate pair stands for a code point in U+10000..U+10FFFF. |
| Utf8.FourBytes | src/lib/helpers.js:424-427 | Four bytes: an 11110 lead byte and three continuation bytes that spell the code point back. |
| Utf8.IntendedPairEncoding | src/lib/helpers.js:416-428 | The corrected encoder writes a high and low surrogate pair as the four UTF-8 bytes of its code point. |
| Utf8.IntendedAgreesWithoutSurrogates | src/lib/helpers.js:402-431 | The corrected encoder agrees with the code as written on every string without surrogates. |
| Hex.Radix16 | src/lib/helpers.js:193 | `x.toString(16)` yields one lower-case digit below 16, and two digits below 256. |
| Hex.HexPairDigits | src/lib/helpers.js:193 | `('00' + hex).slice(-2)` is the two digits of the byte, high nibble first. |
| Hex.JoinedIsHex | src/lib/helpers.js:193-194 | The joined pairs consist of hex digits only. |
| Hex.PairsOfHexText | src/lib/helpers.js:195-196 | On an even-length run of hex digits, `match(/[a-fA-F0-9]{2}/g).join('')` gives the run back. |
| Hex.ToHexString | src/lib/helpers.js:192-197 | It fails exactly on empty input, where the match is null. Otherwise the result is `0x` followed by two digits per byte. |
| Hex.ToHexStringDigits | src/lib/helpers.js:192-197 | The output has length 2 + 2n, and digit pair i encodes byte i. |
| Hex.TrimStart | src/lib/helpers.js:125 | `parseInt` drops a prefix of the text, and what is left does not start with white space. |
| Hex.LeadingHex | src/lib/helpers.js:125 | `parseInt(_, 16)` reads the longest run of hex digits. |
| Hex.ParseIntHexOfDigits | src/lib/helpers.js:125 | `parseInt(s, 16)` of a non-empty run of hex digits is the number the run writes. |
| Hex.ChunksFrom | src/lib/helpers.js:125 | `/.{1,2}/g` yields chunks of one or two characters. |
| Hex.ChunksEmpty | src/lib/helpers.js:125 | The match finds nothing exactly when only line terminators are left. |
| Hex.StripPrefix | src/lib/helpers.js:124 | A leading `0x` is removed, and nothing else. |
| Hex.FromHexString | src/lib/helpers.js:123-126 | It throws exactly when the match is null. Otherwise it gives one byte per chunk. |
| Hex.FromHexBytes | src/lib/helpers.js:123-126 | Byte k is `parseInt(chunk k, 16)` as converted by `Uint8Array.from`. |
| Hex.ParsePair | src/lib/helpers.js:125 | `parseInt` of a byte's two digits is the byte. |
| Hex.ChunksOfJoined | src/lib/helpers.js:125 | The encoder's output splits back into its pairs. |
| Hex.HexRoundTrip | src/lib/helpers.js:123-126 | Round trip: `fromHexString(toHexString(b))` is `b` for every non-empty `b`. |
| Hex.IsHexString | src/lib/helpers.js:182-190 | A string of one or more hex digits, with or without `0x`. A non-string is never one. |
| Hex.ToHexIsHex | src/lib/helpers.js:182-197 | Every output of `toHexString` passes `isHexString`. |
| Hex.EmptyHexPayload | src/lib/helpers.js:123-126 | `0x` alone throws in `fromHexString` and fails `isHexString`. |
| Url.SplitQuery | src/lib/helpers.js:210-214 | The path is cut at its first `?`. |
| Url.SplitAfterScheme | src/lib/helpers.js:206-215 | The host is cut at its first `/`. The parts are glued back with the separators removed. |
| Url.ParseURL | src/lib/helpers.js:199-220 | It succeeds exactly on strings that contain `://`. Otherwise it throws the TypeError with the value's text. The scheme ends at the first `://`, and schema + host + `/` + path + `?` + query rebuilds the URL. |
| Url.ParseExample | src/lib/helpers.js:199-216 | `w://h/p?q` gives `["w://", "h", "p", "q"]`. |
| Wildcards.WildcardText | src/lib/helpers.js:353 | `\N\` is a backslash, the number and a backslash. |
| Wildcards.MatchedDigits | src/lib/helpers.js:335-339 | The digits of the non-overlapping `\d` matches, each below 10. |
| Wildcards.MatchedDigitsEmpty | src/lib/helpers.js:335-341 | No digit is matched exactly when the text has no placeholder. |
| Wildcards.MaxIndex | src/lib/helpers.js:337-338 | One more than the largest digit, or 0 when there is none. It is at most 10. |
| Wildcards.GetWildcardsCountFromString | src/lib/helpers.js:331-342 | The loop computes the count. It is at most 10, and 0 exactly when there is no placeholder. |
| Wildcards.OverlapNotCounted | src/lib/helpers.js:335-339 | In `\1\9\` the `\9\` shares a backslash with `\1\` and is not counted. |
| Wildcards.IsWildcard | src/lib/helpers.js:345-347 | True exactly for three characters: a backslash, a digit and a backslash. |
| Wildcards.WildcardCountsItself | src/lib/helpers.js:331-347 | `\d\` is a placeholder and counts d + 1 arguments. |
| Wildcards.Expand | src/lib/helpers.js:354 | A `replaceAll` argument without `$` is inserted literally. |
| Wildcards.ReplaceAllAbsent | src/lib/helpers.js:354 | `replaceAll` of a pattern that occurs nowhere in the text changes nothing. |
| Wildcards.FirstTen | src/lib/helpers.js:350 | At most the first ten arguments are used. |
| Wildcards.ReplacedValue | src/lib/helpers.js:349-363 | Strings stay strings and arrays keep their length. Other elements, and values that are neither strings nor arrays, are unchanged. |
| Wildcards.SubstituteText | src/lib/helpers.js:350-355 | The loop substitutes `\0\` to `\9\` in order. |
| Wildcards.ReplaceWildcards | src/lib/helpers.js:349-363 | The recursive walk computes `ReplacedValue`. |
| Wildcards.OnlyFirstTenUsed | src/lib/helpers.js:350 | Arguments after the first ten never change the result. |
| Wildcards.SubstitutedWithoutBackslash | src/lib/helpers.js:352-355 | Text without a backslash is left as it is. |
| Wildcards.NoBackslashUnchanged | src/lib/helpers.js:349-363 | Replacing in a string without a backslash gives it back. |
| Wildcards.SplicedValue | src/lib/helpers.js:365-379 | The same shape guarantees as `ReplacedValue`. |
| Wildcards.SpliceText | src/lib/helpers.js:366-371 | The loop substitutes the value and then shifts the later placeholders down by one. |
| Wildcards.SpliceWildcard | src/lib/helpers.js:365-379 | The recursive walk computes `SplicedValue`. |
| Text.Split | src/lib/helpers.js:10 | `split('.')` yields at least one piece, none containing the separator. Without a separator it yields the whole string. |
| Text.SplitJoin | src/lib/helpers.js:10 | Joining the pieces with the separator gives the string back. |
| Text.DigitRun | src/lib/helpers.js:12 | The maximal run of digits from a position. |
| Text.Commas | src/lib/helpers.js:9-15 | The integer part is grouped, and the first fraction piece is kept after the dot. |
| Text.DropCommas | src/lib/helpers.js:12 | Removing the commas leaves no comma. |
| Text.CommasDropCommas | src/lib/helpers.js:9-15 | On text without a comma and with at most one dot, `commas` only inserts commas: removing them gives the input back. |
| Text.GroupedUpToThousands | src/lib/helpers.js:12 | On digits, the regular expression puts a comma before each complete group of three from the right. |
| Text.Grouped | src/lib/helpers.js:12 | The regular expression only inserts commas (removing them gives a comma-free input back), and on digits it puts one before each complete group of three from the right. |
| Text.CommasOfDigits | src/lib/helpers.js:9-15 | A plain run of digits gets thousands separators, e.g. 1234567 gives 1,234,567. |
| Text.FixedTrunc | src/lib/helpers.js:17-24 | n <= 0 gives the integer part. Otherwise the integer part, a dot, and exactly n fraction digits, truncated or padded with zeros. |
| Text.Zeros | src/lib/helpers.js:22 | The padding is k zeros. |
| Text.ToFixedTrunc | src/lib/helpers.js:17-24 | The padding loop computes `FixedTrunc`. |
| Text.FixedTruncIdempotent | src/lib/helpers.js:17-24 | Truncating a truncated number again changes nothing. |
| Text.Capitalized | src/lib/helpers.js:397-399 | Upper-casing word starts keeps the length. |
| Text.CapitalizedAt | src/lib/helpers.js:397-399 | Character i is upper-cased exactly when it is a word character that starts a word (`\b\w`); every other character is kept. |
| Text.WithoutSpaces | src/lib/helpers.js:399 | `/\s+/g` removal leaves no white space. |
| Text.WithoutSpacesKeeps | src/lib/helpers.js:399 | Every character other than white space is kept as often as it occurs, and white space not at all. |
| Text.WithoutSpacesSubsequence | src/lib/helpers.js:399 | The kept characters stay in their order. |
| Text.ToUpperCamelCase | src/lib/helpers.js:396-400 | The result is no longer than the input and holds no white space; it holds the characters of the capitalised text other than white space, each as often. |
| Text.UpperCamelCaseOfWords | src/lib/helpers.js:396-400 | Words of word characters joined by single spaces become the words with their first letter upper-cased, glued together. |
| Text.CamelPassSplits | src/lib/helpers.js:396-400 | The one-pass definition equals capitalising and then removing white space. |
| Text.UpperCamelCaseIdempotent | src/lib/helpers.js:396-400 | Applying `toUpperCamelCase` twice is the same as once. |
| Flags.Token | src/lib/helpers.js:103 | The token of a flag is `--` followed by its name. |
| Flags.Consume | src/lib/helpers.js:102-117 | One flag's turn never lengthens the arguments. |
| Flags.Extract | src/lib/helpers.js:99-121 | The turns of all flags, in order, never lengthen the arguments. |
| Flags.ExtractFromArgs | src/lib/helpers.js:99-121 | Missing args or flags give `{}` and leave the arguments alone. Otherwise the array is spliced in place to `Extract`'s rest, and the result is the curated map or the thrown string. |
| Flags.ConsumeSubsequence | src/lib/helpers.js:111-115 | Splicing only removes arguments and keeps the order of the rest. |
| Flags.ExtractSubsequence | src/lib/helpers.js:99-121 | The remaining arguments are a subsequence of the original ones. |
| Flags.ExtractKeys | src/lib/helpers.js:102-118 | Only declared flags are added to the map, and other keys are untouched. |
| Flags.ConsumeRecords | src/lib/helpers.js:103-116 | A flag is recorded exactly when its token is present: `true`, or its parameter value. |
| Flags.ConsumeSplicesTwo | src/lib/helpers.js:110-111 | A flag with a parameter removes its token and the value after it. |
| Flags.ConsumeSplicesOne | src/lib/helpers.js:114-115 | A flag without a parameter removes only its token. |
| Flags.ConsumeKeepsToken | src/lib/helpers.js:102-117 | One flag's turn never removes another flag's token. |
| Flags.ExtractRecords | src/lib/helpers.js:99-121 | With distinct names, every declared flag whose token occurs is recorded with its value. |
| Flags.ExtractErrorNamesFlag | src/lib/helpers.js:107-108 | A failure names a declared flag that takes a parameter. |
| Flags.MissingParameterExample | src/lib/helpers.js:106-108 | `--gas` with nothing after it throws `Missing required parameter for --gas`. |
| Flags.ParameterExample | src/lib/helpers.js:109-111 | `--indent 4 x` records `indent: "4"` and leaves `x`. |
| Flags.DeleteExtraFlags | src/lib/helpers.js:95-97 | It keeps exactly the arguments that do not start with `--`, each as often as it occurs. |
| Flags.DeleteExtraFlagsSubsequence | src/lib/helpers.js:96 | The filter keeps the order. |
| Flags.DeleteExtraFlagsIdempotent | src/lib/helpers.js:95-97 | Filtering twice is the same as once. |
| Tables.Column | src/lib/helpers.js:592 | Column j holds `row[j]` of every row, with `undefined` past the end of a row. |
| Tables.Transposed | src/lib/helpers.js:589-595 | The result has `numColumns` columns (none when it is negative), each the column of the records. |
| Tables.Transpose | src/lib/helpers.js:589-595 | The loop computes `Transposed`. |
| Tables.TransposeTwice | src/lib/helpers.js:589-595 | On a rectangular table, transposing twice gives the table back. |
| Artifacts.CountLeaves | src/lib/helpers.js:83-93 | A falsy value counts 0 and an instance of the class counts 1. A non-empty string overflows the stack. |
| Artifacts.CountAllAppend | src/lib/helpers.js:89 | The sum over an array adds up over its parts. |
| Artifacts.CountLeavesFails | src/lib/helpers.js:83-93 | It throws exactly when a non-empty string is reached, and the error is a RangeError. |
| Artifacts.CountAllFails | src/lib/helpers.js:89 | The same holds for the elements of an array. |
| Artifacts.CountPropsFails | src/lib/helpers.js:91 | The same holds for the values of an object. |
| Artifacts.Indexed | src/lib/utils.js:100 | The keys that `for…in` visits on an array are its indices, in order, each with its element. The copy at src/lib/cli/radon.js:355 walks arrays the same way. |
| Artifacts.Flattened | src/lib/cli/radon.js:352-368 | Every match holds a request, template or retrieval. The copy in `radon.js` is the same code as the one in `utils.js`. |
| Artifacts.FlattenedEntries | src/lib/utils.js:100-116 | The same holds for every walked entry. |
| Artifacts.FlattenedEntriesAppend | src/lib/utils.js:100-116 | The matches of consecutive entries are concatenated in order. |
| Artifacts.FlattenWitnetArtifacts | src/lib/utils.js:97-118 | The loop with its recursive calls computes `Flattened`. |
| Artifacts.FlattenedFindsArtifact | src/lib/utils.js:101-109 | Every artifact at the top level is found under its key. |
| Artifacts.CountLeavesCountsMatches | src/lib/helpers.js:83-93 | When every artifact of a tree is of one class, `countLeaves` counts exactly the matches of `flattenWitnetArtifacts`. |
| Common.DropFirstWord | src/lib/cli/radon.js:340 | `split(/(?=[A-Z])/).slice(1).join("")` is the suffix from the first upper-case letter after position 0, or empty. |
| Common.MapAll | src/lib/utils.js:37-51 | `map` succeeds exactly when every element does, and element i is the image of element i. |
| Common.MapAllFirstFailure | src/lib/utils.js:37-51 | A failing `map` raises the error of its first failing element. |
| Script.FamilyNibble | src/lib/utils.js:168 | `(parseInt(opcode) & 0xf0)` selects a nibble below 16. |
| Script.ParseIntOfText | src/lib/utils.js:168 | `parseInt` of an integer's text is the integer. |
| Script.ParseIntOfDigits | src/lib/utils.js:168 | `parseInt` of a non-empty run of decimal digits is the number the run writes. |
| Script.FamilyOfOpcode | src/lib/utils.js:160-169 | The root type of an integer opcode is chosen by its bits 4-7. |
| Script.FamilyIgnoresOtherBits | src/lib/utils.js:168 | Adding 256 or changing the low nibble does not change the root type. |
| Script.OperatorName | src/lib/utils.js:173-174 | The registry name without its first word, first letter lower-cased. |
| Script.ParseJsonName | src/lib/utils.js:173-174 | `StringParseJSON` becomes `parseJSON`. |
| Script.ExtraArguments | src/lib/utils.js:178 | `args.slice(1)` exists for arrays and strings; for an array it is the elements after the first. |
| Script.ParseOperator | src/lib/utils.js:158-187 | A falsy opcode returns `undefined`. An opcode missing from the registry throws a TypeError. A script built on an existing script keeps its root; otherwise the root is the opcode's type. |
| Script.Parsed | src/lib/utils.js:143-156 | An empty array gives `undefined`. |
| Script.ParseScript | src/lib/utils.js:143-156 | The `forEach` loop computes `Parsed`. |
| Script.ParsedItemsAppend | src/lib/utils.js:145-151 | Parsing a concatenation parses the second part on top of the first. |
| Script.OnlyFirstArgument | src/lib/utils.js:147 | Of `[opcode, arg, more...]` only `opcode` and `arg` reach the operator. |
| Script.NestedScript | src/lib/utils.js:176-178 | `filter`, `map`, `sort` and `alter` take their argument parsed as a script, followed by the rest of the arguments. |
| Script.NestedFailure | src/lib/utils.js:177 | A nested script that fails makes the call fail with its error. |
| Script.FalsyOpcodeRestarts | src/lib/utils.js:159-186 | After a falsy opcode, the next element starts a fresh script. |
| Script.SingleOpcode | src/lib/utils.js:153-155 | A lone integer opcode is one call on a fresh root of its type. |
| RequestDecoding.DecodedScript | src/lib/utils.js:63-67 | Failures of the hex and CBOR steps are passed through. |
| RequestDecoding.ScriptThroughHex | src/lib/utils.js:49 | Going through `toHexString` and `fromHexString` hands the script bytes unchanged to the CBOR decoder. |
| RequestDecoding.HeaderPairs | src/lib/utils.js:40-45 | Each header pair becomes `[left, right]`, in order. |
| RequestDecoding.DecodedRetrieval | src/lib/utils.js:37-51 | As written: a retrieval with body bytes throws the ReferenceError of the unbound `utf8ArrayToStr` (line 47). Without a body it equals `IntendedRetrieval`, so an empty script throws a TypeError in `toHexString`. A decoded retrieval keeps its kind and has no body. |
| RequestDecoding.IntendedRetrieval | src/lib/utils.js:37-51 | The corrected reading, with the body decoded by `helpers.utf8ArrayToStr`. An empty script throws a TypeError, and the kind is kept. |
| RequestDecoding.BodyThrows | src/lib/utils.js:46-48 | A retrieval whose body is the byte `a` throws as written, and the corrected reading keeps the body as the text "a". |
| RequestDecoding.RetrievalFields | src/lib/utils.js:38-50 | In the corrected reading, the URL is present exactly when non-empty, and the body exactly when non-empty (as UTF-8 decoded text). The headers are paired, and the script is the parsed CBOR. |
| RequestDecoding.RetrievalFailure | src/lib/utils.js:46-49 | As written, a retrieval fails exactly when it has body bytes or its script fails to decode or parse. Without a body, a CBOR error comes out unchanged. |
| RequestDecoding.DecodedFilter | src/lib/utils.js:52-55 | A filter with empty args has none. Otherwise its args are the CBOR value, or the CBOR error. |
| RequestDecoding.DecodedFilters | src/lib/utils.js:58 | All filters decode, element for element, or the first error is raised. |
| RequestDecoding.FiltersWithoutArgs | src/lib/utils.js:52-55 | Filters without args always decode. |
| RequestDecoding.DecodedReducer | src/lib/utils.js:58-59 | A missing reducer throws a TypeError. Otherwise the reducer code is kept, with one filter per raw filter. |
| RequestDecoding.DecodedRetrievals | src/lib/utils.js:37-51 | All retrievals decode, element for element. |
| RequestDecoding.DecodedRequest | src/lib/utils.js:34-61 | Text that is not hex and a buffer the protobuf decoder refuses fail with their own errors. A decoded request has one retrieval per encoded retrieval. |
| RequestDecoding.FirstFailingRetrieval | src/lib/utils.js:37-51 | The error raised is that of the first failing retrieval. |
| RequestDecoding.DecodeRetrievals | src/lib/utils.js:37-51 | The `map` loop over the retrievals computes `DecodedRetrievals`: every retrieval in its place, or the first error. |
| RequestDecoding.DecodeRadonRequest | src/lib/utils.js:34-61 | The loop computes `DecodedRequest`. |
| RequestDecoding.RequestShape | src/lib/utils.js:34-61 | A decoded request has one retrieval per raw retrieval, and both reducers with their codes and filters. |
| RadonCli.ExtractTypeName | src/lib/cli/radon.js:340 | A missing or empty name gives `Any`. Otherwise it gives the suffix starting at the second capitalised word. |
| RadonCli.TypeNameExamples | src/lib/cli/radon.js:340 | `RadonString` gives `String`. |
| RadonCli.Selected | src/lib/cli/radon.js:222-224 | It keeps exactly the artifacts whose key contains the pattern, ignoring case. |
| RadonCli.SelectedKeepsOrder | src/lib/cli/radon.js:222-224 | The selection keeps the order of the walk. |
| RadonCli.KeyMatchesIgnoresCase | src/lib/cli/radon.js:224 | The match ignores case, and the empty pattern selects every key. |
| RadonCli.KeyMatchesOccurs | src/lib/cli/radon.js:224 | A key matches exactly when the lower-cased pattern occurs in it. |
| RadonCli.Took | src/lib/cli/radon.js:235 | `splice(0, n)` removes n entries, or all of them when fewer are left. |
| RadonCli.Padded | src/lib/cli/radon.js:236-238 | The slot has exactly `argsCount` entries: the arguments taken, then `{:k}` at each position k. |
| RadonCli.FillSlot | src/lib/cli/radon.js:235-238 | The slot is the padded front of the shared array, and the array loses that front. |
| RadonCli.Slots | src/lib/cli/radon.js:233-239 | One slot per retrieval, each of that retrieval's length. |
| RadonCli.DistributeTemplateArgs | src/lib/cli/radon.js:233-239 | The loop fills `Slots` and leaves `Leftover` in the shared array. |
| RadonCli.LeftoverDrops | src/lib/cli/radon.js:233-239 | A template consumes min(sum of counts, all) arguments from the front. |
| RadonCli.SlotsExact | src/lib/cli/radon.js:233-239 | With enough arguments, the slots laid end to end are the front of the array, in order. |
| RadonCli.SlotsOfNothing | src/lib/cli/radon.js:233-239 | With no arguments, every slot is placeholders only. |
| RadonCli.StrictSlots | src/lib/cli/radon.js:297-305 | The dry run's slots, one per retrieval. |
| RadonCli.StrictSlotsAgree | src/lib/cli/radon.js:297-305 | The dry run accepts a template exactly when enough arguments are left, and then fills the same slots as `decode`. |
| RadonCli.StrictTemplateArgs | src/lib/cli/radon.js:297-305 | The loop computes `StrictSlots`. A short slot has taken everything that was left. |
| RadonCli.DecodeCraft | src/lib/cli/radon.js:226-253 | A prepared craft keeps its key. |
| RadonCli.RetrievalWithoutArgs | src/lib/cli/radon.js:243-252 | A retrieval without arguments leaves the shared array alone. |
| RadonCli.DryRunCraft | src/lib/cli/radon.js:290-321 | A prepared craft keeps its key. |
| RadonCli.DryRunCraftAgrees | src/lib/cli/radon.js:290-321 | Where the dry run accepts a craft, it prepares it as `decode` does and leaves the same arguments. |
| RadonCli.PrepareForDecode | src/lib/cli/radon.js:226-253 | The branch on the artifact class computes `DecodeCraft` and its effect on the shared array. |
| RadonCli.PrepareForDryRun | src/lib/cli/radon.js:290-321 | The branch on the artifact class computes `DryRunCraft` and its effect on the shared array. |
| RadonCli.DecodeAll | src/lib/cli/radon.js:221-262 | One prepared craft per selected artifact, in order, under its key. |
| RadonCli.SharedArgsExample | src/lib/cli/radon.js:221-239 | Two templates share `a b c`: the first gets `[a, b]` and the second `[c, {:1}]`. |
| RadonCli.DryRunAll | src/lib/cli/radon.js:289-331 | The dry run with the separator line at radon.js:327-329 corrected. A dry run that goes through has one prepared craft per artifact. |
| RadonCli.DryRunAsWritten | src/lib/cli/radon.js:289-331 | The dry run as written: up to one artifact it is `DryRunAll`; with more it is `DryRunAll` of the first artifact, and where that goes through it throws the ReferenceError on `indent`. |
| RadonCli.DryRunTwoRequests | src/lib/cli/radon.js:327-329 | Two requests: as written the run throws a ReferenceError on `indent`, while as corrected it prepares both. |
| RadonCli.DryRunAllAgrees | src/lib/cli/radon.js:289-331 | A dry run that goes through prepares every craft exactly as `decode` does. |
| RadonCli.HeadlineSetOnce | src/lib/cli/radon.js:254-256 | A caller's headline is never replaced. Otherwise the first craft sets it. |
| RadonCli.DecodeAllOutcome | src/lib/cli/radon.js:221-262 | `decode`'s loop fails exactly when some craft is selected and either there is no options object (the headline TypeError) or `indent` is truthy (the report's ReferenceError). Otherwise it prepares every craft. |
| RadonCli.DecodeOutcome | src/lib/cli/radon.js:205-263 | `decode` throws only in three cases: no asset is named, no options object takes the headline, or the first report throws on a truthy `indent`. Otherwise it prepares one craft per selected artifact, each under a key that contains the pattern, ignoring case. |
| RadonCli.DryRunOutcome | src/lib/cli/radon.js:267-333 | Where the dry run goes through, it ends exactly as `decode` with a falsy `indent` does. A pattern that selects nothing throws `No matched found`, where `decode` does nothing. |
| RadonCli.DecodeCrafts | src/lib/cli/radon.js:221-262 | The loop computes `DecodeAllOutcome`. The headline is `FinalHeadline` of the prepared crafts, or of the first craft when its report throws. |
| RadonCli.Decode | src/lib/cli/radon.js:205-263 | The command computes `DecodeOutcome`. A bytecode argument that `RadonRequest.from` accepts sets an unset headline to `WITNET DATA REQUEST DISASSEMBLE`, unless `indent` or `json` is truthy (radon.js:421-427). A headline set by the caller is kept. |
| RadonCli.DryRunCrafts | src/lib/cli/radon.js:289-331 | The loop computes the corrected `DryRunAll`, with the headline set as in `decode`. The report throws on a truthy `indent` unless `json` is truthy. A headline set by the caller is kept, also when the run fails. |
| RadonCli.DryRun | src/lib/cli/radon.js:267-333 | The command computes `DryRunOutcome`, with radon.js:327-329 corrected, including the `No matched found` error. A bytecode argument that `RadonRequest.from` accepts sets an unset headline to `WITNET DATA REQUEST DRY RUN REPORT`, unless `json` is truthy (radon.js:499-529). A headline set by the caller is kept. |

## Left out

- Console output is not modelled. This covers the `trace*` report functions and the empty `console.info()` lines.
- Loading the asset files (`loadAssets`) is left out: the asset tree is a parameter.
- `RadonRequest.from` of a bytecode argument is not modelled. Whether it accepts the argument is the parameter `fromAccepts` of `Decode` and `DryRun`. Every error on that path is swallowed by the `catch` at radon.js:215 and radon.js:277.
- RadonCli.Decode: the calls `buildRequest`, `foldArgs` and `new RadonRequest` are taken to succeed and to leave `options` alone. Of the report `traceWitnetRadonRequest`, only its effect on `options.headline` and its throw on a truthy `indent` are modelled (radon.js:421-428). The same holds for `RadonCli.DecodeOutcome`, `RadonCli.DecodeAllOutcome` and `RadonCli.DecodeCrafts`.
- RadonCli.DryRun: the dry run of a request in the toolkit (`toolkitRun`, radon.js:500-516) is taken to return a report. Its failures and the "No dry-report?" throw are not modelled, nor is the report's `JSON.parse`. The same holds for `RadonCli.DryRunOutcome` and `RadonCli.DryRunCrafts`.
- The report functions read `indent` inside its own declaration (`const indent = options?.indent ? " ".repeat(…indent…) : ""`, radon.js:397 and 422). So with a truthy `options.indent` every report throws a ReferenceError before it prints. `decode` and `dryRun` are modelled with this throw, as the code is written (`RadonCli.ReportError`).
- `buildRequest` and `foldArgs` are not modelled. The model stops at the argument slots that would be passed to them.
- Protobuf decoding of `RADRequest` is a parameter. So are CBOR decoding and the `RadonOperators` registry.
- The protobuf decoder always fills `headers` and `script` with default values. The model therefore treats both as always present, and an empty script reaches `toHexString` and throws.
- The Radon type classes and their methods are not modelled. A parsed script is the term of the calls made, and whether a method of that name exists on the class is not checked.
- Numbers are integers. NaN, fractions, and `toString` of non-integers are not modelled. For this reason `commas` and `toFixedTrunc` take the text of the number.
- The second parameter `headers` of `flattenWitnetArtifacts` is only passed down the recursion and never read. It is omitted.
- RadonCli.KeyMatches: `toLowerCase` is modelled on ASCII letters only, as is `toUpperCase` in `toUpperCamelCase`.
- The `\w`, `\b` and `\s` character classes follow the ECMAScript definitions for the characters the model names. Unicode case mapping is left out.
- Within `dryRun`, a retrieval with too few arguments throws a ReferenceError, as the code is written: the message reads the undeclared `retrieval`. This is kept.
- `countLeaves` on a non-empty string recurses without end. The model reports that as the RangeError of a stack overflow.
- The other commands of `radon.js` (`init`, `assets`, `check`) and its `trace*` and `stringify*` functions are outside this model. So are the console, network and prompting helpers of `helpers.js`: the colours and `colorstrip`, `ipIsPrivateOrLocalhost`, `showUsage*`, `showVersion`, `toolkitRun`, `prompt`, `prompter`, `traceChecklists`, `traceHeader` and `traceTable`. `isHexStringOfLength` is not modelled either, because no modelled operation calls it.
- A falsy opcode makes the operator step of `parseScript` return `undefined` (src/lib/utils.js:159-186), so the next element starts a fresh script (`Script.FalsyOpcodeRestarts`).
- RadonCli.DryRun: modelled with the separator line at src/lib/cli/radon.js:327-329 corrected, as are `DryRunOutcome` and `DryRunCrafts`. As written, that line reads the undeclared `indent` and throws a ReferenceError once the first of two or more selected artifacts is done; `RadonCli.DryRunAsWritten` models that.
- RequestDecoding.DecodedRequest: follows src/lib/utils.js:47 as written, so a request with any retrieval that has body bytes fails with the ReferenceError. The same holds for `DecodedRetrievals` and `DecodeRadonRequest`. The corrected reading `IntendedRetrieval` is stated per retrieval only.
- Strings outside `Utf8` are sequences of characters, not of UTF-16 code units. A character outside the Basic Multilingual Plane counts as one, where JavaScript's `length`, indexing and `.` in a regular expression see two units. This affects `Hex.ChunksFrom` and `Hex.FromHexString` (for example on `0x😀a`), the `Text` functions, and the lengths that `Wildcards` and `RadonCli` compare.

## Findings

| source | as written | input that shows it | evidently intended | confidence | as-written member | corrected member |
|---|---|---|---|---|---|---|
| src/lib/helpers.js:405-423 | `charcode` is declared `const` and reassigned in the surrogate branch, so the assignment throws a TypeError | the string "😀" (units 0xD83D 0xDE00) | a surrogate pair is encoded as the four UTF-8 bytes of its code point | high, not executed | Utf8.SurrogatePairThrows | Utf8.IntendedPairEncoding |
| src/lib/cli/radon.js:327-329 | the separator line reads `indent`, which is not declared in `dryRun`, so the loop throws a ReferenceError after the first artifact whenever two or more are selected | pattern matching two requests | every selected artifact is dry-run in turn | high, not executed | RadonCli.DryRunAsWritten | RadonCli.DryRunAll |
| src/lib/utils.js:47 | `utf8ArrayToStr` is called by its bare name, but the module only re-exports it from `./helpers` (lines 28-32), which binds no local name, so any retrieval with body bytes throws a ReferenceError | a retrieval whose body is the byte `a` | the body is decoded with `helpers.utf8ArrayToStr`, as lines 35 and 49 call their helpers | high, not executed | RequestDecoding.BodyThrows | RequestDecoding.IntendedRetrieval |
