# BinaryData, modelled in Dafny

`BinaryData` (index.js) is a JavaScript class that holds a binary value.
The value is stored as an array of 0/1 bits, most significant bit first,
and its length is a whole number of 4-bit words (for every input the model
covers; see "Left out" for sparse arrays). `set` accepts four
kinds of input:

- a number, converted by a greedy scan of a table of powers of two;
- a string starting with `0x`, read as hexadecimal digits through a
  16-row word table;
- any other string, read as a string of `0` and `1` characters;
- an array of the numbers 0 and 1.

`set` remembers the raw input and records which conversion it took, or the
`error` type when the conversion fails. The getters read the value back as
a binary string, a bit array, a `0x…` hex string or a decimal number.
`and`, `or`, `xor` and `not` combine the stored value with an argument.

The project is seven modules, one per file:

- `options.dfy`: `Option`, for the source's `false` results.
- `bits.dfy`: bit sequences and their decimal value, the fixed-width binary
  expansion, the left padding to a whole word (the class's resolution of
  4), complement, and the `join('')` spelling.
- `words.dfy`: the word table, the valid-character strings, the `0x`
  prefix, and the two `find` lookups into the table.
- `js_host.dfy`: the host behaviour the class depends on.
  - `trim`, `startsWith`, `padStart` and `toUpperCase`.
  - A caller's array shared by reference (the class `JsArray`).
  - The 32-bit signed bitwise operators `&`, `|` and `^`, including their
    ToInt32 wrap-around.
- `conversions.dfy`: the private converters, written as the loops the class
  runs. Each one is proved equal to a reference function, and the
  reference functions carry the round-trip, width and validation lemmas.
- `binary_data.dfy`: the class `BinaryData`, with the fields `raw`, `kind`
  and `value` that `set` and the operators update in place.
  - Its invariant `Valid()` says the stored type and bits are what the
    stored raw input converts to.
  - Every public method is modelled with its `false` and `undefined`
    results.
  - `GetHex` and `GetDecimal` are methods without a `modifies` clause, and
    the other getters are functions that only `reads this`. So no getter
    changes the object.
- `scenarios.dfy`: the checks of test.js, replayed on the model. Each check
  is a method that builds an object and proves (`ensures ok`) that every
  comparison the test makes holds.

The model follows the code where the code and its comments differ:

- **Out-of-range numbers.** A number below 0 or at or above 2^32 matches
  no bracket of the bit table. The greedy loop then emits a single bit, so
  the number is stored as `0000` or `0001`, and `set` still reports
  success.
- **Operator results with bit 31 set.** The host operators return a
  negative 32-bit result in that case, and `set` stores it as `0000`. (The
  source carries a TODO about the operators using the system bit depth.)
- **Operator arguments.** A string argument is converted without trimming
  and without a hex path. An argument that is neither a number, a string
  nor an array counts as 0. A string or array argument that does not
  convert makes the source call `slice` on `false`, which throws. The
  model returns `TypeError` in that case and changes nothing, apart from
  the caller's array, which has already been padded.
- **The caller's array.** `set` and the operators pad a caller's array in
  place with `unshift(0)`. `getRaw` returns the copy taken before the
  padding.
- **The greedy loop.** Its invariant is stated once, as `GreedyState`,
  for numbers inside and outside the 32-bit range. Three lemmas give its
  start, one step and its end.

## Model

| member | source | states |
|---|---|---|
| Words.WordTableRow | index.js:60-77 | Row `i` of the word table holds the 4-bit binary expansion of `i`, the `i`-th digit of `0123456789ABCDEF`, and the decimal `i`. |
| Words.FindBinary | index.js:398 | `find` by binary string: the index of the first row at or after `from` whose binary field matches; no earlier row matches. It returns 16 when no row matches. |
| Words.FindHex | index.js:407 | `find` by hex string: the index of the first matching row at or after `from`; no earlier row matches. It returns 16 when no row matches. |
| Words.GetWordFromBinary | index.js:396-399 | The result is a table row. It is a row with the given binary string when one exists, and row 0 when none does. |
| Words.GetWordFromHex | index.js:406-408 | The result is a table row. It is a row with the given hex string when one exists, and row 0 when none does. |
| Words.GetWordFromBinaryOfWord | index.js:396-399 | For every 4-bit word, the lookup finds the row of the word's value. That row's binary field is the word, and its hex field is the digit of that value. |
| Words.GetWordFromHexOfDigit | index.js:406-408 | For every upper-case hex digit, the lookup finds the row of the digit's value. That row's hex field is the digit, and its binary field is the digit's 4-bit expansion. |
| Words.HexDigitWord | index.js:464-466 | The binary field found for a hex digit consists of `0`/`1` characters, and parsing them gives the digit's 4 bits. |
| Words.HexDigitMembership | index.js:98 | `ValidHexChars.includes(c)` holds if and only if `c` is 0-9 or A-F. |
| Words.BinaryCharMembership | index.js:91 | `ValidBinaryChars.includes(c)` holds if and only if `c` is `0` or `1`. |
| Words.HexValue | index.js:98 | The value of a hex digit is below 16 and is the digit's position in `ValidHexChars`. |
| Words.HexValueAt | index.js:98 | The character at position `i` of `ValidHexChars` is a hex digit whose value is `i`. |
| Bits.PadWidthBounds | index.js:441 | `Math.ceil(n / 4) * 4` is a multiple of 4 and lies in `n .. n + 3`. It is `n` when `n` is already aligned, and at least 4 when `n >= 1`. |
| Bits.Pad | index.js:440-444 | Left padding to the resolution: an aligned length, fewer than 4 fill elements, then the original sequence unchanged. |
| Bits.PadValue | index.js:440-444 | Padding with zero bits keeps the decimal value, and the padded width is the aligned width. |
| Bits.PadAligned | index.js:517-520 | An already aligned sequence is not padded. |
| Bits.Flip | index.js:351-353 | The complement keeps the length and holds `1 - b` at the position of every bit `b`. |
| Bits.FlipInvolution | index.js:350-353 | Complementing keeps the length, changes every bit, and complementing twice gives back the original. |
| Bits.FlipValue | index.js:350-353 | The complement of an `n`-bit value `v` has the value `2^n - 1 - v`. |
| Bits.BitString | index.js:264 | `join('')` of a bit array is a string of `0`/`1` characters of the same length. |
| Bits.BitStringRoundTrip | index.js:262-267 | `join('')` of a bit array gives a string of `0`/`1` of the same length, and parsing that string gives the bits back. |
| Bits.CharBitsRoundTrip | index.js:491-493 | Parsing a `0`/`1` string character by character, then joining the bits, gives the string back. |
| Bits.BitStringInjective | index.js:262-267 | Different bit arrays have different binary strings. |
| JsHost.Trim | index.js:173 | `trim` returns a slice `s[i..j]` of the string; every character before `i` and from `j` on is white space. The result neither starts nor ends with white space, and a string with no white space is returned unchanged. |
| JsHost.StartsWith | index.js:175 | `startsWith(p)` holds if and only if `p` is no longer than the string and matches it character by character from index 0. |
| JsHost.ToUpperCase | index.js:459 | `toUpperCase` never shortens a string. |
| JsHost.ToUpperCasePointwise | index.js:459 | Without the ff ligature, upper-casing keeps the length and puts the upper-case form of each character at its own index. |
| JsHost.TrimEnds | index.js:173 | A string that neither starts nor ends with white space is its own `trim`. |
| JsHost.PadStart | index.js:491 | `padStart(n, c)` returns the string preceded by enough copies of `c` to reach length `n`. |
| JsHost.ToUpperCaseAppend | index.js:459 | Upper-casing works character by character: the upper-case form of a concatenation is the concatenation of the upper-case forms. |
| JsHost.ToUpperCaseKeeps | index.js:459 | A string whose characters are all their own upper-case form is unchanged. |
| JsHost.ToUpperCaseOfPrefixed | index.js:459-462 | `"0x" + rest` upper-cases to `"0X"` followed by the upper-cased rest, so the digits start at index 2. |
| JsHost.BitwiseNatBits | index.js:337 | Bit `i` of `x op y` is `op` applied to bit `i` of `x` and bit `i` of `y`, and the result fits the width. |
| JsHost.BitwiseNatWidth | index.js:337 | Bits above the width of both operands contribute nothing to the result. |
| JsHost.BitwiseNatBelow | index.js:337 | If both operands are below `2^k`, so is their bitwise combination. |
| JsHost.JsBitwise | index.js:337 | The host's `&`, `|` and `^` return a signed 32-bit integer whose low 32 bits are the bitwise combination of the operands' low 32 bits (ToUint32). |
| JsHost.ToUint32Signed | index.js:337 | ToUint32 keeps a value in `0 .. 2^32-1` and maps its signed reading `u - 2^32` back to it. |
| JsHost.JsBitwiseNonNegative | index.js:337 | For operands below 2^31, the host's AND, OR and XOR operators are plain unsigned bitwise operations with a non-negative result below 2^31. |
| Conversions.BitTableEnds | index.js:84 | The bit table has 33 entries, from 1 through 2147483648 up to 4294967296. |
| Conversions.BitTableAt | index.js:84 | Entry `k` of the bit table is `2^k`. |
| Conversions.TopBitBrackets | index.js:420-426 | For `1 <= d < 2^32`, the top bit `k` is below 32 and `2^k <= d < 2^(k+1)`. Outside that range it is 0. |
| Conversions.DecimalBits | index.js:415-447 | A number is always stored in at least one word, and the length is a whole number of words. |
| Conversions.DecimalToBinary | index.js:415-447 | The three loops of `#decimalToBinary` return `DecimalBits(data)`. |
| Conversions.FindTopBit | index.js:420-426 | The scan stops at the top bit: for `1 <= d < 2^32`, `2^realBits <= d < 2^(realBits+1)`. Without a bracketing entry, `realBits` is 0. |
| Conversions.ScanStop | index.js:421-426 | The bracket test holds at an index up to the top bit if and only if that index is the top bit. |
| Conversions.GreedyStep | index.js:429-438 | One greedy step, emitting 1 and subtracting `2^k` or emitting 0, keeps "bits so far, shifted, plus the remainder equals the input". |
| Conversions.GreedyStart | index.js:428 | The greedy loop's state holds at the top bit, with nothing emitted and the whole input left. |
| Conversions.GreedyNext | index.js:428-438 | One pass of the loop body reads `2^k` from the table. Emitting 1 and subtracting, or emitting 0, keeps the loop's state at `k - 1`. |
| Conversions.GreedyEnd | index.js:428-438 | When the loop's state reaches position -1, the emitted bits are `DecimalDigits(data)`. |
| Conversions.GreedyBits | index.js:428-438 | The greedy loop emits the binary expansion of `d` on its own bit length for `0 <= d < 2^32`. Otherwise it emits the single fallback bit. |
| Conversions.PadZeros | index.js:440-444 | The `unshift(0)` loop left-pads the bits with 0 to a whole number of words. |
| Conversions.DecimalRoundTrip | index.js:415-447 | For `0 <= d < 2^32`, the stored bits read back as `d` on the word-aligned width of its bit length. |
| Conversions.DecimalMinimalWidth | index.js:441-444 | For `d >= 1`, fewer than 4 zero bits come before the leading 1, so no excess words are stored. |
| Conversions.DecimalWidth | index.js:441-444 | A number from `2^(w-4)` to `2^w - 1` is stored in exactly `w` bits and reads back as itself. |
| Conversions.DecimalOutOfRange | index.js:421-438 | A negative number is stored as `0000`, and a number at or above 2^32 as `0001`. |
| Conversions.HexDigitBits | index.js:462-466 | Expanding hex digits gives exactly 4 bits per digit. |
| Conversions.HexStringBits | index.js:454-474 | When a hex string converts, its bits are a whole number of words. |
| Conversions.HexDigitBitsStep | index.js:462-470 | One more digit keeps the string valid if and only if that digit is a hex digit, and it appends that digit's 4 bits. |
| Conversions.PushBits | index.js:464-466 | Pushing `parseInt(c, 2)` for each character of a `0`/`1` string appends the string's bits. |
| Conversions.HexStringToBinary | index.js:454-474 | The upper-casing loop returns the expansion of the digits after the prefix when every digit is 0-9A-F, and `false` (None) otherwise. |
| Conversions.HexDigitBitsGroup | index.js:462-466 | Word `i` of the expansion is the 4-bit expansion of digit `i`. |
| Conversions.HexDigitBitsSpelling | index.js:462-466 | Hex/binary consistency: the binary string of an expanded hex value is the table's binary strings of its digits, concatenated. |
| Conversions.HexDigitBitsValue | index.js:454-474 | The expanded bits read back as the base-16 value of the digits. |
| Conversions.PadStartIsPad | index.js:490-491 | `padStart` to `Math.ceil(len / 4) * 4` with `'0'` is left padding to whole words. |
| Conversions.PadKeepsBinaryChars | index.js:491-497 | The padded string is all `0`/`1` if and only if the original string is. |
| Conversions.CharBitsPad | index.js:491-493 | Parsing the `'0'`-padded string is padding the parsed bits with 0. |
| Conversions.BinaryStringBits | index.js:481-501 | When a binary string converts, its bits are a whole number of words. |
| Conversions.CharBitsStep | index.js:491-497 | One more character keeps the string valid if and only if it is `0` or `1`, and it appends that character's bit. |
| Conversions.ReadBinaryChars | index.js:491-497 | The `forEach` succeeds if and only if every character is `0` or `1`. It then returns each character's bit. |
| Conversions.BinaryStringToBinary | index.js:481-501 | `#binaryStringToBinary` returns `BinaryStringBits(data)`. |
| Conversions.BinaryStringMeaning | index.js:481-501 | All-or-nothing validation: a string converts if and only if all its characters are `0`/`1`. Its bits then spell the string left-padded with `0` and keep the string's value. |
| Conversions.PadKeepsBitArray | index.js:517-529 | The padded array is all 0/1 if and only if the original array is. |
| Conversions.ArrayBits | index.js:508-533 | When an array converts, its bits are a whole number of words. |
| Conversions.ArrayMeaning | index.js:508-533 | An array converts if and only if every element is exactly 0 or 1. Its bits are then the array left-padded with 0, so `Pad`'s contract gives their length and layout. |
| Conversions.ArrayValue | index.js:508-533 | The padded array has the value of the original array. |
| Conversions.BitArrayStep | index.js:523-529 | One more element keeps the array valid if and only if that element is 0 or 1. |
| Conversions.UnshiftZeros | index.js:518-520 | The caller's array, in place: `width - len` zeros are prepended to its old contents. |
| Conversions.ReadBitArray | index.js:523-529 | The `forEach` succeeds if and only if every element is 0 or 1, and it then returns the elements. |
| Conversions.BinaryArrayToBinary | index.js:508-533 | The caller's array is left padded in place, and the result is `ArrayBits` of the array as passed. |
| Conversions.HexDigits | index.js:297-309 | `getHex` gives one digit per 4-bit word. |
| Conversions.HexDigitsAppendWord | index.js:302-304 | Appending a word with value `d` appends the digit of `d`. |
| Conversions.WordLookup | index.js:302-304 | Looking up a spliced word by its binary string yields the reference digit of that word. |
| Conversions.HexDigitRow | index.js:60-77 | The digit of a word is the hex field of the table row whose binary field is that word. |
| Conversions.HexRoundTrip | index.js:297-309 | Hex round trip: `getHex` of an expanded hex value gives back the upper-case digits it came from. |
| Conversions.HexDigitsRoundTrip | index.js:454-474 | Binary round trip through hex: expanding the `getHex` digits of an aligned value gives the value back. |
| Conversions.WordSplice | index.js:303 | `splice(0, 4)` on the remaining suffix removes exactly the next word. |
| Conversions.HexOfBits | index.js:297-309 | The splice loop of `getHex` returns `"0x"` followed by `HexDigits(bits)`. |
| Conversions.FlipInPlace | index.js:350-353 | The `forEach` of `not` complements the array in place. |
| Conversions.GetDecimalInternal | index.js:544-552 | Adding `2^bit` for every set bit, counting from the least significant end, gives the value of the bits. |
| Binary.ParsedOrError | index.js:179-184 | A failed conversion becomes the `error` type with no bits. A successful one keeps its type and bits, and no other outcome is possible. |
| Binary.InterpretString | index.js:171-200 | A string is stored in whole words, and in the error state it has no bits. |
| Binary.Interpret | index.js:154-225 | What `set` stores is whole words. The error state has no bits, and an input that is not a number, string or array is an error. |
| Binary.OperandValue | index.js:559-578 | An argument's number is missing only for a string or an array, the cases where the source throws. A string's or array's number is never negative. |
| Binary.KindName | index.js:253-255 | The type name is `"error"` if and only if the type is the error state. |
| Binary.KindNameInjective | index.js:253-255 | Different types have different names. |
| Binary.BinaryData.constructor | index.js:144-146 | A new object is the result of `set` on its argument: it is consistent, it records the raw input, and it pads a caller's array in place. |
| Binary.BinaryData.Set | index.js:154-225 | Stores the raw input (for an array, the copy taken before padding) and the type and bits it converts to. It returns true if and only if the type is not `error`, and pads a caller's array in place. |
| Binary.BinaryData.GetLength | index.js:232-237 | The number of stored bits, always a multiple of 4. It is 0 in the error state. |
| Binary.BinaryData.GetRaw | index.js:244-246 | Exactly the stored raw input, which converts again to exactly the stored type and bits. |
| Binary.BinaryData.GetConversionType | index.js:253-255 | One of the five type names. It is `"error"` if and only if the object is in the error state. |
| Binary.BinaryData.GetString | index.js:262-267 | `false` if and only if in the error state. Otherwise a `0`/`1` string of `getLength` characters that parses back to exactly the stored bits. |
| Binary.BinaryData.Get | index.js:273-278 | The same as `getString`. |
| Binary.BinaryData.GetArray | index.js:285-290 | `false` if and only if in the error state. Otherwise a copy of the stored bits whose `join('')` is `getString`. |
| Binary.BinaryData.GetHex | index.js:297-309 | `false` if and only if in the error state. Otherwise `"0x"` followed by one upper-case digit per word. |
| Binary.BinaryData.GetDecimal | index.js:316-321 | `false` if and only if in the error state. Otherwise the value of the stored bits. |
| Binary.BinaryData.ConvertToDecimal | index.js:559-578 | The number an operator argument stands for: a number as it is, a string (untrimmed) or array by its binary value, anything else 0. It is None where the source throws, and a caller's array is padded in place. |
| Binary.BinaryData.Bitwise | index.js:335-341 | In the error state: `undefined`, and nothing changes. A bad argument: TypeError, and the object is unchanged. Otherwise the 32-bit host result of the argument and the stored value is stored as a decimal, and its binary string is returned. |
| Binary.BinaryData.And | index.js:335-341 | `Bitwise` with the host's AND: `undefined` in the error state, TypeError for a bad argument, otherwise the AND result stored as a decimal and returned as its binary string. A caller's array argument is padded in place. |
| Binary.BinaryData.Or | index.js:365-371 | The same with the host's OR. |
| Binary.BinaryData.Xor | index.js:378-384 | The same with the host's XOR. |
| Binary.BinaryData.Not | index.js:348-358 | In the error state: `undefined`, and nothing changes. Otherwise the complement of the bits is stored as a bit array with type `binaryArray`, and its binary string is returned. |
| Binary.NumberInput | index.js:158-169 | A number in `0 .. 2^32-1` is stored with type `decimal`, reads back as itself, and is stored on the aligned width of its bit length. |
| Binary.HexInput | index.js:171-186 | A trimmed `"0x" + rest` converts if and only if the upper-cased rest is all hex digits, and otherwise gives `error`. Its bits are then 4 per digit, `getHex` is `"0x"` followed by the upper-cased digits, and the value is their base-16 value. |
| Binary.BinaryInput | index.js:188-199 | A trimmed string without the `0x` prefix converts if and only if it is all `0`/`1`, and otherwise gives `error`. It is then stored left-padded with `0` and keeps its value. |
| Binary.ArrayInput | index.js:201-213 | An array converts if and only if every element is 0 or 1, and otherwise gives `error`. It is then stored left-padded with 0. |
| Binary.NotStored | index.js:355 | After `set` of the complemented copy, the type is `binaryArray` and the bits are the complement. |
| Binary.NotInput | index.js:348-358 | The complemented copy `not` hands to `set` is accepted unchanged as a bit array. NOT is an involution that keeps the length. |
| Binary.BitwiseInput | index.js:335-341 | For operands below 2^31, the operator result is stored as a decimal whose value is the unsigned bitwise combination of the operands. |
| Binary.OperandInput | index.js:559-578 | A string argument converts if and only if it is all `0`/`1`, and an array argument if and only if it is all 0/1. Each then stands for its binary value. |
| Scenarios.ReadWords3 | test.js:75-84 | Three words spell the table's binary strings, give one hex digit each, and have their base-16 value. |
| Scenarios.ReadWords4 | test.js:51-72 | Four words spell the table's binary strings, give one hex digit each, and have their base-16 value. |
| Scenarios.FourWordDecimal | test.js:51-60 | A number with four hex digits, the first of them not 0, is stored as exactly those four words. |
| Scenarios.DecimalExample | test.js:51-60 | 20862 is stored as the words 5, 1, 7, E. |
| Scenarios.Reads517E | test.js:51-72 | Those words read back as `0101000101111110`, `0x517E` and 20862. |
| Scenarios.DecimalValueCheck | test.js:51-60 | The decimal check: `get`, `getLength`, `getHex` and `getDecimal` of 20862 are the expected values. |
| Scenarios.FourDigitHex | test.js:63-72 | `"0x"` and four upper-case digits are stored as the four words of those digits. |
| Scenarios.HexStringExample | test.js:63-72 | `"0x517E"` is stored as the words 5, 1, 7, E. |
| Scenarios.HexValueCheck | test.js:63-72 | The hex-string check: all four reads of `"0x517E"` are the expected values. |
| Scenarios.BitStringOfPad | test.js:75-84 | Spelling a zero-padded bit sequence is padding its spelling with `0`. |
| Scenarios.BitStringInput | test.js:75-84 | The `join('')` spelling of any bit sequence, the empty one included, is stored as those bits padded to a whole word. |
| Scenarios.BinaryStringExample | test.js:75-84 | `"101100001"` is stored as the words 1, 6, 1. |
| Scenarios.Reads161 | test.js:75-84 | Those words read back as `000101100001`, `0x161` and 353. |
| Scenarios.BinaryStringCheck | test.js:75-84 | The binary-string check: all four reads of `"101100001"` are the expected values. |
| Scenarios.BitArrayInput | test.js:87-96 | An array of 0s and 1s is stored as the array padded to a whole word. |
| Scenarios.Array10A0 | test.js:87-96 | The test's 13-element array, padded, is the words 1, 0, A, 0. |
| Scenarios.BinaryArrayExample | test.js:87-96 | The test's array is stored as the words 1, 0, A, 0. |
| Scenarios.Reads10A0 | test.js:87-96 | Those words read back as `0001000010100000`, `0x10A0` and 4256. |
| Scenarios.BinaryArrayCheck | test.js:87-96 | The bit-array check: all four reads are the expected values, and the caller's array has been padded to 16 elements. |
| Scenarios.SmallBitwise | test.js:99-148 | On values below 16, the host operators combine only the low 4 bits. |
| Scenarios.BitwiseFour | test.js:99-148 | Four bits of an operator, position by position. |
| Scenarios.BitwiseOnWords | test.js:99-148 | A host operator on two one-word values, position by position. |
| Scenarios.OneWordDecimal | test.js:99-148 | A number in 0..15 is stored as one word, which reads back as its table row and as the number. |
| Scenarios.ReadWord | test.js:99-148 | One word reads back as its table row's binary string and hex digit, and as its value. |
| Scenarios.ReadOneWord | test.js:99-148 | The first four reads of any object holding one word `d` (0..15): its table row, length 4, its hex digit, and `d`. |
| Scenarios.OperatorWord | test.js:99-148 | An operator result on two one-word values, zero included, is below 16 and is stored as one word, its table row. |
| Scenarios.OperatorOnWord | test.js:99-148 | `and`, `or` or `xor` of any one-word number with any object holding one word returns the table row of the result and sets the type to `decimal`. |
| Scenarios.OperatorFlow | test.js:99-148 | An object made from a one-word number reads as its row, and an operator with a one-word number returns the row of the result. |
| Scenarios.AndResult | test.js:99-109 | 11 AND 13 is 9. |
| Scenarios.AndCheck | test.js:99-109 | The AND check: 13 reads as `1101`, 4, `0xD` and 13, and `and(11)` returns `1001`. |
| Scenarios.NotWord | test.js:112-122 | The complement of a one-word value `d` is the word of `15 - d`. |
| Scenarios.NotWordString | test.js:112-122 | The complement of the word of `d` spells the row of `15 - d`. |
| Scenarios.NotOnWord | test.js:112-122 | `not` of any object holding one word `d` returns the row of `15 - d`, and the type name becomes `"binaryArray"`. |
| Scenarios.NotFlow | test.js:112-122 | An object made from a one-word number reads as its row; `not()` returns the row of the complement, and the type becomes `binaryArray`. |
| Scenarios.NotCheck | test.js:112-122 | The NOT check: 1 reads as `0001`, 4, `0x1` and 1; `not()` returns `1110`, and the type becomes `binaryArray`. |
| Scenarios.OrResult | test.js:125-135 | 2 OR 1 is 3. |
| Scenarios.OrCheck | test.js:125-135 | The OR check: 1 reads as `0001`, 4, `0x1` and 1, and `or(2)` returns `0011`. |
| Scenarios.XorResult | test.js:138-148 | 3 XOR 5 is 6. |
| Scenarios.XorCheck | test.js:138-148 | The XOR check: 5 reads as `0101`, 4, `0x5` and 5, and `xor(3)` returns `0110`. |
| Scenarios.NonBinaryRejected | test.js:151-160 | Any string whose trim does not start with `0x` and holds a character other than `0`/`1` is refused, wherever that character is. |
| Scenarios.PlainString | test.js:155 | A non-empty string with no white space at its ends and no `x` at index 1 is its own trim and takes the binary-string path. |
| Scenarios.BadBinaryString | test.js:155 | `"01101031"` is refused. |
| Scenarios.BadBinaryArray | test.js:156 | `[1,2,0,1,0,1]` is refused. |
| Scenarios.UpperNotHex | test.js:157 | A character whose upper-case form holds a non-hex character prevents the upper-cased string from being all hex digits. |
| Scenarios.NonHexRejected | test.js:157 | Any string whose trim starts with `0x` and has, after the prefix, a character whose upper-case form holds a non-hex character is refused. |
| Scenarios.PlainHexString | test.js:157 | A string starting with `0x` and not ending in white space is its own trim and takes the hex path. |
| Scenarios.BadHexString | test.js:157 | `"0x34L1"` is refused. |
| Scenarios.SetRejected | test.js:151-160 | `set` of an input that does not convert returns false and leaves the object in the error state. |
| Scenarios.SetEmptyObject | test.js:154 | `set({})` returns false. |
| Scenarios.SetBadBinaryString | test.js:155 | `set('01101031')` returns false. |
| Scenarios.SetBadBinaryArray | test.js:156 | `set([1,2,0,1,0,1])` returns false. |
| Scenarios.SetBadHexString | test.js:157 | `set('0x34L1')` returns false. |
| Scenarios.ErrorHandlingCheck | test.js:151-160 | The error-handling check: starting from `"0"`, all four bad inputs make `set` return false, and the type ends as `"error"`. |

## Left out

- Console output: the `console.error` messages of `set`, and every message test.js prints. The Tester harness itself is replaced by the `Scenarios` methods.
- Non-integer numbers: fractions, NaN and the infinities are not inputs of the model, because number inputs are integers (`Num(n: int)`). The source's greedy loop on a fraction is not modelled.
- Elements of an input array are integers in the model; the source also accepts arrays holding arbitrary values. An array with a non-integer element is refused in both, because `forEach` compares each element with exactly 0 and 1.
- Sparse arrays are not modelled: a `JsArray` has no holes. The source accepts an array with holes, because `forEach` skips them. For `[1, , 0]` it stores the bits `0, 1, 0`, so the length is not a whole number of words, and `getHex` then looks up a short word and falls back to row 0.
- Binary.BinaryData.GetRaw: for an array input the source returns its internal copy by reference, so a caller can change the object's raw input through the result. The model returns the raw input as a value and does not capture that aliasing.
- Binary.BinaryData.GetDecimal: the value is exact at every length. The source sums `Math.pow(2, bit)` in floating point, which is exact only below 2^53, so the model does not capture rounding for values of 54 bits or more.
- Binary.BinaryData.ConvertToDecimal: an argument's binary value is exact at every length. The model does not capture the source's floating-point rounding of a value of 54 bits or more, nor ToInt32 of such a rounded value.
- JsHost.ToUpperCase: it maps only a-z and U+FB00 ("ff", upper-cased to "FF"). Every other code point is kept. Other code points would upper-case either to themselves or to characters that are not hex digits, so hex acceptance and the stored bits are unaffected, but the model does not capture their exact upper-case forms.
- Strings are sequences of Unicode code points, not UTF-16 code units. The lengths differ only for characters outside the Basic Multilingual Plane, and an input holding such a character is refused in both.
- The error state: the source stores `false` from a failed converter; the model stores no bits. Every getter tests the type before it reads the value, so the two cannot be told apart.
- Binary.BinaryData.Bitwise: the stored value enters the host operator exactly, as the value of the stored bits. The source passes `getDecimal()` (index.js:337, 367, 380), a floating-point sum of `Math.pow(2, bit)` that rounds once the value has 54 bits or more, and ToInt32 of the rounded number can differ in every one of the low 32 bits. For a stored value of 2^53 + 1 (`"0x20000000000001"`), `and(1)` gives `"0000"` in the source and `"0001"` in the model.
- Binary.BinaryData.And: the same exact stored value as `Bitwise`, without the source's rounding at 54 bits or more.
- Binary.BinaryData.Or: the same exact stored value as `Bitwise`, without the source's rounding at 54 bits or more.
- Binary.BinaryData.Xor: the same exact stored value as `Bitwise`, without the source's rounding at 54 bits or more.
- Binary.BinaryData.Bitwise: the exception the source throws when an operator argument does not convert is modelled as the `TypeError` result, not as control flow that unwinds the caller.
