# Sunbird DevOps: a verified model of its algorithms and protocols

The repository deploys the Sunbird platform. Most of it is configuration, but a few files hold real algorithms and state
machines. This project models those in Dafny and proves what they promise.

| module | models |
|---|---|
| `JsNumber`, `BitVectors` | the 32-bit operators of JavaScript on numbers of any size and sign, and that they agree with bit-vectors |
| `X64`, `Murmur`, `MurmurCollisions`, `MurmurDigests` | 64-bit arithmetic on 16-bit limbs, the MurmurHash3 x64-128 built on it, which keys it keeps apart, and a known digest |
| `Punycode`, `PunycodeCodec`, `PunycodeRoundTrip`, `PunycodeSamples` | Punycode of the bundled uri-js: specification, code, round trip, known encodings |
| `WordArrays`, `HexEncoding`, `Md5Spec`, `Md5`, `Md5Digests` | the byte buffers of CryptoJS, hexadecimal text, RFC 1321, the streaming hasher, and known digests |
| `DotSegments` | removal of dot segments from the path of a URI |
| `UuidV1` | the clock state of the version 1 UUID generator |
| `Telemetry` | the queue of telemetry events with its asynchronous answers |
| `Fingerprint` | the chain of continuations that collects the browser components |
| `KafkaExporter` | scrapes, readers and senders around one channel |
| `KongApis`, `KongPlugins`, `KongConsumers`, `KongReruns` | reconciliation of a Kong server with wanted APIs, plugins and consumers, and a second run of it |
| `GeoIp` | the single-entry cache of the GeoIP2 module and its hot reload |
| `AmbariCollector` | flattening and filtering of nested metrics |

Code that changes state step by step is a method or a class, proved equal to a specification on values; the lemmas then
say what the specification is good for. The specifications of the hashes and of Punycode are evaluated on published
inputs too, which pins their constants (`DigestOfFox`, `DigestOfEmpty`, `DigestOfAlphabets`, `ChineseSample`).
`dafny verify dfyconfig.toml` checks everything.

Where a promise does not hold for all inputs, the exact condition is proved, with an input on which it fails:

- `x64Rotl` does not rotate by a multiple of 64 unless both halves are equal (`X64RotlExactly`, `RotlLosesOne`). Its
  callers pass 27, 31 and 33.
- The hash sees the low bytes of a block but the whole characters of the tail, so keys with characters above 255 collide
  (`CollisionInOneBlock`, `CollisionInTail`, `WideCharactersCollide`).
- The Punycode encoder checks that each count fits 31 bits, the decoder that the count and the position of the previous
  insertion together do. So for every length from 1928 code points on, the encoder accepts some string that the decoder
  rejects. No shorter string is affected (`EncodeThrows`, `RoundTrip`, `ShortStringsFit`, `UndecodableEncoding`).
- Bytes left over behind the significant ones of a word array end up in the padding of MD5 (`PaddedBuffer`,
  `LeftOverByte`).
- The dot of the regular expressions in `removeDotSegments` matches no carriage return, U+2028 or U+2029. A path with
  one of them makes the loop throw or run for ever (`RemoveResolves`, `RemoveFails`, `EndlessPath`).
- An END event empties the telemetry queue only if what is queued fits one batch (`EndEmptiesQueue`, `EndLeavesEvents`).
- `Store` reports an error whose text says "lower offset" even when it takes the message for its higher offset; nothing
  depends on that error (`ErrorForTaken`).
- A Kafka offset may be committed while a line of a lower offset is still unwritten. It cannot, which is sufficient but
  not necessary, when each reader fetches in the order of offsets and only after the lines it fetched before have been
  taken over (`LowerOffsetOvertaken`, `LowerOffsetsWritten`).
- The PATCH of a Kong plugin goes to the plugin saved last, since the variable of a comprehension outlives it in Python 2
  (`PatchesReachPlugins`, `AstrayPatch`).
- Saving the same Kong consumers again changes something if and only if a username is wanted both present and absent, or
  two inputs that want it present list different groups (`SaveConsumersAgain`, `UnsteadyInputs`).

## Model

| member | source | states |
|---|---|---|
| X64.X64Add | ansible/artifacts/sunbird/login/resources/js/telemetry_service.js:431-447 | The sum modulo 2^64, for every pair of words given as two numbers of any sign. |
| X64.X64Multiply | ansible/artifacts/sunbird/login/resources/js/telemetry_service.js:453-478 | The product modulo 2^64. Every sum of limb products whose carry is taken with `>>> 16` is shown to stay below 2^32. |
| X64.Accumulate | ansible/artifacts/sunbird/login/resources/js/telemetry_service.js:435-443 | Adding to a limb and carrying into the next one changes the number that the four limbs stand for by exactly the addend. |
| X64.AccumulateTop | ansible/artifacts/sunbird/login/resources/js/telemetry_service.js:475-476 | Cutting the top limb to 16 bits takes the number of the four limbs modulo 2^64, even where the limb outgrows 32 bits. |
| X64.X64XorMeans | ansible/artifacts/sunbird/login/resources/js/telemetry_service.js:514-516 | Word by word, the halves give the exclusive or of the 64-bit numbers. |
| X64.X64LeftShiftMeans | ansible/artifacts/sunbird/login/resources/js/telemetry_service.js:500-509 | A left shift by the count modulo 64 on all three branches. |
| X64.Shl64IsProduct | ansible/artifacts/sunbird/login/resources/js/telemetry_service.js:500-509 | The shift is multiplication by a power of two modulo 2^64. |
| X64.X64RotlExactly | ansible/artifacts/sunbird/login/resources/js/telemetry_service.js:484-494 | A rotation by n positions if and only if n is not a multiple of 64 or the two halves are equal: for a multiple of 64 the code ors the halves together, because shift counts are taken modulo 32. |
| X64.RotlLosesOne | ansible/artifacts/sunbird/login/resources/js/telemetry_service.js:484-494 | The input on which it fails: rotating 1 by 64 gives 2^32 + 1. |
| BitVectors.WordsMean | ansible/artifacts/sunbird/login/resources/js/telemetry_service.js:515 | And, or and xor, which are recursive on numbers, are the bit operations of 32-bit vectors. |
| BitVectors.SumsMean | ansible/artifacts/sunbird/login/resources/js/telemetry_service.js:250 | The sum of two words modulo 2^32 is the sum of the vectors. |
| Murmur.X64Fmix | ansible/artifacts/sunbird/login/resources/js/telemetry_service.js:522-529 | The finalizer of MurmurHash3 on plain 64-bit numbers. |
| Murmur.LoadMeans | ansible/artifacts/sunbird/login/resources/js/telemetry_service.js:547-548 | Eight characters packed by masks and shifts are a little-endian load of their low bytes. |
| Murmur.AbsorbBlock | ansible/artifacts/sunbird/login/resources/js/telemetry_service.js:547-562 | One loop body on pairs of 32-bit words is one block step of the 64-bit specification. |
| Murmur.TailK2 | ansible/artifacts/sunbird/login/resources/js/telemetry_service.js:566-586 | The fall-through cases 15 to 9 give the word that xors each remaining character, unmasked, in at its byte place. |
| Murmur.TailK1 | ansible/artifacts/sunbird/login/resources/js/telemetry_service.js:592-614 | The same for the cases 8 to 1. |
| Murmur.Finish | ansible/artifacts/sunbird/login/resources/js/telemetry_service.js:621-628 | Length, cross additions and finalizers as in the 64-bit specification. |
| Murmur.X64Hash128 | ansible/artifacts/sunbird/login/resources/js/telemetry_service.js:535-630 | For every key and seed, the digest is that of the 64-bit specification of the hash over the key. |
| MurmurDigests.DigestOfFox | ansible/artifacts/sunbird/login/resources/js/telemetry_service.js:535-630 | A known answer with a seed: the digest of "The quick brown fox jumps over the lazy dog" for the seed 0x9747b28c, in hexadecimal. Its two blocks, eleven characters of tail and final mix use all constants and rotations. |
| MurmurCollisions.XorShift33Undo | ansible/artifacts/sunbird/login/resources/js/telemetry_service.js:523-527 | Xor with the 33-bit right shift is its own inverse. |
| MurmurCollisions.FmixIsPermutation | ansible/artifacts/sunbird/login/resources/js/telemetry_service.js:522-529 | The finalizer is a permutation of the 64-bit words; an explicit inverse undoes it on both sides. |
| MurmurCollisions.FinalIsPermutation | ansible/artifacts/sunbird/login/resources/js/telemetry_service.js:621-628 | For every key length the whole final mix is a permutation of the pairs of words, again with an explicit inverse. |
| MurmurCollisions.BlockKeepsStatesApart | ansible/artifacts/sunbird/login/resources/js/telemetry_service.js:549-562 | Two states that a block takes to one state are equal. |
| MurmurCollisions.BlockKeepsWordsApart | ansible/artifacts/sunbird/login/resources/js/telemetry_service.js:549-562 | Two pairs of block words that take a state to one state are equal. |
| MurmurCollisions.DigestDeterminesState | ansible/artifacts/sunbird/login/resources/js/telemetry_service.js:629 | The 32 hexadecimal digits determine both words of the state. |
| MurmurCollisions.TailIsLoad | ansible/artifacts/sunbird/login/resources/js/telemetry_service.js:566-614 | For characters up to 255 the fall-through tail is a zero-padded little-endian load of the remaining bytes. |
| MurmurCollisions.TailWordDetermines | ansible/artifacts/sunbird/login/resources/js/telemetry_service.js:566-614 | For characters of any size, the fall-through cases determine exactly these bytes: each low byte xor-ed with the high byte before. |
| MurmurCollisions.CollisionInOneBlock | ansible/artifacts/sunbird/login/resources/js/telemetry_service.js:546-563 | Keys that differ in one 16-character block only have one digest if and only if the low bytes of that block agree. |
| MurmurCollisions.CollisionInTail | ansible/artifacts/sunbird/login/resources/js/telemetry_service.js:564-620 | Keys that differ in the tail only have one digest if and only if, in each half of the tail, the low byte of every character xor the high byte of the one before is the same. |
| MurmurCollisions.ByteStringsApart | ansible/artifacts/sunbird/login/resources/js/telemetry_service.js:535-630 | For characters up to 255, different keys of one length that differ in one block or only in the tail have different digests, for every seed. |
| MurmurCollisions.ShortByteStringsNeverCollide | ansible/artifacts/sunbird/login/resources/js/telemetry_service.js:535-630 | For characters up to 255 and lengths up to 16, keys of one length have one digest if and only if they are equal. |
| MurmurCollisions.WideCharactersCollide | ansible/artifacts/sunbird/login/resources/js/telemetry_service.js:547-614 | With larger characters it fails, in a block and in the tail: two pairs of different keys that have one digest for every seed. |
| PunycodeCodec.Ucs2Decode | ansible/artifacts/sunbird/login/resources/js/telemetry_service.js:2 | ucs2.decode yields the code points of a UTF-16 string, with unpaired surrogates as they are. |
| PunycodeCodec.AdaptBias | ansible/artifacts/sunbird/login/resources/js/telemetry_service.js:2 | The loop of adapt computes the specified bias for every number, also when 32-bit truncation or a zero divisor comes in. |
| PunycodeCodec.WriteVarInt | ansible/artifacts/sunbird/login/resources/js/telemetry_service.js:2 | The digit loop appends the generalized variable-length integer of delta (section 3.3 of RFC 3492). |
| PunycodeCodec.FindNext | ansible/artifacts/sunbird/login/resources/js/telemetry_service.js:2 | The least code point left to handle. |
| PunycodeCodec.RunPass | ansible/artifacts/sunbird/login/resources/js/telemetry_service.js:2 | The loop over the characters for one code point is the specified pass, with its overflow error. |
| PunycodeCodec.EncodeString | ansible/artifacts/sunbird/login/resources/js/telemetry_service.js:2 | punycode.encode computes the specified encoding or throws the specified error, for every string. |
| PunycodeCodec.ReadDigits | ansible/artifacts/sunbird/login/resources/js/telemetry_service.js:2 | The digit loop of decode, with the order of its three errors. |
| PunycodeCodec.DecodeString | ansible/artifacts/sunbird/login/resources/js/telemetry_service.js:2 | punycode.decode computes the specified decoding or throws the specified error, for every string. |
| PunycodeRoundTrip.UnitsOfCodePoints | ansible/artifacts/sunbird/login/resources/js/telemetry_service.js:2 | ucs2.encode undoes ucs2.decode on every string, well formed or not. |
| PunycodeRoundTrip.AdaptIgnoresPoints | ansible/artifacts/sunbird/login/resources/js/telemetry_service.js:2 | For an insertion within the current round the bias does not depend on the number of points: the encoder passes a number that stays the same during a pass, the decoder the current one, and both keep one bias. |
| PunycodeRoundTrip.AdaptBound | ansible/artifacts/sunbird/login/resources/js/telemetry_service.js:2 | Every bias lies between 0 and 215. |
| PunycodeRoundTrip.WeightFits | ansible/artifacts/sunbird/login/resources/js/telemetry_service.js:2 | The guard of the decoder against an overflow of the digit weight rejects no digit that an encoder writes before another one. |
| PunycodeRoundTrip.ReadVarInt | ansible/artifacts/sunbird/login/resources/js/telemetry_service.js:2 | Reading a written integer back gives its value, or an overflow exactly when value and start add up to more than 2^31 - 1. |
| PunycodeRoundTrip.PassDecodes | ansible/artifacts/sunbird/login/resources/js/telemetry_service.js:2 | Decoding what one pass of the encoder wrote performs the insertions of that pass, or overflows exactly when one of them does not fit. |
| PunycodeRoundTrip.DecodeOfEncode | ansible/artifacts/sunbird/login/resources/js/telemetry_service.js:2 | Decoding an encoding gives the string back if all insertion counts fit 31 bits, and throws an overflow if not. |
| PunycodeRoundTrip.EncodeThrows | ansible/artifacts/sunbird/login/resources/js/telemetry_service.js:2 | The encoder throws, and then an overflow, if and only if the count that some pass starts with, taken from behind the last insertion, does not fit 31 bits. |
| PunycodeRoundTrip.RoundTrip | ansible/artifacts/sunbird/login/resources/js/telemetry_service.js:2 | Encoding and decoding gives a string back if and only if all its insertion counts fit; otherwise the encoder throws or the decoder does. |
| PunycodeRoundTrip.ShortStringsFit | ansible/artifacts/sunbird/login/resources/js/telemetry_service.js:2 | Strings of up to 1927 code points always fit. |
| PunycodeRoundTrip.UndecodableEncoding | ansible/artifacts/sunbird/login/resources/js/telemetry_service.js:2 | The bound is exact: for every length from 1928 up to 2^31 - 1, a string of that many code points that the encoder accepts and the decoder rejects. |
| PunycodeRoundTrip.EncodeInjective | ansible/artifacts/sunbird/login/resources/js/telemetry_service.js:2 | Strings that the encoder accepts and that have one encoding are equal, also where the decoder rejects that encoding: a decoder with larger bounds in its guards would read it. |
| PunycodeSamples.ChineseSample | ansible/artifacts/sunbird/login/resources/js/telemetry_service.js:2 | Sample (B) of section 7.1 of RFC 3492, encoded and decoded: nine insertions with the bias adapted after each, damped after the first. |
| PunycodeSamples.CountrySample | ansible/artifacts/sunbird/login/resources/js/telemetry_service.js:2 | The same for two Chinese characters and "fiqs8s". |
| PunycodeSamples.WordSample | ansible/artifacts/sunbird/login/resources/js/telemetry_service.js:2 | The same for a word with basic code points in front, "and-6ma2c". |
| PunycodeSamples.DecodeErrors | ansible/artifacts/sunbird/login/resources/js/telemetry_service.js:2 | A text for each error of the decoder: a character that is not basic in front of the last dash, an end within a number, and a character that is no digit, reported as an overflow. A slash counts as the digit 25, since digits are tested from above only. |
| WordArrays.WordArray.Clamp | ansible/artifacts/sunbird/login/resources/js/telemetry_service.js:124-130 | Cuts the words to the significant bytes and clears the rest of the last word; the bytes stay. |
| WordArrays.WordArray.Concat | ansible/artifacts/sunbird/login/resources/js/telemetry_service.js:110-123 | Appends exactly the bytes of the other array, which may be the array itself, on all three paths: byte by byte, word by word, and by one push. |
| WordArrays.OrByteStores | ansible/artifacts/sunbird/login/resources/js/telemetry_service.js:117 | Or-ing a shifted byte into a place that holds zero stores it there and changes no other byte. |
| HexEncoding.Stringify | ansible/artifacts/sunbird/login/resources/js/telemetry_service.js:143-152 | Two lower-case digits per significant byte. |
| HexEncoding.ParseWords | ansible/artifacts/sunbird/login/resources/js/telemetry_service.js:153-155 | The loop of parse on any text: parseInt of each pair, zero where it is no number, and all bytes before a negative number in its word covered by ones. |
| HexEncoding.ParsedHex | ansible/artifacts/sunbird/login/resources/js/telemetry_service.js:153-155 | Of digit pairs those bytes are the values of the pairs. |
| HexEncoding.DigitSamples | ansible/artifacts/sunbird/login/resources/js/telemetry_service.js:154 | What parseInt makes of digits in both cases and of characters that are none. |
| HexEncoding.SignSamples | ansible/artifacts/sunbird/login/resources/js/telemetry_service.js:154 | What it makes of signs, spaces and the empty text. |
| HexEncoding.Parse | ansible/artifacts/sunbird/login/resources/js/telemetry_service.js:153-157 | The word array of text of even length, whatever the characters; for digit pairs, the bytes that the pairs stand for, in a clamped array. |
| HexEncoding.FromToHex | ansible/artifacts/sunbird/login/resources/js/telemetry_service.js:143-157 | Parsing what stringify writes gives the bytes back. |
| HexEncoding.ToFromHex | ansible/artifacts/sunbird/login/resources/js/telemetry_service.js:143-157 | Stringify gives lower-case text back. |
| HexEncoding.ParseLatin1 | ansible/artifacts/sunbird/login/resources/js/telemetry_service.js:166-169 | The low bytes of the character codes. |
| Md5Spec.PadFillsBlocks | ansible/artifacts/sunbird/login/resources/js/telemetry_service.js:374-384 | Padding completes the last block and takes between 9 and 72 bytes (sections 3.1 and 3.2 of RFC 1321). |
| Md5Spec.CompressAllSplit | ansible/artifacts/sunbird/login/resources/js/telemetry_service.js:193-208 | Compressing a text block by block can be interrupted at any block boundary. |
| Md5.Performs | ansible/artifacts/sunbird/login/resources/js/telemetry_service.js:252-270 | One of the 64 operations, computed on signed and unreduced numbers, is the operation of RFC 1321 on their 32-bit patterns; every partial sum stays below 2^53, since the bound on the variables grows by 2^31 an operation. |
| Md5.Round1 | ansible/artifacts/sunbird/login/resources/js/telemetry_service.js:303-318 | The sixteen operations of the first round in the order, with the words, shifts and constants of section 3.4 of RFC 1321. |
| Md5.Round2 | ansible/artifacts/sunbird/login/resources/js/telemetry_service.js:319-335 | The same for the second round. |
| Md5.Round3 | ansible/artifacts/sunbird/login/resources/js/telemetry_service.js:336-351 | The same for the third round. |
| Md5.Round4 | ansible/artifacts/sunbird/login/resources/js/telemetry_service.js:352-368 | The same for the fourth round. |
| Md5.SwapReverses | ansible/artifacts/sunbird/login/resources/js/telemetry_service.js:277-281 | The two masked rotations reverse the bytes of a word. |
| Md5.Hasher.DoProcessBlock | ansible/artifacts/sunbird/login/resources/js/telemetry_service.js:276-373 | Compresses the block at a word offset into the state; other words of the buffer stay, and words read past its end appear. |
| Md5.Hasher.Process | ansible/artifacts/sunbird/login/resources/js/telemetry_service.js:193-208 | Compresses every complete block of the buffer and removes it. |
| Md5.Hasher.Update | ansible/artifacts/sunbird/login/resources/js/telemetry_service.js:226-230 | The message grows by the chunk, the state holds its complete blocks and the buffer the fewer than 64 bytes behind them. |
| Md5.PaddedBuffer | ansible/artifacts/sunbird/login/resources/js/telemetry_service.js:376-387 | The bytes processed after the three writes are the buffered bytes and the padding of RFC 1321 if and only if at most 14 words are left over behind it, the byte at the end is 0 or 0x80, and zeros follow. A clamped buffer satisfies this exactly when its number of bits plus 64 fits 32 bits. |
| Md5.LeftOverByte | ansible/artifacts/sunbird/login/resources/js/telemetry_service.js:379 | An input on which it fails: one word of which three bytes count. |
| Md5.Hasher.DoFinalize | ansible/artifacts/sunbird/login/resources/js/telemetry_service.js:374-390 | For any buffer, the state compressed on over the bytes described above; if these are the right ones, the digest of everything given to the hasher. |
| Md5.Hasher.Finalize | ansible/artifacts/sunbird/login/resources/js/telemetry_service.js:231-234 | The same with a last chunk. |
| Md5.DigestInPieces | ansible/artifacts/sunbird/login/resources/js/telemetry_service.js:226-234 | Whatever the split into chunks, the last of them handed to finalize, the digest is that of the joined message. |
| Md5.Md5OfMessage | ansible/artifacts/sunbird/login/resources/js/telemetry_service.js:236-239 | The helper gives the digest of a message in one go, clamped or not, whenever its words as copied into the buffer pad right. |
| Md5Digests.DigestOfEmpty | ansible/artifacts/sunbird/login/resources/js/telemetry_service.js:193-390 | The digest of the empty message in the test suite of section A.5 of RFC 1321: all 64 constants and shifts. |
| Md5Digests.DigestOfAlphabets | ansible/artifacts/sunbird/login/resources/js/telemetry_service.js:193-390 | The digest of the 62 letters and digits in that suite: two blocks, with sixteen different words in the first, and the length of the message in the second. |
| DotSegments.RemoveDotSegments | ansible/artifacts/sunbird/login/resources/js/telemetry_service.js:2 | The loop with its five regular expressions has the outcome of the specification: a path, an exception, or no end. |
| DotSegments.LoopIsRounds | ansible/artifacts/sunbird/login/resources/js/telemetry_service.js:2 | That outcome is what running rounds one after the other does; when there is no end, every number of rounds leaves some input. |
| DotSegments.RemoveResolves | ansible/artifacts/sunbird/login/resources/js/telemetry_service.js:2 | The loop ends normally if and only if the path contains no carriage return, U+2028 or U+2029, and then gives the segments resolved on a stack (section 5.2.4 of RFC 3986). |
| DotSegments.RemoveFails | ansible/artifacts/sunbird/login/resources/js/telemetry_service.js:2 | Of the other paths it throws on those with such a character before the first slash behind the leading dot segments, and never ends on the rest. |
| DotSegments.EndlessPath | ansible/artifacts/sunbird/login/resources/js/telemetry_service.js:2 | A path on which it never ends, and one on which it throws. |
| DotSegments.EndlessSeparators | ansible/artifacts/sunbird/login/resources/js/telemetry_service.js:2 | Two more on which it never ends: U+2028 and U+2029 behind a slash. |
| DotSegments.LineFeedStays | ansible/artifacts/sunbird/login/resources/js/telemetry_service.js:2 | A line feed behind a slash stays: the last expression takes it. |
| DotSegments.ResultHasNoDots | ansible/artifacts/sunbird/login/resources/js/telemetry_service.js:2 | No segment of the result is a dot segment, and it is no longer than the path. |
| DotSegments.FixedPaths | ansible/artifacts/sunbird/login/resources/js/telemetry_service.js:2 | A path is left as it is if and only if it has none of those characters and no dot segment. |
| DotSegments.RemoveIdempotent | ansible/artifacts/sunbird/login/resources/js/telemetry_service.js:2 | A second run changes nothing. |
| DotSegments.UpCancels | ansible/artifacts/sunbird/login/resources/js/telemetry_service.js:2 | A segment that is no dot segment and the ".." behind it cancel each other anywhere in a path, and at its end leave a slash; nothing else is lost. |
| DotSegments.UpAtRoot | ansible/artifacts/sunbird/login/resources/js/telemetry_service.js:2 | At the root ".." does nothing, and it takes a relative first segment away. |
| DotSegments.HereVanishes | ansible/artifacts/sunbird/login/resources/js/telemetry_service.js:2 | "." does nothing anywhere in a path, and at its end leaves a slash. |
| DotSegments.LeadingDotsVanish | ansible/artifacts/sunbird/login/resources/js/telemetry_service.js:2 | A leading "./" or "../" goes, whatever follows. |
| UuidV1.Generator.Generate | ansible/artifacts/sunbird/login/resources/js/telemetry_service.js:13 | One call for a clock reading: the stamp or the rejection and the new clock state; a rejected call leaves the clock state as it was. |
| UuidV1.SeedIs | ansible/artifacts/sunbird/login/resources/js/telemetry_service.js:13 | The clock sequence starts from two random bytes modulo 2^14. |
| UuidV1.TimeLowIsLowWord | ansible/artifacts/sunbird/login/resources/js/telemetry_service.js:13 | The low field is the low word of the full count of 100 nanoseconds, although the milliseconds are masked to 28 bits (section 4.2.1 of RFC 4122). |
| UuidV1.EpochIsGregorian | ansible/artifacts/sunbird/login/resources/js/telemetry_service.js:13 | The offset in the formula is the time from 1582-10-15 to 1970-01-01 in the Gregorian calendar (section 4.1.4 of RFC 4122). |
| UuidV1.DayNumbersCount | ansible/artifacts/sunbird/login/resources/js/telemetry_service.js:13 | The day numbers that this uses go up by one from each day of that calendar to the next. |
| UuidV1.StampsDistinct | ansible/artifacts/sunbird/login/resources/js/telemetry_service.js:13 | In a run with fewer than 2^14 backward moves of the clock, no two calls get the same sequence, milliseconds and count. |
| UuidV1.StampsRepeat | ansible/artifacts/sunbird/login/resources/js/telemetry_service.js:13 | The bound is exact: a run with 2^14 backward moves whose first and last calls get the same stamp. |
| UuidV1.CallsInOneMillisecond | ansible/artifacts/sunbird/login/resources/js/telemetry_service.js:13 | Of any number of calls at a new reading, ahead or back, the first 10000 get counts from zero on one sequence and the others are rejected. |
| Telemetry.TelemetrySyncManager.SendTelemetry | ansible/artifacts/sunbird/login/resources/js/telemetry_service.js:1831-1840 | Queues the event and posts a batch for an END event or a full queue. |
| Telemetry.TelemetrySyncManager.SyncEvents | ansible/artifacts/sunbird/login/resources/js/telemetry_service.js:1844-1865 | Takes at most a batch off the front of the queue and posts it. |
| Telemetry.TelemetrySyncManager.PostDone | ansible/artifacts/sunbird/login/resources/js/telemetry_service.js:1866-1867 | A batch that succeeds, whichever it was, is acknowledged and leaves the queue alone. |
| Telemetry.TelemetrySyncManager.PostFailed | ansible/artifacts/sunbird/login/resources/js/telemetry_service.js:1868-1869 | The events of the failed batch, whichever it was, return to the back of the queue. |
| Telemetry.AnswerReachesItsBatch | ansible/artifacts/sunbird/login/resources/js/telemetry_service.js:1844-1869 | An answer concerns its own batch, whichever of those in flight: only it leaves the network, and after a failure exactly its events join the queue. |
| Telemetry.SendPosts | ansible/artifacts/sunbird/login/resources/js/telemetry_service.js:1835-1847 | A batch is posted if and only if the event is an END or completes a batch; it and the rest of the queue are the events in order, and the batch is full if anything is left. |
| Telemetry.EndSpellings | ansible/artifacts/sunbird/login/resources/js/telemetry_service.js:1837 | END in any mix of cases ends, and nothing else does. |
| Telemetry.Conservation | ansible/artifacts/sunbird/login/resources/js/telemetry_service.js:1831-1876 | In every run the events sent are, as a multiset, those queued, in flight and acknowledged. |
| Telemetry.BatchesBounded | ansible/artifacts/sunbird/login/resources/js/telemetry_service.js:1844-1865 | No batch ever posted exceeds the largest batch size in force. |
| Telemetry.FirstInFirstOut | ansible/artifacts/sunbird/login/resources/js/telemetry_service.js:1831-1867 | Without failures the batches in the order of posting, followed by the queue, are the events in the order of sending. |
| Telemetry.QueueStaysShort | ansible/artifacts/sunbird/login/resources/js/telemetry_service.js:1836-1839 | With one batch size and no failures the queue stays below it, and is empty after an END event. |
| Telemetry.EndEmptiesQueue | ansible/artifacts/sunbird/login/resources/js/telemetry_service.js:1837-1847 | In any state, an END event empties the queue if and only if queue and event fit one batch; otherwise the excess stays. |
| Telemetry.EndLeavesEvents | ansible/artifacts/sunbird/login/resources/js/telemetry_service.js:1831-1876 | A run from the empty queue in which it does not: with batches of two and two failed POSTs, an END leaves two events. |
| KafkaExporter.LastReadMessage.Store | exporters/Go/kafka-topic-exporter/main.go:55-74 | The table after a message; an error is reported for every message of a known partition, also when the table takes it. |
| KafkaExporter.ErrorForTaken | exporters/Go/kafka-topic-exporter/main.go:62-68 | A message is taken with an error if and only if its partition is known with a lower offset; a table and a message for which this happens. |
| KafkaExporter.CommitMessage | exporters/Go/kafka-topic-exporter/main.go:155-172 | Tables are committed in order. No error if and only if all offsets are positive and the broker accepts all; then every entry was committed, each once and to the reader of its table. Otherwise every entry of the tables before the first one with an obstacle was committed, of that one only entries that the broker accepts at positive offsets, and none of a later table. |
| KafkaExporter.Serve | exporters/Go/kafka-topic-exporter/main.go:178-218 | A scrape writes the lines it receives in order and commits the entries of the tables they lead to: all of the readers before the first one whose table has an obstacle, some of that one, none behind, and all when there is no obstacle. |
| KafkaExporter.TableIsLatest | exporters/Go/kafka-topic-exporter/main.go:55-74 | After any sequence of lines the table has, for each partition with a line of the cluster, one of its messages and none at a higher offset. |
| KafkaExporter.OrderDoesNotMatter | exporters/Go/kafka-topic-exporter/main.go:207-209 | Two orders of the same lines lead to the same partitions and offsets. |
| KafkaExporter.StepKeepsInv | exporters/Go/kafka-topic-exporter/main.go:178-218 | Every step of readers, senders and overlapping scrapes keeps all lines honest and all commits safe; a scrape that ends may commit any entries of its tables, and the tables are shown to hold the largest offsets. |
| KafkaExporter.TableCommitIsLatest | exporters/Go/kafka-topic-exporter/main.go:155-172 | An entry of a table, sent to the reader of that table, is the message at the largest offset among the lines of that reader. |
| KafkaExporter.ScrapesCanEnd | exporters/Go/kafka-topic-exporter/main.go:205-216 | In every run, what a scrape has received is what the method for serve takes, and its commits are ones the scrape can end with. |
| KafkaExporter.CommitSafety | exporters/Go/kafka-topic-exporter/main.go:178-218 | In every interleaving, each offset a scrape commits is the largest among the lines it wrote for that cluster and partition, belongs to a message fetched by that reader, and goes to the reader of that cluster. |
| KafkaExporter.LowerOffsetsWritten | exporters/Go/kafka-topic-exporter/main.go:186-209 | In a run in which each reader fetches in the order of offsets, and only once the lines of what it fetched before have been taken over, every fetched line of an offset below a committed one has been written. |
| KafkaExporter.LowerOffsetOvertaken | exporters/Go/kafka-topic-exporter/main.go:186-209 | Without that discipline it fails: an interleaving that commits offset 2 while the line of offset 1 was never written. |
| KongApis.SaveApis | ansible/static-files/kong-api-scripts/kong_apis.py:5-34 | The server ends with exactly the wanted names, each record with every sanitised attribute as the last input of its name has it, and records that were there and are wanted keep their ids and every attribute that no input of their name sends. New records have the server's own defaults besides, and no attribute that is not sent. On such a server nothing changes and only PATCH requests are sent. It fails before any change if and only if the server has more than 2000 APIs, and else at a POST if and only if a name that the server lacks is listed twice; then the old records are as before and exactly the new names listed in front have been created. |
| KongApis.CreateMissing | ansible/static-files/kong-api-scripts/kong_apis.py:22-24 | The inputs with new names become records, with the sanitised attributes and the defaults only, and existing ones stay; a POST meets a conflict if and only if a new name is listed twice, after the new names in front have been created. |
| KongApis.UpdateExisting | ansible/static-files/kong-api-scripts/kong_apis.py:26-30 | Every record of a saved name is, under its old id, the result of merging the inputs of its name in order. |
| KongApis.PatchedCarries | ansible/static-files/kong-api-scripts/kong_apis.py:26-30 | Merging the inputs of a name in order leaves each attribute as the last of them that has it. |
| KongApis.PatchRepeats | ansible/static-files/kong-api-scripts/kong_apis.py:28-30 | PATCHes of a record that already carries its inputs change nothing in the end, also when inputs of one name differ. |
| KongApis.DeleteUnwanted | ansible/static-files/kong-api-scripts/kong_apis.py:32-34 | Exactly the saved records whose names are not wanted are deleted. |
| KongApis.DeletedConverges | ansible/static-files/kong-api-scripts/kong_apis.py:18-34 | Creating, updating and deleting together reach the wanted state. |
| KongApis.DeletedRepeats | ansible/static-files/kong-api-scripts/kong_apis.py:18-34 | Starting from the wanted state they end in the same records. |
| KongPlugins.SavePlugins | ansible/static-files/kong-api-scripts/kong_apis.py:39-67 | The requests for the plugins of an API: POST for new names, PATCH for saved names, DELETE for unwanted ones, in this order. |
| KongPlugins.FindPlugin | ansible/static-files/kong-api-scripts/kong_apis.py:61-63 | After the comprehension its variable holds the last saved plugin, while its result starts with the matching one. |
| KongPlugins.RequestsAre | ansible/static-files/kong-api-scripts/kong_apis.py:48-67 | Which requests are sent, each for which input or saved plugin and with which body. |
| KongPlugins.RequestsInOrder | ansible/static-files/kong-api-scripts/kong_apis.py:48-67 | All POSTs come before all PATCHes, and these before all DELETEs. |
| KongPlugins.OverridesUntouched | ansible/static-files/kong-api-scripts/kong_apis.py:45-67 | No request changes or deletes a plugin that overrides another for one consumer. |
| KongPlugins.PatchesReachPlugins | ansible/static-files/kong-api-scripts/kong_apis.py:59-63 | All PATCHes for an API reach the plugin that their body names if and only if no saved name but that of the last saved plugin is asked for again, and no earlier plugin has that name. |
| KongPlugins.AstrayPatch | ansible/static-files/kong-api-scripts/kong_apis.py:59-63 | With the plugins acl and jwt saved in this order, the settings for acl go to jwt. |
| KongPlugins.OnlyPatchesIff | ansible/static-files/kong-api-scripts/kong_apis.py:48-67 | Nothing is created or deleted if and only if the saved names are the wanted ones. |
| KongConsumers.SaveConsumers | ansible/static-files/kong-api-scripts/kong_consumers.py:40-61 | A consumer that some input wants present has exactly the groups, and a credential as asked, of the last such input; one only wanted absent is gone; all others are as before. With distinct usernames every input is satisfied, and on a server that is already so nothing changes and only credential PATCHes are sent. For any inputs, the consumers before and after each turn are as one loop body after the other makes them, and nothing but credential PATCHes is sent if and only if every turn finds the groups and a credential there. It fails if and only if a group that has to be added to a consumer is listed twice; then the inputs in front have had their turns, and of this one only groups have been added. |
| KongConsumers.SettledConverges | ansible/static-files/kong-api-scripts/kong_consumers.py:42-61 | With distinct usernames the rule that the last input decides satisfies every input. |
| KongConsumers.GroupsNow | ansible/static-files/kong-api-scripts/kong_consumers.py:51-54 | The groups that a consumer has when its turn comes: those of an earlier input that wants it present, none after a deletion, or its own. |
| KongConsumers.SavePresent | ansible/static-files/kong-api-scripts/kong_consumers.py:51-55 | The same for one consumer to be present: its groups are replaced, one credential is updated or added, its other credentials and all other consumers stay. |
| KongConsumers.SaveGroups | ansible/static-files/kong-api-scripts/kong_consumers.py:131-149 | The consumer ends with exactly the listed groups; nothing is sent if and only if it has them already. On a conflict the groups listed in front have been added and none removed. |
| KongConsumers.NewGroup | ansible/static-files/kong-api-scripts/kong_consumers.py:140-145 | Adding a group meets a conflict exactly when the group was missing and is listed a second time. |
| KongConsumers.SaveCredential | ansible/static-files/kong-api-scripts/kong_consumers.py:100-129 | The first credential for the algorithm, HS256 if the input names none, is updated, or one is created; the others stay, and the result is as the input asks. |
| KongConsumers.CredentialMeets | ansible/static-files/kong-api-scripts/kong_consumers.py:100-129 | Afterwards the first credential for the algorithm is as asked, and a consumer that was as asked stays the same. |
| KongReruns.SaveConsumersAgain | ansible/static-files/kong-api-scripts/kong_consumers.py:40-61 | On a server that a run with the same inputs left, saving ends and sends nothing but credential PATCHes if and only if no username is wanted both present and absent and all inputs that want one present list the same groups; then every consumer, with all its credentials, is in the end as it was. |
| KongReruns.UnsteadyInputs | ansible/static-files/kong-api-scripts/kong_consumers.py:42-61 | Two lists of inputs that violate this condition. |
| KongReruns.SteadyHasNoConflict | ansible/static-files/kong-api-scripts/kong_consumers.py:131-149 | Under it the second run never adds a group twice. |
| KongReruns.TraceStable | ansible/static-files/kong-api-scripts/kong_consumers.py:51-55 | At any turn of a run, the PATCHes of the inputs so far, sent once more in order, would leave every credential as it is. |
| KongReruns.QuietTrace | ansible/static-files/kong-api-scripts/kong_consumers.py:51-55 | As long as every turn finds the groups and a credential there, a consumer is the one at the start with the first credential for each algorithm PATCHed by its inputs in order. |
| KongReruns.RepatchedFields | ansible/static-files/kong-api-scripts/kong_consumers.py:106-113 | A sequence of PATCHes leaves an attribute alone or sets it to one value, whatever it was. |
| Fingerprint.Get | ansible/artifacts/sunbird/login/resources/js/telemetry_service.js:1703-1758 | For every list of components the chain ends after exactly one event for each pause and each late answer of a component that is not excluded, and the callback has been called once, with one entry per such component, in list order, whichever of them pause, answer later or throw. |
| Fingerprint.Chain.ChainComponents | ansible/artifacts/sunbird/login/resources/js/telemetry_service.js:1724-1755 | What is recorded so far and what the rest will record always make up the expected list; the events left are those of the components left. |
| Fingerprint.Chain.Resume | ansible/artifacts/sunbird/login/resources/js/telemetry_service.js:1739-1748 | A timer or a late answer continues the chain where it waits, and one event less is left. |
| Fingerprint.EntryInResult | ansible/artifacts/sunbird/login/resources/js/telemetry_service.js:1716-1751 | A component that is not excluded has its entry behind those of the components in front, with the preprocessed answer or error text; an excluded one has none. |
| Fingerprint.EventsAreCounted | ansible/artifacts/sunbird/login/resources/js/telemetry_service.js:1735-1748 | The events of a run are as many as the pauses and late answers of the components that are not excluded. |
| AmbariCollector.Parser.ParseMetrics | images/azure-ambari-prometheus-exporter/collector.py:50-61 | The shared prefix is restored, and the dictionary is updated by the numeric leaves in document order. |
| AmbariCollector.LeavesArePaths | images/azure-ambari-prometheus-exporter/collector.py:50-61 | The leaves are exactly the numbers at the ends of paths of keys, named after their paths. |
| AmbariCollector.PathNameIsJoin | images/azure-ambari-prometheus-exporter/collector.py:58 | The name is the keys joined by underscores, with one more in front for a leaf without any key above it. |
| AmbariCollector.LastLeafWins | images/azure-ambari-prometheus-exporter/collector.py:60-61 | Of the leaves with one name the last one counts, and names without a leaf keep their value. |
| AmbariCollector.Parser.FilterByRule | images/azure-ambari-prometheus-exporter/collector.py:144-167 | Exactly the names that some rule of a white list finds, or no rule of a black list finds, are kept. |
| AmbariCollector.WhiteListDecides | images/azure-ambari-prometheus-exporter/collector.py:86-89 | A configured white list decides alone, whatever the black list says; kept metrics keep their values. |
| AmbariCollector.ParseWithFilter | images/azure-ambari-prometheus-exporter/collector.py:82-91 | Flattening, the white list or else the black list, then the update of the metrics collected before. |
| GeoIp.Database.Variable | images/proxy/ngx_http_geoip2_module/ngx_http_geoip2_module.c:201-213 | The result kept is the answer of some installed generation for the address kept, and the answer of the current one if no reload followed. |
| GeoIp.Database.Reload | images/proxy/ngx_http_geoip2_module/ngx_http_geoip2_module.c:727-766 | A reload happens if and only if it is due, the file is newer and opens; handle, generation and time of change then change together, the old handle is closed and one is opened. The cache stays as it is, and last_change never goes back. |
| GeoIp.RenewalSettles | images/proxy/ngx_http_geoip2_module/ngx_http_geoip2_module.c:727-766 | A file once installed is not installed again unless it gets newer, and is not looked at before the interval is over; a newer one is installed at the first look at which it opens. |
| GeoIp.NothingRenewed | images/proxy/ngx_http_geoip2_module/ngx_http_geoip2_module.c:727-766 | Without an interval or before it is over nothing changes; a file that is missing, not newer or unreadable changes the time of the check only. |
| GeoIp.LogHandler | images/proxy/ngx_http_geoip2_module/ngx_http_geoip2_module.c:722-771 | After the loop every database that was due, changed and readable has the handle, generation and time of its file, no other changed but for the time of its check, exactly one handle per database is open, and every cache is coherent, with the address, the result and the filled mark it had. |

## Left out

Of the modelled files:

- X64.X64RotlExactly: negative counts; no caller passes one.
- X64.X64LeftShiftMeans: negative counts, likewise.
- Murmur.X64Hash128: the defaults for a missing key or seed; a key of 2^32 characters or more is taken modulo 2^32 in the length words, as the code does.
- WordArrays.WordArray.Concat: totals of 2^32 bytes and more, where `>>> 2` on byte counts wraps.
- HexEncoding.Parse: the word array of text of odd length, which counts half a byte; its words are those of ParseWords.
- HexEncoding.ParseLatin1: Latin1.stringify, which differs from Hex.stringify only in the last step, and the conversion of strings to UTF-8.
- Md5.Hasher.DoFinalize: messages of 2^53 bits and more, where 8 * length is no longer exact.
- Md5.PaddedBuffer: buffers of 2^29 - 8 bytes and more that are not clamped; the number of bits wraps, and the writes go to the front.
- Md5.DigestInPieces: chunks of 2^32 - 64 bytes and more, and a last chunk of about 2^29 bytes and more, for which PaddedBuffer shows that the padding goes wrong.
- Md5.Md5OfMessage: HMAC, `clone`, `random`, and `_process(true)`, which nothing here calls.
- Md5.Performs: the constants are the 64 words of RFC 1321, which the digests of Md5Digests pin; that `4294967296 * abs(sin(i + 1)) | 0` yields them in floating point is not proved.
- PunycodeRoundTrip.RoundTrip: strings longer than 2^31 - 1 units. The limit of `String.fromCodePoint` on the number of arguments, `toASCII` and `toUnicode` are not modelled.
- UuidV1.Generator.Generate: explicit options, the node, and the time_high field, which loses the carry of the count.
- Telemetry.TelemetrySyncManager.SendTelemetry: the event envelope before `sendTelemetry`; what `jQuery.ajax` does is the choice of which answer comes next.
- Fingerprint.Get: a getData that never answers, answers twice or throws after its answer; a preprocessor or final callback that throws; `extendSoft`.
- KafkaExporter.CommitSafety: that no message is lost, which LowerOffsetOvertaken refutes and LowerOffsetsWritten shows under a condition; contexts, labels and number formats of a line.
- KongApis.SaveApis: the server is assumed to answer as the class `Kong` says: unique names, its own ids, PATCH merges attributes. HTTP errors, retries and paging are not modelled.
- KongPlugins.SavePlugins: what the server makes of the requests; updates do not converge, since a PATCH may reach another plugin.
- KongConsumers.SaveConsumers: the rate limits, the printing of tokens, and conflicts between the keys of different consumers.
- AmbariCollector.ParseWithFilter: the cluster and application-history variants; `re.search` is an arbitrary predicate.
- GeoIp.Database.Variable: the zero address that the cache starts with, which is answered without a lookup, and the answer for the cached address after a reload, which reads the old entry offset in the new file and is not determined by either generation. A lookup depends on generation and address only, and an error counts as not found.
- GeoIp.LogHandler: `ngx_http_geoip2_cleanup` at the end of the process.

Of the rest of the repository:

- The copies of the Kong scripts under `kubernetes/` and the stream variant of the GeoIP2 module repeat what is modelled.
- `mongodb_replication.py`: removal of hosts never reconfigures the set, and what remains is easy.
- The JSON-schema compiler ajv, the user-agent tables, browser probing, and the login and DOM code.
- The Keycloak client, Elasticsearch filters, Cassandra scripts, playbooks, charts and shell scripts: plumbing around I/O.
