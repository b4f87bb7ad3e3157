# A model of rdbparser

rdbparser reads the files and dumps of Redis (the RDB format), prints them as JSON, and turns keys
into RESTORE commands; beside it stand encoders for the length codec, ziplists and listpacks, and a
translator of glob patterns to PCRE2. This project models those parts in Dafny and proves what they
promise. `dafny verify dfyconfig.toml` checks all of it.

## The parts

- **Bytes, LengthCodec, Bufptr.** Byte order and two's complement; the length header in front of every
  item; the input cursor with its one-deep saved buffer. The cursor is a value, `Cursor`, of the rest of
  the main buffer, the rest of a decompressed block, and a flag `clean` that an observer sets to false
  when the source goes off track: when the second size of an LZF header cannot be read, which the source
  ignores (src/rdb_decode.cpp:116-120), when a block is decompressed inside another one that has bytes
  left, and when such a block is released. `RdbBufptr` is the class, proved against it. LZF is a function
  that fails or yields the requested number of bytes, and is passed to every decoder.
- **ZipList, ZipRead, ListPack, ListPackRead, ListValue.** The two list formats as functions, the writers
  as classes over a buffer proved to produce the format, and the readers. ZipMixed and PackMixed are the lists
  that Redis writes, with every documented code, and what the readers make of them.
- **Values, Records, Header, RdbDecode, Outputs.** `decode_hdr` and `decode_body` as functions from a cursor
  to a status, the callbacks, and a cursor, and the class `RdbDecode` whose loops are proved against them,
  errors included. Encoded and FileFormat relate them to what the encoders write and to the documented
  layout of a file, FileRecords to every documented value, callback by callback, compressed strings included.
- **RestorePayload, Restore, RestoreEncoded, RestoreFile.** What `write_restore_cmd` cuts out of a file and
  sends, the loop over a file, and what becomes of encoded values and files on that way. RestoreRead is the
  other end: a reader of the protocol that shares nothing with the writer.
- **Stream, StreamLife, StreamArena, StreamLayout, StreamDecode, StreamRead, StreamFormat.** Entries in listpack
  blocks, the arena of 64 slots and the memory beside it, the layout of a stream value, and the four levels of
  loops of `decode_stream`.
- **Json, StreamJson, StreamNames, JsonOutput, StreamPrint, StreamExamples.** Documents as token sequences, what
  the stream callbacks print, and small streams on which it goes wrong.
- **Crc64, JonesCrc, CrcPoly.** The bit-serial CRC-64, linearity, the class with the eight tables, and what the
  checksum is as a division of polynomials.
- **KnownAnswers, DocumentedDumps, DocumentedFile, StreamDump, StreamSample.** Inputs and outputs byte by byte:
  codes of every form, and the file, the dumps and the stream that rdb.adoc prints.
- **GlobMatch, GlobSyntax, GlobCanon, GlobCvt, GlobMeaning, GlobStars.** Globs, the emitted fragment of PCRE2
  with the backtracking control verb `(*COMMIT)`, both parsed from text, a canonical form that decides when two
  globs accept the same keys, the translator, and exactly when it keeps the meaning.

Classes follow the source's classes and own the same fields; ghost arguments of writer methods name the
list written so far.

## Where the code does not do what it is for

The model follows the code; the lemmas named here say exactly where it still does.

- 32-bit string sizes of a listpack are documented as big endian (rdb.adoc:614-641), written so, and read
  little endian; 24-bit integers are written with the high byte first; a negative 13-bit integer loses its
  sign when written, and a negative 13-bit code is extended wrongly when read
  (`ListPackRead.RoundTrip`, `IntSeen`, `LenSeen`, `ThirteenBits`). Lists that Redis itself has written are
  read as they are but for negative 13-bit codes (`PackMixed.MixedRead`).
- The duplicate-star branch of the glob translator also skips the character behind the second star, and takes
  the star byte of an escape for a first star; an escaped dot is emitted bare (`GlobStars.PreservedExactly` for
  globs without classes; `EscapedStar`, `BackslashDropped`, `EscapedDot`).
- With more than 64 master fields the field pointer of a stream entry with SAMEFIELDS is that of the master list
  on the heap, and `release` gives the list back while it is still in use; with exactly 64, the pointers of an
  entry without fields lie behind the arena, and `release` gives back what was never allocated
  (`StreamLife.FaultsExactly`, `StreamDecode.ReleasedExactly`, `StreamExamples.TornStream`).
- A stream entry without fields is printed with a comma before its closing brace, and `decode_stream` reports
  success without closing its lists if the name of a group or consumer cannot be read
  (src/rdb_decode.cpp:1052-1054 and 1107-1109): `StreamNames.ReportedJson`, with `StreamExamples.BareStream` and
  `StreamExamples.EarlyStream`.
- A decompress inside an unfinished block loses the rest of the main buffer (`Bufptr.DecompressConserves`,
  `Encoded.NestedLoss`). An aux code whose second string is compressed ends the loop over meta codes, and the
  header is reported as truncated (`FileFormat.FileRoundTrip`). A stream with a compressed consumer name is
  refused as truncated: the time behind the name is looked for in the block of the name
  (src/rdb_decode.cpp:1107-1113, `StreamExamples.ConsumerName`).
- In the second stream format the element count is decoded twice into one variable
  (src/rdb_decode.cpp:1018 and 1032), and the group offset is one variable for all groups. The flags of the
  earlier header are kept: an LZF header behind another one or behind an integer is refused, although it would
  be accepted by itself (`LengthCodec.KeptFlags`).

## The domain of RESTORE

`RestorePayload.Restorable` is the domain: the record is decoded to its end from a file that is buffered
whole, its key is a plain string, the run stays on track, decompressed blocks are used up, and at least one
more byte follows, as the end marker of a file always does.

Two statuses are not in the source. `OutOfBounds` marks where the source would touch memory that it was not
given: a declared list size larger than the buffer, a stream key shorter than 16 bytes, a ten-byte dump with a
trailing newline, and a stream entry whose memory was released, which is the outcome `Released`: nothing is
promised about such a run but that. `Unmodelled` marks the record types that are left out below.

## Model

| member | source | states |
|---|---|---|
| GlobStars.GlobPreserved | include/rdbparser/glob_cvt.h:34-105 | The translation preserves meaning: for every glob of the fragment, escapes and classes included, on which the condition `KeepsMeaning` holds, and every key, the emitted pattern compiles, and matched without backtracking past a `(*COMMIT)`, with its anchors dropped where the code drops them, it accepts the key exactly when the declarative glob does |
| GlobStars.PreservedExactly | include/rdbparser/glob_cvt.h:61-77 | For every glob of the fragment without classes, escapes included, the meaning is preserved if and only if the condition holds: the pattern is not empty, no escaped dot is emitted, what a duplicate star drops is a star or the backslash of an escape that is read alike without it, and a star that is dropped behind an escaped star is made up for before the next character other than a question mark |
| GlobStars.OrdinaryPreserved | include/rdbparser/glob_cvt.h:34-105 | The condition holds for every glob of the fragment with no star byte right behind a star byte and no dot right behind a backslash, so it keeps its meaning |
| GlobStars.KeepsExactly | include/rdbparser/glob_cvt.h:60-95 | From any point of the loop on, the glob and what is emitted have the same canonical form if the condition holds, and without classes only if it does |
| GlobStars.EscapedStar | include/rdbparser/glob_cvt.h:61-75 | The star of an escape counts as a first star: of the glob for a literal star, any run and an a, only the literal star is emitted, and the meaning is lost |
| GlobStars.BackslashDropped | include/rdbparser/glob_cvt.h:74-75 | Behind two stars only the backslash of an escaped letter is dropped, and the meaning is kept |
| GlobCanon.SameMeaning | include/rdbparser/glob_cvt.h:34-105 | Two globs without classes accept the same keys, with case folding or without, if and only if their canonical forms are equal |
| GlobCanon.CanonDecides | include/rdbparser/glob_cvt.h:34-105 | Globs with the same canonical form accept the same keys, classes included |
| GlobMeaning.TranslationMeaning | include/rdbparser/glob_cvt.h:34-105 | For every pattern of the fragment, adjacent stars and escaped dots included and anchored or not, the emitted pattern accepts exactly the keys of the tokens that the loop emits, with its outer stars |
| GlobMeaning.TranslatedText | include/rdbparser/glob_cvt.h:34-105 | One pattern with a letter, a star, a class, an escape, a dot and a question mark, and its translation as text, with both options and both anchors |
| GlobMeaning.OuterStars | include/rdbparser/glob_cvt.h:43-57 | Outer stars are dropped with their anchors; the translation of the empty pattern is its options |
| GlobMatch.Cases | include/rdbparser/glob_cvt.h:38-41 | Case folding pairs the 26 letters of each case and nothing else |
| GlobStars.EmptyPattern | include/rdbparser/glob_cvt.h:43-47 | The empty pattern is translated without anchors and accepts every key |
| GlobStars.EscapedDot | include/rdbparser/glob_cvt.h:61-68 | An escaped dot is emitted bare: the pattern for a single dot accepts every key of one character |
| GlobMatch.RunIsSound | include/rdbparser/glob_cvt.h:73-77 | What the committed matcher accepts, the glob matches |
| GlobMatch.RunIsComplete | include/rdbparser/glob_cvt.h:73-77 | What the glob matches, the committed matcher accepts: placing every segment as early as possible loses no match |
| GlobMatch.AbortIsFinal | include/rdbparser/glob_cvt.h:77 | An abort at a `(*COMMIT)` rules out a match from there or from any later start |
| GlobMatch.UnanchoredSearch | include/rdbparser/glob_cvt.h:44-51 | A search without start anchor accepts exactly what a leading star would |
| GlobMatch.AnchoredSearch | include/rdbparser/glob_cvt.h:45-46 | With the start anchor the search accepts exactly what the glob matches from the first character |
| GlobMatch.TrailingStar | include/rdbparser/glob_cvt.h:52-57 | Dropping the end anchor is the same as a trailing star |
| GlobCvt.GlobCvt.ConvertGlob | include/rdbparser/glob_cvt.h:34-105 | The final `off` is the length of the full translation, the result is 0 exactly when that fits, then the buffer holds the translation, and no cell from `maxlen` on is written |
| GlobCvt.GlobCvt.CharOut | include/rdbparser/glob_cvt.h:18-21 | Emits one character, stored only while it fits |
| GlobCvt.GlobCvt.StrOut | include/rdbparser/glob_cvt.h:23-32 | Emits a string, stored whole or not at all |
| JonesCrc.Tables.JonesCrc64 | src/rdb_decode.cpp:1333-1385 | For every initial crc, address, and buffer, the three loops over the eight tables compute the bit-serial reflected CRC of the bytes, which `CrcPoly.CrcExactly` and `CrcPoly.CheckValue` describe from outside |
| JonesCrc.Tables.Init | src/rdb_decode.cpp:1280-1326 | Table k holds, for every byte, k + 1 zero-byte steps of the bit-serial register |
| JonesCrc.BitLoop | src/rdb_decode.cpp:1290-1300 | The non-reflected bit loop over a byte is the reflected register after eight steps, bits in reverse order |
| JonesCrc.ReverseLoop | src/rdb_decode.cpp:1301-1305 | The 63-turn loop reverses all 64 bits |
| JonesCrc.Tables.Words | src/rdb_decode.cpp:1360-1372 | The loop over words advances the CRC by all whole groups of eight bytes |
| JonesCrc.Tables.Prologue | src/rdb_decode.cpp:1350-1353 | The byte loop advances the CRC up to an aligned address or the end |
| Crc64.BitStepsLinear | src/rdb_decode.cpp:1292-1300 | n steps of the register are linear over exclusive or |
| Crc64.SlicesAre64Steps | src/rdb_decode.cpp:1361-1369 | The exclusive or of the eight table entries is 64 zero-bit steps of the word |
| Crc64.SliceByEight | src/rdb_decode.cpp:1361-1369 | One turn of the word loop is the CRC of the eight bytes, one after the other |
| Crc64.CrcConcat | src/rdb_restore.cpp:77-88 | The CRC of a string fed in pieces is that of the whole string |
| CrcPoly.CrcExactly | src/rdb_decode.cpp:1283-1331 | A register is the checksum of a message if and only if, as a polynomial over GF(2), it is congruent to the message times x^64 (below the old register) modulo the generator, whose exponents are written out |
| CrcPoly.CrcCongruent | src/rdb_decode.cpp:1292-1300 | The checksum is a remainder: it differs from the dividend by a multiple of the generator |
| CrcPoly.OneRemainder | src/rdb_decode.cpp:1283 | Below degree 64 there is only one remainder |
| CrcPoly.CheckValue | src/rdb_decode.cpp:1388-1396 | The checksum of "123456789" is 0xe9c6d914c4b8d9ca, as the test program of the source expects |
| LengthCodec.LenRoundTrip | include/rdbparser/rdb_encode.h:33-63 | Every 64-bit length is read back from its header, which takes exactly the size of its code; other fields keep what an earlier header left |
| LengthCodec.IntRoundTrip | include/rdbparser/rdb_encode.h:79-100 | Every 32-bit integer is read back from its header |
| LengthCodec.LzfRoundTrip | src/rdb_decode.cpp:107-121 | Both sizes of an LZF header are read back |
| LengthCodec.LenShortest | include/rdbparser/rdb_decode.h:192-197 | No header that decodes to a plain length is shorter than the one the encoder chooses |
| LengthCodec.IntShortest | include/rdbparser/rdb_decode.h:198-203 | No header that decodes to an integer is shorter than the one the encoder chooses |
| LengthCodec.DecodeLocal | src/rdb_decode.cpp:86-142 | A decoded header does not depend on the bytes behind it, except for the two that an unreadable second size of an LZF header looks at |
| LengthCodec.KeptFlags | src/rdb_decode.cpp:86-142 | A header that is good by itself fails when it is decoded over an earlier one if and only if it is an LZF header and the earlier one was one or was an integer |
| LengthCodec.RdbLength.DecodeBuffer | src/rdb_decode.cpp:86-142 | Writes the fields and returns the size as specified; after a failed second size of an LZF header it goes on, as the source does |
| LengthCodec.RdbLenEncode.LenEncode | include/rdbparser/rdb_encode.h:38-63 | Writes the header for the chosen code and nothing else |
| LengthCodec.RdbLenEncode.StrSizeOf | include/rdbparser/rdb_encode.h:20-27 | The sizing call returns the size of what `str_encode` writes |
| LengthCodec.RdbLenEncode.IntSizeOf | include/rdbparser/rdb_encode.h:28-32 | For every 64-bit integer the code is chosen and kept with the value, so that `int_encode` writes its header, or nothing if it has none; the size returned is that of the header if there is one |
| LengthCodec.RdbLenEncode.StrEncode | include/rdbparser/rdb_encode.h:64-69 | Writes header and data |
| LengthCodec.RdbLenEncode.StrEncodeTwo | include/rdbparser/rdb_encode.h:70-78 | The two-buffer form writes what the one-buffer form writes for the concatenation |
| LengthCodec.RdbLenEncode.IntEncode | include/rdbparser/rdb_encode.h:79-100 | Writes the header of the integer that was sized |
| KnownAnswers.Lengths | rdb.adoc:182-222 | One length of every form, byte by byte |
| KnownAnswers.Integers | rdb.adoc:201-222 | Integers of every form and sign, byte by byte |
| Bufptr.IncrConserves | include/rdbparser/rdb_decode.h:92-101 | A successful `incr( n )` takes exactly the first n bytes off the logical stream |
| Bufptr.PopConserves | src/rdb_decode.cpp:44-75 | `look` and `free_alloced` leave the logical stream as it is |
| Bufptr.DecompressConserves | src/rdb_decode.cpp:14-42 | A successful `decompress` replaces the first zlen bytes of the stream by the inflated ones if and only if it does not start inside an unfinished block while the main buffer is saved |
| Bufptr.DecodeLenConserves | include/rdbparser/rdb_decode.h:132-143 | A decoded header is 1 to 19 bytes off the stream |
| Bufptr.DecodeLenStable | include/rdbparser/rdb_decode.h:132-143 | An OK from `decode` on a short, zero-padded lookahead is unchanged by any extension of the buffer, for LZF headers too |
| Bufptr.ConsumeCut | src/rdb_decode.cpp:144-156 | Data that was consumed without touching the end of the buffer is consumed alike when that end is cut off |
| Bufptr.RdbBufptr.IncrBy | include/rdbparser/rdb_decode.h:92-101 | Advances the cursor, or fails and changes nothing |
| Bufptr.RdbBufptr.Look | src/rdb_decode.cpp:64-84 | Pops back to the main buffer if the block is used up, and returns n bytes padded with zeros |
| Bufptr.RdbBufptr.FreeAlloced | src/rdb_decode.cpp:44-62 | Goes back to the main buffer if the block is used up; offsets still locate the main buffer in the file |
| Bufptr.RdbBufptr.DecompressBlock | src/rdb_decode.cpp:14-42 | Pushes the inflated block, saving the current buffer if it has bytes left |
| Bufptr.RdbBufptr.Decode | include/rdbparser/rdb_decode.h:132-143 | Decodes a header from the buffer or the lookahead, and advances |
| Bufptr.RdbBufptr.ConsumeData | src/rdb_decode.cpp:144-156 | Inflates if need be, and takes the data |
| ZipList.RdbZipEncode.AppendLink | include/rdbparser/rdb_encode.h:188-197 | Appends an entry whose prev field is the full size of the entry before it; `zltail` will be its offset |
| ZipList.RdbZipEncode.AppendLinkTwo | include/rdbparser/rdb_encode.h:199-209 | The two-buffer form leaves the buffer and the state that the one-buffer form leaves for the concatenation |
| ZipList.RdbZipEncode.AppendEnd | include/rdbparser/rdb_encode.h:180-186 | Completes the list: size, tail offset, clamped count and terminator around the entries |
| ZipList.RdbZipEncode.CalcLink | include/rdbparser/rdb_encode.h:125-132 | The sizing pass reaches, modulo 2^32, the offset of the writing pass, and its next prev value |
| ZipList.RdbZipEncode.CalcEnd | include/rdbparser/rdb_encode.h:120-123 | The sizing pass ends at the size of the written list if and only if that size fits 32 bits |
| ZipList.Append | include/rdbparser/rdb_encode.h:125-146 | Appending an entry to a list of entries: sizes, last size and last offset, across the switch from one to five prev bytes |
| ZipRead.RoundTrip | src/rdb_decode.cpp:162-200 | What `append_link` and `append_end` leave is opened, and `first` and `next` return exactly the strings in order, then false |
| ZipRead.BackwardWalk | include/rdbparser/rdb_encode.h:180-197 | For every nonempty written ziplist, the walk from `zltail` through the prev fields visits exactly the entries that `first` and `next` visit, in reverse |
| ZipRead.ZipNext | src/rdb_decode.cpp:162-200 | On arbitrary bytes: reads stay below the declared size, a true result lies inside it, and the cursor strictly advances; what it returns on entries of every form is `ZipMixed.MixedRead` |
| ZipRead.TraversalEnds | src/rdb_decode.cpp:162-200 | A traversal of arbitrary bytes ends within the declared size |
| ZipRead.RdbZipList.Next | src/rdb_decode.cpp:162-200 | Updates the list value as specified, on every list whose declared size lies within the buffer; integers and strings are what `ZipMixed.MixedRead` says |
| ZipRead.RdbZipList.Init | include/rdbparser/rdb_decode.h:250-261 | Refuses fewer than 10 bytes or a declared size below 11; does not compare the declared size with the buffer |
| ZipMixed.MixedRead | include/rdbparser/rdb_decode.h:240-366 | For every list of strings and integers in any order and in any of the documented forms (6, 14 and 32 bits of size; 4, 8, 16, 24, 32 and 64 bits of value; one or five prev bytes): it is opened, `first` and `next` return exactly its elements, then false, and visit every entry at its own offset |
| KnownAnswers.FiveInAZiplist | src/rdb_decode.cpp:187-189 | The bytes of the list of the integer 5, and what is read |
| KnownAnswers.ZipLinks | rdb.adoc:351-402 | Links of a ziplist at the limits of their forms, byte by byte |
| KnownAnswers.ZipCodes | rdb.adoc:384-400 | The six integer codes of a ziplist, byte by byte |
| ZipRead.IntegerRead | include/rdbparser/rdb_decode.h:340-357 | Immediate integers of one to eight bytes are read as rdb.adoc lays them out |
| ZipRead.TinyIntegerRead | include/rdbparser/rdb_decode.h:354 | Four-bit integers are read as 0 to 12 |
| ListPackRead.RoundTrip | include/rdbparser/rdb_encode.h:244-344 | For every mixed list of strings and integers: what is appended is opened, and is read back with every kind and value in order, if and only if it has no element on which the two sides disagree |
| ListPackRead.IntSeen | include/rdbparser/rdb_int.h:98-121 | An integer is read as it was written if and only if it is not in -4096..-1 and, in the 24-bit range, its three low bytes are equal |
| ListPackRead.LenSeen | include/rdbparser/rdb_decode.h:489 | A string size is read as it was written if and only if it is below 4096 or its four bytes are a palindrome |
| ListPackRead.Examples | include/rdbparser/rdb_encode.h:265-305 | Concrete disagreements: -1 is read as 4095, 32768 as -8388608, and a size of 4096 as 1048576 |
| ListPackRead.ThirteenBits | include/rdbparser/rdb_int.h:112-121 | A 13-bit code with a clear sign bit yields its two's complement value x, and one with the sign bit set yields 2 * p[1] - x - 2^32 |
| PackMixed.MixedRead | src/rdb_decode.cpp:202-235 | For every list of strings and integers in any documented form: it is opened, every entry is visited at its own offset, and all are read as what they are, but for negative 13-bit integers, whose wrong value is stated |
| KnownAnswers.DocumentedCodes | rdb.adoc:600-641 | The documented codes of a listpack, byte by byte |
| KnownAnswers.PackHeads | include/rdbparser/rdb_encode.h:289-302 | The string heads that the encoder writes, byte by byte |
| KnownAnswers.PackBits | include/rdbparser/rdb_encode.h:257-266 | The 7-bit and 13-bit integers that the encoder writes: -1 becomes cf ff |
| KnownAnswers.PackWide | include/rdbparser/rdb_encode.h:267-286 | The wider integers that the encoder writes: the 24-bit code has its high byte first |
| KnownAnswers.BackCodes | rdb.adoc:578-590 | The back codes of the documentation |
| ListPackRead.TwentyFourBits | include/rdbparser/rdb_int.h:98-108 | A 24-bit code that is laid out low byte first, as documented, yields its value |
| ListPackRead.BackRoundTrip | include/rdbparser/rdb_encode.h:244-255 | Every size, written as a back code, is read from right to left while 0x80 is set in exactly `lpback_size` bytes |
| ListPackRead.BackwardWalk | include/rdbparser/rdb_encode.h:244-255 | Every written listpack is walked backward through exactly the offsets of its elements, the ones `next` visits where sizes agree |
| ListPackRead.ForwardWalk | src/rdb_decode.cpp:202-235 | Integers that are misread never disturb the traversal |
| ListPackRead.LpNext | src/rdb_decode.cpp:202-235 | On arbitrary bytes: reads stay below the declared size, a true result lies inside it, and the cursor strictly advances, unused codes included |
| ListPackRead.TraversalEnds | src/rdb_decode.cpp:202-235 | A traversal of arbitrary bytes ends within the declared size |
| ListPackRead.RdbListPack.Next | src/rdb_decode.cpp:202-235 | Updates the list value as specified |
| ListPackRead.RdbListPack.Init | include/rdbparser/rdb_decode.h:390-400 | Refuses fewer than 6 bytes or a declared size below 7 |
| ListPack.LpBackSizeOf | include/rdbparser/rdb_decode.h:448-457 | The loop counts the groups of seven bits |
| ListPack.RdbListPackEncode.EncodeBack | include/rdbparser/rdb_encode.h:244-255 | The loop, which writes from right to left, leaves the back code of `link_sz` |
| ListPack.RdbListPackEncode.AppendImmediateInt | include/rdbparser/rdb_encode.h:334-338 | Appends the integer and its back code |
| ListPack.RdbListPackEncode.AppendLink | include/rdbparser/rdb_encode.h:340-344 | Appends the string and its back code |
| ListPack.RdbListPackEncode.AppendLinkTwo | include/rdbparser/rdb_encode.h:346-351 | The two-buffer form leaves what the one-buffer form leaves for the concatenation |
| ListPack.RdbListPackEncode.AppendEnd | include/rdbparser/rdb_encode.h:327-332 | Completes the list |
| ListPack.RdbListPackEncode.CalcImmediateInt | include/rdbparser/rdb_encode.h:230-235 | The sizing pass reaches, modulo 2^32, the offset and count of the writing pass |
| ListPack.RdbListPackEncode.CalcLink | include/rdbparser/rdb_encode.h:237-242 | The sizing pass reaches, modulo 2^32, the offset and count of the writing pass |
| ListPack.RdbListPackEncode.CalcEnd | include/rdbparser/rdb_encode.h:226-228 | The sizing pass ends at the size of the written list if and only if that size fits 32 bits |
| Encoded.QuicklistRoundTrip | src/rdb_decode.cpp:838-871 | A node count and then every node as a string holding a ziplist: `decode_quicklist` emits exactly the flattened values in order, whatever the split, and leaves what follows |
| Encoded.Quicklist2RoundTrip | src/rdb_decode.cpp:873-914 | The same for packed containers of listpacks: every node is read by itself, and as it was written if and only if it has no element on which the two sides disagree; the callbacks are those for what is read, in order |
| Encoded.MembersDecoded | src/rdb_decode.cpp:531-569 | Lists, sets and hashes of strings and integers written with the encoders are emitted in order |
| Encoded.ZiplistRoundTrip | src/rdb_decode.cpp:774-836 | A value that is one ziplist is emitted string by string, or pair by pair |
| Encoded.ListpackRoundTrip | src/rdb_decode.cpp:916-967 | A value that is one listpack is emitted element by element or pair by pair as it is read back, which is as it was written if and only if it has no element on which the two sides disagree |
| Encoded.CompressedRoundTrip | src/rdb_decode.cpp:611-638 | A compressed string yields the inflated bytes, and the next header is read from the main buffer |
| Encoded.NestedLoss | src/rdb_decode.cpp:14-42 | A compressed string inside a block that has more bytes is found, and everything in the main buffer is lost |
| Encoded.BlobRoundTrip | include/rdbparser/rdb_encode.h:64-69 | `decode` and `consume` give back what `str_encode` wrote |
| Encoded.AuxBlob | src/rdb_decode.cpp:144-156 | Length and data of a string, compressed or not, behind a string that was compressed or not: the data is found, and a compressed string leaves its block, used up, for the next header to pop |
| FileRecords.TypeBytes | include/rdbparser/rdb_decode.h:9-31 | All twenty type bytes with their types |
| FileRecords.NoTypes | include/rdbparser/rdb_decode.h:61-67 | 8 and everything from 20 on are no types, and nothing else |
| FileRecords.RecordDecoded | src/rdb_decode.cpp:237-421 | The first record of a file, behind any meta codes, for the type bytes 0, 1, 2, 4, 10, 12, 13, 14, 16, 17 and 18, with ziplists and listpacks of strings and integers in any documented form and any string compressed, key included: the type that the byte stands for is reported, the key is found, and the elements are handed on in order, each through the callback of its type |
| FileRecords.ValueRead | src/rdb_decode.cpp:515-609 | Which elements are taken from a value of any of these layouts, and where the cursor is left |
| FileRecords.ToldIs | src/rdb_decode.cpp:515-609 | Strings go to `d_string`, list elements to `d_list`, members to `d_set`, pairs to `d_hash` with the field first, or to `d_zset` with the member first |
| FileRecords.DumpDecoded | src/rdb_decode.cpp:265-294 | A dump of any of these values, with its checksum or without, with a line end or without: version 9, its type, the same callbacks, and it is used up |
| DocumentedDumps.StringDump | rdb.adoc:263-284 | The dump of a string that Redis has made is accepted, its checksum computed and equal, and yields the string |
| DocumentedDumps.StringRestored | src/rdb_restore.cpp:72-98 | What a RESTORE sends for that string is the dump that Redis has made, checksum included |
| DocumentedDumps.SetDump | rdb.adoc:286-317 | The documented bytes are the layout of that set |
| DocumentedDumps.HashDump | rdb.adoc:404-441 | The documented bytes are the layout of that hash in a ziplist |
| DocumentedDumps.ListDump | rdb.adoc:482-512 | The documented bytes are the layout of that quicklist |
| DocumentedDumps.PackedListDump | rdb.adoc:514-540 | The documented bytes are the layout of that quicklist of listpacks |
| DocumentedDumps.PackedHashDump | rdb.adoc:443-473 | The documented bytes are the layout of that hash in a listpack |
| DocumentedFile.FileDecoded | rdb.adoc:76-126 | The documented file, byte by byte: version 9, eight meta codes with their values, the key k, and the string |
| DocumentedFile.OtherCodes | rdb.adoc:51-72 | The meta codes that the documented file does not have, byte by byte |
| FileFormat.FileRoundTrip | src/rdb_decode.cpp:252-420 | The first record of a file with any meta codes, compressed aux strings included: version, meta codes in order, type, key and length are found as they were written, unless the second string of an aux code is compressed; then the header is reported as truncated |
| FileFormat.MetasRead | src/rdb_decode.cpp:296-385 | Meta codes are reported in order with their values, and the loop stops at the type byte, or behind the first aux code whose second string is compressed |
| Header.MetaShrinks | src/rdb_decode.cpp:299-384 | Every meta code takes bytes off the logical stream, even with compressed strings, so the loop ends |
| RdbDecode.RdbDecode.DecodeHdr | src/rdb_decode.cpp:237-421 | The same status, callbacks, type, key, length and cursor as the specification, on every input; on a file, the type offset it reports is where the record starts |
| RdbDecode.RdbDecode.OpenInput | src/rdb_decode.cpp:246-294 | Version and checksum of a file or a dump, with the newline of redis-cli |
| RdbDecode.RdbDecode.DecodeMetas | src/rdb_decode.cpp:296-385 | The loop over meta codes |
| RdbDecode.RdbDecode.DecodeBody | src/rdb_decode.cpp:515-609 | The same status, callbacks and cursor as the specification for every record type of the model, on every input; nothing but the status once a stream has touched released memory |
| RdbDecode.RdbDecode.DecodeMembers | src/rdb_decode.cpp:531-569 | The loops over members, with the callbacks made before an error |
| RdbDecode.RdbDecode.DecodeNodes | src/rdb_decode.cpp:838-914 | The loops over quicklist nodes |
| RdbDecode.RdbDecode.DecodeWhole | src/rdb_decode.cpp:774-836 | Values that are one ziplist or listpack |
| Records.BodyCut | src/rdb_decode.cpp:515-609 | A record that is decoded to its end without touching the last bytes of the buffer is decoded alike when they are cut off |
| Records.BodyLeads | src/rdb_decode.cpp:515-609 | A run that ends on track was on track all the way, and the main buffer only shrank |
| RestorePayload.RestorePreserves | src/rdb_restore.cpp:25-100 | For every key in the stated domain, the payload is accepted by `decode_hdr` as a version 9 dump, and `decode_body` makes the same callbacks on it as on the file, using it up |
| RestorePayload.DumpOpens | src/rdb_decode.cpp:265-294 | A dump framed as `write_restore_cmd` frames it is taken for version 9 with a checksum that agrees, whatever it holds |
| RestorePayload.ChecksumDecides | src/rdb_decode.cpp:265-294 | A dump is refused with RDB_ERR_CRC if and only if it has a checksum and another one than its bytes have; a line end behind it makes no difference |
| RestorePayload.DumpCrcIs | src/rdb_restore.cpp:77-88 | The checksum over three calls is that of type, body and version together |
| RestorePayload.KeyCut | src/rdb_restore.cpp:48-49 | Skipping the header and the bytes of a plain key leads to where the decoder goes on |
| RestoreEncoded.RecordRestorable | src/rdb_restore.cpp:31-51 | A record laid out with a plain key and a complete value, anywhere in a file with more bytes behind it, is in the domain, and its payload is byte by byte the dump of its length and value |
| FileRecords.ValueRestorable | src/rdb_restore.cpp:25-100 | A record of any of the documented values with a plain key, anywhere in a file: it is in the domain, and its payload is the dump of its type byte and of the bytes of its value as they are in the file, compressed or not |
| RestoreEncoded.QuicklistRestored | src/rdb_restore.cpp:25-100 | From the encoders through a file and RESTORE to a decoder: a list arrives with its values in order, whatever its split into nodes |
| RestoreEncoded.StreamRestored | src/rdb_restore.cpp:25-100 | A stream of either format whose blocks keep the memory rule arrives with all its contents |
| Restore.RestoreOutput.WriteRestoreCmd | src/rdb_restore.cpp:24-100 | Writes the command of the Redis protocol with RESTORE, the key, 0 and the cut-out value, and REPLACE if asked for; resets the state; writes nothing for a key that was not matched |
| RestoreRead.CommandRead | src/rdb_restore.cpp:56-100 | A reader of the protocol that is written by itself finds the arguments of every command, whatever bytes they hold, and touches nothing behind it |
| RestoreRead.DecimalDigits | src/rdb_restore.cpp:65-74 | A size is written in digits, and the first one is 0 for the size 0 alone |
| RestoreRead.RequestRead | src/rdb_restore.cpp:56-100 | To that reader the command is RESTORE, the key, 0, the value, and REPLACE if asked for, letter by letter |
| Restore.RestoreOutput.RestoreKey | src/rdb_main.cpp:268-298 | One turn of the loop over a file, the first one included: the command with exactly the payload of the record is sent, and the state is again one that a turn can start from; at the end mark nothing is sent |
| Restore.RestoreOutput.RestoreAll | src/rdb_main.cpp:267-301 | The loop over a file of n records in the domain sends n commands, in order, each with exactly its payload, and ends at the end mark |
| RestoreFile.FileRestored | src/rdb_main.cpp:267-301 | A file that is laid out as documented, with meta codes, any number of complete records and an end mark, is one that the loop can start on, and its commands are RESTORE of every key with the dump of its length and value |
| RestoreFile.RestoreAllOf | src/rdb_main.cpp:267-301 | The loop on the bytes of such a file writes exactly those commands |
| RestoreRead.AllRead | src/rdb_main.cpp:267-301 | To that reader the output of the whole loop is one RESTORE for every record, in order, with its key and the dump of its value, and nothing else |
| Outputs.Output.Notify | src/rdb_restore.cpp:12-22 | What each callback leaves in the state of RestoreOutput |
| StreamFormat.StreamRoundTrip | src/rdb_decode.cpp:969-1144 | Both stream formats, every stream whose listpacks are read as the elements of their blocks, compressed or not: if its blocks keep the memory rule, `decode_stream` finds exactly the live entries, the stream's numbers, and every group, pending entry and consumer that was put there; otherwise the run touches released memory. An entry that is not deleted is reported with the id of its block plus its differences, modulo 2^64, and every field beside its value |
| StreamFormat.AddedIs | src/rdb_json.cpp:279-280 | An id is that of the block plus the difference, in 64 bits, for negative differences too |
| StreamDump.DocumentedStream | rdb.adoc:643-763 | The stream of the documentation, byte by byte, with its two entries: the second id is 33584 milliseconds after that of the block |
| StreamSample.SampleStream | src/rdb_decode.cpp:969-1144 | A stream of the second format, byte by byte: of the entries with flags 1, 3 and 2 only the last is reported, as 6-3 in a block 1-0 with differences 5 and 3, then the numbers of the stream, a group, a pending entry and a consumer |
| StreamExamples.ConsumerName | src/rdb_decode.cpp:1107-1113 | A consumer is read if and only if its name is stored as it is; behind a compressed name the run ends as truncated |
| StreamLayout.FlagBits | include/rdbparser/rdb_decode.h:588-589 | Flag 1 hides an entry, flag 2 gives it the fields of its block |
| StreamLayout.BlockParsesBack | src/rdb_decode.cpp:423-513 | As far as parsing goes, a listpack with the elements of a header, master fields, zero and entries with or without SAMEFIELDS, however they are coded, is read into exactly those entries; what becomes of the memory of the fields between entries is stated in StreamLife |
| Stream.BackCount | src/rdb_decode.cpp:504-512 | An entry is accepted only if the element behind it counts the elements from its flags on |
| Stream.RecordInside | src/rdb_decode.cpp:447-513 | Fields and values of an entry come in pairs and lie inside the list |
| StreamArena.RdbStreamEntry.ReadHeader | src/rdb_decode.cpp:423-445 | Reads the header as specified; up to 64 master fields go to the arena, more to the heap |
| StreamArena.RdbStreamEntry.ReadEntry | src/rdb_decode.cpp:447-513 | Reads an entry as specified, its slots apart from each other and from those of the master fields; gives back and points at memory as StreamLife says; the master fields, and fields that are shared with them, are promised only while they have not been given back |
| StreamArena.RdbStreamEntry.Destroy | include/rdbparser/rdb_decode.h:610-624 | The destructor touches memory that is not allocated exactly when StreamLife says so |
| StreamLife.FaultsExactly | include/rdbparser/rdb_decode.h:604-624 | Over a run of blocks and the destructor, memory that is not allocated is read or given back if and only if one of the blocks has more than 64 master fields and two entries with SAMEFIELDS, or one if it is the last block, or has exactly 64 and an entry without fields |
| StreamDecode.ReleasedExactly | src/rdb_decode.cpp:969-1144 | On every input, a run of `decode_stream` touches such memory if and only if the blocks whose headers it reads break that rule |
| StreamExamples.TornStream | src/rdb_decode.cpp:460-480 | A stream that is laid out as documented and breaks it: one block of 65 master fields and two entries with SAMEFIELDS |
| StreamArena.RdbStreamEntry.ReadSlots | src/rdb_decode.cpp:495-503 | The loop over fields and values, which goes on after a failure, fills their slots and no other |
| StreamArena.RdbStreamEntry.Place | src/rdb_decode.cpp:460-494 | Where fields and values go: behind the master fields in the arena if they fit, else to memory of their own |
| StreamRead.DecodeStream | src/rdb_decode.cpp:969-1144 | The four levels of loops make the callbacks of the specification, for every outcome, the two early returns included, as long as the memory of the entries is intact, and report when it is not |
| StreamDecode.StreamCut | src/rdb_decode.cpp:969-1144 | A completed stream is decoded alike when the bytes behind it are cut off |
| StreamNames.ReportedJson | src/rdb_json.cpp:275-406 | On every run that `decode_body` reports as a success, what is printed from the opening brace on is a well-formed object if and only if every group and consumer name is a readable string header with its data and every live entry has a field; then it is the document of the stream's contents |
| StreamNames.CompleteExactly | src/rdb_decode.cpp:1043-1143 | Of the runs that are reported as a success, those are complete on which all names are readable |
| StreamNames.ReadableName | src/rdb_decode.cpp:144-156 | A name is read if and only if it is a plain or compressed string header that decodes, inflates, and has its data |
| StreamNames.EarlyOpen | src/rdb_decode.cpp:1052-1054 | What a run prints that ends at a name, or anywhere before its closing brace, is no document |
| StreamExamples.EarlyStream | src/rdb_decode.cpp:1052-1054 | A group whose name is an integer: reported as a success, with the list of groups open |
| StreamExamples.BareStream | src/rdb_json.cpp:275-296 | A stream of one entry without fields, byte by byte, is decoded to its end, and what is printed is no document |
| StreamJson.CompletedJson | src/rdb_json.cpp:275-406 | On every completed run the tokens are a well-formed object if and only if every live entry has a field; then they render the document of the stream's contents |
| StreamJson.CompletedRun | src/rdb_decode.cpp:1003-1143 | The callbacks of a completed run are those of some contents, lists opened and closed in order |
| StreamJson.DocRenders | src/rdb_json.cpp:275-406 | The tokens printed for contents with fields in every entry are the rendering of their document |
| JsonOutput.JsonOutput.DStreamEntry | src/rdb_json.cpp:275-296 | Prints an entry, commas between fields |
| JsonOutput.JsonOutput.DStartKey | src/rdb_json.cpp:135-198 | Prints the comma, name and opening brace of a stream |
| JsonOutput.JsonOutput.Play | src/rdb_json.cpp:135-406 | The callbacks of a stream, one after the other, print its name and the tokens of its events |
| StreamPrint.PrintStream | src/rdb_json.cpp:135-406 | From bytes to `stdout`: the value of a stream is decoded and printed, and after a reported success a well-formed object stands behind the name if and only if names and fields are as above |
| Bytes.LeRoundTrip | include/rdbparser/rdb_int.h:33-41 | A number is read back from its little-endian bytes |
| Bytes.BeRoundTrip | include/rdbparser/rdb_int.h:43-51 | A number is read back from its big-endian bytes |
| Bytes.FromLeConcat | include/rdbparser/rdb_int.h:33-41 | The first byte of a little-endian number is the lowest: every further one counts 256 times as much |
| Bytes.FromBeConcat | include/rdbparser/rdb_int.h:43-51 | The last byte of a big-endian number is the lowest |
| Bytes.BeFromBe | include/rdbparser/rdb_int.h:43-51 | Every byte string is the number it stands for, written out again |
| Bytes.SignedRoundTrip | include/rdbparser/rdb_int.h:90-111 | Casting a signed number to unsigned bytes and sign-extending them gives it again |

## Left out

- src/rdb_main.cpp: argument parsing, file mapping and the refill from stdin, which resets `offset` while raising `start_offset`; the whole input is taken to be buffered and `start_offset` to be zero.
- The insides of `lzf_decompress` and its 32-bit size arguments, `malloc` failures, and PCRE2 beyond the emitted fragment.
- Globs outside the fragment: unescaped `^ $ | ( ) {` and `+`, escapes of these and of brackets, classes with anything but letters, digits and their ranges, and wide characters.
- Record types ZSET, ZSET_2, HASH_ZIPMAP, SET_INTSET, MODULE and MODULE_2: no encoder relates to them, and they are straight-line field reads.
- Key filters: every key is passed on.
- Element counters and counts other than those of streams, and with them the commas of quicklists in JSON, where the counter is not advanced at the end of a node.
- Text below the level of tokens in JSON (`print_s`, numbers, indentation), the JSON of other types, the list output, hex dumps and messages.
- FileRecords.RecordDecoded: streams are covered by StreamFormat.StreamRoundTrip instead, and the names of their groups are stored as they are there.
- RESTORE of compressed or integer keys, of dumps, and of sizes of 10^12 bytes and more, which `tmp[ 16 ]` cannot hold.
- Lifetime of decompressed blocks beyond the flag `clean`.
- Strings of 2^32 - 10 bytes and more in the sizing pass of a ziplist, whose own size wraps.
- Multiplications that size allocations for master fields and entries, and pointer arithmetic past the end of a list.
- Big-endian hosts.
- RestorePayload.RestorePreserves: holds on the domain above; outside it (a block with bytes left, or a block at the very end of the input) the offsets that `write_restore_cmd` subtracts belong to another buffer.
- GlobStars.GlobPreserved: with classes the condition is shown to be enough, not to be needed; without them it is both (`PreservedExactly`).
- LengthCodec.RdbLenEncode.IntSizeOf: promises no size for integers of more than 32 bits, for which the source shifts by a negative amount.
- RdbDecode.RdbDecode.DecodeBody: the record types listed above end as `Unmodelled`; where a list or a stream key overruns its memory the model stops at `OutOfBounds`; about a run that touched released memory only its status is promised.
- Restore.RestoreOutput.RestoreKey: for records of the domain of RESTORE, and for the end of the file.
- Restore.RestoreOutput.WriteRestoreCmd: for a file that is buffered whole and a key that is a string, whose computed body does not start behind its end; for a dump or an integer key the source writes from a pointer that it has never set, and behind the end its size wraps.
