# Verified models of an XRootD client's core

A Dafny 4.11 model of the parts of a pure-Python XRootD client whose correctness is hard to see by
reading: the sans-io session machine, the LZ4 codec and ROOT block framing, CRC-32C and its paged
framing, AES, Blowfish and RSA, the copy engine's parallel spans and read-ahead window, vector
reads, the write fallback over data paths, and the pruned glob.

`dafny verify dfyconfig.toml` checks everything.

How it is laid out:

- `Octets`, `Words` hold byte strings, file splicing, and 32-bit words.
- `Lz4`, `RootBlocks` model `root/compression.py`; `Lz4Format` says what the blocks are byte by byte, and that
  the encoder is greedy.
- `Crc32c`, `Pages` model `crypto/crc32c.py`.
- `NumberTheory`, `Rsa` model `crypto/rsa.py`; Fermat's little theorem, Euclid's lemma and the
  two-prime remainder theorem are proved, not assumed.
- `Gf256`, `AesTables`, `Aes` model `crypto/aes.py`; `AesStandard` says of every byte what FIPS 197 does.
  `Blowfish` models `crypto/blowfish.py`, `BlowfishRounds` says the same of its parts.
- `Frames` holds the frame shapes, response decoders and signatures; `Session` is the session machine
  as functions on values, one per method; `SessionMachine` is the object, each of whose methods is
  proved to do what the function does.
- `Framing` is about cutting byte streams. `SessionRuns` keeps a history from calls and events
  alone; `SessionLaws` says what every frame keeps; `SessionSafety` proves that every run keeps it;
  `SessionReplies` says what every frame makes of the session, `SessionHeard` and `SessionCalls` that every
  run and every call does so, in terms of bytes and fields alone. `SessionTheorems`, `SessionExhaustion`
  and `SessionResends` draw the consequences, and
  `SessionWitness` holds concrete runs, byte by byte, that show where the promises end.
- `Spans`, `ParallelCopy`, `ReadAhead`, `TreeProgress` model `copy/engine.py`; threads are steps of a
  state machine and a run is any interleaving.
- `VectorRead`, `FileClient` model `client/file.py`; `Paths`, `Glob` model `client/filesystem.py`,
  and `GlobMeaning` says which strings a pattern stands for.

Code that changes things in place is an imperative method or a class proved against a function of
its old state (`Unpacked`, `Reference`, `Encrypted`, `Safety.Do`, ...); what the code promises is then
proved of that function for all inputs.

Where the code does something other than its documentation or a standard says, the model follows the
code, and the exact condition is proved:

- `_spread` says every worker gets a whole chunk; the last span may be shorter
  (`Spans.LastSpanMayBeShort`), exactly when `Spans.WholeChunksIff` says.
- `_spans` says it makes `workers` pieces; five bytes over four workers make three
  (`Spans.FewerSpansThanWorkers`), and it makes `workers` exactly when `Spans.SpanCountIff` says.
- "Stream id space exhausted" is raised with fewer than all ids in flight exactly when nothing is free,
  the counter stands at an id in flight, and some ids are held by submissions that failed to encode
  after taking theirs; the two numbers then add up to 65,532 (`SessionExhaustion.ExhaustedIff`). A run
  gets there with one stream in flight, and the attempt after the refused one succeeds again
  (`SessionWitness.LostIdsExhaust`).
- A status response with a negative trailer length, and more bytes behind it in the same piece than that
  length counts back, makes framing depend on how the bytes were cut: `Framing.CutMatters` gives the
  cut for every such stream, `Framing.ChunkingIndependent` shows that no other stream has one, and
  `SessionWitness.NegativeTrailerRun` is a run that meets it.
- `resume` leaves what a stream has gathered where it is, while `session/sync.py:345` takes the body to
  start over on the resend: a completion is the body of the last send exactly when every resend of its
  stream came before any chunk (`SessionResends.CompletionsSinceSend`); `SessionWitness.ResendRepeats` is
  a run whose completion holds its first chunk twice.
- `verify` does not ask that a signature's number lie below the modulus, as section 8.2.2 of RFC 8017
  does: it accepts exactly the right number plus any multiple of the modulus that still fits
  (`Rsa.VerifyIff`), such as the next one up (`Rsa.AcceptsAboveModulus`), so a second string is accepted
  exactly when that one fits (`Rsa.OtherAcceptedIff`).
- A request with both path data and a trailer would have part of its trailer signed, since the declared
  length counts the path data (`Frames.SignsPayloadIff`). No request class of the client has both
  (`proto/requests.py:588` and `:757` give path data, `:666` and `:807` a trailer, in four classes), so
  only a request class of a caller's own can meet this.
- Unpadded `cbc_decrypt` refuses the empty string that unpadded `cbc_encrypt` produces
  (`Aes.CbcRoundTrip`).
- LZ4 compression raises when a full block outgrows its three-byte length, as every full block does in
  which no four bytes come again within the window (`RootBlocks.IncompressibleRaises`), a counter for
  one (`RootBlocks.CounterRaises`); it succeeds exactly when `RootBlocks.Lz4SucceedsIff` says.
- `readv` promises the order asked for however the server reorders its answers: that holds for every
  order exactly when ranges at one offset have one answer (`VectorRead.AnyOrderIff`), so for every file
  exactly when no two ranges share an offset but not a length (`VectorRead.AnyOrderAlwaysIff`). For any
  ranges it holds for orders that keep the answers at one offset as asked (`VectorRead.Readv`).
- `glob` raises where its single listing has no directory to list, while the walk over the same
  namespace finds nothing; and that listing misses deeper matches of a bracket that lets a slash
  through (`Glob.Find`, `Glob.BracketMissesDeeper`).
- `walk` asks for a directory by its path, in which a question mark starts opaque data and `.` and `..`
  are normalised away. From the root it comes by a path of the tree exactly when every directory on the way
  there has a name without these (`Paths.ComesByIff`), so it misses what is in a directory `a?b`
  (`Paths.QueryHides`). It ends exactly when no directory it can ask for holds one with nothing,
  `.` or `..` before any question mark (`Paths.WalkEndsIff`): below one named `?x` it lists the parent again,
  without end (`Paths.QueryLoops`).
- A write that an earlier call gave up on may land after a later write returned; it changes what that
  write left exactly when its bytes are not already there (`FileClient.LandsQuietlyIff`), and
  `FileClient.File.Write` asks for no more than that.

## Model

| member | source | states |
|---|---|---|
| Lz4.RoundTrip | src/xrd/root/compression.py:100-253 | Unpacking what was packed gives every byte string back, whatever its matches, lengths and overlaps |
| Lz4.PackedSize | src/xrd/root/compression.py:205-253 | n bytes pack into at most n + n/255 + 2 |
| Lz4.PackedEnds | src/xrd/root/compression.py:214-253 | In every block no match begins within twelve bytes of the end or reaches into the last five, which are literals |
| Lz4.PackedPlain | src/xrd/root/compression.py:228-253 | Bytes in which no four come again within the window pack into one sequence, longer than they are |
| Lz4.LengthRoundTrip | src/xrd/root/compression.py:205-211 | A nibble and its 255-a-byte continuation read back as the length written, of any size |
| Lz4.RepeatRebuilds | src/xrd/root/compression.py:134-141 | Copying a match from an earlier equal stretch rebuilds the text, overlap included |
| Lz4.RepeatIsSlice | src/xrd/root/compression.py:137-141 | A copy that does not overlap itself is a plain slice |
| Lz4.MatchLengthMatches | src/xrd/root/compression.py:235-237 | The greedy extension only covers bytes that are equal |
| Lz4.Unpack | src/xrd/root/compression.py:100-146 | The cursor loop decodes exactly as the sequence-by-sequence definition, refusing the same inputs |
| Lz4.Pack | src/xrd/root/compression.py:214-253 | The loop over the recent-positions dictionary writes exactly the defined sequences |
| Lz4Format.ReadsSequence | src/xrd/root/compression.py:109-143 | A sequence is a token, the rest of the literal count, the literals, the offset low byte first and the rest of the match length less four; it adds the literals and then bytes each equal to the one an offset before; a zero offset or one before the block is refused |
| Lz4Format.ReadsLast | src/xrd/root/compression.py:109-125 | A last sequence of literals alone adds them |
| Lz4Format.PackedGreedy | src/xrd/root/compression.py:214-253 | Every sequence of every block is the first repeat from where the one before ended, to the last place looked at, as long as it can be; the rest is literals |
| RootBlocks.RoundTrip | src/xrd/root/compression.py:256-339 | Decompressing what was compressed gives the data back, over any number of blocks and for all four algorithms |
| RootBlocks.Lz4SucceedsIff | src/xrd/root/compression.py:256-284 | LZ4 compression succeeds exactly when every block, with its checksum, fits the three-byte length |
| RootBlocks.IncompressibleRaises | src/xrd/root/compression.py:275-282 | Every full block without a repeat in the window is refused as too long |
| RootBlocks.CounterRaises | src/xrd/root/compression.py:275-282 | A full block of a three-byte counter is such a block |
| RootBlocks.Lz4AlwaysFits | src/xrd/root/compression.py:256-339 | Up to 16,711,670 bytes always compress under LZ4, and come back |
| RootBlocks.BlockRoundTrip | src/xrd/root/compression.py:270-339 | One block's header and body are consumed exactly and add exactly its chunk |
| RootBlocks.BlockBytes | src/xrd/root/compression.py:270-284 | Two letters for the algorithm, its method byte, both lengths in three bytes low byte first, then the packed bytes, for LZ4 behind their checksum; no other name is known |
| RootBlocks.Compress | src/xrd/root/compression.py:256-284 | The block loop writes the defined frames, refusing an unknown algorithm |
| RootBlocks.Decompress | src/xrd/root/compression.py:304-339 | The block loop reads as the definition does, errors included |
| Crc32c.Compute | src/xrd/crypto/crc32c.py:37-61 | The slice-by-eight and tail loops compute the bit-at-a-time CRC-32C for every input and starting value |
| Crc32c.CheckValue | src/xrd/crypto/crc32c.py:14-61 | The checksum of the digits 1 to 9 is E3069283, the check value of CRC-32C |
| Crc32c.BuildTables | src/xrd/crypto/crc32c.py:19-30 | Row k of the tables is a byte turned through the register k + 1 bytes long |
| Crc32c.Slice8IsFeed | src/xrd/crypto/crc32c.py:44-57 | Eight table lookups are eight bytes fed one after the other |
| Crc32c.FeedBytesIsFeedBits | src/xrd/crypto/crc32c.py:58-61 | Feeding bytes is feeding their bits, lowest first |
| Crc32c.Chaining | src/xrd/crypto/crc32c.py:37-61 | crc(b, crc(a)) == crc(a + b) from every starting value |
| Crc32c.BurstDetected | src/xrd/crypto/crc32c.py:37-61 | Any change confined to 32 consecutive bits, wherever they begin, changes the checksum |
| Crc32c.FourBytesBurst | src/xrd/crypto/crc32c.py:37-61 | So does any change confined to four consecutive bytes |
| Pages.RoundTrip | src/xrd/crypto/crc32c.py:84-122 | Unpacking packed pages gives the data back and reports no page, for every length and alignment |
| Pages.PackedLengthExact | src/xrd/client/file.py:770-777 | The packed length is exactly what the length check allows |
| Pages.PagesAligned | src/xrd/crypto/crc32c.py:84-99 | Every page but the first begins at a multiple of 4,096 in the file, and none reaches over one |
| Words.BigEndian | src/xrd/crypto/crc32c.py:84-122 | Words go out most significant byte first |
| Pages.BurstReported | src/xrd/crypto/crc32c.py:102-122 | Altering bits within 32 consecutive ones of one page reports exactly that page's file offset |
| Pages.UnpackWire | src/xrd/crypto/crc32c.py:102-122 | Any pages with any checksums are cut apart as they were laid out, reporting exactly those that disagree |
| Pages.Pack | src/xrd/crypto/crc32c.py:84-99 | The page loop writes each page behind its checksum |
| Pages.Unpack | src/xrd/crypto/crc32c.py:102-122 | The page loop reads as the page-by-page definition does, short tails included |
| Rsa.PowerIsModPow | src/xrd/crypto/rsa.py:153-160 | The two-prime path and the plain path both give value**d mod n |
| Rsa.ExponentsCancel | src/xrd/crypto/rsa.py:93-99 | Raising to e*d is the identity modulo n (section 5.1.2 of RFC 8017) |
| Rsa.VerifyAcceptsSign | src/xrd/crypto/rsa.py:93-151 | Verify accepts every signature that sign makes |
| Rsa.SignatureRecovers | src/xrd/crypto/rsa.py:143-151 | The e-th power of a signature, in the key's length, is 0, 1, at least eight bytes FF, 0, and then the message, or DigestInfo and hash (section 9.2 of RFC 8017) |
| Rsa.DigestPrefixIs | src/xrd/crypto/rsa.py:210-217 | Each prefix is the DER of the hash's object identifier and size; no other digest is known |
| Rsa.LowerJoins | src/xrd/crypto/rsa.py:212-213 | A digest's name is read without hyphens and in lower case |
| Rsa.VerifyIff | src/xrd/crypto/rsa.py:93-99 | Verify accepts a byte string exactly when it has the key's length and is congruent to the signature |
| Rsa.AcceptsAboveModulus | src/xrd/crypto/rsa.py:93-99 | The signature's number plus the modulus, where that fits the key's length, is another accepted string |
| Rsa.OtherAcceptedIff | src/xrd/crypto/rsa.py:93-99 | Some string other than the signature is accepted exactly when that one fits |
| Rsa.SignSucceedsIff | src/xrd/crypto/rsa.py:143-151 | Signing succeeds exactly when the digest is known and the content leaves room for eleven bytes |
| Rsa.FrameInjective | src/xrd/crypto/rsa.py:210-220 | PKCS#1 v1.5 framing loses nothing: equal frames have equal contents |
| Rsa.SignInjective | src/xrd/crypto/rsa.py:143-151 | Without a digest, different messages have different signatures |
| Gf256.Multiply | src/xrd/crypto/aes.py:58-66 | The shift-and-add loop is the multiplication whose laws follow |
| Gf256.MulCommutes | src/xrd/crypto/aes.py:58-66 | Multiplication is commutative |
| Gf256.MulAssociates | src/xrd/crypto/aes.py:58-66 | And associative |
| Gf256.MulAddLeft | src/xrd/crypto/aes.py:58-66 | And distributes over addition |
| Gf256.WalkCovers | src/xrd/crypto/aes.py:28-41 | The walk by the generator visits every non-zero element |
| Gf256.Order255 | src/xrd/crypto/aes.py:28-41 | The generator does not come back to one before 255 steps |
| AesTables.BuildTables | src/xrd/crypto/aes.py:24-45 | The S-box maps each element to the affine image of its inverse (section 5.1.1 of FIPS 197), is a permutation, and the other table undoes it |
| Aes.UnmixMix | src/xrd/crypto/aes.py:126-142 | InvMixColumns undoes MixColumns over GF(2^8), column by column |
| Aes.MixedIsMatrix | src/xrd/crypto/aes.py:126-131 | Each byte of a mixed column is twice itself, three times the next, and the other two: the matrix of section 5.1.3 of FIPS 197 |
| Aes.UnshiftShift | src/xrd/crypto/aes.py:110-123 | InvShiftRows undoes ShiftRows |
| Aes.ShiftRows | src/xrd/crypto/aes.py:110-115 | In place, row r turns left by r |
| Aes.InvShiftRows | src/xrd/crypto/aes.py:118-123 | In place, row r turns right by r |
| Aes.MixColumns | src/xrd/crypto/aes.py:126-131 | In place, each column is mixed by that matrix |
| Aes.InvMixColumns | src/xrd/crypto/aes.py:134-142 | In place, each column is multiplied by the inverse matrix |
| Aes.WordsRecurrence | src/xrd/crypto/aes.py:86-102 | Every word of the schedule is the one a key length before mixed with the turned or plain word before it, for all three key sizes |
| Aes.Expand | src/xrd/crypto/aes.py:86-102 | The schedule loop makes those words and cuts them into round keys, which `AesStandard.ScheduleBytes` and `AesStandard.RoundKeyBytes` give byte by byte |
| AesStandard.ScheduleBytes | src/xrd/crypto/aes.py:86-102 | Every byte of every word: the byte a key length before, plus the word before turned, substituted and with the round constant, or for 32-byte keys half-way substituted, or plain (section 5.2 of FIPS 197) |
| AesStandard.RconIs | src/xrd/crypto/aes.py:49-56 | The round constants are 1 and then each twice the one before |
| AesStandard.RoundKeyBytes | src/xrd/crypto/aes.py:100-102 | Round key r is words 4r to 4r + 3, for 10, 12 or 14 rounds |
| AesStandard.OpeningBytes | src/xrd/crypto/aes.py:145-150 | Before the first round, each byte is the block's plus the first round key's |
| AesStandard.RoundBytes | src/xrd/crypto/aes.py:150-155 | After a full round, each byte is twice the substituted and shifted byte, three times the next of its column, the other two, and the round key (section 5.1 of FIPS 197) |
| AesStandard.ClosingBytes | src/xrd/crypto/aes.py:156-159 | The last round substitutes, shifts and adds only |
| Aes.EncryptBlock | src/xrd/crypto/aes.py:145-159 | The round loop is the cipher of section 5.1 of FIPS 197, refusing other block sizes |
| Aes.DecryptBlock | src/xrd/crypto/aes.py:161-175 | The round loop is the inverse cipher, refusing other block sizes |
| Aes.DecryptEncrypt | src/xrd/crypto/aes.py:145-175 | Decryption undoes encryption for every schedule and block |
| Aes.UnpadIff | src/xrd/crypto/aes.py:181-194 | Stripping succeeds exactly on what padding makes, and then undoes it |
| Aes.CbcRoundTrip | src/xrd/crypto/aes.py:197-231 | CBC gives data of any length back under every key, with exactly the stated refusals |
| AesStandard.ChainedBlock | src/xrd/crypto/aes.py:197-213 | Each ciphertext block is the encryption of the plain block mixed with the ciphertext block before (section 6.2 of SP 800-38A) |
| AesStandard.PaddedBytes | src/xrd/crypto/aes.py:181-184 | Padding adds one to sixteen bytes, each their number |
| Aes.CbcEncrypt | src/xrd/crypto/aes.py:197-213 | The loop chains each block into the next |
| Aes.CbcDecrypt | src/xrd/crypto/aes.py:216-231 | The loop unchains each block from the one before |
| Blowfish.ReverseUndoes | src/xrd/crypto/blowfish.py:97-119 | The same rounds with the subkeys reversed undo themselves, for every boxes and subkeys |
| Blowfish.BlockInverse | src/xrd/crypto/blowfish.py:97-119 | Encryption and decryption of a block undo each other both ways |
| BlowfishRounds.RoundFunction | src/xrd/crypto/blowfish.py:90-95 | The four bytes of a word, highest first, index the four boxes |
| BlowfishRounds.MixParts | src/xrd/crypto/blowfish.py:90-95 | The first two entries are added, the third mixed in, the fourth added |
| BlowfishRounds.SilentNetwork | src/xrd/crypto/blowfish.py:97-106 | With boxes that add nothing, each half is mixed with its nine subkeys and the halves change places |
| BlowfishRounds.KeyMixed | src/xrd/crypto/blowfish.py:70-76 | The key, over and over, is mixed into the subkeys four bytes at a time |
| BlowfishRounds.CfbBlockIs | src/xrd/crypto/blowfish.py:145-161 | Each byte is mixed with the encryption of the ciphertext block before (section 6.3 of SP 800-38A) |
| Blowfish.EcbRoundTrip | src/xrd/crypto/blowfish.py:121-143 | ECB gives whole blocks back |
| Blowfish.CfbRoundTrip | src/xrd/crypto/blowfish.py:145-169 | CFB-64 gives data of any length back, a short last piece included |
| Blowfish.Blowfish.Keyed | src/xrd/crypto/blowfish.py:61-88 | Empty and over-long keys are refused; otherwise the key schedule rewrites subkeys and boxes as the chained encryptions define |
| Blowfish.Blowfish.EncryptBlock | src/xrd/crypto/blowfish.py:97-106 | Sixteen rounds on two halves compute the defined encryption |
| Blowfish.Blowfish.DecryptBlock | src/xrd/crypto/blowfish.py:108-119 | The rounds in reverse compute the defined decryption |
| Blowfish.Blowfish.EncryptEcb | src/xrd/crypto/blowfish.py:121-131 | Block by block, refusing a partial block |
| Blowfish.Blowfish.DecryptEcb | src/xrd/crypto/blowfish.py:133-143 | Block by block with the subkeys reversed, refusing a partial block |
| Blowfish.Blowfish.Cfb64 | src/xrd/crypto/blowfish.py:145-161 | The byte loop over the feedback register computes the block-wise definition |
| Frames.FrameShape | src/xrd/proto/frames.py:81-95 | A frame carries stream id, opcode, parameters, declared length, payload and trailer where the server and the signer read them |
| Frames.SignsPayloadIff | src/xrd/crypto/sigver.py:85-101 | A signature covers number, header and as many bytes of payload and trailer as the declared length counts: exactly the payload iff there is no path data or no trailer |
| Frames.WhatIsSigned | src/xrd/crypto/sigver.py:20-53 | Which requests are signed at which level, opcode by opcode, and that an override decides |
| Frames.OwnRequests | src/xrd/proto/machine.py:340-396 | The parameters of bind, end-session, auth and sigver requests, part by part |
| Framing.ChunkingIndependent | src/xrd/proto/machine.py:402-523 | Any two divisions of the same bytes into non-empty pieces, up to the first exception, leave the same machine and let out the same exception: events, pending table, outboxes, cursor and unparsed bytes |
| Framing.CutMatters | src/xrd/proto/machine.py:463-482 | Any other stream, on a link that has parsed what it has, has a cut that changes the events |
| Framing.FeedAllIsFeed | src/xrd/proto/machine.py:402-414 | Pieces one after the other come to what their join comes to at once |
| Framing.MoveExtends | src/xrd/proto/machine.py:463-493 | A step the parser can take is the same step with more bytes behind it |
| Framing.NegativeTrailerTroubles | src/xrd/proto/machine.py:707-712 | A status frame with a negative length, to a stream in flight, with more bytes behind it than that, makes such a stream |
| SessionWitness.NegativeTrailerRun | src/xrd/proto/machine.py:463-482 | A run, byte by byte, in which two divisions of the same bytes make different events |
| SessionRuns.AcquireFresh | src/xrd/proto/machine.py:356-365 | An id handed out is in the space, not in flight and no longer free |
| SessionRuns.OnEofSound | src/xrd/proto/machine.py:429-438 | The control link's end gives every stream in flight exactly one failure |
| SessionRuns.OnPathEofSound | src/xrd/proto/machine.py:455-461 | A data path's end gives exactly its own streams one failure each, and frees their ids |
| SessionRuns.DropPathSound | src/xrd/proto/machine.py:440-453 | Forgetting a path abandons exactly the streams that waited on it |
| SessionLaws.MoveOrdinary | src/xrd/proto/machine.py:463-515 | A parser step is one bring-up step, or touches no phase, outbox or signer and moves ids only to the free list |
| SessionLaws.AcquireSpace | src/xrd/proto/machine.py:356-365 | Every id issued so far is in flight, free or lost; taking one keeps the books |
| SessionLaws.BringUpOpening | src/xrd/proto/machine.py:527-656 | A bring-up step keeps Ready announced at most once and nothing but the greeting said while TLS is due |
| SessionLaws.ParseLaws | src/xrd/proto/machine.py:463-493 | Parsing any bytes keeps all laws |
| SessionSafety.StepLaws | src/xrd/proto/machine.py:287-461 | Every call keeps all laws |
| SessionSafety.RunLaws | src/xrd/proto/machine.py:287-737 | All laws hold after every sequence of calls and received bytes on a new machine |
| SessionTheorems.IdsAreFresh | src/xrd/proto/machine.py:311-365 | In every run, ids in flight and free ids are disjoint, without duplicates and in 4..65535, and a submission's id is none in flight |
| SessionExhaustion.ExhaustedIff | src/xrd/proto/machine.py:356-365 | In every run that is up, exhaustion is raised exactly when nothing is free and the counter stands at an id in flight; then in flight and lost add up to 65,532; with fewer than all in flight exactly when some are lost |
| SessionExhaustion.ExhaustedWhenFull | src/xrd/proto/machine.py:356-365 | While every submission could be encoded, exactly when all 65,532 ids are in flight |
| SessionExhaustion.NextId | src/xrd/proto/machine.py:335-365 | An id given back is the next handed out; with none given back ids come in turn from 4 to 65,535 |
| SessionWitness.LostIdsExhaust | src/xrd/proto/machine.py:311-365 | A run from a new machine: one stream in flight, 65,531 failed encodings, exhaustion, and then the first of those ids handed out again |
| SessionTheorems.Conservation | src/xrd/proto/machine.py:311-461 | Submissions = terminal events + abandoned streams + streams in flight; no submission has two terminal events; no stream event is for a stream not in flight |
| SessionTheorems.CompletionsAreWhole | src/xrd/proto/machine.py:664-737 | In every run, every completion there ever was is its chunk events joined, then exactly what the response or trailer that made it delivers |
| SessionTheorems.ParseIsWhole | src/xrd/proto/machine.py:463-493 | The same at every move of the parser, however many frames one piece holds |
| SessionTheorems.MoveCompletes | src/xrd/proto/machine.py:664-737 | The same for one parser step, wrapped responses and trailers included |
| SessionResends.CompletionsSinceSend | src/xrd/proto/machine.py:326-333 | In every run, every completion is what its stream had gathered when it was last sent, then its chunks since, then what completed it; that is the body of the last send exactly when every resend of the stream came before any chunk |
| SessionResends.ParseAnswered | src/xrd/proto/machine.py:664-737 | The same at every move of the parser |
| SessionResends.RunSplits | src/xrd/proto/machine.py:326-333 | After every run, what a stream in flight has gathered splits at its last send, and the first part is empty exactly when every resend came before any chunk |
| SessionWitness.ResendRepeats | src/xrd/proto/machine.py:326-333 | A run: a chunk, a wait, a resend answered in full, and a completion that holds the chunk twice |
| SessionTheorems.OnResponseFate | src/xrd/proto/machine.py:664-737 | A response makes at most one event, about its own stream; the stream leaves, its id freed, exactly with a terminal event; no other stream is touched; a wait to resend is capped; which event it is `SessionReplies.OnResponseMakes` says |
| SessionReplies.OnResponseMakes | src/xrd/proto/machine.py:664-737 | Status by status, from the numbers in the body: what event a response makes, what becomes of its stream, what trailer it announces, and when it is an exception |
| SessionReplies.BringUpOpens | src/xrd/proto/machine.py:527-656 | Phase by phase, from the bytes of the reply: what bring-up does, what it queues and announces, when it fails, when it signs, and when it is an exception |
| SessionReplies.MoveSays | src/xrd/proto/machine.py:463-523 | Every parser step does that for the frame in its bytes, wrapped responses and trailers included, and consumes exactly the frame |
| SessionHeard.RepliesTell | src/xrd/proto/machine.py:402-737 | In every run, every frame of every piece received makes exactly what its bytes and what was heard before say |
| SessionHeard.CompletionMeansOk | src/xrd/proto/machine.py:664-737 | A stream completes only on a response of status 0, or a status response whose type byte is 0 or its trailer |
| SessionHeard.NothingInTheClear | src/xrd/proto/machine.py:573-603 | In every run, once a protocol reply has bit 40, 08, 04 or 01 in byte 4, or TLS is wanted, and until TLS is established, nothing but the 44 bytes of the greeting is queued on the control link |
| SessionHeard.ResumeReplays | src/xrd/proto/machine.py:326-333 | In every run, a resend queues again the bytes the submission sent, the frame on the control link and the data on its path |
| SessionCalls.CallsTell | src/xrd/proto/machine.py:287-461 | What every other call does to every field, a link's end included |
| SessionCalls.RunCallsTell | src/xrd/proto/machine.py:287-461 | So in every run |
| SessionTheorems.ReadyOnce | src/xrd/proto/machine.py:647-656 | Every run announces Ready at most once |
| SessionTheorems.NothingBeforeTls | src/xrd/proto/machine.py:573-603 | While TLS is wanted or the flags as parsed demand it and it is not up, only the greeting was ever queued: no Login, Bind or Auth; of the reply's bytes, `SessionHeard.NothingInTheClear` |
| SessionTheorems.RunFollowsGraph | src/xrd/proto/machine.py:527-662 | The recorded phases of every run, one after each call and each parsed frame, are each the one before or one edge of the state graph from it |
| SessionTheorems.ParseFollows | src/xrd/proto/machine.py:463-493 | The same for the frames of one piece |
| SessionTheorems.BringUpEdge | src/xrd/proto/machine.py:527-571 | A bring-up response moves along one edge, or stays |
| SessionTheorems.SequenceNumbersRise | src/xrd/crypto/sigver.py:85-101 | The covered submissions of a run carry 1, 2, 3, ... |
| SessionTheorems.SubmissionQueued | src/xrd/proto/machine.py:367-396 | A submission is queued as one piece, a covered one right behind its own sigver frame, on its link and on no other |
| SessionMachine.SessionMachine.constructor | src/xrd/proto/machine.py:239-281 | A new machine |
| SessionMachine.SessionMachine.Start | src/xrd/proto/machine.py:287-294 | Queues the greeting once, or raises |
| SessionMachine.SessionMachine.DataToSend | src/xrd/proto/machine.py:296-300 | Returns and empties the control outbox |
| SessionMachine.SessionMachine.PathDataToSend | src/xrd/proto/machine.py:302-305 | Returns and empties one path's outbox |
| SessionMachine.SessionMachine.Submit | src/xrd/proto/machine.py:311-324 | Does the model's submission, with its three refusals |
| SessionMachine.SessionMachine.Resume | src/xrd/proto/machine.py:326-333 | Replays the stored bytes of a stream in flight |
| SessionMachine.SessionMachine.Release | src/xrd/proto/machine.py:335-338 | Abandons a stream and frees its id |
| SessionMachine.SessionMachine.Close | src/xrd/proto/machine.py:340-345 | Closes, with an end-session frame when graceful |
| SessionMachine.SessionMachine.TlsEstablished | src/xrd/proto/machine.py:347-352 | Goes on to login or bind, only from the TLS phase |
| SessionMachine.SessionMachine.AcquireSid | src/xrd/proto/machine.py:356-365 | Takes an id as the model does |
| SessionMachine.SessionMachine.SendRequest | src/xrd/proto/machine.py:367-396 | Remembers and queues a request as the model does |
| SessionMachine.SessionMachine.ReceiveData | src/xrd/proto/machine.py:402-414 | Feeds one link, or ends it |
| SessionMachine.SessionMachine.NextEvent | src/xrd/proto/machine.py:416-418 | Hands over the oldest event |
| SessionMachine.SessionMachine.OnEof | src/xrd/proto/machine.py:429-438 | The loop over pending streams fails each, oldest first |
| SessionMachine.SessionMachine.ForgetPath | src/xrd/proto/machine.py:440-453 | The loop releases each stream of the path, then drops its framer and outbox |
| SessionMachine.SessionMachine.OnPathEof | src/xrd/proto/machine.py:455-461 | Fails, forgets, then reports the path |
| SessionMachine.SessionMachine.Parse | src/xrd/proto/machine.py:463-493 | The consuming loop takes exactly the model's steps |
| SessionMachine.SessionMachine.Dispatch | src/xrd/proto/machine.py:499-523 | Routes a frame, unwrapping an embedded response |
| SessionMachine.SessionMachine.Bringup | src/xrd/proto/machine.py:527-571 | One bring-up response as the model takes it, by `SessionReplies.BringUpOpens` what its bytes say |
| SessionMachine.SessionMachine.NextCredential | src/xrd/proto/machine.py:605-627 | The ladder loop stops at the first mechanism that can open |
| SessionMachine.SessionMachine.OnResponse | src/xrd/proto/machine.py:664-724 | Every response status as the model takes it, by `SessionReplies.OnResponseMakes` what its bytes say |
| SessionMachine.SessionMachine.OnStatusData | src/xrd/proto/machine.py:726-737 | The last of a status response's data, or one more piece |
| Spans.SpansPartition | src/xrd/copy/engine.py:232-235 | The spans are at most `workers`, none empty, and partition [0, size) in order; refused exactly for no size or no workers |
| Spans.SpanCountIff | src/xrd/copy/engine.py:232-235 | There are as many spans as workers exactly when all but one of them do not already cover the size |
| Spans.FewerSpansThanWorkers | src/xrd/copy/engine.py:232-235 | Five bytes over four workers make three spans |
| Spans.Spread | src/xrd/copy/engine.py:199-229 | A transfer is spread exactly when both ends can be divided, the source says its size, that holds two chunks and two connections are allowed; then it has at least two workers, no more than configured, and can be divided |
| Spans.WholeChunksIff | src/xrd/copy/engine.py:199-235 | Every span holds a whole chunk exactly when the remainder is none or at least a chunk |
| Spans.LastSpanMayBeShort | src/xrd/copy/engine.py:199-235 | A spread whose last span is shorter than a chunk |
| ParallelCopy.CopiesSource | src/xrd/copy/engine.py:238-268 | For every interleaving and short read: the call raises exactly when a worker did; otherwise the target is the source up to the size asked, the result its length, and reports rise to it; every finished span is in the target, and the last report is the bytes whose write returned, either way |
| ParallelCopy.ReportsNeverAhead | src/xrd/copy/engine.py:262-265 | While running, reports rise strictly and never exceed the bytes written |
| ParallelCopy.StepKeeps | src/xrd/copy/engine.py:247-265 | Every step of every worker keeps the invariant: bytes moved are in the target, no other worker's are touched |
| ParallelCopy.NeverStuck | src/xrd/copy/engine.py:254-265 | A worker that has not finished can always move |
| ParallelCopy.EveryStepCounts | src/xrd/copy/engine.py:254-265 | Every step that changes anything leaves less to do |
| ParallelCopy.CanFinish | src/xrd/copy/engine.py:247-268 | From wherever a run is, some continuation finishes it |
| ReadAhead.InOrder | src/xrd/copy/engine.py:347-411 | For every interleaving the queue stays within its depth and the consumer gets a prefix in order, all of it at the end, all of it before an error |
| ReadAhead.SameAtAnyDepth | src/xrd/copy/engine.py:414-436 | The pump gets the same pieces and ends the same way at any depth |
| ReadAhead.Pump | src/xrd/copy/engine.py:426-436 | The loop writes and digests the pieces joined and reports each running length |
| ReadAhead.NeverStuck | src/xrd/copy/engine.py:375-411 | In every reachable state, closing included, some thread has a step that brings the end nearer |
| ReadAhead.EveryStepCounts | src/xrd/copy/engine.py:383-411 | Every step but a retry on a full queue brings the end nearer |
| ReadAhead.CanEnd | src/xrd/copy/engine.py:371-411 | From wherever a run is, some continuation ends it |
| TreeProgress.Total.Report | src/xrd/copy/engine.py:684-689 | What is heard is the sum of every file's last report |
| TreeProgress.Total.Worker | src/xrd/copy/engine.py:680-691 | One more file, counted from zero |
| VectorRead.Batches | src/xrd/client/file.py:796-812 | The batches keep the sequence, are non-empty, within 1024 ranges and 2 MiB, and none could have taken the next range; refused exactly for a range too large |
| VectorRead.ParseWritten | src/xrd/proto/responses.py:507-518 | Every reply a server can write is read back as written |
| VectorRead.ParseSegments | src/xrd/proto/responses.py:507-518 | The cursor loop parses as the definition does, malformed replies included |
| VectorRead.Serve | src/xrd/client/file.py:780-793 | The i-th range at an offset gets the i-th answer there, or the last; refused exactly when none is left or it is too long |
| VectorRead.Readv | src/xrd/client/file.py:445-461 | Given correct replies in any order that keeps each offset's own, one correct result per range in the order asked; success exactly when stated |
| VectorRead.ReadvCorrect | src/xrd/client/file.py:445-461 | Across batches, correct replies determine every answer |
| VectorRead.AnyOrderIff | src/xrd/client/file.py:445-461 | Given the correct answers in whatever order, every range gets its own in every such order exactly when ranges at one offset have one answer |
| VectorRead.AnyOrderAlwaysIff | src/xrd/client/file.py:445-461 | That holds for every file exactly when no two ranges share an offset but not a length |
| FileClient.File.Write | src/xrd/client/file.py:509-524 | A write that returns left the data spliced at the offset, whatever attempts failed, however much of each was or will be applied, and whatever earlier calls left behind that would not undo it; one that raises left a file on which the write can be repeated; on an open file it returns whenever no attempt fails |
| FileClient.File.Read | src/xrd/client/file.py:396-432 | A read that returns has the file's bytes there, to the known length for a negative size, short only at the file's end; over-long answers and whole files beyond the limit are refused; on an open file it returns whenever no attempt fails |
| FileClient.File.Size | src/xrd/client/file.py:366-378 | The length as last heard, or asked for |
| FileClient.File.Bulk | src/xrd/client/file.py:166-213 | The first attempt goes the first of three ways there is; if it succeeds it is the only one; each falls back only to the next, and a refusal that leaves the file open is what the last attempt met, on the control link; a failing path is removed, only while held |
| FileClient.File.Execute | src/xrd/client/file.py:287-302 | One attempt, and one more on a recovered handle exactly when the first was lost in transit and the file can be recovered |
| FileClient.File.Reopen | src/xrd/client/file.py:304-327 | The handle is open afterwards exactly when no exception got out |
| FileClient.File.BindDataStreams | src/xrd/client/file.py:138-154 | Only adds paths, up to the configured number, none of them zero |
| FileClient.File.NextPath | src/xrd/client/file.py:156-164 | Held paths in turn, zero exactly when there are none or the file fell back |
| FileClient.LandsQuietlyIff | src/xrd/client/file.py:166-213 | A write given up on changes nothing by landing late exactly when the file already holds its bytes |
| FileClient.SettledKeeps | src/xrd/client/file.py:176-186 | Whatever writes final bytes, whole or in part, in time or late, keeps the file on its way to them |
| FileClient.Again | src/xrd/client/file.py:176-186 | From anywhere on that way, doing the whole write gets there |
| Paths.ComesByIff | src/xrd/client/filesystem.py:359-381 | In every tree of distinct names, a walk from the root comes by a path of the tree exactly when every directory on the way there has a name that is not `.` or `..` and has no question mark |
| Paths.WalkSound | src/xrd/client/filesystem.py:359-381 | Every path a walk comes by is in the tree, in a directory that can be asked for, and below where the walk began unless a directory there is taken for itself or its parent |
| Paths.WalkComplete | src/xrd/client/filesystem.py:359-381 | A walk comes by every path below it whose directories can be asked for, once it calls itself as deep as the path |
| Paths.WalkEndsIff | src/xrd/client/filesystem.py:359-381 | A walk ends exactly when no directory it can ask for holds one that is taken for itself or its parent |
| Paths.EndedComesBy | src/xrd/client/filesystem.py:359-381 | A walk that ends came by exactly the paths below it whose directories can be asked for |
| Paths.QueryHides | src/xrd/client/filesystem.py:359-381 | A tree in which a walk comes by the directory `a?b` but not by what is in it |
| Paths.QueryLoops | src/xrd/client/filesystem.py:359-381 | A tree with a directory `?x`, in which the walk from the root ends at no depth |
| Paths.ChildIs | src/xrd/client/filesystem.py:184-195 | Which directory a child's path asks for: the one named before any question mark, or itself or its parent for nothing, `.` and `..` |
| Paths.ChildAskedIff | src/xrd/client/filesystem.py:184-195 | A child's path asks for that child exactly when its name is not `.` or `..` and has no question mark |
| Glob.Find | src/xrd/client/filesystem.py:383-411 | The pruned glob finds exactly what matching over a full walk from the root finds, but for matches deeper than a single-listing pattern, of which there are none unless a bracket lets a slash through; refused exactly when its one listing has no directory, and then there was nothing; given up exactly when its walk does not end within the depth allowed |
| Glob.BracketMissesDeeper | src/xrd/client/filesystem.py:99-109 | A bracket that lets a slash through: a match the listing does not find |
| Glob.GlobRegex | src/xrd/client/filesystem.py:78-113 | The cursor loop makes the tokens of the pattern, closed and unclosed brackets included, which `GlobMeaning.MatchesAre` gives their meaning |
| Glob.LiteralPrefix | src/xrd/client/filesystem.py:116-124 | The loop keeps the leading components without wildcards, short of the last |
| Glob.LiteralPrefixIs | src/xrd/client/filesystem.py:116-124 | For a normalised pattern that is a path, and the deepest such |
| Glob.MatchBelow | src/xrd/client/filesystem.py:383-411 | A path that matches lies below the literal start |
| Glob.MatchJustBelow | src/xrd/client/filesystem.py:401-406 | With wildcards only in a last component without `**`, it lies just below |
| Glob.StaysInside | src/xrd/client/filesystem.py:90-109 | `*`, `?` and brackets that keep slashes out never match across a component |
| GlobMeaning.MatchesAre | src/xrd/client/filesystem.py:78-113 | A pattern cut into pieces matches exactly the joins of strings its pieces stand for: `?` one character but a slash, `*` anything without one, `**` anything on one line, `**` and a slash names each with a slash, a bracket one of its characters or of the others, and any other character itself |
| GlobMeaning.EveryPattern | src/xrd/client/filesystem.py:78-113 | Every pattern can be cut so: stars as many as there are, brackets to their first closing one |
| GlobMeaning.WantedAre | src/xrd/client/filesystem.py:383-411 | So what `Glob.Find` finds is what a full walk comes by and the pieces stand for |

## Left out

- Sockets, TLS contexts, the session, router and pool drivers: what they do becomes parameters (received bytes, outcomes of attempts, replies) ranging over everything allowed.
- zlib, lzma, zstd, XXH64, hash functions and HMAC: parameters; the block round trip assumes the compressors undo themselves.
- The initial Blowfish boxes (from pi), RSA key generation, primality testing, PEM and DER: parameters; RSA lemmas are about any key with two distinct odd primes and matching exponents.
- Reading key files and credential discovery: a mechanism is its name, its blobs and its key.
- Messages, path names in failures, decoded text and error-class mapping: failures carry raw bodies.
- SessionTheorems.SequenceNumbersRise: numbers are unbounded; the eight-byte field wraps beyond 2^64.
- SessionTheorems.NothingBeforeTls: speaks of the control link only.
- SessionMachine: pending streams and framers are values held in maps, so aliasing between them is not modelled.
- ParallelCopy.CopiesSource: a write that returns has landed, and in program order.
- ReadAhead.SameAtAnyDepth: the buffer that `_chunks` reuses is not modelled; each chunk is a value.
- FileClient.File.Write: outside a checkpoint.
- FileClient.File.Read: a server that answers a read at all answers with the file's bytes, or with more than was asked for.
- Paths.ComesByIff: the names `.` and `..` are left in the tree like any others, though a listing drops the one and refuses the other (`proto/responses.py:297-310` and `:348`); a listing that fails otherwise than for want of a directory is not modelled.
- Glob.Find: which characters a bracket stands for is a parameter, and an empty bracket, which the regular-expression engine reads together with what follows, is not modelled; nor are the order of the results and opaque data.
- HTTP, WebDAV, S3 and tape clients, the command line, asyncio and fsspec facades, ROOT objects, histograms and drawing, checkpoints, `rmtree`, `deep_locate`: would add only easier members or none that can be stated here.
