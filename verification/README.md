# Verified model of ddgen

ddgen generates RTP traffic for load tests: calls of two legs are created, stepped in 20 ms
sweeps and removed when their time is over; every leg encodes samples, builds Ethernet, IPv4, UDP
and RTP headers with Internet checksums, and hands packets to a consumer. Around that stand a
G.722 encoder, a small JSON reader and printer, and a web server library with SHA-1, MD5 and
Base64. This project models these parts in Dafny and proves what they promise. `dafny verify
dfyconfig.toml` checks the whole project.

Where the source changes objects or arrays in place (the encoder's bands and delay line, the hash
contexts, the SHA-1 schedule, the header buffers, the call legs, the vector of calls, the Base64
output buffer, the JSON object) the model has classes and arrays, and each method is proved
against a function on values. The theorems are about these functions, over all inputs and runs.

## The parts and their main results

**G.722 sub-band ADPCM** (`G722*.dfy`, `FixedPoint.dfy`). `G722Reference` is the coder over exact
arithmetic: products are floors of unbounded products, and a clamp stands only where a limit may
be reached. `G722Theorems.RunIsExact` proves that over every run, from every state after
`ResetBand` and whatever the three array slots hold that `ResetBand` leaves alone, the fixed-point
encoder passes through the states of the exact one; no product wraps (`NoProductWraps`), and the
poles are stable from the first pair on (`EncoderIsStable`). The quantiser search, the ranges of every adaptive quantity, the agreement of
linear and log scale factors, the exact convolution behind the QMF, and a receiver that follows
the encoder from its octets alone are proved over all runs too. The upper bounds of both bands are
reached: the low band's after seven loud pairs (`UpperBoundIsReached`), the high band's after
thirty-two alternating ones (`HighBoundIsReached`). The tables have laws of their own, apart from
the header's second listing of them: every entry of `ila` is a rounded power of two
(`IlaIsAntilogarithm`), and a larger difference never makes the next scale factor smaller
(`LowAdaptsMonotonically`, `HighAdaptsMonotonically`). `ResetForgetsOverRuns` says exactly when two
reset encoders with different leftovers cannot be told apart by any input.

**JSON** (`Json*.dfy`). The reader normalises, splits at commas outside braces and brackets, and
recurses. For every document without NULs, and without quotes in its keys, at any depth and width,
`JsonExact.RoundTripExactly` says exactly when printing and parsing give it back: no string value
has a quote or a backslash, and the document survives, a recursive condition (`Survives`) on
braces, delimiters, colons and the kinds of its values. It has to follow the reader's own tolerance: a brace that a body
still waits for is left behind it, and only an object as the last value can bear it. The proof rests on a conservation law: no value has more commas
than the text it was read from (`JsonCommas`), so a text that gives back its document cannot have
been split elsewhere. `JsonPlain` applies the law to every document without NULs, whatever its keys:
texts are compared without any white space (`JsonSqueeze`), so it does not matter which parts of
them the reader takes as quoted. A quote or a backslash in a string value, at any depth, never comes
back (`StringsStayPlain`), and neither does a missing value (`MissingNeverComesBack`). `PrintThenParse` is the round trip without conditions on a simple class:
strings, objects, and arrays of strings and objects, whose strings match their braces and
brackets and expose no comma, without backslashes, and whose keys have no colon.
`JsonValues` says what is read under a key: the text of an object or array is a document of its own
that gives the value back exactly when that survives, and missing values come back as the string
"null" (`MissingBecomesNull`). `RoundTripNeedsShape` shows for all documents that integers, arrays directly in arrays and values
missing under a key never come back.

**SHA-1 and MD5** (`Blocks.dfy`, `Sha1Block.dfy`, `Sha1.dfy`, `Md5.dfy`). The circular sixteen-word
schedule with swapped loads and rotated registers computes the eighty-word recurrence of section
6.1 of RFC 3174, on hosts of either byte order. Both hashes give the digest of the padded message
for every cutting of the message into pieces. Words, round constants, padding and length are
characterised by what they are, and `DigestOfAbc` computes the first digest that RFC 3174 lists.

**Checksums and packets** (`Checksum.dfy`, `Headers.dfy`, `CallLegs.dfy`). The summation adds its
carries back only once. So the code's own check does not accept every header that the code
writes: it does exactly when the fold does not carry a second time (`Ipv4Accepted`), and
`MirrorPacketRejected` names a packet of a mirror call that is rejected. The check itself is that
of RFC 1071 (`AllOnesIsOnesSum`). For UDP the check accepts exactly when three sums known before
the update are consistent (`UdpAcceptedExactly`): no fold loses a carry, or, in the rare case that
their high halves spill over, exactly one does. `UdpUpdateCanBeRejected` is a packet that fails.
The checksum written is the complement of the one's complement sum that RFC 768 asks for exactly
when none of the update's four folds loses a carry and no odd last byte has a value
(`UdpChecksumIsOnesSum`). `PacketAccepted` is about packet k of a leg as a receiver sees it, with the
pseudo header made from the packet (`PseudoAsSeen`).

**Calls** (`CallLegs.dfy`, `Calls.dfy`). A leg stepped for T ms has sent floor(T / 20) packets, and
packet k is the same byte sequence however the time was cut. The main loop's sweep, which erases
from the vector it iterates over, steps each live call once and removes exactly those whose time
is over; the live calls are those that a schedule of ages and sweep counts names, in order of
creation, never more than the limit, on addresses that repeat only after 2^31 calls.

**Base64** (`Base64.dfy`). The encoder succeeds exactly when the text and its terminator fit,
writes nothing beyond the given length, and its text is the one that decodes to the input.

## Where code and documentation disagree

- src/g722encoder.cpp:398-405 clears two of three slots of six arrays; the model keeps that, and
  `ResetForgetsOverRuns` says when it shows, and `ResetCanBeSeen` names two encoders on which it does.
- include/rawsocket.h:15 promises a one's complement sum; the code folds once and cuts to sixteen
  bits (src/rawsocket.cpp:22-24), and an odd last byte is added as a low byte, where RFC 1071 has a
  high byte. `SummationIsOnesSum` says for every length exactly when the two agree;
  `OddByteDiffers` is the shortest text on which they do not.
- RFC 768 wants a computed zero sent as all ones; the code sends the zero
  (src/rawsocket.cpp:275). `UdpChecksumIsZero` says exactly when; `UdpChecksumCanBeZero` is such a
  header.
- src/rawsocket.cpp:129-134 does not swap `fragment` when reading, while writing does. `Ipv4ReadBack`
  says for which headers that shows; a fragment word of 0x4000 is read as 0x40
  (`FragmentNotReadBack`).

## Model

| member | source | states |
|---|---|---|
| FixedPoint.ScaledMult | src/g722encoder.cpp:84-92 | the masked, shifted and sign-extended product is floor(x*y/2^15) for all operands but -32768 twice, where it wraps to -32768 |
| FixedPoint.ShiftRightShort | src/g722encoder.cpp:41-49 | the shift through complements is floor division by a power of two; by 15 it is the sign |
| FixedPoint.ShiftLeftShort | src/g722encoder.cpp:31-39 | the shift is the product clamped to 16 bits, also for shifts above fifteen places |
| FixedPoint.SaturateAdd | src/g722encoder.cpp:7-13 | the sign tests on the wrapped sum give the clamp of the true sum |
| FixedPoint.SaturateSubtract | src/g722encoder.cpp:15-21 | the same for the difference |
| G722Quantizers.Quantl | src/g722encoder.cpp:94-121 | the search loop returns the six-bit code of the cell function |
| G722Accuracy.CellBrackets | src/g722encoder.cpp:105-114 | the cell's lower scaled level is reached and its upper one is not, for every difference and scale factor |
| G722Accuracy.CellCountsLevels | src/g722encoder.cpp:105-114 | the cell is the number of levels reached, and no other cell brackets the difference |
| G722Accuracy.LowQuantizerError | src/g722encoder.cpp:94-154 | below the last level, the value rebuilt from the four-bit core is off by at most the width of the core's cell |
| G722Accuracy.RebuiltMagnitude | src/g722encoder.cpp:144-154 | the rebuilt magnitude lies between the levels that delimit its core's cell |
| G722Accuracy.LevelsMonotonic | include/g722encoder.h:28-30 | the scaled decision levels ascend |
| G722Quantizers.Quanth | src/g722encoder.cpp:123-142 | the code's upper bit is the sign of the difference, its lower bit says whether the magnitude is below the one decision level |
| G722Accuracy.HighRequantizes | src/g722encoder.cpp:123-165 | the value rebuilt from a high-band code lies in the code's own cell, for every scale factor of a run |
| G722Accuracy.HighQuantizerError | src/g722encoder.cpp:123-165 | in the inner cells the rebuilt high-band value is off by at most the width of the cell |
| G722Bands.Upzero | src/g722encoder.cpp:213-230 | the in-place loop updates every coefficient from the old histories and moves the history by one without loss |
| G722Bands.Uppol2 | src/g722encoder.cpp:256-284 | only slot 2 changes, to a value within 12288 |
| G722Bands.Uppol1 | src/g722encoder.cpp:232-254 | only slot 1 changes, to a value that is stable with the slot 2 given; the history moves by one |
| G722Bands.Filtez | src/g722encoder.cpp:286-296 | the loop is the saturated sum of the zero section's products, oldest first |
| G722Bands.Filtep | src/g722encoder.cpp:298-309 | the history moves by one and the result is the pole section over it |
| G722Bands.Pole1 | src/g722encoder.cpp:232-254 | whenever a2 is within 12288, the new a1 lies in the stability triangle of section 3.6 of ITU-T G.722 |
| G722Qmf.QmfTx | src/g722encoder.cpp:311-343 | the filter's outputs are the clamped floors of the sum and difference of the two exact tap sums, and the line moves by two |
| G722Qmf.TapSumBound | src/g722encoder.cpp:317-327 | every partial sum of a phase is at most 12964 times 2^15, so no accumulation saturates |
| G722Qmf.Descaling | src/g722encoder.cpp:329-342 | no sum, difference or doubling saturates |
| G722Qmf.LineAfterPair | src/g722encoder.cpp:311-343 | a pair moves the window over the last 24 samples by two |
| G722Encoder.SubBand.Reset | src/g722encoder.cpp:384-418 | a reset band has the start values, with three history slots as they were |
| G722Encoder.SubBand.Adapt | src/g722encoder.cpp:345-382 | the sequence of in-place updates, from difference to prediction, is the value function of one sample |
| G722Encoder.Encoder.LsbCod | src/g722encoder.cpp:345-363 | the low band's code and its next state |
| G722Encoder.Encoder.HsbCod | src/g722encoder.cpp:365-382 | the high band's code and its next state |
| G722Encoder.Encoder.Encode | src/g722encoder.cpp:429-468 | a packet's octets and the state after it are those of the run over its samples; the rest of the output is untouched |
| G722Adaptation.ListingsAgree | include/g722encoder.h:60-238 | the tables before `ila` are the stretches of the header's second listing |
| G722Adaptation.LastListingsAgree | include/g722encoder.h:595-621 | so are those after it |
| G722Adaptation.CoreIsLevel | include/g722encoder.h:28-33 | the value rebuilt for a four-bit core is every fourth decision level |
| G722Adaptation.HighLevelIsMean | src/g722encoder.cpp:123-165 | the one decision level of the high band is the mean of the two values rebuilt |
| G722Adaptation.TapsMirrored | include/g722encoder.h:18-20 | the filter is symmetric |
| G722Adaptation.LowAdaptsMonotonically | src/g722encoder.cpp:167-205 | a difference of larger magnitude, or a larger log scale factor, never leads to a smaller next one, log or linear |
| G722Adaptation.HighAdaptsMonotonically | src/g722encoder.cpp:183-211 | the same for the high band |
| G722Antilog.IlaIsAntilogarithm | include/g722encoder.h:36-52 | each of the 352 entries, plus one, is 2^(11 + j/32) rounded to an integer and halved, without its fraction, for each octave below |
| G722Antilog.LastEntry | include/g722encoder.h:36-52 | and the last entry begins the next octave |
| G722Antilog.IlaAscends | include/g722encoder.h:36-52 | the entries ascend |
| G722Antilog.ScalesDouble | src/g722encoder.cpp:196-211 | both linear scale factors double with every 2048 steps of the log ones, but for rounding |
| G722Reference.PredictIsExact | src/g722encoder.cpp:213-309 | within the run invariants, both predictor sections over saturating arithmetic equal those over exact arithmetic |
| G722Reference.Pole2IsExact | src/g722encoder.cpp:256-284 | the saturating update of a2 is the clamp of an unbounded sum, for every state |
| G722Reference.Pole1IsExact | src/g722encoder.cpp:232-254 | the saturating update of a1 is the unbounded leaky sum cut to the stability triangle |
| G722Reference.PoleSectionIsExact | src/g722encoder.cpp:298-309 | no product of the pole section wraps when the poles are stable |
| G722Reference.ZeroSumIsExact | src/g722encoder.cpp:286-296 | no product of the zero section wraps while the differences stay in range |
| G722Reference.LowNextIsExact | src/g722encoder.cpp:345-363 | one low-band sample is exact, keeps the run invariants and leaves stable poles |
| G722Reference.HighNextIsExact | src/g722encoder.cpp:365-382 | the same for the high band |
| G722Reference.LowScaleIsExact | src/g722encoder.cpp:167-205 | the log scale factor is the clamped leaky sum, and the linear one four times a table entry plus four |
| G722Reference.HighScaleIsExact | src/g722encoder.cpp:183-211 | the same for the high band |
| G722Theorems.StepIsExact | src/g722encoder.cpp:429-468 | one sample pair of the fixed-point encoder is one of the exact encoder |
| G722Theorems.RunIsExact | src/g722encoder.cpp:84-468 | over every run, from any reset, the states are those of the exact encoder, which has unbounded products and clamps only at the stated places |
| G722Theorems.NoProductWraps | src/g722encoder.cpp:84-92 | after every non-empty run each product of a pole or zero coefficient with its doubled history value is the exact floor, and so is every product of either scale factor with any 16-bit value |
| G722Theorems.EncoderIsStable | src/g722encoder.cpp:232-284 | after every non-empty run, from any reset, both bands satisfy the stability triangle |
| G722Theorems.ScalesAgreeOverRuns | src/g722encoder.cpp:167-211 | in every reachable state the linear scale factors are the antilogarithms of the log ones |
| G722Theorems.LowRangesOverRuns | src/g722encoder.cpp:167-230 | over every run nbl is in 0..18432, detl in 32..16384, every table index in 64..352, the zero coefficients at most 32513 and the differences within 10228 |
| G722Theorems.HighRangesOverRuns | src/g722encoder.cpp:183-230 | over every run nbh is in 0..22528, deth in 8..16384, the index in 0..352, the coefficients at most 32513 and the differences within 3704 |
| G722Theorems.ErrorOverRuns | src/g722encoder.cpp:94-154 | the quantiser's cell and error bound hold at every reachable scale factor |
| G722Theorems.HighCodesOverRuns | src/g722encoder.cpp:123-165 | the two high-band results hold at every reachable scale factor |
| G722Tight.UpperBoundIsReached | src/g722encoder.cpp:167-211 | seven pairs at full level take nbl to 18432, detl to 16384 and the table index to 352 |
| G722Climb.HighBoundIsReached | src/g722encoder.cpp:183-211 | thirty-two pairs at full level, of opposite signs, take nbh to 22528, deth to 16384 and the table index to 352 |
| G722Theorems.LineOverRuns | src/g722encoder.cpp:311-343 | between pairs the delay line holds the last 22 samples of the whole input, newest first |
| G722Theorems.CodesQuantizeConvolution | src/g722encoder.cpp:311-382 | the emitted codes quantise the exact convolution of the whole input |
| G722Theorems.RunAcrossPackets | src/g722encoder.cpp:429-468 | state and codes carry over packet boundaries without a seam |
| G722Decoder.OctetUnpacks | src/g722encoder.cpp:458-464 | the output octet does not saturate and gives back both codes |
| G722Decoder.TrackerFollows | src/g722encoder.cpp:345-382 | a receiver that sees only the octets has the encoder's bands after every run |
| G722Decoder.SameOctetsSameBands | src/g722encoder.cpp:345-382 | runs that emit the same octets from the same bands end in the same bands |
| G722Reset.ResetForgetsExactly | src/g722encoder.cpp:384-418 | two reset encoders are in the same state after every first sample pair if and only if the leftover slots of both bands agree up to a stated condition |
| G722Reset.ResetForgetsOverRuns | src/g722encoder.cpp:384-418 | and then, and only then, every non-empty run ends in the same state |
| G722Reset.ResetCanBeSeen | src/g722encoder.cpp:384-418 | two reset encoders, one with a negative leftover, that some input tells apart |
| G722Reset.FirstStep | src/g722encoder.cpp:345-418 | which part of the leftovers the first pair sees, by the signs of its two differences |
| JsonText.FindJsonElementDelimeter | src/jsontype.cpp:8-59 | the loop over next targets finds the offset that the character-wise search defines |
| JsonText.DelimiterAfter | src/jsontype.cpp:8-59 | a comma after a text is its first delimiter if and only if the text closes all it opens and exposes no comma |
| JsonText.PartsOfJoin | src/jsontype.cpp:496-518 | splitting undoes joining with commas if and only if the pieces are splittable |
| JsonNormal.NormalizeString | src/jsontype.cpp:61-98 | the loop with its flags computes the reader automaton's output |
| JsonNormal.NormalizeIgnoresSpace | src/jsontype.cpp:61-98 | NUL-free texts equal up to white space outside strings are normalised alike |
| JsonTheorems.WhiteSpaceGoes | src/jsontype.cpp:61-98 | outside strings exactly the six characters of `isspace` are removed |
| JsonTheorems.NormalizeDropsSpace | src/jsontype.cpp:61-98 | one of the six, inserted outside the strings of a NUL-free text, does not change what is normalised |
| JsonNormal.NormalizeIdempotent | src/jsontype.cpp:61-98 | a second normalisation changes nothing if and only if the first left no brace in front |
| JsonNormal.OuterBraces | src/jsontype.cpp:61-98 | what normalising an object's text leaves: the body, or its part before a brace, or the body and a brace more |
| JsonNormal.OuterBracesDropped | src/jsontype.cpp:61-98 | dropping the outer braces leaves the normalised body if and only if the body's braces match |
| JsonObject.EscapeString | src/jsontype.cpp:355-372 | inserting backslashes in place is the character-wise escape |
| JsonObject.ElementFromText | src/jsontype.cpp:104-174 | the parsing constructor with its loops gives the element of the recursive parse |
| JsonObject.ItemsFromText | src/jsontype.cpp:135-164 | the item loop gives the items of the recursive parse, dropping those of other shapes |
| JsonObject.JsonType.Add | src/jsontype.cpp:496-518 | the elements of the text are appended to those there |
| JsonObject.JsonType.AddPair | src/jsontype.cpp:520-530 | the first element with the key is set, or one is appended |
| JsonObject.SetThenGet | src/jsontype.cpp:446-530 | after a key is set it is found with its value, and every other key as before |
| JsonObject.SetKeyInPlace | src/jsontype.cpp:520-530 | setting a key changes the first element with it in its place, or appends one |
| JsonValues.GetText | src/jsontype.cpp:213-456 | a string is given as it is, a missing value as "null", and an absent key as the empty text |
| JsonValues.GetObject | src/jsontype.cpp:310-456 | parsing what is read under an object's key gives the object if and only if its strings are plain and it survives |
| JsonValues.GetThenParse | src/jsontype.cpp:310-456 | what is read for a value of any kind but a string, put under its key again and parsed, gives the element if and only if that survives |
| JsonValues.DecimalReads | src/jsontype.cpp:280-288 | an integer's text reads back as the integer |
| JsonValues.EscapeReads | src/jsontype.cpp:355-372 | an escaped string may stand between quotes, and a reader that knows escapes reads the string back |
| JsonValues.MissingBecomesNull | src/jsontype.cpp:104-518 | a document comes back with the string "null" for its missing values, at any depth, if and only if that document survives |
| JsonExact.RoundTripExactly | src/jsontype.cpp:8-518 | for every document without NULs and without quotes in its keys, parsing the printed text gives it back if and only if its string values have no quote and no backslash and it survives: a recursive condition on braces, delimiters, colons and backslashes |
| JsonExact.QuietRoundTrip | src/jsontype.cpp:8-518 | without any quote, surviving alone decides |
| JsonPlain.StringsStayPlain | src/jsontype.cpp:8-518 | any document whose printed text has no NUL comes back only if no string value, at any depth, has a quote or a backslash |
| JsonExact.MissingNeverComesBack | src/jsontype.cpp:104-174 | a document with a missing value at any depth never comes back |
| JsonExact.ObjectTail | src/jsontype.cpp:61-518 | the same for an object whose text is followed by any number of closing braces |
| JsonPlain.NoCutElements | src/jsontype.cpp:61-98 | a body that the normaliser cuts at an unmatched brace never gives its elements, whatever quotes it has |
| JsonExact.PrintThenParse | src/jsontype.cpp:104-518 | parsing the printed text of a good object gives back the object, at any depth and width |
| JsonExact.OpenBracketComesBack | src/jsontype.cpp:8-518 | a document outside the simple class that comes back |
| JsonCommas.ObjectCommas | src/jsontype.cpp:61-518 | for every text, the object read from it has no more commas in its compact form than the text |
| JsonCommas.PartsAlign | src/jsontype.cpp:496-518 | parts with enough commas of a text with few enough are the joined pieces themselves |
| JsonExact.OuterBracesDoNotMatter | src/jsontype.cpp:496-518 | when the braces of an object's text match, parsing it without its outer braces gives the same elements |
| JsonExact.BracesDoNotMatter | src/jsontype.cpp:496-518 | adding a good object's text with or without its outer braces appends the same elements |
| JsonTheorems.PlainStringIsGood | src/jsontype.cpp:8-59 | strings without special characters are in the class of the round trip |
| JsonFormat.PrintedLayout | src/jsontype.cpp:475-489 | for any values and plain keys, the printed text is the compact one with one space after each comma and colon outside strings |
| JsonTheorems.ElementsStrip | src/jsontype.cpp:475-489 | the printed elements differ from the compact ones in white space outside strings only |
| JsonTheorems.ElementsLevel | src/jsontype.cpp:8-59 | the delimiter search runs through printed elements wherever it is inside a brace |
| JsonShape.ObjectShape | src/jsontype.cpp:104-174 | no parse of any text gives an integer, an array directly in an array, or a missing value under a key |
| JsonShape.RoundTripNeedsShape | src/jsontype.cpp:104-174 | so documents with one of these never come back |
| JsonExact.FlatRoundTripExactly | src/jsontype.cpp:8-518 | a one-level document without quotes comes back if and only if its keys have no colon, its strings no backslash, its braces match and its pieces are splittable |
| Sha1Block.SwapRestoresWord | 3rdParty/libhttp/src/extern_sha1.c:61-69 | after `blk0` the word is big-endian on either host |
| Sha1Block.MixIsF | 3rdParty/libhttp/src/extern_sha1.c:75-89 | the macros' mixing expressions are the functions of section 5 of RFC 3174 |
| Sha1Block.ChoiceBits | 3rdParty/libhttp/src/extern_sha1.c:75-89 | in rounds 0 to 19 the bits of b choose between those of c and d |
| Sha1Block.MajorityBits | 3rdParty/libhttp/src/extern_sha1.c:75-89 | in rounds 40 to 59 the result is the common bits of b and c, and d where they differ |
| Sha1Block.RoundConstants | 3rdParty/libhttp/src/extern_sha1.c:75-89 | the four constants are the floors of 2^30 times the roots of 2, 3, 5 and 10, each for its twenty rounds |
| Sha1Block.LaterWord | 3rdParty/libhttp/src/extern_sha1.c:71-74 | from word 16 on each word is the exclusive or of four older ones, doubled, with the top bit brought round |
| Sha1Block.RotationByFive | 3rdParty/libhttp/src/extern_sha1.c:59-59 | the top five bits come in at the low end and the others move up |
| Sha1Block.RotationByThirty | 3rdParty/libhttp/src/extern_sha1.c:59-59 | the same for thirty bits |
| Sha1Block.Blk | 3rdParty/libhttp/src/extern_sha1.c:61-74 | the word for round t, and the sixteen places hold the last sixteen words of the recurrence |
| Sha1Block.MacroIsRound | 3rdParty/libhttp/src/extern_sha1.c:75-89 | a macro call on rotated register names is one round |
| Sha1Block.SHA1Transform | 3rdParty/libhttp/src/extern_sha1.c:93-199 | the in-place form computes the digest update of section 6.1 of RFC 3174 |
| Sha1.Context.SHA1Update | 3rdParty/libhttp/src/extern_sha1.c:214-235 | after absorbing a message and then data, the context has absorbed their concatenation |
| Sha1.Context.SHA1Final | 3rdParty/libhttp/src/extern_sha1.c:238-260 | the digest is that of the padded message of section 4 of RFC 3174, and the context is erased |
| Sha1.PaddedMessage | 3rdParty/libhttp/src/extern_sha1.c:238-260 | the padded message is the shortest one of whole blocks with the message, a 1-bit, zeros and the number of bits modulo 2^64, most significant octet first |
| Sha1.DigestWords | 3rdParty/libhttp/src/extern_sha1.c:252-256 | the digest, read word by word, is the five registers |
| Sha1Vector.DigestOfAbc | 3rdParty/libhttp/src/extern_sha1.c:93-260 | the digest of "abc" is that of section 7.3 of RFC 3174 |
| Sha1.DigestOfPieces | 3rdParty/libhttp/src/extern_sha1.c:202-260 | for every cutting of a message into pieces the digest is that of the whole message |
| Blocks.CounterAdds | 3rdParty/libhttp/src/extern_md5.c:430-434 | the two counter words with the carry seen as a sum below an addend are the 64-bit bit count |
| Blocks.FirstBlock | 3rdParty/libhttp/src/extern_md5.c:436-446 | the buffer completed by new data is the next block of the whole message |
| Blocks.LastPart | 3rdParty/libhttp/src/extern_md5.c:448-454 | what remains after the whole blocks is the tail of the message |
| Md5.State.Append | 3rdParty/libhttp/src/extern_md5.c:419-455 | after absorbing a message and then data, the state has absorbed their concatenation |
| Md5.State.Finish | 3rdParty/libhttp/src/extern_md5.c:457-476 | the digest is the fold over the message padded as sections 3.1 and 3.2 of RFC 1321 say |
| Md5.PaddedMessage | 3rdParty/libhttp/src/extern_md5.c:457-476 | the padded message is the shortest one of whole blocks with the message, a 1-bit, zeros and the number of bits modulo 2^64, least significant octet first |
| Md5.DigestWords | 3rdParty/libhttp/src/extern_md5.c:474-475 | the digest, read word by word, is the four registers |
| Md5.InitialOctets | 3rdParty/libhttp/src/extern_md5.c:408-417 | the octets of the start values are those of section 3.3 of RFC 1321 |
| Md5.DigestOfPieces | 3rdParty/libhttp/src/extern_md5.c:408-476 | for every block function and every cutting into pieces the digest is that of the whole message |
| Checksum.OnesComplementShortSummation | src/rawsocket.cpp:9-25 | the loop gives the once-folded sum of the words, without overflow of the 32-bit sum |
| Checksum.SummationIsOnesSum | src/rawsocket.cpp:9-25 | for every length the result is the RFC 1071 sum if and only if the fold does not carry again and an odd last byte is zero |
| Checksum.OddByteDiffers | src/rawsocket.cpp:18-19 | the one-byte text on which the two sums differ |
| Checksum.AllOnesIsOnesSum | src/rawsocket.cpp:223-227 | the result is all ones if and only if the RFC 1071 sum is |
| Headers.Ipv4Header.UpdateChecksumWriteToBuffer | src/rawsocket.cpp:139-170 | the checksum field and exactly twenty bytes of the buffer change, to the header's line |
| Headers.CheckIpv4Checksum | src/rawsocket.cpp:223-227 | accepts twenty bytes whose summation is all ones |
| Headers.Ipv4Accepted | src/rawsocket.cpp:139-227 | for every header, the check accepts what the update wrote if and only if the zero-checksum sum does not carry a second time, and exactly then the checksum is that of RFC 1071 |
| Headers.Ipv4UpdateCanBeRejected | src/rawsocket.cpp:139-227 | a header that the check rejects after the update |
| Headers.Ipv4Header.ReadFromBuffer | src/rawsocket.cpp:120-137 | the fields of the line, with the fragment word in the other byte order |
| Headers.Ipv4ReadBack | src/rawsocket.cpp:120-197 | reading gives back what was written if and only if the two bytes of the fragment word are equal |
| Headers.FragmentNotReadBack | src/rawsocket.cpp:120-197 | a header with the don't-fragment bit is read with fragment 0x40 |
| Headers.UdpHeader.UpdateChecksumWriteToBuffer | src/rawsocket.cpp:248-281 | the checksum field and exactly eight bytes of the buffer change, to the header's line |
| Headers.CheckUdpChecksum | src/rawsocket.cpp:319-333 | accepts packets whose two summations fold to all ones |
| Headers.UdpCheckIsOnesSum | src/rawsocket.cpp:319-333 | when neither fold of the check loses a carry, it accepts exactly what RFC 1071 does; when one does, no packet is accepted by both |
| Headers.UdpWords | src/rawsocket.cpp:283-300 | the line has the ports, the length and the checksum at offsets 0, 2, 4 and 6 |
| Headers.PseudoWords | src/rawsocket.cpp:89-107 | the pseudo header has the addresses, a zero, the protocol and the length in the places of RFC 768 |
| Headers.UdpAcceptedExactly | src/rawsocket.cpp:248-333 | for every payload, the check accepts the updated packet if and only if the sums of pseudo header, zeroed header and payload are consistent |
| Headers.UdpUpdateCanBeRejected | src/rawsocket.cpp:248-333 | a packet that the check rejects after the update |
| Headers.UdpChecksumIsOnesSum | src/rawsocket.cpp:248-281 | for every payload, the written checksum is the complement of the one's complement sum over pseudo header, header and payload if and only if none of the four folds loses a carry and no odd last byte has a value |
| Headers.UdpChecksumIsZero | src/rawsocket.cpp:248-281 | the written checksum is zero if and only if the folded total is a positive multiple of 65535 |
| Headers.UdpChecksumCanBeZero | src/rawsocket.cpp:248-281 | a header for which a zero is written |
| Headers.Ipv4LineSum | src/rawsocket.cpp:139-170 | the header's word sum, field by field |
| Headers.UdpAcceptedWithoutCarries | src/rawsocket.cpp:248-333 | when no fold of the update loses a carry and the high halves of the three sums do not spill, the check accepts |
| Headers.RtpReadBack | src/rawsocket.cpp:29-62 | the RTP line with its bit fields gives back every header |
| CallLegs.CallLeg.FillLine | src/callleg.cpp:95-124 | the line buffer filled from its end to its start holds packet k |
| CallLegs.CallLeg.Step | src/callleg.cpp:91-138 | a step adds its time to the leg's, with one packet sent for every full 20 ms |
| CallLegs.RunSteps | src/callleg.cpp:91-138 | for every cutting of a time T into steps, exactly the first floor(T/20) packets are sent |
| CallLegs.PacketHeader | src/callleg.cpp:53-64 | the IPv4 header of packet k has version 4, five words, the length of the packet, protocol 17 and the addresses of the leg |
| CallLegs.PacketPorts | src/callleg.cpp:47-51 | its UDP header has the ports of the leg and the length of all that follows the IPv4 header |
| CallLegs.PacketCarriesCounters | src/callleg.cpp:130-136 | packet k carries seq0+k, ts0+160k and id0+k, each modulo its width, the leg's payload type and source, and the k-th payload |
| CallLegs.PseudoAsSeen | src/callleg.cpp:66-70 | the pseudo header that a receiver makes from the packet is the one that the checksum was made with |
| CallLegs.PacketAccepted | src/callleg.cpp:106-119 | when a receiver, who has nothing but packet k, accepts its two checksums, by the numbers in its headers |
| CallLegs.MirrorPacketRejected | src/callleg.cpp:264-318 | packet 47129 of a mirror call between two given addresses fails the IPv4 check |
| Calls.Call.Mirror | src/callleg.cpp:264-318 | two legs in opposite directions, and 1000 times the duration modulo 2^32 milliseconds |
| Calls.Call.Step | src/callleg.cpp:161-176 | every leg gets the step or what is left, cut to sixteen bits, and the result says whether the time sufficed |
| Calls.MirrorCallFactory.CreateCall | src/callleg.cpp:320-325 | each call joins two consecutive addresses |
| Calls.AddressesDiffer | src/callleg.cpp:320-325 | the pairs of two calls coincide if and only if a multiple of 2^31 calls lies between them, and neither call's first address is the other's second |
| Calls.Simulation.Sweep | src/ddgen.cpp:89-97 | every live call is stepped once, and exactly those with less than 20 ms left are erased |
| Calls.Simulation.StepAt | src/ddgen.cpp:91-96 | erasing and going back one place neither skips nor repeats a call |
| Calls.Simulation.Iterate | src/ddgen.cpp:71-99 | one turn of the main loop follows the schedule |
| Calls.Simulation.RemovedWhenOver | src/ddgen.cpp:89-97 | a call is live if and only if its sweeps so far fit into its time |
| Calls.Simulation.RemovedAfterLastPacket | src/ddgen.cpp:89-97 | a removed call's legs have sent one packet for every 20 ms of the call, and no more |
| Calls.AgeIsSweepCount | src/ddgen.cpp:71-99 | a call admitted at a turn has since been swept once by every sweep, its own turn's included |
| Calls.AgeGrows | src/ddgen.cpp:89-97 | a turn after more than 20000 microseconds adds one sweep to every call, and any other adds none |
| Calls.OneCallPerStart | src/ddgen.cpp:72-82 | the calls ever created are as many as the turns that are told to start one and find room, for every sequence of turns |
| Calls.AliveCountIs | src/ddgen.cpp:89-97 | the live calls are those whose sweeps of 20 ms fit into their time |
| Calls.LiveWithinLimit | src/ddgen.cpp:72-82 | after every run there are at most as many live calls as the limit |
| Calls.RunTurns | src/ddgen.cpp:71-99 | for every sequence of turns the vector of calls follows the schedule, within the limit |
| Base64.Base64Encode | 3rdParty/libhttp/src/httplib_base64_encode.c:40-83 | succeeds if and only if text and terminator fit, with their number returned; otherwise writes as much of the text as fits; nothing beyond |
| Base64.EncodeThenDecode | 3rdParty/libhttp/src/httplib_base64_encode.c:55-78 | the text decodes to the input, by section 4 of RFC 4648 |
| Base64.DecodeThenEncode | 3rdParty/libhttp/src/httplib_base64_encode.c:55-78 | no other text decodes to the same octets |
| Base64.AlphabetIsStandard | 3rdParty/libhttp/src/httplib_base64_encode.c:42-42 | the table in the code is that of RFC 4648 |

## Left out

- Sockets, pcap files, clocks, sleeping, signals, storage, the web interface and option parsing: plumbing without an invariant. The clock's readings and the option to start are inputs of a turn.
- src/generator.cpp: the sine and the random start values become arbitrary inputs; a leg gets an arbitrary encoded payload for each packet, and generating and encoding do not fail.
- G.711 (src/encoder.cpp): a function of 65536 cases without state; legs carry arbitrary 160-byte payloads.
- G.722 inside a leg: the leg sizes its payload by 320 samples while the encoder writes 160 bytes, and the program never combines them; legs are modelled with 160-sample packets.
- JsonType's reading of an array as a list of texts: the values of its items, one by one, by the rule of `Get`.
- DRLinkCall and its factory: the same legs and steps as a mirror call, from a list of destinations.
- Null-pointer guards, ownership and `delete` in the JSON values, unset bytes of hardware addresses (an arbitrary Ethernet line), printing and logging.
- FixedPoint.ShiftLeftShort: the product is unbounded; where C++ leaves its overflow open, for shifts above fifteen places, the guard decides as it does there.
- The guards on table indices that can never fire in the quantisers, and the receive filter's delay line, which no function uses.
- The structure of both bands: the model has one object per band instead of one structure with every field twice.
- JsonNormal.NormalizeString: brace counters are unbounded, so an overflow after 2^31 braces is not modelled; the same holds for the nesting counters of the delimiter search.
- JsonExact.RoundTripExactly: for documents with a quote in a key only necessary conditions are proved (`JsonPlain.StringsStayPlain`, `JsonShape.RoundTripNeedsShape`): the printer writes the quote as it is, and every later search runs on text that is quoted the other way round. Documents with a NUL are left out.
- Sha1Block.SHA1Transform: the eighty macro lines are a loop over rounds with the rotated register names computed, and the erasing of locals is left out.
- Sha1.Context.SHA1Update: requires that the buffer offset and the length together stay below 2^32, as the source's 32-bit sum does.
- Md5.State.Append: requires that the buffer offset and the length together stay below 2^64.
- Md5.Digest: the block function (3rdParty/libhttp/src/extern_md5.c:218-406) is an arbitrary function of state and block.
- Headers.UdpAcceptedExactly: the payload given to the update is the one that follows the header, and the length field is its size plus eight, as the interface asks.
- Calls.Simulation.Sweep: the iterator is an index; going back before the first element, which the source does when it erases there, is the index -1.
- The MIME table, the socket queue, access lists and the other vendored code: textbook, or their other half is not part of the repository's own code.
