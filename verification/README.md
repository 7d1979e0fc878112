# Link layer and codecs of the radio server, verified

A Dafny model of the bit, byte and integer machinery between the floating-point
signal processing and the REST layer of the server, with proofs of what the two
ends of each link promise each other. `dafny verify dfyconfig.toml` checks it.

| Files | What they cover |
|---|---|
| `Wrappers`, `Basics`, `Octets`, `Bytes`, `Utf8Text` | options, shared helpers, wire bit order, little-endian words, strings as UTF-8 octets |
| `Fcs`, `FcsOrder`, `LineCode`, `Hdlc`, `AisHdlc` | the X.25 frame check sequence, stuffing, flags, NRZI, and the two separately written deframers |
| `Ax25`, `AprsData`, `AprsLink` | AX.25 addresses and UI frames, APRS messages and positions, the whole stack end to end |
| `AisLink`, `Armor`, `Nmea` | AIS symbols to AIVDM sentences, and reading those sentences back |
| `ModeS`, `Cpr`, `Beast` | the Mode S CRC-24 and its repair, compact position reporting, the Beast stream |
| `Apt`, `Resampler`, `Fir`, `Tone` | streaming stages against whole-signal definitions |
| `SpectrumFrame`, `Waterfall`, `WaterfallCursor` | the spectrum ring, its binary frame, and the polling client |
| `FlightLookup` | the shared flight cache as interleaved atomic steps |

Code that updates objects is a class whose methods are proved against functions
of the old state; loops over buffers are methods with invariants; the theorems
are lemmas about those functions. Inputs the code gets from outside are
parameters: symbol levels, clock readings, upstream replies, the Beast amplitude,
the longitude-zone function `nl`, sine, cosine and square root, the direction in
which decimal formatting breaks ties, and the single-precision word of a level.
Filters, resampler, APT words, spectrum levels and coordinates are exact reals.

## What the proofs found

- The modulator's NRZI starts at level true (server/src/aprs/tx.rs:109) and a
  fresh receiver expects false (server/src/aprs/demod.rs:244), so the first
  decoded bit is wrong and the first flag is missed. One transmission into a
  fresh receiver gets through exactly with two or more lead flags
  (`Hdlc.TransmissionReceived`).
- The AIS deframer leaves a frame when it closes one, so flags pair up: behind n
  flags it receives the frame exactly when n is odd (`AisHdlc.AisNeedsOddFlags`),
  and of frames that share flags it receives every second one
  (`AisHdlc.AisTakesEveryOther`). The APRS deframer receives them all.
- The resampler's loop guard admits an output instant that falls on a block's
  last sample, and then indexes one past the end. A signal comes through exactly
  when no block ends on an output instant (`Resampler.ResampleAll`); at equal
  rates every block does (`Resampler.EqualRatesLand`).
- The parser of positions slices strings and panics where a slice ends outside the
  text or inside a character (server/src/aprs/parse.rs:93-108, 172). A frame that
  is received is recorded if and only if its information field does not do that
  (`AprsLink.FrameDelivered`); a report with the comment "/A=1" does
  (`AprsLink.CutReportUnheard`).
- `position_info` takes any coordinate and symbol, but degrees beyond two or three
  digits and symbols outside ASCII do not parse back
  (`AprsData.PositionRoundTrip` has the exact condition).
- The spectrum header is 44 bytes and the client checks for 38. Of a reply cut short
  it throws on exactly the lengths from 38 to 43 and those that end inside a word of
  the average; any other it takes for a shorter frame, cursor included
  (`SpectrumFrame.TruncatedReply`).
- The client's `lastSeq = 0` on a pipeline restart (web/src/analysis.ts:543-544)
  is overwritten at the end of the same call, so the new run's early rows are
  skipped (`WaterfallCursor.RestartSkips`); the whole run is drawn exactly under the
  condition of `WaterfallCursor.WholeRunDrawn`.
- A cancelled upstream fetch never frees its address: nobody fetches it again
  (`FlightLookup.CancelledNeverFetchedAgain`).
- `unarmor_char` accepts eight characters that `armor_value` never produces
  (`Armor.CharsAccepted`).

## Model

| member | source | states |
|---|---|---|
| Octets.PackInPlace | server/src/aprs/demod.rs:357-362 | setting a bit per true data bit rebuilds exactly the octets whose wire bits were given |
| Octets.PackBits | server/src/ais/demod.rs:323-328 | packing the wire bits of any octets returns those octets |
| Fcs.ComputeTrailer | server/src/aprs/tx.rs:62-73 | the two octets appended are the complemented register, low octet first |
| Fcs.CheckFcs | server/src/ais/message.rs:130-142 | accepts exactly three or more octets that leave the register at 0xF0B8 |
| Fcs.RegisterFeeds | server/src/ais/message.rs:134-140 | the octet-wise loop equals a bit-serial register fed the wire bits |
| Fcs.FcsSound | server/src/aprs/tx.rs:62-73 | every nonempty body with its trailer passes the check |
| Fcs.GoodTogether | server/src/ais/message.rs:130-142 | a changed string passes if and only if the register, from zero, returns to zero on the difference |
| Fcs.DetectsOddFlips | server/src/ais/message.rs:130-142 | any odd number of inverted bits, anywhere, is rejected |
| Fcs.DetectsBursts | server/src/ais/message.rs:130-142 | any change confined to sixteen consecutive wire bits is rejected |
| FcsOrder.Order | server/src/ais/message.rs:134-140 | a power of x modulo the generator is one if and only if 32767 divides the exponent |
| FcsOrder.DetectsDoubleFlips | server/src/ais/message.rs:130-142 | two inverted wire bits pass if and only if they are a multiple of 32767 bits apart, so never in a frame |
| LineCode.Modulate | server/src/aprs/tx.rs:61-116 | steps 1 to 3 give NRZI of lead flags, stuffed frame with FCS, five flags, from level true |
| LineCode.WireLayout | server/src/aprs/tx.rs:94-107 | the lead flags, one at least, the stuffed frame, five flags, bit by bit |
| LineCode.StuffOctets | server/src/aprs/tx.rs:75-92 | the stuffing loop over octets, low bit first, equals stuffing of the bit string |
| LineCode.EncodeNrzi | server/src/aprs/tx.rs:109-116 | a level change per zero, none per one |
| LineCode.NrziToggles | server/src/aprs/tx.rs:109-116 | at every position the level changes if and only if the bit is zero |
| LineCode.StuffFive | server/src/aprs/tx.rs:75-92 | behind any zero, five ones get a zero and the stuffing starts over; fewer ones and a zero go out as they are |
| LineCode.StuffRuns | server/src/aprs/tx.rs:75-92 | stuffed data never holds six ones in a row |
| LineCode.NoFlagInside | server/src/aprs/tx.rs:75-107 | in flag, stuffed data, flag the flag pattern occurs at the two flags and nowhere else |
| Hdlc.Hdlc.Push | server/src/aprs/demod.rs:252-289 | one symbol takes the state and the emission the step function says, with window, abort, unstuffing and seven bits stripped at a flag |
| Hdlc.FlagSyncs | server/src/aprs/demod.rs:252-289 | from every state, however corrupt, a flag leads to one and the same state |
| Hdlc.Destuffs | server/src/aprs/demod.rs:270-289 | on stuffed data the receiver collects exactly the data bits and emits nothing |
| Hdlc.BurstsReceived | server/src/aprs/demod.rs:252-289 | synchronised, it emits every frame sent, in order, and one empty frame per idle flag |
| Hdlc.SelfSynchronises | server/src/aprs/demod.rs:252-289 | from every state and line level, after two flags the emissions are exactly the frames sent, in order |
| Hdlc.Validate | server/src/aprs/demod.rs:352-368 | a frame is passed without its FCS when it has 144 to 2048 bits, whole octets and a good FCS |
| Hdlc.ValidatedFramed | server/src/aprs/demod.rs:352-368 | a framed body is passed unchanged exactly when it has 16 to 254 octets |
| Hdlc.TransmissionReceived | server/src/aprs/tx.rs:61-116 | a fresh receiver hands on exactly the body transmitted if there are two or more lead flags and 16 to 254 octets, otherwise nothing |
| Hdlc.Receive | server/src/aprs/demod.rs:340-345 | the symbol loop hands on the valid frames of the run, in order |
| AisHdlc.AisHdlc.Push | server/src/ais/demod.rs:205-253 | one symbol of the ones-counting machine |
| AisHdlc.TakeInStep | server/src/ais/demod.rs:205-253 | bit for bit the two machines stay in step and agree on a closed frame, shared flags apart |
| AisHdlc.FirstFrameAgrees | server/src/ais/demod.rs:205-253 | on every bit stream a nonempty first frame is the same for both machines |
| AisHdlc.DeframersAgree | server/src/ais/demod.rs:205-253 | on a flag-free preamble, flag, stuffed data, flag both machines emit exactly the data |
| AisHdlc.AisNeedsOddFlags | server/src/ais/demod.rs:214-248 | behind n flags the ones-counter receives the frame exactly when n is odd |
| AisHdlc.AprsNeedsOneFlag | server/src/aprs/demod.rs:252-289 | behind n flags the window machine receives the frame exactly when n is positive |
| AisHdlc.AisTakesEveryOther | server/src/ais/demod.rs:214-248 | of frames with single shared flags the ones-counter emits the first, third, fifth and so on, the window machine all |
| AisHdlc.AisBursts | server/src/ais/demod.rs:214-248 | with any numbers of idle flags it emits every second one of the frames and idle flags, counted together |
| AisLink.AisValidate | server/src/ais/demod.rs:319-336 | a frame of 40 to 1200 bits, whole octets and good FCS gives its payload |
| AisLink.AisValidatedFramed | server/src/ais/demod.rs:319-336 | a framed payload is passed unchanged exactly when it has 3 to 148 octets |
| AisLink.Receive | server/src/ais/demod.rs:307-312 | the symbol loop makes one sentence per valid frame, in order |
| AisLink.SentencesInOrder | server/src/ais/mod.rs:55-56 | sentences come in the order of their frames, one for each valid one |
| AisLink.PayloadReported | server/src/ais/mod.rs:55-56 | a payload on the air becomes exactly one sentence if it has 3 to 148 octets, none otherwise, and the sentence reads back to its bits |
| Armor.CharRoundTrip | server/src/ais/message.rs:64-83 | every six-bit value survives the alphabet, which is two ranges |
| Armor.CharsInOrder | server/src/ais/message.rs:76-83 | characters stand in the order of their values, which with the two ranges fixes the alphabet |
| Armor.SixWeights | server/src/ais/message.rs:102-115 | the first bit of a group counts 32, the last 1 |
| Armor.CharsAccepted | server/src/ais/message.rs:64-74 | the reader takes exactly 48 to 119; 88 to 95 are aliases |
| Armor.Armor | server/src/ais/message.rs:102-115 | one character per six bits, zero fill at the end, and the number of fill bits |
| Armor.ArmorInverts | server/src/ais/message.rs:102-115 | unarmoring the text gives the bits followed by the fill zeros |
| Armor.Unarmor | server/src/ais/message.rs:88-99 | fails exactly on a character outside the alphabet; otherwise the octets pack all bits but the fill |
| Armor.ArmorRoundTrip | server/src/ais/message.rs:88-115 | for every bit list the reader recovers the bits and their exact number |
| Armor.PackMsb | server/src/ais/message.rs:118-126 | the octets hold the bits high bit first, then zeros |
| Armor.PackingIsUnique | server/src/ais/message.rs:118-126 | no other octets hold those bits |
| Nmea.Aivdm | server/src/ais/nmea.rs:13-19 | the sentence of the payload's first bits, high bit first |
| Nmea.SentenceRoundTrip | server/src/ais/nmea.rs:13-19 | a reader that wants "!", a single fragment of this channel, two upper-case hexadecimal digits whose every bit is the parity of that bit over the octets between "!" and "*", and CR LF, recovers the bits; whole octets give back the payload |
| Nmea.ChecksumIsParity | server/src/ais/message.rs:145-147 | bit j of the checksum is the parity of the octets that have bit j set |
| Ax25.EncodeAddr | server/src/aprs/ax25.rs:97-108 | the buffer loop fills exactly the seven octets of the address field |
| Ax25.AddressLayout | server/src/aprs/ax25.rs:97-108 | six octets of name and padding shifted up, then reserved bits set, SSID, last bit, no repeated bit |
| Ax25.DecodeAddr | server/src/aprs/ax25.rs:16-41 | rejects what the address decoding rejects and otherwise gives callsign, last bit and H bit |
| Ax25.FieldReads | server/src/aprs/ax25.rs:16-41 | six characters in the high bits, an SSID, last and repeated bit, with anything in the reserved bits, read as the callsign written out and the two flags |
| Ax25.FieldDecodes | server/src/aprs/ax25.rs:16-41 | seven octets decode if and only if the first six are letters, digits and spaces, not all spaces |
| Ax25.SsidReads | server/src/aprs/ax25.rs:97-108 | behind the first dash up to 255 in decimal, with or without a plus, gives its four low bits; anything else gives 0 |
| Ax25.DecodedCanonical | server/src/aprs/ax25.rs:16-41 | whatever decodes is a canonical callsign |
| Ax25.EncodedFlags | server/src/aprs/ax25.rs:97-108 | the last bit is the one asked for and the H bit is clear |
| Ax25.AddressRoundTrip | server/src/aprs/ax25.rs:97-108 | an address round-trips if and only if the callsign is canonical |
| Ax25.EncodeUi | server/src/aprs/ax25.rs:111-122 | addresses with the last one marked, control and protocol octets, information |
| Ax25.UiLayout | server/src/aprs/ax25.rs:111-122 | every address at its place, only the last of source and path marked, then 0x03, 0xF0 and the information |
| Ax25.Parse | server/src/aprs/ax25.rs:46-80 | the address walk ends and equals its recursive definition |
| Ax25.WalksPath | server/src/aprs/ax25.rs:56-72 | the walk consumes exactly the encoded digipeaters and returns them in order |
| Ax25.FrameReads | server/src/aprs/ax25.rs:46-80 | a frame of any sender with at most eight digipeaters, repeated or not, reads as its addresses, a star behind those repeated, and the information; another control octet is refused |
| Ax25.UiRoundTrip | server/src/aprs/ax25.rs:46-80 | a UI frame parses back to its fields if and only if all callsigns are canonical and the path has at most eight |
| AprsData.MessageInfo | server/src/aprs/tx.rs:21-30 | upper-cased addressee padded to nine characters between colons, then the text |
| AprsData.MessageLayout | server/src/aprs/tx.rs:21-30 | octet by octet: colon, upper-case addressee and spaces to nine, colon, text |
| AprsData.MessageReads | server/src/aprs/parse.rs:276-286 | nine octets, a colon and a text read as trimmed addressee and end-trimmed text, which is also the comment; without text nothing is read |
| AprsData.MessageRoundTrip | server/src/aprs/parse.rs:276-286 | the trimmed upper-cased addressee and the end-trimmed text come back if and only if the addressee is at most nine ASCII characters and the text is not empty |
| AprsData.AngleRoundTrip | server/src/aprs/parse.rs:89-114 | a coordinate that fits its field reads back within half a hundredth of a minute, right hemisphere |
| AprsData.WideAngle | server/src/aprs/tx.rs:45-48 | a coordinate too wide for its field does not read back |
| AprsData.PositionRoundTrip | server/src/aprs/parse.rs:117-178 | a report reads back, within 1/12000 degree, with the two characters of its symbol in their order or the house, its comment, course, speed and altitude, if and only if its coordinates fit their fields and the symbol is ASCII; such a report panics if and only if an altitude in its comment is cut short |
| AprsData.ReportReads | server/src/aprs/parse.rs:49-178 | a report in decimal digits, behind "!" or "=" or behind "/" or "@" and seven octets of time, reads field by field as the numbers those digits show: degrees, minutes, hemisphere, table, code, course, speed, comment |
| AprsData.AltitudeReads | server/src/aprs/parse.rs:170-175 | six digits behind the first "/A=" are the altitude; no mark, no altitude; a cut exactly when the six are missing or end inside a character |
| AprsData.SignReads | server/src/aprs/parse.rs:93-94 | a sign before a number turns it or leaves it |
| AprsData.ExponentReads | server/src/aprs/parse.rs:93-94 | digits, "e" or "E", a sign and digits read as a number times that power of ten |
| AprsData.ScaledMeans | server/src/aprs/parse.rs:93-94 | a positive exponent multiplies, a negative one divides |
| AprsData.WordReads | server/src/aprs/parse.rs:93-94 | "inf", "infinity" and "nan" in either case read as such |
| AprsData.AngleCut | server/src/aprs/parse.rs:89-114 | a coordinate panics if and only if its degrees end inside a character, or its minutes do and the degrees are a number |
| AprsData.CompressedFirst | server/src/aprs/parse.rs:117-147 | thirteen octets or more behind a slash, a backslash, A to Z or a to j are tried as a compressed report first, no others |
| AprsData.OtherReads | server/src/aprs/parse.rs:49-81 | an empty field, a time with nothing behind it, and a position or message that does not read as one give an empty packet |
| AprsData.HandedOn | server/src/aprs/parse.rs:49-81 | every other first octet goes to the parsers not modelled |
| Utf8Text.CharacterIsUtf8 | server/src/aprs/parse.rs:84-86 | whatever the validity check takes for a character is the encoding of a code point |
| Utf8Text.Utf8IsCharacter | server/src/aprs/parse.rs:84-86 | the encoding of every code point is taken for a character |
| Utf8Text.TrimEncoded | server/src/aprs/parse.rs:176-176 | trimming takes away exactly the code points of white space around a text |
| AprsLink.FrameDelivered | server/src/aprs/mod.rs:56-72 | exactly one packet with the fields sent and their parse is recorded if and only if lead flags, length, callsigns and path are within the stated limits and the parser does not panic; if it does, nothing is recorded |
| AprsLink.Record | server/src/aprs/mod.rs:56-72 | the frames that parse are recorded in order, up to a panic |
| AprsLink.RecordedInOrder | server/src/aprs/mod.rs:56-72 | what is recorded of two lists of bodies is recorded one after the other; nothing from a panic on |
| AprsLink.CutReportUnheard | server/src/aprs/parse.rs:171-175 | a report from any place, with any ASCII symbol and the comment "/A=1", is sent and nothing is recorded of it |
| AprsLink.MessageDelivered | server/src/aprs/tx.rs:21-30 | a text message crosses encoder, modulator, deframer, validation and both parsers if and only if the listed limits hold and the addressee is at most nine ASCII characters and the text is not empty |
| AprsLink.PositionDelivered | server/src/aprs/tx.rs:35-49 | a position report crosses the same stack within half a hundredth of a minute if and only if the listed limits hold, its coordinates fit, its symbol is ASCII and no altitude is cut short |
| AprsLink.Loopback | server/src/aprs/tx.rs:158-181 | running transmitter and receiver in turn records exactly the packets the delivery theorems speak of |
| ModeS.ComputeCrc | server/src/adsb/message.rs:14-24 | the byte loop computes the CRC function |
| ModeS.HoldsStep | server/src/adsb/message.rs:18-21 | one step of the unmasked 32-bit register is one multiplication by x in 24 bits |
| ModeS.CrcIsRemainder | server/src/adsb/message.rs:14-24 | the loop computes the polynomial remainder of the frame times x^24 |
| ModeS.OrderAbove112 | server/src/adsb/message.rs:10-10 | no power of x up to 112 is 1 modulo the generator |
| ModeS.PowersDistinct | server/src/adsb/message.rs:28-39 | the powers of x that errors in a long frame leave are all different |
| ModeS.Syndromes | server/src/adsb/message.rs:28-39 | entry i of the table is the CRC of the frame with only bit i set |
| ModeS.FlippedRemainder | server/src/adsb/message.rs:43-54 | inverting bit i of any frame adds its power of x to the remainder |
| ModeS.FixSingleBit | server/src/adsb/message.rs:43-54 | the frame is changed in place as the repair function says, nothing else, and the result tells whether |
| ModeS.SingleBitRestored | server/src/adsb/message.rs:43-54 | any one inverted bit of a valid frame is found and the frame restored |
| ModeS.DoubleBitRefused | server/src/adsb/message.rs:43-54 | any two inverted bits are refused and the frame left as it was |
| ModeS.EvenErrorsNeverAltered | server/src/adsb/message.rs:43-54 | no even number of inverted bits is ever miscorrected |
| ModeS.RepairedIsValid | server/src/adsb/message.rs:43-54 | true is returned if and only if the frame left behind passes the CRC |
| Cpr.ZoneIndex | server/src/adsb/cpr.rs:45-65 | the floor expression over both fractions is the exact zone combination of the two bins |
| Cpr.FromBinsIs | server/src/adsb/cpr.rs:34-73 | the decoded coordinate is the bin in degrees up to whole turns |
| Cpr.GlobalDecodes | server/src/adsb/cpr.rs:34-73 | for every position, zone function and latest frame: refused exactly when the recovered latitudes have different zone numbers, otherwise within half of one 131072nd of a zone, of 6 or 360/59 degrees in latitude and modulo a turn in longitude |
| Cpr.EncodedFits | server/src/adsb/cpr.rs:34-43 | both numbers of an encoded position fit in 17 bits |
| Cpr.GlobalRefuses | server/src/adsb/cpr.rs:45-59 | for any two frames, related or not: refused exactly when a latitude of the zone index lies beyond a pole or the two differ in zones; a fix is on the globe |
| Cpr.JunzisExample | server/src/adsb/cpr.rs:110-128 | the published pair of frames decodes to 52.2572, 3.91937 globally and locally |
| Cpr.NearestUnique | server/src/adsb/cpr.rs:76-91 | no other point with the same fraction lies within half a zone of the reference |
| Cpr.LocalIsNearest | server/src/adsb/cpr.rs:76-91 | the point of zones j and m with the fractions over 131072 is the result if and only if it is within half a zone of the reference in both coordinates |
| Cpr.LocalAgreesWithGlobal | server/src/adsb/cpr.rs:61-91 | local and global decoding agree if and only if the reference is within half a zone of the fix in both coordinates |
| Beast.PushEscaped | server/src/adsb/beast.rs:36-43 | appends the bytes with every 0x1a doubled |
| Beast.MessageLayout | server/src/adsb/beast.rs:13-43 | 0x1A, the type by frame length, then clock, level and frame with every 0x1A doubled; nothing for another length |
| Beast.StampBytes | server/src/adsb/beast.rs:25-26 | six bytes, highest first, of the clock modulo 2^48 |
| Beast.Encode | server/src/adsb/beast.rs:13-34 | one message with the level of the amplitude and 48 bits of the clock, or nothing for another frame length |
| Beast.Level | server/src/adsb/beast.rs:28-29 | 255 times the amplitude cut to a whole number, held between 1 and 255 |
| Beast.TakeInverts | server/src/adsb/beast.rs:36-43 | undoing the doubling over a known count recovers the bytes and finds their end |
| Beast.StreamReads | server/src/adsb/beast.rs:13-43 | reading concatenated messages recovers every type, 48-bit timestamp, level and frame, in order |
| Beast.StreamsDiffer | server/src/adsb/beast.rs:13-43 | two message lists have the same stream if and only if they are equal |
| Apt.FindSync | server/src/apt/demod.rs:244-260 | the first offset of the best score in the search range, and that score over the noise floor of the segment searched |
| Apt.CorrAt | server/src/apt/demod.rs:213-221 | the absolute correlation of the mean-free segment with the square wave |
| Apt.MeasureNoise | server/src/apt/demod.rs:254-258 | root of the variance times root of the sync length, at least one millionth |
| Apt.SyncScores | server/src/apt/demod.rs:203-221 | a sync of two words high and two low around any base scores 39 - 1/39 times its amplitude |
| Apt.WaveNoise | server/src/apt/demod.rs:254-258 | the noise floor of whole periods of such a wave is the root of its squared amplitude times the root of 39, at least one millionth |
| Apt.LineSpacing | server/src/apt/demod.rs:344-391 | consecutive lines start 2080 words apart, plus or minus 24, and lie in the stream |
| Apt.AsManyStarts | server/src/apt/demod.rs:344-391 | one line for each start |
| Apt.LinesShow | server/src/apt/demod.rs:344-391 | line i starts at the first best correlation of its search, its pictures are words 86 and 1126 onward, pixel by pixel black at the lower level, white at the upper, the whole part of 255 times the share in between, against the levels all words so far lead to; its quality is the score over the noise of the words searched |
| Apt.TrackMeans | server/src/apt/demod.rs:364-375 | a word below or above the levels becomes the level; otherwise each moves a thousandth of the way to it; the word lies between them |
| Apt.TrackAllBounds | server/src/apt/demod.rs:364-375 | the levels stay within what they have seen and enclose the last word |
| Apt.Resumes | server/src/apt/demod.rs:344-391 | draining at any prefix and resuming gives the lines of the whole stream, and ends at the same start and levels |
| Apt.ChunkingIrrelevant | server/src/apt/demod.rs:316-342 | neither the lines nor the start and levels they leave depend on how the stream is cut |
| Apt.RetainedBound | server/src/apt/demod.rs:394-403 | after draining fewer than 4184 words are kept |
| Apt.AptDemod.Process | server/src/apt/demod.rs:316-342 | emits the next lines of the whole stream, leaves the right levels, start and a short buffer |
| Apt.AptDemod.DrainLines | server/src/apt/demod.rs:344-391 | the loop ends, stays in range and emits exactly the complete lines |
| Apt.AptDemod.FollowLevels | server/src/apt/demod.rs:364-375 | the level trackers follow the words in order |
| Apt.AptDemod.Trim | server/src/apt/demod.rs:394-403 | drops the consumed words and moves the next start, if there is one, with them |
| Apt.ProcessAll | server/src/apt/demod.rs:316-342 | from a fresh decoder, any cut of the words gives the lines, levels, expected start and kept words of draining once |
| Resampler.LinearResampler.Process | server/src/radio/dsp.rs:1024-1044 | keeps the output the interpolation of everything taken; fails exactly when the block ends on an output instant |
| Resampler.EmitBlock | server/src/radio/dsp.rs:1032-1041 | the loop over one block, including instants before its first sample |
| Resampler.ResampleAll | server/src/radio/dsp.rs:1019-1045 | any cut gives the interpolation of the whole signal, exactly when no block ends on an output instant |
| Resampler.OutputAt | server/src/radio/dsp.rs:1032-1041 | output k, an instant k steps in and a fraction f behind sample i, is 1 - f of that sample and f of the next |
| Resampler.EqualRatesLand | server/src/radio/dsp.rs:1032-1036 | at equal rates every nonempty block ends on an output instant |
| Fir.RingAdvances | server/src/radio/dsp.rs:897-904 | writing at the index and advancing keeps the ring the last samples of the stream |
| Fir.FirDecimator.Push | server/src/radio/dsp.rs:897-916 | an output exactly at the end of each group, equal to the direct convolution there |
| Fir.ImpulseResponse | server/src/radio/dsp.rs:906-914 | a single sample comes out as that sample times one tap after the other |
| Fir.FilterAdds | server/src/radio/dsp.rs:906-914 | the filter of a sum is the sum of the filters |
| Fir.FirDecimator.Accumulate | server/src/radio/dsp.rs:906-914 | walking the ring back from the newest sample is the dot product with the taps |
| Fir.FilterAll | server/src/radio/dsp.rs:897-916 | output m is the convolution at input (m + 1) * decim - 1 and none is missing |
| Fir.WindowSlides | server/src/ais/demod.rs:181-186 | adding the newest and dropping the oldest sample is the sum over the window |
| Fir.Boxcar.Push | server/src/ais/demod.rs:181-186 | the mean of the last window of the whole stream |
| Tone.SumAdvances | server/src/aprs/demod.rs:171-178 | one correlator ring and its running sum move on together |
| Tone.EnergyMeans | server/src/aprs/demod.rs:180-182 | the energy of a tone is the square of the window sum against the cosine plus that against the sine |
| Tone.PhaseIs | server/src/aprs/demod.rs:159-169 | the phase at sample n is n steps less whole turns, within one turn |
| Tone.ToneCorr.Push | server/src/aprs/demod.rs:159-183 | the root of the mark's energy less that of the space's, each by direct sums over the last window against oscillators whose phase wraps at one turn |
| SpectrumFrame.DecodeFrame | web/src/analysis.ts:85-112 | rejects, throws or returns as the buffer's length and magic say; rows only as far as they lie wholly in it |
| SpectrumFrame.FrameLayout | server/src/analysis/mod.rs:118-132 | "LWF1", then every field of the header at its offset, little-endian, the average word by word from offset 44, the rows behind it |
| Bytes.WordCounts | web/src/analysis.ts:88-101 | the first byte of a word counts 1, the next 256 and so on |
| SpectrumFrame.DecodeInvertsEncode | web/src/analysis.ts:85-112 | decoding an encoded frame gives the same frame if and only if the bin count fits 32 bits and no bins means no rows |
| SpectrumFrame.TruncatedReply | web/src/analysis.ts:85-112 | what every prefix of a frame decodes to, and exactly which prefixes throw |
| Waterfall.ShownWithinHalfStep | server/src/analysis/mod.rs:27-30 | a byte stands for a level between -150 and 10 dB, within half a step, or for the end beyond which the level lies |
| Waterfall.AverageMoves | server/src/analysis/mod.rs:81-83 | a push moves each level of the average by alpha times its distance to the new one, never past it |
| Waterfall.Spectrum.Push | server/src/analysis/mod.rs:77-90 | a row of the right length is quantised, folded into the average and appended to the history; the ring stays its last rows |
| Waterfall.Spectrum.Reset | server/src/analysis/mod.rs:62-70 | new geometry and an empty history |
| Waterfall.Spectrum.SetCenter | server/src/analysis/mod.rs:72-74 | moves the centre and nothing else |
| Waterfall.Spectrum.Encode | server/src/analysis/mod.rs:104-132 | the bytes are the frame whose rows are the newest ones past `since` that ring and cap allow |
| WaterfallCursor.AnalysisView.Ingest | web/src/analysis.ts:519-581 | takes over geometry, average and seq of a good reply and scrolls its newest rows onto the canvas, which a new geometry clears; a bad reply changes nothing |
| WaterfallCursor.ReplyShown | web/src/analysis.ts:519-581 | of any good frame the view takes over seq, geometry and average and draws the newest 1024 rows, below those on the canvas if bins and span stay |
| WaterfallCursor.ShortReplyIgnored | web/src/analysis.ts:85-88 | a reply shorter than a header changes nothing |
| WaterfallCursor.PollShows | server/src/analysis/mod.rs:104-132 | after one undisturbed poll the view has the geometry, average and row count of the server; the bytes carry -150.0 and 10.0 |
| WaterfallCursor.Drive | web/src/analysis.ts:505-581 | spectrum and view, driven by any events, behave as the runs the theorems are about |
| WaterfallCursor.SentExactly | server/src/analysis/mod.rs:106-114 | a row is sent if and only if some delivered reply covers it |
| WaterfallCursor.SentInOrder | server/src/analysis/mod.rs:106-114 | no row is sent twice or out of order |
| WaterfallCursor.NothingLost | server/src/analysis/mod.rs:106-114 | the replies carried every row up to the last if and only if none is too far behind the one before and the first started from zero or found no rows |
| WaterfallCursor.DrawnExactly | web/src/analysis.ts:505-581 | in every interleaving from a reset, lost replies included, the rows drawn are in order, without repeats, exactly those past the cursor and within ring and cap of a delivered reply, and the canvas shows the newest |
| WaterfallCursor.WholeRunDrawn | web/src/analysis.ts:505-581 | whatever cursor the client brings, it has drawn every row up to its last reply if and only if the delivered replies are gapless |
| WaterfallCursor.RestartSkips | web/src/analysis.ts:543-580 | with a cursor left from an earlier run, rows below it and below the first reply are never drawn |
| FlightLookup.Shared.Cached | server/src/flight/mod.rs:165-169 | a hit is unexpired and for the same callsign |
| FlightLookup.Shared.Claim | server/src/flight/mod.rs:137-141 | the first caller gets the claim, the others do not |
| FlightLookup.Shared.Store | server/src/flight/mod.rs:146-161 | the entry with its time to live, after a flush when the cache is full |
| FlightLookup.StoredMeans | server/src/flight/mod.rs:146-161 | 4096 entries are emptied before the new one, fewer all stay; 30 s, a day or an hour by kind |
| FlightLookup.Shared.Lookup | server/src/flight/mod.rs:124-163 | one undisturbed lookup: which answer, what the cache holds, and that the claim is given back |
| FlightLookup.Fetch | server/src/flight/mod.rs:171-215 | the record filled step by step is the function of the two replies |
| FlightLookup.AnswerShows | server/src/flight/mod.rs:171-215 | field by field from the two replies: each aircraft field, the airline and each field of origin and of destination is its own upstream text trimmed, none if empty or "unknown"; a route if and only if a callsign was given and both ends came; offline if and only if nothing is known and the aircraft request failed |
| FlightLookup.SameKey | server/src/flight/mod.rs:128-131 | two lookups share cache and claim if and only if addresses and trimmed callsigns differ at most in case |
| FlightLookup.AnswerMeans | server/src/flight/mod.rs:171-215 | every answer: available if and only if registration, type or route is known; offline only when nothing is known; no route without a callsign; all text trimmed and meaningful |
| FlightLookup.RunSafe | server/src/flight/mod.rs:124-169 | every interleaving keeps claims exclusive, the cache bounded and every answer accounted for |
| FlightLookup.OneFetchPerAddress | server/src/flight/mod.rs:137-161 | at most one outstanding fetch per address; in flight are exactly those being fetched and those cancelled; at most 4096 entries |
| FlightLookup.InFlightIsFetching | server/src/flight/mod.rs:137-144 | without cancellation the in-flight set is exactly the addresses being fetched |
| FlightLookup.AnswersSound | server/src/flight/mod.rs:146-169 | a cached answer is unexpired by its own kind and was fetched for the caller's address and callsign |
| FlightLookup.CachedUntilExpiry | server/src/flight/mod.rs:146-169 | in every run the cache answers a lookup if and only if it has an entry for its address and callsign younger than 30 s after a network failure, a day with a route, an hour otherwise |
| FlightLookup.CancelledNeverFetchedAgain | server/src/flight/mod.rs:139-144 | after a cancelled fetch nobody fetches that address again, whatever happens; a lookup the cache cannot answer is "pending" |

## Left out

- Audio and radio front ends (AFSK tones, FM, NCO, discriminators, biquads, symbol clocks, squelch, FFT, AGC): the links are entered at symbol levels.
- Rounding: filters, running sums, the resampler, APT levels, spectrum levels, CPR, coordinates and parsed numbers are exact reals where the source has f32 or f64; no claim is made about accumulated error, overflow to infinity or NaN samples.
- Fir.FirDecimator.Push: the design of the taps is not modelled; they are any nonempty list.
- Tone.ToneCorr.Push: sine, cosine, square root and the length of a turn are any functions and any number.
- Resampler.ResampleAll: rates are positive, as at every call in the source.
- Apt.AptDemod.Process: words arrive already demodulated; the square root is any function.
- Cpr.GlobalDecodes: the transcendental body of `nl` is any function to 1..59; latitude lies in -90 to 90, as on the globe.
- AprsData.PositionRoundTrip: degrees beyond the range of u32, which the source prints as its largest value, are printed in full; they are refused either way.
- AprsLink.FrameDelivered: MIC-E, compressed positions, status texts and unknown kinds have no encoder in the repository; their parsers, which do not panic, are parameters. The tracker and the feed behind a recorded packet are left out.
- AisHdlc.DeframersAgree: one frame behind one flag. What the machines do behind several flags and between shared ones is stated by the lemmas on flag counts and bursts.
- Nmea.SentenceRoundTrip: the channel holds no comma and no star; the source passes the letters A and B.
- Beast.Encode: the power of ten of the signal strength is an input.
- Waterfall.Spectrum.Push: the row counter does not overflow 64 bits.
- SpectrumFrame.DecodeFrame: the client's 53-bit precision for seq is not modelled; numbers are exact.
- WaterfallCursor.AnalysisView.Ingest: the colours of the pixels, max-hold and the row-rate estimate are left out; whether two spans differ by more than a hertz is any test.
- WaterfallCursor.DrawnExactly: starts with no reply in flight; a reply left over from an earlier run only sets the cursor the theorem already allows to be anything, and its rows belong to that run.
- FlightLookup.Shared.Lookup: HTTP and JSON are left out, the two parsed replies are inputs; a poisoned lock is not modelled.
- FlightLookup.RunSafe: time is one clock in seconds that never runs backwards.
- ADS-B and AIS message fields, tracks, sessions, catalogs, port layout and configuration: they would add only easy members.
- DCS lock, ADS-B block splitting and WAV recording.
- TCP feeds, HTTP handlers, WebRTC, TLS, mDNS and the rest of the browser client: input and output.
