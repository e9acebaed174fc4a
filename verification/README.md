# Moonlight-PSP: a verified model of its bit, stream and audio cores

The PSP streaming client carries small hand-written cores in C that must be exactly right: rewriting H.264
parameter sets, turning Annex B access units into length-prefixed ones, decoding CAVLC levels through a
lookup table, moving PCM between two threads without a lock, and repairing lost audio packets. This project
models those cores in Dafny and proves what they are for.

| files | component |
|---|---|
| `Bits`, `Syntax` | bit strings, Exp-Golomb codes (section 9.1 of ITU-T H.264), and field walks driven by a syntax table, with one pair of print/parse theorems for all tables |
| `Emulation`, `BitReader`, `SpsFormat`, `SpsRecord` | emulation prevention, the bit cursor, and the SPS inspection, over bits and over the fields they spell |
| `Rewrite`, `SpsFixup` | lowering `max_num_ref_frames` to 1 |
| `HighMain`, `Normalize`, `Divergence` | turning a High SPS into a Main one, and the input where that goes wrong |
| `FixupRecord` | both rewrites by fields |
| `Pps`, `BitWriter`, `Synthetic` | PPS validation, the bit writer and the synthetic parameter sets |
| `AnnexB`, `Packetizer`, `StreamInput`, `FrameSlots` | the access-unit pipeline |
| `CachedReader`, `Levels`, `LevelCoding` | the 32-bit cached reader, the level decoder (section 9.2.2), and the encoder it inverts |
| `AudioUnits`, `Ring`, `Waiting`, `Staging`, `Clock` | the audio thread's ring, staging buffer and clocks |
| `ReedSolomon`, `Gf256`, `Powers`, `GfTables` | the parity code: its elimination over any field of bytes, the field GF(256) of the audio stream, and the tables that compute it |
| `Fec`, `FecRecovery`, `FecWindow`, `FecSilence` | the parity cache: what it recovers, how long it remembers and what a long silence does to it |
| `Qpel` | quarter-sample motion compensation (section 8.4.2.2.1) |

Code that changes state step by step is modelled by classes and methods with loops; each method is tied
to a specification on values (a bit string, a list of values, a queue), and the theorems are lemmas about
that specification. The two-thread parts (`Ring`, `Clock`) are machines whose steps interleave freely.
Time, the dialog flag, packets and the play thread's schedule are inputs. Integer widths are written out
wherever the code relies on them.

## Findings

- The ring's 32-bit counters are reduced modulo 96, and 2^32 is not a multiple of 96. Any depth up to 96
  is right for fewer than 2^32 pushes (`Ring.RingSafe`); for ever, exactly the depths up to 64 are
  (`Ring.SafeDepths`), and the code uses 96. At 93.75 chunks a second the wrap takes about 530 days.
- A High SPS that is cut short can be converted and accepted, because re-padding supplies bits its syntax
  lacks (`Divergence.AcceptedWithoutAgreement`). The converted SPS agrees with its source exactly when the
  High parse of the source finishes (`Normalize.AgreesIffFinished`).
- Audio sequence numbers are 16 bits wide and a block is known only by its number. A packet whose number is
  65536 ahead joins an old block that is still cached: it is dropped, and its recovery hands out the old
  payload (`FecRecovery.StalePayload`). A recovered payload is the lost one, whatever the packets carried,
  exactly when four shards are cached and every packet it is read from belongs to its own group
  (`FecRecovery.RecoveryExact`). An old block is gone once eight other groups have been used since
  (`FecWindow.Forgotten`), as long as the times compared lie less than 2^31 microseconds apart.
- After a silence of 2^31 to 2^32 microseconds (36 to 72 minutes; modulo 2^32) the comparison of times calls
  the newest block the oldest, and it is the one replaced (`FecSilence.NewestIsVictim`). The first packet
  after it rightly takes the oldest block; from then on, within that range, the seven other old blocks outlive any
  number of groups (`FecSilence.OldOutliveAll`) and each group is lost as soon as a packet of another one
  arrives (`FecSilence.LostToTheNext`). `FecSilence.FourLost` is such a run from an empty cache: all four
  data packets of a group arrive and none of its payloads can be had.
- A cached audio payload is handed out only when four of its group's six shards are cached, even if the
  payload itself is (`FecRecovery.CachedButWithheld`).
- `audio_stage_append_and_flush` can return -2 although there is room when it returns
  (`Waiting.RefusedThoughItFits`): exactly when the 25th flush is the first to make room and ends on a full
  ring (`Waiting.RefusedWithRoom`).
- Comments and code disagree twice, and the model follows the code: the ring has 96 slots where its comment
  reckons with 64, and the queue is trimmed every 256 chunks where the comment says at each correction (128).

## Model

| member | source | states |
|---|---|---|
| Syntax.ReadCode | src/avc_sps_fixup.c:16-23 | reading a written u(n), ue(v) or se(v) codeword gives its value back and consumes just that codeword |
| Syntax.CodeRead | src/avc_sps_fixup.c:16-23 | whatever a read consumed is the one codeword of the value it returned |
| Syntax.WalkPrint | src/avc_stream_format.c:35-57 | for any syntax table, fields printed along it are walked back value for value |
| Syntax.PrintWalk | src/avc_stream_format.c:35-57 | a walk accounts for every bit: printed values, then the rest, and it stops only for cause |
| Syntax.WalkStarved | src/avc_stream_format.c:4-17 | a proper prefix of a printed form starves the walk before its last value |
| Emulation.UnescapeEscape | src/avc_sps_fixup.c:90-110 | unescaping what the NAL writer escaped gives the RBSP back, for every RBSP |
| Emulation.EscapeUnescape | src/avc_sps_fixup.c:38-60 | escaping an accepted payload's RBSP gives the same payload back |
| Emulation.AcceptsWellEscaped | src/avc_sps_fixup.c:45-56 | a payload is accepted if and only if every 00 00 is followed by a byte above 3, by 03 and a byte of at most 3, or ends the payload |
| Emulation.EscapeSafe | src/avc_sps_fixup.c:90-110 | no 00 00 followed by a byte below 3 is ever written, and n bytes grow by at most n/2 |
| Emulation.RemoveEpbAgrees | legacy/sw_cavlc.c:220-236 | the lenient loop computes the same RBSP as the strict ones on every payload those accept |
| Emulation.RemovesFirst | legacy/sw_cavlc.c:220-236 | on any bytes, accepted or not: nothing changes up to the first 00 00 03, of which the 03 goes, and so on behind it |
| Emulation.RemoveIntoWhole | legacy/sw_cavlc.c:220-236 | with limited room the loop gives that RBSP if and only if it fits |
| Emulation.NalRemoveEpb | legacy/sw_cavlc.c:220-236 | for any destination, what the loop writes; a pair of zeros that does not fit is dropped whole |
| BitReader.SpsBits.Unescaped | src/avc_sps_fixup.c:228-237 | the unescape loop shared by the three parsers: accepts the well-escaped payloads and loads their RBSP |
| BitReader.SpsBits.ReadUe | src/avc_sps_fixup.c:16-23 | the bit-by-bit loop reads exactly the ue(v) codewords of at most 30 zeros, and fails for good otherwise |
| BitReader.SpsBits.StopBit | src/avc_sps_fixup.c:62-73 | finds the last set bit, or reports that there is none |
| SpsFormat.StreamFormat | src/avc_stream_format.c:18-65 | returns exactly the code and format that the syntax table's walk of the NAL prescribes |
| SpsFormat.VerdictZero | src/avc_stream_format.c:35-65 | an SPS is accepted if and only if the walk finishes with values in every range the code checks |
| SpsRecord.FormatSpelt | src/avc_stream_format.c:18-65 | an SPS written field by field as section 7.3.2.1.1 has it, whatever follows, gets exactly the code and the format its fields call for |
| SpsRecord.AcceptedSpelt | src/avc_stream_format.c:18-65 | every SPS accepted is one so written, with fields in every range |
| SpsRecord.TruncatedRefused | src/avc_stream_format.c:4-17 | one that is cut short is never accepted |
| Rewrite.RefsPlace | src/avc_sps_fixup.c:238-255 | where the refs field lies in an accepted SPS: the bits before, its codeword and the bits after |
| SpsFixup.SplicedKeeps | src/avc_sps_fixup.c:262-275 | the rewrite keeps every bit before the field and every bit after it up to the stop bit, and its stop bit is where those end |
| Rewrite.LimitedFormat | src/avc_sps_fixup.c:276-297 | the rewritten SPS is accepted if and only if it is at most 1024 bytes long and its syntax fits its bits, and then parses to the same values with refs 1 |
| Rewrite.LimitedLong | src/avc_sps_fixup.c:262-286 | syntax ending by the stop bit makes the rewrite's syntax fit; the RBSP never grows |
| SpsFixup.WriteNal | src/avc_sps_fixup.c:90-110 | succeeds if and only if header and escaped RBSP fit, and then writes just those |
| SpsFixup.LimitRefs | src/avc_sps_fixup.c:215-297 | for every input: the exact code, output bytes and refs count; the final re-parse never rejects a rewrite that fits |
| SpsFixup.LimitSucceeds | src/avc_sps_fixup.c:215-297 | every accepted SPS whose syntax ends by its stop bit and whose rewrite fits is rewritten, to the same format with refs 1, and keeps every other bit up to the stop bit |
| FixupRecord.LimitSpelt | src/avc_sps_fixup.c:215-297 | by fields: a rewrite that fits spells the same fields with one reference frame, and the same bits behind them up to the stop bit |
| HighMain.ExtensionIs | src/avc_sps_fixup.c:140-151 | the extension the conversion deletes is exactly the seven bits 0101100 |
| HighMain.MainWalk | src/avc_sps_fixup.c:153-164 | deleting it leaves bits whose Main walk gives the High walk's values without the extension |
| HighMain.MainFormat | src/avc_sps_fixup.c:165-172 | the Main format is the High format with profile 77: level, id, refs, size and crop agree |
| Normalize.NormalizeMain | src/avc_sps_fixup.c:112-172 | for every input: the exact code, output bytes and conversion flag; no bit write overflows |
| Normalize.ConversionAgrees | src/avc_sps_fixup.c:112-172 | when the High parse finishes, when the converted SPS is accepted, and that it then agrees field for field |
| FixupRecord.NormalizeSpelt | src/avc_sps_fixup.c:112-172 | by fields: a High SPS that uses no High tool is converted if and only if the Main SPS of the same fields is accepted, and the result spells those fields and the same bits behind them |
| Normalize.AgreesIffFinished | src/avc_sps_fixup.c:138-172 | an accepted conversion agrees with its source if and only if the source's High parse finishes |
| Divergence.AcceptedWithoutAgreement | src/avc_sps_fixup.c:138-172 | the seven-byte SPS 67 64 00 1E AC E9 11 is converted, and the call reports success, though its High parse starves |
| Normalize.AcceptedPassesThrough | src/avc_sps_fixup.c:132-137 | an SPS the inspection accepts passes the normalisation unchanged |
| Normalize.PipelineIdempotent | src/avc_sps_fixup.c:112-297 | normalise then limit, applied to its own successful output, returns the same bytes and no conversion |
| Pps.ValidatePps | src/avc_sps_fixup.c:181-213 | accepts exactly the PPS whose fifteen fields end at the stop bit with the values a Main decoder supports, and returns its entropy mode and id |
| Pps.MainSpelt | src/avc_sps_fixup.c:181-213 | a PPS written field by field as section 7.3.2.2 has it is valid if and only if its id is at most 255, its SPS id is the expected one and it has one slice group |
| Pps.SpeltMain | src/avc_sps_fixup.c:181-213 | every valid PPS is one so written |
| BitWriter.Writer.PutUe | legacy/ffmpeg_decode.c:122-129 | appends the ue(v) codeword, cut at the buffer's end |
| BitWriter.Writer.PutSe | legacy/ffmpeg_decode.c:131-135 | appends the se(v) codeword, cut at the buffer's end |
| BitWriter.Writer.Trail | legacy/ffmpeg_decode.c:137-141 | closes with a stop bit and zeros to the next byte and returns the bytes written |
| BitWriter.WrittenReadsBack | legacy/ffmpeg_decode.c:102-141 | any legal field list, written and closed, is read back value for value, ending at the stop bit, if and only if the buffer has a bit to spare for the stop bit |
| Synthetic.SyntheticSpsParses | legacy/ffmpeg_decode.c:143-235 | the synthetic SPS is accepted and parses to Baseline, one reference and the configured size made even |
| Synthetic.SyntheticSpells | legacy/ffmpeg_decode.c:143-235 | by fields: exactly what the synthetic SPS spells, and that only a stop bit follows |
| Synthetic.LevelLowest | legacy/ffmpeg_decode.c:151-157 | the level is the lowest of the four whose frame size limit (table A-1) allows the picture |
| Synthetic.SyntheticPpsValid | legacy/ffmpeg_decode.c:143-235 | the synthetic PPS is a valid Main PPS with CAVLC |
| Synthetic.SyntheticPpsSpells | legacy/ffmpeg_decode.c:199-228 | by fields: exactly what the synthetic PPS spells |
| Synthetic.GenerateSynthetic | legacy/ffmpeg_decode.c:143-235 | writes start code, SPS, start code, PPS without needing an emulation-prevention byte |
| AnnexB.SplitPrint | src/avc_packetizer.c:3-30 | NAL units printed with any mix of start codes, leading and trailing zeros are split back |
| AnnexB.PrintSplit | src/avc_packetizer.c:9-30 | conversely, any stream split is such a print of the units found |
| Packetizer.Packetize | src/avc_packetizer.c:9-43 | the loops compute the fold over the split, and the bytes written are the unit returned |
| Packetizer.KnownTypes | src/avc_packetizer.c:27-38 | which first bytes are passed, and which are slices, by forbidden bit, reference idc and type |
| Packetizer.FoldStops | src/avc_packetizer.c:26-38 | the error code is that of the first unit not passed after those before it: -3, -4 or -5 |
| Packetizer.UnframeFramed | src/avc_packetizer.c:31-36 | length-prefixed units split back to the units |
| Packetizer.PacketizePrinted | src/avc_packetizer.c:3-43 | on a printed stream, success if and only if all units are known, the slices fit and IDR and non-IDR are not mixed; then the slices come out in order and SPS/PPS are the last printed |
| Packetizer.PacketizeOnlyPrinted | src/avc_packetizer.c:3-43 | whatever packetizes is a printed stream of well-formed units |
| StreamInput.AvcStreamInput.Prepare | src/avc_stream_input.c:12-41 | one call is one step of the gate, on values |
| StreamInput.PrepareExactly | src/avc_stream_input.c:7-41 | the exact code of every call; a unit is refused as a change if and only if a set it carries differs in length or in a byte from the cached one, and otherwise READY if and only if it has slices, both sets are known and it is IDR or no IDR is needed |
| StreamInput.PrepareLeaves | src/avc_stream_input.c:12-41 | what every call caches, asks for and hands out |
| StreamInput.RepeatedIsReady | src/avc_stream_input.c:7-41 | in every run a READY unit sent again is READY again, with the same slices and sets |
| StreamInput.ReadyKind | src/avc_stream_input.c:12-41 | a READY unit is IDR or predictive, never both, and IDR when one is needed |
| StreamInput.PredictiveFollowsIdr | src/avc_stream_input.c:25-41 | in every run a predictive READY has an earlier IDR READY with only READY or PARAMETERS between |
| StreamInput.CacheForever | src/avc_stream_input.c:21-31 | in every run, once cached, SPS and PPS bytes never change |
| StreamInput.RejectedCachesNothing | src/avc_stream_input.c:16-25 | a rejected unit caches nothing and asks for an IDR |
| StreamInput.ReadyParameters | src/avc_stream_input.c:26-41 | a READY unit carries the cached parameter sets |
| FrameSlots.AvcFrameSlots.Reserve | src/avc_frame_slots.c:6-14 | one call is one step of the ownership machine |
| FrameSlots.AvcFrameSlots.Publish | src/avc_frame_slots.c:15-35 | one call is one step of the ownership machine |
| FrameSlots.AvcFrameSlots.Take | src/avc_frame_slots.c:36-44 | one call is one step of the ownership machine |
| FrameSlots.ApplySound | src/avc_frame_slots.c:6-48 | every call keeps at most one queued slot, the recorded one; a failed call changes nothing |
| FrameSlots.ReserveDoes | src/avc_frame_slots.c:6-14 | the three lowest free slots become writing, no other slot changes |
| FrameSlots.PublishDoes | src/avc_frame_slots.c:15-35 | when a publication succeeds, and what becomes of each slot: the last picture's is queued with its id and time, its other two and the one queued before are free, no other changes |
| FrameSlots.TakeDoes | src/avc_frame_slots.c:36-44 | succeeds if and only if a slot is queued; that one is held, no other changes |
| FrameSlots.ReleaseDoes | src/avc_frame_slots.c:45-48 | succeeds if and only if the slot is held; that one is free, no other changes |
| FrameSlots.ReserveHandsOutFree | src/avc_frame_slots.c:6-14 | a reservation hands out three different free slots |
| FrameSlots.ReserveSucceeds | src/avc_frame_slots.c:6-14 | it succeeds if and only if three are free, hence whenever none is written and at most two are held |
| FrameSlots.HeldUntilReleased | src/avc_frame_slots.c:36-48 | in every run a held slot stays held, and is not handed out, until it is released |
| FrameSlots.WritingUntilPublished | src/avc_frame_slots.c:6-35 | in every run a slot being written stays so, and is not handed out, until it is published |
| FrameSlots.TakeIsNewest | src/avc_frame_slots.c:15-44 | in every run a take returns the slot, the id and the time of the newest picture published, not yet taken |
| FrameSlots.TakenIdsIncrease | src/avc_frame_slots.c:15-44 | in every run, increasing published ids give strictly increasing taken ids |
| CachedReader.SwBitstream.Refill | legacy/sw_cavlc.c:48-55 | the remaining bit string is untouched, and the cache then holds 25 bits or all there are |
| CachedReader.SwBitstream.Read1 | legacy/sw_cavlc.c:84-94 | the next bit of the plain cursor; 0 at the end |
| CachedReader.SwBitstream.Read | legacy/sw_cavlc.c:97-128 | the next n bits, up to 31, or as many as there are, through the fast and the straddling path |
| CachedReader.SwBitstream.ReadUe | legacy/sw_cavlc.c:131-166 | every codeword in the buffer with at most 30 zeros is read as the plain cursor reads it, through the fast, straddling and slow path |
| CachedReader.SwBitstream.ReadSe | legacy/sw_cavlc.c:169-177 | the same for se(v) |
| CachedReader.SwBitstream.Show | legacy/sw_cavlc.c:737-741 | the next n bits, zeros past the end, none consumed |
| CachedReader.SwBitstream.LevelPrefix | legacy/sw_cavlc.c:753-768 | the zeros before the next one, both consumed; 25 for a run too long to see |
| Levels.AvLog2 | legacy/sw_cavlc.c:696-705 | the position of the highest set bit of any 32-bit number |
| Levels.InitLevelTab | legacy/sw_cavlc.c:709-734 | every entry says what its eight bits say under section 9.2.2.1: the level, or only its prefix |
| Levels.DecodeFirst | legacy/sw_cavlc.c:788-837 | the first coded level and the suffixLength after it, through the shortcut and the escape paths |
| Levels.DecodeNext | legacy/sw_cavlc.c:844-868 | each later level, through the table and the escape paths |
| Levels.Update | legacy/sw_cavlc.c:840-876 | the limits 3, 6, 12, 24, 48 give the standard's next suffixLength |
| Levels.LevelDecoder.DecodeLevels | legacy/sw_cavlc.c:771-881 | wherever section 9.2.2 finds levels: the same levels as 16-bit numbers and the same bits consumed; -1 at a prefix of more than 28 zeros |
| Levels.SpecLevelsFit | legacy/sw_cavlc.c:771-881 | with prefixes of at most 15 no level is cut by the 16-bit cast |
| LevelCoding.SpecEncoded | legacy/sw_cavlc.c:771-881 | levels encoded from their signs and magnitudes, followed by any bits, are read as those levels and those bits |
| LevelCoding.SpecOnlyEncoded | legacy/sw_cavlc.c:771-881 | whatever is read as levels is their encoding |
| LevelCoding.RefusedExactly | legacy/sw_cavlc.c:818-823 | a block is refused if and only if more than 28 zeros stand where, after encoded levels, another is due |
| Ring.RingSafe | src/audio_thread.c:905-948 | over every interleaving of fewer than 2^32 pushes and any pops: popped chunks are the pushed ones in order, and the two sides never copy in one slot |
| Ring.SafeDepths | src/audio_thread.c:905-948 | the same holds over runs of any length if and only if the depth is at most 64 |
| Ring.WrapBreaks | include/audio_thread.h:74-84 | for every greater depth, a run across the wrap in which the pop numbered 2^32 - 64 gets the chunk pushed 64 later, another one |
| Staging.AudioRing.Push | src/audio_thread.c:919-934 | queues the chunk unless the ring is full; no queued chunk is touched |
| Staging.AudioRing.Pop | src/audio_thread.c:937-948 | hands out the oldest chunk, sample for sample |
| Staging.AudioStage.Flush | src/audio_thread.c:950-966 | under any schedule of the play thread nothing accepted is lost or reordered, and stage and ring fill as `Waiting.Flushed` says: 0 means less than a chunk is left, -1 a full ring |
| Staging.AudioStage.AppendAndFlush | src/audio_thread.c:968-993 | played, queued and staged samples are always the concatenation of the accepted appends; -1 and -2 add nothing, 0 and 1 add everything; code and levels are those of `Waiting.Append`, and the wait loop ends |
| Waiting.RefusedExactly | src/audio_thread.c:976-985 | under any schedule, -2 if and only if the samples do not fit, none of the first 24 flushes makes room, and the 25th makes none or ends on a full ring |
| Waiting.AppendCodes | src/audio_thread.c:968-993 | -1 if and only if the length is out of range, and what 0 and 1 say of stage and ring |
| Waiting.RefusedWithRoom | src/audio_thread.c:976-985 | -2 with room to spare if and only if the 25th flush is the first to make room and it ends on a full ring |
| Waiting.RefusedThoughItFits | src/audio_thread.c:968-993 | seven appends from an empty stage, the last refused with -2 although it fits |
| Clock.ClockAtTop | src/audio_thread.c:1108-1254 | at every top of the play loop, under every interleaving, the clock is 512 per chunk played, trimmed or drained, modulo 2^32 |
| Clock.DriftMeaning | src/audio_thread.c:2055-2106 | the drift error is always RTP samples since the last anchor less samples consumed since it |
| Clock.AnchorExactly | src/audio_thread.c:2055-2105 | the first packet and one that resumes an idle source anchor anew with a drift error of exactly zero; no other packet moves the anchor |
| Clock.TrimsThenPlays | src/audio_thread.c:1156-1216 | in every run a trim is followed by a played chunk: it never empties the ring |
| Clock.QueueConserved | src/audio_thread.c:1108-1254 | in every run each chunk pushed is still queued or was popped once |
| Clock.ClockDetected | src/audio_thread.c:2080-2098 | time stamps of 1 kHz and of 48 kHz are told apart for every packet of 5 to 60 ms, and count the same samples |
| Clock.DetectedExactly | src/audio_thread.c:2080-2098 | exactly which steps are taken for milliseconds, which for samples |
| Clock.ScaleForever | src/audio_thread.c:2080-2098 | in every run a clock once detected stays |
| Clock.SyncExactly | src/audio_thread.c:1124-1140 | the drift is looked at every 128th round, with a known clock and a source that is not idle |
| Clock.CorrectExactly | src/audio_thread.c:1156-1192 | exactly when a chunk is trimmed and when the last one is repeated |
| Clock.EmptyExactly | src/audio_thread.c:1221-1254 | what is played when there is no chunk |
| Clock.FadesAtMostTwelve | src/audio_thread.c:1221-1224 | in every run at most twelve faded repeats follow one another |
| Gf256.MulMul | src/rs.c:53-55 | polynomial multiplication modulo the code's polynomial is associative (with `MulSwap`, `OneMul` and `MulAdd`: a commutative ring) |
| Powers.LogOf | src/rs.c:171-192 | an element whose 255th power is one, and whose 15th, 51st and 85th are not, has every nonzero byte among its powers |
| GfTables.GenerateGf | src/rs.c:171-225 | the loops fill `gf_exp` with the powers of x up to the 509th, `gf_log` with their logarithms and `inverse` with the inverse of every nonzero byte |
| GfTables.InitMulTable | src/rs.c:158-166 | every entry of the product table is the product of its row and its column, zeros included |
| GfTables.BuildTables | src/rs.c:158-225 | the tables hold the GF(256) product of every pair of bytes and the inverse of every nonzero byte, which is the one the elimination is modelled with |
| Gf256.AudioPivots | src/rs.c:474-519 | with the audio parity matrix no first or second pivot is zero, so the elimination never gives up |
| Gf256.AudioLawful | src/audio_thread.c:545-551 | the audio stream's field and matrix meet every law that the theorems on recovery ask of a code |
| Gf256.AudioMatrix | src/audio_thread.c:545-551 | the matrix is the eight bytes the audio thread installs |
| ReedSolomon.SolveIs | src/rs.c:474-561 | in any lawful code, from any four of six bytes of a codeword the elimination gives back every missing data byte |
| ReedSolomon.ReconstructIs | src/rs.c:624-671 | the same for whole shards, reading only the data there is and one parity shard for each gap |
| ReedSolomon.Unnoticed | src/audio_thread.c:545-551 | if any shard read is not known, the known ones leave the missing byte open |
| Fec.FecCache.GetBlock | src/audio_thread.c:371-427 | finds, drops or reuses blocks as the specification says |
| Fec.AcquiredExactly | src/audio_thread.c:381-383 | a block is had for payloads of 1 to 1400 bytes and no others |
| Fec.FecCache.CacheData | src/audio_thread.c:429-461 | one data packet is one step of the specification, its number cut to 16 bits |
| Fec.DataArrival | src/audio_thread.c:429-461 | the key, place and time stamp a data packet is cached under |
| Fec.PrintedArrival | src/audio_thread.c:463-500 | a parity header printed big-endian from index, base, time stamp and source is taken in with exactly those |
| Fec.ArrivalPrinted | src/audio_thread.c:463-500 | whatever header is taken in is so printed |
| Fec.MalformedExactly | src/audio_thread.c:473-488 | which headers are dropped |
| Fec.FecCache.RecoverPayload | src/audio_thread.c:571-630 | one recovery is one step of the specification |
| Fec.FecCache.Complete | src/audio_thread.c:502-569 | counts the shards and fills exactly the missing data shards |
| Fec.RunSound | src/audio_thread.c:371-630 | in every run there is at most one valid block per base sequence |
| Fec.EarlierExact | src/audio_thread.c:405-405 | exactly when the 32-bit comparison calls a last use earlier: when it is less than 2^31 microseconds before, modulo 2^32 |
| Fec.LeastRecentlyUsed | src/audio_thread.c:399-427 | a new block takes the first free one, else the least recently used while times span under 2^31, and touches no other |
| Fec.WriteOnce | src/audio_thread.c:429-500 | a shard present is never rewritten while its block stands for the same packets |
| FecRecovery.RunGenuine | src/audio_thread.c:429-569 | in every run of packets with the headers and shards of their groups, of any length, each shard present is byte for byte the packet, or the reconstruction from the packets, that it records |
| FecRecovery.RecoverIs | src/audio_thread.c:571-630 | recovery hands out a payload if and only if a block of the number holds four shards, and which packets it is made of |
| FecRecovery.RecoveryExact | src/audio_thread.c:353-630 | for any schedule of packets and recoveries: whatever the packets carried, the payload is the lost one if and only if four shards are cached and every packet read belongs to the lost one's full group number |
| FecRecovery.StalePayload | src/audio_thread.c:456-460 | a run across the 16-bit wrap whose recovery hands out the payload of 65536 packets before |
| FecRecovery.CachedButWithheld | src/audio_thread.c:521-526 | a run after which a cached payload is not handed out |
| FecWindow.Retained | src/audio_thread.c:371-500 | at any point of any run: while at most seven other groups are used, every shard of a group that arrived is still there and none of another group has joined it |
| FecWindow.FourSuffice | src/audio_thread.c:353-630 | so any four of its six packets, in any order and with recoveries between, give back each of its payloads byte for byte |
| FecWindow.Forgotten | src/audio_thread.c:399-427 | once eight other groups have been used since its last use, a group's block is gone |
| FecSilence.NewestIsVictim | src/audio_thread.c:399-409 | if every other block was last used 2^31 to 2^32 microseconds before one, modulo 2^32, that newest one is replaced |
| FecSilence.OldOutliveAll | src/audio_thread.c:371-427 | once one block is that much newer than the seven others, these stay through any run of packets of other groups that come while they are that old |
| FecSilence.LostToTheNext | src/audio_thread.c:399-630 | and no payload of a group can be had once a packet of another group has arrived |
| FecSilence.FourLost | src/audio_thread.c:399-630 | a run from an empty cache that loses a group all of whose data packets arrived, with one other group in use |
| Qpel.CentreEitherWay | legacy/sw_vfpu_recon.c:863-890 | the centre half sample is the same filtered in either order, as the standard allows |
| Qpel.TapInterpolates | legacy/sw_vfpu_recon.c:811-834 | the six taps give 32 times the value halfway of every cubic |
| Qpel.HalvesNearest | legacy/sw_vfpu_recon.c:811-890 | half samples are the filter sums over 32 or 1024 to the nearest sample, ties up |
| Qpel.SampleIsQuarter | legacy/sw_vfpu_recon.c:1055-1157 | the sixteen positions are those at their distance: grid samples, or rounded-up means of the two nearest ones |
| Qpel.TransposedQuarter | legacy/sw_vfpu_recon.c:1055-1157 | interpolation treats rows and columns alike |
| Qpel.UncheckedH | legacy/sw_vfpu_recon.c:811-834 | six unchecked row taps are in bounds and equal the clamped ones |
| Qpel.UncheckedV | legacy/sw_vfpu_recon.c:836-861 | six unchecked column taps are in bounds and equal the clamped ones |
| Qpel.Halfpel2d | legacy/sw_vfpu_recon.c:863-890 | the centre half sample, through both paths |
| Qpel.CopyBlock | legacy/sw_vfpu_recon.c:769-797 | the plain and the clamped copy write the same block |
| Qpel.RowSums | legacy/sw_vfpu_recon.c:942-952 | the precomputed row sums are the filter's and fit 16 bits |
| Qpel.QpelInterior | legacy/sw_vfpu_recon.c:896-1029 | at each of the 15 fractional positions the interior path writes the samples of section 8.4.2.2.1 and nothing else |
| Qpel.QpelClamped | legacy/sw_vfpu_recon.c:1055-1157 | the clamped path writes the same samples |
| Qpel.QpelBlock | legacy/sw_vfpu_recon.c:1032-1157 | for every frame, block and fraction, whichever path is taken: the standard's block, and no byte outside it changed |

## Left out

- GenerateSynthetic: covers macroblock grids of at most 30 by 17 whose last row and column hold part of the picture, the sizes the SPS inspection accepts.
- DecodeLevels: says nothing when the levels run past the end of the buffer, where the decoder reads zeros.
- ReadUe: (and ReadSe) says nothing of a value for codewords of more than 30 zeros or cut off by the buffer's end; a run of 31 makes the source shift a 32-bit word by 32.
- LevelPrefix: says only that a run of more than 24 zeros gives 25, not what is skipped.
- PutUe: covers values below 2^31 - 1, so that the code number fits its signed variables.
- AppendAndFlush: (with Push and Flush) assumes that the ring's counters do not wrap unless its depth is at most 64; the ring's depth is a parameter, which the source always sets to 96.
- ClockAtTop: assumes that the semaphore is taken; when it is not, the source skips the update.
- SolveIs: models the elimination column by column, instead of in place, and takes products and inverses from the field instead of the tables; `GfTables.BuildTables` shows that those agree.
- FourSuffice: (with Retained and Forgotten) is stated for times that span less than 2^31 microseconds, which it needs (`FecSilence.FourLost`), and for packets of one group with one source and one length.
- LeastRecentlyUsed: is stated for last uses that span less than 2^31 microseconds; beyond that the 32-bit comparison is not an order, and `FecSilence` shows what follows.
- The play loop and the packet section of the receive loop are modelled as steps on a value, not as objects updated in place, because other steps fall between theirs; the play thread in `Staging` pops between pushes, and `Ring` covers pops during a push.
- Weak memory ordering between the two audio threads: steps take effect in program order.
- Null pointers, and buffers that overlap other than `dst` and `src` of the two SPS rewrites.
- Stale bytes of a parity shard beyond the block's size, and the log and statistics counters.
- The pending-packet queue, PLC, time stretch, fading, Opus, crypto, sockets and threads of the audio thread.
- Coefficient placement, run and total-zeros tables, macroblock parsing and slice headers of the CAVLC decoder: they would add table look-ups.
- Intra prediction, inverse transforms, deblocking and colour conversion of the reconstruction.
- FFmpeg and Media Engine orchestration, pairing, control stream, video FEC, start-up, identity and user interface.
