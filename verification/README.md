# DataStreamPilot: the sensor data preparation pipeline, modelled and proved

The system measures temperatures on sensor nodes, cleans them in a moving window, sends them with a
parity bit over CoAP, and fuses the three sensors of a site on a server. This project models that
path and proves what it guarantees over every input and every run.

| file | models |
|---|---|
| `Statistics.dfy` | sums, means, squared deviations over exact reals; Chebyshev, Cauchy-Schwarz, mean shift and variance bounds for samples of any size |
| `Cleaner.dfy` | one round of the 65-slot window: which slots become 0, what is sent |
| `WindowRuns.dfy` | the window over whole runs: history, recovery, death |
| `StableRuns.dfy` | runs that never die, and the window that reaches the Chebyshev bound |
| `StepRuns.dfy` | runs with a step from t to v: exactly which end the node, and how the window fills with v otherwise |
| `SensorNode.dfy` | the node's C loops over its array, in place, and its main loop as a class |
| `Parity.dfy`, `Text.dfy` | the parity bit in C and Python, decimal text |
| `Json.dfy`, `Payload.dfy` | flat JSON objects, and the node's message: site codes, its text in the buffer, its fields as read back |
| `Fusion.dfy` | z-score fusion of three readings, the C program and the Python program |
| `Server.dfy` | the server's temperature resource as a class and over runs |
| `Pipeline.dfy` | nodes and server together, with and without a faulty sensor |
| `Framing.dfy` | the base/delta messages of the other compute engine and their decoder |
| `Blockwise.dfy` | the CoAP client's follow-up requests against section 2.4 of RFC 7959 |
| `Wrappers.dfy` | `Option` and `int16` |

## How the code is read

- `float` and `double` are exact reals; `sqrt` is a parameter `root`, any non-negative square root. A
  division of 0 by 0 is `None` (or `NaN` in Python), and a comparison with it is false.
- The test |x - mean| <= 2 stddev is kept literally in the methods and proved equal to its squared form.
- Slot arithmetic, int16 ranges and conversions towards zero are explicit; `% 2` and `/ 2` on Dafny
  integers are the low bit and the arithmetic shift.
- Noise, sensor drivers and the network are inputs: a reading is any int16, a reply may be lost.
- `hide` keeps definitions out of a proof that does not need them.

## What the proofs found

- A window whose 65 slots are 0 never recovers: each new reading is alone among 64 zeros and is
  discarded. The node ignores the result of its first read (`src/compute_engine/main.c:300-305`; its
  comment speaks of 35.0, the code starts from 0), so a node whose first read fails never sends a
  defined value (`ZeroStartNeverSends`).
- The first message after a start at t != 0 is t, whatever is read; from 0 nothing is sent (`FirstMessageIsInitial`).
- While initial temperature and readings stay in a band with 2 * hi <= 3 * lo, the window never dies:
  43 slots stay non-zero and every message is in the band (`BandRunsNeverDie`).
- A live node also dies from an ordinary step. Started at t and then reading v, its window is emptied if and only
  if one of three things holds (`StepEndsIff`). First, v is 0, the sentinel: 65 readings of 0.00 degrees end any
  node. Second, every v is discarded however many slots of t are left, which is so above about 1.655 t or below
  about -0.655 t (`LargeStepRejected`). Third, what is left of t is discarded while v has at most 11 slots: at
  t = 1000 the 46th reading of v = -654 is kept and the window is lost all the same (`KeptAndYetLost`).
  Between temperatures of one sign only the second can happen (`SameSignStepEndsIff`). Otherwise the window fills
  with v within 130 readings (`StepIsFollowed`).
- A step up by 5/3 ends the node (`FiveThirdsEnds`), so the factor 3/2 of the band is close to the largest possible.
- A value in 13 of the 65 slots is never discarded, whatever the other slots hold (`FifthIsKept`).
- 13 slots is the exact recovery threshold (`RecoveryThreshold`). At exactly 13 the test holds with
  equality, so in floating point that single case depends on rounding.
- The server accepts messages of sensors 1, 2 and 3 of Grenoble, Saclay and Strasbourg only: the table
  key is spelt `lillie`, the site is `lille` (`NodeToServer`, `MisspeltSiteStaysEmpty`).
- A parity mismatch raises a KeyError and changes nothing. `docs/COMPRESSION.md:57` and
  `docs/SENSOR.md:80` speak of interpolation instead; the model follows the code.
- `values[-1]` is slot 1 of a two-slot ring, so every other message of a sensor is never used
  (`OddMessagesAreIgnored`).
- When three readings agree, the C fusion returns them and the Python fusion is nan (`ProgramsAgree`).
- The test client's `setParity` is right for 0..65535. Above, it is right exactly when the ones above bit 15
  are even in number (`ClientParityNonNegative`). For -n < 0 it is right exactly when the trailing zeros of n
  and its ones above bit 15 are together odd in number, or, for a multiple of 65536, when those ones are
  even (`ClientParityNegative`): right for -2, wrong for -1.
- The node prints its sensor id unescaped, so its message is read as intended exactly when the id has no quote,
  backslash or control character (`PayloadReadsIff`). A payload cut by its 128-byte buffer loses its closing
  brace and is refused (`NodeMessage`); no int16 value is cut exactly when the id has at most 78 characters
  (`PayloadFits`).
- The server takes any integer as the parity bit and uses its low bit (`LowBitOfParity`).
- A proxied URI of 64 characters or more is cut in the client's buffer and then names another resource
  (`Unreached`). The client reports "blockwise complete" exactly as `ReportedStatus` says.
- Frames of `src/compute_engine copy` end in a comma, which the server's parser refuses
  (`FrameTextIsRefused`). Differences reach +127, not the +128 of `docs/COMPRESSION.md:45`.
- `docs/SENSOR.md:74` describes a plain average over 5 values; the code cleans a window of 65.

## Model

| member | source | states |
|---|---|---|
| SensorNode.CalculateStddev | src/compute_engine/main.c:183-191 | the accumulator loop returns the non-negative root of the mean squared distance from the given mean |
| SensorNode.RemoveOutliers | src/compute_engine/main.c:222-235 | cleaning in place with two indices is the element-wise map of the old contents; no slot is read after it was overwritten |
| SensorNode.CalculateAverage | src/compute_engine/main.c:237-252 | the loop returns the mean of the non-zero slots, times whose number it is their integer total, and nothing when there is none |
| SensorNode.RootTest | src/compute_engine/main.c:227-232 | comparing with twice the root cleans exactly the slots of the squared test |
| SensorNode.Node.constructor | src/compute_engine/main.c:293-305 | the start: site code looked up, every slot at the first temperature, cursor 0 |
| SensorNode.Node.CleanWindow | src/compute_engine/main.c:333-369 | mean, deviation, cleaning and the recomputed mean and deviation leave the cleaned window, its average, and the deviation that counts zero slots |
| SensorNode.Node.Sample | src/compute_engine/main.c:307-391 | one turn keeps the window equal to the replay of all readings so far and posts the text of the integer nearest to the mean of the surviving slots, which is the value that replay sends; a failed read changes no field |
| Statistics.WithinCleared | src/compute_engine/main.c:222-235 | the test on mean and deviation is (n x - sum)^2 <= f (n squares - sum^2), without a division |
| Statistics.Chebyshev | src/compute_engine/main.c:222-235 | of n samples fewer than n / f fail a test with squared threshold f |
| Statistics.SubsetMeanShift | src/compute_engine/main.c:237-252 | for any part of a sample, (m' - m)^2 (n - k) <= k variance when k samples are left out |
| Statistics.TrimmedVariance | src/compute_engine/main.c:222-252 | rejecting far samples never increases the variance and strictly lowers it if any is rejected |
| Cleaner.RejectsFewerThanAQuarter | src/compute_engine/main.c:222-235 | one round discards fewer than a quarter of the slots, at most 16 of 65 |
| Cleaner.QuarterKeepsAverage | src/compute_engine/main.c:222-252 | a quarter of non-zero slots, 17 of 65, makes the average defined |
| Cleaner.MeanShift | src/compute_engine/main.c:352-368 | with k slots at 0 after cleaning the average moved by at most sqrt(k / (n - k)) deviations |
| Cleaner.MeanShiftFourSevenths | src/compute_engine/main.c:352-368 | in a window without zeros it moved by at most 4/7 of a deviation |
| Cleaner.VarianceContracts | src/compute_engine/main.c:352-369 | in a window without zeros the survivors spread no more than before, and less if any slot was discarded |
| Cleaner.SecondDeviation | src/compute_engine/main.c:368-369 | the recomputed deviation counts m'^2 for every zeroed slot on top of the spread of the survivors |
| Cleaner.Rounded | src/compute_engine/main.c:370 | round() goes to a nearest integer, halves away from zero |
| Cleaner.SentIsNearestToMean | src/compute_engine/main.c:237-252 | with n survivors of total t, 2 (n v - t) lies within -n..n for the value v sent, halves away from zero; nothing is sent exactly when n is 0 |
| Cleaner.NearestIsUnique | src/compute_engine/main.c:370 | only one integer does |
| Cleaner.OutgoingInRange | src/compute_engine/main.c:368-370 | the rounded value lies between any bounds on the surviving slots |
| Cleaner.OutgoingIsInt16 | src/compute_engine/main.c:370 | the rounded value of an int16 window fits int16 |
| Cleaner.OrderDoesNotMatter | src/compute_engine/main.c:333-370 | the cleaned multiset and the value sent depend only on the multiset of the window |
| WindowRuns.WindowHistory | src/compute_engine/main.c:326-354 | over every run the cursor counts readings modulo 65 and a slot is 0 or the reading last stored there |
| WindowRuns.LastWrittenIsRecent | src/compute_engine/main.c:326-331 | that reading is one of the last 65, or the initial temperature if the slot was never written |
| WindowRuns.SentWithinRecent | src/compute_engine/main.c:326-373 | over every run the value sent lies between the smallest and largest of the last 65 readings |
| WindowRuns.ZeroStaysZero | src/compute_engine/main.c:222-235 | a zeroed slot stays 0 until the cursor returns |
| WindowRuns.TwoValuedWindow | src/compute_engine/main.c:222-235 | in a window of two values one of them is kept if and only if it holds a fifth of the slots |
| WindowRuns.FifthIsKept | src/compute_engine/main.c:222-235 | in any window a value that fills a fifth of the slots is kept, whatever the others hold |
| WindowRuns.LoneReadingIsDiscarded | src/compute_engine/main.c:326-368 | a reading that differs from 64 equal slots is always discarded and the common value is sent |
| WindowRuns.DeadForever | src/compute_engine/main.c:307-370 | from an all-zero window no sequence of readings leads to a defined value |
| WindowRuns.ZeroStartNeverSends | src/compute_engine/main.c:299-305 | a node that starts from 0 never sends a defined value |
| WindowRuns.FirstMessageIsInitial | src/compute_engine/main.c:299-370 | a node that starts from t sends t first, whatever it reads, and nothing if t is 0 |
| WindowRuns.RecoversWith | src/compute_engine/main.c:326-370 | from 13 slots of v on, k readings of v fill the next k slots, change no other, and are all sent as v |
| WindowRuns.RecoveryThreshold | src/compute_engine/main.c:326-370 | from a window of v and 0, one reading of v, and then every further one, is sent as v if and only if v holds 13 slots once stored |
| WindowRuns.RecoveryFills | src/compute_engine/main.c:326-370 | 65 readings of v fill the window with v if and only if v holds 13 slots once the first is stored |
| StableRuns.BandIsKept | src/compute_engine/main.c:222-235 | with 33 to 58 slots in the band and the rest 0, no slot in the band is discarded |
| StableRuns.BandRunsNeverDie | src/compute_engine/main.c:307-370 | readings in a band keep 43 slots non-zero for ever and every message defined and in the band |
| StableRuns.SixteenMayAllBeRejected | src/compute_engine/main.c:222-252 | 16 non-zero slots are not enough: all of them can be discarded in one round |
| StepRuns.TurningTests | src/compute_engine/main.c:222-235 | with a slots of v, c of t and the rest 0, v is discarded if and only if (a - 13)(a - 65) v^2 + 2 c (a - 13) v t + c (c - 52) t^2 > 0, and t by the same test with the roles exchanged |
| StepRuns.StaysKept | src/compute_engine/main.c:307-370 | once one slot of v is kept next to m >= 13 slots of t, v stays kept as slots of t turn into v |
| StepRuns.StepEndsIff | src/compute_engine/main.c:299-370 | started at t and then reading v, the window is empty at some time if and only if v is 0, no count of t lets v be kept, or the rest of t is discarded while v has at most 11 slots |
| StepRuns.StepEndsForGood | src/compute_engine/main.c:299-370 | under that condition 65 readings of v empty the window and nothing is sent whatever follows |
| StepRuns.StepIsFollowed | src/compute_engine/main.c:299-370 | otherwise from 130 readings on all slots hold v and v is sent |
| StepRuns.SameSignStepEndsIff | src/compute_engine/main.c:299-370 | for t and v of one sign the condition is that no count of t lets v be kept |
| StepRuns.ValueIsKeptIff | src/compute_engine/main.c:299-370 | a reading v != 0 of the run is kept when stored, one of the first 52, if and only if some count of t lets v be kept |
| StepRuns.KeptAndYetLost | src/compute_engine/main.c:299-370 | that is not enough: at t = 1000 the 46th reading of v = -654 is kept and the step ends the node |
| StepRuns.LargeStepRejected | src/compute_engine/main.c:222-235 | no count of t lets v be kept when 12 v^2 - 12 t v > 13 t^2 |
| StepRuns.FiveThirdsEnds | src/compute_engine/main.c:299-370 | from t > 0, 65 readings of any v >= 5/3 t end the node |
| Parity.CalculateOddParity | src/compute_engine/main.c:207-220 | 16 rounds of test and shift give the bit that makes the number of ones odd |
| Parity.CountOnes | src/server/app/coap_server.py:130-136 | the server's loop counts the ones among the 16 low bits of any integer |
| Parity.ParityCheck | src/server/app/coap_server.py:138-140 | the server's check, for any value and parity |
| Parity.DetectsOddErrors | src/server/app/coap_server.py:130-140 | whatever arrives passes exactly when an even number of the 17 bits differ from what was sent |
| Parity.UndamagedPasses | src/compute_engine/main.c:208-220 | every int16 value, negative ones included, passes with its C parity bit |
| Parity.LowBitOfParity | src/server/app/coap_server.py:138-140 | any integer is taken as the parity bit, only its low bit counts, and exactly one of the two bits passes |
| Parity.ClientParityNonNegative | src/server/app/coap_client.py:29-34 | setParity is accepted for v >= 0 if and only if the bits above the low 16 have even weight; it is the C bit below 65536 |
| Parity.ClientParityNegative | src/server/app/coap_client.py:29-34 | setParity is accepted for any v = -n < 0 if and only if trailing zeros of n plus ones of n above bit 15 are odd in number, or those ones even when n is a multiple of 65536 |
| Text.ReadingRoundTrip | src/server/app/coap_server.py:64-68 | strip, split and int read back the pair that "%d, %d" wrote, for all integers |
| Text.IntRoundTrip | src/server/app/coap_server.py:66 | int reads back what %d wrote, also after a space |
| Text.StripSpaces | src/server/app/coap_server.py:66 | strip takes off exactly the spaces around a text |
| Text.SplitJoins | src/server/app/coap_server.py:66 | split's parts hold no separator and join to the text |
| Text.ParseIntIff | src/server/app/coap_server.py:66 | int accepts exactly an optional sign and digits with single underscores between them, spaces around |
| Text.PlainDigitsPrint | src/server/app/coap_server.py:66 | digits without leading zero denote the number that prints as them |
| Text.ParseAllIff | src/server/app/coap_server.py:66 | a list of parts is read if and only if each is, to their values in order |
| Text.SpacedReading | src/server/app/coap_server.py:66 | spaces around a reading and around its numbers make no difference |
| Text.TrailingCommaIsRefused | src/server/app/coap_server.py:66 | a text that ends in a comma raises |
| Json.ObjectReads | src/server/app/coap_server.py:59 | the text of any members of plain strings reads back as those members, the last of equal keys winning |
| Json.ObjectReadsThen | src/server/app/coap_server.py:59 | followed by anything but spaces it is refused |
| Json.EncodedReads | src/server/app/coap_server.py:59 | a text reads back however its characters are escaped (section 7 of RFC 8259) |
| Json.ReadCharIsEncoded | src/server/app/coap_server.py:59 | nothing else is read as a character |
| Json.CutObjectIsRefused | src/server/app/coap_server.py:59 | no proper prefix of such a text is read |
| Json.UnescapedValue | src/server/app/coap_server.py:59 | a value printed unescaped between two members comes back, from the text or a cut of it, only if it needs no escapes |
| Payload.GetBinaryValue | src/compute_engine/main.c:69-80 | the loop returns the code of the first entry for the name, 0 if there is none |
| Payload.SiteRoundTrip | src/server/app/configuration.py:18 | the server's table names the node's site again, or UNKNOWN for a name the node's table lacks |
| Payload.Snprintf | src/compute_engine/main.c:375-383 | the buffer holds the whole text or its longest prefix that leaves room for the terminator |
| Payload.PayloadFits | src/compute_engine/main.c:375-383 | the JSON text of every int16 value fits 128 bytes if and only if the sensor id has at most 78 characters |
| Payload.PayloadReadsIff | src/compute_engine/main.c:375-383 | the node's text reads back as site code, sensor id and value with parity if and only if the id has no quote, backslash or control character |
| Payload.CutPayloadIsRefused | src/compute_engine/main.c:375-383 | with such an id, the text cut anywhere is not read |
| Fusion.FilterOutliersC | src/denoiser/main.c:14-55 | the C loops return the truncated mean of the readings not above the threshold; there always is one, and the result fits int16 |
| Fusion.KeepNear | src/denoiser/main.c:36-51 | the third loop counts and sums exactly the readings not above the threshold |
| Fusion.FilterOutliersPython | src/server/app/coap_server.py:101-128 | the Python filter returns the mean of the readings within the threshold, nan when it keeps none |
| Fusion.CExact | src/denoiser/main.c:36-54 | for every triple the C result is the closed integer form, truncated |
| Fusion.PythonExact | src/server/app/coap_server.py:113-128 | for every triple the Python result is the closed form, nan exactly when all three agree |
| Fusion.Truncated | src/denoiser/main.c:54 | the conversion to an integer goes to the nearest one towards zero |
| Fusion.RejectedExactly | src/denoiser/main.c:16-46 | each reading is rejected if and only if 31 (2x - y - z)^2 > 507 (y - z)^2 |
| Fusion.AtMostOneRejected | src/denoiser/readme.md:15-19 | at most one of three readings is rejected, and never the median |
| Fusion.FusedIsMeanOfInliers | src/denoiser/main.c:36-52 | the mean of the readings that pass the z-score test is the closed form, over 2 or 3 of them |
| Fusion.PermutationInvariant | src/denoiser/main.c:14-55 | fusion does not depend on which sensor is which |
| Fusion.AffineEquivariant | src/server/app/coap_server.py:101-128 | fusion commutes with x -> a x + b for a != 0 |
| Fusion.FusedInRange | src/denoiser/main.c:52-54 | the fused value and its truncation lie between the readings |
| Fusion.BoundedInfluence | src/server/app/coap_server.py:101-128 | whatever the first sensor reads, fusion stays within 5/6 of the distance of the other two from their midpoint |
| Fusion.AgreeingSensorsWin | src/denoiser/readme.md:15-19 | two equal readings are the result, whatever the third is |
| Fusion.ProgramsAgree | src/denoiser/main.c:52-54 | C returns the Python result truncated, within int16, unless all three agree: then C returns them and Python nan |
| Server.Temperature.constructor | src/server/app/coap_server.py:32-54 | the table with its four keys and empty rings |
| Server.Temperature.RenderPost | src/server/app/coap_server.py:56-96 | a request records, after pushing its value, the outlier-free mean of the site's three values (nan if they agree) if and only if it is accepted; otherwise the table is unchanged and each failed lookup, parse or parity raises its own error |
| Server.AcceptedIff | src/server/app/coap_server.py:62-82 | acceptance lookup by lookup: known site, two integers, parity, table keys |
| Server.NextRing | src/server/app/coap_server.py:70-79 | a request changes the ring of its own site and sensor by one push and no other ring |
| Server.PushRing | src/server/app/coap_server.py:72-79 | pushing a value on the ring of n messages gives the ring of n + 1 |
| Server.RingsFollowHistory | src/server/app/coap_server.py:70-79 | over every run a ring is determined by the messages accepted from its own sensor: index n mod 2, slot 1 the last even-numbered one |
| Server.LatestIsLastEven | src/server/app/coap_server.py:81-83 | values[-1] is message 2 (n / 2), or 0 before the second |
| Server.RecordedOverRuns | src/server/app/coap_server.py:81-95 | over every run the recorded value is the closed form of the last even-numbered messages of the three sensors, nan if they agree |
| Server.OddMessagesAreIgnored | src/server/app/coap_server.py:79-86 | changing odd-numbered messages changes no fused value |
| Server.FusedAfterWarmUp | src/server/app/coap_server.py:81-95 | after two messages per sensor in [lo, hi] the fused value is in [lo, hi] or nan, and nan exactly when the three values agree |
| Server.MisspeltSiteStaysEmpty | src/server/app/coap_server.py:49-53 | no run ever changes the rings under the key lillie |
| Server.NodeMessage | src/server/app/coap_server.py:59-64 | from the node's buffer the server reads the node's three fields if and only if the text was not cut and the id has no quote, backslash or control character |
| Server.NodeToServer | src/server/app/coap_server.py:59-72 | a node's message is accepted, for every int16, exactly for sensors 1 to 3 of three sites, and delivers its own site and value |
| Server.OddDamageIsRefused | src/server/app/coap_server.py:70-74 | a message with an odd number of flipped bits is refused |
| Pipeline.HealthySite | src/server/app/coap_server.py:81-95 | three healthy nodes, from the texts they post: every fused value lies in the band of their temperatures |
| Pipeline.OneFaultySensor | src/server/app/coap_server.py:81-95 | one arbitrary sensor: the fused value stays within a third of the band's width of the band |
| Framing.Sender.Turn | src/compute_engine copy/main.c:270-325 | one turn posts the frame of the sample in its stream, or nothing for samples up to 30; differences stay in int16; the texts posted so far are those of all samples |
| Framing.Sender.Post | src/compute_engine copy/main.c:277-322 | value and parity fit their 10-, 4- and 128-byte buffers and the JSON its 256 bytes, so the error exit is never taken; the text buffer is empty again |
| Framing.DecodedStream | docs/COMPRESSION.md:22-45 | frames are bases exactly at every tenth; decoding gives the nearest value within -128..127 of the base, exact if and only if the sample is there |
| Framing.FrameJsonReads | src/compute_engine copy/main.c:307-309 | a posted text reads as the site, the frame's text, and flag 1 for a base or 0 for a difference |
| Framing.DecodedPosts | docs/COMPRESSION.md:22-45 | decoding the posted texts gives the nearest representable value to every sample, and the flag is 1 exactly at every tenth |
| Framing.FrameTextReads | src/compute_engine copy/main.c:286-299 | the frame's text splits into the value and a parity bit that passes the check |
| Framing.FrameTextIsRefused | src/server/app/coap_server.py:66 | the server's parser refuses every frame |
| Blockwise.GcoapCli.Command | src/compute_engine/gcoap_cli.c:378-399 | the request sent, the path saved only if shorter than 64, the request counter |
| Blockwise.GcoapCli.OnResponse | src/compute_engine/gcoap_cli.c:92-171 | what is printed, what is reported, when the next block is asked for, and for which target |
| Blockwise.OffsetIsProduct | src/compute_engine/gcoap_cli.c:156-157 | block num of the server starts at num times the block size |
| Blockwise.RequestsInOrder | src/compute_engine/gcoap_cli.c:135-166 | block numbers 0, 1, 2, ... without gap or repeat, all for the original path or proxied URI, whichever replies are lost |
| Blockwise.Unreached | src/compute_engine/gcoap_cli.c:385-389 | a proxied URI of 64 characters or more is cut, names no resource, and ends after one request |
| Blockwise.PrintsPrefix | src/compute_engine/gcoap_cli.c:116-169 | what is printed is a prefix of the body, the whole body on complete |
| Blockwise.CompletesIff | src/compute_engine/gcoap_cli.c:138-142 | without losses a non-empty body is printed whole if and only if the first request names it and it fits one block or the path has 1 to 63 characters |
| Blockwise.ReportedStatus | src/compute_engine/gcoap_cli.c:97-169 | whichever replies are lost, what is reported at the end: complete exactly when every block arrived and the path was saved, or the only block carries the option |
| Blockwise.RequestsBounded | src/compute_engine/gcoap_cli.c:135-166 | a transfer sends no more requests than the body has blocks |

## Left out

- Floating-point rounding: the statistics are exact reals, thresholds are 2 and 13/10; a test that holds with equality may fall either way on the device.
- Undefined conversions: the int16 conversion of a NaN average (`src/compute_engine/main.c:370`) and the debug conversion of a NaN z-score; the node posts nothing in that case here.
- Readings outside 64 bits, which make numpy arrays of objects, and non-ASCII digits or spaces in the text.
- JSON beyond one non-empty object of strings (Json.dfy refuses other values), and characters of more than one byte; half a surrogate pair in an escape reads as U+FFFD. Temperature.RenderPost starts after json.loads, from the three fields.
- The branch for `decodedValue is None` (`src/server/app/coap_server.py:87-89`): the filter never returns None, so the outlier flag is always false.
- InfluxDB writes and the replies of the CoAP server; debug output.
- Sensor driver, I2C, sleeps, and the noise generator with its conversion to int16: a reading is any int16.
- Fusion.KeepNear: the third loop of the C function, written as a method of its own.
- Framing.Sender.Post: the tail shared by both branches of the loop, written as a method of its own.
- Blockwise.GcoapCli.Command: argument and address parsing, the info and proxy commands, payload formatting and the Observe notification are not modelled; what a C library prints for the null path of a ping through a proxy is a parameter.
- Blockwise.GcoapCli.OnResponse: response codes, content types and the line that reports the start of a blockwise transfer are not modelled.
- Blockwise.RequestsInOrder: the transfer is a GET with no other command in between, block size fixed, and the 20-bit limit on block numbers of RFC 7959 ignored.
- The topic subscription table and MQTT of `src/compute_engine copy/main.c`, the stock RIOT examples under `src/network`, and `src/server/app/decoder.py`, which is never called.
- Run-length encoding (`docs/COMPRESSION.md:47-51`), which no file implements.
