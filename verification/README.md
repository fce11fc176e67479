# AIS-catcher: a verified model of its inner loops and protocols

AIS-catcher receives ships and aircraft from a software radio and passes them on. Its inner loops are
fast, stateful and fed in blocks of any size; each stands for a simple definition over the whole stream.
Its supervisor, buffers and writers are protocols between threads, sockets and files. This project models
both in Dafny and proves, loop by loop, that the fast form is the simple one, and protocol by protocol,
what holds on every run.

Classes keep the fields of the original objects. A ghost field `heard` is the whole stream so far (`blocks`
where the pieces matter) and a field `sent` what was delivered; the invariant ties them by a function of the
whole stream, so that a result cannot depend on where the stream was cut.

| part | files |
|---|---|
| Exact signal arithmetic: FFT, block spectra, CIC5 decimators, block FIR filters | `Algebra`, `FFT`, `Spectrum`, `Cic5`, `Downsample`, `Fir` |
| Mode S parity, bit fields and Compact Position Reporting | `LinearRegister`, `ModeSParity`, `BitField`, `Cpr` |
| Stream decoders: Beast, AVR text, line splitter, MQTT, WebSocket | `Swar`, `Beast`, `Raw1090`, `Lines`, `Bytes`, `Framing`, `Mqtt`, `WebSocket` |
| Buffers: block FIFO, connection output, SSE handles | `Fifo`, `Connection`, `Sse` |
| Supervision and persistence: managed loop, CSV state, database writer | `Supervisor`, `CsvText`, `CsvRows`, `CsvState`, `Database` |
| Facts about integers and sequences, optional values | `Arith`, `Seqs`, `Wrappers` |

## What the code does not do

Some properties one would expect are false of the code as written. The model keeps the code, gives a
concrete run or input on which the property fails, and proves exactly when it holds.

- A requested restart can incur a retry delay. `Supervisor.SessionChargedIff` says of any session on any run
  when its end is charged, `Supervisor.RestartChargedIff` of the session a restart meant: when a stop or an
  exception came after it, no restart after that, and the engine is wanted again. `restartEngine` writes `stop`
  after it released the lock; when its session has ended by then the write hits the next one
  (`Supervisor.LateRestartIsCharged`), which is charged as `Supervisor.LateWriteChargedIff` says, or it is lost
  between sessions (`Supervisor.LateWriteOutsideIsLost`). A stop taken back at once costs the first delay
  (`Supervisor.RevokedStopIsCharged`) unless a restart takes it back (`Supervisor.RevokedStopChargedIff`).
- A restart counted just before the loop notes the command count waits out the old delay
  (`Supervisor.RestartCanMissWait`, reached by `Supervisor.RestartMissesWait`): a wait is cut only by a command
  counted during it (`Supervisor.WaitLength`).
- A first attempt that fails is tried again at start-up (`Supervisor.FirstAttemptIsRetried`), but after a start
  command the wish is given up (`Supervisor.StartGivesUp`). `Supervisor.FailedAttemptIsRetriedIff` says for every
  run from start-up which failed attempts are tried again.
- Surface positions south of the equator: the zone count is looked up for the candidate latitude between 0
  and 90 degrees before the quadrant is settled, so longitudes can be wrong by degrees
  (`Cpr.SouthernLongitudeIsWrong`). They are right for all longitudes exactly when the counts agree
  (`Cpr.SurfaceDecodes`).
- `FIFO::Front` with an explicit request hands out a region that may run past the end of the buffer
  (`Fifo.FrontPassesTheEnd`); it lies inside exactly when the blocks asked for, or all that are filled, are no
  more than the whole blocks before the end (`Fifo.FIFO.Front`).
- `Filter` and `FilterComplex` go wrong when a stream has nonempty blocks of fewer samples than taps as well as
  longer ones (`Fir.MixedBlocksDiffer`), and for no other cut of a stream (`Fir.ConvolvesIff`).
- A WebSocket message of 16377 to 16384 bytes is accepted by `send`, but a receiver of the same
  implementation waits for it for ever (`WebSocket.FitsIff`, `WebSocket.TooLongWaits`); with shorter ones it
  never stalls (`WebSocket.WebSocket.NeverStalls`), nor with a server's frames that fit the buffer. A reader that asks for fewer than 16384 bytes at a time loses
  a frame exactly when the data that wait and the new ones together are more than 16384 bytes
  (`WebSocket.WebSocket.Read`).
- A crash between writing a CSV snapshot and removing the journal can lose a merged report
  (`CsvRows.CrashForgetsReport`). A row is recovered exactly when it was not marked as changed, or the journal
  does not name its target, or its last row there is the same (`CsvState.State.CrashWhileCompacting`).
- A connection that subscribes twice to a topic gets each frame twice: the count is per subscription
  (`Sse.FanOutGives`).
- Complete MQTT packets behind a returned one stay in the buffer until more bytes arrive (`Mqtt.SecondWaits`),
  exactly when a packet before the last complete one has a payload for the reader (`Mqtt.MQTT.Read`).
- An MQTT message with a topic of 65536 bytes or more is sent with a truncated topic length: the payload is
  found behind the topic exactly below that length (`Mqtt.PayloadIsBack`).

## Model

| member | source | states |
|---|---|---|
| `FFT.Log2` | Source/DSP/FFT.h:28-34 | the loop finds the one exponent y with 2^y <= x < 2^(y+1) |
| `FFT.BitReverseBits` | Source/DSP/FFT.h:36-69 | bit i of the reversal of an n-bit number is bit n-1-i of the number |
| `FFT.BitReverseInvolution` | Source/DSP/FFT.h:36-69 | reversing twice gives the number back |
| `FFT.Rev` | Source/DSP/FFT.h:36-69 | the four-bits-at-a-time table form equals bit-by-bit reversal for every width |
| `FFT.Plan.CalcOmega` | Source/DSP/FFT.h:71-84 | the self-check passes for every power of two and the table holds the powers of the root |
| `FFT.Butterfly` | Source/DSP/FFT.h:116-122 | one butterfly turns the values of two half-size sub-transforms into two values of the doubled one |
| `FFT.Plan.Column` | Source/DSP/FFT.h:116-122 | one twiddle factor applied in place to every block completes that column of the stage |
| `FFT.Plan.Stages` | Source/DSP/FFT.h:104-130 | after all stages cell k holds the whole transform |
| `FFT.Plan.Fft` | Source/DSP/FFT.h:93-130 | for every power of two N over any commutative ring with w^(N/2) = -1, x[k] becomes the sum of a[n] w^(nk), a being x unscrambled |
| `Algebra.ComplexIsCommutativeRing` | Source/DSP/FFT.h:93-130 | exact complex numbers meet the laws the transform is proved under |
| `Spectrum.SquareFreqOffsetCorrection.Take` | Source/DSP/DSP.cpp:479-488 | one sample, stored squared at its reversed index, completes a block exactly every N samples |
| `Spectrum.SquareFreqOffsetCorrection.Receive` | Source/DSP/DSP.cpp:475-489 | the spectra computed are those of the consecutive N-blocks of the whole squared stream, whatever the calls |
| `Cic5.FiveStages` | Source/DSP/DSP.cpp:84-90 | five moving sums have the coefficients 1 5 10 10 5 1 |
| `Cic5.ShiftMaskLanes` | Source/DSP/DSP.cpp:499-515 | shifting and masking the packed word shifts each lane on its own |
| `Cic5.WordsAreLanes` | Source/DSP/DSP.cpp:499-524 | as long as lanes stay below 2048 the packed filter is two separate integer filters |
| `Cic5.DS_UINT16.TakePair` | Source/DSP/DSP.cpp:84-90 | the macros keep the five history words equal to the partial sums of the whole stream |
| `Cic5.DS_UINT16.Run` | Source/DSP/DSP.cpp:499-524 | overwriting the input in place gives the same outputs as filtering the whole stream |
| `Cic5.DS_UINT16.RunBytes` | Source/DSP/DSP.cpp:526-583 | the same from unsigned or signed bytes, the sign bit flipped |
| `Cic5.OffsetIs` | Source/DSP/DSP.cpp:535-566 | unsigned bytes are taken as they are, signed ones as their two's-complement value raised by 128 |
| `Cic5.ChainSettles` | Source/DSP/DSP.cpp:617-632 | the five stages together have a gain of 256, exact once 155 samples are constant |
| `Cic5.DS_UINT16.RunFloat` | Source/DSP/DSP.cpp:585-614 | the same with the outputs as fractions |
| `Cic5.ChainOfPacked` | Source/DSP/DSP.cpp:616-711 | I never carries into Q in a chain of any number of scaled stages |
| `Cic5.LastStage` | Source/DSP/DSP.cpp:616-711 | no lane ever exceeds 65280, the unscaled last stage included |
| `Downsample.Downsample32.Receive` | Source/DSP/DSP.cpp:617-649 | five passes over one buffer keep every stage in step with the whole stream |
| `Downsample.SamplesAreTwoFilters` | Source/DSP/DSP.cpp:617-649 | every sample sent is the pair of two separate five-stage filters of all I bytes and all Q bytes, unsigned ones as they are and signed ones raised by 128 |
| `Downsample.SignedIsFlipped` | Source/DSP/DSP.cpp:617-649 | a signed stream gives the samples of the unsigned stream with the sign bits flipped |
| `Downsample.LevelSettles` | Source/DSP/DSP.cpp:617-649 | constant levels a and b settle at exactly a/128 and b/128, so the zero level at 0.0, for unsigned and signed bytes |
| `Fir.ConvolvedAt` | Source/DSP/DSP.cpp:249-280 | the whole-stream convolution is the tap sum of the textbook, with silence before the start |
| `Fir.SlidingSplit` | Source/DSP/DSP.cpp:249-280 | a convolution falls into two at any place if the parts overlap by one sample less than the taps |
| `Fir.Filter.ReceiveLong` | Source/DSP/DSP.cpp:266-279 | head, body and kept tail of a long block, whatever the buffer held |
| `Fir.Filter.ReceiveShort` | Source/DSP/DSP.cpp:254-264 | sample by sample through the shifted window, whatever the buffer held |
| `Fir.Filter.Receive` | Source/DSP/DSP.cpp:215-280 | after any blocks what was sent is the specified output for them, and the convolution of all that was heard if the nonempty blocks are all long or all short, or there is one tap |
| `Fir.MixedBlocksDiffer` | Source/DSP/DSP.cpp:249-280 | a run: a long block followed by a short one gives a wrong output |
| `Fir.OneKindConvolves` | Source/DSP/DSP.cpp:215-280 | blocks of one kind are convolved in any arithmetic, rounded or not |
| `Fir.ConvolvesIff` | Source/DSP/DSP.cpp:215-280 | for which cuts of a stream all taps and samples are convolved: with two or more taps exactly those whose nonempty blocks are all long or all short |
| `Fir.DecimateAt` | Source/DSP/DSP.cpp:173-182 | the kept outputs are numbers from, from+K, from+2K and so on |
| `Fir.DownsampleKFilter.Run` | Source/DSP/DSP.cpp:173-182 | outputs in blocks of 8192, none lost between idx_in and idx_out |
| `Fir.DownsampleKFilter.Receive` | Source/DSP/DSP.cpp:160-189 | exactly every K-th value of the whole-stream convolution, blocks shorter than the taps less one dropped whole |
| `ModeSParity.TableIsDivision` | Source/Aviation/ADSB.cpp:92-124 | each of the 256 entries is eight steps of division of its index |
| `ModeSParity.ParityAppend` | Source/Aviation/ADSB.cpp:133-137 | one table round is eight steps of bit-serial division, for every state and byte |
| `ModeSParity.RemIsRemainder` | Source/Aviation/ADSB.cpp:129-140 | the register holds the remainder on long division by 0x1FFF409 (section 3.1.2.3.3 of ICAO Annex 10 Volume IV) |
| `LinearRegister.RemLinear` | Source/Aviation/ADSB.cpp:129-140 | the remainder of a sum is the sum of the remainders |
| `LinearRegister.RemIsDivision` | Source/Aviation/ADSB.cpp:129-140 | the shift register computes schoolbook division of bit strings of any length |
| `ModeSParity.VerifiedIffDivisible` | Source/Aviation/ADSB.h:217-247 | a message passes exactly when the generator divides all of it |
| `ModeSParity.UndetectedIffDivisible` | Source/Aviation/ADSB.h:242-247 | damage goes unnoticed exactly when the generator divides the error pattern |
| `ModeSParity.BurstDetected` | Source/Aviation/ADSB.h:242-247 | any damage within 24 consecutive bits of data and parity fails the check |
| `ModeSParity.Message.CalcCRC` | Source/Aviation/ADSB.cpp:129-140 | the loop returns the remainder for messages of every length |
| `ModeSParity.Message.SetCRC` | Source/Aviation/ADSB.h:217-229 | the last three bytes as one number, or undefined below three bytes |
| `ModeSParity.Message.SetCRCandICAO` | Source/Aviation/ADSB.h:232-240 | the address found is exactly the one added to the parity |
| `ModeSParity.Message.Check` | Source/Aviation/ADSB.h:217-247 | setCRC then verifyCRC decides divisibility |
| `BitField.FieldOfFive` | Source/Aviation/ADSB.h:193-200 | shift and mask of five bytes give the number the bits spell |
| `BitField.GetUint` | Source/Aviation/ADSB.h:185-201 | any field of up to 32 bits of the message, and 0 outside it |
| `Cpr.ModIsEuclidean` | Source/Aviation/ADSB.cpp:406-412 | MOD is the mathematical remainder also for negative numbers |
| `Cpr.ZoneIndexExact` | Source/Aviation/ADSB.cpp:451 | rounding finds the true zone index while the reports are closer than half a zone less the quantization |
| `Cpr.PairDecodes` | Source/Aviation/ADSB.cpp:451-454 | even and odd zone values equal the quantized coordinates up to whole turns (section A.1.7.7 of RTCA DO-260B) |
| `Cpr.QuantizationError` | Source/Aviation/ADSB.cpp:451-476 | a quantized coordinate is within half a step of the encoded one |
| `Cpr.AirborneDecodes` | Source/Aviation/ADSB.cpp:447-485 | for latitudes of a whole turn from the south pole on: accepted exactly when both lie between the poles and in one zone band, and then latitude and longitude come back on their grids |
| `Cpr.EarthDecodes` | Source/Aviation/ADSB.cpp:447-485 | of places on Earth exactly the pairs from one zone band are accepted: none is rounded past a pole |
| `Cpr.SurfaceDecodes` | Source/Aviation/ADSB.cpp:487-528 | for all latitudes: two reports are decoded to the position of the report used, for all close longitudes, exactly when the candidate latitudes lie in one zone band and the looked-up count agrees with the encoded ones |
| `Cpr.SurfaceGives` | Source/Aviation/ADSB.cpp:487-528 | refused exactly when the candidates lie in different zone bands, else the encoded latitude and the nearest longitude |
| `Cpr.LongitudesRightIff` | Source/Aviation/ADSB.cpp:517-523 | the longitudes are right for all close pairs exactly when the count used is right and, unless it is one zone, the other one too |
| `Cpr.NorthDecodes` | Source/Aviation/ADSB.cpp:506-528 | between 0 and 90 degrees north every pair of reports from one zone band is decoded, and no other |
| `Cpr.SouthernLongitudeIsWrong` | Source/Aviation/ADSB.cpp:506-523 | two reports from 30 degrees south decode to a longitude more than a degree off |
| `Swar.NoBorrow` | Source/Library/SWAR.h:54-58 | below the first zero lane no borrow happens, so the lowest flag is right |
| `Swar.FindInWord` | Source/Library/SWAR.h:54-85 | the word search finds the first occurrence among eight bytes, or none |
| `Swar.FoundOr` | Source/Library/SWAR.h:54-85 | two searches joined by or find whichever comes first |
| `BeastDecoder.FeedConcat` | Source/Aviation/Beast.cpp:160-242 | the automaton's output does not depend on where the input is cut |
| `BeastDecoder.FeedAllBounded` | Source/Aviation/Beast.cpp:111-136 | frame_pos never passes frame_total, which never passes 22 |
| `BeastDecoder.RoundTrip` | Source/Aviation/Beast.cpp:160-242 | decoding the doubled encoding of any frames of 10, 15 and 22 bytes of types 0x31, 0x32 and 0x33 returns those frames, from any state without a pending escape |
| `BeastDecoder.NoiseSkipped` | Source/Aviation/Beast.cpp:169-190 | bytes without an escape between frames are skipped |
| `BeastDecoder.BadTypeDropped` | Source/Aviation/Beast.cpp:180-242 | an escape before anything but an escape or a type drops the frame begun |
| `BeastDecoder.Beast.Fill` | Source/Aviation/Beast.cpp:193-220 | the word copy stops at the first escape, the frame's end or the chunk's end and never writes past the buffer |
| `BeastDecoder.Beast.Receive` | Source/Aviation/Beast.cpp:160-242 | the loop is the one-byte automaton on the whole stream |
| `BeastDecoder.Beast.Decodes` | Source/Aviation/Beast.cpp:160-242 | encoded frames come out as they went in, whatever the chunks |
| `Raw1090.RoundTrip` | Source/Aviation/Beast.cpp:42-109 | decoding the text of any messages of 1 to 14 bytes returns them, from every state |
| `Raw1090.MessageIff` | Source/Aviation/Beast.cpp:42-109 | between an asterisk and the next semicolon a message is delivered exactly if the text is 2 to 28 hexadecimal digits, and then the bytes they spell |
| `Raw1090.RoundTripAnyCase` | Source/Aviation/Beast.cpp:42-109 | so are messages written with digits in either case |
| `Raw1090.FeedConcat` | Source/Aviation/Beast.cpp:42-109 | the machine's output does not depend on where the text is cut |
| `Raw1090.Decoder.TakePairs` | Source/Aviation/Beast.cpp:62-70 | two digits at a time do what two single steps do |
| `Raw1090.Decoder.TakeDigit` | Source/Aviation/Beast.cpp:96-106 | high and low halves are packed as the digits say, at most 28 of them |
| `Raw1090.Decoder.TakeChar` | Source/Aviation/Beast.cpp:72-106 | one character is one step of the machine |
| `Raw1090.Decoder.Receive` | Source/Aviation/Beast.cpp:42-109 | the loop is the one-character machine on the whole stream |
| `Raw1090.Decoder.Decodes` | Source/Aviation/Beast.cpp:42-109 | encoded messages come out as they went in, whatever the chunks |
| `LineSplitter.FirstBreak` | Source/Aviation/Basestation.cpp:328-341 | the joined word search stops at the first CR or LF |
| `LineSplitter.DeliversShortLines` | Source/Aviation/Basestation.cpp:319-361 | the automaton delivers exactly the nonempty lines of fewer than 8192 bytes, in order |
| `LineSplitter.Basestation.Copy` | Source/Aviation/Basestation.cpp:326-345 | copies up to the next line break and never past the end of the line buffer |
| `LineSplitter.Basestation.Receive` | Source/Aviation/Basestation.cpp:303-363 | the loop is the automaton on the whole stream |
| `LineSplitter.Basestation.Delivered` | Source/Aviation/Basestation.cpp:303-363 | the lines processed are the short lines of all that was received |
| `Fifo.RingPush` | Source/Library/FIFO.h:173-183 | storing in one or two pieces appends to the ring's contents and leaves them as they were |
| `Fifo.FitsExactly` | Source/Library/FIFO.h:146-153 | the space check in blocks asks exactly whether the elements fit |
| `Fifo.FIFO.Front` | Source/Library/FIFO.h:99-109 | the region handed out is the front of what is pending, inside the buffer exactly when the request is open or within the whole blocks before the end; nothing once halted |
| `Fifo.FrontPassesTheEnd` | Source/Library/FIFO.h:99-109 | a run of pushes and pops after which a request for two blocks is granted past the end of the buffer |
| `Fifo.FIFO.Pop` | Source/Library/FIFO.h:111-125 | whole blocks leave at the front in order, none when halted |
| `Fifo.FIFO.Push` | Source/Library/FIFO.h:138-191 | accepted is popped followed by pending, halted or not; old pending elements stay where they are less those the consumer pops during a wait; the answer is a function of what is pending and the consumer's turns; a refusal changes nothing and a halt is sticky |
| `Fifo.AnswerIs` | Source/Library/FIFO.h:138-171 | a push that does not wait is accepted exactly when it fits; one that waits exactly when some of the consumer's turns before any halt pop enough; it is refused exactly when a halt comes first |
| `Fifo.FIFO.ReadFront` | Source/Library/FIFO.h:99-191 | a region handed out by Front is not changed by any pushes, waits or halts before its Pop, which releases just that region |
| `Fifo.FIFO.StoreChecked` | Source/Library/FIFO.h:173-190 | after any wait the numbers computed before it still hold and no pending element is overwritten |
| `Fifo.FIFO.Halt` | Source/Library/FIFO.h:66-73 | halts |
| `Fifo.FIFO.Wait` | Source/Library/FIFO.h:82-92 | true exactly when a whole block is pending and the FIFO is not halted |
| `Connection.TCPServerConnection.Send` | Source/IO/TCPServer.cpp:149-187 | accepted data stands behind all earlier data on wire and backlog, refused exactly when closed, the socket failed or more than 8 MiB would wait, and then closed; earlier clients' data untouched |
| `Connection.TCPServerConnection.SendBuffer` | Source/IO/TCPServer.cpp:108-136 | wire and backlog together stay the same while bytes move from one to the other; closes exactly when the socket fails |
| `Connection.TCPServerConnection.Start` | Source/IO/TCPServer.cpp:51-63 | the next incarnation has an empty wire and backlog and the next generation, and no trace of earlier clients' data is changed |
| `Connection.TCPServerConnection.Perform` | Source/IO/TCPServer.cpp:41-187 | every operation of the object is a step of the slot model, so what holds on every run of a slot holds of the object |
| `Connection.QueueKeeps` | Source/IO/TCPServer.cpp:137-147 | queueing behind the backlog, compacted or not, conserves the data or closes the connection |
| `Connection.SendKeeps` | Source/IO/TCPServer.cpp:149-187 | a send conserves the data whatever part of it the socket took |
| `Connection.RunConserves` | Source/IO/TCPServer.cpp:41-187 | on every run: wire followed by backlog is all data offered to this client, at most 8 MiB wait, no client gets anything but a prefix of its own data |
| `Sse.LiveIsOwn` | Source/IO/HTTPServer.h:50-53 | a live handle is for the present client exactly when fewer than 2^32 have come since |
| `Sse.LiveIsSubscribed` | Source/IO/HTTPServer.h:50-53 | while no slot has had 2^32 clients a live handle belongs to the client that made it |
| `Sse.FanOutGives` | Source/IO/HTTPServer.h:343-349 | a frame reaches a connection as often as it subscribed, and no other connection |
| `Sse.HTTPServer.CleanupSSE` | Source/IO/HTTPServer.h:299-316 | exactly the live subscribers stay and the topics are theirs |
| `Sse.HTTPServer.RepublishTopics` | Source/IO/HTTPServer.h:318-324 | the published topics are the union of the subscribers' masks |
| `Sse.HTTPServer.OnCommand` | Source/IO/HTTPServer.h:343-349 | dead subscribers are reaped, each subscription gets the frame once, all histories conserved, and below 2^32 clients a slot none of whose handles is its present client's does not change |
| `Sse.HTTPServer.UpgradeSSE` | Source/IO/HTTPServer.h:225-244 | the new subscriber gets headers and backlog in order, no other connection anything |
| `Sse.HTTPServer.CloseAllSSE` | Source/IO/HTTPServer.h:217-221 | closes the connections of live subscribers and no other, below 2^32 clients only those of clients that subscribed |
| `Sse.HTTPServer.Accept` | Source/IO/TCPServer.cpp:229-285 | a new client takes the first free slot, or none when all are taken |
| `Sse.HTTPServer.Operate` | Source/IO/TCPServer.cpp:41-187 | any other answer, flush or close keeps every history and every subscription and touches one slot |
| `Framing.FramesMore` | Source/IO/Protocol.cpp:1208-1367 | cutting a stream into packets does not depend on how it arrived |
| `Framing.RoundTrip` | Source/IO/Protocol.cpp:1208-1367 | the bytes of a list of frames are cut into just those frames |
| `Framing.NeverFills` | Source/IO/Protocol.cpp:1654-1718 | of frames of at most n bytes never n bytes wait to be complete |
| `Mqtt.LengthRoundTrip` | Source/IO/Protocol.cpp:915-935 | every length below 2^28 takes at most four bytes and is read back (section 2.2.3 of MQTT 3.1.1) |
| `Mqtt.LengthBytes` | Source/IO/Protocol.cpp:923-934 | the bytes of lengths of one to four digits to the base 128 |
| `Mqtt.PushVariableLength` | Source/IO/Protocol.cpp:923-934 | the loop appends that encoding, or refuses a length of 2^28 and more |
| `Mqtt.ReadLength` | Source/IO/Protocol.cpp:1228-1247 | the loop reads it, asks for more bytes, or refuses a fifth |
| `Mqtt.PublishParses` | Source/IO/Protocol.cpp:1177-1201 | a PUBLISH packet of up to 1 MiB is read back as one packet, whatever follows it |
| `Mqtt.TooLongRefused` | Source/IO/Protocol.cpp:1228-1262 | a packet of more than 1 MiB is refused once its length is read |
| `Mqtt.PayloadIsBack` | Source/IO/Protocol.cpp:1177-1308 | the payload found behind topic and packet number is the message's exactly when the topic has fewer than 65536 bytes |
| `Mqtt.Acknowledged` | Source/IO/Protocol.cpp:1298-1317 | a message within the reader's room is returned whole and acknowledged with its own packet number, a longer one neither |
| `Mqtt.ExchangeEnds` | Source/IO/Protocol.cpp:1269-1355 | publication, receipt, release and completion are each answered by the packet that is due next, with the message's number |
| `Mqtt.PingAnswered` | Source/IO/Protocol.cpp:1316-1320 | a ping request is answered by a ping response |
| `Mqtt.MessagesRoundTrip` | Source/IO/Protocol.cpp:1177-1367 | published messages are cut into just their packets |
| `Mqtt.MQTT.Publish` | Source/IO/Protocol.cpp:1177-1201 | send builds that packet for every topic, skips a payload over 2048 bytes, and disconnects over 2^28 |
| `Mqtt.MQTT.Dispatch` | Source/IO/Protocol.cpp:1266-1359 | what each packet type returns and answers |
| `Mqtt.MQTT.Read` | Source/IO/Protocol.cpp:1208-1367 | the first payload there is is returned, the packets up to it are handled and the others stay; a complete packet stays exactly when one before the last has a payload; room for more bytes always |
| `Mqtt.TurnStops` | Source/IO/Protocol.cpp:1361-1367 | one call stops before the last packet exactly when an earlier one has a payload |
| `Mqtt.SecondWaits` | Source/IO/Protocol.cpp:1208-1367 | a run: of two messages in one piece of network data the second waits although it is complete |
| `Mqtt.MQTT.NothingLost` | Source/IO/Protocol.cpp:1208-1367 | payloads returned and those still buffered are the payloads of all packets heard, in order |
| `Mqtt.MQTT.Delivers` | Source/IO/Protocol.cpp:1177-1367 | of messages published by this implementation, the nonempty payloads that fit are returned or wait, in order, however the network cut them |
| `WebSocket.MaskedTwice` | Source/IO/Protocol.cpp:1622-1625 | masking with the same key twice is the identity |
| `Bytes.XorBitAt` | Source/IO/Protocol.cpp:1622-1625 | each bit of a masked byte says whether the bits of byte and key differ |
| `WebSocket.WireParses` | Source/IO/Protocol.cpp:1569-1639 | a frame, masked with any key or not at all, its length in any of the three forms, parses to its payload whatever follows (sections 5.2 and 5.3 of RFC 6455) |
| `WebSocket.MessagesRoundTrip` | Source/IO/Protocol.cpp:1569-1817 | any list of messages, from a client or a server, comes back as sent |
| `WebSocket.FitsIff` | Source/IO/Protocol.cpp:1574-1602 | a frame of send fits the receiver's buffer exactly when its payload has at most 16376 bytes |
| `WebSocket.TooLongWaits` | Source/IO/Protocol.cpp:1666-1718 | of a frame longer than the buffer the full buffer never holds a complete one |
| `WebSocket.WebSocket.Build` | Source/IO/Protocol.cpp:1582-1625 | send builds that frame |
| `WebSocket.WebSocket.Unmask` | Source/IO/Protocol.cpp:1733-1737 | a payload is unmasked in place and nothing behind it changes |
| `WebSocket.WebSocket.Front` | Source/IO/Protocol.cpp:1679-1726 | finds the frame at the front, asks for more bytes, or refuses it |
| `WebSocket.WebSocket.Handle` | Source/IO/Protocol.cpp:1728-1812 | data to the reader exactly if it has room, pings and closes answered with their own payload |
| `WebSocket.DroppedIff` | Source/IO/Protocol.cpp:1741-1755 | of any frames handled in a row one is dropped exactly when what waits and all their data together are more than the reader's buffer holds |
| `WebSocket.WebSocket.GetFrames` | Source/IO/Protocol.cpp:1666-1817 | the loop ends, every frame is handled once, the reader gets each payload that has room left when its turn comes, and none is dropped exactly when every one has |
| `WebSocket.WebSocket.Read` | Source/IO/Protocol.cpp:1654-1664 | a frame is dropped exactly when the data that wait and those of the new frames together are more than 16384 bytes; a reader that asks for 16384 bytes at a time loses nothing |
| `WebSocket.WebSocket.Delivered` | Source/IO/Protocol.cpp:1641-1817 | the reader has or will get the payloads of all data frames heard, joined in order, exactly when none was dropped |
| `WebSocket.WebSocket.MessagesDelivered` | Source/IO/Protocol.cpp:1641-1817 | of messages framed by a server or a client the reader has or will get the payloads of all data, in order, however the network cut them, exactly when none was dropped |
| `WebSocket.FramesMean` | Source/IO/Protocol.cpp:1728-1812 | which opcodes are data, and the answers to pings and closes |
| `WebSocket.WebSocket.NeverStalls` | Source/IO/Protocol.cpp:1654-1718 | while frames arrive that fit the buffer there is always room for the bytes that complete one |
| `Supervisor.ControlCore.StartEngine` | Source/Control/ControlCore.cpp:108-122 | the engine is wanted without a delay, and a restart in progress goes on; nothing else changes |
| `Supervisor.ControlCore.StopEngine` | Source/Control/ControlCore.cpp:124-136 | told to stop, and however its end is reported no delay and no attempt follow |
| `Supervisor.ControlCore.RestartEngine` | Source/Control/ControlCore.cpp:138-158 | a running engine is told to stop, and its end, reported next, leaves it wanted and costs no delay |
| `Supervisor.ControlCore.ReportStopped` | Source/Control/ControlCore.cpp:555-581 | charged exactly when wanted, not restarting, and running or retrying; the delay is 5 seconds after a minute of running, else the next term of the backoff; the wish given up exactly when an attempt fails whose failing is not to be retried; a pending retry always has its wish |
| `Supervisor.ControlCore.ConsumeRetryDelay` | Source/Control/ControlCore.cpp:596-603 | a pending delay, always a term of the backoff, is returned exactly once |
| `Supervisor.AlwaysSafe` | Source/Control/ManagedMain.cpp:119-188 | on every interleaving from start-up, the engine wanted or not: an unwanted engine is told or about to be told to stop, a pending restart has a running engine, a pending retry has a wish |
| `Supervisor.StepKeepsCauses` | Source/Control/ManagedMain.cpp:119-188 | no step lets a session be told to stop without a cause |
| `Supervisor.StepKeepsBackoff` | Source/Control/ControlCore.cpp:555-581 | the delay field is the backoff term of the charged stops since the last command or the last run of a minute |
| `Supervisor.ChargedOnlyWithCause` | Source/Control/ControlCore.cpp:555-581 | on no run from start-up is a delay charged unless the engine threw, ended itself, a stop was revoked or a restart came late |
| `Supervisor.DelayServedIsBackoff` | Source/Control/ManagedMain.cpp:123-129 | delays served on any run from start-up are 5, 10, 20, 40, 60, 60 and so on |
| `Supervisor.HealthyRun` | Source/Control/ControlCore.cpp:555-581 | the delay after a charged session from its events: 5 if the seconds that passed since it came up are 60 or more, else the next of 5, 10, 20, 40, 60 after the one before, which is none if a command came in the session |
| `Supervisor.DelayStays` | Source/Control/ControlCore.cpp:108-581 | on any run the delay is none exactly if a command came after the last charged stop, and stays what it was till the next of either |
| `Supervisor.SessionChargedIff` | Source/Control/ControlCore.cpp:108-581 | from any point of any session on any run: its end is charged exactly as the last wish, the last restart, stop and exception in it say |
| `Supervisor.RestartChargedIff` | Source/Control/ControlCore.cpp:138-158 | from the locked section of a restart: charged exactly when a stop or exception follows, no restart after it, and the engine is wanted at the end |
| `Supervisor.RevokedStopChargedIff` | Source/Control/ControlCore.cpp:108-158 | from the locked section of a stop: charged exactly when it is taken back, and not by a restart still pending |
| `Supervisor.RestartRestarts` | Source/Control/ManagedMain.cpp:119-188 | seven loop actions later the engine serves again |
| `Supervisor.EngineComesUp` | Source/Control/ManagedMain.cpp:119-188 | from the program's start-up with the engine wanted five loop actions bring it up: sessions are reached |
| `Supervisor.FailedAttemptIsRetriedIff` | Source/Control/ControlCore.cpp:42-581 | on every run from start-up: an attempt that fails before the engine ran is retried after a delay exactly when a restart of a running engine or a charged stop came after the last start command or restart of a stopped one, or there was no such command and the engine was wanted at start-up; else the wish is given up |
| `Supervisor.FirstAttemptIsRetried` | Source/Control/ControlCore.cpp:42-51 | a run: the first attempt at start-up fails and is due again after 5 seconds |
| `Supervisor.StartGivesUp` | Source/Control/ControlCore.cpp:108-122 | a run: the first attempt after a start command fails and the wish is given up |
| `Supervisor.RestartRetriesIff` | Source/Control/ControlCore.cpp:138-158 | a failed start is tried again after a restart exactly when the engine was running, else given up |
| `Supervisor.LateWriteChargedIff` | Source/Control/ControlCore.cpp:138-158 | the session hit by the second write of a restart, at whatever point, over every continuation: once it comes up, charged exactly when wanted at the end and the restart no longer pending or lost; else exactly when it was a retry and no command came |
| `Supervisor.LateWriteOutsideIsLost` | Source/Control/ControlCore.cpp:138-158 | a second write between sessions changes nothing that follows, but for the flag until the next session clears it |
| `Supervisor.LateRestartIsCharged` | Source/Control/ControlCore.cpp:138-158 | a run on which a requested restart incurs a delay |
| `Supervisor.RevokedStopIsCharged` | Source/Control/ControlCore.cpp:108-136 | a run on which stop and start cost the first delay |
| `Supervisor.RestartCanMissWait` | Source/Control/ManagedMain.cpp:127-136 | a restart that does not cut the wait, for every delay |
| `Supervisor.RestartMissesWait` | Source/Control/ManagedMain.cpp:119-136 | such a restart is reached by a run from every state in which a retry is due |
| `Supervisor.WaitLength` | Source/Control/ManagedMain.cpp:127-136 | a wait lasts its four turns a second or up to the next command counted, whichever is shorter |
| `Supervisor.StopIsObeyed` | Source/Control/ManagedMain.cpp:119-188 | after a stop each loop action brings the engine closer to its end, and it is not started again |
| `Supervisor.StoppedWithinThree` | Source/Control/ManagedMain.cpp:119-188 | after three loop actions the engine is down |
| `Supervisor.Managed.Step` | Source/Control/ManagedMain.cpp:119-188 | every event on the control core and the flag is one step of the state machine and keeps it safe |
| `Supervisor.Managed.Perform` | Source/Control/ManagedMain.cpp:119-188 | on every run the objects are where the state machine is, so all of the above holds of them |
| `CsvText.SplitLine` | Source/DBMS/CSV.cpp:121-151 | the loop is the recursive reader |
| `CsvText.AppendEscaped` | Source/DBMS/CSV.cpp:39-65 | the loop writes the escaped field |
| `CsvText.JoinLine` | Source/DBMS/CSV.cpp:67-78 | the loop joins the fields |
| `CsvText.RoundTrip` | Source/DBMS/CSV.cpp:39-151 | every nonempty record is read back, null as empty and line breaks as spaces (section 2 of RFC 4180) |
| `CsvText.PlainIff` | Source/DBMS/CSV.cpp:39-65 | a field is written as it is exactly if it has no comma, quote or line break, else between quotes |
| `CsvText.SplitIff` | Source/DBMS/CSV.cpp:121-151 | a line is refused exactly when the number of its quotes is odd |
| `CsvText.JoinedIsOneLine` | Source/DBMS/CSV.cpp:39-78 | a written record holds no line break |
| `CsvRows.HoldsLastReported` | Source/DBMS/CSV.cpp:336-358 | after any reports a column holds the last value reported, first_seen stays, and each report counts |
| `CsvRows.FirstSeen` | Source/DBMS/CSV.cpp:336-345 | first_seen is the time of the first report |
| `CsvRows.FollowsLastReport` | Source/DBMS/CSV.cpp:344-345 | time and station are those of the last report, even if it has none |
| `CsvRows.LoadPrinted` | Source/DBMS/CSV.cpp:165-236 | a state row written as text is loaded as that row, flattened |
| `CsvRows.TextIsFaithful` | Source/DBMS/CSV.cpp:324-415 | the text format meets what recovery needs, and merging keeps rows within their arrays |
| `CsvState.ReplayConcat` | Source/DBMS/CSV.cpp:153-236 | reading two files one after the other: the later row of a target wins |
| `CsvState.State.Create` | Source/Tracking/SlotTable.h:90-103 | a slot never used, or the least recent one |
| `CsvState.State.MergeState` | Source/DBMS/CSV.cpp:324-366 | one row merged and marked, all others as they were, and every clean row still recoverable, eviction included |
| `CsvState.State.Drain` | Source/DBMS/CSV.cpp:530-555 | exactly one journal line per marked row, after which every row is recoverable, and the journal is longer by their bytes |
| `CsvState.State.Compact` | Source/DBMS/CSV.cpp:424-472 | the snapshot holds every row, the journal is gone, every row is recoverable |
| `CsvState.State.Flushed` | Source/DBMS/CSV.cpp:524-562 | exactly every 600 seconds or at 4096 marked rows the marked rows are drained; exactly when the journal is then longer than 1 MiB and four snapshots the files are rewritten; else nothing changes |
| `CsvState.State.LoadFile` | Source/DBMS/CSV.cpp:165-236 | each slot holds its target's last row, and no target is missing unless there are more than slots |
| `CsvState.State.Open` | Source/DBMS/CSV.cpp:153-163 | snapshot, then journal |
| `CsvState.State.RestartRecovers` | Source/DBMS/CSV.cpp:153-562 | after any run, a table opened from the files has every clean row |
| `CsvState.State.CrashWhileCompacting` | Source/DBMS/CSV.cpp:424-472 | after a crash before the journal's removal a row is recovered exactly when it is clean, or the journal does not name its target, or holds the same row |
| `CsvState.CrashLosesReport` | Source/DBMS/CSV.cpp:424-472 | the same for any format: report, drain, report, crash while compacting recovers the first row |
| `CsvRows.CrashForgetsReport` | Source/DBMS/CSV.cpp:324-472 | a run in the text format after which the count of a target is one less than before the crash |
| `Database.DatabaseOutput.Receive` | Source/DBMS/DatabaseOutput.cpp:718-733 | queue of at most 2048, the oldest quarter dropped when full |
| `Database.DatabaseOutput.WriteEntry` | Source/DBMS/DatabaseOutput.cpp:289-326 | the statements of an entry in order, up to the first that is refused; it succeeds exactly if none is |
| `Database.DatabaseOutput.CommitNext` | Source/DBMS/DatabaseOutput.cpp:458-472 | a commit lands exactly the rows of its entries, behind all earlier ones, or nothing; they are written exactly if it succeeds |
| `Database.DatabaseOutput.Replay` | Source/DBMS/DatabaseOutput.cpp:474-497 | row by row, each entry settled once: written exactly if its own begin, statements and commit succeed and no begin before it failed |
| `Database.DatabaseOutput.SkipFailed` | Source/DBMS/DatabaseOutput.cpp:429-441 | without transactions exactly the entries none of whose statements is refused are written, and failed ones are never replayed |
| `Database.DatabaseOutput.Post` | Source/DBMS/DatabaseOutput.cpp:399-497 | for every pattern of answers of the backend: which queued entries are written, which rows land, and when the count of failed cycles goes up; entries keep arriving meanwhile |
| `Database.WholeFaresAlike` | Source/DBMS/DatabaseOutput.cpp:447-472 | if begin, all statements and commit succeed the whole batch is written, if the commit fails all of it is dropped |
| `Database.ReplayFares` | Source/DBMS/DatabaseOutput.cpp:474-497 | if a statement failed exactly those entries are written whose own begin, statements and commit succeed before the first failed begin; the count goes up exactly if a begin failed or none was written |
| `Database.DatabaseOutput.AtMostOnce` | Source/DBMS/DatabaseOutput.cpp:399-497 | no row is ever in the tables twice, even if a failed commit landed |
| `Database.DatabaseOutput.Accounted` | Source/DBMS/DatabaseOutput.cpp:399-497 | every entry is written, dropped, in the batch or in the queue, and in one only |
| `Database.DatabaseOutput.AllOrNothing` | Source/DBMS/DatabaseOutput.cpp:399-497 | with transactions an entry lands whole or not at all, and exactly when it counts as written |

## Left out

- Rounding of floats in the FFT, the CIC5 conversion and CPR: modelled over an exact ring, integers and reals; the FIR statements need no law of arithmetic and hold for rounded numbers too.
- The 32-bit float parameters and results of CPR decoding: modelled as reals.
- NL's trigonometry: a parameter of the decoders, any function with values of at least 1, on the surface of 1 to 59.
- The peak search, rotation and PLL behind the spectrum, signal levels, soxr and libsamplerate: they have no exact specification.
- Fir.DownsampleKFilter.Receive: fixes taps and K at construction, because changing them in mid-stream has no specification.
- BitField.GetUint: for fields of 1 to 32 bits, because a wider field would shift by a negative amount.
- Cic5.WordsAreLanes: demands lanes below 2048 on entry, which the chains establish.
- The 16-fold and 8-fold decimators as classes: the chain lemmas cover any number of stages.
- The SIMD branches of SWAR.h and the inline-assembly branch of rev: only the portable branches.
- Beast's interpretation of a frame's fields.
- The text decoder's reset of the other fields of a message at each asterisk.
- Mode S field decoders, altitude codes, JSON output and country tables: value tables without state.
- Condition-variable timeouts of the FIFO: waiting ends when it may, or goes on.
- Fifo.FIFO.Front: reads blocks_filled without the lock; the model takes it as one step.
- Several command threads, and the end of the whole process: the supervisor model has one command thread and does not end.
- `stop = stop || ...` in the engine loop as two accesses: one atomic action in the model.
- The seconds a delay lasts: counted in turns of the waiting loop.
- Shifts, masks and the sign flip of the CIC words: quotients, remainders and sums of numbers in the model.
- MQTT topics of 2^31 bytes and more, whose packet length overflows an int.
- Mqtt.MQTT.Handle: assumes that an answer to the broker can be sent, because otherwise the connection is lost.
- Mqtt.MQTT.Read: the reader's room is fixed at construction, while data_len comes with every call.
- Capacities of the output vector and the memory they release: only the contents are modelled.
- The cost of lost connections before a read: sockets, TLS and reconnecting are events or parameters.
- Sse.HTTPServer.OnCommand: the server holds its slots as values; the connection object's methods are tied to the same functions in Connection, so aliasing between slots is not modelled.
- Connection flags: time-outs, verbosity and closing after a send are closings that may come at any time.
- HTTP request parsing, mounted servers and pings: the SSE model begins at the upgrade of a connection.
- The header line of the CSV files, and its bytes in the size of a snapshot.
- Duplicates between a subscriber's backlog snapshot and the command queue.
- The MQTT and WebSocket handshakes; packets the broker does not take.
- WebSocket.WebSocket.Handle: assumes that an answer to a ping can be sent, because otherwise the connection is lost.
- A receive buffer larger than 16384 bytes after a handshake that carried frames.
- Number parsing and printing, and the bitwise or of masks, in the CSV rows: parameters with the one law that a printed number is parsed back.
- CSV message, position and static logs, the statistics table and its retention, and failing disk writes.
- Hash chains of the slot table: looked up by search in the model.
- The width of counters in state rows.
- Fragmented WebSocket messages: continuation frames are dropped by the code and by the model.
- Statistics buckets of the database writer and its back-off between cycles.
- The text of SQL statements: a row is its entry and its table.
