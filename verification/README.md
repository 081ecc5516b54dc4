# CosmosPC

A model of the parts of the Cosmos settings tool that move data between a PC and a watch, and
proofs of what they do.

- **Firmware upload** (`modem/ymodem.cpp`). `Gf2`, `Crc16`, `CrcDistance`, `Decimal` and
  `Packets` hold the CRC, the decimal printer and the two packet builders, working in place on
  arrays as the code does.
  `SerialPort` is the port: a log of calls, and a far end that is an arbitrary function of that
  log, so a statement about all far ends is one about all reply streams. `Sender` proves
  Ymodem_Transmit to carry out a fixed plan of sends and waits. `Transcript` says what any run can
  have put on the line, and when. `Receiver` is a receiver written from section 5 of Chuck
  Forsberg's XMODEM/YMODEM Protocol Reference, octet by octet; `Noise` is a line that flips bits on
  the way to it, and `FarEnd` says when a far end conforms. `EndToEnd` runs the sender against it.
  `Losses` says when octets that Send_Byte gave up on can go unnoticed.
- **Log download** (`CosmosReadCommProc.cpp`, `MainProcFunc.cpp`). `ReadComm` is the class the
  reader thread calls with each chunk. `Sync` interleaves it with the sync thread: every test and
  assignment of doSync on shared state is one atomic step, a chunk is two. `Allowed` in that module
  is the list of assumptions about the watch and the port; `SyncAssumptions` shows what happens
  without them. `FileFetch` follows one file from its request to the parser, `Session` a whole
  session.
- **Trailing spaces** (`sql_api/m_string.h`). `TrailingSpace`: the word-at-a-time scan against the
  plain one, at a numeric base address.
- **Log parser** (`CosmosParser.cpp`). `LogParser`: the tagged record loop with its one reused
  buffer, record sizes being parameters.

## What was found

- A path whose size digits do not all fit block 0 is sent with a truncated size. The transfer
  reports success and the receiver keeps a shorter file (`EndToEnd.LongNameShortensFile`).
- The block limit of 896 counts packets, and the tail goes out in packets of 128. Images from
  911233 octets on can hit it although the size guard admits 917504 (`Packets.CountBound`).
- Send_Byte never says that it gave up. Against a far end that acknowledges without looking, a
  transfer can report success with EOT or CRC octets missing, at 25 empty writes each
  (`Losses.LossGoesUnnoticedIff`); a conforming receiver always stops it (`EndToEnd.OutcomeIsExact`).
- The comment at ymodem.cpp:326 speaks of resending on NAK. Nothing is ever resent; a NAK only uses
  up one of the twenty attempts of a wait.
- The comment before Ymodem_Transmit gives the file size as its result; the code returns 0 or 0xFF. The
  comment before skip_trailing_space promises the last non-space character; the code returns the
  position after it. The models follow the code.
- Tag 1 (FCHECK) cannot be recognised, since CHECK is searched first (`ReadComm.FcheckIsNeverSeen`).
- A header that arrives after its session makes the next session parse file 1 under the wrong
  number (`SyncAssumptions.LateHeaderParsesFileOne`).
- The reader divides by zero exactly when a piece is written while the last size told was that of an
  FSIZE 0 (`SyncAssumptions.CrashesIff`).
- A piece of a file that holds "CHECK" and a comma before its first NUL is taken for a reply and lost
  without a trace (`ReadComm.IgnoredIff`); the file then never arrives whole
  (`FileFetch.FileIsFetched`). Log files are binary, so nothing rules it out.
- Closing the port is harmless exactly when the reader has done with its chunk before doSync tests
  flag (`SyncAssumptions.ClosingIsCleanIff`). Otherwise a file that had come whole is deleted
  (`SyncAssumptions.ClosingDuringHeader`, `SyncAssumptions.ClosingDuringLastPiece`), and in the
  first of the two cases an empty file is left under the number asked for, which the next session
  takes for the file itself and passes over.
- The kind octet of a block is protected by nothing. One flipped bit there makes a receiver that
  follows the reference take the number of block 4, 260 and so on for EOT: it acknowledges the block
  and never takes it (`Noise.KindBitLosesBlock`).
- A position record cut short is measured against the size of a heartbeat, so the last line of a
  damaged log may be made of stale octets (`LogParser.OutputIsExact` says exactly when).

## Model

| member | source | states |
|---|---|---|
| EndToEnd.FileArrivesIff | w10_pc_user/w10_pc_user/modem/ymodem.cpp:276-412 | for every image, name, conforming receiver, number of empty writes and gentle noise on the line: the result is 0 and the receiver holds exactly that file under that name, if and only if name, NUL and decimal size fit 128 octets, the image needs at most 896 packets, fewer than twenty calls were waiting, Send_Byte dropped nothing and the line damaged nothing |
| EndToEnd.OutcomeIsExact | w10_pc_user/w10_pc_user/modem/ymodem.cpp:276-412 | the result is 0 if and only if block 0 can be read, at most 896 packets are needed, fewer than twenty calls wait, Send_Byte dropped nothing and no octet of the transcript was damaged; then the file delivered is the image cut to the size the receiver read, and in every other case the receiver delivers nothing |
| EndToEnd.LongNameShortensFile | w10_pc_user/w10_pc_user/modem/ymodem.cpp:116-144 | when block 0 does not fit, the result is 0 if and only if at least one digit fits, the packets suffice, fewer than twenty calls wait and nothing was dropped or damaged; the receiver then keeps a strictly shorter file |
| EndToEnd.Update | w10_pc_user/w10_pc_user/UpdateGWatch.cpp:12-109 | the size guard admits exactly the images up to the flash size; for those, after whatever the menu dialogue left on the line, the file arrives under the five conditions above and not otherwise; with fewer than 25 empty writes nothing is dropped |
| EndToEnd.PathBuffer | w10_pc_user/w10_pc_user/UpdateGWatch.cpp:94-95 | the zeroed path buffer holds the path as a C string |
| EndToEnd.TransferWorks | w10_pc_user/w10_pc_user/modem/ymodem.cpp:276-412 | when block 0 is understood and the packets suffice, the whole plan is carried out and the file delivered if nothing is dropped or damaged; else the transfer stops short and nothing is delivered |
| EndToEnd.OpeningFails | w10_pc_user/w10_pc_user/modem/ymodem.cpp:310-319 | no transfer completes when block 0 is damaged or not understood, or twenty calls are still unread |
| FarEnd.ReadsFollowQueue | w10_pc_user/w10_pc_user/modem/ymodem.cpp:257-269 | what a wait reads is a prefix of the replies queued, one attempt per octet while any is queued |
| FarEnd.AwaitWorks | w10_pc_user/w10_pc_user/modem/ymodem.cpp:257-269 | a wait whose octet is among the next twenty replies cannot give up, and reads the queue exactly up to it |
| FarEnd.AwaitFails | w10_pc_user/w10_pc_user/modem/ymodem.cpp:257-269 | a wait whose octet is not among the next twenty replies cannot succeed |
| EndToEnd.BlocksWork | w10_pc_user/w10_pc_user/modem/ymodem.cpp:327-379 | while all blocks come through undamaged, after n of them the receiver holds exactly the first n payloads and expects number n + 1; the first damaged block ends the transfer with nothing delivered |
| EndToEnd.EotPhase | w10_pc_user/w10_pc_user/modem/ymodem.cpp:381-386 | EOT is acknowledged and ends the file; when it is dropped or damaged the wait gives up |
| EndToEnd.NullPhase | w10_pc_user/w10_pc_user/modem/ymodem.cpp:388-411 | the null block closes the batch; when an octet of its CRC is dropped or the block is damaged the last wait gives up |
| EndToEnd.SilenceIsGentle | w10_pc_user/w10_pc_user/modem/ymodem.cpp:276-412 | a line that damages nothing is among those the results above are about |
| FarEnd.PromptConforms | w10_pc_user/w10_pc_user/modem/ymodem.cpp:257-269 | the assumption about the far end can be met: answering at once is conforming |
| Noise.SpoiltBlockIsRefused | w10_pc_user/w10_pc_user/modem/ymodem.cpp:330-344 | a block damaged in at most three bits, an odd number of bits or within sixteen consecutive bits, anywhere behind its kind octet, is refused with NAK and changes nothing else, whatever is expected |
| Noise.DamagedFrame | w10_pc_user/w10_pc_user/modem/ymodem.cpp:297-301 | such a block never passes number, complement and CRC as the block it was |
| Noise.HeadDamageIsEven | w10_pc_user/w10_pc_user/modem/ymodem.cpp:162-163 | damage to number and complement that leaves them complementary has an even number of bits |
| Noise.GentleDamage | w10_pc_user/w10_pc_user/modem/ymodem.cpp:330-344 | in terms of the bits flipped: noise that leaves the kind octet alone and flips at most three bits behind it, an odd number, or only bits within sixteen consecutive ones, is among the noise the results are about |
| Noise.KindBitLosesBlock | w10_pc_user/w10_pc_user/modem/ymodem.cpp:330-344 | one flipped bit in the kind octet is enough when the number of the block travels as EOT: the block is acknowledged and never taken |
| Sender.Transmit | w10_pc_user/w10_pc_user/modem/ymodem.cpp:276-412 | for every reply stream: what is added to the log is a run of the fixed plan, complete for result 0, stopped at the first wait that gave up or at the block limit for 0xFF; after each block the number posted is the percentage of the octets carried so far, rising, within 100 and 100 at the last block only |
| Sender.SendHeader | w10_pc_user/w10_pc_user/modem/ymodem.cpp:287-319 | block 0, its ACK, then the request for CRC mode, or a stop at the wait that gave up |
| Sender.SendBlocks | w10_pc_user/w10_pc_user/modem/ymodem.cpp:320-379 | each block is sent once and acknowledged before the next, until the image or the block numbers run out; terminates on the octets left |
| Sender.SendEnd | w10_pc_user/w10_pc_user/modem/ymodem.cpp:381-411 | EOT, ACK, null block, ACK, or a stop at the wait that gave up |
| Sender.BuildHeader | w10_pc_user/w10_pc_user/modem/ymodem.cpp:287-301 | the buffer holds block 0 as section 5 of the XMODEM/YMODEM Protocol Reference describes it, CRC included, whatever was in it before |
| Sender.BuildBlock | w10_pc_user/w10_pc_user/modem/ymodem.cpp:330-344 | the buffer holds the next data frame: kind, number modulo 256, complement, payload, CRC |
| Sender.BuildNull | w10_pc_user/w10_pc_user/modem/ymodem.cpp:388-403 | the closing block of zeros, and its CRC split into the two octets sent singly |
| Sender.CopyName | w10_pc_user/w10_pc_user/modem/ymodem.cpp:287-290 | the first 255 octets are copied; the last octet of the array, and the one behind it, hold anything |
| Sender.SendPacket | w10_pc_user/w10_pc_user/modem/ymodem.cpp:244-255 | however the port splits the writes, exactly data[0..length) goes out, in order and without repeats; terminates on what is left |
| Sender.SendByte | w10_pc_user/w10_pc_user/modem/ymodem.cpp:101-114 | the octet goes out within 25 attempts, or nothing does; the caller is not told which |
| Sender.ReceiveByte | w10_pc_user/w10_pc_user/modem/ymodem.cpp:85-99 | one octet after fewer than `timeout` silent reads, or `timeout` silent reads |
| Sender.WaitForChar | w10_pc_user/w10_pc_user/modem/ymodem.cpp:257-269 | success if and only if the octet is read within twenty attempts, an attempt being an octet or 500 silent reads |
| Sender.SlowReplyIsHeardIff | w10_pc_user/w10_pc_user/modem/ymodem.cpp:257-269 | a reply after n silent reads is heard if and only if n is below 10000; a wait gives up on silence after exactly 10000 reads |
| Sender.LateReplyIsHeardIff | w10_pc_user/w10_pc_user/modem/ymodem.cpp:257-269 | a reply after n other octets is heard if and only if n is below 20; 20 of them use up a wait |
| Sender.TwentyFiveWrites | w10_pc_user/w10_pc_user/modem/ymodem.cpp:101-114 | Send_Byte goes through if and only if fewer than 25 writes came back empty first |
| Sender.PercentIsTrue | w10_pc_user/w10_pc_user/modem/ymodem.cpp:378 | up to the block limit the number posted is the percentage of the image acknowledged, rounded down |
| Sender.PercentRises | w10_pc_user/w10_pc_user/modem/ymodem.cpp:378 | it rises with what is acknowledged, and is 100 exactly when all of it is |
| Sender.AckedIsCarried | w10_pc_user/w10_pc_user/modem/ymodem.cpp:359-376 | what counts as acknowledged after k blocks is what their payloads hold, filler aside |
| Transcript.WireIsPrefix | w10_pc_user/w10_pc_user/modem/ymodem.cpp:276-412 | for every reply stream, with no octet dropped, the line holds a prefix of the transcript, and all of it for result 0 |
| Transcript.TranscriptShape | w10_pc_user/w10_pc_user/modem/ymodem.cpp:276-412 | the transcript is block 0, blocks 1 to N once each in order, EOT, null block; past 896 blocks only its first part |
| Transcript.PlanInOctets | w10_pc_user/w10_pc_user/modem/ymodem.cpp:276-412 | with all constants written out: block 0, waits for 0x06 and 0x43; block k with kind 0x02 or 0x01 by its length, number k modulo 256, 255 less that, payload and CRC, a wait for 0x06 each; 0x04, 0x06, then 01 00 FF, 128 zeros and two zeros, 0x06 |
| Transcript.ZeroIffCompleted | w10_pc_user/w10_pc_user/modem/ymodem.cpp:276-412 | the result is 0 if and only if every action of the plan was carried out and the image needs at most 896 packets |
| Transcript.GuardFiresIff | w10_pc_user/w10_pc_user/modem/ymodem.cpp:359-371 | when no wait fails the result is 0xFF exactly past 896 packets; never up to 911232 octets, nor for whole kilobytes up to the flash size |
| Transcript.CompleteIffNothingDropped | w10_pc_user/w10_pc_user/modem/ymodem.cpp:101-114 | a finished transfer is on the line in full if and only if Send_Byte never gave up |
| Transcript.DropsCostWrites | w10_pc_user/w10_pc_user/modem/ymodem.cpp:101-114 | every octet dropped has cost 25 empty writes |
| Losses.LossGoesUnnoticedIff | w10_pc_user/w10_pc_user/modem/ymodem.cpp:381-411 | for each choice of EOT and the two CRC octets of the null block: against a far end that acknowledges whatever it gets, a run can end with result 0 and just those octets missing from the line, if and only if there can be 25 empty writes for each |
| Losses.OnlyOthersAreFooled | w10_pc_user/w10_pc_user/modem/ymodem.cpp:381-411 | no conforming receiver is deceived, noise or not: a run with result 0 that left something out had another far end |
| Losses.LossOnLine | w10_pc_user/w10_pc_user/modem/ymodem.cpp:381-404 | what such a run leaves on the line |
| Losses.LossCosts | w10_pc_user/w10_pc_user/modem/ymodem.cpp:101-114 | and how many empty writes it took |
| Transcript.WireLength | w10_pc_user/w10_pc_user/modem/ymodem.cpp:276-412 | at every point the line is short of what was to be sent by exactly the octets dropped |
| Transcript.NoBlockBeforeAck | w10_pc_user/w10_pc_user/modem/ymodem.cpp:310-358 | at every moment of every run: if anything is on the line beyond blocks 0 to k, block k + 1 or EOT, an ACK was read after the last octet of block k went out and before the first one beyond it; for k = 0 a C after that ACK |
| Transcript.NoNullBlockBeforeAck | w10_pc_user/w10_pc_user/modem/ymodem.cpp:381-398 | unless Send_Byte gave up on EOT, the null block starts only after an ACK read behind it |
| Transcript.StopAndWait | w10_pc_user/w10_pc_user/modem/ymodem.cpp:257-269 | once an octet of an action is on the line, each wait before it was answered at a point of the log where just what precedes the wait had been sent |
| SerialPort.Port.constructor | w10_pc_user/w10_pc_user/modem/ymodem.cpp:15-18 | a port with an empty log |
| SerialPort.Port.Read | w10_pc_user/w10_pc_user/modem/ymodem.cpp:25-32 | a one-octet read: the far end's answer, or silence; false and no trace on a closed port |
| SerialPort.Port.Write | w10_pc_user/w10_pc_user/modem/ymodem.cpp:34-41 | a write: some prefix of the data is accepted and is what the log records |
| Packets.PrepareInitialPacket | w10_pc_user/w10_pc_user/modem/ymodem.cpp:116-144 | header and payload of block 0 in place: name, NUL, decimal size, zeros, cut at 128 octets |
| Packets.PutName | w10_pc_user/w10_pc_user/modem/ymodem.cpp:126-130 | the name up to its NUL, or to the end of the name array, goes behind the head |
| Packets.SameHeader | w10_pc_user/w10_pc_user/modem/ymodem.cpp:287-290 | names that agree in the 255 octets copied give the same block 0, whatever the array holds behind them |
| Packets.CopyDigits | w10_pc_user/w10_pc_user/modem/ymodem.cpp:135-138 | the digits up to their NUL are appended |
| Packets.ZeroFill | w10_pc_user/w10_pc_user/modem/ymodem.cpp:140-143 | the rest of the 128 octets is zero, if there is a rest |
| Packets.PreparePacket | w10_pc_user/w10_pc_user/modem/ymodem.cpp:146-178 | head and payload of a data block in place: 1024 octets while they last, else 128, the last padded |
| Packets.CopyPayload | w10_pc_user/w10_pc_user/modem/ymodem.cpp:164-170 | the octets of the image go behind the head, head kept |
| Packets.Pad | w10_pc_user/w10_pc_user/modem/ymodem.cpp:171-177 | the filler 0x1A behind the data, the octets before and after kept |
| Packets.PayloadsCarryImage | w10_pc_user/w10_pc_user/modem/ymodem.cpp:146-178 | the payloads together are the image followed by fewer than 128 fillers 0x1A |
| Packets.PayloadSizes | w10_pc_user/w10_pc_user/modem/ymodem.cpp:152 | every payload has one of the two legal sizes |
| Packets.PayloadCount | w10_pc_user/w10_pc_user/modem/ymodem.cpp:327-376 | the number of blocks is size / 1024 + ceil((size mod 1024) / 128) |
| Packets.CountBound | w10_pc_user/w10_pc_user/modem/ymodem.h:36-42 | up to 911232 octets, and for whole kilobytes up to the flash size exactly, 896 packets are enough; 911233 octets are too many |
| Packets.NumberAndComplement | w10_pc_user/w10_pc_user/modem/ymodem.cpp:162-163 | octets 1 and 2 of a block sum to 255 |
| Packets.DataFrameOctets | w10_pc_user/w10_pc_user/modem/ymodem.cpp:146-178 | how a data block begins: kind by length, number modulo 256, 255 less that |
| Decimal.Int2Str | w10_pc_user/w10_pc_user/modem/ymodem.cpp:64-83 | for every 32-bit value, read as unsigned: the canonical numeral, and the rest of the zeroed buffer stays zero |
| Decimal.DigitsAreAscii | w10_pc_user/w10_pc_user/modem/ymodem.cpp:70 | digit d is written as 48 + d |
| Decimal.PutDigit | w10_pc_user/w10_pc_user/modem/ymodem.cpp:70-81 | a leading zero is overwritten by the next digit, any other digit is kept |
| Decimal.SplitDigit | w10_pc_user/w10_pc_user/modem/ymodem.cpp:70-73 | each pass keeps prefix * 10^k + remainder equal to the number |
| Decimal.NumeralValue | w10_pc_user/w10_pc_user/modem/ymodem.cpp:64-83 | the numeral written denotes the number |
| Decimal.NumeralUnique | w10_pc_user/w10_pc_user/modem/ymodem.cpp:64-83 | it is the only digit string without leading zeros that does |
| Crc16.CrcIsRemainder | w10_pc_user/w10_pc_user/modem/ymodem.cpp:180-219 | for messages of every length, the CRC is the remainder of M(x) * x^16 by x^16 + x^12 + x^5 + 1, and no other register is (section 8.1 of the XMODEM/YMODEM Protocol Reference) |
| Crc16.CalCRC16 | w10_pc_user/w10_pc_user/modem/ymodem.cpp:207-219 | the code computes that CRC |
| Crc16.UpdateCRC16 | w10_pc_user/w10_pc_user/modem/ymodem.cpp:180-198 | one octet is shifted through the division register |
| Crc16.ShiftOctet | w10_pc_user/w10_pc_user/modem/ymodem.cpp:185-195 | the loop does so in the low sixteen bits, whatever is above them |
| Crc16.ShiftPass | w10_pc_user/w10_pc_user/modem/ymodem.cpp:187-192 | modulo 2^16 one pass is one step of polynomial division, junk above bit 15 notwithstanding |
| Crc16.SentinelBits | w10_pc_user/w10_pc_user/modem/ymodem.cpp:183-195 | the guard bit ends the loop after exactly eight passes, which present the octet most significant bit first |
| Crc16.BurstChangesCrc | w10_pc_user/w10_pc_user/modem/ymodem.cpp:180-219 | messages that differ only within sixteen consecutive bits have different CRCs |
| Crc16.CrcKeepsParity | w10_pc_user/w10_pc_user/modem/ymodem.cpp:180-219 | the CRC has the parity of the message |
| Crc16.OddErrorChangesCrc | w10_pc_user/w10_pc_user/modem/ymodem.cpp:180-219 | an odd number of flipped bits always changes the CRC |
| Crc16.ResidueZeroIffTrailer | w10_pc_user/w10_pc_user/modem/ymodem.cpp:207-219 | payload and two octets leave residue zero if and only if they are its CRC, high octet first |
| Crc16.SplitIsTrailer | w10_pc_user/w10_pc_user/modem/ymodem.cpp:299-301 | the two octets the sender appends are that trailer |
| Crc16.BurstIsRejected | w10_pc_user/w10_pc_user/modem/ymodem.cpp:299-301 | damage within sixteen consecutive bits of a sent payload and trailer never passes the check |
| Crc16.OddErrorIsRejected | w10_pc_user/w10_pc_user/modem/ymodem.cpp:299-301 | nor does an odd number of flipped bits |
| CrcDistance.TwoBitErrorUnseenIff | w10_pc_user/w10_pc_user/modem/ymodem.cpp:180-219 | for messages of every length, two flipped bits leave the CRC as it was if and only if 32767 divides their distance |
| CrcDistance.SmallErrorIsRejected | w10_pc_user/w10_pc_user/modem/ymodem.cpp:342-344 | one, two or three flipped bits in payload or trailer never pass the check of a block of up to 4095 octets |
| CrcDistance.GeneratorErrorPasses | w10_pc_user/w10_pc_user/modem/ymodem.cpp:342-344 | four flipped bits in the pattern of the generator do, wherever they are |
| CrcDistance.CycleIff | w10_pc_user/w10_pc_user/modem/ymodem.cpp:180-219 | x has order exactly 32767 modulo the generator |
| CrcDistance.TimesPower | w10_pc_user/w10_pc_user/modem/ymodem.cpp:215-216 | shifting zeros in is multiplication by a power of x |
| Gf2.DivisionIsUnique | w10_pc_user/w10_pc_user/modem/ymodem.cpp:180-219 | quotient and remainder by the generator are determined by the dividend |
| Gf2.LongDivision | w10_pc_user/w10_pc_user/modem/ymodem.cpp:180-219 | the shift register performs long division |
| Receiver.HeaderRoundTrip | w10_pc_user/w10_pc_user/modem/ymodem.cpp:116-144 | reading block 0 back gives name and size if and only if they fit; any other reading has a smaller size |
| Receiver.ReadableIff | w10_pc_user/w10_pc_user/modem/ymodem.cpp:116-144 | block 0 can be read back at all if and only if there is a name and room for one digit |
| Receiver.FrameArrives | w10_pc_user/w10_pc_user/modem/ymodem.cpp:299-302 | the receiver takes a frame of the sender as its number and payload |
| Receiver.ExpectedIsSent | w10_pc_user/w10_pc_user/modem/ymodem.cpp:322-375 | a receiver that counts up an octet from 1 expects the number the sender puts on each block |
| Receiver.RepliesGrow | w10_pc_user/w10_pc_user/modem/ymodem.cpp:257-269 | the receiver only ever adds replies |
| ReadComm.GetTagIndex | w10_pc_user/w10_pc_user/CosmosReadCommProc.cpp:69-77 | the first tag of the list that occurs in the text, 4 for none |
| ReadComm.TagIndex | w10_pc_user/w10_pc_user/CosmosReadCommProc.cpp:69-77 | the tag found occurs, and none before it in the list does |
| ReadComm.FcheckIsNeverSeen | w10_pc_user/w10_pc_user/CosmosReadCommProc.cpp:63-68 | every FCHECK reply is taken for a CHECK reply |
| ReadComm.ContainsIff | w10_pc_user/w10_pc_user/CosmosReadCommProc.cpp:69-77 | strstr finds a pattern if and only if the text is something, the pattern, and something |
| ReadComm.TagsAreSpelt | w10_pc_user/w10_pc_user/CosmosReadCommProc.cpp:63-68 | the four tags, letter by letter, in this order |
| ReadComm.IgnoredIff | w10_pc_user/w10_pc_user/CosmosReadCommProc.cpp:109-125 | a chunk is dropped without a trace if and only if, before its first NUL, CHECK occurs anywhere and so does a comma |
| ReadComm.ContentIff | w10_pc_user/w10_pc_user/CosmosReadCommProc.cpp:109-160 | a chunk is taken for a piece of the file if and only if there is no comma, or none of CHECK, FSIZE and FREAD occurs |
| ReadComm.NulEndsText | w10_pc_user/w10_pc_user/CosmosReadCommProc.cpp:81-110 | what comes behind a NUL does not matter |
| ReadComm.StrtolReads | w10_pc_user/w10_pc_user/CosmosReadCommProc.cpp:136-142 | for every text: blanks are skipped, a sign is taken, digits are read up to the first octet that is none, and the value is limited to a 32-bit long |
| ReadComm.TakeApart | w10_pc_user/w10_pc_user/CosmosReadCommProc.cpp:136-142 | every text can be taken apart so |
| ReadComm.HeaderIsRead | w10_pc_user/w10_pc_user/CosmosReadCommProc.cpp:109-145 | an FREAD reply with any quiet text before the tag and behind the number: the size is what strtol reads behind the comma, a negative one modulo 2^32 |
| ReadComm.SizeIsRead | w10_pc_user/w10_pc_user/CosmosReadCommProc.cpp:133-137 | an FSIZE reply likewise, even with FREAD in it |
| ReadComm.PrintedSizeIsRead | w10_pc_user/w10_pc_user/CosmosReadCommProc.cpp:109-145 | a header printed for any size is read back as that size, or as the largest 32-bit long if it is larger |
| ReadComm.NegativeSizeIsHuge | w10_pc_user/w10_pc_user/CosmosReadCommProc.cpp:109-145 | a negative size is taken for one just below 2^32 |
| ReadComm.RateIsTrueIff | w10_pc_user/w10_pc_user/CosmosReadCommProc.cpp:164 | the rate computed from any state is the true percentage, rounded down, if and only if a hundred times the count fits 32 bits |
| Sync.RateTellsProgressIff | w10_pc_user/w10_pc_user/CosmosReadCommProc.cpp:161-164 | in every reachable state right after a piece: the rate is the percentage of all that was sent since the header in the size announced, if and only if a hundred times the octets sent fit 32 bits |
| SyncAssumptions.CountWraps | w10_pc_user/w10_pc_user/CosmosReadCommProc.cpp:163 | in every run whatever the count is that of the octets written since the last header, modulo 2^32 |
| ReadComm.FileComesThrough | w10_pc_user/w10_pc_user/CosmosReadCommProc.cpp:81-180 | a header and the pieces of a file, whatever state they find: the numbered file holds just these octets, an earlier one of that number is gone, no other has changed, and it is closed with flag 3 |
| ReadComm.ReadProc.constructor | w10_pc_user/w10_pc_user/CosmosReadCommProc.cpp:6-11 | flag 0, no file |
| ReadComm.ReadProc.InitFile | w10_pc_user/w10_pc_user/CosmosReadCommProc.cpp:17-31 | the last handle is closed, the numbered file is created empty or the handle is invalid |
| ReadComm.ReadProc.DeinitFile | w10_pc_user/w10_pc_user/CosmosReadCommProc.cpp:44-49 | no open file |
| ReadComm.ReadProc.DeleteLastFile | w10_pc_user/w10_pc_user/CosmosReadCommProc.cpp:51-56 | closed, and the last file named is gone |
| ReadComm.ReadProc.WriteFile | w10_pc_user/w10_pc_user/CosmosReadCommProc.cpp:162 | an append of what was accepted, on an open handle only |
| ReadComm.ReadProc.TakeReply | w10_pc_user/w10_pc_user/CosmosReadCommProc.cpp:120-158 | FSIZE sets the size; FREAD of zero sets flag 1; FREAD of more sets flag 2, the file yet to be opened |
| ReadComm.ReadProc.TakeContent | w10_pc_user/w10_pc_user/CosmosReadCommProc.cpp:159-171 | with flag 2 the octets are appended and counted modulo 2^32; when the announced size is reached the file is yet to be closed; a size of zero divides by zero |
| ReadComm.ReadProc.ProcStart | w10_pc_user/w10_pc_user/CosmosReadCommProc.cpp:81-164 | the whole new state after any chunk, whatever it contains, up to opening or closing the file |
| ReadComm.ReadProc.ProcEnd | w10_pc_user/w10_pc_user/CosmosReadCommProc.cpp:150-167 | the file is opened under the name dwName has then, or closed and flag 3 set |
| ReadComm.ReadProc.Proc | w10_pc_user/w10_pc_user/CosmosReadCommProc.cpp:81-180 | the two together |
| Sync.SyncIsCorrect | w10_pc_user/w10_pc_user/MainProcFunc.cpp:118-219 | over every interleaving and any number of sessions: no crash, no kept file touched, nothing partial left when stopped, only missing files requested, every file parsed is the one requested and is, octet for octet, the untagged chunks the watch had sent since its header up to the piece that reached the announced size, numbers rise and never repeat |
| Sync.FlagTellsFile | w10_pc_user/w10_pc_user/CosmosReadCommProc.cpp:108-174 | in every reachable state flag 2 with an open file means it holds all untagged chunks sent since the header, fewer octets than announced until the last piece; flag 3 means it is closed and holds those octets up to the piece that reached the size, less than a chunk more |
| Sync.OnlyWholeFilesAreKept | w10_pc_user/w10_pc_user/CosmosReadCommProc.cpp:159-168 | a file counts as downloaded only on reaching its announced size, under a number not there before |
| Sync.StepKeeps | w10_pc_user/w10_pc_user/MainProcFunc.cpp:157-218 | every step of either thread keeps the invariant |
| Sync.RunKeeps | w10_pc_user/w10_pc_user/MainProcFunc.cpp:157-218 | every step of the sync thread does |
| Sync.HeaderKeeps | w10_pc_user/w10_pc_user/CosmosReadCommProc.cpp:139-149 | the header that answers a request does |
| Sync.OpenKeeps | w10_pc_user/w10_pc_user/CosmosReadCommProc.cpp:150 | opening the file does |
| Sync.CloseKeeps | w10_pc_user/w10_pc_user/CosmosReadCommProc.cpp:165-168 | closing it does, and only that adds to the files kept |
| Sync.ContentKeeps | w10_pc_user/w10_pc_user/CosmosReadCommProc.cpp:159-171 | a piece of a file does, including the last |
| FileFetch.FileIsFetched | w10_pc_user/w10_pc_user/MainProcFunc.cpp:165-194 | pieces of arbitrary octets, none read as FREAD or FSIZE, in every admissible interleaving with the loop: once they have come, the file is with the parser octet for octet within four steps of the loop, and on disk, if and only if no piece is taken for a CHECK reply; otherwise it never is |
| FileFetch.OnePieceRun | w10_pc_user/w10_pc_user/MainProcFunc.cpp:165-187 | such interleavings exist |
| Session.SessionFetchesAll | w10_pc_user/w10_pc_user/MainProcFunc.cpp:157-218 | in every admissible interleaving with a watch that answers each request, a session that ends has asked for and parsed exactly the numbers missing on this side, in order and once each, up to the first number neither side has; all before that are on disk as the watch sent them or as they were, and nothing else has changed |
| Session.SessionsNeverStick | w10_pc_user/w10_pc_user/MainProcFunc.cpp:157-218 | wherever such a session is, it can go on to its end |
| Session.StageRuns | w10_pc_user/w10_pc_user/MainProcFunc.cpp:157-210 | a step of the loop leaves the session at its number or takes it to the next when the answer has come whole |
| Session.KeptAtHas | w10_pc_user/w10_pc_user/MainProcFunc.cpp:165-186 | what is on disk when the session comes to a number |
| Sync.FirstMissingIsAskedFor | w10_pc_user/w10_pc_user/MainProcFunc.cpp:157-186 | left alone with flag 0, the loop passes over every number on disk and asks for the first that is not |
| Sync.NothingMissingEnds | w10_pc_user/w10_pc_user/MainProcFunc.cpp:157-210 | with all numbers up to 999999 on disk it asks for nothing and ends |
| SyncAssumptions.LateHeaderParsesFileOne | w10_pc_user/w10_pc_user/MainProcFunc.cpp:148-217 | a header that comes after its session makes the next one parse file 1: right only if number 1 had been asked for |
| SyncAssumptions.EarlyLookEndsSession | w10_pc_user/w10_pc_user/MainProcFunc.cpp:197-217 | a look before the header has come ends the session without the file |
| SyncAssumptions.GivesUpIff | w10_pc_user/w10_pc_user/MainProcFunc.cpp:165-205 | three steps after looking, the loop is about to give up if and only if flag was 1 |
| SyncAssumptions.CrashesIff | w10_pc_user/w10_pc_user/CosmosReadCommProc.cpp:133-164 | with nothing assumed of the watch, the port or the order of the steps: the reader divides by zero if and only if a piece is written to an open file while the last size told, by FREAD or FSIZE, was that of an FSIZE 0 |
| SyncAssumptions.AfterIsWent | w10_pc_user/w10_pc_user/CosmosReadCommProc.cpp:133-164 | the admissible runs are among those runs |
| SyncAssumptions.FsizeCrashesIff | w10_pc_user/w10_pc_user/CosmosReadCommProc.cpp:133-164 | an FSIZE reply during a download makes the next piece divide by zero if and only if it says zero |
| SyncAssumptions.ClosingIsCleanIff | w10_pc_user/w10_pc_user/MainProcFunc.cpp:157-217 | wherever the rest of the reader falls: closing the port leaves just the whole files, flag 0 and no open file if and only if the reader has done with its chunk before flag is tested |
| SyncAssumptions.ClosingDuringHeader | w10_pc_user/w10_pc_user/CosmosReadCommProc.cpp:147-151 | else, between setting flag 2 and opening the file: the file before, which had come whole, is deleted, an empty one is left open under the number asked for, and the next session passes it over |
| SyncAssumptions.ClosingDuringLastPiece | w10_pc_user/w10_pc_user/MainProcFunc.cpp:212-217 | else, between the last write and flag 3: the whole file is deleted, and if flag 3 is stored after the end the next session parses file 1, right only if that was the number, and then the file is gone |
| Sync.SyncThread.constructor | w10_pc_user/w10_pc_user/MainProcFunc.cpp:13-14 | the state at program start |
| Sync.SyncThread.Begin | w10_pc_user/w10_pc_user/MainProcFunc.cpp:147-150 | a session starts at number 1 |
| Sync.SyncThread.Run | w10_pc_user/w10_pc_user/MainProcFunc.cpp:157-218 | each test and assignment of the loop does what its step says, and no more |
| Sync.SyncThread.Receive | w10_pc_user/w10_pc_user/ComIO.cpp:120-135 | the first half of one chunk, at the state the sync thread left |
| Sync.SyncThread.FinishChunk | w10_pc_user/w10_pc_user/CosmosReadCommProc.cpp:150-167 | the second half |
| TrailingSpace.SkipTrailingSpace | w10_pc_user/w10_pc_user/sql_api/m_string.h:368-392 | for every address, length, content and word size 4 or 8: the position of the plain octet scan; every word read is aligned and inside the string |
| TrailingSpace.SkipTail | w10_pc_user/w10_pc_user/sql_api/m_string.h:382-383 | octets down to the last word boundary |
| TrailingSpace.SkipWords | w10_pc_user/w10_pc_user/sql_api/m_string.h:384-386 | whole words of spaces down to the first word boundary |
| TrailingSpace.SkipOctets | w10_pc_user/w10_pc_user/sql_api/m_string.h:389-391 | the remaining octets, stopping at the first that is no space |
| TrailingSpace.TrimmedIff | w10_pc_user/w10_pc_user/sql_api/m_string.h:363-366 | the plain scan stops at the only position with spaces behind it and no space before it |
| TrailingSpace.WordIsSpaces | w10_pc_user/w10_pc_user/sql_api/m_string.h:385 | a word equals SPACE_INT exactly when all its octets are spaces |
| TrailingSpace.SpaceInts | w10_pc_user/w10_pc_user/sql_api/m_string.h:325-332 | the two constants |
| TrailingSpace.Down | w10_pc_user/w10_pc_user/sql_api/m_string.h:374-375 | the last word boundary not above the end |
| TrailingSpace.Up | w10_pc_user/w10_pc_user/sql_api/m_string.h:376-377 | the first word boundary not below the start |
| LogParser.OutputIsExact | w10_pc_user/w10_pc_user/CosmosParser.cpp:86-156 | for any octets at all: one line per complete position record with a fix, in order, and one more exactly when the file ends in a position record cut short but not below the heartbeat size, and the patched record passes the test |
| LogParser.TypedLog | w10_pc_user/w10_pc_user/CosmosParser.cpp:86-156 | a log of whole records of the seven kinds, each behind its own tag octet and with the length of its own kind, and of unknown tags: exactly one line per position with a fix, in order |
| LogParser.TypedLogCutShort | w10_pc_user/w10_pc_user/CosmosParser.cpp:86-156 | the same with a last record cut short: one line more exactly when that is a position record of at least the length of a heartbeat and, completed from the buffer, passes for a fix |
| LogParser.SizeOfKind | w10_pc_user/w10_pc_user/CosmosParser.cpp:92-155 | the length read behind a tag is that of its own kind |
| LogParser.WholeLog | w10_pc_user/w10_pc_user/CosmosParser.cpp:86-156 | a log of complete records gives exactly one line per fix, in order, whatever the buffer held |
| LogParser.LinesOfRecords | w10_pc_user/w10_pc_user/CosmosParser.cpp:86-156 | the same for complete records followed by anything |
| LogParser.FailedWriteCuts | w10_pc_user/w10_pc_user/CosmosParser.cpp:103-155 | what is written is the full output cut at the first write that failed |
| LogParser.NoLinesWhenGpsIsSmaller | w10_pc_user/w10_pc_user/CosmosParser.cpp:96-97 | were a position record smaller than a heartbeat, no line would ever be written |
| LogParser.SplitIsExact | w10_pc_user/w10_pc_user/CosmosParser.cpp:86-156 | any octets are complete records and a truncated one |
| LogParser.SplitOfEncode | w10_pc_user/w10_pc_user/CosmosParser.cpp:86-156 | and in just one way |
| LogParser.ParseBody | w10_pc_user/w10_pc_user/CosmosParser.cpp:86-156 | the loop writes those lines; it terminates, every turn reading at least one octet |
| LogParser.Turn | w10_pc_user/w10_pc_user/CosmosParser.cpp:86-155 | one turn: either the loop ends or the position has moved on |
| LogParser.TakeRecord | w10_pc_user/w10_pc_user/CosmosParser.cpp:92-155 | the switch: what is read behind each tag and whether the loop goes on |
| LogParser.TakePosition | w10_pc_user/w10_pc_user/CosmosParser.cpp:95-111 | a position record: measured, tested, written |
| LogParser.ReadFile | w10_pc_user/w10_pc_user/CosmosParser.cpp:94 | as many octets as there are, over the front of a buffer that keeps the rest |
| LogParser.DoParseFile | w10_pc_user/w10_pc_user/CosmosParser.cpp:22-162 | no report without a whole header; else its summary, the mode letter R, B, S, P or O and the lines of the body |

## Left out

- SerialPort.Port.Write: the calls fail exactly when no port was opened (ymodem.cpp:25-41), which cannot change during a transfer, so `open` is constant; a device error shows as a write of length zero or a silent read. The NUL that ComIO stores behind what it sends is not modelled.
- Sender.SendPacket: writes of length zero are limited in number (`stalls`) but otherwise free; without a limit the source's loop need not end.
- EndToEnd.FileArrivesIff: assumes a reply within 500 polls, replies that come undamaged, and gentle noise: no octet lost on the line, kind octets intact, and behind them at most three bits, an odd number of bits or sixteen consecutive bits of a block. `Noise.KindBitLosesBlock` and `CrcDistance.GeneratorErrorPasses` show why more noise is too much.
- Packets.PrepareInitialPacket: sizes from 10^9 on, whose ten digits leave the digit buffer without its NUL, so that the copying loop runs past its end and the source gives block 0 no defined content; the size guard of doUpdate keeps far below.
- Sender.BuildHeader: the same sizes, for the same reason.
- Sender.SendHeader: the same sizes, for the same reason.
- Sender.Transmit: the same sizes, for the same reason.
- Transcript.WireIsPrefix: runs in which Send_Byte gave up, after which the line lacks an octet and is no prefix; `Losses` is about those.
- Sync.SyncThread.Receive: within each half of proc the reader thread is not interrupted; the halves meet where the file is opened or closed, which is where the order of its stores can be seen by doSync. The two share no lock in the source.
- ReadComm.ReadProc.DeleteLastFile: DeleteFile is taken to succeed.
- Session.SessionFetchesAll: sessions in which the port closes, a file cannot be created or a write falls short; `Sync.SyncIsCorrect` covers what those may leave behind.
- Sync.SyncIsCorrect: a second sync thread started while one is running; the user interface hides its button.
- LogParser.ReadFile: reads that fail although the file has more to give.
- LogParser.TakePosition: a line written in part; a write succeeds whole or not at all.
- Formatting of coordinates, dates and the two summary lines of a report; Storage.h, which gives the record layouts, is not part of this model, hence sizes, fix test and mode as parameters.
- The checksum branch of Ymodem_Transmit (CalChecksum), unreachable since CRC16_F is set to 1.
- ComIO, BCB2WIN and the Win32 calls below them; only the chunk limit of 1024 octets is taken from them.
- Opening the port in doSync, checkComm and CosmosSpp::RequestFrom, which probe or do nothing more.
- The menu dialogue of doUpdate around the transfer, and its reading of the image file.
- The branches compiled out (__COSMOS_MIN_DOWNLOAD_PROC__, __DIRECTLY_SQL__), Unit1.cxx, the user interface and its messages; of the progress bar the numbers posted are kept.
- The other headers under sql_api, which declare a library that is not part of this model.
