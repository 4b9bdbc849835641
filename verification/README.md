# espBode, modelled in Dafny

espBode sits between an oscilloscope and a serial signal generator. The oscilloscope
asks a port mapper for the port of the VXI server, opens a link there, and writes
SCPI lines inside VXI-11 packets. The parser turns a line into calls that set one
parameter of one channel, and a driver quantises each value, sends it to the
generator, reads it back and retries. A debug stream and a telnet console stand beside.

The code changes buffers and fields in place, and so does the model: the request is
tokenized in the array it was received in, replies are assembled in a shared send
buffer, and the servers, the driver, the debug stream and the telnet reader are
classes. Each method is proved against a pure specification, and what the program is
for is proved about the specification.

| module | models |
|---|---|
| Octets, Tokenizer, Numbers | big-endian words, `strtok_r`, `pow10`, printing and `sscanf` |
| Scpi, Grammar | the tables and the meaning of a SCPI line; the documented grammar |
| RpcPackets, PacketBuffers, VxiRequests | replies and frames, the buffers, the requests |
| VxiServer, BindServer, Cyclic, LinkProtocol | the two servers, the port counter, and their protocol |
| Turns, EspBode | the main loop: what turns make of the servers, and the servers taking them from power-up |
| AwgFy, Fy6900, Bridge | the driver with its retry loop, a generator that follows its documentation, and the way from a request to it |
| HexDump, DebugStream, Telnet | the hex dump, the filtered line buffer, the line reader |

The main results:

- `VxiServer.VxiServer.ParseScpi`: three nested in-place tokenizers that share one
  buffer issue exactly the calls of a parser that splits the text once at each level.
  `Grammar.RoundTrip`: that parser undoes printing.
- `Bridge.DriveWrite` with `Bridge.EndToEnd`: a DEV_WRITE with a printed line, parsed
  and driven, leaves the generator with the settings of the line and the other channel
  as it was, whatever it answers in between.
- `VxiServer.VxiServer.Dispatch` with `VxiRequests.OneReply`: what goes out for a request
  is the one sequence of bytes that its words ask for.
- `EspBode.PowerUp`: from power-up, over any turns of the main loop, the two servers go
  through the moments of a run. `Turns.LinkAnswers`: after every turn the n-th record
  on the link answers the n-th request its client sends. `Turns.AnnouncedPort`,
  `LinkProtocol.GivenPortIsAccepted` and `LinkProtocol.TenLinksDiffer`: the announced
  port is the one the next client comes in on, and any ten consecutive links use
  different ports.
- `AwgFy.AwgFy.Set`: the retry loop against a generator that may answer anything;
  `Fy6900.SetStored`: against one that answers faithfully, it verifies on the first try.
- `Telnet.CutHarmless`, `Telnet.IncrementalIsWhole`: where a batch of telnet bytes may
  end without changing the lines, and that reading piecemeal is then reading at once.
  `Telnet.ToggleExact`: the lines that switch passthrough, character by character.
- `DebugStream.DebugStream.Write`, `HexDump.DumpRoundTrip`: the buffered stream is the
  unbuffered one, and a dump can be read back; `HexDump.DumpCharacter`,
  `HexDump.DumpHexCell` and `HexDump.DumpGaps`: every character of it.

A byte is a character below 256, because the source sees the same array as packet data
and as C strings. Values are exact reals. A variable that the C code has not assigned
is `None`.

Where the code and its documentation disagree, the model follows the code:

- scpi.h:87 gives -1.375 as an offset, but awg_fy.cpp:73 casts the scaled value to an
  unsigned integer, which is not defined for it: `AwgFy.DocumentedOffset`, and
  `AwgFy.Quantisable` for exactly which values are served.
- awg_fy.cpp:52-58 means to refuse invalid parameters, but lets the id 7 through,
  which indexes behind the tables; `Scpi.CallsInRange` shows that the parser never
  passes it.
- telnet_server.cpp:44 says that the next loop finishes an incomplete IAC sequence,
  but the IAC byte is already consumed and the rest is taken as text:
  `Telnet.CutHarmless`.

## Model

| member | source | states |
|---|---|---|
| Octets.StoreSwapped | utilities.h:101-141 | storing a swapped word on a little-endian processor puts its XDR form (RFC 4506, section 4.2) in memory |
| Octets.LoadSwapped | utilities.h:101-149 | loading and swapping four bytes reads them as an XDR word |
| Octets.WordRoundTrip | utilities.h:123-150 | an XDR word reads back as the word it was written from |
| Octets.MostSignificantFirst | utilities.h:123-150 | the first byte of the form weighs most, and every four bytes are the form of one word |
| Octets.GetWord | utilities.h:148-149 | a field of an overlaid struct has the big-endian value of its four bytes |
| Octets.PutWord | utilities.h:140-141 | assigning a field writes its four bytes in XDR form and no others |
| Tokenizer.FieldsJoin | scpi.h:92-105 | splitting at a delimiter loses nothing: the fields hold no delimiter and glue back to the text |
| Tokenizer.JoinFields | scpi.h:92-105 | it is the only such splitting: every list of delimiter-free texts is got back from its glued form |
| Tokenizer.FirstToken | vxi_server.cpp:325-368 | taking the first token and going on with the rest gives all the non-empty fields in order, and the rest is shorter |
| Tokenizer.CutHead | vxi_server.cpp:325-331 | one NUL at the end of the first token leaves two C strings in the buffer, the token and an undisturbed rest |
| Tokenizer.StrtokR | vxi_server.cpp:291-291 | `strtok_r` finds a token just when one is left, overwrites one delimiter at most, and leaves its context behind it |
| Numbers.Pow10 | utilities.h:63-88 | the 32-bit product never wraps, and the result is the power of ten for -9..9 and 1 elsewhere |
| Numbers.PowerIs | utilities.h:53-88 | the factor is 10^p for 0..9, 1 / 10^-p for -9..-1, and 1 for every other exponent |
| Numbers.PowNine | utilities.h:70-78 | no partial product of the loop exceeds 10^9 |
| Numbers.PowerScales | awg_fy.cpp:72-76 | multiplying and dividing by the power of ten shift the decimal point by that many places, in opposite directions |
| Numbers.ScaledBack | awg_fy.cpp:72-76 | shifting the decimal point there and back changes nothing |
| Numbers.DigitPlace | awg_fy.cpp:109-109 | the digit i places from the right is the decimal digit of the number once i digits are dropped |
| Numbers.DigitsOnly | vxi_server.cpp:310-310 | a text of digits stands for the one number whose decimal text it is |
| Numbers.PointPlace | awg_fy.cpp:122-125 | the point stands in front of the last p digits, and there is none without decimals |
| Numbers.ScanExact | vxi_server.cpp:432-433 | every number text is read with its sign, point and exponent, behind white space and in front of other text |
| Numbers.NothingRead | vxi_server.cpp:432-433 | nothing is read just when no digit follows white space, sign and point |
| Numbers.ScanIntExact | vxi_server.cpp:310-310 | every integer text is read with its sign, behind white space, and nothing where no digit stands |
| Numbers.ScanNumber | vxi_server.cpp:432-433 | reading a printed number, with its sign and decimals, gives back exactly that number |
| Numbers.ScanFixedPoint | awg_fy.cpp:122-140 | a printed number is read back exactly from a line that goes on after it |
| Numbers.ScanDigits | vxi_server.cpp:310-310 | a printed channel number is read back exactly from a text that goes on after it |
| Scpi.MatchId | vxi_server.cpp:457-469 | the id is that of a table entry the text starts with, no earlier entry qualifies, and -1 means that none does |
| Scpi.FirstMatchIsLongest | scpi.h:26-76 | for a table without repetitions, the first match is the longest for every text if and only if no entry is a prefix of a later one |
| Scpi.TablesAreSafe | scpi.h:26-76 | in the three tables no entry is a prefix of a later one, BSWV? and BSWV included |
| Scpi.TablesFindLongest | scpi.h:26-76 | every look-up finds the longest entry; a text is taken as BSWV? exactly when it starts with it |
| Scpi.EntryMatches | scpi.h:26-90 | every entry is found under its own id |
| Scpi.CallsInRange | vxi_server.cpp:403-440 | every call carries the channel of its line and an id in 0..6; ON, OFF and the wave carry their fixed values |
| Scpi.ChannelExact | vxi_server.cpp:308-311 | the channel is the number behind the letter, 0 without one, and a negative number wraps to 32 bits |
| Scpi.ReadTypeExact | vxi_server.cpp:286-372 | the read type is identification exactly for the identification request; without a channel nothing is set and the channel is 0; the type is parameters exactly when a channel line holds a BSWV? command in any position |
| Grammar.TokensOfJoin | scpi.h:92-105 | a printed list falls apart into exactly its parts |
| Grammar.ChannelRoundTrip | vxi_server.cpp:308-311 | every printed channel initiator is recognised and gives back its number |
| Grammar.NamesMatch | scpi.h:69-90 | the documented names are found at the ids they are documented for |
| Grammar.KnownNames | vxi_server.cpp:457-469 | a name is known exactly when it starts with one of the seven documented names |
| Grammar.UnknownCommand | scpi.h:46-59 | a command is known exactly when it starts with OUTP or BSWV |
| Grammar.SettingReads | vxi_server.cpp:399-438 | ON and OFF take one token, a wave and a parameter two, an unknown name one; a text without a number leaves the value before it |
| Grammar.SettingsRoundTrip | vxi_server.cpp:399-444 | any printed list of switches, waves, numbers, texts that are no numbers and unknown names gives one call for each known name, in order, with the value that then stands |
| Grammar.LineRoundTrip | vxi_server.cpp:327-370 | any printed command line, with leading spaces, gives the calls of its command, none for BSWV? and unknown commands, and is taken as a query exactly when it is one |
| Grammar.RoundTrip | vxi_server.cpp:321-370 | parsing any printed line gives back its channel, its settings in order with every wave as a sine, and whether it asks |
| VxiServer.VxiServer.constructor | vxi_server.cpp:10-17 | the server starts without a client on the first port of the block |
| VxiServer.VxiServer.Allocate | vxi_server.cpp:25-34 | the port given is the one listened on, or 0 while a client is held |
| VxiServer.VxiServer.BeginNext | vxi_server.cpp:37-57 | begin(true) is the step of the protocol that closes a link: client dropped, counter and listening port moved together |
| VxiServer.VxiServer.Loop | vxi_server.cpp:60-92 | one turn serves one request of a held client or accepts one client, moves the link by one protocol step, and keeps the output equal to one reply for each request served |
| VxiServer.VxiServer.ServeClient | vxi_server.cpp:62-82 | the next record of the stream is served whole and what follows it stays; an empty stream changes nothing |
| VxiServer.VxiServer.ServeRequest | vxi_server.cpp:67-81 | the connection ends exactly after a DESTROY_LINK of the right program |
| VxiServer.VxiServer.HandlePacket | vxi_server.cpp:95-153 | each request adds one reply, in order, and asks to close exactly for DESTROY_LINK |
| VxiServer.VxiServer.Dispatch | vxi_server.cpp:95-153 | what goes out is the record mark and the reply that the words of the request ask for, byte for byte, whatever the send buffer held; the link closes exactly for procedure 23 of program 0x607AF |
| VxiServer.VxiServer.DispatchProcedure | vxi_server.cpp:108-137 | the same for the procedures of the VXI-11 program |
| VxiServer.VxiServer.SendStatus | vxi_server.cpp:144-148 | the encoding of a refusal with the xid of the request |
| VxiServer.VxiServer.SendCreateLink | vxi_server.cpp:156-176 | the terminator written into the request spoils neither the xid nor the reply |
| VxiServer.VxiServer.SendDestroyLink | vxi_server.cpp:179-186 | the encoding of a destroyed link |
| VxiServer.VxiServer.SendRead | vxi_server.cpp:189-211 | the encoding of the identification, for every id of at most 215 characters, within the buffer |
| VxiServer.VxiServer.SendWrite | vxi_server.cpp:214-246 | the text of the request is parsed in place, and the reply still carries the xid and the length that were sent |
| VxiServer.VxiServer.TrimData | vxi_server.cpp:226-229 | the length without the newlines at the end, and only those |
| VxiServer.VxiServer.EndText | vxi_server.cpp:216-231 | the data without its newlines is left as a C string, and no byte in front of it is changed |
| VxiServer.VxiServer.ParseData | vxi_server.cpp:216-237 | parsing changes no byte in front of the data area, so the header is intact for the reply |
| VxiServer.VxiServer.ParseScpi | vxi_server.cpp:277-372 | channel, read type and calls are those of the pure parser on the text as it was, and only delimiters inside the text are overwritten |
| VxiServer.VxiServer.ProcessCommandLine | vxi_server.cpp:325-368 | a round of the outer loop takes one command line; the cuts inside it leave the remaining lines as they were |
| VxiServer.VxiServer.ProcessCommand | vxi_server.cpp:331-364 | the command of one line issues the calls of that line and cuts only inside it |
| VxiServer.VxiServer.ProcessParameters | vxi_server.cpp:385-447 | the parameters give exactly the calls of their tokens, with the value of the pair before standing where none is read |
| VxiServer.VxiServer.ProcessParameter | vxi_server.cpp:399-444 | a round takes one parameter, and its value when it has one, off the remaining tokens |
| VxiServer.VxiServer.ReadSetting | vxi_server.cpp:409-438 | ON and OFF take no value, a wave drops its value, the others read a number |
| VxiServer.VxiServer.ReadChannel | vxi_server.cpp:308-311 | the channel is the number behind the initiator letter, or 0 |
| VxiServer.VxiServer.GetId | vxi_server.cpp:457-469 | the loop over a C string in the buffer finds what the look-up of the text finds |
| VxiServer.VxiServer.StartsWith | vxi_server.cpp:462-462 | `strncmp` over the length of an entry says whether the text starts with it |
| VxiServer.VxiServer.NextToken | vxi_server.cpp:325-331 | a call of `strtok_r` takes exactly the first of the tokens left, and touches nothing outside the part it passes |
| VxiRequests.ReplyFits | rpc_packets.h:43-51 | mark and reply stay within the 256 bytes of the send buffer, in whole words |
| VxiRequests.DomainIs | rpc_packets.h:197-351 | the requests served, from their words: the fields that are used are there, and the strings end inside the buffer |
| VxiRequests.ReplyIs | rpc_packets.h:137-369 | the encoded reply has, word by word, what RFC 5531 and VXI-11 put there: 1 for another program, 3 for another procedure, 252 for a link, the length of a write, the identification for a read with zeros up to a whole word |
| VxiRequests.OneReply | vxi_server.cpp:95-246 | these words leave no byte open: a request has exactly one reply |
| VxiRequests.ReplyDecodes | vxi_server.cpp:95-246 | a client decodes the reply by the procedure it called, and a refusal exactly for another program or procedure |
| VxiRequests.FrameSends | rpc_packets.cpp:178-182 | the mark in front says last fragment and the length of the record |
| VxiRequests.OthersLeaveParser | vxi_server.cpp:95-137 | only procedure 11 of program 0x607AF sets anything or changes channel and read type |
| VxiRequests.RecordsOfReplies | vxi_server.cpp:139-148 | the bytes sent are a stream of one record for each request |
| VxiRequests.NthReplyAnswersNthRequest | vxi_server.cpp:95-246 | in the replies to any requests a client finds one record for each, and the n-th is the reply the words of the n-th request ask for; `Turns.LinkAnswers` says which requests these are |
| RpcPackets.EncodeLength | rpc_packets.cpp:172-178 | every encoded reply is a whole number of words, of the length its layout gives |
| RpcPackets.WordDecodes | rpc_packets.h:137-369 | each word of header and results stands at its place in the encoding |
| RpcPackets.ReplyRoundTrip | rpc_packets.h:224-369 | decoding where RFC 5531, section 9, and the VXI-11 specification, section B.6, put the fields gives back every xid and reply |
| RpcPackets.MarkRead | rpc_packets.cpp:88-92 | the announced length is that of the record, whatever its fragment bit |
| RpcPackets.MarkExact | rpc_packets.cpp:92-97 | the top bit of the mark is no part of the length; nothing is asked for up to 4 bytes, and never more than 252 |
| RpcPackets.WholeFrame | rpc_packets.cpp:84-104 | a call takes a whole record off the stream if and only if its body is empty or of 5 to 252 bytes |
| RpcPackets.Framing | rpc_packets.cpp:84-104 | any stream of such records falls apart into exactly their bodies, in order |
| PacketBuffers.ReadMark | rpc_packets.cpp:88-92 | bytes of the mark that do not arrive count as 0, whatever the buffer held |
| PacketBuffers.GetPacket | rpc_packets.cpp:52-104 | the body lands behind the mark, bounded by the buffer, and exactly its bytes are consumed |
| PacketBuffers.FillResponseHeader | rpc_packets.cpp:197-206 | the five header words in XDR form, nothing else changed |
| PacketBuffers.PadPacket | rpc_packets.cpp:172-176 | zero bytes up to the next multiple of four, nothing in front of them changed |
| PacketBuffers.SendPacket | rpc_packets.cpp:136-186 | what is sent is the mark of a last fragment, the header, the results and the padding, whatever else the buffer held |
| Cyclic.NextPrev | utilities.h:192-207 | stepping back undoes stepping forward, and the other way round |
| Cyclic.ClosedForm | utilities.h:205-207 | n steps forward are an addition modulo the size of the range, for every range and start |
| Cyclic.Distinct | utilities.h:205-207 | counts that are fewer steps apart than the range is long differ |
| Cyclic.CyclicWord.constructor | utilities.h:177-180 | the ends are put in order, and a start value outside them becomes the lower end |
| Cyclic.CyclicWord.GotoPrev | utilities.h:192-194 | one step back, within the range |
| Cyclic.CyclicWord.GotoNext | utilities.h:205-207 | one step forward, within the range and without 32-bit overflow |
| Cyclic.CyclicWord.PostIncrement | utilities.h:222-225 | gives the value before the step |
| LinkProtocol.GivenPortIsAccepted | rpc_bind_server.cpp:49-86 | in every run the first client accepted after a successful GETPORT reply comes in on the port of that reply |
| LinkProtocol.LinksAreClosed | vxi_server.cpp:60-92 | in every run each accepted link is closed once or still held, so there is never more than one |
| LinkProtocol.HeldDecides | vxi_server.cpp:60-92 | a client is accepted just when none is held, on a port from 9010 to 9019, and the port moves only when a link closes |
| LinkProtocol.PortMoves | vxi_server.cpp:37-57 | in every run the counter has made one step for each closed link |
| LinkProtocol.PortAfterRun | vxi_server.h:32-33 | after any run with k closed links the listening port is 9010 + k mod 10 |
| LinkProtocol.PortOfLink | vxi_server.cpp:72-88 | the k-th link of a run is accepted k steps of the counter after the first port |
| LinkProtocol.TenLinksDiffer | rpc_enums.h:28-33 | any ten consecutive links of any run are accepted on pairwise different ports |
| BindServer.RpcBindServer.Loop | rpc_bind_server.cpp:35-87 | nothing is read or sent while a client is held; else a datagram is answered before a TCP call, with what the protocol shows |
| BindServer.Kept | rpc_packets.cpp:30-72 | a call that is longer than the read buffer is answered by what fits: program, procedure and xid are kept |
| BindServer.RpcBindServer.constructor | rpc_packets.cpp:13-16 | the buffers of the port mapper are its own |
| BindServer.RpcBindServer.ServeUdp | rpc_bind_server.cpp:53-65 | the 28 bytes of the reply tell the outcome under the xid of the call |
| BindServer.RpcBindServer.ServeTcp | rpc_bind_server.cpp:66-85 | the same behind a record mark; an empty connection gets nothing |
| BindServer.RpcBindServer.ProcessRequest | rpc_bind_server.cpp:101-148 | the outcome is that of the protocol: a port for GETPORT, else the right status; the case of port 0 cannot occur |
| BindServer.BindReplyIs | rpc_bind_server.cpp:101-148 | the reply, word by word: the xid, accepted, status 1 for another program than 100000, 3 for another procedure than 3, else 0 and the port listened on |
| BindServer.ToldPort | rpc_packets.h:180-189 | a client finds xid, status and port where the layout (RFC 1833, section 3) puts them |
| Turns.TurnsAreRun | espBode.ino:125-129 | any turns, with anything arriving, make one run of the protocol |
| Turns.PortOfTurns | espBode.ino:113-129 | from power-up the listening port is 9010 + k mod 10 after k closed links, whatever the turns |
| Turns.LinkStays | vxi_server.cpp:60-92 | from a turn without a client on, the link stays as it is until a client arrives |
| Turns.NextComplete | vxi_server.cpp:60-92 | a turn takes at most the next request of the client: what is served and what is still to be read remain all that it sends, in order |
| Turns.ServedInOrder | vxi_server.cpp:60-92 | at every moment of every run the requests served on the link are the first ones its client sends |
| Turns.LinkAnswers | vxi_server.cpp:95-246 | after every turn of every run, what has been written to the link is one record for each request served, and the n-th is the reply that the words of the n-th request the client sends ask for |
| Turns.AnnouncedPort | rpc_bind_server.cpp:49-86 | over any turns, the next client after an answered GETPORT is accepted on the port that stands in the bytes of that reply |
| EspBode.TakeVxi | vxi_server.cpp:60-92 | link, requests served, calls, channel, read type and unread input are those of the next moment |
| EspBode.TakeTurn | espBode.ino:125-129 | a turn of the main loop takes the servers to the next moment, and the reply is what the protocol shows |
| EspBode.Loop | espBode.ino:125-129 | any number of turns takes the servers through the moments of the run; each turn shows the reply of the port mapper and one reply for each request served on the link |
| EspBode.PowerUp | espBode.ino:113-129 | the same for servers that have just been built, with the port after k closed links |
| AwgFy.WholeUnits | awg_fy.cpp:72-76 | a quantised value is a whole number of units of its precision |
| AwgFy.HalfUnit | awg_fy.cpp:69-76 | the quantised value is within half a unit if and only if the value is not below minus half a unit |
| AwgFy.Quantisable | awg_fy.cpp:73-73 | the cast is defined and the result within half a unit for exactly the values from minus half a unit up to the 64-bit limit |
| AwgFy.DocumentedOffset | scpi.h:87-87 | the documented negative offset is a value for which the cast is not defined |
| AwgFy.QuantumExact | awg_fy.cpp:73-73 | the number of units is the nearest one, and a half goes up |
| AwgFy.QuantisedTwice | awg_fy.cpp:69-76 | quantising a quantised value changes nothing |
| AwgFy.QuantisedMonotone | awg_fy.cpp:69-76 | quantising keeps the order of values |
| AwgFy.UnitsOfRow | awg_fy.h:17-33 | for every table row, what is sent scales back to the value, and what is read back scales back to the number read; -1.23 stands where there is none |
| AwgFy.NumberSentIs | awg_fy.cpp:92-133 | the number on the line is the value rounded half up to the decimals of the row, two when it has none, or its whole part |
| AwgFy.LineBytes | awg_fy.cpp:89-140 | letters of the lines and their ends: one newline behind a number, two behind a question |
| AwgFy.AwgFy.ReadResponse | awg_fy.cpp:192-194 | what is read of what the generator says is its longest beginning without a newline and of at most 20 characters |
| AwgFy.AwgFy.Set | awg_fy.cpp:43-161 | whatever the generator says, and hearing exactly that: with r > 0 retries there are 1 to r + 1 writes, each read back, none after a match, and true exactly when the last read-back equals the quantised value; without retries one write, no question, and true |
| AwgFy.AwgFy.Get | awg_fy.cpp:163-208 | one question; the number in the first line of what the generator says to it, rescaled; -1.23 rescaled when there is no number |
| AwgFy.AwgFy.Send | awg_fy.cpp:89-141 | one line: command, number in the format of the row, newline |
| AwgFy.AwgFy.Adjust | awg_fy.cpp:63-77 | the value to compare with and the value to send; a wave keeps its own value |
| AwgFy.AwgFy.Limit | awg_fy.cpp:72-73 | the value limited to the precision by way of `pow10` and the cast |
| AwgFy.AwgFy.Rescale | awg_fy.cpp:183-205 | the number scaled by `pow10`, or reduced to a truth value |
| Fy6900.LettersAgree | awg_fy.cpp:21-41 | the letters of the tables name the channel and the parameter of the call, channel 0 the main one, ON and OFF the same switch |
| Fy6900.NumberArrives | awg_fy.cpp:92-140 | for every row of the table, the number on the line reads as the value to be stored |
| Fy6900.WriteObeyed | awg_fy6900.cpp:8-32 | the line makes a faithful generator store that value under that channel and parameter, and change nothing else |
| Fy6900.FaithfulExists | awg_fy6900.cpp:16-22 | a generator that answers every question faithfully exists, for every state |
| Fy6900.TextRead | awg_fy.cpp:192-198 | a text of at most 20 characters and a newline are read as the text |
| Fy6900.StoredShowable | awg_fy.h:11-11 | every stored value of at most 19 digits has such a text |
| Fy6900.ReadBackStored | awg_fy6900.cpp:16-32 | whatever a faithful generator says, the read-back gives exactly the stored value: the units of the answers and the exponents of the table cancel |
| Fy6900.SetSettles | awg_fy.cpp:87-161 | after a set with any retry count, whatever was answered, the generator holds the stored value |
| Fy6900.SetVerified | awg_fy.cpp:150-155 | on a faithful generator a set with retries succeeds exactly when the stored value is the one compared with, after one write and one read-back, or never |
| Fy6900.Verifiable | awg_fy.cpp:150-153 | the values that verify are exactly the switches below 1.5, the sine, and every number |
| Fy6900.GetStored | awg_fy.cpp:163-208 | get on a faithful generator gives the value that was stored |
| Fy6900.SetStored | awg_fy.cpp:43-161 | set on a faithful generator stores the value, and returns true after one round exactly for the values that verify |
| Fy6900.NotNegativeSettable | awg_fy.cpp:73-73 | every number from 0 to 10^12 is in the domain of the cast and its answer fits the buffer, for every parameter |
| Bridge.DriveCall | vxi_server.cpp:440-440 | a call of the parser, made on the driver, is one exchange with the generator, or nothing for an unknown channel |
| Bridge.DriveAll | vxi_server.cpp:399-444 | the calls of the parser, one after the other, put exactly their exchanges on the line |
| Bridge.CallsSettle | vxi_server.cpp:399-444 | any list of calls driven into the generator leaves the state that folding their stored values gives, whatever it answers |
| Bridge.LastWriteWins | vxi_server.cpp:399-444 | each parameter holds the value of the last call that writes it, and keeps its value when none does |
| Bridge.EndToEnd | awg_fy6900.cpp:16-32 | a printed line, parsed and driven, leaves the settings of the line in the generator, and every other channel as it was |
| Bridge.PrintedWrite | vxi_server.cpp:214-237 | a request whose data is a printed line, with any newlines behind it, is in the domain and makes the calls of the line |
| Bridge.DriveWrite | vxi_server.cpp:214-237 | driving the calls of such a request leaves the generator with the settings of the line, whatever it answers in between |
| HexDump.CellPlace | debug.cpp:32-47 | every byte of a row stands in its column of the 52 |
| HexDump.DumpShape | debug.cpp:25-51 | one line for each started row of 16, each with 52 columns and then one character for each byte |
| HexDump.DumpRoundTrip | debug.cpp:12-55 | reading the hex columns of a dump gives back exactly the bytes that were dumped, for every length |
| HexDump.DumpCharacter | debug.cpp:40-51 | behind the 52 columns of line i the k-th character is byte 16 i + k if it is from 0x20 to 0x7f, else a dot |
| HexDump.DumpHexCell | debug.cpp:32-48 | in column 3 k + k / 4 of line i stand the two lower-case hexadecimal digits of byte 16 i + k and a blank, or three blanks |
| HexDump.DumpGaps | debug.cpp:45-51 | a blank behind each group of four cells, and CR LF behind the characters |
| HexDump.DumpLength | debug.cpp:25-52 | there are no further characters |
| DebugStream.MeetIsAnd | debug.cpp:64-64 | the filter lets a type through just when their bits have one in common |
| DebugStream.DebugStream.constructor | debug.h:68-70 | the stream starts empty with no output type |
| DebugStream.DebugStream.SetChannel | debug.h:80-81 | switching the output keeps what is buffered and loses nothing |
| DebugStream.DebugStream.SetFilter | debug.h:100-101 | changing the filter keeps what is buffered |
| DebugStream.DebugStream.SetOutput | debug.h:124-126 | changing the type keeps what is buffered |
| DebugStream.DebugStream.Write | debug.cpp:57-87 | outputs plus buffer are always the accepted bytes in order; the buffer holds less than 128 and no newline; a byte is accepted exactly when the filter meets the type; a flush hands over the whole buffer to the present channel |
| DebugStream.DebugStream.Flush | debug.cpp:89-100 | everything accepted is handed out, in one piece to the present channel, or nothing when the buffer is empty |
| DebugStream.DebugStream.SendBuffer | debug.cpp:89-100 | the same also for a full buffer and a finished line |
| DebugStream.DebugStream.Print | debug.cpp:57-87 | a text passes the filter as a whole or not at all |
| DebugStream.DebugStream.Dump | debug.cpp:12-55 | the bytes accepted are exactly the text of the dump, and nothing for a length that is not positive |
| DebugStream.DebugStream.DumpRow | debug.cpp:25-51 | one line of it; the data pointer moves by the bytes of the row |
| DebugStream.DebugStream.DumpHex | debug.cpp:32-48 | the hex part; the character cursor stays within its 17 bytes, in front of a terminator |
| DebugStream.DebugStream.DumpCell | debug.cpp:34-44 | one byte in hex with its character kept, or three blanks |
| Telnet.TextLaws | telnet_server.cpp:41-52 | byte 255 takes itself and the two bytes behind it out of the text, CR itself, every other byte stays |
| Telnet.LinesAre | telnet_server.cpp:54-63 | line i is the i-th field of the text between newlines, up to 256 characters |
| Telnet.ToggleExact | telnet_server.cpp:98-102 | a line toggles if and only if it is white space, the eleven letters of PASSTHROUGH in either case, and white space, or a NUL right behind the letters |
| Telnet.DrainIsWhole | telnet_server.cpp:32-65 | a stream that cuts no IAC sequence is read in one call as the stream without IAC sequences (RFC 854) and CRs, split at LF, each line cut to 256 bytes |
| Telnet.DrainConcat | telnet_server.cpp:32-65 | reading two batches one after the other is reading them at once, if the first ends outside a sequence |
| Telnet.CutHarmless | telnet_server.cpp:41-49 | ending a batch changes none of the lines to come, whatever follows, if and only if it ends outside an IAC sequence |
| Telnet.IncrementalIsWhole | telnet_server.cpp:32-65 | for any batches that cut no sequence, the lines and the unfinished line are those of the whole stream |
| Telnet.TelnetServer.Loop | telnet_server.cpp:32-65 | the byte loop delivers the lines and keeps the rest as the specification of one call says |
| Telnet.TelnetServer.OnTelnetInput | telnet_server.cpp:96-113 | a line that reads PASSTHROUGH switches passthrough, and no other does; so it is on exactly after an odd number of them, and the generator has been given each other line received while on, unchanged, with one LF |
| Telnet.TelnetServer.Connect | telnet_server.cpp:20-29 | a new client starts a new line and keeps passthrough as it was |

## Left out

- AwgFy.AwgFy.Set: does not take the id 7, for which the source reads behind its tables, nor values for which its cast to an unsigned integer is undefined; no behaviour can be given for them.
- AwgFy.AwgFy.Send: does not model the zero-filled widths (awg_fy.cpp:102-106, 117-121), which no table uses, nor a conversion to `long int` beyond 32 bits, which no integer row of the table can cause.
- AwgFy.HalfUnit: does not model IEEE rounding; values are exact reals.
- AwgFy.AwgFy.Get: does not take the id 7 either.
- Fy6900.NumberArrives: takes the printer to write every value; the Arduino printer, which is not part of this model, writes "ovf" for values above 4294967040, beyond the range of these generators.
- Fy6900.NotNegativeSettable: speaks of the cast and of the response buffer, not of what the printer can write.
- Bridge.EndToEnd: does not speak of numbers outside the domain of the cast; `AwgFy.Quantisable` says which those are.
- Fy6900.SetStored: does not speak of quanta of 20 digits or more, whose answers the response buffer cuts.
- Numbers.ScanNumber: does not cover the infinities, NaNs and hexadecimal numbers that `sscanf` also reads, none of which the grammar prints.
- VxiServer.VxiServer.Loop: does not speak of requests outside the stated domain (bodies of 24 to 252 bytes with all the fields that are used, DEV_WRITE data of at most 191 bytes and CREATE_LINK names of at most 195 inside the buffer, lines on which the parser follows no NULL pointer and uses no unassigned value); the source has no error path for them.
- VxiServer.VxiServer.ServeClient: does not speak of such requests either; shorter bodies are completed by the source from what the buffer held before, longer ones are cut, as `RpcPackets.WholeFrame` says.
- Turns.Next: takes each request to arrive as a whole; a client that pauses is one that comes to its next turn later.
- VxiServer.VxiServer.SendRead: does not take ids of more than 215 characters, for which the source writes behind its buffer.
- VxiServer.VxiServer.ReadChannel: does not model channel numbers beyond the range of `int`, for which `sscanf` is undefined.
- VxiServer.VxiServer.ParseScpi: records the calls of the generator, which is pure virtual in the source; `Bridge.DriveCall` makes them on the driver.
- BindServer.RpcBindServer.ProcessRequest: leaves the port word of a refused request arbitrary, because the source never assigns it (rpc_bind_server.cpp:104).
- BindServer.RpcBindServer.Loop: takes calls of at least 24 bytes, the ones with a program and a procedure; shorter ones are completed by the source from what the buffer held before.
- BindServer.RpcBindServer.ServeUdp: the same.
- Telnet.TelnetServer.OnTelnetInput: does not model the text shown to the telnet user nor the copying of serial input to telnet.
- DebugStream.DebugStream.SetFilter: does not model the clamping of values that are no combination of the four flags.
- A held client stays held until DESTROY_LINK, as the truth value of the Ethernet client (net_compat.h:10) has it; a connection that breaks is not modelled.
- Timing and blocking: read timeouts, busy waits and delays; nothing is claimed about a peer or generator that stays silent.
- The debug messages inside the servers, and UDP and TCP addresses.
- Set-up of the hardware, pins, LEDs and serial ports (espBode.ino, eth_config.h, awg_serial.cpp, utilities.cpp).
- fy_translate_wave_alternative.cpp, which is off by default, and the generators whose tables are not part of the repository.
- The documentation under docs.
