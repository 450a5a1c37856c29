# A verified model of the probe's protocol stack

XplatApiAutoProbe lets a test script call into an application over TCP: a Python client
sends JSON command frames, a C++ (or Android, or iOS) server inside the application reads
them, runs the commands on a thread pool or on the main thread, and sends replies back.
This project models the five layers of that stack and proves what they promise, alone and
put together.

| layer | files |
|---|---|
| bytes and frames | `Bytes`, `Framing` (the reference decoder), `FrameCodec` (C++), `JavaDecoding` and `JavaLoss` (the Java decoder call by call), `PeerDecoders` (Python, iOS, Java, and the Java encoder), `PeerSenders` (iOS and Python senders) |
| JSON | `Json` (values, the sorted member table), `JsonGrammar` (spellings), `JsonParse` (the parser as functions), `JsonLexical`, `JsonComplete`, `JsonSound`, `JsonNumbers` (the numbers read and those of the standard), `JsonText` (the serializer and the round trips), `JsonShortest` (no shorter text means the same), `JsonEscapes` (escapes, digits, white space and literals byte by byte), `JsonRefused` (texts that are not JSON), `Unicode`, `JsonParser` and `JsonWriter` (the code itself, with its position, depth counter and output buffer) |
| commands | `Commands` (the C++ command parser), `Forms` (each form of a command object), `Client` and `ClientForms` (what the client sends), `Grouping`, `Dispatch` (C++ and Android), `CmdRunner` (iOS) |
| event loop | `Network` (observable traces), `EventLoop` (the step system), `LoopInvariants`, `LoopRuns` (theorems about all runs), `TcpServer` (the server object, refining the step system), `Rounds` (a round seen from one connection) |
| threads and manager | `ThreadPool` (the step system), `PoolMonitor` (the object), `Lifecycle` (stopping), `Manager` (payloads and replies), `Inbox` (the client's receiving end) |
| the whole | `ServerRuns` (event loop and manager as one step system), `ServerReplies` (what is sent, and why), `ServerCalls` and `Arguments` (what the application is called with), `ServerStop`, `EndToEnd` (from the client's bytes to the application's calls, and back) |

How the code is modelled:

- Code that changes state is a class or a method with loops, proved against a function
  (`JsonParser.ParseContext` against `JsonParse`, `TcpServer.TcpServer` against
  `EventLoop`, `PoolMonitor.SharedPool` against `ThreadPool`). What concerns all runs is
  proved about the functions.
- Concurrency is a step system: each section under a lock, each delivered notification,
  each executed command is one step, and the theorems hold for every sequence of steps.
  An event that does not fit the state changes nothing, so every sequence is a run.
- The operating system is a parameter: what accept, recv, send, select and the iOS write
  stream return are lists given to the methods, or events of the step system. A list that
  is used up reads as "would block". The one assumption is that accept hands out
  descriptors that are not open.
- Bytes are integers from 0 to 255. A length header is written modulo 2^32. Casts to 32
  bits wrap (`ToInt32`), `strtol` clamps, and the Java header is read as a signed int.

Where the code does something that its documentation or the standard does not say, the
model follows the code:

- The parser reads more numbers than section 6 of RFC 8259 allows: leading zeros (`01` is
  1), and nothing after or before the point (`1.` and `-.5`). `JsonNumbers.NumbersRead`
  says exactly which numbers it reads, `JsonNumbers.StandardNumbers` exactly which of
  these are numbers of the standard; `JsonSound.BeyondTheStandard` has examples.
- On an over-limit header the C++ and the Java decoder drop the frames cut in the very
  call that meets it; the Python and the iOS decoder have handed them on before.
  `FrameCodec.CuttingMatters` says exactly for which streams that can happen in C++.
  In Java it depends on the length of the buffer as well, which decides what one call
  can read: `JavaLoss.WhenFramesAreLost`.
- A payload over 32 MiB can be queued for sending. The peer then fails at its header
  (`LoopRuns.OversizedIsFatal`).
- `PROTOCOL.md` speaks of runs of equal `threadMode`. C++ compares the raw integers,
  Android the normalised ones and iOS asks whether it is 1; `Dispatch.AndroidMergesGroups`
  says exactly when the first two agree. A mode written as text is main-thread work on
  iOS only (`CmdRunner.ModesAgree`).
- Parameters that are not an object are replaced by an empty one under version 2.
- A callback frame whose key is a list or an object ends the client's receive thread with
  an exception (`Inbox.ClientInbox.HandleCallback` returns false).

## Model

| member | source | states |
|---|---|---|
| `Framing.HeaderRoundTrip` | core/src/protocol.cpp:56-67 | The value of a written header is the length, for every length below 2^32, whatever follows it. |
| `PeerDecoders.HeaderBytes` | core/src/protocol.cpp:56-67 | The header is the length in four bytes, the most significant first. |
| `Framing.DecodeEncodeAll` | core/src/protocol.cpp:18-67 | Decoding a concatenation of encoded payloads within the limit gives these payloads, then whatever the tail decodes to. |
| `Framing.BytesConserved` | core/src/protocol.cpp:18-50 | Re-encoding the decoded frames and appending the rest gives back any stream, byte for byte. |
| `Framing.DecodeAppend` | core/src/protocol.cpp:18-50 | Decoding a stream in two parts is decoding it whole, unless the first part already ends in an over-limit header, which then decides everything. |
| `Framing.DecodedWithinLimit` | core/src/protocol.cpp:30-36 | No decoded payload exceeds 32 MiB. |
| `Framing.DecodeUpToOversized` | core/src/protocol.cpp:18-67 | In a stream with a payload over the limit the payloads before it are decoded, and the error comes exactly with its header. |
| `Framing.DecodePrefixOfEncoded` | core/src/protocol.cpp:18-67 | A prefix of an encoded payload sequence decodes to a prefix of the payloads without error, and to all of them when nothing is missing. |
| `FrameCodec.FrameCodec.Feed` | core/src/protocol.cpp:18-50 | One call hands out the frames that the reference decoder finds in buffer plus data, keeps the rest, and on an over-limit header hands out nothing and sets the error. |
| `FrameCodec.FrameCodec.Reset` | core/src/protocol.cpp:69-72 | After reset the decoder is as new. |
| `FrameCodec.RunIsDecode` | core/src/protocol.cpp:18-50 | After any calls the error flag says whether the bytes so far reach an over-limit header; without one the frames and the buffer are the reference ones. |
| `FrameCodec.ChunkInvariance` | core/src/protocol.cpp:18-50 | Any two ways of cutting a stream without an over-limit header give the same frames and leftover, and bytes are conserved. |
| `FrameCodec.ErrorIsSticky` | core/src/protocol.cpp:18-22 | Once the error is set, no further call produces or changes anything. |
| `FrameCodec.RunIsPrefix` | core/src/protocol.cpp:18-50 | On any stream and any cutting the frames are a prefix of the reference decoding: those complete before the call that met the over-limit header. |
| `FrameCodec.CuttingMatters` | core/src/protocol.cpp:28-37 | All cuttings of a stream give the same frames if and only if no frames come before an over-limit header. |
| `FrameCodec.SplitBeforeFatal` | core/src/protocol.cpp:28-37 | On a stream that ends badly, feeding it at once gives nothing and feeding the complete frames first gives all of them. |
| `FrameCodec.FramesCanBeLost` | core/src/protocol.cpp:28-37 | A concrete eight-byte stream on which a frame is lost when fed at once. |
| `PeerDecoders.PythonReceiver.Receive` | client/xprobe_client.py:373-400 | After every chunk the dispatched payloads, the buffer and the error are those of the reference decoding of all bytes received. |
| `PeerDecoders.IosReceiver.ProcessReadBuffer` | ios/xprobe/connect/XPServerConn.mm:285-322 | The handled payloads are the non-empty reference payloads, cut short only by a close, which happens exactly on an over-limit header or in a handler. |
| `Bytes.NonEmptySnoc` | ios/xprobe/connect/XPServerConn.mm:285-322 | An empty payload is skipped, any other is kept in its place. |
| `PeerDecoders.SignedTestAgrees` | android/xprobe/src/main/java/com/xprobe/rpc/protocol/CmdDecoder.java:58-61 | The signed length test rejects exactly the headers that the unsigned test rejects. |
| `PeerDecoders.CmdDecoder.GrowBuffer` | android/xprobe/src/main/java/com/xprobe/rpc/protocol/CmdDecoder.java:98-106 | Doubles the array up to the limit, keeps the used part, fails exactly at the limit. |
| `PeerDecoders.JavaIntIs` | android/xprobe/src/main/java/com/xprobe/rpc/protocol/CmdDecoder.java:88-93 | The signed number is in the range of an int and agrees modulo 2^32 with the four bytes, the first of which counts most. |
| `PeerDecoders.CmdDecoder.ReadInt` | android/xprobe/src/main/java/com/xprobe/rpc/protocol/CmdDecoder.java:88-93 | The big-endian value of four bytes as a signed 32-bit integer. |
| `PeerDecoders.CmdDecoder.CutFrames` | android/xprobe/src/main/java/com/xprobe/rpc/protocol/CmdDecoder.java:54-70 | Cuts exactly the reference frames of the used part and stops where the rest begins; fails exactly on an over-limit header. |
| `PeerDecoders.CmdDecoder.Compact` | android/xprobe/src/main/java/com/xprobe/rpc/protocol/CmdDecoder.java:72-76 | Moves the unconsumed bytes to the front of the same array and nothing else. |
| `PeerDecoders.CmdDecoder.ReadFrames` | android/xprobe/src/main/java/com/xprobe/rpc/protocol/CmdDecoder.java:42-83 | A call reads exactly what there is room for, at least one byte. Between successful calls the used part is the undecoded suffix of all bytes read and strictly smaller than an array of at most 32 MiB + 4. A call that meets an over-limit header hands out nothing, so what was handed out is what the C++ decoder hands out for the same pieces. The capacity exception is unreachable. |
| `PeerDecoders.CmdDecoder.Digest` | android/xprobe/src/main/java/com/xprobe/rpc/protocol/CmdDecoder.java:54-82 | After a read the complete frames are cut, the rest moves to the front, and a full array doubles; it fails exactly on an over-limit header. |
| `JavaDecoding.CapacityIs` | android/xprobe/src/main/java/com/xprobe/rpc/protocol/CmdDecoder.java:78-106 | Whatever the pieces, the array is as long as the frames decoded so far and the bytes left over demand, and no longer. |
| `JavaLoss.CallsArePrefix` | android/xprobe/src/main/java/com/xprobe/rpc/protocol/CmdDecoder.java:54-82 | On any stream, read in any pieces that have room, the calls hand out a prefix of the reference decoding: all of it, or what was complete before the call that failed. |
| `JavaLoss.WhenFramesAreLost` | android/xprobe/src/main/java/com/xprobe/rpc/protocol/CmdDecoder.java:54-82 | Some way of reading a stream loses a complete frame if and only if an over-limit header comes after a frame that leaves room for it in an array of the length that the frames demand. |
| `JavaLoss.OneFrameAndFatal` | android/xprobe/src/main/java/com/xprobe/rpc/protocol/CmdDecoder.java:54-82 | An empty frame before such a header can be lost; a frame that fills the initial array cannot. |
| `PeerDecoders.OutputStream.EncodeTo` | android/xprobe/src/main/java/com/xprobe/rpc/protocol/CmdEncoder.java:20-32 | The bytes written are the encoded frame. |
| `PeerDecoders.DecodeEverywhere` | core/src/protocol.cpp:18-50 | On every stream without an over-limit header, in every chunking, the C++, Python and Java decoders give the reference payloads and the iOS one these minus the empty ones. |
| `PeerSenders.ServerConn.FlushPendingWrites` | ios/xprobe/connect/XPServerConn.mm:210-233 | Exactly what the stream takes leaves the buffer, from the front; a failure closes the connection and drops the rest. |
| `PeerSenders.TakeIs` | ios/xprobe/connect/XPServerConn.mm:210-233 | A flush gets rid of as many bytes as the stream accepts before its first refusal, at most all, and fails exactly when bytes are left and that refusal is a failure. |
| `PeerSenders.ServerConn.SendData` | ios/xprobe/connect/XPServerConn.mm:173-206 | A payload sent on an open connection is framed and queued behind the others; on a closed one nothing happens. |
| `PeerSenders.ServerConn.TakenInOrder` | ios/xprobe/connect/XPServerConn.mm:173-233 | What a decoder makes of the bytes taken so far is a prefix of the payloads sent, and all of them once nothing is pending. |
| `PeerSenders.JoinFrames` | client/xprobe_client.py:138-159 | The joined frames decode to the payloads with nothing left over. |
| `Json.PutIsAssignment` | core/src/json.cpp:190-195 | Storing a member in the sorted table is assignment in a map: one key changes and the order is kept. |
| `Json.LessIs` | core/include/xprobe/json.h:106-106 | The order of the member table is decided by the first byte in which two keys differ, or by their lengths if there is none. |
| `Json.SortedTableUnique` | core/src/json.cpp:321-334 | Two sorted member tables with the same meaning are equal. |
| `Json.LastWins` | core/src/json.cpp:569-569 | Storing members left to right leaves under every key the value stored last. |
| `JsonComplete.ValueComplete` | core/src/json.cpp:621-682 | Parsing any spelling of a value gives this value and leaves the text after it, exactly when it is nested within the depth still allowed. |
| `JsonComplete.DocComplete` | core/src/json.cpp:690-716 | A spelled document, with any white space around its tokens, parses to its value if nested within the limit and is refused otherwise. |
| `JsonSound.ValueSound` | core/src/json.cpp:621-682 | Whatever the parser accepts is a spelling of the value it returns, nested within the limit. |
| `JsonSound.ParseIffSpelled` | core/src/json.cpp:690-716 | A text parses to a value if and only if the grammar spells that value with that text, nested at most 200 deep. |
| `JsonSound.SpellingIsUnambiguous` | core/src/json.cpp:690-716 | A text has at most one value, however it is taken apart. |
| `JsonNumbers.NumbersRead` | core/src/json.cpp:501-538 | The number reading takes all of a text if and only if the text is an optional minus, digits on at least one side of an optional point, and an optional exponent with at least one digit. |
| `JsonNumbers.StandardNumbers` | core/src/json.cpp:501-538 | A text is a number of section 6 of RFC 8259 if and only if the number reading takes all of it and a digit comes first after the sign, no zero stands there in front of another digit, and every point is followed by a digit. |
| `JsonNumbers.StandardNumbersParse` | core/src/json.cpp:690-716 | Every number of the standard is a text that parses to a number. |
| `JsonSound.BeyondTheStandard` | core/src/json.cpp:501-538 | Examples of the two results on numbers: three that the standard does not allow and the parser accepts, and one with a NUL byte that it refuses. |
| `JsonEscapes.ShortEscapes` | core/src/json.cpp:453-460 | Each two-character escape of section 7 of RFC 8259 reads, after any beginning and before any rest of a literal, exactly as the \u escape that the standard gives for it. |
| `JsonEscapes.OtherEscapesFail` | core/src/json.cpp:491-493 | Any other letter after a backslash, but `u`, makes the literal fail. |
| `JsonEscapes.PlainBytes` | core/src/json.cpp:435-446 | Any other byte from 32 on stands for itself; a control character makes the literal fail. |
| `JsonEscapes.HexEscape` | core/src/json.cpp:403-425 | Four hexadecimal digits, in either case, name the code point with that value in base 16. |
| `JsonEscapes.OtherDigitsFail` | core/src/json.cpp:403-425 | With any other byte among the four, or fewer than four, the literal fails. |
| `JsonEscapes.WhiteSpaceIs` | core/src/json.cpp:371-380 | A byte in front of a text never changes its meaning if and only if it is a space, a tab, a line feed or a return. |
| `JsonEscapes.WordsAre` | core/src/json.cpp:750-757 | The three words of the language are written and read letter by letter. |
| `JsonEscapes.DecimalText` | core/src/json.cpp:501-520 | Integers are written and read in decimal, the last digit counting least. |
| `JsonEscapes.IntegerRange` | core/src/json.cpp:501-538 | Decimal digits are read as an integer exactly when it fits into 64 bits, and otherwise as a double. |
| `JsonEscapes.OneByteTexts` | core/src/json.cpp:690-716 | The only texts of one byte are the ten digits. |
| `JsonRefused.NothingRefused` | core/src/json.cpp:690-716 | White space alone is refused. |
| `JsonRefused.MoreRefused` | core/src/json.cpp:690-716 | Anything but white space after a value is refused, whatever the value. |
| `JsonRefused.UnclosedRefused` | core/src/json.cpp:588-618 | An array that is not closed, or closed by a brace, is refused. |
| `JsonRefused.LooseCommaRefused` | core/src/json.cpp:588-618 | A comma without a value before or after it is refused. |
| `JsonRefused.KeyRefused` | core/src/json.cpp:541-585 | A member whose key is no string, or has no colon after it, is refused. |
| `JsonText.ParseTextWithin` | core/src/json.cpp:690-825 | Parsing the text of any Double-free value gives it back with members sorted and last-wins, exactly when it is nested within the limit. |
| `JsonText.ParseText` | core/src/json.cpp:690-825 | Parsing the serialization of a Double-free C++ value succeeds and gives this very value exactly when it is nested at most 200 deep, and fails otherwise. |
| `JsonText.TextIsInjective` | core/src/json.cpp:750-825 | Equal texts mean equal values and the other way round, at any depth. |
| `JsonText.ObjectMeaning` | core/src/json.cpp:541-585 | An object means the value written last under each key; two spellings give the same object if and only if they agree on that, whatever their order and repetitions. |
| `JsonText.CanonicalText` | core/src/json.cpp:690-825 | Re-serializing what was parsed gives one canonical text: equal for two texts exactly when they parse to the same value, and parsing to that value again. |
| `JsonShortest.TextIsShortest` | core/src/json.cpp:723-825 | No text that parses to a Double-free value is shorter than the one the serializer writes. |
| `JsonEscapes.ListText` | core/src/json.cpp:785-798 | An array is its items between brackets with commas between them. |
| `JsonEscapes.TableText` | core/src/json.cpp:799-818 | An object is its members between braces with commas between them, a colon between key and value. |
| `JsonEscapes.ControlText` | core/src/json.cpp:735-739 | A control character without a two-character escape is written with four digits in lower case. |
| `JsonText.CharsRoundTrip` | core/src/json.cpp:723-748 | The escaped text of any byte string spells this byte string. |
| `JsonText.DigitsRoundTrip` | core/src/json.cpp:758-762 | The decimal digits of a number read back as the number. |
| `JsonParser.ParseContext.SkipWhitespace` | core/src/json.cpp:371-380 | The position moves past exactly the white space in front of it. |
| `JsonParser.ParseContext.ParseHexDigits` | core/src/json.cpp:403-425 | Succeeds exactly on four hexadecimal digits, with their value. |
| `JsonParser.ParseContext.ParseUnicodeEscape` | core/src/json.cpp:461-490 | Reads an escape or a surrogate pair as the specification does, refusing unpaired surrogates. |
| `JsonParser.ParseContext.ParseStringLiteral` | core/src/json.cpp:431-498 | The loop reads the string literal of the specification, whose escapes and plain bytes `JsonEscapes` pins one by one, and stops right after it. |
| `JsonParser.ParseContext.ParseNumberLiteral` | core/src/json.cpp:501-538 | An integer that fits 64 bits and is followed by a delimiter is read exactly, anything else as a decimal literal or not at all. |
| `JsonParser.ParseContext.ParseObject` | core/src/json.cpp:541-585 | The member loop fills the table that the specification gives, with the same failures. |
| `JsonParser.ParseContext.ParseArray` | core/src/json.cpp:588-618 | The element loop reads the array that the specification gives, with the same failures. |
| `JsonParser.ParseContext.ParseAny` | core/src/json.cpp:621-682 | The recursion terminates; the position never goes back or past the end and moves on for every value read; on success the depth counter is back where it was; the outcome is the specification's. |
| `JsonParser.ParseJson` | core/src/json.cpp:690-716 | The parser object computes the specification on every text. |
| `JsonWriter.Writer.SerializeString` | core/src/json.cpp:723-748 | The loop appends the escaped literal. |
| `JsonWriter.Writer.Serialize` | core/src/json.cpp:750-818 | The recursion appends the text of the value to what is there. |
| `JsonWriter.Equal` | core/src/json.cpp:293-338 | The comparison is equality of values. |
| `Unicode.Utf8RoundTrip` | core/src/json.cpp:384-400 | The bytes produced for any Unicode scalar values decode, by an independent decoder after section 3 of RFC 3629, to these values. |
| `Unicode.EscapesAreUtf8` | core/src/json.cpp:461-490 | A sequence of escapes stands for the UTF-8 bytes of the scalar values it spells, which decode back to them. |
| `Unicode.EscapedLiteral` | core/src/json.cpp:431-498 | Parsing a literal made of escapes gives the UTF-8 bytes of its scalar values. |
| `Unicode.LoneSurrogateFails` | core/src/json.cpp:466-487 | A literal with an unpaired surrogate escape anywhere is refused. |
| `Commands.FindIsLookup` | core/src/json.cpp:207-215 | Searching the sorted table is looking up the map that it stands for. |
| `Commands.ToInt32` | core/src/protocol.cpp:154-163 | The cast keeps numbers that fit 32 bits and maps others to the number of that range congruent to them modulo 2^32. |
| `Commands.AllOrNothing` | core/src/protocol.cpp:100-110 | An array frame yields commands if and only if every element is well formed, and then one per element in order. |
| `Forms.FrameForm` | core/src/protocol.cpp:90-121 | A frame is one object or an array, accepted when each element is; a command is of version 2 exactly when it is a method command whose version is 2. |
| `Forms.FieldForm` | core/src/protocol.cpp:127-140 | When a field command is accepted, and every field of it. |
| `Forms.FlatForm` | core/src/protocol.cpp:143-175 | When the flat form is accepted, and every field of it: the name, no params, mode and version as given or 0, the raw value. |
| `Forms.NestedForm` | core/src/protocol.cpp:143-193 | When the nested form is accepted under any version, and every field of it. |
| `Forms.NoOtherForm` | core/src/protocol.cpp:123-197 | No other value is a command. |
| `Forms.StrtolIs` | core/src/protocol.cpp:159-161 | A version as text is blanks, a sign, digits and a rest that does not matter; no digits are 0, too many are clamped. |
| `Commands.CheckParamArrayLength` | core/src/protocol.cpp:199-238 | The check passes exactly when the three arrays are all absent, or all arrays of one length. |
| `Commands.FillCommand` | core/src/protocol.cpp:123-197 | Filling a command step by step, giving up at the first failed check, computes the specification of one command, which `Forms` gives form by form. |
| `Commands.ParseImpl` | core/src/protocol.cpp:90-121 | The parser, JSON included, computes the specification for every payload. |
| `Client.CallIsUnderstood` | client/xprobe_client.py:314-324 | A call in short form reaches the server as one command with the client's name, mode, version and, under version 2, parameters. |
| `Client.CompleteFormIsKept` | client/xprobe_client.py:327-332 | A complete command keeps all its members and gets mode 0, and version 2 for a call, only where it says nothing. |
| `Client.SetFieldIsUnderstood` | client/xprobe_client.py:240-263 | A field command reaches the server as one on the named class that carries the whole object, exactly when its three lists are equally long. |
| `Client.VersionSpellings` | core/src/protocol.cpp:156-168 | A version written as decimal text gives the same command as the integer. |
| `Client.NormalizeAllItems` | client/xprobe_client.py:226-226 | A batch is normalised if and only if each item can be, item by item in order. |
| `Client.BatchArrives` | client/xprobe_client.py:224-227 | The server parses exactly the elements that were sent, or refuses the frame when it is nested too deeply. |
| `ClientForms.FlatIsUnderstood` | client/xprobe_client.py:327-332 | A complete flat call becomes one command with the name, mode and version it gives, or mode 0 and version 2, exactly when its arrays are equally long or missing. |
| `ClientForms.NestedIsUnderstood` | client/xprobe_client.py:327-332 | So does a complete nested call, which is of version 2 or has arrays that are equally long or missing; version 2 takes its params. |
| `ClientForms.FieldIsUnderstood` | client/xprobe_client.py:327-332 | A field command among the items carries the whole item, exactly when its arrays are equally long or missing. |
| `ClientForms.ItemsAreUnderstood` | client/xprobe_client.py:224-227 | Every batch of items of the four forms within the depth limit gives one command per item, in order, each as meant. |
| `Grouping.RunsSplit` | core/src/AutoTestMgr.cpp:127-157 | The runs are non-empty, of one key each, differ from their neighbours and make up the list. |
| `Grouping.SplitIsUnique` | core/src/AutoTestMgr.cpp:127-157 | The runs are the only such split. |
| `Grouping.Coarsening` | android/xprobe/src/main/java/com/xprobe/rpc/AutoServerHandler.java:89-111 | Grouping by a normalised key merges neighbouring fine groups and never splits one. |
| `Grouping.GroupingsCoincide` | android/xprobe/src/main/java/com/xprobe/rpc/AutoServerHandler.java:89-111 | The two groupings are equal if and only if normalising makes no two different neighbours equal. |
| `Dispatch.Dispatcher.DispatchCommands` | core/src/AutoTestMgr.cpp:123-159 | The two-index scan posts exactly the main-thread runs and submits exactly the others, in order. |
| `Dispatch.DispatchConserves` | core/src/AutoTestMgr.cpp:123-159 | For each executor its groups, end to end, are the frame's commands for it in array order. |
| `Dispatch.FromTag` | android/xprobe/src/main/java/com/xprobe/rpc/metadata/ThreadMode.java:25-32 | The constant with the tag if there is one; main exactly for tag 1. |
| `Dispatch.ServerHandler.ExeCommand` | android/xprobe/src/main/java/com/xprobe/rpc/AutoServerHandler.java:89-111 | The scan hands the normalised runs to the main thread or to the pool, in order. |
| `Dispatch.AndroidMergesGroups` | android/xprobe/src/main/java/com/xprobe/rpc/AutoServerHandler.java:89-111 | Android's groups are the C++ groups merged where their modes normalise to the same; the two agree if and only if no neighbours carry different modes other than 1. |
| `Dispatch.MainGroupsAgree` | core/src/AutoTestMgr.cpp:149-151 | Both servers hand the main thread the same groups. |
| `CmdRunner.OnCommandFrame` | ios/xprobe/XPCmdRunner.mm:64-134 | A frame is refused as a whole exactly when it is no object or array or has an element that is no object; a single main-thread command goes to the main queue, any other non-empty list to the work queue, an empty one nowhere. |
| `CmdRunner.ModesAgree` | ios/xprobe/XPCmdRunner.mm:191-202 | iOS and C++ agree on who runs a command, except for mode 1 written as text. |
| `CmdRunner.CppAcceptsLess` | ios/xprobe/XPCmdRunner.mm:85-104 | Array frames that C++ accepts pass the iOS check. |
| `CmdRunner.Runner.RunGroup` | ios/xprobe/XPCmdRunner.mm:168-175 | Runs a prefix of the group, short only of a set stop flag. |
| `CmdRunner.Runner.ExecuteCommandList` | ios/xprobe/XPCmdRunner.mm:139-165 | Group after group the frame runs in array order: a prefix, whole unless the stop flag was read as set, nothing after it was. |
| `ThreadPool.RunKeeps` | core/src/ThreadPool.cpp:29-82 | Every run of the pool keeps the queue order, the wakeup invariant and the ledger of executed commands. |
| `ThreadPool.QueueIsServed` | core/src/ThreadPool.cpp:29-41 | In every reachable state a non-empty queue has an awake worker or a notification still to come, and while anyone sleeps there are at least as many of these as tasks. |
| `ThreadPool.StoppedRunsDown` | core/src/ThreadPool.cpp:43-82 | After a stop every step strictly lowers what remains to do, and submitting changes nothing. |
| `ThreadPool.StoppedIsLive` | core/src/ThreadPool.cpp:66-82 | After a stop some step is possible until all workers have exited. |
| `ThreadPool.DrainedRanAll` | core/src/ThreadPool.cpp:66-82 | When the pool is drained every accepted task has run exactly once, command by command in order, whatever threw. |
| `ThreadPool.AlwaysAPrefix` | core/src/ThreadPool.cpp:66-82 | At any time a task has executed its first commands once each, and tasks start in the order of submission. |
| `ThreadPool.ShutdownDrains` | core/src/ThreadPool.cpp:43-59 | From any reachable stopped state every schedule ends after a bounded number of steps, with all workers gone and every accepted task run once. |
| `ThreadPool.RestMeansDone` | core/src/ThreadPool.cpp:29-82 | Whenever the pool comes to rest, stopped or not, so that nothing but a spurious wakeup can happen by itself, every accepted task has run exactly once. |
| `ThreadPool.StepsSettle` | core/src/ThreadPool.cpp:29-82 | Stopped or not, every step that the pool takes by itself lowers what keeps it from rest, except a spurious wakeup, which adds one. |
| `ThreadPool.ComesToRest` | core/src/ThreadPool.cpp:29-82 | From any reachable state, stopped or not, the steps that the pool takes by itself are bounded, spurious wakeups apart, and when only these are left every accepted task has run exactly once. |
| `PoolMonitor.SharedPool.SubmitTask` | core/src/ThreadPool.cpp:29-41 | Queues the task and owes one notification, or drops it once stopped. |
| `PoolMonitor.SharedPool.BeginShutdown` | core/src/ThreadPool.cpp:43-52 | Sets the flag and owes a notification of all, once. |
| `PoolMonitor.SharedPool.DeliverNotifyAll` | core/src/ThreadPool.cpp:52-52 | Wakes every sleeping worker and touches no other. |
| `PoolMonitor.SharedPool.CheckQueue` | core/src/ThreadPool.cpp:69-78 | A worker with the lock takes the first task, leaves when stopped with nothing queued, or sleeps. |
| `PoolMonitor.SharedPool.RunSchedule` | core/src/ThreadPool.cpp:29-82 | Any schedule of the locked sections is a run of the step system and keeps its invariant. |
| `Lifecycle.StopExecutesEverything` | core/src/AutoTestMgr.cpp:44-62 | In every run no background command is executed without the registered invocation and no group handed over is dropped; when stop has returned, each background command of each dispatched frame has been called exactly once, those of a group in array order. |
| `Lifecycle.FrameIsCalled` | core/src/AutoTestMgr.cpp:123-181 | When stop has returned, the tasks of each dispatched frame are its background groups, in place among all tasks, and each has been called exactly once. |
| `Lifecycle.StopReturns` | core/src/AutoTestMgr.cpp:44-62 | Once the loop is joined, stop returns after a bounded number of steps under every schedule; the wait for the loop is the subject of `ServerStop.StopReturns`. |
| `Network.LawfulTrace` | core/src/TcpServer.cpp:190-315 | In a lawful trace no id is 0, no callback for a lost connection comes twice, and live connections have different descriptors. |
| `EventLoop.SnapshotIs` | core/src/TcpServer.cpp:202-218 | A round's snapshot lists exactly the watchable connections with their descriptors, in id order. |
| `EventLoop.FlushKeeps` | core/src/TcpServer.cpp:380-421 | What was unsent before the send loop has been written or is still unsent, in order. |
| `EventLoop.FlushIs` | core/src/TcpServer.cpp:387-420 | The send loop writes from the front as much of what is pending as the calls before the first end take, leaves the rest, and gives the connection up exactly when bytes are left and that end is an error or takes nothing. |
| `LoopRuns.NextKeeps` | core/src/TcpServer.cpp:190-449 | Every step of the loop or of another thread keeps the table, the snapshot, the latest connection and all byte flows in order. |
| `LoopRuns.RunsAreLawful` | core/src/TcpServer.cpp:190-437 | Over all runs ids are new and never 0, recv and send act only on a descriptor while the id owns it, the disconnect callback runs at most once per id, and the open descriptors are those in the table. |
| `LoopRuns.ToldOnce` | core/src/TcpServer.cpp:248-264 | Between rounds the disconnect callback has run exactly once for each connection that is gone and never for one that is there. |
| `LoopRuns.LatestAtRoundEnd` | core/src/AutoTestMgr.cpp:90-188 | Between rounds the latest connection is the one of the last delivered payload if still live, else 0. |
| `LoopRuns.DeliveredInOrder` | core/src/TcpServer.cpp:163-421 | For every interleaving of enqueues, partial writes and chunked arrival, the peer's decoder has produced a prefix of the payloads enqueued, and all of them once everything is flushed and has arrived. |
| `LoopRuns.OversizedIsFatal` | core/src/TcpServer.cpp:163-172 | If a payload over the limit was queued, the peer gets the payloads before it and nothing else, and fails exactly when its header has arrived. |
| `LoopRuns.ReceivedInOrder` | core/src/TcpServer.cpp:317-378 | What the message callback has got is a prefix of the payloads the peer sent, and exactly the frames complete in the bytes read between rounds. |
| `LoopRuns.NothingInvented` | core/src/TcpServer.cpp:317-378 | On any bytes at all, the callback has got a prefix of their reference decoding. |
| `TcpServer.RoundIsRun` | core/src/TcpServer.cpp:190-266 | What a round computes is a run of the step system from idle to idle. |
| `TcpServer.DrainSocket` | core/src/TcpServer.cpp:319-351 | The recv loop returns the bytes of all calls up to the first block, error or end, in the order of the calls, and the connection is dead exactly when that was an error or the end. |
| `TcpServer.DrainIs` | core/src/TcpServer.cpp:319-351 | The function behind it gives the bytes of the calls before the first end, in their order. |
| `TcpServer.TcpServer.SendToConnection` | core/src/TcpServer.cpp:163-172 | Appends the encoded payload to the buffer of a connection that is there, and says whether it is; keeps the server's invariant. |
| `TcpServer.TcpServer.AcceptClients` | core/src/TcpServer.cpp:272-315 | Each usable descriptor becomes a new connection under the next id; others are closed. |
| `TcpServer.TcpServer.HandleReadable` | core/src/TcpServer.cpp:317-378 | Reads, cuts and delivers in order; a protocol error delivers nothing and reports the connection dead. |
| `TcpServer.TcpServer.HandleWritable` | core/src/TcpServer.cpp:380-421 | Writes from the front as many of the pending bytes as the calls before the first end take; the connection is given up exactly when bytes are left and that end is an error or takes nothing. |
| `TcpServer.TcpServer.RemoveConnection` | core/src/TcpServer.cpp:423-437 | Removes the entry and closes its descriptor, once. |
| `TcpServer.TcpServer.CloseAllSockets` | core/src/TcpServer.cpp:439-449 | Empties the table and closes all descriptors without callbacks. |
| `TcpServer.TcpServer.RunRound` | core/src/TcpServer.cpp:192-266 | A round accepts, then reads, then writes for the connections of its snapshot, and keeps the invariant of the step system. |
| `TcpServer.TcpServer.RunLoop` | core/src/TcpServer.cpp:190-270 | The whole loop, ended by a stop or a select error, leaves nothing open and a lawful trace. |
| `Rounds.RoundIs` | core/src/TcpServer.cpp:244-266 | For each connection a round reads the bytes of all successful calls in order, hands on the frames that they complete, queues the answers in order, and writes as much of what is then pending as the socket takes; the connection is there afterwards unless its reading or writing failed, and if not its owner has been told once. |
| `Rounds.LostIsGone` | core/src/TcpServer.cpp:249-256 | A connection that has ended, failed, or sent a header over the limit is not in the table after the round, and its owner has been told once. |
| `Rounds.NothingLeft` | core/src/TcpServer.cpp:258-265 | A connection with bytes to send, reported writable, whose socket takes everything, has nothing left to send after the round. |
| `Rounds.AcceptedIsThere` | core/src/TcpServer.cpp:272-315 | Every usable accepted descriptor is a fresh connection after the round, under the next free id. |
| `Rounds.LoopIs` | core/src/TcpServer.cpp:190-270 | Timeouts and interruptions of select do nothing; the loop makes the rounds up to its first failure and then closes everything. |
| `Manager.TypedJsonForm` | core/src/AutoTestMgr.cpp:190-195 | The reply object has its three fields, is in sorted form and has depth 2. |
| `Manager.ReplyArrives` | core/src/AutoTestMgr.cpp:190-207 | Whatever bytes a reply carries, decoding its frame and parsing it gives its three fields back. |
| `Manager.CallbackObjectArrives` | core/src/AutoTestMgr.cpp:80-88 | Text nested in text: decoding the frame, parsing it and parsing its value field gives the callback object back, exactly when it is nested at most 200 deep. |
| `Manager.RawIsPartOf` | core/src/protocol.cpp:123-149 | The raw value kept with a command is the whole object for a field frame and its api member otherwise. |
| `Manager.PassedOnTextReparses` | core/src/AutoTestMgr.cpp:161-172 | The text passed to the application for a command not of version 2 parses back to the raw value, for every command of every frame. |
| `Manager.AutoTestMgr.SendTypedJson` | core/src/AutoTestMgr.cpp:190-207 | Sends one reply to the latest connection, which parses to the three fields, or nothing if there is none. |
| `Manager.AutoTestMgr.SendCallbackJson` | core/src/AutoTestMgr.cpp:80-88 | Sends the text of the object, or of an empty one if the value is no object. |
| `Manager.AutoTestMgr.HandlePayload` | core/src/AutoTestMgr.cpp:90-121 | Special frames are answered and dispatch nothing; an ill-formed frame, or one with a single ill-formed element, is answered by one error and dispatches nothing; any other is dispatched group by group. |
| `Manager.AutoTestMgr.ExecuteCommand` | core/src/AutoTestMgr.cpp:161-181 | Makes one call if an invocation is registered, with the name and params under version 2 and otherwise with a text that parses to the raw value and an empty object; and one error reply under the command's name if that throws. |
| `Manager.CallIsReceived` | core/src/AutoTestMgr.cpp:163-172 | The call made for a command carries its name and params under version 2, and otherwise a text that parses to its raw value, and an empty object. |
| `Inbox.ClientInbox.HandleCallback` | client/xprobe_client.py:422-429 | The cache of every name holds the last 128 of all values received for it, in order. |
| `Inbox.ClientInbox.DispatchPayload` | client/xprobe_client.py:402-420 | The heartbeat answer is counted, an array goes to the API channel with its items, a callback object to the cache, any other object to the replies, and anything else nowhere. |
| `Inbox.ServerFramesAreRouted` | client/xprobe_client.py:402-420 | The heartbeat answer and every reply of the server reach their channel with key and value intact. |
| `Inbox.AnswersAreRouted` | core/src/AutoTestMgr.cpp:97-120 | PING gets what the client counts as a heartbeat, a query an empty API list, an ill-formed frame an error with key `parseError` and the text of the error, and nothing else is answered. |
| `Inbox.LastOfIs` | client/xprobe_client.py:422-429 | What a cache holds is the longest suffix of at most 128 values. |
| `Network.PlaceIs` | core/src/TcpServer.cpp:371-376 | The payloads of one connection are among all payloads handed to the callback, in the same order. |
| `ServerRuns.StepsKeep` | core/src/AutoTestMgr.cpp:90-159 | Every run of loop and manager together keeps both in order, and the dispatched frames are exactly the well-formed payloads handed to the callback. |
| `ServerRuns.HandedOnIsDispatched` | core/src/AutoTestMgr.cpp:90-121 | Each well-formed payload of each connection is one dispatched frame, with the commands it parses to, and those of one connection are in their order. |
| `ServerRuns.StoppedHasCalled` | core/src/AutoTestMgr.cpp:44-62 | When stop has returned, each well-formed payload handed to the callback has been called: its background groups exactly once each, with the invocation registered. |
| `ServerRuns.BytesAreCalledOnce` | core/src/AutoTestMgr.cpp:44-181 | From bytes to calls: any well-formed payload anywhere in the stream of any connection, all of whose bytes have been read, has been called exactly once when stop has returned, under every schedule. |
| `ServerCalls.CallsAreMeant` | core/src/AutoTestMgr.cpp:161-172 | In every run the application has got one call for each command executed with the invocation registered, in that order, with what this command is called with. |
| `ServerCalls.FrameCalls` | core/src/AutoTestMgr.cpp:161-172 | A frame called in full has been called with its background commands, in array order within the frame. |
| `Arguments.ItemIsCarried` | core/src/AutoTestMgr.cpp:163-172 | The call made for an item of a batch carries the arguments of this item, in each of its four forms and under every version. |
| `ServerReplies.PayloadsAreAnswered` | core/src/AutoTestMgr.cpp:97-120 | Everything queued for a connection is accounted for in order, and the answers among it are exactly the answers to the payloads handed on, each once, in their order, the last perhaps still owed inside the callback. |
| `ServerReplies.EachPingGetsOnePong` | core/src/AutoTestMgr.cpp:98-102 | Outside the callback a connection has been queued exactly as many PONG answers as PINGs were handed on from it. |
| `ServerReplies.OnlyPingGetsPong` | core/src/AutoTestMgr.cpp:97-120 | PONG answers PING and nothing else. |
| `ServerReplies.ErrorsAreReported` | core/src/AutoTestMgr.cpp:161-181 | Every executed command that threw is reported exactly once, under its name: sent, dropped for want of a connection, or still to be reported by its worker; nothing is left to report when stop has returned. |
| `ServerReplies.ReportIsReadable` | core/src/AutoTestMgr.cpp:174-180 | Such a report reads as type error, the command's name and what it threw. |
| `ServerReplies.ReportIsSent` | core/src/AutoTestMgr.cpp:197-206 | A report whose connection is still there is queued for it, and only one without is dropped. |
| `ServerReplies.ReportsGoToTheLatest` | core/src/AutoTestMgr.cpp:197-205 | A worker that looks up where to report finds the connection that delivered the last payload if it is still there, else none. |
| `ServerStop.NoRoundBegins` | core/src/TcpServer.cpp:190-192 | Once the running flag is cleared the loop begins no round. |
| `ServerStop.StopReturns` | core/src/AutoTestMgr.cpp:44-62 | From any reachable state with the flag cleared and the current round over, stop returns after a bounded number of steps under every schedule, calls of the application and spurious wakeups apart. |
| `EndToEnd.BatchIsAFrame` | client/xprobe_client.py:224-227 | A batch is never taken for a special frame, and is understood. |
| `EndToEnd.BatchIsCarried` | core/src/AutoTestMgr.cpp:161-172 | The calls for the background commands of a batch carry its background items, one for one and in order. |
| `EndToEnd.BatchReachesTheParser` | core/src/AutoTestMgr.cpp:90-121 | On any connection that carries payloads within the limit, once the last byte of a batch has been read the callback has got it in its place, and it is dispatched as the client meant it. |
| `EndToEnd.BatchIsCalledOnce` | core/src/AutoTestMgr.cpp:44-181 | A batch anywhere in the stream of any connection, once read, is dispatched as the client meant it, and when stop has returned each background item of it has been called exactly once: the calls received carry the arguments of these items, one for one and in order, whatever else the server was doing. |
| `EndToEnd.CallbackReachesTheClient` | core/src/AutoTestMgr.cpp:80-88 | Every frame that the client's decoder has produced is the payload queued in its place; a callback is routed to its name, and reading its value gives the object back exactly when it is nested at most 200 deep. |

## Left out

- Floating point: a Double is kept as the literal it was read from; its value, its printing and NaN are not modelled. The serializer and everything built on it is therefore about Double-free values (an integral Double would come back as an Int). `strtod` is a scan for the longest decimal or hexadecimal literal in the C locale, and what a Double becomes as an integer is a parameter.
- `Manager.AutoTestMgr.ExecuteCommand`: assumes a Double-free raw value for commands not of version 2, because the text of a Double is not modelled.
- `Manager.AutoTestMgr.SendCallbackJson`: assumes a Double-free object, for the same reason.
- `JsonWriter.Writer.Serialize`: assumes a Double-free value, for the same reason.
- `JsonWriter.Equal`: assumes Double-free values, because two literals of one Double may differ.
- `ServerCalls.CallsAreMeant`: the text of a raw value with a Double in it is a parameter, for the same reason.
- `ServerRuns.Step`: the begin of the message callback, with its dispatch and the choice of its answer, is one step; handing over each group and sending the answer are steps of their own, and so are a worker's look at the latest connection and the sending of its report. A round begins with the test of the running flag.
- Reading JSON on the other ends: Python's `json.loads` and Apple's reader are replaced by the C++ parser or by a given value.
- UTF-8 decoding of payloads in Java, Python and iOS: all decoders are compared on bytes.
- A string length or an id that overflows its 64-bit counter.
- `TcpServer.TcpServer`: the decoder of a connection is kept as its state value; that `FrameCodec.FrameCodec.Feed` computes the next state is proved separately. What other threads do between the sections of a round is in the step system only.
- `TcpServer.TcpServer.HandleReadable`: a socket that is interrupted for ever is not modelled, since the answers of the system are finite lists.
- The Windows variants, the listening socket, start-up failures, `closeConnection` (it only shuts the socket down) and timeouts.
- How long the round lasts that the loop is in when `stop` is called: the system decides how many connections it accepts and how many bytes it reads.
- `Inbox.ClientInbox.HandleCallback`: in a Python dict 1, 1.0 and True are one key; the model's map keeps them apart.
- Concurrent calls of `stop`, and starting again after it.
- Tasks posted to the main thread: they are recorded in order by the dispatcher, but when the host runs them is its own affair.
- The Android thread pool and its `CommandTask`, and the iOS dispatch queues: they belong to their platforms.
- Reflection on Android and iOS, error texts, logging, the callback handlers of the client and its waiting calls.
