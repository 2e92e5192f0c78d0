# gocubrid in Dafny

gocubrid is a pure-Go client for the CUBRID CAS broker protocol. This project models the parts of it
that are hard to get right and proves what they promise, for every input, every server behaviour and
every run:

- **Wire codec** (`Bytes`, `Wire`, `Codec`, `Layout`, `Bind`, `Agreement`). The `Reader` and `Writer`
  are mutable objects proved against pure readers of the unread suffix. The recursive collection
  decoder is proved to invert an independent printer of the response layout exactly up to 32 levels,
  to reserve memory in proportion to its input on every byte string, and to agree with the bind
  encoder.
- **Batches** (`BatchRequest`, `Batch`). A batch payload carries no row count; a reader that knows
  only the parameter count recovers every row. Two binds are sent as the same bytes exactly when they
  differ by the documented merges. `ExecBatch` sends nothing when anything is refused locally.
- **Framing and the connection** (`Frames`, `Conn`). Over every run with transport failures at any
  byte, response i is frame i of the stream while the connection is valid, nothing is written once it
  is not, and CON_CLOSE goes out at most once.
- **Statements and cursors** (`Arguments`, `Prepare`, `Cursor`, `Streaming`, `Drain`, `TupleBuffer`,
  `Execute`, `Select`). Column metadata and its count guards, the cursor as a state machine over byte
  payloads, and the theorem that over any honest server it delivers the result set in order, once, at
  every batching and protocol version, exactly when every row decodes. SELECT is proved from its
  EXECUTE response to its last row. CALL statements give back exactly the values at the registered
  markers. Rows handed out are never written by a later FETCH, although the buffer that held them is
  reused.
- **LOBs** (`LobHandle`, `LobIO`). Chunked reads and appends over a server that may answer short.
- **The `database/sql` adapter** (`Session`). No stray transaction, and exactly one CLOSE_STATEMENT
  per handle, over every run of adapter calls, linked request by request to the byte-level connection.
- **Schema** (`Sorting`, `Indexes`, `IndexLaws`). `Indexes` with its map, in-place filter and stable
  sorts equals a declarative specification, whose order and flags are pinned over the rows themselves.
- **Failover** (`AltHost`, `Connect`). `splitAltHost` accepts exactly the documented forms and is a
  fixed point of parse, join, parse; the `Connect` sweep owns its sockets.

## How to read it

Code that changes things step by step is a class or a method with loops; its `ensures` ties the new
state to a pure function, and the lemmas are about that function. Bytes are integers 0..255; integers
are unbounded and every width, wrap-around and sign conversion of the Go code is written out. Floats
are bit patterns, times are records of wall-clock fields. A peer is any function from requests to
answers that meets a contract: `Drain.Serves` and `Drain.MayServe` for FETCH, `LobIO.HonestReads` and
`LobIO.Store` for LOBs; `Wire.Peer` keeps every request it was sent. A transport failure is a
parameter: `Fault` says at which byte a round trip breaks, `None` stands for a missing response,
`Session.Reply` says what becomes of a request. What a decoder reserves is a function along its own
parse, so a method can neither overstate nor understate it.

Where documentation and code say different things, the code is followed:

- The FETCH index moves before a row is decoded (cubrid/rows.go:93), so a row that does not decode is
  passed over for good. `Streaming.NothingLostOrRepeated` therefore speaks of the deliverable rows,
  `Drain.ExactlyOnceIff` states that every row arrives exactly when every row decodes, and
  `Drain.BadRowIsSkipped` is a table that loses its row.
- A bind is returned unchanged only if it is lossless: no trailing NUL in a string, date fields that
  fit int16, whole milliseconds, and inside a collection no empty byte string, which is read as NULL.
  `Agreement.ReturnedIsIntended` and `Agreement.ListReturnedIsIntended` are equivalences.
- Batches of a statement without parameters cannot be told apart by their bytes;
  `BatchRequest.ParameterlessBatchesCollide` shows why `ExecBatch` refuses more than one such row.
- A column's wire form takes at least 31 bytes, the guard asks for 28. The slack never matters:
  `Prepare.GuardRejectsOnlyTheHopeless` holds on every input.

The session model assumes that any reply to END_TRANSACTION, even an error, has ended the server's
transaction: `tx.Commit` turns autocommit back on after a server error, and `ResetSession` rolls back
only when autocommit is off. Statements are named by order of creation because a server may reuse
handle numbers.

## Model

| member | source | states |
|---|---|---|
| `Wire.ReadBytes` | cubrid/internal/protocol/binary.go:86-93 | succeeds exactly when 0 <= n <= remaining; value and rest together are the input |
| `Wire.ReadStatus` | cubrid/internal/protocol/errors.go:26-45 | a result is non-negative and consumes exactly four bytes; negative codes are errors |
| `Wire.Reader.Take` | cubrid/internal/protocol/binary.go:86-93 | the cursor object refines the pure reader and does not move on error |
| `Wire.Reader.Byte` | cubrid/internal/protocol/binary.go:95-101 | refines the pure byte reader |
| `Wire.Reader.Int16` | cubrid/internal/protocol/binary.go:103-109 | refines the pure big-endian int16 reader |
| `Wire.Reader.Int32` | cubrid/internal/protocol/binary.go:111-117 | refines the pure big-endian int32 reader |
| `Wire.Reader.String` | cubrid/internal/protocol/binary.go:130-146 | refines the pure string reader: one trailing NUL dropped, length <= 0 is empty |
| `Wire.Reader.Status` | cubrid/internal/protocol/errors.go:26-45 | refines ReadStatus, including the optional second error code and the trimmed message |
| `Wire.Writer.ArgBytes` | cubrid/internal/protocol/binary.go:63-69 | appends exactly one length-prefixed argument |
| `Wire.Writer.ArgString` | cubrid/internal/protocol/binary.go:56-61 | appends the NUL-terminated string as one argument |
| `Wire.Writer.ArgInt` | cubrid/internal/protocol/binary.go:25-28 | appends a four-byte argument |
| `Wire.Writer.ArgNull` | cubrid/internal/protocol/binary.go:71-71 | a null argument is the empty argument |
| `Wire.ReadStringPut` | cubrid/internal/protocol/binary.go:130-146 | a terminated, length-prefixed string reads back exactly, whatever it contains |
| `Wire.ReadUnterminated` | cubrid/internal/protocol/binary.go:130-146 | without a terminating NUL nothing is dropped |
| `Wire.StatusOfError` | cubrid/internal/protocol/errors.go:26-45 | a printed server error reads back as its second code when negative, else its first, with its message |
| `Wire.StatusOfBareError` | cubrid/internal/protocol/errors.go:26-45 | with fewer than four bytes left the first code is the error |
| `Wire.ReadArgPut` | cubrid/internal/protocol/binary.go:63-69 | an argument of fewer than 2^32 bytes is self-delimiting |
| `Bytes.U32Injective` | cubrid/internal/protocol/binary.go:23-23 | four bytes are determined by the number they spell |
| `Bytes.BigEndian` | cubrid/internal/protocol/binary.go:23-23 | numbers are big-endian, byte by byte |
| `Bytes.TwosComplement` | cubrid/internal/protocol/binary.go:103-117 | signed numbers are two's complement |
| `Bytes.TrimNulTerminated` | cubrid/internal/protocol/codec.go:11-16 | what trimNul does to a NUL-terminated string |
| `Codec.RunDecodeValue` | cubrid/internal/protocol/codec.go:26-75 | the decoder refines DecodeValue and reserves exactly Reserved slots |
| `Codec.Decode` | cubrid/internal/protocol/codec.go:20-22 | on every byte string, success or failure, the reserved slots are Reserved, and four times that is at most 32 times the length |
| `Codec.RunDecodeCollection` | cubrid/internal/protocol/codec.go:209-249 | refines DecodeCollection and reserves exactly ReservedCollection slots |
| `Codec.RunDecodeHeader` | cubrid/internal/protocol/codec.go:213-228 | element type and guarded count |
| `Codec.RunDecodeElems` | cubrid/internal/protocol/codec.go:228-248 | the element loop refines DecodeElems and reserves exactly ReservedElems slots |
| `Codec.RunDecodeElem` | cubrid/internal/protocol/codec.go:230-246 | one element: size, NULL when size <= 0, otherwise a nested decode with its reservations |
| `Codec.ReservationIsBounded` | cubrid/internal/protocol/codec.go:200-249 | whatever the bytes, four times the slots reserved along the whole decode is at most 32 times the length |
| `Codec.BoundIsTight` | cubrid/internal/protocol/codec.go:200-249 | the factor is needed: for every core there are bytes, 288 longer, that reserve 32 times its length in four-byte slots |
| `Codec.DecodeHeader` | cubrid/internal/protocol/codec.go:213-228 | an accepted count never needs more than the bytes left |
| `Codec.DecodedValueIsBounded` | cubrid/internal/protocol/codec.go:200-249 | a decoded value nests at most 32 deep and a collection holds at most (len - 5) / 4 elements over all levels |
| `Codec.DecodedElemsAreBounded` | cubrid/internal/protocol/codec.go:229-248 | the same for the elements of one collection |
| `Codec.GuardRejectsOnlyTheHopeless` | cubrid/internal/protocol/codec.go:222-228 | on every input, elements that decode take at least four bytes each, so the guard changes no successful decode |
| `Layout.PrintedScalar` | cubrid/internal/protocol/codec.go:26-75 | every scalar printed in the response layout, which is a table by type number of its own, decodes to itself |
| `Layout.PrintedClock` | cubrid/internal/protocol/codec.go:114-138 | every date/time form reads back its wall-clock fields, whatever follows |
| `Layout.PrintedZoned` | cubrid/internal/protocol/codec.go:147-168 | the zoned forms, laid out by type number, read back fields and zone name |
| `Layout.ZonedTimestampDecodes` | cubrid/internal/protocol/codec.go:147-168 | types 29 and 30: year to second, then the zone |
| `Layout.ZonedDatetimeDecodes` | cubrid/internal/protocol/codec.go:147-168 | types 31 and 32: year to second and milliseconds, then the zone |
| `Layout.PrintedFixed` | cubrid/internal/protocol/codec.go:34-61 | bytes beyond a fixed width are ignored |
| `Layout.WhatIsRefused` | cubrid/internal/protocol/codec.go:34-74 | too few bytes for a form, and every unknown type, are refused with their own error |
| `Layout.PrintedTree` | cubrid/internal/protocol/codec.go:202-249 | a printed tree decodes, at any starting depth, to its meaning or to the depth error |
| `Layout.PrintedElems` | cubrid/internal/protocol/codec.go:229-248 | the same for element lists followed by anything |
| `Layout.TreeRoundTrip` | cubrid/internal/protocol/codec.go:20-75 | decoding a printed tree gives it back exactly when its nesting is at most 32, and the depth error for every deeper one |
| `Bind.EncodeScalarValue` | cubrid/internal/protocol/codec.go:292-321 | appends the body of the value as one argument |
| `Bind.ScanElements` | cubrid/internal/protocol/codec.go:354-373 | the type scan: the common element type, or why the list is refused |
| `Bind.ScanVets` | cubrid/internal/protocol/codec.go:354-373 | a scan that passes means every element is a scalar and all non-nil ones share the announced type |
| `Bind.ListAccepted` | cubrid/internal/protocol/codec.go:354-376 | a list binds if and only if it is empty, or some element is non-nil and all non-nil ones are scalars of one wire type |
| `Bind.BindTable` | cubrid/internal/protocol/codec.go:266-290 | the wire type of every bind by number, and the fixed pairs of LOBs, nil LOBs, Numerics and empty lists |
| `Bind.WriteElements` | cubrid/internal/protocol/codec.go:377-385 | appends every element, nil as an empty argument |
| `Bind.EncodeCollectionParam` | cubrid/internal/protocol/codec.go:354-389 | emits exactly the encoded pair, or refuses and leaves the writer as it was |
| `Bind.EncodeScalarParam` | cubrid/internal/protocol/codec.go:332-338 | the same for scalars |
| `Bind.EncodeArg` | cubrid/stmt.go:396-406 | dispatch over LOB, Numeric, list and scalar binds emits the pair Encode defines |
| `Bind.EncodeLobParam` | cubrid/lob.go:173-184 | a LOB binds as its type and its packed handle |
| `Agreement.ScalarAgrees` | cubrid/internal/protocol/codec.go:266-324 | every non-nil scalar body decodes under its announced type |
| `Agreement.ReturnedIsIntended` | cubrid/internal/protocol/codec.go:251-262 | the value that comes back is the one bound if and only if the bind is lossless |
| `Agreement.ElementsAgree` | cubrid/internal/protocol/codec.go:379-385 | encoded elements decode to the returned elements |
| `Agreement.CollectionAgrees` | cubrid/internal/protocol/codec.go:354-389 | an encoded collection with its count inserted after the type byte decodes to the original list |
| `Agreement.ListReturnedIsIntended` | cubrid/internal/protocol/codec.go:230-240 | the list that comes back is the one bound if and only if no element is lossy or an empty byte string |
| `BatchRequest.PairsRoundTrip` | cubrid/internal/protocol/codec.go:332-338 | a stream of type/body pairs is uniquely decodable |
| `BatchRequest.RestoredParam` | cubrid/internal/protocol/codec.go:266-389 | a pair determines its bind up to the documented merges |
| `BatchRequest.ChunkFlatten` | cubrid/batch.go:54-60 | cutting the flattened rows by the parameter count gives the rows back |
| `BatchRequest.BatchReadable` | cubrid/batch.go:36-62 | the payload determines all rows and their number for any parameter count of at least one |
| `BatchRequest.SameBytesIffSameMeaning` | cubrid/internal/protocol/codec.go:266-389 | two binds have the same bytes if and only if they differ by the documented merges |
| `BatchRequest.ParameterlessBatchesCollide` | cubrid/batch.go:43-45 | without parameters every number of rows is the same empty payload |
| `Batch.WriteHead` | cubrid/internal/protocol/batch.go:20-27 | the request head for each version |
| `Batch.BatchRequestReads` | cubrid/internal/protocol/batch.go:13-27 | a whole request read by its peer: function code 21, handle, zero timeout from V4 on, autocommit flag, then every row of binds |
| `Batch.WriteRows` | cubrid/batch.go:54-60 | the nested loops append every bind in row order, or report the first refused one |
| `Batch.CheckWidths` | cubrid/batch.go:46-51 | true exactly when every row has the statement's width |
| `Batch.ExecBatch` | cubrid/batch.go:36-62 | a local refusal, of each kind and for its own reason, leaves the connection unchanged; otherwise one request with the head and all binds |
| `Batch.BatchRoundTrip` | cubrid/batch.go:79-92 | one round trip, then the parsed outcomes or the error |
| `Batch.ParseBatchResponse` | cubrid/internal/protocol/batch.go:66-117 | refines ParseBatch and reserves exactly ReservedResults slots, on failing inputs too |
| `Batch.ReservedResults` | cubrid/internal/protocol/batch.go:67-77 | the reserved slots never exceed one per twelve bytes of payload |
| `Batch.ReadOutcomes` | cubrid/internal/protocol/batch.go:77-110 | the result loop refines ParseOutcomes |
| `Batch.ReadOutcome` | cubrid/internal/protocol/batch.go:79-109 | one result: affected count, or code and message |
| `Batch.GuardRejectsOnlyTheHopeless` | cubrid/internal/protocol/batch.go:71-76 | on every input, results that parse take at least twelve bytes each |
| `Batch.SentAllRoundTrip` | cubrid/internal/protocol/batch.go:78-110 | printed outcomes parse back, with or without statement-type bytes |
| `Batch.BatchResponseRoundTrip` | cubrid/internal/protocol/batch.go:50-117 | a whole printed response parses to the same list at any version; the guard never rejects it |
| `Batch.AnswerRoundTrip` | cubrid/batch.go:79-92 | a printed reply is answered with exactly its outcomes |
| `Frames.FrameRoundTrip` | cubrid/internal/protocol/frame.go:20-45 | a written frame reads back with its rest |
| `Frames.FrameIsItsBytes` | cubrid/internal/protocol/frame.go:29-45 | reading a frame takes exactly its bytes |
| `Frames.StreamRoundTrip` | cubrid/internal/protocol/frame.go:20-45 | a stream of frames splits back into those frames |
| `Frames.FrameLayout` | cubrid/internal/protocol/frame.go:20-27 | length, casInfo and payload at their offsets |
| `Frames.FrameLimit` | cubrid/internal/protocol/frame.go:29-45 | a frame is taken exactly up to 256 MiB, and refused before its payload is read |
| `Conn.Connection.ReadResponse` | cubrid/internal/protocol/frame.go:29-45 | consumes exactly the frame, or what there was before the failure |
| `Conn.Connection.RoundTrip` | cubrid/conn.go:227-256 | refines Trip: refuses when bad or closed, poisons on any failed write or read; what it writes is pinned by WritesWhatWasAsked |
| `Conn.Connection.Shutdown` | cubrid/conn.go:323-336 | refines Shut: CON_CLOSE once, best effort, then closed |
| `Conn.Connection.SetAutoCommit` | cubrid/tx.go:112-112 | changes the flag and nothing else |
| `Conn.TripReadsNextFrame` | cubrid/conn.go:227-256 | a successful round trip returns the next frame and leaves the socket just after it |
| `Conn.ResponsesAreFrames` | cubrid/conn.go:227-256 | over every run the i-th response is the i-th frame; while valid, the socket is at a frame boundary with one response per request |
| `Conn.InvalidIsSilent` | cubrid/conn.go:227-232 | once poisoned or closed, invalid for good and nothing read or written |
| `Conn.NothingWrittenAfterPoisoning` | cubrid/conn.go:227-256 | the same from any point of any run |
| `Conn.ValidMeansWholeRequests` | cubrid/internal/protocol/frame.go:20-27 | while valid, the peer has received whole requests only, in call order |
| `Conn.WritesWhatWasAsked` | cubrid/conn.go:217-256 | over every run the bytes written are the frames of the requests made, each with byte 7 set exactly when autocommit was on at that request; a prefix of them once the connection is invalid |
| `Conn.CloseSentAtMostOnce` | cubrid/conn.go:323-336 | CON_CLOSE is sent at most once, and only by a connection then closed |
| `Prepare.RunReadType` | cubrid/stmt.go:332-348 | legacy and extended type bytes |
| `Prepare.RunReadHead` | cubrid/schema.go:99-117 | the short column form refines ReadHead |
| `Prepare.RunReadColumn` | cubrid/stmt.go:352-392 | both column forms refine ReadColumn |
| `Prepare.RunReadColumns` | cubrid/stmt.go:235-254 | the guarded loop; the columns reserved are ReservedColumns on every input |
| `Prepare.RunPrepare` | cubrid/stmt.go:204-254 | refines ParsePrepare and reserves exactly ReservedByPrepare columns; a parameter count never exceeds the statement |
| `Prepare.RunSchema` | cubrid/schema.go:55-82 | refines ParseSchema and reserves exactly ReservedBySchema columns |
| `Prepare.ReservedByPrepare` | cubrid/stmt.go:239-247 | 28 times the reserved columns is at most the payload, whatever it holds |
| `Prepare.ReservedBySchema` | cubrid/schema.go:71-75 | 11 times the reserved columns is at most the payload, whatever it holds |
| `Prepare.ReadColumn` | cubrid/stmt.go:149-153 | a column that parses takes at least the bytes its guard counts |
| `Prepare.GuardRejectsOnlyTheHopeless` | cubrid/stmt.go:239-246 | on every input, a count either guard turns away is one the columns would not have met |
| `Prepare.ColumnRoundTrip` | cubrid/stmt.go:352-392 | a printed column, in either form, reads back; flag bytes 0, 1, 2 and 5 are auto-increment, unique, primary and foreign key |
| `Prepare.ColumnListRoundTrip` | cubrid/stmt.go:243-254 | the guards let every well-formed list through and it reads back whole |
| `Prepare.DecodedAsDeclared` | cubrid/stmt.go:55-66 | collection kinds 1, 2 and 3 are decoded as types 16, 17 and 18, any other column as its own code |
| `Prepare.PrepareRoundTrip` | cubrid/stmt.go:204-254 | a printed PREPARE response parses to what it denotes, or is refused exactly for too many parameters |
| `Prepare.SchemaRoundTrip` | cubrid/schema.go:55-82 | a printed GET_SCHEMA_INFO response parses to what it denotes |
| `Cursor.ParseTuples` | cubrid/rows.go:88-142 | every parsed row is as wide as the column list |
| `Cursor.Rows.ReadRow` | cubrid/rows.go:100-139 | the column loop refines ParseCells |
| `Cursor.Rows.ReadTuples` | cubrid/rows.go:88-141 | the tuple loop refines ParseTuples: rows before a failure stay, the index has moved past it |
| `Cursor.Rows.ConsumeFetch` | cubrid/rows.go:83-152 | refines Consume, with the completed flag of V5 and the empty batch before it |
| `Cursor.Rows.FetchNext` | cubrid/rows.go:60-78 | sends exactly the FETCH for the next index, and refines Fetch on its answer |
| `Cursor.Rows.Advance` | cubrid/rows.go:34-55 | refines Next; one FETCH goes out exactly when nothing is buffered and more may come |
| `Cursor.BuildFetch` | cubrid/rows.go:61-67 | the FETCH request: handle, start index, size, not sensitive, result set 0 |
| `Cursor.FetchRequestReads` | cubrid/rows.go:61-67 | the peer reads function code 8, handle, start index, size, a zero byte and a zero int |
| `Cursor.CompletedBy` | cubrid/rows.go:143-151 | a batch ends the result set by its flag byte on V5 and later, before that by being empty |
| `Cursor.EndIsSilent` | cubrid/rows.go:43-45 | once the end is known no call asks the server |
| `Cursor.ClosedIsClosed` | cubrid/rows.go:35-37 | closed rows give nothing and ask for nothing |
| `Cursor.Rows.Close` | cubrid/rows.go:159-163 | only the closed flag changes |
| `Cursor.OpensUnfetched` | cubrid/stmt.go:546-556 | an empty result set is never fetched |
| `Streaming.RunRoundTrip` | cubrid/rows.go:83-142 | a printed run of rows parses to its rows up to the first that does not decode |
| `Streaming.AheadOfRun` | cubrid/rows.go:88-141 | taking the good rows of a run and passing over the bad one loses nothing deliverable |
| `Streaming.ConsumeHonest` | cubrid/rows.go:83-152 | consuming an honest batch keeps the rows ahead; an error costs exactly the row it reports |
| `Streaming.FetchHonest` | cubrid/rows.go:60-78 | an honest FETCH keeps the rows ahead and is empty exactly when none are left |
| `Streaming.NextServed` | cubrid/rows.go:34-55 | one Next gives the head of the rows ahead, or the end exactly when nothing is left, or leaves them as they were |
| `Streaming.NothingLostOrRepeated` | cubrid/rows.go:34-152 | through every error, delivered rows followed by rows ahead are the deliverable rows, in order; the end means all were delivered |
| `Streaming.DrainIsPrompt` | cubrid/rows.go:34-152 | with honest answers each call uses up one server row, and every later call is the end |
| `Streaming.OpenHonest` | cubrid/stmt.go:546-557 | whatever comes inline, an opened cursor has the whole result set ahead |
| `Drain.NothingLostFrom` | cubrid/rows.go:34-152 | against any server, losing or refusing any answers: delivered rows, then rows ahead, are the deliverable rows in order |
| `Drain.ExactlyOnceIff` | cubrid/rows.go:34-152 | a full drain delivers its rows call by call and then the end if and only if every row still at the server decodes, at every batching and version |
| `Drain.DrainedFrom` | cubrid/rows.go:34-152 | the same against any server that answers FETCH requests |
| `Drain.BadRowIsSkipped` | cubrid/rows.go:93-93 | a table whose one row never arrives: an INT column of one byte; the first call fails, the second says the end |
| `Drain.OneBatchServes` | cubrid/rows.go:60-78 | every table has a server that meets the contract |
| `Drain.DrainAll` | cubrid/schema.go:154-168 | the drain loop succeeds with all rows; it fails only if its last FETCH was not answered or some row does not decode |
| `TupleBuffer.Tuples.Append` | cubrid/rows.go:140-140 | append in place or into a larger copy adds one reference |
| `TupleBuffer.Tuples.ReadRow` | cubrid/rows.go:100-139 | each row is written into fresh memory |
| `TupleBuffer.Tuples.Fill` | cubrid/rows.go:88-141 | the reused buffer refers to rows holding what ParseTuples says, none of them a row known before |
| `TupleBuffer.Tuples.Refill` | cubrid/rows.go:75-77 | rows that existed before a FETCH, handed out or saved, are unchanged and no longer referenced |
| `TupleBuffer.HandThenRefill` | cubrid/rows.go:38-41 | the row handed out is the buffer's own reference; after the next batch it is unchanged and no longer referenced, and the buffer holds that batch |
| `TupleBuffer.HandEverything` | cubrid/rows.go:34-152 | over any number of batches through one buffer, every row handed out still holds what its own batch said |
| `Execute.RunReadHeader` | cubrid/stmt.go:485-526 | refines ReadHeader: status, results, and the trailer of each version |
| `Execute.HeaderRoundTrip` | cubrid/stmt.go:485-526 | a printed header with any number of results reads back its count and rest at any version |
| `Execute.Statement.constructor` | cubrid/stmt.go:255-264 | a CALL_SP's columns are cut or padded to one more than its markers |
| `Execute.Statement.RegisterOutParam` | cubrid/stmt.go:272-284 | accepted exactly for a CALL and an index in range; adds that marker and keeps the others |
| `Execute.Registered` | cubrid/stmt.go:294-297 | exactly the marked positions, strictly ascending |
| `Execute.Statement.ParamModes` | cubrid/stmt.go:314-327 | the mode byte of every marker |
| `Execute.Statement.OutValues` | cubrid/stmt.go:289-308 | the row's values at the registered markers, ascending; for a CALL_SP the nil fallback is unreachable |
| `Execute.Statement.WriteExecute` | cubrid/stmt.go:457-474 | the request up to the binds |
| `Execute.Statement.Run` | cubrid/stmt.go:447-558 | nothing sent on a failed check or bind; otherwise the EXECUTE and, for a CALL with rows, its FETCH; the cursor fetches by this statement's handle; no stale value row survives a failure |
| `Execute.Statement.Receive` | cubrid/stmt.go:485-558 | refines Outcome for SELECT, CALL and the rest |
| `Execute.RequestReads` | cubrid/stmt.go:457-474 | a peer that knows the version reads back every argument at its place |
| `Execute.ModeBits` | cubrid/stmt.go:314-327 | the OUT bit exactly for registered markers, the IN bit exactly unless registered and bound to nil |
| `Execute.ExecuteReads` | cubrid/stmt.go:457-480 | a whole EXECUTE request of a statement: arguments, a mode per marker of a CALL_SP, and the arguments of the call as one row of binds |
| `Execute.InlineColumnsRefused` | cubrid/stmt.go:513-521 | inline column info is refused |
| `Execute.CountReported` | cubrid/stmt.go:527-545 | any other statement reports the count and opens no cursor |
| `Execute.FirstRowArrives` | cubrid/stmt.go:531-541 | an honest FETCH puts the first row at the head of the buffer |
| `Execute.CallDelivers` | cubrid/stmt.go:527-543 | a well-formed header and an honest value row leave exactly the row's meaning behind |
| `Execute.CallKeepsRow` | cubrid/stmt.go:527-543 | a CALL so answered over the wire leaves exactly the row the server sent |
| `Execute.CallAndRead` | cubrid/stmt.go:289-308 | end to end over request and response bytes: OutValues gives the meaning of what the server stored at each registered marker |
| `Execute.OpenSchema` | cubrid/schema.go:83-92 | the cursor a schema request opens |
| `Execute.SchemaOpensAtTheStart` | cubrid/schema.go:83-92 | it has the server's whole result set ahead |
| `Select.RowDecodes` | cubrid/rows.go:100-139 | every well-typed row decodes to the values of its fields |
| `Select.SelectOpens` | cubrid/stmt.go:545-557 | execute on a SELECT opens a cursor with the whole table ahead, whatever comes inline |
| `Select.SelectDelivers` | cubrid/stmt.go:447-558 | end to end: for every well-typed table, every cut into an inline batch and FETCH batches and every version, call i delivers row i and every later call the end |
| `Select.PreparedTypes` | cubrid/stmt.go:204-254 | the columns a PREPARE response prints decide the types its rows are decoded by |
| `Select.PreparedSelectDelivers` | cubrid/stmt.go:196-558 | from the PREPARE response to the last row |
| `Select.CallCursorOpens` | cubrid/stmt.go:528-543 | the cursor of a CALL has every announced row ahead, and is done exactly when all are in |
| `Select.CallDeliversAll` | cubrid/stmt.go:528-543 | draining it delivers every row of the CALL in order, then the end |
| `LobHandle.ParseLobHandle` | cubrid/internal/protocol/lob.go:28-44 | succeeds exactly on well-packed bytes, over its own copy of them |
| `LobHandle.PackedReads` | cubrid/internal/protocol/lob.go:16-44 | a printed handle is well packed and reads back its fields |
| `LobHandle.WellPackedIsPrinted` | cubrid/internal/protocol/lob.go:28-36 | only printed handles are well packed |
| `LobHandle.Handle.Parse` | cubrid/internal/protocol/lob.go:37-43 | fields and packed bytes agree |
| `LobHandle.Handle.SetSize` | cubrid/internal/protocol/lob.go:48-51 | field and bytes 4..12 both become n, in place, and nothing else changes |
| `LobHandle.WithSizeReads` | cubrid/internal/protocol/lob.go:48-51 | a resized handle stays well packed and reads back its size |
| `LobIO.Receive` | cubrid/lob.go:93-110 | one READ_LOB answer: bytes, end, or the error it stops with |
| `LobIO.WhyItStops` | cubrid/lob.go:93-110 | a lost answer, a server error and an overlong count each stop the read with their own error |
| `LobIO.ReadAt` | cubrid/lob.go:84-114 | makes exactly the requests and brings exactly the bytes of ReadFrom; the rest of the buffer is untouched |
| `LobIO.ReadIsPrompt` | cubrid/lob.go:84-114 | against any peer: at most one request per byte and one more, short exactly when the last answer said so |
| `LobIO.ReadIsRight` | cubrid/lob.go:84-114 | against an honest peer: exactly the bytes that exist at the offset, the end exactly when short |
| `LobIO.ReadAll` | cubrid/lob.go:146-163 | any peer: at most Size + 1 requests and short only if an answer said so; honest peer: the content up to Size, whatever Size is |
| `LobIO.Lob.AppendChunk` | cubrid/lob.go:124-139 | one write at the locator's size; what the answer acknowledges is counted in Size, the packed handle and the server |
| `LobIO.Lob.Append` | cubrid/lob.go:118-142 | the requests follow p chunk by chunk at the server's length; it stops short exactly when the last was not acknowledged; Size, packed bytes and server agree on the prefix |
| `LobIO.FollowMeans` | cubrid/lob.go:118-142 | exchanges that follow an append go on exactly while every one of them was acknowledged |
| `LobIO.AppendAllThenRead` | cubrid/lob.go:84-163 | any sequence of appends, refused or shortened anywhere, then a full read: the LOB grew by the acknowledged prefixes and that is what is read; without a refusal everything was appended |
| `Session.Native.RoundTrip` | cubrid/conn.go:227-256 | a request is a round trip of the byte-level connection, and refines Send with the answer it got |
| `Session.Native.CloseStatementOf` | cubrid/stmt.go:561-576 | flag first, one request, nothing on a second call |
| `Session.Native.Exec` | conn.go:46-61 | refines ExecContext with its deferred close |
| `Session.Native.Query` | conn.go:65-80 | refines QueryContext: a failed execute closes the statement |
| `Session.Native.Schema` | cubrid/schema.go:154-168 | refines the schema helpers: drain, then close |
| `Session.Native.Begin` | conn.go:90-106 | refines BeginTx: success turns autocommit off, a refused option or level leaves it as it was |
| `Session.Native.End` | tx.go:19-29 | refines EndTx: autocommit back on whatever the server said |
| `Session.Native.Reset` | conn.go:134-145 | refines ResetSession |
| `Session.Native.Shutdown` | cubrid/conn.go:323-336 | refines CloseConn |
| `Session.SendIsTrip` | cubrid/conn.go:227-256 | the session and the connection stay linked over any request and transport failure: same flags, same payloads in order |
| `Session.CloseIsShut` | cubrid/conn.go:323-336 | closing the session is closing the connection |
| `Session.PerformAll` | conn.go:46-145 | any sequence of adapter calls on one connection keeps the link, leaves no stray transaction and owns every handle |
| `Session.RunNoStrayTx` | cubrid/tx.go:112-141 | over every run: valid and in autocommit means no server transaction is open |
| `Session.ResetIsNeutral` | conn.go:134-145 | a successful ResetSession leaves the connection valid, in autocommit, with no transaction |
| `Session.RunStaysInside` | conn.go:90-106 | with autocommit off, any calls but end, reset and close keep it off, keep the transaction open and send no END_TRANSACTION |
| `Session.TransactionBracket` | tx.go:19-29 | from a successful BeginTx to Commit or Rollback: autocommit off throughout, the caller's own choice is the one END_TRANSACTION sent, autocommit on after it |
| `Session.RefusedBegin` | conn.go:91-103 | a refused begin changes neither autocommit nor the transaction |
| `Session.ResetRollsBack` | conn.go:134-145 | ResetSession sends one rollback exactly when autocommit is off, never a commit |
| `Session.ExecSends` | conn.go:46-61 | prepare, execute, close and nothing else |
| `Session.QuerySends` | conn.go:65-80 | prepare and execute; the close is left to the rows |
| `Session.SchemaSends` | cubrid/schema.go:154-168 | the schema request, a FETCH per batch, the close |
| `Session.ClosedSendsNothing` | cubrid/stmt.go:561-564 | a closed statement sends nothing |
| `Session.ExecOwned` | conn.go:46-61 | ExecContext's handle is closed exactly once while the connection stays valid |
| `Session.QueryOwned` | conn.go:65-80 | QueryContext hands an open handle to its rows, or closes it exactly once |
| `Session.SchemaOwned` | cubrid/schema.go:154-155 | a schema helper closes its handle exactly once, however its drain ended |
| `Session.RunOwned` | cubrid/stmt.go:561-576 | over every run no handle is closed twice |
| `Session.QueryThenClose` | rows.go:43-51 | rows closed any number of times, with any calls around, close their statement exactly once |
| `Sorting.StableSortCorrect` | cubrid/schema.go:390-390 | the sort is ordered by key and keeps equal keys in order |
| `Sorting.StableSortUnique` | cubrid/schema.go:390-390 | any result with those two promises is the same sequence |
| `Sorting.SortArranges` | cubrid/schema.go:390-390 | the sort is an arrangement of positions: each once, keys ascending, ties in the original order |
| `Indexes.GroupRows` | cubrid/schema.go:345-388 | the grouping loop keeps one slot per name in order of first appearance; fails exactly on a misshapen row |
| `Indexes.FillColumns` | cubrid/schema.go:389-396 | every entry's columns are the stable sort of its rows |
| `Indexes.FilterOwn` | cubrid/schema.go:401-411 | the in-place filter leaves exactly this table's rows, in order |
| `Indexes.ListIndexes` | cubrid/schema.go:340-429 | the whole function equals its specification, and fails exactly on a row shorter than six or without an integer type; what the specification means is stated over the rows in IndexLaws |
| `Indexes.NamesStayUnique` | cubrid/schema.go:412-428 | no name is listed twice, after the merge too |
| `Indexes.NamesInOrderOfAppearance` | cubrid/schema.go:360-374 | the names are those of the rows, in order of first appearance |
| `IndexLaws.ColumnsFollowKeyOrder` | cubrid/schema.go:375-396 | over the rows themselves: the columns of an index are those of exactly the rows naming it, ascending by KEY_ORDER or by arrival where a row does not carry it, ties in arrival order |
| `IndexLaws.KeyOrderDecides` | cubrid/schema.go:377-390 | when every row carries KEY_ORDER the columns ascend by it |
| `IndexLaws.ArrivalDecides` | cubrid/schema.go:375-377 | when none does they stay in arrival order |
| `IndexLaws.EntryFlags` | cubrid/schema.go:360-371 | an entry exactly for every name a row carries; unique for constraint types 0 and 2, primary by the sixth column, of the name's first row |
| `IndexLaws.UnqualifyDrops` | cubrid/schema.go:190-195 | the owner before the first dot is dropped |
| `IndexLaws.PrimaryKeyInSeqOrder` | cubrid/schema.go:404-428 | the primary key is that of exactly this table's rows, by sequence number, ties as they came; prepended when no row names it |
| `Indexes.EveryRowUsedOnce` | cubrid/schema.go:360-396 | the columns of all entries are, counted with multiplicity, the columns of all rows |
| `Indexes.MergeListsOnce` | cubrid/schema.go:416-428 | the merge marks the one entry with the key's name or lists it first, and leaves the others alone |
| `Indexes.PrimaryKeyListedOnce` | cubrid/schema.go:404-428 | exactly one entry has the key's name, and it is primary and unique |
| `AltHost.AcceptsExactlyTheForms` | cubrid/config.go:134-168 | accepted with host and port if and only if the string is one of the documented forms spelling them |
| `AltHost.ParseJoinParse` | cubrid/config.go:134-168 | every accepted entry has a bracket-free host and a port in 1..65535, and its joined form parses to the same pair |
| `AltHost.Normalise` | cubrid/config.go:107-114 | succeeds exactly when every entry is accepted; each stored entry is the joined form and parses as its original does |
| `Connect.Handshake` | cubrid/conn.go:135-201 | after a redirect or any failure exactly one socket is this connection's to close; a redirect dials the same host at the port answered |
| `Connect.ConnectHost` | cubrid/conn.go:110-133 | dials the target and nothing but a redirect from it; one more open socket on success, none on failure |
| `Connect.ParseTargets` | cubrid/conn.go:86-93 | the targets are the primary, then the alternatives, if all parse |
| `Connect.Sweep` | cubrid/conn.go:74-106 | the addresses dialled are those of attempts at a prefix of primary then alternatives, in order; returns the first that works, one socket on success and none on error, one error per attempt |
| `Connect.EndMeans` | cubrid/conn.go:94-105 | a sweep connects exactly when some target works with every one before it failing under a live context |

## Left out

- I/O deadlines, the `guard` callback, TLS and dialing: only that an I/O step may fail and a socket is open or closed.
- `time.Date` normalisation and `lookupZone`: date/time values stay wall-clock fields and a zone name.
- URL, duration and bool parsing in `ParseDSN`, and its splitting of `altHosts` at commas and trimming: the model starts at the list of entries.
- `Numeric` conversion and formatting: a Numeric bind is its text.
- `TypeName`, `ColumnType*` and the other lookup tables: finite lookups.
- `Tables`, `Columns`, `ImportedKeys` and `ExportedKeys`: field copying.
- The greeting, the database-info message, the connect reply and the database-parameter requests: fixed layouts.
- `SetIsolationLevel` and `SetLockTimeout`: range check and clamp only; the isolation level is session-sticky and nothing is claimed about it between pool uses.
- Frame capture, wire logging, the record proxy and the fake broker.
- `sort.SliceStable` is modelled by what it promises; `Sorting.StableSortUnique` shows the promise leaves no freedom.
- `ExecBatchSQL`: its request is a list of strings; its response is covered by the statement-type case of the batch parser.
- Cursor.Rows: keeps its rows as values; that the buffer is reused in place is modelled separately in `TupleBuffer`.
- Session: a FETCH on rows whose statement was closed is still sent, as in the source; whether the server accepts it is not modelled.
- The argument bytes of READ_LOB, WRITE_LOB and NEW_LOB: fixed layouts; a LOB request is its offset and length or data.
- The payload bytes of END_TRANSACTION, CLOSE_STATEMENT and the other adapter requests: a parameter of the session model (`Session.Code`); its link to the connection holds for any.
- SQL semantics, MVCC visibility and lock timeouts: server behaviour.
