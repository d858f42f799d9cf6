# Verified models of the OpenJFX tools and demo applications

Machine-checked models of the parts of the OpenJFX repository that carry the most intricate
state: the `gltrace` recorder and replayer, the WebTerminal screen engine, the triangle-grid mesh
of the 3D viewer and the slide show's prefetch window. `dafny verify dfyconfig.toml` checks the
whole project.

| files | what they model |
|---|---|
| Bytes, Fields, Writer, Reader | `iolib.c`: field codes, chunked writer, flat reader |
| VertexAttrib, Calls | `gles.c`, `egl.c`: what each intercepted call records |
| CallMeaning, TraceFormat | what a decoded command tells about its call, and the bytes of a trace, position by position |
| Replay, RoundTrip, Traces, WholeTrace | `retrace.c`: the decoder, and that it recovers the recording |
| Threads, Session | many threads on one lock; recording and replay end to end |
| HandleTrace, ReplayEnds | which calls replay gets through, and traces that it does not |
| HandleMap, HandleReplay, EnumArena | `map.c` and its use in replay, the string arena of `enums.c` |
| ScreenText, ScreenTree, ScreenLines, ScreenErase, Screen | WebTerminal: cursor movement on text and tree, line and scroll operations |
| StyleSpans, EscapeParser, NodeWriter | WebTerminal: style spans, escape sequences, XML output |
| TriangleGrid | `PNTMeshViewer`: building and recomputing the mesh |
| SlideShow | `FXSlideShow`, `Files`: the three image slots |

Conventions. Bytes, words and pointers are bounded integers; words are little-endian. Pointers are
4 or 8 bytes wide; a 4-byte pointer is recovered up to the sign extension of `getPtr`. Floats are
carried as bit patterns. State that the source updates in place is a class whose methods are proved
against functions; the laws are lemmas about those functions. Exits with FATAL and early returns
are values of the result types. What replay depends on outside of the trace is a parameter: what GL
and EGL answer to each command, and the order in which the compiled program reads the arguments of
`eglGetConfigAttrib`, which C leaves open.

Where the code and its own words or expectations disagree, the model follows the code:

- `getFloatPtr` does not step over its second word, so null and marker values do not round-trip
  (`Fields.GetFloatPtrOf` gives the exact condition).
- `moveTo` does not reset the column behind newlines it adds, and column 0 of a line that starts by
  wrapping does not exist; `ScreenText.Reachable` is the exact condition for reaching a goal. Lines
  wrap at `columnWidth`, which the repository leaves at `Integer.MAX_VALUE` and never assigns; the
  laws hold for every width.
- `moveTo` takes its goal for reached when it runs off the end of the tree, also when the last
  character has already carried it past a column 0 that does not exist. The cursor cache is then
  wrong (`ScreenText.WrongCount`); `ScreenText.Settles` is the exact condition for a right one. Line
  operations keep the cache valid when all their moves settle, as they do on whole lines.
- Line operations with a count larger than their region change lines outside it
  (`ScreenLines.InsertBeyond`, `ScreenLines.DeleteBeyond`).
- `abbrevRepeatedMinimum` says that more than this many characters are abbreviated and that 0 turns
  abbreviation off; the code abbreviates from exactly this many on, and with 0 marks every single
  character (`NodeWriter.CommentIsRight`, `NodeWriter.CommentIsWrong`). Reading back works all the
  same.
- Stepping frame by frame over a command that is not implemented resumes behind its opcode
  (`WholeTrace.FramesDiffer`).
- Replay (`-replay`) ends at calls that decode without trouble: a lookup of an EGL handle before the
  first creation of its kind follows a null map pointer, the 17th handle of a kind finds its table
  full, glGetIntegerv, glGetFloatv and glGetActiveUniform compare with a null result, glGen* exits on
  names other than the recorded ones, and a missing string is compared. `WholeTrace.Replayable` is
  the exact condition for getting through; `ReplayEnds` has the failing inputs.
- `deleteLinesIgnoreScroll` gives up when the line break is not next to the cursor but in another
  span (`ScreenErase.GivesUp` is the exact condition).

## Model

| member | source | states |
|---|---|---|
| Session.RecordAndReplay | tools/gltrace/retrace.c:2468-3656 | End to end: any sequence of supported calls, recorded through chunks of any positive multiple of 4 and written out by `iolib_fini`, is read through the `get` functions by the `process` loop to exactly the recorded calls, and ends at the end of the trace. Every command tells its call argument by argument, with its thread and its time stamps: what value i is follows from the call and the calls before it, not from how it was recorded. With replay this is so if and only if the trace is replayable; otherwise the program ends at the first call it does not get through, with those before it reported. Every handle passed on is the object created last under the recorded one |
| Session.RecordUnfinishedAndReplay | tools/gltrace/iolib.c:110-154 | The same for a recording that never reached `iolib_fini`: the file with the unused tail of its last chunk decodes to the same commands, each telling its call argument by argument |
| Session.ReplayFile | tools/gltrace/retrace.c:2468-3656 | The same for any file of header, records and whole words of zeros |
| CallMeaning.ExpectedReports | tools/gltrace/gles.c:210-283 | The n-th command of a trace, position by position: opcode, thread, time stamps, and every value as an argument or result of the n-th call. Bindings, enabled arrays and array pointers are looked up in the calls before it |
| CallMeaning.CallMeans | tools/gltrace/gles.c:962-1003 | The same for every single call: plain calls, names, shader strings, active uniforms, attached shaders, attribute lists, configurations and `glDrawElements` |
| CallMeaning.DrawElementsMeans | tools/gltrace/gles.c:180-207 | With an element buffer the fourth value is the offset; without one it has count times 1, 2 or 4 bytes, and byte j is the byte at the index pointer plus j. Without an array buffer one block follows for each enabled array, in ascending order, whose vertex j has the bytes at pointer plus j strides |
| CallMeaning.RemembersAll | tools/gltrace/gles.c:210-283 | What the recorder remembers at each call: the buffer last bound to each target, whether each array was last enabled or disabled, and the arguments of its last `glVertexAttribPointer` |
| TraceFormat.HeaderBytes | tools/gltrace/iolib.c:52-73 | A trace begins with 0xdeafca1f, 1, 0, 0 and the pointer width, a word each |
| TraceFormat.RecordBytes | tools/gltrace/iolib.c:161-174 | A record begins with its opcode if its thread is that of the record before; otherwise with the word 2, the thread and the opcode. Its length is its own length, and 4 plus the pointer width more in the second case |
| TraceFormat.RecordEnds | tools/gltrace/iolib.c:317-322 | The last 16 bytes of a record are its two time stamps, the beginning first |
| TraceFormat.LogLength | tools/gltrace/iolib.c:161-174 | A log is as long as its records without prefixes, and 4 plus the pointer width for each change of thread |
| TraceFormat.FieldBytes | tools/gltrace/iolib.c:177-314 | The bytes of every put, one by one: little-endian words, markers, padding with zeros |
| WholeTrace.WholeTraceRoundTrip | tools/gltrace/retrace.c:2468-2524 | Whole-trace law: opening and decoding header plus log gives the expected command of every call in order and nothing more, truncated or with a zero-filled tail; with replay if and only if what the calls create and use fits the handle tables, none asked for a result with a null pointer, and GL generates the recorded names and has the queried strings |
| WholeTrace.ReplayRun | tools/gltrace/retrace.c:2473-2524 | Decoding a run of records that replay gets through, in front of arbitrary bytes, gives the expected commands and goes on with those bytes, in a state that still agrees with the recorder |
| WholeTrace.DyingRun | tools/gltrace/retrace.c:3498-3614 | Otherwise the calls before the first that replay does not get through are reported, and the program ends there |
| WholeTrace.LivingIsAll | tools/gltrace/retrace.c:3498-3614 | Replay gets through all calls if and only if their handles fit, none is a null call and each is answered |
| WholeTrace.StoppedRun | tools/gltrace/retrace.c:3437-3449 | The first command that is not implemented, whose attribute list does not fit, or, in replay, a glGetFloatv with a null pointer, stops the decoder there, if it gets there, after everything before it was reported |
| WholeTrace.FrameSplit | tools/gltrace/retrace.c:3634-3656 | On any bytes, k frames and then m more equal k + m frames if the first run got its k frames; otherwise k + m frames end where k frames ended |
| WholeTrace.FramesOfTrace | tools/gltrace/retrace.c:3634-3656 | On recorded traces, truncated or zero-tailed, k then m frames (both positive) decode the commands of k + m frames; replay that ends within the first k frames, exactly when a call it does not get through comes before the k-th swap, ends there with k + m frames too |
| WholeTrace.FramesReached | tools/gltrace/retrace.c:3648-3653 | At least k buffer swaps before replay ends let `process` finish k frames |
| WholeTrace.FramesUpToUnimplemented | tools/gltrace/retrace.c:3634-3656 | Calls followed by one that is not implemented: k then m frames decode the commands of k + m frames if and only if k frames are reached before it or what is behind its opcode does not decode as a command |
| WholeTrace.FramesDiffer | tools/gltrace/retrace.c:3634-3641 | Counterexample with a recorded glBlendColor, which is not implemented: stepping resumes behind its opcode, where the longer run gave up, and takes the red component for a command |
| WholeTrace.AtEnd | tools/gltrace/iolib.c:335-342 | A zero-filled tail, or nothing, decodes to no command and ends the trace |
| WholeTrace.OpenOf | tools/gltrace/iolib.c:75-107 | Reading back the header gives the pointer width and leaves exactly the records |
| Traces.ProcessRecord | tools/gltrace/retrace.c:2473-2484 | One turn of `process` takes exactly one record (thread prefix included) off any longer trace and reports it, or ends the program when replay does not get through it |
| Traces.ReadCall | tools/gltrace/retrace.c:2486-3630 | For every supported call, a decoder whose mirror agrees with the recorder recovers all arguments and leaves exactly the bytes behind the record |
| WholeTrace.ReadCallExactly | tools/gltrace/retrace.c:2486-3630 | An agreeing decoder recovers a recorded call, in front of any bytes, if and only if the call is supported |
| Traces.AgreeStep | tools/gltrace/gles.c:261-283 | Recorder and decoder keep their buffer bindings and attribute tables in agreement over every call, though each updates its own |
| Traces.StageStep | tools/gltrace/retrace.c:3498-3614 | After a decoded call replay has looked up and bound exactly its handles |
| Traces.NextOpOf | tools/gltrace/retrace.c:2475-2484 | The thread prefix is there exactly when the thread changed, and the decoder attributes the record to the right thread either way |
| Replay.ShapesAgree | tools/gltrace/retrace.c:2486-3630 | The decoder implements every fixed-shape command with the sequence of field kinds that the recorder writes, except exactly six: glBlendColor, glUniform2i, glUniform3i, glUniform4i, glUniform4iv and eglTerminate |
| RoundTrip.ReadDrawElementsOf | tools/gltrace/retrace.c:2802-2822 | A `glDrawElements` record, whose shape depends on bindings and enabled attributes, is read back completely |
| RoundTrip.BlockKinds | tools/gltrace/gles.c:180-207 | The blocks the recorder wrote are, one for one, those the decoder's mirror of enabled attributes asks for |
| RoundTrip.ReadPairsOf | tools/gltrace/egl.c:151-205 | A sentinel-terminated attribute list is read back if and only if list and sentinel fit the 64-slot array; otherwise replay exits |
| RoundTrip.ReadChooseConfigOf | tools/gltrace/retrace.c:3437-3462 | `eglChooseConfig` with its configurations is read back exactly when its list fits |
| RoundTrip.ReadEglCreateOf | tools/gltrace/retrace.c:3478-3503 | `eglCreateWindowSurface` and `eglCreateContext` are read back exactly when their lists fit |
| RoundTrip.ReadShaderSourceOf | tools/gltrace/retrace.c:3128-3147 | The strings of `glShaderSource`, counted or NUL-terminated, null ones included, are read back |
| RoundTrip.ReadNamesOf | tools/gltrace/retrace.c:2713-2722 | The names of `glGen*` and `glDelete*` are read back, none for a negative count |
| RoundTrip.ReadActiveUniformOf | tools/gltrace/retrace.c:2902-2939 | The outputs of `glGetActiveUniform` are read back, each present only when its pointer was not null |
| RoundTrip.ReadAttachedShadersOf | tools/gltrace/retrace.c:2940-2968 | `glGetAttachedShaders` is read back if and only if it is replayed or no shader was listed |
| Session.Puts | tools/gltrace/gles.c:962-1003 | The puts an interceptor makes, loop by loop, are the specified fields of the call, the client arrays packed through the staging buffer |
| Session.PutInts | tools/gltrace/gles.c:1107-1125 | The loop over names or shaders puts each of them, none for a negative count |
| Session.PutParts | tools/gltrace/gles.c:1704-1721 | The loop of `glShaderSource` puts a length and a block, or a length and a string, per part |
| Session.PutPairs | tools/gltrace/egl.c:158-163 | The loop over an attribute list in client memory stops at its sentinel and puts every pair before it; a null list is just the sentinel |
| Session.PutConfigs | tools/gltrace/egl.c:170-174 | The loop over the configurations stops at either bound |
| Session.PutRecord | tools/gltrace/iolib.c:161-183 | `putCmd`, the puts and `putTime` append exactly one record to the log and leave the lock free |
| Session.Recording.constructor | tools/gltrace/iolib.c:52-73 | A new recording holds just the header |
| Session.Recording.Intercept | tools/gltrace/gles.c:261-283 | An intercepted call appends its record and then updates the bindings |
| Session.Recording.InterceptAll | tools/gltrace/gles.c:210-283 | Any run of calls appends exactly its records, thread prefixes only where the thread changes |
| Threads.EveryRunKeeps | tools/gltrace/iolib.c:156-183 | For every interleaving and nesting: the reentrance count is the lock depth, and the log is the complete outermost records plus at most the open record of the lock owner |
| Threads.NestedCallIsSilent | tools/gltrace/iolib.c:161-174 | A whole nested call, from its Enter over any events to its own Leave, adds no byte, leaves the open and the finished records as they are and the lock as deep as it was |
| Threads.SilentRun | tools/gltrace/iolib.c:161-183 | Any run inside a nested call is silent |
| Threads.CallRuns | tools/gltrace/iolib.c:156-183 | Whenever the lock is free, any thread can make any call, which then is on record and leaves the lock free |
| Threads.OthersWait | tools/gltrace/iolib.c:156-174 | While a thread holds the lock, no other enters, puts or leaves |
| Threads.AttributedReplay | tools/gltrace/retrace.c:2475-2484 | A multi-threaded run whose outermost records are those of intercepted calls decodes to them, each attributed to the thread that made it; with replay, up to the first call it does not get through |
| Threads.LogBytesSnoc | tools/gltrace/iolib.c:161-174 | The log of one more record is the old log and that record, prefixed only if its thread differs from the last one |
| Threads.Perform | tools/gltrace/iolib.c:316-329 | The chunked writer carries out every step of the thread machine |
| Threads.PerformAll | tools/gltrace/iolib.c:110-183 | Any run of the threads, carried out on a new writer with chunks of any size, leaves the file whose bytes are the log of the run |
| TraceWriter.Writer.constructor | tools/gltrace/iolib.c:52-73 | Nothing mapped, then the header |
| TraceWriter.Writer.Enlarge | tools/gltrace/iolib.c:127-154 | Mapping the next chunk leaves the log as it was |
| TraceWriter.Writer.Store | tools/gltrace/iolib.c:240-247 | The copy loops store inside the chunk and append exactly their bytes |
| TraceWriter.Writer.PutRaw | tools/gltrace/iolib.c:233-250 | Bytes that cross any number of chunk boundaries are appended to the log unchanged |
| TraceWriter.Writer.PadToWord | tools/gltrace/iolib.c:291 | Padding ends at a word boundary, never leaves the chunk, and is as long as the log length demands |
| TraceWriter.Writer.PutPadded | tools/gltrace/iolib.c:295-314 | Padding computed from the pointer equals padding computed from the length |
| TraceWriter.Writer.PutInt | tools/gltrace/iolib.c:177-183 | Appends the word, or nothing in a nested call |
| TraceWriter.Writer.PutNullable | tools/gltrace/iolib.c:186-231 | Appends the escape code of a nullable word |
| TraceWriter.Writer.PutWide | tools/gltrace/iolib.c:233-268 | Appends 8-byte values and pointers across chunk boundaries and keeps the cursor aligned |
| TraceWriter.Writer.PutString | tools/gltrace/iolib.c:271-292 | Appends the string with its NUL, padded; a null string is one zero word |
| TraceWriter.Writer.PutBytes | tools/gltrace/iolib.c:295-314 | Appends size and block, padded |
| TraceWriter.Writer.Put | tools/gltrace/iolib.c:177-314 | Every put appends exactly the field code, or nothing in a nested call |
| TraceWriter.Writer.PutAll | tools/gltrace/iolib.c:110-314 | The chunked writer refines a flat append: any sequence of puts appends the concatenated codes wherever chunk boundaries fall |
| TraceWriter.Writer.PutCmd | tools/gltrace/iolib.c:161-174 | Outermost: thread prefix when the thread changed, then the opcode; nested: only the counter |
| TraceWriter.Writer.EndCmd | tools/gltrace/iolib.c:325-329 | One reentrance less |
| TraceWriter.Writer.PutTime | tools/gltrace/iolib.c:317-322 | Appends the two time stamps of an outermost call and leaves it |
| TraceWriter.Writer.Fini | tools/gltrace/iolib.c:111-124 | The truncated file is exactly the log, fileOffset - (endPtr - curPtr) bytes long |
| TraceWriter.Writer.Abandon | tools/gltrace/iolib.c:127-154 | Without `iolib_fini` the file keeps the whole mapped window |
| TraceWriter.Writer.UntruncatedFile | tools/gltrace/iolib.c:127-154 | A file that was never truncated is the log followed by whole words of zeros |
| Fields.EncAligned | tools/gltrace/iolib.c:177-314 | Every field code is a positive number of whole words |
| Fields.GetOf | tools/gltrace/iolib.c:345-436 | Each field code is self-delimiting: its reader gives the promised value and leaves any suffix, if and only if the field is not a null or marker `putFloatPtr` |
| Fields.GetIntPtrOf | tools/gltrace/iolib.c:354-367 | Nullable ints round-trip, null and the marker value included |
| Fields.GetFloatPtrOf | tools/gltrace/iolib.c:379-391 | The float code round-trips if and only if the value is neither null nor the marker |
| Fields.GetStringOf | tools/gltrace/iolib.c:412-421 | Strings round-trip with the padding recomputed from the length |
| Fields.GetBytesOf | tools/gltrace/iolib.c:424-436 | Blocks round-trip; null or empty ones come back null |
| Fields.NullStringIsEmpty | tools/gltrace/iolib.c:271-276 | A null string is written like the empty one |
| Fields.GetPtrOf | tools/gltrace/iolib.c:403-409 | Pointers round-trip, for width 4 up to sign extension |
| Fields.ReadKindsOf | tools/gltrace/iolib.c:345-436 | A whole sequence of fields is read back in front of any suffix |
| Bytes.RoundUpIsPadded | tools/gltrace/iolib.c:412-421 | The reader's rounding of a length equals the writer's padding |
| Bytes.LERoundTrip | tools/gltrace/iolib.c:233-250 | Little-endian images of any width are inverted |
| TraceReader.Reader.GetInt | tools/gltrace/iolib.c:345-351 | Reads the specified word off the remaining bytes |
| TraceReader.Reader.GetLongLong | tools/gltrace/iolib.c:394-400 | Reads the specified 8 bytes |
| TraceReader.Reader.GetPointer | tools/gltrace/iolib.c:403-409 | Reads a pointer of the recorded width |
| TraceReader.Reader.GetNullableInt | tools/gltrace/iolib.c:354-367 | Reads the escape code of a nullable int |
| TraceReader.Reader.GetNullableFloat | tools/gltrace/iolib.c:379-391 | Reads a nullable float, without stepping over the second word |
| TraceReader.Reader.GetText | tools/gltrace/iolib.c:412-421 | Reads a padded string, scanning for its NUL |
| TraceReader.Reader.GetBlock | tools/gltrace/iolib.c:424-436 | Reads a padded block |
| TraceReader.Reader.GetOpcode | tools/gltrace/iolib.c:335-342 | The opcode, or the end of the trace |
| TraceReader.Reader.GetAll | tools/gltrace/retrace.c:2486-3630 | Gets one after the other read the specified kinds |
| TraceReader.Reader.GetParts | tools/gltrace/retrace.c:3134-3144 | The loop over shader strings chooses block or string by the length |
| TraceReader.Reader.GetPairs | tools/gltrace/retrace.c:3441-3448 | The loop into the 64-slot array stops at the sentinel, or exits when the array is full |
| TraceReader.Replayer.ReadOpcode | tools/gltrace/retrace.c:2475-2484 | Takes the thread prefix off |
| TraceReader.Replayer.ReadDraw | tools/gltrace/retrace.c:2802-2822 | Reads the indices and blocks that the mirrored state asks for |
| TraceReader.Replayer.ReadArguments | tools/gltrace/retrace.c:2486-3630 | The switch reads, for every opcode and any bytes, the specified arguments, or reports why not |
| TraceReader.Replayer.Execute | tools/gltrace/retrace.c:3498-3614 | Replaying a command looks its handles up in the tables and ends the program exactly where the specification says |
| TraceReader.Replayer.Run | tools/gltrace/retrace.c:2468-3656 | The imperative decoder loop, reading through the cursor and renaming through the tables, computes the specified outcome for any bytes, state and frame count |
| VertexAttrib.PackedVertex | tools/gltrace/gles.c:180-207 | Vertex j of the packed stride-0 block has the bytes of vertex j of the original array, whatever its stride |
| VertexAttrib.Pack | tools/gltrace/gles.c:194-204 | The copy loop fills the staging buffer with the packed block and stays inside it |
| VertexAttrib.Copy | tools/gltrace/gles.c:198-200 | The byte loop copies one vertex and nothing before it |
| VertexAttrib.PutVertexAttrib | tools/gltrace/gles.c:181-207 | The two passes put one packed block per enabled attribute; the buffer sized in the first is never exceeded in the second |
| HandleMap.ObjectMaps.constructor | tools/gltrace/map.c:36-39 | All tables are empty |
| HandleMap.ObjectMaps.CreateMap | tools/gltrace/map.c:41-49 | Hands out a table not given to anybody before, 16 times |
| HandleMap.ObjectMaps.PutMap | tools/gltrace/map.c:51-69 | Binds the key in this table and changes no other table; fails if and only if the key is new and 16 are in use |
| HandleMap.ObjectMaps.GetMap | tools/gltrace/map.c:71-85 | Gives the bound value; null for an unknown key and for null |
| HandleMap.OthersHold | tools/gltrace/map.c:51-69 | A store in one table leaves the contents of the 15 others as they are |
| HandleMap.TracksPut | tools/gltrace/map.c:51-69 | A table that answers with the latest puts still does so after one more |
| HandleReplay.Renaming.constructor | tools/gltrace/retrace.c:3498-3501 | Before anything is created there is no table |
| HandleReplay.Renaming.Lookup | tools/gltrace/retrace.c:3588-3592 | A recorded handle is replaced by the object created last under it; without a table there is a null map pointer |
| HandleReplay.Renaming.EnsureTable | tools/gltrace/retrace.c:3498-3501 | Surfaces and contexts get different tables, each made at the first creation of its kind |
| HandleReplay.Renaming.Bind | tools/gltrace/retrace.c:3564-3567 | A creation is remembered; replay exits if and only if the table is full |
| HandleReplay.Renaming.Replay | tools/gltrace/retrace.c:3564-3592 | For any run of creations and uses: it gets through exactly when every event fits, and then each use got the object most recently created under its recorded handle |
| HandleReplay.FitsWhenFew | tools/gltrace/map.c:51-69 | A run fits if and only if no use precedes the first creation of its kind, each kind has at most 16 different handles, and no failed creation comes when 16 are there |
| HandleReplay.RenamedAt | tools/gltrace/retrace.c:3564-3592 | The k-th lookup becomes what the last creation of its kind under that handle before it returned, or null when there was none |
| Session.RecordAndRename | tools/gltrace/retrace.c:3498-3614 | Record, replay, rename: replay of a recorded trace gets through exactly when it is replayable, and then every recorded surface or context was replaced by the object created last under that handle |
| HandleTrace.CallEventsSeen | tools/gltrace/retrace.c:3498-3614 | The lookups and bindings that replay makes for a decoded call are what the recorded call created and used |
| HandleTrace.LivesSeen | tools/gltrace/retrace.c:1356-1385 | Whether replay gets through a decoded command is a condition on the recorded call, the handles so far and the answer of GL |
| HandleReplay.Renaming.Pass | tools/gltrace/retrace.c:3564-3592 | Events behind any past: it gets through exactly when each fits in its turn, and gives the latest object for each use |
| HandleReplay.FitsInParts | tools/gltrace/map.c:51-69 | A run of events fits if and only if its parts fit one behind the other |
| ReplayEnds.SwapWithoutSurface | tools/gltrace/retrace.c:3610-3613 | A buffer swap without a surface decodes, and is not replayable |
| ReplayEnds.TooManySurfaces | tools/gltrace/map.c:51-69 | A trace of n different surfaces is replayable if and only if n is at most 16 |
| ReplayEnds.NullIntegers | tools/gltrace/retrace.c:1366-1384 | glGetIntegerv with a null pointer decodes, and is not replayable |
| ReplayEnds.NullName | tools/gltrace/retrace.c:2902-2938 | glGetActiveUniform without a name decodes, and is not replayable |
| ReplayEnds.OtherNames | tools/gltrace/retrace.c:1103-1127 | glGenBuffers that generates another name than the recorded one ends replay |
| EnumArena.Survives | tools/gltrace/enums.c:547-554 | A returned string is intact after up to 90 further calls with any values |
| EnumArena.NinetyIsTight | tools/gltrace/enums.c:547-554 | 91 further calls can destroy it |
| EnumArena.Names.Unknown | tools/gltrace/enums.c:161-168 | The fallback writes inside its 1024 bytes and updates buffer and pointer as specified |
| EnumArena.HexLength | tools/gltrace/enums.c:161-168 | The hexadecimal image of a 32-bit value has one to eight digits |
| EnumArena.ImageSpells | tools/gltrace/enums.c:161-168 | The string is 0x, lower-case hexadecimal digits without leading zeros whose value is the number, and NUL |
| EnumArena.NamePlaces | tools/gltrace/enums.c:161-168 | It is put where the last one ended, or at the start when fewer than 16 of the 1024 bytes are left, and no other byte changes |
| ScreenText.MoveLands | apps/experiments/WebTerminal/src/webterminal/WebTerminal.java:1593-1792 | `moveTo` puts in only newlines at the end and blanks directly before the cursor, and lands on its goal as `delta2D` measures it if and only if: the column is on the screen, a missing line is wanted in column 0 or the last line is empty, and column 0 is not that of a line begun by wrapping |
| ScreenText.MoveStays | apps/experiments/WebTerminal/src/webterminal/WebTerminal.java:1593-1792 | A goal that is a place of the document is reached without changing anything |
| ScreenText.TextMeasured | apps/experiments/WebTerminal/src/webterminal/WebTerminal.java:1820-1831 | A break begins a new line; a line of n characters is cut into rows of the width, the last row never empty, so the place behind it is k rows down in column n - k * width, between 1 and the width |
| ScreenText.WalkLands | apps/experiments/WebTerminal/src/webterminal/WebTerminal.java:1632-1757 | The same from any place not past the goal |
| ScreenText.MoveFromCursor | apps/experiments/WebTerminal/src/webterminal/WebTerminal.java:1602-1611 | A walk from the valid cached cursor ends with the same text and cursor as the walk from home |
| ScreenText.CachedWalk | apps/experiments/WebTerminal/src/webterminal/WebTerminal.java:1602-1611 | A walk may start at any place not past the goal |
| ScreenText.WalkFills | apps/experiments/WebTerminal/src/webterminal/WebTerminal.java:1642-1757 | Any walk changes nothing but to put in newlines at the end and blanks directly before the cursor, which stands before a newline or at the end then |
| ScreenText.MissedGoals | apps/experiments/WebTerminal/src/webterminal/WebTerminal.java:1742-1757 | Two goals that are missed: a column of a missing line, column 0 of a wrapped line |
| ScreenText.CountsRight | apps/experiments/WebTerminal/src/webterminal/WebTerminal.java:1742-1791 | The remembered place after a move is the measured one if and only if the goal is reached, or is in column 0 and the document does not end, with a character as its last leaf, one character behind it |
| ScreenText.Settled | apps/experiments/WebTerminal/src/webterminal/WebTerminal.java:1786-1791 | The same for a move from home, for every goal on the screen and for column 0 of any line |
| ScreenText.CachedCount | apps/experiments/WebTerminal/src/webterminal/WebTerminal.java:1602-1611 | A walk from the cached cursor remembers what the walk from home remembers |
| ScreenText.WrongCount | apps/experiments/WebTerminal/src/webterminal/WebTerminal.java:1742-1760 | The failing case: with three columns, column 0 of the second line of "abcd" is remembered but column 1 is where the cursor is; with an empty node behind the text the place is right |
| ScreenTree.MoveTo | apps/experiments/WebTerminal/src/webterminal/WebTerminal.java:1593-1792 | On the tree of spans, text and `br`, from the cursor or from home: every border of an element, every break and every character stays, and newlines or blanks are put in directly before the cursor, where a line or the document ends. `delta2D` over the new tree measures the goal if and only if the goal is reachable, and the remembered place is the measured one if and only if the goal settles |
| ScreenTree.MoveIn | apps/experiments/WebTerminal/src/webterminal/WebTerminal.java:1632-1773 | The walk by child, sibling and ancestor, merging, splitting and padding text nodes, leaves the text, the cursor and the count of the walk over the flat text, and the outline of elements as it was but for what is put in before the cursor |
| ScreenTree.TextLeaf | apps/experiments/WebTerminal/src/webterminal/WebTerminal.java:1654-1706 | A text node is merged with those before it, scanned, and split or padded where the walk stops |
| ScreenTree.ScanText | apps/experiments/WebTerminal/src/webterminal/WebTerminal.java:1669-1705 | The character loop goes as far as the walk over the flat text |
| ScreenTree.Climb | apps/experiments/WebTerminal/src/webterminal/WebTerminal.java:1735-1772 | Going up finds the next node in reading order, or that there is none, and changes neither text nor outline |
| ScreenTree.PadBreak | apps/experiments/WebTerminal/src/webterminal/WebTerminal.java:1637-1647 | Blanks go in before a `br` that ends the goal line too early, in its own element |
| ScreenTree.Append | apps/experiments/WebTerminal/src/webterminal/WebTerminal.java:1737-1757 | What is missing at the end is appended to the outermost element, and the outline before it stays |
| ScreenTree.DeltaAtCursor | apps/experiments/WebTerminal/src/webterminal/WebTerminal.java:1840-1885 | `delta2D` over the tree with the cursor in it measures the place of the cursor in the flat text |
| ScreenTree.HomeKeeps | apps/experiments/WebTerminal/src/webterminal/WebTerminal.java:1609-1614 | The tree seen from home has the same text and the same end |
| ScreenText.DeltaMeasures | apps/experiments/WebTerminal/src/webterminal/WebTerminal.java:1840-1885 | `delta2D` over nested spans, text and `br` measures the flat text before the cursor |
| ScreenText.PlacesGrow | apps/experiments/WebTerminal/src/webterminal/WebTerminal.java:1820-1831 | Places strictly grow in reading order through any document |
| Screen.Screen.constructor | apps/experiments/WebTerminal/src/webterminal/WebTerminal.java:136-144 | An empty screen with an unknown cursor place |
| Screen.Screen.CursorLine | apps/experiments/WebTerminal/src/webterminal/WebTerminal.java:183-196 | The line of the cursor, measured when the cache is empty |
| Screen.Screen.Go | apps/experiments/WebTerminal/src/webterminal/WebTerminal.java:1632-1757 | The loop of `moveTo` on flat text computes the specified walk and count, whether or not an empty node stands behind the last character |
| Screen.Screen.MoveTo | apps/experiments/WebTerminal/src/webterminal/WebTerminal.java:1593-1792 | With a valid cache `moveTo` ends where the walk from home ends; the cache is the goal if that is reachable, and stays valid if the goal settles |
| Screen.Screen.LineStart | apps/experiments/WebTerminal/src/webterminal/WebTerminal.java:1073-1078 | Moves to column 0 of a line counted from the cursor; the cache stays valid downwards, and upwards if the goal settles |
| Screen.Screen.EraseRight | apps/experiments/WebTerminal/src/webterminal/WebTerminal.java:962-1064 | Takes n characters behind the cursor and nothing else: no newline among them, and n is `count`, or, when that is negative or the line is shorter, a newline or the end follows; a valid cache stays valid |
| ScreenLines.EraseTakes | apps/experiments/WebTerminal/src/webterminal/WebTerminal.java:962-1064 | The same law of the specified function, in slices of the old text |
| Screen.Screen.DeleteLinesIgnoreScroll | apps/experiments/WebTerminal/src/webterminal/WebTerminal.java:868-891 | Deletes rows of text, stopping at the end of the document; a valid cache stays valid |
| ScreenErase.TreeDeletesRows | apps/experiments/WebTerminal/src/webterminal/WebTerminal.java:868-891 | On the tree rows are deleted as in the flat text if and only if the operation does not give up, that is, if no line break it needs is anywhere but next to the cursor |
| ScreenErase.DeleteLinesIgnoreScroll | apps/experiments/WebTerminal/src/webterminal/WebTerminal.java:868-891 | The loop over the tree: erase the rest of the line, take the break next to the cursor, or stop |
| ScreenErase.EraseLineFlat | apps/experiments/WebTerminal/src/webterminal/WebTerminal.java:962-1064 | The walk through siblings, into elements and out of them erases exactly the rest of the line, wherever in the tree it is |
| ScreenErase.EraseLineOutline | apps/experiments/WebTerminal/src/webterminal/WebTerminal.java:962-1064 | Nothing changes before the cursor, and nothing from the line break on: every break, character and border of an element stays |
| ScreenErase.BreakIsFound | apps/experiments/WebTerminal/src/webterminal/WebTerminal.java:868-891 | Whether the break will be found can be seen before: it is a sibling of the cursor and everything before it is removed |
| ScreenErase.OneContainer | apps/experiments/WebTerminal/src/webterminal/WebTerminal.java:868-891 | With text and `br` in one container the operation never gives up |
| ScreenErase.BreakElsewhere | apps/experiments/WebTerminal/src/webterminal/WebTerminal.java:868-891 | A break in another span stays where it is |
| Screen.Screen.InsertLinesIgnoreScroll | apps/experiments/WebTerminal/src/webterminal/WebTerminal.java:855-866 | Puts newlines behind the cursor; a valid cache stays valid |
| Screen.Screen.InsertLines | apps/experiments/WebTerminal/src/webterminal/WebTerminal.java:893-899 | On any screen of whole lines, the lines from the cursor to the bottom move down, n blank ones come in and nothing else changes, for n up to the lines there; the cursor goes to column 0. The cache stays valid when every move of the operation settles |
| Screen.Screen.DeleteLines | apps/experiments/WebTerminal/src/webterminal/WebTerminal.java:901-907 | From column 0, the lines from the cursor to the bottom move up and n blank ones come in above the bottom. The cache stays valid when every move of the operation settles |
| Screen.Screen.ScrollForward | apps/experiments/WebTerminal/src/webterminal/WebTerminal.java:909-917 | The lines of the scroll region move up by n, every other line stays, the cursor goes to column 0 of its line. The cache stays valid when every move of the operation settles |
| Screen.Screen.ScrollReverse | apps/experiments/WebTerminal/src/webterminal/WebTerminal.java:919-926 | The lines of the scroll region move down by n, every other line stays, the cursor goes to column 0 of its line. The cache stays valid when every move of the operation settles |
| Screen.Screen.ScrollForwardAndBack | apps/experiments/WebTerminal/src/webterminal/WebTerminal.java:909-926 | Scrolling forward and back on the real state blanks only the top n lines of the region |
| ScreenLines.InsertLinesAt | apps/experiments/WebTerminal/src/webterminal/WebTerminal.java:893-899 | On flat newline-terminated text, insert line is the list operation: lines from the cursor to the bottom move down, n blank ones come in, the rest stays (short screens are filled up to the bottom first) |
| ScreenLines.DeleteLinesAt | apps/experiments/WebTerminal/src/webterminal/WebTerminal.java:901-907 | Delete line from column 0: lines from the cursor to the bottom move up, n blank ones come in above the bottom |
| ScreenLines.DeleteLinesFrom | apps/experiments/WebTerminal/src/webterminal/WebTerminal.java:901-907 | Delete line from any column: the lines move as from column 0, and what stood before the cursor comes before the line that has moved up to it, or before the line below when the whole region is deleted |
| ScreenLines.ScrollForwardAt | apps/experiments/WebTerminal/src/webterminal/WebTerminal.java:909-917 | Scroll up moves exactly the lines of the region, and the cursor to column 0 of its line |
| ScreenLines.ScrollReverseAt | apps/experiments/WebTerminal/src/webterminal/WebTerminal.java:919-926 | Scroll down moves exactly the lines of the region |
| ScreenLines.ForwardThenReverse | apps/experiments/WebTerminal/src/webterminal/WebTerminal.java:909-926 | scrollForward(n) then scrollReverse(n) blanks the top n lines of the region and nothing else |
| ScreenLines.RegionOnly | apps/experiments/WebTerminal/src/webterminal/WebTerminal.java:893-926 | The region operations conserve the number of lines and every line outside the region, and say which line comes where |
| ScreenLines.InsertBeyond | apps/experiments/WebTerminal/src/webterminal/WebTerminal.java:893-926 | For every count larger than the region there is a screen on which inserting or scrolling down changes a line below it |
| ScreenLines.DeleteBeyond | apps/experiments/WebTerminal/src/webterminal/WebTerminal.java:901-917 | For every count larger than the region there is a screen on which deleting or scrolling up changes a line outside it |
| ScreenLines.DeleteRowsAt | apps/experiments/WebTerminal/src/webterminal/WebTerminal.java:868-891 | Deleting rows of text deletes lines of the list, as many as there are |
| ScreenLines.DeleteRowsFrom | apps/experiments/WebTerminal/src/webterminal/WebTerminal.java:868-891 | From any place, deleting rows takes whole lines off what follows |
| ScreenLines.MoveToLine | apps/experiments/WebTerminal/src/webterminal/WebTerminal.java:1593-1792 | Moving to column 0 of a line finds its start, blank lines added when it is missing |
| ScreenLines.LineStartAt | apps/experiments/WebTerminal/src/webterminal/WebTerminal.java:1073-1078 | A move counted from the cursor ends where the absolute move ends |
| ScreenLines.LineStartFrom | apps/experiments/WebTerminal/src/webterminal/WebTerminal.java:1073-1078 | Downwards the line is found from any column |
| ScreenLines.CarriageReturnLineFeed | apps/experiments/WebTerminal/src/webterminal/WebTerminal.java:1260-1272 | From any column of whole lines, the one move for a carriage return with its line feed ends where the two moves end |
| ScreenLines.InsertLinesSettle | apps/experiments/WebTerminal/src/webterminal/WebTerminal.java:893-899 | On whole lines every move of insert line settles, so the cache stays valid |
| ScreenLines.DeleteLinesSettle | apps/experiments/WebTerminal/src/webterminal/WebTerminal.java:901-907 | On whole lines every move of delete line settles |
| ScreenLines.ForwardSettle | apps/experiments/WebTerminal/src/webterminal/WebTerminal.java:909-917 | On whole lines every move of scrolling up settles |
| ScreenLines.ReverseSettle | apps/experiments/WebTerminal/src/webterminal/WebTerminal.java:919-926 | On whole lines every move of scrolling down settles |
| StyleSpans.AdjustKeepsText | apps/experiments/WebTerminal/src/webterminal/WebTerminal.java:741-826 | `adjustStyle` leaves every character with its span path, and the cursor offset, unchanged |
| StyleSpans.AdjustSpells | apps/experiments/WebTerminal/src/webterminal/WebTerminal.java:741-826 | Afterwards the spans around the cursor spell exactly `currentStyles` |
| StyleSpans.KeepsLongest | apps/experiments/WebTerminal/src/webterminal/WebTerminal.java:758-801 | However many outer spans spell the beginning of the wanted styles, the last not beyond their end, `adjustStyle` keeps them all and opens at most one new span |
| StyleSpans.PropsKeepInk | apps/experiments/WebTerminal/src/webterminal/WebTerminal.java:768-796 | Parsing a style attribute loses nothing but blanks and semicolons, and gives properties without blanks at their ends or semicolons |
| StyleSpans.AdjustIsIdempotent | apps/experiments/WebTerminal/src/webterminal/WebTerminal.java:741-826 | Adjusting again does nothing |
| StyleSpans.PopKeeps | apps/experiments/WebTerminal/src/webterminal/WebTerminal.java:828-853 | `popStyle` splits the span without changing the styled text on either side of the cursor |
| StyleSpans.PopSplits | apps/experiments/WebTerminal/src/webterminal/WebTerminal.java:828-853 | The span is closed before the cursor and, only if something follows, opened again behind it |
| StyleSpans.PropsOfJoin | apps/experiments/WebTerminal/src/webterminal/WebTerminal.java:768-812 | Parsing the style attribute of a new span gives back the styles it was joined from |
| StyleSpans.PushSets | apps/experiments/WebTerminal/src/webterminal/WebTerminal.java:719-739 | After a push the property has just the pushed value, or none |
| StyleSpans.PushLeavesOthers | apps/experiments/WebTerminal/src/webterminal/WebTerminal.java:719-739 | A push leaves every other property as it was |
| StyleSpans.PushKeepsOrder | apps/experiments/WebTerminal/src/webterminal/WebTerminal.java:719-739 | The styles that do not set the property stay in their order, and the new one comes behind them |
| StyleSpans.Terminal.PushSimpleStyle | apps/experiments/WebTerminal/src/webterminal/WebTerminal.java:719-739 | The removal loop and the append give the specified list of styles |
| StyleSpans.Terminal.PopStyle | apps/experiments/WebTerminal/src/webterminal/WebTerminal.java:828-853 | The cursor leaves its span as specified |
| StyleSpans.Terminal.MatchStyle | apps/experiments/WebTerminal/src/webterminal/WebTerminal.java:768-796 | The scan of a style attribute tells whether its properties continue the wanted styles |
| StyleSpans.Terminal.KeepLevels | apps/experiments/WebTerminal/src/webterminal/WebTerminal.java:758-801 | The loop keeps exactly the outer spans that go on spelling the wanted styles |
| StyleSpans.Terminal.AdjustStyle | apps/experiments/WebTerminal/src/webterminal/WebTerminal.java:741-826 | The method keeps the text, spells the styles and keeps the nest valid |
| EscapeParser.PiecesDoNotMatter | apps/experiments/WebTerminal/src/webterminal/WebTerminal.java:1167-1338 | The specified parser, being a fold over characters, does not see how its input is cut; that the method with its pending stretch and its lookahead is this fold is what `InsertString` states |
| EscapeParser.OutputUnderstood | apps/experiments/WebTerminal/src/webterminal/WebTerminal.java:1167-1338 | Any list of characters, one-character controls, escapes with one character, control sequences with any number of parameters (-1 when missing), system controls ended by BEL or NUL and system controls broken off before their text, rendered and cut anywhere, is dispatched exactly as it was meant |
| EscapeParser.RunItems | apps/experiments/WebTerminal/src/webterminal/WebTerminal.java:1167-1338 | Rendering is inverted by the parser, which is idle again afterwards |
| EscapeParser.RunItem | apps/experiments/WebTerminal/src/webterminal/WebTerminal.java:1182-1256 | One item of each kind, from its first character to its last |
| EscapeParser.WrapIsInt | apps/experiments/WebTerminal/src/webterminal/WebTerminal.java:1202-1208 | Parameters are computed modulo 2 to the 32, as signed ints |
| EscapeParser.RunNumerals | apps/experiments/WebTerminal/src/webterminal/WebTerminal.java:1202-1225 | Parameter lists of any length are collected in full |
| EscapeParser.Terminal.Grow | apps/experiments/WebTerminal/src/webterminal/WebTerminal.java:1209-1217 | The growing parameter array always has room for the next parameter and keeps the earlier ones |
| EscapeParser.Terminal.ControlChar | apps/experiments/WebTerminal/src/webterminal/WebTerminal.java:1202-1226 | One character of a control sequence does the specified step and never overruns the array |
| EscapeParser.Terminal.InsertString | apps/experiments/WebTerminal/src/webterminal/WebTerminal.java:1167-1338 | For every string, the loop with its pending stretch, its lookahead behind a carriage return and its breaks before wrapped characters signals exactly what the character-wise parser signals |
| EscapeParser.Terminal.ReturnAndFeed | apps/experiments/WebTerminal/src/webterminal/WebTerminal.java:1260-1272 | A carriage return taken together with its line feed signals both |
| EscapeParser.Terminal.InsertPieces | apps/experiments/WebTerminal/src/webterminal/WebTerminal.java:1167-1338 | The same over any pieces |
| NodeWriter.WriteData | apps/experiments/WebTerminal/src/webterminal/NodeWriter.java:74-112 | The loop that copies plain stretches writes exactly the run-by-run text |
| NodeWriter.WrittenReadsBack | apps/experiments/WebTerminal/src/webterminal/NodeWriter.java:74-112 | In text or attribute mode and with any minimum, expanding markers and entities gives the string back, for every string in which, behind its beginning, no opening of a run marker is closed by a bracket |
| NodeWriter.WrittenIsSafe | apps/experiments/WebTerminal/src/webterminal/NodeWriter.java:74-112 | Written text holds no bare <, > or ampersand, a written attribute no bare quote or ampersand, and neither a control character or, in ASCII, anything from 127 on |
| NodeWriter.ImageSpelled | apps/experiments/WebTerminal/src/webterminal/NodeWriter.java:88-103 | Which entity or character reference stands for which unit; all other units stand for themselves |
| NodeWriter.MarkerSpelled | apps/experiments/WebTerminal/src/webterminal/NodeWriter.java:104-108 | A run marker is a backslash, a bracket, a star, the decimal digits of the count and a bracket |
| NodeWriter.NoBackslash | apps/experiments/WebTerminal/src/webterminal/NodeWriter.java:74-112 | Every string without a backslash is such a string |
| NodeWriter.BackslashIsAmbiguous | apps/experiments/WebTerminal/src/webterminal/NodeWriter.java:104-108 | For every unit that is not escaped and every n that is abbreviated, the run of n units and the text of its abbreviation are written alike, unless that text itself has a long run |
| NodeWriter.ThreeAreAmbiguous | apps/experiments/WebTerminal/src/webterminal/NodeWriter.java:104-108 | The smallest such case |
| NodeWriter.CommentIsRight | apps/experiments/WebTerminal/src/webterminal/NodeWriter.java:69-86 | A run is abbreviated from exactly the minimum on, and with 0 every unit is marked; that is what the comment promises for exactly the positive minimums and runs of another length |
| NodeWriter.CommentIsWrong | apps/experiments/WebTerminal/src/webterminal/NodeWriter.java:69-86 | With 0 a single letter is marked, with 3 a run of three |
| NodeWriter.NumeralRoundTrip | apps/experiments/WebTerminal/src/webterminal/NodeWriter.java:97-98 | Hexadecimal and decimal numerals are inverted |
| TriangleGrid.CornerInRange | apps/toys/FX8-3DFeatures/src/fx83dfeatures/PNTMeshViewer.java:195-268 | Every point index a face holds is a vertex of the grid, for all subdivisions |
| TriangleGrid.EdgeOccursOnce | apps/toys/FX8-3DFeatures/src/fx83dfeatures/PNTMeshViewer.java:195-268 | No directed edge occurs twice |
| TriangleGrid.EdgeShared | apps/toys/FX8-3DFeatures/src/fx83dfeatures/PNTMeshViewer.java:195-268 | An edge also occurs in the other direction if and only if it is not on the border, so orientation is consistent |
| TriangleGrid.MeshUnique | apps/toys/FX8-3DFeatures/src/fx83dfeatures/PNTMeshViewer.java:82-148 | Size and surface determine all three arrays, so a recomputed mesh equals a freshly built one |
| TriangleGrid.BuildTriangleMesh | apps/toys/FX8-3DFeatures/src/fx83dfeatures/PNTMeshViewer.java:150-268 | Every point, normal and face slot is written with its value; nothing is missing or out of range |
| TriangleGrid.MeshSpelledOut | apps/toys/FX8-3DFeatures/src/fx83dfeatures/PNTMeshViewer.java:150-268 | The arrays index by index: the coordinates of every grid point, and for each cell the 18 ints of its two triangles |
| TriangleGrid.NormalsSpelledOut | apps/toys/FX8-3DFeatures/src/fx83dfeatures/PNTMeshViewer.java:195-268 | The normals of a cell are those of the corners of its two triangles, in this order |
| TriangleGrid.BuildFace | apps/toys/FX8-3DFeatures/src/fx83dfeatures/PNTMeshViewer.java:206-235 | One face is added with its normal; earlier faces stay |
| TriangleGrid.FillPoints | apps/toys/FX8-3DFeatures/src/fx83dfeatures/PNTMeshViewer.java:90-106 | The nested loops fill every point with the surface value of its grid point |
| TriangleGrid.ComputeMesh | apps/toys/FX8-3DFeatures/src/fx83dfeatures/PNTMeshViewer.java:82-148 | Recomputing in place a mesh built for any other surface gives the mesh of the new surface; the assertion on normal indices always holds |
| SlideShow.EveryRunShowsCurrent | apps/toys/FXSlideShow/src/fxslideshow/FXSlideShow.java:419-479 | In every run of key presses and load completions: CURRENT holds the current file's task, NEXT and PREV are null or hold the neighbours' tasks, no slot holds a cancelled task, with the busy indicator off the current file is shown, and with it on the current task is loading, its notice is due, or it has failed |
| SlideShow.StepKeeps | apps/toys/FXSlideShow/src/fxslideshow/FXSlideShow.java:126-141 | Every single event keeps that invariant |
| SlideShow.NoticeShowsCurrent | apps/toys/FXSlideShow/src/fxslideshow/FXSlideShow.java:126-141 | When the current task's success reaches the user thread, its file is shown and the indicator is off |
| SlideShow.KeyMoves | apps/toys/FXSlideShow/src/fxslideshow/FXSlideShow.java:419-479 | A key press moves to the neighbour if there is one. An image already decided is taken over and shown at once with the indicator off; otherwise the indicator is on and the image stays. The slot in the direction of travel is filled with a new task exactly when there is a file for it, the one left behind keeps the old image if previous images are saved, and the tasks given up are cancelled if they are running |
| SlideShow.NoticesKeepSlots | apps/toys/FXSlideShow/src/fxslideshow/FXSlideShow.java:126-141 | Events of tasks change no slot, so what was prefetched stays, and only their own task; the screen changes only with the success of the current one |
| SlideShow.StepsAhead | apps/toys/FXSlideShow/src/fxslideshow/Files.java:112-182 | k steps ahead lead k files on, around a loop as often as it takes; otherwise the list ends behind its last file |
| SlideShow.NeighboursMeet | apps/toys/FXSlideShow/src/fxslideshow/Files.java:112-182 | A step and a step back meet, at the ends of the list and around a loop |
| SlideShow.InitialInv | apps/toys/FXSlideShow/src/fxslideshow/FXSlideShow.java:579-655 | The start-up state satisfies the invariant for any settings |
| SlideShow.Application.constructor | apps/toys/FXSlideShow/src/fxslideshow/FXSlideShow.java:579-655 | The fields at start-up |
| SlideShow.Application.Advance | apps/toys/FXSlideShow/src/fxslideshow/FXSlideShow.java:419-479 | `nextImage` computes the specified step and keeps the invariant |
| SlideShow.Application.Turn | apps/toys/FXSlideShow/src/fxslideshow/FXSlideShow.java:426-460 | The slots move one place; the one that falls out is cancelled if it is running |
| SlideShow.Application.Load | apps/toys/FXSlideShow/src/fxslideshow/FXSlideShow.java:462-478 | The current image is shown or loaded and the next one prefetched |
| SlideShow.Application.Finished | apps/toys/FXSlideShow/src/fxslideshow/FXSlideShow.java:126-141 | The callback computes the specified step and keeps the invariant |

## Left out

- The real GL and EGL calls, symbol lookup, the JVMTI agent, mapping and file errors, clocks, PNG output, the frame rate display, printing and `interact`: foreign code and I/O. Printing follows recorded arrays without looking whether they are null. Results, client memory and time stamps are inputs of the model.
- Commands the decoder does not implement, apart from that they stop it; what happens behind a `glGetAttachedShaders` record whose shader list is left unread, and behind a glGetFloatv record with a null pointer that is only decoded; recording `eglGetConfigAttrib`; the MACOSX build.
- Negative counts and sizes in a trace make retrace.c declare arrays of negative size, which C leaves undefined; the model reads nothing for them. Counts larger than the arrays they are compared with, and the pixels read back in the last frame, are not modelled.
- Threads.AttributedReplay: takes the outermost records to be those of intercepted calls in log order, because the binding mirror is updated after the lock is released and may be out of order between threads or around a nested `glBindBuffer`.
- A byte block of 2 GB or more, where sizes leave the range of `int`; arguments outside their C types.
- Reads past the end of the file: taken as zero, as in the last page of a mapping.
- The time window between deciding a task and its notice is modelled by separate events; the order in which the operating system runs threads is arbitrary, fairness is not modelled.
- Tabs, form feeds, carriage returns, zero-width characters and object elements in the text of the document; block elements; erase mode (`doDelete` false); insert mode; `addSpaceAsNeeded` false.
- Insert line, delete line and scrolling are composed on text and `br` in one container, where deleting rows never gives up (`ScreenErase.OneContainer`). Whether an empty node stands behind the last character is left open there.
- EscapeParser.Terminal.InsertString: what the terminal does with the dispatched control functions is not modelled; where a long line wraps, and whether a carriage return takes its line feed along, depends on the screen and is left open.
- WebOutputStream, the pty code, the input line editor and the DOM as shared mutable nodes (trees are values: the path to the cursor with the siblings on both sides).
- StyleSpans.AdjustSpells: for styles without blanks at their ends or semicolons in them, which is how `pushSimpleStyle` makes them.
- NodeWriter.WrittenReadsBack: `NodeWriter.Unmistakable` is sufficient for reading back; that it is necessary is not shown.
- Texture coordinates, floating-point rounding and the meaning of the height and normal functions in the mesh, which are arbitrary functions; sizes beyond `int`.
- The slide show's R key (it can leave a cancelled task in CURRENT), transitions, full screen and the timing of automatic forwarding.
- The Industrial, ColorCube, PickTest3D and camera demos and the Unicode tables: user interface and finite data.
