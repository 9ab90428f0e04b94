# Verified models of the onyx-server tools

The tools of the onyx-server repository hold several small algorithms and state machines whose promises
range over unbounded inputs and runs. This project models them in Dafny and proves those promises.

| file | models |
|---|---|
| `Framing.dfy` | the append-then-peel loop that every stream reader uses, for any way of recognising a unit |
| `WebSocket.dfy` | `ws_frame` and `ws_recv_text` of the upgrade smoke test, against sections 5.2 and 5.3 of RFC 6455 |
| `TlsRecords.dfy` | the BoGo shim's record framing, byte list and echo pump (section 5.1 of RFC 8446) |
| `LineReader.dfy` | the browser harness's `IrcLineReader` |
| `ShimFlags.dfy` | the BoGo shim's command line |
| `Schedule.dfy`, `Fairness.dfy` | the constant-time checker's shuffled schedule and measuring loop, and how often each schedule comes out |
| `Statistics.dfy` | its streaming statistics, percentile crops and gate, over exact reals |
| `SlowTests.dfy` | the verbose test runner's ten slowest tests |
| `GenRoots.dfy` | the marker-region rewriter of `genroots.sh` |
| `Wrapping.dfy` | the announce bot's `split_text`, `compact` and message cap |
| `Inventory.dfy` | its inventory cache, as interleaved atomic steps |
| `CommitWatch.dfy` | its commit watcher over a moving git HEAD |
| `Session.dfy`, `CapLines.dfy`, `Replies.dfy`, `AnnounceBot.dfy` | its connection: capability negotiation, paced queue, keepalive, received lines |
| `Collections.dfy`, `Bytes.dfy`, `Unicode.dfy`, `Utf8.dfy` | shared vocabulary: sequences, bytes, exclusive or, big-endian integers, white space, UTF-8 (section 3 of RFC 3629) and its streaming decoder |

Code that updates state is modelled by methods and classes that update state. Each such method is proved
against a function of its inputs or of the old state, and the promises are proved about that function.
Random choices, clock readings, received chunks, git's answers and the kernel are parameters.

## What the models show about the code

- `split_text` keeps every chunk of an over-long text within the limit exactly when every non-space code
  point fits the limit on its own (`SplitBounded`); a limit of four always suffices, and at a limit of three
  a four-byte character stays over it (`DragonOverThree`).
- An inventory request that is refused while its project is being measured gets no measurement that
  starts after it (`RefusedWhileMeasuringIsNotMeasuredAgain`): the published item can predate the request
  until the next accepted request or the 60 s refresh. Such a run begins with a fresh cache and one project
  (`RefusedWhileMeasuringHappens`).
- After HEAD is reset to an ancestor the commit watcher announces that old commit as if it were new
  (`ResetAnnouncesOld`); a burst is exact if and only if the new HEAD is not an ancestor of the old one
  (`BurstExact`).
- When git cannot list the range, the burst is exact if and only if the tip is new and none of its parents
  is (`FailedListing`). Any other new commit is then never announced while HEAD only advances
  (`MissedForGood`); a rewind can bring it back (`MissedUntilRewind`).
- The answer to a PING echoes the server's token if and only if the token does not end in a blank and the
  server's name does not contain "PING": `handle` strips what follows the first occurrence in the line
  (`PongEchoesTokenIff`, `BlankLostFromToken`, `PingInServerName`).
- The browser line reader drops a carriage return that ends a line terminated by a bare LF
  (`LineComesBackIff`, `CarriageReturnLostFrom`).
- Its decoder drops a byte order mark at the start: encoded lines are read back, however they are cut into
  chunks, if and only if the text does not begin with one (`EncodedLinesReadIff`, `BomLost`).
- A call of its `until` that times out leaves a read waiting in the stream, and that read swallows the next
  chunk: a call loses bytes if and only if an earlier one left a read behind (`NothingLostIff`,
  `ChunkAfterTimeout`).
- `genroots.sh` is idempotent on every file if and only if no package name or path mentions a marker
  (`PackagesIdempotentIff`). Otherwise a region with such a line gains a marker line on every run
  (`MarkersPileUp`), and a file that is nothing but its begin marker grows on every run
  (`GeneratedMarkerGrows`), for instance with a file named `gen:mods:begin.zig` (`PackageNamedLikeMarker`).
- With zero samples per class (`CT_ITERS=0`) the tool's `combined.len - 1` underflows: `Report` has no verdict
  if and only if there is no sample.
- Welch's statistic is undefined exactly when both classes are constant, and there the code reports zero
  whether or not the constants are equal (`WelchExact`, `WelchZeroIff`): two classes of constant but
  different timings pass the gate at every crop (`ConstantClassesPass`, `TwiceAsSlowPasses`).
- The head of `loop` stamps the keepalive without sending one, some time (the gap) after it stamps the link:
  a link silent for more than 90 s has been probed within the last 60 s if and only if it has been silent
  for more than 60 s plus the gap (`IdleLinkProbed`, `GapDelaysProbe`).

Where the documentation of a tool and its code differ the models follow the code: the header of
`announce_bot.py` calls the output paced, while the first line of an announcement is sent at once and only
stamps the pacing clock.

## Model

| member | source | states |
|---|---|---|
| Framing.Peel | tools/bogo_shim.zig:447-471 | peeling loses nothing: the units and the rest are the buffer, and the rest holds no further complete unit |
| Framing.PeelTwice | tools/bogo_shim.zig:443-471 | peeling what has arrived and continuing later gives the units of peeling everything at once |
| Framing.ChunkIndependent | tools/upgrade_smoke.py:98-124 | append-then-peel over any chunking equals one peel of the whole stream |
| Framing.AnyTwoChunkings | tools/upgrade_smoke.py:98-124 | two chunkings of one stream give the same units and the same remainder |
| Framing.PeelInvertsConcatenation | tools/upgrade_smoke.py:105-124 | complete units written one after another, with an incomplete tail, are read back exactly |
| Framing.CutAnywhere | tools/upgrade_smoke.py:311-313 | a unit cut at any point yields nothing at first, is kept whole, and completes when the rest arrives |
| Framing.PeeledUnitsComplete | tools/bogo_shim.zig:478-484 | every unit peeled off is a complete unit on its own |
| Bytes.ToBigEndian | tools/upgrade_smoke.py:88-88 | the big-endian bytes of a length decode to that length |
| Bytes.FirstWeighsMost | tools/upgrade_smoke.py:88-88 | the first byte of a number is its most significant one |
| Bytes.TwoBytes | tools/upgrade_smoke.py:88-88 | two bytes are the quotient and the remainder by 256 |
| Bytes.XorTwice | tools/upgrade_smoke.py:89-89 | exclusive or with the same byte twice gives the byte back |
| Bytes.XorBit | tools/upgrade_smoke.py:89-89 | each bit of the result is set exactly when the bits of the operands differ |
| Utf8.CharWritten | tools/upgrade_smoke.py:125-125 | every character is written as one well-formed sequence and read back |
| Utf8.CharRead | tools/upgrade_smoke.py:125-125 | and no other well-formed sequence is read as it |
| Utf8.Layout | tools/upgrade_smoke.py:125-125 | the four forms hold the bits of the number, six to each byte behind the first |
| Utf8.DecodeEncoded | tools/announce_bot.py:742-742 | decoding what was encoded gives every text back |
| Utf8.DecodeTwice | tools/quic_interop_irc_browser.mjs:135-135 | decoding in two pieces, also through the middle of a character, is decoding at once |
| Utf8.BrokenOff | tools/upgrade_smoke.py:125-125 | the beginning of a character that breaks off is one U+FFFD, and the byte that broke it off starts anew |
| Utf8.BrokenAtEnd | tools/upgrade_smoke.py:125-125 | so is one that the end of the text breaks off |
| Utf8.LoneByte | tools/upgrade_smoke.py:125-125 | and a byte that begins nothing |
| Utf8.StreamTwice | tools/quic_interop_irc_browser.mjs:135-135 | each chunk adds exactly the text that the stream with it has more, a byte order mark at the start aside |
| Utf8.StreamEncoded | tools/quic_interop_irc_browser.mjs:104-135 | an encoded text streams back without its byte order mark |
| WebSocket.WsFrame | tools/upgrade_smoke.py:80-89 | the frame byte by byte: 0x81, the length with the mask bit in one byte or in two more, the key, and each payload byte combined with its key byte; payloads of 65536 bytes or more raise |
| WebSocket.ClientFrameRoundTrip | tools/upgrade_smoke.py:80-89 | a decoder written from RFC 6455 takes the whole frame and recovers a final text frame with that mask and payload |
| WebSocket.ClientStreamRoundTrip | tools/upgrade_smoke.py:80-89 | any list of frames, cut into chunks anywhere, is deframed to the same messages with nothing left over |
| WebSocket.MidFrameCut | tools/upgrade_smoke.py:311-313 | wherever a frame is cut, the deframer carries exactly the first part and completes the frame with the second |
| WebSocket.RfcUnitFramer | tools/upgrade_smoke.py:302-304 | recognising a frame by RFC 6455 is prefix-stable, so the deframer theorems apply |
| WebSocket.ServerUnitStable | tools/upgrade_smoke.py:105-120 | a frame found complete stays the same frame when more bytes arrive |
| WebSocket.OneShotExtend | tools/upgrade_smoke.py:104-124 | parsing early and continuing from the held bytes equals the one-shot parse, in all three length forms |
| WebSocket.DrainFrames | tools/upgrade_smoke.py:105-124 | the inner loop yields exactly the text and the remainder of the one-shot parse of the buffer |
| WebSocket.WsRecvText | tools/upgrade_smoke.py:92-125 | the result is the decoded text of the one-shot parse of the chunks consumed; the loop went on as long as chunks were not empty and the needle was not in the text, and stopped at the first that ended it |
| WebSocket.ContainsIff | tools/upgrade_smoke.py:98-98 | the needle is in the text exactly when it stands there with something, or nothing, on either side |
| WebSocket.ServerFramesRead | tools/upgrade_smoke.py:105-124 | any unmasked frames, in any length form, plus a partial one: exactly the payloads of opcodes 1 and 2 in order, each with a newline, and the partial frame kept |
| WebSocket.ReadServerFrames | tools/upgrade_smoke.py:92-125 | the same through any chunking that was read to its end, and messages that carry encoded texts come out as those texts |
| TlsRecords.CompleteRecordLen | tools/bogo_shim.zig:478-484 | a length is reported only for a record wholly in the buffer, and an incomplete buffer is at most 65539 bytes |
| TlsRecords.RecordIsUnit | tools/bogo_shim.zig:478-484 | type, version, two length bytes and a fragment of that length are a complete record, and nothing less is |
| TlsRecords.WrittenRecordsRead | tools/bogo_shim.zig:443-484 | records written one after another are the records of the stream |
| TlsRecords.RecordFramer | tools/bogo_shim.zig:478-484 | record recognition is prefix-stable and local |
| TlsRecords.RecordsTwice | tools/bogo_shim.zig:443-471 | records and remainder do not depend on where the stream was cut |
| TlsRecords.ByteList.AppendSlice | tools/bogo_shim.zig:446-446 | the contents grow by the chunk, also across a move to a larger array |
| TlsRecords.ByteList.ConsumePrefix | tools/bogo_shim.zig:488-492 | the overlapping forward copy leaves exactly the bytes after the prefix, in place, and touches nothing beyond them |
| TlsRecords.DrainRecords | tools/bogo_shim.zig:447-471 | each complete record is handed over once, in order, and the accumulator is then the unconsumed suffix, at most 65539 bytes |
| TlsRecords.EchoClient | tools/bogo_shim.zig:439-473 | records handed over, bytes sent and the way the session ends are those of the unchunked stream, whether it stops by end of file or a read error, an alert, a decrypt error, or an echo or reply that could not be sent |
| TlsRecords.SessionExplained | tools/bogo_shim.zig:447-470 | each record handed over is answered in order, by the queued reply or by the plaintext with every byte subtracted from 255; the first that is an alert, fails or cannot be answered ends the session |
| TlsRecords.EchoWritten | tools/bogo_shim.zig:439-473 | written records through any chunking are handed over in order, all of them unless one ended the session, and so answered |
| TlsRecords.HandedInOrder | tools/bogo_shim.zig:439-471 | the engine is handed a prefix of the stream's records, all of them when the session ends with the stream |
| TlsRecords.EndIsFinal | tools/bogo_shim.zig:448-466 | after an alert, a decrypt error or a failed send nothing later in the stream matters |
| TlsRecords.EchoIsComplement | tools/bogo_shim.zig:462-462 | every echoed byte is the complement of the received one, and inverting again gives it back |
| LineReader.Search | tools/quic_interop_irc_browser.mjs:111-111 | the index is that of the leftmost match of the line terminator, or there is no line feed |
| LineReader.CutAtMatch | tools/quic_interop_irc_browser.mjs:111-114 | cutting at that match takes exactly the first line off |
| LineReader.LinesTwice | tools/quic_interop_irc_browser.mjs:132-136 | lines and remainder do not depend on chunk boundaries, even between a CR and its LF |
| LineReader.WrittenLinesRead | tools/quic_interop_irc_browser.mjs:95-99 | lines written with CRLF or LF, in any mix, are read back in order without the empty ones |
| LineReader.LineComesBackIff | tools/quic_interop_irc_browser.mjs:111-114 | a line comes back unchanged if and only if it does not end in CR before a bare LF |
| LineReader.CarriageReturnLostFrom | tools/quic_interop_irc_browser.mjs:111-114 | the line "a" CR before a bare LF comes back as "a" |
| LineReader.EncodedLinesReadIff | tools/quic_interop_irc_browser.mjs:96-136 | encoded lines, cut into chunks anywhere, are read back if and only if the text does not begin with a byte order mark |
| LineReader.BomLost | tools/quic_interop_irc_browser.mjs:104-135 | the line "a" behind a byte order mark comes back without it |
| LineReader.IrcLineReader.Drain | tools/quic_interop_irc_browser.mjs:109-116 | the queue grows by the complete non-empty lines, the buffer keeps the rest |
| LineReader.IrcLineReader.Shift | tools/quic_interop_irc_browser.mjs:123-127 | lines are handed out in order, through the first match and no further |
| LineReader.IrcLineReader.Until | tools/quic_interop_irc_browser.mjs:119-143 | the lines handed out over all calls followed by the queue are the non-empty lines of the decoded text of all bytes received; each call ends at the first match; the chunks handed out since the last one of the calls before are received except one for each abandoned read still waiting; a timed-out call abandons one read |
| LineReader.NothingLostIff | tools/quic_interop_irc_browser.mjs:129-135 | a call that is handed non-empty chunks receives all of them if and only if no read was abandoned before |
| LineReader.ChunkAfterTimeout | tools/quic_interop_irc_browser.mjs:129-136 | a chunk that arrives after a timed-out call is never seen by the next call, whatever lines it holds |
| ShimFlags.PrintedIntParses | tools/bogo_shim.zig:178-180 | a number printed in decimal parses to itself |
| ShimFlags.ParseIntExact | tools/bogo_shim.zig:178-180 | a text is a number exactly when it is an optional sign and digits, with underscores inside, and its value is no larger than the maximum, or zero behind a minus |
| ShimFlags.RecogniseSpelling | tools/bogo_shim.zig:118-151 | every flag is recognised by its own spelling |
| ShimFlags.RecognisedOnly | tools/bogo_shim.zig:118-151 | and by no other spelling |
| ShimFlags.ServerFlag | tools/bogo_shim.zig:118-120 | -server alone selects the server role |
| ShimFlags.TextFlags | tools/bogo_shim.zig:127-148 | each flag with a text for its value sets its own field |
| ShimFlags.NumberFlags | tools/bogo_shim.zig:121-136 | so do port, shim id and expected version, in their ranges; anything else is a usage error |
| ShimFlags.VersionFlags | tools/bogo_shim.zig:131-134 | and the two version bounds |
| ShimFlags.CurvesFlag | tools/bogo_shim.zig:137-144 | the group flag takes 23 or 4588, once |
| ShimFlags.PortAlone | tools/bogo_shim.zig:113-169 | with a port alone everything else has its default |
| ShimFlags.UnknownFlagRefused | tools/bogo_shim.zig:147-151 | an unknown flag after any well-formed ones is refused as unimplemented, never skipped |
| ShimFlags.MissingValueRefused | tools/bogo_shim.zig:171-176 | a flag at the end without its value is a usage error, except a repeated -curves, which is unimplemented |
| ShimFlags.Parse | tools/bogo_shim.zig:113-169 | the loop computes the left-to-right reading followed by the checks, with the same error in every case |
| ShimFlags.FinalChecks | tools/bogo_shim.zig:156-168 | a missing port, or else a minimum version above the maximum, is a usage error; every other failing check is unimplemented |
| ShimFlags.AcceptedIsValid | tools/bogo_shim.zig:155-168 | every accepted command line has a port, maximum version 0x0304, minimum 0x0303 or 0x0304, a curve only for the client, ALPN only for the server |
| ShimFlags.RenderRoundTrip | tools/bogo_shim.zig:113-169 | printing any valid flags and parsing them gives them back |
| ShimFlags.ProducibleIffValid | tools/bogo_shim.zig:113-169 | the flags that some command line produces are exactly the valid ones |
| Schedule.DifferentChoicesDifferentOrders | tools/constant_time_check.zig:387-395 | over distinguishable elements, different generator answers give different orders |
| Schedule.EveryOrderReached | tools/constant_time_check.zig:387-395 | every order is reached by some generator answers |
| Schedule.OneRunPerOrder | tools/constant_time_check.zig:387-395 | fairness: each order comes from exactly one run of the generator |
| Schedule.ShuffleNatural | tools/constant_time_check.zig:381-397 | forgetting which slot is which commutes with shuffling |
| Fairness.RunsForExact | tools/constant_time_check.zig:387-395 | the counted set is exactly the generator answers whose shuffle is the given order |
| Fairness.CountRuns | tools/constant_time_check.zig:387-395 | an order of two classes with a and b slots still to shuffle is produced by a! * b! generator answers |
| Fairness.SchedulesEquallyOften | tools/constant_time_check.zig:381-397 | every balanced two-class schedule is produced by equally many generator answers, count! * count! |
| Schedule.ShufflePermutes | tools/constant_time_check.zig:387-395 | shuffling only reorders |
| Schedule.FirstChoice | tools/constant_time_check.zig:387-395 | the slot settled first holds the element chosen first |
| Schedule.ShuffleInPlace | tools/constant_time_check.zig:387-395 | the in-place swaps compute the shuffle of the array for the given answers |
| Schedule.BuildSchedule | tools/constant_time_check.zig:381-397 | a shuffled schedule with exactly `count` slots of each class |
| Schedule.Measure | tools/constant_time_check.zig:132-149 | each timing array holds its class's durations in slot order and is filled exactly; every random key is used once, in order |
| Schedule.ElapsedIs | tools/constant_time_check.zig:142-150 | a duration added to the first reading of the 64-bit clock gives the second |
| Schedule.SelectAt | tools/constant_time_check.zig:139-152 | the value of a slot stands at its place among the slots of its class |
| Schedule.SelectPartitions | tools/constant_time_check.zig:142-148 | no measurement is lost, duplicated or filed under the wrong class |
| Schedule.RunPrimitive | tools/constant_time_check.zig:120-149 | schedule and measuring together fill both arrays with all durations, whatever the generator answers |
| Statistics.WelfordExact | tools/constant_time_check.zig:298-303 | after any adds, n * mean is the sum and m2 the sum of squared deviations from the mean |
| Statistics.MeanAndVarianceExact | tools/constant_time_check.zig:298-309 | mean and variance are the sample mean and sample variance |
| Statistics.SampleOfTwo | tools/constant_time_check.zig:298-309 | 0 and 2 have mean 1 and variance 2 |
| Statistics.WelchExact | tools/constant_time_check.zig:313-320 | the textbook statistic is undefined exactly when both samples are constant; elsewhere the streamed one is its square, and it is zero there and for too few samples |
| Statistics.WelchZeroIff | tools/constant_time_check.zig:311-320 | the streamed statistic is zero exactly for too few samples, two constant samples, or equal means |
| Statistics.LargerCropsKeepMore | tools/constant_time_check.zig:335-343 | a larger crop keeps a superset of the samples, multiplicities included |
| Statistics.KeptCounts | tools/constant_time_check.zig:341-342 | a sample is kept, as often as it occurs, exactly when it is no larger than the cutoff |
| Statistics.FullCropKeepsAll | tools/constant_time_check.zig:69-71 | the 1.0 crop keeps every sample in order |
| Statistics.CropKeepsEnough | tools/constant_time_check.zig:335-343 | a crop at p keeps more than p * (n - 1) of the n samples |
| Statistics.CropDropsEnough | tools/constant_time_check.zig:335-337 | at most p * (n - 1) samples lie strictly below the cutoff |
| Statistics.Acc.Add | tools/constant_time_check.zig:298-303 | the in-place update is the specified one |
| Statistics.AddKept | tools/constant_time_check.zig:339-342 | one pass accumulates exactly the samples within the cutoff |
| Statistics.Report | tools/constant_time_check.zig:324-378 | no verdict exactly when there is no sample; otherwise the reported value bounds the statistic at the cutoff of each of the ten percentages, the sample at the last index that is no more than p * (n - 1), and is attained; the gate compares it with 100, the square of 10 |
| Statistics.PassCoversAllSamples | tools/constant_time_check.zig:334-361 | a pass implies that the uncropped t-test on all samples is under the gate too |
| Statistics.ConstantClassesPass | tools/constant_time_check.zig:313-361 | two constant classes pass at every crop, however far apart |
| Statistics.TwiceAsSlowPasses | tools/constant_time_check.zig:313-361 | for instance 100 and 200 ns |
| SlowTests.RankingIsStableSort | tools/verbose_test_runner.zig:110-121 | repeated insertion yields the stable descending sort of the positive durations |
| SlowTests.StableSortUnique | tools/verbose_test_runner.zig:110-121 | there is only one such sort |
| SlowTests.RecordSlow | tools/verbose_test_runner.zig:110-121 | the array stays the first ten entries of the sort, padded with empty slots |
| SlowTests.ShiftIn | tools/verbose_test_runner.zig:116-120 | entries from the place on move down one, the last is dropped |
| SlowTests.RunAll | tools/verbose_test_runner.zig:58-105 | the report prints the first ten of the stable sort, or all of it: the early break hides nothing recorded |
| GenRoots.RewriteFile | tools/genroots.sh:28-34 | the line loop with its `skip` variable computes the specified rewrite |
| GenRoots.LastRewriteWins | tools/genroots.sh:28-34 | on every file, balanced or not, rewriting a rewritten file is rewriting the original |
| GenRoots.Idempotent | tools/genroots.sh:28-34 | regenerating twice changes nothing the second time |
| GenRoots.GeneratedMarkerGrows | tools/genroots.sh:23-32 | a marker among the generated lines makes a file that consists of that region's begin marker longer on every run |
| GenRoots.MarkersPileUp | tools/genroots.sh:23-34 | in any file with such a region, n runs add at least n marker lines |
| GenRoots.RewriteAppend | tools/genroots.sh:28-34 | rewriting a file in two parts is rewriting it whole, when `skip` is carried over |
| GenRoots.IdempotentIff | tools/genroots.sh:28-34 | regenerating is idempotent on every file if and only if no generated line mentions a marker |
| GenRoots.GeneratedLinesPlain | tools/genroots.sh:23-27 | a generated line mentions a marker exactly when the name or path in it does |
| GenRoots.PackagesIdempotentIff | tools/genroots.sh:23-34 | the tool is idempotent on every file if and only if no package name or path mentions a marker |
| GenRoots.PackageNamedLikeMarker | tools/genroots.sh:13-32 | a file named gen:mods:begin.zig makes the root file grow on every run |
| GenRoots.OutsideKept | tools/genroots.sh:28-34 | every line outside the regions is kept, unchanged and in order, and none is added |
| GenRoots.RewriteReplacesBodies | tools/genroots.sh:28-34 | on well-bracketed files exactly the region bodies are replaced, by imports in module regions and test lines in test regions |
| GenRoots.ModuleRegion | tools/genroots.sh:29-30 | the region behind a gen:mods:begin line gets exactly the imports |
| GenRoots.TestRegion | tools/genroots.sh:31-32 | the region behind a gen:tests:begin line gets exactly the test lines |
| GenRoots.EntryText | tools/genroots.sh:25-26 | the text of the two lines generated for a package |
| Wrapping.SplitText | tools/announce_bot.py:494-524 | a text within the limit is one chunk; otherwise the loops compute the specified chunks |
| Wrapping.SplitSpacesExact | tools/announce_bot.py:500-500 | the pieces between spaces hold no space and joined with spaces are the text |
| Wrapping.WeightIsUtf8 | tools/announce_bot.py:490-491 | the byte length counted for a character is that of its UTF-8 encoding |
| Wrapping.BreakLossless | tools/announce_bot.py:513-521 | breaking an over-long word loses nothing and makes no empty piece |
| Wrapping.BreakMaximal | tools/announce_bot.py:513-521 | every piece of a broken word is as long as it can be |
| Wrapping.WrapIsGrouping | tools/announce_bot.py:500-523 | every chunk is a group of consecutive fragments joined by single spaces, every fragment is in exactly one; a word is broken only when it alone exceeds the limit |
| Wrapping.SplitLossless | tools/announce_bot.py:494-524 | without spaces the chunks spell the text |
| Wrapping.SplitBounded | tools/announce_bot.py:494-524 | chunks of an over-long text are non-empty, and all within the limit if and only if each non-space code point is |
| Wrapping.DragonOverThree | tools/announce_bot.py:513-521 | at a limit of three bytes a four-byte character stays over the limit |
| Wrapping.PackOptimal | tools/announce_bot.py:534-547 | greedy packing uses the fewest lines of all ways of cutting the items into consecutive groups that fit |
| Wrapping.SplitOptimal | tools/announce_bot.py:494-524 | no way of cutting the words into space-joined lines within the limit uses fewer chunks |
| Wrapping.CleanInk | tools/announce_bot.py:531-533 | cleaning a line changes its white space only |
| Wrapping.CleanIsWords | tools/announce_bot.py:531-533 | a cleaned line is the words of the line with single spaces between them |
| Wrapping.FittingLinesArePartsWhole | tools/announce_bot.py:537-538 | a cleaned line that fits is one part |
| Wrapping.Compact | tools/announce_bot.py:527-548 | the loops compute the specified packing of the parts |
| Wrapping.CompactBounded | tools/announce_bot.py:527-548 | every chunk is non-empty and within a limit of four or more |
| Wrapping.CompactLossless | tools/announce_bot.py:527-548 | chunks are consecutive groups of parts joined by the separator, and the parts spell the visible characters of the lines |
| Wrapping.CompactOptimal | tools/announce_bot.py:537-547 | no other grouping of the same parts uses fewer chunks |
| Wrapping.CapMessage | tools/announce_bot.py:641-643 | the capping loop ends within 360 bytes, on the text itself or a prefix of it with an ellipsis; the last but one of its texts did not fit, and was at most eight code points and trailing white space longer |
| Inventory.StepKeepsInv | tools/announce_bot.py:349-387 | every atomic step keeps each queued key in exactly one place: about to be put, in the queue, or with the worker |
| Inventory.RunKeepsInv | tools/announce_bot.py:349-387 | so does every interleaving of requesters and worker |
| Inventory.QueueBounded | tools/announce_bot.py:346-363 | the queue holds no key twice and is never longer than the project list |
| Inventory.OneMeasurementPerAcceptance | tools/announce_bot.py:358-387 | on every run, each key's acceptances, measurement starts and publications strictly alternate |
| Inventory.FirstInFirstOut | tools/announce_bot.py:363-373 | on every run, the keys taken followed by the queue are the queue before followed by the keys put |
| Inventory.TakenInTurn | tools/announce_bot.py:363-373 | the key at position i of the queue is what the (i + 1)-th take of any run takes, and i is below the number of projects |
| Inventory.RefreshVisitsAll | tools/announce_bot.py:374-378 | from the timeout to its end a refresh makes one request for every project, in order |
| Inventory.ReachedFacts | tools/announce_bot.py:341-387 | what every valid cache promises: each queued key in one place, a queue without repeats within the project list, and alternating acceptance, start and publication of every key |
| Inventory.ReachableStates | tools/announce_bot.py:341-387 | from a fresh cache, every reachable state has each queued key in one place and a queue without repeats, no longer than the project list |
| Inventory.ReadersSeeLatest | tools/announce_bot.py:365-387 | on every run a reader sees a key's last published item, and only publications change it |
| Inventory.RefusedIsCovered | tools/announce_bot.py:358-363 | a refused request has a measurement of its key waiting or running |
| Inventory.RefusedWhileMeasuringIsNotMeasuredAgain | tools/announce_bot.py:358-387 | without a further acceptance, a request refused while waiting gets its one later start, and one refused while measuring gets none |
| Inventory.RefusedWhileMeasuringHappens | tools/announce_bot.py:358-387 | from a fresh cache with one project, a run reaches a state that measures it and refuses a request for it |
| Inventory.InventoryCache.Reserve | tools/announce_bot.py:358-362 | on every run so far: a refused key has a measurement waiting or running, an accepted one had none and has one waiting; every queued key stays in one place |
| Inventory.InventoryCache.PutRequest | tools/announce_bot.py:363-363 | the key joins the end of a queue that stays without repeats and within the project list |
| Inventory.InventoryCache.Get | tools/announce_bot.py:365-367 | the item last published for the key on the run so far, or the pending one if there was none |
| Inventory.InventoryCache.WorkerGet | tools/announce_bot.py:370-378 | the worker takes the key that has waited longest, which then waits nowhere else, or begins the refresh when none waits |
| Inventory.InventoryCache.WorkerPublish | tools/announce_bot.py:380-387 | the item, or the default one after a failure, is the last published from here on, and the key is free for a new request |
| CommitWatch.AncestorsAntisymmetric | tools/announce_bot.py:795-795 | no two commits are each other's ancestors |
| CommitWatch.BurstAccountsForAll | tools/announce_bot.py:804-809 | the commits shown are the last five of the list, or all when there are fewer, and with the count of earlier ones they are the whole burst |
| CommitWatch.PollAnnouncesIff | tools/announce_bot.py:782-798 | a poll announces exactly when git gives a HEAD other than the last one, which is remembered then; otherwise nothing changes |
| CommitWatch.ShownAreNewest | tools/announce_bot.py:795-809 | if git lists ancestors first, no shown commit is an ancestor of one merely counted |
| CommitWatch.BurstExact | tools/announce_bot.py:794-797 | a burst is exactly the range between the HEADs if and only if the new HEAD is not an ancestor of the old one |
| CommitWatch.FailedListing | tools/announce_bot.py:795-798 | when git lists nothing the burst is the tip, which is exact if and only if the tip is new and none of its parents is |
| CommitWatch.MissedForGood | tools/announce_bot.py:795-798 | after such a poll, over any run in which HEAD only advances, no other commit of the range is ever announced |
| CommitWatch.MissedUntilRewind | tools/announce_bot.py:795-798 | three polls after which a missed commit is announced, because HEAD was rewound in between |
| CommitWatch.ResetAnnouncesOld | tools/announce_bot.py:795-798 | a reset from a commit to its parent announces the parent although nothing is new |
| CommitWatch.AnnouncementsTelescope | tools/announce_bot.py:782-821 | over any run with an advancing HEAD, each commit between first and last HEAD is announced once and nothing else is |
| CommitWatch.NothingMissed | tools/announce_bot.py:782-821 | over any run that git answers, whatever HEAD does, every commit of the final history that the first one lacked is announced |
| CommitWatch.Watcher.Poll | tools/announce_bot.py:782-812 | what has been announced stays what the polls since start-up amount to |
| CommitWatch.Watcher.PollAll | tools/announce_bot.py:773-821 | after any polls that git answered, every commit gained since start-up has been announced; if HEAD only advanced, each once and nothing else |
| Session.RunKeepsInv | tools/announce_bot.py:684-780 | state and log agree after every run of connections, lines, ticks and losses |
| Session.CapEndAtMostOnce | tools/announce_bot.py:1049-1052 | CAP END is sent at most once per connection |
| Session.PacedQueue | tools/announce_bot.py:617-681 | lines drained since connect followed by the queue are the lines enqueued, in order; every drain is at least the interval after every earlier drain and immediate message, each stamped by a clock reading of its own |
| Session.AtMostThreeProbes | tools/announce_bot.py:750-757 | at most three keepalives in a silent stretch, each more than 90 s after the last byte and more than 60 s apart |
| Session.TickPromises | tools/announce_bot.py:748-763 | a tick gives up exactly after 240 s of silence, and otherwise leaves the bot registered, past CAP END, or within 5 s of connecting |
| Session.IdleLinkProbed | tools/announce_bot.py:729-757 | after any run that ends with a tick, a link silent for more than 90 s has a probe of the last 60 s in the log if and only if it has been silent for more than 60 s plus the time between the two stamps at the head of the loop |
| Session.GapDelaysProbe | tools/announce_bot.py:729-757 | with 50 s between the two stamps there is no probe after 100 s of silence |
| Session.SpacedPumpsDrain | tools/announce_bot.py:677-681 | k pumps spaced by the interval send exactly the first k queued lines, in order |
| Session.ReplyToOffer | tools/announce_bot.py:1058-1073 | the reply requests exactly the offered capabilities that are wanted, in ascending order, SASL only when configured, or ends negotiation when there are none |
| CapLines.LsLineParses | tools/announce_bot.py:1054-1063 | a CAP LS line is dispatched with its continuation mark and exactly its capabilities |
| CapLines.CapNameIs | tools/announce_bot.py:1063-1063 | a capability is known by what stands before its first "=" |
| CapLines.OfferSpreadOverLines | tools/announce_bot.py:1058-1073 | however the offer is spread over lines, the one reply and the state are those for the whole offer |
| CapLines.SpreadOfferEqualsOneLine | tools/announce_bot.py:1058-1073 | the same as one line carrying the whole offer |
| CapLines.OfferAmidEvents | tools/announce_bot.py:1049-1073 | whatever happens between the lines of an offer, short of a new connection, its end is answered as if it had come in one line; the only other answer is a CAP END meanwhile |
| CapLines.OneAnswer | tools/announce_bot.py:1049-1073 | an offer during which negotiation does not end gets exactly one answer: the request for all that is wanted of it, or CAP END |
| CapLines.TagsInvisible | tools/announce_bot.py:969-976 | a leading message-tag block never changes how a line is dispatched |
| CapLines.PongEchoesTokenIff | tools/announce_bot.py:978-984 | a server's PING is answered with its token if and only if the token does not end in a blank and "PING" does not occur in the server's name |
| CapLines.PlainPingEchoedIff | tools/announce_bot.py:978-984 | a PING without a server is answered with its token if and only if that does not end in a blank |
| CapLines.MentionsIsOccurs | tools/announce_bot.py:981-981 | the search finds "PING" exactly when it occurs |
| CapLines.StripIs | tools/announce_bot.py:981-981 | stripping takes blanks off both ends and nothing else, until none is left there |
| CapLines.BlankLostFromToken | tools/announce_bot.py:981-981 | the token "x " comes back as something else |
| CapLines.PingInServerName | tools/announce_bot.py:978-984 | a server named PING.example is not answered with its token |
| Replies.ServerPingAnsweredIff | tools/announce_bot.py:978-985 | a PING of a server is answered by one line, which is PONG with the token if and only if the token does not end in a blank and "PING" does not occur in the server's name |
| Replies.PlainPingAnsweredIff | tools/announce_bot.py:978-985 | a PING without a server by PONG with the token if and only if that does not end in a blank |
| Replies.WelcomeJoins | tools/announce_bot.py:1013-1029 | the first 001, 376 or 422 of a connection registers the bot and joins the channel before anything else is said; later ones do neither |
| Replies.NickRecovered | tools/announce_bot.py:1009-1012 | 433 and 436 are answered by the nickname with one more underscore, which is the bot's from then on |
| Replies.SaslEndsNegotiation | tools/announce_bot.py:1001-1008 | 902 to 907 end negotiation, with CAP END unless it was ended before |
| Replies.PayloadSent | tools/announce_bot.py:991-997 | "AUTHENTICATE +" is answered by the payload |
| Replies.OtherChallengeIgnored | tools/announce_bot.py:991-997 | any other challenge is not answered |
| Replies.NakEndsNegotiation | tools/announce_bot.py:1082-1083 | a refused request ends negotiation |
| Replies.AckAnswered | tools/announce_bot.py:1074-1081 | a granted one starts SASL if it is configured and among the granted capabilities, and otherwise ends negotiation |
| Replies.OtherCapIgnored | tools/announce_bot.py:1054-1083 | other news about capabilities is ignored |
| Replies.OtherLinesPassOn | tools/announce_bot.py:1031-1047 | for any other command what the rest of the bot replies is all that happens |
| Replies.AskedNames | tools/announce_bot.py:1066-1069 | the capabilities worth asking for, by name |
| Replies.AlwaysReacts | tools/announce_bot.py:968-1083 | the answer and the new state for every command |
| Replies.EffectsLogged | tools/announce_bot.py:617-649 | replies are logged in order; queued lines join the queue, immediate ones stamp the pacing clock |
| Replies.TickSays | tools/announce_bot.py:748-780 | the end of a pass gives up, or says a probe, CAP END and announcements, in this order and under their conditions |
| Replies.PumpSays | tools/announce_bot.py:677-681 | the oldest queued line goes out when 0.4 s have passed since the last send |
| Replies.ConnectSays | tools/announce_bot.py:696-730 | a new connection: what is sent, in order, and the state it starts from |
| AnnounceBot.CrlfUnitIsFirst | tools/announce_bot.py:740-741 | the cut is at the first CR LF |
| AnnounceBot.WrittenLinesReceived | tools/announce_bot.py:739-742 | any texts without CR LF, encoded and terminated, are received as those lines with nothing left over |
| AnnounceBot.SplitTwice | tools/announce_bot.py:739-741 | splitting what has arrived, and later what was held with the rest, is splitting all at once |
| AnnounceBot.ReadsDoNotMatter | tools/announce_bot.py:726-745 | the lines handled by a run of the loop are those of its stream: idle passes, read sizes and cuts inside a line or its CR LF make no difference |
| AnnounceBot.PassInOrder | tools/announce_bot.py:732-780 | a pass stamps and handles its data first, then may send one queued line, then checks |
| AnnounceBot.LineEventsAt | tools/announce_bot.py:740-745 | each line is handled once, in order, with its own reply |
| AnnounceBot.Bot.HandleLine | tools/announce_bot.py:968-1047 | the log grows by the right answer to the line and the state changes with it, told without the dispatcher (PONG and the token for a PING); the object stays in agreement with its log: at most one CAP END, a first-in first-out queue, paced sends |
| AnnounceBot.Bot.HandleCapLs | tools/announce_bot.py:1058-1073 | an unfinished offer is not answered; the end of the offer is answered by one ascending request for exactly what is worth asking for in all lines, or by the connection's one CAP END |
| AnnounceBot.Bot.HandleCapAck | tools/announce_bot.py:1074-1081 | an acknowledged and configured SASL leaves negotiation open and starts authentication; anything else leaves the connection with exactly one CAP END |
| AnnounceBot.Bot.CapEndOnce | tools/announce_bot.py:1049-1052 | however often it is called, the connection has seen exactly one CAP END afterwards |
| AnnounceBot.Bot.Pump | tools/announce_bot.py:677-681 | the queue gets shorter by one exactly when it holds a line and the interval has passed; lines sent and lines waiting stay the lines enqueued, and all sends stay paced |
| AnnounceBot.Bot.SayNow | tools/announce_bot.py:645-647 | an immediate message leaves the queue alone and carries the latest stamp of all sends |
| AnnounceBot.Bot.ProbeIfIdle | tools/announce_bot.py:755-757 | at most three spaced probes in the silent stretch, and an idle link has one of the last 60 s |
| AnnounceBot.Bot.ForceCapEnd | tools/announce_bot.py:759-763 | the connection is registered, past its one CAP END or at most 5 s old; a registered or fresh one is left alone |
| AnnounceBot.Bot.Check | tools/announce_bot.py:748-780 | the end of a pass is the event of the session model; it fails exactly after 240 s of silence, and otherwise leaves an idle link probed lately and no negotiation older than 5 s |
| AnnounceBot.Bot.Connect | tools/announce_bot.py:696-730 | connecting is the event of the session model: no CAP END, no queued line and no unfinished line survive it, the pacing stamp does |
| AnnounceBot.Bot.Read | tools/announce_bot.py:735-745 | appending data and handling line after line is the run of the model's events for it; handled lines and buffer stay the split of the stream |
| AnnounceBot.Bot.RunTick | tools/announce_bot.py:732-780 | one pass of the loop is the run of its events: idle, data or end of stream, then pump and check |
| AnnounceBot.Bot.Loop | tools/announce_bot.py:726-780 | any run of the loop leaves the object where the session model's run leads, with every promise kept and exactly the lines of the stream handled, however it was cut into reads |
| AnnounceBot.Bot.Serve | tools/announce_bot.py:684-694 | so does any sequence of connections |

## Left out

- The daemon itself (`src/`), its mesh, media and upgrade designs, boot wiring and build graphs: the modules are not part of this model.
- Sockets, threads, subprocesses and clocks as operating-system facilities; they appear as parameters and as interleavings.
- The TLS engines: an arbitrary function of the records handed over so far, which also decides whether an echo or reply can be sent. What a failed write had sent already is not modelled. `echoServer` leaves framing to its engine and is not modelled.
- Failures of the random generator; its answers are any in-range numbers.
- Rounding and the square root in the statistics: exact reals, and squares where the code takes a root. The printed crop and sample count belong to the report text.
- WebSocket.WsRecvText: the deadline is the end of the list of chunks.
- ShimFlags.Parse: std.fmt.parseInt belongs to Zig's library; it is modelled from its documented behaviour.
- AnnounceBot.Bot.HandleLine: replies to commands, CTCP and KICK, the introduction and the topic are lists of lines supplied from outside; an administrator's raw CAP END is such a line and is not counted as negotiation. The reply to a capability offer is the ordered list of capabilities, not the text around it.
- AnnounceBot.Bot.Check: the heartbeat and poll schedules only decide when announcements come; any announcement may come at any tick after joining.
- The protected-topic guard of `send_raw`, log output, and lines lost to a failing socket.
- A connection attempt that fails before its socket opens; reconnect back-off, colours, help text, commit-card rendering and project selection: presentation or one-branch behaviour.
- Inventory.OneMeasurementPerAcceptance: that the worker goes on taking keys needs a fair scheduler, which is not modelled; in how many takes a key's turn comes is TakenInTurn.
- CommitWatch.AnnouncementsTelescope: in runs that rewrite history a commit may be announced again; NothingMissed and BurstExact cover those.
- How `genroots.sh` lists and sorts package files, and awk's treatment of backslashes in a value.
