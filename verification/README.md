# Verified models of the player's and FFmpeg's control logic

The repository is a video player for Java (`jni/`) together with the FFmpeg tree it is built on.
This project models the parts of both whose correctness rests on an argument that no single
function body shows, and proves these arguments in Dafny. `dafny verify dfyconfig.toml` checks it.

| file | what it models |
|---|---|
| `HuffmanTrees.dfy` | binary code trees: prefix freedom, Kraft sum, cost, the exchange argument for greedy merging, trees for prefix codes |
| `FourXmHuffman.dfy`, `FourXmFrequencies.dfy`, `FourXmCodeTables.dfy`, `FourXmCodeOrder.dfy` | `read_huffman_tables` of the 4XM codec, in place on its arrays; the frequency table written and read back; what the code tables promise, and which symbols get the longer codes |
| `FourXmPBlock.dfy` | the recursive P-block decoder of the 4XM codec, painting into a frame buffer |
| `FourXmPStream.dfy`, `FourXmPicture.dfy`, `FourXmPFrames.dfy` | its inverse: blocks and frames written as bits, bytes and words, and the picture they stand for |
| `FourXmCFrames.dfy`, `FourXmNumberZero.dfy` | the 100-slot table that reassembles interleaved `cfrm` fragments, and the limit of its use of number 0 |
| `FfplayPacketQueue.dfy`, `FfplayPipeline.dfy` | ffplay's serial-stamped packet queue, and reader, decoder and display as interleaved steps |
| `FfplayPackets.dfy`, `FfplayProgress.dfy` | where the packets of this pipeline go, and what its threads can still do after a seek or an abort |
| `FfplayFrameRing.dfy` | ffplay's frame queue, with the index and size updates as separate steps |
| `FfmpegVideoOut.dfy`, `FfmpegVideoLimits.dfy`, `FfmpegVideoTimes.dfy` | frame duplication and dropping in `do_video_out`, the frame balance of all calls and runs, and which picture is output when |
| `FfmpegMux.dfy`, `FfmpegMuxRuns.dfy` | packet queueing before the header, its replay, and timestamp repair in `ffmpeg_mux.c`; its exact limits, and what whole runs accept |
| `ArcPlayer.dfy`, `ArcPlayerStart.dfy`, `ArcPlayerCalls.dfy` | the player's N-slot frame ring, its mutex and condition variable protocol, when an undecoded slot is shown, and its calls in place |
| `ArcPackets.dfy` | the two packet lists fed from one demuxer by two threads |
| `RenderCharset.dfy`, `RenderBrightness.dfy` | the C64 character renderer, which steps its own loop counter back, and how bright its output is |
| `EightBps.dfy`, `EightBpsLimits.dfy` | the 8BPS run-length decoder, its pixel formats, and lines whose length is wrong |
| `CommandLine.dfy` | the quoting of the report's command line |
| `Modulo.dfy`, `Sequences.dfy`, `Wrappers.dfy` | remainder facts shared by the rings and the byte layout proofs; parts of sequences; the shared option type |

Each stateful component has a specification as functions on values, and a class or array methods
whose contracts equate their effect with these functions; the properties are then proved of the
functions, for all inputs, runs or interleavings.

Conventions that hold throughout:

- A concurrent component is a state machine whose steps are the accesses to shared variables (or a
  whole critical section where a lock covers it). Steps are atomic and sequentially consistent, and
  a run is any sequence of steps of any thread; a step its thread cannot take changes nothing.
- Integers are unbounded where the source's counters would have to run for years to wrap; 32-bit
  arithmetic that can wrap on bad input (the 8BPS line length) is written out.
- Codecs, filter graphs, scalers and demuxers are abstract: a buffer of what went in, or a sequence
  of answers. Every answer sequence is allowed.

## Model

| member | source | states |
|---|---|---|
| HuffmanTrees.GreedyStep | FFmpeg/libavcodec/4xm.c:663-690 | exchange argument: joining two lightest leaves first loses nothing against any other tree over the same leaves |
| HuffmanTrees.KraftExact | FFmpeg/libavcodec/4xm.c:692-707 | the leaves of a tree share out a code space of 2^n exactly |
| HuffmanTrees.CodesArePrefixFree | FFmpeg/libavcodec/4xm.c:692-707 | in a tree no leaf's code begins another leaf's code |
| HuffmanTrees.CodeAsTree | FFmpeg/libavcodec/4xm.c:692-707 | every prefix code is no shorter than the codes of some tree over the same symbols |
| FourXmHuffman.RangesRoundTrip | FFmpeg/libavcodec/4xm.c:634-652 | parsing undoes the encoding of any list of frequency ranges and stops right behind it |
| FourXmHuffman.ReadFrequencies | FFmpeg/libavcodec/4xm.c:634-661 | fills the table, or fails, exactly as the parser specification says, and ends 4-byte aligned inside the packet |
| FourXmFrequencies.TableRoundTrip | FFmpeg/libavcodec/4xm.c:634-661 | a packet that begins with encoded ranges and padding to four bytes parses to their table, and ends right behind the padding, whatever follows |
| FourXmFrequencies.CutTableIsRefused | FFmpeg/libavcodec/4xm.c:634-661 | a packet that ends anywhere before that position is refused |
| FourXmHuffman.TotalIsKept | FFmpeg/libavcodec/4xm.c:663-690 | merging keeps the sum of all live weights |
| FourXmHuffman.SentinelIsFree | FFmpeg/libavcodec/4xm.c:664-683 | no live weight exceeds 65281, so none is mistaken for the sentinel 65536 |
| FourXmHuffman.WeightsGrow | FFmpeg/libavcodec/4xm.c:663-690 | merges join existing nodes only, and after any number of them a node of height h weighs at least Fib(h + 2), because the two lightest nodes are merged |
| FourXmHuffman.HeightAtMost22 | FFmpeg/libavcodec/4xm.c:663-690 | no node of any run is higher than 22 |
| FourXmHuffman.WalkAtMost22 | FFmpeg/libavcodec/4xm.c:695-703 | climbing from any node takes at most 22 steps less its height |
| FourXmHuffman.TreeIsOptimal | FFmpeg/libavcodec/4xm.c:663-690 | the tree of a complete run costs no more than any tree over the same leaves, at every stage of the run |
| FourXmHuffman.WalkIsCode | FFmpeg/libavcodec/4xm.c:685-703 | walking up the arrays spells the node's code in the tree of the run |
| FourXmHuffman.FindTwo | FFmpeg/libavcodec/4xm.c:664-681 | the scan finds the two nodes preferred by weight and then by index, or that fewer than two live |
| FourXmHuffman.MergeNodes | FFmpeg/libavcodec/4xm.c:663-690 | the arrays end up recording exactly a complete run of merges, stopped early only when one node is left |
| FourXmHuffman.ClimbFrom | FFmpeg/libavcodec/4xm.c:695-703 | length and bits of one code are those of the walk, and overflow is reported exactly beyond 31 bits |
| FourXmHuffman.ReadHuffmanTables | FFmpeg/libavcodec/4xm.c:619-707 | up to the call of init_vlc: succeeds exactly if the frequency table parses, and then the code tables are those of a complete run on it |
| FourXmCodeTables.CodesAtMost22 | FFmpeg/libavcodec/4xm.c:692-707 | for every frequency table no code is longer than 22 bits, so the overflow test never fires |
| FourXmCodeTables.TablesSpellOneTree | FFmpeg/libavcodec/4xm.c:663-707 | with 1 to 256 used symbols the tables hold the codes of one tree over exactly these symbols, of least cost among all such trees |
| FourXmCodeTables.SpellsExactly | FFmpeg/libavcodec/4xm.c:663-707 | one tree spells all codes if and only if some and at most 256 of the 257 symbols are used |
| FourXmCodeTables.KraftSumExactly | FFmpeg/libavcodec/4xm.c:663-707 | for every frequency table the codes take one code space per tree left over; they use it up exactly if and only if 1 to 256 symbols are used, and twice over with all 257 |
| FourXmCodeTables.TablesArePrefixFree | FFmpeg/libavcodec/4xm.c:663-707 | with 1 to 256 used symbols no (bits, length) code continues another, as numbers |
| FourXmCodeTables.PrefixFreeExactly | FFmpeg/libavcodec/4xm.c:663-707 | the codes are prefix-free if and only if at most 256 of the 257 symbols are used; otherwise two trees remain |
| FourXmCodeTables.AllSymbolsUsed | FFmpeg/libavcodec/4xm.c:634-661 | some packet parses to a table in which all 257 symbols are used |
| FourXmCodeTables.ReadClashingTables | FFmpeg/libavcodec/4xm.c:619-707 | for this packet the code tables read do clash |
| FourXmCodeTables.CodesFitTheirLength | FFmpeg/libavcodec/vlc.c:293-301 | no code is longer than init_vlc allows for 9-bit lookups, nor a number too large for its length |
| FourXmCodeTables.TablesAreMinimal | FFmpeg/libavcodec/4xm.c:663-707 | for every frequency table, all 257 symbols used or fewer, no prefix code for the same symbols, from a tree or not, has a smaller weighted length |
| FourXmCodeOrder.RarerIsLonger | FFmpeg/libavcodec/4xm.c:664-703 | for every frequency table a rarer symbol, or the lower of two equally frequent ones, never has the shorter code |
| FourXmCodeOrder.FirstTwoAreTwins | FFmpeg/libavcodec/4xm.c:664-703 | the two symbols merged first have codes that differ only in the last bit, which is 0 for the one preferred |
| FourXmPBlock.RowIsComplete | FFmpeg/libavcodec/4xm.c:49-72 | every row of the block type tables is a complete prefix code: each 5-bit window begins with exactly one code |
| FourXmPBlock.SplitsStayLegal | FFmpeg/libavcodec/4xm.c:49-78 | no row offers a split below a legal shape, or raw pixels for anything but two pixels |
| FourXmPBlock.CopiesReadInside | FFmpeg/libavcodec/4xm.c:292-340 | every pixel a valid copy reads lies inside the previous frame |
| FourXmPBlock.OwnPlaceIsInside | FFmpeg/libavcodec/4xm.c:411-425 | a copy from the block's own place always passes the bounds test |
| FourXmPBlock.LeavesAreValid | FFmpeg/libavcodec/4xm.c:345-430 | for every bitstream each leaf of a block has a legal shape and passes the bounds tests of its copy |
| FourXmPBlock.LeavesTile | FFmpeg/libavcodec/4xm.c:345-430 | for every bitstream the leaves cover each pixel of their block exactly once on success, at most once on failure, and no other pixel |
| FourXmPBlock.FrameIsTiled | FFmpeg/libavcodec/4xm.c:432-494 | the same for a whole P-frame |
| FourXmPBlock.PixelShowsItsLeaf | FFmpeg/libavcodec/4xm.c:345-430 | a pixel covered once shows its own leaf, wherever that leaf stands in decoding order |
| FourXmPBlock.OldVersionsNeverSkip | FFmpeg/libavcodec/4xm.c:400-427 | before version 2 no leaf leaves its pixels unwritten |
| FourXmPBlock.FrameIsWritten | FFmpeg/libavcodec/4xm.c:400-494 | for every bitstream a P-frame writes each pixel at most once, and before version 2 a successful one exactly once |
| FourXmPBlock.OldFramesAreNew | FFmpeg/libavcodec/4xm.c:400-494 | before version 2 a successful P-frame keeps nothing of what the frame buffer held |
| FourXmPStream.RowHoldsTypeBits | FFmpeg/libavcodec/4xm.c:49-78 | for every block size and both generations the tables hold exactly the types usable there, in the codes described independently |
| FourXmPStream.BlockRoundTrip | FFmpeg/libavcodec/4xm.c:345-430 | decoding the bits, bytes and words of a block tree gives its leaves and moves every stream right behind it |
| FourXmPicture.BlockShows | FFmpeg/libavcodec/4xm.c:268-340 | painting these leaves shows, at each pixel of the block, the previous frame's pixel at the motion byte's displacement, with a constant added in 16-bit pairs, or what else its block stands for; other pixels stay |
| FourXmPFrames.FrameRoundTrip | FFmpeg/libavcodec/4xm.c:432-494 | a whole frame of blocks, row by row, decodes to their leaves and uses up its streams |
| FourXmPFrames.FrameIsShown | FFmpeg/libavcodec/4xm.c:268-494 | decoding such a frame in place shows at every pixel what the block there stands for |
| FourXmPFrames.LimitIsExact | FFmpeg/libavcodec/4xm.c:364-425 | the bounds test passes exactly if every pixel of the copy is read inside the previous frame |
| FourXmPFrames.StarvedLeafIsRefused | FFmpeg/libavcodec/4xm.c:384-416 | a leaf whose byte or word stream has too little left is refused and paints nothing |
| FourXmPFrames.NoBitsNoBlock | FFmpeg/libavcodec/4xm.c:357-358 | a block without a bit left is refused, paints nothing and moves no stream |
| FourXmPBlock.FourXContext.Mcdc | FFmpeg/libavcodec/4xm.c:292-340 | repaints exactly the pixels of one leaf from the previous frame, in pairs or single pixels, and no other |
| FourXmPBlock.FourXContext.DecodePBlock | FFmpeg/libavcodec/4xm.c:345-430 | terminates, and changes the frame exactly by painting the block's leaves up to the end or the first error |
| FourXmPBlock.FourXContext.DecodePFrame | FFmpeg/libavcodec/4xm.c:475-494 | changes the frame exactly by painting the leaves of all blocks, up to the first error |
| FourXmCFrames.CFrameTable.Add | FFmpeg/libavcodec/4xm.c:858-923 | files one fragment in place: outcome, numbers and data of all 100 slots |
| FourXmCFrames.FiledIsTake | FFmpeg/libavcodec/4xm.c:877-923 | a step of the table is the same step of a map from frame number to data, with the same outcome |
| FourXmCFrames.RoomIsLeft | FFmpeg/libavcodec/4xm.c:882-892 | a fragment finds no slot exactly if 100 other frames are unfinished |
| FourXmCFrames.TableRefinesMap | FFmpeg/libavcodec/4xm.c:877-923 | after any history without number 0, or with it and one slot to spare, the table stands for the map, or has been overrun, which happens exactly if the frames were too many |
| FourXmCFrames.FramesAreTheirFragments | FFmpeg/libavcodec/4xm.c:894-923 | completed frames followed by pending data are exactly the accepted data of that number in arrival order |
| FourXmCFrames.InterleavingIsIrrelevant | FFmpeg/libavcodec/4xm.c:877-923 | frames of one number do not depend on the fragments of other numbers between them |
| FourXmCFrames.FrameIsDelivered | FFmpeg/libavcodec/4xm.c:894-923 | the fragment that reaches the announced size delivers one frame, the concatenation of its own fragments, however others interleave |
| FourXmCFrames.TableCompletes | FFmpeg/libavcodec/4xm.c:877-923 | over whole runs the table completes the same frames under each number as the map |
| FourXmCFrames.TableDeliversFrame | FFmpeg/libavcodec/4xm.c:877-923 | a frame whose fragments arrive interleaved with others comes out of the table whole and in order |
| FourXmNumberZero.NumberZeroIsMistaken | FFmpeg/libavcodec/4xm.c:882-892 | a history that never has more than 100 frames unfinished, after which the table no longer stands for the map: the map completes a frame of number 0, the table does not |
| FourXmNumberZero.ExactBound | FFmpeg/libavcodec/4xm.c:877-923 | as a bound for the worst case: the table is right about all histories with at most b frames of other numbers unfinished if and only if b is below 100 |
| FourXmNumberZero.ZeroStepExactly | FFmpeg/libavcodec/4xm.c:882-923 | a single fragment of number 0 has the right outcome, and leaves the table wrong if and only if it has data to be kept while the first slot is taken and another one is left |
| FfplayPacketQueue.PacketQueue.PutPrivate | FFmpeg/fftools/ffplay.c:416-437 | an accepted packet is last in the queue with the current serial, the counters stay exact |
| FfplayPacketQueue.PacketQueue.FlushQueue | FFmpeg/fftools/ffplay.c:488-500 | empties the queue, zeroes the counters and opens a new serial |
| FfplayPacketQueue.PacketQueue.Get | FFmpeg/fftools/ffplay.c:530-562 | hands out the oldest packet with its serial unless aborted or empty |
| FfplayPacketQueue.TotalsAppend | FFmpeg/fftools/ffplay.c:428-430 | queued size and duration grow by exactly what one packet adds |
| FfplayPacketQueue.QueueIsFifo | FFmpeg/fftools/ffplay.c:416-562 | packets are got in the order in which they were put, with the serial they were put with |
| FfplayPacketQueue.NewSerials | FFmpeg/fftools/ffplay.c:416-528 | an aborted queue takes and gives nothing; started again it takes packets with the next serial behind those it holds, flushed it holds nothing else |
| FfplayPipeline.StepKeepsInv | FFmpeg/fftools/ffplay.c:577-664 | every step of reader, decoder, filter and display keeps: a thing tagged with the current serial stems only from packets since the latest flush or start, with an older one only from older packets |
| FfplayPipeline.DisplayIsSeekSafe | FFmpeg/fftools/ffplay.c:1594-1597 | in every interleaving a picture that passes the display check stems only from packets queued since the latest flush or start, and one that fails it only from older ones |
| FfplayPipeline.DroppedPacketsAreStale | FFmpeg/fftools/ffplay.c:628-640 | at the serial retest the decoder goes on to send exactly the packets queued since the latest flush or start, and throws the others away |
| FfplayPackets.PacketsAreConserved | FFmpeg/fftools/ffplay.c:577-664 | in every run the accepted packets are, in order, those sent or thrown away, the one in hand or refused and pending, and those queued, apart from those a flush or the end of the decoder removed |
| FfplayPackets.ThrownIsStale | FFmpeg/fftools/ffplay.c:628-640 | over every run a packet thrown away was queued before the flush or start that was the latest then |
| FfplayPackets.CodecHoldsSent | FFmpeg/fftools/ffplay.c:610-664 | the codec holds exactly the packets sent since it was last flushed or drained |
| FfplayPackets.GraphHoldsFed | FFmpeg/fftools/ffplay.c:2131-2222 | the filter graph holds exactly the frames it was fed since it was set up, and frames on their way are those codec and graph gave last |
| FfplayPackets.PicturesAreConserved | FFmpeg/fftools/ffplay.c:1733-1770 | the pictures handed over, each with what the filter graph gave for it, are those the display took, in order, followed by those queued; each one taken is shown or skipped |
| FfplayProgress.SeekCanBeShown | FFmpeg/fftools/ffplay.c:577-664 | from every reachable state that is not stopped, a flush and one new packet can be followed by a picture of this packet alone, and none before it |
| FfplayProgress.PlayingGoesOn | FFmpeg/fftools/ffplay.c:577-664 | as long as the serial stays, codec and filter graph go on without being flushed, and the next packet can be followed by its picture |
| FfplayProgress.DrainedTestsAgain | FFmpeg/fftools/ffplay.c:610-617 | a drained codec is flushed, and no frame is asked for before the serial was tested again |
| FfplayProgress.ReopenedPlays | FFmpeg/fftools/ffplay.c:805-812 | a stopped decoder that is opened again holds, after a start and a put, only the new packet, as after a seek |
| FfplayProgress.AbortStopsTheThread | FFmpeg/fftools/ffplay.c:577-664 | once the queue is aborted the video thread makes at most seven more moves, whatever codec and filters answer, and can move until it has stopped |
| FfplayFrameRing.StepKeepsInv | FFmpeg/fftools/ffplay.c:717-793 | every step of writer and reader, between index and size updates too, keeps each frame in the slot of its number |
| FfplayFrameRing.PeekIsFifo | FFmpeg/fftools/ffplay.c:717-720 | a readable frame is the k-th pushed one after k completed calls of frame_queue_next |
| FfplayFrameRing.LastFrameIsKept | FFmpeg/fftools/ffplay.c:727-730 | in a queue that keeps its last frame, from the first completed call of next on, the frame shown last stays readable in its slot until it is replaced |
| FfplayFrameRing.PushedIsFilled | FFmpeg/fftools/ffplay.c:717-793 | the frames pushed are those the writer filled in, in order, and completed calls of next are counted rightly |
| FfplayFrameRing.GrantedExactly | FFmpeg/fftools/ffplay.c:732-746 | the writer is granted a slot exactly while fewer frames are held than there are slots, the kept one included |
| FfplayFrameRing.ReadableExactly | FFmpeg/fftools/ffplay.c:748-766 | the reader gets a frame exactly while more were pushed completely than calls of next are complete |
| FfplayFrameRing.SlotsAreCleared | FFmpeg/fftools/ffplay.c:779-793 | a slot that holds a frame is one of a frame pushed and not given back, or just being pushed |
| FfplayFrameRing.WriterIsExclusive | FFmpeg/fftools/ffplay.c:732-746 | the slot being filled is neither readable nor the kept last frame |
| FfplayFrameRing.NoMutualWait | FFmpeg/fftools/ffplay.c:738-757 | writer and reader wait at the same time only in a one-slot ring that keeps its last frame |
| FfplayFrameRing.OneSlotDeadlocks | FFmpeg/fftools/ffplay.c:738-757 | in such a ring they do, after one frame |
| FfplayFrameRing.FrameQueue.NextRelease | FFmpeg/fftools/ffplay.c:774-781 | marks the first frame as shown, or gives the slot at rindex back |
| FfmpegVideoOut.OutputStream.DoVideoOut | FFmpeg/fftools/ffmpeg.c:1078-1294 | a call's early exit and complete new state, output frames included, are those of the specification |
| FfmpegVideoOut.OutputIsThePlan | FFmpeg/fftools/ffmpeg.c:1213-1287 | an undisturbed call outputs exactly the planned frames at consecutive times |
| FfmpegVideoOut.CallKeepsBalance | FFmpeg/fftools/ffmpeg.c:1173-1207 | every finished call with an input adds one to output + dropped + pending - duplicated, the flush adds nothing |
| FfmpegVideoOut.FramesAreConserved | FFmpeg/fftools/ffmpeg.c:1628-1629 | over any undisturbed run with at most one flush, output + reported drops = inputs + duplicates |
| FfmpegVideoOut.RefusedCallBalance | FFmpeg/fftools/ffmpeg.c:1192-1199 | a call refused for too many duplicates keeps the balance if and only if no pending picture is left out of its plan |
| FfmpegVideoLimits.CallBalance | FFmpeg/fftools/ffmpeg.c:1114-1228 | in whatever state: what any call adds to the balance, whether it finishes, is refused or meets the end of the recording, and when it does which |
| FfmpegVideoLimits.RecordingEndBalance | FFmpeg/fftools/ffmpeg.c:1226-1228 | a call that ends with the recording time falls short by exactly the planned frames it leaves out |
| FfmpegVideoLimits.EmptyFlushBalance | FFmpeg/fftools/ffmpeg.c:1114-1118 | a flush that finds no picture breaks the balance by exactly the repetitions it plans and cannot output |
| FfmpegVideoLimits.BalanceExactly | FFmpeg/fftools/ffmpeg.c:1114-1228 | in whatever state: a call keeps the balance if and only if it is refused with an input and no pending picture left out, or is not refused and plans no frame, or has a picture to show and its last planned frame comes before the recording ends |
| FfmpegVideoLimits.EveryRunIsAccounted | FFmpeg/fftools/ffmpeg.c:1114-1628 | after inputs, refusals, recording ends and flushes in any order, output + reported drops = inputs + duplicates + the sum of what single calls missed |
| FfmpegVideoLimits.ConservedExactly | FFmpeg/fftools/ffmpeg.c:1114-1628 | frames are conserved all along such a run if and only if each of its calls meets the condition of BalanceExactly |
| FfmpegVideoLimits.RefusedCallLosesBalance | FFmpeg/fftools/ffmpeg.c:1186-1199 | three inputs at constant rate of which the last is refused and one picture is counted twice |
| FfmpegVideoLimits.SecondFlushLosesBalance | FFmpeg/fftools/ffmpeg.c:1114-1118 | three inputs after which a second flush counts a duplicate it does not output |
| FfmpegVideoLimits.FirstFlushLosesBalance | FFmpeg/fftools/ffmpeg.c:1114-1199 | two inputs, both refused, after which the first flush counts four duplicates and outputs none |
| FfmpegVideoLimits.RecordingEndLosesBalance | FFmpeg/fftools/ffmpeg.c:1226-1228 | two inputs of which the second is neither output nor dropped because the recording ends |
| FfmpegVideoOut.CfrDrift | FFmpeg/fftools/ffmpeg.c:1120-1159 | at constant rate a call that outputs leaves output time minus input end in [-0.5, 2.1]; one that outputs nothing leaves the time more than 1.1 ahead |
| FfmpegVideoOut.CfrRun | FFmpeg/fftools/ffmpeg.c:1211-1287 | over whole runs at constant rate the k-th encoded frame has time k, and output never runs more than 2.1 ahead of input ends that never decrease |
| FfmpegVideoOut.OutputIsOrdered | FFmpeg/fftools/ffmpeg.c:1120-1287 | unless timestamps are passed through, encoded times strictly increase and pictures keep input order |
| FfmpegVideoTimes.VfrTimes | FFmpeg/fftools/ffmpeg.c:1160-1165 | at variable rate a picture that ends 0.6 or more before the output time is not output; another one is output once, at the output time if it ends no more than 0.6 behind it, and else within half a frame of the later of its start and that time |
| FfmpegVideoTimes.PassedThrough | FFmpeg/fftools/ffmpeg.c:1166-1169 | with times passed through or dropped a picture is output once, within half a frame of its start |
| FfmpegVideoTimes.RoundIsHalfEven | FFmpeg/fftools/ffmpeg.c:1157-1169 | times are rounded to the nearest integer, half-way cases to the even one |
| FfmpegVideoTimes.CfrPictures | FFmpeg/fftools/ffmpeg.c:1147-1159 | at constant rate frames more than 1.1 before a picture's start repeat the previous one, and frames later than 0.1 before it show the new one |
| FfmpegVideoTimes.CfrSilentExactly | FFmpeg/fftools/ffmpeg.c:1147-1159 | at constant rate a call outputs nothing exactly if the picture ends more than 1.1 before the output time, or by less than the drop threshold behind it after the first frame |
| FfmpegVideoTimes.VscfrStart | FFmpeg/fftools/ffmpeg.c:1138-1146 | a first picture half a frame late or later is not preceded by repetitions: all frames show it, from within half a frame of its start, as many as its duration asks for |
| FfmpegVideoTimes.VscfrIsCfr | FFmpeg/fftools/ffmpeg.c:1138-1159 | in all other cases a variable start plans as a constant rate does |
| FfmpegVideoTimes.LastThreeRepeats | FFmpeg/fftools/ffmpeg.c:1181-1184 | the stream remembers the repetitions of its last three calls, newest first |
| FfmpegVideoTimes.FlushRepeatsTheMedian | FFmpeg/fftools/ffmpeg.c:1114-1118 | the flush repeats the last picture as often as the median of these three, as far as the frame limit allows |
| FfmpegVideoTimes.LimitsAreKept | FFmpeg/fftools/ffmpeg.c:1173-1228 | over every run, however its calls end, no more frames are output than allowed and none at or behind the end of the recording |
| FfmpegVideoTimes.RefusalIsSilent | FFmpeg/fftools/ffmpeg.c:1192-1199 | a call is refused exactly if it would count a duplicate and plans more frames than the limit; it then outputs and counts none |
| FfmpegMux.GuessIsMedian | FFmpeg/fftools/ffmpeg_mux.c:121-124 | the guess for a dts behind its pts is the median of pts, dts and the last dts + 1 |
| FfmpegMux.GoodPacketsPass | FFmpeg/fftools/ffmpeg_mux.c:112-150 | a packet whose stamps are in order leaves with each of them rescaled from the stream's time base to the container's, or missing as before, and nothing else changed |
| FfmpegMux.StampsAreDropped | FFmpeg/fftools/ffmpeg_mux.c:99-101 | a packet of a stream that drops timestamps leaves without any and with nothing else changed |
| FfmpegMux.RepairedIsLegal | FFmpeg/fftools/ffmpeg_mux.c:112-150 | after repair pts is not before dts, and dts is behind (or, if allowed, at) the previous one |
| FfmpegMuxRuns.RepairIsLeast | FFmpeg/fftools/ffmpeg_mux.c:126-150 | stamps in order are moved no further than the previous dts forces them to |
| FfmpegMuxRuns.MisorderedGetTheMedian | FFmpeg/fftools/ffmpeg_mux.c:114-150 | a packet with its dts behind its pts gets the median of both and the last dts + 1 for both, moved up in the same way |
| FfmpegMuxRuns.NoTimestampsNoRepair | FFmpeg/fftools/ffmpeg_mux.c:112-150 | formats without timestamps get the rescaled stamps as they are |
| FfmpegMuxRuns.AbortsExactly | FFmpeg/fftools/ffmpeg_mux.c:134-142 | told to stop at errors, the program ends exactly at a packet whose dts would have to be moved |
| FfmpegMuxRuns.FullExactly | FFmpeg/fftools/ffmpeg_mux.c:67-83 | the program gives up exactly if a queue is full, over its threshold and at its limit; otherwise a full queue doubles, or grows to the limit |
| FfmpegMux.MuxStream.Buffer | FFmpeg/fftools/ffmpeg_mux.c:67-97 | grows the queue within its limits or gives up, and keeps the packet last |
| FfmpegMux.OutputFile.WritePacket | FFmpeg/fftools/ffmpeg_mux.c:44-178 | complete effect on the file of one packet, new or taken from its queue |
| FfmpegMux.OutputFile.CheckInit | FFmpeg/fftools/ffmpeg_mux.c:230-279 | result and complete new state: the header once all streams are ready, then every queue drained into the muxer, unless header or SDP fail |
| FfmpegMux.OutputFile.InitStream | FFmpeg/fftools/ffmpeg.c:3252-3256 | a stream becomes ready once, and tries to open the file; failure ends the run, as in every caller |
| FfmpegMux.RunKeepsInv | FFmpeg/fftools/ffmpeg_mux.c:44-279 | any order of deliveries and initialisations keeps the books of every stream and the place of the header |
| FfmpegMux.HeaderComesFirst | FFmpeg/fftools/ffmpeg_mux.c:230-249 | the header is written once, before every packet, with all streams initialised |
| FfmpegMux.NothingIsLost | FFmpeg/fftools/ffmpeg_mux.c:59-97 | the first accepted packets are muxed, in order and changed only in their stamps, each repaired behind the one before, and the others are queued; queued bytes, written and frame counts agree, the frame limit holds |
| FfmpegMuxRuns.DeliveredAreAccepted | FFmpeg/fftools/ffmpeg_mux.c:52-62 | over every run a stream accepts exactly the packets delivered to it, up to its frame limit, and counts them, unless they are encoded video |
| FfmpegMuxRuns.GivesUpExactly | FFmpeg/fftools/ffmpeg_mux.c:52-279 | unless told to stop at errors, the program gives up exactly at a packet that waits for the header and finds no room, and at the last stream to be ready if header or SDP fail |
| FfmpegMuxRuns.StartsWithRoom | FFmpeg/fftools/ffmpeg_opt.c:1712 | before the first step nothing is given up or written, and every queue is empty with room for eight packets |
| FfmpegMuxRuns.HeaderExactly | FFmpeg/fftools/ffmpeg_mux.c:230-249 | the header is written exactly if every stream was made ready and there is one |
| FfmpegMuxRuns.TimeBaseExactly | FFmpeg/fftools/ffmpeg_mux.c:262-276 | stamps are taken from a stream's own time base until the header, and behind it from the container's unless packets were waiting |
| FfmpegMux.TimestampsAreOrdered | FFmpeg/fftools/ffmpeg_mux.c:114-150 | over every run neighbouring muxed packets of a stream have increasing (or, if allowed, non-decreasing) dts, and no pts before its dts |
| ArcPlayer.StepKeepsInv | jni/VideoDecoder.cpp:283-295 | every step of either thread keeps the counters, slots, mutex and log invariants, for every ring of two or more slots |
| ArcPlayer.RingHoldsItsWindow | jni/VideoDecoder.cpp:270-281 | at most N-1 frames are buffered, and slot c mod N holds the c-th frame the codec gave, from the shown to the newest |
| ArcPlayer.WriteSlotIsFree | jni/VideoDecoder.cpp:450-456 | the slot decoded into is neither shown nor waiting to be shown |
| ArcPlayer.ScreenIsStable | jni/VideoDecoder.cpp:449-459 | no step of the decoding thread changes the slot on screen |
| ArcPlayer.FramesInOrder | jni/VideoDecoder.cpp:283-295 | frames are handed out in the order in which the codec gave them, advancing by at most one per call, each being the one of its number |
| ArcPlayer.CountedIsGiven | jni/VideoDecoder.cpp:418-462 | in every run the frames counted, followed by the one in hand, are those the codec gave |
| ArcPlayerStart.UndecodedExactly | jni/VideoDecoder.cpp:283-295 | between two calls: some continuation hands out a slot that no frame was decoded into if and only if no frame was counted yet and output has not ended |
| ArcPlayerStart.NextCallMayShowUndecoded | jni/VideoDecoder.cpp:283-295 | from every such state the very next call may do so |
| ArcPlayerStart.UndecodedSlotIsShown | jni/VideoDecoder.cpp:284-294 | for every ring some run begins with a call that hands out slot 0, into which nothing was decoded, although one frame is counted |
| ArcPlayer.WaitHoldsTheMutex | jni/VideoDecoder.cpp:463-465 | wait is entered only holding the mutex, despite the unlocked continue and break, and only with a full ring |
| ArcPlayer.NeverLocksItself | jni/VideoDecoder.cpp:415-461 | the decoding thread never locks a mutex it holds |
| ArcPlayer.SleepMeansFull | jni/VideoDecoder.cpp:463-465 | asleep with no signal under way means that the ring is full and output has not ended |
| ArcPlayer.SleepsByItself | jni/VideoDecoder.cpp:463-465 | from waiting on the decoding thread does nothing by itself until it is signalled or woken up |
| ArcPlayer.NextCallWakes | jni/VideoDecoder.cpp:66-73 | from such a sleep the next frame request, or the destructor, signals the thread |
| ArcPlayer.CallsAreNeverStuck | jni/VideoDecoder.cpp:283-295 | while a call of the player is under way, the caller or the decoding thread can move |
| ArcPlayer.DestructorReturns | jni/VideoDecoder.cpp:66-73 | once the destructor joins, the decoding thread finishes within eleven steps of its own, whatever the codec answers |
| ArcPlayerCalls.LoneCall | jni/VideoDecoder.cpp:283-295 | the steps of an uninterrupted frame request add up to the contract of NextVideoFrame |
| ArcPlayerCalls.LoneCallShowsDecoded | jni/VideoDecoder.cpp:283-295 | an uninterrupted request hands out decoded frames only: the next one, or the last one again |
| ArcPlayerCalls.BufferedMeansNext | jni/VideoDecoder.cpp:483-485 | once output has ended the ring counts as buffered exactly if the next request shows a new frame, before that exactly if it is full |
| ArcPlayerCalls.FillIsARun | jni/VideoDecoder.cpp:418-462 | the uninterrupted decoding loop is a run of the decoding thread's steps |
| ArcPlayerCalls.FillStoresFrames | jni/VideoDecoder.cpp:418-462 | the loop uses the answers up to the first at which the ring is full or output ends, stores their frames in order and touches no other slot |
| ArcPlayerCalls.VideoRing.NextVideoFrame | jni/VideoDecoder.cpp:283-295 | new counters, wake-up and returned slot of an uninterrupted request |
| ArcPlayerCalls.VideoRing.FillRing | jni/VideoDecoder.cpp:418-462 | fills the slots in place with the frames among the codec's answers, each in the slot of its number, until the ring is full, output ends or more answers are needed |
| ArcPackets.PacketSource.ReadPacket | jni/VideoDecoder.cpp:398-413 | moves the next demuxed packet into the list of its stream, or drops a foreign one |
| ArcPackets.PacketSource.FindPacket | jni/VideoDecoder.cpp:422-436 | the search loop ends with the first packet its stream still has, or none if there is none, and takes nothing from the other stream |
| ArcPackets.TryTakesFirst | jni/VideoDecoder.cpp:350-359 | one pass takes the first pending packet of its stream, or uses up demuxer input, or finds that nothing is left |
| ArcPackets.PacketsAreConserved | jni/VideoDecoder.cpp:345-363 | however the threads interleave, a stream's demuxed packets are those popped, in order, followed by those queued and those still to be demuxed |
| ArcPackets.DrainComesLast | jni/VideoDecoder.cpp:345-363 | an empty drain packet is sent only with the demuxer at its end, the stream's list empty and all its packets sent before |
| ArcPackets.SendsTheNext | jni/VideoDecoder.cpp:422-440 | from every state a resting thread left alone can send its codec the first packet its stream still has, or the drain packet if there is none |
| ArcPackets.SearchEnds | jni/VideoDecoder.cpp:426-436 | under any interleaving a search that gets more passes than there are packets to demux has ended |
| RenderCharset.Tables.constructor | FFmpeg/libavcodec/a64multienc.c:121-138 | the one-pass tables hold, for every luma value, the palette entry below, the next one, and the dither step |
| RenderCharset.AdjustedIsSettled | FFmpeg/libavcodec/a64multienc.c:175-185 | clamping removes all of one error, so no character is rendered more than twice |
| RenderCharset.OnlyExtremesMove | FFmpeg/libavcodec/a64multienc.c:176-184 | the adjustment moves only pixels beyond the fourth or short of the second colour, to that colour |
| RenderBrightness.SmallerErrorIsRemoved | FFmpeg/libavcodec/a64multienc.c:175-185 | the adjustment removes the smaller error altogether, the dark one if they are equal, and leaves the greater as it was |
| RenderBrightness.AdjustmentCostsLess | FFmpeg/libavcodec/a64multienc.c:159-185 | of darkening the bright pixels and brightening the dark ones the adjustment does what changes the luma of the character less |
| RenderBrightness.PatternsAreLevels | FFmpeg/libavcodec/a64tables.h:93-148 | dither pattern d lights exactly 4 d of its 32 pixels |
| RenderCharset.A64Context.RenderCharset | FFmpeg/libavcodec/a64multienc.c:140-195 | terminates although it steps its counter back, and leaves adjusted codebook, both fields' rows and colour RAM of all 256 characters |
| RenderCharset.CharsetIsDecodable | FFmpeg/libavcodec/a64multienc.c:140-195 | from row bytes and colour RAM bit the display shows exactly the palette entry chosen for each pixel of the final codebook |
| RenderCharset.FifthColourHasItsBit | FFmpeg/libavcodec/a64multienc.c:192-193 | the fifth colour occurs only in characters whose bit is set, the first colour only in others |
| RenderCharset.ShadeIsNear | FFmpeg/libavcodec/a64multienc.c:159-167 | both fields show a palette entry next to the pixel's luma, and that luma itself if it is in the palette |
| RenderBrightness.AreaIsBright | FFmpeg/libavcodec/a64multienc.c:121-167 | an area of one luma value comes out no brighter, and darker by less than a quarter of the distance between the palette entries around it |
| EightBps.LayoutsAreLegal | FFmpeg/libavcodec/8bps.c:140-175 | every supported depth gives each plane its own byte in the pixel, other depths are refused |
| EightBpsLimits.PlanesMeetTheFormat | FFmpeg/libavcodec/8bps.c:140-175 | every plane is written to the byte that its colour has in the pixel format, on machines of either byte order |
| EightBps.LineStaysInRow | FFmpeg/libavcodec/8bps.c:99-122 | whatever the bytes, no line grows beyond the row of the frame |
| EightBps.DecodeFrame | FFmpeg/libavcodec/8bps.c:74-126 | in place and inside the frame; success and pixels are those of the specification, and the repeated table test never fails |
| EightBps.LineRoundTrip | FFmpeg/libavcodec/8bps.c:99-122 | an encoded line of literal and repeat runs decodes to its pixels and ends where its bytes end |
| EightBps.TruncatedLineIsRefused | FFmpeg/libavcodec/8bps.c:99-108 | a line whose bytes end too early, anywhere, is refused |
| EightBpsLimits.ReadsUntilTheRowIsFull | FFmpeg/libavcodec/8bps.c:99-122 | a line whose length ends inside a run or behind all of them is read on, its 32-bit length wrapping around, until a run does not fit the row, of which only the first byte is used |
| EightBps.DecodingConsumes | FFmpeg/libavcodec/8bps.c:74-126 | decoding an encoded image uses exactly its bytes, whatever follows |
| EightBps.DecodingRebuilds | FFmpeg/libavcodec/8bps.c:74-126 | every pixel of every plane is rebuilt in its place |
| EightBps.DecodingKeepsPadding | FFmpeg/libavcodec/8bps.c:84-122 | bytes of the frame that belong to no pixel keep their value |
| EightBps.EveryLineHasAnEncoding | FFmpeg/libavcodec/8bps.c:99-122 | every line of up to 65026 pixels has an encoding whose length fits its 16-bit table entry and which decodes to these pixels |
| CommandLine.Report.DumpArgument | FFmpeg/fftools/cmdutils.c:435-457 | appends exactly the bare, or the quoted and escaped, form of the argument |
| CommandLine.Report.DumpCommandLine | FFmpeg/fftools/cmdutils.c:486-490 | appends the whole line, or nothing if there are no arguments |
| CommandLine.LineRoundTrip | FFmpeg/fftools/cmdutils.c:435-490 | the line parses back to the same arguments, empty and non-printable ones included, and the parser stops behind it |
| CommandLine.LinesAreUnambiguous | FFmpeg/fftools/cmdutils.c:435-490 | reports that agree from the command line on have the same arguments and the same rest |
| CommandLine.LineIsExact | FFmpeg/fftools/cmdutils.c:435-490 | whatever parses is a line the report writes, in just this way: the specials of a shell are escaped, nothing else is, and no argument is quoted without need |
| CommandLine.BareExactly | FFmpeg/fftools/cmdutils.c:439-442 | exactly letters, digits and a few signs without meaning to a shell stand bare |
| CommandLine.LineIsOneLine | FFmpeg/fftools/cmdutils.c:435-490 | whatever the arguments hold, the line is printable and ends at its only newline |

## Left out

Where a property fails, and on what condition it holds:

- FourXmCodeTables.TablesSpellOneTree: stated for 1 to 256 used symbols. With all 257, as in the packet of `AllSymbolsUsed`, the 512-entry array has no room for the last merge and two trees remain. `SpellsExactly`, `PrefixFreeExactly` and `KraftSumExactly` give the exact conditions for one tree, for prefix freedom and for the Kraft sum. Minimality and the 22-bit bound need no condition.
- FourXmCFrames.TableRefinesMap: a history that uses number 0, which also marks unused slots, must leave one more slot free. For a single history this is sufficient only; `ExactBound` shows that 99 other unfinished frames is the exact bound for the worst case, and `ZeroStepExactly` says exactly which fragments of number 0 go to a wrong slot. With 100 other frames unfinished the source uses slot -1; the model notes the overrun and says exactly when it happens, not what is overwritten.
- FfmpegVideoOut.FramesAreConserved: excludes runs with a call that ends at the duplication limit or the recording time, and any flush but the last call. `EveryRunIsAccounted` covers all runs, `BalanceExactly` gives the exact condition for one call in any state and `ConservedExactly` for runs; a refused call, the end of the recording, a second flush, and a first flush after refused calls only each have an input that loses the balance.
- ArcPlayer.FramesInOrder: entry 0 stands for a slot into which no frame was decoded. `UndecodedExactly` says when one may still be handed out.
- FfplayFrameRing.NoMutualWait: does not hold for a one-slot ring that keeps its last frame (`OneSlotDeadlocks`); ffplay uses larger rings.

Contracts that say less than their function does:

- FourXmHuffman.ReadHuffmanTables: the source fails as well if `init_vlc` refuses the code tables. Its tests of length and range never do (`CodesFitTheirLength`); the decoding table it builds, and its refusal of codes that clash there, are not part of this model. Codes of length 0 do not enter that table.
- FfmpegVideoOut.OutputStream.DoVideoOut: forced key frames, and the computation of start time and duration from packet and filter, which are inputs here.
- FfmpegMux.OutputFile.WritePacket: packet durations, and the flags set when `av_interleaved_write_frame` fails.

Assumptions about the surroundings:

- Unlocking a mutex by a thread that does not own it (`jni/VideoDecoder.cpp` lines 440 and 446 lead to one) is taken to do nothing; balanced locking is not claimed.
- Memory ordering effects are not modelled; shared accesses are sequentially consistent.
- A read that the demuxer refuses is taken as the end of its input, as the player takes it.
- Allocation failures and failures of `av_interleaved_write_frame` are not modelled; `exit_program` ends a run of the muxer model, and nothing is claimed afterwards.
- `do_video_out` works on reals with rounding half to even; floating point error is not modelled. The computation of start time and duration from the packet and filter is input to the model.
- Rescaling of timestamps is an arbitrary function on present timestamps that yields present ones or the missing mark; packet durations are not modelled.
- The palette of the C64 renderer is any four or five luma values rising from 0; that the source's weighted sums of palette colours rise depends on floating point rounding and is not shown. Codebook entries are luma values 0 to 255, as averages of such values are.

Parts of the modelled files that are not part of this model:

- 4XM: the split of a P-frame packet into its three streams, the precomputed motion table (any table of 256 displacements is allowed), I-frames, and bits read behind the end of the bitstream (taken as zero). Pixel pairs are stored in little-endian order.
- ffplay: the subtitle decoder, audio, synchronisation of clocks, and the early-drop heuristics (a picture may or may not be dropped early); decoder threads appear as steps rather than as one loop with blocking waits.
- ffmpeg: forced key frames, bitstream filters, the contents of the SDP, and the trailer.
- Player: audio resampling and buffer filling, file opening, and the timestamp getters.
- 8BPS: the palette, and the return value, which reports the whole packet as used.
- C64 renderer: the non-interlaced variant that the constant INTERLACED switches off, and the batching of `a64multi_encode_frame`.
- Command line: the report's file name and level options.
- Packets in the muxer model carry a number that identifies them in place of their contents.
