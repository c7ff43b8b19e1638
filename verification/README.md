# LibPlayer in Dafny: index walks, server accounts, frame timing and the audio path

This project models the parts of the Amlogic LibPlayer tree whose correctness rests on
invariants spread over several functions, and proves those invariants for all inputs and
all runs. Verify it with `dafny verify dfyconfig.toml`.

| file | what it models |
|---|---|
| `SubtitleBlend.dfy`, `SubtitleChroma.dfy`, `SubtitleEmpty.dfy` | ffplay's blending of a paletted subtitle into a 4:2:0 picture: the pointer walk, what it leaves on the three planes, and what it draws of an empty rectangle, and when that leaves the plane |
| `StreamSelect.dfy` | ffmpeg's choice of an input stream for every output: threshold search and first fit |
| `VideoSync.dfy`, `SinglePrecision.dfy` | ffmpeg's dropping and repeating of frames to follow the input clock, and the rounding it uses |
| `ServerAccounts.dfy`, `ServerRuns.dfy` | ffserver's connection machine: list, count, bandwidth charge, exclusive feeds; and what its turns, rounds and schedules do to all connections |
| `RtspSocket.dfy`, `RtspSharing.dfy` | ffserver's RTSP socket, and its sharing by replies and by the RTP sessions that borrow it, come and go |
| `FeedFile.dfy`, `FindStream.dfy` | ffserver's wrapping feed file; its choice of a feed stream by bit rate |
| `PackageList.dfy`, `PcmRing.dfy`, `AudioPath.dfy` | the bitstream packages, the PCM ring, the three threads between them, and the pipeline these amount to |
| `ApeScanner.dfy` | the resumable search for the mark before an APE frame |
| `SpdifPack.dfy`, `SpdifRing.dfy`, `DtsTranscoder.dfy` | IEC 61937 bursts, the DMA ring of the S/PDIF block, and the transcoder that packs, writes and retries |
| `MessagePool.dfy` | the pool of player commands |
| `Bytes.dfy`, `Wrappers.dfy` | the byte type and the optional value they share |

Code that changes state in the source is a class or a method over arrays here, proved
against a specification by functions; what the source promises is then proved about those
functions, or kept as an invariant by every method. Threads and connections are interleaved
step by step, and sockets, files, clocks, decoders and the hardware are inputs of the steps.

## What the code does not do

Some properties one would expect do not hold. Each is proved with its exact condition.

- Subtitle chroma: the tail of an odd first row steps `lum` and `p` but not `cb` and `cr`
  (`ffplay.c` 488-495), so every later chroma row starts one cell early. Chroma is blended in
  place if and only if not (`dsty` odd, `dstx + dstw` odd, more than one row)
  (`SubtitleChroma.ChromaInPlaceIff`). No index leaves the plane even then.
- Subtitle chroma: pairs of an odd last row pass the right pixel's colour, not the sum
  (`ffplay.c` 614-615). Cells take their covered pixels' mean if and only if they are not
  such pairs (`SubtitleChroma.CellIdealIff`).
- Subtitle, empty rectangle: of no columns or rows at an odd start two are drawn, because what
  is left is then -1 and passes for one more. The walk draws the rectangle's own rows and
  columns if and only if no empty dimension starts odd (`SubtitleEmpty.DrawableIff`). Of no
  columns at `x` odd, its luma indices leave a plane of `imgh` rows if and only if `x` and two
  for every band reach past the rows left from the last one on (`SubtitleEmpty.EmptyLeavesIff`);
  at the corner of an odd picture without padding they always do (`SubtitleEmpty.EmptyAtEdge`).
- Frame stamps: `lrintf` takes a single-precision number. With sync on, the stamps of all runs
  are in order if and only if times stay up to 33554433.6 (`VideoSync.AllOrderedIff`; two
  pictures with one stamp are in `VideoSync.StampRepeats`). At a variable rate every frame is
  stamped within 0.6 of its time if and only if times stay up to 2097152.6
  (`VideoSync.AllCloseIff`). At a constant rate the drift bound of 1/2 is that of exact rounding
  (`VideoSync.NearestDrift`); `lrintf` passes it by a little (`VideoSync.DriftTight`) and keeps
  9/16 over spans below 2^21 frames (`VideoSync.LrintfDrift`).
- Feed stream choice: the start value 100000000 hides some streams. The pass answers as its
  comment says if and only if nothing matches or some match can be taken from there
  (`FindStream.FindStreamInFeed`).
- Feed file: the feed is fit for storing if and only if its file is truncated or its header
  holds an index on a packet boundary, within the file and below the maximum size
  (`FeedFile.Feed.constructor`).
- Poll loop: the successor the loop has saved is still listed after a turn if and only if the
  turn was not a TEARDOWN of it (`ServerRuns.PollAt`).
- RTP over TCP: the frame header holds two length bytes, so a packet comes back if and only
  if it is shorter than 65536 bytes (`RtspSocket.FrameRoundTripIff`). The test for RTCP looks
  at a length byte, so no such packet takes an odd channel (`RtspSocket.OddChannelIff`).
- RTSP socket: a session that is closed while its packet is partly sent frees the buffer the
  socket goes on sending from (`ffserver.c` 893, 1049, 2519). A step keeps the packet in
  progress backed by a session that is there if and only if it is not such a close
  (`RtspSharing.TakeAny`, `RtspSharing.LeaveSocket`). What is sent is a prefix of whole replies
  and frames over every run up to one (`RtspSharing.Serve`); behind it, only while the freed
  memory still reads as the packet (`RtspSharing.LeaveInside`). A run that sends other bytes is
  in `RtspSharing.LeaveInMidPacket`.
- DTS over S/PDIF: a burst carries its frame if and only if that has at most 2040 bytes
  (`SpdifPack.DtsReceivedIff`). The transcoder then writes only as many bytes of the packed
  buffer as the frame had: the whole burst if and only if that is at least 2048
  (`SpdifPack.WholeBurstIff`), the preamble if and only if it is at least 36
  (`SpdifPack.PreambleSentIff`), and the whole frame if and only if it is empty
  (`SpdifPack.FrameSentIff`). The length code is the constant of a frame of 2040 bytes.
- Raw samples over S/PDIF: the returned length leaves out a last partial block, so they come
  back whole if and only if they fill whole blocks (`SpdifPack.RawReceivedIff`).
- S/PDIF ring: pointers that meet read as full, so a drained ring accepts nothing
  (`SpdifRing.SpaceExact`, `SpdifRing.DmaRing.Offer`) and is not seen to be low: in a ring of
  8192 bytes or more the level check answers if and only if between 1 and 4095 bytes are left
  (`SpdifRing.LevelExact`, `SpdifRing.DmaRing.CheckLevel`).
- Audio path: a failed APE decode loses the undecoded tail. The bitstream is conserved over a
  run if and only if the format is not APE or no decode of the run failed
  (`AudioPath.ConservedIff`; a run that loses a byte is in `AudioPath.FailedDecodeRun`). A
  decoded chunk longer than the ring is waited for without end, and only such a one
  (`AudioPath.WaitEndsIff`, `AudioPath.OversizeStuck`).
- Stream selection: two outputs share an input if and only if some type has fewer eligible
  inputs than outputs and each such type can be reused (`StreamSelect.SharedIff`); the
  fatal exit has its own condition (`StreamSelect.GivesUpIff`).

## Model

| member | source | states |
|---|---|---|
| `SubtitleBlend.AlphaBlend` | LibPlayer/amffmpeg/ffplay.c:401-402 | the blended byte lies between the old cell and the new colour sum divided by its weight, is the old cell when alpha is 0 and that quotient when alpha is 255; so it never leaves 0..255 |
| `SubtitleBlend.BlendMixes` | LibPlayer/amffmpeg/ffplay.c:401-402 | it is exactly the mix of the two, by weights 255 - alpha and alpha, without its fraction |
| `SubtitleBlend.UnpackPacked` | LibPlayer/amffmpeg/ffplay.c:413-425 | the four channels, put together again as `YUVA_OUT` does, are the palette word |
| `SubtitleBlend.PxWord` | LibPlayer/amffmpeg/ffplay.c:415-415 | a bitmap cell's pixel is the palette word at the cell's index |
| `SubtitleBlend.ClipNearest` | LibPlayer/amffmpeg/ffplay.c:439-442 | a clip gives the nearest number of its range |
| `SubtitleBlend.PlaceNearest` | LibPlayer/amffmpeg/ffplay.c:439-442 | the size drawn is the nearest that fits the picture, and the position the nearest at which it does |
| `SubtitleBlend.Place` | LibPlayer/amffmpeg/ffplay.c:439-442 | the clipped rectangle always lies in the picture, and a rectangle that already does is not moved |
| `SubtitleBlend.LumaPixel` | LibPlayer/amffmpeg/ffplay.c:460-461 | blending one pixel extends the blended part of the luma plane by exactly that pixel, and hands on that pixel's palette entry |
| `SubtitleBlend.LumaStep` | LibPlayer/amffmpeg/ffplay.c:460-461 | blending the next cell moves the frontier of blended luma cells by one, for either row of a pair, whatever the stride |
| `SubtitleBlend.Colour` | LibPlayer/amffmpeg/ffplay.c:614-616 | the colour passed to a chroma blend never exceeds what its shift allows, nor the sum over the covered pixels |
| `SubtitleBlend.ChromaCell` | LibPlayer/amffmpeg/ffplay.c:481-482 | one blend on each chroma plane is the next step of the cell-by-cell reference on both planes, and its index is in bounds |
| `SubtitleBlend.CellsOfRow` | LibPlayer/amffmpeg/ffplay.c:447-447 | `width2` is exactly the number of chroma cells a row of the rectangle touches, for all parities |
| `SubtitleBlend.CellInside` | LibPlayer/amffmpeg/ffplay.c:444-448 | every index of the chroma walk is inside the plane, even after an odd first row |
| `SubtitleBlend.NextRowStart` | LibPlayer/amffmpeg/ffplay.c:496-499 | the end-of-row arithmetic takes the four pointers to the start of the next row or pair, up to the one-cell shift of the odd first row |
| `SubtitleBlend.OddSingleCell` | LibPlayer/amffmpeg/ffplay.c:459-468 | a lone column of an odd row gives its cell that pixel's colour and a quarter of its alpha |
| `SubtitleBlend.OddPairCell` | LibPlayer/amffmpeg/ffplay.c:602-619 | a pair of an odd row gives its cell the alpha sum over 4, and the colour sum over a first row but only the right pixel's colour over a last row |
| `SubtitleBlend.LoneSum` | LibPlayer/amffmpeg/ffplay.c:459-463 | a column that shares its cell with no other adds its own pixel and nothing else |
| `SubtitleBlend.RowPairCell` | LibPlayer/amffmpeg/ffplay.c:553-554 | a cell of a row pair gets the colour sum of exactly the covered pixels, with the shift of their number |
| `SubtitleBlend.OddSingle` | LibPlayer/amffmpeg/ffplay.c:459-468 | a lone column of an odd row advances both references by one luma pixel and one chroma cell |
| `SubtitleBlend.OddPair` | LibPlayer/amffmpeg/ffplay.c:469-487 | two columns of an odd row advance them by two luma pixels and one chroma cell |
| `SubtitleBlend.OddColumns` | LibPlayer/amffmpeg/ffplay.c:459-495 | the columns of an odd row complete it on all planes; `cb` and `cr` stop one short exactly when the row has a tail |
| `SubtitleBlend.OddPairs` | LibPlayer/amffmpeg/ffplay.c:469-487 | the loop over pairs blends all whole pairs and keeps the pointers in step |
| `SubtitleBlend.OddRow` | LibPlayer/amffmpeg/ffplay.c:454-500 | an odd first or last row completes one luma row and one chroma row and, if first, leaves the pointers at the next row |
| `SubtitleBlend.PairSingle` | LibPlayer/amffmpeg/ffplay.c:506-525 | a lone column of a row pair advances the references by its two pixels and one cell |
| `SubtitleBlend.PairBlock` | LibPlayer/amffmpeg/ffplay.c:526-560 | a 2x2 block advances the references by its four pixels and one cell |
| `SubtitleBlend.BlockCell` | LibPlayer/amffmpeg/ffplay.c:553-554 | a 2x2 cell gets the sums over its four pixels |
| `SubtitleBlend.BlockPixels` | LibPlayer/amffmpeg/ffplay.c:527-551 | the four luma blends of a block and the sums kept over them |
| `SubtitleBlend.PairBlocks` | LibPlayer/amffmpeg/ffplay.c:526-560 | the loop over blocks blends all whole blocks and keeps the pointers in step |
| `SubtitleBlend.PairColumns` | LibPlayer/amffmpeg/ffplay.c:506-580 | the columns of a row pair complete both luma rows and the chroma row |
| `SubtitleBlend.RowPair` | LibPlayer/amffmpeg/ffplay.c:501-585 | a row pair leaves the pointers at the start of the next band |
| `SubtitleBlend.BandsLeft` | LibPlayer/amffmpeg/ffplay.c:501-587 | the remaining height tells which chroma rows and whether an odd last row are still to come |
| `SubtitleBlend.Bands` | LibPlayer/amffmpeg/ffplay.c:501-585 | the loop over row pairs completes all whole pairs of rows |
| `SubtitleBlend.PictureReaches` | LibPlayer/amffmpeg/ffplay.c:443-452 | planes big enough for the picture are big enough for the clipped rectangle |
| `SubtitleBlend.LumaComplete` | LibPlayer/amffmpeg/ffplay.c:430-628 | when the walk has passed the last row, the luma plane is the per-pixel reference: one blend in each covered cell and no change elsewhere |
| `SubtitleBlend.LumaMixes` | LibPlayer/amffmpeg/ffplay.c:430-628 | so every covered luma cell is the mix of its old value and its pixel's luma by the pixel's alpha, and no other cell changes |
| `SubtitleBlend.BlendSubrect` | LibPlayer/amffmpeg/ffplay.c:430-628 | the whole walk: luma equals one blend per covered pixel and nothing else, each chroma plane equals the cell-by-cell reference; for all parities of position and size |
| `SubtitleChroma.CellOfPixel` | LibPlayer/amffmpeg/ffplay.c:443-448 | a pixel of the rectangle belongs to the cell at its halved coordinates and to no other, and that cell is one of the walk's |
| `SubtitleChroma.PixelOfCell` | LibPlayer/amffmpeg/ffplay.c:447-448 | every cell of the walk covers some pixel of the rectangle |
| `SubtitleChroma.WalkInPlace` | LibPlayer/amffmpeg/ffplay.c:496-499 | outside the family below, after any part of the walk each chroma cell holds exactly one blend if the walk has passed it and its old value otherwise |
| `SubtitleChroma.LastCellKept` | LibPlayer/amffmpeg/ffplay.c:488-499 | in that family the last cell of the rectangle is never written, however far the walk goes |
| `SubtitleChroma.LastCell` | LibPlayer/amffmpeg/ffplay.c:488-499 | that cell lies in the rectangle, and a blend would change it under a white bitmap |
| `SubtitleChroma.ChromaInPlaceIff` | LibPlayer/amffmpeg/ffplay.c:488-499 | on all bitmaps and planes each covered cell is blended once, in place, and no other is, if and only if it is not the case that `dsty` is odd, `dstx + dstw` is odd and more than one row is drawn |
| `SubtitleChroma.CellIdealIff` | LibPlayer/amffmpeg/ffplay.c:609-616 | a cell gets the blend of exactly its covered pixels' sums, for all bitmaps, if and only if it is not a pair of an odd last row |
| `SubtitleChroma.CellPixels` | LibPlayer/amffmpeg/ffplay.c:443-448 | a cell's sums are over the pixels of the rectangle among the four picture pixels of the cell, and its shift divides by how many those are |
| `SubtitleChroma.CellMixes` | LibPlayer/amffmpeg/ffplay.c:609-616 | a cell's value is the mix of its old value and the mean colour of those pixels, or half the right one's in a pair of an odd last row, by a quarter of their alpha sum |
| `SubtitleEmpty.DrawnIs` | LibPlayer/amffmpeg/ffplay.c:469-495 | the loops draw as many columns, or rows, as there are, except that of none at an odd start they draw two |
| `SubtitleEmpty.DrawableIff` | LibPlayer/amffmpeg/ffplay.c:454-628 | the walk draws the rectangle's own rows and columns if and only if no empty dimension starts odd |
| `SubtitleEmpty.BandsAre` | LibPlayer/amffmpeg/ffplay.c:501-587 | how many bands of rows are drawn, empty heights included |
| `SubtitleEmpty.BandLumIs` | LibPlayer/amffmpeg/ffplay.c:496-497 | where each band starts on the luma plane, for any width |
| `SubtitleEmpty.BandDraws` | LibPlayer/amffmpeg/ffplay.c:496-497 | with no width and an odd start, band k draws two cells of each row, 2k columns further right; else it draws in place |
| `SubtitleEmpty.LeavesIff` | LibPlayer/amffmpeg/ffplay.c:454-628 | some drawn luma index is past the plane if and only if the last one is |
| `SubtitleEmpty.NeverLeaves` | LibPlayer/amffmpeg/ffplay.c:454-628 | none is for a rectangle that is not empty and lies in the plane |
| `SubtitleEmpty.EmptyLeavesIff` | LibPlayer/amffmpeg/ffplay.c:454-628 | with no width at an odd start one is if and only if the start and two columns for every band reach past the rows left from the last one on |
| `SubtitleEmpty.EmptyAtEdge` | LibPlayer/amffmpeg/ffplay.c:439-442 | so it is always, at the right edge of the last row of an odd picture without padding |
| `StreamSelect.SupplyFalls` | LibPlayer/amffmpeg/ffmpeg.c:2094-2101 | the number of eligible streams never grows with the threshold, which is what makes the bitwise search sound |
| `StreamSelect.SupplyTaken` | LibPlayer/amffmpeg/ffmpeg.c:2143-2149 | marking a stream used lowers exactly the supplies it counts in, by one |
| `StreamSelect.CountOutputs` | LibPlayer/amffmpeg/ffmpeg.c:2067-2072 | counts the outputs of every media type |
| `StreamSelect.CountFound` | LibPlayer/amffmpeg/ffmpeg.c:2074-2098 | counts, for every type, the streams eligible at that type's threshold |
| `StreamSelect.SearchRound` | LibPlayer/amffmpeg/ffmpeg.c:2073-2102 | one step halves the interval that holds each type's threshold |
| `StreamSelect.SearchThresholds` | LibPlayer/amffmpeg/ffmpeg.c:2073-2102 | each result is the largest threshold at which its type has as many eligible streams as outputs, and 0 when there is none |
| `StreamSelect.FirstFit` | LibPlayer/amffmpeg/ffmpeg.c:2126-2150 | the first eligible stream, and none only when no stream is eligible |
| `StreamSelect.LastOfType` | LibPlayer/amffmpeg/ffmpeg.c:2154-2162 | the reuse loop finds the last stream of the type, used or not |
| `StreamSelect.PickSource` | LibPlayer/amffmpeg/ffmpeg.c:2126-2171 | the nested loops compute first fit, else reuse, else the fatal exit |
| `StreamSelect.SelectSources` | LibPlayer/amffmpeg/ffmpeg.c:2067-2179 | search and selection together assign the outputs in turn with the best thresholds, and take exactly the chosen streams off discard |
| `StreamSelect.PicksGreedyIff` | LibPlayer/amffmpeg/ffmpeg.c:2104-2179 | a list of streams is what selection gives if and only if each is the first that may be taken at its type's threshold once those before it are, or, when none may, the last of the type that is not dropped; no such list, and it gives up |
| `StreamSelect.AssignedEnough` | LibPlayer/amffmpeg/ffmpeg.c:2099-2101 | if any assignment of distinct streams exists, the search cannot find too few |
| `StreamSelect.PicksAssign` | LibPlayer/amffmpeg/ffmpeg.c:2104-2179 | with enough streams at the thresholds, first fit never falls through to reuse and gives every output a distinct stream |
| `StreamSelect.SelectionIff` | LibPlayer/amffmpeg/ffmpeg.c:2067-2179 | from any state of the inputs, every output gets a stream of its own that may be taken if and only if each type has as many of those as outputs |
| `StreamSelect.PicksTake` | LibPlayer/amffmpeg/ffmpeg.c:2126-2171 | whatever is picked, by first fit or reuse, was eligible at the start |
| `StreamSelect.DistinctIff` | LibPlayer/amffmpeg/ffmpeg.c:2067-2179 | starting with every input on discard, selection succeeds without two outputs sharing an input if and only if each type has as many eligible inputs as outputs |
| `StreamSelect.GivesUpIff` | LibPlayer/amffmpeg/ffmpeg.c:2152-2171 | the fatal exit is taken if and only if some type has too few streams and cannot be reused |
| `StreamSelect.SharedIff` | LibPlayer/amffmpeg/ffmpeg.c:2152-2171 | two outputs share an input if and only if some type has too few and each such type can be reused |
| `StreamSelect.SelectionOptimal` | LibPlayer/amffmpeg/ffmpeg.c:2067-2179 | whenever any distinct assignment exists the selection is one, and every stream it chose has at least as many frames as the poorest stream of that type in any other |
| `VideoSync.Output.Decide` | LibPlayer/amffmpeg/ffmpeg.c:1167-1197 | the branches give the frames wanted, the stamp to start from and the counters, in every mode |
| `VideoSync.Output.Emit` | LibPlayer/amffmpeg/ffmpeg.c:1254-1332 | the loop sends consecutive stamps, one a frame |
| `VideoSync.Output.DoVideoOut` | LibPlayer/amffmpeg/ffmpeg.c:1167-1332 | one call changes the stamp, the counters and the frames sent as the reference says, in every mode and with the cut of `max_frames` |
| `VideoSync.ConstantCall` | LibPlayer/amffmpeg/ffmpeg.c:1170-1193 | at a constant rate a picture is dropped if and only if it is more than 1.1 behind, sent round(lead) times if it is more than 1.1 ahead, with all but one counted as duplicates, and otherwise sent once with the next stamp |
| `VideoSync.VariableCall` | LibPlayer/amffmpeg/ffmpeg.c:1179-1183 | at a variable rate it is dropped if and only if it is 0.6 or more behind, and otherwise sent once, with its own rounded time if that is more than 0.6 ahead and else with the next stamp |
| `VideoSync.UnsyncedCall` | LibPlayer/amffmpeg/ffmpeg.c:1196-1197 | with sync off it is sent once with its own rounded time |
| `VideoSync.CutCall` | LibPlayer/amffmpeg/ffmpeg.c:1199-1201 | a call that `max_frames` cuts sends as many of its frames as are left, and counts as if it were not cut |
| `VideoSync.AccountStep` | LibPlayer/amffmpeg/ffmpeg.c:1187-1201 | a call sends 1 + dup - drop frames if it is not cut, and fewer if it is |
| `VideoSync.FramesAccounted` | LibPlayer/amffmpeg/ffmpeg.c:1187-1331 | over any run in any mode, frames out are at most calls + dup - drop, and equal it if and only if `max_frames` cut no call |
| `VideoSync.WantedNatural` | LibPlayer/amffmpeg/ffmpeg.c:1170-1185 | no rounding within a half makes the frame count negative |
| `VideoSync.ConstantStep` | LibPlayer/amffmpeg/ffmpeg.c:1174-1201 | at a constant rate an uncut call ends at most as far behind its input as rounding its lead is off, and at most 2.1 ahead if and only if it began so |
| `VideoSync.ConstantDrift` | LibPlayer/amffmpeg/ffmpeg.c:1174-1201 | over any run with nondecreasing times every call ends with -2.1 <= input - stamp <= e, where e bounds the error of rounding over the run's span |
| `VideoSync.NearestDrift` | LibPlayer/amffmpeg/ffmpeg.c:1174-1201 | with any rounding off by at most a half, every call of every such run ends within [-2.1, 1/2] |
| `VideoSync.LrintfDrift` | LibPlayer/amffmpeg/ffmpeg.c:1174-1201 | with `lrintf` itself it ends within [-2.1, 9/16] over spans below 2^21 frames |
| `VideoSync.ConstantStamps` | LibPlayer/amffmpeg/ffmpeg.c:1254-1331 | at a constant rate the stamps sent are consecutive, without gap or repeat, whatever the times and the cuts |
| `VideoSync.FramesFollowClock` | LibPlayer/amffmpeg/ffmpeg.c:1174-1331 | so the number of frames sent is the elapsed input time, within e below and 2.1 above, after every call of every run |
| `VideoSync.DriftTight` | LibPlayer/amffmpeg/ffmpeg.c:1177-1185 | with `lrintf` both -2.1 and 1/2 are met by one-call runs, and 1/2 is passed by one at 2.50000005 |
| `VideoSync.VariableStep` | LibPlayer/amffmpeg/ffmpeg.c:1179-1183 | at a variable rate an uncut call drops a picture 0.6 or more behind and otherwise sends it once, stamped within 0.6 of its time and not before the stamps already used, as far as rounding the time is off by less than 0.6 |
| `VideoSync.VariableDrift` | LibPlayer/amffmpeg/ffmpeg.c:1179-1183 | with `lrintf`, over any run with nondecreasing times below 2^21 every call ends with the next stamp at least 0.4 and less than 1.6 ahead |
| `VideoSync.AllCloseIff` | LibPlayer/amffmpeg/ffmpeg.c:1179-1183 | with `lrintf` every frame is stamped within 0.6 of its input, for all times up to m, if and only if m <= 2097152.6 |
| `VideoSync.StampsIncrease` | LibPlayer/amffmpeg/ffmpeg.c:1174-1331 | with sync on and `lrintf`, stamps strictly increase over every run with times up to 33554433.6, whatever the cuts |
| `VideoSync.StampRepeats` | LibPlayer/amffmpeg/ffmpeg.c:1182-1183 | pictures at 33554432 and at any time between 33554433.6 and 33554434 get the same stamp |
| `VideoSync.AllOrderedIff` | LibPlayer/amffmpeg/ffmpeg.c:1174-1331 | with sync on, the stamps of all runs with times up to m are in order if and only if m <= 33554433.6 |
| `VideoSync.UnsyncedStamps` | LibPlayer/amffmpeg/ffmpeg.c:1196-1197 | with sync off, every call sends one frame stamped with its rounded time |
| `VideoSync.NeverBeyondMax` | LibPlayer/amffmpeg/ffmpeg.c:1199-1201 | no run sends more than `max_frames` |
| `SinglePrecision.SingleNear` | LibPlayer/amffmpeg/libavutil/libm.h:68-72 | below 2^k the float that `lrintf` is passed is off by at most 2^(k-25) |
| `SinglePrecision.ErrorBelow21` | LibPlayer/amffmpeg/libavutil/libm.h:68-72 | below 2^21 `lrintf` is off by at most 9/16 |
| `SinglePrecision.ErrorTo21` | LibPlayer/amffmpeg/libavutil/libm.h:68-72 | up to 2097152.6 it is off by at most 0.6 |
| `SinglePrecision.LowBy` | LibPlayer/amffmpeg/libavutil/libm.h:68-72 | up to 33554433.6 it is at most 1.6 too low |
| `SinglePrecision.Above21` | LibPlayer/amffmpeg/libavutil/libm.h:68-72 | all of [2^21, 2^21 + 0.62] becomes 2^21 |
| `SinglePrecision.Above25` | LibPlayer/amffmpeg/libavutil/libm.h:68-72 | all of [2^25, 2^25 + 2) becomes 2^25 |
| `SinglePrecision.Positive` | LibPlayer/amffmpeg/libavutil/libm.h:68-72 | more than 1.1 never becomes 0 |
| `SinglePrecision.AboveHalf` | LibPlayer/amffmpeg/libavutil/libm.h:68-72 | 2.5 and 2.50000005 both become 2, so a half is not a bound of the error |
| `PcmRing.TrafficInOrder` | LibPlayer/amadec/adec_write.c:72-178 | over any run of writes and reads the bytes come out in the order they went in, none lost and none twice |
| `PcmRing.CyclicRead` | LibPlayer/amadec/adec_write.c:83-109 | advancing the read pointer round the end drops exactly the bytes read |
| `PcmRing.CyclicWrite` | LibPlayer/amadec/adec_write.c:138-164 | bytes stored round the end appear behind the old ones, which are untouched |
| `PcmRing.Ring.constructor` | LibPlayer/amadec/adec_write.c:3-21 | a new ring is empty and usable to its full length |
| `PcmRing.Ring.Reset` | LibPlayer/amadec/adec_write.c:23-32 | empties the ring, or fails and changes nothing |
| `PcmRing.Ring.Load` | LibPlayer/amadec/adec_write.c:83-109 | each of the three cases copies the cells from the read pointer round the end, and moves the pointer past them |
| `PcmRing.Ring.MoveOut` | LibPlayer/amadec/adec_write.c:82-109 | so the first bytes of the queue move out, in order |
| `PcmRing.Ring.ReadData` | LibPlayer/amadec/adec_write.c:72-111 | hands out exactly the smaller of the size and the level from the front |
| `PcmRing.Ring.Store` | LibPlayer/amadec/adec_write.c:138-164 | each of the three cases fills the cells from the write pointer round the end and no other, and moves the pointer past them |
| `PcmRing.Ring.MoveIn` | LibPlayer/amadec/adec_write.c:137-164 | so the bytes join the end of the queue, in order |
| `PcmRing.Ring.WriteData` | LibPlayer/amadec/adec_write.c:125-166 | appends exactly the smaller of the size and the free space; the level separates full from empty |
| `PcmRing.Ring.ReadPcm` | LibPlayer/amadec/adec_write.c:113-124 | the same under the flag, nothing at all when it is taken, and an error on a ring that is not initialised |
| `PcmRing.Ring.WritePcm` | LibPlayer/amadec/adec_write.c:168-178 | the same under the flag, nothing at all when it is taken, and an error on a ring that is not initialised |
| `PackageList.List.Add` | LibPlayer/amadec/adec-ffmpeg-mgt.c:235-264 | appends the package, or reports busy or full and changes nothing; at most four are queued |
| `PackageList.List.Get` | LibPlayer/amadec/adec-ffmpeg-mgt.c:266-290 | takes the oldest package exactly when the list is free and not empty |
| `PackageList.List.Free` | LibPlayer/amadec/adec-ffmpeg-mgt.c:209-224 | empties the list without following a link past the last counted node |
| `AudioPath.NextKeepsDecoder` | LibPlayer/amadec/adec-ffmpeg-mgt.c:1091-1184 | every step keeps the decoding thread's bookkeeping: the tail it will read is live and has the length `inlen` says, and a chunk being written fits the ring |
| `AudioPath.NextFlows` | LibPlayer/amadec/adec-ffmpeg-mgt.c:959-1181 | every step of the threads, with their cursors, lengths and buffers, is a step of a plain pipeline of filling package, queue, tail, decoded bytes, pending PCM, ring and output |
| `AudioPath.RunFlows` | LibPlayer/amadec/adec-ffmpeg-mgt.c:959-1181 | so the threads do what that pipeline does in every interleaving |
| `AudioPath.GetKeepsHeld` | LibPlayer/amadec/adec-ffmpeg-mgt.c:1091-1119 | taking a package puts the saved tail before it, losing and repeating nothing |
| `AudioPath.DecodeKeepsHeld` | LibPlayer/amadec/adec-ffmpeg-mgt.c:1133-1159 | a decode moves bytes from the tail to the decoded part |
| `AudioPath.FailureHeld` | LibPlayer/amadec/adec-ffmpeg-mgt.c:1135-1151 | a failed decode keeps the tail for the next package, or for APE loses exactly it |
| `AudioPath.NextHeld` | LibPlayer/amadec/adec-ffmpeg-mgt.c:959-1181 | a step of either thread, of any format, adds what it reads at the end of the bytes accounted for, and only a failed APE decode takes any away |
| `AudioPath.NextKeepsBitstream` | LibPlayer/amadec/adec-ffmpeg-mgt.c:959-1181 | a step keeps the order of the bitstream if and only if it is not a failed APE decode |
| `AudioPath.BytesAccounted` | LibPlayer/amadec/adec-ffmpeg-mgt.c:959-1159 | in every interleaving and for every format, the bytes missing are exactly the tails of failed APE decodes; `decode_offset` counts the bytes decoded and at most 4 packages are queued |
| `AudioPath.BitstreamConserved` | LibPlayer/amadec/adec-ffmpeg-mgt.c:959-1159 | in every interleaving without such a failure, what was read is what was decoded, the live tail, the queued packages and the package being filled, in this order |
| `AudioPath.ConservedIff` | LibPlayer/amadec/adec-ffmpeg-mgt.c:1135-1151 | the bitstream is conserved over a run if and only if the format is not APE or no decode of the run failed |
| `AudioPath.FailedDecodeRun` | LibPlayer/amadec/adec-ffmpeg-mgt.c:1135-1151 | one byte read, queued, taken and not decoded is lost for APE and carried otherwise |
| `AudioPath.NextKeepsPcm` | LibPlayer/amadec/adec-ffmpeg-mgt.c:1158-1181 | every step keeps PCM decoded = handed out + in the ring + pending |
| `AudioPath.PcmConserved` | LibPlayer/amadec/adec-ffmpeg-mgt.c:310-314 | in every interleaving the PCM handed out is a prefix of the PCM decoded, and the difference is `buf_level` + `pcm_cache_size` |
| `AudioPath.WritesAreWhole` | LibPlayer/amadec/adec-ffmpeg-mgt.c:1164-1180 | in every reachable state a write moves the whole chunk or nothing, so passing the chunk from its start each time is right |
| `AudioPath.WaitEndsIff` | LibPlayer/amadec/adec-ffmpeg-mgt.c:1164-1173 | once the reader drains the ring the wait for space ends if and only if the chunk is no longer than the ring |
| `AudioPath.OversizeStuck` | LibPlayer/amadec/adec-ffmpeg-mgt.c:1164-1173 | a longer chunk keeps the decoding thread waiting on every run |
| `ServerAccounts.Server.NewConnection` | LibPlayer/amffmpeg/ffserver.c:763-810 | a new connection is listed first and counted, or refused at the limit; all accounts are kept |
| `ServerAccounts.Server.CloseConnection` | LibPlayer/amffmpeg/ffserver.c:812-897 | removes exactly one connection, gives back its charge, and closes the feed exactly when it was its writer |
| `ServerAccounts.Server.Unlink` | LibPlayer/amffmpeg/ffserver.c:820-828 | the list loses that connection only, and count and charge go with it |
| `ServerAccounts.Server.ParseHttpRequest` | LibPlayer/amffmpeg/ffserver.c:1447-1855 | the charge grows exactly for a GET of a live stream; the new state and the reply code are as specified for each kind of request; all accounts are kept on every reply, and a refused request leaves the connection fit to be closed |
| `ServerAccounts.ReplyCodeIs` | LibPlayer/amffmpeg/ffserver.c:1538-1855 | each reply code is given exactly under its own condition; a request that is admitted is within the bandwidth limit with its own charge in it |
| `ServerAccounts.Server.ReplyTo` | LibPlayer/amffmpeg/ffserver.c:1548-1855 | each branch after the stream is recorded gives its own state and code, and none breaks an account |
| `ServerAccounts.Server.Admit` | LibPlayer/amffmpeg/ffserver.c:1544-1577 | recording the stream and charging for it go together |
| `ServerAccounts.Server.Disown` | LibPlayer/amffmpeg/ffserver.c:1781-1783 | a POST that names no feed loses its stream without disturbing the charge |
| `ServerAccounts.Server.StartReceiveData` | LibPlayer/amffmpeg/ffserver.c:2569-2610 | succeeds exactly on a feed that is closed, writable and readable, and then sets its flag; on failure the flag is as before |
| `ServerAccounts.Server.Wake` | LibPlayer/amffmpeg/ffserver.c:2702-2707 | exactly the connections waiting for this feed go on, all others keep their state |
| `ServerAccounts.Server.FailReceive` | LibPlayer/amffmpeg/ffserver.c:2755-2764 | the failed feed is closed, no other is, and its waiters end |
| `ServerAccounts.Server.RtpNewConnection` | LibPlayer/amffmpeg/ffserver.c:3301-3362 | an RTP connection is listed, counted and charged together, or refused at the limit |
| `ServerAccounts.Server.StartMulticast` | LibPlayer/amffmpeg/ffserver.c:538-590 | as many multicast streams as there is room for get a session at the head of the list, sending if its input opens and else only ready; all accounts are kept |
| `ServerAccounts.Server.RunCommand` | LibPlayer/amffmpeg/ffserver.c:2894-2907 | each command keeps all accounts and does to every session what the command table says; SETUP adds one charged session unless the limit is reached, TEARDOWN removes its session and no other, the rest remove none |
| `ServerAccounts.Server.MoveSession` | LibPlayer/amffmpeg/ffserver.c:3226-3275 | PLAY and PAUSE move exactly the named session, and only from the states they allow |
| `ServerAccounts.Server.Teardown` | LibPlayer/amffmpeg/ffserver.c:3277-3295 | exactly the named session is closed, and the connection that asked stays |
| `ServerAccounts.Server.ParseRtspRequest` | LibPlayer/amffmpeg/ffserver.c:2832-2920 | a parsed request leads to the reply state exactly when the reply could be built, and has moved, added or closed the sessions its command says |
| `ServerAccounts.Server.SendStep` | LibPlayer/amffmpeg/ffserver.c:946-1066 | the sending states go on, come round or end exactly when the buffer is gone, a partly sent packet of a session included |
| `ServerAccounts.Server.LockSocket` | LibPlayer/amffmpeg/ffserver.c:2528-2533 | a packet not sent whole moves exactly the RTSP connection it was for, and only from reading requests to sending packets |
| `ServerAccounts.ClosesIff` | LibPlayer/amffmpeg/ffserver.c:899-1074 | exactly the listed steps close their own connection |
| `ServerAccounts.SteppedIff` | LibPlayer/amffmpeg/ffserver.c:899-1074 | exactly the listed steps change their own connection's state, each to the listed one |
| `ServerAccounts.MovedIff` | LibPlayer/amffmpeg/ffserver.c:2528-2533 | exactly these steps change another connection's state: a packet, or the end of a feed, for those that wait for it; PLAY and PAUSE for the session named; a packet partly sent for the RTSP connection it is on |
| `ServerAccounts.Server.HandleConnection` | LibPlayer/amffmpeg/ffserver.c:899-1074 | one step of a connection in any of the eleven states: it fails exactly in the listed cases, its next state is as listed, every other connection's state is as listed, a packet in particular waking exactly its waiters; requests are answered and charged, SETUP adds a session, and all accounts are kept |
| `ServerAccounts.Server.Poll` | LibPlayer/amffmpeg/ffserver.c:708-715 | a failed connection is closed, and only that one; otherwise the turn does what the step does, to this connection and to every other; all accounts are kept either way |
| `ServerAccounts.Server.OneWriter` | LibPlayer/amffmpeg/ffserver.c:1785-1791 | in every such state a feed's flag is set if and only if a listed connection receives on it, and never two do |
| `ServerRuns.PollTurn` | LibPlayer/amffmpeg/ffserver.c:708-715 | between the snapshots before and after a turn: who stays listed and who joins, and the state of each |
| `ServerRuns.PollAt` | LibPlayer/amffmpeg/ffserver.c:708-715 | the successor the loop has saved is still listed if and only if the turn was not a TEARDOWN of it |
| `ServerRuns.PollNext` | LibPlayer/amffmpeg/ffserver.c:708-715 | each turn of a round is that of the connection the turn before has saved |
| `ServerRuns.PollList` | LibPlayer/amffmpeg/ffserver.c:708-715 | a whole round by saved successors goes on to the end of the list, or to a successor that was closed, and is such a trace of turns |
| `ServerRuns.ServeStep` | LibPlayer/amffmpeg/ffserver.c:706-729 | a round, a turn or a new connection does what it should and keeps all accounts |
| `ServerRuns.Serve` | LibPlayer/amffmpeg/ffserver.c:706-729 | so does every schedule of them, from each step's snapshot to the next: bandwidth is the sum of the charges, the count is the list length and within the limit, and feeds stay exclusive |
| `RtspSocket.PrefixRoundTrip` | LibPlayer/amffmpeg/ffserver.c:2472-2475 | the four length bytes give the length back |
| `RtspSocket.FrameRoundTripIff` | LibPlayer/amffmpeg/ffserver.c:2509-2516 | a receiver gets channel and packet back, and finds the next frame, if and only if the packet is shorter than 65536 bytes |
| `RtspSocket.FrameHeader` | LibPlayer/amffmpeg/ffserver.c:2509-2513 | a frame is a dollar sign, the channel, the two length bytes with the upper one first, and the packet |
| `RtspSocket.OddChannelIff` | LibPlayer/amffmpeg/ffserver.c:2504-2507 | the channel is odd if and only if the third-lowest length byte is 200: no packet that can be framed takes an odd channel |
| `RtspSocket.Socket.ReadRequest` | LibPlayer/amffmpeg/ffserver.c:914-942 | a request grows until it is complete, and then its reply is queued behind all that was sent |
| `RtspSocket.Socket.WriteReply` | LibPlayer/amffmpeg/ffserver.c:1023-1039 | a partial send keeps the rest of the reply; the last byte frees the socket |
| `RtspSocket.Socket.BeginPacket` | LibPlayer/amffmpeg/ffserver.c:2509-2536 | a packet is framed behind all that was sent, and locks the socket exactly when it is not sent whole |
| `RtspSocket.Socket.Free` | LibPlayer/amffmpeg/ffserver.c:893-893 | the buffer of a packet in progress is freed: the bytes to come are those of the packet if and only if the memory still reads as it |
| `RtspSocket.Socket.WritePacket` | LibPlayer/amffmpeg/ffserver.c:1049-1065 | a partial send keeps the rest, and a half-read request survives the lock |
| `RtspSocket.Session.Prepare` | LibPlayer/amffmpeg/ffserver.c:2455-2461 | a frame's packets enter the buffer in order, with the index of their stream |
| `RtspSocket.Session.TakeFirst` | LibPlayer/amffmpeg/ffserver.c:2472-2521 | the buffer gives back the oldest packet and its channel |
| `RtspSocket.Framed` | LibPlayer/amffmpeg/ffserver.c:2508-2521 | moving the oldest packet onto the socket keeps its session's packets in order and leaves the others' alone |
| `RtspSocket.Session.SendOne` | LibPlayer/amffmpeg/ffserver.c:2495-2536 | one packet leaves the buffer and joins the socket, framed |
| `RtspSocket.Session.SendData` | LibPlayer/amffmpeg/ffserver.c:2450-2567 | on a free socket exactly the due packets up to the first partly sent one leave, in order; on a locked one none does; no other session's packets move, and a lost socket is an error once a packet is due |
| `RtspSocket.Session.SendNext` | LibPlayer/amffmpeg/ffserver.c:2478-2536 | one turn of the loop keeps count of what has left |
| `RtspSocket.Session.SendDue` | LibPlayer/amffmpeg/ffserver.c:2454-2536 | the loop sends those packets and stops at the lock |
| `RtspSocket.GoingIff` | LibPlayer/amffmpeg/ffserver.c:2454-2536 | how many packets leave: all due, all but the last sent whole, up to the end, the first that is not due, or the first partly sent |
| `RtspSharing.TouchSocket` | LibPlayer/amffmpeg/ffserver.c:899-1066 | an event of the connection starts a reply, sends on what is in progress by as many bytes as were taken, or does nothing; no session's packets change |
| `RtspSharing.TakeSocket` | LibPlayer/amffmpeg/ffserver.c:899-1066 | a step of the socket's connection keeps the sharing of the socket by all sessions |
| `RtspSharing.SendTurns` | LibPlayer/amffmpeg/ffserver.c:2488-2536 | a session's due packets leave its queue and start on the socket in order, and lock it for this session only; on a locked socket nothing moves |
| `RtspSharing.TakeSession` | LibPlayer/amffmpeg/ffserver.c:2488-2536 | a step of any session keeps the sharing, and moves no other session's packets |
| `RtspSharing.JoinSocket` | LibPlayer/amffmpeg/ffserver.c:3155-3158 | a new session shares the socket with the others, with no packets yet |
| `RtspSharing.BackedWithout` | LibPlayer/amffmpeg/ffserver.c:2517-2520 | without a session the packet in progress still has its owner if and only if it is not that session's |
| `RtspSharing.LeaveSocket` | LibPlayer/amffmpeg/ffserver.c:812-897 | the others go on sharing the socket if and only if the session closed is not the one whose packet is being sent |
| `RtspSharing.LeaveBetween` | LibPlayer/amffmpeg/ffserver.c:812-897 | a session closed between its packets changes nothing for the others, and its packets stay those it had started, in order |
| `RtspSharing.LeaveInside` | LibPlayer/amffmpeg/ffserver.c:893-893 | closed within a packet, it takes away the buffer of the packet in progress; what goes out next is that packet if and only if the freed memory still reads as it |
| `RtspSharing.Take` | LibPlayer/amffmpeg/ffserver.c:899-1066 | every step but such a leave keeps the sharing, and does to the bytes sent, the units started and the queues what its kind of step does and no more |
| `RtspSharing.TakeAny` | LibPlayer/amffmpeg/ffserver.c:812-1066 | of all steps, a step keeps the packet in progress backed, and the sharing whole, if and only if it is not such a leave |
| `RtspSharing.FollowsGrows` | LibPlayer/amffmpeg/ffserver.c:1015-1066 | no step takes back bytes sent or units started |
| `RtspSharing.SocketMoves` | LibPlayer/amffmpeg/ffserver.c:914-1066 | as many bytes go out as were taken of what is in progress, the last one frees the socket, and a complete request starts its whole reply |
| `RtspSharing.FrameWaits` | LibPlayer/amffmpeg/ffserver.c:2455-2461 | a frame fills a session's empty queue |
| `RtspSharing.DuePacketStarts` | LibPlayer/amffmpeg/ffserver.c:2488-2536 | a due packet starts on a free socket, on its stream's even channel, and the socket is locked exactly if the last one started is not sent whole |
| `RtspSharing.TracedGrows` | LibPlayer/amffmpeg/ffserver.c:1015-1066 | so over any run both only grow |
| `RtspSharing.Serve` | LibPlayer/amffmpeg/ffserver.c:706-729 | under every schedule, with sessions joining and leaving, up to the first leave within a packet: the bytes sent are a prefix of whole replies and whole frames (RFC 2326, section 10.12), never mixed, each session's packets are framed once and in order, up to where it left, and a trace says what every step did |
| `RtspSharing.LeaveInMidPacket` | LibPlayer/amffmpeg/ffserver.c:2517-2520 | the run that fails: after such a leave the bytes sent are no prefix of whole frames |
| `FeedFile.DecodeEncodeIff` | LibPlayer/amffmpeg/libavformat/ffmdec.c:39-45 | k bytes give a number back if and only if it is below 256 to the k |
| `FeedFile.DecodeIs` | LibPlayer/amffmpeg/libavformat/ffmdec.c:39-45 | the eight bytes are read with the most significant first |
| `FeedFile.IndexRoundTrip` | LibPlayer/amffmpeg/libavformat/ffmdec.c:28-49 | the write index read back is the one written |
| `FeedFile.HeaderKept` | LibPlayer/amffmpeg/ffserver.c:2681-2700 | a store leaves the header as it is but for the write index |
| `FeedFile.NextIndex` | LibPlayer/amffmpeg/ffserver.c:2687-2694 | the wrap keeps the write index on a packet boundary in [P, max) |
| `FeedFile.StoredSlot` | LibPlayer/amffmpeg/ffserver.c:2681-2682 | a store changes its slot and no other |
| `FeedFile.LayoutStep` | LibPlayer/amffmpeg/ffserver.c:2681-2694 | a store makes every kept packet one older and overwrites only the oldest of a full file |
| `FeedFile.TruncatedHeader` | LibPlayer/amffmpeg/ffserver.c:2588-2592 | a truncated file is one header packet that points just behind itself |
| `FeedFile.Feed.constructor` | LibPlayer/amffmpeg/ffserver.c:2588-2602 | the feed starts from the index in its header, or from 4096 if that is less, and is fit for storing if and only if it was truncated or that index lies on a packet boundary within the file and below the maximum |
| `FeedFile.FitIff` | LibPlayer/amffmpeg/ffserver.c:2588-2602 | what a file is known to hold is fit to go on with from an index if and only if the index lies on a packet boundary within the file and below the maximum |
| `FeedFile.UsableIff` | LibPlayer/amffmpeg/ffserver.c:2588-2602 | a recorded index can be gone on with if and only if it is at most 4096, or on a packet boundary within the file and below the maximum |
| `FeedFile.Feed.Reopen` | LibPlayer/amffmpeg/ffserver.c:2569-2610 | a feed closed and opened again without truncation goes on where it was: same packets kept, same slot for the next one |
| `FeedFile.Feed.Store` | LibPlayer/amffmpeg/ffserver.c:2673-2700 | the packet is stored, the index advanced and recorded, and the layout kept |
| `FeedFile.Feed.StoreBytes` | LibPlayer/amffmpeg/ffserver.c:2681-2700 | the two writes and the index of a store |
| `FeedFile.Feed.ReadKept` | LibPlayer/amffmpeg/ffserver.c:2673-2694 | always, wrapped or not and wherever the feed began, the slots from the oldest kept packet on, round the end, are the kept packets, oldest first |
| `FeedFile.Feed.ReadRound` | LibPlayer/amffmpeg/ffserver.c:2673-2694 | once wrapped, the slots from the write index round are the last N packets, oldest first |
| `FeedFile.Feed.ReadAll` | LibPlayer/amffmpeg/ffserver.c:2673-2694 | until then, and always without a maximum size, all packets are there in order |
| `FindStream.FindStreamInFeed` | LibPlayer/amffmpeg/ffserver.c:1123-1158 | the single pass returns the fastest matching stream within the request, or else the slowest above it, or -1 when nothing matches, if and only if nothing matches or a matching stream lies on the takeable side of 100000000; and exactly when it returns -1 |
| `FindStream.MatchesIff` | LibPlayer/amffmpeg/ffserver.c:1132-1136 | a stream matches if and only if with the wanted rate it is what is asked for |
| `FindStream.WantedIs` | LibPlayer/amffmpeg/ffserver.c:1140-1142 | the wanted stream is the fastest within the request, or the slowest if none is within it |
| `SpdifRing.SpaceExact` | LibPlayer/amadec/spdif_api.c:178-183 | the reported space admits n bytes if and only if they leave 4096 bytes free and the pointers do not meet: pointers that meet always read as full |
| `SpdifRing.LevelExact` | LibPlayer/amadec/spdif_api.c:279-292 | fewer than 8192 bytes are outside the space reported if and only if the ring is smaller than that or between 1 and 4095 bytes are left to play: a drained ring is not low |
| `SpdifRing.SmallNeverAccepts` | LibPlayer/amadec/spdif_api.c:178-183 | a buffer of at most 4096 bytes never has space, wherever its pointers are |
| `SpdifRing.DmaRing.constructor` | LibPlayer/amadec/spdif_api.c:45-66 | the ring starts with the delay bytes ahead of the read pointer |
| `SpdifRing.DmaRing.BufSpaceSize` | LibPlayer/amadec/spdif_api.c:165-184 | the write pointer moves at the first call only, and then only when it is behind the read pointer or less than the delay ahead; the space reported leaves the ring as it is |
| `SpdifRing.DmaRing.StoreRound` | LibPlayer/amadec/spdif_api.c:211-255 | the cells behind the write pointer, round the end, are filled with the frame, and no other |
| `SpdifRing.DmaRing.CopyFrame` | LibPlayer/amadec/spdif_api.c:211-255 | the frame is appended whole, and no unread byte is overwritten |
| `SpdifRing.DmaRing.Offer` | LibPlayer/amadec/spdif_api.c:205-256 | with output on, a frame is accepted if and only if it fits with 4096 bytes of slack and the ring is not empty; otherwise -1 and nothing is written |
| `SpdifRing.DmaRing.WriteFrame` | LibPlayer/amadec/spdif_api.c:185-257 | the same after switching output on if I2S is; with output off the frame is discarded |
| `SpdifRing.DmaRing.CheckLevel` | LibPlayer/amadec/spdif_api.c:279-292 | the output is low if and only if it is on and, in a ring of 8192 bytes or more, between 1 and 4095 are left to play; a first call may reset the write pointer |
| `SpdifRing.DmaRing.FillZero` | LibPlayer/amadec/spdif_api.c:258-273 | writes whole bursts of zeros until none fits or I2S reads as off, and never part of one |
| `SpdifPack.MergeHalves` | LibPlayer/amadec/spdif_api.c:108-117 | splitting words to left and right and merging them gives the words back |
| `SpdifPack.HalvesMerge` | LibPlayer/amadec/spdif_api.c:108-117 | and the other way round |
| `SpdifPack.BlockInvertible` | LibPlayer/amadec/spdif_api.c:108-117 | one block of 64 bytes is permuted without loss |
| `SpdifPack.Invertible` | LibPlayer/amadec/spdif_api.c:106-117 | the interleaving of any number of blocks is a bijection |
| `SpdifPack.WordPlaces` | LibPlayer/amadec/spdif_api.c:106-117 | output word 32k+i is burst word 32k+2i, and output word 32k+16+i is burst word 32k+2i+1 |
| `SpdifPack.InterleaveWords` | LibPlayer/amadec/spdif_api.c:128-140 | the pointer loops compute that interleaving and touch nothing behind it |
| `SpdifPack.CopyPair` | LibPlayer/amadec/spdif_api.c:110-113 | one turn of the inner loop moves a word to each half |
| `SpdifPack.InterleaveBlock` | LibPlayer/amadec/spdif_api.c:109-116 | the inner loop does one block |
| `SpdifPack.FillBurst` | LibPlayer/amadec/spdif_api.c:99-104 | the burst buffer gets preamble, frame and zeros, or the raw samples |
| `SpdifPack.PackFrame` | LibPlayer/amadec/spdif_api.c:93-163 | builds the burst for each stream type and interleaves it in place |
| `SpdifPack.BurstWords` | LibPlayer/amadec/spdif_api.c:121-125 | the first words of a burst are F872, 4E1F, the type 1 or 11, and the length in bits: of the frame for AC-3, of 2040 bytes for DTS |
| `SpdifPack.Ac3Received` | LibPlayer/amadec/spdif_api.c:98-118 | undoing the interleaving of an AC-3 burst gives Pa, Pb, Pc, the length in bits, the frame and zeros |
| `SpdifPack.DtsReceivedIff` | LibPlayer/amadec/spdif_api.c:121-141 | a receiver of the whole burst, as long as the packer returns it, gets the eight preamble bytes, with the length in bits of all that follows, and the frame if and only if it is at most 2040 bytes, followed by zeros |
| `SpdifPack.RawReceivedIff` | LibPlayer/amadec/spdif_api.c:145-161 | a receiver of the returned length gets the raw samples of whole blocks, and all of them if and only if their size is a multiple of 64 |
| `SpdifPack.Inverse` | LibPlayer/amadec/spdif_api.c:106-117 | the byte positions of interleaving and of undoing it are inverse to each other |
| `SpdifPack.ByteFrom` | LibPlayer/amadec/spdif_api.c:106-117 | byte p of the interleaved words is byte Source(p) of the burst |
| `SpdifPack.CarriedByte` | LibPlayer/amadec/dts_transenc_api.c:121-123 | of the bytes written for a frame, the one in a burst byte's position is that byte |
| `SpdifPack.WholeBurstIff` | LibPlayer/amadec/dts_transenc_api.c:121-123 | all 2048 bytes of the burst are written if and only if the frame has at least 2048, when the burst holds at most 2040 of them |
| `SpdifPack.PreambleSentIff` | LibPlayer/amadec/dts_transenc_api.c:121-123 | the four preamble words are written if and only if the frame has at least 36 bytes |
| `SpdifPack.ByteMissing` | LibPlayer/amadec/dts_transenc_api.c:121-123 | of every frame that is not empty some byte is not written |
| `SpdifPack.FrameSentIff` | LibPlayer/amadec/dts_transenc_api.c:121-123 | two different frames of one size are always written differently if and only if that size is 0: no receiver can get every frame back |
| `DtsTranscoder.Transcoder.EncodeAndPack` | LibPlayer/amadec/dts_transenc_api.c:115-121 | packing leaves in the buffer what is sent of the frame, whatever length the packer returns |
| `DtsTranscoder.PackedIsSent` | LibPlayer/amadec/dts_transenc_api.c:121-123 | the first bytes of the packed buffer, as many as the frame had, are what is sent |
| `DtsTranscoder.Transcoder.NextFrame` | LibPlayer/amadec/dts_transenc_api.c:94-122 | a new frame is packed if and only if there is PCM or the output is on and low on data; asking may move the write offset, but only before the first write |
| `DtsTranscoder.Transcoder.ProcessNew` | LibPlayer/amadec/dts_transenc_api.c:94-132 | with nothing to retry, a new frame is packed and written, or the call changes no history |
| `DtsTranscoder.Transcoder.ProcessFrame` | LibPlayer/amadec/dts_transenc_api.c:91-133 | a frame that got -1 is the one written again, a new one is packed only after a write succeeded, and a write succeeds exactly when output is off or the frame fits |
| `DtsTranscoder.Transcoder.WriteOutput` | LibPlayer/amadec/dts_transenc_api.c:123-129 | a frame meets its fate once, when its write returns 0: kept or dropped as the output was on or off, and the ring then holds what is sent of it after all that came before; else it is kept for a retry |
| `DtsTranscoder.Transcoder.WriteBuffer` | LibPlayer/amadec/dts_transenc_api.c:123-123 | the write gives the ring what is sent of the frame, whole, or nothing |
| `DtsTranscoder.Transcoder.Pause` | LibPlayer/amadec/dts_enc.c:166-169 | the zero bursts of a pause come between frames, and a frame being retried survives it |
| `DtsTranscoder.WrittenAccounted` | LibPlayer/amadec/dts_transenc_api.c:91-133 | a call keeps the accounts: every packed frame met its fate once, in order, but for one being retried, and the ring was given what is sent of the kept ones |
| `DtsTranscoder.FollowsAccounted` | LibPlayer/amadec/dts_enc.c:154-184 | so does every event |
| `DtsTranscoder.TracedAccounted` | LibPlayer/amadec/dts_enc.c:154-184 | and every run of events |
| `DtsTranscoder.TracedGrows` | LibPlayer/amadec/dts_enc.c:154-184 | over a run the frames packed and their fates only grow |
| `DtsTranscoder.PackedAreSupplied` | LibPlayer/amadec/dts_transenc_api.c:115-121 | over a run the frames packed are those that were packed before and then exactly those supplied to calls that had nothing to retry and did not pass, in order |
| `DtsTranscoder.Run` | LibPlayer/amadec/dts_enc.c:154-184 | under every schedule of transcoder, pauses, hardware and switches, what is played is the delay and then, whole and in order, what is sent of the kept frames and the zero bursts; the frames packed grow by those the events supplied, and at most one is undecided; the delay is fixed from the first write on, and starts with what had been played |
| `MessagePool.EachOnce` | LibPlayer/amadec/adec-message.c:89-145 | over any run of sends and gets every command sent is delivered once, freed once or still queued, in the order sent |
| `MessagePool.LossyIff` | LibPlayer/amadec/adec-message.c:103-113 | a run frees a command unseen if and only if some send of it finds twelve commands queued |
| `MessagePool.SendAdds` | LibPlayer/amadec/adec-message.c:98-113 | a send adds its command at the end of all commands, full pool or not |
| `MessagePool.GetKeeps` | LibPlayer/amadec/adec-message.c:136-141 | a get moves the oldest command from the queue to the delivered ones |
| `MessagePool.QueuedSend` | LibPlayer/amadec/adec-message.c:98-102 | writing at the in index appends |
| `MessagePool.QueuedFull` | LibPlayer/amadec/adec-message.c:107-111 | when the pool is full the in index is the oldest command's place, and overwriting it drops that one and appends the new one |
| `MessagePool.QueuedGet` | LibPlayer/amadec/adec-message.c:137-141 | advancing the out index drops the oldest |
| `MessagePool.Pool.constructor` | LibPlayer/amadec/adec-message.c:37-49 | a new pool is the empty queue |
| `MessagePool.Pool.Send` | LibPlayer/amadec/adec-message.c:89-117 | refines a queue of 12 places that drops its oldest entry when full |
| `MessagePool.Pool.SendFull` | LibPlayer/amadec/adec-message.c:103-113 | with the pool full, the new command takes the oldest one's place |
| `MessagePool.Pool.Get` | LibPlayer/amadec/adec-message.c:124-145 | delivers the oldest command, or nothing when the pool is empty |
| `ApeScanner.KnowsStep` | LibPlayer/amadec/adec-ffmpeg-mgt.c:864-917 | each call, answered or not, keeps what the search knows: no mark wholly behind it, and its position |
| `ApeScanner.StopsAtFirstMark` | LibPlayer/amadec/adec-ffmpeg-mgt.c:864-917 | over any run of calls, however many found no data, the search has stopped at k if and only if k holds the first "APTS" at or after the start and enough calls were answered to reach it; it then stands right behind it |
| `ApeScanner.LengthReadIff` | LibPlayer/amadec/adec-ffmpeg-mgt.c:905-917 | over any run of calls the length behind the mark at k has been read if and only if k holds the first mark, the four bytes are there, and some call once the mark was reached could give them |
| `ApeScanner.MarkSpelled` | LibPlayer/amadec/adec-ffmpeg-mgt.c:889-890 | the mark is the four letters APTS |
| `ApeScanner.IdleCallsHarmless` | LibPlayer/amadec/adec-ffmpeg-mgt.c:864-909 | calls that find no data ready change no outcome |
| `ApeScanner.Scanner.Compare` | LibPlayer/amadec/adec-ffmpeg-mgt.c:889-902 | the three bytes kept are the last three compared |
| `ApeScanner.Scanner.SeekMark` | LibPlayer/amadec/adec-ffmpeg-mgt.c:873-902 | the one-byte refill compares every position, so no overlapping mark is skipped |
| `ApeScanner.Scanner.ReadLength` | LibPlayer/amadec/adec-ffmpeg-mgt.c:905-915 | the read behind the mark gives its four bytes, or leaves the search where it is |
| `ApeScanner.Scanner.GetFrameSize` | LibPlayer/amadec/adec-ffmpeg-mgt.c:864-917 | one call is one step of the search; the four bytes returned are those behind the mark |

## Left out

Preconditions that the source relies on and does not check:

- SubtitleBlend.BlendSubrect: requires the clipped rectangle to be `Drawable` (`SubtitleEmpty` says which luma cells are drawn of the others and when they leave the plane, without the blends and the chroma planes), planes as large as the picture, and a bitmap that covers the clipped rectangle with a full palette.
- ServerAccounts.Server.constructor: requires that only live streams have a bandwidth, as `compute_bandwidth` (`ffserver.c` 3795-3816) leaves it, because `rtp_new_connection` charges for any stream and `close_connection` gives back only for live ones.
- AudioPath.BitstreamConserved: a successful decode consumes between 1 and `inlen` bytes, and allocations succeed; thread exit, reset and format change are left out.
- StreamSelect.CountFound: inputs and outputs have one of the five media types; `AVMEDIA_TYPE_UNKNOWN` (-1), which the source would use as an array index, is excluded.
- RtspSocket.Session.Prepare: requires packets shorter than 65536 bytes.
- FeedFile.Feed.constructor: requires a file with a header packet and a maximum size that is zero or at least four packets; what the file is known to hold is given, and empty for a truncated one. Reopening is by a new object.
- FeedFile.Feed.Store: requires the write index to stay below 2 to the 64; writes that fail or are short are left out here (`ServerAccounts` has the failure).
- SpdifPack.PackFrame: requires a frame that fits the 6144-byte burst behind its header (6136 bytes, or 6144 for raw samples) and an output buffer as large as what is written; the encoder's buffer has 6144 bytes here, and in the source the size the encoder asks for.
- SpdifRing.DmaRing.constructor: requires a DMA buffer longer than the 3840 bytes of delay; one of at most 4096 bytes never accepts anything (`SpdifRing.SmallNeverAccepts`).
- SpdifRing.DmaRing.HwRead: the hardware plays no more than is unread.

Not modelled:

- AudioPath: the two thread loops are steps on values; aliasing of package buffers, the stale `pRestData` pointer beyond its being freed, and the growth of `nDecodeErrCount` are not captured; for APE the bytes `ApeScanner` takes are not part of the bitstream counted here. The busy flags are atomic try-locks, as inputs of a step.
- PcmRing.Ring.ReadPcm: the flag is tested and set in one step; a race on it is not modelled.
- ServerAccounts: parsing of requests, reply texts, log and status pages are inputs; which RTSP connection a packet not sent whole is for is an input, and the bytes it sends are in `RtspSocket` only; a session's own fields beyond state and stream are absent.
- ServerRuns.PollList: a round ends where the source would go on with a closed session.
- ServerAccounts.Server.ParseHttpRequest: rate changes of other connections (`modify_current_stream`), playlist redirects beyond their reply, and access lists are inputs or absent.
- RtspSharing.Serve: ends at the first close of a session within its packet, as the source then reads freed memory.
- RtspSharing: the link from a session to its RTSP connection is fixed when it joins; a later SETUP of one of its streams through another connection moves it (`ffserver.c` 3431).
- RtspSocket: the close of an RTSP connection under a session only appears as a null link; `data_count` and the datarate are absent; UDP and plain HTTP sending are absent; malformed length prefixes, which the source calls impossible, do not arise from `Prepare`.
- FeedFile: chunked encoding, the check for lost synchronisation and the header packet of a feeder are absent; one complete packet is the input.
- StreamSelect: explicit stream maps and the program tables, which appear as one flag per input; frame counts are assumed nonnegative and below 2 to the 31 where reuse or optimality needs it, and sums of thresholds do not overflow.
- VideoSync: times and their differences are exact reals, where the source has double precision; 32-bit overflow, encoding and forced key frames are absent.
- ApeScanner: the arithmetic on the length bytes; the reads are all or nothing.
- DtsTranscoder.Transcoder.ProcessFrame: encoding is an input, and so is whether there is PCM to encode.
- SpdifRing.DmaRing.FillZero: the I2S state is read once before each burst, and is the same inside the write of that burst.
- MessagePool: the mutex makes each call one step.
- Audio sync in ffplay, `queue.c`, `itemlist.c`, `pcmenc_api.c`, the example players, HDMI and display utilities: easy members or pure I/O.
