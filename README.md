# RealMedia reader, CUE sheet chapters and VC-1 packetizer (mkvtoolnix)

This project models three pieces of mkvtoolnix in Dafny and proves
properties of the models.

- **The RealMedia reader** (`real_reader_c`). It checks the ".RMF"
  signature and walks the header objects (PROP, CONT, MDPR, DATA),
  classifying each MDPR stream as video, RealAudio 4 or RealAudio 5. It
  creates one packetizer per stream: RealVideo, AC-3 for "dnet", AAC or
  HE-AAC (SBR) for "raac"/"racp", and pass-through for other audio. It asks
  the packetizers for their headers in track order. It then reads one data
  packet per call:
  - video packets are cut into fragments, whose variable-width headers are
    decoded; the fragments are collected per frame, and each frame is
    delivered with its offset table;
  - the frame size of RV40 video is read from the bitstream;
  - AAC packets are split into their sub-frames;
  - other audio passes through a one-chunk lookahead;
  - at the end of the file the held chunks are drained.
- **The CUE sheet chapter parser** (`parse_cue_chapters`). It probes the
  first line and reads the sheet line by line. PERFORMER, TITLE, REM and
  similar settings go to the album before the first audio TRACK and to the
  current track after it. INDEX entries are numbered and time-stamped. Each
  audio track becomes a chapter with one hidden sub-chapter per INDEX
  entry, plus an album tag and one tag per chapter.
- **The VC-1 video packetizer** (`vc1_video_packetizer_c`). It feeds packets
  to an elementary-stream parser and captures the sequence and entry-point
  headers once. It builds the codec private data: a BITMAPINFOHEADER with
  "WVC1", followed by the raw headers. It hands out the parser's frames with
  their backward references.

Files:

- `common.dfy`: uint32 arithmetic, big- and little-endian fields, the
  C-library character tests, `strip`, decimal rendering, and writing into
  a byte buffer.
- `real_headers.dfy`: the probe and the header objects.
- `real_fragments.dfy`: fragment headers and the delivered frame layout.
- `real_dimensions.dfy`: the RealVideo frame-size decoder.
- `real_aac.dfy`: the AAC sub-frame split.
- `real_demuxer.dfy`: the per-stream state and what each kind of packet
  does to it. `real_assembly.dfy` holds the lemmas about one step of
  fragment assembly.
- `real_packetizers.dfy`: packetizer creation, the SBR decision and the
  header order.
- `real_reader.dfy`: the reader object (`RealReading.RealReader`) and its
  `read`.
- `cue_text.dfy`: the CUE text helpers (`get_quoted`, `erase_colon`, the
  name format, the INDEX scan).
- `cue_parser.dfy`: the CUE line loop and its output.
- `vc1.dfy`: the VC-1 packetizer, as the class `Vc1.Vc1Packetizer`.

How the model represents things:

- Packetizers and the track entry are represented by the calls made on
  them. In the RealMedia model these are `Event` values appended to the
  reader's `out`. In the VC-1 model they are the `packets` list and the
  `Track` record.
- Errors that end the program (`die`, `mxerror`, a thrown `error_c`) are
  `Err` results or an `Aborted` status.
- An unknown header object ends header parsing with an error
  (`src/input/r_real.cpp:427-433`); it is not skipped.
- A delivered frame carries the fragment bytes in arrival order
  (`src/input/r_real.cpp:900-904`). The fragment offsets appear only in
  the frame's offset table.

## Model

| member | source | states |
|---|---|---|
| RealHeaders.ProbeAcceptsExactly | src/input/r_real.cpp:118-140 | The probe accepts exactly the files of at least 4 bytes that start with ".RMF", any case. |
| RealHeaders.VideoStream | src/input/r_real.cpp:326-346 | A video record yields a video track whose FourCC is bytes 8-11 and whose private data is the whole record. |
| RealHeaders.AudioV4Stream | src/input/r_real.cpp:362-387 | A RealAudio 4 track exists only when the description, the length byte 4 and the FourCC lie inside the data. The FourCC is the 4 bytes after the length byte. |
| RealHeaders.AudioV5Stream | src/input/r_real.cpp:389-404 | A RealAudio 5 track exists exactly when the data holds the 70-byte record. Its FourCC is bytes 66-69. Its extra data is everything after byte 74. |
| RealHeaders.AudioGuardReadsPastData | src/input/r_real.cpp:348-403 | As written, the audio check admits 56 bytes of data for which both branches read past the end (finding 1). |
| RealHeaders.AudioGuardCorrected | src/input/r_real.cpp:348-403 | The classification used by the model admits audio only when every byte it reads lies inside the data. |
| RealHeaders.ClassifyMdpr | src/input/r_real.cpp:326-415 | A classified stream keeps its id and the whole record as private data, and the user has selected it. An audio stream carries the ".ra\xfd" magic. |
| RealHeaders.ClassifyVideo | src/input/r_real.cpp:326-346 | A selected "VIDO" record becomes a video track with the big-endian width and height from bytes 12-15. |
| RealHeaders.ClassifyNeither | src/input/r_real.cpp:326-415 | A record that is neither video nor audio adds no track. |
| RealHeaders.SkipCounted | src/input/r_real.cpp:239-282 | Skipping a counted string moves forward at least past its length field and stays inside the file. |
| RealHeaders.SkipContent | src/input/r_real.cpp:239-282 | Skipping the CONT object's four strings stays inside the file. |
| RealHeaders.ParseMdpr | src/input/r_real.cpp:284-316 | Reading an MDPR object moves at least past its fixed fields and stays inside the file. |
| RealHeaders.HeaderStep | src/input/r_real.cpp:221-435 | One object moves the position forward and only appends streams. A DATA object stops with the streams found so far. |
| RealHeaders.HeaderObjects | src/input/r_real.cpp:221-435 | The object chain only ever appends streams to those already found. |
| RealHeaders.UnknownObjectIsFatal | src/input/r_real.cpp:427-433 | An object id other than PROP, CONT, MDPR or DATA makes header parsing fail. |
| RealHeaders.DataObjectEnds | src/input/r_real.cpp:420-425 | A DATA object ends the header chain. It records the packet count and the position of the first data packet. |
| RealHeaders.PropObjectSkipped | src/input/r_real.cpp:226-237 | A PROP object is skipped whole (50 bytes). |
| RealHeaders.SkipString16 | src/input/r_real.cpp:239-282 | The loop that skips a string with a 16-bit length agrees with its specification. |
| RealHeaders.SkipContentFields | src/input/r_real.cpp:239-282 | The CONT skip agrees with its specification. |
| RealHeaders.ReadObject | src/input/r_real.cpp:221-435 | Reading one object agrees with the object step. |
| RealHeaders.ParseHeaders | src/input/r_real.cpp:204-440 | parse_headers agrees with the object chain from byte 18. |
| RealFragments.ReadVarField | src/input/r_real.cpp:957-989 | A length or offset field is 2 bytes when bit 14 is set and 4 bytes otherwise. Its value is below 2^30. Its top bit is the merged flag. It fails only when the field runs past the chunk. |
| RealFragments.EncodeVarField | src/input/r_real.cpp:957-989 | A field value below 2^14 encodes in 2 bytes, and any other in 4. |
| RealFragments.VarFieldAt | src/input/r_real.cpp:957-989 | Reading an encoded field gives back its value, its top bit and the position after it. |
| RealFragments.DecodeFragment | src/input/r_real.cpp:939-996 | A decoded fragment's data starts inside the chunk, at least 2 bytes after the header byte. A non-negative packet timecode gives a non-negative fragment timecode. |
| RealFragments.EncodeLongHeader | src/input/r_real.cpp:957-989 | A long fragment header is 6 to 11 bytes, from the header byte to the sequence number. |
| RealFragments.DecodeLongFields | src/input/r_real.cpp:957-996 | With its fields read, a long header decodes as follows: 0xC0 turns the offset into the timecode (times 10^6) with offset 0; 0x80 makes the offset length minus offset (uint32); otherwise the offset is kept. |
| RealFragments.LongHeaderRoundTrip | src/input/r_real.cpp:957-996 | Decoding an encoded long header anywhere in a chunk gives back its length, merged flag and offset or timecode, and the data starts right after the header. |
| RealFragments.LongHeaderLayout | src/input/r_real.cpp:957-989 | An encoded long header holds the length field and then the offset field, after one or two leading bytes. |
| RealFragments.ShortHeader | src/input/r_real.cpp:950-955 | A short header ((hdr & 0xC0) == 0x40) covers the rest of the chunk after 2 bytes, with offset 0. |
| RealFragments.FragmentSizeBounds | src/input/r_real.cpp:998-1004 | The fragment size is min(remaining bytes, length - offset). A negative length - offset fails. |
| RealFragments.ShortFragmentCompletes | src/input/r_real.cpp:950-955 | A short-header fragment always completes its frame. |
| RealFragments.MaxEndIsMax | src/input/r_real.cpp:856-864 | The measured length is at least the end of every fragment (uint32). |
| RealFragments.TotalIsConcatLength | src/input/r_real.cpp:856-864 | The sum of the fragment sizes is the length of their concatenation. |
| RealFragments.PrefixOffsetsAt | src/input/r_real.cpp:866-877 | The rewritten offset of fragment i is the total size of the fragments before it. |
| RealFragments.Repair | src/input/r_real.cpp:866-877 | The repair keeps every fragment's bytes and order. |
| RealFragments.RepairOffsets | src/input/r_real.cpp:866-877 | Offsets are kept when the largest end equals the total size, and rewritten as prefix sums otherwise. |
| RealFragments.OffsetTableEntry | src/input/r_real.cpp:879-898 | Table entry i holds 1 and then the fragment's offset, little-endian. |
| RealFragments.FrameLayout | src/input/r_real.cpp:879-904 | A frame is 1 + 8k + the total size long (k is 1 when merged, else the count). Its first byte is 0 when merged, else count - 1. It ends with the fragments in arrival order. |
| RealFragments.FrameTable | src/input/r_real.cpp:879-898 | Table entry i of a frame holds 1 and then 0 when merged, or the fragment's offset otherwise. |
| RealFragments.ArrivalOrderPayload | src/input/r_real.cpp:900-904 | Fragments that arrive out of offset order are delivered in arrival order, with their offsets in the table. |
| RealFragments.Measure | src/input/r_real.cpp:856-864 | The measuring loop computes the largest end and the total size. |
| RealFragments.RewriteOffsets | src/input/r_real.cpp:866-877 | The repair loop rewrites the offsets as prefix sums. |
| RealFragments.PutTable | src/input/r_real.cpp:879-898 | Writing the table at the moving write position leaves the offset table after the bytes before it. |
| RealFragments.PutData | src/input/r_real.cpp:900-904 | Writing the fragments leaves their concatenation after the table. |
| RealFragments.PutHead | src/input/r_real.cpp:879-898 | The count byte and the table are the frame's first 1 + 8k bytes. |
| RealFragments.BuildFrame | src/input/r_real.cpp:845-907 | The buffer deliver_segments builds is the delivered frame. |
| RealFragments.FrameSplit | src/input/r_real.cpp:879-904 | A frame is its head followed by the fragments' bytes. |
| RealDimensions.GetBits | src/input/r_real.cpp:1026-1072 | A bit read succeeds exactly when the bits lie in the buffer. It advances by the count and yields a value below 2^n. |
| RealDimensions.ReadExtension | src/input/r_real.cpp:1037-1066 | The extension loop adds multiples of 4 to its start value. |
| RealDimensions.ReadWidth | src/input/r_real.cpp:1037-1049 | A width is a table entry or a multiple of 4. |
| RealDimensions.ReadHeight | src/input/r_real.cpp:1051-1066 | A height is an entry of either table or a multiple of 4. |
| RealDimensions.RvDimensionsRange | src/input/r_real.cpp:1026-1072 | Fewer than 4 bytes give no size. A decoded width and height come from the tables or are multiples of 4. |
| RealDimensions.SkipPrefix | src/input/r_real.cpp:1034-1036 | The decoder first skips 26 bits, or as many as the buffer has. |
| RealDimensions.ExtensionValue | src/input/r_real.cpp:1041-1047 | k bytes of 255 followed by c < 255 give the start value + 4·(255k + c). |
| RealDimensions.ExtensionRunsOut | src/input/r_real.cpp:1041-1047 | An extension that is 0xFF to the end of the buffer fails. |
| RealDimensions.WidthCode | src/input/r_real.cpp:1037-1049 | A width code below 7 gives its table entry. Code 7 gives the extension value. A buffer too short for the code gives nothing. |
| RealDimensions.HeightCode | src/input/r_real.cpp:1051-1066 | Height code c < 6 gives table entry c. Code 6 gives 180 or 360 from the next bit. Code 7 with next bit 0 gives 576. With next bit 1 it succeeds exactly when the extension read does. |
| RealDimensions.ExtensionLoop | src/input/r_real.cpp:1041-1047 | The do-while accumulator agrees with the extension read and fails exactly when it does. |
| RealDimensions.GetRvDimensions | src/input/r_real.cpp:1026-1072 | get_rv_dimensions succeeds exactly when the size decodes and then returns it. On failure width and height are unchanged. |
| RealDimensions.WidthField | src/input/r_real.cpp:1037-1049 | The width loop agrees with the width read. |
| RealDimensions.HeightField | src/input/r_real.cpp:1051-1066 | The height loop agrees with the height read. |
| RealAac.SubLengths | src/input/r_real.cpp:756-768 | The i-th sub-frame size is the big-endian 16-bit word at 2 + 2i. |
| RealAac.SplitPiece | src/input/r_real.cpp:769-774 | Piece i of a split is the slice from the sum of the earlier sizes, of its own size. |
| RealAac.SplitConcat | src/input/r_real.cpp:769-774 | The pieces of a split concatenate back to the data. |
| RealAac.AacSplitsChunk | src/input/r_real.cpp:735-776 | A consistent chunk gives exactly n sub-frames of the announced sizes, which concatenate to the chunk after its size table. |
| RealAac.AacRejects | src/input/r_real.cpp:741-768 | A chunk shorter than 2, shorter than its table, or whose sizes do not add up gives no sub-frame. |
| RealAac.LengthCheck | src/input/r_real.cpp:756-768 | The len_check loop computes 2 + 2n + the sum of the sizes. |
| RealAac.CutSubFrames | src/input/r_real.cpp:769-774 | The cutting loop gives the split of the data after the table. |
| RealAac.SplitAacFrames | src/input/r_real.cpp:735-776 | deliver_aac_frames' split agrees with its specification, including the rejected chunks. |
| RealDemuxer.DeliverFrame | src/input/r_real.cpp:845-911 | Without fragments nothing is delivered. Otherwise one frame goes out at the timecode, marked I-frame when key. Its length, first byte and arrival-order payload are as in the frame layout. The list is empty afterwards. |
| RealDemuxer.SetDimensionsOutcome | src/input/r_real.cpp:1074-1130 | A size that does not decode changes nothing. A decoded size is recorded and stops inspection. The track is changed exactly when the size differs, with the user's display size or the old pixel size. |
| RealDemuxer.AddFragment | src/input/r_real.cpp:998-1007 | A fragment is appended to the pending list and sets the pending timecode and the merged flag. The audio fields are unchanged. |
| RealDemuxer.NewTimecodeDeliversFirst | src/input/r_real.cpp:930-936 | A packet with a new timecode first delivers the pending frame, whole, under the old timecode. |
| RealDemuxer.PartialFragmentAccumulates | src/input/r_real.cpp:998-1013 | A fragment that does not complete its frame only accumulates, in arrival order, and nothing reaches the packetizer. At most a frame-size change is reported. Once the frame size is known nothing is reported and the track is unchanged. |
| RealDemuxer.DimensionsReadOnce | src/input/r_real.cpp:1006-1007 | Once the size has been read, no fragment changes the track's size again. |
| RealDemuxer.FragmentStepValid | src/input/r_real.cpp:998-1013 | One fragment keeps the stream's timecodes non-negative, its held-chunk count consistent, and its id. |
| RealDemuxer.AssembleFromNext | src/input/r_real.cpp:939-1013 | A decoded fragment of known size lies inside the chunk, and the loop continues after it. |
| RealDemuxer.FeedState | src/input/r_real.cpp:712-726 | After n audio chunks the stream has counted them and holds the last one, with its timecode and key flag and the timecode before it as reference. |
| RealDemuxer.FeedHoldsBackOne | src/input/r_real.cpp:712-726 | n chunks produce exactly n - 1 calls. Call i carries chunk i, its timecode, the gap to chunk i + 1 as duration, and as reference -1 for a key chunk or the previous timecode otherwise. |
| RealDemuxer.DrainAfterFeed | src/input/r_real.cpp:621-627 | After n chunks the drain emits the last one at t + t/n with duration t/n. |
| RealDemuxer.FinishEventsSound | src/input/r_real.cpp:621-627 | Only audio streams holding a chunk are drained, with that chunk. |
| RealDemuxer.FinishEventsOrdered | src/input/r_real.cpp:621-627 | The drain visits the streams in list order, each at most once. |
| RealDemuxer.FinishEventsComplete | src/input/r_real.cpp:621-627 | Every audio stream holding a chunk is drained. |
| RealDemuxer.AacChunkDelivered | src/input/r_real.cpp:735-776 | A consistent AAC chunk becomes n calls, in order, of the announced sizes, which concatenate to the chunk after its table. |
| RealAssembly.CompletingFragmentDelivers | src/input/r_real.cpp:998-1013 | A fragment that completes its frame delivers the pending fragments plus itself as one frame, at the fragment's timecode, with the key flag the frame started with. Nothing is pending afterwards and later fragments are not key. At most a frame-size change comes before the frame. |
| RealAssembly.ShortChunkDeliversFrame | src/input/r_real.cpp:918-1013 | A chunk of one short-header fragment, with nothing pending, is delivered as exactly one frame at the packet's timecode. The frame is count byte 0, the table entry (1, 0), then the chunk after its two header bytes. The packet's key flag gives the frame type. |
| RealAssembly.SingleSegmentFrame | src/input/r_real.cpp:846-911 | The frame of one unmerged fragment at offset 0 is count byte 0, the entry (1, 0), then the fragment's bytes. |
| RealAssembly.AssembleFromSplits | src/input/r_real.cpp:939-1013 | The loop's outcome is the fragment's events followed by the rest of the loop, run from the state the fragment leaves. |
| RealAssembly.AssembleFromValid | src/input/r_real.cpp:918-1020 | A successful assembly keeps the stream's timecodes non-negative and its id. |
| RealPacketizers.FindDemuxer | src/input/r_real.cpp:604-613 | The index found is the first stream with the id. None means no stream has it. |
| RealPacketizers.FindDemuxerByIds | src/input/r_real.cpp:604-613 | The search depends only on the streams' ids. |
| RealPacketizers.CString | src/input/r_real.cpp:467-483 | A C string is the bytes before the first NUL. |
| RealPacketizers.CodecIds | src/input/r_real.cpp:467-483 | A FourCC without NUL appears whole in "V_REAL/…" and, upper-cased, in "A_REAL/…". |
| RealPacketizers.AacConfigBytes | src/input/r_real.cpp:506-513 | The configuration handed to the AAC parser is length - 1 bytes. |
| RealPacketizers.AacConfigGuardOverreads | src/input/r_real.cpp:506-513 | As written, the uint32 check admits a 5-byte extra data whose length is 0 or 2^32 - 1, and the byte count then runs past it (finding 2). |
| RealPacketizers.AacConfigGuardCorrected | src/input/r_real.cpp:506-513 | The corrected check admits only what the original admits, with the same byte count, inside the data. What only the original admits reads past the end. |
| RealPacketizers.AacWithoutConfig | src/input/r_real.cpp:522-541 | Without configuration the stream's channels and rate are used. "racp" or a rate below 44100 gives SBR at twice the rate. Otherwise the profile stays -1 unless the user listed the stream. |
| RealPacketizers.AacListedIsSbr | src/input/r_real.cpp:536-541 | A stream the user listed as SBR (or all streams, -1) gets the SBR profile. |
| RealPacketizers.AacWithConfig | src/input/r_real.cpp:506-533 | Usable configuration gives the parser's channels, rate and output rate, and SBR when the parser reports it. |
| RealPacketizers.CreateFor | src/input/r_real.cpp:461-587 | Creating a packetizer keeps the stream id and the held audio state, and gives the stream a packetizer. |
| RealPacketizers.Bsid | src/input/r_real.cpp:1147-1151 | The AC-3 bit stream id is the one the scan read for the stream, and -1 exactly when the scan read none. |
| RealPacketizers.OnlyRv40Inspected | src/input/r_real.cpp:467-483 | Video gets "V_REAL/" + FourCC with its size. Its frame size is inspected exactly when the FourCC is "RV40". |
| RealPacketizers.AudioRouting | src/input/r_real.cpp:489-583 | "dnet" gives AC-3 with the stream's rate, channels, private data and scanned bit stream id. "raac"/"racp" in any case give AAC with copied data and no private data. Other audio passes through under "A_REAL/" + upper-cased FourCC. |
| RealPacketizers.CreatePacketizerSpec | src/input/r_real.cpp:447-588 | create_packetizer keeps the number and ids of the streams. |
| RealPacketizers.CreateAllSpec | src/input/r_real.cpp:590-598 | create_packetizers keeps the number and ids of the streams. |
| RealPacketizers.CreateAllKeeps | src/input/r_real.cpp:461 | A packetizer, once created, is never replaced. |
| RealPacketizers.CreateAllCovers | src/input/r_real.cpp:590-598 | Every id in the list gives the first stream with that id a packetizer. |
| RealPacketizers.CreatePacketizersCoverAll | src/input/r_real.cpp:590-598 | After create_packetizers, every stream that find_demuxer returns for its id has a packetizer. |
| RealPacketizers.OrderPassGrows | src/input/r_real.cpp:805-816 | The track-order pass only appends distinct streams that have packetizers. |
| RealPacketizers.RestPassDistinct | src/input/r_real.cpp:817-821 | The second pass only calls packetizers, each at most once. |
| RealPacketizers.RestPassExtends | src/input/r_real.cpp:817-821 | The second pass keeps the earlier calls in front. |
| RealPacketizers.RestPassCovers | src/input/r_real.cpp:817-821 | The second pass reaches every stream with a packetizer. |
| RealPacketizers.HeadersOnce | src/input/r_real.cpp:797-822 | set_headers calls exactly the streams with packetizers, each once, with the track order's calls first. |
| RealPacketizers.TrackOrderFirst | src/input/r_real.cpp:805-816 | When the first track-order id names a stream with a packetizer, that stream is called first. |
| RealReading.ReadPacketHeader | src/input/r_real.cpp:670-676 | A packet header needs 12 bytes. The timecode is the 32-bit millisecond value times 10^6, and length and id are 16-bit. |
| RealReading.PacketChunk | src/input/r_real.cpp:695-701 | A packet's chunk is its length - 12 bytes after the header. |
| RealReading.DoneIsFinal | src/input/r_real.cpp:648-649 | Once done, read does nothing. Finished means done, and more data means not done. |
| RealReading.ShortTailFinishes | src/input/r_real.cpp:653-654 | Fewer than 12 bytes left drains the held chunks, flushes and finishes. |
| RealReading.IndexEndsData | src/input/r_real.cpp:656-668 | An INDX object after the last packet of a DATA object finishes the file. |
| RealReading.ShortPacketFinishes | src/input/r_real.cpp:677-684 | A packet length below 12 finishes the file. |
| RealReading.UnknownStreamSkipped | src/input/r_real.cpp:686-690 | A packet of an unknown stream is skipped whole. Nothing else changes, not even the packet count. |
| RealReading.AudioPacketHeld | src/input/r_real.cpp:712-726 | A plain audio packet is counted and held with its chunk, its timecode and its key flag (flags & 2). The held timecode becomes the reference. |
| RealReading.ReadStepValid | src/input/r_real.cpp:641-733 | read keeps the streams valid and their ids, and only appends packetizer calls. |
| RealReading.DeliverPacketValid | src/input/r_real.cpp:705-726 | Delivering a chunk keeps the stream valid and its id. |
| RealReading.ListedAsSbrScan | src/input/r_real.cpp:536-541 | The scan of the SBR list finds exactly the listed streams. |
| RealReading.DecideAac | src/input/r_real.cpp:496-541 | The AAC branch's steps compute the AAC decision. |
| RealReading.RealReader.constructor | src/input/r_real.cpp:146-171 | The reader starts at the first data packet, not done, with one fresh stream per parsed track and no calls. |
| RealReading.RealReader.FindDemuxer | src/input/r_real.cpp:604-613 | The loop returns the first stream with the id. |
| RealReading.RealReader.Finish | src/input/r_real.cpp:615-635 | finish drains the held audio chunks in list order, sets done and flushes. |
| RealReading.RealReader.DeliverSegments | src/input/r_real.cpp:845-911 | deliver_segments changes only its stream and appends its frame, as specified. |
| RealReading.RealReader.SetDimensions | src/input/r_real.cpp:1074-1130 | set_dimensions changes only its stream and the track size, as specified. |
| RealReading.RealReader.AppendFragment | src/input/r_real.cpp:998-1007 | A fragment is appended, and the size is inspected until known. |
| RealReading.RealReader.TakeFragment | src/input/r_real.cpp:998-1013 | One fragment is appended, and a completing one delivers the frame and clears the key flag. |
| RealReading.RealReader.StartPacket | src/input/r_real.cpp:930-936 | A packet starting a frame sets the key flag and clears merged. A new timecode delivers the pending frame. |
| RealReading.RealReader.AssembleStep | src/input/r_real.cpp:939-1013 | One loop pass takes a fragment and leaves the rest of the loop with the same outcome. It fails only when the loop's specification fails. |
| RealReading.RealReader.AssembleFragments | src/input/r_real.cpp:939-1019 | The fragment loop succeeds exactly when the specification does, with the same stream and calls. |
| RealReading.RealReader.AssemblePacket | src/input/r_real.cpp:918-1020 | assemble_packet agrees with its specification. It fails (the reader dies) exactly when the specification does. |
| RealReading.RealReader.DeliverAacFrames | src/input/r_real.cpp:735-776 | deliver_aac_frames makes one call per sub-frame, in order, and changes no stream. |
| RealReading.RealReader.Lookahead | src/input/r_real.cpp:712-726 | The held chunk goes out with the gap as duration, and the new chunk is held. |
| RealReading.RealReader.DeliverChunk | src/input/r_real.cpp:705-726 | The chunk goes to assembly, the AAC split or the lookahead by stream type. |
| RealReading.RealReader.Read | src/input/r_real.cpp:641-733 | read agrees with its specification: its status, and unless it dies, its new state. |
| RealReading.RealReader.ReadPacket | src/input/r_real.cpp:677-690 | After the header: a short length finishes, an unknown stream is skipped, and a known one takes the packet. |
| RealReading.RealReader.TakePacket | src/input/r_real.cpp:695-726 | A short read finishes. Otherwise the packet is counted and its chunk delivered. |
| RealReading.RealReader.CreateAt | src/input/r_real.cpp:461-587 | create_packetizer's body gives one stream the packetizer `CreateFor` describes, including the scanned AC-3 bit stream id. The other streams, the counters and the output are unchanged. |
| RealReading.RealReader.CreatePacketizer | src/input/r_real.cpp:447-588 | create_packetizer agrees with its specification. |
| RealReading.RealReader.CreateInTrackOrder | src/input/r_real.cpp:594-595 | The loop creates packetizers for the track-order ids. |
| RealReading.RealReader.CreateForEveryDemuxer | src/input/r_real.cpp:596-597 | The loop creates packetizers for every stream's id. |
| RealReading.RealReader.CreatePacketizers | src/input/r_real.cpp:590-598 | create_packetizers creates for the track order and then for every stream. |
| RealReading.RealReader.ClearHeaderFlags | src/input/r_real.cpp:802-803 | Every headers-set flag is cleared. |
| RealReading.RealReader.HeadersInTrackOrder | src/input/r_real.cpp:805-816 | The track-order loop calls the first pass's streams and sets their flags. |
| RealReading.RealReader.HeadersOfTheRest | src/input/r_real.cpp:817-821 | The second loop calls the remaining streams with packetizers and sets their flags. |
| RealReading.RealReader.SetHeaders | src/input/r_real.cpp:797-822 | set_headers calls every packetizer once, track order first. Afterwards each flag says whether the stream has a packetizer. |
| RealReading.CreateAllAppend | src/input/r_real.cpp:590-598 | Creating for one id list and then another is creating for both. |
| RealReading.CreateAllValid | src/input/r_real.cpp:590-598 | Creating packetizers keeps the streams valid. |
| RealReading.Open | src/input/r_real.cpp:145-171 | Opening succeeds exactly when the probe and the header parse do. The reader then keeps the settings, starts at the first data packet with no packets counted and no calls, and is not done. Its streams are the parsed tracks after create_packetizers, so every stream that find_demuxer returns for its id has a packetizer. |
| CueText.ProbeCueKeywords | src/common/chapter_parser_cue.cpp:48-60 | The probe accepts exactly a first line that starts with PERFORMER, TITLE, FILE, CATALOG or REM followed by a space, in any case. A file without lines is refused. |
| CueText.ProbeCueIgnoresCase | src/common/chapter_parser_cue.cpp:48-60 | The probe does not depend on the case of the first line. |
| CueText.GetQuotedRoundTrip | src/common/chapter_parser_cue.cpp:328-339 | Keyword, blanks, a quoted value and blanks give the value back, whatever it holds. |
| CueText.GetQuotedBare | src/common/chapter_parser_cue.cpp:328-339 | An unquoted value with no blank or quote at either end comes back unchanged. |
| CueText.GetQuotedShort | src/common/chapter_parser_cue.cpp:328-339 | A line no longer than the offset gives the empty value. |
| CueText.StripPadded | src/common/chapter_parser_cue.cpp:332 | strip removes exactly the blanks around a text with none at its ends. |
| CueText.EraseColon | src/common/chapter_parser_cue.cpp:341-358 | The loop version of erase_colon agrees with its specification. |
| CueText.EraseColonAfterWord | src/common/chapter_parser_cue.cpp:341-358 | "REM DATE: x" becomes "REM DATE x". |
| CueText.EraseSpaceColonAfterWord | src/common/chapter_parser_cue.cpp:341-358 | "REM DATE : x" becomes "REM DATE x". |
| CueText.EraseColonNoColon | src/common/chapter_parser_cue.cpp:341-358 | Without ':' or " :" right after the word, the line is unchanged. |
| CueText.EraseColonWordToEnd | src/common/chapter_parser_cue.cpp:341-358 | A word that runs to the end leaves the line unchanged. |
| CueText.ChapterName | src/common/chapter_parser_cue.cpp:64-106 | An empty title or performer is first replaced by the global one. The name is the format (or "%p - %t") expanded. |
| CueText.FormatLiteral | src/common/chapter_parser_cue.cpp:84-105 | Literal text in the format is copied. |
| CueText.FormatDirective | src/common/chapter_parser_cue.cpp:85-95 | %p, %t, %n and %N expand in place. |
| CueText.FormatUnknownDirective | src/common/chapter_parser_cue.cpp:96-99 | '%' before any other character is copied literally, and that character is then read normally. |
| CueText.FormatTrailingPercent | src/common/chapter_parser_cue.cpp:96-99 | A '%' at the end of the format is copied. |
| CueText.DefaultName | src/common/chapter_parser_cue.cpp:79-80 | The default format gives "performer - title". |
| CueText.PaddedNumber | src/common/chapter_parser_cue.cpp:92-95 | %N gives at least two digits that read back as the number. |
| CueText.ScanInt | src/common/chapter_parser_cue.cpp:426-427 | %d consumes at least one character and stays inside the line. |
| CueText.ScanIntAt | src/common/chapter_parser_cue.cpp:426-427 | Digits after white space scan back to their value. |
| CueText.ScanIndexOf | src/common/chapter_parser_cue.cpp:426-429 | "%d %d:%d:%d" gives its four numbers when all four conversions succeed. |
| CueText.IndexTimestampBounds | src/common/chapter_parser_cue.cpp:437-438 | mm:ss:ff maps to the exact time rounded down to whole nanoseconds: the frame part is ff·10^9/75 with integer division. |
| CueText.IndexTimestampIncreases | src/common/chapter_parser_cue.cpp:437-438 | The next frame, and the next second, give a later timestamp. |
| CueParser.Language | src/common/chapter_parser_cue.cpp:384-387 | The chapter language is the given one, or "eng" when none is given. |
| CueParser.TagIf | src/common/chapter_parser_cue.cpp:166-168 | A simple tag is added only for a non-empty value. |
| CueParser.CommentsKept | src/common/chapter_parser_cue.cpp:203-206 | Comments become COMMENT tags, none of them empty and no more than there are comments. When no comment is empty, every comment is kept, in order. |
| CueParser.TrackTagNumber | src/common/chapter_parser_cue.cpp:173-209 | A track's tag targets its chapter and carries PART_NUMBER with the track number. |
| CueParser.ChapterOfTrack | src/common/chapter_parser_cue.cpp:281-326 | An in-range track adds one chapter at start - offset, in the chapter language, named by the format, with one sub-chapter per INDEX at its timestamp - offset. |
| CueParser.IndexNames | src/common/chapter_parser_cue.cpp:243-279 | Sub-chapter k is named "INDEX nn", with nn = k + 1 when INDEX 00 is missing and k otherwise. |
| CueParser.FirstKeywordMatches | src/common/chapter_parser_cue.cpp:405-509 | The keyword chosen is one the line starts with, and no earlier keyword matches. |
| CueParser.ClassifyTrackLine | src/common/chapter_parser_cue.cpp:451-454 | A TRACK line is an audio track exactly when it ends in "audio", any case. |
| CueParser.AudioTrackCommand | src/common/chapter_parser_cue.cpp:451-454 | The audio TRACK command comes exactly from audio track lines. |
| CueParser.ClassifyIndexLine | src/common/chapter_parser_cue.cpp:420-429 | An INDEX line is scanned after the keyword and the blanks are stripped. |
| CueParser.ClassifyPerformerLine | src/common/chapter_parser_cue.cpp:405-409 | A PERFORMER line carries the quoted text after the keyword. |
| CueParser.ClassifyTitleLine | src/common/chapter_parser_cue.cpp:414-418 | A TITLE line carries the quoted text after the keyword. |
| CueParser.ClassifySkips | src/common/chapter_parser_cue.cpp:402-403 | Blank lines and FILE lines are skipped. |
| CueParser.IndexRule | src/common/chapter_parser_cue.cpp:431-449 | An INDEX is accepted exactly when it is in 0..99 and equals the count of entries so far, or the count + 1 when INDEX 00 is missing or this is the first entry. It appends its timestamp, 0 or 1 sets the track start, and a first INDEX 01 marks INDEX 00 as missing. |
| CueParser.IndexRepeatAfterMissing00 | src/common/chapter_parser_cue.cpp:433-436 | After a first INDEX 01, a second INDEX 01 is accepted too. |
| CueParser.ApplyCounts | src/common/chapter_parser_cue.cpp:399-400 | Every line is counted, and only an audio TRACK counts a track. |
| CueParser.Routing | src/common/chapter_parser_cue.cpp:405-508 | PERFORMER, TITLE, REM DATE, REM GENRE and REM COMMENT go to the album before the first track and to the track after it (REM lines 479-508). Any other REM goes to the album's REM list before, and to the track's comments after. |
| CueParser.AlbumSettledAfterFirstTrack | src/common/chapter_parser_cue.cpp:479-508 | After the first track only CATALOG and REM DISCID still change the album. |
| CueParser.TrackUntouchedBeforeFirstTrack | src/common/chapter_parser_cue.cpp:405-418 | Before the first audio TRACK no line sets the track's performer, title, date, genre or comments; those go to the album. ISRC, FLAGS and INDEX lines still write the track's ISRC, flags and indices then, until the first audio TRACK resets the track. |
| CueParser.NonAudioTrackIgnored | src/common/chapter_parser_cue.cpp:451-454 | A non-audio TRACK only counts as a line. |
| CueParser.AudioTrackStarts | src/common/chapter_parser_cue.cpp:451-471 | An audio TRACK fails exactly when the previous track had no INDEX. Otherwise it counts a track and clears the track's fields. |
| CueParser.AudioTrackEmits | src/common/chapter_parser_cue.cpp:451-471 | The first audio TRACK adds the album tag. Later ones add a chapter exactly when the previous track's first INDEX is in range. |
| CueParser.AcceptIndexValid | src/common/chapter_parser_cue.cpp:431-443 | An accepted INDEX keeps the track start among the entries. |
| CueParser.NewChapterWellFormed | src/common/chapter_parser_cue.cpp:281-326 | A new chapter has the chapter language and one sub-chapter per INDEX. |
| CueParser.AddElementsValid | src/common/chapter_parser_cue.cpp:281-326 | Closing a track keeps the chapters well formed and one tag per chapter after the album tag. |
| CueParser.StartTrackValid | src/common/chapter_parser_cue.cpp:451-471 | An audio TRACK keeps the parser invariant. |
| CueParser.ApplyValid | src/common/chapter_parser_cue.cpp:399-509 | Every line keeps the parser invariant. |
| CueParser.ErrorSticks | src/common/chapter_parser_cue.cpp:398-519 | An error ends the loop. |
| CueParser.FoldLines | src/common/chapter_parser_cue.cpp:399-510 | The line loop computes the fold of the line step, stopping at the first error. |
| CueParser.ParseCueChapters | src/common/chapter_parser_cue.cpp:360-529 | parse_cue_chapters agrees with its specification. |
| CueParser.RunCounts | src/common/chapter_parser_cue.cpp:399-471 | After n lines, n lines were counted, and the track number is the number of audio track lines. |
| CueParser.RunValid | src/common/chapter_parser_cue.cpp:399-510 | Every state the parser reaches keeps the invariant. |
| CueParser.ParseCueOutput | src/common/chapter_parser_cue.cpp:512-528 | There are no chapters exactly when there is no audio track. Otherwise there is at most one chapter per track, each well formed. With tags, the album tag comes first and then one tag per chapter. Without tags there are none. |
| Vc1.CodecPrivate | src/output/p_vc1.cpp:49 | The codec private data is 40 bytes, plus the raw headers + 1 when they exist. |
| Vc1.DimensionFields | src/output/p_vc1.cpp:56-60 | The header holds the size, width and height (uint32). |
| Vc1.FormatFields | src/output/p_vc1.cpp:54-58 | The header holds planes 1, bit count 24 and "WVC1". |
| Vc1.ImageField | src/output/p_vc1.cpp:61 | bi_size_image is the read-back width × height × 3, modulo 2^32. |
| Vc1.TailFields | src/output/p_vc1.cpp:53-63 | The pels-per-meter fields are 1, and the fields after them are 0. |
| Vc1.CodecPrivateFields | src/output/p_vc1.cpp:47-99 | Every BITMAPINFOHEADER field holds its value, with bi_size the whole size and bi_size_image = width × height × 3 (uint32). The raw headers follow a zero byte. |
| Vc1.SizeImageWraps | src/output/p_vc1.cpp:61 | Reading width and height back as uint32 first gives the same product modulo 2^32. |
| Vc1.DummyCodecPrivate | src/output/p_vc1.cpp:42-44 | Without headers the dummy 123×123 gives a 40-byte private with size image 45387. |
| Vc1.WriteNext | src/output/p_vc1.cpp:53-63 | Writing the next field after the written prefix leaves zeros after it. |
| Vc1.WriteDimensions | src/output/p_vc1.cpp:56-60 | The first 12 bytes become size, width and height. |
| Vc1.WriteFormat | src/output/p_vc1.cpp:54-58 | Bytes 12-19 become planes, bit count and "WVC1". |
| Vc1.WriteImage | src/output/p_vc1.cpp:61-63 | Bytes 20-31 become the size image, computed from the bytes already written, and the pels per meter. |
| Vc1.BuildCodecPrivate | src/output/p_vc1.cpp:49-63 | The buffer set_headers fills is the codec private data (the raw-header copy is line 89). |
| Vc1.JoinHeaders | src/output/p_vc1.cpp:120-126 | The raw headers are the sequence header followed by the entry point, of their combined size. |
| Vc1.EmitPackets | src/output/p_vc1.cpp:138-148 | Frames go out in parser order with their data, timecode and duration. The reference is -1 for an I-frame or a sequence header, else the previous frame's timecode (initially the last one emitted). |
| Vc1.EmitSplit | src/output/p_vc1.cpp:138-148 | Flushing in two parts equals flushing at once, with the last timecode carried over. |
| Vc1.FlushFramesDrains | src/output/p_vc1.cpp:138-148 | After flush_frames no frame is left, a second call changes nothing, and one packet was added per frame. |
| Vc1.HeadersCaptured | src/output/p_vc1.cpp:101-129 | Without headers, a packet whose parsing yields headers captures them (sequence header + entry point) and writes the track headers once. Otherwise nothing is captured. |
| Vc1.HeadersKept | src/output/p_vc1.cpp:108-109 | Once captured, the headers never change. |
| Vc1.HeadersAtMostOnce | src/output/p_vc1.cpp:101-129 | Over any packets the headers are written at most once, only while none were captured, and are kept afterwards. |
| Vc1.ProcessValid | src/output/p_vc1.cpp:101-114 | process keeps the packetizer's invariant. |
| Vc1.ProcessForwardsTimecode | src/output/p_vc1.cpp:103-106 | A timecode is given to the parser exactly when it is not -1. |
| Vc1.SetHeadersSettings | src/output/p_vc1.cpp:47-99 | The codec private data is as specified. Without raw headers the duration is 33366666 ns, forced or not (the dummy size is 123×123). With raw headers, the display size is the display size or the pixel size. The parser gets the track's current duration when one was forced, and the track takes the parser's otherwise. Once set, the track and the parser agree on it. |
| Vc1.ForcedDurationStaysSet | src/output/p_vc1.cpp:84-92 | A forced duration is set from construction on, and set_headers and process keep some duration set. |
| Vc1.ForcedDurationBeforeHeaders | src/output/p_vc1.cpp:84-92 | With a forced duration, a set_headers before the headers are known and then a packet that completes them leave 33366666 ns on both the track and the parser. |
| Vc1.FlushValid | src/output/p_vc1.cpp:131-136 | flush drains the parser and emits its remaining frames in order. |
| Vc1.Vc1Packetizer.constructor | src/output/p_vc1.cpp:30-45 | The previous timecode is -1, no raw headers are captured, and the sequence header is the dummy 123×123. Relaxed timecode checking is on. The codec id is V_MS/VFW/FOURCC. Unspecified cues become I-frame cues. |
| Vc1.Vc1Packetizer.SetHeaders | src/output/p_vc1.cpp:47-99 | set_headers agrees with its specification, which SetHeadersSettings characterises. |
| Vc1.Vc1Packetizer.HeadersFound | src/output/p_vc1.cpp:116-129 | headers_found agrees with its specification. |
| Vc1.Vc1Packetizer.FlushFrames | src/output/p_vc1.cpp:138-148 | The draining loop agrees with its specification. |
| Vc1.Vc1Packetizer.Process | src/output/p_vc1.cpp:101-114 | process agrees with its specification and returns "more data". |
| Vc1.Vc1Packetizer.Flush | src/output/p_vc1.cpp:131-136 | flush agrees with its specification. |

## Left out

- File I/O through `mm_io_c` is left out: the file is a byte sequence and
  positions are indices. This covers the probe leaving the read position
  at 0 and the file scan in `get_information_from_data`
  (`src/input/r_real.cpp:1137-1199`).
- Floating point is left out:
  - the frame rate conversion (`src/input/r_real.cpp:341-342`);
  - the aspect-ratio branch of `set_dimensions`
    (`src/input/r_real.cpp:1097-1109`): the user's display size is
    modelled, the aspect ratio is not;
  - the audio sampling frequency, which is kept as an integer.
- libmatroska elements are plain records: track entries, chapters, tags,
  `rerender_track_headers`, `EnableLacing`, and what
  `generic_packetizer_c::set_headers`, `flush` and `add_packet` do inside.
- Unique ids (`create_unique_uint32`), charset conversion, logging and
  identification output are left out.
- The destructor and memory bookkeeping are left out, as is
  `can_connect_to`.
- `parse_aac_data` is an input of the model (`AacParser`), as is
  `demuxing_requested` (`Selection`).
- The VC-1 elementary-stream parser is represented by its frame queue.
  `add_bytes` and `flush` are function parameters.
- The process-wide chapter-name format is a field of the CUE options.
- The CUE input is a sequence of lines (`getline2` is left out).
- `index00_missing` is not set before the first TRACK in the source; the
  model starts it as false.
- `sscanf` is modelled for what it reads from an INDEX line. A number
  out of the `int` range, undefined in C, is not bounded.
- CueText.GetQuoted: is total. For a line shorter than the offset the
  source's `src.erase(0, offset)` throws `std::out_of_range`
  (`src/common/chapter_parser_cue.cpp:331`); the model gives the empty
  value. No caller reaches that case: each call follows a match of a
  keyword exactly as long as the offset.
- RealReading.Open: always creates the packetizers. The source skips
  `create_packetizers` when only identifying the file
  (`src/input/r_real.cpp:169-170`); identification is left out.
- Vc1.SetHeadersSpec: `generic_packetizer_c::set_track_default_duration`
  and `get_track_default_duration` are not part of this model. The track's
  default duration is a plain field: the setter stores its argument, and
  the getter reads it (-1 while unset). The setter's scaling by the
  timecode-sync factor and its refusal of values <= 0 are not modelled.
- CueText.IndexTimestamp: computes `min * 60` without bounds. In the
  source this product is a C `int` and overflows for minutes above
  35791394 (`src/common/chapter_parser_cue.cpp:437`); that overflow is not
  modelled.
- RealReading.RealReader.Read: the reader object is given the whole file
  at once. A read that throws in the source (a header past the end) is
  modelled as the finishing branch the source's `catch` takes.
- Vc1.BuildCodecPrivate: writes the BITMAPINFOHEADER fields in offset
  order. The source writes them in another order, but the fields do not
  overlap and width and height are written before the size image reads
  them back, so the buffer is the same.
- Every `RealReading.RealReader` method and `Vc1.Vc1Packetizer` method is
  proved against a specification function. The specification functions
  without an `ensures` of their own (`DeliverSpec`, `AssembleFrom`,
  `ReadStep`, `Emit`, `ProcessSpec` and the like) have no row; the lemmas
  about them do.
- RealPacketizers.Bsid: the bit stream id is an input of the model
  (`Settings.scannedBsid`). The scan of the first data packets that
  finds it (`get_information_from_data`, `src/input/r_real.cpp:1137-1199`)
  is not part of this model.
- RealPacketizers.AacDecision: follows the corrected configuration check
  (`AacConfigPresent`). Where the source's check also admits a zero or
  wrapping length, the model treats the configuration as absent. The
  source would read out of bounds there, and its other effect is
  `extra_data_parsed`, which only decides whether a warning is printed.

## Findings

| source | as written | input that shows it | evidently intended | confidence | as-written member | corrected member |
|---|---|---|---|---|---|---|
| src/input/r_real.cpp:348-403 | The audio branch is entered when the record holds the 56-byte RealAudio 4 properties and the ".ra\xfd" magic. The version-5 branch then copies the 70-byte record, and the version-4 branch reads the description length at byte 56. | 56 bytes: ".ra\xfd", version 5 (or 4), then 50 zero bytes. | Take the version-5 branch only with at least 70 bytes. Take the version-4 branch only when the description, the length byte and the FourCC lie inside the record. | not executed | RealHeaders.AudioGuardReadsPastData | RealHeaders.AudioGuardCorrected |
| src/input/r_real.cpp:506-513 | The AAC configuration is used when `extra_data_size >= 4 + extra_len`, computed in uint32. It is then handed over from byte 5 with `extra_len - 1` bytes. | A 5-byte extra data with length field 0 (the count wraps to 2^32 - 1), or with length field 0xFFFFFFFF (4 + length wraps to 3). | Use the configuration only when 1 <= length and 4 + length <= size, computed without wrap-around. Whether `parse_aac_data` then over-reads depends on its parameter type, which is not part of this model. | not executed | RealPacketizers.AacConfigGuardOverreads | RealPacketizers.AacConfigGuardCorrected |
