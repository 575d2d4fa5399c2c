/** The per-stream state of the RealMedia reader (real_demuxer_t in
    r_real.cpp), the calls the reader makes on its packetizers, and what
    the per-packet work does to both: video frames assembled from
    fragments, the one-chunk lookahead of plain audio, the AAC split, and
    the drain when the file ends. */
module RealDemuxer {
  import opened Common
  import opened RealHeaders
  import opened RealFragments
  import RealDimensions
  import RealAac

  /** The frame-type markers deliver_segments passes as backward reference
      (pr_generic.h is not part of this model; these are its values). */
  const IFrame: int := -1
  const PFrameAutomatic: int := -2
  /** "No reference" and "no timecode": the default of every argument of a
      packetizer's process call. */
  const Unset: int := -1

  /** The codec a packetizer was created for, with the parameters the
      reader hands to its constructor. */
  datatype Codec =
    | VideoCodec(codecId: string, width: nat, height: nat)
    | Ac3Codec(sampleRate: nat, channels: nat, bsid: int)
    | AacCodec(profile: int, sampleRate: nat, channels: nat, outputRate: Option<nat>)
    | PassthroughCodec(codecId: string, sampleRate: nat, channels: nat, bitsPerSample: nat)

  /** A packetizer: its codec, the codec private data it was given, and
      whether it copies the data handed to it. */
  datatype Packetizer = Packetizer(codec: Codec, codecPrivate: seq<byte>, duplicateData: bool)

  /** real_demuxer_t: the stream as parsed from the headers plus the
      reader's working state for it. */
  datatype Demuxer = Demuxer(
    info: StreamInfo,
    packetizer: Option<Packetizer>,
    isAac: bool,
    rvDimensions: bool,     // the frame size has been read (or is not inspected)
    merged: bool,           // f_merged
    segments: seq<Segment>, // the fragments of the frame being assembled
    keyframe: bool,         // c_keyframe
    cData: Option<seq<byte>>,
    cTimecode: int,
    cRefTimecode: int,
    cNumPackets: nat,
    headersSet: bool)

  /** A demuxer as parse_headers creates it: everything else zeroed. */
  function NewDemuxer(info: StreamInfo): Demuxer
  {
    Demuxer(info, None, false, false, false, [], false, None, 0, 0, 0, false)
  }

  /** What the reader does to the packetizers, in order. `stream` is the
      index of the demuxer in the reader's list. */
  datatype Event =
    | Process(stream: nat, data: seq<byte>, timecode: int, duration: int, bref: int)
    | SetHeaders(stream: nat)
    | TrackDimensions(stream: nat, width: nat, height: nat, displayWidth: nat, displayHeight: nat)
    | FlushAll

  /** The display size the user asked for. The aspect-ratio option is not
      part of this model. */
  datatype DisplayOverride = NoOverride | DisplaySize(width: nat, height: nat)

  /** Timecodes are never negative, and a held audio chunk has been
      counted. */
  predicate ValidDemuxer(d: Demuxer)
  {
    d.cTimecode >= 0 && d.cRefTimecode >= 0 && (d.cData.Some? ==> d.cNumPackets > 0)
  }

  // ---------------------------------------------------------------------------
  // deliver_segments

  /** deliver_segments: nothing when no fragment is pending; otherwise one
      frame to the packetizer at `tc`, marked as I-frame when the first
      fragment came from a key packet, and the list is emptied. */
  function DeliverSpec(d: Demuxer, k: nat, tc: int): (Demuxer, seq<Event>)
  {
    if d.segments == [] then (d, [])
    else (d.(segments := []),
          [Process(k, DeliveredFrame(d.merged, d.segments), tc, Unset,
                   if d.keyframe then IFrame else PFrameAutomatic)])
  }

  /** A delivered frame is 1 + 8k + the sum of the fragment sizes long, k
      being 1 when merged and the fragment count otherwise; it starts with
      0 or the count minus one and ends with the fragments in arrival
      order; afterwards no fragment is pending. Without fragments nothing
      is delivered. */
  lemma DeliverFrame(d: Demuxer, k: nat, tc: int)
    ensures d.segments == [] ==> DeliverSpec(d, k, tc) == (d, [])
    ensures d.segments != [] ==>
              var r := DeliverSpec(d, k, tc);
              var n := TableEntries(d.merged, d.segments);
              r.0.segments == [] && |r.1| == 1 && r.1[0].Process? &&
              r.1[0].timecode == tc &&
              r.1[0].bref == (if d.keyframe then IFrame else PFrameAutomatic) &&
              |r.1[0].data| == 1 + 8 * n + Total(d.segments) &&
              r.1[0].data[0] == (if d.merged then 0 else (|d.segments| - 1) % 256) &&
              r.1[0].data[1 + 8 * n..] == Concat(Datas(d.segments))
  {
    if d.segments != [] {
      var fixed := Repair(d.segments);
      FrameLayout(d.merged, fixed);
      TotalIsConcatLength(fixed);
      TotalIsConcatLength(d.segments);
    }
  }

  // ---------------------------------------------------------------------------
  // set_dimensions

  /** set_dimensions: when the frame size decodes, the demuxer records it and
      stops inspecting; when it differs from the size known so far, the
      track is given the new pixel size and a display size (the old pixel
      size, or the user's display size). A size that does not decode
      changes nothing. */
  function SetDimensionsSpec(d: Demuxer, k: nat, buf: seq<byte>, display: DisplayOverride): (Demuxer, seq<Event>)
  {
    match RealDimensions.RvDimensions(buf)
    case None => (d, [])
    case Some(dim) =>
      var d' := d.(rvDimensions := true, info := d.info.(width := dim.width, height := dim.height));
      if dim.width == d.info.width && dim.height == d.info.height then (d', [])
      else
        var disp := match display
                    case NoOverride => (d.info.width, d.info.height)
                    case DisplaySize(w, h) => (w, h);
        (d', [TrackDimensions(k, dim.width, dim.height, disp.0, disp.1)])
  }

  /** What reading the frame size from a fragment does to the track. */
  lemma SetDimensionsOutcome(d: Demuxer, k: nat, buf: seq<byte>, display: DisplayOverride)
    ensures RealDimensions.RvDimensions(buf).None? ==> SetDimensionsSpec(d, k, buf, display) == (d, [])
    ensures RealDimensions.RvDimensions(buf).Some? ==>
              var dim := RealDimensions.RvDimensions(buf).value;
              SetDimensionsSpec(d, k, buf, display).0 == d.(rvDimensions := true, info := d.info.(width := dim.width, height := dim.height))
    ensures SetDimensionsSpec(d, k, buf, display).1 != [] <==>
              RealDimensions.RvDimensions(buf).Some? &&
              RealDimensions.RvDimensions(buf).value != RealDimensions.Dimensions(d.info.width, d.info.height)
    ensures SetDimensionsSpec(d, k, buf, display).1 != [] ==>
              var dim := RealDimensions.RvDimensions(buf).value;
              SetDimensionsSpec(d, k, buf, display).1 == [TrackDimensions(k, dim.width, dim.height,
                                       if display.DisplaySize? then display.width else d.info.width,
                                       if display.DisplaySize? then display.height else d.info.height)]
  {
  }

  // ---------------------------------------------------------------------------
  // assemble_packet

  /** The fragment's bytes: `size` bytes after its header. */
  function FragmentData(chunk: seq<byte>, f: Fragment, size: nat): seq<byte>
    requires f.dataStart + size <= |chunk|
  {
    chunk[f.dataStart..f.dataStart + size]
  }

  /** A decoded fragment joins the pending list (setting the merged flag
      when its length field says so) and becomes the pending timecode; its
      bytes are inspected for the frame size until that has been read. */
  function AddFragment(d: Demuxer, k: nat, data: seq<byte>, f: Fragment, display: DisplayOverride): (r: (Demuxer, seq<Event>))
    ensures r.0.segments == d.segments + [Segment(f.offset, data)] && r.0.cTimecode == f.timecode
    ensures r.0.merged == (d.merged || f.merged) && r.0.info.id == d.info.id
    ensures r.0.cData == d.cData && r.0.cNumPackets == d.cNumPackets && r.0.cRefTimecode == d.cRefTimecode
  {
    var d1 := d.(merged := d.merged || f.merged, segments := d.segments + [Segment(f.offset, data)],
                 cTimecode := f.timecode);
    if d1.rvDimensions then (d1, []) else SetDimensionsSpec(d1, k, data, display)
  }

  /** When a fragment completes the frame, the frame is delivered at the
      fragment's timecode and later fragments are not key. */
  function FragmentStep(d: Demuxer, k: nat, chunk: seq<byte>, f: Fragment, size: nat,
                        display: DisplayOverride): (Demuxer, seq<Event>)
    requires f.dataStart + size <= |chunk|
  {
    var s2 := AddFragment(d, k, FragmentData(chunk, f, size), f, display);
    if CompletesFrame(f, size) then
      var s3 := DeliverSpec(s2.0, k, f.timecode);
      (s3.0.(keyframe := false), s2.1 + s3.1)
    else s2
  }

  /** Prefixes the events of a successful outcome. */
  function Prepend(ev: seq<Event>, r: Option<(Demuxer, seq<Event>)>): Option<(Demuxer, seq<Event>)>
  {
    if r.None? then None else Some((r.value.0, ev + r.value.1))
  }

  /** assemble_packet's loop from byte `pos` of the chunk: fragments are
      decoded while more than two bytes remain. None when a header read runs
      past the chunk or a fragment's length - offset is negative (the
      reader dies). */
  function AssembleFrom(d: Demuxer, k: nat, chunk: seq<byte>, pos: nat, tc: int,
                        display: DisplayOverride): Option<(Demuxer, seq<Event>)>
    decreases |chunk| - pos, 0
  {
    if |chunk| <= pos + 2 then Some((d, []))
    else
      match DecodeFragment(chunk, pos, tc)
      case None => None
      case Some(f) =>
        match FragmentSize(f, |chunk|)
        case None => None
        case Some(size) => AssembleAfter(d, k, chunk, f, size, tc, display)
  }

  /** assemble_packet's loop once fragment `f` of `size` bytes has been
      decoded: the fragment is taken, and its events come before those of
      the later fragments. */
  function AssembleAfter(d: Demuxer, k: nat, chunk: seq<byte>, f: Fragment, size: nat, tc: int,
                         display: DisplayOverride): Option<(Demuxer, seq<Event>)>
    requires f.dataStart + size <= |chunk|
    decreases |chunk| - (f.dataStart + size), 1
  {
    var s := FragmentStep(d, k, chunk, f, size, display);
    Prepend(s.1, AssembleFrom(s.0, k, chunk, f.dataStart + size, tc, display))
  }

  /** assemble_packet: a packet that starts a frame sets the key flag and
      clears the merged flag; a packet whose timecode differs from the
      pending one first delivers the pending fragments under the pending
      timecode. */
  function AssembleSpec(d: Demuxer, k: nat, chunk: seq<byte>, tc: int, key: bool,
                        display: DisplayOverride): Option<(Demuxer, seq<Event>)>
  {
    var d0 := if d.segments == [] then d.(keyframe := key, merged := false) else d;
    var s1 := if tc != d0.cTimecode then DeliverSpec(d0, k, d0.cTimecode) else (d0, []);
    Prepend(s1.1, AssembleFrom(s1.0, k, chunk, 0, tc, display))
  }

  /** A packet with a new timecode delivers the pending frame, whole and
      under the old timecode, before any of its own fragments. */
  lemma NewTimecodeDeliversFirst(d: Demuxer, k: nat, chunk: seq<byte>, tc: int, key: bool,
                                 display: DisplayOverride)
    requires d.segments != [] && tc != d.cTimecode
    requires AssembleSpec(d, k, chunk, tc, key, display).Some?
    ensures var ev := AssembleSpec(d, k, chunk, tc, key, display).value.1;
            |ev| >= 1 && ev[0] == Process(k, DeliveredFrame(d.merged, d.segments), d.cTimecode, Unset,
                                          if d.keyframe then IFrame else PFrameAutomatic)
  {
  }

  /** Fragments that do not complete their frame only accumulate: nothing
      reaches the packetizer and the frame's fragments stay in arrival
      order. Until the frame size is known the fragment may report it;
      afterwards nothing at all is reported and the track is unchanged. */
  lemma PartialFragmentAccumulates(d: Demuxer, k: nat, chunk: seq<byte>, f: Fragment, size: nat,
                                   display: DisplayOverride)
    requires f.dataStart + size <= |chunk| && !CompletesFrame(f, size)
    ensures var r := FragmentStep(d, k, chunk, f, size, display);
            (forall i :: 0 <= i < |r.1| ==> !r.1[i].Process?) &&
            r.0.segments == d.segments + [Segment(f.offset, chunk[f.dataStart..f.dataStart + size])] &&
            r.0.cTimecode == f.timecode
    ensures d.rvDimensions ==>
              var r := FragmentStep(d, k, chunk, f, size, display);
              r.1 == [] && r.0.info == d.info
  {
    var data := FragmentData(chunk, f, size);
    var d1 := d.(merged := d.merged || f.merged, segments := d.segments + [Segment(f.offset, data)],
                 cTimecode := f.timecode);
    SetDimensionsOutcome(d1, k, data, display);
  }

  /** Once the frame size has been read, fragments never change the track's
      size again. */
  lemma DimensionsReadOnce(d: Demuxer, k: nat, chunk: seq<byte>, f: Fragment, size: nat,
                           display: DisplayOverride)
    requires f.dataStart + size <= |chunk| && d.rvDimensions
    ensures var r := FragmentStep(d, k, chunk, f, size, display);
            r.0.info == d.info && r.0.rvDimensions &&
            forall i :: 0 <= i < |r.1| ==> !r.1[i].TrackDimensions?
  {
  }

  /** One fragment keeps the working state valid and the stream id. */
  lemma FragmentStepValid(d: Demuxer, k: nat, chunk: seq<byte>, f: Fragment, size: nat,
                          display: DisplayOverride)
    requires f.dataStart + size <= |chunk| && ValidDemuxer(d) && f.timecode >= 0
    ensures ValidDemuxer(FragmentStep(d, k, chunk, f, size, display).0)
    ensures FragmentStep(d, k, chunk, f, size, display).0.info.id == d.info.id
  {
  }

  /** Once a fragment decodes and its size is known, the loop goes on
      after it. */
  lemma AssembleFromNext(d: Demuxer, k: nat, chunk: seq<byte>, p: nat, tc: int, display: DisplayOverride,
                         f: Fragment, size: nat)
    requires |chunk| > p + 2 && DecodeFragment(chunk, p, tc) == Some(f) && FragmentSize(f, |chunk|) == Some(size)
    ensures p < f.dataStart + size <= |chunk|
    ensures AssembleFrom(d, k, chunk, p, tc, display) == AssembleAfter(d, k, chunk, f, size, tc, display)
  {
  }

  /** Taking a fragment: its events come first, then those of the rest of
      the chunk, assembled from the updated state. */
  lemma AssembleAfterIs(d: Demuxer, k: nat, chunk: seq<byte>, tc: int, display: DisplayOverride,
                        f: Fragment, size: nat)
    requires f.dataStart + size <= |chunk|
    ensures var s := FragmentStep(d, k, chunk, f, size, display);
            AssembleAfter(d, k, chunk, f, size, tc, display) ==
            Prepend(s.1, AssembleFrom(s.0, k, chunk, f.dataStart + size, tc, display))
  {
  }

  /** Prefixing events changes neither success nor the final state. */
  lemma PrependKeeps(ev: seq<Event>, r: Option<(Demuxer, seq<Event>)>)
    ensures Prepend(ev, r).Some? == r.Some?
    ensures r.Some? ==> Prepend(ev, r).value.0 == r.value.0
  {
  }

  // ---------------------------------------------------------------------------
  // Plain audio: the one-chunk lookahead and the drain

  /** read's handling of a plain audio chunk: the chunk held so far goes to
      the packetizer with the gap to the new chunk as its duration and, for
      a non-key chunk, the timecode before it as backward reference; the
      new chunk is held in its place. */
  function LookaheadSpec(d: Demuxer, k: nat, chunk: seq<byte>, tc: int, key: bool): (Demuxer, seq<Event>)
  {
    var ev := if d.cData.Some? then
                [Process(k, d.cData.value, d.cTimecode, tc - d.cTimecode,
                         if d.keyframe then Unset else d.cRefTimecode)]
              else [];
    (d.(cData := Some(chunk), cRefTimecode := d.cTimecode, cTimecode := tc, keyframe := key,
        cNumPackets := d.cNumPackets + 1), ev)
  }

  /** One plain audio packet as the reader receives it. */
  datatype AudioPacket = AudioPacket(data: seq<byte>, timecode: nat, keyframe: bool)

  /** Successive chunks fed through the lookahead. */
  function Feed(d: Demuxer, k: nat, ps: seq<AudioPacket>): (Demuxer, seq<Event>)
    decreases |ps|
  {
    if ps == [] then (d, [])
    else
      var r := Feed(d, k, ps[..|ps| - 1]);
      var last := ps[|ps| - 1];
      var s := LookaheadSpec(r.0, k, last.data, last.timecode, last.keyframe);
      (s.0, r.1 + s.1)
  }

  /** The timecode before packet `i`: the demuxer's pending one for the
      first packet. */
  function PreviousTimecode(d: Demuxer, ps: seq<AudioPacket>, i: nat): int
    requires i < |ps|
  {
    if i == 0 then d.cTimecode else ps[i - 1].timecode
  }

  /** After n chunks the demuxer has counted them all and holds the last
      one, at its timecode and key flag, with the timecode before it as
      backward reference; the stream itself is untouched. */
  lemma {:induction false} FeedState(d: Demuxer, k: nat, ps: seq<AudioPacket>)
    ensures var r := Feed(d, k, ps).0;
            r.cNumPackets == d.cNumPackets + |ps| && r.info == d.info &&
            (ps == [] ==> r == d) &&
            (ps != [] ==> r.cData == Some(ps[|ps| - 1].data) && r.cTimecode == ps[|ps| - 1].timecode &&
                          r.keyframe == ps[|ps| - 1].keyframe &&
                          r.cRefTimecode == PreviousTimecode(d, ps, |ps| - 1))
    decreases |ps|
  {
    if ps != [] {
      FeedState(d, k, ps[..|ps| - 1]);
    }
  }

  /** Fed from a state holding nothing, n chunks produce exactly n - 1
      packetizer calls: the i-th carries chunk i, at its own timecode, for
      the gap to chunk i + 1, referring back to the timecode before it
      unless it is key; the last chunk is held. */
  lemma {:induction false} FeedHoldsBackOne(d: Demuxer, k: nat, ps: seq<AudioPacket>)
    requires d.cData.None?
    ensures var ev := Feed(d, k, ps).1;
            |ev| == (if ps == [] then 0 else |ps| - 1) &&
            forall i :: 0 <= i < |ev| ==>
              ev[i] == Process(k, ps[i].data, ps[i].timecode, ps[i + 1].timecode - ps[i].timecode,
                               if ps[i].keyframe then Unset else PreviousTimecode(d, ps, i))
    decreases |ps|
  {
    if ps != [] {
      var init := ps[..|ps| - 1];
      FeedHoldsBackOne(d, k, init);
      FeedState(d, k, init);
      var n := |ps|;
      if init != [] {
        assert PreviousTimecode(d, init, n - 2) == PreviousTimecode(d, ps, n - 2);
        forall i | 0 <= i < n - 2
          ensures PreviousTimecode(d, init, i) == PreviousTimecode(d, ps, i)
        {
        }
      }
    }
  }

  /** finish's drain of one demuxer: a held audio chunk goes out at its
      timecode plus the average gap (its timecode divided by the chunk
      count), with that gap as duration. */
  function HeldChunkEvent(d: Demuxer, k: nat): seq<Event>
    requires ValidDemuxer(d)
  {
    if d.info.kind == AudioTrack && d.cData.Some? then
      var dur := d.cTimecode / d.cNumPackets;
      [Process(k, d.cData.value, d.cTimecode + dur, dur, if d.keyframe then Unset else d.cRefTimecode)]
    else []
  }

  /** After n chunks of a fresh audio stream the drain emits the last one,
      at t + t / n for duration t / n where t is its timecode. */
  lemma DrainAfterFeed(d: Demuxer, k: nat, ps: seq<AudioPacket>)
    requires ValidDemuxer(d) && d.info.kind == AudioTrack && d.cData.None? && d.cNumPackets == 0
    requires ps != []
    ensures var r := Feed(d, k, ps).0;
            var t := ps[|ps| - 1].timecode;
            ValidDemuxer(r) &&
            HeldChunkEvent(r, k) == [Process(k, ps[|ps| - 1].data, t + t / |ps|, t / |ps|,
                                             if ps[|ps| - 1].keyframe then Unset
                                             else PreviousTimecode(d, ps, |ps| - 1))]
  {
    FeedState(d, k, ps);
  }

  /** The drain of the first n demuxers, in list order. */
  function FinishEvents(ds: seq<Demuxer>, n: nat): seq<Event>
    requires n <= |ds| && forall i :: 0 <= i < |ds| ==> ValidDemuxer(ds[i])
  {
    if n == 0 then [] else FinishEvents(ds, n - 1) + HeldChunkEvent(ds[n - 1], n - 1)
  }

  /** Only audio demuxers holding a chunk are drained, with that chunk. */
  lemma {:induction false} FinishEventsSound(ds: seq<Demuxer>, n: nat)
    requires n <= |ds| && forall i :: 0 <= i < |ds| ==> ValidDemuxer(ds[i])
    ensures forall e :: e in FinishEvents(ds, n) ==>
              e.Process? && e.stream < n && ds[e.stream].info.kind == AudioTrack &&
              ds[e.stream].cData == Some(e.data)
  {
    if n > 0 {
      FinishEventsSound(ds, n - 1);
    }
  }

  /** Packetizer calls whose streams strictly increase: each stream at most
      once, in list order. */
  predicate StreamsIncrease(ev: seq<Event>)
  {
    forall a, b :: 0 <= a < b < |ev| ==> ev[a].Process? && ev[b].Process? && ev[a].stream < ev[b].stream
  }

  /** The drain follows the list order, so no demuxer is drained twice. */
  lemma {:induction false} FinishEventsOrdered(ds: seq<Demuxer>, n: nat)
    requires n <= |ds| && forall i :: 0 <= i < |ds| ==> ValidDemuxer(ds[i])
    ensures StreamsIncrease(FinishEvents(ds, n))
  {
    if n > 0 {
      FinishEventsOrdered(ds, n - 1);
      FinishEventsSound(ds, n - 1);
      var prev := FinishEvents(ds, n - 1);
      var h := HeldChunkEvent(ds[n - 1], n - 1);
      var ev := prev + h;
      assert ev == FinishEvents(ds, n);
      forall a, b | 0 <= a < b < |ev|
        ensures ev[a].Process? && ev[b].Process? && ev[a].stream < ev[b].stream
      {
        assert ev[a] == prev[a] by {
          assert a < |prev|;
        }
        assert ev[a] in prev;
        if b >= |prev| {
          assert ev[b] == h[0];
          assert h[0].Process? && h[0].stream == n - 1;
          assert prev[a].stream < n - 1;
        } else {
          assert ev[b] == prev[b];
          assert StreamsIncrease(prev);
          assert prev[a].stream < prev[b].stream;
        }
      }
    }
  }

  /** Every audio demuxer holding a chunk is drained. */
  lemma {:induction false} FinishEventsComplete(ds: seq<Demuxer>, n: nat, i: nat)
    requires n <= |ds| && forall i :: 0 <= i < |ds| ==> ValidDemuxer(ds[i])
    requires i < n && ds[i].info.kind == AudioTrack && ds[i].cData.Some?
    ensures HeldChunkEvent(ds[i], i)[0] in FinishEvents(ds, n)
  {
    if i < n - 1 {
      FinishEventsComplete(ds, n - 1, i);
    }
  }

  // ---------------------------------------------------------------------------
  // AAC

  /** deliver_aac_frames: one packetizer call per sub-frame, with every
      other argument left at its default. */
  function AacEvents(k: nat, frames: seq<seq<byte>>): (r: seq<Event>)
    ensures |r| == |frames|
  {
    seq(|frames|, i requires 0 <= i < |frames| => Process(k, frames[i], Unset, Unset, Unset))
  }

  /** A consistent AAC chunk reaches the packetizer as n calls whose data,
      in order, is the chunk after its size table, the i-th of the i-th
      announced size. */
  lemma AacChunkDelivered(k: nat, chunk: seq<byte>)
    requires 2 <= |chunk|
    requires 2 + 2 * RealAac.SubFrameCount(chunk) <= |chunk|
    requires 2 + 2 * RealAac.SubFrameCount(chunk) +
             RealAac.Sum(RealAac.SubLengths(chunk, RealAac.SubFrameCount(chunk))) == |chunk|
    ensures var ev := AacEvents(k, RealAac.AacSubFrames(chunk));
            var n := RealAac.SubFrameCount(chunk);
            |ev| == n &&
            (forall i :: 0 <= i < n ==> ev[i].Process? && |ev[i].data| == U16Be(chunk, 2 + 2 * i)) &&
            Concat(seq(n, i requires 0 <= i < n => ev[i].data)) == chunk[2 + 2 * n..]
  {
    RealAac.AacSplitsChunk(chunk);
    var frames := RealAac.AacSubFrames(chunk);
    var n := RealAac.SubFrameCount(chunk);
    var ev := AacEvents(k, frames);
    assert seq(n, i requires 0 <= i < n => ev[i].data) == frames;
  }
}
