/** The RealMedia reader itself (real_reader_c in r_real.cpp): opening a
    file, creating the packetizers, reading one data packet per call and
    handing it to its stream, and draining the streams at the end. The
    packetizers are represented by the calls made on them (`Event`s). */
module RealReading {
  import opened Common
  import opened RealHeaders
  import opened RealFragments
  import opened RealDemuxer
  import opened RealPacketizers
  import opened RealAssembly
  import RealDimensions
  import RealAac

  /** What read returns: more data to come, or the file is done. Aborted
      stands for the reader dying on a malformed video packet. */
  datatype Status = MoreData | Finished | Aborted

  /** The reader's state: the file position, whether it is done, the packet
      counters of the current DATA object, the streams and the packetizer
      calls made so far. */
  datatype ReaderState = ReaderState(pos: nat, done: bool, numPackets: nat, numPacketsInChunk: nat,
                                     demuxers: seq<Demuxer>, out: seq<Event>)

  predicate ValidState(s: ReaderState)
  {
    forall i :: 0 <= i < |s.demuxers| ==> ValidDemuxer(s.demuxers[i])
  }

  /** finish: every held audio chunk is drained, the reader is done and the
      packetizers are flushed. */
  function FinishState(s: ReaderState): ReaderState
    requires ValidState(s)
  {
    s.(done := true, out := s.out + FinishEvents(s.demuxers, |s.demuxers|) + [FlushAll])
  }

  /** The 12-byte header of a data packet. */
  datatype PacketHeader = PacketHeader(version: nat, length: nat, id: nat, timecode: nat, flags: byte)

  /** The packet header at `pos`: version, length and stream id as 16-bit
      words, the timecode in milliseconds as a 32-bit word (kept in
      nanoseconds), a reserved byte and the flags; None past the end. */
  function ReadPacketHeader(file: seq<byte>, pos: nat): (r: Option<PacketHeader>)
    ensures r.Some? <==> pos + 12 <= |file|
    ensures r.Some? ==> r.value.timecode % 1_000_000 == 0 && r.value.timecode / 1_000_000 < TWO32 &&
                        r.value.length < 0x1_0000 && r.value.id < 0x1_0000
  {
    if pos + 12 > |file| then None
    else Some(PacketHeader(U16Be(file, pos), U16Be(file, pos + 2), U16Be(file, pos + 4),
                           U32Be(file, pos + 6) * 1_000_000, file[pos + 11]))
  }

  /** Bit 1 of the flags marks a key packet. */
  predicate IsKey(flags: byte)
  {
    (flags / 2) % 2 == 1
  }

  /** When the packets of the current DATA object are used up, another DATA
      object header must follow (12 bytes: id, size, packet count); an
      index or anything else ends the file. */
  function EnterChunk(file: seq<byte>, s: ReaderState): (r: Option<ReaderState>)
    requires s.pos + 12 <= |file|
  {
    if s.numPackets < s.numPacketsInChunk then Some(s)
    else if file[s.pos..s.pos + 4] == DATA then
      Some(s.(pos := s.pos + 12, numPackets := 0, numPacketsInChunk := U32Be(file, s.pos + 4)))
    else None
  }

  /** A packet's chunk handed to its stream: video is assembled from
      fragments, AAC is split into sub-frames, other audio goes through the
      one-chunk lookahead. */
  function DeliverPacket(d: Demuxer, k: nat, chunk: seq<byte>, h: PacketHeader,
                         display: DisplayOverride): Option<(Demuxer, seq<Event>)>
  {
    if d.info.kind == VideoTrack then AssembleSpec(d, k, chunk, h.timecode, IsKey(h.flags), display)
    else if d.isAac then Some((d, AacEvents(k, RealAac.AacSubFrames(chunk))))
    else Some(LookaheadSpec(d, k, chunk, h.timecode, IsKey(h.flags)))
  }

  /** read: one data packet. */
  function ReadStep(file: seq<byte>, settings: Settings, s: ReaderState): (ReaderState, Status)
    requires ValidState(s)
  {
    if s.done then (s, Finished)
    else if |file| - s.pos < 12 then (FinishState(s), Finished)
    else
      match EnterChunk(file, s)
      case None => (FinishState(s), Finished)
      case Some(s1) =>
        match ReadPacketHeader(file, s1.pos)
        case None => (FinishState(s1), Finished)
        case Some(h) => ReadBody(file, settings, s1, h)
  }

  /** read after the packet header: a length below 12 ends the file; a
      packet of an unknown stream is skipped; a short chunk ends the file;
      otherwise the packet is counted and delivered. */
  function ReadBody(file: seq<byte>, settings: Settings, s1: ReaderState, h: PacketHeader): (ReaderState, Status)
    requires ValidState(s1)
  {
    var body := s1.pos + 12;
    if h.length < 12 then (FinishState(s1), Finished)
    else
      match RealPacketizers.FindDemuxer(s1.demuxers, h.id)
      case None => (s1.(pos := s1.pos + h.length), MoreData)
      case Some(k) => PacketTaken(file, settings, s1, h, k)
  }

  /** A packet of the stream at `k`: a short chunk ends the file; otherwise
      the packet is counted and delivered. */
  function PacketTaken(file: seq<byte>, settings: Settings, s1: ReaderState, h: PacketHeader, k: nat): (ReaderState, Status)
    requires ValidState(s1) && k < |s1.demuxers| && 12 <= h.length
  {
    if s1.pos + h.length > |file| then (FinishState(s1), Finished)
    else
      TakeChunk(s1.(pos := s1.pos + h.length, numPackets := s1.numPackets + 1), k,
                PacketChunk(file, s1.pos, h.length), h, settings.display)
  }

  /** The counted packet's chunk handed to the stream at `k`. */
  function TakeChunk(s2: ReaderState, k: nat, chunk: seq<byte>, h: PacketHeader,
                     display: DisplayOverride): (ReaderState, Status)
    requires k < |s2.demuxers|
  {
    Delivered(s2, k, DeliverPacket(s2.demuxers[k], k, chunk, h, display))
  }

  /** The payload of the packet at `pos`: the `length` bytes of the packet
      after its 12-byte header. */
  function PacketChunk(file: seq<byte>, pos: nat, length: nat): (r: seq<byte>)
    requires 12 <= length && pos + length <= |file|
    ensures |r| == length - 12 && forall i :: 0 <= i < |r| ==> r[i] == file[pos + 12 + i]
  {
    file[pos + 12..pos + length]
  }

  lemma PacketTakenDelivers(file: seq<byte>, settings: Settings, s1: ReaderState, h: PacketHeader, k: nat)
    requires ValidState(s1) && k < |s1.demuxers| && 12 <= h.length && s1.pos + h.length <= |file|
    ensures PacketTaken(file, settings, s1, h, k).0 ==
            TakeChunk(s1.(pos := s1.pos + h.length, numPackets := s1.numPackets + 1), k,
                      PacketChunk(file, s1.pos, h.length), h, settings.display).0
    ensures PacketTaken(file, settings, s1, h, k).1 ==
            TakeChunk(s1.(pos := s1.pos + h.length, numPackets := s1.numPackets + 1), k,
                      PacketChunk(file, s1.pos, h.length), h, settings.display).1
  {
  }

  lemma PacketTakenShort(file: seq<byte>, settings: Settings, s1: ReaderState, h: PacketHeader, k: nat)
    requires ValidState(s1) && k < |s1.demuxers| && 12 <= h.length && s1.pos + h.length > |file|
    ensures PacketTaken(file, settings, s1, h, k) == (FinishState(s1), Finished)
  {
  }

  lemma TakeChunkIs(s: ReaderState, k: nat, chunk: seq<byte>, h: PacketHeader, display: DisplayOverride)
    requires k < |s.demuxers|
    ensures var r := DeliverPacket(s.demuxers[k], k, chunk, h, display);
            TakeChunk(s, k, chunk, h, display).1 == (if r.Some? then MoreData else Aborted) &&
            (r.Some? ==> TakeChunk(s, k, chunk, h, display).0 ==
                         s.(demuxers := s.demuxers[k := r.value.0], out := s.out + r.value.1))
  {
  }

  /** The reader after its stream has taken the packet, or the reader dying. */
  function Delivered(s: ReaderState, k: nat, r: Option<(Demuxer, seq<Event>)>): (ReaderState, Status)
    requires k < |s.demuxers|
  {
    match r
    case None => (s, Aborted)
    case Some((d, ev)) => (s.(demuxers := s.demuxers[k := d], out := s.out + ev), MoreData)
  }

  // ---------------------------------------------------------------------------
  // Properties of read

  /** Once done, read does nothing; a finished read leaves the reader done,
      and a read that wants more leaves it running. */
  lemma DoneIsFinal(file: seq<byte>, settings: Settings, s: ReaderState)
    requires ValidState(s)
    ensures s.done ==> ReadStep(file, settings, s) == (s, Finished)
    ensures ReadStep(file, settings, s).1 == Finished ==> ReadStep(file, settings, s).0.done
    ensures ReadStep(file, settings, s).1 == MoreData ==> !ReadStep(file, settings, s).0.done
  {
  }

  /** Fewer than 12 bytes left ends the file: the held audio chunks are
      drained and the packetizers flushed. */
  lemma ShortTailFinishes(file: seq<byte>, settings: Settings, s: ReaderState)
    requires ValidState(s) && !s.done && |file| - s.pos < 12
    ensures ReadStep(file, settings, s) ==
            (s.(done := true, out := s.out + FinishEvents(s.demuxers, |s.demuxers|) + [FlushAll]), Finished)
  {
  }

  /** With the packets of the DATA object used up, an INDX object ends the
      file. */
  lemma IndexEndsData(file: seq<byte>, settings: Settings, s: ReaderState)
    requires ValidState(s) && !s.done && s.pos + 12 <= |file| && s.numPackets >= s.numPacketsInChunk
    requires file[s.pos..s.pos + 4] == INDX
    ensures ReadStep(file, settings, s) == (FinishState(s), Finished)
  {
    assert INDX[0] != DATA[0];
  }

  /** A packet length below 12 ends the file. */
  lemma ShortPacketFinishes(file: seq<byte>, settings: Settings, s: ReaderState)
    requires ValidState(s) && !s.done && s.pos + 24 <= |file| && s.numPackets < s.numPacketsInChunk
    requires U16Be(file, s.pos + 2) < 12
    ensures ReadStep(file, settings, s) == (FinishState(s), Finished)
  {
  }

  /** A packet of a stream the reader does not know is skipped whole: the
      position moves past it and nothing else changes, not even the packet
      count. */
  lemma UnknownStreamSkipped(file: seq<byte>, settings: Settings, s: ReaderState)
    requires ValidState(s) && !s.done && s.pos + 12 <= |file| && s.numPackets < s.numPacketsInChunk
    requires U16Be(file, s.pos + 2) >= 12
    requires forall i :: 0 <= i < |s.demuxers| ==> s.demuxers[i].info.id != U16Be(file, s.pos + 4)
    ensures ReadStep(file, settings, s) == (s.(pos := s.pos + U16Be(file, s.pos + 2)), MoreData)
  {
  }

  /** A plain audio packet is held: its chunk, its timecode (milliseconds
      times 10^6) and its key flag (bit 1 of the flags) replace the held
      ones, and the packet is counted. */
  lemma AudioPacketHeld(file: seq<byte>, settings: Settings, s: ReaderState, k: nat)
    requires ValidState(s) && !s.done && s.pos + 12 <= |file| && s.numPackets < s.numPacketsInChunk
    requires var len := U16Be(file, s.pos + 2); 12 <= len && s.pos + len <= |file|
    requires RealPacketizers.FindDemuxer(s.demuxers, U16Be(file, s.pos + 4)) == Some(k)
    requires s.demuxers[k].info.kind == AudioTrack && !s.demuxers[k].isAac
    ensures var len := U16Be(file, s.pos + 2);
            var r := ReadStep(file, settings, s);
            var d := r.0.demuxers[k];
            r.1 == MoreData && r.0.pos == s.pos + len && r.0.numPackets == s.numPackets + 1 &&
            d.cData == Some(file[s.pos + 12..s.pos + len]) &&
            d.cTimecode == U32Be(file, s.pos + 6) * 1_000_000 &&
            d.cRefTimecode == s.demuxers[k].cTimecode &&
            d.keyframe == (file[s.pos + 11] % 4 >= 2) &&
            d.cNumPackets == s.demuxers[k].cNumPackets + 1
  {
    var h := ReadPacketHeader(file, s.pos).value;
    var chunk := PacketChunk(file, s.pos, h.length);
    assert chunk == file[s.pos + 12..s.pos + h.length];
    var s2 := s.(pos := s.pos + h.length, numPackets := s.numPackets + 1);
    PacketTakenDelivers(file, settings, s, h, k);
    TakeChunkIs(s2, k, chunk, h, settings.display);
    var r := ReadStep(file, settings, s);
    assert r.0 == PacketTaken(file, settings, s, h, k).0;
    assert r.1 == PacketTaken(file, settings, s, h, k).1;
    var l := LookaheadSpec(s.demuxers[k], k, chunk, h.timecode, IsKey(h.flags));
    assert r.0.demuxers[k] == l.0;
  }

  /** `r` follows `s`: the streams' working state is valid, the streams
      keep their ids, and packetizer calls were only appended. */
  predicate Extends(s: ReaderState, r: ReaderState)
  {
    ValidState(r) && |r.demuxers| == |s.demuxers| &&
    (forall i :: 0 <= i < |s.demuxers| ==> r.demuxers[i].info.id == s.demuxers[i].info.id) &&
    |s.out| <= |r.out| && r.out[..|s.out|] == s.out
  }

  /** read keeps the streams' working state valid, keeps their ids, and
      only ever appends packetizer calls. */
  lemma ReadStepValid(file: seq<byte>, settings: Settings, s: ReaderState)
    requires ValidState(s)
    ensures Extends(s, ReadStep(file, settings, s).0)
  {
    if s.done {
    } else if |file| - s.pos < 12 || EnterChunk(file, s).None? {
      FinishExtends(s);
    } else {
      var s1 := EnterChunk(file, s).value;
      if ReadPacketHeader(file, s1.pos).Some? {
        ReadBodyValid(file, settings, s1, ReadPacketHeader(file, s1.pos).value);
      } else {
        FinishExtends(s1);
      }
    }
  }

  lemma FinishExtends(s: ReaderState)
    requires ValidState(s)
    ensures Extends(s, FinishState(s))
  {
    var r := FinishState(s);
    assert r.out[..|s.out|] == s.out;
  }

  lemma ReadBodyValid(file: seq<byte>, settings: Settings, s1: ReaderState, h: PacketHeader)
    requires ValidState(s1)
    ensures Extends(s1, ReadBody(file, settings, s1, h).0)
  {
    if h.length < 12 {
      FinishExtends(s1);
    } else if RealPacketizers.FindDemuxer(s1.demuxers, h.id).Some? {
      PacketTakenExtends(file, settings, s1, h, RealPacketizers.FindDemuxer(s1.demuxers, h.id).value);
    }
  }

  lemma PacketTakenExtends(file: seq<byte>, settings: Settings, s1: ReaderState, h: PacketHeader, k: nat)
    requires ValidState(s1) && k < |s1.demuxers| && 12 <= h.length
    ensures Extends(s1, PacketTaken(file, settings, s1, h, k).0)
  {
    if s1.pos + h.length <= |file| {
      PacketTakenDelivers(file, settings, s1, h, k);
      var chunk := PacketChunk(file, s1.pos, h.length);
      var s2 := s1.(pos := s1.pos + h.length, numPackets := s1.numPackets + 1);
      var r := DeliverPacket(s2.demuxers[k], k, chunk, h, settings.display);
      TakeChunkIs(s2, k, chunk, h, settings.display);
      if r.Some? {
        DeliverPacketValid(s2.demuxers[k], k, chunk, h, settings.display);
        var t := TakeChunk(s2, k, chunk, h, settings.display).0;
        assert t.out[..|s1.out|] == s1.out;
      }
    } else {
      PacketTakenShort(file, settings, s1, h, k);
      FinishExtends(s1);
    }
  }

  lemma DeliverPacketValid(d: Demuxer, k: nat, chunk: seq<byte>, h: PacketHeader, display: DisplayOverride)
    requires ValidDemuxer(d) && DeliverPacket(d, k, chunk, h, display).Some?
    ensures ValidDemuxer(DeliverPacket(d, k, chunk, h, display).value.0)
    ensures DeliverPacket(d, k, chunk, h, display).value.0.info.id == d.info.id
  {
    if d.info.kind == VideoTrack {
      var key := IsKey(h.flags);
      var d0 := if d.segments == [] then d.(keyframe := key, merged := false) else d;
      var s1 := if h.timecode != d0.cTimecode then DeliverSpec(d0, k, d0.cTimecode) else (d0, []);
      AssembleFromValid(s1.0, k, chunk, 0, h.timecode, display);
    }
  }

  // ---------------------------------------------------------------------------
  // The reader object

  /** The AAC decision's scan of the user's SBR list. */
  method ListedAsSbrScan(aacIsSbr: seq<int>, id: nat) returns (listed: bool)
    ensures listed == ListedAsSbr(aacIsSbr, id)
  {
    listed := false;
    var i := 0;
    while i < |aacIsSbr|
      invariant 0 <= i <= |aacIsSbr|
      invariant listed <==> exists j :: 0 <= j < i && (aacIsSbr[j] == -1 || aacIsSbr[j] == id)
    {
      if aacIsSbr[i] == -1 || aacIsSbr[i] == id {
        listed := true;
      }
      i := i + 1;
    }
  }

  /** create_packetizer's AAC branch: parse the configuration when the
      corrected check finds it, fall back to the stream's parameters, then apply the SBR rules. */
  method DecideAac(info: StreamInfo, settings: Settings) returns (s: AacSetup)
    ensures s == AacDecision(info, settings.aacIsSbr, settings.parseAac)
  {
    var profile := -1;
    var outputRate := 0;
    var sbr := false;
    var channels := 0;
    var sampleRate := 0;
    var parsed := AacConfigPresent(info.extraData);
    if parsed {
      var p := settings.parseAac(AacConfigBytes(info.extraData));
      profile, channels, sampleRate, outputRate, sbr := p.profile, p.channels, p.sampleRate, p.outputRate, p.sbr;
      if sbr {
        profile := AacProfileSbr;
      }
    }
    if profile == -1 {
      channels := info.channels;
      sampleRate := info.sampleRate;
      if EqualsCaseBytes(info.fourcc, RACP) || info.sampleRate < 44100 {
        outputRate := 2 * info.sampleRate;
        sbr := true;
      }
    }
    var listed := ListedAsSbrScan(settings.aacIsSbr, info.id);
    if sbr || listed {
      profile := AacProfileSbr;
    }
    s := AacSetup(profile, sampleRate, channels, outputRate, parsed);
  }

  class RealReader {
    const file: seq<byte>
    const settings: Settings
    var pos: nat
    var done: bool
    var numPackets: nat
    var numPacketsInChunk: nat
    var demuxers: seq<Demuxer>
    var out: seq<Event>

    function State(): ReaderState
      reads this
    {
      ReaderState(pos, done, numPackets, numPacketsInChunk, demuxers, out)
    }

    /** The file position and the packet counters. */
    function Counters(): (nat, bool, nat, nat)
      reads this
    {
      (pos, done, numPackets, numPacketsInChunk)
    }

    predicate Valid()
      reads this
    {
      ValidState(State())
    }

    /** The reader after parse_headers: positioned at the first data packet
      with one stream per selected track. */
    constructor (file: seq<byte>, settings: Settings, h: Headers)
      ensures this.file == file && this.settings == settings
      ensures State() == ReaderState(h.dataPos, false, 0, h.numPacketsInChunk, NewDemuxers(h), [])
      ensures Valid()
    {
      this.file := file;
      this.settings := settings;
      pos := h.dataPos;
      done := false;
      numPackets := 0;
      numPacketsInChunk := h.numPacketsInChunk;
      demuxers := NewDemuxers(h);
      out := [];
    }

    /** find_demuxer */
    method FindDemuxer(id: int) returns (r: Option<nat>)
      ensures r == RealPacketizers.FindDemuxer(demuxers, id)
    {
      var i := 0;
      while i < |demuxers|
        invariant 0 <= i <= |demuxers| && forall j :: 0 <= j < i ==> demuxers[j].info.id != id
      {
        if demuxers[i].info.id == id {
          return Some(i);
        }
        i := i + 1;
      }
      return None;
    }

    /** finish */
    method Finish()
      requires Valid()
      modifies this
      ensures State() == FinishState(old(State()))
    {
      var i := 0;
      while i < |demuxers|
        invariant 0 <= i <= |demuxers| && demuxers == old(demuxers) && Counters() == old(Counters())
        invariant out == old(out) + FinishEvents(demuxers, i)
      {
        var d := demuxers[i];
        assert FinishEvents(demuxers, i + 1) == FinishEvents(demuxers, i) + HeldChunkEvent(d, i);
        if d.info.kind == AudioTrack && d.cData.Some? {
          var dur := d.cTimecode / d.cNumPackets;
          out := out + [Process(i, d.cData.value, d.cTimecode + dur, dur, if d.keyframe then Unset else d.cRefTimecode)];
        }
        i := i + 1;
      }
      done := true;
      out := out + [FlushAll];
    }

    /** deliver_segments */
    method DeliverSegments(k: nat, tc: int)
      requires k < |demuxers|
      modifies this
      ensures Counters() == old(Counters())
      ensures var r := DeliverSpec(old(demuxers[k]), k, tc);
              demuxers == old(demuxers)[k := r.0] && out == old(out) + r.1
    {
      var d := demuxers[k];
      if d.segments == [] {
        assert demuxers == demuxers[k := d];
        return;
      }
      var frame := BuildFrame(d.merged, d.segments);
      out := out + [Process(k, frame, tc, Unset, if d.keyframe then IFrame else PFrameAutomatic)];
      demuxers := demuxers[k := d.(segments := [])];
    }

    /** set_dimensions */
    method SetDimensions(k: nat, buf: seq<byte>)
      requires k < |demuxers|
      modifies this
      ensures Counters() == old(Counters())
      ensures var r := SetDimensionsSpec(old(demuxers[k]), k, buf, settings.display);
              demuxers == old(demuxers)[k := r.0] && out == old(out) + r.1
    {
      var d := demuxers[k];
      var ok, width, height := RealDimensions.GetRvDimensions(buf, d.info.width, d.info.height);
      if !ok {
        assert demuxers == demuxers[k := d];
        return;
      }
      if width != d.info.width || height != d.info.height {
        var dw, dh := d.info.width, d.info.height;
        if settings.display.DisplaySize? {
          dw, dh := settings.display.width, settings.display.height;
        }
        out := out + [TrackDimensions(k, width, height, dw, dh)];
      }
      demuxers := demuxers[k := d.(rvDimensions := true, info := d.info.(width := width, height := height))];
    }

    /** A fragment joins the pending list; its bytes are inspected for the
      frame size until that has been read. */
    method AppendFragment(k: nat, data: seq<byte>, f: Fragment)
      requires k < |demuxers|
      modifies this
      ensures Counters() == old(Counters())
      ensures var r := AddFragment(old(demuxers[k]), k, data, f, settings.display);
              demuxers == old(demuxers)[k := r.0] && out == old(out) + r.1
    {
      var d := demuxers[k];
      var d1 := d.(merged := d.merged || f.merged, segments := d.segments + [Segment(f.offset, data)],
                   cTimecode := f.timecode);
      demuxers := demuxers[k := d1];
      if !d1.rvDimensions {
        SetDimensions(k, data);
      } else {
        assert out == old(out) + [];
      }
    }

    /** One fragment of assemble_packet's loop: it joins the pending list
      and, when it completes the frame, the frame is delivered. */
    method TakeFragment(k: nat, chunk: seq<byte>, f: Fragment, size: nat)
      requires k < |demuxers| && f.dataStart + size <= |chunk|
      modifies this
      ensures Counters() == old(Counters())
      ensures var s2 := AddFragment(old(demuxers[k]), k, FragmentData(chunk, f, size), f, settings.display);
              var s3 := DeliverSpec(s2.0, k, f.timecode);
              if CompletesFrame(f, size) then
                demuxers == old(demuxers)[k := s3.0.(keyframe := false)] && out == old(out) + s2.1 + s3.1
              else
                demuxers == old(demuxers)[k := s2.0] && out == old(out) + s2.1
    {
      var data := FragmentData(chunk, f, size);
      ghost var ds0 := demuxers;
      ghost var s2 := AddFragment(demuxers[k], k, data, f, settings.display);
      AppendFragment(k, data, f);
      if CompletesFrame(f, size) {
        ghost var ds1 := demuxers;
        assert ds1[k] == s2.0;
        ghost var s3 := DeliverSpec(s2.0, k, f.timecode);
        DeliverSegments(k, f.timecode);
        UpdateTwice(ds0, k, s2.0, s3.0);
        assert demuxers == ds0[k := s3.0];
        demuxers := demuxers[k := demuxers[k].(keyframe := false)];
        UpdateTwice(ds0, k, s3.0, s3.0.(keyframe := false));
      }
    }

    /** assemble_packet's first steps: a packet that starts a frame sets the
      key flag and clears the merged flag; a new timecode delivers the
      pending fragments. */
    method StartPacket(k: nat, tc: int, key: bool)
      requires k < |demuxers|
      modifies this
      ensures Counters() == old(Counters())
      ensures var d := old(demuxers[k]);
              var d0 := if d.segments == [] then d.(keyframe := key, merged := false) else d;
              var r := if tc != d0.cTimecode then DeliverSpec(d0, k, d0.cTimecode) else (d0, []);
              demuxers == old(demuxers)[k := r.0] && out == old(out) + r.1
    {
      if demuxers[k].segments == [] {
        demuxers := demuxers[k := demuxers[k].(keyframe := key, merged := false)];
      }
      if tc != demuxers[k].cTimecode {
        DeliverSegments(k, demuxers[k].cTimecode);
      } else {
        assert out == old(out) + [];
      }
    }

    /** One pass of assemble_packet's loop: decode the fragment header at
      `p` and take the fragment; false when the header is malformed. */
    method AssembleStep(k: nat, chunk: seq<byte>, p: nat, tc: int) returns (ok: bool, next: nat)
      requires k < |demuxers| && |chunk| > p + 2
      modifies this
      ensures Counters() == old(Counters()) && |demuxers| == |old(demuxers)|
      ensures demuxers == old(demuxers)[k := demuxers[k]]
      ensures !ok ==> AssembleFrom(old(demuxers[k]), k, chunk, p, tc, settings.display).None?
      ensures ok ==> p < next &&
                     Prepend(out, AssembleFrom(demuxers[k], k, chunk, next, tc, settings.display)) ==
                     Prepend(old(out), AssembleFrom(old(demuxers[k]), k, chunk, p, tc, settings.display))
    {
      var f := DecodeFragment(chunk, p, tc);
      if f.None? {
        AssembleFromFails(demuxers[k], k, chunk, p, tc, settings.display);
        return false, p;
      }
      var size := FragmentSize(f.value, |chunk|);
      if size.None? {
        AssembleFromFails(demuxers[k], k, chunk, p, tc, settings.display);
        return false, p;
      }
      ghost var d := demuxers[k];
      next := f.value.dataStart + size.value;
      TakeFragment(k, chunk, f.value, size.value);
      ghost var s2 := AddFragment(d, k, FragmentData(chunk, f.value, size.value), f.value, settings.display);
      ghost var ev: seq<Event>;
      if CompletesFrame(f.value, size.value) {
        ghost var s3 := DeliverSpec(s2.0, k, f.value.timecode);
        ev := s2.1 + s3.1;
        AppendAssoc(old(out), s2.1, s3.1);
      } else {
        ev := s2.1;
      }
      ghost var rest := AssembleFrom(demuxers[k], k, chunk, next, tc, settings.display);
      assert AssembleFrom(d, k, chunk, p, tc, settings.display) == Prepend(ev, rest) by {
        AssembleFromTakes(d, k, chunk, p, tc, settings.display, f.value, size.value);
      }
      PrependTwice(old(out), ev, rest);
      ok := true;
    }

    /** assemble_packet's loop: fragments are taken while more than two
      bytes remain; false when a fragment header is malformed. */
    method AssembleFragments(k: nat, chunk: seq<byte>, tc: int) returns (ok: bool)
      requires k < |demuxers|
      modifies this
      ensures Counters() == old(Counters())
      ensures var r := AssembleFrom(old(demuxers[k]), k, chunk, 0, tc, settings.display);
              ok == r.Some? && (ok ==> demuxers == old(demuxers)[k := r.value.0] && out == old(out) + r.value.1)
    {
      ghost var goal := AssembleFrom(demuxers[k], k, chunk, 0, tc, settings.display);
      var p := 0;
      while |chunk| > p + 2
        invariant k < |demuxers| && demuxers == old(demuxers)[k := demuxers[k]] && Counters() == old(Counters())
        invariant Prepend(out, AssembleFrom(demuxers[k], k, chunk, p, tc, settings.display)) == Prepend(old(out), goal)
        decreases |chunk| - p
      {
        var stepOk;
        ghost var out1, r1 := out, AssembleFrom(demuxers[k], k, chunk, p, tc, settings.display);
        stepOk, p := AssembleStep(k, chunk, p, tc);
        if !stepOk {
          PrependSame(out1, r1, old(out), goal);
          return false;
        }
      }
      AssembleFromEnd(demuxers[k], k, chunk, p, tc, settings.display);
      PrependSame(out, Some((demuxers[k], [])), old(out), goal);
      return true;
    }

    /** assemble_packet; false when the reader dies on a malformed
      fragment header. */
    method AssemblePacket(k: nat, chunk: seq<byte>, tc: int, key: bool) returns (ok: bool)
      requires k < |demuxers|
      modifies this
      ensures Counters() == old(Counters())
      ensures var r := AssembleSpec(old(demuxers[k]), k, chunk, tc, key, settings.display);
              ok == r.Some? && (ok ==> demuxers == old(demuxers)[k := r.value.0] && out == old(out) + r.value.1)
    {
      ghost var d := demuxers[k];
      ghost var d0 := if d.segments == [] then d.(keyframe := key, merged := false) else d;
      ghost var s1 := if tc != d0.cTimecode then DeliverSpec(d0, k, d0.cTimecode) else (d0, []);
      assert AssembleSpec(d, k, chunk, tc, key, settings.display) ==
             Prepend(s1.1, AssembleFrom(s1.0, k, chunk, 0, tc, settings.display));
      StartPacket(k, tc, key);
      ghost var out1 := out;
      ok := AssembleFragments(k, chunk, tc);
      PrependTwice(old(out), s1.1, AssembleFrom(s1.0, k, chunk, 0, tc, settings.display));
    }

    /** deliver_aac_frames */
    method DeliverAacFrames(k: nat, chunk: seq<byte>)
      modifies this
      ensures Counters() == old(Counters()) && demuxers == old(demuxers)
      ensures out == old(out) + AacEvents(k, RealAac.AacSubFrames(chunk))
    {
      var frames := RealAac.SplitAacFrames(chunk);
      var i := 0;
      while i < |frames|
        invariant 0 <= i <= |frames| && Counters() == old(Counters()) && demuxers == old(demuxers)
        invariant out == old(out) + AacEvents(k, frames[..i])
      {
        assert AacEvents(k, frames[..i + 1]) == AacEvents(k, frames[..i]) + [Process(k, frames[i], Unset, Unset, Unset)];
        out := out + [Process(k, frames[i], Unset, Unset, Unset)];
        i := i + 1;
      }
      assert frames[..i] == frames;
    }

    /** read's plain audio branch: hand on the held chunk, hold the new one. */
    method Lookahead(k: nat, chunk: seq<byte>, tc: int, key: bool)
      requires k < |demuxers|
      modifies this
      ensures Counters() == old(Counters())
      ensures var r := LookaheadSpec(old(demuxers[k]), k, chunk, tc, key);
              demuxers == old(demuxers)[k := r.0] && out == old(out) + r.1
    {
      var d := demuxers[k];
      if d.cData.Some? {
        out := out + [Process(k, d.cData.value, d.cTimecode, tc - d.cTimecode,
                              if d.keyframe then Unset else d.cRefTimecode)];
      } else {
        assert out == old(out) + [];
      }
      demuxers := demuxers[k := d.(cData := Some(chunk), cRefTimecode := d.cTimecode, cTimecode := tc,
                                   keyframe := key, cNumPackets := d.cNumPackets + 1)];
    }

    /** A packet's chunk handed to its stream by type. */
    method DeliverChunk(k: nat, chunk: seq<byte>, h: PacketHeader) returns (ok: bool)
      requires k < |demuxers|
      modifies this
      ensures Counters() == old(Counters())
      ensures var r := DeliverPacket(old(demuxers[k]), k, chunk, h, settings.display);
              ok == r.Some? && (ok ==> demuxers == old(demuxers)[k := r.value.0] && out == old(out) + r.value.1)
    {
      var d := demuxers[k];
      if d.info.kind == VideoTrack {
        ok := AssemblePacket(k, chunk, h.timecode, IsKey(h.flags));
      } else if d.isAac {
        DeliverAacFrames(k, chunk);
        assert demuxers == old(demuxers)[k := d];
        ok := true;
      } else {
        Lookahead(k, chunk, h.timecode, IsKey(h.flags));
        ok := true;
      }
    }

    /** read */
    method Read() returns (status: Status)
      requires Valid()
      modifies this
      ensures status == ReadStep(file, settings, old(State())).1
      ensures status != Aborted ==> State() == ReadStep(file, settings, old(State())).0 && Valid()
    {
      ReadStepValid(file, settings, State());
      if done {
        return Finished;
      }
      if |file| - pos < 12 {
        Finish();
        return Finished;
      }
      if numPackets >= numPacketsInChunk {
        if file[pos..pos + 4] != DATA {
          Finish();
          return Finished;
        }
        numPacketsInChunk := U32Be(file, pos + 4);
        numPackets := 0;
        pos := pos + 12;
      }
      assert EnterChunk(file, old(State())) == Some(State());
      if pos + 12 > |file| {
        Finish();
        return Finished;
      }
      var h := ReadPacketHeader(file, pos).value;
      status := ReadPacket(h);
    }

    /** read after the packet header. */
    method ReadPacket(h: PacketHeader) returns (status: Status)
      requires Valid() && pos + 12 <= |file| && ReadPacketHeader(file, pos) == Some(h)
      modifies this
      ensures status == ReadBody(file, settings, old(State()), h).1
      ensures status != Aborted ==> State() == ReadBody(file, settings, old(State()), h).0
    {
      if h.length < 12 {
        Finish();
        return Finished;
      }
      var found := FindDemuxer(h.id);
      if found.None? {
        pos := pos + h.length;
        return MoreData;
      }
      status := TakePacket(h, found.value, State());
    }

    /** read once the stream is known: the chunk is read, the packet
      counted and the chunk delivered. */
    method TakePacket(h: PacketHeader, k: nat, ghost s1: ReaderState) returns (status: Status)
      requires Valid() && k < |demuxers| && 12 <= h.length && s1 == State()
      modifies this
      ensures status == PacketTaken(file, settings, s1, h, k).1
      ensures status != Aborted ==> State() == PacketTaken(file, settings, s1, h, k).0
    {
      var next := pos + h.length;
      if next > |file| {
        PacketTakenShort(file, settings, s1, h, k);
        Finish();
        return Finished;
      }
      var chunk := PacketChunk(file, pos, h.length);
      PacketTakenDelivers(file, settings, s1, h, k);
      pos := next;
      numPackets := numPackets + 1;
      ghost var s2 := State();
      TakeChunkIs(s2, k, chunk, h, settings.display);
      var ok := DeliverChunk(k, chunk, h);
      status := if ok then MoreData else Aborted;
    }

    /** create_packetizer for the demuxer at `k`, which has none yet. */
    method CreateAt(k: nat)
      requires k < |demuxers|
      modifies this
      ensures Counters() == old(Counters()) && out == old(out)
      ensures demuxers == old(demuxers)[k := CreateFor(old(demuxers[k]), settings)]
    {
      var d := demuxers[k];
      var info := d.info;
      if info.kind == VideoTrack {
        var codec := VideoCodec(VideoCodecId(info.fourcc), info.width, info.height);
        d := d.(packetizer := Some(Packetizer(codec, info.privateData, false)),
                rvDimensions := d.rvDimensions || info.fourcc != RV40, merged := false, segments := []);
      } else if info.fourcc == DNET {
        var codec := Ac3Codec(info.sampleRate, info.channels, Bsid(settings, info.id));
        d := d.(packetizer := Some(Packetizer(codec, info.privateData, false)));
      } else if EqualsCaseBytes(info.fourcc, RAAC) || EqualsCaseBytes(info.fourcc, RACP) {
        var s := DecideAac(info, settings);
        if s.profile != -1 && s.parsed {
          info := info.(channels := s.channels, sampleRate := s.sampleRate);
        }
        var rate := if s.profile == AacProfileSbr then Some(s.outputRate) else None;
        d := d.(info := info, isAac := true,
                packetizer := Some(Packetizer(AacCodec(s.profile, s.sampleRate, s.channels, rate), [], true)));
      } else {
        var codec := PassthroughCodec(AudioCodecId(info.fourcc), info.sampleRate, info.channels, info.bitsPerSample);
        d := d.(packetizer := Some(Packetizer(codec, info.privateData, false)));
      }
      demuxers := demuxers[k := d];
    }

    /** create_packetizer */
    method CreatePacketizer(tid: int)
      modifies this
      ensures Counters() == old(Counters()) && out == old(out)
      ensures demuxers == CreatePacketizerSpec(old(demuxers), tid, settings)
    {
      var found := FindDemuxer(tid);
      if found.None? || demuxers[found.value].packetizer.Some? {
        return;
      }
      CreateAt(found.value);
    }

    /** create_packetizers' loop over the track order. */
    method CreateInTrackOrder()
      modifies this
      ensures Counters() == old(Counters()) && out == old(out)
      ensures demuxers == CreateAllSpec(old(demuxers), settings.trackOrder, settings)
    {
      ghost var ds0 := demuxers;
      var order := settings.trackOrder;
      var i := 0;
      while i < |order|
        invariant 0 <= i <= |order| && Counters() == old(Counters()) && out == old(out)
        invariant demuxers == CreateAllSpec(ds0, order[..i], settings)
      {
        assert order[..i + 1][..i] == order[..i];
        assert CreateAllSpec(ds0, order[..i + 1], settings) ==
               CreatePacketizerSpec(CreateAllSpec(ds0, order[..i], settings), order[i], settings);
        CreatePacketizer(order[i]);
        i := i + 1;
      }
      assert order[..i] == order;
    }

    /** create_packetizers' loop over the demuxers' own ids. */
    method CreateForEveryDemuxer()
      modifies this
      ensures Counters() == old(Counters()) && out == old(out)
      ensures demuxers == CreateAllSpec(old(demuxers), DemuxerIds(old(demuxers)), settings)
    {
      ghost var ds1 := demuxers;
      ghost var ids := DemuxerIds(ds1);
      var j := 0;
      while j < |demuxers|
        invariant 0 <= j <= |demuxers| == |ds1| && Counters() == old(Counters()) && out == old(out)
        invariant demuxers == CreateAllSpec(ds1, ids[..j], settings)
      {
        var id := demuxers[j].info.id;
        CreateAllSnoc(ds1, ids, j, settings);
        CreatePacketizer(id);
        j := j + 1;
      }
      assert ids[..j] == ids;
    }

    /** create_packetizers: the track order first, then every demuxer. */
    method CreatePacketizers()
      modifies this
      ensures Counters() == old(Counters()) && out == old(out)
      ensures demuxers == CreateAllSpec(old(demuxers), settings.trackOrder + DemuxerIds(old(demuxers)), settings)
    {
      ghost var ds0 := demuxers;
      CreateInTrackOrder();
      ghost var ds1 := demuxers;
      assert DemuxerIds(ds1) == DemuxerIds(ds0);
      CreateForEveryDemuxer();
      CreateAllAppend(ds0, settings.trackOrder, DemuxerIds(ds0), settings);
    }

    /** set_headers' first loop: every flag cleared. */
    method ClearHeaderFlags()
      modifies this
      ensures Counters() == old(Counters()) && out == old(out)
      ensures demuxers == Flags(old(demuxers), [])
    {
      ghost var ds0 := demuxers;
      var i := 0;
      while i < |demuxers|
        invariant 0 <= i <= |demuxers| == |ds0| && out == old(out) && Counters() == old(Counters())
        invariant demuxers == Flags(ds0[..i], []) + ds0[i..]
      {
        FlagsSnoc(ds0, i);
        demuxers := demuxers[i := demuxers[i].(headersSet := false)];
        i := i + 1;
      }
      assert ds0[..i] == ds0;
    }

    /** set_headers' loop over the track order. */
    method HeadersInTrackOrder(ghost ds0: seq<Demuxer>) returns (ghost called: seq<nat>)
      requires demuxers == Flags(ds0, [])
      modifies this
      ensures Counters() == old(Counters())
      ensures called == OrderPass(ds0, settings.trackOrder, [])
      ensures demuxers == Flags(ds0, called)
      ensures out == old(out) + SetHeadersEvents(called)
    {
      called := [];
      var order := settings.trackOrder;
      var i := 0;
      while i < |order|
        invariant 0 <= i <= |order| && Counters() == old(Counters())
        invariant demuxers == Flags(ds0, called)
        invariant out == old(out) + SetHeadersEvents(called)
        invariant OrderPass(ds0, order[i..], called) == OrderPass(ds0, order, [])
      {
        FindDemuxerByIds(demuxers, ds0, order[i]);
        var found := FindDemuxer(order[i]);
        if found.Some? && demuxers[found.value].packetizer.Some? && !demuxers[found.value].headersSet {
          var k := found.value;
          SetHeadersEventsSnoc(called, k);
          FlagsAdd(ds0, called, k);
          out := out + [Event.SetHeaders(k)];
          demuxers := demuxers[k := demuxers[k].(headersSet := true)];
          called := called + [k];
        }
        assert order[i..][1..] == order[i + 1..];
        i := i + 1;
      }
    }

    /** set_headers' loop over the remaining demuxers. */
    method HeadersOfTheRest(ghost ds0: seq<Demuxer>, ghost called: seq<nat>) returns (ghost all: seq<nat>)
      requires demuxers == Flags(ds0, called)
      modifies this
      ensures Counters() == old(Counters())
      ensures all == RestPass(ds0, 0, called) && |called| <= |all| && all[..|called|] == called
      ensures demuxers == Flags(ds0, all)
      ensures out == old(out) + SetHeadersEvents(all[|called|..])
    {
      all := called;
      var i := 0;
      while i < |demuxers|
        invariant 0 <= i <= |demuxers| == |ds0| && Counters() == old(Counters())
        invariant demuxers == Flags(ds0, all)
        invariant |called| <= |all| && all[..|called|] == called
        invariant out == old(out) + SetHeadersEvents(all[|called|..])
        invariant RestPass(ds0, i, all) == RestPass(ds0, 0, called)
      {
        if demuxers[i].packetizer.Some? && !demuxers[i].headersSet {
          assert (all + [i])[|called|..] == all[|called|..] + [i];
          SetHeadersEventsSnoc(all[|called|..], i);
          FlagsAdd(ds0, all, i);
          out := out + [Event.SetHeaders(i)];
          demuxers := demuxers[i := demuxers[i].(headersSet := true)];
          all := all + [i];
        }
        i := i + 1;
      }
    }

    /** set_headers: every flag cleared; then the packetizers of the track
      order, then the others, each once. */
    method SetHeaders()
      modifies this
      ensures Counters() == old(Counters()) && |demuxers| == |old(demuxers)|
      ensures forall j :: 0 <= j < |demuxers| ==>
                demuxers[j] == old(demuxers[j]).(headersSet := old(demuxers[j]).packetizer.Some?)
      ensures out == old(out) + SetHeadersEvents(HeadersOrder(old(demuxers), settings.trackOrder))
    {
      ghost var ds0 := demuxers;
      ClearHeaderFlags();
      ghost var out1 := out;
      ghost var called := HeadersInTrackOrder(ds0);
      ghost var all := HeadersOfTheRest(ds0, called);
      HeadersOnce(ds0, settings.trackOrder);
      FlagAll(ds0, all);
      assert all == HeadersOrder(ds0, settings.trackOrder);
      SetHeadersEventsSplit(all, |called|);
      ghost var first := SetHeadersEvents(called);
      ghost var rest := SetHeadersEvents(all[|called|..]);
      assert first + rest == SetHeadersEvents(all);
      assert out == (out1 + first) + rest;
      AppendAssoc(out1, first, rest);
    }
  }

  /** The demuxers with each flag telling whether set_headers has called
      that demuxer's packetizer. */
  function Flags(ds: seq<Demuxer>, called: seq<nat>): (r: seq<Demuxer>)
    ensures |r| == |ds| && forall j :: 0 <= j < |ds| ==> r[j] == ds[j].(headersSet := j in called)
  {
    seq(|ds|, j requires 0 <= j < |ds| => ds[j].(headersSet := j in called))
  }

  lemma FlagsSnoc(ds: seq<Demuxer>, i: nat)
    requires i < |ds|
    ensures (Flags(ds[..i], []) + ds[i..])[i := ds[i].(headersSet := false)] == Flags(ds[..i + 1], []) + ds[i + 1..]
  {
  }

  /** Calling the packetizer at `k` sets its flag and no other. */
  lemma FlagsAdd(ds: seq<Demuxer>, called: seq<nat>, k: nat)
    requires k < |ds|
    ensures Flags(ds, called)[k := Flags(ds, called)[k].(headersSet := true)] == Flags(ds, called + [k])
  {
  }

  /** After set_headers has called every packetizer, each flag says whether
      the demuxer has one. */
  lemma FlagAll(ds: seq<Demuxer>, all: seq<nat>)
    requires forall k :: k in all <==> 0 <= k < |ds| && ds[k].packetizer.Some?
    ensures forall j :: 0 <= j < |ds| ==> Flags(ds, all)[j] == ds[j].(headersSet := ds[j].packetizer.Some?)
  {
  }

  lemma SetHeadersEventsSnoc(ks: seq<nat>, k: nat)
    ensures SetHeadersEvents(ks + [k]) == SetHeadersEvents(ks) + [Event.SetHeaders(k)]
  {
  }

  lemma SetHeadersEventsSplit(ks: seq<nat>, n: nat)
    requires n <= |ks|
    ensures SetHeadersEvents(ks[..n]) + SetHeadersEvents(ks[n..]) == SetHeadersEvents(ks)
  {
  }

  /** Creating for `a` and then for `b` is creating for `a + b`. */
  lemma {:induction false} CreateAllAppend(ds: seq<Demuxer>, a: seq<int>, b: seq<int>, settings: Settings)
    ensures CreateAllSpec(CreateAllSpec(ds, a, settings), b, settings) == CreateAllSpec(ds, a + b, settings)
    decreases |b|
  {
    if b == [] {
      assert a + b == a;
    } else {
      var init := b[..|b| - 1];
      CreateAllAppend(ds, a, init, settings);
      assert (a + b)[..|a + b| - 1] == a + init;
      assert (a + b)[|a + b| - 1] == b[|b| - 1];
    }
  }

  lemma CreateAllSnoc(ds: seq<Demuxer>, ids: seq<int>, n: nat, settings: Settings)
    requires n < |ids|
    ensures CreateAllSpec(ds, ids[..n + 1], settings) ==
            CreatePacketizerSpec(CreateAllSpec(ds, ids[..n], settings), ids[n], settings)
  {
    assert ids[..n + 1][..n] == ids[..n];
  }

  /** Creating packetizers keeps the streams' working state valid. */
  lemma {:induction false} CreateAllValid(ds: seq<Demuxer>, ids: seq<int>, settings: Settings)
    requires forall i :: 0 <= i < |ds| ==> ValidDemuxer(ds[i])
    ensures forall i :: 0 <= i < |ds| ==> ValidDemuxer(CreateAllSpec(ds, ids, settings)[i])
    decreases |ids|
  {
    if ids != [] {
      CreateAllValid(ds, ids[..|ids| - 1], settings);
    }
  }

  lemma AssembleFromEnd(d: Demuxer, k: nat, chunk: seq<byte>, p: nat, tc: int, display: DisplayOverride)
    requires |chunk| <= p + 2
    ensures AssembleFrom(d, k, chunk, p, tc, display) == Some((d, []))
  {
  }

  lemma AssembleFromFails(d: Demuxer, k: nat, chunk: seq<byte>, p: nat, tc: int, display: DisplayOverride)
    requires |chunk| > p + 2
    requires DecodeFragment(chunk, p, tc).None? ||
             FragmentSize(DecodeFragment(chunk, p, tc).value, |chunk|).None?
    ensures AssembleFrom(d, k, chunk, p, tc, display).None?
  {
  }

  /** Equal outcomes after different prefixes agree on success and on the
      demuxer, and their full event lists coincide. */
  lemma PrependSame(a: seq<Event>, r: Option<(Demuxer, seq<Event>)>, b: seq<Event>, g: Option<(Demuxer, seq<Event>)>)
    requires Prepend(a, r) == Prepend(b, g)
    ensures r.Some? == g.Some?
    ensures r.Some? ==> r.value.0 == g.value.0 && a + r.value.1 == b + g.value.1
  {
  }

  lemma PrependTwice(a: seq<Event>, b: seq<Event>, r: Option<(Demuxer, seq<Event>)>)
    ensures Prepend(a, Prepend(b, r)) == Prepend(a + b, r)
  {
    if r.Some? {
      assert a + (b + r.value.1) == (a + b) + r.value.1;
    }
  }

  /** The streams parse_headers leaves, before any packetizer exists. */
  function NewDemuxers(h: Headers): (ds: seq<Demuxer>)
    ensures |ds| == |h.streams| && forall i :: 0 <= i < |ds| ==> ds[i] == NewDemuxer(h.streams[i])
  {
    seq(|h.streams|, i requires 0 <= i < |h.streams| => NewDemuxer(h.streams[i]))
  }

  /** Opening a file: it must start with the ".RMF" signature (any case);
      the header objects are parsed, reading starts at the first data
      packet, and create_packetizers runs over the parsed streams, so every
      stream that find_demuxer returns for its id has a packetizer. */
  method Open(file: seq<byte>, wanted: Selection, settings: Settings) returns (r: Result<RealReader>)
    ensures r.Ok? <==> ProbeFile(file) && ParseHeadersSpec(file, wanted).Ok?
    ensures r.Ok? ==> fresh(r.value) && r.value.Valid() && r.value.file == file && !r.value.done &&
                      r.value.out == [] && |r.value.demuxers| == |ParseHeadersSpec(file, wanted).value.streams|
    ensures r.Ok? ==>
              var h := ParseHeadersSpec(file, wanted).value;
              var ds := NewDemuxers(h);
              r.value.settings == settings && r.value.pos == h.dataPos && r.value.numPackets == 0 &&
              r.value.demuxers == CreateAllSpec(ds, settings.trackOrder + DemuxerIds(ds), settings) &&
              forall k :: 0 <= k < |ds| && FindDemuxer(ds, ds[k].info.id) == Some(k) ==>
                r.value.demuxers[k].packetizer.Some?
  {
    if !ProbeFile(file) {
      return Err("not a valid RealMedia file");
    }
    var h := ParseHeaders(file, wanted);
    if h.Err? {
      return Err(h.msg);
    }
    var reader := new RealReader(file, settings, h.value);
    ghost var ds0 := reader.demuxers;
    reader.CreatePacketizers();
    CreateAllValid(ds0, settings.trackOrder + DemuxerIds(ds0), settings);
    forall k | 0 <= k < |ds0| && FindDemuxer(ds0, ds0[k].info.id) == Some(k)
      ensures reader.demuxers[k].packetizer.Some?
    {
      CreatePacketizersCoverAll(ds0, settings, k);
    }
    return Ok(reader);
  }
}
