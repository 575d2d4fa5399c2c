/** The VC-1 video packetizer (vc1_video_packetizer_c, p_vc1.cpp): it feeds
    the bytes it receives to the VC-1 elementary stream parser, captures the
    sequence header and entry point once, builds the codec private data (a
    BITMAPINFOHEADER followed by the raw headers) and hands every frame the
    parser completes on, with its backward reference. */
module Vc1 {
  import opened Common

  // ---------------------------------------------------------------------------
  // What the packetizer sees of the elementary stream parser

  /** The fields of a VC-1 sequence header the packetizer uses. */
  datatype SequenceHeader = SequenceHeader(pixelWidth: int, pixelHeight: int, displayInfo: bool,
                                           displayWidth: int, displayHeight: int)

  /** The sequence header before the stream's own is known: a dummy 123x123
      picture. */
  const DummyHeader: SequenceHeader := SequenceHeader(123, 123, false, 0, 0)

  /** A frame the parser has completed. */
  datatype Frame = Frame(data: seq<byte>, timecode: int, duration: int, isI: bool, hasSeqhdr: bool)

  /** The headers the parser has found: the decoded sequence header and the
      raw bytes of the sequence header and of the entry point. */
  datatype EsHeaders = EsHeaders(seqhdr: SequenceHeader, rawSeqhdr: seq<byte>, rawEntrypoint: seq<byte>)

  /** vc1::es_parser_c as the packetizer uses it: the timecodes handed to it,
      the queue of completed frames, the headers once available, and its
      default frame duration. How it splits bytes into frames is not part of
      this model: the packetizer's methods take it as a parameter. */
  datatype EsParser = EsParser(timecodes: seq<int>, frames: seq<Frame>, headers: Option<EsHeaders>,
                               defaultDuration: int)

  /** A packet handed to the packetizer: its data and timecode, -1 when the
      reader has none. */
  datatype InputPacket = InputPacket(data: seq<byte>, timecode: int)

  /** A packet the packetizer hands on (add_packet): data, timecode, duration
      and backward reference, -1 for none. */
  datatype Packet = Packet(data: seq<byte>, timecode: int, duration: int, bref: int)

  /** Which frames get cue points. */
  datatype CueStrategy = CuesUnspecified | CuesNone | CuesIFrames | CuesAll | CuesSparse

  /** What process() reports to the reader. */
  datatype FileStatus = MoreData | Holding | Done

  /** The codec ID of VfW-compatible video tracks. */
  const CodecIdMsComp: string := "V_MS/VFW/FOURCC"

  /** 1001/30000 s in nanoseconds, truncated: the default frame duration when
      no sequence header was found. */
  const NtscFrameDuration: int := 1000000000 * 1001 / 30000

  // ---------------------------------------------------------------------------
  // The codec private data (set_headers)

  /** sizeof(BITMAPINFOHEADER) */
  const BitmapInfoHeaderSize: nat := 40

  /** The FourCC "WVC1". */
  const Wvc1: seq<byte> := [0x57, 0x56, 0x43, 0x31]

  /** The size of the codec private data: the BITMAPINFOHEADER, then one zero
      byte and the raw headers when there are any. */
  function PrivateSize(raw: Option<seq<byte>>): nat
  {
    BitmapInfoHeaderSize + (if raw.Some? then |raw.value| + 1 else 0)
  }

  /** `n` zero bytes. */
  function Zeros(n: nat): (r: seq<byte>)
    ensures |r| == n && forall i :: 0 <= i < n ==> r[i] == 0
  {
    seq(n, _ => 0)
  }

  /** The BITMAPINFOHEADER set_headers lays out, field by field in offset
      order: size, width, height, 1 plane, 24 bits per pixel, the FourCC
      "WVC1", the image size (width x height x 3 in uint32 arithmetic),
      1 pixel per meter both ways, and zero colours used and important. */
  function BitmapInfoHeader(size: int, width: int, height: int): (r: seq<byte>)
    ensures |r| == BitmapInfoHeaderSize
  {
    U32LeBytes(size) + U32LeBytes(width) + U32LeBytes(height) + U16LeBytes(1) + U16LeBytes(24) +
    Wvc1 + U32LeBytes(U32(width) * U32(height) * 3) + U32LeBytes(1) + U32LeBytes(1) + Zeros(8)
  }

  /** The codec private data: the BITMAPINFOHEADER, then, when there are raw
      headers, one zero byte and the raw headers. */
  function CodecPrivate(h: SequenceHeader, raw: Option<seq<byte>>): (r: seq<byte>)
    ensures |r| == PrivateSize(raw)
  {
    BitmapInfoHeader(PrivateSize(raw), h.pixelWidth, h.pixelHeight) + (if raw.Some? then [0] + raw.value else [])
  }

  /** get_uint32_le right after put_uint32_le reads the value modulo 2^32. */
  lemma ReadBack(s: seq<byte>, p: nat, x: int)
    requires p + 4 <= |s| && s[p..p + 4] == U32LeBytes(x)
    ensures U32Le(s, p) == U32(x)
  {
    U32LeRoundTrip(x);
    U32LeIn(s, p, U32LeBytes(x), 0);
  }

  /** The size, width and height read back as written. */
  lemma DimensionFields(size: int, width: int, height: int)
    ensures var r := BitmapInfoHeader(size, width, height);
            U32Le(r, 0) == U32(size) && U32Le(r, 4) == U32(width) && U32Le(r, 8) == U32(height)
  {
    var r := BitmapInfoHeader(size, width, height);
    assert r[0..4] == U32LeBytes(size);
    assert r[4..8] == U32LeBytes(width);
    assert r[8..12] == U32LeBytes(height);
    ReadBack(r, 0, size);
    ReadBack(r, 4, width);
    ReadBack(r, 8, height);
  }

  /** One plane, 24 bits per pixel, the FourCC. */
  lemma FormatFields(size: int, width: int, height: int)
    ensures var r := BitmapInfoHeader(size, width, height);
            U16Le(r, 12) == 1 && U16Le(r, 14) == 24 && r[16..20] == Wvc1
  {
    var r := BitmapInfoHeader(size, width, height);
    assert r[12..14] == U16LeBytes(1) && r[14..16] == U16LeBytes(24) && r[16..20] == Wvc1;
  }

  /** The image size reads back as width x height x 3 in uint32 arithmetic. */
  lemma ImageField(size: int, width: int, height: int)
    ensures var r := BitmapInfoHeader(size, width, height);
            U32Le(r, 20) == U32(width) * U32(height) * 3 % TWO32
  {
    var r := BitmapInfoHeader(size, width, height);
    var img := U32(width) * U32(height) * 3;
    assert r[20..24] == U32LeBytes(img);
    ReadBack(r, 20, img);
  }

  /** 1 pixel per meter both ways, no colour table. */
  lemma TailFields(size: int, width: int, height: int)
    ensures var r := BitmapInfoHeader(size, width, height);
            U32Le(r, 24) == 1 && U32Le(r, 28) == 1 && U32Le(r, 32) == 0 && U32Le(r, 36) == 0
  {
    var r := BitmapInfoHeader(size, width, height);
    assert r[24..28] == U32LeBytes(1) && r[28..32] == U32LeBytes(1);
    ReadBack(r, 24, 1);
    ReadBack(r, 28, 1);
  }

  /** The fields of a header at the start of a buffer read as the header's. */
  lemma HeaderInPrefix(r: seq<byte>, hdr: seq<byte>)
    requires |hdr| == BitmapInfoHeaderSize && |hdr| <= |r| && r[..40] == hdr
    ensures U32Le(r, 0) == U32Le(hdr, 0) && U32Le(r, 4) == U32Le(hdr, 4) && U32Le(r, 8) == U32Le(hdr, 8)
    ensures U16Le(r, 12) == U16Le(hdr, 12) && U16Le(r, 14) == U16Le(hdr, 14) && r[16..20] == hdr[16..20]
    ensures U32Le(r, 20) == U32Le(hdr, 20) && U32Le(r, 24) == U32Le(hdr, 24) && U32Le(r, 28) == U32Le(hdr, 28)
    ensures U32Le(r, 32) == U32Le(hdr, 32) && U32Le(r, 36) == U32Le(hdr, 36)
  {
    assert forall i :: 0 <= i < 40 ==> r[i] == hdr[i];
  }

  /** Reading the codec private data back: the size field holds the whole
      length, every other BITMAPINFOHEADER field holds what set_headers put
      there, and the raw headers follow one zero byte. */
  lemma CodecPrivateFields(h: SequenceHeader, raw: Option<seq<byte>>)
    ensures var r := CodecPrivate(h, raw);
            U32Le(r, 0) == U32(|r|) && U32Le(r, 4) == U32(h.pixelWidth) && U32Le(r, 8) == U32(h.pixelHeight) &&
            U16Le(r, 12) == 1 && U16Le(r, 14) == 24 && r[16..20] == Wvc1 &&
            U32Le(r, 20) == U32(h.pixelWidth * h.pixelHeight * 3) &&
            U32Le(r, 24) == 1 && U32Le(r, 28) == 1 && U32Le(r, 32) == 0 && U32Le(r, 36) == 0
    ensures var r := CodecPrivate(h, raw);
            raw.None? ==> |r| == BitmapInfoHeaderSize
    ensures var r := CodecPrivate(h, raw);
            raw.Some? ==> |r| == BitmapInfoHeaderSize + 1 + |raw.value| && r[40] == 0 && r[41..] == raw.value
  {
    var size := PrivateSize(raw);
    var w, hh := h.pixelWidth, h.pixelHeight;
    DimensionFields(size, w, hh);
    FormatFields(size, w, hh);
    ImageField(size, w, hh);
    TailFields(size, w, hh);
    SizeImageWraps(w, hh);
    HeaderInPrefix(CodecPrivate(h, raw), BitmapInfoHeader(size, w, hh));
  }

  /** The stored image size is width x height x 3 modulo 2^32. */
  lemma SizeImageWraps(width: int, height: int)
    ensures U32(U32(width) * U32(height) * 3) == U32(width * height * 3)
  {
    var y3, x3 := U32(height) * 3, width * 3;
    U32Mul(width, y3);
    U32Mul(height, x3);
    Rearrange(U32(width), U32(height), 3);
    Rearrange(width, U32(height), 3);
    Rearrange(height, width, 3);
  }

  /** x * y * c regrouped both ways. */
  lemma Rearrange(x: int, y: int, c: int)
    ensures x * y * c == x * (y * c) && x * (y * c) == y * (x * c) && y * (x * c) == x * y * c
  {
  }

  /** Without a sequence header the codec private data is the bare
      BITMAPINFOHEADER of a 123x123 picture. */
  lemma DummyCodecPrivate()
    ensures var r := CodecPrivate(DummyHeader, None);
            |r| == 40 && U32Le(r, 0) == 40 && U32Le(r, 4) == 123 && U32Le(r, 8) == 123 &&
            U32Le(r, 20) == 45387
  {
    CodecPrivateFields(DummyHeader, None);
  }

  /** Writing `b` right after the part already written, into zeros, extends
      the written part by `b` and leaves zeros after it. */
  lemma WriteAfter(s: seq<byte>, done: seq<byte>, b: seq<byte>, n: nat, t: seq<byte>)
    requires s == done + Zeros(n) && |b| <= n && t == s[..|done|] + b + s[|done| + |b|..]
    ensures t == (done + b) + Zeros(n - |b|)
  {
    assert s[..|done|] == done;
    assert s[|done| + |b|..] == Zeros(n - |b|);
  }

  lemma ZerosSplit(n: nat, k: nat)
    requires k <= n
    ensures Zeros(n) == Zeros(k) + Zeros(n - k)
  {
  }

  /** The raw headers copied one byte after the header, into zeros. */
  lemma RawAfterHeader(s: seq<byte>, header: seq<byte>, raw: seq<byte>, t: seq<byte>)
    requires |header| == 40 && s == header + Zeros(|raw| + 1)
    requires t == s[..41] + raw + s[41 + |raw|..]
    ensures t == header + [0] + raw
  {
    assert s[..41] == header + [0];
    assert s[41 + |raw|..] == [];
  }

  /** Writes `b` at `p`, right after the part `done` of the zero-filled
      buffer already written. */
  method WriteNext(buf: array<byte>, p: nat, ghost done: seq<byte>, b: seq<byte>)
    requires p == |done| && |done| + |b| <= buf.Length && buf[..] == done + Zeros(buf.Length - |done|)
    modifies buf
    ensures buf[..] == (done + b) + Zeros(buf.Length - |done| - |b|)
  {
    ghost var before := buf[..];
    PutBytes(buf, p, b);
    WriteAfter(before, done, b, buf.Length - |done|, buf[..]);
  }

  /** put_uint32_le of the size, the width and the height. */
  method WriteDimensions(buf: array<byte>, size: int, width: int, height: int)
    requires 40 <= buf.Length && buf[..] == Zeros(buf.Length)
    modifies buf
    ensures buf[..] == (U32LeBytes(size) + U32LeBytes(width) + U32LeBytes(height)) + Zeros(buf.Length - 12)
  {
    assert buf[..] == [] + Zeros(buf.Length);
    WriteNext(buf, 0, [], U32LeBytes(size));
    assert [] + U32LeBytes(size) == U32LeBytes(size);
    WriteNext(buf, 4, U32LeBytes(size), U32LeBytes(width));
    WriteNext(buf, 8, U32LeBytes(size) + U32LeBytes(width), U32LeBytes(height));
  }

  /** put_uint16_le of the planes and the bit count, and the FourCC. */
  method WriteFormat(buf: array<byte>, ghost done: seq<byte>)
    requires |done| == 12 && 40 <= buf.Length && buf[..] == done + Zeros(buf.Length - 12)
    modifies buf
    ensures buf[..] == (done + U16LeBytes(1) + U16LeBytes(24) + Wvc1) + Zeros(buf.Length - 20)
  {
    WriteNext(buf, 12, done, U16LeBytes(1));
    WriteNext(buf, 14, done + U16LeBytes(1), U16LeBytes(24));
    WriteNext(buf, 16, done + U16LeBytes(1) + U16LeBytes(24), Wvc1);
  }

  /** put_uint32_le of the image size, from the width and height read back
      from the buffer with get_uint32_le, and of the pixels per meter. */
  method WriteImage(buf: array<byte>, ghost done: seq<byte>, ghost width: int, ghost height: int)
    requires |done| == 20 && 40 <= buf.Length && buf[..] == done + Zeros(buf.Length - 20)
    requires done[4..8] == U32LeBytes(width) && done[8..12] == U32LeBytes(height)
    modifies buf
    ensures buf[..] == (done + U32LeBytes(U32(width) * U32(height) * 3) + U32LeBytes(1) + U32LeBytes(1)) +
                       Zeros(buf.Length - 32)
  {
    assert buf[..][4..8] == U32LeBytes(width) && buf[..][8..12] == U32LeBytes(height);
    ReadBack(buf[..], 4, width);
    ReadBack(buf[..], 8, height);
    var img := U32Le(buf[..], 4) * U32Le(buf[..], 8) * 3;
    WriteNext(buf, 20, done, U32LeBytes(img));
    WriteNext(buf, 24, done + U32LeBytes(img), U32LeBytes(1));
    WriteNext(buf, 28, done + U32LeBytes(img) + U32LeBytes(1), U32LeBytes(1));
  }

  /** set_headers' buffer: zero-filled, then the BITMAPINFOHEADER fields
      and the raw headers one byte after the header. The fields do not
      overlap, so writing them in offset order gives the buffer the
      source's order gives. */
  method BuildCodecPrivate(h: SequenceHeader, raw: Option<seq<byte>>) returns (buf: array<byte>)
    ensures buf[..] == CodecPrivate(h, raw)
  {
    var size := PrivateSize(raw);
    var w, hh := h.pixelWidth, h.pixelHeight;
    buf := new byte[size](_ => 0);
    WriteDimensions(buf, size, w, hh);
    ghost var d3 := U32LeBytes(size) + U32LeBytes(w) + U32LeBytes(hh);
    WriteFormat(buf, d3);
    ghost var d6 := d3 + U16LeBytes(1) + U16LeBytes(24) + Wvc1;
    assert d6[4..8] == U32LeBytes(w) && d6[8..12] == U32LeBytes(hh);
    WriteImage(buf, d6, w, hh);
    ghost var d9 := d6 + U32LeBytes(U32(w) * U32(hh) * 3) + U32LeBytes(1) + U32LeBytes(1);
    ZerosSplit(size - 32, 8);
    AppendAssoc(d9, Zeros(8), Zeros(size - 40));
    assert buf[..] == BitmapInfoHeader(size, w, hh) + Zeros(size - 40);
    if raw.Some? {
      ghost var before := buf[..];
      PutBytes(buf, 41, raw.value);
      RawAfterHeader(before, BitmapInfoHeader(size, w, hh), raw.value, buf[..]);
    } else {
      assert BitmapInfoHeader(size, w, hh) + Zeros(size - 40) == BitmapInfoHeader(size, w, hh) + [];
    }
  }

  /** headers_found's copy: the raw sequence header, then the raw entry
      point, in one buffer of the two sizes together. */
  method JoinHeaders(seqhdr: seq<byte>, entrypoint: seq<byte>) returns (r: seq<byte>)
    ensures |r| == |seqhdr| + |entrypoint|
    ensures r[..|seqhdr|] == seqhdr && r[|seqhdr|..] == entrypoint
  {
    var buf := new byte[|seqhdr| + |entrypoint|](_ => 0);
    PutBytes(buf, 0, seqhdr);
    PutBytes(buf, |seqhdr|, entrypoint);
    r := buf[..];
  }

  // ---------------------------------------------------------------------------
  // Frames handed on (flush_frames)

  /** The backward reference of a frame: none for an I frame or a frame
      carrying a sequence header, otherwise the previous frame's timecode. */
  function BRef(f: Frame, previous: int): int
  {
    if f.isI || f.hasSeqhdr then -1 else previous
  }

  /** The timecode of the last frame, or `previous` when there is none. */
  function LastTimecode(previous: int, frames: seq<Frame>): int
  {
    if frames == [] then previous else frames[|frames| - 1].timecode
  }

  /** The timecode of the frame before the `k`-th, `previous` for the first. */
  function Before(previous: int, frames: seq<Frame>, k: nat): int
    requires k < |frames|
  {
    if k == 0 then previous else frames[k - 1].timecode
  }

  /** The packets for a run of frames, `previous` being the timecode of the
      frame before the first. */
  function Emit(previous: int, frames: seq<Frame>): seq<Packet>
  {
    if frames == [] then []
    else
      var init, f := frames[..|frames| - 1], frames[|frames| - 1];
      Emit(previous, init) + [Packet(f.data, f.timecode, f.duration, BRef(f, LastTimecode(previous, init)))]
  }

  /** One packet per frame, in order, with the frame's data, timecode and
      duration; the backward reference is -1 for I frames and frames with a
      sequence header, and otherwise the timecode of the frame before it
      (`previous` for the first). */
  lemma {:induction false} EmitPackets(previous: int, frames: seq<Frame>)
    ensures |Emit(previous, frames)| == |frames|
    ensures forall k :: 0 <= k < |frames| ==>
              Emit(previous, frames)[k] == Packet(frames[k].data, frames[k].timecode, frames[k].duration,
                                                  BRef(frames[k], Before(previous, frames, k)))
  {
    if frames != [] {
      var init := frames[..|frames| - 1];
      var f, e := frames[|frames| - 1], Emit(previous, frames);
      EmitPackets(previous, init);
      assert e == Emit(previous, init) + [Packet(f.data, f.timecode, f.duration, BRef(f, LastTimecode(previous, init)))];
      forall k | 0 <= k < |frames|
        ensures e[k] == Packet(frames[k].data, frames[k].timecode, frames[k].duration,
                               BRef(frames[k], Before(previous, frames, k)))
      {
        if k < |init| {
          assert e[k] == Emit(previous, init)[k] && frames[k] == init[k];
          assert Before(previous, frames, k) == Before(previous, init, k);
        }
      }
    }
  }

  /** Frames handed on over two calls give the packets of one call: the
      previous timecode carries the reference across. */
  lemma {:induction false} EmitSplit(previous: int, a: seq<Frame>, b: seq<Frame>)
    ensures Emit(previous, a + b) == Emit(previous, a) + Emit(LastTimecode(previous, a), b)
    ensures LastTimecode(previous, a + b) == LastTimecode(LastTimecode(previous, a), b)
    decreases |b|
  {
    if b == [] {
      assert a + b == a;
    } else {
      var init := b[..|b| - 1];
      assert (a + b)[..|a + b| - 1] == a + init;
      EmitSplit(previous, a, init);
    }
  }

  // ---------------------------------------------------------------------------
  // The packetizer state and what each method does to it

  /** The track settings the packetizer writes: pixel and display size,
      default duration, codec private data, and how often the generic
      track headers were set. */
  datatype TrackSettings = TrackSettings(pixelWidth: int, pixelHeight: int, display: Option<(int, int)>,
                                         defaultDuration: Option<int>, codecPrivate: seq<byte>,
                                         headerWrites: nat)

  /** The whole packetizer state. */
  datatype Vc1State = Vc1State(previousTimecode: int, rawHeaders: Option<seq<byte>>, seqhdr: SequenceHeader,
                               parser: EsParser, track: TrackSettings, packets: seq<Packet>)

  /** The state after the constructor. */
  function InitialState(parser: EsParser, forcedDuration: Option<int>): Vc1State
  {
    Vc1State(-1, None, DummyHeader, parser, TrackSettings(0, 0, None, forcedDuration, [], 0), [])
  }

  /** The display size: the sequence header's when it carries display
      information, else the pixel size. */
  function DisplaySize(h: SequenceHeader): (int, int)
  {
    if h.displayInfo then (h.displayWidth, h.displayHeight) else (h.pixelWidth, h.pixelHeight)
  }

  /** get_track_default_duration: the track's default duration, -1 while
      none is set. */
  function TrackDefaultDuration(t: TrackSettings): int
  {
    if t.defaultDuration.Some? then t.defaultDuration.value else -1
  }

  /** set_headers: the codec private data and pixel size; with raw headers
      also the display size and the default duration (taken from the parser,
      or, when the user forced one, the track's current one handed to the
      parser); without, the NTSC frame duration, forced or not. */
  function SetHeadersSpec(s: Vc1State, forcedDuration: Option<int>): Vc1State
  {
    var t := s.track.(codecPrivate := CodecPrivate(s.seqhdr, s.rawHeaders),
                      pixelWidth := s.seqhdr.pixelWidth, pixelHeight := s.seqhdr.pixelHeight,
                      headerWrites := s.track.headerWrites + 1);
    if s.rawHeaders.None? then s.(track := t.(defaultDuration := Some(NtscFrameDuration)))
    else if forcedDuration.Some? then
      s.(track := t.(display := Some(DisplaySize(s.seqhdr))),
         parser := s.parser.(defaultDuration := TrackDefaultDuration(s.track)))
    else s.(track := t.(display := Some(DisplaySize(s.seqhdr)), defaultDuration := Some(s.parser.defaultDuration)))
  }

  /** headers_found: take the parser's sequence header and raw headers, then
      set the headers. */
  function HeadersFoundSpec(s: Vc1State, forcedDuration: Option<int>): Vc1State
    requires s.parser.headers.Some?
  {
    var hs := s.parser.headers.value;
    SetHeadersSpec(s.(seqhdr := hs.seqhdr, rawHeaders := Some(hs.rawSeqhdr + hs.rawEntrypoint)), forcedDuration)
  }

  /** flush_frames: every frame the parser holds, in order. */
  function FlushFramesSpec(s: Vc1State): Vc1State
  {
    s.(packets := s.packets + Emit(s.previousTimecode, s.parser.frames),
       previousTimecode := LastTimecode(s.previousTimecode, s.parser.frames),
       parser := s.parser.(frames := []))
  }

  /** The parser after the packet's timecode (when it has one) and bytes are
      handed to it; `addBytes` is the parser's own work. */
  function Feed(ps: EsParser, p: InputPacket, addBytes: (EsParser, seq<byte>) -> EsParser): EsParser
  {
    addBytes(if p.timecode != -1 then ps.(timecodes := ps.timecodes + [p.timecode]) else ps, p.data)
  }

  /** process: feed the parser, capture the headers the first time they are
      available, hand on the completed frames. */
  function ProcessSpec(s: Vc1State, p: InputPacket, addBytes: (EsParser, seq<byte>) -> EsParser,
                       forcedDuration: Option<int>): Vc1State
  {
    var s1 := s.(parser := Feed(s.parser, p, addBytes));
    var s2 := if s1.rawHeaders.None? && s1.parser.headers.Some? then HeadersFoundSpec(s1, forcedDuration) else s1;
    FlushFramesSpec(s2)
  }

  /** flush: let the parser complete its last frame, hand on the rest. */
  function FlushSpec(s: Vc1State, flushParser: EsParser -> EsParser): Vc1State
  {
    FlushFramesSpec(s.(parser := flushParser(s.parser)))
  }

  /** A step function applied to a run of packets, in order. */
  function Steps(s: Vc1State, ps: seq<InputPacket>, step: (Vc1State, InputPacket) -> Vc1State): Vc1State
  {
    if ps == [] then s else step(Steps(s, ps[..|ps| - 1], step), ps[|ps| - 1])
  }

  /** process on a run of packets. */
  function ProcessAll(s: Vc1State, ps: seq<InputPacket>, addBytes: (EsParser, seq<byte>) -> EsParser,
                      forcedDuration: Option<int>): Vc1State
  {
    Steps(s, ps, (u, p) => ProcessSpec(u, p, addBytes, forcedDuration))
  }

  // ---------------------------------------------------------------------------
  // Properties

  /** The headers are consistent: once raw headers are captured, the codec
      private data, pixel size and display size are those of the captured
      sequence header, and the track headers were set once for them. */
  predicate Valid(s: Vc1State)
  {
    s.rawHeaders.Some? ==>
      s.track.codecPrivate == CodecPrivate(s.seqhdr, s.rawHeaders) &&
      s.track.pixelWidth == s.seqhdr.pixelWidth && s.track.pixelHeight == s.seqhdr.pixelHeight &&
      s.track.display == Some(DisplaySize(s.seqhdr)) && s.track.headerWrites >= 1
  }

  /** flush_frames leaves no frame in the parser and hands on all of them:
      a second call does nothing. */
  lemma FlushFramesDrains(s: Vc1State)
    ensures FlushFramesSpec(s).parser.frames == []
    ensures FlushFramesSpec(FlushFramesSpec(s)) == FlushFramesSpec(s)
    ensures |FlushFramesSpec(s).packets| == |s.packets| + |s.parser.frames|
  {
    var t := FlushFramesSpec(s);
    assert t.packets + [] == t.packets;
    EmitPackets(s.previousTimecode, s.parser.frames);
  }

  /** process captures the headers exactly when none were captured and the
      parser has them: the raw headers become the raw sequence header
      followed by the raw entry point, and the track headers are set once. */
  lemma HeadersCaptured(s: Vc1State, p: InputPacket, addBytes: (EsParser, seq<byte>) -> EsParser,
                        forcedDuration: Option<int>)
    requires s.rawHeaders.None?
    ensures var ps, t := Feed(s.parser, p, addBytes), ProcessSpec(s, p, addBytes, forcedDuration);
            (ps.headers.None? ==> t.rawHeaders.None? && t.track == s.track && t.seqhdr == s.seqhdr) &&
            (ps.headers.Some? ==>
               t.rawHeaders == Some(ps.headers.value.rawSeqhdr + ps.headers.value.rawEntrypoint) &&
               t.seqhdr == ps.headers.value.seqhdr && t.track.headerWrites == s.track.headerWrites + 1 &&
               Valid(t))
  {
  }

  /** Once captured, the headers never change: process leaves the raw
      headers, the sequence header and the track settings alone. */
  lemma HeadersKept(s: Vc1State, p: InputPacket, addBytes: (EsParser, seq<byte>) -> EsParser,
                    forcedDuration: Option<int>)
    requires s.rawHeaders.Some?
    ensures var t := ProcessSpec(s, p, addBytes, forcedDuration);
            t.rawHeaders == s.rawHeaders && t.seqhdr == s.seqhdr && t.track == s.track
  {
  }

  /** What one call of process may do to the headers: keep captured ones and
      the count of header writes, or capture them and set the track headers
      once, or leave them missing. */
  predicate HeadersStep(u: Vc1State, t: Vc1State)
  {
    (u.rawHeaders.Some? ==> t.rawHeaders == u.rawHeaders && t.track.headerWrites == u.track.headerWrites) &&
    (u.rawHeaders.None? ==>
       (t.rawHeaders.None? && t.track.headerWrites == u.track.headerWrites) ||
       (t.rawHeaders.Some? && t.track.headerWrites == u.track.headerWrites + 1))
  }

  /** The headers are captured at most once over a run of steps that each
      behave as HeadersStep says. */
  lemma {:induction false} StepsCaptureOnce(s: Vc1State, ps: seq<InputPacket>,
                                            step: (Vc1State, InputPacket) -> Vc1State)
    requires forall u, p :: HeadersStep(u, step(u, p))
    ensures var t := Steps(s, ps, step);
            s.track.headerWrites <= t.track.headerWrites <= s.track.headerWrites + 1 &&
            (s.rawHeaders.Some? ==> t.track.headerWrites == s.track.headerWrites && t.rawHeaders == s.rawHeaders) &&
            (t.track.headerWrites == s.track.headerWrites + 1 ==> s.rawHeaders.None? && t.rawHeaders.Some?) &&
            (t.track.headerWrites == s.track.headerWrites ==> t.rawHeaders == s.rawHeaders)
  {
    if ps != [] {
      var u := Steps(s, ps[..|ps| - 1], step);
      StepsCaptureOnce(s, ps[..|ps| - 1], step);
      assert Steps(s, ps, step) == step(u, ps[|ps| - 1]);
      assert HeadersStep(u, step(u, ps[|ps| - 1]));
    }
  }

  /** Over any run of packets the headers are captured at most once: the
      track headers are set at most one more time, and not at all once raw
      headers were captured. */
  lemma HeadersAtMostOnce(s: Vc1State, ps: seq<InputPacket>,
                          addBytes: (EsParser, seq<byte>) -> EsParser, forcedDuration: Option<int>)
    ensures var t := ProcessAll(s, ps, addBytes, forcedDuration);
            s.track.headerWrites <= t.track.headerWrites <= s.track.headerWrites + 1 &&
            (s.rawHeaders.Some? ==> t.track.headerWrites == s.track.headerWrites && t.rawHeaders == s.rawHeaders) &&
            (t.track.headerWrites == s.track.headerWrites + 1 ==> s.rawHeaders.None? && t.rawHeaders.Some?) &&
            (t.track.headerWrites == s.track.headerWrites ==> t.rawHeaders == s.rawHeaders)
  {
    var step := (u, p) => ProcessSpec(u, p, addBytes, forcedDuration);
    forall u, p
      ensures HeadersStep(u, step(u, p))
    {
      if u.rawHeaders.Some? {
        HeadersKept(u, p, addBytes, forcedDuration);
      } else {
        HeadersCaptured(u, p, addBytes, forcedDuration);
      }
    }
    StepsCaptureOnce(s, ps, step);
  }

  /** process keeps the headers consistent. */
  lemma ProcessValid(s: Vc1State, p: InputPacket, addBytes: (EsParser, seq<byte>) -> EsParser,
                     forcedDuration: Option<int>)
    requires Valid(s)
    ensures Valid(ProcessSpec(s, p, addBytes, forcedDuration))
  {
    if s.rawHeaders.None? {
      HeadersCaptured(s, p, addBytes, forcedDuration);
    }
  }

  /** process hands the packet's timecode to the parser only when it has
      one, and always its bytes. */
  lemma ProcessForwardsTimecode(s: Vc1State, p: InputPacket, addBytes: (EsParser, seq<byte>) -> EsParser)
    ensures p.timecode == -1 ==> Feed(s.parser, p, addBytes) == addBytes(s.parser, p.data)
    ensures p.timecode != -1 ==>
              Feed(s.parser, p, addBytes) == addBytes(s.parser.(timecodes := s.parser.timecodes + [p.timecode]), p.data)
  {
  }

  /** Without raw headers set_headers writes the 123x123 dummy picture (when
      no sequence header was seen) and the NTSC frame duration, and leaves
      the display size alone; with them, the display size is the sequence
      header's display size when it has one and the default duration is the
      parser's, unless the user forced one: then the parser gets the track's
      current duration. Either way, once a duration is set, the track and the
      parser agree on it. */
  lemma SetHeadersSettings(s: Vc1State, forcedDuration: Option<int>)
    ensures var t := SetHeadersSpec(s, forcedDuration);
            t.track.codecPrivate == CodecPrivate(s.seqhdr, s.rawHeaders) &&
            (s.rawHeaders.None? ==>
               t.track.defaultDuration == Some(33366666) && t.track.display == s.track.display &&
               (s.seqhdr == DummyHeader ==> t.track.pixelWidth == 123 && t.track.pixelHeight == 123)) &&
            (s.rawHeaders.Some? ==>
               t.track.display == Some(if s.seqhdr.displayInfo then (s.seqhdr.displayWidth, s.seqhdr.displayHeight)
                                       else (s.seqhdr.pixelWidth, s.seqhdr.pixelHeight)) &&
               (forcedDuration.Some? ==>
                  t.parser.defaultDuration == TrackDefaultDuration(s.track) &&
                  t.track.defaultDuration == s.track.defaultDuration) &&
               (forcedDuration.None? ==> t.track.defaultDuration == Some(s.parser.defaultDuration)) &&
               (t.track.defaultDuration.Some? ==> t.track.defaultDuration == Some(t.parser.defaultDuration)))
  {
  }

  /** A forced duration stays set: the constructor sets it, and set_headers
      and process only ever replace it by another value. */
  lemma ForcedDurationStaysSet(s: Vc1State, forcedDuration: Option<int>, p: InputPacket,
                               addBytes: (EsParser, seq<byte>) -> EsParser)
    requires forcedDuration.Some? ==> s.track.defaultDuration.Some?
    ensures InitialState(s.parser, forcedDuration).track.defaultDuration == forcedDuration
    ensures forcedDuration.Some? ==> SetHeadersSpec(s, forcedDuration).track.defaultDuration.Some?
    ensures forcedDuration.Some? ==> ProcessSpec(s, p, addBytes, forcedDuration).track.defaultDuration.Some?
  {
    var s1 := s.(parser := Feed(s.parser, p, addBytes));
    if s1.rawHeaders.None? && s1.parser.headers.Some? {
      var hs := s1.parser.headers.value;
      SetHeadersSettings(s1.(seqhdr := hs.seqhdr, rawHeaders := Some(hs.rawSeqhdr + hs.rawEntrypoint)), forcedDuration);
    }
  }

  /** A forced duration D, set_headers before the headers are known, then a
      packet that completes them: the headerless set_headers overwrites D
      with the NTSC frame duration, and the parser then receives that same
      value from the track. */
  lemma ForcedDurationBeforeHeaders(parser: EsParser, d: int, p: InputPacket,
                                    addBytes: (EsParser, seq<byte>) -> EsParser)
    requires Feed(parser, p, addBytes).headers.Some?
    ensures var s0 := InitialState(parser, Some(d));
            var s2 := ProcessSpec(SetHeadersSpec(s0, Some(d)), p, addBytes, Some(d));
            s2.track.defaultDuration == Some(NtscFrameDuration) && s2.parser.defaultDuration == NtscFrameDuration
  {
    var s0 := InitialState(parser, Some(d));
    var s1 := SetHeadersSpec(s0, Some(d));
    assert s1.parser == parser && s1.rawHeaders.None?;
    assert s1.track.defaultDuration == Some(NtscFrameDuration);
  }

  /** flush hands on every frame the flushed parser holds and keeps the
      headers consistent. */
  lemma FlushValid(s: Vc1State, flushParser: EsParser -> EsParser)
    requires Valid(s)
    ensures Valid(FlushSpec(s, flushParser))
    ensures FlushSpec(s, flushParser).parser.frames == []
    ensures FlushSpec(s, flushParser).packets == s.packets + Emit(s.previousTimecode, flushParser(s.parser).frames)
  {
  }

  // ---------------------------------------------------------------------------
  // The packetizer

  class Vc1Packetizer {
    const forcedDuration: Option<int>
    const cueStrategy: CueStrategy
    const relaxedTimecodeChecking: bool
    const codecId: string
    var previousTimecode: int
    var rawHeaders: Option<seq<byte>>
    var seqhdr: SequenceHeader
    var parser: EsParser
    var track: TrackSettings
    var packets: seq<Packet>

    function State(): Vc1State
      reads this
    {
      Vc1State(previousTimecode, rawHeaders, seqhdr, parser, track, packets)
    }

    /** No previous timecode, no headers, the dummy sequence header; cue
        points on I frames unless the user chose otherwise. */
    constructor (parser: EsParser, cues: CueStrategy, forcedDuration: Option<int>)
      ensures State() == InitialState(parser, forcedDuration)
      ensures this.forcedDuration == forcedDuration && relaxedTimecodeChecking && codecId == CodecIdMsComp
      ensures cueStrategy == (if cues == CuesUnspecified then CuesIFrames else cues)
    {
      this.forcedDuration := forcedDuration;
      relaxedTimecodeChecking := true;
      cueStrategy := if cues == CuesUnspecified then CuesIFrames else cues;
      codecId := CodecIdMsComp;
      previousTimecode := -1;
      rawHeaders := None;
      seqhdr := DummyHeader;
      this.parser := parser;
      track := TrackSettings(0, 0, None, forcedDuration, [], 0);
      packets := [];
    }

    /** set_headers */
    method SetHeaders()
      modifies this
      ensures State() == SetHeadersSpec(old(State()), forcedDuration)
    {
      var buf := BuildCodecPrivate(seqhdr, rawHeaders);
      track := track.(pixelWidth := seqhdr.pixelWidth, pixelHeight := seqhdr.pixelHeight);
      if rawHeaders.Some? {
        track := track.(display := Some(DisplaySize(seqhdr)));
        if forcedDuration.Some? {
          parser := parser.(defaultDuration := TrackDefaultDuration(track));
        } else {
          track := track.(defaultDuration := Some(parser.defaultDuration));
        }
      } else {
        track := track.(defaultDuration := Some(NtscFrameDuration));
      }
      track := track.(codecPrivate := buf[..], headerWrites := track.headerWrites + 1);
    }

    /** headers_found */
    method HeadersFound()
      requires parser.headers.Some?
      modifies this
      ensures State() == HeadersFoundSpec(old(State()), forcedDuration)
    {
      var hs := parser.headers.value;
      seqhdr := hs.seqhdr;
      var raw := JoinHeaders(hs.rawSeqhdr, hs.rawEntrypoint);
      assert raw == hs.rawSeqhdr + hs.rawEntrypoint;
      rawHeaders := Some(raw);
      SetHeaders();
    }

    /** flush_frames: while the parser has a frame, hand it on with its
        backward reference and remember its timecode. */
    method FlushFrames()
      modifies this
      ensures State() == FlushFramesSpec(old(State()))
    {
      ghost var frames := parser.frames;
      ghost var i := 0;
      while parser.frames != []
        invariant i <= |frames| && parser == old(parser).(frames := frames[i..])
        invariant previousTimecode == LastTimecode(old(previousTimecode), frames[..i])
        invariant packets == old(packets) + Emit(old(previousTimecode), frames[..i])
        invariant rawHeaders == old(rawHeaders) && seqhdr == old(seqhdr) && track == old(track)
        decreases |parser.frames|
      {
        var frame := parser.frames[0];
        parser := parser.(frames := parser.frames[1..]);
        packets := packets + [Packet(frame.data, frame.timecode, frame.duration,
                                     if frame.isI || frame.hasSeqhdr then -1 else previousTimecode)];
        previousTimecode := frame.timecode;
        assert frames[..i + 1][..i] == frames[..i] && frames[i] == frame;
        i := i + 1;
      }
      assert frames[..i] == frames;
    }

    /** process */
    method Process(p: InputPacket, addBytes: (EsParser, seq<byte>) -> EsParser) returns (status: FileStatus)
      modifies this
      ensures State() == ProcessSpec(old(State()), p, addBytes, forcedDuration)
      ensures status == MoreData
    {
      if p.timecode != -1 {
        parser := parser.(timecodes := parser.timecodes + [p.timecode]);
      }
      parser := addBytes(parser, p.data);
      if rawHeaders.None? && parser.headers.Some? {
        HeadersFound();
      }
      FlushFrames();
      return MoreData;
    }

    /** flush */
    method Flush(flushParser: EsParser -> EsParser)
      modifies this
      ensures State() == FlushSpec(old(State()), flushParser)
    {
      parser := flushParser(parser);
      FlushFrames();
    }
  }
}
