/** Which packetizer the RealMedia reader creates for each stream
    (create_packetizer in r_real.cpp), how it decides between plain AAC and
    HE-AAC (SBR), how it finds a stream by id, and the order in which it
    asks the packetizers to write their headers. */
module RealPacketizers {
  import opened Common
  import opened RealHeaders
  import opened RealDemuxer

  // ---------------------------------------------------------------------------
  // find_demuxer

  /** find_demuxer: the index of the first demuxer with the id. */
  function FindDemuxer(ds: seq<Demuxer>, id: int): (r: Option<nat>)
    ensures r.Some? ==> r.value < |ds| && ds[r.value].info.id == id &&
                        forall j :: 0 <= j < r.value ==> ds[j].info.id != id
    ensures r.None? ==> forall j :: 0 <= j < |ds| ==> ds[j].info.id != id
  {
    if ds == [] then None
    else if ds[0].info.id == id then Some(0)
    else
      match FindDemuxer(ds[1..], id)
      case None => None
      case Some(k) => Some(k + 1)
  }

  /** The search looks at the ids only. */
  lemma FindDemuxerByIds(ds: seq<Demuxer>, ds': seq<Demuxer>, id: int)
    requires |ds| == |ds'| && forall j :: 0 <= j < |ds| ==> ds[j].info.id == ds'[j].info.id
    ensures FindDemuxer(ds, id) == FindDemuxer(ds', id)
  {
    var r, r' := FindDemuxer(ds, id), FindDemuxer(ds', id);
    if r.Some? && r'.Some? {
      assert !(r.value < r'.value) && !(r'.value < r.value);
    }
  }

  // ---------------------------------------------------------------------------
  // Codec ids

  /** The bytes of `b` up to its first NUL (a C string). */
  function CString(b: seq<byte>): (r: seq<byte>)
    ensures |r| <= |b| && r == b[..|r|] && 0 !in r
    ensures |r| < |b| ==> b[|r|] == 0
  {
    if b == [] || b[0] == 0 then [] else [b[0]] + CString(b[1..])
  }

  function ByteChars(b: seq<byte>): (s: string)
    ensures |s| == |b| && forall i :: 0 <= i < |b| ==> s[i] as int == b[i]
  {
    seq(|b|, i requires 0 <= i < |b| => b[i] as char)
  }

  /** toupper in the C locale, on a byte */
  function UpperByte(b: byte): byte
  {
    if 'a' as int <= b <= 'z' as int then b - 32 else b
  }

  function UpperBytes(b: seq<byte>): (r: seq<byte>)
    ensures |r| == |b| && forall i :: 0 <= i < |b| ==> r[i] == UpperByte(b[i])
  {
    seq(|b|, i requires 0 <= i < |b| => UpperByte(b[i]))
  }

  /** "V_REAL/" and the FourCC, as a C string. */
  function VideoCodecId(fourcc: seq<byte>): string
  {
    "V_REAL/" + ByteChars(CString(fourcc))
  }

  /** "A_REAL/" and the upper-cased FourCC, as a C string. */
  function AudioCodecId(fourcc: seq<byte>): string
  {
    "A_REAL/" + ByteChars(CString(UpperBytes(fourcc)))
  }

  /** A FourCC without NUL bytes appears whole in the codec ids. */
  lemma CodecIds(fourcc: seq<byte>)
    requires 0 !in fourcc
    ensures VideoCodecId(fourcc) == "V_REAL/" + ByteChars(fourcc)
    ensures AudioCodecId(fourcc) == "A_REAL/" + ByteChars(UpperBytes(fourcc))
  {
    assert 0 !in UpperBytes(fourcc) by {
      forall i | 0 <= i < |fourcc|
        ensures UpperBytes(fourcc)[i] != 0
      {
        assert fourcc[i] in fourcc;
      }
    }
  }

  const RV40: seq<byte> := Bytes("RV40")
  const DNET: seq<byte> := Bytes("dnet")
  const RAAC: seq<byte> := Bytes("raac")
  const RACP: seq<byte> := Bytes("racp")

  // ---------------------------------------------------------------------------
  // AAC and SBR

  /** aac_common's profile number for SBR (aac_common.h is not part of this
      model; this is its value). */
  const AacProfileSbr: int := 4

  /** What parse_aac_data leaves in its output arguments, given the AAC
      configuration bytes, when called with profile -1, output rate 0 and
      SBR off. The parser itself is not part of this model. */
  datatype AacParse = AacParse(profile: int, channels: nat, sampleRate: nat, outputRate: nat, sbr: bool)

  type AacParser = seq<byte> -> AacParse

  /** The extra data holds a big-endian 32-bit length, then that many bytes
      of AAC configuration whose first byte is skipped. This is the
      corrected check: the length is at least 1 and the bytes lie inside the
      extra data. The reader's own check (AacConfigGuardAsWritten) also
      admits a zero length and a length that wraps; see
      AacConfigGuardCorrected. */
  predicate AacConfigPresent(extra: seq<byte>)
  {
    |extra| > 4 && 1 <= U32Be(extra, 0) && 4 + U32Be(extra, 0) <= |extra|
  }

  /** The configuration bytes handed to parse_aac_data. */
  function AacConfigBytes(extra: seq<byte>): (r: seq<byte>)
    requires AacConfigPresent(extra)
    ensures |r| == U32Be(extra, 0) - 1
  {
    extra[5..4 + U32Be(extra, 0)]
  }

  /** The check as the reader writes it: more than 4 bytes, and the size at
      least 4 + the length computed as uint32. */
  predicate AacConfigGuardAsWritten(extra: seq<byte>)
  {
    |extra| > 4 && |extra| >= U32(4 + U32Be(extra, 0))
  }

  /** The byte count the reader hands to parse_aac_data, as uint32. */
  function AacConfigLengthAsWritten(extra: seq<byte>): nat
    requires |extra| > 4
  {
    U32(U32Be(extra, 0) - 1)
  }

  /** A zero length passes the check and hands the parser 2^32 - 1 bytes
      that start past the end of a 5-byte extra data; a length near 2^32
      wraps 4 + length below the size. */
  lemma AacConfigGuardOverreads()
    ensures var e := [0, 0, 0, 0, 0x12];
            AacConfigGuardAsWritten(e) && AacConfigLengthAsWritten(e) == 0xFFFF_FFFF &&
            5 + AacConfigLengthAsWritten(e) > |e|
    ensures var e := [0xFF, 0xFF, 0xFF, 0xFF, 0x12];
            AacConfigGuardAsWritten(e) && 5 + AacConfigLengthAsWritten(e) > |e|
  {
  }

  /** The corrected check admits only extra data the reader's check admits,
      with the same byte count, inside the extra data; what the reader's
      check admits beyond it (the extra data size being a uint32) reads past
      the end. */
  lemma AacConfigGuardCorrected(extra: seq<byte>)
    requires |extra| < TWO32
    ensures AacConfigPresent(extra) ==>
              AacConfigGuardAsWritten(extra) && AacConfigLengthAsWritten(extra) == |AacConfigBytes(extra)| &&
              5 + AacConfigLengthAsWritten(extra) <= |extra|
    ensures AacConfigGuardAsWritten(extra) && !AacConfigPresent(extra) ==>
              5 + AacConfigLengthAsWritten(extra) > |extra|
  {
    if |extra| > 4 {
      var l := U32Be(extra, 0);
      if l == 0 {
        assert AacConfigLengthAsWritten(extra) == TWO32 - 1;
      } else if 4 + l >= TWO32 {
        assert AacConfigLengthAsWritten(extra) == l - 1;
      } else {
        assert U32(4 + l) == 4 + l;
        assert AacConfigLengthAsWritten(extra) == l - 1;
      }
    }
  }

  /** The parameters create_packetizer settles on for an AAC stream. */
  datatype AacSetup = AacSetup(profile: int, sampleRate: nat, channels: nat, outputRate: nat, parsed: bool)

  /** Whether the user listed the stream (or all streams, -1) as SBR. */
  predicate ListedAsSbr(aacIsSbr: seq<int>, id: nat)
  {
    exists i :: 0 <= i < |aacIsSbr| && (aacIsSbr[i] == -1 || aacIsSbr[i] == id)
  }

  /** The AAC decision: the configuration from the extra data when the
      corrected check finds it (SBR when the parser says so); otherwise the stream's channels and
      rate, and SBR at twice the rate for "racp" or a rate below 44100;
      SBR too when the user listed the stream. */
  function AacDecision(info: StreamInfo, aacIsSbr: seq<int>, parse: AacParser): AacSetup
  {
    var parsed := AacConfigPresent(info.extraData);
    var p := if parsed then parse(AacConfigBytes(info.extraData)) else AacParse(-1, 0, 0, 0, false);
    var profile := if p.sbr then AacProfileSbr else p.profile;
    var fallbackSbr := EqualsCaseBytes(info.fourcc, RACP) || info.sampleRate < 44100;
    var s := if profile != -1 then AacSetup(profile, p.sampleRate, p.channels, p.outputRate, parsed)
             else AacSetup(profile, info.sampleRate, info.channels,
                           if fallbackSbr then 2 * info.sampleRate else p.outputRate, parsed);
    var sbr := p.sbr || (profile == -1 && fallbackSbr);
    if sbr || ListedAsSbr(aacIsSbr, info.id) then s.(profile := AacProfileSbr) else s
  }

  /** Without usable configuration bytes the stream's own channels and rate
      are used; "racp" or a rate below 44100 gives SBR at twice the rate;
      otherwise the profile stays -1 unless the user listed the stream. */
  lemma AacWithoutConfig(info: StreamInfo, aacIsSbr: seq<int>, parse: AacParser)
    requires !AacConfigPresent(info.extraData)
    ensures var s := AacDecision(info, aacIsSbr, parse);
            s.sampleRate == info.sampleRate && s.channels == info.channels && !s.parsed &&
            (EqualsCaseBytes(info.fourcc, RACP) || info.sampleRate < 44100 ==>
               s.profile == AacProfileSbr && s.outputRate == 2 * info.sampleRate) &&
            (!EqualsCaseBytes(info.fourcc, RACP) && info.sampleRate >= 44100 ==>
               s.profile == (if ListedAsSbr(aacIsSbr, info.id) then AacProfileSbr else -1))
  {
  }

  /** A listed stream is always SBR. */
  lemma AacListedIsSbr(info: StreamInfo, aacIsSbr: seq<int>, parse: AacParser)
    requires ListedAsSbr(aacIsSbr, info.id)
    ensures AacDecision(info, aacIsSbr, parse).profile == AacProfileSbr
  {
  }

  /** Configuration bytes the parser understands give the parser's channels,
      rate and output rate, and SBR when it reports SBR. */
  lemma AacWithConfig(info: StreamInfo, aacIsSbr: seq<int>, parse: AacParser)
    requires AacConfigPresent(info.extraData)
    requires var p := parse(AacConfigBytes(info.extraData)); p.profile != -1 || p.sbr
    ensures var p := parse(AacConfigBytes(info.extraData));
            var s := AacDecision(info, aacIsSbr, parse);
            s.parsed && s.channels == p.channels && s.sampleRate == p.sampleRate &&
            s.outputRate == p.outputRate && (p.sbr ==> s.profile == AacProfileSbr)
  {
  }

  // ---------------------------------------------------------------------------
  // create_packetizer

  /** The user's settings the reader consults, and `scannedBsid`: the AC-3
      bit stream id that the scan of the first data packets
      (get_information_from_data) read for each "DNET" stream, as byte 4 of
      its first packet shifted right by 3. */
  datatype Settings = Settings(trackOrder: seq<int>, aacIsSbr: seq<int>, display: DisplayOverride,
                               parseAac: AacParser, scannedBsid: map<nat, nat>)

  /** The bit stream id the AC-3 packetizer of stream `id` gets: the one the
      scan read, or -1 when the scan found no packet of the stream. */
  function Bsid(settings: Settings, id: nat): (b: int)
    ensures b == -1 <==> id !in settings.scannedBsid
    ensures id in settings.scannedBsid ==> b == settings.scannedBsid[id]
  {
    if id in settings.scannedBsid then settings.scannedBsid[id] else -1
  }

  /** The packetizer for a stream that has none: video gets a RealVideo
      packetizer and, unless its FourCC is "RV40", no frame-size inspection;
      "dnet" audio gets AC-3 with the scanned bit stream id; "raac" and "racp" (any case) get AAC, which
      copies its data and receives no codec private data; other audio passes
      through under "A_REAL/" and the upper-cased FourCC. */
  function CreateFor(d: Demuxer, settings: Settings): (r: Demuxer)
    ensures r.info.id == d.info.id && r.packetizer.Some?
    ensures r.cData == d.cData && r.cNumPackets == d.cNumPackets
    ensures r.cTimecode == d.cTimecode && r.cRefTimecode == d.cRefTimecode
  {
    var info := d.info;
    if info.kind == VideoTrack then
      d.(packetizer := Some(Packetizer(VideoCodec(VideoCodecId(info.fourcc), info.width, info.height),
                                       info.privateData, false)),
         rvDimensions := d.rvDimensions || info.fourcc != RV40,
         merged := false, segments := [])
    else if info.fourcc == DNET then
      d.(packetizer := Some(Packetizer(Ac3Codec(info.sampleRate, info.channels, Bsid(settings, info.id)),
                                       info.privateData, false)))
    else if EqualsCaseBytes(info.fourcc, RAAC) || EqualsCaseBytes(info.fourcc, RACP) then
      var s := AacDecision(info, settings.aacIsSbr, settings.parseAac);
      var info' := if s.profile != -1 && s.parsed then info.(channels := s.channels, sampleRate := s.sampleRate)
                   else info;
      d.(info := info', isAac := true,
         packetizer := Some(Packetizer(AacCodec(s.profile, s.sampleRate, s.channels,
                                                if s.profile == AacProfileSbr then Some(s.outputRate) else None),
                                       [], true)))
    else
      d.(packetizer := Some(Packetizer(PassthroughCodec(AudioCodecId(info.fourcc), info.sampleRate,
                                                        info.channels, info.bitsPerSample),
                                       info.privateData, false)))
  }

  /** Only "RV40" video has its frame size inspected. */
  lemma OnlyRv40Inspected(d: Demuxer, settings: Settings)
    requires d.info.kind == VideoTrack && !d.rvDimensions
    ensures var r := CreateFor(d, settings);
            r.packetizer.value.codec == VideoCodec(VideoCodecId(d.info.fourcc), d.info.width, d.info.height) &&
            (!r.rvDimensions <==> d.info.fourcc == RV40) && r.segments == []
  {
  }

  /** Audio routing: "dnet" exactly gives AC-3 with the stream's rate,
      channels, private data and scanned bit stream id (-1 when the scan
      found none); "raac" or "racp" in any case gives AAC; anything else
      passes through with the upper-cased FourCC and the stream's private
      data. */
  lemma AudioRouting(d: Demuxer, settings: Settings)
    requires d.info.kind == AudioTrack
    ensures var c := CreateFor(d, settings).packetizer.value;
            (d.info.fourcc == DNET ==>
               c == Packetizer(Ac3Codec(d.info.sampleRate, d.info.channels, Bsid(settings, d.info.id)),
                               d.info.privateData, false)) &&
            (d.info.fourcc != DNET && (EqualsCaseBytes(d.info.fourcc, RAAC) || EqualsCaseBytes(d.info.fourcc, RACP)) ==>
               c.codec.AacCodec? && c.duplicateData && c.codecPrivate == [] && CreateFor(d, settings).isAac) &&
            (d.info.fourcc != DNET && !EqualsCaseBytes(d.info.fourcc, RAAC) && !EqualsCaseBytes(d.info.fourcc, RACP) ==>
               c == Packetizer(PassthroughCodec(AudioCodecId(d.info.fourcc), d.info.sampleRate, d.info.channels,
                                                d.info.bitsPerSample), d.info.privateData, false))
  {
  }

  /** create_packetizer(tid): the first demuxer with the id gets a
      packetizer unless it has one; no demuxer with the id, nothing. */
  function CreatePacketizerSpec(ds: seq<Demuxer>, tid: int, settings: Settings): (r: seq<Demuxer>)
    ensures |r| == |ds| && forall j :: 0 <= j < |ds| ==> r[j].info.id == ds[j].info.id
  {
    match FindDemuxer(ds, tid)
    case None => ds
    case Some(k) => if ds[k].packetizer.Some? then ds else ds[k := CreateFor(ds[k], settings)]
  }

  /** create_packetizers: the ids of the track order, then the id of every
      demuxer in list order. */
  function CreateAllSpec(ds: seq<Demuxer>, ids: seq<int>, settings: Settings): (r: seq<Demuxer>)
    ensures |r| == |ds| && forall j :: 0 <= j < |ds| ==> r[j].info.id == ds[j].info.id
    decreases |ids|
  {
    if ids == [] then ds
    else CreatePacketizerSpec(CreateAllSpec(ds, ids[..|ids| - 1], settings), ids[|ids| - 1], settings)
  }

  /** The ids of the demuxers, in list order. */
  function DemuxerIds(ds: seq<Demuxer>): (r: seq<int>)
    ensures |r| == |ds| && forall j :: 0 <= j < |ds| ==> r[j] == ds[j].info.id
  {
    seq(|ds|, j requires 0 <= j < |ds| => ds[j].info.id)
  }

  /** Once created, a packetizer is never replaced. */
  lemma {:induction false} CreateAllKeeps(ds: seq<Demuxer>, ids: seq<int>, settings: Settings, k: nat)
    requires k < |ds| && ds[k].packetizer.Some?
    ensures CreateAllSpec(ds, ids, settings)[k] == ds[k]
    decreases |ids|
  {
    if ids != [] {
      CreateAllKeeps(ds, ids[..|ids| - 1], settings, k);
    }
  }

  /** After create_packetizers, the first demuxer of every id has a
      packetizer (a later demuxer with the same id never receives data). */
  lemma {:induction false} CreateAllCovers(ds: seq<Demuxer>, ids: seq<int>, settings: Settings, k: nat)
    requires k < |ds| && FindDemuxer(ds, ds[k].info.id) == Some(k) && ds[k].info.id in ids
    ensures CreateAllSpec(ds, ids, settings)[k].packetizer.Some?
    decreases |ids|
  {
    var init := ids[..|ids| - 1];
    var before := CreateAllSpec(ds, init, settings);
    if ds[k].info.id in init {
      CreateAllCovers(ds, init, settings, k);
      CreateAllKeeps(before, [ids[|ids| - 1]], settings, k);
      assert [ids[|ids| - 1]][..0] == [];
    } else {
      assert ids[|ids| - 1] == ds[k].info.id;
      FindDemuxerByIds(ds, before, ds[k].info.id);
    }
  }

  /** create_packetizers leaves no stream that receives data without a
      packetizer. */
  lemma CreatePacketizersCoverAll(ds: seq<Demuxer>, settings: Settings, k: nat)
    requires k < |ds| && FindDemuxer(ds, ds[k].info.id) == Some(k)
    ensures CreateAllSpec(ds, settings.trackOrder + DemuxerIds(ds), settings)[k].packetizer.Some?
  {
    var ids := settings.trackOrder + DemuxerIds(ds);
    assert ids[|settings.trackOrder| + k] == ds[k].info.id;
    CreateAllCovers(ds, ids, settings, k);
  }

  // ---------------------------------------------------------------------------
  // set_headers

  /** No index occurs twice. */
  predicate NoDuplicates(ks: seq<nat>)
  {
    forall a, b :: 0 <= a < b < |ks| ==> ks[a] != ks[b]
  }

  /** The demuxer with a packetizer that track-order id `id` names, if it
      has not been called yet. */
  function OrderTarget(ds: seq<Demuxer>, id: int, called: seq<nat>): Option<nat>
  {
    match FindDemuxer(ds, id)
    case None => None
    case Some(k) => if ds[k].packetizer.Some? && k !in called then Some(k) else None
  }

  /** set_headers' first pass, over the track order. */
  function OrderPass(ds: seq<Demuxer>, order: seq<int>, called: seq<nat>): seq<nat>
    decreases |order|
  {
    if order == [] then called
    else
      var t := OrderTarget(ds, order[0], called);
      OrderPass(ds, order[1..], if t.Some? then called + [t.value] else called)
  }

  /** set_headers' second pass, over the demuxers from index `i` on. */
  function RestPass(ds: seq<Demuxer>, i: nat, called: seq<nat>): seq<nat>
    decreases |ds| - i
  {
    if i >= |ds| then called
    else RestPass(ds, i + 1, if ds[i].packetizer.Some? && i !in called then called + [i] else called)
  }

  /** The demuxers whose packetizers set_headers calls, in call order. */
  function HeadersOrder(ds: seq<Demuxer>, order: seq<int>): seq<nat>
  {
    RestPass(ds, 0, OrderPass(ds, order, []))
  }

  /** Indices of demuxers that have a packetizer. */
  predicate Callable(ds: seq<Demuxer>, ks: seq<nat>)
  {
    forall j :: 0 <= j < |ks| ==> ks[j] < |ds| && ds[ks[j]].packetizer.Some?
  }

  /** Calling one more packetizer, not called yet, keeps the calls distinct
      and callable. */
  lemma AddCallable(ds: seq<Demuxer>, called: seq<nat>, x: nat)
    requires NoDuplicates(called) && Callable(ds, called)
    requires x !in called && x < |ds| && ds[x].packetizer.Some?
    ensures NoDuplicates(called + [x]) && Callable(ds, called + [x])
  {
  }

  lemma PrefixOfPrefix(r: seq<nat>, next: seq<nat>, called: seq<nat>)
    requires |next| <= |r| && r[..|next|] == next
    requires |called| <= |next| && next[..|called|] == called
    ensures r[..|called|] == called
  {
    assert r[..|called|] == r[..|next|][..|called|];
  }

  lemma {:induction false} OrderPassGrows(ds: seq<Demuxer>, order: seq<int>, called: seq<nat>)
    requires NoDuplicates(called) && Callable(ds, called)
    ensures var r := OrderPass(ds, order, called);
            NoDuplicates(r) && Callable(ds, r) && |called| <= |r| && r[..|called|] == called
    decreases |order|
  {
    if order != [] {
      var t := OrderTarget(ds, order[0], called);
      var next := if t.Some? then called + [t.value] else called;
      if t.Some? {
        AddCallable(ds, called, t.value);
      }
      OrderPassGrows(ds, order[1..], next);
      PrefixOfPrefix(OrderPass(ds, order[1..], next), next, called);
    }
  }

  lemma {:induction false} RestPassGrows(ds: seq<Demuxer>, i: nat, called: seq<nat>)
    requires NoDuplicates(called) && Callable(ds, called)
    ensures var r := RestPass(ds, i, called);
            NoDuplicates(r) && Callable(ds, r) && |called| <= |r| && r[..|called|] == called
    decreases |ds| - i
  {
    RestPassDistinct(ds, i, called);
    RestPassExtends(ds, i, called);
  }

  /** The second pass only calls packetizers, each at most once. */
  lemma {:induction false} RestPassDistinct(ds: seq<Demuxer>, i: nat, called: seq<nat>)
    requires NoDuplicates(called) && Callable(ds, called)
    ensures NoDuplicates(RestPass(ds, i, called)) && Callable(ds, RestPass(ds, i, called))
    decreases |ds| - i
  {
    if i < |ds| {
      if ds[i].packetizer.Some? && i !in called {
        AddCallable(ds, called, i);
        RestPassDistinct(ds, i + 1, called + [i]);
      } else {
        RestPassDistinct(ds, i + 1, called);
      }
    }
  }

  /** The second pass keeps the calls made before it, in front. */
  lemma {:induction false} RestPassExtends(ds: seq<Demuxer>, i: nat, called: seq<nat>)
    ensures |called| <= |RestPass(ds, i, called)| && RestPass(ds, i, called)[..|called|] == called
    decreases |ds| - i
  {
    if i < |ds| {
      if ds[i].packetizer.Some? && i !in called {
        var next := called + [i];
        RestPassExtends(ds, i + 1, next);
        assert next[..|called|] == called;
        PrefixOfPrefix(RestPass(ds, i + 1, next), next, called);
      } else {
        RestPassExtends(ds, i + 1, called);
      }
    }
  }

  /** The second pass reaches every demuxer with a packetizer from `i` on. */
  lemma {:induction false} RestPassCovers(ds: seq<Demuxer>, i: nat, called: seq<nat>, k: nat)
    requires i <= k < |ds| && ds[k].packetizer.Some?
    ensures k in RestPass(ds, i, called)
    decreases |ds| - i
  {
    var next := if ds[i].packetizer.Some? && i !in called then called + [i] else called;
    if k == i {
      RestPassKeeps(ds, i + 1, next, k);
    } else {
      RestPassCovers(ds, i + 1, next, k);
    }
  }

  /** The second pass never drops an index. */
  lemma {:induction false} RestPassKeeps(ds: seq<Demuxer>, i: nat, called: seq<nat>, k: nat)
    requires k in called
    ensures k in RestPass(ds, i, called)
    decreases |ds| - i
  {
    if i < |ds| {
      var next := if ds[i].packetizer.Some? && i !in called then called + [i] else called;
      assert k in next;
      RestPassKeeps(ds, i + 1, next, k);
    }
  }

  /** set_headers calls every packetizer exactly once, the track order's
      first and in that order. */
  lemma HeadersOnce(ds: seq<Demuxer>, order: seq<int>)
    ensures var r := HeadersOrder(ds, order);
            var first := OrderPass(ds, order, []);
            NoDuplicates(r) && (forall k :: k in r <==> 0 <= k < |ds| && ds[k].packetizer.Some?) &&
            |first| <= |r| && r[..|first|] == first
  {
    OrderPassGrows(ds, order, []);
    var first := OrderPass(ds, order, []);
    RestPassGrows(ds, 0, first);
    var r := HeadersOrder(ds, order);
    forall k | k in r
      ensures 0 <= k < |ds| && ds[k].packetizer.Some?
    {
      var j :| 0 <= j < |r| && r[j] == k;
    }
    forall k | 0 <= k < |ds| && ds[k].packetizer.Some?
      ensures k in r
    {
      RestPassCovers(ds, 0, first, k);
    }
  }

  /** A track-order id naming a demuxer with a packetizer puts it first. */
  lemma TrackOrderFirst(ds: seq<Demuxer>, order: seq<int>)
    requires order != [] && FindDemuxer(ds, order[0]).Some?
    requires ds[FindDemuxer(ds, order[0]).value].packetizer.Some?
    ensures var r := HeadersOrder(ds, order);
            |r| > 0 && r[0] == FindDemuxer(ds, order[0]).value
  {
    var k := FindDemuxer(ds, order[0]).value;
    assert OrderTarget(ds, order[0], []) == Some(k);
    assert [] + [k] == [k];
    assert OrderPass(ds, order, []) == OrderPass(ds, order[1..], [k]);
    OrderPassGrows(ds, order[1..], [k]);
    HeadersOnce(ds, order);
    var first := OrderPass(ds, order, []);
    assert first[..1] == [k];
  }

  /** The set_headers calls for a call order. */
  function SetHeadersEvents(ks: seq<nat>): (r: seq<Event>)
    ensures |r| == |ks| && forall j :: 0 <= j < |ks| ==> r[j] == SetHeaders(ks[j])
  {
    seq(|ks|, j requires 0 <= j < |ks| => SetHeaders(ks[j]))
  }
}
