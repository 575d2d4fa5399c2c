/** The RealMedia file header of the reader (r_real.cpp): the probe, the
    chain of header objects that parse_headers walks, and the classification
    of each stream's MDPR type-specific data into a video or audio track. */
module RealHeaders {
  import opened Common

  /** tolower on a byte in the C locale */
  function LowerByte(b: byte): byte
  {
    if 'A' as int <= b <= 'Z' as int then b + 32 else b
  }

  /** The bytes of an ASCII string. */
  function Bytes(s: string): (r: seq<byte>)
    requires forall i :: 0 <= i < |s| ==> s[i] as int < 256
    ensures |r| == |s| && forall i :: 0 <= i < |s| ==> r[i] == s[i] as int
  {
    seq(|s|, i requires 0 <= i < |s| => s[i] as int)
  }

  /** strncasecmp(a, b, n) == 0 for byte strings without a NUL. */
  predicate EqualsCaseBytes(a: seq<byte>, b: seq<byte>)
  {
    |a| == |b| && forall i :: 0 <= i < |a| ==> LowerByte(a[i]) == LowerByte(b[i])
  }

  const RMF: seq<byte> := Bytes(".RMF")

  /** probe_file: the file is RealMedia when it has at least four bytes and
      they are ".RMF" in any letter case. */
  function ProbeFile(file: seq<byte>): bool
  {
    |file| >= 4 && EqualsCaseBytes(file[..4], RMF)
  }

  /** The probe accepts exactly a dot followed by R, M and F, each in either
      case. */
  lemma ProbeAcceptsExactly(file: seq<byte>)
    ensures ProbeFile(file) <==>
              |file| >= 4 && file[0] == '.' as int &&
              (file[1] == 'R' as int || file[1] == 'r' as int) &&
              (file[2] == 'M' as int || file[2] == 'm' as int) &&
              (file[3] == 'F' as int || file[3] == 'f' as int)
  {
    if |file| >= 4 {
      assert RMF == ['.' as int, 'R' as int, 'M' as int, 'F' as int];
      if ProbeFile(file) {
        assert LowerByte(file[0]) == LowerByte(RMF[0]);
        assert LowerByte(file[1]) == LowerByte(RMF[1]);
        assert LowerByte(file[2]) == LowerByte(RMF[2]);
        assert LowerByte(file[3]) == LowerByte(RMF[3]);
      }
    }
  }

  // ---------------------------------------------------------------------------
  // Streams

  datatype TrackKind = VideoTrack | AudioTrack

  /** One stream announced by an MDPR object, as the reader keeps it. */
  datatype StreamInfo = StreamInfo(id: nat, kind: TrackKind, startTime: nat, preroll: nat,
                                   fourcc: seq<byte>, width: nat, height: nat,
                                   channels: nat, sampleRate: nat, bitsPerSample: nat,
                                   privateData: seq<byte>, extraData: seq<byte>)

  /** demuxing_requested: whether the user selected the track of this kind
      and id (an input of the reader). */
  type Selection = (TrackKind, nat) -> bool

  const VIDO: seq<byte> := Bytes("VIDO")
  const RaMagic: seq<byte> := Bytes(".ra") + [0xfd]

  /** Size of the packed video properties record. */
  const VideoPropsSize := 34
  /** Size of the packed RealAudio 4 properties record. */
  const AudioV4PropsSize := 56
  /** Size of the packed RealAudio 5 properties record. */
  const AudioV5PropsSize := 70

  /** A video track: the data holds at least the video properties record
      with "VIDO" at bytes 4-7; the FourCC follows, then the big-endian
      width and height. */
  function VideoStream(id: nat, startTime: nat, preroll: nat, data: seq<byte>): (s: StreamInfo)
    requires |data| >= VideoPropsSize
    ensures s.kind == VideoTrack && s.fourcc == data[8..12] && s.privateData == data
  {
    StreamInfo(id, VideoTrack, startTime, preroll, data[8..12], U16Be(data, 12), U16Be(data, 14),
               0, 0, 0, data, [])
  }

  /** The bytes after the RealAudio 4 record that the reader reads: a
      length-prefixed description, then a length byte that must be 4, then
      the FourCC. Every one of them must lie inside the data. */
  predicate AudioV4Complete(data: seq<byte>)
  {
    var p := AudioV4PropsSize;
    p + 1 <= |data| &&
    p + 2 + data[p] <= |data| &&
    (data[p + 1 + data[p]] == 4 ==> p + 6 + data[p] <= |data|)
  }

  /** A RealAudio 4 track, or None when the byte after the description is
      not 4 (the reader skips such a track) or the record runs past the
      data. */
  function AudioV4Stream(id: nat, startTime: nat, preroll: nat, data: seq<byte>): (r: Option<StreamInfo>)
    requires |data| >= AudioV4PropsSize
    ensures r.Some? ==> AudioV4Complete(data) && r.value.kind == AudioTrack &&
                        data[AudioV4PropsSize + 1 + data[AudioV4PropsSize]] == 4 &&
                        r.value.fourcc == data[AudioV4PropsSize + 2 + data[AudioV4PropsSize]..
                                               AudioV4PropsSize + 6 + data[AudioV4PropsSize]]
    ensures AudioV4Complete(data) && data[AudioV4PropsSize + 1 + data[AudioV4PropsSize]] == 4 ==> r.Some?
  {
    if !AudioV4Complete(data) then None
    else
      var p := AudioV4PropsSize + 1 + data[AudioV4PropsSize];
      if data[p] != 4 then None
      else
        var fourcc := data[p + 1..p + 5];
        var extra := if |data| > p + 5 then data[p + 5..] else [];
        Some(StreamInfo(id, AudioTrack, startTime, preroll, fourcc, 0, 0,
                        U16Be(data, 54), U16Be(data, 48), U16Be(data, 52), data, extra))
  }

  /** A RealAudio 5 track: FourCC at bytes 66-69, extra data after byte 74.
      None when the data is shorter than the record. */
  function AudioV5Stream(id: nat, startTime: nat, preroll: nat, data: seq<byte>): (r: Option<StreamInfo>)
    ensures r.Some? <==> |data| >= AudioV5PropsSize
    ensures r.Some? ==> r.value.fourcc == data[66..70] &&
                        r.value.extraData == (if |data| > 74 then data[74..] else [])
  {
    if |data| < AudioV5PropsSize then None
    else
      var extra := if |data| > AudioV5PropsSize + 4 then data[AudioV5PropsSize + 4..] else [];
      Some(StreamInfo(id, AudioTrack, startTime, preroll, data[66..70], 0, 0,
                      U16Be(data, 60), U16Be(data, 54), U16Be(data, 58), data, extra))
  }

  /** The audio check as the reader writes it: at least the RealAudio 4
      record and the ".ra\xfd" magic. */
  predicate AudioGuardAsWritten(data: seq<byte>)
  {
    |data| >= AudioV4PropsSize && data[..4] == RaMagic
  }

  /** The last byte index, plus one, that the audio branch reads: the whole
      RealAudio 5 record for a version other than 4, and for version 4 at
      least the description length byte after the record. */
  function AudioReadEnd(data: seq<byte>): nat
    requires AudioGuardAsWritten(data)
  {
    if U16Be(data, 4) != 4 then AudioV5PropsSize else AudioV4PropsSize + 1
  }

  /** The guard lets 56-byte data through, and the reader then reads past it:
      bytes 56-69 for version 5, byte 56 for version 4. */
  lemma AudioGuardReadsPastData()
    ensures var d5 := RaMagic + [0, 5] + seq(50, _ => 0);
            AudioGuardAsWritten(d5) && AudioReadEnd(d5) > |d5|
    ensures var d4 := RaMagic + [0, 4] + seq(50, _ => 0);
            AudioGuardAsWritten(d4) && AudioReadEnd(d4) > |d4|
  {
    var d5 := RaMagic + [0, 5] + seq(50, _ => 0);
    var d4 := RaMagic + [0, 4] + seq(50, _ => 0);
    assert d5[..4] == RaMagic && d5[4] == 0 && d5[5] == 5;
    assert d4[..4] == RaMagic && d4[4] == 0 && d4[5] == 4;
  }

  /** The classification the model uses admits an audio track only when
      every byte the audio branch reads lies inside the data: the whole
      RealAudio 5 record, or the RealAudio 4 description, length byte and
      FourCC. */
  lemma AudioGuardCorrected(id: nat, startTime: nat, preroll: nat, data: seq<byte>, wanted: Selection)
    ensures var r := ClassifyMdpr(id, startTime, preroll, data, wanted);
            r.Some? && r.value.kind == AudioTrack ==>
              AudioGuardAsWritten(data) && AudioReadEnd(data) <= |data| &&
              (U16Be(data, 4) == 4 ==> AudioV4Complete(data)) &&
              (U16Be(data, 4) != 4 ==> |data| >= AudioV5PropsSize)
  {
  }

  /** The stream an MDPR object describes, or None when it is neither a
      selected video track nor a selected, complete audio track. */
  function ClassifyMdpr(id: nat, startTime: nat, preroll: nat, data: seq<byte>, wanted: Selection): (r: Option<StreamInfo>)
    ensures r.Some? ==> r.value.id == id && r.value.privateData == data && wanted(r.value.kind, id)
    ensures r.Some? && r.value.kind == AudioTrack ==> |data| >= AudioV4PropsSize && data[..4] == RaMagic
  {
    if |data| >= VideoPropsSize && data[4..8] == VIDO && wanted(VideoTrack, id) then
      Some(VideoStream(id, startTime, preroll, data))
    else if |data| >= AudioV4PropsSize && data[..4] == RaMagic && wanted(AudioTrack, id) then
      if U16Be(data, 4) == 4 then AudioV4Stream(id, startTime, preroll, data)
      else AudioV5Stream(id, startTime, preroll, data)
    else None
  }

  /** A selected video record becomes a video track with the FourCC, width
      and height it carries. */
  lemma ClassifyVideo(id: nat, startTime: nat, preroll: nat, data: seq<byte>, wanted: Selection)
    requires |data| >= VideoPropsSize && data[4..8] == VIDO && wanted(VideoTrack, id)
    ensures var r := ClassifyMdpr(id, startTime, preroll, data, wanted);
            r.Some? && r.value.kind == VideoTrack && r.value.fourcc == data[8..12] &&
            r.value.width == data[12] as int * 256 + data[13] &&
            r.value.height == data[14] as int * 256 + data[15]
  {
  }

  /** Data that is neither a video nor an audio record adds no track. */
  lemma ClassifyNeither(id: nat, startTime: nat, preroll: nat, data: seq<byte>, wanted: Selection)
    requires !(|data| >= VideoPropsSize && data[4..8] == VIDO)
    requires !(|data| >= AudioV4PropsSize && data[..4] == RaMagic)
    ensures ClassifyMdpr(id, startTime, preroll, data, wanted).None?
  {
  }

  // ---------------------------------------------------------------------------
  // The header object chain

  const PROP: seq<byte> := Bytes("PROP")
  const CONT: seq<byte> := Bytes("CONT")
  const MDPR: seq<byte> := Bytes("MDPR")
  const DATA: seq<byte> := Bytes("DATA")
  const INDX: seq<byte> := Bytes("INDX")

  /** What parse_headers leaves behind: the tracks, the packet count of the
      first data chunk and the position of its first packet. */
  datatype Headers = Headers(streams: seq<StreamInfo>, numPacketsInChunk: nat, dataPos: nat)

  /** A length-prefixed string at `p` with a `w`-byte big-endian length:
      the position after it, or None when it runs past the file. */
  function SkipCounted(file: seq<byte>, p: nat, w: nat): (r: Option<nat>)
    requires w == 1 || w == 2
    ensures r.Some? ==> p + w <= r.value <= |file|
  {
    if p + w > |file| then None
    else
      var n := if w == 1 then file[p] as nat else U16Be(file, p);
      if p + w + n > |file| then None else Some(p + w + n)
  }

  /** The CONT object body: title, author, copyright and comment, each a
      16-bit length and that many bytes. */
  function SkipContent(file: seq<byte>, p: nat): (r: Option<nat>)
    ensures r.Some? ==> p + 8 <= r.value <= |file|
  {
    match SkipCounted(file, p, 2)
    case None => None
    case Some(p1) =>
      match SkipCounted(file, p1, 2)
      case None => None
      case Some(p2) =>
        match SkipCounted(file, p2, 2)
        case None => None
        case Some(p3) => SkipCounted(file, p3, 2)
  }

  /** The MDPR object body at `p`: the stream id, the start time and preroll,
      the stream name and MIME type (8-bit lengths), then the 32-bit length
      of the type-specific data and the data. Returns the track, if any, and
      the position after the body; None when a read runs past the file. */
  function ParseMdpr(file: seq<byte>, p: nat, wanted: Selection): (r: Option<(Option<StreamInfo>, nat)>)
    ensures r.Some? ==> p + 34 <= r.value.1 <= |file|
  {
    if p + 31 > |file| then None
    else
      var id := U16Be(file, p);
      var startTime := U32Be(file, p + 18);
      var preroll := U32Be(file, p + 22);
      match SkipCounted(file, p + 30, 1)
      case None => None
      case Some(q) =>
        match SkipCounted(file, q, 1)
        case None => None
        case Some(q2) =>
          if q2 + 4 > |file| then None
          else
            var size := U32Be(file, q2);
            if q2 + 4 + size > |file| then None
            else if size == 0 then Some((None, q2 + 4))
            else Some((ClassifyMdpr(id, startTime, preroll, file[q2 + 4..q2 + 4 + size], wanted), q2 + 4 + size))
  }

  /** The outcome of reading one header object: go on at `pos` with the
      tracks found so far, or stop with the headers or a fatal error. */
  datatype Step = Next(pos: nat, streams: seq<StreamInfo>) | Stop(result: Result<Headers>)

  /** One header object at `pos`: a FourCC id, a 32-bit size and a 16-bit
      version, then the body. PROP is skipped, CONT's strings are skipped,
      MDPR may add a track, DATA ends the headers; any other id is fatal,
      as is a read past the end of the file. */
  function HeaderStep(file: seq<byte>, pos: nat, wanted: Selection, acc: seq<StreamInfo>): (r: Step)
    ensures r.Next? ==> pos < r.pos <= |file| + 46 && |r.streams| >= |acc| && r.streams[..|acc|] == acc
    ensures r.Stop? && r.result.Ok? ==> r.result.value.streams == acc
  {
    if pos + 4 > |file| then Stop(Err("short header object"))
    else
      var objectId := file[pos..pos + 4];
      var p := pos + 10;
      if objectId == PROP then Next(p + 40, acc)
      else if objectId == CONT then
        match SkipContent(file, p)
        case None => Stop(Err("short CONT object"))
        case Some(next) => Next(next, acc)
      else if objectId == MDPR then
        match ParseMdpr(file, p, wanted)
        case None => Stop(Err("short MDPR object"))
        case Some((s, next)) => Next(next, if s.Some? then acc + [s.value] else acc)
      else if objectId == DATA then
        if p + 4 > |file| then Stop(Err("short DATA object"))
        else Stop(Ok(Headers(acc, U32Be(file, p), p + 8)))
      else Stop(Err("unknown header object"))
  }

  /** The header objects from `pos` on, until DATA or an error. */
  function HeaderObjects(file: seq<byte>, pos: nat, wanted: Selection, acc: seq<StreamInfo>): (r: Result<Headers>)
    ensures r.Ok? ==> |r.value.streams| >= |acc| && r.value.streams[..|acc|] == acc
    decreases |file| + 50 - pos
  {
    match HeaderStep(file, pos, wanted, acc)
    case Stop(res) => res
    case Next(next, streams) => HeaderObjects(file, next, wanted, streams)
  }

  /** parse_headers' result: the objects that follow the 18-byte file header. */
  function ParseHeadersSpec(file: seq<byte>, wanted: Selection): Result<Headers>
  {
    HeaderObjects(file, 18, wanted, [])
  }

  /** An object id other than PROP, CONT, MDPR and DATA is fatal: the reader
      does not skip unknown objects. */
  lemma UnknownObjectIsFatal(file: seq<byte>, pos: nat, wanted: Selection, acc: seq<StreamInfo>)
    requires pos + 4 <= |file|
    requires file[pos..pos + 4] !in {PROP, CONT, MDPR, DATA}
    ensures HeaderObjects(file, pos, wanted, acc).Err?
  {
  }

  /** A DATA object ends the headers with its 32-bit packet count, and the
      packets start after its 18-byte header. */
  lemma DataObjectEnds(file: seq<byte>, pos: nat, wanted: Selection, acc: seq<StreamInfo>)
    requires pos + 14 <= |file| && file[pos..pos + 4] == DATA
    ensures HeaderObjects(file, pos, wanted, acc) == Ok(Headers(acc, U32Be(file, pos + 10), pos + 18))
  {
    assert DATA != PROP && DATA != CONT && DATA != MDPR by {
      assert DATA[0] != PROP[0] && DATA[0] != CONT[0] && DATA[0] != MDPR[0];
    }
  }

  /** A PROP object is skipped whole: 10 header bytes and 40 property bytes. */
  lemma PropObjectSkipped(file: seq<byte>, pos: nat, wanted: Selection, acc: seq<StreamInfo>)
    requires pos + 4 <= |file| && file[pos..pos + 4] == PROP
    ensures HeaderObjects(file, pos, wanted, acc) == HeaderObjects(file, pos + 50, wanted, acc)
  {
  }

  /** The 16-bit length and the bytes of one CONT string. */
  method SkipString16(file: seq<byte>, p: nat) returns (r: Option<nat>)
    ensures r == SkipCounted(file, p, 2)
  {
    if p + 2 > |file| {
      return None;
    }
    var n := U16Be(file, p);
    if p + 2 + n > |file| {
      return None;
    }
    return Some(p + 2 + n);
  }

  /** The four length-prefixed strings of a CONT object, read one after
      the other. */
  method SkipContentFields(file: seq<byte>, p: nat) returns (r: Option<nat>)
    ensures r == SkipContent(file, p)
  {
    r := SkipString16(file, p);
    if r.None? {
      return;
    }
    r := SkipString16(file, r.value);
    if r.None? {
      return;
    }
    r := SkipString16(file, r.value);
    if r.None? {
      return;
    }
    r := SkipString16(file, r.value);
  }

  /** One pass of parse_headers' loop: reads the object at `pos`. */
  method ReadObject(file: seq<byte>, pos: nat, wanted: Selection, streams: seq<StreamInfo>) returns (s: Step)
    ensures s == HeaderStep(file, pos, wanted, streams)
  {
    if pos + 4 > |file| {
      return Stop(Err("short header object"));
    }
    var objectId := file[pos..pos + 4];
    var p := pos + 10;
    if objectId == PROP {
      return Next(p + 40, streams);
    } else if objectId == CONT {
      var next := SkipContentFields(file, p);
      if next.None? {
        return Stop(Err("short CONT object"));
      }
      return Next(next.value, streams);
    } else if objectId == MDPR {
      var m := ParseMdpr(file, p, wanted);
      if m.None? {
        return Stop(Err("short MDPR object"));
      }
      var found := m.value.0;
      return Next(m.value.1, if found.Some? then streams + [found.value] else streams);
    } else if objectId == DATA {
      if p + 4 > |file| {
        return Stop(Err("short DATA object"));
      }
      return Stop(Ok(Headers(streams, U32Be(file, p), p + 8)));
    }
    return Stop(Err("unknown header object"));
  }

  /** parse_headers: walks the header objects with a file cursor until the
      DATA object; an unknown object or a short read is fatal. */
  method ParseHeaders(file: seq<byte>, wanted: Selection) returns (r: Result<Headers>)
    ensures r == ParseHeadersSpec(file, wanted)
  {
    var pos := 18;
    var streams: seq<StreamInfo> := [];
    while true
      invariant HeaderObjects(file, pos, wanted, streams) == ParseHeadersSpec(file, wanted)
      decreases |file| + 50 - pos
    {
      var s := ReadObject(file, pos, wanted, streams);
      if s.Stop? {
        return s.result;
      }
      pos, streams := s.pos, s.streams;
    }
  }
}
