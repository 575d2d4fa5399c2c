/** RealVideo fragment reassembly of the RealMedia reader: the variable-width
    sub-packet header that assemble_packet decodes (r_real.cpp), and the
    frame that deliver_segments builds from the collected fragments. */
module RealFragments {
  import opened Common

  // ---------------------------------------------------------------------------
  // Sub-packet headers

  /** A 14- or 30-bit header field: its value, the flag in its top bit, and
      the cursor after it. */
  datatype Field = Field(value: nat, top: bool, next: nat)

  /** A length or offset field at `p`: a big-endian 16-bit word whose bit 14
      set means "these 14 bits are the value"; with bit 14 clear a second
      word follows and the value is the low 30 bits of both. None when the
      cursor runs out. */
  function ReadVarField(chunk: seq<byte>, p: nat): (r: Option<Field>)
    ensures r.Some? <==> p + 2 <= |chunk| && (U16Be(chunk, p) / 0x4000 % 2 == 1 || p + 4 <= |chunk|)
    ensures r.Some? ==> r.value.value < 0x4000_0000 && r.value.next <= |chunk|
    ensures r.Some? ==> r.value.top == (chunk[p] >= 128)
    ensures r.Some? ==> (r.value.next == p + 2 <==> U16Be(chunk, p) / 0x4000 % 2 == 1)
  {
    if p + 2 > |chunk| then None
    else
      var w := U16Be(chunk, p);
      if w / 0x4000 % 2 == 1 then Some(Field(w % 0x4000, w >= 0x8000, p + 2))
      else if p + 4 > |chunk| then None
      else Some(Field((w % 0x4000) * 0x1_0000 + U16Be(chunk, p + 2), w >= 0x8000, p + 4))
  }

  /** The shortest encoding of a field value with the given top flag. */
  function EncodeVarField(value: nat, top: bool): (r: seq<byte>)
    requires value < 0x4000_0000
    ensures |r| == if value < 0x4000 then 2 else 4
  {
    var t := if top then 0x80 else 0;
    if value < 0x4000 then [t + 0x40 + value / 256, value % 256]
    else
      var hi, lo := value / 0x1_0000, value % 0x1_0000;
      [t + hi / 256, hi % 256, lo / 256, lo % 256]
  }

  /** Reading an encoded field back gives its value and flag. */
  lemma VarFieldAt(s: seq<byte>, p: nat, value: nat, top: bool)
    requires value < 0x4000_0000
    requires p + |EncodeVarField(value, top)| <= |s|
    requires s[p..p + |EncodeVarField(value, top)|] == EncodeVarField(value, top)
    ensures ReadVarField(s, p) == Some(Field(value, top, p + |EncodeVarField(value, top)|))
  {
    var e := EncodeVarField(value, top);
    var t := if top then 0x80 else 0;
    assert s[p] == e[0] && s[p + 1] == e[1];
    if value < 0x4000 {
      assert U16Be(s, p) == t * 256 + 0x4000 + value;
    } else {
      var hi, lo := value / 0x1_0000, value % 0x1_0000;
      assert s[p + 2] == e[2] && s[p + 3] == e[3];
      assert U16Be(s, p) == t * 256 + hi;
      assert U16Be(s, p + 2) == lo;
    }
  }

  /** A decoded sub-packet header: the header byte, the total frame length,
      the fragment's offset in the frame (after the end-relative and
      timecode forms are resolved), whether bit 15 of the length marked the
      frame as merged, the fragment's timecode and where its data starts. */
  datatype Fragment = Fragment(header: byte, length: nat, offset: nat, merged: bool,
                               timecode: int, dataStart: nat)

  /** The header form, bits 7 and 6 of the header byte. */
  function Kind(header: byte): nat
  {
    header / 64
  }

  /** The sub-packet header at `pos` of a chunk whose timecode is `tc`.
      None when a read runs past the end of the chunk (the reader then
      aborts). */
  function DecodeFragment(chunk: seq<byte>, pos: nat, tc: int): (r: Option<Fragment>)
    requires pos < |chunk|
    ensures r.Some? ==> pos + 2 <= r.value.dataStart <= |chunk| && r.value.header == chunk[pos]
    ensures r.Some? && tc >= 0 ==> r.value.timecode >= 0
  {
    var hdr := chunk[pos];
    if Kind(hdr) == 1 then
      if pos + 2 > |chunk| then None
      else Some(Fragment(hdr, |chunk| - (pos + 2), 0, false, tc, pos + 2))
    else
      var p := if Kind(hdr) % 2 == 0 then pos + 2 else pos + 1;
      match ReadVarField(chunk, p)
      case None => None
      case Some(l) =>
        match ReadVarField(chunk, l.next)
        case None => None
        case Some(o) =>
          if o.next + 1 > |chunk| then None
          else if Kind(hdr) == 3 then Some(Fragment(hdr, l.value, 0, l.top, o.value * 1000000, o.next + 1))
          else if Kind(hdr) == 2 then Some(Fragment(hdr, l.value, U32(l.value - o.value), l.top, tc, o.next + 1))
          else Some(Fragment(hdr, l.value, o.value, l.top, tc, o.next + 1))
  }

  /** The fields a long sub-packet header carries on the wire. */
  datatype LongHeader = LongHeader(header: byte, subseq: byte, length: nat, merged: bool,
                                   offset: nat, offsetTop: bool, seqnum: byte)

  predicate LongHeaderValid(h: LongHeader)
  {
    Kind(h.header) != 1 && h.length < 0x4000_0000 && h.offset < 0x4000_0000
  }

  /** Writes a long header: the header byte, the sub-sequence byte when bit 6
      is clear, the length and offset fields and the sequence number. */
  function EncodeLongHeader(h: LongHeader): (r: seq<byte>)
    requires LongHeaderValid(h)
    ensures 6 <= |r| <= 11 && r[0] == h.header && r[|r| - 1] == h.seqnum
  {
    [h.header] + (if Kind(h.header) % 2 == 0 then [h.subseq] else [])
    + EncodeVarField(h.length, h.merged) + EncodeVarField(h.offset, h.offsetTop) + [h.seqnum]
  }

  /** A long header decodes from its two fields and the sequence byte. */
  lemma DecodeLongFields(s: seq<byte>, pos: nat, tc: int, hdr: byte, l: Field, o: Field, end: nat)
    requires pos < |s| && s[pos] == hdr && Kind(hdr) != 1
    requires ReadVarField(s, if Kind(hdr) % 2 == 0 then pos + 2 else pos + 1) == Some(l)
    requires ReadVarField(s, l.next) == Some(o) && o.next < |s| && end == o.next + 1
    ensures DecodeFragment(s, pos, tc) ==
              Some(Fragment(hdr, l.value,
                            if Kind(hdr) == 3 then 0
                            else if Kind(hdr) == 2 then U32(l.value - o.value)
                            else o.value,
                            l.top,
                            if Kind(hdr) == 3 then o.value * 1000000 else tc,
                            end))
  {
  }

  /** Decoding an encoded long header: the length and merged flag come back
      as written; form 3 turns the offset into the timecode (milliseconds to
      nanoseconds) with offset 0, form 2 makes the offset end-relative
      (length - offset, as uint32), the other forms keep it. The data starts
      right after the header. */
  lemma LongHeaderRoundTrip(prefix: seq<byte>, h: LongHeader, payload: seq<byte>, tc: int)
    requires LongHeaderValid(h)
    ensures var e := EncodeLongHeader(h);
            DecodeFragment(prefix + e + payload, |prefix|, tc) ==
              Some(Fragment(h.header, h.length,
                            if Kind(h.header) == 3 then 0
                            else if Kind(h.header) == 2 then U32(h.length - h.offset)
                            else h.offset,
                            h.merged,
                            if Kind(h.header) == 3 then h.offset * 1000000 else tc,
                            |prefix| + |e|))
  {
    var s := prefix + EncodeLongHeader(h) + payload;
    var p := |prefix| + (if Kind(h.header) % 2 == 0 then 2 else 1);
    var q := p + |EncodeVarField(h.length, h.merged)|;
    var end := q + |EncodeVarField(h.offset, h.offsetTop)|;
    LongHeaderLayout(prefix, h, payload);
    VarFieldAt(s, p, h.length, h.merged);
    VarFieldAt(s, q, h.offset, h.offsetTop);
    DecodeLongFields(s, |prefix|, tc, h.header, Field(h.length, h.merged, q), Field(h.offset, h.offsetTop, end),
                     |prefix| + |EncodeLongHeader(h)|);
  }

  /** Where the parts of an encoded long header lie. */
  lemma LongHeaderLayout(prefix: seq<byte>, h: LongHeader, payload: seq<byte>)
    requires LongHeaderValid(h)
    ensures var e := EncodeLongHeader(h);
            var s := prefix + e + payload;
            var el := EncodeVarField(h.length, h.merged);
            var eo := EncodeVarField(h.offset, h.offsetTop);
            var p := |prefix| + (if Kind(h.header) % 2 == 0 then 2 else 1);
            s[|prefix|] == h.header && p + |el| + |eo| + 1 == |prefix| + |e| &&
            s[p..p + |el|] == el && s[p + |el|..p + |el| + |eo|] == eo
  {
    var e := EncodeLongHeader(h);
    var s := prefix + e + payload;
    var sub := if Kind(h.header) % 2 == 0 then [h.subseq] else [];
    var el := EncodeVarField(h.length, h.merged);
    var eo := EncodeVarField(h.offset, h.offsetTop);
    var p := |prefix| + 1 + |sub|;
    var q := p + |el|;
    assert e == [h.header] + sub + el + eo + [h.seqnum];
    assert s[p..q] == el by {
      assert s[p..q] == e[1 + |sub|..1 + |sub| + |el|];
    }
    assert s[q..q + |eo|] == eo by {
      assert s[q..q + |eo|] == e[1 + |sub| + |el|..1 + |sub| + |el| + |eo|];
    }
  }

  /** The short form (bits 7-6 equal to 01): one skipped byte, offset 0, and
      the rest of the chunk is the whole frame. */
  lemma ShortHeader(chunk: seq<byte>, pos: nat, tc: int)
    requires pos + 2 <= |chunk| && Kind(chunk[pos]) == 1
    ensures DecodeFragment(chunk, pos, tc) == Some(Fragment(chunk[pos], |chunk| - (pos + 2), 0, false, tc, pos + 2))
  {
  }

  /** assemble_packet's fragment size: the bytes left in the chunk, capped by
      length - offset computed as uint32 and read as a signed 32-bit int.
      None when that difference is negative as a signed int (the byte read
      then fails and the reader aborts). */
  function FragmentSize(f: Fragment, chunkLen: nat): (r: Option<nat>)
    requires f.dataStart <= chunkLen
  {
    var want := U32(f.length - f.offset);
    if want >= 0x8000_0000 then None
    else Some(if chunkLen - f.dataStart < want then chunkLen - f.dataStart else want)
  }

  /** The frame is complete after this fragment: bit 7 of the header is set,
      or offset + size (as uint32) reaches the declared length. */
  predicate CompletesFrame(f: Fragment, size: nat)
  {
    f.header >= 128 || U32(f.offset + size) >= f.length
  }

  /** The size is the smaller of the bytes left and length - offset, and an
      offset past the length aborts. */
  lemma FragmentSizeBounds(f: Fragment, chunkLen: nat)
    requires f.dataStart <= chunkLen && f.length < 0x4000_0000 && f.offset < 0x4000_0000
    ensures f.offset <= f.length ==>
              FragmentSize(f, chunkLen) ==
                Some(if chunkLen - f.dataStart < f.length - f.offset then chunkLen - f.dataStart else f.length - f.offset)
    ensures f.offset > f.length ==> FragmentSize(f, chunkLen).None?
  {
  }

  /** A short-form fragment always completes its frame. */
  lemma ShortFragmentCompletes(chunk: seq<byte>, pos: nat, tc: int)
    requires pos + 2 <= |chunk| < 0x1_0000 && Kind(chunk[pos]) == 1
    ensures var f := DecodeFragment(chunk, pos, tc).value;
            FragmentSize(f, |chunk|) == Some(|chunk| - (pos + 2)) &&
            CompletesFrame(f, FragmentSize(f, |chunk|).value)
  {
    ShortHeader(chunk, pos, tc);
  }

  // ---------------------------------------------------------------------------
  // Frames built from the collected fragments

  /** One collected fragment: its offset in the frame and its bytes. */
  datatype Segment = Segment(offset: nat, data: seq<byte>)

  function Datas(segs: seq<Segment>): (r: seq<seq<byte>>)
    ensures |r| == |segs| && forall i :: 0 <= i < |segs| ==> r[i] == segs[i].data
  {
    if segs == [] then [] else Datas(segs[..|segs| - 1]) + [segs[|segs| - 1].data]
  }

  /** The largest offset + size over the fragments, in uint32 arithmetic. */
  function MaxEnd(segs: seq<Segment>): nat
  {
    if segs == [] then 0
    else
      var m := MaxEnd(segs[..|segs| - 1]);
      var e := U32(segs[|segs| - 1].offset + |segs[|segs| - 1].data|);
      if m < e then e else m
  }

  /** MaxEnd bounds every fragment's end (uint32 offset + size). */
  lemma {:induction false} MaxEndIsMax(segs: seq<Segment>, i: nat)
    requires i < |segs|
    ensures U32(segs[i].offset + |segs[i].data|) <= MaxEnd(segs)
  {
    var init := segs[..|segs| - 1];
    if i < |init| {
      MaxEndIsMax(init, i);
      assert init[i] == segs[i];
    }
  }

  /** The sum of the fragment sizes. */
  function Total(segs: seq<Segment>): nat
  {
    if segs == [] then 0 else Total(segs[..|segs| - 1]) + |segs[|segs| - 1].data|
  }

  /** The size sum is the length of the concatenated fragment bytes. */
  lemma {:induction false} TotalIsConcatLength(segs: seq<Segment>)
    ensures Total(segs) == |Concat(Datas(segs))|
  {
    ConcatLength(Datas(segs));
    TotalIsTotalLength(segs);
  }

  lemma {:induction false} TotalIsTotalLength(segs: seq<Segment>)
    ensures Total(segs) == TotalLength(Datas(segs))
  {
    if segs != [] {
      TotalIsTotalLength(segs[..|segs| - 1]);
      assert Datas(segs)[..|segs| - 1] == Datas(segs[..|segs| - 1]);
    }
  }

  /** Offsets rewritten as running sums of the sizes in arrival order
      (uint32 arithmetic): each fragment's offset becomes the total size of
      the fragments before it. */
  function PrefixOffsets(segs: seq<Segment>): (r: seq<Segment>)
    ensures |r| == |segs|
  {
    if segs == [] then []
    else
      var init := segs[..|segs| - 1];
      PrefixOffsets(init) + [Segment(U32(Total(init)), segs[|segs| - 1].data)]
  }

  /** Each rewritten offset is the uint32 size sum of the fragments before
      it, and the bytes stay. */
  lemma {:induction false} PrefixOffsetsAt(segs: seq<Segment>, i: nat)
    requires i < |segs|
    ensures PrefixOffsets(segs)[i] == Segment(U32(Total(segs[..i])), segs[i].data)
  {
    var init := segs[..|segs| - 1];
    if i < |init| {
      PrefixOffsetsAt(init, i);
      assert init[..i] == segs[..i];
    } else {
      assert segs[..i] == init;
    }
  }

  /** deliver_segments' repair: when the largest end differs from the sum of
      the sizes (both uint32), the offsets become arrival-order prefix sums. */
  function Repair(segs: seq<Segment>): (r: seq<Segment>)
    ensures |r| == |segs| && Datas(r) == Datas(segs)
  {
    var r := if MaxEnd(segs) != U32(Total(segs)) then PrefixOffsets(segs) else segs;
    assert Datas(r) == Datas(segs) by {
      forall i | 0 <= i < |segs|
        ensures Datas(r)[i] == Datas(segs)[i]
      {
        if r != segs {
          PrefixOffsetsAt(segs, i);
        }
      }
    }
    r
  }

  /** The offset table: a (1, offset) pair of little-endian uint32 words per
      fragment. */
  function OffsetTable(segs: seq<Segment>): (r: seq<byte>)
    ensures |r| == 8 * |segs|
  {
    if segs == [] then []
    else OffsetTable(segs[..|segs| - 1]) + U32LeBytes(1) + U32LeBytes(segs[|segs| - 1].offset)
  }

  /** The frame handed to the packetizer: a count byte (0 when merged, else
      the fragment count minus one, truncated to a byte), the offset table
      (a single (1, 0) pair when merged), then the fragment bytes in the
      order the fragments arrived. */
  function FrameBytes(merged: bool, segs: seq<Segment>): (r: seq<byte>)
    requires segs != []
  {
    var count := if merged then 0 else (|segs| - 1) % 256;
    var table := if merged then U32LeBytes(1) + U32LeBytes(0) else OffsetTable(segs);
    [count] + table + Concat(Datas(segs))
  }

  /** The frame deliver_segments builds from the collected fragments. */
  function DeliveredFrame(merged: bool, segs: seq<Segment>): (r: seq<byte>)
    requires segs != []
  {
    FrameBytes(merged, Repair(segs))
  }

  /** Number of (1, offset) pairs in the frame. */
  function TableEntries(merged: bool, segs: seq<Segment>): nat
  {
    if merged then 1 else |segs|
  }

  lemma {:induction false} OffsetTableEntry(segs: seq<Segment>, i: nat)
    requires i < |segs|
    ensures U32Le(OffsetTable(segs), 8 * i) == 1
    ensures U32Le(OffsetTable(segs), 8 * i + 4) == U32(segs[i].offset)
  {
    var last := |segs| - 1;
    var t := OffsetTable(segs);
    var init := OffsetTable(segs[..last]);
    var one, off := U32LeBytes(1), U32LeBytes(segs[last].offset);
    assert t == init + one + off;
    if i < last {
      OffsetTableEntry(segs[..last], i);
      assert t[0..|init|] == init;
      U32LeIn(t, 0, init, 8 * i);
      U32LeIn(t, 0, init, 8 * i + 4);
    } else {
      U32LeRoundTrip(1);
      U32LeRoundTrip(segs[i].offset);
      assert t[8 * i..8 * i + 4] == one;
      assert t[8 * i + 4..8 * i + 8] == off;
      U32LeIn(t, 8 * i, one, 0);
      U32LeIn(t, 8 * i + 4, off, 0);
    }
  }

  /** The frame is 1 + 8k + the sum of the sizes bytes long, k being 1 when
      merged and the fragment count otherwise; the first byte is 0 when
      merged and count - 1 otherwise; the payload is the fragments' bytes
      concatenated in arrival order. */
  lemma FrameLayout(merged: bool, segs: seq<Segment>)
    requires segs != []
    ensures var f := FrameBytes(merged, segs);
            var k := TableEntries(merged, segs);
            |f| == 1 + 8 * k + Total(segs) &&
            f[0] == (if merged then 0 else (|segs| - 1) % 256) &&
            f[1 + 8 * k..] == Concat(Datas(segs))
  {
    TotalIsConcatLength(segs);
  }

  /** Every table entry reads back as the pair (1, offset); when merged the
      single entry is (1, 0). */
  lemma FrameTable(merged: bool, segs: seq<Segment>, i: nat)
    requires segs != [] && i < TableEntries(merged, segs)
    ensures var f := FrameBytes(merged, segs);
            U32Le(f, 1 + 8 * i) == 1 &&
            U32Le(f, 5 + 8 * i) == (if merged then 0 else U32(segs[i].offset))
  {
    var f := FrameBytes(merged, segs);
    var table := if merged then U32LeBytes(1) + U32LeBytes(0) else OffsetTable(segs);
    assert f[1..1 + |table|] == table;
    U32LeIn(f, 1, table, 8 * i);
    U32LeIn(f, 1, table, 8 * i + 4);
    if merged {
      U32LeRoundTrip(1);
      U32LeRoundTrip(0);
      assert table[0..4] == U32LeBytes(1);
      assert table[4..8] == U32LeBytes(0);
      U32LeIn(table, 0, U32LeBytes(1), 0);
      U32LeIn(table, 4, U32LeBytes(0), 0);
    } else {
      OffsetTableEntry(segs, i);
    }
  }

  /** The repair leaves consistent fragments alone and otherwise lays them
      back to back in arrival order. */
  lemma RepairOffsets(segs: seq<Segment>, i: nat)
    requires i < |segs|
    ensures MaxEnd(segs) == U32(Total(segs)) ==> Repair(segs)[i] == segs[i]
    ensures MaxEnd(segs) != U32(Total(segs)) ==> Repair(segs)[i].offset == U32(Total(segs[..i]))
  {
    PrefixOffsetsAt(segs, i);
  }

  /** A frame split into "FGHIJ" at offset 5, "KLMNO" at offset 10 and
      "ABCDE" at offset 0 keeps the arrival order in its payload: the bytes
      are not placed by offset, only the table records the offsets. */
  lemma ArrivalOrderPayload(f1: seq<byte>, f2: seq<byte>, f3: seq<byte>)
    requires |f1| == 5 && |f2| == 5 && |f3| == 5
    ensures var segs := [Segment(5, f1), Segment(10, f2), Segment(0, f3)];
            Repair(segs) == segs &&
            DeliveredFrame(false, segs)[25..] == f1 + f2 + f3 &&
            U32Le(DeliveredFrame(false, segs), 5) == 5
  {
    var segs := [Segment(5, f1), Segment(10, f2), Segment(0, f3)];
    assert segs[..2][..1] == [segs[0]];
    assert segs[..2] == [segs[0], segs[1]];
    assert [segs[0]][..0] == [];
    assert MaxEnd([segs[0]]) == 10;
    assert MaxEnd(segs[..2]) == 15;
    assert Datas(segs) == [f1, f2, f3];
    assert MaxEnd(segs) == 15;
    FrameLayout(false, segs);
    FrameTable(false, segs, 0);
    assert [f1, f2, f3][..2] == [f1, f2];
    assert [f1, f2][..1] == [f1];
    assert [f1][..0] == [];
    assert Concat([f1]) == f1;
    assert Concat([f1, f2]) == f1 + f2;
  }

  // ---------------------------------------------------------------------------
  // Building the frame in a buffer

  /** deliver_segments' first pass: the largest end, the uint32 size sum,
      and the exact size sum used for the buffer length. */
  method Measure(segs: seq<Segment>) returns (len: nat, total: nat, exact: nat)
    ensures len == MaxEnd(segs) && total == U32(Total(segs)) && exact == Total(segs)
  {
    len, total, exact := 0, 0, 0;
    var i := 0;
    while i < |segs|
      invariant 0 <= i <= |segs|
      invariant len == MaxEnd(segs[..i]) && total == U32(Total(segs[..i])) && exact == Total(segs[..i])
    {
      assert segs[..i + 1][..i] == segs[..i];
      U32Add(Total(segs[..i]), |segs[i].data|);
      var end := U32(segs[i].offset + |segs[i].data|);
      if len < end {
        len := end;
      }
      total := U32(total + |segs[i].data|);
      exact := exact + |segs[i].data|;
      i := i + 1;
    }
    assert segs[..i] == segs;
  }

  /** deliver_segments' repair pass: offsets rewritten as running sums. */
  method RewriteOffsets(segs: seq<Segment>) returns (fixed: seq<Segment>)
    ensures fixed == PrefixOffsets(segs)
  {
    fixed := segs;
    var len := 0;
    var i := 0;
    while i < |segs|
      invariant 0 <= i <= |segs|
      invariant fixed == PrefixOffsets(segs[..i]) + segs[i..]
      invariant len == U32(Total(segs[..i]))
    {
      RewriteStep(segs, i, fixed, len);
      fixed := fixed[i := Segment(len, fixed[i].data)];
      len := U32(len + |segs[i].data|);
      i := i + 1;
    }
    assert segs[..i] == segs;
  }

  /** One step of the repair pass: the fragment at `i` gets the size sum of
      those before it. */
  lemma RewriteStep(segs: seq<Segment>, i: nat, fixed: seq<Segment>, len: nat)
    requires i < |segs| && fixed == PrefixOffsets(segs[..i]) + segs[i..] && len == U32(Total(segs[..i]))
    ensures fixed[i := Segment(len, fixed[i].data)] == PrefixOffsets(segs[..i + 1]) + segs[i + 1..]
    ensures U32(len + |segs[i].data|) == U32(Total(segs[..i + 1]))
  {
    assert segs[..i + 1][..i] == segs[..i];
    U32Add(Total(segs[..i]), |segs[i].data|);
  }

  /** Writes the (1, offset) pairs of `segs` from `ptr` on. */
  method PutTable(buf: array<byte>, ptr: nat, segs: seq<Segment>) returns (next: nat)
    requires ptr + 8 * |segs| <= buf.Length
    modifies buf
    ensures next == ptr + 8 * |segs|
    ensures buf[..next] == old(buf[..ptr]) + OffsetTable(segs)
  {
    next := ptr;
    var i := 0;
    while i < |segs|
      invariant 0 <= i <= |segs| && next == ptr + 8 * i
      invariant buf[..next] == old(buf[..ptr]) + OffsetTable(segs[..i])
    {
      assert segs[..i + 1][..i] == segs[..i];
      PutU32(buf, next, 1);
      next := next + 4;
      PutU32(buf, next, segs[i].offset);
      next := next + 4;
      i := i + 1;
    }
    assert segs[..i] == segs;
  }

  /** Copies the fragments' bytes one after the other from `ptr` on. */
  method PutData(buf: array<byte>, ptr: nat, segs: seq<Segment>) returns (next: nat)
    requires ptr + Total(segs) <= buf.Length
    modifies buf
    ensures next == ptr + Total(segs)
    ensures buf[..next] == old(buf[..ptr]) + Concat(Datas(segs))
  {
    next := ptr;
    var i := 0;
    while i < |segs|
      invariant 0 <= i <= |segs| && next == ptr + Total(segs[..i])
      invariant Total(segs[..i]) <= Total(segs)
      invariant buf[..next] == old(buf[..ptr]) + Concat(Datas(segs[..i]))
    {
      assert segs[..i + 1][..i] == segs[..i];
      assert Datas(segs[..i + 1])[..i] == Datas(segs[..i]);
      TotalPrefix(segs, i + 1);
      PutBytes(buf, next, segs[i].data);
      next := next + |segs[i].data|;
      i := i + 1;
    }
    assert segs[..i] == segs;
  }

  /** The size sum of a prefix is at most the whole sum. */
  lemma {:induction false} TotalPrefix(segs: seq<Segment>, i: nat)
    requires i <= |segs|
    ensures Total(segs[..i]) <= Total(segs)
    decreases |segs|
  {
    if i < |segs| {
      TotalPrefix(segs[..|segs| - 1], i);
      assert segs[..|segs| - 1][..i] == segs[..i];
    } else {
      assert segs[..i] == segs;
    }
  }

  /** Writes the count byte and the offset table at the start of `buf`. */
  method PutHead(buf: array<byte>, merged: bool, segs: seq<Segment>) returns (next: nat)
    requires segs != [] && 1 + 8 * TableEntries(merged, segs) <= buf.Length
    modifies buf
    ensures next == 1 + 8 * TableEntries(merged, segs)
    ensures buf[..next] == FrameBytes(merged, segs)[..next]
  {
    buf[0] := if merged then 0 else (|segs| - 1) % 256;
    if merged {
      PutU32(buf, 1, 1);
      PutU32(buf, 5, 0);
      next := 9;
    } else {
      next := PutTable(buf, 1, segs);
    }
  }

  /** deliver_segments' frame construction: measures the fragments, repairs
      their offsets when they are inconsistent, then fills a buffer through
      a moving write position with the count byte, the offset table and the
      fragment bytes. */
  method BuildFrame(merged: bool, segs: seq<Segment>) returns (frame: seq<byte>)
    requires segs != []
    ensures frame == DeliveredFrame(merged, segs)
  {
    var len, total, exact := Measure(segs);
    var fixed := segs;
    if len != total {
      fixed := RewriteOffsets(segs);
    }
    assert fixed == Repair(segs);
    assert Total(fixed) == exact by {
      TotalIsConcatLength(fixed);
      TotalIsConcatLength(segs);
    }
    var buf := new byte[1 + 8 * TableEntries(merged, fixed) + exact];
    var ptr := PutHead(buf, merged, fixed);
    ptr := PutData(buf, ptr, fixed);
    FrameSplit(merged, fixed);
    assert buf[..] == buf[..ptr];
    frame := buf[..];
  }

  /** The frame is its head (count byte and table) followed by the
      fragments' bytes. */
  lemma FrameSplit(merged: bool, segs: seq<Segment>)
    requires segs != []
    ensures var f := FrameBytes(merged, segs);
            var n := 1 + 8 * TableEntries(merged, segs);
            n <= |f| && f[..n] + Concat(Datas(segs)) == f
  {
    FrameLayout(merged, segs);
    var f := FrameBytes(merged, segs);
    var n := 1 + 8 * TableEntries(merged, segs);
    assert f == f[..n] + f[n..];
  }
}
