/** The working state through assemble_packet's loop: what one fragment
    leaves behind, and what the whole loop leaves behind. */
module RealAssembly {
  import opened Common
  import opened RealFragments
  import opened RealDemuxer

  /** FragmentStep unfolded into its two parts (a proof helper). */
  lemma FragmentStepParts(d: Demuxer, k: nat, chunk: seq<byte>, f: Fragment, size: nat, display: DisplayOverride)
    requires f.dataStart + size <= |chunk|
    ensures var s2 := AddFragment(d, k, FragmentData(chunk, f, size), f, display);
            var s3 := DeliverSpec(s2.0, k, f.timecode);
            FragmentStep(d, k, chunk, f, size, display).0 ==
              (if CompletesFrame(f, size) then s3.0.(keyframe := false) else s2.0) &&
            FragmentStep(d, k, chunk, f, size, display).1 ==
              (if CompletesFrame(f, size) then s2.1 + s3.1 else s2.1)
  {
  }

  /** One fragment of the loop: its events come first, then those of the
      rest of the loop, run from the state the fragment leaves. */
  lemma AssembleFromSplits(d: Demuxer, k: nat, chunk: seq<byte>, p: nat, tc: int, display: DisplayOverride,
                           f: Fragment, size: nat)
    requires |chunk| > p + 2 && DecodeFragment(chunk, p, tc) == Some(f) && FragmentSize(f, |chunk|) == Some(size)
    ensures p < f.dataStart + size <= |chunk|
    ensures AssembleFrom(d, k, chunk, p, tc, display) ==
            Prepend(FragmentStep(d, k, chunk, f, size, display).1,
                    AssembleFrom(FragmentStep(d, k, chunk, f, size, display).0, k, chunk, f.dataStart + size, tc, display))
  {
    AssembleFromNext(d, k, chunk, p, tc, display, f, size);
    AssembleAfterIs(d, k, chunk, tc, display, f, size);
  }

  /** AssembleFromSplits with FragmentStep unfolded (a proof helper for
      the imperative loop). */
  lemma AssembleFromTakes(d: Demuxer, k: nat, chunk: seq<byte>, p: nat, tc: int, display: DisplayOverride,
                          f: Fragment, size: nat)
    requires |chunk| > p + 2 && DecodeFragment(chunk, p, tc) == Some(f) && FragmentSize(f, |chunk|) == Some(size)
    ensures f.dataStart + size <= |chunk|
    ensures var s2 := AddFragment(d, k, FragmentData(chunk, f, size), f, display);
            var s3 := DeliverSpec(s2.0, k, f.timecode);
            CompletesFrame(f, size) ==>
              AssembleFrom(d, k, chunk, p, tc, display) ==
              Prepend(s2.1 + s3.1, AssembleFrom(s3.0.(keyframe := false), k, chunk, f.dataStart + size, tc, display))
    ensures var s2 := AddFragment(d, k, FragmentData(chunk, f, size), f, display);
            !CompletesFrame(f, size) ==>
              AssembleFrom(d, k, chunk, p, tc, display) ==
              Prepend(s2.1, AssembleFrom(s2.0, k, chunk, f.dataStart + size, tc, display))
  {
    AssembleFromSplits(d, k, chunk, p, tc, display, f, size);
    FragmentStepParts(d, k, chunk, f, size, display);
  }

  /** The outcome of assembling that delivers one frame last: `frame` at
      timecode `tc` with frame type `bref`, after which nothing is pending.
      Only frame-size changes come before it, and none when `sized` (the
      frame size was already known). */
  ghost predicate DeliversOne(r: (Demuxer, seq<Event>), k: nat, frame: seq<byte>, tc: int, bref: int, sized: bool)
  {
    r.0.segments == [] && |r.1| >= 1 &&
    r.1[|r.1| - 1] == Process(k, frame, tc, Unset, bref) &&
    (forall i :: 0 <= i < |r.1| - 1 ==> r.1[i].TrackDimensions?) &&
    (sized ==> |r.1| == 1)
  }

  /** A fragment that completes its frame delivers it: the pending
      fragments and this one go out as one frame at the fragment's
      timecode, marked by the key flag the frame started with. Afterwards
      later fragments are not key. */
  lemma CompletingFragmentDelivers(d: Demuxer, k: nat, chunk: seq<byte>, f: Fragment, size: nat,
                                   display: DisplayOverride)
    requires f.dataStart + size <= |chunk| && CompletesFrame(f, size)
    ensures var r := FragmentStep(d, k, chunk, f, size, display);
            var segs := d.segments + [Segment(f.offset, chunk[f.dataStart..f.dataStart + size])];
            DeliversOne(r, k, DeliveredFrame(d.merged || f.merged, segs), f.timecode,
                        if d.keyframe then IFrame else PFrameAutomatic, d.rvDimensions) &&
            !r.0.keyframe && r.0.cTimecode == f.timecode
  {
    var data := FragmentData(chunk, f, size);
    var s2 := AddFragment(d, k, data, f, display);
    AddFragmentEvents(d, k, data, f, display);
    CompletingStep(d, k, chunk, f, size, display);
    assert s2.0.merged == (d.merged || f.merged) && s2.0.keyframe == d.keyframe;
    assert s2.0.segments == d.segments + [Segment(f.offset, chunk[f.dataStart..f.dataStart + size])];
    DeliversAfterSizeChange(s2.0.(segments := [], keyframe := false), s2.1, k,
                            DeliveredFrame(s2.0.merged, s2.0.segments), f.timecode,
                            if d.keyframe then IFrame else PFrameAutomatic, d.rvDimensions);
  }

  /** FragmentStep for a completing fragment, with DeliverSpec unfolded. */
  lemma CompletingStep(d: Demuxer, k: nat, chunk: seq<byte>, f: Fragment, size: nat, display: DisplayOverride)
    requires f.dataStart + size <= |chunk| && CompletesFrame(f, size)
    ensures var s2 := AddFragment(d, k, FragmentData(chunk, f, size), f, display);
            FragmentStep(d, k, chunk, f, size, display) ==
              (s2.0.(segments := [], keyframe := false),
               s2.1 + [Process(k, DeliveredFrame(s2.0.merged, s2.0.segments), f.timecode, Unset,
                               if s2.0.keyframe then IFrame else PFrameAutomatic)])
  {
    FragmentStepParts(d, k, chunk, f, size, display);
  }

  /** A frame delivered after at most one frame-size change, and after none
      when `sized`, is a single delivery. */
  lemma DeliversAfterSizeChange(dm: Demuxer, pre: seq<Event>, k: nat, frame: seq<byte>, tc: int, bref: int,
                                sized: bool)
    requires dm.segments == [] && |pre| <= 1 && (forall i :: 0 <= i < |pre| ==> pre[i].TrackDimensions?)
    requires sized ==> pre == []
    ensures DeliversOne((dm, pre + [Process(k, frame, tc, Unset, bref)]), k, frame, tc, bref, sized)
  {
    var ev := pre + [Process(k, frame, tc, Unset, bref)];
    forall i | 0 <= i < |ev| - 1
      ensures ev[i].TrackDimensions?
    {
      assert ev[i] == pre[i];
    }
  }

  /** Adding a fragment keeps the key flag and reports at most a frame-size
      change, and none once the size is known. */
  lemma AddFragmentEvents(d: Demuxer, k: nat, data: seq<byte>, f: Fragment, display: DisplayOverride)
    ensures var s := AddFragment(d, k, data, f, display);
            s.0.keyframe == d.keyframe && |s.1| <= 1 &&
            (forall i :: 0 <= i < |s.1| ==> s.1[i].TrackDimensions?) &&
            (d.rvDimensions ==> s.1 == [])
  {
    var d1 := d.(merged := d.merged || f.merged, segments := d.segments + [Segment(f.offset, data)],
                 cTimecode := f.timecode);
    SetDimensionsOutcome(d1, k, data, display);
  }

  /** A chunk that holds one short-header fragment ((hdr & 0xC0) == 0x40),
      arriving on a stream with nothing pending, becomes exactly one frame
      at the packet's timecode: not merged, one table entry (1, 0), and the
      chunk's bytes after the two header bytes. The key flag of the packet
      decides the frame type. */
  lemma ShortChunkDeliversFrame(d: Demuxer, k: nat, chunk: seq<byte>, tc: int, key: bool,
                                display: DisplayOverride)
    requires 2 < |chunk| < 0x1_0000 && Kind(chunk[0]) == 1 && d.segments == []
    ensures var r := AssembleSpec(d, k, chunk, tc, key, display);
            r.Some? && DeliversOne(r.value, k, [0, 1, 0, 0, 0, 0, 0, 0, 0] + chunk[2..], tc,
                                   if key then IFrame else PFrameAutomatic, d.rvDimensions)
  {
    var d0 := d.(keyframe := key, merged := false);
    NothingPendingStarts(d, k, chunk, tc, key, display);
    ShortChunkAssembles(d0, k, chunk, tc, display);
  }

  /** The loop over a chunk of one short-header fragment, from a fresh
      unmerged frame. */
  lemma ShortChunkAssembles(d: Demuxer, k: nat, chunk: seq<byte>, tc: int, display: DisplayOverride)
    requires 2 < |chunk| < 0x1_0000 && Kind(chunk[0]) == 1 && d.segments == [] && !d.merged
    ensures var r := AssembleFrom(d, k, chunk, 0, tc, display);
            r.Some? && DeliversOne(r.value, k, [0, 1, 0, 0, 0, 0, 0, 0, 0] + chunk[2..], tc,
                                   if d.keyframe then IFrame else PFrameAutomatic, d.rvDimensions)
  {
    ShortHeader(chunk, 0, tc);
    ShortFragmentCompletes(chunk, 0, tc);
    var f := DecodeFragment(chunk, 0, tc).value;
    var size := |chunk| - 2;
    assert f.offset == 0 && f.dataStart == 2 && !f.merged && f.timecode == tc && chunk[2..|chunk|] == chunk[2..];
    SingleFragmentChunk(d, k, chunk, tc, display, f, size);
    CompletingFragmentDelivers(d, k, chunk, f, size, display);
    var segs := d.segments + [Segment(f.offset, chunk[f.dataStart..f.dataStart + size])];
    assert segs == [Segment(0, chunk[2..])];
    SingleSegmentFrame(chunk[2..]);
    assert DeliveredFrame(d.merged || f.merged, segs) == [0, 1, 0, 0, 0, 0, 0, 0, 0] + chunk[2..];
  }

  /** With nothing pending, a packet starts a fresh frame carrying its key
      flag, and no earlier frame is delivered. */
  lemma NothingPendingStarts(d: Demuxer, k: nat, chunk: seq<byte>, tc: int, key: bool, display: DisplayOverride)
    requires d.segments == []
    ensures AssembleSpec(d, k, chunk, tc, key, display) ==
            AssembleFrom(d.(keyframe := key, merged := false), k, chunk, 0, tc, display)
  {
    var d0 := d.(keyframe := key, merged := false);
    DeliverFrame(d0, k, d0.cTimecode);
    var r := AssembleFrom(d0, k, chunk, 0, tc, display);
    if r.Some? {
      assert [] + r.value.1 == r.value.1;
    }
  }

  /** A chunk whose first fragment runs to its end is that one fragment's step. */
  lemma SingleFragmentChunk(d: Demuxer, k: nat, chunk: seq<byte>, tc: int, display: DisplayOverride,
                            f: Fragment, size: nat)
    requires |chunk| > 2 && DecodeFragment(chunk, 0, tc) == Some(f) && FragmentSize(f, |chunk|) == Some(size)
    requires f.dataStart + size == |chunk|
    ensures AssembleFrom(d, k, chunk, 0, tc, display) == Some(FragmentStep(d, k, chunk, f, size, display))
  {
    AssembleFromSplits(d, k, chunk, 0, tc, display, f, size);
    var s := FragmentStep(d, k, chunk, f, size, display);
    assert AssembleFrom(s.0, k, chunk, |chunk|, tc, display) == Some((s.0, []));
    assert s.1 + [] == s.1;
  }

  /** The frame of one unmerged fragment at offset 0: count byte 0, the
      entry (1, 0), then the fragment. */
  lemma SingleSegmentFrame(data: seq<byte>)
    ensures DeliveredFrame(false, [Segment(0, data)]) == [0, 1, 0, 0, 0, 0, 0, 0, 0] + data
  {
    var segs := [Segment(0, data)];
    SingleSegmentKept(data);
    SingleSegmentTable(data);
    assert Datas(segs) == [data];
    assert Concat([data]) == Concat([]) + data;
  }

  /** One fragment at offset 0 already has the offset the repair would give it. */
  lemma SingleSegmentKept(data: seq<byte>)
    ensures Repair([Segment(0, data)]) == [Segment(0, data)]
  {
    var segs := [Segment(0, data)];
    RepairOffsets(segs, 0);
  }

  /** The offset table of one fragment at offset 0 is the entry (1, 0). */
  lemma SingleSegmentTable(data: seq<byte>)
    ensures OffsetTable([Segment(0, data)]) == [1, 0, 0, 0, 0, 0, 0, 0]
  {
    var segs := [Segment(0, data)];
    assert segs[..0] == [];
    assert U32LeBytes(1) == [1, 0, 0, 0];
    assert U32LeBytes(0) == [0, 0, 0, 0];
  }

  /** The working state stays valid through the assembly, and the stream
      keeps its id. */
  lemma {:induction false} AssembleFromValid(d: Demuxer, k: nat, chunk: seq<byte>, pos: nat, tc: int,
                                             display: DisplayOverride)
    requires ValidDemuxer(d) && tc >= 0
    ensures AssembleFrom(d, k, chunk, pos, tc, display).Some? ==>
              ValidDemuxer(AssembleFrom(d, k, chunk, pos, tc, display).value.0) &&
              AssembleFrom(d, k, chunk, pos, tc, display).value.0.info.id == d.info.id
    decreases |chunk| - pos
  {
    if |chunk| > pos + 2 && DecodeFragment(chunk, pos, tc).Some? &&
       FragmentSize(DecodeFragment(chunk, pos, tc).value, |chunk|).Some? {
      var f := DecodeFragment(chunk, pos, tc).value;
      var size := FragmentSize(f, |chunk|).value;
      AssembleFromSplits(d, k, chunk, pos, tc, display, f, size);
      FragmentStepValid(d, k, chunk, f, size, display);
      var step := FragmentStep(d, k, chunk, f, size, display);
      AssembleFromValid(step.0, k, chunk, f.dataStart + size, tc, display);
      PrependKeeps(step.1, AssembleFrom(step.0, k, chunk, f.dataStart + size, tc, display));
    }
  }
}
