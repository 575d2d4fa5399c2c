/** The CUE sheet chapter parser (parse_cue_chapters and its helpers in
    chapter_parser_cue.cpp): one pass over the lines, collecting the album
    and per-track settings, emitting a chapter with INDEX sub-chapters and a
    tag for every audio TRACK. */
module CueParser {
  import opened Common
  import opened CueText

  // ---------------------------------------------------------------------------
  // What the parser produces

  /** A simple tag: name and value. */
  datatype SimpleTag = SimpleTag(name: string, value: string)

  /** What a tag applies to: the whole album, or the chapter with the given
      position in the chapter list (the source links it by the chapter's
      random UID). */
  datatype TagTarget = Album | TrackChapter(chapter: nat)

  datatype Tag = Tag(target: TagTarget, simples: seq<SimpleTag>)

  /** A hidden sub-chapter for one INDEX entry, named "INDEX nn", language
      "eng". */
  datatype SubChapter = SubChapter(start: int, name: string, language: string)

  /** A chapter for one audio TRACK. */
  datatype Chapter = Chapter(start: int, name: string, language: string, subs: seq<SubChapter>)

  /** The caller's parameters: the time range of tracks to keep (maxTc == -1
      means no upper bound), the offset subtracted from all timestamps, the
      chapter language, the chapter name format (empty for the default) and
      whether tags are wanted at all. */
  datatype Options = Options(minTc: int, maxTc: int, offset: int, language: string,
                             nameFormat: string, withTags: bool)

  // ---------------------------------------------------------------------------
  // The parser state (cue_parser_args_t), its fields grouped

  /** The settings that belong to the whole sheet (the global_* fields). */
  datatype AlbumInfo = AlbumInfo(performer: string, title: string, date: string, genre: string,
                                 catalog: string, discId: string, rem: seq<string>, comment: seq<string>)

  /** The settings of the current track. `start` is the timestamp of its
      INDEX 01 (or 00), -1 while there is none; `indices` are the timestamps
      of its INDEX entries; `index00Missing` says its first INDEX was 01. */
  datatype TrackInfo = TrackInfo(start: int, indices: seq<int>, index00Missing: bool,
                                 performer: string, title: string, date: string, genre: string,
                                 isrc: string, flags: string, comment: seq<string>)

  /** The parser state: audio tracks and lines seen so far, the settings,
      and the output built so far. */
  datatype Args = Args(num: nat, lineNum: nat, album: AlbumInfo, track: TrackInfo,
                       chapters: seq<Chapter>, tags: seq<Tag>)

  /** A track before any of its lines. */
  const NoTrack: TrackInfo := TrackInfo(-1, [], false, "", "", "", "", "", "", [])

  /** The state before the first line. index00_missing is read before it is
      first written in the source; it starts out false here. */
  const Initial: Args := Args(0, 0, AlbumInfo("", "", "", "", "", "", [], []), NoTrack, [], [])

  /** The chapter language: "eng" when none was given. */
  function Language(o: Options): (r: string)
    ensures r != []
    ensures o.language != [] ==> r == o.language
  {
    if o.language == [] then "eng" else o.language
  }

  // ---------------------------------------------------------------------------
  // Tags (add_tag_for_cue_entry, add_tag_for_global_cue_settings)

  /** create_tag1: the tag only when the value is not empty. */
  function TagIf(name: string, value: string): (r: seq<SimpleTag>)
    ensures value == [] ==> r == []
    ensures value != [] ==> r == [SimpleTag(name, value)]
  {
    if value == [] then [] else [SimpleTag(name, value)]
  }

  /** create_tag2: the first value, or the second when the first is empty. */
  function Either(v1: string, v2: string): string
  {
    if v1 != [] then v1 else v2
  }

  /** A COMMENT tag for every non-empty comment, in order. */
  function Comments(vs: seq<string>): seq<SimpleTag>
  {
    if vs == [] then [] else Comments(vs[..|vs| - 1]) + TagIf("COMMENT", vs[|vs| - 1])
  }

  /** Comments keeps exactly the non-empty comments: all of them when none
      is empty, and never more tags than comments. */
  lemma {:induction false} CommentsKept(vs: seq<string>)
    ensures |Comments(vs)| <= |vs|
    ensures forall k :: 0 <= k < |Comments(vs)| ==> Comments(vs)[k].name == "COMMENT" && Comments(vs)[k].value != []
    ensures (forall k :: 0 <= k < |vs| ==> vs[k] != []) ==>
              |Comments(vs)| == |vs| && forall k :: 0 <= k < |vs| ==> Comments(vs)[k].value == vs[k]
  {
    if vs != [] {
      CommentsKept(vs[..|vs| - 1]);
    }
  }

  /** The album tag, written at the first audio TRACK. */
  function AlbumTag(al: AlbumInfo): Tag
  {
    Tag(Album, TagIf("ARTIST", al.performer) + TagIf("TITLE", al.title) +
               TagIf("DATE_RELEASED", al.date) + TagIf("DISCID", al.discId) +
               TagIf("CATALOG_NUMBER", al.catalog) + Comments(al.rem))
  }

  /** The tag of track number `num`, whose chapter is at position `chapter`;
      written after the chapter name was made, so with the album's title and
      performer already standing in for empty ones. */
  function TrackTag(t: TrackInfo, al: AlbumInfo, num: nat, chapter: nat): Tag
  {
    Tag(TrackChapter(chapter),
        TagIf("TITLE", t.title) + [SimpleTag("PART_NUMBER", NatToString(num))] +
        TagIf("ARTIST", Either(t.performer, al.performer)) +
        TagIf("DATE_RELEASED", Either(t.date, al.date)) +
        TagIf("GENRE", Either(t.genre, al.genre)) +
        TagIf("ISRC", t.isrc) + TagIf("CDAUDIO_TRACK_FLAGS", t.flags) +
        Comments(al.comment) + Comments(t.comment))
  }

  /** The track's tag names its chapter and carries the track number as
      PART_NUMBER, right after the optional TITLE, which reads back as the
      number. */
  lemma TrackTagNumber(t: TrackInfo, al: AlbumInfo, num: nat, chapter: nat)
    ensures TrackTag(t, al, num, chapter).target == TrackChapter(chapter)
    ensures var p := TrackTag(t, al, num, chapter).simples[|TagIf("TITLE", t.title)|];
            p.name == "PART_NUMBER" && DigitsValue(p.value) == num
  {
    NatToStringRoundTrip(num);
  }

  // ---------------------------------------------------------------------------
  // Chapters (add_elements_for_cue_entry, add_subchapters_for_index_entries)

  /** The name of the sub-chapter for the k-th INDEX entry of a track. */
  function IndexName(t: TrackInfo, k: nat): string
  {
    "INDEX " + Pad2(k + (if t.index00Missing then 1 else 0))
  }

  /** One sub-chapter per INDEX entry, numbered from 1 when INDEX 00 was
      missing and from 0 otherwise. */
  function Subchapters(o: Options, t: TrackInfo): seq<SubChapter>
  {
    seq(|t.indices|, k requires 0 <= k < |t.indices| => SubChapter(t.indices[k] - o.offset, IndexName(t, k), "eng"))
  }

  /** The range check on the first INDEX of a track. */
  predicate InRange(o: Options, t: int)
  {
    t >= o.minTc && (t <= o.maxTc || o.maxTc == -1)
  }

  /** The chapter name format in effect. */
  function NameFormat(o: Options): string
  {
    if o.nameFormat == [] then DefaultFormat else o.nameFormat
  }

  /** add_elements_for_cue_entry: an error when the track had no INDEX;
      nothing when its first INDEX is outside the range; otherwise the
      chapter, its sub-chapters and its tag. Making the name replaces an
      empty title and performer by the album's, in the state too. */
  function AddElements(o: Options, a: Args): Result<Args>
  {
    var t := a.track;
    if t.indices == [] then Err("Cue sheet parser: No INDEX entry found for the previous TRACK entry")
    else if !InRange(o, t.indices[0]) then Ok(a)
    else
      var named := t.(title := Either(t.title, a.album.title), performer := Either(t.performer, a.album.performer));
      var chapter := Chapter(t.start - o.offset, FormatName(NameFormat(o), named.performer, named.title, a.num),
                             Language(o), Subchapters(o, t));
      Ok(a.(track := named, chapters := a.chapters + [chapter],
            tags := if o.withTags then a.tags + [TrackTag(named, a.album, a.num, |a.chapters|)] else a.tags))
  }

  /** The chapter of a track whose first INDEX is in range: it starts at the
      track start minus the offset, is named by the format with the album's
      title and performer standing in for empty ones, and has one
      sub-chapter per INDEX entry, at that entry minus the offset, named
      "INDEX nn" counting from 00, or from 01 when INDEX 00 was missing. */
  lemma ChapterOfTrack(o: Options, a: Args)
    requires a.track.indices != [] && InRange(o, a.track.indices[0])
    ensures AddElements(o, a).Ok?
    ensures var b := AddElements(o, a).value;
            |b.chapters| == |a.chapters| + 1 && b.chapters[..|a.chapters|] == a.chapters &&
            var c := b.chapters[|a.chapters|];
            c.start == a.track.start - o.offset && c.language == Language(o) &&
            c.name == FormatName(NameFormat(o), Either(a.track.performer, a.album.performer),
                                 Either(a.track.title, a.album.title), a.num) &&
            |c.subs| == |a.track.indices| &&
            forall k :: 0 <= k < |c.subs| ==>
              c.subs[k].start == a.track.indices[k] - o.offset && c.subs[k].name == IndexName(a.track, k)
  {
    var b := AddElements(o, a).value;
    assert b.chapters[..|a.chapters|] == a.chapters;
  }

  /** The sub-chapter names: "INDEX 00", "INDEX 01", ... or, when INDEX 00
      was missing, "INDEX 01", "INDEX 02", ...; the number reads back as
      the entry's INDEX number. */
  lemma IndexNames(t: TrackInfo, k: nat)
    ensures var n := k + (if t.index00Missing then 1 else 0);
            |IndexName(t, k)| >= 8 && IndexName(t, k)[..6] == "INDEX " &&
            DigitsValue(IndexName(t, k)[6..]) == n
  {
    var n := k + (if t.index00Missing then 1 else 0);
    var name := IndexName(t, k);
    assert name[6..] == Pad2(n);
    NatToStringRoundTrip(n);
    if n < 10 {
      assert Pad2(n)[..1] == "0";
      assert DigitsValue(Pad2(n)[..1]) == 0 by {
        assert Pad2(n)[..1][..0] == [];
      }
    }
  }

  // ---------------------------------------------------------------------------
  // One line: its text (the keyword and the value it carries)

  /** What one line of the sheet says, once its keyword is recognised and its
      value extracted. */
  datatype Command =
    | Skip                                     // empty, FILE or unknown
    | Performer(value: string)
    | Catalog(value: string)
    | Title(value: string)
    | Index(entry: Option<(int, int, int, int)>) // None: fewer than 4 numbers
    | Track(audio: bool)
    | Isrc(value: string)
    | Flags(value: string)
    | RemDate(value: string)                   // REM DATE and REM YEAR
    | RemGenre(value: string)
    | RemDiscId(value: string)
    | RemComment(value: string)
    | Rem(value: string)                       // any other REM

  /** The position of the first keyword of `ks` the line starts with
      (case-insensitively), or |ks| when there is none. */
  function FirstKeyword(line: string, ks: seq<string>): (r: nat)
    ensures r <= |ks|
  {
    if ks == [] then 0
    else if StartsWithCase(line, ks[0]) then 0
    else 1 + FirstKeyword(line, ks[1..])
  }

  /** The keyword found is one the line starts with, and no earlier one is. */
  lemma {:induction false} FirstKeywordMatches(line: string, ks: seq<string>)
    ensures FirstKeyword(line, ks) < |ks| ==> StartsWithCase(line, ks[FirstKeyword(line, ks)])
    ensures forall j :: 0 <= j < FirstKeyword(line, ks) ==> !StartsWithCase(line, ks[j])
  {
    if ks != [] && !StartsWithCase(line, ks[0]) {
      FirstKeywordMatches(line, ks[1..]);
    }
  }

  /** A line starting with one of the keywords and none before it is
      classified as that keyword. */
  lemma {:induction false} FirstKeywordIs(line: string, ks: seq<string>, i: nat)
    requires i < |ks| && StartsWithCase(line, ks[i])
    requires forall j :: 0 <= j < i ==> !StartsWithCase(line, ks[j])
    ensures FirstKeyword(line, ks) == i
  {
    if i > 0 {
      FirstKeywordIs(line, ks[1..], i - 1);
    }
  }

  /** The keywords of a line, in the order they are tried. */
  const LineKeywords: seq<string> :=
    ["file ", "performer ", "catalog ", "title ", "index ", "track ", "isrc ", "flags ", "rem "]

  /** The keywords of a REM line, in the order they are tried. */
  const RemKeywords: seq<string> := ["rem date ", "rem year ", "rem genre ", "rem discid ", "rem comment "]

  /** A TRACK line ends in AUDIO, in any case. */
  predicate IsAudio(line: string)
  {
    |line| >= 5 && EqualsCase(line[|line| - 5..], "audio")
  }

  /** A REM line, after erase_colon: DATE or YEAR, GENRE, DISCID, COMMENT,
      or any other remark with everything after "REM " as its value. */
  function RemCommand(raw: string): Command
    requires |raw| > 4
  {
    var line := EraseColonSpec(raw, 4);
    var k := FirstKeyword(line, RemKeywords);
    var value := GetQuoted(line, if k < |RemKeywords| then |RemKeywords[k]| else |"rem "|);
    if k <= 1 then RemDate(value)
    else if k == 2 then RemGenre(value)
    else if k == 3 then RemDiscId(value)
    else if k == 4 then RemComment(value)
    else Rem(value)
  }

  /** A stripped line that starts with "rem " goes on after it. */
  lemma RemLineLength(line: string)
    requires line == [] || !IsBlank(line[|line| - 1])
    requires StartsWithCase(line, "rem ")
    ensures |line| > 4
  {
    assert Lower(line[3]) == Lower(' ');
  }

  /** The text half of the loop body: strip the line and recognise its
      keyword. The value of PERFORMER, CATALOG, TITLE, ISRC and FLAGS is the
      quoted text after the keyword; INDEX reads "%d %d:%d:%d" after it. */
  function Classify(raw: string): Command
  {
    var line := Strip(raw);
    var k := FirstKeyword(line, LineKeywords);
    if line == [] || k == 0 || k == 9 then Skip
    else if k == 4 then Index(ScanIndex(Strip(DropFront(line, 6))))
    else if k == 5 then Track(IsAudio(line))
    else if k == 8 then
      FirstKeywordMatches(line, LineKeywords);
      RemLineLength(line);
      RemCommand(line)
    else
      var value := GetQuoted(line, |LineKeywords[k]|);
      if k == 1 then Performer(value)
      else if k == 2 then Catalog(value)
      else if k == 3 then Title(value)
      else if k == 6 then Isrc(value)
      else Flags(value)
  }

  /** A line is an audio track line when, stripped, it starts with "TRACK "
      and ends with "AUDIO", in any case. */
  predicate IsAudioTrackLine(raw: string)
  {
    StartsWithCase(Strip(raw), "track ") && IsAudio(Strip(raw))
  }

  /** A line whose stripped text starts with "TRACK " is a TRACK command,
      audio exactly when it ends in "AUDIO". */
  lemma ClassifyTrackLine(raw: string)
    requires StartsWithCase(Strip(raw), "track ")
    ensures Classify(raw) == Track(IsAudio(Strip(raw)))
  {
    var line := Strip(raw);
    assert Lower(line[0]) == 't' && Lower(line[1]) == 'r';
    FirstKeywordIs(line, LineKeywords, 5);
  }

  /** The audio TRACK command comes from an audio track line and from
      nothing else. */
  lemma AudioTrackCommand(raw: string)
    ensures Classify(raw) == Track(true) <==> IsAudioTrackLine(raw)
  {
    var line := Strip(raw);
    if StartsWithCase(line, "track ") {
      ClassifyTrackLine(raw);
    } else if Classify(raw) == Track(true) {
      FirstKeywordMatches(line, LineKeywords);
    }
  }

  /** A line whose stripped text starts with "INDEX " is read as four
      numbers after the keyword. */
  lemma ClassifyIndexLine(raw: string)
    requires StartsWithCase(Strip(raw), "index ")
    ensures Classify(raw) == Index(ScanIndex(Strip(DropFront(Strip(raw), 6))))
  {
    var line := Strip(raw);
    assert Lower(line[0]) == 'i';
    FirstKeywordIs(line, LineKeywords, 4);
  }

  /** A PERFORMER line carries the quoted text after the keyword. */
  lemma ClassifyPerformerLine(raw: string)
    requires StartsWithCase(Strip(raw), "performer ")
    ensures Classify(raw) == Performer(GetQuoted(Strip(raw), 10))
  {
    var line := Strip(raw);
    assert Lower(line[0]) == 'p';
    FirstKeywordIs(line, LineKeywords, 1);
  }

  /** A TITLE line carries the quoted text after the keyword. */
  lemma ClassifyTitleLine(raw: string)
    requires StartsWithCase(Strip(raw), "title ")
    ensures Classify(raw) == Title(GetQuoted(Strip(raw), 6))
  {
    var line := Strip(raw);
    assert Lower(line[0]) == 't';
    FirstKeywordIs(line, LineKeywords, 3);
  }

  /** FILE lines and blank lines say nothing. */
  lemma ClassifySkips(raw: string)
    requires Strip(raw) == [] || StartsWithCase(Strip(raw), "file ")
    ensures Classify(raw) == Skip
  {
  }

  // ---------------------------------------------------------------------------
  // One line: its effect on the parser state

  /** The INDEX entry numbered `index` at `timestamp`: it must be the next
      number (INDEX 00 may be left out, so the first may be 01). */
  function AcceptIndex(t: TrackInfo, index: int, timestamp: int): Result<TrackInfo>
  {
    var missing := if 0 <= index <= 99 && |t.indices| == 0 && index == 1 then true else t.index00Missing;
    if 0 <= index <= 99 && (|t.indices| == index || (|t.indices| == index - 1 && missing)) then
      Ok(t.(index00Missing := missing, indices := t.indices + [timestamp],
            start := if index == 1 || index == 0 then timestamp else t.start))
    else Err("Cue sheet parser: Invalid INDEX number")
  }

  /** INDEX numbering: an entry is accepted exactly when its number is in
      0..99 and equals the count of entries so far, or one more than that
      when the track's first entry was 01. The timestamp is appended, INDEX
      00 and 01 set the track start, and nothing else changes. */
  lemma IndexRule(t: TrackInfo, index: int, ts: int)
    ensures AcceptIndex(t, index, ts).Ok? <==>
              0 <= index <= 99 &&
              (index == |t.indices| || (index == |t.indices| + 1 && (t.index00Missing || t.indices == [])))
    ensures AcceptIndex(t, index, ts).Ok? ==>
              var u := AcceptIndex(t, index, ts).value;
              u.indices == t.indices + [ts] &&
              u.start == (if index <= 1 then ts else t.start) &&
              u.index00Missing == (t.index00Missing || (t.indices == [] && index == 1)) &&
              u == t.(indices := u.indices, start := u.start, index00Missing := u.index00Missing)
  {
  }

  /** Once INDEX 00 is known to be missing, a number may also repeat the
      count so far: a second INDEX 01 is accepted and moves the track start. */
  lemma IndexRepeatAfterMissing00(t: TrackInfo, ts: int)
    requires t.index00Missing && |t.indices| == 1
    ensures AcceptIndex(t, 1, ts).Ok?
    ensures AcceptIndex(t, 1, ts).value.start == ts && AcceptIndex(t, 1, ts).value.indices == t.indices + [ts]
  {
  }

  /** An audio TRACK: close the previous track (or write the album tag
      before the first) and start the next one with empty settings. */
  function StartTrack(o: Options, a: Args): Result<Args>
  {
    var closed := if a.num >= 1 then AddElements(o, a)
                  else Ok(if o.withTags then a.(tags := a.tags + [AlbumTag(a.album)]) else a);
    match closed
    case Err(m) => Err(m)
    case Ok(b) => Ok(b.(num := b.num + 1, track := NoTrack))
  }

  /** The state half of the loop body: count the line and apply what it
      says. PERFORMER, TITLE, REM DATE, REM GENRE, REM COMMENT and other
      REM lines fill the album settings before the first audio TRACK and
      the track's afterwards. */
  function Apply(o: Options, a0: Args, c: Command): Result<Args>
  {
    var a := a0.(lineNum := a0.lineNum + 1);
    var al, t := a.album, a.track;
    var first := a.num == 0;
    match c
    case Skip => Ok(a)
    case Performer(v) => Ok(if first then a.(album := al.(performer := v)) else a.(track := t.(performer := v)))
    case Catalog(v) => Ok(a.(album := al.(catalog := v)))
    case Title(v) => Ok(if first then a.(album := al.(title := v)) else a.(track := t.(title := v)))
    case Index(e) =>
      if e.None? then Err("Cue sheet parser: Invalid INDEX entry")
      else
        (match AcceptIndex(t, e.value.0, IndexTimestamp(e.value.1, e.value.2, e.value.3))
         case Err(m) => Err(m)
         case Ok(u) => Ok(a.(track := u)))
    case Track(audio) => if audio then StartTrack(o, a) else Ok(a)
    case Isrc(v) => Ok(a.(track := t.(isrc := v)))
    case Flags(v) => Ok(a.(track := t.(flags := v)))
    case RemDate(v) => Ok(if first then a.(album := al.(date := v)) else a.(track := t.(date := v)))
    case RemGenre(v) => Ok(if first then a.(album := al.(genre := v)) else a.(track := t.(genre := v)))
    case RemDiscId(v) => Ok(a.(album := al.(discId := v)))
    case RemComment(v) =>
      Ok(if first then a.(album := al.(comment := al.comment + [v])) else a.(track := t.(comment := t.comment + [v])))
    case Rem(v) =>
      Ok(if first then a.(album := al.(rem := al.rem + [v])) else a.(track := t.(comment := t.comment + [v])))
  }

  /** A line is counted and changes the number of audio tracks only when it
      is an audio TRACK, by one. */
  lemma ApplyCounts(o: Options, a: Args, c: Command)
    requires Apply(o, a, c).Ok?
    ensures Apply(o, a, c).value.lineNum == a.lineNum + 1
    ensures Apply(o, a, c).value.num == a.num + (if c == Track(true) then 1 else 0)
  {
  }

  /** PERFORMER, TITLE, REM DATE, REM GENRE, REM COMMENT and other REM lines
      go to the album before the first audio TRACK and to the current track
      afterwards; other REM lines become track comments there. */
  lemma Routing(o: Options, a: Args, c: Command)
    requires c.Performer? || c.Title? || c.RemDate? || c.RemGenre? || c.RemComment? || c.Rem?
    ensures Apply(o, a, c).Ok?
    ensures var b := Apply(o, a, c).value;
            (c.Performer? ==> (if a.num == 0 then b.album.performer else b.track.performer) == c.value) &&
            (c.Title? ==> (if a.num == 0 then b.album.title else b.track.title) == c.value) &&
            (c.RemDate? ==> (if a.num == 0 then b.album.date else b.track.date) == c.value) &&
            (c.RemGenre? ==> (if a.num == 0 then b.album.genre else b.track.genre) == c.value) &&
            (c.RemComment? ==>
               if a.num == 0 then b.album.comment == a.album.comment + [c.value]
               else b.track.comment == a.track.comment + [c.value]) &&
            (c.Rem? ==>
               if a.num == 0 then b.album.rem == a.album.rem + [c.value]
               else b.track.comment == a.track.comment + [c.value])
  {
  }

  /** After the first audio TRACK no line changes the album settings except
      CATALOG and REM DISCID. */
  lemma AlbumSettledAfterFirstTrack(o: Options, a: Args, c: Command)
    requires a.num >= 1 && Apply(o, a, c).Ok?
    ensures var b := Apply(o, a, c).value;
            b.album == a.album.(catalog := b.album.catalog, discId := b.album.discId)
  {
  }

  /** Before the first audio TRACK no line sets a track's performer, title,
      date, genre or comments. (ISRC, FLAGS and INDEX lines do write the
      track then; the first audio TRACK resets it.) */
  lemma TrackUntouchedBeforeFirstTrack(o: Options, a: Args, c: Command)
    requires a.num == 0 && !c.Track? && Apply(o, a, c).Ok?
    ensures var t, u := a.track, Apply(o, a, c).value.track;
            u.performer == t.performer && u.title == t.title && u.date == t.date &&
            u.genre == t.genre && u.comment == t.comment
  {
  }

  /** A TRACK line that is not AUDIO only counts as a line. */
  lemma NonAudioTrackIgnored(o: Options, a: Args)
    ensures Apply(o, a, Track(false)) == Ok(a.(lineNum := a.lineNum + 1))
  {
  }

  /** An audio TRACK fails exactly when the track before it had no INDEX;
      otherwise it starts the next track with no INDEX entries and empty
      settings. */
  lemma AudioTrackStarts(o: Options, a: Args)
    ensures Apply(o, a, Track(true)).Err? <==> a.num >= 1 && a.track.indices == []
    ensures Apply(o, a, Track(true)).Ok? ==>
              Apply(o, a, Track(true)).value.num == a.num + 1 && Apply(o, a, Track(true)).value.track == NoTrack
  {
  }

  /** The first audio TRACK writes the album tag, when tags are wanted, and
      no chapter; a later one adds the previous track's chapter exactly when
      that track's first INDEX is in range. */
  lemma AudioTrackEmits(o: Options, a: Args)
    requires Apply(o, a, Track(true)).Ok?
    ensures var b := Apply(o, a, Track(true)).value;
            (a.num == 0 ==>
               b.chapters == a.chapters && b.tags == (if o.withTags then a.tags + [AlbumTag(a.album)] else a.tags)) &&
            (a.num >= 1 ==>
               a.track.indices != [] &&
               (InRange(o, a.track.indices[0]) <==> |b.chapters| == |a.chapters| + 1) &&
               (!InRange(o, a.track.indices[0]) ==> b.chapters == a.chapters && b.tags == a.tags))
  {
  }

  // ---------------------------------------------------------------------------
  // What every reachable state satisfies

  /** A chapter as the parser makes it: in the chapter language, with at
      least one sub-chapter, and starting where one of its sub-chapters
      starts. */
  predicate ChapterWellFormed(o: Options, c: Chapter)
  {
    c.subs != [] && c.language == Language(o) &&
    exists k :: 0 <= k < |c.subs| && c.subs[k].start == c.start
  }

  /** With tags wanted: the album tag once an audio track was seen, then one
      tag per chapter, in chapter order; without, no tags. */
  predicate TagsMatchChapters(o: Options, a: Args)
  {
    if !o.withTags || a.num == 0 then a.tags == []
    else
      |a.tags| == 1 + |a.chapters| && a.tags[0].target == Album &&
      forall k :: 0 <= k < |a.chapters| ==> a.tags[k + 1].target == TrackChapter(k)
  }

  /** The track start is one of the track's INDEX timestamps, or -1 while
      it has none. */
  predicate TrackValid(t: TrackInfo)
  {
    (t.indices == [] ==> t.start == -1) && (t.indices != [] ==> t.start in t.indices)
  }

  /** The parser state invariant: the track start is one of its INDEX
      timestamps, every chapter is well formed, there is at most one chapter
      per finished audio track, and the tags match the chapters. */
  predicate Valid(o: Options, a: Args)
  {
    TrackValid(a.track) &&
    (forall c :: c in a.chapters ==> ChapterWellFormed(o, c)) &&
    (if a.num == 0 then a.chapters == [] else |a.chapters| < a.num) &&
    TagsMatchChapters(o, a)
  }

  lemma InitialValid(o: Options)
    ensures Valid(o, Initial)
  {
  }

  /** Accepting an INDEX entry keeps the track start among the entries. */
  lemma AcceptIndexValid(t: TrackInfo, index: int, ts: int)
    requires TrackValid(t) && AcceptIndex(t, index, ts).Ok?
    ensures TrackValid(AcceptIndex(t, index, ts).value)
  {
    if index > 1 {
      assert t.indices != [];
    }
  }

  /** The chapter added for a track is well formed. */
  lemma NewChapterWellFormed(o: Options, a: Args)
    requires TrackValid(a.track) && a.track.indices != [] && InRange(o, a.track.indices[0])
    ensures ChapterWellFormed(o, AddElements(o, a).value.chapters[|a.chapters|])
  {
    var t := a.track;
    var c := AddElements(o, a).value.chapters[|a.chapters|];
    var k :| 0 <= k < |t.indices| && t.indices[k] == t.start;
    assert c.subs[k].start == c.start;
  }

  /** Closing a track keeps the invariant, apart from the count of tracks
      (which the caller then raises), and adds at most one chapter. */
  lemma AddElementsValid(o: Options, a: Args)
    requires Valid(o, a) && a.num >= 1 && AddElements(o, a).Ok?
    ensures var b := AddElements(o, a).value;
            b.num == a.num && |b.chapters| <= |a.chapters| + 1 &&
            (forall c :: c in b.chapters ==> ChapterWellFormed(o, c)) &&
            TagsMatchChapters(o, b)
  {
    var b := AddElements(o, a).value;
    if InRange(o, a.track.indices[0]) {
      NewChapterWellFormed(o, a);
      assert b.chapters == a.chapters + [b.chapters[|a.chapters|]];
    }
  }

  /** An audio TRACK keeps the invariant. */
  lemma StartTrackValid(o: Options, a: Args)
    requires Valid(o, a) && StartTrack(o, a).Ok?
    ensures Valid(o, StartTrack(o, a).value)
  {
    if a.num >= 1 {
      AddElementsValid(o, a);
    }
  }

  /** The invariant depends only on the track start and INDEX entries, the
      count of tracks, the chapters and the tags. */
  lemma ValidFrame(o: Options, a: Args, b: Args)
    requires Valid(o, a)
    requires b.num == a.num && b.chapters == a.chapters && b.tags == a.tags
    requires b.track.start == a.track.start && b.track.indices == a.track.indices
    ensures Valid(o, b)
  {
  }

  /** Every line keeps the invariant. */
  lemma ApplyValid(o: Options, a: Args, c: Command)
    requires Valid(o, a) && Apply(o, a, c).Ok?
    ensures Valid(o, Apply(o, a, c).value)
  {
    var a1 := a.(lineNum := a.lineNum + 1);
    var b := Apply(o, a, c).value;
    if c.Index? {
      var e := c.entry.value;
      AcceptIndexValid(a.track, e.0, IndexTimestamp(e.1, e.2, e.3));
    } else if c.Track? {
      if c.audio {
        ValidFrame(o, a, a1);
        StartTrackValid(o, a1);
      }
    } else {
      ValidFrame(o, a, b);
    }
  }

  // ---------------------------------------------------------------------------
  // The whole sheet

  /** The loop body as a step function on the parser state. */
  function LineStep(o: Options): (Args, string) -> Result<Args>
  {
    (a: Args, raw: string) => Apply(o, a, Classify(raw))
  }

  /** The state after feeding the first n lines to `step`, starting from
      `init`, or the first error. */
  function Fold(step: (Args, string) -> Result<Args>, init: Args, lines: seq<string>, n: nat): Result<Args>
    requires n <= |lines|
  {
    if n == 0 then Ok(init)
    else
      match Fold(step, init, lines, n - 1)
      case Err(m) => Err(m)
      case Ok(a) => step(a, lines[n - 1])
  }

  /** An error ends the loop: it is the result of every longer prefix. */
  lemma {:induction false} ErrorSticks(step: (Args, string) -> Result<Args>, init: Args, lines: seq<string>, n: nat, m: nat)
    requires n <= m <= |lines| && Fold(step, init, lines, n).Err?
    ensures Fold(step, init, lines, m) == Fold(step, init, lines, n)
    decreases m - n
  {
    if n < m {
      ErrorSticks(step, init, lines, n, m - 1);
    }
  }

  /** A property of the state that holds at the start and that every step
      keeps holds after any number of lines. */
  lemma {:induction false} FoldInduction(step: (Args, string) -> Result<Args>, init: Args, lines: seq<string>,
                                         n: nat, inv: (nat, Args) -> bool)
    requires n <= |lines| && inv(0, init)
    requires forall k: nat, a: Args :: k < |lines| && inv(k, a) && step(a, lines[k]).Ok? ==>
               inv(k + 1, step(a, lines[k]).value)
    ensures Fold(step, init, lines, n).Ok? ==> inv(n, Fold(step, init, lines, n).value)
  {
    if n > 0 {
      FoldInduction(step, init, lines, n - 1, inv);
    }
  }

  /** The loop of parse_cue_chapters: each line in turn, stopping at the
      first error. */
  method FoldLines(step: (Args, string) -> Result<Args>, init: Args, lines: seq<string>) returns (r: Result<Args>)
    ensures r == Fold(step, init, lines, |lines|)
  {
    var a := init;
    var i := 0;
    while i < |lines|
      invariant i <= |lines| && Fold(step, init, lines, i) == Ok(a)
    {
      var next := step(a, lines[i]);
      if next.Err? {
        ErrorSticks(step, init, lines, i + 1, |lines|);
        return next;
      }
      a := next.value;
      i := i + 1;
    }
    return Ok(a);
  }

  /** The parser state after the first n lines of a sheet. */
  function Run(o: Options, lines: seq<string>, n: nat): Result<Args>
    requires n <= |lines|
  {
    Fold(LineStep(o), Initial, lines, n)
  }

  /** The result: no chapters at all (NULL) when the sheet has no audio
      track, and the tags. */
  datatype CueOutput = CueOutput(chapters: Option<seq<Chapter>>, tags: seq<Tag>)

  /** After the last line: close the last track; no chapters when there was
      no audio track. */
  function Finish(o: Options, a: Args): Result<CueOutput>
  {
    var closed := if a.num >= 1 then AddElements(o, a) else Ok(a);
    match closed
    case Err(m) => Err(m)
    case Ok(b) => Ok(CueOutput(if b.num == 0 then None else Some(b.chapters), b.tags))
  }

  /** parse_cue_chapters on the lines of a sheet. */
  function ParseCue(o: Options, lines: seq<string>): Result<CueOutput>
  {
    match Run(o, lines, |lines|)
    case Err(m) => Err(m)
    case Ok(a) => Finish(o, a)
  }

  /** parse_cue_chapters: the line loop, then the last track. */
  method ParseCueChapters(o: Options, lines: seq<string>) returns (r: Result<CueOutput>)
    ensures r == ParseCue(o, lines)
  {
    var state := FoldLines(LineStep(o), Initial, lines);
    if state.Err? {
      return Err(state.msg);
    }
    r := Finish(o, state.value);
  }

  /** The number of audio track lines among the first n lines. */
  function AudioTracks(lines: seq<string>, n: nat): nat
    requires n <= |lines|
  {
    if n == 0 then 0 else AudioTracks(lines, n - 1) + (if IsAudioTrackLine(lines[n - 1]) then 1 else 0)
  }

  /** After n lines, n lines were counted and the track number is the
      number of audio track lines among them. */
  lemma RunCounts(o: Options, lines: seq<string>, n: nat)
    requires n <= |lines|
    ensures Run(o, lines, n).Ok? ==>
              Run(o, lines, n).value.lineNum == n && Run(o, lines, n).value.num == AudioTracks(lines, n)
  {
    var inv := (k: nat, a: Args) => k <= |lines| && a.lineNum == k && a.num == AudioTracks(lines, k);
    forall k: nat, a: Args | k < |lines| && inv(k, a) && LineStep(o)(a, lines[k]).Ok?
      ensures inv(k + 1, LineStep(o)(a, lines[k]).value)
    {
      ApplyCounts(o, a, Classify(lines[k]));
      AudioTrackCommand(lines[k]);
    }
    assert Initial.lineNum == 0 && Initial.num == 0 && AudioTracks(lines, 0) == 0;
    FoldInduction(LineStep(o), Initial, lines, n, inv);
  }

  /** Every state the parser reaches satisfies the invariant. */
  lemma RunValid(o: Options, lines: seq<string>, n: nat)
    requires n <= |lines|
    ensures Run(o, lines, n).Ok? ==> Valid(o, Run(o, lines, n).value)
  {
    var inv := (k: nat, a: Args) => Valid(o, a);
    forall k: nat, a: Args | k < |lines| && inv(k, a) && LineStep(o)(a, lines[k]).Ok?
      ensures inv(k + 1, LineStep(o)(a, lines[k]).value)
    {
      ApplyValid(o, a, Classify(lines[k]));
    }
    InitialValid(o);
    FoldInduction(LineStep(o), Initial, lines, n, inv);
  }

  /** The result of a sheet: no chapters exactly when it has no audio track
      line; otherwise at most one chapter per audio track, each well formed,
      and (with tags wanted) the album tag followed by one tag per chapter. */
  lemma ParseCueOutput(o: Options, lines: seq<string>)
    requires ParseCue(o, lines).Ok?
    ensures var out := ParseCue(o, lines).value;
            (out.chapters.None? <==> AudioTracks(lines, |lines|) == 0) &&
            (out.chapters.Some? ==>
               |out.chapters.value| <= AudioTracks(lines, |lines|) &&
               (forall c :: c in out.chapters.value ==> ChapterWellFormed(o, c)) &&
               (o.withTags ==> |out.tags| == 1 + |out.chapters.value| && out.tags[0].target == Album)) &&
            (!o.withTags ==> out.tags == [])
  {
    RunCounts(o, lines, |lines|);
    RunValid(o, lines, |lines|);
    var a := Run(o, lines, |lines|).value;
    if a.num >= 1 {
      AddElementsValid(o, a);
    }
  }
}
