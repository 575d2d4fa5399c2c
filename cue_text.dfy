/** The text handling of the CUE sheet chapter parser
    (chapter_parser_cue.cpp): the probe, quoted values, the colon after a
    REM keyword, the chapter name format and the INDEX position. */
module CueText {
  import opened Common

  // ---------------------------------------------------------------------------
  // probe_cue_chapters

  /** The keywords a CUE sheet may start with. */
  const Keywords: seq<string> := ["performer ", "title ", "file ", "catalog ", "rem "]

  /** probe_cue_chapters: the first line starts with PERFORMER, TITLE, FILE,
      CATALOG or REM and a blank, in any case. A file without a line is
      not a CUE sheet. */
  predicate ProbeCue(lines: seq<string>)
  {
    lines != [] &&
    (StartsWithCase(lines[0], "performer ") || StartsWithCase(lines[0], "title ") ||
     StartsWithCase(lines[0], "file ") || StartsWithCase(lines[0], "catalog ") ||
     StartsWithCase(lines[0], "rem "))
  }

  /** The probe accepts exactly the files whose first line starts with one
      of the keywords. */
  lemma ProbeCueKeywords(lines: seq<string>)
    ensures ProbeCue(lines) <==> lines != [] && exists k :: k in Keywords && StartsWithCase(lines[0], k)
  {
    if lines != [] && exists k :: k in Keywords && StartsWithCase(lines[0], k) {
      var k :| k in Keywords && StartsWithCase(lines[0], k);
      assert k == Keywords[0] || k == Keywords[1] || k == Keywords[2] || k == Keywords[3] || k == Keywords[4];
    }
    if ProbeCue(lines) {
      if StartsWithCase(lines[0], "performer ") {
        assert Keywords[0] in Keywords;
      } else if StartsWithCase(lines[0], "title ") {
        assert Keywords[1] in Keywords;
      } else if StartsWithCase(lines[0], "file ") {
        assert Keywords[2] in Keywords;
      } else if StartsWithCase(lines[0], "catalog ") {
        assert Keywords[3] in Keywords;
      } else {
        assert Keywords[4] in Keywords;
      }
    }
  }

  /** The line in lower case. */
  function LowerString(s: string): (r: string)
    ensures |r| == |s| && forall i :: 0 <= i < |s| ==> r[i] == Lower(s[i])
  {
    if s == [] then [] else [Lower(s[0])] + LowerString(s[1..])
  }

  /** Lowering the line first changes no case-insensitive prefix test. */
  lemma StartsWithLower(s: string, prefix: string)
    ensures StartsWithCase(LowerString(s), prefix) <==> StartsWithCase(s, prefix)
  {
    var l := LowerString(s);
    if |prefix| <= |s| {
      forall i | 0 <= i < |prefix|
        ensures Lower(l[..|prefix|][i]) == Lower(s[..|prefix|][i])
      {
        assert l[..|prefix|][i] == Lower(s[i]);
      }
    }
  }

  /** The probe does not depend on the case of the first line. */
  lemma ProbeCueIgnoresCase(lines: seq<string>)
    requires lines != []
    ensures ProbeCue(lines) <==> ProbeCue([LowerString(lines[0])] + lines[1..])
  {
    var l := lines[0];
    var ls := [LowerString(l)] + lines[1..];
    assert ls[0] == LowerString(l);
    forall p: string
      ensures StartsWithCase(LowerString(l), p) <==> StartsWithCase(l, p)
    {
      StartsWithLower(l, p);
    }
  }

  // ---------------------------------------------------------------------------
  // get_quoted

  /** string::erase(0, n): drop the first n characters, or all of them. */
  function DropFront(s: string, n: nat): string
  {
    if n <= |s| then s[n..] else []
  }

  /** get_quoted: the text after `offset` characters, stripped, without one
      leading and one trailing double quote. */
  function GetQuoted(src: string, offset: nat): string
  {
    var s := Strip(DropFront(src, offset));
    var s1 := if |s| > 0 && s[0] == '"' then s[1..] else s;
    if |s1| > 0 && s1[|s1| - 1] == '"' then s1[..|s1| - 1] else s1
  }

  predicate AllBlank(s: string)
  {
    forall i :: 0 <= i < |s| ==> IsBlank(s[i])
  }

  /** A keyword, blanks, a quoted value and blanks: the value comes back,
      whatever characters it holds. */
  lemma GetQuotedRoundTrip(keyword: string, pad: string, value: string, tail: string)
    requires AllBlank(pad) && AllBlank(tail)
    ensures GetQuoted(keyword + pad + ("\"" + value + "\"") + tail, |keyword|) == value
  {
    var q := "\"" + value + "\"";
    var src := keyword + pad + q + tail;
    assert DropFront(src, |keyword|) == pad + q + tail by {
      assert src[|keyword|..] == pad + q + tail;
    }
    assert Strip(pad + q + tail) == q by {
      StripPadded(pad, q, tail);
    }
    var s1 := q[1..];
    assert s1 == value + "\"" && s1[|s1| - 1] == '"';
    assert s1[..|s1| - 1] == value;
  }

  /** A value without quotes or blanks at its ends comes back unchanged. */
  lemma GetQuotedBare(keyword: string, pad: string, value: string, tail: string)
    requires AllBlank(pad) && AllBlank(tail)
    requires value != [] ==> !IsBlank(value[0]) && !IsBlank(value[|value| - 1]) &&
                             value[0] != '"' && value[|value| - 1] != '"'
    ensures GetQuoted(keyword + pad + value + tail, |keyword|) == value
  {
    assert (keyword + pad + value + tail)[|keyword|..] == pad + value + tail;
    StripPadded(pad, value, tail);
  }

  /** A line no longer than the keyword gives the empty value. */
  lemma GetQuotedShort(src: string, offset: nat)
    requires |src| <= offset
    ensures GetQuoted(src, offset) == []
  {
  }

  /** Stripping blanks around a text that has none at its ends gives the text. */
  lemma StripPadded(pad: string, s: string, tail: string)
    requires AllBlank(pad) && AllBlank(tail)
    requires s == [] || (!IsBlank(s[0]) && !IsBlank(s[|s| - 1]))
    ensures Strip(pad + s + tail) == s
  {
    if s == [] {
      assert pad + s + tail == pad + tail;
      StripLeftBlank(pad + tail);
    } else {
      StripLeftPadded(pad, s + tail);
      assert pad + s + tail == pad + (s + tail);
      StripRightPadded(s, tail);
    }
  }

  lemma {:induction false} StripLeftBlank(s: string)
    requires AllBlank(s)
    ensures StripLeft(s) == []
    decreases |s|
  {
    if s != [] {
      StripLeftBlank(s[1..]);
    }
  }

  lemma {:induction false} StripLeftPadded(pad: string, s: string)
    requires AllBlank(pad) && (s == [] || !IsBlank(s[0]))
    ensures StripLeft(pad + s) == s
    decreases |pad|
  {
    if pad != [] {
      assert (pad + s)[1..] == pad[1..] + s;
      StripLeftPadded(pad[1..], s);
    } else {
      assert pad + s == s;
    }
  }

  lemma {:induction false} StripRightPadded(s: string, tail: string)
    requires AllBlank(tail) && (s == [] || !IsBlank(s[|s| - 1]))
    ensures StripRight(s + tail) == s
    decreases |tail|
  {
    if tail != [] {
      var t := tail[..|tail| - 1];
      assert (s + tail)[..|s + tail| - 1] == s + t;
      StripRightPadded(s, t);
    } else {
      assert s + tail == s;
    }
  }

  // ---------------------------------------------------------------------------
  // erase_colon

  /** The end of the run of spaces starting at `i`. */
  function SkipSpaces(s: string, i: nat): (j: nat)
    requires i <= |s|
    ensures i <= j <= |s|
    decreases |s| - i
  {
    if i < |s| && s[i] == ' ' then SkipSpaces(s, i + 1) else i
  }

  /** The end of the run of letters starting at `i`. */
  function SkipLetters(s: string, i: nat): (j: nat)
    requires i <= |s|
    ensures i <= j <= |s|
    decreases |s| - i
  {
    if i < |s| && IsAlpha(s[i]) then SkipLetters(s, i + 1) else i
  }

  /** Where erase_colon looks for the colon: after the character at `skip`,
      past spaces, then past letters. */
  function WordEnd(s: string, skip: nat): nat
    requires skip < |s|
  {
    SkipLetters(s, SkipSpaces(s, skip + 1))
  }

  /** erase_colon: a ':' or " :" right at the end of the word is removed. */
  function EraseColonSpec(s: string, skip: nat): string
    requires skip < |s|
  {
    var i := WordEnd(s, skip);
    if i == |s| then s
    else if s[i] == ':' then s[..i] + s[i + 1..]
    else if i + 1 < |s| && s[i] == ' ' && s[i + 1] == ':' then s[..i] + s[i + 2..]
    else s
  }

  /** erase_colon(s, skip), returning the edited string. */
  method EraseColon(s: string, skip: nat) returns (r: string)
    requires skip < |s|
    ensures r == EraseColonSpec(s, skip)
  {
    var i := skip + 1;
    while i < |s| && s[i] == ' '
      invariant skip + 1 <= i <= |s|
      invariant SkipSpaces(s, skip + 1) == SkipSpaces(s, i)
    {
      i := i + 1;
    }
    assert SkipSpaces(s, skip + 1) == i;
    ghost var w := i;
    while i < |s| && IsAlpha(s[i])
      invariant w <= i <= |s|
      invariant SkipLetters(s, w) == SkipLetters(s, i)
    {
      i := i + 1;
    }
    assert i == WordEnd(s, skip);
    if i == |s| {
      return s;
    }
    r := s;
    if s[i] == ':' {
      r := s[..i] + s[i + 1..];
    } else if i + 1 < |s| && s[i] == ' ' && s[i + 1] == ':' {
      r := s[..i] + s[i + 2..];
    }
  }

  /** The run of spaces is determined by where it ends. */
  lemma {:induction false} SkipSpacesAt(s: string, i: nat, j: nat)
    requires i <= j <= |s| && (forall k :: i <= k < j ==> s[k] == ' ') && (j < |s| ==> s[j] != ' ')
    ensures SkipSpaces(s, i) == j
    decreases j - i
  {
    if i < j {
      SkipSpacesAt(s, i + 1, j);
    }
  }

  /** The run of letters is determined by where it ends. */
  lemma {:induction false} SkipLettersAt(s: string, i: nat, j: nat)
    requires i <= j <= |s| && (forall k :: i <= k < j ==> IsAlpha(s[k])) && (j < |s| ==> !IsAlpha(s[j]))
    ensures SkipLetters(s, i) == j
    decreases j - i
  {
    if i < j {
      SkipLettersAt(s, i + 1, j);
    }
  }

  predicate AllSpaces(s: string)
  {
    forall i :: 0 <= i < |s| ==> s[i] == ' '
  }

  predicate AllLetters(s: string)
  {
    forall i :: 0 <= i < |s| ==> IsAlpha(s[i])
  }

  /** The word after the keyword ends right before `rest`. */
  lemma WordEndBefore(head: string, spaces: string, word: string, rest: string)
    requires |head| >= 1 && AllSpaces(spaces) && AllLetters(word)
    requires rest != [] && !IsAlpha(rest[0]) && (word == [] ==> rest[0] != ' ')
    ensures WordEnd(head + spaces + word + rest, |head| - 1) == |head| + |spaces| + |word|
  {
    var s := head + spaces + word + rest;
    var a, b := |head| + |spaces|, |head| + |spaces| + |word|;
    assert s[a..b] == word;
    assert s[|head|..a] == spaces;
    assert s[b] == rest[0];
    SkipSpacesAt(s, |head|, a);
    SkipLettersAt(s, a, b);
  }

  /** "REM DATE: 1999" reads as "REM DATE 1999": a colon right after the
      word is removed. */
  lemma EraseColonAfterWord(head: string, spaces: string, word: string, value: string)
    requires |head| >= 1 && AllSpaces(spaces) && AllLetters(word)
    ensures EraseColonSpec(head + spaces + word + (":" + value), |head| - 1) == head + spaces + word + value
  {
    var s := head + spaces + word + (":" + value);
    var i := |head| + |spaces| + |word|;
    WordEndBefore(head, spaces, word, ":" + value);
    assert s[..i] == head + spaces + word;
    assert s[i + 1..] == value;
  }

  /** "REM DATE : 1999" reads as "REM DATE 1999" too, when the word is not
      empty. */
  lemma EraseSpaceColonAfterWord(head: string, spaces: string, word: string, value: string)
    requires |head| >= 1 && AllSpaces(spaces) && AllLetters(word) && word != []
    ensures EraseColonSpec(head + spaces + word + (" :" + value), |head| - 1) == head + spaces + word + value
  {
    var s := head + spaces + word + (" :" + value);
    var i := |head| + |spaces| + |word|;
    WordEndBefore(head, spaces, word, " :" + value);
    assert s[i] == ' ' && s[i + 1] == ':';
    assert s[..i] == head + spaces + word;
    assert s[i + 2..] == value;
  }

  /** Without a colon after the word, the line is left as it is. */
  lemma EraseColonNoColon(head: string, spaces: string, word: string, rest: string)
    requires |head| >= 1 && AllSpaces(spaces) && AllLetters(word)
    requires rest != [] && !IsAlpha(rest[0]) && rest[0] != ':' && (word == [] ==> rest[0] != ' ')
    requires |rest| >= 2 ==> !(rest[0] == ' ' && rest[1] == ':')
    ensures EraseColonSpec(head + spaces + word + rest, |head| - 1) == head + spaces + word + rest
  {
    var s := head + spaces + word + rest;
    var i := |head| + |spaces| + |word|;
    WordEndBefore(head, spaces, word, rest);
    if i + 1 < |s| {
      assert s[i + 1] == rest[1];
    }
  }

  /** A word running to the end of the line leaves it as it is. */
  lemma EraseColonWordToEnd(head: string, spaces: string, word: string)
    requires |head| >= 1 && AllSpaces(spaces) && AllLetters(word)
    ensures EraseColonSpec(head + spaces + word, |head| - 1) == head + spaces + word
  {
    var s := head + spaces + word;
    var a := |head| + |spaces|;
    assert s[|head|..a] == spaces;
    assert s[a..] == word;
    if word == [] {
      SkipSpacesAt(s, |head|, a);
    } else {
      assert s[a] == word[0];
      SkipSpacesAt(s, |head|, a);
    }
    SkipLettersAt(s, a, |s|);
  }

  // ---------------------------------------------------------------------------
  // cue_entries_to_chapter_name

  /** The format used when none was given. */
  const DefaultFormat: string := "%p - %t"

  predicate IsDirective(c: char)
  {
    c == 'p' || c == 't' || c == 'n' || c == 'N'
  }

  /** What a directive expands to: %p the performer, %t the title, %n the
      number, %N the number with a leading zero below 10. */
  function Expand(c: char, performer: string, title: string, num: nat): string
    requires IsDirective(c)
  {
    match c
    case 'p' => performer
    case 't' => title
    case 'n' => NatToString(num)
    case _ => Pad2(num)
  }

  /** The chapter name the format gives. The format ends at its first NUL
      character, as the C string walk does; a '%' that does not start a
      directive is copied. */
  function FormatName(fmt: string, performer: string, title: string, num: nat): string
    decreases |fmt|
  {
    if fmt == [] || fmt[0] == 0 as char then []
    else if fmt[0] == '%' && |fmt| >= 2 && IsDirective(fmt[1]) then
      Expand(fmt[1], performer, title, num) + FormatName(fmt[2..], performer, title, num)
    else [fmt[0]] + FormatName(fmt[1..], performer, title, num)
  }

  /** cue_entries_to_chapter_name: an empty title or performer is first
      replaced by the global one (the caller's strings change too), then the
      format (or "%p - %t" when it is empty) is expanded. */
  method ChapterName(performer: string, title: string, globalPerformer: string, globalTitle: string,
                     num: nat, format: string)
    returns (name: string, performer': string, title': string)
    ensures title' == (if title == [] then globalTitle else title)
    ensures performer' == (if performer == [] then globalPerformer else performer)
    ensures name == FormatName(if format == [] then DefaultFormat else format, performer', title', num)
  {
    name := [];
    title' := if |title| == 0 then globalTitle else title;
    performer' := if |performer| == 0 then globalPerformer else performer;
    var fmt := if format == [] then DefaultFormat else format;
    var i := 0;
    while i < |fmt| && fmt[i] != 0 as char
      invariant i <= |fmt|
      invariant name + FormatName(fmt[i..], performer', title', num) == FormatName(fmt, performer', title', num)
    {
      ghost var rest := FormatName(fmt[i..], performer', title', num);
      var piece: string;
      if fmt[i] == '%' && i + 1 < |fmt| && IsDirective(fmt[i + 1]) {
        piece := Expand(fmt[i + 1], performer', title', num);
        FormatStep(fmt, i, 2, piece, performer', title', num);
        i := i + 2;
      } else {
        piece := [fmt[i]];
        FormatStep(fmt, i, 1, piece, performer', title', num);
        i := i + 1;
      }
      AppendAssoc(name, piece, FormatName(fmt[i..], performer', title', num));
      name := name + piece;
    }
    assert FormatName(fmt[i..], performer', title', num) == [];
    assert name + [] == name;
  }

  /** One step of the walk over the format: a directive or one character. */
  lemma FormatStep(fmt: string, i: nat, width: nat, piece: string, performer: string, title: string, num: nat)
    requires i < |fmt| && fmt[i] != 0 as char && i + width <= |fmt|
    requires if fmt[i] == '%' && i + 1 < |fmt| && IsDirective(fmt[i + 1])
             then width == 2 && piece == Expand(fmt[i + 1], performer, title, num)
             else width == 1 && piece == [fmt[i]]
    ensures FormatName(fmt[i..], performer, title, num) == piece + FormatName(fmt[i + width..], performer, title, num)
  {
    assert fmt[i..][width..] == fmt[i + width..];
  }

  /** Text without '%' or NUL. */
  predicate Literal(s: string)
  {
    forall i :: 0 <= i < |s| ==> s[i] != '%' && s[i] != 0 as char
  }

  /** Literal text in the format is copied as it is. */
  lemma {:induction false} FormatLiteral(lit: string, rest: string, performer: string, title: string, num: nat)
    requires Literal(lit)
    ensures FormatName(lit + rest, performer, title, num) == lit + FormatName(rest, performer, title, num)
    decreases |lit|
  {
    if lit != [] {
      var t := lit[1..];
      var tail := FormatName(rest, performer, title, num);
      FormatLiteral(t, rest, performer, title, num);
      assert FormatName(lit + rest, performer, title, num) == [lit[0]] + (t + tail) by {
        assert (lit + rest)[1..] == t + rest;
      }
      AppendAssoc([lit[0]], t, tail);
      assert [lit[0]] + t == lit;
    } else {
      assert lit + rest == rest;
    }
  }

  /** A directive expands in place. */
  lemma FormatDirective(c: char, rest: string, performer: string, title: string, num: nat)
    requires IsDirective(c)
    ensures FormatName(['%', c] + rest, performer, title, num) ==
            Expand(c, performer, title, num) + FormatName(rest, performer, title, num)
  {
    assert (['%', c] + rest)[2..] == rest;
  }

  /** A '%' before anything that is not a directive is copied, and the
      character after it is read as ordinary format text. */
  lemma FormatUnknownDirective(c: char, rest: string, performer: string, title: string, num: nat)
    requires !IsDirective(c)
    ensures FormatName(['%', c] + rest, performer, title, num) == "%" + FormatName([c] + rest, performer, title, num)
  {
    assert (['%', c] + rest)[1..] == [c] + rest;
  }

  /** A '%' at the end of the format is copied. */
  lemma FormatTrailingPercent(lit: string, performer: string, title: string, num: nat)
    requires Literal(lit)
    ensures FormatName(lit + "%", performer, title, num) == lit + "%"
  {
    FormatLiteral(lit, "%", performer, title, num);
  }

  /** The default format gives "performer - title". */
  lemma DefaultName(performer: string, title: string, num: nat)
    ensures FormatName(DefaultFormat, performer, title, num) == performer + " - " + title
  {
    assert DefaultFormat == ['%', 'p'] + (" - " + ['%', 't']);
    FormatDirective('p', " - " + ['%', 't'], performer, title, num);
    FormatLiteral(" - ", ['%', 't'], performer, title, num);
    FormatDirective('t', [], performer, title, num);
  }

  /** %N gives at least two digits that read back as the number. */
  lemma PaddedNumber(performer: string, title: string, num: nat)
    ensures var r := FormatName("%N", performer, title, num);
            |r| >= 2 && (forall i :: 0 <= i < |r| ==> '0' <= r[i] <= '9') && DigitsValue(r) == num
  {
    FormatDirective('N', [], performer, title, num);
    assert FormatName("%N", performer, title, num) == Pad2(num);
    NatToStringRoundTrip(num);
    if num < 10 {
      var r := Pad2(num);
      assert r[..1] == ['0'];
      assert DigitsValue(['0']) == 0 by {
        assert ['0'][..0] == [];
      }
    }
  }

  // ---------------------------------------------------------------------------
  // The INDEX position: sscanf(line, "%d %d:%d:%d", ...)

  /** The end of the run of white space (isspace) starting at `i`. */
  function SkipWhite(s: string, i: nat): (j: nat)
    requires i <= |s|
    ensures i <= j <= |s|
    decreases |s| - i
  {
    if i < |s| && IsSpace(s[i]) then SkipWhite(s, i + 1) else i
  }

  predicate IsDigit(c: char)
  {
    '0' <= c <= '9'
  }

  /** The end of the run of digits starting at `i`. */
  function SkipDigits(s: string, i: nat): (j: nat)
    requires i <= |s|
    ensures i <= j <= |s|
    decreases |s| - i
  {
    if i < |s| && IsDigit(s[i]) then SkipDigits(s, i + 1) else i
  }

  /** sscanf's %d at `i`: white space, an optional sign and at least one
      digit. None when there is no digit. The value is not bounded here:
      an out-of-range number is undefined in C. */
  function ScanInt(s: string, i: nat): (r: Option<(int, nat)>)
    requires i <= |s|
    ensures r.Some? ==> i < r.value.1 <= |s|
  {
    var j := SkipWhite(s, i);
    var k := if j < |s| && (s[j] == '+' || s[j] == '-') then j + 1 else j;
    var e := SkipDigits(s, k);
    if e == k then None
    else
      var v := DigitsValue(s[k..e]);
      Some((if k > j && s[j] == '-' then -v else v, e))
  }

  /** sscanf(s, "%d %d:%d:%d"): the four numbers, or None when fewer than
      four are converted. The blank in the format skips white space, as %d
      itself does; each colon must follow its number right away. */
  function ScanIndex(s: string): Option<(int, int, int, int)>
  {
    var r1 := ScanInt(s, 0);
    if r1.None? then None
    else
      var r2 := ScanInt(s, r1.value.1);
      if r2.None? || r2.value.1 >= |s| || s[r2.value.1] != ':' then None
      else
        var r3 := ScanInt(s, r2.value.1 + 1);
        if r3.None? || r3.value.1 >= |s| || s[r3.value.1] != ':' then None
        else
          var r4 := ScanInt(s, r3.value.1 + 1);
          if r4.None? then None
          else Some((r1.value.0, r2.value.0, r3.value.0, r4.value.0))
  }

  lemma {:induction false} SkipWhiteAt(s: string, i: nat, j: nat)
    requires i <= j <= |s| && (forall k :: i <= k < j ==> IsSpace(s[k])) && (j < |s| ==> !IsSpace(s[j]))
    ensures SkipWhite(s, i) == j
    decreases j - i
  {
    if i < j {
      SkipWhiteAt(s, i + 1, j);
    }
  }

  lemma {:induction false} SkipDigitsAt(s: string, i: nat, j: nat)
    requires i <= j <= |s| && (forall k :: i <= k < j ==> IsDigit(s[k])) && (j < |s| ==> !IsDigit(s[j]))
    ensures SkipDigits(s, i) == j
    decreases j - i
  {
    if i < j {
      SkipDigitsAt(s, i + 1, j);
    }
  }

  predicate AllDigits(d: string)
  {
    forall k :: 0 <= k < |d| ==> IsDigit(d[k])
  }

  /** Digits after white space, followed by a non-digit, scan back to their
      value. */
  lemma ScanIntAt(s: string, i: nat, a: nat, d: string)
    requires d != [] && AllDigits(d)
    requires i <= a && a + |d| <= |s|
    requires forall k :: i <= k < a ==> IsSpace(s[k])
    requires forall k :: 0 <= k < |d| ==> s[a + k] == d[k]
    requires a + |d| == |s| || !IsDigit(s[a + |d|])
    ensures ScanInt(s, i) == Some((DigitsValue(d), a + |d|))
  {
    var b := a + |d|;
    assert s[a] == d[0];
    SkipWhiteAt(s, i, a);
    assert forall k :: a <= k < b ==> s[k] == d[k - a];
    SkipDigitsAt(s, a, b);
    assert s[a..b] == d;
  }

  /** ScanIndex from the four conversions it makes. */
  lemma ScanIndexOf(s: string, v1: int, v2: int, v3: int, v4: int, e1: nat, e2: nat, e3: nat, e4: nat)
    requires e1 <= |s| && e2 < |s| && e3 < |s|
    requires ScanInt(s, 0) == Some((v1, e1)) && ScanInt(s, e1) == Some((v2, e2))
    requires s[e2] == ':' && ScanInt(s, e2 + 1) == Some((v3, e3))
    requires s[e3] == ':' && ScanInt(s, e3 + 1) == Some((v4, e4))
    ensures ScanIndex(s) == Some((v1, v2, v3, v4))
  {
  }

  /** C division of int64 values: the quotient is truncated toward zero. */
  function TruncDiv(a: int, b: int): int
    requires b > 0
  {
    if a >= 0 then a / b else -((-a) / b)
  }

  /** The INDEX position in nanoseconds: minutes, seconds and frames of
      1/75 second, the frame part rounded toward zero. */
  function IndexTimestamp(min: int, sec: int, frames: int): int
  {
    min * 60 * 1000000000 + sec * 1000000000 + TruncDiv(frames * 1000000000, 75)
  }

  /** For a position written mm:ss:ff, the frame part is ff/75 second
      rounded down, so the result lies in the 1/75 second before the exact
      time. */
  lemma IndexTimestampBounds(m: nat, sec: nat, f: nat)
    ensures var t := IndexTimestamp(m, sec, f);
            var whole := (m * 60 + sec) * 1000000000;
            75 * (t - whole) <= f * 1000000000 < 75 * (t - whole) + 75
  {
  }

  /** Later positions get later timestamps: the next frame, and the next
      second after the last frame. */
  lemma IndexTimestampIncreases(m: nat, sec: nat, f: nat)
    requires f < 75
    ensures f + 1 < 75 ==> IndexTimestamp(m, sec, f) < IndexTimestamp(m, sec, f + 1)
    ensures IndexTimestamp(m, sec, f) < IndexTimestamp(m, sec + 1, 0)
  {
    IndexTimestampBounds(m, sec, f);
    IndexTimestampBounds(m, sec, f + 1);
  }
}
