/** Byte, integer-width and character helpers shared by the RealMedia reader,
    the CUE sheet parser and the VC-1 packetizer. */
module Common {

  datatype Option<+T> = None | Some(value: T)

  /** Result of an operation that the program ends with `die`/`mxerror`. */
  datatype Result<+T> = Ok(value: T) | Err(msg: string)

  type byte = b: int | 0 <= b < 256

  const TWO32: int := 0x1_0000_0000

  /** uint32_t arithmetic: the value modulo 2^32. */
  function U32(x: int): (r: nat)
    ensures r < TWO32
    ensures 0 <= x < TWO32 ==> r == x
  {
    x % TWO32
  }

  /** Wrapping after every uint32 addition is wrapping once at the end. */
  lemma U32Add(a: int, b: int)
    ensures U32(U32(a) + b) == U32(a + b)
  {
    var q := a / TWO32;
    assert a == q * TWO32 + U32(a);
    assert a + b == q * TWO32 + (U32(a) + b);
  }

  /** Wrapping a factor of a uint32 product first does not change the
      product modulo 2^32. */
  lemma U32Mul(a: int, b: int)
    ensures U32(U32(a) * b) == U32(a * b)
  {
    var q := a / TWO32;
    assert a == q * TWO32 + U32(a);
    assert a * b == (q * b) * TWO32 + U32(a) * b;
    U32Add((q * b) * TWO32, U32(a) * b);
    assert U32((q * b) * TWO32) == 0;
  }

  /** get_uint16_be */
  function U16Be(s: seq<byte>, i: nat): (r: nat)
    requires i + 2 <= |s|
    ensures r < 0x1_0000
  {
    s[i] as int * 256 + s[i + 1] as int
  }

  /** get_uint32_be */
  function U32Be(s: seq<byte>, i: nat): (r: nat)
    requires i + 4 <= |s|
    ensures r < TWO32
  {
    U16Be(s, i) * 0x1_0000 + U16Be(s, i + 2)
  }

  /** put_uint16_le */
  function U16LeBytes(x: int): (r: seq<byte>)
    ensures |r| == 2
  {
    var v := x % 0x1_0000;
    [v % 256, v / 256]
  }

  /** put_uint32_le (put_uint32 in the RealMedia reader writes the same layout) */
  function U32LeBytes(x: int): (r: seq<byte>)
    ensures |r| == 4
  {
    var v := U32(x);
    [v % 256, (v / 256) % 256, (v / 0x1_0000) % 256, v / 0x100_0000]
  }

  /** get_uint32_le */
  function U32Le(s: seq<byte>, i: nat): (r: nat)
    requires i + 4 <= |s|
    ensures r < TWO32
  {
    s[i] as int + 256 * (s[i + 1] as int) + 0x1_0000 * (s[i + 2] as int) + 0x100_0000 * (s[i + 3] as int)
  }

  /** get_uint16_le */
  function U16Le(s: seq<byte>, i: nat): (r: nat)
    requires i + 2 <= |s|
    ensures r < 0x1_0000
  {
    s[i] as int + 256 * (s[i + 1] as int)
  }

  /** Reading back what put_uint32_le wrote gives the value modulo 2^32. */
  lemma U32LeRoundTrip(x: int)
    ensures U32Le(U32LeBytes(x), 0) == U32(x)
  {
    var v := U32(x);
    var b := U32LeBytes(x);
    assert b[0] as int + 256 * (b[1] as int) == v % 0x1_0000;
    assert b[2] as int + 256 * (b[3] as int) == v / 0x1_0000;
  }

  /** get_uint32_le inside an embedded part reads that part. */
  lemma U32LeIn(s: seq<byte>, off: nat, t: seq<byte>, j: nat)
    requires off + |t| <= |s| && s[off..off + |t|] == t && j + 4 <= |t|
    ensures U32Le(s, off + j) == U32Le(t, j)
  {
    assert s[off + j] == t[j] && s[off + j + 1] == t[j + 1];
    assert s[off + j + 2] == t[j + 2] && s[off + j + 3] == t[j + 3];
  }

  lemma U16LeRoundTrip(x: int)
    ensures U16Le(U16LeBytes(x), 0) == x % 0x1_0000
  {
  }

  /** Concatenation of byte strings, in order. */
  function Concat(parts: seq<seq<byte>>): (r: seq<byte>)
  {
    if parts == [] then [] else Concat(parts[..|parts| - 1]) + parts[|parts| - 1]
  }

  /** Sum of the lengths of byte strings. */
  function TotalLength(parts: seq<seq<byte>>): (r: nat)
  {
    if parts == [] then 0 else TotalLength(parts[..|parts| - 1]) + |parts[|parts| - 1]|
  }

  /** A second update of the same slot overwrites the first. */
  lemma UpdateTwice<T>(s: seq<T>, k: nat, a: T, b: T)
    requires k < |s|
    ensures s[k := a][k := b] == s[k := b]
  {
  }

  lemma AppendAssoc<T>(a: seq<T>, b: seq<T>, c: seq<T>)
    ensures (a + b) + c == a + (b + c)
  {
  }

  lemma {:induction false} ConcatLength(parts: seq<seq<byte>>)
    ensures |Concat(parts)| == TotalLength(parts)
  {
    if parts != [] {
      ConcatLength(parts[..|parts| - 1]);
    }
  }

  lemma {:induction false} ConcatAppend(parts: seq<seq<byte>>, more: seq<seq<byte>>)
    ensures Concat(parts + more) == Concat(parts) + Concat(more)
    decreases |more|
  {
    if more == [] {
      assert parts + more == parts;
    } else {
      var init, last := more[..|more| - 1], more[|more| - 1];
      var all := parts + more;
      assert all[..|all| - 1] == parts + init && all[|all| - 1] == last;
      assert Concat(all) == Concat(parts + init) + last;
      ConcatAppend(parts, init);
      assert Concat(more) == Concat(init) + last;
      AppendAssoc(Concat(parts), Concat(init), last);
    }
  }

  // ---------------------------------------------------------------------------
  // Characters and strings (the C library and mkvtoolnix string helpers)

  /** tolower in the C locale */
  function Lower(c: char): char
  {
    if 'A' <= c <= 'Z' then (c as int + 32) as char else c
  }

  /** toupper in the C locale */
  function Upper(c: char): char
  {
    if 'a' <= c <= 'z' then (c as int - 32) as char else c
  }

  /** isalpha in the C locale */
  predicate IsAlpha(c: char)
  {
    'A' <= c <= 'Z' || 'a' <= c <= 'z'
  }

  /** The characters strip() removes: blanks and tabs. */
  predicate IsBlank(c: char)
  {
    c == ' ' || c == '\t'
  }

  /** isspace in the C locale (used by sscanf) */
  predicate IsSpace(c: char)
  {
    c == ' ' || c == '\t' || c == '\n' || c == '\r' || c == 11 as char || c == 12 as char
  }

  function StripLeft(s: string): (r: string)
    ensures |r| <= |s|
    ensures r == [] || !IsBlank(r[0])
  {
    if s != [] && IsBlank(s[0]) then StripLeft(s[1..]) else s
  }

  function StripRight(s: string): (r: string)
    ensures |r| <= |s| && (r != [] ==> r[0] == s[0])
    ensures r == [] || !IsBlank(r[|r| - 1])
  {
    if s != [] && IsBlank(s[|s| - 1]) then StripRight(s[..|s| - 1]) else s
  }

  /** strip(): drop leading and trailing blanks. */
  function Strip(s: string): (r: string)
    ensures r == [] || (!IsBlank(r[0]) && !IsBlank(r[|r| - 1]))
  {
    StripRight(StripLeft(s))
  }

  /** A string with no blank at either end is its own strip. */
  lemma StripStripped(s: string)
    requires s == [] || (!IsBlank(s[0]) && !IsBlank(s[|s| - 1]))
    ensures Strip(s) == s
  {
  }

  /** Case-insensitive equality of two strings (strcasecmp(...) == 0). */
  predicate EqualsCase(s: string, t: string)
  {
    |s| == |t| && forall i :: 0 <= i < |s| ==> Lower(s[i]) == Lower(t[i])
  }

  /** starts_with_case() */
  predicate StartsWithCase(s: string, prefix: string)
  {
    |prefix| <= |s| && EqualsCase(s[..|prefix|], prefix)
  }

  function UpperString(s: string): (r: string)
    ensures |r| == |s| && forall i :: 0 <= i < |s| ==> r[i] == Upper(s[i])
  {
    if s == [] then [] else [Upper(s[0])] + UpperString(s[1..])
  }

  function DigitChar(d: nat): char
    requires d < 10
  {
    ('0' as int + d) as char
  }

  /** Decimal rendering of a non-negative number (printf "%d"). */
  function NatToString(n: nat): (r: string)
    ensures |r| >= 1
    ensures forall i :: 0 <= i < |r| ==> '0' <= r[i] <= '9'
    ensures n < 10 <==> |r| == 1
  {
    if n < 10 then [DigitChar(n)] else NatToString(n / 10) + [DigitChar(n % 10)]
  }

  /** The number a string of decimal digits denotes. */
  function DigitsValue(s: string): int
  {
    if s == [] then 0 else 10 * DigitsValue(s[..|s| - 1]) + (s[|s| - 1] as int - '0' as int)
  }

  /** Rendering a number and reading its digits back gives the number. */
  lemma {:induction false} NatToStringRoundTrip(n: nat)
    ensures DigitsValue(NatToString(n)) == n
  {
    if n >= 10 {
      NatToStringRoundTrip(n / 10);
      var r := NatToString(n);
      assert r[..|r| - 1] == NatToString(n / 10);
    }
  }

  /** printf "%02d" for a non-negative number. */
  function Pad2(n: nat): (r: string)
    ensures |r| >= 2
    ensures n < 10 ==> r == ['0', DigitChar(n)]
    ensures n >= 10 ==> r == NatToString(n)
  {
    (if n < 10 then "0" else "") + NatToString(n)
  }

  // ---------------------------------------------------------------------------
  // Writing into a byte buffer

  /** Writes the little-endian bytes of `x` at `p` (put_uint32_le). */
  method PutU32(buf: array<byte>, p: nat, x: int)
    requires p + 4 <= buf.Length
    modifies buf
    ensures buf[..] == old(buf[..])[..p] + U32LeBytes(x) + old(buf[..])[p + 4..]
  {
    var b := U32LeBytes(x);
    buf[p] := b[0];
    buf[p + 1] := b[1];
    buf[p + 2] := b[2];
    buf[p + 3] := b[3];
  }

  /** Copies `data` into `buf` at `p`. */
  method PutBytes(buf: array<byte>, p: nat, data: seq<byte>)
    requires p + |data| <= buf.Length
    modifies buf
    ensures buf[..] == old(buf[..])[..p] + data + old(buf[..])[p + |data|..]
  {
    var j := 0;
    while j < |data|
      invariant 0 <= j <= |data|
      invariant forall k :: 0 <= k < buf.Length ==> buf[k] == if p <= k < p + j then data[k - p] else old(buf[k])
    {
      buf[p + j] := data[j];
      j := j + 1;
    }
    assert buf[..] == old(buf[..])[..p] + data + old(buf[..])[p + |data|..];
  }
}
