/** The RealVideo frame-size decoder of the RealMedia reader
    (get_rv_dimensions, r_real.cpp): a table-driven code read MSB-first from
    the start of the first fragment of a frame. */
module RealDimensions {
  import opened Common

  function Pow2(n: nat): (r: nat)
    ensures r >= 1
  {
    if n == 0 then 1 else 2 * Pow2(n - 1)
  }

  /** Bit `i` of the buffer, most significant bit of each byte first
      (the order bit_cursor_c reads in). */
  function Bit(buf: seq<byte>, i: nat): (b: nat)
    requires i < 8 * |buf|
    ensures b < 2
  {
    (buf[i / 8] as int / Pow2(7 - i % 8)) % 2
  }

  /** The unsigned value of the `n` bits starting at bit `pos`. */
  function BitsValue(buf: seq<byte>, pos: nat, n: nat): (v: nat)
    requires pos + n <= 8 * |buf|
    ensures v < Pow2(n)
  {
    if n == 0 then 0 else 2 * BitsValue(buf, pos, n - 1) + Bit(buf, pos + n - 1)
  }

  /** A successful bit read: the value and the cursor after it. */
  datatype BitRead = BitRead(value: nat, next: nat)

  /** bit_cursor_c::get_bits: fails when fewer than `n` bits remain. */
  function GetBits(buf: seq<byte>, pos: nat, n: nat): (r: Option<BitRead>)
    ensures r.Some? <==> pos + n <= 8 * |buf|
    ensures r.Some? ==> r.value.next == pos + n && r.value.value < Pow2(n)
  {
    if pos + n <= 8 * |buf| then Some(BitRead(BitsValue(buf, pos, n), pos + n)) else None
  }

  /** bit_cursor_c::skip_bits: a skip past the end leaves the cursor at the
      end, so every later read fails. */
  function SkipBits(buf: seq<byte>, pos: nat, n: nat): (p: nat)
  {
    if pos + n <= 8 * |buf| then pos + n else if pos <= 8 * |buf| then 8 * |buf| else pos
  }

  const WidthTable: seq<nat> := [160, 176, 240, 320, 352, 640, 704, 0]
  const HeightTable1: seq<nat> := [120, 132, 144, 240, 288, 480, 0, 0]
  const HeightTable2: seq<nat> := [180, 360, 576, 0]

  /** The extension loop: read 8-bit values, adding each one times four to
      `acc`, for as long as the value read is 255. */
  function ReadExtension(buf: seq<byte>, pos: nat, acc: nat): (r: Option<BitRead>)
    ensures r.Some? ==> r.value.value % 4 == acc % 4 && r.value.value >= acc
    decreases 8 * |buf| - pos
  {
    match GetBits(buf, pos, 8)
    case None => None
    case Some(c) =>
      if c.value == 255 then ReadExtension(buf, c.next, acc + 4 * 255)
      else Some(BitRead(acc + 4 * c.value, c.next))
  }

  datatype Dimensions = Dimensions(width: nat, height: nat)

  /** The width field: a 3-bit code after the two skipped 13-bit fields,
      looked up in the width table; the last code reads an extension. */
  function ReadWidth(buf: seq<byte>): (r: Option<BitRead>)
    ensures r.Some? ==> r.value.value in WidthTable[..7] || r.value.value % 4 == 0
  {
    match GetBits(buf, SkipBits(buf, SkipBits(buf, 0, 13), 13), 3)
    case None => None
    case Some(v) =>
      if WidthTable[v.value] != 0 then Some(BitRead(WidthTable[v.value], v.next))
      else ReadExtension(buf, v.next, 0)
  }

  /** The height field at bit `pos`: a 3-bit code looked up in the first
      height table; its last two codes take one more bit and look up the
      second table, whose last entry reads an extension. */
  function ReadHeight(buf: seq<byte>, pos: nat): (r: Option<nat>)
    ensures r.Some? ==> r.value in HeightTable1[..6] || r.value in HeightTable2[..3] || r.value % 4 == 0
  {
    match GetBits(buf, pos, 3)
    case None => None
    case Some(c) =>
      if HeightTable1[c.value] != 0 then Some(HeightTable1[c.value])
      else
        match GetBits(buf, c.next, 1)
        case None => None
        case Some(b) =>
          var c2 := (2 * c.value + b.value) % 4;
          if HeightTable2[c2] != 0 then Some(HeightTable2[c2])
          else
            match ReadExtension(buf, b.next, 0)
            case None => None
            case Some(h) => Some(h.value)
  }

  /** The frame size coded in `buf`, or None when a read runs out of bits. */
  function RvDimensions(buf: seq<byte>): Option<Dimensions>
  {
    match ReadWidth(buf)
    case None => None
    case Some(w) =>
      match ReadHeight(buf, w.next)
      case None => None
      case Some(h) => Some(Dimensions(w.value, h))
  }

  /** A buffer shorter than four bytes has no frame size; a width or height
      that decodes is a table entry or a multiple of 4. */
  lemma RvDimensionsRange(buf: seq<byte>)
    ensures |buf| < 4 ==> RvDimensions(buf).None?
    ensures RvDimensions(buf).Some? ==>
              RvDimensions(buf).value.width in WidthTable[..7] || RvDimensions(buf).value.width % 4 == 0
    ensures RvDimensions(buf).Some? ==>
              RvDimensions(buf).value.height in HeightTable1[..6] || RvDimensions(buf).value.height in HeightTable2[..3]
              || RvDimensions(buf).value.height % 4 == 0
  {
  }

  /** Skipping the two 13-bit fields puts the cursor at bit 26 when the
      buffer has that many bits, and at its end otherwise. */
  lemma SkipPrefix(buf: seq<byte>)
    ensures SkipBits(buf, SkipBits(buf, 0, 13), 13) == if 26 <= 8 * |buf| then 26 else 8 * |buf|
  {
  }

  /** The `k` 8-bit values from bit `pos` on are all 255. */
  predicate AllFF(buf: seq<byte>, pos: nat, k: nat)
    requires pos + 8 * k <= 8 * |buf|
    decreases k
  {
    k == 0 || (BitsValue(buf, pos, 8) == 255 && AllFF(buf, pos + 8, k - 1))
  }

  /** Every whole 8-bit value from bit `pos` to the end of the buffer is 255. */
  predicate FFToEnd(buf: seq<byte>, pos: nat)
    decreases 8 * |buf| - pos
  {
    pos + 8 <= 8 * |buf| ==> BitsValue(buf, pos, 8) == 255 && FFToEnd(buf, pos + 8)
  }

  /** The extension code: k values of 255 then one value c below 255 give
      4 * (255 * k + c), and the cursor ends after the k + 1 bytes. */
  lemma {:induction false} ExtensionValue(buf: seq<byte>, pos: nat, acc: nat, k: nat, c: nat)
    requires pos + 8 * (k + 1) <= 8 * |buf|
    requires AllFF(buf, pos, k)
    requires BitsValue(buf, pos + 8 * k, 8) == c && c < 255
    ensures ReadExtension(buf, pos, acc) == Some(BitRead(acc + 4 * (255 * k + c), pos + 8 * (k + 1)))
    decreases k
  {
    if k > 0 {
      assert pos + 8 + 8 * (k - 1) == pos + 8 * k;
      ExtensionValue(buf, pos + 8, acc + 4 * 255, k - 1, c);
    }
  }

  /** The extension loop fails whenever the bits run out before a value
      below 255 has been read. */
  lemma {:induction false} ExtensionRunsOut(buf: seq<byte>, pos: nat, acc: nat)
    requires FFToEnd(buf, pos)
    ensures ReadExtension(buf, pos, acc) == None
    decreases 8 * |buf| - pos
  {
    if pos + 8 <= 8 * |buf| {
      ExtensionRunsOut(buf, pos + 8, acc + 4 * 255);
    }
  }

  /** Width codes 0 to 6 give the table width and leave the cursor at bit
      29; code 7 reads the extension from bit 29. Fewer than 29 bits fail. */
  lemma WidthCode(buf: seq<byte>)
    ensures 8 * |buf| < 29 ==> ReadWidth(buf).None?
    ensures 29 <= 8 * |buf| && BitsValue(buf, 26, 3) < 7 ==>
              ReadWidth(buf) == Some(BitRead(WidthTable[BitsValue(buf, 26, 3)], 29))
    ensures 29 <= 8 * |buf| && BitsValue(buf, 26, 3) == 7 ==>
              ReadWidth(buf) == ReadExtension(buf, 29, 0)
  {
    SkipPrefix(buf);
  }

  /** Height codes 0 to 5 give the first table's height; code 6 selects 180
      or 360 by the next bit; code 7 selects 576 when that bit is 0 and the
      extension value when it is 1. */
  lemma HeightCode(buf: seq<byte>, pos: nat)
    requires pos + 4 <= 8 * |buf|
    ensures var c := BitsValue(buf, pos, 3);
            var b := BitsValue(buf, pos + 3, 1);
            (c < 6 ==> ReadHeight(buf, pos) == Some(HeightTable1[c])) &&
            (c == 6 ==> ReadHeight(buf, pos) == Some(if b == 0 then 180 else 360)) &&
            (c == 7 && b == 0 ==> ReadHeight(buf, pos) == Some(576)) &&
            (c == 7 && b == 1 ==> (ReadHeight(buf, pos).Some? <==> ReadExtension(buf, pos + 4, 0).Some?))
  {
  }

  /** The do-while extension loop of get_rv_dimensions, starting from `acc`. */
  method ExtensionLoop(buf: seq<byte>, pos: nat, acc: nat) returns (ok: bool, value: nat, next: nat)
    requires pos <= 8 * |buf|
    ensures ok <==> ReadExtension(buf, pos, acc).Some?
    ensures ok ==> ReadExtension(buf, pos, acc) == Some(BitRead(value, next))
    ensures next <= 8 * |buf|
  {
    value, next := acc, pos;
    var c := 255;
    while c == 255
      invariant next <= 8 * |buf|
      invariant c == 255 ==> ReadExtension(buf, pos, acc) == ReadExtension(buf, next, value)
      invariant c != 255 ==> ReadExtension(buf, pos, acc) == Some(BitRead(value, next))
      decreases 8 * |buf| - next, if c == 255 then 1 else 0
    {
      if next + 8 > 8 * |buf| {
        return false, value, next;
      }
      c := BitsValue(buf, next, 8);
      next := next + 8;
      value := value + 4 * c;
    }
    ok := true;
  }

  /** get_rv_dimensions: on success writes the decoded size; on any short
      read returns false and leaves `width` and `height` as they were. */
  method GetRvDimensions(buf: seq<byte>, width: nat, height: nat)
    returns (ok: bool, width': nat, height': nat)
    ensures ok <==> RvDimensions(buf).Some?
    ensures ok ==> width' == RvDimensions(buf).value.width && height' == RvDimensions(buf).value.height
    ensures !ok ==> width' == width && height' == height
  {
    var okW, w, pos := WidthField(buf);
    if !okW {
      return false, width, height;
    }
    var okH, h := HeightField(buf, pos);
    if !okH {
      return false, width, height;
    }
    return true, w, h;
  }

  /** get_rv_dimensions' width part. */
  method WidthField(buf: seq<byte>) returns (ok: bool, w: nat, pos: nat)
    ensures ok <==> ReadWidth(buf).Some?
    ensures ok ==> ReadWidth(buf) == Some(BitRead(w, pos)) && pos <= 8 * |buf|
  {
    pos := SkipBits(buf, 0, 13);
    pos := SkipBits(buf, pos, 13);
    if pos + 3 > 8 * |buf| {
      return false, 0, pos;
    }
    var v := BitsValue(buf, pos, 3);
    pos := pos + 3;
    w := WidthTable[v];
    ok := true;
    if w == 0 {
      ok, w, pos := ExtensionLoop(buf, pos, 0);
    }
  }

  /** get_rv_dimensions' height part, from bit `pos`. */
  method HeightField(buf: seq<byte>, pos: nat) returns (ok: bool, h: nat)
    requires pos <= 8 * |buf|
    ensures ok <==> ReadHeight(buf, pos).Some?
    ensures ok ==> ReadHeight(buf, pos) == Some(h)
  {
    if pos + 3 > 8 * |buf| {
      return false, 0;
    }
    var code := BitsValue(buf, pos, 3);
    var p := pos + 3;
    h := HeightTable1[code];
    if h != 0 {
      return true, h;
    }
    if p + 1 > 8 * |buf| {
      return false, 0;
    }
    var b := BitsValue(buf, p, 1);
    p := p + 1;
    h := HeightTable2[(2 * code + b) % 4];
    if h != 0 {
      return true, h;
    }
    var next;
    ok, h, next := ExtensionLoop(buf, p, 0);
  }
}
