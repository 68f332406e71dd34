/**
 Pixel loops of the drawing surface (guacamole-server/src/common/surface.c).

 Buffers are two-dimensional arrays indexed [row, column]; each loop is proved to
 compute a simultaneous assignment from the pixels that were there on entry, and to
 report a rectangle that holds every pixel it changed.
 */
module Raster {
  import opened Rects

  type Byte = x: int | 0 <= x < 256

  /** A 32-bit ARGB colour value, by component. */
  datatype Pixel = Argb(a: Byte, r: Byte, g: Byte, b: Byte)

  const TRANSPARENT := Argb(0, 0, 0, 0)
  const BLACK := Argb(0xFF, 0, 0, 0)
  const WHITE := Argb(0xFF, 0xFF, 0xFF, 0xFF)

  predicate Opaque(p: Pixel) {
    p.a == 0xFF
  }

  datatype TransferFunction =
    | Black | White | Src | Dest | NSrc | NDest | And | Nand | Or | Nor
    | Xor | Xnor | NSrcAnd | NSrcNand | NSrcOr | NSrcNor

  /** The operation on one bit of a colour component. */
  function OnBits(op: TransferFunction): (bool, bool) -> bool {
    match op
    case Black => (s, d) => false
    case White => (s, d) => true
    case Src => (s, d) => s
    case Dest => (s, d) => d
    case NSrc => (s, d) => !s
    case NDest => (s, d) => !d
    case And => (s, d) => d && s
    case Nand => (s, d) => !(d && s)
    case Or => (s, d) => d || s
    case Nor => (s, d) => !(d || s)
    case Xor => (s, d) => d != s
    case Xnor => (s, d) => !(d != s)
    case NSrcAnd => (s, d) => d && !s
    case NSrcNand => (s, d) => !(d && !s)
    case NSrcOr => (s, d) => d || !s
    case NSrcNor => (s, d) => !(d || !s)
  }

  function Power(bits: nat): (p: nat)
    ensures p > 0
  {
    if bits == 0 then 1 else 2 * Power(bits - 1)
  }

  /** An operation on the lowest bits of two numbers. */
  function Bitwise(f: (bool, bool) -> bool, s: nat, d: nat, bits: nat): (r: nat)
    ensures r < Power(bits)
  {
    if bits == 0 then 0
    else 2 * Bitwise(f, s / 2, d / 2, bits - 1) + if f(s % 2 == 1, d % 2 == 1) then 1 else 0
  }

  function OnBytes(op: TransferFunction, s: Byte, d: Byte): Byte {
    assert Power(8) == 2 * 2 * 2 * 2 * Power(4) == 256;
    Bitwise(OnBits(op), s, d, 8)
  }

  /** `__guac_common_surface_transfer_int`: the new value of one destination pixel. */
  function TransferPixel(op: TransferFunction, src: Pixel, dst: Pixel): Pixel {
    match op
    case Black => BLACK
    case White => WHITE
    case Src => src
    case Dest => dst
    case _ =>
      Argb(if op.NSrc? then src.a else dst.a, OnBytes(op, src.r, dst.r), OnBytes(op, src.g, dst.g),
           OnBytes(op, src.b, dst.b))
  }

  function Bit(x: nat, k: nat): bool {
    if k == 0 then x % 2 == 1 else Bit(x / 2, k - 1)
  }

  lemma {:induction false} BitOfBitwise(f: (bool, bool) -> bool, s: nat, d: nat, bits: nat, k: nat)
    requires k < bits
    ensures Bit(Bitwise(f, s, d, bits), k) == f(Bit(s, k), Bit(d, k))
  {
    if k > 0 {
      BitOfBitwise(f, s / 2, d / 2, bits - 1, k - 1);
      assert Bitwise(f, s, d, bits) / 2 == Bitwise(f, s / 2, d / 2, bits - 1);
    }
  }

  // The numbers of the operations in the protocol.
  function Code(op: TransferFunction): nat {
    match op
    case Black => 0x0
    case White => 0xF
    case Src => 0x3
    case Dest => 0x5
    case NSrc => 0xC
    case NDest => 0xA
    case And => 0x1
    case Nand => 0xE
    case Or => 0x7
    case Nor => 0x8
    case Xor => 0x6
    case Xnor => 0x9
    case NSrcAnd => 0x4
    case NSrcNand => 0xB
    case NSrcOr => 0xD
    case NSrcNor => 0x2
  }

  /** A code read as a truth table: the results for (0,0), (0,1), (1,0) and (1,1) from the highest of four bits down. */
  function ByCode(code: nat, s: bool, d: bool): bool {
    Bit(code, (if s then 0 else 2) + if d then 0 else 1)
  }

  lemma BitsByCode(op: TransferFunction, s: bool, d: bool)
    ensures OnBits(op)(s, d) == ByCode(Code(op), s, d)
  {
    assert forall x: nat :: Bit(x, 1) == Bit(x / 2, 0);
    assert forall x: nat :: Bit(x, 2) == Bit(x / 2, 1);
    assert forall x: nat :: Bit(x, 3) == Bit(x / 2, 2);
  }

  lemma {:induction false} BitsOfExtremes(bits: nat, k: nat)
    requires k < bits
    ensures !Bit(0, k) && Bit(Power(bits) - 1, k)
  {
    if k > 0 {
      BitsOfExtremes(bits - 1, k - 1);
      assert (Power(bits) - 1) / 2 == Power(bits - 1) - 1;
    }
  }

  lemma ByteByCode(op: TransferFunction, src: Byte, dst: Byte, k: nat)
    requires k < 8
    ensures Bit(OnBytes(op, src, dst), k) == ByCode(Code(op), Bit(src, k), Bit(dst, k))
  {
    BitOfBitwise(OnBits(op), src, dst, 8, k);
    BitsByCode(op, Bit(src, k), Bit(dst, k));
  }

  /**
   Every operation follows, bit by bit, the truth table that its number in the protocol is;
   alpha is the source's, the destination's or full.
   */
  lemma TransferByCode(op: TransferFunction, src: Pixel, dst: Pixel, k: nat)
    requires k < 8
    ensures
      var out := TransferPixel(op, src, dst);
      && Bit(out.r, k) == ByCode(Code(op), Bit(src.r, k), Bit(dst.r, k))
      && Bit(out.g, k) == ByCode(Code(op), Bit(src.g, k), Bit(dst.g, k))
      && Bit(out.b, k) == ByCode(Code(op), Bit(src.b, k), Bit(dst.b, k))
      && out.a == if op.Black? || op.White? then 0xFF else if op.Src? || op.NSrc? then src.a else dst.a
  {
    BitsOfExtremes(8, k);
    assert Power(8) == 2 * 2 * 2 * 2 * Power(4) == 256;
    BitsByCode(op, Bit(src.r, k), Bit(dst.r, k));
    BitsByCode(op, Bit(src.g, k), Bit(dst.g, k));
    BitsByCode(op, Bit(src.b, k), Bit(dst.b, k));
    ByteByCode(op, src.r, dst.r, k);
    ByteByCode(op, src.g, dst.g, k);
    ByteByCode(op, src.b, dst.b, k);
  }

  /** `guac_common_surface_blend_component` */
  function BlendComponent(dst: Byte, src: Byte, alpha: Byte): Byte {
    assert dst * (0xFF - alpha) >= 0;
    var blended := src + dst * (0xFF - alpha);
    if blended > 0xFF then 0xFF else blended
  }

  /** `guac_common_surface_argb_blend` */
  function ArgbBlend(dst: Pixel, src: Pixel): Pixel {
    if src.a == 0xFF || dst.a == 0 then src
    else if src.a == 0 then dst
    else Argb(BlendComponent(dst.a, src.a, src.a), BlendComponent(dst.r, src.r, src.a),
              BlendComponent(dst.g, src.g, src.a), BlendComponent(dst.b, src.b, src.a))
  }

  /** Colour a drawn pixel gets; an image format without alpha is drawn opaque. */
  function PutPixel(opaqueFormat: bool, src: Pixel, dst: Pixel): Pixel {
    if opaqueFormat then src.(a := 0xFF) else ArgbBlend(dst, src)
  }

  /** A component drawn over another, with premultiplied alpha and up to the largest value. */
  predicate BlendedComponent(s: Byte, d: Byte, alpha: Byte, out: Byte) {
    out == Min(255, s + d * (255 - alpha))
  }

  /** What drawing `s` over `d` leaves. */
  predicate Blended(opaqueFormat: bool, s: Pixel, d: Pixel, out: Pixel) {
    if opaqueFormat then out == Argb(0xFF, s.r, s.g, s.b)
    else
      && (Opaque(s) ==> out == s)
      && (d.a == 0 ==> out == s)
      && (s.a == 0 && d.a != 0 ==> out == d)
      && (!Opaque(s) && s.a != 0 && d.a != 0 ==>
            && BlendedComponent(s.a, d.a, s.a, out.a) && BlendedComponent(s.r, d.r, s.a, out.r)
            && BlendedComponent(s.g, d.g, s.a, out.g) && BlendedComponent(s.b, d.b, s.a, out.b))
  }

  lemma PutPixelMeaning(opaqueFormat: bool, s: Pixel, d: Pixel)
    ensures Blended(opaqueFormat, s, d, PutPixel(opaqueFormat, s, d))
  {
  }

  /** Colour of a pixel painted through a mask. */
  function MaskPixel(color: Pixel, mask: Pixel, dst: Pixel): Pixel {
    if mask.a != 0 then color else dst
  }

  /** The rectangle lies within the buffer and has positive size. */
  predicate Fits<T>(r: Rect, buffer: array2<T>) {
    && 0 < r.width && 0 < r.height && 0 <= r.x && 0 <= r.y
    && r.x + r.width <= buffer.Length1 && r.y + r.height <= buffer.Length0
  }

  /** The part of `r` that a loop found to have changed: within `r`, or empty at its corner. */
  predicate PartOf(part: Rect, r: Rect) {
    if Empty(part) then part == Rect(r.x, r.y, 0, 0) else Inside(part, r)
  }

  /** The contents of a buffer, as a value that later writes do not change. */
  lemma Snapshot<T>(buffer: array2<T>) returns (p: (int, int) -> T)
    requires buffer.Length0 > 0 && buffer.Length1 > 0
    ensures Shows(buffer, p)
  {
    var rows := seq(buffer.Length0, j requires 0 <= j < buffer.Length0 reads buffer =>
                      seq(buffer.Length1, i requires 0 <= i < buffer.Length1 reads buffer => buffer[j, i]));
    p := (i, j) => if 0 <= j < |rows| && 0 <= i < |rows[j]| then rows[j][i] else rows[0][0];
  }

  /** A block operation: `f` combines the block at (sx, sy) into `r`, walked forwards or backwards. */
  datatype Block<!T> = Block(f: (T, T) -> T, r: Rect, sx: int, sy: int, forward: bool) {

    /** Offset (i, j) of the block is visited before loop position (x, y). */
    predicate Visited(x: int, y: int, i: int, j: int) {
      var column, row := if forward then i else r.width - 1 - i, if forward then j else r.height - 1 - j;
      row < y || (row == y && column < x)
    }

    /** Value that pixel (i, j) ends with when every pixel is read before any is written. */
    ghost function Result(source: (int, int) -> T, target: (int, int) -> T, i: int, j: int): T {
      if In(i, j, r) then f(source(i - r.x + sx, j - r.y + sy), target(i, j)) else target(i, j)
    }

    /** The buffer at loop position (x, y): visited pixels have their result, the others are as before. */
    ghost predicate Progress(dst: array2<T>, source: (int, int) -> T, target: (int, int) -> T, x: int, y: int)
      reads dst
    {
      forall j, i {:trigger dst[j, i]} :: 0 <= j < dst.Length0 && 0 <= i < dst.Length1 ==>
        dst[j, i] == if In(i, j, r) && Visited(x, y, i - r.x, j - r.y) then Result(source, target, i, j) else target(i, j)
    }

    /** Reading never meets a pixel that has already been written. */
    predicate SafeOrder() {
      if forward then r.y < sy || (r.y == sy && r.x <= sx) else r.y > sy || (r.y == sy && r.x >= sx)
    }

    /** The rectangle of changed pixels, from the extremes seen in loop coordinates. */
    function Translated(e: Extremes): Rect {
      if forward then
        FromEdges(r.x + e.minX, r.y + e.minY, r.x + e.maxX + 1, r.y + e.maxY + 1)
      else
        FromEdges(r.x + r.width - 1 - e.maxX, r.y + r.height - 1 - e.maxY, r.x + r.width - e.minX, r.y + r.height - e.minY)
    }

    /** The buffers hold both ends of the block, and aliased buffers are walked in a safe order. */
    ghost predicate Legal(src: array2<T>, dst: array2<T>, source: (int, int) -> T, target: (int, int) -> T)
      reads src
    {
      && Fits(r, dst) && Fits(Rect(sx, sy, r.width, r.height), src)
      && if src == dst then SafeOrder() && source == target else Shows(src, source)
    }

    /** What the loop knows at position (x, y). */
    ghost predicate At(dst: array2<T>, source: (int, int) -> T, target: (int, int) -> T, x: int, y: int, e: Extremes)
      reads dst
    {
      && Progress(dst, source, target, x, y)
      && 0 <= e.minX <= r.width && 0 <= e.minY <= r.height && 0 <= e.maxX < r.width && 0 <= e.maxY < r.height
      && ChangedWithin(dst, target, Translated(e))
    }
  }

  /** Smallest and largest loop coordinates at which a pixel changed. */
  datatype Extremes = Extremes(minX: int, minY: int, maxX: int, maxY: int)

  ghost predicate Shows<T>(buffer: array2<T>, picture: (int, int) -> T)
    reads buffer
  {
    forall i, j :: 0 <= i < buffer.Length1 && 0 <= j < buffer.Length0 ==> buffer[j, i] == picture(i, j)
  }

  /** Every pixel that differs from the picture lies in `box`. */
  ghost predicate ChangedWithin<T>(buffer: array2<T>, picture: (int, int) -> T, box: Rect)
    reads buffer
  {
    forall i, j :: 0 <= i < buffer.Length1 && 0 <= j < buffer.Length0 && buffer[j, i] != picture(i, j) ==> In(i, j, box)
  }

  /** Column and row, in the destination buffer, of loop position (x, y). */
  function Spot<T>(b: Block<T>, x: int, y: int): (int, int) {
    if b.forward then (b.r.x + x, b.r.y + y) else (b.r.x + b.r.width - 1 - x, b.r.y + b.r.height - 1 - y)
  }

  /** Combines the pixel at loop position (x, y). */
  method CombinePixel<T(==)>(src: array2<T>, dst: array2<T>, b: Block<T>, x: int, y: int,
                             ghost source: (int, int) -> T, ghost target: (int, int) -> T)
    returns (changed: bool)
    requires b.Legal(src, dst, source, target)
    requires 0 <= x < b.r.width && 0 <= y < b.r.height
    requires b.Progress(dst, source, target, x, y)
    modifies dst
    ensures b.Progress(dst, source, target, x + 1, y)
    ensures changed <==> dst[Spot(b, x, y).1, Spot(b, x, y).0] != target(Spot(b, x, y).0, Spot(b, x, y).1)
    ensures forall i, j :: 0 <= i < dst.Length1 && 0 <= j < dst.Length0 && (i, j) != Spot(b, x, y) ==>
              dst[j, i] == old(dst[j, i])
  {
    var (i, j) := Spot(b, x, y);
    var original := dst[j, i];
    var color := b.f(src[j - b.r.y + b.sy, i - b.r.x + b.sx], original);
    assert src[j - b.r.y + b.sy, i - b.r.x + b.sx] == source(i - b.r.x + b.sx, j - b.r.y + b.sy);
    dst[j, i] := color;
    changed := color != original;
  }

  /** Combines a pixel and keeps the extremes of what has changed. */
  method StepPixel<T(==)>(src: array2<T>, dst: array2<T>, b: Block<T>, x: int, y: int, e0: Extremes,
                          ghost source: (int, int) -> T, ghost target: (int, int) -> T)
    returns (e: Extremes)
    requires b.Legal(src, dst, source, target)
    requires 0 <= x < b.r.width && 0 <= y < b.r.height
    requires b.At(dst, source, target, x, y, e0)
    modifies dst
    ensures b.At(dst, source, target, x + 1, y, e)
  {
    var changed := CombinePixel(src, dst, b, x, y, source, target);
    e := e0;
    if changed {
      e := Extremes(Min(x, e.minX), Min(y, e.minY), Max(x, e.maxX), Max(y, e.maxY));
    }
    assert Inside(b.Translated(e0), b.Translated(e));
  }

  /** Combines one row of the block. */
  method CombineRow<T(==)>(src: array2<T>, dst: array2<T>, b: Block<T>, y: int, e0: Extremes,
                           ghost source: (int, int) -> T, ghost target: (int, int) -> T)
    returns (e: Extremes)
    requires b.Legal(src, dst, source, target)
    requires 0 <= y < b.r.height
    requires b.At(dst, source, target, 0, y, e0)
    modifies dst
    ensures b.At(dst, source, target, 0, y + 1, e)
  {
    var x := 0;
    e := e0;
    while x < b.r.width
      invariant 0 <= x <= b.r.width
      invariant b.Legal(src, dst, source, target)
      invariant b.At(dst, source, target, x, y, e)
    {
      e := StepPixel(src, dst, b, x, y, e, source, target);
      x := x + 1;
    }
  }

  /**
   The loop shared by the block operations. `slack` is 1 where the source starts its
   minima at the last pixel, 0 where it starts them one further.
   */
  method CombineBlock<T(==)>(src: array2<T>, dst: array2<T>, b: Block<T>, slack: int,
                             ghost source: (int, int) -> T, ghost target: (int, int) -> T)
    returns (part: Rect)
    requires b.Legal(src, dst, source, target) && Shows(dst, target)
    requires 0 <= slack <= 1
    modifies dst
    ensures forall i, j :: 0 <= i < dst.Length1 && 0 <= j < dst.Length0 ==> dst[j, i] == b.Result(source, target, i, j)
    ensures PartOf(part, b.r) && ChangedWithin(dst, target, part)
  {
    var e := Extremes(b.r.width - slack, b.r.height - slack, 0, 0);
    var y := 0;
    while y < b.r.height
      invariant 0 <= y <= b.r.height
      invariant b.Legal(src, dst, source, target)
      invariant b.At(dst, source, target, 0, y, e)
    {
      e := CombineRow(src, dst, b, y, e, source, target);
      y := y + 1;
    }
    part := b.Translated(e);
    if Empty(part) {
      part := Rect(b.r.x, b.r.y, 0, 0);
    }
  }

  /** The raster loop of a transfer, for any operation on pixels, in the direction that the overlap calls for. */
  method TransferBy(src: array2<Pixel>, sx: int, sy: int, f: (Pixel, Pixel) -> Pixel, dst: array2<Pixel>, r: Rect)
    returns (part: Rect, ghost source: (int, int) -> Pixel, ghost target: (int, int) -> Pixel)
    requires Fits(r, dst) && Fits(Rect(sx, sy, r.width, r.height), src)
    modifies dst
    ensures old(Shows(src, source) && Shows(dst, target))
    ensures forall i, j {:trigger dst[j, i]} :: 0 <= i < dst.Length1 && 0 <= j < dst.Length0 ==>
              dst[j, i] == if In(i, j, r) then f(source(i - r.x + sx, j - r.y + sy), target(i, j)) else target(i, j)
    ensures PartOf(part, r) && ChangedWithin(dst, target, part)
  {
    var forward := src != dst || r.y < sy || (r.y == sy && r.x < sx);
    source := Snapshot(src);
    target := source;
    if src != dst {
      target := Snapshot(dst);
    }
    part := CombineBlock(src, dst, Block(f, r, sx, sy, forward), 1, source, target);
  }

  /**
   `__guac_common_surface_transfer`: however source and destination overlap, the result is
   as if every pixel had been read before any was written, and `part` holds every change.
   */
  method Transfer(src: array2<Pixel>, sx: int, sy: int, op: TransferFunction, dst: array2<Pixel>, r: Rect)
    returns (part: Rect)
    requires Fits(r, dst) && Fits(Rect(sx, sy, r.width, r.height), src)
    modifies dst
    ensures forall i, j :: 0 <= i < dst.Length1 && 0 <= j < dst.Length0 ==>
              dst[j, i] == if In(i, j, r) then TransferPixel(op, old(src[j - r.y + sy, i - r.x + sx]), old(dst[j, i]))
                           else old(dst[j, i])
    ensures PartOf(part, r)
    ensures forall i, j :: 0 <= i < dst.Length1 && 0 <= j < dst.Length0 && dst[j, i] != old(dst[j, i]) ==> In(i, j, part)
  {
    ghost var source, target;
    part, source, target := TransferBy(src, sx, sy, (s, d) => TransferPixel(op, s, d), dst, r);
  }

  /** The transfer that copies pixels unchanged. */
  method Move(src: array2<Pixel>, sx: int, sy: int, dst: array2<Pixel>, r: Rect) returns (part: Rect)
    requires Fits(r, dst) && Fits(Rect(sx, sy, r.width, r.height), src)
    modifies dst
    ensures forall i, j :: 0 <= i < dst.Length1 && 0 <= j < dst.Length0 ==>
              dst[j, i] == if In(i, j, r) then old(src[j - r.y + sy, i - r.x + sx]) else old(dst[j, i])
    ensures PartOf(part, r)
    ensures forall i, j :: 0 <= i < dst.Length1 && 0 <= j < dst.Length0 && dst[j, i] != old(dst[j, i]) ==> In(i, j, part)
  {
    part := Transfer(src, sx, sy, Src, dst, r);
  }
}
