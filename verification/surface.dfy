/**
 The buffered drawing surface (guacamole-server/src/common/surface.c): a backing buffer,
 one dirty rectangle, a bounded queue of deferred rectangles, and the picture that the
 remote display holds after the instructions sent so far.
 */
module Surfaces {
  import opened Rects
  import opened Raster

  type Image = (int, int) -> Pixel

  datatype BitmapRect = BitmapRect(flushed: bool, rect: Rect)

  /** Outcome of the encoding heuristics: lossy formats widen the rectangle to a grid. */
  datatype Encoding = Png | Jpeg | Webp

  /** A rectangle without points. */
  const NOWHERE := Rect(0, 0, 0, 0)

  const NEGLIGIBLE_WIDTH := 64
  const NEGLIGIBLE_HEIGHT := 64
  const DATA_FACTOR := 16
  const BASE_COST := 4096
  const NEGLIGIBLE_INCREASE := 4
  const FILL_PATTERN_FACTOR := 3
  const JPEG_BLOCK_SIZE := 16
  const WEBP_BLOCK_SIZE := 8

  // ----- What the remote display does with each instruction -----

  /** Porter-Duff "over" at the client; `blend` stands for partly transparent pixels. */
  function Over(blend: (Pixel, Pixel) -> Pixel, d: Pixel, s: Pixel): Pixel {
    if Opaque(s) then s else if s.a == 0 then d else blend(d, s)
  }

  ghost function AfterImage(remote: Image, sent: Image, r: Rect): Image {
    (i, j) => if In(i, j, r) then sent(i, j) else remote(i, j)
  }

  ghost function AfterFill(blend: (Pixel, Pixel) -> Pixel, color: Pixel, remote: Image, r: Rect): Image {
    (i, j) => if In(i, j, r) then Over(blend, remote(i, j), color) else remote(i, j)
  }

  /** A copy reads all of its source before it writes, also within one layer. */
  ghost function AfterCopy(blend: (Pixel, Pixel) -> Pixel, from: Image, sx: int, sy: int, remote: Image, r: Rect): Image {
    (i, j) => if In(i, j, r) then Over(blend, remote(i, j), from(i - r.x + sx, j - r.y + sy)) else remote(i, j)
  }

  // ----- The order of the queue -----

  /** `__guac_common_surface_bitmap_rect_compare` */
  function Compare(a: Rect, b: Rect): int {
    if a.y != b.y then a.y - b.y
    else if a.x != b.x then a.x - b.x
    else if a.width != b.width then b.width - a.width
    else a.height - b.height
  }

  /** From top to bottom, left to right, wide before narrow, flat before high. */
  predicate InOrder(a: Rect, b: Rect) {
    || a.y < b.y
    || (a.y == b.y && a.x < b.x)
    || (a.y == b.y && a.x == b.x && a.width > b.width)
    || (a.y == b.y && a.x == b.x && a.width == b.width && a.height <= b.height)
  }

  ghost predicate Ordered(s: seq<BitmapRect>) {
    forall k, m :: 0 <= k < m < |s| ==> InOrder(s[k].rect, s[m].rect)
  }

  lemma CompareMeaning(a: Rect, b: Rect)
    ensures Compare(a, b) <= 0 <==> InOrder(a, b)
    ensures Compare(a, b) > 0 ==> InOrder(b, a)
  {
  }

  function Inserted(s: seq<BitmapRect>, b: BitmapRect): seq<BitmapRect> {
    if s == [] then [b]
    else if Compare(b.rect, s[0].rect) <= 0 then [b] + s
    else [s[0]] + Inserted(s[1..], b)
  }

  lemma {:induction false} InsertedPermutes(s: seq<BitmapRect>, b: BitmapRect)
    ensures |Inserted(s, b)| == |s| + 1 && multiset(Inserted(s, b)) == multiset(s) + multiset{b}
  {
    if s != [] {
      assert s == [s[0]] + s[1..];
      InsertedPermutes(s[1..], b);
    }
  }

  lemma {:induction false} InsertedOrdered(s: seq<BitmapRect>, b: BitmapRect)
    requires Ordered(s)
    ensures Ordered(Inserted(s, b))
  {
    if s != [] {
      var first, rest := s[0], s[1..];
      if Compare(b.rect, first.rect) <= 0 {
        forall k | 0 <= k < |s| ensures InOrder(b.rect, s[k].rect) {
          CompareMeaning(b.rect, first.rect);
          assert k > 0 ==> InOrder(first.rect, s[k].rect);
        }
      } else {
        InsertedOrdered(rest, b);
        InsertedPermutes(rest, b);
        var all := Inserted(rest, b);
        CompareMeaning(b.rect, first.rect);
        forall k | 0 <= k < |all| ensures InOrder(first.rect, all[k].rect) {
          assert all[k] in multiset(all);
          if all[k] != b {
            assert all[k] in rest;
            var m :| 0 <= m < |rest| && rest[m] == all[k];
            assert s[m + 1] == all[k];
          }
        }
      }
    }
  }

  /** Sorting, as a permutation in order. */
  method Sort(s: seq<BitmapRect>) returns (sorted: seq<BitmapRect>)
    ensures |sorted| == |s| && multiset(sorted) == multiset(s) && Ordered(sorted)
  {
    sorted := [];
    for n := 0 to |s|
      invariant |sorted| == n && multiset(sorted) == multiset(s[..n]) && Ordered(sorted)
    {
      ghost var next := s[n];
      InsertedPermutes(sorted, next);
      InsertedOrdered(sorted, next);
      assert s[..n + 1] == s[..n] + [next];
      assert multiset(s[..n + 1]) == multiset(s[..n]) + multiset{next};
      sorted := Inserted(sorted, s[n]);
    }
    assert s[..|s|] == s;
  }

  class Surface {
    const width: nat
    const height: nat
    const buffer: array2<Pixel>
    const queue: array<BitmapRect>
    const encoding: Rect -> Encoding
    ghost const blend: (Pixel, Pixel) -> Pixel
    var realized: bool
    var dirty: bool
    var dirtyRect: Rect
    var queueLength: nat
    var clipped: bool
    var clipRect: Rect
    /** The client's copy of this layer, and the rectangles sent as images so far. */
    ghost var remote: Image
    ghost var images: seq<Rect>

    /** `guac_common_surface_alloc`: buffer and client start out transparent. */
    constructor (width: nat, height: nat, queueSize: nat, visibleLayer: bool, encoding: Rect -> Encoding,
                 ghost blend: (Pixel, Pixel) -> Pixel)
      requires queueSize >= 2
      ensures Valid() && Agree() && InSync() && fresh(buffer) && fresh(queue)
      ensures this.width == width && this.height == height && queue.Length == queueSize
      ensures realized == visibleLayer && Clip() == Bounds()
      ensures forall i, j :: InBounds(i, j) ==> buffer[j, i] == TRANSPARENT
    {
      this.width, this.height := width, height;
      buffer := new Pixel[height, width]((_, _) => TRANSPARENT);
      queue := new BitmapRect[queueSize](_ => BitmapRect(true, NOWHERE));
      this.encoding := encoding;
      this.blend := blend;
      realized := visibleLayer;
      dirty, dirtyRect, queueLength, clipped, clipRect := false, NOWHERE, 0, false, NOWHERE;
      remote, images := (_, _) => TRANSPARENT, [];
    }

    function Bounds(): Rect {
      Rect(0, 0, width, height)
    }

    function Clip(): Rect
      reads this
    {
      if clipped then clipRect else Bounds()
    }

    predicate InBounds(i: int, j: int) {
      In(i, j, Bounds())
    }

    /** The part of the structure that also holds inside a flush. */
    ghost predicate Shaped()
      reads this
    {
      && buffer.Length1 == width && buffer.Length0 == height
      && queue.Length >= 2
      && queueLength <= queue.Length
      && (clipped ==> Inside(clipRect, Bounds()))
    }

    /** Between public operations one slot of the queue stays free. */
    ghost predicate Valid()
      reads this
    {
      Shaped() && queueLength < queue.Length
    }

    /** Pixel (i, j) still waits to be sent. */
    ghost predicate Pending(i: int, j: int)
      reads this, queue
      requires queueLength <= queue.Length
    {
      || (dirty && In(i, j, dirtyRect))
      || exists k :: 0 <= k < queueLength && !queue[k].flushed && In(i, j, queue[k].rect)
    }

    /** Nothing waits to be sent. */
    predicate Flushed()
      reads this
    {
      !dirty && queueLength == 0
    }

    /** The client differs from the backing buffer only where something waits to be sent, or in `region`. */
    ghost predicate AgreeOutside(region: Rect)
      reads this, queue, buffer
      requires Shaped()
    {
      forall i, j :: InBounds(i, j) && remote(i, j) != buffer[j, i] ==> Pending(i, j) || In(i, j, region)
    }

    /** The client differs from the backing buffer only where something waits to be sent. */
    ghost predicate Agree()
      reads this, queue, buffer
      requires Shaped()
    {
      AgreeOutside(NOWHERE)
    }

    /** The client's copy equals the backing buffer, except perhaps in `region`. */
    ghost predicate InSyncOutside(region: Rect)
      reads this, buffer
      requires Shaped()
    {
      forall i, j :: InBounds(i, j) && remote(i, j) != buffer[j, i] ==> In(i, j, region)
    }

    /** The client's copy equals the backing buffer. */
    ghost predicate InSync()
      reads this, buffer
      requires Shaped()
    {
      forall i, j :: InBounds(i, j) ==> remote(i, j) == buffer[j, i]
    }

    // ----- Deferral decisions -----

    /** `__guac_common_should_combine` */
    function ShouldCombine(rect: Rect, rectOnly: bool): bool
      reads this
    {
      if !realized then true
      else if !dirty then false
      else
        var combined := Extend(dirtyRect, rect);
        var combinedCost := BASE_COST + combined.width * combined.height;
        var dirtyCost := BASE_COST + dirtyRect.width * dirtyRect.height;
        var fullCost := BASE_COST + rect.width * rect.height;
        var updateCost := if rectOnly then fullCost / DATA_FACTOR else fullCost;
        || (combined.width <= NEGLIGIBLE_WIDTH && combined.height <= NEGLIGIBLE_HEIGHT)
        || combinedCost <= updateCost + dirtyCost
        || combinedCost - dirtyCost <= dirtyCost / NEGLIGIBLE_INCREASE
        || combinedCost - updateCost <= updateCost / NEGLIGIBLE_INCREASE
        || (rect.x == dirtyRect.x && rect.y == dirtyRect.y + dirtyRect.height &&
            combinedCost <= (dirtyCost + updateCost) * FILL_PATTERN_FACTOR)
    }

    /** A scratch area defers everything, a clean layer nothing, and what lies inside the dirty rectangle is always combined. */
    lemma CombineDecision(rect: Rect, rectOnly: bool)
      requires dirty ==> dirtyRect.width >= 0 && dirtyRect.height >= 0
      ensures !realized ==> ShouldCombine(rect, rectOnly)
      ensures realized && !dirty ==> !ShouldCombine(rect, rectOnly)
      ensures dirty && Inside(rect, dirtyRect) ==> ShouldCombine(rect, rectOnly)
      ensures dirty && Extend(dirtyRect, rect).width <= 64 && Extend(dirtyRect, rect).height <= 64 ==>
                ShouldCombine(rect, rectOnly)
    {
      if realized && dirty && Inside(rect, dirtyRect) {
        assert Extend(dirtyRect, rect) == dirtyRect;
      }
    }

    /** `__guac_common_mark_dirty` */
    method MarkDirty(rect: Rect)
      requires queueLength <= queue.Length
      modifies this`dirty, this`dirtyRect
      ensures dirty == (old(dirty) || !Empty(rect))
      ensures Empty(rect) ==> dirtyRect == old(dirtyRect)
      ensures !Empty(rect) ==> dirtyRect == if old(dirty) then Extend(old(dirtyRect), rect) else rect
      ensures forall i, j :: old(Pending(i, j)) || In(i, j, rect) ==> Pending(i, j)
    {
      if Empty(rect) {
        return;
      }
      if dirty {
        dirtyRect := Extend(dirtyRect, rect);
      } else {
        dirtyRect := rect;
        dirty := true;
      }
    }

    /** `__guac_common_surface_flush_to_queue`; the caller leaves room in the queue. */
    method FlushToQueue()
      requires Shaped() && (dirty ==> queueLength < queue.Length)
      modifies this`dirty, this`queueLength, queue
      ensures Shaped() && !dirty
      ensures queueLength == old(queueLength) + (if old(dirty) then 1 else 0)
      ensures forall k :: 0 <= k < old(queueLength) ==> queue[k] == old(queue[k])
      ensures forall i, j :: old(Pending(i, j)) ==> Pending(i, j)
    {
      if !dirty {
        return;
      }
      queue[queueLength] := BitmapRect(false, dirtyRect);
      queueLength := queueLength + 1;
      dirty := false;
      forall i, j | old(Pending(i, j)) ensures Pending(i, j) {
        if old(dirty && In(i, j, dirtyRect)) {
          assert !queue[queueLength - 1].flushed && In(i, j, queue[queueLength - 1].rect);
        } else {
          var k :| 0 <= k < old(queueLength) && !old(queue[k]).flushed && In(i, j, old(queue[k]).rect);
          assert queue[k] == old(queue[k]);
        }
      }
    }

    /** `qsort` over the queue: a permutation in the order of the comparison. */
    method SortQueue()
      requires Shaped()
      modifies queue
      ensures multiset(queue[..queueLength]) == old(multiset(queue[..queueLength]))
      ensures Ordered(queue[..queueLength])
      ensures forall i, j :: old(Pending(i, j)) ==> Pending(i, j)
    {
      ghost var before := queue[..queueLength];
      var sorted := Sort(queue[..queueLength]);
      forall k | 0 <= k < queueLength {
        queue[k] := sorted[k];
      }
      assert queue[..queueLength] == sorted;
      forall i, j | old(Pending(i, j)) && !(dirty && In(i, j, dirtyRect)) ensures Pending(i, j) {
        var k :| 0 <= k < queueLength && !old(queue[k]).flushed && In(i, j, old(queue[k]).rect);
        assert before[k] in multiset(before);
        assert before[k] in queue[..queueLength];
      }
    }

    // ----- Flushing -----

    /** Lossy images have sides in whole blocks of 16 or 8 pixels, or the sides of the surface; others are exact. */
    predicate OnGrid(rect: Rect, image: Rect) {
      match encoding(rect)
      case Png => image == rect
      case Jpeg => FitsGrid(image.width, width, 16) && FitsGrid(image.height, height, 16)
      case Webp => FitsGrid(image.width, width, 8) && FitsGrid(image.height, height, 8)
    }

    /** The three image flushes: lossy ones first widen the dirty rectangle to their grid. */
    method SendDirty()
      requires Shaped() && dirty && !Empty(dirtyRect) && Inside(dirtyRect, Bounds())
      modifies this`dirty, this`dirtyRect, this`realized, this`remote, this`images
      ensures !dirty && realized
      ensures |images| == |old(images)| + 1 && images[..|old(images)|] == old(images)
      ensures Inside(old(dirtyRect), images[|images| - 1]) && Inside(images[|images| - 1], Bounds())
      ensures forall i, j :: InBounds(i, j) ==>
                remote(i, j) == if In(i, j, images[|images| - 1]) then buffer[j, i] else old(remote(i, j))
      ensures OnGrid(old(dirtyRect), images[|images| - 1])
    {
      match encoding(dirtyRect) {
        case Png =>
        case Jpeg => var _, wider := ExpandToGrid(JPEG_BLOCK_SIZE, dirtyRect, Bounds()); dirtyRect := wider;
        case Webp => var _, wider := ExpandToGrid(WEBP_BLOCK_SIZE, dirtyRect, Bounds()); dirtyRect := wider;
      }
      ghost var sent := Snapshot(buffer);
      remote := AfterImage(remote, sent, dirtyRect);
      images := images + [dirtyRect];
      realized := true;
      dirty := false;
    }

    /** Bounds for the dirty rectangle while a flush builds it up. */
    ghost predicate DirtyInside()
      reads this
    {
      dirty ==> !Empty(dirtyRect) && Inside(dirtyRect, Bounds())
    }

    /** One candidate of the inner loop: clipped, then dropped, absorbed or left for later. */
    method Absorb(k: nat) returns (absorbed: bool)
      requires Shaped() && k < queueLength && DirtyInside()
      modifies this`dirty, this`dirtyRect, queue
      ensures Shaped() && DirtyInside()
      ensures old(dirty) ==> dirty
      ensures !old(dirty) ==> queue[k].flushed
      ensures old(queue[k]).flushed ==> queue[k].flushed
      ensures forall n :: 0 <= n < queue.Length && n != k ==> queue[n] == old(queue[n])
      ensures forall i, j :: InBounds(i, j) && old(Pending(i, j)) ==> Pending(i, j)
    {
      absorbed := false;
      if queue[k].flushed {
        return;
      }
      var rect := Constrain(queue[k].rect, Bounds());
      queue[k] := BitmapRect(false, rect);
      if Empty(rect) {
        queue[k] := BitmapRect(true, rect);
      } else if ShouldCombine(rect, false) || !dirty {
        MarkDirty(rect);
        queue[k] := BitmapRect(true, rect);
        absorbed := true;
      }
      forall i, j | InBounds(i, j) && old(Pending(i, j)) ensures Pending(i, j) {
        if !old(dirty && In(i, j, dirtyRect)) {
          var n :| 0 <= n < queueLength && !old(queue[n]).flushed && In(i, j, old(queue[n]).rect);
          if n == k {
            assert In(i, j, rect);
            assert queue[k].rect == rect;
          } else {
            assert queue[n] == old(queue[n]);
          }
        }
      }
    }

    /** The inner loop: builds up the dirty rectangle from candidate `first` onwards. */
    method Gather(first: nat) returns (combined: nat)
      requires Shaped() && first < queueLength && !dirty
      modifies this`dirty, this`dirtyRect, queue
      ensures Shaped() && DirtyInside()
      ensures queue[first].flushed
      ensures forall k :: 0 <= k < first ==> queue[k] == old(queue[k])
      ensures forall i, j :: InBounds(i, j) && old(Pending(i, j)) ==> Pending(i, j)
    {
      combined := 0;
      var k := first;
      while k < queueLength
        invariant Shaped() && DirtyInside()
        invariant first <= k <= queueLength
        invariant if k == first then !dirty else queue[first].flushed
        invariant forall n :: 0 <= n < first ==> queue[n] == old(queue[n])
        invariant forall i, j :: InBounds(i, j) && old(Pending(i, j)) ==> Pending(i, j)
      {
        var absorbed := Absorb(k);
        if absorbed {
          combined := combined + 1;
        }
        k := k + 1;
      }
    }

    /** Pixel (i, j) was part of an image sent after the first `from` ones. */
    ghost predicate Sent(from: nat, i: int, j: int)
      reads this`images
    {
      exists n :: from <= n < |images| && In(i, j, images[n])
    }

    /** A picture is `before` with the images sent after the first `from` ones on top. */
    ghost predicate Overlays(picture: Image, before: Image, from: nat)
      reads this`images, buffer
      requires buffer.Length1 == width && buffer.Length0 == height
    {
      forall i, j {:trigger picture(i, j)} :: InBounds(i, j) ==>
        picture(i, j) == if Sent(from, i, j) then buffer[j, i] else before(i, j)
    }

    /** Sends the dirty rectangle; what was dirty is now sent, and agreement is kept. */
    method SendGathered(ghost from: nat, ghost region: Rect, ghost before: Image)
      requires Shaped() && dirty && !Empty(dirtyRect) && Inside(dirtyRect, Bounds())
      requires AgreeOutside(region) && from <= |images| && Overlays(remote, before, from)
      modifies this`dirty, this`dirtyRect, this`realized, this`remote, this`images
      ensures !dirty && realized && AgreeOutside(region) && Overlays(remote, before, from)
      ensures |images| == |old(images)| + 1 && images[..|old(images)|] == old(images)
      ensures Inside(images[|images| - 1], Bounds())
      ensures forall i, j :: old(Pending(i, j)) || old(Sent(from, i, j)) ==> Pending(i, j) || Sent(from, i, j)
    {
      SendDirty();
      var last := images[|images| - 1];
      forall i, j ensures Sent(from, i, j) <==> old(Sent(from, i, j)) || In(i, j, last) {
        if n :| from <= n < |old(images)| && In(i, j, old(images)[n]) {
          assert images[n] == old(images)[n];
        }
      }
      forall i, j | old(Pending(i, j)) || old(Sent(from, i, j)) ensures Pending(i, j) || Sent(from, i, j) {
        if old(dirty && In(i, j, dirtyRect)) {
          assert In(i, j, last);
        } else if n :| from <= n < |old(images)| && In(i, j, old(images)[n]) {
          assert images[n] == old(images)[n];
        } else {
          var k :| 0 <= k < queueLength && !old(queue[k]).flushed && In(i, j, old(queue[k]).rect);
          assert queue[k] == old(queue[k]);
        }
      }
      forall i, j | InBounds(i, j) && remote(i, j) != buffer[j, i] && !In(i, j, region) ensures Pending(i, j) {
        assert !In(i, j, last);
        assert old(Pending(i, j));
        var k :| 0 <= k < queueLength && !old(queue[k]).flushed && In(i, j, old(queue[k]).rect);
        assert queue[k] == old(queue[k]);
      }
    }

    /**
     `__guac_common_surface_flush`: the queue is walked while it grows, never beyond its
     capacity, and afterwards nothing is pending: every pixel that waited has been sent,
     and the client's copy equals the backing buffer outside the `region` that the caller
     has drawn to but not yet marked.
     */
    method FlushPending(ghost region: Rect)
      requires Valid() && AgreeOutside(region)
      modifies this`dirty, this`dirtyRect, this`queueLength, this`realized, this`remote, this`images, queue
      ensures Valid() && Flushed()
      ensures InSyncOutside(region)
      ensures old(realized) ==> realized
      ensures forall i, j :: InBounds(i, j) && old(Pending(i, j)) ==> Sent(|old(images)|, i, j)
      ensures forall n :: |old(images)| <= n < |images| ==> Inside(images[n], Bounds())
      ensures Overlays(remote, old(remote), |old(images)|)
      ensures old(Flushed()) ==> images == old(images)
    {
      ghost var sentBefore := |images|;
      FlushToQueue();
      var originalLength := queueLength;
      SortQueue();
      var i := 0;
      while i < queueLength
        invariant Shaped() && !dirty && AgreeOutside(region)
        invariant 0 <= i <= queueLength
        invariant forall k :: 0 <= k < i ==> queue[k].flushed
        invariant old(realized) ==> realized
        invariant sentBefore <= |images|
        invariant forall n :: sentBefore <= n < |images| ==> Inside(images[n], Bounds())
        invariant forall x, y :: InBounds(x, y) && old(Pending(x, y)) ==> Pending(x, y) || Sent(sentBefore, x, y)
        invariant Overlays(remote, old(remote), sentBefore)
        invariant old(Flushed()) ==> queueLength == 0 && images == old(images)
        decreases queue.Length - i
      {
        if !queue[i].flushed {
          var combined := Gather(i);
          if (combined > 1 || i < originalLength) && queueLength < queue.Length {
            FlushToQueue();
          } else if dirty {
            SendGathered(sentBefore, region, old(remote));
          }
        }
        i := i + 1;
      }
      queueLength := 0;
    }

    /** `__guac_common_surface_flush_deferred` */
    method FlushDeferred(ghost region: Rect)
      requires Valid() && AgreeOutside(region)
      modifies this`dirty, this`dirtyRect, this`queueLength, this`realized, this`remote, this`images, queue
      ensures Valid() && !dirty && AgreeOutside(region) && (old(realized) ==> realized)
    {
      if !dirty {
        return;
      }
      if queueLength == queue.Length - 1 {
        FlushPending(region);
      }
      FlushToQueue();
    }

    /** The common tail of deferred draws: queue the dirty rectangle if `rect` is kept apart from it. */
    method Defer(rect: Rect)
      requires Valid() && AgreeOutside(rect)
      modifies this`dirty, this`dirtyRect, this`queueLength, this`realized, this`remote, this`images, queue
      ensures Valid() && Agree() && (old(realized) ==> realized)
    {
      if !ShouldCombine(rect, false) {
        FlushDeferred(rect);
      }
      MarkDirty(rect);
    }

    // ----- Public operations -----

    /** The pixels of a width x height block placed at (x, y) that drawing may touch. */
    function Visible(x: int, y: int, w: int, h: int): Rect
      reads this
    {
      Constrain(Rect(x, y, w, h), Clip())
    }

    /** Combines the visible part of an image placed at (x, y) into the buffer; `part` holds what changed. */
    method Combine(x: int, y: int, image: array2<Pixel>, f: (Pixel, Pixel) -> Pixel, rect: Rect) returns (part: Rect)
      requires Valid() && Agree() && image != buffer
      requires rect == Visible(x, y, image.Length1, image.Length0) && !Empty(rect)
      modifies buffer
      ensures Valid() && AgreeOutside(rect) && AgreeOutside(part) && (Empty(part) ==> Agree())
      ensures forall i, j :: InBounds(i, j) ==>
                buffer[j, i] == if In(i, j, rect) then f(image[j - y, i - x], old(buffer[j, i])) else old(buffer[j, i])
    {
      ghost var source := Snapshot(image);
      ghost var target := Snapshot(buffer);
      part := CombineBlock(image, buffer, Block(f, rect, rect.x - x, rect.y - y, true), 0, source, target);
    }

    /** Draws into the buffer and defers the update, of what changed or of all that was drawn. */
    method Blit(x: int, y: int, image: array2<Pixel>, f: (Pixel, Pixel) -> Pixel, narrow: bool)
      requires Valid() && Agree() && image != buffer
      modifies this`dirty, this`dirtyRect, this`queueLength, this`realized, this`remote, this`images, queue, buffer
      ensures Valid() && Agree()
      ensures forall i, j :: InBounds(i, j) ==>
                buffer[j, i] == if In(i, j, Visible(x, y, image.Length1, image.Length0))
                                then f(image[j - y, i - x], old(buffer[j, i])) else old(buffer[j, i])
    {
      var rect := Visible(x, y, image.Length1, image.Length0);
      if Empty(rect) {
        return;
      }
      var part := Combine(x, y, image, f, rect);
      if !narrow {
        Defer(rect);
      } else if !Empty(part) {
        Defer(part);
      }
    }

    /** `guac_common_surface_draw`: only the pixels that really changed become pending. */
    method Draw(x: int, y: int, image: array2<Pixel>, opaqueFormat: bool)
      requires Valid() && Agree() && image != buffer
      modifies this`dirty, this`dirtyRect, this`queueLength, this`realized, this`remote, this`images, queue, buffer
      ensures Valid() && Agree()
      ensures forall i, j :: InBounds(i, j) ==>
                buffer[j, i] == if In(i, j, Visible(x, y, image.Length1, image.Length0))
                                then PutPixel(opaqueFormat, image[j - y, i - x], old(buffer[j, i])) else old(buffer[j, i])
      ensures forall i, j :: InBounds(i, j) && In(i, j, Visible(x, y, image.Length1, image.Length0)) ==>
                Blended(opaqueFormat, image[j - y, i - x], old(buffer[j, i]), buffer[j, i])
    {
      Blit(x, y, image, (s, d) => PutPixel(opaqueFormat, s, d), true);
      forall i, j | InBounds(i, j) && In(i, j, Visible(x, y, image.Length1, image.Length0))
        ensures Blended(opaqueFormat, image[j - y, i - x], old(buffer[j, i]), buffer[j, i])
      {
        PutPixelMeaning(opaqueFormat, image[j - y, i - x], old(buffer[j, i]));
      }
    }

    /** `guac_common_surface_paint`: the whole visible rectangle becomes pending. */
    method Paint(x: int, y: int, mask: array2<Pixel>, color: Pixel)
      requires Valid() && Agree() && mask != buffer
      modifies this`dirty, this`dirtyRect, this`queueLength, this`realized, this`remote, this`images, queue, buffer
      ensures Valid() && Agree()
      ensures forall i, j :: InBounds(i, j) ==>
                buffer[j, i] == if In(i, j, Visible(x, y, mask.Length1, mask.Length0)) && mask[j - y, i - x].a != 0
                                then color else old(buffer[j, i])
    {
      Blit(x, y, mask, (s, d) => MaskPixel(color, s, d), false);
    }

    /** `guac_common_surface_set`: opaque fills that are not deferred are sent at once. */
    method Set(x: int, y: int, w: int, h: int, color: Pixel)
      requires Valid() && Agree()
      modifies this`dirty, this`dirtyRect, this`queueLength, this`realized, this`remote, this`images, queue, buffer
      ensures Valid() && Agree() && (old(realized) ==> realized)
      ensures forall i, j :: InBounds(i, j) ==>
                buffer[j, i] == if In(i, j, Visible(x, y, w, h)) then color else old(buffer[j, i])
    {
      var rect := Visible(x, y, w, h);
      if Empty(rect) {
        return;
      }
      ghost var target := Snapshot(buffer);
      var part := CombineBlock(buffer, buffer, Block((s, d) => color, rect, rect.x, rect.y, true), 1, target, target);
      if Empty(part) {
        return;
      }
      if !Opaque(color) {
        Defer(part);
      } else if ShouldCombine(part, true) {
        MarkDirty(part);
      } else {
        FlushPending(part);
        remote := AfterFill(blend, color, remote, part);
        realized := true;
      }
    }

    /** `guac_common_surface_clip` */
    method AddClip(x: int, y: int, w: int, h: int)
      requires Valid()
      modifies this`clipped, this`clipRect
      ensures Valid() && clipped
      ensures forall i, j :: In(i, j, Clip()) <==> old(In(i, j, Clip())) && In(i, j, Rect(x, y, w, h))
    {
      if !clipped {
        clipRect := Bounds();
        clipped := true;
      }
      clipRect := Constrain(clipRect, Rect(x, y, w, h));
    }

    /** `guac_common_surface_reset_clip` */
    method ResetClip()
      requires Valid()
      modifies this`clipped
      ensures Valid() && Clip() == Bounds()
    {
      clipped := false;
    }

    /** `guac_common_surface_flush`: afterwards the client shows exactly the backing buffer. */
    method Flush()
      requires Valid() && Agree()
      modifies this`dirty, this`dirtyRect, this`queueLength, this`realized, this`remote, this`images, queue
      ensures Valid() && Agree() && InSync() && Flushed()
      ensures old(realized) ==> realized
    {
      FlushPending(NOWHERE);
    }
  }

  // ----- Copies -----

  /** Two surfaces are one and the same, or share no memory. */
  predicate Separate(a: Surface, b: Surface) {
    a == b || (a.buffer != b.buffer && a.queue != b.queue)
  }

  /** Every pixel of the block is opaque. */
  ghost predicate OpaqueBlock(buffer: array2<Pixel>, block: Rect)
    reads buffer
  {
    forall i, j :: In(i, j, block) && 0 <= i < buffer.Length1 && 0 <= j < buffer.Length0 ==> Opaque(buffer[j, i])
  }

  /** Every pixel of the block is either opaque or fully transparent. */
  ghost predicate PlainBlock(buffer: array2<Pixel>, block: Rect)
    reads buffer
  {
    forall i, j :: In(i, j, block) && 0 <= i < buffer.Length1 && 0 <= j < buffer.Length0 ==>
      Opaque(buffer[j, i]) || buffer[j, i].a == 0
  }

  function Displaced(r: Rect, ox: int, oy: int): Rect {
    Rect(r.x + ox, r.y + oy, r.width, r.height)
  }

  /** A copy instruction for `r`: the client shows `under`, and the source held `from`. */
  datatype Instruction = Instruction(r: Rect, under: Image, from: Image)

  /** Drawn over what the client shows, every source pixel comes out as itself. */
  ghost predicate Reproduces(blend: (Pixel, Pixel) -> Pixel, c: Instruction, ox: int, oy: int) {
    forall i, j {:trigger In(i, j, c.r)} :: In(i, j, c.r) ==>
      Over(blend, c.under(i, j), c.from(i + ox, j + oy)) == c.from(i + ox, j + oy)
  }

  /** The buffer shows `under` with a block of `from` on top. */
  ghost predicate Pasted(buffer: array2<Pixel>, c: Instruction, ox: int, oy: int)
    reads buffer
  {
    forall i, j {:trigger buffer[j, i]} :: 0 <= i < buffer.Length1 && 0 <= j < buffer.Length0 ==>
      buffer[j, i] == if In(i, j, c.r) then c.from(i + ox, j + oy) else c.under(i, j)
  }

  /** An opaque pixel always comes out as itself; a fully transparent one only over an equal pixel. */
  lemma PlainOver(blend: (Pixel, Pixel) -> Pixel, under: Pixel, over: Pixel)
    requires Opaque(over) || over.a == 0
    ensures Over(blend, under, over) == over <==> Opaque(over) || over == under
  {
  }

  /** The picture in the buffer of a surface, as a value. */
  lemma Picture(s: Surface) returns (p: Image)
    requires s.Shaped()
    ensures Shows(s.buffer, p)
  {
    if s.width > 0 && s.height > 0 {
      p := Snapshot(s.buffer);
    } else {
      p := (_, _) => TRANSPARENT;
    }
  }

  /** Moves a block of pixels, by displacement, from a buffer that shows `from`. */
  method MoveBlock(src: array2<Pixel>, ox: int, oy: int, dst: array2<Pixel>, r: Rect, ghost under: Image, ghost from: Image)
    returns (part: Rect)
    requires Fits(r, dst) && Fits(Displaced(r, ox, oy), src) && Shows(src, from)
    modifies dst
    requires Shows(dst, under)
    ensures Pasted(dst, Instruction(r, under, from), ox, oy)
    ensures PartOf(part, r) && ChangedWithin(dst, under, part)
  {
    part := Move(src, r.x + ox, r.y + oy, dst, r);
    forall i, j | In(i, j, r) ensures dst[j, i] == from(i + ox, j + oy) {
      assert j - r.y + (r.y + oy) == j + oy && i - r.x + (r.x + ox) == i + ox;
    }
  }

  /** Sends a copy instruction between flushed layers. */
  method SendCopy(src: Surface, ox: int, oy: int, dst: Surface, r: Rect, ghost from: Image)
    requires src.Shaped() && dst.Shaped() && src.InSync() && Shows(src.buffer, from)
    requires Fits(r, dst.buffer) && Fits(Displaced(r, ox, oy), src.buffer)
    modifies dst`remote, dst`realized
    ensures dst.realized
    ensures Drawn(dst, Instruction(r, old(dst.remote), from), ox, oy)
  {
    dst.remote := AfterCopy(dst.blend, src.remote, r.x + ox, r.y + oy, dst.remote, r);
    dst.realized := true;
  }

  /** The client has drawn the instruction over what it showed. */
  ghost predicate Drawn(s: Surface, c: Instruction, ox: int, oy: int)
    reads s
  {
    forall i, j {:trigger s.remote(i, j)} :: s.InBounds(i, j) ==>
      s.remote(i, j) == if In(i, j, c.r) then Over(s.blend, c.under(i, j), c.from(i + ox, j + oy)) else c.under(i, j)
  }

  lemma AgreeIfFlushed(s: Surface)
    requires s.Shaped() && s.Flushed()
    ensures s.Agree() <==> s.InSync()
  {
  }

  /** A client that is right outside the instruction is right altogether exactly if every pixel is reproduced. */
  lemma RightIfReproduced(s: Surface, c: Instruction, ox: int, oy: int)
    requires s.Shaped() && (Empty(c.r) || Inside(c.r, s.Bounds()))
    requires Pasted(s.buffer, c, ox, oy) && Drawn(s, c, ox, oy)
    ensures s.InSync() <==> Reproduces(s.blend, c, ox, oy)
  {
    if Reproduces(s.blend, c, ox, oy) {
      forall i, j | s.InBounds(i, j) ensures s.remote(i, j) == s.buffer[j, i] {
        assert In(i, j, c.r) || !In(i, j, c.r);
      }
    }
    if s.InSync() {
      forall i, j | In(i, j, c.r)
        ensures Over(s.blend, c.under(i, j), c.from(i + ox, j + oy)) == c.from(i + ox, j + oy)
      {
        assert s.InBounds(i, j) && s.remote(i, j) == s.buffer[j, i];
      }
    }
  }

  /** The immediate copy within one surface: what the client then shows is right exactly if every pixel is reproduced. */
  method CopyNow(s: Surface, ox: int, oy: int, r: Rect, ghost p: Image)
    requires s.Valid() && s.InSync() && Shows(s.buffer, p) && Fits(r, s.buffer) && Fits(Displaced(r, ox, oy), s.buffer)
    modifies s`realized, s`remote, s.buffer
    ensures s.Valid()
    ensures Pasted(s.buffer, Instruction(r, p, p), ox, oy)
    ensures s.InSync() <==> Reproduces(s.blend, Instruction(r, p, p), ox, oy)
  {
    ghost var c := Instruction(r, p, p);
    SendCopy(s, ox, oy, s, r, p);
    assert Drawn(s, c, ox, oy);
    var _ := MoveBlock(s.buffer, ox, oy, s.buffer, r, p, p);
    RightIfReproduced(s, c, ox, oy);
  }

  /** The copy within one surface that is left for a later image. */
  method CopyLater(s: Surface, ox: int, oy: int, r: Rect, ghost p: Image)
    requires s.Valid() && s.Agree() && Shows(s.buffer, p) && Fits(r, s.buffer) && Fits(Displaced(r, ox, oy), s.buffer)
    modifies s`dirty, s`dirtyRect, s.buffer
    ensures s.Valid() && s.Agree()
    ensures Pasted(s.buffer, Instruction(r, p, p), ox, oy)
  {
    s.MarkDirty(r);
    var _ := MoveBlock(s.buffer, ox, oy, s.buffer, r, p, p);
  }

  /**
   A copy within one surface: the instruction goes out first, from the flushed picture,
   and the buffer is moved afterwards.
   */
  method CopyBlockWithin(s: Surface, ox: int, oy: int, r: Rect, ghost p: Image) returns (ghost sent: Instruction)
    requires s.Valid() && s.Agree() && Shows(s.buffer, p) && Fits(r, s.buffer) && Fits(Displaced(r, ox, oy), s.buffer)
    modifies s`dirty, s`dirtyRect, s`queueLength, s`realized, s`remote, s`images, s.queue, s.buffer
    ensures s.Valid()
    ensures Pasted(s.buffer, Instruction(r, p, p), ox, oy)
    ensures sent == Instruction(if old(s.ShouldCombine(r, true)) then NOWHERE else r, p, p)
    ensures s.Agree() <==> Reproduces(s.blend, sent, ox, oy)
  {
    if s.ShouldCombine(r, true) {
      CopyLater(s, ox, oy, r, p);
      sent := Instruction(NOWHERE, p, p);
    } else {
      s.FlushPending(NOWHERE);
      CopyNow(s, ox, oy, r, p);
      AgreeIfFlushed(s);
      sent := Instruction(r, p, p);
    }
  }

  /** Both surfaces are flushed; the client then shows `under` for the destination. */
  method FlushBoth(src: Surface, dst: Surface, part: Rect) returns (ghost under: Image)
    requires src != dst && Separate(src, dst)
    requires src.Valid() && src.Agree() && dst.Valid() && dst.AgreeOutside(part)
    modifies dst`dirty, dst`dirtyRect, dst`queueLength, dst`realized, dst`remote, dst`images, dst.queue
    modifies src`dirty, src`dirtyRect, src`queueLength, src`realized, src`remote, src`images, src.queue
    ensures src.Valid() && src.Agree() && src.InSync()
    ensures dst.Valid() && dst.Flushed() && dst.InSyncOutside(part) && under == dst.remote
    ensures dst.Overlays(under, old(dst.remote), |old(dst.images)|)
    ensures old(dst.Flushed()) ==> dst.images == old(dst.images)
  {
    dst.FlushPending(part);
    under := dst.remote;
    src.FlushPending(NOWHERE);
  }

  /**
   The immediate copy between surfaces: both are flushed before the instruction is sent, and
   the client's picture is right exactly if every pixel is reproduced over what it shows then.
   */
  method PublishCopy(src: Surface, ox: int, oy: int, dst: Surface, part: Rect, ghost from: Image)
    returns (ghost under: Image)
    requires src != dst && Separate(src, dst) && Shows(src.buffer, from)
    requires src.Valid() && src.Agree() && dst.Valid() && dst.AgreeOutside(part)
    requires Fits(part, dst.buffer) && Fits(Displaced(part, ox, oy), src.buffer)
    requires forall i, j :: In(i, j, part) ==> dst.buffer[j, i] == from(i + ox, j + oy)
    modifies dst`dirty, dst`dirtyRect, dst`queueLength, dst`realized, dst`remote, dst`images, dst.queue
    modifies src`dirty, src`dirtyRect, src`queueLength, src`realized, src`remote, src`images, src.queue
    ensures src.Valid() && src.Agree() && dst.Valid()
    ensures dst.Agree() <==> Reproduces(dst.blend, Instruction(part, under, from), ox, oy)
    ensures dst.Overlays(under, old(dst.remote), |old(dst.images)|)
    ensures old(dst.Flushed()) ==> dst.images == old(dst.images)
  {
    under := FlushBoth(src, dst, part);
    SendCopy(src, ox, oy, dst, part, from);
    RightIfReproduced(dst, Instruction(part, under, from), ox, oy);
    AgreeIfFlushed(dst);
  }

  /** Inside the instruction the client showed the picture; pixels of `r` outside it are the source's own. */
  ghost predicate Covers(c: Instruction, ox: int, oy: int, r: Rect, shown: Image) {
    forall i, j {:trigger In(i, j, r)} :: In(i, j, r) ==>
      shown(i, j) == if In(i, j, c.r) then c.under(i, j) else c.from(i + ox, j + oy)
  }

  /**
   What a copy of `r` amounts to: the client and the buffer agree exactly if the instruction
   reproduces every pixel. Over a destination that was realized and flushed, the instruction
   is drawn over what its buffer showed, and pixels it leaves out were equal already.
   */
  ghost predicate Exact(dst: Surface, realized: bool, flushed: bool, ox: int, oy: int, r: Rect, sent: Instruction,
                        shown: Image)
    requires dst.Shaped()
    reads dst, dst.queue, dst.buffer
  {
    && (dst.Agree() <==> Reproduces(dst.blend, sent, ox, oy))
    && (Empty(sent.r) || Inside(sent.r, r))
    && (!realized ==> Empty(sent.r))
    && (realized && flushed ==> Covers(sent, ox, oy, r, shown))
  }

  /** What the instruction covers of the part that changed, it covers of the whole copy. */
  lemma CoversMore(c: Instruction, ox: int, oy: int, part: Rect, r: Rect, shown: Image)
    requires Inside(part, r) && (Empty(c.r) || Inside(c.r, part))
    requires forall i, j {:trigger In(i, j, r)} :: In(i, j, r) && !In(i, j, part) ==> shown(i, j) == c.from(i + ox, j + oy)
    ensures Covers(c, ox, oy, part, shown) ==> Covers(c, ox, oy, r, shown)
  {
    if Covers(c, ox, oy, part, shown) {
      forall i, j | In(i, j, r)
        ensures shown(i, j) == if In(i, j, c.r) then c.under(i, j) else c.from(i + ox, j + oy)
      {
        assert In(i, j, part) || !In(i, j, part);
      }
    }
  }

  /** The part of a copy between surfaces that follows the change of the buffer. */
  method CopyPart(src: Surface, ox: int, oy: int, dst: Surface, part: Rect, ghost from: Image, ghost shown: Image)
    returns (ghost sent: Instruction)
    requires src != dst && Separate(src, dst) && Shows(src.buffer, from)
    requires src.Valid() && src.Agree() && dst.Valid() && dst.AgreeOutside(part)
    requires Fits(part, dst.buffer) && Fits(Displaced(part, ox, oy), src.buffer)
    requires forall i, j :: In(i, j, part) ==> dst.buffer[j, i] == from(i + ox, j + oy)
    requires dst.Flushed() ==> forall i, j :: dst.InBounds(i, j) ==> dst.remote(i, j) == shown(i, j)
    modifies dst`dirty, dst`dirtyRect, dst`queueLength, dst`realized, dst`remote, dst`images, dst.queue
    modifies src`dirty, src`dirtyRect, src`queueLength, src`realized, src`remote, src`images, src.queue
    ensures src.Valid() && src.Agree() && dst.Valid()
    ensures sent.from == from && Exact(dst, old(dst.realized), old(dst.Flushed()), ox, oy, part, sent, shown)
  {
    if dst.ShouldCombine(part, true) {
      dst.MarkDirty(part);
      sent := Instruction(NOWHERE, shown, from);
    } else {
      ghost var under := PublishCopy(src, ox, oy, dst, part, from);
      sent := Instruction(part, under, from);
    }
  }

  /**
   A copy between surfaces: the buffer changes first and the rectangle shrinks to what
   changed; only then are both surfaces flushed and the instruction sent.
   */
  method CopyBlockAcross(src: Surface, ox: int, oy: int, dst: Surface, r: Rect, ghost from: Image, ghost shown: Image)
    returns (ghost sent: Instruction)
    requires src != dst && Separate(src, dst) && Shows(src.buffer, from) && Shows(dst.buffer, shown)
    requires src.Valid() && src.Agree() && dst.Valid() && dst.Agree()
    requires Fits(r, dst.buffer) && Fits(Displaced(r, ox, oy), src.buffer)
    modifies dst`dirty, dst`dirtyRect, dst`queueLength, dst`realized, dst`remote, dst`images, dst.queue, dst.buffer
    modifies src`dirty, src`dirtyRect, src`queueLength, src`realized, src`remote, src`images, src.queue
    ensures src.Valid() && src.Agree() && dst.Valid()
    ensures Pasted(dst.buffer, Instruction(r, shown, from), ox, oy)
    ensures sent.from == from && Exact(dst, old(dst.realized), old(dst.Flushed()), ox, oy, r, sent, shown)
  {
    var part := MoveBlock(src.buffer, ox, oy, dst.buffer, r, shown, from);
    sent := Instruction(NOWHERE, shown, from);
    if Empty(part) {
      return;
    }
    sent := CopyPart(src, ox, oy, dst, part, from, shown);
    CoversMore(sent, ox, oy, part, r, shown);
  }

  /** A copy of `r` from the block displaced by (ox, oy), in either setting. */
  method CopyBlock(src: Surface, ox: int, oy: int, dst: Surface, r: Rect, ghost from: Image, ghost shown: Image)
    returns (ghost sent: Instruction)
    requires Separate(src, dst) && src.Valid() && src.Agree() && dst.Valid() && dst.Agree()
    requires Shows(src.buffer, from) && Shows(dst.buffer, shown) && (src == dst ==> from == shown)
    requires Fits(r, dst.buffer) && Fits(Displaced(r, ox, oy), src.buffer)
    modifies dst`dirty, dst`dirtyRect, dst`queueLength, dst`realized, dst`remote, dst`images, dst.queue, dst.buffer
    modifies src`dirty, src`dirtyRect, src`queueLength, src`realized, src`remote, src`images, src.queue
    ensures src.Valid() && dst.Valid() && (src != dst ==> src.Agree())
    ensures Pasted(dst.buffer, Instruction(r, shown, from), ox, oy)
    ensures sent.from == from && Exact(dst, old(dst.realized), old(dst.Flushed()), ox, oy, r, sent, shown)
    ensures src == dst ==> sent.under == shown && (Empty(sent.r) || sent.r == r)
  {
    if src == dst {
      sent := CopyBlockWithin(dst, ox, oy, r, from);
    } else {
      sent := CopyBlockAcross(src, ox, oy, dst, r, from, shown);
    }
  }

  function Offset(source: int, target: int): int {
    source - target
  }

  /** The two clipping steps of a copy: where it writes. */
  function CopyTarget(src: Rect, sx: int, sy: int, w: int, h: int, clip: Rect, dx: int, dy: int): Rect {
    var block := InnerEdges(Rect(sx, sy, w, h), src);
    InnerEdges(Displaced(block, dx - sx, dy - sy), clip)
  }

  /** A pixel is written exactly when it and the pixel it is read from survive clipping. */
  lemma CopyTargetMeaning(src: Rect, sx: int, sy: int, w: int, h: int, clip: Rect, dx: int, dy: int, i: int, j: int)
    ensures In(i, j, CopyTarget(src, sx, sy, w, h, clip, dx, dy)) <==>
              && In(i + (sx - dx), j + (sy - dy), Rect(sx, sy, w, h))
              && In(i + (sx - dx), j + (sy - dy), src) && In(i, j, clip)
  {
    var block := Constrain(Rect(sx, sy, w, h), src);
    var moved := Displaced(block, dx - sx, dy - sy);
    assert In(i, j, moved) <==> In(i + (sx - dx), j + (sy - dy), block);
    assert In(i, j, Constrain(moved, clip)) <==> In(i, j, moved) && In(i, j, clip);
  }

  /** Nothing is written, or both ends of the copy lie where they may. */
  predicate Clipped(to: Rect, src: Rect, clip: Rect, ox: int, oy: int) {
    Empty(to) || (Inside(Displaced(to, ox, oy), src) && Inside(to, clip))
  }

  lemma CopyTargetIsClipped(src: Rect, sx: int, sy: int, w: int, h: int, clip: Rect, dx: int, dy: int)
    ensures Clipped(CopyTarget(src, sx, sy, w, h, clip, dx, dy), src, clip, Offset(sx, dx), Offset(sy, dy))
  {
  }

  /** The copy once its target is known. */
  method CopyTo(src: Surface, ox: int, oy: int, dst: Surface, to: Rect, ghost from: Image, ghost shown: Image)
    returns (ghost sent: Instruction)
    requires Separate(src, dst) && src.Valid() && src.Agree() && dst.Valid() && dst.Agree()
    requires Shows(src.buffer, from) && Shows(dst.buffer, shown) && (src == dst ==> from == shown)
    requires Clipped(to, src.Bounds(), dst.Clip(), ox, oy)
    modifies dst`dirty, dst`dirtyRect, dst`queueLength, dst`realized, dst`remote, dst`images, dst.queue, dst.buffer
    modifies src`dirty, src`dirtyRect, src`queueLength, src`realized, src`remote, src`images, src.queue
    ensures src.Valid() && dst.Valid() && (src != dst ==> src.Agree())
    ensures Pasted(dst.buffer, Instruction(to, shown, from), ox, oy)
    ensures sent.from == from && Exact(dst, old(dst.realized), old(dst.Flushed()), ox, oy, to, sent, shown)
    ensures src == dst ==> sent.under == shown && (Empty(sent.r) || sent.r == to)
  {
    if Empty(to) {
      sent := Instruction(NOWHERE, shown, from);
    } else {
      sent := CopyBlock(src, ox, oy, dst, to, from, shown);
    }
  }

  // What can be said of the pixels of a copy before it is made, read off the pictures.

  ghost predicate AllOpaque(from: Image, ox: int, oy: int, r: Rect) {
    forall i, j {:trigger In(i, j, r)} :: In(i, j, r) ==> Opaque(from(i + ox, j + oy))
  }

  ghost predicate AllPlain(from: Image, ox: int, oy: int, r: Rect) {
    forall i, j {:trigger In(i, j, r)} :: In(i, j, r) ==> Opaque(from(i + ox, j + oy)) || from(i + ox, j + oy).a == 0
  }

  ghost predicate AllHarmless(from: Image, ox: int, oy: int, r: Rect, shown: Image) {
    forall i, j {:trigger In(i, j, r)} :: In(i, j, r) ==>
      Opaque(from(i + ox, j + oy)) || from(i + ox, j + oy) == shown(i, j)
  }

  /** Each pixel read for `r` is opaque, or equals the pixel it would replace. */
  ghost predicate Harmless(src: Surface, ox: int, oy: int, dst: Surface, r: Rect)
    requires src.Shaped() && dst.Shaped()
    reads src, dst, src.buffer, dst.buffer
  {
    forall i, j {:trigger In(i, j, r)} :: In(i, j, r) && dst.InBounds(i, j) && src.InBounds(i + ox, j + oy) ==>
      Opaque(src.buffer[j + oy, i + ox]) || src.buffer[j + oy, i + ox] == dst.buffer[j, i]
  }

  /** Conditions on the buffers, as conditions on what they show. */
  lemma BlocksAsPictures(src: Surface, ox: int, oy: int, dst: Surface, r: Rect, from: Image, shown: Image)
    requires src.Shaped() && dst.Shaped() && Shows(src.buffer, from) && Shows(dst.buffer, shown)
    requires Empty(r) || (Inside(Displaced(r, ox, oy), src.Bounds()) && Inside(r, dst.Bounds()))
    ensures OpaqueBlock(src.buffer, Displaced(r, ox, oy)) <==> AllOpaque(from, ox, oy, r)
    ensures PlainBlock(src.buffer, Displaced(r, ox, oy)) <==> AllPlain(from, ox, oy, r)
    ensures Harmless(src, ox, oy, dst, r) <==> AllHarmless(from, ox, oy, r, shown)
  {
    forall i, j | In(i, j, r)
      ensures In(i + ox, j + oy, Displaced(r, ox, oy)) && src.InBounds(i + ox, j + oy) && dst.InBounds(i, j)
      ensures from(i + ox, j + oy) == src.buffer[j + oy, i + ox] && shown(i, j) == dst.buffer[j, i]
    {
    }
    forall i, j | In(i, j, Displaced(r, ox, oy)) ensures In(i - ox, j - oy, r) && from(i, j) == src.buffer[j, i] {
      assert In(i - ox, j - oy, r);
      assert (i - ox) + ox == i && (j - oy) + oy == j;
    }
  }

  lemma OpaqueCopies(blend: (Pixel, Pixel) -> Pixel, sent: Instruction, ox: int, oy: int, r: Rect)
    requires (Empty(sent.r) || Inside(sent.r, r)) && AllOpaque(sent.from, ox, oy, r)
    ensures Reproduces(blend, sent, ox, oy)
  {
    forall i, j | In(i, j, sent.r) ensures Opaque(sent.from(i + ox, j + oy)) {
      assert In(i, j, r);
    }
  }

  lemma PlainCopies(blend: (Pixel, Pixel) -> Pixel, sent: Instruction, ox: int, oy: int, r: Rect, shown: Image)
    requires (Empty(sent.r) || Inside(sent.r, r)) && AllPlain(sent.from, ox, oy, r) && Covers(sent, ox, oy, r, shown)
    ensures Reproduces(blend, sent, ox, oy) <==> AllHarmless(sent.from, ox, oy, r, shown)
  {
    forall i, j | In(i, j, r)
      ensures In(i, j, sent.r) ==>
                (Over(blend, sent.under(i, j), sent.from(i + ox, j + oy)) == sent.from(i + ox, j + oy) <==>
                 Opaque(sent.from(i + ox, j + oy)) || sent.from(i + ox, j + oy) == shown(i, j))
    {
      PlainOver(blend, sent.under(i, j), sent.from(i + ox, j + oy));
    }
    forall i, j | In(i, j, sent.r) ensures In(i, j, r) {
    }
  }

  /** What the pictures tell about agreement, for a copy as it was made. */
  lemma Judge(agree: bool, realized: bool, flushed: bool, blend: (Pixel, Pixel) -> Pixel, sent: Instruction,
              ox: int, oy: int, r: Rect, shown: Image)
    requires agree <==> Reproduces(blend, sent, ox, oy)
    requires Empty(sent.r) || Inside(sent.r, r)
    requires !realized ==> Empty(sent.r)
    requires realized && flushed ==> Covers(sent, ox, oy, r, shown)
    ensures AllOpaque(sent.from, ox, oy, r) || !realized ==> agree
    ensures AllPlain(sent.from, ox, oy, r) && realized && flushed ==>
              (agree <==> AllHarmless(sent.from, ox, oy, r, shown))
  {
    if AllOpaque(sent.from, ox, oy, r) {
      OpaqueCopies(blend, sent, ox, oy, r);
    }
    if AllPlain(sent.from, ox, oy, r) && realized && flushed {
      PlainCopies(blend, sent, ox, oy, r, shown);
    }
  }

  /** The copy, judged by the pictures before it. */
  method CopyJudged(src: Surface, ox: int, oy: int, dst: Surface, to: Rect, ghost from: Image, ghost shown: Image)
    returns (ghost sent: Instruction)
    requires Separate(src, dst) && src.Valid() && src.Agree() && dst.Valid() && dst.Agree()
    requires Shows(src.buffer, from) && Shows(dst.buffer, shown) && (src == dst ==> from == shown)
    requires Clipped(to, src.Bounds(), dst.Clip(), ox, oy)
    modifies dst`dirty, dst`dirtyRect, dst`queueLength, dst`realized, dst`remote, dst`images, dst.queue, dst.buffer
    modifies src`dirty, src`dirtyRect, src`queueLength, src`realized, src`remote, src`images, src.queue
    ensures src.Valid() && dst.Valid() && (src != dst ==> src.Agree())
    ensures Pasted(dst.buffer, Instruction(to, shown, from), ox, oy)
    ensures sent.from == from && Exact(dst, old(dst.realized), old(dst.Flushed()), ox, oy, to, sent, shown)
    ensures src == dst ==> sent.under == shown && (Empty(sent.r) || sent.r == to)
    ensures AllOpaque(from, ox, oy, to) || !old(dst.realized) ==> dst.Agree()
    ensures AllPlain(from, ox, oy, to) && old(dst.realized && dst.Flushed()) ==>
              (dst.Agree() <==> AllHarmless(from, ox, oy, to, shown))
  {
    sent := CopyTo(src, ox, oy, dst, to, from, shown);
    Judge(dst.Agree(), old(dst.realized), old(dst.Flushed()), dst.blend, sent, ox, oy, to, shown);
  }

  /** The pictures in both buffers, and what the buffers tell in terms of them. */
  lemma Pictures(src: Surface, ox: int, oy: int, dst: Surface, r: Rect) returns (from: Image, shown: Image)
    requires src.Shaped() && dst.Shaped()
    requires Empty(r) || (Inside(Displaced(r, ox, oy), src.Bounds()) && Inside(r, dst.Bounds()))
    ensures Shows(src.buffer, from) && Shows(dst.buffer, shown) && (src == dst ==> from == shown)
    ensures OpaqueBlock(src.buffer, Displaced(r, ox, oy)) <==> AllOpaque(from, ox, oy, r)
    ensures PlainBlock(src.buffer, Displaced(r, ox, oy)) <==> AllPlain(from, ox, oy, r)
    ensures Harmless(src, ox, oy, dst, r) <==> AllHarmless(from, ox, oy, r, shown)
  {
    from := Picture(src);
    shown := from;
    if src != dst {
      shown := Picture(dst);
    }
    BlocksAsPictures(src, ox, oy, dst, r, from, shown);
  }

  /** The copy of a clipped rectangle, judged by what the buffers hold before it. */
  method CopyClipped(src: Surface, ox: int, oy: int, dst: Surface, to: Rect)
    returns (ghost sent: Instruction, ghost shown: Image)
    requires Separate(src, dst) && src.Valid() && src.Agree() && dst.Valid() && dst.Agree()
    requires Clipped(to, src.Bounds(), dst.Clip(), ox, oy)
    modifies dst`dirty, dst`dirtyRect, dst`queueLength, dst`realized, dst`remote, dst`images, dst.queue, dst.buffer
    modifies src`dirty, src`dirtyRect, src`queueLength, src`realized, src`remote, src`images, src.queue
    ensures src.Valid() && dst.Valid() && (src != dst ==> src.Agree())
    ensures old(Shows(src.buffer, sent.from)) && old(Shows(dst.buffer, shown))
    ensures Pasted(dst.buffer, Instruction(to, shown, sent.from), ox, oy)
    ensures Exact(dst, old(dst.realized), old(dst.Flushed()), ox, oy, to, sent, shown)
    ensures src == dst ==> sent.under == shown && (Empty(sent.r) || sent.r == to)
    ensures old(OpaqueBlock(src.buffer, Displaced(to, ox, oy))) || !old(dst.realized) ==> dst.Agree()
    ensures old(dst.realized && dst.Flushed() && PlainBlock(src.buffer, Displaced(to, ox, oy))) ==>
              (dst.Agree() <==> old(Harmless(src, ox, oy, dst, to)))
  {
    ghost var from;
    from, shown := Pictures(src, ox, oy, dst, to);
    sent := CopyJudged(src, ox, oy, dst, to, from, shown);
  }

  /**
   `guac_common_surface_copy`, within one surface or between two: pixels are assigned
   simultaneously. The client agrees afterwards exactly if the instruction that was sent, if
   any, reproduces every pixel: always when the pixels read are opaque or the destination is
   still a server-side scratch area. Where pixels are opaque or fully transparent and the
   destination has been flushed, the caller can tell beforehand: exactly if each pixel read is
   opaque or equals the one it replaces.
   */
  method Copy(src: Surface, sx: int, sy: int, w: int, h: int, dst: Surface, dx: int, dy: int)
    returns (to: Rect, ghost sent: Instruction, ghost shown: Image)
    requires Separate(src, dst) && src.Valid() && src.Agree() && dst.Valid() && dst.Agree()
    modifies dst`dirty, dst`dirtyRect, dst`queueLength, dst`realized, dst`remote, dst`images, dst.queue, dst.buffer
    modifies src`dirty, src`dirtyRect, src`queueLength, src`realized, src`remote, src`images, src.queue
    ensures src.Valid() && dst.Valid() && (src != dst ==> src.Agree())
    ensures to == CopyTarget(src.Bounds(), sx, sy, w, h, old(dst.Clip()), dx, dy)
    ensures old(Shows(src.buffer, sent.from)) && old(Shows(dst.buffer, shown))
    ensures Pasted(dst.buffer, Instruction(to, shown, sent.from), Offset(sx, dx), Offset(sy, dy))
    ensures Exact(dst, old(dst.realized), old(dst.Flushed()), Offset(sx, dx), Offset(sy, dy), to, sent, shown)
    ensures src == dst ==> sent.under == shown && (Empty(sent.r) || sent.r == to)
    ensures old(OpaqueBlock(src.buffer, Displaced(to, Offset(sx, dx), Offset(sy, dy)))) || !old(dst.realized) ==> dst.Agree()
    ensures old(dst.realized && dst.Flushed() && PlainBlock(src.buffer, Displaced(to, Offset(sx, dx), Offset(sy, dy)))) ==>
              (dst.Agree() <==> old(Harmless(src, Offset(sx, dx), Offset(sy, dy), dst, to)))
  {
    to := CopyTarget(src.Bounds(), sx, sy, w, h, dst.Clip(), dx, dy);
    CopyTargetIsClipped(src.Bounds(), sx, sy, w, h, dst.Clip(), dx, dy);
    sent, shown := CopyClipped(src, Offset(sx, dx), Offset(sy, dy), dst, to);
  }

  /** `__guac_common_surface_is_opaque` */
  method IsOpaque(buffer: array2<Pixel>, r: Rect) returns (opaque_: bool)
    requires 0 <= r.x && 0 <= r.y && r.x + r.width <= buffer.Length1 && r.y + r.height <= buffer.Length0
    ensures opaque_ <==> OpaqueBlock(buffer, r)
  {
    var y := 0;
    while y < r.height
      invariant 0 <= y && (y <= r.height || y == 0)
      invariant OpaqueBlock(buffer, Rect(r.x, r.y, r.width, y))
    {
      var x := 0;
      while x < r.width
        invariant 0 <= x && (x <= r.width || x == 0)
        invariant OpaqueBlock(buffer, Rect(r.x, r.y + y, x, 1))
      {
        if !Opaque(buffer[r.y + y, r.x + x]) {
          assert In(r.x + x, r.y + y, r);
          return false;
        }
        x := x + 1;
      }
      y := y + 1;
    }
    return true;
  }

  // ----- Whole runs -----

  /** A drawing command on one of two surfaces; `onB` selects the second. */
  datatype Command =
    | DrawCommand(onB: bool, x: int, y: int, image: array2<Pixel>, opaqueFormat: bool)
    | PaintCommand(onB: bool, x: int, y: int, image: array2<Pixel>, color: Pixel)
    | SetCommand(onB: bool, x: int, y: int, w: int, h: int, color: Pixel)
    | ClipCommand(onB: bool, x: int, y: int, w: int, h: int)
    | ResetClipCommand(onB: bool)
    | CopyCommand(fromB: bool, sx: int, sy: int, w: int, h: int, onB: bool, dx: int, dy: int)
    | FlushCommand(onB: bool)

  /** Images drawn from are not the backing buffers themselves. */
  predicate External(c: Command, a: Surface, b: Surface) {
    c.DrawCommand? || c.PaintCommand? ==> c.image != a.buffer && c.image != b.buffer
  }

  ghost predicate Good(a: Surface, b: Surface)
    reads a, b, a.queue, b.queue, a.buffer, b.buffer
  {
    Separate(a, b) && a.Valid() && a.Agree() && b.Valid() && b.Agree()
  }

  /** Performs a command that concerns one surface only. */
  method PerformOn(s: Surface, c: Command)
    requires s.Valid() && s.Agree() && !c.CopyCommand?
    requires c.DrawCommand? || c.PaintCommand? ==> c.image != s.buffer
    modifies s, s.queue, s.buffer
    ensures s.Valid() && s.Agree()
    ensures c.FlushCommand? ==> s.InSync()
  {
    match c {
      case DrawCommand(_, x, y, image, opaqueFormat) => s.Draw(x, y, image, opaqueFormat);
      case PaintCommand(_, x, y, image, color) => s.Paint(x, y, image, color);
      case SetCommand(_, x, y, w, h, color) => s.Set(x, y, w, h, color);
      case ClipCommand(_, x, y, w, h) => s.AddClip(x, y, w, h);
      case ResetClipCommand(_) => s.ResetClip();
      case FlushCommand(_) => s.Flush();
    }
  }

  /** The block of the source that a copy command reads, after clipping at both ends. */
  function ReadBlock(src: Surface, dst: Surface, c: Command): Rect
    requires c.CopyCommand?
    reads dst
  {
    Displaced(CopyTarget(src.Bounds(), c.sx, c.sy, c.w, c.h, dst.Clip(), c.dx, c.dy), Offset(c.sx, c.dx), Offset(c.sy, c.dy))
  }

  /** Nothing but opaque pixels is read, or the client does not see the destination yet. */
  ghost predicate Safe(a: Surface, b: Surface, c: Command)
    reads a, b, a.buffer, b.buffer
  {
    c.CopyCommand? ==>
      var src, dst := if c.fromB then b else a, if c.onB then b else a;
      !dst.realized || OpaqueBlock(src.buffer, ReadBlock(src, dst, c))
  }

  /** Performs a copy, unless it would read a pixel that is not opaque into a layer that the client sees. */
  method PerformCopy(src: Surface, dst: Surface, c: Command) returns (performed: bool)
    requires Good(src, dst) && c.CopyCommand?
    modifies src, dst, src.queue, dst.queue, dst.buffer
    ensures Good(src, dst)
    ensures performed <==> old(!dst.realized || OpaqueBlock(src.buffer, ReadBlock(src, dst, c)))
    ensures !performed ==> unchanged(src, dst, src.buffer, dst.buffer)
  {
    var block := ReadBlock(src, dst, c);
    CopyTargetIsClipped(src.Bounds(), c.sx, c.sy, c.w, c.h, dst.Clip(), c.dx, c.dy);
    performed := !dst.realized || Empty(block);
    if !performed {
      performed := IsOpaque(src.buffer, block);
    }
    if performed {
      var _, _, _ := Copy(src, c.sx, c.sy, c.w, c.h, dst, c.dx, c.dy);
    }
  }

  /** Performs one command; only a copy can be refused. */
  method Perform(a: Surface, b: Surface, c: Command) returns (performed: bool)
    requires a != b && Good(a, b) && External(c, a, b)
    modifies a, b, a.queue, b.queue, a.buffer, b.buffer
    ensures Good(a, b)
    ensures performed <==> old(Safe(a, b, c))
    ensures !performed ==> unchanged(a, b, a.buffer, b.buffer)
  {
    if c.CopyCommand? {
      performed := PerformCopy(if c.fromB then b else a, if c.onB then b else a, c);
    } else {
      PerformOn(if c.onB then b else a, c);
      performed := true;
    }
  }

  /**
   Every run of drawing commands keeps both clients in agreement with their buffers, and
   after a final flush the clients show exactly what the buffers hold. A run stops early only
   at a copy that reads a pixel that is not opaque into a layer that the client sees.
   */
  method Run(a: Surface, b: Surface, commands: seq<Command>) returns (completed: nat)
    requires a != b && Good(a, b) && forall c :: c in commands ==> External(c, a, b)
    modifies a, b, a.queue, b.queue, a.buffer, b.buffer
    ensures Good(a, b) && a.InSync() && b.InSync()
    ensures completed <= |commands|
    ensures completed < |commands| ==> !Safe(a, b, commands[completed])
  {
    completed := 0;
    var performed := true;
    while performed && completed < |commands|
      invariant completed <= |commands| && Good(a, b)
      invariant !performed ==> completed < |commands| && !Safe(a, b, commands[completed])
      decreases |commands| - completed, performed
    {
      performed := Perform(a, b, commands[completed]);
      if performed {
        completed := completed + 1;
      }
    }
    ghost var refused := if performed then [] else [commands[completed]];
    Finish(a, b, refused);
    assert !performed ==> refused[0] == commands[completed];
  }

  /** The final flushes; a command that was not safe before them is not safe afterwards. */
  method Finish(a: Surface, b: Surface, ghost refused: seq<Command>)
    requires a != b && Good(a, b) && forall k :: 0 <= k < |refused| ==> !Safe(a, b, refused[k])
    modifies a, b, a.queue, b.queue
    ensures Good(a, b) && a.InSync() && b.InSync()
    ensures forall k :: 0 <= k < |refused| ==> !Safe(a, b, refused[k])
  {
    a.Flush();
    b.Flush();
  }

  /** A surface that the client sees, with one opaque pixel and the rest still transparent. */
  method OneOpaquePixel(width: nat, height: nat, x: int, y: int, color: Pixel, encoding: Rect -> Encoding,
                        ghost blend: (Pixel, Pixel) -> Pixel)
    returns (s: Surface)
    requires 0 <= x < width && 0 <= y < height
    ensures fresh(s) && fresh(s.buffer) && fresh(s.queue) && s.Valid() && s.Agree()
    ensures s.width == width && s.height == height && s.realized && s.Flushed() && s.Clip() == s.Bounds()
    ensures forall i, j :: s.InBounds(i, j) ==> s.buffer[j, i] == if i == x && j == y then color else TRANSPARENT
  {
    s := new Surface(width, height, 2, true, encoding, blend);
    s.Set(x, y, 1, 1, color);
    s.Flush();
  }

  /** A copy of one clear pixel over an opaque one, anywhere on a flushed surface. */
  lemma ClearOverOpaque(s: Surface, sx: int, sy: int, dx: int, dy: int)
    requires s.Shaped() && s.InBounds(sx, sy) && s.InBounds(dx, dy) && s.Clip() == s.Bounds()
    requires Opaque(s.buffer[dy, dx]) && s.buffer[sy, sx].a == 0
    ensures
      var to := CopyTarget(s.Bounds(), sx, sy, 1, 1, s.Clip(), dx, dy);
      && PlainBlock(s.buffer, Displaced(to, Offset(sx, dx), Offset(sy, dy)))
      && !Harmless(s, Offset(sx, dx), Offset(sy, dy), s, to)
  {
    var to := CopyTarget(s.Bounds(), sx, sy, 1, 1, s.Clip(), dx, dy);
    assert to.x == dx && to.y == dy && to.width == 1 && to.height == 1;
    assert In(dx, dy, to) && dx + Offset(sx, dx) == sx && dy + Offset(sy, dy) == sy;
  }

  /**
   Opacity is needed: copying any transparent pixel over any opaque one leaves the client with
   the opaque one, with nothing waiting to put that right.
   */
  method TransparentCopyDiverges(width: nat, height: nat, sx: int, sy: int, dx: int, dy: int, color: Pixel,
                                 encoding: Rect -> Encoding, ghost blend: (Pixel, Pixel) -> Pixel)
    returns (s: Surface)
    requires 0 <= sx < width && 0 <= sy < height && 0 <= dx < width && 0 <= dy < height && (sx, sy) != (dx, dy)
    requires Opaque(color)
    ensures fresh(s) && s.Valid() && !s.Agree()
  {
    s := OneOpaquePixel(width, height, dx, dy, color, encoding, blend);
    ClearOverOpaque(s, sx, sy, dx, dy);
    var _, _, _ := Copy(s, sx, sy, 1, 1, s, dx, dy);
  }
}
