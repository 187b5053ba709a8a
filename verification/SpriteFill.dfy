/** Background removal of a sprite: a breadth-first fill from the border over near-white pixels.

The meaning of the fill is graph reachability: a pixel is background when a 4-connected path of
near-white pixels joins it to the border.  `ClearBackground` is the loop of the server; it is proved
to clear the alpha of exactly the background pixels and to change nothing else. */
module SpriteFill {
  import opened MachineInts
  import opened Wrappers

  datatype Pixel = Pixel(r: Byte, g: Byte, b: Byte, a: Byte)

  datatype Pos = Pos(x: int, y: int)

  /** A decoded sprite: `width * height` pixels, row by row. */
  datatype Image = Image(width: nat, height: nat, pixels: seq<Pixel>) {
    ghost predicate Valid() {
      |pixels| == width * height
    }

    predicate Contains(p: Pos) {
      Inside(width, height, p)
    }

    function At(p: Pos): Pixel
      requires Valid() && Contains(p)
    {
      IndexInBounds(width, height, p);
      pixels[Index(width, p)]
    }
  }

  predicate Inside(width: nat, height: nat, p: Pos) {
    0 <= p.x < width && 0 <= p.y < height
  }

  function Index(width: nat, p: Pos): int {
    p.y * width + p.x
  }

  predicate IsNearWhite(pixel: Pixel) {
    pixel.r > 220 && pixel.g > 220 && pixel.b > 220
  }

  function Transparent(pixel: Pixel): Pixel {
    pixel.(a := 0)
  }

  // ---- The row-major index ----

  lemma IndexInBounds(width: nat, height: nat, p: Pos)
    requires 0 <= p.x < width && 0 <= p.y < height
    ensures 0 <= Index(width, p) < width * height
  {
    assert p.y * width <= (height - 1) * width;
    assert (height - 1) * width == height * width - width;
  }

  lemma IndexRowsAscend(width: nat, p: Pos, q: Pos)
    requires 0 <= p.x < width && 0 <= q.x < width && p.y < q.y
    ensures Index(width, p) < Index(width, q)
  {
    assert (p.y + 1) * width <= q.y * width;
  }

  lemma IndexInjective(width: nat, p: Pos, q: Pos)
    requires 0 <= p.x < width && 0 <= q.x < width && Index(width, p) == Index(width, q)
    ensures p == q
  {
    if p.y < q.y {
      IndexRowsAscend(width, p, q);
    } else if q.y < p.y {
      IndexRowsAscend(width, q, p);
    }
  }

  lemma RowAndColumn(width: nat, i: nat)
    requires width > 0
    ensures 0 <= i % width < width && 0 <= i / width && i == i / width * width + i % width
  {
  }

  lemma RowsAreLong(width: nat, fewer: nat, more: nat)
    requires fewer <= more
    ensures width * fewer <= more * width
  {
    assert width * (more - fewer) >= 0;
  }

  lemma IndexSurjective(width: nat, height: nat, i: nat) returns (p: Pos)
    requires i < width * height
    ensures 0 <= p.x < width && 0 <= p.y < height && Index(width, p) == i
  {
    assert width != 0;
    RowAndColumn(width, i);
    p := Pos(i % width, i / width);
    if p.y >= height {
      RowsAreLong(width, height, p.y);
    }
  }

  // ---- What background means ----

  predicate OnBorder(img: Image, p: Pos) {
    img.Contains(p) && (p.x == 0 || p.y == 0 || p.x == img.width - 1 || p.y == img.height - 1)
  }

  predicate Adjacent(p: Pos, q: Pos) {
    (p.x == q.x && (p.y == q.y + 1 || q.y == p.y + 1)) ||
    (p.y == q.y && (p.x == q.x + 1 || q.x == p.x + 1))
  }

  ghost predicate NearWhiteAt(img: Image, p: Pos)
    requires img.Valid()
  {
    img.Contains(p) && IsNearWhite(img.At(p))
  }

  /** A 4-connected path of near-white pixels that starts on the border. */
  ghost predicate IsBorderPath(img: Image, path: seq<Pos>)
    requires img.Valid()
  {
    && |path| > 0
    && OnBorder(img, path[0])
    && (forall i :: 0 <= i < |path| ==> NearWhiteAt(img, path[i]))
    && (forall i :: 0 < i < |path| ==> Adjacent(path[i-1], path[i]))
  }

  ghost predicate IsBackground(img: Image, p: Pos)
    requires img.Valid()
  {
    exists path :: IsBorderPath(img, path) && path[|path|-1] == p
  }

  lemma BorderIsBackground(img: Image, p: Pos)
    requires img.Valid() && OnBorder(img, p) && NearWhiteAt(img, p)
    ensures IsBackground(img, p)
  {
    assert IsBorderPath(img, [p]);
  }

  lemma NeighbourIsBackground(img: Image, p: Pos, q: Pos)
    requires img.Valid() && IsBackground(img, p) && Adjacent(p, q) && NearWhiteAt(img, q)
    ensures IsBackground(img, q)
  {
    var path :| IsBorderPath(img, path) && path[|path|-1] == p;
    var longer := path + [q];
    assert IsBorderPath(img, longer) && longer[|longer|-1] == q;
  }

  /** A set that holds the near-white border and is closed under near-white neighbours. */
  ghost predicate ClosedUnderFill(img: Image, s: set<Pos>)
    requires img.Valid()
  {
    && (forall p :: OnBorder(img, p) && NearWhiteAt(img, p) ==> p in s)
    && (forall p, q :: p in s && Adjacent(p, q) && NearWhiteAt(img, q) ==> q in s)
  }

  lemma {:induction false} ClosedSetHoldsPath(img: Image, s: set<Pos>, path: seq<Pos>)
    requires img.Valid() && ClosedUnderFill(img, s) && IsBorderPath(img, path)
    ensures path[|path|-1] in s
  {
    if |path| > 1 {
      var shorter := path[..|path|-1];
      assert IsBorderPath(img, shorter);
      ClosedSetHoldsPath(img, s, shorter);
      assert Adjacent(path[|path|-2], path[|path|-1]);
    }
  }

  /** The background is the least set closed under the fill: soundness and completeness in one. */
  lemma FilledSetIsBackground(img: Image, s: set<Pos>, p: Pos)
    requires img.Valid() && ClosedUnderFill(img, s)
    requires forall q :: q in s ==> IsBackground(img, q)
    ensures p in s <==> IsBackground(img, p)
  {
    if IsBackground(img, p) {
      var path :| IsBorderPath(img, path) && path[|path|-1] == p;
      ClosedSetHoldsPath(img, s, path);
    }
  }

  // ---- What normalising means ----

  /** `after` is `before` with the alpha cleared on exactly the positions of `done`. */
  ghost predicate ClearedOn(before: Image, after: Image, done: set<Pos>)
    requires before.Valid()
  {
    && after.Valid() && after.width == before.width && after.height == before.height
    && forall p :: before.Contains(p) ==>
         after.At(p) == if p in done then Transparent(before.At(p)) else before.At(p)
  }

  /** `after` is `before` with the alpha cleared on exactly the background. */
  ghost predicate IsNormalized(before: Image, after: Image)
    requires before.Valid()
  {
    && after.Valid() && after.width == before.width && after.height == before.height
    && forall p :: before.Contains(p) ==>
         after.At(p) == if IsBackground(before, p) then Transparent(before.At(p)) else before.At(p)
  }

  // ---- The fill itself ----

  predicate IsMarked(width: nat, height: nat, visited: seq<bool>, p: Pos)
    requires |visited| == width * height && Inside(width, height, p)
  {
    IndexInBounds(width, height, p);
    visited[Index(width, p)]
  }

  /** The visited table holds the set `seen`. */
  ghost predicate Marks(width: nat, height: nat, visited: seq<bool>, seen: set<Pos>) {
    && |visited| == width * height
    && (forall p :: p in seen ==> Inside(width, height, p))
    && (forall p :: Inside(width, height, p) ==> (IsMarked(width, height, visited, p) <==> p in seen))
  }

  lemma MarkOne(width: nat, height: nat, visited: seq<bool>, seen: set<Pos>, p: Pos)
    requires Marks(width, height, visited, seen) && Inside(width, height, p)
    ensures 0 <= Index(width, p) < |visited|
    ensures Marks(width, height, visited[Index(width, p) := true], seen + {p})
  {
    IndexInBounds(width, height, p);
    var next := visited[Index(width, p) := true];
    forall q | Inside(width, height, q)
      ensures IsMarked(width, height, next, q) <==> q in seen + {p}
    {
      assert IsMarked(width, height, visited, q) <==> q in seen;
      IndexInBounds(width, height, q);
      if Index(width, q) == Index(width, p) {
        IndexInjective(width, p, q);
      }
    }
  }

  lemma ClearOne(before: Image, now: Image, done: set<Pos>, p: Pos)
    requires before.Valid() && before.Contains(p) && ClearedOn(before, now, done)
    ensures 0 <= Index(before.width, p) < |now.pixels|
    ensures ClearedOn(before, now.(pixels := now.pixels[Index(before.width, p) := Transparent(now.At(p))]), done + {p})
  {
    IndexInBounds(before.width, before.height, p);
    var next := now.(pixels := now.pixels[Index(before.width, p) := Transparent(now.At(p))]);
    forall q | before.Contains(q)
      ensures next.At(q) == if q in done + {p} then Transparent(before.At(q)) else before.At(q)
    {
      IndexInBounds(before.width, before.height, q);
      if Index(before.width, q) == Index(before.width, p) {
        IndexInjective(before.width, p, q);
      }
      assert now.At(q) == if q in done then Transparent(before.At(q)) else before.At(q);
    }
  }

  function AllPositions(width: nat, height: nat): set<Pos> {
    set x, y | 0 <= x < width && 0 <= y < height :: Pos(x, y)
  }

  /** What the fill keeps while it runs: the pixels, the visited table and the queue.  The ghost fields
  are the sprite on entry, the visited positions and the positions already taken off the queue. */
  class BorderFill {
    const width: nat
    const height: nat
    const pixels: array<Pixel>
    const visited: array<bool>
    var queue: seq<Pos>
    ghost const before: Image
    ghost var seen: set<Pos>
    ghost var done: set<Pos>

    ghost function Now(): Image
      reads pixels
    {
      Image(width, height, pixels[..])
    }

    ghost predicate Valid()
      reads this, pixels, visited
    {
      && before.Valid() && before.width == width && before.height == height
      && Marks(width, height, visited[..], seen)
      && ClearedOn(before, Now(), done)
      && (forall p :: p in seen <==> p in done || p in queue)
      && (forall p :: p in seen ==> IsBackground(before, p))
    }

    /** Every near-white neighbour of `p` is visited. */
    ghost predicate ExpandedAt(p: Pos)
      reads this
      requires before.Valid()
    {
      forall q :: Adjacent(p, q) && NearWhiteAt(before, q) ==> q in seen
    }

    ghost predicate Expanded(s: set<Pos>)
      reads this
      requires before.Valid()
    {
      forall p :: p in s ==> ExpandedAt(p)
    }

    /** Twice the unvisited positions plus the queue: pushing costs two units and returns one. */
    ghost function Budget(): nat
      reads this
    {
      2 * |AllPositions(width, height) - seen| + |queue|
    }

    constructor (pixels: array<Pixel>, width: nat, height: nat)
      requires pixels.Length == width * height
      ensures this.width == width && this.height == height && this.pixels == pixels
      ensures fresh(visited) && before == Image(width, height, pixels[..])
      ensures Valid() && seen == {} && done == {} && queue == []
    {
      this.width, this.height, this.pixels := width, height, pixels;
      this.visited := new bool[width * height](_ => false);
      this.queue := [];
      this.before := Image(width, height, pixels[..]);
      this.seen, this.done := {}, {};
      new;
      forall p | Inside(width, height, p)
        ensures !IsMarked(width, height, visited[..], p)
      {
        IndexInBounds(width, height, p);
      }
    }

    method Enqueue(x: int, y: int)
      requires Valid() && before.Contains(Pos(x, y))
      requires NearWhiteAt(before, Pos(x, y)) ==> IsBackground(before, Pos(x, y))
      modifies this, visited
      ensures Valid() && done == old(done) && old(seen) <= seen
      ensures NearWhiteAt(before, Pos(x, y)) ==> Pos(x, y) in seen
      ensures Budget() <= old(Budget())
    {
      var p := Pos(x, y);
      IndexInBounds(width, height, p);
      assert Now().At(p) == if p in done then Transparent(before.At(p)) else before.At(p);
      assert IsMarked(width, height, visited[..], p) <==> p in seen;
      if !visited[Index(width, p)] && IsNearWhite(pixels[Index(width, p)]) {
        MarkOne(width, height, visited[..], seen, p);
        visited[Index(width, p)] := true;
        queue := queue + [p];
        assert AllPositions(width, height) - seen == (AllPositions(width, height) - (seen + {p})) + {p};
        seen := seen + {p};
      }
    }

    /** The near-white positions of row `y` left of `end` are visited. */
    ghost predicate RowSeen(y: int, end: int)
      reads this
      requires before.Valid()
    {
      forall x {:trigger Pos(x, y)} :: 0 <= x < end && NearWhiteAt(before, Pos(x, y)) ==> Pos(x, y) in seen
    }

    /** The near-white positions of column `x` above `end` are visited. */
    ghost predicate ColumnSeen(x: int, end: int)
      reads this
      requires before.Valid()
    {
      forall y {:trigger Pos(x, y)} :: 0 <= y < end && NearWhiteAt(before, Pos(x, y)) ==> Pos(x, y) in seen
    }

    /** Offers both ends of one line: the first and last row, or the first and last column. */
    method SeedPair(p: Pos, q: Pos)
      requires Valid() && done == {} && OnBorder(before, p) && OnBorder(before, q)
      modifies this, visited
      ensures Valid() && done == {} && old(seen) <= seen
      ensures NearWhiteAt(before, p) ==> p in seen
      ensures NearWhiteAt(before, q) ==> q in seen
    {
      if NearWhiteAt(before, p) {
        BorderIsBackground(before, p);
      }
      if NearWhiteAt(before, q) {
        BorderIsBackground(before, q);
      }
      Enqueue(p.x, p.y);
      Enqueue(q.x, q.y);
    }

    method SeedRows()
      requires Valid() && done == {} && width > 0 && height > 0
      modifies this, visited
      ensures Valid() && done == {} && RowSeen(0, width) && RowSeen(height - 1, width)
    {
      for x := 0 to width
        invariant Valid() && done == {}
        invariant RowSeen(0, x) && RowSeen(height - 1, x)
      {
        SeedPair(Pos(x, 0), Pos(x, height - 1));
      }
    }

    method SeedColumns()
      requires Valid() && done == {} && width > 0 && height > 0
      modifies this, visited
      ensures Valid() && done == {} && old(seen) <= seen
      ensures ColumnSeen(0, height) && ColumnSeen(width - 1, height)
    {
      for y := 0 to height
        invariant Valid() && done == {} && old(seen) <= seen
        invariant ColumnSeen(0, y) && ColumnSeen(width - 1, y)
      {
        SeedPair(Pos(0, y), Pos(width - 1, y));
      }
    }

    /** Takes the oldest position off the queue and clears its pixel. */
    method TakeOff() returns (p: Pos)
      requires Valid() && queue != []
      modifies this, pixels
      ensures Valid() && seen == old(seen) && done == old(done) + {p} && IsBackground(before, p)
      ensures |queue| == |old(queue)| - 1
    {
      p := queue[0];
      assert p in queue && p in seen;
      ClearOne(before, Now(), done, p);
      ghost var cleared := Now().(pixels := pixels[..][Index(width, p) := Transparent(Now().At(p))]);
      pixels[Index(width, p)] := Transparent(pixels[Index(width, p)]);
      assert Now() == cleared;
      assert queue == [p] + queue[1..];
      queue := queue[1..];
      done := done + {p};
    }

    method OfferNeighbour(p: Pos, q: Pos)
      requires Valid() && IsBackground(before, p) && Adjacent(p, q) && before.Contains(q)
      modifies this, visited
      ensures Valid() && done == old(done) && old(seen) <= seen
      ensures NearWhiteAt(before, q) ==> q in seen
      ensures Budget() <= old(Budget())
    {
      if NearWhiteAt(before, q) {
        NeighbourIsBackground(before, p, q);
      }
      Enqueue(q.x, q.y);
    }

    method SpreadSideways(p: Pos)
      requires Valid() && IsBackground(before, p)
      modifies this, visited
      ensures Valid() && done == old(done) && old(seen) <= seen
      ensures NearWhiteAt(before, Pos(p.x - 1, p.y)) ==> Pos(p.x - 1, p.y) in seen
      ensures NearWhiteAt(before, Pos(p.x + 1, p.y)) ==> Pos(p.x + 1, p.y) in seen
      ensures Budget() <= old(Budget())
    {
      if p.x > 0 {
        OfferNeighbour(p, Pos(p.x - 1, p.y));
      }
      if p.x + 1 < width {
        OfferNeighbour(p, Pos(p.x + 1, p.y));
      }
    }

    method SpreadUpDown(p: Pos)
      requires Valid() && IsBackground(before, p)
      modifies this, visited
      ensures Valid() && done == old(done) && old(seen) <= seen
      ensures NearWhiteAt(before, Pos(p.x, p.y - 1)) ==> Pos(p.x, p.y - 1) in seen
      ensures NearWhiteAt(before, Pos(p.x, p.y + 1)) ==> Pos(p.x, p.y + 1) in seen
      ensures Budget() <= old(Budget())
    {
      if p.y > 0 {
        OfferNeighbour(p, Pos(p.x, p.y - 1));
      }
      if p.y + 1 < height {
        OfferNeighbour(p, Pos(p.x, p.y + 1));
      }
    }

    lemma FourOffersExpand(p: Pos)
      requires before.Valid()
      requires NearWhiteAt(before, Pos(p.x - 1, p.y)) ==> Pos(p.x - 1, p.y) in seen
      requires NearWhiteAt(before, Pos(p.x + 1, p.y)) ==> Pos(p.x + 1, p.y) in seen
      requires NearWhiteAt(before, Pos(p.x, p.y - 1)) ==> Pos(p.x, p.y - 1) in seen
      requires NearWhiteAt(before, Pos(p.x, p.y + 1)) ==> Pos(p.x, p.y + 1) in seen
      ensures ExpandedAt(p)
    {
      forall q | Adjacent(p, q) && NearWhiteAt(before, q)
        ensures q in seen
      {
        assert q == Pos(p.x - 1, p.y) || q == Pos(p.x + 1, p.y) || q == Pos(p.x, p.y - 1) || q == Pos(p.x, p.y + 1);
      }
    }

    method Spread(p: Pos)
      requires Valid() && IsBackground(before, p)
      modifies this, visited
      ensures Valid() && done == old(done) && old(seen) <= seen && ExpandedAt(p)
      ensures Budget() <= old(Budget())
    {
      SpreadSideways(p);
      SpreadUpDown(p);
      FourOffersExpand(p);
    }

    twostate lemma ExpansionSurvives(p: Pos)
      requires before.Valid() && old(ExpandedAt(p)) && old(seen) <= seen
      ensures ExpandedAt(p)
    {
    }

    /** One turn of the loop: clear the oldest queued position, then offer its four neighbours. */
    method Turn()
      requires Valid() && Expanded(done) && queue != []
      modifies this, visited, pixels
      ensures Valid() && Expanded(done) && old(seen) <= seen
      ensures Budget() < old(Budget())
    {
      var p := TakeOff();
      Spread(p);
      forall q | q in done
        ensures ExpandedAt(q)
      {
        if q != p {
          ExpansionSurvives(q);
        }
      }
    }

    ghost predicate BorderSeen()
      reads this
      requires before.Valid()
    {
      forall p :: OnBorder(before, p) && NearWhiteAt(before, p) ==> p in seen
    }

    lemma LinesCoverBorder()
      requires before.Valid() && before.width == width && before.height == height
      requires RowSeen(0, width) && RowSeen(height - 1, width)
      requires ColumnSeen(0, height) && ColumnSeen(width - 1, height)
      ensures BorderSeen()
    {
      forall p | OnBorder(before, p) && NearWhiteAt(before, p)
        ensures p in seen
      {
        assert p == Pos(p.x, p.y);
      }
    }

    /** An empty queue means that the fill has reached its fixed point. */
    lemma EmptyQueueIsFixedPoint()
      requires Valid() && Expanded(done) && BorderSeen() && queue == []
      ensures IsNormalized(before, Now())
    {
      assert seen == done;
      forall p | before.Contains(p)
        ensures p in done <==> IsBackground(before, p)
      {
        FilledSetIsBackground(before, done, p);
      }
    }

    method Run()
      requires Valid() && done == {} && queue == [] && width > 0 && height > 0
      modifies this, visited, pixels
      ensures IsNormalized(before, Now())
    {
      SeedRows();
      SeedColumns();
      LinesCoverBorder();
      while queue != []
        invariant Valid() && Expanded(done) && BorderSeen()
        decreases Budget()
      {
        Turn();
      }
      EmptyQueueIsFixedPoint();
    }
  }

  datatype SpriteError = EmptySprite

  /** The normalisation of a decoded sprite, in place. */
  method ClearBackground(pixels: array<Pixel>, width: nat, height: nat) returns (r: Result<(), SpriteError>)
    requires pixels.Length == width * height
    modifies pixels
    ensures r.Failure? <==> width == 0 || height == 0
    ensures r.Failure? ==> pixels[..] == old(pixels[..])
    ensures r.Success? ==>
              IsNormalized(Image(width, height, old(pixels[..])), Image(width, height, pixels[..]))
  {
    if width == 0 || height == 0 {
      return Failure(EmptySprite);
    }
    var fill := new BorderFill(pixels, width, height);
    fill.Run();
    return Success(());
  }

  // ---- Normalising is idempotent ----

  /** Same size and same red, green and blue everywhere: alpha is free. */
  ghost predicate SameColours(a: Image, b: Image)
    requires a.Valid() && b.Valid()
  {
    && a.width == b.width && a.height == b.height
    && forall p :: a.Contains(p) ==> Transparent(a.At(p)) == Transparent(b.At(p))
  }

  lemma BackgroundIgnoresAlpha(a: Image, b: Image, p: Pos)
    requires a.Valid() && b.Valid() && SameColours(a, b) && IsBackground(a, p)
    ensures IsBackground(b, p)
  {
    var path :| IsBorderPath(a, path) && path[|path|-1] == p;
    forall i | 0 <= i < |path|
      ensures NearWhiteAt(b, path[i])
    {
      assert NearWhiteAt(a, path[i]);
      assert Transparent(a.At(path[i])) == Transparent(b.At(path[i]));
    }
    assert IsBorderPath(b, path);
  }

  lemma NormalizingKeepsColours(before: Image, after: Image)
    requires before.Valid() && IsNormalized(before, after)
    ensures SameColours(before, after) && SameColours(after, before)
  {
    forall p | before.Contains(p)
      ensures Transparent(before.At(p)) == Transparent(after.At(p))
    {
    }
    forall p | after.Contains(p)
      ensures Transparent(before.At(p)) == Transparent(after.At(p))
    {
      assert before.Contains(p);
    }
  }

  lemma SamePixelsSameImage(a: Image, b: Image)
    requires a.Valid() && b.Valid() && a.width == b.width && a.height == b.height
    requires forall p :: a.Contains(p) ==> a.At(p) == b.At(p)
    ensures a == b
  {
    forall i | 0 <= i < |a.pixels|
      ensures a.pixels[i] == b.pixels[i]
    {
      var p := IndexSurjective(a.width, a.height, i);
      assert a.Contains(p) && a.At(p) == b.At(p);
    }
  }

  /** A sprite has at most one normal form. */
  lemma NormalFormIsUnique(before: Image, a: Image, b: Image)
    requires before.Valid() && IsNormalized(before, a) && IsNormalized(before, b)
    ensures a == b
  {
    forall p | a.Contains(p)
      ensures a.At(p) == b.At(p)
    {
      assert before.Contains(p);
    }
    SamePixelsSameImage(a, b);
  }

  /** Normalising again changes no pixel. */
  lemma NormalizingIsIdempotent(before: Image, once: Image, twice: Image)
    requires before.Valid() && IsNormalized(before, once) && IsNormalized(once, twice)
    ensures twice == once
  {
    NormalizingKeepsColours(before, once);
    forall p | once.Contains(p)
      ensures twice.At(p) == once.At(p)
    {
      assert before.Contains(p);
      if IsBackground(once, p) {
        BackgroundIgnoresAlpha(once, before, p);
      }
    }
    SamePixelsSameImage(twice, once);
  }
}
