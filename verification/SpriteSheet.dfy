/** Cutting a generated 2x2 sheet into four tiles, and normalising a sprite set at broadcast. */
module SpriteSheet {
  import opened Wrappers
  import opened SpriteFill

  datatype Rect = Rect(x: int, y: int, width: int, height: int) {
    predicate Covers(p: Pos) {
      x <= p.x < x + width && y <= p.y < y + height
    }
  }

  /** Five percent of the tile, rounded down: the source computes it in floating point. */
  predicate IsMargin(margin: int, tile: int) {
    0 <= margin && 20 * margin <= tile
  }

  function TileRect(width: nat, height: nat, marginX: nat, marginY: nat, col: nat, row: nat): Rect {
    var tileW, tileH := width / 2, height / 2;
    Rect(col * tileW + marginX, row * tileH + marginY, tileW - marginX * 2, tileH - marginY * 2)
  }

  /** The part of the sheet that a crop copies. */
  function Crop(img: Image, rect: Rect): (tile: Image)
    requires img.Valid() && rect.width > 0 && rect.height > 0
    requires 0 <= rect.x && rect.x + rect.width <= img.width
    requires 0 <= rect.y && rect.y + rect.height <= img.height
    ensures tile.Valid() && tile.width == rect.width && tile.height == rect.height
    ensures forall p :: tile.Contains(p) ==> tile.At(p) == img.At(Pos(rect.x + p.x, rect.y + p.y))
  {
    var pixels := seq(rect.width * rect.height, (i: int) requires 0 <= i < rect.width * rect.height =>
      DivBounded(rect.width, rect.height, i);
      img.At(Pos(rect.x + i % rect.width, rect.y + i / rect.width)));
    var tile := Image(rect.width, rect.height, pixels);
    assert forall p :: tile.Contains(p) ==> tile.At(p) == img.At(Pos(rect.x + p.x, rect.y + p.y)) by {
      forall p | tile.Contains(p)
        ensures tile.At(p) == img.At(Pos(rect.x + p.x, rect.y + p.y))
      {
        IndexInBounds(rect.width, rect.height, p);
        IndexDivides(rect.width, p);
      }
    }
    tile
  }

  lemma DivBounded(width: int, height: int, i: int)
    requires width > 0 && 0 <= i < width * height
    ensures 0 <= i / width < height && 0 <= i % width < width
  {
    if i / width >= height {
      IndexRowsAscend(width, Pos(0, height - 1), Pos(0, i / width));
    }
  }

  lemma IndexDivides(width: nat, p: Pos)
    requires 0 <= p.x < width && 0 <= p.y
    ensures Index(width, p) / width == p.y && Index(width, p) % width == p.x
  {
    var q := Pos(Index(width, p) % width, Index(width, p) / width);
    assert Index(width, q) == Index(width, p);
    IndexInjective(width, p, q);
  }

  /** The four crops of any sheet of at least 2x2 are non-empty, inside the sheet and pairwise disjoint. */
  lemma TilesPartitionSheet(width: nat, height: nat, marginX: nat, marginY: nat,
                            col: nat, row: nat, col': nat, row': nat)
    requires width >= 2 && height >= 2
    requires IsMargin(marginX, width / 2) && IsMargin(marginY, height / 2)
    requires col < 2 && row < 2 && col' < 2 && row' < 2
    ensures var r := TileRect(width, height, marginX, marginY, col, row);
            && r.width > 0 && r.height > 0
            && 0 <= r.x && r.x + r.width <= width && 0 <= r.y && r.y + r.height <= height
    ensures (col, row) != (col', row') ==>
              forall p :: !(TileRect(width, height, marginX, marginY, col, row).Covers(p)
                            && TileRect(width, height, marginX, marginY, col', row').Covers(p))
  {
    assert col == 0 || col == 1;
    assert row == 0 || row == 1;
    assert col' == 0 || col' == 1;
    assert row' == 0 || row' == 1;
  }

  /** Columns run left to right, rows top to bottom, and every crop sits centred in its quadrant. */
  lemma TileSitsInItsQuadrant(width: nat, height: nat, marginX: nat, marginY: nat, col: nat, row: nat)
    requires width >= 2 && height >= 2 && col < 2 && row < 2
    requires IsMargin(marginX, width / 2) && IsMargin(marginY, height / 2)
    ensures var r := TileRect(width, height, marginX, marginY, col, row);
            var right, lower := width / 2, height / 2;
            && (col == 0 ==> r.x == right - (r.x + r.width))
            && (col == 1 ==> r.x - right == 2 * right - (r.x + r.width) >= 0)
            && (row == 0 ==> r.y == lower - (r.y + r.height))
            && (row == 1 ==> r.y - lower == 2 * lower - (r.y + r.height) >= 0)
            && 10 * r.width >= 9 * right && 10 * r.height >= 9 * lower
  {
    assert col == 0 || col == 1;
    assert row == 0 || row == 1;
  }

  datatype Tiles = Tiles(neutral: Image, happy: Image, angry: Image, sleepy: Image)

  datatype SheetError = TooSmall

  ghost predicate CanCrop(img: Image, rect: Rect) {
    && rect.width > 0 && rect.height > 0
    && 0 <= rect.x && rect.x + rect.width <= img.width
    && 0 <= rect.y && rect.y + rect.height <= img.height
  }

  ghost predicate IsTileOf(img: Image, marginX: nat, marginY: nat, col: nat, row: nat, tile: Image)
    requires img.Valid()
  {
    var rect := TileRect(img.width, img.height, marginX, marginY, col, row);
    CanCrop(img, rect) && IsNormalized(Crop(img, rect), tile)
  }

  /** Crops one quadrant and normalises it. */
  method EncodeTile(img: Image, marginX: nat, marginY: nat, col: nat, row: nat) returns (tile: Image)
    requires img.Valid() && img.width >= 2 && img.height >= 2 && col < 2 && row < 2
    requires IsMargin(marginX, img.width / 2) && IsMargin(marginY, img.height / 2)
    ensures IsTileOf(img, marginX, marginY, col, row, tile)
  {
    TilesPartitionSheet(img.width, img.height, marginX, marginY, col, row, col, row);
    var crop := Crop(img, TileRect(img.width, img.height, marginX, marginY, col, row));
    var pixels := new Pixel[|crop.pixels|](i requires 0 <= i < |crop.pixels| => crop.pixels[i]);
    assert pixels[..] == crop.pixels;
    var r := ClearBackground(pixels, crop.width, crop.height);
    assert Image(crop.width, crop.height, crop.pixels) == crop;
    tile := Image(crop.width, crop.height, pixels[..]);
  }

  method SliceSheet(img: Image, marginX: nat, marginY: nat) returns (r: Result<Tiles, SheetError>)
    requires img.Valid()
    requires IsMargin(marginX, img.width / 2) && IsMargin(marginY, img.height / 2)
    ensures r.Failure? <==> img.width < 2 || img.height < 2
    ensures r.Success? ==>
              && IsTileOf(img, marginX, marginY, 0, 0, r.value.neutral)
              && IsTileOf(img, marginX, marginY, 1, 0, r.value.happy)
              && IsTileOf(img, marginX, marginY, 0, 1, r.value.angry)
              && IsTileOf(img, marginX, marginY, 1, 1, r.value.sleepy)
  {
    if img.width / 2 == 0 || img.height / 2 == 0 {
      return Failure(TooSmall);
    }
    var neutral := EncodeTile(img, marginX, marginY, 0, 0);
    var happy := EncodeTile(img, marginX, marginY, 1, 0);
    var angry := EncodeTile(img, marginX, marginY, 0, 1);
    var sleepy := EncodeTile(img, marginX, marginY, 1, 1);
    r := Success(Tiles(neutral, happy, angry, sleepy));
  }

  // ---- Sprite sets at broadcast ----

  /** A sprite field holds a reference path, decodable pixels, or text that does not decode. */
  datatype Sprite = Reference(path: string) | Inline(image: Image) | Undecodable(text: string)

  datatype SpriteSet = SpriteSet(neutral: Sprite, happy: Sprite, angry: Sprite, sleepy: Sprite)

  ghost predicate ValidSprite(s: Sprite) {
    s.Inline? ==> s.image.Valid()
  }

  ghost predicate ValidSet(s: SpriteSet) {
    ValidSprite(s.neutral) && ValidSprite(s.happy) && ValidSprite(s.angry) && ValidSprite(s.sleepy)
  }

  /** A sprite that cannot be decoded, or has no pixels, is sent as it is. */
  ghost predicate IsBroadcastForm(before: Sprite, after: Sprite)
    requires ValidSprite(before)
  {
    if before.Inline? && before.image.width > 0 && before.image.height > 0 then
      after.Inline? && IsNormalized(before.image, after.image)
    else
      after == before
  }

  ghost predicate IsBroadcastSet(before: SpriteSet, after: SpriteSet)
    requires ValidSet(before)
  {
    && IsBroadcastForm(before.neutral, after.neutral) && IsBroadcastForm(before.happy, after.happy)
    && IsBroadcastForm(before.angry, after.angry) && IsBroadcastForm(before.sleepy, after.sleepy)
  }

  method NormalizeSprite(s: Sprite) returns (r: Sprite)
    requires ValidSprite(s)
    ensures IsBroadcastForm(s, r)
  {
    r := s;
    if s.Inline? {
      var pixels := new Pixel[|s.image.pixels|](i requires 0 <= i < |s.image.pixels| => s.image.pixels[i]);
      assert pixels[..] == s.image.pixels;
      var outcome := ClearBackground(pixels, s.image.width, s.image.height);
      if outcome.Success? {
        assert Image(s.image.width, s.image.height, s.image.pixels) == s.image;
        r := Inline(Image(s.image.width, s.image.height, pixels[..]));
      }
    }
  }

  predicate UsesReferences(s: SpriteSet) {
    s.neutral.Reference? && s.happy.Reference? && s.angry.Reference? && s.sleepy.Reference?
  }

  method NormalizedSpriteSet(s: SpriteSet) returns (r: SpriteSet)
    requires ValidSet(s)
    ensures IsBroadcastSet(s, r)
  {
    if UsesReferences(s) {
      return s;
    }
    var neutral := NormalizeSprite(s.neutral);
    var happy := NormalizeSprite(s.happy);
    var angry := NormalizeSprite(s.angry);
    var sleepy := NormalizeSprite(s.sleepy);
    r := SpriteSet(neutral, happy, angry, sleepy);
  }

  lemma BroadcastFormIsStable(before: Sprite, once: Sprite, twice: Sprite)
    requires ValidSprite(before) && IsBroadcastForm(before, once)
    requires ValidSprite(once) && IsBroadcastForm(once, twice)
    ensures twice == once
  {
    if before.Inline? && before.image.width > 0 && before.image.height > 0 {
      NormalizingIsIdempotent(before.image, once.image, twice.image);
    }
  }

  /** Broadcasting an already broadcast set, whatever it holds, changes no sprite. */
  lemma BroadcastSetIsStable(before: SpriteSet, once: SpriteSet, twice: SpriteSet)
    requires ValidSet(before) && IsBroadcastSet(before, once)
    requires ValidSet(once) && IsBroadcastSet(once, twice)
    ensures twice == once
  {
    BroadcastFormIsStable(before.neutral, once.neutral, twice.neutral);
    BroadcastFormIsStable(before.happy, once.happy, twice.happy);
    BroadcastFormIsStable(before.angry, once.angry, twice.angry);
    BroadcastFormIsStable(before.sleepy, once.sleepy, twice.sleepy);
  }

  /** Broadcasting a tile that was cut from a sheet changes no pixel. */
  lemma SlicedTileIsBroadcastUnchanged(img: Image, marginX: nat, marginY: nat, col: nat, row: nat,
                                       tile: Image, sent: Sprite)
    requires img.Valid() && IsTileOf(img, marginX, marginY, col, row, tile)
    requires ValidSprite(Inline(tile)) && IsBroadcastForm(Inline(tile), sent)
    ensures sent == Inline(tile)
  {
    var crop := Crop(img, TileRect(img.width, img.height, marginX, marginY, col, row));
    NormalizingIsIdempotent(crop, tile, sent.image);
  }
}
