/**
 The pixel geometry of the snake game: the size of a cell, how pygame decides
 that two squares collide, how a pointer position is snapped to the grid, where
 the two portals are open and which cells the food may be placed on.
 */
module Grid {

  /** A pixel position (x, y) inside the game area; (0, 0) is its top-left corner. */
  type Pos = (int, int)

  /** Side of a snake segment and of the food square, in pixels (`head_size`). */
  const HEAD_SIZE: int := 20

  /** Height of each portal, in pixels (`portal_size[1]`, six cells). */
  const PORTAL_HEIGHT: int := 6 * HEAD_SIZE

  /** The game area is the window less a 10-pixel frame on every side. */
  const FRAME: int := 10

  /** The size of the game area in pixels (`Renderer.game_size`). */
  datatype Area = Area(width: int, height: int)

  /** The game area of a window of the given size. */
  function AreaOf(screenWidth: int, screenHeight: int): (r: Area)
    ensures r.width % HEAD_SIZE == screenWidth % HEAD_SIZE
    ensures r.height % HEAD_SIZE == screenHeight % HEAD_SIZE
    ensures r.width < screenWidth && r.height < screenHeight
  {
    Area(screenWidth - 2 * FRAME, screenHeight - 2 * FRAME)
  }

  /** Python's `int(a / b)` for a positive divisor: the quotient rounded toward zero. */
  function TruncDiv(a: int, b: int): (q: int)
    requires b > 0
    ensures 0 <= a ==> 0 <= q * b <= a < q * b + b
    ensures a < 0 ==> q * b - b < a <= q * b <= 0
  {
    if a >= 0 then
      FloorBounds(a, b);
      a / b
    else
      FloorBounds(-a, b);
      NegTimes(-a / b, b);
      -((-a) / b)
  }

  lemma FloorBounds(n: int, b: int)
    requires n >= 0 && b > 0
    ensures 0 <= (n / b) * b <= n < (n / b) * b + b
  {
    var q := n / b;
    assert n == b * q + n % b;
    assert q >= 0;
    assert q * b >= 0;
  }

  lemma NegTimes(x: int, b: int)
    ensures (-x) * b == -(x * b)
  {
  }

  /** `int(p / head_size) * head_size`: a pixel coordinate moved toward zero onto the grid. */
  function Snap(p: int): (r: int)
    ensures r % HEAD_SIZE == 0
    ensures 0 <= p ==> 0 <= r <= p < r + HEAD_SIZE
    ensures p < 0 ==> r - HEAD_SIZE < p <= r <= 0
  {
    var q := TruncDiv(p, HEAD_SIZE);
    MultipleOfCell(q);
    q * HEAD_SIZE
  }

  lemma MultipleOfCell(q: int)
    ensures (q * HEAD_SIZE) % HEAD_SIZE == 0
  {
  }

  /** Both coordinates lie on the grid of `HEAD_SIZE` cells. */
  predicate OnGrid(p: Pos) {
    p.0 % HEAD_SIZE == 0 && p.1 % HEAD_SIZE == 0
  }

  /**
   pygame's `Rect.colliderect` for two squares of side `HEAD_SIZE` placed at
   `p` and `q`: the squares share interior points.
   */
  predicate Overlap(p: Pos, q: Pos)
    ensures p == q ==> Overlap(p, q)
    ensures Overlap(p, q) ==> -HEAD_SIZE < p.0 - q.0 < HEAD_SIZE && -HEAD_SIZE < p.1 - q.1 < HEAD_SIZE
  {
    p.0 < q.0 + HEAD_SIZE && q.0 < p.0 + HEAD_SIZE &&
    p.1 < q.1 + HEAD_SIZE && q.1 < p.1 + HEAD_SIZE
  }

  /**
   `pygame.sprite.spritecollideany` for a square at `p` against squares at
   `others`: one of them overlaps it.
   */
  predicate CollidesAny(p: Pos, others: seq<Pos>)
    ensures p in others ==> CollidesAny(p, others)
    ensures CollidesAny(p, others) ==> others != []
  {
    exists j :: 0 <= j < |others| && Overlap(p, others[j])
  }

  /** Two grid coordinates less than a cell apart are equal. */
  lemma SameLine(u: int, v: int)
    requires u % HEAD_SIZE == 0 && v % HEAD_SIZE == 0
    requires u < v + HEAD_SIZE && v < u + HEAD_SIZE
    ensures u == v
  {
    var qu, qv := u / HEAD_SIZE, v / HEAD_SIZE;
    assert u == HEAD_SIZE * qu;
    assert v == HEAD_SIZE * qv;
  }

  /** On the grid, two squares collide exactly when they are at the same position. */
  lemma OverlapOnGrid(p: Pos, q: Pos)
    requires OnGrid(p) && OnGrid(q)
    ensures Overlap(p, q) <==> p == q
  {
    if Overlap(p, q) {
      SameLine(p.0, q.0);
      SameLine(p.1, q.1);
    }
  }

  /** Lower bound of the portal band, `int(h/2 - portal/2)` (excluded from the band). */
  function PortalLow(a: Area): (lo: int)
    ensures a.height >= PORTAL_HEIGHT ==> 0 <= 2 * lo <= a.height - PORTAL_HEIGHT < 2 * lo + 2
  {
    TruncDiv(a.height - PORTAL_HEIGHT, 2)
  }

  /** Upper bound of the portal band, `int(h/2 + portal/2)` (included in the band). */
  function PortalHigh(a: Area): (hi: int)
    ensures a.height >= -PORTAL_HEIGHT ==> 0 <= 2 * hi <= a.height + PORTAL_HEIGHT < 2 * hi + 2
  {
    TruncDiv(a.height + PORTAL_HEIGHT, 2)
  }

  /** Both portals are open at the heights `y` with `PortalLow < y <= PortalHigh`. */
  predicate InPortal(a: Area, y: int)
    ensures a.height >= 2 * PORTAL_HEIGHT && InPortal(a, y) ==> 0 < y < a.height
  {
    PortalLow(a) < y <= PortalHigh(a)
  }

  /**
   For a game area of even height (at least a portal high) the band is exactly
   `PORTAL_HEIGHT` pixels tall and vertically centred.
   */
  lemma PortalCentred(a: Area)
    requires a.height % 2 == 0 && a.height >= PORTAL_HEIGHT
    ensures PortalHigh(a) - PortalLow(a) == PORTAL_HEIGHT
    ensures PortalLow(a) + PortalHigh(a) == a.height
  {
  }

  /**
   In the 800 x 800 window the game is started with, the portals let through
   exactly the six grid rows y = 340, 360, ..., 440.
   */
  lemma DefaultPortalRows(y: int)
    requires y % HEAD_SIZE == 0
    ensures InPortal(AreaOf(800, 800), y) <==> 17 * HEAD_SIZE <= y <= 22 * HEAD_SIZE
  {
    var a := AreaOf(800, 800);
    assert PortalLow(a) == 330 && PortalHigh(a) == 450;
    var q := y / HEAD_SIZE;
    assert y == HEAD_SIZE * q;
  }

  /**
   `randint(1, limit // head_size - 1)` draws a cell index in
   [1, limit // head_size - 2]: the upper bound of `randint` is exclusive.
   */
  predicate LegalIndex(limit: int, i: int)
    ensures LegalIndex(limit, i) <==> 1 <= i < limit / HEAD_SIZE - 1
    ensures limit < 3 * HEAD_SIZE ==> !LegalIndex(limit, i)
  {
    1 <= i <= limit / HEAD_SIZE - 2
  }

  /** A pair of cell indices the food spawner can draw in the area `a`. */
  predicate LegalDraw(a: Area, col: int, row: int) {
    LegalIndex(a.width, col) && LegalIndex(a.height, row)
  }

  /**
   The pixel position of the food spawned for the drawn cell indices: on the
   grid and never in the outermost ring of cells of the game area.
   */
  function SpawnCell(a: Area, col: int, row: int): (p: Pos)
    requires LegalDraw(a, col, row)
    ensures OnGrid(p)
    ensures HEAD_SIZE <= p.0 && p.0 + 2 * HEAD_SIZE <= a.width
    ensures HEAD_SIZE <= p.1 && p.1 + 2 * HEAD_SIZE <= a.height
  {
    IndexInside(a.width, col);
    IndexInside(a.height, row);
    MultipleOfCell(col);
    MultipleOfCell(row);
    (col * HEAD_SIZE, row * HEAD_SIZE)
  }

  lemma IndexInside(limit: int, i: int)
    requires LegalIndex(limit, i)
    ensures HEAD_SIZE <= i * HEAD_SIZE && i * HEAD_SIZE + 2 * HEAD_SIZE <= limit
  {
    var n := limit / HEAD_SIZE;
    assert n * HEAD_SIZE <= limit;
    assert (i + 2) * HEAD_SIZE <= n * HEAD_SIZE;
  }

  /**
   Conversely, every grid cell off the outermost ring is the spawn cell of
   some legal draw: the spawner can reach all of them.
   */
  lemma SpawnCellCovers(a: Area, p: Pos)
    requires OnGrid(p)
    requires HEAD_SIZE <= p.0 && p.0 + 2 * HEAD_SIZE <= a.width
    requires HEAD_SIZE <= p.1 && p.1 + 2 * HEAD_SIZE <= a.height
    ensures exists col, row :: LegalDraw(a, col, row) && SpawnCell(a, col, row) == p
  {
    var col, row := p.0 / HEAD_SIZE, p.1 / HEAD_SIZE;
    IndexFits(a.width, p.0);
    IndexFits(a.height, p.1);
    assert SpawnCell(a, col, row) == p;
  }

  lemma IndexFits(limit: int, x: int)
    requires x % HEAD_SIZE == 0
    requires HEAD_SIZE <= x && x + 2 * HEAD_SIZE <= limit
    ensures LegalIndex(limit, x / HEAD_SIZE) && (x / HEAD_SIZE) * HEAD_SIZE == x
  {
    var i := x / HEAD_SIZE;
    assert x == i * HEAD_SIZE;
    assert (i + 2) * HEAD_SIZE <= limit;
    DivMonotone(i + 2, limit);
  }

  lemma DivMonotone(k: int, limit: int)
    requires k * HEAD_SIZE <= limit
    ensures k <= limit / HEAD_SIZE
  {
    var n := limit / HEAD_SIZE;
    assert limit < (n + 1) * HEAD_SIZE;
  }
}
