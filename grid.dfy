/**
 * `create_image_grid` (baby.py): a 1024 x 1024 canvas onto which the four
 * phase pictures, each resized to 512 x 512, are pasted one after another.
 * Pictures are opaque values; a pixel of the canvas is described by the
 * picture that shows there and the position inside that picture.
 */
module Grid {
  import opened Wrappers

  /** A decoded picture; its pixels are not modelled. */
  datatype Image = Image(bytes: seq<byte>)

  /** The side of each resized picture, `image_size`. */
  const IMAGE_SIZE: int := 512

  /** One `paste`: a picture resized to IMAGE_SIZE x IMAGE_SIZE with its top-left corner at (x, y). */
  datatype Layer = Layer(image: Image, x: int, y: int)

  predicate Covers(l: Layer, px: int, py: int)
  {
    l.x <= px < l.x + IMAGE_SIZE && l.y <= py < l.y + IMAGE_SIZE
  }

  /** The index of the layer seen at (px, py): the last paste covering it, as later pastes overwrite earlier ones. */
  function Top(layers: seq<Layer>, px: int, py: int): (r: Option<nat>)
    ensures r.Some? ==> r.value < |layers| && Covers(layers[r.value], px, py)
    ensures r.Some? ==> forall j | r.value < j < |layers| :: !Covers(layers[j], px, py)
    ensures r.None? ==> forall j | 0 <= j < |layers| :: !Covers(layers[j], px, py)
    decreases |layers|
  {
    if layers == [] then None
    else if Covers(layers[|layers| - 1], px, py) then Some(|layers| - 1)
    else Top(layers[..|layers| - 1], px, py)
  }

  /** What shows at one pixel: the picture and the position inside it. */
  datatype Shown = Shown(image: Image, u: int, v: int)

  function ShownAt(layers: seq<Layer>, px: int, py: int): Option<Shown>
  {
    match Top(layers, px, py)
    case None => None
    case Some(i) => Some(Shown(layers[i].image, px - layers[i].x, py - layers[i].y))
  }

  /** The PIL image being built: its fixed size and the pastes made onto it, in order. */
  class Canvas {
    const width: int
    const height: int
    var layers: seq<Layer>

    /** `Image.new('RGB', (w, h))`: a blank canvas. */
    constructor (w: int, h: int)
      ensures width == w && height == h && layers == []
    {
      width, height := w, h;
      layers := [];
    }

    /** `paste(image.resize((IMAGE_SIZE, IMAGE_SIZE)), (x, y))`. */
    method Paste(image: Image, x: int, y: int)
      modifies this
      ensures layers == old(layers) + [Layer(image, x, y)]
    {
      layers := layers + [Layer(image, x, y)];
    }

    /** The pixel at (px, py); `None` is the blank background. */
    function Pixel(px: int, py: int): Option<Shown>
      reads this
      requires 0 <= px < width && 0 <= py < height
    {
      ShownAt(layers, px, py)
    }
  }

  /** The top-left corner of cell i: ((i mod 2) * 512, (i div 2) * 512). */
  function CellX(i: nat): int
  {
    (i % 2) * IMAGE_SIZE
  }

  function CellY(i: nat): int
  {
    (i / 2) * IMAGE_SIZE
  }

  /** The four pastes of `create_image_grid`, in the order it makes them. */
  function GridLayers(images: seq<Image>): seq<Layer>
    requires |images| >= 4
  {
    [Layer(images[0], 0, 0), Layer(images[1], IMAGE_SIZE, 0),
     Layer(images[2], 0, IMAGE_SIZE), Layer(images[3], IMAGE_SIZE, IMAGE_SIZE)]
  }

  /** `create_image_grid(images)`: the first four pictures pasted into the four cells. */
  method CreateImageGrid(images: seq<Image>) returns (grid: Canvas)
    requires |images| >= 4
    ensures fresh(grid)
    ensures grid.width == 2 * IMAGE_SIZE && grid.height == 2 * IMAGE_SIZE
    ensures grid.layers == GridLayers(images)
    ensures forall px, py | 0 <= px < grid.width && 0 <= py < grid.height ::
              grid.Pixel(px, py) == Some(Shown(images[Quadrant(px, py)], px % IMAGE_SIZE, py % IMAGE_SIZE))
  {
    grid := new Canvas(2 * IMAGE_SIZE, 2 * IMAGE_SIZE);
    grid.Paste(images[0], 0, 0);
    grid.Paste(images[1], IMAGE_SIZE, 0);
    grid.Paste(images[2], 0, IMAGE_SIZE);
    grid.Paste(images[3], IMAGE_SIZE, IMAGE_SIZE);
    assert grid.layers == GridLayers(images);
    forall px, py | 0 <= px < grid.width && 0 <= py < grid.height
      ensures grid.Pixel(px, py) == Some(Shown(images[Quadrant(px, py)], px % IMAGE_SIZE, py % IMAGE_SIZE))
    {
      GridShows(images, px, py);
    }
  }

  /** The cell a canvas pixel lies in: 0 top-left, 1 top-right, 2 bottom-left, 3 bottom-right. */
  function Quadrant(px: int, py: int): (q: nat)
    requires 0 <= px < 2 * IMAGE_SIZE && 0 <= py < 2 * IMAGE_SIZE
    ensures q < 4
    ensures CellX(q) <= px < CellX(q) + IMAGE_SIZE && CellY(q) <= py < CellY(q) + IMAGE_SIZE
  {
    (if px < IMAGE_SIZE then 0 else 1) + (if py < IMAGE_SIZE then 0 else 2)
  }

  /** Paste i of the grid goes to cell i, and carries picture i. */
  lemma {:induction false} GridCells(images: seq<Image>, i: nat)
    requires |images| >= 4 && i < 4
    ensures GridLayers(images)[i] == Layer(images[i], CellX(i), CellY(i))
  {
  }

  /** The four cells are pairwise disjoint. */
  lemma CellsDisjoint(images: seq<Image>, i: nat, j: nat, px: int, py: int)
    requires |images| >= 4 && i < 4 && j < 4 && i != j
    ensures !(Covers(GridLayers(images)[i], px, py) && Covers(GridLayers(images)[j], px, py))
  {
    GridCells(images, i);
    GridCells(images, j);
  }

  /** Every pixel of the 1024 x 1024 canvas lies in some cell, the one `Quadrant` names. */
  lemma CellsCover(images: seq<Image>, px: int, py: int)
    requires |images| >= 4 && 0 <= px < 2 * IMAGE_SIZE && 0 <= py < 2 * IMAGE_SIZE
    ensures Covers(GridLayers(images)[Quadrant(px, py)], px, py)
  {
    GridCells(images, Quadrant(px, py));
  }

  /** Each pixel shows the picture of its cell, at its offset inside that cell; nothing of the blank canvas remains. */
  lemma GridShows(images: seq<Image>, px: int, py: int)
    requires |images| >= 4 && 0 <= px < 2 * IMAGE_SIZE && 0 <= py < 2 * IMAGE_SIZE
    ensures ShownAt(GridLayers(images), px, py)
            == Some(Shown(images[Quadrant(px, py)], px % IMAGE_SIZE, py % IMAGE_SIZE))
  {
    var q := Quadrant(px, py);
    CellsCover(images, px, py);
    forall j | 0 <= j < 4 && j != q
      ensures !Covers(GridLayers(images)[j], px, py)
    {
      CellsDisjoint(images, j, q, px, py);
    }
    assert Top(GridLayers(images), px, py) == Some(q);
    GridCells(images, q);
  }
}
