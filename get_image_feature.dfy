/** The patch arithmetic of the per-spot image feature extractors: the two
    window helpers `crop_image` and `get_patch`, and the loop each extractor
    runs over the spot table to gather one sub-image per spot. */
module GetImageFeature {
  import opened Grid

  datatype Option<T> = None | Some(value: T)

  /** The `crop_size` list `[w, h]`: the width (columns, along x) comes first, then the height (rows, along y). */
  datatype Size = Size(w: int, h: int)

  /** The size `crop_image` falls back to when it is given no `crop_size`. */
  const DefaultCropSize := Size(50, 50)

  function CropSizeOrDefault(cropSize: Option<Size>): Size {
    if cropSize.None? then DefaultCropSize else cropSize.value
  }

  /** The side of a `get_patch` window: 672 for `patch_size == 672`, 224 for any other value or None. */
  function PatchSide(patchSize: Option<int>): nat {
    if patchSize == Some(672) then 672 else 224
  }

  /** The window of `crop_image`: it is exactly `w` columns by `h` rows, and it is centred on
      (x, y), an even side putting its extra column (row) before the centre, an odd side none. */
  function CropWindow(x: int, y: int, cropSize: Option<Size>): (r: Rect)
    ensures var s := CropSizeOrDefault(cropSize);
      r.right - r.left == s.w && r.bottom - r.top == s.h &&
      (x - r.left) - (r.right - 1 - x) == 1 - s.w % 2 &&
      (y - r.top) - (r.bottom - 1 - y) == 1 - s.h % 2
  {
    var s := CropSizeOrDefault(cropSize);
    var left := x - s.w / 2;
    var top := y - s.h / 2;
    var right := left + s.w;
    var bottom := top + s.h;
    Rect(top, bottom, left, right)
  }

  /** The window of `get_patch`: a square of side 672 or 224 reaching equally far on each side of (x, y). */
  function PatchWindow(x: int, y: int, patchSize: Option<int>): (r: Rect)
    ensures r.right - r.left == PatchSide(patchSize) && r.bottom - r.top == PatchSide(patchSize)
    ensures x - r.left == r.right - x && y - r.top == r.bottom - y
  {
    var half := if patchSize == Some(672) then 336 else 112;
    Rect(y - half, y + half, x - half, x + half)
  }

  /** The slice shared by both helpers: `img[top:bottom, left:right, :]` when `img.ndim == 3`,
      `img[top:bottom, left:right]` otherwise. Rows come from the window's y-range, columns from
      its x-range, and a 3-D image keeps every channel of every pixel. */
  function Cut<T>(img: Image<T>, win: Rect): (r: Image<T>)
    requires Fits(img, win)
    ensures NDim(r) == NDim(img)
    ensures Height(r) == win.bottom - win.top && RowsOfWidth(r, win.right - win.left)
    ensures forall i, j :: 0 <= i < win.bottom - win.top && 0 <= j < win.right - win.left ==>
      InImage(r, i, j) && At(r, i, j) == At(img, win.top + i, win.left + j)
  {
    if NDim(img) == 3 then Cube(SliceGrid(img.cube, win)) else Plane(SliceGrid(img.plane, win))
  }

  /** `crop_image(img, x, y, crop_size)` for a window inside the image. */
  function CropImage<T>(img: Image<T>, x: int, y: int, cropSize: Option<Size>): (r: Image<T>)
    requires Fits(img, CropWindow(x, y, cropSize))
    ensures var s, win := CropSizeOrDefault(cropSize), CropWindow(x, y, cropSize);
      NDim(r) == NDim(img) && Height(r) == s.h && RowsOfWidth(r, s.w) &&
      forall i, j :: 0 <= i < s.h && 0 <= j < s.w ==>
        InImage(r, i, j) && At(r, i, j) == At(img, win.top + i, win.left + j)
  {
    Cut(img, CropWindow(x, y, cropSize))
  }

  /** `get_patch(img, x, y, patch_size)` for a window inside the image. */
  function GetPatch<T>(img: Image<T>, x: int, y: int, patchSize: Option<int>): (r: Image<T>)
    requires Fits(img, PatchWindow(x, y, patchSize))
    ensures var side, win := PatchSide(patchSize), PatchWindow(x, y, patchSize);
      NDim(r) == NDim(img) && Height(r) == side && RowsOfWidth(r, side) &&
      forall i, j :: 0 <= i < side && 0 <= j < side ==>
        InImage(r, i, j) && At(r, i, j) == At(img, win.top + i, win.left + j)
  {
    Cut(img, PatchWindow(x, y, patchSize))
  }

  /** The pixel at (row y, column x) lands at row h/2, column w/2 of its crop. */
  lemma CropCentre<T>(img: Image<T>, x: int, y: int, cropSize: Option<Size>)
    requires Fits(img, CropWindow(x, y, cropSize))
    requires CropSizeOrDefault(cropSize).w >= 1 && CropSizeOrDefault(cropSize).h >= 1
    ensures var s := CropSizeOrDefault(cropSize);
      InImage(img, y, x) && InImage(CropImage(img, x, y, cropSize), s.h / 2, s.w / 2) &&
      At(CropImage(img, x, y, cropSize), s.h / 2, s.w / 2) == At(img, y, x)
  {
  }

  /** The pixel at (row y, column x) lands at row `half`, column `half` of its patch. */
  lemma PatchCentre<T>(img: Image<T>, x: int, y: int, patchSize: Option<int>)
    requires Fits(img, PatchWindow(x, y, patchSize))
    ensures var half := PatchSide(patchSize) / 2;
      InImage(img, y, x) && InImage(GetPatch(img, x, y, patchSize), half, half) &&
      At(GetPatch(img, x, y, patchSize), half, half) == At(img, y, x)
  {
  }

  /** `get_patch` is `crop_image` with the square size `[side, side]`: both helpers agree on
      where a window of even side starts. */
  lemma PatchIsSquareCrop<T>(img: Image<T>, x: int, y: int, patchSize: Option<int>)
    requires Fits(img, PatchWindow(x, y, patchSize))
    ensures var side := PatchSide(patchSize);
      CropWindow(x, y, Some(Size(side, side))) == PatchWindow(x, y, patchSize) &&
      GetPatch(img, x, y, patchSize) == CropImage(img, x, y, Some(Size(side, side)))
  {
  }

  /** A cut of an image of shape [H, W] or [H, W, C] has shape [h, w] or [h, w, C]. */
  lemma CutShape<T>(img: Image<T>, win: Rect, shape: seq<int>)
    requires Fits(img, win) && HasShape(img, shape)
    ensures HasShape(Cut(img, win), [win.bottom - win.top, win.right - win.left] + shape[2..])
  {
  }

  /** A row of the spot table: `(x, y) == (loc[i, 0], loc[i, 1])`, x picking the column, y the row. */
  type Spot = (int, int)

  /** Which window helper a spot loop calls: `crop_image` with a size, or `get_patch` with a patch size. */
  datatype Cutter = CropImageAt(cropSize: Option<Size>) | GetPatchAt(patchSize: Option<int>)

  function Window(c: Cutter, x: int, y: int): Rect {
    match c
    case CropImageAt(cropSize) => CropWindow(x, y, cropSize)
    case GetPatchAt(patchSize) => PatchWindow(x, y, patchSize)
  }

  /** The [rows, columns] of every window the cutter takes. */
  function Extent(c: Cutter): seq<int> {
    match c
    case CropImageAt(cropSize) => [CropSizeOrDefault(cropSize).h, CropSizeOrDefault(cropSize).w]
    case GetPatchAt(patchSize) => [PatchSide(patchSize), PatchSide(patchSize)]
  }

  /** The sub-image of one spot: the helper called with `x = loc[i, 0]` and `y = loc[i, 1]`. */
  function SubImage<T>(img: Image<T>, spot: Spot, c: Cutter): Image<T>
    requires SpotFits(img, spot, c)
  {
    match c
    case CropImageAt(cropSize) => CropImage(img, spot.0, spot.1, cropSize)
    case GetPatchAt(patchSize) => GetPatch(img, spot.0, spot.1, patchSize)
  }

  /** The spot's window lies inside the image. */
  predicate SpotFits<T>(img: Image<T>, spot: Spot, c: Cutter) {
    Fits(img, Window(c, spot.0, spot.1))
  }

  /** Every spot's window lies inside the image. */
  predicate AllFit<T>(img: Image<T>, loc: seq<Spot>, c: Cutter) {
    forall spot :: spot in loc ==> SpotFits(img, spot, c)
  }

  /** Every spot fits when the spot at every index does. */
  lemma AllFitByIndex<T>(img: Image<T>, loc: seq<Spot>, c: Cutter)
    requires forall k :: 0 <= k < |loc| ==> Fits(img, Window(c, loc[k].0, loc[k].1))
    ensures AllFit(img, loc, c)
  {
    forall spot | spot in loc ensures SpotFits(img, spot, c) {
      var k :| 0 <= k < |loc| && loc[k] == spot;
    }
  }

  /** The list a spot loop builds, as a value: starting from `[]`, `f(s)` appended for each `s` of
      `spots` in turn. */
  function Gather<S, R>(spots: seq<S>, f: S --> R): (r: seq<R>)
    requires forall s :: s in spots ==> f.requires(s)
    ensures |r| == |spots|
    decreases |spots|
  {
    if spots == [] then []
    else
      var n := |spots| - 1;
      assert forall s :: s in spots[..n] ==> s in spots;
      Gather(spots[..n], f) + [f(spots[n])]
  }

  /** One more turn of the loop appends `f` of the next spot. */
  lemma GatherStep<S, R>(spots: seq<S>, f: S --> R, i: int)
    requires (forall s :: s in spots ==> f.requires(s)) && 0 <= i < |spots|
    ensures forall s :: s in spots[..i + 1] ==> f.requires(s)
    ensures Gather(spots[..i + 1], f) == Gather(spots[..i], f) + [f(spots[i])]
  {
    assert forall s :: s in spots[..i + 1] ==> s in spots;
    assert spots[..i + 1][..i] == spots[..i];
  }

  /** Entry `k` of the list is `f` of spot `k`: the spots' order is kept. */
  lemma {:induction false} GatherAt<S, R>(spots: seq<S>, f: S --> R, k: int)
    requires (forall s :: s in spots ==> f.requires(s)) && 0 <= k < |spots|
    ensures Gather(spots, f)[k] == f(spots[k])
  {
    var n := |spots| - 1;
    if k < n {
      assert forall s :: s in spots[..n] ==> s in spots;
      GatherAt(spots[..n], f, k);
    }
  }

  /** Gathering over `a + b` gives the list of `a` followed by the list of `b`. */
  lemma GatherAppend<S, R>(a: seq<S>, b: seq<S>, f: S --> R)
    requires forall s :: s in a + b ==> f.requires(s)
    ensures Gather(a + b, f) == Gather(a, f) + Gather(b, f)
  {
    assert forall s :: s in a ==> s in a + b;
    assert forall s :: s in b ==> s in a + b;
    forall k | 0 <= k < |a + b| ensures Gather(a + b, f)[k] == (Gather(a, f) + Gather(b, f))[k] {
      GatherAt(a + b, f, k);
      if k < |a| {
        GatherAt(a, f, k);
      } else {
        GatherAt(b, f, k - |a|);
      }
    }
  }

  /** The per-spot cut as a function of the spot, defined on the spots whose window fits. */
  function SpotCutter<T>(img: Image<T>, c: Cutter): Spot --> Image<T> {
    spot requires SpotFits(img, spot, c) => SubImage(img, spot, c)
  }

  /** The list `sub_images` once the loop has visited the spots of `loc` in order. */
  function SubImages<T>(img: Image<T>, loc: seq<Spot>, c: Cutter): seq<Image<T>>
    requires AllFit(img, loc, c)
  {
    Gather(loc, SpotCutter(img, c))
  }

  /** Sub-image `k` is the one cut at spot `k`, and there is one per spot. */
  lemma SubImagesAt<T>(img: Image<T>, loc: seq<Spot>, c: Cutter, k: int)
    requires AllFit(img, loc, c) && 0 <= k < |loc|
    ensures |SubImages(img, loc, c)| == |loc|
    ensures SubImages(img, loc, c)[k] == SubImage(img, loc[k], c)
  {
    GatherAt(loc, SpotCutter(img, c), k);
  }

  /** Gathering the spots of `a + b` gives the sub-images of `a` followed by those of `b`. */
  lemma SubImagesAppend<T>(img: Image<T>, a: seq<Spot>, b: seq<Spot>, c: Cutter)
    requires AllFit(img, a, c) && AllFit(img, b, c)
    ensures AllFit(img, a + b, c)
    ensures SubImages(img, a + b, c) == SubImages(img, a, c) + SubImages(img, b, c)
  {
    forall spot | spot in a + b ensures SpotFits(img, spot, c) {
      assert spot in a || spot in b;
    }
    GatherAppend(a, b, SpotCutter(img, c));
  }

  /** All sub-images share one shape, [h, w] or [h, w, C] after the image's own channels, so
      `np.array(sub_images)` stacks them into one array of shape [n, h, w(, C)]. */
  lemma SubImagesShareShape<T>(img: Image<T>, loc: seq<Spot>, c: Cutter, shape: seq<int>)
    requires AllFit(img, loc, c) && HasShape(img, shape)
    ensures |SubImages(img, loc, c)| == |loc|
    ensures forall k :: 0 <= k < |loc| ==> HasShape(SubImages(img, loc, c)[k], Extent(c) + shape[2..])
  {
    forall k | 0 <= k < |loc| ensures HasShape(SubImages(img, loc, c)[k], Extent(c) + shape[2..]) {
      SubImagesAt(img, loc, c, k);
      assert loc[k] in loc;
      SubImageShape(img, loc[k], c, shape);
    }
  }

  lemma SubImageShape<T>(img: Image<T>, spot: Spot, c: Cutter, shape: seq<int>)
    requires SpotFits(img, spot, c) && HasShape(img, shape)
    ensures HasShape(SubImage(img, spot, c), Extent(c) + shape[2..])
  {
    CutShape(img, Window(c, spot.0, spot.1), shape);
  }

  /** The loop `for i in range(spot_num): sub_images.append(<window helper>(img, loc[i, 0], loc[i, 1]))`. */
  method CollectSubImages<T>(img: Image<T>, loc: seq<Spot>, c: Cutter) returns (subImages: seq<Image<T>>)
    requires AllFit(img, loc, c)
    ensures subImages == SubImages(img, loc, c)
    ensures |subImages| == |loc|
    ensures forall k :: 0 <= k < |loc| ==> subImages[k] == SubImage(img, loc[k], c)
  {
    ghost var cutter := SpotCutter(img, c);
    subImages := [];
    var spotNum := |loc|;
    for i := 0 to spotNum
      invariant forall s :: s in loc[..i] ==> cutter.requires(s)
      invariant subImages == Gather(loc[..i], cutter)
    {
      var x, y := loc[i].0, loc[i].1;
      assert loc[i] in loc;
      var subImage := SubImage(img, (x, y), c);
      GatherStep(loc, cutter, i);
      subImages := subImages + [subImage];
    }
    assert loc[..spotNum] == loc;
    forall k | 0 <= k < |loc| ensures subImages[k] == SubImage(img, loc[k], c) {
      SubImagesAt(img, loc, c, k);
    }
  }

  /** The sub-images `UNI_features` gathers before batching them through the model:
      one `get_patch` square per spot, in spot order. */
  method EmbeddingSubImages<T>(img: Image<T>, loc: seq<Spot>, patchSize: Option<int>)
    returns (subImages: seq<Image<T>>)
    requires forall k :: 0 <= k < |loc| ==> Fits(img, PatchWindow(loc[k].0, loc[k].1, patchSize))
    ensures |subImages| == |loc|
    ensures forall k :: 0 <= k < |loc| ==> subImages[k] == GetPatch(img, loc[k].0, loc[k].1, patchSize)
  {
    AllFitByIndex(img, loc, GetPatchAt(patchSize));
    subImages := CollectSubImages(img, loc, GetPatchAt(patchSize));
  }

  /** The sub-images `extract_glcm_features` and `extract_fft_features` gather: one default
      50 × 50 `crop_image` window per spot, in spot order. */
  method TextureSubImages<T>(img: Image<T>, loc: seq<Spot>) returns (subImages: seq<Image<T>>)
    requires forall k :: 0 <= k < |loc| ==> Fits(img, CropWindow(loc[k].0, loc[k].1, None))
    ensures |subImages| == |loc|
    ensures forall k :: 0 <= k < |loc| ==> subImages[k] == CropImage(img, loc[k].0, loc[k].1, None)
  {
    AllFitByIndex(img, loc, CropImageAt(None));
    subImages := CollectSubImages(img, loc, CropImageAt(None));
  }
}
