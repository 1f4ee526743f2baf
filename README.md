# Patch windows of the SpaMCAF image feature extractors

SpaMCAF's `get_image_feature.py` turns a tissue image and a table of spot
coordinates into per-spot features. It has three extractors: deep embeddings
(`UNI_features`), GLCM texture statistics (`extract_glcm_features`) and Fourier
spectra (`extract_fft_features`). All three first cut one patch per spot out of
the image. This project models that cutting step:

- `crop_image` (`GetImageFeature.CropImage`) turns a centre `(x, y)` and a
  `crop_size` of `[w, h]` into a half-open window. The default size is 50 × 50.
  The window starts at `left = x - w // 2` and `top = y - h // 2`, and its slice
  is `w` columns by `h` rows (`GetImageFeature.CropWindow`).
- `get_patch` (`GetImageFeature.GetPatch`) uses a fixed half-width. It is 336
  when `patch_size == 672` and 112 for any other value, `None` included
  (`GetImageFeature.PatchWindow`).
- Both helpers end in the same slice, which `GetImageFeature.Cut` models: rows
  come from the y-range and columns from the x-range. A 3-D image
  (`Grid.Image.Cube`) keeps every channel of every pixel. A 2-D image
  (`Grid.Image.Plane`) is cut on its two axes.
- Each extractor runs `for i in range(spot_num)`, appending one patch per spot
  to `sub_images`. `GetImageFeature.CollectSubImages` models that loop; its
  invariant ties the list built so far to the spots visited so far.
  `GetImageFeature.Gather` states the list as a value.
  `GetImageFeature.EmbeddingSubImages` and `GetImageFeature.TextureSubImages`
  are the loops of the three extractors.

Images are values (`seq<seq<T>>` or `seq<seq<seq<T>>>` inside `Grid.Image`).
No member has a `modifies` clause, so cropping and collecting only read the
image. A crop is modelled as a copy of the pixels it covers.

Python's `//` floors. For the divisor 2, Dafny's Euclidean `/` gives the same
quotient for every integer, negative sizes included, so the model writes `/ 2`.

The two modules are `Grid` (`grid.dfy`: the image shapes and the two-axis
slice) and `GetImageFeature` (`get_image_feature.dfy`: the windows, the
helpers and the spot loops).

## Model

| member | source | states |
|---|---|---|
| `GetImageFeature.CropWindow` | SpaMCAF/get_image_feature.py:40-47 | Without a `crop_size` the window is 50 × 50. Otherwise it is exactly `w` columns by `h` rows. It is centred on `(x, y)`: an even side puts its extra column (row) before the centre, an odd side has none. Together these determine `left = x - w//2` and `top = y - h//2` for every integer size. |
| `GetImageFeature.PatchWindow` | SpaMCAF/get_image_feature.py:57-67 | The window is a square of side 672 when `patch_size == 672` and of side 224 otherwise, including `None`. It reaches equally far on each side of `(x, y)`. |
| `GetImageFeature.Cut` | SpaMCAF/get_image_feature.py:49-52 | The `ndim == 3` / else slice keeps the image's number of axes. The result has `bottom - top` rows of `right - left` pixels, and pixel `(i, j)` is the image's pixel `(top + i, left + j)`: a whole channel vector for a 3-D image. |
| `Grid.SliceGrid` | SpaMCAF/get_image_feature.py:50-50 | `g[top:bottom, left:right]` on an in-bounds window has `bottom - top` rows, each `right - left` long, and entry `(i, j)` is `g[top + i][left + j]`. |
| `GetImageFeature.CropImage` | SpaMCAF/get_image_feature.py:40-54 | The crop has the image's number of axes, `h` rows and `w` columns, and pixel `(i, j)` is the image's pixel `(top + i, left + j)` of the `crop_image` window. y selects rows and x selects columns. |
| `GetImageFeature.GetPatch` | SpaMCAF/get_image_feature.py:57-74 | The patch has the image's number of axes and is 672 × 672 or 224 × 224. Pixel `(i, j)` is the image's pixel `(top + i, left + j)` of the `get_patch` window. |
| `GetImageFeature.CropCentre` | SpaMCAF/get_image_feature.py:43-47 | For sides of at least 1, the image pixel at row `y`, column `x` is the crop's pixel at row `h // 2`, column `w // 2`. |
| `GetImageFeature.PatchCentre` | SpaMCAF/get_image_feature.py:58-67 | The image pixel at row `y`, column `x` is the patch's pixel at `(half, half)`, with half being 336 or 112. |
| `GetImageFeature.PatchIsSquareCrop` | SpaMCAF/get_image_feature.py:57-74 | `get_patch` has the same window and patch as `crop_image` with `crop_size = [side, side]`. |
| `GetImageFeature.CutShape` | SpaMCAF/get_image_feature.py:69-72 | Cutting an image of shape `[H, W]` or `[H, W, C]` gives shape `[h, w]` or `[h, w, C]`: the channel axis is kept. |
| `Grid.FitsInShape` | SpaMCAF/get_image_feature.py:49-52 | For an image of shape `[H, W(, C)]` with at least one row, the model's in-bounds precondition holds exactly when `0 <= top <= bottom <= H` and `0 <= left <= right <= W`. |
| `GetImageFeature.Gather` | SpaMCAF/get_image_feature.py:91-96 | The list a spot loop builds has one entry per spot. |
| `GetImageFeature.GatherStep` | SpaMCAF/get_image_feature.py:94-96 | One more turn of the loop appends exactly the next spot's entry to the list built so far. |
| `GetImageFeature.GatherAt` | SpaMCAF/get_image_feature.py:91-96 | Entry `k` of the list is the helper applied to spot `k`, so the spots' order is kept. |
| `GetImageFeature.GatherAppend` | SpaMCAF/get_image_feature.py:91-96 | The list for the spots `a + b` is the list for `a` followed by the list for `b`. |
| `GetImageFeature.SubImagesAt` | SpaMCAF/get_image_feature.py:91-96 | `sub_images` holds `spot_num` patches, and patch `k` is the cut at `(loc[k, 0], loc[k, 1])`. |
| `GetImageFeature.SubImagesAppend` | SpaMCAF/get_image_feature.py:91-96 | Collecting over `a + b` gives the patches of `a` followed by those of `b`. |
| `GetImageFeature.SubImageShape` | SpaMCAF/get_image_feature.py:91-96 | A spot's patch has shape `[h, w]` or `[h, w, C]` after the image's own channels. |
| `GetImageFeature.SubImagesShareShape` | SpaMCAF/get_image_feature.py:96-98 | All the collected patches have one shape, `[h, w(, C)]`. So, for at least one spot, `np.array(sub_images)` stacks them into an array of shape `[spot_num, h, w(, C)]`. |
| `GetImageFeature.CollectSubImages` | SpaMCAF/get_image_feature.py:84-96 | The loop returns exactly `len(spatial)` patches, and patch `k` is the helper's cut at spot `k`. Its invariant ties the list built so far to the spots visited so far. |
| `GetImageFeature.EmbeddingSubImages` | SpaMCAF/get_image_feature.py:84-98 | `UNI_features` collects one `get_patch(img, loc[k, 0], loc[k, 1], patch_size)` per spot, in spot order. |
| `GetImageFeature.TextureSubImages` | SpaMCAF/get_image_feature.py:124-135 | `extract_glcm_features` collects one default 50 × 50 `crop_image` per spot, in spot order. `extract_fft_features` runs the same loop at lines 159-170. |

## Left out

- GetImageFeature.CropImage: requires the window to lie inside the image. The source has no bounds check, and Python's wrap-around and clamping are not modelled. A window partly outside the image gives an undersized or empty crop: Python wraps a negative `top` or `left` around from the end and clamps an end past the edge. A window with both ends negative on an axis wraps instead to a full-size crop of the opposite edge when the axis is at least `|left|` (`|top|`) long; on a shorter axis the start clamps to 0 and the crop is again undersized or empty. For example, `x = -100` with `w = 50` slices columns `-125:-75`: on an image at least 125 columns wide these are the 50 columns ending 75 from the right edge, on a 100-column image they are columns `0:25`, and on an image at most 75 columns wide the crop is empty. A window that ends exactly at column 0 (row 0), such as `x = -25` with the default size, slices `-50:0`, which is empty on every image. Nothing notices this. A negative `w` or `h` gives `right < left` (`bottom < top`); numpy returns an empty crop for such a slice (for example `52:48`), but the model's in-bounds precondition excludes that window at every position, so negative sizes are not covered by `CropImage`. The source's own callers (lines 133 and 168) pass no `crop_size` and never reach that case.
- GetImageFeature.GetPatch: requires the window to lie inside the image, for the same reason as `CropImage`.
- GetImageFeature.CollectSubImages: requires every spot's window to lie inside the image, for the same reason. A window partly outside the image gives an undersized or empty patch. `np.array(sub_images)` then fails or builds a ragged array when the patches' shapes differ; if every patch has the same wrong shape (for example a single spot), it stacks silently. A window that ends exactly at row 0 or column 0 slices `-k:0` and gives an empty patch whatever the image size. A window with both ends negative on an axis wraps to a full-size patch of the opposite edge when the axis is at least `|left|` (`|top|`) long; on a shorter axis the start clamps to 0 and the patch is again undersized or empty. A full-size wrapped patch has the configured shape, so `np.array(sub_images)` stacks it with the others and the wrong pixels go unnoticed.
- The slices at lines 50, 52, 70 and 72 are numpy views that share the image's memory until `np.array(sub_images)` copies them. The model returns copies. Nothing in these functions writes through a view, so no behaviour of the source is lost, but aliasing between a patch and the image is not modelled.
- Hugging Face login, model download and the transform factory (lines 17-22) are network I/O and a foreign library.
- The `roi_dataset` class, the `DataLoader` batches of 512, device placement and model inference (lines 25-37, 100-112) are torch internals with floating-point output.
- `cv2.imread` and the `np.array` conversions of the loaded image (lines 81-82, 122-123, 157-158) are file I/O. The image is a parameter.
- GLCM statistics through `graycomatrix`/`graycoprops`, and the concatenations and flattening after them (lines 137-153), are foreign library code on floats. So is the length of the texture feature vector.
- The FFT, `fftshift` and log-magnitude spectra (lines 171-185) are floating-point numerics.
- The pandas `DataFrame` branch (lines 88-89, 127-128, 162-163) is left out. The spot table is a `seq` of `(x, y)` pairs. Coordinates are integers; a float coordinate table makes `left`/`top` floats and the slices raise `TypeError`, which is not modelled.
- Images with other than two or three axes, and a `crop_size` that is not a two-element list of integers, are not modelled.
- `patch_size` is an optional integer. A float `672.0`, which Python also treats as equal to 672, is not modelled.
