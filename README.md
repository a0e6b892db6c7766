# rust_image-processing — a Dafny model of its integer and structural core

The repository is an image-processing toolbox with a small brute-force ray
tracer and a desktop front end. This project models the parts of it that do
not depend on floating-point geometry, and proves what they promise.

- **Byte and colour arithmetic** (`src/types_n_convs.rs`). This covers the clamping
  `Basic` conversions, `u8_add`/`u8_sub`, the channel-wise `rgb_add`/`rgb_sub`,
  `rgb_to_arr` and `u8_to_rgb`, the object and intersection constructors, and the
  tag dispatch of `Object::check`. It also covers the unusual `PartialEq` of
  `Object`: `==` means "same position and *different* kind", and `!=` is defined
  on its own ("different position and different kind"). Module `Convs`, file
  `convs.dfy`.
- **In-place pixel rewrites and scaling** (`src/image_procs.rs`). The functions are
  `to_n_val_channels`, `add`, `pinkize`, `to_mc_pic`, `upscale` and `downscale`,
  all over an `array2` indexed `[x, y]` as `get_pixel(x, y)` is. Module `Filters`,
  file `filters.dfy`.
- **Palette code** (`src/image_procs.rs`). The functions are `measure_equal`,
  `edit_color`, `to_colors` and `closest_color`. Module `Palette`, file
  `palette.dfy`.
- **The text side of the mesh loader `obj_import`**. This covers the line splitting,
  `get_v_indexes`, `get_n_index`, the `color`/`light`/`v`/`vn`/`f` state machine,
  and the quad split. Module `Mesh`, file `mesh.dfy`.
- **The skeleton of `raytrace`**. This covers the light pre-pass, the nearest-hit
  selection of one bounce, and the raster loop. Module `Render`, file `render.dfy`.
- **The bounded undo history of the UI** (`src/ui.rs`). This covers `update_undos`,
  the Undo button and the file-open controller. Module `Ui`, file `ui.dfy`.

Several source values are modelled as follows:

- f32 values are `real`.
- In `obj_import` and its token helpers, a Rust panic (a failed `unwrap`, an out-of-range index) is a `None` result. Elsewhere, an input that makes the source panic is excluded by a `requires`. Each such member is listed under "Left out" below.
- Three things the model cannot compute are taken as parameters:
  - the ray/primitive intersection tests;
  - the f32 parser;
  - the shading of a pixel.

## Model

| member | source | states |
|---|---|---|
| Convs.I32ToU8 | src/types_n_convs.rs:296-305 | `i32::to_u8` gives 255 above 255, 0 below 0, and the value itself in between |
| Convs.ClampIsNearest | src/types_n_convs.rs:296-305 | the clamp gives the byte nearest to the input |
| Convs.WidenThenClamp | src/types_n_convs.rs:284-305 | widening a byte with `to_i32` and clamping it back gives the same byte |
| Convs.ClampMonotone | src/types_n_convs.rs:296-305 | the clamp preserves order |
| Convs.I32Add | src/types_n_convs.rs:332-334 | `i32_add` is the exact sum when there is no overflow |
| Convs.I32Sub | src/types_n_convs.rs:336-338 | `i32_sub` is the exact difference when there is no overflow |
| Convs.I32AddSubRoundTrip | src/types_n_convs.rs:332-338 | subtracting what was added gives back the first operand |
| Convs.U8Add | src/types_n_convs.rs:348-357 | `u8_add` gives 255 when the sum is above 255, 0 when it is negative, and the sum otherwise |
| Convs.U8Sub | src/types_n_convs.rs:359-368 | `u8_sub` gives the difference clamped the same way |
| Convs.U8SubFloor | src/types_n_convs.rs:359-368 | for bytes, `u8_sub` is 0 whenever the second operand is at least the first |
| Convs.U8AddBounds | src/types_n_convs.rs:348-357 | a saturated sum is at least each byte operand, and it is 255 exactly when the true sum reaches 255 |
| Convs.RgbToArr | src/types_n_convs.rs:392-394 | the three ints equal the channels and lie in [0, 255] |
| Convs.ArrToRgb | src/image_procs.rs:69-90 | the per-channel clamp of `closest_color` keeps every channel that is already in [0, 255], raises a negative channel to 0 and lowers one above 255 to 255 |
| Convs.ArrRoundTrip | src/types_n_convs.rs:392-394 | clamping the output of `rgb_to_arr` gives back the colour |
| Convs.U8ToRgb | src/types_n_convs.rs:396-398 | all three channels equal n |
| Convs.RgbAdd | src/types_n_convs.rs:400-406 | each channel is the `u8_add` of the two channels |
| Convs.RgbSub | src/types_n_convs.rs:408-414 | each channel is the `u8_sub` of the two channels |
| Convs.BlackIsNeutral | src/types_n_convs.rs:400-414 | adding black on either side, or subtracting black, changes nothing |
| Convs.RgbAddCommutes | src/types_n_convs.rs:400-406 | `rgb_add` is commutative |
| Convs.RgbSubSelf | src/types_n_convs.rs:408-414 | `rgb_sub(c, c)` is black, and so is subtracting white |
| Convs.RgbAddSubRoundTrip | src/types_n_convs.rs:400-414 | without saturation, subtracting what was added restores the colour |
| Convs.NullObject | src/types_n_convs.rs:61-72 | the null object has kind -1, position at the origin, and every other field zero or black |
| Convs.NewPlane | src/types_n_convs.rs:74-85 | kind 0, the given fields, and b, c, d at the origin |
| Convs.NewSphere | src/types_n_convs.rs:87-98 | kind 1, the given fields, and b, c, d at the origin |
| Convs.NewTriangle | src/types_n_convs.rs:100-110 | kind 2, a = 0, and the given vertices and fields |
| Convs.NullIntersection | src/types_n_convs.rs:19-21 | the no-hit sentinel has t = -1, null vectors and the null object |
| Convs.Check | src/types_n_convs.rs:111-178 | tags 0, 1 and 2 dispatch to the plane, sphere and triangle tests; any other tag gives the whole null intersection |
| Convs.NullObjectMisses | src/types_n_convs.rs:61-72 | checking the null object returns the null intersection |
| Convs.BothIrreflexive | src/types_n_convs.rs:181-188 | neither `o == o` nor `o != o` ever holds |
| Convs.SymmetricAndExclusive | src/types_n_convs.rs:181-188 | both relations are symmetric, and they never hold together |
| Convs.NeIsNotNegationOfEq | src/types_n_convs.rs:181-188 | for equal kinds both are false; for different kinds `!=` is the negation of `==` |
| Convs.TrianglesNeverCompare | src/types_n_convs.rs:181-188 | two different triangles are neither `==` nor `!=` |
| Convs.PlaneEqualsSphereAtSamePos | src/types_n_convs.rs:181-184 | a plane and a sphere at the same position are `==` |
| Filters.Step | src/image_procs.rs:248-256 | the step `255 / n` is the largest s with s·n ≤ 255 |
| Filters.Quantise | src/image_procs.rs:256-262 | `(p / s) * s` is at most p and more than p - s |
| Filters.QuantiseIdempotent | src/image_procs.rs:256-262 | the result is a multiple of s, and quantising it again changes nothing |
| Filters.QuantisePixel | src/image_procs.rs:256-262 | every channel is quantised |
| Filters.Pink | src/image_procs.rs:307-317 | red becomes the largest channel and green the smallest, both taken from the pixel; blue is at most red |
| Filters.PinkIgnoresOrder | src/image_procs.rs:307-317 | permuting the channels does not change the result |
| Filters.PinkOfGrey | src/image_procs.rs:307-317 | a grey pixel keeps its value in red and green |
| Filters.ToNValChannels | src/image_procs.rs:248-266 | every pixel becomes its quantised value with step `255 / n` |
| Filters.Add | src/image_procs.rs:350-357 | every pixel becomes `rgb_add(pixel, color)` |
| Filters.Pinkize | src/image_procs.rs:307-317 | every pixel becomes its pinkized value |
| Filters.FrameSparesCorner | src/image_procs.rs:359-374 | the bottom-right pixel is never in the frame |
| Filters.FrameCoversBorder | src/image_procs.rs:359-374 | with width ≥ 1, every border pixel except the bottom-right one is painted |
| Filters.FrameLeavesInterior | src/image_procs.rs:359-374 | pixels at least `width` away from every edge are not painted |
| Filters.ToMcPic | src/image_procs.rs:359-374 | pixels in the frame get the frame colour and all others are unchanged |
| Filters.Upscale | src/image_procs.rs:281-290 | a freshly allocated image is (x·k, y·k) and pixel (j, i) is source pixel (j/k, i/k) |
| Filters.Downscale | src/image_procs.rs:292-305 | a freshly allocated image is (x/k+1, y/k+1); a sampled (jc, ic) is source pixel (jc·k, ic·k) and an unsampled one stays black |
| Palette.MeasureEqualSymmetric | src/image_procs.rs:107-114 | `measure_equal` is symmetric, and a colour matches itself exactly when measure ≥ 0 |
| Palette.MeasureEqualExtremes | src/image_procs.rs:107-114 | measure 0 means equality; measure 255 matches everything |
| Palette.EditNoMatch | src/image_procs.rs:268-279 | a pixel that matches no source colour is unchanged |
| Palette.EditResultIsTarget | src/image_procs.rs:268-279 | a pixel ends up either unchanged or equal to one of the target colours `colors[k+1]` |
| Palette.EditSequential | src/image_procs.rs:268-279 | the pairs are applied in order, each to the already-updated pixel |
| Palette.EditColor | src/image_procs.rs:268-279 | every pixel becomes its edited value; the dimensions are kept |
| Palette.Dedup | src/image_procs.rs:231-246 | no duplicates, and exactly the same elements as the input |
| Palette.DedupOrder | src/image_procs.rs:231-246 | the entries appear in the order of their first appearance in the input |
| Palette.ScanColoursHold | src/image_procs.rs:231-246 | the row-major scan lists exactly the pixel colours |
| Palette.ToColors | src/image_procs.rs:231-246 | the palette is the duplicate-free row-major scan; it holds a colour exactly when some pixel has it |
| Palette.FirstMinUnique | src/image_procs.rs:54-68 | there is at most one first minimum |
| Palette.ClosestColor | src/image_procs.rs:54-91 | the result is the clamped palette entry at the first least distance |
| Mesh.Split | src/image_procs.rs:397 | `split(" ")` yields at least one piece, and no piece contains the separator |
| Mesh.SplitJoin | src/image_procs.rs:397 | joining the pieces with the separator gives back the text |
| Mesh.SplitSnoc | src/image_procs.rs:387-395 | one more character either opens a new piece or extends the last one |
| Mesh.SplitLines | src/image_procs.rs:387-395 | lines are the text split at byte 10 with byte 13 dropped; joined with `\n` they give that text back, and no line contains `\n` or `\r` |
| Mesh.ParseUnsigned | src/image_procs.rs:27 | an accepted text is digits, possibly after a leading `+`, and its value is within the type's range; a digit string (with or without the `+`) is accepted exactly when its value is at most the maximum, and then gives that value |
| Mesh.DecimalValue | src/image_procs.rs:27 | reading back the decimal rendering of any number gives that number |
| Mesh.DecimalRoundTrip | src/image_procs.rs:27 | the decimal rendering of any number parses back to that number when it is in range, and is rejected otherwise |
| Mesh.ParseRejectsSlash | src/image_procs.rs:27 | text that contains `/` is not a number |
| Mesh.ScanMatchesPieces | src/image_procs.rs:21-31 | the character scan with its slash counter gives the number after the second `/`: 0 if there are fewer than two `/`, or nothing or another `/` follows |
| Mesh.GetNIndex | src/image_procs.rs:21-31 | `get_n_index` returns that number, or fails when what follows is not a number |
| Mesh.ParseAll | src/image_procs.rs:33-45 | every text is parsed, in order, and the result has one entry per text; it succeeds whenever every text parses |
| Mesh.ParseAllFails | src/image_procs.rs:33-45 | once a parse fails, the whole list fails |
| Mesh.HeadsAppend | src/image_procs.rs:33-45 | the heads of two token lists are the heads of each, in order |
| Mesh.SplitHead | src/image_procs.rs:37-41 | the piece before the first `/` is the text up to the first `/` |
| Mesh.VIndexesStep | src/image_procs.rs:35-43 | one more token with a `/` adds the number before that `/`; a token without `/` adds nothing |
| Mesh.GetVIndexes | src/image_procs.rs:33-45 | skipping the first token, the result is the number before the first `/` of every later token that has one, in order |
| Mesh.Face | src/image_procs.rs:422-454 | a face succeeds exactly when its vertex numbers parse, its normal exists and every vertex it names exists; a 4-token face gives one triangle and a 5-token face gives two |
| Mesh.TriFace | src/image_procs.rs:423-433 | a 4-token face is one triangle on the three named vertices, placed at the normal its first token names |
| Mesh.Step | src/image_procs.rs:396-458 | per line: `f` adds 1 or 2 triangles, in the current colour and light flag, with reflectivity ×50 when lit; earlier triangles are kept; `light` sets the flag and `color` clears it; unknown directives change nothing |
| Mesh.QuadSplit | src/image_procs.rs:434-453 | a quad gives (v0, v1, v2) and (v0, v2, v3), both at the normal its first token names |
| Mesh.StepDirectives | src/image_procs.rs:398-455 | `light` always succeeds and sets the flag; `color r g b` succeeds exactly when the three bytes parse, then sets the colour and clears the flag; `v` and `vn` succeed exactly when the coordinates parse, then append the axis-swapped point (moved by `pos` for `v`); an `f` line with other than 4 or 5 tokens is skipped; a 4- or 5-token `f` line succeeds exactly when its face does and appends its triangles |
| Mesh.RunFails | src/image_procs.rs:396-458 | a line that panics makes the whole import fail |
| Mesh.RunLightFlag | src/image_procs.rs:396-412 | after any prefix of lines, the light flag is true exactly when the latest `color`/`light` directive was `light` |
| Mesh.RunFlags | src/image_procs.rs:396-458 | each triangle is lit exactly when the latest directive before its face line was `light` |
| Mesh.RunOutput | src/image_procs.rs:396-458 | every loaded object is a triangle with a = 0 whose reflectivity is rfty ×50 exactly when lit; there are as many as the face lines describe |
| Mesh.NoLightLineNoLight | src/image_procs.rs:396-458 | without a `light` line, no loaded object is a light |
| Mesh.ObjImport | src/image_procs.rs:376-460 | the import is the state machine run over the lines; it yields the triangles, or fails when a line panics |
| Render.LightObjectsExact | src/image_procs.rs:470-475 | the filtered list holds exactly the light-flagged objects of the scene |
| Render.CollectLights | src/image_procs.rs:469-475 | the lights are the first min(100, count) light objects, in scene order |
| Render.NearestHit | src/image_procs.rs:495-506 | the kept hit is the first eligible one at the least distance; with none, only the distance is reset to 99999 |
| Render.NeverHitsLastAgain | src/image_procs.rs:501 | because `!=` is irreflexive, the object a ray has just left is never hit next |
| Render.SameKindNeverNext | src/image_procs.rs:501 | because `!=` also requires a different kind, an object of the same kind as the last one hit is never hit next |
| Render.FirstBounceSkipsOrigin | src/image_procs.rs:493-501 | on the first bounce (coming from the null object) an object at the origin is never hit |
| Render.RowMajorExactlyOnce | src/image_procs.rs:482-563 | the row-major write order lists every pixel of the image, nothing else, and none twice |
| Render.Raytrace | src/image_procs.rs:469-563 | a freshly allocated image, `res[1]` wide and `res[0]` tall; each pixel has the background colour when the primary ray hits nothing and the traced colour otherwise, and the pixels are written once each in row-major order |
| Ui.PushedNewestAndBounded | src/ui.rs:65-71 | the pushed image is the last entry, and a history of at most 3 stays at most 3 |
| Ui.PushedBelowBound | src/ui.rs:65-71 | below 3 entries, the earlier entries stay and the length grows by one |
| Ui.PushedAtBound | src/ui.rs:18 | at 3 entries, exactly entry 0 is removed and the order of the rest is kept |
| Ui.UndoneTakesNewest | src/ui.rs:125-130 | Undo pops the newest entry into the image; with an empty history it changes nothing |
| Ui.OpenedReplaces | src/ui.rs:48-62 | a file that does not decode changes nothing; one that does is pushed only when there was an image, and then replaces it |
| Ui.TransitionsKeepBound | src/ui.rs:18 | every transition keeps the history at most 3 long |
| Ui.OpenThenUndo | src/ui.rs:50-55 | open B while A is shown, then Undo: A is shown again; the history is restored, or has lost only its oldest entry if it was full |
| Ui.AppState.constructor | src/main.rs:26-29 | the application starts with no image and an empty history |
| Ui.AppState.UpdateUndos | src/ui.rs:65-71 | the new history is the push of the image; the current image is unchanged |
| Ui.AppState.Undo | src/ui.rs:125-130 | the new state is the Undo transition of the old one |
| Ui.AppState.OpenFile | src/ui.rs:48-62 | the new state is the open transition of the old one |

## Left out

- Ray and scene geometry:
  - `Xyz` arithmetic;
  - the plane, sphere and triangle intersection tests (parameters of `Check`);
  - the bounce, lighting and shadow computations of `raytrace`.

  All of these are f32 numerics with `sqrt` and epsilon tests. The per-pixel result is the parameter `trace` of `Render.Raytrace`, and `check` on the current ray is the parameter `hitOf` of `Render.NearestHit`.
- Float-driven filters and helpers: `ord_bayer_dithering`, `twod_errprop_dithering`, `ascii_ord_bayer_dithering`, `bright`, `colorize`, `closest_index`, `u8_mul`, `u8_div`, `i32_mul`, `i32_div`, `area`, `rgb_mul`, `rgb_div`, `rgb_xyz_mul` and the `Basic` impl for f32. Their results depend on f32 scaling and truncation.
- f32 semantics in general: rounding, NaN and infinities. The model uses exact reals where the source stores f32 values.
- Palette.ClosestColor: `rgb_dist`, an f32 square root truncated to `u16`, is the parameter `dist`. An empty palette is excluded, because the source then panics indexing `colors_from[0]`.
- Filters.Pink: the blue channel `c_max * 0.8` is computed in f32 and truncated. The model states only that blue is at most red. It does not state the exact value.
- Palette.EditColor: the colour list is required to have even length. The source also accepts an odd list, and panics only when the unpaired last colour matches a pixel.
- Palette.ToColors: the output is `[i32; 3]` triples, as `rgb_to_arr` gives them.
- Render.Raytrace: the progress `println!` is left out. The lights passed to shading are the collected list, but what shading does with them is not modelled.
- Filters.Step: `n = 0` is excluded by a `requires`, because the source then panics dividing `255 / n`.
- Filters.ToNValChannels: `n = 0` is excluded by a `requires`, because the source then panics dividing `255 / n`.
- Filters.Downscale: `k = 0` is excluded by a `requires`, because the source then panics dividing `x / k`.
- Filters.ToMcPic: a `requires` excludes the inputs on which the source panics. These are an empty dimension (`x - 1` or `y - 1` underflows), and a frame wider than the image in a loop that runs (`put_pixel` out of range, or `x - 1 - w` underflows).
- Convs.I32Add: a `requires` excludes operands whose sum overflows `i32`, on which the source panics.
- Convs.I32Sub: a `requires` excludes operands whose difference overflows `i32`, on which the source panics.
- Convs.U8Add: a `requires` excludes operands whose `i32` sum overflows before the clamp, on which the source panics. Byte operands never overflow.
- Convs.U8Sub: a `requires` excludes operands whose `i32` difference overflows before the clamp, on which the source panics. Byte operands never overflow.
- Image dimensions are unbounded naturals. The u32 width and height, and the u32 products `x * k` of `upscale`, are not checked for overflow.
- Mesh.ObjImport:
  - the file read and `String::from_utf8` are left out. The text is taken as ASCII characters, one per byte, so byte and character positions agree;
  - `str::parse::<f32>` is the parameter `parseF32`;
  - the model returns `None` whenever the source would panic: a failed `unwrap`, a missing token, or a vertex or normal index that is 0 or out of range.
- Mesh.ParseUnsigned: the digits and the optional leading `+` follow Rust's integer parsing. The counter `c` of `get_n_index` is an unbounded natural rather than an `i32`.
- The UI itself (druid widgets, layout, sliders, the processing buttons) and the `Arc<Mutex<…>>` locking. The history is a plain field of the state object.
- Image decoding and encoding: `open_img`, `save_img`, `image_from_path`. A decoded image is an opaque `Img`, and a failed decode is `None`.
- The stale top-level `main.rs`. It refers to a module that does not exist and is not part of the crate.
