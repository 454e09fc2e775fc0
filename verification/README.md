# Path tracer on the LUMI cluster: a Dafny model of its core

The system is a CPU/GPU path tracer written for the LUMI supercomputer. It:

- loads Wavefront OBJ/MTL meshes;
- builds a two-level bounding volume hierarchy (BVH): one bottom-level BVH (BLAS) per mesh, and top-level BVHs (TLAS) over the mesh instances placed in the scene;
- traverses the BVHs stacklessly with a ray query;
- animates the scene frame by frame;
- writes each frame as a 24-bit BMP file.

A Python validator compares every rendered frame with a reference image, frame by frame.

This project models that core in Dafny and proves properties about the model. Each source module becomes one Dafny module:

| module | file | models |
|---|---|---|
| `Validator` | `validator.dfy` | `validator.py`. The `main` flow: the usage check, the missing-reference abort, the frame loop with its running sum, minimum and maximum, the per-frame report lines, the final verdict, and the 2x2 mean downscaling. |
| `Decimal` | `decimal.dfy` | The decimal digit strings and zero padding shared by `main.cc` (the `%04u` index) and `validator.py` (`str(i).zfill(4)`). |
| `Renderer` | `renderer.dfy` | `main.cc`. The frame index string, the output path, the pixel-to-coordinate decomposition of the baseline renderer, and the arguments it passes to `write_bmp`. |
| `Bmp` | `bmp.dfy` | `bmp.cc` `write_bmp`, imperatively, over an `array`. It writes the header, then copies the pixels bottom row first, each channel to the same channel position (no channel reordering). The padding bytes are never written. |
| `MathCore` | `math.dfy` | The `math.hh` helpers: transposes, matrix expand and extract, scaling and translation matrices, `sign`, `clamp`, `mix`, the triangle intersection pre-processing, and the `pcg4d` random generator with its in-place seed update. |
| `MeshLoader` | `mesh.dfy` | `mesh.cc`: `read_string`, `strtol`/`strtof` scanning, `load_mtl`, the OBJ line parser, and `load_mesh`. `load_mesh` deduplicates corners, then appends to the mesh's vertex and index buffers (a class). |
| `Bvh` | `bvh.dfy` | `bvh.cc` `sort_nodes` and `build_recursive_sah`: in-place on the node array, with the SAH split search. The built tree is nested: every node's box encloses its children's boxes. |
| `BvhLayout` | `bvh_layout.dfy` | The rest of `bvh.cc`: breadth-first layout of the built tree, the eight direction-dependent link tables, `build_generic_bvh`, `build_blas`, `build_tlas` and `pop_bvh`, over a buffer class. |
| `RayQuery` | `rayquery.dfy` | `ray_query.hh`: the stackless traversal and the `ray_query` state machine (`initialize`, `enter_blas`, `traverse`, `test_triangle`, `proceed`, `confirm`). |
| `Scenes` | `scene.dfy` | `scene.cc`: gradient lookup, animation tracks, `add_instance`, `pull_instance_list`, `get_animation_frame_count`, and the reset, subframe TLAS build and relocation parts of `setup_animation_frame`. |
| `Config`, `Arith`, `Wrappers` | | Constants from `config.hh`, arithmetic helpers, and `Option`/`Result`. |

## Model

| member | source | states |
|---|---|---|
| Validator.MinP | validator.py:47 | Python's `min` of two PSNR values (a value or infinity) is one of its arguments and is no larger than either. |
| Validator.MaxP | validator.py:48 | `max` is one of its arguments and is no smaller than either. |
| Validator.FirstMissingRef | validator.py:33-36 | The index the abort reports has every earlier reference present, and its own reference missing unless it is the frame count. |
| Validator.Validate | validator.py:14-70 | With an argument count other than 3, the result is the usage message and nothing is written. With a missing reference, the result is the report up to that frame followed by the abort. Otherwise the result is the whole report plus the summary, and that same text is written to the output file. |
| Validator.ScanFrames | validator.py:27-56 | The loop's report text, success flag, PSNR sum, minimum and maximum are those of the first n frames, for every n. |
| Validator.FrameReport | validator.py:28-55 | One iteration appends exactly that frame's line to the report. |
| Validator.FrameStep | validator.py:27-56 | One iteration extends the sum, minimum, maximum and success flag from n frames to n+1. |
| Validator.GoodLine | validator.py:49-54 | A frame's line ends in " GOOD" exactly when its image is present and its PSNR is at least 32. A present image below 32 ends in " BAD, BROKEN IMAGE?". A missing image yields "NNNN: (missing image)". |
| Validator.SuccessOnlyFalls | validator.py:37-52 | Once a frame fails, the verdict stays failed for every longer prefix. |
| Validator.ReportPrefix | validator.py:55 | The report of fewer frames is a prefix of the report of more. |
| Validator.MinBounds | validator.py:25-47 | The running minimum is the sentinel 1000 or some present frame's PSNR, and is at most every present PSNR. |
| Validator.MaxBounds | validator.py:26-48 | The running maximum is the sentinel 0 or some present frame's PSNR, and is at least every present PSNR. |
| Validator.SumInfinite | validator.py:24-46 | The PSNR sum is infinite exactly when some present frame has an infinite PSNR. |
| Validator.Downscale | validator.py:43-44 | The 2x2 mean downscale gives a (h+1)/2 by (w+1)/2 image. Each sample is the truncated quarter of its block sum, with the missing samples counted as 0. |
| Validator.DownscaleUniformBlock | validator.py:43-44 | A block whose four samples are equal keeps that value. |
| Decimal.DecimalStringDigits | validator.py:28 | The decimal string of n is all digits and has no leading zero unless n is 0. |
| Decimal.ParseDecimalString | validator.py:28 | Parsing the decimal string of n gives back n. |
| Decimal.DecimalStringLength | main.cc:83 | Numbers below 10^k have at most k digits. |
| Decimal.ZFillShape | validator.py:28 | `zfill` pads with leading zeros to length max(width, length), keeping the string as its suffix. |
| Decimal.ParseZeros | main.cc:84 | Leading zeros do not change the parsed value. |
| Decimal.ZerosParse | main.cc:84 | A string of zeros parses to 0. |
| Decimal.FrameNameRoundTrip | validator.py:28 | For i below 10000 the padded name is exactly 4 digits and parses back to i. |
| Decimal.FrameNameInjective | validator.py:28 | Distinct frame indices below 10000 get distinct names. |
| Renderer.IndexString | main.cc:83-84 | The renderer's `%04u` index string equals the validator's `zfill(4)` name, and parses back to the index. |
| Renderer.OutputPathIsValidatorPath | main.cc:88 | The file the renderer writes for frame i is the file the validator reads for frame i. |
| Renderer.PixelDecomposition | main.cc:15-18 | Every pixel index splits into an in-range column and row that recompose to it. |
| Renderer.PixelIndexDecodes | main.cc:17-18 | Every in-range (x, y) is a pixel index that decomposes back to (x, y). |
| Renderer.Frame | main.cc:15-41 | A frame has one pixel per image position. |
| Renderer.BaselineRender | main.cc:11-44 | After the pixel loop the image is the frame, and pixel y*W+x holds the shade of (x, y). |
| Renderer.Bytes | main.cc:90 | The byte view of the pixels is four bytes per pixel. |
| Renderer.BytesAt | main.cc:90 | Bytes 4i to 4i+3 are pixel i's four channels. |
| Renderer.FrameImageValid | main.cc:87-91 | The arguments passed to `write_bmp` meet its requirements, and the file is 691254 bytes. |
| Renderer.FrameSample | main.cc:87-91 | Reading the written file back at row r, column x, channel c gives the frame's pixel channel c. |
| Renderer.RenderFrames | main.cc:64-92 | One file per frame, in frame order. File f is at the validator's path for frame f and holds the BMP of frame f's pixels, written into that frame's own fresh buffer. |
| Renderer.RunThisBuild | main.cc:64-92 | With the frame count fixed at 1, a run writes exactly one file, "output/frame_0000.bmp", holding frame 0. |
| Renderer.RenderedFileShowsFrame | main.cc:68-91 | Sample (r, x, c) of frame f's file is channel c of the shade of (f, x, r). |
| Bmp.OutPitchBounds | bmp.cc:15 | The padded row length is a multiple of 4, at least 3w, and less than 3w+4. |
| Bmp.Le16 | bmp.cc:33-34 | Two bytes, low first. |
| Bmp.Le32 | bmp.cc:22 | Four bytes, low first. |
| Bmp.Le32RoundTrip | bmp.cc:22 | Decoding a stored 32-bit little-endian value gives it back. |
| Bmp.Le16RoundTrip | bmp.cc:33-34 | Decoding a stored 16-bit value gives it back. |
| Bmp.Le32Canonical | bmp.cc:22 | Any four bytes are the encoding of the value they decode to. |
| Bmp.BmpFile | bmp.cc:7-62 | The file has the length the header announces. |
| Bmp.SrcInRange | bmp.cc:52 | Every input sample the pixel loop reads lies inside the input buffer. |
| Bmp.DstDecode | bmp.cc:52 | Each output position of the pixel loop decodes to a unique row, column and channel. |
| Bmp.PaddingDecode | bmp.cc:15-17 | Padding positions lie past the 3w pixel bytes of their row. |
| Bmp.BmpFileHeaderFields | bmp.cc:21-24 | The file header holds "BM", the file size and data offset 54. Bytes 6 to 9 (the reserved field, never written) equal the buffer's initial content. |
| Bmp.BmpInfoHeaderFields | bmp.cc:27-34 | The info header holds size 40, width, height, one plane and 24 bits per pixel. |
| Bmp.BmpInfoHeaderSizes | bmp.cc:35-44 | Compression is 0, the image size is correct, the resolution is 2835 per metre, and both palette counts are 0. |
| Bmp.ReadBack | bmp.cc:46-52 | Reading the file back, bottom row first, gives every input sample at its row, column and channel position. |
| Bmp.PutLe32 | bmp.cc:22 | The store writes the four little-endian bytes of the value and nothing else. |
| Bmp.PutLe16 | bmp.cc:33 | The store writes the two little-endian bytes and nothing else. |
| Bmp.WriteBmp | bmp.cc:7-62 | The bytes written are exactly the specified BMP file. |
| Bmp.WriteHeader | bmp.cc:20-44 | The 54 header bytes are the specified header. Everything else is unchanged. |
| Bmp.WriteFileHeader | bmp.cc:20-24 | Bytes 0 to 13 hold "BM", the file size and offset 54. Bytes 6 to 9 and everything past byte 13 are unchanged. |
| Bmp.WriteInfoDims | bmp.cc:26-34 | Bytes 14 to 29 hold info header size 40, width, height, one plane and 24 bits per pixel. All other bytes are unchanged. |
| Bmp.WriteInfoSizes | bmp.cc:35-44 | Bytes 30 to 53 hold compression 0, the pixel array size, resolution 2835 twice and two zero palette counts. All other bytes are unchanged. |
| Bmp.CopyPixels | bmp.cc:49-52 | Every pixel byte of every stored row holds its input sample. The header and padding are unchanged. |
| Bmp.CopyRow | bmp.cc:50-52 | One row's pixel bytes are copied. All other bytes are unchanged. |
| Bmp.RowPadded | bmp.cc:15-17 | Once a stored row's pixel bytes are written, the row's padding already matches the file, so the whole row is done. |
| Bmp.BmpFileHeader | bmp.cc:20-44 | The specified file's first 54 bytes are the header. |
| Bmp.BmpFilePixelAt | bmp.cc:52 | The byte the pixel loop writes for row y, column x, channel c holds the input sample that the loop reads for them. |
| Bmp.BmpFilePaddingAt | bmp.cc:15-17 | The specified file's padding bytes keep the buffer's initial content. |
| MathCore.Transpose2 | math.hh:155 | Element (i, j) of the result is element (j, i) of the argument. |
| MathCore.Transpose3 | math.hh:156-163 | Element (i, j) of the result is element (j, i) of the argument. |
| MathCore.Transpose4 | math.hh:164-172 | Element (i, j) of the result is element (j, i) of the argument. |
| MathCore.Transpose2Involution | math.hh:155 | Transposing twice is the identity. |
| MathCore.Transpose3Involution | math.hh:156-163 | Transposing twice is the identity. |
| MathCore.Transpose4Involution | math.hh:164-172 | Transposing twice is the identity. |
| MathCore.ExpandM3M4 | math.hh:268-276 | The 3x3 block is kept, the new row and column are 0, and the corner is 1. |
| MathCore.ExtractM4M3 | math.hh:278-285 | The result is the upper-left 3x3 block. |
| MathCore.ExtractExpand | math.hh:268-285 | Extracting an expanded matrix gives it back. |
| MathCore.MulM4V4 | math.hh:228 | Component j is the dot product of the vector with column j of the matrix. |
| MathCore.MulM3V3 | math.hh:227 | Component j is the dot product of the vector with column j of the matrix. |
| MathCore.Scaling | math.hh:320-328 | A diagonal matrix with the factors and 1. |
| MathCore.Translation | math.hh:330-338 | Rows 0 to 2 are those of the identity. Row 3 is the offset followed by 1. |
| MathCore.TranslationMovesPoints | math.hh:330-338 | Applying the translation to a point (w = 1) adds the offset. Applying it to a direction (w = 0) changes nothing. |
| MathCore.ScalingScales | math.hh:320-328 | Applying the scaling multiplies each component by its factor. |
| MathCore.Sign | math.hh:127-132 | The result is -1, 0 or 1, and r times the absolute value of x equals x. |
| MathCore.Clamp | math.hh:134-135 | The result is at most hi. When lo <= hi it lies in [lo, hi], and values inside the range are returned unchanged. |
| MathCore.ClampIdempotent | math.hh:134-135 | Clamping twice is clamping once. |
| MathCore.Mix | math.hh:145 | The result is a at t = 0 and b at t = 1. |
| MathCore.MixBetween | math.hh:145 | For t in [0, 1] the result lies between a and b. |
| MathCore.MajorAxis | math.hh:342-354 | An axis index from 0 to 2. |
| MathCore.MajorAxisIsLargest | math.hh:342-354 | The chosen component has the largest magnitude, and it is nonzero for a nonzero direction. |
| MathCore.RayTriangleIntersectionPreprocess | math.hh:340-356 | The returned axis is the major axis. After that axis is swapped into z, the z component is nonzero, and the shear constants are x/z, y/z and 1/z. |
| MathCore.Seed.constructor | math.hh:466 | The seed holds the given four words. |
| MathCore.Pcg4d | math.hh:465-473 | The seed is replaced by the pcg4d hash of its old value, and that hash is returned. |
| MathCore.GenerateUniformRandom4 | math.hh:475-485 | Advances the seed by exactly one pcg4d step and returns the new seed words. |
| MathCore.CrossCollision | math.hh:469 | The cross-mixing stage is not injective: the distinct vectors (0, 1, 1, 1) and (1, 0, 1, 2) mix to the same value. |
| MathCore.Pcg4dCollision | math.hh:466-473 | Two distinct seeds hash to the same pcg4d value, because their LCG images are the colliding pair of the cross-mixing stage. |
| MeshLoader.SkipSpaces | mesh.cc:49 | The result is at or past the start, within the text, and no white space follows it. |
| MeshLoader.TokenEnd | mesh.cc:52 | The result ends the token: at or past the start, at a space, a NUL or the end. |
| MeshLoader.LineEnd | mesh.cc:106 | The result is at or past the start, within the text, and at a newline or the end. |
| MeshLoader.SkipSpacesSkipsSpaces | mesh.cc:49 | Everything skipped is white space. |
| MeshLoader.TokenEndSpansToken | mesh.cc:52 | Everything in the token is neither a space nor a NUL. |
| MeshLoader.LineEndSpansLine | mesh.cc:106 | Everything skipped is neither a newline nor a NUL. |
| MeshLoader.SkipWhitespace | mesh.cc:49 | The scanning loop stops where SkipSpaces says. |
| MeshLoader.ScanToken | mesh.cc:52 | The scanning loop stops where TokenEnd says. |
| MeshLoader.SkipLine | mesh.cc:106 | The scanning loop stops where LineEnd says. |
| MeshLoader.NameAt | mesh.cc:47-54 | `read_string` skips white space, then takes a maximal run of non-space, non-NUL characters. |
| MeshLoader.ReadString | mesh.cc:47-54 | The method returns NameAt's name and the position after it. |
| MeshLoader.StrnEqualIsPrefix | mesh.cc:73 | `strncmp(cmd, name, strlen(cmd)) == 0` holds exactly when the command is a prefix of the name. An empty or truncated command therefore matches too. |
| MeshLoader.HexValue | mesh.cc:191 | The digit value of a character, at most 16. A character that is not a digit gets 16. |
| MeshLoader.DigitsEnd | mesh.cc:191 | The end of the digit run: within the text, and at a character that is not a digit. |
| MeshLoader.DigitsEndSpansDigits | mesh.cc:191 | Every character of the run is a digit, and the one after it is not. |
| MeshLoader.SignEnd | mesh.cc:191 | Skips at most one '+' or '-'. |
| MeshLoader.Strtol | mesh.cc:191 | `strtol` skips white space and a sign and reads digits. Without digits it consumes nothing and returns 0. |
| MeshLoader.ExponentEnd | mesh.cc:84-86 | The end of the exponent part, at or past its start and within the text. |
| MeshLoader.Strtof | mesh.cc:84-86 | The end lies within the text. When nothing is consumed the value is 0. Otherwise the value is the conversion of the text from after the skipped white space up to the end. |
| MeshLoader.Strtof2 | mesh.cc:181-182 | Two consecutive `strtof` reads; the end lies within the text. |
| MeshLoader.Strtof3 | mesh.cc:165-167 | Three consecutive `strtof` reads; the end lies within the text. |
| MeshLoader.SetLast | mesh.cc:82-105 | Replacing the open material keeps the state well formed, open, and with the same material count. |
| MeshLoader.MtlCommand | mesh.cc:73-105 | A command that is a prefix of `newmtl`, `newmtl` itself included, appends a default material with the name that follows. Any other command changes at most the last material. With no material open, nothing changes. |
| MeshLoader.MtlEdit | mesh.cc:82-105 | A property command never changes the material's name. |
| MeshLoader.MtlParse | mesh.cc:64-107 | The parse keeps the material state well formed. |
| MeshLoader.MtlParseKeepsEarlier | mesh.cc:64-107 | The material count never shrinks. Every material before the open one is unchanged. |
| MeshLoader.LoadMtlKeepsEarlier | mesh.cc:56-108 | The materials loaded before stay unchanged, as a prefix of the result. |
| MeshLoader.LoadMtl | mesh.cc:56-108 | The result is the materials parsed from the file, starting from the ones already loaded. |
| MeshLoader.EditMaterial | mesh.cc:82-105 | The method changes the fields as MtlEdit states. |
| MeshLoader.FindMaterial | mesh.cc:202-209 | The first material with that name, or None when no material has it. |
| MeshLoader.SelectMaterial | mesh.cc:199-210 | `usemtl` selects the first match, and an unknown name leaves the selection unchanged. |
| MeshLoader.FaceGroupAsWritten | mesh.cc:189-196 | The face corner exactly as parsed: `strtol` for the position, then each slash-separated index. The current material is attached. |
| MeshLoader.SkipSlash | mesh.cc:192 | Skips one '/' if present. |
| MeshLoader.FaceGroup | mesh.cc:189-196 | The corrected corner reader. When no '/' follows the position, the texture and normal indices are -1. The current material is attached. |
| MeshLoader.FaceGroupAgreesWithSlashes | mesh.cc:191-195 | On a corner written `v/t/n`, the as-written and corrected readers agree. |
| MeshLoader.FaceGroups | mesh.cc:187-197 | Reading n corners with the corrected reader gives n corners, each with the current material. |
| MeshLoader.FaceWithoutSlashesMisread | mesh.cc:191-195 | With the code as written, the face "a b c" (single digits) gives the first corner (a-1, b-1, c-1). The next corner is read at the end of the line and gives (-1, -1, -1). |
| MeshLoader.FaceWithoutSlashesRead | mesh.cc:187-197 | With the corrected reader, the face "a b c" gives three corners with positions a-1, b-1 and c-1 and no texture or normal. |
| MeshLoader.FaceWithoutSecondSlashMisread | mesh.cc:191-195 | With the code as written, a face starting "a/t b" (single digits) gives the first corner (a-1, t-1, b-1): the next corner's position becomes the normal index, and reading stops after it. |
| MeshLoader.FaceWithoutSecondSlashRead | mesh.cc:187-197 | With the corrected reader, the same face gives the first corner (a-1, t-1) with no normal, and reading stops right after the texture index. |
| MeshLoader.InitialObjState | mesh.cc:139-148 | The initial parser state is well formed. |
| MeshLoader.DirPrefix | mesh.cc:145 | The directory part of the path, including the last '/', is a prefix of the path. |
| MeshLoader.ObjCommand | mesh.cc:162-212 | One OBJ command fails only on an `mtllib` whose file is missing. It keeps the parser state well formed. Materials and face corners only grow. Face corners are read with the corrected reader FaceGroup. |
| MeshLoader.ObjParse | mesh.cc:153-214 | The line loop keeps the parser state well formed. |
| MeshLoader.ObjLoad | mesh.cc:145-214 | A missing OBJ file gives None. Otherwise the corners come in whole triangles. |
| MeshLoader.BlankTailAddsPosition | mesh.cc:155-169 | A blank last line is taken as a `v` command, because an empty command matches as a prefix. It adds the position (0,0,0). |
| MeshLoader.BlankTailAddsMaterial | mesh.cc:66-79 | A blank last line of an MTL file is taken as `newmtl`, for the same reason. It appends a material with an empty name. |
| MeshLoader.ObjLine | mesh.cc:162-213 | One line's dispatch agrees with ObjCommand, corrected face reader included. |
| MeshLoader.ParseObj | mesh.cc:150-214 | The parsing loop computes ObjParse. |
| MeshLoader.ScaledEmissionRange | mesh.cc:243-252 | The emission factor lies in [0, 1]. It is 1 exactly when the emission is positive and not below the threshold, and 0 exactly when the emission is 0. |
| MeshLoader.FirstIndex | mesh.cc:222-225 | The position of the first element equal to g. |
| MeshLoader.FirstIndexAppend | mesh.cc:222-225 | Appending a new value gives it the last index, and keeps the first index of every value already present. |
| MeshLoader.Dedup | mesh.cc:216-262 | One id per corner, and no more vertices than corners. |
| MeshLoader.DedupSound | mesh.cc:219-261 | Every corner maps to a vertex equal to it. The vertices are pairwise distinct, and every vertex is used by some corner. |
| MeshLoader.DedupSharesExactlyEqualCorners | mesh.cc:218-225 | Two corners share a vertex exactly when they are equal. |
| MeshLoader.MeshBuffers.constructor | mesh.hh:32-44 | The mesh buffers start empty. |
| MeshLoader.MeshBuffers.PushVertex | mesh.cc:255-258 | Appends one vertex. |
| MeshLoader.MeshBuffers.AppendGroups | mesh.cc:216-262 | The corner loop appends the deduplicated vertices and indices. |
| MeshLoader.MeshBuffers.AddCorner | mesh.cc:221-261 | A corner that was already seen reuses its vertex, and a new one appends a vertex. |
| MeshLoader.LoadMesh | mesh.cc:110-265 | On success: the mesh's offsets are the old buffer sizes, and the triangle count is a third of the corners. The appended indices are the deduplicated ids as they are, counted from the mesh's first vertex and not shifted by the vertex offset, which the mesh records separately. The vertex count is the number of distinct corners. Earlier vertices and indices are unchanged. On failure nothing changes. |
| Bvh.LeafBeforeOrder | bvh.cc:32-39 | The comparator of `sort_nodes` is irreflexive and asymmetric, and its complement is transitive. Two incomparable leaves have the same centroid and index. |
| Bvh.Insert | bvh.cc:31-40 | The result has exactly the elements of s plus x. |
| Bvh.InsertSorted | bvh.cc:31-40 | The insertion result is sorted. |
| Bvh.SortLeaves | bvh.cc:31-40 | The result is a permutation of the input. |
| Bvh.SortLeavesSorted | bvh.cc:31-40 | The result is sorted by the comparator. |
| Bvh.SortNodes | bvh.cc:28-41 | The array range is sorted along the axis and is a permutation of the old range. Everything outside the range is unchanged. |
| Bvh.PrefixHullEncloses | bvh.cc:73-76 | The left running bounds enclose every leaf of the prefix. |
| Bvh.SuffixHullEncloses | bvh.cc:79-82 | The right running bounds enclose every leaf of the suffix. |
| Bvh.SplitBounds | bvh.cc:71-83 | The two sweeps produce, at each split position, the hulls of both sides. |
| Bvh.BoundsStep | bvh.cc:73-82 | One sweep step extends the hull by one leaf. |
| Bvh.ScanAxis | bvh.cc:86-105 | The chosen split is no dearer than any candidate, and only a strictly cheaper candidate replaces the current best. |
| Bvh.FindSplit | bvh.cc:57-106 | The best split over all three axes. Each axis's order is a permutation of the leaves. |
| Bvh.TryAxis | bvh.cc:65-105 | Sorting and scanning one axis keeps the leaves permuted and yields that axis's best split. |
| Bvh.IndicesPermutation | bvh.cc:120 | Rebuilding the run in the chosen axis order is a permutation. |
| Bvh.NothingToGain | bvh.cc:108-113 | For a box of positive area, a leaf is made exactly when (n-2) times the area is at most the best split cost. |
| Bvh.LargestAxis | bvh.cc:115-117 | An axis whose extent is at least the extent of every other axis. |
| Bvh.LeafChildren | bvh.cc:126-129 | Every leaf becomes a child of the node. |
| Bvh.LeavesBuild | bvh.cc:122-130 | A node over a run of leaves is a well-formed subtree of exactly those leaves. |
| Bvh.BuildRecursive | bvh.cc:43-143 | The run is permuted within its range. The result is a well-shaped tree whose leaves are exactly the run's entries, and whose box is the box the caller passed in. A run of one entry gives a single leaf. For a longer run, the node either has one leaf child per entry, in run order, or two children built over the run split at some point 1 <= s < n. When `box` holds every leaf of the run and the run's entries are distinct, the tree is nested: every node's box encloses its children's boxes. |
| Bvh.BuildLeaves | bvh.cc:113-130 | The no-split case: the run is permuted within its range and sorted along the box's largest axis. The node carries that axis and has exactly one leaf child per entry, in the sorted order. When `box` holds every leaf of the run, the node's box encloses each leaf child's box. |
| Bvh.BuildSplit | bvh.cc:120-141 | The split case: the run is permuted within its range, and the node carries the split axis. It has two children: the tree over the first `split` entries, with the left box, and the tree over the rest, with the right box. When the two boxes are the hulls of the two sides of the order the split was searched in, and `box` holds the run, the node is nested. |
| Bvh.BuildSides | bvh.cc:138-141 | Both halves build and stay within their ranges. Each half's tree is nested when its box holds the half's leaves and their entries are distinct. |
| Bvh.BuildsPair | bvh.cc:134-141 | Two built halves form a built node over their concatenation. |
| Bvh.SplitAtPoint | bvh.cc:134-141 | Two children built over the run's two sides, split at m, make the node a split of the run. |
| Bvh.SplitJoin | bvh.cc:138-141 | The halves' permutations combine into one for the whole run. |
| Bvh.PrefixHullWithin | bvh.cc:73-76 | A box that holds every leaf of the run encloses each left running bound. |
| Bvh.SuffixHullWithin | bvh.cc:79-82 | A box that holds every leaf of the run encloses each right running bound. |
| Bvh.HoldsAllPermuted | bvh.cc:120 | A box that holds every leaf of a run holds every leaf of any reordering of it. |
| Bvh.UniqueSlice | bvh.cc:138-141 | Every slice of a run with distinct entries has distinct entries. |
| Bvh.UniqueSplit | bvh.cc:138-141 | Both sides of a run with distinct entries have distinct entries. |
| Bvh.UniquePermuted | bvh.cc:120 | Reordering a run keeps its entries distinct. |
| Bvh.UniqueApart | bvh.cc:36-38 | Two positions of a run with distinct entries hold different indices, so the comparator's index tie-break orders them. |
| Bvh.SortedHeads | bvh.cc:28-41 | Two sorted orders of the same run with distinct entries start with the same leaf. |
| Bvh.SortedOrderUnique | bvh.cc:120 | A run with distinct entries has exactly one order sorted by the centroid-then-index comparator. So the sort at line 120 gives back the order in which the split was searched. |
| Bvh.LeavesNested | bvh.cc:122-130 | Leaf children whose boxes lie in the node's box make a nested node. |
| Bvh.PairNested | bvh.cc:132-141 | Two nested children whose boxes lie in the node's box make a nested node. |
| Bvh.SplitSides | bvh.cc:120-136 | After the re-sort, each side of the split lies inside the box computed for it during the search, and both boxes lie inside any box around the run. |
| Bvh.SplitNested | bvh.cc:132-141 | The node over the two sides of a split is nested when both sides are. |
| Bvh.SearchedSplit | bvh.cc:86-106 | The split the search found is a split of the run, with the hulls of its sorted order as boxes. This holds whatever order the run is in now. |
| BvhLayout.TraverseBfs | bvh.cc:145-168 | The flattened array mirrors the tree in breadth-first order: one slot per node, the root first, children numbered consecutively. The output boxes are appended in that order. |
| BvhLayout.VisitLayer | bvh.cc:153-167 | Each layer's nodes are numbered after all the earlier layers. |
| BvhLayout.NumberedDone | bvh.cc:153 | After the last layer, every node has a number. |
| BvhLayout.NumberLayer | bvh.cc:155-164 | Numbering a layer keeps the earlier numbers and gives the children the next free numbers. |
| BvhLayout.LaysOutNumbers | bvh.cc:155-164 | Numbering a layer node by node stores each node with its box and child count. It gives each node a range of the next layer that holds its children, in layer order, and a parent to every next-layer entry. |
| BvhLayout.LaysOutSpans | bvh.cc:155-164 | Each node of a layer is stored with its box and child count. Its children's range lies inside the next layer, after the ranges of earlier nodes of the layer. |
| BvhLayout.LaysOutChildren | bvh.cc:162-163 | The children of each node of a layer are the next-layer entries at the indices of its range. |
| BvhLayout.LaysOutParents | bvh.cc:162-163 | Every entry of the next layer is a child of some node of the layer. |
| BvhLayout.NumberedTree | bvh.cc:145-168 | The numbered tree is well formed. |
| BvhLayout.LeafTagDecodes | bvh.cc:177 | A leaf link has the top bit set, its low 31 bits are the entry modulo 2^31, and it is below 2^32. An index below 2^31 is never read as a leaf. |
| BvhLayout.OrderedChild | bvh.cc:180-184 | The child visited k-th is one of the node's children. |
| BvhLayout.LinksFrame | bvh.cc:170-193 | Saving one subtree's links writes only that subtree's entries. |
| BvhLayout.ChildLinked | bvh.cc:181-191 | Linking child k keeps the links of the earlier children, and leaves the node's own link alone. |
| BvhLayout.InteriorLinked | bvh.cc:179-191 | A node whose hit link is its first child, and whose children are all linked, is linked as a whole. |
| BvhLayout.RootBoxEncloses | bvh.cc:201-207 | The root box encloses every leaf. |
| BvhLayout.RootBoxTight | bvh.cc:201-207 | For leaves within float range, the root box is the hull of their boxes. |
| BvhLayout.TableOrder | bvh.cc:218-225 | Tables stored at multiples of the node count do not overlap. |
| BvhLayout.PrefixKept | bvh.cc:218-225 | Writing a table of this BVH leaves the links of earlier BVHs unchanged. |
| BvhLayout.TableKept | bvh.cc:218-225 | Writing one table leaves the other tables unchanged. |
| BvhLayout.FoldRootBox | bvh.cc:200-207 | The root box loop computes RootBox. |
| BvhLayout.Resize | bvh.cc:289-290 | The result has the new length. It keeps the prefix and fills any new slots. |
| BvhLayout.ResizeUndoesAppend | bvh.cc:286-292 | Cutting back to the old size undoes an append. |
| BvhLayout.TriangleLeaves | bvh.cc:233-248 | One leaf per triangle, with entry index t. |
| BvhLayout.TriangleLeafEncloses | bvh.cc:243-247 | A triangle's leaf box encloses its three vertices. |
| BvhLayout.IndicesNumbered | bvh.cc:246 | The leaves' entries are 0, 1, ..., n-1. |
| BvhLayout.MovedCorners | bvh.cc:270-276 | Eight transformed points, one per corner of the box. |
| BvhLayout.CornersCovered | bvh.cc:274 | Every choice of min or max on each axis is one of the eight corners, at its index. |
| BvhLayout.PointHullEncloses | bvh.cc:278-279 | The hull of points encloses each of them. |
| BvhLayout.InstanceBox | bvh.cc:266-280 | An instance's box is the hull of its eight transformed mesh-box corners. |
| BvhLayout.InstanceLeaves | bvh.cc:258-282 | One leaf per listed instance, carrying that instance's index. |
| BvhLayout.IndicesOfInstances | bvh.cc:265 | The leaves' entries are the listed instance indices. |
| BvhLayout.BvhBuffers.constructor | bvh.hh:88-92 | The buffers start empty. |
| BvhLayout.BvhBuffers.SaveTraversalLinks | bvh.cc:170-193 | The links of the whole subtree follow the hit/miss rule for the direction. Entries outside the subtree are unchanged. |
| BvhLayout.BvhBuffers.LinkChild | bvh.cc:181-191 | Writes one child's hit and miss links. |
| BvhLayout.BvhBuffers.BuildGenericBvh | bvh.cc:195-229 | Appends the nodes breadth first, and eight link tables each linking the whole tree from the root. The leaves are a permutation of the old ones, and the tree built over them has the old leaves' root box. Earlier buffer contents are kept. When the leaves carry distinct entries, the tree is nested. |
| BvhLayout.BvhBuffers.BuildTree | bvh.cc:200-209 | The leaves are folded into the root box and the tree is built under it. The leaves are permuted, and the tree has them as leaves under the old leaves' root box. When their entries are distinct, the tree is nested. |
| BvhLayout.RootHoldsAll | bvh.cc:200-207 | The folded root box holds every leaf. |
| BvhLayout.UptoOnce | bvh.cc:246 | Numbering triangles by position gives each number once. |
| BvhLayout.BvhBuffers.AppendNodes | bvh.cc:211-215 | Appends the boxes in breadth-first order. |
| BvhLayout.BvhBuffers.SaveAllLinks | bvh.cc:217-226 | All eight tables are linked. |
| BvhLayout.BvhBuffers.SaveTable | bvh.cc:221-225 | One direction's table is linked, and the other tables are kept. |
| BvhLayout.BvhBuffers.PopBvh | bvh.cc:286-292 | The buffers are cut back to the BVH's offsets, or left unchanged when the BVH has no nodes. |
| BvhLayout.BvhBuffers.BuildBlas | bvh.cc:231-250 | The appended node array is the breadth-first flattening of a well-shaped tree. That tree's leaves are exactly the triangles 0..n-1, and its root box is the hull of the triangle boxes. The tree is nested: every node's box encloses its children's boxes. |
| BvhLayout.BvhBuffers.BuildTlas | bvh.cc:252-284 | The appended node array is the breadth-first flattening of a well-shaped tree. That tree's leaves are exactly the listed instance numbers, and its root box is the hull of the instance boxes. When the listed numbers are distinct, the tree is nested. |
| BvhLayout.BvhBuffers.BuildFrom | bvh.cc:249 | Appends the breadth-first flattening of a well-shaped tree whose leaves are exactly the given entries, with their root box. When the entries are distinct, the tree is nested. |
| BvhLayout.FlattensRoot | bvh.cc:145-168 | A flattened tree is non-empty, and its first slot describes the root. |
| RayQuery.DirIndex | ray_query.hh:135-138 | A table index in 0..7. |
| RayQuery.DirIndexSigns | ray_query.hh:135-138 | Bit k of the index is set exactly when the ray goes in the + direction along axis k. |
| RayQuery.LinkOffset | ray_query.hh:139-140 | The direction's table lies inside the BVH's eight tables. |
| RayQuery.InvComponent | ray_query.hh:130-133 | The inverse times the component is 1. A zero component gives the 1e40 stand-in. |
| RayQuery.CrossingOrder | ray_query.hh:200-203 | The near and far slab crossings are ordered. |
| RayQuery.SlabWidens | ray_query.hh:200-207 | A larger box gives a wider slab interval. |
| RayQuery.SlabHitEnclosing | ray_query.hh:200-207 | A ray that hits a box also hits every box enclosing it. |
| RayQuery.HitClimbs | bvh.hh:7-10 | In a nested tree, a ray that hits a node's box hits the box of every node above it, so pruning a missed subtree loses no hit. |
| RayQuery.DropHead | ray_query.hh:212-219 | Following a miss link removes the current subtree from the pending set. |
| RayQuery.EnterKids | ray_query.hh:215 | Following a hit link replaces the node by its children. |
| RayQuery.HeadLink | ray_query.hh:209-210 | The pending node's hit link carries the leaf bit exactly when the node is a leaf. A leaf's hit link carries its entry. |
| RayQuery.Traverse | ray_query.hh:184-223 | Traversal keeps the walk consistent, and the pending total decreases. A returned leaf is a leaf the ray hits, with its entry. Every node it passes over is interior, the returned leaf, or under a box the ray misses. |
| RayQuery.Visit | ray_query.hh:195-220 | One step either enters a hit node's children or skips a missed subtree. |
| RayQuery.LeafEntry | ray_query.hh:209 | A leaf's entry is below the leaf count, and the 31-bit mask leaves it unchanged. |
| RayQuery.StartWalk | ray_query.hh:139-144 | A fresh context starts a walk at the root of the direction's table. |
| RayQuery.Query.Initialize | ray_query.hh:111-151 | Sets the origin, direction, tmin and tmax. The TLAS context points at the direction's table root. No hit is recorded, and no BLAS is active. |
| RayQuery.Query.EnterBlas | ray_query.hh:153-182 | The local origin and direction are the world ones under the instance's inverse transform. The BLAS context points at the local direction's table root. The triangle axis is the local major axis. |
| RayQuery.Query.TestTriangle | ray_query.hh:225-246 | The candidate's distance, barycentrics and back-face flag come from the intersector. The result is true exactly when it hits strictly between tmin and tmax. |
| RayQuery.Query.Proceed | ray_query.hh:248-278 | True means a BLAS is active and the candidate is a hit of that instance strictly inside (tmin, tmax). False means the TLAS walk is exhausted and no BLAS is active. Each call strictly decreases the pending work. |
| RayQuery.Query.TlasStep | ray_query.hh:259-263 | One TLAS step either enters the hit instance's BLAS or ends the walk. |
| RayQuery.Query.BlasStep | ray_query.hh:264-274 | One BLAS step tests the leaf's triangle, or leaves the BLAS. |
| RayQuery.Query.Confirm | ray_query.hh:280-290 | The closest hit becomes the candidate, and tmax shrinks to its distance. |
| RayQuery.Query.ClosestHit | ray_query.hh:8-21 | The documented proceed/confirm loop terminates with the TLAS exhausted, and tmax never grows. The closest hit is untouched, or it is the last confirmed hit, with tmin < distance == tmax < the old tmax. |
| Scenes.LowerBound | scene.cc:14-17 | The first stop not before t, or the count. |
| Scenes.GetGradientValue | scene.cc:12-22 | At or before the first stop, the first stop's value. Past the last stop of a sorted gradient, the last stop's value. |
| Scenes.GradientBetween | scene.cc:21 | Between two stops, the value is the mix with a share in (0, 1], and each component lies between the stops' values. |
| Scenes.RatioBounds | scene.cc:21 | The interpolation share lies in (0, 1]. |
| Scenes.GradientAtStop | scene.cc:19-21 | At a stop's time the value is that stop's value. |
| Scenes.Progress | scene.cc:37 | A stop's progress lies in [0, 1]. It is 1 once the stop has ended or when it has no duration, and 0 before the stop starts. |
| Scenes.StopValueBounds | scene.cc:37-38 | The value a stop writes lies between its from and to values, and is the to value once the stop has ended. |
| Scenes.StartedPrefix | scene.cc:35 | The stops that have started form a prefix of the track. |
| Scenes.Apply | scene.cc:35-41 | One value per variable. |
| Scenes.LaterStopsWin | scene.cc:33-42 | After the track plays, each variable holds the value of the last started stop that drives it, or is unchanged when none does. |
| Scenes.PlayAnimationTrack | scene.cc:33-42 | The in-place loop applies exactly the started prefix of the stops, in order. |
| Scenes.GuardReadsPastEnd | scene.cc:35 | With the guard as written, the loop reads one element past the track exactly when all the remaining stops have started. |
| Scenes.GuardReads | scene.cc:35 | With the operands swapped, the reads are the as-written ones without the index past the end. All reads lie within the track. |
| Scenes.Pairs | scene.cc:84-88 | One pair per index of the range. An empty range gives none. |
| Scenes.PairsAt | scene.cc:84-88 | Pair k holds instance k of the range with number start+k. |
| Scenes.PairsNumbered | scene.cc:84-88 | Every pair's number is an index of the instance list, and the pair holds the instance at that index. |
| Scenes.SecondsPairs | scene.cc:84-88 | The numbers are exactly the range start..end. |
| Scenes.PulledNumbers | scene.cc:701-707 | The pulled list holds each static instance and each instance of the dynamic range exactly once. |
| Scenes.PulledCovers | scene.cc:701-708 | The pulled list covers the statics plus the range. |
| Scenes.PulledApart | scene.cc:75-91 | A dynamic range after the statics gives every instance number once, which is the condition under which `build_tlas`'s tree is nested. |
| Scenes.AppendPairs | scene.cc:84-85 | The loop appends the range's pairs. |
| Scenes.PullInstanceList | scene.cc:75-91 | The static pairs followed by the dynamic pairs. Every pair holds the instance at its own number. |
| Scenes.GetAnimationFrameCount | scene.cc:719-723 | The animation has 1800 frames, which is the validator's frame count. |
| Scenes.PlacedMoved | scene.cc:711-716 | Relocating a TLAS keeps it placed. |
| Scenes.AppendedPlaced | bvh.cc:211-228 | A newly built BVH is placed at the end of the buffers. |
| Scenes.RelocatedPlaced | scene.cc:713-715 | Moving a BVH's links keeps its contents. |
| Scenes.PlacedKept | bvh.cc:286-292 | Cutting the buffers back keeps every BVH below the cut placed. |
| Scenes.PlacedTraversable | ray_query.hh:193-222 | A placed TLAS satisfies what traversal needs. |
| Scenes.SubframeCount | scene.cc:648-650 | The smallest n with n times the samples per motion-blur step at least the samples per pixel: 256 / 8 = 32. |
| Scenes.StackedAppend | scene.cc:711-716 | Appending a TLAS right after the stack keeps it stacked. |
| Scenes.StackedOrdered | scene.cc:711-716 | Stacked TLASes lie within the stack's span, in increasing order, without overlapping. |
| Scenes.NewInstances | scene.cc:51-60 | One new instance per placement, in order. |
| Scenes.NewInstancesAt | scene.cc:51-60 | Instance k uses placement k's mesh and transform. |
| Scenes.FilledAppend | scene.cc:664-677 | Appending a subframe's instances fills its range. |
| Scenes.ContiguousAppend | scene.cc:664-677 | The subframe ranges stay contiguous. |
| Scenes.ContiguousBounds | scene.cc:664-677 | Each range of a contiguous list lies within its span. |
| Scenes.BlasesKept | scene.cc:273-277 | Any buffer change that keeps the BLAS prefix keeps every BLAS placed. |
| Scenes.Scene.constructor | scene.hh:40-65 | The scene starts empty. |
| Scenes.Scene.AddMeshBvhPair | scene.cc:44-49 | Adds the mesh under the name, with a BLAS appended at the end of the node buffer. Earlier nodes are kept. The flat tree filed for the name is the breadth-first layout of a well-shaped build tree whose leaves are the mesh's triangles 0 to n-1, each once, and whose root box is the hull of the triangles. |
| Scenes.Scene.FreezeStaticInstances | scene.cc:266 | The static count becomes the current instance count. |
| Scenes.Scene.AddInstance | scene.cc:51-60 | A known mesh name appends one instance of that mesh with the transform. An unknown name changes nothing and reports failure. |
| Scenes.Scene.AddInstanceAt | scene.cc:62-73 | Adds an instance from a position, scale and rotation. |
| Scenes.Scene.AddPlacements | scene.cc:51-60 | Appends the placements' instances. |
| Scenes.Scene.ClearFrame | scene.cc:273-277 | The instances are cut to the statics, and the buffers are cut back to the BLASes. |
| Scenes.Scene.AddSubframe | scene.cc:659-696 | Appends one subframe's instances and records its range. |
| Scenes.Scene.AddSubframes | scene.cc:659-696 | All subframes are added with contiguous ranges. |
| Scenes.Scene.BuildSubframeTlas | scene.cc:701-708 | Only that subframe's record changes. Its TLAS, in a fresh local buffer, is the flattening of a well-shaped tree whose leaves are the statics plus the subframe's range. |
| Scenes.Scene.BuildSubframeTlases | scene.cc:698-709 | One TLAS per subframe, each in its own fresh buffer. Each is the flattening of a well-shaped tree whose leaves are the statics plus that subframe's range. |
| Scenes.Scene.RelocateTlas | scene.cc:713-715 | The TLAS's nodes and links are appended to the shared buffers, and its record points at them. It stays placed. |
| Scenes.Scene.RelocateTlases | scene.cc:711-716 | All TLASes are moved and stay placed. |
| Scenes.Scene.ResetFrame | scene.cc:271-696 | The buffers are cut back to the BLASes. The instances are the old statics, then the new statics, then each subframe's dynamic instances in contiguous filled ranges. |
| Scenes.Scene.BuildFrameTlases | scene.cc:698-716 | The BLAS part of the buffers is unchanged. Each subframe's TLAS, as placed after the BLASes, is the flattening of a well-shaped tree whose leaves are the statics plus that subframe's range. |
| Scenes.Scene.SetupAnimationFrame | scene.cc:271-717 | The BLAS part of the buffers is unchanged. The instances are the old statics followed by the frame's new ones. The subframe ranges are contiguous and filled. Each subframe's placed TLAS is the flattening of a well-shaped tree whose leaves are the statics plus its range. The scene stays valid: every TLAS is placed and stacked. |

## Left out

- Floating point. Coordinates, areas, SAH costs, slab distances and gradients are exact reals. Rounding can change which split the SAH chooses, and which box a ray is said to hit; that is not modelled. The 1e40 stand-in for an infinite inverse direction is a real number here.
- The value semantics of `strtof` (decimal to binary rounding) are a parameter, `value`. Vector normalization is a parameter, `normalize`.
- `ray_triangle_intersection` itself is a parameter, the intersector. The model keeps what the query does with its result.
- `inverse4` and `rotation_euler` are parameters. `pcg4d`'s float conversion in `generate_uniform_random4` is not modelled. The outputs are the 32-bit words.
- The scene's animation data tables, the camera, lights, terrain and `load_scene` are not modelled, apart from freezing the static instance count. The placements of a frame are inputs to `setup_animation_frame`.
- `std::sort` is modelled as an insertion sort. It is one particular sorted permutation, and the source guarantees no particular order among equal keys.
- All file, console and timing I/O. File contents are inputs, and written files are outputs. The PSNR computation and image reading of `validator.py` are inputs, and `str(psnr)` is the parameter `fmt`. A failing `read_file` (which exits) is None.
- The path tracer kernel, the OpenCL and HIP host code (`cl_main.c`, `cl_main.cc`, `path_tracer.hh`) are not part of this model.
- Bvh.BuildRecursive: when no split candidate costs less than `FLT_MAX`, the source keeps `min_split` 0 and the axis -1. If the leaf test then fails, which needs a run longer than `FLT_MAX / area + 2` (three leaves about 1e20 wide), it sorts along axis -1 (bvh.cc:120) and recurses on zero leaves (bvh.cc:138). The model makes every leaf a child instead.
- Bvh.BuildRecursive: the tree is proved nested only when the run's entries are distinct. With a repeated entry, the re-sort at bvh.cc:120 need not give back the searched order, and the boxes of the sides are not shown to hold them.
- BvhLayout.BvhBuffers.BuildTlas: nested only when the listed numbers are distinct. Scenes.PulledApart shows this for a dynamic range past the statics; the subframe TLAS methods do not restate it.
- BvhLayout.BvhBuffers.BuildGenericBvh: requires at least one leaf. With none, the source sizes its vectors by `leaf_count - 1`, which wraps around.
- BvhLayout.BvhBuffers.BuildBlas: requires at least one triangle, for the same reason.
- BvhLayout.BvhBuffers.BuildTlas: requires at least one instance, for the same reason.
- RayQuery.Traverse: node indices and link fields are unbounded, and node counts must stay below 2^31 so that no interior index carries the leaf bit. The source's 32-bit wrap-around beyond that is not modelled.
- Bmp.WriteBmp: requires that the 32-bit sizes of `write_bmp` do not wrap and that the input holds `pitch * h` bytes. The source would write a corrupt header or read past its input.
- RayQuery.Query.Initialize: the BLAS context of a fresh query starts zeroed; the source leaves it uninitialised until the first `enter_blas`.
- MathCore.RayTriangleIntersectionPreprocess: requires a nonzero direction (the source divides by its major component). A query requires a nonzero local direction for the same reason.
- RayQuery.Query.ClosestHit: proves that the loop terminates and that tmax only shrinks, not that the hit it keeps is the nearest one.
- Scenes.Scene.SetupAnimationFrame: requires that every placement names a known mesh (the source's `at` throws otherwise). It returns the static instance count.
- MathCore.Pcg4d: the invertibility of the linear congruential stage is not proved.
- Scenes.Scene.AddMeshBvhPair: takes the already loaded mesh. Loading is MeshLoader.LoadMesh.
- Texture coordinates are parsed but not stored in the vertices, as in the source.
- MeshLoader.ObjCommand: an `f` line is read with the corrected corner reader FaceGroup, not FaceGroupAsWritten. For faces whose corners lack a second slash (`f 1 2 3`, `f 1/1 2/2 3/3`), the source's result differs; see Findings.
- MeshLoader.FaceGroups: reads corners with the corrected reader, so on faces whose corners lack a second slash (`f 1 2 3`, `f 1/1 2/2 3/3`) its result differs from the source's loop.
- MeshLoader.ObjLine: dispatches faces to the corrected reader, as ObjCommand does, so on faces whose corners lack a second slash (`f 1 2 3`, `f 1/1 2/2 3/3`) its result differs from the source's.
- MeshLoader.ObjParse: parses faces with the corrected reader, so faces whose corners lack a second slash (`f 1 2 3`, `f 1/1 2/2 3/3`) give the corrected corners, not the source's.
- MeshLoader.ParseObj: computes ObjParse, with the same corrected face reading, so on faces whose corners lack a second slash (`f 1 2 3`, `f 1/1 2/2 3/3`) its result differs from the source's.
- MeshLoader.ObjLoad: loads faces with the corrected reader, so its corners differ from the source's for faces whose corners lack a second slash (`f 1 2 3`, `f 1/1 2/2 3/3`).
- MeshLoader.LoadMesh: builds the mesh from ObjLoad's corrected corners. For a file with faces whose corners lack a second slash (`f 1 2 3`, `f 1/1 2/2 3/3`), the source's vertices and indices differ.
- MeshLoader.Strtof: only decimal notation is recognised: an optional sign, digits with an optional fraction, and an optional exponent. `strtof` also reads `inf`, `infinity`, `nan` and hexadecimal floats; here those consume nothing and give 0, so `v inf 0 0` gives (0, 0, 0), not (inf, 0, 0).
- MeshLoader.Strtol: the value is an unbounded integer. `strtol`'s saturation at LONG_MIN and LONG_MAX on overflow, and the narrowing of the `long` result to the `int` index fields, are not modelled.
- Validator.Validate: the running sum, minimum and maximum start as the Python integers 0, 1000 and 0. When no frame updates one of them, `str` prints it as "0" or "1000", not as a float. The model formats every value with the same `fmt`, so it does not tell the integer sentinels from floats.

## Findings

| source | as written | input that shows it | evidently intended | confidence | as-written member | corrected member |
|---|---|---|---|---|---|---|
| mesh.cc:191-195 | Each face corner's position is read with `strtol`, which skips leading white space. A corner with no slashes therefore swallows the next corner's number as its texture index, and the next number as its normal index. | `f 1 2 3` gives corners (0,1,2), (-1,-1,-1), (-1,-1,-1) | Each corner reads only its own indices, giving positions 0, 1, 2 | not executed | MeshLoader.FaceWithoutSlashesMisread | MeshLoader.FaceWithoutSlashesRead |
| mesh.cc:191-195 | After the texture index, the normal index is read with `strtol` whether or not a second slash follows. A corner `a/t` with no second slash therefore takes the next corner's position as its normal index. | `f 1/1 2/2 3/3` gives the first corner (0,0,1) | A normal index only after a second slash, giving the first corner (0,0) with no normal | not executed | MeshLoader.FaceWithoutSecondSlashMisread | MeshLoader.FaceWithoutSecondSlashRead |
| scene.cc:35 | The loop guard reads `anim->start <= t` before testing `stop_count > 0`. Once every remaining stop has started, it reads one element past the track. | Any track whose stops have all started by the frame time, such as the last frames of the animation | Test the count first | not executed | Scenes.GuardReadsPastEnd | Scenes.GuardReads |
