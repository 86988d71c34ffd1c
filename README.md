# Nova software rasterizer — a Dafny model

Nova is a small software rasterizer written in C. This project models its
core:

- **Vector and matrix kernel** (`Nova/nova_math.c`, module `NovaMath`).
  These are pure functions over four-component vectors and 4x4 row-major
  matrices, with `real` in place of `float`.
- **Renderer state and per-triangle setup** (`Nova/nova_render.c`, module
  `NovaRender`). The file-scope statics become the fields of one `Renderer`
  class; the pixel buffer is an `array<uint32>`. The class covers
  set_screen_size, set_fov, set_pixel and clear_pixel_buffer. Beside it are
  RGBA packing, the order in which RenderMesh composes its matrices, the
  back-face cull test, the shade floor, and the sort of a triangle's corners
  by y.
- **Current OBJ loader and BMP decoder** (`Nova/nova_utility.c`, module
  `NovaUtility`).
  - The OBJ loader is modelled twice. A specification function `Load` folds
    the file's lines. The imperative `CreateMeshFromFile` pushes into
    growable buffers, and its contract says the result is `Load` of the
    file.
  - The BMP decoder reads a little-endian header. It then copies 24-bit
    texels row by row into an `array<uint32>`, following the code as
    written: the row skip is `(width * bpp / 8) % 4` and texel (x, y) goes
    to slot `x + y * height`. Its contract ties the buffer to the function
    `DecodeAsWritten`, which records for every slot the last texel written
    there, or nothing. A corrected decoder (`ReadTexelsCorrected`, specified
    by `DecodeTexels`) uses the format's padding and row-major slots. Lemmas
    show where the two agree and give inputs where they differ.
- **Earlier OBJ loader** (`Nova/nova_geometry.c`, module `NovaGeometry`).
  It has the `calc_normals` flag: until the first `vn` line, each face
  reserves a normal slot that nothing writes.

Shared pieces:

- **`Growable.GrowBuffer`** is the count/alloc/realloc-doubling buffer that
  both loaders write out inline for every element kind.
- **`ObjScan`** classifies lines by their first two characters and picks the
  face format through the `sscanf` fallback chain.
- **`CTypes`** holds the C integer types.

Inputs outside the model are parameters:

- **The file:** an optional sequence of lines or bytes, where `None` means
  `fopen` failed.
- **`sscanf`'s numeric conversions and `VecNormalize`:** the `Primitives`
  record.
- **`tanf`:** a `real -> real` function.

## Model

| member | source | states |
|---|---|---|
| NovaMath.MatSet | Nova/nova_render.c:28-31 | storing one matrix element changes that element and no other |
| NovaMath.VecCopy | Nova/nova_math.c:14-17 | the copy agrees with the source vector in all four components |
| NovaMath.VecAdd | Nova/nova_math.c:19-25 | subtracting either summand from the sum gives back the other |
| NovaMath.VecSub | Nova/nova_math.c:27-33 | the difference plus the subtrahend is the minuend, componentwise |
| NovaMath.VecDot4 | Nova/nova_math.c:49-52 | a vector's dot product with itself is non-negative |
| NovaMath.VecDot3 | Nova/nova_math.c:44-47 | the 3-component dot product is the 4-component one with either w zeroed |
| NovaMath.VecPerp2 | Nova/nova_math.c:54-60 | the result lies in the xy-plane, is orthogonal to the input, has the same squared xy-length, and is the quarter turn z x v (counter-clockwise) |
| NovaMath.VecCross3 | Nova/nova_math.c:62-68 | the cross product is a direction (w = 0) orthogonal to both operands |
| NovaMath.PerpTwiceIsHalfTurn | Nova/nova_math.c:54-60 | applying VecPerp2 twice negates x and y, a half turn |
| NovaMath.CrossAnticommutes | Nova/nova_math.c:62-68 | swapping the operands of VecCross3 negates the result |
| NovaMath.MatSetIdentity | Nova/nova_math.c:70-76 | every element is the Kronecker delta |
| NovaMath.MatSetTranslate | Nova/nova_math.c:78-84 | the translation matrix is a rigid transform whose column 3 holds (x, y, z) |
| NovaMath.TranslateMovesPoints | Nova/nova_math.c:78-84 | the translation matrix adds (x, y, z) scaled by w to a vector and keeps w |
| NovaMath.MatCopy | Nova/nova_math.c:121-124 | the copy agrees with the source matrix in every element |
| NovaMath.MatTranspose | Nova/nova_math.c:141-147 | element (i, j) of the result is element (j, i) of the input |
| NovaMath.MatTransposeInner | Nova/nova_math.c:149-155 | the upper-left 3x3 block is transposed, column 3 of rows 0-2 and all of row 3 are kept |
| NovaMath.MatInvert | Nova/nova_math.c:157-160 | the empty body leaves the output matrix exactly as it was |
| NovaMath.MatInvertRigidTransform | Nova/nova_math.c:162-169 | as written: the 3x3 block is transposed, element (0,3) ends as -m[2][3], elements (1,3) and (2,3) keep m's values, row 3 is copied |
| NovaMath.RigidInverse | Nova/nova_math.c:162-169 | the corrected inverse transposes the 3x3 block and keeps row 3 |
| NovaMath.MatSetPerspective | Nova/nova_math.c:110-119 | the x and y scales are the reciprocals of the tangents of the half fields of view; the depth row times (f - n) is (1, -n); the rows have no other nonzero entries in the first three rows; for every vector the projected w is the negated view-space z |
| NovaMath.PerspectiveMaps | Nova/nova_math.c:110-119 | a projected x times the horizontal tangent gives back x, and likewise y; a point's z maps to (z - n) / (f - n), 0 on the near plane and 1 on the far plane |
| NovaMath.ScaledRows | Nova/nova_math.c:110-119 | rows 0 and 1 with reciprocal-tangent diagonals scale x and y by 1 / tan |
| NovaMath.DepthRow | Nova/nova_math.c:110-119 | the depth row applied to a point with w = 1, times (f - n), is z - n |
| NovaMath.MatVecMulLinear | Nova/nova_math.c:126-132 | applying a matrix to a sum is the sum of the applications, w included |
| NovaMath.SubUndoesAdd | Nova/nova_math.c:19-33 | VecSub undoes VecAdd |
| NovaMath.TransposeInvolution | Nova/nova_math.c:141-147 | transposing twice gives back the matrix |
| NovaMath.TransposeInnerInvolution | Nova/nova_math.c:149-155 | inner-transposing twice gives back the matrix |
| NovaMath.IdentityFixesVectors | Nova/nova_math.c:126-132 | the identity matrix maps every vector to itself |
| NovaMath.IdentityIsUnit | Nova/nova_math.c:134-139 | the identity is a left and a right unit of MatMul |
| NovaMath.MatMulIsComposition | Nova/nova_math.c:126-139 | applying a product matrix is applying its right factor, then its left factor |
| NovaMath.TransposeOfProduct | Nova/nova_math.c:134-147 | the transpose of a product is the product of the transposes in reverse order |
| NovaMath.InvertRigidAsWrittenFailsOnTranslation | Nova/nova_math.c:165-167 | as written, inverting the translation by (1, 2, 3) sends the translated origin to (-2, 4, 6, 1), not back to the origin |
| NovaMath.RigidInverseIsLeftInverse | Nova/nova_math.c:162-169 | the corrected inverse times any rigid transform is the identity |
| NovaMath.RigidInverseUndoes | Nova/nova_math.c:162-169 | the corrected inverse undoes any rigid transform on every vector |
| CTypes.ToUnsigned | Nova/nova_render.c:20-21 | an int stored into an unsigned int keeps its value modulo 2^32 |
| NovaRender.RgbaChannels | Nova/nova_render.c:180-183 | shifting and masking the packed word recovers r at bit 16, g at bit 8, b at bit 0 and a at bit 24 |
| NovaRender.RgbaOfChannels | Nova/nova_render.c:180-183 | every 32-bit word is RGBA of its own four channels, so RGBA is a bijection |
| NovaRender.MemsetWord | Nova/nova_render.c:177 | memset fills every byte of each cell with the low byte of its int argument |
| NovaRender.MemsetOfRgba | Nova/nova_render.c:177 | memset with an RGBA value replicates its blue channel into all four channels |
| NovaRender.PixelIndexOnScreen | Nova/nova_render.c:48-51 | while width * height fits in 32 bits, an on-screen pixel's index lies in the buffer and gives back x as index mod width and y as index div width |
| NovaRender.PixelIndexInBoundsIff | Nova/nova_render.c:48-51 | for x < width, the index lies in the buffer if and only if y < height |
| NovaRender.ColumnOverflowWraps | Nova/nova_render.c:48-51 | x = width aliases the first pixel of the next row |
| NovaRender.ScreenMatrixMaps | Nova/nova_render.c:27-31 | the screen matrix sends x to width/2 (x + w), y to height/2 (w - y), and keeps z and w |
| NovaRender.ScreenCorners | Nova/nova_render.c:27-31 | the NDC corner (-1, 1) goes to pixel (0, 0) and (1, -1) to (width, height) |
| NovaRender.RenderMatrixComposes | Nova/nova_render.c:61-62 | the render matrix applies the model matrix, then the projection, then the screen matrix |
| NovaRender.AspectFov | Nova/nova_render.c:37 | the vertical field of view keeps the screen's aspect ratio: v_fov * width = h_fov * height |
| NovaRender.Renderer.constructor | Nova/nova_render.c:10-16 | static storage starts zeroed: no buffer, zero sizes and fields of view, zero matrices |
| NovaRender.Renderer.SetScreenSize | Nova/nova_render.c:18-32 | the sizes are the arguments converted to unsigned; a fresh buffer has one cell per pixel; the screen matrix is rebuilt; the fields of view and the projection are unchanged |
| NovaRender.Renderer.SetFov | Nova/nova_render.c:34-39 | h_fov is the argument; v_fov follows the aspect ratio; the projection uses near 1 and far 10 and maps w to -z; the sizes, buffer and screen matrix are unchanged |
| NovaRender.Renderer.SetPixel | Nova/nova_render.c:48-51 | exactly one cell, at x + y * width, now holds the colour; every other cell is unchanged |
| NovaRender.Renderer.ClearPixelBuffer | Nova/nova_render.c:174-178 | every cell of the buffer becomes 0xFFFFFFFF, opaque white |
| NovaRender.IsFrontFacing | Nova/nova_render.c:73-76 | a normal passes the cull test exactly when its z component is positive, towards the viewer |
| NovaRender.FrontFacingIff | Nova/nova_render.c:64-76 | a triangle passes the cull test exactly when the z components of its three normals sum to a positive number |
| NovaRender.CullTriangles | Nova/nova_render.c:64-76 | the triangles drawn are exactly those whose summed normal faces the camera, in mesh order |
| NovaRender.ShadeColor | Nova/nova_render.c:97-98 | the colour is at least 64 and is max(64, light * 255 + 0.5) truncated |
| NovaRender.ShadeMonotone | Nova/nova_render.c:97-98 | more light never gives a darker colour |
| NovaRender.ShadeRounds | Nova/nova_render.c:97-98 | light below the floor shades to exactly 64; above it the colour is light * 255 rounded to nearest |
| NovaRender.ShadePixel | Nova/nova_render.c:144 | a shaded pixel is grey, with equal red, green and blue, and alpha 255 |
| NovaRender.SortByY | Nova/nova_render.c:100-124 | top, mid and bot are a permutation of the three corners, ordered by y, and corners with equal y keep their order |
| ObjScan.KindOf | Nova/nova_utility.c:109-170 | a line is a vertex, normal, texture-coordinate or face line exactly when its first characters are "v ", "vn", "vt" or "f" |
| ObjScan.ScanFace | Nova/nova_utility.c:179-193 | the v/t/n format wins when it matches three fields, then v//n, then plain v; the values are that format's |
| ObjScan.Rebase | Nova/nova_utility.c:195-197 | the rebased indices are one less than the file's 1-based indices |
| NovaUtility.FaceOf | Nova/nova_utility.c:170-232 | a face carries its line's rebased vertex, uv and normal indices, and its vertex indices are in range |
| NovaUtility.Load | Nova/nova_utility.c:102-234 | the mesh has one vertex per "v" line, one normal per "vn" line, one uv per "vt" line and one triangle per "f" line |
| NovaUtility.WellFormedPrefix | Nova/nova_utility.c:102 | every prefix of a readable file is readable, and so is the next line |
| NovaUtility.VerticesInFileOrder | Nova/nova_utility.c:114-130 | the k-th vertex is the k-th "v" line's position with w = 1 |
| NovaUtility.NormalsInFileOrder | Nova/nova_utility.c:132-150 | the k-th normal is the normalised direction of the k-th "vn" line |
| NovaUtility.UvsInFileOrder | Nova/nova_utility.c:152-165 | the k-th texture coordinate is read from the k-th "vt" line |
| NovaUtility.StepCounts | Nova/nova_utility.c:109-233 | one pass of the loop adds one element to the list of its line's kind and none to the others |
| NovaUtility.StepFields | Nova/nova_utility.c:109-233 | one pass appends the parsed vertex, normal, uv or face to its own list, and other lines change nothing |
| NovaUtility.LoadStep | Nova/nova_utility.c:102-234 | loading one more line of a readable file appends exactly what that line parses to, to its own list |
| NovaUtility.TrianglesInFileOrder | Nova/nova_utility.c:170-232 | the k-th triangle carries the rebased indices of the k-th "f" line |
| NovaUtility.ReadFace | Nova/nova_utility.c:170-232 | one triangle, read against the vertices so far, is appended and nothing else in the buffer changes |
| NovaUtility.ReadVertex | Nova/nova_utility.c:114-130 | one parsed vertex is appended |
| NovaUtility.ReadNormal | Nova/nova_utility.c:132-150 | one normalised normal is appended |
| NovaUtility.ReadUv | Nova/nova_utility.c:152-165 | one texture coordinate is appended |
| NovaUtility.ReadVLine | Nova/nova_utility.c:111-168 | a "v", "vn" or "vt" line appends to its own buffer only; other "v" lines change nothing |
| NovaUtility.ReadLine | Nova/nova_utility.c:109-233 | each buffer grows by what the line adds to it under Load |
| NovaUtility.ReadNext | Nova/nova_utility.c:102-234 | after one more line the buffers hold Load of the longer prefix |
| NovaUtility.ReadLines | Nova/nova_utility.c:102-234 | after the fgets loop the buffers hold exactly Load of the file |
| NovaUtility.CreateMeshFromFile | Nova/nova_utility.c:74-277 | NULL exactly when the file cannot be opened; otherwise the mesh is Load of the file's lines |
| NovaUtility.ReadInt32 | Nova/nova_utility.c:25-33 | a little-endian 4-byte field is a signed 32-bit value |
| NovaUtility.ReadInt16 | Nova/nova_utility.c:35-37 | a little-endian 2-byte field is a signed 16-bit value |
| NovaUtility.Int32RoundTrip | Nova/nova_utility.c:25-33 | reading back the encoding of any int32 gives the value |
| NovaUtility.Int16RoundTrip | Nova/nova_utility.c:35-37 | reading back the encoding of any int16 gives the value |
| NovaUtility.ReadHeader | Nova/nova_utility.c:20-37 | the offset, width and height read are int32_t values and the bit count an int16_t value |
| NovaUtility.HeaderRoundTrip | Nova/nova_utility.c:20-37 | a header written with "BM" and the four fields at offsets 10, 18, 22 and 28 is recognised and reads back the same fields |
| CTypes.CRem | Nova/nova_utility.c:40 | C's `%` on int: quotient times divisor plus remainder is the dividend, the remainder is below the divisor in size and takes the dividend's sign |
| NovaUtility.RowPaddingAsWritten | Nova/nova_utility.c:40 | the skip as written is the row's byte count modulo 4 with C's truncating operators, between -3 and 3, negative only for a negative width * bpp |
| NovaUtility.RowPadding | Nova/nova_utility.c:40 | the corrected padding is under 4 and completes the row to a multiple of four bytes |
| NovaUtility.RowPaddingsAgree | Nova/nova_utility.c:40 | the skip as written equals the corrected padding exactly when the row's byte count is even |
| NovaUtility.RowPaddingAsWrittenMisaligns | Nova/nova_utility.c:40 | as written, a 1-pixel 24-bit row is followed by a 3-byte skip; that does not end on a 4-byte boundary, and the corrected skip is 1 byte |
| NovaUtility.TexelIndexAsWrittenCollides | Nova/nova_utility.c:50-51 | as written, texels (2, 0) and (0, 1) of a 3x2 image share slot 2 |
| NovaUtility.TexelIndexAsWrittenInBounds | Nova/nova_utility.c:42-51 | as written, every texel's slot lies inside the width * height buffer if and only if height <= width |
| NovaUtility.SlotAsWrittenInBounds | Nova/nova_utility.c:50-51 | with height <= width, slot `x + y * height` of every texel lies inside the buffer |
| NovaUtility.TexelIndexInverse | Nova/nova_utility.c:50-51 | the corrected row-major slot is in the buffer and gives back x and y |
| NovaUtility.SlotOfTexel | Nova/nova_utility.c:42-51 | every slot of the buffer belongs to exactly one texel |
| NovaUtility.TexelAt | Nova/nova_utility.c:50-51 | the texel's high byte stays 0xFF, and its low three bytes are the file's three bytes in order |
| NovaUtility.ReadTexel | Nova/nova_utility.c:50-51 | storing 0xffffffff and then freading 3 bytes changes exactly one slot, to the texel read at the file position |
| NovaUtility.LayoutAsWrittenReadable | Nova/nova_utility.c:40-55 | for a header the loops as written can follow, the pixel data start is in the file and each row advances the position (the skip is above -4) |
| NovaUtility.TexelInFileAsWritten | Nova/nova_utility.c:44-55 | every texel the loops as written read lies inside the file |
| NovaUtility.SlotAsWritten | Nova/nova_utility.c:46-51 | the slot pass k writes lies inside the width * height buffer |
| Wrappers.ScatterStep | Nova/nova_utility.c:50-51 | storing the k-th texel at the k-th slot takes a buffer in step with k passes to one in step with k + 1 |
| Wrappers.ScatterLastWrite | Nova/nova_utility.c:46-51 | a slot is left unwritten exactly when no pass targets it, and otherwise holds the texel of the last pass that targets it |
| Wrappers.ScatterInPlace | Nova/nova_utility.c:46-51 | when pass k writes slot k, after n passes the first n slots hold the texels in order and the rest are unwritten |
| NovaUtility.SquareFillsInOrder | Nova/nova_utility.c:46-55 | as written, a square image has every slot written, slot i with the i-th texel read |
| NovaUtility.AsWrittenMatchesCorrected | Nova/nova_utility.c:40-55 | as written and corrected decodes agree on every slot of a square image whose row byte count is even, read from a non-negative offset |
| NovaUtility.PaddingAsWrittenShiftsRows | Nova/nova_utility.c:40-54 | as written, a 3x3 24-bit image's second row starts 10 bytes after the first, where the corrected decode reads it 12 bytes after |
| NovaUtility.TexelsAsWrittenCollide | Nova/nova_utility.c:46-51 | as written, a 3x2 image ends with slot 2 holding texel (0, 1), so texel (2, 0) is lost, and slot 5 never written |
| NovaUtility.PassIndices | Nova/nova_utility.c:46-51 | pass x + y * width of the loops is column x of row y and writes slot `x + y * height` |
| NovaUtility.PassReads | Nova/nova_utility.c:48-51 | that pass reads texel (x, y) from its place in the file |
| NovaUtility.FillStep | Nova/nova_utility.c:50-51 | one more pass stores the next texel read at the next slot |
| NovaUtility.ReadStep | Nova/nova_utility.c:48-51 | a buffer in step with the passes so far, with texel (x, y) stored at `x + y * height`, is in step with one pass more |
| NovaUtility.ReadRow | Nova/nova_utility.c:48-54 | as written: after one row the buffer is in step with the passes through that row, and the file position has moved by 3 * width + row_padding to the next row |
| NovaUtility.ReadTexels | Nova/nova_utility.c:38-55 | as written: the buffer agrees with DecodeAsWritten in every slot some pass writes, reading from pixel_offset, or from byte 30 when that is negative |
| NovaUtility.TexelInFile | Nova/nova_utility.c:44-55 | corrected: the three bytes of every texel lie inside the file |
| NovaUtility.DecodedTexel | Nova/nova_utility.c:44-55 | corrected: the texel at (x, y) sits in slot x + y * width and is 0xFF000000 with the three file bytes at pixel_offset + y * stride + 3x in its low bytes |
| NovaUtility.NextRow | Nova/nova_utility.c:48-54 | corrected: skipping the padding after a row reaches the next row in the file and in the buffer |
| NovaUtility.ReadRowCorrected | Nova/nova_utility.c:48-54 | corrected: after one row the buffer agrees with the corrected decode up to that row's end, and the file position is at the next row |
| NovaUtility.ReadTexelsCorrected | Nova/nova_utility.c:40-55 | corrected: the filled buffer is exactly the corrected decode |
| NovaUtility.CreateTextureMapFromFile | Nova/nova_utility.c:10-61 | NULL exactly when the file cannot be opened; a zeroed texture without buffer unless the file starts with "BM"; otherwise the header's width and height, and, when both are positive, a buffer that agrees with DecodeAsWritten |
| Growable.GrowBuffer.constructor | Nova/nova_geometry.c:17-28 | the count starts at 0 with a one-element block |
| Growable.GrowBuffer.Grow | Nova/nova_geometry.c:51-57 | the count goes up by one; the block doubles exactly when the count exceeds it; counted elements are kept |
| Growable.GrowBuffer.SetLast | Nova/nova_geometry.c:61-64 | only the last counted slot changes |
| Growable.GrowBuffer.Push | Nova/nova_geometry.c:51-64 | the contents are the old contents plus the new element, and the block keeps the power-of-two growth invariant |
| Growable.GrowBuffer.Finish | Nova/nova_geometry.c:150-173 | the mesh array is an exact-size copy of the counted elements, empty (NULL) when there are none |
| NovaGeometry.Load | Nova/nova_geometry.c:38-148 | the mesh has one vertex per "v" line and one triangle per "f" line |
| NovaGeometry.WellFormedPrefix | Nova/nova_geometry.c:38 | every prefix of a readable file is readable, and so is the next line |
| NovaGeometry.FirstNormal | Nova/nova_geometry.c:68-69 | no line before the result is a "vn" line, and the line at the result, if any, is one: where calc_normals is switched off |
| NovaGeometry.NoNormalsIff | Nova/nova_geometry.c:68-69 | there are no "vn" lines exactly when no line is a "vn" line |
| NovaGeometry.CalcNormalsIff | Nova/nova_geometry.c:25-69 | calc_normals is still set after the file exactly when it has no "vn" line |
| NovaGeometry.NormalCount | Nova/nova_geometry.c:68-114 | the normals count is the number of "vn" lines plus the faces read before the first of them |
| NovaGeometry.ReservedUnwritten | Nova/nova_geometry.c:106-138 | the slots reserved in calc_normals mode come first and none of them is written |
| NovaGeometry.NormalsInFileOrder | Nova/nova_geometry.c:68-88 | after the reserved slots come the normalised "vn" directions in file order |
| NovaGeometry.ReservedBound | Nova/nova_geometry.c:106-114 | reserved slots never outnumber the faces |
| NovaGeometry.TriOf | Nova/nova_geometry.c:116-144 | a face stores normal indices exactly when calc_normals is off and the matched format has normals |
| NovaGeometry.ReservedStep | Nova/nova_geometry.c:97-114 | one more line reserves one more normal slot exactly when it is a face read before any "vn" line |
| NovaGeometry.LoadStep | Nova/nova_geometry.c:45-147 | one more line appends what it parses to its own list, reserves a slot for a face in calc_normals mode, and clears the flag exactly for a "vn" line |
| NovaGeometry.LoadLast | Nova/nova_geometry.c:45-147 | LoadStep for the file's last line |
| NovaGeometry.TrisInFileOrder | Nova/nova_geometry.c:97-146 | the k-th triangle is the k-th "f" line, with normal indices only when read after the first "vn" line and in a format that has them |
| NovaGeometry.VertsInFileOrder | Nova/nova_geometry.c:50-66 | the k-th vertex is the k-th "v" line's position with w = 1 |
| NovaGeometry.ReadVertex | Nova/nova_geometry.c:50-66 | one parsed vertex is appended |
| NovaGeometry.ReadNormal | Nova/nova_geometry.c:68-88 | one normalised normal is appended |
| NovaGeometry.ReadFace | Nova/nova_geometry.c:97-146 | one triangle is appended; in calc_normals mode one normal slot is reserved and the existing normals are kept |
| NovaGeometry.ReadVLine | Nova/nova_geometry.c:47-91 | a "v" or "vn" line appends to its own buffer; a "vn" line clears calc_normals |
| NovaGeometry.ReadLine | Nova/nova_geometry.c:45-147 | each buffer grows by what the line adds under Load, and the flag is cleared exactly by a "vn" line |
| NovaGeometry.ReadNext | Nova/nova_geometry.c:38-148 | after one more line the buffers agree with Load of the longer prefix |
| NovaGeometry.ReadLines | Nova/nova_geometry.c:38-148 | after the fgets loop the buffers agree with Load of the file |
| NovaGeometry.CreateMeshFromFile | Nova/nova_geometry.c:11-181 | NULL exactly when the file cannot be opened; otherwise the vertices and triangles are Load's, and the normals agree with Load's in every written slot |

## Left out

- Floating point: `float` arithmetic is exact `real` arithmetic here. Rounding, overflow to infinity and NaN comparisons are not captured.
- `sqrtf`, `tanf`, `sinf` and `cosf` are not interpreted. `VecNormalize` is the `normalize` field of the `Primitives` parameter, and `tanf` is a parameter of `MatSetPerspective` and `Renderer.SetFov`. VecSet, VecNormalize and MatSetRotX/Y/Z are not modelled: they only store values or call these library functions.
- `sscanf` number parsing is the `floats` and `ints` fields of `Primitives`; only the field counts it reports are used.
- NovaUtility.CreateMeshFromFile: requires every line it uses to be readable (`WellFormed`) and face vertex indices in range, because the source reads uninitialised locals and `v_buffer[v0]` unchecked otherwise.
- NovaGeometry.CreateMeshFromFile: requires every line it uses to be readable (`WellFormed`), for the same reason; the reserved normal slots are left unconstrained (`Agrees`), since they hold whatever the heap held.
- NovaGeometry.CreateMeshFromFile: a face is readable only when the format finally chosen matched all its fields (`FaceWellFormed`). In calc_normals mode the normal indices are never stored, so a `v/t/n` match of 7 or 8 fields or a `v//n` match of 5, which already set v0, v1 and v2, is harmless in the source; the model excludes those files too.
- NovaUtility.FaceOf: the face normal is `normalize` of the cross product of the two edge vectors, as in the source, but no lemma relates it to the triangle's geometry.
- fgets reads at most 79 characters at a time, so a longer line is split into several pieces; the model treats each input line as one piece.
- `malloc`, `calloc` and `realloc` failures, `free`, DestroyMesh and DestroyTextureMap are not modelled; neither is the leak of the loaders' buffers when `fopen` fails.
- `fopen`, `fread`, `fseek` and `fclose` become an optional in-memory file, on a little-endian host, as the source assumes when it freads integers.
- NovaUtility.CreateTextureMapFromFile: requires `BmpReadable`. For an image with positive width and height, this rules out short reads (the header and every texel lie inside the file), `int` overflow in `width * height * 4` and `width * bpp`, and height > width, where the slots `x + y * height` run past the buffer (undefined behaviour). Negative sizes, a negative bit count and a negative pixel offset are allowed: the loops then do not run, or `fseek` fails and reading starts at byte 30.
- NovaUtility.CreateTextureMapFromFile: with a non-positive width or height the buffer is None; what `malloc` returns for that size (NULL or an unwritten block) is not modelled.
- NovaUtility.ReadTexels: slots that no pass writes keep malloc's indeterminate contents, so the contract leaves them unconstrained (`Agrees` with a None slot).
- NovaUtility.ReadTexelsCorrected: models the corrected row padding and row-major slots from the Findings table, not the code; the code as written is ReadTexels.
- NovaUtility.ReadRowCorrected: models one row of the corrected decode, not the code as written.
- NovaUtility.DecodedTexel: states the corrected layout (padding completing the row, slot `x + y * width`), not the code as written.
- NovaRender.RGBA: written as the sum of four byte fields, which with disjoint bits equals the OR of shifts; the source's `a << 24` on a promoted `int` is signed overflow for `a >= 128`, and the model gives the evidently intended 0xAARRGGBB.
- RenderMesh: the matrix composition, cull, shade and corner sort are modelled; the perspective divide, the edge slopes, the two scanline loops and the light vector's normalisation are not, so the coordinates those loops pass to set_pixel are not bounded.
- NovaRender.Renderer.SetFov: requires a non-zero screen width; with zero width the source divides a float by 0 and stores infinity or NaN.
- NovaRender.Renderer.SetPixel: requires the index to lie inside the buffer; the source writes out of bounds otherwise (undefined behaviour).
- NovaRender.Renderer.ClearPixelBuffer: requires a non-NULL buffer, the source's `assert`.
- NovaRender.CullTriangles: requires every triangle's normal indices to be written and in range; in the earlier loader's calc_normals mode they are not, and RenderMesh then reads indeterminate indices.
- `size_t` is 64 bits: the model reduces `screen_width * screen_height` modulo 2^32, as the unsigned product does, before scaling by 4.
- get_pixel_buffer only returns the field, and the draw_line function pointer is never assigned in the core.
- The Win32 and OS X front-ends (window set-up, timers, blitting) are not part of this model.

## Findings

| source | as written | input that shows it | evidently intended | confidence | as-written member | corrected member |
|---|---|---|---|---|---|---|
| Nova/nova_math.c:165-167 | all three translation stores go to `r->e[0][3]`, and the translation is not rotated | the translation by (1, 2, 3): the inverse sends the translated origin (1, 2, 3, 1) to (-2, 4, 6, 1) | column 3 of the result is -R^T t, so the inverse undoes every rigid transform | high; not executed | NovaMath.InvertRigidAsWrittenFailsOnTranslation | NovaMath.RigidInverseUndoes |
| Nova/nova_utility.c:40 | row padding is `(width * bpp / 8) % 4` (RowPaddingAsWritten, used by ReadTexels) | a 1-pixel-wide 24-bit image: 3 bytes of padding are skipped, where 1 is needed; in a 3x3 24-bit image the second row is read 2 bytes early (PaddingAsWrittenShiftsRows) | the bytes that complete the row to a multiple of 4, `(4 - row % 4) % 4` | high; not executed | NovaUtility.RowPaddingAsWrittenMisaligns | NovaUtility.RowPadding |
| Nova/nova_utility.c:50-51 | texel (x, y) is stored at `x + y * height` (TexelIndexAsWritten, used by ReadTexels) | a 3x2 image: texels (2, 0) and (0, 1) both go to slot 2, the decoded buffer keeps (0, 1) there and never writes slot 5; a 1x2 image writes slot 2 of a 2-element buffer | row-major `x + y * width`, as in ReadTexelsCorrected | high; not executed | NovaUtility.TexelsAsWrittenCollide | NovaUtility.TexelIndexInverse |
