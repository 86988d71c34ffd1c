/** Model of the frame buffer and per-triangle setup of Nova/nova_render.c,
    the scanline renderer, which draws meshes in the layout of
    Nova/nova_geometry.h. The file-scope statics become the fields of one
    `Renderer` object; the pixel packing, the memset clear, the cull test,
    the shade floor and the ordering of a triangle's corners by y are
    modelled exactly, the matrices over `real`. */
module NovaRender {
  import opened NovaMath
  import opened CTypes
  import opened ObjScan
  import opened NovaGeometry

  // ---------------------------------------------------------------------
  // Pixels
  // ---------------------------------------------------------------------

  /** RGBA: `(r << 16) | (g << 8) | b | (a << 24)`. The four bytes occupy
      disjoint bits, so the OR is a sum: the word 0xAARRGGBB. */
  function RGBA(r: byte, g: byte, b: byte, a: byte): uint32 {
    (r as int * 0x1_0000 + g as int * 0x100 + b as int + a as int * 0x100_0000) as uint32
  }

  /** 2 to the power `shift`, for the four byte positions of a word. */
  function ByteUnit(shift: nat): (u: nat)
    requires shift == 0 || shift == 8 || shift == 16 || shift == 24
    ensures u > 0
  {
    if shift == 0 then 1 else if shift == 8 then 0x100 else if shift == 16 then 0x1_0000 else 0x100_0000
  }

  /** The channel stored `shift` bits up: `(w >> shift) & 0xFF`. */
  function Channel(w: uint32, shift: nat): byte
    requires shift == 0 || shift == 8 || shift == 16 || shift == 24
  {
    (w as int / ByteUnit(shift) % 0x100) as byte
  }

  /** Shift-and-mask recovers each channel RGBA packed. */
  lemma RgbaChannels(r: byte, g: byte, b: byte, a: byte)
    ensures var w := RGBA(r, g, b, a);
      Channel(w, 16) == r && Channel(w, 8) == g && Channel(w, 0) == b && Channel(w, 24) == a
  {
    var w := RGBA(r, g, b, a) as int;
    var q2 := a as int * 0x100 + r as int;
    var q1 := q2 * 0x100 + g as int;
    assert w == q1 * 0x100 + b as int;
    DivStep(q1, b as int);
    DivStep(q2, g as int);
    DivStep(a as int, r as int);
    DivStep(0, a as int);
    assert w / 0x1_0000 == q2 && w / 0x100_0000 == a as int;
  }

  /** Dividing k * 256 + d, a digit d, by 256 gives k and leaves d. */
  lemma DivStep(k: int, d: int)
    requires 0 <= d < 0x100
    ensures (k * 0x100 + d) / 0x100 == k && (k * 0x100 + d) % 0x100 == d
  {
  }

  /** Every pixel word is the packing of its four channels, so RGBA is a
      bijection between channel quadruples and words. */
  lemma {:induction false} RgbaOfChannels(w: uint32)
    ensures RGBA(Channel(w, 16), Channel(w, 8), Channel(w, 0), Channel(w, 24)) == w
  {
    var n := w as int;
    var q1, q2, q3 := n / 0x100, n / 0x1_0000, n / 0x100_0000;
    assert q2 == q1 / 0x100 && q3 == q2 / 0x100;
    assert n == q1 * 0x100 + n % 0x100;
    assert q1 == q2 * 0x100 + q1 % 0x100;
    assert q2 == q3 * 0x100 + q2 % 0x100;
    assert q3 < 0x100;
  }

  /** memset(p, c, n) converts `c` to unsigned char and writes that byte
      everywhere, so each 32-bit cell becomes four copies of c's low byte. */
  function MemsetWord(c: uint32): (w: uint32)
    ensures Channel(w, 0) == Channel(w, 8) == Channel(w, 16) == Channel(w, 24) == Channel(c, 0)
  {
    var b := (c as int % 0x100) as byte;
    RgbaChannels(b, b, b, b);
    assert Channel(c, 0) == b;
    assert b as int * 0x0101_0101 == RGBA(b, b, b, b) as int;
    RGBA(b, b, b, b)
  }

  /** memset with a packed colour does not paint that colour: it repeats the
      blue channel. Only a grey with full alpha such as RGBA(255, 255, 255,
      255) survives it. */
  lemma MemsetOfRgba(r: byte, g: byte, b: byte, a: byte)
    ensures MemsetWord(RGBA(r, g, b, a)) == RGBA(b, b, b, b)
  {
    RgbaChannels(r, g, b, a);
    var w := RGBA(r, g, b, a);
    assert w as int % 0x100 == b as int;
    assert (w as int % 0x100) as byte == b;
  }

  /** The number of cells `malloc(screen_width * screen_height *
      sizeof(uint32_t))` provides: the product is taken in unsigned int,
      so it wraps modulo 2^32 before the (64-bit) multiplication by 4. */
  function Cells(width: uint32, height: uint32): nat {
    (width as int * height as int) % 0x1_0000_0000
  }

  /** The cell set_pixel writes: `x + y * screen_width` in unsigned int. */
  function PixelIndex(x: uint32, y: uint32, width: uint32): nat {
    (x as int + y as int * width as int) % 0x1_0000_0000
  }

  /** On a screen whose cell count does not wrap, pixel (x, y) of the screen
      has a cell of its own: in the buffer, and giving back x and y. */
  lemma PixelIndexOnScreen(x: uint32, y: uint32, width: uint32, height: uint32)
    requires width as int * height as int < 0x1_0000_0000
    requires x < width && y < height
    ensures PixelIndex(x, y, width) < Cells(width, height)
    ensures PixelIndex(x, y, width) % width as int == x as int
    ensures PixelIndex(x, y, width) / width as int == y as int
  {
    var w, h := width as int, height as int;
    NoWrap(x as int, y as int, w, h);
    RowMajorFits(x as int, y as int, w, h);
    LinearDivMod(x as int, y as int, w);
  }

  /** The row-major index of a cell of a w x h grid is below w * h. */
  lemma RowMajorFits(x: int, y: int, w: int, h: int)
    requires 0 <= x < w && 0 <= y < h
    ensures x + y * w < w * h
  {
    MulMono(y + 1, h, w);
  }

  /** Within a column of the screen, the write is in bounds exactly for the
      rows of the screen (when neither product wraps). set_pixel checks
      nothing: a column x >= width lands in a later row instead (see
      ColumnOverflowWraps). */
  lemma PixelIndexInBoundsIff(x: uint32, y: uint32, width: uint32, height: uint32)
    requires width as int * height as int < 0x1_0000_0000
    requires x < width && x as int + y as int * width as int < 0x1_0000_0000
    ensures PixelIndex(x, y, width) < Cells(width, height) <==> y < height
  {
    var w, h := width as int, height as int;
    NoWrap(x as int, y as int, w, h);
    if y < height {
      RowMajorFits(x as int, y as int, w, h);
    } else {
      MulMono(h, y as int, w);
    }
  }

  /** Products of sizes are not negative, and below 2^32 they do not wrap. */
  lemma NoWrap(x: int, y: int, w: int, h: int)
    requires 0 <= x && 0 <= y && 0 <= w && 0 <= h
    ensures 0 <= y * w && 0 <= w * h
    ensures x + y * w < 0x1_0000_0000 ==> (x + y * w) % 0x1_0000_0000 == x + y * w
    ensures w * h < 0x1_0000_0000 ==> (w * h) % 0x1_0000_0000 == w * h
  {
    MulMono(0, y, w);
    MulMono(0, h, w);
  }

  /** Pixel (width, y) is the cell of pixel (0, y + 1). */
  lemma ColumnOverflowWraps(y: uint32, width: uint32)
    requires y as int + 1 < 0x1_0000_0000
    ensures PixelIndex(width, y, width) == PixelIndex(0, (y as int + 1) as uint32, width)
  {
    assert width as int + y as int * width as int == 0 + (y as int + 1) * width as int;
  }

  // ---------------------------------------------------------------------
  // The screen and projection matrices
  // ---------------------------------------------------------------------

  /** The matrix set_screen_size builds from the identity: NDC x in [-1, 1]
      to [0, width], NDC y in [1, -1] to [0, height]. */
  function ScreenMatrix(width: real, height: real): Matrix {
    var m := MatSet(MatSetIdentity(), 0, 0, width / 2.0);
    var m := MatSet(m, 1, 1, -height / 2.0);
    var m := MatSet(m, 0, 3, width / 2.0);
    MatSet(m, 1, 3, height / 2.0)
  }

  /** The screen matrix scales and shifts x and y and keeps z and w. */
  lemma ScreenMatrixMaps(width: real, height: real, v: Vector)
    ensures MatVecMul(ScreenMatrix(width, height), v)
         == Vector(width / 2.0 * (v.x + v.w), height / 2.0 * (v.w - v.y), v.z, v.w)
  {
    var s := ScreenMatrix(width, height);
    assert s[0][0] == width / 2.0 && s[0][1] == 0.0 && s[0][2] == 0.0 && s[0][3] == width / 2.0;
    assert s[1][0] == 0.0 && s[1][1] == -height / 2.0 && s[1][2] == 0.0 && s[1][3] == height / 2.0;
    assert s[2][0] == 0.0 && s[2][1] == 0.0 && s[2][2] == 1.0 && s[2][3] == 0.0;
    assert s[3][0] == 0.0 && s[3][1] == 0.0 && s[3][2] == 0.0 && s[3][3] == 1.0;
  }

  /** The corners of NDC: x = -1 goes to 0 and x = 1 to width; y = 1 goes
      to 0 and y = -1 to height. */
  lemma ScreenCorners(width: real, height: real, z: real)
    ensures MatVecMul(ScreenMatrix(width, height), Vector(-1.0, 1.0, z, 1.0)) == Vector(0.0, 0.0, z, 1.0)
    ensures MatVecMul(ScreenMatrix(width, height), Vector(1.0, -1.0, z, 1.0)) == Vector(width, height, z, 1.0)
  {
    ScreenMatrixMaps(width, height, Vector(-1.0, 1.0, z, 1.0));
    ScreenMatrixMaps(width, height, Vector(1.0, -1.0, z, 1.0));
  }

  /** The matrix RenderMesh applies to model-space vertices:
      `final_mat = screen_mat * proj_mat; render_mat = final_mat * mat`. */
  function RenderMatrix(screen: Matrix, proj: Matrix, model: Matrix): Matrix {
    MatMul(MatMul(screen, proj), model)
  }

  /** Applying the render matrix is applying the model matrix, then the
      projection, then the screen matrix. */
  lemma RenderMatrixComposes(screen: Matrix, proj: Matrix, model: Matrix, v: Vector)
    ensures MatVecMul(RenderMatrix(screen, proj, model), v)
         == MatVecMul(screen, MatVecMul(proj, MatVecMul(model, v)))
  {
    MatMulIsComposition(MatMul(screen, proj), model, v);
    MatMulIsComposition(screen, proj, MatVecMul(model, v));
  }

  /** `v_fov = h_fov * screen_height / screen_width`, in float. */
  function AspectFov(fov: real, width: uint32, height: uint32): (v: real)
    requires width != 0
    ensures v * width as real == fov * height as real
  {
    fov * height as real / width as real
  }

  const ZeroMatrix: Matrix := [[0.0, 0.0, 0.0, 0.0], [0.0, 0.0, 0.0, 0.0], [0.0, 0.0, 0.0, 0.0], [0.0, 0.0, 0.0, 0.0]]

  /** The file-scope statics of nova_render.c. */
  class Renderer {
    var screenWidth: uint32
    var screenHeight: uint32
    /** NULL until set_screen_size. */
    var pixelBuffer: array?<uint32>
    var hFov: real
    var vFov: real
    var screenMat: Matrix
    var projMat: Matrix

    /** The pixel buffer, once allocated, has one cell per pixel counted by
        set_screen_size. */
    ghost predicate Valid()
      reads this
    {
      pixelBuffer != null ==> pixelBuffer.Length == Cells(screenWidth, screenHeight)
    }

    /** Program start: static storage is zero-initialised. */
    constructor ()
      ensures Valid() && pixelBuffer == null
      ensures screenWidth == 0 && screenHeight == 0 && hFov == 0.0 && vFov == 0.0
      ensures screenMat == ZeroMatrix && projMat == ZeroMatrix
    {
      screenWidth, screenHeight := 0, 0;
      pixelBuffer := null;
      hFov, vFov := 0.0, 0.0;
      screenMat, projMat := ZeroMatrix, ZeroMatrix;
    }

    /** set_screen_size: the int arguments are stored as unsigned int, a
        new buffer of width * height cells replaces the old one, and the
        screen matrix is rebuilt from the signed arguments. */
    method SetScreenSize(width: int32, height: int32)
      modifies this
      ensures Valid()
      ensures screenWidth == ToUnsigned(width as int) && screenHeight == ToUnsigned(height as int)
      ensures pixelBuffer != null && fresh(pixelBuffer)
      ensures screenMat == ScreenMatrix(width as real, height as real)
      ensures hFov == old(hFov) && vFov == old(vFov) && projMat == old(projMat)
    {
      screenWidth := ToUnsigned(width as int);
      screenHeight := ToUnsigned(height as int);
      pixelBuffer := new uint32[Cells(screenWidth, screenHeight)];
      var m := MatSetIdentity();
      m := MatSet(m, 0, 0, width as real / 2.0);
      m := MatSet(m, 1, 1, -(height as real) / 2.0);
      m := MatSet(m, 0, 3, width as real / 2.0);
      m := MatSet(m, 1, 3, height as real / 2.0);
      screenMat := m;
    }

    /** set_fov: the vertical field of view keeps the screen's aspect
        ratio, and the projection uses near = 1 and far = 10. */
    method SetFov(tan: real -> real, fov: real)
      requires screenWidth != 0
      requires tan(HalfAngle(fov)) != 0.0
      requires tan(HalfAngle(AspectFov(fov, screenWidth, screenHeight))) != 0.0
      modifies this
      ensures screenWidth == old(screenWidth) && screenHeight == old(screenHeight)
      ensures hFov == fov && vFov == AspectFov(fov, screenWidth, screenHeight)
      ensures projMat == MatSetPerspective(tan, hFov, vFov, 1.0, 10.0)
      ensures forall v :: MatVecMul(projMat, v).w == -v.z
      ensures pixelBuffer == old(pixelBuffer) && screenMat == old(screenMat)
      ensures old(Valid()) ==> Valid()
    {
      hFov := fov;
      vFov := AspectFov(hFov, screenWidth, screenHeight);
      projMat := MatSetPerspective(tan, hFov, vFov, 1.0, 10.0);
    }

    /** set_pixel: one store at `x + y * screen_width`; nothing else
        changes. The caller keeps the cell inside the buffer. */
    method SetPixel(x: uint32, y: uint32, rgba: uint32)
      requires pixelBuffer != null && PixelIndex(x, y, screenWidth) < pixelBuffer.Length
      modifies pixelBuffer
      ensures pixelBuffer[..] == old(pixelBuffer[..])[PixelIndex(x, y, screenWidth) := rgba]
    {
      pixelBuffer[PixelIndex(x, y, screenWidth)] := rgba;
    }

    /** clear_pixel_buffer: a memset of the whole buffer with
        RGBA(255, 255, 255, 255), which makes every pixel opaque white. */
    method ClearPixelBuffer()
      requires Valid() && pixelBuffer != null
      modifies pixelBuffer
      ensures forall i :: 0 <= i < pixelBuffer.Length ==> pixelBuffer[i] == 0xFFFF_FFFF
    {
      MemsetOfRgba(0xFF, 0xFF, 0xFF, 0xFF);
      assert RGBA(0xFF, 0xFF, 0xFF, 0xFF) == 0xFFFF_FFFF;
      var fill := MemsetWord(RGBA(0xFF, 0xFF, 0xFF, 0xFF));
      forall i | 0 <= i < pixelBuffer.Length {
        pixelBuffer[i] := fill;
      }
    }
  }

  // ---------------------------------------------------------------------
  // Per-triangle setup in RenderMesh
  // ---------------------------------------------------------------------

  /** The triangle's normal indices n0, n1, n2 were written and index the
      mesh's normals (RenderMesh reads them unchecked). */
  predicate NormalsIndexed(normals: seq<Vector>, t: Tri) {
    && t.n.Some?
    && 0 <= t.n.value.i0 < |normals| && 0 <= t.n.value.i1 < |normals| && 0 <= t.n.value.i2 < |normals|
  }

  /** The sum of the triangle's three vertex normals, by two VecAdds. */
  function NormalSum(normals: seq<Vector>, t: Tri): Vector
    requires NormalsIndexed(normals, t)
  {
    VecAdd(VecAdd(normals[t.n.value.i0], normals[t.n.value.i1]), normals[t.n.value.i2])
  }

  /** `cull_vec = { 0.0f, 0.0f, -1.0f }`: the remaining w is zeroed. */
  const CullVec: Vector := Vector(0.0, 0.0, -1.0, 0.0)

  /** The cull test of RenderMesh: the dot product with the view direction
      (0, 0, -1) is negative exactly when the normal points towards the
      viewer, along +z. */
  predicate IsFrontFacing(n: Vector)
    ensures IsFrontFacing(n) <==> n.z > 0.0
  {
    VecDot3(CullVec, n) < 0.0
  }

  /** A triangle is drawn exactly when its normals' z components sum to a
      positive number. */
  lemma FrontFacingIff(normals: seq<Vector>, t: Tri)
    requires NormalsIndexed(normals, t)
    ensures IsFrontFacing(NormalSum(normals, t))
        <==> normals[t.n.value.i0].z + normals[t.n.value.i1].z + normals[t.n.value.i2].z > 0.0
  {
  }

  /** The loop of RenderMesh over the triangles, reduced to which of them
      pass the cull test and go on to be set up and drawn, in order. */
  method CullTriangles(normals: seq<Vector>, tris: seq<Tri>) returns (drawn: seq<nat>)
    requires forall k :: 0 <= k < |tris| ==> NormalsIndexed(normals, tris[k])
    ensures forall k :: k in drawn <==> 0 <= k < |tris| && IsFrontFacing(NormalSum(normals, tris[k]))
    ensures forall a, b :: 0 <= a < b < |drawn| ==> drawn[a] < drawn[b]
  {
    drawn := [];
    var i := 0;
    while i < |tris|
      invariant 0 <= i <= |tris|
      invariant forall k :: k in drawn <==> 0 <= k < i && IsFrontFacing(NormalSum(normals, tris[k]))
      invariant forall a, b :: 0 <= a < b < |drawn| ==> drawn[a] < drawn[b]
      invariant forall a :: 0 <= a < |drawn| ==> drawn[a] < i
    {
      var t := tris[i];
      var n := VecAdd(normals[t.n.value.i0], normals[t.n.value.i1]);
      n := VecAdd(n, normals[t.n.value.i2]);
      if VecDot3(CullVec, n) < 0.0 {
        drawn := drawn + [i];
      }
      i := i + 1;
    }
  }

  /** The C `max` macro: `a > b ? a : b`. */
  function Max(a: real, b: real): real {
    if a > b then a else b
  }

  /** The flat shade: `uint8_t color = max(64.0f, light * 255 + 0.5f)`. The
      conversion to uint8_t truncates; it is defined only below 256. */
  function ShadeColor(light: real): (c: byte)
    requires light * 255.0 + 0.5 < 256.0
    ensures 64 <= c
    ensures c as real <= Max(64.0, light * 255.0 + 0.5) < c as real + 1.0
  {
    Max(64.0, light * 255.0 + 0.5).Floor as byte
  }

  /** A light of at most 1 is always convertible, and a brighter light
      never gives a darker shade. */
  lemma ShadeMonotone(l1: real, l2: real)
    requires l1 <= l2 <= 1.0
    ensures l2 * 255.0 + 0.5 < 256.0
    ensures ShadeColor(l1) <= ShadeColor(l2)
  {
  }

  /** Above the floor the shade is light * 255 rounded to the nearest
      integer; below it, 64. */
  lemma ShadeRounds(light: real)
    requires light * 255.0 + 0.5 < 256.0
    ensures light * 255.0 + 0.5 < 64.0 ==> ShadeColor(light) == 64
    ensures light * 255.0 + 0.5 >= 64.0 ==>
      ShadeColor(light) as real - 0.5 <= light * 255.0 < ShadeColor(light) as real + 0.5
  {
  }

  /** The colour the spans are filled with: grey `color` at full alpha. */
  lemma ShadePixel(c: byte)
    ensures var w := RGBA(c, c, c, 0xFF);
      Channel(w, 16) == Channel(w, 8) == Channel(w, 0) == c && Channel(w, 24) == 0xFF
  {
    RgbaChannels(c, c, c, 0xFF);
  }

  /** The three compare-and-swaps on the top/mid/bot pointers, with the
      pointers to the corners v0, v1, v2 as indices 0, 1, 2. The result
      orders the corners by y, and corners with equal y keep their order. */
  method SortByY(corners: seq<Vector>) returns (top: nat, mid: nat, bot: nat)
    requires |corners| == 3
    ensures top < 3 && mid < 3 && bot < 3
    ensures {top, mid, bot} == {0, 1, 2}
    ensures corners[top].y <= corners[mid].y <= corners[bot].y
    ensures corners[top].y == corners[mid].y ==> top < mid
    ensures corners[mid].y == corners[bot].y ==> mid < bot
  {
    top, mid, bot := 0, 1, 2;
    var temp: nat;
    if corners[mid].y < corners[top].y {
      temp := top;
      top := mid;
      mid := temp;
    }
    if corners[bot].y < corners[mid].y {
      temp := mid;
      mid := bot;
      bot := temp;
    }
    if corners[mid].y < corners[top].y {
      temp := top;
      top := mid;
      mid := temp;
    }
  }
}
