/** Model of Nova/nova_utility.c: the Wavefront OBJ mesh loader and the
    Windows BMP texture decoder, filling the types of Nova/nova_render.h.
    A file is given as its content: the lines fgets returns for the mesh,
    the bytes for the bitmap; `None` is a file fopen could not open. */
module NovaUtility {
  import opened NovaMath
  import opened ObjScan
  import opened Wrappers
  import opened Growable
  import opened CTypes

  // -----------------------------------------------------------------------
  // Types of Nova/nova_render.h written by this file
  // -----------------------------------------------------------------------

  /** struct Vertex; its `light` member is never written by the loader. */
  datatype Vertex = Vertex(pos: Vector)

  /** struct UVCoord. */
  datatype UVCoord = UVCoord(u: real, v: real)

  /** struct Triangle as the loader fills it: `n` holds n0..n2 and `uv`
      holds uv0..uv2, each `None` when the loader leaves those members
      unwritten (their values are indeterminate). The `material` member is
      never written. */
  datatype Triangle = Triangle(v0: int, v1: int, v2: int, n: Option<Index3>, uv: Option<Index3>, normal: Vector)

  /** struct Mesh. An empty sequence stands for a NULL array with a count
      of 0 (the mesh is calloc'd and a kind without elements is never
      allocated). `materials` is never filled and is left out. */
  datatype Mesh = Mesh(vertices: seq<Vertex>, triangles: seq<Triangle>, normals: seq<Vector>, uvcoords: seq<UVCoord>)

  // -----------------------------------------------------------------------
  // CreateMeshFromFile: specification
  // -----------------------------------------------------------------------

  /** A "v" line: w is set to 1. */
  function ParseVertex(p: Primitives, line: string): Vertex
    requires |p.floats(line)| >= 3
  {
    var f := p.floats(line);
    Vertex(Vector(f[0], f[1], f[2], 1.0))
  }

  /** A "vn" line: w is set to 0, then the normal is normalized. */
  function ParseNormal(p: Primitives, line: string): Vector
    requires |p.floats(line)| >= 3
  {
    var f := p.floats(line);
    p.normalize(Vector(f[0], f[1], f[2], 0.0))
  }

  /** A "vt" line: (u, v) as read. */
  function ParseUv(p: Primitives, line: string): UVCoord
    requires |p.floats(line)| >= 2
  {
    var f := p.floats(line);
    UVCoord(f[0], f[1])
  }

  /** A face line the loader can store while `n` vertices have been read:
      the chosen format matched all its fields and every vertex index
      refers to a vertex already read (the face normal reads them). */
  predicate FaceReadable(p: Primitives, line: string, n: nat) {
    && FaceWellFormed(p, line)
    && var (f, vals) := ScanFace(p, line);
       InRange1(FaceVertices(f, vals), n)
  }

  /** The indices of `t` are those of `line`, rebased to 0: the vertex
      indices always, the uv indices only for `v/t/n` (vts) and the normal
      indices only for `v/t/n` and `v//n` (vns). */
  predicate IndicesFrom(t: Triangle, p: Primitives, line: string)
    requires FaceWellFormed(p, line)
  {
    var (f, vals) := ScanFace(p, line);
    && Index3(t.v0, t.v1, t.v2) == Rebase(FaceVertices(f, vals))
    && t.uv == (if f == VertexUvNormal then Some(Rebase(FaceUvs(vals))) else None)
    && t.n == (if f != VertexOnly then Some(Rebase(FaceNormals(f, vals))) else None)
  }

  /** An "f" line, stored after `vertices` have been read. */
  function FaceOf(p: Primitives, line: string, vertices: seq<Vertex>): (t: Triangle)
    requires FaceReadable(p, line, |vertices|)
    ensures IndicesFrom(t, p, line)
    ensures 0 <= t.v0 < |vertices| && 0 <= t.v1 < |vertices| && 0 <= t.v2 < |vertices|
  {
    var (f, vals) := ScanFace(p, line);
    var v := Rebase(FaceVertices(f, vals));
    var e0 := VecSub(vertices[v.i1].pos, vertices[v.i0].pos);
    var e1 := VecSub(vertices[v.i2].pos, vertices[v.i0].pos);
    Triangle(v.i0, v.i1, v.i2,
             if f != VertexOnly then Some(Rebase(FaceNormals(f, vals))) else None,
             if f == VertexUvNormal then Some(Rebase(FaceUvs(vals))) else None,
             p.normalize(VecCross3(e0, e1)))
  }

  /** A line the loader can process after reading `n` vertices: sscanf
      matched every value the statement uses. */
  predicate LineReadable(p: Primitives, line: string, n: nat) {
    match KindOf(line)
    case VertexLine => |p.floats(line)| >= 3
    case NormalLine => |p.floats(line)| >= 3
    case UvLine => |p.floats(line)| >= 2
    case FaceLine => FaceReadable(p, line, n)
    case OtherLine => true
  }

  /** Every line is readable given the vertices before it. */
  predicate WellFormed(p: Primitives, lines: seq<string>)
    decreases |lines|
  {
    || lines == []
    || (&& WellFormed(p, lines[..|lines| - 1])
        && LineReadable(p, lines[|lines| - 1], |LinesOf(lines[..|lines| - 1], VertexLine)|))
  }

  /** One pass of the fgets loop: dispatch on the first two characters. */
  function Step(p: Primitives, m: Mesh, line: string): Mesh
    requires LineReadable(p, line, |m.vertices|)
  {
    match KindOf(line)
    case VertexLine => m.(vertices := m.vertices + [ParseVertex(p, line)])
    case NormalLine => m.(normals := m.normals + [ParseNormal(p, line)])
    case UvLine => m.(uvcoords := m.uvcoords + [ParseUv(p, line)])
    case FaceLine => m.(triangles := m.triangles + [FaceOf(p, line, m.vertices)])
    case OtherLine => m
  }

  /** The mesh the loader builds from `lines`: one Step per line, from an
      empty mesh. Each count is the number of lines of its kind. */
  function Load(p: Primitives, lines: seq<string>): (m: Mesh)
    requires WellFormed(p, lines)
    ensures |m.vertices| == |LinesOf(lines, VertexLine)|
    ensures |m.normals| == |LinesOf(lines, NormalLine)|
    ensures |m.uvcoords| == |LinesOf(lines, UvLine)|
    ensures |m.triangles| == |LinesOf(lines, FaceLine)|
    decreases |lines|
  {
    if lines == [] then Mesh([], [], [], [])
    else
      var prefix, last := lines[..|lines| - 1], lines[|lines| - 1];
      var m := Load(p, prefix);
      StepCounts(p, m, last);
      Step(p, m, last)
  }

  /** A Step adds one element to the list of its line's kind. */
  lemma StepCounts(p: Primitives, m: Mesh, line: string)
    requires LineReadable(p, line, |m.vertices|)
    ensures var r := Step(p, m, line);
      && |r.vertices| == |m.vertices| + (if KindOf(line) == VertexLine then 1 else 0)
      && |r.normals| == |m.normals| + (if KindOf(line) == NormalLine then 1 else 0)
      && |r.uvcoords| == |m.uvcoords| + (if KindOf(line) == UvLine then 1 else 0)
      && |r.triangles| == |m.triangles| + (if KindOf(line) == FaceLine then 1 else 0)
  {
  }

  /** A prefix of a well-formed file is well-formed, and the next line is
      readable after it. */
  lemma {:induction false} WellFormedPrefix(p: Primitives, lines: seq<string>, i: nat)
    requires WellFormed(p, lines) && i < |lines|
    ensures WellFormed(p, lines[..i])
    ensures LineReadable(p, lines[i], |LinesOf(lines[..i], VertexLine)|)
    decreases |lines|
  {
    var prefix := lines[..|lines| - 1];
    if i < |lines| - 1 {
      WellFormedPrefix(p, prefix, i);
      assert prefix[..i] == lines[..i];
    }
  }

  /** The k-th vertex is parsed from the k-th "v" line, with w = 1. */
  lemma {:induction false} VerticesInFileOrder(p: Primitives, lines: seq<string>)
    requires WellFormed(p, lines)
    ensures var m, ls := Load(p, lines), LinesOf(lines, VertexLine);
      forall k :: 0 <= k < |ls| ==> |p.floats(ls[k])| >= 3 && m.vertices[k] == ParseVertex(p, ls[k])
    decreases |lines|
  {
    if lines != [] {
      var prefix, last := lines[..|lines| - 1], lines[|lines| - 1];
      VerticesInFileOrder(p, prefix);
      var m := Load(p, prefix);
      assert Load(p, lines) == Step(p, m, last);
      if KindOf(last) == VertexLine {
        assert Load(p, lines).vertices == m.vertices + [ParseVertex(p, last)];
        assert LinesOf(lines, VertexLine) == LinesOf(prefix, VertexLine) + [last];
      } else {
        assert Load(p, lines).vertices == m.vertices;
        assert LinesOf(lines, VertexLine) == LinesOf(prefix, VertexLine);
      }
    }
  }

  /** The k-th normal is the normalized direction of the k-th "vn" line. */
  lemma {:induction false} NormalsInFileOrder(p: Primitives, lines: seq<string>)
    requires WellFormed(p, lines)
    ensures var m, ls := Load(p, lines), LinesOf(lines, NormalLine);
      forall k :: 0 <= k < |ls| ==> |p.floats(ls[k])| >= 3 && m.normals[k] == ParseNormal(p, ls[k])
    decreases |lines|
  {
    if lines != [] {
      var prefix, last := lines[..|lines| - 1], lines[|lines| - 1];
      NormalsInFileOrder(p, prefix);
      var m := Load(p, prefix);
      assert Load(p, lines) == Step(p, m, last);
      if KindOf(last) == NormalLine {
        assert Load(p, lines).normals == m.normals + [ParseNormal(p, last)];
        assert LinesOf(lines, NormalLine) == LinesOf(prefix, NormalLine) + [last];
      } else {
        assert Load(p, lines).normals == m.normals;
        assert LinesOf(lines, NormalLine) == LinesOf(prefix, NormalLine);
      }
    }
  }

  /** The k-th texture coordinate is read from the k-th "vt" line. */
  lemma {:induction false} UvsInFileOrder(p: Primitives, lines: seq<string>)
    requires WellFormed(p, lines)
    ensures var m, ls := Load(p, lines), LinesOf(lines, UvLine);
      forall k :: 0 <= k < |ls| ==> |p.floats(ls[k])| >= 2 && m.uvcoords[k] == ParseUv(p, ls[k])
    decreases |lines|
  {
    if lines != [] {
      var prefix, last := lines[..|lines| - 1], lines[|lines| - 1];
      UvsInFileOrder(p, prefix);
      var m := Load(p, prefix);
      assert Load(p, lines) == Step(p, m, last);
      if KindOf(last) == UvLine {
        assert Load(p, lines).uvcoords == m.uvcoords + [ParseUv(p, last)];
        assert LinesOf(lines, UvLine) == LinesOf(prefix, UvLine) + [last];
      } else {
        assert Load(p, lines).uvcoords == m.uvcoords;
        assert LinesOf(lines, UvLine) == LinesOf(prefix, UvLine);
      }
    }
  }

  /** The k-th triangle carries the rebased indices of the k-th "f" line. */
  lemma {:induction false} TrianglesInFileOrder(p: Primitives, lines: seq<string>)
    requires WellFormed(p, lines)
    ensures var m, ls := Load(p, lines), LinesOf(lines, FaceLine);
      forall k :: 0 <= k < |ls| ==> FaceWellFormed(p, ls[k]) && IndicesFrom(m.triangles[k], p, ls[k])
    decreases |lines|
  {
    if lines != [] {
      var prefix, last := lines[..|lines| - 1], lines[|lines| - 1];
      TrianglesInFileOrder(p, prefix);
      var m := Load(p, prefix);
      assert Load(p, lines) == Step(p, m, last);
      if KindOf(last) == FaceLine {
        assert Load(p, lines).triangles == m.triangles + [FaceOf(p, last, m.vertices)];
        assert LinesOf(lines, FaceLine) == LinesOf(prefix, FaceLine) + [last];
      } else {
        assert Load(p, lines).triangles == m.triangles;
        assert LinesOf(lines, FaceLine) == LinesOf(prefix, FaceLine);
      }
    }
  }

  // -----------------------------------------------------------------------
  // CreateMeshFromFile
  // -----------------------------------------------------------------------

  /** The face branch: try the three formats, rebase the indices, and
      compute the face normal from the vertices read so far. */
  method ReadFace(p: Primitives, line: string, vb: GrowBuffer<Vertex>, fb: GrowBuffer<Triangle>)
    requires vb.Valid() && fb.Valid()
    requires FaceReadable(p, line, |vb.Contents()|)
    modifies fb, fb.data
    ensures fb.Valid() && (fresh(fb.data) || fb.data == old(fb.data))
    ensures fb.Contents() == old(fb.Contents()) + [FaceOf(p, line, vb.Contents())]
  {
    var format, fields := VertexUvNormal, p.ints(line, VertexUvNormal);
    var vns, vts := true, true;
    if |fields| < 3 {
      format, fields := VertexNormal, p.ints(line, VertexNormal);
      vts := false;
    }
    if |fields| < 3 {
      format, fields := VertexOnly, p.ints(line, VertexOnly);
      vns := false;
    }
    var v := Rebase(FaceVertices(format, fields));
    var uv := if vts then Some(Rebase(FaceUvs(fields))) else None;
    var n := if vns then Some(Rebase(FaceNormals(format, fields))) else None;
    var e0 := VecSub(vb.data[v.i1].pos, vb.data[v.i0].pos);
    var e1 := VecSub(vb.data[v.i2].pos, vb.data[v.i0].pos);
    fb.Push(Triangle(v.i0, v.i1, v.i2, n, uv, p.normalize(VecCross3(e0, e1))));
  }

  /** One pass of the fgets loop over the four buffers: the statement of
      `line` is appended to the buffer of its kind. */
  method ReadLine(p: Primitives, line: string, vb: GrowBuffer<Vertex>, fb: GrowBuffer<Triangle>,
                  nb: GrowBuffer<Vector>, ub: GrowBuffer<UVCoord>)
    requires vb.Valid() && fb.Valid() && nb.Valid() && ub.Valid()
    requires LineReadable(p, line, |vb.Contents()|)
    modifies vb, vb.data, fb, fb.data, nb, nb.data, ub, ub.data
    ensures vb.Valid() && fb.Valid() && nb.Valid() && ub.Valid()
    ensures fresh(vb.data) || vb.data == old(vb.data)
    ensures fresh(fb.data) || fb.data == old(fb.data)
    ensures fresh(nb.data) || nb.data == old(nb.data)
    ensures fresh(ub.data) || ub.data == old(ub.data)
    ensures vb.Contents() == old(vb.Contents()) + (if KindOf(line) == VertexLine then [ParseVertex(p, line)] else [])
    ensures nb.Contents() == old(nb.Contents()) + (if KindOf(line) == NormalLine then [ParseNormal(p, line)] else [])
    ensures ub.Contents() == old(ub.Contents()) + (if KindOf(line) == UvLine then [ParseUv(p, line)] else [])
    ensures fb.Contents() == old(fb.Contents()) + (if KindOf(line) == FaceLine then [FaceOf(p, line, old(vb.Contents()))] else [])
  {
    if |line| > 0 && line[0] == 'v' {
      ReadVLine(p, line, vb, nb, ub);
    } else if |line| > 0 && line[0] == 'f' {
      ReadFace(p, line, vb, fb);
    }
  }

  /** A line starting with 'v': the second character tells a position, a
      normal and a texture coordinate apart; anything else is skipped. */
  method ReadVLine(p: Primitives, line: string, vb: GrowBuffer<Vertex>, nb: GrowBuffer<Vector>, ub: GrowBuffer<UVCoord>)
    requires vb.Valid() && nb.Valid() && ub.Valid()
    requires |line| > 0 && line[0] == 'v' && LineReadable(p, line, |vb.Contents()|)
    modifies vb, vb.data, nb, nb.data, ub, ub.data
    ensures vb.Valid() && nb.Valid() && ub.Valid()
    ensures fresh(vb.data) || vb.data == old(vb.data)
    ensures fresh(nb.data) || nb.data == old(nb.data)
    ensures fresh(ub.data) || ub.data == old(ub.data)
    ensures vb.Contents() == old(vb.Contents()) + (if KindOf(line) == VertexLine then [ParseVertex(p, line)] else [])
    ensures nb.Contents() == old(nb.Contents()) + (if KindOf(line) == NormalLine then [ParseNormal(p, line)] else [])
    ensures ub.Contents() == old(ub.Contents()) + (if KindOf(line) == UvLine then [ParseUv(p, line)] else [])
  {
    if |line| > 1 && line[1] == ' ' {
      ReadVertex(p, line, vb);
    } else if |line| > 1 && line[1] == 'n' {
      ReadNormal(p, line, nb);
    } else if |line| > 1 && line[1] == 't' {
      ReadUv(p, line, ub);
    }
  }

  /** A "v x y z" line: the position is stored with w = 1. */
  method ReadVertex(p: Primitives, line: string, vb: GrowBuffer<Vertex>)
    requires vb.Valid() && |p.floats(line)| >= 3
    modifies vb, vb.data
    ensures vb.Valid() && (fresh(vb.data) || vb.data == old(vb.data))
    ensures vb.Contents() == old(vb.Contents()) + [ParseVertex(p, line)]
  {
    var f := p.floats(line);
    vb.Push(Vertex(Vector(f[0], f[1], f[2], 1.0)));
  }

  /** A "vn x y z" line: the direction is stored normalized with w = 0. */
  method ReadNormal(p: Primitives, line: string, nb: GrowBuffer<Vector>)
    requires nb.Valid() && |p.floats(line)| >= 3
    modifies nb, nb.data
    ensures nb.Valid() && (fresh(nb.data) || nb.data == old(nb.data))
    ensures nb.Contents() == old(nb.Contents()) + [ParseNormal(p, line)]
  {
    var f := p.floats(line);
    nb.Push(p.normalize(Vector(f[0], f[1], f[2], 0.0)));
  }

  /** A "vt u v" line. */
  method ReadUv(p: Primitives, line: string, ub: GrowBuffer<UVCoord>)
    requires ub.Valid() && |p.floats(line)| >= 2
    modifies ub, ub.data
    ensures ub.Valid() && (fresh(ub.data) || ub.data == old(ub.data))
    ensures ub.Contents() == old(ub.Contents()) + [ParseUv(p, line)]
  {
    var f := p.floats(line);
    ub.Push(UVCoord(f[0], f[1]));
  }

  /** Step, field by field. */
  lemma StepFields(p: Primitives, m: Mesh, line: string)
    requires LineReadable(p, line, |m.vertices|)
    ensures Step(p, m, line) == Mesh(
      m.vertices + (if KindOf(line) == VertexLine then [ParseVertex(p, line)] else []),
      m.triangles + (if KindOf(line) == FaceLine then [FaceOf(p, line, m.vertices)] else []),
      m.normals + (if KindOf(line) == NormalLine then [ParseNormal(p, line)] else []),
      m.uvcoords + (if KindOf(line) == UvLine then [ParseUv(p, line)] else []))
  {
    match KindOf(line)
    case VertexLine =>
    case NormalLine =>
    case UvLine =>
    case FaceLine =>
    case OtherLine =>
      assert m.vertices + [] == m.vertices && m.triangles + [] == m.triangles;
      assert m.normals + [] == m.normals && m.uvcoords + [] == m.uvcoords;
  }

  /** The fgets loop: every line read into the four buffers, which start
      empty, leaves in them the lists of the mesh `Load` describes. */
  method ReadLines(p: Primitives, lines: seq<string>, vb: GrowBuffer<Vertex>, fb: GrowBuffer<Triangle>,
                   nb: GrowBuffer<Vector>, ub: GrowBuffer<UVCoord>)
    requires WellFormed(p, lines)
    requires vb.Valid() && fb.Valid() && nb.Valid() && ub.Valid()
    requires vb.Contents() == [] && fb.Contents() == [] && nb.Contents() == [] && ub.Contents() == []
    modifies vb, vb.data, fb, fb.data, nb, nb.data, ub, ub.data
    ensures vb.Valid() && fb.Valid() && nb.Valid() && ub.Valid()
    ensures Load(p, lines) == Mesh(vb.Contents(), fb.Contents(), nb.Contents(), ub.Contents())
  {
    var i := 0;
    while i < |lines|
      invariant 0 <= i <= |lines|
      invariant vb.Valid() && fb.Valid() && nb.Valid() && ub.Valid()
      invariant fresh(vb.data) || vb.data == old(vb.data)
      invariant fresh(fb.data) || fb.data == old(fb.data)
      invariant fresh(nb.data) || nb.data == old(nb.data)
      invariant fresh(ub.data) || ub.data == old(ub.data)
      invariant WellFormed(p, lines[..i])
      invariant Load(p, lines[..i]) == Mesh(vb.Contents(), fb.Contents(), nb.Contents(), ub.Contents())
    {
      ReadNext(p, lines, i, vb, fb, nb, ub);
      i := i + 1;
    }
    assert lines[..i] == lines;
  }

  /** Reads line `i` into buffers that hold the mesh of the lines before it. */
  method ReadNext(p: Primitives, lines: seq<string>, i: nat, vb: GrowBuffer<Vertex>, fb: GrowBuffer<Triangle>,
                  nb: GrowBuffer<Vector>, ub: GrowBuffer<UVCoord>)
    requires WellFormed(p, lines) && i < |lines| && WellFormed(p, lines[..i])
    requires vb.Valid() && fb.Valid() && nb.Valid() && ub.Valid()
    requires Load(p, lines[..i]) == Mesh(vb.Contents(), fb.Contents(), nb.Contents(), ub.Contents())
    modifies vb, vb.data, fb, fb.data, nb, nb.data, ub, ub.data
    ensures vb.Valid() && fb.Valid() && nb.Valid() && ub.Valid()
    ensures fresh(vb.data) || vb.data == old(vb.data)
    ensures fresh(fb.data) || fb.data == old(fb.data)
    ensures fresh(nb.data) || nb.data == old(nb.data)
    ensures fresh(ub.data) || ub.data == old(ub.data)
    ensures WellFormed(p, lines[..i + 1])
    ensures Load(p, lines[..i + 1]) == Mesh(vb.Contents(), fb.Contents(), nb.Contents(), ub.Contents())
  {
    LoadStep(p, lines, i);
    ReadLine(p, lines[i], vb, fb, nb, ub);
  }

  /** Loading one more line of a well-formed file is one more Step. */
  lemma LoadStep(p: Primitives, lines: seq<string>, i: nat)
    requires WellFormed(p, lines) && i < |lines|
    ensures WellFormed(p, lines[..i]) && WellFormed(p, lines[..i + 1])
    ensures LineReadable(p, lines[i], |Load(p, lines[..i]).vertices|)
    ensures var m, line := Load(p, lines[..i]), lines[i];
      Load(p, lines[..i + 1]) == Mesh(
        m.vertices + (if KindOf(line) == VertexLine then [ParseVertex(p, line)] else []),
        m.triangles + (if KindOf(line) == FaceLine then [FaceOf(p, line, m.vertices)] else []),
        m.normals + (if KindOf(line) == NormalLine then [ParseNormal(p, line)] else []),
        m.uvcoords + (if KindOf(line) == UvLine then [ParseUv(p, line)] else []))
  {
    WellFormedPrefix(p, lines, i);
    var next := lines[..i + 1];
    assert next[..|next| - 1] == lines[..i] && next[|next| - 1] == lines[i];
    assert Load(p, next) == Step(p, Load(p, lines[..i]), lines[i]);
    StepFields(p, Load(p, lines[..i]), lines[i]);
  }

  /** CreateMeshFromFile (nova_utility.c): NULL when the file cannot be
      opened, otherwise the mesh `Load` describes. The four buffers grow by
      doubling (GrowBuffer) and are copied at exact size at the end. */
  method CreateMeshFromFile(p: Primitives, file: Option<seq<string>>) returns (mesh: Option<Mesh>)
    requires file.Some? ==> WellFormed(p, file.value)
    ensures file.None? <==> mesh.None?
    ensures file.Some? ==> mesh == Some(Load(p, file.value))
  {
    var vb := new GrowBuffer<Vertex>();
    var fb := new GrowBuffer<Triangle>();
    var nb := new GrowBuffer<Vector>();
    var ub := new GrowBuffer<UVCoord>();

    if file.None? {
      return None;
    }
    ReadLines(p, file.value, vb, fb, nb, ub);
    var vertices := vb.Finish();
    var triangles := fb.Finish();
    var normals := nb.Finish();
    var uvcoords := ub.Finish();
    mesh := Some(Mesh(vertices, triangles, normals, uvcoords));
  }

  // -----------------------------------------------------------------------
  // CreateTextureMapFromFile: the Windows BMP decoder
  // -----------------------------------------------------------------------

  /** struct TextureMap; `None` is a NULL buffer. */
  datatype TextureMap = TextureMap(width: int, height: int, buffer: Option<seq<uint32>>)

  /** An int32_t read by fread from a little-endian file into a
      little-endian host. */
  function ReadInt32(bytes: seq<byte>, at: nat): (v: int)
    requires at + 4 <= |bytes|
    ensures -0x8000_0000 <= v < 0x8000_0000
  {
    var u := bytes[at] as int + 0x100 * bytes[at + 1] as int
           + 0x1_0000 * bytes[at + 2] as int + 0x100_0000 * bytes[at + 3] as int;
    if u < 0x8000_0000 then u else u - 0x1_0000_0000
  }

  /** An int16_t read the same way. */
  function ReadInt16(bytes: seq<byte>, at: nat): (v: int)
    requires at + 2 <= |bytes|
    ensures -0x8000 <= v < 0x8000
  {
    var u := bytes[at] as int + 0x100 * bytes[at + 1] as int;
    if u < 0x8000 then u else u - 0x1_0000
  }

  /** The little-endian two's-complement bytes of a 32-bit value: the
      reference encoding ReadInt32 inverts. */
  function Int32Bytes(v: int): (r: seq<byte>)
    requires -0x8000_0000 <= v < 0x8000_0000
    ensures |r| == 4
  {
    var u := v % 0x1_0000_0000;
    var q1 := u / 0x100;
    var q2 := q1 / 0x100;
    var q3 := q2 / 0x100;
    [(u % 0x100) as byte, (q1 % 0x100) as byte, (q2 % 0x100) as byte, q3 as byte]
  }

  /** The little-endian two's-complement bytes of a 16-bit value. */
  function Int16Bytes(v: int): (r: seq<byte>)
    requires -0x8000 <= v < 0x8000
    ensures |r| == 2
  {
    var u := v % 0x1_0000;
    [(u % 0x100) as byte, (u / 0x100) as byte]
  }

  lemma Int32RoundTrip(v: int)
    requires -0x8000_0000 <= v < 0x8000_0000
    ensures ReadInt32(Int32Bytes(v), 0) == v
  {
    var u := v % 0x1_0000_0000;
    assert u == if v >= 0 then v else v + 0x1_0000_0000;
    var r := Int32Bytes(v);
    Digits32(u);
    var s := r[0] as int + 0x100 * r[1] as int + 0x1_0000 * r[2] as int + 0x100_0000 * r[3] as int;
    assert s == u;
  }

  /** Base-256 digits of a 32-bit unsigned value. */
  lemma Digits32(u: int)
    requires 0 <= u < 0x1_0000_0000
    ensures var q1 := u / 0x100; var q2 := q1 / 0x100; var q3 := q2 / 0x100;
      u == u % 0x100 + 0x100 * (q1 % 0x100) + 0x1_0000 * (q2 % 0x100) + 0x100_0000 * q3 && q3 < 0x100
  {
    var q1 := u / 0x100;
    var q2 := q1 / 0x100;
    var q3 := q2 / 0x100;
    assert u == 0x100 * q1 + u % 0x100;
    assert q1 == 0x100 * q2 + q1 % 0x100;
    assert q2 == 0x100 * q3 + q2 % 0x100;
  }

  lemma Int16RoundTrip(v: int)
    requires -0x8000 <= v < 0x8000
    ensures ReadInt16(Int16Bytes(v), 0) == v
  {
    var u := v % 0x1_0000;
    assert u == if v >= 0 then v else v + 0x1_0000;
    assert u == 0x100 * (u / 0x100) + u % 0x100;
  }

  /** The fields of the BITMAPFILEHEADER and BITMAPINFOHEADER the decoder
      uses. */
  datatype BmpHeader = BmpHeader(pixelOffset: int, width: int, height: int, bpp: int)

  /** The two magic bytes 'B', 'M'. */
  predicate IsBmp(bytes: seq<byte>) {
    |bytes| >= 2 && bytes[0] == 0x42 && bytes[1] == 0x4D
  }

  /** bfOffBits at byte 10, biWidth at 18, biHeight at 22, biBitCount at 28.
      (The DIB header size at 14 is read and not used.) */
  function ReadHeader(bytes: seq<byte>): (h: BmpHeader)
    requires |bytes| >= 30
    ensures HeaderInRange(h)
  {
    BmpHeader(ReadInt32(bytes, 10), ReadInt32(bytes, 18), ReadInt32(bytes, 22), ReadInt16(bytes, 28))
  }

  /** Every field within the range of its C type: int32_t for the offset
      and the sizes, int16_t for the bit count. */
  predicate HeaderInRange(h: BmpHeader) {
    && -0x8000_0000 <= h.pixelOffset < 0x8000_0000
    && -0x8000_0000 <= h.width < 0x8000_0000
    && -0x8000_0000 <= h.height < 0x8000_0000
    && -0x8000 <= h.bpp < 0x8000
  }

  /** A 30-byte header holding `h` as the BMP format lays it out: magic,
      file size and reserved words (zero here), bfOffBits, a 40-byte
      BITMAPINFOHEADER's size, width, height, one plane and the bit count. */
  function HeaderBytes(h: BmpHeader): (r: seq<byte>)
    requires HeaderInRange(h)
    ensures |r| == 30
  {
    [0x42, 0x4D] + Int32Bytes(0) + Int32Bytes(0) + Int32Bytes(h.pixelOffset) + Int32Bytes(40)
      + Int32Bytes(h.width) + Int32Bytes(h.height) + Int16Bytes(1) + Int16Bytes(h.bpp)
  }

  /** ReadInt32 reads exactly the four bytes at `at`. */
  lemma ReadInt32Slice(bytes: seq<byte>, at: nat)
    requires at + 4 <= |bytes|
    ensures ReadInt32(bytes, at) == ReadInt32(bytes[at..at + 4], 0)
  {
  }

  /** The decoder reads back every field a BMP header holds at its offset. */
  lemma HeaderRoundTrip(h: BmpHeader)
    requires HeaderInRange(h)
    ensures IsBmp(HeaderBytes(h)) && ReadHeader(HeaderBytes(h)) == h
  {
    var r := HeaderBytes(h);
    assert r[10..14] == Int32Bytes(h.pixelOffset);
    assert r[18..22] == Int32Bytes(h.width);
    assert r[22..26] == Int32Bytes(h.height);
    assert r[28..30] == Int16Bytes(h.bpp);
    Int32RoundTrip(h.pixelOffset);
    Int32RoundTrip(h.width);
    Int32RoundTrip(h.height);
    Int16RoundTrip(h.bpp);
    ReadInt32Slice(r, 10);
    ReadInt32Slice(r, 18);
    ReadInt32Slice(r, 22);
  }

  // Row layout

  /** `texture->width * bpp / 8`: the bytes of pixel data in one row. */
  function RowBytes(width: int, bpp: int): int
    requires width >= 0 && bpp >= 0
  {
    width * bpp / 8
  }

  /** The row padding as written, `(texture->width * bpp / 8) % 4`, with
      C's truncating `/` and `%` on int: the row's byte count modulo 4, not
      the bytes that complete it to a multiple of 4. */
  function RowPaddingAsWritten(width: int, bpp: int): (pad: int)
    ensures -4 < pad < 4
    ensures width >= 0 && bpp >= 0 ==> pad == RowBytes(width, bpp) % 4
  {
    CRem(CQuot(width * bpp, 8), 4)
  }

  /** BMP rows are padded to a multiple of four bytes: the least number of
      bytes that completes the row. */
  function RowPadding(width: int, bpp: int): (pad: int)
    requires width >= 0 && bpp >= 0
    ensures 0 <= pad < 4
    ensures (RowBytes(width, bpp) + pad) % 4 == 0
  {
    (4 - RowBytes(width, bpp) % 4) % 4
  }

  /** A one-pixel-wide 24-bit image: the row holds 3 bytes, so 1 byte of
      padding follows; the code as written skips 3, and the next row is read
      two bytes too late. */
  lemma RowPaddingAsWrittenMisaligns()
    ensures RowBytes(1, 24) == 3
    ensures RowPaddingAsWritten(1, 24) == 3 && (RowBytes(1, 24) + RowPaddingAsWritten(1, 24)) % 4 != 0
    ensures RowPadding(1, 24) == 1
  {
  }

  /** Where texel (x, y) lands in the buffer, as written: `x + y * height`. */
  function TexelIndexAsWritten(x: int, y: int, height: int): int {
    x + y * height
  }

  /** Row-major: texel (x, y) at `x + y * width`. */
  function TexelIndex(x: int, y: int, width: int): int {
    x + y * width
  }

  /** As written, a 3x2 image stores texels (2, 0) and (0, 1) in the same
      slot, so one of them is lost. */
  lemma TexelIndexAsWrittenCollides()
    ensures TexelIndexAsWritten(2, 0, 2) == TexelIndexAsWritten(0, 1, 2) == 2
  {
  }

  /** As written, the texels of a width x height image stay inside the
      width * height buffer exactly when height <= width; a 1x2 image writes
      its second texel at index 2 of a 2-element buffer. */
  lemma TexelIndexAsWrittenInBounds(width: int, height: int)
    requires width >= 1 && height >= 1
    ensures (forall x, y :: 0 <= x < width && 0 <= y < height ==> 0 <= TexelIndexAsWritten(x, y, height) < width * height)
        <==> height <= width
    ensures TexelIndexAsWritten(0, 1, 2) == 2 == 1 * 2
  {
    if height <= width {
      forall x, y | 0 <= x < width && 0 <= y < height
        ensures 0 <= TexelIndexAsWritten(x, y, height) < width * height
      {
        SlotAsWrittenInBounds(x, y, width, height);
      }
    } else {
      var x, y := width - 1, height - 1;
      assert TexelIndexAsWritten(x, y, height) == (width - 1) + (height - 1) * height;
      MulMono(width, height - 1, height);
      assert (height - 1) * height >= width * height;
    }
  }

  /** With height <= width, the slot `x + y * height` of texel (x, y) lies
      inside the width * height buffer. */
  lemma SlotAsWrittenInBounds(x: int, y: int, width: int, height: int)
    requires 0 <= x < width && 0 <= y < height && height <= width
    ensures 0 <= TexelIndexAsWritten(x, y, height) < width * height
  {
    MulMono(y, height - 1, height);
    MulMono(height, width, height - 1);
    assert x + y * height <= (width - 1) + (height - 1) * height;
    assert (height - 1) * height <= (height - 1) * width;
  }

  /** Corrected: every texel of the image has its own slot in the buffer,
      and the slot gives back the texel's coordinates. */
  lemma TexelIndexInverse(x: int, y: int, width: int, height: int)
    requires 0 <= x < width && 0 <= y < height
    ensures 0 <= TexelIndex(x, y, width) < width * height
    ensures TexelIndex(x, y, width) % width == x && TexelIndex(x, y, width) / width == y
  {
    MulMono(y, height - 1, width);
    assert (height - 1) * width == height * width - width;
    LinearDivMod(x, y, width);
  }

  /** Each slot of a width x height buffer belongs to one texel. */
  lemma SlotOfTexel(i: int, width: int, height: int)
    requires 0 <= width && 0 <= height && 0 <= i < width * height
    ensures 0 < width && 0 <= i % width < width && 0 <= i / width < height
    ensures TexelIndex(i % width, i / width, width) == i
  {
    assert i == width * (i / width) + i % width;
    if i / width >= height {
      MulMono(height, i / width, width);
    }
  }

  // Texels

  /** `buffer[i] = 0xffffffff` followed by a 3-byte fread into it: on a
      little-endian host the low three bytes are overwritten in file order
      and the high byte is kept. */
  function FreadLow3(word: uint32, b0: byte, b1: byte, b2: byte): uint32 {
    (word as int / 0x100_0000 * 0x100_0000 + b0 as int + 0x100 * b1 as int + 0x1_0000 * b2 as int) as uint32
  }

  /** The texel read at file position `pos`: its high (alpha) byte is 0xFF
      and its three low bytes, from least significant up, are the three
      file bytes in order. */
  function TexelAt(bytes: seq<byte>, pos: nat): (t: uint32)
    requires pos + 3 <= |bytes|
    ensures t as int / 0x100_0000 == 0xFF
    ensures t as int % 0x100 == bytes[pos] as int
    ensures t as int / 0x100 % 0x100 == bytes[pos + 1] as int
    ensures t as int / 0x1_0000 % 0x100 == bytes[pos + 2] as int
  {
    var b0, b1, b2 := bytes[pos] as int, bytes[pos + 1] as int, bytes[pos + 2] as int;
    var t := FreadLow3(0xFFFF_FFFF, bytes[pos], bytes[pos + 1], bytes[pos + 2]);
    assert t as int == b0 + 0x100 * (b1 + 0x100 * (b2 + 0x100 * 0xFF));
    t
  }

  /** 3 bytes per texel, then the padding. */
  function RowStride(h: BmpHeader): int
    requires h.width >= 0 && h.bpp >= 0
  {
    3 * h.width + RowPadding(h.width, h.bpp)
  }

  /** The file position of texel (x, y): rows follow one another from the
      pixel data offset. */
  function TexelOffset(h: BmpHeader, x: int, y: int): int
    requires h.width >= 0 && h.bpp >= 0
  {
    h.pixelOffset + y * RowStride(h) + 3 * x
  }

  /** A header the corrected decoder can follow: no negative size, no int
      overflow in the buffer size or the row computation, and every texel
      inside the file. */
  predicate HeaderReadable(bytes: seq<byte>, h: BmpHeader) {
    && 0 <= h.pixelOffset && 0 <= h.width && 0 <= h.height && 0 <= h.bpp
    && h.width * h.bpp < 0x8000_0000
    && h.width * h.height * 4 < 0x8000_0000
    && (h.width == 0 || h.height == 0 || TexelOffset(h, h.width - 1, h.height - 1) + 3 <= |bytes|)
  }


  /** Every texel's three bytes lie inside the file. */
  lemma TexelInFile(bytes: seq<byte>, h: BmpHeader, x: int, y: int)
    requires HeaderReadable(bytes, h)
    requires 0 <= x < h.width && 0 <= y < h.height
    ensures 0 <= TexelOffset(h, x, y) && TexelOffset(h, x, y) + 3 <= |bytes|
  {
    MulMono(y, h.height - 1, RowStride(h));
    MulMono(0, y, RowStride(h));
  }

  /** The corrected decode: the texels of a readable BMP, row-major from
      the first row in the file, each row followed by the padding that
      completes it to a multiple of four bytes. */
  function DecodeTexels(bytes: seq<byte>, h: BmpHeader): (r: seq<uint32>)
    requires HeaderReadable(bytes, h)
    ensures |r| == h.width * h.height
  {
    seq(h.width * h.height, i requires 0 <= i < h.width * h.height => SlotTexel(bytes, h, i))
  }

  /** Slot i of the decoded texels: the texel at column i % width of row
      i / width. */
  function SlotTexel(bytes: seq<byte>, h: BmpHeader, i: int): uint32
    requires HeaderReadable(bytes, h) && 0 <= i < h.width * h.height
  {
    SlotOfTexel(i, h.width, h.height);
    TexelInFile(bytes, h, i % h.width, i / h.width);
    TexelAt(bytes, TexelOffset(h, i % h.width, i / h.width))
  }

  /** In the corrected decode, texel (x, y) is 0xFF000000 OR'd with the
      three bytes at its position in the file, and it sits at index
      x + y * width. */
  lemma DecodedTexel(bytes: seq<byte>, h: BmpHeader, x: int, y: int)
    requires HeaderReadable(bytes, h)
    requires 0 <= x < h.width && 0 <= y < h.height
    ensures var i, pos := TexelIndex(x, y, h.width), TexelOffset(h, x, y);
      && 0 <= i < |DecodeTexels(bytes, h)| && 0 <= pos && pos + 3 <= |bytes|
      && DecodeTexels(bytes, h)[i] == FreadLow3(0xFFFF_FFFF, bytes[pos], bytes[pos + 1], bytes[pos + 2])
  {
    TexelIndexInverse(x, y, h.width, h.height);
    TexelInFile(bytes, h, x, y);
  }

  /** One texel: `buffer[i] = 0xffffffff`, then a 3-byte fread into
      buffer[i] from file position pos. */
  method ReadTexel(bytes: seq<byte>, buffer: array<uint32>, i: int, pos: int)
    requires 0 <= i < buffer.Length && 0 <= pos && pos + 3 <= |bytes|
    modifies buffer
    ensures buffer[..] == old(buffer[..])[i := TexelAt(bytes, pos)]
  {
    buffer[i] := 0xFFFF_FFFF;
    buffer[i] := FreadLow3(buffer[i], bytes[pos], bytes[pos + 1], bytes[pos + 2]);
  }

  /** One pass of the outer loop, corrected: the inner loop over x reads row y's
      texels, 3 bytes at a time from the row's start in the file, into the
      slots from `start` = y * width on; then the row padding is skipped.
      Returns the file position of row y + 1. */
  method ReadRowCorrected(bytes: seq<byte>, ghost h: BmpHeader, buffer: array<uint32>, width: int, y: int, start: int,
                 pos0: int, rowPadding: int)
      returns (pos: int)
    requires HeaderReadable(bytes, h) && width == h.width && 0 <= y < h.height
    requires rowPadding == RowPadding(h.width, h.bpp)
    requires buffer.Length == |DecodeTexels(bytes, h)|
    requires start == TexelIndex(0, y, width) && pos0 == TexelOffset(h, 0, y)
    requires start + width <= buffer.Length
    requires forall i :: 0 <= i < start ==> buffer[i] == DecodeTexels(bytes, h)[i]
    modifies buffer
    ensures pos == TexelOffset(h, 0, y + 1) && start + width == TexelIndex(0, y + 1, width)
    ensures forall i :: 0 <= i < start + width ==> buffer[i] == DecodeTexels(bytes, h)[i]
  {
    ghost var texels := DecodeTexels(bytes, h);
    NextRow(h, y);
    pos := pos0;
    var x := 0;
    while x < width
      invariant 0 <= x <= width
      invariant pos == TexelOffset(h, x, y)
      invariant forall i :: 0 <= i < start + x ==> buffer[i] == texels[i]
    {
      DecodedTexel(bytes, h, x, y);
      assert TexelIndex(x, y, width) == start + x;
      ReadTexel(bytes, buffer, start + x, pos);
      pos := pos + 3;
      x := x + 1;
    }
    pos := pos + rowPadding;
  }

  /** Skipping the padding after row y reaches the start of row y + 1, and
      the slot after row y is the first of row y + 1. */
  lemma NextRow(h: BmpHeader, y: int)
    requires h.width >= 0 && h.bpp >= 0
    ensures TexelOffset(h, h.width, y) + RowPadding(h.width, h.bpp) == TexelOffset(h, 0, y + 1)
    ensures TexelIndex(h.width, y, h.width) == TexelIndex(0, y + 1, h.width)
  {
    assert (y + 1) * RowStride(h) == y * RowStride(h) + RowStride(h);
    assert (y + 1) * h.width == y * h.width + h.width;
  }

  /** Row y of a width x height image ends inside the buffer; the slot
      after the last row is the buffer's end. */
  lemma RowFits(y: int, width: int, height: int)
    requires 0 <= y <= height && 0 <= width
    ensures y < height ==> TexelIndex(0, y, width) + width <= width * height
    ensures y == height ==> TexelIndex(0, y, width) == width * height
  {
    if y < height {
      MulMono(y + 1, height, width);
    }
  }

  /** The pixel loops, corrected: a width * height buffer filled row by row
      from the pixel data offset, skipping the row padding after each row. */
  method ReadTexelsCorrected(bytes: seq<byte>, ghost h: BmpHeader, pixelOffset: int, width: int, height: int, bpp: int)
      returns (texels: seq<uint32>)
    requires HeaderReadable(bytes, h) && h == BmpHeader(pixelOffset, width, height, bpp)
    ensures texels == DecodeTexels(bytes, h)
  {
    ghost var decoded := DecodeTexels(bytes, h);
    var rowPadding := RowPadding(width, bpp);
    MulMono(0, height, width);
    var buffer := new uint32[width * height];
    assert buffer.Length == |decoded|;
    var pos := pixelOffset;
    var start := 0;
    var y := 0;
    while y < height
      invariant 0 <= y <= height
      invariant pos == TexelOffset(h, 0, y) && start == TexelIndex(0, y, width)
      invariant start <= |decoded|
      invariant forall i :: 0 <= i < start ==> buffer[i] == decoded[i]
    {
      RowFits(y, width, height);
      pos := ReadRowCorrected(bytes, h, buffer, width, y, start, pos, rowPadding);
      start := start + width;
      y := y + 1;
    }
    RowFits(height, width, height);
    assert start == buffer.Length;
    texels := buffer[..];
    assert forall i :: 0 <= i < |texels| ==> texels[i] == decoded[i];
  }


  // -----------------------------------------------------------------------
  // The pixel loops as written
  // -----------------------------------------------------------------------

  /** Where the pixel data is read from: `fseek(file, pixel_offset,
      SEEK_SET)` fails on a negative offset and leaves the file position
      after the bit count, at byte 30. */
  function DataStart(h: BmpHeader): int {
    if h.pixelOffset < 0 then 30 else h.pixelOffset
  }

  /** The file advance per row as written: 3 bytes per texel, then the
      `row_padding` skip. */
  function RowStrideAsWritten(h: BmpHeader): int {
    3 * h.width + RowPaddingAsWritten(h.width, h.bpp)
  }

  /** How the pixel loops walk the file: the position of the first texel,
      the advance per row, and the image size. */
  datatype Layout = Layout(start: int, stride: int, width: int, height: int)

  /** The layout the code as written follows. */
  function LayoutAsWritten(h: BmpHeader): Layout {
    Layout(DataStart(h), RowStrideAsWritten(h), h.width, h.height)
  }

  /** The file position texel (x, y) is read from. */
  function Offset(l: Layout, x: int, y: int): int {
    l.start + y * l.stride + 3 * x
  }

  /** A header the loops as written follow without undefined behaviour when
      they run at all (both sizes positive): no int overflow in
      `width * height * 4` or `width * bpp`, every slot `x + y * height`
      inside the buffer (height <= width), and every texel inside the
      file. */
  predicate AsWrittenReadable(bytes: seq<byte>, h: BmpHeader) {
    0 < h.width && 0 < h.height ==>
      && h.width * h.height * 4 < 0x8000_0000
      && h.width * h.bpp < 0x8000_0000
      && -0x8000_0000 <= h.width * h.bpp
      && h.height <= h.width
      && Offset(LayoutAsWritten(h), h.width - 1, h.height - 1) + 3 <= |bytes|
  }

  /** A file CreateTextureMapFromFile can read: the magic is there, and a
      BMP carries a whole header its loops can follow. */
  predicate BmpReadable(bytes: seq<byte>) {
    && |bytes| >= 2
    && (IsBmp(bytes) ==> |bytes| >= 30 && AsWrittenReadable(bytes, ReadHeader(bytes)))
  }

  /** A layout the loops can follow inside the buffer and the file: an
      image no taller than wide, rows that start in order from a position
      in the file, and the last texel inside the file. */
  predicate LayoutReadable(bytes: seq<byte>, l: Layout) {
    && 0 < l.height <= l.width
    && 0 <= l.start && 0 <= l.stride
    && Offset(l, l.width - 1, l.height - 1) + 3 <= |bytes|
  }

  /** The layout of a header the loops as written can follow is readable:
      the padding as written is above -4, so a row of at least one texel
      advances the file position. */
  lemma LayoutAsWrittenReadable(bytes: seq<byte>, h: BmpHeader)
    requires AsWrittenReadable(bytes, h) && 0 < h.width && 0 < h.height
    ensures LayoutReadable(bytes, LayoutAsWritten(h))
  {
  }

  /** Every texel the loops read lies inside the file. */
  lemma TexelInFileAsWritten(bytes: seq<byte>, l: Layout, x: int, y: int)
    requires LayoutReadable(bytes, l)
    requires 0 <= x < l.width && 0 <= y < l.height
    ensures 0 <= Offset(l, x, y) && Offset(l, x, y) + 3 <= |bytes|
  {
    MulMono(y, l.height - 1, l.stride);
    MulMono(0, y, l.stride);
  }

  /** The texel the k-th pass of the inner loop reads: column k % width of
      row k / width. */
  function TexelAsWritten(bytes: seq<byte>, l: Layout, k: int): uint32
    requires LayoutReadable(bytes, l) && 0 <= k < l.width * l.height
  {
    SlotOfTexel(k, l.width, l.height);
    TexelInFileAsWritten(bytes, l, k % l.width, k / l.width);
    TexelAt(bytes, Offset(l, k % l.width, k / l.width))
  }

  /** The buffer slot the k-th pass writes, `x + y * height`. */
  function SlotAsWritten(l: Layout, k: int): (s: int)
    requires 0 < l.height <= l.width && 0 <= k < l.width * l.height
    ensures 0 <= s < l.width * l.height
  {
    SlotOfTexel(k, l.width, l.height);
    SlotAsWrittenInBounds(k % l.width, k / l.width, l.width, l.height);
    TexelIndexAsWritten(k % l.width, k / l.width, l.height)
  }

  /** The texels in the order the inner loop reads them. */
  function ReadsAsWritten(bytes: seq<byte>, l: Layout): (r: seq<uint32>)
    requires LayoutReadable(bytes, l)
    ensures |r| == l.width * l.height
  {
    seq(l.width * l.height, k requires 0 <= k < l.width * l.height => TexelAsWritten(bytes, l, k))
  }

  /** The slots the inner loop writes, pass by pass. */
  function SlotsAsWritten(l: Layout): (r: seq<int>)
    requires 0 < l.height <= l.width
    ensures |r| == l.width * l.height
    ensures forall k :: 0 <= k < |r| ==> 0 <= r[k] < l.width * l.height
  {
    seq(l.width * l.height, k requires 0 <= k < l.width * l.height => SlotAsWritten(l, k))
  }

  /** The buffer after the first n passes of the inner loop. */
  function FillAsWritten(bytes: seq<byte>, l: Layout, n: int): (r: seq<Option<uint32>>)
    requires LayoutReadable(bytes, l) && 0 <= n <= l.width * l.height
    ensures |r| == l.width * l.height
  {
    Scatter(ReadsAsWritten(bytes, l), SlotsAsWritten(l), l.width * l.height, n)
  }

  /** The texture buffer the code leaves after all width * height passes:
      None for a slot no pass writes (malloc's indeterminate contents). */
  function DecodeAsWritten(bytes: seq<byte>, h: BmpHeader): (r: seq<Option<uint32>>)
    requires AsWrittenReadable(bytes, h) && 0 < h.width && 0 < h.height
    ensures |r| == h.width * h.height
  {
    LayoutAsWrittenReadable(bytes, h);
    FillAsWritten(bytes, LayoutAsWritten(h), h.width * h.height)
  }

  /** The two paddings agree exactly when the row's byte count is even. */
  lemma RowPaddingsAgree(width: int, bpp: int)
    requires width >= 0 && bpp >= 0
    ensures RowPaddingAsWritten(width, bpp) == RowPadding(width, bpp) <==> RowBytes(width, bpp) % 2 == 0
  {
    var r := RowBytes(width, bpp);
    assert r % 4 == 0 || r % 4 == 1 || r % 4 == 2 || r % 4 == 3;
    assert r % 2 == (r % 4) % 2;
  }

  /** For a square image pass k writes slot k, so the buffer holds the
      texels in the order they are read, every slot written. */
  lemma SquareFillsInOrder(bytes: seq<byte>, h: BmpHeader)
    requires AsWrittenReadable(bytes, h) && 0 < h.width == h.height
    ensures LayoutReadable(bytes, LayoutAsWritten(h))
    ensures forall i :: 0 <= i < h.width * h.height ==>
      DecodeAsWritten(bytes, h)[i] == Some(ReadsAsWritten(bytes, LayoutAsWritten(h))[i])
  {
    var l := LayoutAsWritten(h);
    LayoutAsWrittenReadable(bytes, h);
    var loaded, slots := ReadsAsWritten(bytes, l), SlotsAsWritten(l);
    forall k | 0 <= k < |slots|
      ensures slots[k] == k
    {
      SlotOfTexel(k, h.width, h.height);
    }
    ScatterInPlace(loaded, slots, |slots|);
  }

  /** Where the code as written and the corrected decode agree: a square
      image whose rows need the same padding under both formulas, read from
      a non-negative offset, has every slot written, and written with the
      corrected texel. */
  lemma AsWrittenMatchesCorrected(bytes: seq<byte>, h: BmpHeader)
    requires HeaderReadable(bytes, h) && AsWrittenReadable(bytes, h)
    requires 0 < h.width == h.height
    requires RowBytes(h.width, h.bpp) % 2 == 0
    ensures forall i :: 0 <= i < h.width * h.height ==>
      DecodeAsWritten(bytes, h)[i] == Some(DecodeTexels(bytes, h)[i])
  {
    var l := LayoutAsWritten(h);
    SquareFillsInOrder(bytes, h);
    RowPaddingsAgree(h.width, h.bpp);
    assert l.start == h.pixelOffset && l.stride == RowStride(h);
    forall i | 0 <= i < h.width * h.height
      ensures ReadsAsWritten(bytes, l)[i] == DecodeTexels(bytes, h)[i]
    {
      SlotOfTexel(i, h.width, h.height);
      assert Offset(l, i % h.width, i / h.width) == TexelOffset(h, i % h.width, i / h.width);
    }
  }

  /** A 3x3 24-bit image as written: the row holds 9 bytes, `row_padding`
      is 1 where the format pads with 3, and the second row is read two
      bytes early, while the corrected decode reads it after the padding. */
  lemma PaddingAsWrittenShiftsRows(bytes: seq<byte>, h: BmpHeader)
    requires HeaderReadable(bytes, h) && AsWrittenReadable(bytes, h)
    requires h.width == 3 && h.height == 3 && h.bpp == 24
    ensures h.pixelOffset + 13 <= |bytes|
    ensures DecodeAsWritten(bytes, h)[3] == Some(TexelAt(bytes, h.pixelOffset + 10))
    ensures DecodeTexels(bytes, h)[3] == TexelAt(bytes, h.pixelOffset + 12)
  {
    var l := LayoutAsWritten(h);
    assert RowPaddingAsWritten(3, 24) == 1 && RowPadding(3, 24) == 3;
    assert l == Layout(h.pixelOffset, 10, 3, 3);
    TexelInFile(bytes, h, 0, 1);
    SquareFillsInOrder(bytes, h);
    SlotOfTexel(3, 3, 3);
    assert TexelOffset(h, 0, 1) == h.pixelOffset + 12;
  }

  /** A 3x2 image as written: passes 2 and 3 both write slot 2, so column 2
      of the first row is lost under column 0 of the second row, and slot 5
      is never written. */
  lemma TexelsAsWrittenCollide(bytes: seq<byte>, h: BmpHeader)
    requires AsWrittenReadable(bytes, h)
    requires h.width == 3 && h.height == 2
    ensures var pos := Offset(LayoutAsWritten(h), 0, 1);
      && 0 <= pos && pos + 3 <= |bytes|
      && DecodeAsWritten(bytes, h)[2] == Some(TexelAt(bytes, pos))
    ensures DecodeAsWritten(bytes, h)[5] == None
  {
    var l := LayoutAsWritten(h);
    LayoutAsWrittenReadable(bytes, h);
    var loaded, slots := ReadsAsWritten(bytes, l), SlotsAsWritten(l);
    PassIndices(l, 0, 0);
    PassIndices(l, 1, 0);
    PassIndices(l, 2, 0);
    PassIndices(l, 0, 1);
    PassIndices(l, 1, 1);
    PassIndices(l, 2, 1);
    PassReads(bytes, l, 0, 1);
    assert slots[2] == 2 && slots[3] == 2 && slots[4] == 3 && slots[5] == 4;
    assert slots[0] == 0 && slots[1] == 1;
    ScatterLastWrite(loaded, slots, 6, 6, 2);
    ScatterLastWrite(loaded, slots, 6, 6, 5);
  }

  /** Pass x + y * width of the inner loop is the one at column x of row
      y, and it writes slot `x + y * height`. */
  lemma PassIndices(l: Layout, x: int, y: int)
    requires 0 <= x < l.width && 0 <= y < l.height <= l.width
    ensures x + y * l.width + 1 <= l.width * l.height
    ensures (x + y * l.width) % l.width == x && (x + y * l.width) / l.width == y
    ensures SlotAsWritten(l, x + y * l.width) == x + y * l.height
  {
    MulMono(y + 1, l.height, l.width);
    assert (y + 1) * l.width == y * l.width + l.width;
    LinearDivMod(x, y, l.width);
  }

  /** Pass x + y * width reads texel (x, y) from its place in the file and
      writes it to slot `x + y * height`. */
  lemma PassReads(bytes: seq<byte>, l: Layout, x: int, y: int)
    requires LayoutReadable(bytes, l) && 0 <= x < l.width && 0 <= y < l.height
    ensures x + y * l.width < l.width * l.height
    ensures 0 <= Offset(l, x, y) && Offset(l, x, y) + 3 <= |bytes|
    ensures SlotsAsWritten(l)[x + y * l.width] == x + y * l.height
    ensures ReadsAsWritten(bytes, l)[x + y * l.width] == TexelAt(bytes, Offset(l, x, y))
  {
    PassIndices(l, x, y);
    TexelInFileAsWritten(bytes, l, x, y);
  }

  /** Pass n stores the n-th texel read at the n-th slot. */
  lemma FillStep(bytes: seq<byte>, l: Layout, n: int, before: seq<uint32>)
    requires LayoutReadable(bytes, l) && 0 <= n < l.width * l.height
    requires Agrees(before, FillAsWritten(bytes, l, n))
    ensures 0 <= SlotsAsWritten(l)[n] < |before|
    ensures Agrees(before[SlotsAsWritten(l)[n] := ReadsAsWritten(bytes, l)[n]], FillAsWritten(bytes, l, n + 1))
  {
    ScatterStep(before, ReadsAsWritten(bytes, l), SlotsAsWritten(l), l.width * l.height, n);
  }

  /** A buffer in step with the first x + y * width passes, with texel
      (x, y) stored at `x + y * height`, is in step with one pass more. */
  lemma ReadStep(bytes: seq<byte>, l: Layout, x: int, y: int, before: seq<uint32>)
    requires LayoutReadable(bytes, l) && 0 <= x < l.width && 0 <= y < l.height
    requires x + y * l.width < l.width * l.height
    requires Agrees(before, FillAsWritten(bytes, l, x + y * l.width))
    ensures 0 <= x + y * l.height < |before|
    ensures 0 <= Offset(l, x, y) && Offset(l, x, y) + 3 <= |bytes|
    ensures Agrees(before[x + y * l.height := TexelAt(bytes, Offset(l, x, y))],
                   FillAsWritten(bytes, l, x + y * l.width + 1))
  {
    FillStep(bytes, l, x + y * l.width, before);
    PassReads(bytes, l, x, y);
  }

  /** One pass of the outer loop as written: for each x the slot
      `x + y * height` is set to 0xffffffff and its low three bytes are read
      from the file, then `row_padding` bytes are skipped. Returns the file
      position of row y + 1. */
  method ReadRow(bytes: seq<byte>, ghost l: Layout, buffer: array<uint32>, width: int, height: int, y: int,
                 pos0: int, rowPadding: int)
      returns (pos: int)
    requires LayoutReadable(bytes, l) && width == l.width && height == l.height
    requires 0 <= y < height && (y + 1) * width <= width * height
    requires 3 * width + rowPadding == l.stride
    requires buffer.Length == width * height && pos0 == Offset(l, 0, y)
    requires Agrees(buffer[..], FillAsWritten(bytes, l, y * width))
    modifies buffer
    ensures pos == Offset(l, 0, y + 1)
    ensures Agrees(buffer[..], FillAsWritten(bytes, l, (y + 1) * width))
  {
    MulSucc(y, width);
    pos := pos0;
    var x := 0;
    while x < width
      invariant 0 <= x <= width
      invariant pos == Offset(l, x, y)
      invariant Agrees(buffer[..], FillAsWritten(bytes, l, x + y * width))
    {
      ReadStep(bytes, l, x, y, buffer[..]);
      ReadTexel(bytes, buffer, x + y * height, pos);
      pos := pos + 3;
      x := x + 1;
    }
    MulSucc(y, l.stride);
    pos := pos + rowPadding;
  }

  /** The pixel loops as written: a width * height buffer from malloc,
      filled from the pixel data offset row by row, each texel at
      `x + y * height`, skipping `row_padding` bytes after each row. */
  method ReadTexels(bytes: seq<byte>, ghost h: BmpHeader, pixelOffset: int, width: int, height: int, bpp: int)
      returns (texels: seq<uint32>)
    requires AsWrittenReadable(bytes, h) && h == BmpHeader(pixelOffset, width, height, bpp)
    requires 0 < width && 0 < height
    ensures Agrees(texels, DecodeAsWritten(bytes, h))
  {
    ghost var l := LayoutAsWritten(h);
    LayoutAsWrittenReadable(bytes, h);
    var rowPadding := CRem(CQuot(width * bpp, 8), 4);
    MulMono(0, height, width);
    var buffer := new uint32[width * height];
    // A failing fseek leaves the position after the bit count.
    var pos := if pixelOffset < 0 then 30 else pixelOffset;
    var y := 0;
    while y < height
      invariant 0 <= y <= height
      invariant y * width <= width * height
      invariant pos == Offset(l, 0, y)
      invariant Agrees(buffer[..], FillAsWritten(bytes, l, y * width))
    {
      MulMono(y + 1, height, width);
      pos := ReadRow(bytes, l, buffer, width, height, y, pos, rowPadding);
      y := y + 1;
    }
    texels := buffer[..];
  }

  /** CreateTextureMapFromFile (nova_utility.c): NULL when the file cannot
      be opened; a zeroed texture without buffer unless the file starts
      with "BM"; otherwise the header's width and height, and, when both
      are positive, the buffer the pixel loops as written leave (slots no
      pass writes are unconstrained). With a non-positive size the loops do
      not run and no texel is determined. */
  method CreateTextureMapFromFile(file: Option<seq<byte>>) returns (texture: Option<TextureMap>)
    requires file.Some? ==> BmpReadable(file.value)
    ensures file.None? <==> texture.None?
    ensures file.Some? && !IsBmp(file.value) ==> texture == Some(TextureMap(0, 0, None))
    ensures file.Some? && IsBmp(file.value) ==>
      var h := ReadHeader(file.value);
      && texture.Some? && texture.value.width == h.width && texture.value.height == h.height
      && if 0 < h.width && 0 < h.height
         then texture.value.buffer.Some? && Agrees(texture.value.buffer.value, DecodeAsWritten(file.value, h))
         else texture.value.buffer == None
  {
    if file.None? {
      return None;
    }
    var bytes := file.value;
    texture := Some(TextureMap(0, 0, None));
    if bytes[0] == 0x42 && bytes[1] == 0x4D {
      var pixelOffset := ReadInt32(bytes, 10);
      var width := ReadInt32(bytes, 18);
      var height := ReadInt32(bytes, 22);
      var bpp := ReadInt16(bytes, 28);
      if 0 < width && 0 < height {
        var texels := ReadTexels(bytes, ReadHeader(bytes), pixelOffset, width, height, bpp);
        texture := Some(TextureMap(width, height, Some(texels)));
      } else {
        texture := Some(TextureMap(width, height, None));
      }
    }
  }
}
