/** The earlier Wavefront OBJ loader, Nova/nova_geometry.c, with the mesh
    layout of Nova/nova_geometry.h. It reads "v" and "vn" lines and faces;
    texture coordinates are skipped. Until the first "vn" line the loader is
    in calc_normals mode: each face then reserves a normal slot that nothing
    writes, and stores no normal indices. */
module NovaGeometry {
  import opened NovaMath
  import opened ObjScan
  import opened Wrappers
  import opened Growable

  /** struct Vertex of nova_geometry.h. */
  datatype Vertex = Vertex(pos: Vector)

  /** struct Tri of nova_geometry.h. `n` is None when n0, n1, n2 are not
      determined by the file: in calc_normals mode they are never written,
      and after it a `v v v` face copies them from sscanf variables it did
      not assign. */
  datatype Tri = Tri(v0: int, v1: int, v2: int, n: Option<Index3>)

  /** struct Mesh of nova_geometry.h; an empty list stands for a NULL array
      with a zero count. */
  datatype Mesh = Mesh(verts: seq<Vertex>, tris: seq<Tri>, normals: seq<Vector>)

  /** The loader's state between two lines: the calc_normals flag and the
      elements counted so far. A normal slot is None when it was reserved
      by a face and never written. */
  datatype Loader = Loader(calcNormals: bool, verts: seq<Vertex>, tris: seq<Tri>, normals: seq<Option<Vector>>)

  /** `sscanf(line_buf, "v %f %f %f", ...)`, stored with w = 1. */
  function ParseVertex(p: Primitives, line: string): Vertex
    requires |p.floats(line)| >= 3
  {
    var f := p.floats(line);
    Vertex(Vector(f[0], f[1], f[2], 1.0))
  }

  /** `sscanf(line_buf, "vn %f %f %f", ...)`, stored with w = 0, then
      VecNormalize. */
  function ParseNormal(p: Primitives, line: string): Vector
    requires |p.floats(line)| >= 3
  {
    var f := p.floats(line);
    p.normalize(Vector(f[0], f[1], f[2], 0.0))
  }

  /** The triangle a face line stores: vertex indices rebased to 0 always;
      normal indices rebased only outside calc_normals mode and only when a
      format with normals matched. */
  function TriOf(p: Primitives, line: string, calcNormals: bool): (t: Tri)
    requires FaceWellFormed(p, line)
    ensures t.n.Some? <==> !calcNormals && ScanFace(p, line).0 != VertexOnly
  {
    var (f, vals) := ScanFace(p, line);
    var v := Rebase(FaceVertices(f, vals));
    Tri(v.i0, v.i1, v.i2, if !calcNormals && f != VertexOnly then Some(Rebase(FaceNormals(f, vals))) else None)
  }

  /** A line the loader can process: sscanf fills every value it uses. */
  predicate LineReadable(p: Primitives, line: string) {
    match KindOf(line)
    case VertexLine => |p.floats(line)| >= 3
    case NormalLine => |p.floats(line)| >= 3
    case FaceLine => FaceWellFormed(p, line)
    case _ => true
  }

  /** Every line is readable. */
  predicate WellFormed(p: Primitives, lines: seq<string>)
    decreases |lines|
  {
    || lines == []
    || (WellFormed(p, lines[..|lines| - 1]) && LineReadable(p, lines[|lines| - 1]))
  }

  /** A prefix of a well-formed file is well-formed, and the next line is
      readable. */
  lemma {:induction false} WellFormedPrefix(p: Primitives, lines: seq<string>, i: nat)
    requires WellFormed(p, lines) && i < |lines|
    ensures WellFormed(p, lines[..i]) && LineReadable(p, lines[i])
    decreases |lines|
  {
    var prefix := lines[..|lines| - 1];
    if i < |lines| - 1 {
      WellFormedPrefix(p, prefix, i);
      assert prefix[..i] == lines[..i] && prefix[i] == lines[i];
    } else {
      assert prefix == lines[..i];
    }
  }

  /** The normal slots a line adds: the normal of a "vn" line, or an
      unwritten slot for a face in calc_normals mode. */
  function NormalsAdded(p: Primitives, line: string, calcNormals: bool): seq<Option<Vector>>
    requires LineReadable(p, line)
  {
    if KindOf(line) == NormalLine then [Some(ParseNormal(p, line))]
    else if KindOf(line) == FaceLine && calcNormals then [None]
    else []
  }

  /** One pass of the fgets loop. "vt" lines and all others are skipped. */
  function Step(p: Primitives, s: Loader, line: string): Loader
    requires LineReadable(p, line)
  {
    match KindOf(line)
    case VertexLine => s.(verts := s.verts + [ParseVertex(p, line)])
    case NormalLine => s.(calcNormals := false, normals := s.normals + NormalsAdded(p, line, s.calcNormals))
    case FaceLine =>
      s.(tris := s.tris + [TriOf(p, line, s.calcNormals)], normals := s.normals + NormalsAdded(p, line, s.calcNormals))
    case _ => s
  }

  /** The state after `lines`, from calc_normals = true and empty buffers. */
  function Load(p: Primitives, lines: seq<string>): (s: Loader)
    requires WellFormed(p, lines)
    ensures |s.verts| == |LinesOf(lines, VertexLine)|
    ensures |s.tris| == |LinesOf(lines, FaceLine)|
    decreases |lines|
  {
    if lines == [] then Loader(true, [], [], [])
    else
      var prefix, last := lines[..|lines| - 1], lines[|lines| - 1];
      Step(p, Load(p, prefix), last)
  }

  /** The index of the first "vn" line, or |lines| when there is none. */
  function FirstNormal(lines: seq<string>): (r: nat)
    ensures r <= |lines|
    ensures forall i :: 0 <= i < r ==> KindOf(lines[i]) != NormalLine
    ensures r < |lines| ==> KindOf(lines[r]) == NormalLine
  {
    if lines == [] then 0
    else if KindOf(lines[0]) == NormalLine then 0
    else 1 + FirstNormal(lines[1..])
  }

  /** The faces before the first "vn" line: those read in calc_normals
      mode, each of which reserved a normal slot. */
  function Reserved(lines: seq<string>): nat {
    |LinesOf(lines[..FirstNormal(lines)], FaceLine)|
  }

  /** A file has no "vn" line exactly when no line is one. */
  lemma {:induction false} NoNormalsIff(lines: seq<string>)
    ensures LinesOf(lines, NormalLine) == [] <==> forall i :: 0 <= i < |lines| ==> KindOf(lines[i]) != NormalLine
    decreases |lines|
  {
    if lines != [] {
      var prefix, last := lines[..|lines| - 1], lines[|lines| - 1];
      NoNormalsIff(prefix);
      assert forall i :: 0 <= i < |prefix| ==> prefix[i] == lines[i];
      if LinesOf(lines, NormalLine) == [] {
        assert LinesOf(prefix, NormalLine) == [] && KindOf(last) != NormalLine;
      }
    }
  }

  /** Reading one more line: the reserved count grows by one exactly for a
      face read while no "vn" line has been seen, and it counts every face
      of a file without "vn" lines. */
  lemma ReservedStep(lines: seq<string>)
    requires lines != []
    ensures var prefix, last := lines[..|lines| - 1], lines[|lines| - 1];
      && (LinesOf(prefix, NormalLine) == [] ==> Reserved(prefix) == |LinesOf(prefix, FaceLine)|)
      && Reserved(lines) == Reserved(prefix) + (if LinesOf(prefix, NormalLine) == [] && KindOf(last) == FaceLine then 1 else 0)
  {
    var prefix, last := lines[..|lines| - 1], lines[|lines| - 1];
    var q, r := FirstNormal(prefix), FirstNormal(lines);
    NoNormalsIff(prefix);
    assert forall i :: 0 <= i < |prefix| ==> prefix[i] == lines[i];
    if q < |prefix| {
      assert r == q;
      assert lines[..r] == prefix[..q];
    } else {
      assert prefix[..q] == prefix;
      if KindOf(last) == NormalLine {
        assert r == |prefix|;
        assert lines[..r] == prefix;
      } else {
        assert r == |lines|;
        assert lines[..r] == lines;
      }
    }
  }

  /** calc_normals stays true exactly as long as no "vn" line was read. */
  lemma {:induction false} CalcNormalsIff(p: Primitives, lines: seq<string>)
    requires WellFormed(p, lines)
    ensures Load(p, lines).calcNormals <==> LinesOf(lines, NormalLine) == []
    decreases |lines|
  {
    if lines != [] {
      var prefix, last := lines[..|lines| - 1], lines[|lines| - 1];
      CalcNormalsIff(p, prefix);
      assert Load(p, lines) == Step(p, Load(p, prefix), last);
    }
  }

  /** The loader counts one normal per "vn" line and one per face read in
      calc_normals mode: num_normals is the number of "vn" lines plus the
      number of faces before the first of them. */
  lemma {:induction false} NormalCount(p: Primitives, lines: seq<string>)
    requires WellFormed(p, lines)
    ensures |Load(p, lines).normals| == |LinesOf(lines, NormalLine)| + |LinesOf(lines[..FirstNormal(lines)], FaceLine)|
    decreases |lines|
  {
    if lines != [] {
      var prefix, last := lines[..|lines| - 1], lines[|lines| - 1];
      NormalCount(p, prefix);
      CalcNormalsIff(p, prefix);
      ReservedStep(lines);
      assert Load(p, lines) == Step(p, Load(p, prefix), last);
    }
  }

  /** The slots reserved in calc_normals mode come first and are never
      written. */
  lemma {:induction false} ReservedUnwritten(p: Primitives, lines: seq<string>)
    requires WellFormed(p, lines)
    ensures var s := Load(p, lines);
      Reserved(lines) <= |s.normals| && forall k :: 0 <= k < Reserved(lines) ==> s.normals[k] == None
    decreases |lines|
  {
    NormalCount(p, lines);
    if lines != [] {
      var prefix, last := lines[..|lines| - 1], lines[|lines| - 1];
      ReservedUnwritten(p, prefix);
      ReservedStep(lines);
      var s := Load(p, prefix);
      var added := NormalsAdded(p, last, s.calcNormals);
      assert Load(p, lines) == Step(p, s, last);
      assert Load(p, lines).normals == s.normals + added;
      if LinesOf(prefix, NormalLine) == [] && KindOf(last) == FaceLine {
        CalcNormalsIff(p, prefix);
        NormalCount(p, prefix);
        assert added == [None] && |s.normals| == Reserved(prefix);
      }
    }
  }

  /** After the reserved slots, the normals of the "vn" lines in file
      order. */
  lemma {:induction false} NormalsInFileOrder(p: Primitives, lines: seq<string>)
    requires WellFormed(p, lines)
    ensures var s, ns, r := Load(p, lines), LinesOf(lines, NormalLine), Reserved(lines);
      && |s.normals| == r + |ns|
      && forall k :: 0 <= k < |ns| ==> |p.floats(ns[k])| >= 3 && s.normals[r + k] == Some(ParseNormal(p, ns[k]))
    decreases |lines|
  {
    NormalCount(p, lines);
    if lines != [] {
      var prefix, last := lines[..|lines| - 1], lines[|lines| - 1];
      LoadLast(p, lines);
      NormalsInFileOrder(p, prefix);
      ReservedStep(lines);
      var s := Load(p, prefix);
      if KindOf(last) == NormalLine {
        assert LinesOf(lines, NormalLine) == LinesOf(prefix, NormalLine) + [last];
      } else {
        assert LinesOf(lines, NormalLine) == LinesOf(prefix, NormalLine);
        CalcNormalsIff(p, prefix);
      }
    }
  }

  /** The faces read in calc_normals mode are the first ones. */
  lemma {:induction false} ReservedBound(lines: seq<string>)
    ensures Reserved(lines) <= |LinesOf(lines, FaceLine)|
    decreases |lines|
  {
    if lines != [] {
      var prefix := lines[..|lines| - 1];
      ReservedBound(prefix);
      ReservedStep(lines);
    }
  }

  /** The k-th triangle is the k-th face line, read in calc_normals mode
      exactly when it comes before the first "vn" line. */
  lemma {:induction false} TrisInFileOrder(p: Primitives, lines: seq<string>)
    requires WellFormed(p, lines)
    ensures var s, fs, r := Load(p, lines), LinesOf(lines, FaceLine), Reserved(lines);
      forall k :: 0 <= k < |fs| ==> FaceWellFormed(p, fs[k]) && s.tris[k] == TriOf(p, fs[k], k < r)
    decreases |lines|
  {
    if lines != [] {
      var prefix, last := lines[..|lines| - 1], lines[|lines| - 1];
      TrisInFileOrder(p, prefix);
      CalcNormalsIff(p, prefix);
      ReservedStep(lines);
      ReservedBound(prefix);
      var s := Load(p, prefix);
      assert Load(p, lines) == Step(p, s, last);
      if KindOf(last) == FaceLine {
        assert Load(p, lines).tris == s.tris + [TriOf(p, last, s.calcNormals)];
        assert LinesOf(lines, FaceLine) == LinesOf(prefix, FaceLine) + [last];
      } else {
        assert Load(p, lines).tris == s.tris;
        assert LinesOf(lines, FaceLine) == LinesOf(prefix, FaceLine);
      }
    }
  }

  /** The k-th vertex is the position of the k-th "v" line, with w = 1. */
  lemma {:induction false} VertsInFileOrder(p: Primitives, lines: seq<string>)
    requires WellFormed(p, lines)
    ensures var s, vs := Load(p, lines), LinesOf(lines, VertexLine);
      forall k :: 0 <= k < |vs| ==> |p.floats(vs[k])| >= 3 && s.verts[k] == ParseVertex(p, vs[k])
    decreases |lines|
  {
    if lines != [] {
      var prefix, last := lines[..|lines| - 1], lines[|lines| - 1];
      VertsInFileOrder(p, prefix);
      var s := Load(p, prefix);
      assert Load(p, lines) == Step(p, s, last);
      if KindOf(last) == VertexLine {
        assert Load(p, lines).verts == s.verts + [ParseVertex(p, last)];
        assert LinesOf(lines, VertexLine) == LinesOf(prefix, VertexLine) + [last];
      } else {
        assert Load(p, lines).verts == s.verts;
        assert LinesOf(lines, VertexLine) == LinesOf(prefix, VertexLine);
      }
    }
  }

  // ----- The loader itself -----

  /** The "v " branch. */
  method ReadVertex(p: Primitives, line: string, vb: GrowBuffer<Vertex>)
    requires vb.Valid() && |p.floats(line)| >= 3
    modifies vb, vb.data
    ensures vb.Valid() && (fresh(vb.data) || vb.data == old(vb.data))
    ensures vb.Contents() == old(vb.Contents()) + [ParseVertex(p, line)]
  {
    var f := p.floats(line);
    vb.Push(Vertex(Vector(f[0], f[1], f[2], 1.0)));
  }

  /** The "vn" branch (the caller clears calc_normals). */
  method ReadNormal(p: Primitives, line: string, nb: GrowBuffer<Vector>)
    requires nb.Valid() && |p.floats(line)| >= 3
    modifies nb, nb.data
    ensures nb.Valid() && (fresh(nb.data) || nb.data == old(nb.data))
    ensures nb.Contents() == old(nb.Contents()) + [ParseNormal(p, line)]
  {
    var f := p.floats(line);
    nb.Push(Vector(f[0], f[1], f[2], 0.0));
    nb.SetLast(p.normalize(Vector(f[0], f[1], f[2], 0.0)));
  }

  /** The "f" branch: count the face, reserve a normal slot in
      calc_normals mode, try the three formats and store the rebased
      indices. */
  method ReadFace(p: Primitives, line: string, calcNormals: bool, fb: GrowBuffer<Tri>, nb: GrowBuffer<Vector>)
    requires fb.Valid() && nb.Valid() && FaceWellFormed(p, line)
    modifies fb, fb.data, nb, nb.data
    ensures fb.Valid() && (fresh(fb.data) || fb.data == old(fb.data))
    ensures nb.Valid() && (fresh(nb.data) || nb.data == old(nb.data))
    ensures fb.Contents() == old(fb.Contents()) + [TriOf(p, line, calcNormals)]
    ensures |nb.Contents()| == |old(nb.Contents())| + (if calcNormals then 1 else 0)
    ensures nb.Contents()[..|old(nb.Contents())|] == old(nb.Contents())
  {
    if calcNormals {
      nb.Grow();
    }
    var format, fields := VertexUvNormal, p.ints(line, VertexUvNormal);
    if |fields| < 3 {
      format, fields := VertexNormal, p.ints(line, VertexNormal);
    }
    if |fields| < 3 {
      format, fields := VertexOnly, p.ints(line, VertexOnly);
    }
    var v := Rebase(FaceVertices(format, fields));
    var n := if !calcNormals && format != VertexOnly then Some(Rebase(FaceNormals(format, fields))) else None;
    fb.Push(Tri(v.i0, v.i1, v.i2, n));
  }

  /** One pass of the fgets loop: the switch on the first two characters.
      Returns the new calc_normals flag. */
  method ReadLine(p: Primitives, line: string, calcNormals: bool,
                  vb: GrowBuffer<Vertex>, fb: GrowBuffer<Tri>, nb: GrowBuffer<Vector>)
      returns (calcAfter: bool)
    requires vb.Valid() && fb.Valid() && nb.Valid() && LineReadable(p, line)
    modifies vb, vb.data, fb, fb.data, nb, nb.data
    ensures vb.Valid() && fb.Valid() && nb.Valid()
    ensures fresh(vb.data) || vb.data == old(vb.data)
    ensures fresh(fb.data) || fb.data == old(fb.data)
    ensures fresh(nb.data) || nb.data == old(nb.data)
    ensures calcAfter == (calcNormals && KindOf(line) != NormalLine)
    ensures vb.Contents() == old(vb.Contents()) + (if KindOf(line) == VertexLine then [ParseVertex(p, line)] else [])
    ensures fb.Contents() == old(fb.Contents()) + (if KindOf(line) == FaceLine then [TriOf(p, line, calcNormals)] else [])
    ensures var k := |old(nb.Contents())|;
      && k <= |nb.Contents()|
      && nb.Contents()[..k] == old(nb.Contents())
      && Agrees(nb.Contents()[k..], NormalsAdded(p, line, calcNormals))
  {
    calcAfter := calcNormals;
    if |line| > 0 && line[0] == 'v' {
      calcAfter := ReadVLine(p, line, calcNormals, vb, nb);
    } else if |line| > 0 && line[0] == 'f' {
      ReadFace(p, line, calcNormals, fb, nb);
    }
  }

  /** The 'v' case: the inner switch on the second character. A "vn" line
      ends calc_normals mode. */
  method ReadVLine(p: Primitives, line: string, calcNormals: bool, vb: GrowBuffer<Vertex>, nb: GrowBuffer<Vector>)
      returns (calcAfter: bool)
    requires vb.Valid() && nb.Valid() && |line| > 0 && line[0] == 'v' && LineReadable(p, line)
    modifies vb, vb.data, nb, nb.data
    ensures vb.Valid() && nb.Valid()
    ensures fresh(vb.data) || vb.data == old(vb.data)
    ensures fresh(nb.data) || nb.data == old(nb.data)
    ensures calcAfter == (calcNormals && KindOf(line) != NormalLine)
    ensures vb.Contents() == old(vb.Contents()) + (if KindOf(line) == VertexLine then [ParseVertex(p, line)] else [])
    ensures nb.Contents() == old(nb.Contents()) + (if KindOf(line) == NormalLine then [ParseNormal(p, line)] else [])
  {
    calcAfter := calcNormals;
    if |line| > 1 && line[1] == ' ' {
      ReadVertex(p, line, vb);
    } else if |line| > 1 && line[1] == 'n' {
      calcAfter := false;
      ReadNormal(p, line, nb);
    }
  }

  /** Reads line `i` into buffers that hold the state after the lines
      before it. */
  method ReadNext(p: Primitives, lines: seq<string>, i: nat, calcNormals: bool,
                  vb: GrowBuffer<Vertex>, fb: GrowBuffer<Tri>, nb: GrowBuffer<Vector>)
      returns (calcAfter: bool)
    requires WellFormed(p, lines) && i < |lines| && WellFormed(p, lines[..i])
    requires vb.Valid() && fb.Valid() && nb.Valid()
    requires var s := Load(p, lines[..i]);
      s.calcNormals == calcNormals && s.verts == vb.Contents() && s.tris == fb.Contents() && Agrees(nb.Contents(), s.normals)
    modifies vb, vb.data, fb, fb.data, nb, nb.data
    ensures vb.Valid() && fb.Valid() && nb.Valid()
    ensures fresh(vb.data) || vb.data == old(vb.data)
    ensures fresh(fb.data) || fb.data == old(fb.data)
    ensures fresh(nb.data) || nb.data == old(nb.data)
    ensures WellFormed(p, lines[..i + 1])
    ensures var s := Load(p, lines[..i + 1]);
      s.calcNormals == calcAfter && s.verts == vb.Contents() && s.tris == fb.Contents() && Agrees(nb.Contents(), s.normals)
  {
    ghost var s := Load(p, lines[..i]);
    LoadStep(p, lines, i);
    ghost var before := nb.Contents();
    calcAfter := ReadLine(p, lines[i], calcNormals, vb, fb, nb);
    assert nb.Contents() == before + nb.Contents()[|before|..];
    AgreesAppend(before, nb.Contents()[|before|..], s.normals, NormalsAdded(p, lines[i], calcNormals));
  }

  /** Loading one more line of a well-formed file is one more Step, field
      by field. */
  lemma LoadStep(p: Primitives, lines: seq<string>, i: nat)
    requires WellFormed(p, lines) && i < |lines|
    ensures WellFormed(p, lines[..i]) && WellFormed(p, lines[..i + 1]) && LineReadable(p, lines[i])
    ensures var s, t, line := Load(p, lines[..i]), Load(p, lines[..i + 1]), lines[i];
      && t.calcNormals == (s.calcNormals && KindOf(line) != NormalLine)
      && t.verts == s.verts + (if KindOf(line) == VertexLine then [ParseVertex(p, line)] else [])
      && t.tris == s.tris + (if KindOf(line) == FaceLine then [TriOf(p, line, s.calcNormals)] else [])
      && t.normals == s.normals + NormalsAdded(p, line, s.calcNormals)
  {
    WellFormedPrefix(p, lines, i);
    var next := lines[..i + 1];
    assert next[..|next| - 1] == lines[..i] && next[|next| - 1] == lines[i];
    assert Load(p, next) == Step(p, Load(p, lines[..i]), lines[i]);
  }

  /** LoadStep for the last line. */
  lemma LoadLast(p: Primitives, lines: seq<string>)
    requires WellFormed(p, lines) && lines != []
    ensures var prefix, line := lines[..|lines| - 1], lines[|lines| - 1];
      && WellFormed(p, prefix) && LineReadable(p, line)
      && var s, t := Load(p, prefix), Load(p, lines);
      && t.calcNormals == (s.calcNormals && KindOf(line) != NormalLine)
      && t.verts == s.verts + (if KindOf(line) == VertexLine then [ParseVertex(p, line)] else [])
      && t.tris == s.tris + (if KindOf(line) == FaceLine then [TriOf(p, line, s.calcNormals)] else [])
      && t.normals == s.normals + NormalsAdded(p, line, s.calcNormals)
  {
    LoadStep(p, lines, |lines| - 1);
    assert lines[..|lines|] == lines;
  }

  /** The fgets loop from empty buffers and calc_normals = true. */
  method ReadLines(p: Primitives, lines: seq<string>, vb: GrowBuffer<Vertex>, fb: GrowBuffer<Tri>, nb: GrowBuffer<Vector>)
    requires WellFormed(p, lines)
    requires vb.Valid() && fb.Valid() && nb.Valid()
    requires vb.Contents() == [] && fb.Contents() == [] && nb.Contents() == []
    modifies vb, vb.data, fb, fb.data, nb, nb.data
    ensures vb.Valid() && fb.Valid() && nb.Valid()
    ensures var s := Load(p, lines);
      s.verts == vb.Contents() && s.tris == fb.Contents() && Agrees(nb.Contents(), s.normals)
  {
    var calcNormals := true;
    var i := 0;
    while i < |lines|
      invariant 0 <= i <= |lines|
      invariant vb.Valid() && fb.Valid() && nb.Valid()
      invariant fresh(vb.data) || vb.data == old(vb.data)
      invariant fresh(fb.data) || fb.data == old(fb.data)
      invariant fresh(nb.data) || nb.data == old(nb.data)
      invariant WellFormed(p, lines[..i])
      invariant var s := Load(p, lines[..i]);
        s.calcNormals == calcNormals && s.verts == vb.Contents() && s.tris == fb.Contents() && Agrees(nb.Contents(), s.normals)
    {
      calcNormals := ReadNext(p, lines, i, calcNormals, vb, fb, nb);
      i := i + 1;
    }
    assert lines[..i] == lines;
  }

  /** CreateMeshFromFile (nova_geometry.c): NULL when the file cannot be
      opened; otherwise the mesh of the file's lines. Normal slots reserved
      in calc_normals mode hold whatever the buffer held. */
  method CreateMeshFromFile(p: Primitives, file: Option<seq<string>>) returns (mesh: Option<Mesh>)
    requires file.Some? ==> WellFormed(p, file.value)
    ensures file.None? <==> mesh.None?
    ensures file.Some? ==> var s := Load(p, file.value);
      && mesh.value.verts == s.verts && mesh.value.tris == s.tris && Agrees(mesh.value.normals, s.normals)
  {
    var vb := new GrowBuffer<Vertex>();
    var fb := new GrowBuffer<Tri>();
    var nb := new GrowBuffer<Vector>();
    if file.None? {
      return None;
    }
    ReadLines(p, file.value, vb, fb, nb);
    var verts := vb.Finish();
    var tris := fb.Finish();
    var normals := nb.Finish();
    mesh := Some(Mesh(verts, tris, normals));
  }
}
