/** What both Wavefront OBJ loaders (Nova/nova_utility.c and
    Nova/nova_geometry.c) share: how a line read by fgets is classified by
    its first two characters, and the order in which a face line's three
    sscanf formats are tried. The number conversions of sscanf and the
    square root inside VecNormalize are not interpreted: they are the
    parameters bundled in `Primitives`. */
module ObjScan {
  import opened NovaMath

  /** The three face formats, in the order the loaders try them. */
  datatype FaceFormat =
    | VertexUvNormal  // "f %d/%d/%d %d/%d/%d %d/%d/%d"
    | VertexNormal    // "f %d//%d %d//%d %d//%d"
    | VertexOnly      // "f %d %d %d"

  /** The C library and float code the model takes as given.
      floats(line): the values that sscanf's %f conversions assign on a
        "v", "vn" or "vt" line, in order (as many as it matched);
      ints(line, format): the values that sscanf's %d conversions assign on
        an "f" line under `format`, in order; its length is sscanf's count;
      normalize: VecNormalize, which divides by a square root. */
  datatype Primitives = Primitives(
    floats: string -> seq<real>,
    ints: (string, FaceFormat) -> seq<int>,
    normalize: Vector -> Vector)

  /** Three indices, one per triangle corner. */
  datatype Index3 = Index3(i0: int, i1: int, i2: int)

  /** The statement a line holds, from `line_buf[0]` and `line_buf[1]`. A
      line shorter than two characters has the terminating NUL there. */
  datatype LineKind = VertexLine | NormalLine | UvLine | FaceLine | OtherLine

  function KindOf(line: string): (k: LineKind)
    ensures k == VertexLine <==> |line| >= 2 && line[0] == 'v' && line[1] == ' '
    ensures k == NormalLine <==> |line| >= 2 && line[0] == 'v' && line[1] == 'n'
    ensures k == UvLine <==> |line| >= 2 && line[0] == 'v' && line[1] == 't'
    ensures k == FaceLine <==> |line| >= 1 && line[0] == 'f'
  {
    if |line| == 0 then OtherLine
    else if line[0] == 'v' then
      if |line| < 2 then OtherLine
      else if line[1] == ' ' then VertexLine
      else if line[1] == 'n' then NormalLine
      else if line[1] == 't' then UvLine
      else OtherLine
    else if line[0] == 'f' then FaceLine
    else OtherLine
  }

  /** The lines of `lines` of one kind, in file order. */
  function LinesOf(lines: seq<string>, kind: LineKind): (r: seq<string>)
    ensures |r| <= |lines|
  {
    if lines == [] then []
    else LinesOf(lines[..|lines| - 1], kind) + (if KindOf(lines[|lines| - 1]) == kind then [lines[|lines| - 1]] else [])
  }

  /** The number of %d conversions of a full match of `f`. */
  function FieldCount(f: FaceFormat): nat {
    match f
    case VertexUvNormal => 9
    case VertexNormal => 6
    case VertexOnly => 3
  }

  /** The fallback: `v/t/n` first; if it matched fewer than 3 fields, `v//n`;
      if that matched fewer than 3, `v v v`. Returns the format whose
      values the loader goes on to use, with those values. */
  function ScanFace(p: Primitives, line: string): (r: (FaceFormat, seq<int>))
    ensures r.1 == p.ints(line, r.0)
    ensures r.0 == VertexUvNormal <==> |p.ints(line, VertexUvNormal)| >= 3
    ensures r.0 == VertexNormal <==> |p.ints(line, VertexUvNormal)| < 3 && |p.ints(line, VertexNormal)| >= 3
    ensures r.0 == VertexOnly <==> |p.ints(line, VertexUvNormal)| < 3 && |p.ints(line, VertexNormal)| < 3
  {
    var m := p.ints(line, VertexUvNormal);
    if |m| >= 3 then (VertexUvNormal, m)
    else
      var m := p.ints(line, VertexNormal);
      if |m| >= 3 then (VertexNormal, m)
      else (VertexOnly, p.ints(line, VertexOnly))
  }

  /** A face line the loaders can read: the format finally chosen matched
      all of its fields (otherwise some of the indices are indeterminate). */
  predicate FaceWellFormed(p: Primitives, line: string) {
    var (f, vals) := ScanFace(p, line);
    |vals| == FieldCount(f)
  }

  /** The vertex indices (v0, v1, v2) as read, before rebasing. */
  function FaceVertices(f: FaceFormat, vals: seq<int>): Index3
    requires |vals| == FieldCount(f)
  {
    match f
    case VertexUvNormal => Index3(vals[0], vals[3], vals[6])
    case VertexNormal => Index3(vals[0], vals[2], vals[4])
    case VertexOnly => Index3(vals[0], vals[1], vals[2])
  }

  /** The texture-coordinate indices (t0, t1, t2) of a `v/t/n` face. */
  function FaceUvs(vals: seq<int>): Index3
    requires |vals| == 9
  {
    Index3(vals[1], vals[4], vals[7])
  }

  /** The normal indices (n0, n1, n2) of a `v/t/n` or `v//n` face. */
  function FaceNormals(f: FaceFormat, vals: seq<int>): Index3
    requires f != VertexOnly && |vals| == FieldCount(f)
  {
    if f == VertexUvNormal then Index3(vals[2], vals[5], vals[8]) else Index3(vals[1], vals[3], vals[5])
  }

  /** OBJ indices count from 1, C arrays from 0. */
  function Rebase(t: Index3): (r: Index3)
    ensures r.i0 + 1 == t.i0 && r.i1 + 1 == t.i1 && r.i2 + 1 == t.i2
  {
    Index3(t.i0 - 1, t.i1 - 1, t.i2 - 1)
  }

  /** Every element of `t` is a 1-based index into a list of `n` elements. */
  predicate InRange1(t: Index3, n: nat) {
    1 <= t.i0 <= n && 1 <= t.i1 <= n && 1 <= t.i2 <= n
  }
}
