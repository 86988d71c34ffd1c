/** The fixed-width C integer types the model needs, as ranges of the
    unbounded integers. Arithmetic that wraps in C is written out with an
    explicit `%` where it is modelled. */
module CTypes {
  /** unsigned char, and a byte of a file. */
  newtype byte = b: int | 0 <= b < 0x100

  /** uint32_t and unsigned int. */
  newtype uint32 = w: int | 0 <= w < 0x1_0000_0000

  /** int. */
  newtype int32 = v: int | -0x8000_0000 <= v < 0x8000_0000

  /** A conversion to unsigned int: the value modulo 2^32. */
  function ToUnsigned(v: int): (u: uint32)
    ensures u as int % 0x1_0000_0000 == v % 0x1_0000_0000
  {
    (v % 0x1_0000_0000) as uint32
  }

  /** C's `/` on int, which truncates toward zero. */
  function CQuot(a: int, b: int): int
    requires b > 0
  {
    if a >= 0 then a / b else -((-a) / b)
  }

  /** C's `%` on int: `(a / b) * b + a % b == a`, and the remainder takes
      the sign of the dividend. */
  function CRem(a: int, b: int): (r: int)
    requires b > 0
    ensures CQuot(a, b) * b + r == a
    ensures -b < r < b
    ensures a >= 0 ==> r == a % b
    ensures a < 0 ==> r <= 0
  {
    if a >= 0 then a % b else -((-a) % b)
  }

  /** a <= b and c >= 0 give a * c <= b * c. */
  lemma MulMono(a: int, b: int, c: int)
    requires a <= b && c >= 0
    ensures a * c <= b * c
  {
  }

  /** One more row of b: (a + 1) * b == a * b + b. */
  lemma MulSucc(a: int, b: int)
    ensures (a + 1) * b == a * b + b
  {
  }

  /** x + y * w splits into quotient y and remainder x. */
  lemma LinearDivMod(x: int, y: int, w: int)
    requires 0 <= x < w && 0 <= y
    ensures (x + y * w) / w == y && (x + y * w) % w == x
  {
    var i := x + y * w;
    assert i == w * (i / w) + i % w;
    if i / w > y {
      MulMono(y + 1, i / w, w);
    } else if i / w < y {
      MulMono(i / w + 1, y, w);
    }
  }
}
