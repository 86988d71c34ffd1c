/** The growable heap buffer that both OBJ loaders (Nova/nova_utility.c and
    Nova/nova_geometry.c) write out inline for every kind of element:

        count++;
        if (count > alloc) { alloc *= 2; buffer = realloc(buffer, alloc * size); }
        buffer[count - 1] = ...;

    starting from `alloc = 1` and an unwritten one-element buffer. */
module Growable {

  function Pow2(k: nat): (p: nat)
    ensures p >= 1
  {
    if k == 0 then 1 else 2 * Pow2(k - 1)
  }

  class GrowBuffer<T(0)> {
    /** The heap block; its length is `alloc`. */
    var data: array<T>
    /** The number of elements counted so far. */
    var count: nat
    /** alloc == 2^exponent. */
    ghost var exponent: nat

    /** The growth invariant: count never exceeds alloc, alloc is a power of
        two, and it is the least power of two that holds count elements
        (it has been doubled only when count exceeded it). */
    ghost predicate Valid()
      reads this
    {
      && data.Length == Pow2(exponent)
      && count <= data.Length
      && (exponent == 0 || Pow2(exponent - 1) < count)
    }

    /** The first `count` slots, the elements the loader has counted. */
    ghost function Contents(): seq<T>
      reads this, data
      requires Valid()
    {
      data[..count]
    }

    /** `count = 0; alloc = 1; buffer = malloc(1 * size)`. */
    constructor ()
      ensures Valid() && fresh(data)
      ensures count == 0 && data.Length == 1
    {
      data := new T[1];
      count := 0;
      exponent := 0;
    }

    /** `count++` and the doubling realloc when count exceeds alloc. The new
        last slot is not written: whatever it holds is indeterminate. */
    method Grow()
      requires Valid()
      modifies this
      ensures Valid() && count == old(count) + 1
      ensures old(count) + 1 > old(data.Length) ==> fresh(data) && data.Length == 2 * old(data.Length)
      ensures old(count) + 1 <= old(data.Length) ==> data == old(data)
      ensures Contents()[..old(count)] == old(Contents())
    {
      count := count + 1;
      if count > data.Length {
        var bigger := new T[2 * data.Length];
        forall i | 0 <= i < data.Length {
          bigger[i] := data[i];
        }
        data := bigger;
        exponent := exponent + 1;
      }
    }

    /** `buffer[count - 1] = x`. */
    method SetLast(x: T)
      requires Valid() && count > 0
      modifies data
      ensures Valid()
      ensures Contents() == old(Contents())[count - 1 := x]
    {
      data[count - 1] := x;
    }

    /** Grow, then write the new last slot. */
    method Push(x: T)
      requires Valid()
      modifies this, data
      ensures fresh(data) || data == old(data)
      ensures Valid() && Contents() == old(Contents()) + [x]
      ensures old(count) + 1 > old(data.Length) ==> data.Length == 2 * old(data.Length)
      ensures old(count) + 1 <= old(data.Length) ==> data.Length == old(data.Length)
    {
      Grow();
      SetLast(x);
    }
  
    /** The finalisation: an exact-size copy of the counted elements, or
        NULL (an empty list) when nothing was counted. */
    method Finish() returns (s: seq<T>)
      requires Valid()
      ensures s == Contents()
      ensures |s| == count
    {
      s := [];
      if count > 0 {
        s := data[..count];
      }
    }
  }
}
