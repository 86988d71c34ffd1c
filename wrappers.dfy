/** Option, for the C code's NULL results and for values the C code leaves
    unwritten (indeterminate). */
module Wrappers {

  datatype Option<+T> = None | Some(value: T)

  /** A buffer `actual` holds the slots of `spec`: same length, and the
      same value in every slot whose content the program determines. The
      slots that are None were never written, so they hold whatever the
      heap held. */
  ghost predicate Agrees<T>(actual: seq<T>, spec: seq<Option<T>>) {
    && |actual| == |spec|
    && forall k :: 0 <= k < |spec| && spec[k].Some? ==> actual[k] == spec[k].value
  }

  lemma AgreesAppend<T>(a: seq<T>, b: seq<T>, s: seq<Option<T>>, t: seq<Option<T>>)
    requires Agrees(a, s) && Agrees(b, t)
    ensures Agrees(a + b, s + t)
  {
    var ab, st := a + b, s + t;
    forall k | 0 <= k < |st| && st[k].Some?
      ensures ab[k] == st[k].value
    {
      if k >= |s| {
        assert st[k] == t[k - |s|] && ab[k] == b[k - |a|];
      }
    }
  }

  /** The buffer of `size` slots after the first n of a sequence of writes,
      write k storing vals[k] at slot slots[k]: None where no write landed,
      otherwise a value written there. */
  function Scatter<T>(vals: seq<T>, slots: seq<int>, size: int, n: int): (r: seq<Option<T>>)
    requires 0 <= n <= |vals| == |slots| && 0 <= size
    requires forall k :: 0 <= k < |slots| ==> 0 <= slots[k] < size
    ensures |r| == size
    decreases n
  {
    if n == 0 then seq(size, _ => None)
    else Scatter(vals, slots, size, n - 1)[slots[n - 1] := Some(vals[n - 1])]
  }

  /** One write more: storing write k's value at its slot keeps a buffer
      in step with the writes so far. */
  lemma ScatterStep<T>(before: seq<T>, vals: seq<T>, slots: seq<int>, size: int, k: int)
    requires 0 <= k < |vals| == |slots| && 0 <= size
    requires forall j :: 0 <= j < |slots| ==> 0 <= slots[j] < size
    requires Agrees(before, Scatter(vals, slots, size, k))
    ensures 0 <= slots[k] < |before|
    ensures Agrees(before[slots[k] := vals[k]], Scatter(vals, slots, size, k + 1))
  {
  }

  /** Last write wins: a slot is unwritten exactly when no write chose it,
      and otherwise holds the value of the last write that did. */
  lemma {:induction false} ScatterLastWrite<T>(vals: seq<T>, slots: seq<int>, size: int, n: int, s: int)
    requires 0 <= n <= |vals| == |slots| && 0 <= size
    requires forall k :: 0 <= k < |slots| ==> 0 <= slots[k] < size
    requires 0 <= s < size
    ensures Scatter(vals, slots, size, n)[s].None? <==> forall k :: 0 <= k < n ==> slots[k] != s
    ensures forall k :: (0 <= k < n && slots[k] == s && forall j :: k < j < n ==> slots[j] != s)
              ==> Scatter(vals, slots, size, n)[s] == Some(vals[k])
    decreases n
  {
    if n > 0 {
      ScatterLastWrite(vals, slots, size, n - 1, s);
      if slots[n - 1] == s {
        forall k | 0 <= k < n - 1 && slots[k] == s
          ensures exists j :: k < j < n && slots[j] == s
        {
          assert k < n - 1 < n;
        }
      }
    }
  }

  /** Writes that go each to its own index, in order, leave the first n
      values in place and the rest of the buffer unwritten. */
  lemma {:induction false} ScatterInPlace<T>(vals: seq<T>, slots: seq<int>, n: int)
    requires 0 <= n <= |vals| == |slots|
    requires forall k :: 0 <= k < |slots| ==> slots[k] == k
    ensures forall i :: 0 <= i < |slots| ==>
      Scatter(vals, slots, |slots|, n)[i] == if i < n then Some(vals[i]) else None
    decreases n
  {
    if n > 0 {
      ScatterInPlace(vals, slots, n - 1);
    }
  }
}
