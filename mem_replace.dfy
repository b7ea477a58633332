/**
 * The rotation solver of `2_idioms/2_2_mem_replace`: a `Trinity` of three
 * values rotates (a, b, c) to (b, c, a), and a `Solver` drops from its
 * `unsolved` list every trinity that some rotation turns into `expected`.
 * There are two implementations, one that swaps and takes (`optimized`)
 * and one that clones (`original`); both are modelled and shown to agree.
 */
module MemReplace {

  datatype Trinity<T> = Trinity(a: T, b: T, c: T)
  {
    /** `optimized::Trinity::rotate`: swap a with b, then b with c. */
    method Rotate() returns (r: Trinity<T>)
      ensures r == Rotated(this)
    {
      var a, b, c := this.a, this.b, this.c;
      a, b := b, a;
      b, c := c, b;
      r := Trinity(a, b, c);
    }

    /** `original::Trinity::rotate`: clone all three, then assign them shifted. */
    method RotateByClones() returns (r: Trinity<T>)
      ensures r == Rotated(this)
    {
      var a, b, c := this.a, this.b, this.c;
      r := Trinity(b, c, a);
    }
  }

  /** (a, b, c) rotated once: (b, c, a). */
  function Rotated<T>(t: Trinity<T>): Trinity<T> {
    Trinity(t.b, t.c, t.a)
  }

  /** `t` rotated `k` times. */
  function RotatedTimes<T>(t: Trinity<T>, k: nat): Trinity<T> {
    if k == 0 then t else Rotated(RotatedTimes(t, k - 1))
  }

  /** The first rotations, written out. */
  lemma RotatedTimesSmall<T>(t: Trinity<T>)
    ensures RotatedTimes(t, 0) == t
    ensures RotatedTimes(t, 1) == Rotated(t)
    ensures RotatedTimes(t, 2) == Rotated(Rotated(t))
    ensures RotatedTimes(t, 3) == Rotated(Rotated(Rotated(t)))
  {
    assert RotatedTimes(t, 1) == Rotated(RotatedTimes(t, 0));
    assert RotatedTimes(t, 2) == Rotated(RotatedTimes(t, 1));
    assert RotatedTimes(t, 3) == Rotated(RotatedTimes(t, 2));
  }

  /** Rotating three times gives back the same trinity. */
  lemma RotateThreeTimesIsIdentity<T>(t: Trinity<T>)
    ensures RotatedTimes(t, 3) == t
  {
    RotatedTimesSmall(t);
  }

  /** Rotations are periodic with period 3. */
  lemma {:induction false} RotatedTimesPeriodic<T>(t: Trinity<T>, k: nat)
    ensures RotatedTimes(t, k + 3) == RotatedTimes(t, k)
  {
    if k == 0 {
      RotateThreeTimesIsIdentity(t);
    } else {
      RotatedTimesPeriodic(t, k - 1);
      assert RotatedTimes(t, k + 3) == Rotated(RotatedTimes(t, k - 1 + 3));
    }
  }

  /** `t` becomes `expected` after 0, 1 or 2 rotations. */
  predicate IsRotationOf<T(==)>(t: Trinity<T>, expected: Trinity<T>) {
    t == expected || Rotated(t) == expected || Rotated(Rotated(t)) == expected
  }

  /** A trinity that any number of rotations turns into `expected` is a rotation of it. */
  lemma {:induction false} RotationOfAnyTimes<T>(t: Trinity<T>, expected: Trinity<T>, k: nat)
    requires RotatedTimes(t, k) == expected
    ensures IsRotationOf(t, expected)
  {
    if k >= 3 {
      RotatedTimesPeriodic(t, k - 3);
      RotationOfAnyTimes(t, expected, k - 3);
    } else {
      RotatedTimesSmall(t);
    }
  }

  /** Being a rotation of `expected` is symmetric. */
  lemma IsRotationOfSymmetric<T>(t: Trinity<T>, expected: Trinity<T>)
    ensures IsRotationOf(t, expected) <==> IsRotationOf(expected, t)
  {
  }

  /** The trinities of `ts` that are not rotations of `expected`, in their order. */
  function Unsolved<T(==)>(ts: seq<Trinity<T>>, expected: Trinity<T>): seq<Trinity<T>> {
    if ts == [] then []
    else
      var rest := Unsolved(ts[..|ts| - 1], expected);
      if IsRotationOf(ts[|ts| - 1], expected) then rest else rest + [ts[|ts| - 1]]
  }

  /** What is kept: no kept trinity is a rotation of `expected`; every other one is kept. */
  lemma {:induction false} UnsolvedKeepsExactly<T>(ts: seq<Trinity<T>>, expected: Trinity<T>)
    ensures |Unsolved(ts, expected)| <= |ts|
    ensures forall t | t in Unsolved(ts, expected) :: t in ts && !IsRotationOf(t, expected)
    ensures forall t | t in ts && !IsRotationOf(t, expected) :: t in Unsolved(ts, expected)
  {
    if ts != [] {
      var init := ts[..|ts| - 1];
      UnsolvedKeepsExactly(init, expected);
      assert ts == init + [ts[|ts| - 1]];
    }
  }

  /** Resolving list after list is resolving the concatenation. */
  lemma {:induction false} UnsolvedAppend<T>(xs: seq<Trinity<T>>, ys: seq<Trinity<T>>, expected: Trinity<T>)
    ensures Unsolved(xs + ys, expected) == Unsolved(xs, expected) + Unsolved(ys, expected)
  {
    if ys != [] {
      var init := ys[..|ys| - 1];
      assert (xs + ys)[..|xs + ys| - 1] == xs + init;
      UnsolvedAppend(xs, init, expected);
    } else {
      assert xs + ys == xs;
    }
  }

  /** Resolving twice removes nothing more. */
  lemma {:induction false} UnsolvedIdempotent<T>(ts: seq<Trinity<T>>, expected: Trinity<T>)
    ensures Unsolved(Unsolved(ts, expected), expected) == Unsolved(ts, expected)
  {
    if ts != [] {
      var init := ts[..|ts| - 1];
      var last := ts[|ts| - 1];
      UnsolvedIdempotent(init, expected);
      if !IsRotationOf(last, expected) {
        var rest := Unsolved(init, expected);
        assert (rest + [last])[..|rest + [last]| - 1] == rest;
      }
    }
  }

  /**
   * The body of the closure given to `retain_mut` (and of the inner loop of
   * the original): up to three checks, rotating after each failed one.
   * Returns whether to keep the trinity, and the trinity as left by the loop.
   */
  method CheckRotations<T(==)>(t: Trinity<T>, expected: Trinity<T>) returns (keep: bool, last: Trinity<T>)
    ensures keep <==> !IsRotationOf(t, expected)
    ensures keep ==> last == t
  {
    RotatedTimesSmall(t);
    last := t;
    for k := 0 to 3
      invariant last == RotatedTimes(t, k)
      invariant forall j | 0 <= j < k :: RotatedTimes(t, j) != expected
    {
      if last == expected {
        return false, last;
      }
      last := last.Rotate();
    }
    RotateThreeTimesIsIdentity(t);
    keep := true;
  }

  /** `optimized::Solver`. */
  class Solver<T(==)> {
    var expected: Trinity<T>
    var unsolved: seq<Trinity<T>>

    /** `Solver::new`. */
    constructor (expected: Trinity<T>, unsolved: seq<Trinity<T>>)
      ensures this.expected == expected && this.unsolved == unsolved
    {
      this.expected := expected;
      this.unsolved := unsolved;
    }

    /** `optimized::Solver::resolve`: take the list, `retain_mut` it, put it back. */
    method Resolve()
      modifies this
      ensures expected == old(expected)
      ensures unsolved == Unsolved(old(unsolved), expected)
    {
      var all := unsolved;
      unsolved := [];
      var kept: seq<Trinity<T>> := [];
      for i := 0 to |all|
        invariant expected == old(expected)
        invariant kept == Unsolved(all[..i], expected)
      {
        var keep, _ := CheckRotations(all[i], expected);
        assert all[..i + 1][..i] == all[..i];
        if keep {
          kept := kept + [all[i]];
        }
      }
      assert all[..|all|] == all;
      unsolved := kept;
    }
  }

  /** `original::Solver`. */
  class OriginalSolver<T(==)> {
    var expected: Trinity<T>
    var unsolved: seq<Trinity<T>>

    /** `Solver::new`. */
    constructor (expected: Trinity<T>, unsolved: seq<Trinity<T>>)
      ensures this.expected == expected && this.unsolved == unsolved
    {
      this.expected := expected;
      this.unsolved := unsolved;
    }

    /**
     * `original::Solver::resolve`: walk the list rotating each trinity in
     * place up to three times; a trinity that never equals `expected` has
     * been rotated three times and is pushed, as a clone, onto a new list.
     */
    method Resolve()
      modifies this
      ensures expected == old(expected)
      ensures unsolved == Unsolved(old(unsolved), expected)
    {
      var result: seq<Trinity<T>> := [];
      var items := unsolved;
      for i := 0 to |items|
        invariant expected == old(expected)
        invariant result == Unsolved(items[..i], expected)
      {
        var t := items[i];
        var matched := false;
        RotatedTimesSmall(items[i]);
        for k := 0 to 3
          invariant expected == old(expected)
          invariant !matched ==> t == RotatedTimes(items[i], k)
          invariant !matched ==> forall j | 0 <= j < k :: RotatedTimes(items[i], j) != expected
          invariant matched ==> IsRotationOf(items[i], expected)
        {
          if !matched {
            if t == expected {
              matched := true;
            } else {
              t := t.RotateByClones();
            }
          }
        }
        assert items[..i + 1][..i] == items[..i];
        if !matched {
          RotateThreeTimesIsIdentity(items[i]);
          result := result + [t];
        }
      }
      assert items[..|items|] == items;
      unsolved := result;
    }
  }

  /** Both implementations leave the same `unsolved` list. */
  method ResolveBoth<T(==)>(expected: Trinity<T>, unsolved: seq<Trinity<T>>)
    returns (optimized: seq<Trinity<T>>, original: seq<Trinity<T>>)
    ensures optimized == original == Unsolved(unsolved, expected)
  {
    var s := new Solver(expected, unsolved);
    s.Resolve();
    var o := new OriginalSolver(expected, unsolved);
    o.Resolve();
    optimized, original := s.unsolved, o.unsolved;
  }

  /** The demonstration input: only (2, 1, 3) is not a rotation of (1, 2, 3). */
  lemma DemonstrationResolve()
    ensures Unsolved([Trinity(1, 2, 3), Trinity(2, 1, 3), Trinity(2, 3, 1), Trinity(3, 1, 2)], Trinity(1, 2, 3))
      == [Trinity(2, 1, 3)]
  {
    var e := Trinity(1, 2, 3);
    var t1 := [Trinity(1, 2, 3)];
    var t2 := t1 + [Trinity(2, 1, 3)];
    var t3 := t2 + [Trinity(2, 3, 1)];
    var t4 := t3 + [Trinity(3, 1, 2)];
    assert t1[..0] == [] && t2[..1] == t1 && t3[..2] == t2 && t4[..3] == t3;
    assert Unsolved(t1, e) == [];
    assert !IsRotationOf(Trinity(2, 1, 3), e);
    assert Unsolved(t2, e) == [Trinity(2, 1, 3)];
    assert Unsolved(t3, e) == [Trinity(2, 1, 3)];
    assert t4 == [Trinity(1, 2, 3), Trinity(2, 1, 3), Trinity(2, 3, 1), Trinity(3, 1, 2)];
  }
}
