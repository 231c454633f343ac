/** Filtering and failure-aware concatenation over sequences. */
module Sequences {
  import opened Wrappers

  /** The elements of `s` that satisfy `p`, in their original order (JavaScript's `Array.prototype.filter`). */
  function Filter<T(!new)>(s: seq<T>, p: T -> bool): (r: seq<T>)
    ensures |r| <= |s|
    ensures forall x :: x in r <==> x in s && p(x)
  {
    if s == [] then [] else Filter(s[..|s| - 1], p) + (if p(s[|s| - 1]) then [s[|s| - 1]] else [])
  }

  lemma {:induction false} FilterConcat<T(!new)>(a: seq<T>, b: seq<T>, p: T -> bool)
    ensures Filter(a + b, p) == Filter(a, p) + Filter(b, p)
  {
    if b == [] {
      assert a + b == a;
    } else {
      var b' := b[..|b| - 1];
      assert (a + b)[..|a + b| - 1] == a + b';
      FilterConcat(a, b', p);
    }
  }

  /** Nothing survives a filter that rejects every element. */
  lemma {:induction false} FilterRejectsAll<T(!new)>(s: seq<T>, p: T -> bool)
    requires forall x :: x in s ==> !p(x)
    ensures Filter(s, p) == []
  {
    if s != [] {
      FilterRejectsAll(s[..|s| - 1], p);
    }
  }

  /** Removing an element that `p` rejects does not change the filtered sequence. */
  lemma FilterSkips<T(!new)>(a: seq<T>, x: T, b: seq<T>, p: T -> bool)
    requires !p(x)
    ensures Filter(a + [x] + b, p) == Filter(a + b, p)
  {
    assert Filter([x], p) == [] by {
      assert [x][..0] == [];
    }
    calc {
      Filter(a + [x] + b, p);
    == { FilterConcat(a + [x], b, p); }
      Filter(a + [x], p) + Filter(b, p);
    == { FilterConcat(a, [x], p); }
      Filter(a, p) + Filter(b, p);
    == { FilterConcat(a, b, p); }
      Filter(a + b, p);
    }
  }

  /**
   * Applies `f` to every element in order and concatenates the results; the first
   * failing element makes the whole call fail with its error, as a loop that throws would.
   */
  function ConcatMap<T, U, E>(s: seq<T>, f: T -> Result<seq<U>, E>): Result<seq<U>, E>
  {
    if s == [] then Ok([])
    else
      match ConcatMap(s[..|s| - 1], f)
      case Err(e) => Err(e)
      case Ok(front) =>
        match f(s[|s| - 1])
        case Err(e) => Err(e)
        case Ok(last) => Ok(front + last)
  }

  /** One more element that succeeds extends a successful prefix by its own results. */
  lemma ConcatMapStep<T, U, E>(s: seq<T>, j: nat, f: T -> Result<seq<U>, E>)
    requires j < |s|
    requires ConcatMap(s[..j], f).Ok? && f(s[j]).Ok?
    ensures ConcatMap(s[..j + 1], f) == Ok(ConcatMap(s[..j], f).value + f(s[j]).value)
  {
    assert s[..j + 1][..j] == s[..j];
  }

  /** A prefix that fails makes the whole concatenation fail. */
  lemma {:induction false} ConcatMapFailedPrefix<T, U, E>(s: seq<T>, k: nat, f: T -> Result<seq<U>, E>)
    requires k <= |s|
    requires ConcatMap(s[..k], f).Err?
    ensures ConcatMap(s, f).Err?
    decreases |s| - k
  {
    if k < |s| {
      assert s[..k + 1][..k] == s[..k];
      ConcatMapFailedPrefix(s, k + 1, f);
    } else {
      assert s[..k] == s;
    }
  }

  /** The concatenation fails exactly when `f` fails on some element. */
  lemma {:induction false} ConcatMapFails<T, U, E>(s: seq<T>, f: T -> Result<seq<U>, E>)
    ensures ConcatMap(s, f).Err? <==> exists i :: 0 <= i < |s| && f(s[i]).Err?
  {
    if s != [] {
      var s' := s[..|s| - 1];
      ConcatMapFails(s', f);
      if exists i :: 0 <= i < |s'| && f(s'[i]).Err? {
        var i :| 0 <= i < |s'| && f(s'[i]).Err?;
        assert s[i] == s'[i];
      }
      if exists i :: 0 <= i < |s| && f(s[i]).Err? {
        var i :| 0 <= i < |s| && f(s[i]).Err?;
        if i < |s'| {
          assert s'[i] == s[i];
        }
      }
    }
  }

  /** Every element of a successful concatenation comes from `f` applied to some element of `s`. */
  lemma {:induction false} ConcatMapMembers<T, U, E>(s: seq<T>, f: T -> Result<seq<U>, E>, u: U)
    requires ConcatMap(s, f).Ok?
    ensures u in ConcatMap(s, f).value <==>
      exists i :: 0 <= i < |s| && f(s[i]).Ok? && u in f(s[i]).value
  {
    if s != [] {
      var s' := s[..|s| - 1];
      ConcatMapMembers(s', f, u);
      if exists i :: 0 <= i < |s'| && f(s'[i]).Ok? && u in f(s'[i]).value {
        var i :| 0 <= i < |s'| && f(s'[i]).Ok? && u in f(s'[i]).value;
        assert s[i] == s'[i];
      }
      if exists i :: 0 <= i < |s| && f(s[i]).Ok? && u in f(s[i]).value {
        var i :| 0 <= i < |s| && f(s[i]).Ok? && u in f(s[i]).value;
        if i < |s'| {
          assert s'[i] == s[i];
        }
      }
    }
  }
}
