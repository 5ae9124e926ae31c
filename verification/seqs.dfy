/** The optional value the source expresses with a null pointer. */
module Options {

  datatype Option<+T> = None | Some(value: T)
}

/**
 Order-preserving sequence helpers shared by every entity store: the stores
 remove elements while iterating over them, and each such pass is specified
 as a `Filter`, or as a search for the lowest index that satisfies a test.
 */
module Seqs {
  import opened Options

  /** The elements of `s` that satisfy `keep`, in their original order. */
  function Filter<T>(s: seq<T>, keep: T -> bool): (r: seq<T>)
    ensures |r| <= |s|
    decreases |s|
  {
    if |s| == 0 then []
    else Filter(s[..|s| - 1], keep) + (if keep(s[|s| - 1]) then [s[|s| - 1]] else [])
  }

  /** An element survives filtering exactly when it was in the input and passes the test. */
  lemma {:induction false} FilterMembership<T(!new)>(s: seq<T>, keep: T -> bool)
    ensures forall x :: x in Filter(s, keep) <==> x in s && keep(x)
    decreases |s|
  {
    if |s| > 0 {
      FilterMembership(s[..|s| - 1], keep);
      assert s == s[..|s| - 1] + [s[|s| - 1]];
    }
  }

  /** The positions of `s` whose elements `Filter` keeps, in increasing order. */
  function KeptIndices<T>(s: seq<T>, keep: T -> bool): seq<nat>
    decreases |s|
  {
    if |s| == 0 then []
    else KeptIndices(s[..|s| - 1], keep) + (if keep(s[|s| - 1]) then [|s| - 1] else [])
  }

  /** The lowest index whose element satisfies `test`, if any. */
  function FirstIndex<T>(s: seq<T>, test: T -> bool): (r: Option<nat>)
    ensures r.Some? ==> r.value < |s| && test(s[r.value])
    ensures r.Some? ==> forall j :: 0 <= j < r.value ==> !test(s[j])
    ensures r.None? ==> forall j :: 0 <= j < |s| ==> !test(s[j])
    decreases |s|
  {
    if |s| == 0 then None
    else if test(s[0]) then Some(0)
    else match FirstIndex(s[1..], test)
      case None => None
      case Some(k) => Some(k + 1)
  }

  /** The search finds `i` exactly when `s[i]` passes and nothing before it does. */
  lemma FirstIndexAt<T>(s: seq<T>, test: T -> bool, i: nat)
    requires i < |s| && test(s[i])
    requires forall j :: 0 <= j < i ==> !test(s[j])
    ensures FirstIndex(s, test) == Some(i)
  {
  }

  /** The kept elements sit at strictly increasing positions of the input: filtering keeps relative order. */
  lemma {:induction false} FilterKeepsOrder<T(!new)>(s: seq<T>, keep: T -> bool)
    ensures |KeptIndices(s, keep)| == |Filter(s, keep)|
    ensures forall k :: 0 <= k < |KeptIndices(s, keep)| ==>
              KeptIndices(s, keep)[k] < |s| && Filter(s, keep)[k] == s[KeptIndices(s, keep)[k]]
    ensures forall k, l :: 0 <= k < l < |KeptIndices(s, keep)| ==>
              KeptIndices(s, keep)[k] < KeptIndices(s, keep)[l]
    decreases |s|
  {
    if |s| > 0 {
      var n := |s| - 1;
      var p := s[..n];
      FilterKeepsOrder(p, keep);
      var ip, fp := KeptIndices(p, keep), Filter(p, keep);
      assert forall k :: 0 <= k < |ip| ==> ip[k] < n && fp[k] == s[ip[k]];
      if keep(s[n]) {
        assert KeptIndices(s, keep) == ip + [n];
        assert Filter(s, keep) == fp + [s[n]];
      } else {
        assert KeptIndices(s, keep) == ip;
        assert Filter(s, keep) == fp;
      }
    }
  }

  /** `f` applied to every element, in order. */
  function MapSeq<T, U>(s: seq<T>, f: T -> U): (r: seq<U>)
    ensures |r| == |s|
    ensures forall i :: 0 <= i < |s| ==> r[i] == f(s[i])
  {
    seq(|s|, i requires 0 <= i < |s| => f(s[i]))
  }

  /** Filtering distributes over concatenation. */
  lemma {:induction false} FilterAppend<T>(a: seq<T>, b: seq<T>, keep: T -> bool)
    ensures Filter(a + b, keep) == Filter(a, keep) + Filter(b, keep)
    decreases |b|
  {
    if |b| > 0 {
      var n := |b| - 1;
      assert (a + b)[..|a + b| - 1] == a + b[..n];
      FilterAppend(a, b[..n], keep);
    } else {
      assert a + b == a;
    }
  }

  /** Filtering seen from the front: the first element is kept or dropped, then the rest is filtered. */
  lemma FilterCons<T>(s: seq<T>, keep: T -> bool)
    requires |s| > 0
    ensures Filter(s, keep) == (if keep(s[0]) then [s[0]] else []) + Filter(s[1..], keep)
  {
    var head := [s[0]];
    assert s == head + s[1..];
    assert head[..0] == [];
    assert Filter(head, keep) == Filter([], keep) + (if keep(s[0]) then [s[0]] else []);
    FilterAppend(head, s[1..], keep);
  }

  /** Mapping seen from the front. */
  lemma MapSeqCons<T, U>(s: seq<T>, f: T -> U)
    requires |s| > 0
    ensures MapSeq(s, f) == [f(s[0])] + MapSeq(s[1..], f)
  {
  }

  /** The updated elements that pass `keep`, computed front to back in one pass. */
  function Culled<T>(s: seq<T>, step: T -> T, keep: T -> bool): seq<T>
    decreases |s|
  {
    if |s| == 0 then []
    else (if keep(step(s[0])) then [step(s[0])] else []) + Culled(s[1..], step, keep)
  }

  /** The one-pass form agrees with mapping first and filtering afterwards. */
  lemma {:induction false} CulledIsFilterOfMap<T>(s: seq<T>, step: T -> T, keep: T -> bool)
    ensures Culled(s, step, keep) == Filter(MapSeq(s, step), keep)
    decreases |s|
  {
    if |s| > 0 {
      CulledIsFilterOfMap(s[1..], step, keep);
      MapSeqCons(s, step);
      FilterCons(MapSeq(s, step), keep);
    } else {
      assert MapSeq(s, step) == [];
    }
  }

  /**
   The update-and-erase loop the entity stores share: the element at index
   `i` is updated in place by `step`; if the result fails `keep` it is erased
   and `i` is NOT advanced, because the next element has moved into slot `i`.
   No element is skipped or visited twice: the result is exactly the updated
   elements that pass `keep`, in their original order.
   */
  method StepAndCull<T>(s: seq<T>, step: T -> T, keep: T -> bool) returns (r: seq<T>)
    ensures r == Filter(MapSeq(s, step), keep)
  {
    r := s;
    var i := 0;
    while i < |r|
      invariant 0 <= i <= |r|
      invariant r[..i] + Culled(r[i..], step, keep) == Culled(s, step, keep)
      decreases |r| - i
    {
      var x := step(r[i]);
      assert r[i..][1..] == r[i + 1..];
      if !keep(x) {
        r := r[..i] + r[i + 1..];
      } else {
        r := r[..i] + [x] + r[i + 1..];
        i := i + 1;
      }
    }
    CulledIsFilterOfMap(s, step, keep);
  }

  /** When nothing passes `keep`, its complement keeps everything. */
  lemma {:induction false} FilterNoneKept<T>(s: seq<T>, keep: T -> bool, drop: T -> bool)
    requires forall x :: drop(x) == !keep(x)
    requires Filter(s, keep) == []
    ensures Filter(s, drop) == s
    decreases |s|
  {
    if |s| > 0 {
      FilterCons(s, keep);
      FilterCons(s, drop);
      FilterNoneKept(s[1..], keep, drop);
    }
  }

  /** When the search finds nothing, filtering keeps nothing. */
  lemma {:induction false} FirstIndexNone<T>(s: seq<T>, keep: T -> bool)
    requires FirstIndex(s, keep).None?
    ensures Filter(s, keep) == []
    decreases |s|
  {
    if |s| > 0 {
      FilterCons(s, keep);
      FirstIndexNone(s[1..], keep);
    }
  }

  /** When no element passes the test, filtering keeps nothing. */
  lemma {:induction false} FilterNoneOf<T>(s: seq<T>, keep: T -> bool)
    requires forall i :: 0 <= i < |s| ==> !keep(s[i])
    ensures Filter(s, keep) == []
    decreases |s|
  {
    if |s| > 0 {
      FilterNoneOf(s[..|s| - 1], keep);
    }
  }

  /**
   Splitting at the first element that passes `keep`: that element heads the
   kept list, and everything before it goes to the complement.
   */
  lemma FilterSplitAtFirst<T>(s: seq<T>, keep: T -> bool, drop: T -> bool, k: nat)
    requires forall x :: drop(x) == !keep(x)
    requires FirstIndex(s, keep) == Some(k)
    ensures Filter(s, keep) == [s[k]] + Filter(s[k + 1..], keep)
    ensures Filter(s, drop) == s[..k] + Filter(s[k + 1..], drop)
  {
    var front, back := s[..k], s[k..];
    assert s == front + back;
    assert back[0] == s[k] && back[1..] == s[k + 1..];
    FilterAppend(front, back, keep);
    FilterAppend(front, back, drop);
    FilterNoneOf(front, keep);
    FilterAllKept(front, drop);
    FilterCons(back, keep);
    FilterCons(back, drop);
    assert keep(back[0]) && !drop(back[0]);
    assert Filter(back, keep) == [s[k]] + Filter(s[k + 1..], keep);
    assert Filter(back, drop) == Filter(s[k + 1..], drop);
  }

  /**
   With at most one element passing `keep`, it is the one the search finds,
   and the complement keeps all the others, in order.
   */
  lemma FilterSingle<T>(s: seq<T>, keep: T -> bool, drop: T -> bool)
    requires forall x :: drop(x) == !keep(x)
    requires |Filter(s, keep)| <= 1
    ensures match FirstIndex(s, keep)
      case None => Filter(s, keep) == [] && Filter(s, drop) == s
      case Some(k) => Filter(s, keep) == [s[k]] && Filter(s, drop) == s[..k] + s[k + 1..]
  {
    match FirstIndex(s, keep)
    case None =>
      FirstIndexNone(s, keep);
      FilterNoneKept(s, keep, drop);
    case Some(k) =>
      FilterSplitAtFirst(s, keep, drop, k);
      FilterNoneKept(s[k + 1..], keep, drop);
  }

  /** Every element passes the test, so filtering changes nothing. */
  lemma {:induction false} FilterAllKept<T>(s: seq<T>, keep: T -> bool)
    requires forall i :: 0 <= i < |s| ==> keep(s[i])
    ensures Filter(s, keep) == s
    decreases |s|
  {
    if |s| > 0 {
      FilterAllKept(s[..|s| - 1], keep);
      assert s == s[..|s| - 1] + [s[|s| - 1]];
    }
  }

  /**
   `sub` is `s` with some elements left out and the others in their original
   order: `idx` gives, strictly increasing, the position in `s` of each
   element of `sub`.
   */
  predicate SubsequenceAt<T(==)>(sub: seq<T>, s: seq<T>, idx: seq<nat>) {
    && |idx| == |sub|
    && (forall k :: 0 <= k < |idx| ==> idx[k] < |s| && sub[k] == s[idx[k]])
    && (forall k, l :: 0 <= k < l < |idx| ==> idx[k] < idx[l])
  }

  /** Every position moved `n` places on. */
  function Shift(idx: seq<nat>, n: nat): (r: seq<nat>)
    ensures |r| == |idx| && forall k :: 0 <= k < |idx| ==> r[k] == idx[k] + n
  {
    seq(|idx|, k requires 0 <= k < |idx| => idx[k] + n)
  }

  /** The positions `0 .. n - 1` in order. */
  function Upto(n: nat): (r: seq<nat>)
    ensures |r| == n && forall k :: 0 <= k < n ==> r[k] == k
  {
    seq(n, k requires 0 <= k < n => k)
  }

  /** The positions `0 .. n - 1` without `k`. */
  function Skipping(n: nat, k: nat): (r: seq<nat>)
    requires k < n
    ensures |r| == n - 1 && forall j :: 0 <= j < n - 1 ==> r[j] == if j < k then j else j + 1
  {
    seq(n - 1, j requires 0 <= j < n - 1 => if j < k then j else j + 1)
  }

  /** Positions into positions: `outer[inner[k]]` for each `k`. */
  function Compose(outer: seq<nat>, inner: seq<nat>): (r: seq<nat>)
    requires forall k :: 0 <= k < |inner| ==> inner[k] < |outer|
    ensures |r| == |inner| && forall k :: 0 <= k < |inner| ==> r[k] == outer[inner[k]]
  {
    seq(|inner|, k requires 0 <= k < |inner| => outer[inner[k]])
  }

  /** A sequence is a subsequence of itself. */
  lemma SubsequenceRefl<T>(s: seq<T>)
    ensures SubsequenceAt(s, s, Upto(|s|))
  {
  }

  /** Leaving out one element keeps the rest in order. */
  lemma SubsequenceRemove<T>(s: seq<T>, k: nat)
    requires k < |s|
    ensures SubsequenceAt(s[..k] + s[k + 1..], s, Skipping(|s|, k))
  {
    var r, idx := s[..k] + s[k + 1..], Skipping(|s|, k);
    forall j | 0 <= j < |idx| ensures r[j] == s[idx[j]] {
      if j < k { assert r[j] == s[..k][j]; } else { assert r[j] == s[k + 1..][j - k]; }
    }
  }

  /** A subsequence of the tail is a subsequence of the whole. */
  lemma SubsequenceSkip<T>(sub: seq<T>, s: seq<T>, idx: seq<nat>)
    requires |s| > 0 && SubsequenceAt(sub, s[1..], idx)
    ensures SubsequenceAt(sub, s, Shift(idx, 1))
  {
    var r := Shift(idx, 1);
    forall k | 0 <= k < |r| ensures r[k] < |s| && sub[k] == s[r[k]] {
      assert sub[k] == s[1..][idx[k]];
    }
  }

  /** The head followed by a subsequence of the tail is a subsequence of the whole. */
  lemma SubsequenceTake<T>(sub: seq<T>, s: seq<T>, idx: seq<nat>)
    requires |s| > 0 && SubsequenceAt(sub, s[1..], idx)
    ensures SubsequenceAt([s[0]] + sub, s, [0] + Shift(idx, 1))
  {
    SubsequenceSkip(sub, s, idx);
    var r, t := [0] + Shift(idx, 1), [s[0]] + sub;
    forall k | 0 < k < |r| ensures r[k] == Shift(idx, 1)[k - 1] && t[k] == sub[k - 1] { }
  }

  /** A subsequence of a subsequence is a subsequence. */
  lemma SubsequenceTrans<T>(a: seq<T>, b: seq<T>, c: seq<T>, inner: seq<nat>, outer: seq<nat>)
    requires SubsequenceAt(a, b, inner) && SubsequenceAt(b, c, outer)
    ensures SubsequenceAt(a, c, Compose(outer, inner))
  {
  }
}
