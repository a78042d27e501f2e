/** Sequence helpers: a Python list comprehension `[f(x) for x in xs]`. */
module Seqs {

  /** Concatenation regroups freely. */
  lemma ConcatAssoc<T>(a: seq<T>, b: seq<T>, c: seq<T>)
    ensures a + b + c == a + (b + c)
  {
  }

  /** The lists of `parts` joined end to end, in order. */
  function Flatten<T>(parts: seq<seq<T>>): seq<T>
    decreases |parts|
  {
    if parts == [] then [] else Flatten(parts[..|parts| - 1]) + parts[|parts| - 1]
  }

  /** `f` applied to each element, in order. */
  function MapSeq<A, B>(f: A --> B, xs: seq<A>): (ys: seq<B>)
    requires forall i :: 0 <= i < |xs| ==> f.requires(xs[i])
    ensures |ys| == |xs|
    decreases |xs|
  {
    if xs == [] then [] else MapSeq(f, xs[..|xs| - 1]) + [f(xs[|xs| - 1])]
  }

  lemma MapSeqStep<A, B>(f: A --> B, xs: seq<A>, i: nat)
    requires forall j :: 0 <= j < |xs| ==> f.requires(xs[j])
    requires i < |xs|
    ensures MapSeq(f, xs[..i + 1]) == MapSeq(f, xs[..i]) + [f(xs[i])]
  {
    assert xs[..i + 1][..i] == xs[..i];
  }

  lemma {:induction false} MapSeqAt<A, B>(f: A --> B, xs: seq<A>, i: nat)
    requires forall j :: 0 <= j < |xs| ==> f.requires(xs[j])
    requires i < |xs|
    ensures MapSeq(f, xs)[i] == f(xs[i])
    decreases |xs|
  {
    if i < |xs| - 1 {
      MapSeqAt(f, xs[..|xs| - 1], i);
    }
  }

  lemma {:induction false} MapSeqConcat<A, B>(f: A --> B, a: seq<A>, b: seq<A>)
    requires forall j :: 0 <= j < |a| ==> f.requires(a[j])
    requires forall j :: 0 <= j < |b| ==> f.requires(b[j])
    ensures forall j :: 0 <= j < |a + b| ==> f.requires((a + b)[j])
    ensures MapSeq(f, a + b) == MapSeq(f, a) + MapSeq(f, b)
    decreases |b|
  {
    if b == [] {
      assert a + b == a;
    } else {
      var b' := b[..|b| - 1];
      var y := f(b[|b| - 1]);
      assert MapSeq(f, a + b) == MapSeq(f, a + b') + [y] by {
        assert (a + b)[..|a + b| - 1] == a + b';
      }
      MapSeqConcat(f, a, b');
      ConcatAssoc(MapSeq(f, a), MapSeq(f, b'), [y]);
    }
  }

}
