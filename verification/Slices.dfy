/** Where a sequence occurs in a longer one. */
module Slices {

  /** The text at `off` goes on with `b`. */
  predicate At<T(==)>(text: seq<T>, off: nat, b: seq<T>) {
    off + |b| <= |text| && text[off..off + |b|] == b
  }

  lemma AtFits<T>(text: seq<T>, off: nat, b: seq<T>)
    requires At(text, off, b)
    ensures off + |b| <= |text|
  {
  }

  lemma AtSplits<T>(text: seq<T>, off: nat, a: seq<T>, b: seq<T>)
    requires At(text, off, a + b)
    ensures At(text, off, a) && At(text, off + |a|, b)
  {
    var whole := text[off..off + |a + b|];
    assert whole[..|a|] == a && whole[|a|..] == b;
    assert whole[..|a|] == text[off..off + |a|];
    assert whole[|a|..] == text[off + |a|..off + |a| + |b|];
  }

  lemma Assoc<T>(a: seq<T>, b: seq<T>, c: seq<T>)
    ensures a + (b + c) == a + b + c
  {
  }
}
