/** What decides whether a deps log is rewritten: its counters of records. */
module DepsCounters {
  import opened GoInts
  import opened DepsFormat
  import DepsLogs

  /** The outputs of a history, in order. */
  function Outputs(recs: seq<Rec>): seq<nat> {
    if recs == [] then []
    else
      var last := recs[|recs| - 1];
      Outputs(recs[..|recs| - 1]) + match last {
        case PathRec(_) => []
        case DepsRec(out, _, _) => [out]
      }
  }

  /** Is the `k`-th output larger than all before it? */
  predicate Highest(outs: seq<nat>, k: nat)
    requires k < |outs|
  {
    forall j :: 0 <= j < k ==> outs[j] < outs[k]
  }

  function Heights(outs: seq<nat>): set<nat> {
    set k | 0 <= k < |outs| && Highest(outs, k)
  }

  predicate Above(outs: seq<nat>, out: nat) {
    forall j :: 0 <= j < |outs| ==> outs[j] < out
  }

  lemma HeightsSnoc(outs: seq<nat>, out: nat)
    ensures Heights(outs + [out]) == Heights(outs) + if Above(outs, out) then {|outs|} else {}
  {
    var more := outs + [out];
    assert forall j :: 0 <= j < |outs| ==> more[j] == outs[j];
    assert forall k :: 0 <= k < |outs| ==> (Highest(more, k) <==> Highest(outs, k));
    assert Highest(more, |outs|) <==> Above(outs, out);
  }

  predicate TableIs(outs: seq<nat>, n: nat) {
    Above(outs, n) && (n > 0 ==> n - 1 in outs)
  }

  lemma AboveIff(outs: seq<nat>, n: nat, out: nat)
    requires TableIs(outs, n)
    ensures Above(outs, out) <==> n <= out
  {
  }

  lemma {:induction false} TableAfter(recs: seq<Rec>)
    ensures TableIs(Outputs(recs), DepsCount(recs))
  {
    if recs != [] {
      TableAfter(recs[..|recs| - 1]);
    }
  }

  /** What the read loop counts in a written log: all deps records, and those for
      an output larger than all before it, which need not be all outputs. */
  lemma {:induction false} CountersAre(recs: seq<Rec>)
    requires ValidRecs(recs)
    ensures ApplyAll(recs).total == |Outputs(recs)| && ApplyAll(recs).unique == |Heights(Outputs(recs))|
  {
    hide ValidRec, SetDeps, Heights;
    if recs == [] {
      assert Heights([]) == {} by { NoHeights(); }
    } else {
      var init, last := recs[..|recs| - 1], recs[|recs| - 1];
      CountersAre(init);
      TableAfter(init);
      if last.DepsRec? {
        HeightsSnoc(Outputs(init), last.out);
        NotYet(Outputs(init));
        AboveIff(Outputs(init), DepsCount(init), last.out);
        assert Outputs(recs) == Outputs(init) + [last.out];
      } else {
        assert Outputs(recs) == Outputs(init);
      }
    }
  }

  lemma NoHeights()
    ensures Heights([]) == {}
  {
  }

  lemma NotYet(outs: seq<nat>)
    ensures |outs| !in Heights(outs)
  {
  }

  /** A written log is rewritten iff it is broken or has no deps records, or more
      than a thousand of them and more than three for each output counted. */
  lemma RewrittenIff(recs: seq<Rec>, broken: bool)
    requires ValidRecs(recs)
    ensures var n, counted := |Outputs(recs)|, |Heights(Outputs(recs))|;
            DepsLogs.NeedsRecompact(ApplyAll(recs), broken) <==> broken || n == 0 || (n > 1000 && n > 3 * counted)
  {
    hide Heights, ApplyAll;
    CountersAre(recs);
  }

  /** As many outputs are counted as there are, iff each one is larger than all
      before it when it comes first. */
  lemma {:induction false} CountedIff(outs: seq<nat>)
    ensures |Heights(outs)| <= |Distinct(outs)|
    ensures |Heights(outs)| == |Distinct(outs)| <==> Rising(outs)
  {
    hide Heights, Rising, Distinct;
    if outs == [] {
      NoHeights();
      assert Distinct([]) == {} && Rising([]) by { NoOutputs(); }
    } else {
      var n := |outs| - 1;
      var init, last := outs[..n], outs[n];
      assert outs == init + [last];
      CountedIff(init);
      HeightsSnoc(init, last);
      NotYet(init);
      DistinctSnoc(init, last);
      RisingSnoc(init, last);
      var one := if Above(init, last) then {|init|} else {};
      assert |Heights(outs)| == |Heights(init)| + |one|;
    }
  }

  /** Each output is larger than all before it when it comes first. */
  predicate Rising(outs: seq<nat>) {
    forall k :: 0 <= k < |outs| && outs[k] !in outs[..k] ==> Highest(outs, k)
  }

  lemma NoOutputs()
    ensures Distinct([]) == {} && Rising([])
  {
  }

  lemma RisingSnoc(outs: seq<nat>, out: nat)
    ensures Rising(outs + [out]) <==> Rising(outs) && (out in outs || Above(outs, out))
  {
    var more := outs + [out];
    assert more[..|outs|] == outs;
    assert forall k :: 0 <= k < |outs| ==> outs[..k] == more[..k] && (Highest(more, k) <==> Highest(outs, k));
    assert Highest(more, |outs|) <==> Above(outs, out);
  }

  lemma DistinctSnoc(outs: seq<nat>, out: nat)
    ensures |Distinct(outs + [out])| == |Distinct(outs)| + if out in outs then 0 else 1
    ensures Above(outs, out) ==> out !in outs
  {
    assert Distinct(outs + [out]) == Distinct(outs) + {out};
  }

  function Distinct(outs: seq<nat>): set<nat> {
    set x | x in outs
  }

  /** Outputs that come in falling order: two of three are missed. */
  lemma LowerIsMissed()
    ensures |Heights([2, 1, 0])| == 1 && |Distinct([2, 1, 0])| == 3
  {
    assert Highest([2, 1, 0], 0) && !Highest([2, 1, 0], 1) && !Highest([2, 1, 0], 2);
    assert Heights([2, 1, 0]) == {0};
    assert Distinct([2, 1, 0]) == {0, 1, 2};
  }
}
