/** The negative subsampling shared by the validation generators'
    constructors: each patient with annotated nodules keeps all of its
    nodules and `n_pos` of its negative candidates, drawn without
    replacement, so that validation sees as many negatives as positives.

    The draws are an input: `choices[k]` is what
    `rng.choice(n_neg, size=n_pos, replace=False)` returned for `ids[k]`. */
module ValidSubsample {

  import opened Wrappers
  import opened Labels
  import opened Seqs

  datatype Subsample = Subsample(
    positives: map<string, seq<Candidate>>,
    negatives: map<string, seq<Candidate>>,
    nPositive: nat,
    nNegative: nat)

  datatype SubsampleError =
    /** The patient has nodules but no entry in the candidates file
        (KeyError). */
    | MissingNegatives(pid: string)
    /** More nodules than negative candidates: `choice` without replacement
        cannot draw that many (ValueError). */
    | TooFewNegatives(pid: string)

  /** `c` is a draw of `size` distinct indices below `n`. */
  predicate IsChoice(c: seq<nat>, size: nat, n: nat)
  {
    && |c| == size
    && (forall i :: 0 <= i < |c| ==> c[i] < n)
    && (forall i, j :: 0 <= i < j < |c| ==> c[i] != c[j])
  }

  /** A patient with nodules whose negatives can be subsampled. */
  predicate Enough(pid: string, posAnn: map<string, seq<Candidate>>, negAnn: map<string, seq<Candidate>>)
    requires pid in posAnn
  {
    pid in negAnn && |posAnn[pid]| <= |negAnn[pid]|
  }

  /** The random draws are valid wherever the source can draw. */
  predicate ChoicesFit(ids: seq<string>, posAnn: map<string, seq<Candidate>>,
                       negAnn: map<string, seq<Candidate>>, choices: seq<seq<nat>>)
  {
    && |choices| == |ids|
    && forall k :: 0 <= k < |ids| && ids[k] in posAnn && Enough(ids[k], posAnn, negAnn) ==>
         IsChoice(choices[k], |posAnn[ids[k]]|, |negAnn[ids[k]]|)
  }

  /** Nodules counted over the first `n` ids (a repeated id counts again,
      as the source's counters do). */
  function PositiveTotal(ids: seq<string>, posAnn: map<string, seq<Candidate>>, n: nat): nat
    requires n <= |ids|
  {
    if n == 0 then 0
    else PositiveTotal(ids, posAnn, n - 1) + (if ids[n - 1] in posAnn then |posAnn[ids[n - 1]]| else 0)
  }

  /** The ids among the first `n` that have nodules. */
  function Kept(ids: seq<string>, posAnn: map<string, seq<Candidate>>, n: nat): set<string>
    requires n <= |ids|
  {
    set j | 0 <= j < n && ids[j] in posAnn :: ids[j]
  }

  /** What the constructor's loop has built after the first `k` ids. */
  ghost predicate Accumulated(ids: seq<string>, posAnn: map<string, seq<Candidate>>, negAnn: map<string, seq<Candidate>>,
                        k: nat, positives: map<string, seq<Candidate>>, negatives: map<string, seq<Candidate>>,
                        nPositive: nat)
    requires k <= |ids|
  {
    && (forall j :: 0 <= j < k && ids[j] in posAnn ==> Enough(ids[j], posAnn, negAnn))
    && nPositive == PositiveTotal(ids, posAnn, k)
    && positives.Keys == Kept(ids, posAnn, k) == negatives.Keys
    && (forall pid :: pid in positives ==> pid in posAnn && positives[pid] == posAnn[pid])
    && (forall pid :: pid in negatives ==>
          pid in posAnn && pid in negAnn && |negatives[pid]| == |posAnn[pid]| &&
          exists c :: IsChoice(c, |posAnn[pid]|, |negAnn[pid]|) && negatives[pid] == Gather(negAnn[pid], c))
  }

  /** The constructor's loop over `patient_ids`. */
  method SubsampleNegatives(ids: seq<string>, posAnn: map<string, seq<Candidate>>,
                   negAnn: map<string, seq<Candidate>>, choices: seq<seq<nat>>)
    returns (r: Result<Subsample, SubsampleError>)
    requires ChoicesFit(ids, posAnn, negAnn, choices)
    ensures r.Ok? <==> forall k :: 0 <= k < |ids| && ids[k] in posAnn ==> Enough(ids[k], posAnn, negAnn)
    // the error names the first patient, in request order, whose pool is too small
    ensures r.Err? ==> exists k :: 0 <= k < |ids| && ids[k] in posAnn && !Enough(ids[k], posAnn, negAnn) &&
                                   r.error == (if ids[k] in negAnn then TooFewNegatives(ids[k]) else MissingNegatives(ids[k])) &&
                                   forall j :: 0 <= j < k && ids[j] in posAnn ==> Enough(ids[j], posAnn, negAnn)
    ensures r.Ok? ==> r.value.nPositive == r.value.nNegative == PositiveTotal(ids, posAnn, |ids|)
    ensures r.Ok? ==> r.value.positives.Keys == Kept(ids, posAnn, |ids|) == r.value.negatives.Keys
    ensures r.Ok? ==> forall pid :: pid in r.value.positives ==> pid in posAnn && r.value.positives[pid] == posAnn[pid]
    ensures r.Ok? ==> forall pid :: pid in r.value.negatives ==>
      pid in posAnn && pid in negAnn && |r.value.negatives[pid]| == |posAnn[pid]| &&
      exists c :: IsChoice(c, |posAnn[pid]|, |negAnn[pid]|) && r.value.negatives[pid] == Gather(negAnn[pid], c)
  {
    var positives: map<string, seq<Candidate>> := map[];
    var negatives: map<string, seq<Candidate>> := map[];
    var nPositive: nat := 0;
    var nNegative: nat := 0;
    var k := 0;
    while k < |ids|
      invariant k <= |ids|
      invariant nNegative == nPositive
      invariant Accumulated(ids, posAnn, negAnn, k, positives, negatives, nPositive)
    {
      var pid := ids[k];
      if pid in posAnn {
        if pid !in negAnn {
          return Err(MissingNegatives(pid));
        }
        var nPos := |posAnn[pid]|;
        var nNeg := |negAnn[pid]|;
        if nPos > nNeg {
          return Err(TooFewNegatives(pid));
        }
        AddStep(ids, posAnn, negAnn, choices, k, positives, negatives, nPositive);
        var selected := Gather(negAnn[pid], choices[k]);
        positives := positives[pid := posAnn[pid]];
        negatives := negatives[pid := selected];
        nPositive := nPositive + nPos;
        nNegative := nNegative + nPos;
      } else {
        SkipStep(ids, posAnn, negAnn, k, positives, negatives, nPositive);
      }
      k := k + 1;
    }
    return Ok(Subsample(positives, negatives, nPositive, nNegative));
  }

  /** One pass of the loop over a patient without nodules changes nothing. */
  lemma SkipStep(ids: seq<string>, posAnn: map<string, seq<Candidate>>, negAnn: map<string, seq<Candidate>>,
                 k: nat, positives: map<string, seq<Candidate>>,
                 negatives: map<string, seq<Candidate>>, nPositive: nat)
    requires k < |ids| && ids[k] !in posAnn
    requires Accumulated(ids, posAnn, negAnn, k, positives, negatives, nPositive)
    ensures Accumulated(ids, posAnn, negAnn, k + 1, positives, negatives, nPositive)
  {
    assert Kept(ids, posAnn, k + 1) == Kept(ids, posAnn, k);
  }

  /** One pass of the loop over a patient with enough negatives adds its
      nodules and its drawn negatives. */
  lemma AddStep(ids: seq<string>, posAnn: map<string, seq<Candidate>>, negAnn: map<string, seq<Candidate>>,
                choices: seq<seq<nat>>, k: nat, positives: map<string, seq<Candidate>>,
                negatives: map<string, seq<Candidate>>, nPositive: nat)
    requires ChoicesFit(ids, posAnn, negAnn, choices)
    requires k < |ids| && ids[k] in posAnn && Enough(ids[k], posAnn, negAnn)
    requires Accumulated(ids, posAnn, negAnn, k, positives, negatives, nPositive)
    ensures IsChoice(choices[k], |posAnn[ids[k]]|, |negAnn[ids[k]]|)
    ensures Accumulated(ids, posAnn, negAnn, k + 1, positives[ids[k] := posAnn[ids[k]]],
                        negatives[ids[k] := Gather(negAnn[ids[k]], choices[k])], nPositive + |posAnn[ids[k]]|)
  {
    var pid := ids[k];
    var positives' := positives[pid := posAnn[pid]];
    var negatives' := negatives[pid := Gather(negAnn[pid], choices[k])];
    assert IsChoice(choices[k], |posAnn[pid]|, |negAnn[pid]|);
    assert Kept(ids, posAnn, k + 1) == Kept(ids, posAnn, k) + {pid};
    assert positives'.Keys == positives.Keys + {pid};
    assert negatives'.Keys == negatives.Keys + {pid};
    PositivesStep(posAnn, positives, pid);
    NegativesStep(posAnn, negAnn, negatives, pid, choices[k]);
  }

  /** Recording a patient's nodules keeps every recorded list equal to the
      annotations. */
  lemma PositivesStep(posAnn: map<string, seq<Candidate>>, positives: map<string, seq<Candidate>>, pid: string)
    requires pid in posAnn
    requires forall q :: q in positives ==> q in posAnn && positives[q] == posAnn[q]
    ensures var p := positives[pid := posAnn[pid]];
      forall q :: q in p ==> q in posAnn && p[q] == posAnn[q]
  {
  }

  /** Recording a patient's drawn negatives keeps every recorded list a
      draw without replacement. */
  lemma NegativesStep(posAnn: map<string, seq<Candidate>>, negAnn: map<string, seq<Candidate>>,
                      negatives: map<string, seq<Candidate>>, pid: string, c: seq<nat>)
    requires pid in posAnn && pid in negAnn && IsChoice(c, |posAnn[pid]|, |negAnn[pid]|)
    requires forall q :: q in negatives ==>
      q in posAnn && q in negAnn && |negatives[q]| == |posAnn[q]| &&
      exists c :: IsChoice(c, |posAnn[q]|, |negAnn[q]|) && negatives[q] == Gather(negAnn[q], c)
    ensures var n := negatives[pid := Gather(negAnn[pid], c)];
      forall q :: q in n ==>
        q in posAnn && q in negAnn && |n[q]| == |posAnn[q]| &&
        exists c :: IsChoice(c, |posAnn[q]|, |negAnn[q]|) && n[q] == Gather(negAnn[q], c)
  {
    var n := negatives[pid := Gather(negAnn[pid], c)];
    forall q | q in n
      ensures q in posAnn && q in negAnn && |n[q]| == |posAnn[q]|
      ensures exists c :: IsChoice(c, |posAnn[q]|, |negAnn[q]|) && n[q] == Gather(negAnn[q], c)
    {
      if q == pid {
        assert IsChoice(c, |posAnn[q]|, |negAnn[q]|) && n[q] == Gather(negAnn[q], c);
      }
    }
  }

  /** Drawing at distinct indices is drawing without replacement: the
      selected negatives form a sub-multiset of the patient's candidates. */
  lemma {:induction false} PickWithoutReplacement(negs: seq<Candidate>, c: seq<nat>)
    requires IsChoice(c, |c|, |negs|)
    ensures multiset(Gather(negs, c)) <= multiset(negs)
    decreases |negs|
  {
    if |negs| > 0 {
      var m := |negs| - 1;
      var init := negs[..m];
      assert negs == init + [negs[m]];
      if p :| 0 <= p < |c| && c[p] == m {
        var rest := c[..p] + c[p + 1..];
        DropChoice(c, p, m);
        PickWithoutReplacement(init, rest);
        PickDrop(negs, c, p);
        PickNarrow(negs, m, rest);
        assert multiset(Gather(negs, c)) == multiset(Gather(init, rest)) + multiset{negs[m]};
      } else {
        assert IsChoice(c, |c|, m);
        PickWithoutReplacement(init, c);
        PickNarrow(negs, m, c);
      }
    }
  }

  /** Removing the draw of the last index leaves a draw below it. */
  lemma DropChoice(c: seq<nat>, p: nat, m: nat)
    requires IsChoice(c, |c|, m + 1)
    requires p < |c| && c[p] == m
    ensures IsChoice(c[..p] + c[p + 1..], |c| - 1, m)
  {
    var rest := c[..p] + c[p + 1..];
    forall i | 0 <= i < |rest| ensures rest[i] < m {
      if i < p { assert rest[i] == c[i]; } else { assert rest[i] == c[i + 1]; }
    }
    forall i, j | 0 <= i < j < |rest| ensures rest[i] != rest[j] {
      var i' := if i < p then i else i + 1;
      var j' := if j < p then j else j + 1;
      assert rest[i] == c[i'] && rest[j] == c[j'];
    }
  }

  lemma PickDrop(negs: seq<Candidate>, c: seq<nat>, p: nat)
    requires forall i :: 0 <= i < |c| ==> c[i] < |negs|
    requires p < |c|
    ensures multiset(Gather(negs, c)) == multiset(Gather(negs, c[..p] + c[p + 1..])) + multiset{negs[c[p]]}
  {
    var a := c[..p];
    var b := c[p + 1..];
    assert c == (a + [c[p]]) + b;
    PickConcat(negs, a + [c[p]], b);
    PickConcat(negs, a, [c[p]]);
    PickConcat(negs, a, b);
    assert Gather(negs, [c[p]]) == [negs[c[p]]];
  }

  lemma PickConcat(negs: seq<Candidate>, a: seq<nat>, b: seq<nat>)
    requires forall i :: 0 <= i < |a| ==> a[i] < |negs|
    requires forall i :: 0 <= i < |b| ==> b[i] < |negs|
    ensures forall i :: 0 <= i < |a + b| ==> (a + b)[i] < |negs|
    ensures Gather(negs, a + b) == Gather(negs, a) + Gather(negs, b)
  {
    assert forall i :: 0 <= i < |a + b| ==> (a + b)[i] < |negs|;
    assert forall i :: 0 <= i < |a + b| ==> Gather(negs, a + b)[i] == (Gather(negs, a) + Gather(negs, b))[i];
  }

  lemma PickNarrow(negs: seq<Candidate>, m: nat, c: seq<nat>)
    requires m <= |negs|
    requires forall i :: 0 <= i < |c| ==> c[i] < m
    ensures Gather(negs, c) == Gather(negs[..m], c)
  {
  }
}
