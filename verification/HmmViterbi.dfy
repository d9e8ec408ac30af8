/** Viterbi decoding: a quadratic recursion against all state sequences.

    The weights of an Hmm are read here as log-scores: they add along a path. */
module HmmViterbi {
  import opened Vectors
  import opened HmmPaths

  function Score(h: Hmm, p: Path): real
    requires h.Valid() && IsPath(h, p)
  {
    var t := |p| - 1;
    if t == 0 then h.initial[p[0]] + h.emission[0][p[0]]
    else Score(h, p[..t]) + h.transition[p[t - 1]][p[t]] + h.emission[t][p[t]]
  }

  /** The first index of a greatest entry. */
  function ArgMax(v: Vec): (k: nat)
    requires v != []
    ensures k < |v|
    ensures forall i | 0 <= i < |v| :: v[i] <= v[k]
    ensures forall i | 0 <= i < k :: v[i] < v[k]
  {
    if |v| == 1 then 0
    else
      var k := ArgMax(v[..|v| - 1]);
      if v[|v| - 1] > v[k] then |v| - 1 else k
  }

  /** What reaching s at time t scores, before its emission, by previous state. */
  ghost function Candidates(h: Hmm, t: nat, s: nat): (v: Vec)
    requires h.Valid() && 0 < t < h.Length() && s < h.States()
    ensures |v| == h.States()
    decreases t, 0
  {
    Plus(Delta(h, t - 1), Column(h.transition, s))
  }

  ghost function Delta(h: Hmm, t: nat): (v: Vec)
    requires h.Valid() && t < h.Length()
    ensures |v| == h.States()
    decreases t, 1
  {
    if t == 0 then Plus(h.initial, h.emission[0])
    else seq(h.States(), s requires 0 <= s < h.States() =>
               var v := Candidates(h, t, s);
               h.emission[t][s] + v[ArgMax(v)])
  }

  ghost function Psi(h: Hmm, t: nat, s: nat): (r: nat)
    requires h.Valid() && 0 < t < h.Length() && s < h.States()
    ensures r < h.States()
  {
    ArgMax(Candidates(h, t, s))
  }

  /** Following the back-pointers from state s at time t. */
  ghost function Trace(h: Hmm, t: nat, s: nat): (p: Path)
    requires h.Valid() && t < h.Length() && s < h.States()
    ensures |p| == t + 1 && IsPath(h, p) && Last(p) == s
  {
    if t == 0 then [s] else Trace(h, t - 1, Psi(h, t, s)) + [s]
  }

  lemma {:induction false} TraceFollowsPointers(h: Hmm, t: nat, s: nat, u: nat)
    requires h.Valid() && u < t < h.Length() && s < h.States()
    ensures var p := Trace(h, t, s); p[u] == Psi(h, u + 1, p[u + 1])
  {
    if u < t - 1 {
      TraceFollowsPointers(h, t - 1, Psi(h, t, s), u);
    }
  }

  predicate AgreeFrom(p: Path, q: Path, k: nat)
    requires |p| == |q|
  {
    forall u | k <= u < |p| :: p[u] == q[u]
  }

  /** p is chosen before q when it is smaller at the last time they differ. */
  predicate ChosenBefore(p: Path, q: Path)
    requires |p| == |q|
  {
    exists t | 0 <= t < |p| :: p[t] < q[t] && AgreeFrom(p, q, t + 1)
  }

  lemma ChosenBeforeAsymmetric(p: Path, q: Path)
    requires |p| == |q| && ChosenBefore(p, q)
    ensures !ChosenBefore(q, p)
  {
    var t :| 0 <= t < |p| && p[t] < q[t] && AgreeFrom(p, q, t + 1);
    forall u | 0 <= u < |p|
      ensures !(q[u] < p[u] && AgreeFrom(q, p, u + 1))
    {
    }
  }

  lemma {:induction false} TraceAttainsDelta(h: Hmm, t: nat, s: nat)
    requires h.Valid() && t < h.Length() && s < h.States()
    ensures Score(h, Trace(h, t, s)) == Delta(h, t)[s]
  {
    hide Trace, Delta, Psi, Score, Hmm.Valid, IsPath;
    if t == 0 {
      StartAttains(h, s);
    } else {
      var r := Psi(h, t, s);
      TraceAttainsDelta(h, t - 1, r);
      TraceScore(h, t, s);
      DeltaStep(h, t, s);
    }
  }

  lemma StartAttains(h: Hmm, s: nat)
    requires h.Valid() && s < h.States()
    ensures Score(h, Trace(h, 0, s)) == Delta(h, 0)[s]
  {
  }

  lemma TraceScore(h: Hmm, t: nat, s: nat)
    requires h.Valid() && 0 < t < h.Length() && s < h.States()
    ensures var r := Psi(h, t, s);
            Score(h, Trace(h, t, s)) == Score(h, Trace(h, t - 1, r)) + h.transition[r][s] + h.emission[t][s]
  {
    hide Psi;
    var r := Psi(h, t, s);
    assert Trace(h, t, s)[..t] == Trace(h, t - 1, r);
  }

  lemma DeltaStep(h: Hmm, t: nat, s: nat)
    requires h.Valid() && 0 < t < h.Length() && s < h.States()
    ensures var r := Psi(h, t, s);
            Delta(h, t)[s] == Delta(h, t - 1)[r] + h.transition[r][s] + h.emission[t][s]
  {
    var r := Psi(h, t, s);
    assert Candidates(h, t, s)[r] == Delta(h, t - 1)[r] + h.transition[r][s];
  }

  lemma ScoreStep(h: Hmm, t: nat, p: Path)
    requires h.Valid() && 0 < t < h.Length() && |p| == t + 1 && IsPath(h, p)
    requires Score(h, p[..t]) <= Delta(h, t - 1)[p[t - 1]]
    ensures Score(h, p) <= Delta(h, t)[p[t]]
    ensures Score(h, p) == Delta(h, t)[p[t]] ==>
              var v := Candidates(h, t, p[t]);
              Score(h, p[..t]) == Delta(h, t - 1)[p[t - 1]] && v[p[t - 1]] == v[ArgMax(v)]
  {
    var v := Candidates(h, t, p[t]);
    assert v[p[t - 1]] == Delta(h, t - 1)[p[t - 1]] + h.transition[p[t - 1]][p[t]];
    assert v[p[t - 1]] <= v[ArgMax(v)];
  }

  /** No path to s beats delta. */
  lemma {:induction false} DeltaDominates(h: Hmm, t: nat, p: Path)
    requires h.Valid() && t < h.Length() && |p| == t + 1 && IsPath(h, p)
    ensures Score(h, p) <= Delta(h, t)[p[t]]
  {
    if t > 0 {
      DeltaDominates(h, t - 1, p[..t]);
      ScoreStep(h, t, p);
    }
  }

  lemma ChosenBeforeExtends(p: Path, q: Path, s: nat)
    requires |p| == |q| && ChosenBefore(p, q)
    ensures ChosenBefore(p + [s], q + [s])
  {
    var t :| 0 <= t < |p| && p[t] < q[t] && AgreeFrom(p, q, t + 1);
    assert (p + [s])[t] < (q + [s])[t] && AgreeFrom(p + [s], q + [s], t + 1);
  }

  lemma ChosenBeforeAt(p: Path, q: Path, t: nat)
    requires |p| == |q| && t < |p| && p[t] < q[t] && AgreeFrom(p, q, t + 1)
    ensures ChosenBefore(p, q)
  {
  }

  /** A path that equals delta is the trace, or the trace is chosen before it. */
  lemma {:induction false} TiesBreakLow(h: Hmm, t: nat, p: Path)
    requires h.Valid() && t < h.Length() && |p| == t + 1 && IsPath(h, p)
    requires Score(h, p) == Delta(h, t)[p[t]]
    ensures p == Trace(h, t, p[t]) || ChosenBefore(Trace(h, t, p[t]), p)
  {
    hide ChosenBefore, Delta, Hmm.Valid;
    if t == 0 {
      assert p == [p[0]];
    } else {
      var q := p[..t];
      assert q[t - 1] == p[t - 1] && |q| == t - 1 + 1 && IsPath(h, q);
      DeltaDominates(h, t - 1, q);
      ScoreStep(h, t, p);
      TiesBreakLow(h, t - 1, q);
      TieStep(h, t, p);
    }
  }

  lemma TieStep(h: Hmm, t: nat, p: Path)
    requires h.Valid() && 0 < t < h.Length() && |p| == t + 1 && IsPath(h, p)
    requires var v := Candidates(h, t, p[t]); v[p[t - 1]] == v[ArgMax(v)]
    requires var q := Trace(h, t - 1, p[t - 1]); p[..t] == q || ChosenBefore(q, p[..t])
    ensures p == Trace(h, t, p[t]) || ChosenBefore(Trace(h, t, p[t]), p)
  {
    hide Delta, ChosenBefore, Candidates;
    var r, k := p[t - 1], Psi(h, t, p[t]);
    var before := Trace(h, t - 1, k);
    assert p == p[..t] + [p[t]];
    if k == r {
      if p[..t] != before {
        ChosenBeforeExtends(before, p[..t], p[t]);
      }
    } else {
      ChosenBeforeAt(before, p[..t], t - 1);
      ChosenBeforeExtends(before, p[..t], p[t]);
    }
  }

  /** The decoded path: no state sequence scores higher, and among the best it is the
      one with the smallest state at every time, latest first. */
  ghost predicate IsViterbi(h: Hmm, p: Path, score: real)
    requires h.Valid()
  {
    && |p| == h.Length() && IsPath(h, p) && Score(h, p) == score
    && (forall q: Path | |q| == h.Length() && IsPath(h, q) :: Score(h, q) <= score)
    && (forall q: Path | |q| == h.Length() && IsPath(h, q) && Score(h, q) == score ::
          q == p || ChosenBefore(p, q))
  }

  lemma CompareWithBest(h: Hmm, q: Path)
    requires h.Valid() && |q| == h.Length() && IsPath(h, q)
    ensures var t := h.Length() - 1;
            var s := ArgMax(Delta(h, t));
            && Score(h, q) <= Delta(h, t)[s]
            && (Score(h, q) == Delta(h, t)[s] ==> q == Trace(h, t, s) || ChosenBefore(Trace(h, t, s), q))
  {
    hide Delta, Trace, Score, ChosenBefore;
    var t := h.Length() - 1;
    var d := Delta(h, t);
    var s := ArgMax(d);
    DeltaDominates(h, t, q);
    assert d[q[t]] <= d[s];
    if Score(h, q) == d[s] {
      if q[t] == s {
        TiesBreakLow(h, t, q);
      } else {
        ChosenBeforeAt(Trace(h, t, s), q, t);
      }
    }
  }

  lemma BestTraceIsViterbi(h: Hmm)
    requires h.Valid()
    ensures var t := h.Length() - 1;
            var s := ArgMax(Delta(h, t));
            IsViterbi(h, Trace(h, t, s), Delta(h, t)[s])
  {
    var t := h.Length() - 1;
    TraceAttainsDelta(h, t, ArgMax(Delta(h, t)));
    forall q: Path | |q| == h.Length() && IsPath(h, q) {
      CompareWithBest(h, q);
    }
  }

  /** The specification leaves no choice: two decoded paths are the same path. */
  lemma ViterbiUnique(h: Hmm, p: Path, q: Path, a: real, b: real)
    requires h.Valid() && IsViterbi(h, p, a) && IsViterbi(h, q, b)
    ensures p == q && a == b
  {
    if p != q {
      ChosenBeforeAsymmetric(p, q);
      assert false;
    }
  }
}
