/** The scaled forward and backward recursions, and what they compute:
    sums over exponentially many state paths. */
module HmmForwardBackward {
  import opened Reals
  import opened Vectors
  import opened HmmPaths

  // ---- unscaled recursions and the path sums they stand for ----

  ghost function Forward(h: Hmm, t: nat): (v: Vec)
    requires h.Valid() && t < h.Length()
    ensures |v| == h.States()
  {
    if t == 0 then Times(h.initial, h.emission[0])
    else Times(VecMat(Forward(h, t - 1), h.transition, h.States()), h.emission[t])
  }

  ghost function Backward(h: Hmm, t: nat): (v: Vec)
    requires h.Valid() && t < h.Length()
    ensures |v| == h.States()
    decreases h.Length() - t
  {
    if t == h.Length() - 1 then Constant(h.States(), 1.0)
    else MatVec(h.transition, Times(h.emission[t + 1], Backward(h, t + 1)))
  }

  /** The mass of a decided event moves forward like the forward weights do. */
  lemma MassAdvances(h: Hmm, t: nat, e: Event)
    requires h.Valid() && 0 < t < h.Length() && e.Horizon() < t
    ensures MassesAt(h, t, e) == Times(VecMat(MassesAt(h, t - 1, e), h.transition, h.States()), h.emission[t])
  {
    var next := Times(VecMat(MassesAt(h, t - 1, e), h.transition, h.States()), h.emission[t]);
    forall s | 0 <= s < h.States()
      ensures MassesAt(h, t, e)[s] == next[s]
    {
      MassThroughAll(h, t, s, e, h.States());
      var u, c := MassesAt(h, t - 1, e), Column(h.transition, s);
      assert u[..h.States()] == u && c[..h.States()] == c;
      PathsToEnd(h, t, s);
      assert MassTo(h, t, s, e) == Mul(Dot(u, c), h.emission[t][s]);
    }
  }

  ghost function MassThrough(h: Hmm, t: nat, s: nat, e: Event, k: nat): real
    requires h.Valid() && 0 < t < h.Length() && s < h.States() && k <= h.States()
  {
    MassOf(h, PathsThrough(h.States(), t, s, k), e)
  }

  lemma MassThroughStep(h: Hmm, t: nat, s: nat, e: Event, k: nat)
    requires h.Valid() && 0 < t < h.Length() && s < h.States() && e.Horizon() < t && 0 < k <= h.States()
    ensures MassThrough(h, t, s, e, k) ==
            MassThrough(h, t, s, e, k - 1) + Mul(MassTo(h, t - 1, k - 1, e), StepWeight(h, t, k - 1, s))
  {
    PathsToEnd(h, t - 1, k - 1);
    MassAppend(h, PathsTo(h.States(), t - 1, k - 1), t, k - 1, s, e);
    MassSplit(h, PathsThrough(h.States(), t, s, k - 1), AppendAll(PathsTo(h.States(), t - 1, k - 1), s), e);
  }

  lemma {:induction false} MassThroughAll(h: Hmm, t: nat, s: nat, e: Event, k: nat)
    requires h.Valid() && 0 < t < h.Length() && s < h.States() && e.Horizon() < t && k <= h.States()
    ensures MassThrough(h, t, s, e, k) ==
            Mul(Dot(MassesAt(h, t - 1, e)[..k], Column(h.transition, s)[..k]), h.emission[t][s])
  {
    if k > 0 {
      var u, c := MassesAt(h, t - 1, e), Column(h.transition, s);
      MassThroughAll(h, t, s, e, k - 1);
      MassThroughStep(h, t, s, e, k);
      DotSnoc(u, c, k);
      Regroup(Dot(u[..k - 1], c[..k - 1]), u[k - 1], c[k - 1], h.emission[t][s]);
    }
  }

  lemma Regroup(d: real, m: real, a: real, b: real)
    ensures Mul(d, b) + Mul(m, Mul(a, b)) == Mul(d + Mul(m, a), b)
  {
  }

  lemma {:induction false} ForwardIsMass(h: Hmm, t: nat)
    requires h.Valid() && t < h.Length()
    ensures Forward(h, t) == MassesAt(h, t, Anything)
  {
    if t == 0 {
      forall s | 0 <= s < h.States()
        ensures MassesAt(h, 0, Anything)[s] == Forward(h, 0)[s]
      {
        PathsToEnd(h, 0, s);
        SingleMass(h, [s], Anything);
      }
    } else {
      ForwardIsMass(h, t - 1);
      MassAdvances(h, t, Anything);
    }
  }

  lemma SingleMass(h: Hmm, p: Path, e: Event)
    requires h.Valid() && IsPath(h, p)
    ensures MassOf(h, [p], e) == Share(h, p, e)
  {
    assert [p][..0] == [];
  }

  /** An event that says no more than the whole list's paths already do. */
  lemma {:induction false} MassAlways(h: Hmm, ps: seq<Path>, e: Event, f: Event)
    requires h.Valid() && forall i | 0 <= i < |ps| :: IsPath(h, ps[i]) ==> (e.Occurs(ps[i]) <==> f.Occurs(ps[i]))
    ensures MassOf(h, ps, e) == MassOf(h, ps, f)
  {
    if ps != [] {
      MassAlways(h, ps[..|ps| - 1], e, f);
    }
  }

  lemma {:induction false} MassNever(h: Hmm, ps: seq<Path>, e: Event)
    requires h.Valid() && forall i | 0 <= i < |ps| :: IsPath(h, ps[i]) ==> !e.Occurs(ps[i])
    ensures MassOf(h, ps, e) == 0.0
  {
    if ps != [] {
      MassNever(h, ps[..|ps| - 1], e);
    }
  }

  /** At its own time, the event "in state s" selects one forward weight. */
  lemma AtMass(h: Hmm, t: nat, s: nat, r: nat)
    requires h.Valid() && t < h.Length() && s < h.States() && r < h.States()
    ensures MassesAt(h, t, At(t, s))[r] == if r == s then Forward(h, t)[s] else 0.0
  {
    ForwardIsMass(h, t);
    PathsToEnd(h, t, r);
    if r == s {
      MassAlways(h, PathsTo(h.States(), t, r), At(t, s), Anything);
    } else {
      MassNever(h, PathsTo(h.States(), t, r), At(t, s));
    }
  }

  /** At its end, the event "a step from q to r" selects one forward weight and its step. */
  lemma StepMass(h: Hmm, t: nat, q: nat, r: nat, s: nat)
    requires h.Valid() && t + 1 < h.Length()
    requires q < h.States() && r < h.States() && s < h.States()
    ensures MassesAt(h, t + 1, Step(t, q, r))[s] ==
            if s == r then Mul(Forward(h, t)[q], StepWeight(h, t + 1, q, r)) else 0.0
  {
    var ps := PathsTo(h.States(), t + 1, s);
    PathsToEnd(h, t + 1, s);
    if s == r {
      MassAlways(h, ps, Step(t, q, r), At(t, q));
      MassAfterState(h, t, q, r);
    } else {
      MassNever(h, ps, Step(t, q, r));
    }
  }

  lemma MassAfterState(h: Hmm, t: nat, q: nat, r: nat)
    requires h.Valid() && t + 1 < h.Length() && q < h.States() && r < h.States()
    ensures MassTo(h, t + 1, r, At(t, q)) == Mul(Forward(h, t)[q], StepWeight(h, t + 1, q, r))
  {
    var u, c := MassesAt(h, t, At(t, q)), Column(h.transition, r);
    MassAdvances(h, t + 1, At(t, q));
    assert MassesAt(h, t + 1, At(t, q))[r] == Mul(Dot(u, c), h.emission[t + 1][r]);
    forall s | 0 <= s < h.States()
      ensures u[s] == if s == q then Forward(h, t)[q] else 0.0
    {
      AtMass(h, t, q, s);
    }
    DotSingle(u, c, q);
    Reassociate(u[q], h.transition[q][r], h.emission[t + 1][r]);
  }

  /** Masses so far, weighed by what can still follow, do not depend on the cut. */
  lemma CutInvariant(h: Hmm, t: nat, e: Event)
    requires h.Valid() && t + 1 < h.Length() && e.Horizon() <= t
    ensures Dot(MassesAt(h, t, e), Backward(h, t)) == Dot(MassesAt(h, t + 1, e), Backward(h, t + 1))
  {
    hide Mul;
    var u, b, n := MassesAt(h, t, e), Backward(h, t + 1), h.States();
    MassAdvances(h, t + 1, e);
    var moved := VecMat(u, h.transition, n);
    DotTimes(moved, h.emission[t + 1], b);
    Adjoint(u, h.transition, Times(h.emission[t + 1], b));
  }

  /** Cutting all paths at any time after the event is decided gives its total mass. */
  lemma {:induction false} CutGivesTotal(h: Hmm, t: nat, e: Event)
    requires h.Valid() && t < h.Length() && e.Horizon() <= t
    ensures TotalMass(h, e) == Dot(MassesAt(h, t, e), Backward(h, t))
    decreases h.Length() - t
  {
    if t == h.Length() - 1 {
      DotOnes(MassesAt(h, t, e));
      MassBelowAll(h, t, e, h.States());
      assert MassesAt(h, t, e)[..h.States()] == MassesAt(h, t, e);
    } else {
      CutGivesTotal(h, t + 1, e);
      CutInvariant(h, t, e);
    }
  }

  ghost function MassBelow(h: Hmm, t: nat, e: Event, k: nat): real
    requires h.Valid() && t < h.Length() && k <= h.States()
  {
    MassOf(h, PathsBelow(h.States(), t, k), e)
  }

  lemma MassBelowStep(h: Hmm, t: nat, e: Event, k: nat)
    requires h.Valid() && t < h.Length() && 0 < k <= h.States()
    ensures MassBelow(h, t, e, k) == MassBelow(h, t, e, k - 1) + MassTo(h, t, k - 1, e)
  {
    MassSplit(h, PathsBelow(h.States(), t, k - 1), PathsTo(h.States(), t, k - 1), e);
  }

  lemma {:induction false} MassBelowAll(h: Hmm, t: nat, e: Event, k: nat)
    requires h.Valid() && t < h.Length() && k <= h.States()
    ensures MassBelow(h, t, e, k) == Sum(MassesAt(h, t, e)[..k])
  {
    if k > 0 {
      MassBelowAll(h, t, e, k - 1);
      MassBelowStep(h, t, e, k);
      assert MassesAt(h, t, e)[..k][..k - 1] == MassesAt(h, t, e)[..k - 1];
    }
  }

  /** Forward times backward is the mass of all paths in state s at time t. */
  lemma MassOfState(h: Hmm, t: nat, s: nat)
    requires h.Valid() && t < h.Length() && s < h.States()
    ensures TotalMass(h, At(t, s)) == Mul(Forward(h, t)[s], Backward(h, t)[s])
  {
    CutGivesTotal(h, t, At(t, s));
    forall r | 0 <= r < h.States()
      ensures MassesAt(h, t, At(t, s))[r] == if r == s then Forward(h, t)[s] else 0.0
    {
      AtMass(h, t, s, r);
    }
    DotSingle(MassesAt(h, t, At(t, s)), Backward(h, t), s);
  }

  /** Forward, one step, backward: the mass of all paths stepping from q to r at time t. */
  lemma MassOfStep(h: Hmm, t: nat, q: nat, r: nat)
    requires h.Valid() && t + 1 < h.Length() && q < h.States() && r < h.States()
    ensures TotalMass(h, Step(t, q, r)) ==
            Mul(Mul(Forward(h, t)[q], StepWeight(h, t + 1, q, r)), Backward(h, t + 1)[r])
  {
    CutGivesTotal(h, t + 1, Step(t, q, r));
    var u := MassesAt(h, t + 1, Step(t, q, r));
    forall s | 0 <= s < h.States()
      ensures u[s] == if s == r then Mul(Forward(h, t)[q], StepWeight(h, t + 1, q, r)) else 0.0
    {
      StepMass(h, t, q, r, s);
    }
    DotSingle(u, Backward(h, t + 1), r);
  }
}
