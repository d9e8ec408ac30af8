/** What a hidden Markov model means: the total weight of its state paths.

    Everything here quantifies over all state sequences. It is the reference the
    quadratic recursions in HmmForwardBackward are proved against. */
module HmmPaths {
  import opened Reals
  import opened Vectors

  type Path = seq<nat>

  /** One model applied to one observation sequence: initial weights, transition
      weights, and emission[t][s], the weight of observation t in state s. */
  datatype Hmm = Hmm(initial: Vec, transition: Mat, emission: Mat) {
    function States(): nat { |initial| }

    function Length(): nat { |emission| }

    predicate Valid() {
      && States() > 0
      && Length() > 0
      && IsMatrix(transition, States(), States())
      && IsMatrix(emission, Length(), States())
    }

    /** Weights are products of probabilities and exponentials. */
    predicate Weighted() {
      && Valid()
      && NonNegative(initial)
      && NonNegativeMatrix(transition)
      && NonNegativeMatrix(emission)
    }
  }

  predicate IsPath(h: Hmm, p: Path) {
    0 < |p| <= h.Length() && forall i | 0 <= i < |p| :: p[i] < h.States()
  }

  function Last(p: Path): nat
    requires |p| > 0
  {
    p[|p| - 1]
  }

  /** initial * transition * emission, along the path. */
  function Weight(h: Hmm, p: Path): real
    requires h.Valid() && IsPath(h, p)
  {
    var t := |p| - 1;
    if t == 0 then h.initial[p[0]] * h.emission[0][p[0]]
    else Mul(Weight(h, p[..t]), StepWeight(h, t, p[t - 1], p[t]))
  }

  /** The factor of moving from r to s and observing observation t there. */
  function StepWeight(h: Hmm, t: nat, r: nat, s: nat): real
    requires h.Valid() && t < h.Length() && r < h.States() && s < h.States()
  {
    Mul(h.transition[r][s], h.emission[t][s])
  }

  // ---- enumerating state sequences ----

  function AppendAll(ps: seq<Path>, s: nat): (qs: seq<Path>)
    ensures |qs| == |ps|
  {
    seq(|ps|, i requires 0 <= i < |ps| => ps[i] + [s])
  }

  /** Every sequence of t + 1 states below n that ends in s. */
  function PathsTo(n: nat, t: nat, s: nat): seq<Path>
    decreases t, n + 1
  {
    if t == 0 then [[s]] else PathsThrough(n, t, s, n)
  }

  /** Those of them whose state before last is below k. */
  function PathsThrough(n: nat, t: nat, s: nat, k: nat): seq<Path>
    requires t > 0 && k <= n
    decreases t, k
  {
    if k == 0 then [] else PathsThrough(n, t, s, k - 1) + AppendAll(PathsTo(n, t - 1, k - 1), s)
  }

  /** Every sequence of t + 1 states below n whose last state is below k. */
  function PathsBelow(n: nat, t: nat, k: nat): seq<Path>
    requires k <= n
  {
    if k == 0 then [] else PathsBelow(n, t, k - 1) + PathsTo(n, t, k - 1)
  }

  function AllPaths(n: nat, t: nat): seq<Path> {
    PathsBelow(n, t, n)
  }

  predicate Distinct(ps: seq<Path>) {
    forall i, j | 0 <= i < j < |ps| :: ps[i] != ps[j]
  }

  predicate IsSequence(n: nat, t: nat, p: Path) {
    |p| == t + 1 && forall i | 0 <= i < |p| :: p[i] < n
  }

  lemma {:induction false} PathsToExact(n: nat, t: nat, s: nat)
    requires s < n
    ensures forall p: Path :: p in PathsTo(n, t, s) <==> IsSequence(n, t, p) && Last(p) == s
    ensures Distinct(PathsTo(n, t, s))
    decreases t, n + 1
  {
    if t == 0 {
      forall p: Path | IsSequence(n, t, p) && Last(p) == s
        ensures p in PathsTo(n, t, s)
      {
        assert p == [s];
      }
    } else {
      PathsThroughExact(n, t, s, n);
    }
  }

  lemma {:induction false} PathsThroughExact(n: nat, t: nat, s: nat, k: nat)
    requires t > 0 && k <= n && s < n
    ensures forall p: Path :: p in PathsThrough(n, t, s, k) <==>
              IsSequence(n, t, p) && Last(p) == s && p[t - 1] < k
    ensures Distinct(PathsThrough(n, t, s, k))
    decreases t, k
  {
    if k > 0 {
      PathsThroughExact(n, t, s, k - 1);
      PathsToExact(n, t - 1, k - 1);
      var shorter := PathsTo(n, t - 1, k - 1);
      var added := AppendAll(shorter, s);
      forall p: Path
        ensures p in added <==> IsSequence(n, t, p) && Last(p) == s && p[t - 1] == k - 1
      {
        if p in added {
          var i :| 0 <= i < |added| && added[i] == p;
          assert shorter[i] in shorter;
        }
        if IsSequence(n, t, p) && Last(p) == s && p[t - 1] == k - 1 {
          assert p[..t] in shorter;
          var i :| 0 <= i < |shorter| && shorter[i] == p[..t];
          assert added[i] == p;
        }
      }
      forall i, j | 0 <= i < j < |added|
        ensures added[i] != added[j]
      {
        assert shorter[i] in shorter && shorter[j] in shorter;
        assert added[i][..t] == shorter[i] && added[j][..t] == shorter[j];
      }
      DistinctJoin(PathsThrough(n, t, s, k - 1), added);
    }
  }

  lemma DistinctJoin(ps: seq<Path>, qs: seq<Path>)
    requires Distinct(ps) && Distinct(qs)
    requires forall p: Path :: !(p in ps && p in qs)
    ensures Distinct(ps + qs)
  {
    forall i, j | 0 <= i < j < |ps + qs|
      ensures (ps + qs)[i] != (ps + qs)[j]
    {
      if i < |ps| <= j {
        assert ps[i] in ps && qs[j - |ps|] in qs;
      }
    }
  }

  lemma {:induction false} PathsBelowExact(n: nat, t: nat, k: nat)
    requires k <= n
    ensures forall p: Path :: p in PathsBelow(n, t, k) <==> IsSequence(n, t, p) && Last(p) < k
    ensures Distinct(PathsBelow(n, t, k))
  {
    if k > 0 {
      PathsBelowExact(n, t, k - 1);
      PathsToExact(n, t, k - 1);
      DistinctJoin(PathsBelow(n, t, k - 1), PathsTo(n, t, k - 1));
    }
  }

  /** The enumeration lists every state sequence of length t + 1, once. */
  lemma AllPathsExact(n: nat, t: nat)
    ensures forall p: Path :: p in AllPaths(n, t) <==> IsSequence(n, t, p)
    ensures Distinct(AllPaths(n, t))
  {
    PathsBelowExact(n, t, n);
  }

  // ---- events and their mass ----

  /** What a path may be asked: nothing, its state at a time, or one of its steps. */
  datatype Event = Anything | At(time: nat, state: nat) | Step(time: nat, state: nat, next: nat) {
    /** The last time the event looks at. */
    function Horizon(): nat {
      match this
      case Anything => 0
      case At(t, _) => t
      case Step(t, _, _) => t + 1
    }

    predicate Occurs(p: Path) {
      match this
      case Anything => true
      case At(t, s) => t < |p| && p[t] == s
      case Step(t, s, r) => t + 1 < |p| && p[t] == s && p[t + 1] == r
    }
  }

  /** What one path contributes to the mass of an event. */
  function Share(h: Hmm, p: Path, e: Event): real
    requires h.Valid()
  {
    if IsPath(h, p) && e.Occurs(p) then Weight(h, p) else 0.0
  }

  /** Total weight of the listed paths on which the event occurs. */
  function MassOf(h: Hmm, ps: seq<Path>, e: Event): real
    requires h.Valid()
  {
    if ps == [] then 0.0
    else MassOf(h, ps[..|ps| - 1], e) + Share(h, ps[|ps| - 1], e)
  }

  /** Total weight of all complete state paths on which the event occurs. */
  ghost function TotalMass(h: Hmm, e: Event): real
    requires h.Valid()
  {
    MassOf(h, AllPaths(h.States(), h.Length() - 1), e)
  }

  /** Total weight of the paths up to time t that end in s and on which e occurs. */
  ghost function MassTo(h: Hmm, t: nat, s: nat, e: Event): real
    requires h.Valid() && t < h.Length() && s < h.States()
  {
    MassOf(h, PathsTo(h.States(), t, s), e)
  }

  ghost function MassesAt(h: Hmm, t: nat, e: Event): (v: Vec)
    requires h.Valid() && t < h.Length()
    ensures |v| == h.States()
  {
    seq(h.States(), s requires 0 <= s < h.States() => MassTo(h, t, s, e))
  }

  lemma {:induction false} MassSplit(h: Hmm, ps: seq<Path>, qs: seq<Path>, e: Event)
    requires h.Valid()
    ensures MassOf(h, ps + qs, e) == MassOf(h, ps, e) + MassOf(h, qs, e)
  {
    if qs == [] {
      assert ps + qs == ps;
    } else {
      assert (ps + qs)[..|ps + qs| - 1] == ps + qs[..|qs| - 1];
      MassSplit(h, ps, qs[..|qs| - 1], e);
    }
  }

  /** Every listed path has t states and ends in r. */
  predicate AllEndIn(h: Hmm, ps: seq<Path>, t: nat, r: nat) {
    forall i | 0 <= i < |ps| :: IsPath(h, ps[i]) && |ps[i]| == t && Last(ps[i]) == r
  }

  lemma PathsToEnd(h: Hmm, t: nat, s: nat)
    requires h.Valid() && t < h.Length() && s < h.States()
    ensures AllEndIn(h, PathsTo(h.States(), t, s), t + 1, s)
  {
    PathsToExact(h.States(), t, s);
    var ps := PathsTo(h.States(), t, s);
    forall i | 0 <= i < |ps|
      ensures IsPath(h, ps[i]) && |ps[i]| == t + 1 && Last(ps[i]) == s
    {
      assert ps[i] in ps;
    }
  }

  /** Once the event is decided, one more state multiplies a path's contribution. */
  lemma ShareAppend(h: Hmm, p: Path, s: nat, e: Event)
    requires h.Valid() && IsPath(h, p) && |p| < h.Length() && s < h.States()
    requires e.Horizon() < |p|
    ensures Share(h, p + [s], e) == Mul(Share(h, p, e), StepWeight(h, |p|, Last(p), s))
  {
    assert (p + [s])[..|p|] == p;
  }

  /** Appending one state to paths that all end in r multiplies their mass, when the
      event has been decided before. */
  lemma {:induction false} MassAppend(h: Hmm, ps: seq<Path>, t: nat, r: nat, s: nat, e: Event)
    requires h.Valid() && 0 < t < h.Length() && r < h.States() && s < h.States()
    requires AllEndIn(h, ps, t, r) && e.Horizon() < t
    ensures MassOf(h, AppendAll(ps, s), e) == Mul(MassOf(h, ps, e), StepWeight(h, t, r, s))
  {
    hide Mul, Share, StepWeight;
    if ps == [] {
      ZeroTimes(StepWeight(h, t, r, s));
    } else {
      var m := |ps| - 1;
      assert AllEndIn(h, ps[..m], t, r);
      MassAppend(h, ps[..m], t, r, s, e);
      ShareAppend(h, ps[m], s, e);
      assert AppendAll(ps, s)[..m] == AppendAll(ps[..m], s);
      Distribute(MassOf(h, ps[..m], e), Share(h, ps[m], e), StepWeight(h, t, r, s));
    }
  }
}
