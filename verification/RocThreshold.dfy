/**
 * The operating point: a threshold read off a ROC sweep under a false-positive budget,
 * and the oracle recall it is compared with. Rates are exact; an undefined rate is `None`.
 */
module RocThreshold {
  import opened Prelude

  datatype Sample = Sample(score: real, positive: bool)

  /** A threshold of the sweep; the sweep starts at an infinite one, which flags nothing. */
  datatype Cut = Infinite | At(value: real)

  datatype Vertex = Vertex(cut: Cut, fpr: Option<real>, tpr: Option<real>)

  predicate Flags(c: Cut, score: real) {
    c.At? && score >= c.value
  }

  predicate Above(c: Cut, d: Cut) {
    d.At? && (c.Infinite? || c.value > d.value)
  }

  /** How many samples with the label are flagged. */
  function Flagged(data: seq<Sample>, c: Cut, positive: bool): nat {
    if data == [] then 0
    else (if data[0].positive == positive && Flags(c, data[0].score) then 1 else 0) + Flagged(data[1..], c, positive)
  }

  function Labelled(data: seq<Sample>, positive: bool): nat {
    if data == [] then 0 else (if data[0].positive == positive then 1 else 0) + Labelled(data[1..], positive)
  }

  function Rate(part: nat, whole: nat): Option<real> {
    if whole == 0 then None else Some(part as real / whole as real)
  }

  function Fpr(data: seq<Sample>, c: Cut): Option<real> {
    Rate(Flagged(data, c, false), Labelled(data, false))
  }

  function Recall(data: seq<Sample>, c: Cut): Option<real> {
    Rate(Flagged(data, c, true), Labelled(data, true))
  }

  function VertexAt(data: seq<Sample>, c: Cut): Vertex {
    Vertex(c, Fpr(data, c), Recall(data, c))
  }

  /** Vertices of the sweep over the distinct scores, descending, from the (0, 0) point; some may be dropped. */
  ghost predicate FromSweep(data: seq<Sample>, vs: seq<Vertex>) {
    && vs != [] && vs[0].cut == Infinite
    && (forall i :: 0 <= i < |vs| ==> vs[i] == VertexAt(data, vs[i].cut))
    && (forall i :: 0 < i < |vs| ==> exists s :: s in data && vs[i].cut == At(s.score))
    && (forall i, j :: 0 <= i < j < |vs| ==> Above(vs[i].cut, vs[j].cut))
  }

  /** No vertex is dropped. */
  ghost predicate WholeSweep(data: seq<Sample>, vs: seq<Vertex>) {
    FromSweep(data, vs) && forall s :: s in data ==> VertexAt(data, At(s.score)) in vs
  }

  // ---- the code's choice

  predicate Within(v: Vertex, budget: real) {
    v.fpr.Some? && v.fpr.value <= budget
  }

  /** An undefined recall beats nothing and is beaten by nothing. */
  predicate Better(v: Vertex, w: Vertex) {
    v.tpr.Some? && w.tpr.Some? && v.tpr.value > w.tpr.value
  }

  /** The first vertex with the greatest recall among those within the budget. */
  function BestUsable(vs: seq<Vertex>, budget: real): (best: Option<nat>)
    ensures best.Some? ==> best.value < |vs| && Within(vs[best.value], budget)
  {
    if vs == [] then None
    else
      var last := |vs| - 1;
      var best := BestUsable(vs[..last], budget);
      if Within(vs[last], budget) && (best.None? || Better(vs[last], vs[best.value])) then Some(last) else best
  }

  function TopScore(data: seq<Sample>): real
    requires data != []
  {
    if |data| == 1 then data[0].score
    else
      var rest := TopScore(data[1..]);
      if data[0].score > rest then data[0].score else rest
  }

  function ChosenCut(vs: seq<Vertex>, budget: real): Cut {
    var best := BestUsable(vs, budget);
    if best.None? then Infinite else vs[best.value].cut
  }

  /** `step` is the gap from the top score to the next representable number. */
  function ThresholdAtFpr(data: seq<Sample>, vs: seq<Vertex>, budget: real, step: real): real
    requires data != []
  {
    var cut := ChosenCut(vs, budget);
    if cut.Infinite? then TopScore(data) + step else cut.value
  }

  function OracleTprAtFpr(vs: seq<Vertex>, budget: real): Option<real> {
    var best := BestUsable(vs, budget);
    if best.None? then Some(0.0) else vs[best.value].tpr
  }

  // ---- counting flags

  lemma {:induction false} SameFlagsSameCount(data: seq<Sample>, c: Cut, d: Cut, positive: bool)
    requires forall s :: s in data ==> (Flags(c, s.score) <==> Flags(d, s.score))
    ensures Flagged(data, c, positive) == Flagged(data, d, positive)
  {
    if data != [] {
      SameFlagsSameCount(data[1..], c, d, positive);
    }
  }

  lemma {:induction false} LowerFlagsMore(data: seq<Sample>, c: Cut, d: Cut, positive: bool)
    requires forall s :: s in data && Flags(c, s.score) ==> Flags(d, s.score)
    ensures Flagged(data, c, positive) <= Flagged(data, d, positive) <= Labelled(data, positive)
  {
    if data != [] {
      LowerFlagsMore(data[1..], c, d, positive);
    }
  }

  lemma {:induction false} InfiniteFlagsNothing(data: seq<Sample>, positive: bool)
    ensures Flagged(data, Infinite, positive) == 0
  {
    if data != [] {
      InfiniteFlagsNothing(data[1..], positive);
    }
  }

  lemma {:induction false} TopIsAbove(data: seq<Sample>)
    requires data != []
    ensures forall s :: s in data ==> s.score <= TopScore(data)
  {
    if |data| > 1 {
      TopIsAbove(data[1..]);
    }
  }

  lemma RatesCompare(a: nat, b: nat, whole: nat)
    requires whole > 0
    ensures a <= b <==> a as real / whole as real <= b as real / whole as real
  {
  }

  /** The returned threshold flags the same samples as the vertex behind it. */
  lemma ThresholdFlagsAsItsCut(data: seq<Sample>, vs: seq<Vertex>, budget: real, step: real)
    requires data != [] && step > 0.0
    ensures var thr := At(ThresholdAtFpr(data, vs, budget, step));
            forall positive :: Flagged(data, thr, positive) == Flagged(data, ChosenCut(vs, budget), positive)
  {
    var cut := ChosenCut(vs, budget);
    var thr := At(ThresholdAtFpr(data, vs, budget, step));
    TopIsAbove(data);
    forall s | s in data ensures Flags(thr, s.score) <==> Flags(cut, s.score) {
    }
    SameFlagsSameCount(data, thr, cut, true);
    SameFlagsSameCount(data, thr, cut, false);
  }

  // ---- what the choice is

  /** Recalls are all defined or all undefined. */
  ghost predicate Uniform(vs: seq<Vertex>) {
    forall i, j :: 0 <= i < |vs| && 0 <= j < |vs| ==> (vs[i].tpr.None? <==> vs[j].tpr.None?)
  }

  lemma {:induction false} BestUsableIsFirstBest(vs: seq<Vertex>, budget: real)
    requires Uniform(vs)
    ensures BestUsable(vs, budget).None? <==> forall i :: 0 <= i < |vs| ==> !Within(vs[i], budget)
    ensures var best := BestUsable(vs, budget);
            best.Some? ==> forall i :: 0 <= i < |vs| && Within(vs[i], budget) ==>
              !Better(vs[i], vs[best.value]) && (i < best.value ==> Better(vs[best.value], vs[i]))
  {
    if vs != [] {
      var front := vs[..|vs| - 1];
      BestUsableIsFirstBest(front, budget);
      assert forall i :: 0 <= i < |front| ==> front[i] == vs[i];
      assert !Within(vs[|vs| - 1], budget) || (vs[|vs| - 1].tpr.None? <==> vs[0].tpr.None?);
    }
  }

  /** A lower vertex of the sweep flags at least as much of either label. */
  lemma SweepRises(data: seq<Sample>, vs: seq<Vertex>, i: nat, j: nat)
    requires FromSweep(data, vs) && i <= j < |vs|
    ensures vs[j].fpr.Some? ==> vs[i].fpr.Some? && vs[i].fpr.value <= vs[j].fpr.value
    ensures vs[j].tpr.Some? ==> vs[i].tpr.Some? && vs[i].tpr.value <= vs[j].tpr.value
  {
    LowerFlagsMore(data, vs[i].cut, vs[j].cut, true);
    LowerFlagsMore(data, vs[i].cut, vs[j].cut, false);
    if Labelled(data, false) > 0 {
      RatesCompare(Flagged(data, vs[i].cut, false), Flagged(data, vs[j].cut, false), Labelled(data, false));
    }
    if Labelled(data, true) > 0 {
      RatesCompare(Flagged(data, vs[i].cut, true), Flagged(data, vs[j].cut, true), Labelled(data, true));
    }
  }

  lemma SweepIsUniform(data: seq<Sample>, vs: seq<Vertex>)
    requires FromSweep(data, vs)
    ensures Uniform(vs)
    ensures forall v :: v in vs ==>
      (v.tpr.Some? <==> Labelled(data, true) > 0) && (v.fpr.Some? <==> Labelled(data, false) > 0)
  {
  }

  lemma StartIsWithin(data: seq<Sample>, vs: seq<Vertex>, budget: real)
    requires FromSweep(data, vs)
    ensures Within(vs[0], budget) <==> Labelled(data, false) > 0 && budget >= 0.0
  {
    InfiniteFlagsNothing(data, false);
    assert vs[0] == VertexAt(data, Infinite);
  }

  /** Something is within the budget exactly when negatives exist and the budget is not negative. */
  lemma UsableExists(data: seq<Sample>, vs: seq<Vertex>, budget: real)
    requires FromSweep(data, vs)
    ensures BestUsable(vs, budget).Some? <==> Labelled(data, false) > 0 && budget >= 0.0
  {
    SweepIsUniform(data, vs);
    BestUsableIsFirstBest(vs, budget);
    StartIsWithin(data, vs, budget);
    if i: nat :| i < |vs| && Within(vs[i], budget) {
      SweepRises(data, vs, 0, i);
    }
  }

  // ---- the promises

  /** The realised false-positive rate meets the budget exactly when the budget can be met at all. */
  lemma ThresholdMeetsBudget(data: seq<Sample>, vs: seq<Vertex>, budget: real, step: real)
    requires data != [] && step > 0.0 && FromSweep(data, vs)
    ensures var fpr := Fpr(data, At(ThresholdAtFpr(data, vs, budget, step)));
            fpr.Some? && fpr.value <= budget <==> Labelled(data, false) > 0 && budget >= 0.0
  {
    ThresholdFlagsAsItsCut(data, vs, budget, step);
    UsableExists(data, vs, budget);
    InfiniteFlagsNothing(data, false);
    var best := BestUsable(vs, budget);
    if best.Some? {
      assert vs[best.value] == VertexAt(data, vs[best.value].cut);
    }
  }

  /** The recall at the threshold is the oracle's; only without positives and without a usable vertex do they part. */
  lemma RecallIsOracle(data: seq<Sample>, vs: seq<Vertex>, budget: real, step: real)
    requires data != [] && step > 0.0 && FromSweep(data, vs)
    ensures Recall(data, At(ThresholdAtFpr(data, vs, budget, step))) == OracleTprAtFpr(vs, budget)
            <==> Labelled(data, true) > 0 || (Labelled(data, false) > 0 && budget >= 0.0)
  {
    ThresholdFlagsAsItsCut(data, vs, budget, step);
    UsableExists(data, vs, budget);
    InfiniteFlagsNothing(data, true);
    var best := BestUsable(vs, budget);
    if best.Some? {
      assert vs[best.value] == VertexAt(data, vs[best.value].cut);
    }
  }

  /** The threshold flags nothing exactly when the choice fell on no vertex or on the infinite one. */
  lemma FlagsNothingExactly(data: seq<Sample>, vs: seq<Vertex>, budget: real, step: real)
    requires data != [] && step > 0.0 && FromSweep(data, vs)
    ensures (forall s :: s in data ==> !Flags(At(ThresholdAtFpr(data, vs, budget, step)), s.score))
            <==> ChosenCut(vs, budget).Infinite?
  {
    TopIsAbove(data);
    var best := BestUsable(vs, budget);
    if best.Some? && best.value > 0 {
      var s :| s in data && vs[best.value].cut == At(s.score);
      assert Flags(At(ThresholdAtFpr(data, vs, budget, step)), s.score);
    }
  }

  /** A larger budget never lowers the recall, nor raises the threshold. */
  lemma {:induction false} LargerBudgetFindsMore(data: seq<Sample>, vs: seq<Vertex>, budget: real, larger: real,
                                                 step: real)
    requires data != [] && step > 0.0 && FromSweep(data, vs) && Labelled(data, true) > 0
    requires budget <= larger
    ensures OracleTprAtFpr(vs, budget).Some? && OracleTprAtFpr(vs, larger).Some?
    ensures OracleTprAtFpr(vs, budget).value <= OracleTprAtFpr(vs, larger).value
    ensures ThresholdAtFpr(data, vs, larger, step) <= ThresholdAtFpr(data, vs, budget, step)
  {
    SweepIsUniform(data, vs);
    BestUsableIsFirstBest(vs, budget);
    BestUsableIsFirstBest(vs, larger);
    TopIsAbove(data);
    var small, big := BestUsable(vs, budget), BestUsable(vs, larger);
    if big.Some? {
      assert vs[big.value] in vs;
      InfiniteFlagsNothing(data, true);
      SweepRises(data, vs, 0, big.value);
    }
    if small.Some? {
      assert Within(vs[small.value], larger);
      assert vs[small.value] in vs;
      if big.value < small.value {
        SweepRises(data, vs, big.value, small.value);
      }
      assert small.value <= big.value;
    }
  }

  // ---- best possible on a whole sweep

  /** Every threshold flags what some vertex of the whole sweep flags. */
  lemma EveryCutIsAVertex(data: seq<Sample>, vs: seq<Vertex>, c: Cut) returns (i: nat)
    requires WholeSweep(data, vs)
    ensures i < |vs| && vs[i].fpr == Fpr(data, c) && vs[i].tpr == Recall(data, c)
  {
    var low := LowestFlagged(data, c);
    if low.None? {
      SameFlagsSameCount(data, c, Infinite, true);
      SameFlagsSameCount(data, c, Infinite, false);
      i := 0;
    } else {
      SameFlagsSameCount(data, c, At(low.value), true);
      SameFlagsSameCount(data, c, At(low.value), false);
      assert VertexAt(data, At(low.value)) in vs;
      i :| 0 <= i < |vs| && vs[i] == VertexAt(data, At(low.value));
    }
  }

  lemma {:induction false} LowestFlagged(data: seq<Sample>, c: Cut) returns (low: Option<real>)
    ensures low.None? ==> forall s :: s in data ==> !Flags(c, s.score)
    ensures low.Some? ==> (exists s :: s in data && s.score == low.value)
                          && forall s :: s in data ==> (Flags(c, s.score) <==> s.score >= low.value)
  {
    if data == [] {
      low := None;
    } else {
      low := LowestFlagged(data[1..], c);
      if Flags(c, data[0].score) && (low.None? || data[0].score < low.value) {
        low := Some(data[0].score);
      }
    }
  }

  /** No threshold whatever that keeps the budget catches more positives than the oracle says. */
  lemma {:induction false} NoThresholdBeatsTheOracle(data: seq<Sample>, vs: seq<Vertex>, budget: real, c: Cut)
    requires WholeSweep(data, vs) && Labelled(data, true) > 0
    requires Fpr(data, c).Some? && Fpr(data, c).value <= budget
    ensures Recall(data, c).value <= OracleTprAtFpr(vs, budget).value
  {
    SweepIsUniform(data, vs);
    BestUsableIsFirstBest(vs, budget);
    var i := EveryCutIsAVertex(data, vs, c);
    assert Within(vs[i], budget);
    assert vs[BestUsable(vs, budget).value] in vs;
  }

  /** Within the budget, and no score within the budget catches more positives. */
  ghost predicate CatchesMost(data: seq<Sample>, budget: real, v: Vertex) {
    && Within(v, budget)
    && forall s :: s in data && Within(VertexAt(data, At(s.score)), budget) ==>
         Flagged(data, At(s.score), true) <= Flagged(data, v.cut, true)
  }

  lemma {:induction false} BestCatchesMost(data: seq<Sample>, vs: seq<Vertex>, budget: real)
    requires WholeSweep(data, vs) && Labelled(data, true) > 0 && BestUsable(vs, budget).Some?
    ensures CatchesMost(data, budget, vs[BestUsable(vs, budget).value])
  {
    var best := vs[BestUsable(vs, budget).value];
    assert best in vs;
    forall s | s in data && Within(VertexAt(data, At(s.score)), budget)
      ensures Flagged(data, At(s.score), true) <= Flagged(data, best.cut, true)
    {
      NoThresholdBeatsTheOracle(data, vs, budget, At(s.score));
      RatesCompare(Flagged(data, At(s.score), true), Flagged(data, best.cut, true), Labelled(data, true));
    }
  }

  lemma {:induction false} CatchesMostIsBeaten(data: seq<Sample>, vs: seq<Vertex>, budget: real, v: Vertex, w: Vertex)
    requires FromSweep(data, vs) && Labelled(data, true) > 0 && w in vs && Within(w, budget)
    requires v == VertexAt(data, v.cut) && CatchesMost(data, budget, v)
    ensures !Better(w, v)
  {
    InfiniteFlagsNothing(data, true);
    assert Flagged(data, w.cut, true) <= Flagged(data, v.cut, true);
    RatesCompare(Flagged(data, w.cut, true), Flagged(data, v.cut, true), Labelled(data, true));
  }

  /** Dropping vertices keeps the oracle exact when, and only when, some kept vertex catches the most. */
  lemma OracleSurvivesDropping(data: seq<Sample>, vs: seq<Vertex>, whole: seq<Vertex>, budget: real)
    requires FromSweep(data, vs) && WholeSweep(data, whole)
    requires Labelled(data, true) > 0 && Labelled(data, false) > 0 && budget >= 0.0
    ensures OracleTprAtFpr(vs, budget) == OracleTprAtFpr(whole, budget)
            <==> exists v :: v in vs && CatchesMost(data, budget, v)
  {
    UsableExists(data, vs, budget);
    UsableExists(data, whole, budget);
    var kept, best := vs[BestUsable(vs, budget).value], whole[BestUsable(whole, budget).value];
    assert kept in vs && best in whole;
    BestCatchesMost(data, whole, budget);
    NoThresholdBeatsTheOracle(data, whole, budget, kept.cut);
    if kept.tpr == best.tpr {
      RatesCompare(Flagged(data, best.cut, true), Flagged(data, kept.cut, true), Labelled(data, true));
      assert CatchesMost(data, budget, kept);
    }
    if v :| v in vs && CatchesMost(data, budget, v) {
      CatchesMostIsBeaten(data, whole, budget, v, best);
      SweepIsUniform(data, vs);
      BestUsableIsFirstBest(vs, budget);
    }
  }

  /** At least as good: no more of the negatives and no fewer of the positives. */
  predicate AtLeastAsGood(w: Vertex, v: Vertex) {
    w.fpr.Some? && v.fpr.Some? && w.tpr.Some? && v.tpr.Some?
    && w.fpr.value <= v.fpr.value && w.tpr.value >= v.tpr.value
  }

  /** Every vertex of the whole sweep has a kept one at least as good. */
  ghost predicate KeepsTheBest(vs: seq<Vertex>, whole: seq<Vertex>) {
    forall v :: v in whole ==> exists w :: w in vs && AtLeastAsGood(w, v)
  }

  ghost predicate SameOracle(vs: seq<Vertex>, whole: seq<Vertex>) {
    forall budget :: budget >= 0.0 ==> OracleTprAtFpr(vs, budget) == OracleTprAtFpr(whole, budget)
  }

  /** The oracle's vertex: within the budget, and no other within it has a higher recall. */
  lemma {:induction false} OracleVertex(data: seq<Sample>, vs: seq<Vertex>, budget: real) returns (best: Vertex)
    requires FromSweep(data, vs) && Labelled(data, true) > 0 && Labelled(data, false) > 0 && budget >= 0.0
    ensures best in vs && Within(best, budget) && OracleTprAtFpr(vs, budget) == best.tpr && best.tpr.Some?
    ensures forall v :: v in vs && Within(v, budget) ==> v.tpr.Some? && v.tpr.value <= best.tpr.value
    ensures best == VertexAt(data, best.cut)
  {
    UsableExists(data, vs, budget);
    SweepIsUniform(data, vs);
    BestUsableIsFirstBest(vs, budget);
    best := vs[BestUsable(vs, budget).value];
    assert best in vs;
    forall v | v in vs && Within(v, budget) ensures v.tpr.Some? && v.tpr.value <= best.tpr.value {
      var i :| 0 <= i < |vs| && vs[i] == v;
      assert !Better(vs[i], best);
    }
  }

  lemma {:induction false} GoodKeptVertexSuffices(data: seq<Sample>, vs: seq<Vertex>, whole: seq<Vertex>, budget: real)
    requires FromSweep(data, vs) && WholeSweep(data, whole)
    requires Labelled(data, true) > 0 && Labelled(data, false) > 0 && budget >= 0.0 && KeepsTheBest(vs, whole)
    ensures OracleTprAtFpr(vs, budget) == OracleTprAtFpr(whole, budget)
  {
    var kept := OracleVertex(data, vs, budget);
    var best := OracleVertex(data, whole, budget);
    NoThresholdBeatsTheOracle(data, whole, budget, kept.cut);
    NoKeptVertexIsWorse(vs, whole, budget, kept, best);
  }

  lemma NoKeptVertexIsWorse(vs: seq<Vertex>, whole: seq<Vertex>, budget: real, kept: Vertex, best: Vertex)
    requires KeepsTheBest(vs, whole) && best in whole && Within(best, budget) && best.tpr.Some? && kept.tpr.Some?
    requires forall v :: v in vs && Within(v, budget) ==> v.tpr.Some? && v.tpr.value <= kept.tpr.value
    ensures best.tpr.value <= kept.tpr.value
  {
    var w :| w in vs && AtLeastAsGood(w, best);
    assert Within(w, budget);
  }

  lemma {:induction false} SameOracleNeedsGoodVertex(data: seq<Sample>, vs: seq<Vertex>, whole: seq<Vertex>, v: Vertex)
    requires FromSweep(data, vs) && WholeSweep(data, whole)
    requires Labelled(data, true) > 0 && Labelled(data, false) > 0 && SameOracle(vs, whole) && v in whole
    ensures exists w :: w in vs && AtLeastAsGood(w, v)
  {
    assert v == VertexAt(data, v.cut);
    var budget := v.fpr.value;
    var kept := OracleVertex(data, vs, budget);
    var best := OracleVertex(data, whole, budget);
    assert Within(v, budget);
    assert OracleTprAtFpr(vs, budget) == OracleTprAtFpr(whole, budget);
    assert AtLeastAsGood(kept, v);
  }

  /**
   * Dropping vertices changes no budget's oracle if and only if each dropped vertex has a kept one
   * at least as good.
   */
  lemma {:induction false} DroppingIsHarmlessExactly(data: seq<Sample>, vs: seq<Vertex>, whole: seq<Vertex>)
    requires FromSweep(data, vs) && WholeSweep(data, whole)
    requires Labelled(data, true) > 0 && Labelled(data, false) > 0
    ensures SameOracle(vs, whole) <==> KeepsTheBest(vs, whole)
  {
    if KeepsTheBest(vs, whole) {
      forall budget | budget >= 0.0
        ensures OracleTprAtFpr(vs, budget) == OracleTprAtFpr(whole, budget)
      {
        GoodKeptVertexSuffices(data, vs, whole, budget);
      }
    }
    if SameOracle(vs, whole) {
      forall v | v in whole
        ensures exists w :: w in vs && AtLeastAsGood(w, v)
      {
        SameOracleNeedsGoodVertex(data, vs, whole, v);
      }
    }
  }

  /** Three scores, each once a positive's and once a negative's. */
  function Ties(): seq<Sample> {
    [Sample(3.0, true), Sample(3.0, false), Sample(2.0, true),
     Sample(2.0, false), Sample(1.0, true), Sample(1.0, false)]
  }

  function Step(c: Cut, score: real): nat {
    if Flags(c, score) then 1 else 0
  }

  lemma TiesCount(c: Cut, positive: bool)
    ensures Flagged(Ties(), c, positive) == Step(c, 3.0) + Step(c, 2.0) + Step(c, 1.0)
    ensures Labelled(Ties(), positive) == 3
  {
    var d := Ties();
    Cons(d[5], [], c, positive);
    Cons(d[4], [d[5]], c, positive);
    Cons(d[3], [d[4], d[5]], c, positive);
    Cons(d[2], [d[3], d[4], d[5]], c, positive);
    Cons(d[1], [d[2], d[3], d[4], d[5]], c, positive);
    Cons(d[0], [d[1], d[2], d[3], d[4], d[5]], c, positive);
    assert [d[5]] + [] == [d[5]] && [d[4]] + [d[5]] == [d[4], d[5]];
    assert [d[3]] + [d[4], d[5]] == [d[3], d[4], d[5]] && [d[2]] + [d[3], d[4], d[5]] == [d[2], d[3], d[4], d[5]];
    assert [d[1]] + [d[2], d[3], d[4], d[5]] == [d[1], d[2], d[3], d[4], d[5]];
    assert d == [d[0]] + [d[1], d[2], d[3], d[4], d[5]];
  }

  /** The vertices of the tied scores: as many thirds of either label as scores reached. */
  lemma TiesVertex(c: Cut, k: nat)
    requires k == Step(c, 3.0) + Step(c, 2.0) + Step(c, 1.0)
    ensures VertexAt(Ties(), c) == Vertex(c, Some(k as real / 3.0), Some(k as real / 3.0))
  {
    TiesCount(c, true);
    TiesCount(c, false);
  }

  lemma ThirdsUnderBudget(vs: seq<Vertex>, n: nat)
    requires 2 <= n <= 3 && |vs| == n + 1 && vs[n].fpr == vs[n].tpr == Some(1.0)
    requires forall i :: 0 <= i < n ==> vs[i].fpr == Some(i as real / 3.0) == vs[i].tpr
    ensures BestUsable(vs, 0.7) == Some(n - 1)
  {
    BestUsableIsFirstBest(vs, 0.7);
    assert Within(vs[n - 1], 0.7) && !Within(vs[n], 0.7);
    assert forall i :: 0 <= i < n - 1 ==> Better(vs[n - 1], vs[i]);
  }

  /** The cuts of a sweep: the infinite one, then scores of the data, falling. */
  ghost predicate FallingCuts(data: seq<Sample>, cuts: seq<Cut>) {
    && cuts != [] && cuts[0] == Infinite
    && (forall i :: 0 < i < |cuts| ==> exists s :: s in data && cuts[i] == At(s.score))
    && forall i, j :: 0 <= i < j < |cuts| ==> Above(cuts[i], cuts[j])
  }

  function SweepAt(data: seq<Sample>, cuts: seq<Cut>): seq<Vertex> {
    seq(|cuts|, i requires 0 <= i < |cuts| => VertexAt(data, cuts[i]))
  }

  lemma CutsMakeSweep(data: seq<Sample>, cuts: seq<Cut>)
    requires FallingCuts(data, cuts)
    ensures FromSweep(data, SweepAt(data, cuts))
    ensures (forall s :: s in data ==> At(s.score) in cuts) ==> WholeSweep(data, SweepAt(data, cuts))
  {
    var vs := SweepAt(data, cuts);
    if forall s :: s in data ==> At(s.score) in cuts {
      forall s | s in data ensures VertexAt(data, At(s.score)) in vs {
        var i :| 0 <= i < |cuts| && cuts[i] == At(s.score);
        assert vs[i] in vs;
      }
    }
  }

  const KeptCuts: seq<Cut> := [Infinite, At(3.0), At(1.0)]
  const AllCuts: seq<Cut> := [Infinite, At(3.0), At(2.0), At(1.0)]

  lemma TiesCuts()
    ensures FallingCuts(Ties(), KeptCuts) && FallingCuts(Ties(), AllCuts)
    ensures forall s :: s in Ties() ==> At(s.score) in AllCuts
  {
    assert Ties()[0] in Ties() && Ties()[2] in Ties() && Ties()[4] in Ties();
    assert AllCuts[1] in AllCuts && AllCuts[2] in AllCuts && AllCuts[3] in AllCuts;
  }

  /** With the middle one of three tied scores dropped, the oracle halves under a budget of 0.7. */
  lemma {:induction false} DroppedVertexCostsRecall()
    ensures FromSweep(Ties(), SweepAt(Ties(), KeptCuts)) && WholeSweep(Ties(), SweepAt(Ties(), AllCuts))
    ensures OracleTprAtFpr(SweepAt(Ties(), KeptCuts), 0.7) == Some(1.0 / 3.0)
    ensures OracleTprAtFpr(SweepAt(Ties(), AllCuts), 0.7) == Some(2.0 / 3.0)
  {
    TiesCuts();
    CutsMakeSweep(Ties(), KeptCuts);
    CutsMakeSweep(Ties(), AllCuts);
    TiesOracles();
  }

  lemma {:induction false} TiesOracles()
    ensures OracleTprAtFpr(SweepAt(Ties(), KeptCuts), 0.7) == Some(1.0 / 3.0)
    ensures OracleTprAtFpr(SweepAt(Ties(), AllCuts), 0.7) == Some(2.0 / 3.0)
  {
    TiesVertex(Infinite, 0);
    TiesVertex(At(3.0), 1);
    TiesVertex(At(2.0), 2);
    TiesVertex(At(1.0), 3);
    ThirdsUnderBudget(SweepAt(Ties(), KeptCuts), 2);
    ThirdsUnderBudget(SweepAt(Ties(), AllCuts), 3);
  }

  // ---- not always the lowest threshold in budget

  /** The choice is the last vertex in budget exactly when that vertex catches a positive its predecessor misses. */
  lemma {:induction false} LowestOnlyIfItCatchesMore(data: seq<Sample>, vs: seq<Vertex>, budget: real, last: nat)
    requires FromSweep(data, vs) && Labelled(data, true) > 0
    requires last < |vs| && Within(vs[last], budget) && forall i :: last < i < |vs| ==> !Within(vs[i], budget)
    ensures BestUsable(vs, budget) == Some(last)
            <==> last == 0 || Flagged(data, vs[last - 1].cut, true) < Flagged(data, vs[last].cut, true)
  {
    SweepIsUniform(data, vs);
    BestUsableIsFirstBest(vs, budget);
    var best := BestUsable(vs, budget).value;
    assert best <= last;
    if last > 0 {
      SweepRises(data, vs, last - 1, last);
      assert vs[last] in vs && vs[last - 1] in vs;
      RatesCompare(Flagged(data, vs[last].cut, true), Flagged(data, vs[last - 1].cut, true), Labelled(data, true));
      if best < last {
        SweepRises(data, vs, best, last - 1);
      }
    }
  }

  /** A positive at 3 and a negative at 2 under a budget of one: 2 is in budget, 3 is returned. */
  lemma ThresholdNeedNotBeLowest()
    ensures var data := [Sample(3.0, true), Sample(2.0, false)];
            var vs := [VertexAt(data, Infinite), VertexAt(data, At(3.0)), VertexAt(data, At(2.0))];
            WholeSweep(data, vs) && Within(vs[2], 1.0) && ThresholdAtFpr(data, vs, 1.0, 1.0) == 3.0
  {
    var data := [Sample(3.0, true), Sample(2.0, false)];
    var vs := [VertexAt(data, Infinite), VertexAt(data, At(3.0)), VertexAt(data, At(2.0))];
    PairVertex(data[0], data[1], Infinite);
    PairVertex(data[0], data[1], At(3.0));
    PairVertex(data[0], data[1], At(2.0));
  }

  lemma Cons(x: Sample, rest: seq<Sample>, c: Cut, positive: bool)
    ensures Flagged([x] + rest, c, positive)
            == (if x.positive == positive && Flags(c, x.score) then 1 else 0) + Flagged(rest, c, positive)
    ensures Labelled([x] + rest, positive) == (if x.positive == positive then 1 else 0) + Labelled(rest, positive)
  {
    assert ([x] + rest)[1..] == rest;
  }

  lemma PairVertex(a: Sample, b: Sample, c: Cut)
    requires a.positive && !b.positive
    ensures VertexAt([a, b], c) == Vertex(c, Some(if Flags(c, b.score) then 1.0 else 0.0),
                                          Some(if Flags(c, a.score) then 1.0 else 0.0))
  {
    assert [a] + [b] == [a, b] && [b] + [] == [b];
    Cons(a, [b], c, true);
    Cons(a, [b], c, false);
    Cons(b, [], c, true);
    Cons(b, [], c, false);
  }

  // ---- rates as counts

  ghost function FlaggedPlaces(data: seq<Sample>, c: Cut, positive: bool): set<nat> {
    set i: nat | i < |data| && data[i].positive == positive && c != Infinite && c.value <= data[i].score
  }

  ghost function LabelledPlaces(data: seq<Sample>, positive: bool): set<nat> {
    set i: nat | i < |data| && data[i].positive == positive
  }

  lemma {:induction false} CountsAreSizes(data: seq<Sample>, c: Cut, positive: bool)
    ensures Flagged(data, c, positive) == |FlaggedPlaces(data, c, positive)|
    ensures Labelled(data, positive) == |LabelledPlaces(data, positive)|
  {
    if data == [] {
      assert FlaggedPlaces(data, c, positive) == {} && LabelledPlaces(data, positive) == {};
    } else {
      var rest := data[1..];
      CountsAreSizes(rest, c, positive);
      ShiftedSize(FlaggedPlaces(rest, c, positive));
      ShiftedSize(LabelledPlaces(rest, positive));
      SplitFirst(data, c, positive);
    }
  }

  ghost function Shifted(s: set<nat>): set<nat> {
    set i | i in s :: i + 1
  }

  lemma {:induction false} ShiftedSize(s: set<nat>)
    ensures |Shifted(s)| == |s|
  {
    if s == {} {
      assert Shifted(s) == {};
    } else {
      var i :| i in s;
      ShiftedSize(s - {i});
      forall x | x in Shifted(s) ensures x in Shifted(s - {i}) + {i + 1} {
        var j :| j in s && x == j + 1;
        assert j != i ==> j in s - {i} && x in Shifted(s - {i});
      }
      assert Shifted(s) == Shifted(s - {i}) + {i + 1};
    }
  }

  lemma SplitFirst(data: seq<Sample>, c: Cut, positive: bool)
    requires data != []
    ensures FlaggedPlaces(data, c, positive)
            == Shifted(FlaggedPlaces(data[1..], c, positive))
               + if data[0].positive == positive && Flags(c, data[0].score) then {0} else {}
    ensures LabelledPlaces(data, positive)
            == Shifted(LabelledPlaces(data[1..], positive)) + if data[0].positive == positive then {0} else {}
  {
    forall i: nat | 0 < i < |data| ensures data[i] == data[1..][i - 1] && i == (i - 1) + 1 {
    }
    forall i | i in FlaggedPlaces(data, c, positive) && i > 0
      ensures i in Shifted(FlaggedPlaces(data[1..], c, positive))
    {
      assert i - 1 in FlaggedPlaces(data[1..], c, positive);
    }
    forall i | i in LabelledPlaces(data, positive) && i > 0
      ensures i in Shifted(LabelledPlaces(data[1..], positive))
    {
      assert i - 1 in LabelledPlaces(data[1..], positive);
    }
  }

  /** A rate is defined exactly when its label occurs, and is then the flagged part of the label's samples. */
  lemma RatesAreShares(data: seq<Sample>, c: Cut)
    ensures Fpr(data, c).Some? <==> LabelledPlaces(data, false) != {}
    ensures Recall(data, c).Some? <==> LabelledPlaces(data, true) != {}
    ensures Fpr(data, c).Some? ==>
      Fpr(data, c).value == |FlaggedPlaces(data, c, false)| as real / |LabelledPlaces(data, false)| as real
    ensures Recall(data, c).Some? ==>
      Recall(data, c).value == |FlaggedPlaces(data, c, true)| as real / |LabelledPlaces(data, true)| as real
  {
    CountsAreSizes(data, c, false);
    CountsAreSizes(data, c, true);
  }
}
