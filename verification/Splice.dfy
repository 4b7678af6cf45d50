/**
 * Splicing: which positions are tried, what a spliced answer looks like, and the share of
 * its words that are AI, computed step by step or from the finished answer.
 */
module Splice {
  import opened Prelude

  /** Commas, semicolons, angle brackets and spaces separate words. */
  predicate Separates(c: char) {
    IsSpace(c) || c == ',' || c == ';' || c == '<' || c == '>'
  }

  /** The words of a text: stretches between separators, counted where they begin. */
  function CountWords(text: string): nat {
    if text == "" then 0
    else
      var front, last := text[..|text| - 1], text[|text| - 1];
      CountWords(front) + if !Separates(last) && (front == "" || Separates(front[|front| - 1])) then 1 else 0
  }

  datatype Sentence = Sentence(text: string) {
    const words: nat := CountWords(text)
  }

  datatype Labelled = Labelled(sentence: Sentence, ai: bool)

  // ---- the spliced answer

  /** How many chosen positions come before i. */
  function Rank(chosen: set<nat>, i: nat): nat {
    |set j | j in chosen && j < i|
  }

  function Words(s: seq<Sentence>): nat {
    if s == [] then 0 else Words(s[..|s| - 1]) + s[|s| - 1].words
  }

  function AllWords(l: seq<Labelled>): nat {
    if l == [] then 0 else AllWords(l[..|l| - 1]) + l[|l| - 1].sentence.words
  }

  function AiWords(l: seq<Labelled>): nat {
    if l == [] then 0
    else AiWords(l[..|l| - 1]) + if l[|l| - 1].ai then l[|l| - 1].sentence.words else 0
  }

  /** The words of the chosen sentences among the first n. */
  function WordsAt(human: seq<Sentence>, chosen: set<nat>, n: nat): nat
    requires n <= |human|
  {
    if n == 0 then 0 else WordsAt(human, chosen, n - 1) + if n - 1 in chosen then human[n - 1].words else 0
  }

  ghost predicate Positions(chosen: set<nat>, n: nat) {
    forall p :: p in chosen ==> p < n
  }

  /** The chosen positions hold the donor's first sentences in order, all others their own. */
  ghost predicate IsSplice(human: seq<Sentence>, donor: seq<Sentence>, chosen: set<nat>, l: seq<Labelled>) {
    && |l| == |human|
    && forall i :: 0 <= i < |l| ==>
         if i in chosen then Rank(chosen, i) < |donor| && l[i] == Labelled(donor[Rank(chosen, i)], true)
         else l[i] == Labelled(human[i], false)
  }

  lemma RankStep(chosen: set<nat>, i: nat)
    ensures Rank(chosen, i + 1) == Rank(chosen, i) + if i in chosen then 1 else 0
  {
    var before := set j | j in chosen && j < i;
    var after := set j | j in chosen && j < i + 1;
    assert after == before + if i in chosen then {i} else {};
  }

  lemma RankAtMost(chosen: set<nat>, i: nat)
    ensures Rank(chosen, i) <= |chosen|
    ensures i in chosen ==> Rank(chosen, i) < |chosen|
  {
    var before := set j | j in chosen && j < i;
    SubsetSize(before, chosen);
    if i in chosen {
      SubsetSize(before, chosen - {i});
    }
  }

  lemma RankEnd(chosen: set<nat>, n: nat)
    requires Positions(chosen, n)
    ensures Rank(chosen, n) == |chosen|
  {
    assert (set j | j in chosen && j < n) == chosen;
  }

  /** Walks the human sentences and takes the next donor sentence at every chosen position. */
  method SpliceAt(human: seq<Sentence>, donor: seq<Sentence>, chosen: set<nat>) returns (l: seq<Labelled>)
    requires Positions(chosen, |human|) && |chosen| <= |donor|
    ensures IsSplice(human, donor, chosen, l)
  {
    l := [];
    var next := 0;
    for i := 0 to |human|
      invariant next == Rank(chosen, i) <= |donor|
      invariant IsSplice(human[..i], donor, chosen, l)
    {
      RankStep(chosen, i);
      RankAtMost(chosen, i);
      RankAtMost(chosen, i + 1);
      if i in chosen {
        l := l + [Labelled(donor[next], true)];
        next := next + 1;
      } else {
        l := l + [Labelled(human[i], false)];
      }
    }
    assert human[..|human|] == human;
  }

  /** The AI sentences of a labelled answer, in order. */
  function AiSentences(l: seq<Labelled>): seq<Sentence> {
    if l == [] then []
    else AiSentences(l[..|l| - 1]) + if l[|l| - 1].ai then [l[|l| - 1].sentence] else []
  }

  lemma RankStart(chosen: set<nat>)
    ensures Rank(chosen, 0) == 0
  {
    assert (set j | j in chosen && j < 0) == {};
  }

  lemma {:induction false} SplicePrefix(human: seq<Sentence>, donor: seq<Sentence>, chosen: set<nat>,
                                        l: seq<Labelled>, n: nat)
    requires IsSplice(human, donor, chosen, l) && n <= |human| && |chosen| <= |donor|
    ensures Rank(chosen, n) <= |donor|
    ensures AiSentences(l[..n]) == donor[..Rank(chosen, n)]
    ensures AiWords(l[..n]) == Words(donor[..Rank(chosen, n)])
  {
    RankAtMost(chosen, n);
    if n == 0 {
      RankStart(chosen);
    } else {
      SplicePrefix(human, donor, chosen, l, n - 1);
      RankStep(chosen, n - 1);
      assert l[..n][..n - 1] == l[..n - 1];
      if n - 1 in chosen {
        var r := Rank(chosen, n - 1);
        assert donor[..r + 1][..r] == donor[..r];
      }
    }
  }

  /** What is spliced in and what is spliced out make up the difference in words. */
  lemma {:induction false} WordsBalance(human: seq<Sentence>, donor: seq<Sentence>, chosen: set<nat>,
                                        l: seq<Labelled>, n: nat)
    requires IsSplice(human, donor, chosen, l) && n <= |human|
    ensures AllWords(l[..n]) + WordsAt(human, chosen, n) == AiWords(l[..n]) + Words(human[..n])
  {
    if n > 0 {
      WordsBalance(human, donor, chosen, l, n - 1);
      assert l[..n][..n - 1] == l[..n - 1] && human[..n][..n - 1] == human[..n - 1];
    }
  }

  /** Every chosen position got a donor sentence, in the donor's order, and nothing else changed. */
  lemma {:induction false} SpliceTakesDonorPrefix(human: seq<Sentence>, donor: seq<Sentence>, chosen: set<nat>,
                                                  l: seq<Labelled>)
    requires IsSplice(human, donor, chosen, l) && Positions(chosen, |human|) && |chosen| <= |donor|
    ensures AiSentences(l) == donor[..|chosen|]
    ensures AiWords(l) == Words(donor[..|chosen|])
    ensures AllWords(l) == Words(donor[..|chosen|]) + Words(human) - WordsAt(human, chosen, |human|)
  {
    SplicePrefix(human, donor, chosen, l, |human|);
    WordsBalance(human, donor, chosen, l, |human|);
    RankEnd(chosen, |human|);
    assert l[..|l|] == l && human[..|human|] == human;
  }

  // ---- shares and bands

  /** The AI share of a finished answer; 0 for an answer without words. */
  function AiShare(l: seq<Labelled>): real {
    if AllWords(l) == 0 then 0.0 else AiWords(l) as real / AllWords(l) as real
  }

  datatype Band = Band(id: int, low: real, high: real)

  /** Where a share falls: in a band or between bands. */
  datatype Place = Between | Inside(id: int)

  /** The first band, by id, whose closed range holds the share. */
  function BandOf(share: real, bands: seq<Band>): Place {
    if bands == [] then Between
    else if bands[0].low <= share <= bands[0].high then Inside(bands[0].id)
    else BandOf(share, bands[1..])
  }

  lemma {:induction false} BandHoldsShare(share: real, bands: seq<Band>)
    ensures BandOf(share, bands).Inside? ==>
      exists b :: b in bands && b.id == BandOf(share, bands).id && b.low <= share <= b.high
    ensures BandOf(share, bands).Between? ==> forall b :: b in bands ==> !(b.low <= share <= b.high)
  {
    if bands != [] {
      BandHoldsShare(share, bands[1..]);
    }
  }

  /** The range check of the configuration, on ranges sorted by their bounds. */
  predicate RangesAccepted(ranges: seq<(real, real)>) {
    && (forall i :: 0 <= i < |ranges| ==> 0.0 <= ranges[i].0 < ranges[i].1 <= 1.0)
    && forall i, j :: 0 <= i < |ranges| && j == i + 1 < |ranges| ==> ranges[i].1 < ranges[j].0
  }

  /** Comparing neighbours is enough: accepted ranges are pairwise disjoint. */
  lemma {:induction false} AcceptedRangesAreDisjoint(ranges: seq<(real, real)>, i: nat, j: nat, share: real)
    requires RangesAccepted(ranges) && i < j < |ranges|
    ensures ranges[i].1 < ranges[j].0
    ensures !(ranges[i].0 <= share <= ranges[i].1 && ranges[j].0 <= share <= ranges[j].1)
    decreases j - i
  {
    if j > i + 1 {
      AcceptedRangesAreDisjoint(ranges, i, j - 1, share);
    }
  }

  // ---- position sets

  /** n over k. */
  function Choose(n: nat, k: nat): nat {
    if k == 0 then 1 else if n == 0 then 0 else Choose(n - 1, k) + Choose(n - 1, k - 1)
  }

  function WithLast(sets: seq<set<nat>>, x: nat): seq<set<nat>> {
    seq(|sets|, i requires 0 <= i < |sets| => sets[i] + {x})
  }

  /** All sets of k positions below n. */
  function Combinations(n: nat, k: nat): seq<set<nat>> {
    if k == 0 then [{}]
    else if n == 0 then []
    else Combinations(n - 1, k) + WithLast(Combinations(n - 1, k - 1), n - 1)
  }

  ghost predicate ValidSets(sets: seq<set<nat>>, n: nat, k: nat) {
    Distinct(sets) && forall i :: 0 <= i < |sets| ==> Positions(sets[i], n) && |sets[i]| == k
  }

  lemma WithLastIsDistinct(sets: seq<set<nat>>, x: nat, k: nat)
    requires ValidSets(sets, x, k)
    ensures ValidSets(WithLast(sets, x), x + 1, k + 1)
    ensures forall i :: 0 <= i < |sets| ==> x in WithLast(sets, x)[i]
  {
    var more := WithLast(sets, x);
    forall i, j | 0 <= i < j < |more|
      ensures more[i] != more[j]
    {
      assert sets[i] == more[i] - {x} && sets[j] == more[j] - {x};
    }
  }

  /** There are n over k of them. */
  lemma {:induction false} CombinationsCount(n: nat, k: nat)
    ensures |Combinations(n, k)| == Choose(n, k)
  {
    if k > 0 && n > 0 {
      CombinationsCount(n - 1, k);
      CombinationsCount(n - 1, k - 1);
    }
  }

  /** They are all different and valid. */
  lemma {:induction false} CombinationsValid(n: nat, k: nat)
    ensures ValidSets(Combinations(n, k), n, k)
  {
    if k == 0 {
      assert Combinations(n, k) == [{}];
    } else if n == 0 {
      assert Combinations(n, k) == [];
    } else {
      CombinationsValid(n - 1, k);
      CombinationsValid(n - 1, k - 1);
      CombineValid(Combinations(n - 1, k), Combinations(n - 1, k - 1), n, k);
    }
  }

  lemma CombineValid(front: seq<set<nat>>, inner: seq<set<nat>>, n: nat, k: nat)
    requires n > 0 && k > 0
    requires ValidSets(front, n - 1, k) && ValidSets(inner, n - 1, k - 1)
    ensures ValidSets(front + WithLast(inner, n - 1), n, k)
  {
    WithLastIsDistinct(inner, n - 1, k - 1);
    JoinValid(front, WithLast(inner, n - 1), n - 1, k);
  }

  lemma JoinValid(front: seq<set<nat>>, back: seq<set<nat>>, n: nat, k: nat)
    requires ValidSets(front, n, k) && ValidSets(back, n + 1, k)
    requires forall i :: 0 <= i < |back| ==> n in back[i]
    ensures ValidSets(front + back, n + 1, k)
  {
    var all := front + back;
    forall i, j | 0 <= i < j < |all|
      ensures all[i] != all[j]
    {
      if i < |front| <= j {
        assert n in back[j - |front|] && n !in front[i];
      }
    }
  }

  lemma SomePosition(s: set<nat>, n: nat)
    requires Positions(s, n) && |s| > 0
    ensures n > 0
  {
    var p :| p in s;
  }

  /** And every set of k positions below n is among them. */
  lemma {:induction false} CombinationsComplete(n: nat, k: nat, s: set<nat>)
    requires Positions(s, n) && |s| == k
    ensures s in Combinations(n, k)
  {
    if k == 0 {
      assert s == {};
    } else if n == 0 {
      SomePosition(s, n);
      assert false;
    } else if n - 1 in s {
      CombinationsComplete(n - 1, k - 1, s - {n - 1});
      var sets := Combinations(n - 1, k - 1);
      var i :| 0 <= i < |sets| && sets[i] == s - {n - 1};
      assert WithLast(sets, n - 1)[i] == s;
    } else {
      CombinationsComplete(n - 1, k, s);
    }
  }

  /** The first cap different draws, in the order they come. */
  function FirstDistinct(draws: seq<set<nat>>, cap: nat): seq<set<nat>> {
    if draws == [] then []
    else
      var found := FirstDistinct(draws[..|draws| - 1], cap);
      if |found| < cap && draws[|draws| - 1] !in found then found + [draws[|draws| - 1]] else found
  }

  /** The position sets that are tried: all of them, or cap different draws when there are more. */
  function Considered(n: nat, k: nat, draws: seq<set<nat>>, cap: nat): seq<set<nat>> {
    if Choose(n, k) <= cap then Combinations(n, k) else FirstDistinct(draws, cap)
  }

  lemma {:induction false} FirstDistinctFacts(draws: seq<set<nat>>, cap: nat)
    ensures Distinct(FirstDistinct(draws, cap)) && |FirstDistinct(draws, cap)| <= cap
    ensures Elements(FirstDistinct(draws, cap)) <= Elements(draws)
    ensures |FirstDistinct(draws, cap)| < cap ==> Elements(FirstDistinct(draws, cap)) == Elements(draws)
  {
    if draws != [] {
      var front, last := draws[..|draws| - 1], draws[|draws| - 1];
      FirstDistinctFacts(front, cap);
      assert Elements(draws) == Elements(front) + {last};
      var found := FirstDistinct(front, cap);
      assert Elements(found + [last]) == Elements(found) + {last};
    }
  }

  lemma {:induction false} FirstDistinctStays(draws: seq<set<nat>>, m: nat, cap: nat)
    requires m <= |draws| && |FirstDistinct(draws[..m], cap)| == cap
    ensures FirstDistinct(draws, cap) == FirstDistinct(draws[..m], cap)
  {
    if m < |draws| {
      assert draws[..|draws| - 1][..m] == draws[..m];
      FirstDistinctStays(draws[..|draws| - 1], m, cap);
    } else {
      assert draws[..m] == draws;
    }
  }

  /**
   * Every set of k positions out of n, or, when there are more than cap, cap different ones
   * from the draws. The draws must contain enough different sets, as random draws do in the end.
   */
  method PositionSets(n: nat, k: nat, draws: seq<set<nat>>, cap: nat) returns (sets: seq<set<nat>>)
    requires forall d :: d in draws ==> Positions(d, n) && |d| == k
    requires Choose(n, k) > cap ==> |Elements(draws)| >= cap
    ensures ValidSets(sets, n, k) && |sets| == if Choose(n, k) <= cap then Choose(n, k) else cap
    ensures Choose(n, k) <= cap ==> forall s :: Positions(s, n) && |s| == k ==> s in sets
    ensures Choose(n, k) > cap ==> Elements(sets) <= Elements(draws)
    ensures sets == Considered(n, k, draws, cap)
  {
    CombinationsCount(n, k);
    CombinationsValid(n, k);
    if Choose(n, k) <= cap {
      forall s | Positions(s, n) && |s| == k
        ensures s in Combinations(n, k)
      {
        CombinationsComplete(n, k, s);
      }
      return Combinations(n, k);
    }
    sets := DrawDistinct(draws, cap);
    FirstDistinctFacts(draws, cap);
    assert forall i :: 0 <= i < |sets| ==> sets[i] in Elements(sets);
  }

  /** Draws until cap different sets are there. */
  method DrawDistinct(draws: seq<set<nat>>, cap: nat) returns (sets: seq<set<nat>>)
    requires |Elements(draws)| >= cap
    ensures sets == FirstDistinct(draws, cap) && |sets| == cap
  {
    sets := [];
    var next := 0;
    while |sets| < cap
      invariant next <= |draws| && |sets| <= cap && sets == FirstDistinct(draws[..next], cap)
      decreases |draws| - next
    {
      assert draws[..|draws|] == draws;
      FirstDistinctFacts(draws[..next], cap);
      DistinctSize(sets);
      assert draws[..next + 1][..next] == draws[..next];
      if draws[next] !in sets {
        sets := sets + [draws[next]];
      }
      next := next + 1;
    }
    FirstDistinctStays(draws, next, cap);
  }

  // ---- the candidates of one base and donor

  datatype Candidate = Choice(positions: set<nat>, share: real)

  datatype Picked = Picked(positions: set<nat>, labelled: seq<Labelled>, share: real)

  /** The words of the spliced answer, from the parts. */
  function SplicedWords(human: seq<Sentence>, donor: seq<Sentence>, chosen: set<nat>): int
    requires |chosen| <= |donor|
  {
    Words(donor[..|chosen|]) + Words(human) - WordsAt(human, chosen, |human|)
  }

  /** The share as the loop computes it, without building the answer. */
  function QuickShare(human: seq<Sentence>, donor: seq<Sentence>, chosen: set<nat>): real
    requires |chosen| <= |donor| && SplicedWords(human, donor, chosen) != 0
  {
    Words(donor[..|chosen|]) as real / SplicedWords(human, donor, chosen) as real
  }

  /** The shortcut agrees with the share of the finished answer, whenever it has any words. */
  lemma QuickShareIsAiShare(human: seq<Sentence>, donor: seq<Sentence>, chosen: set<nat>, l: seq<Labelled>)
    requires IsSplice(human, donor, chosen, l) && Positions(chosen, |human|) && |chosen| <= |donor|
    ensures SplicedWords(human, donor, chosen) == AllWords(l) >= 0
    ensures AllWords(l) > 0 ==> QuickShare(human, donor, chosen) == AiShare(l)
  {
    SpliceTakesDonorPrefix(human, donor, chosen, l);
  }

  /** What one band of the result promises. */
  ghost predicate GoodPick(human: seq<Sentence>, donor: seq<Sentence>, bands: seq<Band>, band: int, p: Picked) {
    && Positions(p.positions, |human|) && 1 <= |p.positions| < |human| && |p.positions| <= |donor|
    && IsSplice(human, donor, p.positions, p.labelled)
    && AllWords(p.labelled) > 0 && p.share == AiShare(p.labelled)
    && BandOf(p.share, bands) == Inside(band)
  }

  ghost predicate GoodChoice(human: seq<Sentence>, donor: seq<Sentence>, bands: seq<Band>, band: int, c: Candidate) {
    && Positions(c.positions, |human|) && 1 <= |c.positions| < |human| && |c.positions| <= |donor|
    && SplicedWords(human, donor, c.positions) != 0
    && c.share == QuickShare(human, donor, c.positions)
    && BandOf(c.share, bands) == Inside(band)
  }

  type Reached = map<int, seq<Candidate>>

  ghost predicate GoodReached(human: seq<Sentence>, donor: seq<Sentence>, bands: seq<Band>, reached: Reached) {
    forall b, i :: b in reached && 0 <= i < |reached[b]| ==> GoodChoice(human, donor, bands, b, reached[b][i])
  }

  /** Nothing is listed under a band but choices in it, and no band is listed empty. */
  ghost predicate SoundReached(human: seq<Sentence>, donor: seq<Sentence>, bands: seq<Band>, reached: Reached) {
    GoodReached(human, donor, bands, reached) && forall b :: b in reached ==> reached[b] != []
  }

  function AddChoice(reached: Reached, b: int, c: Candidate): Reached {
    reached[b := (if b in reached then reached[b] else []) + [c]]
  }

  lemma AddChoiceIsSound(human: seq<Sentence>, donor: seq<Sentence>, bands: seq<Band>, reached: Reached, b: int,
                         c: Candidate)
    requires SoundReached(human, donor, bands, reached) && GoodChoice(human, donor, bands, b, c)
    ensures SoundReached(human, donor, bands, AddChoice(reached, b, c))
  {
  }

  /** The band of one position set, if it leaves a word and falls in one, gets one more choice. */
  method Consider(human: seq<Sentence>, donor: seq<Sentence>, bands: seq<Band>, s: set<nat>, before: Reached)
    returns (reached: Reached)
    requires Positions(s, |human|) && 1 <= |s| < |human| && |s| <= |donor| && SplicedWords(human, donor, s) != 0
    requires SoundReached(human, donor, bands, before)
    ensures SoundReached(human, donor, bands, reached) && Covered(human, donor, bands, s, reached)
    ensures forall b :: b in before ==> b in reached
  {
    var share := QuickShare(human, donor, s);
    var band := BandOf(share, bands);
    reached := before;
    if band.Inside? {
      AddChoiceIsSound(human, donor, bands, before, band.id, Choice(s, share));
      reached := AddChoice(before, band.id, Choice(s, share));
    }
  }

  lemma CoveredStays(human: seq<Sentence>, donor: seq<Sentence>, bands: seq<Band>, s: set<nat>, before: Reached,
                     after: Reached)
    requires Covered(human, donor, bands, s, before) && forall b :: b in before ==> b in after
    ensures Covered(human, donor, bands, s, after)
  {
  }

  /** The position sets of one size; a set that leaves no word at all stops the build. */
  method ReachWith(human: seq<Sentence>, donor: seq<Sentence>, bands: seq<Band>, sets: seq<set<nat>>, k: nat,
                   before: Reached)
    returns (r: Result<Reached, set<nat>>)
    requires 1 <= k < |human| && k <= |donor| && ValidSets(sets, |human|, k)
    requires SoundReached(human, donor, bands, before)
    ensures r.Err? <==> exists i :: 0 <= i < |sets| && SplicedWords(human, donor, sets[i]) == 0
    ensures r.Err? ==> r.error in sets && SplicedWords(human, donor, r.error) == 0
    ensures r.Ok? ==> SoundReached(human, donor, bands, r.value)
    ensures r.Ok? ==> forall i :: 0 <= i < |sets| ==> Covered(human, donor, bands, sets[i], r.value)
    ensures r.Ok? ==> forall b :: b in before ==> b in r.value
  {
    var reached := before;
    for i := 0 to |sets|
      invariant SoundReached(human, donor, bands, reached)
      invariant forall b :: b in before ==> b in reached
      invariant forall j :: 0 <= j < i ==> Covered(human, donor, bands, sets[j], reached)
    {
      if SplicedWords(human, donor, sets[i]) == 0 {
        return Err(sets[i]);
      }
      var next := Consider(human, donor, bands, sets[i], reached);
      forall j | 0 <= j < i
        ensures Covered(human, donor, bands, sets[j], next)
      {
        CoveredStays(human, donor, bands, sets[j], reached, next);
      }
      reached := next;
    }
    r := Ok(reached);
  }

  /** Some entry of a non-empty list; callers learn only that it is one of them. */
  method Draw(options: seq<Candidate>) returns (c: Candidate)
    requires options != []
    ensures c in options
  {
    var i :| 0 <= i < |options|;
    c := options[i];
  }

  /** One finished splice for every band that was reached. */
  method PickOnePerBand(human: seq<Sentence>, donor: seq<Sentence>, bands: seq<Band>, reached: Reached)
    returns (picked: map<int, Picked>)
    requires SoundReached(human, donor, bands, reached)
    ensures forall b :: b in picked <==> b in reached
    ensures forall b :: b in picked ==> GoodPick(human, donor, bands, b, picked[b])
  {
    picked := map[];
    for i := 0 to |bands|
      invariant forall b :: b in picked ==> b in reached && GoodPick(human, donor, bands, b, picked[b])
      invariant forall j :: 0 <= j < i && bands[j].id in reached ==> bands[j].id in picked
    {
      var b := bands[i].id;
      if b in reached && b !in picked {
        var c := Draw(reached[b]);
        assert GoodChoice(human, donor, bands, b, c);
        var l := SpliceAt(human, donor, c.positions);
        QuickShareIsAiShare(human, donor, c.positions, l);
        picked := picked[b := Picked(c.positions, l, c.share)];
      }
    }
    forall b | b in reached
      ensures b in picked
    {
      assert GoodChoice(human, donor, bands, b, reached[b][0]);
      BandHoldsShare(reached[b][0].share, bands);
    }
  }

  /** Draws of every size that may be needed: valid ones, and enough different ones. */
  ghost predicate EnoughDraws(n: nat, draws: seq<seq<set<nat>>>, cap: nat) {
    && |draws| == n + 1
    && (forall k, d :: 1 <= k < n && d in draws[k] ==> Positions(d, n) && |d| == k)
    && forall k :: 1 <= k < n && Choose(n, k) > cap ==> |Elements(draws[k])| >= cap
  }

  /** A set of k positions is tried that leaves no counted word. */
  ghost predicate MeetsWordless(human: seq<Sentence>, donor: seq<Sentence>, draws: seq<seq<set<nat>>>, cap: nat,
                                k: nat) {
    && |draws| == |human| + 1 && 1 <= k < |human| && k <= |donor|
    && exists s :: s in Considered(|human|, k, draws[k], cap) && |s| == k && SplicedWords(human, donor, s) == 0
  }

  /**
   * One splice per band this base and donor can reach. Every share is the share of the
   * finished answer, and at least one human sentence stays. It fails exactly when some
   * position set that is tried leaves no counted word.
   */
  method BandCandidates(human: seq<Sentence>, donor: seq<Sentence>, bands: seq<Band>,
                        draws: seq<seq<set<nat>>>, cap: nat)
    returns (r: Result<map<int, Picked>, set<nat>>)
    requires EnoughDraws(|human|, draws, cap)
    ensures r.Err? <==> exists k :: 1 <= k < |human| && MeetsWordless(human, donor, draws, cap, k)
    ensures r.Ok? ==> forall b :: b in r.value ==> GoodPick(human, donor, bands, b, r.value[b])
    ensures r.Err? ==> Positions(r.error, |human|) && 1 <= |r.error| < |human| && |r.error| <= |donor|
                       && SplicedWords(human, donor, r.error) == 0
    ensures r.Ok? ==> forall k: nat, s ::
              Tried(human, donor, draws, cap, k, s) ==> Covered(human, donor, bands, s, r.value)
    ensures r.Ok? ==> forall s :: Exhausted(human, donor, s, cap) ==> Covered(human, donor, bands, s, r.value)
  {
    var reached: Reached := map[];
    var k := 1;
    while k < |human| && k <= |donor|
      invariant 1 <= k
      invariant SoundReached(human, donor, bands, reached)
      invariant forall j: nat, s ::
        Tried(human, donor, draws, cap, j, s) && j < k ==> Covered(human, donor, bands, s, reached)
      invariant forall j :: 1 <= j < k && j < |human| ==> !MeetsWordless(human, donor, draws, cap, j)
      decreases |human| - k
    {
      var sets := PositionSets(|human|, k, draws[k], cap);
      var next := ReachWith(human, donor, bands, sets, k, reached);
      if next.Err? {
        assert MeetsWordless(human, donor, draws, cap, k);
        return Err(next.error);
      }
      CoveredSoFar(human, donor, bands, sets, k, draws, cap, reached, next.value);
      reached := next.value;
      k := k + 1;
    }
    var picked := PickOnePerBand(human, donor, bands, reached);
    forall s | Exhausted(human, donor, s, cap) ensures Tried(human, donor, draws, cap, |s|, s) {
      CombinationsComplete(|human|, |s|, s);
    }
    r := Ok(picked);
  }

  lemma CoveredSoFar(human: seq<Sentence>, donor: seq<Sentence>, bands: seq<Band>, sets: seq<set<nat>>, k: nat,
                     draws: seq<seq<set<nat>>>, cap: nat, before: Reached, after: Reached)
    requires forall j: nat, s ::
               Tried(human, donor, draws, cap, j, s) && j < k ==> Covered(human, donor, bands, s, before)
    requires forall b :: b in before ==> b in after
    requires |draws| == |human| + 1 && k < |human| && sets == Considered(|human|, k, draws[k], cap)
    requires forall i :: 0 <= i < |sets| ==> Covered(human, donor, bands, sets[i], after)
    ensures forall j: nat, s ::
              Tried(human, donor, draws, cap, j, s) && j < k + 1 ==> Covered(human, donor, bands, s, after)
  {
    forall j: nat, s | Tried(human, donor, draws, cap, j, s) && j < k + 1
      ensures Covered(human, donor, bands, s, after)
    {
      if j < k {
        CoveredStays(human, donor, bands, s, before, after);
      } else {
        assert s in sets;
      }
    }
  }

  /** A position set that is tried, of some size that leaves a human sentence. */
  ghost predicate Tried(human: seq<Sentence>, donor: seq<Sentence>, draws: seq<seq<set<nat>>>, cap: nat, k: nat,
                        s: set<nat>) {
    && |draws| == |human| + 1 && 1 <= k < |human| && k <= |donor|
    && s in Considered(|human|, k, draws[k], cap)
  }

  /** A position set of a size that is tried out completely. */
  ghost predicate Exhausted(human: seq<Sentence>, donor: seq<Sentence>, s: set<nat>, cap: nat) {
    Positions(s, |human|) && 1 <= |s| < |human| && |s| <= |donor| && Choose(|human|, |s|) <= cap
  }

  /** The band this position set falls in, if any, has a pick. */
  ghost predicate Covered<T>(human: seq<Sentence>, donor: seq<Sentence>, bands: seq<Band>, s: set<nat>,
                             found: map<int, T>) {
    |s| <= |donor| && SplicedWords(human, donor, s) != 0
    && (BandOf(QuickShare(human, donor, s), bands).Inside? ==> BandOf(QuickShare(human, donor, s), bands).id in found)
  }

  // ---- when no word is left

  /** The sentences with at least one counted word. */
  function Worded(human: seq<Sentence>): set<nat> {
    set p: nat | p < |human| && human[p].words > 0
  }

  lemma {:induction false} WordsLeft(human: seq<Sentence>, chosen: set<nat>, n: nat)
    requires n <= |human|
    ensures WordsAt(human, chosen, n) <= Words(human[..n])
    ensures WordsAt(human, chosen, n) == Words(human[..n])
            <==> forall p: nat :: p < n && human[p].words > 0 ==> p in chosen
  {
    if n > 0 {
      WordsLeft(human, chosen, n - 1);
      assert human[..n][..n - 1] == human[..n - 1];
    }
  }

  /** A splice has no word exactly when its donor part has none and every worded sentence is replaced. */
  lemma WordlessSplice(human: seq<Sentence>, donor: seq<Sentence>, chosen: set<nat>)
    requires |chosen| <= |donor|
    ensures SplicedWords(human, donor, chosen) == 0
            <==> Words(donor[..|chosen|]) == 0 && Worded(human) <= chosen
  {
    WordsLeft(human, chosen, |human|);
    assert human[..|human|] == human;
  }

  /** The least number of sentences to replace so that no human word is left. */
  function Cover(human: seq<Sentence>): nat {
    Max(1, |Worded(human)|)
  }

  /** The human's worded sentences can all be replaced by as many donor sentences without a word. */
  predicate WordlessPair(human: seq<Sentence>, donor: seq<Sentence>) {
    Cover(human) < |human| && Cover(human) <= |donor| && Words(donor[..Cover(human)]) == 0
  }

  lemma {:induction false} FewerWords(donor: seq<Sentence>, j: nat, k: nat)
    requires j <= k <= |donor|
    ensures Words(donor[..j]) <= Words(donor[..k])
  {
    if j < k {
      FewerWords(donor, j, k - 1);
      assert donor[..k][..k - 1] == donor[..k - 1];
    }
  }

  /** Whatever is drawn, a pair that fails is a wordless one. */
  lemma FailureNeedsWordlessPair(human: seq<Sentence>, donor: seq<Sentence>, draws: seq<seq<set<nat>>>, cap: nat,
                                 k: nat)
    requires |draws| == |human| + 1 && 1 <= k < |human| && MeetsWordless(human, donor, draws, cap, k)
    ensures WordlessPair(human, donor) && Cover(human) <= k
  {
    var s :| s in Considered(|human|, k, draws[k], cap) && |s| == k && SplicedWords(human, donor, s) == 0;
    WordlessSplice(human, donor, s);
    SubsetSize(Worded(human), s);
    FewerWords(donor, Cover(human), k);
  }

  /** The worded sentences, or any one sentence when there are none: they leave no word of a wordless pair. */
  function CoverSet(human: seq<Sentence>): set<nat> {
    if Worded(human) == {} then {0} else Worded(human)
  }

  lemma CoverSetIsWordless(human: seq<Sentence>, donor: seq<Sentence>)
    requires WordlessPair(human, donor)
    ensures |CoverSet(human)| == Cover(human) && Positions(CoverSet(human), |human|)
    ensures SplicedWords(human, donor, CoverSet(human)) == 0
  {
    WordlessSplice(human, donor, CoverSet(human));
  }

  /** Where all sets of that many positions are tried, the pairs that fail are exactly the wordless ones. */
  lemma FailsExactlyOnWordlessPairs(human: seq<Sentence>, donor: seq<Sentence>, draws: seq<seq<set<nat>>>, cap: nat)
    requires EnoughDraws(|human|, draws, cap) && Choose(|human|, Cover(human)) <= cap
    ensures (exists k :: 1 <= k < |human| && MeetsWordless(human, donor, draws, cap, k)) <==> WordlessPair(human, donor)
  {
    if k :| 1 <= k < |human| && MeetsWordless(human, donor, draws, cap, k) {
      FailureNeedsWordlessPair(human, donor, draws, cap, k);
    }
    if WordlessPair(human, donor) {
      CoverSetIsWordless(human, donor);
      CombinationsComplete(|human|, Cover(human), CoverSet(human));
      assert MeetsWordless(human, donor, draws, cap, Cover(human));
    }
  }

  lemma {:induction false} FirstDrawIsKept(draws: seq<set<nat>>, cap: nat)
    requires draws != [] && cap > 0
    ensures draws[0] in FirstDistinct(draws, cap)
  {
    if |draws| > 1 {
      FirstDrawIsKept(draws[..|draws| - 1], cap);
    } else {
      assert FirstDistinct(draws[..0], cap) == [];
    }
  }

  lemma ConsideredWithinCap(n: nat, k: nat, draws: seq<set<nat>>, cap: nat)
    ensures |Considered(n, k, draws, cap)| <= cap
  {
    CombinationsCount(n, k);
    FirstDistinctFacts(draws, cap);
  }

  /** Draws that try one given set first and may be all sets after that. */
  function DrawsWith(n: nat, s: set<nat>): seq<seq<set<nat>>> {
    seq(n + 1, (k: nat) => (if k == |s| then [s] else []) + Combinations(n, k))
  }

  lemma DrawsWithAreEnough(n: nat, s: set<nat>, cap: nat)
    requires Positions(s, n)
    ensures EnoughDraws(n, DrawsWith(n, s), cap)
  {
    var draws := DrawsWith(n, s);
    forall k | 1 <= k < n
      ensures (forall d :: d in draws[k] ==> Positions(d, n) && |d| == k) && |Elements(draws[k])| >= Choose(n, k)
    {
      CombinationsValid(n, k);
      CombinationsCount(n, k);
      DistinctSize(Combinations(n, k));
      SubsetSize(Elements(Combinations(n, k)), Elements(draws[k]));
    }
  }

  /** Some draws make the computation fail. */
  ghost predicate CanFail(human: seq<Sentence>, donor: seq<Sentence>, cap: nat) {
    exists draws, k ::
      EnoughDraws(|human|, draws, cap) && 1 <= k < |human| && MeetsWordless(human, donor, draws, cap, k)
  }

  /** For every cap: some draws fail exactly on the wordless pairs, unless nothing is tried at all. */
  lemma CanFailExactlyOnWordlessPairs(human: seq<Sentence>, donor: seq<Sentence>, cap: nat)
    ensures CanFail(human, donor, cap) <==> WordlessPair(human, donor) && cap > 0
  {
    if CanFail(human, donor, cap) {
      var draws, k :|
        EnoughDraws(|human|, draws, cap) && 1 <= k < |human| && MeetsWordless(human, donor, draws, cap, k);
      FailureNeedsWordlessPair(human, donor, draws, cap, k);
      ConsideredWithinCap(|human|, k, draws[k], cap);
    }
    if WordlessPair(human, donor) && cap > 0 {
      var n, k, s := |human|, Cover(human), CoverSet(human);
      CoverSetIsWordless(human, donor);
      var draws := DrawsWith(n, s);
      DrawsWithAreEnough(n, s, cap);
      CombinationsComplete(n, k, s);
      FirstDrawIsKept(draws[k], cap);
      assert MeetsWordless(human, donor, draws, cap, k);
    }
  }

  const POSITION_CAP: nat := 200

  /** A comma and a word, spliced with a semicolon, fail under the shipped cap whatever is drawn. */
  lemma PunctuationFails(draws: seq<seq<set<nat>>>)
    requires EnoughDraws(2, draws, POSITION_CAP)
    ensures MeetsWordless([Sentence(","), Sentence("ok")], [Sentence(";")], draws, POSITION_CAP, 1)
  {
    var human, donor := [Sentence(","), Sentence("ok")], [Sentence(";")];
    assert CountWords("o") == 1 by {
      assert "o"[..0] == "";
    }
    assert "ok"[..1] == "o" && CountWords("ok") == 1;
    assert ","[..0] == "" && CountWords(",") == 0;
    assert ";"[..0] == "" && CountWords(";") == 0;
    assert Worded(human) == {1};
    assert donor[..1] == donor && donor[..0] == [] && Words(donor) == 0;
    assert Choose(2, 1) == 2;
    FailsExactlyOnWordlessPairs(human, donor, draws, POSITION_CAP);
  }

  // ---- counting words

  /** Nothing has no word, and a stretch without separators is one; a separator between two texts splits their words. */
  lemma {:induction false} WordsOfStretch(text: string)
    requires text != "" && forall k :: 0 <= k < |text| ==> !Separates(text[k])
    ensures CountWords("") == 0 && CountWords(text) == 1
  {
    assert CountWords("") == 0;
    if |text| > 1 {
      WordsOfStretch(text[..|text| - 1]);
    } else {
      assert text[..0] == "";
    }
  }

  lemma {:induction false} SeparatorsHaveNoWords(text: string)
    requires forall k :: 0 <= k < |text| ==> Separates(text[k])
    ensures CountWords(text) == 0
  {
    if text != "" {
      SeparatorsHaveNoWords(text[..|text| - 1]);
    }
  }

  /** Words add up across a separator, on whichever side it stands. */
  lemma {:induction false} WordsAddUp(a: string, b: string)
    requires a == "" || b == "" || Separates(a[|a| - 1]) || Separates(b[0])
    ensures CountWords(a + b) == CountWords(a) + CountWords(b)
  {
    if b == "" {
      assert a + b == a;
    } else {
      var front, last := b[..|b| - 1], b[|b| - 1];
      assert (a + b)[..|a + b| - 1] == a + front;
      WordsAddUp(a, front);
      if front == "" {
        assert a + front == a;
      }
    }
  }

  /** The sentences' texts, joined by spaces. */
  function Text(s: seq<Sentence>): string {
    if s == [] then "" else Text(s[..|s| - 1]) + " " + s[|s| - 1].text
  }

  /** The words of sentences are those of their joined text. */
  lemma {:induction false} WordsAreOfTheText(s: seq<Sentence>)
    ensures Words(s) == CountWords(Text(s))
  {
    if s != [] {
      var front, last := s[..|s| - 1], s[|s| - 1];
      WordsAreOfTheText(front);
      WordsAddUp(Text(front), " ");
      SeparatorsHaveNoWords(" ");
      WordsAddUp(Text(front) + " ", last.text);
    }
  }

  function Sentences(l: seq<Labelled>): seq<Sentence> {
    seq(|l|, i requires 0 <= i < |l| => l[i].sentence)
  }

  /** The share is the part of the answer's words that stand in its AI sentences; 0 without words. */
  lemma {:induction false} ShareIsOfTheText(l: seq<Labelled>)
    ensures AllWords(l) == CountWords(Text(Sentences(l))) && AiWords(l) == CountWords(Text(AiSentences(l)))
    ensures AllWords(l) == 0 ==> AiShare(l) == 0.0
    ensures AllWords(l) > 0 ==>
      AiShare(l) == CountWords(Text(AiSentences(l))) as real / CountWords(Text(Sentences(l))) as real
  {
    LabelledWords(l);
    WordsAreOfTheText(Sentences(l));
    WordsAreOfTheText(AiSentences(l));
  }

  lemma {:induction false} LabelledWords(l: seq<Labelled>)
    ensures AllWords(l) == Words(Sentences(l)) && AiWords(l) == Words(AiSentences(l))
  {
    if l != [] {
      var front := l[..|l| - 1];
      LabelledWords(front);
      assert Sentences(l)[..|l| - 1] == Sentences(front);
      if l[|l| - 1].ai {
        assert AiSentences(l)[..|AiSentences(l)| - 1] == AiSentences(front);
      } else {
        assert AiSentences(l) == AiSentences(front);
      }
    }
  }
}
