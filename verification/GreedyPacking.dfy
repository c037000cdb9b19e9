/** Placing sets of functions, largest first, into the file that is smallest so far. */
module GreedyPacking {

  /** The total weight of what is assigned to file f */
  function Load(weights: seq<nat>, assign: seq<nat>, f: nat): nat
    requires |weights| == |assign|
    decreases |weights|
  {
    if weights == [] then 0
    else
      var last := |weights| - 1;
      Load(weights[..last], assign[..last], f) + if assign[last] == f then weights[last] else 0
  }

  function Sum(weights: seq<nat>): nat
    decreases |weights|
  {
    if weights == [] then 0 else Sum(weights[..|weights| - 1]) + weights[|weights| - 1]
  }

  /** The loads of the first m files together */
  function LoadSum(weights: seq<nat>, assign: seq<nat>, m: nat): nat
    requires |weights| == |assign|
  {
    if m == 0 then 0 else LoadSum(weights, assign, m - 1) + Load(weights, assign, m - 1)
  }

  predicate IsAssignment(assign: seq<nat>, m: nat) {
    forall k :: 0 <= k < |assign| ==> assign[k] < m
  }

  lemma {:induction false} LoadSumNext(weights: seq<nat>, assign: seq<nat>, m: nat)
    requires |weights| == |assign| > 0
    ensures var last := |weights| - 1;
            LoadSum(weights, assign, m)
            == LoadSum(weights[..last], assign[..last], m) + if assign[last] < m then weights[last] else 0
  {
    if m > 0 {
      LoadSumNext(weights, assign, m - 1);
    }
  }

  lemma {:induction false} NoLoads(m: nat)
    ensures LoadSum([], [], m) == 0
  {
    if m > 0 {
      NoLoads(m - 1);
    }
  }

  /** Nothing is lost: all files together weigh what all sets weigh. */
  lemma {:induction false} LoadsCoverAll(weights: seq<nat>, assign: seq<nat>, m: nat)
    requires |weights| == |assign| && IsAssignment(assign, m)
    ensures LoadSum(weights, assign, m) == Sum(weights)
    decreases |weights|
  {
    if weights == [] {
      NoLoads(m);
    } else {
      LoadSumNext(weights, assign, m);
      LoadsCoverAll(weights[..|weights| - 1], assign[..|weights| - 1], m);
    }
  }

  lemma {:induction false} LoadsAtLeast(weights: seq<nat>, assign: seq<nat>, m: nat, low: nat)
    requires |weights| == |assign| && forall f :: 0 <= f < m ==> Load(weights, assign, f) >= low
    ensures LoadSum(weights, assign, m) >= m * low
  {
    if m > 0 {
      LoadsAtLeast(weights, assign, m - 1, low);
      assert m * low == (m - 1) * low + low;
    }
  }

  lemma {:induction false} LoadsAtMost(weights: seq<nat>, assign: seq<nat>, m: nat, high: nat)
    requires |weights| == |assign| && forall f :: 0 <= f < m ==> Load(weights, assign, f) <= high
    ensures LoadSum(weights, assign, m) <= m * high
  {
    if m > 0 {
      LoadsAtMost(weights, assign, m - 1, high);
      assert m * high == (m - 1) * high + high;
    }
  }

  // ---------- The greedy rule

  /** Every set goes to a file that is smallest at that moment. */
  predicate IsGreedy(sizes: seq<nat>, assign: seq<nat>, m: nat)
    requires |sizes| == |assign|
    decreases |sizes|
  {
    sizes == [] ||
    var last := |sizes| - 1;
    && IsGreedy(sizes[..last], assign[..last], m)
    && assign[last] < m
    && forall f :: 0 <= f < m ==>
         Load(sizes[..last], assign[..last], assign[last]) <= Load(sizes[..last], assign[..last], f)
  }

  predicate IsBound(sizes: seq<nat>, b: nat) {
    forall k :: 0 <= k < |sizes| ==> sizes[k] <= b
  }

  /** Two files never differ by more than the largest set, in whatever order the sets come. */
  lemma {:induction false} Balanced(sizes: seq<nat>, assign: seq<nat>, m: nat, largest: nat, f: nat, g: nat)
    requires |sizes| == |assign| && IsGreedy(sizes, assign, m) && IsBound(sizes, largest) && f < m && g < m
    ensures Load(sizes, assign, f) <= Load(sizes, assign, g) + largest
    decreases |sizes|
  {
    if sizes != [] {
      var last := |sizes| - 1;
      Balanced(sizes[..last], assign[..last], m, largest, f, g);
    }
  }

  lemma {:induction false} GreedyAssigns(sizes: seq<nat>, assign: seq<nat>, m: nat)
    requires |sizes| == |assign| && IsGreedy(sizes, assign, m)
    ensures IsAssignment(assign, m)
    decreases |sizes|
  {
    if sizes != [] {
      GreedyAssigns(sizes[..|sizes| - 1], assign[..|sizes| - 1], m);
    }
  }

  /** No file exceeds the average by more than the largest set, less its share. */
  lemma CloseToAverage(sizes: seq<nat>, assign: seq<nat>, m: nat, largest: nat, f: nat)
    requires |sizes| == |assign| && IsGreedy(sizes, assign, m) && IsBound(sizes, largest) && f < m
    ensures m * Load(sizes, assign, f) <= Sum(sizes) + (m - 1) * largest
  {
    GreedyAssigns(sizes, assign, m);
    LoadsCoverAll(sizes, assign, m);
    forall g | 0 <= g < m
      ensures Load(sizes, assign, f) <= Load(sizes, assign, g) + largest
    {
      Balanced(sizes, assign, m, largest, f, g);
    }
    OthersAreClose(sizes, assign, m, largest, f);
  }

  lemma {:induction false} OthersAreClose(sizes: seq<nat>, assign: seq<nat>, m: nat, largest: nat, f: nat)
    requires |sizes| == |assign|
    requires forall g :: 0 <= g < m ==> Load(sizes, assign, f) <= Load(sizes, assign, g) + largest
    ensures m * Load(sizes, assign, f) <= LoadSum(sizes, assign, m) + (if f < m then m - 1 else m) * largest
  {
    if m > 0 {
      OthersAreClose(sizes, assign, m - 1, largest, f);
      var load := Load(sizes, assign, f);
      assert m * load == (m - 1) * load + load;
      if f < m - 1 {
        assert (m - 1) * largest == (m - 2) * largest + largest;
      } else if f >= m {
        assert m * largest == (m - 1) * largest + largest;
      }
    }
  }

  // ---------- Largest first: at most a third above the optimum

  predicate Descending(sizes: seq<nat>) {
    forall i, j :: 0 <= i < j < |sizes| ==> sizes[i] >= sizes[j]
  }

  /** Weights that count sets: a set that could fill a file up to `level` counts twice. */
  function Weigh(sizes: seq<nat>, level: nat): (w: seq<nat>)
    ensures |w| == |sizes|
  {
    seq(|sizes|, k requires 0 <= k < |sizes| => if sizes[k] >= level then 2 else 1)
  }

  /** A file filled up to the level holds one large set, or two sets. */
  lemma {:induction false} FilledFile(sizes: seq<nat>, assign: seq<nat>, f: nat, level: nat)
    requires |sizes| == |assign| && level > 0
    ensures var w := Load(Weigh(sizes, level), assign, f);
            && (w == 0 ==> Load(sizes, assign, f) == 0)
            && (w == 1 ==> Load(sizes, assign, f) < level)
    decreases |sizes|
  {
    if sizes != [] {
      var last := |sizes| - 1;
      FilledFile(sizes[..last], assign[..last], f, level);
      assert Weigh(sizes, level)[..last] == Weigh(sizes[..last], level);
    }
  }

  /** The least size of sets that weigh w, if each has at least size p, and the large ones at least size q >= p */
  function LeastSize(w: nat, p: nat, q: nat): nat {
    match w
    case 0 => 0
    case 1 => p
    case 2 => if 2 * p < q then 2 * p else q
    case _ => if 2 * p < q then 3 * p else q + p
  }

  lemma {:induction false} WeightTakesRoom(sizes: seq<nat>, assign: seq<nat>, f: nat, level: nat, p: nat, q: nat)
    requires |sizes| == |assign| && p <= q && (q == level || q == p >= level)
    requires forall k :: 0 <= k < |sizes| ==> sizes[k] >= p
    ensures Load(sizes, assign, f) >= LeastSize(Load(Weigh(sizes, level), assign, f), p, q)
    decreases |sizes|
  {
    if sizes != [] {
      var last := |sizes| - 1;
      WeightTakesRoom(sizes[..last], assign[..last], f, level, p, q);
      assert Weigh(sizes, level)[..last] == Weigh(sizes[..last], level);
    }
  }

  /** If all sets are larger than a third of t and files filled up to `level` have no room for the last set below t,
      then no assignment at all stays below t: weights count one set too many. */
  lemma LargeSetsFit(before: seq<nat>, p: nat, assign: seq<nat>, other: seq<nat>, m: nat, t: nat, level: nat)
    requires |before| == |assign| && |other| == |before| + 1 && Descending(before + [p])
    requires IsAssignment(assign, m) && IsAssignment(other, m)
    requires forall f :: 0 <= f < m ==> Load(before + [p], other, f) <= t
    requires forall f :: 0 <= f < m ==> Load(before, assign, f) >= level
    requires 3 * p > t >= p
    ensures level + p <= t
  {
    if level + p > t {
      var sizes := before + [p];
      var w, w' := Weigh(sizes, level), Weigh(before, level);
      assert w == w' + [w[|before|]] && w[..|before|] == w';
      forall f | 0 <= f < m
        ensures Load(w', assign, f) >= 2
      {
        FilledFile(before, assign, f, level);
      }
      LoadsAtLeast(w', assign, m, 2);
      LoadsCoverAll(w', assign, m);
      forall f | 0 <= f < m
        ensures Load(w, other, f) <= 2
      {
        assert forall k :: 0 <= k < |before| ==> sizes[k] >= sizes[|before|];
        WeightTakesRoom(sizes, other, f, level, p, if level > p then level else p);
      }
      LoadsAtMost(w, other, m, 2);
      LoadsCoverAll(w, other, m);
    }
  }

  lemma {:induction false} PrefixLoads(sizes: seq<nat>, assign: seq<nat>, k: nat, f: nat)
    requires |sizes| == |assign| && k <= |sizes|
    ensures Load(sizes[..k], assign[..k], f) <= Load(sizes, assign, f)
    decreases |sizes|
  {
    if k == |sizes| {
      assert sizes[..k] == sizes && assign[..k] == assign;
    } else {
      var last := |sizes| - 1;
      PrefixLoads(sizes[..last], assign[..last], k, f);
      assert sizes[..last][..k] == sizes[..k] && assign[..last][..k] == assign[..k];
    }
  }

  lemma {:induction false} SetFits(sizes: seq<nat>, assign: seq<nat>, k: nat)
    requires |sizes| == |assign| && k < |sizes|
    ensures sizes[k] <= Load(sizes, assign, assign[k])
    decreases |sizes|
  {
    var last := |sizes| - 1;
    if k < last {
      SetFits(sizes[..last], assign[..last], k);
    }
  }

  /** load <= (4/3 - 1/(3m)) t */
  predicate FourThirdsOf(load: nat, m: nat, t: nat) {
    3 * (m * load) + t <= 4 * (m * t)
  }

  lemma Times(m: nat, x: int, y: int)
    ensures m * (x + y) == m * x + m * y
    ensures x <= y ==> m * x <= m * y
  {
  }

  /** A small last set, when the files so far have load at least `level` and all of it fits below t */
  lemma SmallSetFits(m: nat, level: nat, p: nat, t: nat, total: nat)
    requires m > 0 && m * level <= total && total + p <= m * t && 3 * p <= t
    ensures FourThirdsOf(level + p, m, t)
  {
    Times(m, level, p);
    OneLess(m, p);
    OneLess(m, t);
    ThreeTimes(m - 1, p, t);
    AddThirds(m * level, m * p, m * t, (m - 1) * p, (m - 1) * t, p, t, total);
  }

  lemma OneLess(m: nat, x: nat)
    requires m > 0
    ensures m * x == (m - 1) * x + x
  {
  }

  lemma ThreeTimes(m: nat, x: nat, y: nat)
    requires 3 * x <= y
    ensures 3 * (m * x) <= m * y
  {
    Times(m, 3 * x, y);
    assert m * (3 * x) == 3 * (m * x);
  }

  /** The products of SmallSetFits, by name */
  lemma AddThirds(levels: nat, ps: nat, ts: nat, otherPs: nat, otherTs: nat, p: nat, t: nat, total: nat)
    requires levels <= total && total + p <= ts
    requires ps == otherPs + p && ts == otherTs + t && 3 * otherPs <= otherTs
    ensures 3 * (levels + ps) + t <= 4 * ts
  {
  }

  lemma BelowFits(m: nat, x: nat, t: nat)
    requires m > 0 && x <= t
    ensures FourThirdsOf(x, m, t)
  {
    Times(m, x, t);
    AtLeastOnce(m, t);
  }

  lemma AtLeastOnce(m: nat, t: nat)
    requires m > 0
    ensures t <= m * t
  {
    Times(t, 1, m);
  }

  /** The file that has just received its last set */
  lemma LastSetFits(before: seq<nat>, p: nat, placed: seq<nat>, other: seq<nat>, m: nat, t: nat, f: nat)
    requires |before| == |placed| && |other| == |before| + 1 && m > 0 && f < m
    requires Descending(before + [p]) && IsAssignment(placed, m) && IsAssignment(other, m) && p <= t
    requires forall g :: 0 <= g < m ==> Load(before + [p], other, g) <= t
    requires forall g :: 0 <= g < m ==> Load(before, placed, f) <= Load(before, placed, g)
    ensures FourThirdsOf(Load(before, placed, f) + p, m, t)
  {
    hide Load, FourThirdsOf;
    var level := Load(before, placed, f);
    if 3 * p > t {
      LargeSetsFit(before, p, placed, other, m, t, level);
      BelowFits(m, level + p, t);
    } else {
      LoadsAtLeast(before, placed, m, level);
      LoadsCoverAll(before, placed, m);
      LoadsAtMost(before + [p], other, m, t);
      LoadsCoverAll(before + [p], other, m);
      assert (before + [p])[..|before|] == before;
      SmallSetFits(m, level, p, t, Sum(before));
    }
  }

  lemma NoLoad(f: nat)
    ensures Load([], [], f) == 0
  {
  }

  lemma LastPlaced(sizes: seq<nat>, assign: seq<nat>, m: nat, f: nat)
    requires |sizes| == |assign| > 0 && IsGreedy(sizes, assign, m)
    ensures var last := |sizes| - 1;
            && IsGreedy(sizes[..last], assign[..last], m)
            && Load(sizes, assign, f)
               == Load(sizes[..last], assign[..last], f) + (if assign[last] == f then sizes[last] else 0)
            && (assign[last] == f ==> forall g :: 0 <= g < m ==>
                  Load(sizes[..last], assign[..last], f) <= Load(sizes[..last], assign[..last], g))
  {
  }

  /** Against any assignment whose files stay below t, no file of the greedy one exceeds (4/3 - 1/(3m)) t. */
  lemma {:induction false} FourThirds(sizes: seq<nat>, assign: seq<nat>, other: seq<nat>, m: nat, t: nat, f: nat)
    requires |sizes| == |assign| == |other| && m > 0 && f < m
    requires Descending(sizes) && IsGreedy(sizes, assign, m) && IsAssignment(other, m)
    requires forall g :: 0 <= g < m ==> Load(sizes, other, g) <= t
    ensures FourThirdsOf(Load(sizes, assign, f), m, t)
    decreases |sizes|
  {
    hide FourThirdsOf, Load, IsGreedy;
    if sizes == [] {
      NoLoad(f);
      BelowFits(m, 0, t);
    } else {
      var last := |sizes| - 1;
      var before, placed := sizes[..last], assign[..last];
      LastPlaced(sizes, assign, m, f);
      if assign[last] != f {
        forall g | 0 <= g < m
          ensures Load(before, other[..last], g) <= t
        {
          PrefixLoads(sizes, other, last, g);
        }
        FourThirds(before, placed, other[..last], m, t, f);
      } else {
        GreedyAssigns(before, placed, m);
        SetFits(sizes, other, last);
        assert before + [sizes[last]] == sizes;
        LastSetFits(before, sizes[last], placed, other, m, t, f);
      }
    }
  }
}
