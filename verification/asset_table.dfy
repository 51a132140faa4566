/**
 * The trader's asset table (`AssetTable`): per-asset counts of the trader's
 * own outstanding bids ("requested") and asks ("offered"), kept up to date
 * from the order book's splice records, and the small display helpers of
 * the table.
 */
module AssetTable {
  import opened Wrappers
  import opened Dicts
  import opened Orders
  import opened Assets

  // ---------------------------------------------------------------------
  // Counting the trader's own orders
  // ---------------------------------------------------------------------

  /** The number of orders in `orders` owned by `pcode` on `asset`. */
  function CountOwned(orders: seq<Order>, pcode: string, asset: string): nat {
    if |orders| == 0 then 0
    else (if OwnedBy(orders[0], pcode) && orders[0].assetName == asset then 1 else 0)
         + CountOwned(orders[1..], pcode, asset)
  }

  lemma {:induction false} CountOwnedAppend(xs: seq<Order>, ys: seq<Order>, pcode: string, asset: string)
    ensures CountOwned(xs + ys, pcode, asset) == CountOwned(xs, pcode, asset) + CountOwned(ys, pcode, asset)
    decreases |xs|
  {
    if |xs| == 0 {
      assert xs + ys == ys;
    } else {
      assert (xs + ys)[1..] == xs[1..] + ys;
      CountOwnedAppend(xs[1..], ys, pcode, asset);
    }
  }

  /** Every order of this trader is on one of the listed assets. */
  predicate OwnedAssetsListed(orders: seq<Order>, pcode: string, names: set<string>) {
    forall i :: 0 <= i < |orders| && OwnedBy(orders[i], pcode) ==> orders[i].assetName in names
  }

  /** The counters a full recount gives: one entry per asset name, counting the trader's own orders. */
  function Tally(names: set<string>, orders: seq<Order>, pcode: string): map<string, int> {
    map a | a in names :: CountOwned(orders, pcode, a)
  }

  function NameSet(names: seq<string>): set<string> {
    set n | n in names
  }

  /**
   * `_computeRequestedAssets` over the bids and `_computeOfferedAssets` over
   * the asks (the two are the same loop): every asset name starts at 0 and
   * each order of this trader adds one to its asset's counter.
   */
  method ComputeCounts(assetNames: Option<seq<string>>, orders: Option<seq<Order>>, pcode: string)
    returns (counts: map<string, int>)
    requires assetNames.Some? && orders.Some? ==>
      OwnedAssetsListed(orders.value, pcode, NameSet(assetNames.value))
    ensures assetNames.None? ==> counts == map[]
    ensures assetNames.Some? ==> counts.Keys == NameSet(assetNames.value)
    ensures assetNames.Some? && orders.None? ==> forall a :: a in counts ==> counts[a] == 0
    ensures assetNames.Some? && orders.Some? ==>
      forall a :: a in counts ==> counts[a] == CountOwned(orders.value, pcode, a)
  {
    if assetNames.None? {
      return map[];
    }
    counts := map n | n in assetNames.value :: 0;
    if orders.None? {
      return;
    }
    var book := orders.value;
    var i := 0;
    while i < |book|
      invariant 0 <= i <= |book|
      invariant counts.Keys == NameSet(assetNames.value)
      invariant forall a :: a in counts ==> counts[a] == CountOwned(book[..i], pcode, a)
    {
      var order := book[i];
      assert book[..i + 1] == book[..i] + [order];
      assert [order][1..] == [];
      forall a | a in counts {
        CountOwnedAppend(book[..i], [order], pcode, a);
      }
      if order.pcode == pcode {
        counts := AddAt(counts, order.assetName, 1);
      }
      i := i + 1;
    }
    assert book[..i] == book;
  }

  // ---------------------------------------------------------------------
  // Incremental update from splice records
  // ---------------------------------------------------------------------

  /**
   * One index splice of an observed array: at `index`, the orders `removed`
   * were taken out and `addedCount` orders were put in; the added orders are
   * read from `current` (`splice.object`), the array after the change.
   */
  datatype Splice = Splice(index: int, removed: seq<Order>, addedCount: int, current: seq<Order>)

  predicate AddedInRange(s: Splice) {
    0 <= s.index && 0 <= s.addedCount && s.index + s.addedCount <= |s.current|
  }

  /** `source[index .. index + addedCount)`: the orders the splice inserted. */
  function Added(s: Splice): seq<Order>
    requires AddedInRange(s)
  {
    s.current[s.index..s.index + s.addedCount]
  }

  /** `after` is `before` with the run `removed` at `index` replaced by the added orders. */
  predicate SpliceStep(before: seq<Order>, s: Splice, after: seq<Order>) {
    && AddedInRange(s)
    && s.index + |s.removed| <= |before|
    && before[s.index..s.index + |s.removed|] == s.removed
    && after == before[..s.index] + Added(s) + before[s.index + |s.removed|..]
  }

  /** The loop over `splice.removed`: one less for each order of this trader. */
  function RemoveOrders(counts: map<string, int>, removed: seq<Order>, pcode: string): (r: map<string, int>)
    requires OwnedAssetsListed(removed, pcode, counts.Keys)
    ensures r.Keys == counts.Keys
    ensures forall a :: a in counts ==> r[a] == counts[a] - CountOwned(removed, pcode, a)
    decreases |removed|
  {
    if |removed| == 0 then counts
    else
      var o := removed[0];
      var next := if o.pcode == pcode then AddAt(counts, o.assetName, -1) else counts;
      RemoveOrders(next, removed[1..], pcode)
  }

  /** The loop over `splice.object[lo .. hi)`: one more for each order of this trader. */
  function AddOrders(counts: map<string, int>, source: seq<Order>, lo: int, hi: int, pcode: string)
    : (r: map<string, int>)
    requires 0 <= lo <= hi <= |source|
    requires OwnedAssetsListed(source[lo..hi], pcode, counts.Keys)
    ensures r.Keys == counts.Keys
    ensures forall a :: a in counts ==> r[a] == counts[a] + CountOwned(source[lo..hi], pcode, a)
    decreases hi - lo
  {
    if lo == hi then counts
    else
      var o := source[lo];
      assert source[lo..hi][0] == o;
      assert source[lo..hi][1..] == source[lo + 1..hi];
      var next := if o.pcode == pcode then AddAt(counts, o.assetName, 1) else counts;
      AddOrders(next, source, lo + 1, hi, pcode)
  }

  /** The orders of one splice refer only to counted assets. */
  predicate SpliceApplicable(s: Splice, pcode: string, names: set<string>) {
    && AddedInRange(s)
    && OwnedAssetsListed(s.removed, pcode, names)
    && OwnedAssetsListed(Added(s), pcode, names)
  }

  /** The body of `_observeBids` / `_observeAsks` for one splice. */
  function ApplySplice(counts: map<string, int>, s: Splice, pcode: string): (r: map<string, int>)
    requires SpliceApplicable(s, pcode, counts.Keys)
    ensures r.Keys == counts.Keys
    ensures forall a :: a in counts ==>
      r[a] == counts[a] - CountOwned(s.removed, pcode, a) + CountOwned(Added(s), pcode, a)
  {
    AddOrders(RemoveOrders(counts, s.removed, pcode), s.current, s.index, s.index + s.addedCount, pcode)
  }

  predicate SplicesApplicable(splices: seq<Splice>, pcode: string, names: set<string>) {
    forall i :: 0 <= i < |splices| ==> SpliceApplicable(splices[i], pcode, names)
  }

  /**
   * `_observeBids` / `_observeAsks`: apply the splices of one change record
   * in order; no change record leaves the counters alone.
   */
  function ObserveSplices(counts: map<string, int>, changes: Option<seq<Splice>>, pcode: string)
    : (r: map<string, int>)
    requires changes.Some? ==> SplicesApplicable(changes.value, pcode, counts.Keys)
    ensures r.Keys == counts.Keys
    ensures changes.None? ==> r == counts
    ensures changes.Some? && |changes.value| == 0 ==> r == counts
    decreases if changes.Some? then |changes.value| else 0
  {
    if changes.None? || |changes.value| == 0 then counts
    else
      var splices := changes.value;
      var next := ApplySplice(counts, splices[0], pcode);
      assert SplicesApplicable(splices[1..], pcode, next.Keys) by {
        forall i | 0 <= i < |splices[1..]|
          ensures SpliceApplicable(splices[1..][i], pcode, next.Keys)
        {
          assert splices[1..][i] == splices[i + 1];
        }
      }
      ObserveSplices(next, Some(splices[1..]), pcode)
  }

  /** A slice of a listed array is listed. */
  lemma SliceListed(orders: seq<Order>, lo: int, hi: int, pcode: string, names: set<string>)
    requires 0 <= lo <= hi <= |orders|
    requires OwnedAssetsListed(orders, pcode, names)
    ensures OwnedAssetsListed(orders[lo..hi], pcode, names)
  {
  }

  /** A splice between two listed arrays only mentions listed assets. */
  lemma StepApplicable(before: seq<Order>, s: Splice, after: seq<Order>, pcode: string, names: set<string>)
    requires SpliceStep(before, s, after)
    requires OwnedAssetsListed(before, pcode, names) && OwnedAssetsListed(after, pcode, names)
    ensures SpliceApplicable(s, pcode, names)
  {
    var i, j := s.index, s.index + |s.removed|;
    SliceListed(before, i, j, pcode, names);
    var prefix := before[..i];
    assert after[i..i + s.addedCount] == Added(s) by {
      assert after == prefix + Added(s) + before[j..];
      assert |prefix| == i;
    }
    SliceListed(after, i, i + s.addedCount, pcode, names);
  }

  /**
   * The central fact of the incremental update: counters that equal the
   * recount of the array before a splice equal the recount of the array
   * after it once the splice is applied.
   */
  lemma SpliceKeepsTally(names: set<string>, before: seq<Order>, s: Splice, after: seq<Order>, pcode: string)
    requires SpliceStep(before, s, after)
    requires OwnedAssetsListed(before, pcode, names) && OwnedAssetsListed(after, pcode, names)
    ensures SpliceApplicable(s, pcode, names)
    ensures ApplySplice(Tally(names, before, pcode), s, pcode) == Tally(names, after, pcode)
  {
    StepApplicable(before, s, after, pcode, names);
    var i, j := s.index, s.index + |s.removed|;
    var prefix, suffix := before[..i], before[j..];
    assert before == prefix + s.removed + suffix;
    var r := ApplySplice(Tally(names, before, pcode), s, pcode);
    forall a | a in names
      ensures r[a] == CountOwned(after, pcode, a)
    {
      CountOwnedAppend(prefix + s.removed, suffix, pcode, a);
      CountOwnedAppend(prefix, s.removed, pcode, a);
      CountOwnedAppend(prefix + Added(s), suffix, pcode, a);
      CountOwnedAppend(prefix, Added(s), pcode, a);
    }
  }

  /** The arrays `arrays[k]` and `arrays[k + 1]` are related by `splices[k]`, all on listed assets. */
  predicate SpliceHistory(arrays: seq<seq<Order>>, splices: seq<Splice>, pcode: string, names: set<string>) {
    && |arrays| == |splices| + 1
    && (forall k :: 0 <= k < |splices| ==> SpliceStep(arrays[k], splices[k], arrays[k + 1]))
    && (forall k :: 0 <= k < |arrays| ==> OwnedAssetsListed(arrays[k], pcode, names))
  }

  /**
   * Applying a change record's splices in order keeps the counters equal to
   * the recount of the array after every prefix of the record.
   */
  lemma {:induction false} ObserveKeepsTally(names: set<string>, arrays: seq<seq<Order>>, splices: seq<Splice>,
                                             pcode: string, k: nat)
    requires SpliceHistory(arrays, splices, pcode, names)
    requires k <= |splices|
    ensures SplicesApplicable(splices[..k], pcode, names)
    ensures ObserveSplices(Tally(names, arrays[0], pcode), Some(splices[..k]), pcode) == Tally(names, arrays[k], pcode)
    decreases k
  {
    forall i | 0 <= i < k
      ensures SpliceApplicable(splices[..k][i], pcode, names)
    {
      StepApplicable(arrays[i], splices[i], arrays[i + 1], pcode, names);
    }
    if k > 0 {
      ObserveKeepsTally(names, arrays, splices, pcode, k - 1);
      var start := Tally(names, arrays[0], pcode);
      var mid := ObserveSplices(start, Some(splices[..k - 1]), pcode);
      SpliceKeepsTally(names, arrays[k - 1], splices[k - 1], arrays[k], pcode);
      ObserveSnoc(start, splices[..k - 1], splices[k - 1], pcode);
      assert splices[..k - 1] + [splices[k - 1]] == splices[..k];
    }
  }

  /** Observing one more splice applies it to the counters reached so far. */
  lemma {:induction false} ObserveSnoc(counts: map<string, int>, splices: seq<Splice>, last: Splice, pcode: string)
    requires SplicesApplicable(splices, pcode, counts.Keys)
    requires SpliceApplicable(last, pcode, counts.Keys)
    ensures SplicesApplicable(splices + [last], pcode, counts.Keys)
    ensures ObserveSplices(counts, Some(splices + [last]), pcode)
         == ApplySplice(ObserveSplices(counts, Some(splices), pcode), last, pcode)
    decreases |splices|
  {
    assert forall i :: 0 <= i < |splices| ==> (splices + [last])[i] == splices[i];
    assert (splices + [last])[|splices|] == last;
    if |splices| > 0 {
      var next := ApplySplice(counts, splices[0], pcode);
      assert (splices + [last])[1..] == splices[1..] + [last];
      assert forall i :: 0 <= i < |splices[1..] + [last]| ==> (splices[1..] + [last])[i] == (splices + [last])[i + 1];
      ObserveSnoc(next, splices[1..], last, pcode);
    }
  }

  /** Under the recount invariant no counter is ever negative. */
  lemma ObserveKeepsCountsNonNegative(names: set<string>, arrays: seq<seq<Order>>, splices: seq<Splice>,
                                      pcode: string, k: nat)
    requires SpliceHistory(arrays, splices, pcode, names)
    requires k <= |splices|
    ensures SplicesApplicable(splices[..k], pcode, names)
    ensures var r := ObserveSplices(Tally(names, arrays[0], pcode), Some(splices[..k]), pcode);
      forall a :: a in r ==> r[a] >= 0
  {
    ObserveKeepsTally(names, arrays, splices, pcode, k);
  }

  /** Orders of other traders count for nothing. */
  lemma {:induction false} ForeignOrdersCountNothing(orders: seq<Order>, pcode: string, asset: string)
    requires forall i :: 0 <= i < |orders| ==> !OwnedBy(orders[i], pcode)
    ensures CountOwned(orders, pcode, asset) == 0
    decreases |orders|
  {
    if |orders| > 0 {
      ForeignOrdersCountNothing(orders[1..], pcode, asset);
    }
  }

  /** A splice that moves only other traders' orders changes no counter. */
  lemma ForeignSpliceChangesNothing(counts: map<string, int>, s: Splice, pcode: string)
    requires AddedInRange(s)
    requires forall i :: 0 <= i < |s.removed| ==> !OwnedBy(s.removed[i], pcode)
    requires forall i :: 0 <= i < |Added(s)| ==> !OwnedBy(Added(s)[i], pcode)
    ensures SpliceApplicable(s, pcode, counts.Keys)
    ensures ApplySplice(counts, s, pcode) == counts
  {
    var r := ApplySplice(counts, s, pcode);
    forall a | a in counts
      ensures r[a] == counts[a]
    {
      ForeignOrdersCountNothing(s.removed, pcode, a);
      ForeignOrdersCountNothing(Added(s), pcode, a);
    }
  }

  // ---------------------------------------------------------------------
  // Probabilities as reduced fractions
  // ---------------------------------------------------------------------

  /** `d` is a positive divisor of `n`. */
  predicate Divides(d: int, n: int) {
    d > 0 && n % d == 0
  }

  lemma MulAtLeast(d: int, j: int)
    requires d > 0 && j > 0
    ensures d * j >= d
  {
  }

  lemma MulAtMost(d: int, j: int)
    requires d > 0 && j < 0
    ensures d * j <= -d
  {
  }

  /** Euclidean division leaves `m` from `d * k + m`. */
  lemma ModOfMultiplePlus(d: int, k: int, m: int)
    requires d > 0 && 0 <= m < d
    ensures (d * k + m) % d == m
  {
    var n := d * k + m;
    var q, r := n / d, n % d;
    assert d * (k - q) == r - m;
    if k - q > 0 {
      MulAtLeast(d, k - q);
    } else if k - q < 0 {
      MulAtMost(d, k - q);
    }
  }

  lemma DividesMultiple(d: int, k: int)
    requires d > 0
    ensures Divides(d, d * k)
  {
    ModOfMultiplePlus(d, k, 0);
  }

  /** A positive multiple of `d` is at least `d`. */
  lemma DivisorAtMost(d: int, n: int)
    requires Divides(d, n) && n > 0
    ensures d <= n
  {
  }

  /** Taking `x` modulo `y` keeps the common divisors of `x` and `y`. */
  lemma CommonDivisorsOfRemainder(x: int, y: int, d: int)
    requires x > 0 && y > 0 && d > 0
    requires Divides(d, y)
    ensures Divides(d, x) <==> Divides(d, x % y)
  {
    var q, r := x / y, x % y;
    var k := y / d;
    assert y == d * k;
    var j := k * q;
    assert x == d * j + r by {
      assert x == y * q + r;
      assert y * q == d * k * q;
    }
    var m := r % d;
    var p := r / d;
    assert r == d * p + m;
    assert x == d * (j + p) + m;
    ModOfMultiplePlus(d, j + p, m);
  }

  /**
   * `gcd`: Euclid's algorithm as the table runs it, for positive arguments.
   * The result divides both and every common divisor divides it.
   */
  method Gcd(a: int, b: int) returns (g: int)
    requires a > 0 && b > 0
    ensures Divides(g, a) && Divides(g, b)
    ensures forall d :: Divides(d, a) && Divides(d, b) ==> Divides(d, g) && d <= g
  {
    var x, y := a, b;
    while x % y > 0
      invariant x > 0 && y > 0
      invariant forall d :: Divides(d, x) && Divides(d, y) <==> Divides(d, a) && Divides(d, b)
      decreases y
    {
      var tmp := x % y;
      forall d | Divides(d, y) {
        CommonDivisorsOfRemainder(x, y, d);
      }
      forall d | Divides(d, tmp) && d > 0
        ensures Divides(d, y) ==> Divides(d, x)
      {
        if Divides(d, y) {
          CommonDivisorsOfRemainder(x, y, d);
        }
      }
      x := y;
      y := tmp;
    }
    g := y;
    assert Divides(g, x) && Divides(g, y);
    forall d | Divides(d, a) && Divides(d, b)
      ensures Divides(d, g) && d <= g
    {
      DivisorAtMost(d, g);
    }
  }

  /** `n / d` in lowest terms. */
  ghost predicate Coprime(n: int, d: int) {
    forall c :: Divides(c, n) && Divides(c, d) ==> c == 1
  }

  /** What `_getProbability` shows for one state. */
  datatype ProbabilityLabel =
    | Blank                      // no probabilities known yet: ''
    | ZeroLabel                  // '0'
    | OneLabel                   // '1'
    | Ratio(num: int, den: int)  // 'num/den'

  /** The sum of all probability weights. */
  function TotalWeight(probs: Entries<int>): int {
    if |probs| == 0 then 0 else probs[0].1 + TotalWeight(probs[1..])
  }

  predicate NonNegativeWeights(probs: Entries<int>) {
    forall i :: 0 <= i < |probs| ==> probs[i].1 >= 0
  }

  lemma {:induction false} WeightAtMostTotal(probs: Entries<int>, state: string)
    requires NonNegativeWeights(probs) && state in Keys(probs)
    ensures 0 <= Lookup(probs, state) <= TotalWeight(probs)
    decreases |probs|
  {
    assert Keys(probs) == {probs[0].0} + Keys(probs[1..]);
    if probs[0].0 != state {
      WeightAtMostTotal(probs[1..], state);
    }
    TotalNonNegative(probs[1..]);
  }

  lemma {:induction false} TotalNonNegative(probs: Entries<int>)
    requires NonNegativeWeights(probs)
    ensures TotalWeight(probs) >= 0
    decreases |probs|
  {
    if |probs| > 0 {
      TotalNonNegative(probs[1..]);
    }
  }

  /** Dividing both sides of `w / t` by their gcd `g` leaves a fraction in lowest terms. */
  lemma ReducedFraction(w: int, t: int, g: int)
    requires 0 < w < t
    requires Divides(g, w) && Divides(g, t)
    requires forall d :: Divides(d, w) && Divides(d, t) ==> Divides(d, g) && d <= g
    ensures 0 < w / g < t / g
    ensures (w / g) * t == w * (t / g)
    ensures Coprime(w / g, t / g)
  {
    var n, m := w / g, t / g;
    assert w == g * n && t == g * m;
    if n >= m {
      assert g * n - g * m == g * (n - m);
      if n > m {
        MulAtLeast(g, n - m);
      }
    }
    assert n * t == n * g * m == w * m;
    ReducedCoprime(w, t, g);
  }

  /** The two quotients by the greatest common divisor share no divisor but 1. */
  lemma ReducedCoprime(w: int, t: int, g: int)
    requires w > 0 && t > 0
    requires Divides(g, w) && Divides(g, t)
    requires forall d :: Divides(d, w) && Divides(d, t) ==> Divides(d, g) && d <= g
    ensures Coprime(w / g, t / g)
  {
    var n, m := w / g, t / g;
    assert w == g * n && t == g * m;
    forall c | Divides(c, n) && Divides(c, m)
      ensures c == 1
    {
      var cn, cm := n / c, m / c;
      assert n == c * cn && m == c * cm;
      assert w == (c * g) * cn;
      assert t == (c * g) * cm;
      DividesMultiple(c * g, cn);
      DividesMultiple(c * g, cm);
      DivisorAtMost(c * g, g);
      assert c * g <= 1 * g;
    }
  }

  /**
   * `_getProbability`: '0' for weight 0, '1' when the state carries all the
   * weight, and otherwise weight/total reduced by their gcd.
   */
  method GetProbability(state: string, stateProbabilities: Option<Entries<int>>)
    returns (text: ProbabilityLabel)
    requires stateProbabilities.Some? ==>
      NonNegativeWeights(stateProbabilities.value) && state in Keys(stateProbabilities.value)
    ensures stateProbabilities.None? <==> text == Blank
    ensures stateProbabilities.Some? ==>
      var w := Lookup(stateProbabilities.value, state);
      var t := TotalWeight(stateProbabilities.value);
      && (text == ZeroLabel <==> w == 0)
      && (text == OneLabel <==> w != 0 && w == t)
      && (text.Ratio? <==> w != 0 && w != t)
      && (text.Ratio? ==>
            && 0 < text.num < text.den
            && text.num * t == w * text.den
            && Coprime(text.num, text.den))
  {
    if stateProbabilities.None? {
      return Blank;
    }
    var probs := stateProbabilities.value;
    var num := Lookup(probs, state);
    if num == 0 {
      return ZeroLabel;
    }
    var denom := TotalWeight(probs);
    if num == denom {
      return OneLabel;
    }
    WeightAtMostTotal(probs, state);
    var divisor := Gcd(num, denom);
    ReducedFraction(num, denom, divisor);
    text := Ratio(num / divisor, denom / divisor);
  }

  // ---------------------------------------------------------------------
  // Payoffs and table cells
  // ---------------------------------------------------------------------

  /**
   * `_getPayoff`: the value of one unit of the asset in `state`; nothing
   * (`undefined`) before the asset structure is known.
   */
  function GetPayoff(assetName: string, state: string, structure: Option<Structure>): (r: Option<int>)
    requires structure.Some? ==> Valuable(structure.value, assetName, state)
    ensures r.Some? <==> structure.Some?
    ensures structure.Some? && !Lookup(structure.value, assetName).isEtf ==>
      r.value == Lookup(structure.value, assetName).payoffs[state]
    ensures structure.Some? && Lookup(structure.value, assetName).isEtf ==>
      r.value == ComponentSum(structure.value, Lookup(structure.value, assetName).etfWeights, state)
  {
    if structure.None? then None
    else Some(AssetValue(structure.value, assetName, state))
  }

  /** A requested/offered cell: the count, or '-' when there is nothing outstanding. */
  datatype TradedCell = Dash | Shown(count: int)

  /** `_getTradedAsset`: show a counter only when it is positive. */
  function GetTradedAsset(assetName: string, counters: Option<map<string, int>>): (cell: TradedCell)
    ensures cell.Shown? <==> counters.Some? && assetName in counters.value && counters.value[assetName] > 0
    ensures cell.Shown? ==> cell.count == counters.value[assetName]
  {
    var offered := if counters.Some? && assetName in counters.value then counters.value[assetName] else 0;
    if offered > 0 then Shown(offered) else Dash
  }

  /** Shown against a recount, a cell displays exactly the trader's outstanding orders on that asset. */
  lemma TradedCellShowsOutstanding(names: set<string>, orders: seq<Order>, pcode: string, assetName: string)
    requires assetName in names
    ensures var n := CountOwned(orders, pcode, assetName);
      GetTradedAsset(assetName, Some(Tally(names, orders, pcode))) == (if n > 0 then Shown(n) else Dash)
  {
  }

  /**
   * `_getHeldAsset`: 0 before the holdings are known, otherwise the stored
   * quantity (`undefined`, here None, for an asset without an entry).
   */
  function GetHeldAsset(assetName: string, holdings: Option<map<string, int>>): (r: Option<int>)
    ensures holdings.None? ==> r == Some(0)
    ensures holdings.Some? ==> (r.Some? <==> assetName in holdings.value)
    ensures holdings.Some? && r.Some? ==> r.value == holdings.value[assetName]
  {
    if holdings.None? then Some(0)
    else if assetName in holdings.value then Some(holdings.value[assetName])
    else None
  }
}
