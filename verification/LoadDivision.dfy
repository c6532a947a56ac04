/** `divideLoad`: how many copies of each pool entry make up the list that senders choose from. Every operation of
    floating point is the exact one and then a rounding, of which only what all roundings have in common is used. */
module LoadDivision {

  // ----- Rounding -----

  type Round = real -> real

  /** 2 to the -53, half the distance between 1 and the next number. */
  const EPS := 1.0 / 9007199254740992.0

  /** The factors by which one rounding can be off. */
  function Down(): (p: real)
    ensures 0.0 < p <= 1.0
  {
    1.0 - EPS
  }

  function Up(): (p: real)
    ensures p >= 1.0
  {
    1.0 + EPS
  }

  /** Arrays are shorter than this. */
  const MAX_LENGTH := 0x1_0000_0000

  /** A number of floating point. */
  predicate Fits(round: Round, x: real) {
    round(x) == x
  }

  function Times(a: real, b: real): real {
    a * b
  }

  /** One number is another but for a factor between two. */
  ghost predicate Between(low: real, high: real, x: real, y: real) {
    low * x <= y <= high * x
  }

  /** Off by a small part at most. */
  ghost predicate IsNear(round: Round, x: real) {
    Between(Down(), Up(), x, round(x))
  }

  ghost predicate SumIsNear(round: Round, a: real, b: real) {
    IsNear(round, a + b)
  }

  ghost predicate ShareIsNear(round: Round, taken: real, n: int)
    requires n >= 1
  {
    IsNear(round, 1.0 - taken) && IsNear(round, round(1.0 - taken) / n as real)
  }

  /** Rounding keeps order, has 0 and 1, and is near for what is not tiny, for sums of numbers, and for what is left of
      1, as a whole and divided among the entries of an array. */
  ghost predicate IsRounding(round: Round) {
    && (forall x, y :: x <= y ==> round(x) <= round(y))
    && (forall x :: Fits(round, round(x)))
    && Fits(round, 0.0) && Fits(round, 1.0)
    && (forall x :: x >= EPS * EPS ==> IsNear(round, x))
    && (forall a, b :: Fits(round, a) && Fits(round, b) && a >= 0.0 && b >= 0.0 ==> SumIsNear(round, a, b))
    && (forall c, n: int :: Fits(round, c) && 0.0 <= c <= 1.0 && 1 <= n < MAX_LENGTH ==> ShareIsNear(round, c, n))
  }

  /** What each of n entries gets of what is left of 1. */
  function Share(round: Round, taken: real, n: int): real
    requires n >= 1
  {
    round(round(1.0 - taken) / n as real)
  }

  lemma Monotone(round: Round, x: real, y: real)
    requires IsRounding(round) && x <= y
    ensures round(x) <= round(y)
  {}

  lemma RoundedFits(round: Round, x: real)
    requires IsRounding(round)
    ensures Fits(round, round(x)) && Fits(round, 0.0) && Fits(round, 1.0)
  {}

  lemma Near(round: Round, x: real)
    requires IsRounding(round) && x >= EPS * EPS
    ensures Between(Down(), Up(), x, round(x))
  {
    hide Between;
    assert IsNear(round, x);
  }

  lemma NearSum(round: Round, a: real, b: real)
    requires IsRounding(round) && Fits(round, a) && Fits(round, b) && a >= 0.0 && b >= 0.0
    ensures Between(Down(), Up(), a + b, round(a + b))
  {
    hide Between;
    assert SumIsNear(round, a, b);
  }

  lemma NearShare(round: Round, taken: real, n: int)
    requires IsRounding(round) && Fits(round, taken) && 0.0 <= taken <= 1.0 && 1 <= n < MAX_LENGTH
    ensures Between(Down(), Up(), 1.0 - taken, round(1.0 - taken))
    ensures Between(Down(), Up(), round(1.0 - taken) / n as real, Share(round, taken, n))
  {
    hide Between;
    assert ShareIsNear(round, taken, n);
  }

  /** All shares together are what was left of 1, but for two roundings. */
  lemma SharesAddUp(round: Round, taken: real, n: int)
    requires IsRounding(round) && Fits(round, taken) && 0.0 <= taken <= 1.0 && 1 <= n < MAX_LENGTH
    ensures Between(Low(2), High(2), 1.0 - taken, Times(n as real, Share(round, taken, n)))
  {
    hide IsRounding, Share, Between, Down, Up, Low, High, Times;
    NearShare(round, taken, n);
    RoundedFits(round, 0.0);
    Monotone(round, 0.0, 1.0 - taken);
    var left, share := round(1.0 - taken), Share(round, taken, n);
    TimesBack(Down(), Up(), share, left, n as real);
    TwoFactors();
    Compose(Down(), Up(), Down(), Up(), Low(2), High(2), 1.0 - taken, left, Times(n as real, share));
  }

  lemma TwoFactors()
    ensures Low(2) == Times(Down(), Down()) && High(2) == Times(Up(), Up())
  {
    NoFactors();
    MoreFactors(0);
    MoreFactors(1);
    hide Low, High;
  }

  lemma Compose(lo: real, hi: real, low: real, high: real, low': real, high': real, x: real, y: real, z: real)
    requires low >= 0.0 && high >= 0.0 && low' == Times(lo, low) && high' == Times(hi, high)
    requires Between(lo, hi, x, y) && Between(low, high, y, z)
    ensures Between(low', high', x, z)
  {
    Larger(low, lo * x, y);
    assert low * (lo * x) == low' * x;
    Larger(high, y, hi * x);
    assert high * (hi * x) == high' * x;
  }

  lemma TimesBack(lo: real, hi: real, share: real, left: real, m: real)
    requires m >= 1.0 && left >= 0.0 && Between(lo, hi, left / m, share)
    ensures Between(lo, hi, left, Times(m, share))
  {
    var q := left / m;
    Quotient(left, m);
    ScaleBoth(lo, hi, q, share, m);
    assert q * m == left;
  }

  lemma ScaleBoth(lo: real, hi: real, x: real, y: real, m: real)
    requires m >= 0.0 && Between(lo, hi, x, y)
    ensures Between(lo, hi, Times(x, m), Times(y, m)) && Times(y, m) == Times(m, y)
  {
    Larger(m, lo * x, y);
    Larger(m, y, hi * x);
    assert m * (lo * x) == lo * (x * m) && m * (hi * x) == hi * (x * m) && m * y == y * m;
  }

  /** The factors by which n roundings can be off. */
  function Low(n: nat): (p: real)
    ensures 0.0 < p <= 1.0
  {
    if n == 0 then 1.0 else Down() * Low(n - 1)
  }

  function High(n: nat): (p: real)
    ensures p >= 1.0
  {
    if n == 0 then 1.0 else Up() * High(n - 1)
  }

  function Same(x: real): real {
    x
  }

  /** Exact arithmetic is an instance. */
  lemma ExactIsRounding()
    ensures IsRounding(Same)
  {
    hide Between, Down, Up;
    forall x | x >= 0.0
      ensures IsNear(Same, x)
    {
      AroundOne(x);
    }
    forall c, n: int | Fits(Same, c) && 0.0 <= c <= 1.0 && 1 <= n < MAX_LENGTH
      ensures ShareIsNear(Same, c, n)
    {
      Quotient(1.0 - c, n as real);
    }
  }

  // ----- The shares -----

  /** A pool entry; a ratio of 0 is no ratio of its own. */
  datatype Item = Item(address: string, ratio: real)

  function Ceil(x: real): (n: int)
    ensures (n - 1) as real < x <= n as real
  {
    -(-x).Floor
  }

  function Clamp(r: real): real {
    if r < 0.0 then 0.0 else if r > 1.0 then 1.0 else r
  }

  /** The ratios are numbers of floating point. */
  ghost predicate IsPool(round: Round, pool: seq<Item>) {
    |pool| < MAX_LENGTH && forall i :: i in pool ==> Fits(round, i.ratio)
  }

  /** Ratios of entries with one are between 0 and 1. */
  ghost predicate InRange(round: Round, pool: seq<Item>) {
    forall i :: i in pool ==> 0.0 <= i.ratio <= 1.0 && Fits(round, i.ratio)
  }

  function Clamped(pool: seq<Item>): seq<Item> {
    if pool == [] then
      []
    else
      [if pool[0].ratio != 0.0 then pool[0].(ratio := Clamp(pool[0].ratio)) else pool[0]] + Clamped(pool[1..])
  }

  function CustomShares(pool: seq<Item>): (n: nat)
    ensures n <= |pool|
  {
    if pool == [] then 0 else (if pool[0].ratio != 0.0 then 1 else 0) + CustomShares(pool[1..])
  }

  /** The count goes up by one at each entry with a ratio, be it negative. */
  lemma {:induction false} CustomSharesAt(pool: seq<Item>, k: nat)
    requires k < |pool|
    ensures CustomShares(pool[..k + 1]) == CustomShares(pool[..k]) + if pool[k].ratio != 0.0 then 1 else 0
    ensures CustomShares(pool[..0]) == 0 && pool[..|pool|] == pool
  {
    if k > 0 {
      CustomSharesAt(pool[1..], k - 1);
      assert pool[..k][1..] == pool[1..][..k - 1] && pool[..k + 1][1..] == pool[1..][..k];
    } else {
      assert pool[..1] == [pool[0]] && [pool[0]][1..] == [];
    }
  }

  /** The sum so far and the ratios, one after the other. */
  function Total(round: Round, sum: real, pool: seq<Item>): real
    decreases |pool|
  {
    if pool == [] then sum
    else Total(round, if pool[0].ratio != 0.0 then round(sum + pool[0].ratio) else sum, pool[1..])
  }

  function CustomRatio(round: Round, pool: seq<Item>): real {
    Total(round, 0.0, Clamped(pool))
  }

  function Filled(pool: seq<Item>, share: real): seq<Item> {
    if pool == [] then
      []
    else
      [if pool[0].ratio == 0.0 then pool[0].(ratio := share) else pool[0]] + Filled(pool[1..], share)
  }

  /** The ratios as they end up: entries without one share what the others leave of 1, or get nothing. If every
      entry has a ratio, nothing is filled in. */
  function Shares(round: Round, pool: seq<Item>): seq<Item> {
    var clamped := Clamped(pool);
    if |pool| > CustomShares(pool) then
      Filled(clamped, DefaultShare(round, pool))
    else
      clamped
  }

  function DefaultShare(round: Round, pool: seq<Item>): real
    requires |pool| > CustomShares(pool)
  {
    var custom := CustomRatio(round, pool);
    Share(round, if custom < 1.0 then custom else 1.0, |pool| - CustomShares(pool))
  }

  lemma {:induction false} ClampedInRange(round: Round, pool: seq<Item>)
    requires IsRounding(round) && IsPool(round, pool)
    ensures |Clamped(pool)| == |pool| && InRange(round, Clamped(pool))
  {
    if pool != [] {
      assert pool[0] in pool && forall i :: i in pool[1..] ==> i in pool;
      RoundedFits(round, 0.0);
      hide IsRounding;
      ClampedInRange(round, pool[1..]);
    }
  }

  /** A sum is no less than it was, and than each ratio in it. */
  lemma {:induction false} TotalGrows(round: Round, sum: real, pool: seq<Item>)
    requires IsRounding(round) && InRange(round, pool) && Fits(round, sum) && sum >= 0.0
    ensures Total(round, sum, pool) >= sum && Fits(round, Total(round, sum, pool))
    ensures forall i :: i in pool ==> Total(round, sum, pool) >= i.ratio
    decreases |pool|
  {
    hide IsRounding;
    if pool != [] {
      assert pool[0] in pool && forall i :: i in pool[1..] ==> i in pool;
      var next := if pool[0].ratio != 0.0 then round(sum + pool[0].ratio) else sum;
      assert next >= sum && next >= pool[0].ratio && Fits(round, next) by {
        Monotone(round, sum, sum + pool[0].ratio);
        Monotone(round, pool[0].ratio, sum + pool[0].ratio);
        RoundedFits(round, sum + pool[0].ratio);
      }
      TotalGrows(round, next, pool[1..]);
    }
  }

  /** A sum of nothing but zeros has not grown. */
  lemma {:induction false} SomePositive(round: Round, sum: real, pool: seq<Item>)
    requires Total(round, sum, pool) > sum && forall i :: i in pool ==> i.ratio >= 0.0
    ensures exists k :: 0 <= k < |pool| && pool[k].ratio > 0.0
    decreases |pool|
  {
    assert pool[0] in pool && forall i :: i in pool[1..] ==> i in pool;
    if pool[0].ratio == 0.0 {
      SomePositive(round, sum, pool[1..]);
      var k :| 0 <= k < |pool[1..]| && pool[1..][k].ratio > 0.0;
      assert pool[k + 1].ratio > 0.0;
    }
  }

  lemma Quotient(a: real, n: real)
    requires n > 0.0 && a >= 0.0
    ensures a / n >= 0.0 && (a > 0.0 ==> a / n > 0.0) && a / n * n == a
  {}

  lemma AtLeast(q: real, n: real)
    requires q >= 0.0 && n >= 1.0
    ensures q <= q * n
  {}

  lemma Divide(a: real, n: real)
    requires 0.0 <= a <= 1.0 && n >= 1.0
    ensures 0.0 <= a / n <= 1.0
  {
    Quotient(a, n);
    AtLeast(a / n, n);
  }

  lemma ShareInRange(round: Round, taken: real, n: int)
    requires IsRounding(round) && Fits(round, taken) && 0.0 <= taken <= 1.0 && 1 <= n < MAX_LENGTH
    ensures 0.0 <= Share(round, taken, n) <= 1.0 && Fits(round, Share(round, taken, n))
    ensures taken < 1.0 ==> Share(round, taken, n) > 0.0
  {
    hide IsRounding, Share;
    RoundedFits(round, 1.0);
    Monotone(round, 0.0, 1.0 - taken);
    Monotone(round, 1.0 - taken, 1.0);
    var left := round(1.0 - taken);
    Divide(left, n as real);
    ShareIs(round, taken, n);
    var q := left / n as real;
    Monotone(round, 0.0, q);
    Monotone(round, q, 1.0);
    RoundedFits(round, q);
    if taken < 1.0 {
      SharesAddUp(round, taken, n);
      SomeLeft(n as real, Share(round, taken, n), Low(2), High(2), 1.0 - taken);
    }
  }

  lemma SomeLeft(m: real, share: real, low: real, high: real, left: real)
    requires m >= 1.0 && low > 0.0 && left > 0.0 && Between(low, high, left, Times(m, share)) && share >= 0.0
    ensures share > 0.0
  {
    assert low * left > 0.0;
  }

  lemma ShareIs(round: Round, taken: real, n: int)
    requires n >= 1
    ensures Share(round, taken, n) == round(round(1.0 - taken) / n as real)
  {}

  lemma {:induction false} FilledAt(pool: seq<Item>, share: real, k: nat)
    requires k < |pool|
    ensures |Filled(Clamped(pool), share)| == |pool| == |Clamped(pool)|
    ensures Clamped(pool)[k].ratio == Clamp(pool[k].ratio)
    ensures Filled(Clamped(pool), share)[k].address == pool[k].address
    ensures Filled(Clamped(pool), share)[k].ratio
            == if Clamp(pool[k].ratio) == 0.0 then share else Clamp(pool[k].ratio)
  {
    if k > 0 {
      FilledAt(pool[1..], share, k - 1);
    } else if |pool| > 1 {
      FilledAt(pool[1..], share, 0);
    }
  }

  lemma {:induction false} SomeWithout(pool: seq<Item>)
    requires |pool| > CustomShares(pool)
    ensures exists k :: 0 <= k < |pool| && pool[k].ratio == 0.0
  {
    if pool[0].ratio != 0.0 {
      SomeWithout(pool[1..]);
      var k :| 0 <= k < |pool[1..]| && pool[1..][k].ratio == 0.0;
      assert pool[k + 1].ratio == 0.0;
    }
  }

  lemma DefaultShareInRange(round: Round, pool: seq<Item>)
    requires IsRounding(round) && IsPool(round, pool) && |pool| > CustomShares(pool)
    ensures 0.0 <= DefaultShare(round, pool) <= 1.0 && Fits(round, DefaultShare(round, pool))
    ensures CustomRatio(round, pool) < 1.0 ==> DefaultShare(round, pool) > 0.0
  {
    hide IsRounding, Clamped, CustomShares, Total, Share;
    ClampedInRange(round, pool);
    RoundedFits(round, 0.0);
    TotalGrows(round, 0.0, Clamped(pool));
    var custom := CustomRatio(round, pool);
    ShareInRange(round, if custom < 1.0 then custom else 1.0, |pool| - CustomShares(pool));
  }

  lemma FilledInRange(round: Round, pool: seq<Item>, share: real)
    requires InRange(round, Clamped(pool)) && 0.0 <= share <= 1.0 && Fits(round, share)
    ensures |Filled(Clamped(pool), share)| == |pool| && InRange(round, Filled(Clamped(pool), share))
  {
    hide Filled, Clamped, Clamp;
    FilledLength(pool, share);
    forall k | 0 <= k < |pool|
      ensures var r := Filled(Clamped(pool), share)[k].ratio; 0.0 <= r <= 1.0 && Fits(round, r)
    {
      FilledAt(pool, share, k);
      assert Clamped(pool)[k] in Clamped(pool);
    }
  }

  lemma FilledLength(pool: seq<Item>, share: real)
    ensures |Filled(Clamped(pool), share)| == |pool|
  {
    if pool != [] {
      FilledAt(pool, share, 0);
    }
  }

  /** Ratios end up between 0 and 1, and unless every entry had its own there is something to share out. */
  lemma SharesInRange(round: Round, pool: seq<Item>)
    requires IsRounding(round) && IsPool(round, pool)
    ensures |Shares(round, pool)| == |pool| && InRange(round, Shares(round, pool))
    ensures |pool| > CustomShares(pool) ==> exists i :: i in Shares(round, pool) && i.ratio > 0.0
  {
    ClampedInRange(round, pool);
    RoundedFits(round, 0.0);
    if |pool| > CustomShares(pool) {
      DefaultShareInRange(round, pool);
      hide IsRounding, Clamped, CustomShares, Total, DefaultShare, Filled;
      FilledInRange(round, pool, DefaultShare(round, pool));
      SomeShare(round, pool);
    }
  }

  lemma SomeShare(round: Round, pool: seq<Item>)
    requires |pool| > CustomShares(pool) && InRange(round, Clamped(pool))
    requires CustomRatio(round, pool) < 1.0 ==> DefaultShare(round, pool) > 0.0
    ensures exists i :: i in Filled(Clamped(pool), DefaultShare(round, pool)) && i.ratio > 0.0
  {
    hide Clamped, CustomShares, Total, DefaultShare, Filled;
    var share := DefaultShare(round, pool);
    var filled := Filled(Clamped(pool), share);
    var k: nat;
    if CustomRatio(round, pool) < 1.0 {
      SomeWithout(pool);
      k :| k < |pool| && pool[k].ratio == 0.0;
    } else {
      SomePositive(round, 0.0, Clamped(pool));
      k :| k < |Clamped(pool)| && Clamped(pool)[k].ratio > 0.0;
      FilledLengths(pool, share);
    }
    FilledAt(pool, share, k);
    assert filled[k] in filled;
  }

  lemma FilledLengths(pool: seq<Item>, share: real)
    ensures |Clamped(pool)| == |pool|
  {
    if pool != [] {
      FilledAt(pool, share, 0);
    }
  }

  // ----- The copies -----

  /** The smaller of two ratios, where 0 stands for none. */
  function Lesser(a: real, b: real): real {
    if a == 0.0 then b else if b == 0.0 || a < b then a else b
  }

  lemma LesserAssociative(a: real, b: real, c: real)
    ensures Lesser(Lesser(a, b), c) == Lesser(a, Lesser(b, c))
    ensures Lesser(a, 0.0) == a && Lesser(0.0, a) == a
  {}

  /** The smallest positive ratio, or 0 if there is none. */
  function Smallest(pool: seq<Item>): real {
    if pool == [] then 0.0 else Lesser(pool[0].ratio, Smallest(pool[1..]))
  }

  lemma {:induction false} SmallestIs(pool: seq<Item>)
    requires forall i :: i in pool ==> i.ratio >= 0.0
    ensures 0.0 <= Smallest(pool)
    ensures forall i :: i in pool && i.ratio > 0.0 ==> 0.0 < Smallest(pool) <= i.ratio
    ensures Smallest(pool) > 0.0 ==> exists i :: i in pool && i.ratio == Smallest(pool)
  {
    if pool != [] {
      assert pool[0] in pool && forall i :: i in pool[1..] ==> i in pool;
      SmallestIs(pool[1..]);
    }
  }

  function Items(round: Round, pool: seq<Item>): int {
    var shares := Shares(round, pool);
    if |pool| > CustomShares(pool) && Smallest(shares) > 0.0 then
      Ceil(round(Total(round, 0.0, shares) / Smallest(shares)))
    else
      0
  }

  /** What the ratio of an entry calls for, of a number of items. */
  function Called(item: Item, items: int): real {
    items as real * item.ratio
  }

  /** How many copies the entry gets. */
  function Copies(round: Round, item: Item, items: int): int {
    Ceil(round(Called(item, items)))
  }

  /** The number of copies is what the ratio calls for, up to the rounding, and less than one more. */
  lemma CopiesAre(round: Round, item: Item, items: int)
    requires IsRounding(round) && items >= 0 && 0.0 <= item.ratio && Fits(round, item.ratio)
    ensures var x, n := Called(item, items), Copies(round, item, items);
            && n >= 0 && Down() * x <= n as real < Up() * x + 1.0
            && (items > 0 && item.ratio > 0.0 ==> n >= 1)
            && (item.ratio == 0.0 || items == 0 ==> n == 0)
  {
    hide IsRounding, Called;
    var x := Called(item, items);
    CalledIs(item, items);
    RoundedFits(round, 0.0);
    Monotone(round, 0.0, x);
    if items >= 1 {
      Monotone(round, item.ratio, x);
    }
    CeilNear(round, x);
  }

  lemma CalledIs(item: Item, items: int)
    requires items >= 0 && item.ratio >= 0.0
    ensures var x := Called(item, items);
            && x >= 0.0 && (items >= 1 ==> x >= item.ratio) && (item.ratio == 0.0 || items == 0 ==> x == 0.0)
  {
    if items >= 1 {
      AtLeast(item.ratio, items as real);
    }
  }

  lemma CeilNear(round: Round, x: real)
    requires IsRounding(round) && x >= 0.0 && (x > 0.0 ==> round(x) > 0.0)
    ensures Down() * x <= Ceil(round(x)) as real < Up() * x + 1.0
  {
    hide IsRounding;
    if x >= EPS * EPS {
      Near(round, x);
      assert Between(Down(), Up(), x, round(x));
    } else {
      RoundedFits(round, 1.0);
      Monotone(round, 0.0, x);
      Monotone(round, x, 1.0);
      assert Down() * x <= 1.0 && Up() * x >= x;
    }
  }

  lemma CopiesMonotone(round: Round, a: Item, b: Item, items: int)
    requires IsRounding(round) && items >= 0 && a.ratio <= b.ratio
    ensures Copies(round, a, items) <= Copies(round, b, items)
  {
    hide IsRounding;
    Larger(items as real, a.ratio, b.ratio);
    assert Called(a, items) <= Called(b, items);
    hide Called;
    Monotone(round, Called(a, items), Called(b, items));
  }

  lemma Larger(n: real, a: real, b: real)
    requires n >= 0.0 && a <= b
    ensures n * a <= n * b
  {}

  ghost function Spread(round: Round, pool: seq<Item>, items: int): seq<Item> {
    if pool == [] then
      []
    else
      CopiesOf(round, pool[0], items) + Spread(round, pool[1..], items)
  }

  ghost function CopiesOf(round: Round, item: Item, items: int): seq<Item> {
    var n := Copies(round, item, items);
    seq(if n >= 0 then n else 0, _ => item)
  }

  /** Where the copies of entry k begin. */
  ghost function Start(round: Round, pool: seq<Item>, items: int, k: nat): (n: nat)
    requires k <= |pool|
  {
    if k == 0 then 0 else |CopiesOf(round, pool[0], items)| + Start(round, pool[1..], items, k - 1)
  }

  /** The list is made of the entries' copies, in the order of the pool. */
  lemma {:induction false} SpreadInOrder(round: Round, pool: seq<Item>, items: int, k: nat)
    requires k < |pool|
    ensures Start(round, pool, items, k + 1) == Start(round, pool, items, k) + |CopiesOf(round, pool[k], items)|
    ensures Start(round, pool, items, |pool|) == |Spread(round, pool, items)|
    ensures Start(round, pool, items, k + 1) <= |Spread(round, pool, items)|
    ensures forall j :: Start(round, pool, items, k) <= j < Start(round, pool, items, k + 1) ==>
                          Spread(round, pool, items)[j] == pool[k]
  {
    SpreadLength(round, pool, items);
    hide CopiesOf;
    if k > 0 {
      SpreadInOrder(round, pool[1..], items, k - 1);
    } else {
      SpreadLength(round, pool[1..], items);
      assert Start(round, pool[1..], items, 0) == 0;
      AllCopies(round, pool[0], items);
    }
  }

  lemma AllCopies(round: Round, item: Item, items: int)
    ensures forall j :: 0 <= j < |CopiesOf(round, item, items)| ==> CopiesOf(round, item, items)[j] == item
  {}

  lemma {:induction false} SpreadLength(round: Round, pool: seq<Item>, items: int)
    ensures Start(round, pool, items, |pool|) == |Spread(round, pool, items)|
  {
    if pool != [] {
      SpreadLength(round, pool[1..], items);
    }
  }

  /** The number of items is positive exactly if some entry has no ratio of its own. */
  lemma ItemsPositive(round: Round, pool: seq<Item>)
    requires IsRounding(round) && IsPool(round, pool)
    ensures Items(round, pool) >= 0
    ensures Items(round, pool) > 0 <==> |pool| > CustomShares(pool)
    ensures |pool| > CustomShares(pool) ==> Smallest(Shares(round, pool)) > 0.0
  {
    hide Shares, CustomShares, Total, Smallest, IsRounding;
    SharesInRange(round, pool);
    RoundedFits(round, 1.0);
    var shares := Shares(round, pool);
    SmallestIs(shares);
    TotalGrows(round, 0.0, shares);
    if |pool| > CustomShares(pool) {
      var total, smallest := Total(round, 0.0, shares), Smallest(shares);
      AtLeastOne(total, smallest);
      Monotone(round, 1.0, total / smallest);
    }
  }

  lemma AtLeastOne(a: real, b: real)
    requires 0.0 < b <= a
    ensures a / b >= 1.0
  {
    Quotient(a, b);
    NotLess(a / b, a, b);
  }

  lemma NotLess(q: real, a: real, b: real)
    requires q * b == a && 0.0 < b <= a
    ensures q >= 1.0
  {
    assert q < 1.0 ==> q * b < b;
  }

  /** The list of a pool. */
  ghost function Divided(round: Round, pool: seq<Item>): seq<Item> {
    Spread(round, Shares(round, pool), Items(round, pool))
  }

  /** Every entry with a ratio has a copy, as many as its ratio of the items calls for, up to a rounding of that, and
      less than one more; one with a larger ratio never has fewer, and those without a ratio of their own have all the
      same number. */
  lemma SharesAreFair(round: Round, pool: seq<Item>, k: nat, j: nat)
    requires IsRounding(round) && IsPool(round, pool)
    requires k < |pool| && j < |pool| && |pool| > CustomShares(pool)
    ensures |Shares(round, pool)| == |pool| && Items(round, pool) > 0
    ensures var a, b, items := Shares(round, pool)[k], Shares(round, pool)[j], Items(round, pool);
            var n, x := Copies(round, a, items), Called(a, items);
            && |CopiesOf(round, a, items)| == n
            && (a.ratio > 0.0 ==> n >= 1) && (a.ratio == 0.0 ==> n == 0)
            && Down() * x <= n as real < Up() * x + 1.0
            && (a.ratio <= b.ratio ==> n <= Copies(round, b, items))
            && (pool[k].ratio == 0.0 && pool[j].ratio == 0.0 ==> n == Copies(round, b, items))
  {
    hide Shares, Items, CustomShares, Copies, DefaultShare, IsRounding;
    SharesInRange(round, pool);
    ItemsPositive(round, pool);
    ShareAt(round, pool, k);
    ShareAt(round, pool, j);
    var a, b, items := Shares(round, pool)[k], Shares(round, pool)[j], Items(round, pool);
    assert a in Shares(round, pool) && b in Shares(round, pool);
    CopiesAre(round, a, items);
    if a.ratio <= b.ratio {
      CopiesMonotone(round, a, b, items);
    }
    if b.ratio <= a.ratio {
      CopiesMonotone(round, b, a, items);
    }
  }

  /** Final ratios: an entry's own, cut off at 1; each of the entries with none gets an equal part of what is left of 1,
      but for two roundings, or nothing if the others' add up to 1 or more. An entry with a negative ratio gets as much,
      though it is not one of those that the parts are for. */
  lemma ShareAt(round: Round, pool: seq<Item>, k: nat)
    requires IsRounding(round) && IsPool(round, pool) && k < |pool| && |pool| > CustomShares(pool)
    ensures |Shares(round, pool)| == |pool| && Shares(round, pool)[k].address == pool[k].address
    ensures var r, own, n := Shares(round, pool)[k].ratio, CustomRatio(round, pool), |pool| - CustomShares(pool);
            && (0.0 < pool[k].ratio <= 1.0 ==> r == pool[k].ratio)
            && (pool[k].ratio > 1.0 ==> r == 1.0)
            && (pool[k].ratio <= 0.0 ==> r == DefaultShare(round, pool))
            && (pool[k].ratio <= 0.0 && own < 1.0 ==> Between(Low(2), High(2), 1.0 - own, Times(n as real, r)))
            && (pool[k].ratio <= 0.0 && own >= 1.0 ==> r == 0.0)
  {
    hide *;
    OwnRatio(round, pool, k);
    LeftForOthers(round, pool);
  }

  lemma OwnRatio(round: Round, pool: seq<Item>, k: nat)
    requires k < |pool| && |pool| > CustomShares(pool)
    ensures |Shares(round, pool)| == |pool| && Shares(round, pool)[k].address == pool[k].address
    ensures var r := Shares(round, pool)[k].ratio;
            && (0.0 < pool[k].ratio <= 1.0 ==> r == pool[k].ratio)
            && (pool[k].ratio > 1.0 ==> r == 1.0)
            && (pool[k].ratio <= 0.0 ==> r == DefaultShare(round, pool))
  {
    hide DefaultShare, CustomShares, Clamped, Filled;
    FilledAt(pool, DefaultShare(round, pool), k);
  }

  lemma LeftForOthers(round: Round, pool: seq<Item>)
    requires IsRounding(round) && IsPool(round, pool) && |pool| > CustomShares(pool)
    ensures var r, own, n := DefaultShare(round, pool), CustomRatio(round, pool), |pool| - CustomShares(pool);
            && (own < 1.0 ==> Between(Low(2), High(2), 1.0 - own, Times(n as real, r)))
            && (own >= 1.0 ==> r == 0.0)
  {
    hide IsRounding, Clamped, CustomShares, Total, Share, Low, High, Down, Up, Between, Times, CustomRatio;
    var own, n := CustomRatio(round, pool), |pool| - CustomShares(pool);
    OwnSum(round, pool);
    if own < 1.0 {
      SharesAddUp(round, own, n);
    } else {
      NothingLeft(round, n);
    }
  }

  lemma OwnSum(round: Round, pool: seq<Item>)
    requires IsRounding(round) && IsPool(round, pool)
    ensures CustomRatio(round, pool) >= 0.0 && Fits(round, CustomRatio(round, pool))
  {
    hide IsRounding, Clamped, Total;
    ClampedInRange(round, pool);
    RoundedFits(round, 0.0);
    TotalGrows(round, 0.0, Clamped(pool));
  }

  lemma NothingLeft(round: Round, n: int)
    requires IsRounding(round) && n >= 1
    ensures Share(round, 1.0, n) == 0.0
  {
    RoundedFits(round, 0.0);
    hide IsRounding;
    assert 0.0 / n as real == 0.0;
  }

  // ----- The list as a whole -----

  /** The exact sum of the ratios. */
  function Sum(pool: seq<Item>): real {
    if pool == [] then 0.0 else pool[0].ratio + Sum(pool[1..])
  }

  lemma {:induction false} SumNotNegative(pool: seq<Item>)
    requires forall i :: i in pool ==> i.ratio >= 0.0
    ensures Sum(pool) >= 0.0
  {
    if pool != [] {
      assert pool[0] in pool && forall i :: i in pool[1..] ==> i in pool;
      SumNotNegative(pool[1..]);
    }
  }

  /** The sum that the loop works out is the exact one, but for a rounding for each entry. */
  lemma {:induction false} TotalNear(round: Round, sum: real, pool: seq<Item>)
    requires IsRounding(round) && InRange(round, pool) && Fits(round, sum) && sum >= 0.0
    ensures Between(Low(|pool|), High(|pool|), sum + Sum(pool), Total(round, sum, pool))
    decreases |pool|
  {
    hide IsRounding, Low, High, Down, Up, Between, Times;
    if pool == [] {
      NoFactors();
      Exactly(sum);
    } else {
      assert pool[0] in pool && forall i :: i in pool[1..] ==> i in pool;
      var r, rest := pool[0].ratio, pool[1..];
      var next := if r != 0.0 then round(sum + r) else sum;
      NextSum(round, sum, r, next);
      TotalNear(round, next, rest);
      SumNotNegative(rest);
      var total := Total(round, next, rest);
      MoreFactors(|rest|);
      Widen(Down(), Up(), Low(|rest|), High(|rest|), Low(|pool|), High(|pool|), sum + r, next, Sum(rest),
            total);
    }
  }

  lemma Exactly(x: real)
    ensures Between(1.0, 1.0, x, x)
  {}

  lemma NoFactors()
    ensures Low(0) == 1.0 == High(0)
  {}

  lemma MoreFactors(n: nat)
    ensures Low(n + 1) == Times(Down(), Low(n)) && High(n + 1) == Times(Up(), High(n))
  {}

  lemma NextSum(round: Round, sum: real, r: real, next: real)
    requires IsRounding(round) && Fits(round, sum) && Fits(round, r) && sum >= 0.0 && r >= 0.0
    requires next == if r != 0.0 then round(sum + r) else sum
    ensures Between(Down(), Up(), sum + r, next) && Fits(round, next) && next >= 0.0
  {
    hide IsRounding, Between, Down, Up;
    RoundedFits(round, 0.0);
    Monotone(round, 0.0, sum + r);
    NearSum(round, sum, r);
    RoundedFits(round, sum + r);
    AroundOne(sum + r);
  }

  lemma AroundOne(x: real)
    requires x >= 0.0
    ensures Between(Down(), Up(), x, x) && Down() * x >= 0.0
  {}

  lemma Widen(lo: real, hi: real, low: real, high: real, low': real, high': real, x: real, y: real, rest: real, z: real)
    requires 0.0 < lo <= 1.0 <= hi && low > 0.0 && high > 0.0 && low' == Times(lo, low) && high' == Times(hi, high)
    requires x >= 0.0 && rest >= 0.0 && Between(lo, hi, x, y) && Between(low, high, y + rest, z)
    ensures Between(low', high', x + rest, z)
  {
    hide Times, Between;
    AddRest(lo, hi, x, y, rest);
    Compose(lo, hi, low, high, low', high', x + rest, y + rest, z);
  }

  lemma AddRest(lo: real, hi: real, x: real, y: real, rest: real)
    requires lo <= 1.0 <= hi && rest >= 0.0 && Between(lo, hi, x, y)
    ensures Between(lo, hi, x + rest, y + rest)
  {
    Larger(rest, lo, 1.0);
    Larger(rest, 1.0, hi);
    assert lo * (x + rest) == lo * x + rest * lo && hi * (x + rest) == hi * x + rest * hi;
  }

  /** That many items of that size make up the sum, but for factors, and one less would not. */
  ghost predicate CountsUp(low: real, high: real, sum: real, size: real, items: real) {
    low * sum <= items * size < high * sum + size
  }

  /** The number of items is the sum of the ratios over the smallest positive one, rounded up. */
  lemma ItemsAre(round: Round, pool: seq<Item>, least: real)
    requires IsRounding(round) && IsPool(round, pool) && |pool| > CustomShares(pool) && least > 0.0
    requires exists i :: i in Shares(round, pool) && i.ratio == least
    requires forall i :: i in Shares(round, pool) && i.ratio > 0.0 ==> least <= i.ratio
    ensures var items, sum, n := Items(round, pool) as real, Sum(Shares(round, pool)), |pool|;
            CountsUp(Low(n + 1), High(n + 1), sum, least, items)
  {
    hide IsRounding, Shares, CustomShares, Total, Smallest, Low, High, Sum, Down, Up, Between, CountsUp, Times;
    SharesInRange(round, pool);
    RoundedFits(round, 0.0);
    var shares := Shares(round, pool);
    SmallestIs(shares);
    TotalGrows(round, 0.0, shares);
    TotalNear(round, 0.0, shares);
    var total, smallest := Total(round, 0.0, shares), Smallest(shares);
    assert smallest == least;
    AtLeastOne(total, least);
    var q := total / least;
    QuotientTimes(total, least);
    AtLeastTiny();
    Near(round, q);
    MoreFactors(|shares|);
    Bounds(Down(), Up(), round(q), Items(round, pool) as real, q, least, total, Sum(shares), Low(|shares|),
           High(|shares|), Low(|shares| + 1), High(|shares| + 1));
  }

  lemma QuotientTimes(a: real, b: real)
    requires a >= 0.0 && b > 0.0
    ensures Times(a / b, b) == a
  {
    Quotient(a, b);
  }

  lemma AtLeastTiny()
    ensures EPS * EPS <= 1.0
  {}

  lemma Bounds(lo: real, hi: real, rounded: real, n: real, q: real, least: real, total: real, sum: real, low: real,
               high: real, low': real, high': real)
    requires 0.0 < lo && 0.0 < hi && Between(lo, hi, q, rounded) && n - 1.0 < rounded <= n
    requires Times(q, least) == total && least > 0.0 && Between(low, high, sum, total)
    requires low' == Times(lo, low) && high' == Times(hi, high)
    ensures CountsUp(low', high', sum, least, n)
  {
    hide Times, Between, CountsUp;
    ScaleBoth(lo, hi, q, rounded, least);
    TimesCommute(lo, low);
    TimesCommute(hi, high);
    Compose(low, high, lo, hi, low', high', sum, total, Times(rounded, least));
    RoundUp(low', high', sum, least, rounded, n);
  }

  lemma TimesCommute(a: real, b: real)
    ensures Times(a, b) == Times(b, a)
  {}

  lemma RoundUp(low: real, high: real, sum: real, least: real, rounded: real, n: real)
    requires least > 0.0 && n - 1.0 < rounded <= n && Between(low, high, sum, Times(rounded, least))
    ensures CountsUp(low, high, sum, least, n)
  {
    Larger(least, rounded, n);
    Smaller(least, n - 1.0, rounded);
    assert least * (n - 1.0) == n * least - least && least * n == n * least && least * rounded == rounded * least;
  }

  lemma Smaller(n: real, a: real, b: real)
    requires n > 0.0 && a < b
    ensures n * a < n * b
  {}

  /** How many copies an entry has, in terms of the final ratios and their sum: in proportion to any other ratio at
      least as many as the sum calls for, and less than one more than the sum over the least ratio, rounded up, does;
      all but for roundings. */
  lemma SharesOfTheSum(round: Round, pool: seq<Item>, k: nat, j: nat, least: real)
    requires IsRounding(round) && IsPool(round, pool) && |pool| > CustomShares(pool) && k < |pool| && j < |pool|
    requires |Shares(round, pool)| == |pool| && Shares(round, pool)[k].ratio > 0.0 && Shares(round, pool)[j].ratio > 0.0
    requires least > 0.0 && exists i :: i in Shares(round, pool) && i.ratio == least
    requires forall i :: i in Shares(round, pool) && i.ratio > 0.0 ==> least <= i.ratio
    ensures var shares, n := Shares(round, pool), |pool|;
            var copies, a, b := Copies(round, shares[k], Items(round, pool)) as real, shares[k].ratio, shares[j].ratio;
            && AtLeastOfSum(Low(n + 2), copies, a, b, Sum(shares))
            && LessThanOneMore(Up(), High(n + 1), copies, a, Sum(shares), least)
  {
    hide IsRounding, Shares, CustomShares, Items, Copies, Called, Low, High, Sum, Down, Up, CountsUp, AtLeastOfSum,
         LessThanOneMore, Times;
    SharesInRange(round, pool);
    ItemsPositive(round, pool);
    ItemsAre(round, pool, least);
    var shares, items := Shares(round, pool), Items(round, pool);
    assert shares[k] in shares && shares[j] in shares;
    CopiesCount(round, shares[k], items);
    MoreFactors(|pool| + 1);
    CalledFor(shares[k], items);
    LowerBound(Down(), Up(), Called(shares[k], items), Copies(round, shares[k], items) as real, items as real,
               shares[k].ratio, shares[j].ratio, least, Sum(shares), Low(|pool| + 1), High(|pool| + 1),
               Low(|pool| + 2));
    UpperBound(Down(), Up(), Called(shares[k], items), Copies(round, shares[k], items) as real, items as real,
               shares[k].ratio, least, Sum(shares), Low(|pool| + 1), High(|pool| + 1));
  }

  /** What is due to an entry: copies are to its ratio as the sum to the other's, at least, but for a factor. */
  ghost predicate AtLeastOfSum(low: real, copies: real, ratio: real, other: real, sum: real) {
    copies * other >= low * (sum * ratio)
  }

  /** All copies but one are less than the ratio of the number of times that the least ratio is in the sum, and one. */
  ghost predicate LessThanOneMore(up: real, high: real, copies: real, ratio: real, sum: real, least: real) {
    (copies - 1.0) * least < up * (ratio * (high * sum + least))
  }

  lemma CalledFor(item: Item, items: int)
    ensures Called(item, items) == Times(items as real, item.ratio)
  {}

  lemma CopiesCount(round: Round, item: Item, items: int)
    requires IsRounding(round) && items >= 0 && 0.0 <= item.ratio && Fits(round, item.ratio)
    ensures CountsUp(Down(), Up(), Called(item, items), 1.0, Copies(round, item, items) as real)
  {
    hide IsRounding, Called, Copies, Down, Up;
    CopiesAre(round, item, items);
  }

  lemma LowerBound(lo: real, hi: real, called: real, copies: real, items: real, a: real, b: real, least: real,
                   sum: real, low: real, high: real, low': real)
    requires lo > 0.0 && items >= 0.0 && a > 0.0 && 0.0 < least <= b
    requires low' == Times(lo, low) && called == Times(items, a)
    requires CountsUp(lo, hi, called, 1.0, copies) && CountsUp(low, high, sum, least, items)
    ensures AtLeastOfSum(low', copies, a, b, sum)
  {
    Larger(items, least, b);
    Larger(a, low * sum, items * b);
    assert a * (low * sum) == low * (sum * a) && a * (items * b) == called * b;
    Larger(lo, low * (sum * a), called * b);
    assert lo * (low * (sum * a)) == low' * (sum * a);
    Larger(b, lo * called, copies);
    assert b * (lo * called) == lo * (called * b) && b * copies == copies * b;
  }

  lemma UpperBound(lo: real, hi: real, called: real, copies: real, items: real, a: real, least: real, sum: real,
                   low: real, high: real)
    requires hi > 0.0 && a > 0.0 && 0.0 < least && called == Times(items, a)
    requires CountsUp(lo, hi, called, 1.0, copies) && CountsUp(low, high, sum, least, items)
    ensures LessThanOneMore(hi, high, copies, a, sum, least)
  {
    var top := high * sum + least;
    assert items * least <= top && copies - 1.0 < hi * called;
    Smaller(least, copies - 1.0, hi * called);
    assert least * (copies - 1.0) == (copies - 1.0) * least;
    assert called * least == a * (items * least);
    assert least * (hi * called) == hi * (called * least);
    Larger(a, items * least, top);
    Larger(hi, a * (items * least), a * top);
  }

  /** The list is empty, and choosing from it impossible, exactly when every entry has a ratio of its own. */
  lemma EmptyIfAllOwn(round: Round, pool: seq<Item>)
    requires IsRounding(round) && IsPool(round, pool)
    ensures Divided(round, pool) == [] <==> |pool| == CustomShares(pool)
  {
    hide Shares, Items, CustomShares, IsRounding, Copies;
    SharesInRange(round, pool);
    ItemsPositive(round, pool);
    var shares, items := Shares(round, pool), Items(round, pool);
    if |pool| > CustomShares(pool) {
      var i :| i in shares && i.ratio > 0.0;
      var k :| 0 <= k < |shares| && shares[k] == i;
      CopiesAre(round, i, items);
      SpreadInOrder(round, shares, items, k);
    } else {
      NothingToSpread(round, shares);
    }
  }

  lemma {:induction false} NothingToSpread(round: Round, pool: seq<Item>)
    requires IsRounding(round) && InRange(round, pool)
    ensures Spread(round, pool, 0) == []
  {
    if pool != [] {
      assert pool[0] in pool && forall i :: i in pool[1..] ==> i in pool;
      CopiesAre(round, pool[0], 0);
      hide IsRounding, Copies;
      NothingToSpread(round, pool[1..]);
    }
  }

  // ----- The loops -----

  method TakeOwnRatios(round: Round, pool: seq<Item>)
    returns (copies: seq<Item>, customShares: nat, customShareRatio: real)
    requires IsRounding(round) && IsPool(round, pool)
    ensures copies == Clamped(pool) && customShares == CustomShares(pool)
    ensures customShareRatio == CustomRatio(round, pool)
  {
    hide IsRounding, Clamped, CustomShares, Total, Clamp;
    copies, customShares, customShareRatio := [], 0, 0.0;
    RoundedFits(round, 0.0);
    assert pool[0..] == pool && copies + Clamped(pool) == Clamped(pool);
    for i := 0 to |pool|
      invariant copies + Clamped(pool[i..]) == Clamped(pool)
      invariant customShares + CustomShares(pool[i..]) == CustomShares(pool)
      invariant Total(round, customShareRatio, Clamped(pool[i..])) == CustomRatio(round, pool)
      invariant Fits(round, customShareRatio)
    {
      TakeStep(round, pool, i, customShareRatio);
      var copy := pool[i];
      if copy.ratio != 0.0 {
        copy := copy.(ratio := Clamp(copy.ratio));
        customShareRatio := round(customShareRatio + copy.ratio);
        customShares := customShares + 1;
      }
      assert copies + ([copy] + Clamped(pool[i + 1..])) == copies + [copy] + Clamped(pool[i + 1..]);
      copies := copies + [copy];
    }
    TakeEnd(round, pool[|pool|..], customShareRatio);
    assert copies + [] == copies;
  }

  lemma TakeEnd(round: Round, rest: seq<Item>, sum: real)
    requires rest == []
    ensures Clamped(rest) == [] && CustomShares(rest) == 0 && Total(round, sum, Clamped(rest)) == sum
  {}

  lemma TakeStep(round: Round, pool: seq<Item>, i: nat, sum: real)
    requires IsRounding(round) && i < |pool| && Fits(round, sum)
    ensures var own := pool[i].ratio != 0.0;
            var copy := if own then pool[i].(ratio := Clamp(pool[i].ratio)) else pool[i];
            var next := if own then round(sum + copy.ratio) else sum;
            && Clamped(pool[i..]) == [copy] + Clamped(pool[i + 1..])
            && CustomShares(pool[i..]) == (if own then 1 else 0) + CustomShares(pool[i + 1..])
            && Total(round, sum, Clamped(pool[i..])) == Total(round, next, Clamped(pool[i + 1..]))
            && Fits(round, next)
  {
    hide IsRounding;
    assert pool[i..][1..] == pool[i + 1..];
    var copy := if pool[i].ratio != 0.0 then pool[i].(ratio := Clamp(pool[i].ratio)) else pool[i];
    RoundedFits(round, sum + copy.ratio);
    assert Clamped(pool[i..])[1..] == Clamped(pool[i + 1..]);
    assert copy.ratio == 0.0 ==> sum + copy.ratio == sum;
  }

  /** The second loop, over the entries with a share to be filled in; 0 stands for Infinity. */
  method FillIn(round: Round, pool: seq<Item>, share: real) returns (filled: seq<Item>, total: real, smallest: real)
    ensures filled == Filled(pool, share) && total == Total(round, 0.0, filled) && smallest == Smallest(filled)
  {
    filled, total, smallest := [], 0.0, 0.0;
    assert pool[0..] == pool;
    for i := 0 to |pool|
      invariant filled + Filled(pool[i..], share) == Filled(pool, share)
      invariant Total(round, total, Filled(pool[i..], share)) == Total(round, 0.0, Filled(pool, share))
      invariant Lesser(smallest, Smallest(Filled(pool[i..], share))) == Smallest(Filled(pool, share))
    {
      FillStep(round, pool, share, i, filled, total, smallest);
      hide Filled, Lesser, Smallest, Total;
      var item := pool[i];
      if item.ratio == 0.0 {
        item := item.(ratio := share);
      }
      if item.ratio != 0.0 {
        smallest := Lesser(smallest, item.ratio);
        total := round(total + item.ratio);
      }
      filled := filled + [item];
    }
    assert Filled(pool[|pool|..], share) == [] && filled + [] == filled;
    LesserAssociative(smallest, 0.0, 0.0);
  }

  lemma FillStep(round: Round, pool: seq<Item>, share: real, i: nat, filled: seq<Item>, total: real, smallest: real)
    requires i < |pool|
    ensures var item := if pool[i].ratio == 0.0 then pool[i].(ratio := share) else pool[i];
            var from, rest := Filled(pool[i..], share), Filled(pool[i + 1..], share);
            && filled + from == (filled + [item]) + rest
            && Total(round, total, from)
               == Total(round, if item.ratio != 0.0 then round(total + item.ratio) else total, rest)
            && Lesser(smallest, Smallest(from)) == Lesser(Lesser(smallest, item.ratio), Smallest(rest))
            && Lesser(smallest, 0.0) == smallest
  {
    var item := if pool[i].ratio == 0.0 then pool[i].(ratio := share) else pool[i];
    var rest := Filled(pool[i + 1..], share);
    assert pool[i..][1..] == pool[i + 1..];
    assert Filled(pool[i..], share) == [item] + rest && ([item] + rest)[1..] == rest;
    LesserAssociative(smallest, item.ratio, Smallest(rest));
  }

  /** The last loop, with its inner one. */
  method SpreadOut(round: Round, pool: seq<Item>, items: int) returns (result: seq<Item>)
    requires round(0.0) == 0.0
    ensures result == Spread(round, pool, items)
  {
    hide Spread, CopiesOf, Copies;
    result := [];
    assert pool[0..] == pool && result + Spread(round, pool, items) == Spread(round, pool, items);
    for i := 0 to |pool|
      invariant result + Spread(round, pool[i..], items) == Spread(round, pool, items)
    {
      SpreadStep(round, pool, items, i, result);
      var item := pool[i];
      if item.ratio == 0.0 {
        continue;
      }
      var copies := Copies(round, item, items);
      ghost var before := result;
      if copies != 0 {
        var c := 0;
        while c < copies
          invariant 0 <= c && (c <= copies || c == 0) && result == before + seq(c, _ => item)
        {
          result := result + [item];
          c := c + 1;
        }
      }
      CopiesIs(round, item, items);
    }
    SpreadEnd(round, pool[|pool|..], items);
    assert result + [] == result;
  }

  lemma SpreadEnd(round: Round, rest: seq<Item>, items: int)
    requires rest == []
    ensures Spread(round, rest, items) == []
  {}

  lemma CopiesIs(round: Round, item: Item, items: int)
    ensures var n := Copies(round, item, items);
            CopiesOf(round, item, items) == if n <= 0 then [] else seq(n, _ => item)
  {}

  lemma SpreadStep(round: Round, pool: seq<Item>, items: int, i: nat, before: seq<Item>)
    requires i < |pool| && round(0.0) == 0.0
    ensures before + Spread(round, pool[i..], items)
            == (before + CopiesOf(round, pool[i], items)) + Spread(round, pool[i + 1..], items)
    ensures pool[i].ratio == 0.0 ==> CopiesOf(round, pool[i], items) == [] && before + [] == before
  {
    assert pool[i..][0] == pool[i] && pool[i..][1..] == pool[i + 1..];
    var copies, rest := CopiesOf(round, pool[i], items), Spread(round, pool[i + 1..], items);
    assert Spread(round, pool[i..], items) == copies + rest;
    assert before + (copies + rest) == (before + copies) + rest;
    assert pool[i].ratio == 0.0 ==> Called(pool[i], items) == 0.0;
  }

  method DivideLoad(round: Round, pool: seq<Item>) returns (result: seq<Item>)
    requires IsRounding(round) && IsPool(round, pool)
    ensures result == Divided(round, pool)
  {
    hide IsRounding, Spread, Clamped, Filled, Total, Smallest;
    ItemsPositive(round, pool);
    RoundedFits(round, 0.0);
    var copies, customShares, customShareRatio := TakeOwnRatios(round, pool);
    var totalItems := 0;
    if |pool| > customShares {
      var shareable := round(1.0 - if customShareRatio < 1.0 then customShareRatio else 1.0);
      var total, smallest;
      copies, total, smallest := FillIn(round, copies, round(shareable / (|pool| - customShares) as real));
      totalItems := Ceil(round(total / smallest));
    }
    result := SpreadOut(round, copies, totalItems);
  }
}
