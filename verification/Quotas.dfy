/** Splitting a target number of rows over categories: a minimum for each, the rest in
    proportion to weights, capped by what each category has, leftovers to the largest
    remainders. Weights and shares are exact reals. */
module Quotas {
  import opened Sorting
  import opened TextOrder
  import opened Wrappers

  datatype QuotaError = NotEnoughRecords | WrongSum

  datatype Allocation = Allocation(remainder: real, key: string, take: nat)

  /** The weight of a category that still has `room` rows to give. */
  type Weigher = (string, nat) -> real

  ghost predicate Positive(weight: Weigher) {
    forall k, n: nat :: n > 0 ==> weight(k, n) > 0.0
  }

  ghost predicate Distinct(keys: seq<string>) {
    forall i, j :: 0 <= i < j < |keys| ==> keys[i] != keys[j]
  }

  /** The categories in dictionary order, with one entry each in both tables, no quota
      above its count. */
  ghost predicate Tables(keys: seq<string>, counts: map<string, nat>, quotas: map<string, nat>) {
    && Distinct(keys)
    && (forall k :: k in keys <==> k in counts) && counts.Keys == quotas.Keys
    && forall k :: k in counts ==> quotas[k] <= counts[k]
  }

  function Sum(keys: seq<string>, m: map<string, nat>): nat
    requires forall k :: k in keys ==> k in m
  {
    if keys == [] then 0 else Sum(keys[..|keys| - 1], m) + m[keys[|keys| - 1]]
  }

  function Min(a: nat, b: nat): nat {
    if a < b then a else b
  }

  // ---------------------------------------------------------------- sums

  lemma {:induction false} SumFrame(keys: seq<string>, m: map<string, nat>, n: map<string, nat>)
    requires forall k :: k in keys ==> k in m && k in n && m[k] == n[k]
    ensures Sum(keys, m) == Sum(keys, n)
  {
    if keys != [] {
      SumFrame(keys[..|keys| - 1], m, n);
    }
  }

  lemma {:induction false} SumUpdate(keys: seq<string>, m: map<string, nat>, k: string, v: nat)
    requires Distinct(keys) && k in keys && forall x :: x in keys ==> x in m
    ensures Sum(keys, m[k := v]) == Sum(keys, m) - m[k] + v
  {
    var n := |keys| - 1;
    if keys[n] == k {
      SumFrame(keys[..n], m, m[k := v]);
    } else {
      assert k in keys[..n];
      SumUpdate(keys[..n], m, k, v);
    }
  }

  lemma {:induction false} SumBelow(keys: seq<string>, m: map<string, nat>, n: map<string, nat>)
    requires forall k :: k in keys ==> k in m && k in n && m[k] <= n[k]
    ensures Sum(keys, m) <= Sum(keys, n)
    ensures Sum(keys, m) < Sum(keys, n) ==> exists k :: k in keys && m[k] < n[k]
    ensures Sum(keys, m) == Sum(keys, n) ==> forall k :: k in keys ==> m[k] == n[k]
  {
    if keys != [] {
      SumBelow(keys[..|keys| - 1], m, n);
      assert keys[|keys| - 1] in keys;
    }
  }

  // ---------------------------------------------------------------- one round of shares

  function OpenKeys(keys: seq<string>, counts: map<string, nat>, quotas: map<string, nat>): (r: seq<string>)
    requires forall k :: k in keys ==> k in counts && k in quotas
    ensures forall k :: k in r <==> k in keys && quotas[k] < counts[k]
  {
    if keys == [] then []
    else
      var k := keys[|keys| - 1];
      var before := OpenKeys(keys[..|keys| - 1], counts, quotas);
      if quotas[k] < counts[k] then before + [k] else before
  }

  lemma {:induction false} OpenKeysDistinct(keys: seq<string>, counts: map<string, nat>, quotas: map<string, nat>)
    requires Distinct(keys) && forall k :: k in keys ==> k in counts && k in quotas
    ensures Distinct(OpenKeys(keys, counts, quotas))
    ensures |OpenKeys(keys, counts, quotas)| <= |keys|
  {
    if keys != [] {
      var n := |keys| - 1;
      OpenKeysDistinct(keys[..n], counts, quotas);
      assert keys[n] !in keys[..n];
    }
  }

  function Room(counts: map<string, nat>, quotas: map<string, nat>, k: string): nat
    requires k in counts && k in quotas && quotas[k] <= counts[k]
  {
    counts[k] - quotas[k]
  }

  /** What one round needs to know about the categories that are still open. */
  datatype Shares = Shares(open: seq<string>, rooms: seq<nat>, weights: seq<real>, remaining: nat) {
    ghost predicate Valid() {
      && |open| == |rooms| == |weights| && open != [] && Distinct(open)
      && (forall i :: 0 <= i < |open| ==> rooms[i] > 0 && weights[i] > 0.0)
    }

    function TotalTo(i: nat): real
      requires i <= |weights|
    {
      if i == 0 then 0.0 else TotalTo(i - 1) + weights[i - 1]
    }

    lemma {:induction false} TotalPositive(i: nat)
      requires Valid() && i <= |weights|
      ensures TotalTo(i) >= 0.0 && (i > 0 ==> TotalTo(i) > 0.0)
    {
      if i > 0 {
        TotalPositive(i - 1);
      }
    }

    function Exact(i: nat): real
      requires Valid() && i < |open|
    {
      TotalPositive(|weights|);
      remaining as real * weights[i] / TotalTo(|weights|)
    }

    function Take(i: nat): (t: nat)
      requires Valid() && i < |open|
      ensures t <= rooms[i] && t as real <= Exact(i)
      ensures t < rooms[i] ==> Exact(i) < t as real + 1.0
    {
      TotalPositive(|weights|);
      assert Exact(i) >= 0.0 by { ShareNonNegative(remaining as real, weights[i], TotalTo(|weights|)); }
      Min(rooms[i], Exact(i).Floor)
    }

    function TakenTo(i: nat): nat
      requires Valid() && i <= |open|
    {
      if i == 0 then 0 else TakenTo(i - 1) + Take(i - 1)
    }

    function ExactTo(i: nat): real
      requires Valid() && i <= |open|
    {
      if i == 0 then 0.0 else ExactTo(i - 1) + Exact(i - 1)
    }

    /** The exact shares add up to what remains. */
    lemma ExactSharesAddUp()
      requires Valid()
      ensures ExactTo(|open|) == remaining as real
    {
      var total := TotalTo(|weights|);
      TotalPositive(|weights|);
      ExactInProportion(|open|, total);
      CancelFactor(ExactTo(|open|), remaining as real, total);
    }

    lemma {:induction false} ExactInProportion(i: nat, total: real)
      requires Valid() && i <= |open| && total == TotalTo(|weights|)
      ensures ExactTo(i) * total == remaining as real * TotalTo(i)
    {
      TotalPositive(|weights|);
      if i > 0 {
        ExactInProportion(i - 1, total);
        ScaledShare(remaining as real, weights[i - 1], total);
        assert Exact(i - 1) * total == remaining as real * weights[i - 1];
        hide Exact;
        AddProportions(ExactTo(i - 1), Exact(i - 1), total, remaining as real, TotalTo(i - 1), weights[i - 1]);
      }
    }

    /** What was taken falls short of the exact shares by the remainders, each of them not
        negative, and below one unless the category is used up. */
    lemma {:induction false} TakenNearShare(i: nat)
      requires Valid() && i <= |open|
      ensures TakenTo(i) as real <= ExactTo(i)
      ensures i > 0 && (forall j :: 0 <= j < i ==> Take(j) < rooms[j]) ==> ExactTo(i) < (TakenTo(i) + i) as real
    {
      if i > 1 {
        TakenNearShare(i - 1);
      }
    }

    /** A round hands out no more than remains, and unless it uses some category up it
        leaves fewer than one unit per open category. */
    lemma RoundBounds()
      requires Valid()
      ensures TakenTo(|open|) <= remaining
      ensures (forall j :: 0 <= j < |open| ==> Take(j) < rooms[j]) ==> remaining - TakenTo(|open|) < |open|
    {
      TakenNearShare(|open|);
      ExactSharesAddUp();
    }
  }

  lemma ShareNonNegative(r: real, w: real, t: real)
    requires r >= 0.0 && w > 0.0 && t > 0.0
    ensures r * w / t >= 0.0
  {
    assert r * w >= 0.0;
  }

  lemma ScaledShare(r: real, w: real, t: real)
    requires t > 0.0
    ensures (r * w / t) * t == r * w
  {
  }

  lemma CancelFactor(a: real, b: real, t: real)
    requires t > 0.0 && a * t == b * t
    ensures a == b
  {
    assert (a - b) * t == 0.0;
  }

  lemma AddProportions(a: real, x: real, t: real, r: real, b: real, w: real)
    requires a * t == r * b && x * t == r * w
    ensures (a + x) * t == r * (b + w)
  {
  }

  // ---------------------------------------------------------------- who gets the leftovers

  /** Falling order of (remainder, key, take). */
  predicate Precedes(a: Allocation, b: Allocation) {
    if a.remainder != b.remainder then a.remainder > b.remainder
    else if a.key != b.key then LexLe(b.key, a.key)
    else a.take >= b.take
  }

  lemma PrecedesOrders()
    ensures TotalPreorder(Precedes)
  {
    forall a, b
      ensures Precedes(a, b) || Precedes(b, a)
    {
      LexTotal(a.key, b.key);
    }
    forall a, b, c | Precedes(a, b) && Precedes(b, c)
      ensures Precedes(a, c)
    {
      if a.key != b.key && b.key != c.key && a.remainder == b.remainder && b.remainder == c.remainder {
        LexTransitive(c.key, b.key, a.key);
        if a.key == c.key {
          LexAntisymmetric(a.key, b.key);
        }
      }
    }
  }

  /** Allocations for different categories, none beyond its room. */
  ghost predicate Fitting(counts: map<string, nat>, quotas: map<string, nat>, allocations: seq<Allocation>) {
    && DifferentKeys(allocations)
    && forall a :: a in allocations ==>
         a.key in counts && a.key in quotas && quotas[a.key] + a.take <= counts[a.key]
  }

  ghost predicate DifferentKeys(allocations: seq<Allocation>) {
    forall i, j :: 0 <= i < j < |allocations| ==> allocations[i].key != allocations[j].key
  }

  /** Every open category gets its whole share, or all it has, and at most one unit more;
      no category that could take one more goes without while a category of a smaller
      remainder, or of an equal one and a smaller key, gets one. */
  ghost predicate FairRound(allocations: seq<Allocation>, counts: map<string, nat>, quotas: map<string, nat>,
                            next: map<string, nat>)
    requires Fitting(counts, quotas, allocations) && next.Keys == quotas.Keys
  {
    && (forall a :: a in allocations ==>
          next[a.key] == quotas[a.key] + a.take || next[a.key] == quotas[a.key] + a.take + 1)
    && (forall a, b | a in allocations && b in allocations ::
          next[a.key] == quotas[a.key] + a.take < counts[a.key] && next[b.key] == quotas[b.key] + b.take + 1
          ==> b.remainder > a.remainder || (b.remainder == a.remainder && LexLe(a.key, b.key)))
  }

  ghost predicate SharesOf(sh: Shares, keys: seq<string>, counts: map<string, nat>, quotas: map<string, nat>,
      weight: Weigher)
    requires Tables(keys, counts, quotas)
  {
    && sh.open == OpenKeys(keys, counts, quotas)
    && |sh.rooms| == |sh.weights| == |sh.open|
    && forall i :: 0 <= i < |sh.open| ==>
         sh.rooms[i] == Room(counts, quotas, sh.open[i]) && sh.weights[i] == weight(sh.open[i], sh.rooms[i])
  }

  method OpenShares(keys: seq<string>, counts: map<string, nat>, quotas: map<string, nat>, remaining: nat,
      weight: Weigher)
    returns (sh: Shares)
    requires Tables(keys, counts, quotas) && Positive(weight)
    requires Sum(keys, quotas) < Sum(keys, counts)
    ensures SharesOf(sh, keys, counts, quotas, weight) && sh.remaining == remaining && sh.Valid()
  {
    var open := OpenKeys(keys, counts, quotas);
    OpenKeysDistinct(keys, counts, quotas);
    SumBelow(keys, quotas, counts);
    var rooms: seq<nat> := [];
    var weights: seq<real> := [];
    for i := 0 to |open|
      invariant |rooms| == |weights| == i
      invariant forall j :: 0 <= j < i ==>
                  rooms[j] == Room(counts, quotas, open[j]) && weights[j] == weight(open[j], rooms[j])
    {
      assert open[i] in open;
      rooms := rooms + [Room(counts, quotas, open[i])];
      weights := weights + [weight(open[i], rooms[i])];
    }
    sh := Shares(open, rooms, weights, remaining);
  }

  lemma GrantOne(keys: seq<string>, counts: map<string, nat>, quotas: map<string, nat>, key: string, extra: nat)
    requires Tables(keys, counts, quotas) && key in counts && quotas[key] + extra <= counts[key]
    ensures Tables(keys, counts, quotas[key := quotas[key] + extra])
    ensures Sum(keys, quotas[key := quotas[key] + extra]) == Sum(keys, quotas) + extra
  {
    SumUpdate(keys, quotas, key, quotas[key] + extra);
  }

  ghost predicate AllocationsOf(sh: Shares, allocations: seq<Allocation>)
    requires sh.Valid()
  {
    |allocations| == |sh.open| && forall i :: 0 <= i < |sh.open| ==> AllocationOf(sh, i, allocations[i])
  }

  /** The whole part of the exact share, capped by the room, and what it leaves of it. */
  ghost predicate AllocationOf(sh: Shares, i: nat, a: Allocation)
    requires sh.Valid() && i < |sh.open|
  {
    a.key == sh.open[i] && a.take == sh.Take(i) && a.remainder == sh.Exact(i) - a.take as real
  }

  /** Works out every open category's whole share. */
  method ShareOut(sh: Shares) returns (allocations: seq<Allocation>, granted: nat)
    requires sh.Valid()
    ensures AllocationsOf(sh, allocations)
    ensures granted == sh.TakenTo(|sh.open|)
  {
    var total := 0.0;
    for i := 0 to |sh.weights|
      invariant total == sh.TotalTo(i)
    {
      total := total + sh.weights[i];
    }
    allocations, granted := [], 0;
    for i := 0 to |sh.open|
      invariant |allocations| == i && granted == sh.TakenTo(i)
      invariant forall j :: 0 <= j < i ==> AllocationOf(sh, j, allocations[j])
    {
      var allocation := Share(sh, i, total);
      allocations := allocations + [allocation];
      granted := granted + allocation.take;
    }
  }

  method Share(sh: Shares, i: nat, total: real) returns (a: Allocation)
    requires sh.Valid() && i < |sh.open| && total == sh.TotalTo(|sh.weights|)
    ensures AllocationOf(sh, i, a)
  {
    sh.TotalPositive(|sh.weights|);
    var exact := sh.remaining as real * sh.weights[i] / total;
    assert exact == sh.Exact(i);
    var take := Min(sh.rooms[i], exact.Floor);
    assert take == sh.Take(i);
    a := Allocation(exact - take as real, sh.open[i], take);
  }

  function TakesTo(allocations: seq<Allocation>, i: nat): nat
    requires i <= |allocations|
  {
    if i == 0 then 0 else TakesTo(allocations, i - 1) + allocations[i - 1].take
  }

  method Grant(ghost keys: seq<string>, ghost counts: map<string, nat>, quotas: map<string, nat>,
      allocations: seq<Allocation>)
    returns (next: map<string, nat>)
    requires Tables(keys, counts, quotas) && Fitting(counts, quotas, allocations)
    ensures Tables(keys, counts, next)
    ensures forall a :: a in allocations ==> next[a.key] == quotas[a.key] + a.take
    ensures forall k :: k in quotas ==> quotas[k] <= next[k]
    ensures Sum(keys, next) == Sum(keys, quotas) + TakesTo(allocations, |allocations|)
  {
    hide Sum, Distinct;
    next := quotas;
    for i := 0 to |allocations|
      invariant Tables(keys, counts, next)
      invariant forall j :: 0 <= j < i ==> next[allocations[j].key] == quotas[allocations[j].key] + allocations[j].take
      invariant forall j :: i <= j < |allocations| ==> next[allocations[j].key] == quotas[allocations[j].key]
      invariant forall k :: k in quotas ==> quotas[k] <= next[k]
      invariant Sum(keys, next) == Sum(keys, quotas) + TakesTo(allocations, i)
    {
      var key, take := allocations[i].key, allocations[i].take;
      GrantOne(keys, counts, next, key, take);
      next := next[key := next[key] + take];
    }
  }

  /** One more unit each, in the given order, while any are left and the category has room. */
  method GrantLeftovers(ghost keys: seq<string>, counts: map<string, nat>, quotas: map<string, nat>,
                        remaining: nat, ranked: seq<Allocation>)
    returns (next: map<string, nat>, left: nat)
    requires Tables(keys, counts, quotas) && DifferentKeys(ranked)
    requires forall a :: a in ranked ==> a.key in counts
    ensures Tables(keys, counts, next)
    ensures Sum(keys, next) + left == Sum(keys, quotas) + remaining
    ensures forall k :: k in quotas ==> next[k] == quotas[k] || next[k] == quotas[k] + 1
    ensures left > 0 ==> LeftoversTaken(ranked, counts, quotas, next)
    ensures left > 0 ==> (exists a :: a in ranked && quotas[a.key] == counts[a.key]) || left + |ranked| == remaining
    ensures forall i, j :: 0 <= i < j < |ranked| && next[ranked[j].key] > quotas[ranked[j].key] ==>
              next[ranked[i].key] > quotas[ranked[i].key] || next[ranked[i].key] == counts[ranked[i].key]
  {
    hide Sum, Distinct;
    next, left := quotas, remaining;
    var i := 0;
    while i < |ranked| && left > 0
      invariant 0 <= i <= |ranked| && Tables(keys, counts, next)
      invariant Sum(keys, next) + left == Sum(keys, quotas) + remaining
      invariant forall j :: i <= j < |ranked| ==> next[ranked[j].key] == quotas[ranked[j].key]
      invariant forall j :: 0 <= j < i ==>
                  next[ranked[j].key] ==
                  (if quotas[ranked[j].key] < counts[ranked[j].key]
                   then quotas[ranked[j].key] + 1 else counts[ranked[j].key])
      invariant (exists a :: a in ranked && quotas[a.key] == counts[a.key]) || left + i == remaining
      invariant forall k :: k in quotas ==> next[k] == quotas[k] || next[k] == quotas[k] + 1
    {
      var key := ranked[i].key;
      assert ranked[i] in ranked;
      if next[key] < counts[key] {
        GrantOne(keys, counts, next, key, 1);
        next := next[key := next[key] + 1];
        left := left - 1;
      }
      i := i + 1;
    }
  }

  /** The allocations of a round in falling order of their remainders. */
  lemma RankedAllocations(allocations: seq<Allocation>, ranked: seq<Allocation>)
    requires DifferentKeys(allocations) && ranked == Sort(allocations, Precedes)
    ensures |ranked| == |allocations| && Sorted(ranked, Precedes)
    ensures forall a :: a in ranked <==> a in allocations
    ensures DifferentKeys(ranked)
  {
    PrecedesOrders();
    SortSorts(allocations, Precedes);
    SortPermutes(allocations, Precedes);
    forall a
      ensures a in ranked <==> a in allocations
    {
      assert a in multiset(ranked) <==> a in multiset(allocations);
    }
    RearrangedDistinct(allocations, ranked, (a: Allocation) => a.key);
  }

  lemma {:induction false} TakesAgree(sh: Shares, allocations: seq<Allocation>, i: nat)
    requires sh.Valid() && AllocationsOf(sh, allocations) && i <= |sh.open|
    ensures TakesTo(allocations, i) == sh.TakenTo(i)
  {
    if i > 0 {
      TakesAgree(sh, allocations, i - 1);
    }
  }

  /** What a round knows of its allocations once the shares are worked out: they fit, all
      their categories are open, and unless one of them is used up, less than one unit per
      category is left over. */
  ghost predicate Proposal(allocations: seq<Allocation>, counts: map<string, nat>, quotas: map<string, nat>,
                                 remaining: nat)
  {
    && Fitting(counts, quotas, allocations)
    && (forall a :: a in allocations ==> quotas[a.key] < counts[a.key])
    && TakesTo(allocations, |allocations|) <= remaining
    && ((forall a :: a in allocations ==> quotas[a.key] + a.take < counts[a.key]) ==>
          remaining - TakesTo(allocations, |allocations|) < |allocations|)
  }

  lemma SharesPropose(sh: Shares, allocations: seq<Allocation>, keys: seq<string>, counts: map<string, nat>,
                      quotas: map<string, nat>, weight: Weigher)
    requires Tables(keys, counts, quotas) && sh.Valid() && SharesOf(sh, keys, counts, quotas, weight)
    requires AllocationsOf(sh, allocations)
    ensures Proposal(allocations, counts, quotas, sh.remaining)
  {
    TakesAgree(sh, allocations, |allocations|);
    forall i | 0 <= i < |allocations|
      ensures allocations[i].key == sh.open[i] && allocations[i].take == sh.Take(i)
      ensures sh.open[i] in keys && quotas[sh.open[i]] + sh.rooms[i] == counts[sh.open[i]]
    {
      assert sh.open[i] in sh.open;
      assert AllocationOf(sh, i, allocations[i]);
    }
    if forall a :: a in allocations ==> quotas[a.key] + a.take < counts[a.key] {
      forall j | 0 <= j < |sh.open|
        ensures sh.Take(j) < sh.rooms[j]
      {
        assert allocations[j] in allocations;
      }
    }
    sh.RoundBounds();
  }

  ghost predicate LeftoversTaken(ranked: seq<Allocation>, counts: map<string, nat>, mid: map<string, nat>,
                                 next: map<string, nat>)
  {
    forall a :: a in ranked ==>
      a.key in counts && a.key in mid && a.key in next
      && next[a.key] == if mid[a.key] < counts[a.key] then mid[a.key] + 1 else counts[a.key]
  }

  /** After a round that leaves something over, some open category has become full. */
  lemma SomeoneFilled(allocations: seq<Allocation>, counts: map<string, nat>, quotas: map<string, nat>,
                      mid: map<string, nat>, next: map<string, nat>, remaining: nat, left: nat)
    requires Proposal(allocations, counts, quotas, remaining)
    requires LeftoversTaken(allocations, counts, mid, next)
    requires forall a :: a in allocations ==> mid[a.key] == quotas[a.key] + a.take
    requires (exists a :: a in allocations && mid[a.key] == counts[a.key])
             || left + |allocations| == remaining - TakesTo(allocations, |allocations|)
    ensures exists k :: k in counts && k in quotas && k in next && quotas[k] < counts[k] && next[k] == counts[k]
  {
    var a :| a in allocations && mid[a.key] == counts[a.key];
    assert next[a.key] == counts[a.key];
  }

  lemma RoundIsFair(allocations: seq<Allocation>, counts: map<string, nat>, quotas: map<string, nat>,
                    mid: map<string, nat>, next: map<string, nat>, ranked: seq<Allocation>)
    requires Fitting(counts, quotas, allocations) && ranked == Sort(allocations, Precedes)
    requires quotas.Keys == mid.Keys == next.Keys
    requires forall a :: a in allocations ==> mid[a.key] == quotas[a.key] + a.take
    requires forall k :: k in mid ==> next[k] == mid[k] || next[k] == mid[k] + 1
    requires forall a :: a in ranked ==> a.key in counts && a.key in mid
    requires forall i, j :: 0 <= i < j < |ranked| && next[ranked[j].key] > mid[ranked[j].key] ==>
               next[ranked[i].key] > mid[ranked[i].key] || next[ranked[i].key] == counts[ranked[i].key]
    ensures FairRound(allocations, counts, quotas, next)
  {
    RankedAllocations(allocations, ranked);
    forall a, b | a in allocations && b in allocations
                  && next[a.key] == quotas[a.key] + a.take < counts[a.key]
                  && next[b.key] == quotas[b.key] + b.take + 1
      ensures b.remainder > a.remainder || (b.remainder == a.remainder && LexLe(a.key, b.key))
    {
      var p :| 0 <= p < |ranked| && ranked[p] == a;
      var q :| 0 <= q < |ranked| && ranked[q] == b;
      assert !(p < q) && p != q;
      assert Precedes(b, a);
      LexTotal(a.key, b.key);
    }
  }

  /** One round of the allocation loop. */
  method Round(keys: seq<string>, counts: map<string, nat>, quotas: map<string, nat>, remaining: nat, weight: Weigher)
    returns (next: map<string, nat>, left: nat)
    requires Tables(keys, counts, quotas) && Positive(weight)
    requires remaining > 0 && Sum(keys, quotas) + remaining <= Sum(keys, counts)
    ensures Tables(keys, counts, next)
    ensures Sum(keys, next) + left == Sum(keys, quotas) + remaining
    ensures forall k :: k in quotas ==> quotas[k] <= next[k]
    ensures left > 0 ==> exists k :: k in counts && quotas[k] < counts[k] && next[k] == counts[k]
    ensures IsRound(keys, counts, weight, quotas, remaining, next)
  {
    hide Sum, SharesOf, AllocationsOf, Distinct, FairRound;
    var shares := OpenShares(keys, counts, quotas, remaining, weight);
    var allocations, granted := ShareOut(shares);
    SharesPropose(shares, allocations, keys, counts, quotas, weight);
    TakesAgree(shares, allocations, |allocations|);
    next, left := Distribute(keys, counts, quotas, remaining, allocations, granted);
  }

  /** `next` is what one fair round over the open categories makes of `quotas`. */
  ghost predicate IsRound(keys: seq<string>, counts: map<string, nat>, weight: Weigher, quotas: map<string, nat>,
                          remaining: nat, next: map<string, nat>)
    requires Tables(keys, counts, quotas) && Tables(keys, counts, next)
  {
    exists sh: Shares, proposed: seq<Allocation> ::
      && SharesOf(sh, keys, counts, quotas, weight) && sh.remaining == remaining && sh.Valid()
      && AllocationsOf(sh, proposed) && Fitting(counts, quotas, proposed) && FairRound(proposed, counts, quotas, next)
  }

  /** The quotas after each round, from `start` to `end`: every round shares out what the
      one before left over. */
  ghost predicate Rounds(trail: seq<map<string, nat>>, keys: seq<string>, counts: map<string, nat>, weight: Weigher,
                         target: nat, start: map<string, nat>, end: map<string, nat>)
  {
    && trail != [] && trail[0] == start && trail[|trail| - 1] == end
    && (forall i :: 0 <= i < |trail| ==> Tables(keys, counts, trail[i]))
    && forall i :: 0 <= i < |trail| - 1 ==>
         && Sum(keys, trail[i]) < target
         && IsRound(keys, counts, weight, trail[i], target - Sum(keys, trail[i]), trail[i + 1])
  }

  lemma RoundsNext(trail: seq<map<string, nat>>, keys: seq<string>, counts: map<string, nat>, weight: Weigher,
                   target: nat, start: map<string, nat>, end: map<string, nat>, next: map<string, nat>)
    requires Rounds(trail, keys, counts, weight, target, start, end)
    requires Tables(keys, counts, end) && Tables(keys, counts, next)
    requires Sum(keys, end) < target && IsRound(keys, counts, weight, end, target - Sum(keys, end), next)
    ensures Rounds(trail + [next], keys, counts, weight, target, start, next)
  {
    hide IsRound, Tables, Sum;
    var longer := trail + [next];
    assert forall i :: 0 <= i < |trail| ==> longer[i] == trail[i];
  }

  lemma NoRounds(start: map<string, nat>, keys: seq<string>, counts: map<string, nat>, weight: Weigher, target: nat)
    requires Tables(keys, counts, start)
    ensures Rounds([start], keys, counts, weight, target, start, start)
  {
  }

  /** Applies the allocations of a round, then its leftovers. */
  method Distribute(ghost keys: seq<string>, counts: map<string, nat>, quotas: map<string, nat>, remaining: nat,
                    allocations: seq<Allocation>, granted: nat)
    returns (next: map<string, nat>, left: nat)
    requires Tables(keys, counts, quotas) && Proposal(allocations, counts, quotas, remaining)
    requires granted == TakesTo(allocations, |allocations|)
    ensures Tables(keys, counts, next)
    ensures Sum(keys, next) + left == Sum(keys, quotas) + remaining
    ensures forall k :: k in quotas ==> quotas[k] <= next[k]
    ensures left > 0 ==> exists k :: k in counts && quotas[k] < counts[k] && next[k] == counts[k]
    ensures FairRound(allocations, counts, quotas, next)
  {
    hide Sum, Distinct, Sort, Precedes;
    var mid := Grant(keys, counts, quotas, allocations);
    next, left := mid, remaining - granted;
    if left > 0 {
      var ranked := Sort(allocations, Precedes);
      RankedAllocations(allocations, ranked);
      next, left := GrantLeftovers(keys, counts, mid, left, ranked);
      if left > 0 {
        SomeoneFilled(allocations, counts, quotas, mid, next, remaining, left);
      }
      RoundIsFair(allocations, counts, quotas, mid, next, ranked);
    }
  }

  // ---------------------------------------------------------------- the allocator

  function EligibleKeys(order: seq<string>, counts: map<string, int>): seq<string>
    requires forall k :: k in order ==> k in counts
  {
    if order == [] then []
    else
      var before := EligibleKeys(order[..|order| - 1], counts);
      if counts[order[|order| - 1]] > 0 then before + [order[|order| - 1]] else before
  }

  function Eligible(counts: map<string, int>): map<string, nat> {
    map k | k in counts && counts[k] > 0 :: counts[k]
  }

  const FLOOR: nat := 5

  function Minimums(eligible: map<string, nat>): map<string, nat> {
    map k | k in eligible :: Min(eligible[k], FLOOR)
  }

  function Zeros(eligible: map<string, nat>): map<string, nat> {
    map k | k in eligible :: 0
  }

  ghost function AtMost(m: map<string, nat>, n: nat): (r: map<string, nat>)
    ensures r.Keys == m.Keys && forall k :: k in m ==> r[k] == if m[k] < n then m[k] else n
  {
    map k | k in m :: Min(m[k], n)
  }

  /** The quotas before the first round: five each or all there is, none if that is too much. */
  ghost function Beginning(keys: seq<string>, eligible: map<string, nat>, target: int): map<string, nat>
    requires forall k :: k in keys ==> k in eligible
  {
    if Sum(keys, AtMost(eligible, 5)) > target then AtMost(eligible, 0) else AtMost(eligible, 5)
  }

  lemma {:induction false} EligibleKeysMeaning(order: seq<string>, counts: map<string, int>)
    requires Distinct(order) && forall k :: k in order ==> k in counts
    ensures Distinct(EligibleKeys(order, counts))
    ensures forall k :: k in EligibleKeys(order, counts) <==> k in order && counts[k] > 0
  {
    if order != [] {
      var n := |order| - 1;
      EligibleKeysMeaning(order[..n], counts);
      assert order[n] !in order[..n];
    }
  }

  lemma {:induction false} SumZero(keys: seq<string>, m: map<string, nat>)
    requires forall k :: k in keys ==> k in m && m[k] == 0
    ensures Sum(keys, m) == 0
  {
    if keys != [] {
      SumZero(keys[..|keys| - 1], m);
    }
  }

  /** Filling a category that was open leaves fewer open. */
  lemma FewerOpen(keys: seq<string>, counts: map<string, nat>, quotas: map<string, nat>, next: map<string, nat>,
      k: string)
    requires Tables(keys, counts, quotas) && Tables(keys, counts, next)
    requires forall x :: x in quotas ==> quotas[x] <= next[x]
    requires k in keys && quotas[k] < counts[k] && next[k] == counts[k]
    ensures |OpenSet(counts, next)| < |OpenSet(counts, quotas)|
  {
    var before, after := OpenSet(counts, quotas), OpenSet(counts, next);
    assert after <= before - {k};
    ProperSubset(after, before, k);
  }

  lemma ProperSubset(s: set<string>, t: set<string>, k: string)
    requires s <= t && k in t && k !in s
    ensures |s| < |t|
  {
    assert t == s + (t - s) && k in t - s;
  }

  function OpenSet(counts: map<string, nat>, quotas: map<string, nat>): set<string> {
    set k | k in counts && k in quotas && quotas[k] < counts[k]
  }

  lemma {:induction false} KeysFit(keys: seq<string>, s: set<string>)
    requires Distinct(keys) && forall k :: k in s ==> k in keys
    ensures |s| <= |keys|
  {
    if keys == [] {
      assert s == {};
    } else {
      var last := keys[|keys| - 1];
      KeysFit(keys[..|keys| - 1], s - {last});
    }
  }

  /** The allocation loop: every round either finishes or fills a category. */
  method FillUp(keys: seq<string>, counts: map<string, nat>, start: map<string, nat>, target: nat, weight: Weigher)
    returns (quotas: map<string, nat>, ghost trail: seq<map<string, nat>>)
    requires Tables(keys, counts, start) && Positive(weight)
    requires Sum(keys, start) <= target <= Sum(keys, counts)
    ensures Tables(keys, counts, quotas) && Sum(keys, quotas) == target
    ensures forall k :: k in start ==> start[k] <= quotas[k]
    ensures Rounds(trail, keys, counts, weight, target, start, quotas) && |trail| <= |keys| + 1
  {
    quotas, trail := start, [start];
    NoRounds(start, keys, counts, weight, target);
    var remaining := target - Sum(keys, quotas);
    KeysFit(keys, OpenSet(counts, quotas));
    hide Sum, Distinct, OpenSet, Rounds, IsRound, Positive;
    while remaining > 0
      invariant Tables(keys, counts, quotas)
      invariant remaining == target - Sum(keys, quotas) >= 0
      invariant forall k :: k in start ==> start[k] <= quotas[k]
      invariant Rounds(trail, keys, counts, weight, target, start, quotas)
      invariant |trail| - 1 + |OpenSet(counts, quotas)| <= |keys|
      decreases |OpenSet(counts, quotas)|, remaining
    {
      ghost var before := quotas;
      SomeOpen(keys, counts, quotas);
      quotas, remaining := Round(keys, counts, quotas, remaining, weight);
      RoundsNext(trail, keys, counts, weight, target, start, before, quotas);
      trail := trail + [quotas];
      if remaining == 0 {
        return;
      }
      ghost var k :| k in counts && before[k] < counts[k] && quotas[k] == counts[k];
      FewerOpen(keys, counts, before, quotas, k);
    }
  }

  lemma SomeOpen(keys: seq<string>, counts: map<string, nat>, quotas: map<string, nat>)
    requires Tables(keys, counts, quotas) && Sum(keys, quotas) < Sum(keys, counts)
    ensures |OpenSet(counts, quotas)| > 0
  {
    SumBelow(keys, quotas, counts);
    var k :| k in keys && quotas[k] < counts[k];
    assert k in OpenSet(counts, quotas);
  }

  /** Quotas add up to the target, none above its count and none below the common minimum
      when those minimums fit; the last check never fails for a target of zero or more, and
      no more rounds are needed than there are categories. */
  method AllocateQuotas(order: seq<string>, counts: map<string, int>, target: int, weight: Weigher)
    returns (r: Result<map<string, nat>, QuotaError>, ghost trail: seq<map<string, nat>>)
    requires Distinct(order) && (forall k :: k in order <==> k in counts) && Positive(weight)
    ensures var keys, eligible := EligibleKeys(order, counts), Eligible(counts);
            && (forall k :: k in keys <==> k in eligible)
            && (r == Err(NotEnoughRecords) <==> Sum(keys, eligible) < target)
            && (r == Err(WrongSum) <==> target < 0)
            && (r.Ok? ==>
                  && Tables(keys, eligible, r.value)
                  && Sum(keys, r.value) == target
                  && (Sum(keys, AtMost(eligible, 5)) <= target ==>
                        forall k :: k in eligible ==> r.value[k] >= (if eligible[k] < 5 then eligible[k] else 5)))
    ensures r.Ok? ==>
              && (forall k :: k in r.value <==> k in counts && counts[k] > 0)
              && (forall k :: k in r.value ==> r.value[k] <= counts[k])
    ensures r.Ok? ==>
              var keys, eligible := EligibleKeys(order, counts), Eligible(counts);
              && |trail| <= |keys| + 1
              && Rounds(trail, keys, eligible, weight, target, Beginning(keys, eligible, target), r.value)
  {
    hide Sum, Distinct, EligibleKeys, Positive, Rounds;
    trail := [];
    var keys := EligibleKeys(order, counts);
    var eligible := Eligible(counts);
    EligibleKeysMeaning(order, counts);
    assert forall k :: k in keys <==> k in eligible;
    if Sum(keys, eligible) < target {
      return Err(NotEnoughRecords), trail;
    }
    var quotas := Minimums(eligible);
    assert quotas == AtMost(eligible, 5) && Zeros(eligible) == AtMost(eligible, 0);
    if Sum(keys, quotas) > target {
      quotas := Zeros(eligible);
      SumZero(keys, quotas);
    }
    trail := [quotas];
    if target >= 0 {
      NoRounds(quotas, keys, eligible, weight, target);
    }
    if target > Sum(keys, quotas) {
      quotas, trail := FillUp(keys, eligible, quotas, target, weight);
    }
    if Sum(keys, quotas) != target {
      return Err(WrongSum), trail;
    }
    return Ok(quotas), trail;
  }
}
