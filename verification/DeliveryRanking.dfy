/** One-day delivery search: the best offer and stock line per product, two re-scoring
    passes, and the final order. */
module DeliveryRanking {
  import opened Sorting
  import opened TextOrder
  import opened Scores
  import opened Wrappers

  datatype Location = Location(dailyCapacity: int, committedLoad: int, handlingHours: real, distanceKm: real) {
    /** Distances and handling times are never negative. */
    ghost predicate Valid() {
      handlingHours >= 0.0 && distanceKm >= 0.0
    }
  }

  datatype Stock = Stock(locationId: string, active: bool, quantity: int)

  datatype Offer = Offer(productId: string, inventory: seq<Stock>, ageApplicable: bool, fitApplicable: bool)

  /** Profile signals that the request carries. */
  datatype Signals = Signals(age: bool, height: bool, weight: bool) {
    function Count(): nat {
      (if age then 1 else 0) + (if height then 1 else 0) + (if weight then 1 else 0)
    }
  }

  datatype Request = Request(radiusKm: real, searchActive: bool, signals: Signals, locations: map<string, Location>) {
    ghost predicate Valid() {
      radiusKm > 0.0 && forall id :: id in locations ==> locations[id].Valid()
    }
  }

  /** How well one stock line of one offer serves a request. */
  datatype Rank = Rank(tier: nat, score: real, distanceKm: real)

  datatype Candidate = Candidate(rank: Rank, offer: Offer, stock: Stock)

  function Max(a: real, b: real): real {
    if a > b then a else b
  }

  function Min(a: real, b: real): real {
    if a < b then a else b
  }

  function Confirmed(o: Offer, s: Signals): nat {
    (if s.age && o.ageApplicable then 1 else 0)
    + (if s.height && o.fitApplicable then 1 else 0)
    + (if s.weight && o.fitApplicable then 1 else 0)
  }

  predicate Qualifies(s: Stock, q: Request) {
    s.locationId in q.locations && s.active && s.quantity > 0
  }

  function CapacityScore(l: Location): real {
    var capacity := if l.dailyCapacity > 1 then l.dailyCapacity else 1;
    var load := if l.committedLoad > 0 then l.committedLoad else 0;
    Clamp((capacity - load) as real / capacity as real)
  }

  /** How far `x` falls short of the bound, as a share of it. */
  function ShortOf(x: real, bound: real): real
    requires bound > 0.0
  {
    Max(0.0, 1.0 - x / bound)
  }

  function Relevance(confirmed: nat, signals: nat, searchActive: bool): real {
    if signals > 0 then 0.65 + 0.35 * (confirmed as real / signals as real)
    else if searchActive then 1.0 else 0.7
  }

  function RankOf(o: Offer, s: Stock, q: Request): Rank
    requires Qualifies(s, q) && q.radiusKm > 0.0
  {
    var l := q.locations[s.locationId];
    var confirmed := Confirmed(o, q.signals);
    var score :=
      0.60 * ShortOf(l.distanceKm, q.radiusKm)
      + 0.20 * Relevance(confirmed, q.signals.Count(), q.searchActive)
      + 0.10 * CapacityScore(l)
      + 0.05 * Min(1.0, s.quantity as real / 25.0)
      + 0.05 * ShortOf(l.handlingHours, 24.0);
    Rank(confirmed, score, l.distanceKm)
  }

  lemma FractionWithin(part: real, whole: real)
    requires 0.0 <= part <= whole && whole > 0.0
    ensures 0.0 <= part / whole <= 1.0
  {
  }

  lemma ShortfallWithin(x: real, bound: real)
    requires x >= 0.0 && bound > 0.0
    ensures 0.0 <= ShortOf(x, bound) <= 1.0
  {
    assert x / bound >= 0.0;
  }

  /** Every stock line scores within [0,1]. */
  lemma RankWithin(o: Offer, s: Stock, q: Request)
    requires q.Valid() && Qualifies(s, q)
    ensures 0.0 <= RankOf(o, s, q).score <= 1.0
    ensures RankOf(o, s, q).tier <= q.signals.Count()
  {
    var l := q.locations[s.locationId];
    ShortfallWithin(l.distanceKm, q.radiusKm);
    ShortfallWithin(l.handlingHours, 24.0);
    if q.signals.Count() > 0 {
      FractionWithin(Confirmed(o, q.signals) as real, q.signals.Count() as real);
    }
    var stock := Min(1.0, s.quantity as real / 25.0);
    hide Max, Min, CapacityScore, ShortOf;
    assert 0.0 <= CapacityScore(l) <= 1.0 by { CapacityWithin(l); }
    assert 0.0 <= stock <= 1.0 by { StockWithin(s.quantity); }
  }

  // ---------------------------------------------------------------- what each part is worth

  /** A line on stock at `at` with this much in store. */
  predicate Serves(s: Stock, at: Location, quantity: int, q: Request) {
    && s.locationId in q.locations && q.locations[s.locationId] == at
    && s.active && s.quantity == quantity > 0
  }

  /** Within the radius, one that is a whole radius nearer scores 60 hundredths more; from the
      radius on distance does not matter. */
  lemma DistanceWorth(o: Offer, s: Stock, t: Stock, at: Location, near: real, far: real, n: int, q: Request)
    requires q.radiusKm > 0.0 && near <= far
    requires Serves(s, at.(distanceKm := near), n, q) && Serves(t, at.(distanceKm := far), n, q)
    requires Qualifies(s, q) && Qualifies(t, q)
    ensures far <= q.radiusKm ==>
              100.0 * Mul(RankOf(o, s, q).score - RankOf(o, t, q).score, q.radiusKm) == 60.0 * (far - near)
    ensures near >= q.radiusKm ==> RankOf(o, s, q).score == RankOf(o, t, q).score
    ensures RankOf(o, s, q).distanceKm == near
  {
    OnlyDistance(o, s, t, at, near, far, n, q);
    Shortfall(near, q.radiusKm);
    Shortfall(far, q.radiusKm);
    hide RankOf, ShortOf, Mul;
    Scaled(RankOf(o, s, q).score - RankOf(o, t, q).score, 60.0, ShortOf(near, q.radiusKm), ShortOf(far, q.radiusKm),
           q.radiusKm, near, far);
  }

  lemma OnlyDistance(o: Offer, s: Stock, t: Stock, at: Location, near: real, far: real, n: int, q: Request)
    requires q.radiusKm > 0.0 && Qualifies(s, q) && Qualifies(t, q)
    requires Serves(s, at.(distanceKm := near), n, q) && Serves(t, at.(distanceKm := far), n, q)
    ensures 100.0 * (RankOf(o, s, q).score - RankOf(o, t, q).score) ==
            60.0 * (ShortOf(near, q.radiusKm) - ShortOf(far, q.radiusKm))
    ensures RankOf(o, s, q).distanceKm == near
  {
    assert CapacityScore(at.(distanceKm := near)) == CapacityScore(at.(distanceKm := far));
    hide CapacityScore, Confirmed, Signals.Count, Min, ShortOf, Relevance;
  }

  /** Shares that fall short of one by `x` and by `y` in `r`, weighed with `w` hundredths. */
  lemma Scaled(gain: real, w: real, a: real, b: real, r: real, x: real, y: real)
    requires 100.0 * gain == w * (a - b)
    ensures Mul(a, r) == r - x && Mul(b, r) == r - y ==> 100.0 * Mul(gain, r) == w * (y - x)
  {
    if a * r == r - x && b * r == r - y {
      assert (a - b) * r == y - x;
      assert (100.0 * gain) * r == w * ((a - b) * r);
    }
  }

  lemma Shortfall(x: real, bound: real)
    requires bound > 0.0
    ensures x <= bound ==> Mul(ShortOf(x, bound), bound) == bound - x
    ensures x >= bound ==> ShortOf(x, bound) == 0.0
  {
    assert (x / bound) * bound == x;
    assert x <= bound ==> x / bound <= 1.0;
    assert x >= bound ==> x / bound >= 1.0;
  }

  /** One that is ready a day sooner scores 5 hundredths more; after a day it does not matter. */
  lemma ReadinessWorth(o: Offer, s: Stock, t: Stock, at: Location, soon: real, late: real, n: int, q: Request)
    requires q.radiusKm > 0.0 && soon <= late
    requires Serves(s, at.(handlingHours := soon), n, q) && Serves(t, at.(handlingHours := late), n, q)
    requires Qualifies(s, q) && Qualifies(t, q)
    ensures late <= 24.0 ==>
              100.0 * (24.0 * (RankOf(o, s, q).score - RankOf(o, t, q).score)) == 5.0 * (late - soon)
    ensures soon >= 24.0 ==> RankOf(o, s, q).score == RankOf(o, t, q).score
  {
    assert CapacityScore(at.(handlingHours := soon)) == CapacityScore(at.(handlingHours := late));
    Shortfall(soon, 24.0);
    Shortfall(late, 24.0);
    hide ShortOf, Relevance, Min, CapacityScore, Confirmed, Signals.Count;
  }

  /** A free location scores 10 hundredths more than a fully loaded one, those in between in
      proportion; a negative load counts as none, one beyond the capacity as a full one, and a
      capacity below one as one. */
  lemma CapacityWorth(o: Offer, s: Stock, t: Stock, at: Location, less: int, more: int, n: int, q: Request)
    requires q.radiusKm > 0.0 && less <= more
    requires Serves(s, at.(committedLoad := less), n, q) && Serves(t, at.(committedLoad := more), n, q)
    requires Qualifies(s, q) && Qualifies(t, q)
    ensures var gain, capacity := RankOf(o, s, q).score - RankOf(o, t, q).score, at.dailyCapacity;
            && (0 <= less && more <= capacity ==> 10.0 * Mul(gain, capacity as real) == (more - less) as real)
            && (more <= 0 || less >= capacity > 0 ==> gain == 0.0)
            && (capacity < 1 && less <= 0 && more >= 1 ==> 10.0 * gain == 1.0)
  {
    var a, b := CapacityScore(at.(committedLoad := less)), CapacityScore(at.(committedLoad := more));
    FreeShare(at, less);
    FreeShare(at, more);
    hide ShortOf, Relevance, Min, CapacityScore, Confirmed, Signals.Count;
    assert RankOf(o, s, q).score - RankOf(o, t, q).score == 0.10 * (a - b);
    hide RankOf;
    Scaled(RankOf(o, s, q).score - RankOf(o, t, q).score, 10.0, a, b,
           at.dailyCapacity as real, less as real, more as real);
  }

  lemma FreeShare(at: Location, load: int)
    ensures var share, capacity := CapacityScore(at.(committedLoad := load)), at.dailyCapacity;
            && (0 <= load <= capacity ==> Mul(share, capacity as real) == (capacity - load) as real)
            && (load <= 0 ==> share == 1.0)
            && (load >= capacity && load >= 1 ==> share == 0.0)
  {
    var capacity := if at.dailyCapacity > 1 then at.dailyCapacity else 1;
    var used := if load > 0 then load else 0;
    Divided((capacity - used) as real, capacity as real);
  }

  lemma Divided(x: real, y: real)
    requires y > 0.0
    ensures (x / y) * y == x
    ensures x <= 0.0 ==> x / y <= 0.0
    ensures x == y ==> x / y == 1.0
    ensures 0.0 <= x <= y ==> 0.0 <= x / y <= 1.0
  {
  }

  /** Twenty-five pieces score 5 hundredths, fewer in proportion and more no more. */
  lemma StockWorth(o: Offer, s: Stock, t: Stock, at: Location, more: int, fewer: int, q: Request)
    requires q.radiusKm > 0.0 && fewer <= more
    requires Serves(s, at, more, q) && Serves(t, at, fewer, q)
    requires Qualifies(s, q) && Qualifies(t, q)
    ensures more <= 25 ==>
              500.0 * (RankOf(o, s, q).score - RankOf(o, t, q).score) == (more - fewer) as real
    ensures fewer >= 25 ==> RankOf(o, s, q).score == RankOf(o, t, q).score
  {
    hide ShortOf, Relevance, CapacityScore, Confirmed, Signals.Count;
  }

  /** The profile signals that an offer confirms: its age bounds for age, its fit bounds for
      height and for weight. */
  lemma TierMeans(o: Offer, s: Stock, q: Request)
    requires q.radiusKm > 0.0 && Qualifies(s, q)
    ensures var fits := if !o.fitApplicable then 0 else if q.signals.height && q.signals.weight then 2
                        else if q.signals.height || q.signals.weight then 1 else 0;
            RankOf(o, s, q).tier == fits + (if q.signals.age && o.ageApplicable then 1 else 0)
  {
  }

  /** Confirming every signal scores 7 hundredths more than confirming none, those in between
      in proportion. Without signals a search scores as if all were confirmed, and browsing 1
      hundredth more than confirming none. */
  lemma RelevanceWorth(o: Offer, p: Offer, s: Stock, q: Request, plain: Request)
    requires q.radiusKm > 0.0 && Qualifies(s, q) && Qualifies(s, plain)
    requires plain == q.(signals := Signals(false, false, false), searchActive := plain.searchActive)
    ensures var signals := (if q.signals.age then 1 else 0) + (if q.signals.height then 1 else 0)
                           + (if q.signals.weight then 1 else 0);
            && (signals > 0 ==>
                  100.0 * Mul(RankOf(o, s, q).score - RankOf(p, s, q).score, signals as real) ==
                  7.0 * (RankOf(o, s, q).tier - RankOf(p, s, q).tier) as real)
            && (signals > 0 && RankOf(p, s, q).tier == 0 ==>
                  100.0 * (RankOf(o, s, plain).score - RankOf(p, s, q).score) ==
                  (if plain.searchActive then 7.0 else 1.0))
  {
    OnlyRelevance(o, p, s, q, plain);
    var c, d, n := Confirmed(o, q.signals), Confirmed(p, q.signals), q.signals.Count();
    var x, y := Relevance(c, n, q.searchActive), Relevance(d, n, q.searchActive);
    hide RankOf, Relevance, Confirmed, Mul;
    if n > 0 {
      RelevanceParts(c, n, q.searchActive);
      RelevanceParts(d, n, q.searchActive);
      RelevanceParts(0, 0, plain.searchActive);
      Weighed(RankOf(o, s, q).score - RankOf(p, s, q).score, x, y, n as real, c as real, d as real);
    }
  }

  lemma OnlyRelevance(o: Offer, p: Offer, s: Stock, q: Request, plain: Request)
    requires q.radiusKm > 0.0 && Qualifies(s, q) && Qualifies(s, plain)
    requires plain == q.(signals := Signals(false, false, false), searchActive := plain.searchActive)
    ensures var c, d, n := Confirmed(o, q.signals), Confirmed(p, q.signals), q.signals.Count();
            var y := Relevance(d, n, q.searchActive);
            && RankOf(o, s, q).tier == c && RankOf(p, s, q).tier == d
            && RankOf(o, s, q).score - RankOf(p, s, q).score == 0.20 * (Relevance(c, n, q.searchActive) - y)
            && RankOf(o, s, plain).score - RankOf(p, s, q).score == 0.20 * (Relevance(0, 0, plain.searchActive) - y)
  {
    assert plain.signals.Count() == 0 == Confirmed(o, plain.signals);
    hide ShortOf, Min, CapacityScore, Confirmed, Signals.Count, Relevance;
  }

  lemma RelevanceParts(confirmed: nat, signals: nat, searchActive: bool)
    ensures signals > 0 ==>
              Mul(Relevance(confirmed, signals, searchActive) - 0.65, signals as real) == 0.35 * confirmed as real
    ensures signals > 0 && confirmed == 0 ==> Relevance(confirmed, signals, searchActive) == 0.65
    ensures signals == 0 ==> Relevance(confirmed, signals, searchActive) == if searchActive then 1.0 else 0.7
  {
    if signals > 0 {
      var x := confirmed as real / signals as real;
      Divided(confirmed as real, signals as real);
      assert (0.35 * x) * signals as real == 0.35 * (x * signals as real);
    }
  }

  lemma Weighed(gain: real, x: real, y: real, n: real, c: real, d: real)
    requires gain == 0.20 * (x - y)
    requires Mul(x - 0.65, n) == 0.35 * c && Mul(y - 0.65, n) == 0.35 * d
    ensures 100.0 * Mul(gain, n) == 7.0 * (c - d)
  {
    assert (x - y) * n == 0.35 * (c - d);
  }

  /** The best possible line scores one. */
  lemma TopScore(o: Offer, s: Stock, at: Location, q: Request)
    requires q.radiusKm > 0.0 && Qualifies(s, q) && Serves(s, at, s.quantity, q)
    requires at.distanceKm == at.handlingHours == 0.0 && at.committedLoad <= 0 && s.quantity >= 25
    requires q.searchActive && q.signals == Signals(false, false, false)
    ensures RankOf(o, s, q).score == 1.0
  {
    FreeShare(at, at.committedLoad);
    assert at.(committedLoad := at.committedLoad) == at;
    hide CapacityScore;
    assert 0.0 / q.radiusKm == 0.0;
  }

  lemma CapacityWithin(l: Location)
    ensures 0.0 <= CapacityScore(l) <= 1.0
  {
  }

  lemma StockWithin(quantity: int)
    requires quantity > 0
    ensures 0.0 <= Min(1.0, quantity as real / 25.0) <= 1.0
  {
  }

  // ---------------------------------------------------------------- the best candidate

  /** (fit tier, score, -distance), compared field by field. */
  predicate Beats(a: Rank, b: Rank) {
    a.tier > b.tier
    || (a.tier == b.tier && (a.score > b.score || (a.score == b.score && a.distanceKm < b.distanceKm)))
  }

  /** `c` is a qualifying stock line of an offer for the product. */
  ghost predicate IsCandidate(c: Candidate, offers: seq<Offer>, id: string, q: Request)
    requires q.radiusKm > 0.0
  {
    && c.offer in offers && c.offer.productId == id
    && c.stock in c.offer.inventory
    && c.stock.locationId in q.locations && c.stock.active && c.stock.quantity > 0
    && c.rank == RankOf(c.offer, c.stock, q)
  }

  ghost predicate IsBest(c: Candidate, offers: seq<Offer>, id: string, q: Request)
    requires q.radiusKm > 0.0
  {
    IsCandidate(c, offers, id, q) && forall d :: IsCandidate(d, offers, id, q) ==> NoWorse(c.rank, d.rank)
  }

  /** A higher tier; in one tier a higher score; with one score no greater a distance. */
  ghost predicate NoWorse(a: Rank, b: Rank) {
    || a.tier > b.tier
    || (a.tier == b.tier && a.score > b.score)
    || (a.tier == b.tier && a.score == b.score && a.distanceKm <= b.distanceKm)
  }

  /** Of the lines of one tier none is passed over whose distance share is ahead by more than
      two thirds, whatever else speaks for the other. */
  lemma NearLinesAreNotPassedOver(c: Candidate, d: Candidate, offers: seq<Offer>, id: string, q: Request)
    requires q.Valid() && IsBest(c, offers, id, q) && IsCandidate(d, offers, id, q) && c.rank.tier == d.rank.tier
    ensures var share := (km: real) => if km < q.radiusKm then 1.0 - km / q.radiusKm else 0.0;
            share(d.rank.distanceKm) <= share(c.rank.distanceKm) + 2.0 / 3.0
  {
    assert NoWorse(c.rank, d.rank);
    OtherParts(c.offer, c.stock, q);
    OtherParts(d.offer, d.stock, q);
    hide RankOf, IsBest;
    ShareMeans(c.rank.distanceKm, q.radiusKm);
    ShareMeans(d.rank.distanceKm, q.radiusKm);
    hide ShortOf;
  }

  lemma ShareMeans(km: real, radius: real)
    requires radius > 0.0
    ensures ShortOf(km, radius) == if km < radius then 1.0 - km / radius else 0.0
  {
    Divided(km, radius);
    assert km < radius ==> km / radius < 1.0;
    assert km >= radius ==> km / radius >= 1.0;
  }

  /** Everything but the distance makes up 40 hundredths at most. */
  lemma OtherParts(o: Offer, s: Stock, q: Request)
    requires q.Valid() && Qualifies(s, q)
    ensures var near := 0.60 * ShortOf(q.locations[s.locationId].distanceKm, q.radiusKm);
            near <= RankOf(o, s, q).score <= near + 0.40
    ensures RankOf(o, s, q).distanceKm == q.locations[s.locationId].distanceKm
  {
    var l := q.locations[s.locationId];
    ShortfallWithin(l.handlingHours, 24.0);
    if q.signals.Count() > 0 {
      FractionWithin(Confirmed(o, q.signals) as real, q.signals.Count() as real);
    }
    var stock := Min(1.0, s.quantity as real / 25.0);
    hide Max, Min, CapacityScore, ShortOf;
    assert 0.0 <= CapacityScore(l) <= 1.0 by { CapacityWithin(l); }
    assert 0.0 <= stock <= 1.0 by { StockWithin(s.quantity); }
  }

  ghost predicate BestByProduct(best: map<string, Candidate>, offers: seq<Offer>, q: Request)
    requires q.radiusKm > 0.0
  {
    && (forall id :: id in best ==> IsBest(best[id], offers, id, q))
    && (forall c, id :: IsCandidate(c, offers, id, q) ==> id in best)
  }

  /** The qualifying stock lines of one offer, in their order. */
  function Lines(o: Offer, stocks: seq<Stock>, q: Request): (lines: seq<Candidate>)
    requires q.radiusKm > 0.0
    ensures forall c :: c in lines ==> c.offer == o
  {
    if stocks == [] then []
    else
      var n := |stocks| - 1;
      Lines(o, stocks[..n], q)
      + (if Qualifies(stocks[n], q) then [Candidate(RankOf(o, stocks[n], q), o, stocks[n])] else [])
  }

  /** All qualifying lines for a product, offer after offer. */
  function AllLines(offers: seq<Offer>, id: string, q: Request): seq<Candidate>
    requires q.radiusKm > 0.0
  {
    if offers == [] then []
    else
      var n := |offers| - 1;
      AllLines(offers[..n], id, q)
          + (if offers[n].productId == id then Lines(offers[n], offers[n].inventory, q) else [])
  }

  function Better(a: Option<Candidate>, b: Option<Candidate>): Option<Candidate> {
    if b == None then a
    else if a == None || Beats(b.value.rank, a.value.rank) then b
    else a
  }

  /** The best of a list of lines, the first of equals. */
  function FirstBest(lines: seq<Candidate>): Option<Candidate> {
    if lines == [] then None
    else Better(FirstBest(lines[..|lines| - 1]), Some(lines[|lines| - 1]))
  }

  lemma BetterAssociates(a: Option<Candidate>, b: Option<Candidate>, c: Option<Candidate>)
    ensures Better(a, Better(b, c)) == Better(Better(a, b), c)
  {
  }

  /** Choosing within parts and then between them is choosing among all. */
  lemma {:induction false} FirstBestOfParts(a: seq<Candidate>, b: seq<Candidate>)
    ensures FirstBest(a + b) == Better(FirstBest(a), FirstBest(b))
  {
    if b == [] {
      assert a + b == a;
    } else {
      var n := |b| - 1;
      FirstBestOfParts(a, b[..n]);
      assert (a + b)[..|a + b| - 1] == a + b[..n] && (a + b)[|a + b| - 1] == b[n];
      BetterAssociates(FirstBest(a), FirstBest(b[..n]), Some(b[n]));
    }
  }

  /** Per product the first of the best lines over all its offers. */
  ghost predicate FirstByProduct(best: map<string, Candidate>, offers: seq<Offer>, q: Request)
    requires q.radiusKm > 0.0
  {
    forall id :: (if id in best then Some(best[id]) else None) == FirstBest(AllLines(offers, id, q))
  }

  lemma FirstNext(best: map<string, Candidate>, offers: seq<Offer>, i: nat, own: Option<Candidate>, q: Request)
    requires q.radiusKm > 0.0 && i < |offers| && FirstByProduct(best, offers[..i], q)
    requires own == FirstBest(Lines(offers[i], offers[i].inventory, q))
    ensures var id := offers[i].productId;
            FirstByProduct(
              if own.Some? && (id !in best || Beats(own.value.rank, best[id].rank))
              then best[id := own.value] else best,
              offers[..i + 1], q)
  {
    hide Lines;
    var o := offers[i];
    var before, upTo := offers[..i], offers[..i + 1];
    assert upTo[..i] == before && upTo[i] == o;
    forall id
      ensures FirstBest(AllLines(upTo, id, q)) ==
              if id == o.productId then Better(FirstBest(AllLines(before, id, q)), own)
                  else FirstBest(AllLines(before, id, q))
    {
      FirstBestOfParts(AllLines(before, id, q), if o.productId == id then Lines(o, o.inventory, q) else []);
    }
  }

  /** The best stock line of one offer, the first of equals. */
  method BestStock(o: Offer, q: Request) returns (best: Option<Candidate>)
    requires q.radiusKm > 0.0
    ensures best == None <==>
            forall s :: s in o.inventory ==> !(s.locationId in q.locations && s.active && s.quantity > 0)
    ensures best.Some? ==> IsBest(best.value, [o], o.productId, q)
    ensures best == FirstBest(Lines(o, o.inventory, q))
  {
    hide RankOf, FirstBest, Lines, IsBest;
    best := None;
    assert o.inventory[..0] == [];
    NoLines(o, q);
    for i := 0 to |o.inventory|
      invariant best == FirstBest(Lines(o, o.inventory[..i], q))
    {
      var s := o.inventory[i];
      LineNext(o, i, q);
      if Qualifies(s, q) {
        var rank := RankOf(o, s, q);
        if best == None || Beats(rank, best.value.rank) {
          best := Some(Candidate(rank, o, s));
        }
      }
    }
    assert o.inventory[..|o.inventory|] == o.inventory;
    FirstIsBest(o, q);
  }

  lemma NoLines(o: Offer, q: Request)
    requires q.radiusKm > 0.0
    ensures FirstBest(Lines(o, [], q)) == None
  {
  }

  /** The chosen line is no worse than any, and every earlier one is worse. */
  lemma {:induction false} FirstBestUnbeaten(lines: seq<Candidate>) returns (i: int)
    ensures FirstBest(lines) == None <==> lines == []
    ensures lines != [] ==> 0 <= i < |lines| && FirstBest(lines) == Some(lines[i])
    ensures lines != [] ==> forall j :: 0 <= j < |lines| ==> NoWorse(lines[i].rank, lines[j].rank)
    ensures lines != [] ==> forall j :: 0 <= j < i ==> !NoWorse(lines[j].rank, lines[i].rank)
  {
    i := 0;
    if lines != [] {
      var n := |lines| - 1;
      var k := FirstBestUnbeaten(lines[..n]);
      i := if n == 0 || Beats(lines[n].rank, lines[k].rank) then n else k;
    }
  }

  lemma {:induction false} LinesAre(o: Offer, stocks: seq<Stock>, q: Request, c: Candidate)
    requires q.radiusKm > 0.0
    ensures c in Lines(o, stocks, q) <==>
            c.offer == o && c.stock in stocks && Qualifies(c.stock, q) && c.rank == RankOf(o, c.stock, q)
  {
    if stocks != [] {
      hide RankOf, Qualifies;
      var n := |stocks| - 1;
      LinesAre(o, stocks[..n], q, c);
      assert stocks == stocks[..n] + [stocks[n]];
    }
  }

  /** The first of the best lines is a best line. */
  lemma FirstIsBest(o: Offer, q: Request)
    requires q.radiusKm > 0.0
    ensures var best := FirstBest(Lines(o, o.inventory, q));
            && (best == None <==> forall s :: s in o.inventory ==> !Qualifies(s, q))
            && (best.Some? ==> IsBest(best.value, [o], o.productId, q))
  {
    var lines := Lines(o, o.inventory, q);
    var best := FirstBestUnbeaten(lines);
    forall c: Candidate
      ensures c in lines <==> IsCandidate(c, [o], o.productId, q)
    {
      LinesAre(o, o.inventory, q, c);
    }
    hide FirstBest, Lines, Beats, RankOf, NoWorse;
    forall s | s in o.inventory && Qualifies(s, q)
      ensures lines != []
    {
      assert IsCandidate(Candidate(RankOf(o, s, q), o, s), [o], o.productId, q);
    }
    if lines != [] {
      assert lines[best] in lines && IsCandidate(lines[best], [o], o.productId, q);
      forall d | IsCandidate(d, [o], o.productId, q)
        ensures NoWorse(lines[best].rank, d.rank)
      {
        assert d in lines;
      }
    }
  }

  lemma LineNext(o: Offer, i: nat, q: Request)
    requires q.radiusKm > 0.0 && i < |o.inventory|
    ensures var s, best := o.inventory[i], FirstBest(Lines(o, o.inventory[..i], q));
            FirstBest(Lines(o, o.inventory[..i + 1], q)) ==
            if Qualifies(s, q) then Better(best, Some(Candidate(RankOf(o, s, q), o, s))) else best
  {
    hide RankOf, Qualifies, Better;
    var stocks := o.inventory[..i + 1];
    assert stocks[..i] == o.inventory[..i] && stocks[i] == o.inventory[i];
    var before := Lines(o, o.inventory[..i], q);
    if Qualifies(stocks[i], q) {
      var c := Candidate(RankOf(o, stocks[i], q), o, stocks[i]);
      assert Lines(o, stocks, q) == before + [c];
      assert (before + [c])[..|before|] == before && (before + [c])[|before|] == c;
    } else {
      assert Lines(o, stocks, q) == before;
    }
  }

  lemma BestNext(best: map<string, Candidate>, offers: seq<Offer>, i: nat, own: Option<Candidate>, q: Request)
    requires q.radiusKm > 0.0 && i < |offers| && BestByProduct(best, offers[..i], q)
    requires own == None <==> forall s :: s in offers[i].inventory ==> !Qualifies(s, q)
    requires own.Some? ==> IsBest(own.value, [offers[i]], offers[i].productId, q)
    ensures var id := offers[i].productId;
            BestByProduct(
              if own.Some? && (id !in best || Beats(own.value.rank, best[id].rank))
              then best[id := own.value] else best,
              offers[..i + 1], q)
  {
    var o := offers[i];
    var id := o.productId;
    var before, upTo := offers[..i], offers[..i + 1];
    var next :=
      if own.Some? && (id !in best || Beats(own.value.rank, best[id].rank)) then best[id := own.value] else best;
    assert upTo == before + [o];
    hide RankOf, Qualifies;
    forall c, x | IsCandidate(c, upTo, x, q)
      ensures IsCandidate(c, before, x, q) || (x == id && own.Some? && IsCandidate(c, [o], x, q))
    {
      assert c.offer in before || c.offer == o;
    }
    forall x | x in next
      ensures IsBest(next[x], upTo, x, q)
    {
      if x != id || id in best {
        assert IsBest(best[x], before, x, q);
      }
      assert IsCandidate(next[x], upTo, x, q);
      forall d | IsCandidate(d, upTo, x, q)
        ensures NoWorse(next[x].rank, d.rank)
      {
        if IsCandidate(d, before, x, q) {
          assert NoWorse(best[x].rank, d.rank);
        } else {
          assert NoWorse(own.value.rank, d.rank);
        }
      }
    }
    forall c, x | IsCandidate(c, upTo, x, q)
      ensures x in next
    {
      assert IsCandidate(c, before, x, q) ==> x in best;
    }
  }

  /** For every product with a qualifying stock line, and for no other, the kept candidate
      is one that no other line beats. */
  method SelectBest(offers: seq<Offer>, q: Request) returns (best: map<string, Candidate>)
    requires q.radiusKm > 0.0
    ensures BestByProduct(best, offers, q) && FirstByProduct(best, offers, q)
    ensures forall id :: id in best <==>
              exists o, s :: o in offers && o.productId == id && s in o.inventory
                             && s.locationId in q.locations && s.active && s.quantity > 0
  {
    best := map[];
    hide IsBest, IsCandidate, FirstByProduct, BestByProduct;
    assert offers[..0] == [];
    NothingYet(q);
    for i := 0 to |offers|
      invariant BestByProduct(best, offers[..i], q) && FirstByProduct(best, offers[..i], q)
    {
      var own := BestStock(offers[i], q);
      BestNext(best, offers, i, own, q);
      FirstNext(best, offers, i, own, q);
      if own.Some? {
        var id := offers[i].productId;
        if id !in best || Beats(own.value.rank, best[id].rank) {
          best := best[id := own.value];
        }
      }
    }
    assert offers[..|offers|] == offers;
    KeptIffServed(best, offers, q);
  }

  lemma KeptIffServed(best: map<string, Candidate>, offers: seq<Offer>, q: Request)
    requires q.radiusKm > 0.0 && BestByProduct(best, offers, q)
    ensures forall id :: id in best <==>
              exists o, s :: o in offers && o.productId == id && s in o.inventory
                             && s.locationId in q.locations && s.active && s.quantity > 0
  {
    hide RankOf;
    forall id | id in best
      ensures exists o, s :: o in offers && o.productId == id && s in o.inventory
                             && s.locationId in q.locations && s.active && s.quantity > 0
    {
      assert IsBest(best[id], offers, id, q);
    }
    forall o, s | o in offers && s in o.inventory && s.locationId in q.locations && s.active && s.quantity > 0
      ensures o.productId in best
    {
      assert IsCandidate(Candidate(RankOf(o, s, q), o, s), offers, o.productId, q);
    }
  }

  lemma NothingYet(q: Request)
    requires q.radiusKm > 0.0
    ensures BestByProduct(map[], [], q) && FirstByProduct(map[], [], q)
  {
  }

  // ---------------------------------------------------------------- re-scoring

  /** How a product meets the soft profile fields and the semantic weights, if any. */
  datatype Evidence = Evidence(fields: nat, matchedFields: nat, semantic: Option<seq<Dimension>>) {
    ghost predicate Valid() {
      matchedFields <= fields && (semantic.Some? ==> Weighted(semantic.value))
    }
  }

  function ProfileScore(score: real, e: Evidence, searchActive: bool): real {
    if e.fields == 0 then score
    else
      var relevance := 0.65 + 0.35 * (e.matchedFields as real / e.fields as real);
      Clamp(score + 0.20 * (relevance - if searchActive then 1.0 else 0.7))
  }

  function SemanticBlend(score: real, e: Evidence, sqrt: real -> real): real {
    if e.semantic == None then score else 0.70 * score + 0.30 * Clamp(VectorScore(e.semantic.value, sqrt))
  }

  function Rescored(r: Rank, e: Evidence, searchActive: bool, sqrt: real -> real): Rank {
    r.(score := SemanticBlend(ProfileScore(r.score, e, searchActive), e, sqrt))
  }

  /** Without evidence the score stays. Otherwise meeting every soft field scores 7 hundredths
      more than meeting none, which takes away 7 from a search and 1 from browsing. */
  lemma ProfileWorth(score: real, fields: nat, matched: nat, searchActive: bool)
    requires 0.07 <= score <= 0.94 && matched <= fields
    ensures fields == 0 ==> ProfileScore(score, Evidence(fields, matched, None), searchActive) == score
    ensures fields > 0 ==>
              100.0 * Mul(ProfileScore(score, Evidence(fields, matched, None), searchActive) - score, fields as real) ==
              (7 * matched - (if searchActive then 7 else 1) * fields) as real
  {
    if fields > 0 {
      FractionWithin(matched as real, fields as real);
      Divided(matched as real, fields as real);
      var x, f := matched as real / fields as real, fields as real;
      var gain := 0.20 * (0.65 + 0.35 * x - if searchActive then 1.0 else 0.7);
      assert ProfileScore(score, Evidence(fields, matched, None), searchActive) == score + gain;
      assert 100.0 * gain == 7.0 * x - (if searchActive then 7.0 else 1.0);
      hide ProfileScore;
      assert (100.0 * gain) * f == 7.0 * (x * f) - (if searchActive then 7.0 else 1.0) * f;
    }
  }

  /** Intent weights count three tenths, what was scored before seven tenths. */
  lemma SemanticWorth(r: Rank, dims: seq<Dimension>, sqrt: real -> real, searchActive: bool)
    requires Weighted(dims) && IsSquareRoot(sqrt)
    ensures var e := Evidence(0, 0, Some(dims));
            10.0 * Rescored(r, e, searchActive, sqrt).score == 7.0 * r.score + 3.0 * VectorScore(dims, sqrt)
    ensures Rescored(r, Evidence(0, 0, None), searchActive, sqrt) == r
  {
    VectorScoreWithin(dims, sqrt);
  }

  /** Both passes keep scores within [0,1], leave tier and distance alone, and the clamp on
      the semantic score never changes it. */
  lemma RescoredWithin(r: Rank, e: Evidence, searchActive: bool, sqrt: real -> real)
    requires 0.0 <= r.score <= 1.0 && e.Valid() && IsSquareRoot(sqrt)
    ensures 0.0 <= Rescored(r, e, searchActive, sqrt).score <= 1.0
    ensures Rescored(r, e, searchActive, sqrt) == r.(score := Rescored(r, e, searchActive, sqrt).score)
    ensures e.semantic.Some? ==> Clamp(VectorScore(e.semantic.value, sqrt)) == VectorScore(e.semantic.value, sqrt)
  {
    if e.semantic.Some? {
      VectorScoreWithin(e.semantic.value, sqrt);
    }
  }

  // ---------------------------------------------------------------- the final order

  datatype Entry = Entry(id: string, rank: Rank)

  /** Falling tier, falling score, rising distance, rising id. */
  predicate ListedBefore(a: Entry, b: Entry) {
    if a.rank.tier != b.rank.tier then a.rank.tier > b.rank.tier
    else if a.rank.score != b.rank.score then a.rank.score > b.rank.score
    else if a.rank.distanceKm != b.rank.distanceKm then a.rank.distanceKm < b.rank.distanceKm
    else LexLe(a.id, b.id)
  }

  lemma ListingOrders()
    ensures TotalPreorder(ListedBefore)
  {
    forall a, b
      ensures ListedBefore(a, b) || ListedBefore(b, a)
    {
      LexTotal(a.id, b.id);
    }
    forall a, b, c | ListedBefore(a, b) && ListedBefore(b, c)
      ensures ListedBefore(a, c)
    {
      if a.rank == b.rank == c.rank {
        LexTransitive(a.id, b.id, c.id);
      }
    }
  }

  /** A product without evidence keeps its rank. */
  function FinalRank(c: Candidate, id: string, evidence: map<string, Evidence>, searchActive: bool,
                     sqrt: real -> real): Rank
  {
    if id in evidence then Rescored(c.rank, evidence[id], searchActive, sqrt) else c.rank
  }

  /** One entry per kept product, with its re-scored rank and a score within [0,1]. */
  ghost predicate Lists(entries: seq<Entry>, final: map<string, Rank>, products: set<string>) {
    && DistinctBy(entries, (e: Entry) => e.id)
    && (forall id :: id in products <==> exists e :: e in entries && e.id == id)
    && forall e :: e in entries ==> e.id in final && e.rank == final[e.id] && 0.0 <= e.rank.score <= 1.0
  }

  lemma ListsNext(entries: seq<Entry>, final: map<string, Rank>, products: set<string>, e: Entry)
    requires Lists(entries, final, products) && e.id !in products && e.id in final
    requires 0.0 <= e.rank.score <= 1.0 && e.rank == final[e.id]
    ensures Lists(entries + [e], final, products + {e.id})
  {
    var longer := entries + [e];
    assert forall x :: x in longer <==> x in entries || x == e;
    forall i | 0 <= i < |entries|
      ensures entries[i].id != e.id
    {
      assert entries[i] in entries;
    }
  }

  lemma ListsRearranged(entries: seq<Entry>, listed: seq<Entry>, final: map<string, Rank>, products: set<string>)
    requires Lists(entries, final, products) && Arranged(listed, entries, ListedBefore)
    ensures Lists(listed, final, products)
  {
    ArrangedMembers(listed, entries, ListedBefore);
    RearrangedDistinct(entries, listed, (e: Entry) => e.id);
  }

  /** Collects, re-scores and sorts the kept candidates. */
  method RankProducts(offers: seq<Offer>, q: Request, evidence: map<string, Evidence>, sqrt: real -> real)
    returns (listed: seq<Entry>, ghost best: map<string, Candidate>)
    requires q.Valid() && IsSquareRoot(sqrt)
    requires forall id :: id in evidence ==> evidence[id].Valid()
    ensures BestByProduct(best, offers, q) && FirstByProduct(best, offers, q)
    ensures Lists(listed, map id | id in best :: FinalRank(best[id], id, evidence, q.searchActive, sqrt), best.Keys)
    ensures Sorted(listed, ListedBefore)
    ensures forall i, j :: 0 <= i < j < |listed| ==>
              NoWorse(listed[i].rank, listed[j].rank)
              && (listed[i].rank == listed[j].rank ==> LexLe(listed[i].id, listed[j].id))
  {
    hide BestByProduct, FirstByProduct, Lists, Rescored, IsSquareRoot, Evidence.Valid, ListedBefore, NoWorse;
    var kept := SelectBest(offers, q);
    best := kept;
    ghost var final := map id | id in best :: FinalRank(best[id], id, evidence, q.searchActive, sqrt);
    var entries: seq<Entry> := [];
    var rest := kept.Keys;
    NothingListed(final);
    assert kept.Keys - rest == {};
    while rest != {}
      invariant rest <= kept.Keys && Lists(entries, final, kept.Keys - rest)
      decreases rest
    {
      var id :| id in rest;
      assert kept.Keys - (rest - {id}) == (kept.Keys - rest) + {id};
      rest := rest - {id};
      var rank := kept[id].rank;
      KeptWithin(kept, offers, q, id);
      if id in evidence {
        RescoredWithin(rank, evidence[id], q.searchActive, sqrt);
        rank := Rescored(rank, evidence[id], q.searchActive, sqrt);
      }
      ListsNext(entries, final, kept.Keys - rest - {id}, Entry(id, rank));
      assert kept.Keys - rest - {id} + {id} == kept.Keys - rest;
      entries := entries + [Entry(id, rank)];
    }
    assert kept.Keys - rest == kept.Keys;
    listed := Sort(entries, ListedBefore);
    ListingOrders();
    SortSorts(entries, ListedBefore);
    SortPermutes(entries, ListedBefore);
    ListsRearranged(entries, listed, final, kept.Keys);
    ListedInOrder(listed);
  }

  lemma ListedInOrder(listed: seq<Entry>)
    requires Sorted(listed, ListedBefore)
    ensures forall i, j :: 0 <= i < j < |listed| ==>
              NoWorse(listed[i].rank, listed[j].rank)
              && (listed[i].rank == listed[j].rank ==> LexLe(listed[i].id, listed[j].id))
  {
  }

  lemma NothingListed(final: map<string, Rank>)
    ensures Lists([], final, {})
  {
  }

  lemma KeptWithin(best: map<string, Candidate>, offers: seq<Offer>, q: Request, id: string)
    requires q.Valid() && BestByProduct(best, offers, q) && id in best
    ensures 0.0 <= best[id].rank.score <= 1.0
  {
    assert IsBest(best[id], offers, id, q);
    RankWithin(best[id].offer, best[id].stock, q);
  }
}
