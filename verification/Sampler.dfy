/** The streaming sampler: a counting pass fixes the quotas, then one pass keeps the best
    scoring rows of each category in bounded heaps. */
module Sampler {
  import opened Sorting
  import opened TextOrder
  import opened Quotas
  import opened Wrappers

  /** A source row as both passes see it: the product id found in its URL (empty if none),
      its category, whether the policy, category-group and image filters let it through, and
      its score. */
  datatype Row = Row(productId: string, category: string, admitted: bool, score: int)

  datatype SampleError = QuotaFailed(error: QuotaError) | EmptyReservoir | WrongCount(selected: nat)

  /** The decimal value of a product id; leading zeros make different ids equal. */
  function NumericId(id: string): int {
    if id == "" then 0 else 10 * NumericId(id[..|id| - 1]) + (id[|id| - 1] as int - '0' as int)
  }

  function KeyOf(r: Row): int {
    NumericId(r.productId)
  }

  predicate Usable(r: Row, excluded: set<string>) {
    r.productId != "" && r.productId !in excluded && r.admitted
  }

  function Keys(rows: seq<Row>): set<int> {
    set r | r in rows :: KeyOf(r)
  }

  /** The first usable row of every numeric id, among the given categories (None: all). */
  function Candidates(rows: seq<Row>, excluded: set<string>, categories: Option<set<string>>): (c: seq<Row>)
    ensures forall r :: r in c ==> r in rows && Usable(r, excluded)
    ensures forall r :: r in c ==> categories.Some? ==> r.category in categories.value
  {
    if rows == [] then []
    else
      var before := Candidates(rows[..|rows| - 1], excluded, categories);
      var r := rows[|rows| - 1];
      if Usable(r, excluded) && (categories.Some? ==> r.category in categories.value) && KeyOf(r) !in Keys(before)
      then before + [r] else before
  }

  /** Row `i` may be sampled: it names a product that is not excluded, was admitted, and has one
      of the categories if there is a choice of them. */
  ghost predicate Samples(rows: seq<Row>, excluded: set<string>, categories: Option<set<string>>, i: nat) {
    && i < |rows| && rows[i].productId != "" && rows[i].productId !in excluded && rows[i].admitted
    && (categories.Some? ==> rows[i].category in categories.value)
  }

  /** It is the first such row of its number. */
  ghost predicate FirstOfNumber(rows: seq<Row>, excluded: set<string>, categories: Option<set<string>>, i: nat) {
    && Samples(rows, excluded, categories, i)
    && forall j: nat :: j < i && Samples(rows, excluded, categories, j) ==>
         NumericId(rows[j].productId) != NumericId(rows[i].productId)
  }

  ghost predicate Sampled(rows: seq<Row>, excluded: set<string>, categories: Option<set<string>>, r: Row) {
    exists i: nat :: i < |rows| && FirstOfNumber(rows, excluded, categories, i) && rows[i] == r
  }

  ghost predicate Numbered(rows: seq<Row>, excluded: set<string>, categories: Option<set<string>>, n: int) {
    exists i: nat :: i < |rows| && Samples(rows, excluded, categories, i) && NumericId(rows[i].productId) == n
  }

  lemma SampleBefore(rows: seq<Row>, excluded: set<string>, categories: Option<set<string>>, j: nat)
    requires j < |rows| - 1
    ensures var before := rows[..|rows| - 1];
            && before[j] == rows[j]
            && (Samples(before, excluded, categories, j) <==> Samples(rows, excluded, categories, j))
            && (FirstOfNumber(before, excluded, categories, j) <==> FirstOfNumber(rows, excluded, categories, j))
  {
    var before := rows[..|rows| - 1];
    assert forall k: nat :: k <= j ==>
        before[k] == rows[k] && (Samples(before, excluded, categories, k) <==> Samples(rows, excluded, categories, k));
    hide Samples, NumericId;
  }

  lemma SampledNext(rows: seq<Row>, excluded: set<string>, categories: Option<set<string>>, r: Row)
    requires rows != []
    ensures var last := |rows| - 1;
            Sampled(rows, excluded, categories, r) <==>
            || Sampled(rows[..last], excluded, categories, r)
            || (FirstOfNumber(rows, excluded, categories, last) && rows[last] == r)
  {
    hide FirstOfNumber;
    var last := |rows| - 1;
    var before := rows[..last];
    if i: nat :| i < |before| && FirstOfNumber(before, excluded, categories, i) && before[i] == r {
      SampleBefore(rows, excluded, categories, i);
    }
    if i: nat :| i < |rows| && FirstOfNumber(rows, excluded, categories, i) && rows[i] == r {
      if i < last {
        SampleBefore(rows, excluded, categories, i);
        assert FirstOfNumber(before, excluded, categories, i) && before[i] == r;
      }
    }
  }

  lemma NumberedNext(rows: seq<Row>, excluded: set<string>, categories: Option<set<string>>, n: int)
    requires rows != []
    ensures var last := |rows| - 1;
            Numbered(rows, excluded, categories, n) <==>
            || Numbered(rows[..last], excluded, categories, n)
            || (Samples(rows, excluded, categories, last) && NumericId(rows[last].productId) == n)
  {
    hide Samples, NumericId;
    var last := |rows| - 1;
    var before := rows[..last];
    if i: nat :| i < |before| && Samples(before, excluded, categories, i) && NumericId(before[i].productId) == n {
      SampleBefore(rows, excluded, categories, i);
    }
    if i: nat :| i < |rows| && Samples(rows, excluded, categories, i) && NumericId(rows[i].productId) == n {
      if i < last {
        SampleBefore(rows, excluded, categories, i);
        assert Samples(before, excluded, categories, i) && NumericId(before[i].productId) == n;
      }
    }
  }

  lemma FirstIffNew(rows: seq<Row>, excluded: set<string>, categories: Option<set<string>>)
    requires rows != []
    ensures var last := |rows| - 1;
            FirstOfNumber(rows, excluded, categories, last) <==>
            && Samples(rows, excluded, categories, last)
            && !Numbered(rows[..last], excluded, categories, NumericId(rows[last].productId))
  {
    hide NumericId, Samples;
    var last := |rows| - 1;
    var before := rows[..last];
    if j: nat :| j < last && Samples(rows, excluded, categories, j)
                 && NumericId(rows[j].productId) == NumericId(rows[last].productId) {
      SampleBefore(rows, excluded, categories, j);
      assert Samples(before, excluded, categories, j);
      assert NumericId(before[j].productId) == NumericId(rows[last].productId);
    }
    if j: nat :| j < |before| && Samples(before, excluded, categories, j)
                 && NumericId(before[j].productId) == NumericId(rows[last].productId) {
      SampleBefore(rows, excluded, categories, j);
    }
  }

  /** The candidates are exactly those rows, and their numbers exactly those of rows that may be
      sampled. */
  lemma {:induction false} CandidatesAre(rows: seq<Row>, excluded: set<string>, categories: Option<set<string>>, r: Row,
                                         n: int)
    ensures r in Candidates(rows, excluded, categories) <==> Sampled(rows, excluded, categories, r)
    ensures n in Keys(Candidates(rows, excluded, categories)) <==> Numbered(rows, excluded, categories, n)
  {
    if rows != [] {
      var last := |rows| - 1;
      var number := NumericId(rows[last].productId);
      CandidatesAre(rows[..last], excluded, categories, r, n);
      CandidatesAre(rows[..last], excluded, categories, r, number);
      SampledNext(rows, excluded, categories, r);
      NumberedNext(rows, excluded, categories, n);
      FirstIffNew(rows, excluded, categories);
      LastCandidate(rows, excluded, categories, r, n);
      hide Candidates, Keys, NumericId, Samples, FirstOfNumber, Sampled, Numbered;
    }
  }

  lemma LastCandidate(rows: seq<Row>, excluded: set<string>, categories: Option<set<string>>, r: Row, n: int)
    requires rows != []
    ensures var last := |rows| - 1;
            var before, c := Candidates(rows[..last], excluded, categories), Candidates(rows, excluded, categories);
            var added := Samples(rows, excluded, categories, last) && NumericId(rows[last].productId) !in Keys(before);
            && (r in c <==> r in before || (added && r == rows[last]))
            && (n in Keys(c) <==>
                  n in Keys(before) || (added && n == NumericId(rows[last].productId)))
  {
    hide NumericId;
  }

  /** A product number without the zeros in front. */
  function Plain(id: string): string {
    if id != "" && id[0] == '0' then Plain(id[1..]) else id
  }

  ghost predicate Digits(id: string) {
    forall i :: 0 <= i < |id| ==> '0' <= id[i] <= '9'
  }

  lemma {:induction false} NumericOfPlain(id: string)
    requires Digits(id)
    ensures Digits(Plain(id)) && NumericId(Plain(id)) == NumericId(id)
    ensures Plain(id) != "" ==> Plain(id)[0] != '0'
  {
    if id != "" && id[0] == '0' {
      NumericOfPlain(id[1..]);
      ZeroInFront(id[1..]);
      assert ['0'] + id[1..] == id;
    }
  }

  lemma {:induction false} ZeroInFront(id: string)
    ensures NumericId(['0'] + id) == NumericId(id)
  {
    if id == "" {
      assert ['0'][..0] == [];
    } else {
      var n := |id| - 1;
      ZeroInFront(id[..n]);
      assert (['0'] + id)[..n + 1] == ['0'] + id[..n];
    }
  }

  lemma {:induction false} NumericPositive(id: string)
    requires Digits(id)
    ensures NumericId(id) >= 0
    ensures id != "" && id[0] != '0' ==> NumericId(id) > 0
  {
    if id != "" {
      NumericPositive(id[..|id| - 1]);
    }
  }

  lemma {:induction false} NumericInjective(a: string, b: string)
    requires Digits(a) && Digits(b) && (a != "" ==> a[0] != '0') && (b != "" ==> b[0] != '0')
    ensures NumericId(a) == NumericId(b) <==> a == b
  {
    NumericPositive(a);
    NumericPositive(b);
    if a != "" && b != "" {
      var m, n := |a| - 1, |b| - 1;
      NumericInjective(a[..m], b[..n]);
      assert a == a[..m] + [a[m]] && b == b[..n] + [b[n]];
    }
  }

  /** Two products have the same number exactly if their ids differ in nothing but zeros in
      front. */
  lemma SameNumberIff(a: string, b: string)
    requires Digits(a) && Digits(b)
    ensures NumericId(a) == NumericId(b) <==> Plain(a) == Plain(b)
  {
    NumericOfPlain(a);
    NumericOfPlain(b);
    NumericInjective(Plain(a), Plain(b));
  }

  ghost predicate KeysDiffer(rows: seq<Row>) {
    forall i, j :: 0 <= i < j < |rows| ==> KeyOf(rows[i]) != KeyOf(rows[j])
  }

  lemma {:induction false} CandidatesDiffer(rows: seq<Row>, excluded: set<string>, categories: Option<set<string>>)
    ensures KeysDiffer(Candidates(rows, excluded, categories))
  {
    if rows != [] {
      var n := |rows| - 1;
      CandidatesDiffer(rows[..n], excluded, categories);
      var before := Candidates(rows[..n], excluded, categories);
      var c := Candidates(rows, excluded, categories);
      forall i, j | 0 <= i < j < |c|
        ensures KeyOf(c[i]) != KeyOf(c[j])
      {
        if j < |before| {
          assert c[i] == before[i] && c[j] == before[j];
        } else {
          assert c[i] in before;
        }
      }
    }
  }

  function CategoryCount(rows: seq<Row>, category: string): nat {
    if rows == [] then 0
    else CategoryCount(rows[..|rows| - 1], category) + if rows[|rows| - 1].category == category then 1 else 0
  }

  lemma {:induction false} CategoryCountPositive(rows: seq<Row>, category: string)
    ensures CategoryCount(rows, category) > 0 <==> exists r :: r in rows && r.category == category
  {
    if rows != [] {
      var n := |rows| - 1;
      CategoryCountPositive(rows[..n], category);
      assert forall r :: r in rows <==> r in rows[..n] || r == rows[n];
    }
  }

  /** Once every candidate's category is allowed, allowing only some categories changes
      nothing: the sampler sees the very rows that were counted. */
  lemma {:induction false} AllowedCandidates(rows: seq<Row>, excluded: set<string>, allowed: set<string>)
    requires forall r :: r in Candidates(rows, excluded, None) ==> r.category in allowed
    ensures Candidates(rows, excluded, Some(allowed)) == Candidates(rows, excluded, None)
  {
    if rows != [] {
      var n := |rows| - 1;
      AllowedCandidates(rows[..n], excluded, allowed);
      var before := Candidates(rows[..n], excluded, None);
      var r := rows[n];
      if Usable(r, excluded) && KeyOf(r) !in Keys(before) {
        assert r in before + [r];
      }
    }
  }

  // ---------------------------------------------------------------- the counting pass

  /** The table's entries are exactly the categories that occur, with their counts. */
  ghost predicate CountsOf(order: seq<string>, counts: map<string, int>, rows: seq<Row>) {
    && Quotas.Distinct(order) && (forall k :: k in order <==> k in counts)
    && (forall k :: k in counts ==> counts[k] == CategoryCount(rows, k) > 0)
    && (forall r :: r in rows ==> r.category in counts)
  }

  lemma CountsNext(order: seq<string>, counts: map<string, int>, rows: seq<Row>, row: Row)
    requires CountsOf(order, counts, rows)
    ensures row.category in counts ==>
              CountsOf(order, counts[row.category := counts[row.category] + 1], rows + [row])
    ensures row.category !in counts ==>
              CountsOf(order + [row.category], counts[row.category := 1], rows + [row])
  {
    var longer := rows + [row];
    forall k
      ensures CategoryCount(longer, k) == CategoryCount(rows, k) + if row.category == k then 1 else 0
    {
      assert longer[..|rows|] == rows;
    }
    CategoryCountPositive(rows, row.category);
  }

  lemma NextCandidate(rows: seq<Row>, excluded: set<string>, categories: Option<set<string>>, i: nat)
    requires i < |rows|
    ensures var before := Candidates(rows[..i], excluded, categories);
            var r := rows[i];
            Candidates(rows[..i + 1], excluded, categories) ==
            if Usable(r, excluded) && (categories.Some? ==> r.category in categories.value) && KeyOf(r) !in Keys(before)
            then before + [r] else before
  {
    assert rows[..i + 1][..i] == rows[..i];
  }

  lemma KeysNext(rows: seq<Row>, row: Row)
    ensures Keys(rows + [row]) == Keys(rows) + {KeyOf(row)}
  {
    assert forall r :: r in rows + [row] <==> r in rows || r == row;
  }

  method CountLarge(rows: seq<Row>, excluded: set<string>)
    returns (order: seq<string>, counts: map<string, int>, seen: set<int>)
    ensures CountsOf(order, counts, Candidates(rows, excluded, None))
    ensures seen == Keys(Candidates(rows, excluded, None))
  {
    hide Candidates, CountsOf, Keys;
    order, counts, seen := [], map[], {};
    ghost var found: seq<Row> := [];
    NothingCounted(excluded);
    assert rows[..0] == [];
    for i := 0 to |rows|
      invariant found == Candidates(rows[..i], excluded, None)
      invariant CountsOf(order, counts, found) && seen == Keys(found)
    {
      var row := rows[i];
      NextCandidate(rows, excluded, None, i);
      if Usable(row, excluded) && KeyOf(row) !in seen {
        CountsNext(order, counts, found, row);
        KeysNext(found, row);
        seen := seen + {KeyOf(row)};
        if row.category in counts {
          counts := counts[row.category := counts[row.category] + 1];
        } else {
          order := order + [row.category];
          counts := counts[row.category := 1];
        }
        found := found + [row];
      }
    }
    assert rows[..|rows|] == rows;
  }

  lemma NothingCounted(excluded: set<string>)
    ensures Candidates([], excluded, None) == [] && CountsOf([], map[], []) && Keys([]) == {}
  {
  }

  // ---------------------------------------------------------------- bounded heaps

  /** Heap order: the row to give up first has the highest score, then the smallest id. */
  predicate GivesWayTo(a: Row, b: Row) {
    a.score > b.score || (a.score == b.score && LexLe(a.productId, b.productId))
  }

  lemma HeapOrders()
    ensures TotalPreorder(GivesWayTo)
  {
    forall a, b
      ensures GivesWayTo(a, b) || GivesWayTo(b, a)
    {
      LexTotal(a.productId, b.productId);
    }
    forall a, b, c | GivesWayTo(a, b) && GivesWayTo(b, c)
      ensures GivesWayTo(a, c)
    {
      if a.score == b.score == c.score {
        LexTransitive(a.productId, b.productId, c.productId);
      }
    }
  }

  /** A heap of capacity `quota` over the rows of one category: all of them while there is
      room, and otherwise rows that none of the rejected ones beats. */
  ghost predicate KeepsBest(heap: seq<Row>, rows: seq<Row>, category: string, quota: nat) {
    && Sorted(heap, GivesWayTo)
    && (forall i, j :: 0 <= i < j < |heap| ==> heap[i] != heap[j])
    && (forall y :: y in heap ==> y in rows && y.category == category)
    && |heap| == Min(quota, CategoryCount(rows, category))
    && (|heap| < quota ==> forall x :: x in rows && x.category == category ==> x in heap)
    && (forall x, y :: x in rows && x.category == category && x !in heap && y in heap ==> y.score <= x.score)
  }

  /** What a heap makes of one more row. */
  function Offer(heap: seq<Row>, row: Row, quota: nat): seq<Row>
    requires quota > 0
  {
    if |heap| < quota then Insert(row, heap, GivesWayTo)
    else if row.score < heap[0].score then Insert(row, heap[1..], GivesWayTo)
    else heap
  }

  lemma InsertMembers(row: Row, heap: seq<Row>)
    requires row !in heap && Sorted(heap, GivesWayTo)
    requires forall i, j :: 0 <= i < j < |heap| ==> heap[i] != heap[j]
    ensures var h := Insert(row, heap, GivesWayTo);
            && |h| == |heap| + 1 && Sorted(h, GivesWayTo)
            && (forall y :: y in h <==> y == row || y in heap)
            && (forall i, j :: 0 <= i < j < |h| ==> h[i] != h[j])
  {
    var h := Insert(row, heap, GivesWayTo);
    HeapOrders();
    InsertKeepsSorted(row, heap, GivesWayTo);
    InsertPermutes(row, heap, GivesWayTo);
    forall y
      ensures y in h <==> y == row || y in heap
    {
      assert y in multiset(h) <==> y in multiset{row} + multiset(heap);
    }
    InsertDistinct(row, heap);
  }

  lemma {:induction false} InsertDistinct(row: Row, heap: seq<Row>)
    requires row !in heap
    requires forall i, j :: 0 <= i < j < |heap| ==> heap[i] != heap[j]
    ensures var h := Insert(row, heap, GivesWayTo); forall i, j :: 0 <= i < j < |h| ==> h[i] != h[j]
  {
    if heap != [] && !GivesWayTo(row, heap[0]) {
      InsertDistinct(row, heap[1..]);
      InsertPermutes(row, heap[1..], GivesWayTo);
      var t := Insert(row, heap[1..], GivesWayTo);
      forall k | 0 <= k < |t|
        ensures t[k] != heap[0]
      {
        assert t[k] in multiset(t);
        assert t[k] == row || t[k] in heap[1..];
      }
    }
  }

  lemma TopIsWorst(heap: seq<Row>, y: Row)
    requires Sorted(heap, GivesWayTo) && y in heap
    ensures y.score <= heap[0].score
  {
    var i :| 0 <= i < |heap| && heap[i] == y;
    assert i == 0 || GivesWayTo(heap[0], heap[i]);
  }

  /** Replacing the worst kept row by a better one keeps the best rows. */
  lemma ReplaceKeepsBest(heap: seq<Row>, rows: seq<Row>, row: Row, quota: nat)
    requires quota > 0 && KeepsBest(heap, rows, row.category, quota) && row !in rows
    requires |heap| == quota && row.score < heap[0].score
    ensures KeepsBest(Insert(row, heap[1..], GivesWayTo), rows + [row], row.category, quota)
  {
    assert (rows + [row])[..|rows|] == rows;
    var next := Insert(row, heap[1..], GivesWayTo);
    assert heap == [heap[0]] + heap[1..];
    InsertMembers(row, heap[1..]);
    forall x, y | x in rows + [row] && x.category == row.category && x !in next && y in next
      ensures y.score <= x.score
    {
      assert x != row && x in rows;
      assert x == heap[0] || x !in heap;
      if y != row {
        TopIsWorst(heap, y);
      }
      assert heap[0] in heap;
    }
  }

  /** The next row of a category leaves the heap holding the best rows so far. */
  lemma OfferKeepsBest(heap: seq<Row>, rows: seq<Row>, row: Row, quota: nat)
    requires quota > 0 && KeepsBest(heap, rows, row.category, quota) && row !in rows
    ensures KeepsBest(Offer(heap, row, quota), rows + [row], row.category, quota)
  {
    assert (rows + [row])[..|rows|] == rows;
    if |heap| < quota {
      InsertMembers(row, heap);
    } else if row.score < heap[0].score {
      ReplaceKeepsBest(heap, rows, row, quota);
    } else {
      forall y | y in heap
        ensures y.score <= row.score
      {
        TopIsWorst(heap, y);
      }
    }
  }

  /** A row of another category is no business of this heap. */
  lemma OtherCategory(heap: seq<Row>, rows: seq<Row>, row: Row, category: string, quota: nat)
    requires KeepsBest(heap, rows, category, quota) && row.category != category
    ensures KeepsBest(heap, rows + [row], category, quota)
  {
    assert (rows + [row])[..|rows|] == rows;
  }

  // ---------------------------------------------------------------- the streaming pass

  /** Every category's heap, as the rows seen so far leave it. */
  ghost predicate HeapsKeepBest(heaps: map<string, seq<Row>>, quotas: map<string, nat>, rows: seq<Row>) {
    heaps.Keys == quotas.Keys && forall k :: k in quotas ==> KeepsBest(heaps[k], rows, k, quotas[k])
  }

  lemma HeapsNext(heaps: map<string, seq<Row>>, quotas: map<string, nat>, rows: seq<Row>, row: Row)
    requires HeapsKeepBest(heaps, quotas, rows) && row !in rows && row.category in quotas
    ensures var k := row.category;
            HeapsKeepBest(if quotas[k] > 0 then heaps[k := Offer(heaps[k], row, quotas[k])] else heaps,
                          quotas, rows + [row])
  {
    var k := row.category;
    var next := if quotas[k] > 0 then heaps[k := Offer(heaps[k], row, quotas[k])] else heaps;
    forall j | j in quotas
      ensures KeepsBest(next[j], rows + [row], j, quotas[j])
    {
      if j != k {
        OtherCategory(heaps[j], rows, row, j, quotas[j]);
      } else if quotas[k] > 0 {
        OfferKeepsBest(heaps[k], rows, row, quotas[k]);
      }
    }
  }

  lemma NothingKept(quotas: map<string, nat>)
    ensures HeapsKeepBest(map k | k in quotas :: [], quotas, [])
  {
  }

  /** One pass over the rows. A target of zero leaves no slot in the global reservoir, and
      the first candidate row then finds it empty. */
  method StreamRows(rows: seq<Row>, excluded: set<string>, quotas: map<string, nat>, target: nat)
    returns (ok: bool, heaps: map<string, seq<Row>>, reservoir: seq<Row>, seen: set<int>)
    ensures !ok <==> target == 0 && Candidates(rows, excluded, Some(quotas.Keys)) != []
    ensures ok ==> HeapsKeepBest(heaps, quotas, Candidates(rows, excluded, Some(quotas.Keys)))
    ensures ok ==> seen == Keys(Candidates(rows, excluded, Some(quotas.Keys)))
    ensures ok ==> forall r :: r in reservoir ==> r in Candidates(rows, excluded, Some(quotas.Keys))
  {
    hide Candidates, Keys, HeapsKeepBest, Usable, NumericId;
    heaps, reservoir, seen := map k | k in quotas :: [], [], {};
    ghost var found: seq<Row> := [];
    NothingKept(quotas);
    NoRowsNoCandidates(excluded, Some(quotas.Keys));
    assert rows[..0] == [];
    for i := 0 to |rows|
      invariant found == Candidates(rows[..i], excluded, Some(quotas.Keys))
      invariant HeapsKeepBest(heaps, quotas, found) && heaps.Keys == quotas.Keys
      invariant seen == Keys(found)
      invariant |reservoir| <= target && (target == 0 ==> found == [])
      invariant found != [] ==> reservoir != []
      invariant forall r :: r in reservoir ==> r in found
    {
      var row := rows[i];
      NextCandidate(rows, excluded, Some(quotas.Keys), i);
      if Usable(row, excluded) && row.category in quotas && KeyOf(row) !in seen {
        NewRow(found, row);
        seen := seen + {KeyOf(row)};
        KeysNext(found, row);
        HeapsNext(heaps, quotas, found, row);
        if quotas[row.category] > 0 {
          heaps := heaps[row.category := Offer(heaps[row.category], row, quotas[row.category])];
        }
        if |reservoir| < target {
          InsertPermutes(row, reservoir, GivesWayTo);
          InsertedMembers(row, reservoir);
          reservoir := Insert(row, reservoir, GivesWayTo);
        } else if reservoir == [] {
          StillCandidates(rows, excluded, Some(quotas.Keys), i + 1);
          ok := false;
          return;
        } else if row.score < reservoir[0].score {
          InsertPermutes(row, reservoir[1..], GivesWayTo);
          InsertedMembers(row, reservoir[1..]);
          reservoir := Insert(row, reservoir[1..], GivesWayTo);
        }
        found := found + [row];
      }
    }
    assert rows[..|rows|] == rows;
    ok := true;
  }

  lemma NoRowsNoCandidates(excluded: set<string>, categories: Option<set<string>>)
    ensures Candidates([], excluded, categories) == [] && Keys([]) == {}
  {
  }

  lemma NewRow(found: seq<Row>, row: Row)
    requires KeyOf(row) !in Keys(found)
    ensures row !in found
  {
  }

  lemma InsertedMembers(row: Row, heap: seq<Row>)
    ensures forall y :: y in Insert(row, heap, GivesWayTo) ==> y == row || y in heap
  {
    InsertPermutes(row, heap, GivesWayTo);
    forall y | y in Insert(row, heap, GivesWayTo)
      ensures y == row || y in heap
    {
      assert y in multiset(Insert(row, heap, GivesWayTo));
    }
  }

  lemma {:induction false} StillCandidates(rows: seq<Row>, excluded: set<string>, categories: Option<set<string>>,
      i: nat)
    requires i <= |rows|
    ensures Candidates(rows[..i], excluded, categories) <= Candidates(rows, excluded, categories)
  {
    if i < |rows| {
      assert rows[..|rows| - 1][..i] == rows[..i];
      StillCandidates(rows[..|rows| - 1], excluded, categories, i);
    } else {
      assert rows[..i] == rows;
    }
  }

  // ---------------------------------------------------------------- selection

  ghost predicate IdsDiffer(rows: seq<Row>) {
    forall i, j :: 0 <= i < j < |rows| ==> rows[i].productId != rows[j].productId
  }

  predicate HasId(rows: seq<Row>, id: string) {
    exists r :: r in rows && r.productId == id
  }

  /** Stores a row under its product id, keeping the place of an earlier one. */
  function Put(selected: seq<Row>, row: Row): seq<Row> {
    if selected == [] then [row]
    else if selected[0].productId == row.productId then [row] + selected[1..]
    else [selected[0]] + Put(selected[1..], row)
  }

  lemma {:induction false} PutNew(selected: seq<Row>, row: Row)
    requires !HasId(selected, row.productId)
    ensures Put(selected, row) == selected + [row]
  {
    if selected != [] {
      assert selected[0] in selected;
      PutNew(selected[1..], row);
    }
  }

  predicate ScoresUp(a: Row, b: Row) {
    a.score <= b.score
  }

  /** Rows are selected exactly if some heap kept them. */
  ghost predicate FromHeaps(selected: seq<Row>, heaps: map<string, seq<Row>>, keys: seq<string>) {
    forall y :: y in selected <==> exists k :: k in keys && k in heaps && y in heaps[k]
  }

  /** Heaps over the quotas' categories: each holds rows of its own category, all with
      different ids, as many as the quota says. */
  ghost predicate FullHeaps(heaps: map<string, seq<Row>>, quotas: map<string, nat>, keys: seq<string>) {
    && Quotas.Distinct(keys)
    && (forall k :: k in keys ==> k in heaps && k in quotas && |heaps[k]| == quotas[k] && IdsDiffer(heaps[k]))
    && (forall k, y :: k in keys && y in heaps[k] ==> y.category == k)
    && (forall j, k, x, y :: j in keys && k in keys && j != k && x in heaps[j] && y in heaps[k] ==>
        x.productId != y.productId)
  }

  lemma {:induction false} PutKeepsIds(selected: seq<Row>, row: Row)
    requires IdsDiffer(selected)
    ensures IdsDiffer(Put(selected, row))
    ensures forall y :: y in Put(selected, row) ==> y == row || y in selected
  {
    if selected != [] {
      PutKeepsIds(selected[1..], row);
      if selected[0].productId != row.productId {
        var rest := Put(selected[1..], row);
        forall j | 0 <= j < |rest|
          ensures rest[j].productId != selected[0].productId
        {
          assert rest[j] in rest;
          assert rest[j] == row || rest[j] in selected[1..];
        }
      }
    }
  }

  /** Puts the rows of all heaps together, one per product id. */
  method Gather(keys: seq<string>, heaps: map<string, seq<Row>>, ghost quotas: map<string, nat>)
      returns (selected: seq<Row>)
    requires forall k :: k in keys ==> k in heaps && k in quotas
    ensures IdsDiffer(selected)
    ensures forall y :: y in selected ==> exists k :: k in keys && y in heaps[k]
    ensures FullHeaps(heaps, quotas, keys) ==> FromHeaps(selected, heaps, keys) && |selected| == Sum(keys, quotas)
  {
    hide Sum, Put;
    selected := [];
    ghost var full := FullHeaps(heaps, quotas, keys);
    SumSplits(keys, quotas, 0);
    for i := 0 to |keys|
      invariant IdsDiffer(selected)
      invariant forall y :: y in selected ==> exists k :: k in keys && y in heaps[k]
      invariant full ==> FromHeaps(selected, heaps, keys[..i]) && |selected| == Sum(keys[..i], quotas)
    {
      var k := keys[i];
      assert k in keys;
      SumSplits(keys, quotas, i);
      ghost var before := selected;
      for n := 0 to |heaps[k]|
        invariant IdsDiffer(selected)
        invariant forall y :: y in selected ==> exists k :: k in keys && y in heaps[k]
        invariant full ==> selected == before + heaps[k][..n]
      {
        var row := heaps[k][n];
        assert row in heaps[k];
        PutKeepsIds(selected, row);
        if full {
          FreshId(before, heaps, quotas, keys, i, n);
          PutNew(selected, row);
          assert heaps[k][..n + 1] == heaps[k][..n] + [row];
        }
        selected := Put(selected, row);
      }
      if full {
        assert heaps[k][..|heaps[k]|] == heaps[k];
        NextHeap(before, heaps, keys, i);
      }
    }
    assert keys[..|keys|] == keys;
  }

  lemma SumSplits(keys: seq<string>, quotas: map<string, nat>, i: nat)
    requires i <= |keys| && forall k :: k in keys ==> k in quotas
    ensures Sum(keys[..0], quotas) == 0
    ensures i < |keys| ==> Sum(keys[..i + 1], quotas) == Sum(keys[..i], quotas) + quotas[keys[i]]
  {
    if i < |keys| {
      assert keys[..i + 1][..i] == keys[..i];
    }
  }

  lemma NextHeap(before: seq<Row>, heaps: map<string, seq<Row>>, keys: seq<string>, i: nat)
    requires i < |keys| && keys[i] in heaps && FromHeaps(before, heaps, keys[..i])
    ensures FromHeaps(before + heaps[keys[i]], heaps, keys[..i + 1])
  {
    assert keys[..i + 1] == keys[..i] + [keys[i]];
    forall y | y in before + heaps[keys[i]]
      ensures exists k :: k in keys[..i + 1] && k in heaps && y in heaps[k]
    {
      if y in heaps[keys[i]] {
        assert keys[i] in keys[..i + 1];
      } else {
        var k :| k in keys[..i] && k in heaps && y in heaps[k];
        assert k in keys[..i + 1];
      }
    }
  }

  lemma FreshId(before: seq<Row>, heaps: map<string, seq<Row>>, quotas: map<string, nat>, keys: seq<string>, i: nat,
      n: nat)
    requires FullHeaps(heaps, quotas, keys) && i < |keys| && keys[i] in keys && n < |heaps[keys[i]]|
    requires FromHeaps(before, heaps, keys[..i])
    ensures !HasId(before + heaps[keys[i]][..n], heaps[keys[i]][n].productId)
  {
    var k := keys[i];
    var row := heaps[k][n];
    forall y | y in before + heaps[k][..n]
      ensures y.productId != row.productId
    {
      if y in before {
        var j :| j in keys[..i] && j in heaps && y in heaps[j];
        assert j in keys && j != k;
        assert row in heaps[k];
      } else {
        var m :| 0 <= m < n && heaps[k][m] == y;
      }
    }
  }

  /** Selection after the pass: the heaps' rows, topped up from the reservoir if they are
      too few, in rising order of score. Full heaps need no topping up. */
  method SelectRows(keys: seq<string>, heaps: map<string, seq<Row>>, ghost quotas: map<string, nat>,
                    reservoir: seq<Row>, target: nat)
    returns (r: Result<seq<Row>, SampleError>, ghost toppedUp: bool)
    requires forall k :: k in keys ==> k in heaps && k in quotas
    ensures r.Ok? ==> |r.value| == target && IdsDiffer(r.value) && Sorted(r.value, ScoresUp)
    ensures r.Ok? ==> forall y :: y in r.value ==> y in reservoir || exists k :: k in keys && y in heaps[k]
    ensures r.Err? ==> r.error.WrongCount?
    ensures FullHeaps(heaps, quotas, keys) && Sum(keys, quotas) == target ==>
              r.Ok? && !toppedUp && FromHeaps(r.value, heaps, keys)
  {
    var selected := Gather(keys, heaps, quotas);
    ghost var gathered := selected;
    toppedUp := false;
    if |selected| < target {
      toppedUp := true;
      var i := |reservoir|;
      while i > 0 && |selected| != target
        invariant 0 <= i <= |reservoir| && IdsDiffer(selected)
        invariant forall y :: y in selected ==> y in reservoir || exists k :: k in keys && y in heaps[k]
      {
        i := i - 1;
        if !HasId(selected, reservoir[i].productId) {
          PutNew(selected, reservoir[i]);
          PutKeepsIds(selected, reservoir[i]);
          selected := Put(selected, reservoir[i]);
        }
      }
    }
    if |selected| != target {
      return Err(WrongCount(|selected|)), toppedUp;
    }
    var sorted := Sort(selected, ScoresUp);
    SortedSelection(selected, sorted);
    return Ok(sorted), toppedUp;
  }

  lemma SortedSelection(selected: seq<Row>, sorted: seq<Row>)
    requires IdsDiffer(selected) && sorted == Sort(selected, ScoresUp)
    ensures |sorted| == |selected| && Sorted(sorted, ScoresUp) && IdsDiffer(sorted)
    ensures forall y :: y in sorted <==> y in selected
  {
    SortSorts(selected, ScoresUp);
    SortPermutes(selected, ScoresUp);
    forall y
      ensures y in sorted <==> y in selected
    {
      SortSameElements(selected, ScoresUp, y);
    }
    RearrangedDistinct(selected, sorted, (r: Row) => r.productId);
  }

  // ---------------------------------------------------------------- both passes together

  lemma {:induction false} CountsAddUp(keys: seq<string>, counts: map<string, nat>, rows: seq<Row>)
    requires Quotas.Distinct(keys) && forall k :: k in keys ==> k in counts && counts[k] == CategoryCount(rows, k)
    requires forall r :: r in rows ==> r.category in keys
    ensures Sum(keys, counts) == |rows|
  {
    if rows == [] {
      SumZero(keys, counts);
    } else {
      var n := |rows| - 1;
      var c := rows[n].category;
      var fewer := map k | k in counts :: CategoryCount(rows[..n], k);
      assert rows[n] in rows;
      assert forall k :: k in keys ==> counts[k] == fewer[k] + if k == c then 1 else 0;
      hide CategoryCount, Sum, Quotas.Distinct;
      CountsAddUp(keys, fewer, rows[..n]);
      SumUpdate(keys, fewer, c, fewer[c] + 1);
      SumFrame(keys, counts, fewer[c := fewer[c] + 1]);
    }
  }

  /** Every counted category is eligible, and the counts add up to the candidates. */
  lemma CountsMean(order: seq<string>, counts: map<string, int>, rows: seq<Row>)
    requires CountsOf(order, counts, rows)
    ensures var names := EligibleKeys(order, counts);
            && Quotas.Distinct(names) && (forall k :: k in names <==> k in Eligible(counts))
            && Sum(names, Eligible(counts)) == |rows|
    ensures forall k :: k in Eligible(counts) ==> Eligible(counts)[k] == CategoryCount(rows, k)
    ensures forall r :: r in rows ==> r.category in Eligible(counts)
  {
    EligibleKeysMeaning(order, counts);
    hide EligibleKeys, Sum;
    CountsAddUp(EligibleKeys(order, counts), Eligible(counts), rows);
  }

  /** Heaps that kept the best of at least as many rows as they hold are full. */
  lemma HeapsAreFull(keys: seq<string>, heaps: map<string, seq<Row>>, quotas: map<string, nat>, rows: seq<Row>)
    requires Quotas.Distinct(keys) && (forall k :: k in keys <==> k in quotas) && HeapsKeepBest(heaps, quotas, rows)
    requires KeysDiffer(rows) && forall k :: k in quotas ==> quotas[k] <= CategoryCount(rows, k)
    ensures FullHeaps(heaps, quotas, keys)
  {
    forall k | k in keys
      ensures IdsDiffer(heaps[k])
    {
      assert KeepsBest(heaps[k], rows, k, quotas[k]);
      forall i, j | 0 <= i < j < |heaps[k]|
        ensures heaps[k][i].productId != heaps[k][j].productId
      {
        assert heaps[k][i] in heaps[k] && heaps[k][j] in heaps[k];
        SameIdSameRow(rows, heaps[k][i], heaps[k][j]);
      }
    }
    forall j, k, x, y | j in keys && k in keys && j != k && x in heaps[j] && y in heaps[k]
      ensures x.productId != y.productId
    {
      assert KeepsBest(heaps[j], rows, j, quotas[j]) && KeepsBest(heaps[k], rows, k, quotas[k]);
      SameIdSameRow(rows, x, y);
    }
    forall k | k in keys
      ensures |heaps[k]| == quotas[k] && forall y :: y in heaps[k] ==> y.category == k
    {
      assert KeepsBest(heaps[k], rows, k, quotas[k]);
    }
  }

  lemma SameIdSameRow(rows: seq<Row>, x: Row, y: Row)
    requires KeysDiffer(rows) && x in rows && y in rows
    ensures x.productId == y.productId ==> x == y
  {
    var i :| 0 <= i < |rows| && rows[i] == x;
    var j :| 0 <= j < |rows| && rows[j] == y;
    assert KeyOf(x) == KeyOf(rows[i]) && KeyOf(y) == KeyOf(rows[j]);
  }

  /** What a sample of `target` rows out of the candidates must be: the quotas add up to
      the target, every category's heap is full with the best rows of that category, and the
      sample is exactly what the heaps hold, in rising order of score. */
  ghost predicate SampleSound(sample: seq<Row>, found: seq<Row>, target: nat, keys: seq<string>,
                              quotas: map<string, nat>, heaps: map<string, seq<Row>>)
  {
    && |sample| == target && IdsDiffer(sample)
    && (forall i, j :: 0 <= i < j < |sample| ==> sample[i].score <= sample[j].score)
    && (forall k :: k in keys <==> k in quotas) && quotas.Keys == heaps.Keys && Sum(keys, quotas) == target
    && FromHeaps(sample, heaps, keys)
    && (forall k :: k in quotas ==> |heaps[k]| == quotas[k] && KeepsBest(heaps[k], found, k, quotas[k]))
  }

  /** The quotas are shared out in fair rounds over the candidates' own category counts. */
  ghost predicate SharedOut(quotas: map<string, nat>, found: seq<Row>, target: nat, weight: Weigher) {
    exists names: seq<string>, counts: map<string, nat>, trail: seq<map<string, nat>> ::
      && (forall k :: k in names ==> k in counts)
      && (forall k :: k in counts ==> counts[k] == CategoryCount(found, k))
      && Rounds(trail, names, counts, weight, target, Beginning(names, counts, target), quotas)
  }

  lemma SharedOutBy(trail: seq<map<string, nat>>, names: seq<string>, counts: map<string, nat>,
                    quotas: map<string, nat>, found: seq<Row>, target: nat, weight: Weigher)
    requires forall k :: k in names ==> k in counts
    requires forall k :: k in counts ==> counts[k] == CategoryCount(found, k)
    requires Rounds(trail, names, counts, weight, target, Beginning(names, counts, target), quotas)
    ensures SharedOut(quotas, found, target, weight)
  {
  }

  /** The quota step of a sample whose counts are those of the candidates. */
  method QuotasFor(order: seq<string>, counts: map<string, int>, ghost found: seq<Row>, target: nat, weight: Weigher)
    returns (r: Option<map<string, nat>>, names: seq<string>)
    requires Positive(weight) && CountsOf(order, counts, found)
    ensures r == None <==> |found| < target
    ensures Quotas.Distinct(names)
    ensures r.Some? ==>
              && (forall k :: k in names <==> k in r.value) && Sum(names, r.value) == target
              && (forall k :: k in r.value ==> r.value[k] <= CategoryCount(found, k))
              && (forall x :: x in found ==> x.category in r.value)
              && SharedOut(r.value, found, target, weight)
  {
    CountsMean(order, counts, found);
    hide Sum, EligibleKeys, Minimums, Beginning, Rounds, SharedOut, CategoryCount, Quotas.Distinct, Positive, Eligible;
    var allotted, trail := AllocateQuotas(order, counts, target, weight);
    names := EligibleKeys(order, counts);
    match allotted
    case Ok(value) =>
      SharedOutBy(trail, names, Eligible(counts), value, found, target, weight);
      r := Some(value);
    case Err(error) =>
      assert error == NotEnoughRecords || error == WrongSum;
      r := None;
  }

  /** Counting, allocating, streaming and selecting on the same rows and filters. With
      enough candidates and at least one row to draw, the sample has exactly the target
      size, follows the quotas category by category, prefers low scores within each, and
      never falls back on the reservoir; a target of zero fails as soon as there is one
      candidate. */
  method BuildSample(rows: seq<Row>, excluded: set<string>, target: nat, weight: Weigher)
    returns (r: Result<seq<Row>, SampleError>, ghost keys: seq<string>, ghost quotas: map<string, nat>,
             ghost heaps: map<string, seq<Row>>, ghost toppedUp: bool)
    requires Positive(weight)
    ensures var found := Candidates(rows, excluded, None);
            && (r == Err(QuotaFailed(NotEnoughRecords)) <==> |found| < target)
            && (r == Err(EmptyReservoir) <==> target == 0 && found != [])
            && (r.Ok? <==> target <= |found| && (target == 0 ==> found == []))
            && (r.Ok? ==> |r.value| == target && IdsDiffer(r.value) && Sorted(r.value, ScoresUp))
    ensures r.Ok? ==>
              var found := Candidates(rows, excluded, None);
              && !toppedUp && SampleSound(r.value, found, target, keys, quotas, heaps)
              && SharedOut(quotas, found, target, weight)
  {
    hide Candidates, CountsOf, Keys, FullHeaps, KeepsBest, CategoryCount, Quotas.Distinct, Positive, FromHeaps,
        IdsDiffer, KeysDiffer;
    hide Sum, SharedOut;
    var order, counts, seen := CountLarge(rows, excluded);
    ghost var found := Candidates(rows, excluded, None);
    keys, quotas, heaps, toppedUp := [], map[], map[], false;
    var allotted, names := QuotasFor(order, counts, found, target, weight);
    if allotted == None {
      return Err(QuotaFailed(NotEnoughRecords)), keys, quotas, heaps, toppedUp;
    }
    AllowedCandidates(rows, excluded, allotted.value.Keys);
    var ok, kept, reservoir, seenToo := StreamRows(rows, excluded, allotted.value, target);
    if !ok {
      return Err(EmptyReservoir), keys, quotas, heaps, toppedUp;
    }
    assert seenToo == seen;
    keys, quotas, heaps := names, allotted.value, kept;
    CandidatesDiffer(rows, excluded, None);
    HeapsAreFull(names, kept, allotted.value, found);
    FullSize(names, kept, allotted.value);
    r, toppedUp := SelectRows(names, kept, allotted.value, reservoir, target);
  }

  lemma FullSize(keys: seq<string>, heaps: map<string, seq<Row>>, quotas: map<string, nat>)
    requires FullHeaps(heaps, quotas, keys)
    ensures forall k :: k in keys ==> k in heaps && k in quotas && |heaps[k]| == quotas[k]
  {
  }
}
