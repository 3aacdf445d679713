/** Checkout recovery before anything is scheduled: which abandoned checkouts are usable,
    the newest one per phone, and what the lookup says about each of them. */
module RecoveryRows {
  import opened Sorting
  import opened Wrappers

  /** A checkout as the source query hands it over; a missing text is empty. */
  datatype Raw = Raw(
    checkout: nat, externalId: string, contactPhone: string, updatedAt: Option<int>, recoveryUrl: string)

  datatype Row = Row(checkout: nat, externalId: string, phone: string, updatedAt: int)

  datatype Fault =
    | MissingExternalId | MissingPhone | InvalidPhone
    | InvalidUpdatedAt | MissingRecoveryUrl | InvalidRecoveryUrl

  /** Trimming and phone normalisation, whatever they are. */
  datatype Text = Text(strip: string -> string, e164: string -> Option<string>)

  datatype Issue = Issue(externalId: Option<string>, stage: string, code: string, retryable: bool)

  // ---------------------------------------------------------------- validation

  const CHECKS: seq<Fault> :=
    [MissingExternalId, MissingPhone, InvalidPhone, InvalidUpdatedAt, MissingRecoveryUrl, InvalidRecoveryUrl]

  predicate Passes(raw: Raw, check: Fault, text: Text) {
    var url := text.strip(raw.recoveryUrl);
    match check
    case MissingExternalId => text.strip(raw.externalId) != ""
    case MissingPhone => raw.contactPhone != ""
    case InvalidPhone => text.e164(raw.contactPhone).Some?
    case InvalidUpdatedAt => raw.updatedAt.Some?
    case MissingRecoveryUrl => url != ""
    case InvalidRecoveryUrl => "https://" <= url || "http://localhost" <= url
  }

  /** The earliest check that the row fails, if it fails one. */
  function FaultOf(raw: Raw, text: Text): (fault: Option<Fault>)
    ensures fault == None <==> forall i :: 0 <= i < |CHECKS| ==> Passes(raw, CHECKS[i], text)
    ensures fault.Some? ==>
              exists i :: 0 <= i < |CHECKS| && CHECKS[i] == fault.value && !Passes(raw, CHECKS[i], text)
                          && forall j :: 0 <= j < i ==> Passes(raw, CHECKS[j], text)
  {
    FailingChecks(raw, text);
    var url := text.strip(raw.recoveryUrl);
    if text.strip(raw.externalId) == "" then Some(MissingExternalId)
    else if raw.contactPhone == "" then Some(MissingPhone)
    else if text.e164(raw.contactPhone) == None then Some(InvalidPhone)
    else if raw.updatedAt == None then Some(InvalidUpdatedAt)
    else if url == "" then Some(MissingRecoveryUrl)
    else if !("https://" <= url || "http://localhost" <= url) then Some(InvalidRecoveryUrl)
    else None
  }

  lemma FailingChecks(raw: Raw, text: Text)
    ensures forall i :: 0 <= i < |CHECKS| ==> (Passes(raw, CHECKS[i], text) <==>
              (i == 0 && Passes(raw, MissingExternalId, text)) || (i == 1 && Passes(raw, MissingPhone, text))
              || (i == 2 && Passes(raw, InvalidPhone, text)) || (i == 3 && Passes(raw, InvalidUpdatedAt, text))
              || (i == 4 && Passes(raw, MissingRecoveryUrl, text)) || (i == 5 && Passes(raw, InvalidRecoveryUrl, text)))
    ensures CHECKS[0] == MissingExternalId && CHECKS[1] == MissingPhone && CHECKS[2] == InvalidPhone
    ensures CHECKS[3] == InvalidUpdatedAt && CHECKS[4] == MissingRecoveryUrl && CHECKS[5] == InvalidRecoveryUrl
  {
  }

  function CodeOf(fault: Fault): string {
    match fault
    case MissingExternalId => "missing_external_id"
    case MissingPhone => "missing_phone"
    case InvalidPhone => "invalid_phone"
    case InvalidUpdatedAt => "invalid_updated_at"
    case MissingRecoveryUrl => "missing_recovery_url"
    case InvalidRecoveryUrl => "invalid_recovery_url"
  }

  function Accepted(raw: Raw, text: Text): Row
    requires FaultOf(raw, text) == None
  {
    Row(raw.checkout, raw.externalId, text.e164(raw.contactPhone).value, raw.updatedAt.value)
  }

  function Refused(raw: Raw, text: Text): Issue
    requires FaultOf(raw, text).Some?
  {
    var id := text.strip(raw.externalId);
    Issue(if id == "" then None else Some(id), "source", CodeOf(FaultOf(raw, text).value), false)
  }

  function Valid(raws: seq<Raw>, text: Text): (rows: seq<Row>)
    ensures |rows| + |Invalid(raws, text)| == |raws|
  {
    if raws == [] then []
    else
      var raw := raws[|raws| - 1];
      Valid(raws[..|raws| - 1], text) + (if FaultOf(raw, text) == None then [Accepted(raw, text)] else [])
  }

  function Invalid(raws: seq<Raw>, text: Text): seq<Issue> {
    if raws == [] then []
    else
      var raw := raws[|raws| - 1];
      Invalid(raws[..|raws| - 1], text) + (if FaultOf(raw, text).Some? then [Refused(raw, text)] else [])
  }

  /** A source row that can be worked with. */
  ghost predicate Usable(raw: Raw, text: Text) {
    && text.strip(raw.externalId) != "" && raw.contactPhone != "" && text.e164(raw.contactPhone).Some?
    && raw.updatedAt.Some?
    && var url := text.strip(raw.recoveryUrl); "https://" <= url || "http://localhost" <= url
  }

  /** The row made of it: its phone normalised, everything else as it came. */
  ghost predicate MadeOf(row: Row, raw: Raw, text: Text) {
    && Usable(raw, text) && row.checkout == raw.checkout && row.externalId == raw.externalId
    && text.e164(raw.contactPhone) == Some(row.phone) && raw.updatedAt == Some(row.updatedAt)
  }

  /** What is reported of another: the first thing that is missing or wrong. */
  ghost predicate Complains(issue: Issue, raw: Raw, text: Text) {
    var id, url := text.strip(raw.externalId), text.strip(raw.recoveryUrl);
    && issue.stage == "source" && !issue.retryable
    && issue.externalId == (if id == "" then None else Some(id))
    && if id == "" then issue.code == "missing_external_id"
       else if raw.contactPhone == "" then issue.code == "missing_phone"
       else if text.e164(raw.contactPhone) == None then issue.code == "invalid_phone"
       else if raw.updatedAt == None then issue.code == "invalid_updated_at"
       else if url == "" then issue.code == "missing_recovery_url"
       else issue.code == "invalid_recovery_url"
  }

  lemma UsableIff(raw: Raw, text: Text)
    ensures FaultOf(raw, text) == None <==> Usable(raw, text)
    ensures forall row :: MadeOf(row, raw, text) <==> FaultOf(raw, text) == None && row == Accepted(raw, text)
    ensures FaultOf(raw, text).Some? ==> Complains(Refused(raw, text), raw, text)
  {
    hide Passes, CHECKS;
  }

  /** Some source row is what this row is made of. */
  ghost predicate Sourced(row: Row, raws: seq<Raw>, text: Text) {
    exists raw :: raw in raws && MadeOf(row, raw, text)
  }

  ghost predicate Explained(issue: Issue, raws: seq<Raw>, text: Text) {
    exists raw :: raw in raws && !Usable(raw, text) && Complains(issue, raw, text)
  }

  lemma SourcedNext(row: Row, issue: Issue, raws: seq<Raw>, text: Text)
    requires raws != []
    ensures var n := |raws| - 1;
            && (Sourced(row, raws, text) <==> Sourced(row, raws[..n], text) || MadeOf(row, raws[n], text))
            && (Explained(issue, raws, text) <==>
                  Explained(issue, raws[..n], text) || (!Usable(raws[n], text) && Complains(issue, raws[n], text)))
  {
    hide MadeOf, Usable, Complains;
    assert raws == raws[..|raws| - 1] + [raws[|raws| - 1]];
  }

  /** The valid rows are those made of usable source rows, and every issue is about one that is
      not usable. */
  lemma {:induction false} ValidMeans(raws: seq<Raw>, text: Text, row: Row, issue: Issue)
    ensures row in Valid(raws, text) <==> Sourced(row, raws, text)
    ensures issue in Invalid(raws, text) ==> Explained(issue, raws, text)
  {
    if raws != [] {
      var n := |raws| - 1;
      ValidMeans(raws[..n], text, row, issue);
      UsableIff(raws[n], text);
      SourcedNext(row, issue, raws, text);
      hide MadeOf, Complains, FaultOf, Accepted, Refused, Usable, Sourced, Explained;
    }
  }

  // ---------------------------------------------------------------- one row per phone

  predicate NewestFirst(a: Row, b: Row) {
    a.updatedAt >= b.updatedAt
  }

  /** Where a phone turns up first. */
  function FirstAt(rows: seq<Row>, phone: string): (i: nat)
    ensures i <= |rows|
    ensures i < |rows| ==> rows[i].phone == phone
    ensures forall j :: 0 <= j < i ==> rows[j].phone != phone
  {
    if rows == [] || rows[0].phone == phone then 0 else 1 + FirstAt(rows[1..], phone)
  }

  /** `row` is the newest of its phone; of equally new ones the first. */
  ghost predicate Newest(rows: seq<Row>, row: Row) {
    exists k :: NewestAt(rows, row, k)
  }

  ghost predicate NewestAt(rows: seq<Row>, row: Row, k: int) {
    && 0 <= k < |rows| && rows[k] == row
    && (forall j :: 0 <= j < k && rows[j].phone == row.phone ==> rows[j].updatedAt < row.updatedAt)
    && (forall j :: k < j < |rows| && rows[j].phone == row.phone ==> rows[j].updatedAt <= row.updatedAt)
  }

  /** `kept` is what deduplication must leave of `rows`: exactly the newest row of every
      phone, newest first, phones that tie in the order in which they first turned up. */
  ghost predicate Deduplicates(kept: seq<Row>, rows: seq<Row>) {
    && DistinctBy(kept, (r: Row) => r.phone)
    && (forall r :: r in kept ==> Newest(rows, r))
    && (forall r :: r in rows ==> exists k :: k in kept && k.phone == r.phone)
    && Sorted(kept, NewestFirst)
    && (forall i, j :: 0 <= i < j < |kept| && kept[i].updatedAt == kept[j].updatedAt ==>
          FirstAt(rows, kept[i].phone) <= FirstAt(rows, kept[j].phone))
  }

  /** There is only one such list. */
  lemma DeduplicationIsUnique(a: seq<Row>, b: seq<Row>, rows: seq<Row>)
    requires Deduplicates(a, rows) && Deduplicates(b, rows)
    ensures a == b
  {
    SameNewest(a, b, rows);
    SameNewest(b, a, rows);
    SameMultiset(a, b);
    NewerFirstIsTotal(rows);
    NewerFirstSorts(a, rows);
    NewerFirstSorts(b, rows);
    hide Deduplicates, TotalPreorder, NoTies, Sorted, NewerFirst;
    SortedUnique(a, b, NewerFirst(rows));
  }

  /** Newest first, ties in the order of first appearance. */
  ghost function NewerFirst(rows: seq<Row>): (Row, Row) -> bool {
    (x: Row, y: Row) =>
      x.updatedAt > y.updatedAt || (x.updatedAt == y.updatedAt && FirstAt(rows, x.phone) <= FirstAt(rows, y.phone))
  }

  lemma NewerFirstIsTotal(rows: seq<Row>)
    ensures TotalPreorder(NewerFirst(rows))
  {
    hide FirstAt;
  }

  lemma NewerFirstSorts(a: seq<Row>, rows: seq<Row>)
    requires Deduplicates(a, rows)
    ensures Sorted(a, NewerFirst(rows)) && NoTies(a, NewerFirst(rows))
  {
    var le := NewerFirst(rows);
    forall x, y | x in a && y in a && le(x, y) && le(y, x)
      ensures x == y
    {
      NewestOfPhone(rows, x, y);
    }
    hide FirstAt, Newest;
  }

  lemma NewestOfPhone(rows: seq<Row>, x: Row, y: Row)
    requires Newest(rows, x) && Newest(rows, y) && FirstAt(rows, x.phone) == FirstAt(rows, y.phone)
    ensures x == y
  {
    var k :| NewestAt(rows, x, k);
    var l :| NewestAt(rows, y, l);
    SamePhone(rows, x.phone, y.phone, k);
  }

  lemma SamePhone(rows: seq<Row>, p: string, q: string, k: nat)
    requires FirstAt(rows, p) == FirstAt(rows, q) && k < |rows| && rows[k].phone == p
    ensures p == q
  {
    var i := FirstAt(rows, p);
    assert i <= k;
  }

  lemma SameNewest(a: seq<Row>, b: seq<Row>, rows: seq<Row>)
    requires Deduplicates(a, rows) && Deduplicates(b, rows)
    ensures forall r :: r in a ==> r in b
  {
    forall r | r in a
      ensures r in b
    {
      assert Newest(rows, r);
      var k :| k in b && k.phone == r.phone;
      NewestOfPhone(rows, r, k);
    }
  }

  lemma SameMultiset(a: seq<Row>, b: seq<Row>)
    requires DistinctBy(a, (r: Row) => r.phone) && DistinctBy(b, (r: Row) => r.phone)
    requires (forall r :: r in a ==> r in b) && (forall r :: r in b ==> r in a)
    ensures multiset(a) == multiset(b)
  {
    forall r
      ensures multiset(a)[r] == multiset(b)[r]
    {
      OnceAtMost(a, (x: Row) => x.phone, r);
      OnceAtMost(b, (x: Row) => x.phone, r);
      assert r in a <==> r in multiset(a);
      assert r in b <==> r in multiset(b);
    }
  }

  /** The dictionary of the newest rows so far: `order` lists the phones as they came. */
  ghost predicate Latest(latest: map<string, Row>, order: seq<string>, rows: seq<Row>) {
    InOrder(latest, order, rows) && HoldsNewest(latest, rows)
  }

  ghost predicate InOrder(latest: map<string, Row>, order: seq<string>, rows: seq<Row>) {
    && (forall p :: p in order <==> p in latest)
    && (forall p :: p in latest ==> FirstAt(rows, p) < |rows|)
    && (forall i, j :: 0 <= i < j < |order| ==> FirstAt(rows, order[i]) < FirstAt(rows, order[j]))
  }

  ghost predicate HoldsNewest(latest: map<string, Row>, rows: seq<Row>) {
    && (forall p :: p in latest ==> latest[p].phone == p && Newest(rows, latest[p]))
    && (forall r :: r in rows ==> r.phone in latest)
  }

  lemma LatestNext(latest: map<string, Row>, order: seq<string>, rows: seq<Row>, row: Row)
    requires Latest(latest, order, rows)
    ensures row.phone !in latest ==> Latest(latest[row.phone := row], order + [row.phone], rows + [row])
    ensures row.phone in latest && row.updatedAt > latest[row.phone].updatedAt ==>
              Latest(latest[row.phone := row], order, rows + [row])
    ensures row.phone in latest && row.updatedAt <= latest[row.phone].updatedAt ==> Latest(latest, order, rows + [row])
  {
    InOrderNext(latest, order, rows, row);
    HoldsNewestNext(latest, rows, row);
    hide InOrder, HoldsNewest;
  }

  lemma InOrderNext(latest: map<string, Row>, order: seq<string>, rows: seq<Row>, row: Row)
    requires InOrder(latest, order, rows) && HoldsNewest(latest, rows)
    ensures row.phone !in latest ==> InOrder(latest[row.phone := row], order + [row.phone], rows + [row])
    ensures row.phone in latest ==>
              InOrder(latest[row.phone := row], order, rows + [row]) && InOrder(latest, order, rows + [row])
  {
    hide FirstAt;
    forall p | p in latest
      ensures FirstAt(rows + [row], p) == FirstAt(rows, p)
    {
      FirstAtNext(rows, row, p);
    }
    if row.phone !in latest {
      FirstAtNew(latest, rows, row);
      hide HoldsNewest;
      var longer := order + [row.phone];
      forall i, j | 0 <= i < j < |longer|
        ensures FirstAt(rows + [row], longer[i]) < FirstAt(rows + [row], longer[j])
      {
        assert longer[i] in order;
      }
    }
  }

  lemma FirstAtNew(latest: map<string, Row>, rows: seq<Row>, row: Row)
    requires HoldsNewest(latest, rows) && row.phone !in latest
    ensures FirstAt(rows, row.phone) == |rows| == FirstAt(rows + [row], row.phone)
  {
    hide Newest;
    assert forall k :: 0 <= k < |rows| ==> rows[k] in rows && rows[k].phone != row.phone;
    FirstAtNext(rows, row, row.phone);
    assert (rows + [row])[|rows|].phone == row.phone;
  }

  lemma HoldsNewestNext(latest: map<string, Row>, rows: seq<Row>, row: Row)
    requires HoldsNewest(latest, rows)
    ensures row.phone !in latest || row.updatedAt > latest[row.phone].updatedAt ==>
              HoldsNewest(latest[row.phone := row], rows + [row])
    ensures row.phone in latest && row.updatedAt <= latest[row.phone].updatedAt ==> HoldsNewest(latest, rows + [row])
  {
    hide Newest, FirstAt;
    forall p | p in latest
      ensures p != row.phone || row.updatedAt <= latest[p].updatedAt ==> Newest(rows + [row], latest[p])
      ensures p == row.phone && row.updatedAt > latest[p].updatedAt ==> Newest(rows + [row], row)
    {
      NewestNext(rows, row, latest[p]);
    }
    if row.phone !in latest {
      FirstAtNew(latest, rows, row);
      NewestAlone(rows, row);
    }
  }

  lemma FirstAtNext(rows: seq<Row>, row: Row, phone: string)
    ensures FirstAt(rows, phone) < |rows| ==> FirstAt(rows + [row], phone) == FirstAt(rows, phone)
    ensures FirstAt(rows, phone) == |rows| ==> FirstAt(rows + [row], phone) >= |rows|
  {
    var more := rows + [row];
    var i, j := FirstAt(rows, phone), FirstAt(more, phone);
    assert forall k :: 0 <= k < |rows| ==> more[k] == rows[k];
    if i < |rows| {
      assert more[i].phone == phone;
    }
  }

  lemma NewestNext(rows: seq<Row>, row: Row, best: Row)
    requires Newest(rows, best)
    ensures best.phone != row.phone || row.updatedAt <= best.updatedAt ==> Newest(rows + [row], best)
    ensures best.phone == row.phone && row.updatedAt > best.updatedAt ==> Newest(rows + [row], row)
  {
    var more := rows + [row];
    var k :| NewestAt(rows, best, k);
    assert more[k] == best && more[|rows|] == row;
    assert forall j :: 0 <= j < |rows| ==> more[j] == rows[j];
    if best.phone != row.phone || row.updatedAt <= best.updatedAt {
      assert NewestAt(more, best, k);
    } else {
      assert NewestAt(more, row, |rows|);
    }
  }

  lemma NewestAlone(rows: seq<Row>, row: Row)
    requires FirstAt(rows, row.phone) == |rows|
    ensures Newest(rows + [row], row)
  {
    assert NewestAt(rows + [row], row, |rows|);
  }

  lemma LatestDeduplicates(latest: map<string, Row>, order: seq<string>, values: seq<Row>, rows: seq<Row>)
    requires Latest(latest, order, rows)
    requires |values| == |order| && forall i :: 0 <= i < |order| ==> order[i] in latest && values[i] == latest[order[i]]
    ensures Deduplicates(Sort(values, NewestFirst), rows)
  {
    hide Newest, FirstAt, Sort, NewestFirst;
    ValuesAreNewest(latest, order, values, rows);
    hide Latest;
    KeptSorted(values, rows);
    hide Sorted, DistinctBy;
    var kept := Sort(values, NewestFirst);
    forall r | r in kept
      ensures Newest(rows, r)
    {
      SortSameElements(values, NewestFirst, r);
    }
    forall r | r in rows
      ensures exists k :: k in kept && k.phone == r.phone
    {
      var v :| v in values && v.phone == r.phone;
      SortSameElements(values, NewestFirst, v);
    }
  }

  lemma ValuesAreNewest(latest: map<string, Row>, order: seq<string>, values: seq<Row>, rows: seq<Row>)
    requires Latest(latest, order, rows)
    requires |values| == |order| && forall i :: 0 <= i < |order| ==> order[i] in latest && values[i] == latest[order[i]]
    ensures forall i, j :: 0 <= i < j < |values| ==> FirstAt(rows, values[i].phone) < FirstAt(rows, values[j].phone)
    ensures forall v :: v in values ==> Newest(rows, v)
    ensures forall r :: r in rows ==> exists v :: v in values && v.phone == r.phone
  {
    hide Newest, FirstAt;
    assert forall i :: 0 <= i < |values| ==> values[i].phone == order[i];
    forall r | r in rows
      ensures exists v :: v in values && v.phone == r.phone
    {
      assert r.phone in order;
      var i :| 0 <= i < |order| && order[i] == r.phone;
      assert values[i] in values;
    }
  }

  lemma KeptSorted(values: seq<Row>, rows: seq<Row>)
    requires forall i, j :: 0 <= i < j < |values| ==> FirstAt(rows, values[i].phone) < FirstAt(rows, values[j].phone)
    ensures var kept := Sort(values, NewestFirst);
            && DistinctBy(kept, (r: Row) => r.phone)
            && Sorted(kept, NewestFirst)
            && (forall i, j :: 0 <= i < j < |kept| && kept[i].updatedAt == kept[j].updatedAt ==>
                  FirstAt(rows, kept[i].phone) <= FirstAt(rows, kept[j].phone))
  {
    hide FirstAt, Sort;
    var kept := Sort(values, NewestFirst);
    SortPermutes(values, NewestFirst);
    SortSorts(values, NewestFirst);
    RearrangedDistinct(values, kept, (r: Row) => r.phone);
    SortIsStable(values, NewestFirst, (r: Row) => FirstAt(rows, r.phone));
  }

  method ValidateAndDedupe(raws: seq<Raw>, text: Text)
    returns (deduped: seq<Row>, errors: seq<Issue>, validCount: nat)
    ensures errors == Invalid(raws, text)
    ensures validCount == |Valid(raws, text)| && validCount + |errors| == |raws|
    ensures Deduplicates(deduped, Valid(raws, text))
    ensures forall row :: row in deduped ==> Sourced(row, raws, text)
    ensures forall other :: Sourced(other, raws, text) ==>
              exists row :: row in deduped && row.phone == other.phone && row.updatedAt >= other.updatedAt
    ensures forall issue :: issue in errors ==> Explained(issue, raws, text)
  {
    hide Latest, Deduplicates, FaultOf, Accepted, Refused, Passes, Sort, CHECKS, Sourced, Explained;
    var valid: seq<Row> := [];
    errors := [];
    for i := 0 to |raws|
      invariant valid == Valid(raws[..i], text) && errors == Invalid(raws[..i], text)
    {
      var raw := raws[i];
      assert raws[..i + 1][..i] == raws[..i];
      var fault := FaultOf(raw, text);
      if fault.Some? {
        errors := errors + [Refused(raw, text)];
        continue;
      }
      valid := valid + [Accepted(raw, text)];
    }
    assert raws[..|raws|] == raws;
    var latest: map<string, Row> := map[];
    var order: seq<string> := [];
    NothingLatest();
    for i := 0 to |valid|
      invariant Latest(latest, order, valid[..i])
    {
      var row := valid[i];
      assert valid[..i + 1] == valid[..i] + [row];
      LatestNext(latest, order, valid[..i], row);
      if row.phone !in latest {
        order := order + [row.phone];
        latest := latest[row.phone := row];
      } else if row.updatedAt > latest[row.phone].updatedAt {
        latest := latest[row.phone := row];
      }
    }
    assert valid[..|valid|] == valid;
    LatestKnows(latest, order, valid);
    var values := seq(|order|, i requires 0 <= i < |order| && order[i] in latest => latest[order[i]]);
    LatestDeduplicates(latest, order, values, valid);
    deduped := Sort(values, NewestFirst);
    validCount := |valid|;
    DedupedMeans(deduped, raws, text);
    IssuesMean(raws, text);
  }

  lemma DedupedMeans(deduped: seq<Row>, raws: seq<Raw>, text: Text)
    requires Deduplicates(deduped, Valid(raws, text))
    ensures forall row :: row in deduped ==> Sourced(row, raws, text)
    ensures forall other :: Sourced(other, raws, text) ==>
              exists row :: row in deduped && row.phone == other.phone && row.updatedAt >= other.updatedAt
  {
    var valid := Valid(raws, text);
    forall row
      ensures row in valid <==> Sourced(row, raws, text)
    {
      ValidMeans(raws, text, row, Issue(None, "", "", false));
    }
    hide Valid, Sourced;
    NewestKept(deduped, valid);
    hide Deduplicates;
  }

  lemma NewestKept(deduped: seq<Row>, valid: seq<Row>)
    requires Deduplicates(deduped, valid)
    ensures forall row :: row in deduped ==> row in valid
    ensures forall other :: other in valid ==>
              exists row :: row in deduped && row.phone == other.phone && row.updatedAt >= other.updatedAt
  {
    hide Newest, Sorted, DistinctBy, NewestFirst, FirstAt;
    forall row | row in deduped
      ensures row in valid
    {
      NewestMeans(valid, row);
    }
    forall other | other in valid
      ensures exists row :: row in deduped && row.phone == other.phone && row.updatedAt >= other.updatedAt
    {
      var row :| row in deduped && row.phone == other.phone;
      NewestMeans(valid, row);
    }
  }

  lemma NewestMeans(rows: seq<Row>, row: Row)
    requires Newest(rows, row)
    ensures row in rows
    ensures forall other :: other in rows && other.phone == row.phone ==> row.updatedAt >= other.updatedAt
  {
    var k :| NewestAt(rows, row, k);
    forall other | other in rows && other.phone == row.phone
      ensures row.updatedAt >= other.updatedAt
    {
      var i :| 0 <= i < |rows| && rows[i] == other;
    }
  }

  lemma IssuesMean(raws: seq<Raw>, text: Text)
    ensures forall issue :: issue in Invalid(raws, text) ==> Explained(issue, raws, text)
  {
    forall issue | issue in Invalid(raws, text)
      ensures Explained(issue, raws, text)
    {
      ValidMeans(raws, text, Row(0, "", "", 0), issue);
    }
  }

  lemma NothingLatest()
    ensures Latest(map[], [], [])
  {
  }

  lemma LatestKnows(latest: map<string, Row>, order: seq<string>, rows: seq<Row>)
    requires Latest(latest, order, rows)
    ensures forall i :: 0 <= i < |order| ==> order[i] in latest
  {
  }

  // ---------------------------------------------------------------- batches

  /** Consecutive batches of `size`, the last one possibly shorter. */
  function Chunks<T>(values: seq<T>, size: nat): (batches: seq<seq<T>>)
    requires size > 0
    ensures Flatten(batches) == values
    ensures forall b :: b in batches ==> 0 < |b| <= size
    ensures forall i :: 0 <= i < |batches| - 1 ==> |batches[i]| == size
  {
    if |values| == 0 then [] else if |values| <= size then [values] + []
    else
      assert values == values[..size] + values[size..];
      [values[..size]] + Chunks(values[size..], size)
  }

  function Flatten<T>(batches: seq<seq<T>>): seq<T> {
    if batches == [] then [] else batches[0] + Flatten(batches[1..])
  }

  lemma {:induction false} FlattenLast<T>(batches: seq<seq<T>>, last: seq<T>)
    ensures Flatten(batches + [last]) == Flatten(batches) + last
  {
    if batches == [] {
      assert batches + [last] == [last];
      assert Flatten([last]) == last + Flatten([]);
    } else {
      assert (batches + [last])[1..] == batches[1..] + [last];
      FlattenLast(batches[1..], last);
    }
  }

  // ---------------------------------------------------------------- lookup

  /** One answer of the lookup; `callStatus` is in upper case, and an error without a code
      has the empty one. */
  datatype LookupResult = LookupResult(
    error: Option<string>, found: bool, completed: bool, lastActivity: Option<int>, callStatus: string)

  datatype Verdict = Unanswered(code: string) | AlreadyCompleted | Stale | OnCall | Eligible

  datatype LookupCounts = LookupCounts(
    submitted: nat, eligible: nat, completed: nat, stale: nat, active: nat, errors: nat)

  const ACTIVE_CALLS := {"PENDING", "QUEUED", "TRIGGERED", "ONGOING"}

  function Clip(code: string, fallback: string): string {
    var c := if code == "" then fallback else code;
    if |c| > 120 then c[..120] else c
  }

  /** What the lookup says about a row; a row without a result of its own is unanswered. */
  function VerdictOf(row: Row, index: nat, results: seq<LookupResult>): Verdict {
    if index >= |results| then Unanswered("missing_result")
    else
      var r := results[index];
      if r.error.Some? then Unanswered(Clip(r.error.value, "lookup_error"))
      else if !r.found then Eligible
      else if r.completed then AlreadyCompleted
      else if r.lastActivity.Some? && r.lastActivity.value >= row.updatedAt then Stale
      else if r.callStatus in ACTIVE_CALLS then OnCall
      else Eligible
  }

  function Verdicts(rows: seq<Row>, results: seq<LookupResult>): (v: seq<Verdict>)
    ensures |v| == |rows|
  {
    seq(|rows|, i requires 0 <= i < |rows| => VerdictOf(rows[i], i, results))
  }

  /** The rows with an Eligible verdict, in their order. */
  function Picked(rows: seq<Row>, verdicts: seq<Verdict>): (picked: seq<Row>)
    requires |rows| == |verdicts|
    ensures |picked| == Tally(verdicts).eligible
    ensures forall r :: r in picked ==> r in rows
  {
    if rows == [] then []
    else
      var n := |rows| - 1;
      Picked(rows[..n], verdicts[..n]) + (if verdicts[n].Eligible? then [rows[n]] else [])
  }

  function Tally(verdicts: seq<Verdict>): (c: LookupCounts)
    ensures c.submitted == |verdicts| == c.eligible + c.completed + c.stale + c.active + c.errors
  {
    if verdicts == [] then LookupCounts(0, 0, 0, 0, 0, 0)
    else Counted(Tally(verdicts[..|verdicts| - 1]), verdicts[|verdicts| - 1])
  }

  function Counted(c: LookupCounts, v: Verdict): LookupCounts {
    var d := c.(submitted := c.submitted + 1);
    match v
    case Unanswered(_) => d.(errors := c.errors + 1)
    case AlreadyCompleted => d.(completed := c.completed + 1)
    case Stale => d.(stale := c.stale + 1)
    case OnCall => d.(active := c.active + 1)
    case Eligible => d.(eligible := c.eligible + 1)
  }

  function LookupIssues(rows: seq<Row>, verdicts: seq<Verdict>): (issues: seq<Issue>)
    requires |rows| == |verdicts|
    ensures |issues| == Tally(verdicts).errors
  {
    if rows == [] then []
    else
      var n := |rows| - 1;
      LookupIssues(rows[..n], verdicts[..n])
      + (if verdicts[n].Unanswered? then [Issue(Some(rows[n].externalId), "lookup", verdicts[n].code, false)] else [])
  }

  lemma VerdictNext(rows: seq<Row>, results: seq<LookupResult>, i: nat)
    requires i < |rows|
    ensures var v := Verdicts(rows, results);
            var verdict := VerdictOf(rows[i], i, results);
            && Picked(rows[..i + 1], v[..i + 1]) ==
               Picked(rows[..i], v[..i]) + (if verdict.Eligible? then [rows[i]] else [])
            && LookupIssues(rows[..i + 1], v[..i + 1]) ==
               LookupIssues(rows[..i], v[..i])
               + (if verdict.Unanswered? then [Issue(Some(rows[i].externalId), "lookup", verdict.code, false)] else [])
            && Tally(v[..i + 1]) == Counted(Tally(v[..i]), verdict)
  {
    hide VerdictOf, Counted;
    var v := Verdicts(rows, results);
    var r, w := rows[..i + 1], v[..i + 1];
    assert r[..i] == rows[..i] && w[..i] == v[..i] && r[i] == rows[i];
    assert w[i] == VerdictOf(rows[i], i, results);
    hide Verdicts;
  }

  // ---------------------------------------------------------------- what a verdict means

  /** The result in place `i`, if there is one and it is no error. */
  predicate Answered(results: seq<LookupResult>, i: nat) {
    i < |results| && results[i].error == None
  }

  predicate ActiveSince(r: LookupResult, row: Row) {
    r.lastActivity.Some? && r.lastActivity.value >= row.updatedAt
  }

  predicate Calling(r: LookupResult) {
    r.callStatus == "PENDING" || r.callStatus == "QUEUED" || r.callStatus == "TRIGGERED" || r.callStatus == "ONGOING"
  }

  /** Nobody has heard of the checkout, or it is neither completed, nor was active at or after
      the row's own time, nor is being called. */
  predicate MayBeCalled(row: Row, i: nat, results: seq<LookupResult>) {
    && Answered(results, i)
    && var r := results[i];
    !r.found || (!r.completed && !ActiveSince(r, row) && !Calling(r))
  }

  predicate WasCompleted(row: Row, i: nat, results: seq<LookupResult>) {
    Answered(results, i) && results[i].found && results[i].completed
  }

  predicate IsUnanswered(row: Row, i: nat, results: seq<LookupResult>) {
    !Answered(results, i)
  }

  predicate IsStale(row: Row, i: nat, results: seq<LookupResult>) {
    Answered(results, i) && results[i].found && !results[i].completed && ActiveSince(results[i], row)
  }

  predicate IsOnCall(row: Row, i: nat, results: seq<LookupResult>) {
    && Answered(results, i) && results[i].found
    && !results[i].completed && !ActiveSince(results[i], row) && Calling(results[i])
  }

  /** What is reported of a row without an answer. */
  ghost predicate Reports(issue: Issue, row: Row, i: nat, results: seq<LookupResult>) {
    && !Answered(results, i)
    && issue.externalId == Some(row.externalId) && issue.stage == "lookup" && !issue.retryable
    && var code := if i >= |results| then "missing_result"
                   else if results[i].error.value == "" then "lookup_error" else results[i].error.value;
    issue.code == if |code| <= 120 then code else code[..120]
  }

  lemma VerdictMeans(row: Row, i: nat, results: seq<LookupResult>)
    ensures var v := VerdictOf(row, i, results);
            && (v.Eligible? <==> MayBeCalled(row, i, results))
            && (v.AlreadyCompleted? <==> WasCompleted(row, i, results))
            && (v.Stale? <==> IsStale(row, i, results))
            && (v.OnCall? <==> IsOnCall(row, i, results))
            && (v.Unanswered? <==> !Answered(results, i))
    ensures VerdictOf(row, i, results).Unanswered? ==>
              Reports(Issue(Some(row.externalId), "lookup", VerdictOf(row, i, results).code, false), row, i, results)
  {
  }

  ghost predicate PickedAt(rows: seq<Row>, verdicts: seq<Verdict>, row: Row, i: int)
    requires |rows| == |verdicts|
  {
    0 <= i < |rows| && rows[i] == row && verdicts[i].Eligible?
  }

  ghost predicate ReportedAt(rows: seq<Row>, verdicts: seq<Verdict>, issue: Issue, i: int)
    requires |rows| == |verdicts|
  {
    && 0 <= i < |rows| && verdicts[i].Unanswered?
    && issue == Issue(Some(rows[i].externalId), "lookup", verdicts[i].code, false)
  }

  lemma AtEarlier(rows: seq<Row>, verdicts: seq<Verdict>, row: Row, issue: Issue)
    requires |rows| == |verdicts| > 0
    ensures var n := |rows| - 1;
            forall i :: i != n ==>
              && (PickedAt(rows[..n], verdicts[..n], row, i) <==> PickedAt(rows, verdicts, row, i))
              && (ReportedAt(rows[..n], verdicts[..n], issue, i) <==> ReportedAt(rows, verdicts, issue, i))
  {
  }

  lemma {:induction false} PickedIff(rows: seq<Row>, verdicts: seq<Verdict>, row: Row, issue: Issue)
    requires |rows| == |verdicts|
    ensures row in Picked(rows, verdicts) <==> exists i :: PickedAt(rows, verdicts, row, i)
    ensures issue in LookupIssues(rows, verdicts) <==> exists i :: ReportedAt(rows, verdicts, issue, i)
  {
    hide Tally;
    if rows != [] {
      var n := |rows| - 1;
      PickedIff(rows[..n], verdicts[..n], row, issue);
      AtEarlier(rows, verdicts, row, issue);
      assert row in Picked(rows, verdicts) <==>
             row in Picked(rows[..n], verdicts[..n]) || PickedAt(rows, verdicts, row, n);
      assert issue in LookupIssues(rows, verdicts) <==>
             issue in LookupIssues(rows[..n], verdicts[..n]) || ReportedAt(rows, verdicts, issue, n);
      hide Picked, LookupIssues;
      assert !PickedAt(rows[..n], verdicts[..n], row, n) && !ReportedAt(rows[..n], verdicts[..n], issue, n);
      hide PickedAt, ReportedAt;
      assert forall i :: PickedAt(rows, verdicts, row, i) && i != n ==> PickedAt(rows[..n], verdicts[..n], row, i);
      assert forall i :: ReportedAt(rows, verdicts, issue, i) && i != n ==>
               ReportedAt(rows[..n], verdicts[..n], issue, i);
    }
  }

  /** The places of a list that satisfy a test. */
  ghost function Places<T>(s: seq<T>, test: T -> bool): set<nat> {
    set i: nat | i < |s| && test(s[i])
  }

  lemma PlacesNext<T>(s: seq<T>, test: T -> bool)
    requires s != []
    ensures var n := |s| - 1;
            && Places(s, test) == Places(s[..n], test) + (if test(s[n]) then {n} else {})
            && n !in Places(s[..n], test)
            && |Places(s, test)| == |Places(s[..n], test)| + (if test(s[n]) then 1 else 0)
  {
    var n := |s| - 1;
    assert forall i: nat :: i < n ==> s[..n][i] == s[i];
    assert Places(s, test) == Places(s[..n], test) + (if test(s[n]) then {n} else {});
  }

  lemma {:induction false} TallyCounts(verdicts: seq<Verdict>)
    ensures var c := Tally(verdicts);
            && c.eligible == |Places(verdicts, (v: Verdict) => v.Eligible?)|
            && c.completed == |Places(verdicts, (v: Verdict) => v.AlreadyCompleted?)|
            && c.stale == |Places(verdicts, (v: Verdict) => v.Stale?)|
            && c.active == |Places(verdicts, (v: Verdict) => v.OnCall?)|
            && c.errors == |Places(verdicts, (v: Verdict) => v.Unanswered?)|
  {
    if verdicts == [] {
      assert forall test: Verdict -> bool :: Places(verdicts, test) == {};
    } else {
      TallyCounts(verdicts[..|verdicts| - 1]);
      PlacesNext(verdicts, (v: Verdict) => v.Eligible?);
      PlacesNext(verdicts, (v: Verdict) => v.AlreadyCompleted?);
      PlacesNext(verdicts, (v: Verdict) => v.Stale?);
      PlacesNext(verdicts, (v: Verdict) => v.OnCall?);
      PlacesNext(verdicts, (v: Verdict) => v.Unanswered?);
      hide Places;
    }
  }

  /** The places of rows that satisfy a test on the row, its place and the results. */
  ghost function RowsWhere(rows: seq<Row>, results: seq<LookupResult>,
                           test: (Row, nat, seq<LookupResult>) -> bool): (places: set<nat>)
  {
    set i: nat | i < |rows| && test(rows[i], i, results)
  }

  /** A row is eligible exactly if it may be called. */
  ghost predicate SaysWho(rows: seq<Row>, results: seq<LookupResult>, eligible: seq<Row>) {
    forall row :: row in eligible <==> exists i :: 0 <= i < |rows| && rows[i] == row && MayBeCalled(row, i, results)
  }

  /** Every counter is the number of rows that meet its condition. */
  ghost predicate SaysHowMany(rows: seq<Row>, results: seq<LookupResult>, c: LookupCounts) {
    && c.submitted == |rows|
    && c.eligible == |RowsWhere(rows, results, MayBeCalled)|
    && c.completed == |RowsWhere(rows, results, WasCompleted)|
    && c.stale == |RowsWhere(rows, results, IsStale)|
    && c.active == |RowsWhere(rows, results, IsOnCall)|
    && c.errors == |RowsWhere(rows, results, IsUnanswered)|
  }

  /** Only rows without an answer are reported, each with its own code. */
  ghost predicate SaysWhy(rows: seq<Row>, results: seq<LookupResult>, errors: seq<Issue>) {
    forall issue :: issue in errors ==> exists i :: 0 <= i < |rows| && Reports(issue, rows[i], i, results)
  }

  lemma WhoMeans(rows: seq<Row>, results: seq<LookupResult>)
    ensures SaysWho(rows, results, Picked(rows, Verdicts(rows, results)))
  {
    var v := Verdicts(rows, results);
    forall i: nat | i < |rows|
      ensures v[i].Eligible? <==> MayBeCalled(rows[i], i, results)
    {
      VerdictMeans(rows[i], i, results);
    }
    hide Verdicts, MayBeCalled, Picked;
    forall row
      ensures row in Picked(rows, v) <==>
              exists i :: 0 <= i < |rows| && rows[i] == row && MayBeCalled(row, i, results)
    {
      PickedIff(rows, v, row, Issue(None, "", "", false));
      if i :| 0 <= i < |rows| && rows[i] == row && MayBeCalled(row, i, results) {
        assert PickedAt(rows, v, row, i);
      }
    }
  }

  lemma WhyMeans(rows: seq<Row>, results: seq<LookupResult>)
    ensures SaysWhy(rows, results, LookupIssues(rows, Verdicts(rows, results)))
  {
    var v := Verdicts(rows, results);
    forall issue | issue in LookupIssues(rows, v)
      ensures exists i :: 0 <= i < |rows| && Reports(issue, rows[i], i, results)
    {
      PickedIff(rows, v, Row(0, "", "", 0), issue);
      var i :| ReportedAt(rows, v, issue, i);
      VerdictMeans(rows[i], i, results);
    }
  }

  lemma HowManyMeans(rows: seq<Row>, results: seq<LookupResult>)
    ensures SaysHowMany(rows, results, Tally(Verdicts(rows, results)))
  {
    var v := Verdicts(rows, results);
    forall i: nat | i < |rows|
      ensures v[i].Eligible? <==> MayBeCalled(rows[i], i, results)
      ensures v[i].AlreadyCompleted? <==> WasCompleted(rows[i], i, results)
      ensures v[i].Stale? <==> IsStale(rows[i], i, results)
      ensures v[i].OnCall? <==> IsOnCall(rows[i], i, results)
      ensures v[i].Unanswered? <==> IsUnanswered(rows[i], i, results)
    {
      VerdictMeans(rows[i], i, results);
    }
    hide Verdicts, MayBeCalled, WasCompleted, IsStale, IsOnCall, IsUnanswered, Tally;
    TallyCounts(v);
    assert Places(v, (v: Verdict) => v.Eligible?) == RowsWhere(rows, results, MayBeCalled);
    assert Places(v, (v: Verdict) => v.AlreadyCompleted?) == RowsWhere(rows, results, WasCompleted);
    assert Places(v, (v: Verdict) => v.Stale?) == RowsWhere(rows, results, IsStale);
    assert Places(v, (v: Verdict) => v.OnCall?) == RowsWhere(rows, results, IsOnCall);
    assert Places(v, (v: Verdict) => v.Unanswered?) == RowsWhere(rows, results, IsUnanswered);
  }

  /** A row is eligible exactly if it may be called, every counter is the number of rows that
      meet its condition, and every row without an answer is reported. */
  method LookupEligible(rows: seq<Row>, results: seq<LookupResult>)
    returns (eligible: seq<Row>, counts: LookupCounts, errors: seq<Issue>)
    ensures eligible == Picked(rows, Verdicts(rows, results))
    ensures counts == Tally(Verdicts(rows, results)) && |eligible| == counts.eligible
    ensures errors == LookupIssues(rows, Verdicts(rows, results)) && |errors| == counts.errors
    ensures counts.submitted == |rows| ==
            counts.eligible + counts.completed + counts.stale + counts.active + counts.errors
    ensures SaysWho(rows, results, eligible) && SaysHowMany(rows, results, counts) && SaysWhy(rows, results, errors)
  {
    hide Picked, Tally, LookupIssues, Verdicts, Clip, ACTIVE_CALLS, SaysWho, SaysHowMany, SaysWhy;
    WhoMeans(rows, results);
    HowManyMeans(rows, results);
    WhyMeans(rows, results);
    ghost var verdicts := Verdicts(rows, results);
    NoVerdicts();
    assert rows[..0] == [] && verdicts[..0] == [];
    eligible, errors := [], [];
    var completed, stale, active, failed := 0, 0, 0, 0;
    for i := 0 to |rows|
      invariant eligible == Picked(rows[..i], verdicts[..i])
      invariant errors == LookupIssues(rows[..i], verdicts[..i])
      invariant Tally(verdicts[..i]) == LookupCounts(i, |eligible|, completed, stale, active, failed)
    {
      var row := rows[i];
      VerdictNext(rows, results, i);
      var result := if i < |results| then results[i] else LookupResult(Some("missing_result"), false, false, None, "");
      if result.error.Some? {
        ClipMissing();
        failed := failed + 1;
        errors := errors + [Issue(Some(row.externalId), "lookup", Clip(result.error.value, "lookup_error"), false)];
        continue;
      }
      if result.found && result.completed {
        completed := completed + 1;
        continue;
      }
      if result.found && result.lastActivity.Some? && result.lastActivity.value >= row.updatedAt {
        stale := stale + 1;
        continue;
      }
      if result.found && result.callStatus in ACTIVE_CALLS {
        active := active + 1;
        continue;
      }
      eligible := eligible + [row];
    }
    assert rows[..|rows|] == rows && verdicts[..|rows|] == verdicts;
    counts := LookupCounts(|rows|, |eligible|, completed, stale, active, failed);
  }

  lemma NoVerdicts()
    ensures Picked([], []) == [] && LookupIssues([], []) == [] && Tally([]) == LookupCounts(0, 0, 0, 0, 0, 0)
  {
  }

  lemma ClipMissing()
    ensures Clip("missing_result", "lookup_error") == "missing_result"
  {
  }
}
