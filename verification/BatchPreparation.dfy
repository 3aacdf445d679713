/** The two programs that write upload shards: the first preparation, which streams rows
    into files, and the retry, which collects the lines that have no result yet. */
module BatchPreparation {
  import opened Sharding
  import opened Wrappers

  /** A source row; `usable` says that it is apparel with an https image. */
  datatype Row = Row(usable: bool, request: Request)

  datatype Line = Line(customId: string, shard: nat)

  datatype PrepareError = BadTarget | IdCollision | WrongCount | NothingEligible
  datatype RetryError = BadSourceId | UnknownResult | MissingManifest

  function Usable(rows: seq<Row>): seq<Request> {
    if rows == [] then []
    else
      var before := Usable(rows[..|rows| - 1]);
      var row := rows[|rows| - 1];
      if row.usable then before + [row.request] else before
  }

  /** The requests a preparation works on: every usable row, or the first `target` of them. */
  function Selected(rows: seq<Row>, target: int, all: bool): seq<Request> {
    var usable := Usable(rows);
    if all || |usable| <= target then usable else if target < 0 then [] else usable[..target]
  }

  ghost predicate IdsDistinct(s: seq<Request>) {
    forall i, j :: 0 <= i < j < |s| ==> s[i].customId != s[j].customId
  }

  function Manifest(requests: seq<Request>, limits: Limits): seq<Line> {
    seq(|requests|, i requires 0 <= i < |requests| => Line(requests[i].customId, ShardOf(requests, limits, i)))
  }

  /** Every file is recorded with the number of its requests and their size. */
  ghost predicate Describes(shards: seq<Shard>, files: seq<seq<Request>>) {
    && |shards| == |files|
    && forall k :: 0 <= k < |files| ==> shards[k].requests == |files[k]| && shards[k].bytes == TotalBytes(files[k])
  }

  /** Every request has a line that gives its id and the number of the file that holds it. */
  ghost predicate Locates(manifest: seq<Line>, requests: seq<Request>, files: seq<seq<Request>>) {
    && |manifest| == |requests|
    && forall i :: 0 <= i < |requests| ==>
         && manifest[i].customId == requests[i].customId && 1 <= manifest[i].shard <= |files|
         && requests[i] in files[manifest[i].shard - 1]
  }

  lemma PlanMeans(requests: seq<Request>, limits: Limits)
    requires limits.Valid()
    ensures var files := Greedy(requests, limits);
            Packs(files, requests, limits) && Describes(Recorded(files), files)
            && Locates(Manifest(requests, limits), requests, files)
  {
    hide Greedy, ShardOf, Packs, TotalBytes;
    GreedyPacks(requests, limits);
    forall i: nat | i < |requests|
      ensures var k := ShardOf(requests, limits, i);
              1 <= k <= |Greedy(requests, limits)| && requests[i] in Greedy(requests, limits)[k - 1]
    {
      HeldByItsShard(requests, limits, i);
    }
  }

  lemma HeldByItsShard(requests: seq<Request>, limits: Limits, i: nat)
    requires limits.Valid() && i < |requests|
    ensures var k := ShardOf(requests, limits, i);
            1 <= k <= |Greedy(requests, limits)| && requests[i] in Greedy(requests, limits)[k - 1]
  {
    hide Greedy, ShardOf, Flatten;
    ShardOfHolds(requests, limits, i);
  }

  /** The usable rows in their order. */
  lemma {:induction false} UsableOfParts(a: seq<Row>, b: seq<Row>)
    ensures Usable(a + b) == Usable(a) + Usable(b)
    ensures |b| == 1 ==> Usable(b) == if b[0].usable then [b[0].request] else []
  {
    if b == [] {
      assert a + b == a;
    } else {
      var n := |b| - 1;
      assert (a + b)[..|a + b| - 1] == a + b[..n];
      UsableOfParts(a, b[..n]);
    }
  }

  /** All of them are selected, or as many as asked for from the front. */
  lemma SelectedAre(rows: seq<Row>, target: int, all: bool)
    ensures Selected(rows, target, all) <= Usable(rows)
    ensures all ==> Selected(rows, target, all) == Usable(rows)
    ensures !all ==> |Selected(rows, target, all)| ==
                     if target < 0 then 0 else if target < |Usable(rows)| then target else |Usable(rows)|
  {
  }

  lemma {:induction false} UsablePrefix(rows: seq<Row>, k: nat)
    requires k <= |rows|
    ensures Usable(rows[..k]) <= Usable(rows)
    decreases |rows|
  {
    if k < |rows| {
      assert rows[..|rows| - 1][..k] == rows[..k];
      UsablePrefix(rows[..|rows| - 1], k);
    } else {
      assert rows[..k] == rows;
    }
  }

  // ---------------------------------------------------------------- the first preparation

  class Preparer {
    const limits: Limits
    var handleOpen: bool
    var shardIndex: nat
    var shardCount: nat
    var shardBytes: nat
    var current: seq<Request>
    var files: seq<seq<Request>>
    var shards: seq<Shard>
    var manifest: seq<Line>

    constructor (limits: Limits)
      ensures this.limits == limits && !handleOpen && shardIndex == shardCount == shardBytes == 0
      ensures current == [] && files == [] && shards == [] && manifest == []
    {
      this.limits := limits;
      handleOpen, shardIndex, shardCount, shardBytes := false, 0, 0, 0;
      current, files, shards, manifest := [], [], [], [];
    }

    /** The files so far, the open one included, are the greedy packing of `done`. */
    ghost predicate Writing(done: seq<Request>)
      reads this
    {
      && Greedy(done, limits) == Written(files, current)
      && (handleOpen <==> current != [])
      && (!handleOpen ==> files == [] && done == [])
      && shardCount == |current| && shardBytes == TotalBytes(current)
      && shardIndex == |Greedy(done, limits)|
      && shards == Recorded(files)
      && manifest == Manifest(done, limits)
    }

    method CloseShard()
      requires handleOpen ==> shardCount == |current| && shardBytes == TotalBytes(current)
      requires shards == Recorded(files)
      modifies this
      ensures files == if old(handleOpen) then old(files) + [old(current)] else old(files)
      ensures shards == Recorded(files) && !handleOpen
      ensures old(handleOpen) ==> current == [] && shardCount == 0 && shardBytes == 0
      ensures !old(handleOpen) ==>
          current == old(current) && shardCount == old(shardCount) && shardBytes == old(shardBytes)
      ensures shardIndex == old(shardIndex) && manifest == old(manifest)
    {
      if !handleOpen {
        return;
      }
      files := files + [current];
      shards := shards + [Shard(shardCount, shardBytes)];
      handleOpen, current, shardCount, shardBytes := false, [], 0, 0;
    }

    method WriteRequest(r: Request, ghost done: seq<Request>)
      requires Writing(done)
      modifies this
      ensures Writing(done + [r])
    {
      hide Greedy, Manifest, TotalBytes, Recorded;
      GreedyNextOpen(done, files, current, r, limits);
      NothingWritten(limits);
      if !handleOpen || shardCount >= limits.maxRequests || (shardCount > 0 && shardBytes + r.bytes > limits.maxBytes) {
        CloseShard();
        shardIndex := shardIndex + 1;
        handleOpen := true;
      }
      TotalBytesLast(current, r);
      assert [] + [r] == [r];
      current := current + [r];
      shardCount := shardCount + 1;
      shardBytes := shardBytes + r.bytes;
      manifest := manifest + [Line(r.customId, shardIndex)];
      ManifestLast(done, r, limits);
    }

    /** The plan's shards are the greedy packing of the selected requests, recorded with
        their true counts and sizes; repeated ids, too few rows or none are refused. */
    method Prepare(rows: seq<Row>, target: int, all: bool) returns (r: Result<seq<Shard>, PrepareError>)
      requires limits.Valid()
      requires !handleOpen && shardIndex == shardCount == shardBytes == 0
      requires current == [] && files == [] && shards == [] && manifest == []
      modifies this
      ensures var chosen := Selected(rows, target, all);
              && (r == Err(BadTarget) <==> target < 1 && !all)
              && (r == Err(IdCollision) <==> r != Err(BadTarget) && !IdsDistinct(chosen))
              && (r == Err(WrongCount) <==> r != Err(BadTarget) && IdsDistinct(chosen) && !all && |chosen| != target)
              && (r == Err(NothingEligible) <==> all && chosen == [])
              && (r.Ok? ==>
                    && files == Greedy(chosen, limits)
                    && r.value == shards == Recorded(files)
                    && manifest == Manifest(chosen, limits)
                    && Packs(files, chosen, limits) && Describes(shards, files) && Locates(manifest, chosen, files))
    {
      hide Greedy, Manifest, Recorded, TotalBytes, IdsDistinct, Ids, Usable, Selected;
      if target < 1 && !all {
        return Err(BadTarget);
      }
      var selected := 0;
      var seen: set<string> := {};
      ghost var done: seq<Request> := [];
      NothingWritten(limits);
      NothingUsable(rows);
      var i := 0;
      while i < |rows|
        invariant 0 <= i <= |rows|
        invariant Writing(done) && done == Usable(rows[..i]) && selected == |done|
        invariant seen == Ids(done) && IdsDistinct(done)
        invariant !all ==> selected < target
      {
        var row := rows[i];
        i := i + 1;
        UsableNext(rows, i);
        if !row.usable {
          continue;
        }
        var custom := row.request.customId;
        if custom in seen {
          CloseShard();
          AllSelected(rows, i, target, all);
          IdsCollide(done, row.request, Selected(rows, target, all));
          return Err(IdCollision);
        }
        seen := seen + {custom};
        WriteRequest(row.request, done);
        IdsExtend(done, row.request);
        done := done + [row.request];
        selected := selected + 1;
        if !all && selected == target {
          break;
        }
      }
      CloseShard();
      AllSelected(rows, i, target, all);
      if !all && selected != target {
        return Err(WrongCount);
      }
      if selected < 1 {
        return Err(NothingEligible);
      }
      PlanMeans(done, limits);
      return Ok(shards);
    }
  }

  lemma NothingWritten(limits: Limits)
    ensures Greedy([], limits) == [] && Manifest([], limits) == [] && Recorded([]) == [] && TotalBytes([]) == 0
  {
  }

  lemma NothingUsable(rows: seq<Row>)
    ensures Usable(rows[..0]) == [] && IdsDistinct([]) && Ids([]) == {}
  {
  }

  /** While the target is not exceeded, every usable row read so far is selected; when it is
      reached, or no row is left, no other is. */
  lemma AllSelected(rows: seq<Row>, i: nat, target: int, all: bool)
    requires i <= |rows| && (!all ==> |Usable(rows[..i])| <= target)
    ensures Usable(rows[..i]) <= Selected(rows, target, all)
    ensures i == |rows| || (!all && |Usable(rows[..i])| == target) ==> Usable(rows[..i]) == Selected(rows, target, all)
  {
    UsablePrefix(rows, i);
    assert rows[..|rows|] == rows;
  }

  /** One more row: its request, if usable, comes right after the earlier ones. */
  lemma UsableNext(rows: seq<Row>, i: nat)
    requires 0 < i <= |rows|
    ensures Usable(rows[..i]) ==
            Usable(rows[..i - 1]) + (if rows[i - 1].usable then [rows[i - 1].request] else [])
    ensures Usable(rows[..i]) <= Usable(rows)
  {
    assert rows[..i][..i - 1] == rows[..i - 1];
    UsablePrefix(rows, i);
  }

  function Ids(requests: seq<Request>): set<string> {
    set q | q in requests :: q.customId
  }

  lemma ManifestLast(done: seq<Request>, r: Request, limits: Limits)
    ensures Manifest(done + [r], limits) ==
            Manifest(done, limits) + [Line(r.customId, |Greedy(done + [r], limits)|)]
  {
    var longer := done + [r];
    assert longer[..|done| + 1] == longer;
    forall i | 0 <= i < |done|
      ensures ShardOf(longer, limits, i) == ShardOf(done, limits, i)
    {
      assert longer[..i + 1] == done[..i + 1];
    }
  }

  lemma IdsExtend(done: seq<Request>, r: Request)
    requires IdsDistinct(done) && r.customId !in Ids(done)
    ensures IdsDistinct(done + [r]) && Ids(done + [r]) == Ids(done) + {r.customId}
  {
    forall i | 0 <= i < |done|
      ensures done[i].customId != r.customId
    {
      assert done[i] in done;
    }
  }

  lemma IdsCollide(done: seq<Request>, r: Request, chosen: seq<Request>)
    requires r.customId in Ids(done)
    requires done + [r] <= chosen
    ensures !IdsDistinct(chosen) && chosen != []
  {
    var q :| q in done && q.customId == r.customId;
    var i :| 0 <= i < |done| && done[i] == q;
    assert chosen[i] == (done + [r])[i] && chosen[|done|] == (done + [r])[|done|];
  }

  // ---------------------------------------------------------------- the retry

  function Unfinished(requests: seq<Request>, successful: set<string>): seq<Request> {
    if requests == [] then []
    else if requests[0].customId in successful then Unfinished(requests[1..], successful)
    else [requests[0]] + Unfinished(requests[1..], successful)
  }

  class RetryPreparer {
    const limits: Limits
    var shardLines: seq<Request>
    var shardBytes: nat
    var files: seq<seq<Request>>
    var shards: seq<Shard>

    constructor (limits: Limits)
      ensures this.limits == limits && shardLines == [] && shardBytes == 0 && files == [] && shards == []
    {
      this.limits := limits;
      shardLines, shardBytes, files, shards := [], 0, [], [];
    }

    ghost predicate Collecting(done: seq<Request>)
      reads this
    {
      && Greedy(done, limits) == Written(files, shardLines)
      && (shardLines == [] ==> files == [])
      && shardBytes == TotalBytes(shardLines)
      && shards == Recorded(files)
    }

    method Flush()
      requires shardBytes == TotalBytes(shardLines) && shards == Recorded(files)
      modifies this
      ensures files == Written(old(files), old(shardLines))
      ensures shards == Recorded(files) && shardLines == [] && shardBytes == 0
    {
      if shardLines == [] {
        return;
      }
      files := files + [shardLines];
      shards := shards + [Shard(|shardLines|, shardBytes)];
      shardLines, shardBytes := [], 0;
    }

    /** The source requests must carry distinct ids and explain every collected result. */
    method CheckSources(ordered: seq<Request>, successful: set<string>) returns (bad: bool, unknown: bool)
      ensures bad <==> !IdsDistinct(ordered) || exists q :: q in ordered && q.customId == ""
      ensures !bad ==> (unknown <==> !(successful <= Ids(ordered)))
    {
      var requestIds: set<string> := {};
      for i := 0 to |ordered|
        invariant IdsDistinct(ordered[..i]) && requestIds == Ids(ordered[..i])
        invariant forall q :: q in ordered[..i] ==> q.customId != ""
      {
        var custom := ordered[i].customId;
        assert ordered[i] in ordered;
        assert ordered[..i + 1] == ordered[..i] + [ordered[i]];
        if custom == "" {
          return true, false;
        }
        if custom in requestIds {
          IdsCollide(ordered[..i], ordered[i], ordered);
          return true, false;
        }
        IdsExtend(ordered[..i], ordered[i]);
        requestIds := requestIds + {custom};
      }
      assert ordered[..|ordered|] == ordered;
      return false, !(successful <= requestIds);
    }

    method Collect(request: Request, ghost done: seq<Request>)
      requires Collecting(done)
      modifies this
      ensures Collecting(done + [request])
    {
      hide Greedy, TotalBytes, Recorded;
      GreedyNextOpen(done, files, shardLines, request, limits);
      NothingWritten(limits);
      if shardLines != [] && (|shardLines| >= limits.maxRequests || shardBytes + request.bytes > limits.maxBytes) {
        Flush();
      }
      TotalBytesLast(shardLines, request);
      assert [] + [request] == [request];
      shardLines := shardLines + [request];
      shardBytes := shardBytes + request.bytes;
    }

    /** Exactly the unfinished requests are packed, into the shards the first preparation
        would have made of them. */
    method Prepare(ordered: seq<Request>, successful: set<string>, manifestIds: set<string>)
      returns (r: Result<seq<Shard>, RetryError>)
      requires limits.Valid()
      requires shardLines == [] && shardBytes == 0 && files == [] && shards == []
      modifies this
      ensures r == Err(BadSourceId) <==> !IdsDistinct(ordered) || exists q :: q in ordered && q.customId == ""
      ensures r == Err(UnknownResult) <==> r != Err(BadSourceId) && !(successful <= Ids(ordered))
      ensures r == Err(MissingManifest) <==>
                r != Err(BadSourceId) && r != Err(UnknownResult)
                    && !(Ids(Unfinished(ordered, successful)) <= manifestIds)
      ensures r.Ok? ==>
                && files == Greedy(Unfinished(ordered, successful), limits)
                && r.value == shards == Recorded(files)
      ensures r.Err? ==> files == []
    {
      var bad, unknown := CheckSources(ordered, successful);
      if bad {
        return Err(BadSourceId);
      }
      if unknown {
        return Err(UnknownResult);
      }
      var retry := Unfinished(ordered, successful);
      if !(Ids(retry) <= manifestIds) {
        return Err(MissingManifest);
      }
      for i := 0 to |retry|
        invariant Collecting(retry[..i])
      {
        assert retry[..i + 1] == retry[..i] + [retry[i]];
        Collect(retry[i], retry[..i]);
      }
      assert retry[..|retry|] == retry;
      Flush();
      return Ok(shards);
    }
  }

  lemma {:induction false} NothingFinished(requests: seq<Request>)
    ensures Unfinished(requests, {}) == requests
  {
    if requests != [] {
      NothingFinished(requests[1..]);
    }
  }

  /** Retrying a plan of which nothing succeeded reads its shards back and repeats them. */
  lemma RetryRepeatsPlan(requests: seq<Request>, limits: Limits)
    requires limits.Valid()
    ensures var files := Greedy(requests, limits);
            Greedy(Unfinished(Flatten(files), {}), limits) == files
  {
    GreedyPacks(requests, limits);
    NothingFinished(requests);
  }

  lemma {:induction false} UnfinishedAre(requests: seq<Request>, successful: set<string>, q: Request)
    ensures q in Unfinished(requests, successful) <==> q in requests && q.customId !in successful
  {
    if requests != [] {
      UnfinishedAre(requests[1..], successful, q);
    }
  }

  /** A retry asks again for exactly the requests that have no result, and never needs more
      shards than the plan it repeats. */
  lemma RetryNeedsNoMore(requests: seq<Request>, successful: set<string>, limits: Limits)
    requires limits.Valid()
    ensures |Greedy(Unfinished(requests, successful), limits)| <= |Greedy(requests, limits)|
  {
    GreedyPacks(requests, limits);
    var thinned := Thin(Greedy(requests, limits), successful);
    ThinPacks(Greedy(requests, limits), successful, limits);
    GreedyIsOptimal(Unfinished(requests, successful), limits, thinned);
  }

  /** The old shards with the finished requests taken out and emptied shards dropped. */
  function Thin(shards: seq<seq<Request>>, successful: set<string>): seq<seq<Request>> {
    if shards == [] then []
    else
      var before := Thin(shards[..|shards| - 1], successful);
      var last := Unfinished(shards[|shards| - 1], successful);
      if last == [] then before else before + [last]
  }

  lemma {:induction false} UnfinishedConcat(a: seq<Request>, b: seq<Request>, successful: set<string>)
    ensures Unfinished(a + b, successful) == Unfinished(a, successful) + Unfinished(b, successful)
  {
    if a == [] {
      assert a + b == b;
    } else {
      UnfinishedConcat(a[1..], b, successful);
      assert (a + b)[1..] == a[1..] + b && (a + b)[0] == a[0];
    }
  }

  lemma {:induction false} UnfinishedShrinks(s: seq<Request>, successful: set<string>)
    ensures |Unfinished(s, successful)| <= |s|
    ensures TotalBytes(Unfinished(s, successful)) <= TotalBytes(s)
  {
    if s != [] {
      var n := |s| - 1;
      var before := Unfinished(s[..n], successful);
      assert s == s[..n] + [s[n]];
      UnfinishedShrinks(s[..n], successful);
      UnfinishedConcat(s[..n], [s[n]], successful);
      TotalBytesLast(before, s[n]);
      assert Unfinished(s, successful) == if s[n].customId in successful then before + [] else before + [s[n]];
      assert before + [] == before;
    }
  }

  lemma {:induction false} ThinPacks(shards: seq<seq<Request>>, successful: set<string>, limits: Limits)
    requires AllUploadable(shards, limits)
    ensures Packs(Thin(shards, successful), Unfinished(Flatten(shards), successful), limits)
    ensures |Thin(shards, successful)| <= |shards|
  {
    if shards != [] {
      var n := |shards| - 1;
      ThinPacks(shards[..n], successful, limits);
      UnfinishedConcat(Flatten(shards[..n]), shards[n], successful);
      UnfinishedShrinks(shards[n], successful);
      assert Uploadable(shards[n], limits);
      FlattenLast(Thin(shards[..n], successful), Unfinished(shards[n], successful));
    }
  }
}
