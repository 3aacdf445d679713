/** Packing request lines into upload shards, in order, under a count and a byte limit:
    the streaming writer of the first preparation, the collector of the retry, and why
    neither could use fewer files. */
module Sharding {

  datatype Request = Request(customId: string, bytes: nat)

  /** What a plan records of one shard. */
  datatype Shard = Shard(requests: nat, bytes: nat)

  datatype Limits = Limits(maxRequests: int, maxBytes: int) {
    /** The bounds that both programs enforce on their arguments. */
    predicate Valid() {
      1 <= maxRequests <= 50_000 && 1024 * 1024 <= maxBytes < 200 * 1024 * 1024
    }
  }

  function TotalBytes(s: seq<Request>): nat {
    if s == [] then 0 else TotalBytes(s[..|s| - 1]) + s[|s| - 1].bytes
  }

  function Flatten(shards: seq<seq<Request>>): seq<Request> {
    if shards == [] then [] else Flatten(shards[..|shards| - 1]) + shards[|shards| - 1]
  }

  /** A shard may be uploaded: not empty, within the count limit, and within the byte limit
      unless it holds a single oversized request. */
  predicate Uploadable(shard: seq<Request>, limits: Limits) {
    && shard != []
    && |shard| <= limits.maxRequests
    && (|shard| == 1 || TotalBytes(shard) <= limits.maxBytes)
  }

  ghost predicate AllUploadable(shards: seq<seq<Request>>, limits: Limits) {
    forall i :: 0 <= i < |shards| ==> Uploadable(shards[i], limits)
  }

  /** An in-order partition of the requests into shards that may be uploaded. */
  ghost predicate Packs(shards: seq<seq<Request>>, requests: seq<Request>, limits: Limits) {
    Flatten(shards) == requests && AllUploadable(shards, limits)
  }

  /** Whether a request joins the open shard. */
  predicate Joins(open: seq<Request>, r: Request, limits: Limits) {
    open != [] && |open| < limits.maxRequests && TotalBytes(open) + r.bytes <= limits.maxBytes
  }

  /** The greedy packing of the requests, last shard still open. */
  function Greedy(requests: seq<Request>, limits: Limits): seq<seq<Request>> {
    if requests == [] then []
    else
      var before := Greedy(requests[..|requests| - 1], limits);
      var r := requests[|requests| - 1];
      if before != [] && Joins(before[|before| - 1], r, limits)
      then before[|before| - 1 := before[|before| - 1] + [r]]
      else before + [[r]]
  }

  function Recorded(shards: seq<seq<Request>>): seq<Shard> {
    seq(|shards|, i requires 0 <= i < |shards| => Shard(|shards[i]|, TotalBytes(shards[i])))
  }

  /** One more request either joins the open shard or opens a new one. */
  lemma GreedyNext(done: seq<Request>, r: Request, limits: Limits)
    ensures var before := Greedy(done, limits);
            Greedy(done + [r], limits) ==
            if before != [] && Joins(before[|before| - 1], r, limits)
            then before[..|before| - 1] + [before[|before| - 1] + [r]]
            else before + [[r]]
  {
    assert (done + [r])[..|done|] == done;
  }

  /** Closed files followed by the open shard, if there is one. */
  function Written(files: seq<seq<Request>>, open: seq<Request>): seq<seq<Request>> {
    if open == [] then files else files + [open]
  }

  lemma GreedyNextOpen(done: seq<Request>, files: seq<seq<Request>>, open: seq<Request>, r: Request, limits: Limits)
    requires Greedy(done, limits) == Written(files, open) && (open == [] ==> files == [])
    ensures Greedy(done + [r], limits) ==
            if Joins(open, r, limits) then Written(files, open + [r]) else Written(Written(files, open), [r])
  {
    GreedyNext(done, r, limits);
    var before := Greedy(done, limits);
    if open != [] {
      assert before[..|before| - 1] == files && before[|before| - 1] == open;
    }
  }

  // ---------------------------------------------------------------- validity

  lemma FlattenLast(shards: seq<seq<Request>>, last: seq<Request>)
    ensures Flatten(shards + [last]) == Flatten(shards) + last
  {
    assert (shards + [last])[..|shards|] == shards;
  }

  lemma TotalBytesLast(s: seq<Request>, r: Request)
    ensures TotalBytes(s + [r]) == TotalBytes(s) + r.bytes
  {
    assert (s + [r])[..|s|] == s;
  }

  /** Greedy packing keeps the order, loses nothing and obeys both limits. */
  lemma {:induction false} GreedyPacks(requests: seq<Request>, limits: Limits)
    requires limits.Valid()
    ensures Packs(Greedy(requests, limits), requests, limits)
  {
    if requests != [] {
      var n := |requests| - 1;
      var before := Greedy(requests[..n], limits);
      var r := requests[n];
      assert requests == requests[..n] + [r];
      GreedyPacks(requests[..n], limits);
      GreedyNext(requests[..n], r, limits);
      hide Greedy;
      PacksNext(before, requests[..n], r, limits);
    }
  }

  lemma PacksNext(before: seq<seq<Request>>, done: seq<Request>, r: Request, limits: Limits)
    requires limits.Valid() && Packs(before, done, limits)
    ensures Packs(before + [[r]], done + [r], limits)
    ensures before != [] && Joins(before[|before| - 1], r, limits) ==>
              Packs(before[..|before| - 1] + [before[|before| - 1] + [r]], done + [r], limits)
  {
    FlattenLast(before, [r]);
    TotalBytesLast([], r);
    if before != [] && Joins(before[|before| - 1], r, limits) {
      var open := before[|before| - 1];
      TotalBytesLast(open, r);
      FlattenLast(before[..|before| - 1], open + [r]);
    }
  }

  // ---------------------------------------------------------------- optimality

  lemma {:induction false} TotalBytesSuffix(s: seq<Request>, k: nat)
    requires k <= |s|
    ensures TotalBytes(s[k..]) <= TotalBytes(s)
  {
    if k < |s| {
      var n := |s| - 1;
      assert s[k..][..|s[k..]| - 1] == s[..n][k..];
      assert s[k..][|s[k..]| - 1] == s[n];
      TotalBytesSuffix(s[..n], k);
    }
  }

  /** Greedy stays ahead: cut any valid packing after the same requests, and greedy has
      used no more shards; with equally many, its open shard is no longer. */
  lemma {:induction false} GreedyStaysAhead(requests: seq<Request>, limits: Limits, other: seq<seq<Request>>)
    requires limits.Valid() && Packs(other, requests, limits)
    ensures var mine := Greedy(requests, limits);
            && |mine| <= |other|
            && (mine != [] && |mine| == |other| ==> |mine[|mine| - 1]| <= |other[|other| - 1]|)
  {
    if requests != [] {
      var n := |requests| - 1;
      var r := requests[n];
      if other != [] {
        var last := other[|other| - 1];
        var rest := other[..|other| - 1];
        assert Uploadable(last, limits);
        GreedyPacks(requests[..n], limits);
        assert requests == Flatten(rest) + last;
        assert last[|last| - 1] == r;
        if |last| == 1 {
          assert Flatten(rest) == requests[..n];
          assert forall i :: 0 <= i < |rest| ==> rest[i] == other[i];
          GreedyStaysAhead(requests[..n], limits, rest);
        } else {
          var shorter := last[..|last| - 1];
          var trimmed := rest + [shorter];
          TrimmedPacks(requests, limits, other);
          GreedyStaysAhead(requests[..n], limits, trimmed);
          OpenShardFits(requests[..n], limits, Greedy(requests[..n], limits), trimmed, r, last);
        }
      }
    }
  }

  /** Taking the last request away from a last shard of several leaves a valid packing. */
  lemma TrimmedPacks(requests: seq<Request>, limits: Limits, other: seq<seq<Request>>)
    requires Packs(other, requests, limits) && other != [] && |other[|other| - 1]| > 1
    ensures requests != []
    ensures var last := other[|other| - 1];
            Packs(other[..|other| - 1] + [last[..|last| - 1]], requests[..|requests| - 1], limits)
  {
    var last := other[|other| - 1];
    var rest := other[..|other| - 1];
    var shorter := last[..|last| - 1];
    assert Uploadable(last, limits);
    assert requests == Flatten(rest) + last;
    FlattenLast(rest, shorter);
    assert TotalBytes(shorter) <= TotalBytes(last);
    assert forall i :: 0 <= i < |rest| ==> rest[i] == other[i];
  }

  /** With equally many shards, greedy's open shard is a suffix of the other's, so what
      the other could still add, greedy can add too. */
  lemma OpenShardFits(before: seq<Request>, limits: Limits, mine: seq<seq<Request>>, trimmed: seq<seq<Request>>,
                      r: Request, last: seq<Request>)
    requires limits.Valid() && Packs(mine, before, limits) && Packs(trimmed, before, limits)
    requires mine != [] ==> |mine| <= |trimmed|
    requires trimmed != [] && last == trimmed[|trimmed| - 1] + [r] && |last| > 1 && Uploadable(last, limits)
    requires mine != [] && |mine| == |trimmed| ==> |mine[|mine| - 1]| <= |trimmed[|trimmed| - 1]|
    ensures mine != [] && |mine| == |trimmed| ==> Joins(mine[|mine| - 1], r, limits)
  {
    if mine != [] && |mine| == |trimmed| {
      var open, theirs := mine[|mine| - 1], trimmed[|trimmed| - 1];
      assert Uploadable(open, limits);
      assert open == before[|before| - |open|..] && theirs == before[|before| - |theirs|..];
      assert open == theirs[|theirs| - |open|..];
      TotalBytesSuffix(theirs, |theirs| - |open|);
      TotalBytesLast(theirs, r);
    }
  }

  /** No in-order packing under the same limits uses fewer shards. */
  lemma GreedyIsOptimal(requests: seq<Request>, limits: Limits, other: seq<seq<Request>>)
    requires limits.Valid() && Packs(other, requests, limits)
    ensures |Greedy(requests, limits)| <= |other|
  {
    GreedyStaysAhead(requests, limits, other);
  }

  // ---------------------------------------------------------------- where a request goes

  /** Adding a request at the end never moves an earlier one to another shard. */
  lemma {:induction false} GreedyOnlyGrows(requests: seq<Request>, limits: Limits, k: nat)
    requires k <= |requests|
    ensures var part, full := Greedy(requests[..k], limits), Greedy(requests, limits);
            && |part| <= |full|
            && (forall i :: 0 <= i < |part| ==> part[i] <= full[i])
            && (forall i :: 0 <= i < |part| - 1 ==> part[i] == full[i])
    decreases |requests|
  {
    if k < |requests| {
      var shorter := requests[..|requests| - 1];
      assert shorter[..k] == requests[..k];
      GreedyOnlyGrows(shorter, limits, k);
    } else {
      assert requests[..k] == requests;
    }
  }

  /** The number of the shard that request `i` was written to, counting from 1. */
  function ShardOf(requests: seq<Request>, limits: Limits, i: nat): nat
    requires i < |requests|
  {
    |Greedy(requests[..i + 1], limits)|
  }

  /** The shard a manifest line names does hold that request, just after everything that
      came earlier. */
  lemma ShardOfHolds(requests: seq<Request>, limits: Limits, i: nat)
    requires limits.Valid() && i < |requests|
    ensures var k := ShardOf(requests, limits, i);
            var full := Greedy(requests, limits);
            && 1 <= k <= |full|
            && |Flatten(full[..k - 1])| <= i < |Flatten(full[..k - 1])| + |full[k - 1]|
            && full[k - 1][i - |Flatten(full[..k - 1])|] == requests[i]
  {
    var upTo := requests[..i + 1];
    var part := Greedy(upTo, limits);
    var full := Greedy(requests, limits);
    GreedyPacks(upTo, limits);
    GreedyOnlyGrows(requests, limits, i + 1);
    assert part != [];
    var k := |part|;
    assert part[..k - 1] == full[..k - 1];
    var open := part[k - 1];
    assert Flatten(part[..k - 1]) + open == upTo;
    assert Uploadable(open, limits);
    assert full[k - 1][|open| - 1] == open[|open| - 1] == upTo[i];
  }
}
