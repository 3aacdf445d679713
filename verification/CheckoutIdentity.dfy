/** The identity of a checkout while its cart keeps changing: every captured change installs
    a fresh external id, and a recovery run marks a checkout only under the id it has read.
    A capture reads the kept recovery tokens first and writes the document later. */
module CheckoutIdentity {
  import opened Wrappers

  datatype Status = Active | MissingPhone | Empty | RecoveryScheduled

  /** One document per user, so the user's number serves as the document's id. */
  datatype Checkout = Checkout(
    externalId: string, eventVersion: nat, status: Status, updatedAt: int,
    tokenHash: string, tokenHashes: seq<string>)

  /** What a run remembers of a checkout; the version is history, the run does not look at it. */
  datatype Row = Row(user: nat, externalId: string, updatedAt: int, version: nat)

  /** What a capture has read of its user's checkout: the hashes it knows, and as history the
      version that the document had. */
  datatype Capture = Capture(user: nat, known: seq<string>, version: nat)

  datatype Step =
    | ReadHashes(capture: nat, user: nat)
    | WriteCart(capture: nat, user: nat, externalId: string, tokenHash: string,
                hasItems: bool, hasPhone: bool, now: int)
    | ReadRow(user: nat)
    | Mark(row: Row)

  /** `captures` are all that have been begun and `written` those that are done; `rows` is what
      recovery runs have read; `ids` and `tokens` are what has been handed out so far. */
  datatype State = State(
    checkouts: map<nat, Checkout>, captures: map<nat, Capture>, written: set<nat>, rows: set<Row>,
    ids: set<string>, tokens: map<nat, seq<string>>)

  const EMPTY := State(map[], map[], {}, {}, {}, map[])

  const KEPT := 5

  // ---------------------------------------------------------------- recovery tokens

  /** Drops repetitions, keeping first occurrences in order. */
  function Unique(s: seq<string>): (u: seq<string>)
    ensures forall x :: x in u <==> x in s
    ensures forall i, j :: 0 <= i < j < |u| ==> u[i] != u[j]
    ensures |u| <= |s|
  {
    if s == [] then []
    else
      var before := Unique(s[..|s| - 1]);
      var last := s[|s| - 1];
      assert s == s[..|s| - 1] + [last];
      if last in before then before else before + [last]
  }

  function Last(s: seq<string>, n: nat): seq<string> {
    if |s| <= n then s else s[|s| - n..]
  }

  /** The hashes kept after a change: those the capture knows and the new one. */
  function KeptHashes(known: seq<string>, tokenHash: string): seq<string> {
    Last(Unique(known + [tokenHash]), KEPT)
  }

  /** What a capture reads: the earlier hashes and the current one. */
  function KnownHashes(previous: Option<Checkout>): seq<string> {
    if previous == None then []
    else if previous.value.tokenHash == "" then previous.value.tokenHashes
    else previous.value.tokenHashes + [previous.value.tokenHash]
  }

  /** A link resolves when its hash is the current one or one of the kept ones. */
  predicate Resolves(c: Checkout, hash: string) {
    hash == c.tokenHash || hash in c.tokenHashes
  }

  ghost predicate NoRepeats(s: seq<string>) {
    forall i, j :: 0 <= i < j < |s| ==> s[i] != s[j]
  }

  lemma {:induction false} UniqueFixes(s: seq<string>)
    requires NoRepeats(s)
    ensures Unique(s) == s
  {
    if s != [] {
      UniqueFixes(s[..|s| - 1]);
      assert s == s[..|s| - 1] + [s[|s| - 1]];
    }
  }

  lemma UniqueNext(s: seq<string>, x: string)
    ensures Unique(s + [x]) == if x in s then Unique(s) else Unique(s) + [x]
  {
    assert (s + [x])[..|s|] == s;
  }

  lemma LastNext(s: seq<string>, x: string, n: nat)
    requires n > 0
    ensures Last(Last(s, n) + [x], n) == Last(s + [x], n)
    ensures s != [] ==> Last(s, n) != [] && Last(s, n)[|Last(s, n)| - 1] == s[|s| - 1]
    ensures forall y :: y in Last(s, n) ==> y in s
    ensures NoRepeats(s) ==> NoRepeats(Last(s, n))
  {
  }

  /** What a capture knows that has read after exactly these tokens, if no token was lost. */
  function KnownAfter(handedOut: seq<string>): seq<string> {
    if handedOut == [] then [] else Last(handedOut, KEPT) + [handedOut[|handedOut| - 1]]
  }

  /** With fresh tokens the kept hashes are the last five the capture has seen handed out,
      the newest among them. */
  lemma KeepsTheLastFive(handedOut: seq<string>, tokenHash: string)
    requires NoRepeats(handedOut) && tokenHash !in handedOut
    ensures KeptHashes(KnownAfter(handedOut), tokenHash) == Last(handedOut + [tokenHash], KEPT)
  {
    hide Last, Unique, NoRepeats;
    LastNext(handedOut, tokenHash, KEPT);
    if handedOut == [] {
      NothingKnown(tokenHash);
    } else {
      var kept := Last(handedOut, KEPT);
      UniqueFixes(kept);
      UniqueNext(kept, handedOut[|handedOut| - 1]);
      UniqueNext(kept + [handedOut[|handedOut| - 1]], tokenHash);
    }
  }

  lemma NothingKnown(tokenHash: string)
    ensures KeptHashes([], tokenHash) == [tokenHash] == [] + [tokenHash] == Last([] + [tokenHash], KEPT)
  {
    assert ([] + [tokenHash])[..0] == [];
  }

  /** The new hash is always kept, last, and with it only hashes that the capture knew. */
  lemma KeepsTheNewest(known: seq<string>, tokenHash: string)
    requires tokenHash !in known
    ensures var kept := KeptHashes(known, tokenHash);
            && 0 < |kept| <= KEPT && kept[|kept| - 1] == tokenHash && NoRepeats(kept)
            && forall x :: x in kept ==> x == tokenHash || x in known
  {
    UniqueNext(known, tokenHash);
  }

  // ---------------------------------------------------------------- steps

  function StatusOf(hasItems: bool, hasPhone: bool): Status {
    if hasItems && hasPhone then Active else if hasItems then MissingPhone else Empty
  }

  function Changed(previous: Option<Checkout>, known: seq<string>, step: Step): Checkout
    requires step.WriteCart?
  {
    var version := if previous.Some? then previous.value.eventVersion else 0;
    Checkout(step.externalId, version + 1, StatusOf(step.hasItems, step.hasPhone), step.now,
             step.tokenHash, KeptHashes(known, step.tokenHash))
  }

  function VersionOf(s: State, user: nat): nat {
    if user in s.checkouts then s.checkouts[user].eventVersion else 0
  }

  function Find(s: State, user: nat): Option<Checkout> {
    if user in s.checkouts then Some(s.checkouts[user]) else None
  }

  function HandedOut(s: State, user: nat): seq<string> {
    if user in s.tokens then s.tokens[user] else []
  }

  function RowOf(s: State, user: nat): Row
    requires user in s.checkouts
  {
    var c := s.checkouts[user];
    Row(user, c.externalId, c.updatedAt, c.eventVersion)
  }

  /** Ids and tokens are freshly generated; only active checkouts are read. */
  predicate Enabled(s: State, step: Step) {
    match step
    case ReadHashes(q, _) => q !in s.captures
    case WriteCart(q, user, id, hash, _, _, _) =>
      && q in s.captures && q !in s.written && s.captures[q].user == user
      && id !in s.ids && hash != "" && hash !in HandedOut(s, user)
    case ReadRow(user) => user in s.checkouts && s.checkouts[user].status == Active
    case Mark(row) => row in s.rows
  }

  predicate MarkApplies(s: State, row: Row) {
    row.user in s.checkouts && s.checkouts[row.user].externalId == row.externalId
  }

  function After(s: State, step: Step): State
    requires Enabled(s, step)
  {
    match step
    case ReadHashes(q, user) =>
      s.(captures := s.captures[q := Capture(user, KnownHashes(Find(s, user)), VersionOf(s, user))])
    case WriteCart(q, user, id, hash, _, _, _) =>
      s.(checkouts := s.checkouts[user := Changed(Find(s, user), s.captures[q].known, step)],
         written := s.written + {q}, ids := s.ids + {id},
         tokens := s.tokens[user := HandedOut(s, user) + [hash]])
    case ReadRow(user) => s.(rows := s.rows + {RowOf(s, user)})
    case Mark(row) =>
      if !MarkApplies(s, row) then s
      else
        var c := s.checkouts[row.user];
        s.(checkouts := s.checkouts[row.user := c.(status := RecoveryScheduled, updatedAt := row.updatedAt)])
  }

  predicate Legal(s: State, steps: seq<Step>)
    decreases |steps|
  {
    steps == [] || (Enabled(s, steps[0]) && Legal(After(s, steps[0]), steps[1..]))
  }

  function Exec(s: State, steps: seq<Step>): State
    requires Legal(s, steps)
    decreases |steps|
  {
    if steps == [] then s else Exec(After(s, steps[0]), steps[1..])
  }

  // ---------------------------------------------------------------- what every run keeps

  ghost predicate RowSound(s: State, row: Row) {
    && row.externalId in s.ids && row.user in s.checkouts
    && var c := s.checkouts[row.user];
    && row.version <= c.eventVersion
    && (row.externalId == c.externalId <==> row.version == c.eventVersion)
    && (row.version == c.eventVersion ==> row.updatedAt == c.updatedAt)
  }

  /** The newest token is current and kept last; only handed out tokens are kept, at most
      five of them; and every captured change has handed out one. */
  ghost predicate TokensSound(c: Checkout, handedOut: seq<string>) {
    && |handedOut| == c.eventVersion > 0 && NoRepeats(handedOut) && "" !in handedOut
    && c.tokenHash == handedOut[|handedOut| - 1]
    && 0 < |c.tokenHashes| <= KEPT && c.tokenHashes[|c.tokenHashes| - 1] == c.tokenHash
    && NoRepeats(c.tokenHashes) && forall x :: x in c.tokenHashes ==> x in handedOut
  }

  /** A capture knows only tokens that were handed out before it read, and as long as nothing
      was captured since, just what the document says. */
  ghost predicate CaptureSound(s: State, c: Capture) {
    && c.version <= VersionOf(s, c.user) == |HandedOut(s, c.user)|
    && (forall x :: x in c.known ==> x in HandedOut(s, c.user)[..c.version])
    && (c.version == VersionOf(s, c.user) ==> c.known == KnownHashes(Find(s, c.user)))
  }

  ghost predicate Sound(s: State) {
    && (forall u :: u in s.checkouts ==> s.checkouts[u].externalId in s.ids)
    && (forall u :: u in s.checkouts <==> u in s.tokens)
    && (forall u :: u in s.checkouts ==> TokensSound(s.checkouts[u], s.tokens[u]))
    && (forall r :: r in s.rows ==> RowSound(s, r))
    && (forall q :: q in s.captures ==> CaptureSound(s, s.captures[q]))
  }

  lemma StartIsSound()
    ensures Sound(EMPTY)
  {
  }

  lemma SoundStep(s: State, step: Step)
    requires Sound(s) && Enabled(s, step)
    ensures Sound(After(s, step))
  {
    hide KeptHashes, NoRepeats, TokensSound, Last, CaptureSound, KnownHashes;
    match step
    case ReadHashes(q, user) => SoundRead(s, q, user);
    case WriteCart(_, _, _, _, _, _, _) => SoundWrite(s, step);
    case ReadRow(user) => SameDocuments(s, After(s, step));
    case Mark(row) =>
      if MarkApplies(s, row) {
        MarkKeepsTokens(s, row);
      }
  }

  lemma SoundRead(s: State, q: nat, user: nat)
    requires Sound(s) && q !in s.captures
    ensures Sound(After(s, ReadHashes(q, user)))
  {
    var t := After(s, ReadHashes(q, user));
    hide RowSound, NoRepeats;
    SameDocuments(s, t);
    if user in s.checkouts {
      assert TokensSound(s.checkouts[user], s.tokens[user]);
      assert s.tokens[user][..|s.tokens[user]|] == s.tokens[user];
    }
    assert CaptureSound(t, t.captures[q]);
    hide CaptureSound, TokensSound;
    RowsRest(s, t);
  }

  lemma RowsRest(s: State, t: State)
    requires t.checkouts == s.checkouts && s.ids <= t.ids
    ensures forall r :: RowSound(s, r) ==> RowSound(t, r)
  {
  }

  lemma SameDocuments(s: State, t: State)
    requires t.checkouts == s.checkouts && t.tokens == s.tokens
    ensures forall c :: CaptureSound(s, c) ==> CaptureSound(t, c)
  {
  }

  lemma SoundWrite(s: State, step: Step)
    requires Sound(s) && step.WriteCart? && Enabled(s, step)
    ensures Sound(After(s, step))
  {
    hide TokensSound, CaptureSound, RowSound, KeptHashes, KnownHashes, Enabled;
    RowsWrite(s, step);
    CapturesWrite(s, step);
    TokensWrite(s, step);
    WriteChanges(s, step);
    hide After, Changed;
  }

  /** What one write changes. */
  lemma WriteChanges(s: State, step: Step)
    requires step.WriteCart? && Enabled(s, step)
    ensures var t, c := After(s, step), Changed(Find(s, step.user), s.captures[step.capture].known, step);
            && t.checkouts == s.checkouts[step.user := c] && t.captures == s.captures && t.rows == s.rows
            && t.ids == s.ids + {step.externalId} && c.externalId == step.externalId
            && t.tokens == s.tokens[step.user := HandedOut(s, step.user) + [step.tokenHash]]
            && c.tokenHashes == KeptHashes(s.captures[step.capture].known, step.tokenHash)
  {
    hide KeptHashes;
  }

  lemma CapturesWrite(s: State, step: Step)
    requires Sound(s) && step.WriteCart? && Enabled(s, step)
    ensures forall q :: q in s.captures ==> CaptureSound(After(s, step), s.captures[q])
  {
    hide TokensSound, RowSound, After, Enabled, CaptureSound;
    forall q | q in s.captures
      ensures CaptureSound(After(s, step), s.captures[q])
    {
      CaptureWrite(s, step, s.captures[q]);
    }
  }

  lemma RowsWrite(s: State, step: Step)
    requires Sound(s) && step.WriteCart? && Enabled(s, step)
    ensures forall r :: r in s.rows ==> RowSound(After(s, step), r)
  {
    hide TokensSound, CaptureSound, KeptHashes;
  }

  lemma TokensWrite(s: State, step: Step)
    requires Sound(s) && step.WriteCart? && Enabled(s, step)
    ensures TokensSound(Changed(Find(s, step.user), s.captures[step.capture].known, step),
                        HandedOut(s, step.user) + [step.tokenHash])
  {
    var handedOut, capture := HandedOut(s, step.user), s.captures[step.capture];
    HandedOutSound(s, step.user);
    KnownIsHandedOut(s, capture);
    ChangedTokens(s, step);
    hide Sound, KeptHashes, Changed, CaptureSound, HandedOut, Find;
    assert capture.user == step.user && step.tokenHash !in handedOut && step.tokenHash != "";
    hide Enabled;
    TokensGrow(Changed(Find(s, step.user), capture.known, step), handedOut, capture.known);
  }

  lemma KnownIsHandedOut(s: State, c: Capture)
    requires CaptureSound(s, c)
    ensures forall x :: x in c.known ==> x in HandedOut(s, c.user)
  {
  }

  lemma ChangedTokens(s: State, step: Step)
    requires step.WriteCart? && Enabled(s, step)
    ensures var known := s.captures[step.capture].known;
            var c := Changed(Find(s, step.user), known, step);
            && c.eventVersion == VersionOf(s, step.user) + 1 && c.tokenHash == step.tokenHash
            && c.tokenHashes == KeptHashes(known, step.tokenHash)
  {
    hide KeptHashes;
  }

  lemma HandedOutSound(s: State, user: nat)
    requires Sound(s)
    ensures NoRepeats(HandedOut(s, user)) && "" !in HandedOut(s, user)
    ensures |HandedOut(s, user)| == VersionOf(s, user)
  {
    if user in s.checkouts {
      assert TokensSound(s.checkouts[user], s.tokens[user]);
    }
  }

  /** A new token that comes last in what was handed out and in what is kept. */
  lemma TokensGrow(c: Checkout, handedOut: seq<string>, known: seq<string>)
    requires NoRepeats(handedOut) && "" !in handedOut && c.tokenHash != "" && c.tokenHash !in handedOut
    requires forall x :: x in known ==> x in handedOut
    requires c.eventVersion == |handedOut| + 1 && c.tokenHashes == KeptHashes(known, c.tokenHash)
    ensures TokensSound(c, handedOut + [c.tokenHash])
  {
    hide KeptHashes;
    KeepsTheNewest(known, c.tokenHash);
    NoRepeatsNext(handedOut, c.tokenHash);
    hide NoRepeats;
  }

  lemma CaptureWrite(s: State, step: Step, c: Capture)
    requires Sound(s) && step.WriteCart? && Enabled(s, step) && CaptureSound(s, c)
    ensures CaptureSound(After(s, step), c)
  {
    hide Sound, KeptHashes, RowSound, TokensSound;
    var t := After(s, step);
    if c.user == step.user {
      assert HandedOut(t, c.user)[..c.version] == HandedOut(s, c.user)[..c.version];
    }
  }

  lemma MarkKeepsTokens(s: State, row: Row)
    requires Sound(s) && MarkApplies(s, row)
    ensures var c := s.checkouts[row.user].(status := RecoveryScheduled, updatedAt := row.updatedAt);
            && TokensSound(c, s.tokens[row.user])
            && forall q :: q in s.captures ==> CaptureSound(s.(checkouts := s.checkouts[row.user := c]), s.captures[q])
  {
    hide RowSound, NoRepeats;
    assert TokensSound(s.checkouts[row.user], s.tokens[row.user]);
    forall q | q in s.captures
      ensures CaptureSound(s.(checkouts := s.checkouts[row.user :=
        s.checkouts[row.user].(status := RecoveryScheduled, updatedAt := row.updatedAt)]), s.captures[q])
    {
      assert CaptureSound(s, s.captures[q]);
    }
  }

  lemma NoRepeatsNext(s: seq<string>, x: string)
    requires NoRepeats(s) && x !in s
    ensures NoRepeats(s + [x])
  {
  }

  lemma {:induction false} SoundRun(s: State, steps: seq<Step>)
    requires Sound(s) && Legal(s, steps)
    ensures Sound(Exec(s, steps))
    decreases |steps|
  {
    if steps != [] {
      hide Sound, After, Enabled;
      SoundStep(s, steps[0]);
      SoundRun(After(s, steps[0]), steps[1..]);
    }
  }

  // ---------------------------------------------------------------- which links resolve

  /** In every state of every run the newest link resolves, and whatever resolves was handed
      out to that user. */
  lemma NewestResolves(s: State, user: nat, hash: string)
    requires Sound(s) && user in s.checkouts
    ensures var handedOut := s.tokens[user];
            && handedOut != [] && Resolves(s.checkouts[user], handedOut[|handedOut| - 1])
            && (Resolves(s.checkouts[user], hash) ==> hash in handedOut)
  {
    assert TokensSound(s.checkouts[user], s.tokens[user]);
  }

  predicate InLastFive(handedOut: seq<string>, hash: string) {
    exists i :: |handedOut| - 5 <= i < |handedOut| && 0 <= i && handedOut[i] == hash
  }

  /** The user's links resolve exactly if they are among the last five handed out. */
  ghost predicate LastFiveResolve(s: State, user: nat) {
    user in s.checkouts ==> forall hash :: Resolves(s.checkouts[user], hash) <==> InLastFive(HandedOut(s, user), hash)
  }

  /** The capture writes over a document that another capture has written since it read. */
  predicate Stale(s: State, step: Step)
    requires Enabled(s, step)
  {
    step.WriteCart? && s.captures[step.capture].version != VersionOf(s, step.user)
  }

  /** After any captured change the link that was newest before still resolves exactly if no
      other capture of the user wrote between this one's read and write. */
  lemma SecondNewestResolvesIff(s: State, step: Step)
    requires Sound(s) && step.WriteCart? && Enabled(s, step) && step.user in s.checkouts
    ensures var t := After(s, step);
            Resolves(t.checkouts[step.user], s.checkouts[step.user].tokenHash) <==> !Stale(s, step)
  {
    var c, capture := s.checkouts[step.user], s.captures[step.capture];
    ChangeResolves(s, step);
    if Stale(s, step) {
      StaleHasCurrent(s, step);
      StaleForgets(c, s.tokens[step.user], capture, step.tokenHash);
    } else {
      UpToDateKnows(s, step);
      CurrentIsKept(s, step.user);
      hide Sound, After, KeptHashes;
      CurrentStays(c.tokenHashes, c.tokenHash, step.tokenHash);
    }
  }

  lemma ChangeResolves(s: State, step: Step)
    requires Sound(s) && step.WriteCart? && Enabled(s, step) && step.user in s.checkouts
    ensures var hash := s.checkouts[step.user].tokenHash;
            && hash != step.tokenHash
            && (Resolves(After(s, step).checkouts[step.user], hash) <==>
                hash in KeptHashes(s.captures[step.capture].known, step.tokenHash))
  {
    WriteChanges(s, step);
    assert TokensSound(s.checkouts[step.user], s.tokens[step.user]);
    hide Sound, After, KeptHashes, NoRepeats;
  }

  lemma CurrentIsKept(s: State, user: nat)
    requires Sound(s) && user in s.checkouts
    ensures var c := s.checkouts[user];
            && c.tokenHashes != [] && c.tokenHashes[|c.tokenHashes| - 1] == c.tokenHash != ""
            && NoRepeats(c.tokenHashes) && forall x :: x in c.tokenHashes ==> x in HandedOut(s, user)
  {
    assert TokensSound(s.checkouts[user], s.tokens[user]);
  }

  /** A capture that has read before the newest token keeps everything but that. */
  lemma StaleForgets(c: Checkout, handedOut: seq<string>, capture: Capture, tokenHash: string)
    requires TokensSound(c, handedOut) && capture.version < |handedOut| && tokenHash !in handedOut
    requires forall x :: x in capture.known ==> x in handedOut[..capture.version]
    ensures c.tokenHash !in KeptHashes(capture.known, tokenHash)
  {
    NewestIsUnknown(c, handedOut, capture);
    assert c.tokenHash in handedOut;
    assert forall x :: x in capture.known ==> x in handedOut;
    hide TokensSound, NoRepeats;
    KeepsTheNewest(capture.known, tokenHash);
  }

  lemma NewestIsUnknown(c: Checkout, handedOut: seq<string>, capture: Capture)
    requires TokensSound(c, handedOut) && capture.version < |handedOut|
    requires forall x :: x in capture.known ==> x in handedOut[..capture.version]
    ensures c.tokenHash !in capture.known
  {
  }

  lemma CurrentStays(hashes: seq<string>, current: string, tokenHash: string)
    requires hashes != [] && hashes[|hashes| - 1] == current && NoRepeats(hashes) && tokenHash !in hashes
    ensures current in KeptHashes(hashes + [current], tokenHash)
  {
    UniqueFixes(hashes);
    UniqueNext(hashes, current);
    UniqueNext(hashes + [current], tokenHash);
    hide Unique;
    assert (hashes + [tokenHash])[|hashes| - 1] == current;
  }

  /** No token of the user has been lost, and every capture knows what it should. */
  ghost predicate NothingLost(s: State, user: nat) {
    && (user in s.checkouts ==> s.checkouts[user].tokenHashes == Last(HandedOut(s, user), KEPT))
    && forall q :: q in s.captures && s.captures[q].user == user ==>
         && s.captures[q].version <= |HandedOut(s, user)|
         && s.captures[q].known == KnownAfter(HandedOut(s, user)[..s.captures[q].version])
  }

  lemma NothingLostResolves(s: State, user: nat)
    requires Sound(s) && NothingLost(s, user)
    ensures LastFiveResolve(s, user)
  {
    hide RowSound, CaptureSound, NoRepeats;
    if user in s.checkouts {
      assert TokensSound(s.checkouts[user], s.tokens[user]);
      hide Sound;
    }
  }

  lemma NothingLostStep(s: State, step: Step, user: nat)
    requires Sound(s) && NothingLost(s, user) && Enabled(s, step)
    requires !(step.WriteCart? && step.user == user && Stale(s, step))
    ensures NothingLost(After(s, step), user)
  {
    if step.WriteCart? && step.user == user {
      NothingLostWrite(s, step);
    } else if step.ReadHashes? && step.user == user {
      NothingLostRead(s, step);
    } else {
      hide Sound, KeptHashes, Last, KnownAfter, KnownHashes;
    }
  }

  lemma NothingLostRead(s: State, step: Step)
    requires Sound(s) && step.ReadHashes? && NothingLost(s, step.user) && Enabled(s, step)
    ensures NothingLost(After(s, step), step.user)
  {
    var user := step.user;
    var handedOut := HandedOut(s, user);
    assert handedOut[..|handedOut|] == handedOut;
    if user in s.checkouts {
      assert TokensSound(s.checkouts[user], s.tokens[user]);
    }
    hide Sound, TokensSound, Last;
    assert KnownHashes(Find(s, user)) == KnownAfter(handedOut) && VersionOf(s, user) == |handedOut| by {
      KnownIs(s, user);
    }
    hide KnownHashes, KnownAfter, VersionOf;
  }

  lemma KnownIs(s: State, user: nat)
    requires Sound(s) && NothingLost(s, user)
    ensures KnownHashes(Find(s, user)) == KnownAfter(HandedOut(s, user)) && VersionOf(s, user) == |HandedOut(s, user)|
  {
    hide Last, RowSound, CaptureSound, NoRepeats;
    if user in s.checkouts {
      assert TokensSound(s.checkouts[user], s.tokens[user]);
      hide Sound;
    }
  }

  lemma NothingLostWrite(s: State, step: Step)
    requires Sound(s) && step.WriteCart? && NothingLost(s, step.user) && Enabled(s, step) && !Stale(s, step)
    ensures NothingLost(After(s, step), step.user)
  {
    hide Sound, KeptHashes, Last, NoRepeats, KnownAfter, KnownHashes;
    var user, handedOut := step.user, HandedOut(s, step.user);
    UpToDateKnows(s, step);
    KnownIs(s, user);
    HandedOutSound(s, user);
    WriteChanges(s, step);
    KeepsTheLastFive(handedOut, step.tokenHash);
    hide After, Changed, Enabled, Stale;
    assert forall v :: 0 <= v <= |handedOut| ==> (handedOut + [step.tokenHash])[..v] == handedOut[..v];
  }

  lemma UpToDateKnows(s: State, step: Step)
    requires Sound(s) && step.WriteCart? && Enabled(s, step) && !Stale(s, step)
    ensures s.captures[step.capture].known == KnownHashes(Find(s, step.user))
        && step.tokenHash !in HandedOut(s, step.user)
  {
    assert CaptureSound(s, s.captures[step.capture]);
  }

  lemma StaleLoses(s: State, step: Step)
    requires Sound(s) && step.WriteCart? && Enabled(s, step) && Stale(s, step)
    ensures !LastFiveResolve(After(s, step), step.user)
  {
    hide KeptHashes, NoRepeats, RowSound;
    StaleHasCurrent(s, step);
    SecondNewestResolvesIff(s, step);
    WriteChanges(s, step);
    TokenIsLast(s.checkouts[step.user], s.tokens[step.user]);
    hide Sound, After, Changed, Enabled, Stale, TokensSound;
    SecondNewestIsAmong(s.tokens[step.user], step.tokenHash);
  }

  /** A stale capture has read before the newest token was handed out. */
  lemma StaleHasCurrent(s: State, step: Step)
    requires Sound(s) && step.WriteCart? && Enabled(s, step) && Stale(s, step)
    ensures step.user in s.checkouts && step.user in s.tokens
    ensures var c, handedOut, capture := s.checkouts[step.user], s.tokens[step.user], s.captures[step.capture];
            && TokensSound(c, handedOut) && capture.version < |handedOut|
            && forall x :: x in capture.known ==> x in handedOut[..capture.version]
  {
    StaleIsBehind(s, s.captures[step.capture]) by { assert CaptureSound(s, s.captures[step.capture]); }
    hide CaptureSound, RowSound, TokensSound;
  }

  lemma StaleIsBehind(s: State, c: Capture)
    requires CaptureSound(s, c) && c.version != VersionOf(s, c.user)
    ensures c.user in s.checkouts && c.version < |HandedOut(s, c.user)|
    ensures forall x :: x in c.known ==> x in HandedOut(s, c.user)[..c.version]
  {
    hide KnownHashes;
  }

  lemma TokenIsLast(c: Checkout, handedOut: seq<string>)
    requires TokensSound(c, handedOut)
    ensures handedOut != [] && c.tokenHash == handedOut[|handedOut| - 1]
  {
  }

  lemma SecondNewestIsAmong(handedOut: seq<string>, tokenHash: string)
    requires handedOut != []
    ensures InLastFive(handedOut + [tokenHash], handedOut[|handedOut| - 1])
  {
    var longer := handedOut + [tokenHash];
    assert Last(longer, KEPT)[|Last(longer, KEPT)| - 2] == handedOut[|handedOut| - 1];
  }

  ghost predicate AlwaysLastFive(s: State, steps: seq<Step>, user: nat)
    requires Legal(s, steps)
    decreases |steps|
  {
    LastFiveResolve(s, user) && (steps != [] ==> AlwaysLastFive(After(s, steps[0]), steps[1..], user))
  }

  /** No capture of the user writes between another one's read and write. */
  ghost predicate NoStaleWrite(s: State, steps: seq<Step>, user: nat)
    requires Legal(s, steps)
    decreases |steps|
  {
    steps != [] ==>
      && !(steps[0].WriteCart? && steps[0].user == user && Stale(s, steps[0]))
      && NoStaleWrite(After(s, steps[0]), steps[1..], user)
  }

  lemma {:induction false} LinksFrom(s: State, steps: seq<Step>, user: nat)
    requires Sound(s) && NothingLost(s, user) && Legal(s, steps)
    ensures AlwaysLastFive(s, steps, user) <==> NoStaleWrite(s, steps, user)
    decreases |steps|
  {
    NothingLostResolves(s, user);
    if steps != [] {
      var step := steps[0];
      SoundStep(s, step);
      if step.WriteCart? && step.user == user && Stale(s, step) {
        StaleLoses(s, step);
        hide Sound, NothingLost, LastFiveResolve, After, Enabled, Stale;
        assert !AlwaysLastFive(After(s, step), steps[1..], user);
      } else {
        NothingLostStep(s, step, user);
        hide Sound, NothingLost, LastFiveResolve, After, Enabled, Stale;
        LinksFrom(After(s, step), steps[1..], user);
      }
    }
  }

  /** Throughout a run a user's links resolve exactly when their tokens are among the last
      five handed out, if and only if in that run no capture of the user writes between
      another one's read and write. */
  lemma LinksOfTheLastFive(steps: seq<Step>, user: nat)
    requires Legal(EMPTY, steps)
    ensures AlwaysLastFive(EMPTY, steps, user) <==> NoStaleWrite(EMPTY, steps, user)
  {
    StartIsSound();
    LinksFrom(EMPTY, steps, user);
  }

  /** Two captures that both read before either writes lose the token of the first. */
  lemma OverlapLosesToken()
    ensures exists steps :: Legal(EMPTY, steps) && !AlwaysLastFive(EMPTY, steps, 0)
  {
    hide KeptHashes, KnownHashes;
    var first, second := WriteCart(0, 0, "a", "t", true, true, 1), WriteCart(1, 0, "b", "u", true, true, 2);
    var s1 := After(EMPTY, ReadHashes(0, 0));
    var s2 := After(s1, ReadHashes(1, 0));
    WriteChanges(s2, first);
    var s3 := After(s2, first);
    assert Enabled(s3, second) && Stale(s3, second);
    hide Enabled, After, Stale, AlwaysLastFive, NoStaleWrite;
    LostFrom(s3, second, []);
    LostBefore(s2, first, [second]);
    LostBefore(s1, ReadHashes(1, 0), [first] + [second]);
    LostBefore(EMPTY, ReadHashes(0, 0), [ReadHashes(1, 0)] + ([first] + [second]));
    LinksOfTheLastFive([ReadHashes(0, 0)] + ([ReadHashes(1, 0)] + ([first] + [second])), 0);
  }

  lemma LostFrom(s: State, step: Step, rest: seq<Step>)
    requires Enabled(s, step) && step.WriteCart? && Stale(s, step) && rest == []
    ensures Legal(s, [step]) && !NoStaleWrite(s, [step], step.user)
  {
    hide Enabled, After;
    assert Legal(After(s, step), []);
    assert [step][1..] == [];
  }

  lemma LostBefore(s: State, step: Step, rest: seq<Step>)
    requires Enabled(s, step) && Legal(After(s, step), rest) && !NoStaleWrite(After(s, step), rest, 0)
    ensures Legal(s, [step] + rest) && !NoStaleWrite(s, [step] + rest, 0)
  {
    hide Enabled, After, Stale;
    assert ([step] + rest)[1..] == rest;
  }

  // ---------------------------------------------------------------- marking

  predicate Touches(steps: seq<Step>, user: nat) {
    exists i :: 0 <= i < |steps| && steps[i].WriteCart? && steps[i].user == user
  }

  lemma {:induction false} VersionCountsChanges(s: State, steps: seq<Step>, user: nat)
    requires Legal(s, steps) && user in s.checkouts
    ensures user in Exec(s, steps).checkouts
    ensures Exec(s, steps).checkouts[user].eventVersion >= s.checkouts[user].eventVersion
    ensures Exec(s, steps).checkouts[user].eventVersion == s.checkouts[user].eventVersion <==> !Touches(steps, user)
    decreases |steps|
  {
    if steps != [] {
      TouchesFirst(steps, user);
      hide Touches, KeptHashes;
      VersionCountsChanges(After(s, steps[0]), steps[1..], user);
    }
  }

  lemma TouchesFirst(steps: seq<Step>, user: nat)
    requires steps != []
    ensures Touches(steps, user) <==> (steps[0].WriteCart? && steps[0].user == user) || Touches(steps[1..], user)
  {
    assert forall i :: 0 <= i < |steps| - 1 ==> steps[1..][i] == steps[i + 1];
    if Touches(steps, user) && !(steps[0].WriteCart? && steps[0].user == user) {
      var i :| 0 <= i < |steps| && steps[i].WriteCart? && steps[i].user == user;
      assert steps[1..][i - 1] == steps[i];
    }
  }

  lemma {:induction false} RowsRemain(s: State, steps: seq<Step>, row: Row)
    requires Legal(s, steps) && row in s.rows
    ensures row in Exec(s, steps).rows
    decreases |steps|
  {
    if steps != [] {
      RowsRemain(After(s, steps[0]), steps[1..], row);
    }
  }

  /** A run reads a checkout, anything at all happens, then the run marks it. The mark takes
      effect exactly when no change of that cart was captured in between; otherwise nothing
      changes. */
  lemma MarksOnlyUntouched(s: State, user: nat, between: seq<Step>)
    requires Sound(s) && Enabled(s, ReadRow(user)) && Legal(After(s, ReadRow(user)), between)
    ensures var row := RowOf(s, user);
            var reached := Exec(After(s, ReadRow(user)), between);
            && Enabled(reached, Mark(row)) && user in reached.checkouts
            && (MarkApplies(reached, row) <==> !Touches(between, user))
            && After(reached, Mark(row)) ==
               (if Touches(between, user) then reached
                else reached.(checkouts :=
                    reached.checkouts[user := reached.checkouts[user].(status := RecoveryScheduled)]))
  {
    hide TokensSound, Touches, KeptHashes;
    var row := RowOf(s, user);
    var started := After(s, ReadRow(user));
    var reached := Exec(started, between);
    SoundStep(s, ReadRow(user));
    SoundRun(started, between);
    VersionCountsChanges(started, between, user);
    RowsRemain(started, between, row);
    hide Exec, Legal;
    assert RowSound(reached, row);
    if MarkApplies(reached, row) {
      var c := reached.checkouts[user];
      assert c.(status := RecoveryScheduled, updatedAt := row.updatedAt) == c.(status := RecoveryScheduled);
    }
  }

  /** The freshness of the ids is needed: if a captured change could repeat the old id, a run
      would mark a cart that changed after it was read. */
  lemma RepeatedIdMarksChangedCart()
    ensures exists s: State, row: Row, step: Step ::
              && Sound(s) && row in s.rows && step.WriteCart? && step.user == row.user && step.externalId in s.ids
              && MarkApplies(s.(checkouts := s.checkouts[step.user := Changed(Find(s, step.user), [], step)]), row)
  {
    hide Sound, KeptHashes, KnownHashes;
    var first := WriteCart(0, 0, "a", "t", true, true, 1);
    StartIsSound();
    SoundStep(EMPTY, ReadHashes(0, 0));
    var begun := After(EMPTY, ReadHashes(0, 0));
    SoundStep(begun, first);
    WriteChanges(begun, first);
    var s := After(begun, first);
    SoundStep(s, ReadRow(0));
    var read, row := After(s, ReadRow(0)), RowOf(s, 0);
    var step := WriteCart(1, 0, "a", "u", true, true, 2);
    assert read.checkouts == s.checkouts && row in read.rows && row.externalId == "a" && "a" in read.ids;
    hide After, Enabled;
    assert MarkApplies(read.(checkouts := read.checkouts[0 := Changed(Find(read, 0), [], step)]), row);
  }

  // ---------------------------------------------------------------- the collection

  class Checkouts {
    var documents: map<nat, Checkout>
    ghost var state: State

    ghost predicate Valid()
      reads this
    {
      documents == state.checkouts && Sound(state)
    }

    constructor ()
      ensures Valid() && state == EMPTY
    {
      StartIsSound();
      documents, state := map[], EMPTY;
    }

    /** The hashes to keep, given what is read now. */
    method HashesWith(user: nat, tokenHash: string) returns (hashes: seq<string>)
      ensures hashes == KeptHashes(KnownHashes(if user in documents then Some(documents[user]) else None), tokenHash)
    {
      hide Unique;
      hashes := [];
      if user in documents {
        hashes := documents[user].tokenHashes;
        if documents[user].tokenHash != "" {
          hashes := hashes + [documents[user].tokenHash];
        }
      }
      hashes := Unique(hashes + [tokenHash]);
      if |hashes| > KEPT {
        hashes := hashes[|hashes| - KEPT..];
      }
    }

    /** Installs a new identity, creating the document if need be. The hashes are read first;
        `between` is what others do until the write, `meanwhile` what the collection is then. */
    method CaptureCartActivity(ghost capture: nat, user: nat, externalId: string, tokenHash: string, hasItems: bool,
                               hasPhone: bool, now: int, meanwhile: map<nat, Checkout>, ghost between: seq<Step>)
      requires Valid() && Enabled(state, ReadHashes(capture, user))
      requires Legal(After(state, ReadHashes(capture, user)), between)
      requires var reached := Exec(After(state, ReadHashes(capture, user)), between);
               && meanwhile == reached.checkouts
               && Enabled(reached, WriteCart(capture, user, externalId, tokenHash, hasItems, hasPhone, now))
      modifies this
      ensures Valid()
      ensures var reached := Exec(After(old(state), ReadHashes(capture, user)), between);
              state == After(reached, WriteCart(capture, user, externalId, tokenHash, hasItems, hasPhone, now))
      ensures documents.Keys == meanwhile.Keys + {user}
      ensures forall u :: u in documents && u != user ==> u in meanwhile && documents[u] == meanwhile[u]
      ensures var c := documents[user];
              && c.externalId == externalId && c.updatedAt == now && c.tokenHash == tokenHash
              && c.eventVersion == 1 + (if user in meanwhile then meanwhile[user].eventVersion else 0)
              && (c.status == Active <==> hasItems && hasPhone) && (c.status == MissingPhone <==> hasItems && !hasPhone)
              && (c.status == Empty <==> !hasItems)
    {
      hide Sound, KeptHashes, KnownHashes, Legal, Exec;
      ghost var step := WriteCart(capture, user, externalId, tokenHash, hasItems, hasPhone, now);
      ghost var begun := After(state, ReadHashes(capture, user));
      SoundStep(state, ReadHashes(capture, user));
      SoundRun(begun, between);
      CaptureStays(begun, between, capture);
      var hashes := HashesWith(user, tokenHash);
      documents, state := meanwhile, Exec(begun, between);
      assert state.captures[capture] == begun.captures[capture];
      SoundStep(state, step);
      WriteChanges(state, step);
      var version := if user in documents then documents[user].eventVersion else 0;
      var status := if hasItems && hasPhone then Active else if hasItems then MissingPhone else Empty;
      documents := documents[user := Checkout(externalId, version + 1, status, now, tokenHash, hashes)];
      state := After(state, step);
    }

    /** The source query hands out active checkouts only. */
    method ReadSource(user: nat) returns (found: bool, externalId: string, updatedAt: int, ghost row: Row)
      requires Valid()
      modifies this`state
      ensures Valid()
      ensures found <==> user in documents && documents[user].status == Active
      ensures found <==> Enabled(old(state), ReadRow(user))
      ensures found ==> externalId == documents[user].externalId && updatedAt == documents[user].updatedAt
      ensures documents == old(documents)
      ensures found ==> row == RowOf(old(state), user) && externalId == row.externalId && updatedAt == row.updatedAt
      ensures state == if found then After(old(state), ReadRow(user)) else old(state)
    {
      hide RowSound, TokensSound, CaptureSound;
      found, externalId, updatedAt, row := false, "", 0, Row(user, "", 0, 0);
      if user in documents && documents[user].status == Active {
        SoundStep(state, ReadRow(user));
        row := RowOf(state, user);
        found, externalId, updatedAt := true, documents[user].externalId, documents[user].updatedAt;
        state := After(state, ReadRow(user));
      }
    }

    /** Updates the document that still has the id the run has read, if there is one. */
    method MarkScheduled(user: nat, externalId: string, updatedAt: int, ghost row: Row)
      requires Valid() && Enabled(state, Mark(row))
      requires row.user == user && row.externalId == externalId && row.updatedAt == updatedAt
      modifies this
      ensures Valid() && state == After(old(state), Mark(row))
      ensures documents.Keys == old(documents).Keys
      ensures user in documents && documents[user] ==
                if old(documents[user].eventVersion) == row.version
                then old(documents[user]).(status := RecoveryScheduled) else old(documents[user])
      ensures forall u :: u in documents && u != user ==> documents[u] == old(documents[u])
    {
      hide TokensSound, CaptureSound, KeptHashes;
      SoundStep(state, Mark(row));
      assert RowSound(state, row);
      hide RowSound;
      if user in documents && documents[user].externalId == externalId {
        documents := documents[user := documents[user].(status := RecoveryScheduled, updatedAt := updatedAt)];
      }
      state := After(state, Mark(row));
    }
  }

  /** What a capture has read it remembers. */
  lemma {:induction false} CaptureStays(s: State, steps: seq<Step>, q: nat)
    requires Legal(s, steps) && q in s.captures
    ensures q in Exec(s, steps).captures && Exec(s, steps).captures[q] == s.captures[q]
    decreases |steps|
  {
    if steps != [] {
      hide KeptHashes, KnownHashes;
      CaptureStays(After(s, steps[0]), steps[1..], q);
    }
  }
}
