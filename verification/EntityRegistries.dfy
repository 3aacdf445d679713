/** The registry that gives brands and sellers one key per entity: exact names by a map,
    near names by scanning neighbouring length buckets. */
module EntityRegistries {
  import opened TextOrder
  import opened Wrappers

  /** The text functions, whatever they are. */
  datatype Text = Text(
    normalize: string -> string, slug: string -> string, hash: string -> string,
    tokens: string -> set<string>, similarity: (string, string) -> real)

  datatype Record = Record(
    name: string, normalizedName: string, aliases: seq<string>, sources: set<string>, methods: set<string>)

  datatype Review = Review(
    incomingName: string, incomingNormalized: string, candidateKey: string, candidateName: string,
    similarity: real, tokenSimilarity: real)

  /** First character (or none) and a third of the length. */
  datatype Bucket = Bucket(prefix: string, third: int)

  datatype State = State(
    records: map<string, Record>, keys: map<string, string>, buckets: map<Bucket, set<string>>, reviews: seq<Review>)

  function BucketOf(normalized: string): Bucket {
    Bucket(if normalized == "" then "" else normalized[..1], |normalized| / 3)
  }

  function In(s: State, b: Bucket): set<string> {
    if b in s.buckets then s.buckets[b] else {}
  }

  /** How much longer or shorter a candidate may be. */
  function Tolerance(length: nat): nat {
    if length * 15 / 100 > 3 then length * 15 / 100 else 3
  }

  predicate Tolerated(length: nat, other: nat) {
    other - length <= Tolerance(length) && length - other <= Tolerance(length)
  }

  /** Every key that an index leads to has a record. */
  ghost predicate Grounded(s: State) {
    && (forall n :: n in s.keys ==> s.keys[n] in s.records)
    && (forall b, k :: b in s.buckets && k in s.buckets[b] ==> k in s.records)
  }

  /** The records the scan compares a name with. */
  ghost function Near(s: State, n: string): (near: set<string>)
    requires Grounded(s)
    ensures near <= s.records.Keys
  {
    var b := BucketOf(n);
    set k | k in s.records && Tolerated(|n|, |s.records[k].normalizedName|)
            && (k in In(s, b.(third := b.third - 1)) || k in In(s, b) || k in In(s, b.(third := b.third + 1)))
  }

  function Score(s: State, text: Text, n: string, k: string): real
    requires k in s.records
  {
    text.similarity(n, s.records[k].normalizedName)
  }

  /** `a` comes at or after `b` in the order of scores, then of keys. */
  predicate Outranks(s: State, text: Text, n: string, a: string, b: string)
    requires a in s.records && b in s.records
  {
    Score(s, text, n, a) > Score(s, text, n, b) || (Score(s, text, n, a) == Score(s, text, n, b) && LexLe(b, a))
  }

  ghost predicate IsBest(s: State, text: Text, n: string, near: set<string>, k: string)
    requires near <= s.records.Keys
  {
    k in near && forall j :: j in near ==> Outranks(s, text, n, k, j)
  }

  lemma BestIsUnique(s: State, text: Text, n: string, near: set<string>, k: string, j: string)
    requires near <= s.records.Keys && IsBest(s, text, n, near, k) && IsBest(s, text, n, near, j)
    ensures k == j
  {
    assert Outranks(s, text, n, k, j) && Outranks(s, text, n, j, k);
    LexAntisymmetric(k, j);
  }

  lemma OutranksChain(s: State, text: Text, n: string, a: string, b: string, c: string)
    requires a in s.records && b in s.records && c in s.records
    requires Outranks(s, text, n, a, b) && Outranks(s, text, n, b, c)
    ensures Outranks(s, text, n, a, c)
  {
    if Score(s, text, n, a) == Score(s, text, n, c) {
      LexTransitive(c, b, a);
    }
  }

  lemma OutranksSelf(s: State, text: Text, n: string, a: string, b: string)
    requires a in s.records && b in s.records
    ensures Outranks(s, text, n, a, a) && (Outranks(s, text, n, a, b) || Outranks(s, text, n, b, a))
  {
    LexTotal(a, a);
    LexTotal(a, b);
  }

  lemma {:induction false} SomeBest(s: State, text: Text, n: string, near: set<string>)
    requires near <= s.records.Keys && near != {}
    ensures exists k :: IsBest(s, text, n, near, k)
    decreases |near|
  {
    hide Outranks;
    var x :| x in near;
    OutranksSelf(s, text, n, x, x);
    if near == {x} {
      assert IsBest(s, text, n, near, x);
    } else {
      var rest := near - {x};
      assert rest != {};
      SomeBest(s, text, n, rest);
      var k :| IsBest(s, text, n, rest, k);
      OutranksSelf(s, text, n, x, k);
      if Outranks(s, text, n, k, x) {
        assert IsBest(s, text, n, near, k);
      } else {
        forall j | j in near
          ensures Outranks(s, text, n, x, j)
        {
          if j != x {
            OutranksChain(s, text, n, x, k, j);
          }
        }
        assert IsBest(s, text, n, near, x);
      }
    }
  }

  ghost function BestOf(s: State, text: Text, n: string, near: set<string>): (k: string)
    requires near <= s.records.Keys && near != {}
    ensures IsBest(s, text, n, near, k)
  {
    SomeBest(s, text, n, near);
    var k :| IsBest(s, text, n, near, k);
    k
  }

  function TokenScore(text: Text, a: string, b: string): real {
    var union := |text.tokens(a) + text.tokens(b)|;
    |text.tokens(a) * text.tokens(b)| as real / (if union == 0 then 1 else union) as real
  }

  predicate SameEntity(score: real, tokenScore: real) {
    score >= 0.975 || (score >= 0.96 && tokenScore >= 0.8)
  }

  // ---------------------------------------------------------------- one registration

  function Known(r: Record, display: string, source: string): Record {
    r.(aliases := if display != r.name && display !in r.aliases then r.aliases + [display] else r.aliases,
       sources := r.sources + {source})
  }

  function Merged(r: Record, display: string, source: string): Record {
    r.(aliases := if display !in r.aliases then r.aliases + [display] else r.aliases,
       sources := r.sources + {source}, methods := r.methods + {"high_confidence_fuzzy"})
  }

  function NewKey(s: State, text: Text, kind: string, display: string): string {
    var key := kind + ":" + text.slug(display);
    if key in s.records then key + "-" + text.hash(text.normalize(display)) else key
  }

  function Insert(s: State, key: string, r: Record): State {
    var b := BucketOf(r.normalizedName);
    s.(records := s.records[key := r], keys := s.keys[r.normalizedName := key],
       buckets := s.buckets[b := In(s, b) + {key}])
  }

  datatype Outcome = Exact(key: string) | Fuzzy(key: string) | Added(key: string, review: Option<Review>)
  /** What registering a name comes to. */
  ghost function Decide(s: State, text: Text, kind: string, display: string): Outcome
    requires Grounded(s)
  {
    var n := text.normalize(display);
    var near := Near(s, n);
    if n in s.keys then Exact(s.keys[n])
    else if near == {} then Added(NewKey(s, text, kind, display), None)
    else
      var k := BestOf(s, text, n, near);
      var c := s.records[k];
      var score, tokenScore := Score(s, text, n, k), TokenScore(text, n, c.normalizedName);
      if SameEntity(score, tokenScore) then Fuzzy(k)
      else Added(NewKey(s, text, kind, display),
                 if score >= 0.88 then Some(Review(display, n, k, c.name, score, tokenScore)) else None)
  }

  ghost function Registered(s: State, text: Text, kind: string, display: string, source: string): State
    requires Grounded(s)
  {
    match Decide(s, text, kind, display)
    case Exact(k) => s.(records := s.records[k := Known(s.records[k], display, source)])
    case Fuzzy(k) => s.(records := s.records[k := Merged(s.records[k], display, source)])
    case Added(k, review) =>
      var t := s.(reviews := s.reviews + (if review.Some? then [review.value] else []));
      Insert(t, k, Record(display, text.normalize(display), [], {source}, {"normalized_exact"}))
  }

  // ---------------------------------------------------------------- what is kept

  ghost predicate Inverse(s: State) {
    && (forall n :: n in s.keys ==> s.keys[n] in s.records && s.records[s.keys[n]].normalizedName == n)
    && (forall k :: k in s.records ==>
        s.records[k].normalizedName in s.keys && s.keys[s.records[k].normalizedName] == k)
  }

  /** Each record sits in its own bucket and in no other. */
  ghost predicate Bucketed(s: State) {
    forall b, k :: k in In(s, b) <==> k in s.records && BucketOf(s.records[k].normalizedName) == b
  }

  ghost predicate AliasesClean(s: State, text: Text) {
    forall k :: k in s.records ==>
      var r := s.records[k];
      r.normalizedName == text.normalize(r.name) && CleanNames(r)
  }

  /** The aliases do not repeat, and the name is not one of them. */
  ghost predicate CleanNames(r: Record) {
    r.name !in r.aliases && forall i, j :: 0 <= i < j < |r.aliases| ==> r.aliases[i] != r.aliases[j]
  }

  /** A valid registry is grounded. */
  ghost predicate Valid(s: State, text: Text): (valid: bool)
    ensures valid ==> Grounded(s)
  {
    Inverse(s) && Bucketed(s) && (BucketedIsGrounded(s); AliasesClean(s, text))
  }

  lemma BucketedIsGrounded(s: State)
    requires Inverse(s) && Bucketed(s)
    ensures Grounded(s)
  {
    forall b, k | b in s.buckets && k in s.buckets[b]
      ensures k in s.records
    {
      assert k in In(s, b);
    }
  }

  /** Nothing breaks as long as a new record does not take the key of another one. */
  lemma RegisterKeepsValid(s: State, text: Text, kind: string, display: string, source: string)
    requires Valid(s, text)
    requires Decide(s, text, kind, display).Added? ==> NewKey(s, text, kind, display) !in s.records
    ensures Valid(Registered(s, text, kind, display, source), text)
  {
    hide Decide, Inverse, Bucketed, AliasesClean, Known, Merged, Insert, NewKey;
    DecisionIsClean(s, text, kind, display);
    match Decide(s, text, kind, display)
    case Exact(k) =>
      NamesClean(s, text, k, display, source);
      NameKept(s, text, k, Known(s.records[k], display, source));
    case Fuzzy(k) =>
      NamesClean(s, text, k, display, source);
      NameKept(s, text, k, Merged(s.records[k], display, source));
    case Added(k, review) =>
      var t := s.(reviews := s.reviews + (if review.Some? then [review.value] else []));
      SameButReviews(s, t, text);
      InsertKeepsValid(t, text, k, Record(display, text.normalize(display), [], {source}, {"normalized_exact"}));
  }

  lemma SameButReviews(s: State, t: State, text: Text)
    requires Valid(s, text) && t == s.(reviews := t.reviews)
    ensures Valid(t, text)
  {
    hide BucketOf, CleanNames;
    assert forall b :: In(t, b) == In(s, b);
  }

  lemma NamesClean(s: State, text: Text, k: string, display: string, source: string)
    requires AliasesClean(s, text) && k in s.records
    ensures CleanNames(Known(s.records[k], display, source))
    ensures display != s.records[k].name ==> CleanNames(Merged(s.records[k], display, source))
    ensures var r := s.records[k];
            && Known(r, display, source).name == Merged(r, display, source).name == r.name
            && Known(r, display, source).normalizedName == Merged(r, display, source).normalizedName == r.normalizedName
  {
  }

  /** Outside the exact branch the display name is nobody's name, so that merging needs no
      such check. */
  lemma DecisionIsClean(s: State, text: Text, kind: string, display: string)
    requires Valid(s, text)
    ensures var d := Decide(s, text, kind, display);
            && (d.Added? <==> d.key == NewKey(s, text, kind, display) && !d.Exact? && !d.Fuzzy?)
            && (d.Exact? <==> text.normalize(display) in s.keys)
            && (!d.Added? ==> d.key in s.records)
            && (!d.Exact? ==> forall k :: k in s.records ==> s.records[k].name != display)
  {
    hide Near, Score, TokenScore, SameEntity, NewKey, Bucketed, Outranks;
  }

  lemma AddingIsClean(s: State, text: Text, kind: string, display: string)
    requires Grounded(s) && Decide(s, text, kind, display).Added?
    ensures text.normalize(display) !in s.keys
    ensures Decide(s, text, kind, display).key == NewKey(s, text, kind, display)
  {
    hide Near, BestOf, Score, TokenScore, SameEntity, NewKey;
  }

  lemma NameKept(s: State, text: Text, k: string, r: Record)
    requires Valid(s, text) && k in s.records
    requires r.name == s.records[k].name && r.normalizedName == s.records[k].normalizedName
    requires CleanNames(r)
    ensures Valid(s.(records := s.records[k := r]), text)
  {
    hide BucketOf;
    var t := s.(records := s.records[k := r]);
    assert Inverse(t);
    assert forall b :: In(t, b) == In(s, b);
  }

  lemma InsertKeepsValid(s: State, text: Text, k: string, r: Record)
    requires Valid(s, text) && k !in s.records && r.normalizedName !in s.keys
    requires r.normalizedName == text.normalize(r.name) && r.aliases == []
    ensures Valid(Insert(s, k, r), text)
  {
    hide Inverse, Bucketed, AliasesClean, BucketOf, Insert;
    InsertKeepsInverse(s, k, r);
    InsertKeepsBuckets(s, k, r);
    InsertKeepsNames(s, text, k, r);
  }

  lemma InsertKeepsInverse(s: State, k: string, r: Record)
    requires Inverse(s) && k !in s.records && r.normalizedName !in s.keys
    ensures Inverse(Insert(s, k, r))
  {
    hide BucketOf, In;
  }

  lemma InsertKeepsNames(s: State, text: Text, k: string, r: Record)
    requires AliasesClean(s, text) && r.normalizedName == text.normalize(r.name) && r.aliases == []
    ensures AliasesClean(Insert(s, k, r), text)
  {
    hide BucketOf, In;
    assert CleanNames(r);
    hide CleanNames;
  }

  lemma InsertKeepsBuckets(s: State, k: string, r: Record)
    requires Bucketed(s) && k !in s.records
    ensures Bucketed(Insert(s, k, r))
  {
    hide BucketOf;
    var t := Insert(s, k, r);
    var b := BucketOf(r.normalizedName);
    forall c
      ensures In(t, c) == if c == b then In(s, c) + {k} else In(s, c)
    {
    }
  }

  /** Taking the key of another record does break the registry, whatever else is registered:
      the other record's name keeps leading to a key that is no longer its own. */
  lemma ValidIffKeyIsFree(s: State, text: Text, kind: string, display: string, source: string)
    requires Valid(s, text) && Decide(s, text, kind, display).Added?
    ensures Valid(Registered(s, text, kind, display, source), text) <==> NewKey(s, text, kind, display) !in s.records
  {
    if NewKey(s, text, kind, display) !in s.records {
      RegisterKeepsValid(s, text, kind, display, source);
    } else {
      AddedStored(s, text, kind, display, source);
      hide Decide, Registered, NewKey, Bucketed, AliasesClean;
      Robbed(s, Registered(s, text, kind, display, source), NewKey(s, text, kind, display), text.normalize(display));
    }
  }

  /** The name of a record whose key is taken over by another name leads nowhere. */
  lemma Robbed(s: State, t: State, k: string, n: string)
    requires Inverse(s) && k in s.records && n !in s.keys
    requires t.keys == s.keys[n := k] && k in t.records && t.records[k].normalizedName == n
    ensures !Inverse(t)
  {
    var robbed := s.records[k].normalizedName;
    assert t.keys[robbed] == k && robbed != n;
  }

  /** What an addition stores. */
  lemma AddedStored(s: State, text: Text, kind: string, display: string, source: string)
    requires Grounded(s) && Decide(s, text, kind, display).Added?
    ensures var t, k, n := Registered(s, text, kind, display, source), NewKey(s, text, kind, display),
                           text.normalize(display);
            && n !in s.keys && t.keys == s.keys[n := k] && Decide(s, text, kind, display).key == k
            && t.records == s.records[k := Record(display, n, [], {source}, {"normalized_exact"})]
  {
    AddingIsClean(s, text, kind, display);
    hide Decide, NewKey, BucketOf, In;
  }

  /** The key is taken exactly when both the plain key and the suffixed one are. */
  lemma KeyIsTaken(s: State, text: Text, kind: string, display: string)
    ensures NewKey(s, text, kind, display) in s.records <==>
            && kind + ":" + text.slug(display) in s.records
            && kind + ":" + text.slug(display) + "-" + text.hash(text.normalize(display)) in s.records
  {
  }

  // ---------------------------------------------------------------- runs

  datatype Entry = Entry(display: string, source: string)

  /** No new record of the run takes a key that is in use. */
  ghost predicate KeysFree(s: State, text: Text, kind: string, entries: seq<Entry>)
    requires Grounded(s)
    decreases |entries|
  {
    if entries == [] then true
    else
      var e := entries[0];
      var t := Registered(s, text, kind, e.display, e.source);
      && (Decide(s, text, kind, e.display).Added? ==> NewKey(s, text, kind, e.display) !in s.records)
      && Grounded(t)
      && KeysFree(t, text, kind, entries[1..])
  }

  ghost function RegisterAll(s: State, text: Text, kind: string, entries: seq<Entry>): State
    requires Grounded(s)
    decreases |entries|
  {
    if entries == [] then s
    else
      var t := Registered(s, text, kind, entries[0].display, entries[0].source);
      RegisterGrounded(s, text, kind, entries[0].display, entries[0].source);
      RegisterAll(t, text, kind, entries[1..])
  }

  lemma RegisterGrounded(s: State, text: Text, kind: string, display: string, source: string)
    requires Grounded(s)
    ensures Grounded(Registered(s, text, kind, display, source))
  {
    hide Near, BestOf, Score, TokenScore, SameEntity, NewKey, BucketOf;
    var t := Registered(s, text, kind, display, source);
    assert s.records.Keys <= t.records.Keys;
    hide Decide, Registered;
  }

  lemma {:induction false} RunKeepsValid(s: State, text: Text, kind: string, entries: seq<Entry>)
    requires Valid(s, text) && KeysFree(s, text, kind, entries)
    ensures Valid(RegisterAll(s, text, kind, entries), text)
    decreases |entries|
  {
    hide Valid, Grounded, Decide, Registered;
    if entries != [] {
      RegisterKeepsValid(s, text, kind, entries[0].display, entries[0].source);
      RunKeepsValid(Registered(s, text, kind, entries[0].display, entries[0].source), text, kind, entries[1..]);
    }
  }

  /** A name that has a key keeps it over every run, free keys or not. */
  lemma {:induction false} ExactNamesStay(s: State, text: Text, kind: string, entries: seq<Entry>, n: string)
    requires Grounded(s) && n in s.keys
    ensures Grounded(RegisterAll(s, text, kind, entries))
    ensures n in RegisterAll(s, text, kind, entries).keys && RegisterAll(s, text, kind, entries).keys[n] == s.keys[n]
    decreases |entries|
  {
    hide Grounded, Decide, Registered;
    if entries != [] {
      var e := entries[0];
      RegisterGrounded(s, text, kind, e.display, e.source);
      KeyStays(s, text, kind, e.display, e.source, n);
      ExactNamesStay(Registered(s, text, kind, e.display, e.source), text, kind, entries[1..], n);
    }
  }

  lemma KeyStays(s: State, text: Text, kind: string, display: string, source: string, n: string)
    requires Grounded(s) && n in s.keys
    ensures var t := Registered(s, text, kind, display, source); n in t.keys && t.keys[n] == s.keys[n]
  {
    hide Near, BestOf, Score, TokenScore, SameEntity, NewKey, BucketOf;
  }

  /** Once a name has been added, every name that normalises alike gets the same key forever. */
  lemma SameNameSameKey(
    s: State, text: Text, kind: string, first: Entry, entries: seq<Entry>, again: string)
    requires Grounded(s) && text.normalize(again) == text.normalize(first.display)
    requires !Decide(s, text, kind, first.display).Fuzzy?
    ensures var t := Registered(s, text, kind, first.display, first.source);
            && Grounded(t) && Grounded(RegisterAll(t, text, kind, entries))
            && Decide(RegisterAll(t, text, kind, entries), text, kind, again) ==
               Exact(Decide(s, text, kind, first.display).key)
  {
    hide Near, BestOf, Score, TokenScore, SameEntity, NewKey, BucketOf, RegisterAll, Grounded;
    var t := Registered(s, text, kind, first.display, first.source);
    RegisterGrounded(s, text, kind, first.display, first.source);
    ExactNamesStay(t, text, kind, entries, text.normalize(first.display));
  }

  /** A name that was merged into another record is not indexed: after one more record it
      goes to that record exactly when it is within the scan and outranks the old choice. */
  lemma MergedNameMoves(s: State, text: Text, n: string, k: string, r: Record)
    requires Valid(s, text) && k !in s.records && r.normalizedName !in s.keys
    requires Near(s, n) != {}
    ensures var t, before := Insert(s, k, r), BestOf(s, text, n, Near(s, n));
            && Grounded(t) && Near(t, n) != {}
            && BestOf(t, text, n, Near(t, n)) ==
               if k in Near(t, n) && Outranks(t, text, n, k, before) then k else before
  {
    var t := Insert(s, k, r);
    InsertNear(s, n, k, r);
    var near, more := Near(s, n), Near(t, n);
    hide Near, Insert, Grounded, Valid;
    var before := BestOf(s, text, n, near);
    assert forall j :: j in near ==> Outranks(t, text, n, before, j);
    hide BestOf;
    if k in more && Outranks(t, text, n, k, before) {
      forall j | j in more
        ensures Outranks(t, text, n, k, j)
      {
        OutranksSelf(t, text, n, k, k);
        if j != k {
          OutranksChain(t, text, n, k, before, j);
        }
      }
      BestIsUnique(t, text, n, more, BestOf(t, text, n, more), k);
    } else {
      if k in more {
        OutranksSelf(t, text, n, k, before);
      }
      hide Outranks;
      BestIsUnique(t, text, n, more, BestOf(t, text, n, more), before);
    }
  }

  lemma InsertNear(s: State, n: string, k: string, r: Record)
    requires Grounded(s) && k !in s.records
    ensures var t := Insert(s, k, r);
            && Grounded(t) && Near(s, n) <= Near(t, n) <= Near(s, n) + {k}
            && forall j :: j in s.records ==> j in t.records && t.records[j] == s.records[j]
  {
    hide BucketOf, Tolerated;
  }

  /** Registering the same name again right away returns the same key and changes nothing. */
  lemma RegisterTwice(s: State, text: Text, kind: string, display: string, source: string)
    requires Grounded(s)
    ensures var t := Registered(s, text, kind, display, source);
            && Grounded(t)
            && Decide(t, text, kind, display).key == Decide(s, text, kind, display).key
            && Registered(t, text, kind, display, source) == t
  {
    RegisterGrounded(s, text, kind, display, source);
    match Decide(s, text, kind, display)
    case Exact(k) => ExactTwice(s, text, kind, display, source);
    case Fuzzy(k) => FuzzyTwice(s, text, kind, display, source);
    case Added(k, _) => AddedTwice(s, text, kind, display, source);
  }

  lemma ExactTwice(s: State, text: Text, kind: string, display: string, source: string)
    requires Grounded(s) && Grounded(Registered(s, text, kind, display, source))
        && Decide(s, text, kind, display).Exact?
    ensures var t := Registered(s, text, kind, display, source);
            && Decide(t, text, kind, display).key == Decide(s, text, kind, display).key
            && Registered(t, text, kind, display, source) == t
  {
    hide Near, BestOf, Score, TokenScore, SameEntity, NewKey, Known;
    Again(s.records[Decide(s, text, kind, display).key], display, source);
  }

  lemma FuzzyTwice(s: State, text: Text, kind: string, display: string, source: string)
    requires Grounded(s) && Grounded(Registered(s, text, kind, display, source))
        && Decide(s, text, kind, display).Fuzzy?
    ensures var t := Registered(s, text, kind, display, source);
            && Decide(t, text, kind, display).key == Decide(s, text, kind, display).key
            && Registered(t, text, kind, display, source) == t
  {
    hide BestOf, TokenScore, SameEntity, NewKey, Score, Near;
    var k := Decide(s, text, kind, display).key;
    Again(s.records[k], display, source);
    SameScan(s, Registered(s, text, kind, display, source), text, text.normalize(display));
    hide Grounded, Merged;
  }

  lemma AddedTwice(s: State, text: Text, kind: string, display: string, source: string)
    requires Grounded(s) && Grounded(Registered(s, text, kind, display, source))
        && Decide(s, text, kind, display).Added?
    ensures var t := Registered(s, text, kind, display, source);
            && Decide(t, text, kind, display).key == Decide(s, text, kind, display).key
            && Registered(t, text, kind, display, source) == t
  {
    AddedStored(s, text, kind, display, source);
    var t := Registered(s, text, kind, display, source);
    KnownAgain(t, text, kind, display, source);
  }

  /** A name whose record it is already, known from the same source, changes nothing. */
  lemma KnownAgain(t: State, text: Text, kind: string, display: string, source: string)
    requires Grounded(t) && text.normalize(display) in t.keys
    requires var k := t.keys[text.normalize(display)];
             k in t.records && Known(t.records[k], display, source) == t.records[k]
    ensures Decide(t, text, kind, display) == Exact(t.keys[text.normalize(display)])
    ensures Registered(t, text, kind, display, source) == t
  {
    hide BestOf, Near, TokenScore, SameEntity, NewKey, Score, Grounded;
  }

  lemma Again(r: Record, display: string, source: string)
    ensures Known(Known(r, display, source), display, source) == Known(r, display, source)
    ensures Merged(Merged(r, display, source), display, source) == Merged(r, display, source)
  {
  }

  /** Records that only gain aliases are scanned and ranked as before. */
  lemma SameScan(s: State, t: State, text: Text, n: string)
    requires Grounded(s) && Grounded(t) && s.keys == t.keys && s.buckets == t.buckets
        && s.records.Keys == t.records.Keys
    requires forall k :: k in s.records ==> s.records[k].normalizedName == t.records[k].normalizedName
    ensures Near(s, n) == Near(t, n)
    ensures forall k :: k in s.records ==> Score(s, text, n, k) == Score(t, text, n, k)
    ensures Near(s, n) != {} ==> BestOf(s, text, n, Near(s, n)) == BestOf(t, text, n, Near(t, n))
  {
    hide BestOf, BucketOf, Tolerated;
    assert Near(s, n) == Near(t, n);
    if Near(s, n) != {} {
      var near := Near(s, n);
      var k := BestOf(s, text, n, near);
      assert IsBest(t, text, n, near, k);
      BestIsUnique(t, text, n, near, k, BestOf(t, text, n, near));
    }
  }

  // ---------------------------------------------------------------- what the scan sees

  /** The scan compares a name with the records of its first character, tolerated length and
      neighbouring length third. */
  lemma ScanSees(s: State, text: Text, n: string, k: string)
    requires Valid(s, text) && k in s.records
    ensures var m := s.records[k].normalizedName;
            k in Near(s, n) <==>
            && Tolerated(|n|, |m|)
            && BucketOf(m).prefix == BucketOf(n).prefix && -1 <= |m| / 3 - |n| / 3 <= 1
  {
    hide Tolerated, Inverse, AliasesClean;
    var b := BucketOf(n);
    assert forall c :: k in In(s, c) <==> BucketOf(s.records[k].normalizedName) == c;
  }

  /** It sees every record of the same first character whose length differs by three at most. */
  lemma ScanSeesCloseLengths(s: State, text: Text, n: string, k: string)
    requires Valid(s, text) && k in s.records
    requires BucketOf(s.records[k].normalizedName).prefix == BucketOf(n).prefix
    requires -3 <= |s.records[k].normalizedName| - |n| <= 3
    ensures k in Near(s, n)
  {
    hide Near;
    ScanSees(s, text, n, k);
  }

  ghost predicate SeesAllTolerated(length: nat) {
    forall other: nat :: Tolerated(length, other) ==> -1 <= other / 3 - length / 3 <= 1
  }

  /** It sees every tolerated length exactly for names shorter than 27, and for 28 and 31. */
  lemma ScanCompleteness(length: nat)
    ensures SeesAllTolerated(length) <==> length < 27 || length == 28 || length == 31
  {
    if length < 27 || length == 28 || length == 31 {
      assert Tolerance(length) <= 4;
    } else if length % 3 == 1 {
      assert Tolerance(length) >= 5 && Tolerated(length, length - 5);
    } else if length % 3 == 0 {
      assert Tolerance(length) >= 4 && Tolerated(length, length - 4);
    } else {
      assert Tolerance(length) >= 4 && Tolerated(length, length + 4);
    }
  }

  // ---------------------------------------------------------------- what a registration leaves

  /** A registered name is compared with `n`: it begins alike, its length differs by three or by
      15 in a hundred at most, and is in the same or a neighbouring third. */
  ghost predicate Compared(s: State, n: string, k: string) {
    && k in s.records
    && var m := s.records[k].normalizedName;
    && (if n == "" then m == "" else m != "" && m[0] == n[0])
    && (var d := if |m| > |n| then |m| - |n| else |n| - |m|; d <= 3 || 100 * d <= 15 * |n|)
    && -1 <= |m| / 3 - |n| / 3 <= 1
  }

  ghost function Similarity(s: State, text: Text, n: string, k: string): real
    requires k in s.records
  {
    text.similarity(n, s.records[k].normalizedName)
  }

  /** The most similar of the compared names, of equally similar ones that with the last key. */
  ghost predicate Top(s: State, text: Text, n: string, k: string) {
    && Compared(s, n, k)
    && forall j :: Compared(s, n, j) ==>
         Similarity(s, text, n, j) < Similarity(s, text, n, k)
         || (Similarity(s, text, n, j) == Similarity(s, text, n, k) && LexLe(j, k))
  }

  /** The number of words that two names share, and of those that either has, but one at least. */
  ghost function Shared(text: Text, a: string, b: string): nat {
    |text.tokens(a) * text.tokens(b)|
  }

  ghost function Either(text: Text, a: string, b: string): nat {
    if |text.tokens(a) + text.tokens(b)| == 0 then 1 else |text.tokens(a) + text.tokens(b)|
  }

  /** Similar enough to be the same: 975 in a thousand, or 96 in a hundred if four words in five
      are shared. */
  ghost predicate Alike(s: State, text: Text, n: string, k: string)
    requires k in s.records
  {
    var m := s.records[k].normalizedName;
    || 1000.0 * Similarity(s, text, n, k) >= 975.0
    || (100.0 * Similarity(s, text, n, k) >= 96.0 && 5 * Shared(text, n, m) >= 4 * Either(text, n, m))
  }

  lemma ComparedIsNear(s: State, text: Text, n: string)
    requires Valid(s, text)
    ensures forall k :: k in Near(s, n) <==> Compared(s, n, k)
  {
    forall k
      ensures k in Near(s, n) <==> Compared(s, n, k)
    {
      if k in s.records {
        ScanSees(s, text, n, k);
        ToleratedMeans(|n|, |s.records[k].normalizedName|);
        BucketsBegin(n, s.records[k].normalizedName);
        hide Near, Tolerated, BucketOf, Valid;
      }
    }
  }

  lemma BucketsBegin(n: string, m: string)
    ensures BucketOf(m).prefix == BucketOf(n).prefix <==> if n == "" then m == "" else m != "" && m[0] == n[0]
  {
    assert n != "" ==> n[..1] == [n[0]];
    assert m != "" ==> m[..1] == [m[0]];
  }

  lemma ToleratedMeans(length: nat, other: nat)
    ensures Tolerated(length, other) <==>
            var d := if other > length then other - length else length - other; d <= 3 || 100 * d <= 15 * length
  {
  }

  lemma TopIsBest(s: State, text: Text, n: string, k: string)
    requires Valid(s, text)
    ensures Top(s, text, n, k) <==> Near(s, n) != {} && k == BestOf(s, text, n, Near(s, n))
    ensures k in s.records ==> Similarity(s, text, n, k) == Score(s, text, n, k)
  {
    var near := Near(s, n);
    ComparedIsNear(s, text, n);
    hide Near, Compared, Valid, BestOf;
    if Top(s, text, n, k) {
      forall j | j in near
        ensures Outranks(s, text, n, k, j)
      {
        assert Compared(s, n, j);
      }
      BestIsUnique(s, text, n, near, k, BestOf(s, text, n, near));
    }
  }

  lemma AlikeMeans(s: State, text: Text, n: string, k: string)
    requires k in s.records
    ensures var m := s.records[k].normalizedName;
            && (Alike(s, text, n, k) <==> SameEntity(Score(s, text, n, k), TokenScore(text, n, m)))
            && TokenScore(text, n, m) == Shared(text, n, m) as real / Either(text, n, m) as real
  {
    var m := s.records[k].normalizedName;
    Fraction(Shared(text, n, m), Either(text, n, m));
  }

  lemma Fraction(a: nat, b: nat)
    requires b > 0
    ensures a as real / b as real >= 0.8 <==> 5 * a >= 4 * b
  {
    Quotient(a as real, b as real);
    assert 5.0 * (a as real) >= 4.0 * (b as real) <==> 5 * a >= 4 * b;
  }

  lemma Quotient(x: real, y: real)
    requires y > 0.0
    ensures x / y >= 0.8 <==> 5.0 * x >= 4.0 * y
  {
    if x / y >= 0.8 {
      AtLeastTimes(x / y, y);
    } else {
      BelowTimes(x / y, y);
    }
  }

  lemma AtLeastTimes(q: real, y: real)
    requires y > 0.0 && q >= 0.8
    ensures q * y >= 0.8 * y
  {
  }

  lemma BelowTimes(q: real, y: real)
    requires y > 0.0 && q < 0.8
    ensures q * y < 0.8 * y
  {
  }

  /** The record goes by one name more, from one source more. */
  ghost predicate GoesBy(r: Record, q: Record, display: string, source: string, methods: set<string>, asName: bool) {
    && q == r.(aliases := q.aliases, sources := r.sources + {source}, methods := r.methods + methods)
    && q.aliases == if display in r.aliases || (asName && display == r.name) then r.aliases else r.aliases + [display]
  }

  /** The key a new record gets. */
  ghost predicate GetsKey(s: State, text: Text, kind: string, display: string, k: string) {
    var plain := kind + ":" + text.slug(display);
    k == if plain in s.records then plain + "-" + text.hash(text.normalize(display)) else plain
  }

  /** A name that is indexed goes to its record. */
  lemma IndexedLeaves(s: State, text: Text, kind: string, display: string, source: string)
    requires Valid(s, text) && text.normalize(display) in s.keys
    ensures var t, k := Registered(s, text, kind, display, source), s.keys[text.normalize(display)];
            && k in t.records && t == s.(records := s.records[k := t.records[k]])
            && GoesBy(s.records[k], t.records[k], display, source, {}, true)
  {
    hide Near, BestOf, SameEntity, TokenScore, Score;
  }

  /** Any other goes to the record of the most similar name, if that is alike. */
  lemma AlikeLeaves(s: State, text: Text, kind: string, display: string, source: string, k: string)
    requires Valid(s, text) && text.normalize(display) !in s.keys
    requires Top(s, text, text.normalize(display), k) && Alike(s, text, text.normalize(display), k)
    ensures var t := Registered(s, text, kind, display, source);
            && k in t.records && t == s.(records := s.records[k := t.records[k]])
            && GoesBy(s.records[k], t.records[k], display, source, {"high_confidence_fuzzy"}, false)
  {
    var n := text.normalize(display);
    TopIsBest(s, text, n, k);
    AlikeMeans(s, text, n, k);
    hide Near, BestOf, SameEntity, TokenScore, Score, Top, Alike;
  }

  /** Failing that it gets a record of its own, indexed under its name and in its bucket. */
  lemma NewLeaves(s: State, text: Text, kind: string, display: string, source: string, k: string)
    requires Valid(s, text) && text.normalize(display) !in s.keys && GetsKey(s, text, kind, display, k)
    requires forall j :: Top(s, text, text.normalize(display), j) ==> !Alike(s, text, text.normalize(display), j)
    ensures var t, n := Registered(s, text, kind, display, source), text.normalize(display);
            && t.records == s.records[k := Record(display, n, [], {source}, {"normalized_exact"})]
            && t.keys == s.keys[n := k]
            && forall prefix, third ::
                 In(t, Bucket(prefix, third)) == In(s, Bucket(prefix, third)) +
                 (if third == |n| / 3 && (if n == "" then prefix == "" else prefix == [n[0]]) then {k} else {})
  {
    var n := text.normalize(display);
    NotAlike(s, text, kind, display);
    hide Near, BestOf, SameEntity, TokenScore, Score, Top, Alike, Decide;
    assert n != "" ==> n[..1] == [n[0]];
  }

  lemma NotAlike(s: State, text: Text, kind: string, display: string)
    requires Valid(s, text) && text.normalize(display) !in s.keys
    requires forall j :: Top(s, text, text.normalize(display), j) ==> !Alike(s, text, text.normalize(display), j)
    ensures Decide(s, text, kind, display).Added?
    ensures Decide(s, text, kind, display).key == NewKey(s, text, kind, display)
  {
    var n := text.normalize(display);
    if Near(s, n) != {} {
      var j := BestOf(s, text, n, Near(s, n));
      TopIsBest(s, text, n, j);
      AlikeMeans(s, text, n, j);
    }
    hide Near, BestOf, SameEntity, TokenScore, Score, Top, Alike, NewKey, Valid;
  }

  /** Whoever gets a record of its own although the most similar name is similar by 88 in a
      hundred is put down for review, and nobody else. */
  lemma ReviewLeaves(s: State, text: Text, kind: string, display: string, source: string)
    requires Valid(s, text) && text.normalize(display) !in s.keys
    requires forall j :: Top(s, text, text.normalize(display), j) ==> !Alike(s, text, text.normalize(display), j)
    ensures var t, n := Registered(s, text, kind, display, source), text.normalize(display);
            && (forall j :: Top(s, text, n, j) && 100.0 * Similarity(s, text, n, j) >= 88.0 ==>
                  var r := s.records[j];
                  t.reviews == s.reviews +
                    [Review(display, n, j, r.name, Similarity(s, text, n, j),
                            Shared(text, n, r.normalizedName) as real / Either(text, n, r.normalizedName) as real)])
            && ((forall j :: Top(s, text, n, j) ==> 100.0 * Similarity(s, text, n, j) < 88.0) ==>
                  t.reviews == s.reviews)
  {
    var n := text.normalize(display);
    NotAlike(s, text, kind, display);
    var near := Near(s, n);
    if near != {} {
      var k := BestOf(s, text, n, near);
      TopIsBest(s, text, n, k);
      AlikeMeans(s, text, n, k);
    }
    forall j | Top(s, text, n, j)
      ensures near != {} && j == BestOf(s, text, n, near)
    {
      TopIsBest(s, text, n, j);
    }
    hide Near, BestOf, SameEntity, TokenScore, Score, Top, Alike, NewKey, Valid, Similarity, Shared, Either;
  }

  // ---------------------------------------------------------------- the registry itself

  /** `found` lists exactly the names near `n`, with their scores. */
  ghost predicate Lists(found: seq<(real, string)>, s: State, text: Text, n: string, near: set<string>)
    requires near <= s.records.Keys
  {
    && (forall c :: c in found ==> c.1 in near && c.0 == Score(s, text, n, c.1))
    && (forall k :: k in near ==> (Score(s, text, n, k), k) in found)
  }

  lemma NothingListed(s: State, text: Text, n: string)
    ensures Lists([], s, text, n, NearAmong(s, n, {}))
  {
  }

  /** Those of some keys whose names are tolerated. */
  ghost function NearAmong(s: State, n: string, keys: set<string>): (near: set<string>)
    ensures near <= s.records.Keys
  {
    set k | k in keys && k in s.records && Tolerated(|n|, |s.records[k].normalizedName|)
  }

  lemma ListsNext(found: seq<(real, string)>, s: State, text: Text, n: string, keys: set<string>, k: string)
    requires k in s.records && Lists(found, s, text, n, NearAmong(s, n, keys))
    ensures var near := Tolerated(|n|, |s.records[k].normalizedName|);
            Lists(if near then found + [(Score(s, text, n, k), k)] else found, s, text, n, NearAmong(s, n, keys + {k}))
  {
    hide Tolerated, Score;
    var near := Tolerated(|n|, |s.records[k].normalizedName|);
    assert NearAmong(s, n, keys + {k}) == NearAmong(s, n, keys) + (if near then {k} else {});
    hide NearAmong;
  }

  class EntityRegistry {
    const kind: string
    const text: Text
    var records: map<string, Record>
    var normalizedToKey: map<string, string>
    var buckets: map<Bucket, set<string>>
    var reviewCandidates: seq<Review>

    ghost function Abstract(): State
      reads this
    {
      State(records, normalizedToKey, buckets, reviewCandidates)
    }

    constructor (kind: string, text: Text)
      ensures this.kind == kind && this.text == text
      ensures Abstract() == State(map[], map[], map[], []) && Valid(Abstract(), text)
    {
      this.kind, this.text := kind, text;
      records, normalizedToKey, buckets, reviewCandidates := map[], map[], map[], [];
    }

    /** One bucket, in whatever order its set is walked. */
    method ScanBucket(b: Bucket, n: string) returns (found: seq<(real, string)>)
      requires Grounded(Abstract())
      ensures Lists(found, Abstract(), text, n, NearAmong(Abstract(), n, In(Abstract(), b)))
    {
      hide Tolerated, Lists;
      found := [];
      NothingListed(Abstract(), text, n);
      var rest := In(State(map[], map[], buckets, []), b);
      ghost var s := Abstract();
      ghost var all := rest;
      assert all - rest == {};
      while rest != {}
        invariant rest <= all
        invariant Lists(found, s, text, n, NearAmong(s, n, all - rest))
        decreases |rest|
      {
        var k :| k in rest;
        ListsNext(found, s, text, n, all - rest, k);
        assert all - rest + {k} == all - (rest - {k});
        rest := rest - {k};
        var candidate := records[k].normalizedName;
        if Tolerated(|n|, |candidate|) {
          found := found + [(text.similarity(n, candidate), k)];
        }
      }
      assert all - rest == all;
    }

    method Scan(n: string) returns (found: seq<(real, string)>)
      requires Grounded(Abstract())
      ensures Lists(found, Abstract(), text, n, Near(Abstract(), n))
    {
      hide BucketOf, Tolerated;
      var b := BucketOf(n);
      var below := ScanBucket(b.(third := b.third - 1), n);
      var same := ScanBucket(b, n);
      var above := ScanBucket(b.(third := b.third + 1), n);
      found := below + same + above;
    }

    /** The greatest pair: best score, then greatest key. */
    method Greatest(found: seq<(real, string)>, n: string, ghost near: set<string>) returns (score: real, key: string)
      requires near <= records.Keys && found != [] && Lists(found, Abstract(), text, n, near)
      ensures near != {} && key in records && key == BestOf(Abstract(), text, n, near)
      ensures score == Score(Abstract(), text, n, key)
    {
      hide BestOf, Outranks;
      ghost var s := Abstract();
      score, key := found[0].0, found[0].1;
      assert found[0] in found;
      OutranksSelf(s, text, n, key, key);
      for i := 1 to |found|
        invariant key in near && score == Score(s, text, n, key)
        invariant forall j :: 0 <= j < i ==> found[j].1 in near && Outranks(s, text, n, key, found[j].1)
      {
        assert found[i] in found;
        ghost var next := found[i].1;
        OutranksSelf(s, text, n, next, key);
        OutranksByPair(s, text, n, next, key);
        if found[i].0 > score || (found[i].0 == score && LexLe(key, found[i].1)) {
          forall j | 0 <= j < i
            ensures Outranks(s, text, n, next, found[j].1)
          {
            OutranksChain(s, text, n, next, key, found[j].1);
          }
          score, key := found[i].0, found[i].1;
        }
      }
      assert IsBest(s, text, n, near, key);
      BestIsUnique(s, text, n, near, key, BestOf(s, text, n, near));
    }

    /** A near name that is the same entity, if there is one; doubtful ones go to review. */
    method Match(n: string, display: string) returns (best: Option<string>)
      requires Grounded(Abstract()) && n == text.normalize(display) && n !in normalizedToKey
      modifies `reviewCandidates
      ensures var d := Decide(old(Abstract()), text, kind, display);
              && (best.Some? <==> d.Fuzzy?) && (best.Some? ==> best.value == d.key && d.key in records)
              && reviewCandidates == old(reviewCandidates)
                  + (if d.Added? && d.review.Some? then [d.review.value] else [])
    {
      hide Near, BestOf, Tolerated, BucketOf, LexLe, NewKey, Score, SameEntity, TokenScore;
      ghost var s := Abstract();
      var found := Scan(n);
      best := None;
      assert found != [] ==> found[0] in found;
      if found != [] {
        var score, key := Greatest(found, n, Near(s, n));
        var candidate := records[key];
        var tokenScore := TokenScore(text, n, candidate.normalizedName);
        if SameEntity(score, tokenScore) {
          return Some(key);
        }
        if score >= 0.88 {
          reviewCandidates := reviewCandidates + [Review(display, n, key, candidate.name, score, tokenScore)];
        }
      }
    }

    method Add(n: string, display: string, source: string) returns (key: string)
      requires n == text.normalize(display)
      modifies `records, `normalizedToKey, `buckets
      ensures key == NewKey(old(Abstract()), text, kind, display)
      ensures Abstract() == Insert(old(Abstract()), key, Record(display, n, [], {source}, {"normalized_exact"}))
    {
      hide BucketOf;
      key := kind + ":" + text.slug(display);
      if key in records {
        key := key + "-" + text.hash(n);
      }
      records := records[key := Record(display, n, [], {source}, {"normalized_exact"})];
      normalizedToKey := normalizedToKey[n := key];
      var b := BucketOf(n);
      buckets := buckets[b := (if b in buckets then buckets[b] else {}) + {key}];
    }

    method Register(display: string, source: string) returns (key: string)
      requires Grounded(Abstract())
      modifies `records, `normalizedToKey, `buckets, `reviewCandidates
      ensures key == Decide(old(Abstract()), text, kind, display).key
      ensures Abstract() == Registered(old(Abstract()), text, kind, display, source)
      ensures Grounded(Abstract())
    {
      hide Near, BestOf, Insert, Score, SameEntity, TokenScore, NewKey, Merged, Known;
      ghost var s := Abstract();
      RegisterGrounded(s, text, kind, display, source);
      var n := text.normalize(display);
      if n in normalizedToKey {
        key := normalizedToKey[n];
        records := records[key := Known(records[key], display, source)];
        return;
      }
      var similar := Match(n, display);
      if similar.Some? {
        key := similar.value;
        records := records[key := Merged(records[key], display, source)];
        return;
      }
      SameNewKey(s, Abstract(), text, kind, display);
      key := Add(n, display, source);
    }
  }

  lemma SameNewKey(s: State, t: State, text: Text, kind: string, display: string)
    requires t.records == s.records
    ensures NewKey(s, text, kind, display) == NewKey(t, text, kind, display)
  {
  }

  lemma OutranksByPair(s: State, text: Text, n: string, a: string, b: string)
    requires a in s.records && b in s.records
    ensures Outranks(s, text, n, a, b) <==>
            Score(s, text, n, a) > Score(s, text, n, b)
            || (Score(s, text, n, a) == Score(s, text, n, b) && LexLe(b, a))
  {
  }
}
