/** The discovery hub's in-memory index: a primary map of works with two secondary
    lookups, and ranked, paged search. */
module DiscoveryIndex {
  import opened Words
  import opened Ids

  datatype WorkType = Audio | Video | Text

  /** The indexed part of a manifest; ids are 32-byte values in their text form. */
  datatype Manifest = Manifest(
    work: Id, content: Id, fingerprint: string, title: string, description: string, tags: seq<string>,
    kind: WorkType, price: u64, region: Id)

  datatype Resolved = Resolved(work: Id, price: u64, region: Id, kind: WorkType)

  datatype Summary = Summary(work: Id, fingerprint: string, title: string, kind: WorkType, tags: seq<string>, price: u64)

  datatype IndexError = DuplicateFingerprint(fingerprint: string) | DuplicateContentId(content: Id) | BadFingerprint

  /** The three maps as a value. */
  datatype Tables = Tables(works: map<Id, Manifest>, byFingerprint: map<string, Id>, byContent: map<Id, Id>)

  const EMPTY: Tables := Tables(map[], map[], map[])

  function ResolvedOf(m: Manifest): Resolved { Resolved(m.work, m.price, m.region, m.kind) }

  function SummaryOf(m: Manifest): Summary {
    Summary(m.work, m.fingerprint, m.title, m.kind, m.tags, m.price)
  }

  // ----- upsert ------------------------------------------------------------

  /** Why an upsert is refused, checked in order. */
  function Refusal(parses: string -> bool, t: Tables, m: Manifest): Option<IndexError> {
    if !parses(m.fingerprint) then Some(BadFingerprint)
    else if m.fingerprint in t.byFingerprint && t.byFingerprint[m.fingerprint] != m.work then
      Some(DuplicateFingerprint(m.fingerprint))
    else if m.content in t.byContent && t.byContent[m.content] != m.work then Some(DuplicateContentId(m.content))
    else None
  }

  /** A secondary map after work `w` moves from its previous key, if any, to `to`. */
  function Moved<K>(lookup: map<K, Id>, stale: Option<K>, key: K, w: Id): map<K, Id> {
    (if stale.Some? && stale.value != key then lookup - {stale.value} else lookup)[key := w]
  }

  function Previous(t: Tables, w: Id): Option<Manifest> {
    if w in t.works then Some(t.works[w]) else None
  }

  function Upsert(parses: string -> bool, t: Tables, m: Manifest): Tables {
    if Refusal(parses, t, m).Some? then t
    else
      var prev := Previous(t, m.work);
      Tables(
        t.works[m.work := m],
        Moved(t.byFingerprint, if prev.Some? then Some(prev.value.fingerprint) else None, m.fingerprint, m.work),
        Moved(t.byContent, if prev.Some? then Some(prev.value.content) else None, m.content, m.work))
  }

  function Run(parses: string -> bool, ms: seq<Manifest>): Tables {
    if |ms| == 0 then EMPTY else Upsert(parses, Run(parses, ms[..|ms| - 1]), ms[|ms| - 1])
  }

  // ----- agreement ---------------------------------------------------------

  ghost predicate Keyed(t: Tables) {
    forall w :: w in t.works ==> t.works[w].work == w
  }

  /** The fingerprint map is exactly the inverse of the works' fingerprints. */
  ghost predicate FingerprintsAgree(t: Tables) {
    && (forall w :: w in t.works ==>
          t.works[w].fingerprint in t.byFingerprint && t.byFingerprint[t.works[w].fingerprint] == w)
    && (forall f :: f in t.byFingerprint ==>
          t.byFingerprint[f] in t.works && t.works[t.byFingerprint[f]].fingerprint == f)
  }

  /** And the content map of their content ids. */
  ghost predicate ContentsAgree(t: Tables) {
    && (forall w :: w in t.works ==> t.works[w].content in t.byContent && t.byContent[t.works[w].content] == w)
    && (forall c :: c in t.byContent ==> t.byContent[c] in t.works && t.works[t.byContent[c]].content == c)
  }

  ghost predicate Agrees(t: Tables) {
    Keyed(t) && FingerprintsAgree(t) && ContentsAgree(t)
  }

  lemma UpsertKeepsFingerprints(parses: string -> bool, t: Tables, m: Manifest)
    requires FingerprintsAgree(t)
    ensures FingerprintsAgree(Upsert(parses, t, m))
  {
    if Refusal(parses, t, m).None? {
      var u := Upsert(parses, t, m);
      forall w | w in u.works
        ensures u.works[w].fingerprint in u.byFingerprint && u.byFingerprint[u.works[w].fingerprint] == w
      {
        if w != m.work { assert t.byFingerprint[t.works[w].fingerprint] == w; }
      }
    }
  }

  lemma UpsertKeepsContents(parses: string -> bool, t: Tables, m: Manifest)
    requires ContentsAgree(t)
    ensures ContentsAgree(Upsert(parses, t, m))
  {
    if Refusal(parses, t, m).None? {
      var u := Upsert(parses, t, m);
      forall w | w in u.works
        ensures u.works[w].content in u.byContent && u.byContent[u.works[w].content] == w
      {
        if w != m.work { assert t.byContent[t.works[w].content] == w; }
      }
    }
  }

  lemma {:induction false} UpsertKeepsAgreement(parses: string -> bool, t: Tables, m: Manifest)
    requires Agrees(t)
    ensures Agrees(Upsert(parses, t, m))
  {
    UpsertKeepsFingerprints(parses, t, m);
    UpsertKeepsContents(parses, t, m);
  }

  /** Over every history of upserts, accepted or refused, the maps agree. */
  lemma {:induction false} HistoriesAgree(parses: string -> bool, ms: seq<Manifest>)
    ensures Agrees(Run(parses, ms))
  {
    if |ms| > 0 {
      HistoriesAgree(parses, ms[..|ms| - 1]);
      UpsertKeepsAgreement(parses, Run(parses, ms[..|ms| - 1]), ms[|ms| - 1]);
    }
  }

  // ----- lookups -----------------------------------------------------------

  function Resolve(t: Tables, f: string): Option<Resolved> {
    if f in t.byFingerprint && t.byFingerprint[f] in t.works then Some(ResolvedOf(t.works[t.byFingerprint[f]])) else None
  }

  function ResolveContent(t: Tables, c: Id): Option<Resolved> {
    if c in t.byContent && t.byContent[c] in t.works then Some(ResolvedOf(t.works[t.byContent[c]])) else None
  }

  function Pick(works: map<Id, Manifest>, keys: seq<Id>): (r: seq<Manifest>)
    requires forall k :: k in keys ==> k in works
    ensures |r| == |keys|
    ensures forall i :: 0 <= i < |keys| ==> r[i] == works[keys[i]]
  {
    if |keys| == 0 then []
    else
      assert keys[|keys| - 1] in keys;
      Pick(works, keys[..|keys| - 1]) + [works[keys[|keys| - 1]]]
  }

  /** The works in key order. */
  function Listing(t: Tables): (r: seq<Manifest>)
    ensures |r| == |t.works|
  {
    Pick(t.works, SortedKeys(t.works.Keys))
  }

  lemma ListingHolds(t: Tables)
    ensures forall w :: w in t.works ==> t.works[w] in Listing(t)
    ensures forall m :: m in Listing(t) ==> exists w :: w in t.works && t.works[w] == m
  {
    var keys := SortedKeys(t.works.Keys);
    forall w | w in t.works ensures t.works[w] in Listing(t) {
      assert w in keys;
      var i :| 0 <= i < |keys| && keys[i] == w;
      assert Listing(t)[i] == t.works[w];
    }
    forall m | m in Listing(t) ensures exists w :: w in t.works && t.works[w] == m {
      var i :| 0 <= i < |keys| && Listing(t)[i] == m;
      assert keys[i] in keys;
    }
  }

  /** The first work a linear scan finds. */
  function Scan(ms: seq<Manifest>, hit: Manifest -> bool): Option<Resolved> {
    if |ms| == 0 then None else if hit(ms[0]) then Some(ResolvedOf(ms[0])) else Scan(ms[1..], hit)
  }

  lemma {:induction false} ScanFinds(ms: seq<Manifest>, hit: Manifest -> bool)
    ensures Scan(ms, hit).None? <==> forall m :: m in ms ==> !hit(m)
    ensures Scan(ms, hit).Some? ==> exists m :: m in ms && hit(m) && Scan(ms, hit) == Some(ResolvedOf(m))
  {
    if |ms| > 0 {
      ScanFinds(ms[1..], hit);
      assert ms == [ms[0]] + ms[1..];
      assert ms[0] in ms;
    }
  }

  /** The fast lookups return exactly what scanning all works would. */
  lemma {:induction false} LookupsAreScans(t: Tables, f: string, c: Id)
    requires Agrees(t)
    ensures Resolve(t, f) == Scan(Listing(t), (m: Manifest) => m.fingerprint == f)
    ensures ResolveContent(t, c) == Scan(Listing(t), (m: Manifest) => m.content == c)
  {
    ListingHolds(t);
    ScanFinds(Listing(t), (m: Manifest) => m.fingerprint == f);
    ScanFinds(Listing(t), (m: Manifest) => m.content == c);
    if f in t.byFingerprint { assert t.works[t.byFingerprint[f]] in Listing(t); }
    if c in t.byContent { assert t.works[t.byContent[c]] in Listing(t); }
  }

  /** After an accepted upsert the new keys resolve to the work, a key it gave up
      resolves to nothing, and every other key resolves as before. */
  lemma {:induction false} UpsertEffect(parses: string -> bool, t: Tables, m: Manifest, f: string)
    requires Agrees(t) && Refusal(parses, t, m).None?
    ensures Resolve(Upsert(parses, t, m), f) ==
      if f == m.fingerprint then Some(ResolvedOf(m))
      else if m.work in t.works && t.works[m.work].fingerprint == f then None
      else Resolve(t, f)
  {
    UpsertKeepsAgreement(parses, t, m);
  }

  lemma {:induction false} UpsertContentEffect(parses: string -> bool, t: Tables, m: Manifest, c: Id)
    requires Agrees(t) && Refusal(parses, t, m).None?
    ensures ResolveContent(Upsert(parses, t, m), c) ==
      if c == m.content then Some(ResolvedOf(m))
      else if m.work in t.works && t.works[m.work].content == c then None
      else ResolveContent(t, c)
  {
    UpsertKeepsAgreement(parses, t, m);
  }

  // ----- search ------------------------------------------------------------

  /** Splitting text into lower-case word tokens, left abstract. */
  type Tokenizer = string -> seq<string>

  function AllTags(tok: Tokenizer, tags: seq<string>): seq<string> {
    if |tags| == 0 then [] else AllTags(tok, tags[..|tags| - 1]) + tok(tags[|tags| - 1])
  }

  function TokenScore(tok: Tokenizer, m: Manifest, t: string): nat {
    (if t in tok(m.title) then 3 else 0)
    + (if t in AllTags(tok, m.tags) then 2 else 0)
    + (if t in tok(m.description) then 1 else 0)
  }

  /** The weighted count, with no word size. */
  function Hits(tok: Tokenizer, m: Manifest, tokens: seq<string>): nat {
    if |tokens| == 0 then 0
    else Hits(tok, m, tokens[..|tokens| - 1]) + TokenScore(tok, m, tokens[|tokens| - 1])
  }

  const U32: nat := 0x1_0000_0000

  /** The 32-bit score, whose additions wrap. */
  function Score(tok: Tokenizer, m: Manifest, tokens: seq<string>): nat {
    Hits(tok, m, tokens) % U32
  }

  /** The score is the count exactly while the count fits 32 bits, and so for every
      query of fewer than 715 million tokens. */
  lemma {:induction false} ScoreExactIff(tok: Tokenizer, m: Manifest, tokens: seq<string>)
    ensures Score(tok, m, tokens) == Hits(tok, m, tokens) <==> Hits(tok, m, tokens) < U32
    ensures 6 * |tokens| < U32 ==> Score(tok, m, tokens) == Hits(tok, m, tokens)
  {
    HitsBound(tok, m, tokens);
  }

  lemma {:induction false} HitsBound(tok: Tokenizer, m: Manifest, tokens: seq<string>)
    ensures Hits(tok, m, tokens) <= 6 * |tokens|
  {
    if |tokens| > 0 { HitsBound(tok, m, tokens[..|tokens| - 1]); }
  }

  lemma WrapAdd(n: nat, d: nat)
    ensures (n % U32 + d) % U32 == (n + d) % U32
  {
  }

  /** `relevance`: title, tags and description weighted 3, 2, 1 per token. */
  method Relevance(tok: Tokenizer, m: Manifest, tokens: seq<string>) returns (score: nat)
    ensures score == Score(tok, m, tokens)
  {
    var title, desc, tags := tok(m.title), tok(m.description), AllTags(tok, m.tags);
    score := 0;
    for i := 0 to |tokens|
      invariant score == Score(tok, m, tokens[..i])
    {
      assert tokens[..i + 1][..i] == tokens[..i];
      ghost var count := Hits(tok, m, tokens[..i]);
      if tokens[i] in title {
        WrapAdd(count, 3);
        score, count := (score + 3) % U32, count + 3;
      }
      if tokens[i] in tags {
        WrapAdd(count, 2);
        score, count := (score + 2) % U32, count + 2;
      }
      if tokens[i] in desc {
        WrapAdd(count, 1);
        score, count := (score + 1) % U32, count + 1;
      }
      assert count == Hits(tok, m, tokens[..i + 1]);
    }
    assert tokens[..|tokens|] == tokens;
  }

  datatype Hit = Hit(score: nat, manifest: Manifest)

  /** Higher score first, ties by work id. */
  predicate Before(a: Hit, b: Hit) {
    a.score > b.score || (a.score == b.score && LexLess(a.manifest.work, b.manifest.work))
  }

  ghost predicate Ranked(hits: seq<Hit>) {
    forall i, j :: 0 <= i < j < |hits| ==> Before(hits[i], hits[j])
  }

  function InsertHit(hits: seq<Hit>, x: Hit): (r: seq<Hit>)
    ensures |r| == |hits| + 1
    ensures forall y :: y in r <==> y in hits || y == x
  {
    if hits == [] || Before(x, hits[0]) then [x] + hits
    else
      assert hits == [hits[0]] + hits[1..];
      [hits[0]] + InsertHit(hits[1..], x)
  }

  lemma BeforeTransitive(a: Hit, b: Hit, c: Hit)
    requires Before(a, b) && Before(b, c)
    ensures Before(a, c)
  {
    if a.score == c.score {
      LexTransitive(a.manifest.work, b.manifest.work, c.manifest.work);
      if a.manifest.work == c.manifest.work { LexAntisymmetric(a.manifest.work, b.manifest.work); }
    }
  }

  lemma BeforeTotal(a: Hit, b: Hit)
    requires a.manifest.work != b.manifest.work
    ensures Before(a, b) || Before(b, a)
  {
    LexTotal(a.manifest.work, b.manifest.work);
  }

  lemma {:induction false} InsertKeepsRank(hits: seq<Hit>, x: Hit)
    requires Ranked(hits) && forall y :: y in hits ==> y.manifest.work != x.manifest.work
    ensures Ranked(InsertHit(hits, x))
  {
    if hits != [] {
      BeforeTotal(x, hits[0]);
      if Before(x, hits[0]) {
        forall j | 1 <= j < |hits| ensures Before(x, hits[j]) { BeforeTransitive(x, hits[0], hits[j]); }
      } else {
        var rest := InsertHit(hits[1..], x);
        InsertKeepsRank(hits[1..], x);
        forall j | 0 <= j < |rest| ensures Before(hits[0], rest[j]) { assert rest[j] in rest; }
      }
    }
  }

  predicate Wanted(kind: Option<WorkType>, m: Manifest) {
    kind.None? || kind.value == m.kind
  }

  /** The ranking of the matching works in a list. */
  function Rank(tok: Tokenizer, ms: seq<Manifest>, tokens: seq<string>, kind: Option<WorkType>): (r: seq<Hit>)
    ensures forall x :: x in r <==>
      x.manifest in ms && Wanted(kind, x.manifest) && x.score == Score(tok, x.manifest, tokens) > 0
  {
    if |ms| == 0 then []
    else
      var init, m := ms[..|ms| - 1], ms[|ms| - 1];
      var rest, score := Rank(tok, init, tokens, kind), Score(tok, m, tokens);
      assert ms == init + [m];
      if Wanted(kind, m) && score > 0 then InsertHit(rest, Hit(score, m)) else rest
  }

  lemma RankSnoc(tok: Tokenizer, ms: seq<Manifest>, m: Manifest, tokens: seq<string>, kind: Option<WorkType>)
    ensures Rank(tok, ms + [m], tokens, kind)
         == if Wanted(kind, m) && Score(tok, m, tokens) > 0
            then InsertHit(Rank(tok, ms, tokens, kind), Hit(Score(tok, m, tokens), m))
            else Rank(tok, ms, tokens, kind)
  {
    assert (ms + [m])[..|ms|] == ms;
  }

  ghost predicate DistinctIds(ms: seq<Manifest>) {
    forall i, j :: 0 <= i < j < |ms| ==> ms[i].work != ms[j].work
  }

  lemma {:induction false} RankIsRanked(tok: Tokenizer, ms: seq<Manifest>, tokens: seq<string>, kind: Option<WorkType>)
    requires DistinctIds(ms)
    ensures Ranked(Rank(tok, ms, tokens, kind))
  {
    if |ms| > 0 {
      var init, m := ms[..|ms| - 1], ms[|ms| - 1];
      RankIsRanked(tok, init, tokens, kind);
      InsertKeepsRankIfNew(tok, init, m, tokens, kind);
    }
  }

  lemma InsertKeepsRankIfNew(tok: Tokenizer, init: seq<Manifest>, m: Manifest, tokens: seq<string>, kind: Option<WorkType>)
    requires Ranked(Rank(tok, init, tokens, kind)) && forall i :: 0 <= i < |init| ==> init[i].work != m.work
    ensures Ranked(InsertHit(Rank(tok, init, tokens, kind), Hit(Score(tok, m, tokens), m)))
  {
    InsertKeepsRank(Rank(tok, init, tokens, kind), Hit(Score(tok, m, tokens), m));
  }

  function Summaries(hits: seq<Hit>): (r: seq<Summary>)
    ensures |r| == |hits|
  {
    seq(|hits|, i requires 0 <= i < |hits| => SummaryOf(hits[i].manifest))
  }

  /** Where 1-based page `page` starts; page zero is the first page. */
  function PageStart(page: nat, size: nat): nat {
    (if page == 0 then 0 else page - 1) * size
  }

  function Page(hits: seq<Hit>, page: nat, size: nat): seq<Hit> {
    hits[Min(PageStart(page, size), |hits|)..Min(PageStart(page, size) + size, |hits|)]
  }

  function Pages(hits: seq<Hit>, n: nat, size: nat): seq<Hit> {
    if n == 0 then [] else Pages(hits, n - 1, size) + Page(hits, n, size)
  }

  /** Consecutive pages are the ranked list, with no loss and no repeat; page zero is
      the first. */
  lemma {:induction false} PagesConcatenate(hits: seq<Hit>, n: nat, size: nat)
    ensures Pages(hits, n, size) == hits[..Min(n * size, |hits|)]
    ensures n * size >= |hits| ==> Pages(hits, n, size) == hits
    ensures Page(hits, 0, size) == Page(hits, 1, size)
  {
    PagesPrefix(hits, n, size);
    NextPage(n + 1, size);
  }

  lemma {:induction false} PagesPrefix(hits: seq<Hit>, n: nat, size: nat)
    ensures Pages(hits, n, size) == hits[..Min(PageStart(n + 1, size), |hits|)]
  {
    if n > 0 {
      PagesPrefix(hits, n - 1, size);
      NextPage(n, size);
      NextPage(n + 1, size);
      JoinPage(hits, PageStart(n, size), size);
    }
  }

  lemma NextPage(n: nat, size: nat)
    requires n > 0
    ensures PageStart(n, size) == (n - 1) * size && n * size == PageStart(n, size) + size
  {
  }

  lemma JoinPage(hits: seq<Hit>, start: nat, size: nat)
    ensures hits[..Min(start, |hits|)] + hits[Min(start, |hits|)..Min(start + size, |hits|)]
         == hits[..Min(start + size, |hits|)]
  {
  }

  lemma {:induction false} ListingDistinct(t: Tables)
    requires Keyed(t)
    ensures DistinctIds(Listing(t))
  {
    var keys := SortedKeys(t.works.Keys);
    forall i | 0 <= i < |keys| ensures Listing(t)[i].work == keys[i] { assert keys[i] in keys; }
  }

  /** Over every history, the ranking is strict, holds exactly the matching works,
      and its pages concatenate to it. */
  lemma {:induction false} SearchComplete(
      parses: string -> bool, ms: seq<Manifest>, tok: Tokenizer, q: string, kind: Option<WorkType>, size: nat, n: nat)
    requires var t := Run(parses, ms); n * size >= |Rank(tok, Listing(t), tok(q), kind)|
    ensures var t := Run(parses, ms);
            var ranked := Rank(tok, Listing(t), tok(q), kind);
            && Ranked(ranked)
            && Pages(ranked, n, size) == ranked
            && (forall w :: w in t.works ==>
                  (Hit(Score(tok, t.works[w], tok(q)), t.works[w]) in ranked <==>
                   Wanted(kind, t.works[w]) && Score(tok, t.works[w], tok(q)) > 0))
  {
    var t := Run(parses, ms);
    HistoriesAgree(parses, ms);
    ListingDistinct(t);
    ListingHolds(t);
    RankIsRanked(tok, Listing(t), tok(q), kind);
    PagesConcatenate(Rank(tok, Listing(t), tok(q), kind), n, size);
  }

  // ----- the index object --------------------------------------------------

  class Index {
    const parses: string -> bool
    var works: map<Id, Manifest>
    var byFingerprint: map<string, Id>
    var byContent: map<Id, Id>

    ghost function State(): Tables
      reads this
    {
      Tables(works, byFingerprint, byContent)
    }

    constructor (parses: string -> bool)
      ensures this.parses == parses && State() == EMPTY
    {
      this.parses := parses;
      works, byFingerprint, byContent := map[], map[], map[];
    }

    /** `upsert`: guards first, then stale entries out and new ones in. */
    method UpsertWork(m: Manifest) returns (error: Option<IndexError>)
      modifies this
      ensures error == Refusal(parses, old(State()), m)
      ensures State() == Upsert(parses, old(State()), m)
      ensures old(Agrees(State())) ==> Agrees(State())
    {
      UpsertKeepsAgreementIf(parses, State(), m);
      if !parses(m.fingerprint) {
        return Some(BadFingerprint);
      }
      if m.fingerprint in byFingerprint && byFingerprint[m.fingerprint] != m.work {
        return Some(DuplicateFingerprint(m.fingerprint));
      }
      if m.content in byContent && byContent[m.content] != m.work {
        return Some(DuplicateContentId(m.content));
      }
      if m.work in works {
        var prev := works[m.work];
        if prev.fingerprint != m.fingerprint {
          byFingerprint := byFingerprint - {prev.fingerprint};
        }
        if prev.content != m.content {
          byContent := byContent - {prev.content};
        }
      }
      byFingerprint := byFingerprint[m.fingerprint := m.work];
      byContent := byContent[m.content := m.work];
      works := works[m.work := m];
      return None;
    }

    /** `search`: score, rank, and cut out one page. */
    method Search(tok: Tokenizer, q: string, kind: Option<WorkType>, page: nat, size: nat)
      returns (results: seq<Summary>, total: nat)
      ensures var ranked := Rank(tok, Listing(State()), tok(q), kind);
              results == Summaries(Page(ranked, page, size)) && total == |ranked|
    {
      var scored := ScoreAll(tok, Listing(Tables(works, byFingerprint, byContent)), tok(q), kind);
      return Summaries(Page(scored, page, size)), |scored|;
    }
  }

  /** Score every wanted work and keep the hits in rank order. */
  method ScoreAll(tok: Tokenizer, all: seq<Manifest>, tokens: seq<string>, kind: Option<WorkType>)
    returns (scored: seq<Hit>)
    ensures scored == Rank(tok, all, tokens, kind)
  {
    scored := [];
    for i := 0 to |all|
      invariant scored == Rank(tok, all[..i], tokens, kind)
    {
      assert all[..i + 1] == all[..i] + [all[i]];
      RankSnoc(tok, all[..i], all[i], tokens, kind);
      if Wanted(kind, all[i]) {
        var score := Relevance(tok, all[i], tokens);
        if score > 0 {
          scored := InsertHit(scored, Hit(score, all[i]));
        }
      }
    }
    assert all[..|all|] == all;
  }

  lemma UpsertKeepsAgreementIf(parses: string -> bool, t: Tables, m: Manifest)
    ensures Agrees(t) ==> Agrees(Upsert(parses, t, m))
  {
    if Agrees(t) { UpsertKeepsAgreement(parses, t, m); }
  }

  // ----- the index read off its works alone --------------------------------

  /** A work other than `m`'s holds the fingerprint, or the content id. */
  ghost predicate FingerprintTaken(t: Tables, m: Manifest) {
    exists w :: w in t.works && w != m.work && t.works[w].fingerprint == m.fingerprint
  }

  ghost predicate ContentTaken(t: Tables, m: Manifest) {
    exists w :: w in t.works && w != m.work && t.works[w].content == m.content
  }

  /** Which upserts are accepted, and why the rest are not: a fingerprint must parse,
      and no other work may hold it or the content id. A work may register again. */
  lemma {:induction false} UpsertAcceptedIff(parses: string -> bool, t: Tables, m: Manifest)
    requires Agrees(t)
    ensures Refusal(parses, t, m) ==
      if !parses(m.fingerprint) then Some(BadFingerprint)
      else if FingerprintTaken(t, m) then Some(DuplicateFingerprint(m.fingerprint))
      else if ContentTaken(t, m) then Some(DuplicateContentId(m.content))
      else None
    ensures Upsert(parses, t, m).works ==
      if parses(m.fingerprint) && !FingerprintTaken(t, m) && !ContentTaken(t, m) then t.works[m.work := m] else t.works
  {
    if m.fingerprint in t.byFingerprint && t.byFingerprint[m.fingerprint] != m.work {
      assert FingerprintTaken(t, m);
    }
    if m.content in t.byContent && t.byContent[m.content] != m.work {
      assert ContentTaken(t, m);
    }
  }

  /** A lookup finds the work that holds the key, and tells its own fields. */
  lemma {:induction false} LookupMeans(t: Tables, f: string, c: Id)
    requires Agrees(t)
    ensures Resolve(t, f).None? <==> forall w :: w in t.works ==> t.works[w].fingerprint != f
    ensures forall w :: w in t.works && t.works[w].fingerprint == f ==>
      var m := t.works[w];
      Resolve(t, f) == Some(Resolved.Resolved(w, m.price, m.region, m.kind))
    ensures ResolveContent(t, c).None? <==> forall w :: w in t.works ==> t.works[w].content != c
    ensures forall w :: w in t.works && t.works[w].content == c ==>
      var m := t.works[w];
      ResolveContent(t, c) == Some(Resolved.Resolved(w, m.price, m.region, m.kind))
  {
  }

  /** A token counts three in the title, two in some tag and one in the description. */
  lemma TokenWorth(tok: Tokenizer, m: Manifest, token: string)
    ensures Hits(tok, m, [token]) ==
      (if token in tok(m.title) then 3 else 0)
      + (if exists i :: 0 <= i < |m.tags| && token in tok(m.tags[i]) then 2 else 0)
      + (if token in tok(m.description) then 1 else 0)
  {
    InTags(tok, m.tags, token);
    assert [token][..0] == [];
  }

  /** And a query is worth what its tokens are, each time they occur. */
  lemma {:induction false} HitsAdd(tok: Tokenizer, m: Manifest, a: seq<string>, b: seq<string>)
    ensures Hits(tok, m, a + b) == Hits(tok, m, a) + Hits(tok, m, b)
    decreases |b|
  {
    if |b| == 0 {
      assert a + b == a;
    } else {
      HitsAdd(tok, m, a, b[..|b| - 1]);
      assert (a + b)[..|a + b| - 1] == a + b[..|b| - 1];
    }
  }

  lemma {:induction false} InTags(tok: Tokenizer, tags: seq<string>, token: string)
    ensures token in AllTags(tok, tags) <==> exists i :: 0 <= i < |tags| && token in tok(tags[i])
  {
    if |tags| > 0 {
      var init := tags[..|tags| - 1];
      InTags(tok, init, token);
      assert (exists i :: 0 <= i < |tags| && token in tok(tags[i])) <==>
        (exists i :: 0 <= i < |init| && token in tok(init[i])) || token in tok(tags[|tags| - 1]);
    }
  }

  /** What a search ranks, after any history of upserts. */
  function Found(
      parses: string -> bool, ms: seq<Manifest>, tok: Tokenizer, q: string, kind: Option<WorkType>): seq<Hit>
  {
    Rank(tok, Listing(Run(parses, ms)), tok(q), kind)
  }

  /** Higher scores come first, and equal ones by work id. */
  lemma {:induction false} SearchOrder(
      parses: string -> bool, ms: seq<Manifest>, tok: Tokenizer, q: string, kind: Option<WorkType>, i: nat, j: nat)
    requires i < j < |Found(parses, ms, tok, q, kind)|
    ensures var hits := Found(parses, ms, tok, q, kind);
            || hits[i].score > hits[j].score
            || (hits[i].score == hits[j].score && LexLess(hits[i].manifest.work, hits[j].manifest.work))
  {
    var t, hits := Run(parses, ms), Found(parses, ms, tok, q, kind);
    HistoriesAgree(parses, ms);
    ListingDistinct(t);
    RankIsRanked(tok, Listing(t), tok(q), kind);
    assert Before(hits[i], hits[j]);
  }

  /** Each result is an indexed work of the wanted kind with a positive score, and its
      summary tells that work's own fields. */
  lemma {:induction false} SearchResult(
      parses: string -> bool, ms: seq<Manifest>, tok: Tokenizer, q: string, kind: Option<WorkType>, i: nat)
    requires i < |Found(parses, ms, tok, q, kind)|
    ensures var t, hits := Run(parses, ms), Found(parses, ms, tok, q, kind);
            var m := hits[i].manifest;
            && hits[i].score == Hits(tok, m, tok(q)) % 0x1_0000_0000 > 0
            && m.work in t.works && t.works[m.work] == m
            && (kind.Some? ==> m.kind == kind.value)
            && Summaries(hits)[i] == Summary.Summary(m.work, m.fingerprint, m.title, m.kind, m.tags, m.price)
  {
    var t, hits := Run(parses, ms), Found(parses, ms, tok, q, kind);
    HistoriesAgree(parses, ms);
    ListingHolds(t);
    assert hits[i] in hits;
  }

  lemma {:induction false} RankFinds(
      tok: Tokenizer, ms: seq<Manifest>, m: Manifest, tokens: seq<string>, kind: Option<WorkType>)
    requires m in ms && (kind.Some? ==> m.kind == kind.value) && Hits(tok, m, tokens) % 0x1_0000_0000 > 0
    ensures exists x :: x in Rank(tok, ms, tokens, kind) && x.manifest == m
  {
    assert Hit(Score(tok, m, tokens), m) in Rank(tok, ms, tokens, kind);
  }

  /** And every such work is among the results. */
  lemma {:induction false} SearchFinds(
      parses: string -> bool, ms: seq<Manifest>, tok: Tokenizer, q: string, kind: Option<WorkType>, w: Id)
    requires var t := Run(parses, ms);
             && w in t.works && (kind.Some? ==> t.works[w].kind == kind.value)
             && Hits(tok, t.works[w], tok(q)) % 0x1_0000_0000 > 0
    ensures exists x :: x in Found(parses, ms, tok, q, kind) && x.manifest == Run(parses, ms).works[w]
  {
    var t := Run(parses, ms);
    var m := t.works[w];
    assert m in Listing(t) by { ListingHolds(t); }
    RankFinds(tok, Listing(t), m, tok(q), kind);
  }
}
