/** Retrieval over published pages: the stored chunk index, the direct scan, scoring and ranking. */
module Retriever {
  import opened Text
  import opened Chunker

  const MAX_TOP_K := 8
  const PUBLISHED := "published"

  datatype Page = Page(tenant: int, title: string, slug: string, body: string, sourceUrl: string, status: string)

  /** The unique key of a row of `rag_chunks`. */
  datatype ChunkKey = ChunkKey(tenant: int, page: int, index: int)

  datatype Row = Row(page: int, index: int, text: string)

  datatype RagChunk = RagChunk(page: int, index: int, text: string, score: int)

  // ---- ORDER BY ---------------------------------------------------------------------------------

  predicate IsLeast(m: int, s: set<int>) {
    m in s && forall x :: x in s ==> m <= x
  }

  lemma {:induction false} LeastExists(s: set<int>)
    requires exists x :: x in s
    ensures exists m :: m in s && IsLeast(m, s)
    decreases |s|
  {
    var x :| x in s;
    if y :| y in s - {x} {
      LeastExists(s - {x});
      var z :| z in s - {x} && IsLeast(z, s - {x});
      var m := if x < z then x else z;
      forall u | u in s ensures m <= u {
        assert u == x || u in s - {x};
      }
      assert IsLeast(m, s);
    } else {
      forall u | u in s ensures x <= u {
        assert u == x || u in s - {x};
      }
      assert IsLeast(x, s);
    }
  }

  function Least(s: set<int>): (m: int)
    requires exists x :: x in s
    ensures IsLeast(m, s)
  {
    LeastExists(s);
    var m :| m in s && IsLeast(m, s);
    m
  }

  /** The elements of s in increasing order. */
  function Ascending(s: set<int>): (r: seq<int>)
    ensures forall x :: x in r <==> x in s
    decreases |s|
  {
    if exists x :: x in s then [Least(s)] + Ascending(s - {Least(s)}) else []
  }

  lemma {:induction false} AscendingIsSorted(s: set<int>)
    ensures forall i, j :: 0 <= i < j < |Ascending(s)| ==> Ascending(s)[i] < Ascending(s)[j]
    decreases |s|
  {
    if exists x :: x in s {
      var m, rest := Least(s), Ascending(s - {Least(s)});
      AscendingIsSorted(s - {m});
      forall j | 0 <= j < |rest| ensures m < rest[j] {
        assert rest[j] in rest;
      }
      assert Ascending(s) == [m] + rest;
    }
  }

  lemma {:induction false} AscendingRange(s: set<int>, lo: int, hi: int)
    requires lo <= hi && (forall x :: x in s <==> lo <= x < hi)
    ensures |Ascending(s)| == hi - lo
    ensures forall i :: 0 <= i < hi - lo ==> Ascending(s)[i] == lo + i
    decreases hi - lo
  {
    if lo < hi {
      assert lo in s && Least(s) == lo;
      AscendingRange(s - {lo}, lo + 1, hi);
    }
  }

  // ---- The two row sources ----------------------------------------------------------------------

  predicate IsPublished(pages: map<int, Page>, tenant: int, p: int) {
    p in pages && pages[p].tenant == tenant && pages[p].status == PUBLISHED
  }

  /** The caller's published pages, ORDER BY id. */
  function PublishedPages(pages: map<int, Page>, tenant: int): seq<int> {
    Ascending(set p | p in pages && IsPublished(pages, tenant, p))
  }

  /** The stored chunks of one page, ORDER BY chunk_index. */
  function StoredRows(chunks: map<ChunkKey, string>, tenant: int, p: int): seq<Row> {
    var indices := Ascending(set k | k in chunks && k.tenant == tenant && k.page == p :: k.index);
    seq(|indices|, i requires 0 <= i < |indices| =>
      assert indices[i] in indices;
      Row(p, indices[i], chunks[ChunkKey(tenant, p, indices[i])]))
  }

  /** The chunks of one page cut from its current body. */
  function ScannedRows(p: int, body: string): seq<Row> {
    seq(|PageChunks(body)|, i requires 0 <= i < |PageChunks(body)| => Row(p, i, PageChunks(body)[i]))
  }

  /** The join of rag_chunks with the caller's published pages, in (page, index) order. */
  function IndexedRows(pages: map<int, Page>, chunks: map<ChunkKey, string>, tenant: int, ids: seq<int>): seq<Row> {
    if ids == [] then [] else StoredRows(chunks, tenant, ids[0]) + IndexedRows(pages, chunks, tenant, ids[1..])
  }

  /** The scan of the caller's published pages, in the same order. */
  function FallbackRows(pages: map<int, Page>, ids: seq<int>): seq<Row>
    requires forall p :: p in ids ==> p in pages
  {
    if ids == [] then [] else ScannedRows(ids[0], pages[ids[0]].body) + FallbackRows(pages, ids[1..])
  }

  function IndexSelect(pages: map<int, Page>, chunks: map<ChunkKey, string>, tenant: int): seq<Row> {
    IndexedRows(pages, chunks, tenant, PublishedPages(pages, tenant))
  }

  function ScanSelect(pages: map<int, Page>, tenant: int): seq<Row> {
    FallbackRows(pages, PublishedPages(pages, tenant))
  }

  lemma {:induction false} IndexedRowsMembers(pages: map<int, Page>, chunks: map<ChunkKey, string>, tenant: int, ids: seq<int>, r: Row)
    ensures r in IndexedRows(pages, chunks, tenant, ids) <==>
      r.page in ids && ChunkKey(tenant, r.page, r.index) in chunks && chunks[ChunkKey(tenant, r.page, r.index)] == r.text
  {
    if ids != [] {
      IndexedRowsMembers(pages, chunks, tenant, ids[1..], r);
      var rows := StoredRows(chunks, tenant, ids[0]);
      var keys := set k | k in chunks && k.tenant == tenant && k.page == ids[0] :: k.index;
      if r in rows {
        var i :| 0 <= i < |rows| && rows[i] == r;
        assert Ascending(keys)[i] in keys;
      }
      if r.page == ids[0] && ChunkKey(tenant, r.page, r.index) in chunks && chunks[ChunkKey(tenant, r.page, r.index)] == r.text {
        assert ChunkKey(tenant, r.page, r.index).index in keys;
        var i :| 0 <= i < |Ascending(keys)| && Ascending(keys)[i] == r.index;
        assert rows[i] == r;
      }
    }
  }

  /** The index query returns exactly the stored rows of the caller whose page is the caller's and
      published now. */
  lemma IndexSelectIsTheJoin(pages: map<int, Page>, chunks: map<ChunkKey, string>, tenant: int, r: Row)
    ensures r in IndexSelect(pages, chunks, tenant) <==>
      IsPublished(pages, tenant, r.page) && ChunkKey(tenant, r.page, r.index) in chunks
      && chunks[ChunkKey(tenant, r.page, r.index)] == r.text
  {
    IndexedRowsMembers(pages, chunks, tenant, PublishedPages(pages, tenant), r);
  }

  // ---- Agreement of index and scan --------------------------------------------------------------

  /** The stored rows of page p are exactly the chunks `cut`, at indices 0, 1, ... */
  ghost predicate StoredAre(chunks: map<ChunkKey, string>, tenant: int, p: int, cut: seq<string>) {
    forall k: ChunkKey :: k.page == p ==>
      (k in chunks <==> k.tenant == tenant && 0 <= k.index < |cut|) && (k in chunks ==> chunks[k] == cut[k.index])
  }

  /** What the index should hold for a page: its chunks if it is published, nothing otherwise. */
  function Expected(page: Page): seq<string> {
    if page.status == PUBLISHED then PageChunks(page.body) else []
  }

  ghost predicate InSync(pages: map<int, Page>, chunks: map<ChunkKey, string>) {
    && (forall p :: p in pages ==> StoredAre(chunks, pages[p].tenant, p, Expected(pages[p])))
    && (forall k :: k in chunks ==> k.page in pages)
  }

  lemma PageRowsAgree(pages: map<int, Page>, chunks: map<ChunkKey, string>, tenant: int, p: int)
    requires IsPublished(pages, tenant, p) && StoredAre(chunks, tenant, p, Expected(pages[p]))
    ensures StoredRows(chunks, tenant, p) == ScannedRows(p, pages[p].body)
  {
    var cut := PageChunks(pages[p].body);
    var indices := set k | k in chunks && k.tenant == tenant && k.page == p :: k.index;
    forall i ensures i in indices <==> 0 <= i < |cut| {
      if 0 <= i < |cut| { assert ChunkKey(tenant, p, i).index in indices; }
    }
    AscendingRange(indices, 0, |cut|);
    var stored, scanned := StoredRows(chunks, tenant, p), ScannedRows(p, pages[p].body);
    assert |stored| == |scanned|;
    forall i | 0 <= i < |cut| ensures stored[i] == scanned[i] {
      assert ChunkKey(tenant, p, i) in chunks;
    }
  }

  lemma {:induction false} RowsAgree(pages: map<int, Page>, chunks: map<ChunkKey, string>, tenant: int, ids: seq<int>)
    requires InSync(pages, chunks) && forall p :: p in ids ==> p in pages && IsPublished(pages, tenant, p)
    ensures IndexedRows(pages, chunks, tenant, ids) == FallbackRows(pages, ids)
  {
    if ids != [] {
      PageRowsAgree(pages, chunks, tenant, ids[0]);
      RowsAgree(pages, chunks, tenant, ids[1..]);
    }
  }

  // ---- Scoring ----------------------------------------------------------------------------------

  function Tokenize(text: string): set<string> {
    set w | w in Words(text) && |w| > 2
  }

  function ExpandedQueryTerms(query: string): set<string> {
    var q := Lower(query);
    Tokenize(query)
    + (if Occurs("membership", q) || Occurs("cost", q) || Occurs("price", q)
       then {"membership", "memberships", "month", "dollars", "pricing"} else {})
    + (if Occurs("open", q) || Occurs("saturday", q) || Occurs("hours", q) then {"open", "saturday", "hours"} else {})
    + (if Occurs("located", q) || Occurs("where", q) || Occurs("location", q)
       then {"located", "location", "station", "library"} else {})
    + (if Occurs("cancellation", q) || Occurs("cancel", q) then {"cancellation", "policy", "hours"} else {})
  }

  /** A token is a maximal alphanumeric run of the lower-cased text, of three characters or more. */
  lemma TokenIff(text: string, w: string)
    ensures w in Tokenize(text) <==> |w| > 2 && IsRun(w, IsAlnum) && HasMaximal(Lower(text), IsAlnum, w)
  {
    RunsIff(Lower(text), IsAlnum, w);
  }

  /** The words that bring in further terms, and the terms they bring in. */
  const ALIASES: seq<(set<string>, set<string>)> := [
    ({"membership", "cost", "price"}, {"membership", "memberships", "month", "dollars", "pricing"}),
    ({"open", "saturday", "hours"}, {"open", "saturday", "hours"}),
    ({"located", "where", "location"}, {"located", "location", "station", "library"}),
    ({"cancellation", "cancel"}, {"cancellation", "policy", "hours"})]

  ghost predicate IsAlias(query: string, g: int, t: string)
    requires 0 <= g < |ALIASES|
  {
    t in ALIASES[g].1 && exists w :: w in ALIASES[g].0 && Occurs(w, Lower(query))
  }

  /** The terms of a query are its tokens and the aliases of what it mentions. */
  lemma QueryTermsIff(query: string, t: string)
    ensures t in ExpandedQueryTerms(query) <==> t in Tokenize(query) || exists g :: 0 <= g < |ALIASES| && IsAlias(query, g, t)
  {
    var q := Lower(query);
    assert IsAlias(query, 0, t) <==>
      (Occurs("membership", q) || Occurs("cost", q) || Occurs("price", q))
      && t in {"membership", "memberships", "month", "dollars", "pricing"};
    assert IsAlias(query, 1, t) <==>
      (Occurs("open", q) || Occurs("saturday", q) || Occurs("hours", q)) && t in {"open", "saturday", "hours"};
    assert IsAlias(query, 2, t) <==>
      (Occurs("located", q) || Occurs("where", q) || Occurs("location", q)) && t in {"located", "location", "station", "library"};
    assert IsAlias(query, 3, t) <==>
      (Occurs("cancellation", q) || Occurs("cancel", q)) && t in {"cancellation", "policy", "hours"};
    if g :| 0 <= g < |ALIASES| && IsAlias(query, g, t) { assert g == 0 || g == 1 || g == 2 || g == 3; }
  }

  /** a / n to the nearest integer, ties to even. */
  function RoundHalfEven(a: nat, n: nat): nat
    requires n > 0
  {
    var q, r := a / n, a % n;
    if 2 * r < n || (2 * r == n && q % 2 == 0) then q else q + 1
  }

  predicate PhraseMatches(query: string, chunk: string) {
    query != "" && Occurs(Lower(query), Lower(chunk))
  }

  /** The lexical score in ten-thousandths: share of query terms found, plus 0.25 for the phrase. */
  function ScoreChunk(terms: set<string>, query: string, chunk: string): nat {
    var chunkTerms := Tokenize(chunk);
    if terms == {} || chunkTerms == {} then 0 else ScoreOf(|terms|, |terms * chunkTerms|, PhraseMatches(query, chunk))
  }

  function ScoreOf(n: nat, hits: nat, phrase: bool): nat
    requires n > 0
  {
    RoundHalfEven(10000 * hits + (if phrase then 2500 * n else 0), n)
  }

  // ---- What a score means -----------------------------------------------------------------------

  /** Rounding gives a nearest integer, and the even one of two. */
  lemma RoundIsNearest(a: nat, n: nat)
    requires n > 0
    ensures var error := 2 * (a - RoundHalfEven(a, n) * n);
      error <= n && -error <= n && (error == n || -error == n ==> RoundHalfEven(a, n) % 2 == 0)
  {
    var q := a / n;
    assert a == q * n + a % n;
    assert (q + 1) * n == q * n + n;
  }

  lemma ProductsApart(x: nat, y: nat, n: nat)
    ensures x < y ==> x * n + n <= y * n
  {
    if x < y { SmallerProduct(x + 1, y, n); }
  }

  lemma RoundIsMonotone(a: nat, b: nat, n: nat)
    requires n > 0 && a <= b
    ensures RoundHalfEven(a, n) <= RoundHalfEven(b, n)
  {
    var x, y := RoundHalfEven(a, n), RoundHalfEven(b, n);
    RoundIsNearest(a, n);
    RoundIsNearest(b, n);
    NearestAreOrdered(a, b, n, x, y);
  }

  lemma NearestAreOrdered(a: nat, b: nat, n: nat, x: nat, y: nat)
    requires n > 0 && a <= b && 2 * (x * n - a) <= n && 2 * (b - y * n) <= n
    requires (2 * (x * n - a) == n ==> x % 2 == 0) && (2 * (b - y * n) == n ==> y % 2 == 0)
    ensures x <= y
  {
    ProductsApart(y, x, n);
    ProductsApart(y + 1, x, n);
    assert (y + 1) * n == y * n + n;
  }

  lemma RoundIsExact(k: nat, n: nat)
    requires n > 0
    ensures RoundHalfEven(k * n, n) == k
  {
    var r := RoundHalfEven(k * n, n);
    RoundIsNearest(k * n, n);
    ProductsApart(r, k, n);
    ProductsApart(k, r, n);
  }

  /** The query terms that a chunk holds. */
  function FoundTerms(terms: set<string>, chunk: string): set<string> {
    set t | t in terms && t in Tokenize(chunk)
  }

  lemma FewerTerms(found: set<string>, terms: set<string>)
    requires found <= terms
    ensures |found| <= |terms| && (|found| == 0 <==> found == {})
  {
    assert terms == found + (terms - found);
  }

  /** A chunk without tokens holds neither a term nor the phrase, and is no special case. */
  lemma ScoreIsShare(terms: set<string>, query: string, chunk: string)
    requires terms != {} && HasWord(Lower(query))
    ensures ScoreChunk(terms, query, chunk) == ScoreOf(|terms|, |FoundTerms(terms, chunk)|, PhraseMatches(query, chunk))
  {
    assert terms * Tokenize(chunk) == FoundTerms(terms, chunk);
    if PhraseMatches(query, chunk) { WordOccurs(Lower(query), Lower(chunk)); }
    TermsIff(chunk);
    ScoreOfShare(|terms|, 0, false);
  }

  /** The score of a chunk, for a query that has a word: it is 0 without the phrase and a term, a full point for
      all terms and a quarter more for the phrase, and in general the nearest ten-thousandth to the share of
      terms found.  It is positive with the phrase, or with more than one term in 20000. */
  lemma ScoreMeans(terms: set<string>, query: string, chunk: string)
    requires terms != {} && HasWord(Lower(query))
    ensures var found, phrase, score := FoundTerms(terms, chunk), PhraseMatches(query, chunk), ScoreChunk(terms, query, chunk);
      && (found == {} && !phrase ==> score == 0)
      && (found == terms ==> score == if phrase then 12500 else 10000)
      && (score > 0 <==> phrase || 20000 * |found| > |terms|)
      && IsShare(score, |found|, |terms|, phrase)
  {
    FewerTerms(FoundTerms(terms, chunk), terms);
    ScoreIsShare(terms, query, chunk);
    ScoreOfShare(|terms|, |FoundTerms(terms, chunk)|, PhraseMatches(query, chunk));
  }

  /** A score in ten-thousandths is nearest to the share of hits, with a quarter for the phrase. */
  predicate IsShare(score: nat, hits: nat, n: nat, phrase: bool) {
    var error := 2 * (10000 * hits + (if phrase then 2500 * n else 0) - score * n);
    error <= n && -error <= n
  }

  lemma ScoreOfShare(n: nat, hits: nat, phrase: bool)
    requires hits <= n && n > 0
    ensures IsShare(ScoreOf(n, hits, phrase), hits, n, phrase)
    ensures hits == 0 && !phrase ==> ScoreOf(n, hits, phrase) == 0
    ensures hits == n ==> ScoreOf(n, hits, phrase) == if phrase then 12500 else 10000
    ensures ScoreOf(n, hits, phrase) > 0 <==> phrase || 20000 * hits > n
  {
    RoundIsNearest(10000 * hits + (if phrase then 2500 * n else 0), n);
    if hits == n { RoundIsExact(if phrase then 12500 else 10000, n); }
    if phrase { PhraseIsWorthAQuarter(n, hits); } else { ScoreIsPositive(n, 10000 * hits); }
  }

  lemma ScoreIsPositive(n: nat, a: nat)
    requires n > 0
    ensures RoundHalfEven(a, n) > 0 <==> 2 * a > n
  {
    RoundIsNearest(a, n);
    var r := RoundHalfEven(a, n);
    if r > 0 { SmallerProduct(1, r, n); }
    if r == 1 { assert r * n == n; }
    if r > 1 { SmallerProduct(2, r, n); }
  }

  /** A chunk that holds more of the query scores no less. */
  lemma ScoreIsMonotone(terms: set<string>, query: string, a: string, b: string)
    requires terms != {} && HasWord(Lower(query))
    requires FoundTerms(terms, a) <= FoundTerms(terms, b) && (PhraseMatches(query, a) ==> PhraseMatches(query, b))
    ensures ScoreChunk(terms, query, a) <= ScoreChunk(terms, query, b)
  {
    FewerTerms(FoundTerms(terms, a), FoundTerms(terms, b));
    ScoreIsShare(terms, query, a);
    ScoreIsShare(terms, query, b);
    ShareIsMonotone(|terms|, |FoundTerms(terms, a)|, |FoundTerms(terms, b)|, PhraseMatches(query, a), PhraseMatches(query, b));
  }

  lemma ShareIsMonotone(n: nat, few: nat, many: nat, phrase: bool, phrase': bool)
    requires n > 0 && few <= many && (phrase ==> phrase')
    ensures ScoreOf(n, few, phrase) <= ScoreOf(n, many, phrase')
  {
    RoundIsMonotone(10000 * few + (if phrase then 2500 * n else 0), 10000 * many + (if phrase' then 2500 * n else 0), n);
  }

  /** Upper and lower case are not told apart, in the query or in the chunk. */
  lemma CaseIsIgnored(query: string, query': string, chunk: string, chunk': string)
    requires SameButCase(query, query') && SameButCase(chunk, chunk')
    ensures ExpandedQueryTerms(query) == ExpandedQueryTerms(query') && (PhraseMatches(query, chunk) <==> PhraseMatches(query', chunk'))
    ensures ScoreChunk(ExpandedQueryTerms(query), query, chunk) == ScoreChunk(ExpandedQueryTerms(query'), query', chunk')
  {
    LowerForgetsCase(query, query');
    LowerForgetsCase(chunk, chunk');
  }

  /** The scoring of one query. */
  function Scorer(terms: set<string>, query: string): string -> int {
    chunk => ScoreChunk(terms, query, chunk)
  }

  /** A row that scores nothing is no candidate. */
  function Candidate(r: Row, score: string -> int): seq<RagChunk> {
    if score(r.text) <= 0 then [] else [RagChunk(r.page, r.index, r.text, score(r.text))]
  }

  function Candidates(rows: seq<Row>, score: string -> int): seq<RagChunk> {
    if rows == [] then [] else Candidates(rows[..|rows| - 1], score) + Candidate(rows[|rows| - 1], score)
  }

  lemma CandidatesStep(rows: seq<Row>, i: nat, score: string -> int)
    requires i < |rows|
    ensures Candidates(rows[..i + 1], score) == Candidates(rows[..i], score) + Candidate(rows[i], score)
  {
    assert rows[..i + 1][..i] == rows[..i];
  }

  // ---- Ranking ----------------------------------------------------------------------------------

  function InsertByScore(x: RagChunk, xs: seq<RagChunk>): seq<RagChunk> {
    if xs == [] || x.score >= xs[0].score then [x] + xs else [xs[0]] + InsertByScore(x, xs[1..])
  }

  /** sorted(candidates, key=score, reverse=True) */
  function SortByScore(xs: seq<RagChunk>): seq<RagChunk> {
    if xs == [] then [] else InsertByScore(xs[0], SortByScore(xs[1..]))
  }

  predicate Descending(xs: seq<RagChunk>) {
    forall i, j :: 0 <= i <= j < |xs| ==> xs[i].score >= xs[j].score
  }

  function WithScore(xs: seq<RagChunk>, score: int): seq<RagChunk> {
    if xs == [] then [] else (if xs[0].score == score then [xs[0]] else []) + WithScore(xs[1..], score)
  }

  lemma {:induction false} InsertDescends(x: RagChunk, xs: seq<RagChunk>)
    requires Descending(xs)
    ensures Descending(InsertByScore(x, xs)) && |InsertByScore(x, xs)| == |xs| + 1
    ensures InsertByScore(x, xs)[0] == if xs == [] || x.score >= xs[0].score then x else xs[0]
  {
    if xs != [] && x.score < xs[0].score {
      InsertDescends(x, xs[1..]);
      var rest := InsertByScore(x, xs[1..]);
      assert |xs| > 1 ==> xs[1..][0] == xs[1] && xs[1].score <= xs[0].score;
      assert forall i :: 0 <= i < |rest| ==> rest[i].score <= rest[0].score;
    }
  }

  lemma {:induction false} InsertKeepsScores(x: RagChunk, xs: seq<RagChunk>, score: int)
    ensures Descending(xs) ==>
      WithScore(InsertByScore(x, xs), score) == (if x.score == score then [x] else []) + WithScore(xs, score)
  {
    if Descending(xs) && xs != [] && x.score < xs[0].score {
      InsertKeepsScores(x, xs[1..], score);
      assert InsertByScore(x, xs)[1..] == InsertByScore(x, xs[1..]);
      if xs[0].score == score { HigherScoresOnly(x, xs, score); }
    } else if xs == [] || x.score >= xs[0].score {
      assert InsertByScore(x, xs)[1..] == xs;
    }
  }

  lemma HigherScoresOnly(x: RagChunk, xs: seq<RagChunk>, score: int)
    requires xs != [] && x.score < xs[0].score == score
    ensures (if x.score == score then [x] else []) + WithScore(xs, score) == WithScore(xs, score)
  {}

  /** Ranking is by descending score and stable: for every score, the chunks that have it come out
      in the order they went in. */
  lemma {:induction false} SortIsStable(xs: seq<RagChunk>, score: int)
    ensures Descending(SortByScore(xs)) && |SortByScore(xs)| == |xs|
    ensures WithScore(SortByScore(xs), score) == WithScore(xs, score)
  {
    if xs != [] {
      SortIsStable(xs[1..], score);
      InsertDescends(xs[0], SortByScore(xs[1..]));
      InsertKeepsScores(xs[0], SortByScore(xs[1..]), score);
    }
  }

  function SafeTopK(topK: int): (k: nat)
    ensures 1 <= k <= MAX_TOP_K && (1 <= topK <= MAX_TOP_K ==> k == topK)
    ensures (topK < 1 ==> k == 1) && (topK > MAX_TOP_K ==> k == MAX_TOP_K)
  {
    var k := if topK < MAX_TOP_K then topK else MAX_TOP_K;
    if k < 1 then 1 else k
  }

  function Rank(candidates: seq<RagChunk>, topK: int): seq<RagChunk> {
    var sorted := SortByScore(candidates);
    if |sorted| <= SafeTopK(topK) then sorted else sorted[..SafeTopK(topK)]
  }

  // ---- retrieve_chunks --------------------------------------------------------------------------

  /** A failing index query counts as an empty index. */
  method RetrieveIndexedCandidates(pages: map<int, Page>, chunks: map<ChunkKey, string>, indexFails: bool,
                                   tenant: int, score: string -> int) returns (candidates: seq<RagChunk>)
    ensures candidates == if indexFails then [] else Candidates(IndexSelect(pages, chunks, tenant), score)
  {
    candidates := [];
    if indexFails { return; }
    var rows := IndexSelect(pages, chunks, tenant);
    for i := 0 to |rows|
      invariant candidates == Candidates(rows[..i], score)
    {
      CandidatesStep(rows, i, score);
      if score(rows[i].text) <= 0 { continue; }
      candidates := candidates + [RagChunk(rows[i].page, rows[i].index, rows[i].text, score(rows[i].text))];
    }
    assert rows[..|rows|] == rows;
  }

  lemma CandidatesAppend(rows: seq<Row>, r: Row, score: string -> int)
    ensures Candidates(rows + [r], score) == Candidates(rows, score) + Candidate(r, score)
  {
    assert (rows + [r])[..|rows|] == rows;
  }

  lemma {:induction false} CandidatesOfConcat(a: seq<Row>, b: seq<Row>, score: string -> int)
    ensures Candidates(a + b, score) == Candidates(a, score) + Candidates(b, score)
  {
    if b == [] {
      assert a + b == a;
    } else {
      var b', last := b[..|b| - 1], b[|b| - 1];
      CandidatesOfConcat(a, b', score);
      assert b == b' + [last];
      Assoc(a, b', [last]);
      CandidatesAppend(a + b', last, score);
      CandidatesAppend(b', last, score);
      Assoc(Candidates(a, score), Candidates(b', score), Candidate(last, score));
    }
  }

  lemma {:induction false} FallbackRowsStep(pages: map<int, Page>, ids: seq<int>, i: nat)
    requires i < |ids| && forall p :: p in ids ==> p in pages
    ensures FallbackRows(pages, ids[..i + 1]) == FallbackRows(pages, ids[..i]) + ScannedRows(ids[i], pages[ids[i]].body)
  {
    if i > 0 {
      FallbackRowsStep(pages, ids[1..], i - 1);
      assert ids[..i + 1][1..] == ids[1..][..i] && ids[..i][1..] == ids[1..][..i - 1];
    } else {
      assert ids[..1][1..] == [] && ids[..0] == [];
    }
  }

  /** The inner loop of the scan, over the chunks of one page. */
  method ScanPage(p: int, body: string, score: string -> int) returns (found: seq<RagChunk>)
    ensures found == Candidates(ScannedRows(p, body), score)
  {
    found := [];
    ghost var rows := ScannedRows(p, body);
    var cut := ChunkText(body);
    for i := 0 to |cut|
      invariant found == Candidates(rows[..i], score)
    {
      CandidatesStep(rows, i, score);
      if score(cut[i]) <= 0 { continue; }
      found := found + [RagChunk(p, i, cut[i], score(cut[i]))];
    }
    assert rows[..|cut|] == rows;
  }

  method RetrieveCmsFallbackCandidates(pages: map<int, Page>, tenant: int, score: string -> int)
    returns (candidates: seq<RagChunk>)
    ensures candidates == Candidates(ScanSelect(pages, tenant), score)
  {
    candidates := [];
    var ids := PublishedPages(pages, tenant);
    assert forall p :: p in ids ==> p in pages;
    for n := 0 to |ids|
      invariant candidates == Candidates(FallbackRows(pages, ids[..n]), score)
    {
      FallbackRowsStep(pages, ids, n);
      CandidatesOfConcat(FallbackRows(pages, ids[..n]), ScannedRows(ids[n], pages[ids[n]].body), score);
      var found := ScanPage(ids[n], pages[ids[n]].body, score);
      candidates := candidates + found;
    }
    assert ids[..|ids|] == ids;
  }

  /** What retrieval answers from a given list of rows. */
  function Answer(rows: seq<Row>, query: string, topK: int): seq<RagChunk> {
    var q := Strip(query);
    var terms := ExpandedQueryTerms(q);
    if q == "" || terms == {} then [] else Rank(Candidates(rows, Scorer(terms, q)), topK)
  }

  /** A text that holds a term of the query, or the query itself. */
  ghost predicate IsRelevant(query: string, text: string) {
    || (exists t :: t in ExpandedQueryTerms(Strip(query)) && t in Tokenize(text))
    || PhraseMatches(Strip(query), text)
  }

  /** A text that holds every term of a query that has some. */
  ghost predicate IsFullMatch(query: string, text: string) {
    ExpandedQueryTerms(Strip(query)) != {} && forall t :: t in ExpandedQueryTerms(Strip(query)) ==> t in Tokenize(text)
  }

  /** Chunk i of page p is answered with this score, or the answer is full of chunks that score as much. */
  ghost predicate IsServed(answer: seq<RagChunk>, topK: int, p: int, i: int, text: string, score: int) {
    || RagChunk(p, i, text, score) in answer
    || (|answer| == SafeTopK(topK) && forall c :: c in answer ==> c.score >= score)
  }

  predicate HasChunk(pages: map<int, Page>, tenant: int, p: int, i: int) {
    IsPublished(pages, tenant, p) && 0 <= i < |PageChunks(pages[p].body)|
  }

  /** Every published chunk with every query term is served, at a full point or, with the phrase, 1.25. */
  ghost predicate FullMatchesAreServed(answer: seq<RagChunk>, pages: map<int, Page>, tenant: int, query: string, topK: int) {
    forall p, i :: HasChunk(pages, tenant, p, i) && IsFullMatch(query, PageChunks(pages[p].body)[i]) ==>
        var text := PageChunks(pages[p].body)[i];
        IsServed(answer, topK, p, i, text, if PhraseMatches(Strip(query), text) then 12500 else 10000)
  }

  /** The index is asked first; an empty answer, or none at all, falls back to the scan.  While index
      and pages are in sync the two name the same chunks, and `scanned`, that the scan answered, means that
      there is nothing to find. */
  method RetrieveChunks(pages: map<int, Page>, chunks: map<ChunkKey, string>, indexFails: bool,
                        tenant: int, query: string, topK: int := 5) returns (ranked: seq<RagChunk>, scanned: bool)
    ensures scanned ==> ranked == Answer(ScanSelect(pages, tenant), query, topK)
    ensures scanned ==> indexFails || Answer(IndexSelect(pages, chunks, tenant), query, topK) == []
    ensures !scanned && ranked != [] ==> !indexFails && ranked == Answer(IndexSelect(pages, chunks, tenant), query, topK)
    ensures !scanned && ranked == [] ==> Answer(ScanSelect(pages, tenant), query, topK) == []
    ensures InSync(pages, chunks) ==> ranked == Answer(ScanSelect(pages, tenant), query, topK)
    ensures InSync(pages, chunks) && !indexFails && scanned ==> ranked == []
    ensures forall c :: c in ranked ==> c.score > 0 && IsRelevant(query, c.text)
    ensures InSync(pages, chunks) ==> FullMatchesAreServed(ranked, pages, tenant, query, topK)
  {
    RelevantOnly(IndexSelect(pages, chunks, tenant), query, topK);
    RelevantOnly(ScanSelect(pages, tenant), query, topK);
    FullMatches(pages, tenant, query, topK);
    var cleanedQuery := Strip(query);
    if cleanedQuery == "" { return [], false; }
    var terms := ExpandedQueryTerms(cleanedQuery);
    if terms == {} { return [], false; }
    var score := Scorer(terms, cleanedQuery);
    var candidates := RetrieveIndexedCandidates(pages, chunks, indexFails, tenant, score);
    scanned := candidates == [];
    if scanned {
      candidates := RetrieveCmsFallbackCandidates(pages, tenant, score);
    }
    ranked := Rank(candidates, topK);
    if InSync(pages, chunks) { RowsAgree(pages, chunks, tenant, PublishedPages(pages, tenant)); }
  }

  // ---- Where answers come from ------------------------------------------------------------------

  lemma {:induction false} InsertMembers(x: RagChunk, xs: seq<RagChunk>, c: RagChunk)
    ensures c in InsertByScore(x, xs) <==> c == x || c in xs
  {
    if xs != [] && x.score < xs[0].score { InsertMembers(x, xs[1..], c); }
  }

  lemma {:induction false} SortMembers(xs: seq<RagChunk>, c: RagChunk)
    ensures c in SortByScore(xs) <==> c in xs
  {
    if xs != [] {
      SortMembers(xs[1..], c);
      InsertMembers(xs[0], SortByScore(xs[1..]), c);
    }
  }

  lemma {:induction false} CandidateIsRow(rows: seq<Row>, score: string -> int, c: RagChunk)
    requires c in Candidates(rows, score)
    ensures Row(c.page, c.index, c.text) in rows
  {
    if c !in Candidate(rows[|rows| - 1], score) {
      CandidateIsRow(rows[..|rows| - 1], score, c);
    }
  }

  lemma AnswerIsRow(rows: seq<Row>, query: string, topK: int, c: RagChunk)
    requires c in Answer(rows, query, topK)
    ensures Row(c.page, c.index, c.text) in rows
  {
    var q := Strip(query);
    var candidates := Candidates(rows, Scorer(ExpandedQueryTerms(q), q));
    SortMembers(candidates, c);
    CandidateIsRow(rows, Scorer(ExpandedQueryTerms(q), q), c);
  }

  lemma {:induction false} FallbackRowOrigin(pages: map<int, Page>, ids: seq<int>, r: Row)
    requires (forall p :: p in ids ==> p in pages) && r in FallbackRows(pages, ids)
    ensures r.page in ids && 0 <= r.index < |PageChunks(pages[r.page].body)|
    ensures r.text == PageChunks(pages[r.page].body)[r.index]
  {
    if r !in ScannedRows(ids[0], pages[ids[0]].body) { FallbackRowOrigin(pages, ids[1..], r); }
  }

  /** What is left out of an answer is no better than what is in it, and is left out only for want of room. */
  lemma RankIsBest(candidates: seq<RagChunk>, topK: int, c: RagChunk)
    requires c in candidates && c !in Rank(candidates, topK)
    ensures |Rank(candidates, topK)| == SafeTopK(topK)
    ensures forall d :: d in Rank(candidates, topK) ==> d.score >= c.score
  {
    var sorted, k := SortByScore(candidates), SafeTopK(topK);
    SortMembers(candidates, c);
    SortIsStable(candidates, c.score);
    var i :| 0 <= i < |sorted| && sorted[i] == c;
    assert |sorted| > k;
    assert forall x :: 0 <= x < k ==> sorted[..k][x] == sorted[x];
    forall d | d in Rank(candidates, topK) ensures d.score >= c.score {
      var j :| 0 <= j < k && sorted[..k][j] == d;
      assert sorted[j].score >= sorted[i].score;
    }
  }

  // ---- What is answered -------------------------------------------------------------------------

  lemma {:induction false} CandidateIsScored(rows: seq<Row>, score: string -> int, c: RagChunk)
    requires c in Candidates(rows, score)
    ensures c.score == score(c.text) > 0
  {
    if c !in Candidate(rows[|rows| - 1], score) { CandidateIsScored(rows[..|rows| - 1], score, c); }
  }

  /** Nothing is answered that holds neither a term of the query nor the query itself. */
  lemma RelevantOnly(rows: seq<Row>, query: string, topK: int)
    ensures forall c :: c in Answer(rows, query, topK) ==> c.score > 0 && IsRelevant(query, c.text)
  {
    var q, terms := Strip(query), ExpandedQueryTerms(Strip(query));
    forall c | c in Answer(rows, query, topK) ensures c.score > 0 && IsRelevant(query, c.text) {
      SortMembers(Candidates(rows, Scorer(terms, q)), c);
      CandidateIsScored(rows, Scorer(terms, q), c);
      TermsNeedAWord(q);
      ScoreMeans(terms, q, c.text);
      if t :| t in FoundTerms(terms, c.text) { assert t in terms && t in Tokenize(c.text); }
    }
  }

  /** A row that scores is answered, or the answer is full of chunks that score at least as much. */
  lemma ScoringRowIsServed(rows: seq<Row>, query: string, topK: int, r: Row, score: int)
    requires r in rows && ExpandedQueryTerms(Strip(query)) != {} && Strip(query) != ""
    requires score == ScoreChunk(ExpandedQueryTerms(Strip(query)), Strip(query), r.text) > 0
    ensures IsServed(Answer(rows, query, topK), topK, r.page, r.index, r.text, score)
  {
    var scorer := Scorer(ExpandedQueryTerms(Strip(query)), Strip(query));
    var c := RagChunk(r.page, r.index, r.text, score);
    ScoredRowIsCandidate(rows, scorer, r);
    if c !in Rank(Candidates(rows, scorer), topK) { RankIsBest(Candidates(rows, scorer), topK, c); }
  }

  lemma FullMatches(pages: map<int, Page>, tenant: int, query: string, topK: int)
    ensures FullMatchesAreServed(Answer(ScanSelect(pages, tenant), query, topK), pages, tenant, query, topK)
  {
    var q, terms := Strip(query), ExpandedQueryTerms(Strip(query));
    forall p, i | HasChunk(pages, tenant, p, i) && IsFullMatch(query, PageChunks(pages[p].body)[i])
      ensures var text := PageChunks(pages[p].body)[i];
        IsServed(Answer(ScanSelect(pages, tenant), query, topK), topK, p, i, text, if PhraseMatches(q, text) then 12500 else 10000)
    {
      var text := PageChunks(pages[p].body)[i];
      var r := Row(p, i, text);
      assert ScannedRows(p, pages[p].body)[i] == r;
      RowIsScanned(pages, PublishedPages(pages, tenant), p, r);
      TermsNeedAWord(q);
      assert FoundTerms(terms, text) == terms;
      ScoreMeans(terms, q, text);
      NoTermsInNothing();
      ScoringRowIsServed(ScanSelect(pages, tenant), query, topK, r, ScoreChunk(terms, q, text));
    }
  }

  lemma NoTermsInNothing()
    ensures !HasWord(Lower(""))
  {}

  // ---- A phrase on a published page is found ----------------------------------------------------

  /** Three alphanumerics in a row. */
  ghost predicate HasWord(s: string) {
    exists i :: 0 <= i && i + 3 <= |s| && WordAt(s, i)
  }

  ghost predicate WordAt(s: string, i: int)
    requires 0 <= i && i + 3 <= |s|
  {
    IsAlnum(s[i]) && IsAlnum(s[i + 1]) && IsAlnum(s[i + 2])
  }

  lemma WordOfConcat(a: string, b: string)
    requires a == [] || b == [] || !IsAlnum(b[0]) || !IsAlnum(a[|a| - 1])
    ensures HasWord(a + b) <==> HasWord(a) || HasWord(b)
  {
    var s := a + b;
    assert 0 < |a| < |s| ==> s[|a|] == b[0] && s[|a| - 1] == a[|a| - 1];
    if i :| 0 <= i && i + 3 <= |a| && WordAt(a, i) { assert WordAt(s, i); }
    if i :| 0 <= i && i + 3 <= |b| && WordAt(b, i) { assert WordAt(s, |a| + i); }
    if i :| 0 <= i && i + 3 <= |s| && WordAt(s, i) {
      if i + 3 <= |a| { assert WordAt(a, i); }
      if i >= |a| { assert WordAt(b, i - |a|); }
    }
  }

  /** A text has a term iff it has three alphanumerics in a row. */
  lemma {:induction false} LongRunIff(s: string)
    ensures (exists w :: w in Runs(s, IsAlnum) && |w| > 2) <==> HasWord(s)
    decreases |s|
  {
    if s != [] {
      var n := if IsAlnum(s[0]) then RunLength(s, IsAlnum) else 1;
      var run, rest := s[..n], s[n..];
      LongRunIff(rest);
      assert s == run + rest;
      WordOfConcat(run, rest);
      if IsAlnum(s[0]) {
        var ws := Runs(rest, IsAlnum);
        assert Runs(s, IsAlnum) == [run] + ws;
        assert forall w :: w in [run] + ws <==> w == run || w in ws;
        assert |run| > 2 ==> WordAt(run, 0);
      }
    }
  }

  lemma TermsIff(text: string)
    ensures Tokenize(text) != {} <==> HasWord(Lower(text))
  {
    LongRunIff(Lower(text));
    if w :| w in Words(text) && |w| > 2 { assert w in Tokenize(text); }
  }

  lemma WordOccurs(p: string, s: string)
    requires HasWord(p) && Occurs(p, s)
    ensures HasWord(s)
  {
    var i :| 0 <= i <= |s| - |p| && OccursAt(p, s, i);
    var j :| 0 <= j && j + 3 <= |p| && WordAt(p, j);
    assert p[j] == s[i + j] && p[j + 1] == s[i + j + 1] && p[j + 2] == s[i + j + 2];
    assert WordAt(s, i + j);
  }

  lemma KeywordHasWord(keyword: string, s: string)
    requires |keyword| >= 3 && WordAt(keyword, 0)
    ensures Occurs(keyword, s) ==> HasWord(s)
  {
    if Occurs(keyword, s) { WordOccurs(keyword, s); }
  }

  /** Query aliases never make terms out of a query that has none. */
  lemma TermsNeedAWord(query: string)
    requires ExpandedQueryTerms(query) != {}
    ensures HasWord(Lower(query))
  {
    var q := Lower(query);
    TermsIff(query);
    KeywordHasWord("membership", q);
    KeywordHasWord("cost", q);
    KeywordHasWord("price", q);
    KeywordHasWord("open", q);
    KeywordHasWord("saturday", q);
    KeywordHasWord("hours", q);
    KeywordHasWord("located", q);
    KeywordHasWord("where", q);
    KeywordHasWord("location", q);
    KeywordHasWord("cancellation", q);
    KeywordHasWord("cancel", q);
  }

  lemma PhraseScores(terms: set<string>, query: string, chunk: string)
    requires terms != {} && HasWord(Lower(query)) && PhraseMatches(query, chunk)
    ensures ScoreChunk(terms, query, chunk) >= 2500
  {
    WordOccurs(Lower(query), Lower(chunk));
    TermsIff(chunk);
    PhraseIsWorthAQuarter(|terms|, |terms * Tokenize(chunk)|);
  }

  lemma PhraseIsWorthAQuarter(n: nat, hits: nat)
    requires n > 0
    ensures ScoreOf(n, hits, true) >= 2500
  {
    QuotientAtLeast(10000 * hits + 2500 * n, n, 2500);
  }

  lemma QuotientAtLeast(a: nat, n: nat, k: nat)
    requires n > 0 && a >= k * n
    ensures a / n >= k
  {
    var q := a / n;
    assert a == n * q + a % n;
    if q < k { SmallerProduct(q + 1, k, n); }
  }

  lemma SmallerProduct(x: nat, y: nat, n: nat)
    requires x <= y
    ensures x * n <= y * n
  {
    assert y * n == x * n + (y - x) * n;
  }

  lemma {:induction false} ScoredRowIsCandidate(rows: seq<Row>, score: string -> int, r: Row)
    requires r in rows && score(r.text) > 0
    ensures RagChunk(r.page, r.index, r.text, score(r.text)) in Candidates(rows, score)
  {
    if r != rows[|rows| - 1] {
      assert r in rows[..|rows| - 1];
      ScoredRowIsCandidate(rows[..|rows| - 1], score, r);
    }
  }

  lemma {:induction false} RowIsScanned(pages: map<int, Page>, ids: seq<int>, p: int, r: Row)
    requires p in ids && (forall id :: id in ids ==> id in pages) && r in ScannedRows(p, pages[p].body)
    ensures r in FallbackRows(pages, ids)
  {
    if p != ids[0] { RowIsScanned(pages, ids[1..], p, r); }
  }

  /** A query of at most 121 characters is boosted on some chunk of a page iff, case aside, it occurs
      in the page's normalised text. */
  lemma PhraseIsBoosted(p: int, body: string, query: string)
    requires 0 < |query| <= DEFAULT_CHUNK_OVERLAP + 1
    ensures (exists r :: r in ScannedRows(p, body) && PhraseMatches(query, r.text))
       <==> Occurs(Lower(query), Lower(Normalize(body)))
  {
    var rows := ScannedRows(p, body);
    var cut := Chunks(Normalize(body), DEFAULT_CHUNK_SIZE, DEFAULT_CHUNK_OVERLAP);
    PhraseCompleteness(Normalize(body), DEFAULT_CHUNK_SIZE, DEFAULT_CHUNK_OVERLAP, query);
    forall r | r in rows && PhraseMatches(query, r.text) ensures Occurs(Lower(query), Lower(Normalize(body))) {
      var k :| 0 <= k < |rows| && rows[k] == r;
      PhraseOfChunk(Normalize(body), DEFAULT_CHUNK_SIZE, DEFAULT_CHUNK_OVERLAP, query, k);
    }
    if Occurs(Lower(query), Lower(Normalize(body))) {
      var k :| 0 <= k < |cut| && Occurs(Lower(query), Lower(cut[k]));
      var r := rows[k];
      assert r in rows && PhraseMatches(query, r.text);
    }
  }

  /** End to end: when such a query has terms and occurs in a published page, the scan makes that
      page a candidate with a score of at least 0.25. */
  lemma PhraseIsFound(pages: map<int, Page>, tenant: int, p: int, query: string, terms: set<string>)
    requires IsPublished(pages, tenant, p) && Occurs(Lower(query), Lower(Normalize(pages[p].body)))
    requires 0 < |query| <= DEFAULT_CHUNK_OVERLAP + 1 && terms == ExpandedQueryTerms(query) && terms != {}
    ensures exists c :: c in Candidates(ScanSelect(pages, tenant), Scorer(terms, query)) && c.page == p && c.score >= 2500
  {
    PhraseIsBoosted(p, pages[p].body, query);
    var r :| r in ScannedRows(p, pages[p].body) && PhraseMatches(query, r.text);
    TermsNeedAWord(query);
    PhraseScores(terms, query, r.text);
    RowIsScanned(pages, PublishedPages(pages, tenant), p, r);
    ScoredRowIsCandidate(ScanSelect(pages, tenant), Scorer(terms, query), r);
    var c := RagChunk(r.page, r.index, r.text, ScoreChunk(terms, query, r.text));
    assert c in Candidates(ScanSelect(pages, tenant), Scorer(terms, query)) && c.page == p;
  }

  /** ... so that the answer names the page, or is full of chunks that score at least as much. */
  lemma PhraseIsAnswered(pages: map<int, Page>, tenant: int, p: int, query: string, topK: int)
    requires IsPublished(pages, tenant, p) && Occurs(Lower(Strip(query)), Lower(Normalize(pages[p].body)))
    requires 0 < |Strip(query)| <= DEFAULT_CHUNK_OVERLAP + 1 && ExpandedQueryTerms(Strip(query)) != {}
    ensures var answer := Answer(ScanSelect(pages, tenant), query, topK);
      || (exists c :: c in answer && c.page == p)
      || (|answer| == SafeTopK(topK) && forall d :: d in answer ==> d.score >= 2500)
  {
    var q := Strip(query);
    var terms := ExpandedQueryTerms(q);
    PhraseIsFound(pages, tenant, p, q, terms);
    var candidates := Candidates(ScanSelect(pages, tenant), Scorer(terms, q));
    var c :| c in candidates && c.page == p && c.score >= 2500;
    if c !in Rank(candidates, topK) { RankIsBest(candidates, topK, c); }
  }
}
