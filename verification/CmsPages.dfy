/** The CMS page service: page rows, their audit trail, and the chunk index kept as a best effort. */
module CmsPages {
  import opened Wrappers
  import opened Text
  import opened Chunker
  import opened Retriever

  datatype Outcome = Done(page: int) | PageInvalid | PageNotFound | SlugTaken

  datatype AuditRow = AuditRow(action: string, page: int)

  datatype UpdateBody = UpdateBody(title: Option<string>, slug: Option<string>, body: Option<string>,
                                   sourceUrl: Option<string>, status: Option<string>)

  predicate IsStatus(status: string) {
    status == "draft" || status == PUBLISHED || status == "archived"
  }

  function StatusAction(status: string): string {
    if status == PUBLISHED then "cms.page_published" else "cms.page_unpublished"
  }

  predicate IsValidUpdate(u: UpdateBody) {
    && (u.title.Some? ==> 1 <= |u.title.value| <= 255)
    && (u.slug.Some? ==> 1 <= |u.slug.value| <= 255)
    && (u.body.Some? ==> 1 <= |u.body.value|)
    && (u.status.Some? ==> IsStatus(u.status.value))
  }

  function Or<T>(o: Option<T>, d: T): T {
    if o.Some? then o.value else d
  }

  function Applied(page: Page, u: UpdateBody): Page {
    page.(title := Or(u.title, page.title), slug := Or(u.slug, page.slug), body := Or(u.body, page.body),
          sourceUrl := Or(u.sourceUrl, page.sourceUrl), status := Or(u.status, page.status))
  }

  /** A field after an update: the given value, or what it was. */
  predicate IsGiven<T(==)>(o: Option<T>, before: T, after: T) {
    match o
    case Some(value) => after == value
    case None => after == before
  }

  /** A text field of an update, if it is given, has at least one and at most max characters. */
  predicate IsText(o: Option<string>, max: nat) {
    match o
    case Some(text) => text != "" && |text| <= max
    case None => true
  }

  predicate IsOneOfThree(status: string) {
    status in {"draft", "published", "archived"}
  }

  /** Some other page of the tenant has the slug. */
  ghost predicate HasSlug(pages: map<int, Page>, p: int, tenant: int, slug: string) {
    exists q :: q in pages && q != p && (pages[q].tenant, pages[q].slug) == (tenant, slug)
  }

  /** Field by field; the tenant never changes. */
  predicate IsEdited(before: Page, u: UpdateBody, after: Page) {
    && after.tenant == before.tenant
    && IsGiven(u.title, before.title, after.title) && IsGiven(u.slug, before.slug, after.slug)
    && IsGiven(u.body, before.body, after.body) && IsGiven(u.sourceUrl, before.sourceUrl, after.sourceUrl)
    && IsGiven(u.status, before.status, after.status)
  }

  /** Another page of the tenant has this slug: the unique constraint (tenant_id, slug) fires. */
  predicate SlugClash(pages: map<int, Page>, p: int, tenant: int, slug: string) {
    exists q :: q in pages && q != p && pages[q].tenant == tenant && pages[q].slug == slug
  }

  /** Every stored row belongs to a page, and the rows of a page are all the chunks of the body it had
      when it was last indexed as published, or none. */
  ghost predicate IndexIsSafe(pages: map<int, Page>, chunks: map<ChunkKey, string>, lastIndexed: map<int, string>) {
    && (forall k :: k in chunks ==> k.page in pages)
    && (forall p :: p in pages ==> PageIsSafe(chunks, pages[p].tenant, p, lastIndexed))
  }

  ghost predicate PageIsSafe(chunks: map<ChunkKey, string>, tenant: int, p: int, lastIndexed: map<int, string>) {
    || StoredAre(chunks, tenant, p, [])
    || (p in lastIndexed && StoredAre(chunks, tenant, p, PageChunks(lastIndexed[p])))
  }

  /** Only rows of page p may differ. */
  ghost predicate SameElsewhere(chunks: map<ChunkKey, string>, chunks': map<ChunkKey, string>, p: int) {
    forall k: ChunkKey :: k.page != p ==>
      (k in chunks' <==> k in chunks) && (k in chunks ==> chunks'[k] == chunks[k])
  }

  /** No two pages of a tenant have the same slug. */
  ghost predicate HasUniqueSlugs(pages: map<int, Page>) {
    forall p, q :: p in pages && q in pages && pages[p].tenant == pages[q].tenant && pages[p].slug == pages[q].slug ==> p == q
  }

  /** What the index names for a published page are the chunks of this body, normalised, at 0, 1, ... */
  ghost predicate IsIndexedAs(pages: map<int, Page>, chunks: map<ChunkKey, string>, p: int, body: string)
    requires p in pages
  {
    var cut := Chunks(Normalize(body), 700, 120);
    forall i, text :: Row(p, i, text) in IndexSelect(pages, chunks, pages[p].tenant) <==> 0 <= i < |cut| && text == cut[i]
  }

  /** The index names the page's chunks if it is published, and nothing of it otherwise. */
  ghost predicate IsShown(pages: map<int, Page>, chunks: map<ChunkKey, string>, p: int)
    requires p in pages
  {
    if pages[p].status == "published" then IsIndexedAs(pages, chunks, p, pages[p].body)
    else forall tenant, i, text :: Row(p, i, text) !in IndexSelect(pages, chunks, tenant)
  }

  lemma StoredIsIndexed(pages: map<int, Page>, chunks: map<ChunkKey, string>, p: int)
    requires p in pages && (pages[p].status == PUBLISHED ==> StoredAre(chunks, pages[p].tenant, p, Expected(pages[p])))
    ensures IsShown(pages, chunks, p)
  {
    forall tenant, i, text
      ensures Row(p, i, text) in IndexSelect(pages, chunks, tenant) <==>
        IsPublished(pages, tenant, p) && ChunkKey(tenant, p, i) in chunks && chunks[ChunkKey(tenant, p, i)] == text
    {
      IndexSelectIsTheJoin(pages, chunks, tenant, Row(p, i, text));
    }
  }

  /** One page was written and its index sync was attempted. */
  ghost predicate PageStep(pages: map<int, Page>, chunks: map<ChunkKey, string>,
                           pages': map<int, Page>, chunks': map<ChunkKey, string>, p: int, synced: bool) {
    && p in pages' && pages' == pages[p := pages'[p]]
    && (p in pages ==> pages'[p].tenant == pages[p].tenant)
    && (if synced then SameElsewhere(chunks, chunks', p) && StoredAre(chunks', pages'[p].tenant, p, Expected(pages'[p]))
        else chunks' == chunks)
  }

  /** The body each page had when it was last indexed as published, after a write of page p. */
  function Indexed(lastIndexed: map<int, string>, p: int, page: Page, synced: bool): map<int, string> {
    if synced && page.status == PUBLISHED then lastIndexed[p := page.body] else lastIndexed
  }

  lemma StepKeepsOthers(chunks: map<ChunkKey, string>, chunks': map<ChunkKey, string>, tenant: int, p: int, q: int, cut: seq<string>)
    requires SameElsewhere(chunks, chunks', p) && q != p && StoredAre(chunks, tenant, q, cut)
    ensures StoredAre(chunks', tenant, q, cut)
  {}

  /** A step whose sync succeeds keeps the whole index in sync. */
  lemma StepKeepsSync(pages: map<int, Page>, chunks: map<ChunkKey, string>,
                      pages': map<int, Page>, chunks': map<ChunkKey, string>, p: int)
    requires InSync(pages, chunks) && PageStep(pages, chunks, pages', chunks', p, true)
    ensures InSync(pages', chunks')
  {
    forall q | q in pages' ensures StoredAre(chunks', pages'[q].tenant, q, Expected(pages'[q])) {
      if q != p { StepKeepsOthers(chunks, chunks', pages[q].tenant, p, q, Expected(pages[q])); }
    }
    forall k | k in chunks' ensures k.page in pages' {
      if k.page != p { assert k in chunks; }
    }
  }

  /** Any step, synced or not, keeps the index safe. */
  lemma StepKeepsSafety(pages: map<int, Page>, chunks: map<ChunkKey, string>, lastIndexed: map<int, string>,
                        pages': map<int, Page>, chunks': map<ChunkKey, string>, lastIndexed': map<int, string>,
                        p: int, synced: bool)
    requires IndexIsSafe(pages, chunks, lastIndexed) && PageStep(pages, chunks, pages', chunks', p, synced)
    requires lastIndexed' == Indexed(lastIndexed, p, pages'[p], synced)
    ensures IndexIsSafe(pages', chunks', lastIndexed')
  {
    forall k | k in chunks' ensures k.page in pages' {
      if k.page != p { assert k in chunks; }
    }
    forall q | q in pages' ensures PageIsSafe(chunks', pages'[q].tenant, q, lastIndexed') {
      if q == p && !synced && q !in pages {
        forall k: ChunkKey | k.page == q ensures k !in chunks {}
        assert StoredAre(chunks', pages'[q].tenant, q, []);
      } else if q != p && synced {
        assert PageIsSafe(chunks, pages[q].tenant, q, lastIndexed);
        if StoredAre(chunks, pages[q].tenant, q, []) {
          StepKeepsOthers(chunks, chunks', pages[q].tenant, p, q, []);
        } else {
          StepKeepsOthers(chunks, chunks', pages[q].tenant, p, q, PageChunks(lastIndexed[q]));
        }
      } else if q != p || !synced {
        assert PageIsSafe(chunks, pages[q].tenant, q, lastIndexed);
      }
    }
  }

  /** Whatever index syncs failed before, an answer of the index to a tenant names a page that is the
      tenant's and published now, with text that page had when it was last indexed as published. */
  lemma StaleIndexIsSafe(pages: map<int, Page>, chunks: map<ChunkKey, string>, lastIndexed: map<int, string>,
                         tenant: int, query: string, topK: int, c: RagChunk)
    requires IndexIsSafe(pages, chunks, lastIndexed)
    requires c in Answer(IndexSelect(pages, chunks, tenant), query, topK)
    ensures IsPublished(pages, tenant, c.page)
    ensures c.page in lastIndexed && 0 <= c.index < |PageChunks(lastIndexed[c.page])|
    ensures c.text == PageChunks(lastIndexed[c.page])[c.index]
  {
    AnswerIsRow(IndexSelect(pages, chunks, tenant), query, topK, c);
    IndexSelectIsTheJoin(pages, chunks, tenant, Row(c.page, c.index, c.text));
    var k := ChunkKey(tenant, c.page, c.index);
    assert k in chunks && PageIsSafe(chunks, tenant, c.page, lastIndexed);
  }

  /** The same for the scan, on the body the page has now. */
  lemma ScanIsSafe(pages: map<int, Page>, tenant: int, query: string, topK: int, c: RagChunk)
    requires c in Answer(ScanSelect(pages, tenant), query, topK)
    ensures IsPublished(pages, tenant, c.page) && 0 <= c.index < |PageChunks(pages[c.page].body)|
    ensures c.text == PageChunks(pages[c.page].body)[c.index]
  {
    AnswerIsRow(ScanSelect(pages, tenant), query, topK, c);
    FallbackRowOrigin(pages, PublishedPages(pages, tenant), Row(c.page, c.index, c.text));
  }

  /** DELETE FROM rag_chunks WHERE tenant_id = ... AND page_id = ... */
  function WithoutPage(chunks: map<ChunkKey, string>, tenant: int, p: int, ghost lastIndexed: map<int, string>)
    : (rest: map<ChunkKey, string>)
    requires PageIsSafe(chunks, tenant, p, lastIndexed)
    ensures SameElsewhere(chunks, rest, p) && StoredAre(rest, tenant, p, [])
  {
    map k | k in chunks && !(k.tenant == tenant && k.page == p) :: chunks[k]
  }

  /** One more INSERT after the first i. */
  lemma StoredAppend(before: map<ChunkKey, string>, chunks: map<ChunkKey, string>, tenant: int, p: int, cut: seq<string>, i: nat)
    requires i < |cut| && SameElsewhere(before, chunks, p) && StoredAre(chunks, tenant, p, cut[..i])
    ensures var chunks' := chunks[ChunkKey(tenant, p, i) := cut[i]];
      SameElsewhere(before, chunks', p) && StoredAre(chunks', tenant, p, cut[..i + 1])
  {}

  class CmsPageService {
    var pages: map<int, Page>
    var chunks: map<ChunkKey, string>
    var audit: seq<AuditRow>
    ghost var lastIndexed: map<int, string>

    ghost predicate Valid()
      reads this
    {
      IndexIsSafe(pages, chunks, lastIndexed) && HasUniqueSlugs(pages)
    }

    constructor ()
      ensures Valid() && InSync(pages, chunks) && pages == map[] && chunks == map[] && audit == []
    {
      pages, chunks, audit, lastIndexed := map[], map[], [], map[];
    }

    /** Replace the stored chunks of one page.  `fault` names the statement that raises, if any: 0 is
        the DELETE, then the INSERTs, then the flush.  The savepoint undoes every write made here. */
    method SyncPageIndex(p: int, fault: Option<nat>) returns (ghost synced: bool)
      requires Valid() && p in pages
      modifies this`chunks
      ensures synced ==> SameElsewhere(old(chunks), chunks, p) && StoredAre(chunks, pages[p].tenant, p, Expected(pages[p]))
      ensures !synced ==> chunks == old(chunks)
      ensures synced <==> (fault.Some? ==> fault.value > |Expected(pages[p])| + 1)
    {
      var savepoint, page := chunks, pages[p];
      if fault == Some(0) { return false; }
      assert PageIsSafe(chunks, page.tenant, p, lastIndexed);
      chunks := WithoutPage(chunks, page.tenant, p, lastIndexed);
      var cut: seq<string> := [];
      if page.status == PUBLISHED {
        cut := PreparePageChunks(page.body);
      }
      for i := 0 to |cut|
        invariant SameElsewhere(savepoint, chunks, p) && StoredAre(chunks, page.tenant, p, cut[..i])
        invariant fault.Some? ==> fault.value > i
      {
        if fault == Some(i + 1) {
          chunks := savepoint;
          return false;
        }
        StoredAppend(savepoint, chunks, page.tenant, p, cut, i);
        chunks := chunks[ChunkKey(page.tenant, p, i) := cut[i]];
      }
      assert cut[..|cut|] == cut;
      if fault == Some(|cut| + 1) {
        chunks := savepoint;
        return false;
      }
      return true;
    }

    /** Ingestion normalises before it chunks, and chunking normalises again: the same chunks. */
    method PreparePageChunks(text: string) returns (cut: seq<string>)
      ensures cut == PageChunks(text)
    {
      var cleanedText := Normalize(text);
      NormalizeIsIdempotent(text);
      if cleanedText == [] { return []; }
      cut := ChunkText(cleanedText);
    }

    /** The write of one page followed by its index sync. */
    method Store(p: int, page: Page, fault: Option<nat>) returns (ghost synced: bool)
      requires Valid() && (p in pages ==> page.tenant == pages[p].tenant) && !SlugClash(pages, p, page.tenant, page.slug)
      modifies this`pages, this`chunks, this`lastIndexed
      ensures Valid() && pages == old(pages)[p := page]
      ensures PageStep(old(pages), old(chunks), pages, chunks, p, synced)
      ensures lastIndexed == Indexed(old(lastIndexed), p, page, synced)
      ensures synced || page.status != "published" ==> IsShown(pages, chunks, p)
      ensures synced <==> (fault.Some? ==> fault.value > |Expected(page)| + 1)
    {
      pages := pages[p := page];
      StepKeepsSafety(old(pages), chunks, lastIndexed, pages, chunks, lastIndexed, p, false);
      synced := SyncPageIndex(p, fault);
      if synced || page.status != PUBLISHED { StoredIsIndexed(pages, chunks, p); }
      StepKeepsSafety(old(pages), old(chunks), lastIndexed, pages, chunks,
        Indexed(lastIndexed, p, page, synced), p, synced);
      lastIndexed := Indexed(lastIndexed, p, page, synced);
    }

    /** What every operation promises about the index, on top of its own effect on the pages. */
    twostate predicate Kept(synced: bool)
      reads this
    {
      Valid() && (old(InSync(pages, chunks)) && synced ==> InSync(pages, chunks))
    }

    /** `p` is the fresh page id. */
    method Create(p: int, tenant: int, title: string, slug: string, body: string, sourceUrl: string, status: string,
                  fault: Option<nat>) returns (r: Outcome, ghost synced: bool)
      requires Valid() && p !in pages
      modifies this
      ensures Kept(synced) && audit == old(audit)
      ensures r == SlugTaken || r == Done(p)
      ensures r == SlugTaken <==> HasSlug(old(pages), p, tenant, slug)
      ensures r == SlugTaken ==> pages == old(pages) && chunks == old(chunks) && lastIndexed == old(lastIndexed)
      ensures r == Done(p) ==> p in pages && lastIndexed == Indexed(old(lastIndexed), p, pages[p], synced)
      ensures r == Done(p) ==> pages == old(pages)[p := Page(tenant, title, slug, body, sourceUrl, status)]
      ensures r == Done(p) ==> PageStep(old(pages), old(chunks), pages, chunks, p, synced)
      ensures r == Done(p) && (synced || pages[p].status != "published") ==> IsShown(pages, chunks, p)
    {
      if SlugClash(pages, p, tenant, slug) { return SlugTaken, true; }
      synced := Store(p, Page(tenant, title, slug, body, sourceUrl, status), fault);
      if synced && old(InSync(pages, chunks)) { StepKeepsSync(old(pages), old(chunks), pages, chunks, p); }
      r := Done(p);
    }

    /** Each given field is stored, each other field kept, and what is stored is what the index then names. */
    method Update(p: int, tenant: int, u: UpdateBody, fault: Option<nat>) returns (r: Outcome, ghost synced: bool)
      requires Valid()
      modifies this
      ensures Kept(synced)
      ensures r != PageInvalid <==>
        IsText(u.title, 255) && IsText(u.slug, 255) && u.body != Some("") && (u.status.Some? ==> IsOneOfThree(u.status.value))
      ensures r != PageInvalid ==> (r == PageNotFound <==> p !in old(pages) || old(pages)[p].tenant != tenant)
      ensures r == SlugTaken <==> r != PageInvalid && r != PageNotFound && u.slug.Some? && HasSlug(old(pages), p, tenant, u.slug.value)
      ensures !r.Done? ==> pages == old(pages) && chunks == old(chunks) && audit == old(audit) && lastIndexed == old(lastIndexed)
      ensures r.Done? ==> r == Done(p) && p in pages && lastIndexed == Indexed(old(lastIndexed), p, pages[p], synced)
      ensures r.Done? ==> pages == old(pages)[p := pages[p]] && IsEdited(old(pages)[p], u, pages[p])
      ensures r.Done? ==> PageStep(old(pages), old(chunks), pages, chunks, p, synced)
      ensures r.Done? && (synced || pages[p].status != "published") ==> IsShown(pages, chunks, p)
      ensures r.Done? ==> audit == old(audit) + [AuditRow("cms.page_updated", p)]
    {
      synced := true;
      if !IsValidUpdate(u) { return PageInvalid, true; }
      if p !in pages || pages[p].tenant != tenant { return PageNotFound, true; }
      var page := Applied(pages[p], u);
      if SlugClash(pages, p, tenant, page.slug) { return SlugTaken, true; }
      audit := audit + [AuditRow("cms.page_updated", p)];
      synced := Store(p, page, fault);
      if synced && old(InSync(pages, chunks)) { StepKeepsSync(old(pages), old(chunks), pages, chunks, p); }
      r := Done(p);
    }

    method SetStatus(p: int, tenant: int, status: string, fault: Option<nat>) returns (r: Outcome, ghost synced: bool)
      requires Valid()
      modifies this
      ensures Kept(synced)
      ensures r == PageInvalid <==> !IsOneOfThree(status)
      ensures r != PageInvalid ==> r == if p !in old(pages) || old(pages)[p].tenant != tenant then PageNotFound else Done(p)
      ensures !r.Done? ==> pages == old(pages) && chunks == old(chunks) && audit == old(audit) && lastIndexed == old(lastIndexed)
      ensures r.Done? ==> p in pages && lastIndexed == Indexed(old(lastIndexed), p, pages[p], synced)
      ensures r.Done? ==> pages == old(pages)[p := old(pages)[p].(status := status)]
      ensures r.Done? ==> PageStep(old(pages), old(chunks), pages, chunks, p, synced)
      ensures r.Done? && (synced || pages[p].status != "published") ==> IsShown(pages, chunks, p)
      ensures r.Done? ==>
        audit == old(audit) + [AuditRow(if status == "published" then "cms.page_published" else "cms.page_unpublished", p)]
    {
      synced := true;
      if !IsStatus(status) { return PageInvalid, true; }
      if p !in pages || pages[p].tenant != tenant { return PageNotFound, true; }
      var page := pages[p].(status := status);
      audit := audit + [AuditRow(StatusAction(status), p)];
      synced := Store(p, page, fault);
      if synced && old(InSync(pages, chunks)) { StepKeepsSync(old(pages), old(chunks), pages, chunks, p); }
      r := Done(p);
    }

    /** Deleting archives the row and drops its chunks; a failing DELETE leaves the chunks behind. */
    method Delete(p: int, tenant: int, deleteFails: bool) returns (r: Outcome)
      requires Valid()
      modifies this
      ensures Kept(!deleteFails) && lastIndexed == old(lastIndexed)
      ensures r == if p !in old(pages) || old(pages)[p].tenant != tenant then PageNotFound else Done(p)
      ensures r == PageNotFound ==> pages == old(pages) && chunks == old(chunks) && audit == old(audit)
      ensures r == Done(p) ==> pages == old(pages)[p := old(pages)[p].(status := "archived")]
      ensures r == Done(p) ==> PageStep(old(pages), old(chunks), pages, chunks, p, !deleteFails) && IsShown(pages, chunks, p)
      ensures r == Done(p) ==> audit == old(audit) + [AuditRow("cms.page_deleted", p)]
    {
      if p !in pages || pages[p].tenant != tenant { return PageNotFound; }
      ghost var before := chunks;
      pages := pages[p := pages[p].(status := "archived")];
      audit := audit + [AuditRow("cms.page_deleted", p)];
      if !deleteFails {
        assert PageIsSafe(chunks, pages[p].tenant, p, lastIndexed);
        chunks := WithoutPage(chunks, pages[p].tenant, p, lastIndexed);
      }
      StoredIsIndexed(pages, chunks, p);
      StepKeepsSafety(old(pages), before, lastIndexed, pages, chunks, lastIndexed, p, !deleteFails);
      if !deleteFails && old(InSync(pages, chunks)) { StepKeepsSync(old(pages), old(chunks), pages, chunks, p); }
      r := Done(p);
    }

    /** Retrieval on the service's tables: in sync, the index answers what the scan answers; and in any
        state every chunk returned is from a page of this tenant that is published now. */
    method Retrieve(indexFails: bool, tenant: int, query: string, topK: int) returns (ranked: seq<RagChunk>, scanned: bool)
      requires Valid()
      ensures InSync(pages, chunks) ==> ranked == Answer(ScanSelect(pages, tenant), query, topK)
      ensures InSync(pages, chunks) && !indexFails && scanned ==> ranked == []
      ensures forall c :: c in ranked ==> IsPublished(pages, tenant, c.page) && IsRelevant(query, c.text)
      ensures InSync(pages, chunks) ==> FullMatchesAreServed(ranked, pages, tenant, query, topK)
    {
      ranked, scanned := RetrieveChunks(pages, chunks, indexFails, tenant, query, topK);
      forall c | c in ranked ensures IsPublished(pages, tenant, c.page) {
        if scanned {
          ScanIsSafe(pages, tenant, query, topK, c);
        } else {
          StaleIndexIsSafe(pages, chunks, lastIndexed, tenant, query, topK, c);
        }
      }
    }
  }
}
