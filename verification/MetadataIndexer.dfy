/** Rebuilding the search index
    (src/app-opensearch-indexer/metadata-indexer/metadata-indexer.service.ts with
    src/shared/metadata/metadata-repo-db.ts): page through the metadata, bulk-create the
    documents with retries, and report the rows of the pages that failed. */
module MetadataIndexer {
  import opened Prelude
  import opened Keyset

  /** A metadata document; `mappable` says whether its JSON parses into an index entry. */
  datatype Metadata = Metadata(id: string, mappable: bool)

  type Rows = seq<Row<Metadata>>

  /** What happens to one bulk request: an answer that rejects some creates, or none at
      all, the request having been applied to some of them. */
  datatype Attempt = Reply(rejected: set<string>) | Lost(applied: set<string>)

  /** `create` fails on an id that is already indexed. */
  function Applied(index: set<string>, ids: set<string>, a: Attempt): set<string> {
    match a
    case Reply(rejected) => index + (ids - rejected)
    case Lost(applied) => index + (ids * applied)
  }

  /** The answer reports no error. */
  predicate Clean(index: set<string>, ids: set<string>, a: Attempt) {
    a.Reply? && ids !! index && ids !! a.rejected
  }

  /** The index after the attempts, and whether one of them came back clean. */
  function Retried(index: set<string>, ids: set<string>, attempts: seq<Attempt>): (set<string>, bool)
    decreases |attempts|
  {
    if attempts == [] then (index, false)
    else if Clean(index, ids, attempts[0]) then (Applied(index, ids, attempts[0]), true)
    else Retried(Applied(index, ids, attempts[0]), ids, attempts[1..])
  }

  /** `getMetadataList`: an empty `fromId` means no lower bound, a limit of zero means no
      limit. */
  function MetadataList(rows: Rows, limit: nat, fromId: string): Rows {
    var found := if fromId == "" then Sort(rows) else After(Sort(rows), Cursor(0, fromId));
    if limit == 0 then found else Take(found, limit)
  }

  /** The first page of the rows left. */
  function PageOf(rest: Rows, limit: nat): Rows { if limit == 0 then rest else Take(rest, limit) }

  /** The pages of the rows left. */
  function Pages(rest: Rows, limit: nat): seq<Rows>
    decreases |rest|
  {
    if rest == [] then [] else [PageOf(rest, limit)] + Pages(rest[|PageOf(rest, limit)|..], limit)
  }

  predicate Mappable(r: Row<Metadata>) { r.value.mappable }

  function MappableOf(rs: Rows): seq<string> {
    if rs == [] then [] else MappableOf(rs[..|rs| - 1]) + if Mappable(rs[|rs| - 1]) then [rs[|rs| - 1].value.id] else []
  }

  function IdsOf(rs: Rows): seq<string> {
    if rs == [] then [] else IdsOf(rs[..|rs| - 1]) + [rs[|rs| - 1].value.id]
  }

  /** Each row is keyed by its `_id`, and no two share one. */
  ghost predicate KeyedById(rows: Rows) {
    UniqueKeys(rows) && forall r :: r in rows ==> r.key == Cursor(0, r.value.id)
  }

  /** The first page does not end in the empty string, so the cursor moves. */
  predicate Advances(rows: Rows, limit: nat) {
    var page := MetadataList(rows, limit, "");
    page == [] || page[|page| - 1].value.id != ""
  }

  /** The index after one page, and whether the page succeeded. */
  function AfterPage(index: set<string>, page: Rows, attempts: seq<Attempt>): (set<string>, bool) {
    if MappableOf(page) == [] then (index, true) else Retried(index, SetOf(MappableOf(page)), attempts)
  }

  /** The index, and the rows of the pages that succeeded and of those that failed. */
  datatype Tally = Tally(index: set<string>, indexed: Rows, failed: Rows)

  function Tallied(t: Tally, page: Rows, attempts: seq<Attempt>): Tally {
    var (index, ok) := AfterPage(t.index, page, attempts);
    if ok then Tally(index, t.indexed + page, t.failed) else Tally(index, t.indexed, t.failed + page)
  }

  /** What the pages leave, started from this index. */
  function Outcome(pages: seq<Rows>, tries: nat -> seq<Attempt>, index: set<string>): Tally {
    if pages == [] then Tally(index, [], [])
    else Tallied(Outcome(pages[..|pages| - 1], tries, index), pages[|pages| - 1], tries(|pages| - 1))
  }

  class MetadataIndexerService {
    var index: set<string>

    constructor (index: set<string>)
      ensures this.index == index
    {
      this.index := index;
    }

    /** `attempts` is what the search service does, one entry per allowed try. */
    method BulkWithRetry(ids: set<string>, attempts: seq<Attempt>) returns (ok: bool)
      modifies this
      ensures (index, ok) == Retried(old(index), ids, attempts)
    {
      var i := 0;
      while i < |attempts|
        invariant i <= |attempts|
        invariant Retried(index, ids, attempts[i..]) == Retried(old(index), ids, attempts)
      {
        var errors := !Clean(index, ids, attempts[i]);
        assert attempts[i..][1..] == attempts[i + 1..];
        index := Applied(index, ids, attempts[i]);
        if !errors {
          return true;
        }
        i := i + 1;
      }
      return false;
    }

    /** One page's bulk call. */
    method IndexPage(page: Rows, attempts: seq<Attempt>) returns (ok: bool, items: nat)
      modifies this
      ensures items == |MappableOf(page)|
      ensures (index, ok) == AfterPage(old(index), page, attempts)
    {
      var bulk := MappableOf(page);
      items := |bulk|;
      if items == 0 {
        return true, items;
      }
      ok := BulkWithRetry(SetOf(bulk), attempts);
    }

    /** `tries(k)` is what happens to the bulk calls of page `k`. `stuck`: the cursor has not
        moved, and from here on the loop asks for the same page for ever. */
    method Process(rows: Rows, limit: nat, tries: nat -> seq<Attempt>)
      returns (stuck: bool, processedItemsCount: nat, indexedItemsCount: nat, failedMetadataIds: seq<string>,
               ghost visited: Rows, ghost indexed: Rows, ghost failed: Rows)
      requires KeyedById(rows)
      modifies this
      ensures stuck <==> !Advances(rows, limit)
      ensures !stuck ==> Tally(index, indexed, failed) == Outcome(Pages(Sort(rows), limit), tries, old(index))
      ensures !stuck ==> visited == Sort(rows) && processedItemsCount == |rows|
      ensures stuck ==> visited == [] && processedItemsCount == 0 && index == old(index)
      ensures indexedItemsCount == |MappableOf(indexed)| && failedMetadataIds == IdsOf(failed)
      ensures Accounted(visited, indexed, failed, index)
    {
      stuck, processedItemsCount, indexedItemsCount, failedMetadataIds := false, 0, 0, [];
      visited, indexed, failed := [], [], [];
      var nextFromId := "";
      var page := MetadataList(rows, limit, nextFromId);
      ghost var rest := Sort(rows);
      ghost var done := [];
      ghost var index0 := index;
      var k := 0;
      while page != []
        invariant page == MetadataList(rows, limit, nextFromId) && k == |done|
        invariant Going(rows, limit, tries, index0, nextFromId, done, rest, visited, Tally(index, indexed, failed))
        invariant Counted(visited, indexed, failed, processedItemsCount, indexedItemsCount, failedMetadataIds)
        invariant Accounted(visited, indexed, failed, index)
        decreases |rest|
      {
        if page[|page| - 1].value.id == "" {
          StaysAtStart(rows, limit, tries, index0, nextFromId, done, rest, visited, Tally(index, indexed, failed),
                       page);
          return true, processedItemsCount, indexedItemsCount, failedMetadataIds, visited, indexed, failed;
        }
        GoesOn(rows, limit, tries, index0, nextFromId, done, rest, visited, Tally(index, indexed, failed), page);
        nextFromId := page[|page| - 1].value.id;
        processedItemsCount := processedItemsCount + |page|;
        ghost var before := index;
        var ok, items := IndexPage(page, tries(k));
        AccountPage(visited, indexed, failed, before, page, tries(k), index, ok);
        if ok {
          indexedItemsCount := indexedItemsCount + items;
          indexed := indexed + page;
        } else {
          failedMetadataIds := failedMetadataIds + IdsOf(page);
          failed := failed + page;
        }
        visited, rest, done := visited + page, rest[|page|..], done + [page];
        page := MetadataList(rows, limit, nextFromId);
        k := k + 1;
      }
      AllTallied(rows, limit, tries, index0, nextFromId, done, rest, visited, Tally(index, indexed, failed));
    }
  }

  function SetOf(ids: seq<string>): set<string> { set id | id in ids }

  /** The rows from the cursor on. */
  ghost predicate Remaining(rows: Rows, fromId: string, rest: Rows) {
    rest == if fromId == "" then Sort(rows) else After(Sort(rows), Cursor(0, fromId))
  }

  /** The rows are those visited and those from the cursor on. */
  ghost predicate Paging(rows: Rows, limit: nat, fromId: string, visited: Rows, rest: Rows) {
    Remaining(rows, fromId, rest) && Sort(rows) == visited + rest && (fromId != "" ==> Advances(rows, limit))
  }

  ghost predicate Counted(visited: Rows, indexed: Rows, failed: Rows, processedItems: nat, indexedItems: nat,
                          failedIds: seq<string>)
  {
    processedItems == |visited| && indexedItems == |MappableOf(indexed)| && failedIds == IdsOf(failed)
  }

  /** Every row visited is on an indexed page, with its document in the index if it has
      one, or on a failed page, which is reported. */
  ghost predicate Accounted(visited: Rows, indexed: Rows, failed: Rows, index: set<string>) {
    && (forall r :: r in visited <==> r in indexed || r in failed)
    && (forall r :: r in indexed && Mappable(r) ==> r.value.id in index)
  }

  /** The pages `done` have been tallied in `t`, and the rows in `rest` are left. */
  ghost predicate Going(rows: Rows, limit: nat, tries: nat -> seq<Attempt>, index0: set<string>,
                        fromId: string, done: seq<Rows>, rest: Rows, visited: Rows, t: Tally) {
    && Paging(rows, limit, fromId, visited, rest)
    && Pages(Sort(rows), limit) == done + Pages(rest, limit) && t == Outcome(done, tries, index0)
    && (fromId == "" ==> done == [])
  }

  lemma GoesOn(rows: Rows, limit: nat, tries: nat -> seq<Attempt>, index0: set<string>,
               fromId: string, done: seq<Rows>, rest: Rows, visited: Rows, t: Tally, page: Rows)
    requires KeyedById(rows) && Going(rows, limit, tries, index0, fromId, done, rest, visited, t)
    requires page == MetadataList(rows, limit, fromId) && page != [] && page[|page| - 1].value.id != ""
    ensures |page| <= |rest|
    ensures Going(rows, limit, tries, index0, page[|page| - 1].value.id, done + [page], rest[|page|..], visited + page,
                  Tallied(t, page, tries(|done|)))
  {
    NextFrom(rows, limit, fromId, visited, rest, page);
    NextTally(Sort(rows), limit, done, rest, page, tries, index0);
  }

  lemma AllTallied(rows: Rows, limit: nat, tries: nat -> seq<Attempt>, index0: set<string>,
                   fromId: string, done: seq<Rows>, rest: Rows, visited: Rows, t: Tally)
    requires Going(rows, limit, tries, index0, fromId, done, rest, visited, t)
      && MetadataList(rows, limit, fromId) == []
    ensures visited == Sort(rows) && |visited| == |rows| && Advances(rows, limit)
    ensures t == Outcome(Pages(Sort(rows), limit), tries, index0)
  {
    PagingEnds(rows, limit, fromId, visited, rest);
    AppendNone(done);
  }

  // ---- The pages together ----

  /** One more page. */
  lemma NextTally(sorted: Rows, limit: nat, done: seq<Rows>, rest: Rows, page: Rows, tries: nat -> seq<Attempt>,
                  index: set<string>)
    requires Pages(sorted, limit) == done + Pages(rest, limit) && page == PageOf(rest, limit) && page != []
    ensures Pages(sorted, limit) == (done + [page]) + Pages(rest[|page|..], limit)
    ensures Outcome(done + [page], tries, index) == Tallied(Outcome(done, tries, index), page, tries(|done|))
  {
    assert (done + [page])[..|done|] == done;
    assert done + ([page] + Pages(rest[|page|..], limit)) == (done + [page]) + Pages(rest[|page|..], limit);
  }

  function Joined(pages: seq<Rows>): Rows {
    if pages == [] then [] else pages[0] + Joined(pages[1..])
  }

  lemma {:induction false} JoinedAppend(pages: seq<Rows>, page: Rows)
    ensures Joined(pages + [page]) == Joined(pages) + page
  {
    if pages == [] {
      assert [page][1..] == [];
    } else {
      JoinedAppend(pages[1..], page);
      assert (pages + [page])[1..] == pages[1..] + [page];
    }
  }

  /** The pages are the rows, cut. */
  lemma {:induction false} PagesJoin(rest: Rows, limit: nat)
    ensures Joined(Pages(rest, limit)) == rest
    decreases |rest|
  {
    if rest != [] {
      var page := PageOf(rest, limit);
      PagesJoin(rest[|page|..], limit);
      assert ([page] + Pages(rest[|page|..], limit))[1..] == Pages(rest[|page|..], limit);
      assert rest == page + rest[|page|..];
    }
  }

  /** Every page but the last has `limit` rows, the last one at most that many and at least
      one; without a limit there is one page. */
  lemma {:induction false} PageSizes(rest: Rows, limit: nat, j: nat)
    requires j < |Pages(rest, limit)|
    ensures limit == 0 ==> |Pages(rest, limit)| == 1
    ensures 0 < limit ==> 1 <= |Pages(rest, limit)[j]| <= limit
    ensures 0 < limit && j < |Pages(rest, limit)| - 1 ==> |Pages(rest, limit)[j]| == limit
    decreases j
  {
    var page := PageOf(rest, limit);
    assert Pages(rest, limit) == [page] + Pages(rest[|page|..], limit);
    if 0 < j {
      PageSizes(rest[|page|..], limit, j - 1);
    }
  }

  /** Each row is on a page that succeeded or on one that failed, as often as it is on a page. */
  lemma {:induction false} OutcomeSplits(pages: seq<Rows>, tries: nat -> seq<Attempt>, index: set<string>)
    ensures var o := Outcome(pages, tries, index); multiset(Joined(pages)) == multiset(o.indexed) + multiset(o.failed)
  {
    if pages != [] {
      var init, page := pages[..|pages| - 1], pages[|pages| - 1];
      OutcomeSplits(init, tries, index);
      JoinedAppend(init, page);
      assert pages == init + [page];
    }
  }

  /** The rows tallied are all rows, each once, on one side. */
  lemma EachRowOnce(rows: Rows, limit: nat, tries: nat -> seq<Attempt>, index: set<string>)
    requires KeyedById(rows)
    ensures var o := Outcome(Pages(Sort(rows), limit), tries, index);
      && multiset(rows) == multiset(o.indexed) + multiset(o.failed)
      && forall r :: r in rows ==> (r in o.indexed <==> r !in o.failed)
  {
    var o := Outcome(Pages(Sort(rows), limit), tries, index);
    PagesJoin(Sort(rows), limit);
    OutcomeSplits(Pages(Sort(rows), limit), tries, index);
    SortCounts(rows);
    forall r | r in rows ensures r in o.indexed <==> r !in o.failed {
      CountOnce(rows, r);
      assert multiset(rows)[r] == multiset(o.indexed)[r] + multiset(o.failed)[r];
    }
  }

  lemma {:induction false} CountOnce(rows: Rows, r: Row<Metadata>)
    requires UniqueKeys(rows)
    ensures multiset(rows)[r] == if r in rows then 1 else 0
  {
    if rows != [] {
      CountOnce(rows[1..], r);
      assert rows == [rows[0]] + rows[1..];
    }
  }

  /** Later pages add to the tally and take nothing away. */
  lemma {:induction false} TallyGrows(pages: seq<Rows>, tries: nat -> seq<Attempt>, index: set<string>, j: nat)
    requires j <= |pages|
    ensures var t, o := Outcome(pages[..j], tries, index), Outcome(pages, tries, index);
      t.index <= o.index && t.indexed <= o.indexed && t.failed <= o.failed
  {
    if j == |pages| {
      assert pages[..j] == pages;
    } else {
      var init := pages[..|pages| - 1];
      TallyGrows(init, tries, index, j);
      assert init[..j] == pages[..j];
      var t := Outcome(init, tries, index);
      RetriedSound(t.index, SetOf(MappableOf(pages[|pages| - 1])), tries(|pages| - 1));
    }
  }

  /** Some attempt at the page's documents is clean, and every earlier one indexed nothing;
      or the page has none. */
  ghost predicate CanSucceed(index: set<string>, page: Rows, attempts: seq<Attempt>) {
    var ids := SetOf(MappableOf(page));
    ids == {} || exists k :: 0 <= k < |attempts| && Clean(index, ids, attempts[k])
                             && forall j :: 0 <= j < k ==> Applied(index, ids, attempts[j]) == index
  }

  lemma PageSucceedsIff(index: set<string>, page: Rows, attempts: seq<Attempt>)
    ensures AfterPage(index, page, attempts).1 <==> CanSucceed(index, page, attempts)
  {
    var ids := MappableOf(page);
    if ids == [] {
      assert SetOf(ids) == {};
    } else {
      assert ids[0] in SetOf(ids);
      RetriedIff(index, SetOf(ids), attempts);
    }
  }

  lemma PageTallied(pages: seq<Rows>, tries: nat -> seq<Attempt>, index: set<string>, j: nat)
    requires j < |pages|
    ensures var t, o := Outcome(pages[..j], tries, index), Outcome(pages, tries, index);
      forall r :: r in pages[j] ==> if AfterPage(t.index, pages[j], tries(j)).1 then r in o.indexed else r in o.failed
  {
    var t := Outcome(pages[..j], tries, index);
    TallyGrows(pages, tries, index, j + 1);
    assert pages[..j + 1][..j] == pages[..j];
    assert Outcome(pages[..j + 1], tries, index) == Tallied(t, pages[j], tries(j));
  }

  /** Which rows count as indexed and which are reported: those of page `j` are indexed if
      and only if, over the index the pages before it left, some attempt at the page is clean
      and every earlier one indexed nothing, or the page has nothing to index; and else they
      are reported. */
  lemma PageIndexedIff(rows: Rows, limit: nat, tries: nat -> seq<Attempt>, index: set<string>, j: nat, r: Row<Metadata>)
    requires KeyedById(rows) && j < |Pages(Sort(rows), limit)| && r in Pages(Sort(rows), limit)[j]
    ensures
      var pages := Pages(Sort(rows), limit);
      var before, o := Outcome(pages[..j], tries, index).index, Outcome(pages, tries, index);
      && (r in o.indexed <==> CanSucceed(before, pages[j], tries(j)))
      && (r in o.failed <==> !CanSucceed(before, pages[j], tries(j)))
  {
    var pages := Pages(Sort(rows), limit);
    PageSucceedsIff(Outcome(pages[..j], tries, index).index, pages[j], tries(j));
    PageTallied(pages, tries, index, j);
    EachRowOnce(rows, limit, tries, index);
    PagesJoin(Sort(rows), limit);
    InJoined(pages, j, r);
    SortCounts(rows);
    assert r in multiset(Sort(rows));
  }

  lemma {:induction false} InJoined(pages: seq<Rows>, j: nat, r: Row<Metadata>)
    requires j < |pages| && r in pages[j]
    ensures r in Joined(pages)
  {
    if 0 < j {
      InJoined(pages[1..], j - 1, r);
    }
  }

  // ---- Retries ----

  /** What one bulk request indexes: a document of an answered request unless it is rejected,
      of an unanswered one if it was applied. Its answer is clean exactly if there is one and no
      document is rejected or was indexed already. */
  lemma AttemptIs(index: set<string>, ids: set<string>, a: Attempt, id: string)
    ensures id in Applied(index, ids, a) <==>
      id in index || (id in ids && if a.Reply? then id !in a.rejected else id in a.applied)
    ensures Clean(index, ids, a) <==> a.Reply? && forall x :: x in ids ==> x !in index && x !in a.rejected
  {
  }

  /** Retrying only adds documents of the page, and a clean answer means all are there. */
  lemma {:induction false} RetriedSound(index: set<string>, ids: set<string>, attempts: seq<Attempt>)
    ensures index <= Retried(index, ids, attempts).0 <= index + ids
    ensures Retried(index, ids, attempts).1 ==> ids <= Retried(index, ids, attempts).0
    decreases |attempts|
  {
    if attempts != [] && !Clean(index, ids, attempts[0]) {
      RetriedSound(Applied(index, ids, attempts[0]), ids, attempts[1..]);
    }
  }

  /** Once a document of the page is indexed no attempt can come back clean, because
      `create` refuses it: a partial success dooms the remaining retries. */
  lemma {:induction false} PartialSuccessDooms(index: set<string>, ids: set<string>, attempts: seq<Attempt>)
    requires !(ids !! index)
    ensures !Retried(index, ids, attempts).1
    decreases |attempts|
  {
    if attempts != [] {
      PartialSuccessDooms(Applied(index, ids, attempts[0]), ids, attempts[1..]);
    }
  }

  /** A page succeeds if and only if some attempt is clean and every earlier one indexed
      nothing at all. */
  lemma {:induction false} RetriedIff(index: set<string>, ids: set<string>, attempts: seq<Attempt>)
    requires ids != {}
    ensures Retried(index, ids, attempts).1 <==>
      exists k :: 0 <= k < |attempts| && Clean(index, ids, attempts[k])
        && forall j :: 0 <= j < k ==> Applied(index, ids, attempts[j]) == index
    decreases |attempts|
  {
    if attempts != [] {
      var a, rest := attempts[0], attempts[1..];
      if Clean(index, ids, a) {
        assert attempts[0] == a;
      } else if Applied(index, ids, a) == index {
        RetriedIff(index, ids, rest);
        ShiftAttempts(index, ids, attempts);
      } else {
        PartialSuccessDooms(Applied(index, ids, a), ids, rest);
      }
    }
  }

  lemma ShiftAttempts(index: set<string>, ids: set<string>, attempts: seq<Attempt>)
    requires attempts != [] && !Clean(index, ids, attempts[0]) && Applied(index, ids, attempts[0]) == index
    ensures
      (exists k :: 0 <= k < |attempts| && Clean(index, ids, attempts[k])
                   && forall j :: 0 <= j < k ==> Applied(index, ids, attempts[j]) == index)
      <==>
      (exists k :: 0 <= k < |attempts[1..]| && Clean(index, ids, attempts[1..][k])
                   && forall j :: 0 <= j < k ==> Applied(index, ids, attempts[1..][j]) == index)
  {
    var rest := attempts[1..];
    if k :|
        0 <= k < |attempts| && Clean(index, ids, attempts[k])
        && forall j :: 0 <= j < k ==> Applied(index, ids, attempts[j]) == index {
      assert Clean(index, ids, rest[k - 1]);
      forall j | 0 <= j < k - 1 ensures Applied(index, ids, rest[j]) == index {
        assert rest[j] == attempts[j + 1];
      }
    }
    if k :|
        0 <= k < |rest| && Clean(index, ids, rest[k])
        && forall j :: 0 <= j < k ==> Applied(index, ids, rest[j]) == index {
      assert Clean(index, ids, attempts[k + 1]);
      forall j | 0 <= j < k + 1 ensures Applied(index, ids, attempts[j]) == index {
        if 0 < j {
          assert attempts[j] == rest[j - 1];
        }
      }
    }
  }

  // ---- Pages ----

  lemma {:induction false} MappableIn(rs: Rows, id: string)
    ensures id in MappableOf(rs) <==> exists r :: r in rs && r.value.mappable && r.value.id == id
  {
    if rs != [] {
      MappableIn(rs[..|rs| - 1], id);
      assert rs == rs[..|rs| - 1] + [rs[|rs| - 1]];
    }
  }

  lemma {:induction false} MappableConcat(a: Rows, b: Rows)
    ensures MappableOf(a + b) == MappableOf(a) + MappableOf(b)
    ensures IdsOf(a + b) == IdsOf(a) + IdsOf(b)
  {
    if b == [] {
      assert a + b == a;
    } else {
      MappableConcat(a, b[..|b| - 1]);
      assert (a + b)[..|a + b| - 1] == a + b[..|b| - 1];
    }
  }

  /** The documents of one row, and its reported id. */
  lemma OneRow(r: Row<Metadata>)
    ensures MappableOf([r]) == if r.value.mappable then [r.value.id] else []
    ensures IdsOf([r]) == [r.value.id]
  {
    assert [r][..0] == [];
  }

  /** The reported ids are those of the rows, in order. */
  lemma {:induction false} IdsAt(rs: Rows, i: nat)
    requires i < |rs|
    ensures |IdsOf(rs)| == |rs| && IdsOf(rs)[i] == rs[i].value.id
  {
    if i < |rs| - 1 {
      IdsAt(rs[..|rs| - 1], i);
    } else if 0 < i {
      IdsAt(rs[..|rs| - 1], i - 1);
    }
  }

  lemma AccountPage(visited: Rows, indexed: Rows, failed: Rows, before: set<string>, page: Rows, attempts: seq<Attempt>,
                    index: set<string>, ok: bool)
    requires Accounted(visited, indexed, failed, before)
    requires (index, ok) == AfterPage(before, page, attempts)
    ensures before <= index
    ensures ok ==> Accounted(visited + page, indexed + page, failed, index)
    ensures ok ==> MappableOf(indexed + page) == MappableOf(indexed) + MappableOf(page)
    ensures !ok ==> Accounted(visited + page, indexed, failed + page, index)
    ensures !ok ==> IdsOf(failed + page) == IdsOf(failed) + IdsOf(page)
  {
    RetriedSound(before, SetOf(MappableOf(page)), attempts);
    MappableConcat(indexed, page);
    MappableConcat(failed, page);
    if ok {
      forall r | r in indexed + page && Mappable(r) ensures r.value.id in index {
        if r in page {
          MappableIn(page, r.value.id);
          assert r.value.id in SetOf(MappableOf(page));
        }
      }
    }
  }

  lemma SortedKeyed(rows: Rows)
    requires KeyedById(rows)
    ensures Ascending(Sort(rows)) && forall r :: r in Sort(rows) ==> r.key == Cursor(0, r.value.id)
  {
    SortAscending(rows);
    SortCounts(rows);
    forall r | r in Sort(rows) ensures r.key == Cursor(0, r.value.id) {
      assert r in multiset(Sort(rows));
    }
  }

  /** The next cursor is a real one and leaves the rows after the page. */
  lemma NextFrom(rows: Rows, limit: nat, fromId: string, visited: Rows, rest: Rows, page: Rows)
    requires KeyedById(rows) && Paging(rows, limit, fromId, visited, rest)
    requires page == MetadataList(rows, limit, fromId) && page != [] && page[|page| - 1].value.id != ""
    ensures |page| <= |rest| && Paging(rows, limit, page[|page| - 1].value.id, visited + page, rest[|page|..])
  {
    assert page == rest[..|page|];
    CursorMoves(rows, limit, fromId, rest, page);
    SplitRest(visited, rest, page);
  }

  lemma SplitRest(visited: Rows, rest: Rows, page: Rows)
    requires page <= rest
    ensures visited + rest == (visited + page) + rest[|page|..]
  {
  }

  lemma CursorMoves(rows: Rows, limit: nat, fromId: string, rest: Rows, page: Rows)
    requires KeyedById(rows) && Remaining(rows, fromId, rest)
    requires page == MetadataList(rows, limit, fromId) && page != [] && page <= rest && page[|page| - 1].value.id != ""
    ensures Remaining(rows, page[|page| - 1].value.id, rest[|page|..])
  {
    var s, k := Sort(rows), |page|;
    var last := page[k - 1];
    SortedKeyed(rows);
    assert last == rest[k - 1];
    if fromId == "" {
      assert last in s;
      WholeNextPage(s, k);
    } else {
      assert last in rest;
      AfterIn(s, Cursor(0, fromId), last);
      NextPage(s, Cursor(0, fromId), k);
    }
  }

  /** Only the first page can end in the empty string. */
  lemma StaysAtStart(rows: Rows, limit: nat, tries: nat -> seq<Attempt>, index0: set<string>,
                     fromId: string, done: seq<Rows>, rest: Rows, visited: Rows, t: Tally, page: Rows)
    requires KeyedById(rows) && Going(rows, limit, tries, index0, fromId, done, rest, visited, t)
    requires page == MetadataList(rows, limit, fromId) && page != [] && page[|page| - 1].value.id == ""
    ensures !Advances(rows, limit) && visited == [] && t == Tally(index0, [], [])
  {
    if fromId != "" {
      var last := page[|page| - 1];
      SortedKeyed(rows);
      assert last in rest;
      AfterIn(Sort(rows), Cursor(0, fromId), last);
      assert false;
    }
  }

  lemma WholeNextPage(s: Rows, k: nat)
    requires Ascending(s) && 0 < k <= |s|
    ensures After(s, s[k - 1].key) == s[k..]
  {
    var last := s[k - 1].key;
    forall i | 0 <= i < k ensures !Less(last, s[i].key) {
      LessTotal(last, s[i].key);
    }
    SuffixUnique(s, last, k);
  }

  lemma PagingEnds(rows: Rows, limit: nat, fromId: string, visited: Rows, rest: Rows)
    requires Paging(rows, limit, fromId, visited, rest) && MetadataList(rows, limit, fromId) == []
    ensures visited == Sort(rows) && |visited| == |rows| && Advances(rows, limit)
  {
    SortCounts(rows);
    AppendNone(visited);
    assert |multiset(visited)| == |multiset(rows)|;
  }

  /** The loop is stuck, asking for the same page for ever, exactly when the least `_id`
      is the empty string and fills a page by itself. */
  lemma StuckIff(rows: Rows, limit: nat)
    requires KeyedById(rows)
    ensures !Advances(rows, limit) <==> (exists r :: r in rows && r.value.id == "") && (limit == 1 || |rows| == 1)
  {
    var s, page := Sort(rows), MetadataList(rows, limit, "");
    SortedKeyed(rows);
    SortCounts(rows);
    assert |s| == |rows| by { assert |multiset(s)| == |multiset(rows)|; }
    forall i | 0 < i < |s| ensures s[i].value.id != "" {
      assert Less(s[0].key, s[i].key);
      assert s[i] in s && s[0] in s;
    }
    if r :| r in rows && r.value.id == "" {
      assert r in multiset(s);
      assert r in s;
    }
    if s != [] && s[0].value.id == "" {
      assert s[0] in multiset(rows);
    }
  }
}
