/** The command-line paging loops over the tokens collection (src/tokens-reader/index.ts
    with src/shared/tokens/repo.ts). */
module TokensReader {
  import opened Prelude
  import opened Keyset

  datatype Token = Token(id: string, block: int, createdAt: int, tokenUri: Option<string>)

  /** `getCreatedAfter2` sorts all tokens by creation time and `_id`. */
  function ByCreation(ts: seq<Token>): seq<Row<Token>> {
    if ts == [] then []
    else ByCreation(ts[..|ts| - 1]) + [Row(Cursor(ts[|ts| - 1].createdAt, ts[|ts| - 1].id), ts[|ts| - 1])]
  }

  /** `listForBlockRange` sorts the tokens below `end` by block and `_id`. */
  function ByBlock(ts: seq<Token>, end: int): seq<Row<Token>> {
    if ts == [] then []
    else
      var t := ts[|ts| - 1];
      ByBlock(ts[..|ts| - 1], end) + if t.block < end then [Row(Cursor(t.block, t.id), t)] else []
  }

  predicate HasUri(t: Token) { t.tokenUri.Some? && t.tokenUri.value != "" }

  /** The tokens a loop acts on: not yet in the metadata collection, if it only looks for
      missing metadata, and with a URI. */
  predicate Wanted(t: Token, metadata: set<string>, missingMetadata: bool) {
    (missingMetadata ==> t.id !in metadata) && HasUri(t)
  }

  function WantedOf(rs: seq<Row<Token>>, metadata: set<string>, missingMetadata: bool): seq<Token> {
    if rs == [] then []
    else
      WantedOf(rs[..|rs| - 1], metadata, missingMetadata) +
      if Wanted(rs[|rs| - 1].value, metadata, missingMetadata) then [rs[|rs| - 1].value] else []
  }

  /** The rows of a page the loop keeps when it only looks for missing metadata. */
  function MissingOf(rs: seq<Row<Token>>, metadata: set<string>): seq<Row<Token>> {
    if rs == [] then []
    else MissingOf(rs[..|rs| - 1], metadata) + if rs[|rs| - 1].value.id in metadata then [] else [rs[|rs| - 1]]
  }

  ghost predicate UniqueIds(ts: seq<Token>) {
    forall i, j :: 0 <= i < j < |ts| ==> ts[i].id != ts[j].id
  }

  /** One page's inner loop: READ_METADATA for each token with a URI. */
  method SendPage(page: seq<Row<Token>>, metadata: set<string>, missingMetadata: bool) returns (sent: seq<Token>)
    ensures sent == WantedOf(page, metadata, missingMetadata)
  {
    var rows := if missingMetadata then MissingOf(page, metadata) else page;
    WantedOfMissing(page, metadata);
    sent := [];
    for i := 0 to |rows|
      invariant sent == WantedOf(rows[..i], {}, false)
    {
      assert rows[..i + 1][..i] == rows[..i];
      var t := rows[i].value;
      if t.tokenUri.None? || t.tokenUri.value == "" {
        continue;
      }
      sent := sent + [t];
    }
    assert rows[..|rows|] == rows;
    WantedOfAll(page, metadata);
  }

  ghost predicate Split<T>(all: seq<T>, visited: seq<T>, rest: seq<T>) { all == visited + rest }

  lemma NothingVisited<T>(rest: seq<T>)
    ensures Split(rest, [], rest)
  {
    assert [] + rest == rest;
  }

  lemma PageVisited<T>(all: seq<T>, visited: seq<T>, rest: seq<T>, k: nat)
    requires Split(all, visited, rest) && k <= |rest|
    ensures Split(all, visited + rest[..k], rest[k..])
  {
    assert rest == rest[..k] + rest[k..];
  }

  /** The paging loop both commands share: `rows` is the collection in the order of the
      command's query. */
  method ReadPages(rows: seq<Row<Token>>, start: Cursor, batchLimit: nat, metadata: set<string>, missingMetadata: bool)
    returns (sent: seq<Token>, ghost visited: seq<Row<Token>>)
    requires UniqueKeys(rows) && 1 <= batchLimit
    ensures visited == After(Sort(rows), start)
    ensures sent == WantedOf(After(Sort(rows), start), metadata, missingMetadata)
  {
    var c := start;
    sent, visited := [], [];
    SortAscending(rows);
    ghost var rest := After(Sort(rows), start);
    NothingVisited(rest);
    while true
      invariant rest == After(Sort(rows), c) && Split(After(Sort(rows), start), visited, rest)
      invariant sent == WantedOf(visited, metadata, missingMetadata)
      decreases |rest|
    {
      var page := Page(rows, c, batchLimit);
      if |page| == 0 {
        AppendNone(visited);
        return;
      }
      NextPage(Sort(rows), c, |page|);
      c := page[|page| - 1].key;
      var more := SendPage(page, metadata, missingMetadata);
      WantedOfConcat(visited, page, metadata, missingMetadata);
      sent := sent + more;
      PageVisited(After(Sort(rows), start), visited, rest, |page|);
      visited, rest := visited + page, rest[|page|..];
    }
  }

  method FillMetadataQueue(tokens: seq<Token>, metadata: set<string>, id: string, createdAt: Option<int>,
                           batchLimit: nat, missingMetadata: bool)
    returns (sent: seq<Token>, ghost visited: seq<Row<Token>>)
    requires UniqueIds(tokens) && 1 <= batchLimit
    ensures visited == After(Sort(ByCreation(tokens)), Cursor(if createdAt.Some? then createdAt.value else 0, id))
    ensures
      var start := Cursor(if createdAt.Some? then createdAt.value else 0, id);
      sent == WantedOf(After(Sort(ByCreation(tokens)), start), metadata, missingMetadata)
  {
    CreationKeys(tokens);
    sent, visited :=
      ReadPages(ByCreation(tokens), Cursor(if createdAt.Some? then createdAt.value else 0, id), batchLimit, metadata,
                missingMetadata);
  }

  /** The lines written to the file are those of the tokens sent here. */
  method CountTokenUrisForBlockRange(tokens: seq<Token>, metadata: set<string>, id: string, start: int, end: int,
                                     batchLimit: nat, missingMetadata: bool)
    returns (nonEmptyCount: nat, lines: seq<Token>, ghost visited: seq<Row<Token>>)
    requires UniqueIds(tokens) && 1 <= batchLimit
    ensures visited == After(Sort(ByBlock(tokens, end)), Cursor(start, id))
    ensures lines == WantedOf(After(Sort(ByBlock(tokens, end)), Cursor(start, id)), metadata, missingMetadata)
      && nonEmptyCount == |lines|
  {
    BlockKeys(tokens, end);
    lines, visited := ReadPages(ByBlock(tokens, end), Cursor(start, id), batchLimit, metadata, missingMetadata);
    nonEmptyCount := |lines|;
  }

  // ---- What the loops visit and send ----

  function CreationRow(t: Token): Row<Token> { Row(Cursor(t.createdAt, t.id), t) }

  function BlockRow(t: Token): Row<Token> { Row(Cursor(t.block, t.id), t) }

  lemma {:induction false} CreationRows(ts: seq<Token>)
    ensures |ByCreation(ts)| == |ts|
    ensures forall i :: 0 <= i < |ts| ==> ByCreation(ts)[i] == CreationRow(ts[i])
  {
    if ts != [] {
      CreationRows(ts[..|ts| - 1]);
    }
  }

  lemma CreationKeys(ts: seq<Token>)
    requires UniqueIds(ts)
    ensures UniqueKeys(ByCreation(ts))
  {
    CreationRows(ts);
  }

  lemma {:induction false} BlockRows(ts: seq<Token>, end: int)
    ensures forall r :: r in ByBlock(ts, end) <==> r == BlockRow(r.value) && r.value in ts && r.value.block < end
  {
    if ts != [] {
      BlockRows(ts[..|ts| - 1], end);
      assert ts == ts[..|ts| - 1] + [ts[|ts| - 1]];
    }
  }

  lemma {:induction false} BlockKeys(ts: seq<Token>, end: int)
    requires UniqueIds(ts)
    ensures UniqueKeys(ByBlock(ts, end))
  {
    if ts != [] {
      var init, t := ts[..|ts| - 1], ts[|ts| - 1];
      BlockKeys(init, end);
      BlockRows(init, end);
      forall i | 0 <= i < |ByBlock(init, end)| ensures ByBlock(init, end)[i].key != BlockRow(t).key {
        assert ByBlock(init, end)[i] in ByBlock(init, end);
      }
    }
  }

  lemma SortedIn(rs: seq<Row<Token>>, r: Row<Token>)
    ensures r in Sort(rs) <==> r in rs
  {
    SortCounts(rs);
    assert r in multiset(Sort(rs)) <==> r in multiset(rs);
  }

  lemma AfterAscending(rs: seq<Row<Token>>, c: Cursor)
    requires UniqueKeys(rs)
    ensures Ascending(After(Sort(rs), c))
  {
    SortAscending(rs);
    var m := AfterIsSuffix(Sort(rs), c);
  }

  /** The pages of `fill-metadata-queue`, put together, visit every token after the start
      cursor once, in strictly ascending (createdAt, _id) order, ties included. */
  lemma CreationVisitsOnce(tokens: seq<Token>, start: Cursor, r: Row<Token>)
    requires UniqueIds(tokens)
    ensures Ascending(After(Sort(ByCreation(tokens)), start))
    ensures r in After(Sort(ByCreation(tokens)), start)
      <==>
        && r.value in tokens && r.key.n == r.value.createdAt && r.key.id == r.value.id
        && (start.n < r.value.createdAt || (start.n == r.value.createdAt && Before(start.id, r.value.id)))
  {
    CreationKeys(tokens);
    CreationRows(tokens);
    AfterAscending(ByCreation(tokens), start);
    AfterIn(Sort(ByCreation(tokens)), start, r);
    SortedIn(ByCreation(tokens), r);
    if r.value in tokens && r == CreationRow(r.value) {
      var i :| 0 <= i < |tokens| && tokens[i] == r.value;
      assert ByCreation(tokens)[i] == r;
    }
  }

  /** Likewise the block-range loop, for the tokens below the end block. */
  lemma BlockVisitsOnce(tokens: seq<Token>, start: Cursor, end: int, r: Row<Token>)
    requires UniqueIds(tokens)
    ensures Ascending(After(Sort(ByBlock(tokens, end)), start))
    ensures r in After(Sort(ByBlock(tokens, end)), start) <==>
      && r.value in tokens && r.value.block < end && r.key.n == r.value.block && r.key.id == r.value.id
      && (start.n < r.value.block || (start.n == r.value.block && Before(start.id, r.value.id)))
  {
    BlockKeys(tokens, end);
    BlockRows(tokens, end);
    AfterAscending(ByBlock(tokens, end), start);
    AfterIn(Sort(ByBlock(tokens, end)), start, r);
    SortedIn(ByBlock(tokens, end), r);
  }

  /** A token is sent exactly when its row is visited, it has a URI and, where asked, no
      metadata. */
  lemma {:induction false} SentIff(rs: seq<Row<Token>>, metadata: set<string>, missingMetadata: bool, t: Token)
    ensures t in WantedOf(rs, metadata, missingMetadata)
      <==>
        && (missingMetadata ==> t.id !in metadata)
        && t.tokenUri.Some? && t.tokenUri.value != ""
        && exists r :: r in rs && r.value == t
  {
    if rs != [] {
      SentIff(rs[..|rs| - 1], metadata, missingMetadata, t);
      assert rs == rs[..|rs| - 1] + [rs[|rs| - 1]];
    }
  }

  lemma {:induction false} WantedOfConcat(a: seq<Row<Token>>, b: seq<Row<Token>>, metadata: set<string>,
                                          missingMetadata: bool)
    ensures WantedOf(a + b, metadata, missingMetadata)
      == WantedOf(a, metadata, missingMetadata) + WantedOf(b, metadata, missingMetadata)
  {
    if b == [] {
      assert a + b == a;
    } else {
      WantedOfConcat(a, b[..|b| - 1], metadata, missingMetadata);
      assert (a + b)[..|a + b| - 1] == a + b[..|b| - 1];
    }
  }

  /** Dropping the rows with metadata first and looking at URIs afterwards is one test. */
  lemma {:induction false} WantedOfMissing(rs: seq<Row<Token>>, metadata: set<string>)
    ensures WantedOf(MissingOf(rs, metadata), {}, false) == WantedOf(rs, metadata, true)
  {
    if rs != [] {
      var init, r := rs[..|rs| - 1], rs[|rs| - 1];
      WantedOfMissing(init, metadata);
      if r.value.id !in metadata {
        assert (MissingOf(init, metadata) + [r])[..|MissingOf(init, metadata)|] == MissingOf(init, metadata);
      } else {
        assert MissingOf(rs, metadata) == MissingOf(init, metadata);
      }
    }
  }

  lemma {:induction false} WantedOfAll(rs: seq<Row<Token>>, metadata: set<string>)
    ensures WantedOf(rs, {}, false) == WantedOf(rs, metadata, false)
  {
    if rs != [] {
      WantedOfAll(rs[..|rs| - 1], metadata);
    }
  }
}
