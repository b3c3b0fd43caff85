/** Keyset pagination: rows sorted by a number and then by `_id`, read page by page, each
    page strictly after the last row of the one before. */
module Keyset {
  import opened Prelude

  /** The order MongoDB sorts `_id` strings in. */
  predicate Before(a: string, b: string) {
    b != [] && (a == [] || a[0] < b[0] || (a[0] == b[0] && Before(a[1..], b[1..])))
  }

  datatype Cursor = Cursor(n: int, id: string)

  predicate Less(a: Cursor, b: Cursor) { a.n < b.n || (a.n == b.n && Before(a.id, b.id)) }

  /** A row of a query: its sort key and what it holds. */
  datatype Row<P> = Row(key: Cursor, value: P)

  function Insert<P>(r: Row<P>, rs: seq<Row<P>>): seq<Row<P>> {
    if rs == [] then [r]
    else if Less(rs[0].key, r.key) then [rs[0]] + Insert(r, rs[1..])
    else [r] + rs
  }

  function Sort<P>(rs: seq<Row<P>>): seq<Row<P>> {
    if rs == [] then [] else Insert(rs[0], Sort(rs[1..]))
  }

  /** The rows strictly after the cursor. */
  function After<P>(rs: seq<Row<P>>, c: Cursor): seq<Row<P>> {
    if rs == [] then [] else (if Less(c, rs[0].key) then [rs[0]] else []) + After(rs[1..], c)
  }

  function Take<P>(rs: seq<Row<P>>, limit: nat): seq<Row<P>> {
    if limit < |rs| then rs[..limit] else rs
  }

  /** One page: sort, keep what is strictly after the cursor, cut at the limit. */
  function Page<P>(rs: seq<Row<P>>, c: Cursor, limit: nat): seq<Row<P>> { Take(After(Sort(rs), c), limit) }

  ghost predicate Ascending<P>(rs: seq<Row<P>>) {
    forall i, j :: 0 <= i < j < |rs| ==> Less(rs[i].key, rs[j].key)
  }

  /** `_id`s are unique, so no two rows have the same key. */
  ghost predicate UniqueKeys<P>(rs: seq<Row<P>>) {
    forall i, j :: 0 <= i < j < |rs| ==> rs[i].key != rs[j].key
  }

  // ---- The order is strict and total ----

  lemma {:induction false} BeforeTotal(a: string, b: string)
    ensures Before(a, b) || a == b || Before(b, a)
    ensures !(Before(a, b) && Before(b, a)) && !Before(a, a)
    decreases |a|
  {
    if a != [] && b != [] {
      BeforeTotal(a[1..], b[1..]);
      BeforeTotal(a[1..], a[1..]);
      if a[0] == b[0] && a[1..] == b[1..] {
        assert a == [a[0]] + a[1..] && b == [b[0]] + b[1..];
      }
    } else if a != [] {
      BeforeTotal(a[1..], a[1..]);
    }
  }

  /** It is the lexicographic order: `a` is a proper prefix of `b`, or has the lesser character
      where they first differ. */
  lemma {:induction false} BeforeIff(a: string, b: string)
    ensures Before(a, b) <==>
      exists k: nat ::
        && k <= |a| && k <= |b| && a[..k] == b[..k]
        && if k == |a| then k < |b| else k < |b| && a[k] < b[k]
    decreases |a|
  {
    if a != [] && b != [] && a[0] == b[0] {
      BeforeIff(a[1..], b[1..]);
      if Before(a[1..], b[1..]) {
        var k: nat :|
          && k <= |a[1..]| && k <= |b[1..]| && a[1..][..k] == b[1..][..k]
          && if k == |a[1..]| then k < |b[1..]| else k < |b[1..]| && a[1..][k] < b[1..][k];
        assert a[..k + 1] == [a[0]] + a[1..][..k] && b[..k + 1] == [b[0]] + b[1..][..k];
      }
      if k: nat :|
        && k <= |a| && k <= |b| && a[..k] == b[..k]
        && if k == |a| then k < |b| else k < |b| && a[k] < b[k] {
        assert 0 < k;
        assert a[1..][..k - 1] == a[..k][1..] && b[1..][..k - 1] == b[..k][1..];
      }
    } else {
      assert a[..0] == b[..0];
      forall k: nat | 0 < k <= |a| && k <= |b| ensures a[..k] != b[..k] {
        assert a[..k][0] == a[0] && b[..k][0] == b[0];
      }
    }
  }

  lemma {:induction false} BeforeTransitive(a: string, b: string, c: string)
    requires Before(a, b) && Before(b, c)
    ensures Before(a, c)
    decreases |a|
  {
    if a != [] && a[0] == b[0] && b[0] == c[0] {
      BeforeTransitive(a[1..], b[1..], c[1..]);
    }
  }

  lemma LessTotal(a: Cursor, b: Cursor)
    ensures Less(a, b) || a == b || Less(b, a)
    ensures !(Less(a, b) && Less(b, a)) && !Less(a, a)
  {
    BeforeTotal(a.id, b.id);
    BeforeTotal(a.id, a.id);
  }

  lemma LessTransitive(a: Cursor, b: Cursor, c: Cursor)
    requires Less(a, b) && Less(b, c)
    ensures Less(a, c)
  {
    if a.n == b.n == c.n {
      BeforeTransitive(a.id, b.id, c.id);
    }
  }

  // ---- Sorting ----

  lemma {:induction false} InsertCounts<P>(r: Row<P>, rs: seq<Row<P>>)
    ensures multiset(Insert(r, rs)) == multiset(rs) + multiset{r}
  {
    if rs != [] {
      InsertCounts(r, rs[1..]);
      assert rs == [rs[0]] + rs[1..];
    }
  }

  /** Sorting is a permutation. */
  lemma {:induction false} SortCounts<P>(rs: seq<Row<P>>)
    ensures multiset(Sort(rs)) == multiset(rs)
  {
    if rs != [] {
      SortCounts(rs[1..]);
      InsertCounts(rs[0], Sort(rs[1..]));
      assert rs == [rs[0]] + rs[1..];
    }
  }

  lemma {:induction false} InsertAscending<P>(r: Row<P>, rs: seq<Row<P>>)
    requires Ascending(rs) && forall i :: 0 <= i < |rs| ==> rs[i].key != r.key
    ensures Ascending(Insert(r, rs))
  {
    if rs != [] {
      LessTotal(rs[0].key, r.key);
      if Less(rs[0].key, r.key) {
        InsertAscending(r, rs[1..]);
        InsertCounts(r, rs[1..]);
        HeadFirst(rs[0], r, rs[1..]);
      } else {
        forall i | 0 <= i < |rs| ensures Less(r.key, rs[i].key) {
          if 0 < i {
            LessTransitive(r.key, rs[0].key, rs[i].key);
          }
        }
      }
    }
  }

  lemma HeadFirst<P>(h: Row<P>, r: Row<P>, rs: seq<Row<P>>)
    requires Less(h.key, r.key) && forall i :: 0 <= i < |rs| ==> Less(h.key, rs[i].key)
    ensures forall i :: 0 <= i < |Insert(r, rs)| ==> Less(h.key, Insert(r, rs)[i].key)
  {
    InsertCounts(r, rs);
    forall i | 0 <= i < |Insert(r, rs)| ensures Less(h.key, Insert(r, rs)[i].key) {
      var x := Insert(r, rs)[i];
      assert x in multiset(Insert(r, rs));
      assert x in multiset(rs) || x == r;
    }
  }

  /** Rows with unique keys sort strictly ascending. */
  lemma {:induction false} SortAscending<P>(rs: seq<Row<P>>)
    requires UniqueKeys(rs)
    ensures Ascending(Sort(rs))
  {
    if rs != [] {
      SortAscending(rs[1..]);
      SortCounts(rs[1..]);
      forall i | 0 <= i < |Sort(rs[1..])| ensures Sort(rs[1..])[i].key != rs[0].key {
        var x := Sort(rs[1..])[i];
        assert x in multiset(Sort(rs[1..]));
        assert x in rs[1..];
      }
      InsertAscending(rs[0], Sort(rs[1..]));
    }
  }

  // ---- Pages ----

  lemma {:induction false} AfterIn<P>(rs: seq<Row<P>>, c: Cursor, r: Row<P>)
    ensures r in After(rs, c) <==> r in rs && Less(c, r.key)
  {
    if rs != [] {
      AfterIn(rs[1..], c, r);
      assert rs == [rs[0]] + rs[1..];
    }
  }

  /** Of ascending rows, those after a cursor are a suffix. */
  lemma {:induction false} AfterIsSuffix<P>(rs: seq<Row<P>>, c: Cursor) returns (m: nat)
    requires Ascending(rs)
    ensures m <= |rs| && After(rs, c) == rs[m..]
    ensures forall i :: 0 <= i < m ==> !Less(c, rs[i].key)
    ensures forall i :: m <= i < |rs| ==> Less(c, rs[i].key)
  {
    if rs == [] {
      m := 0;
    } else {
      m := AfterIsSuffix(rs[1..], c);
      if Less(c, rs[0].key) {
        if 0 < m {
          LessTransitive(c, rs[0].key, rs[1].key);
        }
        m := 0;
      } else {
        m := m + 1;
      }
    }
  }

  lemma SuffixUnique<P>(rs: seq<Row<P>>, c: Cursor, m: nat)
    requires Ascending(rs) && m <= |rs|
    requires (forall i :: 0 <= i < m ==> !Less(c, rs[i].key)) && (forall i :: m <= i < |rs| ==> Less(c, rs[i].key))
    ensures After(rs, c) == rs[m..]
  {
    var k := AfterIsSuffix(rs, c);
    assert (k < |rs| ==> Less(c, rs[k].key)) && (m < |rs| ==> Less(c, rs[m].key));
  }

  /** A page is a prefix of what is after the cursor: `limit` rows, or all that are left. */
  lemma PageIs<P>(rs: seq<Row<P>>, c: Cursor, limit: nat)
    ensures Page(rs, c, limit) <= After(Sort(rs), c)
    ensures |Page(rs, c, limit)| == if limit < |After(Sort(rs), c)| then limit else |After(Sort(rs), c)|
  {
  }

  /** Moving the cursor to the last row of a page leaves exactly the rows after the page. */
  lemma NextPage<P>(rs: seq<Row<P>>, c: Cursor, k: nat)
    requires Ascending(rs) && 0 < k <= |After(rs, c)|
    ensures After(rs, After(rs, c)[k - 1].key) == After(rs, c)[k..]
  {
    var m := AfterIsSuffix(rs, c);
    var last := rs[m + k - 1].key;
    forall i | 0 <= i < m + k ensures !Less(last, rs[i].key) {
      LessTotal(last, rs[i].key);
    }
    SuffixUnique(rs, last, m + k);
  }
}
