/**
 * Keyset pagination over a table that does not change: the walk ends, and its pages put
 * together are the listing.
 */
module KeysetListing {
  import opened Keyset

  /** The number of pages a listing of n rows takes; an empty listing is one empty page. */
  function PagesNeeded(n: nat, size: nat): nat
    requires size >= 1
    decreases n
  {
    if n <= size then 1 else 1 + PagesNeeded(n - size, size)
  }

  ghost predicate Unchanging(tables: seq<set<Key>>, table: set<Key>) {
    forall i | 0 <= i < |tables| :: tables[i] == table
  }

  /** What a page of an unchanging table holds and where the next one starts. */
  lemma PageOfListing(repo: Repository, dir: Dir, table: set<Key>, bound: Bound, size: nat, all: seq<Key>)
    requires size >= 1 && all == Listing(dir, Rows(dir, table, bound))
    ensures var page := PageAt(dir, table, bound, size);
            && (page.hasMore <==> |all| > size)
            && page.items == (if |all| > size then all[..size] else all)
            && (page.hasMore ==> NextBound(repo, page) == Ok(if Lost(repo, all[size - 1]) then Unbounded else After(all[size - 1])))
  {
    HeadOfListing(repo, all, size);
  }

  lemma HeadOfListing(repo: Repository, all: seq<Key>, size: nat)
    requires size >= 1
    ensures var page := BuildPage(if |all| <= size + 1 then all else all[..size + 1], size);
            && (page.hasMore <==> |all| > size)
            && page.items == (if |all| > size then all[..size] else all)
            && (page.hasMore ==> NextBound(repo, page) == Ok(if Lost(repo, all[size - 1]) then Unbounded else After(all[size - 1])))
  {
    if |all| > size {
      assert all[..size + 1][..size] == all[..size];
    }
  }

  /** The listing after the last row of a page is the listing without that page. */
  lemma RestOfListing(dir: Dir, table: set<Key>, bound: Bound, size: nat, all: seq<Key>)
    requires 1 <= size < |all| && all == Listing(dir, Rows(dir, table, bound))
    ensures Listing(dir, Rows(dir, table, After(all[size - 1]))) == all[size..]
  {
    var last := all[size - 1];
    var rest := Listing(dir, Rows(dir, table, After(last)));
    forall k ensures k in rest <==> k in all[size..] {
      RestMember(dir, table, bound, size, all, k);
    }
    OrderedUnique(dir, rest, all[size..]);
  }

  lemma RestMember(dir: Dir, table: set<Key>, bound: Bound, size: nat, all: seq<Key>, k: Key)
    requires 1 <= size < |all| && Ordered(dir, all)
    requires forall x :: x in all <==> x in table && Admits(dir, bound, x)
    ensures k in all[size..] <==> k in table && Before(dir, all[size - 1], k)
  {
    var last := all[size - 1];
    assert last in all;
    if k in all[size..] {
      var i :| 0 <= i < |all[size..]| && all[size..][i] == k;
      assert all[size + i] == k && k in all;
    }
    if k in table && Before(dir, last, k) {
      assert k in all;
      var i :| 0 <= i < |all| && all[i] == k;
      assert i >= size;
      assert all[size..][i - size] == k;
    }
  }

  /** The listing `all` cut into pages. */
  function Chunks(all: seq<Key>, size: nat): seq<seq<Key>>
    requires size >= 1
    decreases |all|
  {
    if |all| <= size then [all] else [all[..size]] + Chunks(all[size..], size)
  }

  ghost predicate Shows(pages: seq<Page>, chunks: seq<seq<Key>>) {
    && |pages| == |chunks|
    && forall i | 0 <= i < |pages| :: pages[i].items == chunks[i] && (pages[i].hasMore <==> i < |pages| - 1)
  }

  lemma ShowsMore(page: Page, rest: seq<Page>, all: seq<Key>, size: nat)
    requires 1 <= size < |all| && page.hasMore && page.items == all[..size]
    requires Shows(rest, Chunks(all[size..], size))
    ensures Shows([page] + rest, Chunks(all, size))
  {
  }

  /** No page of the listing but the last ends with a row that does not come back as a cursor. */
  ghost predicate Resumes(repo: Repository, all: seq<Key>, size: nat)
    requires size >= 1
    decreases |all|
  {
    |all| <= size || (!Lost(repo, all[size - 1]) && Resumes(repo, all[size..], size))
  }

  lemma {:induction false} WalkShows(repo: Repository, dir: Dir, tables: seq<set<Key>>, table: set<Key>, bound: Bound, size: nat, all: seq<Key>)
    requires size >= 1 && Resumes(repo, all, size) && Unchanging(tables, table)
    requires all == Listing(dir, Rows(dir, table, bound))
    requires |tables| >= PagesNeeded(|all|, size)
    ensures Shows(Walk(repo, dir, tables, bound, size), Chunks(all, size))
    decreases |tables|
  {
    var page := PageAt(dir, table, bound, size);
    PageOfListing(repo, dir, table, bound, size, all);
    if |all| > size {
      var next := After(all[size - 1]);
      RestOfListing(dir, table, bound, size, all);
      WalkShows(repo, dir, tables[1..], table, next, size, all[size..]);
      WalkGoesOn(repo, dir, tables, bound, size, page, next);
      ShowsMore(page, Walk(repo, dir, tables[1..], next, size), all, size);
    } else {
      WalkEnds(repo, dir, tables, bound, size, page);
    }
  }

  lemma WalkGoesOn(repo: Repository, dir: Dir, tables: seq<set<Key>>, bound: Bound, size: nat, page: Page, next: Bound)
    requires size >= 1 && tables != [] && page == PageAt(dir, tables[0], bound, size)
    requires page.hasMore && NextBound(repo, page) == Ok(next)
    ensures Walk(repo, dir, tables, bound, size) == [page] + Walk(repo, dir, tables[1..], next, size)
  {
  }

  lemma WalkEnds(repo: Repository, dir: Dir, tables: seq<set<Key>>, bound: Bound, size: nat, page: Page)
    requires size >= 1 && tables != [] && page == PageAt(dir, tables[0], bound, size)
    requires !page.hasMore
    ensures Walk(repo, dir, tables, bound, size) == [page]
  {
  }

  /** Pages that put together are the listing `all`: as many as it needs, every one but the
      last full, and exactly the last announcing no further one. */
  ghost predicate Paginates(pages: seq<Page>, all: seq<Key>, size: nat)
    requires size >= 1
  {
    && Items(pages) == all
    && |pages| == PagesNeeded(|all|, size)
    && (forall i | 0 <= i < |pages| :: pages[i].hasMore <==> i < |pages| - 1)
    && (forall i | 0 <= i < |pages| - 1 :: |pages[i].items| == size)
  }

  lemma {:induction false} ChunksPaginate(pages: seq<Page>, all: seq<Key>, size: nat)
    requires size >= 1 && Shows(pages, Chunks(all, size))
    ensures Paginates(pages, all, size)
    decreases |all|
  {
    if |all| > size {
      var rest := pages[1..];
      assert forall i | 0 <= i < |rest| :: rest[i] == pages[i + 1];
      ChunksPaginate(rest, all[size..], size);
      assert all[..size] + all[size..] == all;
      assert forall i | 1 <= i < |pages| :: pages[i] == rest[i - 1];
    } else {
      assert pages[1..] == [];
    }
  }

  /** Over an unchanging table a walk ends, and its pages are the listing after the bound. */
  lemma UnchangingWalk(repo: Repository, dir: Dir, tables: seq<set<Key>>, table: set<Key>, bound: Bound, size: nat, all: seq<Key>)
    requires size >= 1 && Resumes(repo, all, size) && Unchanging(tables, table)
    requires all == Listing(dir, Rows(dir, table, bound))
    requires |tables| >= PagesNeeded(|all|, size)
    ensures Paginates(Walk(repo, dir, tables, bound, size), all, size)
  {
    WalkShows(repo, dir, tables, table, bound, size, all);
    ChunksPaginate(Walk(repo, dir, tables, bound, size), all, size);
  }

  /** If a page but the last ends with a row that does not come back, the listing starts over
      there, and the walk has no end. */
  lemma {:induction false} StartsOver(repo: Repository, dir: Dir, tables: seq<set<Key>>, table: set<Key>, bound: Bound, size: nat, all: seq<Key>, whole: seq<Key>)
    requires size >= 1 && Unchanging(tables, table)
    requires all == Listing(dir, Rows(dir, table, bound)) && !Resumes(repo, all, size)
    requires whole == Listing(dir, Rows(dir, table, Unbounded)) && !Resumes(repo, whole, size)
    ensures |Walk(repo, dir, tables, bound, size)| == |tables| && !Finished(Walk(repo, dir, tables, bound, size))
    decreases |tables|
  {
    if tables != [] {
      var page := PageAt(dir, table, bound, size);
      PageOfListing(repo, dir, table, bound, size, all);
      var next := if Lost(repo, all[size - 1]) then Unbounded else After(all[size - 1]);
      if Lost(repo, all[size - 1]) {
        StartsOver(repo, dir, tables[1..], table, next, size, whole, whole);
      } else {
        RestOfListing(dir, table, bound, size, all);
        StartsOver(repo, dir, tables[1..], table, next, size, all[size..], whole);
      }
      assert tables[0] == table;
      WalkGoesOn(repo, dir, tables, bound, size, page, next);
      GoesOn(page, Walk(repo, dir, tables[1..], next, size));
    }
  }

  lemma GoesOn(page: Page, rest: seq<Page>)
    requires page.hasMore && !Finished(rest)
    ensures !Finished([page] + rest)
  {
  }

  /** Over an unchanging table a listing from its beginning comes to an end exactly when no page
      but the last ends with a row that does not come back as a cursor. */
  lemma EndsExact(repo: Repository, dir: Dir, tables: seq<set<Key>>, table: set<Key>, size: nat)
    requires size >= 1 && Unchanging(tables, table) && |tables| >= PagesNeeded(|table|, size)
    ensures var first := BoundOf(repo, ZERO_CURSOR);
            && first.Ok?
            && (Finished(Walk(repo, dir, tables, first.value, size)) <==>
                Resumes(repo, Listing(dir, Rows(dir, table, first.value)), size))
  {
    var b := BoundOf(repo, ZERO_CURSOR).value;
    var all := Listing(dir, Rows(dir, table, b));
    FewerPages(Rows(dir, table, b), table, size);
    if Resumes(repo, all, size) {
      UnchangingWalk(repo, dir, tables, table, b, size, all);
    } else {
      OnlyCrmIsLost(repo, all, size);
      StartsOver(repo, dir, tables, table, b, size, all, all);
    }
  }

  lemma {:induction false} OnlyCrmIsLost(repo: Repository, all: seq<Key>, size: nat)
    requires size >= 1 && !Resumes(repo, all, size)
    ensures repo.Crm?
    decreases |all|
  {
    if !Lost(repo, all[size - 1]) {
      OnlyCrmIsLost(repo, all[size..], size);
    }
  }

  /** From the first request on, over a table that does not change, the pages of a listing that
      comes to an end are the whole table in order: exactly when every row lies below the
      repository's first-page sentinel, if it uses one. */
  lemma WholeTableListed(repo: Repository, dir: Dir, tables: seq<set<Key>>, table: set<Key>, size: nat)
    requires size >= 1 && Unchanging(tables, table) && |tables| >= PagesNeeded(|table|, size)
    requires !repo.Crm? ==> dir.Desc?
    requires Finished(Walk(repo, dir, tables, BoundOf(repo, ZERO_CURSOR).value, size))
    ensures Items(Walk(repo, dir, tables, BoundOf(repo, ZERO_CURSOR).value, size)) == Listing(dir, table) <==>
              match repo
              case Crm => true
              case PermissionRequests => forall k | k in table :: Less(k, PERMREQ_SENTINEL)
              case Inventory => forall k | k in table :: Less(k, INVENTORY_SENTINEL)
  {
    var b := BoundOf(repo, ZERO_CURSOR).value;
    var rows := Rows(dir, table, b);
    FewerPages(rows, table, size);
    EndsExact(repo, dir, tables, table, size);
    UnchangingWalk(repo, dir, tables, table, b, size, Listing(dir, rows));
    FirstPageExact(repo, dir, table);
    if Listing(dir, rows) == Listing(dir, table) {
      forall k | k in table ensures Admits(dir, b, k) {
        assert k in Listing(dir, table);
      }
    }
    if forall k | k in table :: Admits(dir, b, k) {
      assert rows == table;
    }
  }

  lemma FewerPages(rows: set<Key>, table: set<Key>, size: nat)
    requires size >= 1 && rows <= table
    ensures PagesNeeded(|rows|, size) <= PagesNeeded(|table|, size)
  {
    assert table == rows + (table - rows);
    PagesMonotone(|rows|, |table|, size);
  }

  lemma {:induction false} PagesMonotone(m: nat, n: nat, size: nat)
    requires size >= 1 && m <= n
    ensures PagesNeeded(m, size) <= PagesNeeded(n, size)
    decreases n
  {
    if m > size {
      PagesMonotone(m - size, n - size, size);
    }
  }

  /** A CRM table, in either direction, whose listing has no end: two rows, one of them of the
      zero time, in pages of one. */
  lemma ZeroTimeNeverEnds(dir: Dir, tables: seq<set<Key>>)
    requires Unchanging(tables, ZeroTimeTable(dir))
    ensures !Finished(Walk(Crm, dir, tables, Unbounded, 1)) && |Walk(Crm, dir, tables, Unbounded, 1)| == |tables|
  {
    var table := ZeroTimeTable(dir);
    var all := Listing(dir, Rows(dir, table, Unbounded));
    var pair := [Key(ZERO_TIME, 0), Key(if dir.Asc? then 1 else -1, 0)];
    assert Ordered(dir, pair);
    forall k ensures k in all <==> k in pair {
      assert k in pair <==> k == pair[0] || k == pair[1];
    }
    OrderedUnique(dir, all, pair);
    StartsOver(Crm, dir, tables, table, Unbounded, 1, all, all);
  }

  function ZeroTimeTable(dir: Dir): set<Key> {
    {Key(ZERO_TIME, 0), Key(if dir.Asc? then 1 else -1, 0)}
  }
}
