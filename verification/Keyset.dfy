/**
 * Keyset pagination: rows ordered by (sort value, id), a page of at most n rows after a
 * cursor, one row more fetched to see whether there is a next page, and the last row of the
 * page as the next cursor. A listing runs over a table that may change between pages.
 */
module Keyset {

  datatype Result<T> = Ok(value: T) | Err

  /** The order tuple of a row; ids are UUIDs read as numbers. */
  datatype Key = Key(sort: int, id: nat)

  datatype Dir = Asc | Desc

  predicate Less(a: Key, b: Key) {
    a.sort < b.sort || (a.sort == b.sort && a.id < b.id)
  }

  /** a is listed before b. */
  predicate Before(dir: Dir, a: Key, b: Key) {
    if dir.Asc? then Less(a, b) else Less(b, a)
  }

  /** The keyset predicate of the query: none, (sort, id) compared to a key, or to a sort value
      with a NULL id, which ties do not satisfy. */
  datatype Bound = Unbounded | After(key: Key) | AfterSort(sort: int)

  predicate Admits(dir: Dir, b: Bound, k: Key) {
    match b
    case Unbounded => true
    case After(c) => Before(dir, c, k)
    case AfterSort(s) => if dir.Asc? then s < k.sort else k.sort < s
  }

  // ----- Page size, cursors, pages ----------------------------------------------------------

  const DEFAULT_PAGE_SIZE := 50
  const MIN_PAGE_SIZE := 1
  const MAX_PAGE_SIZE := 200

  function ClampPageSize(supplied: int): (n: nat)
    ensures MIN_PAGE_SIZE <= n <= MAX_PAGE_SIZE
    ensures MIN_PAGE_SIZE <= supplied <= MAX_PAGE_SIZE ==> n == supplied
    ensures supplied <= 0 ==> n == DEFAULT_PAGE_SIZE
    ensures supplied > MAX_PAGE_SIZE ==> n == MAX_PAGE_SIZE
  {
    if supplied <= 0 then DEFAULT_PAGE_SIZE
    else if supplied > MAX_PAGE_SIZE then MAX_PAGE_SIZE
    else supplied
  }

  /** The id text of a cursor: absent, a UUID, or something that does not parse as one. */
  datatype IdText = NoId | Uuid(value: nat) | Malformed

  datatype Cursor = Cursor(sort: int, id: IdText)

  /** Instants are microseconds since the zero time, the start of year 1. */
  const ZERO_TIME := 0
  const ZERO_CURSOR := Cursor(ZERO_TIME, NoId)
  const MAX_UUID: nat := 0xFFFF_FFFF_FFFF_FFFF_FFFF_FFFF_FFFF_FFFF

  /** The wire token: empty, an encoded cursor, or a string that does not decode. */
  datatype Token = Blank | Encoded(cursor: Cursor) | Garbled

  function Encode(c: Cursor): Token {
    if c == ZERO_CURSOR then Blank else Encoded(c)
  }

  function Decode(t: Token): Result<Cursor> {
    match t
    case Blank => Ok(ZERO_CURSOR)
    case Encoded(c) => Ok(c)
    case Garbled => Err
  }

  function CursorOf(k: Key): Cursor {
    Cursor(k.sort, Uuid(k.id))
  }

  datatype Page = Page(items: seq<Key>, hasMore: bool, next: Token)

  /** Drops the extra row and turns the last row kept into the next cursor. */
  function BuildPage(items: seq<Key>, size: nat): Page
    requires size >= 1
  {
    if |items| > size then Page(items[..size], true, Encode(CursorOf(items[size - 1])))
    else Page(items, false, Blank)
  }

  // ----- The three ways a repository turns a cursor into a predicate ------------------------

  datatype Repository = Crm | PermissionRequests | Inventory

  /** First-page sentinels: 9999-01-01 00:00:00 and 9999-12-31 23:59:59.999999, with the
      all-ones UUID. */
  const PERMREQ_SENTINEL := Key(315_506_361_600_000_000, MAX_UUID)
  const INVENTORY_SENTINEL := Key(315_537_897_599_999_999, MAX_UUID)

  function BoundOf(repo: Repository, c: Cursor): Result<Bound> {
    match repo
    case Crm =>
      Ok(if c.sort == ZERO_TIME then Unbounded
         else if c.id.Uuid? then After(Key(c.sort, c.id.value)) else AfterSort(c.sort))
    case PermissionRequests =>
      Ok(After(if c == ZERO_CURSOR || !c.id.Uuid? then PERMREQ_SENTINEL else Key(c.sort, c.id.value)))
    case Inventory =>
      if c.id.NoId? then Ok(After(INVENTORY_SENTINEL))
      else if c.id.Malformed? then Err
      else Ok(After(Key(c.sort, c.id.value)))
  }

  /** A row's key, sent out as the next cursor and sent back by the client, becomes the bound
      "after this row" in every repository and for every row, except that the CRM listings
      take the zero time for the absence of a cursor and start over. */
  lemma CursorComesBack(repo: Repository, k: Key)
    ensures var c := Decode(Encode(CursorOf(k)));
            c.Ok? && (BoundOf(repo, c.value) == Ok(After(k)) <==> !Lost(repo, k))
  {
  }

  /** Without a cursor the first page considers every row of the table, exactly when each row
      lies below the repository's sentinel, if it uses one. Listings with a sentinel are
      descending. */
  lemma FirstPageExact(repo: Repository, dir: Dir, table: set<Key>)
    requires !repo.Crm? ==> dir.Desc?
    ensures var b := BoundOf(repo, ZERO_CURSOR);
            && b.Ok?
            && ((forall k | k in table :: Admits(dir, b.value, k)) <==>
                match repo
                case Crm => true
                case PermissionRequests => forall k | k in table :: Less(k, PERMREQ_SENTINEL)
                case Inventory => forall k | k in table :: Less(k, INVENTORY_SENTINEL))
  {
  }

  // ----- Reading a page out of the fetched rows ----------------------------------------------

  /** A fetched row; `sound` says whether it hydrates into its aggregate. */
  datatype Stored = Stored(key: Key, sound: bool)

  function Keys(rows: seq<Stored>): seq<Key> {
    seq(|rows|, i requires 0 <= i < |rows| => rows[i].key)
  }

  /** The CRM listings: cut off the extra row, hydrate the rest, encode the last. */
  method ListPage(rows: seq<Stored>, pageSize: int) returns (r: Result<Page>)
    ensures var n := ClampPageSize(pageSize);
            && (r.Err? <==> exists i | 0 <= i < |rows| && i < n :: !rows[i].sound)
            && (r.Ok? ==> r.value == BuildPage(Keys(rows), n))
  {
    var clamped := ClampPageSize(pageSize);
    var hasMore := false;
    var kept := rows;
    if |rows| > clamped {
      hasMore := true;
      kept := rows[..clamped];
    }
    var items: seq<Key> := [];
    for i := 0 to |kept|
      invariant items == Keys(kept[..i])
      invariant forall j | 0 <= j < i :: kept[j].sound
    {
      if !kept[i].sound {
        assert !rows[i].sound;
        return Err;
      }
      items := items + [kept[i].key];
    }
    assert kept[..|kept|] == kept;
    var next := Blank;
    if hasMore && |items| > 0 {
      next := Encode(CursorOf(items[|items| - 1]));
    }
    assert items == if hasMore then Keys(rows)[..clamped] else Keys(rows);
    return Ok(Page(items, hasMore, next));
  }

  /** The listings built on BuildPage hydrate every fetched row, the extra one included. */
  method ListWithBuildPage(rows: seq<Stored>, size: nat) returns (r: Result<Page>)
    requires size >= 1
    ensures r.Err? <==> exists i | 0 <= i < |rows| :: !rows[i].sound
    ensures r.Ok? ==> r.value == BuildPage(Keys(rows), size)
  {
    var items: seq<Key> := [];
    for i := 0 to |rows|
      invariant items == Keys(rows[..i])
      invariant forall j | 0 <= j < i :: rows[j].sound
    {
      if !rows[i].sound {
        return Err;
      }
      items := items + [rows[i].key];
    }
    assert rows[..|rows|] == rows;
    return Ok(BuildPage(items, size));
  }

  // ----- Ordered listings ------------------------------------------------------------------------

  ghost predicate Ordered(dir: Dir, s: seq<Key>) {
    forall i, j | 0 <= i < j < |s| :: Before(dir, s[i], s[j])
  }

  lemma {:induction false} FirstExists(dir: Dir, keys: set<Key>) returns (k: Key)
    requires keys != {}
    ensures k in keys && forall x | x in keys && x != k :: Before(dir, k, x)
    decreases keys
  {
    var c :| c in keys;
    var rest := keys - {c};
    if rest == {} {
      assert keys == {c};
      k := c;
    } else {
      var m := FirstExists(dir, rest);
      k := if Before(dir, m, c) then m else c;
      forall x | x in keys && x != k ensures Before(dir, k, x) {
        assert x in rest || x == c;
      }
    }
  }

  /** s lists the rows of a set, in order. */
  ghost predicate Lists(dir: Dir, keys: set<Key>, s: seq<Key>) {
    Ordered(dir, s) && |s| == |keys| && forall k :: k in s <==> k in keys
  }

  lemma {:induction false} Arrange(dir: Dir, keys: set<Key>) returns (s: seq<Key>)
    ensures Lists(dir, keys, s)
    decreases keys
  {
    if keys == {} {
      s := [];
    } else {
      var first := FirstExists(dir, keys);
      var rest := Arrange(dir, keys - {first});
      s := [first] + rest;
    }
  }

  /** The query's ORDER BY: the rows of a set in listing order. */
  ghost function Listing(dir: Dir, keys: set<Key>): (s: seq<Key>)
    ensures Lists(dir, keys, s)
  {
    assert exists s :: Lists(dir, keys, s) by {
      var s := Arrange(dir, keys);
    }
    var s :| Lists(dir, keys, s);
    s
  }

  /** Listing order determines a listing by its rows. */
  lemma {:induction false} OrderedUnique(dir: Dir, a: seq<Key>, b: seq<Key>)
    requires Ordered(dir, a) && Ordered(dir, b)
    requires forall k :: k in a <==> k in b
    ensures a == b
    decreases |a|
  {
    assert |b| > 0 ==> b[0] in b;
    if a == [] {
      assert b == [];
    } else {
      assert a[0] in b && b[0] in a;
      assert a[0] == b[0];
      forall k ensures k in a[1..] <==> k in b[1..] {
        TailMembers(dir, a, k);
        TailMembers(dir, b, k);
      }
      OrderedUnique(dir, a[1..], b[1..]);
    }
  }

  lemma TailMembers(dir: Dir, s: seq<Key>, k: Key)
    requires s != [] && Ordered(dir, s)
    ensures k in s[1..] <==> k in s && k != s[0]
  {
    if k in s[1..] {
      var i :| 0 <= i < |s[1..]| && s[1..][i] == k;
      assert s[i + 1] == k;
    }
    if k in s && k != s[0] {
      var i :| 0 <= i < |s| && s[i] == k;
      assert s[1..][i - 1] == k;
    }
  }

  // ----- A walk over a table that changes between pages --------------------------------------

  /** The rows a query with this bound considers. */
  ghost function Rows(dir: Dir, table: set<Key>, bound: Bound): set<Key> {
    set k | k in table && Admits(dir, bound, k)
  }

  /** The query: the first `limit` rows after the bound, in listing order. */
  ghost function Select(dir: Dir, table: set<Key>, bound: Bound, limit: nat): seq<Key> {
    var all := Listing(dir, Rows(dir, table, bound));
    if |all| <= limit then all else all[..limit]
  }

  /** One request: fetch one row more than the page holds. */
  ghost function PageAt(dir: Dir, table: set<Key>, bound: Bound, size: nat): Page
    requires size >= 1
  {
    BuildPage(Select(dir, table, bound, size + 1), size)
  }

  /** The bound of the request that follows a page: its token decoded and translated. */
  function NextBound(repo: Repository, page: Page): Result<Bound> {
    var c := Decode(page.next);
    if c.Err? then Err else BoundOf(repo, c.value)
  }

  /** The pages a client reads: the i-th request sees tables[i], and the walk ends with the
      first page that announces no further one, or when the client stops asking. */
  ghost function Walk(repo: Repository, dir: Dir, tables: seq<set<Key>>, bound: Bound, size: nat): seq<Page>
    requires size >= 1
    decreases |tables|
  {
    if tables == [] then []
    else
      var page := PageAt(dir, tables[0], bound, size);
      var next := NextBound(repo, page);
      if !page.hasMore || next.Err? then [page]
      else [page] + Walk(repo, dir, tables[1..], next.value, size)
  }

  function Items(pages: seq<Page>): seq<Key>
    decreases |pages|
  {
    if pages == [] then [] else pages[0].items + Items(pages[1..])
  }

  /** The walk ended because the last page announced no further one. */
  predicate Finished(pages: seq<Page>) {
    pages != [] && !pages[|pages| - 1].hasMore
  }

  /** A row whose key does not come back as a cursor: the CRM listings read the zero time as
      "no cursor". */
  predicate Lost(repo: Repository, k: Key) {
    repo.Crm? && k.sort == ZERO_TIME
  }

  /** No page that announces another one ends with such a row. */
  ghost predicate Unbroken(repo: Repository, pages: seq<Page>) {
    forall i | 0 <= i < |pages| && pages[i].hasMore && pages[i].items != [] ::
      !Lost(repo, pages[i].items[|pages[i].items| - 1])
  }

  /** What one request returns: rows of the table after the bound, in order, such that every
      other such row comes after the last one returned, and is announced. */
  ghost predicate SoundPage(dir: Dir, table: set<Key>, bound: Bound, page: Page) {
    && Ordered(dir, page.items)
    && (page.hasMore ==> page.items != [])
    && (forall k | k in page.items :: k in table && Admits(dir, bound, k))
    && (forall k | k in table && Admits(dir, bound, k) ::
          k in page.items || (page.hasMore && Before(dir, page.items[|page.items| - 1], k)))
  }

  lemma PageIsSound(repo: Repository, dir: Dir, table: set<Key>, bound: Bound, size: nat)
    requires size >= 1
    ensures var page := PageAt(dir, table, bound, size);
            && SoundPage(dir, table, bound, page)
            && (page.hasMore ==>
                  (NextBound(repo, page) == Ok(After(page.items[|page.items| - 1])) <==>
                   !Lost(repo, page.items[|page.items| - 1])))
  {
    var all := Listing(dir, Rows(dir, table, bound));
    assert forall k :: k in all <==> k in table && Admits(dir, bound, k);
    HeadIsSound(repo, dir, table, bound, all, size);
  }

  lemma HeadIsSound(repo: Repository, dir: Dir, table: set<Key>, bound: Bound, all: seq<Key>, size: nat)
    requires size >= 1 && Ordered(dir, all)
    requires forall k :: k in all <==> k in table && Admits(dir, bound, k)
    ensures var page := BuildPage(if |all| <= size + 1 then all else all[..size + 1], size);
            && SoundPage(dir, table, bound, page)
            && (page.hasMore ==>
                  (NextBound(repo, page) == Ok(After(page.items[|page.items| - 1])) <==>
                   !Lost(repo, page.items[|page.items| - 1])))
  {
    if |all| > size {
      assert all[..size + 1][..size] == all[..size];
      var last := all[size - 1];
      assert last in all;
      CursorComesBack(repo, last);
      forall k | k in table && Admits(dir, bound, k)
        ensures k in all[..size] || Before(dir, last, k)
      {
        BeyondThePage(dir, all, size, k);
      }
      HeadOrdered(dir, all, size);
    }
  }

  lemma HeadOrdered(dir: Dir, all: seq<Key>, size: nat)
    requires size <= |all| && Ordered(dir, all)
    ensures Ordered(dir, all[..size])
    ensures forall k | k in all[..size] :: k in all
  {
  }

  lemma BeyondThePage(dir: Dir, all: seq<Key>, size: nat, k: Key)
    requires 1 <= size < |all| && Ordered(dir, all) && k in all
    ensures k in all[..size] || Before(dir, all[size - 1], k)
  {
    var i :| 0 <= i < |all| && all[i] == k;
    if i < size {
      assert all[..size][i] == k;
    }
  }

  /** Sound pages, each resuming after the last row of the one before. */
  ghost predicate Chained(dir: Dir, tables: seq<set<Key>>, bound: Bound, pages: seq<Page>)
    decreases |pages|
  {
    pages == [] ||
    (&& tables != []
     && SoundPage(dir, tables[0], bound, pages[0])
     && (if pages[0].hasMore
         then Chained(dir, tables[1..], After(pages[0].items[|pages[0].items| - 1]), pages[1..])
         else |pages| == 1))
  }

  lemma {:induction false} WalkChained(repo: Repository, dir: Dir, tables: seq<set<Key>>, bound: Bound, size: nat)
    requires size >= 1 && Unbroken(repo, Walk(repo, dir, tables, bound, size))
    ensures Chained(dir, tables, bound, Walk(repo, dir, tables, bound, size))
    decreases |tables|
  {
    if tables != [] {
      PageIsSound(repo, dir, tables[0], bound, size);
      var page := PageAt(dir, tables[0], bound, size);
      var walk := Walk(repo, dir, tables, bound, size);
      assert walk[0] == page;
      if page.hasMore {
        var next := NextBound(repo, page).value;
        var rest := Walk(repo, dir, tables[1..], next, size);
        assert walk == [page] + rest;
        UnbrokenRest(repo, page, rest);
        WalkChained(repo, dir, tables[1..], next, size);
        ChainCons(dir, tables, bound, page, rest);
      }
    }
  }

  lemma UnbrokenRest(repo: Repository, page: Page, rest: seq<Page>)
    requires Unbroken(repo, [page] + rest)
    ensures Unbroken(repo, rest)
  {
    forall i | 0 <= i < |rest| && rest[i].hasMore && rest[i].items != []
      ensures !Lost(repo, rest[i].items[|rest[i].items| - 1])
    {
      assert ([page] + rest)[i + 1] == rest[i];
    }
  }

  lemma ChainCons(dir: Dir, tables: seq<set<Key>>, bound: Bound, page: Page, rest: seq<Page>)
    requires tables != [] && SoundPage(dir, tables[0], bound, page) && page.hasMore
    requires Chained(dir, tables[1..], After(page.items[|page.items| - 1]), rest)
    ensures Chained(dir, tables, bound, [page] + rest)
  {
    assert ([page] + rest)[1..] == rest;
  }

  lemma {:induction false} ChainOrdered(dir: Dir, tables: seq<set<Key>>, bound: Bound, pages: seq<Page>)
    requires Chained(dir, tables, bound, pages)
    ensures Ordered(dir, Items(pages))
    ensures forall k | k in Items(pages) :: Admits(dir, bound, k)
    decreases |pages|
  {
    if pages != [] {
      var items := pages[0].items;
      if pages[0].hasMore {
        var last := items[|items| - 1];
        ChainOrdered(dir, tables[1..], After(last), pages[1..]);
        OrderedAppend(dir, bound, items, Items(pages[1..]));
      } else {
        assert items + [] == items;
      }
    }
  }

  lemma {:induction false} ChainFromTables(dir: Dir, tables: seq<set<Key>>, bound: Bound, pages: seq<Page>, i: nat)
    requires Chained(dir, tables, bound, pages) && i < |pages| <= |tables|
    ensures forall k | k in pages[i].items :: k in tables[i]
    decreases |pages|
  {
    if i > 0 {
      var items := pages[0].items;
      ChainFromTables(dir, tables[1..], After(items[|items| - 1]), pages[1..], i - 1);
    }
  }

  lemma OrderedAppend(dir: Dir, bound: Bound, a: seq<Key>, b: seq<Key>)
    requires Ordered(dir, a) && Ordered(dir, b) && a != []
    requires forall k | k in a :: Admits(dir, bound, k)
    requires forall k | k in b :: Admits(dir, After(a[|a| - 1]), k)
    ensures Ordered(dir, a + b)
    ensures forall k | k in a + b :: Admits(dir, bound, k)
  {
    forall i, j | 0 <= i < j < |a + b| ensures Before(dir, (a + b)[i], (a + b)[j]) {
      if i < |a| <= j {
        assert b[j - |a|] in b;
      }
    }
    assert a[|a| - 1] in a;
  }

  lemma {:induction false} ChainComplete(dir: Dir, tables: seq<set<Key>>, bound: Bound, pages: seq<Page>, k: Key)
    requires Chained(dir, tables, bound, pages) && Finished(pages)
    requires Admits(dir, bound, k)
    requires |pages| <= |tables| && forall i | 0 <= i < |pages| :: k in tables[i]
    ensures k in Items(pages)
    decreases |pages|
  {
    var items := pages[0].items;
    assert k in tables[0];
    if k !in items {
      assert pages[0].hasMore;
      assert pages[|pages| - 1] == pages[1..][|pages| - 2];
      assert forall i | 0 <= i < |pages[1..]| :: tables[1..][i] == tables[i + 1];
      ChainComplete(dir, tables[1..], After(items[|items| - 1]), pages[1..], k);
    }
  }

  /** Whatever rows are inserted into and deleted from the table between the pages, a walk
      lists rows after its bound in strict order, so none twice; each was in the table when
      its page was read; and a finished walk lists every such row that was there throughout. */
  lemma KeysetWalk(repo: Repository, dir: Dir, tables: seq<set<Key>>, bound: Bound, size: nat)
    requires size >= 1 && Unbroken(repo, Walk(repo, dir, tables, bound, size))
    ensures var pages := Walk(repo, dir, tables, bound, size);
            var items := Items(pages);
            && |pages| <= |tables|
            && Ordered(dir, items)
            && (forall i, j | 0 <= i < j < |items| :: items[i] != items[j])
            && (forall k | k in items :: Admits(dir, bound, k))
            && (forall i | 0 <= i < |pages| :: forall k | k in pages[i].items :: k in tables[i])
            && (Finished(pages) ==>
                  forall k | Admits(dir, bound, k) && (forall i | 0 <= i < |pages| :: k in tables[i]) :: k in items)
  {
    var pages := Walk(repo, dir, tables, bound, size);
    WalkChained(repo, dir, tables, bound, size);
    WalkLength(repo, dir, tables, bound, size);
    ChainOrdered(dir, tables, bound, pages);
    forall i | 0 <= i < |pages| ensures forall k | k in pages[i].items :: k in tables[i] {
      ChainFromTables(dir, tables, bound, pages, i);
    }
    if Finished(pages) {
      forall k | Admits(dir, bound, k) && (forall i | 0 <= i < |pages| :: k in tables[i]) ensures k in Items(pages) {
        ChainComplete(dir, tables, bound, pages, k);
      }
    }
  }

  /** A condition that can be checked beforehand: outside of the CRM listings every walk is
      unbroken, and there every walk over tables without a row of the zero time. */
  lemma {:induction false} UnbrokenWhenTimed(repo: Repository, dir: Dir, tables: seq<set<Key>>, bound: Bound, size: nat)
    requires size >= 1
    requires repo.Crm? ==> forall i | 0 <= i < |tables| :: forall k | k in tables[i] :: k.sort != ZERO_TIME
    ensures Unbroken(repo, Walk(repo, dir, tables, bound, size))
    decreases |tables|
  {
    if tables != [] {
      var page := PageAt(dir, tables[0], bound, size);
      var next := NextBound(repo, page);
      NoneLost(repo, dir, tables[0], bound, size);
      if page.hasMore && next.Ok? {
        UnbrokenWhenTimed(repo, dir, tables[1..], next.value, size);
        UnbrokenCons(repo, page, Walk(repo, dir, tables[1..], next.value, size));
      } else {
        assert [page] + [] == [page];
        UnbrokenCons(repo, page, []);
      }
    }
  }

  lemma NoneLost(repo: Repository, dir: Dir, table: set<Key>, bound: Bound, size: nat)
    requires size >= 1 && (repo.Crm? ==> forall k | k in table :: k.sort != ZERO_TIME)
    ensures forall k | k in PageAt(dir, table, bound, size).items :: !Lost(repo, k)
  {
    PageIsSound(repo, dir, table, bound, size);
  }

  lemma UnbrokenCons(repo: Repository, page: Page, rest: seq<Page>)
    requires Unbroken(repo, rest) && forall k | k in page.items :: !Lost(repo, k)
    ensures Unbroken(repo, [page] + rest)
  {
    var pages := [page] + rest;
    forall i | 0 <= i < |pages| && pages[i].hasMore && pages[i].items != []
      ensures !Lost(repo, pages[i].items[|pages[i].items| - 1])
    {
      if i > 0 {
        assert pages[i] == rest[i - 1];
      }
    }
  }

  lemma {:induction false} WalkLength(repo: Repository, dir: Dir, tables: seq<set<Key>>, bound: Bound, size: nat)
    requires size >= 1
    ensures |Walk(repo, dir, tables, bound, size)| <= |tables|
    decreases |tables|
  {
    if tables != [] {
      var next := NextBound(repo, PageAt(dir, tables[0], bound, size));
      if next.Ok? {
        WalkLength(repo, dir, tables[1..], next.value, size);
      }
    }
  }
}
