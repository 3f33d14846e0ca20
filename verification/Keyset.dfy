/**
 Keyset pages: members and invitations oldest first, courses and certificates newest first, and the question
 bank newest first with ids ascending. A row is its immutable sort key.
 */
module Keyset {
  import opened Prelude
  import opened Quiz

  datatype Key = Key(at: int, id: Id)

  datatype Listing = Members | Courses | Bank

  datatype Page = Page(items: seq<Key>, next: Option<Key>)

  datatype BadLimit = InvalidLimit

  // ---- Order ----

  /** Postgres's row comparison `(a.at, a.id) > (b.at, b.id)`. */
  predicate RowGreater(a: Key, b: Key) {
    a.at > b.at || (a.at == b.at && a.id > b.id)
  }

  /** ORDER BY, as each query writes it. */
  predicate Precedes(l: Listing, a: Key, b: Key) {
    match l
    case Members => RowGreater(b, a)
    case Courses => RowGreater(a, b)
    case Bank => a.at > b.at || (a.at == b.at && a.id < b.id)
  }

  /** The WHERE clause that seeks past the cursor, as each query writes it. */
  predicate Seeks(l: Listing, cursor: Option<Key>, k: Key) {
    match cursor
    case None => true
    case Some(c) =>
      match l
      case Members => RowGreater(k, c)
      case Courses => RowGreater(c, k)
      case Bank => k.at < c.at || (k.at == c.at && k.id > c.id)
  }

  /** The seek and the sort agree, mixed directions included: a cursor's page is what stands after it. */
  lemma SeekMatchesSort(l: Listing, c: Key, k: Key)
    ensures Seeks(l, Some(c), k) <==> Precedes(l, c, k)
  {
  }

  lemma StrictTotalOrder(l: Listing, a: Key, b: Key, c: Key)
    ensures !Precedes(l, a, a)
    ensures a == b || Precedes(l, a, b) || Precedes(l, b, a)
    ensures Precedes(l, a, b) && Precedes(l, b, c) ==> Precedes(l, a, c)
  {
  }

  ghost predicate InOrder(l: Listing, s: seq<Key>) {
    forall i, j :: 0 <= i < j < |s| ==> Precedes(l, s[i], s[j])
  }

  /** Members are listed oldest first, courses and banked questions newest first; of two at one time, by id. */
  lemma ListingsRunByTime(l: Listing, s: seq<Key>, i: nat, j: nat)
    requires InOrder(l, s) && i < j < |s|
    ensures l == Members ==> s[i].at <= s[j].at && (s[i].at == s[j].at ==> s[i].id < s[j].id)
    ensures l == Courses ==> s[i].at >= s[j].at && (s[i].at == s[j].at ==> s[i].id > s[j].id)
    ensures l == Bank ==> s[i].at >= s[j].at && (s[i].at == s[j].at ==> s[i].id < s[j].id)
  {
    assert Precedes(l, s[i], s[j]);
  }

  ghost predicate IsFirst(l: Listing, s: set<Key>, k: Key) {
    k in s && forall x :: x in s && x != k ==> Precedes(l, k, x)
  }

  lemma {:induction false} SomethingIsFirst(l: Listing, s: set<Key>)
    requires s != {}
    ensures exists k :: IsFirst(l, s, k)
    decreases |s|
  {
    var x :| x in s;
    var rest := s - {x};
    if rest == {} {
      assert s == {x};
      assert IsFirst(l, s, x);
    } else {
      SomethingIsFirst(l, rest);
      var k :| IsFirst(l, rest, k);
      if Precedes(l, x, k) {
        forall y | y in s && y != x ensures Precedes(l, x, y) {
          StrictTotalOrder(l, x, k, y);
        }
        assert IsFirst(l, s, x);
      } else {
        StrictTotalOrder(l, x, k, k);
        assert IsFirst(l, s, k);
      }
    }
  }

  /** The whole of `s`, in order. */
  ghost function Listed(l: Listing, s: set<Key>): seq<Key>
    decreases |s|
  {
    if s == {} then []
    else
      SomethingIsFirst(l, s);
      var k :| IsFirst(l, s, k);
      [k] + Listed(l, s - {k})
  }

  lemma FirstThenRest(l: Listing, s: set<Key>, k: Key, rest: seq<Key>)
    requires IsFirst(l, s, k) && InOrder(l, rest) && Elements(rest) == s - {k}
    ensures InOrder(l, [k] + rest) && Elements([k] + rest) == s
  {
    forall i | 0 <= i < |rest| ensures Precedes(l, k, rest[i]) {
      assert rest[i] in Elements(rest);
    }
    assert Elements([k] + rest) == {k} + Elements(rest);
  }

  lemma {:induction false} ListedIsAll(l: Listing, s: set<Key>)
    ensures InOrder(l, Listed(l, s)) && Elements(Listed(l, s)) == s && |Listed(l, s)| == |s|
    decreases |s|
  {
    if s != {} {
      SomethingIsFirst(l, s);
      var k :| IsFirst(l, s, k) && Listed(l, s) == [k] + Listed(l, s - {k});
      ListedIsAll(l, s - {k});
      FirstThenRest(l, s, k, Listed(l, s - {k}));
    }
  }

  /** Only one ordering of a set is in order. */
  lemma {:induction false} InOrderIsUnique(l: Listing, s: seq<Key>, t: seq<Key>)
    requires InOrder(l, s) && InOrder(l, t) && Elements(s) == Elements(t)
    ensures s == t
  {
    assert t != [] ==> t[0] in Elements(t);
    if s != [] {
      assert s[0] in Elements(s);
      assert s[0] in t && t[0] in s;
      HeadsAgree(l, s, t);
      TailsAgree(l, s, t);
      InOrderIsUnique(l, s[1..], t[1..]);
      assert s == [s[0]] + s[1..] && t == [t[0]] + t[1..];
    }
  }

  lemma HeadsAgree(l: Listing, s: seq<Key>, t: seq<Key>)
    requires InOrder(l, s) && InOrder(l, t) && s != [] && t != []
    requires s[0] in t && t[0] in s
    ensures s[0] == t[0]
  {
    var i :| 0 <= i < |t| && t[i] == s[0];
    var j :| 0 <= j < |s| && s[j] == t[0];
    StrictTotalOrder(l, s[0], t[0], s[0]);
  }

  lemma TailsAgree(l: Listing, s: seq<Key>, t: seq<Key>)
    requires InOrder(l, s) && InOrder(l, t) && s != [] && t != []
    requires s[0] == t[0] && Elements(s) == Elements(t)
    ensures Elements(s[1..]) == Elements(t[1..])
  {
    StrictTotalOrder(l, s[0], s[0], s[0]);
    assert Elements(s[1..]) == Elements(s) - {s[0]};
    assert Elements(t[1..]) == Elements(t) - {t[0]};
  }

  // ---- One page ----

  ghost function Past(l: Listing, table: set<Key>, cursor: Option<Key>): set<Key> {
    set k | k in table && Seeks(l, cursor, k)
  }

  /** SELECT ... WHERE past the cursor ORDER BY ... LIMIT n. */
  ghost function Fetch(l: Listing, table: set<Key>, cursor: Option<Key>, n: nat): seq<Key> {
    var all := Listed(l, Past(l, table, cursor));
    if |all| <= n then all else all[..n]
  }

  /** `page` and `paginate`: the extra row says there is more, and is not shown. */
  function Cut(rows: seq<Key>, limit: nat): Page
    requires limit >= 1
  {
    if |rows| <= limit then Page(rows, None) else Page(rows[..limit], Some(rows[limit - 1]))
  }

  ghost function PageOf(l: Listing, table: set<Key>, cursor: Option<Key>, limit: nat): Page
    requires limit >= 1
  {
    Cut(Fetch(l, table, cursor, limit + 1), limit)
  }

  /** ListCourses trims the slice and then reads the cursor off what is left. */
  method TrimCourses(rows: seq<Key>, limit: nat) returns (page: Page)
    requires limit >= 1
    ensures page == Cut(rows, limit)
  {
    var courses, hasMore, next := rows, false, None;
    if |courses| > limit {
      courses := courses[..limit];
      hasMore := true;
    }
    if hasMore && |courses| > 0 {
      next := Some(courses[|courses| - 1]);
    }
    return Page(courses, next);
  }

  /** BankQuestions reads the cursor first and trims after. */
  method TrimBank(rows: seq<Key>, limit: nat) returns (page: Page)
    requires limit >= 1
    ensures page == Cut(rows, limit)
  {
    var questions, next := rows, None;
    if |questions| > limit {
      next := Some(questions[limit - 1]);
      questions := questions[..limit];
    }
    return Page(questions, next);
  }

  // ---- How many ----

  const MAX_PAGE_SIZE := 100
  const CATALOG_DEFAULT := 20
  const BANK_MAX_PAGE_SIZE := 50
  const BANK_DEFAULT := 20

  /** Members, invitations and certificates: anything out of range becomes the maximum. */
  function Clamp(limit: int): (r: nat)
    ensures 1 <= r <= MAX_PAGE_SIZE
    ensures 1 <= limit <= MAX_PAGE_SIZE ==> r == limit
    ensures limit < 1 || limit > MAX_PAGE_SIZE ==> r == 100
  {
    if limit <= 0 || limit > MAX_PAGE_SIZE then MAX_PAGE_SIZE else limit
  }

  /** The bank: anything out of range, too large included, becomes the default. */
  function BankLimit(limit: int): (r: nat)
    ensures 1 <= r <= BANK_MAX_PAGE_SIZE
    ensures 1 <= limit <= BANK_MAX_PAGE_SIZE ==> r == limit
    ensures limit < 1 || limit > BANK_MAX_PAGE_SIZE ==> r == 20 < BANK_MAX_PAGE_SIZE
  {
    if limit <= 0 || limit > BANK_MAX_PAGE_SIZE then BANK_DEFAULT else limit
  }

  /** Courses: unset becomes the default, and anything else out of range is refused. */
  function CatalogLimit(limit: int): (r: Result<nat, BadLimit>)
    ensures r.Ok? <==> 0 <= limit <= MAX_PAGE_SIZE
    ensures r.Ok? ==> 1 <= r.value <= MAX_PAGE_SIZE && r.value == if limit == 0 then 20 else limit
  {
    if limit == 0 then Ok(CATALOG_DEFAULT)
    else if limit < 0 || limit > MAX_PAGE_SIZE then Err(InvalidLimit)
    else Ok(limit)
  }

  // ---- Following the cursors ----

  /** One fetch of a walk: what the table held at that moment, and how many rows were asked for. */
  datatype Request = Request(table: set<Key>, limit: nat)

  datatype Read = Read(rows: seq<Key>, finished: bool)

  ghost predicate AllAskSomething(requests: seq<Request>) {
    forall i :: 0 <= i < |requests| ==> requests[i].limit >= 1
  }

  /** Fetch, follow the cursor, fetch again, until a page says there is no more or the reader stops asking. */
  ghost function Walk(l: Listing, requests: seq<Request>, cursor: Option<Key>): Read
    requires AllAskSomething(requests)
    decreases |requests|
  {
    if requests == [] then Read([], false)
    else
      var page := PageOf(l, requests[0].table, cursor, requests[0].limit);
      if page.next.None? then Read(page.items, true)
      else
        var rest := Walk(l, requests[1..], page.next);
        Read(page.items + rest.rows, rest.finished)
  }

  lemma FetchIsFirst(l: Listing, table: set<Key>, cursor: Option<Key>, n: nat)
    ensures var rows := Fetch(l, table, cursor, n);
            && InOrder(l, rows) && |rows| <= n && Elements(rows) <= Past(l, table, cursor)
            && (|rows| < n ==> Elements(rows) == Past(l, table, cursor))
            && (forall k, i :: k in Past(l, table, cursor) && k !in rows && 0 <= i < |rows| ==> Precedes(l, rows[i], k))
  {
    var all := Listed(l, Past(l, table, cursor));
    var rows := Fetch(l, table, cursor, n);
    ListedIsAll(l, Past(l, table, cursor));
    forall k, i | k in Past(l, table, cursor) && k !in rows && 0 <= i < |rows| ensures Precedes(l, rows[i], k) {
      assert k in Elements(all) && all == rows + all[|rows|..];
      var j :| 0 <= j < |all[|rows|..]| && all[|rows|..][j] == k;
      assert all[|rows| + j] == k;
    }
    forall k | k in Elements(rows) ensures k in Past(l, table, cursor) {
      assert k in Elements(all);
    }
  }

  /** A page is in order, past its cursor, and leaves out only what comes after its own last row. */
  lemma PageIsExact(l: Listing, table: set<Key>, cursor: Option<Key>, limit: nat)
    requires limit >= 1
    ensures var page := PageOf(l, table, cursor, limit);
            && InOrder(l, page.items) && Elements(page.items) <= Past(l, table, cursor)
            && (page.next.None? ==> Elements(page.items) == Past(l, table, cursor))
            && (page.next.Some? ==> page.items != [] && page.next.value == page.items[|page.items| - 1])
            && (page.next.Some? ==> forall k :: k in Past(l, table, cursor) && k !in page.items ==>
                                                Precedes(l, page.next.value, k))
  {
    var rows := Fetch(l, table, cursor, limit + 1);
    var page := PageOf(l, table, cursor, limit);
    FetchIsFirst(l, table, cursor, limit + 1);
    if |rows| > limit {
      forall k | k in Past(l, table, cursor) && k !in page.items ensures Precedes(l, page.next.value, k) {
        if k in rows {
          assert rows == page.items + rows[limit..];
          var j :| 0 <= j < |rows[limit..]| && rows[limit..][j] == k;
          assert rows[limit + j] == k;
        }
      }
      forall k | k in Elements(page.items) ensures k in Past(l, table, cursor) {
        assert k in Elements(rows);
      }
    }
  }

  /** Everything read stands after the cursor, in order. */
  lemma {:induction false} WalkIsInOrder(l: Listing, requests: seq<Request>, cursor: Option<Key>)
    requires AllAskSomething(requests)
    ensures InOrder(l, Walk(l, requests, cursor).rows)
    ensures forall k :: k in Walk(l, requests, cursor).rows ==> Seeks(l, cursor, k)
    decreases |requests|
  {
    if requests != [] {
      var page := PageOf(l, requests[0].table, cursor, requests[0].limit);
      PageIsExact(l, requests[0].table, cursor, requests[0].limit);
      forall k | k in page.items ensures Seeks(l, cursor, k) {
        assert k in Elements(page.items);
      }
      if page.next.Some? {
        WalkIsInOrder(l, requests[1..], page.next);
        PageThenRestInOrder(l, cursor, page, Walk(l, requests[1..], page.next).rows);
      }
    }
  }

  lemma PageThenRestInOrder(l: Listing, cursor: Option<Key>, page: Page, rest: seq<Key>)
    requires InOrder(l, page.items) && InOrder(l, rest) && page.items != []
    requires page.next == Some(page.items[|page.items| - 1])
    requires forall k :: k in page.items ==> Seeks(l, cursor, k)
    requires forall k :: k in rest ==> Seeks(l, page.next, k)
    ensures InOrder(l, page.items + rest)
    ensures forall k :: k in page.items + rest ==> Seeks(l, cursor, k)
  {
    var last := page.items[|page.items| - 1];
    forall i | 0 <= i < |rest|
      ensures Precedes(l, last, rest[i]) && Seeks(l, cursor, rest[i])
      ensures forall j :: 0 <= j < |page.items| ==> Precedes(l, page.items[j], rest[i])
    {
      assert rest[i] in rest && last in page.items;
      SeekMatchesSort(l, last, rest[i]);
      forall j | 0 <= j < |page.items| ensures Precedes(l, page.items[j], rest[i]) {
        StrictTotalOrder(l, page.items[j], last, rest[i]);
      }
      if cursor.Some? {
        SeekMatchesSort(l, cursor.value, last);
        SeekMatchesSort(l, cursor.value, rest[i]);
        StrictTotalOrder(l, cursor.value, last, rest[i]);
      }
    }
  }

  /** A row that was there at every fetch, and stands after the cursor, is read by a walk that finishes. */
  lemma {:induction false} StayersAreRead(l: Listing, requests: seq<Request>, cursor: Option<Key>, k: Key)
    requires AllAskSomething(requests) && Walk(l, requests, cursor).finished
    requires forall i :: 0 <= i < |requests| ==> k in requests[i].table
    requires Seeks(l, cursor, k)
    ensures k in Walk(l, requests, cursor).rows
    decreases |requests|
  {
    var page := PageOf(l, requests[0].table, cursor, requests[0].limit);
    PageIsExact(l, requests[0].table, cursor, requests[0].limit);
    assert k in Past(l, requests[0].table, cursor);
    if page.next.Some? {
      if k !in page.items {
        SeekMatchesSort(l, page.next.value, k);
        StayersAreRead(l, requests[1..], page.next, k);
      }
    } else {
      assert k in Elements(page.items);
    }
  }

  /** Whatever is read was in the table at the fetch that read it. */
  lemma {:induction false} OnlyRowsAreRead(l: Listing, requests: seq<Request>, cursor: Option<Key>, k: Key)
    requires AllAskSomething(requests) && k in Walk(l, requests, cursor).rows
    ensures exists i :: 0 <= i < |requests| && k in requests[i].table
    decreases |requests|
  {
    var page := PageOf(l, requests[0].table, cursor, requests[0].limit);
    PageIsExact(l, requests[0].table, cursor, requests[0].limit);
    if k in page.items {
      assert k in Elements(page.items);
    } else {
      OnlyRowsAreRead(l, requests[1..], page.next, k);
      var i :| 0 <= i < |requests[1..]| && k in requests[1..][i].table;
      assert k in requests[i + 1].table;
    }
  }

  /**
   Following cursors to the end reads every row that was there throughout exactly once and in order, and
   nothing twice, for any page sizes and any inserts and deletes between fetches.
   */
  lemma WalkReadsEveryStayerOnce(l: Listing, requests: seq<Request>)
    requires AllAskSomething(requests) && Walk(l, requests, None).finished
    ensures var rows := Walk(l, requests, None).rows;
            && InOrder(l, rows)
            && Distinct(rows)
            && (forall k :: (forall i :: 0 <= i < |requests| ==> k in requests[i].table) ==> k in rows)
            && (forall k :: k in rows ==> exists i :: 0 <= i < |requests| && k in requests[i].table)
  {
    var rows := Walk(l, requests, None).rows;
    WalkIsInOrder(l, requests, None);
    forall i, j | 0 <= i < j < |rows| ensures rows[i] != rows[j] {
      StrictTotalOrder(l, rows[i], rows[i], rows[i]);
    }
    forall k | forall i :: 0 <= i < |requests| ==> k in requests[i].table ensures k in rows {
      StayersAreRead(l, requests, None, k);
    }
    forall k | k in rows ensures exists i :: 0 <= i < |requests| && k in requests[i].table {
      OnlyRowsAreRead(l, requests, None, k);
    }
  }

  // ---- A table nobody is changing ----

  ghost predicate Static(requests: seq<Request>, table: set<Key>) {
    forall i :: 0 <= i < |requests| ==> requests[i].table == table
  }

  /** Every page but the last leaves less to read, so the walk ends within as many pages as there are rows, and one. */
  lemma {:induction false} StaticWalkFinishes(l: Listing, requests: seq<Request>, table: set<Key>, cursor: Option<Key>)
    requires AllAskSomething(requests) && Static(requests, table)
    requires |requests| > |Past(l, table, cursor)|
    ensures Walk(l, requests, cursor).finished
    decreases |requests|
  {
    var page := PageOf(l, table, cursor, requests[0].limit);
    PageIsExact(l, table, cursor, requests[0].limit);
    if page.next.Some? {
      var last := page.next.value;
      assert last in Elements(page.items) && last in Past(l, table, cursor);
      StrictTotalOrder(l, last, last, last);
      SeekMatchesSort(l, last, last);
      forall k | k in Past(l, table, page.next) ensures k in Past(l, table, cursor) - {last} {
        SeekMatchesSort(l, last, k);
        if cursor.Some? {
          SeekMatchesSort(l, cursor.value, last);
          SeekMatchesSort(l, cursor.value, k);
          StrictTotalOrder(l, cursor.value, last, k);
        }
      }
      SubsetIsNoLarger(Past(l, table, page.next), Past(l, table, cursor) - {last});
      StaticWalkFinishes(l, requests[1..], table, page.next);
    }
  }

  /** On a table nobody changes the pages concatenate to the whole sorted table. */
  lemma StaticPagesConcatenate(l: Listing, requests: seq<Request>, table: set<Key>)
    requires AllAskSomething(requests) && Static(requests, table) && |requests| > |table|
    ensures Walk(l, requests, None) == Read(Listed(l, table), true)
  {
    assert Past(l, table, None) == table;
    StaticWalkFinishes(l, requests, table, None);
    WalkReadsEveryStayerOnce(l, requests);
    ListedIsAll(l, table);
    var rows := Walk(l, requests, None).rows;
    assert Elements(rows) == table;
    InOrderIsUnique(l, rows, Listed(l, table));
  }
}
