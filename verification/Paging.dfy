/**
 Paging through a list by id: the server's page (`List` in internal/core/region.go:41-79 and the cursor of
 internal/api/handler/region.go:41-47) and the inventory client that follows it
 (`api_get` in ansible/inventory/hosting.py:46-76). The table may change between two pages.
 */
module Paging {
  import opened Text
  import opened Ordering

  /** The rows behind a cursor; the empty cursor is the start. */
  function Behind(table: set<string>, cursor: string): set<string> {
    if cursor == "" then table else set id | id in table && Less(cursor, id)
  }

  datatype Page = Page(items: seq<string>, hasMore: bool, next: string)

  /** The page of the rows in order. */
  function PageFrom(rows: seq<string>, limit: nat): Page
    requires limit >= 1
  {
    if |rows| > limit then Page(rows[..limit], true, rows[limit - 1]) else Page(rows, false, "")
  }

  ghost function PageOf(table: set<string>, limit: nat, cursor: string): Page
    requires limit >= 1
  {
    PageFrom(Sorted(Behind(table, cursor)), limit)
  }

  /** The row is behind the cursor. */
  predicate IsBehind(table: set<string>, cursor: string, id: string) { id in table && (cursor == "" || Less(cursor, id)) }

  /**
   A page holds the first rows behind the cursor, in order: as many as asked for, or all there are. There is more
   exactly when a row is left over, and then the last row of the page is the next cursor.
   */
  ghost predicate IsPage(table: set<string>, limit: nat, cursor: string, page: Page)
    requires limit >= 1
  {
    && (forall id :: id in page.items ==> IsBehind(table, cursor, id))
    && (forall i, j :: 0 <= i < j < |page.items| ==> Less(page.items[i], page.items[j]))
    && (forall id, i :: IsBehind(table, cursor, id) && id !in page.items && 0 <= i < |page.items| ==> Less(page.items[i], id))
    && (page.hasMore <==> exists id :: IsBehind(table, cursor, id) && id !in page.items)
    && (if page.hasMore then |page.items| == limit && page.next == page.items[limit - 1]
        else |page.items| <= limit && page.next == "")
  }

  lemma {:induction false} PageIs(table: set<string>, limit: nat, cursor: string)
    requires limit >= 1
    ensures IsPage(table, limit, cursor, PageOf(table, limit, cursor))
  {
    var rows, page := Sorted(Behind(table, cursor)), PageOf(table, limit, cursor);
    SortedIncreasing(Behind(table, cursor));
    forall id ensures id in rows <==> IsBehind(table, cursor, id) {}
    forall id, i | id in rows && id !in page.items && 0 <= i < |page.items| ensures Less(page.items[i], id) {
      var j :| 0 <= j < |rows| && rows[j] == id;
      assert forall k :: 0 <= k < |page.items| ==> page.items[k] == rows[k] && page.items[k] in page.items;
    }
    if |rows| > limit {
      assert rows[limit] in rows;
      forall i | 0 <= i < limit ensures rows[i] != rows[limit] { LessIrreflexive(rows[limit]); }
      assert rows[limit] !in page.items && IsBehind(table, cursor, rows[limit]);
    }
  }

  /** `List` and the handler's cursor. */
  method List(table: set<string>, limit: nat, cursor: string) returns (page: Page)
    requires limit >= 1
    ensures page == PageOf(table, limit, cursor) && IsPage(table, limit, cursor, page)
  {
    PageIs(table, limit, cursor);
    var query := table;
    if cursor != "" { query := set id | id in query && Less(cursor, id); }
    var answer := Ordered(query);
    page := ReadPage(answer, limit);
  }

  /** One row more than asked for is read, to see whether there is more, and dropped again. */
  method ReadPage(all: seq<string>, limit: nat) returns (page: Page)
    requires limit >= 1
    ensures page == PageFrom(all, limit)
  {
    var answer := if |all| > limit + 1 then all[..limit + 1] else all;
    var rows: seq<string> := [];
    for i := 0 to |answer|
      invariant rows == answer[..i]
    {
      rows := rows + [answer[i]];
    }
    var hasMore := |rows| > limit;
    if hasMore { rows := rows[..limit]; }
    var next := "";
    if hasMore && |rows| > 0 { next := rows[|rows| - 1]; }
    page := Page(rows, hasMore, next);
  }

  /** The row was in every one of the first n tables the client saw. */
  ghost predicate Throughout(world: nat -> Option<set<string>>, n: nat, id: string) {
    forall i :: 0 <= i < n ==> world(i).Some? && id in world(i).value
  }

  ghost predicate Sometime(world: nat -> Option<set<string>>, n: nat, id: string) {
    exists i :: 0 <= i < n && world(i).Some? && id in world(i).value
  }

  predicate UpTo(id: string, cursor: string) { id == cursor || Less(id, cursor) }

  /** What is collected so far is increasing, ends at the cursor, and misses no lasting row up to it. */
  ghost predicate Collected(world: nat -> Option<set<string>>, n: nat, cursor: string, items: seq<string>) {
    && Increasing(items)
    && (forall id :: id in items ==> Sometime(world, n, id))
    && (if cursor == "" then items == [] else items != [] && items[|items| - 1] == cursor)
    && (cursor != "" ==> forall id :: Throughout(world, n, id) && UpTo(id, cursor) ==> id in items)
  }

  /** Appending a page of larger rows. */
  lemma {:induction false} AppendIncreasing(items: seq<string>, page: seq<string>, cursor: string)
    requires Increasing(items) && Increasing(page)
    requires if cursor == "" then items == [] else items != [] && items[|items| - 1] == cursor
    requires cursor != "" ==> forall id :: id in page ==> Less(cursor, id)
    ensures Increasing(items + page)
  {
    forall i, j | 0 <= i < j < |items + page| ensures Less((items + page)[i], (items + page)[j]) {
      if i < |items| <= j {
        var id := page[j - |items|];
        assert id in page;
        if i < |items| - 1 { LessTransitive(items[i], cursor, id); }
      }
    }
  }

  lemma {:induction false} PrefixIncreasing(q: seq<string>, k: nat)
    requires Increasing(q) && k <= |q|
    ensures Increasing(q[..k])
  {
  }

  /** In an increasing list everything up to an element comes before it. */
  lemma {:induction false} UpToIsBefore(q: seq<string>, k: nat, id: string)
    requires Increasing(q) && k < |q| && id in q && UpTo(id, q[k])
    ensures id in q[..k + 1]
  {
    var i :| 0 <= i < |q| && q[i] == id;
    if i > k {
      LessIrreflexive(id);
      if Less(id, q[k]) { LessTransitive(id, q[k], id); }
    }
    assert q[..k + 1][i] == id;
  }

  /** A row up to the new cursor is up to the old one or on the page. */
  lemma {:induction false} PageCovers(table: set<string>, limit: nat, cursor: string, id: string)
    requires limit >= 1 && id in table && (cursor == "" || !UpTo(id, cursor))
    ensures var page := PageOf(table, limit, cursor);
      if page.hasMore then UpTo(id, page.next) ==> id in page.items else id in page.items
  {
    var rows := Sorted(Behind(table, cursor));
    LessTotal(id, cursor);
    assert id in Behind(table, cursor);
    SortedIncreasing(Behind(table, cursor));
    if |rows| > limit && UpTo(id, rows[limit - 1]) { UpToIsBefore(rows, limit - 1, id); }
  }

  lemma {:induction false} PageItems(table: set<string>, limit: nat, cursor: string)
    requires limit >= 1
    ensures var page := PageOf(table, limit, cursor);
      && Increasing(page.items)
      && (forall id :: id in page.items ==> id in Behind(table, cursor))
      && (page.hasMore ==> page.items != [] && page.items[|page.items| - 1] == page.next)
  {
    SortedIncreasing(Behind(table, cursor));
    var rows := Sorted(Behind(table, cursor));
    if |rows| > limit {
      PrefixIncreasing(rows, limit);
      assert forall id :: id in rows[..limit] ==> id in rows;
    }
  }

  /** One round of the client. */
  lemma {:induction false} RoundCollects(
    world: nat -> Option<set<string>>, n: nat, cursor: string, items: seq<string>, table: set<string>, limit: nat)
    requires limit >= 1 && world(n) == Some(table) && "" !in table && Collected(world, n, cursor, items)
    ensures var page := PageOf(table, limit, cursor);
      && Increasing(items + page.items)
      && (forall id :: id in items + page.items ==> Sometime(world, n + 1, id))
      && (page.hasMore ==> Collected(world, n + 1, page.next, items + page.items))
      && (!page.hasMore ==> forall id :: Throughout(world, n + 1, id) ==> id in items + page.items)
  {
    var page := PageOf(table, limit, cursor);
    var more := items + page.items;
    PageItems(table, limit, cursor);
    AppendIncreasing(items, page.items, cursor);
    forall id | id in more ensures Sometime(world, n + 1, id) {
      if id in items {
        assert Sometime(world, n, id);
      } else {
        assert id in table && 0 <= n < n + 1;
      }
    }
    forall id | Throughout(world, n + 1, id) && (page.hasMore ==> UpTo(id, page.next)) ensures id in more {
      assert world(n).Some? && id in table;
      if cursor != "" && UpTo(id, cursor) {
        assert Throughout(world, n, id);
      } else {
        PageCovers(table, limit, cursor, id);
      }
    }
    if page.hasMore {
      assert more[|more| - 1] == page.next;
      assert page.next in page.items && page.next in table;
    }
  }

  /** What is still ahead of the cursor among all ids that ever occur. */
  function Ahead(universe: set<string>, cursor: string): set<string> { Behind(universe, cursor) }

  lemma {:induction false} CursorMoves(universe: set<string>, table: set<string>, limit: nat, cursor: string)
    requires limit >= 1 && table <= universe && "" !in universe && PageOf(table, limit, cursor).hasMore
    ensures Ahead(universe, PageOf(table, limit, cursor).next) < Ahead(universe, cursor)
  {
    var page := PageOf(table, limit, cursor);
    PageItems(table, limit, cursor);
    var next := page.next;
    assert next in page.items && next in Behind(table, cursor) && next in Ahead(universe, cursor);
    LessIrreflexive(next);
    assert next !in Ahead(universe, next);
    forall id | id in Ahead(universe, next) ensures id in Ahead(universe, cursor) {
      if cursor != "" { LessTransitive(cursor, next, id); }
    }
  }

  /** A request of the client. */
  method NextPage(table: set<string>, limit: nat, cursor: string) returns (page: Page)
    requires limit >= 1
    ensures page == PageOf(table, limit, cursor)
  {
    page := List(table, limit, cursor);
  }

  /**
   `api_get`: `world(i)` is the table the i-th request sees, or a network error; the ids that ever occur
   are finitely many and not empty. The loop ends. An error anywhere gives the empty list; otherwise the
   result is increasing, so no row comes twice, contains every row that was there throughout, and only rows
   that were there at some request.
   */
  method ApiGet(world: nat -> Option<set<string>>, universe: set<string>, limit: nat)
    returns (items: seq<string>, requests: nat)
    requires limit >= 1 && "" !in universe
    requires forall i :: world(i).Some? ==> world(i).value <= universe
    ensures requests >= 1
    ensures (exists i :: 0 <= i < requests && world(i).None?) ==> items == []
    ensures Increasing(items)
    ensures forall id :: id in items ==> Sometime(world, requests, id)
    ensures (forall i :: 0 <= i < requests ==> world(i).Some?) ==>
      forall id :: Throughout(world, requests, id) ==> id in items
  {
    items, requests := [], 0;
    var cursor := "";
    while true
      invariant Collected(world, requests, cursor, items)
      invariant forall i :: 0 <= i < requests ==> world(i).Some?
      decreases Ahead(universe, cursor)
    {
      var answer := world(requests);
      if answer.None? { return [], requests + 1; }
      var page := NextPage(answer.value, limit, cursor);
      RoundCollects(world, requests, cursor, items, answer.value, limit);
      requests := requests + 1;
      items := items + page.items;
      if !page.hasMore { return; }
      CursorMoves(universe, answer.value, limit, cursor);
      cursor := page.next;
      if cursor == "" {
        assert false;
        return;
      }
    }
  }

  /** On a table that does not change the client gets exactly the table, in order. */
  lemma {:induction false} StaticTableIsListed(
    world: nat -> Option<set<string>>, table: set<string>, items: seq<string>, requests: nat)
    requires forall i :: world(i) == Some(table)
    requires requests >= 1 && Increasing(items) && forall id :: id in items ==> Sometime(world, requests, id)
    requires forall id :: Throughout(world, requests, id) ==> id in items
    ensures items == Sorted(table)
  {
    forall id ensures id in items <==> id in table {
      if id in table { assert Throughout(world, requests, id); }
      if id in items { assert Sometime(world, requests, id); }
    }
    IncreasingIsSorted(items, table);
  }

  /** The client on a static table. */
  method ApiGetStatic(table: set<string>, limit: nat) returns (items: seq<string>)
    requires limit >= 1 && "" !in table
    ensures items == Sorted(table)
  {
    var requests;
    items, requests := ApiGet(_ => Some(table), table, limit);
    StaticTableIsListed(_ => Some(table), table, items, requests);
  }
}
