/**
 Pages of a list: LIMIT and OFFSET, the orders a database may return rows in, and when pages fetched
 by separate queries show every row once.
 */
module JobPages {
  function AtMost(n: int, bound: nat): (r: nat)
    requires 0 <= n
  {
    if n < bound then n else bound
  }

  /** `LIMIT limit OFFSET offset` */
  function Slice<T>(rows: seq<T>, limit: nat, offset: nat): seq<T> {
    rows[AtMost(offset, |rows|)..AtMost(offset + limit, |rows|)]
  }

  // ---------- pages of separate queries ----------

  /** The items of pages 1, 2, ..., one after the other; the query of page `k + 1` saw the order `orders[k]`. */
  function Pages<T>(orders: seq<seq<T>>, limit: nat): seq<T> {
    if orders == [] then []
    else
      var n := |orders| - 1;
      Pages(orders[..n], limit) + Slice(orders[n], limit, n * limit)
  }

  /** The number of the last page with an item on it: `Math.ceil(total / limit)`. */
  function LastPage(total: nat, limit: nat): nat
    requires limit > 0
  {
    (total + limit - 1) / limit
  }

  /** `ORDER BY created_at DESC` */
  ghost predicate NewestFirst<T>(rows: seq<T>, created: T -> int) {
    forall i, j :: 0 <= i < j < |rows| ==> created(rows[i]) >= created(rows[j])
  }

  /** An order the database may return the rows in. */
  ghost predicate OrderOf<T>(order: seq<T>, rows: seq<T>, created: T -> int) {
    NewestFirst(order, created) && multiset(order) == multiset(rows)
  }

  ghost predicate OrdersOf<T>(orders: seq<seq<T>>, rows: seq<T>, created: T -> int) {
    forall k :: 0 <= k < |orders| ==> OrderOf(orders[k], rows, created)
  }

  lemma SliceBounds(total: nat, limit: nat, page: nat)
    requires limit > 0
    ensures page * limit >= total <==> page >= LastPage(total, limit)
    ensures page > 0 ==> (page - 1) * limit + limit == page * limit && (page - 1) * limit >= 0
  {
    var last := LastPage(total, limit);
    assert total + limit - 1 == last * limit + (total + limit - 1) % limit;
    if page >= last {
      TimesMonotone(last, page, limit);
    } else {
      TimesMonotone(page, last - 1, limit);
      assert (last - 1) * limit == last * limit - limit;
    }
  }

  lemma TimesMonotone(a: nat, b: nat, limit: nat)
    requires a <= b
    ensures a * limit <= b * limit
  {
  }

  // ---------- orders of the same rows ----------

  function Times<T>(rows: seq<T>, created: T -> int): (r: seq<int>)
    ensures |r| == |rows| && forall i :: 0 <= i < |r| ==> r[i] == created(rows[i])
  {
    seq(|rows|, i requires 0 <= i < |rows| => created(rows[i]))
  }

  lemma TimesWithout<T>(rows: seq<T>, p: nat, created: T -> int) returns (rest: seq<T>)
    requires p < |rows|
    ensures |rest| == |rows| - 1 && multiset(rest) == multiset(rows) - multiset{rows[p]}
    ensures multiset(Times(rows, created)) == multiset(Times(rest, created)) + multiset{created(rows[p])}
  {
    rest := rows[..p] + rows[p + 1..];
    var times := Times(rows, created);
    assert rows == rows[..p] + [rows[p]] + rows[p + 1..];
    assert times == times[..p] + [times[p]] + times[p + 1..];
    assert Times(rest, created) == times[..p] + times[p + 1..];
  }

  /** The same rows have the same times. */
  lemma {:induction false} SameTimes<T>(a: seq<T>, b: seq<T>, created: T -> int)
    requires multiset(a) == multiset(b)
    ensures multiset(Times(a, created)) == multiset(Times(b, created))
    decreases |a|
  {
    hide Times;
    assert |a| == |multiset(a)| == |multiset(b)| == |b|;
    if a == [] {
      assert b == [];
    } else {
      assert a[0] in multiset(b);
      var p :| 0 <= p < |b| && b[p] == a[0];
      var restA := TimesWithout(a, 0, created);
      var restB := TimesWithout(b, p, created);
      SameTimes(restA, restB, created);
    }
  }

  ghost predicate Falling(times: seq<int>) {
    forall i, j :: 0 <= i < j < |times| ==> times[i] >= times[j]
  }

  lemma HeadIsGreatest(a: seq<int>, x: int)
    requires Falling(a) && x in multiset(a)
    ensures x <= a[0]
  {
    var i :| 0 <= i < |a| && a[i] == x;
  }

  lemma TailMultiset(a: seq<int>)
    requires a != [] && Falling(a)
    ensures multiset(a[1..]) == multiset(a) - multiset{a[0]} && Falling(a[1..])
  {
    assert a == [a[0]] + a[1..];
  }

  /** A multiset of numbers has one falling order. */
  lemma {:induction false} OneFalling(a: seq<int>, b: seq<int>)
    requires Falling(a) && Falling(b) && multiset(a) == multiset(b)
    ensures a == b
  {
    hide Falling;
    SameLength(a, b);
    if a != [] {
      SameHead(a, b);
      TailMultiset(a);
      TailMultiset(b);
      OneFalling(a[1..], b[1..]);
      HeadAndTail(a, b);
    }
  }

  lemma SameLength<T>(a: seq<T>, b: seq<T>)
    requires multiset(a) == multiset(b)
    ensures |a| == |b|
  {
    assert |multiset(a)| == |a| && |multiset(b)| == |b|;
  }

  lemma SameHead(a: seq<int>, b: seq<int>)
    requires Falling(a) && Falling(b) && multiset(a) == multiset(b) && a != [] && b != []
    ensures a[0] == b[0]
  {
    hide Falling;
    assert b[0] in multiset(b) && a[0] in multiset(a);
    HeadIsGreatest(a, b[0]);
    HeadIsGreatest(b, a[0]);
  }

  lemma HeadAndTail<T>(a: seq<T>, b: seq<T>)
    requires a != [] && b != [] && a[0] == b[0] && a[1..] == b[1..]
    ensures a == b
  {
    assert a == [a[0]] + a[1..] && b == [b[0]] + b[1..];
  }

  /** Whatever order the database picks, the same place has the same creation time. */
  lemma SamePlaces<T>(order: seq<T>, rows: seq<T>, created: T -> int)
    requires NewestFirst(rows, created) && OrderOf(order, rows, created)
    ensures |order| == |rows| && forall i :: 0 <= i < |rows| ==> created(order[i]) == created(rows[i])
  {
    SameTimes(order, rows, created);
    OneFalling(Times(order, created), Times(rows, created));
    assert Times(order, created) == Times(rows, created);
    forall i | 0 <= i < |rows| ensures created(order[i]) == created(rows[i]) {
      assert Times(order, created)[i] == Times(rows, created)[i];
    }
  }

  // ---------- when separate pages agree ----------

  /** Two different rows of the same creation time on different pages. */
  ghost predicate TieOverPages<T>(rows: seq<T>, limit: nat, created: T -> int)
    requires limit > 0
  {
    exists i, j :: 0 <= i < j < |rows| && TiedApart(rows, limit, created, i, j)
  }

  ghost predicate TiedApart<T>(rows: seq<T>, limit: nat, created: T -> int, i: nat, j: nat)
    requires limit > 0 && i < |rows| && j < |rows|
  {
    created(rows[i]) == created(rows[j]) && rows[i] != rows[j] && i / limit != j / limit
  }

  /** No different rows tie across the place `b`. */
  ghost predicate CleanCut<T>(rows: seq<T>, b: nat, created: T -> int) {
    forall i, j :: 0 <= i < b <= j < |rows| && created(rows[i]) == created(rows[j]) ==> rows[i] == rows[j]
  }

  lemma CutsAreClean<T>(rows: seq<T>, limit: nat, created: T -> int, k: nat)
    requires limit > 0 && !TieOverPages(rows, limit, created)
    ensures CleanCut(rows, k * limit, created)
  {
    forall i, j | 0 <= i < k * limit <= j < |rows| && created(rows[i]) == created(rows[j]) ensures rows[i] == rows[j] {
      PageNumber(i, k, limit);
      PageNumber(j, k, limit);
      assert !TiedApart(rows, limit, created, i, j);
    }
  }

  lemma PageNumber(i: nat, k: nat, limit: nat)
    requires limit > 0
    ensures i < k * limit <==> i / limit < k
  {
    assert i == (i / limit) * limit + i % limit;
    if i / limit < k {
      TimesMonotone(i / limit + 1, k, limit);
      assert (i / limit + 1) * limit == (i / limit) * limit + limit;
    } else {
      TimesMonotone(k, i / limit, limit);
    }
  }

  /** How often a row comes before the place `b`, when the rows after it are older or newer. */
  lemma OnOneSide<T>(s: seq<T>, b: nat, x: T, created: T -> int)
    requires b <= |s| && NewestFirst(s, created)
    ensures b < |s| && created(x) > created(s[b]) ==> multiset(s[..b])[x] == multiset(s)[x]
    ensures b > 0 && created(x) < created(s[b - 1]) ==> multiset(s[..b])[x] == 0
  {
    assert s == s[..b] + s[b..];
    if b < |s| && created(x) > created(s[b]) {
      assert x !in s[b..];
    }
    if b > 0 && created(x) < created(s[b - 1]) {
      assert x !in s[..b];
    }
  }

  /** At a clean cut every order has the same rows in front of it. */
  lemma SameBefore<T>(order: seq<T>, rows: seq<T>, b: nat, created: T -> int)
    requires NewestFirst(rows, created) && OrderOf(order, rows, created)
    requires b <= |rows| && CleanCut(rows, b, created)
    ensures |order| == |rows| && multiset(order[..b]) == multiset(rows[..b])
  {
    SamePlaces(order, rows, created);
    assert order[..|rows|] == order && rows[..|rows|] == rows;
    if 0 < b < |rows| {
      var edge := rows[b];
      forall x | x != edge ensures multiset(order[..b])[x] == multiset(rows[..b])[x] {
        OnOneSide(order, b, x, created);
        OnOneSide(rows, b, x, created);
        if created(rows[b - 1]) == created(x) == created(edge) {
          OnlyEdge(order, rows, b, x, created);
        }
      }
      SameButOne(multiset(order[..b]), multiset(rows[..b]), edge);
    }
  }

  /** When the times on both sides of a clean cut are equal, all rows of that time are the same. */
  lemma OnlyEdge<T>(order: seq<T>, rows: seq<T>, b: nat, x: T, created: T -> int)
    requires 0 < b < |rows| && CleanCut(rows, b, created) && multiset(order) == multiset(rows)
    requires created(rows[b - 1]) == created(rows[b]) == created(x) && x != rows[b]
    ensures |order| == |rows| && multiset(order[..b])[x] == 0 == multiset(rows[..b])[x]
  {
    SameLength(order, rows);
    assert x !in rows by {
      if i :| 0 <= i < |rows| && rows[i] == x {
        assert rows[b - 1] == rows[b];
      }
    }
    assert x !in multiset(order);
    assert order == order[..b] + order[b..];
    assert rows == rows[..b] + rows[b..];
  }

  lemma SameButOne<T>(a: multiset<T>, b: multiset<T>, x: T)
    requires |a| == |b| && forall y :: y != x ==> a[y] == b[y]
    ensures a == b
  {
    assert a[x := 0] == b[x := 0];
    assert |a[x := 0]| == |a| - a[x] && |b[x := 0]| == |b| - b[x];
  }

  /** With clean cuts between the pages, the first pages hold the first rows. */
  lemma {:induction false} PagesHold<T>(orders: seq<seq<T>>, rows: seq<T>, limit: nat, created: T -> int)
    requires limit > 0 && NewestFirst(rows, created) && OrdersOf(orders, rows, created)
    requires !TieOverPages(rows, limit, created)
    ensures multiset(Pages(orders, limit)) == multiset(rows[..AtMost(|orders| * limit, |rows|)])
  {
    if orders != [] {
      var n := |orders| - 1;
      PagesHold(orders[..n], rows, limit, created);
      OnePage(orders[n], rows, limit, n, created);
    }
  }

  lemma OnePage<T>(order: seq<T>, rows: seq<T>, limit: nat, n: nat, created: T -> int)
    requires limit > 0 && NewestFirst(rows, created) && OrderOf(order, rows, created)
    requires !TieOverPages(rows, limit, created)
    ensures multiset(rows[..AtMost((n + 1) * limit, |rows|)])
            == multiset(rows[..AtMost(n * limit, |rows|)]) + multiset(Slice(order, limit, n * limit))
  {
    hide TieOverPages, CleanCut, OrderOf, NewestFirst;
    OnePageMore(n, limit);
    var from, to := AtMost(n * limit, |rows|), AtMost(n * limit + limit, |rows|);
    CutsAreClean(rows, limit, created, n);
    CutsAreClean(rows, limit, created, n + 1);
    CutAtEnd(rows, n * limit, created);
    CutAtEnd(rows, n * limit + limit, created);
    SameBefore(order, rows, from, created);
    SameBefore(order, rows, to, created);
    SliceBetween(order, rows, limit, n * limit);
  }

  lemma CutAtEnd<T>(rows: seq<T>, b: nat, created: T -> int)
    requires CleanCut(rows, b, created)
    ensures CleanCut(rows, AtMost(b, |rows|), created)
  {
  }

  lemma SliceBetween<T>(order: seq<T>, rows: seq<T>, limit: nat, offset: nat)
    requires |order| == |rows|
    requires var from := AtMost(offset, |rows|); multiset(order[..from]) == multiset(rows[..from])
    requires var to := AtMost(offset + limit, |rows|); multiset(order[..to]) == multiset(rows[..to])
    ensures multiset(rows[..AtMost(offset + limit, |rows|)])
            == multiset(rows[..AtMost(offset, |rows|)]) + multiset(Slice(order, limit, offset))
  {
    var from, to := AtMost(offset, |rows|), AtMost(offset + limit, |rows|);
    assert order[..to] == order[..from] + order[from..to];
  }

  lemma SliceLength<T>(rows: seq<T>, limit: nat, offset: nat)
    ensures |Slice(rows, limit, offset)| == AtMost(offset + limit, |rows|) - AtMost(offset, |rows|)
    ensures forall i :: 0 <= i < |Slice(rows, limit, offset)| ==> Slice(rows, limit, offset)[i] == rows[offset + i]
  {
  }

  lemma {:induction false} PagesLength<T>(orders: seq<seq<T>>, total: nat, limit: nat)
    requires forall k :: 0 <= k < |orders| ==> |orders[k]| == total
    ensures |Pages(orders, limit)| == AtMost(|orders| * limit, total)
  {
    if orders != [] {
      hide Slice;
      var n := |orders| - 1;
      PagesLength(orders[..n], total, limit);
      SliceLength(orders[n], limit, n * limit);
      OnePageMore(n, limit);
    }
  }

  lemma OnePageMore(n: nat, limit: nat)
    ensures (n + 1) * limit == n * limit + limit
  {
  }

  lemma {:induction false} PageItem<T>(orders: seq<seq<T>>, total: nat, limit: nat, page: nat, i: nat)
    requires forall k :: 0 <= k < |orders| ==> |orders[k]| == total
    requires i < |Pages(orders, limit)| && page * limit <= i < page * limit + limit
    ensures page < |orders| && i < total && Pages(orders, limit)[i] == orders[page][i]
  {
    hide Slice;
    var n := |orders| - 1;
    PagesLength(orders, total, limit);
    PagesLength(orders[..n], total, limit);
    OnePageMore(page, limit);
    OnePageMore(n, limit);
    if page < n {
      TimesMonotone(page + 1, n, limit);
      PageItem(orders[..n], total, limit, page, i);
    } else {
      TimesMonotone(n, page, limit);
      SliceLength(orders[n], limit, n * limit);
      if page > n {
        TimesMonotone(n + 1, page, limit);
      }
    }
  }

  /** The item at place `i` of all pages is the one its page's order has there. */
  lemma PageItems<T>(orders: seq<seq<T>>, total: nat, limit: nat, i: nat)
    requires limit > 0 && forall k :: 0 <= k < |orders| ==> |orders[k]| == total
    requires i < |Pages(orders, limit)|
    ensures i / limit < |orders| && i < total && Pages(orders, limit)[i] == orders[i / limit][i]
  {
    hide Pages;
    assert i == (i / limit) * limit + i % limit;
    PageItem(orders, total, limit, i / limit, i);
  }

  /** Without ties over pages, the pages taken together are an order of the rows: each row once, newest first. */
  lemma CoversWithoutTies<T>(orders: seq<seq<T>>, rows: seq<T>, limit: nat, created: T -> int)
    requires limit > 0 && NewestFirst(rows, created) && !TieOverPages(rows, limit, created)
    requires |orders| == LastPage(|rows|, limit) && OrdersOf(orders, rows, created)
    ensures OrderOf(Pages(orders, limit), rows, created)
  {
    SliceBounds(|rows|, limit, |orders|);
    PagesHold(orders, rows, limit, created);
    assert rows[..|rows|] == rows;
    InOrder(orders, rows, limit, created);
  }

  lemma InOrderBy<T>(a: seq<T>, rows: seq<T>, created: T -> int)
    requires NewestFirst(rows, created)
    requires |a| <= |rows| && forall i :: 0 <= i < |a| ==> created(a[i]) == created(rows[i])
    ensures NewestFirst(a, created)
  {
  }

  lemma SameLengths<T>(orders: seq<seq<T>>, rows: seq<T>, created: T -> int)
    requires OrdersOf(orders, rows, created)
    ensures forall k :: 0 <= k < |orders| ==> |orders[k]| == |rows|
  {
    hide NewestFirst;
    forall k | 0 <= k < |orders| ensures |orders[k]| == |rows| {
      assert OrderOf(orders[k], rows, created);
      SameLength(orders[k], rows);
    }
  }

  lemma TimeOnPage<T>(orders: seq<seq<T>>, rows: seq<T>, limit: nat, created: T -> int, i: nat)
    requires limit > 0 && NewestFirst(rows, created) && OrdersOf(orders, rows, created)
    requires i < |Pages(orders, limit)|
    ensures i < |rows| && created(Pages(orders, limit)[i]) == created(rows[i])
  {
    hide Pages, NewestFirst, OrderOf;
    SameLengths(orders, rows, created);
    PageItems(orders, |rows|, limit, i);
    var order := orders[i / limit];
    assert OrderOf(order, rows, created);
    SamePlaces(order, rows, created);
  }

  lemma InOrder<T>(orders: seq<seq<T>>, rows: seq<T>, limit: nat, created: T -> int)
    requires limit > 0 && NewestFirst(rows, created) && OrdersOf(orders, rows, created)
    ensures NewestFirst(Pages(orders, limit), created)
  {
    hide Pages, NewestFirst, OrdersOf;
    var pages := Pages(orders, limit);
    SameLengths(orders, rows, created);
    PagesLength(orders, |rows|, limit);
    forall i | 0 <= i < |pages| ensures created(pages[i]) == created(rows[i]) {
      TimeOnPage(orders, rows, limit, created, i);
    }
    InOrderBy(pages, rows, created);
  }

  lemma PagesAre<T>(orders: seq<seq<T>>, result: seq<T>, limit: nat)
    requires limit > 0 && |orders| == LastPage(|result|, limit)
    requires forall k :: 0 <= k < |orders| ==> |orders[k]| == |result|
    requires forall k :: 0 <= k < |result| && k / limit < |orders| ==> orders[k / limit][k] == result[k]
    ensures Pages(orders, limit) == result
  {
    SliceBounds(|result|, limit, |orders|);
    PagesLength(orders, |result|, limit);
    hide Pages, LastPage;
    forall k | 0 <= k < |result| ensures Pages(orders, limit)[k] == result[k] {
      PageItems(orders, |result|, limit, k);
    }
  }

  /** All pages from `rows`, but the one that shows place `j` from an order that has another row there. */
  lemma RepeatedPages<T>(rows: seq<T>, other: seq<T>, limit: nat, j: nat) returns (orders: seq<seq<T>>)
    requires limit > 0 && j < |rows| == |other|
    requires forall k :: 0 <= k < |rows| && k != j && k / limit == j / limit ==> other[k] == rows[k]
    ensures |orders| == LastPage(|rows|, limit)
    ensures forall k :: 0 <= k < |orders| ==> orders[k] == rows || orders[k] == other
    ensures Pages(orders, limit) == rows[j := other[j]]
  {
    hide Pages, LastPage;
    var page := j / limit;
    orders := seq(LastPage(|rows|, limit), k => if k == page then other else rows);
    PagesAre(orders, rows[j := other[j]], limit);
  }

  lemma MultisetUpdate<T>(s: seq<T>, p: nat, x: T)
    requires p < |s|
    ensures multiset(s[p := x]) + multiset{s[p]} == multiset(s) + multiset{x}
  {
    assert s == s[..p] + [s[p]] + s[p + 1..];
    assert s[p := x] == s[..p] + [x] + s[p + 1..];
  }

  lemma OneReplaced<T>(rows: seq<T>, j: nat, x: T)
    requires j < |rows| && x != rows[j]
    ensures multiset(rows[j := x]) != multiset(rows)
  {
    MultisetUpdate(rows, j, x);
    assert (multiset(rows) + multiset{x})[x] == multiset(rows)[x] + 1;
  }

  /** Different rows have different creation times. */
  ghost predicate DistinctTimes<T>(rows: seq<T>, created: T -> int) {
    forall i, j :: 0 <= i < j < |rows| && created(rows[i]) == created(rows[j]) ==> rows[i] == rows[j]
  }
}
