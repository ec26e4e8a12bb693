/** Client-side paging: the slices of a list and the window of page numbers. */
module Pagination {

  // ---------------------------------------------------------------- slices

  /** The number of pages; an empty list has one. */
  function TotalPages(total: nat, pageSize: nat): nat
    requires pageSize > 0
  {
    if total == 0 then 1 else (total + pageSize - 1) / pageSize
  }

  function ClampPage(page: int, total: nat, pageSize: nat): int
    requires pageSize > 0
  {
    var max := TotalPages(total, pageSize);
    if page < 1 then 1 else if page > max then max else page
  }

  function Min(a: nat, b: nat): nat {
    if a < b then a else b
  }

  lemma LastPage(total: nat, pageSize: nat)
    requires pageSize > 0 && total > 0
    ensures var n := TotalPages(total, pageSize); n >= 1 && (n - 1) * pageSize < total <= n * pageSize
  {
  }

  lemma PageStart(page: nat, total: nat, pageSize: nat)
    requires pageSize > 0 && total > 0 && 1 <= page <= TotalPages(total, pageSize)
    ensures 0 <= (page - 1) * pageSize < total && page * pageSize == (page - 1) * pageSize + pageSize
  {
  }

  function SlicePage<T>(items: seq<T>, page: int, pageSize: nat): seq<T>
    requires pageSize > 0
  {
    if items == [] then []
    else
      var safePage := ClampPage(page, |items|, pageSize);
      LastPage(|items|, pageSize);
      PageStart(safePage, |items|, pageSize);
      var start := (safePage - 1) * pageSize;
      items[start..Min(start + pageSize, |items|)]
  }

  /** The last page starts before the end of the list and reaches it; a page is among them exactly when it starts before
      the end. */
  lemma PageInRange(page: int, total: nat, pageSize: nat)
    requires pageSize > 0 && total > 0 && page >= 1
    ensures page <= TotalPages(total, pageSize) <==> (page - 1) * pageSize < total
  {
    LastPage(total, pageSize);
    var max := TotalPages(total, pageSize);
    if page <= max {
      assert (page - 1) * pageSize <= (max - 1) * pageSize;
    } else {
      assert (page - 1) * pageSize >= max * pageSize;
    }
  }

  lemma AtLeastOne(total: nat, pageSize: nat)
    requires pageSize > 0
    ensures TotalPages(total, pageSize) >= 1
  {
    if total > 0 { LastPage(total, pageSize); }
  }

  /** A page before the first shows the first, one behind the last shows the last, and any other shows the rows behind
      the full pages before it. */
  lemma SliceExact<T>(items: seq<T>, page: int, pageSize: nat)
    requires pageSize > 0 && items != []
    ensures page < 1 ==> SlicePage(items, page, pageSize) == SlicePage(items, 1, pageSize)
    ensures page >= 1 ==> var start := (page - 1) * pageSize;
                          SlicePage(items, page, pageSize) ==
                            if start < |items| then items[start..Min(start + pageSize, |items|)]
                            else SlicePage(items, TotalPages(|items|, pageSize), pageSize)
  {
    hide TotalPages;
    AtLeastOne(|items|, pageSize);
    if page >= 1 {
      PageInRange(page, |items|, pageSize);
      if page <= TotalPages(|items|, pageSize) { PageStart(page, |items|, pageSize); }
    }
  }

  function SliceThroughPages<T>(items: seq<T>, loadedPageCount: int, pageSize: nat): seq<T>
    requires pageSize > 0
  {
    if items == [] || loadedPageCount <= 0 then [] else items[..Min(loadedPageCount * pageSize, |items|)]
  }

  /** The first pages, one after the other. */
  function FirstPages<T>(items: seq<T>, count: nat, pageSize: nat): seq<T>
    requires pageSize > 0
  {
    if count == 0 then [] else FirstPages(items, count - 1, pageSize) + SlicePage(items, count, pageSize)
  }

  /** The first k pages together are what infinite scrolling shows after k pages. */
  lemma {:induction false} PagesAccumulate<T>(items: seq<T>, count: nat, pageSize: nat)
    requires pageSize > 0 && items != [] && count <= TotalPages(|items|, pageSize)
    ensures FirstPages(items, count, pageSize) == SliceThroughPages(items, count, pageSize)
  {
    if count > 0 {
      PagesAccumulate(items, count - 1, pageSize);
      PageStart(count, |items|, pageSize);
      var start := (count - 1) * pageSize;
      assert items[..start] + items[start..Min(start + pageSize, |items|)] == items[..Min(start + pageSize, |items|)];
    }
  }

  /** Main result: the pages of a list put together are the list. */
  lemma PagesMakeTheList<T>(items: seq<T>, pageSize: nat)
    requires pageSize > 0 && items != []
    ensures FirstPages(items, TotalPages(|items|, pageSize), pageSize) == items
  {
    LastPage(|items|, pageSize);
    PagesAccumulate(items, TotalPages(|items|, pageSize), pageSize);
    assert items[..|items|] == items;
  }

  // ---------------------------------------------------------------- the window of page numbers

  datatype Token = Page(number: nat) | Ellipsis

  /** The tokens go on from a page to the last one: each shown page follows the one before, and an ellipsis stands
      for the pages, at least one, between two shown ones. */
  ghost predicate Covers(tokens: seq<Token>, shown: nat, last: nat) {
    if tokens == [] then shown == last
    else if tokens[0].Page? then tokens[0].number == shown + 1 && Covers(tokens[1..], shown + 1, last)
    else shown >= 1 && |tokens| > 1 && tokens[1].Page? && tokens[1].number > shown + 1
         && Covers(tokens[2..], tokens[1].number, last)
  }

  lemma CoversMore(tokens: seq<Token>, shown: nat, last: nat, next: nat)
    requires Covers(tokens, shown, last) && next > last
    ensures next == last + 1 ==> Covers(tokens + [Page(next)], shown, next)
    ensures next > last + 1 && last >= 1 ==> Covers(tokens + [Ellipsis, Page(next)], shown, next)
    decreases |tokens|
  {
    var near, far := tokens + [Page(next)], tokens + [Ellipsis, Page(next)];
    if tokens == [] {
      assert near[1..] == [] && far[2..] == [];
    } else if tokens[0].Page? {
      assert near[1..] == tokens[1..] + [Page(next)] && far[1..] == tokens[1..] + [Ellipsis, Page(next)];
      CoversMore(tokens[1..], shown + 1, last, next);
    } else {
      assert near[2..] == tokens[2..] + [Page(next)] && far[2..] == tokens[2..] + [Ellipsis, Page(next)];
      CoversMore(tokens[2..], tokens[1].number, last, next);
    }
  }

  ghost predicate Increasing(xs: seq<nat>) {
    forall i, j :: 0 <= i < j < |xs| ==> xs[i] < xs[j]
  }

  lemma LeastExists(s: set<nat>)
    requires s != {}
    ensures exists m :: m in s && forall x :: x in s ==> m <= x
  {
    var x :| x in s;
    var rest := s - {x};
    if rest == {} {
      assert s == {x};
    } else {
      LeastExists(rest);
      var m :| m in rest && forall y :: y in rest ==> m <= y;
      var least := if x < m then x else m;
      assert forall y :: y in s ==> y == x || y in rest;
      assert least in s && forall y :: y in s ==> least <= y;
    }
  }

  method SortPages(pages: set<nat>) returns (sorted: seq<nat>)
    ensures Increasing(sorted) && forall x :: x in sorted <==> x in pages
  {
    sorted := [];
    var left := pages;
    while left != {}
      invariant Increasing(sorted) && left <= pages
      invariant forall x :: x in pages <==> x in sorted || x in left
      invariant forall i, x :: 0 <= i < |sorted| && x in left ==> sorted[i] < x
    {
      LeastExists(left);
      var m :| m in left && forall x :: x in left ==> m <= x;
      sorted := sorted + [m];
      left := left - {m};
    }
  }

  /** The page is one of those always shown: the first, the last, or within reach of the current one. */
  predicate Shown(page: int, current: int, total: int, siblings: int) {
    1 <= page <= total && (page == 1 || page == total || current - siblings <= page <= current + siblings)
  }

  /** The shown pages with an ellipsis in every gap. */
  method WithEllipses(sorted: seq<nat>, total: nat) returns (tokens: seq<Token>)
    requires Increasing(sorted) && 1 in sorted && total in sorted
    requires forall x :: x in sorted ==> 1 <= x <= total
    ensures Covers(tokens, 0, total)
    ensures forall n: nat :: Page(n) in tokens <==> n in sorted
  {
    tokens := [];
    var last := 0;
    assert sorted[0] == 1 by {
      var k :| 0 <= k < |sorted| && sorted[k] == 1;
      if k > 0 { assert sorted[0] in sorted; }
    }
    for i := 0 to |sorted|
      invariant last == if i == 0 then 0 else sorted[i - 1]
      invariant Covers(tokens, 0, last)
      invariant forall n: nat :: Page(n) in tokens <==> n in sorted[..i]
    {
      hide Covers;
      assert sorted[..i + 1] == sorted[..i] + [sorted[i]];
      CoversMore(tokens, 0, last, sorted[i]);
      if i > 0 && sorted[i] - sorted[i - 1] > 1 {
        assert tokens + [Ellipsis, Page(sorted[i])] == tokens + [Ellipsis] + [Page(sorted[i])];
        tokens := tokens + [Ellipsis];
      }
      tokens := tokens + [Page(sorted[i])];
      last := sorted[i];
    }
    assert sorted[..|sorted|] == sorted;
    assert last == total by {
      var k :| 0 <= k < |sorted| && sorted[k] == total;
      assert sorted[|sorted| - 1] in sorted;
    }
  }

  /** Main result: the tokens cover the pages from first to last in order, and the numbers among them are exactly
      the first, the last and the siblings of the current page; with at most seven pages they are all. */
  method BuildPageTokens(current: int, total: int, siblings: int) returns (tokens: seq<Token>)
    ensures total <= 0 ==> tokens == [Page(1)]
    ensures total > 0 ==> Covers(tokens, 0, total)
    ensures 0 < total <= 7 ==> Ellipsis !in tokens
    ensures total > 7 ==>
              var safe := if current < 1 then 1 else if current > total then total else current;
              forall n: nat :: Page(n) in tokens <==> Shown(n, safe, total, siblings)
  {
    if total <= 0 { return [Page(1)]; }
    var safe := if current < 1 then 1 else if current > total then total else current;
    tokens := [];
    if total <= 7 {
      for i := 0 to total
        invariant Covers(tokens, 0, i) && Ellipsis !in tokens
      {
        CoversMore(tokens, 0, i, i + 1);
        tokens := tokens + [Page(i + 1)];
      }
      return;
    }
    var pages: set<nat> := {1, total};
    var i := safe - siblings;
    while i <= safe + siblings
      invariant forall x :: x in pages <==> x == 1 || x == total || (1 <= x <= total && safe - siblings <= x < i)
      invariant if siblings < 0 then i == safe - siblings else i <= safe + siblings + 1
      decreases safe + siblings - i
    {
      if 1 <= i <= total { pages := pages + {i}; }
      i := i + 1;
    }
    var sorted := SortPages(pages);
    tokens := WithEllipses(sorted, total);
    assert forall n: nat :: n in sorted <==> n in pages;
  }
}
