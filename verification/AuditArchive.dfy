/** Archiving audit rows to day files and purging them, page by page behind a cursor. */
module AuditArchive {
  import opened Wrappers

  /** A log row; the time counts microseconds from the epoch. */
  datatype Row = Row(id: nat, at: int, text: string)

  const DAY := 86_400_000_000

  /** The day a row belongs to. */
  function DateKey(at: int): int {
    at / DAY
  }

  /** The day files, each a list of lines. */
  type Archive = map<int, seq<Row>>

  /** A day has eighty-six thousand four hundred seconds, and each moment belongs to one. */
  lemma DayBounds(at: int, day: int)
    ensures DateKey(at) == day <==> day * 86_400_000_000 <= at < (day + 1) * 86_400_000_000
  {
  }

  /** A log table in id order; ids start at one. */
  predicate IsTable(t: seq<Row>) {
    && (forall i :: 0 <= i < |t| ==> t[i].id >= 1)
    && (forall i, j :: 0 <= i < j < |t| ==> t[i].id < t[j].id)
  }

  /** The rows before a time. */
  function Older(t: seq<Row>, before: int): seq<Row> {
    if t == [] then []
    else Older(t[..|t| - 1], before) + if t[|t| - 1].at < before then [t[|t| - 1]] else []
  }

  /** The rows at or after a time. */
  function Newer(t: seq<Row>, from: int): seq<Row> {
    if t == [] then []
    else Newer(t[..|t| - 1], from) + if t[|t| - 1].at >= from then [t[|t| - 1]] else []
  }

  /** The rows behind a cursor. */
  function Behind(t: seq<Row>, afterId: nat): seq<Row> {
    if t == [] then []
    else Behind(t[..|t| - 1], afterId) + if t[|t| - 1].id > afterId then [t[|t| - 1]] else []
  }

  function Min(a: nat, b: nat): nat {
    if a < b then a else b
  }

  /** The page query: the first rows before a time and behind the cursor, in id order. */
  function FetchBefore(t: seq<Row>, before: int, limit: nat, afterId: nat): seq<Row> {
    var rows := Behind(Older(t, before), afterId);
    rows[..Min(limit, |rows|)]
  }

  // ---------------------------------------------------------------- pages and positions

  /** The cursor that stands behind the first p rows. */
  function Cursor(m: seq<Row>, p: nat): nat
    requires p <= |m|
  {
    if p == 0 then 0 else m[p - 1].id
  }

  lemma OlderIsTable(t: seq<Row>, before: int)
    requires IsTable(t)
    ensures IsTable(Older(t, before))
    ensures forall r :: r in Older(t, before) <==> r in t && r.at < before
  {
  }

  lemma CursorBelow(m: seq<Row>, p: nat, i: nat)
    requires IsTable(m) && p <= |m| && i < |m|
    ensures m[i].id > Cursor(m, p) <==> i >= p
  {
  }

  lemma {:induction false} NoneBehind(m: seq<Row>, n: nat, afterId: nat)
    requires n <= |m| && forall i :: 0 <= i < n ==> m[i].id <= afterId
    ensures Behind(m[..n], afterId) == []
  {
    if n > 0 {
      assert m[..n][..n - 1] == m[..n - 1];
      NoneBehind(m, n - 1, afterId);
    }
  }

  lemma {:induction false} BehindCursor(m: seq<Row>, p: nat, n: nat)
    requires IsTable(m) && p <= n <= |m|
    ensures Behind(m[..n], Cursor(m, p)) == m[p..n]
  {
    hide IsTable, Cursor;
    if p == n {
      forall i | 0 <= i < n ensures m[i].id <= Cursor(m, p) { CursorBelow(m, p, i); }
      NoneBehind(m, n, Cursor(m, p));
    } else {
      BehindCursor(m, p, n - 1);
      CursorBelow(m, p, n - 1);
      assert m[..n][..n - 1] == m[..n - 1] && m[p..n] == m[p..n - 1] + [m[n - 1]];
    }
  }

  lemma BehindPosition(t: seq<Row>, before: int, p: nat)
    requires IsTable(t) && p <= |Older(t, before)|
    ensures Behind(Older(t, before), Cursor(Older(t, before), p)) == Older(t, before)[p..]
  {
    var m := Older(t, before);
    OlderIsTable(t, before);
    BehindCursor(m, p, |m|);
    assert m[..|m|] == m;
  }

  lemma TakeOfDrop(m: seq<Row>, p: nat, k: nat)
    requires p + k <= |m|
    ensures m[p..][..k] == m[p..p + k]
  {
  }

  /** The rows from one position to another. */
  ghost function Stretch(m: seq<Row>, p: nat, n: nat): seq<Row>
    requires p <= n <= |m|
  {
    m[p..n]
  }

  /** A page read behind the first p matching rows is the next stretch of the matching rows. */
  lemma FetchPage(t: seq<Row>, before: int, limit: nat, p: nat)
    requires IsTable(t) && p <= |Older(t, before)|
    ensures var m := Older(t, before);
            FetchBefore(t, before, limit, Cursor(m, p)) == Stretch(m, p, Min(p + limit, |m|))
  {
    var m := Older(t, before);
    BehindPosition(t, before, p);
    hide Older, Behind, IsTable, Cursor;
    TakeOfDrop(m, p, Min(limit, |m| - p));
  }

  // ---------------------------------------------------------------- what is written

  lemma NewerMembers(t: seq<Row>, from: int)
    ensures forall r :: r in Newer(t, from) <==> r in t && r.at >= from
  {
  }

  lemma AllNewer(t: seq<Row>, from: int)
    requires forall r :: r in t ==> r.at >= from
    ensures Newer(t, from) == t
  {
  }

  function FileOf(a: Archive, day: int): seq<Row> {
    if day in a then a[day] else []
  }

  /** One line appended to the file of the row's own day. */
  function Append(a: Archive, r: Row): Archive {
    a[DateKey(r.at) := FileOf(a, DateKey(r.at)) + [r]]
  }

  function AppendAll(a: Archive, rows: seq<Row>): Archive {
    if rows == [] then a else Append(AppendAll(a, rows[..|rows| - 1]), rows[|rows| - 1])
  }

  function OfDay(rows: seq<Row>, day: int): seq<Row> {
    if rows == [] then []
    else OfDay(rows[..|rows| - 1], day) + if DateKey(rows[|rows| - 1].at) == day then [rows[|rows| - 1]] else []
  }

  /** The rows of a day are those between its midnight and the next one, UTC. */
  lemma {:induction false} OfDayMembers(rows: seq<Row>, day: int)
    ensures forall r :: r in OfDay(rows, day) <==>
                        r in rows && day * 86_400_000_000 <= r.at < (day + 1) * 86_400_000_000
  {
    if rows != [] {
      OfDayMembers(rows[..|rows| - 1], day);
      DayBounds(rows[|rows| - 1].at, day);
    }
  }

  lemma {:induction false} OfDayKnown(rows: seq<Row>, day: int)
    ensures forall r :: r in OfDay(rows, day) ==> r in rows
  {
    if rows != [] { OfDayKnown(rows[..|rows| - 1], day); }
  }

  /** They keep the order of the table. */
  lemma {:induction false} OfDayInOrder(rows: seq<Row>, day: int)
    requires IsTable(rows)
    ensures IsTable(OfDay(rows, day))
  {
    if rows != [] {
      var front, last := rows[..|rows| - 1], rows[|rows| - 1];
      OfDayInOrder(front, day);
      OfDayKnown(front, day);
      var kept := OfDay(front, day);
      forall i | 0 <= i < |kept| ensures kept[i].id < last.id {
        assert kept[i] in front;
      }
    }
  }

  /** Each day's file grows by the rows of that day, in order, and by nothing else. */
  lemma {:induction false} DayFile(a: Archive, rows: seq<Row>, day: int)
    ensures FileOf(AppendAll(a, rows), day) == FileOf(a, day) + OfDay(rows, day)
    ensures day in AppendAll(a, rows) <==> day in a || OfDay(rows, day) != []
  {
    if rows != [] { DayFile(a, rows[..|rows| - 1], day); }
  }

  /** The first n rows. */
  ghost function Front(m: seq<Row>, n: nat): seq<Row>
    requires n <= |m|
  {
    m[..n]
  }

  // ---------------------------------------------------------------- one page of the service's loop

  /** Where the cursor stands after rows p to end were looked at: behind the last one written. */
  function Advance(m: seq<Row>, from: int, p: nat, end: nat): (q: nat)
    requires p <= end <= |m|
    ensures p <= q <= end
  {
    if end == p then p else if m[end - 1].at >= from then end else Advance(m, from, p, end - 1)
  }

  lemma SkippedAfterAdvance(m: seq<Row>, from: int, p: nat, end: nat)
    requires p <= end <= |m|
    ensures Newer(m[..Advance(m, from, p, end)], from) == Newer(m[..end], from)
    ensures forall i :: Advance(m, from, p, end) <= i < end ==> m[i].at < from
  {
    if end != p && m[end - 1].at < from {
      assert m[..end][..end - 1] == m[..end - 1];
      SkippedAfterAdvance(m, from, p, end - 1);
    }
  }

  /** The position behind which the next page is read. */
  function NextPosition(m: seq<Row>, from: int, batch: nat, p: nat): (q: nat)
    requires p <= |m|
    ensures p <= q <= |m|
  {
    Advance(m, from, p, Min(p + batch, |m|))
  }

  /** The loop ends at a short page. */
  predicate Stops(m: seq<Row>, batch: nat, p: nat)
  {
    |m| < p + batch
  }

  function PositionAfter(m: seq<Row>, from: int, batch: nat, pages: nat): (p: nat)
    ensures p <= |m|
  {
    if pages == 0 then 0 else NextPosition(m, from, batch, PositionAfter(m, from, batch, pages - 1))
  }

  /** The loop comes to a short page. */
  ghost predicate Terminates(m: seq<Row>, from: int, batch: nat) {
    exists n: nat :: Stops(m, batch, PositionAfter(m, from, batch, n))
  }

  /** A page full of rows that are skipped. */
  ghost predicate FullGap(m: seq<Row>, from: int, batch: nat, i: nat) {
    i + batch <= |m| && forall j :: i <= j < i + batch ==> m[j].at < from
  }

  /** No full page's worth of rows in a row lies before the start bound. */
  ghost predicate NoFullGap(m: seq<Row>, from: int, batch: nat) {
    forall i: nat :: !FullGap(m, from, batch, i)
  }

  lemma AdvanceMoves(m: seq<Row>, from: int, batch: nat, p: nat)
    requires batch >= 1 && p <= |m| && !Stops(m, batch, p) && !FullGap(m, from, batch, p)
    ensures NextPosition(m, from, batch, p) > p
  {
    SkippedAfterAdvance(m, from, p, p + batch);
  }

  lemma EventuallyStops(m: seq<Row>, from: int, batch: nat, n: nat)
    requires batch >= 1 && NoFullGap(m, from, batch)
    ensures Terminates(m, from, batch)
    decreases |m| - PositionAfter(m, from, batch, n)
  {
    var p := PositionAfter(m, from, batch, n);
    if !Stops(m, batch, p) {
      AdvanceMoves(m, from, batch, p);
      assert PositionAfter(m, from, batch, n + 1) == NextPosition(m, from, batch, p);
      EventuallyStops(m, from, batch, n + 1);
    }
  }

  lemma AdvanceWritten(m: seq<Row>, from: int, p: nat, end: nat)
    requires p <= end <= |m|
    ensures var q := Advance(m, from, p, end); q > p ==> m[q - 1].at >= from
  {
  }

  /** The cursor never gets past the start of a gap as long as a page. */
  lemma StuckBefore(m: seq<Row>, from: int, batch: nat, i: nat, n: nat)
    requires batch >= 1 && FullGap(m, from, batch, i)
    ensures PositionAfter(m, from, batch, n) <= i
  {
    if n > 0 {
      StuckBefore(m, from, batch, i, n - 1);
      var p := PositionAfter(m, from, batch, n - 1);
      var q := NextPosition(m, from, batch, p);
      AdvanceWritten(m, from, p, Min(p + batch, |m|));
    }
  }

  /** Exactly when the loop ends: when no page's worth of consecutive rows, in id order among those before the end
      bound, lies before the start bound. */
  lemma TerminatesExactly(m: seq<Row>, from: int, batch: nat)
    requires batch >= 1
    ensures Terminates(m, from, batch) <==> NoFullGap(m, from, batch)
  {
    if NoFullGap(m, from, batch) {
      EventuallyStops(m, from, batch, 0);
    } else {
      var i: nat :| FullGap(m, from, batch, i);
      forall n: nat ensures !Stops(m, batch, PositionAfter(m, from, batch, n)) {
        StuckBefore(m, from, batch, i, n);
      }
    }
  }

  // ---------------------------------------------------------------- rows logged meanwhile

  /** No row lies before a time. */
  predicate AllFrom(rows: seq<Row>, bound: int) {
    forall i :: 0 <= i < |rows| ==> rows[i].at >= bound
  }

  /** A suspension point: rows are logged behind those of the table, at or after a time unless early ones may come. */
  method Arrive(t: seq<Row>, bound: int, early: bool) returns (table: seq<Row>, ghost late: seq<Row>)
    requires IsTable(t)
    ensures table == t + late && IsTable(table) && (!early ==> AllFrom(late, bound))
  {
    var offered: seq<Row> := *;
    table, late := t, [];
    assert t + [] == t;
    if IsTable(t + offered) && (early || AllFrom(offered, bound)) {
      table, late := t + offered, offered;
    }
  }

  lemma OlderConcat(a: seq<Row>, b: seq<Row>, before: int)
    ensures Older(a + b, before) == Older(a, before) + Older(b, before)
  {
    if b == [] {
      assert a + b == a;
    } else {
      assert (a + b)[..|a + b| - 1] == a + b[..|b| - 1];
      OlderConcat(a, b[..|b| - 1], before);
    }
  }

  lemma NewerConcat(a: seq<Row>, b: seq<Row>, from: int)
    ensures Newer(a + b, from) == Newer(a, from) + Newer(b, from)
  {
    if b == [] {
      assert a + b == a;
    } else {
      assert (a + b)[..|a + b| - 1] == a + b[..|b| - 1];
      NewerConcat(a, b[..|b| - 1], from);
    }
  }

  lemma NoneOlder(rows: seq<Row>, bound: int)
    ensures AllFrom(rows, bound) <==> Older(rows, bound) == []
    ensures AllFrom(rows, bound) ==> Newer(rows, bound) == rows
  {
  }

  /** Rows at or after the bound change nothing for the page queries. */
  lemma LateUnseen(t: seq<Row>, late: seq<Row>, bound: int)
    requires AllFrom(late, bound)
    ensures Older(t + late, bound) == Older(t, bound) && Newer(t + late, bound) == Newer(t, bound) + late
  {
    NoneOlder(late, bound);
    OlderConcat(t, late, bound);
    NewerConcat(t, late, bound);
  }

  lemma LateConcat(a: seq<Row>, b: seq<Row>, bound: int)
    requires AllFrom(a, bound) && AllFrom(b, bound)
    ensures AllFrom(a + b, bound)
  {
  }

  // ---------------------------------------------------------------- the service's export

  /** The list without repetitions. */
  method Dedup(files: seq<int>) returns (distinct: seq<int>)
    ensures forall d :: d in distinct <==> d in files
    ensures forall i, j :: 0 <= i < j < |distinct| ==> distinct[i] != distinct[j]
  {
    distinct := [];
    for i := 0 to |files|
      invariant forall d :: d in distinct <==> d in files[..i]
      invariant forall i, j :: 0 <= i < j < |distinct| ==> distinct[i] != distinct[j]
    {
      if files[i] !in distinct { distinct := distinct + [files[i]]; }
    }
  }

  /** The files opened so far are those of the rows written so far. */
  ghost predicate FilesMatch(files: seq<int>, written: seq<Row>) {
    && (forall r :: r in written ==> DateKey(r.at) in files)
    && (forall d :: d in files ==> exists r :: r in written && DateKey(r.at) == d)
  }

  /** The state of a run: the files on disk, the files opened in order, the day of the open one, the rows written. */
  datatype Writer = Writer(archive: Archive, files: seq<int>, date: Option<int>, total: nat)

  /** The run has written exactly these rows. */
  ghost predicate Wrote(w: Writer, start: Archive, written: seq<Row>) {
    && w.archive == AppendAll(start, written)
    && FilesMatch(w.files, written) && (w.date.Some? ==> w.date.value in w.files)
    && w.total == |written|
  }

  /** Writes one row: opens the file of its day unless it is the open one, and appends a line. */
  function Write(w: Writer, row: Row): Writer {
    var day := DateKey(row.at);
    Writer(Append(w.archive, row), if w.date == Some(day) then w.files else w.files + [day], Some(day), w.total + 1)
  }

  lemma WroteOneMore(w: Writer, start: Archive, written: seq<Row>, row: Row)
    requires Wrote(w, start, written)
    ensures Wrote(Write(w, row), start, written + [row])
  {
  }

  lemma NewerStep(m: seq<Row>, from: int, k: nat)
    requires k < |m|
    ensures Newer(Front(m, k + 1), from) == Newer(Front(m, k), from) + if m[k].at >= from then [m[k]] else []
  {
    assert m[..k + 1][..k] == m[..k];
  }

  /** One page: rows before the start bound are passed over, the others written; the cursor follows the written ones. */
  method WritePage(rows: seq<Row>, from: int, afterId: nat, before: Writer, ghost start: Archive, ghost m: seq<Row>,
                   ghost p: nat)
    returns (after: nat, w: Writer)
    requires p + |rows| <= |m| && rows == Stretch(m, p, p + |rows|) && afterId == Cursor(m, p)
    requires Wrote(before, start, Newer(Front(m, p), from))
    ensures after == Cursor(m, Advance(m, from, p, p + |rows|))
    ensures Wrote(w, start, Newer(Front(m, p + |rows|), from))
  {
    hide Wrote, Newer;
    after, w := afterId, before;
    for k := 0 to |rows|
      invariant after == Cursor(m, Advance(m, from, p, p + k))
      invariant Wrote(w, start, Newer(Front(m, p + k), from))
    {
      var row := rows[k];
      assert row == m[p + k];
      NewerStep(m, from, p + k);
      if row.at >= from {
        WroteOneMore(w, start, Newer(Front(m, p + k), from), row);
        w := Write(w, row);
        after := row.id;
      } else {
        assert Newer(Front(m, p + k), from) + [] == Newer(Front(m, p + k), from);
      }
    }
  }

  /** After a page the cursor stands behind everything written; without a full gap a full page moves it. */
  lemma PageMoves(m: seq<Row>, from: int, batch: nat, p: nat)
    requires batch >= 1 && p + batch <= |m|
    ensures var q := NextPosition(m, from, batch, p);
            && Newer(Front(m, q), from) == Newer(Front(m, p + batch), from)
            && (NoFullGap(m, from, batch) ==> q > p)
  {
    SkippedAfterAdvance(m, from, p, p + batch);
    if NoFullGap(m, from, batch) {
      assert !FullGap(m, from, batch, p);
      AdvanceMoves(m, from, batch, p);
    }
  }

  /** The cursor stands behind p matching rows, and the rows in range among them are written. */
  ghost predicate Written(m: seq<Row>, from: int, start: Archive, w: Writer, afterId: nat, p: nat) {
    p <= |m| && afterId == Cursor(m, p) && Wrote(w, start, Newer(Front(m, p), from))
  }

  lemma FullPageEnd(m: seq<Row>, batch: nat, p: nat)
    requires p + batch <= |m|
    ensures Min(p + batch, |m|) == p + batch
  {
  }

  lemma BatchPage(m: seq<Row>, batch: nat, p: nat, rows: seq<Row>)
    requires p <= |m| && rows == Stretch(m, p, Min(p + batch, |m|))
    ensures p + |rows| <= |m| && |rows| <= batch
    ensures rows == Stretch(m, p, p + |rows|) && Front(m, p + |rows|) == Front(m, p) + rows
    ensures |rows| < batch ==> p + |rows| == |m| && Front(m, p + |rows|) == m
    ensures rows != [] ==> rows[|rows| - 1].id == Cursor(m, p + |rows|)
  {
  }

  /** One turn of the paging loop, whatever the start bound: it ends at a short page, and otherwise moves to the next
      position with everything before that position written. */
  method ExportPage(t: seq<Row>, from: int, to: int, batch: nat, afterId: nat, before: Writer,
                    ghost m: seq<Row>, ghost start: Archive, ghost p: nat)
    returns (after: nat, w: Writer, ended: bool)
    requires IsTable(t) && m == Older(t, to) && batch >= 1
    requires Written(m, from, start, before, afterId, p)
    ensures ended <==> Stops(m, batch, p)
    ensures ended ==> Wrote(w, start, Newer(Front(m, |m|), from))
    ensures !ended ==> Written(m, from, start, w, after, NextPosition(m, from, batch, p))
  {
    hide Older, FetchBefore, IsTable, NoFullGap, AppendAll, Newer, Advance, FilesMatch, Wrote, Min, Cursor, Front,
         Stretch;
    FetchPage(t, to, batch, p);
    var rows := FetchBefore(t, to, batch, afterId);
    BatchPage(m, batch, p, rows);
    if rows == [] { return afterId, before, true; }
    after, w := WritePage(rows, from, afterId, before, start, m, p);
    if |rows| < batch { return after, w, true; }
    PageMoves(m, from, batch, p);
    assert Min(p + batch, |m|) == p + |rows| by { FullPageEnd(m, batch, p); }
    return after, w, false;
  }

  lemma NothingLate(t: seq<Row>, bound: int)
    ensures t == t + [] && AllFrom([], bound)
  {
  }

  lemma NothingWritten(m: seq<Row>, from: int, start: Archive)
    ensures Written(m, from, start, Writer(start, [], None, 0), 0, 0)
  {
  }

  lemma SameFilesMatch(a: seq<int>, b: seq<int>, written: seq<Row>)
    requires FilesMatch(a, written) && forall d :: d in b <==> d in a
    ensures FilesMatch(b, written)
  {
  }

  /** The paging loop, with rows at or after the end bound logged meanwhile.  Under the exact condition for its ending
      it writes every row in range once, in id order, to the file of the row's own day. */
  method ExportRequests(t: seq<Row>, from: int, to: int, batch: nat, archive: Archive)
    returns (now: Archive, files: seq<int>, total: nat, table: seq<Row>, ghost late: seq<Row>)
    requires IsTable(t) && batch >= 1 && NoFullGap(Older(t, to), from, batch)
    ensures table == t + late && IsTable(table) && AllFrom(late, to)
    ensures now == AppendAll(archive, Newer(Older(t, to), from)) && total == |Newer(Older(t, to), from)|
    ensures FilesMatch(files, Newer(Older(t, to), from))
    ensures forall i, j :: 0 <= i < j < |files| ==> files[i] != files[j]
  {
    hide Newer, Older, NoFullGap, IsTable, NextPosition, AppendAll, FilesMatch, Cursor, AllFrom;
    ghost var m := Older(t, to);
    ghost var p := 0;
    var afterId, w, ended := 0, Writer(archive, [], None, 0), false;
    NothingWritten(m, from, archive);
    NothingLate(t, to);
    assert Front(m, |m|) == m;
    table, late := t, [];
    while !ended
      invariant table == t + late && IsTable(table) && AllFrom(late, to)
      invariant if ended then Wrote(w, archive, Newer(m, from)) else Written(m, from, archive, w, afterId, p)
      decreases !ended, |m| - p
    {
      ghost var more;
      table, more := Arrive(table, to, false);
      LateConcat(late, more, to);
      late := late + more;
      assert table == t + late;
      LateUnseen(t, late, to);
      afterId, w, ended := ExportPage(table, from, to, batch, afterId, w, m, archive, p);
      if !ended {
        PageMoves(m, from, batch, p);
        p := NextPosition(m, from, batch, p);
      }
    }
    now, total := w.archive, w.total;
    files := Dedup(w.files);
    SameFilesMatch(w.files, files, Newer(m, from));
  }

  /** More matching rows behind those there leave what was written as it was. */
  lemma WrittenGrows(m: seq<Row>, x: seq<Row>, from: int, start: Archive, w: Writer, afterId: nat, p: nat)
    requires Written(m, from, start, w, afterId, p)
    ensures Written(m + x, from, start, w, afterId, p)
  {
    assert (m + x)[..p] == m[..p];
  }

  /** The loop has met a short page within so many turns. */
  ghost predicate StoppedWithin(m: seq<Row>, from: int, batch: nat, turns: nat) {
    exists k: nat :: k < turns && Stops(m, batch, PositionAfter(m, from, batch, k))
  }

  lemma StoppedOneMore(m: seq<Row>, from: int, batch: nat, turns: nat)
    ensures StoppedWithin(m, from, batch, turns + 1) <==>
            StoppedWithin(m, from, batch, turns) || Stops(m, batch, PositionAfter(m, from, batch, turns))
  {
  }

  lemma NotStopped(m: seq<Row>, from: int, batch: nat)
    ensures !StoppedWithin(m, from, batch, 0)
  {
  }

  lemma StoppedLater(m: seq<Row>, from: int, batch: nat, i: nat, turns: nat)
    requires i <= turns && StoppedWithin(m, from, batch, i)
    ensures StoppedWithin(m, from, batch, turns)
  {
  }

  lemma WrittenPosition(m: seq<Row>, from: int, start: Archive, w: Writer, afterId: nat, p: nat)
    requires Written(m, from, start, w, afterId, p)
    ensures p <= |m| && Wrote(w, start, Newer(Front(m, p), from))
  {
  }

  /** Rows of the table in range, in id order and none twice. */
  ghost predicate WrittenOnce(t: seq<Row>, from: int, to: int, written: seq<Row>) {
    && (forall i, j :: 0 <= i < j < |written| ==> written[i].id < written[j].id)
    && (forall r :: r in written ==> r in t && from <= r.at < to)
  }

  lemma NewerIsTable(t: seq<Row>, from: int)
    requires IsTable(t)
    ensures IsTable(Newer(t, from))
  {
    if t != [] {
      var front, last := t[..|t| - 1], t[|t| - 1];
      NewerIsTable(front, from);
      NewerMembers(front, from);
      assert forall r :: r in front ==> r.id < last.id && r.id >= 1;
      forall i | 0 <= i < |Newer(front, from)|
        ensures Newer(front, from)[i].id < last.id && Newer(front, from)[i].id >= 1
      {
        assert Newer(front, from)[i] in front;
      }
    }
  }

  lemma InRangeOnce(t: seq<Row>, from: int, to: int, p: nat)
    requires IsTable(t) && p <= |Older(t, to)|
    ensures WrittenOnce(t, from, to, Newer(Front(Older(t, to), p), from))
  {
    var m := Older(t, to);
    OlderIsTable(t, to);
    assert forall r :: r in m[..p] ==> r in m;
    NewerIsTable(m[..p], from);
    NewerMembers(m[..p], from);
  }

  /** Main result: the paging loop for any number of turns and any start bound, its endless runs included, with rows
      logged between its pages, early ones if allowed.  What it has written so far are rows in range, each once; when it
      has ended they are all those in the table it saw last.  Without early rows it has ended exactly when it met a
      short page. */
  method ExportTurns(t: seq<Row>, from: int, to: int, batch: nat, archive: Archive, turns: nat, early: bool)
    returns (w: Writer, ended: bool, seen: seq<Row>, ghost p: nat, ghost late: seq<Row>)
    requires IsTable(t) && batch >= 1
    ensures seen == t + late && IsTable(seen) && (!early ==> AllFrom(late, to))
    ensures p <= |Older(seen, to)| && Wrote(w, archive, Newer(Front(Older(seen, to), p), from))
    ensures WrittenOnce(seen, from, to, Newer(Front(Older(seen, to), p), from))
    ensures ended ==> p == |Older(seen, to)|
    ensures !early ==> (ended <==> StoppedWithin(Older(t, to), from, batch, turns))
  {
    hide Wrote, Newer, Older, IsTable, Front, NextPosition, Stops, Cursor, WrittenOnce, AppendAll, FilesMatch, AllFrom,
         StoppedWithin, Written;
    ghost var m := Older(t, to);
    var afterId := 0;
    w, ended, p, seen, late := Writer(archive, [], None, 0), false, 0, t, [];
    NothingWritten(m, from, archive);
    NothingLate(t, to);
    NotStopped(m, from, batch);
    var i := 0;
    while i < turns && !ended
      invariant i <= turns && seen == t + late && IsTable(seen) && m == Older(seen, to)
      invariant !early ==> AllFrom(late, to) && m == Older(t, to)
      invariant if ended then p == |m| && Wrote(w, archive, Newer(Front(m, |m|), from))
                else Written(m, from, archive, w, afterId, p)
      invariant !early ==> (ended <==> StoppedWithin(m, from, batch, i))
      invariant !early && !ended ==> p == PositionAfter(m, from, batch, i)
      decreases turns - i
    {
      ghost var more;
      ghost var before := seen;
      seen, more := Arrive(seen, to, early);
      OlderConcat(before, more, to);
      WrittenGrows(m, Older(more, to), from, archive, w, afterId, p);
      if !early {
        LateConcat(late, more, to);
        LateUnseen(before, more, to);
      }
      late := late + more;
      assert seen == t + late;
      m := Older(seen, to);
      StoppedOneMore(m, from, batch, i);
      WrittenPosition(m, from, archive, w, afterId, p);
      afterId, w, ended := ExportPage(seen, from, to, batch, afterId, w, m, archive, p);
      p := if ended then |m| else NextPosition(m, from, batch, p);
      i := i + 1;
    }
    if !early && !ended { assert i == turns; }
    if !ended { WrittenPosition(m, from, archive, w, afterId, p); }
    if !early && ended { StoppedLater(m, from, batch, i, turns); }
    InRangeOnce(seen, from, to, p);
  }

  /** A loop that does not end: one row before the start bound fills every page of size one. */
  lemma EndlessExport(id: nat, at: int, from: int, to: int, text: string)
    requires id >= 1 && at < from && at < to
    ensures var t := [Row(id, at, text)]; IsTable(t) && !Terminates(Older(t, to), from, 1)
  {
    var t := [Row(id, at, text)];
    assert t[..0] == [];
    assert Older(t, to) == t;
    assert FullGap(t, from, 1, 0);
    TerminatesExactly(t, from, 1);
  }

  // ---------------------------------------------------------------- purging

  lemma OneMoreInBag(s: seq<Row>, r: Row)
    ensures multiset(s + [r]) == multiset(s) + multiset{r}
  {
  }

  lemma {:induction false} Partition(t: seq<Row>, to: int)
    ensures |Older(t, to)| + |Newer(t, to)| == |t|
    ensures multiset(Older(t, to)) + multiset(Newer(t, to)) == multiset(t)
  {
    if t != [] {
      var front, last := t[..|t| - 1], t[|t| - 1];
      Partition(front, to);
      OneMoreInBag(front, last);
      assert t == front + [last];
      if last.at < to {
        OneMoreInBag(Older(front, to), last);
        assert Newer(t, to) == Newer(front, to);
      } else {
        OneMoreInBag(Newer(front, to), last);
        assert Older(t, to) == Older(front, to);
      }
    }
  }

  /** Nothing is lost: what was written and what remains make up the table. */
  ghost predicate Conserved(t: seq<Row>, written: seq<Row>, remaining: seq<Row>) {
    multiset(written) + multiset(remaining) == multiset(t)
  }

  lemma BagConcat(a: seq<Row>, b: seq<Row>)
    ensures multiset(a + b) == multiset(a) + multiset(b)
  {
  }

  lemma BagsEqual(x: multiset<Row>, a: seq<Row>, b: seq<Row>)
    ensures x == x + (multiset(a) + multiset(b)) <==> a == [] && b == []
  {
    if x == x + (multiset(a) + multiset(b)) {
      assert |x| == |x| + (|a| + |b|);
    }
  }

  /** What was written of the rows seen, and what a purge leaves of them and of the rows logged since, is everything
      exactly when no row seen lies before the start bound and none was logged since before the end bound. */
  lemma ArrivalsConserve(seen: seq<Row>, late: seq<Row>, from: int, to: int)
    ensures Conserved(seen + late, Newer(Older(seen, to), from), Newer(seen + late, to)) <==>
            AllFrom(Older(seen, to), from) && AllFrom(late, to)
  {
    hide Older, Newer, AllFrom;
    var t, m := seen + late, Older(seen, to);
    Partition(t, to);
    Partition(m, from);
    OlderConcat(seen, late, to);
    NoneOlder(m, from);
    NoneOlder(late, to);
    BagConcat(m, Older(late, to));
    var skipped, missed := Older(m, from), Older(late, to);
    assert multiset(t) == multiset(Newer(m, from)) + multiset(Newer(t, to)) + (multiset(skipped) + multiset(missed));
    BagsEqual(multiset(Newer(m, from)) + multiset(Newer(t, to)), skipped, missed);
  }

  lemma AllFromMembers(m: seq<Row>, from: int)
    ensures AllFrom(m, from) <==> forall r :: r in m ==> r.at >= from
  {
    if AllFrom(m, from) {
      forall r | r in m ensures r.at >= from {
        var i :| 0 <= i < |m| && m[i] == r;
      }
    } else {
      var i :| 0 <= i < |m| && m[i].at < from;
      assert m[i] in m;
    }
  }

  lemma OlderMembers(t: seq<Row>, before: int)
    ensures forall r :: r in Older(t, before) <==> r in t && r.at < before
  {
  }

  /** A purging export that wrote something loses no row exactly when no row lies before the start bound (among those
      before the end bound). */
  lemma PurgeConserves(t: seq<Row>, late: seq<Row>, from: int, to: int)
    requires AllFrom(late, to)
    ensures Conserved(t + late, Newer(Older(t, to), from), Newer(t + late, to)) <==>
            forall r :: r in t && r.at < to ==> r.at >= from
  {
    ArrivalsConserve(t, late, from, to);
    AllFromMembers(Older(t, to), from);
    OlderMembers(t, to);
  }

  lemma NothingLost(table: seq<Row>, written: seq<Row>)
    requires written == []
    ensures Conserved(table, written, table)
  {
  }

  /** Export, then delete everything before the end bound when anything was written, with rows at or after that bound
      logged meanwhile.  A purge loses no row exactly when nothing was written or no row lies before the start bound. */
  method ExportAndPurge(t: seq<Row>, from: int, to: int, batch: nat, purge: bool, archive: Archive)
    returns (now: Archive, table: seq<Row>, remaining: seq<Row>, count: nat, purged: nat, ghost late: seq<Row>)
    requires IsTable(t) && batch >= 1 && NoFullGap(Older(t, to), from, batch)
    ensures table == t + late && IsTable(table) && AllFrom(late, to)
    ensures now == AppendAll(archive, Newer(Older(t, to), from)) && count == |Newer(Older(t, to), from)|
    ensures remaining == if purge && count > 0 then Newer(t, to) + late else table
    ensures purged == |table| - |remaining|
    ensures purge ==> (Conserved(table, Newer(Older(t, to), from), remaining) <==>
                       count == 0 || forall r :: r in t && r.at < to ==> r.at >= from)
  {
    hide Older, Newer, AllFrom, IsTable, AppendAll, NoFullGap, FilesMatch, Conserved;
    var files;
    ghost var more;
    now, files, count, table, late := ExportRequests(t, from, to, batch, archive);
    table, more := Arrive(table, to, false);
    LateConcat(late, more, to);
    late := late + more;
    assert table == t + late;
    LateUnseen(t, late, to);
    remaining, purged := table, 0;
    if purge && count > 0 {
      remaining := Newer(table, to);
      Partition(table, to);
      purged := |Older(table, to)|;
      PurgeConserves(t, late, from, to);
    } else if count == 0 {
      NothingLost(table, Newer(Older(t, to), from));
    }
  }

  /** Main result: a purge after any export run that has ended, with rows logged between the pages and before the
      delete, early ones if allowed: rows at or after the end bound always stay, and no row is lost exactly when none
      seen lies before the start bound and none logged after the last page lies before the end bound. */
  method PurgeWithArrivals(t: seq<Row>, from: int, to: int, batch: nat, archive: Archive, turns: nat, early: bool)
    returns (w: Writer, ended: bool, table: seq<Row>, remaining: seq<Row>, ghost seen: seq<Row>, ghost late: seq<Row>)
    requires IsTable(t) && batch >= 1
    ensures t <= seen && table == seen + late && IsTable(table)
            && (!early ==> AllFrom(seen[|t|..], to) && AllFrom(late, to))
    ensures ended ==> Wrote(w, archive, Newer(Older(seen, to), from))
    ensures forall r :: r in table && r.at >= to ==> r in remaining
    ensures ended && w.total > 0 ==> (Conserved(table, Newer(Older(seen, to), from), remaining) <==>
                                      AllFrom(Older(seen, to), from) && AllFrom(late, to))
  {
    hide Older, Newer, AllFrom, IsTable, Wrote, Conserved, WrittenOnce, StoppedWithin;
    ghost var p, before;
    var last;
    w, ended, last, p, before := ExportTurns(t, from, to, batch, archive, turns, early);
    seen := last;
    assert seen[|t|..] == before;
    table, late := Arrive(last, to, early);
    remaining := table;
    assert Front(Older(seen, to), |Older(seen, to)|) == Older(seen, to);
    NewerMembers(table, to);
    if ended && w.total > 0 {
      remaining := Newer(table, to);
      ArrivalsConserve(seen, late, from, to);
    }
  }

  /** The filters on one row and on two. */
  lemma OneRow(a: Row, bound: int)
    ensures Older([a], bound) == if a.at < bound then [a] else []
    ensures Newer([a], bound) == if a.at >= bound then [a] else []
  {
    assert [a][..0] == [];
  }

  lemma TwoRows(a: Row, b: Row, bound: int)
    ensures Older([a, b], bound) == (if a.at < bound then [a] else []) + (if b.at < bound then [b] else [])
    ensures Newer([a, b], bound) == (if a.at >= bound then [a] else []) + (if b.at >= bound then [b] else [])
  {
    assert [a, b][..1] == [a];
    OneRow(a, bound);
  }

  /** A row lost to the delete: it was logged after the last page, with a time before the end bound. */
  lemma EarlyArrivalLost(a: Row, b: Row, from: int, to: int)
    requires 1 <= a.id < b.id && from <= a.at < to && b.at < to
    ensures IsTable([a] + [b]) && Newer(Older([a], to), from) == [a] && Newer([a] + [b], to) == []
    ensures !Conserved([a] + [b], [a], [])
  {
    hide Older, Newer, Conserved;
    assert [a] + [b] == [a, b];
    TwoRows(a, b, to);
    OneRow(a, to);
    OneRow(a, from);
    ArrivalsConserve([a], [b], from, to);
    assert [b][0].at < to;
  }

  /** A row lost: it lies before the start bound, is skipped by an export that writes another, and is then purged. */
  lemma PurgeLoses(a: Row, b: Row, from: int, to: int)
    requires 1 <= a.id < b.id && a.at < from <= b.at < to
    ensures var t := [a, b];
            && IsTable(t) && NoFullGap(Older(t, to), from, 2)
            && Newer(Older(t, to), from) == [b] && Newer(t, to) == []
            && !Conserved(t, [b], [])
  {
    var t := [a, b];
    TwoRows(a, b, to);
    TwoRows(a, b, from);
    hide Older, Newer;
    assert Older(t, to) == t;
    forall i: nat ensures !FullGap(t, from, 2, i) {
      if i == 0 { assert t[1].at >= from; }
    }
    assert a in multiset(t) && a !in multiset([b]) + multiset([]) by { assert a != b; }
  }

  lemma NothingSkipped(m: seq<Row>, from: int, batch: nat)
    requires batch >= 1 && forall r :: r in m ==> r.at >= from
    ensures NoFullGap(m, from, batch)
  {
    forall i: nat ensures !FullGap(m, from, batch, i) {
      if i + batch <= |m| { assert m[i] in m; }
    }
  }

  lemma OlderEmpty(t: seq<Row>, cutoff: int)
    requires Older(t, cutoff) == []
    ensures Newer(t, cutoff) == t
  {
  }

  /** The retention path, where the start bound is the epoch and rows logged meanwhile lie after the cutoff: the loop
      ends, every row before the cutoff is appended once to the file of its own day and to no other, and the rows left
      are exactly the others. */
  method ExportRetentionCutoff(t: seq<Row>, cutoff: int, batch: nat, purge: bool, archive: Archive)
    returns (now: Archive, table: seq<Row>, remaining: seq<Row>, ghost late: seq<Row>)
    requires IsTable(t) && batch >= 1 && forall r :: r in t ==> r.at >= 0
    ensures table == t + late && IsTable(table) && AllFrom(late, cutoff)
    ensures forall day :: FileOf(now, day) == FileOf(archive, day) + OfDay(Older(t, cutoff), day)
    ensures purge ==> remaining == Newer(t, cutoff) + late
    ensures purge ==> Conserved(table, Older(t, cutoff), remaining)
    ensures !purge ==> remaining == table
  {
    OlderMembers(t, cutoff);
    AllNewer(Older(t, cutoff), 0);
    NothingSkipped(Older(t, cutoff), 0, batch);
    forall day { DayFile(archive, Older(t, cutoff), day); }
    hide IsTable, AllFrom, Conserved, NoFullGap, OfDay, AppendAll, Newer, Older;
    var count, purged;
    now, table, remaining, count, purged, late := ExportAndPurge(t, 0, cutoff, batch, purge, archive);
    if count == 0 {
      assert Older(t, cutoff) == [];
      OlderEmpty(t, cutoff);
    }
  }

  // ---------------------------------------------------------------- the script's variant

  lemma OfDayStep(rows: seq<Row>, i: nat)
    requires i < |rows|
    ensures forall day ::
            OfDay(rows[..i + 1], day) == OfDay(rows[..i], day) + if DateKey(rows[i].at) == day then [rows[i]] else []
  {
    assert rows[..i + 1][..i] == rows[..i];
  }

  /** The rows of a page by day. */
  method GroupByDay(rows: seq<Row>) returns (byDay: map<int, seq<Row>>)
    ensures forall day :: (if day in byDay then byDay[day] else []) == OfDay(rows, day)
    ensures forall day :: day in byDay ==> byDay[day] != []
  {
    hide DateKey;
    byDay := map[];
    for i := 0 to |rows|
      invariant forall day :: (if day in byDay then byDay[day] else []) == OfDay(rows[..i], day)
      invariant forall day :: day in byDay ==> byDay[day] != []
    {
      hide OfDay;
      OfDayStep(rows, i);
      var day := DateKey(rows[i].at);
      byDay := byDay[day := (if day in byDay then byDay[day] else []) + [rows[i]]];
    }
    assert rows[..|rows|] == rows;
  }

  /** Each day's file is extended by that day's rows. */
  ghost predicate Extended(now: Archive, archive: Archive, rows: seq<Row>) {
    forall day :: && FileOf(now, day) == FileOf(archive, day) + OfDay(rows, day)
                  && (day in now <==> day in archive || OfDay(rows, day) != [])
  }

  lemma ExtendedIsAppended(now: Archive, archive: Archive, rows: seq<Row>)
    requires Extended(now, archive, rows)
    ensures now == AppendAll(archive, rows)
  {
    var other := AppendAll(archive, rows);
    forall day ensures FileOf(now, day) == FileOf(other, day) && (day in now <==> day in other) {
      DayFile(archive, rows, day);
    }
    hide OfDay, AppendAll, Extended;
    forall day | day in now ensures day in other && now[day] == other[day] {
      assert FileOf(now, day) == FileOf(other, day);
    }
    assert forall day :: day in other ==> day in now;
  }

  /** A page grouped by day first, then appended file by file: the same files as writing it row by row. */
  method AppendRows(archive: Archive, rows: seq<Row>) returns (now: Archive)
    ensures Extended(now, archive, rows)
    ensures now == AppendAll(archive, rows)
  {
    var byDay := GroupByDay(rows);
    now := archive;
    var todo := byDay.Keys;
    while todo != {}
      invariant todo <= byDay.Keys
      invariant forall day ::
                FileOf(now, day) == FileOf(archive, day) + if day in byDay.Keys - todo then byDay[day] else []
      invariant forall day :: day in now <==> day in archive || day in byDay.Keys - todo
    {
      hide OfDay;
      if forall x :: x !in todo { assert false; }
      var day :| day in todo;
      now := now[day := FileOf(now, day) + byDay[day]];
      todo := todo - {day};
    }
    hide OfDay;
    ExtendedIsAppended(now, archive, rows);
  }

  lemma ExtendedFurther(now: Archive, archive: Archive, a: seq<Row>, b: seq<Row>)
    requires now == AppendAll(archive, a)
    ensures AppendAll(now, b) == AppendAll(archive, a + b)
  {
    if b == [] {
      assert a + b == a;
    } else {
      assert (a + b)[..|a + b| - 1] == a + b[..|b| - 1];
      ExtendedFurther(now, archive, a, b[..|b| - 1]);
    }
  }

  /** One turn of the script's loop. */
  method ExportBatch(t: seq<Row>, before: int, batch: nat, afterId: nat, archive: Archive,
                     ghost m: seq<Row>, ghost start: Archive, ghost p: nat)
    returns (after: nat, now: Archive, count: nat, ended: bool)
    requires IsTable(t) && m == Older(t, before) && p <= |m| && afterId == Cursor(m, p)
    requires archive == AppendAll(start, Front(m, p))
    ensures p + count <= |m| && after == Cursor(m, p + count) && now == AppendAll(start, Front(m, p + count))
    ensures batch >= 1 && ended ==> p + count == |m|
    ensures batch == 0 ==> ended && count == 0
    ensures !ended ==> count > 0
  {
    hide *;
    FetchPage(t, before, batch, p);
    var rows := FetchBefore(t, before, batch, afterId);
    BatchPage(m, batch, p, rows);
    if rows == [] { return afterId, archive, 0, true; }
    ExtendedFurther(archive, start, Front(m, p), rows);
    now := AppendRows(archive, rows);
    return rows[|rows| - 1].id, now, |rows|, |rows| < batch;
  }

  /** The script's cursor advances past every row it read, so its loop ends for any batch size, and it leaves the
      same files as writing the rows one by one. */
  method ExportBatches(t: seq<Row>, before: int, batch: nat, archive: Archive) returns (now: Archive, exported: nat)
    requires IsTable(t)
    ensures batch >= 1 ==> exported == |Older(t, before)| && now == AppendAll(archive, Older(t, before))
    ensures batch == 0 ==> exported == 0 && now == archive
  {
    var afterId, ended, count := 0, false, 0;
    now, exported := archive, 0;
    assert Older(t, before)[..0] == [] && AppendAll(archive, []) == archive;
    ghost var none: seq<Row> := [];
    assert AppendAll(archive, none) == archive;
    hide Older, IsTable, AppendAll;
    while !ended
      invariant exported <= |Older(t, before)| && afterId == Cursor(Older(t, before), exported)
      invariant now == AppendAll(archive, Front(Older(t, before), exported))
      invariant batch >= 1 && ended ==> exported == |Older(t, before)|
      invariant batch == 0 ==> exported == 0
      decreases !ended, |Older(t, before)| - exported
    {
      afterId, now, count, ended := ExportBatch(t, before, batch, afterId, now, Older(t, before), archive, exported);
      exported := exported + count;
    }
    assert Older(t, before)[..|Older(t, before)|] == Older(t, before);
    assert Older(t, before)[..0] == [];
  }
}
