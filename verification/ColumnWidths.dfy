/** Sharing out a container's width among table columns in proportion to their preferred widths. */
module ColumnWidths {
  import opened Wrappers

  const MIN_COLUMN_WIDTH := 40
  const DEFAULT_COLUMN_WIDTH := 120

  datatype Column = Column(width: Option<real>, defaultWidth: Option<real>)

  /** Rounding to the nearest integer, halves upwards. */
  function Round(x: real): int {
    (x + 0.5).Floor
  }

  function Max(a: int, b: int): int {
    if a < b then b else a
  }

  function PixelWidth(c: Column): (w: int)
    ensures MIN_COLUMN_WIDTH <= w
  {
    var raw := if c.width.Some? then c.width.value else if c.defaultWidth.Some? then c.defaultWidth.value
               else DEFAULT_COLUMN_WIDTH as real;
    Max(MIN_COLUMN_WIDTH, Round(raw))
  }

  /** The pixel width for a raw one: the nearest whole number, halves upwards, and at least forty. */
  predicate PixelsOf(raw: real, w: int) {
    && w >= 40
    && (raw >= 39.5 ==> w as real - 0.5 <= raw < w as real + 0.5)
    && (raw < 39.5 ==> w == 40)
  }

  /** The user's width counts first, then the column's own, then a hundred and twenty. */
  lemma PixelWidthExact(c: Column)
    ensures c.width.Some? ==> PixelsOf(c.width.value, PixelWidth(c))
    ensures c.width.None? && c.defaultWidth.Some? ==> PixelsOf(c.defaultWidth.value, PixelWidth(c))
    ensures c.width.None? && c.defaultWidth.None? ==> PixelWidth(c) == 120
  {
  }

  function Prefs(columns: seq<Column>): (r: seq<int>)
    ensures |r| == |columns| && forall i :: 0 <= i < |r| ==> r[i] == PixelWidth(columns[i])
  {
    if columns == [] then [] else [PixelWidth(columns[0])] + Prefs(columns[1..])
  }

  function Sum(xs: seq<int>): int {
    if xs == [] then 0 else xs[0] + Sum(xs[1..])
  }

  /** A column's proportional share of the container. */
  function Share(pref: int, container: int, sum: int): real
    requires sum > 0
  {
    pref as real * container as real / sum as real
  }

  function Scaled(prefs: seq<int>, container: int, sum: int): (r: seq<int>)
    requires sum > 0
    ensures |r| == |prefs|
    ensures forall i :: 0 <= i < |r| ==> r[i] == Max(MIN_COLUMN_WIDTH, Round(Share(prefs[i], container, sum)))
  {
    if prefs == [] then []
    else [Max(MIN_COLUMN_WIDTH, Round(Share(prefs[0], container, sum)))] + Scaled(prefs[1..], container, sum)
  }

  predicate KeepsPrefs(prefs: seq<int>, container: int) {
    container <= 0 || Sum(prefs) <= 0 || Sum(prefs) >= container
  }

  function Distribute(columns: seq<Column>, container: int): (r: seq<int>)
    ensures |r| == |columns|
  {
    var prefs := Prefs(columns);
    if columns == [] || KeepsPrefs(prefs, container) then prefs
    else
      var widths := Scaled(prefs, container, Sum(prefs));
      var last := |widths| - 1;
      widths[last := Max(MIN_COLUMN_WIDTH, widths[last] + (container - Sum(widths)))]
  }

  /** Every preferred width is at least the minimum. */
  predicate AllWide(xs: seq<int>) {
    forall i :: 0 <= i < |xs| ==> MIN_COLUMN_WIDTH <= xs[i]
  }

  lemma SumWide(xs: seq<int>)
    requires AllWide(xs)
    ensures Sum(xs) >= MIN_COLUMN_WIDTH * |xs|
  {
  }

  lemma ShareGrows(pref: int, container: int, sum: int)
    requires 0 < sum <= container && MIN_COLUMN_WIDTH <= pref
    ensures Share(pref, container, sum) >= pref as real
  {
  }

  /** Scaling up never needs the minimum: each scaled width is its rounded share, within half a pixel of it. */
  lemma ScaledNear(prefs: seq<int>, container: int, sum: int, i: nat)
    requires 0 < sum <= container && AllWide(prefs) && i < |prefs|
    ensures var w := Scaled(prefs, container, sum)[i];
            && w >= MIN_COLUMN_WIDTH
            && w as real - 0.5 <= Share(prefs[i], container, sum) < w as real + 0.5
  {
    ShareGrows(prefs[i], container, sum);
  }

  lemma ShareAdds(x: int, y: int, container: int, sum: int)
    requires sum > 0
    ensures Share(x + y, container, sum) == Share(x, container, sum) + Share(y, container, sum)
  {
  }

  /** The rounded widths of a run of columns miss their joint share by at most half a pixel each. */
  lemma {:induction false} ScaledSumNear(prefs: seq<int>, container: int, sum: int)
    requires 0 < sum <= container && AllWide(prefs)
    ensures var total := Sum(Scaled(prefs, container, sum)) as real;
            var share := Share(Sum(prefs), container, sum);
            total - |prefs| as real * 0.5 <= share <= total + |prefs| as real * 0.5
    decreases |prefs|
  {
    if prefs != [] {
      ScaledSumNear(prefs[1..], container, sum);
      ScaledNear(prefs, container, sum, 0);
      ShareAdds(prefs[0], Sum(prefs[1..]), container, sum);
      assert Scaled(prefs, container, sum)[1..] == Scaled(prefs[1..], container, sum);
    }
  }

  lemma SumSplit(xs: seq<int>, ys: seq<int>)
    ensures Sum(xs + ys) == Sum(xs) + Sum(ys)
  {
    if xs == [] {
      assert xs + ys == ys;
    } else {
      assert (xs + ys)[1..] == xs[1..] + ys;
      SumSplit(xs[1..], ys);
    }
  }

  lemma SumUpdateLast(xs: seq<int>, x: int)
    requires xs != []
    ensures Sum(xs[|xs| - 1 := x]) == Sum(xs) - xs[|xs| - 1] + x
  {
    var front := xs[..|xs| - 1];
    SumSplit(front, [xs[|xs| - 1]]);
    SumSplit(front, [x]);
    assert xs == front + [xs[|xs| - 1]];
    assert xs[|xs| - 1 := x] == front + [x];
  }

  lemma ScaledFront(prefs: seq<int>, container: int, sum: int)
    requires sum > 0 && prefs != []
    ensures Scaled(prefs, container, sum)[..|prefs| - 1] == Scaled(prefs[..|prefs| - 1], container, sum)
  {
  }

  /** The last column's patched width depends only on what the others leave. */
  lemma LastAbsorbs(prefs: seq<int>, container: int)
    requires prefs != [] && Sum(prefs) > 0
    ensures var widths := Scaled(prefs, container, Sum(prefs));
            var last := |widths| - 1;
            var left := container - Sum(widths[..last]);
            && widths[last] + (container - Sum(widths)) == left
            && Sum(widths[last := Max(MIN_COLUMN_WIDTH, left)]) == container - left + Max(MIN_COLUMN_WIDTH, left)
  {
    var widths := Scaled(prefs, container, Sum(prefs));
    var last := |widths| - 1;
    var left := container - Sum(widths[..last]);
    SumSplit(widths[..last], [widths[last]]);
    assert widths == widths[..last] + [widths[last]];
    SumUpdateLast(widths, Max(MIN_COLUMN_WIDTH, left));
  }

  lemma WholeShare(container: int, sum: int)
    requires sum > 0
    ensures Share(sum, container, sum) == container as real
  {
  }

  lemma SumFront(xs: seq<int>)
    requires xs != []
    ensures Sum(xs) == Sum(xs[..|xs| - 1]) + xs[|xs| - 1]
  {
    SumSplit(xs[..|xs| - 1], [xs[|xs| - 1]]);
    assert xs == xs[..|xs| - 1] + [xs[|xs| - 1]];
  }

  /** What the other columns leave for the last one is short of the minimum by at most half a pixel for each. */
  lemma FrontShort(prefs: seq<int>, container: int)
    requires prefs != [] && AllWide(prefs) && 0 < Sum(prefs) < container
    ensures var widths := Scaled(prefs, container, Sum(prefs));
            var last := |widths| - 1;
            (container - Sum(widths[..last])) as real >= MIN_COLUMN_WIDTH as real - last as real * 0.5
  {
    hide Share, Scaled, Sum;
    var sum := Sum(prefs);
    var last := |prefs| - 1;
    var front := prefs[..last];
    ScaledFront(prefs, container, sum);
    ScaledSumNear(front, container, sum);
    SumFront(prefs);
    ShareAdds(Sum(front), prefs[last], container, sum);
    ShareGrows(prefs[last], container, sum);
    WholeShare(container, sum);
  }

  /** Main result: every width is at least the minimum and together they fill the container; when the preferred widths
      fall short, the total exceeds the container by at most half a pixel a column, not at all when the last column
      can take up the rounding, and every other column is within half a pixel of its share. */
  lemma Distributed(columns: seq<Column>, container: int)
    requires columns != [] && container > 0
    ensures var r := Distribute(columns, container);
            var prefs := Prefs(columns);
            && (forall i :: 0 <= i < |r| ==> r[i] >= MIN_COLUMN_WIDTH)
            && Sum(r) >= container
            && (Sum(prefs) >= container ==> r == prefs)
            && (Sum(prefs) < container ==>
                  var widths := Scaled(prefs, container, Sum(prefs));
                  var last := |r| - 1;
                  && Sum(r) as real <= container as real + (|r| - 1) as real * 0.5
                  && (Sum(r) == container <==> container - Sum(widths[..last]) >= MIN_COLUMN_WIDTH)
                  && forall i :: 0 <= i < last ==>
                       r[i] as real - 0.5 <= Share(prefs[i], container, Sum(prefs)) < r[i] as real + 0.5)
  {
    hide Share, Sum, Scaled, Prefs, PixelWidth, Round;
    var prefs := Prefs(columns);
    SumWide(prefs);
    if Sum(prefs) < container {
      LastAbsorbs(prefs, container);
      FrontShort(prefs, container);
      forall i: nat | i < |prefs|
        ensures var w := Scaled(prefs, container, Sum(prefs))[i];
                w >= MIN_COLUMN_WIDTH && w as real - 0.5 <= Share(prefs[i], container, Sum(prefs)) < w as real + 0.5
      {
        ScaledNear(prefs, container, Sum(prefs), i);
      }
    }
  }

  /** Without room to fill, the widths are the preferred ones; a share is the width's part of their sum. */
  lemma NothingToFill(columns: seq<Column>, container: int)
    ensures container <= 0 || columns == [] ==>
              && |Distribute(columns, container)| == |columns|
              && forall i :: 0 <= i < |columns| ==> Distribute(columns, container)[i] == PixelWidth(columns[i])
    ensures forall pref, sum :: sum > 0 ==> Share(pref, container, sum) * (sum as real) == (pref * container) as real
  {
  }
}
