/** The projector `generate_projections` (index.py, lines 49-73). For every year after
    the last observed one up to 2040 and every region, in first-appearance order, it
    appends one synthetic row computed from the region's anchor: the region's last row in
    table order. The anchor is never replaced, so every projected year of a region
    carries the same counts: one 8% / 12% step above the anchor, not a compounding one. */
module Projection {
  import opened Wrappers
  import opened Seqs
  import opened Records

  const Horizon: int := 2040

  /** Columns of the frame built from the projected rows (index.py, lines 61-70). */
  const ProjectedColumns: set<string> :=
    {"ano", "publica", "particular", "total_autismo", "região", "estado", "mes_nome", "projeção"}

  /** Why the projector raises: the maximum year of an empty column is NaN, which
      `range` refuses; a missing column is a KeyError. */
  datatype ProjectionError = NoYears | MissingColumn(name: string)

  /** `base_df['ano'].max()` of a non-empty table. */
  function MaxYear(rows: seq<Row>): (m: int)
    requires |rows| > 0
    ensures forall i :: 0 <= i < |rows| ==> rows[i].ano <= m
    ensures exists i :: 0 <= i < |rows| && rows[i].ano == m
  {
    if |rows| == 1 then rows[0].ano
    else
      var m := MaxYear(rows[1..]);
      if rows[0].ano > m then rows[0].ano else m
  }

  /** Some row of the table belongs to region `reg`. */
  ghost predicate HasRegion(rows: seq<Row>, reg: string) {
    exists i :: 0 <= i < |rows| && rows[i].regiao == reg
  }

  /** `base_df['região'].unique()`: each region once, in order of first appearance. */
  function Regions(rows: seq<Row>): (regs: seq<string>)
    ensures NoDups(regs)
    ensures forall reg :: reg in regs <==> HasRegion(rows, reg)
    ensures |rows| > 0 ==> |regs| > 0
  {
    var col := MapSeq(rows, RegiaoOf);
    assert |rows| > 0 ==> col[0] in col;
    Distinct(col)
  }

  /** Position of `base_df[base_df['região'] == reg].iloc[-1]`: the region's last row. */
  function Anchor(rows: seq<Row>, reg: string): (k: nat)
    requires HasRegion(rows, reg)
    ensures k < |rows| && rows[k].regiao == reg
    ensures forall j :: k < j < |rows| ==> rows[j].regiao != reg
  {
    var n := |rows| - 1;
    if rows[n].regiao == reg then n
    else
      assert HasRegion(rows[..n], reg) by {
        var i :| 0 <= i < |rows| && rows[i].regiao == reg;
        assert i < n && rows[..n][i] == rows[i];
      }
      Anchor(rows[..n], reg)
  }

  /** The synthetic row for `year` (index.py, lines 61-70): each count is truncated on
      its own, the total is the truncation of the unrounded sum. The multipliers 1.08
      and 1.12 are taken as the exact ratios 108/100 and 112/100. */
  function ProjectedRow(anchor: Row, year: int): (r: Row)
    ensures r.ano == year && r.regiao == anchor.regiao && r.estado == anchor.estado
    ensures r.mesNome == Some("Janeiro") && r.projecao
    ensures r.pctPublica.None? && r.pctParticular.None?
  {
    Row(year, anchor.regiao, anchor.estado, Some("Janeiro"),
        anchor.publica * 108 / 100, anchor.particular * 112 / 100,
        (anchor.publica * 108 + anchor.particular * 112) / 100,
        None, None, true)
  }

  /** The projected counts are the floors of 1.08 and 1.12 times the anchor's, and the
      projected total, the floor of the unrounded sum, exceeds the sum of the two floored
      counts by at most one. */
  lemma ProjectedCounts(anchor: Row, year: int)
    ensures var r := ProjectedRow(anchor, year);
      && r.publica * 100 <= anchor.publica * 108 < (r.publica + 1) * 100
      && r.particular * 100 <= anchor.particular * 112 < (r.particular + 1) * 100
      && r.total * 100 <= anchor.publica * 108 + anchor.particular * 112 < (r.total + 1) * 100
      && r.publica + r.particular <= r.total <= r.publica + r.particular + 1
  {
  }

  /** `y * n`, computed by repeated addition so that index arithmetic on the projected
      block stays linear for the solver. */
  function Offset(y: nat, n: nat): nat {
    if y == 0 then 0 else Offset(y - 1, n) + n
  }

  lemma {:induction false} OffsetIsProduct(y: nat, n: nat)
    ensures Offset(y, n) == y * n
  {
    if y > 0 {
      OffsetIsProduct(y - 1, n);
      assert y * n == (y - 1) * n + n;
    }
  }

  /** No later row belongs to the region of row `i`. */
  ghost predicate IsLastOfRegion(rows: seq<Row>, i: int)
    requires 0 <= i < |rows|
  {
    forall j :: i < j < |rows| ==> rows[j].regiao != rows[i].regiao
  }

  /** The anchor of each region of `Regions(rows)`, in that order: the region's last
      row in table order. */
  function Anchors(rows: seq<Row>): (a: seq<Row>)
    ensures |a| == |Regions(rows)|
  {
    var regs := Regions(rows);
    seq(|regs|, k requires 0 <= k < |regs| => rows[Anchor(rows, regs[k])])
  }

  /** Anchor `k` is the last row, in table order, of the `k`-th region. */
  lemma AnchorsAreLastRows(rows: seq<Row>, k: nat)
    requires k < |Anchors(rows)|
    ensures Anchors(rows)[k].regiao == Regions(rows)[k]
    ensures exists i :: 0 <= i < |rows| && rows[i] == Anchors(rows)[k] && IsLastOfRegion(rows, i)
  {
    var i := Anchor(rows, Regions(rows)[k]);
    assert rows[i] == Anchors(rows)[k];
  }

  /** The rows of one projected year, one per anchor in order. */
  function ProjectedYear(anchors: seq<Row>, year: int): (r: seq<Row>)
    ensures |r| == |anchors|
    ensures forall k :: 0 <= k < |anchors| ==> r[k] == ProjectedRow(anchors[k], year)
  {
    seq(|anchors|, k requires 0 <= k < |anchors| => ProjectedRow(anchors[k], year))
  }

  /** The projected rows for the years `from` through the horizon, year-major. */
  function ProjectedYears(anchors: seq<Row>, from: int): seq<Row>
    decreases Horizon - from
  {
    if from > Horizon then []
    else ProjectedYear(anchors, from) + ProjectedYears(anchors, from + 1)
  }

  /** Every projected row is flagged and dated from `from` through the horizon. */
  lemma {:induction false} ProjectedYearsRange(anchors: seq<Row>, from: int)
    ensures forall i :: 0 <= i < |ProjectedYears(anchors, from)| ==>
      var r := ProjectedYears(anchors, from)[i];
      r.projecao && from <= r.ano <= Horizon
    decreases Horizon - from
  {
    if from <= Horizon {
      ProjectedYearsRange(anchors, from + 1);
    }
  }

  /** One row per anchor for each year from `from` through the horizon. */
  lemma {:induction false} ProjectedYearsLength(anchors: seq<Row>, from: int)
    ensures |ProjectedYears(anchors, from)| == if from > Horizon then 0 else Offset(Horizon - from + 1, |anchors|)
    decreases Horizon - from
  {
    if from <= Horizon {
      ProjectedYearsLength(anchors, from + 1);
    }
  }

  /** Position `y * |anchors| + k` (`Offset(y, |anchors|) + k`) of the projected block
      holds the row of year `from + y` for the `k`-th anchor: year-major, then region. */
  lemma {:induction false} ProjectedYearsAt(anchors: seq<Row>, from: int, y: nat, k: nat)
    requires from + y <= Horizon && k < |anchors|
    ensures Offset(y, |anchors|) + k < |ProjectedYears(anchors, from)|
    ensures ProjectedYears(anchors, from)[Offset(y, |anchors|) + k] == ProjectedRow(anchors[k], from + y)
    decreases y
  {
    var n := |anchors|;
    var head := ProjectedYear(anchors, from);
    var rest := ProjectedYears(anchors, from + 1);
    assert ProjectedYears(anchors, from) == head + rest;
    if y > 0 {
      ProjectedYearsAt(anchors, from + 1, y - 1, k);
      assert (head + rest)[n + (Offset(y - 1, n) + k)] == rest[Offset(y - 1, n) + k];
    } else {
      assert (head + rest)[k] == head[k];
    }
  }

  /** The rows the projector appends to a non-empty table. */
  function Appended(rows: seq<Row>): (r: seq<Row>)
    requires |rows| > 0
    ensures forall i :: 0 <= i < |r| ==> r[i].projecao && MaxYear(rows) < r[i].ano <= Horizon
  {
    ProjectedYearsRange(Anchors(rows), MaxYear(rows) + 1);
    ProjectedYears(Anchors(rows), MaxYear(rows) + 1)
  }

  /** Number of rows the projector appends to a non-empty table. */
  function ProjectionCount(rows: seq<Row>): nat
    requires |rows| > 0
  {
    var years: nat := if MaxYear(rows) >= Horizon then 0 else Horizon - MaxYear(rows);
    var regions: nat := |Regions(rows)|;
    years * regions
  }

  /** `generate_projections`: the input rows unchanged, then the projected rows. */
  function Project(t: Table): (r: Result<Table, ProjectionError>)
    ensures "ano" !in t.columns ==> r == Success(t)
    ensures r.Failure? <==>
      && "ano" in t.columns
      && (|t.rows| == 0
          || (MaxYear(t.rows) < Horizon
              && ("região" !in t.columns || "publica" !in t.columns
                  || "particular" !in t.columns || "estado" !in t.columns)))
    ensures r.Success? ==> |t.rows| <= |r.value.rows| && r.value.rows[..|t.rows|] == t.rows
    ensures r.Success? ==> forall i :: |t.rows| <= i < |r.value.rows| ==>
      && r.value.rows[i].projecao
      && MaxYear(t.rows) < r.value.rows[i].ano <= Horizon
  {
    if "ano" !in t.columns then Success(t)
    else if |t.rows| == 0 then Failure(NoYears)
    else
      var last := MaxYear(t.rows);
      if last >= Horizon then Success(t)
      else if "região" !in t.columns then Failure(MissingColumn("região"))
      else if "publica" !in t.columns then Failure(MissingColumn("publica"))
      else if "particular" !in t.columns then Failure(MissingColumn("particular"))
      else if "estado" !in t.columns then Failure(MissingColumn("estado"))
      else
        var extra := Appended(t.rows);
        assert (t.rows + extra)[..|t.rows|] == t.rows;
        Success(Table(t.columns + ProjectedColumns, t.rows + extra))
  }

  /** Appended row `y * |Regions| + k` is the projection, for year `MaxYear + 1 + y`, of
      the anchor of the `k`-th region in first-appearance order. */
  lemma ProjectedRowAt(rows: seq<Row>, y: nat, k: nat)
    requires |rows| > 0
    requires MaxYear(rows) + 1 + y <= Horizon && k < |Anchors(rows)|
    ensures Offset(y, |Anchors(rows)|) + k < |Appended(rows)|
    ensures Appended(rows)[Offset(y, |Anchors(rows)|) + k]
         == ProjectedRow(Anchors(rows)[k], MaxYear(rows) + 1 + y)
  {
    var anchors := Anchors(rows);
    var from := MaxYear(rows) + 1;
    assert Appended(rows) == ProjectedYears(anchors, from);
    ProjectedYearsAt(anchors, from, y, k);
  }

  /** The projector appends `max(0, 2040 - MaxYear) * |Regions|` rows. */
  lemma ProjectionSize(t: Table)
    requires Project(t).Success? && "ano" in t.columns && |t.rows| > 0
    ensures |Project(t).value.rows| == |t.rows| + ProjectionCount(t.rows)
  {
    if MaxYear(t.rows) < Horizon {
      ProjectAppends(t);
      ProjectedYearsLength(Anchors(t.rows), MaxYear(t.rows) + 1);
      OffsetIsProduct(Horizon - MaxYear(t.rows), |Regions(t.rows)|);
    }
  }

  /** When something is projected, the output is the input followed by `ProjectedYears`. */
  lemma ProjectAppends(t: Table)
    requires Project(t).Success? && "ano" in t.columns && |t.rows| > 0
    requires MaxYear(t.rows) < Horizon
    ensures Project(t).value.rows == t.rows + Appended(t.rows)
  {
  }

  /** The anchor is never updated: a region's appended row of one year is its row of any
      other year with only the year changed, so the counts do not compound. */
  lemma ProjectionIsFlat(rows: seq<Row>, y1: nat, y2: nat, k: nat)
    requires |rows| > 0
    requires MaxYear(rows) + 1 + y1 <= Horizon && MaxYear(rows) + 1 + y2 <= Horizon
    requires k < |Anchors(rows)|
    ensures var n := |Anchors(rows)|; var out := Appended(rows);
      && Offset(y1, n) + k < |out| && Offset(y2, n) + k < |out|
      && out[Offset(y2, n) + k] == out[Offset(y1, n) + k].(ano := MaxYear(rows) + 1 + y2)
  {
    ProjectedRowAt(rows, y1, k);
    ProjectedRowAt(rows, y2, k);
    ProjectedRowYears(Anchors(rows)[k], MaxYear(rows) + 1 + y1, MaxYear(rows) + 1 + y2);
  }

  /** Two projections of the same anchor differ only in their year. */
  lemma ProjectedRowYears(anchor: Row, y1: int, y2: int)
    ensures ProjectedRow(anchor, y1).(ano := y2) == ProjectedRow(anchor, y2)
  {
  }

  /** The regions are visited in the order in which each first appears in the table. */
  lemma RegionsInFirstAppearanceOrder(rows: seq<Row>, i: nat, j: nat)
    requires i < j < |Regions(rows)|
    ensures Regions(rows)[i] in MapSeq(rows, RegiaoOf) && Regions(rows)[j] in MapSeq(rows, RegiaoOf)
    ensures FirstIndex(MapSeq(rows, RegiaoOf), Regions(rows)[i])
          < FirstIndex(MapSeq(rows, RegiaoOf), Regions(rows)[j])
  {
    DistinctFirstAppearance(MapSeq(rows, RegiaoOf));
  }

  /** A region whose last row has 1000 public and 500 private enrollments in 2038 gets
      1080 and 560 in both 2039 and 2040. */
  lemma FlatProjectionExample()
    ensures var anchor := Row(2038, "Sul", "PR", None, 1000, 500, 1500, None, None, false);
      var t := Table({"ano", "região", "estado", "publica", "particular"}, [anchor]);
      && Project(t).Success?
      && Project(t).value.rows == [
           anchor,
           Row(2039, "Sul", "PR", Some("Janeiro"), 1080, 560, 1640, None, None, true),
           Row(2040, "Sul", "PR", Some("Janeiro"), 1080, 560, 1640, None, None, true)]
  {
    var anchor := Row(2038, "Sul", "PR", None, 1000, 500, 1500, None, None, false);
    var rows := [anchor];
    assert MaxYear(rows) == 2038;
    assert Regions(rows) == ["Sul"];
    assert Anchors(rows) == rows;
    assert ProjectedYears(rows, 2041) == [];
    assert ProjectedYears(rows, 2040) == [ProjectedRow(anchor, 2040)];
    assert ProjectedYears(rows, 2039) == [ProjectedRow(anchor, 2039), ProjectedRow(anchor, 2040)];
  }
}
