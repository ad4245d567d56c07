/** The computations of the `update_graphs` callback (index.py, lines 259-335), without
    the figure and card rendering: the selection by year range and region, the yearly
    time series, the per-region and per-state snapshots of the last selected year, and
    the three summary metrics. */
module Dashboard {
  import opened Wrappers
  import opened Seqs
  import opened Records
  import Projection

  /** The school-type selector: `todas`, `publica` or `particular`. */
  datatype TipoEscola = Todas | Publica | Particular

  /** A numeric column of the table. */
  datatype Column = PublicaCol | ParticularCol | TotalCol

  /** The callback raises KeyError on a column the table lacks, and IndexError on an
      empty selection (`iloc[0]`, line 334). */
  datatype DashboardError = MissingColumn(name: string) | EmptySelection

  function Value(r: Row, c: Column): int {
    match c
    case PublicaCol => r.publica
    case ParticularCol => r.particular
    case TotalCol => r.total
  }

  /** The columns the time series plots in absolute mode (index.py, lines 277-284). */
  function SeriesColumns(t: TipoEscola): (cs: seq<Column>)
    ensures 1 <= |cs| <= 2 && TotalCol !in cs
  {
    match t
    case Todas => [PublicaCol, ParticularCol]
    case Publica => [PublicaCol]
    case Particular => [ParticularCol]
  }

  function ColumnName(c: Column): string {
    match c
    case PublicaCol => "publica"
    case ParticularCol => "particular"
    case TotalCol => "total_autismo"
  }

  /** Every column the callback reads, whatever the school type. */
  const ReadColumns: set<string> := {"ano", "região", "publica", "particular", "total_autismo", "estado"}

  /** The columns the callback reads, in the order it first reads them: the mask (lines
      262-264), the plotted counts (294), the pie's total (305), the state key (315) and
      both counts for the cards (332-333). */
  function ReadOrder(t: TipoEscola): (cs: seq<string>)
    ensures forall c :: c in cs <==> c in ReadColumns
  {
    var plotted := SeriesColumns(t);
    ["ano", "região", ColumnName(plotted[0])]
      + (if |plotted| == 2 then [ColumnName(plotted[1])] else [])
      + ["total_autismo", "estado", "publica", "particular"]
  }

  /** Position of the first name in `cs` that is not in `present`: the KeyError raised. */
  function FirstMissing(cs: seq<string>, present: set<string>): (m: Option<nat>)
    ensures m.None? <==> forall i :: 0 <= i < |cs| ==> cs[i] in present
    ensures m.Some? ==>
      && m.value < |cs| && cs[m.value] !in present
      && forall k :: 0 <= k < m.value ==> cs[k] in present
  {
    if |cs| == 0 then None
    else if cs[0] !in present then Some(0)
    else
      match FirstMissing(cs[1..], present)
      case None => None
      case Some(k) => Some(k + 1)
  }

  /** `df[col].sum()`. */
  function Sum(rows: seq<Row>, c: Column): int {
    if |rows| == 0 then 0 else Value(rows[0], c) + Sum(rows[1..], c)
  }

  lemma {:induction false} SumConcat(a: seq<Row>, b: seq<Row>, c: Column)
    ensures Sum(a + b, c) == Sum(a, c) + Sum(b, c)
  {
    if |a| > 0 {
      assert (a + b)[1..] == a[1..] + b;
      SumConcat(a[1..], b, c);
    } else {
      assert a + b == b;
    }
  }

  /** The row condition of the selection (index.py, lines 261-265). */
  predicate InSelection(r: Row, lo: int, hi: int, regiao: string) {
    lo <= r.ano <= hi && r.regiao == regiao
  }

  /** `filtered_df`: the selected rows in table order. */
  function Filtered(rows: seq<Row>, lo: int, hi: int, regiao: string): (f: seq<Row>)
    ensures |f| <= |rows|
    ensures forall i :: 0 <= i < |f| ==> InSelection(f[i], lo, hi, regiao)
    ensures forall r :: r in f <==> r in rows && InSelection(r, lo, hi, regiao)
  {
    if |rows| == 0 then []
    else
      var rest := Filtered(rows[1..], lo, hi, regiao);
      assert forall r :: r in rows <==> r == rows[0] || r in rows[1..];
      if InSelection(rows[0], lo, hi, regiao) then [rows[0]] + rest else rest
  }

  /** Filtering commutes with concatenation, so it keeps the table order. */
  lemma {:induction false} FilteredConcat(a: seq<Row>, b: seq<Row>, lo: int, hi: int, regiao: string)
    ensures Filtered(a + b, lo, hi, regiao) == Filtered(a, lo, hi, regiao) + Filtered(b, lo, hi, regiao)
  {
    if |a| > 0 {
      assert (a + b)[1..] == a[1..] + b;
      FilteredConcat(a[1..], b, lo, hi, regiao);
    } else {
      assert a + b == b;
    }
  }

  /** The first selected row is the first row of the table that meets the condition. */
  lemma {:induction false} FilteredFirst(rows: seq<Row>, lo: int, hi: int, regiao: string, i: nat)
    requires i < |rows| && InSelection(rows[i], lo, hi, regiao)
    requires forall j :: 0 <= j < i ==> !InSelection(rows[j], lo, hi, regiao)
    ensures |Filtered(rows, lo, hi, regiao)| > 0 && Filtered(rows, lo, hi, regiao)[0] == rows[i]
  {
    if i > 0 {
      FilteredFirst(rows[1..], lo, hi, regiao, i - 1);
    }
  }

  /** The last selected row is the last row of the table that meets the condition. */
  lemma FilteredLast(rows: seq<Row>, lo: int, hi: int, regiao: string, i: nat)
    requires i < |rows| && InSelection(rows[i], lo, hi, regiao)
    requires forall j :: i < j < |rows| ==> !InSelection(rows[j], lo, hi, regiao)
    ensures var f := Filtered(rows, lo, hi, regiao); |f| > 0 && f[|f| - 1] == rows[i]
  {
    assert rows == rows[..i] + [rows[i]] + rows[i + 1..];
    FilteredConcat(rows[..i] + [rows[i]], rows[i + 1..], lo, hi, regiao);
    FilteredConcat(rows[..i], [rows[i]], lo, hi, regiao);
    FilteredNone(rows[i + 1..], lo, hi, regiao);
    assert Filtered([rows[i]], lo, hi, regiao) == [rows[i]];
  }

  lemma {:induction false} FilteredNone(rows: seq<Row>, lo: int, hi: int, regiao: string)
    requires forall j :: 0 <= j < |rows| ==> !InSelection(rows[j], lo, hi, regiao)
    ensures Filtered(rows, lo, hi, regiao) == []
  {
    if |rows| > 0 {
      FilteredNone(rows[1..], lo, hi, regiao);
    }
  }

  /** `rows[rows['ano'] == year]`, in table order. */
  function AtYear(rows: seq<Row>, year: int): (f: seq<Row>)
    ensures |f| <= |rows|
    ensures forall i :: 0 <= i < |f| ==> f[i].ano == year
    ensures forall r :: r in f <==> r in rows && r.ano == year
  {
    if |rows| == 0 then []
    else
      var rest := AtYear(rows[1..], year);
      assert forall r :: r in rows <==> r == rows[0] || r in rows[1..];
      if rows[0].ano == year then [rows[0]] + rest else rest
  }

  /** Selecting a year distributes over concatenation, so each part keeps its order. */
  lemma {:induction false} AtYearConcat(a: seq<Row>, b: seq<Row>, year: int)
    ensures AtYear(a + b, year) == AtYear(a, year) + AtYear(b, year)
  {
    if |a| > 0 {
      assert (a + b)[1..] == a[1..] + b;
      AtYearConcat(a[1..], b, year);
    } else {
      assert a + b == b;
    }
  }

  // ---------------------------------------------------------------------------------
  // Grouping by a key column and summing another: `groupby(key)[col].sum()`.

  /** Sum of column `c` over the rows whose key is `k`. */
  function SumWhere<K(==)>(rows: seq<Row>, key: Row -> K, k: K, c: Column): int {
    if |rows| == 0 then 0
    else (if key(rows[0]) == k then Value(rows[0], c) else 0) + SumWhere(rows[1..], key, k, c)
  }

  /** Summing the rows of one year is the year's group sum under `groupby('ano')`. */
  lemma {:induction false} AtYearSum(rows: seq<Row>, year: int, c: Column)
    ensures Sum(AtYear(rows, year), c) == SumWhere(rows, AnoOf, year, c)
  {
    if |rows| > 0 {
      AtYearSum(rows[1..], year, c);
    }
  }

  /** Sum of the group sums for the keys `keys`. */
  function SumKeys<K(==)>(rows: seq<Row>, key: Row -> K, keys: seq<K>, c: Column): int {
    if |keys| == 0 then 0 else SumWhere(rows, key, keys[0], c) + SumKeys(rows, key, keys[1..], c)
  }

  /** `v` counted once for each occurrence of `k` in `keys`. */
  function Hits<K(==)>(keys: seq<K>, k: K, v: int): int {
    if |keys| == 0 then 0 else (if keys[0] == k then v else 0) + Hits(keys[1..], k, v)
  }

  lemma {:induction false} HitsOnce<K>(keys: seq<K>, k: K, v: int)
    requires NoDups(keys)
    ensures Hits(keys, k, v) == if k in keys then v else 0
  {
    if |keys| > 0 {
      assert NoDups(keys[1..]);
      HitsOnce(keys[1..], k, v);
      assert keys[0] == k ==> k !in keys[1..];
      assert k in keys <==> keys[0] == k || k in keys[1..];
    }
  }

  lemma {:induction false} SumKeysStep<K>(rows: seq<Row>, key: Row -> K, keys: seq<K>, c: Column)
    requires |rows| > 0
    ensures SumKeys(rows, key, keys, c)
         == Hits(keys, key(rows[0]), Value(rows[0], c)) + SumKeys(rows[1..], key, keys, c)
  {
    if |keys| > 0 {
      SumKeysStep(rows, key, keys[1..], c);
    }
  }

  lemma {:induction false} SumKeysOfNoRows<K>(key: Row -> K, keys: seq<K>, c: Column)
    ensures SumKeys([], key, keys, c) == 0
  {
    if |keys| > 0 {
      SumKeysOfNoRows(key, keys[1..], c);
    }
  }

  /** Grouping loses nothing: when every row's key is among distinct `keys`, the group
      sums add up to the column total. */
  lemma {:induction false} GroupSumsConserve<K>(rows: seq<Row>, key: Row -> K, keys: seq<K>, c: Column)
    requires NoDups(keys)
    requires forall i :: 0 <= i < |rows| ==> key(rows[i]) in keys
    ensures SumKeys(rows, key, keys, c) == Sum(rows, c)
  {
    if |rows| > 0 {
      SumKeysStep(rows, key, keys, c);
      HitsOnce(keys, key(rows[0]), Value(rows[0], c));
      GroupSumsConserve(rows[1..], key, keys, c);
    } else {
      SumKeysOfNoRows(key, keys, c);
    }
  }

  /** The ascending distinct years of the rows. */
  function YearKeys(rows: seq<Row>): (ys: seq<int>)
    ensures forall i, j :: 0 <= i < j < |ys| ==> ys[i] < ys[j]
    ensures forall y :: y in ys <==> y in MapSeq(rows, AnoOf)
  {
    IntLtIsStrictTotal();
    SortedKeys(MapSeq(rows, AnoOf), IntLt)
  }

  /** The ascending distinct values of a string column (`groupby` sorts its keys). */
  function StringKeys(rows: seq<Row>, key: Row -> string): (ks: seq<string>)
    ensures Increasing(ks, StrLt)
    ensures forall k :: k in ks <==> k in MapSeq(rows, key)
  {
    StrLtIsStrictTotal();
    SortedKeys(MapSeq(rows, key), StrLt)
  }

  // ---------------------------------------------------------------------------------
  // The three views and the metrics.

  /** One point of the time series: a year and one sum per plotted column. */
  datatype Point = Point(ano: int, sums: seq<int>)

  /** The sums of the columns `cols` over the rows of year `y`. */
  function YearSums(filtered: seq<Row>, y: int, cols: seq<Column>): (s: seq<int>)
    ensures |s| == |cols|
    ensures forall j :: 0 <= j < |cols| ==> s[j] == SumWhere(filtered, AnoOf, y, cols[j])
  {
    seq(|cols|, j requires 0 <= j < |cols| => SumWhere(filtered, AnoOf, y, cols[j]))
  }

  /** `filtered_df.groupby('ano')[y_cols].sum()` in absolute mode (index.py, line 294). */
  function TimeSeries(filtered: seq<Row>, tipo: TipoEscola): (ts: seq<Point>)
    ensures forall i, j :: 0 <= i < j < |ts| ==> ts[i].ano < ts[j].ano
    ensures forall i :: 0 <= i < |ts| ==> ts[i].ano in MapSeq(filtered, AnoOf)
    ensures forall r :: r in filtered ==> r.ano in MapSeq(ts, PointYear)
    ensures forall i :: 0 <= i < |ts| ==> ts[i].sums == YearSums(filtered, ts[i].ano, SeriesColumns(tipo))
    ensures forall i :: 0 <= i < |ts| ==> |ts[i].sums| == |SeriesColumns(tipo)|
  {
    var years := YearKeys(filtered);
    var cols := SeriesColumns(tipo);
    var ts := seq(|years|, i requires 0 <= i < |years| => Point(years[i], YearSums(filtered, years[i], cols)));
    assert MapSeq(ts, PointYear) == years;
    forall r | r in filtered ensures r.ano in years {
      MapSeqMember(filtered, AnoOf, r);
    }
    ts
  }

  function PointYear(p: Point): int {
    p.ano
  }

  /** The sum of one plotted series over all years. */
  function SeriesTotal(ts: seq<Point>, j: nat): int
    requires forall i :: 0 <= i < |ts| ==> j < |ts[i].sums|
  {
    if |ts| == 0 then 0 else ts[0].sums[j] + SeriesTotal(ts[1..], j)
  }

  lemma {:induction false} SeriesTotalIsSumKeys(filtered: seq<Row>, ts: seq<Point>, years: seq<int>, c: Column, j: nat)
    requires |ts| == |years|
    requires forall i :: 0 <= i < |ts| ==>
      j < |ts[i].sums| && ts[i].ano == years[i] && ts[i].sums[j] == SumWhere(filtered, AnoOf, years[i], c)
    ensures SeriesTotal(ts, j) == SumKeys(filtered, AnoOf, years, c)
  {
    if |ts| > 0 {
      SeriesTotalIsSumKeys(filtered, ts[1..], years[1..], c, j);
    }
  }

  /** The yearly sums of each plotted series add up to that column's total over the
      selection. */
  lemma SeriesConservesTotals(filtered: seq<Row>, tipo: TipoEscola, j: nat)
    requires j < |SeriesColumns(tipo)|
    ensures var ts := TimeSeries(filtered, tipo);
      SeriesTotal(ts, j) == Sum(filtered, SeriesColumns(tipo)[j])
  {
    var ts := TimeSeries(filtered, tipo);
    var years := MapSeq(ts, PointYear);
    var c := SeriesColumns(tipo)[j];
    SeriesTotalIsSumKeys(filtered, ts, years, c, j);
    forall i | 0 <= i < |filtered| ensures AnoOf(filtered[i]) in years {
      assert filtered[i] in filtered;
    }
    assert NoDups(years) by {
      forall a, b | 0 <= a < b < |years| ensures years[a] != years[b] {
        assert ts[a].ano < ts[b].ano;
      }
    }
    GroupSumsConserve(filtered, AnoOf, years, c);
  }

  /** One slice of the region pie: a region and its summed `total_autismo`. */
  datatype Slice = Slice(regiao: string, total: int)

  /** `df_completo[df_completo['ano'] == year].groupby('região')['total_autismo'].sum()`
      (index.py, line 305): every region of that year, whatever region is selected. */
  function RegionSnapshot(rows: seq<Row>, year: int): (s: seq<Slice>)
    ensures Increasing(MapSeq(s, SliceRegion), StrLt)
    ensures forall i :: 0 <= i < |s| ==>
      && s[i].regiao in MapSeq(AtYear(rows, year), RegiaoOf)
      && s[i].total == SumWhere(AtYear(rows, year), RegiaoOf, s[i].regiao, TotalCol)
    ensures forall r :: r in rows && r.ano == year ==> r.regiao in MapSeq(s, SliceRegion)
  {
    var sel := AtYear(rows, year);
    var keys := StringKeys(sel, RegiaoOf);
    var s := seq(|keys|, i requires 0 <= i < |keys| => Slice(keys[i], SumWhere(sel, RegiaoOf, keys[i], TotalCol)));
    assert MapSeq(s, SliceRegion) == keys;
    forall r | r in rows && r.ano == year ensures r.regiao in keys {
      MapSeqMember(sel, RegiaoOf, r);
    }
    s
  }

  function SliceRegion(s: Slice): string {
    s.regiao
  }

  /** One bar pair of the state chart: a state and its summed counts. */
  datatype Bar = Bar(estado: string, publica: int, particular: int)

  /** `filtered_df.groupby(['estado', 'ano']).agg(sum)` restricted to `ano == year`
      (index.py, lines 315-321): the states of the selected region in that year. */
  function StateSnapshot(filtered: seq<Row>, year: int): (b: seq<Bar>)
    ensures Increasing(MapSeq(b, BarState), StrLt)
    ensures forall i :: 0 <= i < |b| ==>
      && b[i].estado in MapSeq(AtYear(filtered, year), EstadoOf)
      && b[i].publica == SumWhere(AtYear(filtered, year), EstadoOf, b[i].estado, PublicaCol)
      && b[i].particular == SumWhere(AtYear(filtered, year), EstadoOf, b[i].estado, ParticularCol)
    ensures forall r :: r in filtered && r.ano == year ==> r.estado in MapSeq(b, BarState)
  {
    var sel := AtYear(filtered, year);
    var keys := StringKeys(sel, EstadoOf);
    var b := seq(|keys|, i requires 0 <= i < |keys| =>
      Bar(keys[i], SumWhere(sel, EstadoOf, keys[i], PublicaCol), SumWhere(sel, EstadoOf, keys[i], ParticularCol)));
    assert MapSeq(b, BarState) == keys;
    forall r | r in filtered && r.ano == year ensures r.estado in keys {
      MapSeqMember(sel, EstadoOf, r);
    }
    b
  }

  function BarState(b: Bar): string {
    b.estado
  }

  /** The three summary figures (index.py, lines 332-335). */
  datatype Metrics = Metrics(totalPublica: int, totalParticular: int, crescimento: real)

  /** Percentage change from `first` to `last`, 0 when `first` is 0. */
  function Growth(first: int, last: int): (g: real)
    ensures first == 0 ==> g == 0.0
    ensures first != 0 ==> (first as real) * (1.0 + g / 100.0) == last as real
    ensures first > 0 ==> (g > 0.0 <==> last > first) && (g == 0.0 <==> last == first)
  {
    if first != 0 then (last - first) as real / first as real * 100.0 else 0.0
  }

  /** The metrics of a selection; the first and last rows are taken in table order. */
  function ComputeMetrics(filtered: seq<Row>): (r: Result<Metrics, DashboardError>)
    ensures r.Failure? <==> |filtered| == 0
    ensures r.Success? ==>
      && r.value.totalPublica == Sum(filtered, PublicaCol)
      && r.value.totalParticular == Sum(filtered, ParticularCol)
      && r.value.crescimento == Growth(filtered[0].total, filtered[|filtered| - 1].total)
  {
    if |filtered| == 0 then Failure(EmptySelection)
    else
      Success(Metrics(Sum(filtered, PublicaCol), Sum(filtered, ParticularCol),
                      Growth(filtered[0].total, filtered[|filtered| - 1].total)))
  }

  /** Everything the callback hands to the charts and the metric cards. */
  datatype Views = Views(series: seq<Point>, regions: seq<Slice>, states: seq<Bar>, metrics: Metrics)

  /** The views of the selection `lo <= ano <= hi`, `região == regiao` of `rows`, once
      every column read is known to be present. */
  function SelectionViews(rows: seq<Row>, lo: int, hi: int, regiao: string, tipo: TipoEscola): (r: Result<Views, DashboardError>)
    ensures r.Failure? <==> forall i :: 0 <= i < |rows| ==> !InSelection(rows[i], lo, hi, regiao)
    ensures r.Failure? ==> r.error == EmptySelection
    ensures r.Success? ==> forall i :: 0 <= i < |r.value.series| ==>
      |r.value.series[i].sums| == |SeriesColumns(tipo)|
    ensures r.Success? ==>
      var f := Filtered(rows, lo, hi, regiao);
      && r.value.series == TimeSeries(f, tipo)
      && r.value.regions == RegionSnapshot(rows, hi)
      && r.value.states == StateSnapshot(f, hi)
      && Success(r.value.metrics) == ComputeMetrics(f)
  {
    var f := Filtered(rows, lo, hi, regiao);
    if |f| == 0 then
      assert forall i :: 0 <= i < |rows| ==> !InSelection(rows[i], lo, hi, regiao) by {
        forall i | 0 <= i < |rows| ensures !InSelection(rows[i], lo, hi, regiao) {
          assert rows[i] in rows;
        }
      }
      Failure(EmptySelection)
    else
      var m := ComputeMetrics(f);
      Success(Views(TimeSeries(f, tipo), RegionSnapshot(rows, hi), StateSnapshot(f, hi), m.value))
  }

  /** `update_graphs(anos, regiao, visualizacao='absoluto', tipo_escola)` with
      `anos == [lo, hi]`, on the table `t`. */
  function UpdateGraphs(t: Table, lo: int, hi: int, regiao: string, tipo: TipoEscola): (r: Result<Views, DashboardError>)
    ensures r.Failure? <==>
      || !(ReadColumns <= t.columns)
      || forall i :: 0 <= i < |t.rows| ==> !InSelection(t.rows[i], lo, hi, regiao)
    ensures r.Failure? && r.error.MissingColumn? ==>
      && r.error.name in ReadColumns && r.error.name !in t.columns
      && var m := FirstMissing(ReadOrder(tipo), t.columns);
         m.Some? && r.error.name == ReadOrder(tipo)[m.value]
    ensures r == Failure(EmptySelection) ==> ReadColumns <= t.columns
    ensures ReadColumns <= t.columns ==> r == SelectionViews(t.rows, lo, hi, regiao, tipo)
    ensures r.Success? ==> forall i :: 0 <= i < |r.value.series| ==>
      |r.value.series[i].sums| == |SeriesColumns(tipo)|
  {
    var order := ReadOrder(tipo);
    match FirstMissing(order, t.columns)
    case Some(k) =>
      assert order[k] in ReadColumns;
      Failure(MissingColumn(order[k]))
    case None =>
      assert ReadColumns <= t.columns by {
        forall c | c in ReadColumns ensures c in t.columns {
          assert c in order;
        }
      }
      SelectionViews(t.rows, lo, hi, regiao, tipo)
  }

  // ---------------------------------------------------------------------------------
  // Properties relating the views to each other and to the table.

  function SeqSum(vs: seq<int>): int {
    if |vs| == 0 then 0 else vs[0] + SeqSum(vs[1..])
  }

  lemma {:induction false} SeqSumOfGroups<K>(rows: seq<Row>, key: Row -> K, keys: seq<K>, vs: seq<int>, c: Column)
    requires |vs| == |keys|
    requires forall i :: 0 <= i < |vs| ==> vs[i] == SumWhere(rows, key, keys[i], c)
    ensures SeqSum(vs) == SumKeys(rows, key, keys, c)
  {
    if |vs| > 0 {
      SeqSumOfGroups(rows, key, keys[1..], vs[1..], c);
    }
  }

  function SliceTotal(s: Slice): int {
    s.total
  }

  function BarPublica(b: Bar): int {
    b.publica
  }

  function BarParticular(b: Bar): int {
    b.particular
  }

  /** The pie slices add up to the `total_autismo` of every row of that year. */
  lemma RegionSnapshotConserves(rows: seq<Row>, year: int)
    ensures SeqSum(MapSeq(RegionSnapshot(rows, year), SliceTotal)) == Sum(AtYear(rows, year), TotalCol)
  {
    var s := RegionSnapshot(rows, year);
    var sel := AtYear(rows, year);
    var keys := MapSeq(s, SliceRegion);
    StrLtIsStrictTotal();
    IncreasingHasNoDups(keys, StrLt);
    SeqSumOfGroups(sel, RegiaoOf, keys, MapSeq(s, SliceTotal), TotalCol);
    forall i | 0 <= i < |sel| ensures RegiaoOf(sel[i]) in keys {
      assert sel[i] in sel;
    }
    GroupSumsConserve(sel, RegiaoOf, keys, TotalCol);
  }

  /** The state bars add up to the selection's counts in that year. */
  lemma StateSnapshotConserves(filtered: seq<Row>, year: int)
    ensures var b := StateSnapshot(filtered, year);
      && SeqSum(MapSeq(b, BarPublica)) == Sum(AtYear(filtered, year), PublicaCol)
      && SeqSum(MapSeq(b, BarParticular)) == Sum(AtYear(filtered, year), ParticularCol)
  {
    var b := StateSnapshot(filtered, year);
    var sel := AtYear(filtered, year);
    var keys := MapSeq(b, BarState);
    StrLtIsStrictTotal();
    IncreasingHasNoDups(keys, StrLt);
    forall i | 0 <= i < |sel| ensures EstadoOf(sel[i]) in keys {
      assert sel[i] in sel;
    }
    SeqSumOfGroups(sel, EstadoOf, keys, MapSeq(b, BarPublica), PublicaCol);
    GroupSumsConserve(sel, EstadoOf, keys, PublicaCol);
    SeqSumOfGroups(sel, EstadoOf, keys, MapSeq(b, BarParticular), ParticularCol);
    GroupSumsConserve(sel, EstadoOf, keys, ParticularCol);
  }

  /** With both school types plotted, the two curves add up to the two metric cards. */
  lemma SeriesMatchesMetrics(t: Table, lo: int, hi: int, regiao: string)
    requires UpdateGraphs(t, lo, hi, regiao, Todas).Success?
    ensures var v := UpdateGraphs(t, lo, hi, regiao, Todas).value;
      && SeriesTotal(v.series, 0) == v.metrics.totalPublica
      && SeriesTotal(v.series, 1) == v.metrics.totalParticular
  {
    var f := Filtered(t.rows, lo, hi, regiao);
    SeriesConservesTotals(f, Todas, 0);
    SeriesConservesTotals(f, Todas, 1);
  }

  /** The region pie ignores the year range start, the region and the school type. */
  lemma RegionsIgnoreSelection(t: Table, lo1: int, lo2: int, hi: int, reg1: string, reg2: string,
                               t1: TipoEscola, t2: TipoEscola)
    requires UpdateGraphs(t, lo1, hi, reg1, t1).Success?
    requires UpdateGraphs(t, lo2, hi, reg2, t2).Success?
    ensures UpdateGraphs(t, lo1, hi, reg1, t1).value.regions
         == UpdateGraphs(t, lo2, hi, reg2, t2).value.regions
  {
  }

  /** The growth figure compares the first and the last selected rows in table order,
      not the earliest and the latest years. */
  lemma GrowthUsesTableOrder(t: Table, lo: int, hi: int, regiao: string, tipo: TipoEscola, i: nat, j: nat)
    requires ReadColumns <= t.columns
    requires i <= j < |t.rows|
    requires InSelection(t.rows[i], lo, hi, regiao) && InSelection(t.rows[j], lo, hi, regiao)
    requires forall k :: 0 <= k < i ==> !InSelection(t.rows[k], lo, hi, regiao)
    requires forall k :: j < k < |t.rows| ==> !InSelection(t.rows[k], lo, hi, regiao)
    ensures UpdateGraphs(t, lo, hi, regiao, tipo).Success?
    ensures UpdateGraphs(t, lo, hi, regiao, tipo).value.metrics.crescimento
         == Growth(t.rows[i].total, t.rows[j].total)
  {
    var rows := t.rows;
    var f := Filtered(rows, lo, hi, regiao);
    FilteredFirst(rows, lo, hi, regiao, i);
    FilteredLast(rows, lo, hi, regiao, j);
    assert f[0] == rows[i] && f[|f| - 1] == rows[j];
    var r := UpdateGraphs(t, lo, hi, regiao, tipo);
    assert r.Success?;
    assert Success(r.value.metrics) == ComputeMetrics(f);
  }

  /** A table that already reaches 2040 passes the projector unchanged even without a
      state column, and then every call of the callback raises KeyError. */
  lemma UnprojectedTableWithoutState(t: Table, lo: int, hi: int, regiao: string, tipo: TipoEscola)
    requires "ano" in t.columns && |t.rows| > 0 && Projection.MaxYear(t.rows) >= Projection.Horizon
    requires "estado" !in t.columns
    ensures Projection.Project(t) == Success(t)
    ensures UpdateGraphs(t, lo, hi, regiao, tipo).Failure?
    ensures UpdateGraphs(t, lo, hi, regiao, tipo).error.MissingColumn?
  {
  }

  /** Selecting years up to the last real year of a projected table sees only the real
      rows: the appended rows all lie after it. */
  lemma SelectionBeforeProjection(t: Table, lo: int, hi: int, regiao: string)
    requires "ano" in t.columns && |t.rows| > 0
    requires Projection.Project(t).Success?
    requires hi <= Projection.MaxYear(t.rows)
    ensures Filtered(Projection.Project(t).value.rows, lo, hi, regiao) == Filtered(t.rows, lo, hi, regiao)
  {
    var out := Projection.Project(t).value.rows;
    var n := |t.rows|;
    assert out == t.rows + out[n..];
    FilteredConcat(t.rows, out[n..], lo, hi, regiao);
    forall k | 0 <= k < |out[n..]| ensures !InSelection(out[n..][k], lo, hi, regiao) {
      assert out[n..][k] == out[n + k];
    }
    FilteredNone(out[n..], lo, hi, regiao);
  }

  function SampleRow(ano: int, regiao: string, publica: nat, particular: nat): Row {
    Row(ano, regiao, "XX", None, publica, particular, publica + particular, None, None, false)
  }

  /** Region A over 2010-2012: the metric cards show 330 public, 165 private and 20%
      growth from 150 to 180. */
  lemma ScenarioMetrics()
    ensures ComputeMetrics([SampleRow(2010, "A", 100, 50), SampleRow(2011, "A", 110, 55),
                            SampleRow(2012, "A", 120, 60)])
         == Success(Metrics(330, 165, 20.0))
  {
    var f := [SampleRow(2010, "A", 100, 50), SampleRow(2011, "A", 110, 55), SampleRow(2012, "A", 120, 60)];
    assert Sum(f, PublicaCol) == 330 && Sum(f, ParticularCol) == 165;
    assert Growth(150, 180) == 20.0;
  }
}
