/** The enrollment table and its loader (index.py, lines 7-46): one `Row` per record,
    the canonicalised column names, the derived total and percentage columns, and the
    fixed table the loader substitutes when the file cannot be used. */
module Records {
  import opened Wrappers
  import Columns

  /** One row of the dashboard table. `total` is `total_autismo`; the percentage columns
      are None where pandas holds NaN (zero total, projected rows, or the column is
      absent); `projecao` is the `projeção` flag, false where pandas holds NaN. */
  datatype Row = Row(
    ano: int,
    regiao: string,
    estado: string,
    mesNome: Option<string>,
    publica: nat,
    particular: nat,
    total: nat,
    pctPublica: Option<real>,
    pctParticular: Option<real>,
    projecao: bool)

  /** A table: the set of its (canonical) column names and its rows in order. A field
      whose column is absent holds a placeholder; every operation that reads a column
      first checks that the column is present. */
  datatype Table = Table(columns: set<string>, rows: seq<Row>)

  /** One record of the source file, each value stored under the role of the column
      whose header canonicalises to it; `mes` is the numeric month column `mês`. */
  datatype RawRow = RawRow(
    ano: int,
    regiao: string,
    estado: string,
    mes: Option<int>,
    mesNome: Option<string>,
    publica: nat,
    particular: nat)

  /** A readable source file: its header row and its records. */
  datatype Csv = Csv(header: seq<string>, records: seq<RawRow>)

  function RegiaoOf(r: Row): string {
    r.regiao
  }

  function EstadoOf(r: Row): string {
    r.estado
  }

  function AnoOf(r: Row): int {
    r.ano
  }

  ghost predicate TotalIsSum(r: Row) {
    r.total == r.publica + r.particular
  }

  /** The percentage columns agree with the counts: defined exactly when the total is
      positive, and then the two shares make up the whole. */
  ghost predicate SharesComplete(r: Row) {
    && (r.pctPublica.Some? <==> r.total > 0)
    && (r.pctParticular.Some? <==> r.total > 0)
    && (r.total > 0 ==> r.pctPublica.value + r.pctParticular.value == 100.0)
  }

  /** `part / whole * 100` as pandas computes it on counts; 0 / 0 is NaN (None). */
  function Percent(part: nat, whole: nat): (r: Option<real>)
    ensures r.Some? <==> whole > 0
    ensures r.Some? ==> r.value * whole as real == 100.0 * part as real
  {
    if whole == 0 then None else Some(part as real / whole as real * 100.0)
  }

  /** With a positive total the public and private shares add up to 100. */
  lemma PercentagesSumTo100(p: nat, q: nat)
    ensures p + q > 0 ==> Percent(p, p + q).value + Percent(q, p + q).value == 100.0
  {
    if p + q > 0 {
      var w := (p + q) as real;
      var a := Percent(p, p + q).value;
      var b := Percent(q, p + q).value;
      assert a * w == 100.0 * p as real;
      assert b * w == 100.0 * q as real;
      assert (a + b - 100.0) * w == 0.0;
    }
  }

  /** The derived columns of one loaded record (index.py, lines 21-23 and 31-32);
      `deriveMonth` says whether the month name comes from the numeric month. */
  function DeriveRow(deriveMonth: bool, raw: RawRow): (r: Row)
    ensures TotalIsSum(r) && SharesComplete(r)
    ensures r.ano == raw.ano && r.regiao == raw.regiao && r.estado == raw.estado
    ensures r.publica == raw.publica && r.particular == raw.particular && !r.projecao
    ensures !deriveMonth ==> r.mesNome == raw.mesNome
    ensures deriveMonth ==> (r.mesNome.Some? <==> raw.mes.Some? && 1 <= raw.mes.value <= 12)
    ensures deriveMonth && raw.mes.Some? ==> r.mesNome == Columns.MonthName(raw.mes.value)
    ensures r.pctPublica == Percent(r.publica, r.total)
    ensures r.pctParticular == Percent(r.particular, r.total)
  {
    var total := raw.publica + raw.particular;
    PercentagesSumTo100(raw.publica, raw.particular);
    Row(raw.ano, raw.regiao, raw.estado,
        if deriveMonth then (if raw.mes.Some? then Columns.MonthName(raw.mes.value) else None)
        else raw.mesNome,
        raw.publica, raw.particular, total,
        Percent(raw.publica, total), Percent(raw.particular, total), false)
  }

  function DeriveRows(deriveMonth: bool, raws: seq<RawRow>): (r: seq<Row>)
    ensures |r| == |raws|
    ensures forall i :: 0 <= i < |raws| ==> r[i] == DeriveRow(deriveMonth, raws[i])
  {
    if |raws| == 0 then [] else [DeriveRow(deriveMonth, raws[0])] + DeriveRows(deriveMonth, raws[1..])
  }

  /** The column names after `str.strip().str.lower()` and the synonym renaming. */
  function CanonicalColumns(header: seq<string>): (cols: set<string>)
    ensures forall h :: h in header ==> Columns.Canonical(h) in cols
    ensures forall c :: c in cols ==> exists h :: h in header && c == Columns.Canonical(h)
  {
    set h | h in header :: Columns.Canonical(h)
  }

  /** Whether a readable file gets past the derivations without raising: only the two
      count columns are read there. */
  predicate Usable(csv: Csv) {
    var cols := CanonicalColumns(csv.header);
    "publica" in cols && "particular" in cols
  }

  /** The month-name column is derived when the file has a numeric month but no name. */
  predicate DerivesMonth(cols: set<string>) {
    "mes_nome" !in cols && "mês" in cols
  }

  /** The loader: None is a file that cannot be read. Every failure yields the fixed
      fallback table. */
  function Load(src: Option<Csv>): (t: Table)
    ensures forall i :: 0 <= i < |t.rows| ==> TotalIsSum(t.rows[i])
    ensures (src.None? || !Usable(src.value)) ==> t == Fallback()
    ensures src.Some? && Usable(src.value) ==>
      var cols := CanonicalColumns(src.value.header);
      && t.columns == cols + {"total_autismo", "percentual_publica", "percentual_particular"}
                          + (if DerivesMonth(cols) then {"mes_nome"} else {})
      && |t.rows| == |src.value.records|
      && forall i :: 0 <= i < |t.rows| ==>
           t.rows[i] == DeriveRow(DerivesMonth(cols), src.value.records[i]) && SharesComplete(t.rows[i])
  {
    match src
    case None => Fallback()
    case Some(csv) =>
      if !Usable(csv) then Fallback()
      else
        var cols := CanonicalColumns(csv.header);
        var derive := DerivesMonth(cols);
        Table(cols + {"total_autismo", "percentual_publica", "percentual_particular"}
                   + (if derive then {"mes_nome"} else {}),
              DeriveRows(derive, csv.records))
  }

  const FallbackPublica: seq<nat> :=
    [1200, 1300, 1450, 1600, 1800, 2000, 2200, 2400, 2600, 2800, 3000, 3200, 3400, 3600]

  const FallbackParticular: seq<nat> :=
    [300, 350, 400, 450, 500, 550, 600, 650, 700, 750, 800, 850, 900, 950]

  function FallbackRow(i: nat): (r: Row)
    requires i < 14
    ensures r.ano == 2010 + i && r.regiao == "Sudeste" && r.estado == "SP"
    ensures r.mesNome == Some("Janeiro") && TotalIsSum(r) && !r.projecao
  {
    Row(2010 + i, "Sudeste", "SP", Some("Janeiro"),
        FallbackPublica[i], FallbackParticular[i],
        FallbackPublica[i] + FallbackParticular[i], None, None, false)
  }

  /** The fixed example data used when loading fails (index.py, lines 37-46): years
      2010 to 2023 of one region and state; it has no percentage columns. */
  function Fallback(): (t: Table)
    ensures {"ano", "publica", "particular", "região", "estado", "mes_nome", "total_autismo"} == t.columns
    ensures |t.rows| == 14
    ensures forall i :: 0 <= i < 14 ==>
      && t.rows[i].ano == 2010 + i
      && t.rows[i].regiao == "Sudeste" && t.rows[i].estado == "SP"
      && t.rows[i].mesNome == Some("Janeiro")
      && TotalIsSum(t.rows[i]) && !t.rows[i].projecao
      && t.rows[i].publica == FallbackPublica[i] && t.rows[i].particular == FallbackParticular[i]
  {
    Table({"ano", "publica", "particular", "região", "estado", "mes_nome", "total_autismo"},
          seq(14, i requires 0 <= i < 14 => FallbackRow(i)))
  }

  /** The fallback counts grow strictly from year to year in both school networks. */
  lemma FallbackCountsIncrease(i: nat, j: nat)
    requires i < j < 14
    ensures Fallback().rows[i].publica < Fallback().rows[j].publica
    ensures Fallback().rows[i].particular < Fallback().rows[j].particular
  {
  }
}
