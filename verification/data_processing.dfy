/** The two table helpers of utils/data_processing.py: dropping incomplete enrolment
    rows while adding the autism share, and the year-on-year growth of the autism
    enrolment within each (region, school type) group. */
module DataProcessing {
  import opened Wrappers
  import opened Seqs

  /** One row of the education table; a missing (NaN) count is `None`. */
  datatype EduRow = EduRow(
    regiao: string,
    tipoEscola: string,
    ano: int,
    matriculas: Option<int>,
    totalMatriculas: Option<int>)

  /** A row kept by the cleaning step, with its `percentual_autismo`. */
  datatype CleanRow = CleanRow(row: EduRow, percentual: Option<real>)

  /** A sorted row with its `crescimento_anual`. */
  datatype GrowthRow = GrowthRow(row: EduRow, crescimento: Option<real>)

  predicate Complete(r: EduRow) {
    r.matriculas.Some? && r.totalMatriculas.Some?
  }

  /** `m / t * 100`; a zero denominator gives an infinite or NaN value, here `None`. */
  function Share(m: int, t: int): (p: Option<real>)
    ensures p.Some? <==> t != 0
    ensures p.Some? ==> p.value * (t as real) == 100.0 * (m as real)
  {
    if t == 0 then None else Some((m as real) / (t as real) * 100.0)
  }

  /** A share of a non-negative part of a positive whole lies between 0 and 100. */
  lemma ShareBounds(m: int, t: int)
    requires 0 <= m <= t && t > 0
    ensures Share(m, t).Some? && 0.0 <= Share(m, t).value <= 100.0
  {
    var p := Share(m, t).value;
    assert p * (t as real) <= 100.0 * (t as real);
  }

  function CleanSource(c: CleanRow): EduRow {
    c.row
  }

  /** `clean_education_data` (utils/data_processing.py, lines 3-7). */
  function CleanEducationData(df: seq<EduRow>): (r: seq<CleanRow>)
    ensures |r| <= |df|
    ensures forall x :: x in MapSeq(r, CleanSource) <==> x in df && Complete(x)
    ensures forall i :: 0 <= i < |r| ==>
      && Complete(r[i].row)
      && r[i].percentual == Share(r[i].row.matriculas.value, r[i].row.totalMatriculas.value)
  {
    if |df| == 0 then []
    else
      var rest := CleanEducationData(df[1..]);
      var x := df[0];
      assert forall y :: y in df <==> y == x || y in df[1..];
      if Complete(x) then
        var c := CleanRow(x, Share(x.matriculas.value, x.totalMatriculas.value));
        assert MapSeq([c] + rest, CleanSource) == [x] + MapSeq(rest, CleanSource);
        [c] + rest
      else rest
  }

  /** Cleaning goes row by row, so it keeps the order of the rows it keeps. */
  lemma {:induction false} CleanConcat(a: seq<EduRow>, b: seq<EduRow>)
    ensures CleanEducationData(a + b) == CleanEducationData(a) + CleanEducationData(b)
  {
    if |a| > 0 {
      assert (a + b)[1..] == a[1..] + b;
      CleanConcat(a[1..], b);
    } else {
      assert a + b == b;
    }
  }

  /** A table without missing values keeps every row, untouched and in order. */
  lemma {:induction false} CleanOfCompleteTable(df: seq<EduRow>)
    requires forall i :: 0 <= i < |df| ==> Complete(df[i])
    ensures MapSeq(CleanEducationData(df), CleanSource) == df
  {
    if |df| > 0 {
      CleanOfCompleteTable(df[1..]);
      var rest := CleanEducationData(df[1..]);
      var c := CleanRow(df[0], Share(df[0].matriculas.value, df[0].totalMatriculas.value));
      assert MapSeq([c] + rest, CleanSource) == [df[0]] + MapSeq(rest, CleanSource);
      assert df == [df[0]] + df[1..];
    }
  }

  // ---------------------------------------------------------------------------------
  // Sorting by (regiao, tipo_escola, ano).

  predicate SameGroup(a: EduRow, b: EduRow) {
    a.regiao == b.regiao && a.tipoEscola == b.tipoEscola
  }

  /** The group of `a` sorts before the group of `b`. */
  predicate GroupLt(a: EduRow, b: EduRow) {
    StrLt(a.regiao, b.regiao) || (a.regiao == b.regiao && StrLt(a.tipoEscola, b.tipoEscola))
  }

  /** The sort key (regiao, tipo_escola, ano) of `a` is below that of `b`. */
  predicate KeyLt(a: EduRow, b: EduRow) {
    GroupLt(a, b) || (SameGroup(a, b) && a.ano < b.ano)
  }

  ghost predicate SortedByKey(s: seq<EduRow>) {
    forall i, j :: 0 <= i < j < |s| ==> !KeyLt(s[j], s[i])
  }

  lemma GroupLtTransitive(a: EduRow, b: EduRow, c: EduRow)
    requires GroupLt(a, b) && GroupLt(b, c)
    ensures GroupLt(a, c)
  {
    StrLtIsStrictTotal();
  }

  lemma KeyLtTransitive(a: EduRow, b: EduRow, c: EduRow)
    requires KeyLt(a, b) && KeyLt(b, c)
    ensures KeyLt(a, c)
  {
    if GroupLt(a, b) && GroupLt(b, c) {
      GroupLtTransitive(a, b, c);
    }
  }

  /** Rows of different groups are ordered by their groups. */
  lemma GroupLtConnected(a: EduRow, b: EduRow)
    requires !SameGroup(a, b)
    ensures GroupLt(a, b) || GroupLt(b, a)
  {
    StrLtIsStrictTotal();
  }

  /** `x` placed after every row whose key is not above it: a stable insertion. */
  function Insert(x: EduRow, s: seq<EduRow>): (r: seq<EduRow>)
    ensures multiset(r) == multiset(s) + multiset{x}
  {
    if |s| == 0 then [x]
    else if KeyLt(x, s[0]) then [x] + s
    else
      assert s == [s[0]] + s[1..];
      [s[0]] + Insert(x, s[1..])
  }

  lemma KeyLtIrreflexive(a: EduRow)
    ensures !KeyLt(a, a)
  {
    StrLtIrreflexive(a.regiao);
    StrLtIrreflexive(a.tipoEscola);
  }

  /** Inserting into sorted rows keeps them sorted. */
  lemma {:induction false} InsertKeepsSorted(x: EduRow, s: seq<EduRow>)
    requires SortedByKey(s)
    ensures SortedByKey(Insert(x, s))
  {
    if |s| == 0 {
    } else if KeyLt(x, s[0]) {
      forall j | 0 <= j < |s| ensures !KeyLt(s[j], x) {
        if KeyLt(s[j], x) {
          KeyLtTransitive(s[j], x, s[0]);
          KeyLtIrreflexive(s[0]);
        }
      }
      var r := [x] + s;
      assert forall j :: 0 < j < |r| ==> r[j] == s[j - 1];
    } else {
      InsertKeepsSorted(x, s[1..]);
      var rest := Insert(x, s[1..]);
      forall j | 0 <= j < |rest| ensures !KeyLt(rest[j], s[0]) {
        assert rest[j] in multiset(rest);
        assert rest[j] == x || rest[j] in s[1..];
      }
      var r := [s[0]] + rest;
      assert forall j :: 0 < j < |r| ==> r[j] == rest[j - 1];
    }
  }

  /** `df.sort_values(['regiao', 'tipo_escola', 'ano'])`, keeping rows with equal keys
      in table order. */
  function SortRows(df: seq<EduRow>): (r: seq<EduRow>)
    ensures SortedByKey(r)
    ensures multiset(r) == multiset(df)
  {
    if |df| == 0 then []
    else
      var n := |df| - 1;
      assert df == df[..n] + [df[n]];
      InsertKeepsSorted(df[n], SortRows(df[..n]));
      Insert(df[n], SortRows(df[..n]))
  }

  // ---------------------------------------------------------------------------------
  // `groupby(['regiao', 'tipo_escola'])['matriculas_autismo'].pct_change()`.

  /** The last row before `j` (exclusive) in the group of `s[i]`. */
  function PrevBefore(s: seq<EduRow>, i: nat, j: nat): (p: Option<nat>)
    requires j <= i < |s|
    ensures p.Some? ==> p.value < j && SameGroup(s[p.value], s[i])
    ensures p.Some? ==> forall k :: p.value < k < j ==> !SameGroup(s[k], s[i])
    ensures p.None? ==> forall k :: 0 <= k < j ==> !SameGroup(s[k], s[i])
  {
    if j == 0 then None
    else if SameGroup(s[j - 1], s[i]) then Some(j - 1)
    else PrevBefore(s, i, j - 1)
  }

  /** The row before row `i` in its group, whatever the row order. */
  function PrevInGroup(s: seq<EduRow>, i: nat): (p: Option<nat>)
    requires i < |s|
    ensures p.Some? ==> p.value < i && SameGroup(s[p.value], s[i])
    ensures p.Some? ==> forall k :: p.value < k < i ==> !SameGroup(s[k], s[i])
    ensures p.None? ==> forall k :: 0 <= k < i ==> !SameGroup(s[k], s[i])
  {
    PrevBefore(s, i, i)
  }

  /** No row of `s[i]`'s group after position `lo`, up to and including `i`, has a count. */
  ghost predicate NoCountAfter(s: seq<EduRow>, lo: int, i: nat)
    requires i < |s|
  {
    forall k :: 0 <= k && lo < k <= i && SameGroup(s[k], s[i]) ==> s[k].matriculas.None?
  }

  /** Row `j` is the last row of `s[i]`'s group up to `i` that has a count, and it is `v`. */
  ghost predicate FilledFrom(s: seq<EduRow>, i: nat, j: nat, v: int)
    requires i < |s|
  {
    j <= i && SameGroup(s[j], s[i]) && s[j].matriculas == Some(v) && NoCountAfter(s, j, i)
  }

  /** The count of row `i` after `pct_change`'s forward fill within the group: the
      nearest present count at or above row `i` in its group, or none if there is none. */
  function Filled(s: seq<EduRow>, i: nat): (v: Option<int>)
    requires i < |s|
    ensures s[i].matriculas.Some? ==> v == s[i].matriculas
    ensures v.Some? ==> exists j :: FilledFrom(s, i, j, v.value)
    ensures v.None? ==> NoCountAfter(s, -1, i)
    decreases i
  {
    if s[i].matriculas.Some? then
      assert FilledFrom(s, i, i, s[i].matriculas.value);
      s[i].matriculas
    else
      match PrevInGroup(s, i)
      case None => None
      case Some(j) =>
        var v := Filled(s, j);
        FillCarriesDown(s, i, j, v);
        v
  }

  /** A fill found for the previous row `j` of the group is also the fill of row `i`
      when row `i` has no count of its own. */
  lemma FillCarriesDown(s: seq<EduRow>, i: nat, j: nat, v: Option<int>)
    requires i < |s| && s[i].matriculas.None? && PrevInGroup(s, i) == Some(j)
    requires v.Some? ==> exists m :: FilledFrom(s, j, m, v.value)
    requires v.None? ==> NoCountAfter(s, -1, j)
    ensures v.Some? ==> exists m :: FilledFrom(s, i, m, v.value)
    ensures v.None? ==> NoCountAfter(s, -1, i)
  {
    if v.Some? {
      var m :| FilledFrom(s, j, m, v.value);
      assert FilledFrom(s, i, m, v.value);
    }
  }

  /** `(cur / prev - 1) * 100`, undefined without both values or with `prev == 0`. */
  function Change(cur: Option<int>, prev: Option<int>): (g: Option<real>)
    ensures g.Some? <==> cur.Some? && prev.Some? && prev.value != 0
    ensures g.Some? ==> (prev.value as real) * (1.0 + g.value / 100.0) == cur.value as real
  {
    if cur.Some? && prev.Some? && prev.value != 0 then
      Some(((cur.value as real) / (prev.value as real) - 1.0) * 100.0)
    else None
  }

  /** The growth of row `i` against the previous row of its group. */
  function GrowthAt(s: seq<EduRow>, i: nat): Option<real>
    requires i < |s|
  {
    match PrevInGroup(s, i)
    case None => None
    case Some(j) => Change(Filled(s, i), Filled(s, j))
  }

  /** In rows sorted by group, every group is one contiguous run. */
  lemma GroupsAreContiguous(s: seq<EduRow>, j: nat, k: nat, i: nat)
    requires SortedByKey(s)
    requires j < k < i < |s| && SameGroup(s[j], s[i])
    ensures SameGroup(s[k], s[i])
  {
    if !SameGroup(s[k], s[i]) {
      GroupLtConnected(s[j], s[k]);
      assert false;
    }
  }

  /** In sorted rows the previous row of a group is the row just above, when the two
      share a group, and there is none otherwise. */
  lemma PrevInGroupOfSorted(s: seq<EduRow>, i: nat)
    requires SortedByKey(s) && i < |s|
    ensures PrevInGroup(s, i) == if i > 0 && SameGroup(s[i - 1], s[i]) then Some(i - 1) else None
  {
    var p := PrevInGroup(s, i);
    if i > 0 && !SameGroup(s[i - 1], s[i]) && p.Some? {
      GroupsAreContiguous(s, p.value, i - 1, i);
    }
  }

  function GrowthSource(g: GrowthRow): EduRow {
    g.row
  }

  /** `calculate_growth_rates` (utils/data_processing.py, lines 9-13). */
  function CalculateGrowthRates(df: seq<EduRow>): (r: seq<GrowthRow>)
    ensures |r| == |df|
    ensures SortedByKey(MapSeq(r, GrowthSource))
    ensures multiset(MapSeq(r, GrowthSource)) == multiset(df)
    ensures forall i :: 0 <= i < |r| && r[i].crescimento.Some? ==> i > 0 && SameGroup(r[i - 1].row, r[i].row)
  {
    var s := SortRows(df);
    assert |s| == |multiset(s)| == |multiset(df)| == |df|;
    var r := seq(|s|, i requires 0 <= i < |s| => GrowthRow(s[i], GrowthAt(s, i)));
    assert MapSeq(r, GrowthSource) == s;
    GrowthOnlyWithinGroup(s);
    r
  }

  /** In sorted rows a growth value needs a row just above in the same group. */
  lemma GrowthOnlyWithinGroup(s: seq<EduRow>)
    requires SortedByKey(s)
    ensures forall i :: 0 <= i < |s| && GrowthAt(s, i).Some? ==> i > 0 && SameGroup(s[i - 1], s[i])
  {
    forall i | 0 <= i < |s| && GrowthAt(s, i).Some? ensures i > 0 && SameGroup(s[i - 1], s[i]) {
      PrevInGroupOfSorted(s, i);
    }
  }

  /** The first row of each group gets no growth value. */
  lemma FirstOfGroupHasNoGrowth(df: seq<EduRow>, i: nat)
    requires i < |df|
    requires var r := CalculateGrowthRates(df); i == 0 || !SameGroup(r[i - 1].row, r[i].row)
    ensures CalculateGrowthRates(df)[i].crescimento == None
  {
    var s := SortRows(df);
    assert CalculateGrowthRates(df)[i] == GrowthRow(s[i], GrowthAt(s, i));
    PrevInGroupOfSorted(s, i);
  }

  /** Every other row gets the percentage change from the row just above it, when both
      counts are present. */
  lemma GrowthFromRowAbove(df: seq<EduRow>, i: nat)
    requires 0 < i < |df|
    requires var r := CalculateGrowthRates(df);
      && SameGroup(r[i - 1].row, r[i].row)
      && r[i].row.matriculas.Some? && r[i - 1].row.matriculas.Some?
      && r[i - 1].row.matriculas.value != 0
    ensures var r := CalculateGrowthRates(df);
      var cur := r[i].row.matriculas.value as real;
      var prev := r[i - 1].row.matriculas.value as real;
      r[i].crescimento == Some((cur / prev - 1.0) * 100.0)
  {
    var s := SortRows(df);
    var r := CalculateGrowthRates(df);
    assert r[i] == GrowthRow(s[i], GrowthAt(s, i)) && r[i - 1].row == s[i - 1];
    PrevInGroupOfSorted(s, i);
  }

  /** A missing count is forward-filled from the row above before the change is taken,
      so it shows no growth rather than a missing one. */
  lemma MissingCountShowsNoGrowth(df: seq<EduRow>, i: nat)
    requires 0 < i < |df|
    requires var r := CalculateGrowthRates(df);
      && SameGroup(r[i - 1].row, r[i].row)
      && r[i].row.matriculas.None?
      && r[i - 1].row.matriculas.Some? && r[i - 1].row.matriculas.value != 0
    ensures CalculateGrowthRates(df)[i].crescimento == Some(0.0)
  {
    var s := SortRows(df);
    var r := CalculateGrowthRates(df);
    assert r[i] == GrowthRow(s[i], GrowthAt(s, i)) && r[i - 1].row == s[i - 1];
    PrevInGroupOfSorted(s, i);
    assert Filled(s, i) == Filled(s, i - 1);
  }
}
