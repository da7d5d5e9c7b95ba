/**
 * The cleaning stages of the training script, applied to the merged table in
 * order: keep the rows whose label is 0 or 1, default a blank professional
 * level, drop the rows with a blank academic level, default blank language
 * levels, and reduce the area to its category. A value is blank when it is
 * missing or consists of whitespace only (the `^\s*$` pattern).
 */
module Cleaning {
  import opened Text
  import opened Optional
  import Area
  import Prospects

  /** A row of the merged table. A `None` level is a missing value, as left by
      the left merge for an applicant with no record. */
  datatype Candidate = Candidate(
    codigoVaga: string,
    codigoCandidato: string,
    situacao: string,
    contratado: int,
    nivelProfissional: Option<string>,
    areaAtuacao: Option<string>,
    nivelAcademico: Option<string>,
    nivelIngles: Option<string>,
    nivelEspanhol: Option<string>)

  /** The default for a blank professional level. */
  const Unknown: string := "Desconhecido"

  /** The default for a blank language level. */
  const NoLevel: string := "Nenhum"

  /** Missing, or matched by `^\s*$`. */
  predicate IsBlank(v: Option<string>) {
    v.None? || AllSpace(v.value)
  }

  /** A value is blank exactly when it is missing or strips to nothing. */
  lemma BlankIffStripsEmpty(v: Option<string>)
    ensures IsBlank(v) <==> v.None? || Strip(v.value) == ""
  {
    if v.Some? {
      StripEmptyIffBlank(v.value);
    }
  }

  /** `replace(r'^\s*$', np.nan, regex=True)` followed by `fillna(default)`. */
  function FillBlank(v: Option<string>, default: string): (r: Option<string>)
    ensures IsBlank(v) ==> r == Some(default)
    ensures !IsBlank(v) ==> r == v
  {
    if IsBlank(v) then Some(default) else v
  }

  /** A default that is not itself blank leaves no blank value behind, and a
      second fill changes nothing. */
  lemma FillBlankNormalises(v: Option<string>, default: string)
    requires !AllSpace(default)
    ensures !IsBlank(FillBlank(v, default))
    ensures FillBlank(FillBlank(v, default), default) == FillBlank(v, default)
  {
  }

  /** The rows for which `keep` holds, in their original order. */
  function Filter<T(!new)>(s: seq<T>, keep: T -> bool): (r: seq<T>)
    ensures |r| <= |s|
    ensures forall x :: x in r <==> x in s && keep(x)
  {
    if |s| == 0 then []
    else
      var rest := Filter(s[1..], keep);
      assert forall x :: x in s <==> x == s[0] || x in s[1..];
      if keep(s[0]) then [s[0]] + rest else rest
  }

  /** `f` applied to every row. */
  function Map<T, U>(s: seq<T>, f: T -> U): (r: seq<U>)
    ensures |r| == |s|
    ensures forall i :: 0 <= i < |s| ==> r[i] == f(s[i])
  {
    if |s| == 0 then [] else [f(s[0])] + Map(s[1..], f)
  }

  /** Filtering a concatenation filters each part: relative order is kept. */
  lemma {:induction false} FilterAppend<T(!new)>(a: seq<T>, b: seq<T>, keep: T -> bool)
    ensures Filter(a + b, keep) == Filter(a, keep) + Filter(b, keep)
  {
    if |a| > 0 {
      assert (a + b)[0] == a[0];
      assert (a + b)[1..] == a[1..] + b;
      FilterAppend(a[1..], b, keep);
    } else {
      assert a + b == b;
    }
  }

  /** Mapping a concatenation maps each part. */
  lemma {:induction false} MapAppend<T, U>(a: seq<T>, b: seq<T>, f: T -> U)
    ensures Map(a + b, f) == Map(a, f) + Map(b, f)
  {
  }

  /** A filter that keeps every row is the identity. */
  lemma {:induction false} FilterKeepsAll<T(!new)>(s: seq<T>, keep: T -> bool)
    requires forall i :: 0 <= i < |s| ==> keep(s[i])
    ensures Filter(s, keep) == s
  {
    if |s| > 0 {
      var t := s[1..];
      assert forall i :: 0 <= i < |t| ==> keep(t[i]) by {
        forall i | 0 <= i < |t| ensures keep(t[i]) {
          assert t[i] == s[i + 1];
        }
      }
      FilterKeepsAll(t, keep);
      assert keep(s[0]);
      HeadTail(s);
    }
  }

  /** `f` applied to every row, the resulting runs joined in order. */
  function FlatMap<T, U>(s: seq<T>, f: T -> seq<U>): seq<U> {
    if |s| == 0 then [] else f(s[0]) + FlatMap(s[1..], f)
  }

  lemma {:induction false} FlatMapAppend<T, U>(a: seq<T>, b: seq<T>, f: T -> seq<U>)
    ensures FlatMap(a + b, f) == FlatMap(a, f) + FlatMap(b, f)
  {
    if |a| > 0 {
      assert (a + b)[0] == a[0] && (a + b)[1..] == a[1..] + b;
      FlatMapAppend(a[1..], b, f);
      assert f(a[0]) + (FlatMap(a[1..], f) + FlatMap(b, f)) == (f(a[0]) + FlatMap(a[1..], f)) + FlatMap(b, f);
    } else {
      assert a + b == b;
    }
  }

  /** When `f` maps every row to itself alone, nothing changes. */
  lemma {:induction false} FlatMapIdentity<T>(s: seq<T>, f: T -> seq<T>)
    requires forall i :: 0 <= i < |s| ==> f(s[i]) == [s[i]]
    ensures FlatMap(s, f) == s
  {
    if |s| > 0 {
      assert forall i :: 0 <= i < |s| - 1 ==> s[1..][i] == s[i + 1];
      FlatMapIdentity(s[1..], f);
      assert [s[0]] + s[1..] == s;
    }
  }

  /** A property of every element of every run holds of every element of the
      result. */
  lemma {:induction false} FlatMapAll<T, U>(s: seq<T>, f: T -> seq<U>, p: U -> bool)
    requires forall i :: 0 <= i < |s| ==> forall j :: 0 <= j < |f(s[i])| ==> p(f(s[i])[j])
    ensures forall k :: 0 <= k < |FlatMap(s, f)| ==> p(FlatMap(s, f)[k])
  {
    if |s| > 0 {
      assert forall i :: 0 <= i < |s| - 1 ==> s[1..][i] == s[i + 1];
      FlatMapAll(s[1..], f, p);
      var h := f(s[0]);
      var out := FlatMap(s, f);
      forall k | 0 <= k < |out| ensures p(out[k]) {
        if k >= |h| {
          assert out[k] == FlatMap(s[1..], f)[k - |h|];
        }
      }
    }
  }

  /** `df['contratado'].isin([0, 1])`. */
  predicate HasBinaryLabel(r: Candidate) {
    r.contratado == 0 || r.contratado == 1
  }

  predicate HasAcademicLevel(r: Candidate) {
    !IsBlank(r.nivelAcademico)
  }

  function FillProfessionalRow(r: Candidate): Candidate {
    r.(nivelProfissional := FillBlank(r.nivelProfissional, Unknown))
  }

  function FillLanguagesRow(r: Candidate): Candidate {
    r.(nivelIngles := FillBlank(r.nivelIngles, NoLevel), nivelEspanhol := FillBlank(r.nivelEspanhol, NoLevel))
  }

  function TreatAreaRow(r: Candidate): Candidate {
    r.(areaAtuacao := Some(Area.Categorize(r.areaAtuacao)))
  }

  /** Step 1: remove the rows whose label is not 0 or 1. */
  function KeepBinaryLabels(rows: seq<Candidate>): (out: seq<Candidate>)
    ensures forall r :: r in out <==> r in rows && (r.contratado == 0 || r.contratado == 1)
  {
    Filter(rows, HasBinaryLabel)
  }

  /** Step 2: blank professional levels become "Desconhecido"; nothing else
      changes. */
  function FillProfessional(rows: seq<Candidate>): (out: seq<Candidate>)
    ensures |out| == |rows|
    ensures forall i :: 0 <= i < |rows| ==>
      && (IsBlank(rows[i].nivelProfissional) ==> out[i].nivelProfissional == Some(Unknown))
      && (!IsBlank(rows[i].nivelProfissional) ==> out[i] == rows[i])
      && out[i] == rows[i].(nivelProfissional := out[i].nivelProfissional)
  {
    Map(rows, FillProfessionalRow)
  }

  /** Step 3: remove the rows whose academic level is blank; the others keep
      their order and values. */
  function DropBlankAcademic(rows: seq<Candidate>): (out: seq<Candidate>)
    ensures forall r :: r in out <==> r in rows && !IsBlank(r.nivelAcademico)
  {
    Filter(rows, HasAcademicLevel)
  }

  /** Step 4: blank English and Spanish levels become "Nenhum"; nothing else
      changes. */
  function FillLanguages(rows: seq<Candidate>): (out: seq<Candidate>)
    ensures |out| == |rows|
    ensures forall i :: 0 <= i < |rows| ==>
      && (IsBlank(rows[i].nivelIngles) ==> out[i].nivelIngles == Some(NoLevel))
      && (!IsBlank(rows[i].nivelIngles) ==> out[i].nivelIngles == rows[i].nivelIngles)
      && (IsBlank(rows[i].nivelEspanhol) ==> out[i].nivelEspanhol == Some(NoLevel))
      && (!IsBlank(rows[i].nivelEspanhol) ==> out[i].nivelEspanhol == rows[i].nivelEspanhol)
      && out[i] == rows[i].(nivelIngles := out[i].nivelIngles, nivelEspanhol := out[i].nivelEspanhol)
  {
    Map(rows, FillLanguagesRow)
  }

  /** `df['area_atuacao'].apply(tratar_area)`, stored back under the same
      column name. */
  function TreatArea(rows: seq<Candidate>): (out: seq<Candidate>)
    ensures |out| == |rows|
    ensures forall i :: 0 <= i < |rows| ==>
      && out[i].areaAtuacao.Some?
      && out[i].areaAtuacao.value in Area.Categories
      && out[i].areaAtuacao == Some(Area.Categorize(rows[i].areaAtuacao))
      && out[i] == rows[i].(areaAtuacao := out[i].areaAtuacao)
  {
    Map(rows, TreatAreaRow)
  }

  /** The stages in the order the script applies them. */
  function CleanTable(rows: seq<Candidate>): seq<Candidate> {
    TreatArea(FillLanguages(DropBlankAcademic(FillProfessional(KeepBinaryLabels(rows)))))
  }

  /** Whether a row survives cleaning: a label of 0 or 1 and an academic
      level that is not blank. */
  predicate Survives(r: Candidate) {
    HasBinaryLabel(r) && HasAcademicLevel(r)
  }

  /** What cleaning makes of a surviving row. */
  function CleanRow(r: Candidate): Candidate {
    TreatAreaRow(FillLanguagesRow(FillProfessionalRow(r)))
  }

  /** A row of the cleaned table: every level present and not blank, and the
      area one of the ten categories. */
  predicate IsClean(r: Candidate) {
    && (r.contratado == 0 || r.contratado == 1)
    && !IsBlank(r.nivelProfissional)
    && !IsBlank(r.nivelAcademico)
    && !IsBlank(r.nivelIngles)
    && !IsBlank(r.nivelEspanhol)
    && r.areaAtuacao.Some? && r.areaAtuacao.value in Area.Categories
  }

  /** What the stages make of one row: its cleaned self if it survives,
      nothing otherwise. */
  function CleanHead(r: Candidate): seq<Candidate> {
    if Survives(r) then [CleanRow(r)] else []
  }

  /** The row-at-a-time reading of the stages: keep the surviving rows, in
      order, and clean each one. */
  function CleanRows(rows: seq<Candidate>): seq<Candidate> {
    FlatMap(rows, CleanHead)
  }

  /** Every row of the row-at-a-time reading is clean. */
  lemma CleanRowsAreClean(rows: seq<Candidate>)
    ensures forall i :: 0 <= i < |CleanRows(rows)| ==> IsClean(CleanRows(rows)[i])
  {
    forall i | 0 <= i < |rows| ensures forall j :: 0 <= j < |CleanHead(rows[i])| ==> IsClean(CleanHead(rows[i])[j]) {
      if Survives(rows[i]) {
        CleanRowIsClean(rows[i]);
      }
    }
    FlatMapAll(rows, CleanHead, IsClean);
  }

  lemma CleanRowIsClean(r: Candidate)
    requires Survives(r)
    ensures IsClean(CleanRow(r))
  {
    assert !AllSpace(Unknown) by { assert !IsSpace(Unknown[0]); }
    assert !AllSpace(NoLevel) by { assert !IsSpace(NoLevel[0]); }
  }

  /** The stages applied to one row at the head of the table. */
  lemma {:induction false} CleanTableCons(r: Candidate, rest: seq<Candidate>)
    ensures CleanTable([r] + rest) == (if Survives(r) then [CleanRow(r)] else []) + CleanTable(rest)
  {
    var s := [r] + rest;
    assert s[0] == r && s[1..] == rest;
    var k := KeepBinaryLabels(s);
    assert k == (if HasBinaryLabel(r) then [r] else []) + KeepBinaryLabels(rest);
    var p := FillProfessional(k);
    var pr := FillProfessional(KeepBinaryLabels(rest));
    var head := if HasBinaryLabel(r) then [FillProfessionalRow(r)] else [];
    MapAppend(if HasBinaryLabel(r) then [r] else [], KeepBinaryLabels(rest), FillProfessionalRow);
    assert p == head + pr;
    FilterAppend(head, pr, HasAcademicLevel);
    var d := DropBlankAcademic(p);
    var dhead := if Survives(r) then [FillProfessionalRow(r)] else [];
    assert HasAcademicLevel(FillProfessionalRow(r)) == HasAcademicLevel(r);
    assert Filter(head, HasAcademicLevel) == dhead;
    assert d == dhead + DropBlankAcademic(pr);
    MapAppend(dhead, DropBlankAcademic(pr), FillLanguagesRow);
    var l := FillLanguages(d);
    var lhead := Map(dhead, FillLanguagesRow);
    assert l == lhead + FillLanguages(DropBlankAcademic(pr));
    MapAppend(lhead, FillLanguages(DropBlankAcademic(pr)), TreatAreaRow);
    assert Map(lhead, TreatAreaRow) == if Survives(r) then [CleanRow(r)] else [];
  }

  /** The stages applied to a non-empty table, one row at the head. */
  lemma CleanTableStep(rows: seq<Candidate>)
    requires |rows| > 0
    ensures CleanTable(rows) == CleanHead(rows[0]) + CleanTable(rows[1..])
  {
    HeadTail(rows);
    CleanTableCons(rows[0], rows[1..]);
  }

  /** The staged pipeline equals the row-at-a-time reading: each row is kept
      or dropped on its own, the kept rows keep their order, and each is
      cleaned without looking at the others. */
  lemma {:induction false} CleanTableIsRowwise(rows: seq<Candidate>)
    ensures CleanTable(rows) == CleanRows(rows)
  {
    if |rows| > 0 {
      CleanTableStep(rows);
      CleanTableIsRowwise(rows[1..]);
    }
  }

  /** Every row of the cleaned table is clean. */
  lemma CleanTableIsClean(rows: seq<Candidate>)
    ensures forall i :: 0 <= i < |CleanTable(rows)| ==> IsClean(CleanTable(rows)[i])
  {
    CleanTableIsRowwise(rows);
    CleanRowsAreClean(rows);
  }

  /** Cleaning a concatenation cleans each part. */
  lemma CleanTableAppend(a: seq<Candidate>, b: seq<Candidate>)
    ensures CleanTable(a + b) == CleanTable(a) + CleanTable(b)
  {
    CleanTableIsRowwise(a + b);
    CleanTableIsRowwise(a);
    CleanTableIsRowwise(b);
    CleanRowsAppend(a, b);
  }

  lemma CleanRowsAppend(a: seq<Candidate>, b: seq<Candidate>)
    ensures CleanRows(a + b) == CleanRows(a) + CleanRows(b)
  {
    FlatMapAppend(a, b, CleanHead);
  }

  /** Cleaning is idempotent: a cleaned table is left as it is. */
  lemma CleanTableIdempotent(rows: seq<Candidate>)
    ensures CleanTable(CleanTable(rows)) == CleanTable(rows)
  {
    CleanTableIsRowwise(rows);
    CleanRowsAreClean(rows);
    CleanIsFixed(CleanRows(rows));
  }

  /** A table of clean rows is left as it is. */
  lemma CleanIsFixed(rows: seq<Candidate>)
    requires forall i :: 0 <= i < |rows| ==> IsClean(rows[i])
    ensures CleanTable(rows) == rows
  {
    CleanTableIsRowwise(rows);
    CleanRowsFixed(rows);
  }

  lemma CleanRowsFixed(rows: seq<Candidate>)
    requires forall i :: 0 <= i < |rows| ==> IsClean(rows[i])
    ensures CleanRows(rows) == rows
  {
    forall i | 0 <= i < |rows| ensures CleanHead(rows[i]) == [rows[i]] {
      CleanRowIsFixed(rows[i]);
    }
    FlatMapIdentity(rows, CleanHead);
  }

  /** A non-empty sequence is its head followed by its tail. */
  lemma HeadTail<T>(s: seq<T>)
    requires |s| > 0
    ensures [s[0]] + s[1..] == s
  {
  }

  /** A clean row survives and is its own cleaned row. */
  lemma CleanRowIsFixed(r: Candidate)
    requires IsClean(r)
    ensures Survives(r) && CleanRow(r) == r
  {
    Area.CategoryIsFixed(r.areaAtuacao.value);
  }

  /** The label filter drops nothing from rows labelled as the script labels
      them, since that label is always 0 or 1. */
  lemma LabelFilterKeepsAll(rows: seq<Candidate>)
    requires forall i :: 0 <= i < |rows| ==> rows[i].contratado == Prospects.HireLabel(rows[i].situacao)
    ensures KeepBinaryLabels(rows) == rows
  {
    FilterKeepsAll(rows, HasBinaryLabel);
  }
}
