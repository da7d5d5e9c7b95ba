/**
 * The first step of the training script: every job posting carries a list
 * of prospects, and these nested lists are flattened into one row per
 * (job, prospect) pair; each row is then labelled as a hire or not from the
 * prospect's status text.
 */
module Prospects {
  import opened Text

  /** One entry of a job's `prospects` list: `codigo` and
      `situacao_candidado`. */
  datatype Prospect = Prospect(codigo: string, situacao: string)

  /** A row of the prospects table: the job id (the table's index) and its
      prospect list, in file order. */
  datatype Job = Job(id: string, prospects: seq<Prospect>)

  /** A row of `prospects_flat`. */
  datatype FlatRow = FlatRow(codigoVaga: string, codigoCandidato: string, situacao: string)

  /** The row appended for prospect `p` of job `id`. */
  function RowOf(id: string, p: Prospect): FlatRow {
    FlatRow(id, p.codigo, p.situacao)
  }

  /** The rows of one job, in prospect order. */
  function JobRows(id: string, ps: seq<Prospect>): (rows: seq<FlatRow>)
    ensures |rows| == |ps|
    ensures forall k :: 0 <= k < |ps| ==> rows[k] == RowOf(id, ps[k])
  {
    seq(|ps|, k requires 0 <= k < |ps| => RowOf(id, ps[k]))
  }

  /** Number of prospects over all jobs. */
  function TotalProspects(jobs: seq<Job>): nat {
    if |jobs| == 0 then 0 else |jobs[0].prospects| + TotalProspects(jobs[1..])
  }

  /** `expanded_rows`: job by job, and within a job prospect by prospect. */
  function Flatten(jobs: seq<Job>): (rows: seq<FlatRow>)
    ensures |rows| == TotalProspects(jobs)
  {
    if |jobs| == 0 then []
    else JobRows(jobs[0].id, jobs[0].prospects) + Flatten(jobs[1..])
  }

  /** Every row carries the id of one of the jobs. */
  lemma {:induction false} FlattenKeepsJobIds(jobs: seq<Job>)
    ensures forall r :: r in Flatten(jobs) ==> exists j :: 0 <= j < |jobs| && r.codigoVaga == jobs[j].id
  {
    if |jobs| > 0 {
      var head := JobRows(jobs[0].id, jobs[0].prospects);
      var tail := Flatten(jobs[1..]);
      FlattenKeepsJobIds(jobs[1..]);
      forall r | r in Flatten(jobs) ensures exists j :: 0 <= j < |jobs| && r.codigoVaga == jobs[j].id {
        if r in head {
          assert r.codigoVaga == jobs[0].id;
        } else {
          assert r in tail;
          var j :| 0 <= j < |jobs| - 1 && r.codigoVaga == jobs[1..][j].id;
          assert jobs[1..][j] == jobs[j + 1];
        }
      }
    }
  }

  /** Where the rows of job `j` start in the flattened table. */
  function Offset(jobs: seq<Job>, j: nat): nat
    requires j <= |jobs|
  {
    TotalProspects(jobs[..j])
  }

  /** Ordering: prospect `k` of job `j` is the row at position
      `Offset(jobs, j) + k`, that is after every prospect of every earlier
      job and after the earlier prospects of the same job. */
  lemma {:induction false} FlattenIndex(jobs: seq<Job>, j: nat, k: nat)
    requires j < |jobs| && k < |jobs[j].prospects|
    ensures Offset(jobs, j) + k < |Flatten(jobs)|
    ensures Flatten(jobs)[Offset(jobs, j) + k] == RowOf(jobs[j].id, jobs[j].prospects[k])
  {
    var head := JobRows(jobs[0].id, jobs[0].prospects);
    var tail := Flatten(jobs[1..]);
    assert Flatten(jobs) == head + tail;
    if j == 0 {
      assert jobs[..0] == [];
    } else {
      FlattenIndex(jobs[1..], j - 1, k);
      OffsetStep(jobs, j);
      assert jobs[1..][j - 1] == jobs[j];
      assert (head + tail)[|head| + Offset(jobs[1..], j - 1) + k] == tail[Offset(jobs[1..], j - 1) + k];
    }
  }

  /** Past the first job, offsets are counted from the rest of the jobs. */
  lemma OffsetStep(jobs: seq<Job>, j: nat)
    requires 0 < j <= |jobs|
    ensures Offset(jobs, j) == |jobs[0].prospects| + Offset(jobs[1..], j - 1)
  {
    assert jobs[..j][0] == jobs[0];
    assert jobs[..j][1..] == jobs[1..][..j - 1];
  }

  lemma {:induction false} FlattenAppend(jobs: seq<Job>, last: Job)
    ensures Flatten(jobs + [last]) == Flatten(jobs) + JobRows(last.id, last.prospects)
    decreases |jobs|
  {
    var rows := JobRows(last.id, last.prospects);
    if |jobs| == 0 {
      assert jobs + [last] == [last];
      assert [last][1..] == [];
      assert Flatten([last]) == rows + [];
      assert rows + [] == rows;
    } else {
      var all := jobs + [last];
      assert all[0] == jobs[0];
      assert all[1..] == jobs[1..] + [last];
      FlattenAppend(jobs[1..], last);
      var head := JobRows(jobs[0].id, jobs[0].prospects);
      assert Flatten(all) == head + (Flatten(jobs[1..]) + rows);
      assert head + (Flatten(jobs[1..]) + rows) == (head + Flatten(jobs[1..])) + rows;
    }
  }

  /** The nested loops of the script. */
  method FlattenLoop(jobs: seq<Job>) returns (rows: seq<FlatRow>)
    ensures rows == Flatten(jobs)
  {
    rows := [];
    var j := 0;
    while j < |jobs|
      invariant 0 <= j <= |jobs|
      invariant rows == Flatten(jobs[..j])
    {
      var job := jobs[j];
      var k := 0;
      while k < |job.prospects|
        invariant 0 <= k <= |job.prospects|
        invariant rows == Flatten(jobs[..j]) + JobRows(job.id, job.prospects[..k])
      {
        assert JobRows(job.id, job.prospects[..k + 1])
            == JobRows(job.id, job.prospects[..k]) + [RowOf(job.id, job.prospects[k])];
        rows := rows + [RowOf(job.id, job.prospects[k])];
        k := k + 1;
      }
      assert job.prospects[..k] == job.prospects;
      FlattenAppend(jobs[..j], job);
      assert jobs[..j + 1] == jobs[..j] + [job];
      j := j + 1;
    }
    assert jobs[..j] == jobs;
  }

  /** `1 if 'contratado' in x.lower() else 0`. */
  function HireLabel(situacao: string): (hired: int)
    ensures hired == 0 || hired == 1
    ensures hired == 1 <==> exists i :: OccursAt(Lower(situacao), "contratado", i)
  {
    if Contains(Lower(situacao), "contratado") then 1 else 0
  }

  /** The label ignores the case of the status. */
  lemma HireLabelIgnoresCase(situacao: string)
    ensures HireLabel(Lower(situacao)) == HireLabel(situacao)
  {
    LowerIdempotent(situacao);
  }

  /** A status that names a hire, in any case, gets 1. */
  lemma HireLabelExamples()
    ensures HireLabel("Contratado pela Decision") == 1
    ensures HireLabel("CONTRATADO COMO HUNTING") == 1
  {
    HiredByDecision();
    HiredAsHunting();
  }

  lemma HiredByDecision()
    ensures HireLabel("Contratado pela Decision") == 1
  {
    assert OccursAt(Lower("Contratado pela Decision"), "contratado", 0);
  }

  lemma HiredAsHunting()
    ensures HireLabel("CONTRATADO COMO HUNTING") == 1
  {
    assert OccursAt(Lower("CONTRATADO COMO HUNTING"), "contratado", 0);
  }

  /** A status that does not name a hire gets 0. */
  lemma ProspectNotHired()
    ensures HireLabel("Prospect") == 0
  {
  }

  /** A row of `prospects_flat` after the `contratado` column is added. */
  datatype LabeledRow = LabeledRow(codigoVaga: string, codigoCandidato: string, situacao: string, contratado: int)

  /** `prospects_flat['contratado'] = prospects_flat['situacao'].apply(...)`. */
  function Label(rows: seq<FlatRow>): (out: seq<LabeledRow>)
    ensures |out| == |rows|
    ensures forall i :: 0 <= i < |rows| ==>
      && out[i].codigoVaga == rows[i].codigoVaga
      && out[i].codigoCandidato == rows[i].codigoCandidato
      && out[i].situacao == rows[i].situacao
      && (out[i].contratado == 0 || out[i].contratado == 1)
      && (out[i].contratado == 1 <==> exists k :: OccursAt(Lower(rows[i].situacao), "contratado", k))
  {
    seq(|rows|, i requires 0 <= i < |rows| =>
      LabeledRow(rows[i].codigoVaga, rows[i].codigoCandidato, rows[i].situacao, HireLabel(rows[i].situacao)))
  }
}
