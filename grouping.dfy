/**
 * The foreign-key grouping of the attribute-option and family-variant
 * imports: a loop that keeps a current parent code and a batch, and sends
 * the batch to the parent-scoped endpoint when a record's code differs from
 * the current one or the record is the last one.
 *
 * `Runs` is the partition of a record sequence into runs in which each
 * record continues its predecessor (a record without the field continues
 * nothing). The loop as written sends the runs of the input
 * WITHOUT its last record (and one empty batch for a one-record input):
 * the final flush happens before the last record is added to the batch.
 */
module Grouping {
  import opened Records
  import opened Remote
  import Urls

  /** The two imports that group their records by the parent's code. */
  datatype Grouped = AttributeOptions | FamilyVariants

  /** The field naming the parent. */
  function KeyField(g: Grouped): string
  {
    match g
    case AttributeOptions => "attribute"
    case FamilyVariants => "family"
  }

  /** The endpoint a batch for the parent `key` is patched to. */
  function BatchUrl(g: Grouped, key: string): string
  {
    match g
    case AttributeOptions => Urls.AttributeOptionsUrl(key)
    case FamilyVariants => Urls.FamilyVariantsUrl(key)
  }

  /** The record as sent: a family variant loses `family`, an option keeps `attribute`. */
  function Payload(g: Grouped, r: Record): Record
  {
    match g
    case AttributeOptions => r
    case FamilyVariants => Delete(r, "family")
  }

  /** The records of a batch as sent. */
  function Payloads(g: Grouped, rs: seq<Record>): (ps: seq<Record>)
    ensures |ps| == |rs|
  {
    if rs == [] then [] else Payloads(g, rs[..|rs| - 1]) + [Payload(g, rs[|rs| - 1])]
  }

  /** `r.field || ''`: the code a record makes current. */
  function Key(r: Record, field: string): string
  {
    OrEmpty(Get(r, field))
  }

  /**
   * The record `next` stays in the batch that `prev` made current: its field
   * equals the current code. A missing field never does.
   */
  predicate Continues(prev: Record, next: Record, field: string)
  {
    Get(next, field) == Some(Key(prev, field))
  }

  /** A run of consecutive records and the parent code they share. */
  datatype Run = Run(key: string, records: seq<Record>)

  /**
   * The runs after one more record `r`: it joins the last run when it
   * continues that run's code, and starts a run of its own otherwise.
   */
  function Step(prior: seq<Run>, joins: bool, r: Record, field: string): seq<Run>
    requires joins ==> prior != []
  {
    if joins then
      var last := prior[|prior| - 1];
      prior[..|prior| - 1] + [Run(last.key, last.records + [r])]
    else prior + [Run(Key(r, field), [r])]
  }

  /** The maximal runs of `rs`, built record by record. */
  function Runs(rs: seq<Record>, field: string): (runs: seq<Run>)
    ensures rs == [] <==> runs == []
    decreases |rs|
  {
    if rs == [] then []
    else
      var init, r := rs[..|rs| - 1], rs[|rs| - 1];
      Step(Runs(init, field), init != [] && Continues(init[|init| - 1], r, field), r, field)
  }

  /** The last run is named by the code of the last record, and ends with it. */
  lemma RunsLast(rs: seq<Record>, field: string)
    requires rs != []
    ensures var runs := Runs(rs, field);
      && runs[|runs| - 1].key == Key(rs[|rs| - 1], field)
      && runs[|runs| - 1].records != []
      && runs[|runs| - 1].records[|runs[|runs| - 1].records| - 1] == rs[|rs| - 1]
  {
  }

  /** `Runs` unfolded once on a sequence written as `init + [r]`. */
  lemma RunsSnoc(init: seq<Record>, r: Record, field: string)
    ensures Runs(init + [r], field)
         == Step(Runs(init, field), init != [] && Continues(init[|init| - 1], r, field), r, field)
  {
    assert (init + [r])[..|init|] == init;
  }

  /** The records of the runs, concatenated in order. */
  function Flatten(runs: seq<Run>): seq<Record>
  {
    if runs == [] then [] else Flatten(runs[..|runs| - 1]) + runs[|runs| - 1].records
  }

  /** A non-empty run whose records all continue the code of the first. */
  ghost predicate Uniform(run: Run, field: string)
  {
    && run.records != []
    && (forall j :: 0 <= j < |run.records| ==> Key(run.records[j], field) == run.key)
    && (forall j :: 0 < j < |run.records| ==> Continues(run.records[j - 1], run.records[j], field))
  }

  /** Between the runs k-1 and k the code changes. */
  ghost predicate BreaksAt(runs: seq<Run>, k: int, field: string)
    requires 0 < k < |runs|
  {
    var before := runs[k - 1].records;
    before != [] && runs[k].records != [] && !Continues(before[|before| - 1], runs[k].records[0], field)
  }

  /** Between every two consecutive runs the code changes. */
  ghost predicate AllBreak(runs: seq<Run>, field: string)
  {
    forall k :: 0 < k < |runs| ==> BreaksAt(runs, k, field)
  }

  /**
   * `runs` cut `rs` into maximal runs: within a run each record continues its
   * predecessor, and no run continues into the next.
   */
  ghost predicate MaximalRuns(rs: seq<Record>, runs: seq<Run>, field: string)
  {
    && Flatten(runs) == rs
    && AllUniform(runs, field)
    && AllBreak(runs, field)
  }

  lemma FlattenSnoc(runs: seq<Run>, run: Run)
    ensures Flatten(runs + [run]) == Flatten(runs) + run.records
  {
    assert (runs + [run])[..|runs|] == runs;
  }

  /** A record added to the last run lands after every record before it. */
  lemma FlattenGrow(front: seq<Run>, last: Run, r: Record)
    ensures Flatten(front + [Run(last.key, last.records + [r])]) == Flatten(front + [last]) + [r]
  {
    FlattenSnoc(front, last);
    FlattenSnoc(front, Run(last.key, last.records + [r]));
    assert Flatten(front) + (last.records + [r]) == (Flatten(front) + last.records) + [r];
  }

  /** One more record, joining the last run or starting a new one, lands at the end. */
  lemma FlattenStep(prior: seq<Run>, joins: bool, r: Record, field: string)
    requires joins ==> prior != []
    ensures Flatten(Step(prior, joins, r, field)) == Flatten(prior) + [r]
  {
    if joins {
      var front, last := prior[..|prior| - 1], prior[|prior| - 1];
      assert prior == front + [last];
      FlattenGrow(front, last, r);
    } else {
      FlattenSnoc(prior, Run(Key(r, field), [r]));
    }
  }

  /** One more record at the end of the input lands at the end of the runs. */
  lemma RunsCoverSnoc(init: seq<Record>, r: Record, field: string)
    requires Flatten(Runs(init, field)) == init
    ensures Flatten(Runs(init + [r], field)) == init + [r]
  {
    RunsSnoc(init, r, field);
    FlattenStep(Runs(init, field), init != [] && Continues(init[|init| - 1], r, field), r, field);
  }

  /** Every record lands in exactly one run, in order. */
  lemma {:induction false} RunsCover(rs: seq<Record>, field: string)
    ensures Flatten(Runs(rs, field)) == rs
    decreases |rs|
  {
    if rs != [] {
      var init := rs[..|rs| - 1];
      assert rs == init + [rs[|rs| - 1]];
      RunsCover(init, field);
      RunsCoverSnoc(init, rs[|rs| - 1], field);
    }
  }

  /** A record that continues the last record of a run extends the run. */
  lemma UniformGrow(run: Run, r: Record, field: string)
    requires Uniform(run, field) && Continues(run.records[|run.records| - 1], r, field)
    ensures Uniform(Run(run.key, run.records + [r]), field)
  {
    var grown := run.records + [r];
    var n := |run.records|;
    assert Key(r, field) == Key(run.records[n - 1], field) == run.key;
    forall j | 0 <= j < |grown| ensures Key(grown[j], field) == run.key {
      if j < n { assert grown[j] == run.records[j]; }
    }
    forall j | 0 < j < |grown| ensures Continues(grown[j - 1], grown[j], field) {
      if j < n { assert grown[j - 1] == run.records[j - 1] && grown[j] == run.records[j]; }
    }
  }

  /** Every run of a sequence of runs is `Uniform`. */
  ghost predicate AllUniform(runs: seq<Run>, field: string)
  {
    forall k :: 0 <= k < |runs| ==> Uniform(runs[k], field)
  }

  lemma AllUniformSnoc(runs: seq<Run>, run: Run, field: string)
    requires AllUniform(runs, field) && Uniform(run, field)
    ensures AllUniform(runs + [run], field)
  {
    forall k | 0 <= k < |runs| + 1 ensures Uniform((runs + [run])[k], field) {
      if k < |runs| { assert (runs + [run])[k] == runs[k]; }
    }
  }

  /** Each run is non-empty and its records all carry the run's code. */
  lemma {:induction false} RunsUniform(rs: seq<Record>, field: string)
    ensures AllUniform(Runs(rs, field), field)
    decreases |rs|
  {
    if rs != [] {
      var init, r := rs[..|rs| - 1], rs[|rs| - 1];
      var prior := Runs(init, field);
      RunsUniform(init, field);
      if init != [] && Continues(init[|init| - 1], r, field) {
        RunsLast(init, field);
        var front, last := prior[..|prior| - 1], prior[|prior| - 1];
        assert Uniform(last, field);
        UniformGrow(last, r, field);
        assert AllUniform(front, field) by {
          forall k | 0 <= k < |front| ensures Uniform(front[k], field) {
            assert front[k] == prior[k];
          }
        }
        AllUniformSnoc(front, Run(last.key, last.records + [r]), field);
      } else {
        AllUniformSnoc(prior, Run(Key(r, field), [r]), field);
      }
    }
  }

  /** No run continues into the next: each run's first record does not continue the previous run's last. */
  lemma {:induction false} RunsMaximal(rs: seq<Record>, field: string)
    ensures forall k :: 0 < k < |Runs(rs, field)| ==> BreaksAt(Runs(rs, field), k, field)
    decreases |rs|
  {
    if rs != [] {
      var init, r := rs[..|rs| - 1], rs[|rs| - 1];
      var prior := Runs(init, field);
      var runs := Runs(rs, field);
      RunsMaximal(init, field);
      RunsUniform(init, field);
      forall k | 0 < k < |runs|
        ensures BreaksAt(runs, k, field)
      {
        if k < |prior| - 1 {
          assert runs[k - 1] == prior[k - 1] && runs[k] == prior[k];
          assert BreaksAt(prior, k, field);
        } else if k == |prior| - 1 {
          assert runs[k - 1] == prior[k - 1];
          assert runs[k].records[0] == prior[k].records[0];
          assert BreaksAt(prior, k, field);
        } else {
          assert runs[k - 1] == prior[k - 1];
        }
      }
    }
  }

  /** The runs of `rs` are a maximal-run partition of it. */
  lemma RunsArePartition(rs: seq<Record>, field: string)
    ensures MaximalRuns(rs, Runs(rs, field), field)
  {
    RunsCover(rs, field);
    RunsUniform(rs, field);
    RunsMaximal(rs, field);
  }

  /** Dropping the last run keeps a sequence of runs uniform and broken between runs. */
  lemma DropLastRun(runs: seq<Run>, field: string)
    requires runs != [] && AllUniform(runs, field) && AllBreak(runs, field)
    ensures AllUniform(runs[..|runs| - 1], field) && AllBreak(runs[..|runs| - 1], field)
  {
    var front := runs[..|runs| - 1];
    forall k | 0 <= k < |front| ensures Uniform(front[k], field) {
      assert front[k] == runs[k];
    }
    forall k | 0 < k < |front| ensures BreaksAt(front, k, field) {
      assert BreaksAt(runs, k, field);
      assert front[k] == runs[k] && front[k - 1] == runs[k - 1];
    }
  }

  /** Without a last run of one record, what remains is a maximal-run partition of the rest. */
  lemma DropSingletonRun(rs: seq<Record>, runs: seq<Run>, field: string)
    requires MaximalRuns(rs, runs, field)
    requires runs != [] && |runs[|runs| - 1].records| == 1
    ensures rs != [] && MaximalRuns(rs[..|rs| - 1], runs[..|runs| - 1], field)
  {
    var front, last := runs[..|runs| - 1], runs[|runs| - 1];
    assert runs == front + [last];
    FlattenSnoc(front, last);
    assert rs == Flatten(front) + [last.records[0]];
    DropLastRun(runs, field);
  }

  /** Dropping the last record of a run of several keeps it uniform. */
  lemma UniformShrink(run: Run, field: string)
    requires Uniform(run, field) && |run.records| > 1
    ensures Uniform(Run(run.key, run.records[..|run.records| - 1]), field)
  {
    var shrunk := run.records[..|run.records| - 1];
    forall j | 0 <= j < |shrunk| ensures Key(shrunk[j], field) == run.key {
      assert shrunk[j] == run.records[j];
    }
    forall j | 0 < j < |shrunk| ensures Continues(shrunk[j - 1], shrunk[j], field) {
      assert shrunk[j - 1] == run.records[j - 1] && shrunk[j] == run.records[j];
    }
  }

  /** Without the last record of a longer last run, what remains is a maximal-run partition of the rest. */
  lemma ShrinkLastRun(rs: seq<Record>, runs: seq<Run>, field: string)
    requires MaximalRuns(rs, runs, field)
    requires runs != [] && |runs[|runs| - 1].records| > 1
    ensures var last := runs[|runs| - 1];
      && rs != []
      && MaximalRuns(rs[..|rs| - 1], runs[..|runs| - 1] + [Run(last.key, last.records[..|last.records| - 1])], field)
  {
    var front, last := runs[..|runs| - 1], runs[|runs| - 1];
    var n := |last.records|;
    var shrunk := Run(last.key, last.records[..n - 1]);
    var runs' := front + [shrunk];
    assert runs == front + [last];
    FlattenSnoc(front, last);
    FlattenSnoc(front, shrunk);
    assert last.records == shrunk.records + [last.records[n - 1]];
    assert rs == Flatten(runs') + [last.records[n - 1]];
    assert Uniform(last, field);
    UniformShrink(last, field);
    DropLastRun(runs, field);
    AllUniformSnoc(front, shrunk, field);
    forall k | 0 < k < |runs'| ensures BreaksAt(runs', k, field) {
      assert BreaksAt(runs, k, field);
      if k < |front| {
        assert BreaksAt(front, k, field);
        assert runs'[k - 1] == front[k - 1] && runs'[k] == front[k];
      } else {
        assert runs'[k - 1] == runs[k - 1];
        assert runs'[k].records[0] == runs[k].records[0];
      }
    }
  }

  /** There is only one maximal-run partition: `Runs` is it. */
  lemma {:induction false} RunsUnique(rs: seq<Record>, runs: seq<Run>, field: string)
    requires MaximalRuns(rs, runs, field)
    ensures runs == Runs(rs, field)
    decreases |rs|
  {
    if runs == [] {
      assert rs == Flatten(runs) == [];
    } else {
      var last := runs[|runs| - 1];
      var n := |last.records|;
      if n == 1 {
        DropSingletonRun(rs, runs, field);
        RunsUnique(rs[..|rs| - 1], runs[..|runs| - 1], field);
        SingletonStarts(rs, runs, field);
        UniqueSingleton(rs, runs, field);
      } else {
        assert Uniform(last, field);
        ShrinkLastRun(rs, runs, field);
        RunsUnique(rs[..|rs| - 1], runs[..|runs| - 1] + [Run(last.key, last.records[..n - 1])], field);
        LongerContinues(rs, runs, field);
        FlattenLast(runs);
        UniqueLonger(rs, runs, field);
      }
    }
  }

  /** The inductive step of `RunsUnique` when the last run holds one record. */
  lemma UniqueSingleton(rs: seq<Record>, runs: seq<Run>, field: string)
    requires runs != [] && |runs[|runs| - 1].records| == 1 && Flatten(runs) == rs
    requires Key(rs[|rs| - 1], field) == runs[|runs| - 1].key
    requires |rs| > 1 ==> !Continues(rs[|rs| - 2], rs[|rs| - 1], field)
    requires runs[..|runs| - 1] == Runs(rs[..|rs| - 1], field)
    ensures runs == Runs(rs, field)
  {
    var front, last := runs[..|runs| - 1], runs[|runs| - 1];
    assert runs == front + [last];
    FlattenSnoc(front, last);
    var r := last.records[0];
    var init := rs[..|rs| - 1];
    assert rs == init + [r];
    RunsSnoc(init, r, field);
    assert init != [] ==> init[|init| - 1] == rs[|rs| - 2];
    assert last == Run(Key(r, field), [r]);
    assert Runs(rs, field) == Step(front, false, r, field) == front + [last];
  }

  /** The last record of the flattened runs is the last record of the last run. */
  lemma FlattenLast(runs: seq<Run>)
    requires runs != [] && runs[|runs| - 1].records != []
    ensures var last := runs[|runs| - 1].records;
      Flatten(runs) != [] && Flatten(runs)[|Flatten(runs)| - 1] == last[|last| - 1]
  {
    var front, last := runs[..|runs| - 1], runs[|runs| - 1];
    assert runs == front + [last];
    FlattenSnoc(front, last);
  }

  /** A record joining the runs with their last record removed puts it back. */
  lemma StepRejoins(runs: seq<Run>, field: string)
    requires runs != [] && |runs[|runs| - 1].records| > 1
    ensures var last := runs[|runs| - 1];
      var n := |last.records|;
      Step(runs[..|runs| - 1] + [Run(last.key, last.records[..n - 1])], true, last.records[n - 1], field) == runs
  {
    var front, last := runs[..|runs| - 1], runs[|runs| - 1];
    var n := |last.records|;
    assert (front + [Run(last.key, last.records[..n - 1])])[..|front|] == front;
    assert last.records[..n - 1] + [last.records[n - 1]] == last.records;
    assert runs == front + [last];
  }

  /** The inductive step of `RunsUnique` when the last run holds several records. */
  lemma UniqueLonger(rs: seq<Record>, runs: seq<Run>, field: string)
    requires runs != [] && |runs[|runs| - 1].records| > 1
    requires |rs| > 1 && Continues(rs[|rs| - 2], rs[|rs| - 1], field)
    requires var last := runs[|runs| - 1].records; last[|last| - 1] == rs[|rs| - 1]
    requires var last := runs[|runs| - 1];
      runs[..|runs| - 1] + [Run(last.key, last.records[..|last.records| - 1])] == Runs(rs[..|rs| - 1], field)
    ensures runs == Runs(rs, field)
  {
    var init := rs[..|rs| - 1];
    assert init[|init| - 1] == rs[|rs| - 2];
    StepRejoins(runs, field);
  }

  /** A last run of one record starts at a break: its record does not continue the one before. */
  lemma SingletonStarts(rs: seq<Record>, runs: seq<Run>, field: string)
    requires MaximalRuns(rs, runs, field)
    requires runs != [] && |runs[|runs| - 1].records| == 1
    ensures |rs| > 1 ==> !Continues(rs[|rs| - 2], rs[|rs| - 1], field)
    ensures Key(rs[|rs| - 1], field) == runs[|runs| - 1].key
  {
    var front, last := runs[..|runs| - 1], runs[|runs| - 1];
    assert runs == front + [last];
    FlattenSnoc(front, last);
    assert Uniform(last, field);
    if |rs| > 1 {
      assert Flatten(front) != [];
      assert front != [];
      assert BreaksAt(runs, |runs| - 1, field);
      var before := front[|front| - 1];
      assert front == front[..|front| - 1] + [before];
      FlattenSnoc(front[..|front| - 1], before);
      assert rs[|rs| - 2] == before.records[|before.records| - 1];
    }
  }

  /** The last record of a longer last run continues the record before it. */
  lemma LongerContinues(rs: seq<Record>, runs: seq<Run>, field: string)
    requires MaximalRuns(rs, runs, field)
    requires runs != [] && |runs[|runs| - 1].records| > 1
    ensures |rs| > 1 && Continues(rs[|rs| - 2], rs[|rs| - 1], field)
  {
    var front, last := runs[..|runs| - 1], runs[|runs| - 1];
    var n := |last.records|;
    assert runs == front + [last];
    FlattenSnoc(front, last);
    assert Uniform(last, field);
    assert rs == Flatten(front) + last.records;
    assert rs[|rs| - 2] == last.records[n - 2] && rs[|rs| - 1] == last.records[n - 1];
  }

  /** One `patch` per run: the run's code picks the endpoint, its records form the body. */
  function Render(g: Grouped, runs: seq<Run>): (patches: seq<Patch>)
    ensures |patches| == |runs|
  {
    if runs == [] then []
    else
      var last := runs[|runs| - 1];
      Render(g, runs[..|runs| - 1]) + [Patch(BatchUrl(g, last.key), Payloads(g, last.records))]
  }

  /**
   * The patches the import sends for the records of its file, in order.
   * Nothing when the first record lacks the parent code; otherwise the
   * maximal runs of all records but the last, or one empty batch when there
   * is a single record.
   */
  function Sent(g: Grouped, rs: seq<Record>): seq<Patch>
  {
    if rs == [] || !Truthy(Get(rs[0], KeyField(g))) then []
    else if |rs| == 1 then [Patch(BatchUrl(g, Key(rs[0], KeyField(g))), [])]
    else Render(g, Runs(rs[..|rs| - 1], KeyField(g)))
  }

  /** The k-th patch carries the k-th run, to the endpoint of its code. */
  lemma {:induction false} RenderAt(g: Grouped, runs: seq<Run>)
    ensures forall k :: 0 <= k < |runs| ==>
      Render(g, runs)[k] == Patch(BatchUrl(g, runs[k].key), Payloads(g, runs[k].records))
  {
    if runs != [] {
      var front, last := runs[..|runs| - 1], runs[|runs| - 1];
      var p := Patch(BatchUrl(g, last.key), Payloads(g, last.records));
      assert Render(g, runs) == Render(g, front) + [p];
      RenderAt(g, front);
      forall k | 0 <= k < |runs|
        ensures Render(g, runs)[k] == Patch(BatchUrl(g, runs[k].key), Payloads(g, runs[k].records))
      {
        if k < |front| {
          assert runs[k] == front[k];
          assert Render(g, runs)[k] == Render(g, front)[k];
        }
      }
    }
  }

  lemma RenderSnoc(g: Grouped, runs: seq<Run>, run: Run)
    ensures Render(g, runs + [run]) == Render(g, runs) + [Patch(BatchUrl(g, run.key), Payloads(g, run.records))]
  {
    assert (runs + [run])[..|runs|] == runs;
  }

  /**
   * The state of the grouping loop after the first i records: every run of
   * `rs[..i]` but the last has been sent, and the last is the pending batch
   * for the current code.
   */
  ghost predicate Midway(g: Grouped, rs: seq<Record>, i: int, sent: seq<Patch>, key: string, pending: seq<Record>)
    requires 0 < i <= |rs|
  {
    var runs := Runs(rs[..i], KeyField(g));
    sent == Render(g, runs[..|runs| - 1]) && runs[|runs| - 1] == Run(key, pending)
  }

  /** The first record, whose code is set, opens the first batch. */
  lemma StartStep(g: Grouped, rs: seq<Record>, key: string, pending: seq<Record>)
    requires |rs| > 0 && Truthy(Get(rs[0], KeyField(g)))
    requires key == Key(rs[0], KeyField(g)) && pending == [rs[0]]
    ensures Midway(g, rs, 1, [], key, pending)
  {
    RunsSnoc([], rs[0], KeyField(g));
    assert rs[..1] == [] + [rs[0]];
  }

  /** Runs(rs[..i + 1]) from Runs(rs[..i]). */
  lemma RunsPrefixStep(rs: seq<Record>, i: int, field: string)
    requires 0 < i < |rs|
    ensures Runs(rs[..i + 1], field) == Step(Runs(rs[..i], field), Continues(rs[i - 1], rs[i], field), rs[i], field)
  {
    assert rs[..i + 1] == rs[..i] + [rs[i]];
    RunsSnoc(rs[..i], rs[i], field);
  }

  /**
   * A record with a different code sends the pending batch and opens its
   * own: the state moves from (sent, key, pending) to (sent', key', pending').
   */
  lemma FlushStep(g: Grouped, rs: seq<Record>, i: int, sent: seq<Patch>, key: string, pending: seq<Record>,
                  sent': seq<Patch>, key': string, pending': seq<Record>)
    requires 0 < i < |rs| && Midway(g, rs, i, sent, key, pending)
    requires Get(rs[i], KeyField(g)) != Some(key)
    requires sent' == sent + [Patch(BatchUrl(g, key), Payloads(g, pending))]
    requires key' == Key(rs[i], KeyField(g)) && pending' == [rs[i]]
    ensures Midway(g, rs, i + 1, sent', key', pending')
  {
    var field := KeyField(g);
    var prior := Runs(rs[..i], field);
    assert rs[..i][i - 1] == rs[i - 1];
    RunsLast(rs[..i], field);
    assert key == Key(rs[i - 1], field);
    RunsPrefixStep(rs, i, field);
    var single := Run(Key(rs[i], field), [rs[i]]);
    assert Runs(rs[..i + 1], field) == prior + [single];
    assert prior == prior[..|prior| - 1] + [Run(key, pending)];
    RenderSnoc(g, prior[..|prior| - 1], Run(key, pending));
    assert (prior + [single])[..|prior|] == prior;
  }

  /** A record with the current code joins the pending batch. */
  lemma JoinStep(g: Grouped, rs: seq<Record>, i: int, sent: seq<Patch>, key: string, pending: seq<Record>,
                 pending': seq<Record>)
    requires 0 < i < |rs| && Midway(g, rs, i, sent, key, pending)
    requires Get(rs[i], KeyField(g)) == Some(key)
    requires pending' == pending + [rs[i]]
    ensures Midway(g, rs, i + 1, sent, key, pending')
  {
    var field := KeyField(g);
    var prior := Runs(rs[..i], field);
    assert rs[..i][i - 1] == rs[i - 1];
    RunsLast(rs[..i], field);
    assert key == Key(rs[i - 1], field);
    RunsPrefixStep(rs, i, field);
    var front := prior[..|prior| - 1];
    var grown := Run(key, pending + [rs[i]]);
    assert Runs(rs[..i + 1], field) == front + [grown];
    assert (front + [grown])[..|front|] == front;
  }

  /** The last record flushes the pending batch, which then is the last run of all records before it. */
  lemma LastStep(g: Grouped, rs: seq<Record>, sent: seq<Patch>, key: string, pending: seq<Record>)
    requires |rs| > 1 && Truthy(Get(rs[0], KeyField(g)))
    requires Midway(g, rs, |rs| - 1, sent, key, pending)
    ensures sent + [Patch(BatchUrl(g, key), Payloads(g, pending))] == Sent(g, rs)
  {
    var prior := Runs(rs[..|rs| - 1], KeyField(g));
    assert prior == prior[..|prior| - 1] + [Run(key, pending)];
    RenderSnoc(g, prior[..|prior| - 1], Run(key, pending));
  }

  /**
   * What holds of the grouping loop's variables after the first i records:
   * the batch holds the pending records as sent, the state is `Midway`
   * between the first and the last record, and after the last record
   * everything the import sends has been sent.
   */
  ghost predicate Progress(g: Grouped, rs: seq<Record>, i: int, sent: seq<Patch>, key: string,
                           batch: seq<Record>, pending: seq<Record>)
    requires 0 <= i <= |rs| && |rs| > 0
  {
    && Truthy(Get(rs[0], KeyField(g)))
    && (i < |rs| ==> batch == Payloads(g, pending))
    && (i == 0 ==> sent == [] && pending == [] && Get(rs[0], KeyField(g)) == Some(key))
    && (0 < i < |rs| ==> Midway(g, rs, i, sent, key, pending))
    && (i == |rs| ==> sent == Sent(g, rs))
  }

  /**
   * One turn of the grouping loop on record i keeps `Progress`: the batch is
   * flushed when the record's code differs from the current one or the
   * record is the last, and the record is then added to the batch.
   */
  lemma Advance(g: Grouped, rs: seq<Record>, i: int, sent: seq<Patch>, key: string, batch: seq<Record>, pending: seq<Record>,
                sent': seq<Patch>, key': string, batch': seq<Record>, pending': seq<Record>)
    requires 0 <= i < |rs| && Progress(g, rs, i, sent, key, batch, pending)
    requires var flush := Get(rs[i], KeyField(g)) != Some(key) || i + 1 == |rs|;
      && sent' == (if flush then sent + [Patch(BatchUrl(g, key), batch)] else sent)
      && key' == (if flush then OrEmpty(Get(rs[i], KeyField(g))) else key)
      && batch' == (if flush then [] else batch) + [Payload(g, rs[i])]
      && pending' == (if flush then [] else pending) + [rs[i]]
    ensures Progress(g, rs, i + 1, sent', key', batch', pending')
  {
    var field := KeyField(g);
    if i + 1 == |rs| {
      assert sent' == sent + [Patch(BatchUrl(g, key), batch)];
      if i > 0 {
        LastStep(g, rs, sent, key, pending);
      }
    } else if i == 0 {
      assert Get(rs[i], field) == Some(key);
      assert sent' == [] && key' == key && pending' == [rs[0]];
      StartStep(g, rs, key', pending');
      PayloadsSnoc(g, [], rs[0]);
      assert [] + [rs[0]] == [rs[0]];
    } else if Get(rs[i], field) != Some(key) {
      assert pending' == [] + [rs[i]] == [rs[i]];
      assert batch' == [] + [Payload(g, rs[i])];
      FlushStep(g, rs, i, sent, key, pending, sent', key', pending');
      PayloadsSnoc(g, [], rs[i]);
    } else {
      assert sent' == sent && key' == key && pending' == pending + [rs[i]];
      JoinStep(g, rs, i, sent, key, pending, pending');
      PayloadsSnoc(g, pending, rs[i]);
    }
  }

  /** The grouping loop of the two imports, `patch` recorded in `sent`. */
  method GroupAndPatch(g: Grouped, rs: seq<Record>) returns (sent: seq<Patch>)
    ensures sent == Sent(g, rs)
  {
    sent := [];
    var field := KeyField(g);
    if |rs| > 0 && Truthy(Get(rs[0], field)) {
      var key := OrEmpty(Get(rs[0], field));
      var batch: seq<Record> := [];
      ghost var pending: seq<Record> := [];
      for i := 0 to |rs|
        invariant Progress(g, rs, i, sent, key, batch, pending)
      {
        ghost var sent0, key0, batch0, pending0 := sent, key, batch, pending;
        if Get(rs[i], field) != Some(key) || i + 1 == |rs| {
          sent := sent + [Patch(BatchUrl(g, key), batch)];
          key := OrEmpty(Get(rs[i], field));
          batch := [];
          pending := [];
        }
        batch := batch + [Payload(g, rs[i])];
        pending := pending + [rs[i]];
        Advance(g, rs, i, sent0, key0, batch0, pending0, sent, key, batch, pending);
      }
    }
  }

  /** The concatenated bodies of a sequence of patches. */
  function Bodies(patches: seq<Patch>): seq<Record>
  {
    if patches == [] then [] else Bodies(patches[..|patches| - 1]) + patches[|patches| - 1].body
  }

  /** The i-th record sent is the i-th record of the batch, as sent. */
  lemma {:induction false} PayloadsAt(g: Grouped, rs: seq<Record>)
    ensures forall i :: 0 <= i < |rs| ==> Payloads(g, rs)[i] == Payload(g, rs[i])
  {
    if rs != [] {
      PayloadsAt(g, rs[..|rs| - 1]);
    }
  }

  /** Attribute options are sent exactly as read. */
  lemma OptionsPayloads(rs: seq<Record>)
    ensures Payloads(AttributeOptions, rs) == rs
  {
    PayloadsAt(AttributeOptions, rs);
  }

  lemma PayloadsSnoc(g: Grouped, rs: seq<Record>, r: Record)
    ensures Payloads(g, rs + [r]) == Payloads(g, rs) + [Payload(g, r)]
  {
    assert (rs + [r])[..|rs|] == rs;
  }

  lemma PayloadsAppend(g: Grouped, a: seq<Record>, b: seq<Record>)
    ensures Payloads(g, a + b) == Payloads(g, a) + Payloads(g, b)
  {
    var l, r := Payloads(g, a + b), Payloads(g, a) + Payloads(g, b);
    PayloadsAt(g, a + b);
    PayloadsAt(g, a);
    PayloadsAt(g, b);
    assert |l| == |r|;
    forall i | 0 <= i < |l| ensures l[i] == r[i] {
      if i < |a| { assert (a + b)[i] == a[i]; } else { assert (a + b)[i] == b[i - |a|]; }
    }
  }

  lemma BodiesSnoc(patches: seq<Patch>, p: Patch)
    ensures Bodies(patches + [p]) == Bodies(patches) + p.body
  {
    assert (patches + [p])[..|patches|] == patches;
  }

  lemma {:induction false} RenderBodies(g: Grouped, runs: seq<Run>)
    ensures Bodies(Render(g, runs)) == Payloads(g, Flatten(runs))
  {
    if runs != [] {
      var front, last := runs[..|runs| - 1], runs[|runs| - 1];
      var p := Patch(BatchUrl(g, last.key), Payloads(g, last.records));
      assert Render(g, runs) == Render(g, front) + [p];
      assert Flatten(runs) == Flatten(front) + last.records;
      RenderBodies(g, front);
      BodiesSnoc(Render(g, front), p);
      PayloadsAppend(g, Flatten(front), last.records);
    }
  }

  /**
   * Coverage: for a non-empty input whose first record names its parent, the
   * bodies sent, in order, are the payloads of every record except the last.
   */
  lemma SentCoverage(g: Grouped, rs: seq<Record>)
    requires rs != [] && Truthy(Get(rs[0], KeyField(g)))
    ensures Bodies(Sent(g, rs)) == Payloads(g, rs[..|rs| - 1])
  {
    if |rs| > 1 {
      RenderBodies(g, Runs(rs[..|rs| - 1], KeyField(g)));
      RunsCover(rs[..|rs| - 1], KeyField(g));
    } else {
      assert Bodies(Sent(g, rs)) == Bodies([]) + [];
    }
  }

  /**
   * Contiguity: each patch carries one maximal run of consecutive records
   * (all but the last of the input), sent to the endpoint of the code all its
   * records carry, read before any field is deleted.
   */
  lemma SentRuns(g: Grouped, rs: seq<Record>)
    requires |rs| > 1 && Truthy(Get(rs[0], KeyField(g)))
    ensures var runs := Runs(rs[..|rs| - 1], KeyField(g));
      && MaximalRuns(rs[..|rs| - 1], runs, KeyField(g))
      && |Sent(g, rs)| == |runs|
      && (forall k :: 0 <= k < |runs| ==>
            Sent(g, rs)[k] == Patch(BatchUrl(g, runs[k].key), Payloads(g, runs[k].records)))
  {
    var runs := Runs(rs[..|rs| - 1], KeyField(g));
    RunsArePartition(rs[..|rs| - 1], KeyField(g));
    assert Sent(g, rs) == Render(g, runs);
    RenderAt(g, runs);
  }

  /** Family variants are sent without their `family` field. */
  lemma VariantsSentWithoutFamily(rs: seq<Record>)
    ensures forall k, j :: 0 <= k < |Sent(FamilyVariants, rs)| && 0 <= j < |Sent(FamilyVariants, rs)[k].body| ==>
      Get(Sent(FamilyVariants, rs)[k].body[j], "family") == None
  {
    if |rs| > 1 && Truthy(Get(rs[0], "family")) {
      var runs := Runs(rs[..|rs| - 1], "family");
      assert Sent(FamilyVariants, rs) == Render(FamilyVariants, runs);
      RenderAt(FamilyVariants, runs);
      forall k | 0 <= k < |runs| {
        PayloadsAt(FamilyVariants, runs[k].records);
      }
    }
  }

  /** Attribute options are sent as read: the bodies are the records but the last. */
  lemma OptionsSentAsRead(rs: seq<Record>)
    ensures Bodies(Sent(AttributeOptions, rs)) == if rs == [] || !Truthy(Get(rs[0], "attribute")) then [] else rs[..|rs| - 1]
  {
    if rs != [] && Truthy(Get(rs[0], "attribute")) {
      SentCoverage(AttributeOptions, rs);
      OptionsPayloads(rs[..|rs| - 1]);
    }
  }

  /** The runs of the two-record prefixes the examples below send. */
  lemma ExampleRuns(a1: Record, a2: Record, b: Record)
    requires Get(a1, "attribute") == Some("A") && Get(a2, "attribute") == Some("A")
    requires Get(b, "attribute") == Some("B")
    ensures Runs([a1, a2], "attribute") == [Run("A", [a1, a2])]
    ensures Runs([a1, b], "attribute") == [Run("A", [a1]), Run("B", [b])]
  {
    var f := "attribute";
    assert Key(a1, f) == "A" && Key(a2, f) == "A" && Key(b, f) == "B";
    assert Continues(a1, a2, f) && !Continues(a1, b, f);
    RunsSnoc([], a1, f);
    assert [] + [a1] == [a1];
    assert Runs([a1], f) == [Run("A", [a1])];
    RunsSnoc([a1], a2, f);
    assert [a1] + [a2] == [a1, a2];
    RunsSnoc([a1], b, f);
    assert [a1] + [b] == [a1, b];
  }

  lemma RenderOne(g: Grouped, run: Run)
    ensures Render(g, [run]) == [Patch(BatchUrl(g, run.key), Payloads(g, run.records))]
  {
    RenderSnoc(g, [], run);
    assert [] + [run] == [run];
  }

  lemma RenderTwo(g: Grouped, r1: Run, r2: Run)
    ensures Render(g, [r1, r2])
         == [Patch(BatchUrl(g, r1.key), Payloads(g, r1.records)), Patch(BatchUrl(g, r2.key), Payloads(g, r2.records))]
  {
    RenderOne(g, r1);
    RenderSnoc(g, [r1], r2);
    assert [r1] + [r2] == [r1, r2];
  }

  /** A three-record file sends the runs of its first two records. */
  lemma SentOfThree(g: Grouped, rs: seq<Record>)
    requires |rs| == 3 && Truthy(Get(rs[0], KeyField(g)))
    ensures Sent(g, rs) == Render(g, Runs(rs[..2], KeyField(g)))
  {
  }

  /**
   * Example, for any two records of attribute A and one of attribute B: the
   * last record is never sent.
   */
  lemma SentDropsLast(a1: Record, a2: Record, b: Record)
    requires Get(a1, "attribute") == Some("A") && Get(a2, "attribute") == Some("A")
    requires Get(b, "attribute") == Some("B")
    ensures Sent(AttributeOptions, [a1, a2, b]) == [Patch(Urls.AttributeOptionsUrl("A"), [a1, a2])]
  {
    ExampleRuns(a1, a2, b);
    SentOfThree(AttributeOptions, [a1, a2, b]);
    assert [a1, a2, b][..2] == [a1, a2];
    RenderOne(AttributeOptions, Run("A", [a1, a2]));
    OptionsPayloads([a1, a2]);
  }

  /**
   * Example: contiguity decides, not membership. A record of attribute A
   * after one of B opens a new batch for A instead of joining the first.
   */
  lemma SentContiguity(a1: Record, a2: Record, b: Record)
    requires Get(a1, "attribute") == Some("A") && Get(a2, "attribute") == Some("A")
    requires Get(b, "attribute") == Some("B")
    ensures Sent(AttributeOptions, [a1, b, a2]) == [Patch(Urls.AttributeOptionsUrl("A"), [a1]),
                                                    Patch(Urls.AttributeOptionsUrl("B"), [b])]
  {
    ExampleRuns(a1, a2, b);
    SentOfThree(AttributeOptions, [a1, b, a2]);
    assert [a1, b, a2][..2] == [a1, b];
    RenderTwo(AttributeOptions, Run("A", [a1]), Run("B", [b]));
    OptionsPayloads([a1]);
    OptionsPayloads([b]);
  }

  /** The runs of a coded record followed by two records without the parent field. */
  lemma KeylessRuns(a: Record, m1: Record, m2: Record)
    requires Get(a, "attribute") == Some("A")
    requires Get(m1, "attribute") == None && Get(m2, "attribute") == None
    ensures Runs([a, m1, m2], "attribute") == [Run("A", [a]), Run("", [m1]), Run("", [m2])]
  {
    var f := "attribute";
    assert Key(a, f) == "A" && Key(m1, f) == "" && Key(m2, f) == "";
    assert !Continues(a, m1, f) && !Continues(m1, m2, f);
    RunsSnoc([], a, f);
    assert [] + [a] == [a];
    RunsSnoc([a], m1, f);
    assert [a] + [m1] == [a, m1];
    RunsSnoc([a, m1], m2, f);
    assert [a, m1] + [m2] == [a, m1, m2];
  }

  /** Three one-record runs of options render to three one-record patches. */
  lemma RenderSingles(a: Record, m1: Record, m2: Record)
    ensures Render(AttributeOptions, [Run("A", [a]), Run("", [m1]), Run("", [m2])])
         == [Patch(Urls.AttributeOptionsUrl("A"), [a]), Patch(Urls.AttributeOptionsUrl(""), [m1]),
             Patch(Urls.AttributeOptionsUrl(""), [m2])]
  {
    var r1, r2, r3 := Run("A", [a]), Run("", [m1]), Run("", [m2]);
    RenderTwo(AttributeOptions, r1, r2);
    RenderSnoc(AttributeOptions, [r1, r2], r3);
    assert [r1, r2] + [r3] == [r1, r2, r3];
    OptionsPayloads([a]);
    OptionsPayloads([m1]);
    OptionsPayloads([m2]);
  }

  /** A four-record file sends the runs of its first three records. */
  lemma SentOfFour(g: Grouped, rs: seq<Record>)
    requires |rs| == 4 && Truthy(Get(rs[0], KeyField(g)))
    ensures Sent(g, rs) == Render(g, Runs(rs[..3], KeyField(g)))
  {
  }

  /**
   * Example: a record without the parent field never joins the current
   * batch, not even one opened by another such record, because its missing
   * field is never equal to the current code `''`. Each goes out alone, to
   * the endpoint of the empty code.
   */
  lemma SentKeyless(a: Record, m1: Record, m2: Record, b: Record)
    requires Get(a, "attribute") == Some("A")
    requires Get(m1, "attribute") == None && Get(m2, "attribute") == None
    ensures Sent(AttributeOptions, [a, m1, m2, b]) == [Patch(Urls.AttributeOptionsUrl("A"), [a]),
                                                       Patch(Urls.AttributeOptionsUrl(""), [m1]),
                                                       Patch(Urls.AttributeOptionsUrl(""), [m2])]
  {
    SentOfFour(AttributeOptions, [a, m1, m2, b]);
    assert [a, m1, m2, b][..3] == [a, m1, m2];
    KeylessRuns(a, m1, m2);
    RenderSingles(a, m1, m2);
  }

  /** A lone record is never sent: its batch goes out empty. An empty file sends nothing. */
  lemma SentSingle(r: Record, g: Grouped)
    requires Truthy(Get(r, KeyField(g)))
    ensures Sent(g, [r]) == [Patch(BatchUrl(g, Get(r, KeyField(g)).value), [])]
    ensures Sent(g, []) == []
  {
  }

  /** A first record without its parent code stops the import before any patch. */
  lemma SentGuard(g: Grouped, rs: seq<Record>)
    requires rs != [] && !Truthy(Get(rs[0], KeyField(g)))
    ensures Sent(g, rs) == []
  {
  }

  /**
   * What the grouping loop is evidently meant to send: one patch per maximal
   * run of ALL the records, the last one included. The guard on the first
   * record is kept.
   */
  function IntendedSent(g: Grouped, rs: seq<Record>): seq<Patch>
  {
    if rs == [] || !Truthy(Get(rs[0], KeyField(g))) then [] else Render(g, Runs(rs, KeyField(g)))
  }

  /** After the last record, the pending batch is the last run of all the records. */
  lemma FinalFlush(g: Grouped, rs: seq<Record>, sent: seq<Patch>, key: string, pending: seq<Record>)
    requires |rs| > 0 && Truthy(Get(rs[0], KeyField(g)))
    requires Midway(g, rs, |rs|, sent, key, pending)
    ensures sent + [Patch(BatchUrl(g, key), Payloads(g, pending))] == IntendedSent(g, rs)
  {
    assert rs[..|rs|] == rs;
    var runs := Runs(rs, KeyField(g));
    assert runs == runs[..|runs| - 1] + [Run(key, pending)];
    RenderSnoc(g, runs[..|runs| - 1], Run(key, pending));
  }

  /**
   * The grouping loop with the final flush moved after the loop, so that the
   * last record is added to its batch before the batch is sent.
   */
  method GroupAndPatchAll(g: Grouped, rs: seq<Record>) returns (sent: seq<Patch>)
    ensures sent == IntendedSent(g, rs)
  {
    sent := [];
    var field := KeyField(g);
    if |rs| > 0 && Truthy(Get(rs[0], field)) {
      var key := OrEmpty(Get(rs[0], field));
      var batch := [Payload(g, rs[0])];
      ghost var pending := [rs[0]];
      StartStep(g, rs, key, pending);
      PayloadsSnoc(g, [], rs[0]);
      for i := 1 to |rs|
        invariant Midway(g, rs, i, sent, key, pending) && batch == Payloads(g, pending)
      {
        ghost var sent0, key0, pending0 := sent, key, pending;
        if Get(rs[i], field) != Some(key) {
          sent := sent + [Patch(BatchUrl(g, key), batch)];
          key := OrEmpty(Get(rs[i], field));
          batch := [Payload(g, rs[i])];
          pending := [rs[i]];
          FlushStep(g, rs, i, sent0, key0, pending0, sent, key, pending);
          PayloadsSnoc(g, [], rs[i]);
        } else {
          batch := batch + [Payload(g, rs[i])];
          pending := pending + [rs[i]];
          JoinStep(g, rs, i, sent0, key0, pending0, pending);
          PayloadsSnoc(g, pending0, rs[i]);
        }
      }
      FinalFlush(g, rs, sent, key, pending);
      sent := sent + [Patch(BatchUrl(g, key), batch)];
    }
  }

  /** The intended loop sends every record, in order, as its payload. */
  lemma IntendedCoverage(g: Grouped, rs: seq<Record>)
    requires rs != [] && Truthy(Get(rs[0], KeyField(g)))
    ensures Bodies(IntendedSent(g, rs)) == Payloads(g, rs)
  {
    RenderBodies(g, Runs(rs, KeyField(g)));
    RunsCover(rs, KeyField(g));
  }

  /** The loop as written sends, for two records or more, what the intended one sends without the last. */
  lemma SentIsIntendedOfInit(g: Grouped, rs: seq<Record>)
    requires |rs| > 1
    ensures Sent(g, rs) == IntendedSent(g, rs[..|rs| - 1])
  {
    assert rs[..|rs| - 1][0] == rs[0];
  }
}
