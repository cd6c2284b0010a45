/** The main block of the script: for every command-line argument, read
    the descriptor from the file name, create the table row it names, and
    run the parsing function its variant selects. The first uncaught
    exception ends the run. */
module Driver {
  import opened Options
  import opened Aggregate
  import opened Naming
  import opened LineClassifier
  import opened LogParser

  /** A command-line argument together with the lines of the file it names. */
  datatype InputFile = InputFile(name: string, lines: seq<string>)

  /** What the run has produced so far: the table, and the pair
      `(numTests, totalTime)` each file returned, in argument order. */
  datatype RunState = RunState(table: Table, reports: seq<(nat, Elapsed)>)

  /** `parseResults` for the variant `full`, `parseFastResults` for any other. */
  function Dispatch(variant: string): Testbench {
    if variant == "full" then Full else Fast
  }

  /** One argument of the loop: the descriptor, the three `if not ... in`
      statements, and the parsing function. */
  function ProcessFile(t: Table, f: InputFile): Result<Progress, Failure> {
    match Describe(f.name)
    case None => Err(MalformedName(f.name))
    case Some(d) =>
      ParseFile(Dispatch(d.variant), d.benchmark, d.optimization,
                EnsurePath(t, d.variant, d.benchmark, d.optimization), f.lines)
  }

  /** The whole loop over the arguments, starting from the empty `data`. */
  function Run(files: seq<InputFile>): Result<RunState, Failure>
    decreases |files|
  {
    if |files| == 0 then Ok(RunState(map[], []))
    else
      match Run(files[..|files| - 1])
      case Err(e) => Err(e)
      case Ok(s) =>
        (match ProcessFile(s.table, files[|files| - 1])
         case Err(e) => Err(e)
         case Ok(p) => Ok(RunState(p.table, s.reports + [(p.testnumber, p.elapsed)])))
  }

  // ---------------------------------------------------------------------
  // Dispatch

  /** The parsing function writes under the variant's own key exactly for
      the variants `full` and `fast`. */
  lemma DispatchKey(variant: string)
    ensures TableKey(Dispatch(variant)) == variant <==> variant == "full" || variant == "fast"
  {
  }

  /** Any variant other than `full`, `fast` included, is parsed as a fast log. */
  lemma DispatchFast(variant: string)
    requires variant != "full"
    ensures Dispatch(variant) == Fast && TableKey(Dispatch(variant)) == "fast"
  {
  }

  // ---------------------------------------------------------------------
  // One file

  /** When one argument ends the run: a name with fewer than two `_`, or a
      variant other than `full` and `fast` whose file has an accepted line
      while no `fast` row for its benchmark and optimization exists yet. */
  lemma {:induction false} ProcessFileFails(t: Table, f: InputFile)
    ensures Describe(f.name).None? ==> ProcessFile(t, f) == Err(MalformedName(f.name))
    ensures Describe(f.name).Some? ==>
              var d := Describe(f.name).value;
              var r := ProcessFile(t, f);
              && (r.Err? <==> && d.variant != "full" && d.variant != "fast"
                              && !HasPath(t, "fast", d.benchmark, d.optimization)
                              && AnyAccepted(Outcomes(Fast, f.lines)))
              && (r.Err? ==> r.error == MissingPath("fast", d.benchmark, d.optimization))
  {
    if Describe(f.name).Some? {
      var d := Describe(f.name).value;
      var tb := Dispatch(d.variant);
      var t1 := EnsurePath(t, d.variant, d.benchmark, d.optimization);
      ParseLinesSummarizes(tb, d.benchmark, d.optimization, Progress(t1, 0, InitialElapsed(tb)), f.lines);
    }
  }

  /** What one argument adds when it does not end the run: the row its name
      describes exists afterwards and no other row appears, `testnumber`
      and `nanoseconds` come from the last lines that set them (or keep
      their initial values), and only the row the parsing function writes
      changes, each entry taking the time of the last accepted line with
      that index. */
  lemma {:induction false} ProcessFileEffect(t: Table, f: InputFile)
    requires ProcessFile(t, f).Ok?
    ensures Describe(f.name).Some?
    ensures var d := Describe(f.name).value;
            var tb := Dispatch(d.variant);
            var outs := Outcomes(tb, f.lines);
            var p := ProcessFile(t, f).value;
            && (forall v, b, o :: HasPath(p.table, v, b, o) <==>
                  HasPath(t, v, b, o) || (v, b, o) == (d.variant, d.benchmark, d.optimization))
            && p.testnumber == Latest(outs, IndexOf).GetOr(0)
            && p.elapsed == Latest(outs, TimeOf).GetOr(InitialElapsed(tb))
            && (forall v, b, o, i: nat :: Lookup(p.table, v, b, o, i) ==
                  if (v, b, o) == (TableKey(tb), d.benchmark, d.optimization)
                  then Latest(outs, WrittenAt(i)).OrElse(Lookup(t, v, b, o, i))
                  else Lookup(t, v, b, o, i))
  {
    var d := Describe(f.name).value;
    var tb := Dispatch(d.variant);
    var t1 := EnsurePath(t, d.variant, d.benchmark, d.optimization);
    ParseLinesSummarizes(tb, d.benchmark, d.optimization, Progress(t1, 0, InitialElapsed(tb)), f.lines);
    var p := ProcessFile(t, f).value;
    forall v, b, o
      ensures HasPath(p.table, v, b, o) <==> HasPath(t, v, b, o) || (v, b, o) == (d.variant, d.benchmark, d.optimization)
    {
      SameShapeHasPath(p.table, t1, v, b, o);
    }
  }

  // ---------------------------------------------------------------------
  // The whole run

  /** A log named `foo_adder_O2.log` is parsed as a fast log, which writes
      under `fast`; the script created only the `foo` row, so the first
      accepted line fails. */
  lemma {:induction false} UnknownVariantFails(line: string)
    requires Outcome(Fast, line).Accepted?
    ensures ProcessFile(map[], InputFile("foo_adder_O2.log", [line])) == Err(MissingPath("fast", "adder", "O2"))
  {
    FooName();
    OneAcceptedLine(line);
    ProcessFileFails(map[], InputFile("foo_adder_O2.log", [line]));
  }

  lemma FooName()
    ensures Describe("foo_adder_O2.log") == Some(Descriptor("foo", "adder", "O2"))
  {
    assert "foo_adder_O2.log" == "foo" + "_" + "adder" + "_" + "O2" + ".log";
    Composed("foo", "adder", "O2", ".log");
  }

  lemma {:induction false} OneAcceptedLine(line: string)
    requires Outcome(Fast, line).Accepted?
    ensures AnyAccepted(Outcomes(Fast, [line]))
  {
    assert Outcomes(Fast, [line])[0].Accepted?;
  }

  /** Once an argument has ended the run, later arguments change nothing. */
  lemma {:induction false} RunFailureIsFinal(files: seq<InputFile>, more: seq<InputFile>)
    requires Run(files).Err?
    ensures Run(files + more) == Run(files)
    decreases |more|
  {
    if |more| > 0 {
      var all := files + more;
      assert all[..|all| - 1] == files + more[..|more| - 1];
      RunFailureIsFinal(files, more[..|more| - 1]);
      RunAfterFailure(all);
    } else {
      assert files + more == files;
    }
  }

  lemma {:induction false} RunAfterFailure(files: seq<InputFile>)
    requires |files| > 0 && Run(files[..|files| - 1]).Err?
    ensures Run(files) == Run(files[..|files| - 1])
  {
  }

  /** One more argument after a successful prefix. */
  lemma {:induction false} RunAfterSuccess(files: seq<InputFile>)
    requires |files| > 0 && Run(files).Ok?
    ensures Run(files[..|files| - 1]).Ok?
    ensures ProcessFile(Run(files[..|files| - 1]).value.table, files[|files| - 1]).Ok?
    ensures var s := Run(files[..|files| - 1]).value;
            var p := ProcessFile(s.table, files[|files| - 1]).value;
            Run(files).value == RunState(p.table, s.reports + [(p.testnumber, p.elapsed)])
  {
  }

  /** The rows of `t` are exactly those the names of `files` describe. */
  ghost predicate RowsNamedBy(t: Table, files: seq<InputFile>) {
    forall v, b, o :: HasPath(t, v, b, o) <==>
      exists k :: 0 <= k < |files| && Describe(files[k].name) == Some(Descriptor(v, b, o))
  }

  lemma {:induction false} RowsNamedByStep(t0: Table, t1: Table, files: seq<InputFile>, d: Descriptor)
    requires |files| > 0 && RowsNamedBy(t0, files[..|files| - 1])
    requires Describe(files[|files| - 1].name) == Some(d)
    requires forall v, b, o :: HasPath(t1, v, b, o) <==> HasPath(t0, v, b, o) || (v, b, o) == (d.variant, d.benchmark, d.optimization)
    ensures RowsNamedBy(t1, files)
  {
    var n := |files| - 1;
    var pre := files[..n];
    forall v, b, o
      ensures HasPath(t1, v, b, o) <==>
                exists k :: 0 <= k < |files| && Describe(files[k].name) == Some(Descriptor(v, b, o))
    {
      if exists k :: 0 <= k < n && Describe(pre[k].name) == Some(Descriptor(v, b, o)) {
        var k :| 0 <= k < n && Describe(pre[k].name) == Some(Descriptor(v, b, o));
        assert files[k] == pre[k];
      }
      if exists k :: 0 <= k < |files| && Describe(files[k].name) == Some(Descriptor(v, b, o)) {
        var k :| 0 <= k < |files| && Describe(files[k].name) == Some(Descriptor(v, b, o));
        if k < n {
          assert pre[k] == files[k];
        }
      }
    }
  }

  /** The arguments before `k` succeed, argument `k` succeeds on the table
      they leave, and `reports[k]` is the pair its parsing function returned. */
  ghost predicate ReportedAt(files: seq<InputFile>, k: int, reports: seq<(nat, Elapsed)>)
    requires 0 <= k < |files| && k < |reports|
  {
    && Run(files[..k]).Ok?
    && ProcessFile(Run(files[..k]).value.table, files[k]).Ok?
    && var p := ProcessFile(Run(files[..k]).value.table, files[k]).value;
       reports[k] == (p.testnumber, p.elapsed)
  }

  lemma {:induction false} ReportsStep(files: seq<InputFile>, pre: seq<InputFile>, before: seq<(nat, Elapsed)>, after: seq<(nat, Elapsed)>)
    requires |files| > 0 && pre == files[..|files| - 1] && |before| == |pre|
    requires Run(pre).Ok? && Run(pre).value.reports == before
    requires forall k :: 0 <= k < |pre| ==> ReportedAt(pre, k, before)
    requires ProcessFile(Run(pre).value.table, files[|files| - 1]).Ok?
    requires var p := ProcessFile(Run(pre).value.table, files[|files| - 1]).value;
             after == before + [(p.testnumber, p.elapsed)]
    ensures forall k :: 0 <= k < |files| ==> ReportedAt(files, k, after)
  {
    var n := |pre|;
    forall k | 0 <= k < |files|
      ensures ReportedAt(files, k, after)
    {
      if k < n {
        assert files[..k] == pre[..k] && files[k] == pre[k];
        assert ReportedAt(pre, k, before);
        assert after[k] == before[k];
      } else {
        assert files[..k] == pre;
      }
    }
  }

  /** A successful run returns one report per argument, report `k` being
      the pair the parsing function returned for argument `k`, and its
      table has exactly the rows the arguments' names describe. */
  lemma {:induction false} RunRows(files: seq<InputFile>)
    requires Run(files).Ok?
    ensures |Run(files).value.reports| == |files|
    ensures forall k :: 0 <= k < |files| ==> ReportedAt(files, k, Run(files).value.reports)
    ensures RowsNamedBy(Run(files).value.table, files)
    decreases |files|
  {
    if |files| > 0 {
      var n := |files| - 1;
      var pre := files[..n];
      RunAfterSuccess(files);
      RunRows(pre);
      ReportsStep(files, pre, Run(pre).value.reports, Run(files).value.reports);
      var t0 := Run(pre).value.table;
      ProcessFileEffect(t0, files[n]);
      RowsNamedByStep(t0, Run(files).value.table, files, Describe(files[n].name).value);
    }
  }

  /** Arguments whose names follow the convention and whose variants are
      `full` or `fast` never end the run, whatever the files contain. */
  lemma {:induction false} RunConventional(files: seq<InputFile>)
    requires forall k :: 0 <= k < |files| ==> Describe(files[k].name).Some?
    requires forall k :: 0 <= k < |files| ==>
               Describe(files[k].name).value.variant == "full" || Describe(files[k].name).value.variant == "fast"
    ensures Run(files).Ok?
    decreases |files|
  {
    if |files| > 0 {
      var n := |files| - 1;
      var pre := files[..n];
      assert forall k :: 0 <= k < n ==> pre[k] == files[k];
      RunConventional(pre);
      ProcessFileFails(Run(pre).value.table, files[n]);
    }
  }

  /** A failed run names its cause: an argument whose name has fewer than
      two `_`, or a row of `fast` that an argument with another variant
      needed and no earlier argument created. */
  lemma {:induction false} RunFailureCause(files: seq<InputFile>)
    requires Run(files).Err?
    ensures Run(files).error.MalformedName? ==>
              exists k :: 0 <= k < |files| && files[k].name == Run(files).error.name && Describe(files[k].name).None?
    ensures Run(files).error.MissingPath? ==>
              && Run(files).error.variant == "fast"
              && exists k :: 0 <= k < |files| && MissedFastRow(files, k, Run(files).error.benchmark, Run(files).error.optimization)
    decreases |files|
  {
    var n := |files| - 1;
    var pre := files[..n];
    if Run(pre).Err? {
      RunFailureCause(pre);
      assert forall k :: 0 <= k < n ==> pre[k] == files[k];
      var e := Run(files).error;
      if e.MissingPath? {
        var k :| 0 <= k < n && MissedFastRow(pre, k, e.benchmark, e.optimization);
        MissedFastRowPrefix(files, n, k, e.benchmark, e.optimization);
      }
    } else {
      var t := Run(pre).value.table;
      ProcessFileFails(t, files[n]);
      var e := Run(files).error;
      if e.MissingPath? {
        RunRows(pre);
        forall j | 0 <= j < n
          ensures Describe(files[j].name) != Some(Descriptor("fast", e.benchmark, e.optimization))
        {
          assert pre[j] == files[j];
        }
        assert MissedFastRow(files, n, e.benchmark, e.optimization);
      }
    }
  }

  /** Argument `k` has a variant other than `full` and `fast`, names the
      benchmark `b` and optimization `o`, and no argument before it names
      the `fast` row of `b` and `o`. */
  ghost predicate MissedFastRow(files: seq<InputFile>, k: int, b: string, o: string)
    requires 0 <= k < |files|
  {
    && Describe(files[k].name).Some?
    && Describe(files[k].name).value.benchmark == b
    && Describe(files[k].name).value.optimization == o
    && Describe(files[k].name).value.variant != "full"
    && Describe(files[k].name).value.variant != "fast"
    && forall j :: 0 <= j < k ==> Describe(files[j].name) != Some(Descriptor("fast", b, o))
  }

  lemma {:induction false} MissedFastRowPrefix(files: seq<InputFile>, n: nat, k: nat, b: string, o: string)
    requires k < n <= |files|
    requires MissedFastRow(files[..n], k, b, o)
    ensures MissedFastRow(files, k, b, o)
  {
    assert forall j :: 0 <= j <= k ==> files[..n][j] == files[j];
  }

  // ---------------------------------------------------------------------
  // What the rows hold

  /** The kind of time each key holds: floats under `full`, integers under
      `fast`, and nothing under any other variant. */
  predicate KindFits(variant: string, x: Elapsed) {
    (variant == "full" && x.FloatNs?) || (variant == "fast" && x.IntNs?)
  }

  ghost predicate RowsFit(t: Table) {
    forall v, b, o, i: nat :: Lookup(t, v, b, o, i).Some? ==> KindFits(v, Lookup(t, v, b, o, i).value)
  }

  /** A line accepted by a parsing function carries that function's kind of time. */
  lemma {:induction false} AcceptedKind(tb: Testbench, line: string)
    requires Outcome(tb, line).Accepted?
    ensures KindFits(TableKey(tb), Outcome(tb, line).time)
  {
    assert ReadTime(tb, Text.Words(line)) == Some(Outcome(tb, line).time);
  }

  /** Every accepted line of `outs` carries the kind of time `key` holds. */
  predicate TimesFit(key: string, outs: seq<LineOutcome>) {
    forall k :: 0 <= k < |outs| && outs[k].Accepted? ==> KindFits(key, outs[k].time)
  }

  lemma {:induction false} OutcomesFit(tb: Testbench, lines: seq<string>)
    ensures TimesFit(TableKey(tb), Outcomes(tb, lines))
  {
    var outs := Outcomes(tb, lines);
    forall k | 0 <= k < |outs| && outs[k].Accepted?
      ensures KindFits(TableKey(tb), outs[k].time)
    {
      AcceptedKind(tb, lines[k]);
    }
  }

  /** Every entry a parse leaves in a row came from one of the lines. */
  lemma {:induction false} WrittenKind(key: string, outs: seq<LineOutcome>, i: nat)
    requires TimesFit(key, outs)
    requires Latest(outs, WrittenAt(i)).Some?
    ensures KindFits(key, Latest(outs, WrittenAt(i)).value)
  {
    var x := Latest(outs, WrittenAt(i)).value;
    LatestIsLast(outs, WrittenAt(i), x);
    var k :| 0 <= k < |outs| && WrittenAt(i)(outs[k]) == Some(x) && forall j :: k < j < |outs| ==> WrittenAt(i)(outs[j]).None?;
    assert outs[k] == Accepted(i, x);
  }

  /** Every run keeps full rows to floats, fast rows to integers, and the
      rows of every other variant empty. */
  lemma {:induction false} RunRowsFit(files: seq<InputFile>)
    requires Run(files).Ok?
    ensures RowsFit(Run(files).value.table)
    decreases |files|
  {
    if |files| > 0 {
      var n := |files| - 1;
      var pre := files[..n];
      RunRowsFit(pre);
      var t := Run(pre).value.table;
      var f := files[n];
      ProcessFileEffect(t, f);
      var d := Describe(f.name).value;
      var tb := Dispatch(d.variant);
      var p := ProcessFile(t, f).value;
      forall v, b, o, i: nat | Lookup(p.table, v, b, o, i).Some?
        ensures KindFits(v, Lookup(p.table, v, b, o, i).value)
      {
        if (v, b, o) == (TableKey(tb), d.benchmark, d.optimization) && Latest(Outcomes(tb, f.lines), WrittenAt(i)).Some? {
          OutcomesFit(tb, f.lines);
          WrittenKind(TableKey(tb), Outcomes(tb, f.lines), i);
        }
      }
    }
  }
}
