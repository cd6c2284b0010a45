/** The loop of `parseResults` and `parseFastResults` over the lines of one
    log file: every line either leaves the state alone, updates the two
    local variables `testnumber` and `nanoseconds`, or also writes one entry
    of the table. The loop is written as a fold that handles the last line
    after all the earlier ones, so that the lines are still processed in
    file order. */
module LogParser {
  import opened Options
  import opened Aggregate
  import opened LineClassifier

  /** What the loop carries from one line to the next: the table and the
      two local variables the parsing function finally returns. */
  datatype Progress = Progress(table: Table, testnumber: nat, elapsed: Elapsed)

  /** The fate of every line of a file, in file order. */
  function Outcomes(tb: Testbench, lines: seq<string>): (outs: seq<LineOutcome>)
    ensures |outs| == |lines|
    ensures forall k :: 0 <= k < |lines| ==> outs[k] == Outcome(tb, lines[k])
  {
    if |lines| == 0 then []
    else Outcomes(tb, lines[..|lines| - 1]) + [Outcome(tb, lines[|lines| - 1])]
  }

  /** One iteration of the loop body. */
  function Step(tb: Testbench, bench: string, opt: string, p: Progress, line: string): Result<Progress, Failure> {
    match Outcome(tb, line)
    case Unmarked => Ok(p)
    case BadIndex => Ok(p)
    case BadTime(i) => Ok(p.(testnumber := i))
    case Accepted(i, x) =>
      (match Write(p.table, TableKey(tb), bench, opt, i, x)
       case Err(e) => Err(e)
       case Ok(t) => Ok(Progress(t, i, x)))
  }

  /** The loop over `lines`, starting from `start`; the first failed
      table write ends it. */
  function ParseLines(tb: Testbench, bench: string, opt: string, start: Progress, lines: seq<string>): Result<Progress, Failure>
    decreases |lines|
  {
    if |lines| == 0 then Ok(start)
    else
      match ParseLines(tb, bench, opt, start, lines[..|lines| - 1])
      case Err(e) => Err(e)
      case Ok(p) => Step(tb, bench, opt, p, lines[|lines| - 1])
  }

  /** A whole parsing function: `testnumber` starts at 0 and `nanoseconds`
      at `0.0` (full) or `0` (fast). */
  function ParseFile(tb: Testbench, bench: string, opt: string, t: Table, lines: seq<string>): Result<Progress, Failure> {
    ParseLines(tb, bench, opt, Progress(t, 0, InitialElapsed(tb)), lines)
  }

  // ---------------------------------------------------------------------
  // Reference definitions: "the last line that ..."

  /** The value `f` gives the last element it gives a value for. */
  function Latest<A, T>(xs: seq<A>, f: A -> Option<T>): Option<T> {
    if |xs| == 0 then None
    else f(xs[|xs| - 1]).OrElse(Latest(xs[..|xs| - 1], f))
  }

  /** The time a line stores, if it is accepted. */
  function TimeOf(out: LineOutcome): Option<Elapsed> {
    match out
    case Accepted(_, x) => Some(x)
    case _ => None
  }

  /** The time a line stores under index `i`, if it does. */
  function WrittenAt(i: nat): LineOutcome -> Option<Elapsed> {
    (out: LineOutcome) => if out.Accepted? && out.index == i then Some(out.time) else None
  }

  predicate AnyAccepted(outs: seq<LineOutcome>) {
    exists k :: 0 <= k < |outs| && outs[k].Accepted?
  }

  /** What the loop computes from `start`, given the fate of each line:
      it fails exactly when some line is accepted and its table row is
      missing; otherwise `testnumber` is the index of the last line whose
      index was read, `nanoseconds` the time of the last accepted line,
      only the row of `(key, bench, opt)` changes, and each of its entries
      is the time of the last accepted line with that index. */
  ghost predicate Summarizes(key: string, bench: string, opt: string, start: Progress,
                       outs: seq<LineOutcome>, r: Result<Progress, Failure>)
  {
    && (r.Ok? <==> HasPath(start.table, key, bench, opt) || !AnyAccepted(outs))
    && (r.Err? ==> r.error == MissingPath(key, bench, opt))
    && (r.Ok? ==>
          && r.value.testnumber == Latest(outs, IndexOf).GetOr(start.testnumber)
          && r.value.elapsed == Latest(outs, TimeOf).GetOr(start.elapsed)
          && SameShape(r.value.table, start.table)
          && forall v, b, o, i: nat :: Lookup(r.value.table, v, b, o, i) ==
               if (v, b, o) == (key, bench, opt) then Latest(outs, WrittenAt(i)).OrElse(Lookup(start.table, v, b, o, i))
               else Lookup(start.table, v, b, o, i))
  }

  // ---------------------------------------------------------------------
  // Properties of the reference definitions

  lemma {:induction false} LatestSnoc<A, T>(xs: seq<A>, y: A, f: A -> Option<T>)
    ensures Latest(xs + [y], f) == f(y).OrElse(Latest(xs, f))
  {
    assert (xs + [y])[..|xs|] == xs;
  }

  /** `Latest` gives `y` exactly when some element gives `y` and no later
      element gives anything. */
  lemma {:induction false} LatestIsLast<A, T>(xs: seq<A>, f: A -> Option<T>, y: T)
    ensures Latest(xs, f) == Some(y) <==>
              exists k :: 0 <= k < |xs| && f(xs[k]) == Some(y) && forall j :: k < j < |xs| ==> f(xs[j]).None?
  {
    if |xs| > 0 {
      var n := |xs| - 1;
      var pre := xs[..n];
      LatestIsLast(pre, f, y);
      if f(xs[n]).Some? {
        if f(xs[n]) != Some(y) {
          forall k | 0 <= k < |xs| && f(xs[k]) == Some(y)
            ensures !(forall j :: k < j < |xs| ==> f(xs[j]).None?)
          {
            assert k < n && f(xs[n]).Some?;
          }
        }
      } else {
        if Latest(xs, f) == Some(y) {
          var k :| 0 <= k < |pre| && f(pre[k]) == Some(y) && forall j :: k < j < |pre| ==> f(pre[j]).None?;
          assert f(xs[k]) == Some(y);
          assert forall j :: k < j < |xs| ==> f(xs[j]).None? by {
            forall j | k < j < |xs|
              ensures f(xs[j]).None?
            {
              if j < n {
                assert xs[j] == pre[j];
              }
            }
          }
        }
        if exists k :: 0 <= k < |xs| && f(xs[k]) == Some(y) && forall j :: k < j < |xs| ==> f(xs[j]).None? {
          var k :| 0 <= k < |xs| && f(xs[k]) == Some(y) && forall j :: k < j < |xs| ==> f(xs[j]).None?;
          assert k < n;
          assert f(pre[k]) == Some(y);
          assert forall j :: k < j < |pre| ==> f(pre[j]).None? by {
            forall j | k < j < |pre|
              ensures f(pre[j]).None?
            {
              assert pre[j] == xs[j];
            }
          }
        }
      }
    }
  }

  /** `Latest` gives nothing exactly when no element gives anything. */
  lemma {:induction false} LatestIsNone<A, T>(xs: seq<A>, f: A -> Option<T>)
    ensures Latest(xs, f).None? <==> forall k :: 0 <= k < |xs| ==> f(xs[k]).None?
  {
    if |xs| > 0 {
      var n := |xs| - 1;
      var pre := xs[..n];
      LatestIsNone(pre, f);
      assert forall k :: 0 <= k < n ==> xs[k] == pre[k];
    }
  }

  lemma {:induction false} AnyAcceptedSnoc(outs: seq<LineOutcome>, out: LineOutcome)
    ensures AnyAccepted(outs + [out]) <==> AnyAccepted(outs) || out.Accepted?
  {
    var all := outs + [out];
    if AnyAccepted(outs) {
      var k :| 0 <= k < |outs| && outs[k].Accepted?;
      assert all[k] == outs[k];
    }
    if out.Accepted? {
      assert all[|outs|] == out;
    }
    if AnyAccepted(all) {
      var k :| 0 <= k < |all| && all[k].Accepted?;
      if k < |outs| {
        assert outs[k] == all[k];
      }
    }
  }

  lemma {:induction false} SameShapeHasPath(t: Table, u: Table, v: string, b: string, o: string)
    requires SameShape(t, u)
    ensures HasPath(t, v, b, o) <==> HasPath(u, v, b, o)
  {
  }

  lemma {:induction false} SameShapeTrans(t: Table, u: Table, w: Table)
    requires SameShape(t, u) && SameShape(u, w)
    ensures SameShape(t, w)
  {
  }

  // ---------------------------------------------------------------------
  // The loop against the reference definitions

  /** One more line keeps the summary true. */
  lemma {:induction false} StepSummarizes(tb: Testbench, bench: string, opt: string, start: Progress,
                                          outs: seq<LineOutcome>, prev: Result<Progress, Failure>, line: string)
    requires Summarizes(TableKey(tb), bench, opt, start, outs, prev)
    ensures Summarizes(TableKey(tb), bench, opt, start, outs + [Outcome(tb, line)],
                       match prev
                       case Err(e) => Err(e)
                       case Ok(p) => Step(tb, bench, opt, p, line))
  {
    match prev
    case Err(e) =>
      AnyAcceptedSnoc(outs, Outcome(tb, line));
    case Ok(p) =>
      if Outcome(tb, line).Accepted? {
        AcceptedStepSummarizes(tb, bench, opt, start, outs, p, line);
      } else {
        SkippedStepSummarizes(tb, bench, opt, start, outs, p, line);
      }
  }

  /** A line that writes nothing changes at most `testnumber`. */
  lemma {:induction false} SkippedStepSummarizes(tb: Testbench, bench: string, opt: string, start: Progress,
                                                 outs: seq<LineOutcome>, p: Progress, line: string)
    requires Summarizes(TableKey(tb), bench, opt, start, outs, Ok(p))
    requires !Outcome(tb, line).Accepted?
    ensures Summarizes(TableKey(tb), bench, opt, start, outs + [Outcome(tb, line)], Step(tb, bench, opt, p, line))
  {
    var out := Outcome(tb, line);
    AnyAcceptedSnoc(outs, out);
    LatestSnoc(outs, out, IndexOf);
    LatestSnoc(outs, out, TimeOf);
    forall i: nat
      ensures Latest(outs + [out], WrittenAt(i)) == Latest(outs, WrittenAt(i))
    {
      LatestSnoc(outs, out, WrittenAt(i));
    }
  }

  /** An accepted line writes its entry, or fails when the row is missing. */
  lemma {:induction false} AcceptedStepSummarizes(tb: Testbench, bench: string, opt: string, start: Progress,
                                                  outs: seq<LineOutcome>, p: Progress, line: string)
    requires Summarizes(TableKey(tb), bench, opt, start, outs, Ok(p))
    requires Outcome(tb, line).Accepted?
    ensures Summarizes(TableKey(tb), bench, opt, start, outs + [Outcome(tb, line)], Step(tb, bench, opt, p, line))
  {
    var key := TableKey(tb);
    var out := Outcome(tb, line);
    var all := outs + [out];
    AnyAcceptedSnoc(outs, out);
    LatestSnoc(outs, out, IndexOf);
    LatestSnoc(outs, out, TimeOf);
    SameShapeHasPath(p.table, start.table, key, bench, opt);
    var w := Write(p.table, key, bench, opt, out.index, out.time);
    if w.Ok? {
      forall j: nat
        ensures Latest(all, WrittenAt(j)) == WrittenAt(j)(out).OrElse(Latest(outs, WrittenAt(j)))
      {
        LatestSnoc(outs, out, WrittenAt(j));
      }
      SameShapeTrans(w.value, p.table, start.table);
      AcceptedLookups(key, bench, opt, start.table, p.table, w.value, outs, all, out.index, out.time);
    }
  }

  /** The row entries after an accepted line that was written. */
  lemma {:induction false} AcceptedLookups(key: string, bench: string, opt: string, t0: Table, t1: Table, t2: Table,
                        outs: seq<LineOutcome>, all: seq<LineOutcome>, i: nat, x: Elapsed)
    requires forall v, b, o, j: nat :: Lookup(t1, v, b, o, j) ==
               if (v, b, o) == (key, bench, opt) then Latest(outs, WrittenAt(j)).OrElse(Lookup(t0, v, b, o, j))
               else Lookup(t0, v, b, o, j)
    requires Lookup(t2, key, bench, opt, i) == Some(x)
    requires forall v, b, o, j: nat :: (v, b, o, j) != (key, bench, opt, i) ==> Lookup(t2, v, b, o, j) == Lookup(t1, v, b, o, j)
    requires forall j: nat :: Latest(all, WrittenAt(j)) == WrittenAt(j)(Accepted(i, x)).OrElse(Latest(outs, WrittenAt(j)))
    ensures forall v, b, o, j: nat :: Lookup(t2, v, b, o, j) ==
              if (v, b, o) == (key, bench, opt) then Latest(all, WrittenAt(j)).OrElse(Lookup(t0, v, b, o, j))
              else Lookup(t0, v, b, o, j)
  {
    forall v, b, o, j: nat
      ensures Lookup(t2, v, b, o, j) ==
                if (v, b, o) == (key, bench, opt) then Latest(all, WrittenAt(j)).OrElse(Lookup(t0, v, b, o, j))
                else Lookup(t0, v, b, o, j)
    {
      if (v, b, o) == (key, bench, opt) && j == i {
        assert WrittenAt(j)(Accepted(i, x)) == Some(x);
      } else if (v, b, o) == (key, bench, opt) {
        assert WrittenAt(j)(Accepted(i, x)) == None;
      }
    }
  }

  /** The loop computes exactly what `Summarizes` describes. */
  lemma {:induction false} ParseLinesSummarizes(tb: Testbench, bench: string, opt: string, start: Progress, lines: seq<string>)
    ensures Summarizes(TableKey(tb), bench, opt, start, Outcomes(tb, lines), ParseLines(tb, bench, opt, start, lines))
    decreases |lines|
  {
    if |lines| == 0 {
      assert !AnyAccepted(Outcomes(tb, lines));
    } else {
      var pre := lines[..|lines| - 1];
      ParseLinesSummarizes(tb, bench, opt, start, pre);
      StepSummarizes(tb, bench, opt, start, Outcomes(tb, pre), ParseLines(tb, bench, opt, start, pre), lines[|lines| - 1]);
    }
  }

  /** A line the parsing function skips before reading its index (no
      marker in the second word, or an index that is not base 16) changes
      neither the table nor the returned pair. */
  lemma {:induction false} SkippedLineIgnored(tb: Testbench, bench: string, opt: string, start: Progress,
                                              lines: seq<string>, line: string)
    requires Outcome(tb, line) == Unmarked || Outcome(tb, line) == BadIndex
    ensures ParseLines(tb, bench, opt, start, lines + [line]) == ParseLines(tb, bench, opt, start, lines)
  {
    var all := lines + [line];
    assert all[..|all| - 1] == lines;
    assert all[|all| - 1] == line;
  }

  // ---------------------------------------------------------------------
  // Consequences for one parsing function

  /** Two tables with the same shape and the same entries are equal. */
  lemma {:induction false} TableExtensionality(t: Table, u: Table)
    requires SameShape(t, u)
    requires forall v, b, o, i: nat :: Lookup(t, v, b, o, i) == Lookup(u, v, b, o, i)
    ensures t == u
  {
    forall v | v in t
      ensures t[v] == u[v]
    {
      forall b | b in t[v]
        ensures t[v][b] == u[v][b]
      {
        forall o | o in t[v][b]
          ensures t[v][b][o] == u[v][b][o]
        {
          forall i | i in t[v][b][o]
            ensures i in u[v][b][o] && t[v][b][o][i] == u[v][b][o][i]
          {
            assert Lookup(t, v, b, o, i) == Lookup(u, v, b, o, i);
          }
          forall i | i in u[v][b][o]
            ensures i in t[v][b][o]
          {
            assert Lookup(t, v, b, o, i) == Lookup(u, v, b, o, i);
          }
        }
      }
    }
  }

  /** A file in which no line gets as far as its index leaves the table
      alone and returns the initial pair: `(0, 0.0)` or `(0, 0)`. */
  lemma {:induction false} ParseFileDefaults(tb: Testbench, bench: string, opt: string, t: Table, lines: seq<string>)
    requires forall k :: 0 <= k < |lines| ==> IndexOf(Outcome(tb, lines[k])).None?
    ensures ParseFile(tb, bench, opt, t, lines) == Ok(Progress(t, 0, InitialElapsed(tb)))
  {
    var start := Progress(t, 0, InitialElapsed(tb));
    var outs := Outcomes(tb, lines);
    ParseLinesSummarizes(tb, bench, opt, start, lines);
    LatestIsNone(outs, IndexOf);
    LatestIsNone(outs, TimeOf);
    forall i: nat
      ensures Latest(outs, WrittenAt(i)).None?
    {
      LatestIsNone(outs, WrittenAt(i));
    }
    var r := ParseFile(tb, bench, opt, t, lines);
    TableExtensionality(r.value.table, t);
  }

  /** The returned index and time can come from different lines: a line
      whose index is read but whose time is not still sets `testnumber`. */
  lemma {:induction false} IndexWithoutTime(tb: Testbench, bench: string, opt: string, t: Table,
                                            first: string, second: string, i: nat, x: Elapsed, j: nat)
    requires HasPath(t, TableKey(tb), bench, opt)
    requires Outcome(tb, first) == Accepted(i, x) && Outcome(tb, second) == BadTime(j)
    ensures var r := ParseFile(tb, bench, opt, t, [first, second]);
            && r.Ok?
            && r.value.testnumber == j
            && r.value.elapsed == x
            && Lookup(r.value.table, TableKey(tb), bench, opt, i) == Some(x)
            && (j != i ==> Lookup(r.value.table, TableKey(tb), bench, opt, j) == Lookup(t, TableKey(tb), bench, opt, j))
  {
    var outs := [Accepted(i, x), BadTime(j)];
    assert Outcomes(tb, [first, second]) == outs;
    ParseLinesSummarizes(tb, bench, opt, Progress(t, 0, InitialElapsed(tb)), [first, second]);
    LatestSnoc([Accepted(i, x)], BadTime(j), IndexOf);
    LatestSnoc([Accepted(i, x)], BadTime(j), TimeOf);
    LatestSnoc([], Accepted(i, x), TimeOf);
    LatestSnoc([Accepted(i, x)], BadTime(j), WrittenAt(i));
    LatestSnoc([], Accepted(i, x), WrittenAt(i));
    LatestSnoc([Accepted(i, x)], BadTime(j), WrittenAt(j));
    LatestSnoc([], Accepted(i, x), WrittenAt(j));
    assert [Accepted(i, x)] + [BadTime(j)] == outs;
    assert [] + [Accepted(i, x)] == [Accepted(i, x)];
  }

  /** A fast log prints test `0x32` in `50s` and then test `0x35` in `53ns`:
      the script returns 53 with the time 50 of the earlier test, and stores
      only the earlier test. */
  lemma {:induction false} MixedFastLog(bench: string, opt: string, t: Table)
    requires HasPath(t, "fast", bench, opt)
    ensures var r := ParseFile(Fast, bench, opt, t, [FastLine("x", "y", 50, "s", 50), FastLine("x", "y", 53, "ns", 53)]);
            && r.Ok?
            && r.value.testnumber == 53
            && r.value.elapsed == IntNs(50)
            && Lookup(r.value.table, "fast", bench, opt, 50) == Some(IntNs(50))
            && Lookup(r.value.table, "fast", bench, opt, 53) == Lookup(t, "fast", bench, opt, 53)
  {
    FastLineRoundTrip("x", "y", 50, "s", 50);
    FastLineTwoCharUnit("x", "y", 53, "ns", 53);
    IndexWithoutTime(Fast, bench, opt, t, FastLine("x", "y", 50, "s", 50), FastLine("x", "y", 53, "ns", 53), 50, IntNs(50), 53);
  }
}
