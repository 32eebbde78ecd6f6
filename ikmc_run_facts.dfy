/** What a whole IKMC extract does: the bookkeeping invariant over the
    run, where each row lands, where the run stops, and the order the
    skip report is sorted in. */
module IkmcRunFacts {
  import opened IkmcRewrite
  import opened IkmcRewriteFacts

  /** Number of entries in the two logs and the output together. */
  function Entries(st: RewriteState): nat
  {
    |st.skipLog| + |st.existsLog| + |st.alleleLines|
  }

  /** Over any run of rows the bookkeeping keeps equal keys and only
      grows, and the logs and the output are only appended to. */
  lemma {:induction false} RunRowsKeeps(lk: Lookups, st: RewriteState, rows: seq<string>, lineNum: nat)
    requires AddedInvariant(st)
    ensures AddedInvariant(RunRows(lk, st, rows, lineNum).state)
    ensures AddedGrow(st, RunRows(lk, st, rows, lineNum).state)
    ensures LogsGrow(st, RunRows(lk, st, rows, lineNum).state)
    decreases |rows|
  {
    if |rows| > 0 {
      var out := RowStep(lk, st, lineNum + 1, rows[0]);
      if out.RowDone? {
        RowStepKeeps(lk, st, lineNum + 1, rows[0]);
        RunRowsKeeps(lk, out.state, rows[1..], lineNum + 1);
      }
    }
  }

  /** Every row read before the end or the failing line adds exactly one
      entry; the failing line is one of the rows. */
  lemma {:induction false} RunRowsCounts(lk: Lookups, st: RewriteState, rows: seq<string>, lineNum: nat)
    requires AddedInvariant(st)
    ensures var res := RunRows(lk, st, rows, lineNum);
      && (res.Finished? ==> Entries(res.state) == Entries(st) + |rows|)
      && (res.Crashed? ==> lineNum < res.lineNum <= lineNum + |rows|
                           && Entries(res.state) == Entries(st) + (res.lineNum - lineNum - 1))
    decreases |rows|
  {
    if |rows| > 0 {
      var out := RowStep(lk, st, lineNum + 1, rows[0]);
      if out.RowDone? {
        RowStepKeeps(lk, st, lineNum + 1, rows[0]);
        RunRowsCounts(lk, out.state, rows[1..], lineNum + 1);
      }
    }
  }

  /** The first line of an extract is a header whatever it holds. */
  lemma HeaderIgnored(lk: Lookups, h1: string, h2: string, rows: seq<string>)
    ensures Rewrite(lk, [h1] + rows) == Rewrite(lk, [h2] + rows)
  {
    assert ([h1] + rows)[1..] == rows == ([h2] + rows)[1..];
  }

  /** A whole extract: the run ends with equal bookkeeping keys; a run
      that reads every line leaves one log entry or written line per row
      after the header; a run that fails names a line after the header
      (lines counted from 1) and has one entry for each row before it. */
  lemma RewriteCounts(lk: Lookups, lines: seq<string>)
    requires |lines| > 0
    ensures AddedInvariant(Rewrite(lk, lines).state)
    ensures Rewrite(lk, lines).Finished? ==> Entries(Rewrite(lk, lines).state) == |lines| - 1
    ensures Rewrite(lk, lines).Crashed? ==>
      && 2 <= Rewrite(lk, lines).lineNum <= |lines|
      && Entries(Rewrite(lk, lines).state) == Rewrite(lk, lines).lineNum - 2
  {
    RunRowsKeeps(lk, Initial, lines[1..], 1);
    RunRowsCounts(lk, Initial, lines[1..], 1);
  }

  /** Python's string order is reflexive, total, antisymmetric and
      transitive, so sorting the skip log is well defined. */
  lemma {:induction false} LexLeTotal(a: string, b: string)
    ensures LexLe(a, b) || LexLe(b, a)
    decreases |a|
  {
    if |a| > 0 && |b| > 0 && a[0] == b[0] {
      LexLeTotal(a[1..], b[1..]);
    }
  }

  lemma {:induction false} LexLeReflexive(a: string)
    ensures LexLe(a, a)
    decreases |a|
  {
    if |a| > 0 {
      LexLeReflexive(a[1..]);
    }
  }

  lemma {:induction false} LexLeAntisymmetric(a: string, b: string)
    requires LexLe(a, b) && LexLe(b, a)
    ensures a == b
    decreases |a|
  {
    if |a| > 0 {
      LexLeAntisymmetric(a[1..], b[1..]);
      assert a == [a[0]] + a[1..];
      assert b == [b[0]] + b[1..];
    }
  }

  lemma {:induction false} LexLeTransitive(a: string, b: string, c: string)
    requires LexLe(a, b) && LexLe(b, c)
    ensures LexLe(a, c)
    decreases |a|
  {
    if |a| > 0 && a[0] == b[0] && b[0] == c[0] {
      LexLeTransitive(a[1..], b[1..], c[1..]);
    }
  }
}
