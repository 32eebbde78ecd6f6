/** The IKMC rewriter as the script runs it: the bookkeeping dictionaries,
    the two logs and the allele input file held as fields and updated row
    by row. Each method is proved to agree with its stage of the functional
    model in module IkmcRewrite, and to keep the bookkeeping keys equal. */
module IkmcRewriterImpl {
  import opened Wrappers
  import opened PyString
  import opened IkmcRules
  import opened IkmcRewrite
  import opened IkmcRewriteFacts
  import opened IkmcRunFacts
  import opened SeqFacts

  /** How a method reports a row: either the script stops, leaving the
      state as it was, or the row leaves exactly the specified state. */
  predicate Agrees(o: RowOutcome, crashed: bool, before: RewriteState, after: RewriteState)
  {
    if crashed then o == RowCrash && after == before else o == RowDone(after)
  }

  /** `line[:-1].split('\t')` and the fields the script reads; None when
      there are fewer than 17 fields, where indexing them fails. */
  method SplitLine(line: string) returns (parsed: Option<Row>)
    ensures parsed == ParseRow(line)
  {
    var tokens := Split(DropLast(line), "\t");
    if |tokens| < 17 {
      return None;
    }
    parsed := Some(Row(tokens[0], tokens[1], tokens[5], tokens[6], tokens[8], tokens[7],
                       tokens[10], Lower(tokens[11]), tokens[12], tokens[16]));
  }

  /** The `skipIt` loop: does some cell line row belong to the allele? */
  method AnyRowOfAllele(rows: seq<CellLineRow>, alleleKey: nat) returns (found: bool)
    ensures found == HasAllele(rows, alleleKey)
  {
    found := false;
    for i := 0 to |rows|
      invariant found <==> exists k :: 0 <= k < i && rows[k].alleleKey == alleleKey
    {
      if rows[i].alleleKey == alleleKey {
        found := true;
      }
    }
  }

  /** The `cellLineExists` loop: does some cell line row name the ES cell? */
  method AnyRowNamed(rows: seq<CellLineRow>, cellLine: string) returns (found: bool)
    ensures found == HasCellLine(rows, cellLine)
  {
    found := false;
    for i := 0 to |rows|
      invariant found <==> exists k :: 0 <= k < i && rows[k].cellLine == cellLine
    {
      if rows[i].cellLine == cellLine {
        found := true;
      }
    }
  }

  /** The loops over a recorded list: is the value missing from it? */
  method Missing(xs: seq<string>, x: string) returns (missing: bool)
    ensures missing <==> x !in xs
  {
    missing := true;
    for i := 0 to |xs|
      invariant missing <==> x !in xs[..i]
    {
      if xs[i] == x {
        missing := false;
      }
    }
    assert xs[..|xs|] == xs;
  }

  /** `logitSkip.sort()`, as an insertion sort: the result is in Python's
      string order and holds the same entries. */
  method SortLines(xs: seq<string>) returns (ys: seq<string>)
    ensures Sorted(ys) && multiset(ys) == multiset(xs)
  {
    ys := xs;
    for i := 0 to |ys|
      invariant |ys| == |xs| && multiset(ys) == multiset(xs)
      invariant forall a, b :: 0 <= a < b < i ==> LexLe(ys[a], ys[b])
    {
      ys := Insert(ys, i);
    }
  }

  /** Moves entry `i` down into the sorted entries before it. */
  method Insert(xs: seq<string>, i: nat) returns (ys: seq<string>)
    requires i < |xs|
    requires forall a, b :: 0 <= a < b < i ==> LexLe(xs[a], xs[b])
    ensures |ys| == |xs| && multiset(ys) == multiset(xs)
    ensures forall a, b :: 0 <= a < b <= i ==> LexLe(ys[a], ys[b])
    ensures ys[i + 1..] == xs[i + 1..]
  {
    ys := xs;
    var j := i;
    while j > 0 && !LexLe(ys[j - 1], ys[j])
      invariant 0 <= j <= i && |ys| == |xs| && multiset(ys) == multiset(xs)
      invariant ys[i + 1..] == xs[i + 1..]
      invariant forall a, b :: 0 <= a < b <= i && a != j && b != j ==> LexLe(ys[a], ys[b])
      invariant forall b :: j < b <= i ==> LexLe(ys[j], ys[b])
    {
      var x, y := ys[j - 1], ys[j];
      LexLeTotal(x, y);
      Swapped(ys, j);
      ys := ys[j - 1 := y][j := x];
      j := j - 1;
    }
    forall a | 0 <= a < j - 1
      ensures LexLe(ys[a], ys[j])
    {
      LexLeTransitive(ys[a], ys[j - 1], ys[j]);
    }
  }

  /** Swapping two neighbours keeps the entries. */
  lemma Swapped(xs: seq<string>, j: nat)
    requires 0 < j < |xs|
    ensures multiset(xs[j - 1 := xs[j]][j := xs[j - 1]]) == multiset(xs)
  {
  }

  /** The first entry of a sorted list comes before every entry. */
  lemma SortedFirst(xs: seq<string>, x: string)
    requires Sorted(xs) && x in multiset(xs)
    ensures |xs| > 0 && LexLe(xs[0], x)
  {
    var k :| 0 <= k < |xs| && xs[k] == x;
    if k == 0 {
      LexLeReflexive(x);
    }
  }

  lemma SortedRest(xs: seq<string>)
    requires Sorted(xs) && |xs| > 0
    ensures Sorted(xs[1..]) && multiset(xs[1..]) == multiset(xs) - multiset{xs[0]}
  {
    assert xs == [xs[0]] + xs[1..];
  }

  /** A sorted permutation is unique, so the sorted skip report depends
      only on the entries logged, not on their order. */
  lemma {:induction false} SortedUnique(xs: seq<string>, ys: seq<string>)
    requires Sorted(xs) && Sorted(ys) && multiset(xs) == multiset(ys)
    ensures xs == ys
    decreases |xs|
  {
    if |xs| > 0 {
      assert xs[0] in multiset(xs);
      SortedFirst(ys, xs[0]);
      assert ys[0] in multiset(ys);
      SortedFirst(xs, ys[0]);
      LexLeAntisymmetric(xs[0], ys[0]);
      SortedRest(xs);
      SortedRest(ys);
      SortedUnique(xs[1..], ys[1..]);
      assert xs == [xs[0]] + xs[1..] && ys == [ys[0]] + ys[1..];
    } else {
      assert |ys| == |multiset(ys)| == 0;
    }
  }

  class IkmcRewriter {
    /** What `initialize` read from the database and the environment. */
    const lk: Lookups

    var alleleAdded: map<string, seq<string>>
    var colonyAdded: map<string, seq<string>>
    var logitSkip: seq<string>
    var logitExists: seq<string>
    var alleleFile: seq<string>

    /** The fields as a value of the specification. */
    function State(): RewriteState
      reads this
    {
      RewriteState(alleleAdded, colonyAdded, logitSkip, logitExists, alleleFile)
    }

    ghost predicate Valid()
      reads this
    {
      AddedInvariant(State())
    }

    /** The module-level dictionaries and lists start empty. */
    constructor (lk: Lookups)
      ensures this.lk == lk && State() == Initial && Valid()
    {
      this.lk := lk;
      alleleAdded, colonyAdded := map[], map[];
      logitSkip, logitExists, alleleFile := [], [], [];
    }

    /** The validation checks, in the script's order: each failing check
        overwrites the message, and the row is rejected with the last. */
    method Validate(r: Row, lineNum: nat) returns (rejection: Option<string>)
      ensures rejection == Rejection(lk, r, lineNum)
    {
      var n := NatToString(lineNum);
      var error := false;
      var logit := "";
      if |r.mgiAlleleID| > 0 {
        logit := CheckMessage(AlreadyProcessed, n);
        error := true;
      }
      if r.markerID !in lk.markers {
        logit := CheckMessage(MarkerMissing, n);
        error := true;
      }
      if r.alleleID !in lk.parents {
        logit := CheckMessage(ParentMissing, n);
        error := true;
      } else if r.esCellName !in lk.cellLinesBySymbol {
        logit := CheckMessage(CellLineUnknown, n);
        error := true;
      } else {
        var found := AnyRowOfAllele(lk.cellLinesBySymbol[r.esCellName], lk.parents[r.alleleID].alleleKey);
        if !found {
          logit := CheckMessage(CellLineOfOtherAllele, n);
          error := true;
        }
      }
      if r.excision != "cre" && r.excision != "flp" {
        logit := CheckMessage(BadExcision, n);
        error := true;
      }
      if r.tatCre != "true" && r.tatCre != "false" {
        logit := CheckMessage(BadTatCre, n);
        error := true;
      }
      rejection := if error then Some(logit) else None;
    }

    /** One row after the header: split it, validate it, then derive the
        child. The script stops exactly where `RowStep` says; otherwise the
        row lands in exactly one of the two logs or the allele file. */
    method ProcessRow(lineNum: nat, line: string) returns (crashed: bool)
      requires Valid()
      modifies this
      ensures Valid()
      ensures Agrees(RowStep(lk, old(State()), lineNum, line), crashed, old(State()), State())
      ensures !crashed ==> Keeps(old(State()), State())
    {
      ghost var s0 := State();
      var parsed := SplitLine(line);
      if parsed.None? {
        return true;
      }
      var r := parsed.value;
      var rejection := Validate(r, lineNum);
      if rejection.Some? {
        logitSkip := logitSkip + [rejection.value + EntryFields(r) + "\n"];
        SkippedKeeps(s0, rejection.value + EntryFields(r) + "\n");
        return false;
      }
      crashed := DeriveRow(r, lineNum);
    }

    /** A validated row: the parent's symbol and name are split, which
        fails without a `<` or a `targeted mutation`. */
    method DeriveRow(r: Row, lineNum: nat) returns (crashed: bool)
      requires Valid() && r.alleleID in lk.parents
      modifies this
      ensures Valid()
      ensures Agrees(Derive(lk, old(State()), r, lineNum), crashed, old(State()), State())
      ensures !crashed ==> Keeps(old(State()), State())
    {
      var p := lk.parents[r.alleleID];
      if Find(p.symbol, "<") == -1 || Find(p.name, TargetedMutation) == -1 {
        return true;
      }
      DeriveFromKeeps(lk, State(), r, lineNum, p);
      DeriveFromRow(r, lineNum, p);
      crashed := false;
    }

    /** Classify the parent and the excision; log the tmXe/flp case and a
        tmXa parent whose symbol differs from field 6. */
    method DeriveFromRow(r: Row, lineNum: nat, p: Parent)
      requires Valid() && Contains(p.symbol, "<") && Contains(p.name, TargetedMutation)
      modifies this
      ensures Valid()
      ensures DeriveFrom(lk, old(State()), r, lineNum, p) == RowDone(State())
    {
      var cls := TmX;
      if Find(p.symbol, "a(") != -1 {
        cls := TmXa;
      } else if Find(p.symbol, "e(") != -1 {
        cls := TmXe;
      }
      var exc := if r.excision == "cre" then Cre else Flp;
      var n := NatToString(lineNum);
      var sym2 := ScriptSymbol(p.symbol, DotTwo);
      if cls == TmXe && exc == Flp {
        logitExists := logitExists + ["This tmXe allele is not Cre line " + n + ": " + EntryFields(r)
                                      + "\t" + p.symbol + "\t" + sym2 + "\n"];
      } else if cls == TmXa && p.symbol != r.alleleSymbol {
        var logit := "Must handle special tmXa/tmXe case line " + n + ": ";
        if |r.alleleSymbol| > 4 && Find(r.alleleSymbol, "e(") != -1 {
          logit := "field 9 and field 6 symbols do not match line " + n + ": ";
        }
        logitSkip := logitSkip + [logit + EntryFields(r) + "\t" + p.symbol + "\t" + sym2 + "\n"];
      } else {
        SupportedRow(r, lineNum, p, cls, exc);
      }
    }

    /** Look for the child the rule would derive among the existing
        children; log it when it already has this cell line and colony and
        is not reserved, otherwise go on to record and write it. */
    method SupportedRow(r: Row, lineNum: nat, p: Parent, cls: ParentClass, exc: Excision)
      requires Valid() && Contains(p.symbol, "<") && Contains(p.name, TargetedMutation)
      requires RuleFor(cls, exc).Some?
      modifies this
      ensures Valid()
      ensures DeriveSupported(lk, old(State()), r, lineNum, p, cls, exc) == RowDone(State())
    {
      var existing := FindExistingChild(p, cls, exc);
      var facts := ExistingFacts(existing, r);
      if facts.childExists && facts.cellLineExists && facts.colonyExists && !facts.reserved {
        logitExists := logitExists + ["Child/Cell Line/Colony already exists in MGI line " + NatToString(lineNum)
                                      + ": " + EntryFields(r) + "\t" + p.symbol + "\t" + existing.value + "\n"];
        return;
      }
      var rule := RuleFor(cls, exc).value;
      RecordRow(r, lineNum, p, rule, ScriptSymbol(p.symbol, rule.child),
                ScriptName(p.name, rule.child), facts);
    }

    /** The four derived symbols and the case-by-case search for the one
        that is already a child in MGI. */
    method FindExistingChild(p: Parent, cls: ParentClass, exc: Excision) returns (existing: Option<string>)
      requires Contains(p.symbol, "<")
      ensures existing == ExistingChildOf(lk, p, cls, exc)
      ensures existing.Some? ==> existing.value in lk.children
    {
      var sym1 := ScriptSymbol(p.symbol, DotOne);
      var sym2 := ScriptSymbol(p.symbol, DotTwo);
      var symB := ScriptSymbol(p.symbol, LetterB);
      var symC := ScriptSymbol(p.symbol, LetterC);
      existing := None;
      if (cls == TmX || cls == TmXe) && exc == Cre && sym1 in lk.children {
        existing := Some(sym1);
      } else if cls == TmX && exc == Flp && sym2 in lk.children {
        existing := Some(sym2);
      } else if cls == TmXa && exc == Cre && symB in lk.children {
        existing := Some(symB);
      } else if cls == TmXa && exc == Flp && symC in lk.children {
        existing := Some(symC);
      }
    }

    /** What the script learns about an existing child: its key, whether
        it is reserved, whether the ES cell line is attached to it and
        whether its IKMC note mentions the colony. */
    method ExistingFacts(existing: Option<string>, r: Row) returns (facts: ChildFacts)
      requires existing.Some? ==> existing.value in lk.children
      ensures facts == FactsOf(lk, existing, r)
    {
      facts := ChildFacts(false, 0, false, false, false);
      if existing.Some? {
        var child := lk.children[existing.value];
        var childKey := child.alleleKey;
        var cellLineExists := false;
        if childKey in lk.cellLinesByKey {
          cellLineExists := AnyRowNamed(lk.cellLinesByKey[childKey], r.esCellName);
        }
        var colonyExists := false;
        if childKey in lk.ikmcNotes {
          colonyExists := Find(lk.ikmcNotes[childKey].note, r.colony) != -1;
        }
        facts := ChildFacts(true, childKey, child.statusKey == ReservedStatus, cellLineExists, colonyExists);
      }
    }

    /** The in-run duplicate check and the line written for the child. */
    method RecordRow(r: Row, lineNum: nat, p: Parent, rule: Rule, newSym: string, newName: string,
                     facts: ChildFacts)
      requires Valid()
      modifies this
      ensures Valid()
      ensures Record(lk, old(State()), r, lineNum, p, rule, newSym, newName, facts) == RowDone(State())
    {
      var attachCellLine := false;
      var attachColony := false;
      if newSym in alleleAdded {
        attachCellLine := Missing(alleleAdded[newSym], r.esCellName);
        attachColony := Missing(colonyAdded[newSym], r.colony);
        if !attachCellLine && !attachColony {
          logitExists := logitExists + ["Duplicate: child already added by this load line " + NatToString(lineNum)
                                        + ": " + EntryFields(r) + "\t" + p.symbol + "\n"];
          return;
        }
      }
      Note(newSym, r.esCellName, r.colony, facts.key);
      var colonies := if newSym in colonyAdded then colonyAdded[newSym] else [];
      var out := OutputLine(lk, r, p, rule, newSym, newName, facts, attachCellLine, attachColony, colonies);
      alleleFile := alleleFile + [Join(Fields(out), "\t") + "\n"];
    }

    /** The bookkeeping update: a child symbol already recorded gets the ES
        cell and colony appended; a new one whose child is not in MGI
        (key 0) is recorded with them. */
    method Note(newSym: string, esCellName: string, colony: string, childKey: nat)
      requires Valid()
      modifies this`alleleAdded, this`colonyAdded
      ensures Valid()
      ensures State() == Recorded(old(State()), newSym, esCellName, colony, childKey)
    {
      RecordedKeeps(State(), newSym, esCellName, colony, childKey);
      if newSym in alleleAdded {
        alleleAdded := alleleAdded[newSym := alleleAdded[newSym] + [esCellName]];
        colonyAdded := colonyAdded[newSym := colonyAdded[newSym] + [colony]];
      } else if childKey == 0 {
        alleleAdded := alleleAdded[newSym := [esCellName]];
        colonyAdded := colonyAdded[newSym := [colony]];
      }
    }

    /** `createAlleleFile`: every line is numbered from 1, the first is the
        header and is passed over, and the rest are processed in order
        until the script stops on one. */
    method CreateAlleleFile(lines: seq<string>) returns (crashedAt: Option<nat>)
      requires State() == Initial
      modifies this
      ensures Valid()
      ensures match Rewrite(lk, lines)
        case Finished(st) => crashedAt == None && State() == st
        case Crashed(k, st) => crashedAt == Some(k) && State() == st
    {
      var lineNum := 0;
      var header := true;
      for i := 0 to |lines|
        invariant lineNum == i && (header <==> i == 0) && Valid()
        invariant i == 0 ==> State() == Initial
        invariant i > 0 ==> Rewrite(lk, lines) == RunRows(lk, State(), lines[i..], i)
      {
        lineNum := lineNum + 1;
        if header {
          header := false;
          continue;
        }
        SuffixStep(lines, i);
        var crashed := RunStep(i, lines[i..]);
        if crashed {
          return Some(lineNum);
        }
      }
      crashedAt := None;
    }

    /** One turn of the loop: the first of the remaining rows, numbered
        `lineNum + 1`, either stops the run there or leaves the rest to run
        from the new state. */
    method RunStep(lineNum: nat, rows: seq<string>) returns (crashed: bool)
      requires Valid() && |rows| > 0
      modifies this
      ensures Valid()
      ensures crashed ==> RunRows(lk, old(State()), rows, lineNum) == Crashed(lineNum + 1, State())
      ensures !crashed ==> RunRows(lk, old(State()), rows, lineNum) == RunRows(lk, State(), rows[1..], lineNum + 1)
    {
      crashed := ProcessRow(lineNum + 1, rows[0]);
    }

    /** `writeReports`: the skip log is sorted in place; each report is
        the header followed by its entries joined by newlines. */
    method WriteReports() returns (skipReport: string, existsReport: string)
      modifies this`logitSkip
      ensures Sorted(logitSkip) && multiset(logitSkip) == multiset(old(logitSkip))
      ensures skipReport == ReportHeader + Join(logitSkip, "\n")
      ensures existsReport == ReportHeader + Join(logitExists, "\n")
    {
      logitSkip := SortLines(logitSkip);
      skipReport := ReportHeader + Join(logitSkip, "\n");
      existsReport := ReportHeader + Join(logitExists, "\n");
    }
  }
}
