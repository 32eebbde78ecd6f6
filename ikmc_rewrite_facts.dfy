/** What the IKMC rewriter promises, proved about its functional model. */
module IkmcRewriteFacts {
  import opened Wrappers
  import opened PyString
  import opened IkmcRules
  import opened IkmcRewrite

  /** A row is skipped by validation exactly when one of the six checks
      fails: field 17 filled in, an unknown marker, an unknown parent, an
      ES cell unknown or not of that parent, field 12 not cre/flp, or field
      13 not true/false. Whether it is skipped does not depend on its line
      number. */
  lemma RejectionIff(lk: Lookups, r: Row, lineNum: nat, otherNum: nat)
    ensures Rejection(lk, r, lineNum).Some? <==>
      || |r.mgiAlleleID| > 0
      || r.markerID !in lk.markers
      || r.alleleID !in lk.parents
      || r.esCellName !in lk.cellLinesBySymbol
      || !HasAllele(lk.cellLinesBySymbol[r.esCellName], lk.parents[r.alleleID].alleleKey)
      || (r.excision != "cre" && r.excision != "flp")
      || (r.tatCre != "true" && r.tatCre != "false")
    ensures Rejection(lk, r, lineNum).Some? == Rejection(lk, r, otherNum).Some?
  {
  }

  /** A skipped row goes to the skip log and changes nothing else. */
  lemma RejectedRowWritesNothing(lk: Lookups, st: RewriteState, lineNum: nat, line: string)
    requires ParseRow(line).Some? && Rejection(lk, ParseRow(line).value, lineNum).Some?
    ensures RowStep(lk, st, lineNum, line).RowDone?
    ensures var st' := RowStep(lk, st, lineNum, line).state;
      && st'.skipLog == st.skipLog + [Rejection(lk, ParseRow(line).value, lineNum).value
                                      + EntryFields(ParseRow(line).value) + "\n"]
      && st'.existsLog == st.existsLog && st'.alleleLines == st.alleleLines
      && st'.alleleAdded == st.alleleAdded && st'.colonyAdded == st.colonyAdded
  {
  }

  /** The two logs and the output only grow, by appending. */
  predicate LogsGrow(st: RewriteState, st': RewriteState)
  {
    && st.skipLog <= st'.skipLog && st.existsLog <= st'.existsLog && st.alleleLines <= st'.alleleLines
  }

  /** Each row lands in exactly one place: one skip entry, one exists entry
      or one written line. */
  predicate OneEntry(st: RewriteState, st': RewriteState)
  {
    |st'.skipLog| + |st'.existsLog| + |st'.alleleLines|
      == |st.skipLog| + |st.existsLog| + |st.alleleLines| + 1
  }

  /** The bookkeeping maps have the same keys: every new child symbol has
      both its ES cells and its colonies recorded. */
  predicate AddedInvariant(st: RewriteState)
  {
    st.alleleAdded.Keys == st.colonyAdded.Keys
  }

  /** The recorded lists only grow: no symbol is dropped and each list
      keeps its old entries as a prefix. */
  predicate AddedGrow(st: RewriteState, st': RewriteState)
  {
    && (forall k :: k in st.alleleAdded ==> k in st'.alleleAdded && st.alleleAdded[k] <= st'.alleleAdded[k])
    && (forall k :: k in st.colonyAdded ==> k in st'.colonyAdded && st.colonyAdded[k] <= st'.colonyAdded[k])
  }

  /** Everything a row that does not stop the script keeps. */
  predicate Keeps(st: RewriteState, st': RewriteState)
  {
    AddedInvariant(st') && AddedGrow(st, st') && LogsGrow(st, st') && OneEntry(st, st')
  }

  lemma SkippedKeeps(st: RewriteState, entry: string)
    requires AddedInvariant(st)
    ensures Keeps(st, Skipped(st, entry))
  {
  }

  lemma ExistingKeeps(st: RewriteState, entry: string)
    requires AddedInvariant(st)
    ensures Keeps(st, Existing(st, entry))
  {
  }

  /** Recording keeps the keys equal and only appends to the lists. */
  lemma RecordedKeeps(st: RewriteState, newSym: string, esCellName: string, colony: string, childKey: nat)
    requires AddedInvariant(st)
    ensures var st' := Recorded(st, newSym, esCellName, colony, childKey);
      && AddedInvariant(st') && AddedGrow(st, st')
      && st'.skipLog == st.skipLog && st'.existsLog == st.existsLog && st'.alleleLines == st.alleleLines
  {
  }

  lemma RecordKeeps(lk: Lookups, st: RewriteState, r: Row, lineNum: nat, p: Parent, rule: Rule,
                    newSym: string, newName: string, facts: ChildFacts)
    requires AddedInvariant(st)
    ensures Record(lk, st, r, lineNum, p, rule, newSym, newName, facts).RowDone?
    ensures Keeps(st, Record(lk, st, r, lineNum, p, rule, newSym, newName, facts).state)
  {
    RecordedKeeps(st, newSym, r.esCellName, r.colony, facts.key);
    if newSym in st.alleleAdded && r.esCellName in st.alleleAdded[newSym] && r.colony in st.colonyAdded[newSym] {
      ExistingKeeps(st, "Duplicate: child already added by this load line " + NatToString(lineNum) + ": "
                        + EntryFields(r) + "\t" + p.symbol + "\n");
    }
  }

  lemma SupportedKeeps(lk: Lookups, st: RewriteState, r: Row, lineNum: nat, p: Parent,
                       cls: ParentClass, exc: Excision)
    requires Contains(p.symbol, "<") && Contains(p.name, TargetedMutation)
    requires RuleFor(cls, exc).Some? && AddedInvariant(st)
    ensures DeriveSupported(lk, st, r, lineNum, p, cls, exc).RowDone?
    ensures Keeps(st, DeriveSupported(lk, st, r, lineNum, p, cls, exc).state)
  {
    var facts := FactsOf(lk, ExistingChildOf(lk, p, cls, exc), r);
    if !(facts.childExists && facts.cellLineExists && facts.colonyExists && !facts.reserved) {
      var rule := RuleFor(cls, exc).value;
      RecordKeeps(lk, st, r, lineNum, p, rule, ScriptSymbol(p.symbol, rule.child),
                  ScriptName(p.name, rule.child), facts);
    }
  }

  lemma DeriveFromKeeps(lk: Lookups, st: RewriteState, r: Row, lineNum: nat, p: Parent)
    requires Contains(p.symbol, "<") && Contains(p.name, TargetedMutation) && AddedInvariant(st)
    ensures DeriveFrom(lk, st, r, lineNum, p).RowDone?
    ensures Keeps(st, DeriveFrom(lk, st, r, lineNum, p).state)
  {
    var cls := Classify(p.symbol);
    var exc := ExcisionOf(r.excision);
    if !(cls == TmXe && exc == Flp) && !(cls == TmXa && p.symbol != r.alleleSymbol) {
      SupportedKeeps(lk, st, r, lineNum, p, cls, exc);
    }
  }

  /** What every row that does not stop the script does to the run: one
      entry in one of the three outputs, logs and output only appended to,
      and the bookkeeping keeps equal keys and only grows. */
  lemma RowStepKeeps(lk: Lookups, st: RewriteState, lineNum: nat, line: string)
    requires AddedInvariant(st) && RowStep(lk, st, lineNum, line).RowDone?
    ensures Keeps(st, RowStep(lk, st, lineNum, line).state)
  {
    var r := ParseRow(line).value;
    if Rejection(lk, r, lineNum).None? {
      DeriveFromKeeps(lk, st, r, lineNum, lk.parents[r.alleleID]);
    }
  }

  /** With the bookkeeping keys equal, the script fails on a row only for a
      line with fewer than 17 fields or a validated parent whose symbol has
      no `<` or whose name has no `targeted mutation`, that is, whose
      `split('<')` or `split('targeted mutation')` has no second piece to
      index; the lookup of a recorded symbol's colonies never fails. */
  lemma RowCrashCauses(lk: Lookups, st: RewriteState, lineNum: nat, line: string)
    requires AddedInvariant(st) && RowStep(lk, st, lineNum, line).RowCrash?
    ensures ParseRow(line).None? ||
      (var r := ParseRow(line).value;
       && Rejection(lk, r, lineNum).None? && r.alleleID in lk.parents
       && (!Contains(lk.parents[r.alleleID].symbol, "<")
           || !Contains(lk.parents[r.alleleID].name, TargetedMutation)))
    ensures ParseRow(line).None? ||
      (var r := ParseRow(line).value;
       r.alleleID in lk.parents
       && (|Split(lk.parents[r.alleleID].symbol, "<")| < 2
           || |Split(lk.parents[r.alleleID].name, TargetedMutation)| < 2))
  {
    if ParseRow(line).Some? {
      var r := ParseRow(line).value;
      if Rejection(lk, r, lineNum).None? {
        var p := lk.parents[r.alleleID];
        SplitCountContains(p.symbol, "<");
        SplitCountContains(p.name, TargetedMutation);
        if Contains(p.symbol, "<") && Contains(p.name, TargetedMutation) {
          DeriveFromKeeps(lk, st, r, lineNum, p);
        }
      }
    }
  }

  /** The child symbol of the excision rule for a case, among the four
      the script derives. */
  function RuleChildSymbol(kind: ChildKind, sym1: string, sym2: string, symB: string, symC: string): string
  {
    match kind
    case DotOne => sym1
    case DotTwo => sym2
    case LetterB => symB
    case LetterC => symC
  }

  /** The existing-child lookup, written in the script as its own chain of
      cases, looks up exactly the child the excision rule derives. */
  lemma ExistingChildAgrees(cls: ParentClass, exc: Excision, sym1: string, sym2: string,
                            symB: string, symC: string, children: map<string, Child>)
    requires RuleFor(cls, exc).Some?
    ensures var s := RuleChildSymbol(RuleFor(cls, exc).value.child, sym1, sym2, symB, symC);
      ExistingChild(cls, exc, sym1, sym2, symB, symC, children) == (if s in children then Some(s) else None)
  {
  }

  /** A row that passed validation and whose parent symbol and name can be
      split. */
  predicate Routed(lk: Lookups, line: string, lineNum: nat)
  {
    && ParseRow(line).Some?
    && Rejection(lk, ParseRow(line).value, lineNum).None?
    && ParseRow(line).value.alleleID in lk.parents
    && Contains(lk.parents[ParseRow(line).value.alleleID].symbol, "<")
    && Contains(lk.parents[ParseRow(line).value.alleleID].name, TargetedMutation)
  }

  lemma RoutedStep(lk: Lookups, st: RewriteState, lineNum: nat, line: string)
    requires Routed(lk, line, lineNum)
    ensures RowStep(lk, st, lineNum, line)
         == DeriveFrom(lk, st, ParseRow(line).value, lineNum, lk.parents[ParseRow(line).value.alleleID])
  {
  }

  /** Only the state's exists log changes, by one entry. */
  predicate ExistsOnly(st: RewriteState, st': RewriteState)
  {
    && st'.alleleAdded == st.alleleAdded && st'.colonyAdded == st.colonyAdded
    && st'.skipLog == st.skipLog && st'.alleleLines == st.alleleLines
    && |st'.existsLog| == |st.existsLog| + 1 && st.existsLog <= st'.existsLog
  }

  /** A tmXe parent with Flp excision has no rule: the row goes to the
      exists log naming the parent and its would-be `.2` child, and nothing
      is written. */
  lemma TmXeFlpLogged(lk: Lookups, st: RewriteState, r: Row, lineNum: nat, p: Parent)
    requires Contains(p.symbol, "<") && Contains(p.name, TargetedMutation)
    requires Classify(p.symbol) == TmXe && r.excision == "flp"
    ensures RuleFor(TmXe, Flp).None?
    ensures DeriveFrom(lk, st, r, lineNum, p).RowDone?
    ensures var st' := DeriveFrom(lk, st, r, lineNum, p).state;
      && ExistsOnly(st, st')
      && st'.existsLog[|st.existsLog|]
         == "This tmXe allele is not Cre line " + NatToString(lineNum) + ": " + EntryFields(r)
            + "\t" + p.symbol + "\t" + ScriptSymbol(p.symbol, DotTwo) + "\n"
  {
  }

  /** A tmXa parent whose symbol differs from the row's allele symbol
      (field 6) is not handled: the row goes to the skip log, with the
      mismatch message when field 6 is a tmXe symbol, and nothing else
      changes. */
  lemma TmXaMismatchSkipped(lk: Lookups, st: RewriteState, r: Row, lineNum: nat, p: Parent)
    requires Contains(p.symbol, "<") && Contains(p.name, TargetedMutation)
    requires Classify(p.symbol) == TmXa && p.symbol != r.alleleSymbol
    ensures DeriveFrom(lk, st, r, lineNum, p).RowDone?
    ensures var st' := DeriveFrom(lk, st, r, lineNum, p).state;
      var logit := (if |r.alleleSymbol| > 4 && Contains(r.alleleSymbol, "e(")
                    then "field 9 and field 6 symbols do not match line "
                    else "Must handle special tmXa/tmXe case line ") + NatToString(lineNum) + ": ";
      && st'.alleleAdded == st.alleleAdded && st'.colonyAdded == st.colonyAdded
      && st'.existsLog == st.existsLog && st'.alleleLines == st.alleleLines
      && st'.skipLog == st.skipLog + [logit + EntryFields(r) + "\t" + p.symbol + "\t"
                                       + ScriptSymbol(p.symbol, DotTwo) + "\n"]
  {
  }

  /** Every other parent and excision has a rule and goes on to the
      existing-child check, whatever the state. */
  lemma SupportedRoute(lk: Lookups, st: RewriteState, r: Row, lineNum: nat, p: Parent)
    requires Contains(p.symbol, "<") && Contains(p.name, TargetedMutation)
    requires !(Classify(p.symbol) == TmXe && ExcisionOf(r.excision) == Flp)
    requires !(Classify(p.symbol) == TmXa && p.symbol != r.alleleSymbol)
    ensures RuleFor(Classify(p.symbol), ExcisionOf(r.excision)).Some?
    ensures DeriveFrom(lk, st, r, lineNum, p)
         == DeriveSupported(lk, st, r, lineNum, p, Classify(p.symbol), ExcisionOf(r.excision))
  {
  }

  /** A child that already exists, not reserved, with this ES cell line and
      this colony in its IKMC note: the row goes to the exists log naming
      that child, and nothing is written. */
  lemma ExistingChildLogged(lk: Lookups, st: RewriteState, r: Row, lineNum: nat, p: Parent,
                            cls: ParentClass, exc: Excision)
    requires Contains(p.symbol, "<") && Contains(p.name, TargetedMutation)
    requires RuleFor(cls, exc).Some?
    requires var existing := ExistingChildOf(lk, p, cls, exc);
      && existing.Some? && existing.value in lk.children
      && var child := lk.children[existing.value];
      && child.statusKey != ReservedStatus
      && child.alleleKey in lk.cellLinesByKey && HasCellLine(lk.cellLinesByKey[child.alleleKey], r.esCellName)
      && child.alleleKey in lk.ikmcNotes && Contains(lk.ikmcNotes[child.alleleKey].note, r.colony)
    ensures DeriveSupported(lk, st, r, lineNum, p, cls, exc).RowDone?
    ensures var st' := DeriveSupported(lk, st, r, lineNum, p, cls, exc).state;
      && ExistsOnly(st, st')
      && st'.existsLog[|st.existsLog|]
         == "Child/Cell Line/Colony already exists in MGI line " + NatToString(lineNum) + ": " + EntryFields(r)
            + "\t" + p.symbol + "\t" + ExistingChildOf(lk, p, cls, exc).value + "\n"
  {
  }

  /** Once a row for a new child has been recorded or found a duplicate,
      that child has the row's ES cell line and colony on record. */
  lemma RecordNotes(lk: Lookups, st: RewriteState, r: Row, lineNum: nat, p: Parent,
                    rule: Rule, newSym: string, newName: string, facts: ChildFacts)
    requires AddedInvariant(st)
    requires facts.key == 0 || newSym in st.alleleAdded
    ensures Record(lk, st, r, lineNum, p, rule, newSym, newName, facts).RowDone?
    ensures var st1 := Record(lk, st, r, lineNum, p, rule, newSym, newName, facts).state;
      && AddedInvariant(st1) && newSym in st1.alleleAdded
      && r.esCellName in st1.alleleAdded[newSym] && r.colony in st1.colonyAdded[newSym]
  {
    RecordKeeps(lk, st, r, lineNum, p, rule, newSym, newName, facts);
    var st' := Recorded(st, newSym, r.esCellName, r.colony, facts.key);
    assert r.esCellName in st'.alleleAdded[newSym] && r.colony in st'.colonyAdded[newSym];
  }

  /** A row whose ES cell line and colony are already on record for its
      child is a duplicate: it only adds an exists-log entry. */
  lemma RecordDuplicate(lk: Lookups, st: RewriteState, r: Row, lineNum: nat, p: Parent,
                        rule: Rule, newSym: string, newName: string, facts: ChildFacts)
    requires AddedInvariant(st) && newSym in st.alleleAdded
    requires r.esCellName in st.alleleAdded[newSym] && r.colony in st.colonyAdded[newSym]
    ensures Record(lk, st, r, lineNum, p, rule, newSym, newName, facts).RowDone?
    ensures ExistsOnly(st, Record(lk, st, r, lineNum, p, rule, newSym, newName, facts).state)
  {
  }

  /** Recording the same child again with an ES cell and colony already
      recorded for it is a duplicate: it only adds an exists-log entry. */
  lemma RecordRepeat(lk: Lookups, st: RewriteState, r: Row, lineNum: nat, otherNum: nat, p: Parent,
                     rule: Rule, newSym: string, newName: string, facts: ChildFacts)
    requires AddedInvariant(st)
    requires facts.key == 0 || newSym in st.alleleAdded
    ensures Record(lk, st, r, lineNum, p, rule, newSym, newName, facts).RowDone?
    ensures var st1 := Record(lk, st, r, lineNum, p, rule, newSym, newName, facts).state;
      && Record(lk, st1, r, otherNum, p, rule, newSym, newName, facts).RowDone?
      && ExistsOnly(st1, Record(lk, st1, r, otherNum, p, rule, newSym, newName, facts).state)
  {
    RecordNotes(lk, st, r, lineNum, p, rule, newSym, newName, facts);
    var st1 := Record(lk, st, r, lineNum, p, rule, newSym, newName, facts).state;
    RecordDuplicate(lk, st1, r, otherNum, p, rule, newSym, newName, facts);
  }

  /** The new child of a supported row that is not yet in MGI. */
  predicate NewChild(lk: Lookups, p: Parent, cls: ParentClass, exc: Excision)
    requires Contains(p.symbol, "<") && RuleFor(cls, exc).Some?
  {
    ScriptSymbol(p.symbol, RuleFor(cls, exc).value.child) !in lk.children
  }

  lemma NewChildNotExisting(lk: Lookups, p: Parent, cls: ParentClass, exc: Excision)
    requires Contains(p.symbol, "<") && RuleFor(cls, exc).Some? && NewChild(lk, p, cls, exc)
    ensures ExistingChildOf(lk, p, cls, exc).None?
  {
    ExistingChildAgrees(cls, exc, ScriptSymbol(p.symbol, DotOne), ScriptSymbol(p.symbol, DotTwo),
                        ScriptSymbol(p.symbol, LetterB), ScriptSymbol(p.symbol, LetterC), lk.children);
  }

  /** With no existing child, a supported row is recorded, whatever the state. */
  lemma SupportedRecords(lk: Lookups, st: RewriteState, r: Row, lineNum: nat, p: Parent,
                         cls: ParentClass, exc: Excision)
    requires Contains(p.symbol, "<") && Contains(p.name, TargetedMutation)
    requires RuleFor(cls, exc).Some? && ExistingChildOf(lk, p, cls, exc).None?
    ensures var rule := RuleFor(cls, exc).value;
      DeriveSupported(lk, st, r, lineNum, p, cls, exc)
      == Record(lk, st, r, lineNum, p, rule, ScriptSymbol(p.symbol, rule.child),
                ScriptName(p.name, rule.child), ChildFacts(false, 0, false, false, false))
  {
  }

  lemma SupportedRepeat(lk: Lookups, st: RewriteState, r: Row, lineNum: nat, otherNum: nat, p: Parent,
                        cls: ParentClass, exc: Excision)
    requires Contains(p.symbol, "<") && Contains(p.name, TargetedMutation)
    requires RuleFor(cls, exc).Some? && NewChild(lk, p, cls, exc) && AddedInvariant(st)
    ensures DeriveSupported(lk, st, r, lineNum, p, cls, exc).RowDone?
    ensures var st1 := DeriveSupported(lk, st, r, lineNum, p, cls, exc).state;
      && DeriveSupported(lk, st1, r, otherNum, p, cls, exc).RowDone?
      && ExistsOnly(st1, DeriveSupported(lk, st1, r, otherNum, p, cls, exc).state)
  {
    NewChildNotExisting(lk, p, cls, exc);
    var rule := RuleFor(cls, exc).value;
    var sym := ScriptSymbol(p.symbol, rule.child);
    var name := ScriptName(p.name, rule.child);
    var facts := ChildFacts(false, 0, false, false, false);
    SupportedRecords(lk, st, r, lineNum, p, cls, exc);
    RecordRepeat(lk, st, r, lineNum, otherNum, p, rule, sym, name, facts);
    var st1 := Record(lk, st, r, lineNum, p, rule, sym, name, facts).state;
    SupportedRecords(lk, st1, r, otherNum, p, cls, exc);
  }

  /** A supported row for a child not yet in MGI, read again later in the
      same run (at any line number), is a duplicate: the second time it
      only adds an entry to the exists log and writes nothing. */
  lemma RepeatedRowIsDuplicate(lk: Lookups, st: RewriteState, lineNum: nat, otherNum: nat, line: string)
    requires AddedInvariant(st) && Routed(lk, line, lineNum)
    requires var r := ParseRow(line).value;
      var p := lk.parents[r.alleleID];
      var cls := Classify(p.symbol);
      var exc := ExcisionOf(r.excision);
      && !(cls == TmXe && exc == Flp) && !(cls == TmXa && p.symbol != r.alleleSymbol)
      && RuleFor(cls, exc).Some? && NewChild(lk, p, cls, exc)
    ensures RowStep(lk, st, lineNum, line).RowDone?
    ensures var st1 := RowStep(lk, st, lineNum, line).state;
      && RowStep(lk, st1, otherNum, line).RowDone?
      && ExistsOnly(st1, RowStep(lk, st1, otherNum, line).state)
  {
    var r := ParseRow(line).value;
    var p := lk.parents[r.alleleID];
    RejectionIff(lk, r, lineNum, otherNum);
    assert Routed(lk, line, otherNum);
    RoutedStep(lk, st, lineNum, line);
    SupportedRoute(lk, st, r, lineNum, p);
    SupportedRepeat(lk, st, r, lineNum, otherNum, p, Classify(p.symbol), ExcisionOf(r.excision));
    var st1 := RowStep(lk, st, lineNum, line).state;
    RoutedStep(lk, st1, otherNum, line);
    SupportedRoute(lk, st1, r, otherNum, p);
  }
}
