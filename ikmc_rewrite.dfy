/** The IKMC rewriter (makeIKMC.py `createAlleleFile` and `writeReports`)
    as functions: what one extract row does to the run's bookkeeping, its
    two logs and the generic allele input file it writes, and what a whole
    extract does. The lookup maps the script builds with SQL in
    `initialize` are given as values. */
module IkmcRewrite {
  import opened Wrappers
  import opened PyString
  import opened IkmcRules

  /** A parent allele as the parents query gives it (the last row of an
      accession ID wins). */
  datatype Parent = Parent(alleleKey: nat, symbol: string, name: string,
                           collectionKey: nat, strain: string)

  /** An existing child allele, by symbol (the last row wins). */
  datatype Child = Child(accID: string, alleleKey: nat, statusKey: nat)

  /** One row of the mutant cell line query. */
  datatype CellLineRow = CellLineRow(alleleKey: nat, cellLineKey: nat, cellLine: string)

  /** An IKMC colony note (type 1041), by the allele it is attached to. */
  datatype IkmcNote = IkmcNote(noteKey: nat, note: string)

  /** Everything `initialize` reads from the database and the environment. */
  datatype Lookups = Lookups(
    parents: map<string, Parent>,
    markers: seq<string>,
    children: map<string, Child>,
    cellLinesBySymbol: map<string, seq<CellLineRow>>,
    cellLinesByKey: map<nat, seq<CellLineRow>>,
    ikmcNotes: map<nat, IkmcNote>,
    jnumber: string,
    createdBy: string)

  /** The allele status `Reserved`. */
  const ReservedStatus: nat := 847113

  /** The fields of an extract row the script reads (field 12 lower-cased). */
  datatype Row = Row(markerSymbol: string, markerID: string, alleleSymbol: string,
                     esCellSymbol: string, alleleID: string, esCellName: string,
                     colony: string, excision: string, tatCre: string, mgiAlleleID: string)

  /** `line[:-1].split('\t')` and the fields taken from it; None when there
      are fewer than 17 fields, where the script fails. */
  function ParseRow(line: string): Option<Row>
  {
    var t := Split(DropLast(line), "\t");
    if |t| < 17 then None
    else Some(Row(t[0], t[1], t[5], t[6], t[8], t[7], t[10], Lower(t[11]), t[12], t[16]))
  }

  /** The row's fields as every log entry repeats them. */
  function EntryFields(r: Row): string
  {
    r.markerSymbol + "\t" + r.markerID + "\t" + r.alleleSymbol + "\t" + r.esCellSymbol + "\t"
    + r.alleleID + "\t" + r.esCellName + "\t" + r.excision + "\t" + r.tatCre + "\t" + r.mgiAlleleID
  }

  /** Some cell line row belongs to allele `alleleKey`. */
  predicate HasAllele(rows: seq<CellLineRow>, alleleKey: nat)
  {
    exists i :: 0 <= i < |rows| && rows[i].alleleKey == alleleKey
  }

  /** Some cell line row names `cellLine`. */
  predicate HasCellLine(rows: seq<CellLineRow>, cellLine: string)
  {
    exists i :: 0 <= i < |rows| && rows[i].cellLine == cellLine
  }

  /** The validation checks of a row. */
  datatype Check =
    | AlreadyProcessed | MarkerMissing | ParentMissing | CellLineUnknown
    | CellLineOfOtherAllele | BadExcision | BadTatCre

  /** The skip-log message of a failed check on the row numbered `n`. */
  function CheckMessage(c: Check, n: string): string
  {
    match c
    case AlreadyProcessed => "field 17 line " + n + ": we have already processed this row: "
    case MarkerMissing => "field 2 line " + n + " : marker is not in MGI: "
    case ParentMissing => "field 9 line " + n + ": allele is not in MGI or is not a tmX, tmXa, tmXe: "
    case CellLineUnknown => "field 8 line " + n + ": es cell line is not associated with *any* allele in MGI: "
    case CellLineOfOtherAllele => "ES Cell Name (field 9) is not associated with allele ID (field 8) line " + n + ": "
    case BadExcision => "Excision Type (field 12) is not \"cre\" or \"flp\" line " + n + ": "
    case BadTatCre => "TAT-Cre (field 13) is not \"true\" or \"false\" line " + n + ": "
  }

  /** The ES cell check, which only runs for a known parent. */
  function CellLineProblem(lk: Lookups, r: Row, lineNum: nat): Option<string>
  {
    if r.alleleID !in lk.parents then
      Some(CheckMessage(ParentMissing, NatToString(lineNum)))
    else if r.esCellName !in lk.cellLinesBySymbol then
      Some(CheckMessage(CellLineUnknown, NatToString(lineNum)))
    else if !HasAllele(lk.cellLinesBySymbol[r.esCellName], lk.parents[r.alleleID].alleleKey) then
      Some(CheckMessage(CellLineOfOtherAllele, NatToString(lineNum)))
    else None
  }

  /** The checks run in order and each failure overwrites the message of
      an earlier one, so the row is logged with the message of the last
      check it fails: field 13, then field 12, then the ES cell, then the
      marker, then field 17. */
  function Rejection(lk: Lookups, r: Row, lineNum: nat): Option<string>
  {
    var n := NatToString(lineNum);
    if r.tatCre != "true" && r.tatCre != "false" then
      Some(CheckMessage(BadTatCre, n))
    else if r.excision != "cre" && r.excision != "flp" then
      Some(CheckMessage(BadExcision, n))
    else if CellLineProblem(lk, r, lineNum).Some? then CellLineProblem(lk, r, lineNum)
    else if r.markerID !in lk.markers then Some(CheckMessage(MarkerMissing, n))
    else if |r.mgiAlleleID| > 0 then Some(CheckMessage(AlreadyProcessed, n))
    else None
  }

  /** The run's bookkeeping: the ES cells and colonies recorded per new
      child symbol, the skip and exists logs, and the lines written. */
  datatype RewriteState = RewriteState(
    alleleAdded: map<string, seq<string>>,
    colonyAdded: map<string, seq<string>>,
    skipLog: seq<string>,
    existsLog: seq<string>,
    alleleLines: seq<string>)

  const Initial := RewriteState(map[], map[], [], [], [])

  /** A row either leaves a new state or makes the script fail. */
  datatype RowOutcome = RowDone(state: RewriteState) | RowCrash

  function Skipped(st: RewriteState, entry: string): RewriteState
  {
    st.(skipLog := st.skipLog + [entry])
  }

  function Existing(st: RewriteState, entry: string): RewriteState
  {
    st.(existsLog := st.existsLog + [entry])
  }

  /** The existing child the script looks for, case by case; None when the
      case's child symbol is not a known child. */
  function ExistingChild(cls: ParentClass, exc: Excision, sym1: string, sym2: string,
                         symB: string, symC: string, children: map<string, Child>): Option<string>
  {
    if (cls == TmX || cls == TmXe) && exc == Cre && sym1 in children then Some(sym1)
    else if cls == TmX && exc == Flp && sym2 in children then Some(sym2)
    else if cls == TmXa && exc == Cre && symB in children then Some(symB)
    else if cls == TmXa && exc == Flp && symC in children then Some(symC)
    else None
  }

  /** What the script learns about an existing child. */
  datatype ChildFacts = ChildFacts(childExists: bool, key: nat, reserved: bool,
                                   cellLineExists: bool, colonyExists: bool)

  function FactsOf(lk: Lookups, existing: Option<string>, r: Row): ChildFacts
  {
    match existing
    case None => ChildFacts(false, 0, false, false, false)
    case Some(sym) =>
      if sym !in lk.children then ChildFacts(false, 0, false, false, false)
      else
        var key := lk.children[sym].alleleKey;
        ChildFacts(true, key, lk.children[sym].statusKey == ReservedStatus,
                   key in lk.cellLinesByKey && HasCellLine(lk.cellLinesByKey[key], r.esCellName),
                   key in lk.ikmcNotes && Contains(lk.ikmcNotes[key].note, r.colony))
  }

  /** The references field of every written line. */
  function References(jnumber: string): string
  {
    "Original|" + jnumber + "||Transmission|" + jnumber + "||Molecular|" + jnumber
  }

  /** A line of the generic allele input file, field by field: the first
      21 are the fields the generic allele loader reads; then the reserved
      child to approve, the child's MGI ID and the allele part of the new
      symbol. */
  datatype AlleleLine = AlleleLine(
    markerID: string, symbol: string, name: string, status: string, alleleType: string,
    subtype: string, collection: string, transmission: string, references: string,
    strain: string, cellLine: string, molecularNote: string, driverNote: string,
    ikmcNote: string, mutations: string, inheritance: string, isMixed: string,
    isExtinct: string, createdBy: string, attachCellLine: string, attachColony: string,
    approveKey: string, childID: string, alleleTag: string)

  /** The fields in file order. */
  function Fields(l: AlleleLine): seq<string>
  {
    [ l.markerID, l.symbol, l.name, l.status, l.alleleType, l.subtype, l.collection,
      l.transmission, l.references, l.strain, l.cellLine, l.molecularNote, l.driverNote,
      l.ikmcNote, l.mutations, l.inheritance, l.isMixed, l.isExtinct, l.createdBy,
      l.attachCellLine, l.attachColony, l.approveKey, l.childID, l.alleleTag ]
  }

  /** The line written for a new or updated child. Field 20 is `0` to add
      this ES cell line to a child written earlier in the run, or the key of
      an existing child without it; field 21 updates an existing child's
      IKMC note, adds one to an existing child, or lists every colony
      recorded for a child written earlier in the run. */
  function OutputLine(lk: Lookups, r: Row, p: Parent, rule: Rule, newSym: string, newName: string,
                      facts: ChildFacts, attachCellLine: bool, attachColony: bool,
                      colonies: seq<string>): AlleleLine
  {
    AlleleLine(
      r.markerID, newSym, newName, "Approved", AlleleType, rule.subtype,
      NatToString(p.collectionKey), "Germline", References(lk.jnumber), p.strain,
      r.esCellName, MolecularNote(rule.note, p.symbol), "", r.colony, rule.mutation,
      "Not Applicable", "0", "0", lk.createdBy,
      if attachCellLine then "0"
      else if facts.childExists && !facts.cellLineExists then NatToString(facts.key)
      else "",
      if facts.childExists && facts.key in lk.ikmcNotes then
        NatToString(lk.ikmcNotes[facts.key].noteKey) + "||" + Replace(lk.ikmcNotes[facts.key].note, "\n", "")
      else if facts.childExists then NatToString(facts.key) + "::"
      else if attachColony then "0::" + Join(colonies, "|")
      else "",
      if facts.reserved then NatToString(facts.key) else "",
      if newSym in lk.children then lk.children[newSym].accID else "",
      BetweenAngles(newSym))
  }

  /** Recording a child symbol about to be written: a symbol already
      recorded gets this ES cell and colony appended; a new symbol whose
      child does not exist yet (key 0) is recorded with them; an existing
      child is not recorded. */
  function Recorded(st: RewriteState, newSym: string, esCellName: string, colony: string,
                    childKey: nat): RewriteState
    requires newSym in st.alleleAdded ==> newSym in st.colonyAdded
  {
    if newSym in st.alleleAdded then
      st.(alleleAdded := st.alleleAdded[newSym := st.alleleAdded[newSym] + [esCellName]],
          colonyAdded := st.colonyAdded[newSym := st.colonyAdded[newSym] + [colony]])
    else if childKey == 0 then
      st.(alleleAdded := st.alleleAdded[newSym := [esCellName]],
          colonyAdded := st.colonyAdded[newSym := [colony]])
    else st
  }

  /** The in-run duplicate check and the line written when it passes. */
  function Record(lk: Lookups, st: RewriteState, r: Row, lineNum: nat, p: Parent, rule: Rule,
                  newSym: string, newName: string, facts: ChildFacts): RowOutcome
  {
    if newSym in st.alleleAdded && newSym !in st.colonyAdded then RowCrash
    else
      var attachCellLine := newSym in st.alleleAdded && r.esCellName !in st.alleleAdded[newSym];
      var attachColony := newSym in st.alleleAdded && r.colony !in st.colonyAdded[newSym];
      if newSym in st.alleleAdded && !attachCellLine && !attachColony then
        RowDone(Existing(st, "Duplicate: child already added by this load line " + NatToString(lineNum) + ": "
                             + EntryFields(r) + "\t" + p.symbol + "\n"))
      else
        var st' := Recorded(st, newSym, r.esCellName, r.colony, facts.key);
        var colonies := if newSym in st'.colonyAdded then st'.colonyAdded[newSym] else [];
        var out := OutputLine(lk, r, p, rule, newSym, newName, facts, attachCellLine, attachColony, colonies);
        RowDone(Written(st', Join(Fields(out), "\t") + "\n"))
  }

  function Written(st: RewriteState, line: string): RewriteState
  {
    st.(alleleLines := st.alleleLines + [line])
  }

  /** A validated row: classify the parent, turn away the unsupported
      cases and existing children, then record and write. */
  function Derive(lk: Lookups, st: RewriteState, r: Row, lineNum: nat): RowOutcome
    requires r.alleleID in lk.parents
  {
    var p := lk.parents[r.alleleID];
    if !Contains(p.symbol, "<") || !Contains(p.name, TargetedMutation) then RowCrash
    else DeriveFrom(lk, st, r, lineNum, p)
  }

  /** A parent whose symbol and name can be split: the two unsupported
      cases are logged, the rest go on to the existing-child check. */
  function DeriveFrom(lk: Lookups, st: RewriteState, r: Row, lineNum: nat, p: Parent): RowOutcome
    requires Contains(p.symbol, "<") && Contains(p.name, TargetedMutation)
  {
    var cls := Classify(p.symbol);
    var exc := ExcisionOf(r.excision);
    var n := NatToString(lineNum);
    var sym2 := ScriptSymbol(p.symbol, DotTwo);
    if cls == TmXe && exc == Flp then
      RowDone(Existing(st, "This tmXe allele is not Cre line " + n + ": " + EntryFields(r)
                           + "\t" + p.symbol + "\t" + sym2 + "\n"))
    else if cls == TmXa && p.symbol != r.alleleSymbol then
      var logit := if |r.alleleSymbol| > 4 && Find(r.alleleSymbol, "e(") != -1
        then "field 9 and field 6 symbols do not match line " + n + ": "
        else "Must handle special tmXa/tmXe case line " + n + ": ";
      RowDone(Skipped(st, logit + EntryFields(r) + "\t" + p.symbol + "\t" + sym2 + "\n"))
    else DeriveSupported(lk, st, r, lineNum, p, cls, exc)
  }

  /** The existing child of a parent, if any, by the excision rule. */
  function ExistingChildOf(lk: Lookups, p: Parent, cls: ParentClass, exc: Excision): Option<string>
    requires Contains(p.symbol, "<")
  {
    ExistingChild(cls, exc, ScriptSymbol(p.symbol, DotOne), ScriptSymbol(p.symbol, DotTwo),
                  ScriptSymbol(p.symbol, LetterB), ScriptSymbol(p.symbol, LetterC), lk.children)
  }

  /** A supported parent and excision: log a child that already exists
      with this cell line and colony, otherwise record and write it. */
  function DeriveSupported(lk: Lookups, st: RewriteState, r: Row, lineNum: nat, p: Parent,
                           cls: ParentClass, exc: Excision): RowOutcome
    requires Contains(p.symbol, "<") && Contains(p.name, TargetedMutation)
    requires RuleFor(cls, exc).Some?
  {
    var existing := ExistingChildOf(lk, p, cls, exc);
    var facts := FactsOf(lk, existing, r);
    if facts.childExists && facts.cellLineExists && facts.colonyExists && !facts.reserved then
      RowDone(Existing(st, "Child/Cell Line/Colony already exists in MGI line " + NatToString(lineNum) + ": "
                           + EntryFields(r) + "\t" + p.symbol + "\t" + existing.value + "\n"))
    else
      var rule := RuleFor(cls, exc).value;
      Record(lk, st, r, lineNum, p, rule, ScriptSymbol(p.symbol, rule.child),
             ScriptName(p.name, rule.child), facts)
  }

  /** One extract row (not the header). */
  function RowStep(lk: Lookups, st: RewriteState, lineNum: nat, line: string): RowOutcome
  {
    match ParseRow(line)
    case None => RowCrash
    case Some(r) =>
      match Rejection(lk, r, lineNum)
      case Some(logit) => RowDone(Skipped(st, logit + EntryFields(r) + "\n"))
      case None => Derive(lk, st, r, lineNum)
  }

  /** The end of a run: all rows read, or the script failed on a line. */
  datatype RunResult = Finished(state: RewriteState) | Crashed(lineNum: nat, state: RewriteState)

  /** The rows after the header, numbered on from `lineNum`. */
  function RunRows(lk: Lookups, st: RewriteState, rows: seq<string>, lineNum: nat): RunResult
    decreases |rows|
  {
    if |rows| == 0 then Finished(st)
    else match RowStep(lk, st, lineNum + 1, rows[0])
      case RowCrash => Crashed(lineNum + 1, st)
      case RowDone(st') => RunRows(lk, st', rows[1..], lineNum + 1)
  }

  /** A whole extract: the first line is the header and is passed over. */
  function Rewrite(lk: Lookups, lines: seq<string>): RunResult
  {
    if |lines| == 0 then Finished(Initial) else RunRows(lk, Initial, lines[1..], 1)
  }

  /** The header both reports start with. */
  const ReportHeader: string :=
    "error\tfield 1\tfield 2\t" + "field 6\tfield 7\tfield 8\t" + "field 9\tfield 12\tfield 13\t"
    + "field 17\tfull allele symbol\t" + "new allele symbol\n"

  /** Python's string order: code point by code point, a proper prefix first. */
  predicate LexLe(a: string, b: string)
  {
    |a| == 0 || (|b| > 0 && (a[0] < b[0] || (a[0] == b[0] && LexLe(a[1..], b[1..]))))
  }

  predicate Sorted(xs: seq<string>)
  {
    forall i, j :: 0 <= i < j < |xs| ==> LexLe(xs[i], xs[j])
  }
}
