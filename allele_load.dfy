/** The generic allele loader (makeAllele.py) as functions: the rows one
    input line adds to the nine output tables, the key counters it
    advances, and the whole run over the input file. The class in
    allele_loader.dfy performs the same steps imperatively and is proved
    to agree with `Step` and `Run`. */
module AlleleLoad {
  import opened Wrappers
  import opened PyString
  import opened NoteChunker

  /** Number of tab-separated fields a line must have (tokens[0..20]). */
  const FieldCount: nat := 21

  /** Fixed term keys of the marker association. */
  const QualifierNotSpecified: nat := 4268547
  const MarkerStatusCurated: nat := 4268545

  /** MGI type of alleles, used by notes, reference associations and accessions. */
  const AlleleMgiType: nat := 11

  /** Note types. */
  const MolecularNoteType: nat := 1021
  const DriverNoteType: nat := 1034
  const IkmcNoteType: nat := 1041

  /** Reference association roles. */
  const RoleOriginal: nat := 1011
  const RoleTransmission: nat := 1023
  const RoleMolecular: nat := 1012

  /** Controlled vocabularies the loader resolves terms against. */
  const VocabInheritance: nat := 35
  const VocabMutation: nat := 36
  const VocabStatus: nat := 37
  const VocabType: nat := 38
  const VocabTransmission: nat := 61

  const MgiPrefix: string := "MGI:"

  /** The lookups the loader delegates to its library and to the database;
      each answers 0 when it finds nothing. */
  datatype Resolvers = Resolvers(
    user: string -> nat,            // creator login
    marker: string -> nat,          // marker MGI ID
    term: (nat, string) -> nat,     // vocabulary key and term text
    strain: string -> nat,          // strain of origin
    reference: string -> nat,       // J number
    cellLines: string -> seq<nat>)  // keys of the mutant cell lines with a derivation so named

  /** The seven key counters. */
  datatype Keys = Keys(
    allele: nat, markerAssoc: nat, refAssoc: nat, accession: nat,
    note: nat, mgi: nat, cellLineAssoc: nat)

  datatype AlleleRow = AlleleRow(
    alleleKey: nat, markerKey: nat, strainKey: nat, inheritanceKey: nat,
    typeKey: nat, statusKey: nat, transmissionKey: nat,
    symbol: string, name: string, nomenSymbol: string, isWildType: nat,
    isExtinct: string, isMixed: string, creator: nat)

  datatype MarkerAssocRow = MarkerAssocRow(
    assocKey: nat, alleleKey: nat, markerKey: nat, qualifierKey: nat,
    refKey: nat, statusKey: nat, creator: nat)

  datatype MutationRow = MutationRow(alleleKey: nat, mutationKey: nat)

  datatype CellLineAssocRow = CellLineAssocRow(
    assocKey: nat, alleleKey: nat, cellLineKey: nat, creator: nat)

  datatype RefAssocRow = RefAssocRow(
    assocKey: nat, refKey: nat, objectKey: nat, mgiTypeKey: nat,
    roleKey: nat, creator: nat)

  datatype NoteRow = NoteRow(
    noteKey: nat, objectKey: nat, mgiTypeKey: nat, noteTypeKey: nat, creator: nat)

  datatype AccessionRow = AccessionRow(
    accKey: nat, accID: string, prefix: string, numericPart: nat,
    logicalDB: nat, objectKey: nat, mgiTypeKey: nat,
    isPrivate: nat, preferred: nat, creator: nat)

  /** A line of the `.new` file: input fields 1-11, the split mutation
      list, input fields 16-19 and the new accession ID. */
  datatype EchoRow = EchoRow(
    head: seq<string>, mutations: seq<string>, tail: seq<string>, accID: string)

  /** The nine output files, each as the sequence of rows written to it. */
  datatype Tables = Tables(
    alleles: seq<AlleleRow>,
    markerAssocs: seq<MarkerAssocRow>,
    mutations: seq<MutationRow>,
    cellLineAssocs: seq<CellLineAssocRow>,
    refAssocs: seq<RefAssocRow>,
    notes: seq<NoteRow>,
    noteChunks: seq<NoteChunkRow>,
    accessions: seq<AccessionRow>,
    echo: seq<EchoRow>)

  const NoTables := Tables([], [], [], [], [], [], [], [], [])

  datatype LoaderState = LoaderState(keys: Keys, tables: Tables)

  /** Why a line stops the whole run: too few fields (exit with "Invalid
      Line"), a reference that is not one `role|J#` pair (ValueError), or
      an unknown role before any known one (NameError). */
  datatype Abort = InvalidLine | MalformedReference | RoleUnset

  datatype LineOutcome = Accepted | Rejected | Aborted(reason: Abort)

  /** The counters `setPrimaryKeys` hands out first: each maximum plus one. */
  function FirstKeys(maxima: Keys): (k: Keys)
    ensures k.allele == maxima.allele + 1 && k.markerAssoc == maxima.markerAssoc + 1
    ensures k.refAssoc == maxima.refAssoc + 1 && k.accession == maxima.accession + 1
    ensures k.note == maxima.note + 1 && k.mgi == maxima.mgi + 1
    ensures k.cellLineAssoc == maxima.cellLineAssoc + 1
  {
    Keys(maxima.allele + 1, maxima.markerAssoc + 1, maxima.refAssoc + 1,
         maxima.accession + 1, maxima.note + 1, maxima.mgi + 1, maxima.cellLineAssoc + 1)
  }

  /** The public identifier for accession number `n`. */
  function MgiID(n: nat): string
  {
    MgiPrefix + NatToString(n)
  }

  /** The fields of one input line. */
  function Tokens(line: string): seq<string>
  {
    Split(DropLast(line), "\t")
  }

  /** Keys resolved for the fields every accepted line needs. */
  datatype LineKeys = LineKeys(
    creator: nat, marker: nat, status: nat, alleleType: nat,
    transmission: nat, inheritance: nat, strain: nat, reference: nat)

  function ResolveLine(t: seq<string>, env: Resolvers, jnum: string): LineKeys
    requires |t| >= FieldCount
  {
    LineKeys(env.user(t[18]), env.marker(t[0]), env.term(VocabStatus, t[3]),
             env.term(VocabType, t[4]), env.term(VocabTransmission, t[7]),
             env.term(VocabInheritance, t[15]), env.strain(t[9]), env.reference(jnum))
  }

  /** Some required lookup failed, so the line is skipped. */
  predicate AnyUnresolved(k: LineKeys)
  {
    k.creator == 0 || k.marker == 0 || k.status == 0 || k.alleleType == 0 ||
    k.transmission == 0 || k.inheritance == 0 || k.strain == 0 || k.reference == 0
  }

  /** The role code a reference type maps to, if it is one the loader knows. */
  function RoleCode(refType: string): (r: Option<nat>)
    ensures r.Some? ==> r.value in {RoleOriginal, RoleTransmission, RoleMolecular}
  {
    if refType == "Original" then Some(RoleOriginal)
    else if refType == "Transmission" then Some(RoleTransmission)
    else if refType == "Molecular" then Some(RoleMolecular)
    else None
  }

  /** The role carried from line to line is unset or a known code. */
  predicate RoleValid(role: Option<nat>)
  {
    role.Some? ==> role.value in {RoleOriginal, RoleTransmission, RoleMolecular}
  }

  /** The outcome of reading the references field so far: the rows, the
      next reference-association key and the current role, or an abort. */
  datatype RefParse =
    | RefsOk(rows: seq<RefAssocRow>, nextKey: nat, role: Option<nat>)
    | RefsAbort(reason: Abort)

  /** A references entry unpacks into exactly two `|`-separated parts. */
  predicate IsPair(reference: string)
  {
    |Split(reference, "|")| == 2
  }

  /** The part before the first `|`: the reference type. */
  function RefType(reference: string): string
  {
    Split(reference, "|")[0]
  }

  /** The J number of a `role|J#` pair. */
  function RefJnum(reference: string): string
    requires IsPair(reference)
  {
    Split(reference, "|")[1]
  }

  /** One `role|J#` pair: a row with the next key, the role (an unknown
      role keeps the previous one) and the resolved J# (0 when unknown). */
  function RefStep(key: nat, role: Option<nat>, reference: string, alleleKey: nat,
                   creator: nat, env: Resolvers): RefParse
  {
    if !IsPair(reference) then RefsAbort(MalformedReference)
    else
      var role' := if RoleCode(RefType(reference)).Some? then RoleCode(RefType(reference)) else role;
      if role'.None? then RefsAbort(RoleUnset)
      else RefsOk([RefAssocRow(key, env.reference(RefJnum(reference)), alleleKey, AlleleMgiType,
                               role'.value, creator)], key + 1, role')
  }

  /** All pairs of the references field, in order. */
  function RefFold(key: nat, role: Option<nat>, refs: seq<string>, alleleKey: nat,
                   creator: nat, env: Resolvers): RefParse
    decreases |refs|
  {
    if |refs| == 0 then RefsOk([], key, role)
    else
      match RefFold(key, role, refs[..|refs| - 1], alleleKey, creator, env)
      case RefsAbort(r) => RefsAbort(r)
      case RefsOk(rows, k, ro) =>
        match RefStep(k, ro, refs[|refs| - 1], alleleKey, creator, env)
        case RefsAbort(r) => RefsAbort(r)
        case RefsOk(row, k', ro') => RefsOk(rows + row, k', ro')
  }

  /** One mutation row per `|`-separated term, all for the same allele. */
  function MutationRows(alleleKey: nat, terms: seq<string>, env: Resolvers): seq<MutationRow>
  {
    seq(|terms|, i requires 0 <= i < |terms| => MutationRow(alleleKey, env.term(VocabMutation, terms[i])))
  }

  /** The note headers and chunks of one line, and the next note key. */
  datatype NoteBatch = NoteBatch(notes: seq<NoteRow>, chunks: seq<NoteChunkRow>, nextKey: nat)

  /** A molecular or driver note: one header and its 255-character slices. */
  function SplitNote(key: nat, alleleKey: nat, creator: nat, noteType: nat, text: string): NoteBatch
  {
    if |text| == 0 then NoteBatch([], [], key)
    else NoteBatch([NoteRow(key, alleleKey, AlleleMgiType, noteType, creator)],
                   ChunkRows(key, text, creator), key + 1)
  }

  /** The IKMC colony note: one header and one unsplit chunk numbered 1. */
  function WholeNote(key: nat, alleleKey: nat, creator: nat, text: string): NoteBatch
  {
    if |text| == 0 then NoteBatch([], [], key)
    else NoteBatch([NoteRow(key, alleleKey, AlleleMgiType, IkmcNoteType, creator)],
                   [NoteChunkRow(key, 1, text, creator)], key + 1)
  }

  function NotesOfLine(key: nat, alleleKey: nat, creator: nat,
                       molecular: string, driver: string, ikmc: string): NoteBatch
  {
    var m := SplitNote(key, alleleKey, creator, MolecularNoteType, molecular);
    var d := SplitNote(m.nextKey, alleleKey, creator, DriverNoteType, driver);
    var c := WholeNote(d.nextKey, alleleKey, creator, ikmc);
    NoteBatch(m.notes + d.notes + c.notes, m.chunks + d.chunks + c.chunks, c.nextKey)
  }

  /** The cell-line key `addMutantCellLine` keeps from its query: the
      last row's, or 0 when the query finds nothing. */
  function CellLineKey(found: seq<nat>): nat
  {
    if |found| == 0 then 0 else found[|found| - 1]
  }

  /** The cell-line association of a line whose cell-line field is non-empty. */
  function CellLineRows(key: nat, alleleKey: nat, cellLine: string, creator: nat,
                        env: Resolvers): seq<CellLineAssocRow>
  {
    if |cellLine| > 0 then [CellLineAssocRow(key, alleleKey, CellLineKey(env.cellLines(cellLine)), creator)] else []
  }

  /** The first writes of an accepted line: the allele, its marker
      association, its mutations and its reference associations. */
  function AddAlleleRows(s: LoaderState, t: seq<string>, terms: seq<string>, lk: LineKeys,
                         refRows: seq<RefAssocRow>, nextRef: nat, env: Resolvers): LoaderState
    requires |t| >= FieldCount
  {
    var k := s.keys;
    var tb := s.tables;
    var allele := AlleleRow(k.allele, lk.marker, lk.strain, lk.inheritance, lk.alleleType,
                            lk.status, lk.transmission, t[1], t[2], "", 0, t[17], t[16], lk.creator);
    var marker := MarkerAssocRow(k.markerAssoc, k.allele, lk.marker, QualifierNotSpecified,
                                 lk.reference, MarkerStatusCurated, lk.creator);
    s.(keys := k.(refAssoc := nextRef),
       tables := tb.(alleles := tb.alleles + [allele], markerAssocs := tb.markerAssocs + [marker],
                     mutations := tb.mutations + MutationRows(k.allele, terms, env),
                     refAssocs := tb.refAssocs + refRows))
  }

  /** The cell-line association, when the line names a cell line. */
  function AddCellLine(s: LoaderState, cellLine: string, creator: nat, env: Resolvers): LoaderState
  {
    var cl := CellLineRows(s.keys.cellLineAssoc, s.keys.allele, cellLine, creator, env);
    s.(keys := s.keys.(cellLineAssoc := s.keys.cellLineAssoc + |cl|),
       tables := s.tables.(cellLineAssocs := s.tables.cellLineAssocs + cl))
  }

  /** The accession row giving the allele its `MGI:` identifier. */
  function AddAccession(s: LoaderState, creator: nat): LoaderState
  {
    var k := s.keys;
    var acc := AccessionRow(k.accession, MgiID(k.mgi), MgiPrefix, k.mgi, 1, k.allele,
                            AlleleMgiType, 0, 1, creator);
    s.(tables := s.tables.(accessions := s.tables.accessions + [acc]))
  }

  /** The note headers and chunks of the line's three note fields. */
  function AddNotes(s: LoaderState, creator: nat, molecular: string, driver: string, ikmc: string): LoaderState
  {
    var nb := NotesOfLine(s.keys.note, s.keys.allele, creator, molecular, driver, ikmc);
    s.(keys := s.keys.(note := nb.nextKey),
       tables := s.tables.(notes := s.tables.notes + nb.notes, noteChunks := s.tables.noteChunks + nb.chunks))
  }

  /** The `.new` echo line, then the four per-allele counters move on. */
  function AddEcho(s: LoaderState, t: seq<string>, terms: seq<string>): LoaderState
    requires |t| >= FieldCount
  {
    var k := s.keys;
    s.(keys := k.(allele := k.allele + 1, markerAssoc := k.markerAssoc + 1,
                  accession := k.accession + 1, mgi := k.mgi + 1),
       tables := s.tables.(echo := s.tables.echo + [EchoRow(t[..11], terms, t[15..19], MgiID(k.mgi))]))
  }

  /** The state after an accepted line whose mutation field split into
      `terms` and whose references gave `refRows`: the writes in the
      script's order. */
  function Accept(s: LoaderState, t: seq<string>, terms: seq<string>, lk: LineKeys,
                  refRows: seq<RefAssocRow>, nextRef: nat, env: Resolvers): LoaderState
    requires |t| >= FieldCount
  {
    var s1 := AddAlleleRows(s, t, terms, lk, refRows, nextRef, env);
    var s2 := AddCellLine(s1, t[10], lk.creator, env);
    var s3 := AddAccession(s2, lk.creator);
    var s4 := AddNotes(s3, lk.creator, t[11], t[12], t[13]);
    AddEcho(s4, t, terms)
  }

  /** What processing one line does: its outcome, the role carried to the
      next line and the new state. A rejected line and a line that stops
      the run leave the state as it was. */
  datatype StepResult = StepResult(outcome: LineOutcome, role: Option<nat>, state: LoaderState)

  function Step(s: LoaderState, role: Option<nat>, line: string, env: Resolvers, jnum: string): StepResult
  {
    var t := Tokens(line);
    if |t| < FieldCount then StepResult(Aborted(InvalidLine), role, s)
    else
      var lk := ResolveLine(t, env, jnum);
      if AnyUnresolved(lk) then StepResult(Rejected, role, s)
      else
        match RefFold(s.keys.refAssoc, role, Split(t[8], "||"), s.keys.allele, lk.creator, env)
        case RefsAbort(r) => StepResult(Aborted(r), role, s)
        case RefsOk(refRows, nextRef, role') =>
          StepResult(Accepted, role', Accept(s, t, Split(t[14], "|"), lk, refRows, nextRef, env))
  }

  /** How a run ends: it completes and passes the number of lines read to
      ACC_setMax, or it stops at line `lineNum`. */
  datatype RunOutcome = Completed(setMaxArg: nat) | Stopped(lineNum: nat, reason: Abort)

  datatype RunResult = RunResult(outcome: RunOutcome, state: LoaderState)

  /** Processing `lines` after `done` lines have been read. */
  function Run(s: LoaderState, role: Option<nat>, lines: seq<string>, done: nat,
               env: Resolvers, jnum: string): RunResult
    decreases |lines|
  {
    if |lines| == 0 then RunResult(Completed(done), s)
    else
      var r := Step(s, role, lines[0], env, jnum);
      if r.outcome.Aborted? then RunResult(Stopped(done + 1, r.outcome.reason), r.state)
      else Run(r.state, r.role, lines[1..], done + 1, env, jnum)
  }

  // ---------------------------------------------------------------------
  // The invariant of a run: gapless keys and referential consistency.
  // ---------------------------------------------------------------------

  /** Row i of the allele, marker-association, accession and echo files
      belongs to the i-th accepted line. */
  ghost predicate MasterRowsAt(seeds: Keys, t: Tables, i: nat)
    requires i < |t.alleles| && i < |t.markerAssocs| && i < |t.accessions| && i < |t.echo|
  {
    var acc := t.accessions[i];
    var m := t.markerAssocs[i];
    && t.alleles[i].alleleKey == seeds.allele + i
    && m.assocKey == seeds.markerAssoc + i && m.alleleKey == seeds.allele + i
    && m.qualifierKey == QualifierNotSpecified && m.statusKey == MarkerStatusCurated
    && acc.accKey == seeds.accession + i && acc.numericPart == seeds.mgi + i
    && acc.accID == MgiID(seeds.mgi + i) && acc.objectKey == seeds.allele + i
    && acc.mgiTypeKey == AlleleMgiType && acc.prefix == MgiPrefix
    && t.echo[i].accID == acc.accID
  }

  ghost predicate MasterConsistent(seeds: Keys, s: LoaderState)
  {
    var t := s.tables;
    var n := |t.alleles|;
    && s.keys.allele == seeds.allele + n && s.keys.markerAssoc == seeds.markerAssoc + n
    && s.keys.accession == seeds.accession + n && s.keys.mgi == seeds.mgi + n
    && |t.markerAssocs| == n && |t.accessions| == n && |t.echo| == n
    && forall i: nat :: i < n ==> MasterRowsAt(seeds, t, i)
  }

  /** Every association row names an allele created in this run. */
  predicate OfNewAllele(seeds: Keys, s: LoaderState, alleleKey: nat)
  {
    seeds.allele <= alleleKey < s.keys.allele
  }

  ghost predicate RefAssocAt(seeds: Keys, s: LoaderState, i: nat)
    requires i < |s.tables.refAssocs|
  {
    var r := s.tables.refAssocs[i];
    && r.assocKey == seeds.refAssoc + i && OfNewAllele(seeds, s, r.objectKey)
    && r.mgiTypeKey == AlleleMgiType && r.roleKey in {RoleOriginal, RoleTransmission, RoleMolecular}
  }

  ghost predicate RefsConsistent(seeds: Keys, s: LoaderState)
  {
    && s.keys.refAssoc == seeds.refAssoc + |s.tables.refAssocs|
    && forall i: nat :: i < |s.tables.refAssocs| ==> RefAssocAt(seeds, s, i)
  }

  ghost predicate CellLineAt(seeds: Keys, s: LoaderState, i: nat)
    requires i < |s.tables.cellLineAssocs|
  {
    var c := s.tables.cellLineAssocs[i];
    c.assocKey == seeds.cellLineAssoc + i && OfNewAllele(seeds, s, c.alleleKey)
  }

  ghost predicate CellLinesConsistent(seeds: Keys, s: LoaderState)
  {
    && s.keys.cellLineAssoc == seeds.cellLineAssoc + |s.tables.cellLineAssocs|
    && forall i: nat :: i < |s.tables.cellLineAssocs| ==> CellLineAt(seeds, s, i)
  }

  ghost predicate NoteAt(seeds: Keys, s: LoaderState, i: nat)
    requires i < |s.tables.notes|
  {
    var n := s.tables.notes[i];
    && n.noteKey == seeds.note + i && OfNewAllele(seeds, s, n.objectKey)
    && n.mgiTypeKey == AlleleMgiType
    && n.noteTypeKey in {MolecularNoteType, DriverNoteType, IkmcNoteType}
  }

  /** Every chunk belongs to a note header written in this run. */
  ghost predicate ChunkAt(seeds: Keys, s: LoaderState, i: nat)
    requires i < |s.tables.noteChunks|
  {
    seeds.note <= s.tables.noteChunks[i].noteKey < s.keys.note
  }

  ghost predicate NotesConsistent(seeds: Keys, s: LoaderState)
  {
    && s.keys.note == seeds.note + |s.tables.notes|
    && (forall i: nat :: i < |s.tables.notes| ==> NoteAt(seeds, s, i))
    && (forall i: nat :: i < |s.tables.noteChunks| ==> ChunkAt(seeds, s, i))
  }

  ghost predicate MutationAt(seeds: Keys, s: LoaderState, i: nat)
    requires i < |s.tables.mutations|
  {
    OfNewAllele(seeds, s, s.tables.mutations[i].alleleKey)
  }

  ghost predicate MutationsConsistent(seeds: Keys, s: LoaderState)
  {
    forall i: nat :: i < |s.tables.mutations| ==> MutationAt(seeds, s, i)
  }

  /** The state a run can reach from the counters `seeds`: keys handed out
      without gaps, and every row pointing at rows of this run. */
  ghost predicate Consistent(seeds: Keys, s: LoaderState)
  {
    && MasterConsistent(seeds, s)
    && RefsConsistent(seeds, s)
    && CellLinesConsistent(seeds, s)
    && NotesConsistent(seeds, s)
    && MutationsConsistent(seeds, s)
  }
}
