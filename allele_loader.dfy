/** The generic allele loader as the script runs it: seven key counters
    and nine output files held as fields, advanced line by line. Each
    method is proved to agree with its specification in module AlleleLoad
    and to keep the run invariant `Consistent`. */
module AlleleLoaderImpl {
  import opened Wrappers
  import opened PyString
  import opened NoteChunker
  import opened AlleleLoad
  import opened AlleleLoadFacts
  import opened SeqFacts

  class AlleleLoader {
    /** The library and database lookups, and the J number of the load. */
    const env: Resolvers
    const jnum: string
    /** The counters `setPrimaryKeys` handed out first. */
    ghost const seeds: Keys

    var alleleKey: nat
    var assocKey: nat
    var refAssocKey: nat
    var accKey: nat
    var noteKey: nat
    var mgiKey: nat
    var mutantKey: nat

    var alleleFile: seq<AlleleRow>
    var markerFile: seq<MarkerAssocRow>
    var mutationFile: seq<MutationRow>
    var mutantFile: seq<CellLineAssocRow>
    var refFile: seq<RefAssocRow>
    var noteFile: seq<NoteRow>
    var noteChunkFile: seq<NoteChunkRow>
    var accFile: seq<AccessionRow>
    var newAlleleFile: seq<EchoRow>

    /** The counters and files as a value of the specification. */
    function State(): LoaderState
      reads this
    {
      LoaderState(
        Keys(alleleKey, assocKey, refAssocKey, accKey, noteKey, mgiKey, mutantKey),
        Tables(alleleFile, markerFile, mutationFile, mutantFile, refFile,
               noteFile, noteChunkFile, accFile, newAlleleFile))
    }

    ghost predicate Valid()
      reads this
    {
      Consistent(seeds, State())
    }

    /** `setPrimaryKeys`: every counter starts one past the largest key
        already in its table (`maxima`), and every output file is empty. */
    constructor (env: Resolvers, jnum: string, maxima: Keys)
      ensures this.env == env && this.jnum == jnum && seeds == FirstKeys(maxima)
      ensures State() == LoaderState(FirstKeys(maxima), NoTables)
      ensures Valid()
    {
      this.env := env;
      this.jnum := jnum;
      seeds := FirstKeys(maxima);
      alleleKey := maxima.allele + 1;
      assocKey := maxima.markerAssoc + 1;
      refAssocKey := maxima.refAssoc + 1;
      accKey := maxima.accession + 1;
      noteKey := maxima.note + 1;
      mgiKey := maxima.mgi + 1;
      mutantKey := maxima.cellLineAssoc + 1;
      alleleFile, markerFile, mutationFile, mutantFile, refFile := [], [], [], [], [];
      noteFile, noteChunkFile, accFile, newAlleleFile := [], [], [], [];
      new;
      EmptyConsistent(FirstKeys(maxima));
    }

    /** `addMutantCellLine`: the key of the last cell line the query
        returned (0 when none) is associated with the allele under the next
        association key. */
    method AddMutantCellLine(alleleKey: nat, mutantCellLine: string, createdByKey: nat)
      modifies this`mutantFile, this`mutantKey
      ensures mutantFile == old(mutantFile)
        + [CellLineAssocRow(old(mutantKey), alleleKey, CellLineKey(env.cellLines(mutantCellLine)), createdByKey)]
      ensures mutantKey == old(mutantKey) + 1
    {
      var results := env.cellLines(mutantCellLine);
      var mutantCellLineKey := 0;
      for i := 0 to |results|
        invariant mutantCellLineKey == CellLineKey(results[..i])
      {
        mutantCellLineKey := results[i];
      }
      assert results[..|results|] == results;
      mutantFile := mutantFile + [CellLineAssocRow(mutantKey, alleleKey, mutantCellLineKey, createdByKey)];
      mutantKey := mutantKey + 1;
    }

    /** One iteration of `processFile`'s loop: the line's outcome, the
        reference role carried to the next line, and the new counters and
        files are exactly those `Step` specifies. */
    method ProcessLine(line: string, role: Option<nat>) returns (outcome: LineOutcome, nextRole: Option<nat>)
      requires Valid() && RoleValid(role)
      modifies this
      ensures Valid() && RoleValid(nextRole)
      ensures StepResult(outcome, nextRole, State()) == Step(old(State()), role, line, env, jnum)
    {
      ghost var s0 := State();
      StepConsistent(seeds, s0, role, line, env, jnum);
      var tokens := Tokens(line);
      if |tokens| < FieldCount {
        return Aborted(InvalidLine), role;
      }
      var createdByKey := env.user(tokens[18]);
      if createdByKey == 0 {
        return Rejected, role;
      }
      var markerKey := env.marker(tokens[0]);
      var alleleStatusKey := env.term(VocabStatus, tokens[3]);
      var alleleTypeKey := env.term(VocabType, tokens[4]);
      var germLineKey := env.term(VocabTransmission, tokens[7]);
      var allMutations := Split(tokens[14], "|");
      var inheritanceModeKey := env.term(VocabInheritance, tokens[15]);
      var strainOfOriginKey := env.strain(tokens[9]);
      var refKey := env.reference(jnum);
      if markerKey == 0 || alleleStatusKey == 0 || alleleTypeKey == 0 || germLineKey == 0
         || inheritanceModeKey == 0 || strainOfOriginKey == 0 || refKey == 0 {
        return Rejected, role;
      }
      var lk := LineKeys(createdByKey, markerKey, alleleStatusKey, alleleTypeKey, germLineKey,
                         inheritanceModeKey, strainOfOriginKey, refKey);

      var mutations := MutationRowsOf(alleleKey, allMutations, env);
      var parsed := ParseReferences(refAssocKey, role, Split(tokens[8], "||"), alleleKey, createdByKey, env);
      if parsed.RefsAbort? {
        return Aborted(parsed.reason), role;
      }
      WriteAllele(tokens, allMutations, lk, mutations, parsed.rows, parsed.nextKey);
      return Accepted, parsed.role;
    }

    /** The writes of an accepted line, in the script's order: allele,
        marker association, mutations, references, cell line, accession,
        notes, the echo line, then the four per-allele counters. */
    method WriteAllele(tokens: seq<string>, allMutations: seq<string>, lk: LineKeys,
                       mutations: seq<MutationRow>, refs: seq<RefAssocRow>, nextRefKey: nat)
      requires |tokens| >= FieldCount
      requires mutations == MutationRows(alleleKey, allMutations, env)
      modifies this
      ensures State() == Accept(old(State()), tokens, allMutations, lk, refs, nextRefKey, env)
    {
      WriteAssociations(tokens, allMutations, lk, mutations, refs, nextRefKey);
      WriteCellLine(tokens[10], lk.creator);
      WriteAccession(lk.creator);
      WriteNotes(lk.creator, tokens[11], tokens[12], tokens[13]);
      WriteEcho(tokens, allMutations);
    }

    /** The allele row, its marker association, its mutation rows and its
        reference associations. */
    method WriteAssociations(tokens: seq<string>, allMutations: seq<string>, lk: LineKeys,
                             mutations: seq<MutationRow>, refs: seq<RefAssocRow>, nextRefKey: nat)
      requires |tokens| >= FieldCount
      requires mutations == MutationRows(alleleKey, allMutations, env)
      modifies this`alleleFile, this`markerFile, this`mutationFile, this`refFile, this`refAssocKey
      ensures State() == AddAlleleRows(old(State()), tokens, allMutations, lk, refs, nextRefKey, env)
    {
      alleleFile := alleleFile + [AlleleRow(alleleKey, lk.marker, lk.strain, lk.inheritance,
                                            lk.alleleType, lk.status, lk.transmission, tokens[1], tokens[2],
                                            "", 0, tokens[17], tokens[16], lk.creator)];
      markerFile := markerFile + [MarkerAssocRow(assocKey, alleleKey, lk.marker, QualifierNotSpecified,
                                                 lk.reference, MarkerStatusCurated, lk.creator)];
      mutationFile := mutationFile + mutations;
      refFile := refFile + refs;
      refAssocKey := nextRefKey;
    }

    /** A non-empty cell-line field is associated with the allele. */
    method WriteCellLine(mutantCellLine: string, createdByKey: nat)
      modifies this`mutantFile, this`mutantKey
      ensures State() == AddCellLine(old(State()), mutantCellLine, createdByKey, env)
    {
      if |mutantCellLine| > 0 {
        AddMutantCellLine(alleleKey, mutantCellLine, createdByKey);
      }
    }

    /** The accession row binding `MGI:`+mgiKey to the allele. */
    method WriteAccession(createdByKey: nat)
      modifies this`accFile
      ensures State() == AddAccession(old(State()), createdByKey)
    {
      accFile := accFile + [AccessionRow(accKey, MgiID(mgiKey), MgiPrefix, mgiKey, 1, alleleKey,
                                         AlleleMgiType, 0, 1, createdByKey)];
    }

    /** The `.new` line echoing the input with the new accession ID, and
        the four per-allele counters moved on. */
    method WriteEcho(tokens: seq<string>, allMutations: seq<string>)
      requires |tokens| >= FieldCount
      modifies this`newAlleleFile, this`accKey, this`mgiKey, this`assocKey, this`alleleKey
      ensures State() == AddEcho(old(State()), tokens, allMutations)
    {
      newAlleleFile := newAlleleFile + [EchoRow(tokens[..11], allMutations, tokens[15..19], MgiID(mgiKey))];
      accKey, mgiKey, assocKey, alleleKey := accKey + 1, mgiKey + 1, assocKey + 1, alleleKey + 1;
    }

    /** The molecular and driver notes are written as a header and their
        255-character slices, the IKMC note as a header and one chunk; each
        non-empty note takes the next note key. */
    method WriteNotes(createdByKey: nat, molecularNotes: string, driverNotes: string, ikmcNotes: string)
      modifies this`noteFile, this`noteChunkFile, this`noteKey
      ensures State() == AddNotes(old(State()), createdByKey, molecularNotes, driverNotes, ikmcNotes)
    {
      ghost var m := SplitNote(noteKey, alleleKey, createdByKey, MolecularNoteType, molecularNotes);
      WriteSplitNote(MolecularNoteType, createdByKey, molecularNotes);
      ghost var d := SplitNote(noteKey, alleleKey, createdByKey, DriverNoteType, driverNotes);
      WriteSplitNote(DriverNoteType, createdByKey, driverNotes);
      ghost var w := WholeNote(noteKey, alleleKey, createdByKey, ikmcNotes);
      if |ikmcNotes| > 0 {
        noteFile := noteFile + [NoteRow(noteKey, alleleKey, AlleleMgiType, IkmcNoteType, createdByKey)];
        noteChunkFile := noteChunkFile + [NoteChunkRow(noteKey, 1, ikmcNotes, createdByKey)];
        noteKey := noteKey + 1;
      }
      AppendThree(old(noteFile), m.notes, d.notes, w.notes);
      AppendThree(old(noteChunkFile), m.chunks, d.chunks, w.chunks);
    }

    /** A molecular or driver note: the header, then the slices from the
        chunking loop, under the next note key. */
    method WriteSplitNote(noteType: nat, createdByKey: nat, notes: string)
      modifies this`noteFile, this`noteChunkFile, this`noteKey
      ensures var nb := SplitNote(old(noteKey), alleleKey, createdByKey, noteType, notes);
        && noteFile == old(noteFile) + nb.notes && noteChunkFile == old(noteChunkFile) + nb.chunks
        && noteKey == nb.nextKey
    {
      if |notes| > 0 {
        noteFile := noteFile + [NoteRow(noteKey, alleleKey, AlleleMgiType, noteType, createdByKey)];
        var chunks := ChunkNote(noteKey, notes, createdByKey);
        noteChunkFile := noteChunkFile + chunks;
        noteKey := noteKey + 1;
      }
    }

    /** `processFile`: every line in order until one stops the run; the
        outcome carries the line count handed to ACC_setMax, and the
        counters and files are those `Run` specifies. */
    method ProcessFile(lines: seq<string>) returns (result: RunOutcome)
      requires Valid()
      modifies this
      ensures Valid()
      ensures RunResult(result, State()) == Run(old(State()), None, lines, 0, env, jnum)
    {
      ghost var s0 := State();
      var lineNum := 0;
      var refAssocTypeKey: Option<nat> := None;
      while lineNum < |lines|
        invariant lineNum <= |lines|
        invariant Valid() && RoleValid(refAssocTypeKey)
        invariant Run(s0, None, lines, 0, env, jnum)
                  == Run(State(), refAssocTypeKey, lines[lineNum..], lineNum, env, jnum)
      {
        assert lines[lineNum..][1..] == lines[lineNum + 1..];
        var outcome, role := ProcessLine(lines[lineNum], refAssocTypeKey);
        lineNum := lineNum + 1;
        if outcome.Aborted? {
          return Stopped(lineNum, outcome.reason);
        }
        refAssocTypeKey := role;
      }
      return Completed(lineNum);
    }
  }

  /** The mutation loop: one row per term, resolved in vocabulary 36. */
  method MutationRowsOf(alleleKey: nat, allMutations: seq<string>, env: Resolvers)
    returns (mutations: seq<MutationRow>)
    ensures mutations == MutationRows(alleleKey, allMutations, env)
  {
    mutations := [];
    for i := 0 to |allMutations|
      invariant mutations == MutationRows(alleleKey, allMutations[..i], env)
    {
      mutations := mutations + [MutationRow(alleleKey, env.term(VocabMutation, allMutations[i]))];
    }
    assert allMutations[..|allMutations|] == allMutations;
  }

  /** The reference loop: unpack each pair, map its type to a role (an
      unknown type keeps the role of the previous pair), resolve its J
      number and number the rows from `firstKey`; a pair that does not
      unpack, or an unknown type before any known one, stops the run. */
  method ParseReferences(firstKey: nat, role: Option<nat>, allReferences: seq<string>, alleleKey: nat,
                         createdByKey: nat, env: Resolvers) returns (parsed: RefParse)
    ensures parsed == RefFold(firstKey, role, allReferences, alleleKey, createdByKey, env)
  {
    var refs: seq<RefAssocRow> := [];
    var refAssocKey := firstKey;
    var refAssocTypeKey := role;
    for i := 0 to |allReferences|
      invariant RefFold(firstKey, role, allReferences[..i], alleleKey, createdByKey, env)
                == RefsOk(refs, refAssocKey, refAssocTypeKey)
    {
      var reference := allReferences[i];
      RefFoldPrefixStep(firstKey, role, allReferences, i, alleleKey, createdByKey, env);
      ghost var st := RefStep(refAssocKey, refAssocTypeKey, reference, alleleKey, createdByKey, env);
      var parts := Split(reference, "|");
      if |parts| != 2 {
        RefFoldAbortPrefix(firstKey, role, allReferences, i + 1, alleleKey, createdByKey, env);
        return RefsAbort(MalformedReference);
      }
      var refType := parts[0];
      if refType == "Original" {
        refAssocTypeKey := Some(RoleOriginal);
      } else if refType == "Transmission" {
        refAssocTypeKey := Some(RoleTransmission);
      } else if refType == "Molecular" {
        refAssocTypeKey := Some(RoleMolecular);
      }
      if refAssocTypeKey.None? {
        RefFoldAbortPrefix(firstKey, role, allReferences, i + 1, alleleKey, createdByKey, env);
        return RefsAbort(RoleUnset);
      }
      refs := refs + [RefAssocRow(refAssocKey, env.reference(parts[1]), alleleKey, AlleleMgiType,
                                  refAssocTypeKey.value, createdByKey)];
      refAssocKey := refAssocKey + 1;
    }
    assert allReferences[..|allReferences|] == allReferences;
    parsed := RefsOk(refs, refAssocKey, refAssocTypeKey);
  }
}
