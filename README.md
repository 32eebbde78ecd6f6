# Allele load: generic loader and IKMC rewriter, in Dafny

This project models the two scripts that turn allele submissions into
bulk-load files for the mouse genome database.

- **The generic allele loader** (`bin/makeAllele.py`):
  - `setPrimaryKeys` seeds seven key counters from the table maxima.
  - `processFile` reads a 21-field tab-separated line and resolves its
    creator, marker, vocabulary terms, strain and J number. It rejects the
    line when one of them is unknown. Otherwise it writes, in lockstep:
    - the allele row;
    - its marker association;
    - one mutation row per term;
    - one reference association per `role|J#` pair;
    - an optional cell-line association (`addMutantCellLine`);
    - the MGI accession;
    - up to three notes, with the molecular and driver notes cut into
      255-byte chunks;
    - an echo line.
  - The loader is the class `AlleleLoaderImpl.AlleleLoader`. Its fields
    are the counters and the nine output files. Each method is proved
    against the functions of module `AlleleLoad` (`Step`, `Run`, `Accept`
    and the row builders). The chunking loop is `NoteChunker.ChunkNote`,
    proved against the pure `Chunks`.
- **The IKMC rewriter** (`bin/makeIKMC.py`, `createAlleleFile` and
  `writeReports`) reads an IKMC production extract. For each row it:
  1. validates the row against the parents, markers, cell lines, children
     and colony notes read from the database;
  2. classifies the parent allele (tmX, tmXa or tmXe) and the excision
     (cre or flp);
  3. derives the child's symbol and name;
  4. applies the fixed rule table;
  5. tracks children already written in this run;
  6. writes a 24-field line of the generic allele input file, or an entry
     in the skip log or the exists log.

  The skip log is sorted before the reports are written.
  - The pure parts (classification, derivation, rule table, note
    templates, `<...>` extraction) are functions and lemmas in module
    `IkmcRules`. The child is derived as the script does it, with
    `str.replace` over the whole parent symbol and name (`ScriptSymbol`,
    `ScriptName`). The corrected derivation of the finding below, which
    leaves the marker part alone, is `ChildText` with its lemmas.
  - One row's effect on the run is `IkmcRewrite.RowStep`, and a whole
    extract is `IkmcRewrite.Rewrite`.
  - The row loop is the class `IkmcRewriterImpl.IkmcRewriter`. Its fields
    are the `alleleAdded` and `colonyAdded` dictionaries, the two logs and
    the output file. Each of its methods is proved against its stage of
    `RowStep`.

The lookups both scripts make are inputs:
- the loader's `loadlib`/`sourceloadlib` resolvers are function-valued
  fields of `AlleleLoad.Resolvers`, with 0 meaning "not found";
- the rewriter's SQL results are the `IkmcRewrite.Lookups` value.

Python's string operations (`find`, `split`, `join`, `replace`, slicing,
`str(int)`, `lower`) are modelled with their runtime semantics in module
`PyString`. This carries over the scripts' edge cases, such as a missing
separator or a symbol without angle brackets.

## Model

| member | source | states |
|---|---|---|
| AlleleLoaderImpl.AlleleLoader.constructor | bin/makeAllele.py:304-330 | every counter starts at its table maximum plus one, every output file is empty, and the run invariant holds |
| AlleleLoaderImpl.AlleleLoader.ProcessLine | bin/makeAllele.py:421-641 | one loop iteration leaves exactly the outcome, carried reference role, counters and files that `Step` specifies, and keeps the run invariant |
| AlleleLoaderImpl.AlleleLoader.ProcessFile | bin/makeAllele.py:414-653 | the loop over all lines agrees with `Run`: every line in order until one stops the run, with the line count handed to `ACC_setMax` |
| AlleleLoaderImpl.AlleleLoader.WriteAllele | bin/makeAllele.py:517-641 | an accepted line's writes, in the script's order, are `Accept` of the old state |
| AlleleLoaderImpl.AlleleLoader.WriteAssociations | bin/makeAllele.py:517-549 | the allele row, the marker association, the mutation rows and the reference rows are appended, and the reference counter moves on |
| AlleleLoaderImpl.AlleleLoader.WriteCellLine | bin/makeAllele.py:554-555 | a non-empty cell-line field adds one association, an empty one nothing |
| AlleleLoaderImpl.AlleleLoader.AddMutantCellLine | bin/makeAllele.py:658-677 | one association row with the last cell-line key the query returned (0 when none), and the counter rises by one |
| AlleleLoaderImpl.AlleleLoader.WriteAccession | bin/makeAllele.py:559-561 | one accession row binding `MGI:`+mgiKey to the allele |
| AlleleLoaderImpl.AlleleLoader.WriteNotes | bin/makeAllele.py:563-615 | the molecular and driver notes are written split, the IKMC note as one chunk, and each non-empty note takes the next note key |
| AlleleLoaderImpl.AlleleLoader.WriteSplitNote | bin/makeAllele.py:566-583 | one note header, then the chunking loop's rows under that key, and the note key moves on |
| AlleleLoaderImpl.AlleleLoader.WriteEcho | bin/makeAllele.py:619-641 | the echo line with the new accession ID, then accKey, mgiKey, assocKey and alleleKey each rise by one |
| AlleleLoaderImpl.MutationRowsOf | bin/makeAllele.py:529-532 | the mutation loop yields one row per term, in order |
| AlleleLoaderImpl.ParseReferences | bin/makeAllele.py:534-549 | the reference loop agrees with `RefFold`, including the sticky role and the two ways it stops the run |
| NoteChunker.ChunkNote | bin/makeAllele.py:573-581 | the `while len > 255` slicing loop writes exactly `ChunkRows` of the note |
| NoteChunker.ChunksConcat | bin/makeAllele.py:573-581 | the slices concatenate back to the note |
| NoteChunker.ChunksShape | bin/makeAllele.py:573-581 | ceil(n/255) slices, none empty, each at most 255 long, all but the last exactly 255 |
| NoteChunker.ChunkRowsRoundTrip | bin/makeAllele.py:566-583 | the chunk rows are numbered 1..n under the note key, have the slice bounds, and their texts reassemble the note |
| NoteChunker.SixHundredCharacterNote | bin/makeAllele.py:573-581 | a 600-character note gives slices of 255, 255 and 90 |
| AlleleLoad.RoleCode | bin/makeAllele.py:539-544 | a known reference type maps to one of the three role codes |
| AlleleLoadFacts.RefFoldShape | bin/makeAllele.py:534-549 | one reference row per pair, with keys rising by one per row, and the role carried out is the last row's |
| AlleleLoadFacts.RefFoldStickyRole | bin/makeAllele.py:539-544 | an unknown reference type takes the previous pair's role, or the role carried in from the previous line |
| AlleleLoadFacts.RefFoldOkIff | bin/makeAllele.py:534-544 | the references field parses iff every entry is one `role|J#` pair and the first has a known role or a role is carried in |
| AlleleLoadFacts.RefFoldAbortReason | bin/makeAllele.py:536-544 | a references field stops the run only for a malformed pair or an unset role |
| AlleleLoadFacts.RefFoldAbortPrefix | bin/makeAllele.py:535-549 | once a prefix of the pairs stops the run, the whole field stops it the same way |
| AlleleLoadFacts.NotesOfLineHeaders | bin/makeAllele.py:566-615 | one header per non-empty note field, in the order molecular, driver, IKMC, with consecutive keys; the note key rises by their number |
| AlleleLoadFacts.NotesOfLineChunks | bin/makeAllele.py:566-615 | every chunk belongs to a header of the line, the molecular slices come first, and the IKMC note is one chunk numbered 1 at the end |
| AlleleLoadFacts.ShortLineAborts | bin/makeAllele.py:427-452 | a line stops the run with "Invalid Line" iff it has fewer than 21 fields; only accepted lines change the state |
| AlleleLoadFacts.RejectedLineIsolation | bin/makeAllele.py:455-512 | a full line is rejected iff a required lookup answers 0; a rejected line writes nothing and keeps every counter and the carried role |
| AlleleLoadFacts.AcceptedIff | bin/makeAllele.py:427-549 | a line is accepted iff it has 21 fields, every lookup succeeds and its references parse |
| AlleleLoadFacts.AcceptedLineMaster | bin/makeAllele.py:470-475 | an accepted line adds one allele row, one marker association with qualifier 4268547 and status 4268545, one `MGI:`+n accession of type 11 and one echo row, and advances four counters by one |
| AlleleLoadFacts.AcceptedLineMutations | bin/makeAllele.py:487-532 | one mutation row per `|`-term, all for the new allele, with unchecked term keys |
| AlleleLoadFacts.AcceptedLineReferences | bin/makeAllele.py:534-549 | one reference row per pair, with consecutive keys, and the counter advances by the number of pairs |
| AlleleLoadFacts.AcceptedLineCellLine | bin/makeAllele.py:554-555 | a cell-line row (key 0 when the lookup finds nothing) and a counter step iff the field is non-empty |
| AlleleLoadFacts.AcceptedLineNotes | bin/makeAllele.py:566-615 | the note key and the note file grow by the number of non-empty note fields |
| AlleleLoadFacts.EmptyConsistent | bin/makeAllele.py:304-330 | the seeded counters with empty files satisfy the run invariant |
| AlleleLoadFacts.AcceptConsistent | bin/makeAllele.py:517-641 | accepting a line keeps keys gapless and every row pointing at a row of this run |
| AlleleLoadFacts.StepConsistent | bin/makeAllele.py:421-641 | every line, whatever its outcome, keeps the run invariant and a valid carried role |
| AlleleLoadFacts.RunConsistent | bin/makeAllele.py:414-653 | a whole run keeps the invariant |
| AlleleLoadFacts.RunLineCount | bin/makeAllele.py:421-424 | a completed run hands `ACC_setMax` the number of lines read, rejected ones included; a stopped run names a line it read |
| AlleleLoadFacts.RunAssignsConsecutiveKeys | bin/makeAllele.py:638-641 | from fresh counters, the i-th allele written has key (allele seed)+i, and the i-th accession points at it with ID `MGI:`((MGI seed)+i) |
| IkmcRules.ClassifyCases | bin/makeIKMC.py:570-575 | a parent is tmXa iff some `a` is followed by `(`, tmXe iff not that but some `e` is, tmX otherwise; exactly one holds |
| IkmcRules.DesignationShape | bin/makeIKMC.py:547-548 | the tm designation is the text right after the first `<`, up to the next `(` or `<` |
| IkmcRules.NameDesignationShape | bin/makeIKMC.py:554-555 | the name's designation is the text right after `targeted mutation`, up to the next comma |
| IkmcRules.DesignationOf | bin/makeIKMC.py:547-548 | a symbol `marker<designation(rest` yields that designation |
| IkmcRules.ChildText | bin/makeIKMC.py:549-559 | corrected derivation (finding below): the child keeps the parent's marker part unchanged |
| IkmcRules.ChildTextAgrees | bin/makeIKMC.py:549-559 | the corrected derivation equals the script's whole-text `str.replace` whenever the replaced text does not occur in the marker part |
| IkmcRules.AsWrittenRewritesMarkerPart | bin/makeIKMC.py:549-559 | when the replaced text first occurs in the marker part and the replacement differs from the parent there, the script's `str.replace` gives a different child from the corrected derivation |
| IkmcRules.ChildTextOnce | bin/makeIKMC.py:549-559 | corrected derivation: one occurrence after the anchor, and the child is the parent with that occurrence replaced |
| IkmcRules.DotChildShape | bin/makeIKMC.py:549-550 | corrected derivation: the cre and flp children of a tmX symbol are `marker<designation.1(rest` and `marker<designation.2(rest`, whatever the marker part holds |
| IkmcRules.LetterChildNotXa | bin/makeIKMC.py:551-552 | corrected derivation: the allele part of a tmXa parent's `b(` and `c(` children holds no `a(` |
| IkmcRules.ScriptDotChildShape | bin/makeIKMC.py:547-550 | the script's `.1` and `.2` children are `marker<designation.1(rest` and `marker<designation.2(rest` when the designation does not start inside the marker part |
| IkmcRules.ScriptLetterChildNotXa | bin/makeIKMC.py:551-575 | the script's `b(` and `c(` children keep no `a(` anywhere, so they never classify as tmXa |
| IkmcRules.RuleTable | bin/makeIKMC.py:697-745 | only tmXe/flp has no rule; cre gives the `.1`/`b` children and flp the `.2`/`c` ones; tmXa gets the letter children; cre children are Reporter with a Cre note; every mutation starts with Insertion |
| IkmcRules.SupMarkupShape | bin/makeIKMC.py:703-704 | the note shows `marker<sup>tmrest</sup>` for a parent `marker<tmrest>` |
| IkmcRules.BetweenAnglesShape | bin/makeIKMC.py:917-919 | the last field is exactly the allele part between `<` and `>` |
| IkmcRules.BetweenAnglesWithoutBrackets | bin/makeIKMC.py:917-919 | with no angle brackets both searches give -1 and the slice drops the last character |
| IkmcRewriteFacts.RejectionIff | bin/makeIKMC.py:475-527 | a row is skipped iff field 17 is set, the marker is unknown, the parent is unknown, the ES cell is unknown or not of that parent, field 12 is not cre/flp, or field 13 is not true/false |
| IkmcRewriteFacts.RejectedRowWritesNothing | bin/makeIKMC.py:516-527 | a rejected row adds one skip entry and changes nothing else |
| IkmcRewriteFacts.RowStepKeeps | bin/makeIKMC.py:449-791 | a row that does not stop the script lands in exactly one place, only appends, and keeps the bookkeeping keys equal and growing |
| IkmcRewriteFacts.RowCrashCauses | bin/makeIKMC.py:460-555 | the script fails on a row only for fewer than 17 fields, or a parent symbol without `<` or name without `targeted mutation`, that is, when `tokens1[1]` or `tokens3[1]` has no piece to index |
| IkmcRewriteFacts.ExistingChildAgrees | bin/makeIKMC.py:633-647 | the existing-child lookup checks exactly the child the rule table derives |
| IkmcRewriteFacts.RoutedStep | bin/makeIKMC.py:529-624 | a validated row with a splittable parent goes to the classification stage |
| IkmcRewriteFacts.TmXeFlpLogged | bin/makeIKMC.py:587-600 | tmXe with flp: one exists entry naming the parent and the script's `newAlleleSym2`, nothing else changes |
| IkmcRewriteFacts.TmXaMismatchSkipped | bin/makeIKMC.py:606-624 | tmXa with a field-6 mismatch: one skip entry naming the parent and the script's `newAlleleSym2`, with the mismatch message when field 6 reads tmXe, nothing else changes |
| IkmcRewriteFacts.SupportedRoute | bin/makeIKMC.py:630-647 | every other case has a rule and goes to the existing-child check |
| IkmcRewriteFacts.ExistingChildLogged | bin/makeIKMC.py:649-686 | an existing, non-reserved child (found among the script's `newAlleleSym1/2/B/C`) with this ES cell and colony: one exists entry naming it, nothing written |
| IkmcRewriteFacts.RecordNotes | bin/makeIKMC.py:782-791 | after a recorded or duplicate row the child has the row's ES cell and colony on record |
| IkmcRewriteFacts.RecordDuplicate | bin/makeIKMC.py:757-780 | ES cell and colony both already recorded: only an exists entry |
| IkmcRewriteFacts.RecordRepeat | bin/makeIKMC.py:751-791 | recording the same row twice makes the second a duplicate |
| IkmcRewriteFacts.NewChildNotExisting | bin/makeIKMC.py:633-647 | a child not in MGI is not found by the existing-child lookup |
| IkmcRewriteFacts.SupportedRecords | bin/makeIKMC.py:633-791 | with no existing child, a supported row goes straight to recording the script's child symbol and name for its rule |
| IkmcRewriteFacts.SupportedRepeat | bin/makeIKMC.py:633-791 | a supported row for a new child, seen twice, is a duplicate the second time |
| IkmcRewriteFacts.RepeatedRowIsDuplicate | bin/makeIKMC.py:449-791 | a supported row whose child is not yet in MGI, read again later in the run at any line number, only adds an exists entry the second time |
| IkmcOutputFacts.OutputLineReadsBack | bin/makeIKMC.py:797-919 | a tab-joined line is read back by the generic loader as the same fields |
| IkmcOutputFacts.RecordedLine | bin/makeIKMC.py:751-919 | a written row appends the one line built from the bookkeeping before it |
| IkmcOutputFacts.OutputLineShape | bin/makeIKMC.py:797-919 | the 24 fields: Approved, Targeted, the rule's subtype and mutations, Germline, the three references, Not Applicable, 0, 0, the molecular note, the allele part last |
| IkmcOutputFacts.WrittenLine | bin/makeIKMC.py:797-919 | a written row adds one line with those fields, which the loader reads back, and a repeated new child lists every colony recorded for it |
| IkmcOutputFacts.ReferencesSplit | bin/makeIKMC.py:830 | the references field splits on `||` into its three pairs |
| IkmcOutputFacts.ReferencesParse | bin/makeIKMC.py:830 | the loader reads the references field as Original, Transmission and Molecular references to the J number |
| IkmcOutputFacts.RuleMutationTerms | bin/makeIKMC.py:697-745 | each rule's mutation field splits into the loader's terms |
| IkmcRunFacts.RunRowsKeeps | bin/makeIKMC.py:453-791 | over any run of rows the bookkeeping keys stay equal and only grow, and the outputs are only appended to |
| IkmcRunFacts.RunRowsCounts | bin/makeIKMC.py:453-791 | each row read adds exactly one entry, and a failing line is one of the rows |
| IkmcRunFacts.HeaderIgnored | bin/makeIKMC.py:453-459 | the first line never affects the result |
| IkmcRunFacts.RewriteCounts | bin/makeIKMC.py:449-921 | the bookkeeping keys stay equal; a full run has one entry per row after the header; a failed run names a line after the header (counted from 1) and has one entry per row before it |
| IkmcRunFacts.LexLeTotal | bin/makeIKMC.py:924 | the string order the sort uses is total |
| IkmcRunFacts.LexLeAntisymmetric | bin/makeIKMC.py:924 | the string order is antisymmetric |
| IkmcRunFacts.LexLeTransitive | bin/makeIKMC.py:924 | the string order is transitive |
| IkmcRewriterImpl.IkmcRewriter.constructor | bin/makeIKMC.py:110-133 | the dictionaries and logs start empty |
| IkmcRewriterImpl.IkmcRewriter.Validate | bin/makeIKMC.py:475-515 | the checks, run in the script's order with each failure overwriting the message, reject with exactly `Rejection` |
| IkmcRewriterImpl.IkmcRewriter.ProcessRow | bin/makeIKMC.py:460-919 | one row stops the script exactly when `RowStep` does, leaving the state unchanged; otherwise it leaves `RowStep`'s state and one new entry |
| IkmcRewriterImpl.IkmcRewriter.DeriveRow | bin/makeIKMC.py:531-555 | a validated row fails on an unsplittable parent and otherwise agrees with `Derive` |
| IkmcRewriterImpl.IkmcRewriter.DeriveFromRow | bin/makeIKMC.py:570-624 | classification and the two unsupported cases agree with `DeriveFrom` |
| IkmcRewriterImpl.IkmcRewriter.SupportedRow | bin/makeIKMC.py:626-745 | the existing-child check and the rule agree with `DeriveSupported` |
| IkmcRewriterImpl.IkmcRewriter.FindExistingChild | bin/makeIKMC.py:633-647 | the case chain over the four whole-text `str.replace` children finds `ExistingChildOf` |
| IkmcRewriterImpl.IkmcRewriter.ExistingFacts | bin/makeIKMC.py:649-667 | the child's key, reserved status, cell-line loop and colony-note loop give `FactsOf` |
| IkmcRewriterImpl.IkmcRewriter.RecordRow | bin/makeIKMC.py:747-919 | the duplicate loops, the bookkeeping update and the written line agree with `Record` |
| IkmcRewriterImpl.IkmcRewriter.Note | bin/makeIKMC.py:782-791 | `alleleAdded`/`colonyAdded` are appended to, or started for a child not in MGI, as `Recorded` says |
| IkmcRewriterImpl.IkmcRewriter.CreateAlleleFile | bin/makeIKMC.py:449-921 | the line loop, with line numbers from 1 and the header skipped, ends in `Rewrite`'s state, or stops at `Rewrite`'s failing line |
| IkmcRewriterImpl.IkmcRewriter.WriteReports | bin/makeIKMC.py:923-927 | the skip log is sorted in place and is a permutation of itself; each report is the header followed by the entries joined by newlines |
| IkmcRewriterImpl.SplitLine | bin/makeIKMC.py:460-473 | `line[:-1].split('\t')` gives `ParseRow`, and None for fewer than 17 fields |
| IkmcRewriterImpl.AnyRowOfAllele | bin/makeIKMC.py:497-505 | the `skipIt` loop finds exactly whether a cell line row belongs to the parent |
| IkmcRewriterImpl.AnyRowNamed | bin/makeIKMC.py:658-661 | the cell-line loop finds exactly whether the child has this ES cell line |
| IkmcRewriterImpl.Missing | bin/makeIKMC.py:757-767 | the duplicate loops find exactly whether the ES cell or colony is not yet recorded |
| IkmcRewriterImpl.SortLines | bin/makeIKMC.py:924 | the insertion sort yields a sorted permutation of the log |
| IkmcRewriterImpl.SortedUnique | bin/makeIKMC.py:924-925 | a sorted permutation is unique, so the skip report depends only on which entries were logged |
| PyString.ReplaceIsJoinOfSplit | bin/makeIKMC.py:549-559 | `str.replace` is splitting on the target and joining with the replacement |
| PyString.JoinSplit | bin/makeAllele.py:427 | joining a split with its separator gives back the text |
| PyString.SplitJoin | bin/makeIKMC.py:797-919 | splitting a join on a character no part holds gives back the parts |
| PyString.ParseNatToString | bin/makeAllele.py:559-561 | the decimal text written for n reads back as n |
| PyString.NatToStringInjective | bin/makeAllele.py:559-561 | distinct MGI numbers give distinct accession IDs |
| PyString.ReplaceOnce | bin/makeIKMC.py:549-559 | `str.replace` on a text with one occurrence of the target replaces just that occurrence |
| PyString.Lower | bin/makeIKMC.py:471 | `lower()` keeps the length, leaves no upper-case letter, maps each upper-case letter to its lower-case partner and keeps every other character |
| PyString.LowerIdempotent | bin/makeIKMC.py:471 | lower-casing twice is lower-casing once |
| PyString.LowerIsCre | bin/makeIKMC.py:471-511 | field 12 passes as `cre` (or `flp`) exactly when it spells that word in any mix of cases |

## Left out

- SQL and the database: the lookups and the table maxima are inputs. `ACC_setMax` is modelled only by its argument, the number of lines read.
- `loadlib`, `sourceloadlib` and `mgi_utils`: the resolvers are function-valued inputs with 0 for "not found". `prvalue` is the identity on strings.
- `bcpFiles`, file opening and closing, environment variables, `print`, the error log and the `loaddate` timestamps: these are I/O, not logic. The load-date columns are not part of the row datatypes.
- `exit` and uncaught exceptions: both end the run. They are modelled as an outcome that names the line, with the state as it was before that line. Rows the script had already written to the open files before the crash are not modelled, because the run then stops before any bulk load.
- `processFileIKMC` (bin/makeAllele.py:368-409): its call is commented out, so it never runs.
- bin/makeAlleleFile.py and bin/makeSanger.py, the other generators of the allele input file: they are not part of this model.
- The `ACC_AccessionReference` bcp file: the loader opens it but never writes to it.
- `IkmcRewriterImpl.IkmcRewriter.ProcessRow`: the rewriter's output file is modelled as a sequence of whole lines. The field-by-field writes are one line each.
- `PyString.Lower`: folds ASCII letters only. Python's `lower` is Unicode-aware. Field 12 is compared against `cre` and `flp`, so this only matters for non-ASCII input.
- `IkmcRunFacts.RewriteCounts`: where a run fails, it states the line number's range but not that `RowStep` fails on that line. That fact holds by the definition of `RunRows`.
- Loader strings: bin/makeAllele.py is a Python 2 script, so its fields are byte strings. Each Dafny `char` of a loader string stands for one byte, and the 255 bound of the note chunks counts bytes. A multi-byte UTF-8 character can be cut across two chunks; the model does not see characters above the byte level.
- Behaviour of the code that is easy to mistake:
  - a loader line with fewer than 21 fields stops the whole run (`exit(1)`); it is not skipped;
  - `ACC_setMax` receives every line read, rejected ones included;
  - the IKMC colony note is written as one unsplit chunk numbered 1, however long it is.
- The IKMC rewriter is modelled because it produces the loader's input.

## Findings

| source | as written | input that shows it | evidently intended | confidence | as-written member | corrected member |
|---|---|---|---|---|---|---|
| bin/makeIKMC.py:549-559 | the child symbol and name are made with `str.replace` over the whole parent symbol or name, so an occurrence of the replaced text in the marker part is rewritten too | the parent name `hemoglobin alpha, adult chain 1; targeted mutation 1a, Wellcome Trust Sanger Institute` with cre: `replace('a,', 'b,')` yields `hemoglobin alphb, adult chain 1; ...` | apply the replacement only from the allele part on (from the first `<` of the symbol, from `targeted mutation` in the name), leaving the marker's symbol and name unchanged | not executed | IkmcRules.AsWrittenRewritesMarkerPart | IkmcRules.ChildText |
