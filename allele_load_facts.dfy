/** What the generic allele loader promises about one line and about a
    whole run, proved of the functions in module AlleleLoad. */
module AlleleLoadFacts {
  import opened Wrappers
  import opened PyString
  import opened NoteChunker
  import opened AlleleLoad
  import opened SeqFacts

  // ---------------------------------------------------------------------
  // References field
  // ---------------------------------------------------------------------

  /** `row` is the reference association written for the pair `reference`
      with association key `key`. */
  predicate RefRowFor(key: nat, reference: string, alleleKey: nat, creator: nat,
                      env: Resolvers, row: RefAssocRow)
  {
    && IsPair(reference)
    && row.assocKey == key && row.refKey == env.reference(RefJnum(reference))
    && row.objectKey == alleleKey && row.mgiTypeKey == AlleleMgiType && row.creator == creator
    && row.roleKey in {RoleOriginal, RoleTransmission, RoleMolecular}
    && (RoleCode(RefType(reference)).Some? ==> row.roleKey == RoleCode(RefType(reference)).value)
  }

  /** A references field that parses gives one row per pair, with keys
      rising by one per row and the role each known type maps to, and
      the role carried out is the last row's. */
  lemma {:induction false} RefFoldShape(k0: nat, r0: Option<nat>, refs: seq<string>, a: nat,
                                        c: nat, env: Resolvers)
    requires RoleValid(r0)
    requires RefFold(k0, r0, refs, a, c, env).RefsOk?
    ensures var p := RefFold(k0, r0, refs, a, c, env);
      && |p.rows| == |refs| && p.nextKey == k0 + |refs| && RoleValid(p.role)
      && (|refs| == 0 ==> p.role == r0)
      && (|refs| > 0 ==> p.role == Some(p.rows[|refs| - 1].roleKey))
      && (forall i :: 0 <= i < |refs| ==> RefRowFor(k0 + i, refs[i], a, c, env, p.rows[i]))
    decreases |refs|
  {
    if |refs| > 0 {
      var n := |refs|;
      var pre := refs[..n - 1];
      RefFoldShape(k0, r0, pre, a, c, env);
      var p0 := RefFold(k0, r0, pre, a, c, env);
      var p := RefFold(k0, r0, refs, a, c, env);
      var st := RefStep(p0.nextKey, p0.role, refs[n - 1], a, c, env);
      RefFoldLast(k0, r0, refs, a, c, env);
      forall i | 0 <= i < n ensures RefRowFor(k0 + i, refs[i], a, c, env, p.rows[i]) {
        if i < n - 1 {
          assert refs[i] == pre[i] && p.rows[i] == p0.rows[i];
        } else {
          assert p.rows[i] == st.rows[0];
        }
      }
    }
  }

  /** A field that parses is its pairs but the last, which parse, followed
      by the last pair, which parses given the key and role they leave. */
  lemma RefFoldLast(k0: nat, r0: Option<nat>, refs: seq<string>, a: nat, c: nat, env: Resolvers)
    requires |refs| > 0 && RefFold(k0, r0, refs, a, c, env).RefsOk?
    ensures var p0 := RefFold(k0, r0, refs[..|refs| - 1], a, c, env);
      && p0.RefsOk?
      && var st := RefStep(p0.nextKey, p0.role, refs[|refs| - 1], a, c, env);
      && st.RefsOk?
      && RefFold(k0, r0, refs, a, c, env) == RefsOk(p0.rows + st.rows, st.nextKey, st.role)
  {
  }

  /** A pair whose type is not one the loader knows takes the role of the
      pair before it, or, for the first pair, the role carried in from the
      previous line. */
  lemma {:induction false} RefFoldStickyRole(k0: nat, r0: Option<nat>, refs: seq<string>, a: nat,
                                             c: nat, env: Resolvers)
    requires RefFold(k0, r0, refs, a, c, env).RefsOk?
    ensures var p := RefFold(k0, r0, refs, a, c, env);
      && |p.rows| == |refs|
      && (|refs| == 0 ==> p.role == r0)
      && (|refs| > 0 ==> p.role == Some(p.rows[|refs| - 1].roleKey))
      && (forall i :: 0 < i < |refs| && RoleCode(RefType(refs[i])).None? ==>
            p.rows[i].roleKey == p.rows[i - 1].roleKey)
      && (|refs| > 0 && RoleCode(RefType(refs[0])).None? ==> r0 == Some(p.rows[0].roleKey))
    decreases |refs|
  {
    if |refs| > 0 {
      var n := |refs|;
      var pre := refs[..n - 1];
      RefFoldStickyRole(k0, r0, pre, a, c, env);
      var p0 := RefFold(k0, r0, pre, a, c, env);
      var p := RefFold(k0, r0, refs, a, c, env);
      var st := RefStep(p0.nextKey, p0.role, refs[n - 1], a, c, env);
      RefFoldLast(k0, r0, refs, a, c, env);
      RefStepRow(p0.nextKey, p0.role, refs[n - 1], a, c, env);
      StickyExtend(pre, refs, p0.rows, st.rows[0], p.rows);
      if n > 1 {
        assert refs[0] == pre[0] && p.rows[0] == p0.rows[0];
      }
    }
  }

  /** A pair that parses gives one row, whose role is the one carried
      out, and which is the role carried in when its type is unknown. */
  lemma RefStepRow(key: nat, role: Option<nat>, reference: string, a: nat, c: nat, env: Resolvers)
    requires RefStep(key, role, reference, a, c, env).RefsOk?
    ensures var st := RefStep(key, role, reference, a, c, env);
      && |st.rows| == 1 && st.role == Some(st.rows[0].roleKey)
      && (RoleCode(RefType(reference)).None? ==> role == st.role)
  {
  }

  /** The sticky-role property survives appending one pair whose row
      keeps the previous row's role when its own type is unknown. */
  lemma StickyExtend(pre: seq<string>, refs: seq<string>,
                     rows0: seq<RefAssocRow>, row: RefAssocRow, rows: seq<RefAssocRow>)
    requires |refs| > 0 && pre == refs[..|refs| - 1] && rows == rows0 + [row] && |rows0| == |pre|
    requires forall i :: 0 < i < |pre| && RoleCode(RefType(pre[i])).None? ==>
      rows0[i].roleKey == rows0[i - 1].roleKey
    requires |pre| > 0 && RoleCode(RefType(refs[|pre|])).None? ==> row.roleKey == rows0[|pre| - 1].roleKey
    ensures |rows| == |refs| && rows[|refs| - 1] == row
    ensures forall i :: 0 < i < |refs| && RoleCode(RefType(refs[i])).None? ==>
      rows[i].roleKey == rows[i - 1].roleKey
  {
    forall i | 0 < i < |refs| && RoleCode(RefType(refs[i])).None?
      ensures rows[i].roleKey == rows[i - 1].roleKey
    {
      if i < |pre| {
        assert refs[i] == pre[i] && rows[i] == rows0[i] && rows[i - 1] == rows0[i - 1];
      } else {
        assert rows[i] == row && rows[i - 1] == rows0[|pre| - 1];
      }
    }
  }

  /** A references field parses exactly when every `||`-separated entry is
      one `role|J#` pair and the first entry has a known role or a role is
      carried in from an earlier line. */
  lemma {:induction false} RefFoldOkIff(k0: nat, r0: Option<nat>, refs: seq<string>, a: nat,
                                        c: nat, env: Resolvers)
    ensures RefFold(k0, r0, refs, a, c, env).RefsOk? <==>
      && (forall i :: 0 <= i < |refs| ==> IsPair(refs[i]))
      && (|refs| == 0 || r0.Some? || RoleCode(RefType(refs[0])).Some?)
    ensures RefFold(k0, r0, refs, a, c, env).RefsOk? && |refs| > 0 ==>
      RefFold(k0, r0, refs, a, c, env).role.Some?
    decreases |refs|
  {
    if |refs| > 0 {
      var n := |refs|;
      var pre := refs[..n - 1];
      var last := refs[n - 1];
      RefFoldOkIff(k0, r0, pre, a, c, env);
      assert forall i :: 0 <= i < n - 1 ==> refs[i] == pre[i];
      var p0 := RefFold(k0, r0, pre, a, c, env);
      if p0.RefsOk? {
        var st := RefStep(p0.nextKey, p0.role, last, a, c, env);
        assert st.RefsOk? <==> IsPair(last) && (RoleCode(RefType(last)).Some? || p0.role.Some?);
        if n == 1 {
          assert p0.role == r0 && last == refs[0];
        } else {
          assert pre[0] == refs[0];
        }
      }
    }
  }

  /** The references field never stops a run for a short line. */
  lemma {:induction false} RefFoldAbortReason(k0: nat, r0: Option<nat>, refs: seq<string>, a: nat,
                                              c: nat, env: Resolvers)
    ensures RefFold(k0, r0, refs, a, c, env).RefsAbort? ==>
      RefFold(k0, r0, refs, a, c, env).reason in {MalformedReference, RoleUnset}
    decreases |refs|
  {
    if |refs| > 0 {
      RefFoldAbortReason(k0, r0, refs[..|refs| - 1], a, c, env);
    }
  }

  /** Once a prefix of the references field stops the run, the whole field
      does, for the same reason. */
  lemma {:induction false} RefFoldAbortPrefix(k0: nat, r0: Option<nat>, refs: seq<string>, i: nat,
                                              a: nat, c: nat, env: Resolvers)
    requires i <= |refs|
    requires RefFold(k0, r0, refs[..i], a, c, env).RefsAbort?
    ensures RefFold(k0, r0, refs, a, c, env) == RefFold(k0, r0, refs[..i], a, c, env)
    decreases |refs|
  {
    if i < |refs| {
      var pre := refs[..|refs| - 1];
      assert pre[..i] == refs[..i];
      RefFoldAbortPrefix(k0, r0, pre, i, a, c, env);
    } else {
      assert refs[..i] == refs;
    }
  }

  /** Extending a prefix that parsed by the next pair applies one step. */
  lemma RefFoldPrefixStep(k0: nat, r0: Option<nat>, refs: seq<string>, i: nat,
                          a: nat, c: nat, env: Resolvers)
    requires i < |refs|
    requires RefFold(k0, r0, refs[..i], a, c, env).RefsOk?
    ensures var p := RefFold(k0, r0, refs[..i], a, c, env);
      var st := RefStep(p.nextKey, p.role, refs[i], a, c, env);
      RefFold(k0, r0, refs[..i + 1], a, c, env)
        == if st.RefsAbort? then st else RefsOk(p.rows + st.rows, st.nextKey, st.role)
  {
    assert refs[..i + 1][..i] == refs[..i];
  }

  // ---------------------------------------------------------------------
  // Notes
  // ---------------------------------------------------------------------

  function NoteCount(molecular: string, driver: string, ikmc: string): nat
  {
    (if |molecular| > 0 then 1 else 0) + (if |driver| > 0 then 1 else 0) + (if |ikmc| > 0 then 1 else 0)
  }

  /** A header is written for each non-empty note field, in the order
      molecular, driver, IKMC, with consecutive note keys, and the note key
      rises by the number of non-empty note fields. */
  lemma NotesOfLineHeaders(key: nat, a: nat, c: nat, molecular: string, driver: string, ikmc: string)
    ensures var nb := NotesOfLine(key, a, c, molecular, driver, ikmc);
      var count := NoteCount(molecular, driver, ikmc);
      && |nb.notes| == count && nb.nextKey == key + count
      && (forall i :: 0 <= i < count ==>
            nb.notes[i].noteKey == key + i && nb.notes[i].objectKey == a
            && nb.notes[i].mgiTypeKey == AlleleMgiType && nb.notes[i].creator == c
            && nb.notes[i].noteTypeKey in {MolecularNoteType, DriverNoteType, IkmcNoteType})
      && (|molecular| > 0 <==> count > 0 && nb.notes[0].noteTypeKey == MolecularNoteType)
      && (|ikmc| > 0 <==> count > 0 && nb.notes[count - 1].noteTypeKey == IkmcNoteType)
  {
    var m := SplitNote(key, a, c, MolecularNoteType, molecular);
    var d := SplitNote(m.nextKey, a, c, DriverNoteType, driver);
    var w := WholeNote(d.nextKey, a, c, ikmc);
    var notes := m.notes + d.notes + w.notes;
    assert forall i :: 0 <= i < |notes| ==>
      notes[i] == if i < |m.notes| then m.notes[i]
                  else if i < |m.notes| + |d.notes| then d.notes[i - |m.notes|]
                  else w.notes[i - |m.notes| - |d.notes|];
  }

  /** Every chunk of a line belongs to one of its headers; the molecular
      note's slices come first, and the IKMC note is one unsplit chunk
      numbered 1 at the end. */
  lemma NotesOfLineChunks(key: nat, a: nat, c: nat, molecular: string, driver: string, ikmc: string)
    ensures var nb := NotesOfLine(key, a, c, molecular, driver, ikmc);
      && (forall i :: 0 <= i < |nb.chunks| ==> key <= nb.chunks[i].noteKey < nb.nextKey)
      && (|molecular| > 0 ==> nb.chunks[..|ChunkRows(key, molecular, c)|] == ChunkRows(key, molecular, c))
      && (|ikmc| > 0 ==>
            (|nb.chunks| > 0 && nb.chunks[|nb.chunks| - 1] == NoteChunkRow(nb.nextKey - 1, 1, ikmc, c)))
  {
    NotesOfLineChunkKeys(key, a, c, molecular, driver, ikmc);
    NotesOfLineChunkEnds(key, a, c, molecular, driver, ikmc);
  }

  /** The first part of `NotesOfLineChunks`: every chunk's note key is one
      of the line's. */
  lemma NotesOfLineChunkKeys(key: nat, a: nat, c: nat, molecular: string, driver: string, ikmc: string)
    ensures var nb := NotesOfLine(key, a, c, molecular, driver, ikmc);
      forall i :: 0 <= i < |nb.chunks| ==> key <= nb.chunks[i].noteKey < nb.nextKey
  {
    var m := SplitNote(key, a, c, MolecularNoteType, molecular);
    var d := SplitNote(m.nextKey, a, c, DriverNoteType, driver);
    var w := WholeNote(d.nextKey, a, c, ikmc);
    SplitNoteKeys(key, a, c, MolecularNoteType, molecular);
    SplitNoteKeys(m.nextKey, a, c, DriverNoteType, driver);
    ThreeNotesChunks(m.chunks, d.chunks, w.chunks, key, m.nextKey, d.nextKey, w.nextKey);
  }

  /** The rest of `NotesOfLineChunks`: the molecular slices open the
      chunks and the IKMC chunk closes them. */
  lemma NotesOfLineChunkEnds(key: nat, a: nat, c: nat, molecular: string, driver: string, ikmc: string)
    ensures var nb := NotesOfLine(key, a, c, molecular, driver, ikmc);
      && (|molecular| > 0 ==> nb.chunks[..|ChunkRows(key, molecular, c)|] == ChunkRows(key, molecular, c))
      && (|ikmc| > 0 ==>
            (|nb.chunks| > 0 && nb.chunks[|nb.chunks| - 1] == NoteChunkRow(nb.nextKey - 1, 1, ikmc, c)))
  {
    var m := SplitNote(key, a, c, MolecularNoteType, molecular);
    var d := SplitNote(m.nextKey, a, c, DriverNoteType, driver);
    var w := WholeNote(d.nextKey, a, c, ikmc);
    SplitNoteKeys(key, a, c, MolecularNoteType, molecular);
    PrefixOfAppendThree(m.chunks, d.chunks, w.chunks);
    if |ikmc| > 0 {
      LastOfAppend(m.chunks + d.chunks, w.chunks);
    }
  }

  /** Chunks of three consecutive notes, keyed `k0 <= k1 <= k2`, each
      below `k3`, lie in `[k0, k3)`. */
  lemma ThreeNotesChunks(x: seq<NoteChunkRow>, y: seq<NoteChunkRow>, z: seq<NoteChunkRow>,
                         k0: nat, k1: nat, k2: nat, k3: nat)
    requires forall i :: 0 <= i < |x| ==> x[i].noteKey == k0
    requires forall i :: 0 <= i < |y| ==> y[i].noteKey == k1
    requires forall i :: 0 <= i < |z| ==> z[i].noteKey == k2
    requires k0 <= k1 <= k2 && (|x| > 0 ==> k0 < k3) && (|y| > 0 ==> k1 < k3) && (|z| > 0 ==> k2 < k3)
    ensures forall i :: 0 <= i < |x + y + z| ==> k0 <= (x + y + z)[i].noteKey < k3
  {
    forall i | 0 <= i < |x + y + z| ensures k0 <= (x + y + z)[i].noteKey < k3 {
      if i < |x| {
        assert (x + y + z)[i] == x[i];
      } else if i < |x| + |y| {
        assert (x + y + z)[i] == y[i - |x|];
      } else {
        assert (x + y + z)[i] == z[i - |x| - |y|];
      }
    }
  }

  /** The chunks of a split note all carry its key, and the note uses one
      key when its text is non-empty and none otherwise. */
  lemma SplitNoteKeys(key: nat, a: nat, c: nat, noteType: nat, text: string)
    ensures var m := SplitNote(key, a, c, noteType, text);
      && m.nextKey == (if |text| > 0 then key + 1 else key)
      && (forall i :: 0 <= i < |m.chunks| ==> m.chunks[i].noteKey == key)
      && (|text| > 0 ==> m.chunks == ChunkRows(key, text, c))
  {
    ChunkRowsFromAt(key, 1, text, c);
  }

  // ---------------------------------------------------------------------
  // One line
  // ---------------------------------------------------------------------

  /** A line with fewer than 21 fields stops the run, and changes nothing. */
  lemma ShortLineAborts(s: LoaderState, role: Option<nat>, line: string, env: Resolvers, jnum: string)
    ensures Step(s, role, line, env, jnum).outcome == Aborted(InvalidLine) <==> |Tokens(line)| < FieldCount
    ensures Step(s, role, line, env, jnum).state == s || Step(s, role, line, env, jnum).outcome == Accepted
  {
    var t := Tokens(line);
    if |t| >= FieldCount {
      var lk := ResolveLine(t, env, jnum);
      RefFoldAbortReason(s.keys.refAssoc, role, Split(t[8], "||"), s.keys.allele, lk.creator, env);
    }
  }

  /** A line with 21 fields is rejected exactly when a required lookup
      (creator, marker, status, type, transmission, inheritance, strain or
      the load's J number) answers 0; a rejected line writes no row to any
      file and leaves every counter and the carried role as they were. */
  lemma RejectedLineIsolation(s: LoaderState, role: Option<nat>, line: string, env: Resolvers, jnum: string)
    requires |Tokens(line)| >= FieldCount
    ensures var t := Tokens(line);
      Step(s, role, line, env, jnum).outcome == Rejected <==>
        (env.user(t[18]) == 0 || env.marker(t[0]) == 0 || env.term(VocabStatus, t[3]) == 0
         || env.term(VocabType, t[4]) == 0 || env.term(VocabTransmission, t[7]) == 0
         || env.term(VocabInheritance, t[15]) == 0 || env.strain(t[9]) == 0 || env.reference(jnum) == 0)
    ensures Step(s, role, line, env, jnum).outcome == Rejected ==>
      Step(s, role, line, env, jnum).state == s && Step(s, role, line, env, jnum).role == role
  {
  }

  /** The references field parses: every entry is one `role|J#` pair, and
      the first has a known type or a role is carried in. */
  predicate RefsParse(field: string, role: Option<nat>)
  {
    var refs := Split(field, "||");
    && (forall i :: 0 <= i < |refs| ==> IsPair(refs[i]))
    && (role.Some? || RoleCode(RefType(refs[0])).Some?)
  }

  /** A line is accepted exactly when it has 21 fields, every required
      lookup succeeds and its references field parses. */
  lemma AcceptedIff(s: LoaderState, role: Option<nat>, line: string, env: Resolvers, jnum: string)
    ensures var t := Tokens(line);
      Step(s, role, line, env, jnum).outcome == Accepted <==>
        |t| >= FieldCount && !AnyUnresolved(ResolveLine(t, env, jnum)) && RefsParse(t[8], role)
  {
    var t := Tokens(line);
    var r := Step(s, role, line, env, jnum);
    if |t| >= FieldCount {
      var lk := ResolveLine(t, env, jnum);
      var refs := Split(t[8], "||");
      RefFoldOkIff(s.keys.refAssoc, role, refs, s.keys.allele, lk.creator, env);
      if AnyUnresolved(lk) {
        assert r.outcome == Rejected;
      } else {
        var p := RefFold(s.keys.refAssoc, role, refs, s.keys.allele, lk.creator, env);
        assert r.outcome == if p.RefsOk? then Accepted else Aborted(p.reason);
        assert p.RefsOk? <==> RefsParse(t[8], role);
      }
    } else {
      assert r.outcome == Aborted(InvalidLine);
    }
  }

  /** An accepted line writes one allele row with the resolved keys, one
      marker association with the fixed qualifier and status, one
      accession binding `MGI:`+n to the new allele and one echo row, and
      advances the allele, marker-association, accession and MGI-number
      counters by exactly one each. */
  lemma AcceptedLineMaster(s: LoaderState, role: Option<nat>, line: string, env: Resolvers, jnum: string)
    requires Step(s, role, line, env, jnum).outcome == Accepted
    ensures |Tokens(line)| >= FieldCount
    ensures var t := Tokens(line);
      var k := s.keys;
      var creator := env.user(t[18]);
      var s' := Step(s, role, line, env, jnum).state;
      && s'.tables.alleles == s.tables.alleles + [AlleleRow(
           k.allele, env.marker(t[0]), env.strain(t[9]), env.term(VocabInheritance, t[15]),
           env.term(VocabType, t[4]), env.term(VocabStatus, t[3]), env.term(VocabTransmission, t[7]),
           t[1], t[2], "", 0, t[17], t[16], creator)]
      && s'.tables.markerAssocs == s.tables.markerAssocs + [MarkerAssocRow(
           k.markerAssoc, k.allele, env.marker(t[0]), 4268547, env.reference(jnum), 4268545, creator)]
      && s'.tables.accessions == s.tables.accessions + [AccessionRow(
           k.accession, "MGI:" + NatToString(k.mgi), "MGI:", k.mgi, 1, k.allele, 11, 0, 1, creator)]
      && s'.tables.echo == s.tables.echo + [EchoRow(t[..11], Split(t[14], "|"), t[15..19], "MGI:" + NatToString(k.mgi))]
      && s'.keys.allele == k.allele + 1 && s'.keys.markerAssoc == k.markerAssoc + 1
      && s'.keys.accession == k.accession + 1 && s'.keys.mgi == k.mgi + 1
  {
  }

  /** An accepted line writes one mutation row per `|`-separated term of
      the mutation field, all for the new allele; term keys are not checked. */
  lemma AcceptedLineMutations(s: LoaderState, role: Option<nat>, line: string, env: Resolvers, jnum: string)
    requires Step(s, role, line, env, jnum).outcome == Accepted
    ensures |Tokens(line)| >= FieldCount
    ensures var terms := Split(Tokens(line)[14], "|");
      var s' := Step(s, role, line, env, jnum).state;
      var old_ := s.tables.mutations;
      && |s'.tables.mutations| == |old_| + |terms|
      && s'.tables.mutations[..|old_|] == old_
      && forall i :: 0 <= i < |terms| ==>
           s'.tables.mutations[|old_| + i] == MutationRow(s.keys.allele, env.term(VocabMutation, terms[i]))
  {
    var s' := Step(s, role, line, env, jnum).state;
    assert s'.tables.mutations[..|s.tables.mutations|] == s.tables.mutations;
  }

  /** An accepted line writes one reference association per pair of its
      references field, with consecutive keys from the current counter,
      and advances that counter by the number of pairs. */
  lemma AcceptedLineReferences(s: LoaderState, role: Option<nat>, line: string, env: Resolvers, jnum: string)
    requires RoleValid(role)
    requires Step(s, role, line, env, jnum).outcome == Accepted
    ensures |Tokens(line)| >= FieldCount
    ensures var t := Tokens(line);
      var refs := Split(t[8], "||");
      var s' := Step(s, role, line, env, jnum).state;
      var n := |s.tables.refAssocs|;
      && s'.keys.refAssoc == s.keys.refAssoc + |refs|
      && |s'.tables.refAssocs| == n + |refs|
      && s'.tables.refAssocs[..n] == s.tables.refAssocs
      && forall i :: 0 <= i < |refs| ==>
           RefRowFor(s.keys.refAssoc + i, refs[i], s.keys.allele, env.user(t[18]), env,
                     s'.tables.refAssocs[n + i])
  {
    var t := Tokens(line);
    var refs := Split(t[8], "||");
    AcceptedRefRows(s, role, line, env, jnum);
    var s' := Step(s, role, line, env, jnum).state;
    RefParseAppended(s.tables.refAssocs, s'.tables.refAssocs, s.keys.refAssoc, s'.keys.refAssoc,
                     role, refs, s.keys.allele, env.user(t[18]), env);
  }

  /** The rows of a references field that parses, appended to a table,
      describe its pairs at their offsets past the old rows, and the
      counter moves past them. */
  lemma RefParseAppended(rows0: seq<RefAssocRow>, rows': seq<RefAssocRow>, k0: nat, k': nat,
                         r0: Option<nat>, refs: seq<string>, a: nat, c: nat, env: Resolvers)
    requires RoleValid(r0) && RefFold(k0, r0, refs, a, c, env).RefsOk?
    requires rows' == rows0 + RefFold(k0, r0, refs, a, c, env).rows
    requires k' == RefFold(k0, r0, refs, a, c, env).nextKey
    ensures var n := |rows0|;
      && k' == k0 + |refs| && |rows'| == n + |refs| && rows'[..n] == rows0
      && forall i :: 0 <= i < |refs| ==> RefRowFor(k0 + i, refs[i], a, c, env, rows'[n + i])
  {
    RefFoldShape(k0, r0, refs, a, c, env);
    AppendedAt(rows0, RefFold(k0, r0, refs, a, c, env).rows, rows');
  }

  /** An accepted line appends the rows of its references field to the
      reference associations and leaves the counter where the field's
      parse leaves it. */
  lemma AcceptedRefRows(s: LoaderState, role: Option<nat>, line: string, env: Resolvers, jnum: string)
    requires Step(s, role, line, env, jnum).outcome == Accepted
    ensures |Tokens(line)| >= FieldCount
    ensures var t := Tokens(line);
      var p := RefFold(s.keys.refAssoc, role, Split(t[8], "||"), s.keys.allele,
                       ResolveLine(t, env, jnum).creator, env);
      var s' := Step(s, role, line, env, jnum).state;
      && p.RefsOk?
      && s'.tables.refAssocs == s.tables.refAssocs + p.rows
      && s'.keys.refAssoc == p.nextKey
      && ResolveLine(t, env, jnum).creator == env.user(t[18])
  {
  }

  /** An accepted line with a non-empty cell-line field writes one
      cell-line association, whose cell-line key is 0 when the lookup finds
      nothing, and advances that counter by one; otherwise neither. */
  lemma AcceptedLineCellLine(s: LoaderState, role: Option<nat>, line: string, env: Resolvers, jnum: string)
    requires Step(s, role, line, env, jnum).outcome == Accepted
    ensures |Tokens(line)| >= FieldCount
    ensures var t := Tokens(line);
      var s' := Step(s, role, line, env, jnum).state;
      var k := s.keys;
      if |t[10]| > 0 then
        && s'.tables.cellLineAssocs == s.tables.cellLineAssocs
             + [CellLineAssocRow(k.cellLineAssoc, k.allele, CellLineKey(env.cellLines(t[10])), env.user(t[18]))]
        && s'.keys.cellLineAssoc == k.cellLineAssoc + 1
      else
        s'.tables.cellLineAssocs == s.tables.cellLineAssocs && s'.keys.cellLineAssoc == k.cellLineAssoc
  {
  }

  /** An accepted line adds one note header per non-empty note field and
      advances the note key by that number. */
  lemma AcceptedLineNotes(s: LoaderState, role: Option<nat>, line: string, env: Resolvers, jnum: string)
    requires Step(s, role, line, env, jnum).outcome == Accepted
    ensures |Tokens(line)| >= FieldCount
    ensures var t := Tokens(line);
      var s' := Step(s, role, line, env, jnum).state;
      var count := NoteCount(t[11], t[12], t[13]);
      && s'.keys.note == s.keys.note + count
      && |s'.tables.notes| == |s.tables.notes| + count
      && s'.tables.notes[..|s.tables.notes|] == s.tables.notes
  {
    var t := Tokens(line);
    NotesOfLineHeaders(s.keys.note, s.keys.allele, env.user(t[18]), t[11], t[12], t[13]);
    var s' := Step(s, role, line, env, jnum).state;
    assert s'.tables.notes[..|s.tables.notes|] == s.tables.notes;
  }

  // ---------------------------------------------------------------------
  // The run invariant
  // ---------------------------------------------------------------------

  /** The counters a fresh loader starts from satisfy the run invariant. */
  lemma EmptyConsistent(seeds: Keys)
    ensures Consistent(seeds, LoaderState(seeds, NoTables))
  {
  }

  /** Accepting a line keeps keys gapless and every row pointing at a row
      of this run. */
  lemma AcceptConsistent(seeds: Keys, s: LoaderState, t: seq<string>, terms: seq<string>, lk: LineKeys,
                         refRows: seq<RefAssocRow>, nextRef: nat, env: Resolvers)
    requires |t| >= FieldCount
    requires Consistent(seeds, s)
    requires nextRef == s.keys.refAssoc + |refRows|
    requires forall i :: 0 <= i < |refRows| ==>
      && refRows[i].assocKey == s.keys.refAssoc + i && refRows[i].objectKey == s.keys.allele
      && refRows[i].mgiTypeKey == AlleleMgiType
      && refRows[i].roleKey in {RoleOriginal, RoleTransmission, RoleMolecular}
    ensures Consistent(seeds, Accept(s, t, terms, lk, refRows, nextRef, env))
  {
    var s' := Accept(s, t, terms, lk, refRows, nextRef, env);
    var tb, tb' := s.tables, s'.tables;
    var n := |tb.alleles|;
    // allele, marker association, accession, echo
    forall i: nat | i < n + 1 ensures MasterRowsAt(seeds, tb', i) {
      if i < n {
        assert MasterRowsAt(seeds, tb, i);
      }
    }
    // reference associations
    forall i: nat | i < |tb'.refAssocs| ensures RefAssocAt(seeds, s', i) {
      if i < |tb.refAssocs| {
        assert RefAssocAt(seeds, s, i);
      } else {
        assert tb'.refAssocs[i] == refRows[i - |tb.refAssocs|];
      }
    }
    // cell-line associations
    forall i: nat | i < |tb'.cellLineAssocs| ensures CellLineAt(seeds, s', i) {
      if i < |tb.cellLineAssocs| {
        assert CellLineAt(seeds, s, i);
      }
    }
    // notes and chunks
    var nb := NotesOfLine(s.keys.note, s.keys.allele, lk.creator, t[11], t[12], t[13]);
    NotesOfLineHeaders(s.keys.note, s.keys.allele, lk.creator, t[11], t[12], t[13]);
    NotesOfLineChunks(s.keys.note, s.keys.allele, lk.creator, t[11], t[12], t[13]);
    forall i: nat | i < |tb'.notes| ensures NoteAt(seeds, s', i) {
      if i < |tb.notes| {
        assert NoteAt(seeds, s, i);
      } else {
        assert tb'.notes[i] == nb.notes[i - |tb.notes|];
      }
    }
    forall i: nat | i < |tb'.noteChunks| ensures ChunkAt(seeds, s', i) {
      if i < |tb.noteChunks| {
        assert ChunkAt(seeds, s, i);
      } else {
        assert tb'.noteChunks[i] == nb.chunks[i - |tb.noteChunks|];
      }
    }
    // mutations
    forall i: nat | i < |tb'.mutations| ensures MutationAt(seeds, s', i) {
      if i < |tb.mutations| {
        assert MutationAt(seeds, s, i);
      }
    }
  }

  /** Processing one line keeps the run invariant and a valid carried role. */
  lemma StepConsistent(seeds: Keys, s: LoaderState, role: Option<nat>, line: string,
                       env: Resolvers, jnum: string)
    requires Consistent(seeds, s) && RoleValid(role)
    ensures Consistent(seeds, Step(s, role, line, env, jnum).state)
    ensures RoleValid(Step(s, role, line, env, jnum).role)
  {
    var t := Tokens(line);
    if |t| >= FieldCount {
      var lk := ResolveLine(t, env, jnum);
      if !AnyUnresolved(lk) {
        var refs := Split(t[8], "||");
        var p := RefFold(s.keys.refAssoc, role, refs, s.keys.allele, lk.creator, env);
        if p.RefsOk? {
          RefFoldShape(s.keys.refAssoc, role, refs, s.keys.allele, lk.creator, env);
          AcceptConsistent(seeds, s, t, Split(t[14], "|"), lk, p.rows, p.nextKey, env);
        }
      }
    }
  }

  /** A whole run keeps the invariant: however many lines are accepted,
      their allele keys, marker-association keys, accession keys and MGI
      numbers are consecutive from the counters the run started with. */
  lemma {:induction false} RunConsistent(seeds: Keys, s: LoaderState, role: Option<nat>,
                                         lines: seq<string>, done: nat, env: Resolvers, jnum: string)
    requires Consistent(seeds, s) && RoleValid(role)
    ensures Consistent(seeds, Run(s, role, lines, done, env, jnum).state)
    decreases |lines|
  {
    if |lines| > 0 {
      StepConsistent(seeds, s, role, lines[0], env, jnum);
      var r := Step(s, role, lines[0], env, jnum);
      if !r.outcome.Aborted? {
        RunConsistent(seeds, r.state, r.role, lines[1..], done + 1, env, jnum);
      }
    }
  }

  /** A run that completes passes ACC_setMax the number of lines read,
      rejected lines included; a run that stops names a line it read. */
  lemma {:induction false} RunLineCount(s: LoaderState, role: Option<nat>, lines: seq<string>,
                                        done: nat, env: Resolvers, jnum: string)
    ensures match Run(s, role, lines, done, env, jnum).outcome
      case Completed(n) => n == done + |lines|
      case Stopped(n, _) => done < n <= done + |lines|
    decreases |lines|
  {
    if |lines| > 0 {
      RunLineCount(Step(s, role, lines[0], env, jnum).state, Step(s, role, lines[0], env, jnum).role,
                   lines[1..], done + 1, env, jnum);
    }
  }

  /** After a run from a fresh loader, the i-th allele written has key
      seed + i and public identifier `MGI:`(seed + i): accepted lines get
      consecutive keys with no gaps and no reuse. */
  lemma RunAssignsConsecutiveKeys(seeds: Keys, lines: seq<string>, env: Resolvers, jnum: string)
    ensures var s' := Run(LoaderState(seeds, NoTables), None, lines, 0, env, jnum).state;
      && s'.keys.allele == seeds.allele + |s'.tables.alleles|
      && |s'.tables.accessions| == |s'.tables.alleles|
      && forall i :: 0 <= i < |s'.tables.alleles| ==>
           s'.tables.alleles[i].alleleKey == seeds.allele + i
           && s'.tables.accessions[i].objectKey == seeds.allele + i
           && s'.tables.accessions[i].accID == "MGI:" + NatToString(seeds.mgi + i)
  {
    EmptyConsistent(seeds);
    RunConsistent(seeds, LoaderState(seeds, NoTables), None, lines, 0, env, jnum);
    var s' := Run(LoaderState(seeds, NoTables), None, lines, 0, env, jnum).state;
    forall i | 0 <= i < |s'.tables.alleles|
      ensures s'.tables.alleles[i].alleleKey == seeds.allele + i
           && s'.tables.accessions[i].objectKey == seeds.allele + i
           && s'.tables.accessions[i].accID == "MGI:" + NatToString(seeds.mgi + i)
    {
      assert MasterRowsAt(seeds, s'.tables, i);
    }
  }
}
