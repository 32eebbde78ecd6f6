/** The generic allele input file the IKMC rewriter writes is the file the
    generic allele loader reads: each written line splits back into its
    24 fields, the references field unpacks into the three reference
    roles the loader knows, and the mutation field into loader terms. */
module IkmcOutputFacts {
  import opened Wrappers
  import opened PyString
  import opened IkmcRules
  import opened IkmcRewrite
  import opened IkmcRewriteFacts
  import opened AlleleLoad

  /** No field holds a tab. */
  predicate TabFree(fields: seq<string>)
  {
    forall i :: 0 <= i < |fields| ==> '\t' !in fields[i]
  }

  /** A line written as tab-joined fields plus a newline is read back by
      the loader as those same fields. */
  lemma OutputLineReadsBack(fields: seq<string>)
    requires |fields| >= 1 && TabFree(fields)
    ensures Tokens(Join(fields, "\t") + "\n") == fields
  {
    var body := Join(fields, "\t");
    var line := body + "\n";
    assert DropLast(line) + [line[|line| - 1]] == line;
    assert DropLast(line) == line[..|body|] == body;
    SplitJoin(fields, '\t');
  }

  /** The line a written row adds, with the run's bookkeeping before it. */
  lemma RecordedLine(lk: Lookups, st: RewriteState, r: Row, lineNum: nat, p: Parent, rule: Rule,
                     newSym: string, newName: string, facts: ChildFacts)
    requires AddedInvariant(st)
    requires Record(lk, st, r, lineNum, p, rule, newSym, newName, facts).RowDone?
    requires |Record(lk, st, r, lineNum, p, rule, newSym, newName, facts).state.alleleLines| > |st.alleleLines|
    ensures var st' := Recorded(st, newSym, r.esCellName, r.colony, facts.key);
      Record(lk, st, r, lineNum, p, rule, newSym, newName, facts).state.alleleLines
      == st.alleleLines + [Join(Fields(OutputLine(lk, r, p, rule, newSym, newName, facts,
                                                  newSym in st.alleleAdded && r.esCellName !in st.alleleAdded[newSym],
                                                  newSym in st.alleleAdded && r.colony !in st.colonyAdded[newSym],
                                                  if newSym in st'.colonyAdded then st'.colonyAdded[newSym] else [])),
                                "\t") + "\n"]
  {
  }

  /** A written line as the loader reads it: the marker, the new child's
      symbol and name, status Approved, type Targeted, the rule's subtype,
      the parent's collection, germ line transmission, the three
      references, the parent's strain, the ES cell line, the molecular note
      for the parent, an empty driver note, the colony as IKMC note, the
      rule's mutations, inheritance Not Applicable, not mixed, not extinct,
      the creator, and last the allele part of the new symbol. */
  predicate WrittenShape(l: AlleleLine, lk: Lookups, r: Row, p: Parent, rule: Rule,
                         newSym: string, newName: string)
  {
    && l.markerID == r.markerID && l.symbol == newSym && l.name == newName
    && l.status == "Approved" && l.alleleType == AlleleType && l.subtype == rule.subtype
    && l.collection == NatToString(p.collectionKey) && l.transmission == "Germline"
    && l.references == References(lk.jnumber) && l.strain == p.strain && l.cellLine == r.esCellName
    && l.molecularNote == MolecularNote(rule.note, p.symbol) && l.driverNote == "" && l.ikmcNote == r.colony
    && l.mutations == rule.mutation && l.inheritance == "Not Applicable" && l.isMixed == "0"
    && l.isExtinct == "0" && l.createdBy == lk.createdBy && l.alleleTag == BetweenAngles(newSym)
  }

  lemma OutputLineShape(lk: Lookups, r: Row, p: Parent, rule: Rule, newSym: string, newName: string,
                        facts: ChildFacts, attachCellLine: bool, attachColony: bool, colonies: seq<string>)
    ensures var l := OutputLine(lk, r, p, rule, newSym, newName, facts, attachCellLine, attachColony, colonies);
      && WrittenShape(l, lk, r, p, rule, newSym, newName)
      && (attachColony && !facts.childExists ==> l.attachColony == "0::" + Join(colonies, "|"))
  {
  }

  /** A row that gets written adds one line, the fields above joined by
      tabs, which the loader reads back as those 24 fields when none holds
      a tab. A child symbol written before by this run with another colony,
      and not yet in MGI, carries every colony recorded for it, this one
      last. */
  lemma WrittenLine(lk: Lookups, st: RewriteState, r: Row, lineNum: nat, p: Parent, rule: Rule,
                    newSym: string, newName: string, facts: ChildFacts)
    requires AddedInvariant(st)
    requires Record(lk, st, r, lineNum, p, rule, newSym, newName, facts).RowDone?
    requires |Record(lk, st, r, lineNum, p, rule, newSym, newName, facts).state.alleleLines| > |st.alleleLines|
    ensures var lines := Record(lk, st, r, lineNum, p, rule, newSym, newName, facts).state.alleleLines;
      && |lines| == |st.alleleLines| + 1
      && exists l ::
           && lines[|st.alleleLines|] == Join(Fields(l), "\t") + "\n"
           && WrittenShape(l, lk, r, p, rule, newSym, newName)
           && (TabFree(Fields(l)) ==> Tokens(lines[|st.alleleLines|]) == Fields(l))
           && (newSym in st.colonyAdded && r.colony !in st.colonyAdded[newSym] && !facts.childExists ==>
                 l.attachColony == "0::" + Join(st.colonyAdded[newSym] + [r.colony], "|"))
  {
    var attachCellLine := newSym in st.alleleAdded && r.esCellName !in st.alleleAdded[newSym];
    var attachColony := newSym in st.alleleAdded && r.colony !in st.colonyAdded[newSym];
    var st' := Recorded(st, newSym, r.esCellName, r.colony, facts.key);
    var colonies := if newSym in st'.colonyAdded then st'.colonyAdded[newSym] else [];
    var l := OutputLine(lk, r, p, rule, newSym, newName, facts, attachCellLine, attachColony, colonies);
    RecordedLine(lk, st, r, lineNum, p, rule, newSym, newName, facts);
    OutputLineShape(lk, r, p, rule, newSym, newName, facts, attachCellLine, attachColony, colonies);
    var lines := Record(lk, st, r, lineNum, p, rule, newSym, newName, facts).state.alleleLines;
    var line := lines[|st.alleleLines|];
    assert line == Join(Fields(l), "\t") + "\n";
    if TabFree(Fields(l)) {
      OutputLineReadsBack(Fields(l));
    }
    if newSym in st.colonyAdded && r.colony !in st.colonyAdded[newSym] {
      assert colonies == st.colonyAdded[newSym] + [r.colony];
    }
    assert (TabFree(Fields(l)) ==> Tokens(line) == Fields(l));
    assert WrittenShape(l, lk, r, p, rule, newSym, newName);
  }

  /** In `a + "||" + b`, where `a` has no two bars in a row and does not end
      with one, the first `||` is right after `a`. */
  lemma FindDoubleBar(a: string, b: string)
    requires |a| > 0 && a[|a| - 1] != '|'
    requires forall k :: 0 <= k < |a| - 1 ==> !(a[k] == '|' && a[k + 1] == '|')
    ensures Find(a + "||" + b, "||") == |a|
  {
    var s := a + "||" + b;
    assert s[|a|..|a| + 2] == "||";
    assert OccursAt(s, "||", |a|);
    FindLeftmost(s, "||");
    forall k | 0 <= k < |a| && OccursAt(s, "||", k) ensures false {
      OccursAtFirstTwo(s, "||", k);
    }
  }

  /** A `role|J#` pair with no bar in the role or the J number has no two
      bars in a row and does not end with a bar. */
  lemma PairHasNoDoubleBar(role: string, j: string)
    requires '|' !in role && |j| > 0 && '|' !in j
    ensures var a := role + "|" + j;
      && a[|a| - 1] != '|'
      && forall k :: 0 <= k < |a| - 1 ==> !(a[k] == '|' && a[k + 1] == '|')
  {
    var a := role + "|" + j;
    assert a[|a| - 1] == j[|j| - 1];
    forall k | 0 <= k < |a| - 1 ensures !(a[k] == '|' && a[k + 1] == '|') {
      if k < |role| {
        assert a[k] == role[k];
      } else if k == |role| {
        assert a[k + 1] == j[0];
      } else {
        assert a[k] == j[k - |role| - 1];
      }
    }
  }

  /** Splitting on `||` after a pair peels that pair off. */
  lemma SplitAfterPair(role: string, j: string, b: string)
    requires '|' !in role && |j| > 0 && '|' !in j
    ensures Split(role + "|" + j + "||" + b, "||") == [role + "|" + j] + Split(b, "||")
  {
    var a := role + "|" + j;
    PairHasNoDoubleBar(role, j);
    FindDoubleBar(a, b);
    var s := a + "||" + b;
    SplitAt(s, "||", |a|);
    assert s[..|a|] == a;
    assert s[|a| + 2..] == b;
  }

  /** A single pair holds no `||`. */
  lemma PairAlone(role: string, j: string)
    requires '|' !in role && |j| > 0 && '|' !in j
    ensures Split(role + "|" + j, "||") == [role + "|" + j]
  {
    var a := role + "|" + j;
    PairHasNoDoubleBar(role, j);
    forall k | OccursAt(a, "||", k) ensures false {
      OccursAtFirstTwo(a, "||", k);
    }
  }

  /** A pair splits on its one bar into the role and the J number. */
  lemma PairParts(role: string, j: string)
    requires '|' !in role && '|' !in j
    ensures Split(role + "|" + j, "|") == [role, j]
  {
    var s := role + "|" + j;
    FindAfterCharFree(role, '|', j);
    SplitAt(s, "|", |role|);
    assert s[..|role|] == role;
    assert s[|role| + 1..] == j;
    NoCharNoFind(j, '|');
  }

  /** A pair is read as its role and its J number. */
  lemma PairRead(role: string, j: string)
    requires '|' !in role && '|' !in j
    ensures IsPair(role + "|" + j) && RefType(role + "|" + j) == role && RefJnum(role + "|" + j) == j
  {
    PairParts(role, j);
  }

  /** The references field is its three pairs joined by `||`. */
  lemma ReferencesPairs(j: string)
    ensures References(j)
         == "Original" + "|" + j + "||" + ("Transmission" + "|" + j + "||" + ("Molecular" + "|" + j))
  {
  }

  /** The references field splits on `||` into its three pairs. */
  lemma ReferencesSplit(j: string)
    requires |j| > 0 && '|' !in j
    ensures Split(References(j), "||") == ["Original" + "|" + j, "Transmission" + "|" + j, "Molecular" + "|" + j]
  {
    var o := "Original" + "|" + j;
    var t := "Transmission" + "|" + j;
    var m := "Molecular" + "|" + j;
    var rest := t + "||" + m;
    ReferencesPairs(j);
    SplitAfterPair("Transmission", j, m);
    PairAlone("Molecular", j);
    SplitAfterPair("Original", j, rest);
    assert [o] + ([t] + [m]) == [o, t, m];
  }

  /** For a J number that is not empty and holds no bar, the references
      field the rewriter writes unpacks, as the loader reads it, into an
      Original, a Transmission and a Molecular reference to that J
      number. */
  lemma ReferencesParse(j: string)
    requires |j| > 0 && '|' !in j
    ensures var refs := Split(References(j), "||");
      && |refs| == 3
      && (forall i :: 0 <= i < 3 ==> IsPair(refs[i]) && RefJnum(refs[i]) == j)
      && RoleCode(RefType(refs[0])) == Some(RoleOriginal)
      && RoleCode(RefType(refs[1])) == Some(RoleTransmission)
      && RoleCode(RefType(refs[2])) == Some(RoleMolecular)
  {
    ReferencesSplit(j);
    PairRead("Original", j);
    PairRead("Transmission", j);
    PairRead("Molecular", j);
  }

  /** The mutation field of every rule reads, split on bars as the loader
      does, as Insertion, followed by Intragenic deletion for the tmX cre
      and tmXa cre rules. */
  lemma RuleMutationTerms(cls: ParentClass, exc: Excision)
    requires RuleFor(cls, exc).Some?
    ensures var terms := Split(RuleFor(cls, exc).value.mutation, "|");
      terms == (if (cls == TmX || cls == TmXa) && exc == Cre then ["Insertion", "Intragenic deletion"]
                else ["Insertion"])
  {
    assert "Insertion|Intragenic deletion" == "Insertion" + "|" + "Intragenic deletion";
    PairParts("Insertion", "Intragenic deletion");
    NoCharNoFind("Insertion", '|');
  }
}
