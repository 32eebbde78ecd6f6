/** The fixed rules by which the IKMC rewriter turns a parent allele into
    the child allele that cre or flp excision produces from it: the kind of
    parent, the child's symbol and name, its subtype, mutation and
    molecular note, and the nomenclature between the angle brackets. */
module IkmcRules {
  import opened Wrappers
  import opened PyString
  import opened SeqFacts

  /** tmX (tm1, tm2, ...), tmXa (tm1a, ...) or tmXe (tm1e, ...). */
  datatype ParentClass = TmX | TmXa | TmXe

  datatype Excision = Cre | Flp

  /** `a(` anywhere in the parent symbol makes it tmXa, otherwise `e(`
      makes it tmXe, otherwise it is tmX. */
  function Classify(symbol: string): ParentClass
  {
    if Find(symbol, "a(") != -1 then TmXa
    else if Find(symbol, "e(") != -1 then TmXe
    else TmX
  }

  /** The two-character text `[x, y]` stands at `k` exactly when its two
      characters do. */
  lemma OccursAtPair(s: string, x: char, y: char, k: int)
    ensures OccursAt(s, [x, y], k) <==> 0 <= k && k + 1 < |s| && s[k] == x && s[k + 1] == y
  {
    if 0 <= k && k + 1 < |s| {
      assert s[k..k + 2] == [s[k], s[k + 1]];
    }
  }

  /** An occurrence starts with the pattern's first two characters. */
  lemma OccursAtFirstTwo(s: string, pat: string, k: int)
    requires |pat| >= 2 && OccursAt(s, pat, k)
    ensures k + 1 < |s| && s[k] == pat[0] && s[k + 1] == pat[1]
  {
    assert s[k..k + |pat|][0] == s[k] && s[k..k + |pat|][1] == s[k + 1];
  }

  /** `[x, y]` occurs in `s` exactly when some character `x` is directly
      followed by `y`. */
  lemma ContainsPair(s: string, x: char, y: char)
    ensures Contains(s, [x, y]) <==> exists k :: 0 <= k < |s| - 1 && s[k] == x && s[k + 1] == y
  {
    var i := Find(s, [x, y]);
    FindLeftmost(s, [x, y]);
    if i >= 0 {
      OccursAtPair(s, x, y, i);
    }
    forall k | 0 <= k < |s| - 1 && s[k] == x && s[k + 1] == y ensures Contains(s, [x, y]) {
      OccursAtPair(s, x, y, k);
    }
  }

  /** The classification in terms of the characters of the symbol: tmXa
      when some `a` is directly followed by `(`, tmXe when no `a` but some
      `e` is, tmX when neither is. Each symbol gets exactly one class. */
  lemma ClassifyCases(symbol: string)
    ensures Classify(symbol) == TmXa <==>
      exists k :: 0 <= k < |symbol| - 1 && symbol[k] == 'a' && symbol[k + 1] == '('
    ensures Classify(symbol) == TmXe <==>
      (!exists k :: 0 <= k < |symbol| - 1 && symbol[k] == 'a' && symbol[k + 1] == '(')
      && exists k :: 0 <= k < |symbol| - 1 && symbol[k] == 'e' && symbol[k + 1] == '('
    ensures Classify(symbol) == TmX <==>
      (!exists k :: 0 <= k < |symbol| - 1 && symbol[k] == 'a' && symbol[k + 1] == '(')
      && !exists k :: 0 <= k < |symbol| - 1 && symbol[k] == 'e' && symbol[k + 1] == '('
  {
    ContainsPair(symbol, 'a', '(');
    ContainsPair(symbol, 'e', '(');
  }

  /** Field 12, lower-cased and already checked to be `cre` or `flp`. */
  function ExcisionOf(field12: string): Excision
  {
    if field12 == "cre" then Cre else Flp
  }

  /** The text that starts a name's allele part. */
  const TargetedMutation: string := "targeted mutation"

  /** The tm designation of a parent symbol: the second `<`-piece up to its
      first `(` (the script fails on a symbol without `<`). */
  function Designation(symbol: string): string
    requires Contains(symbol, "<")
  {
    SplitHead(symbol, "<");
    Split(Split(symbol, "<")[1], "(")[0]
  }

  /** The designation inside a parent name: the second piece around
      `targeted mutation`, up to its first comma (the script fails on a
      name without `targeted mutation`). */
  function NameDesignation(name: string): string
    requires Contains(name, TargetedMutation)
  {
    SplitHead(name, TargetedMutation);
    Split(Split(name, TargetedMutation)[1], ",")[0]
  }

  /** The first piece of a split on one character is the text up to the
      first such character, or all of it. */
  lemma FirstPieceBeforeChar(s: string, c: char)
    ensures var p := Split(s, [c])[0];
      && |p| <= |s| && s[..|p|] == p && c !in p
      && (|p| == |s| || s[|p|] == c)
  {
    SplitHead(s, [c]);
    var i := Find(s, [c]);
    FindLeftmost(s, [c]);
    if i >= 0 {
      OccursAtChar(s, c, i);
      forall j | 0 <= j < i ensures s[j] != c {
        OccursAtChar(s, c, j);
      }
    } else {
      forall j | 0 <= j < |s| ensures s[j] != c {
        OccursAtChar(s, c, j);
      }
    }
  }

  /** The designation is the text right after the first `<`, stopping
      before the next `(` or `<` or at the end, and contains neither. */
  lemma DesignationShape(symbol: string)
    requires Contains(symbol, "<")
    ensures var i := Find(symbol, "<");
      var d := Designation(symbol);
      && '<' !in symbol[..i]
      && i + 1 + |d| <= |symbol| && symbol[i + 1..i + 1 + |d|] == d
      && '<' !in d && '(' !in d
      && (i + 1 + |d| == |symbol| || symbol[i + 1 + |d|] in "(<")
  {
    SplitHead(symbol, "<");
    FirstPieceBeforeChar(symbol, '<');
    var i := Find(symbol, "<");
    var rest := symbol[i + 1..];
    var piece := Split(rest, "<")[0];
    FirstPieceBeforeChar(rest, '<');
    FirstPieceBeforeChar(piece, '(');
    var d := Split(piece, "(")[0];
    assert symbol[i + 1..i + 1 + |d|] == rest[..|d|];
    assert symbol[..i] == Split(symbol, "<")[0];
  }

  /** The name's designation is the text right after the first `targeted
      mutation`, stopping before the next comma or `targeted mutation` or
      at the end, and contains no comma. */
  lemma NameDesignationShape(name: string)
    requires Contains(name, TargetedMutation)
    ensures var i := Find(name, TargetedMutation) + |TargetedMutation|;
      var d := NameDesignation(name);
      && i + |d| <= |name| && name[i..i + |d|] == d && ',' !in d
      && (i + |d| == |name| || name[i + |d|] == ',' || OccursAt(name, TargetedMutation, i + |d|))
  {
    SplitHead(name, TargetedMutation);
    var i := Find(name, TargetedMutation) + |TargetedMutation|;
    var rest := name[i..];
    DesignationInRest(rest);
    var d := NameDesignation(name);
    assert d == Split(Split(rest, TargetedMutation)[0], ",")[0];
    PrefixOfSuffix(name, i, |d|);
    if |d| < |rest| && rest[|d|] != ',' {
      OccursAtShift(name, TargetedMutation, i, |d|);
    }
  }

  /** Within the text after `targeted mutation`, the designation is a
      comma-free prefix ending at a comma, at the next `targeted mutation`
      or at the end. */
  lemma DesignationInRest(rest: string)
    ensures var d := Split(Split(rest, TargetedMutation)[0], ",")[0];
      && |d| <= |rest| && rest[..|d|] == d && ',' !in d
      && (|d| == |rest| || rest[|d|] == ',' || OccursAt(rest, TargetedMutation, |d|))
  {
    var piece := Split(rest, TargetedMutation)[0];
    SplitHead(rest, TargetedMutation);
    FirstPieceBeforeChar(piece, ',');
    var d := Split(piece, ",")[0];
    var j := Find(rest, TargetedMutation);
    if j >= 0 {
      PrefixOfPrefix(rest, j, |d|);
    }
  }

  /** Which child the excision makes: `.1` or `.2` after the designation,
      or `a(` turned into `b(` or `c(`. */
  datatype ChildKind = DotOne | DotTwo | LetterB | LetterC

  /** The text replaced in a parent symbol, and its replacement. */
  function SymbolEdit(kind: ChildKind, designation: string): (string, string)
  {
    match kind
    case DotOne => (designation, designation + ".1")
    case DotTwo => (designation, designation + ".2")
    case LetterB => ("a(", "b(")
    case LetterC => ("a(", "c(")
  }

  /** The text replaced in a parent name, and its replacement. */
  function NameEdit(kind: ChildKind, designation: string): (string, string)
  {
    match kind
    case DotOne => (designation, designation + ".1")
    case DotTwo => (designation, designation + ".2")
    case LetterB => ("a,", "b,")
    case LetterC => ("a,", "c,")
  }

  /** The script's derivation: Python's `str.replace` over the whole
      symbol or name, marker part included. */
  function AsWrittenChild(parent: string, edit: (string, string)): string
  {
    Replace(parent, edit.0, edit.1)
  }

  /** The evidently intended derivation: the same replacement, applied only
      from `anchor` on (the first `<` of a symbol, `targeted mutation` in a
      name), so the marker's own symbol or name is left as it is. */
  function ChildText(parent: string, anchor: nat, edit: (string, string)): (r: string)
    requires anchor <= |parent|
    ensures |r| >= anchor && r[..anchor] == parent[..anchor]
  {
    parent[..anchor] + Replace(parent[anchor..], edit.0, edit.1)
  }

  /** The child symbol (the anchor is the first `<`). */
  function ChildSymbol(symbol: string, designation: string, kind: ChildKind): string
    requires Contains(symbol, "<")
  {
    ChildText(symbol, Find(symbol, "<"), SymbolEdit(kind, designation))
  }

  /** The child name (the anchor is `targeted mutation`). */
  function ChildName(name: string, designation: string, kind: ChildKind): string
    requires Contains(name, TargetedMutation)
  {
    ChildText(name, Find(name, TargetedMutation), NameEdit(kind, designation))
  }

  /** The child symbol the script writes and looks up (`newAlleleSym1`,
      `newAlleleSym2`, `newAlleleSymB`, `newAlleleSymC`): the edit applied
      by `str.replace` to the whole parent symbol. */
  function ScriptSymbol(symbol: string, kind: ChildKind): string
    requires Contains(symbol, "<")
  {
    AsWrittenChild(symbol, SymbolEdit(kind, Designation(symbol)))
  }

  /** The child name the script writes (`newAlleleName1`, ...): the edit
      applied by `str.replace` to the whole parent name. */
  function ScriptName(name: string, kind: ChildKind): string
    requires Contains(name, TargetedMutation)
  {
    AsWrittenChild(name, NameEdit(kind, NameDesignation(name)))
  }

  /** The two derivations agree whenever the replaced text does not occur
      before the anchor, the case the script was written for. */
  lemma ChildTextAgrees(parent: string, anchor: nat, edit: (string, string))
    requires |edit.0| > 0 && anchor <= |parent|
    requires Find(parent, edit.0) < 0 || Find(parent, edit.0) >= anchor
    ensures ChildText(parent, anchor, edit) == AsWrittenChild(parent, edit)
  {
    ReplaceFromAgrees(parent, anchor, edit.0, edit.1);
  }

  /** The script's derivation also rewrites the marker's part when the
      replaced text occurs there first: at offset `j` of that occurrence
      the script writes the replacement's character where the intended
      derivation keeps the marker's own. For instance the name `hemoglobin
      alpha, adult chain 1; targeted mutation 1a, ...` becomes `hemoglobin
      alphb, ...` for its cre child (`j` is 0), and a marker name holding
      the designation followed by anything but `.` gains a `.1` (`j` is the
      designation's length). */
  lemma AsWrittenRewritesMarkerPart(parent: string, anchor: nat, target: string, repl: string, j: nat)
    requires |target| > 0 && anchor <= |parent|
    requires 0 <= Find(parent, target) && Find(parent, target) + j < anchor
    requires j < |repl| && repl[j] != parent[Find(parent, target) + j]
    ensures AsWrittenChild(parent, (target, repl)) != ChildText(parent, anchor, (target, repl))
  {
    var i := Find(parent, target);
    var w := AsWrittenChild(parent, (target, repl));
    var c := ChildText(parent, anchor, (target, repl));
    var p := i + j;
    assert w == parent[..i] + repl + Replace(parent[i + |target|..], target, repl);
    assert w[p] == repl[j];
    assert c[p] == c[..anchor][p] == parent[p];
  }

  /** The designation of a symbol `marker<designation(rest` whose marker
      part has no `<` and whose designation has no `<` or `(` is read back
      as it is. */
  lemma DesignationOf(symbol: string, marker: string, designation: string, rest: string)
    requires symbol == marker + "<" + designation + "(" + rest
    requires '<' !in marker && '<' !in designation && '(' !in designation
    ensures Contains(symbol, "<") && Find(symbol, "<") == |marker|
    ensures Designation(symbol) == designation
  {
    var after := designation + "(" + rest;
    FindAfterCharFree(marker, '<', after);
    assert symbol == marker + ['<'] + after;
    assert symbol[|marker| + 1..] == after;
    SplitHead(symbol, "<");
    FirstPieceBeforeChar(after, '<');
    var piece := Split(after, "<")[0];
    assert piece[..|designation|] == designation;
    assert |piece| > |designation| by {
      assert after[|designation|] == '(';
    }
    assert piece[|designation|] == '(';
    FindAfterCharFree(designation, '(', piece[|designation| + 1..]);
    assert piece == designation + ['('] + piece[|designation| + 1..];
    SplitHead(piece, "(");
  }

  /** When the replaced text occurs once from the anchor on, at offset
      `i`, the child is the parent with that one occurrence replaced. */
  lemma ChildTextOnce(parent: string, anchor: nat, target: string, repl: string, i: nat)
    requires anchor <= |parent| && |target| > 0
    requires Find(parent[anchor..], target) == i
    requires !Contains(parent[anchor..][i + |target|..], target)
    ensures anchor + i + |target| <= |parent|
    ensures ChildText(parent, anchor, (target, repl))
      == parent[..anchor + i] + repl + parent[anchor + i + |target|..]
  {
    var tail := parent[anchor..];
    ReplaceOnce(tail, target, repl, i);
    SpliceInSuffix(parent, anchor, i, |target|, repl);
  }

  /** Splicing `repl` into the suffix from `anchor` at offset `i` is
      splicing it into the whole text at `anchor + i`. */
  lemma SpliceInSuffix(parent: string, anchor: nat, i: nat, n: nat, repl: string)
    requires anchor + i + n <= |parent|
    ensures parent[..anchor] + (parent[anchor..][..i] + repl + parent[anchor..][i + n..])
      == parent[..anchor + i] + repl + parent[anchor + i + n..]
  {
    SuffixSlices(parent, anchor, anchor + i, n);
    assert parent[..anchor] + parent[anchor..anchor + i] == parent[..anchor + i];
  }

  /** `.1`/`.2` go right after the designation: for a symbol
      `marker<designation(rest` as above, with a non-empty designation the
      rest does not repeat, the children are `marker<designation.1(rest`
      and `marker<designation.2(rest`, whatever the marker part contains. */
  lemma DotChildShape(symbol: string, marker: string, designation: string, rest: string)
    requires symbol == marker + "<" + designation + "(" + rest
    requires '<' !in marker && '<' !in designation && '(' !in designation
    requires |designation| > 0 && !Contains(rest, designation)
    ensures Contains(symbol, "<")
    ensures ChildSymbol(symbol, designation, DotOne) == marker + "<" + designation + ".1" + "(" + rest
    ensures ChildSymbol(symbol, designation, DotTwo) == marker + "<" + designation + ".2" + "(" + rest
  {
    FindAfterCharFree(marker, '<', designation + "(" + rest);
    assert symbol == marker + ['<'] + (designation + "(" + rest);
    DotChildAt(symbol, marker, designation, rest, ".1");
    DotChildAt(symbol, marker, designation, rest, ".2");
  }

  /** One dotted child, with the anchor already located. */
  lemma DotChildAt(symbol: string, marker: string, designation: string, rest: string, suffix: string)
    requires symbol == marker + "<" + designation + "(" + rest
    requires '<' !in designation && '(' !in designation
    requires |designation| > 0 && !Contains(rest, designation)
    ensures ChildText(symbol, |marker|, (designation, designation + suffix))
      == marker + "<" + designation + suffix + "(" + rest
  {
    var k := |marker|;
    DotParts(symbol, marker, designation, rest);
    DesignationAfterAnchor(symbol[k..], designation, rest);
    ChildTextOnce(symbol, k, designation, designation + suffix, 1);
    var r := ChildText(symbol, k, (designation, designation + suffix));
    DotRegroup(marker + "<", designation, suffix, "(" + rest, r);
  }

  /** The pieces of `marker<designation(rest` around the anchor. */
  lemma DotParts(symbol: string, marker: string, designation: string, rest: string)
    requires symbol == marker + "<" + designation + "(" + rest
    ensures var k := |marker|;
      && k + 1 + |designation| <= |symbol|
      && symbol[k..] == "<" + designation + "(" + rest
      && symbol[..k + 1] == marker + "<"
      && symbol[k + 1 + |designation|..] == "(" + rest
  {
    var k := |marker|;
    assert symbol[..k + 1] == marker + "<";
    assert symbol[k + 1 + |designation|..] == "(" + rest;
  }

  /** Splicing `designation + suffix` between two pieces, regrouped. */
  lemma DotRegroup(front: string, designation: string, suffix: string, back: string, r: string)
    requires r == front + (designation + suffix) + back
    ensures r == front + designation + suffix + back
  {
  }

  /** In `<designation(rest` the designation occurs at 1 and nowhere after. */
  lemma DesignationAfterAnchor(tail: string, designation: string, rest: string)
    requires tail == "<" + designation + "(" + rest
    requires '<' !in designation && '(' !in designation
    requires |designation| > 0 && !Contains(rest, designation)
    ensures Find(tail, designation) == 1
    ensures !Contains(tail[1 + |designation|..], designation)
  {
    assert OccursAt(tail, designation, 1) by {
      assert tail[1..1 + |designation|] == designation;
    }
    assert designation[0] in designation;
    FindFirstAt(tail, designation, 1);
    var after := tail[1 + |designation|..];
    assert after == "(" + rest;
    FindLeftmost(rest, designation);
    forall k | OccursAt(after, designation, k) ensures false {
      OccursAtHead(after, designation, k);
      if k > 0 {
        OccursAtShift(after, designation, 1, k - 1);
      }
    }
  }

  /** No `a(` survives turning every `a(` into `b(` (or `c(`). */
  lemma {:induction false} LetterReplaceLeavesNoA(s: string, letter: char)
    requires letter != '(' && letter != 'a'
    ensures !Contains(Replace(s, "a(", [letter, '(']), "a(")
    decreases |s|
  {
    var i := Find(s, "a(");
    var r := Replace(s, "a(", [letter, '(']);
    ContainsPair(r, 'a', '(');
    if i >= 0 {
      var rest := s[i + 2..];
      var tail := Replace(rest, "a(", [letter, '(']);
      LetterReplaceLeavesNoA(rest, letter);
      ContainsPair(tail, 'a', '(');
      FindLeftmost(s, "a(");
      PrefixBeforeFind(s, "a(", i);
      ContainsPair(s[..i], 'a', '(');
      assert r == s[..i] + [letter, '('] + tail;
      forall k | 0 <= k < |r| - 1 && r[k] == 'a' ensures r[k + 1] != '(' {
        if k + 1 < i {
          assert r[k] == s[..i][k] && r[k + 1] == s[..i][k + 1];
        } else if k >= i + 2 {
          assert r[k] == tail[k - i - 2] && r[k + 1] == tail[k - i - 1];
        }
      }
    } else {
      ContainsPair(s, 'a', '(');
    }
  }

  /** The allele part of a tmXa parent's cre or flp child no longer reads
      as tmXa. */
  lemma LetterChildNotXa(symbol: string, designation: string)
    requires Contains(symbol, "<")
    ensures !Contains(ChildSymbol(symbol, designation, LetterB)[Find(symbol, "<")..], "a(")
    ensures !Contains(ChildSymbol(symbol, designation, LetterC)[Find(symbol, "<")..], "a(")
  {
    var k := Find(symbol, "<");
    LetterReplaceLeavesNoA(symbol[k..], 'b');
    LetterReplaceLeavesNoA(symbol[k..], 'c');
    assert ChildSymbol(symbol, designation, LetterB)[k..] == Replace(symbol[k..], "a(", "b(");
    assert ChildSymbol(symbol, designation, LetterC)[k..] == Replace(symbol[k..], "a(", "c(");
  }

  /** The script's `b(`/`c(` child has no `a(` left anywhere, so it never
      reads as tmXa itself. */
  lemma ScriptLetterChildNotXa(symbol: string)
    requires Contains(symbol, "<")
    ensures Classify(ScriptSymbol(symbol, LetterB)) != TmXa
    ensures Classify(ScriptSymbol(symbol, LetterC)) != TmXa
  {
    LetterReplaceLeavesNoA(symbol, 'b');
    LetterReplaceLeavesNoA(symbol, 'c');
    assert ScriptSymbol(symbol, LetterB) == Replace(symbol, "a(", "b(");
    assert ScriptSymbol(symbol, LetterC) == Replace(symbol, "a(", "c(");
  }

  /** The script's `.1`/`.2` children of a symbol `marker<designation(rest`
      have the intended shape when the designation does not start inside
      the marker part (the case the script was written for). */
  lemma ScriptDotChildShape(symbol: string, marker: string, designation: string, rest: string)
    requires symbol == marker + "<" + designation + "(" + rest
    requires '<' !in marker && '<' !in designation && '(' !in designation
    requires |designation| > 0 && !Contains(rest, designation)
    requires Find(symbol, designation) >= |marker|
    ensures Contains(symbol, "<")
    ensures ScriptSymbol(symbol, DotOne) == marker + "<" + designation + ".1" + "(" + rest
    ensures ScriptSymbol(symbol, DotTwo) == marker + "<" + designation + ".2" + "(" + rest
  {
    DesignationOf(symbol, marker, designation, rest);
    DotChildShape(symbol, marker, designation, rest);
    ChildTextAgrees(symbol, |marker|, SymbolEdit(DotOne, designation));
    ChildTextAgrees(symbol, |marker|, SymbolEdit(DotTwo, designation));
  }

  /** The molecular note templates, one per rule. */
  datatype NoteTemplate = NoteTmX1 | NoteTmXe | NoteTmX2 | NoteTmXb | NoteTmXc

  /** One row of the rule table (the allele type is always `Targeted`). */
  datatype Rule = Rule(subtype: string, mutation: string, child: ChildKind, note: NoteTemplate)

  const AlleleType: string := "Targeted"

  /** The rule table; a tmXe parent has no flp rule. */
  function RuleFor(cls: ParentClass, exc: Excision): Option<Rule>
  {
    match (cls, exc)
    case (TmX, Cre) => Some(Rule("Null/knockout|Reporter", "Insertion|Intragenic deletion", DotOne, NoteTmX1))
    case (TmXe, Cre) => Some(Rule("Null/knockout|Reporter", "Insertion", DotOne, NoteTmXe))
    case (TmX, Flp) => Some(Rule("Null/knockout", "Insertion", DotTwo, NoteTmX2))
    case (TmXa, Cre) => Some(Rule("Null/knockout|Reporter", "Insertion|Intragenic deletion", LetterB, NoteTmXb))
    case (TmXa, Flp) => Some(Rule("Conditional ready", "Insertion", LetterC, NoteTmXc))
    case (TmXe, Flp) => None
  }

  // The template texts are written as short pieces: the verifier handles
  // a long string literal character by character.
  const CreHead: string := "Cre-mediated excision of the " + "parental "
  const FlpHead: string := "Flp-mediated excision of the " + "parental "
  const MoreInformation: string :=
    "Further information on " + "targeting strategies used for " + "this and other IKMC alleles "
    + "can be found at " + "http://www.informatics.jax.org" + "/mgihome/nomen/"
    + "IKMC_schematics.shtml."

  /** The text of a template before its one `%s`. */
  function NoteHead(t: NoteTemplate): string
  {
    match t
    case NoteTmX1 => CreHead
    case NoteTmXe => CreHead
    case NoteTmXb => CreHead
    case NoteTmX2 => FlpHead
    case NoteTmXc => FlpHead
  }

  /** The text of a template after its `%s` (the tmX1 text has two spaces
      before its last sentence, the others one). */
  function NoteTail(t: NoteTemplate): string
  {
    match t
    case NoteTmX1 =>
      " allele resulted in the " + "removal of the neomycin " + "selection cassette and "
      + "critical exon(s) leaving " + "behind the inserted lacZ " + "reporter sequence.  "
      + MoreInformation
    case NoteTmXe =>
      " allele resulted in the " + "removal of the " + "promoter-driven neomycin "
      + "selection cassette leaving " + "behind the inserted lacZ " + "reporter sequence. "
      + MoreInformation
    case NoteTmX2 =>
      " allele resulted in the " + "removal of the " + "promoter-driven neomycin "
      + "selection cassette, the " + "inserted lacZ reporter " + "sequence, and the "
      + "loxP-flanked critical " + "exon(s). "
      + MoreInformation
    case NoteTmXb =>
      " allele resulted in the " + "removal of the " + "promoter-driven neomycin "
      + "selection cassette and " + "critical exon(s) leaving " + "behind the inserted lacZ "
      + "reporter sequence. "
      + MoreInformation
    case NoteTmXc =>
      " allele resulted in the " + "removal of the " + "promoter-driven neomycin "
      + "selection cassette and the " + "inserted lacZ reporter " + "sequence, leaving behind the "
      + "loxP-flanked critical " + "exon(s). "
      + MoreInformation
  }

  /** The parent symbol with its allele part superscripted: every `>`
      becomes `</sup>`, then every `<tm` becomes `<sup>tm`. */
  function SupMarkup(symbol: string): string
  {
    Replace(Replace(symbol, ">", "</sup>"), "<tm", "<sup>tm")
  }

  /** The molecular note: the template filled with the marked-up parent symbol. */
  function MolecularNote(t: NoteTemplate, parentSymbol: string): string
  {
    NoteHead(t) + SupMarkup(parentSymbol) + NoteTail(t)
  }

  /** What the table promises: exactly the tmXe/flp case has no rule; cre
      children are the `.1` and `b(` ones and flp children the `.2` and
      `c(` ones; tmXa parents get the letter children and the others the
      dotted ones; cre children carry the Reporter subtype and a note that
      opens with cre-mediated excision, flp children neither; every
      mutation string starts with `Insertion`. */
  lemma RuleTable(cls: ParentClass, exc: Excision)
    ensures RuleFor(cls, exc).None? <==> cls == TmXe && exc == Flp
    ensures RuleFor(cls, exc).Some? ==>
      var rule := RuleFor(cls, exc).value;
      && (exc == Cre <==> rule.child in {DotOne, LetterB})
      && (cls == TmXa <==> rule.child in {LetterB, LetterC})
      && (exc == Cre <==> rule.subtype == "Null/knockout|Reporter")
      && NoteHead(rule.note) == (if exc == Cre then CreHead else FlpHead)
      && |rule.mutation| >= 9 && rule.mutation[..9] == "Insertion"
  {
  }

  /** For a parent symbol `marker<tmrest>` with no angle brackets in the
      marker or allele part, the note shows `marker<sup>tmrest</sup>`. */
  lemma SupMarkupShape(marker: string, rest: string)
    requires '<' !in marker && '>' !in marker && '<' !in rest && '>' !in rest
    ensures SupMarkup(marker + "<tm" + rest + ">") == marker + "<sup>tm" + rest + "</sup>"
  {
    CloseTagOnce(marker + "<tm" + rest);
    OpenTagOnce(marker, rest);
  }

  /** A single closing `>` at the end becomes `</sup>`. */
  lemma CloseTagOnce(front: string)
    requires '>' !in front
    ensures Replace(front + ">", ">", "</sup>") == front + "</sup>"
  {
    FindAfterCharFree(front, '>', "");
    assert front + ">" == front + ['>'] + "";
    assert (front + ">")[|front| + 1..] == "";
    assert (front + ">")[..|front|] == front;
    assert Replace("", ">", "</sup>") == "";
  }

  /** The one `<tm` right after the marker becomes `<sup>tm`. */
  lemma OpenTagOnce(marker: string, rest: string)
    requires '<' !in marker && '<' !in rest
    ensures Replace(marker + "<tm" + rest + "</sup>", "<tm", "<sup>tm") == marker + "<sup>tm" + rest + "</sup>"
  {
    var once := marker + "<tm" + rest + "</sup>";
    OpenTagFirst(marker, rest);
    TailWithoutOpenTag(rest);
    ReplaceSingle(once, marker, "<tm", rest + "</sup>", "<sup>tm", marker + "<sup>tm" + rest + "</sup>");
  }

  /** The first `<tm` is the one right after a marker without `<`. */
  lemma OpenTagFirst(marker: string, rest: string)
    requires '<' !in marker
    ensures Find(marker + "<tm" + rest + "</sup>", "<tm") == |marker|
  {
    var once := marker + "<tm" + rest + "</sup>";
    var i := |marker|;
    assert once[i..i + 3] == "<tm";
    forall j | 0 <= j < i ensures once[j] != '<' {
      assert once[j] == marker[j];
    }
    FindFirstAt(once, "<tm", i);
  }

  /** After an allele part without `<`, only the closing tag's `<` is
      left, and it is followed by `/`. */
  lemma TailWithoutOpenTag(rest: string)
    requires '<' !in rest
    ensures !Contains(rest + "</sup>", "<tm")
  {
    var after := rest + "</sup>";
    FindLeftmost(after, "<tm");
    forall k | OccursAt(after, "<tm", k) ensures false {
      OccursAtFirstTwo(after, "<tm", k);
    }
  }

  /** `newAlleleSym[p1+1:p2]` with `p1`, `p2` the first `<` and `>`. */
  function BetweenAngles(symbol: string): string
  {
    PySlice(symbol, Find(symbol, "<") + 1, Find(symbol, ">"))
  }

  /** For `marker<allele>suffix` with no `<` or `>` in the marker and no
      `>` in the allele part, the last field is exactly the allele part. */
  lemma BetweenAnglesShape(marker: string, allele: string, suffix: string)
    requires '<' !in marker && '>' !in marker && '>' !in allele
    ensures BetweenAngles(marker + "<" + allele + ">" + suffix) == allele
  {
    var symbol := marker + "<" + allele + ">" + suffix;
    FindAfterCharFree(marker, '<', allele + ">" + suffix);
    assert symbol == marker + ['<'] + (allele + ">" + suffix);
    FindAfterCharFree(marker + "<" + allele, '>', suffix);
    assert symbol == (marker + "<" + allele) + ['>'] + suffix;
    assert symbol[|marker| + 1..|marker| + 1 + |allele|] == allele;
  }

  /** A symbol without angle brackets loses only its last character: both
      searches give -1 and the slice is `[0:-1]`. */
  lemma BetweenAnglesWithoutBrackets(symbol: string)
    requires '<' !in symbol && '>' !in symbol
    ensures BetweenAngles(symbol) == DropLast(symbol)
  {
    NoCharNoFind(symbol, '<');
    NoCharNoFind(symbol, '>');
  }
}
