/** The Python string operations both scripts rely on (`find`, `in`,
    `split`, `join`, `replace`, slicing, `str(int)`, `lower`), with the
    exact semantics of the Python runtime, so that the scripts' edge cases
    (a missing separator, an empty pattern, a negative slice bound) carry
    over to the model. */
module PyString {

  /** `pat` occurs in `s` starting at index `k`. */
  predicate OccursAt(s: string, pat: string, k: int) {
    0 <= k && k + |pat| <= |s| && s[k..k + |pat|] == pat
  }

  /** The leftmost occurrence of `pat` in `s` at or after index `i`, or -1. */
  function FindFrom(s: string, pat: string, i: nat): (r: int)
    ensures r == -1 || (i <= r && OccursAt(s, pat, r))
    decreases |s| - i
  {
    if i + |pat| > |s| then -1
    else if s[i..i + |pat|] == pat then i
    else FindFrom(s, pat, i + 1)
  }

  /** No occurrence from `i` on comes before the one `FindFrom` finds. */
  lemma {:induction false} FindFromLeftmost(s: string, pat: string, i: nat)
    ensures forall k :: i <= k && (FindFrom(s, pat, i) < 0 || k < FindFrom(s, pat, i)) ==> !OccursAt(s, pat, k)
    decreases |s| - i
  {
    if i + |pat| <= |s| && s[i..i + |pat|] != pat {
      FindFromLeftmost(s, pat, i + 1);
    }
  }

  /** `s.find(pat)`: the index of an occurrence, or -1; `FindLeftmost`
      says which occurrence. */
  function Find(s: string, pat: string): (r: int)
    ensures -1 <= r
    ensures r >= 0 ==> OccursAt(s, pat, r)
  {
    FindFrom(s, pat, 0)
  }

  /** `find` gives the leftmost occurrence, and -1 only when there is none. */
  lemma FindLeftmost(s: string, pat: string)
    ensures Find(s, pat) >= 0 ==> forall k :: 0 <= k < Find(s, pat) ==> !OccursAt(s, pat, k)
    ensures Find(s, pat) < 0 ==> forall k :: !OccursAt(s, pat, k)
  {
    FindFromLeftmost(s, pat, 0);
  }

  /** `pat in s`. */
  predicate Contains(s: string, pat: string) {
    Find(s, pat) >= 0
  }

  /** `s.split(sep)` for a non-empty separator: the pieces between the
      leftmost non-overlapping occurrences of `sep`. */
  function Split(s: string, sep: string): (parts: seq<string>)
    requires |sep| > 0
    ensures |parts| >= 1
    decreases |s|
  {
    var i := Find(s, sep);
    if i < 0 then [s] else [s[..i]] + Split(s[i + |sep|..], sep)
  }

  /** No piece of a split contains the separator. */
  lemma {:induction false} SplitPartsFree(s: string, sep: string)
    requires |sep| > 0
    ensures forall i :: 0 <= i < |Split(s, sep)| ==> !Contains(Split(s, sep)[i], sep)
    decreases |s|
  {
    var i := Find(s, sep);
    FindLeftmost(s, sep);
    if i >= 0 {
      PrefixBeforeFind(s, sep, i);
      SplitPartsFree(s[i + |sep|..], sep);
      var parts := Split(s, sep);
      assert parts == [s[..i]] + Split(s[i + |sep|..], sep);
      forall j | 0 < j < |parts| ensures parts[j] == Split(s[i + |sep|..], sep)[j - 1] {}
    }
  }

  /** The text before the first occurrence of `sep` does not contain it. */
  lemma PrefixBeforeFind(s: string, sep: string, i: int)
    requires |sep| > 0
    requires 0 <= i <= |s| && forall k :: 0 <= k < i ==> !OccursAt(s, sep, k)
    ensures forall k :: !OccursAt(s[..i], sep, k)
  {
    forall k | OccursAt(s[..i], sep, k) ensures false {
      assert s[..i][k..k + |sep|] == s[k..k + |sep|];
      assert OccursAt(s, sep, k);
    }
  }

  /** The first piece of a split is the text before the first separator;
      when there is one, the second piece is the first piece of the rest. */
  lemma SplitHead(s: string, sep: string)
    requires |sep| > 0
    ensures Find(s, sep) < 0 ==> Split(s, sep) == [s]
    ensures Find(s, sep) >= 0 ==>
      (|Split(s, sep)| >= 2
       && Split(s, sep)[0] == s[..Find(s, sep)]
       && Split(s, sep)[1] == Split(s[Find(s, sep) + |sep|..], sep)[0])
  {
  }

  /** An occurrence starts with the pattern's first character. */
  lemma OccursAtHead(s: string, pat: string, k: int)
    requires |pat| > 0 && OccursAt(s, pat, k)
    ensures 0 <= k < |s| && s[k] == pat[0]
  {
    assert s[k..k + |pat|][0] == s[k];
  }

  /** An occurrence with no earlier occurrence of the pattern's first
      character is the leftmost one. */
  lemma FindFirstAt(s: string, pat: string, k: nat)
    requires |pat| > 0 && OccursAt(s, pat, k)
    requires forall j :: 0 <= j < k ==> s[j] != pat[0]
    ensures Find(s, pat) == k
  {
    FindLeftmost(s, pat);
    forall j | 0 <= j < k && OccursAt(s, pat, j) ensures false {
      OccursAtHead(s, pat, j);
    }
  }

  /** Occurrences in a suffix are occurrences in the whole text, shifted. */
  lemma OccursAtShift(s: string, pat: string, k: nat, j: int)
    requires k <= |s|
    ensures OccursAt(s[k..], pat, j) <==> j >= 0 && OccursAt(s, pat, j + k)
  {
    if 0 <= j && j + |pat| <= |s| - k {
      assert s[k..][j..j + |pat|] == s[j + k..j + k + |pat|];
    }
  }

  /** With no occurrence before `k`, searching the suffix from `k` finds
      the same occurrence. */
  lemma FindShift(s: string, pat: string, k: nat)
    requires k <= |s|
    requires Find(s, pat) < 0 || Find(s, pat) >= k
    ensures Find(s[k..], pat) == (if Find(s, pat) < 0 then -1 else Find(s, pat) - k)
  {
    var r := Find(s, pat);
    var r' := Find(s[k..], pat);
    FindLeftmost(s, pat);
    FindLeftmost(s[k..], pat);
    if r' >= 0 {
      OccursAtShift(s, pat, k, r');
    }
    if r >= 0 {
      OccursAtShift(s, pat, k, r - k);
    }
  }

  /** `sep.join(parts)`. */
  function Join(parts: seq<string>, sep: string): string
  {
    if |parts| == 0 then ""
    else if |parts| == 1 then parts[0]
    else parts[0] + sep + Join(parts[1..], sep)
  }

  /** Splitting and joining again with the same separator gives back the text. */
  lemma {:induction false} JoinSplit(s: string, sep: string)
    requires |sep| > 0
    ensures Join(Split(s, sep), sep) == s
    decreases |s|
  {
    var i := Find(s, sep);
    if i >= 0 {
      var rest := s[i + |sep|..];
      SplitAt(s, sep, i);
      JoinSplit(rest, sep);
      JoinCons(s[..i], Split(rest, sep), sep);
    }
  }

  /** Unfolding `Split` at the first occurrence `i` of the separator. */
  lemma SplitAt(s: string, sep: string, i: int)
    requires |sep| > 0 && i == Find(s, sep) && i >= 0
    ensures Split(s, sep) == [s[..i]] + Split(s[i + |sep|..], sep)
    ensures s == s[..i] + sep + s[i + |sep|..]
  {
    Around(s, sep, i);
  }

  /** A text is what comes before an occurrence, the occurrence, and what
      follows it. */
  lemma Around(s: string, pat: string, i: int)
    requires OccursAt(s, pat, i)
    ensures s == s[..i] + pat + s[i + |pat|..]
  {
    assert s[i..i + |pat|] == pat;
  }

  /** Joining a piece in front of at least one more piece. */
  lemma JoinCons(head: string, tail: seq<string>, sep: string)
    requires |tail| >= 1
    ensures Join([head] + tail, sep) == head + sep + Join(tail, sep)
  {
    assert ([head] + tail)[1..] == tail;
  }

  /** `Split` yields more than one piece exactly when the separator occurs. */
  lemma SplitCountContains(s: string, sep: string)
    requires |sep| > 0
    ensures |Split(s, sep)| >= 2 <==> Contains(s, sep)
  {
  }

  /** For a one-character separator that no part contains, splitting the
      join gives back the parts. */
  lemma {:induction false} SplitJoin(parts: seq<string>, c: char)
    requires |parts| >= 1
    requires forall i :: 0 <= i < |parts| ==> c !in parts[i]
    ensures Split(Join(parts, [c]), [c]) == parts
    decreases |parts|
  {
    var s := Join(parts, [c]);
    if |parts| == 1 {
      NoCharNoFind(parts[0], c);
    } else {
      var rest := Join(parts[1..], [c]);
      assert s == parts[0] + [c] + rest;
      FindAfterCharFree(parts[0], c, rest);
      assert s[|parts[0]| + 1..] == rest;
      assert s[..|parts[0]|] == parts[0];
      SplitJoin(parts[1..], c);
    }
  }

  /** A text without the character `c` has no occurrence of `[c]`. */
  lemma NoCharNoFind(s: string, c: char)
    requires c !in s
    ensures Find(s, [c]) == -1
  {
    forall k ensures !OccursAt(s, [c], k) {
      OccursAtChar(s, c, k);
    }
  }

  /** In `a + [c] + b` with `c` not in `a`, the first `c` is right after `a`. */
  lemma FindAfterCharFree(a: string, c: char, b: string)
    requires c !in a
    ensures Find(a + [c] + b, [c]) == |a|
  {
    var s := a + [c] + b;
    FindLeftmost(s, [c]);
    OccursAtChar(s, c, |a|);
    forall k | 0 <= k < |a| ensures !OccursAt(s, [c], k) {
      OccursAtChar(s, c, k);
      assert s[k] == a[k];
    }
  }

  /** A one-character pattern occurs exactly where that character stands. */
  lemma OccursAtChar(s: string, c: char, k: int)
    ensures OccursAt(s, [c], k) <==> 0 <= k < |s| && s[k] == c
  {
    if 0 <= k < |s| {
      assert s[k..k + 1] == [s[k]];
    }
  }

  /** Python's `s.replace("", new)`: `repl` before every character and at the end. */
  function Interleave(s: string, repl: string): string
  {
    if |s| == 0 then repl else repl + [s[0]] + Interleave(s[1..], repl)
  }

  /** `s.replace(old, new)`: every non-overlapping occurrence, left to right. */
  function Replace(s: string, target: string, repl: string): string
    decreases |s|
  {
    if |target| == 0 then Interleave(s, repl)
    else
      var i := Find(s, target);
      if i < 0 then s else s[..i] + repl + Replace(s[i + |target|..], target, repl)
  }

  /** `replace` agrees with splitting on `target` and joining with `repl`. */
  lemma {:induction false} ReplaceIsJoinOfSplit(s: string, target: string, repl: string)
    requires |target| > 0
    ensures Replace(s, target, repl) == Join(Split(s, target), repl)
    decreases |s|
  {
    var i := Find(s, target);
    if i >= 0 {
      var rest := s[i + |target|..];
      ReplaceIsJoinOfSplit(rest, target, repl);
      assert Split(s, target) == [s[..i]] + Split(rest, target);
    }
  }

  /** Replacing a pattern that does not occur changes nothing. */
  lemma ReplaceAbsent(s: string, target: string, repl: string)
    requires |target| > 0 && !Contains(s, target)
    ensures Replace(s, target, repl) == s
  {
  }

  /** One step of `Replace` at the first occurrence `i` of the target:
      the text before it, the replacement, and the rest replaced in turn. */
  lemma ReplaceAt(s: string, target: string, repl: string, i: nat)
    requires |target| > 0 && Find(s, target) == i
    ensures i + |target| <= |s|
    ensures Replace(s, target, repl) == s[..i] + repl + Replace(s[i + |target|..], target, repl)
  {
    var rest := s[i + |target|..];
    ReplaceIsJoinOfSplit(s, target, repl);
    ReplaceIsJoinOfSplit(rest, target, repl);
    SplitAt(s, target, i);
    JoinCons(s[..i], Split(rest, target), repl);
  }

  /** Replacing a pattern that occurs exactly once, at index `i`. */
  lemma ReplaceOnce(s: string, target: string, repl: string, i: nat)
    requires |target| > 0 && Find(s, target) == i
    requires !Contains(s[i + |target|..], target)
    ensures Replace(s, target, repl) == s[..i] + repl + s[i + |target|..]
  {
    ReplaceAt(s, target, repl, i);
    ReplaceAbsent(s[i + |target|..], target, repl);
  }

  /** A text `pre + target + post` whose first occurrence of `target` is
      the one after `pre`, and whose `post` has none, becomes
      `pre + repl + post`. */
  lemma ReplaceSingle(s: string, pre: string, target: string, post: string, repl: string, r: string)
    requires |target| > 0 && s == pre + target + post && r == pre + repl + post
    requires Find(s, target) == |pre| && !Contains(post, target)
    ensures Replace(s, target, repl) == r
  {
    assert s[..|pre|] == pre && s[|pre| + |target|..] == post;
    ReplaceOnce(s, target, repl, |pre|);
  }

  /** When `target` does not occur before `k`, replacing in the whole text
      is replacing in the suffix from `k`. */
  lemma ReplaceFromAgrees(s: string, k: nat, target: string, repl: string)
    requires |target| > 0 && k <= |s|
    requires Find(s, target) < 0 || Find(s, target) >= k
    ensures Replace(s, target, repl) == s[..k] + Replace(s[k..], target, repl)
  {
    if Find(s, target) >= 0 {
      ReplaceFromFound(s, k, target, repl, Find(s, target));
    } else {
      FindShift(s, target, k);
      ReplaceAbsent(s, target, repl);
      ReplaceAbsent(s[k..], target, repl);
      assert s[..k] + s[k..] == s;
    }
  }

  /** The case of `ReplaceFromAgrees` where `target` occurs, first at `i`. */
  lemma ReplaceFromFound(s: string, k: nat, target: string, repl: string, i: nat)
    requires |target| > 0 && k <= i && Find(s, target) == i
    ensures Replace(s, target, repl) == s[..k] + Replace(s[k..], target, repl)
  {
    ReplaceAt(s, target, repl, i);
    ReplaceSuffixAt(s, k, target, repl, i);
    var rest := Replace(s[i + |target|..], target, repl);
    PrefixSlices(s, k, i);
    Regroup(s[..k], s[k..i], repl, rest, Replace(s, target, repl), Replace(s[k..], target, repl));
  }

  /** One step of `Replace` on the suffix from `k`, whose first occurrence
      is the whole text's, at `i`. */
  lemma ReplaceSuffixAt(s: string, k: nat, target: string, repl: string, i: nat)
    requires |target| > 0 && k <= i && Find(s, target) == i
    ensures i + |target| <= |s|
    ensures Replace(s[k..], target, repl) == s[k..i] + repl + Replace(s[i + |target|..], target, repl)
  {
    var t := s[k..];
    var j := i - k;
    FindShift(s, target, k);
    ReplaceAt(t, target, repl, j);
    SuffixSlices(s, k, i, |target|);
    Substitute(t[..j], s[k..i], t[j + |target|..], s[i + |target|..], target, repl, Replace(t, target, repl));
  }

  /** Slices of the suffix from `k` are slices of the whole text. */
  lemma SuffixSlices(s: string, k: nat, i: nat, n: nat)
    requires k <= i && i + n <= |s|
    ensures s[k..][..i - k] == s[k..i]
    ensures s[k..][i - k + n..] == s[i + n..]
  {
  }

  /** The text before `i` is the text before `k` followed by the text from `k` to `i`. */
  lemma PrefixSlices(s: string, k: nat, i: nat)
    requires k <= i <= |s|
    ensures s[..k] + s[k..i] == s[..i]
  {
  }

  /** Rewriting `x + repl + Replace(y)` with equal texts for `x` and `y`. */
  lemma Substitute(x: string, x': string, y: string, y': string, target: string, repl: string, r: string)
    requires x == x' && y == y'
    requires r == x + repl + Replace(y, target, repl)
    ensures r == x' + repl + Replace(y', target, repl)
  {
  }

  /** A text that is `front + mid + repl + rest` is `front` followed by
      one that is `mid + repl + rest`. */
  lemma Regroup(front: string, mid: string, repl: string, rest: string, whole: string, part: string)
    requires part == mid + repl + rest
    requires whole == (front + mid) + repl + rest
    ensures whole == front + part
  {
  }

  /** `line[:-1]`: the line without its final character (its newline). */
  function DropLast(line: string): (r: string)
    ensures |line| > 0 ==> r + [line[|line| - 1]] == line
    ensures |line| == 0 ==> r == ""
  {
    if |line| == 0 then "" else line[..|line| - 1]
  }

  /** Python's normalisation of one slice bound against a length. */
  function SliceBound(i: int, n: nat): (b: nat)
    ensures b <= n
  {
    if i < 0 then (if i + n < 0 then 0 else i + n)
    else if i > n then n
    else i
  }

  /** `s[i:j]` with Python's negative indices and clamping. */
  function PySlice(s: string, i: int, j: int): string
  {
    var lo := SliceBound(i, |s|);
    var hi := SliceBound(j, |s|);
    if lo >= hi then "" else s[lo..hi]
  }

  /** One decimal digit. */
  function DigitChar(d: nat): (c: char)
    requires d < 10
  {
    ['0', '1', '2', '3', '4', '5', '6', '7', '8', '9'][d]
  }

  /** The value of one decimal digit character. */
  function DigitValue(c: char): nat
    requires '0' <= c <= '9'
  {
    (c as int - '0' as int) as nat
  }

  predicate IsDigits(s: string) {
    |s| > 0 && forall i :: 0 <= i < |s| ==> '0' <= s[i] <= '9'
  }

  /** `str(n)` for a non-negative integer. */
  function NatToString(n: nat): (r: string)
    ensures IsDigits(r)
  {
    if n < 10 then [DigitChar(n)] else NatToString(n / 10) + [DigitChar(n % 10)]
  }

  /** `int(s)` for a string of decimal digits. */
  function ParseNat(s: string): nat
    requires IsDigits(s)
  {
    if |s| == 1 then DigitValue(s[0])
    else 10 * ParseNat(s[..|s| - 1]) + DigitValue(s[|s| - 1])
  }

  /** Printing a number and reading it back gives the number: distinct keys
      give distinct identifiers. */
  lemma {:induction false} ParseNatToString(n: nat)
    ensures ParseNat(NatToString(n)) == n
  {
    if n >= 10 {
      ParseNatToString(n / 10);
      var s := NatToString(n);
      assert s[..|s| - 1] == NatToString(n / 10);
    }
  }

  /** Distinct numbers print differently. */
  lemma NatToStringInjective(m: nat, n: nat)
    requires m != n
    ensures NatToString(m) != NatToString(n)
  {
    ParseNatToString(m);
    ParseNatToString(n);
  }

  /** `c.lower()` restricted to ASCII letters. */
  function LowerChar(c: char): char
  {
    if 'A' <= c <= 'Z' then (c as int + 32) as char else c
  }

  /** `s.lower()` restricted to ASCII letters: no upper-case letter is
      left, every upper-case letter becomes its lower-case partner, and
      every other character stays as it is. */
  function Lower(s: string): (r: string)
    ensures |r| == |s|
    ensures forall i :: 0 <= i < |r| ==> !('A' <= r[i] <= 'Z')
    ensures forall i :: 0 <= i < |s| && 'A' <= s[i] <= 'Z' ==>
      'a' <= r[i] <= 'z' && r[i] as int - s[i] as int == 'a' as int - 'A' as int
    ensures forall i :: 0 <= i < |s| && !('A' <= s[i] <= 'Z') ==> r[i] == s[i]
  {
    seq(|s|, i requires 0 <= i < |s| => LowerChar(s[i]))
  }

  /** Lower-casing twice is lower-casing once. */
  lemma LowerIdempotent(s: string)
    ensures Lower(Lower(s)) == Lower(s)
  {
  }

  /** A field lower-cases to `cre` exactly when it spells cre in any mix
      of cases (and likewise for `flp`), so field 12 accepts `Cre`, `CRE`,
      `fLp`, ... */
  lemma LowerIsCre(s: string)
    ensures Lower(s) == "cre" <==>
      |s| == 3 && s[0] in "cC" && s[1] in "rR" && s[2] in "eE"
    ensures Lower(s) == "flp" <==>
      |s| == 3 && s[0] in "fF" && s[1] in "lL" && s[2] in "pP"
  {
  }
}
