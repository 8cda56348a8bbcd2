/**
 The two dynamic programs of relocation (domain/heal/lcs.go, domain/heal/scorer.go):
 longest common subsequence in one reused row, edit distance in two rows.
 */
module Distances {

  function MaxNat(a: nat, b: nat): nat {
    if b > a then b else a
  }

  function MinNat(a: nat, b: nat): nat {
    if b < a then b else a
  }

  // ----- longest common subsequence -----

  function Lcs<T(==)>(a: seq<T>, b: seq<T>): nat {
    if a == [] || b == [] then 0
    else if a[|a| - 1] == b[|b| - 1] then Lcs(a[..|a| - 1], b[..|b| - 1]) + 1
    else MaxNat(Lcs(a[..|a| - 1], b), Lcs(a, b[..|b| - 1]))
  }

  /** `c` can be found in `a` by leaving elements out. */
  predicate Within<T(==)>(c: seq<T>, a: seq<T>) {
    c == [] ||
    (a != [] &&
     if c[|c| - 1] == a[|a| - 1] then Within(c[..|c| - 1], a[..|a| - 1]) else Within(c, a[..|a| - 1]))
  }

  lemma {:induction false} WithinInit<T>(c: seq<T>, a: seq<T>)
    requires Within(c, a) && c != []
    ensures Within(c[..|c| - 1], a)
    decreases |a|
  {
    var init := a[..|a| - 1];
    if c[|c| - 1] != a[|a| - 1] { WithinInit(c, init); }
    if |c| > 1 && c[|c| - 2] == a[|a| - 1] {
      assert c[..|c| - 1][|c| - 2] == c[|c| - 2];
      if c[|c| - 1] == a[|a| - 1] { WithinInit(c[..|c| - 1], init); } else { WithinInit(c[..|c| - 1], init); }
    }
  }

  lemma {:induction false} WithinGrows<T>(c: seq<T>, a: seq<T>)
    requires a != [] && Within(c, a[..|a| - 1])
    ensures Within(c, a)
  {
    if c != [] && c[|c| - 1] == a[|a| - 1] { WithinInit(c, a[..|a| - 1]); }
  }

  /** No common subsequence is longer... */
  lemma {:induction false} LcsBounds<T>(c: seq<T>, a: seq<T>, b: seq<T>)
    requires Within(c, a) && Within(c, b)
    ensures |c| <= Lcs(a, b)
    decreases |a| + |b|
  {
    if c != [] {
      var x, y := a[|a| - 1], b[|b| - 1];
      if x == y {
        if c[|c| - 1] == x {
          LcsBounds(c[..|c| - 1], a[..|a| - 1], b[..|b| - 1]);
        } else {
          LcsBounds(c, a[..|a| - 1], b[..|b| - 1]);
        }
      } else if c[|c| - 1] != x {
        LcsBounds(c, a[..|a| - 1], b);
      } else {
        LcsBounds(c, a, b[..|b| - 1]);
      }
    }
  }

  /** ...and one is as long: the recursion really computes the longest one. */
  lemma {:induction false} LcsReached<T>(a: seq<T>, b: seq<T>) returns (c: seq<T>)
    ensures Within(c, a) && Within(c, b) && |c| == Lcs(a, b)
    decreases |a| + |b|
  {
    if a == [] || b == [] {
      c := [];
    } else if a[|a| - 1] == b[|b| - 1] {
      var shorter := LcsReached(a[..|a| - 1], b[..|b| - 1]);
      c := shorter + [a[|a| - 1]];
      assert c[..|c| - 1] == shorter;
    } else if Lcs(a[..|a| - 1], b) >= Lcs(a, b[..|b| - 1]) {
      c := LcsReached(a[..|a| - 1], b);
      WithinGrows(c, a);
    } else {
      c := LcsReached(a, b[..|b| - 1]);
      WithinGrows(c, b);
    }
  }

  lemma {:induction false} WithinSelf<T>(a: seq<T>)
    ensures Within(a, a)
  {
    if a != [] { WithinSelf(a[..|a| - 1]); }
  }

  lemma {:induction false} WithinShorter<T>(c: seq<T>, a: seq<T>)
    requires Within(c, a)
    ensures |c| <= |a|
    decreases |a|
  {
    if c != [] {
      if c[|c| - 1] == a[|a| - 1] { WithinShorter(c[..|c| - 1], a[..|a| - 1]); } else { WithinShorter(c, a[..|a| - 1]); }
    }
  }

  /** A path has its own length in common with itself, and never more with any other. */
  lemma LcsOfSelf<T>(a: seq<T>, b: seq<T>)
    ensures Lcs(a, a) == |a| && Lcs(a, b) <= |a| && Lcs(a, b) <= |b|
  {
    WithinSelf(a);
    LcsBounds(a, a, a);
    var c := LcsReached(a, a);
    WithinShorter(c, a);
    var d := LcsReached(a, b);
    WithinShorter(d, a);
    WithinShorter(d, b);
  }

  lemma LcsSymmetric<T>(a: seq<T>, b: seq<T>)
    ensures Lcs(a, b) == Lcs(b, a)
  {
    var c := LcsReached(a, b);
    LcsBounds(c, b, a);
    var d := LcsReached(b, a);
    LcsBounds(d, a, b);
  }

  // ----- the one-row program -----

  /** Cells up to `j` hold the row of `i + 1` elements, the rest still the row of `i`. */
  ghost predicate RowAt(rows: seq<string>, columns: seq<string>, i: nat, j: nat, dp: seq<nat>) {
    && i < |rows| && j <= |columns| < |dp|
    && (forall k | 0 <= k <= j :: dp[k] == Lcs(rows[..i + 1], columns[..k]))
    && (forall k | j < k <= |columns| :: dp[k] == Lcs(rows[..i], columns[..k]))
  }

  ghost predicate Row(rows: seq<string>, columns: seq<string>, i: nat, dp: seq<nat>) {
    && i <= |rows| && |columns| < |dp|
    && forall k | 0 <= k <= |columns| :: dp[k] == Lcs(rows[..i], columns[..k])
  }

  lemma LcsStep(rows: seq<string>, columns: seq<string>, i: nat, j: nat)
    requires i < |rows| && j < |columns|
    ensures Lcs(rows[..i + 1], columns[..j + 1])
         == if rows[i] == columns[j] then Lcs(rows[..i], columns[..j]) + 1
            else MaxNat(Lcs(rows[..i], columns[..j + 1]), Lcs(rows[..i + 1], columns[..j]))
  {
    var a, b := rows[..i + 1], columns[..j + 1];
    assert a[..i] == rows[..i] && b[..j] == columns[..j];
  }

  lemma RowNext(rows: seq<string>, columns: seq<string>, i: nat, j: nat, dp: seq<nat>, cell: nat)
    requires RowAt(rows, columns, i, j, dp) && j < |columns|
    requires cell == if rows[i] == columns[j] then Lcs(rows[..i], columns[..j]) + 1 else MaxNat(dp[j + 1], dp[j])
    ensures RowAt(rows, columns, i, j + 1, dp[j + 1 := cell])
  {
    LcsStep(rows, columns, i, j);
    hide Lcs;
  }

  lemma RowStart(rows: seq<string>, columns: seq<string>, i: nat, dp: seq<nat>)
    requires Row(rows, columns, i, dp) && i < |rows|
    ensures RowAt(rows, columns, i, 0, dp)
  {
    assert columns[..0] == [];
  }

  lemma RowEnd(rows: seq<string>, columns: seq<string>, i: nat, dp: seq<nat>)
    requires RowAt(rows, columns, i, |columns|, dp)
    ensures Row(rows, columns, i + 1, dp)
  {
  }

  /** `lcsLengthWithBuffer`: one row of a reused workspace, overwritten from left to right. */
  method LcsInBuffer(rows: seq<string>, columns: seq<string>, dp: array<nat>) returns (length: nat)
    requires |columns| < dp.Length
    modifies dp
    ensures length == Lcs(rows, columns)
    ensures dp[|columns| + 1..] == old(dp[|columns| + 1..])
  {
    for k := 0 to |columns| + 1
      invariant forall x | 0 <= x < k :: dp[x] == 0
      invariant dp[|columns| + 1..] == old(dp[|columns| + 1..])
    {
      dp[k] := 0;
    }
    assert rows[..0] == [];
    assert Row(rows, columns, 0, dp[..]);
    hide Lcs, Row, RowAt;
    for i := 0 to |rows|
      invariant Row(rows, columns, i, dp[..])
      invariant dp[|columns| + 1..] == old(dp[|columns| + 1..])
    {
      var diagonal: nat := 0;
      RowStart(rows, columns, i, dp[..]);
      DiagonalStart(rows, columns, i);
      for j := 0 to |columns|
        invariant RowAt(rows, columns, i, j, dp[..])
        invariant diagonal == Lcs(rows[..i], columns[..j])
        invariant dp[|columns| + 1..] == old(dp[|columns| + 1..])
      {
        var above := dp[j + 1];
        DiagonalNext(rows, columns, i, j, dp[..]);
        ghost var cell: nat := if rows[i] == columns[j] then diagonal + 1 else MaxNat(above, dp[j]);
        RowNext(rows, columns, i, j, dp[..], cell);
        ghost var before := dp[..];
        if rows[i] == columns[j] {
          dp[j + 1] := diagonal + 1;
        } else if dp[j] > above {
          dp[j + 1] := dp[j];
        }
        assert dp[..] == before[j + 1 := cell];
        diagonal := above;
      }
      RowEnd(rows, columns, i, dp[..]);
    }
    RowGives(rows, columns, dp[..]);
    return dp[|columns|];
  }

  lemma RowGives(rows: seq<string>, columns: seq<string>, dp: seq<nat>)
    requires Row(rows, columns, |rows|, dp)
    ensures |columns| < |dp| && dp[|columns|] == Lcs(rows, columns)
  {
    assert rows[..|rows|] == rows && columns[..|columns|] == columns;
  }

  lemma DiagonalStart(rows: seq<string>, columns: seq<string>, i: nat)
    requires i < |rows|
    ensures Lcs(rows[..i], columns[..0]) == 0
  {
  }

  lemma DiagonalNext(rows: seq<string>, columns: seq<string>, i: nat, j: nat, dp: seq<nat>)
    requires RowAt(rows, columns, i, j, dp) && j < |columns|
    ensures dp[j + 1] == Lcs(rows[..i], columns[..j + 1])
  {
  }

  // ----- edit distance -----

  function Min3(a: nat, b: nat, c: nat): nat {
    MinNat(MinNat(a, b), c)
  }

  function Edits(a: string, b: string): nat {
    if a == "" then |b|
    else if b == "" then |a|
    else
      Min3(Edits(a[..|a| - 1], b) + 1, Edits(a, b[..|b| - 1]) + 1,
           Edits(a[..|a| - 1], b[..|b| - 1]) + (if a[|a| - 1] == b[|b| - 1] then 0 else 1))
  }

  /** Editing costs at most one operation per position of the longer string. */
  lemma {:induction false} EditsBounded(a: string, b: string)
    ensures Edits(a, b) <= MaxNat(|a|, |b|)
    decreases |a| + |b|
  {
    if a != "" && b != "" { EditsBounded(a[..|a| - 1], b[..|b| - 1]); }
  }

  /** Only equal strings need no edit. */
  lemma {:induction false} EditsZero(a: string, b: string)
    ensures Edits(a, b) == 0 <==> a == b
    decreases |a| + |b|
  {
    if a != "" && b != "" {
      var x, y := a[..|a| - 1], b[..|b| - 1];
      EditsZero(x, y);
      assert a == x + [a[|a| - 1]] && b == y + [b[|b| - 1]];
    }
  }

  lemma {:induction false} EditsSymmetric(a: string, b: string)
    ensures Edits(a, b) == Edits(b, a)
    decreases |a| + |b|
  {
    if a != "" && b != "" {
      EditsSymmetric(a[..|a| - 1], b);
      EditsSymmetric(a, b[..|b| - 1]);
      EditsSymmetric(a[..|a| - 1], b[..|b| - 1]);
    }
  }

  // ----- edit scripts -----

  /** One step of turning a string into another, from left to right. */
  datatype Edit = Keep(c: char) | Replace(was: char, is_: char) | Delete(was: char) | Insert(is_: char)
  {
    function Taken(): string {
      match this
      case Keep(c) => [c]
      case Replace(was, _) => [was]
      case Delete(was) => [was]
      case Insert(_) => ""
    }

    function Given(): string {
      match this
      case Keep(c) => [c]
      case Replace(_, is_) => [is_]
      case Delete(_) => ""
      case Insert(is_) => [is_]
    }

    function Change(): nat {
      if Keep? then 0 else 1
    }
  }

  /** What a script starts from. */
  function SourceOf(script: seq<Edit>): string {
    if script == [] then "" else SourceOf(script[..|script| - 1]) + script[|script| - 1].Taken()
  }

  /** What it makes of it. */
  function ResultOf(script: seq<Edit>): string {
    if script == [] then "" else ResultOf(script[..|script| - 1]) + script[|script| - 1].Given()
  }

  /** How many of its steps change anything. */
  function Changes(script: seq<Edit>): nat {
    if script == [] then 0 else Changes(script[..|script| - 1]) + script[|script| - 1].Change()
  }

  lemma ScriptNext(script: seq<Edit>, edit: Edit)
    ensures SourceOf(script + [edit]) == SourceOf(script) + edit.Taken()
    ensures ResultOf(script + [edit]) == ResultOf(script) + edit.Given()
    ensures Changes(script + [edit]) == Changes(script) + edit.Change()
  {
    assert (script + [edit])[..|script|] == script;
  }

  /** The distance is that of two shorter strings and one last edit. */
  lemma LastEdit(a: string, b: string) returns (x: string, y: string, edit: Edit)
    requires a != "" || b != ""
    ensures x + edit.Taken() == a && y + edit.Given() == b && |x| + |y| < |a| + |b|
    ensures Edits(a, b) == Edits(x, y) + edit.Change()
  {
    x, y := if a == "" then a else a[..|a| - 1], if b == "" then b else b[..|b| - 1];
    assert a != "" ==> a == x + [a[|a| - 1]];
    assert b != "" ==> b == y + [b[|b| - 1]];
    if a == "" || (b != "" && Edits(a, b) == Edits(a, y) + 1) {
      x, edit := a, Insert(b[|b| - 1]);
    } else if b == "" || Edits(a, b) == Edits(x, b) + 1 {
      y, edit := b, Delete(a[|a| - 1]);
    } else {
      edit := if a[|a| - 1] == b[|b| - 1] then Keep(a[|a| - 1]) else Replace(a[|a| - 1], b[|b| - 1]);
    }
  }

  /** Some script turns `a` into `b` with just as many changes as the distance. */
  lemma {:induction false} EditsReached(a: string, b: string) returns (script: seq<Edit>)
    ensures SourceOf(script) == a && ResultOf(script) == b && Changes(script) == Edits(a, b)
    decreases |a| + |b|
  {
    if a == "" && b == "" {
      script := [];
    } else {
      var x, y, edit := LastEdit(a, b);
      hide *;
      var shorter := EditsReached(x, y);
      ScriptNext(shorter, edit);
      script := shorter + [edit];
    }
  }

  lemma EditsGrow(a: string, b: string, edit: Edit)
    ensures Edits(a + edit.Taken(), b + edit.Given()) <= Edits(a, b) + edit.Change()
  {
    assert !edit.Insert? ==> (a + edit.Taken())[..|a|] == a;
    assert !edit.Delete? ==> (b + edit.Given())[..|b|] == b;
    assert edit.Insert? ==> a + edit.Taken() == a;
    assert edit.Delete? ==> b + edit.Given() == b;
  }

  /** And none does with fewer. */
  lemma {:induction false} EditsBounds(script: seq<Edit>)
    ensures Edits(SourceOf(script), ResultOf(script)) <= Changes(script)
  {
    if script != [] {
      var shorter, edit := script[..|script| - 1], script[|script| - 1];
      EditsBounds(shorter);
      EditsGrow(SourceOf(shorter), ResultOf(shorter), edit);
    }
  }

  /** The row for the first `i` characters, filled up to `j`. */
  ghost predicate EditRow(a: string, b: string, i: nat, j: nat, row: seq<nat>) {
    i <= |a| && j <= |b| < |row| && forall k | 0 <= k <= j :: row[k] == Edits(a[..i], b[..k])
  }

  lemma EditsStep(a: string, b: string, i: nat, j: nat)
    requires 0 < i <= |a| && 0 < j <= |b|
    ensures Edits(a[..i], b[..j])
         == Min3(Edits(a[..i - 1], b[..j]) + 1, Edits(a[..i], b[..j - 1]) + 1,
                 Edits(a[..i - 1], b[..j - 1]) + (if a[i - 1] == b[j - 1] then 0 else 1))
  {
    var x, y := a[..i], b[..j];
    assert x[..i - 1] == a[..i - 1] && y[..j - 1] == b[..j - 1];
  }

  lemma EditRowNext(a: string, b: string, i: nat, j: nat, prev: seq<nat>, curr: seq<nat>, cell: nat)
    requires 0 < i <= |a| && 0 < j <= |b|
    requires EditRow(a, b, i - 1, |b|, prev) && EditRow(a, b, i, j - 1, curr)
    requires cell == Min3(prev[j] + 1, curr[j - 1] + 1, prev[j - 1] + (if a[i - 1] == b[j - 1] then 0 else 1))
    ensures EditRow(a, b, i, j, curr[j := cell])
  {
    EditsStep(a, b, i, j);
    hide Edits;
  }

  lemma EditRowFirst(a: string, b: string, i: nat, curr: seq<nat>)
    requires 0 < i <= |a| && |b| < |curr|
    ensures EditRow(a, b, i, 0, curr[0 := i])
  {
  }

  /** `levenshteinRunes`: two rows, swapped after every character. */
  method Levenshtein(a: string, b: string) returns (distance: nat)
    ensures distance == Edits(a, b)
  {
    var n, m := |a|, |b|;
    var prev, curr := new nat[m + 1], new nat[m + 1];
    for j := 0 to m + 1
      invariant forall k | 0 <= k < j :: prev[k] == k
    {
      prev[j] := j;
    }
    assert a[..0] == "";
    assert EditRow(a, b, 0, m, prev[..]);
    hide Edits, EditRow;
    for i := 1 to n + 1
      invariant prev != curr && fresh(prev) && fresh(curr) && prev.Length == curr.Length == m + 1
      invariant EditRow(a, b, i - 1, m, prev[..])
    {
      EditRowFirst(a, b, i, curr[..]);
      ghost var empty := curr[..];
      curr[0] := i;
      assert curr[..] == empty[0 := i as nat];
      for j := 1 to m + 1
        invariant EditRow(a, b, i - 1, m, prev[..]) && EditRow(a, b, i, j - 1, curr[..])
      {
        var cost := 1;
        if a[i - 1] == b[j - 1] { cost := 0; }
        var cell := Min3(prev[j] + 1, curr[j - 1] + 1, prev[j - 1] + cost);
        EditRowNext(a, b, i, j, prev[..], curr[..], cell);
        ghost var before := curr[..];
        curr[j] := cell;
        assert curr[..] == before[j := cell];
      }
      prev, curr := curr, prev;
    }
    EditRowGives(a, b, prev[..]);
    return prev[m];
  }

  lemma EditRowGives(a: string, b: string, row: seq<nat>)
    requires EditRow(a, b, |a|, |b|, row)
    ensures |b| < |row| && row[|b|] == Edits(a, b)
  {
    assert a[..|a|] == a && b[..|b|] == b;
  }
}
