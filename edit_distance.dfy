/** The edit distance of two strings, with an optimal alignment (EditDistance.java):
    a dynamic-programming table of the Levenshtein distances of all prefix pairs, then a walk
    back through the table that builds the two aligned strings, ' ' marking a gap. */
module Levenshtein {

  /** The result record: the distance and the aligned versions of the two strings. */
  datatype EditDistance = EditDistance(distance: int, s1: string, s2: string)

  function Min(x: int, y: int): (r: int)
    ensures r <= x && r <= y && (r == x || r == y)
  {
    if x <= y then x else y
  }

  function Max(x: int, y: int): (r: int)
    ensures r >= x && r >= y && (r == x || r == y)
  {
    if x >= y then x else y
  }

  /* ---------------------------------------------------------------------------------
     The distance
     --------------------------------------------------------------------------------- */

  /** The edit distance of a[..i] and b[..j] with unit-cost insertion, deletion and
      substitution: the cheapest of deleting a's last character, inserting b's last
      character, or aligning the two last characters (free when they are equal). */
  function Dist(a: string, b: string, i: nat, j: nat): nat
    requires i <= |a| && j <= |b|
    decreases i + j
  {
    if i == 0 then j
    else if j == 0 then i
    else Min(Min(Dist(a, b, i - 1, j) + 1, Dist(a, b, i, j - 1) + 1),
             Dist(a, b, i - 1, j - 1) + (if a[i - 1] == b[j - 1] then 0 else 1))
  }

  /** The distance is at least the difference of the two lengths, since every column consumes
      at most one character of each string, and at most the longer length: substitute along
      the shorter prefix, then insert or delete the rest. */
  lemma {:induction false} DistBounds(a: string, b: string, i: nat, j: nat)
    requires i <= |a| && j <= |b|
    ensures i <= Dist(a, b, i, j) + j && j <= Dist(a, b, i, j) + i && Dist(a, b, i, j) <= Max(i, j)
    decreases i + j
  {
    if i > 0 && j > 0 {
      DistBounds(a, b, i - 1, j);
      DistBounds(a, b, i, j - 1);
      DistBounds(a, b, i - 1, j - 1);
    }
  }

  /** The distance does not depend on which string comes first: deleting from one is
      inserting into the other. */
  lemma {:induction false} Symmetric(a: string, b: string, i: nat, j: nat)
    requires i <= |a| && j <= |b|
    ensures Dist(a, b, i, j) == Dist(b, a, j, i)
    decreases i + j, 2
  {
    if i > 0 && j > 0 {
      SymmetricBelow(a, b, i, j);
      SymmetricBelow(b, a, j, i);
    }
  }

  /** One half of the symmetry: reversing the last column of an optimal alignment of
      a[..i] with b[..j] gives an alignment of b[..j] with a[..i] of the same price. */
  lemma {:induction false} SymmetricBelow(a: string, b: string, i: nat, j: nat)
    requires 0 < i <= |a| && 0 < j <= |b|
    ensures Dist(b, a, j, i) <= Dist(a, b, i, j)
    decreases i + j, 1
  {
    var m := Last(a, b, i, j);
    if m == Up {
      SymmetricUp(a, b, i, j);
    } else if m == Left {
      SymmetricLeft(a, b, i, j);
    } else {
      SymmetricDiag(a, b, i, j);
    }
  }

  /** A deletion from a becomes an insertion into a. */
  lemma {:induction false} SymmetricUp(a: string, b: string, i: nat, j: nat)
    requires 0 < i <= |a| && 0 < j <= |b| && Last(a, b, i, j) == Up
    ensures Dist(b, a, j, i) <= Dist(a, b, i, j)
    decreases i + j, 0
  {
    Symmetric(a, b, i - 1, j);
    Cell(b, a, j, i);
  }

  /** An insertion of b's character becomes a deletion of it. */
  lemma {:induction false} SymmetricLeft(a: string, b: string, i: nat, j: nat)
    requires 0 < i <= |a| && 0 < j <= |b| && Last(a, b, i, j) == Left
    ensures Dist(b, a, j, i) <= Dist(a, b, i, j)
    decreases i + j, 0
  {
    Symmetric(a, b, i, j - 1);
    Cell(b, a, j, i);
  }

  /** A column aligning two characters costs the same read either way round. */
  lemma {:induction false} SymmetricDiag(a: string, b: string, i: nat, j: nat)
    requires 0 < i <= |a| && 0 < j <= |b| && Last(a, b, i, j) == Diag
    ensures Dist(b, a, j, i) <= Dist(a, b, i, j)
    decreases i + j, 0
  {
    Symmetric(a, b, i - 1, j - 1);
    Cell(b, a, j, i);
  }

  /** The price of aligning two characters in one column. */
  function Mismatch(x: char, y: char): nat
  {
    if x == y then 0 else 1
  }

  /** A cell with both prefixes non-empty is at most each of its three neighbours plus the
      price of the step from it, and equal to one of them. */
  lemma Cell(a: string, b: string, i: nat, j: nat)
    requires 0 < i <= |a| && 0 < j <= |b|
    ensures Dist(a, b, i, j) <= Dist(a, b, i - 1, j) + 1 && Dist(a, b, i, j) <= Dist(a, b, i, j - 1) + 1
    ensures Dist(a, b, i, j) <= Dist(a, b, i - 1, j - 1) + Mismatch(a[i - 1], b[j - 1])
    ensures Dist(a, b, i, j) == Dist(a, b, i - 1, j) + 1 || Dist(a, b, i, j) == Dist(a, b, i, j - 1) + 1 ||
            Dist(a, b, i, j) == Dist(a, b, i - 1, j - 1) + Mismatch(a[i - 1], b[j - 1])
  {
  }

  /** The last column of an optimal alignment of a[..i] with b[..j]: the neighbour the cell's
      value comes from. */
  function Last(a: string, b: string, i: nat, j: nat): (m: Move)
    requires 0 < i <= |a| && 0 < j <= |b|
    ensures m == Up ==> Dist(a, b, i, j) == Dist(a, b, i - 1, j) + 1
    ensures m == Left ==> Dist(a, b, i, j) == Dist(a, b, i, j - 1) + 1
    ensures m == Diag ==> Dist(a, b, i, j) == Dist(a, b, i - 1, j - 1) + Mismatch(a[i - 1], b[j - 1])
  {
    Cell(a, b, i, j);
    if Dist(a, b, i, j) == Dist(a, b, i - 1, j) + 1 then Up
    else if Dist(a, b, i, j) == Dist(a, b, i, j - 1) + 1 then Left
    else Diag
  }

  /** The triangle inequality when one of the three prefixes is empty. */
  lemma TriangleBase(a: string, b: string, c: string, i: nat, j: nat, k: nat)
    requires i <= |a| && j <= |b| && k <= |c| && (i == 0 || j == 0 || k == 0)
    ensures Dist(a, c, i, k) <= Dist(a, b, i, j) + Dist(b, c, j, k)
  {
    DistBounds(a, c, i, k);
    DistBounds(b, c, j, k);
    DistBounds(a, b, i, j);
  }

  /** The triangle inequality: editing a into b and then b into c is never cheaper than
      editing a into c directly. The proof follows the last column of an optimal alignment
      of a with b and of one of b with c. */
  lemma {:induction false} Triangle(a: string, b: string, c: string, i: nat, j: nat, k: nat)
    requires i <= |a| && j <= |b| && k <= |c|
    ensures Dist(a, c, i, k) <= Dist(a, b, i, j) + Dist(b, c, j, k)
    decreases i + j + k, 1
  {
    if i == 0 || j == 0 || k == 0 {
      TriangleBase(a, b, c, i, j, k);
    } else {
      var m, m' := Last(a, b, i, j), Last(b, c, j, k);
      if m == Up {
        TriangleDelete(a, b, c, i, j, k);
      } else if m' == Left {
        TriangleInsert(a, b, c, i, j, k);
      } else if m == Left && m' == Up {
        TriangleThrough(a, b, c, i, j, k);
      } else if m == Left {
        TriangleInsertDiag(a, b, c, i, j, k);
      } else if m' == Up {
        TriangleDiagDelete(a, b, c, i, j, k);
      } else {
        TriangleDiag(a, b, c, i, j, k);
      }
    }
  }

  /** a's last character is deleted on the way to b: delete it on the way to c too. */
  lemma {:induction false} TriangleDelete(a: string, b: string, c: string, i: nat, j: nat, k: nat)
    requires 0 < i <= |a| && 0 < j <= |b| && 0 < k <= |c| && Last(a, b, i, j) == Up
    ensures Dist(a, c, i, k) <= Dist(a, b, i, j) + Dist(b, c, j, k)
    decreases i + j + k, 0
  {
    Triangle(a, b, c, i - 1, j, k);
    Cell(a, c, i, k);
  }

  /** c's last character is inserted on the way from b: insert it on the way from a too. */
  lemma {:induction false} TriangleInsert(a: string, b: string, c: string, i: nat, j: nat, k: nat)
    requires 0 < i <= |a| && 0 < j <= |b| && 0 < k <= |c| && Last(b, c, j, k) == Left
    ensures Dist(a, c, i, k) <= Dist(a, b, i, j) + Dist(b, c, j, k)
    decreases i + j + k, 0
  {
    Triangle(a, b, c, i, j, k - 1);
    Cell(a, c, i, k);
  }

  /** b's last character is inserted and then deleted again: leave it out altogether. */
  lemma {:induction false} TriangleThrough(a: string, b: string, c: string, i: nat, j: nat, k: nat)
    requires 0 < i <= |a| && 0 < j <= |b| && 0 < k <= |c| && Last(a, b, i, j) == Left && Last(b, c, j, k) == Up
    ensures Dist(a, c, i, k) <= Dist(a, b, i, j) + Dist(b, c, j, k)
    decreases i + j + k, 0
  {
    Triangle(a, b, c, i, j - 1, k);
  }

  /** b's last character is inserted and then aligned with c's: insert c's instead. */
  lemma {:induction false} TriangleInsertDiag(a: string, b: string, c: string, i: nat, j: nat, k: nat)
    requires 0 < i <= |a| && 0 < j <= |b| && 0 < k <= |c| && Last(a, b, i, j) == Left && Last(b, c, j, k) == Diag
    ensures Dist(a, c, i, k) <= Dist(a, b, i, j) + Dist(b, c, j, k)
    decreases i + j + k, 0
  {
    Triangle(a, b, c, i, j - 1, k - 1);
    Cell(a, c, i, k);
  }

  /** a's last character is aligned with b's, which is then deleted: delete a's instead. */
  lemma {:induction false} TriangleDiagDelete(a: string, b: string, c: string, i: nat, j: nat, k: nat)
    requires 0 < i <= |a| && 0 < j <= |b| && 0 < k <= |c| && Last(a, b, i, j) == Diag && Last(b, c, j, k) == Up
    ensures Dist(a, c, i, k) <= Dist(a, b, i, j) + Dist(b, c, j, k)
    decreases i + j + k, 0
  {
    Triangle(a, b, c, i - 1, j - 1, k);
    Cell(a, c, i, k);
  }

  /** The last characters of a, b and c share one column: a mismatch between a's and c's
      means one between a's and b's or between b's and c's. */
  lemma {:induction false} TriangleDiag(a: string, b: string, c: string, i: nat, j: nat, k: nat)
    requires 0 < i <= |a| && 0 < j <= |b| && 0 < k <= |c| && Last(a, b, i, j) == Diag && Last(b, c, j, k) == Diag
    ensures Dist(a, c, i, k) <= Dist(a, b, i, j) + Dist(b, c, j, k)
    decreases i + j + k, 0
  {
    Triangle(a, b, c, i - 1, j - 1, k - 1);
    Cell(a, c, i, k);
  }

  /** Adding one character to either prefix, or to both, raises the distance by at most one. */
  lemma AddOne(a: string, b: string, i: nat, j: nat)
    requires i <= |a| && j <= |b|
    ensures i > 0 ==> Dist(a, b, i, j) <= Dist(a, b, i - 1, j) + 1
    ensures j > 0 ==> Dist(a, b, i, j) <= Dist(a, b, i, j - 1) + 1
  {
  }

  /** Dropping the last character of a's prefix lowers the distance by at most one. */
  lemma {:induction false} DropFirst(a: string, b: string, i: nat, j: nat)
    requires 0 < i <= |a| && j <= |b|
    ensures Dist(a, b, i - 1, j) <= Dist(a, b, i, j) + 1
    decreases j
  {
    if j > 0 {
      DropFirst(a, b, i, j - 1);
      AddOne(a, b, i - 1, j);
    }
  }

  /** Dropping the last character of b's prefix lowers the distance by at most one. */
  lemma {:induction false} DropSecond(a: string, b: string, i: nat, j: nat)
    requires i <= |a| && 0 < j <= |b|
    ensures Dist(a, b, i, j - 1) <= Dist(a, b, i, j) + 1
    decreases i
  {
    if i > 0 {
      DropSecond(a, b, i - 1, j);
      AddOne(a, b, i, j - 1);
    }
  }

  /** Dropping the last character of either prefix lowers the distance by at most one. */
  lemma DropOne(a: string, b: string, i: nat, j: nat)
    requires i <= |a| && j <= |b|
    ensures i > 0 ==> Dist(a, b, i - 1, j) <= Dist(a, b, i, j) + 1
    ensures j > 0 ==> Dist(a, b, i, j - 1) <= Dist(a, b, i, j) + 1
  {
    if i > 0 {
      DropFirst(a, b, i, j);
    }
    if j > 0 {
      DropSecond(a, b, i, j);
    }
  }

  /** The table's recurrence: a cell copies its diagonal neighbour when the two characters
      match, and is otherwise one more than the smallest of its three neighbours. Taking the
      diagonal alone on a match loses nothing because no neighbour is more than one below it. */
  lemma Recurrence(a: string, b: string, i: nat, j: nat)
    requires 0 < i <= |a| && 0 < j <= |b|
    ensures Dist(a, b, i, j) ==
      if a[i - 1] == b[j - 1] then Dist(a, b, i - 1, j - 1)
      else Min(Dist(a, b, i - 1, j - 1), Min(Dist(a, b, i - 1, j), Dist(a, b, i, j - 1))) + 1
  {
    DropOne(a, b, i, j - 1);
    DropOne(a, b, i - 1, j);
  }

  /* ---------------------------------------------------------------------------------
     Alignments
     --------------------------------------------------------------------------------- */

  /** One column of an alignment: both next characters (Diag), a gap in s1 against the next
      character of s2 (Left), or the next character of s1 against a gap in s2 (Up). */
  datatype Move = Diag | Left | Up

  /** The number of characters of s1 a sequence of moves consumes. */
  function Used1(p: seq<Move>): nat
  {
    if p == [] then 0 else Used1(p[..|p| - 1]) + (if p[|p| - 1] == Left then 0 else 1)
  }

  /** The number of characters of s2 a sequence of moves consumes. */
  function Used2(p: seq<Move>): nat
  {
    if p == [] then 0 else Used2(p[..|p| - 1]) + (if p[|p| - 1] == Up then 0 else 1)
  }

  /** Every column consumes at least one character and at most one of each string, so an
      alignment has between max(i, j) and i + j columns. */
  lemma {:induction false} Columns(p: seq<Move>)
    ensures Max(Used1(p), Used2(p)) <= |p| <= Used1(p) + Used2(p)
  {
    if p != [] {
      Columns(p[..|p| - 1]);
    }
  }

  /** The two aligned strings a sequence of moves spells out over a and b, ' ' marking a gap. */
  function Render(a: string, b: string, p: seq<Move>): (r: (string, string))
    requires Used1(p) <= |a| && Used2(p) <= |b|
    ensures |r.0| == |p| && |r.1| == |p|
  {
    if p == [] then ([], [])
    else
      var q := p[..|p| - 1];
      var r := Render(a, b, q);
      match p[|p| - 1]
      case Diag => (r.0 + [a[Used1(q)]], r.1 + [b[Used2(q)]])
      case Left => (r.0 + [' '], r.1 + [b[Used2(q)]])
      case Up => (r.0 + [a[Used1(q)]], r.1 + [' '])
  }

  /** The characters of an aligned string in the columns whose move is not `gap`: the
      columns where the string has a character of its own rather than a gap. */
  function Kept(p: seq<Move>, r: string, gap: Move): string
    requires |r| == |p|
  {
    if p == [] then []
    else Kept(p[..|p| - 1], r[..|r| - 1], gap) + (if p[|p| - 1] == gap then [] else [r[|r| - 1]])
  }

  /** Gaps plus mismatched aligned pairs: the number of edits an alignment stands for. */
  function Cost(p: seq<Move>, r1: string, r2: string): nat
    requires |r1| == |p| && |r2| == |p|
  {
    if p == [] then 0
    else
      var k := |p| - 1;
      Cost(p[..k], r1[..k], r2[..k]) + (if p[k] != Diag || r1[k] != r2[k] then 1 else 0)
  }

  /** Rendering moves q and then one more move appends one column. */
  lemma RenderLast(a: string, b: string, q: seq<Move>, m: Move)
    requires Used1(q + [m]) <= |a| && Used2(q + [m]) <= |b|
    ensures (q + [m])[..|q|] == q
    ensures Used1(q + [m]) == Used1(q) + (if m == Left then 0 else 1)
    ensures Used2(q + [m]) == Used2(q) + (if m == Up then 0 else 1)
    ensures Render(a, b, q + [m]) ==
      match m
      case Diag => (Render(a, b, q).0 + [a[Used1(q)]], Render(a, b, q).1 + [b[Used2(q)]])
      case Left => (Render(a, b, q).0 + [' '], Render(a, b, q).1 + [b[Used2(q)]])
      case Up => (Render(a, b, q).0 + [a[Used1(q)]], Render(a, b, q).1 + [' '])
  {
    assert (q + [m])[..|q|] == q;
  }

  /** One more column keeps its character unless its move is the gap move. */
  lemma KeptLast(q: seq<Move>, r: string, m: Move, c: char, gap: Move)
    requires |r| == |q|
    ensures Kept(q + [m], r + [c], gap) == Kept(q, r, gap) + (if m == gap then [] else [c])
  {
    assert (q + [m])[..|q|] == q;
    assert (r + [c])[..|r|] == r;
  }

  /** The columns without a gap in the first aligned string spell out the consumed prefix of a. */
  lemma {:induction false} KeptFirst(a: string, b: string, p: seq<Move>)
    requires Used1(p) <= |a| && Used2(p) <= |b|
    ensures Kept(p, Render(a, b, p).0, Left) == a[..Used1(p)]
  {
    if p != [] {
      var q, m := p[..|p| - 1], p[|p| - 1];
      assert p == q + [m];
      RenderLast(a, b, q, m);
      KeptFirst(a, b, q);
      var i := Used1(q);
      var c := if m == Left then ' ' else a[i];
      assert Render(a, b, p).0 == Render(a, b, q).0 + [c];
      KeptLast(q, Render(a, b, q).0, m, c, Left);
      if m != Left {
        assert a[..i + 1] == a[..i] + [a[i]];
      }
    }
  }

  /** The columns without a gap in the second aligned string spell out the consumed prefix of b. */
  lemma {:induction false} KeptSecond(a: string, b: string, p: seq<Move>)
    requires Used1(p) <= |a| && Used2(p) <= |b|
    ensures Kept(p, Render(a, b, p).1, Up) == b[..Used2(p)]
  {
    if p != [] {
      var q, m := p[..|p| - 1], p[|p| - 1];
      assert p == q + [m];
      RenderLast(a, b, q, m);
      KeptSecond(a, b, q);
      var j := Used2(q);
      var c := if m == Up then ' ' else b[j];
      assert Render(a, b, p).1 == Render(a, b, q).1 + [c];
      KeptLast(q, Render(a, b, q).1, m, c, Up);
      if m != Up {
        assert b[..j + 1] == b[..j] + [b[j]];
      }
    }
  }

  /** The columns without a gap in s1 spell out the consumed prefix of s1, and likewise for s2:
      aligning only inserts gaps, it never drops, changes or reorders a character. */
  lemma KeptReproduces(a: string, b: string, p: seq<Move>)
    requires Used1(p) <= |a| && Used2(p) <= |b|
    ensures Kept(p, Render(a, b, p).0, Left) == a[..Used1(p)]
    ensures Kept(p, Render(a, b, p).1, Up) == b[..Used2(p)]
  {
    KeptFirst(a, b, p);
    KeptSecond(a, b, p);
  }

  /** One more column adds one edit, unless it aligns two equal characters. */
  lemma CostLast(a: string, b: string, q: seq<Move>, m: Move)
    requires Used1(q + [m]) <= |a| && Used2(q + [m]) <= |b|
    ensures Used1(q + [m]) == Used1(q) + (if m == Left then 0 else 1)
    ensures Used2(q + [m]) == Used2(q) + (if m == Up then 0 else 1)
    ensures Cost(q + [m], Render(a, b, q + [m]).0, Render(a, b, q + [m]).1) ==
      Cost(q, Render(a, b, q).0, Render(a, b, q).1) + (if m == Diag && a[Used1(q)] == b[Used2(q)] then 0 else 1)
  {
    RenderLast(a, b, q, m);
    var r := Render(a, b, q + [m]);
    assert r.0[..|q|] == Render(a, b, q).0;
    assert r.1[..|q|] == Render(a, b, q).1;
  }

  /** No alignment of a[..i] and b[..j] costs less than their edit distance. */
  lemma {:induction false} Optimal(a: string, b: string, p: seq<Move>)
    requires Used1(p) <= |a| && Used2(p) <= |b|
    ensures Dist(a, b, Used1(p), Used2(p)) <= Cost(p, Render(a, b, p).0, Render(a, b, p).1)
  {
    if p != [] {
      var q := p[..|p| - 1];
      assert p == q + [p[|p| - 1]];
      CostLast(a, b, q, p[|p| - 1]);
      Optimal(a, b, q);
    }
  }

  /* ---------------------------------------------------------------------------------
     The walk back through the table
     --------------------------------------------------------------------------------- */

  /** The step the walk takes from an inner cell, given the diagonal, left and upper cells:
      the smallest of the three, ties going to the diagonal first and then to the left. */
  function Choose(diag: int, left: int, up: int): (m: Move)
    ensures m == Diag <==> diag <= left && diag <= up
    ensures m == Left <==> left < diag && left <= up
    ensures m == Up <==> up < diag && up < left
  {
    var least := Min(diag, Min(left, up));
    if least == diag then Diag else if least == left then Left else Up
  }

  /** The step the walk takes from cell (i, j): along the border only gaps are possible. */
  function StepAt(a: string, b: string, i: nat, j: nat): (m: Move)
    requires i <= |a| && j <= |b| && i + j > 0
    ensures (m == Left ==> j > 0) && (m != Left ==> i > 0)
    ensures (m == Up ==> i > 0) && (m != Up ==> j > 0)
  {
    if i == 0 then Left
    else if j == 0 then Up
    else Choose(Dist(a, b, i - 1, j - 1), Dist(a, b, i, j - 1), Dist(a, b, i - 1, j))
  }

  /** The moves the walk back from cell (i, j) makes, in the order of the aligned strings. */
  function Path(a: string, b: string, i: nat, j: nat): (p: seq<Move>)
    requires i <= |a| && j <= |b|
    ensures Used1(p) == i && Used2(p) == j
    decreases i + j
  {
    if i == 0 && j == 0 then []
    else
      var m := StepAt(a, b, i, j);
      Follow(Path(a, b, if m == Left then i else i - 1, if m == Up then j else j - 1), m)
  }

  /** Moves q followed by one more move m. */
  function Follow(q: seq<Move>, m: Move): (p: seq<Move>)
    ensures p == q + [m]
    ensures Used1(p) == Used1(q) + (if m == Left then 0 else 1)
    ensures Used2(p) == Used2(q) + (if m == Up then 0 else 1)
  {
    assert (q + [m])[..|q|] == q;
    q + [m]
  }

  /** The step the walk takes lies on a cheapest way to the cell: the distance of the cell is
      that of the cell the step leads to, plus one unless two equal characters are aligned. */
  lemma StepCost(a: string, b: string, i: nat, j: nat)
    requires i <= |a| && j <= |b| && i + j > 0
    ensures var m := StepAt(a, b, i, j);
      Dist(a, b, i, j) ==
        Dist(a, b, if m == Left then i else i - 1, if m == Up then j else j - 1) +
        (if m == Diag && a[i - 1] == b[j - 1] then 0 else 1)
  {
  }

  /** The alignment the walk builds costs exactly the edit distance. */
  lemma {:induction false} PathCost(a: string, b: string, i: nat, j: nat)
    requires i <= |a| && j <= |b|
    ensures var p := Path(a, b, i, j); Cost(p, Render(a, b, p).0, Render(a, b, p).1) == Dist(a, b, i, j)
    decreases i + j
  {
    if i + j > 0 {
      var m := StepAt(a, b, i, j);
      var i', j' := if m == Left then i else i - 1, if m == Up then j else j - 1;
      CostLast(a, b, Path(a, b, i', j'), m);
      PathCost(a, b, i', j');
      StepCost(a, b, i, j);
    }
  }

  /** The string reversed, as StringBuilder.reverse leaves it. */
  function Reverse(s: string): (r: string)
    ensures |r| == |s| && forall k :: 0 <= k < |s| ==> r[k] == s[|s| - 1 - k]
  {
    if s == [] then [] else [s[|s| - 1]] + Reverse(s[..|s| - 1])
  }

  /** Appending to a builder puts the character at the front of its reversal. */
  lemma ReverseAppend(s: string, c: char)
    ensures Reverse(s + [c]) == [c] + Reverse(s)
  {
    assert (s + [c])[..|s|] == s;
  }

  /* ---------------------------------------------------------------------------------
     getEditDistance
     --------------------------------------------------------------------------------- */

  /** The table A of getEditDistance: A[i, j] is the edit distance of the first i characters
      of a and the first j characters of b. The first column and row are filled first, then
      the rest row by row from the recurrence. */
  method FillTable(a: string, b: string) returns (A: array2<int>)
    ensures fresh(A) && A.Length0 == |a| + 1 && A.Length1 == |b| + 1
    ensures forall i :: 0 <= i <= |a| ==> A[i, 0] == i
    ensures forall j :: 0 <= j <= |b| ==> A[0, j] == j
    ensures forall i, j {:trigger A[i, j]} :: 0 <= i <= |a| && 0 <= j <= |b| ==> A[i, j] == Dist(a, b, i, j)
  {
    var m, n := |a|, |b|;
    A := new int[m + 1, n + 1];
    for i := 0 to m + 1
      invariant forall p :: 0 <= p < i ==> A[p, 0] == p
    {
      A[i, 0] := i;
    }
    for j := 1 to n + 1
      invariant forall p :: 0 <= p <= m ==> A[p, 0] == p
      invariant forall q :: 1 <= q < j ==> A[0, q] == q
    {
      A[0, j] := j;
    }
    for i := 0 to m
      invariant forall p :: 0 <= p <= m ==> A[p, 0] == p
      invariant forall p, q {:trigger A[p, q]} :: 0 <= p <= i && 0 <= q <= n ==> A[p, q] == Dist(a, b, p, q)
    {
      FillRow(a, b, A, i);
    }
  }

  /** The inner loop of the table fill: row i + 1 from row i and the first column. */
  method FillRow(a: string, b: string, A: array2<int>, i: nat)
    requires A.Length0 == |a| + 1 && A.Length1 == |b| + 1 && i < |a|
    requires forall p :: 0 <= p <= |a| ==> A[p, 0] == p
    requires forall p, q {:trigger A[p, q]} :: 0 <= p <= i && 0 <= q <= |b| ==> A[p, q] == Dist(a, b, p, q)
    modifies A
    ensures forall p :: 0 <= p <= |a| ==> A[p, 0] == p
    ensures forall p, q {:trigger A[p, q]} :: 0 <= p <= i + 1 && 0 <= q <= |b| ==> A[p, q] == Dist(a, b, p, q)
  {
    for j := 0 to |b|
      invariant forall p :: 0 <= p <= |a| ==> A[p, 0] == p
      invariant forall p, q {:trigger A[p, q]} :: 0 <= p <= i && 0 <= q <= |b| ==> A[p, q] == Dist(a, b, p, q)
      invariant forall q {:trigger A[i + 1, q]} :: 0 <= q <= j ==> A[i + 1, q] == Dist(a, b, i + 1, q)
    {
      var v;
      if a[i] == b[j] {
        v := A[i, j];
      } else {
        v := Min(A[i, j], Min(A[i, j + 1], A[i + 1, j])) + 1;
      }
      assert v == Dist(a, b, i + 1, j + 1) by {
        Recurrence(a, b, i + 1, j + 1);
      }
      A[i + 1, j + 1] := v;
    }
  }

  /** Appending one character and then a string is prepending that character to the string. */
  lemma Regroup(x: string, c: char, y: string)
    ensures (x + [c]) + y == x + ([c] + y)
  {
  }

  /** One step of the walk back from cell (i, j) puts one column in front of the columns
      already built: the step fixes the cell (i', j') it leads to and the character or gap
      (c1, c2) each string gets in that column. */
  lemma WalkStep(a: string, b: string, i: nat, j: nat, i': nat, j': nat, c1: char, c2: char)
    requires i <= |a| && j <= |b| && i + j > 0
    requires var m := StepAt(a, b, i, j);
      i' == (if m == Left then i else i - 1) && j' == (if m == Up then j else j - 1) &&
      c1 == (if m == Left then ' ' else a[i - 1]) && c2 == (if m == Up then ' ' else b[j - 1])
    ensures i' <= i && j' <= j && i' + j' < i + j
    ensures Render(a, b, Path(a, b, i, j)) ==
      (Render(a, b, Path(a, b, i', j')).0 + [c1], Render(a, b, Path(a, b, i', j')).1 + [c2])
  {
    RenderLast(a, b, Path(a, b, i', j'), StepAt(a, b, i, j));
  }

  /** One turn of the while loop of getEditDistance at cell (m, n): on the border a gap is
      forced; inside, the table's diagonal, left and upper cells decide. Returns the cell the
      step leads to and the character or gap appended to each builder. */
  method WalkBack(s1: string, s2: string, A: array2<int>, m: nat, n: nat)
    returns (m': nat, n': nat, c1: char, c2: char)
    requires A.Length0 == |s1| + 1 && A.Length1 == |s2| + 1
    requires forall i, j {:trigger A[i, j]} :: 0 <= i <= |s1| && 0 <= j <= |s2| ==> A[i, j] == Dist(s1, s2, i, j)
    requires m <= |s1| && n <= |s2| && m + n > 0
    ensures m' <= m && n' <= n && m' + n' < m + n
    ensures Render(s1, s2, Path(s1, s2, m, n)) ==
      (Render(s1, s2, Path(s1, s2, m', n')).0 + [c1], Render(s1, s2, Path(s1, s2, m', n')).1 + [c2])
  {
    var move;
    if m == 0 {
      move := Left;
    } else if n == 0 {
      move := Up;
    } else {
      var up := A[m - 1, n];
      var left := A[m, n - 1];
      var diag := A[m - 1, n - 1];
      move := Choose(diag, left, up);
    }
    assert move == StepAt(s1, s2, m, n);
    if move == Diag {
      c1, c2 := s1[m - 1], s2[n - 1];
      m', n' := m - 1, n - 1;
    } else if move == Left {
      c1, c2 := ' ', s2[n - 1];
      m', n' := m, n - 1;
    } else {
      c1, c2 := s1[m - 1], ' ';
      m', n' := m - 1, n;
    }
    WalkStep(s1, s2, m, n, m', n', c1, c2);
  }

  /** The while loop of getEditDistance: walk back from the last cell of the table to the
      first, appending one column per step to each builder, then reverse the builders. */
  method Backtrace(s1: string, s2: string, A: array2<int>) returns (t1: string, t2: string)
    requires A.Length0 == |s1| + 1 && A.Length1 == |s2| + 1
    requires forall i, j {:trigger A[i, j]} :: 0 <= i <= |s1| && 0 <= j <= |s2| ==> A[i, j] == Dist(s1, s2, i, j)
    ensures (t1, t2) == Render(s1, s2, Path(s1, s2, |s1|, |s2|))
  {
    var m: nat, n: nat := |s1|, |s2|;
    ghost var whole := Render(s1, s2, Path(s1, s2, m, n));
    var sb1: string, sb2: string := [], [];
    while m > 0 || n > 0
      invariant m <= |s1| && n <= |s2|
      invariant whole.0 == Render(s1, s2, Path(s1, s2, m, n)).0 + Reverse(sb1)
      invariant whole.1 == Render(s1, s2, Path(s1, s2, m, n)).1 + Reverse(sb2)
      decreases m + n
    {
      var c1, c2;
      m, n, c1, c2 := WalkBack(s1, s2, A, m, n);
      ghost var rest := Render(s1, s2, Path(s1, s2, m, n));
      Regroup(rest.0, c1, Reverse(sb1));
      Regroup(rest.1, c2, Reverse(sb2));
      ReverseAppend(sb1, c1);
      ReverseAppend(sb2, c2);
      sb1, sb2 := sb1 + [c1], sb2 + [c2];
    }
    assert Path(s1, s2, m, n) == [];
    t1, t2 := Reverse(sb1), Reverse(sb2);
    assert whole.0 == [] + t1 == t1 && whole.1 == [] + t2 == t2;
  }

  /** getEditDistance: the distance in the last cell of the table, and the alignment the walk
      back from that cell builds. */
  method GetEditDistance(s1: string, s2: string) returns (r: EditDistance)
    ensures r.distance == Dist(s1, s2, |s1|, |s2|)
    ensures (r.s1, r.s2) == Render(s1, s2, Path(s1, s2, |s1|, |s2|))
    ensures |r.s1| == |r.s2| && Max(|s1|, |s2|) <= |r.s1| <= |s1| + |s2|
    ensures Kept(Path(s1, s2, |s1|, |s2|), r.s1, Left) == s1 && Kept(Path(s1, s2, |s1|, |s2|), r.s2, Up) == s2
    ensures Cost(Path(s1, s2, |s1|, |s2|), r.s1, r.s2) == r.distance
    ensures forall p :: Used1(p) == |s1| && Used2(p) == |s2| ==>
      r.distance <= Cost(p, Render(s1, s2, p).0, Render(s1, s2, p).1)
  {
    var A := FillTable(s1, s2);
    var t1, t2 := Backtrace(s1, s2, A);
    r := EditDistance(A[|s1|, |s2|], t1, t2);
    ghost var path := Path(s1, s2, |s1|, |s2|);
    Columns(path);
    PathCost(s1, s2, |s1|, |s2|);
    KeptReproduces(s1, s2, path);
    assert s1[..|s1|] == s1 && s2[..|s2|] == s2;
    forall p | Used1(p) == |s1| && Used2(p) == |s2|
      ensures r.distance <= Cost(p, Render(s1, s2, p).0, Render(s1, s2, p).1)
    {
      Optimal(s1, s2, p);
    }
  }
}
