/** Integer grid cells and the x-major enumeration of a rectangle of cells,
    the order in which two nested `for` loops (x outer, y inner) visit it. */
module Cells {

  /** A board position; the engine's z coordinate is always 0 and is dropped. */
  datatype Cell = Cell(x: int, y: int)

  /** Number of integers in the closed range lo..hi. */
  function Span(lo: int, hi: int): nat
  {
    if lo <= hi then hi - lo + 1 else 0
  }

  predicate InRect(c: Cell, xlo: int, xhi: int, ylo: int, yhi: int)
  {
    xlo <= c.x <= xhi && ylo <= c.y <= yhi
  }

  /** No value occurs twice. */
  predicate NoDup<T(==)>(s: seq<T>)
  {
    forall i, j :: 0 <= i < j < |s| ==> s[i] != s[j]
  }

  /** The cells (x, ylo), (x, ylo + 1), ..., (x, yhi): one pass of the inner y loop. */
  function Column(x: int, ylo: int, yhi: int): seq<Cell>
    decreases yhi - ylo
  {
    if yhi < ylo then [] else Column(x, ylo, yhi - 1) + [Cell(x, yhi)]
  }

  /** Every cell of [xlo, xhi] x [ylo, yhi], column after column. */
  function Rect(xlo: int, xhi: int, ylo: int, yhi: int): seq<Cell>
    decreases xhi - xlo
  {
    if xhi < xlo then [] else Rect(xlo, xhi - 1, ylo, yhi) + Column(xhi, ylo, yhi)
  }

  /** The k-th cell of a column is (x, ylo + k). */
  lemma {:induction false} ColumnAt(x: int, ylo: int, yhi: int)
    ensures |Column(x, ylo, yhi)| == Span(ylo, yhi)
    ensures forall k :: 0 <= k < |Column(x, ylo, yhi)| ==> Column(x, ylo, yhi)[k] == Cell(x, ylo + k)
    decreases yhi - ylo
  {
    if ylo <= yhi {
      ColumnAt(x, ylo, yhi - 1);
    }
  }

  /** A column holds exactly the cells of its segment, each once. */
  lemma ColumnCells(x: int, ylo: int, yhi: int)
    ensures |Column(x, ylo, yhi)| == Span(ylo, yhi)
    ensures forall c :: c in Column(x, ylo, yhi) <==> InRect(c, x, x, ylo, yhi)
    ensures NoDup(Column(x, ylo, yhi))
  {
    ColumnAt(x, ylo, yhi);
    var col := Column(x, ylo, yhi);
    forall c | InRect(c, x, x, ylo, yhi) ensures c in col {
      assert col[c.y - ylo] == c;
    }
  }

  /** Concatenation is associative. */
  lemma AppendAssoc<T>(a: seq<T>, b: seq<T>, c: seq<T>)
    ensures a + b + c == a + (b + c)
  {
  }

  /** Concatenating two duplicate-free sequences with no common value gives a duplicate-free sequence. */
  lemma NoDupConcat<T>(a: seq<T>, b: seq<T>)
    requires NoDup(a) && NoDup(b)
    requires forall v :: v in a ==> v !in b
    ensures NoDup(a + b)
  {
    var s := a + b;
    forall i, j | 0 <= i < j < |s| ensures s[i] != s[j] {
      if j >= |a| && i < |a| {
        assert s[i] in a && s[j] in b;
      }
    }
  }

  /** The two halves of a duplicate-free concatenation are duplicate-free and share no value. */
  lemma NoDupSplit<T>(a: seq<T>, b: seq<T>)
    requires NoDup(a + b)
    ensures NoDup(a) && NoDup(b)
    ensures forall v :: v in a ==> v !in b
  {
    var s := a + b;
    forall i, j | 0 <= i < j < |a| ensures a[i] != a[j] {
      assert s[i] == a[i] && s[j] == a[j];
    }
    forall i, j | 0 <= i < j < |b| ensures b[i] != b[j] {
      assert s[|a| + i] == b[i] && s[|a| + j] == b[j];
    }
    forall i, j | 0 <= i < |a| && 0 <= j < |b| ensures a[i] != b[j] {
      assert s[i] == a[i] && s[|a| + j] == b[j];
    }
  }

  /** The enumeration of a rectangle visits exactly its cells, each once, Span * Span of them. */
  lemma {:induction false} RectCells(xlo: int, xhi: int, ylo: int, yhi: int)
    ensures |Rect(xlo, xhi, ylo, yhi)| == Span(xlo, xhi) * Span(ylo, yhi)
    ensures forall c :: c in Rect(xlo, xhi, ylo, yhi) <==> InRect(c, xlo, xhi, ylo, yhi)
    ensures NoDup(Rect(xlo, xhi, ylo, yhi))
    decreases xhi - xlo
  {
    if xlo <= xhi {
      var front := Rect(xlo, xhi - 1, ylo, yhi);
      var col := Column(xhi, ylo, yhi);
      RectCells(xlo, xhi - 1, ylo, yhi);
      ColumnCells(xhi, ylo, yhi);
      assert Span(xlo, xhi) == Span(xlo, xhi - 1) + 1;
      assert |front + col| == Span(xlo, xhi - 1) * Span(ylo, yhi) + Span(ylo, yhi);
      NoDupConcat(front, col);
    }
  }

  /** In a duplicate-free sequence every value occurs at most once. */
  lemma {:induction false} NoDupMultiplicity<T>(s: seq<T>)
    ensures NoDup(s) <==> forall v :: multiset(s)[v] <= 1
    decreases |s|
  {
    if s != [] {
      var t, e := s[..|s| - 1], s[|s| - 1];
      assert s == t + [e];
      NoDupMultiplicity(t);
      assert multiset(s) == multiset(t) + multiset{e};
      if NoDup(s) {
        assert NoDup(t) by {
          forall i, j | 0 <= i < j < |t| ensures t[i] != t[j] {
            assert t[i] == s[i] && t[j] == s[j];
          }
        }
        assert e !in t by {
          forall i | 0 <= i < |t| ensures t[i] != e {
            assert t[i] == s[i];
          }
        }
      }
      if forall v :: multiset(s)[v] <= 1 {
        assert forall v :: multiset(t)[v] <= multiset(s)[v];
        assert multiset(t)[e] == 0;
        forall i, j | 0 <= i < j < |s| ensures s[i] != s[j] {
          assert s[i] in t;
          if j == |t| {
            assert s[j] == e;
          } else {
            assert s[i] == t[i] && s[j] == t[j];
          }
        }
      }
    }
  }

  /** A duplicate-free sequence holds each value once if at all. */
  lemma NoDupCount<T>(s: seq<T>, v: T)
    requires NoDup(s)
    ensures multiset(s)[v] == if v in s then 1 else 0
  {
    NoDupMultiplicity(s);
  }

  /** Having no duplicates is a property of the multiset: permutations keep it. */
  lemma NoDupPermutation<T>(a: seq<T>, b: seq<T>)
    requires multiset(a) == multiset(b)
    requires NoDup(a)
    ensures NoDup(b)
  {
    NoDupMultiplicity(a);
    NoDupMultiplicity(b);
  }

  /** Sequences with the same multiset hold the same values. */
  lemma SameMembers<T>(a: seq<T>, b: seq<T>)
    requires multiset(a) == multiset(b)
    ensures forall v :: v in a <==> v in b
  {
    forall v ensures v in a <==> v in b {
      assert v in a <==> v in multiset(a);
      assert v in b <==> v in multiset(b);
    }
  }
}
