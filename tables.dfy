/** The catalog table as the cleaning code sees it: a list of column names and
    the rows, each with the five cells the core reads or writes. */
module Tables {
  import opened Wrappers

  const NOMBRE := "nombre"
  const CATEGORIA := "categoria"
  const GRAMOS := "gramos/ml"
  const PRECIO := "precio"
  const PAIS := "país"

  /** A `gramos/ml` cell: missing (NaN), a float read from the file, or an integer. */
  datatype Quantity = Missing | Measured(x: real) | Whole(n: int)

  /** One catalog row; a cell of a column the table does not have is missing. */
  datatype Row = Row(
    nombre: Option<string>,
    categoria: Option<string>,
    gramos: Quantity,
    precio: real,
    pais: Option<string>)

  /** A table: its column names, in order, its rows, in order, and whether its
      `nombre` column holds strings (object dtype). pandas reads a column with no
      non-empty cell as float64, and `.str` on such a column raises. */
  datatype Table = Table(columns: seq<string>, rows: seq<Row>, textNames: bool)

  /** A row has no value in a column its table lacks (a data frame cannot hold one). */
  predicate RowFits(columns: seq<string>, r: Row)
  {
    (NOMBRE !in columns ==> r.nombre.None?) &&
    (CATEGORIA !in columns ==> r.categoria.None?) &&
    (GRAMOS !in columns ==> r.gramos.Missing?) &&
    (PAIS !in columns ==> r.pais.None?)
  }

  /** Every row fits the columns, and a `nombre` column that is not of string dtype
      holds no name. */
  predicate WellFormed(t: Table)
  {
    (forall r :: r in t.rows ==> RowFits(t.columns, r)) &&
    (!t.textNames ==> forall r :: r in t.rows ==> r.nombre.None?)
  }

  /** Assigning a column: an existing one keeps its place, a new one goes last. */
  function AddColumn(columns: seq<string>, c: string): (r: seq<string>)
    ensures forall x :: x in r <==> x in columns || x == c
    ensures |r| == |columns| + (if c in columns then 0 else 1) && r[..|columns|] == columns
    ensures c in columns ==> r == columns
  {
    if c in columns then columns else columns + [c]
  }

  /** The columns of a concatenation: those of `a`, then the new ones of `b` in order. */
  function UnionColumns(a: seq<string>, b: seq<string>): (r: seq<string>)
    ensures forall x :: x in r <==> x in a || x in b
    ensures |r| >= |a| && r[..|a|] == a
    decreases |b|
  {
    if b == [] then a
    else
      var a' := AddColumn(a, b[0]);
      var r := UnionColumns(a', b[1..]);
      assert forall x :: x in b ==> x == b[0] || x in b[1..];
      assert r[..|a|] == r[..|a'|][..|a|];
      r
  }

  /** `pd.concat([a, b], ignore_index=True)`: the rows of `a` followed by those of `b`;
      the names are strings when either side has a string `nombre` column. */
  function Concat(a: Table, b: Table): (t: Table)
    ensures forall c :: c in t.columns <==> c in a.columns || c in b.columns
    ensures t.rows == a.rows + b.rows
    ensures t.textNames <==> (NOMBRE in a.columns && a.textNames) || (NOMBRE in b.columns && b.textNames)
  {
    Table(UnionColumns(a.columns, b.columns), a.rows + b.rows,
      (NOMBRE in a.columns && a.textNames) || (NOMBRE in b.columns && b.textNames))
  }

  /** Concatenating two well-formed tables gives a well-formed table. */
  lemma ConcatWellFormed(a: Table, b: Table)
    requires WellFormed(a) && WellFormed(b)
    ensures WellFormed(Concat(a, b))
  {
  }

  /** `a` is `b` with some elements left out and the rest in their original order. */
  ghost predicate IsSubsequence<T>(a: seq<T>, b: seq<T>)
    decreases |b|
  {
    a == [] ||
    (b != [] && ((a[0] == b[0] && IsSubsequence(a[1..], b[1..])) || IsSubsequence(a, b[1..])))
  }

  lemma {:induction false} SubsequenceLength<T>(a: seq<T>, b: seq<T>)
    requires IsSubsequence(a, b)
    ensures |a| <= |b|
    ensures multiset(a) <= multiset(b)
    decreases |b|
  {
    if a != [] {
      assert b == [b[0]] + b[1..];
      if a[0] == b[0] && IsSubsequence(a[1..], b[1..]) {
        SubsequenceLength(a[1..], b[1..]);
        assert a == [a[0]] + a[1..];
      } else {
        SubsequenceLength(a, b[1..]);
      }
    }
  }

  lemma {:induction false} SubsequenceTransitive<T>(a: seq<T>, b: seq<T>, c: seq<T>)
    requires IsSubsequence(a, b) && IsSubsequence(b, c)
    ensures IsSubsequence(a, c)
    decreases |c|
  {
    if a != [] {
      if b[0] == c[0] && IsSubsequence(b[1..], c[1..]) {
        if a[0] == b[0] && IsSubsequence(a[1..], b[1..]) {
          SubsequenceTransitive(a[1..], b[1..], c[1..]);
        } else {
          SubsequenceTransitive(a, b[1..], c[1..]);
        }
      } else {
        SubsequenceTransitive(a, b, c[1..]);
      }
    }
  }

  lemma {:induction false} SubsequenceReflexive<T>(a: seq<T>)
    ensures IsSubsequence(a, a)
    decreases |a|
  {
    if a != [] {
      SubsequenceReflexive(a[1..]);
    }
  }
  /** Boolean-mask selection `df[mask]`: the elements satisfying `keep`, in order. */
  function Where(s: seq<Row>, keep: Row -> bool): (r: seq<Row>)
    ensures |r| <= |s|
    ensures forall x :: x in r <==> x in s && keep(x)
    decreases |s|
  {
    if s == [] then [] else (if keep(s[0]) then [s[0]] else []) + Where(s[1..], keep)
  }

  lemma {:induction false} WhereSubsequence(s: seq<Row>, keep: Row -> bool)
    ensures IsSubsequence(Where(s, keep), s)
    decreases |s|
  {
    if s != [] {
      var rest := Where(s[1..], keep);
      WhereSubsequence(s[1..], keep);
      if keep(s[0]) {
        assert Where(s, keep) == [s[0]] + rest;
        assert Where(s, keep)[1..] == rest;
      } else {
        assert Where(s, keep) == rest;
      }
    }
  }

  /** Selection distributes over concatenation. */
  lemma {:induction false} WhereConcat(a: seq<Row>, b: seq<Row>, keep: Row -> bool)
    ensures Where(a + b, keep) == Where(a, keep) + Where(b, keep)
    decreases |a|
  {
    if a == [] {
      assert a + b == b;
    } else {
      assert (a + b)[1..] == a[1..] + b;
      WhereConcat(a[1..], b, keep);
    }
  }

  /** Selection keeps everything when every element passes. */
  lemma {:induction false} WhereAll(s: seq<Row>, keep: Row -> bool)
    requires forall x :: x in s ==> keep(x)
    ensures Where(s, keep) == s
    decreases |s|
  {
    if s != [] {
      WhereAll(s[1..], keep);
    }
  }

  /** Two masks that agree on every element select the same elements. */
  lemma {:induction false} WhereAgree(s: seq<Row>, p: Row -> bool, q: Row -> bool)
    requires forall x :: x in s ==> p(x) == q(x)
    ensures Where(s, p) == Where(s, q)
    decreases |s|
  {
    if s != [] {
      WhereAgree(s[1..], p, q);
    }
  }

  /** Selecting twice is selecting once with both masks. */
  lemma {:induction false} WhereWhere(s: seq<Row>, p: Row -> bool, q: Row -> bool)
    ensures Where(Where(s, p), q) == Where(s, x => p(x) && q(x))
    decreases |s|
  {
    if s != [] {
      var both := x => p(x) && q(x);
      WhereWhere(s[1..], p, q);
      if p(s[0]) {
        assert Where(s, p) == [s[0]] + Where(s[1..], p);
        assert Where(s, p)[1..] == Where(s[1..], p);
        assert [s[0]] + Where(s[1..], p) == Where(s, p);
      } else {
        assert Where(s, p) == Where(s[1..], p);
      }
      assert Where(s, both) == (if both(s[0]) then [s[0]] else []) + Where(s[1..], both);
    }
  }
}
