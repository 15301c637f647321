/**
 * The matrix page: two grids of text cells (1 to 5 rows and columns each)
 * read into float matrices, then one of add, subtract, multiply, transpose,
 * determinant or inverse, with the dimension checks that guard them, the
 * log entry of a success and the text shown in each result cell. Floats are
 * reals; numpy's determinant and inverse and the "{:.4f}" format are
 * parameters.
 */
module Matrices {
  import opened Options
  import opened Numerals
  import opened History

  type Matrix = seq<seq<real>>

  /** float() beyond plain numerals, numpy's determinant and inverse, and the four-decimal fixed format. */
  datatype MatrixLib = MatrixLib(
    syntax: string -> Option<real>,
    det: Matrix -> real,
    inv: Matrix -> Matrix,
    fixed4: real -> string)

  /** m has r rows of c entries each. */
  predicate IsShape(m: Matrix, r: nat, c: nat)
  {
    |m| == r && forall i :: 0 <= i < r ==> |m[i]| == c
  }

  /** numpy's shape of a matrix read from a grid: rows, then the length of the first row. */
  function Cols(m: Matrix): nat
  {
    if |m| == 0 then 0 else |m[0]|
  }

  predicate Rectangular<T>(grid: seq<seq<T>>)
  {
    |grid| >= 1 && forall i :: 0 <= i < |grid| ==> |grid[i]| == |grid[0]|
  }

  // ------------------------------------------------------------ reading the grid

  /** One cell: its float() value, or 0 when float() raises ValueError. */
  function CellValue(text: string, syntax: string -> Option<real>): real
  {
    match PyFloat(text, syntax)
    case Some(v) => v
    case None => 0.0
  }

  /** The matrix a grid of cells reads as. */
  function Parsed(entries: seq<seq<string>>, syntax: string -> Option<real>): (m: Matrix)
    requires Rectangular(entries)
    ensures IsShape(m, |entries|, |entries[0]|)
  {
    seq(|entries|, i requires 0 <= i < |entries| =>
      seq(|entries[0]|, j requires 0 <= j < |entries[0]| => CellValue(entries[i][j], syntax)))
  }

  /** The rows of an array, as a value. */
  function Contents(a: array2<real>): (m: Matrix)
    reads a
    ensures IsShape(m, a.Length0, a.Length1)
  {
    seq(a.Length0, i requires 0 <= i < a.Length0 reads a =>
      seq(a.Length1, j requires 0 <= j < a.Length1 reads a => a[i, j]))
  }

  /**
   * get_matrix_values: a zeroed rows × cols array filled cell by cell; a cell
   * float() rejects stays 0. Whole numbers pass through int() first, which
   * leaves their value unchanged.
   */
  method GetMatrixValues(entries: seq<seq<string>>, syntax: string -> Option<real>) returns (m: array2<real>)
    requires Rectangular(entries)
    ensures fresh(m)
    ensures Contents(m) == Parsed(entries, syntax)
  {
    var rows, cols := |entries|, |entries[0]|;
    m := new real[rows, cols]((i, j) => 0.0);
    for i := 0 to rows
      invariant forall r, c :: 0 <= r < i && 0 <= c < cols ==> m[r, c] == CellValue(entries[r][c], syntax)
    {
      for j := 0 to cols
        invariant forall r, c :: 0 <= r < i && 0 <= c < cols ==> m[r, c] == CellValue(entries[r][c], syntax)
        invariant forall c :: 0 <= c < j ==> m[i, c] == CellValue(entries[i][c], syntax)
      {
        var value := PyFloat(entries[i][j], syntax);
        match value {
          case Some(v) => m[i, j] := v;
          case None => m[i, j] := 0.0;
        }
      }
    }
    assert forall r :: 0 <= r < rows ==> Contents(m)[r] == Parsed(entries, syntax)[r];
  }

  /** A cell float() rejects reads as 0; any other reads as its value. */
  lemma CellsReadAsFloats(entries: seq<seq<string>>, syntax: string -> Option<real>, i: nat, j: nat)
    requires Rectangular(entries) && i < |entries| && j < |entries[0]|
    ensures PyFloat(entries[i][j], syntax).None? ==> Parsed(entries, syntax)[i][j] == 0.0
    ensures PyFloat(entries[i][j], syntax).Some? ==> Parsed(entries, syntax)[i][j] == PyFloat(entries[i][j], syntax).value
  {
  }

  // ------------------------------------------------------------ the operations

  function Add(a: Matrix, b: Matrix): (s: Matrix)
    requires IsShape(b, |a|, Cols(a)) && IsShape(a, |a|, Cols(a))
    ensures IsShape(s, |a|, Cols(a))
  {
    seq(|a|, i requires 0 <= i < |a| => seq(Cols(a), j requires 0 <= j < Cols(a) => a[i][j] + b[i][j]))
  }

  function Subtract(a: Matrix, b: Matrix): (d: Matrix)
    requires IsShape(b, |a|, Cols(a)) && IsShape(a, |a|, Cols(a))
    ensures IsShape(d, |a|, Cols(a))
  {
    seq(|a|, i requires 0 <= i < |a| => seq(Cols(a), j requires 0 <= j < Cols(a) => a[i][j] - b[i][j]))
  }

  /** The sum of a[i][t] * b[t][j] over t < k. */
  function Dot(a: Matrix, b: Matrix, i: nat, j: nat, k: nat): real
    requires i < |a| && k <= |a[i]| && k <= |b| && forall t :: 0 <= t < k ==> j < |b[t]|
  {
    if k == 0 then 0.0 else Dot(a, b, i, j, k - 1) + a[i][k - 1] * b[k - 1][j]
  }

  /** numpy.matmul on an n × k and a k × m matrix. */
  function Multiply(a: Matrix, b: Matrix): (p: Matrix)
    requires IsShape(a, |a|, Cols(a)) && IsShape(b, Cols(a), Cols(b))
    ensures IsShape(p, |a|, Cols(b))
  {
    seq(|a|, i requires 0 <= i < |a| => seq(Cols(b), j requires 0 <= j < Cols(b) => Dot(a, b, i, j, Cols(a))))
  }

  function Transpose(a: Matrix): (t: Matrix)
    requires IsShape(a, |a|, Cols(a))
    ensures IsShape(t, Cols(a), |a|)
  {
    seq(Cols(a), j requires 0 <= j < Cols(a) => seq(|a|, i requires 0 <= i < |a| => a[i][j]))
  }

  function Identity(n: nat): (e: Matrix)
    ensures IsShape(e, n, n)
  {
    seq(n, i requires 0 <= i < n => seq(n, j requires 0 <= j < n => if i == j then 1.0 else 0.0))
  }

  // ------------------------------------------------------------ what the operations satisfy

  /** Subtracting b undoes adding it, and addition does not depend on the order. */
  lemma AddSubtractInverse(a: Matrix, b: Matrix)
    requires IsShape(a, |a|, Cols(a)) && IsShape(b, |a|, Cols(a))
    ensures Subtract(Add(a, b), b) == a
    ensures IsShape(b, |b|, Cols(b)) && Add(a, b) == Add(b, a)
  {
    var s := Add(a, b);
    assert Cols(s) == Cols(a) by {
      if |a| > 0 { assert |s[0]| == Cols(a); }
    }
    assert forall i :: 0 <= i < |a| ==> Subtract(s, b)[i] == a[i];
    if |a| > 0 {
      assert Cols(b) == Cols(a);
    }
    assert forall i :: 0 <= i < |a| ==> Add(a, b)[i] == Add(b, a)[i];
  }

  lemma ColsOfShape(m: Matrix, r: nat, c: nat)
    requires IsShape(m, r, c) && r > 0
    ensures Cols(m) == c
  {
  }

  /** Transposing twice gives the matrix back. */
  lemma TransposeTwice(a: Matrix)
    requires IsShape(a, |a|, Cols(a)) && |a| > 0 && Cols(a) > 0
    ensures Transpose(Transpose(a)) == a
  {
    var t := Transpose(a);
    ColsOfShape(t, Cols(a), |a|);
    assert forall i :: 0 <= i < |a| ==> Transpose(t)[i] == a[i];
  }

  /** The dot product of a row of the identity with a column of a picks the diagonal entry. */
  lemma {:induction false} IdentityDot(a: Matrix, n: nat, i: nat, j: nat, k: nat)
    requires IsShape(a, n, Cols(a)) && i < n && j < Cols(a) && k <= n
    ensures Dot(Identity(n), a, i, j, k) == if i < k then a[i][j] else 0.0
  {
    if k > 0 {
      IdentityDot(a, n, i, j, k - 1);
    }
  }

  /** The identity is neutral on the left. */
  lemma IdentityLeft(a: Matrix)
    requires IsShape(a, |a|, Cols(a)) && |a| > 0
    ensures Multiply(Identity(|a|), a) == a
  {
    var n := |a|;
    var e := Identity(n);
    ColsOfShape(e, n, n);
    forall i, j | 0 <= i < n && 0 <= j < Cols(a)
      ensures Multiply(e, a)[i][j] == a[i][j]
    {
      IdentityDot(a, n, i, j, n);
    }
    assert forall i :: 0 <= i < n ==> Multiply(e, a)[i] == a[i];
  }

  /** Swapping and transposing both factors leaves each dot product unchanged. */
  lemma {:induction false} DotOfTransposes(a: Matrix, b: Matrix, i: nat, j: nat, k: nat)
    requires IsShape(a, |a|, Cols(a)) && IsShape(b, Cols(a), Cols(b)) && |a| > 0 && Cols(a) > 0 && Cols(b) > 0
    requires i < |a| && j < Cols(b) && k <= Cols(a)
    ensures Dot(Transpose(b), Transpose(a), j, i, k) == Dot(a, b, i, j, k)
  {
    ColsOfShape(Transpose(b), Cols(b), Cols(a));
    ColsOfShape(Transpose(a), Cols(a), |a|);
    if k > 0 {
      DotOfTransposes(a, b, i, j, k - 1);
    }
  }

  /** (A × B)^T == B^T × A^T. */
  lemma TransposeOfProduct(a: Matrix, b: Matrix)
    requires IsShape(a, |a|, Cols(a)) && IsShape(b, Cols(a), Cols(b)) && |a| > 0 && Cols(a) > 0 && Cols(b) > 0
    ensures IsShape(Transpose(b), Cols(b), Cols(a)) && IsShape(Transpose(a), Cols(a), |a|)
    ensures Cols(Transpose(b)) == |Transpose(a)|
    ensures Transpose(Multiply(a, b)) == Multiply(Transpose(b), Transpose(a))
  {
    var p := Multiply(a, b);
    var bt, at := Transpose(b), Transpose(a);
    ColsOfShape(bt, Cols(b), Cols(a));
    ColsOfShape(at, Cols(a), |a|);
    ColsOfShape(p, |a|, Cols(b));
    forall j, i | 0 <= j < Cols(b) && 0 <= i < |a|
      ensures Transpose(p)[j][i] == Multiply(bt, at)[j][i]
    {
      DotOfTransposes(a, b, i, j, Cols(a));
    }
    assert forall j :: 0 <= j < Cols(b) ==> Transpose(p)[j] == Multiply(bt, at)[j];
  }

  // ------------------------------------------------------------ perform_operation

  datatype Operation = AddOp | SubtractOp | MultiplyOp | TransposeA | DeterminantA | InverseA

  /** What the result pane ends up showing, and the log entry of a success. */
  datatype Outcome =
    | Shown(result: Matrix, record: Record)
    | DeterminantShown(text: string, record: Record)
    | Rejected(message: string)

  function ShapeText(m: Matrix): string
  {
    IntText(|m|) + "x" + IntText(Cols(m))
  }

  function Completed(operation: string, result: Matrix): Record
  {
    Record("Matrix Operations", operation + " (" + ShapeText(result) + ")", "Matrix calculation completed")
  }

  /** The dimension checks and the operation chosen, on matrices read from their grids. */
  function Dispatch(op: Operation, a: Matrix, b: Matrix, lib: MatrixLib): Outcome
    requires IsShape(a, |a|, Cols(a)) && IsShape(b, |b|, Cols(b))
  {
    match op
    case AddOp =>
      if |a| != |b| || Cols(a) != Cols(b) then Rejected("Matrix dimensions must match for addition")
      else Shown(Add(a, b), Completed("A + B", Add(a, b)))
    case SubtractOp =>
      if |a| != |b| || Cols(a) != Cols(b) then Rejected("Matrix dimensions must match for subtraction")
      else Shown(Subtract(a, b), Completed("A - B", Subtract(a, b)))
    case MultiplyOp =>
      if Cols(a) != |b| then Rejected("Number of columns in A must equal number of rows in B for multiplication")
      else Shown(Multiply(a, b), Completed("A × B", Multiply(a, b)))
    case TransposeA =>
      Shown(Transpose(a), Completed("A^T", Transpose(a)))
    case DeterminantA =>
      if |a| != Cols(a) then Rejected("Matrix must be square to calculate determinant")
      else
        var text := "Determinant = " + lib.fixed4(lib.det(a));
        DeterminantShown(text, Record("Matrix Operations", "Determinant of " + ShapeText(a) + " matrix", text))
    case InverseA =>
      if |a| != Cols(a) then Rejected("Matrix must be square to calculate inverse")
      else if -0.0000000001 < lib.det(a) < 0.0000000001 then Rejected("Matrix is singular (not invertible)")
      else Shown(lib.inv(a), Completed("A^-1", lib.inv(a)))
  }

  /** perform_operation: read both grids, then dispatch. */
  method PerformOperation(op: Operation, entriesA: seq<seq<string>>, entriesB: seq<seq<string>>, lib: MatrixLib)
    returns (outcome: Outcome)
    requires Rectangular(entriesA) && Rectangular(entriesB)
    ensures outcome == Dispatch(op, Parsed(entriesA, lib.syntax), Parsed(entriesB, lib.syntax), lib)
  {
    var arrayA := GetMatrixValues(entriesA, lib.syntax);
    var arrayB := GetMatrixValues(entriesB, lib.syntax);
    outcome := Dispatch(op, Contents(arrayA), Contents(arrayB), lib);
  }

  /**
   * Each operation is refused exactly when its dimension check fails (the
   * inverse also when |det| < 1e-10); transpose is never refused.
   */
  lemma DispatchGuards(op: Operation, a: Matrix, b: Matrix, lib: MatrixLib)
    requires IsShape(a, |a|, Cols(a)) && IsShape(b, |b|, Cols(b))
    ensures var o := Dispatch(op, a, b, lib);
      && ((op == AddOp || op == SubtractOp) ==> (o.Rejected? <==> |a| != |b| || Cols(a) != Cols(b)))
      && (op == MultiplyOp ==> (o.Rejected? <==> Cols(a) != |b|))
      && (op == TransposeA ==> o.Shown?)
      && (op == DeterminantA ==> (o.Rejected? <==> |a| != Cols(a)))
      && (op == InverseA ==> (o.Rejected? <==> |a| != Cols(a) || -0.0000000001 < lib.det(a) < 0.0000000001))
  {
    match op
    case AddOp =>
    case SubtractOp =>
    case MultiplyOp =>
    case TransposeA =>
    case DeterminantA =>
    case InverseA =>
  }

  /** A computed result has the shape its operation promises, and its log entry names that shape. */
  lemma DispatchShapes(op: Operation, a: Matrix, b: Matrix, lib: MatrixLib)
    requires IsShape(a, |a|, Cols(a)) && IsShape(b, |b|, Cols(b)) && |a| > 0
    requires Dispatch(op, a, b, lib).Shown? && op != InverseA
    ensures var o := Dispatch(op, a, b, lib);
      && (op == MultiplyOp ==> IsShape(o.result, |a|, Cols(b)))
      && (op == TransposeA ==> IsShape(o.result, Cols(a), |a|))
      && ((op == AddOp || op == SubtractOp) ==> IsShape(o.result, |a|, Cols(a)))
      && o.record.result == "Matrix calculation completed"
  {
    match op
    case AddOp =>
    case SubtractOp =>
    case MultiplyOp =>
    case TransposeA =>
    case DeterminantA =>
    case InverseA =>
  }

  /** A square determinant is logged with the matrix's size, and the singular test is applied before inverting. */
  lemma SquareChecksFirst(a: Matrix, b: Matrix, lib: MatrixLib)
    requires IsShape(a, |a|, Cols(a)) && IsShape(b, |b|, Cols(b)) && |a| > 0
    ensures |a| != Cols(a) ==> Dispatch(InverseA, a, b, lib) == Rejected("Matrix must be square to calculate inverse")
    ensures |a| == Cols(a) ==> Dispatch(DeterminantA, a, b, lib).record.input == "Determinant of " + IntText(|a|) + "x" + IntText(|a|) + " matrix"
  {
  }

  // ------------------------------------------------------------ display_matrix

  predicate IsWhole(v: real)
  {
    v == v.Floor as real
  }

  /** One result cell: an integral value as an integer, a value within 1e-10 of zero as "0", else four decimals. */
  function CellText(v: real, lib: MatrixLib): string
  {
    if IsWhole(v) then IntText(v.Floor)
    else if -0.0000000001 < v < 0.0000000001 then "0"
    else lib.fixed4(v)
  }

  function Display(m: Matrix, lib: MatrixLib): (cells: seq<seq<string>>)
    ensures |cells| == |m| && forall i :: 0 <= i < |m| ==> |cells[i]| == |m[i]|
  {
    seq(|m|, i requires 0 <= i < |m| => seq(|m[i]|, j requires 0 <= j < |m[i]| => CellText(m[i][j], lib)))
  }

  /** An integral cell shows a text float() reads back as the same value; a tiny nonzero cell shows "0". */
  lemma CellTextSpec(v: real, lib: MatrixLib, syntax: string -> Option<real>)
    ensures IsWhole(v) ==> PyFloat(CellText(v, lib), syntax) == Some(v)
    ensures !IsWhole(v) && -0.0000000001 < v < 0.0000000001 ==> CellText(v, lib) == "0"
    ensures !IsWhole(v) && (v <= -0.0000000001 || v >= 0.0000000001) ==> CellText(v, lib) == lib.fixed4(v)
  {
    if IsWhole(v) {
      FloatOfIntText(v.Floor, syntax);
    }
  }

  /** clear_matrices followed by reading: every cell is "0", so the grid reads as the zero matrix. */
  lemma ClearedGridIsZero(rows: nat, cols: nat, syntax: string -> Option<real>)
    requires rows >= 1
    ensures var g := seq(rows, _ => seq(cols, _ => "0"));
      Rectangular(g) && forall i, j :: 0 <= i < rows && 0 <= j < cols ==> Parsed(g, syntax)[i][j] == 0.0
  {
    FloatOfIntText(0, syntax);
    assert IntText(0) == "0";
  }
}
