/**
 * Two of the `Vectorization` exercises, loop version against array version:
 * gluing a vector onto a matrix as a new last column or row, and squaring the
 * entries below a threshold. The loop versions fill fresh two-dimensional
 * arrays; the array versions are the specification functions they are
 * proved to agree with.
 */
module Vectorization {
  import opened Wrappers
  import opened ArrayOps

  /** The contents of a two-dimensional array, row by row. */
  function Grid(a: array2<real>): (g: seq<seq<real>>)
    reads a
    ensures |g| == a.Length0 && Rect(g, a.Length1)
    ensures forall r, c :: 0 <= r < a.Length0 && 0 <= c < a.Length1 ==> g[r][c] == a[r, c]
  {
    seq(a.Length0, r requires 0 <= r < a.Length0 reads a =>
      seq(a.Length1, c requires 0 <= c < a.Length1 reads a => a[r, c]))
  }

  /** `np.column_stack((data, vector))`: every row gains the vector's entry as its last column. */
  function ColumnStack(data: seq<seq<real>>, vector: seq<real>): (m: seq<seq<real>>)
    requires |vector| == |data|
    ensures |m| == |data|
  {
    seq(|data|, r requires 0 <= r < |data| => data[r] + [vector[r]])
  }

  /** `np.row_stack((data, vector))`: the vector becomes a new last row. */
  function RowStack(data: seq<seq<real>>, vector: seq<real>): (m: seq<seq<real>>)
    ensures |m| == |data| + 1
  {
    data + [vector]
  }

  /** The dimensions `non_vectorized_glue` accepts: a column as long as the rows, or a row as long as the columns. */
  predicate GlueFits(rows: nat, cols: nat, vector: seq<real>, dimension: char)
  {
    (dimension == 'c' && |vector| == rows) || (dimension == 'r' && |vector| == cols)
  }

  /** `vectorized_glue`, on the inputs `non_vectorized_glue` accepts. */
  function VectorizedGlue(data: seq<seq<real>>, cols: nat, vector: seq<real>, dimension: char): (m: seq<seq<real>>)
    requires Rect(data, cols) && GlueFits(|data|, cols, vector, dimension)
  {
    if dimension == 'c' then ColumnStack(data, vector) else RowStack(data, vector)
  }

  /** One entry of the mask: squared below the threshold, kept otherwise. */
  function Masked(v: real, threshold: real): real
  {
    if v < threshold then v * v else v
  }

  /** `np.where(data < threshold, data * data, data)`. */
  function VectorizedMask(data: seq<seq<real>>, threshold: real): (m: seq<seq<real>>)
    ensures |m| == |data|
    ensures forall r :: 0 <= r < |data| ==> |m[r]| == |data[r]|
  {
    seq(|data|, r requires 0 <= r < |data| =>
      seq(|data[r]|, c requires 0 <= c < |data[r]| => Masked(data[r][c], threshold)))
  }

  const GlueError: string := "This parameter must be either c for column or r for row"

  /**
   * `non_vectorized_glue`: a fresh array of ones one column (or row) larger,
   * whose new last column (or row) is the vector, with the data copied in
   * cell by cell. Any other dimension or length is a `ValueError`.
   */
  method NonVectorizedGlue(data: array2<real>, vector: seq<real>, dimension: char) returns (result: Result<array2<real>>)
    ensures result.Failure? <==> !GlueFits(data.Length0, data.Length1, vector, dimension)
    ensures result.Failure? ==> result.error == GlueError
    ensures result.Success? ==>
      fresh(result.value) && Grid(result.value) == VectorizedGlue(Grid(data), data.Length1, vector, dimension)
  {
    var rows, cols := data.Length0, data.Length1;
    var glued: array2<real>;
    if dimension == 'c' && |vector| == rows {
      glued := new real[rows, cols + 1]((_, _) => 1.0);
      forall r | 0 <= r < rows {
        glued[r, cols] := 1.0 * vector[r];
      }
    } else if dimension == 'r' && |vector| == cols {
      glued := new real[rows + 1, cols]((_, _) => 1.0);
      forall c | 0 <= c < cols {
        glued[rows, c] := 1.0 * vector[c];
      }
    } else {
      return Failure(GlueError);
    }
    for row := 0 to rows
      invariant forall r, c :: 0 <= r < glued.Length0 && 0 <= c < glued.Length1 ==>
        glued[r, c] == if r < rows && c < cols then (if r < row then data[r, c] else 1.0)
                       else if dimension == 'c' then vector[r] else vector[c]
    {
      for col := 0 to cols
        invariant forall r, c :: 0 <= r < glued.Length0 && 0 <= c < glued.Length1 ==>
          glued[r, c] == if r < rows && c < cols then (if r < row || (r == row && c < col) then data[r, c] else 1.0)
                         else if dimension == 'c' then vector[r] else vector[c]
      {
        glued[row, col] := data[row, col];
      }
    }
    GlueCells(Grid(data), cols, vector, dimension, Grid(glued));
    return Success(glued);
  }

  /**
   * A matrix equals the glued one when it holds the data in the data's cells
   * and the vector in the new column or row.
   */
  lemma GlueCells(data: seq<seq<real>>, cols: nat, vector: seq<real>, dimension: char, g: seq<seq<real>>)
    requires Rect(data, cols) && GlueFits(|data|, cols, vector, dimension)
    requires dimension == 'c' ==> |g| == |data| && Rect(g, cols + 1)
    requires dimension != 'c' ==> |g| == |data| + 1 && Rect(g, cols)
    requires forall r, c {:trigger g[r][c]} :: 0 <= r < |g| && 0 <= c < |g[r]| ==>
      g[r][c] == if r < |data| && c < cols then data[r][c] else if dimension == 'c' then vector[r] else vector[c]
    ensures g == VectorizedGlue(data, cols, vector, dimension)
  {
    var v := VectorizedGlue(data, cols, vector, dimension);
    assert |g| == |v|;
    forall r | 0 <= r < |g|
      ensures g[r] == v[r]
    {
      assert |g[r]| == |v[r]|;
      forall c | 0 <= c < |g[r]|
        ensures g[r][c] == v[r][c]
      {
        if dimension == 'c' {
          assert v[r] == data[r] + [vector[r]];
          if c < cols {
            assert v[r][c] == data[r][c];
          } else {
            assert v[r][c] == vector[r];
          }
        } else if r < |data| {
          assert v[r] == data[r];
        } else {
          assert v[r] == vector;
        }
      }
    }
  }

  /**
   * `non_vectorized_mask`: a fresh array whose every cell holds the data's
   * value when it is at least the threshold and its square otherwise.
   */
  method NonVectorizedMask(data: array2<real>, threshold: real) returns (masked: array2<real>)
    ensures fresh(masked)
    ensures Grid(masked) == VectorizedMask(Grid(data), threshold)
  {
    masked := new real[data.Length0, data.Length1]((_, _) => 0.0);
    for row := 0 to data.Length0
      invariant forall r, c :: 0 <= r < row && 0 <= c < data.Length1 ==> masked[r, c] == Masked(data[r, c], threshold)
    {
      for col := 0 to data.Length1
        invariant forall r, c :: 0 <= r < row && 0 <= c < data.Length1 ==> masked[r, c] == Masked(data[r, c], threshold)
        invariant forall c :: 0 <= c < col ==> masked[row, c] == Masked(data[row, c], threshold)
      {
        var val := data[row, col];
        if val >= threshold {
          masked[row, col] := val;
          continue;
        }
        masked[row, col] := val * val;
      }
    }
    var g, v := Grid(masked), VectorizedMask(Grid(data), threshold);
    forall r | 0 <= r < |g|
      ensures g[r] == v[r]
    {
      assert forall c :: 0 <= c < |g[r]| ==> g[r][c] == v[r][c];
    }
  }

  // ---------------------------------------------------------------------
  // Properties of the array versions.

  /** Gluing a column is undone by dropping each row's last entry, which was the vector's. */
  lemma ColumnStackInverse(data: seq<seq<real>>, vector: seq<real>)
    requires |vector| == |data|
    ensures var m := ColumnStack(data, vector);
      forall r :: 0 <= r < |data| ==> |m[r]| > 0 && m[r][..|m[r]| - 1] == data[r] && m[r][|m[r]| - 1] == vector[r]
  {
    var m := ColumnStack(data, vector);
    forall r | 0 <= r < |data|
      ensures |m[r]| > 0 && m[r][..|m[r]| - 1] == data[r] && m[r][|m[r]| - 1] == vector[r]
    {
      assert m[r] == data[r] + [vector[r]];
    }
  }

  /** Gluing a row is undone by dropping the last row, which is the vector. */
  lemma RowStackInverse(data: seq<seq<real>>, vector: seq<real>)
    ensures var m := RowStack(data, vector);
      m[..|data|] == data && m[|data|] == vector
  {
  }

  /** The mask leaves a matrix whose entries are all at least the threshold unchanged. */
  lemma MaskFixesLarge(data: seq<seq<real>>, threshold: real)
    requires forall r, c :: 0 <= r < |data| && 0 <= c < |data[r]| ==> data[r][c] >= threshold
    ensures VectorizedMask(data, threshold) == data
  {
    var m := VectorizedMask(data, threshold);
    forall r | 0 <= r < |data|
      ensures m[r] == data[r]
    {
    }
  }
}
