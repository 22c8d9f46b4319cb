/** The reference kernel's sequential solve: rows of a strictly lower matrix overwritten in place. */
module ForwardSubstitution {
  import opened Sums
  import opened Matrices
  import opened Triangular

  /** The matrix an array currently holds. */
  function Contents(a: array2<real>): (A: Matrix)
    reads a
    ensures A.rows == a.Length0 && A.cols == a.Length1
    ensures forall i, j :: 0 <= i < a.Length0 && 0 <= j < a.Length1 ==> At(A, i, j) == a[i, j]
  {
    Mat(a.Length0, a.Length1,
        seq(a.Length0, i requires 0 <= i < a.Length0 reads a =>
          seq(a.Length1, j requires 0 <= j < a.Length1 reads a => a[i, j])))
  }

  /** Rows before k of R already satisfy R = A + A R; the others are still those of A. */
  ghost predicate SolvedUpTo(A: Matrix, R: Matrix, k: int)
    requires Square(A)
  {
    && R.rows == A.rows && R.cols == A.cols
    && (forall i, j :: 0 <= i < k && 0 <= j < A.rows ==> At(R, i, j) == At(A, i, j) + Dot(A, R, i, j))
    && (forall i, j :: k <= i ==> At(R, i, j) == At(A, i, j))
  }

  /** R' is R with row k replaced by row k + row k times R, up to the diagonal. */
  ghost predicate RowWritten(R: Matrix, R': Matrix, k: int) {
    && R'.rows == R.rows && R'.cols == R.cols
    && (forall i, j :: i != k || j >= k ==> At(R', i, j) == At(R, i, j))
    && (forall j :: 0 <= j < k ==> At(R', k, j) == At(R, k, j) + (if k >= 0 then Sum(k, Term(R, R, k, j)) else 0.0))
  }

  /** Rows above the written one are read only above it. */
  lemma EarlierRow(A: Matrix, R: Matrix, R': Matrix, k: int, i: int, j: int)
    requires StrictLower(A) && RowWritten(R, R', k) && 0 <= i < k
    ensures Dot(A, R', i, j) == Dot(A, R, i, j)
  {
    hide At;
    SumExt(A.cols, Term(A, R', i, j), Term(A, R, i, j));
  }

  /** The written row: its coefficients are still those of A, and it reads only finished rows. */
  lemma WrittenRow(A: Matrix, R: Matrix, R': Matrix, k: int, j: int)
    requires StrictLower(A) && StrictLower(R) && SolvedUpTo(A, R, k) && RowWritten(R, R', k) && 0 <= k < A.rows
    ensures Dot(A, R', k, j) == Sum(k, Term(R, R, k, j))
    ensures j >= k ==> Sum(k, Term(R, R, k, j)) == 0.0
  {
    hide At;
    SumTruncate(k, A.cols, Term(A, R', k, j));
    SumExt(k, Term(A, R', k, j), Term(R, R, k, j));
    if j >= k { SumZero(k, Term(R, R, k, j)); }
  }

  lemma SolvedStep(A: Matrix, R: Matrix, R': Matrix, k: int)
    requires StrictLower(A) && StrictLower(R) && 0 <= k < A.rows
    requires SolvedUpTo(A, R, k) && RowWritten(R, R', k)
    ensures SolvedUpTo(A, R', k + 1)
  {
    hide At, Dot;
    forall i, j | 0 <= i <= k && 0 <= j < A.rows
      ensures At(R', i, j) == At(A, i, j) + Dot(A, R', i, j)
    {
      if i < k { EarlierRow(A, R, R', k, i, j); } else { WrittenRow(A, R, R', k, j); }
    }
  }

  lemma StrictStep(R: Matrix, R': Matrix, k: int)
    requires StrictLower(R) && RowWritten(R, R', k) && 0 <= k < R.rows
    ensures StrictLower(R')
  {
    hide At;
  }

  lemma SolvedIsInverse(A: Matrix, R: Matrix)
    requires StrictLower(A) && SolvedUpTo(A, R, A.rows)
    ensures Add(R, Identity(A.rows)) == Inverse(A)
  {
    hide At;
    var I := Identity(A.rows);
    var T := Add(R, I);
    MulSubLeft(I, A, T);
    MulIdentityLeft(T);
    MulAddRight(A, R, I);
    MulIdentityRight(A);
    Ext(Mul(OneMinus(A), T), I);
    InverseUnique(A, T);
  }

  /** attn holds A on entry and Inverse(A) - I on exit; only attn is written. */
  method ForwardSubstitute(attn: array2<real>)
    requires attn.Length0 == attn.Length1
    requires StrictLower(Contents(attn))
    modifies attn
    ensures Add(Contents(attn), Identity(attn.Length0)) == Inverse(old(Contents(attn)))
    ensures StrictLower(Contents(attn))
  {
    hide At, StrictLower, SolvedUpTo, RowWritten;
    ghost var A := Contents(attn);
    var i := 1;
    SolvedFirstRow(A);
    while i < attn.Length0
      invariant 1 <= i
      invariant StrictLower(Contents(attn))
      invariant SolvedUpTo(A, Contents(attn), if i <= attn.Length0 then i else attn.Length0)
    {
      var before := Contents(attn);
      forall k | 0 <= k < i {
        attn[i, k] := At(before, i, k) + Sum(i, Term(before, before, i, k));
      }
      var after := Contents(attn);
      WrittenEntries(before, after, i);
      SolvedStep(A, before, after, i);
      StrictStep(before, after, i);
      i := i + 1;
    }
    SolvedIsInverse(A, Contents(attn));
  }

  /** An array whose row i was overwritten in this way holds the matrix RowWritten describes. */
  lemma WrittenEntries(R: Matrix, R': Matrix, i: int)
    requires R.rows == R'.rows && R.cols == R'.cols && 0 <= i < R.rows
    requires forall r, c :: 0 <= r < R.rows && 0 <= c < R.cols ==>
               At(R', r, c) == if r == i && c < i then At(R, i, c) + Sum(i, Term(R, R, i, c)) else At(R, r, c)
    requires R.rows == R.cols
    ensures RowWritten(R, R', i)
  {
  }

  lemma SolvedFirstRow(A: Matrix)
    requires StrictLower(A)
    ensures SolvedUpTo(A, A, if A.rows > 0 then 1 else 0)
  {
    forall j {:trigger Dot(A, A, 0, j)} | 0 <= j < A.rows
      ensures Dot(A, A, 0, j) == 0.0
    {
      SumZero(A.rows, Term(A, A, 0, j));
    }
  }
}
