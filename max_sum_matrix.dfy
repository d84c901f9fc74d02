/** The row-sum scan of `MaximumSumMatrix.main`: the largest row sum of an r-by-c matrix
    and the index of the first row that reaches it. Row sums are Java `int` sums, so they
    wrap around on overflow; that is modelled explicitly. */
module MaximumSumMatrix {
  import opened JavaInt

  /** The `int` accumulated by `sum += matrix[i][j]` over the first `upto` columns of row i.
      What it means is proved beside it rather than in its own contract: `RowSumCongruent`
      shows it congruent to `ExactRowSum` modulo 2^32, and `RowSumWraps` that it equals
      `ExactRowSum` whenever that fits in an `int`. */
  function RowSum(m: array2<int32>, i: nat, upto: nat): int32
    requires i < m.Length0 && upto <= m.Length1
    reads m
  {
    if upto == 0 then 0 else Wrap32(RowSum(m, i, upto - 1) as int + m[i, upto - 1] as int)
  }

  /** The mathematical sum of the same entries. */
  function ExactRowSum(m: array2<int32>, i: nat, upto: nat): int
    requires i < m.Length0 && upto <= m.Length1
    reads m
  {
    if upto == 0 then 0 else ExactRowSum(m, i, upto - 1) + m[i, upto - 1] as int
  }

  /** The Java sum is the exact sum modulo 2^32. */
  lemma {:induction false} RowSumCongruent(m: array2<int32>, i: nat, upto: nat)
    requires i < m.Length0 && upto <= m.Length1
    ensures (RowSum(m, i, upto) as int - ExactRowSum(m, i, upto)) % 0x1_0000_0000 == 0
  {
    if upto > 0 {
      RowSumCongruent(m, i, upto - 1);
      WrapStep(RowSum(m, i, upto - 1) as int, ExactRowSum(m, i, upto - 1), m[i, upto - 1] as int);
    }
  }

  /** One `sum += x` step keeps the wrapped sum congruent to the exact one. */
  lemma WrapStep(wrapped: int, exact: int, x: int)
    requires (wrapped - exact) % 0x1_0000_0000 == 0
    ensures (Wrap32(wrapped + x) as int - (exact + x)) % 0x1_0000_0000 == 0
  {
    var d1 := Wrap32(wrapped + x) as int - (wrapped + x);
    var d2 := wrapped - exact;
    assert Wrap32(wrapped + x) as int - (exact + x) == d1 + d2;
    SumOfMultiples(d1, d2);
  }

  lemma SumOfMultiples(a: int, b: int)
    requires a % 0x1_0000_0000 == 0 && b % 0x1_0000_0000 == 0
    ensures (a + b) % 0x1_0000_0000 == 0
  {
    var M := 0x1_0000_0000;
    assert a == (a / M) * M && b == (b / M) * M;
    assert a + b == (a / M + b / M) * M;
  }

  /** Two `int` values congruent modulo 2^32 are equal. */
  lemma CongruentInRange(a: int, b: int)
    requires MIN_VALUE <= a <= MAX_VALUE && MIN_VALUE <= b <= MAX_VALUE
    requires (a - b) % 0x1_0000_0000 == 0
    ensures a == b
  {
  }

  /** The Java sum is the exact sum modulo 2^32, so the two agree whenever the exact sum
      fits in an `int`. */
  lemma RowSumWraps(m: array2<int32>, i: nat, upto: nat)
    requires i < m.Length0 && upto <= m.Length1
    ensures (RowSum(m, i, upto) as int - ExactRowSum(m, i, upto)) % 0x1_0000_0000 == 0
    ensures MIN_VALUE <= ExactRowSum(m, i, upto) <= MAX_VALUE ==> RowSum(m, i, upto) as int == ExactRowSum(m, i, upto)
  {
    RowSumCongruent(m, i, upto);
    if MIN_VALUE <= ExactRowSum(m, i, upto) <= MAX_VALUE {
      CongruentInRange(RowSum(m, i, upto) as int, ExactRowSum(m, i, upto));
    }
  }

  /** The nested scan. With no rows it reports MIN_VALUE at index -1; otherwise `indx`
      is the first row whose sum is the greatest, unless no sum exceeds MIN_VALUE, in
      which case it stays -1. The matrix is only read. */
  method MaxRowSum(matrix: array2<int32>) returns (max: int32, indx: int)
    ensures forall i :: 0 <= i < matrix.Length0 ==> RowSum(matrix, i, matrix.Length1) <= max
    ensures indx == -1 ==> max as int == MIN_VALUE
    ensures indx != -1 ==>
      && 0 <= indx < matrix.Length0 && max == RowSum(matrix, indx, matrix.Length1)
      && forall i :: 0 <= i < indx ==> RowSum(matrix, i, matrix.Length1) < max
    ensures indx == -1 <==> forall i :: 0 <= i < matrix.Length0 ==> RowSum(matrix, i, matrix.Length1) as int == MIN_VALUE
    ensures matrix.Length1 == 0 && matrix.Length0 > 0 ==> indx == 0 && max == 0
  {
    var r, c := matrix.Length0, matrix.Length1;
    max := MIN_VALUE as int32;
    indx := -1;
    for i := 0 to r
      invariant forall k :: 0 <= k < i ==> RowSum(matrix, k, c) <= max
      invariant indx == -1 ==> max as int == MIN_VALUE
      invariant indx != -1 ==>
        && 0 <= indx < i && max == RowSum(matrix, indx, c)
        && forall k :: 0 <= k < indx ==> RowSum(matrix, k, c) < max
      invariant indx == -1 <==> forall k :: 0 <= k < i ==> RowSum(matrix, k, c) as int == MIN_VALUE
    {
      var sum: int32 := 0;
      for j := 0 to c
        invariant sum == RowSum(matrix, i, j)
      {
        sum := Wrap32(sum as int + matrix[i, j] as int);
      }
      if sum > max {
        max := sum;
        indx := i;
      }
    }
    if c == 0 && r > 0 {
      assert RowSum(matrix, 0, c) == 0;
    }
  }
}
