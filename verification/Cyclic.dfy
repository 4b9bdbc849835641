/** The cyclic port counter (utilities.h). */
module Cyclic {
  import opened Octets

  function Next(d: Word, start: Word, end: Word): (r: Word)
    requires start <= d <= end
    ensures start <= r <= end
  {
    if d < end then d + 1 else start
  }

  function Prev(d: Word, start: Word, end: Word): (r: Word)
    requires start <= d <= end
    ensures start <= r <= end
  {
    if d > start then d - 1 else end
  }

  /** The counter after n steps forward. */
  function NextN(d: Word, start: Word, end: Word, n: nat): (r: Word)
    requires start <= d <= end
    ensures start <= r <= end
  {
    if n == 0 then d else Next(NextN(d, start, end, n - 1), start, end)
  }

  lemma NextPrev(d: Word, start: Word, end: Word)
    requires start <= d <= end
    ensures Prev(Next(d, start, end), start, end) == d
    ensures Next(Prev(d, start, end), start, end) == d
  {
  }

  lemma WrapOnce(a: nat, m: nat)
    requires m > 0
    ensures (a + 1) % m == if a % m == m - 1 then 0 else a % m + 1
  {
    var q, r := a / m, a % m;
    assert a + 1 == q * m + (r + 1);
    if r == m - 1 {
      assert a + 1 == (q + 1) * m;
      Remainder(a + 1, m, q + 1, 0);
    } else {
      Remainder(a + 1, m, q, r + 1);
    }
  }

  lemma Product(k: nat, m: nat)
    ensures k * m >= 0
  {
  }

  lemma Multiples(p: int, q: int, m: nat)
    requires p > q
    ensures p * m - q * m >= m
  {
    var k: nat := p - q - 1;
    Product(k, m);
    assert (k + 1) * m == k * m + m;
    assert p * m == (q + (k + 1)) * m == q * m + (k + 1) * m;
  }

  lemma Remainder(a: nat, m: nat, q: nat, r: nat)
    requires a == q * m + r && r < m
    ensures a % m == r
  {
    var q', r' := a / m, a % m;
    assert a == q' * m + r' && 0 <= r' < m;
    if q > q' {
      Multiples(q, q', m);
    } else if q < q' {
      Multiples(q', q, m);
    }
  }

  lemma OneStep(d: Word, start: Word, end: Word, a: nat)
    requires start <= d <= end && d == start + a % (end - start + 1)
    ensures Next(d, start, end) == start + (a + 1) % (end - start + 1)
  {
    WrapOnce(a, end - start + 1);
  }

  /** Counting n steps forward is adding n, modulo the size of the range. */
  lemma {:induction false} ClosedForm(d: Word, start: Word, end: Word, n: nat)
    requires start <= d <= end
    ensures NextN(d, start, end, n) == start + (d - start + n) % (end - start + 1)
  {
    var m := end - start + 1;
    if n == 0 {
      Remainder(d - start, m, 0, d - start);
    } else {
      ClosedForm(d, start, end, n - 1);
      OneStep(NextN(d, start, end, n - 1), start, end, d - start + (n - 1));
    }
  }

  lemma Different(a: nat, b: nat, m: nat)
    requires m > 0 && a < b < a + m
    ensures a % m != b % m
  {
    var q, r, q', r' := a / m, a % m, b / m, b % m;
    assert a == q * m + r && b == q' * m + r';
    if q' > q + 1 {
      Multiples(q', q + 1, m);
    } else if q' <= q && q' != q {
      Multiples(q, q', m);
    }
    Multiples(q + 1, q, m);
  }

  /** Fewer steps apart than the range is long, two counts differ. */
  lemma Distinct(d: Word, start: Word, end: Word, i: nat, j: nat)
    requires start <= d <= end && i < j <= i + (end - start)
    ensures NextN(d, start, end, i) != NextN(d, start, end, j)
  {
    ClosedForm(d, start, end, i);
    ClosedForm(d, start, end, j);
    Different(d - start + i, d - start + j, end - start + 1);
  }

  /** cyclic_uint32_t */
  class CyclicWord {
    var data: Word
    const start: Word
    const end: Word

    ghost predicate Valid()
      reads this
    {
      start <= data <= end
    }

    constructor (start: Word, end: Word, value: Word)
      ensures Valid()
      ensures this.start == Min(start, end) && this.end == start + end - Min(start, end)
      ensures data == if this.start <= value <= this.end then value else this.start
    {
      this.start := if start < end then start else end;
      this.end := if start < end then end else start;
      var lo := if start < end then start else end;
      var hi := if start < end then end else start;
      data := if lo <= value && value <= hi then value else lo;
    }

    method GotoPrev() returns (r: Word)
      requires Valid()
      modifies this
      ensures Valid() && r == data == Prev(old(data), start, end)
    {
      data := if data > start then data - 1 else end;
      r := data;
    }

    method GotoNext() returns (r: Word)
      requires Valid()
      modifies this
      ensures Valid() && r == data == Next(old(data), start, end)
    {
      data := if data < end then (data + 1) % 0x1_0000_0000 else start;
      r := data;
    }

    /** port++ gives the value before the step. */
    method PostIncrement() returns (before: Word)
      requires Valid()
      modifies this
      ensures Valid() && before == old(data) && data == Next(before, start, end)
    {
      before := data;
      var _ := GotoNext();
    }
  }
}
