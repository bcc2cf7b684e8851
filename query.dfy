/** What an ORM query over a table returns: rows in scan order, filtered, then paged. */
module Query {

  function Min(a: int, b: int): int { if a <= b then a else b }

  /** The first row an `OFFSET skip` returns: SQLite treats a negative offset as zero. */
  function Start(skip: int): nat { if skip < 0 then 0 else skip }

  /**
   * `.offset(skip).limit(limit)` as SQLite runs it: the rows from position `skip` on,
   * at most `limit` of them, where a negative `limit` sets no bound.
   */
  function Window<T>(rows: seq<T>, skip: int, limit: int): (r: seq<T>)
    ensures |r| == if Start(skip) >= |rows| then 0
                   else if limit < 0 then |rows| - Start(skip)
                   else Min(limit, |rows| - Start(skip))
    ensures forall i :: 0 <= i < |r| ==> r[i] == rows[Start(skip) + i]
  {
    var s := Start(skip);
    if s >= |rows| then []
    else if limit < 0 then rows[s..]
    else rows[s..s + Min(limit, |rows| - s)]
  }

  /** A negative offset is no offset, and a negative limit is as good as a limit of the whole table. */
  lemma NegativeBounds<T>(rows: seq<T>, skip: int, limit: int)
    ensures skip < 0 ==> Window(rows, skip, limit) == Window(rows, 0, limit)
    ensures limit < 0 ==> Window(rows, skip, limit) == Window(rows, skip, |rows|)
    ensures Window(rows, skip, -1) == Window(rows, skip, |rows|)
  {
  }

  /** Consecutive pages tile the result: the page after `skip` rows followed by the next one is one larger page. */
  lemma WindowsTile<T>(rows: seq<T>, skip: nat, a: nat, b: nat)
    ensures Window(rows, skip, a) + Window(rows, skip + a, b) == Window(rows, skip, a + b)
  {
    var w1, w2, w := Window(rows, skip, a), Window(rows, skip + a, b), Window(rows, skip, a + b);
    assert |w1 + w2| == |w|;
    forall i | 0 <= i < |w| ensures (w1 + w2)[i] == w[i] {
      if i >= |w1| {
        assert (w1 + w2)[i] == w2[i - |w1|];
      }
    }
  }

  /** `a` is `b` with some elements left out, the rest in their order. */
  predicate IsSubsequence<T(==)>(a: seq<T>, b: seq<T>)
    decreases |b|
  {
    if a == [] then true
    else if b == [] then false
    else if a[0] == b[0] then IsSubsequence(a[1..], b[1..])
    else IsSubsequence(a, b[1..])
  }

  lemma {:induction false} SubsequenceSkip<T>(a: seq<T>, b: seq<T>, x: T)
    requires IsSubsequence(a, b)
    ensures IsSubsequence(a, [x] + b)
    decreases |b|, 1
  {
    var xb := [x] + b;
    assert xb[1..] == b;
    if a != [] && a[0] == x {
      SubsequencePrefixFree(a, b, x);
    }
  }

  lemma {:induction false} SubsequencePrefixFree<T>(a: seq<T>, b: seq<T>, x: T)
    requires a != [] && a[0] == x && IsSubsequence(a, b)
    ensures IsSubsequence(a[1..], b)
    decreases |b|, 0
  {
    if b != [] {
      if a[0] == b[0] {
        SubsequenceSkip(a[1..], b[1..], b[0]);
        assert [b[0]] + b[1..] == b;
      } else {
        SubsequencePrefixFree(a, b[1..], x);
        SubsequenceSkip(a[1..], b[1..], b[0]);
        assert [b[0]] + b[1..] == b;
      }
    }
  }

  /** Extending both sequences by the same element, or only the longer one, keeps the relation. */
  lemma {:induction false} SubsequenceSnoc<T>(a: seq<T>, b: seq<T>, x: T)
    requires IsSubsequence(a, b)
    ensures IsSubsequence(a + [x], b + [x]) && IsSubsequence(a, b + [x])
    decreases |b|
  {
    if b == [] {
      assert a == [];
      assert ([x] + [])[1..] == [];
    } else if a == [] {
      assert (b + [x])[1..] == b[1..] + [x];
      if b[0] != x {
        SubsequenceSnoc(a, b[1..], x);
        assert a + [x] == [x];
      }
    } else if a[0] == b[0] {
      SubsequenceSnoc(a[1..], b[1..], x);
      assert (a + [x])[1..] == a[1..] + [x];
      assert (b + [x])[1..] == b[1..] + [x];
    } else {
      SubsequenceSnoc(a, b[1..], x);
      assert (b + [x])[1..] == b[1..] + [x];
    }
  }
}
