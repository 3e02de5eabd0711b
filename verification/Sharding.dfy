/**
 How an embedding table is spread over the servers: rows are dealt out round robin to get each server's
 share, and the shares are laid out as contiguous inclusive ranges, in rank order.
 */
module Sharding {

  const I64_LIMIT: nat := 0x8000_0000_0000_0000

  datatype Result<T> = Ok(value: T) | InvalidInput

  /** The share of server `i` in closed form. */
  function ShardSize(rows: nat, n: nat, i: nat): nat
    requires n > 0
  {
    rows / n + if i < rows % n then 1 else 0
  }

  /** One more row goes to the next server in turn. */
  lemma DealOne(rows: nat, n: nat, i: nat)
    requires i < n
    ensures ShardSize(rows + 1, n, i) == ShardSize(rows, n, i) + if i == rows % n then 1 else 0
  {
    var q, r := rows / n, rows % n;
    assert rows == q * n + r;
    if r + 1 < n {
      DivModUnique(rows + 1, n, q, r + 1);
    } else {
      assert rows + 1 == (q + 1) * n;
      DivModUnique(rows + 1, n, q + 1, 0);
    }
  }

  lemma DivModUnique(x: nat, n: nat, q: nat, r: nat)
    requires r < n && x == q * n + r
    ensures x / n == q && x % n == r
  {
    var d := q - x / n;
    assert d * n == x % n - r by {
      assert x == x / n * n + x % n;
      assert d * n == q * n - x / n * n;
    }
    MultipleSize(d, n);
  }

  lemma MultipleSize(d: int, n: nat)
    ensures d >= 1 ==> d * n >= n
    ensures d <= -1 ==> d * n + n <= 0
  {
    if d >= 1 {
      assert (d - 1) * n >= 0;
    } else if d <= -1 {
      assert (-d - 1) * n >= 0;
    }
  }

  /** How many of the rows `0..rows` go to server `i` when row `k` goes to server `k % n`. */
  function RowsDealt(rows: nat, n: nat, i: nat): nat
    requires n > 0
  {
    if rows == 0 then 0 else RowsDealt(rows - 1, n, i) + if (rows - 1) % n == i then 1 else 0
  }

  /** The closed form is round robin: it counts the rows dealt to the server, and no two shares differ by more than one. */
  lemma {:induction false} RoundRobinShares(rows: nat, n: nat, i: nat)
    requires i < n
    ensures ShardSize(rows, n, i) == RowsDealt(rows, n, i)
    ensures forall j :: 0 <= j < n ==> ShardSize(rows, n, i) <= ShardSize(rows, n, j) + 1
  {
    if rows > 0 {
      RoundRobinShares(rows - 1, n, i);
      DealOne(rows - 1, n, i);
    }
  }

  /** Deals the rows out one by one; every server has an entry, even with nothing in it. */
  method AllRankLocalShard(firstDim: int, rank: int, serverNum: int) returns (r: Result<map<int, nat>>)
    ensures r.InvalidInput? <==> firstDim <= 0 || serverNum <= 0 || rank < 0 || rank >= serverNum
    ensures r.Ok? ==> forall i :: i in r.value <==> 0 <= i < serverNum
    ensures r.Ok? ==> forall i :: i in r.value ==> r.value[i] == ShardSize(firstDim, serverNum, i)
  {
    if firstDim <= 0 || serverNum <= 0 || rank < 0 {
      return InvalidInput;
    }
    if rank >= serverNum {
      return InvalidInput;
    }
    var shardDims: map<int, nat> := map[];
    var i := 0;
    while i < serverNum
      invariant 0 <= i <= serverNum
      invariant forall k :: k in shardDims <==> 0 <= k < i
      invariant forall k :: k in shardDims ==> shardDims[k] == 0
    {
      shardDims := shardDims[i := 0];
      i := i + 1;
    }
    var serverIndex := -1;
    i := 0;
    while i < firstDim
      invariant 0 <= i <= firstDim
      invariant forall k :: k in shardDims <==> 0 <= k < serverNum
      invariant serverIndex == if i == 0 then -1 else (i - 1) % serverNum
      invariant forall k :: k in shardDims ==> shardDims[k] == ShardSize(i, serverNum, k)
    {
      if i > 0 {
        NextInTurn(i - 1, serverNum);
      }
      serverIndex := (serverIndex + 1) % serverNum;
      forall k: nat | k < serverNum
        ensures ShardSize(i + 1, serverNum, k) == ShardSize(i, serverNum, k) + if k == i % serverNum then 1 else 0
      {
        DealOne(i, serverNum, k);
      }
      shardDims := shardDims[serverIndex := shardDims[serverIndex] + 1];
      i := i + 1;
    }
    return Ok(shardDims);
  }

  lemma NextInTurn(x: nat, n: nat)
    requires n > 0
    ensures (x % n + 1) % n == (x + 1) % n
  {
    var q, r := x / n, x % n;
    assert x == q * n + r;
    if r + 1 < n {
      DivModUnique(x + 1, n, q, r + 1);
      DivModUnique(r + 1, n, 0, r + 1);
    } else {
      assert x + 1 == (q + 1) * n;
      DivModUnique(x + 1, n, q + 1, 0);
      DivModUnique(r + 1, n, 1, 0);
    }
  }

  method LocalShard(firstDim: int, rank: int, serverNum: int) returns (r: Result<nat>)
    ensures r.InvalidInput? <==> firstDim <= 0 || serverNum <= 0 || rank < 0 || rank >= serverNum
    ensures r.Ok? ==> r.value == ShardSize(firstDim, serverNum, rank)
  {
    var dims := AllRankLocalShard(firstDim, rank, serverNum);
    if dims.InvalidInput? {
      return InvalidInput;
    }
    return Ok(dims.value[rank]);
  }

  // --------------------------------------------------------------- ranges

  /** An inclusive range of rows; empty when `end` is just below `begin`. */
  datatype Range = Range(begin: nat, end: nat)
  {
    predicate Contains(row: int) { begin <= row <= end }
  }

  /** The number of rows held by the servers before `i`. */
  function Offset(rows: nat, n: nat, i: nat): nat
    requires n > 0
  {
    if i == 0 then 0 else Offset(rows, n, i - 1) + ShardSize(rows, n, i - 1)
  }

  /** The `i`-th range of a table with at least one row. */
  function RangeOf(rows: nat, n: nat, i: nat): Range
    requires n > 0 && rows > 0
  {
    FirstShardHasRows(rows, n, i);
    Range(Offset(rows, n, i), Offset(rows, n, i + 1) - 1)
  }

  function RangesFor(rows: nat, n: nat): (ranges: seq<Range>)
    requires n > 0 && rows > 0
    ensures |ranges| == n
    ensures forall i :: 0 <= i < n ==> ranges[i] == RangeOf(rows, n, i)
  {
    seq(n, i requires 0 <= i < n => RangeOf(rows, n, i))
  }

  lemma {:induction false} FirstShardHasRows(rows: nat, n: nat, i: nat)
    requires n > 0 && rows > 0
    ensures Offset(rows, n, i + 1) >= 1
  {
    if i > 0 {
      FirstShardHasRows(rows, n, i - 1);
    } else {
      assert Offset(rows, n, 1) == Offset(rows, n, 0) + ShardSize(rows, n, 0);
      if rows / n == 0 {
        assert rows % n == rows;
      }
    }
  }

  lemma {:induction false} OffsetClosed(rows: nat, n: nat, i: nat)
    requires n > 0
    ensures Offset(rows, n, i) == i * (rows / n) + if i < rows % n then i else rows % n
  {
    if i > 0 {
      OffsetClosed(rows, n, i - 1);
      assert (i - 1) * (rows / n) + rows / n == i * (rows / n);
    }
  }

  /** The shares add up to the table. */
  lemma OffsetTotal(rows: nat, n: nat)
    requires n > 0
    ensures Offset(rows, n, n) == rows
  {
    OffsetClosed(rows, n, n);
  }

  lemma {:induction false} OffsetMonotone(rows: nat, n: nat, i: nat, j: nat)
    requires n > 0 && i <= j
    ensures Offset(rows, n, i) <= Offset(rows, n, j)
    decreases j - i
  {
    if i < j {
      OffsetMonotone(rows, n, i, j - 1);
    }
  }

  lemma {:induction false} FindShard(rows: nat, n: nat, k: nat, row: nat) returns (i: nat)
    requires n > 0 && row < Offset(rows, n, k)
    ensures i < k && Offset(rows, n, i) <= row < Offset(rows, n, i + 1)
  {
    if row < Offset(rows, n, k - 1) {
      i := FindShard(rows, n, k - 1, row);
    } else {
      i := k - 1;
    }
  }

  /**
   The ranges partition the table: every row lies in exactly one of them, no other number lies in any,
   and ranges of lower servers hold lower rows.
   */
  lemma PartitionLaw(rows: nat, n: nat, row: int)
    requires n > 0 && rows > 0
    ensures var ranges := RangesFor(rows, n);
      && (0 <= row < rows <==> exists i :: 0 <= i < n && ranges[i].Contains(row))
      && (forall i, j :: 0 <= i < n && 0 <= j < n && ranges[i].Contains(row) && ranges[j].Contains(row) ==> i == j)
      && (forall i, j, x :: 0 <= i < j < n && ranges[i].Contains(row) && ranges[j].Contains(x) ==> row < x)
  {
    hide Offset, ShardSize;
    var ranges := RangesFor(rows, n);
    OffsetTotal(rows, n);
    forall i, j, x | 0 <= i < j < n && ranges[i].Contains(row) && ranges[j].Contains(x) ensures row < x {
      OffsetMonotone(rows, n, i + 1, j);
    }
    if 0 <= row < rows {
      var i := FindShard(rows, n, n, row);
      assert ranges[i].Contains(row);
    }
    forall i | 0 <= i < n && ranges[i].Contains(row) ensures 0 <= row < rows {
      OffsetMonotone(rows, n, i + 1, n);
    }
  }

  /** Adding a table twice under one key appends the ranges, and they then overlap, whatever the two sizes. */
  lemma AddedTwiceOverlaps(a: nat, b: nat, n: nat)
    requires n > 0 && a > 0 && b > 0
    ensures var ranges := RangesFor(a, n) + RangesFor(b, n); ranges[0].Contains(0) && ranges[n].Contains(0)
  {
    FirstShardHasRows(a, n, 0);
    FirstShardHasRows(b, n, 0);
    assert RangeOf(a, n, 0).Contains(0) && RangeOf(b, n, 0).Contains(0);
  }
}
