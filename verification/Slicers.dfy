/**
 The worker's side of sharding: it keeps every table's ranges and every key's server, and cuts a message
 into one slice per server. The theorems say that the slices together mean what the message meant.
 */
module Slicers {
  import opened Bytes
  import opened Sharding

  type Key = nat
  type Row = seq<real>

  const I32_LIMIT: int := 0x8000_0000

  predicate IsI32(x: int) { -I32_LIMIT <= x < I32_LIMIT }

  /** An id as it is compared with the unsigned ends of a range. */
  function AsU64(id: int): int { if id < 0 then id + U64_LIMIT else id }

  predicate Hits(range: Range, id: int) { range.Contains(AsU64(id)) }

  // ----------------------------------------------------- lookup of row ids

  /** `slice` lists the requested ids of `range`, each once, in any order. */
  ghost predicate IsLookupSlice(range: Range, ids: seq<int>, slice: seq<int>) {
    && (forall i, j :: 0 <= i < j < |slice| ==> slice[i] != slice[j])
    && (forall id :: id in slice <==> id in ids && Hits(range, id))
  }

  /** A requested row of the table is asked for in exactly one slice, and once; anything else in none. */
  lemma LookupLaw(rows: nat, n: nat, ids: seq<int>, slices: seq<seq<int>>, id: int)
    requires n > 0 && 0 < rows < I64_LIMIT && |slices| == n && IsI32(id)
    requires forall i :: 0 <= i < n ==> IsLookupSlice(RangeOf(rows, n, i), ids, slices[i])
    ensures id in ids && 0 <= id < rows <==> exists i :: 0 <= i < n && id in slices[i]
    ensures forall i, j :: 0 <= i < n && 0 <= j < n && id in slices[i] && id in slices[j] ==> i == j
  {
    hide RangeOf;
    var ranges := RangesFor(rows, n);
    PartitionLaw(rows, n, AsU64(id));
    forall i | 0 <= i < n ensures id in slices[i] <==> id in ids && ranges[i].Contains(AsU64(id)) {
      assert IsLookupSlice(RangeOf(rows, n, i), ids, slices[i]);
    }
    if id in ids && 0 <= id < rows {
      var i :| 0 <= i < n && ranges[i].Contains(AsU64(id));
      assert id in slices[i];
    }
  }

  // --------------------------------------------------- initial table values

  function Product(a: nat, b: nat): (p: nat) { a * b }

  function Concat<T>(parts: seq<seq<T>>): seq<T> {
    if parts == [] then [] else Concat(parts[..|parts| - 1]) + parts[|parts| - 1]
  }

  /** The values of the rows in `range`, `cols` to a row. */
  function ValuesOf(range: Range, values: seq<real>, cols: nat): (slice: seq<real>)
    requires range.begin <= range.end + 1 && Product(range.end + 1, cols) <= |values|
  {
    ProductMonotone(range.begin, range.end + 1, cols);
    values[Product(range.begin, cols)..Product(range.end + 1, cols)]
  }

  lemma ProductMonotone(a: nat, b: nat, c: nat)
    requires a <= b
    ensures Product(a, c) <= Product(b, c)
  {
    assert (b - a) * c >= 0;
  }

  lemma WholeRows(size: nat, rows: nat)
    requires rows > 0
    ensures Product(rows, size / rows) + size % rows == size
  {
  }

  lemma RangeFits(rows: nat, n: nat, i: nat, values: seq<real>)
    requires n > 0 && rows > 0 && i < n
    ensures var r := RangeOf(rows, n, i);
      && r.begin <= r.end + 1 <= rows && r.end + 1 == Offset(rows, n, i + 1)
      && Product(r.end + 1, |values| / rows) <= |values|
  {
    hide Offset, ShardSize, Product;
    var cols := |values| / rows;
    OffsetMonotone(rows, n, i, i + 1);
    OffsetMonotone(rows, n, i + 1, n);
    OffsetTotal(rows, n);
    ProductMonotone(Offset(rows, n, i + 1), rows, cols);
    WholeRows(|values|, rows);
  }

  /** The slices of a table's initial values, one per server. */
  function InitSlices(rows: nat, n: nat, values: seq<real>): (slices: seq<seq<real>>)
    requires n > 0 && rows > 0
    ensures |slices| == n
  {
    seq(n, i requires 0 <= i < n =>
      (RangeFits(rows, n, i, values); ValuesOf(RangeOf(rows, n, i), values, |values| / rows)))
  }

  /** Every range lies within the values. */
  predicate RangesFit(ranges: seq<Range>, values: seq<real>, cols: nat) {
    forall i :: 0 <= i < |ranges| ==> ranges[i].begin <= ranges[i].end + 1 && Product(ranges[i].end + 1, cols) <= |values|
  }

  /** The ranges of a table that was added once fit, and cut the values into its slices. */
  lemma TableFits(rows: nat, n: nat, values: seq<real>)
    requires n > 0 && rows > 0
    ensures RangesFit(RangesFor(rows, n), values, |values| / rows)
    ensures forall i :: 0 <= i < n ==>
      InitSlices(rows, n, values)[i] == ValuesOf(RangesFor(rows, n)[i], values, |values| / rows)
  {
    hide Offset, Product;
    forall i | 0 <= i < n
      ensures var r := RangeOf(rows, n, i); r.begin <= r.end + 1 && Product(r.end + 1, |values| / rows) <= |values|
    {
      RangeFits(rows, n, i, values);
    }
  }

  /** The first `i` slices cover the rows of the first `i` servers. */
  lemma {:induction false} InitPrefix(rows: nat, n: nat, values: seq<real>, i: nat)
    requires n > 0 && rows > 0 && i <= n
    ensures Product(Offset(rows, n, i), |values| / rows) <= |values|
    ensures Concat(InitSlices(rows, n, values)[..i]) == values[..Product(Offset(rows, n, i), |values| / rows)]
  {
    var cols, slices := |values| / rows, InitSlices(rows, n, values);
    if i == 0 {
      assert slices[..0] == [] && Product(0, cols) == 0;
    } else {
      hide Offset, ShardSize, Product;
      InitPrefix(rows, n, values, i - 1);
      RangeFits(rows, n, i - 1, values);
      var r := RangeOf(rows, n, i - 1);
      assert slices[..i][..i - 1] == slices[..i - 1];
      assert slices[i - 1] == ValuesOf(r, values, cols);
      ProductMonotone(r.begin, r.end + 1, cols);
      assert values[..Product(r.begin, cols)] + values[Product(r.begin, cols)..Product(r.end + 1, cols)]
        == values[..Product(r.end + 1, cols)];
    }
  }

  /** The slices put together give all values back, if and only if the values fill whole rows. */
  lemma InitLaw(rows: nat, n: nat, values: seq<real>)
    requires n > 0 && rows > 0
    ensures Concat(InitSlices(rows, n, values)) == values <==> |values| % rows == 0
    ensures Concat(InitSlices(rows, n, values)) <= values
  {
    hide Offset, RangeOf, InitSlices, Product;
    var slices := InitSlices(rows, n, values);
    InitPrefix(rows, n, values, n);
    OffsetTotal(rows, n);
    assert slices[..n] == slices;
    WholeRows(|values|, rows);
  }

  // ----------------------------------------------------------- row updates

  datatype Update = Update(id: int, row: Row)

  /** The updates in a message: id `j` goes with the `j`-th group of `dim` values. */
  function UpdatesOf(ids: seq<int>, values: seq<real>, dim: nat): (us: seq<Update>)
    requires Product(|ids|, dim) <= |values|
    ensures |us| == |ids|
  {
    seq(|ids|, j requires 0 <= j < |ids| => Update(ids[j], Group(values, dim, j, |ids|)))
  }

  function Group(values: seq<real>, dim: nat, j: nat, n: nat): Row
    requires j < n && Product(n, dim) <= |values|
  {
    ProductMonotone(j, j + 1, dim);
    ProductMonotone(j + 1, n, dim);
    values[Product(j, dim)..Product(j + 1, dim)]
  }

  function Select(range: Range, us: seq<Update>): seq<Update> {
    if us == [] then []
    else
      var u := us[|us| - 1];
      Select(range, us[..|us| - 1]) + (if Hits(range, u.id) then [u] else [])
  }

  /** Updates applied in order to the rows a table has; later ones win. */
  function Apply(table: map<int, Row>, us: seq<Update>): map<int, Row> {
    if us == [] then table
    else
      var t, u := Apply(table, us[..|us| - 1]), us[|us| - 1];
      if u.id in t then t[u.id := u.row] else t
  }

  function Restrict(table: map<int, Row>, range: Range): map<int, Row> {
    map r | r in table && range.Contains(r) :: table[r]
  }

  /** Of one update, selection keeps it or nothing. */
  lemma SelectOne(range: Range, u: Update)
    ensures Select(range, [u]) == if range.Contains(AsU64(u.id)) then [u] else []
  {
    assert [u][..0] == [];
    assert Select(range, []) == [];
  }

  lemma SelectLast(range: Range, us: seq<Update>, u: Update)
    ensures Select(range, us + [u]) == Select(range, us) + Select(range, [u])
  {
    SelectOne(range, u);
    assert (us + [u])[..|us|] == us;
  }

  /** Selection keeps every update that hits the range, repeated ones included, and keeps their order. */
  lemma {:induction false} SelectLaw(range: Range, a: seq<Update>, b: seq<Update>)
    ensures Select(range, a + b) == Select(range, a) + Select(range, b)
    decreases |b|
  {
    assert Select(range, []) == [];
    hide Select;
    if b == [] {
      assert a + b == a;
    } else {
      var pre, u := b[..|b| - 1], b[|b| - 1];
      SelectLaw(range, a, pre);
      SelectLast(range, a + pre, u);
      SelectLast(range, pre, u);
      assert b == pre + [u];
      assert a + b == a + pre + [u];
      var x, y, z := Select(range, a), Select(range, pre), Select(range, [u]);
      assert x + y + z == x + (y + z);
    }
  }

  /** Applying updates leaves every row with the last update of its id, and rows without one as they were. */
  lemma {:induction false} ApplyLaw(table: map<int, Row>, us: seq<Update>, r: int)
    requires r in table
    ensures r in Apply(table, us)
    ensures (forall k :: 0 <= k < |us| ==> us[k].id != r) ==> Apply(table, us)[r] == table[r]
    ensures forall k :: 0 <= k < |us| && us[k].id == r && (forall j :: k < j < |us| ==> us[j].id != r) ==>
      Apply(table, us)[r] == us[k].row
  {
    if us != [] {
      var n := |us| - 1;
      ApplyLaw(table, us[..n], r);
      if us[n].id != r {
        assert Apply(table, us)[r] == Apply(table, us[..n])[r];
        forall k | 0 <= k < |us| && us[k].id == r && (forall j :: k < j < |us| ==> us[j].id != r)
          ensures Apply(table, us)[r] == us[k].row
        {
          assert us[..n][k].id == r;
        }
      }
    }
  }

  /** One server's share of the updates does to its share of the table what all updates do to the whole table. */
  lemma {:induction false} ShardUpdate(table: map<int, Row>, range: Range, us: seq<Update>)
    requires range.end < I64_LIMIT && forall i :: 0 <= i < |us| ==> IsI32(us[i].id)
    ensures Apply(table, us).Keys == table.Keys
    ensures Apply(Restrict(table, range), Select(range, us)) == Restrict(Apply(table, us), range)
  {
    if us != [] {
      var pre, u := us[..|us| - 1], us[|us| - 1];
      ShardUpdate(table, range, pre);
      var whole, part := Apply(table, pre), Apply(Restrict(table, range), Select(range, pre));
      if Hits(range, u.id) {
        assert (Select(range, pre) + [u])[..|Select(range, pre)|] == Select(range, pre);
        assert range.Contains(u.id);
        assert u.id in whole ==> Restrict(whole[u.id := u.row], range) == part[u.id := u.row];
      } else {
        assert Select(range, us) == Select(range, pre);
        assert !range.Contains(u.id);
      }
    }
  }

  function Ids(us: seq<Update>): (ids: seq<int>)
    ensures |ids| == |us|
  {
    if us == [] then [] else Ids(us[..|us| - 1]) + [us[|us| - 1].id]
  }

  function Values(us: seq<Update>): seq<real> {
    if us == [] then [] else Values(us[..|us| - 1]) + us[|us| - 1].row
  }

  predicate RowsHave(us: seq<Update>, dim: nat) {
    forall i :: 0 <= i < |us| ==> |us[i].row| == dim
  }

  lemma {:induction false} ValuesSize(us: seq<Update>, dim: nat)
    requires RowsHave(us, dim)
    ensures |Values(us)| == Product(|us|, dim)
  {
    if us != [] {
      ValuesSize(us[..|us| - 1], dim);
      assert Product(|us| - 1, dim) + dim == Product(|us|, dim);
    }
  }

  lemma {:induction false} SliceRoundTrip(us: seq<Update>, dim: nat, j: nat)
    requires RowsHave(us, dim)
    requires j < |us|
    ensures |Values(us)| == Product(|us|, dim)
    ensures Update(Ids(us)[j], Group(Values(us), dim, j, |us|)) == us[j]
  {
    ValuesSize(us, dim);
    var n := |us| - 1;
    var pre := us[..n];
    ValuesSize(pre, dim);
    hide Product;
    ProductMonotone(j, j + 1, dim);
    ProductMonotone(j + 1, |us|, dim);
    if j < n {
      SliceRoundTrip(pre, dim, j);
      ProductMonotone(j + 1, n, dim);
      assert Group(Values(us), dim, j, |us|) == Group(Values(pre), dim, j, n);
    } else {
      assert Group(Values(us), dim, j, |us|) == us[n].row;
    }
  }

  /** What a server reads out of its slice are the updates selected for it. */
  lemma SliceDecodes(us: seq<Update>, dim: nat)
    requires RowsHave(us, dim)
    ensures Product(|Ids(us)|, dim) <= |Values(us)| && UpdatesOf(Ids(us), Values(us), dim) == us
  {
    hide Product, Group, Ids, Values;
    ValuesSize(us, dim);
    var vs := UpdatesOf(Ids(us), Values(us), dim);
    forall j | 0 <= j < |us| ensures vs[j] == us[j] {
      SliceRoundTrip(us, dim, j);
    }
  }

  lemma {:induction false} SelectKeeps(range: Range, us: seq<Update>, dim: nat)
    requires RowsHave(us, dim)
    ensures RowsHave(Select(range, us), dim)
  {
    if us != [] {
      var pre, u := us[..|us| - 1], us[|us| - 1];
      assert RowsHave(pre, dim) && |u.row| == dim;
      SelectKeeps(range, pre, dim);
      assert RowsHave(Select(range, pre) + [u], dim);
      assert Select(range, pre) + [] == Select(range, pre);
    }
  }

  lemma GroupSize(ids: seq<int>, values: seq<real>, dim: nat)
    requires Product(|ids|, dim) <= |values|
    ensures RowsHave(UpdatesOf(ids, values, dim), dim)
  {
    forall i | 0 <= i < |ids| ensures |UpdatesOf(ids, values, dim)[i].row| == dim {
      assert Product(i + 1, dim) == Product(i, dim) + dim;
    }
  }

  /**
   Sharded update: server `i` decodes its slice and applies it to its rows, and ends with exactly the rows
   of the table updated as a whole, duplicates in the message included.
   */
  lemma UpdateLaw(rows: nat, n: nat, table: map<int, Row>, ids: seq<int>, values: seq<real>, dim: nat, i: nat)
    requires n > 0 && 0 < rows < I64_LIMIT && i < n && Product(|ids|, dim) <= |values|
    requires forall j :: 0 <= j < |ids| ==> IsI32(ids[j])
    ensures var us, range := UpdatesOf(ids, values, dim), RangeOf(rows, n, i);
      var slice := Select(range, us);
      && Product(|Ids(slice)|, dim) <= |Values(slice)|
      && Apply(Restrict(table, range), UpdatesOf(Ids(slice), Values(slice), dim)) == Restrict(Apply(table, us), range)
  {
    hide RangeOf, Apply, Restrict, Group, Product;
    var us, range := UpdatesOf(ids, values, dim), RangeOf(rows, n, i);
    RangeFits(rows, n, i, []);
    GroupSize(ids, values, dim);
    SelectKeeps(range, us, dim);
    SliceDecodes(Select(range, us), dim);
    ShardUpdate(table, range, us);
  }

  datatype Job = Job(rows: nat, n: nat, table: map<int, Row>, ids: seq<int>, values: seq<real>, dim: nat)
  {
    /** An update of a table with `rows` rows on `n` servers. */
    predicate Valid() {
      && n > 0 && 0 < rows < I64_LIMIT && Product(|ids|, dim) <= |values|
      && (forall j :: 0 <= j < |ids| ==> IsI32(ids[j]))
      && (forall r :: r in table ==> 0 <= r < rows)
    }

    /** The table updated as a whole. */
    function Updated(): map<int, Row>
      requires Valid()
    {
      Apply(table, UpdatesOf(ids, values, dim))
    }

    /** What server `i` holds after applying its decoded slice to its rows. */
    function Shard(i: nat): map<int, Row>
      requires Valid() && i < n
    {
      UpdateLaw(rows, n, table, ids, values, dim, i);
      var range := RangeOf(rows, n, i);
      var slice := Select(range, UpdatesOf(ids, values, dim));
      Apply(Restrict(table, range), UpdatesOf(Ids(slice), Values(slice), dim))
    }
  }

  /**
   Together the servers hold the updated table: every row of it is held by exactly one server, with its updated
   value, and no server holds anything else.
   */
  lemma ShardedTableLaw(job: Job, row: int)
    requires job.Valid()
    ensures row in job.Updated() <==> exists i :: 0 <= i < job.n && row in job.Shard(i)
    ensures forall i :: 0 <= i < job.n && row in job.Shard(i) ==>
      row in job.Updated() && job.Shard(i)[row] == job.Updated()[row]
    ensures forall i, j :: 0 <= i < job.n && 0 <= j < job.n && row in job.Shard(i) && row in job.Shard(j) ==> i == j
  {
    hide RangeOf, Apply, Job.Shard;
    var ranges := RangesFor(job.rows, job.n);
    PartitionLaw(job.rows, job.n, row);
    forall i | 0 <= i < job.n ensures job.Shard(i) == Restrict(job.Updated(), ranges[i]) {
      ShardIs(job, i);
    }
    KeysKept(job.table, UpdatesOf(job.ids, job.values, job.dim));
    if row in job.Updated() {
      var i :| 0 <= i < job.n && ranges[i].Contains(row);
      assert row in job.Shard(i);
    }
  }

  lemma ShardIs(job: Job, i: nat)
    requires job.Valid() && i < job.n
    ensures job.Shard(i) == Restrict(job.Updated(), RangeOf(job.rows, job.n, i))
  {
    hide RangeOf, Apply, Restrict, Select, Ids, Values;
    UpdateLaw(job.rows, job.n, job.table, job.ids, job.values, job.dim, i);
  }

  /** Updates add no rows. */
  lemma {:induction false} KeysKept(table: map<int, Row>, us: seq<Update>)
    ensures Apply(table, us).Keys == table.Keys
  {
    if us != [] {
      KeysKept(table, us[..|us| - 1]);
    }
  }

  // ------------------------------------------------------------- key/values

  datatype KV = KV(keys: seq<Key>, lens: seq<nat>, values: seq<real>)
  {
    /** Every key has a length, and the values cover the lengths. */
    predicate Valid() { |keys| == |lens| && Sum(lens) <= |values| }
  }

  datatype Triple = Triple(key: Key, len: nat, segment: seq<real>)

  function Sum(lens: seq<nat>): nat {
    if lens == [] then 0 else Sum(lens[..|lens| - 1]) + lens[|lens| - 1]
  }

  lemma {:induction false} SumPrefix(lens: seq<nat>, i: nat)
    requires i < |lens|
    ensures Sum(lens[..i]) + lens[i] == Sum(lens[..i + 1]) <= Sum(lens)
    decreases |lens| - i
  {
    assert lens[..i + 1][..i] == lens[..i];
    if i + 1 == |lens| {
      assert lens[..i + 1] == lens;
    } else {
      SumPrefix(lens, i + 1);
    }
  }

  function TripleAt(m: KV, i: nat): Triple
    requires m.Valid() && i < |m.keys|
  {
    SumPrefix(m.lens, i);
    Triple(m.keys[i], m.lens[i], m.values[Sum(m.lens[..i])..Sum(m.lens[..i + 1])])
  }

  /** The message as (key, length, segment) triples. */
  function TriplesOf(m: KV): (ts: seq<Triple>)
    requires m.Valid()
    ensures |ts| == |m.keys|
    ensures forall i :: 0 <= i < |ts| ==> ts[i] == TripleAt(m, i)
  {
    seq(|m.keys|, i requires 0 <= i < |m.keys| => TripleAt(m, i))
  }

  predicate Sized(ts: seq<Triple>) {
    forall i :: 0 <= i < |ts| ==> |ts[i].segment| == ts[i].len
  }

  function Append(m: KV, t: Triple): KV {
    KV(m.keys + [t.key], m.lens + [t.len], m.values + t.segment)
  }

  function Pack(ts: seq<Triple>): KV {
    if ts == [] then KV([], [], []) else Append(Pack(ts[..|ts| - 1]), ts[|ts| - 1])
  }

  lemma {:induction false} PackSize(ts: seq<Triple>)
    requires Sized(ts)
    ensures var m := Pack(ts); |m.keys| == |m.lens| == |ts| && Sum(m.lens) == |m.values|
  {
    if ts != [] {
      PackSize(ts[..|ts| - 1]);
      var pre := Pack(ts[..|ts| - 1]);
      assert (pre.lens + [ts[|ts| - 1].len])[..|pre.lens|] == pre.lens;
    }
  }

  lemma SumAppend(lens: seq<nat>, len: nat)
    ensures Sum(lens + [len]) == Sum(lens) + len
  {
    assert (lens + [len])[..|lens|] == lens;
  }

  /** Appending a triple leaves the earlier ones readable and adds itself. */
  lemma AppendReads(m: KV, t: Triple, i: nat)
    requires m.Valid() && Sum(m.lens) == |m.values| && |t.segment| == t.len && i <= |m.keys|
    ensures Append(m, t).Valid() && TripleAt(Append(m, t), i) == if i < |m.keys| then TripleAt(m, i) else t
  {
    SumAppend(m.lens, t.len);
    hide Sum;
    var l := Append(m, t);
    SumPrefix(l.lens, i);
    if i < |m.keys| {
      SumPrefix(m.lens, i);
      assert l.lens[..i] == m.lens[..i] && l.lens[..i + 1] == m.lens[..i + 1];
      var a, b := Sum(m.lens[..i]), Sum(m.lens[..i + 1]);
      assert l.values[a..b] == m.values[a..b];
    } else {
      assert l.lens[..i] == m.lens && l.lens[..i + 1] == l.lens;
      assert l.values[|m.values|..] == t.segment;
    }
  }

  /** Where a message keeps its triples: one key and one length each, and the values of one behind those before it. */
  lemma TripleLayout(m: KV, i: nat)
    requires m.Valid() && i < |m.keys|
    ensures var t, at := TripleAt(m, i), Sum(m.lens[..i]);
      && at + m.lens[i] <= |m.values|
      && t.key == m.keys[i] && t.len == m.lens[i] && t.segment == m.values[at..at + m.lens[i]]
  {
    SumPrefix(m.lens, i);
  }

  /** Packing triples and reading them back gives the same triples. */
  lemma {:induction false} PackRoundTrip(ts: seq<Triple>, i: nat)
    requires Sized(ts) && i < |ts|
    ensures Pack(ts).Valid() && |Pack(ts).keys| == |ts| && TripleAt(Pack(ts), i) == ts[i]
  {
    var n := |ts| - 1;
    assert Sized(ts[..n]);
    PackSize(ts);
    PackSize(ts[..n]);
    assert Pack(ts) == Append(Pack(ts[..n]), ts[n]);
    hide Pack, Sum, Append, TripleAt;
    AppendReads(Pack(ts[..n]), ts[n], i);
    if i < n {
      PackRoundTrip(ts[..n], i);
    }
  }

  /** A key without an entry goes to server 0. */
  function ServerOf(owners: map<Key, nat>, key: Key): nat {
    if key in owners then owners[key] else 0
  }

  function OwnedBy(ts: seq<Triple>, owners: map<Key, nat>, server: nat): seq<Triple> {
    if ts == [] then []
    else
      var t := ts[|ts| - 1];
      OwnedBy(ts[..|ts| - 1], owners, server) + (if ServerOf(owners, t.key) == server then [t] else [])
  }

  /** Of one triple, a server owns it or nothing; a key without a server belongs to server 0. */
  lemma OwnedOne(t: Triple, owners: map<Key, nat>, server: nat)
    ensures OwnedBy([t], owners, server) == if server == (if t.key in owners then owners[t.key] else 0) then [t] else []
  {
    assert [t][..0] == [];
    assert OwnedBy([], owners, server) == [];
  }

  lemma OwnedLast(ts: seq<Triple>, t: Triple, owners: map<Key, nat>, server: nat)
    ensures OwnedBy(ts + [t], owners, server) == OwnedBy(ts, owners, server) + OwnedBy([t], owners, server)
  {
    OwnedOne(t, owners, server);
    assert (ts + [t])[..|ts|] == ts;
  }

  /** What a server owns of a message: every triple whose key is its own, and in their order. */
  lemma {:induction false} OwnedLaw(a: seq<Triple>, b: seq<Triple>, owners: map<Key, nat>, server: nat)
    ensures OwnedBy(a + b, owners, server) == OwnedBy(a, owners, server) + OwnedBy(b, owners, server)
    decreases |b|
  {
    if b == [] {
      assert a + b == a;
    } else {
      hide OwnedBy;
      var pre, t := b[..|b| - 1], b[|b| - 1];
      OwnedLaw(a, pre, owners, server);
      OwnedLast(a + pre, t, owners, server);
      OwnedLast(pre, t, owners, server);
      assert a + b == a + pre + [t] && b == pre + [t];
    }
  }

  lemma {:induction false} OwnedKeeps(ts: seq<Triple>, owners: map<Key, nat>, server: nat)
    requires Sized(ts)
    ensures Sized(OwnedBy(ts, owners, server))
  {
    if ts != [] {
      var pre, t := ts[..|ts| - 1], ts[|ts| - 1];
      assert Sized(pre) && |t.segment| == t.len;
      OwnedKeeps(pre, owners, server);
      assert Sized(OwnedBy(pre, owners, server) + [t]);
      assert OwnedBy(pre, owners, server) + [] == OwnedBy(pre, owners, server);
    }
  }

  lemma TripleSizes(m: KV)
    requires m.Valid()
    ensures Sized(TriplesOf(m))
  {
    forall k | 0 <= k < |m.keys| ensures |TriplesOf(m)[k].segment| == TriplesOf(m)[k].len {
      SumPrefix(m.lens, k);
    }
  }

  /** Each server decodes its slice to the triples it owns, in their order. */
  lemma RoundRobinLaw(m: KV, owners: map<Key, nat>, server: nat)
    requires m.Valid()
    ensures var slice := Pack(OwnedBy(TriplesOf(m), owners, server));
      slice.Valid() && TriplesOf(slice) == OwnedBy(TriplesOf(m), owners, server)
  {
    hide Pack, TripleAt, OwnedBy;
    var ts := TriplesOf(m);
    var os := OwnedBy(ts, owners, server);
    TripleSizes(m);
    OwnedKeeps(ts, owners, server);
    PackSize(os);
    forall i | 0 <= i < |os| ensures TriplesOf(Pack(os))[i] == os[i] {
      PackRoundTrip(os, i);
    }
  }

  function Length(ts: seq<Triple>): nat {
    if ts == [] then 0 else Length(ts[..|ts| - 1]) + ts[|ts| - 1].len
  }

  /** The lengths of the slices of the first `n` servers together. */
  function SlicedLength(ts: seq<Triple>, owners: map<Key, nat>, n: nat): nat {
    if n == 0 then 0 else SlicedLength(ts, owners, n - 1) + Length(OwnedBy(ts, owners, n - 1))
  }

  lemma {:induction false} OneMore(ts: seq<Triple>, owners: map<Key, nat>, n: nat)
    requires ts != []
    ensures var t := ts[|ts| - 1];
      SlicedLength(ts, owners, n) ==
        SlicedLength(ts[..|ts| - 1], owners, n) + if ServerOf(owners, t.key) < n then t.len else 0
  {
    hide OwnedBy, Length, ServerOf;
    if n > 0 {
      OneMore(ts, owners, n - 1);
      OwnedLength(ts, owners, n - 1);
    }
  }

  lemma OwnedLength(ts: seq<Triple>, owners: map<Key, nat>, server: nat)
    requires ts != []
    ensures var t := ts[|ts| - 1];
      Length(OwnedBy(ts, owners, server)) ==
        Length(OwnedBy(ts[..|ts| - 1], owners, server)) + if ServerOf(owners, t.key) == server then t.len else 0
  {
    var pre, t := OwnedBy(ts[..|ts| - 1], owners, server), ts[|ts| - 1];
    assert (pre + [t])[..|pre|] == pre;
    assert pre + [] == pre;
  }

  /** Nothing is lost or sent twice: the slices' lengths add up to the message's. */
  lemma {:induction false} LengthConserved(ts: seq<Triple>, owners: map<Key, nat>, n: nat)
    requires forall k :: 0 <= k < |ts| ==> ServerOf(owners, ts[k].key) < n
    ensures SlicedLength(ts, owners, n) == Length(ts)
  {
    if ts == [] {
      NothingSliced(owners, n);
    } else {
      OneMore(ts, owners, n);
      LengthConserved(ts[..|ts| - 1], owners, n);
    }
  }

  lemma {:induction false} NothingSliced(owners: map<Key, nat>, n: nat)
    ensures SlicedLength([], owners, n) == 0
  {
    if n > 0 {
      NothingSliced(owners, n - 1);
    }
  }
}
