/** The worker as written: its tables, and its slicers as loops over ids, keys and values. */
module Worker {
  import opened Prelude
  import opened Sharding
  import opened Slicers

  class Worker {
    const serverNum: nat
    var ranges: map<Key, seq<Range>>
    var rowCount: map<Key, nat>
    var keyToServerId: map<Key, nat>

    /** Every known server exists. */
    ghost predicate Valid()
      reads this
    {
      forall key :: key in keyToServerId ==> keyToServerId[key] < serverNum
    }

    constructor (serverNum: nat)
      ensures this.serverNum == serverNum && ranges == map[] && rowCount == map[] && keyToServerId == map[] && Valid()
    {
      this.serverNum := serverNum;
      ranges, rowCount, keyToServerId := map[], map[], map[];
    }

    /**
     Appends the ranges of a table with `rows` rows to those of `key`. A size that is zero, or negative as a
     signed integer, throws on the first server; without servers only the size is noted.
     */
    method AddEmbeddingTable(key: Key, rows: nat) returns (ok: bool)
      modifies `ranges, `rowCount
      ensures ok <==> serverNum == 0 || 0 < rows < I64_LIMIT
      ensures !ok ==> ranges == old(ranges) && rowCount == old(rowCount)
      ensures ok ==> rowCount == old(rowCount)[key := rows]
      ensures ok && serverNum == 0 ==> ranges == old(ranges)
      ensures ok && serverNum > 0 ==>
        ranges == old(ranges)[key := (if key in old(ranges) then old(ranges)[key] else []) + RangesFor(rows, serverNum)]
    {
      ghost var before := if key in ranges then ranges[key] else [];
      var begin, end := 0, 0;
      var i := 0;
      while i < serverNum
        invariant 0 <= i <= serverNum && rowCount == old(rowCount)
        invariant i == 0 ==> ranges == old(ranges) && begin == 0
        invariant i > 0 ==> 0 < rows < I64_LIMIT && end == Offset(rows, serverNum, i) - 1
        invariant i > 0 ==> ranges == old(ranges)[key := before + RangesFor(rows, serverNum)[..i]]
      {
        hide ShardSize, RangesFor;
        var asSigned := if rows < I64_LIMIT then rows else -1;
        var share := LocalShard(asSigned, i, serverNum);
        if share.InvalidInput? {
          return false;
        }
        if i == 0 {
          end := share.value - 1;
        } else {
          begin := end + 1;
          end := end + share.value;
        }
        FirstShardHasRows(rows, serverNum, i);
        var shard := Range(begin, end);
        ghost var all := RangesFor(rows, serverNum);
        assert shard == all[i] by { assert shard == RangeOf(rows, serverNum, i); }
        if key !in ranges {
          ranges := ranges[key := []];
        }
        ranges := ranges[key := ranges[key] + [shard]];
        assert ranges[key] == before + all[..i + 1] by { assert all[..i + 1] == all[..i] + [all[i]]; }
        i := i + 1;
      }
      rowCount := rowCount[key := rows];
      if serverNum > 0 {
        assert RangesFor(rows, serverNum)[..serverNum] == RangesFor(rows, serverNum);
      }
      return true;
    }

    method AddKeyByHashMod(key: Key) returns (ok: bool)
      requires Valid()
      modifies `keyToServerId
      ensures ok <==> serverNum > 0
      ensures keyToServerId == if ok then old(keyToServerId)[key := key % serverNum] else old(keyToServerId)
      ensures Valid()
    {
      if serverNum == 0 {
        return false;
      }
      keyToServerId := keyToServerId[key := key % serverNum];
      return true;
    }

    /** The distinct requested ids of one range, listed in any order. */
    method DistinctIds(range: Range, ids: seq<int>) returns (slice: seq<int>)
      ensures IsLookupSlice(range, ids, slice)
    {
      var unique: set<int> := {};
      for j := 0 to |ids|
        invariant forall id :: id in unique <==> id in ids[..j] && Hits(range, id)
      {
        assert ids[..j + 1] == ids[..j] + [ids[j]];
        if range.begin <= AsU64(ids[j]) <= range.end {
          unique := unique + {ids[j]};
        }
      }
      assert ids[..|ids|] == ids;
      slice := Listed(unique);
    }

    /** A set's elements, each once, in an order the source leaves open. */
    method Listed<T(==, !new)>(ids: set<T>) returns (list: seq<T>)
      ensures forall i, j :: 0 <= i < j < |list| ==> list[i] != list[j]
      ensures forall id :: id in list <==> id in ids
    {
      list := [];
      var rest := ids;
      while rest != {}
        invariant forall i, j :: 0 <= i < j < |list| ==> list[i] != list[j]
        invariant forall id :: id in list <==> id in ids - rest
        invariant rest <= ids
        decreases |rest|
      {
        Inhabited(rest);
        var id :| id in rest;
        assert id !in list;
        rest := rest - {id};
        list := list + [id];
      }
    }

    /** One slice per range; a server with nothing to look up is flagged off. */
    method LookupIdSlicer(key: Key, ids: seq<int>) returns (flags: seq<bool>, slices: seq<seq<int>>)
      requires key in ranges
      ensures |flags| == |slices| == |ranges[key]|
      ensures forall i :: 0 <= i < |slices| ==> IsLookupSlice(ranges[key][i], ids, slices[i])
      ensures forall i :: 0 <= i < |slices| ==> (flags[i] <==> slices[i] != [])
    {
      flags, slices := [], [];
      for i := 0 to |ranges[key]|
        invariant |flags| == |slices| == i
        invariant forall k :: 0 <= k < i ==> IsLookupSlice(ranges[key][k], ids, slices[k])
        invariant forall k :: 0 <= k < i ==> (flags[k] <==> slices[k] != [])
      {
        var slice := DistinctIds(ranges[key][i], ids);
        slices := slices + [slice];
        flags := flags + [slice != []];
      }
    }

    /**
     The initial values, cut at the ranges' ends; with more ranges than servers, as after adding a table twice,
     the slice after the last server's throws. The source demands that no range it cuts exceeds the values.
     */
    method WorkerInitEmbeddingSlicer(key: Key, values: seq<real>) returns (ok: bool, slices: seq<seq<real>>)
      requires key in ranges && key in rowCount && rowCount[key] > 0
      requires RangesFit(ranges[key][..Min(|ranges[key]|, serverNum)], values, |values| / rowCount[key])
      ensures ok <==> |ranges[key]| <= serverNum
      ensures |slices| == Min(|ranges[key]|, serverNum)
      ensures forall i :: 0 <= i < |slices| ==> slices[i] == ValuesOf(ranges[key][i], values, |values| / rowCount[key])
    {
      hide Product;
      var cols := |values| / rowCount[key];
      ghost var used := ranges[key][..Min(|ranges[key]|, serverNum)];
      slices := [];
      var i := 0;
      while i < |ranges[key]|
        invariant 0 <= i <= |ranges[key]| && |slices| == i <= serverNum
        invariant forall k :: 0 <= k < i ==> slices[k] == ValuesOf(ranges[key][k], values, cols)
      {
        if i >= serverNum {
          return false, slices;
        }
        var range := ranges[key][i];
        assert range == used[i];
        ProductMonotone(range.begin, range.end + 1, cols);
        assert range.begin * cols == Product(range.begin, cols) by { ProductIs(range.begin, cols); }
        assert (range.end + 1) * cols == Product(range.end + 1, cols) by { ProductIs(range.end + 1, cols); }
        var offsetBegin := range.begin * cols;
        var offsetEnd := (range.end + 1) * cols;
        slices := slices + [values[offsetBegin..offsetEnd]];
        i := i + 1;
      }
      return true, slices;
    }

    /** A table that was added once: one slice per server, as the law on initial values speaks of. */
    method InitTable(key: Key, values: seq<real>) returns (slices: seq<seq<real>>)
      requires serverNum > 0 && key in ranges && key in rowCount && rowCount[key] > 0
      requires ranges[key] == RangesFor(rowCount[key], serverNum)
      ensures slices == InitSlices(rowCount[key], serverNum, values)
    {
      TableFits(rowCount[key], serverNum, values);
      assert ranges[key][..serverNum] == ranges[key];
      var ok;
      ok, slices := WorkerInitEmbeddingSlicer(key, values);
    }

    /** One server's slice of an update: the key, then the ids in range; and their values, one by one. */
    method UpdateSlice(range: Range, key: Key, ids: seq<int>, values: seq<real>, dim: nat)
      returns (keys: seq<int>, vals: seq<real>)
      requires Product(|ids|, dim) <= |values|
      ensures var slice := Select(range, UpdatesOf(ids, values, dim));
        keys == [key] + Ids(slice) && vals == Values(slice)
    {
      hide Product, Group, UpdatesOf, Select, Ids, Values;
      ghost var us := UpdatesOf(ids, values, dim);
      NothingSelected(range);
      keys, vals := [key], [];
      for j := 0 to |ids|
        invariant keys == [key] + Ids(Select(range, us[..j])) && vals == Values(Select(range, us[..j]))
      {
        SelectNext(range, us, j);
        UpdateAt(ids, values, dim, j);
        if range.begin <= AsU64(ids[j]) <= range.end {
          keys := keys + [ids[j]];
          var row := CopyGroup(values, dim, j, |ids|);
          vals := vals + row;
        }
      }
      assert us[..|us|] == us;
    }

    /** The `j`-th group of values, copied value by value. */
    method CopyGroup(values: seq<real>, dim: nat, j: nat, n: nat) returns (row: seq<real>)
      requires j < n && Product(n, dim) <= |values|
      ensures row == Group(values, dim, j, n)
    {
      GroupBounds(values, dim, j, n);
      hide Product;
      ghost var start := Product(j, dim);
      row := [];
      for k := 0 to dim
        invariant row == values[start..start + k]
      {
        assert j * dim + k == start + k by { ProductIs(j, dim); }
        row := row + [values[j * dim + k]];
      }
    }

    method UpdateEmbeddingSlicer(key: Key, ids: seq<int>, values: seq<real>)
      returns (flags: seq<bool>, keys: seq<seq<int>>, vals: seq<seq<real>>)
      requires key in ranges && ids != []
      ensures Product(|ids|, |values| / |ids|) <= |values|
      ensures |flags| == |keys| == |vals| == |ranges[key]|
      ensures forall i :: 0 <= i < |flags| ==>
        var slice := Select(ranges[key][i], UpdatesOf(ids, values, |values| / |ids|));
        keys[i] == [key] + Ids(slice) && vals[i] == Values(slice) && (flags[i] <==> slice != [])
    {
      var dim := |values| / |ids|;
      WholeRows(|values|, |ids|);
      hide Product, Group, Select, UpdatesOf, Ids, Values;
      flags, keys, vals := [], [], [];
      for i := 0 to |ranges[key]|
        invariant |flags| == |keys| == |vals| == i
        invariant forall k :: 0 <= k < i ==>
          var slice := Select(ranges[key][k], UpdatesOf(ids, values, dim));
          keys[k] == [key] + Ids(slice) && vals[k] == Values(slice) && (flags[k] <==> slice != [])
      {
        var ks, vs := UpdateSlice(ranges[key][i], key, ids, values, dim);
        keys := keys + [ks];
        vals := vals + [vs];
        flags := flags + [!(|ks| <= 1)];
      }
    }

    /** Deals the message's triples to their servers; a key not known yet is known to server 0. */
    method RoundRobinSlicer(m: KV) returns (flags: seq<bool>, slices: seq<KV>)
      requires Valid() && serverNum > 0 && m.Valid()
      modifies `keyToServerId
      ensures Valid() && |flags| == |slices| == serverNum
      ensures DefaultInserted(keyToServerId, old(keyToServerId), m.keys)
      ensures Dealt(TriplesOf(m), old(keyToServerId), flags, slices)
    {
      hide TripleAt, OwnedBy, Pack, Append, ServerOf, Dealt, DefaultInserted;
      ghost var owners, ts := keyToServerId, TriplesOf(m);
      flags := seq(serverNum, _ => false);
      slices := seq(serverNum, _ => KV([], [], []));
      assert Dealt(ts[..0], owners, flags, slices) by { NothingDealt(owners, flags, slices); }
      assert DefaultInserted(owners, owners, m.keys[..0]) by { NothingInserted(owners); }
      for i := 0 to |m.keys|
        invariant Valid() && |flags| == |slices| == serverNum
        invariant DefaultInserted(keyToServerId, owners, m.keys[..i]) && Dealt(ts[..i], owners, flags, slices)
      {
        ghost var known := keyToServerId;
        if m.keys[i] !in keyToServerId {
          keyToServerId := keyToServerId[m.keys[i] := 0];
        }
        var server := keyToServerId[m.keys[i]];
        InsertedNext(keyToServerId, known, owners, m.keys, i);
        var triple := CopyTriple(m, i);
        DealtNext(m, owners, flags, slices, i, server);
        flags, slices := flags[server := true], slices[server := Append(slices[server], triple)];
      }
      assert m.keys[..|m.keys|] == m.keys && ts[..|ts|] == ts;
    }

    /** Finds a key's values behind those of the keys before it. */
    method CopyTriple(m: KV, i: nat) returns (t: Triple)
      requires m.Valid() && i < |m.keys|
      ensures t == TripleAt(m, i)
    {
      var offset := 0;
      for k := 0 to i
        invariant offset == Sum(m.lens[..k])
      {
        assert m.lens[..k + 1][..k] == m.lens[..k];
        offset := offset + m.lens[k];
      }
      var segment := [];
      SumPrefix(m.lens, i);
      for k := 0 to m.lens[i]
        invariant segment == m.values[offset..offset + k]
      {
        segment := segment + [m.values[offset + k]];
      }
      t := Triple(m.keys[i], m.lens[i], segment);
    }
  }

  lemma ProductIs(a: nat, b: nat)
    ensures Product(a, b) == a * b
  {
  }

  lemma GroupBounds(values: seq<real>, dim: nat, j: nat, n: nat)
    requires j < n && Product(n, dim) <= |values|
    ensures Product(j, dim) + dim == Product(j + 1, dim) <= |values|
  {
    ProductMonotone(j + 1, n, dim);
  }

  lemma NothingSelected(range: Range)
    ensures Ids(Select(range, [])) == [] && Values(Select(range, [])) == []
  {
  }

  lemma UpdateAt(ids: seq<int>, values: seq<real>, dim: nat, j: nat)
    requires j < |ids| && Product(|ids|, dim) <= |values|
    ensures UpdatesOf(ids, values, dim)[j] == Update(ids[j], Group(values, dim, j, |ids|))
  {
    hide Product, Group;
  }

  lemma SelectNext(range: Range, us: seq<Update>, j: nat)
    requires j < |us|
    ensures var pre, post := Select(range, us[..j]), Select(range, us[..j + 1]);
      && post == pre + (if Hits(range, us[j].id) then [us[j]] else [])
      && Ids(post) == Ids(pre) + (if Hits(range, us[j].id) then [us[j].id] else [])
      && Values(post) == Values(pre) + (if Hits(range, us[j].id) then us[j].row else [])
  {
    assert us[..j + 1][..j] == us[..j];
    var pre := Select(range, us[..j]);
    assert (pre + [us[j]])[..|pre|] == pre;
    assert pre + [] == pre;
  }

  /** `now` is `before` with server 0 for those of `keys` that had no entry. */
  ghost predicate DefaultInserted(now: map<Key, nat>, before: map<Key, nat>, keys: seq<Key>) {
    && (forall k :: k in now <==> k in before || k in keys)
    && (forall k :: k in now ==> now[k] == ServerOf(before, k))
  }

  /** Server `s` is sent exactly the triples it owns, in order, and is flagged when there are any. */
  ghost predicate Dealt(ts: seq<Triple>, owners: map<Key, nat>, flags: seq<bool>, slices: seq<KV>) {
    && |flags| == |slices|
    && forall s :: 0 <= s < |flags| ==> DealtTo(ts, owners, s, flags[s], slices[s])
  }

  predicate DealtTo(ts: seq<Triple>, owners: map<Key, nat>, s: nat, flag: bool, slice: KV) {
    slice == Pack(OwnedBy(ts, owners, s)) && (flag <==> OwnedBy(ts, owners, s) != [])
  }

  lemma NothingInserted(owners: map<Key, nat>)
    ensures DefaultInserted(owners, owners, [])
  {
  }

  lemma NothingDealt(owners: map<Key, nat>, flags: seq<bool>, slices: seq<KV>)
    requires |flags| == |slices|
    requires forall s :: 0 <= s < |flags| ==> !flags[s] && slices[s] == KV([], [], [])
    ensures Dealt([], owners, flags, slices)
  {
  }

  lemma InsertedNext(now: map<Key, nat>, known: map<Key, nat>, owners: map<Key, nat>, keys: seq<Key>, i: nat)
    requires i < |keys| && DefaultInserted(known, owners, keys[..i])
    requires now == if keys[i] in known then known else known[keys[i] := 0]
    ensures DefaultInserted(now, owners, keys[..i + 1]) && now[keys[i]] == ServerOf(owners, keys[i])
  {
    assert keys[..i + 1] == keys[..i] + [keys[i]];
  }

  lemma OwnedNext(ts: seq<Triple>, owners: map<Key, nat>, s: nat, i: nat)
    requires i < |ts|
    ensures var pre := OwnedBy(ts[..i], owners, s);
      && OwnedBy(ts[..i + 1], owners, s) == pre + (if ServerOf(owners, ts[i].key) == s then [ts[i]] else [])
      && Pack(pre + [ts[i]]) == Append(Pack(pre), ts[i])
  {
    assert ts[..i + 1][..i] == ts[..i];
    var pre := OwnedBy(ts[..i], owners, s);
    assert (pre + [ts[i]])[..|pre|] == pre;
  }

  lemma DealtNext(m: KV, owners: map<Key, nat>, flags: seq<bool>, slices: seq<KV>, i: nat, server: nat)
    requires m.Valid() && i < |m.keys| && server == ServerOf(owners, m.keys[i]) && server < |flags|
    requires Dealt(TriplesOf(m)[..i], owners, flags, slices)
    ensures Dealt(TriplesOf(m)[..i + 1], owners,
                  flags[server := true], slices[server := Append(slices[server], TripleAt(m, i))])
  {
    var ts := TriplesOf(m);
    assert ts[i].key == m.keys[i];
    hide TripleAt, Append, ServerOf, DealtTo;
    forall s: nat | s < |flags|
      ensures if s == server then DealtTo(ts[..i + 1], owners, s, true, Append(slices[s], ts[i]))
        else DealtTo(ts[..i + 1], owners, s, flags[s], slices[s])
    {
      DealtToNext(ts, owners, s, i, flags[s], slices[s]);
    }
  }

  lemma DealtToNext(ts: seq<Triple>, owners: map<Key, nat>, s: nat, i: nat, flag: bool, slice: KV)
    requires i < |ts| && DealtTo(ts[..i], owners, s, flag, slice)
    ensures if s == ServerOf(owners, ts[i].key) then DealtTo(ts[..i + 1], owners, s, true, Append(slice, ts[i]))
      else DealtTo(ts[..i + 1], owners, s, flag, slice)
  {
    OwnedNext(ts, owners, s, i);
    hide OwnedBy, Pack, Append;
    var pre := OwnedBy(ts[..i], owners, s);
    assert pre + [] == pre;
  }
}
