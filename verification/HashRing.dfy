/**
 Consistent hashing: nodes sit on a ring at their hashes, and a hash belongs to the first node met clockwise.
 The ring is an ordered map searched by lower bound with a wrap to the first entry.
 */
module HashRing {
  import opened Prelude

  type Ring<T> = map<nat, T>

  /** Where a search ends: at an entry, or at the end of an empty map. */
  datatype Position = End | At(hash: nat)

  ghost predicate IsLeast(keys: set<nat>, from: nat, k: nat) {
    k in keys && from <= k && forall j :: j in keys && from <= j ==> k <= j
  }

  ghost predicate NoneFrom(keys: set<nat>, from: nat) {
    forall j :: j in keys ==> j < from
  }

  /** `k` is what the search for `hash` finds: the lower bound, or the least key when there is none. */
  ghost predicate IsOwner(keys: set<nat>, hash: nat, k: nat) {
    IsLeast(keys, hash, k) || (NoneFrom(keys, hash) && IsLeast(keys, 0, k))
  }

  /** The way from `hash` clockwise to `k` on a ring of `size` hashes. */
  function Clockwise(hash: nat, k: nat, size: nat): int {
    if hash <= k then k - hash else k + size - hash
  }

  ghost predicate OnRing(keys: set<nat>, size: nat) {
    forall j :: j in keys ==> j < size
  }

  /** `k` is a node no other node is nearer than, going clockwise from `hash`. */
  ghost predicate IsNearest(keys: set<nat>, hash: nat, k: nat, size: nat) {
    k in keys && forall j :: j in keys ==> Clockwise(hash, k, size) <= Clockwise(hash, j, size)
  }

  /** Lower bound with wrap-around is nearest clockwise, for every hash and every set of nodes. */
  lemma ClockwiseLaw(keys: set<nat>, hash: nat, k: nat, size: nat)
    requires OnRing(keys, size) && hash < size
    ensures IsOwner(keys, hash, k) <==> IsNearest(keys, hash, k, size)
  {
    if IsNearest(keys, hash, k, size) {
      if hash <= k {
        assert IsLeast(keys, hash, k);
      } else {
        assert NoneFrom(keys, hash) && IsLeast(keys, 0, k);
      }
    }
  }

  /** A hash has at most one owner. */
  lemma OwnerUnique(keys: set<nat>, hash: nat, a: nat, b: nat)
    requires IsOwner(keys, hash, a) && IsOwner(keys, hash, b)
    ensures a == b
  {
  }

  /**
   A node joining at the fresh hash `x` takes over exactly the hashes it is nearer to than their owner was,
   and every other hash keeps its owner.
   */
  lemma JoinLaw(keys: set<nat>, x: nat, hash: nat, k: nat, size: nat)
    requires OnRing(keys + {x}, size) && hash < size && x !in keys && IsOwner(keys, hash, k)
    ensures IsOwner(keys + {x}, hash, if Clockwise(hash, x, size) < Clockwise(hash, k, size) then x else k)
  {
    ClockwiseLaw(keys, hash, k, size);
    var now := if Clockwise(hash, x, size) < Clockwise(hash, k, size) then x else k;
    ClockwiseLaw(keys + {x}, hash, now, size);
  }

  /** The first node owns every hash. */
  lemma FirstNodeOwnsAll(x: nat, hash: nat)
    ensures IsOwner({x}, hash, x)
  {
  }

  /** A node leaving gives up its own hashes only. */
  lemma LeaveLaw(keys: set<nat>, x: nat, hash: nat, k: nat)
    requires IsOwner(keys, hash, k) && k != x
    ensures IsOwner(keys - {x}, hash, k)
  {
  }

  // ------------------------------------------------------------ operations

  function Added<T>(nodes: Ring<T>, hash: nat, node: T): Ring<T> {
    if hash in nodes then nodes else nodes[hash := node]
  }

  function Removed<T>(nodes: Ring<T>, hash: nat): Ring<T> {
    nodes - {hash}
  }

  /** Erasing a node undoes its insertion, if and only if its hash was free. */
  lemma InsertEraseLaw<T>(nodes: Ring<T>, hash: nat, node: T)
    ensures Removed(Added(nodes, hash, node), hash) == nodes <==> hash !in nodes
  {
    if hash in nodes {
      assert hash !in Removed(nodes, hash);
    }
  }

  datatype Op<T> = Join(node: T) | Leave(node: T)

  function Exec<T>(hasher: T -> nat, ops: seq<Op<T>>): Ring<T> {
    if ops == [] then map[]
    else
      var nodes, op := Exec(hasher, ops[..|ops| - 1]), ops[|ops| - 1];
      if op.Join? then Added(nodes, hasher(op.node), op.node) else Removed(nodes, hasher(op.node))
  }

  predicate Present<T(==)>(hasher: T -> nat, nodes: Ring<T>, node: T) {
    hasher(node) in nodes && nodes[hasher(node)] == node
  }

  // What a run leaves at one hash, collisions or not.

  /** No operation of the run from `from` on was at `hash`. */
  ghost predicate Untouched<T(!new)>(hasher: T -> nat, ops: seq<Op<T>>, hash: nat, from: nat) {
    forall i :: from <= i < |ops| ==> hasher(ops[i].node) != hash
  }

  /** Before operation `from` the hash was free: nothing has happened, or a node there has just left. */
  ghost predicate FreeAt<T(!new)>(hasher: T -> nat, ops: seq<Op<T>>, hash: nat, from: nat) {
    from <= |ops| && (from == 0 || (ops[from - 1].Leave? && hasher(ops[from - 1].node) == hash))
  }

  /** Operation `i` is the first insertion at `hash` since it was free, and nothing has left there since. */
  ghost predicate Enters<T(!new)>(hasher: T -> nat, ops: seq<Op<T>>, hash: nat, from: nat, i: nat) {
    && from <= i < |ops| && ops[i].Join? && hasher(ops[i].node) == hash
    && FreeAt(hasher, ops, hash, from) && Untouched(hasher, ops[..i], hash, from)
    && forall j :: i < j < |ops| && hasher(ops[j].node) == hash ==> ops[j].Join?
  }

  lemma {:induction false} FreeStays<T(!new)>(hasher: T -> nat, ops: seq<Op<T>>, hash: nat, from: nat)
    requires FreeAt(hasher, ops, hash, from) && Untouched(hasher, ops, hash, from)
    ensures hash !in Exec(hasher, ops)
  {
    if ops != [] && from < |ops| {
      FreeStays(hasher, ops[..|ops| - 1], hash, from);
    }
  }

  lemma {:induction false} EntersHolds<T(!new)>(hasher: T -> nat, ops: seq<Op<T>>, hash: nat, from: nat, i: nat)
    requires Enters(hasher, ops, hash, from, i)
    ensures hash in Exec(hasher, ops) && Exec(hasher, ops)[hash] == ops[i].node
  {
    var n := |ops| - 1;
    var pre := ops[..n];
    if i == n {
      FreeStays(hasher, pre, hash, from);
    } else {
      assert pre[..i] == ops[..i];
      EntersHolds(hasher, pre, hash, from, i);
    }
  }

  lemma {:induction false} WhoEntered<T(!new)>(hasher: T -> nat, ops: seq<Op<T>>, hash: nat) returns (from: nat, i: nat)
    ensures hash in Exec(hasher, ops) ==> Enters(hasher, ops, hash, from, i)
    ensures hash !in Exec(hasher, ops) ==> FreeAt(hasher, ops, hash, from) && Untouched(hasher, ops, hash, from)
  {
    from, i := 0, 0;
    if ops != [] {
      var n := |ops| - 1;
      var pre, op := ops[..n], ops[n];
      from, i := WhoEntered(hasher, pre, hash);
      if hash in Exec(hasher, pre) {
        assert pre[..i] == ops[..i];
        if hasher(op.node) == hash && op.Leave? {
          from := n + 1;
        }
      } else if hasher(op.node) == hash {
        if op.Join? {
          i := n;
        } else {
          from := n + 1;
        }
      }
    }
  }

  /**
   For every hasher and every run: a hash holds the node whose insertion was the first there since the hash
   was free, if no node has left there since; and it is free exactly if nothing was inserted there since.
   */
  lemma RingLaw<T(!new)>(hasher: T -> nat, ops: seq<Op<T>>, hash: nat, node: T)
    ensures (hash in Exec(hasher, ops) && Exec(hasher, ops)[hash] == node) <==>
      exists from: nat, i: nat :: Enters(hasher, ops, hash, from, i) && ops[i].node == node
    ensures hash !in Exec(hasher, ops) <==>
      exists from: nat :: FreeAt(hasher, ops, hash, from) && Untouched(hasher, ops, hash, from)
  {
    hide Exec, Untouched;
    var from0, i0 := WhoEntered(hasher, ops, hash);
    forall from: nat, i: nat | Enters(hasher, ops, hash, from, i)
      ensures hash in Exec(hasher, ops) && Exec(hasher, ops)[hash] == ops[i].node
    {
      EntersHolds(hasher, ops, hash, from, i);
    }
    forall from: nat | FreeAt(hasher, ops, hash, from) && Untouched(hasher, ops, hash, from)
      ensures hash !in Exec(hasher, ops)
    {
      FreeStays(hasher, ops, hash, from);
    }
  }

  // Membership, and when the ring shows it.

  /** Whether the last operation naming the node was its insertion. */
  function IsMember<T(==)>(ops: seq<Op<T>>, node: T): bool {
    if ops == [] then false
    else if ops[|ops| - 1].node == node then ops[|ops| - 1].Join?
    else IsMember(ops[..|ops| - 1], node)
  }

  /** Whoever is on the ring is a member, sits at its own hash and was named in the run. */
  lemma {:induction false} EntryIsMember<T(!new)>(hasher: T -> nat, ops: seq<Op<T>>, k: nat)
    requires k in Exec(hasher, ops)
    ensures var node := Exec(hasher, ops)[k]; hasher(node) == k && IsMember(ops, node)
  {
    var pre, op := ops[..|ops| - 1], ops[|ops| - 1];
    if k in Exec(hasher, pre) {
      EntryIsMember(hasher, pre, k);
    } else {
      assert Exec(hasher, ops)[k] == op.node;
    }
  }

  ghost predicate Injective<T(!new)>(hasher: T -> nat, all: set<T>) {
    forall a, b :: a in all && b in all && hasher(a) == hasher(b) ==> a == b
  }

  predicate Among<T(==)>(ops: seq<Op<T>>, all: set<T>) {
    forall i :: 0 <= i < |ops| ==> ops[i].node in all
  }

  /** Without collisions every member is on the ring. */
  lemma {:induction false} MemberIsPresent<T(!new)>(hasher: T -> nat, ops: seq<Op<T>>, all: set<T>, node: T)
    requires Injective(hasher, all) && Among(ops, all) && node in all && IsMember(ops, node)
    ensures Present(hasher, Exec(hasher, ops), node)
  {
    var pre, op := ops[..|ops| - 1], ops[|ops| - 1];
    if op.node != node {
      MemberIsPresent(hasher, pre, all, node);
      assert hasher(op.node) != hasher(node);
    } else if hasher(node) in Exec(hasher, pre) {
      EntryIsMember(hasher, pre, hasher(node));
      MemberIsNamed(pre, all, Exec(hasher, pre)[hasher(node)]);
    }
  }

  lemma {:induction false} MemberIsNamed<T(!new)>(ops: seq<Op<T>>, all: set<T>, node: T)
    requires Among(ops, all) && IsMember(ops, node)
    ensures node in all
  {
    if ops[|ops| - 1].node != node {
      MemberIsNamed(ops[..|ops| - 1], all, node);
    }
  }

  /** When two nodes share a hash, the first to come is alone on the ring, and erasing the second removes it. */
  lemma CollisionRemovesOther<T>(hasher: T -> nat, a: T, b: T)
    requires hasher(a) == hasher(b)
    ensures Exec(hasher, [Join(a), Join(b)]) == map[hasher(a) := a]
    ensures Exec(hasher, [Join(a), Join(b), Leave(b)]) == map[]
  {
    var three := [Join(a), Join(b), Leave(b)];
    assert three[..2] == [Join(a), Join(b)] && three[..2][..1] == [Join(a)] && three[..2][..1][..0] == [];
    assert Exec(hasher, [Join(a)]) == map[hasher(a) := a];
    assert Exec(hasher, [Join(a), Join(b)]) == map[hasher(a) := a];
  }

  lemma BothJoined<T(!new)>(a: T, b: T, node: T)
    ensures IsMember([Join(a), Join(b)], node) <==> node == a || node == b
  {
    var ops := [Join(a), Join(b)];
    assert ops[..1] == [Join(a)] && ops[..1][..0] == [];
    assert IsMember([Join(a)], node) <==> node == a;
  }

  /**
   In all runs of the nodes `all`, those on the ring are the members, if and only if no two of these nodes
   share a hash. (One half needs nothing: whoever is on the ring is a member, by `EntryIsMember`.)
   */
  lemma MembershipLaw<T(!new)>(hasher: T -> nat, all: set<T>)
    ensures (forall ops, node :: Among(ops, all) && node in all ==>
               (Present(hasher, Exec(hasher, ops), node) <==> IsMember(ops, node)))
      <==> Injective(hasher, all)
  {
    hide Exec, IsMember;
    if Injective(hasher, all) {
      forall ops, node | Among(ops, all) && node in all
        ensures Present(hasher, Exec(hasher, ops), node) <==> IsMember(ops, node)
      {
        if IsMember(ops, node) {
          MemberIsPresent(hasher, ops, all, node);
        } else if hasher(node) in Exec(hasher, ops) {
          EntryIsMember(hasher, ops, hasher(node));
        }
      }
    } else {
      var a, b :| a in all && b in all && hasher(a) == hasher(b) && a != b;
      CollisionRemovesOther(hasher, a, b);
      BothJoined(a, b, b);
      assert Among([Join(a), Join(b)], all);
    }
  }

  ghost predicate SameMembers<T(!new)>(ops: seq<Op<T>>, others: seq<Op<T>>) {
    forall node :: IsMember(ops, node) <==> IsMember(others, node)
  }

  lemma EntryShared<T(!new)>(hasher: T -> nat, ops: seq<Op<T>>, others: seq<Op<T>>, all: set<T>, k: nat)
    requires Injective(hasher, all) && Among(ops, all) && Among(others, all) && SameMembers(ops, others)
    requires k in Exec(hasher, ops)
    ensures k in Exec(hasher, others) && Exec(hasher, others)[k] == Exec(hasher, ops)[k]
  {
    hide Exec, IsMember, Among;
    var node := Exec(hasher, ops)[k];
    EntryIsMember(hasher, ops, k);
    MemberIsNamed(ops, all, node);
    MemberIsPresent(hasher, others, all, node);
  }

  lemma SameRing<T(!new)>(hasher: T -> nat, ops: seq<Op<T>>, others: seq<Op<T>>, all: set<T>)
    requires Injective(hasher, all) && Among(ops, all) && Among(others, all) && SameMembers(ops, others)
    ensures Exec(hasher, ops) == Exec(hasher, others)
  {
    hide Exec, IsMember, Among;
    assert SameMembers(others, ops);
    forall k | k in Exec(hasher, ops)
      ensures k in Exec(hasher, others) && Exec(hasher, ops)[k] == Exec(hasher, others)[k]
    {
      EntryShared(hasher, ops, others, all, k);
    }
    forall k | k in Exec(hasher, others) ensures k in Exec(hasher, ops) {
      EntryShared(hasher, others, ops, all, k);
    }
  }

  /**
   The ring, and so the owner of every hash, depends on who is a member only and not on how that came about,
   in all runs of the nodes `all`, if and only if no two of these nodes share a hash.
   */
  lemma HistoryIrrelevant<T(!new)>(hasher: T -> nat, all: set<T>)
    ensures (forall ops, others :: Among(ops, all) && Among(others, all) && SameMembers(ops, others) ==>
               Exec(hasher, ops) == Exec(hasher, others))
      <==> Injective(hasher, all)
  {
    hide Exec, IsMember;
    if Injective(hasher, all) {
      forall ops, others | Among(ops, all) && Among(others, all) && SameMembers(ops, others)
        ensures Exec(hasher, ops) == Exec(hasher, others)
      {
        SameRing(hasher, ops, others, all);
      }
    } else {
      var a, b :| a in all && b in all && hasher(a) == hasher(b) && a != b;
      var ops, others := [Join(a), Join(b)], [Join(b), Join(a)];
      forall node ensures IsMember(ops, node) <==> IsMember(others, node) {
        BothJoined(a, b, node);
        BothJoined(b, a, node);
      }
      assert Among(ops, all) && Among(others, all) && SameMembers(ops, others);
      CollisionRemovesOther(hasher, a, b);
      CollisionRemovesOther(hasher, b, a);
      assert Exec(hasher, ops)[hasher(a)] != Exec(hasher, others)[hasher(a)];
    }
  }

  class ConsistentHashMap<T> {
    const hasher: T -> nat
    var nodes: Ring<T>

    constructor (hasher: T -> nat)
      ensures this.hasher == hasher && nodes == map[]
    {
      this.hasher := hasher;
      nodes := map[];
    }

    /** An entry already there is kept; the position is the entry's either way. */
    method Insert(node: T) returns (at: Position, inserted: bool)
      modifies this
      ensures nodes == Added(old(nodes), hasher(node), node)
      ensures at == At(hasher(node)) && (inserted <==> hasher(node) !in old(nodes))
    {
      var hash := hasher(node);
      if hash in nodes {
        return At(hash), false;
      }
      nodes := nodes[hash := node];
      return At(hash), true;
    }

    method Erase(node: T) returns (count: nat)
      modifies this
      ensures nodes == Removed(old(nodes), hasher(node))
      ensures count == |old(nodes)| - |nodes|
    {
      var hash := hasher(node);
      count := if hash in nodes then 1 else 0;
      ghost var before := nodes.Keys;
      nodes := nodes - {hash};
      assert nodes.Keys == before - {hash};
    }

    /** The ordered map's lower bound: the least key from `from` on, if any. */
    method LowerBound(from: nat) returns (at: Position)
      ensures at.End? ==> NoneFrom(nodes.Keys, from)
      ensures at.At? ==> IsLeast(nodes.Keys, from, at.hash)
    {
      var seen: set<nat> := {};
      var rest := nodes.Keys;
      at := End;
      while rest != {}
        invariant seen + rest == nodes.Keys
        invariant at.End? ==> NoneFrom(seen, from)
        invariant at.At? ==> IsLeast(seen, from, at.hash)
        decreases |rest|
      {
        Inhabited(rest);
        var k :| k in rest;
        if from <= k && (at.End? || k < at.hash) {
          at := At(k);
        }
        seen, rest := seen + {k}, rest - {k};
      }
      assert seen == nodes.Keys;
    }

    /** Ends at the one owner of `hash`, and at the end exactly when there are no nodes. */
    method Find(hash: nat) returns (at: Position)
      ensures at.End? <==> |nodes| == 0
      ensures at.At? ==> IsOwner(nodes.Keys, hash, at.hash)
    {
      if |nodes| == 0 {
        return End;
      }
      at := LowerBound(hash);
      if at.End? {
        at := LowerBound(0);
        Inhabited(nodes.Keys);
      }
    }
  }
}
