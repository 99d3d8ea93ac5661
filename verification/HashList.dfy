// The per-page index of item hashes (nvs_item_hash_list.cpp): a list of fixed-size blocks, with
// erased nodes left in place as tombstones until their whole block is free. Seen from outside it
// is a set of nodes, and it stays searchable in ascending entry order.
module ItemHashList {

  datatype Node = Node(index: nat, hash: nat)

  const TOMBSTONE: nat := 0xff
  const NO_ENTRY: nat := 0xffff_ffff_ffff_ffff

  predicate Matches(n: Node, start: nat, hash: nat) {
    n.index >= start && n.hash == hash
  }

  // Position (b, k) of the block list holds a node that has not been erased.
  predicate LiveAt(blocks: seq<seq<Node>>, b: nat, k: nat) {
    b < |blocks| && k < |blocks[b]| && blocks[b][k].index != TOMBSTONE
  }

  ghost predicate Holds(blocks: seq<seq<Node>>, n: Node) {
    exists b: nat, k: nat :: LiveAt(blocks, b, k) && blocks[b][k] == n
  }

  predicate Precedes(b: nat, k: nat, c: nat, l: nat) {
    b < c || (b == c && k < l)
  }

  // Nodes ascend along the list, tombstones aside.
  ghost predicate Sorted(blocks: seq<seq<Node>>) {
    forall b: nat, k: nat, c: nat, l: nat :: LiveAt(blocks, b, k) && LiveAt(blocks, c, l) && Precedes(b, k, c, l)
      ==> blocks[b][k].index < blocks[c][l].index
  }

  // The list holds exactly these nodes.
  ghost predicate Lists(blocks: seq<seq<Node>>, nodes: set<Node>, perBlock: nat) {
    && (forall b :: 0 <= b < |blocks| ==> |blocks[b]| <= perBlock)
    && (forall b: nat, k: nat :: b < |blocks| && k < |blocks[b]| ==> blocks[b][k].index <= TOMBSTONE)
    && (forall b: nat, k: nat :: LiveAt(blocks, b, k) ==> blocks[b][k] in nodes)
    && (forall n :: n in nodes ==> Holds(blocks, n))
    && Sorted(blocks)
  }

  // One node more, in place (b, k) behind all others.
  lemma ListsMore(was: seq<seq<Node>>, now: seq<seq<Node>>, nodes: set<Node>, perBlock: nat, b: nat, k: nat, n: Node)
    requires Lists(was, nodes, perBlock) && n.index < TOMBSTONE && forall m :: m in nodes ==> m.index < n.index
    requires LiveAt(now, b, k) && now[b][k] == n
    requires forall c: nat, l: nat :: LiveAt(was, c, l) ==>
      LiveAt(now, c, l) && now[c][l] == was[c][l] && Precedes(c, l, b, k)
    requires forall c: nat, l: nat :: LiveAt(now, c, l) ==> (c == b && l == k) || LiveAt(was, c, l)
    requires forall c :: 0 <= c < |now| ==> |now[c]| <= perBlock
    requires forall c: nat, l: nat :: c < |now| && l < |now[c]| ==> now[c][l].index <= TOMBSTONE
    ensures Lists(now, nodes + {n}, perBlock)
  {
    forall m | m in nodes + {n} ensures Holds(now, m) {
      if m in nodes {
        var c: nat, l: nat :| LiveAt(was, c, l) && was[c][l] == m;
        assert LiveAt(now, c, l) && now[c][l] == m;
      } else {
        assert LiveAt(now, b, k) && now[b][k] == m;
      }
    }
  }

  class HashList {
    const perBlock: nat
    var blocks: seq<seq<Node>>
    ghost var nodes: set<Node>

    ghost predicate Valid() reads this {
      perBlock > 0 && Lists(blocks, nodes, perBlock)
    }

    constructor (perBlock: nat)
      requires perBlock > 0
      ensures Valid() && nodes == {}
    {
      this.perBlock := perBlock;
      blocks, nodes := [], {};
    }

    method Clear()
      requires Valid()
      modifies this
      ensures Valid() && nodes == {}
    {
      blocks, nodes := [], {};
    }

    // Appends; callers hand out entry indices in ascending order.
    method Insert(hash: nat, index: nat)
      requires Valid() && index < TOMBSTONE
      requires forall n :: n in nodes ==> n.index < index
      modifies this
      ensures Valid() && nodes == old(nodes) + {Node(index, hash)}
    {
      hide Lists;
      var n := Node(index, hash);
      ghost var was := blocks;
      if |blocks| > 0 && |blocks[|blocks| - 1]| < perBlock {
        var last := |blocks| - 1;
        blocks := blocks[last := blocks[last] + [n]];
        InLastBlock(was, blocks, nodes, perBlock, n);
      } else {
        blocks := blocks + [[n]];
        InNewBlock(was, blocks, nodes, perBlock, n);
      }
      nodes := nodes + {n};
    }

    static lemma InLastBlock(was: seq<seq<Node>>, now: seq<seq<Node>>, nodes: set<Node>, perBlock: nat, n: Node)
      requires Lists(was, nodes, perBlock) && n.index < TOMBSTONE && forall m :: m in nodes ==> m.index < n.index
      requires was != [] && |was[|was| - 1]| < perBlock && now == was[|was| - 1 := was[|was| - 1] + [n]]
      ensures Lists(now, nodes + {n}, perBlock)
    {
      hide Sorted, Holds;
      ListsMore(was, now, nodes, perBlock, |was| - 1, |was[|was| - 1]|, n);
    }

    static lemma InNewBlock(was: seq<seq<Node>>, now: seq<seq<Node>>, nodes: set<Node>, perBlock: nat, n: Node)
      requires Lists(was, nodes, perBlock) && n.index < TOMBSTONE && forall m :: m in nodes ==> m.index < n.index
      requires perBlock > 0 && now == was + [[n]]
      ensures Lists(now, nodes + {n}, perBlock)
    {
      hide Sorted, Holds;
      ListsMore(was, now, nodes, perBlock, |was|, 0, n);
    }

    // The least entry at or after `start` whose item has this hash, among all live nodes.
    method Find(start: nat, hash: nat) returns (r: nat)
      requires Valid()
      ensures r == NO_ENTRY ==> forall n :: n in nodes ==> !Matches(n, start, hash)
      ensures r != NO_ENTRY ==> r >= start && Node(r, hash) in nodes
      ensures r != NO_ENTRY ==> forall n :: n in nodes && Matches(n, start, hash) ==> r <= n.index
    {
      var b := 0;
      while b < |blocks|
        invariant b <= |blocks|
        invariant forall c: nat, l: nat :: LiveAt(blocks, c, l) && c < b ==> !Matches(blocks[c][l], start, hash)
      {
        var k := 0;
        while k < |blocks[b]|
          invariant k <= |blocks[b]|
          invariant forall c: nat, l: nat :: LiveAt(blocks, c, l) && Precedes(c, l, b, k) ==>
            !Matches(blocks[c][l], start, hash)
        {
          var e := blocks[b][k];
          if e.index >= start && e.hash == hash && e.index != TOMBSTONE {
            assert LiveAt(blocks, b, k);
            forall n | n in nodes && Matches(n, start, hash) ensures e.index <= n.index {
              var c: nat, l: nat :| LiveAt(blocks, c, l) && blocks[c][l] == n;
              assert !Precedes(c, l, b, k);
              assert (c == b && l == k) || Precedes(b, k, c, l);
            }
            return e.index;
          }
          k := k + 1;
        }
        b := b + 1;
      }
      r := NO_ENTRY;
      forall n | n in nodes ensures !Matches(n, start, hash) {
        var c: nat, l: nat :| LiveAt(blocks, c, l) && blocks[c][l] == n;
      }
    }

    // Tombstones the node of an entry and drops its block once that holds no live node any more.
    method Erase(index: nat) returns (found: bool)
      requires Valid() && index < TOMBSTONE
      modifies this
      ensures Valid() && nodes == set n | n in old(nodes) && n.index != index
      ensures found == exists n :: n in old(nodes) && n.index == index
    {
      hide Lists, Sorted;
      var b := 0;
      while b < |blocks|
        invariant Valid() && nodes == old(nodes) && b <= |blocks|
        invariant forall c: nat, l: nat :: LiveAt(blocks, c, l) && c < b ==> blocks[c][l].index != index
        decreases |blocks| - b
      {
        var haveEntries, foundIndex, victim := Tombstone(b, index);
        ghost var was := blocks;
        if !haveEntries {
          blocks := blocks[..b] + blocks[b + 1..];
          DroppedLists(was, blocks, nodes, perBlock, b);
        }
        if foundIndex {
          return true;
        }
        if haveEntries {
          b := b + 1;
        }
      }
      found := false;
      NotListed(blocks, nodes, perBlock, index);
      assert nodes == set n | n in old(nodes) && n.index != index;
    }

    static lemma NotListed(blocks: seq<seq<Node>>, nodes: set<Node>, perBlock: nat, index: nat)
      requires Lists(blocks, nodes, perBlock)
      requires forall c: nat, l: nat :: LiveAt(blocks, c, l) ==> blocks[c][l].index != index
      ensures forall n :: n in nodes ==> n.index != index
    {
      forall n | n in nodes ensures n.index != index {
        var c: nat, l: nat :| LiveAt(blocks, c, l) && blocks[c][l] == n;
      }
    }

    static lemma DroppedLists(was: seq<seq<Node>>, now: seq<seq<Node>>, nodes: set<Node>, perBlock: nat, b: nat)
      requires Lists(was, nodes, perBlock) && b < |was| && now == was[..b] + was[b + 1..]
      requires forall k: nat :: !LiveAt(was, b, k)
      ensures Lists(now, nodes, perBlock)
      ensures forall c: nat, l: nat :: LiveAt(now, c, l) ==>
        LiveAt(was, if c < b then c else c + 1, l) && now[c][l] == was[if c < b then c else c + 1][l]
    {
      Dropped(was, now, b);
    }

    static lemma Dropped(was: seq<seq<Node>>, now: seq<seq<Node>>, b: nat)
      requires b < |was| && now == was[..b] + was[b + 1..]
      requires forall k: nat :: !LiveAt(was, b, k)
      ensures forall n :: Holds(was, n) ==> Holds(now, n)
      ensures forall c: nat, l: nat :: LiveAt(now, c, l) ==>
        LiveAt(was, if c < b then c else c + 1, l) && now[c][l] == was[if c < b then c else c + 1][l]
      ensures Sorted(was) ==> Sorted(now)
    {
      forall n | Holds(was, n) ensures Holds(now, n) {
        var c: nat, l: nat :| LiveAt(was, c, l) && was[c][l] == n;
        var c' := if c < b then c else c - 1;
        assert LiveAt(now, c', l) && now[c'][l] == n;
      }
      if Sorted(was) {
        DroppedSorted(was, now, b);
      }
    }

    static lemma DroppedSorted(was: seq<seq<Node>>, now: seq<seq<Node>>, b: nat)
      requires b < |was| && now == was[..b] + was[b + 1..] && Sorted(was)
      ensures Sorted(now)
    {
      forall c: nat, l: nat, d: nat, m: nat | LiveAt(now, c, l) && LiveAt(now, d, m) && Precedes(c, l, d, m)
        ensures now[c][l].index < now[d][m].index
      {
        var c', d' := if c < b then c else c + 1, if d < b then d else d + 1;
        assert LiveAt(was, c', l) && LiveAt(was, d', m) && Precedes(c', l, d', m);
      }
    }

    // Turns one live node into a tombstone.
    method Bury(b: nat, k: nat)
      requires Valid() && LiveAt(blocks, b, k)
      modifies this
      ensures Valid() && nodes == set n | n in old(nodes) && n.index != old(blocks)[b][k].index
      ensures old(blocks[b][k]) in old(nodes)
      ensures blocks == old(blocks)[b := old(blocks)[b][k := Node(TOMBSTONE, old(blocks)[b][k].hash)]]
    {
      ghost var was: seq<seq<Node>> := blocks;
      blocks := blocks[b := blocks[b][k := Node(TOMBSTONE, blocks[b][k].hash)]];
      nodes := set n: Node | n in nodes && n.index != was[b][k].index;
      Erased(was, blocks, b, k);
    }

    // The inner loop of erase. It stops early once the node is gone and its block is seen to hold
    // others; indices are distinct, so nothing is missed.
    method Tombstone(b: nat, index: nat) returns (haveEntries: bool, foundIndex: bool, ghost victim: Node)
      requires Valid() && b < |blocks| && index < TOMBSTONE
      modifies this
      ensures Valid() && |blocks| == old(|blocks|)
      ensures !haveEntries ==> forall k: nat :: !LiveAt(blocks, b, k)
      ensures foundIndex ==> nodes == set n | n in old(nodes) && n.index != index
      ensures foundIndex ==> victim in old(nodes) && victim.index == index
      ensures !foundIndex ==> blocks == old(blocks) && nodes == old(nodes)
      ensures !foundIndex ==> forall l: nat :: LiveAt(blocks, b, l) ==> blocks[b][l].index != index
    {
      hide Lists;
      haveEntries, foundIndex, victim := false, false, Node(0, 0);
      var k := 0;
      while k < |blocks[b]|
        invariant Valid() && |blocks| == old(|blocks|) && k <= |blocks[b]|
        invariant !haveEntries ==> forall l: nat :: l < k ==> !LiveAt(blocks, b, l)
        invariant foundIndex ==> nodes == (set n | n in old(nodes) && n.index != index)
        invariant foundIndex ==> victim in old(nodes) && victim.index == index
        invariant !foundIndex ==> blocks == old(blocks) && nodes == old(nodes)
        invariant !foundIndex ==> forall l: nat :: l < k && LiveAt(blocks, b, l) ==> blocks[b][l].index != index
        invariant foundIndex ==> !haveEntries
      {
        if blocks[b][k].index == index {
          assert LiveAt(blocks, b, k);
          victim := blocks[b][k];
          Bury(b, k);
          foundIndex := true;
        }
        if blocks[b][k].index != TOMBSTONE {
          assert LiveAt(blocks, b, k);
          haveEntries := true;
        }
        if haveEntries && foundIndex {
          return;
        }
        k := k + 1;
      }
    }

    static lemma Erased(was: seq<seq<Node>>, now: seq<seq<Node>>, b: nat, k: nat)
      requires LiveAt(was, b, k) && Sorted(was)
      requires now == was[b := was[b][k := Node(TOMBSTONE, was[b][k].hash)]]
      ensures forall c: nat, l: nat :: LiveAt(now, c, l) <==> LiveAt(was, c, l) && !(c == b && l == k)
      ensures forall c: nat, l: nat :: LiveAt(now, c, l) ==>
        now[c][l] == was[c][l] && was[c][l].index != was[b][k].index
      ensures Sorted(now)
      ensures forall n :: Holds(was, n) && n.index != was[b][k].index ==> Holds(now, n)
    {
      forall c: nat, l: nat | LiveAt(now, c, l)
        ensures now[c][l] == was[c][l] && was[c][l].index != was[b][k].index
      {
        assert LiveAt(was, c, l);
        assert Precedes(c, l, b, k) || Precedes(b, k, c, l);
      }
      forall n | Holds(was, n) && n.index != was[b][k].index ensures Holds(now, n) {
        var c: nat, l: nat :| LiveAt(was, c, l) && was[c][l] == n;
        assert LiveAt(now, c, l) && now[c][l] == n;
      }
    }
  }
}
