/** The growing arrays and the memory pools of tinyxml2.h, both as classes updated in place.

    A pool hands out slots of equal size.  A slot that is not live holds the address of the
    next free one, so the free chain runs through the slots of all blocks; the ghost fields say
    which slots it visits and which are live. */
module MemPool {

  // ----- DynArray --------------------------------------------------------------------

  /** An array that grows by doubling the size that is asked for. */
  class DynArray<T(0)> {
    var mem: array<T>
    var size: nat

    ghost predicate Valid()
      reads this
    {
      size <= mem.Length && 0 < mem.Length
    }

    ghost function Contents(): (s: seq<T>)
      requires Valid()
      reads this, mem
    {
      mem[..size]
    }

    constructor (initialSize: nat)
      requires 0 < initialSize
      ensures Valid() && fresh(mem) && Contents() == [] && mem.Length == initialSize
    {
      mem := new T[initialSize];
      size := 0;
    }

    method EnsureCapacity(cap: nat)
      requires Valid() && size <= cap
      modifies this
      ensures Valid() && Contents() == old(Contents()) && cap <= mem.Length
      ensures if cap <= old(mem.Length) then mem == old(mem) else fresh(mem) && mem.Length == 2 * cap
    {
      if cap > mem.Length {
        var newMem := new T[2 * cap];
        forall i | 0 <= i < size { newMem[i] := mem[i]; }
        mem := newMem;
      }
    }

    method Push(t: T)
      requires Valid()
      modifies this, mem
      ensures Valid() && Contents() == old(Contents()) + [t] && (mem == old(mem) || fresh(mem))
    {
      EnsureCapacity(size + 1);
      mem[size] := t;
      size := size + 1;
    }

    /** Room for `count` more, whose contents are left as they are in memory. */
    method PushArr(count: nat) returns (start: nat)
      requires Valid()
      modifies this
      ensures Valid() && start == old(size) && size == start + count && Contents()[..start] == old(Contents())
      ensures mem == old(mem) || fresh(mem)
    {
      EnsureCapacity(size + count);
      start := size;
      size := size + count;
    }

    method Pop() returns (t: T)
      requires Valid() && 0 < size
      modifies `size
      ensures Valid() && Contents() + [t] == old(Contents())
    {
      size := size - 1;
      t := mem[size];
    }

    method PopArr(count: nat)
      requires Valid() && count <= size
      modifies `size
      ensures Valid() && Contents() == old(Contents())[..old(size) - count]
    {
      size := size - count;
    }

    /** The last one takes the place of number `i`. */
    method SwapRemove(i: nat)
      requires Valid() && i < size
      modifies `size, mem
      ensures Valid() && Contents() == old(Contents())[i := old(Contents())[old(size) - 1]][..old(size) - 1]
    {
      mem[i] := mem[size - 1];
      size := size - 1;
    }
  }

  // ----- Pools -----------------------------------------------------------------------

  datatype Pointer = Null | At(block: nat, index: nat)

  type Block = seq<Pointer>

  ghost predicate IsSlot(blocks: seq<Block>, p: Pointer) {
    p.At? && p.block < |blocks| && p.index < |blocks[p.block]|
  }

  /** What is stored in a slot: the pointer to the next free slot, or the data of the user. */
  function ItemAt(blocks: seq<Block>, p: Pointer): Pointer
    requires p.At? && p.block < |blocks| && p.index < |blocks[p.block]|
  {
    blocks[p.block][p.index]
  }

  function WithItem(blocks: seq<Block>, p: Pointer, x: Pointer): seq<Block>
    requires p.At? && p.block < |blocks| && p.index < |blocks[p.block]|
  {
    blocks[p.block := blocks[p.block][p.index := x]]
  }

  ghost function First(chain: seq<Pointer>): Pointer {
    if chain == [] then Null else chain[0]
  }

  /** `chain` lists the free slots from the root on. */
  ghost predicate Linked(blocks: seq<Block>, root: Pointer, chain: seq<Pointer>)
    decreases |chain|
  {
    && root == First(chain)
    && (chain != [] ==> IsSlot(blocks, chain[0]) && Linked(blocks, ItemAt(blocks, chain[0]), chain[1..]))
  }

  ghost predicate Distinct(chain: seq<Pointer>) {
    forall i, j :: 0 <= i < j < |chain| ==> chain[i] != chain[j]
  }

  /** Every slot of every block is free or live, and not both. */
  ghost predicate Partition(blocks: seq<Block>, chain: seq<Pointer>, live: set<Pointer>) {
    && Distinct(chain)
    && (forall p :: IsSlot(blocks, p) <==> p in chain || p in live)
    && (forall p :: p in chain ==> p !in live)
  }

  /** Changing slots that are not in the chain leaves the chain linked. */
  lemma {:induction false} LinkedElsewhere(blocks: seq<Block>, blocks': seq<Block>, root: Pointer, chain: seq<Pointer>)
    requires Linked(blocks, root, chain)
    requires forall p :: p in chain && IsSlot(blocks, p) ==>
      IsSlot(blocks', p) && ItemAt(blocks', p) == ItemAt(blocks, p)
    ensures Linked(blocks', root, chain)
    decreases |chain|
  {
    if chain != [] {
      assert chain[0] in chain;
      assert forall p :: p in chain[1..] ==> p in chain;
      LinkedElsewhere(blocks, blocks', ItemAt(blocks, chain[0]), chain[1..]);
    }
  }

  /** A new block, each item of which points to the next. */
  ghost function FreshBlock(b: nat, n: nat): Block {
    seq(n, i requires 0 <= i < n => if i + 1 < n then At(b, i + 1) else Null)
  }

  ghost function FreshChain(b: nat, i: nat, n: nat): (s: seq<Pointer>)
    requires i <= n
    ensures |s| == n - i && forall k :: 0 <= k < |s| ==> s[k] == At(b, i + k)
  {
    seq(n - i, k requires 0 <= k < n - i => At(b, i + k))
  }

  lemma {:induction false} FreshLinked(blocks: seq<Block>, b: nat, i: nat, n: nat)
    requires i <= n && b < |blocks| && blocks[b] == FreshBlock(b, n)
    ensures Linked(blocks, if i < n then At(b, i) else Null, FreshChain(b, i, n))
    decreases n - i
  {
    if i < n {
      assert FreshChain(b, i, n)[1..] == FreshChain(b, i + 1, n);
      FreshLinked(blocks, b, i + 1, n);
    }
  }

  lemma FreshPartition(blocks: seq<Block>, live: set<Pointer>, n: nat)
    requires Partition(blocks, [], live) && 0 < n
    ensures Partition(blocks + [FreshBlock(|blocks|, n)], FreshChain(|blocks|, 0, n), live)
  {
    var b := |blocks|;
    var blocks', chain := blocks + [FreshBlock(b, n)], FreshChain(b, 0, n);
    forall p ensures IsSlot(blocks', p) <==> p in chain || p in live {
      if IsSlot(blocks', p) && p.block == b { assert chain[p.index] == p; }
      if IsSlot(blocks', p) && p.block < b { assert IsSlot(blocks, p); }
      if p in live { assert IsSlot(blocks, p); }
    }
    forall p | p in chain ensures p !in live {
      assert !IsSlot(blocks, p);
    }
  }

  lemma TakeFirst(blocks: seq<Block>, root: Pointer, chain: seq<Pointer>, live: set<Pointer>)
    requires Linked(blocks, root, chain) && Partition(blocks, chain, live) && root != Null
    ensures chain != [] && IsSlot(blocks, root) && root !in live
    ensures Linked(blocks, ItemAt(blocks, root), chain[1..]) && Partition(blocks, chain[1..], live + {root})
  {
    assert chain[0] in chain;
    assert forall p :: p in chain <==> p == root || p in chain[1..];
    assert forall i :: 0 <= i < |chain[1..]| ==> chain[1..][i] != chain[0];
  }

  lemma GiveBack(blocks: seq<Block>, root: Pointer, chain: seq<Pointer>, live: set<Pointer>, p: Pointer)
    requires Linked(blocks, root, chain) && Partition(blocks, chain, live) && p in live
    ensures IsSlot(blocks, p)
    ensures Linked(WithItem(blocks, p, root), p, [p] + chain)
      && Partition(WithItem(blocks, p, root), [p] + chain, live - {p})
  {
    assert IsSlot(blocks, p);
    LinkedElsewhere(blocks, WithItem(blocks, p, root), root, chain);
    assert ([p] + chain)[1..] == chain;
    assert forall q :: q in [p] + chain <==> q == p || q in chain;
  }

  class MemPoolT {
    const itemsPerBlock: nat
    var blocks: seq<Block>
    var root: Pointer
    var currentAllocs: int
    var nAllocs: int
    var maxAllocs: int
    var nUntracked: int
    ghost var live: set<Pointer>
    ghost var chain: seq<Pointer>

    ghost predicate Valid()
      reads this
    {
      && 0 < itemsPerBlock
      && Linked(blocks, root, chain) && Partition(blocks, chain, live)
      && currentAllocs == |live| <= maxAllocs <= nAllocs
    }

    /** 4096 bytes for each block. */
    constructor (itemSize: nat)
      requires 0 < itemSize <= 4 * 1024
      ensures Valid() && live == {} && blocks == []
    {
      itemsPerBlock := 4 * 1024 / itemSize;
      blocks, root := [], Null;
      currentAllocs, nAllocs, maxAllocs, nUntracked := 0, 0, 0, 0;
      live, chain := {}, [];
    }

    /** The block is allocated and its items are linked. */
    method NewBlock()
      requires Valid() && root == Null
      modifies `blocks, `root, `chain
      ensures Valid() && root != Null && old(blocks) <= blocks
    {
      var block := new Pointer[itemsPerBlock](_ => Null);
      var b := |blocks|;
      for i := 0 to itemsPerBlock - 1
        invariant blocks == old(blocks) && root == Null && chain == old(chain)
        invariant forall k: nat :: k < i ==> block[k] == At(b, k + 1)
      {
        block[i] := At(b, i + 1);
      }
      block[itemsPerBlock - 1] := Null;
      assert block[..] == FreshBlock(b, itemsPerBlock);
      FreshPartition(blocks, live, itemsPerBlock);
      blocks := blocks + [block[..]];
      FreshLinked(blocks, b, 0, itemsPerBlock);
      root := At(b, 0);
      chain := FreshChain(b, 0, itemsPerBlock);
    }

    /** Hands out a slot that is not in use; what is stored in the others does not change. */
    method Alloc() returns (result: Pointer)
      requires Valid()
      modifies this
      ensures Valid() && IsSlot(blocks, result) && result !in old(live) && live == old(live) + {result}
      ensures currentAllocs == old(currentAllocs) + 1 && nAllocs == old(nAllocs) + 1
      ensures old(blocks) <= blocks && (old(root) != Null ==> blocks == old(blocks))
    {
      hide Linked, Partition;
      if root == Null { NewBlock(); }
      TakeFirst(blocks, root, chain, live);
      result := root;
      root := ItemAt(blocks, root);
      live := live + {result};
      chain := chain[1..];
      currentAllocs := currentAllocs + 1;
      if currentAllocs > maxAllocs { maxAllocs := currentAllocs; }
      nAllocs := nAllocs + 1;
      nUntracked := nUntracked + 1;
    }

    /** Takes back a slot that is in use. */
    method Free(mem: Pointer)
      requires Valid() && (mem != Null ==> mem in live)
      modifies this
      ensures Valid() && live == old(live) - {mem}
      ensures currentAllocs == old(currentAllocs) - if mem == Null then 0 else 1
      ensures mem == Null ==> blocks == old(blocks)
      ensures mem != Null ==> IsSlot(old(blocks), mem) && blocks == WithItem(old(blocks), mem, old(root))
    {
      hide Linked;
      if mem == Null {
        return;
      }
      GiveBack(blocks, root, chain, live, mem);
      currentAllocs := currentAllocs - 1;
      blocks := WithItem(blocks, mem, root);
      root := mem;
      chain := [mem] + chain;
      live := live - {mem};
    }

    /** The user of a live slot writes to it. */
    method Write(p: Pointer, data: Pointer)
      requires Valid() && p in live
      modifies `blocks
      ensures Valid() && IsSlot(old(blocks), p) && blocks == WithItem(old(blocks), p, data)
    {
      hide Linked;
      assert IsSlot(blocks, p);
      LinkedElsewhere(blocks, WithItem(blocks, p, data), root, chain);
      blocks := WithItem(blocks, p, data);
    }

    method SetTracked()
      requires Valid()
      modifies `nUntracked
      ensures Valid() && nUntracked == old(nUntracked) - 1
    {
      nUntracked := nUntracked - 1;
    }

    method Clear()
      requires Valid()
      modifies this
      ensures Valid() && blocks == [] && live == {} && currentAllocs == 0
    {
      while blocks != []
        decreases |blocks|
      {
        blocks := blocks[..|blocks|-1];
      }
      root := Null;
      currentAllocs, nAllocs, maxAllocs, nUntracked := 0, 0, 0, 0;
      live, chain := {}, [];
    }
  }

  // ----- Any sequence of calls -------------------------------------------------------

  /** Free gives back the slot that was handed out at position `slot` of the list of live
      slots; Scribble overwrites the data of such a slot. */
  datatype Call = Alloc | Free(slot: nat) | Scribble(slot: nat, data: Pointer)

  /** Users that free and write only what they hold never get a slot twice: the slots in use
      are as many as the pool counts, and all different. */
  method RunPool(itemSize: nat, calls: seq<Call>) returns (pool: MemPoolT, held: seq<Pointer>)
    requires 0 < itemSize <= 4 * 1024
    ensures fresh(pool) && pool.Valid() && Distinct(held)
    ensures (forall p :: p in held <==> p in pool.live) && pool.currentAllocs == |held|
  {
    pool := new MemPoolT(itemSize);
    held := [];
    for i := 0 to |calls|
      invariant fresh(pool) && pool.Valid() && Distinct(held)
      invariant forall p :: p in held <==> p in pool.live
    {
      match calls[i] {
        case Alloc =>
          var p := pool.Alloc();
          held := held + [p];
        case Free(k) =>
          if k < |held| {
            RemovedOne(held, k);
            pool.Free(held[k]);
            held := held[..k] + held[k + 1..];
          }
        case Scribble(k, data) =>
          if k < |held| { pool.Write(held[k], data); }
      }
    }
    AsManyAsDistinct(held, pool.live);
  }

  lemma RemovedOne(s: seq<Pointer>, k: nat)
    requires Distinct(s) && k < |s|
    ensures s[k] in s && Distinct(s[..k] + s[k + 1..])
    ensures forall p :: p in s[..k] + s[k + 1..] <==> p in s && p != s[k]
  {
    var r := s[..k] + s[k + 1..];
    assert forall i :: 0 <= i < |r| ==> r[i] == s[if i < k then i else i + 1];
    forall p | p in s && p != s[k] ensures p in r {
      var i :| 0 <= i < |s| && s[i] == p;
      assert r[if i < k then i else i - 1] == p;
    }
  }

  lemma {:induction false} AsManyAsDistinct(s: seq<Pointer>, live: set<Pointer>)
    requires Distinct(s) && forall p :: p in s <==> p in live
    ensures |live| == |s|
    decreases |s|
  {
    if s == [] {
      assert live == {};
    } else {
      var x, r := s[|s|-1], s[..|s|-1];
      assert s == r + [x];
      AsManyAsDistinct(r, live - {x});
    }
  }
}
