/**
 MemoryPool.cpp: a bounded pool of blocks of one size.  A value describes the pool together with its callers: which
 blocks they hold, and how many blocks the counter still counts although they are gone.
 */
module MemoryPools {
  import opened Options

  const BLOCK_RESERVE: nat := 128

  datatype Pool<T> = Pool(max: nat, counted: nat, idle: seq<T>, capacity: nat, inUse: set<T>, lost: nat)

  /** GetMemory returns a block, or throws what `new` throws, or throws that the pool is exhausted. */
  datatype Outcome<T> = Block(block: T) | BadAlloc | Exhausted

  /** A call, with what the environment decides: the block that `new` yields, or None when it throws; and the
      capacity that a growing vector gets, or None when that throws. */
  datatype Call<T> = Get(made: Option<T>) | Release(block: T, room: Option<nat>)

  /** New blocks are not blocks in use; only blocks in use are released; a grown vector has room. */
  predicate Legal<T(==)>(p: Pool<T>, c: Call<T>) {
    match c
    case Get(made) => made.Some? ==> made.value !in p.inUse && made.value !in p.idle
    case Release(b, room) => b in p.inUse && (room.Some? ==> |p.idle| < room.value)
  }

  predicate MayAllocate<T>(p: Pool<T>) {
    p.max == 0 || p.counted < p.max
  }

  function Result<T>(p: Pool<T>, made: Option<T>): Outcome<T> {
    if |p.idle| > 0 then Block(p.idle[|p.idle| - 1])
    else if !MayAllocate(p) then Exhausted
    else if made.Some? then Block(made.value) else BadAlloc
  }

  function Next<T(==)>(p: Pool<T>, c: Call<T>): Pool<T> {
    match c
    case Get(made) =>
      if |p.idle| > 0 then
        var b := p.idle[|p.idle| - 1];
        p.(idle := p.idle[..|p.idle| - 1], inUse := p.inUse + {b})
      else if !MayAllocate(p) then p
      else if made.Some? then p.(counted := p.counted + 1, inUse := p.inUse + {made.value})
      else p.(counted := p.counted + 1, lost := p.lost + 1)
    case Release(b, room) =>
      if |p.idle| < p.capacity then p.(idle := p.idle + [b], inUse := p.inUse - {b})
      else if room.Some? then p.(idle := p.idle + [b], inUse := p.inUse - {b}, capacity := room.value)
      else p.(inUse := p.inUse - {b}, lost := p.lost + 1)
  }

  predicate Possible<T(==)>(p: Pool<T>, calls: seq<Call<T>>)
    decreases |calls|
  {
    |calls| > 0 ==> Legal(p, calls[0]) && Possible(Next(p, calls[0]), calls[1..])
  }

  function After<T(==)>(p: Pool<T>, calls: seq<Call<T>>): Pool<T>
    decreases |calls|
  {
    if |calls| == 0 then p else After(Next(p, calls[0]), calls[1..])
  }

  /** The capacity that the constructor asks for. */
  function Reserve(preAlloc: nat, maxAlloc: nat): nat {
    var r := if preAlloc > BLOCK_RESERVE then preAlloc else BLOCK_RESERVE;
    if maxAlloc > 0 && maxAlloc < r then maxAlloc else r
  }

  predicate Distinct<T(==)>(s: seq<T>) {
    forall i, j :: 0 <= i < j < |s| ==> s[i] != s[j]
  }

  /** A pool as its constructor leaves it. */
  ghost predicate Constructed<T>(p: Pool<T>, preAlloc: nat) {
    && (p.max == 0 || preAlloc <= p.max)
    && p.counted == preAlloc == |p.idle| && Distinct(p.idle)
    && Reserve(preAlloc, p.max) <= p.capacity
    && p.inUse == {} && p.lost == 0
  }

  // ---------------------------------------------------------------------------------------------
  // Conservation
  // ---------------------------------------------------------------------------------------------

  /** Every counted block is free, in use or lost, once; the bound holds. */
  ghost predicate Conserved<T>(p: Pool<T>) {
    && p.counted == |p.idle| + |p.inUse| + p.lost
    && Distinct(p.idle)
    && (forall b :: b in p.idle ==> b !in p.inUse)
    && (p.max > 0 ==> p.counted <= p.max)
    && |p.idle| <= p.capacity
  }

  lemma ConstructedConserved<T>(p: Pool<T>, preAlloc: nat)
    requires Constructed(p, preAlloc)
    ensures Conserved(p)
  {
  }

  lemma StepConserves<T>(p: Pool<T>, c: Call<T>)
    requires Conserved(p) && Legal(p, c)
    ensures Conserved(Next(p, c))
    ensures Next(p, c).max == p.max && p.lost <= Next(p, c).lost && p.capacity <= Next(p, c).capacity
  {
    match c
    case Get(made) =>
      if |p.idle| > 0 { assert p.idle[|p.idle| - 1] in p.idle; }
    case Release(b, room) =>
      assert |p.inUse - {b}| == |p.inUse| - 1;
      assert p.inUse == (p.inUse - {b}) + {b};
  }

  /** Over all runs nothing is counted twice, handed out twice or forgotten, whatever allocations fail. */
  lemma {:induction false} Conservation<T>(p: Pool<T>, calls: seq<Call<T>>)
    requires Conserved(p) && Possible(p, calls)
    ensures Conserved(After(p, calls))
    ensures After(p, calls).max == p.max && p.lost <= After(p, calls).lost && p.capacity <= After(p, calls).capacity
    decreases |calls|
  {
    if |calls| > 0 {
      StepConserves(p, calls[0]);
      Conservation(Next(p, calls[0]), calls[1..]);
    }
  }

  lemma GetIsNew<T>(p: Pool<T>, made: Option<T>)
    requires Conserved(p) && Legal(p, Get(made))
    ensures Result(p, made).Block? ==> Result(p, made).block !in p.inUse
  {
    if |p.idle| > 0 { assert p.idle[|p.idle| - 1] in p.idle; }
  }

  /** A call that asks `new` for a block: none is free, and the maximum allows one more. */
  predicate AsksNew<T>(p: Pool<T>, c: Call<T>) {
    c.Get? && |p.idle| == 0 && (p.max == 0 || p.counted < p.max)
  }

  /** How many calls of a run ask `new` for a block, whether it then throws or not. */
  ghost function Asked<T>(p: Pool<T>, calls: seq<Call<T>>): nat
    decreases |calls|
  {
    if |calls| == 0 then 0
    else (if AsksNew(p, calls[0]) then 1 else 0) + Asked(Next(p, calls[0]), calls[1..])
  }

  /** The counter counts what was asked for: a `new` that throws counts for good, and nothing counts down. */
  lemma {:induction false} CountsWhatWasAsked<T>(p: Pool<T>, calls: seq<Call<T>>)
    ensures After(p, calls).counted == p.counted + Asked(p, calls)
    decreases |calls|
  {
    if |calls| > 0 { CountsWhatWasAsked(Next(p, calls[0]), calls[1..]); }
  }

  /** So a pool with a maximum can be exhausted with every block back in the system: it is, after as many failures. */
  lemma {:induction false} FailuresExhaust<T>(p: Pool<T>, n: nat) returns (calls: seq<Call<T>>)
    requires |p.idle| == 0 && p.inUse == {} && p.max > 0 && p.counted + n == p.max
    ensures |calls| == n && Possible(p, calls)
    ensures var q := After(p, calls); q.inUse == {} && q.idle == [] && forall made :: Result(q, made) == Exhausted
    decreases n
  {
    if n == 0 {
      calls := [];
    } else {
      var rest := FailuresExhaust(Next(p, Get(None)), n - 1);
      calls := [Get(None)] + rest;
      assert calls[1..] == rest;
    }
  }

  /** A block that is handed out was in nobody's hands; the pool reports exhaustion exactly when every block that
      it may ever have is in use or lost. */
  lemma HandsOutOnce<T>(p: Pool<T>, preAlloc: nat, calls: seq<Call<T>>, made: Option<T>)
    requires Constructed(p, preAlloc) && Possible(p, calls) && Legal(After(p, calls), Get(made))
    ensures var q := After(p, calls);
            && (Result(q, made).Block? ==>
                  var b := Result(q, made).block;
                  b !in q.inUse && Next(q, Get(made)).inUse == q.inUse + {b} && b !in Next(q, Get(made)).idle)
            && (Result(q, made).Exhausted? <==> q.max > 0 && |q.inUse| + q.lost == q.max)
  {
    ConstructedConserved(p, preAlloc);
    Conservation(p, calls);
    var q := After(p, calls);
    GetIsNew(q, made);
    StepConserves(q, Get(made));
  }

  /** What is returned is what was released last. */
  lemma ReleaseThenGet<T>(p: Pool<T>, b: T, room: Option<nat>, made: Option<T>)
    requires Conserved(p) && Legal(p, Release(b, room))
    ensures var q := Next(p, Release(b, room));
            q.lost == p.lost ==> Result(q, made) == Block(b) && Next(q, Get(made)) == p.(capacity := q.capacity)
  {
    var q := Next(p, Release(b, room));
    if q.lost == p.lost {
      assert q.idle == p.idle + [b] && q.idle[..|q.idle| - 1] == p.idle;
      assert q.inUse + {b} == p.inUse;
    }
  }

  // ---------------------------------------------------------------------------------------------
  // When the vector has to grow
  // ---------------------------------------------------------------------------------------------

  /** A release that finds the vector full. */
  predicate MustGrow<T(==)>(p: Pool<T>, c: Call<T>) {
    c.Release? && |p.idle| >= p.capacity
  }

  /** With a maximum within the reserve no release ever grows the vector, so none drops its block. */
  lemma NeverGrows<T>(p: Pool<T>, preAlloc: nat, calls: seq<Call<T>>, c: Call<T>)
    requires Constructed(p, preAlloc) && Possible(p, calls) && Legal(After(p, calls), c)
    requires 0 < p.max && (p.max <= 128 || p.max <= preAlloc)
    ensures !MustGrow(After(p, calls), c)
  {
    ConstructedConserved(p, preAlloc);
    Conservation(p, calls);
    var q := After(p, calls);
    if c.Release? {
      assert c.block in q.inUse && q.inUse != {};
      assert |q.inUse| > 0;
    }
  }

  lemma {:induction false} AfterSnoc<T>(p: Pool<T>, calls: seq<Call<T>>, c: Call<T>)
    requires Possible(p, calls) && Legal(After(p, calls), c)
    ensures Possible(p, calls + [c]) && After(p, calls + [c]) == Next(After(p, calls), c)
    decreases |calls|
  {
    if |calls| == 0 {
      assert calls + [c] == [c] && [c][1..] == [];
    } else {
      assert (calls + [c])[1..] == calls[1..] + [c];
      AfterSnoc(Next(p, calls[0]), calls[1..], c);
    }
  }

  /** n blocks are taken: the free ones from the back, then new ones. */
  lemma {:induction false} TakeMany(p: Pool<int>, preAlloc: nat, n: nat) returns (calls: seq<Call<int>>)
    requires Constructed(p, preAlloc) && (p.max == 0 || n <= p.max)
    ensures Possible(p, calls)
    ensures var q := After(p, calls);
            |q.inUse| == n && q.lost == 0 && |q.idle| == (if n < preAlloc then preAlloc - n else 0)
            && q.capacity == p.capacity
  {
    ConstructedConserved(p, preAlloc);
    if n == 0 {
      calls := [];
    } else {
      var before := TakeMany(p, preAlloc, n - 1);
      Conservation(p, before);
      var q := After(p, before);
      var b := Unused(q);
      AfterSnoc(p, before, Get(Some(b)));
      StepConserves(q, Get(Some(b)));
      calls := before + [Get(Some(b))];
    }
  }

  lemma Member<T>(s: set<T>) returns (x: T)
    requires |s| > 0
    ensures x in s
  {
    assert s != {};
    x :| x in s;
  }

  /** Addresses do not run out. */
  lemma Unused(p: Pool<int>) returns (b: int)
    ensures b !in p.inUse && b !in p.idle
  {
    var idle := set x | x in p.idle;
    b := UpperBound(p.inUse + idle);
    assert b !in p.inUse + idle;
  }

  lemma {:induction false} UpperBound(s: set<int>) returns (b: int)
    ensures forall x :: x in s ==> x < b
    decreases |s|
  {
    if |s| == 0 {
      b := 0;
    } else {
      var x := Member(s);
      assert s == (s - {x}) + {x};
      var c := UpperBound(s - {x});
      b := if x < c then c else x + 1;
    }
  }

  /** All free slots are filled by releases. */
  lemma {:induction false} FillUp(p: Pool<int>, calls: seq<Call<int>>) returns (more: seq<Call<int>>)
    requires Possible(p, calls) && Conserved(p)
    requires var q := After(p, calls); |q.idle| <= q.capacity < |q.idle| + |q.inUse|
    ensures Possible(p, more)
    ensures var q := After(p, more); |q.idle| == q.capacity && |q.inUse| > 0
    decreases After(p, calls).capacity - |After(p, calls).idle|
  {
    var q := After(p, calls);
    Conservation(p, calls);
    if |q.idle| == q.capacity {
      more := calls;
    } else {
      var b := Member(q.inUse);
      var c := Release(b, None);
      AfterSnoc(p, calls, c);
      StepConserves(q, c);
      more := FillUp(p, calls + [c]);
    }
  }

  ghost predicate GrowsSomewhere(p: Pool<int>) {
    exists calls, c :: Possible(p, calls) && Legal(After(p, calls), c) && MustGrow(After(p, calls), c)
  }

  /** A vector that got just the capacity it asked for has to grow in some run unless there is a maximum and it
      does not exceed both the reserve and the blocks made in advance. */
  lemma GrowsExactly(p: Pool<int>, preAlloc: nat)
    requires Constructed(p, preAlloc) && p.capacity == Reserve(preAlloc, p.max)
    ensures GrowsSomewhere(p) <==> !(0 < p.max && (p.max <= 128 || p.max <= preAlloc))
  {
    if 0 < p.max && (p.max <= 128 || p.max <= preAlloc) {
      forall calls, c | Possible(p, calls) && Legal(After(p, calls), c) ensures !MustGrow(After(p, calls), c) {
        NeverGrows(p, preAlloc, calls, c);
      }
    } else {
      ConstructedConserved(p, preAlloc);
      var taken := TakeMany(p, preAlloc, p.capacity + 1);
      var full := FillUp(p, taken);
      var b := Member(After(p, full).inUse);
      assert Legal(After(p, full), Release(b, None)) && MustGrow(After(p, full), Release(b, None));
    }
  }

  // ---------------------------------------------------------------------------------------------
  // The counter
  // ---------------------------------------------------------------------------------------------

  /** The counter is an int. */
  const INT_MAX: nat := 0x7FFF_FFFF

  ghost predicate CounterOverflows(p: Pool<int>) {
    exists calls :: Possible(p, calls) && After(p, calls).counted > INT_MAX
  }

  /** Some run makes the counter overflow exactly when the pool has no maximum. */
  lemma OverflowsExactly(p: Pool<int>, preAlloc: nat)
    requires Constructed(p, preAlloc) && preAlloc <= INT_MAX && p.max <= INT_MAX
    ensures CounterOverflows(p) <==> p.max == 0
  {
    ConstructedConserved(p, preAlloc);
    if p.max == 0 {
      var calls := TakeMany(p, preAlloc, INT_MAX + 1);
      Conservation(p, calls);
    } else {
      forall calls | Possible(p, calls) ensures After(p, calls).counted <= INT_MAX { Conservation(p, calls); }
    }
  }

  // ---------------------------------------------------------------------------------------------
  // The object
  // ---------------------------------------------------------------------------------------------

  class MemoryPool {
    const blockSize: nat
    const maxAlloc: nat
    var counted: nat
    var blocks: seq<array<char>>
    var capacity: nat
    ghost var inUse: set<array<char>>
    ghost var lost: nat
    /** The blocks that were deleted. */
    ghost var deleted: set<array<char>>

    /** The pool and its callers as a value. */
    ghost function View(): Pool<array<char>>
      reads this
    {
      Pool(maxAlloc, counted, blocks, capacity, inUse, lost)
    }

    /** Every block is accounted for, has the size of the pool's blocks, and is not deleted while the pool holds it or
        has handed it out. */
    ghost predicate Valid()
      reads this
    {
      && Conserved(View())
      && (forall b :: b in deleted ==> b !in blocks && b !in inUse)
      && (forall b :: b in blocks ==> b.Length == blockSize)
      && (forall b :: b in inUse ==> b.Length == blockSize)
    }

    /** Lines 8-24, up to the loop.  reserve gives at least what is asked for: `slack` is what it gives beyond. */
    constructor Reserved(blockSize: nat, preAlloc: nat, maxAlloc: nat, slack: nat)
      ensures View() == Pool(maxAlloc, preAlloc, [], Reserve(preAlloc, maxAlloc) + slack, {}, 0) && deleted == {}
      ensures this.blockSize == blockSize
      ensures maxAlloc == 0 || preAlloc <= maxAlloc ==> preAlloc <= capacity
      ensures 0 < maxAlloc <= 128 ==> maxAlloc <= capacity
      ensures maxAlloc == 0 ==> 128 <= capacity
      ensures 0 < maxAlloc ==> capacity <= maxAlloc + slack
      ensures capacity <= (if preAlloc > 128 then preAlloc else 128) + slack
    {
      this.blockSize, this.maxAlloc, counted := blockSize, maxAlloc, preAlloc;
      var r := BLOCK_RESERVE;
      if preAlloc > r { r := preAlloc; }
      if maxAlloc > 0 && maxAlloc < r { r := maxAlloc; }
      blocks, capacity := [], r + slack;
      inUse, lost, deleted := {}, 0, {};
    }

    /** The whole constructor, where `memory` is the number of times that `new` succeeds.  There is a pool exactly
        when it succeeds often enough; otherwise everything that was made has been deleted. */
    static method Create(blockSize: nat, preAlloc: nat, maxAlloc: nat, slack: nat, memory: nat)
      returns (pool: MemoryPool?, ghost made: set<array<char>>, ghost gone: set<array<char>>)
      requires maxAlloc == 0 || preAlloc <= maxAlloc
      ensures pool != null <==> preAlloc <= memory
      ensures pool != null ==>
                && fresh(pool) && pool.Valid() && Constructed(pool.View(), preAlloc)
                && pool.maxAlloc == maxAlloc && pool.capacity == Reserve(preAlloc, maxAlloc) + slack
                && made == (set b | b in pool.blocks) && gone == {} && pool.blockSize == blockSize
      ensures fresh(made) && (pool == null ==> |made| == memory && gone == made)
    {
      var p := new MemoryPool.Reserved(blockSize, preAlloc, maxAlloc, slack);
      ghost var room := p.capacity;
      made, gone := {}, {};
      for i := 0 to preAlloc
        invariant p.View() == Pool(maxAlloc, preAlloc, p.blocks, room, {}, 0) && fresh(p) && p.deleted == {}
        invariant |p.blocks| == i <= memory && Distinct(p.blocks) && p.blockSize == blockSize
        invariant forall b :: b in p.blocks ==> b.Length == blockSize
        invariant fresh(made) && made == (set b | b in p.blocks) && |made| == i
      {
        if i == memory {
          p.Clear();
          gone := p.deleted;
          pool := null;
          return;
        }
        var block := new char[blockSize];
        p.blocks := p.blocks + [block];
        made := made + {block};
      }
      pool := p;
    }

    /** Lines 96-102. */
    method Clear()
      requires forall b :: b in deleted ==> b !in blocks
      requires Distinct(blocks)
      modifies this
      ensures blocks == [] && deleted == old(deleted) + (set b | b in old(blocks))
      ensures counted == old(counted) && capacity == old(capacity) && inUse == old(inUse) && lost == old(lost)
    {
      for i := 0 to |blocks|
        invariant blocks == old(blocks) && counted == old(counted) && capacity == old(capacity)
        invariant inUse == old(inUse) && lost == old(lost)
        invariant deleted == old(deleted) + (set b | b in blocks[..i])
      {
        assert blocks[i] !in deleted;
        deleted := deleted + {blocks[i]};
      }
      assert blocks[..|blocks|] == blocks;
      blocks := [];
    }

    /** Lines 61-63: the block at the back. */
    method Pop() returns (ptr: array<char>)
      requires Valid() && |blocks| > 0
      modifies this
      ensures Valid() && deleted == old(deleted) && ptr !in old(inUse) && ptr !in deleted && ptr.Length == blockSize
      ensures Result(old(View()), None) == Block(ptr) && View() == Next(old(View()), Get(None))
    {
      assert Conserved(Next(View(), Get(None))) && Result(View(), None).block !in inUse by {
        StepConserves(View(), Get(None));
        GetIsNew(View(), None);
      }
      hide Conserved;
      ptr := blocks[|blocks| - 1];
      assert ptr in blocks;
      blocks := blocks[..|blocks| - 1];
      inUse := inUse + {ptr};
    }

    /** `memory` tells whether `new` succeeds. */
    method GetMemory(memory: bool) returns (r: Outcome<array<char>>)
      requires Valid()
      modifies this
      ensures Valid() && deleted == old(deleted)
      ensures var c := Get(if memory && old(|blocks|) == 0 && r.Block? then Some(r.block) else None);
              && Legal(old(View()), c)
              && r == Result(old(View()), c.made) && View() == Next(old(View()), c)
      ensures r.Block? ==> r.block !in old(inUse) && r.block !in deleted && r.block.Length == blockSize
      ensures memory ==> r != BadAlloc
      ensures counted == old(counted) + if old(|blocks|) == 0 && r != Exhausted then 1 else 0
    {
      ghost var was := View();
      if |blocks| > 0 {
        hide Valid;
        var ptr := Pop();
        return Block(ptr);
      }
      StepConserves(was, Get(None));
      hide Conserved;
      if maxAlloc != 0 && counted >= maxAlloc { return Exhausted; }
      counted := counted + 1;
      if !memory {
        lost := lost + 1;
        return BadAlloc;
      }
      var block := new char[blockSize];
      inUse := inUse + {block};
      StepConserves(was, Get(Some(block)));
      r := Block(block);
    }

    /** push_back, which may have to grow the vector; when growing throws the block is deleted. */
    method Release(block: array<char>, room: Option<nat>)
      requires Valid() && Legal(View(), Call.Release(block, room))
      modifies this
      ensures Valid()
      ensures View() == Next(old(View()), Call.Release(block, room))
      ensures deleted == if lost > old(lost) then old(deleted) + {block} else old(deleted)
      ensures counted == old(counted)
    {
      assert Conserved(Next(View(), Call.Release(block, room))) && block !in blocks by {
        StepConserves(View(), Call.Release(block, room));
      }
      hide Conserved;
      inUse := inUse - {block};
      if |blocks| < capacity {
        blocks := blocks + [block];
      } else if room.Some? {
        blocks, capacity := blocks + [block], room.value;
      } else {
        lost := lost + 1;
        deleted := deleted + {block};
      }
    }
  }
}
