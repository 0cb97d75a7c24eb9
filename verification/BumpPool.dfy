/** The bump allocator: blocks are handed out of one mapped region, one behind the other, and never taken back singly. */
module BumpPool {
  import opened Words
  import opened Options
  import opened Bits

  const POOL_SIZE: nat := 64 * 1024 * 1024
  const WORD: nat := 64

  // ---- Alignment

  predicate IsPow2(a: nat) { a == 1 || (a > 1 && a % 2 == 0 && IsPow2(a / 2)) }

  /** The exponent of a power of two. */
  function Log2(a: nat): nat
    requires IsPow2(a)
  {
    if a == 1 then 0 else 1 + Log2(a / 2)
  }

  lemma {:induction false} Log2IsInverse(a: nat)
    requires IsPow2(a)
    ensures Pow2(Log2(a)) == a
  {
    if a > 1 {
      Log2IsInverse(a / 2);
    }
  }

  /** Rounding up to a multiple of `a`. */
  function RoundUp(x: nat, a: nat): nat
    requires a > 0
  {
    Below(x + a - 1, a);
    x + a - 1 - (x + a - 1) % a
  }

  lemma Below(y: nat, a: nat)
    requires a > 0
    ensures 0 <= y % a <= y
  {
    assert y == (y / a) * a + y % a;
    assert (y / a) * a >= 0;
  }

  ghost function Multiple(m: nat, a: nat): nat { m * a }

  lemma MultipleMonotone(m: nat, q: nat, a: nat)
    ensures m <= q ==> Multiple(m, a) <= Multiple(q, a)
    ensures m < q ==> Multiple(m, a) + a <= Multiple(q, a)
  {
    if m < q {
      AtLeastOnce(q - m, a);
      assert (q - m) * a == q * a - m * a;
    }
  }

  lemma RoundUpIsMultiple(x: nat, a: nat)
    requires a > 0
    ensures var q := (x + a - 1) / a; q >= 0 && RoundUp(x, a) == Multiple(q, a)
  {
    QuotientIsNat(x + a - 1, a);
  }

  lemma QuotientIsNat(y: nat, a: nat)
    requires a > 0
    ensures y / a >= 0
  {
  }

  lemma MultipleHasNoRest(q: nat, a: nat)
    requires a > 0
    ensures Multiple(q, a) % a == 0
  {
    DivModUnique(q * a, q, 0, a);
  }

  /** It gives the least multiple of `a` that is not below `x`. */
  lemma RoundUpIsLeast(x: nat, a: nat, m: nat)
    requires a > 0
    ensures RoundUp(x, a) % a == 0 && x <= RoundUp(x, a)
    ensures x <= Multiple(m, a) ==> RoundUp(x, a) <= Multiple(m, a)
  {
    var q := (x + a - 1) / a;
    RoundUpIsMultiple(x, a);
    MultipleHasNoRest(q, a);
    MultipleMonotone(m, q, a);
    MultipleMonotone(q, m, a);
  }

  /** The mask form of the source is rounding up, for every power of two, in words of any width `w`. */
  method AlignedOffset(x: nat, a: nat, w: nat) returns (offset: nat)
    requires IsPow2(a) && a < Pow2(w) && x + a - 1 < Pow2(w)
    ensures offset == RoundUp(x, a)
  {
    Log2IsInverse(a);
    Log2Within(a, w);
    MaskRoundsDown(x + a - 1, Log2(a), w);
    offset := And(x + a - 1, Not(a - 1, w), w);
  }

  lemma {:induction false} Log2Within(a: nat, w: nat)
    requires IsPow2(a) && a < Pow2(w)
    ensures Log2(a) <= w
    decreases a
  {
    if a > 1 {
      Log2Within(a / 2, w - 1);
    }
  }

  // ---- The pool

  /** `buffer` is the address of the mapped region. */
  datatype Pool = Pool(buffer: nat, size: nat, used: nat, initialized: bool)

  const UNMAPPED := Pool(0, 0, 0, false)

  /** Memory mapped from or given back to the system. */
  datatype Region = Region(address: nat, size: nat)

  /** A block handed out, by its offset in the region. */
  datatype Block = Block(offset: nat, size: nat)

  /** The block an allocation gives and the pool after it; on failure the pool is as it was. */
  function Allocated(p: Pool, size: nat, alignment: nat): (Pool, Option<Block>) {
    if size == 0 || !IsPow2(alignment) || !p.initialized || p.buffer == 0 then (p, None)
    else
      var offset := RoundUp(p.used, alignment);
      if SatAdd(offset, size) > p.size then (p, None)
      else (p.(used := offset + size), Some(Block(offset, size)))
  }

  /** What every pool in use meets. */
  ghost predicate Sound(p: Pool) {
    && p.used <= p.size <= POOL_SIZE
    && (!p.initialized ==> p.size == 0)
  }

  class MemoryPool {
    var buffer: nat
    var size: nat
    var used: nat
    var initialized: bool

    constructor ()
      ensures State() == UNMAPPED && Sound(State())
    {
      buffer, size, used, initialized := 0, 0, 0, false;
    }

    function State(): Pool
      reads this
    {
      Pool(buffer, size, used, initialized)
    }

    /** `mapped` is the address the system gives, if it gives one. */
    method Init(mapped: Option<nat>) returns (ok: bool)
      requires Sound(State())
      modifies this
      ensures Sound(State())
      ensures ok <==> old(initialized) || mapped.Some?
      ensures State() == if old(initialized) || mapped == None then old(State()) else Pool(mapped.value, POOL_SIZE, 0, true)
    {
      if initialized {
        return true;
      }
      if mapped == None {
        return false;
      }
      buffer, size, used, initialized := mapped.value, POOL_SIZE, 0, true;
      return true;
    }

    /** Null, or the address of a block. All arguments are machine words. */
    method Allocate(request: nat, alignment: nat) returns (p: Option<nat>)
      requires Sound(State()) && request <= USIZE_MAX && alignment <= USIZE_MAX
      modifies `used
      ensures Sound(State())
      ensures var (after, block) := Allocated(old(State()), request, alignment);
        State() == after && p == if block == None then None else Some(buffer + block.value.offset)
    {
      if request == 0 || alignment == 0 || !IsPow2(alignment) {
        return None;
      }
      if !initialized || buffer == 0 {
        return None;
      }
      NoOverflow(used, alignment);
      var alignedOffset := AlignedOffset(used, alignment, WORD);
      var newUsed := SatAdd(alignedOffset, request);
      if newUsed > size {
        return None;
      }
      used := newUsed;
      return Some(buffer + alignedOffset);
    }

    method Reset()
      requires Sound(State())
      modifies `used
      ensures Sound(State()) && State() == old(State()).(used := 0)
    {
      used := 0;
    }

    /** The region given back to the system, if any. */
    method Cleanup() returns (unmapped: Option<Region>)
      requires Sound(State())
      modifies this
      ensures Sound(State())
      ensures unmapped == if old(initialized) && old(buffer) != 0 then Some(Region(old(buffer), old(size))) else None
      ensures State() == if unmapped.Some? then UNMAPPED else old(State())
    {
      unmapped := None;
      if initialized && buffer != 0 {
        unmapped := Some(Region(buffer, size));
        initialized, buffer, size, used := false, 0, 0, 0;
      }
    }
  }

  /** A power of two that fits a word is at most half of what a word holds, so adding an offset to it does not wrap. */
  lemma NoOverflow(x: nat, a: nat)
    requires IsPow2(a) && a <= USIZE_MAX && x <= POOL_SIZE
    ensures a < Pow2(WORD) && x + a - 1 < Pow2(WORD)
  {
    WordValue();
    HalfAtMost(a, WORD);
  }

  lemma {:induction false} HalfAtMost(a: nat, w: nat)
    requires IsPow2(a) && a < Pow2(w)
    ensures 2 * a <= Pow2(w)
    decreases a
  {
    if a > 1 {
      HalfAtMost(a / 2, w - 1);
    }
  }

  lemma WordValue()
    ensures Pow2(WORD) == USIZE_MAX + 1
  {
    Pow2Values();
    assert Pow2(40) == 0x100_0000_0000 && Pow2(48) == 0x1_0000_0000_0000 && Pow2(56) == 0x100_0000_0000_0000;
  }

  // ---- Whole runs

  datatype Op = Init(mapped: Option<nat>) | Alloc(size: nat, alignment: nat) | Reset | Cleanup

  /** The pool, the blocks handed out of it since it was last mapped or reset, and all regions mapped and unmapped. */
  datatype Run = Run(pool: Pool, live: seq<Block>, mapped: seq<Region>, unmapped: seq<Region>)

  function Step(r: Run, op: Op): Run {
    match op
    case Init(mapped) =>
      if r.pool.initialized || mapped == None then r
      else r.(pool := Pool(mapped.value, POOL_SIZE, 0, true), live := [], mapped := r.mapped + [Region(mapped.value, POOL_SIZE)])
    case Alloc(size, alignment) =>
      var (after, block) := Allocated(r.pool, size, alignment);
      r.(pool := after, live := if block == None then r.live else r.live + [block.value])
    case Reset => r.(pool := r.pool.(used := 0), live := [])
    case Cleanup =>
      if r.pool.initialized && r.pool.buffer != 0 then
        r.(pool := UNMAPPED, live := [], unmapped := r.unmapped + [Region(r.pool.buffer, r.pool.size)])
      else r
  }

  function Steps(ops: seq<Op>): Run
    decreases |ops|
  {
    if ops == [] then Run(UNMAPPED, [], [], []) else Step(Steps(ops[..|ops| - 1]), ops[|ops| - 1])
  }

  /** The blocks are not empty, lie in the used part of the pool, and each ends before the next begins. */
  ghost predicate Laid(live: seq<Block>, used: nat) {
    && (forall i :: 0 <= i < |live| ==> live[i].size > 0 && live[i].offset + live[i].size <= used)
    && (forall i, j :: 0 <= i < j < |live| ==> live[i].offset + live[i].size <= live[j].offset)
  }

  lemma StepKeepsLaid(r: Run, op: Op)
    requires Sound(r.pool) && Laid(r.live, r.pool.used)
    ensures Sound(Step(r, op).pool) && Laid(Step(r, op).live, Step(r, op).pool.used)
  {
    if op.Alloc? && IsPow2(op.alignment) {
      RoundUpIsLeast(r.pool.used, op.alignment, 0);
    }
  }

  lemma {:induction false} RunsKeepLaid(ops: seq<Op>)
    ensures var r := Steps(ops); Sound(r.pool) && Laid(r.live, r.pool.used)
    decreases |ops|
  {
    if ops != [] {
      RunsKeepLaid(ops[..|ops| - 1]);
      StepKeepsLaid(Steps(ops[..|ops| - 1]), ops[|ops| - 1]);
    }
  }

  /** What has been unmapped is what was mapped, but for the last region while the pool is in use. */
  ghost predicate Returned(r: Run) {
    if r.pool.initialized then r.mapped == r.unmapped + [Region(r.pool.buffer, r.pool.size)] else r.mapped == r.unmapped
  }

  /** In every run each region is unmapped at most once, whole, and before the next is mapped. */
  lemma {:induction false} RegionsAreReturnedOnce(ops: seq<Op>)
    ensures Returned(Steps(ops))
    decreases |ops|
  {
    if ops != [] {
      RegionsAreReturnedOnce(ops[..|ops| - 1]);
    }
  }

  predicate Apart(a: Block, b: Block) { a.offset + a.size <= b.offset || b.offset + b.size <= a.offset }

  /** In every run the blocks handed out since the last reset are inside the pool and no two of them overlap. */
  lemma BlocksAreDisjoint(ops: seq<Op>, i: nat, j: nat)
    requires i < |Steps(ops).live| && j < |Steps(ops).live| && i != j
    ensures var r := Steps(ops); Apart(r.live[i], r.live[j]) && r.live[i].offset + r.live[i].size <= r.pool.size <= POOL_SIZE
  {
    RunsKeepLaid(ops);
    var live := Steps(ops).live;
    if i < j {
      assert live[i].offset + live[i].size <= live[j].offset;
    } else {
      assert live[j].offset + live[j].size <= live[i].offset;
    }
  }

  /**
   * An allocation succeeds exactly when the request is well-formed, the pool is mapped, and the least aligned offset
   * not below `used` leaves room; then the block lies there.
   */
  lemma AllocationIsExact(p: Pool, size: nat, alignment: nat)
    requires Sound(p)
    ensures var (after, block) := Allocated(p, size, alignment);
      && (block == None ==> after == p)
      && (block.Some? <==> size > 0 && IsPow2(alignment) && p.initialized && p.buffer != 0
                           && exists m: nat :: p.used <= Multiple(m, alignment) && Multiple(m, alignment) + size <= p.size)
      && (block.Some? ==> block.value.offset % alignment == 0 && block.value.size == size && after.used == block.value.offset + size
                          && forall m: nat :: p.used <= Multiple(m, alignment) ==> block.value.offset <= Multiple(m, alignment))
  {
    if IsPow2(alignment) {
      var offset := RoundUp(p.used, alignment);
      forall m: nat ensures p.used <= Multiple(m, alignment) ==> offset <= Multiple(m, alignment) {
        RoundUpIsLeast(p.used, alignment, m);
      }
      RoundUpIsLeast(p.used, alignment, 0);
      RoundUpIsMultiple(p.used, alignment);
    }
  }
}
