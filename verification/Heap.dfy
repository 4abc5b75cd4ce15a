/** The heap of kernel/mem.c as values: a bump allocator, and size classes with their free chunks. */
module Heap {
  import opened Machine

  const STEPS := 9
  const NUM := 128
  const SMALLOC_SIZE := 0x10_0000

  /** sizeof(struct mem_desc) and the bytes of a FIFO of NUM pointers. */
  const DESC := 20
  const FIFO := 16 + 4 * NUM

  // ---------------------------------------------------------------- smalloc

  /** _heap_start, _heap_size and heap_cur. */
  datatype Bump = Bump(start: nat, size: nat, cur: nat)

  /** The bytes left, as the 32-bit subtraction has it. */
  function Left(b: Bump): nat {
    Wrap(b.size - Wrap(b.cur - b.start))
  }

  /** The next multiple of four. */
  function Up(n: nat): (r: nat)
    ensures n <= r < n + 4 && r % 4 == 0 && (n % 4 == 0 <==> r == n)
  {
    if n % 4 == 0 then n else n + 4 - n % 4
  }

  /** smalloc */
  function Smalloc(b: Bump, n: nat): (Bump, Option<nat>) {
    if Left(b) >= n then (b.(cur := Wrap(Up(Wrap(b.cur + n)))), Some(b.cur)) else (b, None)
  }

  // ---------------------------------------------------------------- malloc and free

  /** struct mem_desc with the contents of its FIFO. */
  datatype Class = Class(size: nat, start: nat, end: nat, chunks: seq<nat>, least: int)

  function Taken(c: Class): Class
    requires c.chunks != []
  {
    var rest := c.chunks[1..];
    c.(chunks := rest, least := if NUM - |rest| < c.least then NUM - |rest| else c.least)
  }

  predicate Serves(c: Class, n: nat) { c.size >= n && c.chunks != [] }

  /** malloc, from class i on. */
  function Malloc(cs: seq<Class>, n: nat, i: nat): (r: (seq<Class>, Option<nat>))
    requires i <= |cs|
    ensures |r.0| == |cs|
    decreases |cs| - i
  {
    if i == |cs| then (cs, None)
    else if Serves(cs[i], n) then (cs[i := Taken(cs[i])], Some(cs[i].chunks[0]))
    else Malloc(cs, n, i + 1)
  }

  /** The test of free: both ends count. */
  predicate Within(c: Class, p: nat) { c.start <= p <= c.end }

  function Returned(c: Class, p: nat): Class {
    if Within(c, p) && |c.chunks| < NUM then c.(chunks := c.chunks + [p]) else c
  }

  /** free: every class whose test p passes gets p, if its FIFO has room. */
  function Free(cs: seq<Class>, p: nat): (r: seq<Class>)
    ensures |r| == |cs|
  {
    seq(|cs|, i requires 0 <= i < |cs| => Returned(cs[i], p))
  }

  // ---------------------------------------------------------------- mem_init

  /** ALLOC_MIN << i */
  function ChunkSize(i: nat): (s: nat)
    ensures s > 0 && s % 4 == 0
  {
    if i == 0 then 32 else 2 * ChunkSize(i - 1)
  }

  /** Where class i starts when class 0 starts at base. */
  function ClassStart(base: nat, i: nat): (s: nat)
    ensures s >= base
  {
    if i == 0 then base else ClassStart(base, i - 1) + NUM * ChunkSize(i - 1)
  }

  function Chunk(base: nat, i: nat, j: nat): nat {
    ClassStart(base, i) + j * ChunkSize(i)
  }

  /** The first n chunks of class i. */
  function Chunks(base: nat, i: nat, n: nat): (s: seq<nat>)
    ensures |s| == n
  {
    seq(n, j requires 0 <= j < n => Chunk(base, i, j))
  }

  /** Class i as mem_init leaves it. */
  function FullClass(base: nat, i: nat): Class {
    Class(ChunkSize(i), ClassStart(base, i), ClassStart(base, i + 1), Chunks(base, i, NUM), NUM)
  }

  /** Where class 0 starts in a heap that starts at start: behind nine descriptors and FIFOs. */
  function Base(start: nat): nat { Up(start) + STEPS * (DESC + FIFO) }

  /** The heap size that mem_init sums up, for n classes. */
  function HeapSize(n: nat): nat {
    if n == 0 then SMALLOC_SIZE + (FIFO + DESC) * STEPS else HeapSize(n - 1) + ChunkSize(n - 1) * NUM
  }
}
