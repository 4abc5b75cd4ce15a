/** kernel/mem.c in its own form: a bump pointer, descriptors and FIFOs updated in place. */
module Memory {
  import opened Machine
  import opened Bfifo
  import opened Heap
  import opened HeapTheorems

  /** struct mem_desc */
  class MemDesc {
    var leastFree: int
    const size: nat
    var start: nat
    var end: nat
    const allocations: Fifo<nat>

    ghost predicate Valid()
      reads allocations
    {
      allocations.Valid() && allocations.size == NUM
    }

    ghost function View(): Class
      requires Valid()
      reads this, allocations, allocations.elems
    {
      Class(size, start, end, allocations.Contents(), leastFree)
    }

    constructor (size: nat)
      ensures Valid() && this.size == size && leastFree == NUM && allocations.Contents() == []
      ensures fresh(allocations) && fresh(allocations.elems)
    {
      leastFree := NUM;
      this.size := size;
      allocations := new Fifo(NUM);
    }

    /** The part of malloc's loop for a class that is large enough. */
    method Take() returns (p: Option<nat>)
      requires Valid()
      modifies this, allocations
      ensures Valid() && start == old(start) && end == old(end)
      ensures if old(View()).chunks == [] then p == None && View() == old(View())
              else p == Some(old(View()).chunks[0]) && View() == Taken(old(View()))
    {
      p := allocations.Dequeue();
      if p != None {
        if allocations.free < leastFree {
          leastFree := allocations.free;
        }
      }
    }

    /** The body of free's loop. */
    method Give(p: nat)
      requires Valid()
      modifies allocations, allocations.elems
      ensures Valid() && View() == Returned(old(View()), p)
    {
      if p >= start && p <= end {
        var _ := allocations.Queue(p);
      }
    }
  }

  /** The globals of the allocator. */
  class Memory {
    var heapStart: nat
    var heapSize: nat
    var heapCur: nat
    var enabled: bool
    var desc: seq<MemDesc>

    ghost function Pointers(): Bump
      reads `heapStart, `heapSize, `heapCur
    {
      Bump(heapStart, heapSize, heapCur)
    }

    /** The descriptors and their FIFOs lie apart. */
    ghost predicate Valid()
      reads `desc, desc, set d | d in desc :: d.allocations
    {
      && (forall i :: 0 <= i < |desc| ==> desc[i].Valid())
      && (forall i, j :: 0 <= i < |desc| && 0 <= j < |desc| && i != j ==> Apart(desc[i], desc[j]))
    }

    ghost function Classes(): (cs: seq<Class>)
      requires Valid()
      reads `desc, desc, (set d | d in desc :: d.allocations), set d | d in desc :: d.allocations.elems
      ensures |cs| == |desc|
    {
      Views(desc)
    }

    /** When one class has changed. */
    twostate lemma OneClass(i: nat)
      requires old(Valid()) && unchanged(`desc) && i < |desc| && desc[i].Valid()
      requires forall k :: 0 <= k < |desc| && k != i ==>
        unchanged(desc[k]) && unchanged(desc[k].allocations) && unchanged(desc[k].allocations.elems)
      ensures Valid() && Classes() == old(Classes())[i := desc[i].View()]
    {
    }

    constructor ()
      ensures Valid() && !enabled && desc == []
    {
      heapStart, heapSize, heapCur, enabled, desc := 0, 0, 0, false, [];
    }

    /** smalloc */
    method Smalloc(size: nat) returns (p: Option<nat>)
      modifies `heapCur
      ensures (Pointers(), p) == Heap.Smalloc(old(Pointers()), size)
    {
      p := None;
      if Wrap(heapSize - Wrap(heapCur - heapStart)) >= size {
        p := Some(heapCur);
        heapCur := Wrap(heapCur + size);
        if heapCur % 4 != 0 {
          heapCur := Wrap(heapCur + 4 - heapCur % 4);
        }
      }
    }

    /** malloc */
    method Malloc(size: nat) returns (p: Option<nat>)
      requires Valid()
      modifies `heapCur, desc, (set d | d in desc :: d.allocations)
      ensures Valid()
      ensures if enabled then (Classes(), p) == Heap.Malloc(old(Classes()), size, 0) && heapCur == old(heapCur)
              else (Pointers(), p) == Heap.Smalloc(old(Pointers()), size) && Classes() == old(Classes())
    {
      if !enabled {
        p := Smalloc(size);
      } else {
        p := Search(size);
      }
    }

    /** The loop of malloc. */
    method Search(size: nat) returns (p: Option<nat>)
      requires Valid()
      modifies desc, (set d | d in desc :: d.allocations)
      ensures Valid() && (Classes(), p) == Heap.Malloc(old(Classes()), size, 0)
    {
      p := None;
      ghost var cs := Classes();
      var i := 0;
      while i < |desc|
        invariant Valid() && p == None && Classes() == cs && i <= |desc|
        invariant Heap.Malloc(cs, size, i) == Heap.Malloc(cs, size, 0)
      {
        if desc[i].size >= size {
          p := TakeFrom(i);
          if p != None {
            break;
          }
        }
        i := i + 1;
      }
    }

    method TakeFrom(i: nat) returns (p: Option<nat>)
      requires Valid() && i < |desc|
      modifies desc[i], desc[i].allocations
      ensures Valid()
      ensures var c := old(Classes())[i];
              if c.chunks == [] then p == None && Classes() == old(Classes())
              else p == Some(c.chunks[0]) && Classes() == old(Classes())[i := Taken(c)]
    {
      p := desc[i].Take();
      OneClass(i);
    }

    /** free */
    method Free(p: nat)
      requires Valid()
      modifies (set d | d in desc :: d.allocations), set d | d in desc :: d.allocations.elems
      ensures Valid() && Classes() == if enabled then Heap.Free(old(Classes()), p) else old(Classes())
    {
      if !enabled {
        return;
      }
      ghost var cs := Classes();
      for i := 0 to |desc|
        invariant Valid()
        invariant forall k :: 0 <= k < |desc| ==> Classes()[k] == if k < i then Returned(cs[k], p) else cs[k]
      {
        label Before:
        desc[i].Give(p);
        OneClass@Before(i);
      }
    }

    // -------------------------------------------------------------- mem_init

    /** A request with room for it, from a place whose next word boundary is at up. */
    method Grant(size: nat, ghost up: nat) returns (p: Option<nat>)
      requires Fits(heapStart, heapSize) && heapStart <= heapCur && up == Up(heapCur)
      requires size % 4 == 0 && up + size <= heapStart + heapSize
      modifies `heapCur
      ensures p == Some(old(heapCur)) && heapCur == up + size && heapCur % 4 == 0
    {
      p := Smalloc(size);
      Granted(old(Pointers()), size);
      UpPlus(old(heapCur), size);
    }

    /** The first loop of mem_init. */
    method SumUp()
      modifies `heapSize
      ensures heapSize == HeapSize(STEPS)
    {
      heapSize := SMALLOC_SIZE;
      heapSize := heapSize + (FIFO + DESC) * STEPS;
      for i := 0 to STEPS
        invariant heapSize == HeapSize(i)
      {
        heapSize := heapSize + ChunkSize(i) * NUM;
      }
    }

    /** One more descriptor with its empty FIFO, once both have been granted. */
    method AddDescriptor(i: nat)
      requires Valid() && |desc| == i
      modifies `desc
      ensures Valid() && |desc| == i + 1 && (forall k :: 0 <= k < i ==> desc[k] == old(desc[k])) && Empty(desc[i], i)
      ensures fresh(desc[i]) && fresh(desc[i].allocations) && fresh(desc[i].allocations.elems)
    {
      var d := new MemDesc(ChunkSize(i));
      desc := desc + [d];
      assert forall k :: 0 <= k < i ==> Apart(desc[k], d) && Apart(d, desc[k]);
    }

    /** The two requests for one descriptor. */
    method GrantDescriptor(ghost up: nat) returns (ok: bool)
      requires Fits(heapStart, heapSize) && heapStart <= heapCur && up == Up(heapCur)
      requires up + DESC + FIFO <= heapStart + heapSize
      modifies `heapCur
      ensures ok && heapCur == up + DESC + FIFO == Up(heapCur)
    {
      var d := Grant(DESC, up);
      if d == None {
        return false;
      }
      var f := Grant(FIFO, heapCur);
      return f != None;
    }

    /** One round of the second loop of mem_init. */
    method MakeDescriptor(i: nat, ghost at: nat) returns (ok: bool)
      requires Fits(heapStart, heapSize) && heapStart <= heapCur && at == Up(heapCur)
      requires at + DESC + FIFO <= heapStart + heapSize && Valid() && |desc| == i
      requires forall k :: 0 <= k < i ==> Empty(desc[k], k)
      modifies `heapCur, `desc
      ensures ok && Valid() && |desc| == i + 1 && heapCur == at + DESC + FIFO == Up(heapCur)
      ensures forall k :: 0 <= k < i ==> desc[k] == old(desc[k])
      ensures fresh(desc[i]) && fresh(desc[i].allocations) && fresh(desc[i].allocations.elems)
      ensures forall k :: 0 <= k < i + 1 ==> Empty(desc[k], k)
    {
      ok := GrantDescriptor(at);
      if !ok {
        return;
      }
      AddDescriptor(i);
    }

    /** The second loop of mem_init. */
    method MakeDescriptors(ghost up: nat) returns (ok: bool)
      requires Fits(heapStart, heapSize) && heapStart <= heapCur && up == Up(heapCur)
      requires up + STEPS * (DESC + FIFO) <= heapStart + heapSize
      requires Valid() && desc == []
      modifies `heapCur, `desc
      ensures ok && Valid() && |desc| == STEPS && heapCur == up + STEPS * (DESC + FIFO) && heapCur % 4 == 0
      ensures forall k :: 0 <= k < STEPS ==> Empty(desc[k], k) && Unshared(desc[k])
    {
      ghost var at := up;
      for i := 0 to STEPS
        invariant heapStart <= heapCur <= at == Up(heapCur) && (i > 0 ==> heapCur == at)
        invariant at == up + i * (DESC + FIFO)
        invariant Valid() && |desc| == i
        invariant forall k :: 0 <= k < i ==> Empty(desc[k], k) && Unshared(desc[k])
      {
        DescriptorRoom(i);
        ok := MakeDescriptor(i, at);
        if !ok {
          return;
        }
        at := at + DESC + FIFO;
      }
      return true;
    }

    /** One chunk more for a class. */
    method FillOne(d: MemDesc, i: nat, j: nat, ghost base: nat) returns (p: Option<nat>)
      requires Fits(heapStart, heapSize) && heapStart <= heapCur && heapCur % 4 == 0 && heapCur == Chunk(base, i, j)
      requires i < STEPS && j < NUM && ClassStart(base, i + 1) <= heapStart + heapSize
      requires d.Valid() && d.size == ChunkSize(i) && d.allocations.Contents() == Chunks(base, i, j)
      modifies `heapCur, d`start, d.allocations, d.allocations.elems
      ensures p == Some(Chunk(base, i, j)) && heapCur == Chunk(base, i, j + 1) && heapCur % 4 == 0
      ensures d.Valid() && d.allocations.Contents() == Chunks(base, i, j + 1)
      ensures d.start == if j == 0 then ClassStart(base, i) else old(d.start)
    {
      ChunkRange(base, i, j);
      p := Grant(d.size, heapCur);
      if p == None {
        return;
      }
      var _ := d.allocations.Queue(p.value);
      NextChunk(base, i, j);
      if j == 0 {
        d.start := p.value;
      }
    }

    /** One round of the last loop of mem_init: all chunks of class i. */
    method FillClass(i: nat, ghost base: nat) returns (ok: bool)
      requires Valid() && i < |desc| == STEPS && Empty(desc[i], i)
      requires Fits(heapStart, heapSize) && heapStart <= heapCur && heapCur % 4 == 0 && heapCur == ClassStart(base, i)
      requires ClassStart(base, i + 1) <= heapStart + heapSize
      modifies `heapCur, desc[i], desc[i].allocations, desc[i].allocations.elems
      ensures ok && Valid() && heapCur == ClassStart(base, i + 1) && heapCur % 4 == 0
      ensures Classes() == old(Classes())[i := FullClass(base, i)]
    {
      var d := desc[i];
      var p: Option<nat> := None;
      for j := 0 to NUM
        invariant heapStart <= heapCur && heapCur % 4 == 0 && heapCur == Chunk(base, i, j)
        invariant d.Valid() && d.allocations.Contents() == Chunks(base, i, j) && d.leastFree == NUM
        invariant j > 0 ==> d.start == ClassStart(base, i) && p == Some(Chunk(base, i, j - 1))
      {
        p := FillOne(d, i, j, base);
        if p == None {
          return false;
        }
      }
      NextChunk(base, i, NUM - 1);
      d.end := p.value + d.size;
      assert d.View() == FullClass(base, i);
      OneClass(i);
      return true;
    }

    /** mem_init; end is the end of the kernel image. */
    method MemInit(end: nat)
      requires HeapFits(end) && Valid() && desc == [] && !enabled
      modifies this
      ensures enabled && Valid() && FilledTo(Base(end), STEPS)
      ensures Pointers() == Afterwards(end)
    {
      SumUp();
      heapStart := end;
      heapCur := heapStart;
      RoomForAll(end);
      enabled := Build(Up(end));
    }

    /** mem_init from the descriptors on: whether it reaches its end. */
    method Build(ghost up: nat) returns (ok: bool)
      requires Valid() && desc == [] && Fits(heapStart, heapSize) && heapStart <= heapCur && up == Up(heapCur)
      requires ClassStart(up + STEPS * (DESC + FIFO), STEPS) <= heapStart + heapSize
      modifies `heapCur, `desc
      ensures ok && Valid() && FilledTo(up + STEPS * (DESC + FIFO), STEPS)
      ensures heapCur == ClassStart(up + STEPS * (DESC + FIFO), STEPS)
    {
      ok := MakeDescriptors(up);
      if !ok {
        return;
      }
      ok := FillAll(heapCur);
    }

    /** Classes below i are full, the rest still to be filled. */
    ghost predicate FilledTo(base: nat, i: nat)
      requires Valid()
      reads `desc, desc, (set d | d in desc :: d.allocations), set d | d in desc :: d.allocations.elems
    {
      && |desc| == STEPS
      && (forall k :: 0 <= k < i && k < STEPS ==> Classes()[k] == FullClass(base, k))
      && (forall k :: i <= k < STEPS ==> Empty(desc[k], k))
    }

    /** So the allocator starts where the runs of HeapTheorems start. */
    lemma StartsRuns(base: nat)
      requires Valid() && FilledTo(base, STEPS)
      ensures Classes() == Start(base).classes
    {
      assert forall k :: 0 <= k < STEPS ==> Classes()[k] == Start(base).classes[k];
    }

    method FillNext(i: nat, ghost base: nat) returns (ok: bool)
      requires Valid() && i < STEPS && FilledTo(base, i)
      requires Fits(heapStart, heapSize) && heapStart <= heapCur && heapCur % 4 == 0 && heapCur == ClassStart(base, i)
      requires ClassStart(base, i + 1) <= heapStart + heapSize
      modifies `heapCur, desc, (set d | d in desc :: d.allocations), set d | d in desc :: d.allocations.elems
      ensures ok && Valid() && heapCur == ClassStart(base, i + 1) && heapCur % 4 == 0 && FilledTo(base, i + 1)
    {
      assert desc[i] in desc;
      ok := FillClass(i, base);
    }

    /** The last loop of mem_init. */
    method FillAll(ghost base: nat) returns (ok: bool)
      requires Valid() && FilledTo(base, 0)
      requires Fits(heapStart, heapSize) && heapStart <= heapCur && heapCur % 4 == 0 && heapCur == base
      requires ClassStart(base, STEPS) <= heapStart + heapSize
      modifies `heapCur, desc, (set d | d in desc :: d.allocations), set d | d in desc :: d.allocations.elems
      ensures ok && Valid() && FilledTo(base, STEPS) && heapCur == ClassStart(base, STEPS)
    {
      for i := 0 to STEPS
        invariant heapCur == ClassStart(base, i) && heapCur % 4 == 0
        invariant Valid() && FilledTo(base, i)
      {
        ClassesApart(base, i, STEPS);
        ok := FillNext(i, base);
        if !ok {
          return;
        }
      }
      ok := true;
    }

    /** Allocated since. */
    twostate predicate Unshared(new d: MemDesc) {
      fresh(d) && fresh(d.allocations) && fresh(d.allocations.elems)
    }
  }

  ghost predicate Apart(d: MemDesc, e: MemDesc) {
    d != e && d.allocations != e.allocations && d.allocations.elems != e.allocations.elems
  }

  ghost function Views(ds: seq<MemDesc>): (cs: seq<Class>)
    requires forall i :: 0 <= i < |ds| ==> ds[i].Valid()
    reads ds, (set d | d in ds :: d.allocations), set d | d in ds :: d.allocations.elems
    ensures |cs| == |ds| && forall i :: 0 <= i < |ds| ==> cs[i] == ds[i].View()
  {
    if ds == [] then [] else Views(ds[..|ds| - 1]) + [ds[|ds| - 1].View()]
  }

  /** A descriptor before its FIFO is filled. */
  ghost predicate Empty(d: MemDesc, i: nat)
    reads d, d.allocations, d.allocations.elems
  {
    d.Valid() && d.size == ChunkSize(i) && d.leastFree == NUM && d.allocations.Contents() == []
  }

  /** The heap that mem_init sets up at end lies within the address space. */
  predicate HeapFits(end: nat) { end + HeapSize(STEPS) + 4 <= MODULUS }

  lemma UpPlus(m: nat, n: nat)
    requires n % 4 == 0
    ensures Up(m + n) == Up(m) + n
  {
  }

  lemma DescriptorRoom(i: nat)
    requires i < STEPS
    ensures i * (DESC + FIFO) + DESC + FIFO == (i + 1) * (DESC + FIFO) <= STEPS * (DESC + FIFO)
  {
    assert DESC + FIFO == 548;
  }

  lemma OnceMore(j: nat, s: nat)
    ensures (j + 1) * s == j * s + s
  {
  }

  lemma OneMoreChunk(base: nat, i: nat, j: nat)
    ensures Chunks(base, i, j + 1) == Chunks(base, i, j) + [Chunk(base, i, j)]
  {
    var more := Chunks(base, i, j + 1);
    assert more[j] == Chunk(base, i, j) && more[..j] == Chunks(base, i, j);
    assert more == more[..j] + [more[j]];
  }

  lemma NextChunk(base: nat, i: nat, j: nat)
    ensures Chunk(base, i, j + 1) == Chunk(base, i, j) + ChunkSize(i)
    ensures Chunks(base, i, j + 1) == Chunks(base, i, j) + [Chunk(base, i, j)]
  {
    OnceMore(j, ChunkSize(i));
    OneMoreChunk(base, i, j);
  }

  lemma Sizes()
    ensures ChunkSize(STEPS) == 16384 && HeapSize(STEPS) == 3146564
  {
    assert ChunkSize(3) == 256;
    assert ChunkSize(6) == 2048;
    Layout(0, STEPS);
  }

  lemma RoomFor(end: nat)
    requires HeapFits(end)
    ensures Fits(end, HeapSize(STEPS)) && Up(end) + STEPS * (DESC + FIFO) <= end + HeapSize(STEPS)
  {
    Sizes();
  }

  lemma RoomForAll(end: nat)
    requires HeapFits(end)
    ensures Fits(end, HeapSize(STEPS)) && Base(end) == Up(end) + STEPS * (DESC + FIFO)
    ensures ClassStart(Base(end), STEPS) <= end + HeapSize(STEPS)
  {
    RoomFor(end);
    HeapIsExact(end);
  }

  /** What mem_init leaves to smalloc: SMALLOC_SIZE bytes, less what aligning the start took. */
  lemma LeftAfterInit(end: nat)
    requires HeapFits(end)
    ensures Left(Bump(end, HeapSize(STEPS), ClassStart(Base(end), STEPS))) == SMALLOC_SIZE - (Up(end) - end)
  {
    RoomFor(end);
    HeapIsExact(end);
    LeftExact(Bump(end, HeapSize(STEPS), ClassStart(Base(end), STEPS)));
  }

  /** The heap as mem_init leaves it. */
  function Afterwards(end: nat): Bump { Bump(end, HeapSize(STEPS), ClassStart(Base(end), STEPS)) }

  lemma AfterwardsSound(end: nat)
    requires HeapFits(end)
    ensures var b := Afterwards(end);
            Fits(b.start, b.size) && InBounds(b) && b.cur % 4 == 0 && Left(b) == SMALLOC_SIZE - (Up(end) - end)
  {
    RoomForAll(end);
    AlignedEnd(Base(end));
    LeftAfterInit(end);
  }

  /** After mem_init the accounting of smalloc holds in every run exactly when the kernel image ends on a word
      boundary; if it does not, a request for exactly what is left runs past the end. */
  lemma LaterRunsExactly(end: nat)
    requires HeapFits(end)
    ensures (forall ns: seq<nat> :: InBounds(Run(Afterwards(end), ns))) <==> end % 4 == 0
    ensures end % 4 != 0 ==> !InBounds(Run(Afterwards(end), [SMALLOC_SIZE - (Up(end) - end)]))
  {
    AfterwardsSound(end);
    NeverUnderflowsExactly(Afterwards(end));
    if end % 4 != 0 {
      UnalignedOverrun(Afterwards(end));
    }
  }

  lemma AlignedEnd(base: nat)
    requires base % 4 == 0
    ensures ClassStart(base, STEPS) % 4 == 0
  {
    Layout(base, STEPS);
    Sizes();
  }
}
