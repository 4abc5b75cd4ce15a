/** What the heap guarantees. */
module HeapTheorems {
  import opened Machine
  import opened Heap

  // ---------------------------------------------------------------- heap accounting

  /** heap_cur has not run past the end, so the subtraction in smalloc does not underflow. */
  predicate InBounds(b: Bump) { b.start <= b.cur <= b.start + b.size }

  predicate Fits(start: nat, size: nat) { 0 < size && size % 4 == 0 && start + size + 4 <= MODULUS }

  /** The heap after any number of smalloc calls. */
  function Run(b: Bump, ns: seq<nat>): Bump {
    if ns == [] then b else Smalloc(Run(b, ns[..|ns| - 1]), ns[|ns| - 1]).0
  }

  lemma LeftExact(b: Bump)
    requires Fits(b.start, b.size) && InBounds(b)
    ensures Left(b) == b.start + b.size - b.cur
  {
  }

  lemma UpWithin(n: nat, top: nat)
    requires n <= top && top % 4 == 0
    ensures Up(n) <= top
  {
  }

  lemma Granted(b: Bump, n: nat)
    requires Fits(b.start, b.size) && InBounds(b) && n <= b.start + b.size - b.cur
    ensures Smalloc(b, n) == (b.(cur := Up(b.cur + n)), Some(b.cur))
  {
    LeftExact(b);
    assert Wrap(b.cur + n) == b.cur + n;
    assert Wrap(Up(b.cur + n)) == Up(b.cur + n);
  }

  lemma Refused(b: Bump, n: nat)
    requires Fits(b.start, b.size) && InBounds(b) && n > b.start + b.size - b.cur
    ensures Smalloc(b, n) == (b, None)
  {
    LeftExact(b);
  }

  lemma SmallocStep(b: Bump, n: nat)
    requires Fits(b.start, b.size) && InBounds(b) && b.start % 4 == 0 && b.cur % 4 == 0
    ensures var (b', p) := Smalloc(b, n);
            && InBounds(b') && b'.cur % 4 == 0 && b'.start == b.start && b'.size == b.size
            && (p == None <==> n > b.start + b.size - b.cur)
  {
    if n <= b.start + b.size - b.cur {
      Granted(b, n);
      UpWithin(b.cur + n, b.start + b.size);
    } else {
      Refused(b, n);
    }
  }

  lemma {:induction false} AlignedRun(b: Bump, ns: seq<nat>)
    requires Fits(b.start, b.size) && InBounds(b) && b.start % 4 == 0 && b.cur % 4 == 0
    ensures var b' := Run(b, ns); InBounds(b') && b'.cur % 4 == 0 && b'.start == b.start && b'.size == b.size
  {
    if ns != [] {
      AlignedRun(b, ns[..|ns| - 1]);
      SmallocStep(Run(b, ns[..|ns| - 1]), ns[|ns| - 1]);
    }
  }

  /** A heap that starts off a word boundary can be run past its end by one request for all that is left;
      the bytes left are then miscounted as more than the heap. */
  lemma UnalignedOverrun(b: Bump)
    requires Fits(b.start, b.size) && InBounds(b) && b.start % 4 != 0
    ensures var b' := Run(b, [Left(b)]); !InBounds(b') && Left(b') > b.size
  {
    LeftExact(b);
    Granted(b, Left(b));
    assert [Left(b)][..0] == [];
    assert Run(b, [Left(b)]) == Smalloc(b, Left(b)).0;
    NotAligned(b.start, b.size);
    OverrunBy(b.start, b.size, Up(b.start + b.size));
  }

  lemma NotAligned(start: nat, size: nat)
    requires start % 4 != 0 && size % 4 == 0
    ensures (start + size) % 4 != 0
  {
  }

  lemma OverrunBy(start: nat, size: nat, cur: nat)
    requires Fits(start, size) && start + size < cur < start + size + 4
    ensures !InBounds(Bump(start, size, cur)) && Left(Bump(start, size, cur)) > size
  {
    assert Wrap(cur - start) == cur - start;
  }

  /** From any state of the heap that smalloc can leave, its accounting holds in every run exactly when the heap
      starts on a word boundary. */
  lemma NeverUnderflowsExactly(b: Bump)
    requires Fits(b.start, b.size) && InBounds(b) && (b.cur == b.start || b.cur % 4 == 0)
    ensures (forall ns: seq<nat> :: InBounds(Run(b, ns))) <==> b.start % 4 == 0
  {
    if b.start % 4 == 0 {
      forall ns: seq<nat>
        ensures InBounds(Run(b, ns))
      {
        AlignedRun(b, ns);
      }
    } else {
      UnalignedOverrun(b);
    }
  }

  // ---------------------------------------------------------------- the layout

  lemma {:induction false} Layout(base: nat, i: nat)
    ensures ClassStart(base, i) == base + NUM * (ChunkSize(i) - 32)
    ensures HeapSize(i) == SMALLOC_SIZE + STEPS * (DESC + FIFO) + NUM * (ChunkSize(i) - 32)
  {
    if i > 0 {
      Layout(base, i - 1);
    }
  }

  /** 2 to the i. */
  function Doubled(i: nat): nat { if i == 0 then 1 else 2 * Doubled(i - 1) }

  lemma {:induction false} ChunkSizes(i: nat)
    ensures ChunkSize(i) == 32 * Doubled(i)
  {
    if i > 0 {
      ChunkSizes(i - 1);
    }
  }

  /** The numbers of the heap: nine classes of 128 chunks, of 32 bytes doubled from class to class, back to back; in
      front of them nine descriptors with their FIFOs, and behind them a megabyte. */
  lemma HeapNumbers(base: nat, i: nat)
    requires i < 9
    ensures |Start(base).classes| == 9 && Start(base).classes[i] == FullClass(base, i)
    ensures var c := FullClass(base, i);
            && c.size == 32 * Doubled(i) && |c.chunks| == 128
            && c.start == base + 4096 * (Doubled(i) - 1) && c.end == base + 4096 * (2 * Doubled(i) - 1)
            && forall j :: 0 <= j < 128 ==> c.chunks[j] == c.start + j * c.size
    ensures HeapSize(9) == 9 * 548 + 4096 * 511 + 0x10_0000
  {
    ChunkSizes(i);
    ChunkSizes(i + 1);
    Layout(base, i);
    Layout(base, i + 1);
    Layout(base, 9);
    ChunkSizes(9);
    assert Doubled(4) == 16 && Doubled(9) == 512;
  }

  /** Once the classes are laid out, SMALLOC_SIZE bytes are left but for what aligning the start cost. */
  lemma HeapIsExact(start: nat)
    ensures start + HeapSize(STEPS) - ClassStart(Base(start), STEPS) == SMALLOC_SIZE - (Up(start) - start)
  {
    Layout(Base(start), STEPS);
  }

  lemma Distributed(j: nat, d: nat, s: nat)
    ensures (j + 1 + d) * s == j * s + s + d * s
  {
  }

  lemma Times(j: nat, k: nat, s: nat)
    requires j < k
    ensures j * s + s <= k * s
  {
    var d: nat := k - j - 1;
    Distributed(j, d, s);
    assert d * s >= 0;
  }

  /** Chunks follow one another inside their class. */
  lemma ChunkRange(base: nat, i: nat, j: nat)
    requires j < NUM
    ensures ClassStart(base, i) <= Chunk(base, i, j)
    ensures Chunk(base, i, j) + ChunkSize(i) <= ClassStart(base, i + 1)
    ensures Chunk(base, i, j) == ClassStart(base, i) <==> j == 0
  {
    Times(j, NUM, ChunkSize(i));
    if j > 0 {
      Times(0, j, ChunkSize(i));
    }
  }

  lemma ChunksApart(base: nat, i: nat, j: nat, k: nat)
    requires j < k
    ensures Chunk(base, i, j) + ChunkSize(i) <= Chunk(base, i, k)
  {
    Times(j, k, ChunkSize(i));
  }

  lemma {:induction false} ClassesApart(base: nat, i: nat, k: nat)
    requires i < k
    ensures ClassStart(base, i + 1) <= ClassStart(base, k)
  {
    if i + 1 < k {
      ClassesApart(base, i, k - 1);
    }
  }

  // ---------------------------------------------------------------- conservation

  predicate IsChunk(base: nat, i: nat, p: nat) { exists j :: 0 <= j < NUM && p == Chunk(base, i, j) }

  /** Each chunk of class i is in exactly one place: live, or once in its own FIFO. */
  predicate Places(base: nat, i: nat, chunks: seq<nat>, live: set<nat>) {
    && Distinct(chunks)
    && (forall p :: p in chunks ==> IsChunk(base, i, p) && p !in live)
    && (forall p :: p in live ==> IsChunk(base, i, p))
    && (forall j :: 0 <= j < NUM ==> Chunk(base, i, j) in chunks || Chunk(base, i, j) in live)
    && |chunks| + |live| == NUM
  }

  predicate ClassOk(base: nat, i: nat, c: Class, live: set<nat>) {
    && c.size == ChunkSize(i) && c.start == ClassStart(base, i) && c.end == ClassStart(base, i + 1)
    && Places(base, i, c.chunks, live)
    && (if c.least == NUM then |c.chunks| == NUM else c.least == 1)
  }

  /** The classes, and the chunks of each that callers hold. */
  datatype State = State(classes: seq<Class>, live: seq<set<nat>>)

  predicate Conserved(base: nat, s: State) {
    && |s.classes| == STEPS && |s.live| == STEPS
    && forall i :: 0 <= i < STEPS ==> ClassOk(base, i, s.classes[i], s.live[i])
  }

  lemma FullOk(base: nat, i: nat)
    ensures ClassOk(base, i, FullClass(base, i), {})
  {
    var chunks := FullClass(base, i).chunks;
    forall j, k | 0 <= j < k < NUM
      ensures chunks[j] != chunks[k]
    {
      ChunksApart(base, i, j, k);
    }
    assert forall j :: 0 <= j < NUM ==> chunks[j] == Chunk(base, i, j);
  }

  lemma TakePlaces(base: nat, i: nat, chunks: seq<nat>, live: set<nat>)
    requires Places(base, i, chunks, live) && chunks != []
    ensures Places(base, i, chunks[1..], live + {chunks[0]})
  {
    assert chunks == [chunks[0]] + chunks[1..];
  }

  lemma ReturnPlaces(base: nat, i: nat, chunks: seq<nat>, live: set<nat>, p: nat)
    requires Places(base, i, chunks, live) && p in live
    ensures |chunks| < NUM && Places(base, i, chunks + [p], live - {p})
  {
    assert live == (live - {p}) + {p};
  }

  /** The class malloc serves a request from. */
  function Serving(cs: seq<Class>, n: nat, i: nat): (k: nat)
    requires i <= |cs|
    ensures i <= k <= |cs|
    decreases |cs| - i
  {
    if i == |cs| || Serves(cs[i], n) then i else Serving(cs, n, i + 1)
  }

  lemma {:induction false} MallocServes(cs: seq<Class>, n: nat, i: nat)
    requires i <= |cs|
    ensures var k := Serving(cs, n, i);
            && (forall j :: i <= j < k ==> !Serves(cs[j], n))
            && (k < |cs| ==> Serves(cs[k], n))
            && Malloc(cs, n, i) == if k < |cs| then (cs[k := Taken(cs[k])], Some(cs[k].chunks[0])) else (cs, None)
    decreases |cs| - i
  {
    if i < |cs| && !Serves(cs[i], n) {
      MallocServes(cs, n, i + 1);
    }
  }

  datatype Op = Allocate(n: nat) | Release(p: nat)

  function Next(s: State, op: Op): State
    requires |s.classes| == |s.live|
  {
    match op
    case Allocate(n) =>
      var (cs, r) := Malloc(s.classes, n, 0);
      var k := Serving(s.classes, n, 0);
      State(cs, if r.Some? && k < |s.live| then s.live[k := s.live[k] + {r.value}] else s.live)
    case Release(p) =>
      State(Free(s.classes, p), seq(|s.live|, i requires 0 <= i < |s.live| => s.live[i] - {p}))
  }

  /** malloc hands out a chunk that was not live, from the smallest class that is large enough and not
      empty; it fails exactly when every class that is large enough is empty; and nothing is lost. */
  lemma MallocExact(base: nat, s: State, n: nat)
    requires Conserved(base, s)
    ensures var r := Malloc(s.classes, n, 0).1;
            var s' := Next(s, Allocate(n));
            && Conserved(base, s')
            && (r == None <==> forall k :: 0 <= k < STEPS && ChunkSize(k) >= n ==> s.classes[k].chunks == [])
            && (r == None ==> s' == s)
            && (r.Some? ==>
                  exists k :: 0 <= k < STEPS && n <= ChunkSize(k) && IsChunk(base, k, r.value)
                              && r.value !in s.live[k] && s'.live == s.live[k := s.live[k] + {r.value}]
                              && forall j :: 0 <= j < k && ChunkSize(j) >= n ==> s.classes[j].chunks == [])
  {
    MallocServes(s.classes, n, 0);
    var k := Serving(s.classes, n, 0);
    if k < STEPS {
      var c := s.classes[k];
      TakePlaces(base, k, c.chunks, s.live[k]);
      assert c.chunks[0] in c.chunks;
      assert ClassOk(base, k, Taken(c), s.live[k] + {c.chunks[0]});
    }
  }

  // ---------------------------------------------------------------- freeing

  /** A chunk passes the test of its own class, and of the class below if it is the first of its class. */
  lemma WithinExactly(base: nat, i: nat, j: nat, k: nat, c: Class)
    requires j < NUM && c.start == ClassStart(base, k) && c.end == ClassStart(base, k + 1)
    ensures Within(c, Chunk(base, i, j)) <==> k == i || (k + 1 == i && j == 0)
  {
    ChunkRange(base, i, j);
    if k < i {
      ClassesApart(base, k, i);
      if k + 1 < i {
        ClassesApart(base, k, i - 1);
        ClassesApart(base, i - 1, i);
        StartsGrow(base, i - 1);
      }
    } else if i < k {
      ClassesApart(base, i, k);
    }
  }

  lemma StartsGrow(base: nat, i: nat)
    ensures ClassStart(base, i) < ClassStart(base, i + 1)
  {
  }

  /** The one case in which free puts a chunk into a FIFO that is not its own. */
  predicate Strays(base: nat, s: State, i: nat, p: nat)
    requires |s.classes| == STEPS && i < STEPS
  {
    i > 0 && p == ClassStart(base, i) && |s.classes[i - 1].chunks| < NUM
  }

  lemma OtherClass(base: nat, s: State, i: nat, p: nat, k: nat)
    requires Conserved(base, s) && i < STEPS && p in s.live[i] && k < STEPS && k != i
    ensures p !in s.live[k]
    ensures if Strays(base, s, i, p) && k + 1 == i then Returned(s.classes[k], p).chunks == s.classes[k].chunks + [p]
            else Returned(s.classes[k], p) == s.classes[k]
  {
    var j :| 0 <= j < NUM && p == Chunk(base, i, j);
    WithinExactly(base, i, j, k, s.classes[k]);
    ChunkRange(base, i, j);
    NotAChunk(base, i, j, k);
  }

  /** Classes share no chunk. */
  lemma NotAChunk(base: nat, i: nat, j: nat, k: nat)
    requires j < NUM && k != i
    ensures !IsChunk(base, k, Chunk(base, i, j))
  {
    if m :| 0 <= m < NUM && Chunk(base, i, j) == Chunk(base, k, m) {
      ChunkRange(base, i, j);
      ChunkRange(base, k, m);
      if i < k {
        ClassesApart(base, i, k);
      } else {
        ClassesApart(base, k, i);
      }
    }
  }

  lemma OwnClass(base: nat, s: State, i: nat, p: nat)
    requires Conserved(base, s) && i < STEPS && p in s.live[i]
    ensures Returned(s.classes[i], p) == s.classes[i].(chunks := s.classes[i].chunks + [p])
    ensures ClassOk(base, i, Returned(s.classes[i], p), s.live[i] - {p})
  {
    var j :| 0 <= j < NUM && p == Chunk(base, i, j);
    WithinExactly(base, i, j, i, s.classes[i]);
    ReturnPlaces(base, i, s.classes[i].chunks, s.live[i], p);
  }

  lemma StrayBreaks(base: nat, s: State, i: nat, p: nat)
    requires Conserved(base, s) && i < STEPS && p in s.live[i] && Strays(base, s, i, p)
    ensures !Conserved(base, Next(s, Release(p)))
  {
    var k: nat := i - 1;
    OtherClass(base, s, i, p, k);
    var j :| 0 <= j < NUM && p == Chunk(base, i, j);
    NotAChunk(base, i, j, k);
    var s' := Next(s, Release(p));
    assert s'.classes[k] == Returned(s.classes[k], p);
    assert p in s'.classes[k].chunks;
    assert !ClassOk(base, k, s'.classes[k], s'.live[k]);
  }

  lemma StayKeeps(base: nat, s: State, i: nat, p: nat)
    requires Conserved(base, s) && i < STEPS && p in s.live[i] && !Strays(base, s, i, p)
    ensures Conserved(base, Next(s, Release(p)))
    ensures Next(s, Release(p)).live == s.live[i := s.live[i] - {p}]
    ensures forall k :: 0 <= k < STEPS ==>
      Next(s, Release(p)).classes[k].chunks == s.classes[k].chunks + if k == i then [p] else []
  {
    var s' := Next(s, Release(p));
    OwnClass(base, s, i, p);
    forall k | 0 <= k < STEPS
      ensures ClassOk(base, k, s'.classes[k], s'.live[k])
      ensures s'.live[k] == if k == i then s.live[i] - {p} else s.live[k]
      ensures s'.classes[k].chunks == s.classes[k].chunks + if k == i then [p] else []
    {
      if k != i {
        OtherClass(base, s, i, p, k);
        assert s.live[k] - {p} == s.live[k];
      }
    }
  }

  /** Freeing a live chunk keeps every chunk in one place exactly when it is not the first chunk of a
      class whose lower neighbour has room in its FIFO: the test of free counts both ends and does not
      stop at the first class that passes. */
  lemma FreeExact(base: nat, s: State, i: nat, p: nat)
    requires Conserved(base, s) && i < STEPS && p in s.live[i]
    ensures Conserved(base, Next(s, Release(p))) <==> !Strays(base, s, i, p)
  {
    if Strays(base, s, i, p) {
      StrayBreaks(base, s, i, p);
    } else {
      StayKeeps(base, s, i, p);
    }
  }

  /** After such a free, both FIFOs hold the chunk: it can be handed out twice, once for requests of its
      own class and once for smaller ones. */
  lemma StrayIsInTwoPlaces(base: nat, s: State, i: nat, p: nat)
    requires Conserved(base, s) && i < STEPS && p in s.live[i] && Strays(base, s, i, p)
    ensures var s' := Next(s, Release(p)); p in s'.classes[i - 1].chunks && p in s'.classes[i].chunks
  {
    OwnClass(base, s, i, p);
    OtherClass(base, s, i, p, i - 1);
  }

  /** The first chunk of a full class that serves a request is the one at its start. */
  lemma FirstOfFull(base: nat, s: State, k: nat, n: nat)
    requires |s.classes| == STEPS && |s.live| == STEPS && k < STEPS && s.classes[k] == FullClass(base, k)
    requires n <= ChunkSize(k) && forall j :: 0 <= j < k ==> s.classes[j].size < n
    ensures Next(s, Allocate(n)) ==
      State(s.classes[k := Taken(FullClass(base, k))], s.live[k := s.live[k] + {ClassStart(base, k)}])
  {
    MallocServes(s.classes, n, 0);
    assert s.classes[k].chunks[0] == Chunk(base, k, 0);
  }

  /** The case is real: the first two chunks handed out, for 32 and for 64 bytes, lead to it. */
  lemma StrayReachable(base: nat)
    ensures var s := Next(Next(Start(base), Allocate(32)), Allocate(64));
            && Conserved(base, s) && ClassStart(base, 1) in s.live[1] && Strays(base, s, 1, ClassStart(base, 1))
  {
    StartConserved(base);
    var s0 := Start(base);
    var s1 := Next(s0, Allocate(32));
    assert ChunkSize(0) == 32 && ChunkSize(1) == 64;
    FirstOfFull(base, s0, 0, 32);
    StepConserves(base, s0, Allocate(32));
    FirstOfFull(base, s1, 1, 64);
    StepConserves(base, s1, Allocate(64));
  }

  /** The classes after n bytes have been asked for m times. */
  function Drained(cs: seq<Class>, n: nat, m: nat): (r: seq<Class>)
    ensures |r| == |cs|
  {
    if m == 0 then cs else Malloc(Drained(cs, n, m - 1), n, 0).0
  }

  /** Class i serves requests for n bytes as long as it has chunks, and hands them out in order. */
  lemma {:induction false} DrainsInOrder(cs: seq<Class>, i: nat, n: nat, m: nat)
    requires i < |cs| && cs[i].size >= n && (forall k :: 0 <= k < i ==> cs[k].size < n) && m <= |cs[i].chunks|
    ensures var ds := Drained(cs, n, m);
            && (forall k :: 0 <= k < |cs| ==> ds[k].size == cs[k].size)
            && (forall k :: 0 <= k < |cs| && k != i ==> ds[k] == cs[k])
            && ds[i].chunks == cs[i].chunks[m..]
            && (m < |cs[i].chunks| ==> Malloc(ds, n, 0).1 == Some(cs[i].chunks[m]))
  {
    if m > 0 {
      DrainsInOrder(cs, i, n, m - 1);
      MallocServes(Drained(cs, n, m - 1), n, 0);
    }
    MallocServes(Drained(cs, n, m), n, 0);
  }

  /** Two neighbouring classes whose FIFOs both end in p hand it out twice. */
  lemma TwiceFrom(cs: seq<Class>, k: nat, p: nat, below: seq<nat>, own: seq<nat>)
    requires k + 1 < |cs| && cs[k].chunks == below + [p] && cs[k + 1].chunks == own + [p]
    requires forall j :: 0 <= j <= k ==> cs[j].size < cs[k + 1].size
    requires forall j :: 0 <= j < k ==> cs[j].size < cs[k].size
    ensures var (cs', r) := Malloc(Drained(cs, cs[k].size, |below|), cs[k].size, 0);
            r == Some(p) && Malloc(Drained(cs', cs[k + 1].size, |own|), cs[k + 1].size, 0).1 == Some(p)
  {
    DrainsInOrder(cs, k, cs[k].size, |below|);
    DrainsInOrder(cs, k, cs[k].size, |below| + 1);
    DrainsInOrder(Drained(cs, cs[k].size, |below| + 1), k + 1, cs[k + 1].size, |own|);
  }

  /** And then the chunk is handed out twice: requests of the size of the class below reach it when the chunks before
      it are gone, and, with nothing freed in between, so do requests of its own size. */
  lemma HandedOutTwice(base: nat, s: State, i: nat, p: nat)
    requires Conserved(base, s) && i < STEPS && p in s.live[i] && Strays(base, s, i, p)
    ensures var below, own := ChunkSize(i - 1), ChunkSize(i);
            var (cs, r) := Malloc(Drained(Free(s.classes, p), below, |s.classes[i - 1].chunks|), below, 0);
            r == Some(p) && Malloc(Drained(cs, own, |s.classes[i].chunks|), own, 0).1 == Some(p)
  {
    var k: nat := i - 1;
    OwnClass(base, s, i, p);
    OtherClass(base, s, i, p, k);
    var cs := Free(s.classes, p);
    FreeSizes(base, s, p);
    SizesGrow(i);
    SizesGrow(k);
    TwiceFrom(cs, k, p, s.classes[k].chunks, s.classes[i].chunks);
  }

  lemma FreeSizes(base: nat, s: State, p: nat)
    requires Conserved(base, s)
    ensures forall k :: 0 <= k < STEPS ==> Free(s.classes, p)[k].size == ChunkSize(k)
    ensures forall k :: 0 <= k < STEPS ==> Free(s.classes, p)[k] == Returned(s.classes[k], p)
  {
  }

  lemma {:induction false} SizesGrow(i: nat)
    ensures forall k :: 0 <= k < i ==> ChunkSize(k) < ChunkSize(i)
  {
    if i > 0 {
      SizesGrow(i - 1);
    }
  }

  lemma ChunksDisjoint(base: nat, i: nat, j: nat, k: nat, m: nat)
    requires j < NUM && m < NUM && (i != k || j != m)
    ensures || Chunk(base, i, j) + ChunkSize(i) <= Chunk(base, k, m)
            || Chunk(base, k, m) + ChunkSize(k) <= Chunk(base, i, j)
  {
    if i == k {
      ChunksApart(base, i, if j < m then j else m, if j < m then m else j);
    } else {
      ChunkRange(base, i, j);
      ChunkRange(base, k, m);
      ClassesApart(base, if i < k then i else k, if i < k then k else i);
    }
  }

  /** Live chunks do not overlap, within a class or across classes. */
  lemma LiveDisjoint(base: nat, s: State, i: nat, p: nat, k: nat, q: nat)
    requires Conserved(base, s) && i < STEPS && k < STEPS && p in s.live[i] && q in s.live[k] && p != q
    ensures p + ChunkSize(i) <= q || q + ChunkSize(k) <= p
  {
    assert IsChunk(base, i, p) && IsChunk(base, k, q);
    var j :| 0 <= j < NUM && p == Chunk(base, i, j);
    var m :| 0 <= m < NUM && q == Chunk(base, k, m);
    ChunksDisjoint(base, i, j, k, m);
  }

  // ---------------------------------------------------------------- runs

  /** What callers may do: allocate anything, or free a live chunk that does not stray. */
  predicate Allowed(base: nat, s: State, op: Op) {
    && |s.classes| == STEPS && |s.live| == STEPS
    && (op.Release? ==> exists i :: 0 <= i < STEPS && op.p in s.live[i] && !Strays(base, s, i, op.p))
  }

  /** The state mem_init leaves. */
  function Start(base: nat): State {
    State(seq(STEPS, i requires 0 <= i < STEPS => FullClass(base, i)), seq(STEPS, i => {}))
  }

  lemma StartConserved(base: nat)
    ensures Conserved(base, Start(base))
  {
    forall i | 0 <= i < STEPS
      ensures ClassOk(base, i, Start(base).classes[i], Start(base).live[i])
    {
      FullOk(base, i);
    }
  }

  predicate IsRun(base: nat, ss: seq<State>, ops: seq<Op>) {
    && |ss| == |ops| + 1 && ss[0] == Start(base)
    && forall t :: 0 <= t < |ops| ==> Allowed(base, ss[t], ops[t]) && ss[t + 1] == Next(ss[t], ops[t])
  }

  lemma StepConserves(base: nat, s: State, op: Op)
    requires Conserved(base, s) && Allowed(base, s, op)
    ensures Conserved(base, Next(s, op))
  {
    match op
    case Allocate(n) => MallocExact(base, s, n);
    case Release(p) =>
      var i :| 0 <= i < STEPS && p in s.live[i] && !Strays(base, s, i, p);
      StayKeeps(base, s, i, p);
  }

  /** Over every run from mem_init, every chunk is live or free in its own class, never both, never twice. */
  lemma {:induction false} RunConserves(base: nat, ss: seq<State>, ops: seq<Op>, t: nat)
    requires IsRun(base, ss, ops) && t < |ss|
    ensures Conserved(base, ss[t])
    decreases t
  {
    if t == 0 {
      StartConserved(base);
    } else {
      RunConserves(base, ss, ops, t - 1);
      StepConserves(base, ss[t - 1], ops[t - 1]);
    }
  }

  // ---------------------------------------------------------------- least_free

  /** The least number of chunks class i has held up to state t. */
  function LowWater(ss: seq<State>, i: nat, t: nat): nat
    requires t < |ss| && forall k :: 0 <= k < |ss| ==> i < |ss[k].classes|
  {
    var now := |ss[t].classes[i].chunks|;
    if t == 0 then now else var before := LowWater(ss, i, t - 1); if now < before then now else before
  }

  lemma RunShape(base: nat, ss: seq<State>, ops: seq<Op>)
    requires IsRun(base, ss, ops)
    ensures forall t :: 0 <= t < |ss| ==> |ss[t].classes| == STEPS
  {
    forall t | 0 <= t < |ss|
      ensures |ss[t].classes| == STEPS
    {
      RunConserves(base, ss, ops, t);
    }
  }

  /** What a step does to least_free and to the number of chunks of a class. */
  lemma LeastStep(base: nat, s: State, op: Op, i: nat)
    requires Conserved(base, s) && Allowed(base, s, op) && i < STEPS
    ensures var c, c' := s.classes[i], Next(s, op).classes[i];
            if |c'.chunks| < |c.chunks| then c'.least == 1 else c'.least == c.least
  {
    match op
    case Allocate(n) => MallocServes(s.classes, n, 0);
    case Release(p) =>
  }

  /** least_free as the code keeps it: the number of chunks of a class until its first allocation, and 1 ever after. */
  lemma {:induction false} LeastFreeExactly(base: nat, ss: seq<State>, ops: seq<Op>, i: nat, t: nat)
    requires IsRun(base, ss, ops) && i < STEPS && t < |ss|
    ensures forall k :: 0 <= k < |ss| ==> |ss[k].classes| == STEPS
    ensures LowWater(ss, i, t) <= |ss[t].classes[i].chunks| <= NUM
    ensures ss[t].classes[i].least == if LowWater(ss, i, t) == NUM then NUM else 1
    decreases t
  {
    RunShape(base, ss, ops);
    RunConserves(base, ss, ops, t);
    if t > 0 {
      LeastFreeExactly(base, ss, ops, i, t - 1);
      RunConserves(base, ss, ops, t - 1);
      LeastStep(base, ss[t - 1], ops[t - 1], i);
    }
  }

  /** So it is the least number of remaining chunks ever seen exactly when no chunk was ever taken, or when the class
      was once down to a single chunk and never further. */
  lemma LeastFreeRightExactly(base: nat, ss: seq<State>, ops: seq<Op>, i: nat, t: nat)
    requires IsRun(base, ss, ops) && i < STEPS && t < |ss|
    ensures forall k :: 0 <= k < |ss| ==> |ss[k].classes| == STEPS
    ensures ss[t].classes[i].least == LowWater(ss, i, t) <==> LowWater(ss, i, t) == NUM || LowWater(ss, i, t) == 1
  {
    LeastFreeExactly(base, ss, ops, i, t);
  }

  /** It is wrong from the very first allocation: 127 chunks are left, and least_free says 1. */
  lemma LeastFreeWrong(base: nat)
    ensures var ss, ops := [Start(base), Next(Start(base), Allocate(32))], [Allocate(32)];
            && IsRun(base, ss, ops) && (forall k :: 0 <= k < |ss| ==> |ss[k].classes| == STEPS)
            && LowWater(ss, 0, 1) == NUM - 1 && ss[1].classes[0].least == 1
  {
    var ss, ops := [Start(base), Next(Start(base), Allocate(32))], [Allocate(32)];
    FirstOfFull(base, Start(base), 0, 32);
    RunShape(base, ss, ops);
  }
}
