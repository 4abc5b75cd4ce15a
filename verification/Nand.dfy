/** The page layout and error correction of the NAND driver (dev/nand.c). */
module Nand {
  import opened Machine
  import opened Bits
  import opened Hamming
  import opened HammingTheorems

  const PAGE := 2048
  const RAW := 2112
  const SECTOR := 512
  const ECC := PAGE + 40

  function Full(): (b: Byte)
    ensures forall k :: 0 <= k < 8 ==> b[k]
  {
    Not(Zeros(8))
  }

  /** Programming a flash cell can only clear bits. */
  function Programmed(cell: Byte, b: Byte): (r: Byte)
    ensures forall k :: 0 <= k < 8 ==> r[k] == (cell[k] && b[k])
  {
    seq(8, k requires 0 <= k < 8 => cell[k] && b[k])
  }

  /** The page after a run of bytes is streamed into it from column col on. */
  function Program(page: seq<Byte>, col: nat, bytes: seq<Byte>): (r: seq<Byte>)
    requires col + |bytes| <= |page|
    ensures |r| == |page|
  {
    seq(|page|, i requires 0 <= i < |page| =>
      if col <= i < col + |bytes| then Programmed(page[i], bytes[i - col]) else page[i])
  }

  /** The page after nand_write_sector. */
  function Written(page: seq<Byte>, sect: nat, data: seq<Byte>): (r: seq<Byte>)
    requires |page| == RAW && sect < 4 && |data| == SECTOR
    ensures |r| == RAW
  {
    Program(Program(page, sect * SECTOR, data), ECC + sect * 6, Code(data[..BLOCK]) + Code(data[BLOCK..]))
  }

  /** One data byte on its way into the page. */
  method Output(page: array<Byte>, col: nat, b: Byte)
    requires col < page.Length
    modifies page
    ensures page[..] == Program(old(page[..]), col, [b])
  {
    page[col] := Programmed(page[col], b);
  }

  /** The loop that streams the 512 data bytes. */
  method StreamData(page: array<Byte>, col: nat, buf: array<Byte>)
    requires buf.Length == SECTOR && col + SECTOR <= page.Length && page != buf
    modifies page
    ensures page[..] == Program(old(page[..]), col, buf[..])
  {
    ghost var before := page[..];
    for i := 0 to SECTOR
      invariant page[..] == Program(before, col, buf[..i])
    {
      Output(page, col + i, buf[i]);
      ProgramOneMore(before, col, buf[..i], buf[i]);
      assert buf[..i + 1] == buf[..i] + [buf[i]];
    }
    assert buf[..SECTOR] == buf[..];
  }

  /** The three bytes of one code. */
  method StreamCode(page: array<Byte>, col: nat, ecc: array<Byte>)
    requires ecc.Length == 3 && col + 3 <= page.Length && page != ecc
    modifies page
    ensures page[..] == Program(old(page[..]), col, ecc[..])
  {
    ghost var before := page[..];
    Output(page, col, ecc[0]);
    Output(page, col + 1, ecc[1]);
    ProgramOneMore(before, col, [ecc[0]], ecc[1]);
    Output(page, col + 2, ecc[2]);
    ProgramOneMore(before, col, [ecc[0], ecc[1]], ecc[2]);
    assert ecc[..] == [ecc[0], ecc[1]] + [ecc[2]];
  }

  lemma ProgramTwice(page: seq<Byte>, col: nat, a: seq<Byte>, b: seq<Byte>)
    requires col + |a| + |b| <= |page|
    ensures Program(Program(page, col, a), col + |a|, b) == Program(page, col, a + b)
  {
  }

  /** The two codes of a sector. */
  method BothCodes(buf: array<Byte>) returns (ecc1: array<Byte>, ecc2: array<Byte>)
    requires buf.Length == SECTOR
    ensures fresh(ecc1) && fresh(ecc2) && ecc1.Length == 3 && ecc2.Length == 3
    ensures ecc1[..] == Code(buf[..][..BLOCK]) && ecc2[..] == Code(buf[..][BLOCK..])
  {
    ecc1 := new Byte[3];
    ecc2 := new Byte[3];
    Compute256(buf, 0, ecc1);
    Compute256(buf, BLOCK, ecc2);
    assert buf[0..BLOCK] == buf[..][..BLOCK] && buf[BLOCK..BLOCK + BLOCK] == buf[..][BLOCK..];
  }

  /** nand_write_sector, with the page selected and the control lines left out. */
  method WriteSector(page: array<Byte>, sect: nat, buf: array<Byte>)
    requires page.Length == RAW && buf.Length == SECTOR && sect < 4 && page != buf
    modifies page
    ensures page[..] == Written(old(page[..]), sect, buf[..])
  {
    var ecc1, ecc2 := BothCodes(buf);
    StreamData(page, sect * SECTOR, buf);
    ghost var half := page[..];
    StreamCode(page, ECC + sect * 6, ecc1);
    StreamCode(page, ECC + sect * 6 + 3, ecc2);
    ProgramTwice(half, ECC + sect * 6, ecc1[..], ecc2[..]);
  }

  lemma ProgramOneMore(page: seq<Byte>, col: nat, bytes: seq<Byte>, b: Byte)
    requires col + |bytes| < |page|
    ensures Program(Program(page, col, bytes), col + |bytes|, [b]) == Program(page, col, bytes + [b])
  {
  }

  // ---------------------------------------------------------------- reading

  function Chunk(page: seq<Byte>, i: nat): (d: seq<Byte>)
    requires |page| == RAW && i < 8
    ensures |d| == BLOCK
  {
    page[i * BLOCK..i * BLOCK + BLOCK]
  }

  function Stored(page: seq<Byte>, i: nat): (c: seq<Byte>)
    requires |page| == RAW && i < 8
    ensures |c| == 3
  {
    page[ECC + i * 3..ECC + i * 3 + 3]
  }

  function SyndromeAt(page: seq<Byte>, i: nat): (s: seq<Byte>)
    requires |page| == RAW && i < 8
    ensures |s| == 3
  {
    Xor3(Code(Chunk(page, i)), Stored(page, i))
  }

  /** The buffer after chunk i has been checked. */
  function CheckOne(page: seq<Byte>, i: nat): (r: seq<Byte>)
    requires |page| == RAW && i < 8
    ensures |r| == RAW
  {
    page[..i * BLOCK] + Correct(Chunk(page, i), SyndromeAt(page, i)) + page[i * BLOCK + BLOCK..]
  }

  /** The buffer once the first n chunks have been checked. */
  function Checked(page: seq<Byte>, n: nat): (r: seq<Byte>)
    requires |page| == RAW && n <= 8
    ensures |r| == RAW
  {
    if n == 0 then page else CheckOne(Checked(page, n - 1), n - 1)
  }

  /** Checking chunk i changes that chunk only. */
  lemma CheckOneOnly(page: seq<Byte>, i: nat, j: nat)
    requires |page| == RAW && i < 8 && j < 8
    ensures Stored(CheckOne(page, i), j) == Stored(page, j)
    ensures Chunk(CheckOne(page, i), j)
         == if j == i then Correct(Chunk(page, i), SyndromeAt(page, i)) else Chunk(page, j)
  {
    var r := CheckOne(page, i);
    assert forall k :: 0 <= k < i * BLOCK ==> r[k] == page[k];
    assert forall k :: i * BLOCK + BLOCK <= k < RAW ==> r[k] == page[k];
    if j < i {
      assert j * BLOCK + BLOCK <= i * BLOCK;
    }
  }

  /** So each chunk is judged on the page as it was read. */
  lemma {:induction false} ChunksIndependent(page: seq<Byte>, n: nat, i: nat)
    requires |page| == RAW && n <= 8 && i < 8
    ensures Stored(Checked(page, n), i) == Stored(page, i)
    ensures Chunk(Checked(page, n), i)
         == if i < n then Correct(Chunk(page, i), SyndromeAt(page, i)) else Chunk(page, i)
  {
    if n > 0 {
      ChunksIndependent(page, n - 1, i);
      CheckOneOnly(Checked(page, n - 1), n - 1, i);
    }
  }

  lemma SameSyndrome(page: seq<Byte>, i: nat)
    requires |page| == RAW && i < 8
    ensures SyndromeAt(Checked(page, i), i) == SyndromeAt(page, i)
  {
    ChunksIndependent(page, i, i);
  }

  predicate Reported(page: seq<Byte>, verdicts: seq<Verdict>)
    requires |page| == RAW && |verdicts| <= 8
  {
    forall i :: 0 <= i < |verdicts| ==> verdicts[i] == Classify(SyndromeAt(page, i))
  }

  lemma ReportOne(page: seq<Byte>, verdicts: seq<Verdict>, v: Verdict)
    requires |page| == RAW && |verdicts| < 8 && Reported(page, verdicts) && v == Classify(SyndromeAt(page, |verdicts|))
    ensures Reported(page, verdicts + [v])
  {
  }

  /** One round of the checking loop. */
  method CheckChunk(buf: array<Byte>, i: nat) returns (v: Verdict)
    requires buf.Length == RAW && i < 8
    modifies buf
    ensures v == Classify(SyndromeAt(old(buf[..]), i))
    ensures buf[..] == CheckOne(old(buf[..]), i)
  {
    ghost var before := buf[..];
    var ecc := new Byte[3];
    Compute256(buf, i * BLOCK, ecc);
    assert buf[i * BLOCK..i * BLOCK + BLOCK] == Chunk(before, i);
    assert buf[ECC + i * 3..ECC + i * 3 + 3] == Stored(before, i);
    v := Correct256(buf, i * BLOCK, buf, ECC + i * 3, ecc);
  }

  /** nand_read_page; the verdicts are what it reports on the console. */
  method ReadPage(page: array<Byte>, buf: array<Byte>) returns (verdicts: seq<Verdict>)
    requires page.Length == RAW && buf.Length == RAW && page != buf
    modifies buf
    ensures buf[..] == Checked(page[..], 8)
    ensures |verdicts| == 8 && Reported(page[..], verdicts)
  {
    for i := 0 to RAW
      invariant buf[..i] == page[..i]
    {
      buf[i] := page[i];
    }
    assert buf[..] == page[..];
    verdicts := [];
    for i := 0 to 8
      invariant buf[..] == Checked(page[..], i)
      invariant |verdicts| == i && Reported(page[..], verdicts)
    {
      SameSyndrome(page[..], i);
      var v := CheckChunk(buf, i);
      ReportOne(page[..], verdicts, v);
      verdicts := verdicts + [v];
    }
  }

  // ---------------------------------------------------------------- columns

  /** The columns a chunk and its stored code are read from. */
  lemma ReadColumns(page: seq<Byte>, i: nat)
    requires |page| == 2112 && i < 8
    ensures Chunk(page, i) == page[256 * i..256 * i + 256] && Stored(page, i) == page[2088 + 3 * i..2091 + 3 * i]
  {
  }

  /** The columns a sector is written to, and no others: its data columns, and six of the last twenty-four. */
  lemma WriteColumns(page: seq<Byte>, s: nat, data: seq<Byte>, c: nat)
    requires |page| == 2112 && s < 4 && |data| == 512 && c < 2112
    ensures var r, code := Written(page, s, data), Code(data[..256]) + Code(data[256..]);
            r[c] == if 512 * s <= c < 512 * s + 512 then Programmed(page[c], data[c - 512 * s])
                    else if 2088 + 6 * s <= c < 2094 + 6 * s then Programmed(page[c], code[c - (2088 + 6 * s)])
                    else page[c]
  {
  }

  // ---------------------------------------------------------------- end to end

  /** The columns of sector s hold data and its two codes. */
  predicate Holds(page: seq<Byte>, s: nat, data: seq<Byte>)
    requires |page| == RAW && s < 4 && |data| == SECTOR
  {
    && page[s * SECTOR..s * SECTOR + SECTOR] == data
    && page[ECC + s * 6..ECC + s * 6 + 6] == Code(data[..BLOCK]) + Code(data[BLOCK..])
  }

  /** The columns of sector s are erased. */
  predicate Erased(page: seq<Byte>, s: nat)
    requires |page| == RAW && s < 4
  {
    && (forall i :: s * SECTOR <= i < s * SECTOR + SECTOR ==> page[i] == Full())
    && (forall i :: ECC + s * 6 <= i < ECC + s * 6 + 6 ==> page[i] == Full())
  }

  lemma ProgramFull(b: Byte)
    ensures Programmed(Full(), b) == b
  {
  }

  /** Writing an erased sector stores it, and touches no other sector. */
  lemma WriteOne(page: seq<Byte>, s: nat, data: seq<Byte>)
    requires |page| == RAW && s < 4 && |data| == SECTOR && Erased(page, s)
    ensures Holds(Written(page, s, data), s, data)
  {
    var r := Written(page, s, data);
    forall i | 0 <= i < SECTOR
      ensures r[s * SECTOR + i] == data[i]
    {
      ProgramFull(data[i]);
    }
    var code := Code(data[..BLOCK]) + Code(data[BLOCK..]);
    forall i | 0 <= i < 6
      ensures r[ECC + s * 6 + i] == code[i]
    {
      ProgramFull(code[i]);
    }
    assert r[s * SECTOR..s * SECTOR + SECTOR] == data;
    assert r[ECC + s * 6..ECC + s * 6 + 6] == code;
  }

  lemma WriteElsewhere(page: seq<Byte>, s: nat, data: seq<Byte>, t: nat, other: seq<Byte>)
    requires |page| == RAW && s < 4 && t < 4 && s != t && |data| == SECTOR && |other| == SECTOR
    ensures Holds(page, t, other) ==> Holds(Written(page, s, data), t, other)
    ensures Erased(page, t) ==> Erased(Written(page, s, data), t)
  {
    var r := Written(page, s, data);
    assert forall i :: t * SECTOR <= i < t * SECTOR + SECTOR ==> r[i] == page[i];
    assert forall i :: ECC + t * 6 <= i < ECC + t * 6 + 6 ==> r[i] == page[i];
    assert r[t * SECTOR..t * SECTOR + SECTOR] == page[t * SECTOR..t * SECTOR + SECTOR];
    assert r[ECC + t * 6..ECC + t * 6 + 6] == page[ECC + t * 6..ECC + t * 6 + 6];
  }

  predicate Sectors(data: seq<seq<Byte>>) {
    |data| == 4 && forall s :: 0 <= s < 4 ==> |data[s]| == SECTOR
  }

  /** The page after writing sectors in a given order. */
  function WriteAll(page: seq<Byte>, order: seq<nat>, data: seq<seq<Byte>>): (r: seq<Byte>)
    requires |page| == RAW && Sectors(data) && forall i :: 0 <= i < |order| ==> order[i] < 4
    ensures |r| == RAW
  {
    if order == [] then page
    else
      var n := |order| - 1;
      Written(WriteAll(page, order[..n], data), order[n], data[order[n]])
  }

  lemma WriteStep(page: seq<Byte>, t: nat, data: seq<seq<Byte>>, s: nat, done: bool)
    requires |page| == RAW && Sectors(data) && s < 4 && t < 4 && (s == t ==> !done)
    requires if done then Holds(page, s, data[s]) else Erased(page, s)
    ensures var r := Written(page, t, data[t]); if done || s == t then Holds(r, s, data[s]) else Erased(r, s)
  {
    if s == t {
      WriteOne(page, s, data[s]);
    } else {
      WriteElsewhere(page, t, data[t], s, data[s]);
    }
  }

  /** In whatever order sectors are written, each column ends up holding its own sector. */
  lemma {:induction false} WriteInAnyOrder(page: seq<Byte>, order: seq<nat>, data: seq<seq<Byte>>, s: nat)
    requires |page| == RAW && Sectors(data) && s < 4 && Distinct(order)
    requires forall i :: 0 <= i < |order| ==> order[i] < 4
    requires forall t :: 0 <= t < 4 ==> Erased(page, t)
    ensures if s in order then Holds(WriteAll(page, order, data), s, data[s])
            else Erased(WriteAll(page, order, data), s)
  {
    if order != [] {
      var n := |order| - 1;
      WriteInAnyOrder(page, order[..n], data, s);
      WriteStep(WriteAll(page, order[..n], data), order[n], data, s, s in order[..n]);
      assert s in order <==> s in order[..n] || s == order[n];
    }
  }

  /** A sector's columns seen as two chunks with their codes. */
  lemma HalvesOfSector(page: seq<Byte>, s: nat, data: seq<Byte>, i: nat, j: nat)
    requires |page| == RAW && s < 4 && |data| == SECTOR && Holds(page, s, data) && i == 2 * s && j == i + 1
    ensures Chunk(page, i) == data[..BLOCK] && Stored(page, i) == Code(data[..BLOCK])
    ensures Chunk(page, j) == data[BLOCK..] && Stored(page, j) == Code(data[BLOCK..])
  {
    var d := page[s * SECTOR..s * SECTOR + SECTOR];
    var c := page[ECC + s * 6..ECC + s * 6 + 6];
    assert d[..BLOCK] == page[s * SECTOR..s * SECTOR + BLOCK];
    assert d[BLOCK..] == page[s * SECTOR + BLOCK..s * SECTOR + SECTOR];
    assert c[..3] == page[ECC + s * 6..ECC + s * 6 + 3] && c[3..] == page[ECC + s * 6 + 3..ECC + s * 6 + 6];
    assert i * BLOCK == s * SECTOR && j * BLOCK == s * SECTOR + BLOCK;
    assert (Code(data[..BLOCK]) + Code(data[BLOCK..]))[..3] == Code(data[..BLOCK]);
    assert (Code(data[..BLOCK]) + Code(data[BLOCK..]))[3..] == Code(data[BLOCK..]);
  }

  /** The number of wrong bits in chunk i of a page taken together with its stored code. */
  function Errors(page: seq<Byte>, read: seq<Byte>, i: nat): nat
    requires |page| == RAW && |read| == RAW && i < 8
  {
    Distance(Chunk(page, i), Chunk(read, i)) + Count3(Xor3(Stored(page, i), Stored(read, i)))
  }

  /** Reading repairs any chunk with at most one wrong bit, and reports one with two. */
  lemma ReadChunk(page: seq<Byte>, read: seq<Byte>, i: nat)
    requires |page| == RAW && |read| == RAW && i < 8
    requires Stored(page, i) == Code(Chunk(page, i))
    ensures Errors(page, read, i) <= 1 ==> Chunk(Checked(read, 8), i) == Chunk(page, i)
    ensures Errors(page, read, i) == 2 ==> Classify(SyndromeAt(read, i)) == MultipleBits
  {
    ChunksIndependent(read, 8, i);
    SecDed(Chunk(page, i), Chunk(read, i), Stored(read, i));
  }

  lemma SectorBack(page: seq<Byte>, read: seq<Byte>, s: nat, i: nat, j: nat, d: seq<Byte>)
    requires |page| == RAW && |read| == RAW && s < 4 && i == 2 * s && j == i + 1 && |d| == SECTOR
    requires Holds(page, s, d) && Errors(page, read, i) <= 1 && Errors(page, read, j) <= 1
    ensures Checked(read, 8)[s * SECTOR..s * SECTOR + SECTOR] == d
  {
    HalvesOfSector(page, s, d, i, j);
    ReadChunk(page, read, i);
    ReadChunk(page, read, j);
    JoinHalves(Checked(read, 8), s, i, j, d);
  }

  lemma Assemble(r: seq<Byte>, data: seq<seq<Byte>>)
    requires |r| == RAW && Sectors(data)
    requires forall s :: 0 <= s < 4 ==> r[s * SECTOR..s * SECTOR + SECTOR] == data[s]
    ensures r[..PAGE] == data[0] + data[1] + data[2] + data[3]
  {
    assert r[0 * SECTOR..0 * SECTOR + SECTOR] == data[0] && r[1 * SECTOR..1 * SECTOR + SECTOR] == data[1];
    assert r[2 * SECTOR..2 * SECTOR + SECTOR] == data[2] && r[3 * SECTOR..3 * SECTOR + SECTOR] == data[3];
    assert r[..PAGE] == r[0..512] + r[512..1024] + r[1024..1536] + r[1536..2048];
  }

  predicate AllErased(page: seq<Byte>)
    requires |page| == RAW
  {
    forall t :: 0 <= t < 4 ==> Erased(page, t)
  }

  /** Every sector once. */
  predicate EachOnce(order: seq<nat>) {
    Distinct(order) && (forall i :: 0 <= i < |order| ==> order[i] < 4) && forall t :: 0 <= t < 4 ==> t in order
  }

  /** At most one wrong bit in each chunk with its code. */
  predicate Readable(page: seq<Byte>, read: seq<Byte>)
    requires |page| == RAW && |read| == RAW
  {
    forall i :: 0 <= i < 8 ==> Errors(page, read, i) <= 1
  }

  lemma OneSector(page: seq<Byte>, order: seq<nat>, data: seq<seq<Byte>>, read: seq<Byte>, s: nat)
    requires |page| == RAW && |read| == RAW && Sectors(data) && s < 4
    requires AllErased(page) && EachOnce(order) && Readable(WriteAll(page, order, data), read)
    ensures Checked(read, 8)[s * SECTOR..s * SECTOR + SECTOR] == data[s]
  {
    WriteInAnyOrder(page, order, data, s);
    var i, j := 2 * s, 2 * s + 1;
    SectorBack(WriteAll(page, order, data), read, s, i, j, data[s]);
  }

  /** Four sectors written to an erased page in any order come back exactly, whatever happens to
      the spare bytes, as long as each 256-byte chunk and its code lose at most one bit. */
  lemma EndToEnd(page: seq<Byte>, order: seq<nat>, data: seq<seq<Byte>>, read: seq<Byte>)
    requires |page| == RAW && |read| == RAW && Sectors(data)
    requires AllErased(page) && EachOnce(order) && Readable(WriteAll(page, order, data), read)
    ensures Checked(read, 8)[..PAGE] == data[0] + data[1] + data[2] + data[3]
  {
    forall s | 0 <= s < 4
      ensures Checked(read, 8)[s * SECTOR..s * SECTOR + SECTOR] == data[s]
    {
      OneSector(page, order, data, read, s);
    }
    Assemble(Checked(read, 8), data);
  }

  lemma JoinHalves(r: seq<Byte>, s: nat, i: nat, j: nat, d: seq<Byte>)
    requires |r| == RAW && s < 4 && i == 2 * s && j == i + 1 && |d| == SECTOR
    requires Chunk(r, i) == d[..BLOCK] && Chunk(r, j) == d[BLOCK..]
    ensures r[s * SECTOR..s * SECTOR + SECTOR] == d
  {
    assert i * BLOCK == s * SECTOR && j * BLOCK == s * SECTOR + BLOCK;
    assert r[s * SECTOR..s * SECTOR + SECTOR] == Chunk(r, i) + Chunk(r, j);
    assert d == d[..BLOCK] + d[BLOCK..];
  }

  lemma FullByte()
    ensures !Odd(Full()) && Xor(Zeros(8), Full()) == Full() && Xor(Full(), Full()) == Zeros(8)
  {
    assert Full() == [true, true, true, true, true, true, true, true];
    CountOfEight(true, true, true, true, true, true, true, true);
    OddIsCount(Full());
  }

  lemma {:induction false} FlagsOfErased(d: seq<Byte>)
    requires forall i :: 0 <= i < |d| ==> d[i] == Full()
    ensures Flags(d) == Zeros(|d|)
  {
    if d != [] {
      FlagsOfErased(d[..|d| - 1]);
      FullByte();
    }
  }

  lemma {:induction false} ColumnOfErased(d: seq<Byte>, odd: bool)
    requires forall i :: 0 <= i < |d| ==> d[i] == Full()
    requires odd <==> |d| % 2 == 1
    ensures ColSum(d) == if odd then Full() else Zeros(8)
  {
    if d != [] {
      ColumnOfErased(d[..|d| - 1], !odd);
      FullByte();
    }
  }

  lemma EmptySums(n: nat, w: nat)
    ensures IndexSum(Zeros(n), n, w, false) == Zeros(w) && IndexSum(Zeros(n), n, w, true) == Zeros(w)
  {
    IndexSumNone(Zeros(n), n, w);
    CountBounds(Zeros(n));
    OddIsCount(Zeros(n));
    EvenWhole(Zeros(n), w);
  }

  lemma CodeOfErased(d: seq<Byte>)
    requires |d| == BLOCK && forall i :: 0 <= i < |d| ==> d[i] == Full()
    ensures Code(d) == [Full(), Full(), Full()]
  {
    FlagsOfErased(d);
    ColumnOfErased(d, false);
    EmptySums(BLOCK, 8);
    EmptySums(8, 3);
    EmptyLayout();
  }

  lemma EmptyLayout()
    ensures Inverted(Layout(Zip(Zeros(8), Zeros(8)), Zip(Zeros(3), Zeros(3)))) == [Full(), Full(), Full()]
  {
    var p := Layout(Zip(Zeros(8), Zeros(8)), Zip(Zeros(3), Zeros(3)));
    assert p[0] == Zeros(8);
    assert p[1] == Zeros(8);
    forall k | 0 <= k < 8
      ensures !p[2][k]
    {
      if k >= 2 {
        assert p[2][k] == Zip(Zeros(3), Zeros(3))[k - 2];
      }
    }
    assert p[2] == Zeros(8);
  }

  lemma ErasedSyndrome(page: seq<Byte>, i: nat)
    requires |page| == RAW && i < 8 && forall j :: 0 <= j < RAW ==> page[j] == Full()
    ensures SyndromeAt(page, i) == Xor3(Stored(page, i), Stored(page, i))
  {
    CodeOfErased(Chunk(page, i));
    assert Code(Chunk(page, i)) == Stored(page, i);
  }

  /** An erased page reads clean: all ones is its own code. */
  lemma ErasedReadsClean(page: seq<Byte>, i: nat)
    requires |page| == RAW && i < 8 && forall j :: 0 <= j < RAW ==> page[j] == Full()
    ensures Classify(SyndromeAt(page, i)) == Clean
    ensures Chunk(Checked(page, 8), i) == Chunk(page, i)
  {
    ErasedSyndrome(page, i);
    CancelSelf(Stored(page, i));
    ChunksIndependent(page, 8, i);
  }

  /** The spare columns in front of the codes are never programmed. */
  lemma {:induction false} SpareUntouched(page: seq<Byte>, order: seq<nat>, data: seq<seq<Byte>>, c: nat)
    requires |page| == RAW && Sectors(data) && (forall i :: 0 <= i < |order| ==> order[i] < 4) && 2048 <= c < 2088
    ensures WriteAll(page, order, data)[c] == page[c]
  {
    if order != [] {
      var n := |order| - 1;
      SpareUntouched(page, order[..n], data, c);
      WriteColumns(WriteAll(page, order[..n], data), order[n], data[order[n]], c);
    }
  }

  /** The four sectors one after the other. */
  function Joined(data: seq<seq<Byte>>): (d: seq<Byte>)
    requires Sectors(data)
    ensures |d| == 2048
  {
    data[0] + data[1] + data[2] + data[3]
  }

  lemma HalfOf(data: seq<seq<Byte>>, s: nat)
    requires Sectors(data) && s < 4
    ensures Joined(data)[512 * s..512 * s + 256] == data[s][..256]
    ensures Joined(data)[512 * s + 256..512 * s + 512] == data[s][256..]
  {
    assert Joined(data)[512 * s..512 * s + 512] == data[s];
  }

  lemma CodeOfChunk(r: seq<Byte>, data: seq<seq<Byte>>, s: nat, i: nat)
    requires |r| == RAW && Sectors(data) && s < 4 && Holds(r, s, data[s]) && (i == 2 * s || i == 2 * s + 1)
    ensures r[2088 + 3 * i..2091 + 3 * i] == Code(Joined(data)[256 * i..256 * i + 256])
  {
    HalfOf(data, s);
    HalvesOfSector(r, s, data[s], 2 * s, 2 * s + 1);
    ReadColumns(r, i);
  }

  /** A page of all ones with its four sectors written, in any order: the data from the first column on, forty bytes
      still erased, and then, up to the end, three bytes of code for each 256 bytes of data. */
  lemma PageLayout(page: seq<Byte>, order: seq<nat>, data: seq<seq<Byte>>)
    requires |page| == 2112 && (forall c :: 0 <= c < 2112 ==> page[c] == Full())
    requires Sectors(data) && EachOnce(order)
    ensures var r := WriteAll(page, order, data);
            && r[..2048] == Joined(data)
            && (forall c :: 2048 <= c < 2088 ==> r[c] == Full())
            && (forall i :: 0 <= i < 8 ==> r[2088 + 3 * i..2091 + 3 * i] == Code(Joined(data)[256 * i..256 * i + 256]))
  {
    var r := WriteAll(page, order, data);
    forall s | 0 <= s < 4
      ensures Holds(r, s, data[s])
    {
      WriteInAnyOrder(page, order, data, s);
    }
    Assemble(r, data);
    forall c | 2048 <= c < 2088
      ensures r[c] == Full()
    {
      SpareUntouched(page, order, data, c);
    }
    forall i | 0 <= i < 8
      ensures r[2088 + 3 * i..2091 + 3 * i] == Code(Joined(data)[256 * i..256 * i + 256])
    {
      CodeOfChunk(r, data, i / 2, i);
    }
  }
}
