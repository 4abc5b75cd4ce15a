/** Packet buffers (net/core/pkt.c) on top of memcpy, memmove and memset (lib/string.c). */
module PacketBuffer {
  import opened Machine

  type Octet = n: nat | n < 256

  // ---------------------------------------------------------------- copying

  /** s with part at place d. */
  function Overlaid(s: seq<Octet>, d: nat, part: seq<Octet>): (r: seq<Octet>)
    requires d + |part| <= |s|
    ensures |r| == |s| && forall k :: 0 <= k < |s| ==> r[k] == if d <= k < d + |part| then part[k - d] else s[k]
  {
    s[..d] + part + s[d + |part|..]
  }

  /** memset with zero, from place d to the end. */
  method ClearFrom(a: array<Octet>, d: nat)
    requires d <= a.Length
    modifies a
    ensures a[..] == old(a[..])[..d] + seq(a.Length - d, i => 0)
  {
    var n: nat := a.Length - d;
    var s := d;
    while n != 0
      invariant s + n == a.Length && d <= s
      invariant a[..d] == old(a[..d]) && forall i :: d <= i < s ==> a[i] == 0
    {
      a[s] := 0;
      s := s + 1;
      n := n - 1;
    }
  }

  /** Place j counted round and round the first gap places. */
  function Round(j: nat, gap: nat): (r: nat)
    requires gap > 0
    ensures r < gap && r <= j && (j < gap ==> r == j)
  {
    if j < gap then j else Round(j - gap, gap)
  }

  /** What arrives of part when every octet is read gap places behind where it is written: part itself,
      or its first gap octets over and over. */
  function Echo(part: seq<Octet>, gap: nat): (r: seq<Octet>)
    requires gap > 0
    ensures |r| == |part| && (|part| <= gap ==> r == part)
  {
    seq(|part|, j requires 0 <= j < |part| => part[Round(j, gap)])
  }

  /** memcpy: the source as it was, unless the destination starts inside the part of the source still to be
      read; then the octets in front of the destination, over and over. */
  method Memcpy(dst: array<Octet>, d: nat, src: array<Octet>, s: nat, n: nat)
    requires d + n <= dst.Length && s + n <= src.Length
    modifies dst
    ensures dst[..] == Overlaid(old(dst[..]), d, Echo(old(src[s..s + n]), if dst == src && s < d then d - s else n + 1))
  {
    ghost var before, part := dst[..], src[s..s + n];
    ghost var gap: nat := if dst == src && s < d then d - s else n + 1;
    if dst == src && d == s {
      assert Overlaid(before, d, part) == before;
      return;
    }
    var i := 0;
    while i < n
      invariant i <= n
      invariant forall k :: 0 <= k < dst.Length ==>
                  dst[k] == if d <= k < d + i then Echo(part, gap)[k - d] else before[k]
    {
      assert src[s + i] == Echo(part, gap)[i];
      dst[d + i] := src[s + i];
      i := i + 1;
    }
  }

  /** memmove within one buffer: right for every overlap. */
  method Memmove(a: array<Octet>, d: nat, s: nat, n: nat)
    requires d + n <= a.Length && s + n <= a.Length
    modifies a
    ensures a[..] == Overlaid(old(a[..]), d, old(a[s..s + n]))
  {
    ghost var before, part := a[..], a[s..s + n];
    if d == s {
      assert Overlaid(before, d, part) == before;
      return;
    }
    if d < s {
      Memcpy(a, d, a, s, n);
      return;
    }
    var i: nat := n;
    while i > 0
      invariant i <= n
      invariant forall k :: 0 <= k < a.Length ==> a[k] == if d + i <= k < d + n then part[k - d] else before[k]
    {
      i := i - 1;
      assert a[s + i] == part[i];
      a[d + i] := a[s + i];
    }
  }

  /** A body pushed down by the length of a head leaves room for exactly that head. */
  lemma HeadPlaced(s: seq<Octet>, body: seq<Octet>, head: seq<Octet>)
    requires |head| + |body| <= |s|
    ensures Overlaid(Overlaid(s, |head|, body), 0, head)[..|head| + |body|] == head + body
  {
  }

  // ---------------------------------------------------------------- packets

  const PADDING := 4

  /** The next multiple of PADDING. */
  function Padded(n: nat): (r: nat)
    ensures n <= r < n + 4 && r % 4 == 0
  {
    if n % PADDING == 0 then n else n + PADDING - n % PADDING
  }

  /** The capacity after a reservation of want bytes that succeeds; the rounding is in 32 bits. */
  function Reserved(capacity: nat, want: nat): nat { if want > capacity then Wrap(Padded(want)) else capacity }

  /** A reservation that needs no new buffer, or gets one. */
  predicate Granted(capacity: nat, want: nat, ok: bool) { want <= capacity || ok }

  lemma RoundedUp(n: Word)
    ensures n % PADDING != 0 ==> n + (PADDING - n % PADDING) == Padded(n)
    ensures n % PADDING == 0 ==> Wrap(Padded(n)) == n
    ensures Wrap(Padded(n)) % PADDING == 0
  {
  }

  /** If the reservation is granted, the buffer still holds the packet. */
  predicate Askable(len: nat, capacity: nat, want: nat, ok: bool) {
    Granted(capacity, want, ok) ==> len <= Reserved(capacity, want)
  }

  /** If the reservation for n more bytes is granted, there is room for them. */
  predicate Fits(len: nat, capacity: nat, n: nat, ok: bool) {
    Granted(capacity, Wrap(capacity + n), ok) ==> len + n <= Reserved(capacity, Wrap(capacity + n))
  }

  /** The reservation asks for capacity + n in 32 bits. If it is granted, it leaves room for n more bytes exactly when
      that sum can be rounded up within 32 bits; or when it wraps, so that nothing is reserved, and there was room
      before. */
  lemma RoomExactly(len: nat, capacity: Word, n: Word)
    requires len <= capacity && capacity % PADDING == 0
    ensures Fits(len, capacity, n, true) <==>
      n == 0 || capacity + n <= 0xFFFF_FFFC || (capacity + n >= MODULUS && len + n <= capacity)
  {
    if capacity + n < MODULUS {
      PaddedWithin(capacity + n);
    } else {
      assert Wrap(capacity + n) == capacity + n - MODULUS;
    }
  }

  lemma PaddedWithin(n: nat)
    requires n < MODULUS
    ensures Padded(n) < MODULUS <==> n <= MODULUS - PADDING
  {
  }

  /** struct en_net_pkt; capacity is its field for the size of the buffer, and a null data pointer is an
      empty buffer. */
  class Packet {
    var data: array<Octet>
    var len: nat
    var capacity: nat

    ghost predicate Valid()
      reads this
    {
      len <= capacity == data.Length < MODULUS && capacity % PADDING == 0
    }

    /** The bytes of the packet. */
    ghost function Contents(): (s: seq<Octet>)
      requires Valid()
      reads this, data
      ensures |s| == len
    {
      data[..len]
    }

    constructor (capacity: nat)
      requires capacity % PADDING == 0 && capacity < MODULUS
      ensures Valid() && Contents() == [] && this.capacity == capacity && fresh(data)
      ensures forall i :: 0 <= i < capacity ==> data[i] == 0
    {
      data := new Octet[capacity](i => 0);
      len := 0;
      this.capacity := capacity;
    }

    /** pkt_grow; ok says whether malloc finds the memory. */
    method Grow(want: Word, ok: bool) returns (rc: int)
      requires Valid() && Askable(len, capacity, want, ok)
      modifies this
      ensures Valid() && Contents() == old(Contents()) && len == old(len)
      ensures rc == if want == 0 || want < old(capacity) || ok then 0 else -1
      ensures rc == 0 && 0 < want && old(capacity) <= want ==> capacity == Wrap(Padded(want)) && fresh(data)
      ensures rc == 0 && 0 < want && old(capacity) <= want ==> forall i :: len <= i < capacity ==> data[i] == 0
      ensures !(rc == 0 && 0 < want && old(capacity) <= want) ==> data == old(data) && capacity == old(capacity)
    {
      if want <= 0 || want < capacity {
        return 0;
      }
      RoundedUp(want);
      var size: nat := want;
      if size % PADDING != 0 {
        size := Wrap(size + (PADDING - size % PADDING));
      }
      if !ok {
        return -1;
      }
      var p := new Octet[size];
      capacity := size;
      Memcpy(p, 0, data, 0, len);
      ClearFrom(p, len);
      data := p;
      return 0;
    }

    /** pkt_reserve */
    method Reserve(want: Word, ok: bool) returns (rc: int)
      requires Valid() && Askable(len, capacity, want, ok)
      modifies this
      ensures Valid() && Contents() == old(Contents()) && len == old(len)
      ensures rc == if want <= old(capacity) || ok then 0 else -1
      ensures capacity == if rc == 0 then Reserved(old(capacity), want) else old(capacity)
      ensures data == old(data) || fresh(data)
    {
      rc := 0;
      if want > capacity {
        rc := Grow(want, ok);
      }
    }

    /** pkt_add_head, for any size that fits. */
    method AddHead(buf: array<Octet>, n: Word, ok: bool) returns (rc: int)
      requires Valid() && n <= buf.Length && buf != data && Fits(len, capacity, n, ok)
      modifies this, data
      ensures Valid() && (data == old(data) || fresh(data))
      ensures rc == if Wrap(old(capacity) + n) <= old(capacity) || ok then 0 else -1
      ensures capacity == if rc == 0 then Reserved(old(capacity), Wrap(old(capacity) + n)) else old(capacity)
      ensures Contents() == if rc == 0 then old(buf[..n]) + old(Contents()) else old(Contents())
    {
      rc := Reserve(Wrap(capacity + n), ok);
      if rc != 0 {
        return;
      }
      Prepend(buf, n);
    }

    /** The copying of pkt_add_head, once there is room. */
    method Prepend(buf: array<Octet>, n: nat)
      requires Valid() && n <= buf.Length && buf != data && len + n <= capacity
      modifies `len, data
      ensures Valid() && Contents() == old(buf[..n]) + old(Contents())
    {
      ghost var before, c := data[..], Contents();
      assert data[0..0 + len] == c && buf[0..0 + n] == buf[..n];
      Memmove(data, n, 0, len);
      Memcpy(data, 0, buf, 0, n);
      HeadPlaced(before, c, buf[..n]);
      len := len + n;
    }

    /** pkt_add_tail, for any size that fits. */
    method AddTail(buf: array<Octet>, n: Word, ok: bool) returns (rc: int)
      requires Valid() && n <= buf.Length && buf != data && Fits(len, capacity, n, ok)
      modifies this, data
      ensures Valid() && (data == old(data) || fresh(data))
      ensures rc == if Wrap(old(capacity) + n) <= old(capacity) || ok then 0 else -1
      ensures Contents() == if rc == 0 then old(Contents()) + old(buf[..n]) else old(Contents())
    {
      rc := Reserve(Wrap(capacity + n), ok);
      if rc != 0 {
        return;
      }
      ghost var c := Contents();
      Memcpy(data, len, buf, 0, n);
      len := len + n;
      assert data[..len] == c + buf[..n];
    }

    /** pkt_add; the three oks are for the mallocs of the first reservation, the head and the tail. */
    method Add(head: array?<Octet>, hn: Word, tail: array?<Octet>, tn: Word, ok0: bool, ok1: bool, ok2: bool)
      returns (rc: int)
      requires Valid() && AddFits(len, capacity, head != null, hn, tail != null, tn, ok0, ok1, ok2)
      requires head != null ==> hn <= head.Length && head != data
      requires tail != null ==> tn <= tail.Length && tail != data
      modifies this, data
      ensures Valid() && (data == old(data) || fresh(data))
      ensures var want := Wrap(Wrap(old(capacity) + hn) + tn);
              var reserved := Granted(old(capacity), want, ok0);
              var headed := reserved && PartDone(Reserved(old(capacity), want), head != null, hn, ok1);
              var room := Reserved(old(capacity), want);
              var tailed := reserved && TailDone(room, head != null, hn, tail != null, tn, ok1, ok2);
              && rc == (if tailed then 0 else -1)
              && Contents() == Joined(old(Octets(head, hn)), old(Contents()), old(Octets(tail, tn)), headed, tailed)
    {
      rc := Reserve(Wrap(Wrap(capacity + hn) + tn), ok0);
      if rc != 0 {
        return;
      }
      rc := AddParts(head, hn, tail, tn, ok1, ok2);
    }

    /** pkt_add after its first reservation. */
    method AddParts(head: array?<Octet>, hn: Word, tail: array?<Octet>, tn: Word, ok1: bool, ok2: bool)
      returns (rc: int)
      requires Valid() && PartsFit(len, capacity, head != null, hn, tail != null, tn, ok1, ok2)
      requires head != null ==> hn <= head.Length && head != data
      requires tail != null ==> tn <= tail.Length && tail != data
      modifies this, data
      ensures Valid() && (data == old(data) || fresh(data))
      ensures var headed := PartDone(old(capacity), head != null, hn, ok1);
              var tailed := TailDone(old(capacity), head != null, hn, tail != null, tn, ok1, ok2);
              && rc == (if tailed then 0 else -1)
              && Contents() == Joined(old(Octets(head, hn)), old(Contents()), old(Octets(tail, tn)), headed, tailed)
    {
      rc := HeadPart(head, hn, ok1);
      if rc != 0 {
        return;
      }
      rc := TailPart(tail, tn, ok2);
    }

    method HeadPart(head: array?<Octet>, hn: Word, ok: bool) returns (rc: int)
      requires Valid() && (head != null ==> hn <= head.Length && head != data && Fits(len, capacity, hn, ok))
      modifies this, data
      ensures Valid() && (data == old(data) || fresh(data))
      ensures rc == if PartDone(old(capacity), head != null, hn, ok) then 0 else -1
      ensures rc == 0 ==> capacity == AfterHead(old(capacity), head != null, hn)
      ensures Contents() == if rc == 0 then old(Octets(head, hn)) + old(Contents()) else old(Contents())
    {
      rc := 0;
      if head != null {
        rc := AddHead(head, hn, ok);
      }
    }

    method TailPart(tail: array?<Octet>, tn: Word, ok: bool) returns (rc: int)
      requires Valid() && (tail != null ==> tn <= tail.Length && tail != data && Fits(len, capacity, tn, ok))
      modifies this, data
      ensures Valid() && (data == old(data) || fresh(data))
      ensures rc == if PartDone(old(capacity), tail != null, tn, ok) then 0 else -1
      ensures Contents() == if rc == 0 then old(Contents()) + old(Octets(tail, tn)) else old(Contents())
    {
      rc := 0;
      if tail != null {
        rc := AddTail(tail, tn, ok);
      }
    }

    /** pkt_del_head */
    method DelHead(n: nat) returns (rc: int)
      requires Valid()
      modifies this, data
      ensures Valid() && data == old(data) && capacity == old(capacity)
      ensures rc == if n > old(len) then -1 else 0
      ensures Contents() == if rc == 0 then old(Contents())[n..] else old(Contents())
    {
      if n > len {
        return -1;
      }
      ghost var c := Contents();
      Memmove(data, 0, n, len - n);
      len := len - n;
      assert data[..len] == c[n..];
      return 0;
    }
  }

  /** The first n octets behind a pointer, none behind a null pointer. */
  ghost function Octets(buf: array?<Octet>, n: nat): seq<Octet>
    reads buf
  {
    if buf == null || buf.Length < n then [] else buf[..n]
  }

  /** What pkt_add leaves, depending on how far it got. */
  function Joined(h: seq<Octet>, c: seq<Octet>, t: seq<Octet>, headed: bool, tailed: bool): seq<Octet> {
    if tailed then h + c + t else if headed then h + c else c
  }

  /** A part that is there is in, from a buffer of this capacity on; then the head and after it the tail. */
  predicate PartDone(capacity: nat, head: bool, hn: nat, ok: bool) {
    !head || Granted(capacity, Wrap(capacity + hn), ok)
  }

  predicate TailDone(capacity: nat, head: bool, hn: nat, tail: bool, tn: nat, ok1: bool, ok2: bool) {
    PartDone(capacity, head, hn, ok1) && (!tail || PartDone(AfterHead(capacity, head, hn), true, tn, ok2))
  }

  function AfterHead(capacity: nat, head: bool, hn: nat): nat {
    if head then Reserved(capacity, Wrap(capacity + hn)) else capacity
  }

  /** The reservations for head and tail that are granted leave room. */
  predicate PartsFit(len: nat, capacity: nat, head: bool, hn: nat, tail: bool, tn: nat, ok1: bool, ok2: bool) {
    && (head ==> Fits(len, capacity, hn, ok1))
    && (tail && PartDone(capacity, head, hn, ok1) ==>
          Fits(if head then len + hn else len, AfterHead(capacity, head, hn), tn, ok2))
  }

  predicate AddFits(len: nat, capacity: nat, head: bool, hn: nat, tail: bool, tn: nat,
                    ok0: bool, ok1: bool, ok2: bool) {
    var want := Wrap(Wrap(capacity + hn) + tn);
    && Askable(len, capacity, want, ok0)
    && (Granted(capacity, want, ok0) ==> PartsFit(len, Reserved(capacity, want), head, hn, tail, tn, ok1, ok2))
  }

  /** pkt_alloc; the oks are for the mallocs of the packet and its buffer. A size that wraps when rounded up gives
      a packet without a buffer. */
  method PktAlloc(base: Word, ok0: bool, ok1: bool) returns (pkt: Packet?)
    ensures pkt == null <==> !ok0 || (Wrap(Padded(base)) > 0 && !ok1)
    ensures pkt != null ==> fresh(pkt) && fresh(pkt.data) && pkt.Valid() && pkt.Contents() == []
    ensures pkt != null ==> pkt.capacity == Wrap(Padded(base))
    ensures pkt != null ==> forall i :: 0 <= i < pkt.capacity ==> pkt.data[i] == 0
  {
    if !ok0 {
      return null;
    }
    var size: nat := base;
    if size % PADDING != 0 {
      size := Wrap(size + (PADDING - size % PADDING));
    }
    if size > 0 && !ok1 {
      return null;
    }
    RoundedUp(base);
    pkt := new Packet(size);
  }

  /** pkt_del_head undoes pkt_add_head. */
  method HeadUndone(pkt: Packet, buf: array<Octet>, n: Word, ok: bool) returns (rc: int)
    requires pkt.Valid() && n <= buf.Length && buf != pkt.data && Fits(pkt.len, pkt.capacity, n, ok)
    modifies pkt, pkt.data
    ensures pkt.Valid() && pkt.Contents() == old(pkt.Contents())
    ensures rc == if Wrap(old(pkt.capacity) + n) <= old(pkt.capacity) || ok then 0 else -1
  {
    rc := pkt.AddHead(buf, n, ok);
    if rc == 0 {
      rc := pkt.DelHead(n);
    }
  }
}
