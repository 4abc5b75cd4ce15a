/** Building and checking IPv4 headers (net/trans/ip.c, net/trans/ip.h). */
module Ip {
  import opened Machine
  import opened Checksum

  const TTL := 64
  const PROTO_ICMP := 1
  const PROTO_UDP := 17

  /** A 32-bit field as two little-endian 16-bit words, and back. */
  function Join(lo: Half, hi: Half): Word { lo + hi * 0x1_0000 }

  lemma JoinHalves(w: Word)
    ensures Join(Low(w), High(w)) == w
  {
  }

  /** The 20-byte header as ten little-endian 16-bit words: total length in network order, and addresses
      in network order; the checksum field is zero. */
  function Header(length: Half, src: Word, dst: Word): (h: seq<Half>)
    ensures |h| == 10
  {
    [0x45, length, 0, 0, 0x140, 0, Low(src), High(src), Low(dst), High(dst)]
  }

  /** The length field that en_ip_output writes for a payload of n bytes. */
  function LengthField(n: nat): Half { Swap((n + 20) % 0x1_0000) }

  /** The header of a packet of n bytes before its checksum is known. */
  function Blank(n: nat, src: Word, dst: Word): (h: seq<Half>)
    ensures |h| == 10
  {
    Header(LengthField(n), Reverse(src), Reverse(dst))
  }

  /** The checksum field is filled with the complement of the folded sum. */
  function Filled(h: seq<Half>): (r: seq<Half>)
    requires |h| == 10
    ensures |r| == 10
  {
    h[5 := 0xffff - Ocksum(h)]
  }

  /** The header that en_ip_output sends. */
  function Sent(n: nat, src: Word, dst: Word): (h: seq<Half>)
    ensures |h| == 10
  {
    Filled(Blank(n, src, dst))
  }

  /** Fields in the order the source fills them; the rest is zero from the memset. */
  method FillFields(ip: array<Half>, length: Half, src: Word, dst: Word)
    requires ip.Length == 10 && forall i :: 0 <= i < 10 ==> ip[i] == 0
    modifies ip
    ensures ip[..] == Header(length, src, dst)
  {
    ip[0] := 5;
    ip[0] := ip[0] + 4 * 16;
    ip[1] := length;
    ip[4] := TTL;
    ip[4] := ip[4] + PROTO_ICMP * 256;
    ip[6], ip[7] := Low(src), High(src);
    ip[8], ip[9] := Low(dst), High(dst);
  }

  /** The part of en_ip_output that builds the header. */
  method BuildHeader(n: nat, src: Word, dst: Word) returns (ip: array<Half>)
    ensures fresh(ip) && ip.Length == 10 && ip[..] == Sent(n, src, dst)
  {
    ip := new Half[10](i => 0);
    FillFields(ip, LengthField(n), Reverse(src), Reverse(dst));
    FillChecksum(ip);
  }

  method FillChecksum(ip: array<Half>)
    requires ip.Length == 10
    modifies ip
    ensures ip[..] == Filled(old(ip[..]))
  {
    assert ip[..10] == ip[..];
    var sum := Ocksum16(ip, 10);
    ip[5] := 0xffff - sum;
  }

  // ---------------------------------------------------------------- input

  datatype Outcome = Dropped | ToIcmp | ToUdp | NoHandler

  function Ihl(w: Half): nat { w % 16 }

  /** What the protocol field selects. */
  function Handler(w: Half): Outcome {
    if w / 256 == PROTO_ICMP then ToIcmp else if w / 256 == PROTO_UDP then ToUdp else NoHandler
  }

  /** A 32-bit field in host order. */
  function HostField(ws: seq<Half>, i: nat): (r: seq<Half>)
    requires i + 1 < |ws|
    ensures |r| == |ws|
  {
    var w := Reverse(Join(ws[i], ws[i + 1]));
    ws[i := Low(w)][i + 1 := High(w)]
  }

  /** The header in host byte order. The checksum field is lost: en_ntohl moves its bytes out of the 16 bits. */
  function ToHost(ws: seq<Half>): (r: seq<Half>)
    requires |ws| >= 10
    ensures |r| == |ws|
  {
    HostField(HostField(ws[1 := Swap(ws[1])][2 := Swap(ws[2])][5 := 0], 6), 8)
  }

  /** en_ntohl moves the bytes of a 16-bit field out of it. */
  lemma ChecksumLost(c: Half)
    ensures Low(Reverse(c)) == 0
  {
    assert High(c) == 0 && Swap(0) == 0;
    ReverseTwice(c);
  }

  /** A packet of len bytes whose header passes the checksum. */
  predicate SumOk(ws: seq<Half>, len: nat)
    requires |ws| >= 10 && 2 * |ws| >= len
  {
    Ihl(ws[0]) * 4 <= len && Ocksum(ws[..Ihl(ws[0]) * 2]) == 0xffff
  }

  /** The packet length once Ethernet padding is taken off. */
  function Trimmed(total: Half, len: nat): nat { if len == 46 && total < 46 then total else len }

  predicate Accepted(ws: seq<Half>, len: nat)
    requires |ws| >= 10 && 2 * |ws| >= len
  {
    SumOk(ws, len) && Ihl(ws[0]) >= 5 && Swap(ws[1]) == Trimmed(Swap(ws[1]), len)
  }

  /** What becomes of a packet. */
  function Judged(ws: seq<Half>, len: nat): Outcome
    requires |ws| >= 10 && 2 * |ws| >= len
  {
    if Accepted(ws, len) then Handler(ws[4]) else Dropped
  }

  /** struct en_net_pkt as the IP layer looks at it: a buffer of 16-bit words and a length in bytes. */
  class Datagram {
    const data: array<Half>
    var len: nat

    constructor (data: array<Half>, len: nat)
      ensures this.data == data && this.len == len
    {
      this.data := data;
      this.len := len;
    }

    method ReverseField(i: nat)
      requires i + 1 < data.Length
      modifies data
      ensures data[..] == HostField(old(data[..]), i)
    {
      var w := Reverse(Join(data[i], data[i + 1]));
      data[i] := Low(w);
      data[i + 1] := High(w);
    }

    /** The conversion to host byte order. */
    method Convert()
      requires data.Length >= 10
      modifies data
      ensures data[..] == ToHost(old(data[..]))
    {
      data[1] := Swap(data[1]);
      data[2] := Swap(data[2]);
      ChecksumLost(data[5]);
      data[5] := Low(Reverse(data[5]));
      assert data[..] == old(data[..])[1 := Swap(old(data[1]))][2 := Swap(old(data[2]))][5 := 0];
      ReverseField(6);
      ReverseField(8);
    }

    /** The header check before conversion. */
    method CheckSum() returns (ok: bool)
      requires data.Length >= 10 && 2 * data.Length >= len
      ensures ok == SumOk(data[..], len)
    {
      var ihl := Ihl(data[0]);
      if ihl * 4 > len {
        return false;
      }
      assert data[..][..ihl * 2] == data[..ihl * 2];
      var sum := Ocksum16(data, ihl * 2);
      return sum == 0xffff;
    }

    /** en_ip_input. The buffer behind the packet holds at least a header, as every Ethernet frame does. */
    method Input() returns (outcome: Outcome)
      requires data.Length >= 10 && 2 * data.Length >= len
      modifies this, data
      ensures outcome == Judged(old(data[..]), old(len))
      ensures data[..] == if SumOk(old(data[..]), old(len)) then ToHost(old(data[..])) else old(data[..])
      ensures len == if SumOk(old(data[..]), old(len)) then Trimmed(Swap(old(data[1])), old(len)) else old(len)
    {
      var ok := CheckSum();
      if !ok {
        return Dropped;
      }
      Convert();
      assert data[1] == Swap(old(data[1])) && data[0] == old(data[0]) && data[4] == old(data[4]);
      if len == 46 && data[1] < 46 {
        len := data[1];
      }
      if Ihl(data[0]) < 5 || data[1] != len {
        return Dropped;
      }
      return Handler(data[4]);
    }
  }

  // ---------------------------------------------------------------- octets

  /** Octet i of a buffer of little-endian words. */
  function OctetAt(ws: seq<Half>, i: nat): (b: nat)
    requires i < 2 * |ws|
    ensures b < 256
  {
    if i % 2 == 0 then ws[i / 2] % 256 else ws[i / 2] / 256
  }

  /** Two octets in network order. */
  function Short(ws: seq<Half>, i: nat): nat
    requires i + 1 < 2 * |ws|
  {
    OctetAt(ws, i) * 256 + OctetAt(ws, i + 1)
  }

  /** Four octets in network order. */
  function Long(ws: seq<Half>, i: nat): nat
    requires i + 3 < 2 * |ws|
  {
    Short(ws, i) * 0x1_0000 + Short(ws, i + 2)
  }

  lemma ShortIsSwap(ws: seq<Half>, i: nat)
    requires i < |ws|
    ensures Short(ws, 2 * i) == Swap(ws[i])
  {
  }

  lemma LongIsReverse(ws: seq<Half>, i: nat)
    requires i + 1 < |ws|
    ensures Long(ws, 2 * i) == Reverse(Join(ws[i], ws[i + 1]))
  {
    ShortIsSwap(ws, i);
    ShortIsSwap(ws, i + 1);
    HostWord(ws[i], ws[i + 1]);
  }

  lemma CheckedFully(h: seq<Half>)
    requires |h| <= 30
    ensures Ocksum(h) == 0xffff <==> FullFold(Sum(h)) == 0xffff
  {
    SumFits(h);
    SingleFoldExact(h);
  }

  lemma HeaderWords(ws: seq<Half>)
    requires |ws| >= 1
    ensures OctetAt(ws, 0) % 16 == Ihl(ws[0]) < 16
  {
  }

  /** A packet is accepted exactly if the header is at least five words long and within the packet, passes the check
      of RFC 1071, section 1, and gives the packet's length, or a smaller one in a packet of the Ethernet minimum. */
  lemma AcceptedExactly(ws: seq<Half>, len: nat)
    requires |ws| >= 10 && 2 * |ws| >= len
    ensures Accepted(ws, len) <==>
      var words := OctetAt(ws, 0) % 16;
      && 5 <= words && 4 * words <= len && FullFold(Sum(ws[..2 * words])) == 0xffff
      && (Short(ws, 2) == len || (len == 46 && Short(ws, 2) < 46))
  {
    HeaderWords(ws);
    ShortIsSwap(ws, 1);
    if Ihl(ws[0]) * 4 <= len {
      CheckedFully(ws[..Ihl(ws[0]) * 2]);
    }
  }

  /** Protocol 1 goes to ICMP, protocol 17 to UDP, any other nowhere; and only accepted packets go anywhere. */
  lemma JudgedExactly(ws: seq<Half>, len: nat)
    requires |ws| >= 10 && 2 * |ws| >= len
    ensures Judged(ws, len) == Dropped <==> !Accepted(ws, len)
    ensures Judged(ws, len) == ToIcmp <==> Accepted(ws, len) && OctetAt(ws, 9) == 1
    ensures Judged(ws, len) == ToUdp <==> Accepted(ws, len) && OctetAt(ws, 9) == 17
    ensures Judged(ws, len) == NoHandler <==> Accepted(ws, len) && OctetAt(ws, 9) != 1 && OctetAt(ws, 9) != 17
  {
  }

  lemma FieldOctets(ws: seq<Half>, i: nat, w: Word)
    requires i + 1 < |ws| && Join(ws[i], ws[i + 1]) == Reverse(w)
    ensures Long(ws, 2 * i) == w
  {
    LongIsReverse(ws, i);
    ReverseTwice(w);
  }

  lemma JoinParts(lo: Half, hi: Half)
    ensures Low(Join(lo, hi)) == lo && High(Join(lo, hi)) == hi
  {
  }

  lemma HostWord(lo: Half, hi: Half)
    ensures Reverse(Join(lo, hi)) == Swap(lo) * 0x1_0000 + Swap(hi)
  {
    JoinParts(lo, hi);
  }

  /** After the conversion lengths, identification and addresses are in host order, the checksum is lost, and all else
      is as it came. */
  lemma HostOrder(ws: seq<Half>)
    requires |ws| >= 10
    ensures var r := ToHost(ws);
            && r[1] == Short(ws, 2) && r[2] == Short(ws, 4) && r[5] == 0
            && Join(r[6], r[7]) == Long(ws, 12) && Join(r[8], r[9]) == Long(ws, 16)
            && r[0] == ws[0] && r[3] == ws[3] && r[4] == ws[4] && r[10..] == ws[10..]
  {
    ShortIsSwap(ws, 1);
    ShortIsSwap(ws, 2);
    LongIsReverse(ws, 6);
    LongIsReverse(ws, 8);
    JoinHalves(Reverse(Join(ws[6], ws[7])));
    JoinHalves(Reverse(Join(ws[8], ws[9])));
  }

  // ---------------------------------------------------------------- output, then input

  /** The one addition of the fold carries out of 16 bits. */
  predicate Carries(sum: nat) { sum % 0x1_0000 + sum / 0x1_0000 > 0xffff }

  lemma {:induction false} SumUpdate(ws: seq<Half>, i: nat, c: Half)
    requires i < |ws| && ws[i] == 0
    ensures Sum(ws[i := c]) == Sum(ws) + c
  {
    var n := |ws| - 1;
    if i < n {
      assert ws[i := c][..n] == ws[..n][i := c];
      SumUpdate(ws[..n], i, c);
    } else {
      assert ws[i := c][..n] == ws[..n];
    }
  }

  /** The complement of a folded sum completes it to a multiple of 0xffff exactly if the fold did not carry. */
  lemma Completes(sum: nat)
    requires sum <= 10 * 0xffff
    ensures Divisible(sum + (0xffff - Fold(sum))) <==> !Carries(sum)
  {
    var lo, hi := sum % 0x1_0000, sum / 0x1_0000;
    if lo + hi <= 0xffff {
      assert sum + (0xffff - Fold(sum)) == 0xffff * (hi + 1);
    } else {
      assert sum + (0xffff - Fold(sum)) == 0xffff * (hi + 2) + 1;
    }
  }

  /** A filled header passes the checksum exactly when adding the halves of its sum does not carry out of
      16 bits: the second fold is missing. */
  lemma FilledPassesExactly(h: seq<Half>)
    requires |h| == 10 && h[5] == 0 && h[0] > 0
    ensures Ocksum(Filled(h)) == 0xffff <==> !Carries(Sum(h))
  {
    SumBound(h);
    SumFits(h);
    SumFits(Filled(h));
    SumUpdate(h, 5, 0xffff - Ocksum(h));
    Completes(Sum(h));
    SingleFoldExact(Filled(h));
    SumBound(Filled(h));
    assert Filled(h)[0] == h[0];
  }

  lemma SentFields(n: nat, src: Word, dst: Word)
    ensures var h := Sent(n, src, dst);
            h[0] == 0x45 && h[1] == LengthField(n) && h[4] == 0x140
            && Join(h[6], h[7]) == Reverse(src) && Join(h[8], h[9]) == Reverse(dst)
  {
    JoinHalves(Reverse(src));
    JoinHalves(Reverse(dst));
  }

  /** The header on the wire (section 3.1 of RFC 791): version 4 and five words, no service type, the total length, no
      identification, flags or offset, 64 hops, ICMP, and both addresses. */
  lemma WireHeader(n: nat, src: Word, dst: Word)
    ensures var h := Sent(n, src, dst);
            && OctetAt(h, 0) == 0x45 && OctetAt(h, 1) == 0 && Short(h, 2) == (n + 20) % 0x1_0000
            && Long(h, 4) == 0 && OctetAt(h, 8) == 64 && OctetAt(h, 9) == 1
            && Long(h, 12) == src && Long(h, 16) == dst
  {
    var h := Sent(n, src, dst);
    SentFields(n, src, dst);
    SwapTwice((n + 20) % 0x1_0000);
    assert Short(h, 2) == Swap(h[1]);
    FieldOctets(h, 6, src);
    FieldOctets(h, 8, dst);
  }

  lemma CheckedAs(h: seq<Half>, total: Half, payload: seq<Half>, len: nat, sumOk: bool)
    requires |h| == 10 && h[0] == 0x45 && h[1] == Swap(total) && len >= 20 && 2 * |payload| + 20 >= len
    requires sumOk == (Ocksum(h) == 0xffff)
    ensures Accepted(h + payload, len) <==> sumOk && total == Trimmed(total, len)
    ensures Swap(h[1]) == total
  {
    SwapTwice(total);
    SumOkAs(h, payload, len);
    assert Ihl(0x45) == 5;
  }

  lemma SumOkAs(h: seq<Half>, payload: seq<Half>, len: nat)
    requires |h| == 10 && h[0] == 0x45 && len >= 20 && 2 * |payload| + 20 >= len
    ensures SumOk(h + payload, len) <==> Ocksum(h) == 0xffff
    ensures (h + payload)[0] == 0x45 && (h + payload)[1] == h[1]
  {
    assert (h + payload)[..10] == h;
  }

  lemma LengthMatches(len: nat)
    ensures len % 0x1_0000 == Trimmed(len % 0x1_0000, len) <==> len < 0x1_0000
  {
  }

  /** What en_ip_output sends, en_ip_input accepts exactly when the fold of the header sum did not carry
      and the total length fits its 16-bit field. */
  lemma OutputThenInput(n: nat, src: Word, dst: Word, payload: seq<Half>)
    requires 2 * |payload| >= n
    ensures Accepted(Sent(n, src, dst) + payload, n + 20) <==> !Carries(Sum(Blank(n, src, dst))) && n + 20 < 0x1_0000
    ensures Judged(Sent(n, src, dst) + payload, n + 20)
         == if !Carries(Sum(Blank(n, src, dst))) && n + 20 < 0x1_0000 then ToIcmp else Dropped
  {
    SentFields(n, src, dst);
    SentChecked(n, src, dst, payload, n + 20, (n + 20) % 0x1_0000);
    LengthMatches(n + 20);
  }

  lemma SentChecked(n: nat, src: Word, dst: Word, payload: seq<Half>, len: nat, total: Half)
    requires len >= 20 && 2 * |payload| + 20 >= len && total == (n + 20) % 0x1_0000
    ensures Swap(Sent(n, src, dst)[1]) == total
    ensures Accepted(Sent(n, src, dst) + payload, len) <==>
      !Carries(Sum(Blank(n, src, dst)))
      && total == Trimmed(total, len)
  {
    SentFields(n, src, dst);
    FilledPassesExactly(Blank(n, src, dst));
    CheckedAs(Sent(n, src, dst), total, payload, len, !Carries(Sum(Blank(n, src, dst))));
  }

  /** A packet padded to the Ethernet minimum is accepted alike, and gets its own length back. */
  lemma PaddedOutput(n: nat, src: Word, dst: Word, rest: seq<Half>)
    requires n + 20 < 46 && |rest| >= 13
    ensures Accepted(Sent(n, src, dst) + rest, 46) <==> !Carries(Sum(Blank(n, src, dst)))
    ensures Judged(Sent(n, src, dst) + rest, 46) == if Carries(Sum(Blank(n, src, dst))) then Dropped else ToIcmp
    ensures Trimmed(Swap(Sent(n, src, dst)[1]), 46) == n + 20
  {
    SentFields(n, src, dst);
    SmallMod(n + 20);
    SentChecked(n, src, dst, rest, 46, n + 20);
  }

  /** Addresses come out in host order as they went in. */
  lemma AddressesBack(n: nat, src: Word, dst: Word)
    ensures var r := ToHost(Sent(n, src, dst));
            Join(r[6], r[7]) == src && Join(r[8], r[9]) == dst
  {
    SentFields(n, src, dst);
    ReverseTwice(src);
    ReverseTwice(dst);
    JoinHalves(src);
    JoinHalves(dst);
  }

  lemma SmallMod(n: nat)
    requires n < 0x1_0000
    ensures n % 0x1_0000 == n
  {
  }

  /** The sum of a header, word by word. */
  lemma SumOfHeader(length: Half, src: Word, dst: Word)
    ensures Sum(Header(length, src, dst)) == 0x185 + length + Low(src) + High(src) + Low(dst) + High(dst)
  {
    var h := Header(length, src, dst);
    assert Sum(h[..0]) == 0 && Sum(h[..1]) == 0x45;
    SumNext(h, 1);
    SumNext(h, 2);
    SumNext(h, 3);
    SumNext(h, 4);
    SumNext(h, 5);
    SumNext(h, 6);
    SumNext(h, 7);
    SumNext(h, 8);
    SumNext(h, 9);
    assert h[..10] == h;
  }

  lemma SumNext(h: seq<Half>, i: nat)
    requires i < |h|
    ensures Sum(h[..i + 1]) == Sum(h[..i]) + h[i]
  {
    assert h[..i + 1][..i] == h[..i];
  }

  lemma ReverseParts(w: Word, lo: Half, hi: Half, lo': Half, hi': Half)
    requires w == lo + hi * 0x1_0000 && lo' == Swap(lo) && hi' == Swap(hi)
    ensures Reverse(w) == lo' * 0x1_0000 + hi'
  {
    OnlyHalves(w, lo, hi);
  }

  lemma OnlyHalves(w: Word, lo: Half, hi: Half)
    requires w == lo + hi * 0x1_0000
    ensures Low(w) == lo && High(w) == hi
  {
  }

  lemma ExampleFields()
    ensures Reverse(0xC0A8_FA57) == 0x57FA_A8C0 && Reverse(0xC0A8_0001) == 0x0100_A8C0 && LengthField(64) == 0x5400
  {
    ReverseParts(0xC0A8_FA57, 0xFA57, 0xC0A8, 0x57FA, 0xA8C0);
    ReverseParts(0xC0A8_0001, 0x0001, 0xC0A8, 0x0100, 0xA8C0);
  }

  lemma ExampleCarries()
    ensures Carries(Sum(Header(0x5400, 0x57FA_A8C0, 0x0100_A8C0)))
  {
    SumOfHeader(0x5400, 0x57FA_A8C0, 0x0100_A8C0);
  }

  /** 64 bytes from 192.168.250.87 to 192.168.0.1 carry: en_ip_input drops the packet en_ip_output sends. */
  lemma DroppedExample(payload: seq<Half>)
    requires |payload| >= 32
    ensures !Accepted(Sent(64, 0xC0A8_FA57, 0xC0A8_0001) + payload, 84)
  {
    ExampleFields();
    ExampleCarries();
    OutputThenInput(64, 0xC0A8_FA57, 0xC0A8_0001, payload);
  }
}
