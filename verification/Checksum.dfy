/** The Internet checksum of `packetSpoofing/checksum.c` (sections 1 and 2 of
    RFC 1071) and its TCP pseudo-header form (section 3.1 of RFC 9293).

    `le` is the byte order of the machine: `*w` reads two bytes in that order. */
module Checksum {
  import opened Basics

  type Word = w: int | 0 <= w < 65536

  const INT_MAX: int := 0x7fff_ffff

  function WordOf(a: Byte, b: Byte, le: bool): Word {
    if le then a + 256 * b else 256 * a + b
  }

  /** The 16-bit words of a buffer; an odd last byte is followed by a zero byte. */
  function Words(buf: seq<Byte>, le: bool): (ws: seq<Word>)
    ensures |ws| == (|buf| + 1) / 2
  {
    if |buf| == 0 then []
    else if |buf| == 1 then [WordOf(buf[0], 0, le)]
    else [WordOf(buf[0], buf[1], le)] + Words(buf[2..], le)
  }

  /** Each pair of bytes makes a word, the first byte being the high one on a
      big-endian machine; the byte that follows an odd last one is zero. */
  lemma {:induction false} WordAt(buf: seq<Byte>, le: bool, i: nat)
    requires i < (|buf| + 1) / 2
    ensures var first: int, second: int := buf[2 * i], if 2 * i + 1 < |buf| then buf[2 * i + 1] else 0;
      Words(buf, le)[i] == if le then first + 256 * second else 256 * first + second
  {
    if i > 0 {
      assert Words(buf, le)[i] == Words(buf[2..], le)[i - 1];
      WordAt(buf[2..], le, i - 1);
    }
  }

  function Sum(ws: seq<Word>): nat {
    if ws == [] then 0 else ws[0] + Sum(ws[1..])
  }

  /** One's complement addition of 16-bit words: the carry is added back. */
  function OnesAdd(a: Word, b: Word): Word {
    if a + b >= 65536 then a + b - 65535 else a + b
  }

  function OnesSum(ws: seq<Word>): Word {
    if ws == [] then 0 else OnesAdd(ws[0], OnesSum(ws[1..]))
  }

  /** The two fold lines and the truncation to 16 bits, for a non-negative sum. */
  function Fold(sum: nat): Word {
    var once := sum / 65536 + sum % 65536;
    (once + once / 65536) % 65536
  }

  function Checksum(buf: seq<Byte>, le: bool): Word {
    65535 - OnesSum(Words(buf, le))
  }

  // ---------- arithmetic modulo 65535 ----------

  /** The value of a sum in one's complement arithmetic: 0 only for 0. */
  function Canon(x: nat): Word {
    if x == 0 then 0 else 1 + (x - 1) % 65535
  }

  lemma CanonAdd(a: Word, x: nat)
    ensures OnesAdd(a, Canon(x)) == Canon(a + x)
  {
    if x > 0 {
      var q, r := (x - 1) / 65535, (x - 1) % 65535;
      assert x == 65535 * q + r + 1;
      CanonOf(a + r + 1, q);
      assert a + x == 65535 * q + (a + r + 1);
      if a + r + 1 >= 65536 {
        CanonOf(a + r + 1 - 65535, q + 1);
      }
    }
  }

  lemma CanonOf(y: nat, q: nat)
    requires y > 0
    ensures Canon(65535 * q + y) == Canon(y)
  {
    assert (65535 * q + (y - 1)) % 65535 == (y - 1) % 65535;
  }

  lemma {:induction false} OnesSumIsCanon(ws: seq<Word>)
    ensures OnesSum(ws) == Canon(Sum(ws))
  {
    if ws != [] {
      OnesSumIsCanon(ws[1..]);
      CanonAdd(ws[0], Sum(ws[1..]));
    }
  }

  lemma FoldIsCanon(sum: nat)
    requires sum <= INT_MAX
    ensures Fold(sum) == Canon(sum)
  {
    var h, l := sum / 65536, sum % 65536;
    assert sum == 65535 * h + (h + l) && h <= 32767;
    if h + l > 0 {
      CanonOf(h + l, h);
    }
    if h + l < 65536 {
      assert Fold(sum) == h + l == Canon(h + l);
    } else {
      assert (h + l) / 65536 == 1 && Fold(sum) == h + l - 65535 == Canon(h + l);
    }
  }

  /** Two fold lines give the full end-around-carry sum of any words whose
      ordinary sum fits a signed 32-bit int. */
  lemma FoldGivesOnesSum(ws: seq<Word>)
    requires Sum(ws) <= INT_MAX
    ensures Fold(Sum(ws)) == OnesSum(ws)
  {
    FoldIsCanon(Sum(ws));
    OnesSumIsCanon(ws);
  }

  // ---------- the 32-bit accumulator ----------

  lemma {:induction false} SumBound(ws: seq<Word>)
    ensures Sum(ws) <= 65535 * |ws|
  {
    if ws != [] {
      SumBound(ws[1..]);
    }
  }

  /** Up to 65537 bytes the accumulator cannot overflow: the odd last byte is small. */
  lemma {:induction false} SumBoundOdd(buf: seq<Byte>, le: bool)
    requires |buf| % 2 == 1
    ensures le ==> Sum(Words(buf, le)) <= 65535 * (|buf| / 2) + 255
    ensures Sum(Words(buf, le)) <= 65535 * (|buf| / 2) + 65280
  {
    if |buf| > 1 {
      assert Words(buf, le)[1..] == Words(buf[2..], le);
      SumBoundOdd(buf[2..], le);
    }
  }

  lemma NoOverflow(buf: seq<Byte>, le: bool)
    requires |buf| <= 65536 || (le && |buf| == 65537)
    ensures Sum(Words(buf, le)) <= INT_MAX
  {
    SumBound(Words(buf, le));
    if |buf| == 65537 { SumBoundOdd(buf, le); }
  }

  function OddOnes(odd: bool, le: bool): nat {
    if !odd then 0 else if le then 255 else 65280
  }

  /** The sum of a buffer of `2 * h` or `2 * h + 1` bytes 255. */
  lemma {:induction false} AllOnes(buf: seq<Byte>, h: nat, odd: bool, le: bool)
    requires |buf| == 2 * h + (if odd then 1 else 0) && forall i | 0 <= i < |buf| :: buf[i] == 255
    ensures Sum(Words(buf, le)) == 65535 * h + OddOnes(odd, le)
  {
    if h > 0 {
      AllOnes(buf[2..], h - 1, odd, le);
      assert Words(buf, le)[1..] == Words(buf[2..], le);
    } else if odd {
      assert Words(buf, le) == [WordOf(255, 0, le)];
      assert Words(buf, le)[1..] == [];
    }
  }

  /** The lengths for which no buffer can overflow the accumulator: up to 65536
      bytes, and 65537 on a little-endian machine, where the odd byte is small. */
  lemma OverflowExactlyWhen(n: nat, le: bool)
    ensures (forall buf: seq<Byte> | |buf| == n :: Sum(Words(buf, le)) <= INT_MAX)
      <==> n <= 65536 || (le && n == 65537)
  {
    if n <= 65536 || (le && n == 65537) {
      forall buf: seq<Byte> | |buf| == n ensures Sum(Words(buf, le)) <= INT_MAX {
        NoOverflow(buf, le);
      }
    } else {
      var ones: seq<Byte> := seq(n, i => 255);
      AllOnes(ones, n / 2, n % 2 == 1, le);
      assert |ones| == n && Sum(Words(ones, le)) > INT_MAX;
    }
  }

  /** The sum of the words from position `w` on. */
  function Rest(buf: seq<Byte>, w: nat, le: bool): nat
    requires w <= |buf|
  {
    Sum(Words(buf[w..], le))
  }

  lemma RestStep(buf: seq<Byte>, w: nat, le: bool)
    requires w + 1 < |buf|
    ensures Rest(buf, w, le) == WordOf(buf[w], buf[w + 1], le) + Rest(buf, w + 2, le)
  {
    assert buf[w..][2..] == buf[w + 2..];
    assert Words(buf[w..], le)[1..] == Words(buf[w + 2..], le);
  }

  lemma RestLast(buf: seq<Byte>, w: nat, le: bool)
    requires w <= |buf| <= w + 1
    ensures Rest(buf, w, le) == if w < |buf| then WordOf(buf[w], 0, le) else 0
  {
    if w < |buf| {
      var ws := Words(buf[w..], le);
      assert ws == [WordOf(buf[w], 0, le)];
      assert Sum(ws) == ws[0] + Sum(ws[1..]);
    }
  }

  /** `in_cksum`: `peak` is the largest value the accumulator takes; when it fits,
      the result is the complement of the one's complement sum. */
  method InCksum(buf: seq<Byte>, le: bool) returns (ck: Word, ghost peak: nat)
    ensures Sum(Words(buf, le)) <= INT_MAX ==> ck == Checksum(buf, le)
    ensures peak == Sum(Words(buf, le))
  {
    var w, nleft := 0, |buf|;
    var sum: nat := 0;
    ghost var total := Sum(Words(buf, le));
    assert buf[0..] == buf;
    while nleft > 1
      invariant 0 <= w <= |buf| && nleft == |buf| - w
      invariant sum + Rest(buf, w, le) == total
    {
      RestStep(buf, w, le);
      sum := sum + WordOf(buf[w], buf[w + 1], le);
      w := w + 2;
      nleft := nleft - 2;
    }
    RestLast(buf, w, le);
    if nleft == 1 {
      var temp := WordOf(buf[w], 0, le);
      sum := sum + temp;
    }
    peak := sum;
    sum := sum / 65536 + sum % 65536;
    sum := sum + sum / 65536;
    ck := 65535 - sum % 65536;
    assert ck == 65535 - Fold(peak);
    if peak <= INT_MAX {
      FoldGivesOnesSum(Words(buf, le));
    }
  }

  // ---------- byte order ----------

  function Swap(w: Word): Word {
    256 * (w % 256) + w / 256
  }

  lemma {:induction false} WordsSwap(buf: seq<Byte>)
    ensures forall i | 0 <= i < |Words(buf, true)| :: Words(buf, true)[i] == Swap(Words(buf, false)[i])
  {
    if |buf| > 1 {
      WordsSwap(buf[2..]);
      assert Words(buf, true)[1..] == Words(buf[2..], true);
      assert Words(buf, false)[1..] == Words(buf[2..], false);
      forall i | 0 <= i < |Words(buf, true)| ensures Words(buf, true)[i] == Swap(Words(buf, false)[i]) {
        if i > 0 {
          assert Words(buf, true)[i] == Words(buf[2..], true)[i - 1];
        }
      }
    }
  }

  /** Swapping the bytes multiplies by 256 modulo 65535. */
  lemma {:induction false} SumSwap(ws: seq<Word>, vs: seq<Word>) returns (q: nat)
    requires |ws| == |vs| && forall i | 0 <= i < |ws| :: vs[i] == Swap(ws[i])
    ensures 256 * Sum(ws) == Sum(vs) + 65535 * q
    ensures Sum(ws) == 0 <==> Sum(vs) == 0
  {
    if ws == [] {
      q := 0;
    } else {
      var k := SumSwap(ws[1..], vs[1..]);
      var h, l := ws[0] / 256, ws[0] % 256;
      assert ws[0] == 256 * h + l && vs[0] == 256 * l + h;
      q := k + h;
    }
  }

  lemma CanonSwap(x: nat, y: nat, q: nat)
    requires 256 * x == y + 65535 * q && (x == 0 <==> y == 0)
    ensures Canon(y) == Swap(Canon(x))
  {
    if x > 0 {
      var k, r := (x - 1) / 65535, (x - 1) % 65535;
      var c := r + 1;
      assert x == 65535 * k + c && Canon(x) == c;
      var h, l := c / 256, c % 256;
      assert c == 256 * h + l && Swap(c) == 256 * l + h;
      assert 256 * c == 65535 * h + Swap(c);
      var d := 256 * k + h - q;
      assert y == 65535 * d + Swap(c);
      SwapPositive(c);
      assert d >= 0;
      CanonOf(Swap(c), d);
    }
  }

  lemma SwapPositive(c: Word)
    requires 1 <= c
    ensures 1 <= Swap(c) <= 65535
  {
  }

  lemma SwapComplement(w: Word)
    ensures Swap(65535 - w) == 65535 - Swap(w)
  {
  }

  /** Section 2 of RFC 1071: summing in the other byte order gives the same sum
      with its bytes swapped, so both machines store the same checksum bytes. */
  lemma ByteOrderIndependent(buf: seq<Byte>)
    ensures OnesSum(Words(buf, true)) == Swap(OnesSum(Words(buf, false)))
    ensures Checksum(buf, true) == Swap(Checksum(buf, false))
  {
    WordsSwap(buf);
    OnesSumSwap(Words(buf, false), Words(buf, true));
    SwapComplement(OnesSum(Words(buf, false)));
  }

  lemma OnesSumSwap(ws: seq<Word>, vs: seq<Word>)
    requires |ws| == |vs| && forall i | 0 <= i < |ws| :: vs[i] == Swap(ws[i])
    ensures OnesSum(vs) == Swap(OnesSum(ws))
  {
    var q := SumSwap(ws, vs);
    OnesSumIsCanon(ws);
    OnesSumIsCanon(vs);
    CanonSwap(Sum(ws), Sum(vs), q);
  }

  // ---------- verification ----------

  function ByteAt(ck: Word, first: bool, le: bool): Byte {
    if first == le then ck % 256 else ck / 256
  }

  /** The buffer with `ck` stored in the 16-bit field at `at`. */
  function Stored(buf: seq<Byte>, at: nat, ck: Word, le: bool): (r: seq<Byte>)
    requires at + 2 <= |buf|
    ensures |r| == |buf|
  {
    buf[at := ByteAt(ck, true, le)][at + 1 := ByteAt(ck, false, le)]
  }

  lemma {:induction false} SumStored(buf: seq<Byte>, at: nat, ck: Word, le: bool)
    requires at % 2 == 0 && at + 2 <= |buf| && buf[at] == 0 && buf[at + 1] == 0
    ensures Sum(Words(Stored(buf, at, ck, le), le)) == Sum(Words(buf, le)) + ck
    decreases |buf|
  {
    var buf' := Stored(buf, at, ck, le);
    assert Words(buf, le)[1..] == Words(buf[2..], le);
    assert Words(buf', le)[1..] == Words(buf'[2..], le);
    if at == 0 {
      assert buf'[2..] == buf[2..];
    } else {
      assert buf'[2..] == Stored(buf[2..], at - 2, ck, le);
      SumStored(buf[2..], at - 2, ck, le);
    }
  }

  lemma CanonComplement(s: nat)
    ensures Canon(s + (65535 - Canon(s))) == 65535
  {
    if s > 0 {
      var q, r := (s - 1) / 65535, (s - 1) % 65535;
      assert s == 65535 * q + r + 1;
      assert s + (65535 - Canon(s)) == 65535 * q + 65535;
      CanonOf(65535, q);
    }
  }

  /** Storing the checksum of a buffer in its zero checksum field makes the
      checksum of the whole 0. */
  lemma StoredVerifies(buf: seq<Byte>, at: nat, le: bool)
    requires at % 2 == 0 && at + 2 <= |buf| && buf[at] == 0 && buf[at + 1] == 0
    ensures Checksum(Stored(buf, at, Checksum(buf, le), le), le) == 0
  {
    var ck := Checksum(buf, le);
    var buf' := Stored(buf, at, ck, le);
    SumStored(buf, at, ck, le);
    OnesSumIsCanon(Words(buf, le));
    OnesSumIsCanon(Words(buf', le));
    CanonComplement(Sum(Words(buf, le)));
  }

  // ---------- TCP ----------

  const IP_HEADER: nat := 20
  const PSEUDO: nat := 12
  const TCP_SUM: nat := 16
  const PSEUDO_BUFFER: nat := 1532
  const IPPROTO_TCP: Byte := 6

  function TotalLength(ip: seq<Byte>): nat
    requires |ip| >= IP_HEADER
  {
    var high: int, low: int := ip[2], ip[3];
    256 * high + low
  }

  /** The packet holds its segment, and the segment fits `struct pseudo_tcp`. */
  predicate Fits(ip: seq<Byte>) {
    && |ip| >= IP_HEADER
    && IP_HEADER <= TotalLength(ip) <= |ip|
    && TotalLength(ip) - IP_HEADER + PSEUDO <= PSEUDO_BUFFER
  }

  /** Section 3.1 of RFC 9293: addresses, zero, protocol, TCP length, segment. */
  function PseudoSegment(ip: seq<Byte>): (r: seq<Byte>)
    requires Fits(ip)
    ensures |r| == PSEUDO + TotalLength(ip) - IP_HEADER
  {
    var len := TotalLength(ip) - IP_HEADER;
    ip[12..16] + ip[16..20] + [0, IPPROTO_TCP, len / 256, len % 256] + ip[IP_HEADER..IP_HEADER + len]
  }

  lemma {:induction false} SumJoin(a: seq<Byte>, b: seq<Byte>, le: bool)
    requires |a| % 2 == 0
    ensures Sum(Words(a + b, le)) == Sum(Words(a, le)) + Sum(Words(b, le))
    decreases |a|
  {
    if a == [] {
      assert a + b == b;
    } else {
      assert (a + b)[2..] == a[2..] + b;
      assert Words(a + b, le)[1..] == Words(a[2..] + b, le) && Words(a, le)[1..] == Words(a[2..], le);
      SumJoin(a[2..], b, le);
    }
  }

  /** What is added up, on a big-endian machine: the words of both addresses, the
      protocol number of TCP, the length of the segment, and its words. */
  ghost function TcpSum(ip: seq<Byte>, len: nat): nat
    requires IP_HEADER + len <= |ip|
  {
    Sum(Words(ip[12..20], false)) + 6 + len + Sum(Words(ip[20..20 + len], false))
  }

  lemma {:induction false} TcpSumIs(ip: seq<Byte>, len: nat)
    requires Fits(ip) && len == TotalLength(ip) - IP_HEADER
    ensures Sum(Words(PseudoSegment(ip), false)) == TcpSum(ip, len)
    ensures var big := 65535 - Canon(TcpSum(ip, len));
      Checksum(PseudoSegment(ip), false) == big && Checksum(PseudoSegment(ip), true) == Swap(big)
  {
    var addresses, rest := ip[12..20], [0, IPPROTO_TCP, len / 256, len % 256];
    var segment := ip[IP_HEADER..IP_HEADER + len];
    assert PseudoSegment(ip) == addresses + (rest + segment);
    SumJoin(addresses, rest + segment, false);
    SumJoin(rest, segment, false);
    MiddleSum(len);
    OnesSumIsCanon(Words(PseudoSegment(ip), false));
    ByteOrderIndependent(PseudoSegment(ip));
  }

  lemma OneWord(a: Byte, b: Byte)
    ensures Sum(Words([a, b], false)) == WordOf(a, b, false)
  {
    var ws := Words([a, b], false);
    assert [a, b][2..] == [] && ws[1..] == [];
    assert Sum(ws) == ws[0] + Sum(ws[1..]);
  }

  lemma MiddleSum(len: nat)
    requires len < 65536
    ensures Sum(Words([0, IPPROTO_TCP, len / 256, len % 256], false)) == 6 + len
  {
    assert [0, IPPROTO_TCP, len / 256, len % 256] == [0, IPPROTO_TCP] + [len / 256, len % 256];
    SumJoin([0, IPPROTO_TCP], [len / 256, len % 256], false);
    OneWord(0, IPPROTO_TCP);
    OneWord(len / 256, len % 256);
  }

  /** What the buffer holds before it is summed. */
  lemma PseudoIs(ip: seq<Byte>, buf: seq<Byte>, le: bool)
    requires Fits(ip)
    requires var len := TotalLength(ip) - IP_HEADER;
      buf == ip[12..20] + [0, IPPROTO_TCP, len / 256, len % 256] + ip[IP_HEADER..IP_HEADER + len]
    ensures buf == PseudoSegment(ip) && Sum(Words(buf, le)) <= INT_MAX
    ensures var high: int, low: int := ip[2], ip[3];
      var big := 65535 - Canon(TcpSum(ip, 256 * high + low - 20));
      Checksum(buf, le) == if le then Swap(big) else big
  {
    assert ip[12..20] == ip[12..16] + ip[16..20];
    assert buf == PseudoSegment(ip);
    NoOverflow(buf, le);
    TcpSumIs(ip, TotalLength(ip) - IP_HEADER);
  }

  method CalculateTcpChecksum(ip: seq<Byte>, le: bool) returns (ck: Word)
    requires Fits(ip)
    ensures ck == Checksum(PseudoSegment(ip), le)
    ensures var high: int, low: int := ip[2], ip[3];
      var big := 65535 - Canon(TcpSum(ip, 256 * high + low - 20));
      ck == if le then Swap(big) else big
  {
    var tcpLen := TotalLength(ip) - IP_HEADER;
    var p := new Byte[PSEUDO_BUFFER](_ => 0);
    for i := 0 to 8
      invariant p[..i] == ip[12..12 + i]
    {
      p[i] := ip[12 + i];
    }
    p[8] := 0;
    p[9] := IPPROTO_TCP;
    p[10] := tcpLen / 256;
    p[11] := tcpLen % 256;
    ghost var header := ip[12..20] + [0, IPPROTO_TCP, tcpLen / 256, tcpLen % 256];
    assert p[..8] == ip[12..20];
    assert p[..PSEUDO] == p[..8] + [0, IPPROTO_TCP, tcpLen / 256, tcpLen % 256];
    for i := 0 to tcpLen
      invariant p[..PSEUDO + i] == header + ip[IP_HEADER..IP_HEADER + i]
    {
      p[PSEUDO + i] := ip[IP_HEADER + i];
      assert p[..PSEUDO + i + 1] == p[..PSEUDO + i] + [ip[IP_HEADER + i]];
    }
    PseudoIs(ip, p[..PSEUDO + tcpLen], le);
    var sum, _ := InCksum(p[..PSEUDO + tcpLen], le);
    ck := sum;
  }

  /** A segment whose checksum field was zero verifies once the result is stored in it. */
  lemma TcpVerifies(ip: seq<Byte>, le: bool)
    requires Fits(ip) && TotalLength(ip) >= IP_HEADER + TCP_SUM + 2
    requires ip[IP_HEADER + TCP_SUM] == 0 && ip[IP_HEADER + TCP_SUM + 1] == 0
    ensures var ip' := Stored(ip, IP_HEADER + TCP_SUM, Checksum(PseudoSegment(ip), le), le);
      Fits(ip') && Checksum(PseudoSegment(ip'), le) == 0
  {
    var seg := PseudoSegment(ip);
    var ck := Checksum(seg, le);
    var ip' := Stored(ip, IP_HEADER + TCP_SUM, ck, le);
    assert PseudoSegment(ip') == Stored(seg, PSEUDO + TCP_SUM, ck, le);
    StoredVerifies(seg, PSEUDO + TCP_SUM, le);
  }
}
