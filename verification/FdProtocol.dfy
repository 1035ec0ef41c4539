/** The two-byte-trailer protocol of `lib/senderr.c`, `lib/sendfd.c`,
    `lib/writen.c` and `lib/recvfd.c`: a message without null bytes, then a null
    byte and a status byte; status 0 comes with a file descriptor. */
module FdProtocol {
  import opened Basics

  const INT_MIN: int := -0x8000_0000

  ghost predicate NullFree(msg: seq<Byte>) {
    forall i | 0 <= i < |msg| :: msg[i] != 0
  }

  // ---------- writen ----------

  /** The kernel answers the k-th `write` by -1, 0 or a count, which is at most
      what was asked for. */
  function Answer(kernel: nat -> int, k: nat, asked: nat): (n: int)
    ensures n <= asked
  {
    if kernel(k) > asked then asked else if kernel(k) < -1 then -1 else kernel(k)
  }

  /** How many of `n` bytes the calls from the k-th on get through. */
  function Through(n: nat, kernel: nat -> int, k: nat): (sent: nat)
    ensures sent <= n
    decreases n
  {
    if n == 0 then 0
    else
      var w := Answer(kernel, k, n);
      if w <= 0 then 0 else w + Through(n - w, kernel, k + 1)
  }

  /** How many of `n` bytes are left before the k-th write. */
  function LeftBefore(n: nat, kernel: nat -> int, k: nat): (left: nat)
    ensures left <= n
  {
    if k == 0 then n
    else
      var left := LeftBefore(n, kernel, k - 1);
      var w := Answer(kernel, k - 1, left);
      if w <= 0 then left else left - w
  }

  /** The first `k` writes are needed and got something through. */
  ghost predicate GoesOn(n: nat, kernel: nat -> int, k: nat) {
    forall j | 0 <= j < k :: LeftBefore(n, kernel, j) > 0 && Answer(kernel, j, LeftBefore(n, kernel, j)) > 0
  }

  /** Then nothing is left or the next write is answered by 0 or -1. */
  ghost predicate StopsAt(n: nat, kernel: nat -> int, k: nat) {
    && GoesOn(n, kernel, k)
    && (LeftBefore(n, kernel, k) > 0 ==> Answer(kernel, k, LeftBefore(n, kernel, k)) <= 0)
  }

  /** `sent` of `n` bytes go through: all of them, unless some write made is
      answered by 0 or -1, and then exactly those accepted before it. */
  ghost predicate GoesThrough(n: nat, kernel: nat -> int, sent: nat) {
    && (exists k :: StopsAt(n, kernel, k) && sent == n - LeftBefore(n, kernel, k))
    && ((forall k: nat :: kernel(k) > 0) ==> sent == n)
  }

  lemma StopGoesThrough(n: nat, kernel: nat -> int, k: nat)
    requires StopsAt(n, kernel, k)
    ensures GoesThrough(n, kernel, n - LeftBefore(n, kernel, k))
  {
  }

  /** One write: the call goes on with what is left, or it ends. */
  lemma {:induction false} OneWrite(n: nat, kernel: nat -> int, k: nat)
    requires GoesOn(n, kernel, k) && LeftBefore(n, kernel, k) > 0
    ensures var left := LeftBefore(n, kernel, k);
      var w := Answer(kernel, k, left);
      if w > 0 then
        && GoesOn(n, kernel, k + 1) && LeftBefore(n, kernel, k + 1) == left - w
        && Through(left, kernel, k) == w + Through(left - w, kernel, k + 1)
      else GoesThrough(n, kernel, n - left) && Through(left, kernel, k) == 0
  {
    if Answer(kernel, k, LeftBefore(n, kernel, k)) <= 0 {
      StopGoesThrough(n, kernel, k);
    }
  }

  method Writen(data: seq<Byte>, kernel: nat -> int) returns (ret: int, sent: seq<Byte>)
    ensures sent == data[..Through(|data|, kernel, 0)]
    ensures sent <= data && GoesThrough(|data|, kernel, |sent|)
    ensures (forall k: nat :: kernel(k) > 0) ==> ret == |data| && sent == data
    ensures ret == -1 <==> |data| > 0 && Answer(kernel, 0, |data|) < 0
    ensures ret != -1 ==> ret == |sent|
  {
    var n := |data|;
    var nleft, ptr, calls: nat := n, 0, 0;
    while nleft > 0
      invariant 0 <= nleft <= n && ptr == n - nleft && nleft == LeftBefore(n, kernel, calls)
      invariant GoesOn(n, kernel, calls)
      invariant ptr + Through(nleft, kernel, calls) == Through(n, kernel, 0)
      invariant nleft == n ==> calls == 0
      invariant nleft < n ==> Answer(kernel, 0, n) > 0
      decreases nleft
    {
      var nwritten := Answer(kernel, calls, nleft);
      OneWrite(n, kernel, calls);
      calls := calls + 1;
      if nwritten < 0 {
        if nleft == n {
          return -1, data[..0];
        }
        break;
      } else if nwritten == 0 {
        break;
      }
      nleft := nleft - nwritten;
      ptr := ptr + nwritten;
    }
    if nleft == 0 {
      StopGoesThrough(n, kernel, calls);
    }
    return n - nleft, data[..ptr];
  }

  // ---------- send_fd and send_err ----------

  /** What one `sendmsg` of `send_fd` carries. */
  datatype Packet = Packet(bytes: seq<Byte>, ctl: Option<int>)

  /** `buf[1]`: the low eight bits of the negated code, never 0. */
  function StatusByte(fd: int): (st: Byte)
    requires fd < 0
    ensures st != 0
  {
    if (-fd) % 256 == 0 then 1 else (-fd) % 256
  }

  function Trailer(fd: int): Packet {
    if fd < 0 then Packet([0, StatusByte(fd)], None) else Packet([0, 0], Some(fd))
  }

  method SendFd(fd: int, memory: bool, accepted: int) returns (ret: int, out: Packet)
    requires fd > INT_MIN
    ensures ret == 0 <==> accepted == 2 && (fd >= 0 ==> memory)
    ensures ret != 0 ==> ret == -1
    ensures fd < 0 || memory ==> out == Trailer(fd)
  {
    var first: Byte, second: Byte := 0, 0;
    var ctl: Option<int> := None;
    if fd < 0 {
      second := (-fd) % 256;
      if second == 0 {
        second := 1;
      }
    } else {
      if !memory {
        return -1, Packet([], None);
      }
      ctl := Some(fd);
      second := 0;
    }
    out := Packet([first, second], ctl);
    if accepted != 2 {
      return -1, out;
    }
    return 0, out;
  }

  /** The code that travels: negative, as `send_err` makes it. */
  function Negative(errcode: int): (e: int)
    ensures e < 0
  {
    if errcode >= 0 then -1 else errcode
  }

  method SendErr(errcode: int, msg: seq<Byte>, kernel: nat -> int, accepted: int) returns (ret: int, stream: seq<Byte>)
    requires errcode > INT_MIN
    ensures ret == 0 || ret == -1
    ensures ret == 0 <==> accepted == 2 && Through(|msg|, kernel, 0) == |msg|
    ensures ret == 0 ==> stream == msg + [0, StatusByte(Negative(errcode))]
    ensures ret == -1 ==> stream <= msg && GoesThrough(|msg|, kernel, |stream|)
    ensures (forall k: nat :: kernel(k) > 0) ==> (ret == 0 <==> accepted == 2) && msg <= stream
  {
    stream := [];
    if |msg| > 0 {
      var n, sent := Writen(msg, kernel);
      stream := sent;
      if n != |msg| {
        return -1, stream;
      }
    } else {
      StopGoesThrough(0, kernel, 0);
    }
    var code := errcode;
    if errcode >= 0 {
      code := -1;
    }
    var r, packet := SendFd(code, true, accepted);
    if r < 0 {
      return -1, stream;
    }
    return 0, stream + packet.bytes;
  }

  // ---------- recv_fd ----------

  /** The result of one `recvmsg`; no bytes means the connection was closed. */
  datatype Recv = Failed | Data(bytes: seq<Byte>, ctl: Option<int>)

  datatype Outcome = Returned(fd: int) | Dumped | Blocked

  datatype Received = Received(outcome: Outcome, delivered: seq<Byte>)

  /** The position of the first null byte, or the length. */
  function FirstNull(bytes: seq<Byte>): (z: nat)
    ensures z <= |bytes|
    ensures z < |bytes| ==> bytes[z] == 0
    ensures forall i | 0 <= i < z :: bytes[i] != 0
  {
    if bytes == [] || bytes[0] == 0 then 0 else 1 + FirstNull(bytes[1..])
  }

  function Negated(st: Byte): int {
    var status: int := st;
    -status
  }

  /** What one receive result leads to, if `userfunc` accepts or not: the bytes
      handed over, and the outcome if the call ends with it. */
  datatype Piece = Piece(bytes: seq<Byte>, end: Option<Outcome>)

  function PieceOf(chunk: Recv, accepts: bool): Piece {
    if chunk.Failed? || chunk.bytes == [] then Piece([], Some(Returned(-1)))
    else
      var bytes := chunk.bytes;
      var z := FirstNull(bytes);
      if z == |bytes| then Piece(bytes, if accepts then None else Some(Returned(-1)))
      else if z != |bytes| - 2 || (bytes[z + 1] == 0 && chunk.ctl.None?) then Piece([], Some(Dumped))
      else if z > 0 && !accepts then Piece(bytes[..z], Some(Returned(-1)))
      else Piece(bytes[..z], Some(Returned(if bytes[z + 1] == 0 then chunk.ctl.value else Negated(bytes[z + 1]))))
  }

  /** The meaning of a sequence of receive results: what `recv_fd` returns, and
      the bytes it hands to `userfunc`, whose k-th call accepts or not. */
  function Receive(chunks: seq<Recv>, accept: nat -> bool, calls: nat): Received {
    if chunks == [] then Received(Blocked, [])
    else
      var piece := PieceOf(chunks[0], accept(calls));
      if piece.end.Some? then Received(piece.end.value, piece.bytes)
      else
        var rest := Receive(chunks[1..], accept, calls + 1);
        Received(rest.outcome, piece.bytes + rest.delivered)
  }

  // What the receive results say, chunk by chunk.

  /** The receive failed or the server closed the connection. */
  predicate Broken(c: Recv) {
    c.Failed? || c.bytes == []
  }

  /** Nothing but message bytes. */
  ghost predicate Plain(c: Recv) {
    !Broken(c) && NullFree(c.bytes)
  }

  ghost predicate FirstNullIs(c: Recv, z: nat) {
    c.Data? && z < |c.bytes| && c.bytes[z] == 0 && NullFree(c.bytes[..z])
  }

  /** The null is not next to last, or promises a descriptor that is not there. */
  ghost predicate Malformed(c: Recv, z: nat)
    requires FirstNullIs(c, z)
  {
    z != |c.bytes| - 2 || (c.bytes[z + 1] == 0 && c.ctl.None?)
  }

  /** The first `i` receive results are message bytes that `userfunc` accepts. */
  ghost predicate AllPlain(chunks: seq<Recv>, accept: nat -> bool, i: nat)
    requires i <= |chunks|
  {
    forall j | 0 <= j < i :: Plain(chunks[j]) && accept(j)
  }

  /** The bytes of the first `i` receive results. */
  function BytesOf(chunks: seq<Recv>, i: nat): seq<Byte>
    requires i <= |chunks|
  {
    if i == 0 then [] else BytesOf(chunks, i - 1) + (if chunks[i - 1].Data? then chunks[i - 1].bytes else [])
  }

  /** How the call ends with receive result `c`, after delivering `before`. */
  ghost predicate EndsWith(c: Recv, accepts: bool, before: seq<Byte>, r: Received) {
    && (Broken(c) ==> r == Received(Returned(-1), before))
    && (Plain(c) && !accepts ==> r == Received(Returned(-1), before + c.bytes))
    && (forall z: nat | FirstNullIs(c, z) ::
          if Malformed(c, z) then r == Received(Dumped, before)
          else r == Received(Returned(if z > 0 && !accepts then -1 else StatusOf(c, z)), before + c.bytes[..z]))
  }

  /** The descriptor that came with status 0, or the negated status. */
  ghost function StatusOf(c: Recv, z: nat): (code: int)
    requires FirstNullIs(c, z) && !Malformed(c, z)
    ensures c.bytes[z + 1] == 0 ==> code == c.ctl.value
    ensures c.bytes[z + 1] > 0 ==> code < 0 && code + c.bytes[z + 1] == 0
  {
    var status: int := c.bytes[z + 1];
    if status == 0 then c.ctl.value else -status
  }

  /** `r` is the result of the call: what ends it is the first receive result
      that is not accepted message bytes, and if there is none it waits on. */
  ghost predicate Results(chunks: seq<Recv>, accept: nat -> bool, r: Received) {
    && (forall i | 0 <= i < |chunks| && AllPlain(chunks, accept, i) ::
          EndsWith(chunks[i], accept(i), BytesOf(chunks, i), r))
    && (AllPlain(chunks, accept, |chunks|) ==> r == Received(Blocked, BytesOf(chunks, |chunks|)))
  }

  lemma PieceGoesOn(c: Recv, accepts: bool)
    ensures PieceOf(c, accepts).end.None? <==> Plain(c) && accepts
    ensures PieceOf(c, accepts).end.None? ==> PieceOf(c, accepts).bytes == c.bytes
  {
  }

  lemma PieceEnds(c: Recv, accepts: bool, before: seq<Byte>)
    ensures var p := PieceOf(c, accepts);
      p.end.Some? ==> EndsWith(c, accepts, before, Received(p.end.value, before + p.bytes))
  {
    if !Broken(c) {
      forall z: nat | FirstNullIs(c, z) ensures z == FirstNull(c.bytes) {
        assert forall i | 0 <= i < z :: c.bytes[..z][i] == c.bytes[i];
      }
    }
  }

  /** After accepted message bytes the call goes on with the next receive result. */
  lemma {:induction false} ReceiveNext(chunks: seq<Recv>, accept: nat -> bool, i: nat)
    requires i < |chunks| && Plain(chunks[i]) && accept(i)
    ensures var rest := Receive(chunks[i + 1..], accept, i + 1);
      Receive(chunks[i..], accept, i) == Received(rest.outcome, chunks[i].bytes + rest.delivered)
  {
    PieceGoesOn(chunks[i], accept(i));
    assert chunks[i..][0] == chunks[i] && chunks[i..][1..] == chunks[i + 1..];
  }

  lemma {:induction false} ReceiveRest(chunks: seq<Recv>, accept: nat -> bool, i: nat)
    requires i <= |chunks| && AllPlain(chunks, accept, i)
    ensures var rest := Receive(chunks[i..], accept, i);
      Receive(chunks, accept, 0) == Received(rest.outcome, BytesOf(chunks, i) + rest.delivered)
  {
    if i == 0 {
      assert chunks[0..] == chunks;
    } else {
      ReceiveRest(chunks, accept, i - 1);
      ReceiveNext(chunks, accept, i - 1);
      Joined(BytesOf(chunks, i - 1), chunks[i - 1].bytes, Receive(chunks[i..], accept, i).delivered);
    }
  }

  lemma Joined(a: seq<Byte>, b: seq<Byte>, c: seq<Byte>)
    ensures a + (b + c) == (a + b) + c
  {
  }

  lemma {:induction false} ReceiveResults(chunks: seq<Recv>, accept: nat -> bool)
    ensures Results(chunks, accept, Receive(chunks, accept, 0))
  {
    var r := Receive(chunks, accept, 0);
    forall i | 0 <= i < |chunks| && AllPlain(chunks, accept, i)
      ensures EndsWith(chunks[i], accept(i), BytesOf(chunks, i), r)
    {
      ReceiveRest(chunks, accept, i);
      PieceGoesOn(chunks[i], accept(i));
      PieceEnds(chunks[i], accept(i), BytesOf(chunks, i));
      assert chunks[i..][0] == chunks[i];
      assert BytesOf(chunks, i) + [] == BytesOf(chunks, i);
    }
    if AllPlain(chunks, accept, |chunks|) {
      ReceiveRest(chunks, accept, |chunks|);
      assert chunks[|chunks|..] == [];
    }
  }

  /** The scanning loop over one buffer: `nr` loses the trailer, `status` stays -1 without one. */
  method Scan(buf: seq<Byte>, ctl: Option<int>) returns (dump: bool, nr: nat, status: int, newfd: int)
    requires buf != []
    ensures var z := FirstNull(buf);
      && (dump <==> z < |buf| && (z != |buf| - 2 || (buf[z + 1] == 0 && ctl.None?)))
      && (!dump ==> nr == (if z == |buf| then |buf| else z) && status == (if z == |buf| then -1 else buf[z + 1]))
      && (!dump && z < |buf| ==> newfd == (if buf[z + 1] == 0 then ctl.value else Negated(buf[z + 1])))
  {
    var ptr := 0;
    nr, status, newfd, dump := |buf|, -1, 0, false;
    ghost var z := FirstNull(buf);
    while ptr < nr
      invariant 0 <= ptr <= |buf| && !dump
      invariant nr == |buf| ==> status == -1 && ptr <= z
      invariant nr != |buf| ==>
        && z == |buf| - 2 && nr == z && ptr > nr && status == buf[z + 1]
        && (status == 0 ==> ctl.Some?) && newfd == (if status == 0 then ctl.value else -status)
      decreases nr - ptr
    {
      var c := buf[ptr];
      ptr := ptr + 1;
      if c == 0 {
        if ptr != nr - 1 {
          dump := true;
          return;
        }
        status := buf[ptr];
        if status == 0 {
          if ctl.None? {
            dump := true;
            return;
          }
          newfd := ctl.value;
        } else {
          newfd := -status;
        }
        nr := nr - 2;
      }
    }
  }

  /** One turn of the receive loop. */
  method Handle(chunk: Recv, accepts: bool) returns (piece: Piece)
    ensures piece == PieceOf(chunk, accepts)
    ensures piece.end.Some? ==> EndsWith(chunk, accepts, [], Received(piece.end.value, piece.bytes))
    ensures piece.end.None? <==> Plain(chunk) && accepts
  {
    PieceGoesOn(chunk, accepts);
    PieceEnds(chunk, accepts, []);
    if chunk.Failed? || chunk.bytes == [] {
      return Piece([], Some(Returned(-1)));
    }
    var dump, nr, status, newfd := Scan(chunk.bytes, chunk.ctl);
    if dump {
      return Piece([], Some(Dumped));
    }
    if nr > 0 && !accepts {
      return Piece(chunk.bytes[..nr], Some(Returned(-1)));
    }
    if status >= 0 {
      return Piece(chunk.bytes[..nr], Some(Returned(newfd)));
    }
    return Piece(chunk.bytes[..nr], None);
  }

  /** What a call that has delivered `before` does when the rest of it does `rest`. */
  function After(before: seq<Byte>, rest: Received): Received {
    Received(rest.outcome, before + rest.delivered)
  }

  lemma {:induction false} ReceiveTurn(chunks: seq<Recv>, accept: nat -> bool, i: nat, before: seq<Byte>)
    requires i < |chunks|
    ensures var piece := PieceOf(chunks[i], accept(i));
      After(before, Receive(chunks[i..], accept, i)) ==
        if piece.end.Some? then Received(piece.end.value, before + piece.bytes)
        else After(before + piece.bytes, Receive(chunks[i + 1..], accept, i + 1))
  {
    assert chunks[i..][0] == chunks[i] && chunks[i..][1..] == chunks[i + 1..];
    var piece := PieceOf(chunks[i], accept(i));
    if piece.end.None? {
      Joined(before, piece.bytes, Receive(chunks[i + 1..], accept, i + 1).delivered);
    }
  }

  /** `memory`: the control buffer is there from an earlier call, or malloc provides it. */
  method RecvFd(memory: bool, chunks: seq<Recv>, accept: nat -> bool) returns (r: Received)
    ensures !memory ==> r == Received(Returned(-1), [])
    ensures memory ==> r == Receive(chunks, accept, 0)
    ensures memory ==> Results(chunks, accept, r)
  {
    if !memory {
      return Received(Returned(-1), []);
    }
    var i: nat := 0;
    var outcome, delivered: seq<Byte> := Blocked, [];
    assert chunks[0..] == chunks;
    while i < |chunks|
      invariant i <= |chunks| && outcome == Blocked
      invariant Receive(chunks, accept, 0) == After(delivered, Receive(chunks[i..], accept, i))
    {
      ReceiveTurn(chunks, accept, i, delivered);
      var piece := Handle(chunks[i], accept(i));
      delivered := delivered + piece.bytes;
      if piece.end.Some? {
        outcome := piece.end.value;
        break;
      }
      i := i + 1;
    }
    r := Received(outcome, delivered);
    ReceiveResults(chunks, accept);
  }

  // ---------- round trip ----------

  /** All receive results are data, none empty, and together they are the stream. */
  ghost predicate Splits(chunks: seq<Recv>, stream: seq<Byte>)
    decreases |chunks|
  {
    if chunks == [] then stream == []
    else
      && chunks[0].Data? && 0 < |chunks[0].bytes| <= |stream|
      && chunks[0].bytes == stream[..|chunks[0].bytes|]
      && Splits(chunks[1..], stream[|chunks[0].bytes|..])
  }

  lemma FirstNullAt(msg: seq<Byte>, rest: seq<Byte>)
    requires NullFree(msg) && (rest != [] ==> rest[0] == 0)
    ensures FirstNull(msg + rest) == |msg|
  {
    var whole := msg + rest;
    assert forall i | 0 <= i < |msg| :: whole[i] == msg[i];
    assert rest != [] ==> whole[|msg|] == rest[0];
  }

  /** What the receiver returns for status byte `st`. */
  function Expected(st: Byte, fd: int): int {
    if st == 0 then fd else Negated(st)
  }

  /** The trailer arrives in one piece. */
  ghost predicate Whole(chunks: seq<Recv>) {
    chunks != [] && chunks[|chunks| - 1].Data? && |chunks[|chunks| - 1].bytes| >= 2
  }

  /** How many chunks, from the first on, have bytes for `userfunc`: the last one
      may consist of the trailer only, and in a cut stream the chunk that ends
      with the null byte is a format error. */
  function Handed(chunks: seq<Recv>): nat {
    if chunks == [] || chunks[|chunks| - 1].Failed? then 0
    else
      var last := |chunks[|chunks| - 1].bytes|;
      if last > 2 then |chunks| else if last == 2 then |chunks| - 1 else if |chunks| >= 2 then |chunks| - 2 else 0
  }

  /** The number of bytes in the first `n` chunks. */
  function Size(chunks: seq<Recv>, n: nat): nat
    requires n <= |chunks|
  {
    if n == 0 then 0
    else (if chunks[0].Data? then |chunks[0].bytes| else 0) + Size(chunks[1..], n - 1)
  }

  /** How many of the `n` calls from `from` on `userfunc` accepts before it refuses one. */
  function Accepted(accept: nat -> bool, from: nat, n: nat): (a: nat)
    ensures a <= n && (a < n ==> !accept(from + a))
    ensures forall k | from <= k < from + a :: accept(k)
    decreases n
  {
    if n == 0 || !accept(from) then 0 else 1 + Accepted(accept, from + 1, n - 1)
  }

  /** The first `n` bytes, or all of them. */
  function Upto(msg: seq<Byte>, n: nat): seq<Byte> {
    if n <= |msg| then msg[..n] else msg
  }

  /** How a message with status `code` ends, `got` bytes of the stream being
      handed over by then: refused, whole, or with its trailer cut. */
  function Ending(msg: seq<Byte>, code: int, whole: bool, refused: bool, got: nat): Received {
    if refused then Received(Returned(-1), Upto(msg, got))
    else if whole then Received(Returned(code), msg)
    else Received(Dumped, Upto(msg, got))
  }

  /** What must come out of a message and its trailer: at the first refusal -1 and
      the part of the message received by then.  Without one, the whole message
      and the status if the trailer is in one piece, and otherwise a format error
      after the chunks before the one that ends with the null byte. */
  function Arrival(msg: seq<Byte>, code: int, chunks: seq<Recv>, whole: bool, accept: nat -> bool, calls: nat): Received
    requires Handed(chunks) <= |chunks|
  {
    var n := Handed(chunks);
    var a := Accepted(accept, calls, n);
    Ending(msg, code, whole, a < n, Size(chunks, if a < n then a + 1 else n))
  }

  lemma UptoJoin(b: seq<Byte>, rest: seq<Byte>, n: nat)
    ensures b + Upto(rest, n) == Upto(b + rest, |b| + n)
  {
  }

  lemma EndingMore(b: seq<Byte>, rest: seq<Byte>, code: int, whole: bool, refused: bool, got: nat)
    ensures var r := Ending(rest, code, whole, refused, got);
      Ending(b + rest, code, whole, refused, |b| + got) == Received(r.outcome, b + r.delivered)
  {
    UptoJoin(b, rest, got);
  }

  /** One more chunk of message bytes in front. */
  lemma {:induction false} ArrivalMore(msg: seq<Byte>, code: int, chunks: seq<Recv>, whole: bool, accept: nat -> bool, calls: nat)
    requires chunks != [] && chunks[0].Data? && |chunks[0].bytes| <= |msg| && chunks[0].bytes == msg[..|chunks[0].bytes|]
    requires Handed(chunks[1..]) <= |chunks[1..]| && Handed(chunks) == Handed(chunks[1..]) + 1
    ensures var b := chunks[0].bytes;
      Arrival(msg, code, chunks, whole, accept, calls) ==
        if !accept(calls) then Received(Returned(-1), b)
        else
          var rest := Arrival(msg[|b|..], code, chunks[1..], whole, accept, calls + 1);
          Received(rest.outcome, b + rest.delivered)
  {
    var b, n := chunks[0].bytes, Handed(chunks[1..]);
    if accept(calls) {
      var a := Accepted(accept, calls + 1, n);
      assert Accepted(accept, calls, n + 1) == a + 1;
      var taken := if a < n then a + 1 else n;
      assert Size(chunks, taken + 1) == |b| + Size(chunks[1..], taken);
      EndingMore(b, msg[|b|..], code, whole, a < n, Size(chunks[1..], taken));
      assert b + msg[|b|..] == msg;
    } else {
      assert Accepted(accept, calls, n + 1) == 0;
      assert Size(chunks, 1) == |b| + Size(chunks[1..], 0);
    }
  }

  /** A chunk that ends with the null byte of the trailer. */
  lemma {:induction false} ArrivalCut(msg: seq<Byte>, st: Byte, fd: int, chunks: seq<Recv>, accept: nat -> bool, calls: nat)
    requires NullFree(msg) && |chunks| == 2 && chunks[0].Data? && chunks[0].bytes == msg + [0]
    requires chunks[1].Data? && |chunks[1].bytes| == 1
    ensures !Whole(chunks) && Handed(chunks) == 0
    ensures Receive(chunks, accept, calls) == Arrival(msg, Expected(st, fd), chunks, false, accept, calls)
  {
    FirstNullAt(msg, [0]);
  }

  /** A chunk with the rest of the message and the whole trailer. */
  lemma {:induction false} ArrivalLast(msg: seq<Byte>, st: Byte, fd: int, chunks: seq<Recv>, accept: nat -> bool, calls: nat)
    requires NullFree(msg) && |chunks| == 1 && chunks[0].Data? && chunks[0].bytes == msg + [0, st]
    requires st == 0 ==> chunks[0].ctl == Some(fd)
    ensures Whole(chunks) && Handed(chunks) <= 1
    ensures Receive(chunks, accept, calls) == Arrival(msg, Expected(st, fd), chunks, true, accept, calls)
  {
    FirstNullAt(msg, [0, st]);
    assert chunks[0].bytes[..|msg|] == msg;
    assert Size(chunks, 1) == |msg| + 2 + Size(chunks[1..], 0);
  }

  lemma {:induction false} ReceiveMore(chunks: seq<Recv>, accept: nat -> bool, calls: nat)
    requires chunks != [] && chunks[0].Data? && chunks[0].bytes != [] && NullFree(chunks[0].bytes)
    ensures Receive(chunks, accept, calls) ==
      if !accept(calls) then Received(Returned(-1), chunks[0].bytes)
      else
        var rest := Receive(chunks[1..], accept, calls + 1);
        Received(rest.outcome, chunks[0].bytes + rest.delivered)
  {
    var b := chunks[0].bytes;
    FirstNullAt(b, []);
    assert b + [] == b;
  }

  lemma ArrivalInside(msg: seq<Byte>, code: int, chunks: seq<Recv>, whole: bool, accept: nat -> bool, calls: nat)
    requires Handed(chunks) <= |chunks|
    ensures Arrival(msg, code, chunks, whole, accept, calls).delivered <= msg
  {
  }

  /** However a null-free message and its trailer are cut into chunks, and
      whatever `userfunc` does, what is delivered is a prefix of the message, and
      the receiver ends as `Arrival` says. */
  lemma {:induction false} RoundTrip(msg: seq<Byte>, st: Byte, fd: int, chunks: seq<Recv>, accept: nat -> bool, calls: nat)
    requires NullFree(msg) && Splits(chunks, msg + [0, st])
    requires st == 0 && Whole(chunks) ==> chunks[|chunks| - 1].ctl == Some(fd)
    ensures chunks != [] && chunks[|chunks| - 1].Data? && (|chunks| >= 2 || Whole(chunks)) && Handed(chunks) <= |chunks|
    ensures Receive(chunks, accept, calls) == Arrival(msg, Expected(st, fd), chunks, Whole(chunks), accept, calls)
    ensures Receive(chunks, accept, calls).delivered <= msg
    decreases |chunks|
  {
    var b := chunks[0].bytes;
    var stream := msg + [0, st];
    if |b| <= |msg| {
      assert b == msg[..|b|];
      var rest := msg[|b|..];
      assert stream[|b|..] == rest + [0, st];
      assert chunks[1..] != [];
      assert chunks[1..][|chunks[1..]| - 1] == chunks[|chunks| - 1];
      RoundTrip(rest, st, fd, chunks[1..], accept, calls + 1);
      ReceiveMore(chunks, accept, calls);
      ArrivalMore(msg, Expected(st, fd), chunks, Whole(chunks), accept, calls);
    } else if |b| == |msg| + 1 {
      assert b == msg + [0] && stream[|b|..] == [st];
      LastOfOne(chunks[1..], [st]);
      ArrivalCut(msg, st, fd, chunks, accept, calls);
    } else {
      assert b == stream && stream[|b|..] == [];
      NothingLeft(chunks[1..]);
      ArrivalLast(msg, st, fd, chunks, accept, calls);
    }
    ArrivalInside(msg, Expected(st, fd), chunks, Whole(chunks), accept, calls);
  }

  lemma NothingLeft(chunks: seq<Recv>)
    requires Splits(chunks, [])
    ensures chunks == []
  {
  }

  lemma LastOfOne(chunks: seq<Recv>, one: seq<Byte>)
    requires |one| == 1 && Splits(chunks, one)
    ensures |chunks| == 1 && chunks[0].Data? && |chunks[0].bytes| == 1
  {
    NothingLeft(chunks[1..]);
  }

  /** The error code that arrives: the sent one if it is in -255..-1, -1 for a
      non-negative one, and minus the low eight bits, or -1, in general. */
  lemma ErrorArrives(errcode: int, msg: seq<Byte>, chunks: seq<Recv>)
    requires errcode > INT_MIN && NullFree(msg)
    requires Splits(chunks, msg + [0, StatusByte(Negative(errcode))])
    requires chunks != [] && chunks[|chunks| - 1].Data? && |chunks[|chunks| - 1].bytes| >= 2
    ensures var r := Receive(chunks, (k: nat) => true, 0);
      && r.delivered == msg
      && r.outcome == Returned(
           if errcode >= 0 then -1
           else if errcode >= -255 then errcode
           else if (-errcode) % 256 == 0 then -1 else -((-errcode) % 256))
  {
    RoundTrip(msg, StatusByte(Negative(errcode)), 0, chunks, (k: nat) => true, 0);
  }

  /** A descriptor sent after a message arrives with it. */
  lemma DescriptorArrives(fd: int, msg: seq<Byte>, chunks: seq<Recv>)
    requires fd >= 0 && NullFree(msg) && Splits(chunks, msg + Trailer(fd).bytes)
    requires chunks != [] && chunks[|chunks| - 1].Data?
    requires |chunks[|chunks| - 1].bytes| >= 2 && chunks[|chunks| - 1].ctl == Trailer(fd).ctl
    ensures Receive(chunks, (k: nat) => true, 0) == Received(Returned(fd), msg)
  {
    RoundTrip(msg, 0, fd, chunks, (k: nat) => true, 0);
  }
}
