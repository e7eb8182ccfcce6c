/**
 Control messages behind recvmsg(): a stream that may hold timestamps in a foreign format. 64-bit little-endian build:
 a header has 12 bytes (length, level, type) and a timeval 16, of which the last four are padding.
 */
module Cmsg {
  import opened Wrappers
  import opened Bytes

  const HEADER: nat := 12
  const TIMEVAL: nat := 16
  const BUFFER: nat := 1024
  const SOL_SOCKET: u32 := 0xffff
  const SCM_TIMESTAMP: u32 := 2

  // ---- The macros of <sys/socket.h> ----

  /** __DARWIN_ALIGN32 */
  function Align32(n: nat): (r: nat)
    ensures n <= r < n + 4 && r % 4 == 0
  {
    (n + 3) / 4 * 4
  }

  /** CMSG_DATA, as an offset: the payload follows the header without padding. */
  function Data(at: nat): (d: nat)
    ensures d == at + HEADER
  {
    at + Align32(HEADER)
  }

  /** CMSG_FIRSTHDR */
  function FirstHdr(s: seq<byte>): Option<nat> {
    if |s| >= HEADER then Some(0) else None
  }

  /** CMSG_NXTHDR */
  function NxtHdr(s: seq<byte>, at: nat): Option<nat>
    requires at + HEADER <= |s|
  {
    var n := at + Align32(Read4(s, at));
    if n + Align32(HEADER) > |s| then None else Some(n)
  }

  // ---- Messages ----

  predicate IsMessage(s: seq<byte>) {
    |s| >= HEADER && Read4(s, 0) == |s|
  }

  /** A control message with its header, whose length is right. */
  type Message = s: seq<byte> | IsMessage(s) witness [12, 0, 0, 0, 0, 0, 0, 0, 0, 0, 0, 0]

  predicate OfSocket(m: Message) {
    Read4(m, 4) == SOL_SOCKET
  }

  predicate IsStamp(m: Message) {
    OfSocket(m) && Read4(m, 8) == SCM_TIMESTAMP
  }

  /**
   The message that the header at `at` claims. The system may have truncated the last one; what is not there is taken to
   be zero.
   */
  function Claimed(s: seq<byte>, at: nat): (m: Message)
    requires at + HEADER <= |s| && Read4(s, at) >= HEADER
    ensures |m| == Read4(s, at) && m[..HEADER] == s[at..at + HEADER]
    ensures at + |m| <= |s| ==> m == s[at..at + |m|]
  {
    var len := Read4(s, at);
    var m := if at + len <= |s| then s[at..at + len] else s[at..] + Zeros(at + len - |s|);
    assert m[..HEADER] == s[at..at + HEADER];
    m
  }

  /** The messages that the macros find from a header on, if all claim to hold their header at least. */
  function From(s: seq<byte>, hdr: Option<nat>): (r: Option<seq<Message>>)
    requires hdr.Some? ==> hdr.value + HEADER <= |s|
    decreases if hdr.Some? then |s| - hdr.value else 0
  {
    match hdr
    case None => Some([])
    case Some(at) =>
      if Read4(s, at) < HEADER then None
      else
        var rest := From(s, NxtHdr(s, at));
        if rest.None? then None else Some([Claimed(s, at)] + rest.value)
  }

  function Messages(s: seq<byte>): Option<seq<Message>> {
    From(s, FirstHdr(s))
  }

  function Stream(ms: seq<Message>): seq<byte> {
    if ms == [] then [] else Stream(ms[..|ms| - 1]) + ms[|ms| - 1]
  }

  // ---- Timestamps ----

  function Signed32(v: u32): (r: int)
    ensures -0x8000_0000 <= r < 0x8000_0000 && (r == v || r == v - 0x1_0000_0000)
  {
    if v < 0x8000_0000 then v else v - 0x1_0000_0000
  }

  function Signed64(low: u32, high: u32): int {
    low + 0x1_0000_0000 * Signed32(high)
  }

  /** The seconds of a payload: 32 bits unsigned, or 64 bits signed; 0 if its length is none of the three. */
  function Seconds(d: seq<byte>): int {
    if |d| == 8 then Read4(d, 0)
    else if |d| == 12 || |d| == TIMEVAL then Signed64(Read4(d, 0), Read4(d, 4))
    else 0
  }

  function Micros(d: seq<byte>): int {
    if |d| == 8 then Signed32(Read4(d, 4))
    else if |d| == 12 || |d| == TIMEVAL then Signed32(Read4(d, 8))
    else 0
  }

  /** The same message, with a timestamp in the format of struct timeval. */
  predicate Reencodes(m: Message, m': Message) {
    && m'[4..HEADER] == m[4..HEADER]
    && if IsStamp(m) then
         |m'| == HEADER + TIMEVAL && Seconds(m'[HEADER..]) == Seconds(m[HEADER..]) &&
           Micros(m'[HEADER..]) == Micros(m[HEADER..])
       else m' == m
  }

  predicate AllReencoded(ms: seq<Message>, after: seq<Message>) {
    |after| == |ms| && forall i | 0 <= i < |ms| :: Reencodes(ms[i], after[i])
  }

  function NewSize(m: Message): nat {
    if IsStamp(m) then HEADER + TIMEVAL else |m|
  }

  /** The size of the rewritten stream. */
  function Total(ms: seq<Message>): nat {
    if ms == [] then 0 else Total(ms[..|ms| - 1]) + NewSize(ms[|ms| - 1])
  }

  /** The size that is announced: messages of other levels are not counted. */
  function Announced(ms: seq<Message>): nat {
    if ms == [] then 0 else Announced(ms[..|ms| - 1]) + if OfSocket(ms[|ms| - 1]) then NewSize(ms[|ms| - 1]) else 0
  }

  /** Of a timestamp with a length that no format has only the header is looked at. */
  predicate HeaderOnly(m: Message) {
    IsStamp(m) && |m| != HEADER + 8 && |m| != HEADER + 12 && |m| != HEADER + TIMEVAL
  }

  /** What the loop copies, from a header on, lies inside the stream. */
  predicate Readable(s: seq<byte>, hdr: Option<nat>)
    requires hdr.Some? ==> hdr.value + HEADER <= |s|
    requires From(s, hdr).Some?
    decreases if hdr.Some? then |s| - hdr.value else 0
  {
    hdr.Some? ==>
      var m := Claimed(s, hdr.value);
      (hdr.value + |m| <= |s| || HeaderOnly(m)) && Readable(s, NxtHdr(s, hdr.value))
  }

  predicate AnyForeign(ms: seq<Message>) {
    exists i | 0 <= i < |ms| :: IsStamp(ms[i]) && |ms[i]| != HEADER + TIMEVAL
  }

  predicate AllSocket(ms: seq<Message>) {
    forall i | 0 <= i < |ms| :: OfSocket(ms[i])
  }

  /** struct msghdr, as far as control messages go. */
  class MsgHdr {
    var control: array<byte>
    var controllen: nat

    constructor (control: array<byte>, controllen: nat)
      ensures this.control == control && this.controllen == controllen
    {
      this.control, this.controllen := control, controllen;
    }

    predicate Valid()
      reads this
    {
      controllen <= control.Length
    }

    /** The control stream. */
    function Bytes(): seq<byte>
      requires Valid()
      reads this, control
    {
      control[..controllen]
    }

    /** The walk over what the kernel put there gets on; the last message may have been truncated. */
    predicate Parsed()
      requires Valid()
      reads this, control
    {
      Messages(Bytes()).Some?
    }
  }

  /** check_cmsg_lengths */
  method CheckCmsgLengths(h: MsgHdr) returns (needadj: bool, newlen: nat)
    requires h.Valid() && h.Parsed()
    ensures var ms := Messages(h.Bytes()).value; newlen == Announced(ms) && needadj == AnyForeign(ms)
  {
    hide Read4, Align32, From, AnyForeign, Announced;
    Nothing();
    var s := h.Bytes();
    ghost var ms := Messages(s).value;
    var hdr: Option<nat> := FirstHdr(s);
    needadj, newlen := false, 0;
    ghost var done: seq<Message>, rest := [], ms;
    while hdr.Some?
      invariant hdr.Some? ==> hdr.value + HEADER <= |s|
      invariant From(s, hdr) == Some(rest) && ms == done + rest
      invariant newlen == Announced(done) && needadj == AnyForeign(done)
      decreases |rest|
    {
      var at := hdr.value;
      var len := Read4(s, at);
      FirstIs(s, at, rest);
      ghost var m := rest[0];
      HeaderOf(s, at);
      if Read4(s, at + 4) == SOL_SOCKET {
        var lenadj := 0;
        if Read4(s, at + 8) == SCM_TIMESTAMP {
          lenadj := TIMEVAL - (at + len - Data(at));
        }
        newlen := newlen + (len + lenadj);
        if lenadj != 0 {
          needadj := true;
        }
      }
      assert rest == [m] + rest[1..] && ms == (done + [m]) + rest[1..];
      Extends(done, m);
      done, rest := done + [m], rest[1..];
      hdr := NxtHdr(s, at);
    }
    FromNone(s);
    assert done == ms;
  }

  lemma FirstIs(s: seq<byte>, at: nat, rest: seq<Message>)
    requires at + HEADER <= |s| && From(s, Some(at)) == Some(rest)
    ensures rest != [] && From(s, NxtHdr(s, at)) == Some(rest[1..])
    ensures Read4(s, at) >= HEADER && rest[0] == Claimed(s, at)
  {
    hide Claimed;
    var tail := From(s, NxtHdr(s, at)).value;
    assert ([Claimed(s, at)] + tail)[1..] == tail;
  }

  lemma Nothing()
    ensures Announced([]) == 0 && Total([]) == 0 && !AnyForeign([]) && Stream([]) == []
  {}

  lemma FromNone(s: seq<byte>)
    ensures From(s, None) == Some([]) && Readable(s, None)
  {}

  lemma HeaderOf(s: seq<byte>, at: nat)
    requires at + HEADER <= |s| && Read4(s, at) >= HEADER
    ensures var m := Claimed(s, at); Read4(m, 4) == Read4(s, at + 4) && Read4(m, 8) == Read4(s, at + 8)
  {
    var m := Claimed(s, at);
    hide Join4, Claimed;
    assert forall k | 0 <= k < HEADER :: m[k] == m[..HEADER][k] == s[at..at + HEADER][k] == s[at + k];
  }

  lemma Extends(done: seq<Message>, m: Message)
    ensures Announced(done + [m]) == Announced(done) + if OfSocket(m) then NewSize(m) else 0
    ensures Total(done + [m]) == Total(done) + NewSize(m)
    ensures Stream(done + [m]) == Stream(done) + m
    ensures AnyForeign(done + [m]) == (AnyForeign(done) || (IsStamp(m) && |m| != HEADER + TIMEVAL))
  {
    hide OfSocket, IsStamp, NewSize;
    assert (done + [m])[..|done|] == done;
    assert (done + [m])[|done|] == m;
    if i :| 0 <= i < |done| && IsStamp(done[i]) && |done[i]| != HEADER + TIMEVAL {
      assert (done + [m])[i] == done[i];
    }
  }

  // ---- Rewriting ----

  /** fetch_cmsg_timeval, from the payload `d` into the buffer at `to`; padding is left as it is. */
  method FetchTimeval(d: seq<byte>, cbuf: array<byte>, to: nat)
    requires to + TIMEVAL <= cbuf.Length
    modifies cbuf
    ensures cbuf[..to] == old(cbuf[..])[..to]
    ensures var t := cbuf[to..to + TIMEVAL]; Seconds(t) == Seconds(d) && Micros(t) == Micros(d)
  {
    hide Seconds, Micros, Splice;
    var r := if |d| == TIMEVAL || |d| == 12 then d else if |d| == 8 then d[..4] + Zeros(4) + d[4..] else Zeros(TIMEVAL);
    SpliceSlices(cbuf[..], to, r);
    PutBytes(cbuf, to, r);
    ghost var t := cbuf[to..to + TIMEVAL];
    assert t[..|r|] == cbuf[to..to + |r|];
    SameStamp(d, t, r);
  }

  /** What is written means the same seconds and microseconds, whatever the padding. */
  lemma SameStamp(d: seq<byte>, t: seq<byte>, r: seq<byte>)
    requires r == if |d| == TIMEVAL || |d| == 12 then d
                  else if |d| == 8 then d[..4] + Zeros(4) + d[4..] else Zeros(TIMEVAL)
    requires |t| == TIMEVAL && t[..|r|] == r
    ensures Seconds(t) == Seconds(d) && Micros(t) == Micros(d)
  {
    hide Join4, Signed32;
    ZeroHigh();
    assert t[0] == r[0] && t[1] == r[1] && t[2] == r[2] && t[3] == r[3];
    assert t[4] == r[4] && t[5] == r[5] && t[6] == r[6] && t[7] == r[7];
    assert t[8] == r[8] && t[9] == r[9] && t[10] == r[10] && t[11] == r[11];
  }

  lemma ZeroHigh()
    ensures Join4(0, 0, 0, 0) == 0 && Signed32(0) == 0
  {}

  /** The header is copied, its length changed, and the payload fetched. */
  method Rewrite(m: Message, cbuf: array<byte>, to: nat) returns (ghost m': Message)
    requires IsStamp(m) && to + HEADER + TIMEVAL <= cbuf.Length
    modifies cbuf
    ensures Reencodes(m, m') && |m'| == HEADER + TIMEVAL
    ensures cbuf[..to] == old(cbuf[..])[..to] && cbuf[to..to + |m'|] == m'
  {
    hide Seconds, Micros, IsStamp, Reencodes, Read4, Splice, Host4;
    HeaderPut(cbuf[..], to, m[..HEADER], Host4(HEADER + TIMEVAL));
    PutBytes(cbuf, to, m[..HEADER]);
    Put32(cbuf, to, HEADER + TIMEVAL);
    ghost var before := cbuf[..];
    FetchTimeval(m[Data(0)..], cbuf, to + HEADER);
    ghost var t := cbuf[to + HEADER..to + HEADER + TIMEVAL];
    Reassembled(m, t);
    m' := Host4(HEADER + TIMEVAL) + m[4..HEADER] + t;
    Joins(cbuf[..], before, to, Host4(HEADER + TIMEVAL), m[4..HEADER], t);
  }

  lemma HeaderPut(s: seq<byte>, to: nat, h: seq<byte>, len: seq<byte>)
    requires |h| == HEADER && |len| == 4 && to + HEADER <= |s|
    ensures var b := Splice(Splice(s, to, h), to, len);
            b[..to] == s[..to] && b[to..to + 4] == len && b[to + 4..to + HEADER] == h[4..]
  {}

  /** The buffer after the payload was written behind the header. */
  lemma Joins(s: seq<byte>, before: seq<byte>, to: nat, len: seq<byte>, kind: seq<byte>, t: seq<byte>)
    requires |len| == 4 && |kind| == HEADER - 4 && |t| == TIMEVAL && to + HEADER + TIMEVAL <= |s| == |before|
    requires s[..to + HEADER] == before[..to + HEADER]
    requires before[to..to + 4] == len && before[to + 4..to + HEADER] == kind &&
             s[to + HEADER..to + HEADER + TIMEVAL] == t
    ensures s[..to] == before[..to] && s[to..to + |len + kind + t|] == len + kind + t
  {
    assert s[..to + HEADER][..to] == s[..to] && before[..to + HEADER][..to] == before[..to];
    assert s[..to + HEADER][to..] == s[to..to + HEADER] && before[..to + HEADER][to..] == before[to..to + HEADER];
    assert before[to..to + HEADER] == before[to..to + 4] + before[to + 4..to + HEADER];
    assert s[to..to + HEADER + TIMEVAL] == s[to..to + HEADER] + s[to + HEADER..to + HEADER + TIMEVAL];
  }

  lemma Reassembled(m: Message, t: seq<byte>)
    requires IsStamp(m) && |t| == TIMEVAL && Seconds(t) == Seconds(m[HEADER..]) && Micros(t) == Micros(m[HEADER..])
    ensures var m' := Host4(HEADER + TIMEVAL) + m[4..HEADER] + t;
            IsMessage(m') && Reencodes(m, m') && |m'| == HEADER + TIMEVAL
  {
    hide Seconds, Micros, IsStamp;
    Join4Host4(HEADER + TIMEVAL);
    Assembled(Host4(HEADER + TIMEVAL), m[4..HEADER], t);
  }

  lemma Assembled(len: seq<byte>, kind: seq<byte>, payload: seq<byte>)
    requires |len| == 4 && |kind| == 8 && Read4(len, 0) == HEADER + |payload|
    ensures var m := len + kind + payload; IsMessage(m) && m[4..HEADER] == kind && m[HEADER..] == payload
  {}

  lemma {:induction false} TotalGrows(a: seq<Message>, b: seq<Message>)
    ensures Total(a) <= Total(a + b)
    decreases |b|
  {
    if b == [] {
      assert a + b == a;
    } else {
      assert (a + b)[..|a + b| - 1] == a + b[..|b| - 1];
      TotalGrows(a, b[..|b| - 1]);
    }
  }

  lemma AlsoReencoded(ms: seq<Message>, after: seq<Message>, m: Message, m': Message)
    requires AllReencoded(ms, after) && Reencodes(m, m')
    ensures AllReencoded(ms + [m], after + [m'])
  {}

  lemma NewSizeIs(m: Message, m': Message)
    requires Reencodes(m, m')
    ensures |m'| == NewSize(m)
  {}

  lemma SpliceSlices(s: seq<byte>, to: nat, r: seq<byte>)
    ensures to + |r| <= |s| ==> Splice(s, to, r)[..to] == s[..to] && Splice(s, to, r)[to..to + |r|] == r
  {}

  /** One message: copied, or rewritten if it is a timestamp. */
  method PutMessage(m: Message, cbuf: array<byte>, to: nat) returns (n: nat, ghost m': Message)
    requires to + NewSize(m) <= cbuf.Length
    modifies cbuf
    ensures Reencodes(m, m') && n == |m'|
    ensures cbuf[..to] == old(cbuf[..])[..to] && cbuf[to..to + |m'|] == m'
  {
    hide Splice, Read4, Seconds, Micros;
    SpliceSlices(cbuf[..], to, m);
    if Read4(m, 4) != SOL_SOCKET {
      PutBytes(cbuf, to, m);
      n, m' := |m|, m;
    } else if Read4(m, 8) == SCM_TIMESTAMP {
      m' := Rewrite(m, cbuf, to);
      n := HEADER + TIMEVAL;
    } else {
      PutBytes(cbuf, to, m);
      n, m' := |m|, m;
    }
  }

  /**
   The loop of fix_cmsg_formats: the messages of `s`, one behind the other. The code looks neither at the size of its
   buffer in the loop, nor at the end of the stream; `inside` tells whether all that it writes lies in the buffer and
   all that it reads in the stream, and the model stops if not.
   */
  method Refill(s: seq<byte>, cbuf: array<byte>) returns (inside: bool, to: nat, ghost after: seq<Message>)
    requires Messages(s).Some?
    modifies cbuf
    ensures inside <==> Total(Messages(s).value) <= cbuf.Length && Readable(s, FirstHdr(s))
    ensures var ms := Messages(s).value;
            inside ==> to == Total(ms) && cbuf[..to] == Stream(after) && AllReencoded(ms, after)
  {
    hide Read4, Align32, From, Total, Stream, Reencodes, AllReencoded, NewSize, AnyForeign, Announced, IsStamp,
        OfSocket, Readable, Claimed, HeaderOnly;
    ghost var ms := Messages(s).value;
    var hdr: Option<nat> := FirstHdr(s);
    Nothing();
    NoneReencoded();
    ghost var done: seq<Message>, rest := [], ms;
    inside, to, after := true, 0, [];
    while hdr.Some?
      invariant hdr.Some? ==> hdr.value + HEADER <= |s|
      invariant From(s, hdr) == Some(rest) && ms == done + rest
      invariant Readable(s, FirstHdr(s)) <==> Readable(s, hdr)
      invariant inside && to == Total(done) <= cbuf.Length && cbuf[..to] == Stream(after) && AllReencoded(done, after)
      decreases |rest|
    {
      var at := hdr.value;
      FirstIs(s, at, rest);
      ReadableStep(s, at);
      var m := Claimed(s, at);
      assert rest == [m] + rest[1..] && ms == (done + [m]) + rest[1..];
      TotalGrows(done + [m], rest[1..]);
      Extends(done, m);
      if to + NewSize(m) > cbuf.Length || (at + |m| > |s| && !HeaderOnly(m)) {
        return false, to, after;
      }
      ghost var before := cbuf[..];
      assert before[..to] == Stream(after);
      var n: nat;
      ghost var m': Message;
      n, m' := PutMessage(m, cbuf, to);
      NewSizeIs(m, m');
      AlsoReencoded(done, after, m, m');
      Extends(after, m');
      assert cbuf[..to + n] == cbuf[..to] + cbuf[to..to + n];
      to := to + n;
      done, rest, after := done + [m], rest[1..], after + [m'];
      hdr := NxtHdr(s, at);
    }
    FromNone(s);
    assert done == ms;
  }

  lemma ReadableStep(s: seq<byte>, at: nat)
    requires at + HEADER <= |s| && From(s, Some(at)).Some?
    ensures Read4(s, at) >= HEADER && From(s, NxtHdr(s, at)).Some?
    ensures var m := Claimed(s, at);
            Readable(s, Some(at)) <==> (at + |m| <= |s| || HeaderOnly(m)) && Readable(s, NxtHdr(s, at))
  {
    hide Claimed, HeaderOnly;
  }

  /**
   fix_cmsg_formats: unless its loop leaves the local buffer or the stream, the stream is replaced if the size comes out
   as announced, and left alone otherwise.
   */
  method FixCmsgFormats(h: MsgHdr, newlen: nat) returns (inside: bool, ghost after: seq<Message>)
    requires h.Valid() && h.Parsed() && newlen <= h.control.Length
    modifies h`controllen, h.control
    ensures h.Valid()
    ensures inside <==>
            newlen > BUFFER ||
            old(Total(Messages(h.Bytes()).value) <= BUFFER && Readable(h.Bytes(), FirstHdr(h.Bytes())))
    ensures var ms := old(Messages(h.Bytes()).value);
            inside ==>
              if newlen <= BUFFER && Total(ms) == newlen then h.Bytes() == Stream(after) && AllReencoded(ms, after)
              else h.controllen == old(h.controllen) && h.control[..] == old(h.control[..])
  {
    hide Messages, Total, Stream, AllReencoded, Splice, Readable;
    if newlen > BUFFER {
      return true, [];
    }
    var cbuf := new byte[BUFFER];
    var to: nat;
    inside, to, after := Refill(h.Bytes(), cbuf);
    if !inside || to != newlen {
      return;
    }
    SpliceSlices(h.control[..], 0, cbuf[..newlen]);
    ghost var was := h.control[..];
    PutBytes(h.control, 0, cbuf[..newlen]);
    h.controllen := newlen;
    assert h.control[..newlen] == Splice(was, 0, cbuf[..newlen])[0..newlen];
  }

  lemma NoneReencoded()
    ensures AllReencoded([], [])
  {}

  /** Whether the stream is rewritten: a timestamp in a foreign format, only messages of the socket level, and room. */
  predicate Replaces(ms: seq<Message>, room: nat) {
    AnyForeign(ms) && AllSocket(ms) && Total(ms) <= room && Total(ms) <= BUFFER
  }

  /** Whether the loop of fix_cmsg_formats runs: a timestamp in a foreign format, and room for what is announced. */
  predicate Runs(ms: seq<Message>, room: nat) {
    AnyForeign(ms) && Announced(ms) <= room && Announced(ms) <= BUFFER
  }

  /**
   Whether the loop runs on a stream that its local buffer does not hold: only announced sizes are compared before.
   */
  predicate Spills(ms: seq<Message>, room: nat) {
    Runs(ms, room) && BUFFER < Total(ms)
  }

  /** All rewritten messages but the last have lengths that are multiples of 4. */
  predicate NewAligned(ms: seq<Message>) {
    forall i | 0 <= i < |ms| - 1 :: NewSize(ms[i]) % 4 == 0
  }

  /**
   recvmsg_internal, after the system's recvmsg returned `ret`; `room` is the caller's buffer size. Unless the loop
   leaves its local buffer or the stream, either nothing changes, or the stream is replaced as a whole by the re-encoded
   messages. They parse back from it exactly if all but the last come out with lengths that are multiples of 4.
   */
  method FixReceived(h: MsgHdr, room: nat, ret: int) returns (inside: bool, ghost after: seq<Message>)
    requires h.Valid() && h.Parsed() && room <= h.control.Length
    modifies h`controllen, h.control
    ensures h.Valid()
    ensures inside <==>
            ret < 0 || !Runs(old(Messages(h.Bytes()).value), room) ||
            old(Total(Messages(h.Bytes()).value) <= BUFFER && Readable(h.Bytes(), FirstHdr(h.Bytes())))
    ensures var ms := old(Messages(h.Bytes()).value);
            inside ==>
              if ret >= 0 && Replaces(ms, room) then
                h.controllen == Total(ms) && h.Bytes() == Stream(after) && AllReencoded(ms, after) &&
                (Messages(h.Bytes()) == Some(after) <==> NewAligned(ms))
              else h.controllen == old(h.controllen) && h.control[..] == old(h.control[..])
  {
    hide Stream, AnyForeign, AllSocket, AllReencoded, Total, Announced, Aligned, NewAligned, Messages, Readable;
    ghost var ms := Messages(h.Bytes()).value;
    inside, after := true, [];
    if ret < 0 || h.controllen == 0 {
      assert !AnyForeign(ms) || ret < 0 by {
        if h.controllen == 0 {
          NothingReceived(h.Bytes());
          Nothing();
        }
      }
      return;
    }
    var needadj, newlen := CheckCmsgLengths(h);
    AnnouncedAll(ms);
    if needadj {
      if newlen <= room {
        inside, after := FixCmsgFormats(h, newlen);
        if AllSocket(ms) && newlen <= BUFFER {
          if inside {
            StreamSize(ms, after);
            AlignedAfter(ms, after);
            ParsesBackExactly(after);
          }
        }
      }
    }
  }

  /** A stream of socket-level messages never leaves the local buffer, whatever its sizes. */
  lemma SocketOnlyInside(ms: seq<Message>, room: nat)
    requires AllSocket(ms)
    ensures !Spills(ms, room)
  {
    AnnouncedAll(ms);
  }

  lemma NothingReceived(s: seq<byte>)
    requires |s| == 0
    ensures Messages(s) == Some([])
  {}

  /** The announced size is the true one exactly if all messages are of the socket level. */
  lemma {:induction false} AnnouncedAll(ms: seq<Message>)
    ensures Announced(ms) <= Total(ms)
    ensures Announced(ms) == Total(ms) <==> AllSocket(ms)
    decreases |ms|
  {
    if ms != [] {
      var init, m := ms[..|ms| - 1], ms[|ms| - 1];
      AnnouncedAll(init);
      assert ms == init + [m];
      assert NewSize(m) >= HEADER;
      assert AllSocket(ms) <==> AllSocket(init) && OfSocket(m);
    }
  }

  lemma {:induction false} StreamSize(ms: seq<Message>, after: seq<Message>)
    requires AllReencoded(ms, after)
    ensures |Stream(after)| == Total(ms)
    decreases |ms|
  {
    if ms != [] {
      StreamSize(ms[..|ms| - 1], after[..|ms| - 1]);
      NewSizeIs(ms[|ms| - 1], after[|ms| - 1]);
    }
  }

  // ---- Parsing the stream that was written ----

  /** All messages but the last have a length that is a multiple of 4. */
  predicate Aligned(ms: seq<Message>) {
    forall i | 0 <= i < |ms| - 1 :: |ms[i]| % 4 == 0
  }

  lemma AlignedAfter(ms: seq<Message>, after: seq<Message>)
    requires AllReencoded(ms, after)
    ensures Aligned(after) <==> NewAligned(ms)
  {
    hide Reencodes, NewSize;
    assert forall i | 0 <= i < |ms| :: |after[i]| == NewSize(ms[i]) by {
      forall i | 0 <= i < |ms|
        ensures |after[i]| == NewSize(ms[i])
      {
        assert Reencodes(ms[i], after[i]);
        NewSizeIs(ms[i], after[i]);
      }
    }
  }

  lemma {:induction false} StreamCons(m: Message, ms: seq<Message>)
    ensures Stream([m] + ms) == m + Stream(ms)
    decreases |ms|
  {
    var all := [m] + ms;
    if ms == [] {
      assert all[..|all| - 1] == [];
    } else {
      assert all[..|all| - 1] == [m] + ms[..|ms| - 1];
      StreamCons(m, ms[..|ms| - 1]);
    }
  }

  function Head(p: seq<byte>, ms: seq<Message>): Option<nat> {
    if ms == [] then None else Some(|p|)
  }

  lemma MessageAt(p: seq<byte>, m: Message, r: seq<byte>)
    ensures Read4(p + (m + r), |p|) == |m| && (p + (m + r))[|p|..|p| + |m|] == m
  {}

  lemma {:induction false} ParsesBackFrom(p: seq<byte>, ms: seq<Message>)
    requires Aligned(ms)
    ensures From(p + Stream(ms), Head(p, ms)) == Some(ms)
    decreases |ms|
  {
    hide Read4, Stream, Align32;
    if ms != [] {
      var m, rest := ms[0], ms[1..];
      assert ms == [m] + rest;
      StreamCons(m, rest);
      var r := Stream(rest);
      var s := p + (m + r);
      MessageAt(p, m, r);
      assert (p + m) + r == s;
      assert Aligned(rest) by {
        assert forall i | 0 <= i < |rest| :: rest[i] == ms[i + 1];
      }
      ParsesBackFrom(p + m, rest);
      if rest == [] {
        Nothing();
        NothingBehind(s, |p|, |m|);
      } else {
        StreamCons(rest[0], rest[1..]);
        assert rest == [rest[0]] + rest[1..];
        NextBehind(s, |p|, |m|);
      }
      assert NxtHdr(s, |p|) == Head(p + m, rest);
    }
  }

  lemma NothingBehind(s: seq<byte>, at: nat, len: nat)
    requires at + HEADER <= at + len == |s| && Read4(s, at) == len
    ensures NxtHdr(s, at) == None
  {}

  lemma NextBehind(s: seq<byte>, at: nat, len: nat)
    requires HEADER <= len && at + len + HEADER <= |s| && Read4(s, at) == len && len % 4 == 0
    ensures NxtHdr(s, at) == Some(at + len)
  {}

  lemma ParsesBack(ms: seq<Message>)
    requires Aligned(ms)
    ensures Messages(Stream(ms)) == Some(ms)
  {
    hide Stream, From;
    ParsesBackFrom([], ms);
    assert [] + Stream(ms) == Stream(ms);
    if ms != [] {
      StreamCons(ms[0], ms[1..]);
      assert ms == [ms[0]] + ms[1..];
    } else {
      Nothing();
    }
  }

  /** Where the macros look for the end of messages that follow one another. */
  function Reach(ms: seq<Message>): nat {
    if ms == [] then 0 else if |ms| == 1 then |ms[0]| else Align32(|ms[0]|) + Reach(ms[1..])
  }

  lemma ReachStep(ms: seq<Message>)
    requires ms != []
    ensures Reach(ms) == if ms[1..] == [] then |ms[0]| else Align32(|ms[0]|) + Reach(ms[1..])
  {}

  /** The messages that are found: all but the last end in the stream, and the last is what is claimed there. */
  lemma {:induction false} ReachLast(s: seq<byte>, at: nat, ms: seq<Message>)
    requires at + HEADER <= |s| && From(s, Some(at)) == Some(ms)
    ensures ms != []
    ensures var m := ms[|ms| - 1];
            var start := at + Reach(ms) - |m|;
            at <= start && start + HEADER <= |s| && Read4(s, start) == |m| && Claimed(s, start) == m
    decreases |ms|
  {
    hide Read4, Align32, Claimed, From, Reach;
    FirstIs(s, at, ms);
    ReachStep(ms);
    var n := NxtHdr(s, at);
    if n.Some? {
      FirstIs(s, n.value, ms[1..]);
      ReachLast(s, n.value, ms[1..]);
      assert ms[|ms| - 1] == ms[1..][|ms| - 2];
    } else {
      FromNone(s);
      assert ms == [ms[0]];
    }
  }

  /** What is read within a stream ends in it exactly if the last message does. */
  lemma ReadableExactly(s: seq<byte>)
    requires Messages(s).Some? && Messages(s).value != []
    ensures var ms := Messages(s).value;
            Readable(s, FirstHdr(s)) <==> Reach(ms) <= |s| || HeaderOnly(ms[|ms| - 1])
  {
    hide From, Reach, Readable, HeaderOnly;
    if FirstHdr(s) == None {
      FromNone(s);
    } else {
      ReadableFrom(s, 0, Messages(s).value);
    }
  }

  lemma {:induction false} ReadableFrom(s: seq<byte>, at: nat, ms: seq<Message>)
    requires at + HEADER <= |s| && From(s, Some(at)) == Some(ms)
    ensures ms != []
    ensures Readable(s, Some(at)) <==> at + Reach(ms) <= |s| || HeaderOnly(ms[|ms| - 1])
    decreases |ms|
  {
    hide Read4, Align32, Claimed, HeaderOnly, From, Reach;
    FirstIs(s, at, ms);
    ReachStep(ms);
    ReadableStep(s, at);
    var n := NxtHdr(s, at);
    if n.Some? {
      FirstIs(s, n.value, ms[1..]);
      ReadableFrom(s, n.value, ms[1..]);
      assert ms[|ms| - 1] == ms[1..][|ms| - 2];
    } else {
      FromNone(s);
      assert ms == [ms[0]];
    }
  }

  /** A message is not its own rest filled up with zeros: it would be zero throughout, its length included. */
  lemma NotShifted(m: Message, d: nat)
    requires 0 < d && d + HEADER <= |m|
    ensures m[d..] + Zeros(d) != m
  {
    if m[d..] + Zeros(d) == m {
      LengthZero(m, d);
    }
  }

  lemma LengthZero(m: seq<byte>, d: nat)
    requires 0 < d <= |m| && m[d..] + Zeros(d) == m && |m| >= 4
    ensures Read4(m, 0) == 0
  {
    ZeroFrom(m, d, 0);
    assert m[0] == m[1] == m[2] == m[3] == 0;
  }

  lemma {:induction false} ZeroFrom(m: seq<byte>, d: nat, k: nat)
    requires 0 < d <= |m| && m[d..] + Zeros(d) == m && k <= |m|
    ensures forall i | k <= i < |m| :: m[i] == 0
    decreases |m| - k
  {
    if k < |m| {
      ZeroFrom(m, d, k + 1);
      assert m[k] == (m[d..] + Zeros(d))[k];
    }
  }

  lemma {:induction false} ReachSize(ms: seq<Message>)
    ensures |Stream(ms)| <= Reach(ms)
    ensures |Stream(ms)| == Reach(ms) ==> Aligned(ms)
    decreases |ms|
  {
    hide Stream;
    if ms == [] {
      Nothing();
    } else {
      var m, rest := ms[0], ms[1..];
      assert ms == [m] + rest;
      StreamCons(m, rest);
      ReachSize(rest);
      assert forall i | 0 < i < |ms| :: ms[i] == rest[i - 1];
    }
  }

  /**
   Messages written one behind the other parse back exactly if all but the last have lengths that are multiples of 4.
   */
  lemma ParsesBackExactly(ms: seq<Message>)
    ensures Messages(Stream(ms)) == Some(ms) <==> Aligned(ms)
  {
    hide From, Stream, Aligned;
    if Aligned(ms) {
      ParsesBack(ms);
    } else if Messages(Stream(ms)) == Some(ms) {
      if ms == [] {
        EmptyAligned();
      } else {
        var s := Stream(ms);
        if FirstHdr(s) == None {
          FromNone(s);
        } else {
          ReachLast(s, 0, ms);
          ReachSize(ms);
          LastFits(ms);
        }
      }
    }
  }

  /** Written one behind the other, messages that parse back are not shifted by any padding. */
  lemma LastFits(ms: seq<Message>)
    requires ms != []
    requires var s, m := Stream(ms), ms[|ms| - 1];
             var start := Reach(ms) - |m|;
             0 <= start && start + HEADER <= |s| <= Reach(ms) && Read4(s, start) == |m| && Claimed(s, start) == m
    ensures |Stream(ms)| == Reach(ms)
  {
    hide Read4, Reach;
    var s, m := Stream(ms), ms[|ms| - 1];
    var start, d := Reach(ms) - |m|, Reach(ms) - |s|;
    assert s == Stream(ms[..|ms| - 1]) + m;
    if d > 0 {
      hide Stream;
      assert s[start..] == m[d..];
      NotShifted(m, d);
    }
  }

  lemma EmptyAligned()
    ensures Aligned([])
  {}

  // ---- Messages in bytes ----

  // A timestamp of 2^32 - 1 seconds (unsigned) and 2 microseconds in two 32-bit fields.
  const STAMP: seq<byte> := [20, 0, 0, 0] + [255, 255, 0, 0] + [2, 0, 0, 0] + [255, 255, 255, 255, 2, 0, 0, 0]

  lemma StampParts()
    ensures IsMessage(STAMP) && IsStamp(STAMP)
    ensures STAMP[4..12] == [255, 255, 0, 0, 2, 0, 0, 0] && STAMP[12..] == [255, 255, 255, 255, 2, 0, 0, 0]
  {}

  /** It is rewritten to 64-bit seconds and microseconds, the padding aside. */
  lemma StampBytes(m': Message)
    requires IsMessage(STAMP) && Reencodes(STAMP, m')
    ensures |m'| == 28
    ensures m'[..24] ==
            [28, 0, 0, 0] + [255, 255, 0, 0, 2, 0, 0, 0] + [255, 255, 255, 255] + [0, 0, 0, 0] + [2, 0, 0, 0]
  {
    hide Join4, Seconds, Micros, IsStamp;
    var d := m'[12..];
    Known();
    StampParts();
    Fields(d);
    FourBytes(m', 0, 28);
    FourBytes(d, 0, 0xffff_ffff);
    FourBytes(d, 4, 0);
    FourBytes(d, 8, 2);
    Gathered(m', d);
  }

  lemma Gathered(m: seq<byte>, d: seq<byte>)
    requires |m| == 28 && d == m[12..]
    ensures m[..24] == m[..4] + m[4..12] + d[..4] + d[4..8] + d[8..12]
  {}

  lemma Known()
    ensures Join4(20, 0, 0, 0) == 20 && Join4(255, 255, 0, 0) == 0xffff && Join4(2, 0, 0, 0) == 2
    ensures Join4(255, 255, 255, 255) == 0xffff_ffff
    ensures Host4(28) == [28, 0, 0, 0] && Host4(0) == [0, 0, 0, 0] && Host4(2) == [2, 0, 0, 0]
    ensures Host4(0xffff_ffff) == [255, 255, 255, 255] && Host4(0xffff) == [255, 255, 0, 0]
    ensures Seconds([255, 255, 255, 255, 2, 0, 0, 0]) == 0xffff_ffff && Micros([255, 255, 255, 255, 2, 0, 0, 0]) == 2
  {}

  lemma Fields(d: seq<byte>)
    requires |d| == 16 && Seconds(d) == 0xffff_ffff && Micros(d) == 2
    ensures Read4(d, 0) == 0xffff_ffff && Read4(d, 4) == 0 && Read4(d, 8) == 2
  {}

  lemma FourBytes(s: seq<byte>, at: nat, v: u32)
    requires at + 4 <= |s| && Read4(s, at) == v
    ensures s[at..at + 4] == Host4(v)
  {
    hide Join4, Host4;
    Host4Join4(s[at], s[at + 1], s[at + 2], s[at + 3]);
  }

  /** The other formats: 64-bit seconds with 32-bit or (little-endian) 64-bit microseconds, and lengths of no format. */
  lemma OtherStamps(d: seq<byte>)
    requires |d| == 16
    ensures Seconds([254, 255, 255, 255, 255, 255, 255, 255, 5, 0, 0, 0]) == -2
    ensures Micros([254, 255, 255, 255, 255, 255, 255, 255, 5, 0, 0, 0]) == 5
    ensures Seconds([1, 0, 0, 0, 1, 0, 0, 0, 7, 0, 0, 0, 9, 9, 9, 9]) == 0x1_0000_0001
    ensures Micros([1, 0, 0, 0, 1, 0, 0, 0, 7, 0, 0, 0, 9, 9, 9, 9]) == 7
    ensures Seconds(d[..10]) == 0 && Micros(d[..10]) == 0
  {}

  // ---- Streams on which the promises fail ----

  /** A message of `n` payload bytes that are all zero. */
  function Plain(level: u32, kind: u32, n: nat): (m: Message)
    requires n < 0x1000
    ensures |m| == HEADER + n && Read4(m, 4) == level && Read4(m, 8) == kind && m[HEADER..] == Zeros(n)
  {
    hide Join4, Host4;
    PlainIs(level, kind, n);
    Host4(HEADER + n) + Host4(level) + Host4(kind) + Zeros(n)
  }

  lemma HeaderParts(a: seq<byte>, b: seq<byte>, c: seq<byte>, d: seq<byte>)
    requires |a| == |b| == |c| == 4
    ensures var m := a + b + c + d;
            Read4(m, 0) == Read4(a, 0) && Read4(m, 4) == Read4(b, 0) && Read4(m, 8) == Read4(c, 0)
  {
    hide Join4;
    var m := a + b + c + d;
    assert m[0] == a[0] && m[1] == a[1] && m[2] == a[2] && m[3] == a[3];
    assert m[4] == b[0] && m[5] == b[1] && m[6] == b[2] && m[7] == b[3];
    assert m[8] == c[0] && m[9] == c[1] && m[10] == c[2] && m[11] == c[3];
  }

  lemma PlainIs(level: u32, kind: u32, n: nat)
    requires n < 0x1000
    ensures var m := Host4(HEADER + n) + Host4(level) + Host4(kind) + Zeros(n);
            IsMessage(m) && |m| == HEADER + n && Read4(m, 4) == level && Read4(m, 8) == kind
  {
    HeaderParts(Host4(HEADER + n), Host4(level), Host4(kind), Zeros(n));
    hide Host4;
    Join4Host4(HEADER + n);
    Join4Host4(level);
    Join4Host4(kind);
  }

  lemma TwoMessages(a: Message, b: Message)
    ensures Total([a, b]) == NewSize(a) + NewSize(b)
    ensures Announced([a, b]) == (if OfSocket(a) then NewSize(a) else 0) + if OfSocket(b) then NewSize(b) else 0
  {
    Nothing();
    Extends([], a);
    Extends([a], b);
    assert [] + [a] == [a] && [a] + [b] == [a, b];
  }

  /** A timestamp of 20 bytes before a message of 1100 bytes at another level: the loop leaves the local buffer. */
  lemma SpillsWith(room: nat)
    requires room >= 28
    ensures var ms := [Plain(SOL_SOCKET, SCM_TIMESTAMP, 8), Plain(41, 0, 1088)];
            && Messages(Stream(ms)) == Some(ms)
            && Announced(ms) == 28 && Total(ms) == 1128 && Spills(ms, room)
  {
    hide Plain, Announced, Total, Stream, Messages;
    var a, b := Plain(SOL_SOCKET, SCM_TIMESTAMP, 8), Plain(41, 0, 1088);
    TwoMessages(a, b);
    ParsesBack([a, b]);
    assert IsStamp([a, b][0]) && |[a, b][0]| != HEADER + TIMEVAL;
  }

  /** The local buffer holds 1024 bytes: that much is written inside, one byte more is not. */
  lemma BufferHolds(room: nat)
    requires room >= 28
    ensures !Spills([Plain(SOL_SOCKET, SCM_TIMESTAMP, 8), Plain(41, 0, 984)], room)
    ensures Spills([Plain(SOL_SOCKET, SCM_TIMESTAMP, 8), Plain(41, 0, 985)], room)
  {
    hide Plain, Announced, Total;
    var a := Plain(SOL_SOCKET, SCM_TIMESTAMP, 8);
    TwoMessages(a, Plain(41, 0, 984));
    TwoMessages(a, Plain(41, 0, 985));
    assert IsStamp([a, Plain(41, 0, 985)][0]) && |[a, Plain(41, 0, 985)][0]| != HEADER + TIMEVAL;
  }

  /** Of socket-level messages 1024 bytes are rewritten, if the caller has the room, and one byte more is not. */
  lemma BufferFills(room: nat)
    ensures var ms := [Plain(SOL_SOCKET, SCM_TIMESTAMP, 8), Plain(SOL_SOCKET, 1, 984)];
            (Replaces(ms, room) <==> room >= 1024) && (Runs(ms, room) <==> room >= 1024)
    ensures var ms := [Plain(SOL_SOCKET, SCM_TIMESTAMP, 8), Plain(SOL_SOCKET, 1, 985)];
            !Replaces(ms, room) && !Runs(ms, room)
  {
    hide Plain, Announced, Total;
    var a, b, c := Plain(SOL_SOCKET, SCM_TIMESTAMP, 8), Plain(SOL_SOCKET, 1, 984), Plain(SOL_SOCKET, 1, 985);
    TwoMessages(a, b);
    TwoMessages(a, c);
    assert IsStamp([a, b][0]) && |[a, b][0]| != HEADER + TIMEVAL;
  }

  /** The three formats make messages of 20, 24 and 28 bytes. */
  lemma Formats(m: Message)
    ensures HeaderOnly(m) <==> m[4..12] == [255, 255, 0, 0, 2, 0, 0, 0] && |m| !in {20, 24, 28}
  {
    hide Join4, Host4;
    StampHeader(m);
  }

  lemma StampHeader(m: Message)
    ensures IsStamp(m) <==> m[4..12] == [255, 255, 0, 0, 2, 0, 0, 0]
  {
    hide Join4, Host4;
    Known();
    if IsStamp(m) {
      FourBytes(m, 4, 0xffff);
      FourBytes(m, 8, 2);
      assert m[4..12] == m[4..8] + m[8..12];
    }
    if m[4..12] == [255, 255, 0, 0, 2, 0, 0, 0] {
      HeaderStamps(m);
    }
  }

  lemma HeaderStamps(m: Message)
    requires m[4..12] == [255, 255, 0, 0, 2, 0, 0, 0]
    ensures IsStamp(m)
  {
    hide Join4;
    Known();
    var h := m[4..12];
    assert m[4] == h[0] && m[5] == h[1] && m[6] == h[2] && m[7] == h[3];
    assert m[8] == h[4] && m[9] == h[5] && m[10] == h[6] && m[11] == h[7];
  }

  /** A message at another level that fits: its stream is announced too small, and not rewritten. */
  lemma NotAnnounced()
    ensures var ms := [Plain(SOL_SOCKET, SCM_TIMESTAMP, 8), Plain(41, 0, 4)];
            Announced(ms) == 28 && Total(ms) == 44 && AnyForeign(ms) && !Replaces(ms, BUFFER) && !Spills(ms, BUFFER)
  {
    hide Plain, Announced, Total;
    var a, b := Plain(SOL_SOCKET, SCM_TIMESTAMP, 8), Plain(41, 0, 4);
    TwoMessages(a, b);
    assert IsStamp([a, b][0]) && |[a, b][0]| != HEADER + TIMEVAL;
    assert !OfSocket([a, b][1]);
  }

  /** A message, the padding that the system puts behind it, and what there is of another one. */
  function Padded(a: Message, t: seq<byte>): (s: seq<byte>)
    ensures |s| == Align32(|a|) + |t|
  {
    a + Zeros(Align32(|a|) - |a|) + t
  }

  /** `b` may be truncated, if what is missing is zero. */
  lemma PaddedParses(a: Message, b: Message, k: nat)
    requires HEADER <= k <= |b| && b[k..] == Zeros(|b| - k)
    ensures Messages(Padded(a, b[..k])) == Some([a, b])
  {
    hide Read4, Align32, From;
    var s, n := Padded(a, b[..k]), Align32(|a|);
    var z := Zeros(n - |a|);
    MessageAt([], a, z + b[..k]);
    assert [] + (a + (z + b[..k])) == s;
    SameHeader(a + z, b, k);
    assert s[n..] == b[..k] && b == b[..k] + Zeros(|b| - k);
    assert Claimed(s, 0) == a && Claimed(s, n) == b;
    NoneBehind(s, n);
    NextAligned(s);
    FromNone(s);
    OneFrom(s, n, None);
    assert [b] + [] == [b];
    OneFrom(s, 0, Some(n));
    assert [a] + [b] == [a, b];
  }

  lemma SameHeader(p: seq<byte>, b: Message, k: nat)
    requires HEADER <= k <= |b|
    ensures Read4(p + b[..k], |p|) == |b|
  {
    hide Join4;
    var s := p + b[..k];
    assert s[|p|] == b[0] && s[|p| + 1] == b[1] && s[|p| + 2] == b[2] && s[|p| + 3] == b[3];
  }

  lemma NoneBehind(s: seq<byte>, at: nat)
    requires at + HEADER <= |s| <= at + Read4(s, at)
    ensures NxtHdr(s, at) == None
  {}

  lemma NextAligned(s: seq<byte>)
    requires HEADER <= |s| && Align32(Read4(s, 0)) + HEADER <= |s|
    ensures NxtHdr(s, 0) == Some(Align32(Read4(s, 0)))
  {}

  lemma OneFrom(s: seq<byte>, at: nat, next: Option<nat>)
    requires at + HEADER <= |s| && Read4(s, at) >= HEADER && NxtHdr(s, at) == next
    requires From(s, next).Some?
    ensures From(s, Some(at)) == Some([Claimed(s, at)] + From(s, next).value)
  {
    hide Claimed, Read4, Align32;
  }

  /** A message of 13 bytes before a timestamp of 20: the stream is rewritten, and does not parse back. */
  lemma NotParsedBack(after: seq<Message>)
    requires AllReencoded([Plain(SOL_SOCKET, 1, 1), Plain(SOL_SOCKET, SCM_TIMESTAMP, 8)], after)
    ensures var ms := [Plain(SOL_SOCKET, 1, 1), Plain(SOL_SOCKET, SCM_TIMESTAMP, 8)];
            && Messages(Padded(ms[0], ms[1])) == Some(ms) && Replaces(ms, 41)
            && Messages(Stream(after)) != Some(after)
  {
    hide Plain, Stream, Messages, Total, Padded, AllReencoded, Aligned;
    var a, b := Plain(SOL_SOCKET, 1, 1), Plain(SOL_SOCKET, SCM_TIMESTAMP, 8);
    var ms := [a, b];
    PaddedParses(a, b, |b|);
    assert b[..|b|] == b;
    TwoMessages(a, b);
    assert IsStamp(ms[1]) && |ms[1]| != HEADER + TIMEVAL;
    AlignedAfter(ms, after);
    assert NewSize(ms[0]) == 13;
    ParsesBackExactly(after);
  }

  /** A timestamp of 20 bytes before a message of which 100 bytes were truncated: as many are copied from elsewhere. */
  lemma ReadsBehind(room: nat)
    requires room >= 140
    ensures var a, b := Plain(SOL_SOCKET, SCM_TIMESTAMP, 8), Plain(SOL_SOCKET, 1, 100);
            var s := Padded(a, b[..HEADER]);
            && Messages(s) == Some([a, b]) && Runs([a, b], room) && Total([a, b]) <= BUFFER
            && !Readable(s, FirstHdr(s))
  {
    hide Plain, Total, Announced, Readable, Read4, Claimed, Padded, Messages;
    var a, b := Plain(SOL_SOCKET, SCM_TIMESTAMP, 8), Plain(SOL_SOCKET, 1, 100);
    var s := Padded(a, b[..HEADER]);
    PaddedParses(a, b, HEADER);
    TwoMessages(a, b);
    assert IsStamp([a, b][0]) && |[a, b][0]| != HEADER + TIMEVAL;
    assert [a, b][1..] == [b];
    assert Reach([a, b]) == 132;
    ReadableExactly(s);
  }
}
