/** Messages over a byte stream: partial sends on one side, arbitrary reads on the other. */
module Framing {
  import opened Basics

  const RECVBUF_LEN: nat := 16384
  const BYTE_MAX: nat := 0x7FFF_FFFF - 1000
  const MSG_NONTYPE: nat := 44
  // sizeof(MsgHdr): a 24-byte id, the type, the length and a 16-byte time (msg.h:53-80)
  const MSG_HDRLEN: nat := 48
  const TYPE_AT: nat := 24
  const LEN_AT: nat := 28

  function Be32(s: seq<byte>, at: nat): nat
    requires at + 4 <= |s|
  {
    var a: nat, b: nat, c: nat, d: nat := s[at], s[at + 1], s[at + 2], s[at + 3];
    0x100_0000 * a + 0x1_0000 * b + 0x100 * c + d
  }

  function ToBe32(x: nat): (s: seq<byte>)
    requires x < 0x1_0000_0000
    ensures |s| == 4
  {
    [x / 0x100_0000, (x / 0x1_0000) % 0x100, (x / 0x100) % 0x100, x % 0x100]
  }

  lemma Be32RoundTrip(x: nat)
    requires x < 0x1_0000_0000
    ensures Be32(ToBe32(x), 0) == x
  {
    var q1 := x / 0x100;
    var q2 := q1 / 0x100;
    var q3 := q2 / 0x100;
    assert x / 0x1_0000 == q2 && x / 0x100_0000 == q3;
    assert x == 0x100 * q1 + x % 0x100 && q1 == 0x100 * q2 + q1 % 0x100 && q2 == 0x100 * q3 + q2 % 0x100;
    var s := ToBe32(x);
    assert s[0] == q3 && s[1] == q2 % 0x100 && s[2] == q1 % 0x100 && s[3] == x % 0x100;
  }

  lemma Be32Slice(s: seq<byte>, at: nat)
    requires at + 4 <= |s|
    ensures Be32(s, at) == Be32(s[at..at + 4], 0)
  {
  }

  // The length a message claims for itself.
  function LenOf(s: seq<byte>): nat
    requires MSG_HDRLEN <= |s|
  {
    Be32(s, LEN_AT)
  }

  // A message with its padding, as it appears on the wire.
  predicate Framed(m: seq<byte>) {
    MSG_HDRLEN <= |m| <= RECVBUF_LEN && LenOf(m) == |m|
  }

  // createMsg, msg.c:15-22 and 55-61: the length covers header, payload and padding.
  function CreateMsg(id: seq<byte>, kind: nat, time: seq<byte>, payload: seq<byte>, padding: nat): seq<byte>
    requires |id| == 24 && |time| == 16 && kind < 0x1_0000_0000 && MSG_HDRLEN + |payload| + padding < 0x1_0000_0000
  {
    id + ToBe32(kind) + ToBe32(MSG_HDRLEN + |payload| + padding) + time + payload
  }

  /** Every created message, with its padding, is framed; its type reads back. */
  lemma CreatedIsFramed(id: seq<byte>, kind: nat, time: seq<byte>, payload: seq<byte>, padding: nat)
    requires |id| == 24 && |time| == 16 && kind < 0x1_0000_0000 && MSG_HDRLEN + |payload| + padding <= RECVBUF_LEN
    ensures var m := CreateMsg(id, kind, time, payload, padding);
      Framed(m + Zeros(padding)) && Be32(m, TYPE_AT) == kind
  {
    var m := CreateMsg(id, kind, time, payload, padding);
    Be32RoundTrip(kind);
    Be32RoundTrip(MSG_HDRLEN + |payload| + padding);
    assert m[TYPE_AT..TYPE_AT + 4] == ToBe32(kind);
    assert (m + Zeros(padding))[LEN_AT..LEN_AT + 4] == ToBe32(MSG_HDRLEN + |payload| + padding);
    Be32Slice(m, TYPE_AT);
    Be32Slice(m + Zeros(padding), LEN_AT);
  }

  /** The length and the type are in network order. */
  lemma NetworkOrder(x: nat)
    requires x < 0x1_0000_0000
    ensures var s := ToBe32(x);
      var a: int, b: int, c: int, d: int := s[0], s[1], s[2], s[3];
      x == 0x100_0000 * a + 0x1_0000 * b + 0x100 * c + d
  {
    Be32RoundTrip(x);
  }

  // A message as its sender means it.
  datatype Created = Created(id: seq<byte>, kind: nat, time: seq<byte>, payload: seq<byte>, padding: nat)

  // A message as its receiver reads it (parseMsgHdr, msg.c:46-53): header and what follows it.
  datatype Parsed = Parsed(id: seq<byte>, kind: nat, len: nat, time: seq<byte>, body: seq<byte>)

  predicate Fits(m: Created) {
    && |m.id| == 24 && |m.time| == 16 && m.kind < 0x1_0000_0000
    && MSG_HDRLEN + |m.payload| + m.padding <= RECVBUF_LEN
  }

  function Buffer(m: Created): seq<byte>
    requires Fits(m)
  {
    CreateMsg(m.id, m.kind, m.time, m.payload, m.padding)
  }

  function Parse(s: seq<byte>): Parsed
    requires MSG_HDRLEN <= |s|
  {
    Parsed(s[..TYPE_AT], Be32(s, TYPE_AT), Be32(s, LEN_AT), s[LEN_AT + 4..MSG_HDRLEN], s[MSG_HDRLEN..])
  }

  // What the receiver is to read.
  function Meant(m: Created): Parsed {
    Parsed(m.id, m.kind, MSG_HDRLEN + |m.payload| + m.padding, m.time, m.payload + Zeros(m.padding))
  }

  /** Parsing a created message with its padding gives back everything it was made of. */
  lemma CreatedParses(m: Created)
    requires Fits(m)
    ensures Framed(Buffer(m) + Zeros(m.padding)) && Parse(Buffer(m) + Zeros(m.padding)) == Meant(m)
  {
    var s := Buffer(m) + Zeros(m.padding);
    CreatedIsFramed(m.id, m.kind, m.time, m.payload, m.padding);
    Be32Slice(s, TYPE_AT);
    Be32Slice(Buffer(m), TYPE_AT);
    assert s[TYPE_AT..TYPE_AT + 4] == Buffer(m)[TYPE_AT..TYPE_AT + 4];
    assert s[..TYPE_AT] == m.id && s[LEN_AT + 4..MSG_HDRLEN] == m.time;
    assert s[MSG_HDRLEN..] == m.payload + Zeros(m.padding);
  }

  function Concat(ms: seq<seq<byte>>): seq<byte> {
    if ms == [] then [] else ms[0] + Concat(ms[1..])
  }

  // ---- sending

  datatype MsgToken = MsgToken(buf: seq<byte>, padding: nat, sent: nat)

  // What a token still has to send.
  function Rest(t: MsgToken): seq<byte>
    requires t.sent <= |t.buf| + t.padding
  {
    (t.buf + Zeros(t.padding))[t.sent..]
  }

  function QueueBytes(q: seq<MsgToken>): seq<byte> {
    if q == [] then [] else q[0].buf + Zeros(q[0].padding) + QueueBytes(q[1..])
  }

  function QueueLength(q: seq<MsgToken>): nat {
    if q == [] then 0 else |q[0].buf| + q[0].padding + QueueLength(q[1..])
  }

  lemma {:induction false} QueueLengthIs(q: seq<MsgToken>)
    ensures QueueLength(q) == |QueueBytes(q)|
  {
    if q != [] { QueueLengthIs(q[1..]); }
  }

  /** The sending side of a connection. */
  class Outgoing {
    var queue: seq<MsgToken>
    var remain: Option<MsgToken>
    var wire: seq<byte>           // bytes the kernel has accepted

    ghost predicate Valid()
      reads this
    {
      && (forall i :: 0 <= i < |queue| ==> queue[i].buf != [] && queue[i].sent == 0)
      && (remain.Some? ==> remain.value.sent < |remain.value.buf| + remain.value.padding)
    }

    // Everything handed to this connection so far.
    ghost function Stream(): seq<byte>
      reads this
      requires Valid()
    {
      wire + (if remain.Some? then Rest(remain.value) else []) + QueueBytes(queue)
    }

    // How many bytes are still to be sent.
    function Outstanding(): (n: nat)
      reads this
      requires Valid()
      ensures n == |Stream()| - |wire|
    {
      QueueLengthIs(queue);
      (if remain.Some? then |remain.value.buf| + remain.value.padding - remain.value.sent else 0) + QueueLength(queue)
    }

    constructor ()
      ensures Valid() && Stream() == [] && wire == []
    {
      queue, remain, wire := [], None, [];
    }

    method Enqueue(buf: seq<byte>, padding: nat)
      requires Valid() && buf != []
      modifies this`queue
      ensures Valid() && Stream() == old(Stream()) + buf + Zeros(padding)
      ensures queue == old(queue) + [MsgToken(buf, padding, 0)]
    {
      var t := MsgToken(buf, padding, 0);
      QueueBytesPush(queue, t);
      queue := queue + [t];
    }

    /** sendMsg (hero.c:493-556): `accepts` are the kernel's answers to the successive calls of send, -1 after
        them. What goes out is the front of the stream, as far as the kernel takes it. */
    method SendMsg(accepts: seq<int>) returns (total: nat)
      requires Valid()
      modifies this
      ensures Valid() && Stream() == old(Stream())
      ensures |wire| == |old(wire)| + total && old(wire) <= wire
      ensures Outcome(remain, queue, total) == Taken(old(remain), old(queue), accepts)
    {
      hide QueueBytes, Rest;
      total := 0;
      ghost var all := Taken(remain, queue, accepts);
      var calls := 0;
      while true
        invariant Valid() && Stream() == old(Stream())
        invariant |wire| == |old(wire)| + total && old(wire) <= wire
        invariant calls <= |accepts| && all == More(total, Taken(remain, queue, accepts[calls..]))
        decreases |queue| + if remain.Some? then 1 else 0
      {
        var have := Fetch();
        if !have {
          break;
        }
        var answer := if calls < |accepts| then accepts[calls] else -1;
        ghost var t, q, rest := remain.value, queue, accepts[calls..];
        var n, finished := SendOnce(answer);
        TakenOnce(t, q, rest);
        if calls < |accepts| {
          calls := calls + 1;
          assert rest[1..] == accepts[calls..];
        }
        total := total + n;
        if !finished {
          break;
        }
      }
    }

    // The token in hand, or the next one of the queue.
    method Fetch() returns (have: bool)
      requires Valid()
      modifies this`queue, this`remain
      ensures Valid() && Stream() == old(Stream())
      ensures have == remain.Some? && (!have ==> queue == [])
      ensures forall accepts :: Taken(remain, queue, accepts) == Taken(old(remain), old(queue), accepts)
      ensures |queue| + (if remain.Some? then 1 else 0) <= |old(queue)| + if old(remain).Some? then 1 else 0
    {
      if remain == None {
        if queue == [] {
          return false;
        }
        var t := queue[0];
        var padded := t.buf + Zeros(t.padding);
        assert Rest(t) == padded;
        assert wire + [] + (padded + QueueBytes(queue[1..])) == wire + padded + QueueBytes(queue[1..]);
        remain := Some(t);
        queue := queue[1..];
      }
      return true;
    }

    // One call of send: the message first, the padding only when the message is out.
    method SendOnce(answer: int) returns (n: nat, finished: bool)
      requires Valid() && remain.Some?
      modifies this`remain, this`wire
      ensures Valid() && Stream() == old(Stream())
      ensures |wire| == |old(wire)| + n && old(wire) <= wire
      ensures n == Granted(old(remain.value), answer) && finished == (remain == None)
      ensures var t := old(remain.value);
        n == if answer <= 0 then 0 else Min(answer, if t.sent < |t.buf| then |t.buf| - t.sent else |Rest(t)|)
      ensures remain == Advance(old(remain.value), n)
    {
      hide QueueBytes;
      var t := remain.value;
      var want := if t.sent < |t.buf| then |t.buf| - t.sent else |t.buf| + t.padding - t.sent;
      n := if answer <= 0 then 0 else if answer > want then want else answer;
      if n == 0 {
        return n, false;
      }
      ghost var before := wire;
      var part := if t.sent < |t.buf| then t.buf[t.sent..t.sent + n] else Zeros(n);
      RestSplits(t, n, part);
      wire := wire + part;
      if t.sent + n == |t.buf| + t.padding {
        remain := None;
        assert Rest(t.(sent := t.sent + n)) == [];
      } else {
        remain := Some(t.(sent := t.sent + n));
      }
      finished := remain == None;
      assert before + (part + Rest(t.(sent := t.sent + n))) == before + part + Rest(t.(sent := t.sent + n));
    }
  }

  // ---- how much one call of sendMsg sends

  // What is left in hand and in the queue, and the number of bytes the kernel took.
  datatype Outcome = Outcome(remain: Option<MsgToken>, queue: seq<MsgToken>, sent: nat)

  function More(n: nat, o: Outcome): Outcome { o.(sent := n + o.sent) }

  // One call of send is given the rest of the message, or of the padding, and takes as much as it likes.
  function Granted(t: MsgToken, answer: int): (n: nat)
    requires t.sent < |t.buf| + t.padding
    ensures t.sent + n <= |t.buf| + t.padding
  {
    if answer <= 0 then 0 else Min(answer, if t.sent < |t.buf| then |t.buf| - t.sent else |t.buf| + t.padding - t.sent)
  }

  function Advance(t: MsgToken, n: nat): Option<MsgToken> {
    if t.sent + n == |t.buf| + t.padding then None else Some(t.(sent := t.sent + n))
  }

  predicate Open(t: MsgToken) { t.sent < |t.buf| + t.padding }

  /** The call goes on as long as each send finishes a token: one that is cut short, or that only finishes the
      message before its padding, is the last. */
  function Taken(remain: Option<MsgToken>, queue: seq<MsgToken>, accepts: seq<int>): Outcome
    decreases |queue| + if remain.Some? then 1 else 0
  {
    if remain == None && queue == [] then Outcome(None, [], 0)
    else
      var t := if remain.Some? then remain.value else queue[0];
      var q := if remain.Some? then queue else queue[1..];
      if !Open(t) || accepts == [] || accepts[0] <= 0 then Outcome(Some(t), q, 0)
      else
        var n := Granted(t, accepts[0]);
        if Advance(t, n) == None then More(n, Taken(None, q, accepts[1..]))
        else Outcome(Advance(t, n), q, n)
  }

  lemma TakenOnce(t: MsgToken, q: seq<MsgToken>, accepts: seq<int>)
    requires Open(t)
    ensures var n := Granted(t, if accepts == [] then -1 else accepts[0]);
      Taken(Some(t), q, accepts) ==
        if n > 0 && Advance(t, n) == None then More(n, Taken(None, q, accepts[1..])) else Outcome(Advance(t, n), q, n)
  {
  }

  /** A call sends nothing exactly when there is nothing to send or the kernel takes nothing. */
  lemma NothingTaken(remain: Option<MsgToken>, queue: seq<MsgToken>, accepts: seq<int>)
    requires remain.Some? ==> Open(remain.value)
    requires forall i :: 0 <= i < |queue| ==> Open(queue[i])
    ensures Taken(remain, queue, accepts).sent == 0
       <==> (remain == None && queue == []) || accepts == [] || accepts[0] <= 0
  {
  }

  /** One answer of the kernel sends as many bytes of the first token as the kernel takes, up to the end of the message
      or of its padding. */
  lemma OneAnswer(t: MsgToken, queue: seq<MsgToken>, answer: int)
    requires Open(t) && answer > 0
    ensures Taken(Some(t), queue, [answer]).sent
         == Min(answer, if t.sent < |t.buf| then |t.buf| - t.sent else |t.buf| + t.padding - t.sent)
    ensures t.sent == 0 ==> Taken(None, [t] + queue, [answer]) == Taken(Some(t), queue, [answer])
  {
    assert ([t] + queue)[1..] == queue;
  }

  // No padding is left to send behind the message.
  predicate Plain(t: MsgToken) { t.padding == 0 || |t.buf| <= t.sent }

  function Tokens(remain: Option<MsgToken>, queue: seq<MsgToken>): seq<MsgToken> {
    if remain.Some? then [remain.value] + queue else queue
  }

  // The kernel takes whatever it is given, in every call that may be made.
  predicate Willing(ts: seq<MsgToken>, accepts: seq<int>) {
    && |ts| <= |accepts|
    && forall i, j :: 0 <= i < |accepts| && 0 <= j < |ts| ==> accepts[i] >= |ts[j].buf| + ts[j].padding
  }

  /** When the kernel takes all it is given, one call empties the queue unless some message has padding to follow:
      the call ends with that message and leaves its padding to the next. */
  lemma {:induction false} AllTaken(remain: Option<MsgToken>, queue: seq<MsgToken>, accepts: seq<int>)
    requires forall t :: t in Tokens(remain, queue) ==> Open(t)
    requires Willing(Tokens(remain, queue), accepts)
    ensures var o := Taken(remain, queue, accepts);
      o.remain == None && o.queue == [] <==> forall t :: t in Tokens(remain, queue) ==> Plain(t)
    decreases |queue| + if remain.Some? then 1 else 0
  {
    var ts := Tokens(remain, queue);
    if ts != [] {
      var q := if remain.Some? then queue else queue[1..];
      assert ts == [ts[0]] + q;
      WillingRest(ts[0], q, accepts);
      assert ts[0] in ts;
      if Plain(ts[0]) { AllTaken(None, q, accepts[1..]); }
      assert forall t :: t in ts <==> t == ts[0] || t in q;
    }
  }

  lemma WillingRest(t: MsgToken, q: seq<MsgToken>, accepts: seq<int>)
    requires Willing([t] + q, accepts)
    ensures accepts[0] >= |t.buf| + t.padding && Willing(q, accepts[1..])
  {
    var ts, rest := [t] + q, accepts[1..];
    assert accepts[0] >= |ts[0].buf| + ts[0].padding;
    forall i, j | 0 <= i < |rest| && 0 <= j < |q| ensures rest[i] >= |q[j].buf| + q[j].padding {
      assert accepts[i + 1] >= |ts[j + 1].buf| + ts[j + 1].padding;
    }
  }

  lemma {:induction false} QueueBytesPush(q: seq<MsgToken>, t: MsgToken)
    ensures QueueBytes(q + [t]) == QueueBytes(q) + t.buf + Zeros(t.padding)
  {
    if q == [] {
      assert (q + [t])[1..] == [];
    } else {
      QueueBytesPush(q[1..], t);
      assert (q + [t])[1..] == q[1..] + [t];
      Regroup(q[0].buf + Zeros(q[0].padding), QueueBytes(q[1..]), t.buf, Zeros(t.padding));
    }
  }

  lemma Regroup(a: seq<byte>, b: seq<byte>, c: seq<byte>, d: seq<byte>)
    ensures a + (b + c + d) == a + b + c + d
  {
  }

  lemma RestSplits(t: MsgToken, n: nat, part: seq<byte>)
    requires t.sent + n <= |t.buf| + t.padding
    requires if t.sent < |t.buf| then t.sent + n <= |t.buf| && part == t.buf[t.sent..t.sent + n] else part == Zeros(n)
    ensures Rest(t) == part + Rest(t.(sent := t.sent + n))
  {
    var w := t.buf + Zeros(t.padding);
    assert w[t.sent..] == w[t.sent..t.sent + n] + w[t.sent + n..];
    assert w[t.sent..t.sent + n] == part;
  }

  // ---- receiving

  // Bytes that can be cut into messages, the last one perhaps incomplete.
  predicate Parseable(s: seq<byte>)
    decreases |s|
  {
    |s| < MSG_HDRLEN ||
    (MSG_HDRLEN <= LenOf(s) <= RECVBUF_LEN && (|s| < LenOf(s) || Parseable(s[LenOf(s)..])))
  }

  predicate Complete(s: seq<byte>) {
    MSG_HDRLEN <= |s| && MSG_HDRLEN <= LenOf(s) <= |s|
  }

  // The whole messages at the front of `s`.
  function Messages(s: seq<byte>): seq<seq<byte>>
    decreases |s|
  {
    if Complete(s) then [s[..LenOf(s)]] + Messages(s[LenOf(s)..]) else []
  }

  lemma MessagesFirst(s: seq<byte>)
    requires Complete(s) && Parseable(s)
    ensures Messages(s) == [s[..LenOf(s)]] + Messages(s[LenOf(s)..]) && Remainder(s) == Remainder(s[LenOf(s)..])
    ensures Parseable(s[LenOf(s)..])
  {
  }

  // What is left after them.
  function Remainder(s: seq<byte>): seq<byte>
    decreases |s|
  {
    if Complete(s) then Remainder(s[LenOf(s)..]) else s
  }

  /** The receive buffer of a descriptor. */
  class Incoming {
    const recvBuf: array<byte>
    var recvEd: nat
    var recvExpect: nat
    var kind: nat

    ghost predicate Valid()
      reads this, recvBuf
    {
      && recvBuf.Length == RECVBUF_LEN && recvEd < RECVBUF_LEN
      && !Complete(Held()) && Parseable(Held())
      && Header()
    }

    // The header is parsed as soon as it is all there.
    ghost predicate Header()
      reads this, recvBuf
      requires recvBuf.Length == RECVBUF_LEN && recvEd <= RECVBUF_LEN
    {
      if recvEd < MSG_HDRLEN then kind == MSG_NONTYPE && recvExpect == BYTE_MAX
      else kind == Be32(Held(), TYPE_AT) && recvExpect == LenOf(Held())
    }

    ghost function Held(): seq<byte>
      reads this, recvBuf
      requires recvEd <= recvBuf.Length
    {
      recvBuf[..recvEd]
    }

    constructor ()
      ensures Valid() && Held() == [] && fresh(recvBuf)
    {
      recvBuf := new byte[RECVBUF_LEN];
      recvEd, recvExpect, kind := 0, BYTE_MAX, MSG_NONTYPE;
    }

    /** One read of `chunk` (thread_recv.c:76-352): what comes out and what stays behind are the messages and the
        remainder of the bytes held, and there is always room for another read. */
    method OnRead(chunk: seq<byte>) returns (out: seq<seq<byte>>)
      requires Valid() && 0 < |chunk| <= RECVBUF_LEN - recvEd && Parseable(Held() + chunk)
      modifies this, recvBuf
      ensures Valid()
      ensures out == Messages(old(Held()) + chunk)
      ensures Held() == Remainder(old(Held()) + chunk)
    {
      ghost var s := Held() + chunk;
      Append(chunk);
      assert [] + Messages(s) == Messages(s);
      out := [];
      while recvEd > 0
        invariant recvBuf.Length == RECVBUF_LEN && recvEd <= RECVBUF_LEN
        invariant Parseable(Held())
        invariant (kind == MSG_NONTYPE && recvExpect == BYTE_MAX) || Header()
        invariant out + Messages(Held()) == Messages(s) && Remainder(Held()) == Remainder(s)
        decreases recvEd
      {
        ghost var held := Held();
        var m := TakeOne();
        if m == None {
          assert Messages(held) == [] && out + [] == out;
          break;
        }
        MessagesFirst(held);
        ListAssoc(out, [m.value], Messages(Held()));
        out := out + [m.value];
      }
    }

    // One turn of the loop: parse the header if it is new, and hand over the message if it is whole.
    method TakeOne() returns (m: Option<seq<byte>>)
      requires recvBuf.Length == RECVBUF_LEN && 0 < recvEd <= RECVBUF_LEN
      requires Parseable(Held())
      requires (kind == MSG_NONTYPE && recvExpect == BYTE_MAX) || Header()
      modifies this, recvBuf
      ensures recvEd <= RECVBUF_LEN
      ensures m == if Complete(old(Held())) then Some(old(Held())[..LenOf(old(Held()))]) else None
      ensures m.Some? ==> Held() == old(Held())[LenOf(old(Held()))..] && kind == MSG_NONTYPE && recvExpect == BYTE_MAX
      ensures m == None ==> Held() == old(Held()) && Header()
    {
      ghost var held := Held();
      m := None;
      if recvEd >= MSG_HDRLEN && kind == MSG_NONTYPE {
        ParseHeader();
      }
      if recvEd >= recvExpect {
        assert Complete(held) && recvExpect == LenOf(held);
        m := Some(recvBuf[..recvExpect]);
        assert m.value == held[..LenOf(held)];
        Shift();
      }
    }

    // parseMsgHdr, msg.c:46-53
    method ParseHeader()
      requires recvBuf.Length == RECVBUF_LEN && MSG_HDRLEN <= recvEd <= RECVBUF_LEN
      modifies this`kind, this`recvExpect
      ensures Header() && recvEd >= MSG_HDRLEN
    {
      kind := Be32(recvBuf[..], TYPE_AT);
      recvExpect := Be32(recvBuf[..], LEN_AT);
    }

    method Append(chunk: seq<byte>)
      requires recvBuf.Length == RECVBUF_LEN && recvEd + |chunk| <= RECVBUF_LEN
      modifies this`recvEd, recvBuf
      ensures recvEd == old(recvEd) + |chunk| && Held() == old(Held()) + chunk
    {
      forall i | 0 <= i < |chunk| {
        recvBuf[recvEd + i] := chunk[i];
      }
      recvEd := recvEd + |chunk|;
    }

    // Drop the message just handled and move the rest to the front (thread_recv.c:341-347).
    method Shift()
      requires recvBuf.Length == RECVBUF_LEN && recvExpect <= recvEd <= RECVBUF_LEN
      modifies this, recvBuf
      ensures recvEd == old(recvEd) - old(recvExpect) && Held() == old(Held())[old(recvExpect)..]
      ensures recvExpect == BYTE_MAX && kind == MSG_NONTYPE
    {
      recvEd := recvEd - recvExpect;
      if recvEd > 0 {
        forall i | 0 <= i < recvEd {
          recvBuf[i] := recvBuf[recvExpect + i];
        }
      }
      recvExpect := BYTE_MAX;
      kind := MSG_NONTYPE;
    }
  }

  // ---- the round trip

  lemma ListAssoc(a: seq<seq<byte>>, b: seq<seq<byte>>, c: seq<seq<byte>>)
    ensures a + (b + c) == a + b + c
  {
  }

  // A longer stream begins with the same messages.
  lemma {:induction false} MessagesAppend(a: seq<byte>, b: seq<byte>)
    ensures Messages(a + b) == Messages(a) + Messages(Remainder(a) + b)
    ensures Remainder(a + b) == Remainder(Remainder(a) + b)
    decreases |a|
  {
    if Complete(a) {
      var n := LenOf(a);
      assert LenOf(a + b) == n;
      assert (a + b)[n..] == a[n..] + b;
      assert (a + b)[..n] == a[..n];
      MessagesAppend(a[n..], b);
      ListAssoc([a[..n]], Messages(a[n..]), Messages(Remainder(a[n..]) + b));
    }
  }

  predicate AllFramed(ms: seq<seq<byte>>) {
    forall i :: 0 <= i < |ms| ==> Framed(ms[i])
  }

  /** Any part of a framed stream yields the messages that are whole in it and no others; all of it yields all. */
  lemma {:induction false} PrefixMessages(ms: seq<seq<byte>>, s: seq<byte>)
    requires AllFramed(ms) && s <= Concat(ms)
    ensures Messages(s) <= ms && (s == Concat(ms) ==> Messages(s) == ms && Remainder(s) == [])
    decreases |ms|
  {
    if ms != [] && |s| >= MSG_HDRLEN {
      var n := |ms[0]|;
      assert LenOf(s) == LenOf(Concat(ms)) == LenOf(ms[0]) == n;
      if |s| >= n {
        assert s[..n] == ms[0] && s[n..] <= Concat(ms[1..]);
        assert Concat(ms)[n..] == Concat(ms[1..]);
        PrefixMessages(ms[1..], s[n..]);
      }
    }
  }

  /** Every read of a framed stream finds the buffer in a state it can handle, with room to spare. */
  lemma {:induction false} PrefixParseable(ms: seq<seq<byte>>, s: seq<byte>)
    requires AllFramed(ms) && s <= Concat(ms)
    ensures Parseable(s) && Parseable(Remainder(s)) && |Remainder(s)| < RECVBUF_LEN
    decreases |ms|
  {
    if ms != [] && |s| >= MSG_HDRLEN {
      assert LenOf(s) == LenOf(Concat(ms)) == LenOf(ms[0]) == |ms[0]|;
      if |s| >= |ms[0]| {
        assert s[|ms[0]|..] <= Concat(ms[1..]);
        PrefixParseable(ms[1..], s[|ms[0]|..]);
      }
    }
  }

  /** What is held after any part of a framed stream, with the bytes of the next read, can be parsed. */
  lemma {:induction false} NextReadParseable(ms: seq<seq<byte>>, s: seq<byte>, chunk: seq<byte>)
    requires AllFramed(ms) && s + chunk <= Concat(ms)
    ensures Parseable(Remainder(s) + chunk)
    decreases |s|
  {
    PrefixParseable(ms, s + chunk);
    if Complete(s) {
      var n := LenOf(s);
      assert ms != [];
      assert LenOf(s + chunk) == n;
      assert LenOf(Concat(ms)) == n == LenOf(ms[0]) == |ms[0]|;
      assert (s + chunk)[n..] == s[n..] + chunk;
      assert s[n..] + chunk <= Concat(ms[1..]);
      NextReadParseable(ms[1..], s[n..], chunk);
    }
  }

  // What may happen on a connection, in any order.
  datatype LinkEvent =
    | Post(buf: seq<byte>, padding: nat)   // a message is put in the send queue
    | Writable(accepts: seq<int>)          // the socket can be written: sendMsg
    | Readable(size: nat)                  // the other end can read: at most `size` bytes

  predicate Postable(e: LinkEvent) { e.Post? ==> e.buf != [] && Framed(e.buf + Zeros(e.padding)) }

  predicate AllPostable(es: seq<LinkEvent>) {
    forall k :: 0 <= k < |es| ==> Postable(es[k])
  }

  lemma {:induction false} ConcatPush(ms: seq<seq<byte>>, m: seq<byte>)
    ensures Concat(ms + [m]) == Concat(ms) + m
  {
    if ms == [] {
      assert (ms + [m])[1..] == [];
    } else {
      ConcatPush(ms[1..], m);
      assert (ms + [m])[1..] == ms[1..] + [m];
    }
  }

  /** The messages posted so far, with their padding; what is in hand and in the queue; and how many bytes the kernel
      has taken and the other end has read. */
  datatype Link = Link(ms: seq<seq<byte>>, remain: Option<MsgToken>, queue: seq<MsgToken>, sent: nat, read: nat)

  // The bytes the other end has read.
  function Front(l: Link): (s: seq<byte>)
    ensures s <= Concat(l.ms)
  {
    if l.read <= |Concat(l.ms)| then Concat(l.ms)[..l.read] else []
  }

  // One read takes as much as there is, as the buffer has room for, and as the network likes.
  function ReadLength(l: Link, size: nat): nat {
    Max(0, Min(size, Min(RECVBUF_LEN - |Remainder(Front(l))|, l.sent - l.read)))
  }

  function LinkStep(l: Link, e: LinkEvent): Link {
    match e
    case Post(buf, padding) =>
      l.(ms := l.ms + [buf + Zeros(padding)], queue := l.queue + [MsgToken(buf, padding, 0)])
    case Writable(accepts) =>
      var o := Taken(l.remain, l.queue, accepts);
      l.(remain := o.remain, queue := o.queue, sent := l.sent + o.sent)
    case Readable(size) => l.(read := l.read + ReadLength(l, size))
  }

  function LinkRun(es: seq<LinkEvent>): Link
    decreases |es|
  {
    if es == [] then Link([], None, [], 0, 0) else LinkStep(LinkRun(es[..|es| - 1]), es[|es| - 1])
  }

  lemma LinkRunPush(es: seq<LinkEvent>, k: nat)
    requires k < |es|
    ensures LinkRun(es[..k + 1]) == LinkStep(LinkRun(es[..k]), es[k])
  {
    assert es[..k + 1][..k] == es[..k];
  }

  /** The two ends are in the state the link describes, and `got` has come out. */
  ghost predicate InStep(o: Outgoing, i: Incoming, l: Link, got: seq<seq<byte>>)
    reads o, i, i.recvBuf
  {
    && o.Valid() && i.Valid() && AllFramed(l.ms) && o.Stream() == Concat(l.ms)
    && o.remain == l.remain && o.queue == l.queue && |o.wire| == l.sent && l.read <= l.sent
    && got == Messages(Front(l)) && i.Held() == Remainder(Front(l))
  }

  /** Framing round trip: however messages are posted, partially sent and read in pieces, what has come out is at
      every moment a part of what was put in, in order and whole; and it is all of it once every byte is read. */
  method Exchange(events: seq<LinkEvent>) returns (got: seq<seq<byte>>, missing: nat)
    requires AllPostable(events)
    ensures var l := LinkRun(events);
      && got == Messages(Front(l)) && missing == |Concat(l.ms)| - l.read
      && got <= l.ms && (missing == 0 ==> got == l.ms)
  {
    var o := new Outgoing();
    var i := new Incoming();
    got := [];
    var taken: nat := 0;
    for k := 0 to |events|
      invariant fresh(o) && fresh(i) && fresh(i.recvBuf)
      invariant InStep(o, i, LinkRun(events[..k]), got) && taken == LinkRun(events[..k]).read
    {
      LinkRunPush(events, k);
      taken, got := Handle(o, i, LinkRun(events[..k]), taken, got, events[k]);
    }
    assert events[..|events|] == events;
    missing := Finish(o, i, LinkRun(events), taken, got);
  }

  // The books at the end.
  method Finish(o: Outgoing, i: Incoming, ghost l: Link, taken: nat, ghost got: seq<seq<byte>>)
    returns (missing: nat)
    requires InStep(o, i, l, got) && taken == l.read
    ensures missing == |Concat(l.ms)| - l.read
    ensures got <= l.ms && (missing == 0 ==> got == l.ms)
  {
    missing := o.Outstanding() + |o.wire| - taken;
    PrefixMessages(l.ms, Front(l));
  }

  method Handle(o: Outgoing, i: Incoming, ghost l: Link, taken: nat, got: seq<seq<byte>>, e: LinkEvent)
    returns (taken': nat, got': seq<seq<byte>>)
    requires InStep(o, i, l, got) && taken == l.read && Postable(e)
    modifies o, i, i.recvBuf
    ensures InStep(o, i, LinkStep(l, e), got') && taken' == LinkStep(l, e).read
  {
    taken', got' := taken, got;
    match e
    case Post(buf, padding) => PostOne(o, i, l, got, buf, padding);
    case Writable(accepts) => SendSome(o, i, l, got, accepts);
    case Readable(size) => taken', got' := ReadSome(o, i, l, taken, got, size);
  }

  method PostOne(o: Outgoing, i: Incoming, ghost l: Link, ghost got: seq<seq<byte>>, buf: seq<byte>, padding: nat)
    requires InStep(o, i, l, got) && buf != [] && Framed(buf + Zeros(padding))
    modifies o
    ensures InStep(o, i, LinkStep(l, Post(buf, padding)), got)
  {
    o.Enqueue(buf, padding);
    ConcatPush(l.ms, buf + Zeros(padding));
    assert Concat(l.ms) + buf + Zeros(padding) == Concat(l.ms) + (buf + Zeros(padding));
    assert Front(LinkStep(l, Post(buf, padding))) == Front(l);
  }

  method SendSome(o: Outgoing, i: Incoming, ghost l: Link, ghost got: seq<seq<byte>>, accepts: seq<int>)
    requires InStep(o, i, l, got)
    modifies o
    ensures InStep(o, i, LinkStep(l, Writable(accepts)), got)
  {
    var total := o.SendMsg(accepts);
    assert Front(LinkStep(l, Writable(accepts))) == Front(l);
  }

  method ReadSome(o: Outgoing, i: Incoming, ghost l: Link, taken: nat, got: seq<seq<byte>>, size: nat)
    returns (taken': nat, got': seq<seq<byte>>)
    requires InStep(o, i, l, got) && taken == l.read
    modifies i, i.recvBuf
    ensures InStep(o, i, LinkStep(l, Readable(size)), got') && taken' == LinkStep(l, Readable(size)).read
  {
    hide Messages, Remainder, Parseable, Concat;
    taken', got' := taken, got;
    var n := Min(size, Min(RECVBUF_LEN - i.recvEd, |o.wire| - taken));
    if n > 0 {
      var chunk := o.wire[taken..taken + n];
      taken' := taken + n;
      ghost var l' := LinkStep(l, Readable(size));
      assert |i.Held()| == i.recvEd;
      assert o.wire <= Concat(l.ms);
      assert Front(l') == Front(l) + chunk;
      NextReadParseable(l.ms, Front(l), chunk);
      MessagesAppend(Front(l), chunk);
      var more := i.OnRead(chunk);
      got' := got + more;
    }
  }

  // ---- nothing gets stuck

  function RestLength(remain: Option<MsgToken>, queue: seq<MsgToken>): int {
    (if remain.Some? then |remain.value.buf| + remain.value.padding - remain.value.sent else 0) + QueueLength(queue)
  }

  ghost predicate LinkInv(l: Link) {
    && AllFramed(l.ms) && l.read <= l.sent <= |Concat(l.ms)|
    && l.sent + RestLength(l.remain, l.queue) == |Concat(l.ms)|
    && (l.remain.Some? ==> Open(l.remain.value))
    && forall k :: 0 <= k < |l.queue| ==> Open(l.queue[k]) && l.queue[k].sent == 0
  }

  lemma {:induction false} TakenConserves(remain: Option<MsgToken>, queue: seq<MsgToken>, accepts: seq<int>)
    requires remain.Some? ==> Open(remain.value)
    requires forall k :: 0 <= k < |queue| ==> Open(queue[k]) && queue[k].sent == 0
    ensures var o := Taken(remain, queue, accepts);
      && o.sent + RestLength(o.remain, o.queue) == RestLength(remain, queue)
      && 0 <= RestLength(o.remain, o.queue)
      && (o.remain.Some? ==> Open(o.remain.value))
      && forall k :: 0 <= k < |o.queue| ==> Open(o.queue[k]) && o.queue[k].sent == 0
    decreases |queue| + if remain.Some? then 1 else 0
  {
    if remain.Some? || queue != [] {
      var t := if remain.Some? then remain.value else queue[0];
      var q := if remain.Some? then queue else queue[1..];
      if accepts != [] && accepts[0] > 0 { TakenConserves(None, q, accepts[1..]); }
    }
  }

  lemma {:induction false} QueueLengthPush(q: seq<MsgToken>, t: MsgToken)
    ensures QueueLength(q + [t]) == QueueLength(q) + |t.buf| + t.padding
  {
    if q == [] {
      assert (q + [t])[1..] == [];
    } else {
      QueueLengthPush(q[1..], t);
      assert (q + [t])[1..] == q[1..] + [t];
    }
  }

  lemma {:induction false} LinkRunInv(es: seq<LinkEvent>)
    requires AllPostable(es)
    ensures LinkInv(LinkRun(es))
    decreases |es|
  {
    if es != [] {
      var l, e := LinkRun(es[..|es| - 1]), es[|es| - 1];
      LinkRunInv(es[..|es| - 1]);
      match e
      case Post(buf, padding) =>
        ConcatPush(l.ms, buf + Zeros(padding));
        QueueLengthPush(l.queue, MsgToken(buf, padding, 0));
      case Writable(accepts) => TakenConserves(l.remain, l.queue, accepts);
      case Readable(size) =>
    }
  }

  lemma LinkPush(es: seq<LinkEvent>, e: LinkEvent)
    ensures LinkRun(es + [e]) == LinkStep(LinkRun(es), e)
  {
    hide LinkStep;
    assert (es + [e])[..|es|] == es;
  }

  lemma LinkMoves(es: seq<LinkEvent>, accepts: seq<int>, size: nat)
    requires AllPostable(es) && accepts != [] && accepts[0] > 0 && size > 0
    ensures var l := LinkRun(es);
      && l.read <= l.sent <= |Concat(l.ms)| && |Remainder(Front(l))| < RECVBUF_LEN
      && (l.sent < |Concat(l.ms)| ==> Taken(l.remain, l.queue, accepts).sent > 0)
  {
    var l := LinkRun(es);
    hide LinkRun;
    LinkRunInv(es);
    NothingTaken(l.remain, l.queue, accepts);
    PrefixParseable(l.ms, Front(l));
  }

  /** Whatever has happened, the next call of send that the kernel answers moves bytes as long as some are unsent, and
      the next read does as long as some are unread: the receive buffer is never full with no message in it. */
  lemma NeverStuck(es: seq<LinkEvent>, accepts: seq<int>, size: nat)
    requires AllPostable(es) && accepts != [] && accepts[0] > 0 && size > 0
    ensures var l := LinkRun(es);
      && l.read <= l.sent <= |Concat(l.ms)|
      && (l.sent < |Concat(l.ms)| ==> LinkRun(es + [Writable(accepts)]).sent > l.sent)
      && (l.read < l.sent ==> LinkRun(es + [Readable(size)]).read > l.read)
      && LinkRun(es + [Readable(size)]).read
         == l.read + Min(size, Min(RECVBUF_LEN - |Remainder(Front(l))|, l.sent - l.read))
  {
    hide LinkRun, Taken, LinkInv, Remainder, Parseable, Messages, Concat;
    LinkMoves(es, accepts, size);
    LinkPush(es, Writable(accepts));
    LinkPush(es, Readable(size));
  }

  // ---- from message to message

  // What may happen on a connection over which created messages are sent.
  datatype TalkEvent = Say(m: Created) | Goes(accepts: seq<int>) | Comes(size: nat)

  predicate Sayable(es: seq<TalkEvent>) {
    forall k :: 0 <= k < |es| && es[k].Say? ==> Fits(es[k].m)
  }

  function AsLink(e: TalkEvent): LinkEvent
    requires e.Say? ==> Fits(e.m)
  {
    match e
    case Say(m) => Post(Buffer(m), m.padding)
    case Goes(accepts) => Writable(accepts)
    case Comes(size) => Readable(size)
  }

  function AsLinks(es: seq<TalkEvent>): (ls: seq<LinkEvent>)
    requires Sayable(es)
    ensures |ls| == |es| && forall k :: 0 <= k < |es| ==> ls[k] == AsLink(es[k])
  {
    seq(|es|, k requires 0 <= k < |es| => AsLink(es[k]))
  }

  function Said(es: seq<TalkEvent>): seq<Created> {
    if es == [] then [] else Said(es[..|es| - 1]) + if es[|es| - 1].Say? then [es[|es| - 1].m] else []
  }

  lemma {:induction false} SaidIsPosted(es: seq<TalkEvent>)
    requires Sayable(es)
    ensures var ms, sent := LinkRun(AsLinks(es)).ms, Said(es);
      |ms| == |sent| && forall k :: 0 <= k < |ms| ==> Fits(sent[k]) && ms[k] == Buffer(sent[k]) + Zeros(sent[k].padding)
    decreases |es|
  {
    hide Taken, ReadLength, Buffer;
    if es != [] {
      var before := es[..|es| - 1];
      SaidIsPosted(before);
      assert AsLinks(es)[..|es| - 1] == AsLinks(before);
    }
  }

  /** What is heard is what was said: every message that comes out parses to the identifier, type, time and payload of
      the message that was put in at its place, and once every byte has been read all of them have come out. */
  method Converse(es: seq<TalkEvent>) returns (heard: seq<Parsed>, missing: nat)
    requires Sayable(es)
    ensures |heard| <= |Said(es)| && forall k :: 0 <= k < |heard| ==> heard[k] == Meant(Said(es)[k])
    ensures missing == 0 ==> |heard| == |Said(es)|
    ensures var l := LinkRun(AsLinks(es)); missing == |Concat(l.ms)| - l.read
  {
    hide LinkRun, AsLinks, Said, Buffer, Concat, Messages, Front, AllPostable, Sayable;
    SayablePostable(es);
    SaidIsPosted(es);
    ghost var ms := LinkRun(AsLinks(es)).ms;
    var got: seq<seq<byte>>;
    got, missing := Exchange(AsLinks(es));
    heard := [];
    for k := 0 to |got|
      invariant |heard| == k <= |ms| && forall j :: 0 <= j < k ==> heard[j] == Meant(Said(es)[j])
    {
      assert got[k] == ms[k];
      CreatedParses(Said(es)[k]);
      heard := heard + [Parse(got[k])];
    }
  }

  lemma SayablePostable(es: seq<TalkEvent>)
    requires Sayable(es)
    ensures AllPostable(AsLinks(es))
  {
    forall k | 0 <= k < |es| ensures Postable(AsLinks(es)[k]) {
      if es[k].Say? { CreatedParses(es[k].m); }
    }
  }
}
