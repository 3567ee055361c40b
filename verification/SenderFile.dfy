/** How the sender cuts packets out of its file: a stream that rewinds for the multicast, seeks for the patches. */
module SenderFile {
  import opened Basics
  import opened Geometry
  import opened Cover
  import opened Transport

  /** A stdio file open for reading. */
  class File {
    const data: seq<byte>
    var pos: nat

    constructor (bytes: seq<byte>)
      ensures data == bytes && pos == 0
    {
      data := bytes;
      pos := 0;
    }

    // fread of `len` one-byte items
    method Read(len: nat) returns (b: seq<byte>)
      modifies this
      ensures b == if old(pos) < |data| then data[old(pos)..Min(old(pos) + len, |data|)] else []
      ensures pos == old(pos) + |b|
    {
      b := if pos < |data| then data[pos..Min(pos + len, |data|)] else [];
      pos := pos + |b|;
    }

    method Seek(p: nat)
      modifies this
      ensures pos == p
    {
      pos := p;
    }
  }

  // The cursor is where packet `i` starts, or at the end of the file when the cycle has come round to packet 0.
  ghost predicate AtPacket(g: Geo, pos: nat, i: nat) {
    pos == g.Off(i) || (i == 0 && pos == g.D())
  }

  /** createData and createDataFromFile (hero.c:1156-1162, msg.c:75-83): a read that comes back empty rewinds. */
  method CreateData(f: File, i: nat, seqMax: nat, payload: nat, payloadMin: nat, ghost g: Geo) returns (data: seq<byte>)
    requires g.Valid() && f.data == g.data && i < g.N
    requires seqMax == g.N && payload == g.P && payloadMin == g.Len(g.N - 1)
    requires AtPacket(g, f.pos, i)
    modifies f
    ensures data == g.Packet(i)
    ensures f.pos == g.End(i + 1)
  {
    g.EndStep(i);
    var dataBytes := if i + 1 == seqMax then payloadMin else payload;
    data := f.Read(dataBytes);
    if |data| == 0 {
      f.Seek(0);
      data := f.Read(dataBytes);
    }
  }

  // Packet `k` of the endless stream.
  function StreamPacket(g: Geo, k: nat): (p: seq<byte>)
    requires g.Valid()
  {
    g.Packet(k % g.N)
  }

  lemma NextMod(k: nat, n: nat)
    requires n > 0
    ensures (k + 1) % n == if k % n + 1 == n then 0 else k % n + 1
  {
    var q, r := k / n, k % n;
    assert k == q * n + r;
    if r + 1 == n {
      assert k + 1 == (q + 1) * n + 0;
      RemainderIs(k + 1, n, q + 1, 0);
    } else {
      RemainderIs(k + 1, n, q, r + 1);
    }
  }

  /** The multicast stream (thread_data.c:454-495): only `file` and `seqCur` are kept between bursts. */
  class Streamer {
    ghost const g: Geo
    const seqMax: nat
    const bytePayload: nat
    const bytePayloadMin: nat
    const file: File
    var seqCur: nat

    ghost predicate Valid()
      reads this, file
    {
      && g.Valid() && file.data == g.data
      && seqMax == g.N && bytePayload == g.P && bytePayloadMin == g.Len(g.N - 1)
      && AtPacket(g, file.pos, seqCur % g.N)
    }

    // createBcdState, hero.c:849-885
    constructor (ghost geo: Geo, bytes: seq<byte>, payloadLen: nat)
      requires geo.Valid() && bytes == geo.data && payloadLen == geo.P
      ensures Valid() && g == geo && seqCur == 0 && fresh(file)
    {
      SenderGeometry(geo);
      g := geo;
      seqMax := SenderSeqMax(|bytes|, payloadLen);
      bytePayload := payloadLen;
      bytePayloadMin := SenderPayloadMin(|bytes|, payloadLen);
      file := new File(bytes);
      seqCur := 0;
      new;
      assert 0 % g.N == 0;
    }

    /** Over any number of rounds, packet k of the stream is packet k mod N of the file. */
    method SendBurst(n: nat) returns (sent: seq<(nat, seq<byte>)>)
      requires Valid()
      modifies this`seqCur, file
      ensures Valid() && seqCur == old(seqCur) + n
      ensures |sent| == n
      ensures forall j :: 0 <= j < n ==> sent[j] == ((old(seqCur) + j) % g.N, StreamPacket(g, old(seqCur) + j))
    {
      sent := [];
      var mi := n;
      while mi > 0
        invariant 0 <= mi <= n && seqCur == old(seqCur) + n - mi && Valid()
        invariant |sent| == n - mi
        invariant forall j :: 0 <= j < |sent| ==> sent[j] == ((old(seqCur) + j) % g.N, StreamPacket(g, old(seqCur) + j))
      {
        var i := seqCur % seqMax;
        var payload := CreateData(file, i, seqMax, bytePayload, bytePayloadMin, g);
        sent := sent + [(i, payload)];
        NextMod(seqCur, seqMax);
        seqCur := seqCur + 1;
        mi := mi - 1;
      }
    }
  }

  // ---- patches

  const APR_QUEUE_CAPACITY: nat := 200

  // A message waiting in a send queue: a patch, or anything else.
  datatype Item = PatchData(i: nat, payload: seq<byte>) | Control(kind: nat)

  // The sequence numbers of the patches in a queue.
  function Patches(q: seq<Item>): seq<nat> {
    if q == [] then [] else Patches(q[..|q| - 1]) + if q[|q| - 1].PatchData? then [q[|q| - 1].i] else []
  }

  lemma PatchesPush(q: seq<Item>, m: Item)
    ensures Patches(q + [m]) == Patches(q) + if m.PatchData? then [m.i] else []
  {
    assert (q + [m])[..|q|] == q;
  }

  // The other messages in a queue.
  function Controls(q: seq<Item>): seq<nat> {
    if q == [] then [] else Controls(q[..|q| - 1]) + if q[|q| - 1].Control? then [q[|q| - 1].kind] else []
  }

  lemma ControlsPush(q: seq<Item>, m: Item)
    ensures Controls(q + [m]) == Controls(q) + if m.Control? then [m.kind] else []
  {
    assert (q + [m])[..|q|] == q;
  }

  ghost predicate Genuine(g: Geo, m: Item)
    requires g.Valid()
  {
    m.PatchData? ==> m.i < g.N && m.payload == g.Packet(m.i)
  }

  ghost predicate AllGenuine(g: Geo, q: seq<Item>)
    requires g.Valid()
  {
    forall i :: 0 <= i < |q| ==> Genuine(g, q[i])
  }

  // `q` is `q0` with genuine patches behind it, which never took it above half the capacity plus one.
  ghost predicate Grown(g: Geo, q0: seq<Item>, q: seq<Item>)
    requires g.Valid()
  {
    && AllGenuine(g, q)
    && q0 <= q
    && (forall i :: |q0| <= i < |q| ==> q[i].PatchData?)
    && (|q| > |q0| ==> |q| <= APR_QUEUE_CAPACITY / 2 + 1)
  }

  lemma GrownPush(g: Geo, q0: seq<Item>, q: seq<Item>, m: Item)
    requires g.Valid() && Grown(g, q0, q) && m.PatchData? && Genuine(g, m) && |q| <= APR_QUEUE_CAPACITY / 2
    ensures Grown(g, q0, q + [m])
  {
  }

  lemma FlatUsedUp(ring: seq<Tuple>)
    requires ring != [] && ring[0].stt == ring[0].end
    ensures Flat(ring) == Flat(ring[1..])
  {
    assert Range(ring[0].stt, ring[0].end) == [];
    assert [] + Flat(ring[1..]) == Flat(ring[1..]);
  }

  lemma FlatHead(ring: seq<Tuple>, t: Tuple)
    requires ring != []
    ensures Flat(ring[0 := t]) == Range(t.stt, t.end) + Flat(ring[1..])
  {
    assert ring[0 := t][1..] == ring[1..];
  }

  /** One connection to a receiver, from the sender's side. */
  class SendSocketState {
    ghost const g: Geo
    const seqMax: nat
    const bytePayload: nat
    const bytePayloadMin: nat
    const fdPatch: File
    var ring: seq<Tuple>        // oldest first
    var sendQueue: seq<Item>

    ghost predicate Valid()
      reads this
    {
      && g.Valid() && fdPatch.data == g.data
      && seqMax == g.N && bytePayload == g.P && bytePayloadMin == g.Len(g.N - 1)
      && |sendQueue| <= APR_QUEUE_CAPACITY
      && (forall i :: 0 <= i < |ring| ==> ring[i].stt <= ring[i].end <= g.N)
    }

    // What this receiver is still to be sent, in order: the patches queued, then the ranges not yet read.
    ghost function Stream(): seq<nat>
      reads this
    {
      Patches(sendQueue) + Flat(ring)
    }

    constructor (ghost geo: Geo, bytes: seq<byte>, payloadLen: nat)
      requires geo.Valid() && bytes == geo.data && payloadLen == geo.P
      ensures Valid() && g == geo && ring == [] && sendQueue == [] && fresh(fdPatch)
    {
      SenderGeometry(geo);
      g := geo;
      seqMax := SenderSeqMax(|bytes|, payloadLen);
      bytePayload := payloadLen;
      bytePayloadMin := SenderPayloadMin(|bytes|, payloadLen);
      fdPatch := new File(bytes);
      ring, sendQueue := [], [];
    }

    // insertMsg2SendQ, hero.c:281-305
    method Insert(m: Item, priority: bool) returns (ok: bool)
      requires Valid()
      modifies this`sendQueue
      ensures Valid()
      ensures var n := |old(sendQueue)|;
        ok == if priority then n < APR_QUEUE_CAPACITY else n <= APR_QUEUE_CAPACITY / 2
      ensures sendQueue == if ok then old(sendQueue) + [m] else old(sendQueue)
    {
      if !priority && |sendQueue| > APR_QUEUE_CAPACITY / 2 {
        return false;
      }
      if |sendQueue| == APR_QUEUE_CAPACITY {
        return false;
      }
      sendQueue := sendQueue + [m];
      return true;
    }

    // How many messages are still to go out.
    ghost function Work(): nat
      reads this
    {
      |sendQueue| + |Flat(ring)|
    }

    method PumpOn()
      requires Valid() && AllGenuine(g, sendQueue)
      modifies this`ring, this`sendQueue, fdPatch
      ensures Valid() && AllGenuine(g, sendQueue) && Stream() == old(Stream()) && Work() == old(Work())
      ensures sendQueue == [] ==> ring == []
      ensures Controls(sendQueue) == Controls(old(sendQueue))
      ensures ring == [] || |sendQueue| >= APR_QUEUE_CAPACITY - 100
      ensures |sendQueue| <= Max(|old(sendQueue)|, APR_QUEUE_CAPACITY / 2 + 1)
    {
      ProcessPatchTuple();
      GrownCount(old(sendQueue), sendQueue);
      GrownControls(old(sendQueue), sendQueue);
    }

    // One turn: whatever the pump can queue, and the oldest message.
    method PumpAndSend() returns (m: Option<Item>)
      requires Valid() && AllGenuine(g, sendQueue)
      modifies this`ring, this`sendQueue, fdPatch
      ensures Valid() && AllGenuine(g, sendQueue) && (m.Some? ==> Genuine(g, m.value))
      ensures (if m.Some? then PatchOf(m.value) + Stream() else Stream()) == old(Stream())
      ensures (if m.Some? then ControlOf(m.value) + Controls(sendQueue) else Controls(sendQueue))
           == Controls(old(sendQueue))
      ensures Work() <= old(Work()) && (Work() < old(Work()) || (ring == [] && sendQueue == []))
    {
      PumpOn();
      m := Dequeue();
    }

    // A message that is not a patch goes to the end of the queue unless it is full; the stream of patches does not
    // change.
    method InsertOther(kind: nat) returns (ok: bool)
      requires Valid() && AllGenuine(g, sendQueue)
      modifies this`sendQueue
      ensures Valid() && AllGenuine(g, sendQueue) && Stream() == old(Stream())
      ensures ok == (|old(sendQueue)| < APR_QUEUE_CAPACITY)
      ensures sendQueue == if ok then old(sendQueue) + [Control(kind)] else old(sendQueue)
    {
      PatchesPush(sendQueue, Control(kind));
      ok := Insert(Control(kind), true);
      assert Patches(old(sendQueue)) + [] == Patches(old(sendQueue));
    }

    // The oldest message goes out.
    method Dequeue() returns (m: Option<Item>)
      requires Valid() && AllGenuine(g, sendQueue)
      modifies this`sendQueue
      ensures Valid() && AllGenuine(g, sendQueue) && (m.Some? ==> Genuine(g, m.value))
      ensures m == if old(sendQueue) == [] then None else Some(old(sendQueue)[0])
      ensures sendQueue == if old(sendQueue) == [] then [] else old(sendQueue)[1..]
      ensures (if m.Some? then PatchOf(m.value) + Stream() else Stream()) == old(Stream())
      ensures (if m.Some? then ControlOf(m.value) + Controls(sendQueue) else Controls(sendQueue))
           == Controls(old(sendQueue))
    {
      if sendQueue == [] {
        return None;
      }
      PatchesFirst(sendQueue);
      ControlsFirst(sendQueue);
      m := Some(sendQueue[0]);
      sendQueue := sendQueue[1..];
      Extend(PatchOf(m.value), Patches(sendQueue), Flat(ring));
    }

    /** MSG_PATCH_REQ (thread_send.c:374-426): the ring grows by exactly the packets the request names. */
    method OnPatchReq(t: Tuple, seqEnd: nat, ghost first: nat)
      requires Valid() && t.stt <= g.N && (t.end <= g.N || t.end == SEQ2WARDTHEEND)
      requires first < g.N && (t.end == SEQ2WARDTHEEND ==> seqEnd % g.N == first)
      modifies this`ring
      ensures Valid() && Stream() == old(Stream()) + Names(g, first, t)
    {
      var stt := t.stt % seqMax;
      WrapIsMod(g, t.stt);
      var end := if t.end == SEQ2WARDTHEEND then seqEnd % seqMax else t.end;
      NormaliseNames(g, first, t);
      ghost var before, added := ring, Normalise(g, first, t);
      if stt < end {
        ring := ring + [Tuple(stt, end)];
      } else if stt > end {
        ring := ring + [Tuple(0, end)];
        ring := ring + [Tuple(stt, seqMax)];
        assert ring == before + added;
      }
      assert ring == before + added;
      FlatAppend(before, added);
      Extend(Patches(sendQueue), Flat(before), Flat(added));
    }

    /** The pump (hero.c:1044-1110): however often it is cut short, the stream it stands for never changes. */
    method ProcessPatchTuple()
      requires Valid()
      requires AllGenuine(g, sendQueue)
      modifies this`ring, this`sendQueue, fdPatch
      ensures Valid() && Stream() == old(Stream())
      ensures Grown(g, old(sendQueue), sendQueue)
      ensures ring == [] || |sendQueue| >= APR_QUEUE_CAPACITY - 100
    {
      while ring != [] && |sendQueue| < APR_QUEUE_CAPACITY - 100
        invariant Valid() && Stream() == old(Stream())
        invariant Grown(g, old(sendQueue), sendQueue)
        decreases |ring|
      {
        var finished := PumpTuple();
        if finished {
          RemoveOldest();
        } else {
          break;
        }
      }
    }

    // APR_RING_REMOVE of a range that is used up
    method RemoveOldest()
      requires Valid() && ring != [] && ring[0].stt == ring[0].end
      modifies this`ring
      ensures Valid() && ring == old(ring)[1..] && Stream() == old(Stream())
    {
      FlatUsedUp(ring);
      ring := ring[1..];
    }

    // Read one packet of the oldest range and try to queue it.
    method PumpOne(ghost q0: seq<Item>) returns (ok: bool)
      requires Valid() && ring != [] && ring[0].stt < ring[0].end && fdPatch.pos == g.Off(ring[0].stt)
      requires Grown(g, q0, sendQueue)
      modifies this`ring, this`sendQueue, fdPatch
      ensures Valid() && Stream() == old(Stream()) && Grown(g, q0, sendQueue)
      ensures ok == (|old(sendQueue)| <= APR_QUEUE_CAPACITY / 2)
      ensures ring == if ok then old(ring)[0 := Tuple(old(ring[0].stt) + 1, old(ring[0].end))] else old(ring)
      ensures ok ==> fdPatch.pos == g.End(old(ring[0].stt) + 1)
      ensures !ok ==> sendQueue == old(sendQueue)
    {
      hide Flat;
      ghost var q := sendQueue;
      var t := ring[0];
      assert t.stt < g.N;
      var payload := CreateData(fdPatch, t.stt, seqMax, bytePayload, bytePayloadMin, g);
      ok := Insert(PatchData(t.stt, payload), false);
      if ok {
        GrownPush(g, q0, q, PatchData(t.stt, payload));
        AdvanceKeepsStream(q, ring, payload);
        AdvanceOldest();
      }
    }

    method AdvanceOldest()
      requires Valid() && ring != [] && ring[0].stt < ring[0].end
      modifies this`ring
      ensures Valid() && ring == old(ring)[0 := Tuple(old(ring[0].stt) + 1, old(ring[0].end))]
    {
      ring := ring[0 := Tuple(ring[0].stt + 1, ring[0].end)];
    }

    // The inner loop: read the oldest range until it is used up or the queue refuses.
    method PumpTuple() returns (finished: bool)
      requires Valid() && ring != []
      requires AllGenuine(g, sendQueue)
      modifies this`ring, this`sendQueue, fdPatch
      ensures Valid() && Stream() == old(Stream())
      ensures |ring| == |old(ring)| && ring[1..] == old(ring)[1..] && finished == (ring[0].stt == ring[0].end)
      ensures Grown(g, old(sendQueue), sendQueue)
      ensures !finished ==> |sendQueue| > APR_QUEUE_CAPACITY / 2
    {
      g.OffIsProduct(ring[0].stt);
      fdPatch.Seek(ring[0].stt * bytePayload);
      var ok := true;
      while ok && ring[0].stt < ring[0].end
        invariant Valid() && ring != [] && Stream() == old(Stream())
        invariant |ring| == |old(ring)| && ring[1..] == old(ring)[1..]
        invariant Grown(g, old(sendQueue), sendQueue)
        invariant ok && ring[0].stt < g.N ==> fdPatch.pos == g.Off(ring[0].stt)
        invariant !ok ==> ring[0].stt < ring[0].end && |sendQueue| > APR_QUEUE_CAPACITY / 2
        decreases ring[0].end - ring[0].stt, ok
      {
        ok := PumpOne(old(sendQueue));
      }
      finished := ring[0].stt == ring[0].end;
    }
  }

  // ---- everything that happens to one connection

  datatype ServeEvent =
    | Request(t: Tuple)      // MSG_PATCH_REQ
    | Pump                   // processPatchTuple
    | Pop                    // sendMsg takes the oldest message of the queue
    | Other(kind: nat)       // a message that is not a patch is queued with priority

  // The packets the requests name, in order.
  function Asked(g: Geo, first: nat, es: seq<ServeEvent>): seq<nat> {
    if es == [] then []
    else
      var e := es[|es| - 1];
      Asked(g, first, es[..|es| - 1]) + if e.Request? then Names(g, first, e.t) else []
  }

  lemma AskedPush(g: Geo, first: nat, es: seq<ServeEvent>, e: ServeEvent)
    ensures Asked(g, first, es + [e]) == Asked(g, first, es) + if e.Request? then Names(g, first, e.t) else []
  {
    assert (es + [e])[..|es|] == es;
  }

  predicate Askable(g: Geo, e: ServeEvent) {
    e.Request? ==> e.t.stt <= g.N && (e.t.end <= g.N || e.t.end == SEQ2WARDTHEEND)
  }

  function PatchOf(m: Item): seq<nat> { if m.PatchData? then [m.i] else [] }

  lemma {:induction false} PatchesFirst(q: seq<Item>)
    requires q != []
    ensures Patches(q) == PatchOf(q[0]) + Patches(q[1..])
  {
    var before, m := q[..|q| - 1], q[|q| - 1];
    assert q == before + [m];
    if before == [] {
      assert q[1..] == [] && Patches(q[1..]) == [];
    } else {
      PatchesFirst(before);
      assert q[1..] == before[1..] + [m];
      PatchesPush(before[1..], m);
      PatchesPush(before, m);
      Extend(PatchOf(q[0]), Patches(before[1..]), PatchOf(m));
    }
  }

  function ControlOf(m: Item): seq<nat> { if m.Control? then [m.kind] else [] }

  lemma {:induction false} ControlsFirst(q: seq<Item>)
    requires q != []
    ensures Controls(q) == ControlOf(q[0]) + Controls(q[1..])
  {
    var before, m := q[..|q| - 1], q[|q| - 1];
    assert q == before + [m];
    if before == [] {
      assert q[1..] == [] && Controls(q[1..]) == [];
    } else {
      ControlsFirst(before);
      assert q[1..] == before[1..] + [m];
      ControlsPush(before[1..], m);
      ControlsPush(before, m);
      Extend(ControlOf(q[0]), Controls(before[1..]), ControlOf(m));
    }
  }

  // The other messages handed over, in order.
  function Others(es: seq<ServeEvent>): seq<nat> {
    if es == [] then [] else Others(es[..|es| - 1]) + OtherOf(es[|es| - 1])
  }

  function OtherOf(e: ServeEvent): seq<nat> { if e.Other? then [e.kind] else [] }

  lemma OthersPush(es: seq<ServeEvent>, e: ServeEvent)
    ensures Others(es + [e]) == Others(es) + OtherOf(e)
  {
    assert (es + [e])[..|es|] == es;
  }

  lemma {:induction false} OthersPrefix(es: seq<ServeEvent>, k: nat)
    requires k <= |es|
    ensures |Others(es[..k])| <= |Others(es)|
    decreases |es|
  {
    if k < |es| {
      OthersPrefix(es[..|es| - 1], k);
      assert es[..|es| - 1][..k] == es[..k];
    } else {
      assert es[..k] == es;
    }
  }

  lemma {:induction false} GrownControls(q0: seq<Item>, q: seq<Item>)
    requires q0 <= q && forall i :: |q0| <= i < |q| ==> q[i].PatchData?
    ensures Controls(q) == Controls(q0)
    decreases |q|
  {
    if |q| > |q0| {
      GrownControls(q0, q[..|q| - 1]);
      ControlsPush(q[..|q| - 1], q[|q| - 1]);
      assert q[..|q| - 1] + [q[|q| - 1]] == q;
    } else {
      assert q == q0;
    }
  }

  lemma ControlsGrow(sent: seq<Item>, m: Option<Item>, before: seq<nat>, news: seq<nat>, after: seq<nat>)
    requires (if m.Some? then ControlOf(m.value) + after else after) == before + news
    ensures Controls(Appended(sent, m)) + after == Controls(sent) + before + news
  {
    Extend(Controls(sent), before, news);
    if m.Some? {
      ControlsPush(sent, m.value);
      Extend(Controls(sent), ControlOf(m.value), after);
    }
  }

  // How many other messages a queue can take on top of all the patches the pump may queue.
  const OTHERS_MAX: nat := APR_QUEUE_CAPACITY - (APR_QUEUE_CAPACITY / 2 + 1)

  function Appended(sent: seq<Item>, m: Option<Item>): seq<Item> { if m.Some? then sent + [m.value] else sent }

  lemma SentGrows(sent: seq<Item>, m: Option<Item>, before: seq<nat>, names: seq<nat>, after: seq<nat>)
    requires (if m.Some? then PatchOf(m.value) + after else after) == before + names
    ensures Patches(Appended(sent, m)) + after == Patches(sent) + before + names
  {
    Extend(Patches(sent), before, names);
    if m.Some? {
      PatchesPush(sent, m.value);
      Extend(Patches(sent), PatchOf(m.value), after);
    }
  }

  lemma SentGenuine(g: Geo, sent: seq<Item>, m: Option<Item>)
    requires g.Valid() && AllGenuine(g, sent) && (m.Some? ==> Genuine(g, m.value))
    ensures AllGenuine(g, Appended(sent, m))
  {
  }

  /** However requests, pumps and sends alternate, what goes out, with what goes out once the requests have ceased, is
      exactly the packets the requests named, each as often and in the order it was named, and each with its own slice
      of the file. As long as the queue has room for them, so do the other messages, each once and in order. */
  method Serve(ghost g: Geo, bytes: seq<byte>, payloadLen: nat, seqEnd: nat, ghost first: nat, events: seq<ServeEvent>)
    returns (sent: seq<Item>, rest: seq<Item>)
    requires g.Valid() && bytes == g.data && payloadLen == g.P && first < g.N && seqEnd % g.N == first
    requires forall k :: 0 <= k < |events| ==> Askable(g, events[k])
    ensures Patches(sent) + Patches(rest) == Asked(g, first, events)
    ensures AllGenuine(g, sent) && AllGenuine(g, rest)
    ensures |Others(events)| <= OTHERS_MAX ==> Controls(sent) + Controls(rest) == Others(events)
  {
    hide Names, Asked, Others, Patches, Controls, Served, Askable;
    var s := new SendSocketState(g, bytes, payloadLen);
    sent := [];
    ghost var total := |Others(events)|;
    NothingServed(s, first, total);
    assert events[..0] == [];
    for k := 0 to |events|
      invariant fresh(s) && fresh(s.fdPatch) && s.g == g && Served(s, first, events[..k], sent, total)
    {
      OthersPrefix(events, k + 1);
      assert events[..k + 1] == events[..k] + [events[k]];
      sent := Turn(s, seqEnd, first, events[..k], events[k], sent, total);
    }
    assert events[..|events|] == events;
    ServedMeans(s, first, events, sent, total);
    rest := Flush(s);
  }

  lemma NothingServed(s: SendSocketState, first: nat, total: nat)
    requires s.Valid() && s.sendQueue == [] && s.ring == []
    ensures Served(s, first, [], [], total)
  {
  }

  lemma ServedMeans(s: SendSocketState, first: nat, es: seq<ServeEvent>, sent: seq<Item>, total: nat)
    requires Served(s, first, es, sent, total)
    ensures s.Valid() && AllGenuine(s.g, s.sendQueue) && AllGenuine(s.g, sent)
    ensures Patches(sent) + s.Stream() == Asked(s.g, first, es)
    ensures total <= OTHERS_MAX ==> Controls(sent) + Controls(s.sendQueue) == Others(es)
  {
  }

  /** The state of a connection after `es`, of which `sent` has gone out; `total` bounds the other messages in all. */
  ghost predicate Served(s: SendSocketState, first: nat, es: seq<ServeEvent>, sent: seq<Item>, total: nat)
    reads s
  {
    && s.Valid() && AllGenuine(s.g, s.sendQueue) && AllGenuine(s.g, sent)
    && Patches(sent) + s.Stream() == Asked(s.g, first, es)
    && (total <= OTHERS_MAX ==>
          && |s.sendQueue| <= APR_QUEUE_CAPACITY / 2 + 1 + |Others(es)|
          && Controls(sent) + Controls(s.sendQueue) == Others(es))
  }

  method Turn(s: SendSocketState, seqEnd: nat, ghost first: nat, ghost es: seq<ServeEvent>, e: ServeEvent,
              sent: seq<Item>, ghost total: nat)
    returns (sent': seq<Item>)
    requires Served(s, first, es, sent, total) && Askable(s.g, e) && |Others(es + [e])| <= total
    requires first < s.g.N && seqEnd % s.g.N == first
    modifies s, s.fdPatch
    ensures Served(s, first, es + [e], sent', total)
  {
    hide Names, Askable, Appended, PatchOf, ControlOf, Asked, Others;
    ghost var before, queue := s.Stream(), s.sendQueue;
    ghost var names := if e.Request? then Names(s.g, first, e.t) else [];
    AskedPush(s.g, first, es, e);
    OthersPush(es, e);
    var m := ServeOne(s, seqEnd, first, e);
    SentGrows(sent, m, before, names, s.Stream());
    if total <= OTHERS_MAX { ControlsGrow(sent, m, Controls(queue), OtherOf(e), Controls(s.sendQueue)); }
    SentGenuine(s.g, sent, m);
    sent' := Appended(sent, m);
  }

  /** With no more requests, pumping and sending empty the connection. */
  method Flush(s: SendSocketState) returns (sent: seq<Item>)
    requires s.Valid() && AllGenuine(s.g, s.sendQueue)
    modifies s, s.fdPatch
    ensures s.Valid() && s.ring == [] && s.sendQueue == []
    ensures Patches(sent) == old(s.Stream()) && AllGenuine(s.g, sent)
    ensures Controls(sent) == Controls(old(s.sendQueue))
  {
    sent := [];
    ghost var all, controls := s.Stream(), Controls(s.sendQueue);
    while s.ring != [] || s.sendQueue != []
      invariant s.Valid() && AllGenuine(s.g, s.sendQueue) && AllGenuine(s.g, sent)
      invariant Patches(sent) + s.Stream() == all && Controls(sent) + Controls(s.sendQueue) == controls
      decreases s.Work(), if s.ring == [] && s.sendQueue == [] then 0 else 1
    {
      ghost var before, queue := s.Stream(), Controls(s.sendQueue);
      var m := s.PumpAndSend();
      assert before + [] == before && queue + [] == queue;
      ControlsGrow(sent, m, queue, [], Controls(s.sendQueue));
      SentGrows(sent, m, before, [], s.Stream());
      SentGenuine(s.g, sent, m);
      sent := Appended(sent, m);
      assert Patches(sent) + s.Stream() == all;
    }
    assert Patches(sent) + [] == Patches(sent) && Controls(sent) + [] == Controls(sent);
  }

  lemma {:induction false} GrownCount(q0: seq<Item>, q: seq<Item>)
    requires q0 <= q && forall i :: |q0| <= i < |q| ==> q[i].PatchData?
    ensures |Patches(q)| - |Patches(q0)| == |q| - |q0|
    decreases |q|
  {
    if |q| > |q0| {
      GrownCount(q0, q[..|q| - 1]);
      PatchesPush(q[..|q| - 1], q[|q| - 1]);
      assert q[..|q| - 1] + [q[|q| - 1]] == q;
    } else {
      assert q == q0;
    }
  }

  method ServeOne(s: SendSocketState, seqEnd: nat, ghost first: nat, e: ServeEvent) returns (m: Option<Item>)
    requires s.Valid() && AllGenuine(s.g, s.sendQueue) && Askable(s.g, e)
    requires first < s.g.N && seqEnd % s.g.N == first
    modifies s, s.fdPatch
    ensures s.Valid() && AllGenuine(s.g, s.sendQueue) && (m.Some? ==> Genuine(s.g, m.value))
    ensures (if m.Some? then PatchOf(m.value) + s.Stream() else s.Stream())
         == old(s.Stream()) + if e.Request? then Names(s.g, first, e.t) else []
    ensures |s.sendQueue| <= Max(|old(s.sendQueue)|, APR_QUEUE_CAPACITY / 2 + 1) + |OtherOf(e)|
    ensures (e.Other? ==> |old(s.sendQueue)| < APR_QUEUE_CAPACITY) ==>
      (if m.Some? then ControlOf(m.value) + Controls(s.sendQueue) else Controls(s.sendQueue))
        == Controls(old(s.sendQueue)) + OtherOf(e)
    ensures e.Pop? ==> m == if old(s.sendQueue) == [] then None else Some(old(s.sendQueue)[0])
    ensures e.Pump? ==> s.ring == [] || |s.sendQueue| >= APR_QUEUE_CAPACITY - 100
  {
    hide Names, Flat, Patches;
    m := None;
    ghost var stream, controls := s.Stream(), Controls(s.sendQueue);
    assert stream + [] == stream && controls + [] == controls;
    match e
    case Request(t) => s.OnPatchReq(t, seqEnd, first);
    case Pump => s.PumpOn();
    case Pop => m := s.Dequeue();
    case Other(kind) =>
      ControlsPush(s.sendQueue, Control(kind));
      var ok := s.InsertOther(kind);
  }

  // Moving the head of the oldest range to the end of the queue.
  lemma AdvanceKeepsStream(q: seq<Item>, ring: seq<Tuple>, payload: seq<byte>)
    requires ring != [] && ring[0].stt < ring[0].end
    ensures var t := ring[0];
      Patches(q + [PatchData(t.stt, payload)]) + Flat(ring[0 := Tuple(t.stt + 1, t.end)]) == Patches(q) + Flat(ring)
  {
    var t := ring[0];
    PatchesPush(q, PatchData(t.stt, payload));
    FlatHead(ring, Tuple(t.stt + 1, t.end));
    RangeHead(t.stt, t.end);
    Shift(Patches(q), t.stt, Range(t.stt + 1, t.end), Flat(ring[1..]));
  }

  lemma WrapIsMod(g: Geo, i: nat)
    requires g.N > 0 && i <= g.N
    ensures i % g.N == Wrap(g, i)
  {
    if i == g.N { RemainderIs(i, g.N, 1, 0); } else { RemainderIs(i, g.N, 0, i); }
  }
}
