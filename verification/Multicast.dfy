/** What the sender keeps of one multicast: who has been heard, who is done, and who waits for FAST_DONE. */
module Multicast {
  import opened Basics
  import opened Drain
  import opened FastDoneQueue
  import opened Geometry
  import opened Termination

  datatype Multi = Multi(
    nFirstSeq: nat, nAllDone: nat,
    hasAllDone: set<nat>,       // the flags of the sender states
    ends: map<nat, nat>,        // seqEnd of each receiver heard from
    seqEndMax: nat, seqEnd: nat,
    created: nat,               // MSG_C_SEND2I_SEQ_ALL messages created so far
    failed: bool,               // an assertion has failed
    queue: Queue)

  function Unheard(): Multi { Multi(0, 0, {}, map[], 0, SEQNUM_MAX, 0, false, EmptyQueue()) }

  // One more receiver is done; the last makes the message.
  function Completed(m: Multi, nInit: nat): Multi {
    m.(nAllDone := m.nAllDone + 1, created := if m.nAllDone + 1 == nInit then m.created + 1 else m.created)
  }

  // A receiver's end is worked out: it joins the queue, and the last one to be heard fixes the end of the multicast.
  function EndPlaced(m: Multi, nInit: nat, id: nat, end: nat, place: nat): Multi {
    m.(ends := m.ends[id := end],
       seqEndMax := Max(m.seqEndMax, end),
       seqEnd := if nInit == m.nFirstSeq then Max(m.seqEndMax, end) else m.seqEnd,
       queue := Inserted(m.queue, Waiting(id, end), place))
  }

  /** MSG_FIRST_SEQ: a file of one packet is complete with it. */
  function FirstHeard(m: Multi, nInit: nat, seqMax: nat, id: nat, end: nat, place: nat): Multi {
    var counted := if seqMax == 1 then Completed(m, nInit) else m;
    EndPlaced(counted.(nFirstSeq := m.nFirstSeq + 1), nInit, id, end, place)
  }

  /** MSG_ALL_DONE. */
  function AllDoneHeard(m: Multi, nInit: nat, id: nat): Multi {
    if id in m.hasAllDone then m.(failed := true) else Completed(m, nInit).(hasAllDone := m.hasAllDone + {id})
  }

  /** One turn of the send loop: FAST_DONE is made only for a dead multicast. */
  function Polled(m: Multi, seqCur: nat, state: BcdState, now: int, later: int): Multi {
    var q := Ripened(m.queue, seqCur, now);
    m.(queue := if state == Dead then Fired(q, later, m.hasAllDone) else q)
  }

  // ---- what the operations keep

  // The receivers that are done: in a file of one packet, all that have been heard.
  function Done(m: Multi, seqMax: nat): set<nat> { if seqMax == 1 then m.ends.Keys else m.hasAllDone }

  // `max` is the largest of the ends, or 0 when there is none yet.
  ghost predicate LargestEnd(ends: map<nat, nat>, max: nat) {
    && (forall i :: i in ends ==> ends[i] <= max)
    && (if ends == map[] then max == 0 else exists i :: i in ends && ends[i] == max)
  }

  /** The counters count, the completion message exists once all are done, and the end is fixed once all are heard. */
  ghost predicate Counts(m: Multi, nInit: nat, seqMax: nat) {
    && m.ends.Keys <= Ids(nInit) && m.hasAllDone <= m.ends.Keys && (seqMax == 1 ==> m.hasAllDone == {})
    && m.nFirstSeq == |m.ends.Keys| && m.nAllDone == |Done(m, seqMax)|
    && m.created == (if m.nAllDone == nInit then 1 else 0) && !m.failed
    && LargestEnd(m.ends, m.seqEndMax)
    && m.seqEnd == (if m.nFirstSeq == nInit then m.seqEndMax else SEQNUM_MAX)
  }

  /** The queue holds the receivers that have been heard, each with its end; those that have ripened had their window
      sent by `cur`, and those that are settled have been told or have reported. */
  ghost predicate Queued(m: Multi, nInit: nat, cur: nat) {
    && QueueInv(m.queue, nInit)
    && (forall id :: id in Members(m.queue) <==> id in m.ends)
    && (forall w :: w in m.queue.pq ==> w.id in m.ends && m.ends[w.id] == w.seqEnd)
    && (forall r :: r in m.queue.ripe ==> r.id in m.ends && m.ends[r.id] == r.seqEnd <= cur)
    && (forall r :: r in m.queue.settled ==> r.id in m.ends && m.ends[r.id] == r.seqEnd <= cur)
    && (forall id :: id in RipeIds(m.queue.settled) ==> id in m.queue.told || id in m.hasAllDone)
  }

  lemma LargestPlaced(ends: map<nat, nat>, max: nat, id: nat, end: nat)
    requires LargestEnd(ends, max) && id !in ends
    ensures LargestEnd(ends[id := end], Max(max, end))
  {
    var es := ends[id := end];
    assert es[id] == end;
    if end <= max && ends != map[] {
      var i :| i in ends && ends[i] == max;
      assert es[i] == max;
    }
  }

  lemma FirstHeardCounts(m: Multi, nInit: nat, seqMax: nat, id: nat, end: nat, place: nat)
    requires 0 < nInit && Counts(m, nInit, seqMax) && id < nInit && id !in m.ends
    ensures Counts(FirstHeard(m, nInit, seqMax, id, end, place), nInit, seqMax)
  {
    var m' := FirstHeard(m, nInit, seqMax, id, end, place);
    LargestPlaced(m.ends, m.seqEndMax, id, end);
    assert m'.ends.Keys == m.ends.Keys + {id};
    AllOf(m.ends.Keys, nInit);
    AllOf(m'.ends.Keys, nInit);
    AllOf(Done(m, seqMax), nInit);
  }

  lemma AllDoneHeardCounts(m: Multi, nInit: nat, seqMax: nat, id: nat)
    requires Counts(m, nInit, seqMax) && seqMax > 1 && id in m.ends && id !in m.hasAllDone
    ensures Counts(AllDoneHeard(m, nInit, id), nInit, seqMax)
  {
    AllOf(m.hasAllDone + {id}, nInit);
  }

  lemma FirstHeardQueued(m: Multi, nInit: nat, seqMax: nat, id: nat, end: nat, place: nat, cur: nat)
    requires Queued(m, nInit, cur) && id < nInit && id !in m.ends
    ensures Queued(FirstHeard(m, nInit, seqMax, id, end, place), nInit, cur)
  {
    InsertedInv(m.queue, Waiting(id, end), place, nInit);
  }

  lemma PolledQueued(m: Multi, nInit: nat, cur: nat, state: BcdState, now: int, later: int)
    requires Queued(m, nInit, cur) && m.queue.clock <= now <= later
    ensures Queued(Polled(m, cur, state, now, later), nInit, cur)
  {
    var m1 := m.(queue := Ripened(m.queue, cur, now));
    RipenedQueued(m, nInit, cur, now);
    if state == Dead { FiredQueued(m1, nInit, cur, later); }
  }

  lemma RipenedQueued(m: Multi, nInit: nat, cur: nat, now: int)
    requires Queued(m, nInit, cur) && m.queue.clock <= now
    ensures Queued(m.(queue := Ripened(m.queue, cur, now)), nInit, cur) && Ripened(m.queue, cur, now).clock == now
  {
    RipenedInv(m.queue, cur, now, nInit);
    RipenedEntries(m.queue, cur, now);
  }

  // Ripening only moves entries, and only those whose window has been sent.
  lemma RipenedEntries(q: Queue, cur: nat, now: int)
    ensures var q' := Ripened(q, cur, now);
      && q'.settled == q.settled && q'.told == q.told && (forall w :: w in q'.pq ==> w in q.pq)
      && (forall r :: r in q'.ripe ==>
            r in q.ripe || (r.seqEnd <= cur && Waiting(r.id, r.seqEnd) in q.pq))
  {
    var q' := Ripened(q, cur, now);
    var k := |q.pq| - |q'.pq|;
    RipenExactly(q, cur, now);
    forall r | r in q'.ripe && r !in q.ripe ensures r.seqEnd <= cur && Waiting(r.id, r.seqEnd) in q.pq {
      var i :| 0 <= i < k && RipeRow(q.pq[..k], now)[i] == r;
      assert q.pq[i] == Waiting(r.id, r.seqEnd);
    }
  }

  lemma FiredQueued(m: Multi, nInit: nat, cur: nat, later: int)
    requires Queued(m, nInit, cur) && m.queue.clock <= later
    ensures Queued(m.(queue := Fired(m.queue, later, m.hasAllDone)), nInit, cur)
  {
    FiredInv(m.queue, later, m.hasAllDone, nInit);
    FireAccounts(m.queue, later, m.hasAllDone, nInit);
    FiredEntries(m.queue, later, m.hasAllDone);
  }

  // Firing only moves entries.
  lemma FiredEntries(q: Queue, now: int, allDone: set<nat>)
    requires Ordered(q.ripe, q.clock)
    ensures var q' := Fired(q, now, allDone);
      && q'.pq == q.pq && (forall r :: r in q'.ripe ==> r in q.ripe)
      && (forall r :: r in q'.settled ==> r in q.settled || r in q.ripe)
  {
    FireExactly(q, now, allDone);
  }

  // ---- as the send thread keeps it

  class MulticastState {
    const nInit: nat
    const seqMax: nat
    var nFirstSeq: nat
    var nAllDone: nat
    var hasAllDone: set<nat>
    var ends: map<nat, nat>
    var seqEndMax: nat
    var seqEnd: nat
    var created: nat
    var failed: bool
    const queue: FastDoneQueue

    ghost function View(): Multi
      reads this, queue, queue.arr
      requires queue.Valid()
    {
      Multi(nFirstSeq, nAllDone, hasAllDone, ends, seqEndMax, seqEnd, created, failed, queue.View())
    }

    ghost predicate Valid()
      reads this, queue, queue.arr
    {
      0 < nInit && 0 < seqMax && queue.Valid() && queue.arr.Length == nInit
    }

    constructor (fanOut: nat, packets: nat)
      requires 0 < fanOut && 0 < packets
      ensures Valid() && View() == Unheard() && nInit == fanOut && seqMax == packets && fresh(queue) && fresh(queue.arr)
    {
      nInit, seqMax := fanOut, packets;
      nFirstSeq, nAllDone, hasAllDone, ends := 0, 0, {}, map[];
      seqEnd, seqEndMax, created, failed := SEQNUM_MAX, 0, 0, false;
      queue := new FastDoneQueue(fanOut);
    }

    /** MSG_FIRST_SEQ (thread_send.c:286-336), with the two readings of seq_cur and the place in the queue as
        arguments. */
    method OnFirstSeq(id: nat, first: nat, atTest: nat, atDivision: nat, place: nat)
      requires Valid() && id < nInit && id !in Members(queue.View())
      modifies this, queue
      ensures Valid()
      ensures var end := SeqEnd(first, atTest, atDivision, seqMax);
        View() == FirstHeard(old(View()), nInit, seqMax, id, end, place)
    {
      if seqMax == 1 {
        if nAllDone + 1 == nInit {
          created := created + 1;
        }
        nAllDone := nAllDone + 1;
      }
      nFirstSeq := nFirstSeq + 1;
      UpdateSeqEnd(id, first, atTest, atDivision, place);
    }

    // hero.c:1000-1007
    method DecideEnd(first: nat, atTest: nat, atDivision: nat) returns (end: nat)
      requires seqMax > 0
      ensures end == SeqEnd(first, atTest, atDivision, seqMax)
    {
      var roundNum: nat;
      if first >= atTest % seqMax {
        roundNum := atDivision / seqMax;
      } else {
        roundNum := atDivision / seqMax + 1;
      }
      end := roundNum * seqMax + first;
    }

    // multicastState_updateSeqEnd, hero.c:995-1028
    method UpdateSeqEnd(id: nat, first: nat, atTest: nat, atDivision: nat, place: nat)
      requires Valid() && id < nInit && id !in Members(queue.View())
      modifies this`ends, this`seqEndMax, this`seqEnd, queue
      ensures Valid()
      ensures View() == EndPlaced(old(View()), nInit, id, SeqEnd(first, atTest, atDivision, seqMax), place)
    {
      var end := DecideEnd(first, atTest, atDivision);
      ends := ends[id := end];
      queue.Insert(id, end, place);
      if end > seqEndMax {
        seqEndMax := end;
      }
      if nInit == nFirstSeq {
        seqEnd := seqEndMax;
      }
    }

    /** MSG_ALL_DONE (thread_send.c:338-372). */
    method OnAllDone(id: nat)
      requires Valid() && id < nInit
      modifies this`nAllDone, this`hasAllDone, this`created, this`failed
      ensures Valid() && View() == AllDoneHeard(old(View()), nInit, id)
    {
      if id in hasAllDone {
        failed := true; // thread_send.c:341
        return;
      }
      nAllDone := nAllDone + 1;
      hasAllDone := hasAllDone + {id};
      if nAllDone == nInit {
        created := created + 1;
      }
    }

    /** The scan for FAST_DONE at the top of the send loop (thread_send.c:97-131). */
    method Poll(seqCur: nat, state: BcdState, now: int, later: int)
      requires Valid() && queue.clock <= now <= later
      modifies queue, queue.arr
      ensures Valid() && View() == Polled(old(View()), seqCur, state, now, later)
    {
      RipenedInv(queue.View(), seqCur, now, nInit);
      queue.Ripen(seqCur, now);
      if state == Dead {
        queue.Fire(later, hasAllDone);
      }
    }
  }
}
