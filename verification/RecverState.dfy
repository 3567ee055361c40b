/** The receiver's handlers as they are run, proved to do what ReceiverSpec says. */
module RecverState {
  import opened Basics
  import opened Geometry
  import opened ByteFile
  import opened ReceiverSpec

  // Messages the data thread writes to the control thread for one packet.
  datatype FastOut = FastOut(first: bool, zero: bool, all: bool, jump: Option<Tuple>)

  // What the patch handler reports.
  datatype PatchOut = PatchOut(allDone: bool)

  // getFilePosition, hero.c:1194-1205
  function GetFilePosition(cur: nat, first: nat, tail: nat, payload: nat, start: int): int {
    if cur >= first then
      if tail > 0 && cur > tail then cur * payload else (cur - first) * payload
    else
      start + cur * payload
  }

  /** The source's offset is the place of the packet. */
  lemma GetFilePositionIsPlace(g: Geo, r: Recv, cur: nat)
    ensures GetFilePosition(cur, r.fst, r.tail, g.P, r.start) == FilePosition(g, r, cur)
  {
    g.OffIsProduct(cur);
    if cur >= r.fst { g.OffDifference(cur, r.fst); }
  }

  // The int computed from unsigned 32-bit operands at hero.c:155.
  function TailLen32(seqMax: nat, tail: nat, payload: nat, payloadMin: nat): int {
    var u := (((seqMax - tail - 1 - 1) % 0x1_0000_0000) * payload + payloadMin) % 0x1_0000_0000;
    if u >= 0x8000_0000 then u - 0x1_0000_0000 else u
  }

  lemma Wraps32(p: int, m: int)
    requires 0 <= m <= p < 0x1_0000
    ensures var u := ((-1 % 0x1_0000_0000) * p + m) % 0x1_0000_0000;
      (if u >= 0x8000_0000 then u - 0x1_0000_0000 else u) == m - p
  {
    assert -1 % 0x1_0000_0000 == 0xFFFF_FFFF;
    assert 0xFFFF_FFFF * p + m == p * 0x1_0000_0000 + (m - p);
    if m == p {
      assert (p * 0x1_0000_0000) % 0x1_0000_0000 == 0;
    } else {
      assert p * 0x1_0000_0000 + (m - p) == (p - 1) * 0x1_0000_0000 + (0x1_0000_0000 + m - p);
    }
  }

  lemma NoWrap32(k: int, p: int, m: int)
    requires 0 <= k < 0x1_0000_0000 && 0 <= k * p + m < 0x8000_0000
    ensures ((k % 0x1_0000_0000) * p + m) % 0x1_0000_0000 == k * p + m
  {
    assert k % 0x1_0000_0000 == k;
  }

  /** The wrapped product has the sign and size of the tail that was lost; with nothing lost it is not positive. */
  lemma TailLen32IsTail(g: Geo, tail: nat)
    requires g.Valid() && 0 < tail < g.N
    ensures var len := TailLen32(g.N, tail, g.P, g.Len(g.N - 1));
      if tail + 1 == g.N then len == g.Len(g.N - 1) - g.P <= 0
      else len == g.D() - g.Off(tail + 1) > 0
  {
    var m := g.Len(g.N - 1);
    g.EndStep(g.N - 1);
    if tail + 1 == g.N {
      Wraps32(g.P, m);
    } else {
      g.OffDifference(g.N - 1, tail + 1);
      g.OffMonotone(tail + 1, g.N - 1);
      NoWrap32(g.N - tail - 2, g.P, m);
    }
  }

  // The bytes skipped before a packet that does not follow the last one (thread_data.c:170, 196, 214, 241).
  function Skip(g: Geo, r: Recv, c: nat): int
    requires g.Valid()
  {
    if Next(g, r.lst) == c then 0
    else if c == 0 then (g.N - r.lst - 2) * g.P + g.Len(g.N - 1)
    else if CutsTail(r, c) then c * g.P
    else (c - r.lst - 1) * g.P
  }

  /** After the placeholder the fast cursor stands exactly where the packet belongs. */
  lemma CursorAgreement(g: Geo, r: Recv, c: nat, junk: seq<byte>)
    requires g.Valid() && Wf(g, r) && c < g.N && !Halts(r, c) && Accepts(g, r, c)
    ensures r.isFst ==> Skip(g, r, c) >= 0 && r.pos + Skip(g, r, c) == FilePosition(g, Prepared(g, r, c, junk), c)
    ensures !r.isFst ==> r.pos == 0 == FilePosition(g, Prepared(g, r, c, junk), c)
    ensures r.isFst && CutsTail(r, c) ==> r.tail == 0 && r.start == -1 && r.pos == StartVal(g, r.fst, r.lst)
  {
    if r.isFst {
      SkipIsOffset(g, r, c);
      StartNonNegative(g, r.fst, r.tail);
    }
  }

  lemma SkipIsOffset(g: Geo, r: Recv, c: nat)
    requires g.Valid() && r.lst < g.N && c < g.N && r.fst < g.N && Ahead(r.fst, r.lst, c) && !OnlyFirst(g, r, c)
    ensures Skip(g, r, c) ==
      if Next(g, r.lst) == c then 0
      else if c == 0 then g.D() - g.End(r.lst + 1)
      else if CutsTail(r, c) then g.Off(c)
      else g.Off(c) - g.Off(r.lst + 1)
    ensures 0 <= Skip(g, r, c)
  {
    if c == 0 {
      if r.lst + 1 < g.N { g.OffDifference(g.N - 1, r.lst + 1); g.OffMonotone(r.lst + 1, g.N - 1); }
    } else if CutsTail(r, c) {
      g.OffIsProduct(c);
    } else if r.lst < c {
      g.OffDifference(c, r.lst + 1);
      g.OffMonotone(r.lst + 1, c);
    }
  }

  class RecverState {
    ghost const g: Geo                // the transfer this receiver takes part in
    const bytePayload: nat
    const rounded: real -> real       // the double the host computes for a quotient
    var isSeqFst: bool
    var seqFst: nat
    var seqLst: nat
    var seqTail: nat
    var isSeqZero: bool
    var dataSize: nat
    var seqMax: nat
    var bytePayloadMin: nat
    var tailPatchBuffer: array?<byte>
    var tailPatchBufferLen: nat
    var file: seq<byte>               // one file behind both descriptors
    var fdPos: nat                    // cursor of fd_p
    var fdPatchPos: nat               // cursor of fd_patch_p
    var numFastRecved: nat
    var numSlowRecved: nat
    var isFastpath: bool
    var isFinished: bool
    var start: int
    var jump: int
    var halted: bool                  // an assertion has failed

    ghost function View(): Recv
      reads this, tailPatchBuffer
    {
      Recv(isSeqFst, seqFst, seqLst, seqTail, isSeqZero, dataSize, seqMax, bytePayloadMin,
           if tailPatchBuffer == null then [] else tailPatchBuffer[..],
           file, fdPos, numFastRecved, numSlowRecved, isFastpath, isFinished, start, jump)
    }

    ghost predicate Rounds() {
      g.P > 0 && DoubleOf(Quotient(g.D(), g.P), rounded(Quotient(g.D(), g.P)))
    }

    ghost predicate Ready()
      reads this
    {
      && g.Valid() && bytePayload == g.P && !halted
      && tailPatchBufferLen == (if tailPatchBuffer == null then 0 else tailPatchBuffer.Length)
      && (tailPatchBuffer != null ==> tailPatchBufferLen > 0)
    }

    ghost predicate Valid()
      reads this, tailPatchBuffer
    {
      Ready() && Rounds() && Wf(g, View()) && (isSeqFst ==> numFastRecved > 0)
    }

    // createRecverState and the start of the fast path (hero.c:64-126, thread_data.c:119-127)
    constructor (ghost geo: Geo, payloadLen: nat, host: real -> real)
      requires geo.Valid() && payloadLen == geo.P
      requires DoubleOf(Quotient(geo.D(), geo.P), host(Quotient(geo.D(), geo.P)))
      ensures g == geo && Valid() && View() == Fresh()
    {
      g := geo;
      bytePayload := payloadLen;
      rounded := host;
      isSeqFst, seqFst, seqLst, seqTail := false, 0, 0, 0;
      isSeqZero, dataSize, seqMax, bytePayloadMin := false, 0, 0, 0;
      tailPatchBuffer, tailPatchBufferLen := null, 0;
      file, fdPos, fdPatchPos := [], 0, 0;
      numFastRecved, numSlowRecved := 0, 0;
      isFastpath, isFinished, start, jump, halted := true, false, -1, -1, false;
    }

    predicate HasGottenAllData()
      reads this
    {
      numFastRecved + numSlowRecved == seqMax
    }

    // recverState_updateBcdMetadata, hero.c:128-186
    method UpdateBcdMetadata(size: nat) returns (ret: int)
      requires Ready() && Rounds() && isSeqFst && size == g.D()
      requires seqFst < g.N && (seqTail > 0 ==> 0 < seqFst < seqTail < g.N)
      requires !isSeqZero ==>
        tailPatchBuffer == null && start == (if seqTail > 0 then StartVal(g, seqFst, seqTail) else -1)
      modifies this
      ensures Ready() && (tailPatchBuffer == old(tailPatchBuffer) || fresh(tailPatchBuffer))
      ensures ret == if old(isSeqZero) then -1 else tailPatchBufferLen
      ensures old(isSeqZero) ==> View() == old(View())
      ensures BodyEnd(g, old(seqTail)) <= g.D()
      ensures !old(isSeqZero) ==> jump == dataSize - tailPatchBufferLen
      ensures !old(isSeqZero) ==> View() == WithMetadata(g, old(View()), View().tailBuf)
    {
      WfBodyEnd(g, seqTail);
      if isSeqZero {
        return -1;
      }
      TakeSize(size);
      if seqTail != 0 {
        if tailPatchBuffer != null {
          return -1;
        }
        AllocateTail();
      }
      TakeStart();
      isSeqZero := true;
      MetadataIs(g, old(View()), View());
      return tailPatchBufferLen;
    }

    method AllocateTail()
      requires g.Valid() && bytePayload == g.P && seqMax == g.N && bytePayloadMin == g.Len(g.N - 1)
      requires 0 < seqTail < g.N && tailPatchBuffer == null && tailPatchBufferLen == 0
      modifies this`tailPatchBuffer, this`tailPatchBufferLen
      ensures BodyEnd(g, seqTail) <= g.D() && tailPatchBufferLen == g.D() - BodyEnd(g, seqTail)
      ensures if tailPatchBufferLen == 0 then tailPatchBuffer == null
              else tailPatchBuffer != null && fresh(tailPatchBuffer) && tailPatchBuffer.Length == tailPatchBufferLen
      ensures View() == old(View()).(tailBuf := View().tailBuf)
    {
      WfBodyEnd(g, seqTail);
      TailLen32IsTail(g, seqTail);
      var len := TailLen32(seqMax, seqTail, bytePayload, bytePayloadMin);
      if len <= 0 {
        tailPatchBufferLen := 0;
      } else {
        tailPatchBuffer := new byte[len];
        tailPatchBufferLen := len;
      }
    }

    method TakeStart()
      requires g.Valid() && bytePayload == g.P && dataSize == g.D()
      requires seqFst < g.N && (seqTail > 0 ==> 0 < seqFst < seqTail < g.N)
      requires BodyEnd(g, seqTail) <= g.D() && tailPatchBufferLen == g.D() - BodyEnd(g, seqTail)
      requires start == (if seqTail > 0 then StartVal(g, seqFst, seqTail) else -1)
      modifies this`start, this`jump
      ensures start == StartVal(g, seqFst, seqTail) && jump == BodyEnd(g, seqTail)
      ensures View() == old(View()).(start := StartVal(g, seqFst, seqTail), jump := BodyEnd(g, seqTail))
    {
      StartRecomputed(g, seqFst, seqTail);
      StartNonNegative(g, seqFst, seqTail);
      if start < 0 {
        start := Recomputed(dataSize, bytePayload, seqFst, tailPatchBufferLen);
      }
      jump := dataSize - tailPatchBufferLen;
    }

    method TakeSize(size: nat)
      requires g.Valid() && bytePayload == g.P && size == g.D() && Rounds()
      modifies this`dataSize, this`seqMax, this`bytePayloadMin
      ensures dataSize == g.D() && seqMax == g.N && bytePayloadMin == g.Len(g.N - 1)
      ensures View() == old(View()).(dataSize := g.D(), seqMax := g.N, payloadMin := g.Len(g.N - 1))
    {
      var quotient := rounded(Quotient(size, bytePayload));
      BothEndsAgree(g, quotient);
      dataSize := size;
      seqMax := Ceil(quotient);
      bytePayloadMin := dataSize % bytePayload;
      if bytePayloadMin == 0 {
        bytePayloadMin := bytePayload;
      }
    }

    // recverState_finishRecv, hero.c:327-354
    method FinishRecv()
      requires Ready()
      modifies this
      ensures Ready() && View() == Finish(old(View())) && tailPatchBuffer == old(tailPatchBuffer)
    {
      fdPos := |file|;
      var desTell := fdPos;
      fdPatchPos := |file|;
      var desPatchTell := fdPatchPos;
      jump := if desTell >= desPatchTell then desTell else desPatchTell;
      ghost var f := file;
      if tailPatchBuffer != null {
        file := file + tailPatchBuffer[..];
        fdPos := fdPos + tailPatchBufferLen;
      }
      isFinished := true;
      assert file == f + View().tailBuf;
    }

    // recverState_stopFathPath and the jump position
    method StopFastpath()
      requires Ready()
      modifies this`isFastpath, this`jump
      ensures Ready() && View() == old(View()).(isFastpath := false, jump := fdPos)
    {
      isFastpath := false;
      jump := fdPos;
    }

    // recverState_hasGottenAllData and what follows from it
    method FinishIfComplete() returns (all: bool)
      requires Ready()
      modifies this
      ensures Ready() && View() == IfComplete(old(View())) && tailPatchBuffer == old(tailPatchBuffer)
      ensures all == (old(numFastRecved) + old(numSlowRecved) == old(seqMax))
    {
      all := HasGottenAllData();
      if all {
        FinishRecv();
      }
    }

    // extendFile followed by fwrite
    method ExtendAndWrite(extend: nat, payload: seq<byte>)
      requires Ready()
      modifies this`fdPos, this`file, this`numFastRecved
      ensures Ready()
      ensures View() == var v := old(View());
        v.(file := WriteAt(v.file, v.pos + extend, payload), pos := v.pos + extend + |payload|,
           numFast := v.numFast + 1)
    {
      fdPos := fdPos + extend;
      file := WriteAt(file, fdPos, payload);
      fdPos := fdPos + |payload|;
      numFastRecved := numFastRecved + 1;
    }

    /** One packet from the fast path (thread_data.c:135-331). */
    method OnFastPacket(seqNum: nat, payload: seq<byte>, size: nat) returns (out: FastOut)
      requires Valid() && seqNum < g.N && payload == g.Packet(seqNum) && (seqNum == 0 ==> size == g.D())
      modifies this
      ensures halted <==> Halts(old(View()), seqNum)
      ensures tailPatchBuffer == old(tailPatchBuffer) || fresh(tailPatchBuffer)
      ensures !halted ==> Valid() && View() == FastStep(g, old(View()), seqNum, View().tailBuf)
      ensures !halted ==>
        var taken, r' := Accepts(g, old(View()), seqNum), View();
        && out.first == (!old(isSeqFst) && old(isFastpath))
        && out.zero == (taken && seqNum == 0 && g.N > 1)
        && out.all == (r'.isFinished && !old(isFinished) && g.N > 1)
        && out.jump == Loss(g, old(View()), seqNum)
    {
      hide WriteAt;
      ghost var r := View();
      out := FastOut(false, false, false, None);
      if !isFastpath {
        return;
      }
      var seqFirst, seqZero, seqError, pt := false, false, false, None;
      if !isSeqFst {
        Start(seqNum);
        seqFirst := true;
      }
      if seqNum != 0 {
        seqError, pt := TakeOther(r, seqNum, payload);
        if halted {
          return;
        }
        TookOtherIsPrepared(g, r, seqNum, View());
      } else {
        seqError, pt := TakeZero(r, payload, size);
        seqZero := !seqError;
      }
      if !seqError {
        seqLst := seqNum;
      } else {
        FirstIsTaken(g, r, seqNum);
      }
      out := Settle(r, seqNum, seqFirst, seqZero, pt);
    }

    // The first sequence number (thread_data.c:148-154).
    method Start(seqNum: nat)
      requires Ready() && !isSeqFst
      modifies this`isSeqFst, this`seqFst, this`seqLst
      ensures Ready() && View() == Started(old(View()), seqNum)
    {
      seqLst := if seqNum != 0 then seqNum - 1 else SEQNUM_MAX;
      seqFst := seqNum;
      isSeqFst := true;
    }

    // A packet other than 0 (thread_data.c:156-158, 193-259).
    method TakeOther(ghost r: Recv, seqNum: nat, payload: seq<byte>) returns (seqError: bool, pt: Option<Tuple>)
      requires g.Valid() && Wf(g, r) && r.isFastpath && 0 < seqNum < g.N && payload == g.Packet(seqNum)
      requires Ready() && View() == Started(r, seqNum)
      modifies this
      ensures tailPatchBuffer == old(tailPatchBuffer)
      ensures halted <==> Halts(r, seqNum)
      ensures !halted ==>
        && Ready() && seqError == !Accepts(g, r, seqNum) && pt == Loss(g, r, seqNum)
        && seqLst == old(seqLst) && TookOther(g, r, seqNum, View())
    {
      hide WriteAt;
      seqError, pt := false, None;
      CascadeOther(g, r, seqNum);
      if seqNum - seqLst == 1 {
        TakeAt(r, seqNum, 0, payload);
      } else if seqNum > seqLst {
        if seqFst > seqLst && seqFst > seqNum {
          TakeAt(r, seqNum, (seqNum - seqLst - 1) * bytePayload, payload);
          pt := Some(Tuple(seqLst + 1, seqNum));
        } else if seqLst >= seqFst {
          TakeAt(r, seqNum, (seqNum - seqLst - 1) * bytePayload, payload);
          pt := Some(Tuple(seqLst + 1, seqNum));
        } else {
          seqError := true;
        }
      } else if seqNum < seqFst && seqFst < seqLst {
        if seqTail != 0 || start != -1 {
          halted := true;
          return;
        }
        seqTail := seqLst;
        start := fdPos;
        TakeAt(r, seqNum, seqNum * bytePayload, payload);
        pt := Some(Tuple(seqLst + 1, seqNum));
      } else {
        seqError := true;
      }
    }

    // Put down the placeholder and write the packet.
    method TakeAt(ghost r: Recv, ghost c: nat, extend: nat, payload: seq<byte>)
      requires g.Valid() && c < g.N && payload == g.Packet(c) && Accepts(g, r, c)
      requires Ready() && View().(lst := c) == Cut(g, First(r, c), c).(lst := c)
      requires fdPos + extend == FilePosition(g, Cut(g, First(r, c), c), c)
      modifies this`fdPos, this`file, this`numFastRecved
      ensures Ready() && TookOther(g, r, c, View())
    {
      ExtendAndWrite(extend, payload);
    }

    // Packet 0, with the metadata behind its data (thread_data.c:159-192).
    method TakeZero(ghost r: Recv, payload: seq<byte>, size: nat) returns (seqError: bool, pt: Option<Tuple>)
      requires g.Valid() && Rounds() && Wf(g, r) && r.isFastpath && payload == g.Packet(0) && size == g.D()
      requires Ready() && View() == Started(r, 0)
      modifies this
      ensures tailPatchBuffer == old(tailPatchBuffer) || fresh(tailPatchBuffer)
      ensures !halted && Ready() && isSeqZero && seqError == !Accepts(g, r, 0) && pt == Loss(g, r, 0)
      ensures HasPrepared(g, r, 0, View().(lst := if seqError then r.lst else 0))
      ensures seqLst == old(seqLst) && numFastRecved == r.numFast + (if seqError then 0 else 1)
    {
      hide WriteAt;
      seqError, pt := false, None;
      var ret := UpdateBcdMetadata(size);
      PlaceOfZero(g, r, View().tailBuf);
      if ret >= 0 {
        if seqLst == seqMax - 1 || seqLst == SEQNUM_MAX {
          ExtendAndWrite(0, payload);
        } else if seqLst > seqFst && seqFst != 0 {
          ExtendAndWrite((seqMax - seqLst - 2) * bytePayload + bytePayloadMin, payload);
          pt := Some(Tuple(seqLst + 1, seqMax));
        } else {
          seqError := true;
        }
      } else {
        seqError := true;
      }
    }

    // The end of the handler: the last packet of the window, and the messages (thread_data.c:282-322).
    method Settle(ghost r: Recv, seqNum: nat, seqFirst: bool, seqZero: bool, pt: Option<Tuple>) returns (out: FastOut)
      requires g.Valid() && Rounds() && Wf(g, r) && seqNum < g.N && !Halts(r, seqNum) && r.isFastpath
      requires Ready() && isFastpath && !isFinished && isSeqFst && numFastRecved > 0
      requires if isSeqZero then seqMax == g.N else seqMax == 0 < seqFst
      requires seqFirst == !r.isFst && pt == Loss(g, r, seqNum)
      requires seqZero == (Accepts(g, r, seqNum) && seqNum == 0) && (seqZero ==> isSeqZero)
      requires HasPrepared(g, r, seqNum, View())
      modifies this
      ensures tailPatchBuffer == old(tailPatchBuffer)
      ensures !halted && Valid() && View() == FastStep(g, r, seqNum, View().tailBuf)
      ensures out == FastOut(seqFirst, seqZero && g.N > 1, View().isFinished && g.N > 1, pt)
    {
      hide FastStep, Wf;
      var seqAll := false;
      FastWf(g, r, seqNum, View().tailBuf);
      ghost var v := View();
      FromPrepared(g, r, seqNum, v);
      if (seqFst != 0 && seqNum + 1 == seqFst) || (seqFst == 0 && seqNum + 1 == seqMax) {
        StopFastpath();
        seqAll := FinishIfComplete();
      }
      assert View() == if Next(g, seqNum) == v.fst then IfComplete(v.(isFastpath := false, jump := v.pos)) else v;
      out := FastOut(seqFirst, seqZero && seqMax > 1, seqAll && seqMax > 1, pt);
    }

    /** One patch from the slow path (thread_recv.c:115-184). */
    method OnPatchData(seqNum: nat, payload: seq<byte>, size: nat) returns (out: PatchOut)
      requires Valid() && isSeqFst && seqNum < g.N && payload == g.Packet(seqNum) && (seqNum == 0 ==> size == g.D())
      requires TailReady(View(), seqNum)
      requires isFastpath ==> numFastRecved + numSlowRecved + 1 < g.N
      modifies this, tailPatchBuffer
      ensures !halted && Valid() && (tailPatchBuffer == old(tailPatchBuffer) || fresh(tailPatchBuffer))
      ensures View() == PatchStep(g, old(View()), seqNum, View().tailBuf)
      ensures out.allDone <==> seqNum != seqFst && numFastRecved + numSlowRecved == seqMax
      ensures seqNum == seqFst ==> View() == old(View()) // thread_recv.c:134-138
    {
      hide PatchWrite;
      ghost var r := View();
      if seqTail > 0 && seqNum > seqTail {
        PatchTail(seqNum, payload);
      } else {
        if seqNum == seqFst {
          PatchWf(g, r, seqNum, []);
          return PatchOut(false);
        }
        PatchFile(seqNum, payload, size);
      }
      PatchIsWriteThenTest(g, r, seqNum, View());
      var all := FinishIfComplete();
      return PatchOut(all);
    }

    // A packet beyond the cut goes to the tail buffer (thread_recv.c:121-131).
    method PatchTail(seqNum: nat, payload: seq<byte>)
      requires Valid() && isSeqFst && 0 < seqTail < seqNum < g.N && isSeqZero && payload == g.Packet(seqNum)
      modifies this`numSlowRecved, tailPatchBuffer
      ensures Ready() && View() == PatchWrite(g, old(View()), seqNum, View().tailBuf)
    {
      ghost var off := g.Off(seqNum) - g.Off(seqTail + 1);
      assert (seqNum - seqTail - 1) * bytePayload == off by { g.OffDifference(seqNum, seqTail + 1); }
      assert 0 <= off && off + |payload| <= tailPatchBufferLen by { TailSlotFits(g, seqTail, seqNum); }
      CopyToTail((seqNum - seqTail - 1) * bytePayload, payload);
      numSlowRecved := numSlowRecved + 1;
    }

    // Any other packet goes to the file (thread_recv.c:140-165).
    method PatchFile(seqNum: nat, payload: seq<byte>, size: nat)
      requires Valid() && isSeqFst && seqNum < g.N && payload == g.Packet(seqNum) && (seqNum == 0 ==> size == g.D())
      requires !(seqTail > 0 && seqNum > seqTail) && seqNum != seqFst
      modifies this
      ensures Ready() && (tailPatchBuffer == old(tailPatchBuffer) || fresh(tailPatchBuffer))
      ensures View() == PatchWrite(g, old(View()), seqNum, View().tailBuf)
    {
      WfBodyEnd(g, seqTail);
      StartNonNegative(g, seqFst, seqTail);
      if seqNum == 0 {
        var ret := UpdateBcdMetadata(size);
        assert start >= 0; // thread_recv.c:144
      }
      WriteAtPlace(seqNum, payload);
    }

    method WriteAtPlace(seqNum: nat, payload: seq<byte>)
      requires Ready() && seqNum < g.N && seqFst < g.N && (seqTail > 0 ==> seqFst < seqTail < g.N)
      requires start == (if seqTail > 0 || isSeqZero then StartVal(g, seqFst, seqTail) else -1)
      requires seqNum == 0 ==> isSeqZero
      modifies this`fdPatchPos, this`file, this`numSlowRecved
      ensures 0 <= FilePosition(g, old(View()), seqNum)
      ensures View() == var q := old(View());
        q.(file := WriteAt(q.file, FilePosition(g, q, seqNum), payload), numSlow := q.numSlow + 1)
    {
      var offset := GetFilePosition(seqNum, seqFst, seqTail, bytePayload, start);
      GetFilePositionIsPlace(g, View(), seqNum);
      PatchOffset(g, View(), seqNum);
      fdPatchPos := offset;
      file := WriteAt(file, fdPatchPos, payload);
      fdPatchPos := fdPatchPos + |payload|;
      numSlowRecved := numSlowRecved + 1;
    }

    // memcpy into the tail buffer
    method CopyToTail(offset: nat, payload: seq<byte>)
      requires tailPatchBuffer != null && offset + |payload| <= tailPatchBuffer.Length
      modifies tailPatchBuffer
      ensures tailPatchBuffer[..] == WriteAt(old(tailPatchBuffer[..]), offset, payload)
    {
      forall i | 0 <= i < |payload| {
        tailPatchBuffer[offset + i] := payload[i];
      }
    }

    /** FAST_DONE from the sender (thread_recv.c:185-220). */
    method OnFastDone() returns (request: Option<Tuple>)
      requires Valid() && isSeqFst
      modifies this`isFastpath
      ensures Valid() && View() == FastDoneStep(old(View()))
      ensures request == FastDoneLoss(g, old(View()))
    {
      if isFinished {
        return None;
      }
      isFastpath := false;
      if isSeqZero {
        NextIsMod(g, seqLst);
        if (seqLst + 1) % seqMax != seqFst {
          return Some(Tuple(seqLst + 1, seqFst));
        }
        return None;
      }
      return Some(Tuple(seqLst + 1, SEQ2WARDTHEEND));
    }
  }

  // The state once the first sequence number is known.
  function Started(r: Recv, c: nat): Recv {
    if r.isFst then r else r.(isFst := true, fst := c, lst := if c != 0 then c - 1 else SEQNUM_MAX)
  }

  function Recomputed(dataSize: int, payload: int, first: int, tailLen: int): int
    requires dataSize > 0
  {
    (dataSize - payload * first - tailLen) % dataSize
  }

  /** The start computed from packet 0 is the start recorded when the cycle wrapped. */
  lemma StartRecomputed(g: Geo, first: nat, tail: nat)
    requires g.Valid() && first < g.N && (tail > 0 ==> 0 < first < tail < g.N)
    ensures Recomputed(g.D(), g.P, first, g.D() - BodyEnd(g, tail)) == StartVal(g, first, tail)
  {
    StartNonNegative(g, first, tail);
    WfBodyEnd(g, tail);
    assert g.P * first == g.Off(first) by { g.OffIsProduct(first); }
    if first > 0 {
      assert g.Off(first) > 0 by { g.OffMonotone(1, first); assert g.Off(1) == g.Off(0) + g.P; }
      SmallMod(StartVal(g, first, tail), g.D());
    } else {
      SelfMod(g.D());
    }
  }

  lemma SelfMod(n: int)
    requires 0 < n
    ensures n % n == 0
  {
  }

  lemma SmallMod(x: int, n: int)
    requires 0 <= x < n
    ensures x % n == x
  {
  }

  lemma FirstIsTaken(g: Geo, r: Recv, c: nat)
    requires !Accepts(g, r, c) && r.isFastpath
    ensures r.isFst
  {
  }

  lemma PatchIsWriteThenTest(g: Geo, r: Recv, s: nat, q: Recv)
    requires g.Valid() && Wf(g, r) && r.isFst && s < g.N && TailReady(r, s) && s != r.fst
    requires r.isFastpath ==> r.numFast + r.numSlow + 1 < g.N
    requires q == PatchWrite(g, r, s, q.tailBuf)
    ensures PatchStep(g, r, s, q.tailBuf) == IfComplete(q) && Wf(g, IfComplete(q))
    ensures q.isFst && q.numFast == r.numFast && q.fst == r.fst
  {
    PatchWf(g, r, s, q.tailBuf);
  }

  lemma MetadataIs(g: Geo, r: Recv, v: Recv)
    requires g.Valid() && BodyEnd(g, r.tail) <= g.D() && |v.tailBuf| == g.D() - BodyEnd(g, r.tail)
    requires v == r.(isZero := true, dataSize := g.D(), seqMax := g.N, payloadMin := g.Len(g.N - 1),
                     tailBuf := v.tailBuf, start := StartVal(g, r.fst, r.tail), jump := BodyEnd(g, r.tail))
    ensures v == WithMetadata(g, r, v.tailBuf)
  {
  }

  // The state after a packet other than 0, but for the last sequence number.
  ghost predicate TookOther(g: Geo, r: Recv, c: nat, v: Recv)
    requires g.Valid() && c < g.N
  {
    if Accepts(g, r, c) then
      var p := Cut(g, First(r, c), c);
      0 <= FilePosition(g, p, c) && v.(lst := c) == Store(g, p, c)
    else v == r
  }

  lemma TookOtherIsPrepared(g: Geo, r: Recv, c: nat, v: Recv)
    requires g.Valid() && Wf(g, r) && r.isFastpath && 0 < c < g.N && !Halts(r, c) && TookOther(g, r, c, v)
    ensures HasPrepared(g, r, c, if Accepts(g, r, c) then v.(lst := c) else v)
    ensures v.numFast == r.numFast + if Accepts(g, r, c) then 1 else 0
    ensures v.tailBuf == r.tailBuf && v.isZero == r.isZero && v.seqMax == r.seqMax
    ensures v.isFst && v.fst == First(r, c).fst
    ensures v.isFastpath && !v.isFinished
  {
    PreparedFacts(g, r, c, v.tailBuf);
  }

  /** The branches for a packet other than 0 decide as the window order does, and skip to its place. */
  lemma CascadeOther(g: Geo, r: Recv, c: nat)
    requires g.Valid() && Wf(g, r) && r.isFastpath && 0 < c < g.N
    ensures var s := Started(r, c);
      var p := Cut(g, First(r, c), c);
      if c - s.lst == 1 then
        && Accepts(g, r, c) && Loss(g, r, c) == None && !CutsTail(r, c) && !Halts(r, c)
        && r.pos == FilePosition(g, p, c)
      else if c > s.lst then
        && !CutsTail(r, c) && !Halts(r, c) && r.isFst
        && if (s.fst > s.lst && s.fst > c) || s.lst >= s.fst then
             && Accepts(g, r, c) && Loss(g, r, c) == Some(Tuple(s.lst + 1, c))
             && (c - s.lst - 1) * g.P >= 0 && r.pos + (c - s.lst - 1) * g.P == FilePosition(g, p, c)
           else !Accepts(g, r, c)
      else if c < s.fst < s.lst then
        && r.isFst && CutsTail(r, c) && (Halts(r, c) <==> r.tail != 0 || r.start != -1)
        && (!Halts(r, c) ==>
             && Accepts(g, r, c) && Loss(g, r, c) == Some(Tuple(s.lst + 1, c))
             && r.pos == StartVal(g, r.fst, r.lst)
             && c * g.P >= 0 && r.pos + c * g.P == FilePosition(g, p, c))
      else !Accepts(g, r, c) && !Halts(r, c) && r.isFst
  {
    if Accepts(g, r, c) && !Halts(r, c) {
      CursorAgreement(g, r, c, []);
    }
  }

  lemma PlaceOfZero(g: Geo, r: Recv, junk: seq<byte>)
    requires g.Valid() && Wf(g, r) && r.isFastpath
    ensures BodyEnd(g, r.tail) <= g.D()
    ensures Prepared(g, r, 0, junk) == if r.isZero then r else WithMetadata(g, First(r, 0), junk)
    ensures Accepts(g, r, 0) ==>
      && r.pos + (if r.isFst then Skip(g, r, 0) else 0) == FilePosition(g, WithMetadata(g, First(r, 0), junk), 0)
      && (r.isFst ==> Skip(g, r, 0) >= 0)
    ensures r.isZero ==> r.isFst && !Accepts(g, r, 0)
  {
    WfBodyEnd(g, r.tail);
    if Accepts(g, r, 0) { CursorAgreement(g, r, 0, junk); }
  }

  lemma FromPrepared(g: Geo, r: Recv, c: nat, v: Recv)
    requires g.Valid() && Wf(g, r) && c < g.N && !Halts(r, c) && r.isFastpath && HasPrepared(g, r, c, v)
    ensures FastStep(g, r, c, v.tailBuf)
         == if Next(g, c) == v.fst then IfComplete(v.(isFastpath := false, jump := v.pos)) else v
    ensures v.fst < g.N
  {
    PreparedFacts(g, r, c, v.tailBuf);
  }

  // `v` is the state once the packet has been stored, before the fast path is turned off.
  ghost predicate HasPrepared(g: Geo, r: Recv, c: nat, v: Recv)
    requires g.Valid() && Wf(g, r) && c < g.N && !Halts(r, c) && r.isFastpath
  {
    PreparedFacts(g, r, c, v.tailBuf);
    var p := Prepared(g, r, c, v.tailBuf);
    v == if Accepts(g, r, c) then Store(g, p, c) else p
  }
}
