/** The buffer pointers of a stream during decompression: swapped for the way through the hardware,
    possibly replaced by the user's own pointers, and put back before the stream is free again. */
module DecompressBuffers {
  /** An address; which ones there are does not matter. */
  type Ptr = int

  datatype Pointers = Pointers(srcData: Ptr, destData: Ptr, origSrc: Ptr, origDest: Ptr)

  /** How a response is dealt with: thrown away after an earlier data error, decompressed again in
      software, or taken from the hardware with a checksum that is right or wrong. */
  datatype Response = Skipped | Software | Good | WrongChecksum

  class Stream {
    var src1: int
    var src2: int
    var sink1: int
    var sink2: int
    var srcData: Ptr           // src_buffers[j]->pBuffers->pData
    var destData: Ptr
    var origSrc: Ptr
    var origDest: Ptr
    var srcNeedReset: bool
    var destNeedReset: bool
    ghost var home: Pointers   // what the pointers are while the stream is free
    ghost var away: bool       // set up and not yet put back

    predicate Free() reads this { src1 == src2 == sink1 == sink2 }
    predicate Reserved() reads this { src1 == src2 + 1 && src2 == sink1 == sink2 }
    predicate Busy() reads this { src1 == src2 == sink1 + 1 && sink1 == sink2 }
    predicate Done() reads this { src1 == src2 == sink1 == sink2 + 1 }

    ghost function View(): Pointers
      reads this
    {
      Pointers(srcData, destData, origSrc, origDest)
    }

    /** A free stream's buffers are its own. */
    ghost predicate HomeIsOwn()
      reads this
    {
      home.srcData == home.origSrc && home.destData == home.origDest
    }

    /** Under way the two directions are exchanged, and a pointer that was not replaced still points
        to the stream's own buffer. */
    ghost predicate Swapped()
      reads this
    {
      && origSrc == home.origDest && origDest == home.origSrc
      && (!srcNeedReset ==> srcData == home.destData) && (!destNeedReset ==> destData == home.srcData)
    }

    ghost predicate Valid()
      reads this
    {
      && HomeIsOwn() && (Free() || Reserved() || Busy() || Done())
      && (Free() ==> !away) && (Busy() ==> away)
      && (if away then Swapped() else View() == home && !srcNeedReset && !destNeedReset)
    }

    constructor (src: Ptr, dest: Ptr)
      ensures Valid() && Free() && home == Pointers(src, dest, src, dest)
    {
      src1, src2, sink1, sink2 := 0, 0, 0, 0;
      srcData, destData, origSrc, origDest := src, dest, src, dest;
      srcNeedReset, destNeedReset, away := false, false, false;
      home := Pointers(src, dest, src, dest);
    }

    /** swapDataBuffer exchanges data pointers and original pointers of the two directions. */
    method SwapDataBuffer()
      modifies this`srcData, this`destData, this`origSrc, this`origDest
      ensures View() == old(Pointers(destData, srcData, origDest, origSrc))
    {
      var tmp := srcData;
      srcData := destData;
      destData := tmp;
      tmp := origSrc;
      origSrc := origDest;
      origDest := tmp;
    }

    method RestoreDest()
      modifies this`destData, this`destNeedReset
      ensures destData == (if old(destNeedReset) then origDest else old(destData)) && !destNeedReset
    {
      if destNeedReset {
        destData := origDest;
        destNeedReset := false;
      }
    }

    method RestoreSrc()
      modifies this`srcData, this`srcNeedReset
      ensures srcData == (if old(srcNeedReset) then origSrc else old(srcData)) && !srcNeedReset
    {
      if srcNeedReset {
        srcData := origSrc;
        srcNeedReset := false;
      }
    }

    // ---- submitter ----

    method Claim()
      requires Valid() && Free()
      modifies this`src1
      ensures Valid() && Reserved() && !away && home == old(home)
    {
      src1 := src1 + 1;
    }

    /** decompBufferSetup: pinned memory (or hardware without contiguous memory) is used in place,
        other memory is copied through the stream's own buffer. */
    method Setup(srcPtr: Ptr, destPtr: Ptr, copySrc: bool, copyDest: bool)
      requires Valid() && Reserved() && !away
      modifies this
      ensures Valid() && Reserved() && away && home == old(home)
      ensures srcData == (if copySrc then home.destData else srcPtr)
              && destData == if copyDest then home.srcData else destPtr
    {
      SwapDataBuffer();
      if copySrc {
        srcNeedReset := false;
      } else {
        srcData := srcPtr;
        srcNeedReset := true;
      }
      if copyDest {
        destNeedReset := false;
      } else {
        destData := destPtr;
        destNeedReset := true;
      }
      away := true;
    }

    method Publish()
      requires Valid() && Reserved() && away
      modifies this`src2
      ensures Valid() && Busy() && home == old(home)
    {
      src2 := src2 + 1;
    }

    /** decompInBufferCleanUp after a refused request. The counters go back first, but only the
        submitter itself claims streams. */
    method InBufferCleanUp()
      requires Valid() && Busy()
      modifies this
      ensures Valid() && Free() && View() == home == old(home)
    {
      src1 := src1 - 1;
      src2 := src2 - 1;
      RestoreDest();
      RestoreSrc();
      SwapDataBuffer();
      away := false;
    }

    // ---- hardware ----

    method Callback()
      requires Valid() && Busy()
      modifies this`sink1
      ensures Valid() && Done() && away && home == old(home)
    {
      sink1 := sink1 + 1;
    }

    // ---- retriever ----

    /** decompOutProcessedRespond up to the counters: all pointers are back before sink2 moves. */
    method PutBack()
      requires Valid() && Done() && away && !destNeedReset
      modifies this
      ensures Valid() && Done() && !away && View() == home == old(home)
    {
      RestoreSrc();
      SwapDataBuffer();
      away := false;
    }

    method Release()
      requires Valid() && Done() && !away
      modifies this`sink2
      ensures Valid() && Free() && View() == home == old(home)
    {
      sink2 := sink2 + 1;
    }

    /** Every way of dealing with a response ends with a free stream whose pointers are as when it
        was claimed. */
    method Respond(r: Response)
      requires Valid() && Done() && away
      modifies this
      ensures Valid() && Free() && View() == home == old(home)
    {
      match r {
        case Skipped => RestoreDest();
        case Software => RestoreDest();
        case Good => ValidDestCleanUp();
        case WrongChecksum => ValidDestCleanUp();
      }
      PutBack();
      Release();
    }

    /** decompOutValidDestBufferCleanUp: a result that was not delivered in place is copied from the
        stream's own buffer, so that buffer must be the one the hardware wrote. */
    method ValidDestCleanUp()
      requires Valid() && Done() && away
      modifies this`destData, this`destNeedReset
      ensures Valid() && Done() && away && !destNeedReset && home == old(home)
      ensures destData == home.srcData
    {
      if destNeedReset {
        destData := origDest;
        destNeedReset := false;
      }
    }
  }

  /** What a trip does to pointers that need not be the stream's own when it is claimed. */
  function Trip(p: Pointers, srcPtr: Ptr, destPtr: Ptr, copySrc: bool, copyDest: bool): Pointers {
    var swapped := Pointers(p.destData, p.srcData, p.origDest, p.origSrc);
    var away := swapped.(srcData := if copySrc then swapped.srcData else srcPtr,
                         destData := if copyDest then swapped.destData else destPtr);
    var restored := away.(srcData := if copySrc then away.srcData else away.origSrc,
                          destData := if copyDest then away.destData else away.origDest);
    Pointers(restored.destData, restored.srcData, restored.origDest, restored.origSrc)
  }

  /** A trip restores the pointers exactly when each direction was copied through the stream's buffer
      or had its own buffer in place to begin with. */
  lemma TripRestoresIff(p: Pointers, srcPtr: Ptr, destPtr: Ptr, copySrc: bool, copyDest: bool)
    ensures Trip(p, srcPtr, destPtr, copySrc, copyDest) == p <==>
            (copySrc || p.destData == p.origDest) && (copyDest || p.srcData == p.origSrc)
  {
  }

  /** A whole trip from claim to release, or back after a refusal. */
  method RoundTrip(s: Stream, srcPtr: Ptr, destPtr: Ptr, copySrc: bool, copyDest: bool, refused: bool, r: Response)
    requires s.Valid() && s.Free()
    modifies s
    ensures s.Valid() && s.Free() && s.View() == old(s.View())
  {
    s.Claim();
    s.Setup(srcPtr, destPtr, copySrc, copyDest);
    s.Publish();
    if refused { s.InBufferCleanUp(); return; }
    s.Callback();
    s.Respond(r);
  }
}
