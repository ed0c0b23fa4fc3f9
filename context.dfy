/** The PDU queues of an iSCSI session context and the rules that move PDUs
    between them: PDUs wait on the outbound queue, are written one at a time
    from the "current" slot, and once on the wire either wait for a reply or,
    when no reply comes, are released. A corking PDU stops transmission; a
    reconnect drops the PDUs that must not be re-sent and re-queues the rest. */
module IscsiContext {
  import opened IscsiWire
  import opened IscsiPdu
  import opened IscsiInPdu

  class Context {
    /** Digests in use on the connection. */
    const headerDigest: HeaderDigest
    const dataDigest: bool

    var outqueue: seq<Pdu>
    var outqueueCurrent: Pdu?
    var waitpdu: seq<Pdu>
    var incoming: InPdu?
    var isCorked: bool

    function InFlight(): seq<Pdu>
      reads this`outqueueCurrent
    {
      if outqueueCurrent == null then [] else [outqueueCurrent]
    }

    /** The PDUs still to be written, in the order they go out. */
    function ToSend(): seq<Pdu>
      reads this`outqueueCurrent, this`outqueue
    {
      InFlight() + outqueue
    }

    /** Every PDU the context holds: those waiting for a reply, the one being
        written, and those queued. */
    function Pending(): seq<Pdu>
      reads this`waitpdu, this`outqueueCurrent, this`outqueue
    {
      waitpdu + InFlight() + outqueue
    }

    /** Bytes still to be written for the send queue: what is left of the
        current PDU and the whole of each queued one. */
    function Backlog(): nat
      requires outqueueCurrent != null ==> outqueueCurrent.Valid()
      reads this`outqueueCurrent, this`outqueue, outqueueCurrent
    {
      (if outqueueCurrent == null then 0 else outqueueCurrent.Unwritten()) + Total(outqueue)
    }

    ghost function IncomingRepr(): set<object>
      reads this`incoming, incoming
    {
      if incoming == null then {} else incoming.Repr()
    }

    /** The bytes of the PDU being received so far. */
    ghost function Inbound(): seq<byte>
      requires IncomingValid()
      reads this`incoming, if incoming == null then {} else {incoming, incoming.hdr}
      reads IncomingRepr()
    {
      if incoming == null then [] else incoming.Received()
    }

    /** A PDU is on at most one queue, and at most once on it; write cursors
        stay in bounds; queued PDUs have not started; PDUs waiting for a reply
        are fully sent and are never ones to be released once sent; a corked
        context is writing nothing. */
    ghost predicate QueuesValid()
      reads this`outqueue, this`outqueueCurrent, this`waitpdu, this`isCorked
      reads waitpdu, outqueue, outqueueCurrent
    {
      && Distinct(Pending())
      && (outqueueCurrent != null ==> outqueueCurrent.Valid())
      && (forall i :: 0 <= i < |outqueue| ==> outqueue[i].Valid() && outqueue[i].Unsent())
      && (forall i :: 0 <= i < |waitpdu| ==>
            waitpdu[i].Valid() && waitpdu[i].FullySent() && !waitpdu[i].Has(DeleteWhenSent))
      && (isCorked ==> outqueueCurrent == null)
    }

    /** The PDU being received, if any, is sized for the connection's digests
        and not yet complete: a complete one is never kept. */
    ghost predicate IncomingValid()
      reads this`incoming, if incoming == null then {} else {incoming, incoming.hdr}
    {
      incoming != null ==>
        && incoming.Valid()
        && incoming.hdr.Length == HeaderSize(headerDigest)
        && incoming.dataDigest == dataDigest
        && !incoming.Complete()
    }

    ghost predicate Valid()
      reads this, waitpdu, outqueue, outqueueCurrent, IncomingRepr()
    {
      QueuesValid() && IncomingValid()
    }

    constructor (headerDigest: HeaderDigest, dataDigest: bool)
      ensures Valid()
      ensures this.headerDigest == headerDigest && this.dataDigest == dataDigest
      ensures outqueue == [] && outqueueCurrent == null && waitpdu == []
      ensures incoming == null && !isCorked
    {
      this.headerDigest := headerDigest;
      this.dataDigest := dataDigest;
      outqueue := [];
      outqueueCurrent := null;
      waitpdu := [];
      incoming := null;
      isCorked := false;
    }

    /** Puts a new PDU at the end of the outbound queue. */
    method QueuePdu(pdu: Pdu)
      requires Valid()
      requires pdu !in Pending() && pdu.Unsent()
      modifies this`outqueue
      ensures Valid()
      ensures outqueue == old(outqueue) + [pdu]
    {
      DistinctSnoc(Pending(), pdu);
      outqueue := outqueue + [pdu];
      assert Pending() == old(Pending()) + [pdu];
    }

    /** Moves the head of the outbound queue into the current slot; nothing
        is taken while the context is corked. */
    method TakeNext()
      requires QueuesValid()
      requires outqueueCurrent == null && !isCorked && outqueue != []
      modifies this`outqueueCurrent, this`outqueue
      ensures QueuesValid()
      ensures outqueueCurrent == old(outqueue[0]) && outqueue == old(outqueue[1..])
      ensures ToSend() == old(ToSend()) && Pending() == old(Pending())
      ensures Backlog() == old(Backlog())
    {
      assert outqueue == [outqueue[0]] + outqueue[1..];
      outqueueCurrent := outqueue[0];
      outqueue := outqueue[1..];
      assert Pending() == old(Pending());
    }

    /** One write of the current PDU: the socket takes up to `allowance`
        bytes, the rest of the header first and then the payload. Cursors
        only move forward, and no payload byte goes out before the whole
        header. */
    method WriteCurrent(allowance: nat) returns (n: nat)
      requires QueuesValid() && outqueueCurrent != null
      modifies outqueueCurrent
      ensures QueuesValid()
      ensures n == Min(allowance, old(outqueueCurrent.Unwritten()))
      ensures outqueueCurrent.Unwritten() == old(outqueueCurrent.Unwritten()) - n
      ensures old(outqueueCurrent.outdataWritten) <= outqueueCurrent.outdataWritten
      ensures old(outqueueCurrent.payloadWritten) <= outqueueCurrent.payloadWritten
      ensures !outqueueCurrent.HeaderSent() ==>
        outqueueCurrent.payloadWritten == old(outqueueCurrent.payloadWritten)
    {
      var pdu := outqueueCurrent;
      DistinctSplit(waitpdu, pdu, outqueue);
      n := pdu.WriteOutdata(allowance);
      if pdu.HeaderSent() {
        var m := pdu.WritePayload(allowance - n);
        n := n + m;
      }
    }

    /** Retires the fully written current PDU: released when no reply will
        come, otherwise put on the wait queue; a corking PDU corks the
        context. */
    method FinishCurrent() returns (pdu: Pdu)
      requires QueuesValid()
      requires outqueueCurrent != null && outqueueCurrent.FullySent()
      modifies this`waitpdu, this`isCorked, this`outqueueCurrent
      ensures QueuesValid()
      ensures pdu == old(outqueueCurrent) && outqueueCurrent == null
      ensures waitpdu == old(waitpdu) + (if pdu.Has(DeleteWhenSent) then [] else [pdu])
      ensures isCorked == pdu.Has(CorkWhenSent)
      ensures pdu.Has(DeleteWhenSent) ==> pdu !in Pending()
    {
      pdu := outqueueCurrent;
      DistinctSplit(waitpdu, pdu, outqueue);
      if !pdu.Has(DeleteWhenSent) {
        waitpdu := waitpdu + [pdu];
      }
      if pdu.Has(CorkWhenSent) {
        isCorked := true;
      }
      outqueueCurrent := null;
      assert pdu.Has(DeleteWhenSent) ==> Pending() == old(waitpdu) + old(outqueue);
      assert !pdu.Has(DeleteWhenSent) ==> Pending() == old(Pending());
    }

    /** What a flush has done so far, measured against the state it started
        in: the finished PDUs left the front of the send queue in order, the
        ones expecting a reply joined the wait queue, and only the last one
        may have corked the context. */
    ghost predicate Flushed(toSend0: seq<Pdu>, waiting0: seq<Pdu>, corked0: bool, finished: seq<Pdu>)
      reads this`outqueue, this`outqueueCurrent, this`waitpdu, this`isCorked, finished
    {
      && toSend0 == finished + ToSend()
      && Distinct(toSend0)
      && (forall i :: 0 <= i < |finished| ==> finished[i].FullySent())
      && waitpdu == waiting0 + Without(finished, DeleteWhenSent)
      && OnlyLastHas(finished, CorkWhenSent)
      && (isCorked <==> corked0 || LastHas(finished, CorkWhenSent))
    }

    /** FinishCurrent inside a flush: the retired PDU joins the finished ones. */
    method RetireCurrent(ghost toSend0: seq<Pdu>, ghost waiting0: seq<Pdu>, ghost corked0: bool,
                         finished: seq<Pdu>)
      returns (finished': seq<Pdu>)
      requires QueuesValid() && Flushed(toSend0, waiting0, corked0, finished)
      requires outqueueCurrent != null && outqueueCurrent.FullySent()
      modifies this`waitpdu, this`isCorked, this`outqueueCurrent
      ensures QueuesValid() && Flushed(toSend0, waiting0, corked0, finished')
      ensures finished' == finished + [old(outqueueCurrent)] && outqueueCurrent == null
    {
      ghost var waiting := waitpdu;
      var pdu := FinishCurrent();
      AppendFinished(toSend0, waiting0, finished, waiting, pdu, ToSend());
      OnlyLastHasSnoc(finished, pdu, CorkWhenSent);
      finished' := finished + [pdu];
    }

    /** One round of a flush: takes the next PDU if none is being written,
        writes what the socket accepts of it, and retires it once it is fully
        written. Either the send queue gets shorter or the socket took all it
        was offered and the PDU stays, part written, in the current slot. */
    method SendNext(allowance: nat, ghost toSend0: seq<Pdu>, ghost waiting0: seq<Pdu>,
                    ghost corked0: bool, finished: seq<Pdu>)
      returns (n: nat, finished': seq<Pdu>)
      requires QueuesValid() && Flushed(toSend0, waiting0, corked0, finished)
      requires outqueueCurrent != null || (!isCorked && outqueue != [])
      modifies this`outqueue, this`outqueueCurrent, this`waitpdu, this`isCorked, ToSend()
      ensures QueuesValid() && Flushed(toSend0, waiting0, corked0, finished')
      ensures n <= allowance
      ensures outqueueCurrent == null ==> |ToSend()| < old(|ToSend()|)
      ensures outqueueCurrent != null ==> n == allowance && !outqueueCurrent.FullySent()
      ensures Backlog() + n == old(Backlog())
    {
      if outqueueCurrent == null {
        TakeNext();
      }
      assert outqueueCurrent == ToSend()[0] && ToSend() == old(ToSend());
      n := WriteCurrent(allowance);
      if outqueueCurrent.FullySent() {
        finished' := RetireCurrent(toSend0, waiting0, corked0, finished);
      } else {
        finished' := finished;
      }
    }

    /** Writes queued PDUs while the socket takes bytes: at most `budget`
        bytes in all, header before payload, one PDU at a time. A PDU that is
        fully written is released when it expects no reply and otherwise
        waits for one; after a corking PDU nothing more is taken from the
        queue. */
    method Flush(budget: nat) returns (finished: seq<Pdu>, released: seq<Pdu>, written: nat)
      requires QueuesValid()
      modifies this`outqueue, this`outqueueCurrent, this`waitpdu, this`isCorked, ToSend()
      ensures QueuesValid()
      ensures written <= budget && written + Backlog() == old(Backlog())
      ensures old(ToSend()) == finished + ToSend()
      ensures waitpdu == old(waitpdu) + Without(finished, DeleteWhenSent)
      ensures released == With(finished, DeleteWhenSent)
      ensures forall i :: 0 <= i < |finished| ==> finished[i].FullySent()
      ensures OnlyLastHas(finished, CorkWhenSent)
      ensures isCorked <==> old(isCorked) || LastHas(finished, CorkWhenSent)
      ensures old(isCorked) ==> finished == [] && written == 0 && outqueue == old(outqueue)
      ensures written < budget ==> isCorked || ToSend() == []
      ensures outqueueCurrent != null ==> !outqueueCurrent.FullySent()
    {
      finished, written := [], 0;
      assert Distinct(ToSend()) by {
        assert Pending() == waitpdu + ToSend();
        DistinctSuffix(waitpdu, ToSend());
      }
      ghost var toSend0, waiting0, corked0, queue0 := ToSend(), waitpdu, isCorked, outqueue;
      ghost var backlog0 := Backlog();
      while outqueueCurrent != null || (!isCorked && outqueue != [])
        invariant QueuesValid() && Flushed(toSend0, waiting0, corked0, finished)
        invariant written <= budget && written + Backlog() == backlog0
        invariant corked0 ==> finished == [] && written == 0 && outqueue == queue0
        decreases |ToSend()|
      {
        assert forall i :: 0 <= i < |ToSend()| ==> ToSend()[i] in old(ToSend());
        var n;
        n, finished := SendNext(budget - written, toSend0, waiting0, corked0, finished);
        written := written + n;
        if outqueueCurrent != null {
          break;
        }
      }
      released := With(finished, DeleteWhenSent);
    }

    /** Tears the connection down. Every held PDU flagged to be dropped on
        reconnect is handed back for a connection-lost completion; all the
        others are re-queued, started over, in the order waiting, current,
        queued. The new connection is not corked and has no inbound PDU. */
    method Reconnect() returns (dropped: seq<Pdu>)
      requires QueuesValid()
      modifies this, Pending()
      ensures Valid()
      ensures outqueue == Without(old(Pending()), DropOnReconnect)
      ensures dropped == With(old(Pending()), DropOnReconnect)
      ensures outqueueCurrent == null && waitpdu == [] && incoming == null && !isCorked
      ensures forall i :: 0 <= i < |dropped| ==> dropped[i] in old(Pending()) && unchanged(dropped[i])
    {
      var all := Pending();
      var kept;
      kept, dropped := SplitByFlag(all, DropOnReconnect);
      forall i | 0 <= i < |kept| ensures kept[i] in all {
        SplitMembers(all, DropOnReconnect, kept[i]);
      }
      forall i | 0 <= i < |dropped| ensures dropped[i] in all && dropped[i] !in kept {
        SplitMembers(all, DropOnReconnect, dropped[i]);
      }
      RewindAll(kept);
      WithoutDistinct(all, DropOnReconnect);
      outqueue, outqueueCurrent, waitpdu := kept, null, [];
      isCorked := false;
      incoming := null;
    }

    /** Starts receiving a new PDU, with buffers sized for the connection's
        digests. */
    method StartIncoming()
      requires incoming == null
      modifies this`incoming
      ensures IncomingValid() && incoming != null && fresh(IncomingRepr())
      ensures Inbound() == [] && incoming.Remaining() == HeaderSize(headerDigest)
    {
      incoming := new InPdu(headerDigest, dataDigest);
    }

    /** Reads bytes into the inbound PDU being received. A PDU that becomes
        complete is handed back for dispatch and the context is left with no
        inbound PDU. */
    method FeedIncoming(bytes: seq<byte>) returns (used: nat, done: InPdu?)
      requires IncomingValid() && incoming != null
      modifies this`incoming, IncomingRepr()
      ensures IncomingValid()
      ensures used == Min(|bytes|, old(incoming.Remaining()))
      ensures done != null ==> done.Valid() && done.Complete() && incoming == null
      ensures done != null ==> done.Received() == old(Inbound()) + bytes[..used]
      ensures done == null ==> incoming != null && Inbound() == old(Inbound()) + bytes[..used]
    {
      var inPdu := incoming;
      assert this !in inPdu.Repr();
      used := inPdu.Feed(bytes);
      if inPdu.Complete() {
        done := inPdu;
        incoming := null;
      } else {
        done := null;
        assert incoming == inPdu && IncomingValid();
      }
    }

    /** Reads bytes from the socket: starts a new inbound PDU if none is being
        received, then feeds it. */
    method ReadFromSocket(bytes: seq<byte>) returns (used: nat, done: InPdu?)
      requires IncomingValid()
      modifies this`incoming, IncomingRepr()
      ensures IncomingValid()
      ensures used == Min(|bytes|,
        old(if incoming == null then HeaderSize(headerDigest) else incoming.Remaining()))
      ensures done != null ==> done.Valid() && done.Complete() && incoming == null
      ensures done != null ==> done.Received() == old(Inbound()) + bytes[..used]
      ensures done == null ==> incoming != null && Inbound() == old(Inbound()) + bytes[..used]
    {
      if incoming == null {
        StartIncoming();
      }
      used, done := FeedIncoming(bytes);
    }
  }

  /** Splits a queue into the PDUs without and with a flag, keeping order. */
  method SplitByFlag(s: seq<Pdu>, flag: bv32) returns (without: seq<Pdu>, with: seq<Pdu>)
    ensures without == Without(s, flag) && with == With(s, flag)
  {
    without, with := [], [];
    for i := 0 to |s|
      invariant without == Without(s[..i], flag)
      invariant with == With(s[..i], flag)
    {
      assert s[..i + 1] == s[..i] + [s[i]];
      SplitAppend(s[..i], s[i], flag);
      if s[i].Has(flag) {
        with := with + [s[i]];
      } else {
        without := without + [s[i]];
      }
    }
    assert s[..|s|] == s;
  }

  /** Bookkeeping for one PDU leaving the send queue: it moves to the end of
      the finished ones, and onto the wait queue unless it is released. */
  lemma AppendFinished(toSend0: seq<Pdu>, waiting0: seq<Pdu>, finished: seq<Pdu>,
                       waiting: seq<Pdu>, pdu: Pdu, rest: seq<Pdu>)
    requires toSend0 == finished + ([pdu] + rest)
    requires waiting == waiting0 + Without(finished, DeleteWhenSent)
    ensures toSend0 == (finished + [pdu]) + rest
    ensures waiting + (if pdu.Has(DeleteWhenSent) then [] else [pdu])
      == waiting0 + Without(finished + [pdu], DeleteWhenSent)
  {
    SplitAppend(finished, pdu, DeleteWhenSent);
    var kept := if pdu.Has(DeleteWhenSent) then [] else [pdu];
    AppendAssoc(waiting0, Without(finished, DeleteWhenSent), kept);
    AppendAssoc(finished, [pdu], rest);
  }

  /** Associativity of concatenation, stated for the three sequences at hand
      so that AppendFinished need not search for it. */
  lemma AppendAssoc(a: seq<Pdu>, b: seq<Pdu>, c: seq<Pdu>)
    ensures (a + b) + c == a + (b + c)
  {
  }

  /** Starts every PDU of a queue over. */
  method RewindAll(s: seq<Pdu>)
    modifies s
    ensures forall i :: 0 <= i < |s| ==> s[i].Valid() && s[i].Unsent()
  {
    for i := 0 to |s|
      invariant forall j :: 0 <= j < i ==> s[j].Valid() && s[j].Unsent()
    {
      s[i].Rewind();
    }
  }
}
