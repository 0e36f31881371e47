/**
 * The connection of src/rs__transport.c as an object: its fixed array of
 * outstanding-request slots, its attempt limit and response timeout, its
 * teardown flag, and the external effects its handlers have so far made.
 * Each handler updates the slot array in place, as the C code does, and is
 * proved to have exactly the effect of the matching function of module
 * Outstanding.
 */
module Transport {
  import opened Outstanding

  class Conn {
    /** conn->outstanding[0 .. conn->n_outstanding) */
    const outstanding: array<Slot>
    /** conn->n_tries: the number of transmission attempts allowed per request */
    const nTries: int
    /** conn->timeout: the response timeout handed to each timer */
    const timeout: nat
    /** conn->free: set while the connection waits to be torn down */
    var free: bool
    /** The calls made to libuv and to the collaborators, oldest first. */
    var events: seq<Event>

    /** A connection whose slots hold `slots`, before any handler has run. */
    constructor (slots: seq<Slot>, nTries: int, timeout: nat, free: bool)
      ensures fresh(outstanding) && outstanding[..] == slots
      ensures this.nTries == nTries && this.timeout == timeout && this.free == free
      ensures events == []
    {
      this.outstanding := new Slot[|slots|](j requires 0 <= j < |slots| => slots[j]);
      this.nTries := nTries;
      this.timeout := timeout;
      this.free := free;
      this.events := [];
    }

    /**
     * rs__attempt_transmission(conn, &conn->outstanding[i]); `sendRejected`
     * is whether uv_udp_send returned an error.
     */
    method AttemptTransmission(i: nat, sendRejected: bool)
      requires i < outstanding.Length
      modifies outstanding, this`events
      ensures outstanding[..] == old(outstanding[..])[i := Transmit(old(outstanding[i]), i, nTries, sendRejected).slot]
      ensures events == old(events) + Transmit(old(outstanding[i]), i, nTries, sendRejected).events
      ensures UniqueActiveSeqNums(old(outstanding[..])) ==> UniqueActiveSeqNums(outstanding[..])
    {
      if !outstanding[i].active {
        return;
      }
      outstanding[i] := outstanding[i].(nTries := outstanding[i].nTries + 1);
      if outstanding[i].nTries <= nTries {
        outstanding[i] := outstanding[i].(sendReqActive := true);
        events := events + [Send(i)];
        if sendRejected {
          outstanding[i] := outstanding[i].(sendReqActive := false);
          events := events + [Cancel(i, TransportError)];
          return;
        }
      } else {
        events := events + [Cancel(i, TransportError)];
      }
    }

    /** rs__timer_cb for the timer of slot `i`. */
    method TimerCb(i: nat, sendRejected: bool)
      requires i < outstanding.Length
      modifies outstanding, this`events
      ensures outstanding[..] == old(outstanding[..])[i := TimerExpiry(old(outstanding[i]), i, nTries, sendRejected).slot]
      ensures events == old(events) + TimerExpiry(old(outstanding[i]), i, nTries, sendRejected).events
      ensures UniqueActiveSeqNums(old(outstanding[..])) ==> UniqueActiveSeqNums(outstanding[..])
    {
      // The one-shot timer has fired and is no longer armed.
      outstanding[i] := outstanding[i].(timerArmed := false);
      AttemptTransmission(i, sendRejected);
    }

    /** rs__udp_send_cb for the send request of slot `i`, with libuv's `status`. */
    method UdpSendCb(i: nat, status: int)
      requires i < outstanding.Length
      modifies outstanding, this`events
      ensures outstanding[..] == old(outstanding[..])[i := SendCompletion(old(outstanding[i]), i, free, timeout, status).slot]
      ensures events == old(events) + SendCompletion(old(outstanding[i]), i, free, timeout, status).events
      ensures UniqueActiveSeqNums(old(outstanding[..])) ==> UniqueActiveSeqNums(outstanding[..])
    {
      outstanding[i] := outstanding[i].(sendReqActive := false);
      if free {
        events := events + [Free];
        return;
      }
      if outstanding[i].active && outstanding[i].cancelled {
        outstanding[i] := outstanding[i].(active := false, cancelled := false);
        events := events + [ProcessQueue];
        return;
      }
      if status != 0 {
        events := events + [Cancel(i, TransportError)];
        return;
      }
      events := events + [StartTimer(i, timeout)];
      outstanding[i] := outstanding[i].(timerArmed := true);
    }

    /**
     * The scan of rs__udp_recv_cb: the first slot, in index order, that is
     * active and carries sequence number `sn`.
     */
    method FindOutstanding(sn: SeqNum) returns (k: Option<nat>)
      ensures k.Some? ==> k.value < outstanding.Length && Matches(outstanding[k.value], sn)
      ensures k.Some? ==> forall j :: 0 <= j < k.value ==> !Matches(outstanding[j], sn)
      ensures k.None? ==> forall j :: 0 <= j < outstanding.Length ==> !Matches(outstanding[j], sn)
      ensures k == FirstActiveMatch(outstanding[..], sn)
    {
      var i := 0;
      while i < outstanding.Length
        invariant 0 <= i <= outstanding.Length
        invariant forall j :: 0 <= j < i ==> !Matches(outstanding[j], sn)
      {
        if outstanding[i].active && outstanding[i].seqNum == sn {
          return Some(i);
        }
        i := i + 1;
      }
      return None;
    }

    /**
     * rs__udp_recv_cb for a datagram of `nread` bytes held in `buf`;
     * `minSize` is RS__SIZEOF_SCP_PACKET(0, 0) and `seqNumOf` is
     * rs__unpack_scp_packet_seq_num.
     */
    method UdpRecvCb(nread: int, buf: seq<bv8>, minSize: nat, seqNumOf: seq<bv8> -> SeqNum)
      modifies this`events
      ensures events == old(events) + Demux(outstanding[..], nread, minSize, seqNumOf(buf))
    {
      if nread >= minSize {
        var sn := seqNumOf(buf);
        var k := FindOutstanding(sn);
        if k.Some? {
          events := events + [ProcessResponse(k.value, nread)];
        }
      }
    }
  }
}
