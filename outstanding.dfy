/**
 * Values of one outstanding-request slot of an SCP connection, the external
 * effects the transport handlers produce, and the effect of each handler of
 * src/rs__transport.c on one slot, written as pure functions.
 *
 * The callees whose bodies are not part of this model (cancelling a slot,
 * draining the request queue, processing a response, freeing the connection)
 * appear only as events; nothing is said about what they do to the slots.
 */
module Outstanding {

  datatype Option<T> = None | Some(value: T)

  /** The SCP sequence number, a 16-bit unsigned header field. */
  type SeqNum = x: int | 0 <= x < 0x1_0000

  /** The error code the transport layer passes when it cancels a slot. */
  const TransportError: int := -1

  /** One entry of the connection's fixed `outstanding` array. */
  datatype Slot = Slot(
    active: bool,         // the slot holds a request
    cancelled: bool,      // cancelled while a send was still in flight
    sendReqActive: bool,  // a send request is in flight
    nTries: int,          // transmission attempts made so far
    seqNum: SeqNum,       // sequence number of the request's packet
    timerArmed: bool)     // the one-shot response timer is armed

  /** An effect a handler has outside the slot array, in the order made. */
  datatype Event =
    | Send(slot: nat)                     // uv_udp_send of the slot's packet
    | Cancel(slot: nat, error: int)       // rs__cancel_outstanding(conn, os, error)
    | ProcessQueue                        // rs__process_request_queue(conn)
    | ProcessResponse(slot: nat, len: int) // rs__process_response with buf.len == len
    | Free                                // rs_free(conn)
    | StartTimer(slot: nat, timeout: nat) // uv_timer_start(..., timeout, 0)

  /** The slot after a handler, and the events it made. */
  datatype Step = Step(slot: Slot, events: seq<Event>)

  predicate IsSend(e: Event) { e.Send? }
  predicate IsStartTimer(e: Event) { e.StartTimer? }
  predicate IsCancel(e: Event) { e.Cancel? }

  /** The number of events in `evs` that satisfy `p`. */
  function Count(evs: seq<Event>, p: Event -> bool): (n: nat)
    ensures n <= |evs|
  {
    if evs == [] then 0 else (if p(evs[0]) then 1 else 0) + Count(evs[1..], p)
  }

  lemma {:induction false} CountAppend(a: seq<Event>, b: seq<Event>, p: Event -> bool)
    ensures Count(a + b, p) == Count(a, p) + Count(b, p)
  {
    if a != [] {
      assert a + b != [] && (a + b)[0] == a[0];
      assert (a + b)[1..] == a[1..] + b;
      CountAppend(a[1..], b, p);
    } else {
      assert a + b == b;
    }
  }

  /**
   * rs__attempt_transmission on slot `i` of a connection whose attempt limit
   * is `limit`; `sendRejected` is whether uv_udp_send refused the packet
   * immediately.
   */
  function Transmit(s: Slot, i: nat, limit: int, sendRejected: bool): (r: Step)
    // An inactive slot: nothing changes and nothing happens.
    ensures !s.active ==> r.slot == s && r.events == []
    // Every call on an active slot counts one attempt.
    ensures s.active ==> r.slot.nTries == s.nTries + 1
    // Only the attempt counter and the in-flight flag can change.
    ensures r.slot.(nTries := s.nTries, sendReqActive := s.sendReqActive) == s
    // A send is issued exactly when the counted attempt is within the limit.
    ensures (Send(i) in r.events) <==> s.active && s.nTries + 1 <= limit
    ensures Count(r.events, IsSend) == (if s.active && s.nTries + 1 <= limit then 1 else 0)
    // The slot is cancelled with -1 exactly when the limit is exceeded or the
    // send is refused.
    ensures (Cancel(i, TransportError) in r.events)
              <==> s.active && (s.nTries + 1 > limit || sendRejected)
    // A send that was accepted leaves the send in flight; one that was refused does not.
    ensures s.active && s.nTries + 1 <= limit ==> r.slot.sendReqActive == !sendRejected
    ensures !(s.active && s.nTries + 1 <= limit) ==> r.slot.sendReqActive == s.sendReqActive
    // No other kind of effect, and the send comes before the cancel.
    ensures forall e :: e in r.events ==> e == Send(i) || e == Cancel(i, TransportError)
    ensures |r.events| <= 2 && (|r.events| == 2 ==> r.events == [Send(i), Cancel(i, TransportError)])
  {
    if !s.active then Step(s, [])
    else
      var counted := s.(nTries := s.nTries + 1);
      if counted.nTries <= limit then
        if sendRejected then
          Step(counted.(sendReqActive := false), [Send(i), Cancel(i, TransportError)])
        else
          Step(counted.(sendReqActive := true), [Send(i)])
      else
        Step(counted, [Cancel(i, TransportError)])
  }

  /**
   * rs__timer_cb for slot `i`: the one-shot timer has expired (so it is no
   * longer armed) and a retransmission is attempted.
   */
  function TimerExpiry(s: Slot, i: nat, limit: int, sendRejected: bool): (r: Step)
    ensures !r.slot.timerArmed
    ensures r.slot.(timerArmed := s.timerArmed) == Transmit(s, i, limit, sendRejected).slot
    ensures r.events == Transmit(s, i, limit, sendRejected).events
  {
    Transmit(s.(timerArmed := false), i, limit, sendRejected)
  }

  /**
   * rs__udp_send_cb for slot `i`: `connFree` is the connection's teardown
   * flag, `timeout` its response timeout and `status` the send's outcome.
   */
  function SendCompletion(s: Slot, i: nat, connFree: bool, timeout: nat, status: int): (r: Step)
    // The in-flight flag is always cleared, and exactly one outcome follows.
    ensures !r.slot.sendReqActive
    ensures |r.events| == 1
    // 1. A connection being torn down: free is re-attempted and nothing else.
    ensures r.events == [Free] <==> connFree
    ensures connFree ==> r.slot == s.(sendReqActive := false)
    // 2. A slot cancelled while its send was in flight is now released and
    //    the request queue is drained once.
    ensures r.events == [ProcessQueue] <==> !connFree && s.active && s.cancelled
    ensures r.events == [ProcessQueue] ==> !r.slot.active && !r.slot.cancelled
    ensures r.events != [ProcessQueue] ==> r.slot.active == s.active && r.slot.cancelled == s.cancelled
    // 3. A failed send cancels the slot with -1.
    ensures (r.events == [Cancel(i, TransportError)])
              <==> !connFree && !(s.active && s.cancelled) && status != 0
    // 4. A successful send arms the response timer with the connection's timeout.
    ensures (r.events == [StartTimer(i, timeout)])
              <==> !connFree && !(s.active && s.cancelled) && status == 0
    ensures r.slot.timerArmed == (s.timerArmed || r.events == [StartTimer(i, timeout)])
    // The attempt counter and the sequence number are untouched.
    ensures r.slot.nTries == s.nTries && r.slot.seqNum == s.seqNum
  {
    var done := s.(sendReqActive := false);
    if connFree then Step(done, [Free])
    else if done.active && done.cancelled then
      Step(done.(active := false, cancelled := false), [ProcessQueue])
    else if status != 0 then Step(done, [Cancel(i, TransportError)])
    else Step(done.(timerArmed := true), [StartTimer(i, timeout)])
  }

  /** A slot to which a response with sequence number `sn` belongs. */
  predicate Matches(s: Slot, sn: SeqNum) { s.active && s.seqNum == sn }

  /** The lowest index of a slot that is active and carries `sn`. */
  function FirstActiveMatch(slots: seq<Slot>, sn: SeqNum): (r: Option<nat>)
    ensures r.Some? ==> r.value < |slots| && Matches(slots[r.value], sn)
    ensures r.Some? ==> forall j :: 0 <= j < r.value ==> !Matches(slots[j], sn)
    ensures r.None? <==> forall j :: 0 <= j < |slots| ==> !Matches(slots[j], sn)
  {
    if slots == [] then None
    else if Matches(slots[0], sn) then Some(0)
    else match FirstActiveMatch(slots[1..], sn)
      case None => None
      case Some(k) => Some(k + 1)
  }

  /**
   * The events rs__udp_recv_cb makes for a datagram of `nread` bytes whose
   * header carries `sn`, where `minSize` is the size of an SCP packet with
   * no arguments and no data.
   */
  function Demux(slots: seq<Slot>, nread: int, minSize: nat, sn: SeqNum): (r: seq<Event>)
    // A datagram too short to be an SCP packet is ignored.
    ensures nread < minSize ==> r == []
    // At most one slot receives it ...
    ensures |r| <= 1
    // ... the lowest-indexed active slot with the same sequence number,
    // handed the datagram truncated to the bytes read.
    ensures r != [] ==> r[0].ProcessResponse? && r[0].len == nread
                        && r[0].slot < |slots| && Matches(slots[r[0].slot], sn)
                        && forall j :: 0 <= j < r[0].slot ==> !Matches(slots[j], sn)
    // It is ignored only when it is too short or no active slot carries `sn`.
    ensures r == [] <==> nread < minSize || forall j :: 0 <= j < |slots| ==> !Matches(slots[j], sn)
  {
    if nread >= minSize then
      match FirstActiveMatch(slots, sn)
      case Some(k) => [ProcessResponse(k, nread)]
      case None => []
    else []
  }

  /** Sequence numbers are unique among the active slots. */
  predicate UniqueActiveSeqNums(slots: seq<Slot>)
  {
    forall j, k :: 0 <= j < k < |slots| && slots[j].active && slots[k].active
      ==> slots[j].seqNum != slots[k].seqNum
  }

  /**
   * When sequence numbers are unique among active slots, a response reaches
   * exactly the slot that issued its sequence number.
   */
  lemma UniqueMatchIsFound(slots: seq<Slot>, sn: SeqNum, k: nat)
    requires UniqueActiveSeqNums(slots)
    requires k < |slots| && Matches(slots[k], sn)
    ensures FirstActiveMatch(slots, sn) == Some(k)
  {
  }

  /**
   * A datagram of no bytes, or an error (negative count), is never processed;
   * this includes every read into a buffer whose allocation failed.
   */
  lemma NonPositiveReadIgnored(slots: seq<Slot>, nread: int, minSize: nat, sn: SeqNum)
    requires minSize > 0 && nread <= 0
    ensures Demux(slots, nread, minSize, sn) == []
  {
  }

  /** The receive buffer handed to libuv by rs__udp_recv_alloc_cb. */
  datatype RecvBuffer = RecvBuffer(hasBase: bool, len: nat)

  /**
   * rs__udp_recv_alloc_cb: `mallocSucceeded` is whether malloc of
   * `suggestedSize` bytes returned a buffer.
   */
  function AllocRecvBuffer(suggestedSize: nat, mallocSucceeded: bool): (b: RecvBuffer)
    ensures b.hasBase == mallocSucceeded
    ensures b.len <= suggestedSize
    // A buffer reports the full suggested size exactly when it was allocated
    // (or when nothing was asked for); without a buffer its length is 0.
    ensures b.len == suggestedSize <==> mallocSucceeded || suggestedSize == 0
    ensures !b.hasBase ==> b.len == 0
  {
    if mallocSucceeded then RecvBuffer(true, suggestedSize) else RecvBuffer(false, 0)
  }
}
