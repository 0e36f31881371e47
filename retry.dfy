/**
 * The retry discipline of one slot over time: any sequence of the callbacks
 * the event loop delivers for that slot, run through the handlers of
 * src/rs__transport.c, and what the sequence as a whole guarantees.
 */
module Retry {
  import opened Outstanding

  /** One callback delivered for the slot by the event loop. */
  datatype Callback =
    | Attempt(sendRejected: bool)           // a direct rs__attempt_transmission (first send on admission)
    | TimerFired(sendRejected: bool)        // rs__timer_cb
    | SendDone(connFree: bool, status: int) // rs__udp_send_cb

  function Apply(s: Slot, i: nat, limit: int, timeout: nat, cb: Callback): Step
  {
    match cb
    case Attempt(rejected) => Transmit(s, i, limit, rejected)
    case TimerFired(rejected) => TimerExpiry(s, i, limit, rejected)
    case SendDone(connFree, status) => SendCompletion(s, i, connFree, timeout, status)
  }

  /** What a slot's events may be: addressed to the slot, with the connection's constants. */
  predicate Addressed(e: Event, i: nat, timeout: nat)
  {
    match e
    case Send(j) => j == i
    case Cancel(j, error) => j == i && error == TransportError
    case StartTimer(j, t) => j == i && t == timeout
    case ProcessResponse(_, _) => false
    case ProcessQueue => true
    case Free => true
  }

  /** The slot after the callbacks `cbs`, and every event they made, in order. */
  function Run(s: Slot, i: nat, limit: int, timeout: nat, cbs: seq<Callback>): (r: Step)
    // Retransmissions reuse the slot's sequence number.
    ensures r.slot.seqNum == s.seqNum
    // The attempt counter never goes down.
    ensures r.slot.nTries >= s.nTries
    // No handler makes an inactive slot active.
    ensures !s.active ==> !r.slot.active
    ensures forall e :: e in r.events ==> Addressed(e, i, timeout)
    decreases |cbs|
  {
    if cbs == [] then Step(s, [])
    else
      var first := Apply(s, i, limit, timeout, cbs[0]);
      var rest := Run(first.slot, i, limit, timeout, cbs[1..]);
      Step(rest.slot, first.events + rest.events)
  }

  function Max(a: int, b: int): int { if a < b then b else a }
  function Min(a: int, b: int): int { if a < b then a else b }

  /** One callback sends at most once, and only as an attempt counted within the limit. */
  lemma CallbackSends(s: Slot, i: nat, limit: int, timeout: nat, cb: Callback)
    ensures var f := Apply(s, i, limit, timeout, cb);
            && f.slot.nTries >= s.nTries
            && Count(f.events, IsSend) <= 1
            && (Count(f.events, IsSend) == 1 ==> f.slot.nTries == s.nTries + 1 <= limit)
  {
  }

  /**
   * Every send is an attempt counted within the limit: over any callbacks,
   * the sends are at most the attempts counted up to the limit.
   */
  lemma {:induction false} SendsWithinCountedAttempts(
    s: Slot, i: nat, limit: int, timeout: nat, cbs: seq<Callback>)
    ensures var r := Run(s, i, limit, timeout, cbs);
            Count(r.events, IsSend) <= Max(0, Min(r.slot.nTries, limit) - s.nTries)
    decreases |cbs|
  {
    if cbs != [] {
      var first := Apply(s, i, limit, timeout, cbs[0]);
      var rest := Run(first.slot, i, limit, timeout, cbs[1..]);
      CallbackSends(s, i, limit, timeout, cbs[0]);
      SendsWithinCountedAttempts(first.slot, i, limit, timeout, cbs[1..]);
      CountAppend(first.events, rest.events, IsSend);
      assert Run(s, i, limit, timeout, cbs) == Step(rest.slot, first.events + rest.events);
      SendArithmetic(Count(first.events, IsSend), Count(rest.events, IsSend),
                     s.nTries, first.slot.nTries, rest.slot.nTries, limit);
    }
  }

  lemma SendArithmetic(a: nat, b: nat, n0: int, n1: int, nf: int, limit: int)
    requires a <= 1 && n0 <= n1 <= nf
    requires a == 1 ==> n1 == n0 + 1 <= limit
    requires b <= Max(0, Min(nf, limit) - n1)
    ensures a + b <= Max(0, Min(nf, limit) - n0)
  {
  }

  /**
   * A slot is sent at most `limit` times counting from its attempt counter,
   * whatever the event loop delivers.
   */
  lemma SendsBounded(s: Slot, i: nat, limit: int, timeout: nat, cbs: seq<Callback>)
    ensures Count(Run(s, i, limit, timeout, cbs).events, IsSend) <= Max(0, limit - s.nTries)
  {
    SendsWithinCountedAttempts(s, i, limit, timeout, cbs);
  }

  /**
   * A callback the event loop can deliver in the slot's state: a direct
   * attempt only to a slot that is neither sending nor waiting, a timer
   * expiry only while the timer is armed, a send completion only while a
   * send is in flight.
   */
  predicate Enabled(s: Slot, cb: Callback)
  {
    match cb
    case Attempt(_) => !s.sendReqActive && !s.timerArmed
    case TimerFired(_) => s.timerArmed
    case SendDone(_, _) => s.sendReqActive
  }

  /** Every callback of `cbs` is enabled in the state it reaches the slot in. */
  predicate Deliverable(s: Slot, i: nat, limit: int, timeout: nat, cbs: seq<Callback>)
    decreases |cbs|
  {
    cbs == [] ||
    (Enabled(s, cbs[0]) &&
     Deliverable(Apply(s, i, limit, timeout, cbs[0]).slot, i, limit, timeout, cbs[1..]))
  }

  /** A slot waits on at most one thing: its send's completion or its timer. */
  predicate OneWait(s: Slot) { !(s.sendReqActive && s.timerArmed) }

  function Bit(b: bool): nat { if b then 1 else 0 }

  /**
   * Over deliverable callbacks a slot keeps waiting on at most one thing,
   * and every timer it arms answers a send made before it.
   */
  lemma {:induction false} TimersFollowSends(
    s: Slot, i: nat, limit: int, timeout: nat, cbs: seq<Callback>)
    requires OneWait(s) && Deliverable(s, i, limit, timeout, cbs)
    ensures var r := Run(s, i, limit, timeout, cbs);
            OneWait(r.slot) &&
            Count(r.events, IsStartTimer) + Bit(r.slot.sendReqActive)
              <= Count(r.events, IsSend) + Bit(s.sendReqActive)
    decreases |cbs|
  {
    if cbs != [] {
      var first := Apply(s, i, limit, timeout, cbs[0]);
      var rest := Run(first.slot, i, limit, timeout, cbs[1..]);
      assert OneWait(first.slot) &&
             Count(first.events, IsStartTimer) + Bit(first.slot.sendReqActive)
               <= Count(first.events, IsSend) + Bit(s.sendReqActive) by {
        match cbs[0]
        case Attempt(rejected) =>
          assert Count(first.events, IsStartTimer) == 0;
        case TimerFired(rejected) =>
          assert Count(first.events, IsStartTimer) == 0;
          assert Count(first.events, IsSend) == Count(Transmit(s, i, limit, rejected).events, IsSend);
        case SendDone(connFree, status) =>
          assert Count(first.events, IsStartTimer) <= 1;
      }
      TimersFollowSends(first.slot, i, limit, timeout, cbs[1..]);
      CountAppend(first.events, rest.events, IsSend);
      CountAppend(first.events, rest.events, IsStartTimer);
    }
  }

  /**
   * The total time a request can wait for responses: over deliverable
   * callbacks, the slot arms at most one timer per send it is allowed (plus
   * one for a send already in flight), each for the connection's timeout.
   */
  lemma TimerBudget(s: Slot, i: nat, limit: int, timeout: nat, cbs: seq<Callback>)
    requires OneWait(s) && Deliverable(s, i, limit, timeout, cbs)
    ensures var r := Run(s, i, limit, timeout, cbs);
            Count(r.events, IsStartTimer) <= Max(0, limit - s.nTries) + Bit(s.sendReqActive)
            && forall e :: e in r.events && e.StartTimer? ==> e.timeout == timeout
  {
    TimersFollowSends(s, i, limit, timeout, cbs);
    SendsBounded(s, i, limit, timeout, cbs);
  }

  /**
   * Every response lost: `k` rounds of a successful send completion followed
   * by the expiry of the timer it armed, each retransmission accepted.
   */
  function LostRounds(k: nat): seq<Callback>
  {
    if k == 0 then [] else [SendDone(false, 0), TimerFired(false)] + LostRounds(k - 1)
  }

  /** The events of `k` lost rounds: a timer, then a retransmission, and
      finally a timer whose expiry exhausts the limit and cancels the slot. */
  function LostEvents(i: nat, timeout: nat, k: nat): seq<Event>
    requires k >= 1
  {
    if k == 1 then [StartTimer(i, timeout), Cancel(i, TransportError)]
    else [StartTimer(i, timeout), Send(i)] + LostEvents(i, timeout, k - 1)
  }

  /**
   * A slot whose send is in flight and whose responses are all lost is
   * retransmitted with one timeout between sends until the attempt counter
   * passes the limit, and is then cancelled with -1.
   */
  lemma {:induction false} LostResponsesExhaustAttempts(
    s: Slot, i: nat, limit: int, timeout: nat, k: nat)
    requires s.active && !s.cancelled && s.sendReqActive && !s.timerArmed
    requires k >= 1 && s.nTries + k == limit + 1
    ensures Run(s, i, limit, timeout, LostRounds(k))
            == Step(s.(nTries := limit + 1, sendReqActive := false), LostEvents(i, timeout, k))
    decreases k
  {
    var cbs := LostRounds(k);
    assert cbs[0] == SendDone(false, 0);
    var acked := SendCompletion(s, i, false, timeout, 0);
    assert acked == Step(s.(sendReqActive := false, timerArmed := true), [StartTimer(i, timeout)]);
    assert cbs[1..][0] == TimerFired(false);
    assert cbs[1..][1..] == LostRounds(k - 1);
    var expired := TimerExpiry(acked.slot, i, limit, false);
    if k == 1 {
      assert expired == Step(s.(nTries := limit + 1, sendReqActive := false), [Cancel(i, TransportError)]);
      assert LostRounds(0) == [];
      assert Run(expired.slot, i, limit, timeout, []) == Step(expired.slot, []);
      assert Run(acked.slot, i, limit, timeout, cbs[1..]) == Step(expired.slot, [Cancel(i, TransportError)] + []);
      assert [StartTimer(i, timeout)] + ([Cancel(i, TransportError)] + []) == LostEvents(i, timeout, 1);
    } else {
      assert expired == Step(s.(nTries := s.nTries + 1), [Send(i)]);
      LostResponsesExhaustAttempts(s.(nTries := s.nTries + 1), i, limit, timeout, k - 1);
    }
  }

  lemma {:induction false} LostEventsCounts(i: nat, timeout: nat, k: nat)
    requires k >= 1
    ensures Count(LostEvents(i, timeout, k), IsSend) == k - 1
    ensures Count(LostEvents(i, timeout, k), IsStartTimer) == k
    ensures Count(LostEvents(i, timeout, k), IsCancel) == 1
    ensures LostEvents(i, timeout, k)[|LostEvents(i, timeout, k)| - 1] == Cancel(i, TransportError)
    decreases k
  {
    if k > 1 {
      var head: seq<Event> := [StartTimer(i, timeout), Send(i)];
      LostEventsCounts(i, timeout, k - 1);
      CountAppend(head, LostEvents(i, timeout, k - 1), IsSend);
      CountAppend(head, LostEvents(i, timeout, k - 1), IsStartTimer);
      CountAppend(head, LostEvents(i, timeout, k - 1), IsCancel);
    }
  }

  /**
   * A request admitted into slot `i` with attempt counter `n` below the limit,
   * none of whose responses arrive: it is sent exactly `limit - n` times, arms
   * one timer after each send, and ends cancelled with -1 exactly once.
   */
  lemma LostRequestLifecycle(s: Slot, i: nat, limit: int, timeout: nat)
    requires s.active && !s.cancelled && !s.sendReqActive && !s.timerArmed
    requires s.nTries < limit
    ensures var cbs := [Attempt(false)] + LostRounds(limit - s.nTries);
            var r := Run(s, i, limit, timeout, cbs);
            && Deliverable(s, i, limit, timeout, cbs)
            && r.events == [Send(i)] + LostEvents(i, timeout, limit - s.nTries)
            && Count(r.events, IsSend) == limit - s.nTries
            && Count(r.events, IsStartTimer) == limit - s.nTries
            && Count(r.events, IsCancel) == 1
            && r.events[|r.events| - 1] == Cancel(i, TransportError)
            && r.slot.nTries == limit + 1 && !r.slot.sendReqActive && !r.slot.timerArmed
  {
    var k := limit - s.nTries;
    var cbs := [Attempt(false)] + LostRounds(k);
    var sent := s.(nTries := s.nTries + 1, sendReqActive := true);
    assert Transmit(s, i, limit, false) == Step(sent, [Send(i)]);
    assert cbs[1..] == LostRounds(k);
    LostResponsesExhaustAttempts(sent, i, limit, timeout, k);
    LostRoundsDeliverable(sent, i, limit, timeout, k);
    LostEventsCounts(i, timeout, k);
    CountAppend([Send(i)], LostEvents(i, timeout, k), IsSend);
    CountAppend([Send(i)], LostEvents(i, timeout, k), IsStartTimer);
    CountAppend([Send(i)], LostEvents(i, timeout, k), IsCancel);
  }

  /** The lost rounds are callbacks the event loop can deliver. */
  lemma {:induction false} LostRoundsDeliverable(s: Slot, i: nat, limit: int, timeout: nat, k: nat)
    requires s.active && !s.cancelled && s.sendReqActive && !s.timerArmed
    requires k >= 1 && s.nTries + k == limit + 1
    ensures Deliverable(s, i, limit, timeout, LostRounds(k))
    decreases k
  {
    var cbs := LostRounds(k);
    assert cbs[0] == SendDone(false, 0);
    assert cbs[1..][0] == TimerFired(false);
    assert cbs[1..][1..] == LostRounds(k - 1);
    var acked := SendCompletion(s, i, false, timeout, 0);
    assert acked.slot == s.(sendReqActive := false, timerArmed := true);
    var expired := TimerExpiry(acked.slot, i, limit, false);
    if k == 1 {
      assert LostRounds(0) == [];
    } else {
      assert expired.slot == s.(nTries := s.nTries + 1);
      LostRoundsDeliverable(s.(nTries := s.nTries + 1), i, limit, timeout, k - 1);
    }
  }
}
