# SCP transport state machine, modelled in Dafny

This project models the per-request transport core of the rig C SCP client,
`src/rs__transport.c`. The client sends Simple Control Protocol commands over
UDP to a multi-core machine. Each connection owns a fixed array of
*outstanding* slots. One request occupies a slot while it waits for its
response. Four handlers drive a slot:

- `rs__attempt_transmission` / `rs__timer_cb`: a call on an inactive slot
  does nothing. Each call on an active slot counts one attempt. It sends the
  packet while the count is within the connection's limit `conn->n_tries`.
  Otherwise it cancels the slot with error -1. A send that `uv_udp_send`
  refuses at once also cancels the slot.
- `rs__udp_send_cb`: it always clears the in-flight flag. It then takes the
  first of four outcomes that applies: re-attempt teardown of a connection
  being freed; release a slot that was cancelled while its send was in
  flight, then drain the request queue; cancel the slot on a send error; or
  arm the response timer with `conn->timeout`.
- `rs__udp_recv_cb`: it drops a datagram shorter than an SCP packet with no
  arguments and no data. Otherwise it hands the datagram, truncated to the
  bytes read, to the first active slot whose sequence number matches.
- `rs__udp_recv_alloc_cb`: the receive buffer reports the suggested size, or
  0 when allocation failed.

Files:

- `outstanding.dfy`, module `Outstanding`: the slot record and the log of
  external effects (`Send`, `Cancel`, `ProcessQueue`, `ProcessResponse`,
  `Free`, `StartTimer`). Each handler's effect on one slot is a pure
  function, and its contract characterises that effect. The module also has
  the first-match scan and the receive-buffer length rule.
- `transport.dfy`, module `Transport`: class `Conn`. It holds the slot
  array (`array<Slot>`), the constants `nTries` and `timeout`, the `free`
  flag and the event log. Its handler methods update the array in place, as
  the C code does. Each is proved to have exactly the effect of its function
  in `Outstanding`. The receive scan is a loop proved against its
  specification.
- `retry.dfy`, module `Retry`: one slot over a sequence of callbacks.
  - Over any sequence of callbacks, the slot is sent at most
    `max(0, limit - n)` times, where `n` is its starting attempt count.
  - Over callbacks the event loop can deliver, the slot waits on at most one
    thing at a time: its send, or its timer.
  - Over callbacks the event loop can deliver, every timer answers an
    earlier send.
  - When every response is lost and `n < limit`, a newly admitted slot is
    sent exactly `limit - n` times, with one timer after each send, and is
    then cancelled exactly once.

Modelling choices:

- The callees whose bodies are not part of this model are recorded only as
  events, with their arguments: `rs__cancel_outstanding`,
  `rs__process_request_queue`, `rs__process_response` and `rs_free`. The slot
  array after a handler is what that handler itself writes. What these
  callees then do to the slots is not modelled.
- `RS__SIZEOF_SCP_PACKET(0, 0)` is the parameter `minSize`.
  `rs__unpack_scp_packet_seq_num` is the function-typed parameter `seqNumOf`.
- The outcome of `uv_udp_send`, the `status` of the send completion and the
  success of `malloc` are parameters. This lets both branches be verified.
- `timerArmed` is the state of libuv's one-shot timer. `uv_timer_start` in
  the send completion sets it. It is cleared when `rs__timer_cb` runs.
- `Send(i)` is logged for every call of `uv_udp_send`. This includes a call
  that is refused at once.
- The send limit counts every transmission, including the first one, not
  only the retries. `rs__attempt_transmission` compares the incremented
  `os->n_tries` with `conn->n_tries` before every send, the first one
  included (src/rs__transport.c:28). The demonstration program describes
  its `N_TRIES` setting as the number of transmission attempts before the
  library gives up (hello.c:46-47). So a request is sent at most
  `conn->n_tries` times and arms at most that many timers.

## Model

| member | source | states |
|---|---|---|
| `Outstanding.Transmit` | src/rs__transport.c:20-45 | An inactive slot is left unchanged and nothing is logged. On an active slot, the attempt counter goes up by exactly one. A send is issued iff the new count is within the limit. The slot is cancelled with -1 iff the limit is exceeded or the send is refused. An accepted send leaves `sendReqActive` set; a refused one leaves it clear. No other field changes. |
| `Outstanding.TimerExpiry` | src/rs__transport.c:48-56 | A timer expiry is a transmission attempt on the slot with the same effects and events. The timer is no longer armed afterwards. |
| `Outstanding.SendCompletion` | src/rs__transport.c:59-95 | `sendReqActive` is always cleared, and exactly one event follows. A connection being freed gets `Free` and nothing else changes. Otherwise an active cancelled slot becomes inactive and uncancelled, and the queue is drained once (no timer, whatever the status). Otherwise a nonzero status cancels with -1. Otherwise one timer of `timeout` is armed. Each outcome holds iff its condition holds. |
| `Outstanding.FirstActiveMatch` | src/rs__transport.c:130-138 | Gives the lowest index of an active slot with the given sequence number; it gives none iff no such slot exists. |
| `Outstanding.Demux` | src/rs__transport.c:126-139 | A datagram shorter than the minimum packet is ignored. Otherwise at most one `ProcessResponse` is made: for the lowest active matching slot, with length `nread`. Nothing happens iff the datagram is short or no active slot matches. Inactive matching slots are skipped. |
| `Outstanding.UniqueMatchIsFound` | src/rs__transport.c:130-137 | If sequence numbers are unique among active slots, a response reaches exactly the slot that carries its number. |
| `Outstanding.NonPositiveReadIgnored` | src/rs__transport.c:122-126 | A read of 0 bytes or a read error (`nread <= 0`) reaches no slot. This covers a read into a buffer whose allocation failed, whose reported length is 0. |
| `Outstanding.AllocRecvBuffer` | src/rs__transport.c:98-109 | The buffer reports a length of at most the suggested size. The length is the full size iff allocation succeeded (or nothing was asked for), and 0 without a buffer. |
| `Transport.Conn.AttemptTransmission` | src/rs__transport.c:20-45 | Updates slot `i` of the array in place to `Transmit`'s slot and appends `Transmit`'s events. Other slots are unchanged, and uniqueness of active sequence numbers is kept. |
| `Transport.Conn.TimerCb` | src/rs__transport.c:48-56 | Updates slot `i` in place and appends events as `TimerExpiry` says, keeping uniqueness of active sequence numbers. |
| `Transport.Conn.UdpSendCb` | src/rs__transport.c:59-95 | Updates slot `i` in place and appends events as `SendCompletion` says for the connection's own `free` flag and `timeout`. `free` itself is unchanged. |
| `Transport.Conn.FindOutstanding` | src/rs__transport.c:129-138 | The indexed scan with early exit returns the first active slot with the sequence number, or none iff there is none. It agrees with `FirstActiveMatch`. |
| `Transport.Conn.UdpRecvCb` | src/rs__transport.c:112-139 | Leaves every slot unchanged and appends exactly `Demux`'s events for the datagram. |
| `Retry.Run` | src/rs__transport.c:20-95 | Over any sequence of callbacks for one slot: the sequence number never changes (retransmissions reuse it), the attempt counter never decreases, no handler reactivates an inactive slot, and every event names this slot, error -1 and the connection's timeout. |
| `Retry.CallbackSends` | src/rs__transport.c:28-35 | One callback sends at most once, and only when it counted an attempt that is within the limit. |
| `Retry.SendsWithinCountedAttempts` | src/rs__transport.c:28-44 | Over any callbacks, the number of sends is at most the number of attempts counted up to the limit. |
| `Retry.SendsBounded` | src/rs__transport.c:28-44 | Over any callbacks, a slot is sent at most `max(0, limit - n)` times, where `n` is its starting attempt count. |
| `Retry.TimersFollowSends` | src/rs__transport.c:28-94 | Over callbacks that the event loop can deliver, a slot never has both a send in flight and a timer armed. Every timer it arms answers an earlier send: timers armed, plus one if a send is still in flight at the end, are at most the sends made, plus one if a send was in flight at the start. |
| `Retry.TimerBudget` | src/rs__transport.c:53-94 | Over deliverable callbacks, a slot arms at most `max(0, limit - n)` timers, plus one for a send already in flight, each of the connection's timeout. This bounds the total wait for one request. |
| `Retry.LostResponsesExhaustAttempts` | src/rs__transport.c:28-94 | A slot with a send in flight whose responses are all lost alternates timer and retransmission until the counter passes the limit. It then ends with a `Cancel(i, -1)` event, with no send in flight. |
| `Retry.LostEventsCounts` | src/rs__transport.c:41-44 | The lost-response event sequence holds `k-1` sends, `k` timers and one cancel, and the cancel comes last. |
| `Retry.LostRoundsDeliverable` | src/rs__transport.c:88-94 | The lost-response callbacks are ones the event loop can deliver: each completion follows a send, and each expiry follows an armed timer. |
| `Retry.LostRequestLifecycle` | src/rs__transport.c:20-94 | A newly admitted slot with counter `n < limit` whose responses are all lost is sent exactly `limit - n` times. It arms exactly `limit - n` timers and is cancelled with -1 exactly once, as the last event. |

## Left out

- `rs__cancel_outstanding`, `rs__process_request_queue`, `rs__process_response` and `rs_free` are not part of this model. Their calls are logged as events, and their effect on slots, timers and callbacks is not modelled. So slot fields such as `active`, `cancelled` and `timerArmed` change only through the handlers above.
- `rs__unpack_scp_packet_seq_num` and `RS__SIZEOF_SCP_PACKET` are not part of this model. They are parameters, and the minimum packet size is assumed positive where a lemma needs it.
- Sockets, the libuv event loop, the clock and `uv_timer_start`'s timer are not modelled. They appear as callback parameters and logged events. Stopping a timer (if the cancel path does so) is not modelled.
- `malloc` and `free` of receive buffers are not modelled. Only the length rule of the allocation callback is kept.
- The packet codec, the request queue and admission, the bulk read/write chunking, and connection open/close are not part of this model.
- The demonstration program `hello.c` is not part of this model.
- `Transport.Conn.AttemptTransmission`: the attempt counter is an unbounded integer. Overflow of the fixed-width attempt counter is not modelled, because the headers that declare it are not part of this model.
- `Outstanding.NonPositiveReadIgnored`: the length test of the receive callback is modelled as a signed comparison. The type of `RS__SIZEOF_SCP_PACKET` is not part of this model. If it were unsigned, C would convert a negative `nread` to a large unsigned value, and an error read would pass the test.
- `Transport.Conn.UdpRecvCb`: the scan loop of the receive callback is factored into the read-only method `FindOutstanding`. An early `return` takes the place of `break`.
