/** The bounded send queue between whoever enqueues for a connection and its write loop. */
module Outbox {
  import opened Wrappers

  const CONTROL_BUFFER := 4

  /** `offered` is every message ever enqueued; `inHand` is the one the write loop has received and not yet written. */
  datatype Box = Box(
    offered: seq<string>, written: seq<string>, inHand: Option<string>, buffer: seq<string>, closeRequested: bool)

  const FRESH := Box([], [], None, [], false)

  /** A full buffer drops the message and asks for the socket to be closed. */
  function Offer(b: Box, message: string): Box {
    var noted := b.(offered := b.offered + [message]);
    if |b.buffer| < CONTROL_BUFFER then noted.(buffer := b.buffer + [message])
    else noted.(closeRequested := true)
  }

  function Receive(b: Box): Box {
    if b.inHand.None? && b.buffer != [] then b.(inHand := Some(b.buffer[0]), buffer := b.buffer[1..]) else b
  }

  function Write(b: Box): Box {
    if b.inHand.Some? then b.(written := b.written + [b.inHand.value], inHand := None) else b
  }

  function RequestClose(b: Box): Box {
    b.(closeRequested := true)
  }

  function Hand(b: Box): seq<string> {
    if b.inHand.Some? then [b.inHand.value] else []
  }

  /** Nothing lost, nothing reordered, unless the socket's close has been requested. */
  predicate Lossless(b: Box) {
    && |b.buffer| <= CONTROL_BUFFER
    && (!b.closeRequested ==> b.written + Hand(b) + b.buffer == b.offered)
  }

  datatype Action = Offering(message: string) | Receiving | Writing | Closing

  function Act(b: Box, action: Action): Box {
    match action
    case Offering(message) => Offer(b, message)
    case Receiving => Receive(b)
    case Writing => Write(b)
    case Closing => RequestClose(b)
  }

  function ActAll(b: Box, actions: seq<Action>): Box
    decreases |actions|
  {
    if actions == [] then b else ActAll(Act(b, actions[0]), actions[1..])
  }

  lemma ActKeepsLossless(b: Box, action: Action)
    requires Lossless(b)
    ensures Lossless(Act(b, action))
  {
    if action.Receiving? && b.inHand.None? && b.buffer != [] {
      assert b.buffer == [b.buffer[0]] + b.buffer[1..];
    }
  }

  /** However enqueues and the write loop interleave, the queue is lossless until the socket's close is requested. */
  lemma {:induction false} LosslessOrClosed(b: Box, actions: seq<Action>)
    requires Lossless(b)
    ensures Lossless(ActAll(b, actions))
    decreases |actions|
  {
    if actions != [] {
      ActKeepsLossless(b, actions[0]);
      LosslessOrClosed(Act(b, actions[0]), actions[1..]);
    }
  }

  /** A message is dropped only when four others are waiting, and the drop itself requests the close. */
  lemma DropRequestsClose(b: Box, message: string)
    requires Lossless(b) && !b.closeRequested
    ensures Offer(b, message).closeRequested <==> |b.buffer| == CONTROL_BUFFER
    ensures !Offer(b, message).closeRequested <==>
      Offer(b, message).written + Hand(Offer(b, message)) + Offer(b, message).buffer == b.offered + [message]
  {
    var after := Offer(b, message);
    if |b.buffer| < CONTROL_BUFFER {
      assert after.buffer == b.buffer + [message];
    } else {
      assert |after.written + Hand(after) + after.buffer| == |b.offered|;
    }
  }

  /** The write loop left to itself for `n` messages. */
  function Rounds(n: nat): seq<Action> {
    if n == 0 then [] else [Receiving, Writing] + Rounds(n - 1)
  }

  /** The loop delivers: while no close has been requested, as many rounds as messages wait write all that was enqueued, in order. */
  lemma {:induction false} RoundsDeliver(b: Box)
    requires Lossless(b) && !b.closeRequested && b.inHand.None?
    ensures var after := ActAll(b, Rounds(|b.buffer|));
      after.written == b.offered == after.offered && after.buffer == [] && after.inHand.None? && !after.closeRequested
    decreases |b.buffer|
  {
    if b.buffer == [] {
      assert b.written + [] + [] == b.written;
    } else {
      var rounds := Rounds(|b.buffer|);
      var received := Act(b, Receiving);
      var written := Act(received, Writing);
      assert rounds[1..] == [Writing] + Rounds(|b.buffer| - 1);
      assert rounds[1..][1..] == Rounds(|b.buffer| - 1);
      ActKeepsLossless(b, Receiving);
      ActKeepsLossless(received, Writing);
      RoundsDeliver(written);
    }
  }

  /** A message in hand is written, and the loop takes the oldest one next; four is the most that wait. */
  lemma TakesOldest(b: Box, message: string)
    requires Lossless(b)
    ensures b.inHand.Some? ==> Write(b) == b.(written := b.written + [b.inHand.value], inHand := None)
    ensures b.inHand.None? && b.buffer != [] ==>
      Receive(b).inHand == Some(b.buffer[0]) && [b.buffer[0]] + Receive(b).buffer == b.buffer
    ensures |b.buffer| <= 4 && (|b.buffer| < 4 ==> Offer(b, message).buffer == b.buffer + [message])
    ensures RequestClose(b) == b.(closeRequested := true)
  {
  }
}
