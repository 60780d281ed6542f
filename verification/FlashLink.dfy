// The CAN link between the host and a board in its bootloader: frames in either direction may get
// lost, but arrive in order and unaltered.
module FlashLink {
  import opened Bootloader
  import opened Wrappers

  class Link {
    const board: Board
    // Whether the frame with a given number gets lost, if the host sends it or if it is a reply.
    const lost: nat -> bool
    const lostReply: nat -> bool
    var sent: nat
    var inbox: seq<Reply>

    constructor (board: Board, lost: nat -> bool, lostReply: nat -> bool)
      ensures this.board == board && this.lost == lost && this.lostReply == lostReply && sent == 0 && inbox == []
    {
      this.board, this.lost, this.lostReply, sent, inbox := board, lost, lostReply, 0, [];
    }

    ghost function Footprint(): set<object> {
      {this, board, board.flash, board.eeprom, board.buffer}
    }

    ghost function State(): BoardState
      reads Footprint()
    {
      board.Snapshot()
    }

    // No frame with a number from a to b - 1 gets lost.
    ghost predicate Lossless(a: nat, b: nat) {
      forall t :: a <= t < b ==> !lost(t) && !lostReply(t)
    }

    // No frame has been lost from number `since` on.
    ghost predicate Clean(since: nat)
      reads this
    {
      Lossless(since, sent)
    }

    // No frame of the host has been lost from number `since` on; replies may have been.
    ghost predicate Reaches(since: nat)
      reads this
    {
      forall t :: since <= t < sent ==> !lost(t)
    }

    method Send(m: Message)
      requires board.Valid() && InBounds(State(), m)
      modifies Footprint()
      ensures sent > old(sent)
      ensures State() == old(State()) || State() == React(old(State()), m).0
      ensures inbox == old(inbox) ||
              (React(old(State()), m).1.Some? && inbox == old(inbox) + [React(old(State()), m).1.value])
      ensures inbox != old(inbox) ==> State() == React(old(State()), m).0
      ensures Reaches(old(sent)) ==> State() == React(old(State()), m).0
      ensures Clean(old(sent)) ==>
                && Reaches(old(sent))
                && inbox == old(inbox) + match React(old(State()), m).1 case Some(r) => [r] case None => []
    {
      var arrives := !lost(sent);
      sent := sent + 1;
      if arrives {
        var reply := board.Handle(m);
        if reply.Some? {
          if !lostReply(sent) {
            inbox := inbox + [reply.value];
          }
          sent := sent + 1;
        }
      }
    }

    // The next reply, or None when none arrives in time.
    method Receive() returns (reply: Option<Reply>)
      modifies this
      ensures sent == old(sent)
      ensures old(inbox) == [] ==> reply.None? && inbox == []
      ensures old(inbox) != [] ==> reply == Some(old(inbox)[0]) && inbox == old(inbox)[1..]
    {
      if inbox == [] {
        return None;
      }
      reply := Some(inbox[0]);
      inbox := inbox[1..];
    }
  }
}
