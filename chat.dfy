/**
 * The ChatContainer component's controller state and the handlers that
 * change it: history load, local send, remote arrival, the poller toggle and
 * the firing of a poller timer. Network answers come in as parameters.
 */
module Chat {
  import opened Wrappers
  import opened Transcript
  import opened Topics
  import Poller

  class ChatContainer {
    /** The `messages` state: the displayed transcript. */
    var messages: seq<Message>
    /** The `startApiCalls` state. */
    var running: bool
    /** `apiCallTimerRef.current`. */
    var timer: Option<nat>
    /** Timers armed with `setTimeout` that have neither fired nor been cleared. */
    var pending: set<nat>
    /** The handle the next `setTimeout` returns. */
    var nextHandle: nat

    /** The poller part of the state, as a value. */
    function Poll(): Poller.PollState
      reads this
    {
      Poller.PollState(running, timer, pending, nextHandle)
    }

    predicate Valid()
      reads this
    {
      Poller.Valid(Poll())
    }

    /** Mounting: an empty transcript and an idle poller. */
    constructor ()
      ensures Valid()
      ensures messages == [] && Poll() == Poller.Initial()
    {
      messages := [];
      running := false;
      timer := None;
      pending := {};
      nextHandle := 1;
    }

    /** `setMessages(response.data)`: the fetched history replaces the transcript. */
    method LoadHistory(fetched: seq<Message>)
      modifies this`messages
      ensures messages == fetched
      ensures Poll() == old(Poll())
    {
      messages := fetched;
    }

    /**
     * `handleSendMsg`: the message is emitted on the socket and posted to the
     * server, and only then appended. `delivered` is false when the emit
     * throws (no socket) or the POST rejects (a network error or a status
     * outside 200-299); the handler then stops before the append.
     */
    method SendLocal(text: string, delivered: bool)
      modifies this`messages
      ensures messages == if delivered then old(messages) + [Message(true, text)] else old(messages)
      ensures Poll() == old(Poll())
    {
      if delivered {
        var msgs := messages;
        msgs := msgs + [Message(true, text)];
        messages := msgs;
      }
    }

    /** The `msg-recieve` listener and the effect that appends `arrivalMessage`. */
    method ReceiveRemote(text: string)
      modifies this`messages
      ensures messages == old(messages) + [Message(false, text)]
      ensures Poll() == old(Poll())
    {
      messages := messages + [Message(false, text)];
    }

    /** `setTimeout`: arm a timer and reference it. */
    method Arm()
      requires Valid()
      modifies this`timer, this`pending, this`nextHandle
      ensures Valid()
      ensures Poll() == Poller.Arm(old(Poll()))
    {
      timer := Some(nextHandle);
      pending := pending + {nextHandle};
      nextHandle := nextHandle + 1;
    }

    /** Clear the referenced timer, if any, and go idle. */
    method Halt()
      requires Valid()
      modifies this`timer, this`pending, this`running
      ensures Valid()
      ensures Poll() == Poller.Halt(old(Poll()))
    {
      if timer.Some? {
        pending := pending - {timer.value};
        timer := None;
      }
      running := false;
    }

    /** `initApiCalls` as the toggle button calls it. */
    method Toggle()
      requires Valid()
      modifies this`running, this`timer, this`pending, this`nextHandle
      ensures Valid()
      ensures messages == old(messages)
      ensures Poll() == Poller.ToggleStep(old(Poll()))
    {
      if !running {
        Arm();
      } else {
        Halt();
      }
    }

    /**
     * The callback of the pending timer `fired`, with `response` the answer
     * to the classification request. Returns the request body it posted, if
     * any, and the toasts it showed, in order.
     */
    method Tick(fired: nat, response: FetchOutcome) returns (sent: Option<seq<string>>, notified: seq<string>)
      requires Valid() && fired in pending
      modifies this`running, this`timer, this`pending, this`nextHandle
      ensures Valid()
      ensures messages == old(messages)
      ensures Poller.TickOutcome(Poll(), sent, notified)
                == Poller.TickStep(old(Poll()), fired, messages, response)
    {
      pending := pending - {fired};
      running := true;
      if |messages| > 0 {
        var sample := Sample(messages);
        sent := Some(sample);
        var topics := FetchTopics(response);
        notified := [];
        var i := 0;
        while i < |topics|
          invariant 0 <= i <= |topics|
          invariant notified == topics[..i]
        {
          notified := notified + [topics[i]];
          i := i + 1;
        }
        Arm();
      } else {
        sent := None;
        notified := [];
        Halt();
      }
    }
  }
}
