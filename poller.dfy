/**
 * The topic poller of `initApiCalls` as a state machine over values: the
 * `startApiCalls` flag, the timer reference `apiCallTimerRef.current`, and
 * the timers the browser still holds. The class in module Chat performs
 * these steps on its fields; the lemmas here say what the steps mean.
 */
module Poller {
  import opened Wrappers
  import opened Transcript
  import opened Topics

  /**
   * `running` is `startApiCalls`; `timer` is `apiCallTimerRef.current`;
   * `pending` are the handles of timers that are armed and have neither fired
   * nor been cleared; `next` is the handle the next `setTimeout` returns.
   * Browser timer handles are positive, so a held handle is always truthy.
   */
  datatype PollState = PollState(running: bool, timer: Option<nat>, pending: set<nat>, next: nat)

  /** Handles are positive and `next` is fresh. */
  predicate Valid(s: PollState) {
    && 1 <= s.next
    && (forall h :: h in s.pending ==> 1 <= h < s.next)
    && (s.timer.Some? ==> 1 <= s.timer.value < s.next)
  }

  /** The state at mount: idle, no timer. */
  function Initial(): (s: PollState)
    ensures Valid(s) && !s.running && s.timer.None? && s.pending == {}
  {
    PollState(false, None, {}, 1)
  }

  /** At most one timer is armed, and it is the one referenced. */
  predicate SingleTimer(s: PollState) {
    s.pending == if s.timer.Some? then {s.timer.value} else {}
  }

  /**
   * `apiCallTimerRef.current = setTimeout(…, 5000)`: one fresh timer, due
   * 5000 ms later, is armed and referenced; `startApiCalls` is not touched.
   */
  function Arm(s: PollState): (r: PollState)
    ensures r.timer.Some? && r.pending == s.pending + {r.timer.value}
    ensures Valid(s) ==> Valid(r) && r.timer.value !in s.pending
    ensures r.running == s.running
  {
    s.(timer := Some(s.next), pending := s.pending + {s.next}, next := s.next + 1)
  }

  /**
   * Clear the referenced timer if there is one, drop the reference, and set
   * `startApiCalls` to false.
   */
  function Halt(s: PollState): (r: PollState)
    ensures !r.running && r.timer.None? && r.next == s.next
    ensures r.pending <= s.pending
    ensures s.timer.None? ==> r.pending == s.pending
    ensures s.timer.Some? ==> s.timer.value !in r.pending
  {
    var pending := if s.timer.Some? then s.pending - {s.timer.value} else s.pending;
    s.(timer := None, pending := pending, running := false)
  }

  /** The toggle button: arm a timer while idle, halt while running. */
  function ToggleStep(s: PollState): (r: PollState)
    ensures r.running == false
    ensures r.pending - s.pending <= {s.next}
    ensures r.timer.Some? <==> !s.running
  {
    if !s.running then Arm(s) else Halt(s)
  }

  /** The state after a timer fired, what was posted (if anything) and the toasts shown. */
  datatype TickOutcome = TickOutcome(state: PollState, sent: Option<seq<string>>, notified: seq<string>)

  /**
   * The timer `fired` runs its callback over the transcript `msgs`, with
   * `response` the answer `fetchTopics` would receive. It sets
   * `startApiCalls`, branches on the length of the whole transcript, and in
   * the non-empty case posts the sample, toasts every topic and re-arms.
   */
  function TickStep(s: PollState, fired: nat, msgs: seq<Message>, response: FetchOutcome): (o: TickOutcome)
    requires fired in s.pending
    ensures o.sent.Some? <==> |msgs| > 0
    ensures o.state.running <==> |msgs| > 0
    ensures o.state.timer.Some? <==> |msgs| > 0
    ensures o.notified != [] ==> |msgs| > 0 && Succeeded(response)
    ensures Valid(s) ==> fired !in o.state.pending
  {
    var started := s.(pending := s.pending - {fired}, running := true);
    if |msgs| > 0 then TickOutcome(Arm(started), Some(Sample(msgs)), FetchTopics(response))
    else TickOutcome(Halt(started), None, [])
  }

  /** Toggling preserves the handle invariant. */
  lemma ToggleValid(s: PollState)
    requires Valid(s)
    ensures Valid(ToggleStep(s))
  {
  }

  /** A tick preserves the handle invariant. */
  lemma TickValid(s: PollState, fired: nat, msgs: seq<Message>, response: FetchOutcome)
    requires Valid(s) && fired in s.pending
    ensures Valid(TickStep(s, fired, msgs, response).state)
  {
  }

  /**
   * Toggling while running clears the referenced timer, drops the reference
   * and goes idle; no timer is armed.
   */
  lemma ToggleWhileRunningStops(s: PollState)
    requires s.running
    ensures var r := ToggleStep(s);
            && !r.running && r.timer.None?
            && r.pending == s.pending - (if s.timer.Some? then {s.timer.value} else {})
            && r.next == s.next
  {
  }

  /**
   * Toggling while idle arms exactly one new timer and references it;
   * `startApiCalls` stays false until that timer fires.
   */
  lemma ToggleWhileIdleArms(s: PollState)
    requires Valid(s) && !s.running
    ensures var r := ToggleStep(s);
            && !r.running && r.timer.Some?
            && r.timer.value !in s.pending
            && r.pending == s.pending + {r.timer.value}
            && |r.pending| == |s.pending| + 1
  {
  }

  /** Halting twice is halting once: cancelling a cancelled timer does nothing. */
  lemma HaltIdempotent(s: PollState)
    ensures Halt(Halt(s)) == Halt(s)
    ensures !Halt(s).running && Halt(s).timer.None?
  {
  }

  /**
   * The control is a single toggle, so pressing it twice while running stops
   * and then starts again: a new timer is armed.
   */
  lemma ToggleTwiceWhileRunning(s: PollState)
    requires Valid(s) && s.running
    ensures var r := ToggleStep(ToggleStep(s));
            && r == Arm(Halt(s)) && !r.running
            && r.timer == Some(s.next) && s.next in r.pending
  {
  }

  /** A tick on an empty transcript halts: no request, no toast, no re-arm. */
  lemma TickOnEmptyTranscript(s: PollState, fired: nat, response: FetchOutcome)
    requires fired in s.pending
    ensures var o := TickStep(s, fired, [], response);
            && o.sent.None? && o.notified == []
            && !o.state.running && o.state.timer.None?
            && o.state.pending == s.pending - {fired} - (if s.timer.Some? then {s.timer.value} else {})
            && o.state.next == s.next
  {
  }

  /**
   * A tick on a non-empty transcript posts the sample, shows one toast per
   * distinct topic in the order the service first named them, and re-arms
   * with a fresh timer while `startApiCalls` is true.
   */
  lemma TickOnNonEmptyTranscript(s: PollState, fired: nat, msgs: seq<Message>, response: FetchOutcome)
    requires Valid(s) && fired in s.pending && |msgs| > 0
    ensures var o := TickStep(s, fired, msgs, response);
            && o.sent == Some(Sample(msgs))
            && NoDuplicates(o.notified)
            && (Succeeded(response) ==> o.notified == Dedup(response.predictions.value))
            && o.state.running
            && o.state.timer == Some(s.next) && s.next !in s.pending
            && o.state.pending == s.pending - {fired} + {s.next}
  {
  }

  /**
   * The branch depends on the transcript, not on the sample: a transcript of
   * the local user's messages only still posts an empty sample and re-arms.
   */
  lemma TickOnOwnMessagesOnly(s: PollState, fired: nat, msgs: seq<Message>, response: FetchOutcome)
    requires fired in s.pending && |msgs| > 0
    requires forall i :: 0 <= i < |msgs| ==> msgs[i].fromSelf
    ensures var o := TickStep(s, fired, msgs, response);
            o.sent == Some([]) && o.state.running && o.state.timer.Some?
  {
    SampleEmptyIff(msgs);
  }

  /** A failed classification request shows no toast, yet the poller re-arms. */
  lemma FailedFetchNotifiesNothing(s: PollState, fired: nat, msgs: seq<Message>, response: FetchOutcome)
    requires fired in s.pending && !Succeeded(response)
    ensures var o := TickStep(s, fired, msgs, response);
            && o.notified == []
            && (|msgs| > 0 ==> o.state.timer.Some? && o.state.running)
  {
  }

  /** A tick keeps the single-timer invariant. */
  lemma TickKeepsSingleTimer(s: PollState, fired: nat, msgs: seq<Message>, response: FetchOutcome)
    requires Valid(s) && SingleTimer(s) && fired in s.pending
    ensures SingleTimer(TickStep(s, fired, msgs, response).state)
  {
  }

  /**
   * Toggling keeps the single-timer invariant exactly when it is not pressed
   * while a timer is armed and has not fired yet: `startApiCalls` only turns
   * true inside the callback, so that press arms a second timer and the
   * reference forgets the first.
   */
  lemma ToggleKeepsSingleTimerIff(s: PollState)
    requires Valid(s) && SingleTimer(s)
    ensures SingleTimer(ToggleStep(s)) <==> (s.running || s.timer.None?)
  {
  }

  /** Two presses from the mounted state leave two armed timers and one reference. */
  lemma DoubleToggleArmsTwoTimers()
    ensures var r := ToggleStep(ToggleStep(Initial()));
            && !r.running && r.pending == {1, 2} && r.timer == Some(2)
  {
  }

  /**
   * Five peer messages are sampled whole; a successful response naming
   * distinct labels shows exactly those toasts in that order, and the poller
   * re-arms.
   */
  lemma FivePeerMessagesScenario(s: PollState, fired: nat, msgs: seq<Message>, labels: seq<string>)
    requires Valid(s) && fired in s.pending
    requires |msgs| == SampleSize && forall i :: 0 <= i < |msgs| ==> !msgs[i].fromSelf
    requires NoDuplicates(labels)
    ensures var o := TickStep(s, fired, msgs, Answered(200, Some(labels)));
            && o.sent == Some(Texts(msgs))
            && o.notified == labels
            && o.state.running && o.state.timer == Some(s.next)
  {
    InboundOfPeerMessages(msgs);
    DedupOfDistinct(labels);
  }
}
