# Chat transcript and topic poller, modelled in Dafny

This project models the controller logic of the `ChatContainer` component of a
browser chat client written in React. The component holds the displayed
transcript of the conversation with the selected peer. It also runs a topic
poller, which the user starts and stops with one button. When the poller's
timer fires, it sends the last five peer messages to a classification service
and shows one toast per distinct topic label in the answer.

Modules:

- `Wrappers` (`wrappers.dfy`): `Option`.
- `Transcript` (`transcript.dfy`): `Message(fromSelf, text)`. It also holds the
  sample expression `filter(!fromSelf).slice(-5).map(message)`, written as
  `Inbound`, `SliceFrom` (JavaScript `slice` with a negative start) and
  `Texts`. `PeerTexts` is an independent reference definition of the peer
  texts, and the lemmas prove the sample is the last min(5, n) of them.
- `Topics` (`topics.dfy`): `fetchTopics`. `Dedup` is `[...new Set(labels)]`,
  which keeps first-occurrence order. `FetchTopics` maps every failure to
  the empty list: a rejected `fetch`, a status outside 200-299, or a body
  that cannot be read.
- `Poller` (`poller.dfy`): the `initApiCalls` state machine over a value
  `PollState(running, timer, pending, next)`. `running` is `startApiCalls`.
  `timer` is `apiCallTimerRef.current`. `pending` holds the timers the
  browser still has armed. `next` is the next `setTimeout` handle. Browser
  handles are positive, so storing a handle makes the reference truthy. The
  module defines the step functions `Arm`, `Halt`, `ToggleStep` and
  `TickStep`, and lemmas about each.
- `Chat` (`chat.dfy`): class `ChatContainer`. Its fields are the state above.
  Its methods `LoadHistory`, `SendLocal`, `ReceiveRemote`, `Toggle`, `Tick`,
  `Arm` and `Halt` update those fields step by step. The `ensures` of
  `Toggle`, `Tick`, `Arm` and `Halt` tie the new poller state to the
  matching step function of `Poller`. The `ensures` of `LoadHistory`,
  `SendLocal` and `ReceiveRemote` give the new transcript in terms of the
  old one and keep the poller state unchanged.

Things the model shows about the code as written:

- `startApiCalls` turns true only inside the timer callback. Pressing the
  toggle a second time before the first timer fires therefore arms a second
  timer, and the reference keeps only the newer handle
  (`ToggleKeepsSingleTimerIff`, `DoubleToggleArmsTwoTimers`). Every other
  step keeps "the only armed timer is the referenced one".
- The button is a toggle. Two presses while running stop the poller and then
  start it again, so a pair of presses is not idempotent
  (`ToggleTwiceWhileRunning`). What is idempotent is the halt those presses
  share with the empty-transcript tick (`HaltIdempotent`).
- The tick branches on the length of the whole transcript, not on the
  sample. A transcript that holds only the local user's messages still posts
  an empty sample and re-arms (`TickOnOwnMessagesOnly`).
- A failed classification request shows no toast, but the poller still
  re-arms (`FailedFetchNotifiesNothing`).

## Model

| member | source | states |
|---|---|---|
| `Transcript.Inbound` | public/src/components/ChatContainer.jsx:116 | the filtered list is no longer than the transcript and holds only peer-authored messages of it |
| `Transcript.Texts` | public/src/components/ChatContainer.jsx:116 | the mapped list has one entry per message, the text of the message at the same position |
| `Transcript.SliceFrom` | public/src/components/ChatContainer.jsx:116 | `slice(start)` gives a suffix; a negative start gives min(-start, length) elements, a non-negative one max(length - start, 0) |
| `Transcript.Sample` | public/src/components/ChatContainer.jsx:116 | the sample never holds more than 5 texts |
| `Transcript.PeerTexts` | public/src/components/ChatContainer.jsx:116 | reference list of the texts of the peer messages, no longer than the transcript |
| `Transcript.InboundAppend` | public/src/components/ChatContainer.jsx:116 | filtering a concatenation is concatenating the filtered parts, so appends keep the peer messages in order |
| `Transcript.TextsOfInbound` | public/src/components/ChatContainer.jsx:116 | filtering and then mapping gives exactly the reference peer texts |
| `Transcript.SampleWindow` | public/src/components/ChatContainer.jsx:116 | the sample has exactly min(5, number of peer messages) entries, and it is the final stretch of the peer texts in transcript order |
| `Transcript.SampleIgnoresOwnMessage` | public/src/components/ChatContainer.jsx:66-68 | appending a message of the local user leaves the sample unchanged |
| `Transcript.SampleAfterArrival` | public/src/components/ChatContainer.jsx:73-80 | a newly arrived peer message becomes the last sample entry; the oldest drops out when five were held |
| `Transcript.SampleEmptyIff` | public/src/components/ChatContainer.jsx:116 | the sample is empty if and only if every message of the transcript is the local user's |
| `Transcript.InboundOfPeerMessages` | public/src/components/ChatContainer.jsx:116 | when every message is the peer's, the filter keeps the transcript whole |
| `Topics.Dedup` | public/src/components/ChatContainer.jsx:100 | the result has no repeated label, holds a label if and only if the predictions do, and is no longer than them |
| `Topics.FirstIndex` | public/src/components/ChatContainer.jsx:100 | the index of the first occurrence of a label: it holds the label and no earlier index does |
| `Topics.FirstIndexUnique` | public/src/components/ChatContainer.jsx:100 | any index that holds a label with no earlier occurrence is its first index |
| `Topics.DedupFirstOccurrenceOrder` | public/src/components/ChatContainer.jsx:100 | the labels of the de-duplicated list appear in the order of their first occurrence among the predictions |
| `Topics.DedupOfDistinct` | public/src/components/ChatContainer.jsx:100 | a prediction list without repeats is returned unchanged |
| `Topics.DedupExample` | public/src/components/ChatContainer.jsx:100 | the predictions sports, sports, music give sports, music |
| `Topics.StatusOk` | public/src/components/ChatContainer.jsx:95-97 | `response.ok`: the status lies in 200-299 |
| `Topics.Succeeded` | public/src/components/ChatContainer.jsx:95-100 | the request was answered with an ok status and a readable prediction list, the only case that reaches the de-duplication |
| `Topics.FetchTopics` | public/src/components/ChatContainer.jsx:87-108 | the topic list has no repeats; a rejected fetch, a status that is not ok or an unreadable body gives the empty list; on success it holds exactly the predicted labels |
| `Poller.Initial` | public/src/components/ChatContainer.jsx:21-23 | at mount the poller is idle with no timer armed or referenced |
| `Poller.Arm` | public/src/components/ChatContainer.jsx:112 | arming adds one timer with a handle not armed before, references it, keeps the handle invariant and leaves `startApiCalls` alone |
| `Poller.Halt` | public/src/components/ChatContainer.jsx:122-126 | the halt (also lines 130-134) goes idle with no reference, arms nothing, and removes the referenced timer from the armed ones |
| `Poller.ToggleStep` | public/src/components/ChatContainer.jsx:110-136 | a toggle leaves `startApiCalls` false, arms at most the one fresh timer, and leaves a timer referenced exactly when it was pressed while idle |
| `Poller.TickStep` | public/src/components/ChatContainer.jsx:112-128 | the fired timer is no longer armed; a request is posted, the poller stays running and a timer is referenced exactly when the transcript is non-empty; toasts are shown only for a non-empty transcript and a successful request |
| `Poller.ToggleValid` | public/src/components/ChatContainer.jsx:110-136 | a toggle keeps handles positive and the next handle fresh |
| `Poller.TickValid` | public/src/components/ChatContainer.jsx:112-128 | a tick keeps handles positive and the next handle fresh |
| `Poller.ToggleWhileRunningStops` | public/src/components/ChatContainer.jsx:129-135 | toggling while running clears the referenced timer, drops the reference, goes idle and arms nothing |
| `Poller.ToggleWhileIdleArms` | public/src/components/ChatContainer.jsx:111-112 | toggling while idle arms exactly one new timer, references it, and leaves `startApiCalls` false |
| `Poller.HaltIdempotent` | public/src/components/ChatContainer.jsx:122-126 | the halt leaves the poller idle with no reference, and halting twice is the same as halting once |
| `Poller.ToggleTwiceWhileRunning` | public/src/components/ChatContainer.jsx:110-136 | two presses while running stop and then re-arm, leaving a new timer referenced |
| `Poller.TickOnEmptyTranscript` | public/src/components/ChatContainer.jsx:113-127 | on an empty transcript a tick posts nothing, shows no toast, clears the reference and goes idle without re-arming |
| `Poller.TickOnNonEmptyTranscript` | public/src/components/ChatContainer.jsx:113-120 | on a non-empty transcript a tick posts the sample, shows each distinct topic once in first-occurrence order, stays running and re-arms with a fresh timer |
| `Poller.TickOnOwnMessagesOnly` | public/src/components/ChatContainer.jsx:115-120 | a transcript of only the local user's messages still posts an empty sample and re-arms |
| `Poller.FailedFetchNotifiesNothing` | public/src/components/ChatContainer.jsx:95-107 | a failed classification request yields zero toasts, and on a non-empty transcript the poller still re-arms |
| `Poller.TickKeepsSingleTimer` | public/src/components/ChatContainer.jsx:112-127 | if the only armed timer is the referenced one before a tick, the same holds after it |
| `Poller.ToggleKeepsSingleTimerIff` | public/src/components/ChatContainer.jsx:110-136 | a toggle keeps "only the referenced timer is armed" if and only if it is not pressed while idle with a timer armed |
| `Poller.DoubleToggleArmsTwoTimers` | public/src/components/ChatContainer.jsx:110-112 | two presses from mount leave two timers armed, only the second referenced, and the poller not running |
| `Poller.FivePeerMessagesScenario` | public/src/components/ChatContainer.jsx:113-120 | five peer messages are posted whole; a successful answer with distinct labels gives exactly those toasts in order, and the poller re-arms |
| `Chat.ChatContainer.constructor` | public/src/components/ChatContainer.jsx:19-23 | the transcript starts empty and the poller starts in its initial state |
| `Chat.ChatContainer.LoadHistory` | public/src/components/ChatContainer.jsx:37 | the transcript becomes exactly the fetched history, and nothing of the old one survives; the poller is untouched |
| `Chat.ChatContainer.SendLocal` | public/src/components/ChatContainer.jsx:51-69 | when the emit and the POST succeed, the transcript grows by exactly one: the old messages in order, then the local user's message; when either fails, the transcript is unchanged |
| `Chat.ChatContainer.ReceiveRemote` | public/src/components/ChatContainer.jsx:73-80 | the transcript grows by exactly one: the old messages in order, then the peer's message |
| `Chat.ChatContainer.Arm` | public/src/components/ChatContainer.jsx:112 | arming adds one fresh timer and references it |
| `Chat.ChatContainer.Halt` | public/src/components/ChatContainer.jsx:122-126 | clears the referenced timer if one is held, drops the reference and sets the poller idle |
| `Chat.ChatContainer.Toggle` | public/src/components/ChatContainer.jsx:110-136 | the new poller state is the toggle step of the old one; the transcript is unchanged |
| `Chat.ChatContainer.Tick` | public/src/components/ChatContainer.jsx:112-128 | the new poller state, the posted body and the toasts shown are those of the tick step over the current transcript; the transcript is unchanged |

## Left out

- Rendering, styled-components CSS, `uuidv4` render keys, scroll-into-view and the `username === 'fa'` button gating: presentation only.
- The socket `emit`, the socket listener registration, the axios and `fetch` calls and JSON parsing: network I/O in libraries outside the model. The fetched history, whether a send was emitted and persisted, and the classification answer are method parameters. `FetchOutcome` stands for the answer: a rejected `fetch`, or a status with a prediction list or an unreadable body.
- `FetchTopics`: assumes every element of `data.data` carries a string `prediction`. An element without one (JavaScript `undefined`) is not modelled.
- The session read from `localStorage`, and the `getCurrentChat` effect, which does nothing: ambient I/O with no logic.
- Real timing of `setTimeout` and `clearTimeout`: timers are abstract handles. `Tick` is the firing of one armed timer, so it requires that the timer is still armed, since a cleared timer never fires.
- React's stale closures and batched state updates. Each handler acts on the current transcript. The re-arm after a non-empty tick is unconditional, as the callback's captured `startApiCalls` is false. A toggle pressed while the classification request is in flight is not modelled.
- `LoadHistory`: a failed history request is not modelled, because the code has no error path for it. Peer changes do not cancel the timer, and nothing merges history with live messages; the code does neither.
