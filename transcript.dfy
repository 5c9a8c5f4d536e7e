/**
 * The displayed conversation thread and the sample of it that the topic
 * poller sends to the classification service.
 */
module Transcript {

  /** One entry of the thread: whether the local user wrote it, and its text. */
  datatype Message = Message(fromSelf: bool, text: string)

  /** How many of the most recent peer messages one poll sends (`slice(-5)`). */
  const SampleSize: nat := 5

  function Min(a: int, b: int): int { if a <= b then a else b }

  function Max(a: int, b: int): int { if a <= b then b else a }

  /** `filter(el => !el.fromSelf)`: the peer-authored messages, in order. */
  function Inbound(msgs: seq<Message>): (r: seq<Message>)
    ensures |r| <= |msgs|
    ensures forall m :: m in r ==> m in msgs && !m.fromSelf
  {
    if msgs == [] then []
    else (if msgs[0].fromSelf then [] else [msgs[0]]) + Inbound(msgs[1..])
  }

  /** `map(el => el.message)`. */
  function Texts(msgs: seq<Message>): (r: seq<string>)
    ensures |r| == |msgs|
    ensures forall i :: 0 <= i < |msgs| ==> r[i] == msgs[i].text
  {
    seq(|msgs|, i requires 0 <= i < |msgs| => msgs[i].text)
  }

  /**
   * JavaScript's `Array.prototype.slice(start)` with no end: a negative start
   * counts from the end and is clamped at 0, a positive one is clamped at the
   * length.
   */
  function SliceFrom<T>(s: seq<T>, start: int): (r: seq<T>)
    ensures start < 0 ==> |r| == Min(-start, |s|)
    ensures 0 <= start ==> |r| == Max(|s| - start, 0)
    ensures r == s[|s| - |r|..]
  {
    var k := if start < 0 then Max(|s| + start, 0) else Min(start, |s|);
    s[k..]
  }

  /** The request body of one poll: the texts of the last five peer messages. */
  function Sample(msgs: seq<Message>): (r: seq<string>)
    ensures |r| <= SampleSize
  {
    Texts(SliceFrom(Inbound(msgs), -(SampleSize as int)))
  }

  /** Reference definition: the texts of all peer-authored messages, in order. */
  function PeerTexts(msgs: seq<Message>): (r: seq<string>)
    ensures |r| <= |msgs|
  {
    if msgs == [] then []
    else if msgs[|msgs| - 1].fromSelf then PeerTexts(msgs[..|msgs| - 1])
    else PeerTexts(msgs[..|msgs| - 1]) + [msgs[|msgs| - 1].text]
  }

  lemma {:induction false} InboundAppend(a: seq<Message>, b: seq<Message>)
    ensures Inbound(a + b) == Inbound(a) + Inbound(b)
  {
    if a == [] {
      assert a + b == b;
    } else {
      assert (a + b)[1..] == a[1..] + b;
      InboundAppend(a[1..], b);
    }
  }

  lemma TextsAppend(a: seq<Message>, b: seq<Message>)
    ensures Texts(a + b) == Texts(a) + Texts(b)
  {
  }

  lemma TextsSuffix(s: seq<Message>, k: nat)
    requires k <= |s|
    ensures Texts(s[k..]) == Texts(s)[k..]
  {
  }

  /** Filtering then mapping, as the component does, gives the peer texts. */
  lemma {:induction false} TextsOfInbound(msgs: seq<Message>)
    ensures Texts(Inbound(msgs)) == PeerTexts(msgs)
  {
    if msgs != [] {
      var init, last := msgs[..|msgs| - 1], msgs[|msgs| - 1];
      assert msgs == init + [last];
      TextsOfInbound(init);
      InboundAppend(init, [last]);
      assert Inbound([last]) == (if last.fromSelf then [] else [last]) by {
        assert [last][1..] == [];
      }
      TextsAppend(Inbound(init), Inbound([last]));
    }
  }

  /**
   * The sample is the final stretch of the peer texts, in transcript order,
   * holding exactly min(5, number of peer messages) entries.
   */
  lemma SampleWindow(msgs: seq<Message>)
    ensures |Sample(msgs)| == Min(SampleSize, |PeerTexts(msgs)|)
    ensures Sample(msgs) == PeerTexts(msgs)[|PeerTexts(msgs)| - |Sample(msgs)|..]
  {
    var inb := Inbound(msgs);
    var window := SliceFrom(inb, -(SampleSize as int));
    TextsOfInbound(msgs);
    TextsSuffix(inb, |inb| - |window|);
  }

  /** A message the local user sends never changes what the poller samples. */
  lemma SampleIgnoresOwnMessage(msgs: seq<Message>, text: string)
    ensures Sample(msgs + [Message(true, text)]) == Sample(msgs)
  {
    InboundAppend(msgs, [Message(true, text)]);
    assert Inbound([Message(true, text)]) == [] by {
      assert [Message(true, text)][1..] == [];
    }
    assert Inbound(msgs) + [] == Inbound(msgs);
  }

  /**
   * A peer message that arrives becomes the newest entry of the sample; the
   * oldest entry drops out once five are held.
   */
  lemma SampleAfterArrival(msgs: seq<Message>, text: string)
    ensures var before := Sample(msgs);
            Sample(msgs + [Message(false, text)])
              == (if |before| == SampleSize then before[1..] else before) + [text]
  {
    var m := Message(false, text);
    SampleWindow(msgs);
    SampleWindow(msgs + [m]);
    assert (msgs + [m])[..|msgs + [m]| - 1] == msgs;
    assert PeerTexts(msgs + [m]) == PeerTexts(msgs) + [text];
  }

  /** The sample is empty exactly when no message of the transcript is the peer's. */
  lemma SampleEmptyIff(msgs: seq<Message>)
    ensures Sample(msgs) == [] <==> forall i :: 0 <= i < |msgs| ==> msgs[i].fromSelf
  {
    SampleWindow(msgs);
    if Sample(msgs) == [] {
      forall i | 0 <= i < |msgs| ensures msgs[i].fromSelf {
        if !msgs[i].fromSelf {
          PeerMember(msgs, i);
        }
      }
    } else {
      PeerNonEmpty(msgs);
    }
  }

  lemma {:induction false} PeerMember(msgs: seq<Message>, i: nat)
    requires i < |msgs| && !msgs[i].fromSelf
    ensures PeerTexts(msgs) != []
  {
    if i < |msgs| - 1 {
      var init := msgs[..|msgs| - 1];
      assert init[i] == msgs[i];
      PeerMember(init, i);
    }
  }

  lemma {:induction false} PeerNonEmpty(msgs: seq<Message>)
    requires PeerTexts(msgs) != []
    ensures exists i :: 0 <= i < |msgs| && !msgs[i].fromSelf
  {
    var init := msgs[..|msgs| - 1];
    if msgs[|msgs| - 1].fromSelf {
      PeerNonEmpty(init);
      var i :| 0 <= i < |init| && !init[i].fromSelf;
      assert msgs[i] == init[i];
    } else {
      assert !msgs[|msgs| - 1].fromSelf;
    }
  }

  /** When every message is the peer's, the filter keeps them all. */
  lemma {:induction false} InboundOfPeerMessages(msgs: seq<Message>)
    requires forall i :: 0 <= i < |msgs| ==> !msgs[i].fromSelf
    ensures Inbound(msgs) == msgs
  {
    if msgs != [] {
      InboundOfPeerMessages(msgs[1..]);
    }
  }
}
