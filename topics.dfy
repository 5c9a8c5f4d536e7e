/**
 * `fetchTopics`: the answer of the classification service turned into the
 * list of distinct topic labels, or the empty list when anything fails.
 */
module Topics {
  import opened Wrappers

  /** No label appears twice. */
  predicate NoDuplicates(s: seq<string>) {
    forall i, j :: 0 <= i < j < |s| ==> s[i] != s[j]
  }

  /**
   * `[...new Set(labels)]`: a JavaScript Set remembers insertion order and
   * ignores a value it already holds, so each label is kept where it first
   * appears.
   */
  function Dedup(labels: seq<string>): (r: seq<string>)
    ensures NoDuplicates(r)
    ensures forall t :: t in r <==> t in labels
    ensures |r| <= |labels|
  {
    if labels == [] then []
    else
      var init, last := labels[..|labels| - 1], labels[|labels| - 1];
      assert labels == init + [last];
      var kept := Dedup(init);
      if last in kept then kept else kept + [last]
  }

  /** The position of the first occurrence of `x` in `s`. */
  function FirstIndex(s: seq<string>, x: string): (k: nat)
    requires x in s
    ensures k < |s| && s[k] == x && x !in s[..k]
  {
    if s[0] == x then 0
    else
      var k := FirstIndex(s[1..], x);
      assert s[..k + 1] == [s[0]] + s[1..][..k];
      k + 1
  }

  /** Any index holding `x` with no earlier `x` is the first index. */
  lemma FirstIndexUnique(s: seq<string>, x: string, k: nat)
    requires k < |s| && s[k] == x && x !in s[..k]
    ensures FirstIndex(s, x) == k
  {
  }

  /**
   * The labels of `Dedup(labels)` come in the order of their first
   * occurrence among `labels`.
   */
  lemma {:induction false} DedupFirstOccurrenceOrder(labels: seq<string>)
    ensures forall i, j :: 0 <= i < j < |Dedup(labels)| ==>
              FirstIndex(labels, Dedup(labels)[i]) < FirstIndex(labels, Dedup(labels)[j])
  {
    if labels != [] {
      var init, last := labels[..|labels| - 1], labels[|labels| - 1];
      assert labels == init + [last];
      var kept := Dedup(init);
      DedupFirstOccurrenceOrder(init);
      forall y | y in init ensures FirstIndex(labels, y) == FirstIndex(init, y) {
        var k := FirstIndex(init, y);
        assert labels[..k] == init[..k];
        FirstIndexUnique(labels, y, k);
      }
      if last !in kept {
        assert last !in init;
        assert labels[..|labels| - 1] == init;
        FirstIndexUnique(labels, last, |labels| - 1);
        var r := kept + [last];
        forall i, j | 0 <= i < j < |r|
          ensures FirstIndex(labels, r[i]) < FirstIndex(labels, r[j])
        {
          assert r[i] == kept[i];
          if j < |kept| {
            assert r[j] == kept[j];
          }
        }
      }
    }
  }

  /** A list without repeats is its own de-duplication. */
  lemma {:induction false} DedupOfDistinct(labels: seq<string>)
    requires NoDuplicates(labels)
    ensures Dedup(labels) == labels
  {
    if labels != [] {
      var init, last := labels[..|labels| - 1], labels[|labels| - 1];
      DedupOfDistinct(init);
      assert last !in init by {
        forall i | 0 <= i < |init| ensures init[i] != last {
          assert labels[i] == init[i];
        }
      }
    }
  }

  /** What `fetch` gave back to the poller. */
  datatype FetchOutcome =
      /** `fetch` itself rejected: the service could not be reached. */
    | Unreachable
      /**
       * An HTTP answer. `predictions` holds the `prediction` field of every
       * element of `data.data` in order, or None when the body is not JSON
       * of that shape (so that reading it throws).
       */
    | Answered(status: int, predictions: Option<seq<string>>)

  /** The Fetch API's `response.ok`: a status in the range 200-299. */
  predicate StatusOk(status: int) {
    200 <= status <= 299
  }

  /** The request succeeded and its body could be read. */
  predicate Succeeded(o: FetchOutcome) {
    o.Answered? && StatusOk(o.status) && o.predictions.Some?
  }

  /**
   * The topic list `fetchTopics` resolves to: every thrown error, including
   * the one raised for a status that is not ok, is caught and becomes [].
   */
  function FetchTopics(o: FetchOutcome): (r: seq<string>)
    ensures NoDuplicates(r)
    ensures !Succeeded(o) ==> r == []
    ensures Succeeded(o) ==> forall t :: t in r <==> t in o.predictions.value
  {
    match o
    case Unreachable => []
    case Answered(status, predictions) =>
      if !StatusOk(status) then []
      else if predictions.None? then []
      else Dedup(predictions.value)
  }

  /** Three predictions with one repeat give the two distinct labels, in order. */
  lemma DedupExample()
    ensures Dedup(["sports", "sports", "music"]) == ["sports", "music"]
  {
  }
}
