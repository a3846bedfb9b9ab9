/** The ordered result sender of a URL stream (`send_ordered_results` with
    its `detection_queues` entry): a map from key to payload and the next key
    to send. Each turn of the sender sends the payload under the next key
    when it is there and moves on by one, and otherwise sends nothing. */
module Sequencer {
  import opened Wrappers

  /** What a run of sender turns delivers with no insertion in between. */
  function Drain<P>(results: map<nat, P>, next: nat): seq<P>
    decreases |results|
  {
    if next in results then
      var rest := results - {next};
      assert |rest| < |results| by {
        assert results.Keys == rest.Keys + {next};
      }
      [results[next]] + Drain(rest, next + 1)
    else []
  }

  /** A drain sends the payloads under `next`, `next + 1`, ... in that order
      and stops exactly at the first missing key. */
  lemma {:induction false} DrainMeaning<P>(results: map<nat, P>, next: nat)
    ensures forall j :: next <= j < next + |Drain(results, next)| ==>
              j in results && Drain(results, next)[j - next] == results[j]
    ensures next + |Drain(results, next)| !in results
    decreases |results|
  {
    if next in results {
      var rest := results - {next};
      assert results.Keys == rest.Keys + {next};
      DrainMeaning(rest, next + 1);
      var out := Drain(results, next);
      var tail := Drain(rest, next + 1);
      assert out == [results[next]] + tail;
      forall j | next <= j < next + |out| ensures j in results && out[j - next] == results[j] {
        if j > next {
          assert out[j - next] == tail[j - (next + 1)];
          assert j in rest;
        }
      }
    } else {
      assert Drain(results, next) == [];
    }
  }

  /** `results` without the keys `lo <= k < hi`. */
  function Without<P>(results: map<nat, P>, lo: nat, hi: nat): map<nat, P> {
    map k | k in results && !(lo <= k < hi) :: results[k]
  }

  /** Popping key `hi` extends the removed range by one. */
  lemma WithoutNext<P>(results: map<nat, P>, lo: nat, hi: nat)
    requires lo <= hi
    ensures Without(results, lo, hi + 1) == Without(results, lo, hi) - {hi}
  {
  }

  class ResultQueue<P> {
    /** `results`: payloads by key. */
    var results: map<nat, P>
    /** `next_frame`: the key to send next, starting at 1. */
    var nextFrame: nat
    /** The keys sent so far, in sending order. */
    ghost var delivered: seq<nat>

    /** The keys sent so far are exactly 1, 2, ..., `nextFrame - 1`. */
    ghost predicate Valid()
      reads this
    {
      nextFrame == |delivered| + 1 && forall k :: 0 <= k < |delivered| ==> delivered[k] == k + 1
    }

    constructor()
      ensures Valid() && results == map[] && nextFrame == 1 && delivered == []
    {
      results := map[];
      nextFrame := 1;
      delivered := [];
    }

    /** A producer stores a payload under its key. */
    method Insert(key: nat, payload: P)
      requires Valid()
      modifies this
      ensures Valid()
      ensures results == old(results)[key := payload]
      ensures nextFrame == old(nextFrame) && delivered == old(delivered)
    {
      results := results[key := payload];
    }

    /** One turn of the sender: pop and send the next key's payload when it
        is present, and then expect the following key; otherwise nothing
        changes. */
    method Step() returns (sent: Option<P>)
      requires Valid()
      modifies this
      ensures Valid()
      ensures old(nextFrame) in old(results) ==>
                sent == Some(old(results)[old(nextFrame)])
                && results == old(results) - {old(nextFrame)}
                && nextFrame == old(nextFrame) + 1
                && delivered == old(delivered) + [old(nextFrame)]
      ensures old(nextFrame) !in old(results) ==>
                sent == None && results == old(results) && nextFrame == old(nextFrame)
                && delivered == old(delivered)
    {
      if nextFrame in results {
        sent := Some(results[nextFrame]);
        results := results - {nextFrame};
        delivered := delivered + [nextFrame];
        nextFrame := nextFrame + 1;
      } else {
        sent := None;
      }
    }

    /** Sender turns until the next key is missing. */
    method Flush() returns (sent: seq<P>)
      requires Valid()
      modifies this
      ensures Valid()
      ensures sent == Drain(old(results), old(nextFrame))
      ensures nextFrame == old(nextFrame) + |sent| && nextFrame !in results
      ensures results == Without(old(results), old(nextFrame), nextFrame)
    {
      sent := [];
      while nextFrame in results
        invariant Valid()
        invariant nextFrame == old(nextFrame) + |sent|
        invariant sent + Drain(results, nextFrame) == Drain(old(results), old(nextFrame))
        invariant results == Without(old(results), old(nextFrame), nextFrame)
        decreases |results|
      {
        ghost var before := results;
        assert Drain(results, nextFrame) == [results[nextFrame]] + Drain(results - {nextFrame}, nextFrame + 1);
        WithoutNext(old(results), old(nextFrame), nextFrame);
        var s := Step();
        assert |results| < |before| by {
          assert before.Keys == results.Keys + {nextFrame - 1};
        }
        sent := sent + [s.value];
      }
    }
  }

  // ---------------------------------------------------------------------
  // How results reach subscribers
  // ---------------------------------------------------------------------

  /** Strictly increasing. */
  predicate Increasing(xs: seq<nat>) {
    forall a, b :: 0 <= a < b < |xs| ==> xs[a] < xs[b]
  }

  /** As written: each detection task broadcasts its verdict itself the
      moment its classifier call returns, so subscribers see frame numbers in
      the order the calls complete. `completions` lists dispatch slots in
      completion order. */
  function CompletionOrderDelivery(dispatched: seq<nat>, completions: seq<nat>): seq<nat>
    requires forall k :: 0 <= k < |completions| ==> completions[k] < |dispatched|
  {
    seq(|completions|, k requires 0 <= k < |completions| => dispatched[completions[k]])
  }

  /** As written, with frame numbers dispatched in increasing order,
      subscribers get them in increasing order exactly when the classifier
      calls return in dispatch order. */
  lemma CompletionOrderSortedIff(dispatched: seq<nat>, completions: seq<nat>)
    requires Increasing(dispatched)
    requires forall k :: 0 <= k < |completions| ==> completions[k] < |dispatched|
    ensures Increasing(CompletionOrderDelivery(dispatched, completions)) <==> Increasing(completions)
  {
    var frames := CompletionOrderDelivery(dispatched, completions);
    forall a, b | 0 <= a < b < |completions|
      ensures frames[a] < frames[b] <==> completions[a] < completions[b]
    {
      IncreasingOrder(dispatched, completions[a], completions[b]);
    }
  }

  /** In a strictly increasing sequence, order of values is order of
      positions. */
  lemma IncreasingOrder(xs: seq<nat>, i: nat, j: nat)
    requires Increasing(xs)
    requires i < |xs| && j < |xs|
    ensures xs[i] < xs[j] <==> i < j
  {
    if j < i {
      assert xs[j] < xs[i];
    }
  }

  /** Frames 1 and 151 are dispatched (five seconds apart at 30 frames per
      second); when the second classifier call returns first, subscribers
      get frame 151 before frame 1. */
  lemma CompletionOrderIsNotFrameOrder()
    ensures CompletionOrderDelivery([1, 151], [1, 0]) == [151, 1]
  {
  }

  /** As the queue is keyed: results under frame numbers, the sender
      starting at 1 and stepping by one. With only sampled frames inserted,
      frame 151 is never sent because frame 2 never arrives. */
  lemma FrameKeyedQueueStalls(a: string, b: string)
    ensures Drain(map[1 := a, 151 := b], 1) == [a]
  {
    var m := map[1 := a, 151 := b];
    assert m - {1} == map[151 := b];
    assert Drain(map[151 := b], 2) == [];
  }

  /** Keys in `results` are completed slots (shifted by one) whose payload is
      that slot's entry, none of them already sent. */
  ghost predicate SlotKeyed<P>(results: map<nat, P>, entries: seq<P>, sentCount: nat) {
    forall k :: k in results ==> sentCount < k <= |entries| && results[k] == entries[k - 1]
  }

  /** The payloads a flush sends from a slot-keyed queue are the next
      entries, in slot order. */
  lemma DrainedSlots<P>(pending: map<nat, P>, entries: seq<P>, sentCount: nat)
    requires sentCount <= |entries| && SlotKeyed(pending, entries, sentCount)
    ensures sentCount + |Drain(pending, sentCount + 1)| <= |entries|
    ensures entries[..sentCount + |Drain(pending, sentCount + 1)|]
            == entries[..sentCount] + Drain(pending, sentCount + 1)
  {
    var sent := Drain(pending, sentCount + 1);
    DrainMeaning(pending, sentCount + 1);
    if |sent| > 0 {
      assert sentCount + |sent| in pending;
    }
    forall k | 0 <= k < |sent| ensures sent[k] == entries[sentCount + k] {
      assert sentCount + 1 + k in pending;
    }
  }

  /** The completed slots `done` are exactly the sent ones and those
      waiting in the queue. */
  ghost predicate Covers<P>(done: seq<nat>, entries: seq<P>, sentCount: nat, results: map<nat, P>) {
    forall s :: 0 <= s < |entries| ==> (s in done <==> s < sentCount || s + 1 in results)
  }

  /** Storing the entry of a newly completed slot keeps the queue
      slot-keyed, and so does flushing it. */
  lemma SlotKeyedAfterFlush<P>(results: map<nat, P>, entries: seq<P>, sentCount: nat, slot: nat)
    requires sentCount <= slot < |entries| && SlotKeyed(results, entries, sentCount)
    ensures var pending := results[slot + 1 := entries[slot]];
            SlotKeyed(pending, entries, sentCount)
            && SlotKeyed(Without(pending, sentCount + 1, sentCount + 1 + |Drain(pending, sentCount + 1)|),
                         entries, sentCount + |Drain(pending, sentCount + 1)|)
  {
    var pending := results[slot + 1 := entries[slot]];
    DrainMeaning(pending, sentCount + 1);
  }

  /** After storing a newly completed slot and flushing, every completed
      slot is sent or waiting. */
  lemma CoversAfterFlush<P>(done: seq<nat>, entries: seq<P>, sentCount: nat,
                            results: map<nat, P>, slot: nat)
    requires sentCount <= slot < |entries|
    requires SlotKeyed(results, entries, sentCount) && Covers(done, entries, sentCount, results)
    ensures var pending := results[slot + 1 := entries[slot]];
            Covers(done + [slot], entries, sentCount + |Drain(pending, sentCount + 1)|,
                   Without(pending, sentCount + 1, sentCount + 1 + |Drain(pending, sentCount + 1)|))
  {
    var pending := results[slot + 1 := entries[slot]];
    var sent := Drain(pending, sentCount + 1);
    var rest := Without(pending, sentCount + 1, sentCount + 1 + |sent|);
    DrainMeaning(pending, sentCount + 1);
    forall s | 0 <= s < |entries|
      ensures s in done + [slot] <==> s < sentCount + |sent| || s + 1 in rest
    {
      if sentCount <= s < sentCount + |sent| {
        assert s + 1 in pending;
      }
    }
  }

  /** Once every slot has completed and the queue is flushed, every slot
      has been sent. */
  lemma AllSent<P>(done: seq<nat>, entries: seq<P>, sentCount: nat, results: map<nat, P>)
    requires sentCount <= |entries| && Covers(done, entries, sentCount, results)
    requires sentCount + 1 !in results
    requires forall s :: 0 <= s < |entries| ==> s in done
    ensures sentCount == |entries|
  {
    assert sentCount < |entries| ==> sentCount in done;
  }

  /** Corrected detection task completion: the entry of `slot` is stored
      under key `slot + 1` and the sender flushes what is now in order. */
  method CompleteSlot<P>(q: ResultQueue<P>, entries: seq<P>, slot: nat, ghost done: seq<nat>)
    returns (sent: seq<P>)
    requires q.Valid() && q.nextFrame - 1 <= slot < |entries|
    requires SlotKeyed(q.results, entries, q.nextFrame - 1)
    requires Covers(done, entries, q.nextFrame - 1, q.results)
    modifies q
    ensures q.Valid() && q.nextFrame == old(q.nextFrame) + |sent| <= |entries| + 1
    ensures entries[..q.nextFrame - 1] == entries[..old(q.nextFrame) - 1] + sent
    ensures SlotKeyed(q.results, entries, q.nextFrame - 1)
    ensures Covers(done + [slot], entries, q.nextFrame - 1, q.results)
    ensures q.nextFrame !in q.results
  {
    SlotKeyedAfterFlush(q.results, entries, q.nextFrame - 1, slot);
    CoversAfterFlush(done, entries, q.nextFrame - 1, q.results, slot);
    q.Insert(slot + 1, entries[slot]);
    DrainedSlots(q.results, entries, q.nextFrame - 1);
    sent := q.Flush();
  }

  /** The entry a finished detection task stores for dispatch slot `s`: the
      frame number when the classifier gave a verdict, and a skip marker
      (`None`) when it gave none or the task raised. */
  function Outcomes(dispatched: seq<nat>, failed: set<nat>): (r: seq<Option<nat>>)
    ensures |r| == |dispatched|
  {
    seq(|dispatched|, s requires 0 <= s < |dispatched| => if s in failed then None else Some(dispatched[s]))
  }

  /** What subscribers receive from a run of entries: the frame of each
      entry that carries a verdict, in order; skip markers send nothing. */
  function Present(xs: seq<Option<nat>>): seq<nat>
    decreases |xs|
  {
    if xs == [] then []
    else Present(xs[..|xs| - 1]) + (if xs[|xs| - 1].Some? then [xs[|xs| - 1].value] else [])
  }

  /** Sending two runs of entries one after the other sends what each sends. */
  lemma {:induction false} PresentConcat(a: seq<Option<nat>>, b: seq<Option<nat>>)
    ensures Present(a + b) == Present(a) + Present(b)
    decreases |b|
  {
    if b == [] {
      assert a + b == a;
    } else {
      var init := b[..|b| - 1];
      assert (a + b)[..|a + b| - 1] == a + init;
      PresentConcat(a, init);
    }
  }

  /** The frames sent for the first `n` slots are exactly the frames of
      those slots whose detection gave a verdict. */
  lemma {:induction false} PresentOutcomes(dispatched: seq<nat>, failed: set<nat>, n: nat)
    requires n <= |dispatched|
    ensures forall s :: 0 <= s < n && s !in failed ==> dispatched[s] in Present(Outcomes(dispatched, failed)[..n])
    ensures forall x :: x in Present(Outcomes(dispatched, failed)[..n]) ==>
              exists s :: 0 <= s < n && s !in failed && dispatched[s] == x
    decreases n
  {
    if n > 0 {
      var o := Outcomes(dispatched, failed);
      assert o[..n][..n - 1] == o[..n - 1];
      PresentOutcomes(dispatched, failed, n - 1);
    }
  }

  /** Corrected: each detection task, when it finishes, stores an entry in
      the queue under its dispatch slot (1, 2, 3, ... in dispatch order)
      instead of broadcasting: its verdict, or a skip marker when it gave
      none. The sender moves through the slots in order and sends the
      verdicts. Whatever the completion order, the sender has moved past a
      prefix of the slots, all of them finished, and stops at the first one
      that has not; subscribers get the verdicts of that prefix in dispatch
      order; once every task has finished, the prefix is every slot.
      `completions` lists the finished slots in finishing order, and
      `failed` the slots whose detection gave no verdict. */
  method OrderedDelivery(dispatched: seq<nat>, failed: set<nat>, completions: seq<nat>)
    returns (settled: nat, delivered: seq<nat>)
    requires forall k :: 0 <= k < |completions| ==> completions[k] < |dispatched|
    requires forall a, b :: 0 <= a < b < |completions| ==> completions[a] != completions[b]
    ensures settled <= |dispatched| && delivered == Present(Outcomes(dispatched, failed)[..settled])
    ensures forall s :: 0 <= s < settled ==> s in completions
    ensures settled < |dispatched| ==> settled !in completions
    ensures (forall s :: 0 <= s < |dispatched| ==> s in completions) ==> settled == |dispatched|
  {
    var entries := Outcomes(dispatched, failed);
    var q := new ResultQueue<Option<nat>>();
    delivered := [];
    for i := 0 to |completions|
      invariant fresh(q) && q.Valid()
      invariant 1 <= q.nextFrame <= |entries| + 1
      invariant delivered == Present(entries[..q.nextFrame - 1])
      invariant SlotKeyed(q.results, entries, q.nextFrame - 1)
      invariant Covers(completions[..i], entries, q.nextFrame - 1, q.results)
      invariant q.nextFrame !in q.results
    {
      var slot := completions[i];
      assert slot !in completions[..i];
      ghost var before := q.nextFrame - 1;
      var sent := CompleteSlot(q, entries, slot, completions[..i]);
      PresentConcat(entries[..before], sent);
      delivered := delivered + Present(sent);
      assert completions[..i + 1] == completions[..i] + [slot];
    }
    settled := q.nextFrame - 1;
    assert completions[..|completions|] == completions;
    if forall s :: 0 <= s < |dispatched| ==> s in completions {
      AllSent(completions, entries, settled, q.results);
    }
  }

  /** Corrected: frame numbers reach subscribers in strictly
      increasing order, because dispatched frame numbers strictly increase. */
  lemma {:induction false} OrderedDeliveryIsSorted(dispatched: seq<nat>, failed: set<nat>, n: nat)
    requires Increasing(dispatched)
    requires n <= |dispatched|
    ensures Increasing(Present(Outcomes(dispatched, failed)[..n]))
    decreases n
  {
    if n > 0 {
      var o := Outcomes(dispatched, failed);
      assert o[..n][..n - 1] == o[..n - 1];
      OrderedDeliveryIsSorted(dispatched, failed, n - 1);
      PresentOutcomes(dispatched, failed, n - 1);
      var prior := Present(o[..n - 1]);
      forall a | 0 <= a < |prior| ensures prior[a] < dispatched[n - 1] {
        assert prior[a] in prior;
        var s :| 0 <= s < n - 1 && s !in failed && dispatched[s] == prior[a];
      }
      var frames := Present(o[..n]);
      assert frames == prior + (if o[n - 1].Some? then [dispatched[n - 1]] else []);
      forall a, b | 0 <= a < b < |frames| ensures frames[a] < frames[b] {
        if b < |prior| {
          assert frames[a] == prior[a] && frames[b] == prior[b];
        } else {
          assert frames[a] == prior[a] && frames[b] == dispatched[n - 1];
        }
      }
    }
  }
}
