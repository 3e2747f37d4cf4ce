/**
 The failure window of a queue (publishWindow in internal/queue/async_publisher.go):
 a ring buffer over the most recent publish outcomes.
 */
module PublishWindow {
  import opened Sequences

  function CountFailures(outcomes: seq<bool>): nat {
    if outcomes == [] then 0
    else CountFailures(outcomes[..|outcomes| - 1]) + if outcomes[|outcomes| - 1] then 0 else 1
  }

  /** The share of failures among the outcomes, as an exact rational; 0 when there are none. */
  function FailureRatio(outcomes: seq<bool>): real {
    if outcomes == [] then 0.0 else CountFailures(outcomes) as real / |outcomes| as real
  }

  lemma {:induction false} CountFailuresConcat(a: seq<bool>, b: seq<bool>)
    ensures CountFailures(a + b) == CountFailures(a) + CountFailures(b)
  {
    if b == [] {
      assert a + b == a;
    } else {
      var init := b[..|b| - 1];
      CountFailuresConcat(a, init);
      assert (a + b)[..|a + b| - 1] == a + init;
    }
  }

  lemma {:induction false} CountFailuresBound(outcomes: seq<bool>)
    ensures CountFailures(outcomes) <= |outcomes|
    ensures 0.0 <= FailureRatio(outcomes) <= 1.0
  {
    if outcomes != [] {
      CountFailuresBound(outcomes[..|outcomes| - 1]);
    }
  }

  lemma CountFailuresOne(outcome: bool)
    ensures CountFailures([outcome]) == if outcome then 0 else 1
  {
    assert [outcome][..0] == [];
  }

  /** Dropping the oldest of the outcomes drops its failure. */
  lemma CountFailuresTail(outcomes: seq<bool>)
    requires outcomes != []
    ensures CountFailures(outcomes[1..]) == CountFailures(outcomes) - if outcomes[0] then 0 else 1
  {
    CountFailuresConcat([outcomes[0]], outcomes[1..]);
    CountFailuresOne(outcomes[0]);
    assert [outcomes[0]] + outcomes[1..] == outcomes;
  }

  lemma ShiftedFailures(outcomes: seq<bool>, outcome: bool)
    requires outcomes != []
    ensures CountFailures(outcomes[1..] + [outcome]) ==
            CountFailures(outcomes) - (if outcomes[0] then 0 else 1) + if outcome then 0 else 1
  {
    CountFailuresTail(outcomes);
    ExtendedFailures(outcomes[1..], outcome);
  }

  lemma ExtendedFailures(outcomes: seq<bool>, outcome: bool)
    ensures CountFailures(outcomes + [outcome]) == CountFailures(outcomes) + if outcome then 0 else 1
  {
    CountFailuresConcat(outcomes, [outcome]);
    CountFailuresOne(outcome);
  }

  /** The outcomes in a ring whose next free or oldest slot is `next`, oldest first. */
  function Ring(results: seq<bool>, next: nat, count: nat): seq<bool>
    requires next <= count <= |results|
  {
    results[next..count] + results[..next]
  }

  function Turned(next: nat, size: nat): nat {
    if next + 1 == size then 0 else next + 1
  }

  lemma RemainderTurns(next: nat, size: nat)
    requires next < size
    ensures (next + 1) % size == Turned(next, size)
  {
  }

  lemma TurnedBound(next: nat, size: nat)
    requires next < size
    ensures Turned(next, size) < size && Turned(next, size) <= next + 1
    ensures next + 1 < size ==> Turned(next, size) == next + 1
  {
  }

  lemma RingLength(results: seq<bool>, next: nat, count: nat)
    requires next <= count <= |results|
    ensures |Ring(results, next, count)| == count
  {
  }

  lemma RingOldest(results: seq<bool>, next: nat)
    requires next < |results|
    ensures Ring(results, next, |results|)[0] == results[next]
  {
  }

  /** While the ring fills, the outcome goes behind the others. */
  lemma RingFills(results: seq<bool>, count: nat, success: bool)
    requires count < |results|
    ensures var full := results[count := success];
            && Turned(count, |results|) <= count + 1
            && Ring(full, Turned(count, |results|), count + 1) == Ring(results, count, count) + [success]
  {
    var full := results[count := success];
    assert full[..count] == results[..count];
    assert full[..count + 1] == results[..count] + [success];
  }

  /** A full ring gives up its oldest outcome for the new one. */
  lemma RingTurns(results: seq<bool>, next: nat, success: bool)
    requires next < |results|
    ensures var turned := results[next := success];
            Ring(turned, Turned(next, |results|), |results|) == Ring(results, next, |results|)[1..] + [success]
  {
    var turned := results[next := success];
    assert turned[next + 1..] == results[next + 1..];
    assert turned[..next] == results[..next];
    assert turned[..next + 1] == results[..next] + [success];
  }

  lemma FilledWindow(outcomes: seq<bool>, outcome: bool, size: nat)
    requires |outcomes| < size
    ensures Suffix(outcomes + [outcome], size) == outcomes + [outcome]
  {
  }

  lemma TurnedWindow(outcomes: seq<bool>, outcome: bool, size: nat)
    requires |outcomes| == size > 0
    ensures Suffix(outcomes + [outcome], size) == outcomes[1..] + [outcome]
  {
  }

  class Window {
    const results: array<bool>
    var next: nat
    var count: nat
    var failures: int

    /** The recorded outcomes that the ring still holds, oldest first. */
    ghost function Contents(): seq<bool>
      reads this, results
      requires Shaped()
    {
      Ring(results[..], next, count)
    }

    ghost predicate Shaped()
      reads this
    {
      && results.Length > 0
      && next < results.Length
      && next <= count <= results.Length
      && (count < results.Length ==> next == count)
    }

    ghost predicate Valid()
      reads this, results
    {
      Shaped() && failures == CountFailures(Contents())
    }

    constructor (size: int)
      ensures Valid() && fresh(results)
      ensures results.Length == if size <= 0 then 1 else size
      ensures Contents() == []
    {
      results := new bool[if size <= 0 then 1 else size];
      next, count, failures := 0, 0, 0;
    }

    /** The ring always holds exactly the last `Length` outcomes, and counts their failures. */
    method Record(success: bool)
      requires Valid()
      modifies this, results
      ensures Valid()
      ensures Contents() == Suffix(old(Contents()) + [success], results.Length)
      ensures |Contents()| == count
    {
      hide CountFailures, Suffix, Ring, Turned;
      ghost var before, slots := Contents(), results[..];
      RingLength(slots, next, count);
      RemainderTurns(next, results.Length);
      if count == results.Length {
        RingTurns(slots, next, success);
        RingOldest(slots, next);
        ShiftedFailures(before, success);
        TurnedWindow(before, success, results.Length);
        if !results[next] {
          failures := failures - 1;
        }
      } else {
        RingFills(slots, count, success);
        ExtendedFailures(before, success);
        FilledWindow(before, success, results.Length);
        count := count + 1;
      }
      results[next] := success;
      if !success {
        failures := failures + 1;
      }
      assert results[..] == slots[next := success];
      TurnedBound(next, results.Length);
      next := (next + 1) % results.Length;
      RingLength(results[..], next, count);
    }

    method Ratio() returns (r: real)
      requires Valid()
      ensures r == FailureRatio(Contents())
    {
      if count == 0 {
        return 0.0;
      }
      return failures as real / count as real;
    }
  }

  /** Recording a whole history leaves the last `size` outcomes, whatever came before. */
  function Recorded(size: nat, history: seq<bool>): seq<bool> {
    if history == [] then []
    else Suffix(Recorded(size, history[..|history| - 1]) + [history[|history| - 1]], size)
  }

  lemma {:induction false} WindowIsSuffix(size: nat, history: seq<bool>)
    requires size > 0
    ensures Recorded(size, history) == Suffix(history, size)
  {
    if history != [] {
      var init, last := history[..|history| - 1], history[|history| - 1];
      WindowIsSuffix(size, init);
      SuffixPush(init, last, size);
      assert init + [last] == history;
    }
  }
}
