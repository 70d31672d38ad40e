/** `StreamOutput`: the recent segments one output (HLS, recorder) keeps, in a
    deque bounded by `deque_maxlen`, and the idle timer that watches it. */
module Outputs {
  import opened Wrappers
  import opened Timers
  import opened Segments

  /** `deque.append(x)` on a deque bounded by `maxlen`: when full, the oldest
      element is dropped from the left. */
  function Appended<T>(items: seq<T>, x: T, maxlen: Option<nat>): (r: seq<T>)
    requires maxlen.Some? ==> |items| <= maxlen.value
    ensures maxlen.None? ==> r == items + [x]
    ensures maxlen.Some? ==> |r| <= maxlen.value
    ensures maxlen.Some? && |items| < maxlen.value ==> r == items + [x]
    ensures maxlen.Some? && 0 < maxlen.value == |items| ==> r == items[1..] + [x]
    ensures maxlen == Some(0) ==> r == []
  {
    var all := items + [x];
    if maxlen.None? || |all| <= maxlen.value then all else all[|all| - maxlen.value..]
  }

  /** The last `n` elements of `s` (all of them when there are fewer). */
  function LastN<T>(s: seq<T>, n: nat): seq<T> {
    if |s| <= n then s else s[|s| - n..]
  }

  /** `deque(items, maxlen)` filled by appending `xs` one by one. */
  function AppendAll<T>(items: seq<T>, xs: seq<T>, maxlen: Option<nat>): (r: seq<T>)
    requires maxlen.Some? ==> |items| <= maxlen.value
    ensures maxlen.Some? ==> |r| <= maxlen.value
  {
    if |xs| == 0 then items else Appended(AppendAll(items, xs[..|xs| - 1], maxlen), xs[|xs| - 1], maxlen)
  }

  /** Keeping the newest `m` and then appending one is keeping the newest `m` of all. */
  lemma LastNSnoc<T>(s: seq<T>, x: T, m: nat)
    ensures LastN(s + [x], m) == Appended(LastN(s, m), x, Some(m))
  {
    var all := s + [x];
    if |s| > m && m > 0 {
      var kept := s[|s| - m..];
      assert kept[1..] + [x] == all[|all| - m..];
    } else if |s| == m && m > 0 {
      assert s[1..] + [x] == all[|all| - m..];
    }
  }

  /** However many appends, a bounded deque holds exactly the newest `maxlen` of
      everything appended, in order; an unbounded one holds everything. */
  lemma {:induction false} AppendAllKeepsNewest<T>(items: seq<T>, xs: seq<T>, maxlen: Option<nat>)
    requires maxlen.Some? ==> |items| <= maxlen.value
    ensures maxlen.None? ==> AppendAll(items, xs, maxlen) == items + xs
    ensures maxlen.Some? ==> AppendAll(items, xs, maxlen) == LastN(items + xs, maxlen.value)
  {
    if |xs| > 0 {
      var xs' := xs[..|xs| - 1];
      AppendAllKeepsNewest(items, xs', maxlen);
      assert items + xs == (items + xs') + [xs[|xs| - 1]];
      if maxlen.Some? {
        LastNSnoc(items + xs', xs[|xs| - 1], maxlen.value);
      }
    } else {
      assert items + xs == items;
    }
  }

  /** The newest segment with the given sequence number, searching from the right. */
  function LatestWith(segments: seq<Segment>, sequence: int): Option<Segment> {
    if |segments| == 0 then None
    else if segments[|segments| - 1].sequence == sequence then Some(segments[|segments| - 1])
    else LatestWith(segments[..|segments| - 1], sequence)
  }

  /** The search finds a segment exactly when one has that sequence number, and
      then it is the newest such. */
  lemma {:induction false} LatestWithFinds(segments: seq<Segment>, sequence: int)
    ensures LatestWith(segments, sequence).None? <==> forall i | 0 <= i < |segments| :: segments[i].sequence != sequence
    ensures LatestWith(segments, sequence).Some? ==>
      exists i | 0 <= i < |segments| ::
        && segments[i] == LatestWith(segments, sequence).value
        && segments[i].sequence == sequence
        && forall j | i < j < |segments| :: segments[j].sequence != sequence
  {
    var n := |segments|;
    if n > 0 && segments[n - 1].sequence != sequence {
      var prefix := segments[..n - 1];
      LatestWithFinds(prefix, sequence);
      if LatestWith(prefix, sequence).Some? {
        var i :| 0 <= i < |prefix| && prefix[i] == LatestWith(prefix, sequence).value
          && prefix[i].sequence == sequence && forall j | i < j < |prefix| :: prefix[j].sequence != sequence;
        assert segments[i] == prefix[i];
        forall j | i < j < n ensures segments[j].sequence != sequence {
          if j < n - 1 {
            assert segments[j] == prefix[j];
          }
        }
      } else {
        forall i | 0 <= i < n ensures segments[i].sequence != sequence {
          if i < n - 1 {
            assert segments[i] == prefix[i];
          }
        }
      }
    }
  }

  /** The sequence numbers of the segments, in order. */
  function SequencesOf(segments: seq<Segment>): (r: seq<int>)
    ensures |r| == |segments|
    ensures forall i | 0 <= i < |segments| :: r[i] == segments[i].sequence
  {
    if |segments| == 0 then [] else SequencesOf(segments[..|segments| - 1]) + [segments[|segments| - 1].sequence]
  }

  class StreamOutput {
    const idleTimer: IdleTimer
    const maxlen: Option<nat>
    var segments: seq<Segment>

    ghost predicate Valid()
      reads this, idleTimer
    {
      idleTimer.Valid() && (maxlen.Some? ==> |segments| <= maxlen.value)
    }

    constructor(idleTimer: IdleTimer, maxlen: Option<nat>)
      requires idleTimer.Valid()
      ensures Valid() && this.idleTimer == idleTimer && this.maxlen == maxlen && segments == []
    {
      this.idleTimer := idleTimer;
      this.maxlen := maxlen;
      segments := [];
    }

    /** `idle`: the idle timer's flag. An idle output has no alarm pending. */
    predicate Idle()
      reads idleTimer
      ensures Idle() && idleTimer.Valid() ==> idleTimer.unsub == NoHandle && idleTimer.State().idle
    {
      idleTimer.idle
    }

    /** `last_sequence`: the newest segment's number, or -1 with no segments; looking
        that number up with `get_segment` finds the newest segment. */
    function LastSequence(): (r: int)
      reads this
      ensures |segments| == 0 ==> r == -1
      ensures |segments| > 0 ==> r == segments[|segments| - 1].sequence
      ensures |segments| > 0 ==> LatestWith(segments, r) == Some(segments[|segments| - 1])
    {
      if |segments| > 0 then segments[|segments| - 1].sequence else -1
    }

    /** `sequences`: every kept segment's number, oldest first. */
    function Sequences(): (r: seq<int>)
      reads this
      ensures |r| == |segments|
      ensures forall i | 0 <= i < |segments| :: r[i] == segments[i].sequence
    {
      SequencesOf(segments)
    }

    /** `last_segment`: the newest segment, if any. */
    function LastSegment(): (r: Option<Segment>)
      reads this
      ensures r.None? <==> |segments| == 0
      ensures r.Some? ==> r.value == segments[|segments| - 1] && r.value.sequence == LastSequence()
    {
      if |segments| > 0 then Some(segments[|segments| - 1]) else None
    }

    /** `get_segment(sequence)`: scans from the newest segment back. */
    method GetSegment(sequence: int) returns (r: Option<Segment>)
      ensures r == LatestWith(segments, sequence)
    {
      var i := |segments|;
      assert segments[..i] == segments;
      while i > 0
        invariant 0 <= i <= |segments|
        invariant LatestWith(segments, sequence) == LatestWith(segments[..i], sequence)
      {
        assert segments[..i][..i - 1] == segments[..i - 1];
        if segments[i - 1].sequence == sequence {
          return Some(segments[i - 1]);
        }
        i := i - 1;
      }
      return None;
    }

    /** `_async_put(segment)`: (re)starts the idle timer and appends the segment,
        dropping the oldest one when the deque is full. */
    method AsyncPut(segment: Segment)
      requires Valid()
      modifies this, idleTimer
      ensures Valid()
      ensures segments == Appended(old(segments), segment, maxlen)
      ensures idleTimer.State() == AfterStart(old(idleTimer.State()))
      ensures !Idle()
      ensures maxlen != Some(0) ==> LastSequence() == segment.sequence && LastSegment() == Some(segment)
    {
      idleTimer.Start();
      segments := Appended(segments, segment, maxlen);
    }

    /** `cleanup()`: clears the idle timer and empties the deque, keeping its bound. */
    method Cleanup()
      requires Valid()
      modifies this, idleTimer
      ensures Valid()
      ensures segments == []
      ensures idleTimer.State() == AfterClear(old(idleTimer.State()))
      ensures LastSequence() == -1 && LastSegment() == None && Sequences() == []
    {
      idleTimer.Clear();
      segments := [];
    }
  }

  /** A segment just put is the last one, and `get_segment` finds it by its number,
      unless the deque is bounded to zero. */
  lemma PutThenGet(segments: seq<Segment>, segment: Segment, maxlen: Option<nat>)
    requires maxlen.Some? ==> |segments| <= maxlen.value
    requires maxlen != Some(0)
    ensures var r := Appended(segments, segment, maxlen);
      |r| > 0 && r[|r| - 1] == segment && LatestWith(r, segment.sequence) == Some(segment)
  {
    var r := Appended(segments, segment, maxlen);
    if maxlen.Some? && |segments| == maxlen.value {
      assert r == segments[1..] + [segment];
    }
  }
}
