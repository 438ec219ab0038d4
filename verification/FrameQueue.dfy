/** The queue between the reader thread and the consumer of frames() in qhyccdvideo.py: five frames, latest wins. */
module FrameQueue {
  const SIZE := 5

  /**
   * `delivered` are the frames _put was called with; `taken` and `dropped` say which of them left the queue, and how.
   */
  datatype State<T> = State(delivered: seq<T>, items: seq<T>, yielded: seq<T>, taken: seq<nat>, dropped: seq<nat>)

  datatype Action<T> = Put(frame: T) | Take

  function Empty<T>(): State<T> { State([], [], [], [], []) }

  /** Where the oldest queued frame is in `delivered`. */
  function Oldest<T>(s: State<T>): int { |s.delivered| - |s.items| }

  function Step<T>(s: State<T>, a: Action<T>): State<T>
    requires |s.items| <= |s.delivered|
    ensures |Step(s, a).items| <= |Step(s, a).delivered|
  {
    match a
    case Put(f) =>
      if |s.items| == SIZE then s.(delivered := s.delivered + [f], items := s.items[1..] + [f],
        dropped := s.dropped + [Oldest(s)])
      else s.(delivered := s.delivered + [f], items := s.items + [f])
    case Take =>
      if s.items == [] then s
      else s.(items := s.items[1..], yielded := s.yielded + [s.items[0]], taken := s.taken + [Oldest(s)])
  }

  function Run<T>(s: State<T>, actions: seq<Action<T>>): (n: State<T>)
    requires |s.items| <= |s.delivered|
    ensures |n.items| <= |n.delivered|
    decreases |actions|
  {
    if actions == [] then s else Run(Step(s, actions[0]), actions[1..])
  }

  /** The frames a schedule delivers, in order. */
  function Arrivals<T>(actions: seq<Action<T>>): seq<T>
    decreases |actions|
  {
    if actions == [] then []
    else (match actions[0] case Put(f) => [f] case Take => []) + Arrivals(actions[1..])
  }

  lemma {:induction false} DeliveredAreArrivals<T>(s: State<T>, actions: seq<Action<T>>)
    requires |s.items| <= |s.delivered|
    ensures Run(s, actions).delivered == s.delivered + Arrivals(actions)
    decreases |actions|
  {
    if actions != [] { DeliveredAreArrivals(Step(s, actions[0]), actions[1..]); }
  }

  lemma DeliveredFromEmpty<T>(actions: seq<Action<T>>)
    ensures Run(Empty<T>(), actions).delivered == Arrivals(actions)
  {
    DeliveredAreArrivals(Empty<T>(), actions);
    hide Run, Arrivals;
    assert [] + Arrivals(actions) == Arrivals(actions);
  }

  predicate Increasing(s: seq<nat>) {
    forall i, j | 0 <= i < j < |s| :: s[i] < s[j]
  }

  predicate AllBelow(s: seq<nat>, n: int) {
    forall k | k in s :: k < n
  }

  /** Every delivered frame is either still queued, in order, or was taken or dropped, once. */
  ghost predicate Inv<T>(s: State<T>) {
    && |s.items| <= SIZE && |s.items| <= |s.delivered|
    && s.items == s.delivered[Oldest(s)..]
    && |s.yielded| == |s.taken|
    && Increasing(s.taken) && Increasing(s.dropped)
    && AllBelow(s.taken, Oldest(s)) && AllBelow(s.dropped, Oldest(s))
    && (forall k: nat | k < Oldest(s) :: k in s.taken <==> k !in s.dropped)
    && (forall i | 0 <= i < |s.taken| :: s.taken[i] < |s.delivered| && s.yielded[i] == s.delivered[s.taken[i]])
  }

  lemma Append(s: seq<nat>, n: nat)
    requires Increasing(s) && AllBelow(s, n)
    ensures Increasing(s + [n]) && AllBelow(s + [n], n + 1)
    ensures forall k :: k in s + [n] <==> k in s || k == n
  {
    assert forall i | 0 <= i < |s| :: s[i] in s;
  }

  lemma PutKeepsInv<T>(s: State<T>, f: T)
    requires Inv(s)
    ensures Inv(Step(s, Put(f)))
  {
    var n := Step(s, Put(f));
    assert n.items == n.delivered[Oldest(n)..];
    if |s.items| == SIZE { Append(s.dropped, Oldest(s)); }
  }

  lemma TakeKeepsInv<T>(s: State<T>)
    requires Inv(s)
    ensures Inv(Step(s, Take))
  {
    if s.items != [] {
      var n := Step(s, Take);
      assert n.items == n.delivered[Oldest(n)..];
      assert s.items[0] == s.delivered[Oldest(s)];
      Append(s.taken, Oldest(s));
    }
  }

  lemma {:induction false} RunKeepsInv<T>(s: State<T>, actions: seq<Action<T>>)
    requires Inv(s)
    ensures Inv(Run(s, actions))
    decreases |actions|
  {
    if actions != [] {
      match actions[0] {
        case Put(f) => PutKeepsInv(s, f);
        case Take => TakeKeepsInv(s);
      }
      RunKeepsInv(Step(s, actions[0]), actions[1..]);
    }
  }

  /**
   * Main theorem: for every schedule, the frames yielded are a strictly increasing subsequence of those that arrived;
   * the queue holds the latest at most five; and every other frame was yielded or dropped, not both.
   */
  lemma YieldsASubsequence<T>(actions: seq<Action<T>>)
    ensures var s := Run(Empty<T>(), actions); var frames := Arrivals(actions);
            && |s.items| <= SIZE && |s.items| <= |frames| && s.items == frames[|frames| - |s.items|..]
            && |s.yielded| == |s.taken| && Increasing(s.taken)
            && (forall i | 0 <= i < |s.taken| ::
                  s.taken[i] < |frames| - |s.items| && s.yielded[i] == frames[s.taken[i]])
            && (forall k: nat | k < |frames| - |s.items| :: k in s.taken <==> k !in s.dropped)
  {
    RunKeepsInv(Empty<T>(), actions);
    DeliveredFromEmpty(actions);
    var s := Run(Empty<T>(), actions);
    forall i | 0 <= i < |s.taken| ensures s.taken[i] < Oldest(s) { assert s.taken[i] in s.taken; }
  }

  /**
   * A delivered frame that leaves the queue without being yielded was the oldest one of a full queue, and it leaves
   * to make room for an arrival.
   */
  lemma DropsOnlyOldest<T>(s: State<T>, a: Action<T>, i: nat)
    requires Inv(s) && Oldest(s) <= i < |s.delivered|
    ensures var n := Step(s, a);
            i < Oldest(n) && i !in n.taken ==>
              a.Put? && |s.items| == SIZE && s.delivered[i] == s.items[0]
                && (forall k: nat | k < i :: k in s.taken || k in s.dropped)
  {
    if a.Take? && s.items != [] {
      assert s.taken + [Oldest(s)] == Step(s, a).taken;
      assert Oldest(s) in [Oldest(s)];
    }
  }

  /** Every dropped frame was delivered before at least five others that were still queued when it went. */
  ghost predicate FiveBehind<T>(s: State<T>) {
    forall i | i in s.dropped :: i + SIZE < |s.delivered|
  }

  lemma {:induction false} RunKeepsFiveBehind<T>(s: State<T>, actions: seq<Action<T>>)
    requires Inv(s) && FiveBehind(s)
    ensures FiveBehind(Run(s, actions))
    decreases |actions|
  {
    if actions != [] {
      match actions[0] {
        case Put(f) => PutKeepsInv(s, f);
        case Take => TakeKeepsInv(s);
      }
      RunKeepsFiveBehind(Step(s, actions[0]), actions[1..]);
    }
  }

  /** Frame i of those that arrived waits at its place in the queue, or was yielded as the one it is. */
  ghost predicate QueuedOrYielded<T>(s: State<T>, frames: seq<T>, i: nat)
    requires i < |frames|
  {
    var left := |frames| - |s.items|;
    && left >= 0 && |s.taken| == |s.yielded|
    && (if left <= i then s.items[i - left] == frames[i]
        else exists k :: 0 <= k < |s.taken| && s.taken[k] == i && s.yielded[k] == frames[i])
  }

  lemma LatestAreKept<T>(s: State<T>, frames: seq<T>, i: nat)
    requires Inv(s) && FiveBehind(s) && s.delivered == frames && i < |frames| <= i + SIZE
    ensures QueuedOrYielded(s, frames, i)
  {
    if i < Oldest(s) { assert i in s.taken; }
  }

  /** A consumer that is never more than five frames behind the reader loses none. */
  lemma NothingLostWithinFive<T>(actions: seq<Action<T>>, i: nat)
    requires i < |Arrivals(actions)| <= i + SIZE
    ensures QueuedOrYielded(Run(Empty<T>(), actions), Arrivals(actions), i)
  {
    hide *;
    EmptyInv<T>();
    DeliveredFromEmpty(actions);
    RunKeepsInv(Empty<T>(), actions);
    RunKeepsFiveBehind(Empty<T>(), actions);
    LatestAreKept(Run(Empty<T>(), actions), Arrivals(actions), i);
  }

  lemma EmptyInv<T>()
    ensures Inv(Empty<T>()) && FiveBehind(Empty<T>())
  {}

  lemma ItemsAreLatest<T>(s: State<T>)
    requires Inv(s)
    ensures |s.items| <= SIZE && |s.items| <= |s.delivered| && s.items == s.delivered[Oldest(s)..]
  {}

  lemma {:induction false} DeliveredByRun<T>(s: State<T>, actions: seq<Action<T>>)
    requires Inv(s) && forall a | a in actions :: a.Put?
    ensures var n := Run(s, actions);
            && |n.delivered| == |s.delivered| + |actions| && s.delivered <= n.delivered
            && n.yielded == s.yielded
            && |n.items| == if |s.items| + |actions| <= SIZE then |s.items| + |actions| else SIZE
    decreases |actions|
  {
    if actions != [] {
      assert actions[0] in actions;
      PutKeepsInv(s, actions[0].frame);
      DeliveredByRun(Step(s, actions[0]), actions[1..]);
    }
  }

  /** However long the consumer stalls, it then finds the latest five frames (or all there are), in order. */
  lemma StalledConsumerFindsLatest<T>(before: seq<Action<T>>, stall: seq<Action<T>>)
    requires forall a | a in stall :: a.Put?
    ensures var s := Run(Empty<T>(), before); var n := Run(s, stall); var frames := Arrivals(stall);
            && n.yielded == s.yielded && |frames| == |stall|
            && (|stall| >= SIZE ==> n.items == frames[|stall| - SIZE..])
            && (|s.items| + |stall| <= SIZE ==> n.items == s.items + frames)
  {
    var s := Run(Empty<T>(), before);
    EmptyInv<T>();
    DeliveredAreArrivals(s, stall);
    hide Run, Inv;
    RunKeepsInv(Empty<T>(), before);
    DeliveredByRun(s, stall);
    RunKeepsInv(s, stall);
    StallEnds(s, Run(s, stall), |stall|);
  }

  /** What k arrivals and nothing else make of the queue. */
  lemma StallEnds<T>(s: State<T>, n: State<T>, k: nat)
    requires Inv(s) && Inv(n) && s.delivered <= n.delivered && |n.delivered| == |s.delivered| + k
    requires |n.items| == if |s.items| + k <= SIZE then |s.items| + k else SIZE
    ensures k >= SIZE ==> n.items == n.delivered[|n.delivered| - SIZE..]
    ensures |s.items| + k <= SIZE ==> n.items == s.items + n.delivered[|s.delivered|..]
  {
    ItemsAreLatest(s);
    ItemsAreLatest(n);
    hide Inv;
    if |s.items| + k <= SIZE { SuffixGrows(s.delivered, n.delivered, Oldest(s)); }
  }

  lemma SuffixGrows<T>(a: seq<T>, b: seq<T>, from: nat)
    requires from <= |a| && a <= b
    ensures b[from..] == a[from..] + b[|a|..]
  {
    assert b == a + b[|a|..];
  }

  /** Taking n frames in a row yields the first n queued. */
  function Takes<T>(n: nat): seq<Action<T>> { seq(n, _ => Take) }

  lemma {:induction false} DrainsInOrder<T>(s: State<T>, n: nat)
    requires Inv(s) && n <= |s.items|
    ensures Run(s, Takes<T>(n)).yielded == s.yielded + s.items[..n]
    decreases n
  {
    if n > 0 {
      assert Takes<T>(n)[0] == Take && Takes<T>(n)[1..] == Takes<T>(n - 1);
      TakeKeepsInv(s);
      var t := Step(s, Take);
      assert t.items == s.items[1..] && t.yielded == s.yielded + [s.items[0]];
      hide Inv, Step, Takes;
      DrainsInOrder(t, n - 1);
      assert [s.items[0]] + s.items[1..][..n - 1] == s.items[..n];
    }
  }

  /** The queue of one activation. */
  class Frames<T> {
    var items: seq<T>
    ghost var history: State<T>

    ghost predicate Valid()
      reads this
    {
      Inv(history) && history.items == items
    }

    constructor ()
      ensures Valid() && history == Empty<T>()
    {
      items := [];
      history := Empty<T>();
    }

    method GetNowait() returns (frame: T)
      requires Valid() && items != []
      modifies this
      ensures items == old(items)[1..] && frame == old(items)[0] && history == old(history)
    {
      frame := items[0];
      items := items[1..];
    }

    /** _put. */
    method Put(frame: T)
      requires Valid()
      modifies this
      ensures Valid() && history == Step(old(history), Action.Put(frame))
      ensures items == (if old(|items|) == SIZE then old(items)[1..] else old(items)) + [frame]
    {
      PutKeepsInv(history, frame);
      history := Step(history, Action.Put(frame));
      if |items| == SIZE { items := items[1..]; }
      items := items + [frame];
    }

    /** One turn of the loop of frames(): empty if nothing came before the time-out. */
    method Next() returns (frame: seq<T>)
      requires Valid()
      modifies this
      ensures Valid() && history == Step(old(history), Take)
      ensures frame == old(items)[..if old(items) == [] then 0 else 1]
          && history.yielded == old(history.yielded) + frame
    {
      if items == [] { return []; }
      TakeKeepsInv(history);
      var f := GetNowait();
      history := Step(history, Take);
      frame := [f];
    }
  }
}
