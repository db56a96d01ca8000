/**
 * The one-shot latch of `ScrollAnimations.handleCounters`: the statistics counters are
 * animated the first time the "about" section is seen intersecting the viewport, and never
 * again. The tweening itself is not modelled; `started` counts how many times the
 * animation of the counters was started.
 */
module ScrollAnimations {

  /** The latch `hasAnimated` and the number of times the counters' animation was started. */
  datatype Latch = Latch(hasAnimated: bool, started: nat)

  /** The latch is set exactly when the animation has been started, and it was started at most once. */
  predicate Sound(l: Latch)
  {
    l.started == if l.hasAnimated then 1 else 0
  }

  /** `animateCounters`: does nothing once the latch is set; otherwise starts the animation and sets the latch. */
  function Animate(l: Latch): (r: Latch)
    ensures r.hasAnimated
    ensures l.hasAnimated ==> r == l
    ensures Sound(l) ==> Sound(r)
  {
    if l.hasAnimated then l else Latch(true, l.started + 1)
  }

  /**
   * The observer callback, applied to the `isIntersecting` flags of its entries in order:
   * every intersecting entry calls `animateCounters`.
   */
  function Observe(l: Latch, entries: seq<bool>): (r: Latch)
    ensures l.hasAnimated ==> r == l
    ensures true !in entries ==> r == l
    ensures !r.hasAnimated ==> r == l
    ensures l.started <= r.started <= l.started + 1
    decreases |entries|
  {
    if entries == [] then l
    else
      assert true !in entries ==> true !in entries[..|entries| - 1];
      var before := Observe(l, entries[..|entries| - 1]);
      if entries[|entries| - 1] then Animate(before) else before
  }

  /**
   * From a sound latch, any sequence of observer entries keeps it sound; the latch is set
   * afterwards exactly when it was set before or some entry was intersecting.
   */
  lemma {:induction false} ObserveKeepsLatch(l: Latch, entries: seq<bool>)
    requires Sound(l)
    ensures Sound(Observe(l, entries))
    ensures Observe(l, entries).hasAnimated <==> l.hasAnimated || true in entries
    decreases |entries|
  {
    if entries != [] {
      var init := entries[..|entries| - 1];
      ObserveKeepsLatch(l, init);
      assert entries == init + [entries[|entries| - 1]];
    }
  }

  /** Several observer callbacks, one after the other. */
  function ObserveAll(l: Latch, callbacks: seq<seq<bool>>): (r: Latch)
    decreases |callbacks|
  {
    if callbacks == [] then l else ObserveAll(Observe(l, callbacks[0]), callbacks[1..])
  }

  lemma {:induction false} ObserveAllKeepsLatch(l: Latch, callbacks: seq<seq<bool>>)
    requires Sound(l)
    ensures Sound(ObserveAll(l, callbacks))
    ensures ObserveAll(l, callbacks).hasAnimated <==>
              l.hasAnimated || exists k :: 0 <= k < |callbacks| && true in callbacks[k]
    decreases |callbacks|
  {
    if callbacks != [] {
      ObserveKeepsLatch(l, callbacks[0]);
      ObserveAllKeepsLatch(Observe(l, callbacks[0]), callbacks[1..]);
      if exists k :: 0 <= k < |callbacks| && true in callbacks[k] {
        var k :| 0 <= k < |callbacks| && true in callbacks[k];
        if k > 0 {
          assert callbacks[1..][k - 1] == callbacks[k];
        }
      }
      if exists k :: 0 <= k < |callbacks[1..]| && true in callbacks[1..][k] {
        var k :| 0 <= k < |callbacks[1..]| && true in callbacks[1..][k];
        assert callbacks[k + 1] == callbacks[1..][k];
      }
    }
  }

  /**
   * The counters are animated at most once over the whole page life: starting from the fresh
   * latch, however many callbacks arrive, the animation is started once if any entry was
   * intersecting and never otherwise.
   */
  lemma {:induction false} AnimatedAtMostOnce(callbacks: seq<seq<bool>>)
    ensures var l := ObserveAll(Latch(false, 0), callbacks);
            l.started == if exists k :: 0 <= k < |callbacks| && true in callbacks[k] then 1 else 0
  {
    ObserveAllKeepsLatch(Latch(false, 0), callbacks);
  }

  /** The latch of `handleCounters` as the page holds it. */
  class CounterLatch {
    var hasAnimated: bool
    var started: nat

    function Current(): Latch
      reads this
    {
      Latch(hasAnimated, started)
    }

    ghost predicate Valid()
      reads this
    {
      Sound(Current())
    }

    constructor ()
      ensures Valid() && Current() == Latch(false, 0)
    {
      hasAnimated := false;
      started := 0;
    }

    /** `animateCounters`. */
    method AnimateCounters()
      requires Valid()
      modifies this
      ensures Valid() && Current() == Animate(old(Current()))
    {
      if hasAnimated {
        return;
      }
      started := started + 1;
      hasAnimated := true;
    }

    /** The intersection observer's callback, given the `isIntersecting` flag of each entry. */
    method Intersected(entries: seq<bool>)
      requires Valid()
      modifies this
      ensures Valid() && Current() == Observe(old(Current()), entries)
    {
      var i := 0;
      while i < |entries|
        invariant 0 <= i <= |entries|
        invariant Valid() && Current() == Observe(old(Current()), entries[..i])
      {
        if entries[i] {
          AnimateCounters();
        }
        assert entries[..i + 1][..i] == entries[..i];
        i := i + 1;
      }
      assert entries[..i] == entries;
    }
  }
}
