/** The loading indicator's reference counter: a count of loading-tracked
    calls in flight and whether the full-screen indicator is open. The count
    is never clamped, so it can go below zero. */
module Loading {
  import opened Types

  datatype LoadingState = LoadingState(count: int, indicator: bool)

  /** The client's state when it is created. */
  const Idle: LoadingState := LoadingState(0, false)

  /** The indicator is open exactly while the count is positive. */
  predicate Consistent(s: LoadingState) {
    s.indicator <==> s.count > 0
  }

  /** A new loading state with the indicator effects that led to it. */
  datatype Transition = Transition(state: LoadingState, effects: seq<Effect>)

  /** A loading-tracked request leaves: count up; the indicator is created
      when the count becomes exactly one. */
  function Acquire(s: LoadingState): (t: Transition)
    ensures t.state.count == s.count + 1
    ensures Consistent(s) ==> Consistent(t.state)
    ensures ShowIndicator in t.effects <==> t.state.count == 1
    ensures CloseIndicator !in t.effects
    ensures |t.effects| <= 1
  {
    var n := s.count + 1;
    if n == 1 then Transition(LoadingState(n, true), [ShowIndicator])
    else Transition(s.(count := n), [])
  }

  /** A loading-tracked call settles through a decrementing path: count down;
      the indicator is closed when the count reaches exactly zero while one
      is open. */
  function Release(s: LoadingState): (t: Transition)
    ensures t.state.count == s.count - 1
    ensures Consistent(s) ==> Consistent(t.state)
    ensures CloseIndicator in t.effects <==> t.state.count == 0 && s.indicator
    ensures ShowIndicator !in t.effects
    ensures |t.effects| <= 1
  {
    var n := s.count - 1;
    if n == 0 && s.indicator then Transition(LoadingState(n, false), [CloseIndicator])
    else Transition(s.(count := n), [])
  }

  /** A call that acquires and then releases leaves a consistent state as it
      found it; the indicator flashes only when the call started from zero. */
  lemma AcquireThenRelease(s: LoadingState)
    requires Consistent(s)
    ensures Release(Acquire(s).state).state == s
    ensures Acquire(s).effects + Release(Acquire(s).state).effects
            == if s.count == 0 then [ShowIndicator, CloseIndicator] else []
  {
  }
}
