/**
 * The reference-counted wait screen of the UI factory, as values.
 *
 * The counter, the list of callers and the state of the `#PlentyWaitScreen`
 * overlay (whether the element exists and whether it carries the `in` class)
 * form a `WaitState`; acquiring and releasing are the functions `Show` and
 * `Hide`.  The class `Factories.UIFactory` holds the same state in mutable
 * fields and is proved against these functions.
 */
module WaitScreen {

  import opened Wrappers

  /** JavaScript truthiness of a caller identifier: `undefined`, `null` and "" are falsy. */
  predicate Truthy(caller: Option<string>)
  {
    caller.Some? && caller.value != ""
  }

  /**
   * count    -- `waitScreenCount`
   * callers  -- `waitScreenCaller`, oldest first
   * present  -- the overlay element exists in the document
   * shown    -- the overlay carries the `in` class
   */
  datatype WaitState = WaitState(count: int, callers: seq<string>, present: bool, shown: bool)

  /** The state before any call: no overlay, nothing counted. */
  const Initial := WaitState(0, [], false, false)

  /**
   * What holds between calls: the counter is never negative, the overlay is
   * shown exactly while something is counted, and only an existing overlay is shown.
   */
  predicate Invariant(w: WaitState)
  {
    w.count >= 0 && (w.shown <==> w.count > 0) && (w.shown ==> w.present)
  }

  /** The caller list with every element equal to `c` taken out, the others in order. */
  function Without(s: seq<string>, c: string): seq<string>
  {
    if s == [] then [] else (if s[0] == c then [] else [s[0]]) + Without(s[1..], c)
  }

  /** The caller list after `showWaitScreen(caller)`: a falsy caller is only warned about. */
  function Pushed(callers: seq<string>, caller: Option<string>): seq<string>
  {
    if Truthy(caller) then callers + [caller.value] else callers
  }

  /** The caller list after `hideWaitScreen(caller, _)`. */
  function Removed(callers: seq<string>, caller: Option<string>): seq<string>
  {
    if Truthy(caller) then Without(callers, caller.value) else callers
  }

  /** `showWaitScreen(caller)`; the new counter is also its return value. */
  function Show(w: WaitState, caller: Option<string>): (r: WaitState)
    ensures r.count == w.count + 1
    ensures r.present && r.shown
    ensures r.callers == Pushed(w.callers, caller)
    ensures Invariant(w) ==> Invariant(r)
  {
    WaitState(w.count + 1, Pushed(w.callers, caller), true, true)
  }

  /** `hideWaitScreen(caller, forceClose)`; the new counter is also its return value. */
  function Hide(w: WaitState, caller: Option<string>, forceClose: bool): (r: WaitState)
    ensures r.count >= 0
    ensures forceClose ==> r.count == 0
    ensures !forceClose ==> r.count == (if w.count - 1 > 0 then w.count - 1 else 0)
    ensures r.count == 0 || forceClose ==> !r.shown
    ensures !(r.count == 0 || forceClose) ==> r.shown == w.shown
    ensures r.present == w.present
    ensures r.callers == Removed(w.callers, caller)
    ensures Invariant(w) ==> Invariant(r)
  {
    var n := w.count - 1;
    var callers := Removed(w.callers, caller);
    if n <= 0 || forceClose then
      // removing the `in` class of a missing overlay changes nothing
      WaitState(0, callers, w.present, false)
    else
      WaitState(n, callers, w.present, w.shown)
  }

  // ---------------------------------------------------------------------
  // Removing a caller

  lemma {:induction false} WithoutConcat(a: seq<string>, b: seq<string>, c: string)
    ensures Without(a + b, c) == Without(a, c) + Without(b, c)
  {
    if a == [] {
      assert a + b == b;
    } else {
      assert (a + b)[1..] == a[1..] + b;
      WithoutConcat(a[1..], b, c);
    }
  }

  /** Every occurrence of `c` goes, and every other element keeps its multiplicity. */
  lemma {:induction false} WithoutRemovesAll(s: seq<string>, c: string)
    ensures c !in Without(s, c)
    ensures forall x :: x != c ==> multiset(Without(s, c))[x] == multiset(s)[x]
  {
    if s != [] {
      WithoutRemovesAll(s[1..], c);
      assert s == [s[0]] + s[1..];
    }
  }

  /** Removing a caller that is not listed leaves the list as it was. */
  lemma {:induction false} WithoutAbsent(s: seq<string>, c: string)
    requires c !in s
    ensures Without(s, c) == s
  {
    if s != [] {
      WithoutAbsent(s[1..], c);
      assert s == [s[0]] + s[1..];
    }
  }

  /** Acquiring and then releasing with the same caller drops every entry of that caller. */
  lemma PushThenRemove(callers: seq<string>, caller: Option<string>)
    ensures Removed(Pushed(callers, caller), caller) == Removed(callers, caller)
  {
    if Truthy(caller) {
      WithoutConcat(callers, [caller.value], caller.value);
      assert Without([caller.value], caller.value) == [];
    }
  }

  /** Releasing "A" after acquiring "A", "B", "A" leaves only "B". */
  lemma RemoveEveryOccurrence()
    ensures Removed(Pushed(Pushed(Pushed([], Some("A")), Some("B")), Some("A")), Some("A")) == ["B"]
  {
  }

  // ---------------------------------------------------------------------
  // Sequences of calls

  datatype Call = Acquire(caller: Option<string>) | Release(caller: Option<string>, forceClose: bool)

  /** One call on the wait screen. */
  function Step(w: WaitState, call: Call): WaitState
  {
    match call
    case Acquire(c) => Show(w, c)
    case Release(c, force) => Hide(w, c, force)
  }

  /** A release that does not force the overlay closed. */
  predicate Plain(call: Call)
  {
    call.Acquire? || !call.forceClose
  }

  /** The state after the calls, in order. */
  function Run(w: WaitState, calls: seq<Call>): WaitState
    decreases |calls|
  {
    if calls == [] then w else Step(Run(w, calls[..|calls| - 1]), calls[|calls| - 1])
  }

  /** Acquires minus releases. */
  function Balance(calls: seq<Call>): int
    decreases |calls|
  {
    if calls == [] then 0
    else Balance(calls[..|calls| - 1]) + (if calls[|calls| - 1].Acquire? then 1 else -1)
  }

  /**
   * Whatever the calls, forced releases included, the invariant holds after
   * each of them; in particular the counter is never negative.
   */
  lemma {:induction false} RunKeepsInvariant(w: WaitState, calls: seq<Call>)
    requires Invariant(w)
    ensures Invariant(Run(w, calls))
    decreases |calls|
  {
    if calls != [] {
      RunKeepsInvariant(w, calls[..|calls| - 1]);
    }
  }

  /**
   * As long as no release is forced and none outruns the acquires before it,
   * the counter is the number of outstanding acquires and the overlay is
   * shown exactly while that number is positive.
   */
  lemma {:induction false} RunBalanced(w: WaitState, calls: seq<Call>)
    requires Invariant(w)
    requires forall i :: 0 <= i < |calls| ==> Plain(calls[i])
    requires forall j :: 0 <= j <= |calls| ==> w.count + Balance(calls[..j]) >= 0
    ensures Run(w, calls).count == w.count + Balance(calls)
    ensures Run(w, calls).shown <==> w.count + Balance(calls) > 0
    decreases |calls|
  {
    RunKeepsInvariant(w, calls);
    if calls != [] {
      var front := calls[..|calls| - 1];
      forall j | 0 <= j <= |front|
        ensures w.count + Balance(front[..j]) >= 0
      {
        assert front[..j] == calls[..j];
      }
      assert forall i :: 0 <= i < |front| ==> front[i] == calls[i];
      RunBalanced(w, front);
      assert calls[..|calls|] == calls;
    }
  }

  function Acquires(callers: seq<Option<string>>): (r: seq<Call>)
    ensures |r| == |callers|
  {
    seq(|callers|, i requires 0 <= i < |callers| => Acquire(callers[i]))
  }

  function Releases(callers: seq<Option<string>>): (r: seq<Call>)
    ensures |r| == |callers|
  {
    seq(|callers|, i requires 0 <= i < |callers| => Release(callers[i], false))
  }

  lemma {:induction false} BalanceOfAcquires(callers: seq<Option<string>>)
    ensures Balance(Acquires(callers)) == |callers|
    decreases |callers|
  {
    if callers != [] {
      var front := callers[..|callers| - 1];
      assert Acquires(callers)[..|callers| - 1] == Acquires(front);
      BalanceOfAcquires(front);
    }
  }

  lemma {:induction false} BalanceThenReleases(calls: seq<Call>, callers: seq<Option<string>>)
    ensures Balance(calls + Releases(callers)) == Balance(calls) - |callers|
    decreases |callers|
  {
    if callers == [] {
      assert calls + Releases(callers) == calls;
    } else {
      var front := callers[..|callers| - 1];
      var all := calls + Releases(callers);
      assert all[..|all| - 1] == calls + Releases(front);
      BalanceThenReleases(calls, front);
    }
  }

  /**
   * Starting with nothing counted, after n acquires and k <= n releases the
   * counter is n - k, and the overlay is still shown exactly when k < n:
   * after the last matching release it is hidden.
   */
  lemma ShowsThenHides(w: WaitState, shows: seq<Option<string>>, hides: seq<Option<string>>)
    requires Invariant(w) && w.count == 0
    requires |hides| <= |shows|
    ensures Run(w, Acquires(shows) + Releases(hides)).count == |shows| - |hides|
    ensures Run(w, Acquires(shows) + Releases(hides)).shown <==> |hides| < |shows|
  {
    var calls := Acquires(shows) + Releases(hides);
    forall j | 0 <= j <= |calls|
      ensures w.count + Balance(calls[..j]) >= 0
    {
      if j <= |shows| {
        assert calls[..j] == Acquires(shows[..j]);
        BalanceOfAcquires(shows[..j]);
      } else {
        assert calls[..j] == Acquires(shows) + Releases(hides[..j - |shows|]);
        BalanceOfAcquires(shows);
        BalanceThenReleases(Acquires(shows), hides[..j - |shows|]);
      }
    }
    RunBalanced(w, calls);
    BalanceOfAcquires(shows);
    BalanceThenReleases(Acquires(shows), hides);
  }
}
