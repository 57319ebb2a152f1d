/** The process-local fixed window over outbound DNS queries. */
module OutboundBudget {

  /** The window in force: when it started and what it has admitted. */
  datatype Window = Window(started: real, spent: nat)

  /** The two settings the budget is sized from; both are at least one. */
  datatype Sizing = Sizing(rateLimit: nat, windowSeconds: nat, resolverCount: nat) {
    function Limit(): nat {
      rateLimit * (if resolverCount > 1 then resolverCount else 1)
    }
  }

  /** The window a call at `now` is charged to. */
  function Current(w: Window, size: Sizing, now: real): Window {
    if now - w.started >= size.windowSeconds as real then Window(now, 0) else w
  }

  predicate Fits(w: Window, size: Sizing, queries: nat) {
    w.spent + queries <= size.Limit()
  }

  class Budget {
    var started: real
    var spent: nat

    function State(): Window
      reads this
    {
      Window(started, spent)
    }

    constructor (now: real)
      ensures State() == Window(now, 0)
    {
      started, spent := now, 0;
    }

    /** Reserve the whole check or none of it. */
    method TrySpend(size: Sizing, now: real, queries: nat) returns (admitted: bool)
      modifies this
      ensures admitted == Fits(Current(old(State()), size, now), size, queries)
      ensures State() == After(old(State()), size, Call(now, queries))
    {
      if now - started >= size.windowSeconds as real {
        started := now;
        spent := 0;
      }
      if spent + queries > size.Limit() {
        return false;
      }
      spent := spent + queries;
      return true;
    }
  }

  datatype Call = Call(now: real, queries: nat)

  function After(w: Window, size: Sizing, c: Call): Window {
    var v := Current(w, size, c.now);
    if Fits(v, size, c.queries) then v.(spent := v.spent + c.queries) else v
  }

  predicate Monotone(calls: seq<Call>) {
    forall i, j :: 0 <= i < j < |calls| ==> calls[i].now <= calls[j].now
  }

  /** The queries of the admitted calls made in the half-open interval of one
      window length that begins at `a`. */
  function Sent(w: Window, size: Sizing, calls: seq<Call>, a: real): nat
    decreases |calls|
  {
    if calls == [] then 0
    else
      (if Fits(Current(w, size, calls[0].now), size, calls[0].queries)
          && a <= calls[0].now < a + size.windowSeconds as real
       then calls[0].queries else 0)
      + Sent(After(w, size, calls[0]), size, calls[1..], a)
  }

  /** Inside the window that started in the interval, the rest of the interval
      shares what is left of it. */
  lemma {:induction false} SentInOneWindow(w: Window, size: Sizing, calls: seq<Call>, a: real)
    requires a <= w.started && w.spent <= size.Limit() && Monotone(calls)
    ensures Sent(w, size, calls, a) <= size.Limit() - w.spent
    decreases |calls|
  {
    if calls != [] {
      if calls[0].now < a + size.windowSeconds as real {
        SentInOneWindow(After(w, size, calls[0]), size, calls[1..], a);
      } else {
        NothingSentLater(w, size, calls, a);
      }
    }
  }

  lemma {:induction false} NothingSentLater(w: Window, size: Sizing, calls: seq<Call>, a: real)
    requires Monotone(calls) && (calls != [] ==> calls[0].now >= a + size.windowSeconds as real)
    ensures Sent(w, size, calls, a) == 0
    decreases |calls|
  {
    if calls != [] {
      NothingSentLater(After(w, size, calls[0]), size, calls[1..], a);
    }
  }

  /** A window that was already running can be followed by one more. */
  lemma {:induction false} SentInTwoWindows(w: Window, size: Sizing, calls: seq<Call>, a: real)
    requires w.started < a && w.spent <= size.Limit() && Monotone(calls)
    requires calls != [] ==> calls[0].now >= a
    ensures Sent(w, size, calls, a) <= 2 * size.Limit() - w.spent
    decreases |calls|
  {
    if calls != [] {
      var v := After(w, size, calls[0]);
      if v.started < a {
        SentInTwoWindows(v, size, calls[1..], a);
      } else {
        SentInOneWindow(v, size, calls[1..], a);
      }
    }
  }

  /** However the calls fall, every interval of one window length admits at most
      twice the limit. */
  lemma {:induction false} AnyIntervalAdmitsTwiceTheLimit(w: Window, size: Sizing, calls: seq<Call>, a: real)
    requires w.spent <= size.Limit() && Monotone(calls)
    ensures Sent(w, size, calls, a) <= 2 * size.Limit()
    decreases |calls|
  {
    if calls != [] {
      if calls[0].now < a {
        AnyIntervalAdmitsTwiceTheLimit(After(w, size, calls[0]), size, calls[1..], a);
      } else if w.started < a {
        SentInTwoWindows(w, size, calls, a);
      } else {
        SentInOneWindow(w, size, calls, a);
      }
    }
  }

  /** The bound is met, for every window length: a full burst on each side of a
      window's end. */
  lemma TwiceTheLimitIsReached(size: Sizing)
    requires size.windowSeconds >= 1
    ensures exists calls :: Monotone(calls) && Sent(Window(0.0, 0), size, calls, 0.5) == 2 * size.Limit()
  {
    var w, limit := size.windowSeconds as real, size.Limit();
    var first, second := Call(w - 0.5, limit), Call(w, limit);
    var calls := [first, second];
    assert calls[1..] == [second] && [second][1..] == [];
    assert After(Window(0.0, 0), size, first) == Window(0.0, limit);
    assert Sent(Window(0.0, limit), size, [second], 0.5) == limit;
    assert Monotone(calls) && Sent(Window(0.0, 0), size, calls, 0.5) == 2 * limit;
  }

  /** A fresh window after `n` whole checks. */
  function AfterChecks(size: Sizing, now: real, n: nat): Window {
    if n == 0 then Window(now, 0) else After(AfterChecks(size, now, n - 1), size, Call(now, size.resolverCount))
  }

  /** One window holds exactly the checks the global limiter would admit: the first
      `rateLimit` are admitted whole, and the next is refused. */
  lemma {:induction false} AWindowHoldsTheGlobalLimit(size: Sizing, now: real, n: nat)
    requires size.resolverCount >= 1 && size.windowSeconds >= 1 && n <= size.rateLimit
    ensures AfterChecks(size, now, n) == Window(now, n * size.resolverCount)
    ensures Fits(Current(AfterChecks(size, now, n), size, now), size, size.resolverCount) <==> n < size.rateLimit
  {
    if n > 0 {
      AWindowHoldsTheGlobalLimit(size, now, n - 1);
      Product(n - 1, size.resolverCount);
    }
    FitsExactlyBelow(n, size.rateLimit, size.resolverCount);
  }

  lemma Product(n: nat, r: nat)
    ensures (n + 1) * r == n * r + r
  {
  }

  lemma {:induction false} ProductGrows(a: nat, b: nat, r: nat)
    requires a <= b
    ensures a * r <= b * r
  {
    if a < b {
      ProductGrows(a, b - 1, r);
      Product(b - 1, r);
    }
  }

  lemma FitsExactlyBelow(n: nat, limit: nat, r: nat)
    requires r >= 1 && n <= limit
    ensures n * r + r <= limit * r <==> n < limit
  {
    Product(n, r);
    if n < limit {
      ProductGrows(n + 1, limit, r);
    }
  }
}
