/**
 * The login rate limiter: one fixed window for each account, one for the process, and a
 * bounded map of accounts. Times and durations are whole nanoseconds; an account is the
 * digest of a normalized address.
 */
module RateLimit {
  import opened SyncTypes

  type Account = nat

  const SECOND := 1_000_000_000
  const U32_MAX := 0xFFFF_FFFF

  datatype Window = Window(openedAt: int, attempts: nat)

  datatype State = State(attempts: map<Account, Window>, global: Window)

  datatype Policy = Policy(maxAttempts: nat, globalMaxAttempts: nat, window: nat, maxKeys: nat)

  datatype Attempt = Attempt(account: Account, at: int)

  datatype Rejection = AccountBudget | GlobalBudget | KeyCapacity

  datatype Outcome = Allowed | Rejected(reason: Rejection, retryAfterSeconds: nat)

  function Empty(openedAt: int): State { State(map[], Window(openedAt, 0)) }

  /** Time passed since `then`, or nothing if `then` is still to come. */
  function Elapsed(now: int, since: int): nat { if now <= since then 0 else now - since }

  predicate Live(w: Window, now: int, window: nat) { Elapsed(now, w.openedAt) < window }

  function Bump(w: Window): Window { w.(attempts := if w.attempts >= U32_MAX then U32_MAX else w.attempts + 1) }

  /** What is left of the window in whole seconds, rounded up, and at least one. */
  function RetryAfter(now: int, openedAt: int, window: nat): nat {
    var remaining := if Elapsed(now, openedAt) >= window then 0 else window - Elapsed(now, openedAt);
    var seconds := remaining / SECOND + (if remaining % SECOND > 0 then 1 else 0);
    if seconds < 1 then 1 else seconds
  }

  function Retained(m: map<Account, Window>, now: int, window: nat): map<Account, Window> {
    map k | k in m && Live(m[k], now, window) :: m[k]
  }

  predicate IsOldest(m: map<Account, Window>, at: int) {
    (exists k :: k in m && m[k].openedAt == at) && forall k :: k in m ==> at <= m[k].openedAt
  }

  lemma OldestExists(m: map<Account, Window>)
    requires |m| > 0
    ensures exists at :: IsOldest(m, at)
    decreases |m|
  {
    var k :| k in m;
    var rest := m - {k};
    assert m.Keys == rest.Keys + {k};
    if |rest| == 0 {
      assert IsOldest(m, m[k].openedAt);
    } else {
      OldestExists(rest);
      var at :| IsOldest(rest, at);
      var j :| j in rest && rest[j].openedAt == at;
      assert j in m;
      assert IsOldest(m, if m[k].openedAt <= at then m[k].openedAt else at);
    }
  }

  ghost function Oldest(m: map<Account, Window>, fallback: int): (at: int)
    ensures |m| > 0 ==> IsOldest(m, at)
  {
    if |m| == 0 then fallback
    else
      OldestExists(m);
      var at :| IsOldest(m, at);
      at
  }

  // The transition ---------------------------------------------------------

  function Opened(s: State, now: int, window: nat): Window {
    if Live(s.global, now, window) then s.global else Window(now, 0)
  }

  predicate Full(m: map<Account, Window>, account: Account, maxKeys: nat) { account !in m && |m| >= maxKeys }

  function Entry(m: map<Account, Window>, account: Account, now: int): Window {
    if account in m then m[account] else Window(now, 0)
  }

  ghost function Reduce(p: Policy, s: State, a: Attempt): (State, Outcome) {
    var global := Bump(Opened(s, a.at, p.window));
    if global.attempts > p.globalMaxAttempts then
      (State(s.attempts, global), Rejected(GlobalBudget, RetryAfter(a.at, global.openedAt, p.window)))
    else
      var live := Retained(s.attempts, a.at, p.window);
      if Full(live, a.account, p.maxKeys) then
        (State(live, global), Rejected(KeyCapacity, RetryAfter(a.at, Oldest(live, a.at), p.window)))
      else
        var entry := Bump(Entry(live, a.account, a.at));
        (State(live[a.account := entry], global),
         if entry.attempts > p.maxAttempts then Rejected(AccountBudget, RetryAfter(a.at, entry.openedAt, p.window))
         else Allowed)
  }

  class LoginRateLimiter {
    var state: State
    const policy: Policy

    constructor (policy: Policy, now: int)
      ensures this.policy == policy && state == Empty(now)
    {
      this.policy := policy;
      state := Empty(now);
    }

    method OldestOpening(now: int) returns (oldest: int)
      ensures |state.attempts| == 0 ==> oldest == now
      ensures |state.attempts| > 0 ==> IsOldest(state.attempts, oldest)
    {
      if |state.attempts| == 0 {
        return now;
      }
      var keys := state.attempts.Keys;
      var first :| first in keys;
      oldest := state.attempts[first].openedAt;
      while keys != {}
        invariant keys <= state.attempts.Keys
        invariant exists k :: k in state.attempts && state.attempts[k].openedAt == oldest
        invariant forall k :: k in state.attempts && k !in keys ==> oldest <= state.attempts[k].openedAt
        decreases |keys|
      {
        var k :| k in keys;
        if state.attempts[k].openedAt < oldest {
          oldest := state.attempts[k].openedAt;
        }
        keys := keys - {k};
      }
    }

    method Check(account: Account, now: int) returns (result: Result<(), nat>)
      modifies this
      ensures state == Reduce(policy, old(state), Attempt(account, now)).0
      ensures var outcome := Reduce(policy, old(state), Attempt(account, now)).1;
              result == if outcome.Allowed? then Ok(()) else Err(outcome.retryAfterSeconds)
    {
      if Elapsed(now, state.global.openedAt) >= policy.window {
        state := state.(global := Window(now, 0));
      }
      state := state.(global := Bump(state.global));
      if state.global.attempts > policy.globalMaxAttempts {
        return Err(RetryAfter(now, state.global.openedAt, policy.window));
      }
      result := CountAccount(account, now);
    }

    /** What is left of a check once the process has budget. */
    method CountAccount(account: Account, now: int) returns (result: Result<(), nat>)
      modifies this`state
      ensures var live := Retained(old(state).attempts, now, policy.window);
              var entry := Bump(Entry(live, account, now));
              if Full(live, account, policy.maxKeys) then
                && state == State(live, old(state).global)
                && result == Err(RetryAfter(now, Oldest(live, now), policy.window))
              else
                && state == State(live[account := entry], old(state).global)
                && result == if entry.attempts > policy.maxAttempts then Err(RetryAfter(now, entry.openedAt, policy.window))
                             else Ok(())
    {
      var live := map k | k in state.attempts && Elapsed(now, state.attempts[k].openedAt) < policy.window :: state.attempts[k];
      assert live == Retained(state.attempts, now, policy.window);
      state := state.(attempts := live);
      if account !in state.attempts && |state.attempts| >= policy.maxKeys {
        var oldest := OldestOpening(now);
        return Err(RetryAfter(now, oldest, policy.window));
      }
      if account !in state.attempts {
        state := state.(attempts := state.attempts[account := Window(now, 0)]);
      }
      var entry := Bump(state.attempts[account]);
      state := state.(attempts := state.attempts[account := entry]);
      assert state.attempts == live[account := entry];
      if entry.attempts > policy.maxAttempts {
        return Err(RetryAfter(now, entry.openedAt, policy.window));
      }
      return Ok(());
    }
  }

  // Runs -------------------------------------------------------------------

  ghost function StateAfter(p: Policy, s: State, h: seq<Attempt>): State {
    if h == [] then s else Reduce(p, StateAfter(p, s, h[..|h| - 1]), h[|h| - 1]).0
  }

  /** What the last attempt of a history is answered. */
  ghost function LastOutcome(p: Policy, s: State, h: seq<Attempt>): Outcome
    requires h != []
  {
    Reduce(p, StateAfter(p, s, h[..|h| - 1]), h[|h| - 1]).1
  }

  /** Attempts of `who`, or of everybody, that were allowed and stamped within one window length of `a`. */
  ghost function AllowedWithin(p: Policy, s: State, h: seq<Attempt>, who: Option<Account>, a: int): nat {
    if h == [] then 0
    else
      var last := h[|h| - 1];
      AllowedWithin(p, s, h[..|h| - 1], who, a) +
      (if (who.None? || who.value == last.account) && a <= last.at < a + p.window && LastOutcome(p, s, h).Allowed? then 1 else 0)
  }

  predicate Ordered(start: int, h: seq<Attempt>) {
    && (forall i :: 0 <= i < |h| ==> start <= h[i].at)
    && (forall i, j :: 0 <= i < j < |h| ==> h[i].at <= h[j].at)
  }

  function LastTime(start: int, h: seq<Attempt>): int { if h == [] then start else h[|h| - 1].at }

  function Min(a: nat, b: nat): nat { if a <= b then a else b }

  /** The latest stamp handled so far. */
  function Latest(start: int, h: seq<Attempt>): int {
    if h == [] then start
    else
      var before := Latest(start, h[..|h| - 1]);
      if before <= h[|h| - 1].at then h[|h| - 1].at else before
  }

  /** No attempt is handled after one that is stamped more than `late` after it. */
  predicate LateBy(start: int, h: seq<Attempt>, late: nat) {
    h == [] || (LateBy(start, h[..|h| - 1], late) && Latest(start, h[..|h| - 1]) - late <= h[|h| - 1].at)
  }

  lemma {:induction false} OrderedIsNotLate(start: int, h: seq<Attempt>)
    requires Ordered(start, h)
    ensures LateBy(start, h, 0) && Latest(start, h) == LastTime(start, h)
    decreases |h|
  {
    if h != [] {
      PrefixOrdered(start, h);
      OrderedIsNotLate(start, h[..|h| - 1]);
    }
  }

  /** Stamps late by `late`, one window length, the interval that begins at `a`, and how far apart windows open at least. */
  datatype Scene = Scene(limit: nat, a: int, length: nat, late: nat, gap: nat)

  /** A window that opened then can count an attempt stamped in the interval. */
  predicate Reaches(x: Scene, openedAt: int) { x.a - x.length < openedAt < x.a + x.length + x.late }

  /**
   * `n` attempts stamped in the interval were allowed by a counter that has this window now, or none,
   * after `closed` windows that reach the interval; `latest` is the latest stamp.
   */
  predicate Within(x: Scene, closed: nat, n: nat, w: Option<Window>, latest: int) {
    if x.length == 0 then n == 0
    else
    && (closed > 0 ==> closed * x.gap - x.gap <= 2 * x.length + x.late - 2)
    && (w.None? ==> n <= closed * x.limit && (closed > 0 ==> x.a + 1 + closed * x.gap - x.gap <= latest))
    && (w.Some? ==>
          && w.value.openedAt <= latest
          && (w.value.openedAt <= x.a - x.length ==> n == 0 && closed == 0)
          && (Reaches(x, w.value.openedAt) ==>
                && n <= closed * x.limit + Min(w.value.attempts, x.limit)
                && x.a - x.length + 1 + closed * x.gap <= w.value.openedAt)
          && (x.a + x.length + x.late <= w.value.openedAt ==> n <= closed * x.limit))
  }

  predicate Counted(x: Scene, n: nat, w: Option<Window>, now: int, m: nat, v: Option<Window>) {
    && v == Some(Bump(if w.Some? && Live(w.value, now, x.length) then w.value else Window(now, 0)))
    && (m == n || (m == n + 1 && v.value.attempts <= x.limit && x.a <= now < x.a + x.length))
  }

  /** What one attempt does to a counter: its window may expire, may open, and counts the attempt or not. */
  predicate Steps(x: Scene, n: nat, w: Option<Window>, now: int, m: nat, v: Option<Window>) {
    || (v == w && m == n)
    || (v.None? && m == n && w.Some? && !Live(w.value, now, x.length))
    || Counted(x, n, w, now, m, v)
  }

  lemma CounterStep(x: Scene, closed: nat, n: nat, w: Option<Window>, latest: int, now: int, m: nat, v: Option<Window>)
    returns (c: nat)
    requires Within(x, closed, n, w, latest) && latest - x.late <= now && x.limit < U32_MAX
    requires x.gap <= x.length && (w.None? ==> x.gap <= x.length - x.late)
    requires Steps(x, n, w, now, m, v)
    ensures Within(x, c, m, v, if latest <= now then now else latest)
  {
    c := closed;
    if v == w && m == n {
    } else if w.None? {
      CounterOpens(x, closed, n, latest, now, m, v.value);
    } else if Live(w.value, now, x.length) {
      CounterCounts(x, closed, n, w.value, latest, now, m, v.value);
    } else {
      c := CounterExpires(x, closed, n, w.value, latest, now, m, v);
    }
  }

  lemma CounterOpens(x: Scene, closed: nat, n: nat, latest: int, now: int, m: nat, v: Window)
    requires Within(x, closed, n, None, latest) && latest - x.late <= now && x.gap <= x.length - x.late
    requires Counted(x, n, None, now, m, Some(v))
    ensures Within(x, closed, m, Some(v), if latest <= now then now else latest)
  {
  }

  lemma CounterCounts(x: Scene, closed: nat, n: nat, w: Window, latest: int, now: int, m: nat, v: Window)
    requires Within(x, closed, n, Some(w), latest) && latest - x.late <= now && x.limit < U32_MAX
    requires Live(w, now, x.length) && Counted(x, n, Some(w), now, m, Some(v))
    ensures Within(x, closed, m, Some(v), if latest <= now then now else latest)
  {
  }

  /** The window has expired; another may open at once. */
  lemma CounterExpires(x: Scene, closed: nat, n: nat, w: Window, latest: int, now: int, m: nat, v: Option<Window>)
    returns (c: nat)
    requires Within(x, closed, n, Some(w), latest) && latest - x.late <= now && x.gap <= x.length
    requires !Live(w, now, x.length) && ((v.None? && m == n) || Counted(x, n, Some(w), now, m, v))
    ensures Within(x, c, m, v, if latest <= now then now else latest)
  {
    if Reaches(x, w.openedAt) {
      c := closed + 1;
      CounterCloses(x, closed, n, w, latest, now, m, v);
    } else {
      c := closed;
    }
  }

  lemma CounterCloses(x: Scene, closed: nat, n: nat, w: Window, latest: int, now: int, m: nat, v: Option<Window>)
    requires Within(x, closed, n, Some(w), latest) && latest - x.late <= now && x.gap <= x.length && Reaches(x, w.openedAt)
    requires !Live(w, now, x.length) && ((v.None? && m == n) || Counted(x, n, Some(w), now, m, v))
    ensures Within(x, closed + 1, m, v, if latest <= now then now else latest)
  {
    assert (closed + 1) * x.gap == closed * x.gap + x.gap;
    assert (closed + 1) * x.limit == closed * x.limit + x.limit;
  }

  lemma ProductGrows(a: nat, b: nat, c: nat)
    requires a <= b
    ensures a * c <= b * c
  {
  }

  /** No more than `windows` windows that far apart can all reach the interval. */
  predicate FewWindows(windows: nat, gap: int, length: nat, late: nat) { windows * gap > 2 * length + late - 2 }

  lemma FitsInto(closed: nat, windows: nat, gap: nat, span: int)
    requires closed * gap - gap <= span && windows * gap > span
    ensures closed <= windows
    ensures closed * gap <= span ==> closed < windows
  {
    if closed > windows {
      ProductGrows(windows + 1, closed, gap);
      assert false;
    }
  }

  /** However many windows reach the interval, that is all that can be allowed in it. */
  lemma WithinIsBounded(x: Scene, closed: nat, n: nat, w: Option<Window>, latest: int, windows: nat)
    requires Within(x, closed, n, w, latest) && FewWindows(windows, x.gap, x.length, x.late)
    ensures n <= windows * x.limit
  {
    if x.length > 0 {
      if closed > 0 { FitsInto(closed, windows, x.gap, 2 * x.length + x.late - 2); }
      if closed < windows { ProductGrows(closed + 1, windows, x.limit); }
    }
  }

  function WindowOf(s: State, account: Account): Option<Window> {
    if account in s.attempts then Some(s.attempts[account]) else None
  }

  lemma PrefixOrdered(start: int, h: seq<Attempt>)
    requires Ordered(start, h) && h != []
    ensures Ordered(start, h[..|h| - 1]) && LastTime(start, h[..|h| - 1]) <= h[|h| - 1].at
  {
  }

  /** The windows of an account open at least a window length less the lateness apart. */
  lemma {:induction false} AccountCounter(p: Policy, start: int, h: seq<Attempt>, account: Account, x: Scene) returns (closed: nat)
    requires LateBy(start, h, x.late) && p.maxAttempts == x.limit < U32_MAX && p.window == x.length
    requires x.gap + x.late <= x.length
    ensures Within(x, closed, AllowedWithin(p, Empty(start), h, Some(account), x.a),
                   WindowOf(StateAfter(p, Empty(start), h), account), Latest(start, h))
    decreases |h|
  {
    if h == [] {
      closed := 0;
    } else {
      var before, last := h[..|h| - 1], h[|h| - 1];
      closed := AccountCounter(p, start, before, account, x);
      closed := CounterStep(x, closed, AllowedWithin(p, Empty(start), before, Some(account), x.a),
                            WindowOf(StateAfter(p, Empty(start), before), account), Latest(start, before), last.at,
                            AllowedWithin(p, Empty(start), h, Some(account), x.a),
                            WindowOf(StateAfter(p, Empty(start), h), account));
    }
  }

  /** Global windows open at least a window length apart, however late the stamps are. */
  lemma {:induction false} GlobalCounter(p: Policy, start: int, h: seq<Attempt>, x: Scene) returns (closed: nat)
    requires LateBy(start, h, x.late) && p.globalMaxAttempts == x.limit < U32_MAX && p.window == x.length == x.gap
    ensures Within(x, closed, AllowedWithin(p, Empty(start), h, None, x.a),
                   Some(StateAfter(p, Empty(start), h).global), Latest(start, h))
    decreases |h|
  {
    if h == [] {
      closed := 0;
    } else {
      var before, last := h[..|h| - 1], h[|h| - 1];
      closed := GlobalCounter(p, start, before, x);
      closed := CounterStep(x, closed, AllowedWithin(p, Empty(start), before, None, x.a),
                            Some(StateAfter(p, Empty(start), before).global), Latest(start, before), last.at,
                            AllowedWithin(p, Empty(start), h, None, x.a),
                            Some(StateAfter(p, Empty(start), h).global));
    }
  }

  lemma AccountIsBounded(p: Policy, start: int, h: seq<Attempt>, account: Account, a: int, late: nat, windows: nat)
    requires LateBy(start, h, late) && late <= p.window && FewWindows(windows, p.window - late, p.window, late)
    requires p.maxAttempts < U32_MAX
    ensures AllowedWithin(p, Empty(start), h, Some(account), a) <= windows * p.maxAttempts
  {
    var x := Scene(p.maxAttempts, a, p.window, late, p.window - late);
    var closed := AccountCounter(p, start, h, account, x);
    WithinIsBounded(x, closed, AllowedWithin(p, Empty(start), h, Some(account), a),
                    WindowOf(StateAfter(p, Empty(start), h), account), Latest(start, h), windows);
  }

  lemma EverybodyIsBounded(p: Policy, start: int, h: seq<Attempt>, a: int, late: nat, windows: nat)
    requires LateBy(start, h, late) && FewWindows(windows, p.window, p.window, late) && p.globalMaxAttempts < U32_MAX
    ensures AllowedWithin(p, Empty(start), h, None, a) <= windows * p.globalMaxAttempts
  {
    var x := Scene(p.globalMaxAttempts, a, p.window, late, p.window);
    var closed := GlobalCounter(p, start, h, x);
    WithinIsBounded(x, closed, AllowedWithin(p, Empty(start), h, None, a),
                    Some(StateAfter(p, Empty(start), h).global), Latest(start, h), windows);
  }

  /**
   * With stamps at most `late` late, in any half-open interval of one window length an account is allowed as
   * many times its budget as windows that far apart can reach the interval, and so is everybody theirs.
   */
  lemma LateAllowedIsBounded(p: Policy, start: int, h: seq<Attempt>, account: Account, a: int, late: nat, windows: nat)
    requires LateBy(start, h, late)
    ensures p.maxAttempts < U32_MAX && late <= p.window && FewWindows(windows, p.window - late, p.window, late) ==>
              AllowedWithin(p, Empty(start), h, Some(account), a) <= windows * p.maxAttempts
    ensures p.globalMaxAttempts < U32_MAX && FewWindows(windows, p.window, p.window, late) ==>
              AllowedWithin(p, Empty(start), h, None, a) <= windows * p.globalMaxAttempts
  {
    if p.maxAttempts < U32_MAX && late <= p.window && FewWindows(windows, p.window - late, p.window, late) {
      AccountIsBounded(p, start, h, account, a, late, windows);
    }
    if p.globalMaxAttempts < U32_MAX && FewWindows(windows, p.window, p.window, late) {
      EverybodyIsBounded(p, start, h, a, late, windows);
    }
  }

  /** In order, one account is allowed twice its budget in any half-open interval of one window length, and everybody twice theirs. */
  lemma AllowedIsBounded(p: Policy, start: int, h: seq<Attempt>, account: Account, a: int)
    requires Ordered(start, h)
    ensures p.maxAttempts < U32_MAX ==> AllowedWithin(p, Empty(start), h, Some(account), a) <= 2 * p.maxAttempts
    ensures p.globalMaxAttempts < U32_MAX ==> AllowedWithin(p, Empty(start), h, None, a) <= 2 * p.globalMaxAttempts
  {
    OrderedIsNotLate(start, h);
    LateAllowedIsBounded(p, start, h, account, a, 0, 2);
  }

  /** Late by at most a quarter of the window, three times. */
  lemma AllowedThriceIfLittleLate(p: Policy, start: int, h: seq<Attempt>, account: Account, a: int, late: nat)
    requires LateBy(start, h, late) && 4 * late <= p.window
    ensures p.maxAttempts < U32_MAX ==> AllowedWithin(p, Empty(start), h, Some(account), a) <= 3 * p.maxAttempts
    ensures p.globalMaxAttempts < U32_MAX ==> AllowedWithin(p, Empty(start), h, None, a) <= 3 * p.globalMaxAttempts
  {
    LateAllowedIsBounded(p, start, h, account, a, late, 3);
  }

  /** Counters saturate, so a budget at the top of the counter's range is no budget. */
  lemma FullRangeBudgetsNeverReject(p: Policy, s: State, a: Attempt)
    ensures p.maxAttempts >= U32_MAX ==> !(Reduce(p, s, a).1.Rejected? && Reduce(p, s, a).1.reason.AccountBudget?)
    ensures p.globalMaxAttempts >= U32_MAX ==> !(Reduce(p, s, a).1.Rejected? && Reduce(p, s, a).1.reason.GlobalBudget?)
  {
  }

  lemma RetainedIsSmaller(m: map<Account, Window>, now: int, window: nat)
    ensures |Retained(m, now, window)| <= |m|
  {
    var r := Retained(m, now, window);
    assert r.Keys <= m.Keys;
    SubsetIsSmaller(r.Keys, m.Keys);
  }

  lemma SubsetIsSmaller(a: set<Account>, b: set<Account>)
    requires a <= b
    ensures |a| <= |b|
  {
    assert b == a + (b - a);
  }

  /** Whatever the times, the map never outgrows its bound. */
  lemma {:induction false} KeysAreBounded(p: Policy, start: int, h: seq<Attempt>)
    ensures |StateAfter(p, Empty(start), h).attempts| <= p.maxKeys
    decreases |h|
  {
    if h != [] {
      var s, last := StateAfter(p, Empty(start), h[..|h| - 1]), h[|h| - 1];
      KeysAreBounded(p, start, h[..|h| - 1]);
      RetainedIsSmaller(s.attempts, last.at, p.window);
      var live := Retained(s.attempts, last.at, p.window);
      if last.account in live {
        assert live.Keys + {last.account} == live.Keys;
      }
      var entry := Bump(Entry(live, last.account, last.at));
      assert live[last.account := entry].Keys == live.Keys + {last.account};
    }
  }

  // Isolation --------------------------------------------------------------

  /** All attempts are by others, while the account's window runs. */
  predicate OthersDuring(h: seq<Attempt>, account: Account, until: int) {
    forall i :: 0 <= i < |h| ==> h[i].account != account && h[i].at < until
  }

  /** No activity of other accounts changes a live window. */
  lemma {:induction false} OthersCannotTouchAWindow(p: Policy, s: State, h: seq<Attempt>, account: Account)
    requires account in s.attempts && p.window > 0
    requires OthersDuring(h, account, s.attempts[account].openedAt + p.window)
    ensures WindowOf(StateAfter(p, s, h), account) == Some(s.attempts[account])
    decreases |h|
  {
    if h != [] {
      OthersCannotTouchAWindow(p, s, h[..|h| - 1], account);
      assert h[|h| - 1].at < s.attempts[account].openedAt + p.window;
    }
  }

  // Retry-after ------------------------------------------------------------

  predicate ByOthers(h: seq<Attempt>, account: Account) { forall i :: 0 <= i < |h| ==> h[i].account != account }

  /** Other accounts can only wait for a window to end; they never open or extend one. */
  lemma {:induction false} OthersOnlyExpire(p: Policy, s: State, h: seq<Attempt>, account: Account)
    requires ByOthers(h, account)
    ensures WindowOf(StateAfter(p, s, h), account).Some? ==> WindowOf(StateAfter(p, s, h), account) == WindowOf(s, account)
    decreases |h|
  {
    if h != [] {
      OthersOnlyExpire(p, s, h[..|h| - 1], account);
    }
  }

  predicate OutOfBudget(o: Outcome) { o.Rejected? && o.reason.AccountBudget? }

  /** A history in which the account, told to wait, makes no attempt of its own until `again`. */
  ghost predicate Waits(p: Policy, s: State, a: Attempt, h: seq<Attempt>, again: int) {
    && OutOfBudget(Reduce(p, s, a).1)
    && ByOthers(h, a.account)
    && Ordered(a.at, h) && LastTime(a.at, h) <= again
    && (a.account in s.attempts ==> s.attempts[a.account].openedAt <= a.at)
  }

  /** The answer to a blocked account is exact: every attempt more than a second early is rejected ... */
  lemma TooEarlyIsRejected(p: Policy, s: State, a: Attempt, h: seq<Attempt>, again: int)
    requires Waits(p, s, a, h, again)
    requires again <= a.at + (Reduce(p, s, a).1.retryAfterSeconds - 1) * SECOND
    ensures Reduce(p, StateAfter(p, Reduce(p, s, a).0, h), Attempt(a.account, again)).1.Rejected?
  {
    var t := Reduce(p, s, a).0;
    var entry := t.attempts[a.account];
    if p.window > 0 {
      assert again < entry.openedAt + p.window;
      forall i | 0 <= i < |h| ensures h[i].at < entry.openedAt + p.window {
        assert h[i].at <= LastTime(a.at, h);
      }
      OthersCannotTouchAWindow(p, t, h, a.account);
    }
  }

  /** ... and none from that second on is rejected for the account's budget, if it has any. */
  lemma OnTimeIsNotOutOfBudget(p: Policy, s: State, a: Attempt, h: seq<Attempt>, again: int)
    requires Waits(p, s, a, h, again) && p.maxAttempts >= 1
    requires again >= a.at + Reduce(p, s, a).1.retryAfterSeconds * SECOND
    ensures !OutOfBudget(Reduce(p, StateAfter(p, Reduce(p, s, a).0, h), Attempt(a.account, again)).1)
  {
    var t := Reduce(p, s, a).0;
    var entry := t.attempts[a.account];
    OthersOnlyExpire(p, t, h, a.account);
    assert again >= entry.openedAt + p.window;
    assert !Live(entry, again, p.window);
  }

  lemma {:induction false} OpenedInThePast(p: Policy, start: int, h: seq<Attempt>, account: Account)
    requires Ordered(start, h)
    ensures var w := WindowOf(StateAfter(p, Empty(start), h), account);
            w.Some? ==> w.value.openedAt <= LastTime(start, h)
    decreases |h|
  {
    if h != [] {
      PrefixOrdered(start, h);
      OpenedInThePast(p, start, h[..|h| - 1], account);
    }
  }

  lemma {:induction false} StateAfterJoin(p: Policy, s: State, g: seq<Attempt>, h: seq<Attempt>)
    ensures StateAfter(p, s, g + h) == StateAfter(p, StateAfter(p, s, g), h)
    decreases |h|
  {
    if h == [] {
      assert g + h == g;
    } else {
      assert (g + h)[..|g + h| - 1] == g + h[..|h| - 1];
      StateAfterJoin(p, s, g, h[..|h| - 1]);
    }
  }

  lemma LastStep(p: Policy, s: State, h: seq<Attempt>, x: Attempt)
    ensures StateAfter(p, s, h + [x]) == Reduce(p, StateAfter(p, s, h), x).0
    ensures LastOutcome(p, s, h + [x]) == Reduce(p, StateAfter(p, s, h), x).1
  {
    assert (h + [x])[..|h + [x]| - 1] == h;
  }

  /** Both halves over any run whose times do not go back. */
  lemma RetryAfterIsExact(p: Policy, start: int, before: seq<Attempt>, a: Attempt, h: seq<Attempt>, again: int)
    requires Ordered(start, before) && LastTime(start, before) <= a.at
    requires OutOfBudget(LastOutcome(p, Empty(start), before + [a]))
    requires ByOthers(h, a.account) && Ordered(a.at, h) && LastTime(a.at, h) <= again
    ensures var wait := LastOutcome(p, Empty(start), before + [a]).retryAfterSeconds;
            var answer := LastOutcome(p, Empty(start), before + [a] + h + [Attempt(a.account, again)]);
            && (again <= a.at + (wait - 1) * SECOND ==> answer.Rejected?)
            && (again >= a.at + wait * SECOND && p.maxAttempts >= 1 ==> !OutOfBudget(answer))
  {
    var s := StateAfter(p, Empty(start), before);
    LastStep(p, Empty(start), before, a);
    StateAfterJoin(p, Empty(start), before + [a], h);
    LastStep(p, Empty(start), before + [a] + h, Attempt(a.account, again));
    OpenedInThePast(p, start, before, a.account);
    assert Waits(p, s, a, h, again);
    var wait := Reduce(p, s, a).1.retryAfterSeconds;
    if again <= a.at + (wait - 1) * SECOND { TooEarlyIsRejected(p, s, a, h, again); }
    if again >= a.at + wait * SECOND && p.maxAttempts >= 1 { OnTimeIsNotOutOfBudget(p, s, a, h, again); }
  }

  // Every answer -----------------------------------------------------------

  /** The window still counts at this time. */
  predicate Counts(w: Window, at: int, length: nat) { length > 0 && at < w.openedAt + length }

  /** Accounts whose windows still count. */
  function Counting(s: State, at: int, length: nat): set<Account> {
    set k | k in s.attempts && Counts(s.attempts[k], at, length)
  }

  /** How many attempts a window has counted before this one, if it still counts. */
  function CountedBefore(w: Option<Window>, at: int, length: nat): nat {
    if w.Some? && Counts(w.value, at, length) then w.value.attempts else 0
  }

  /**
   * An attempt is allowed exactly if the process, the table of accounts and the account all have room for it in the
   * windows that still count, and otherwise it is refused for the first of the three that has not. A budget at the top
   * of the counter's range always has room.
   */
  lemma OutcomeIsExact(p: Policy, s: State, a: Attempt)
    ensures var (t, outcome) := Reduce(p, s, a);
            var others := Counting(s, a.at, p.window);
            if CountedBefore(Some(s.global), a.at, p.window) >= p.globalMaxAttempts && p.globalMaxAttempts < 0xFFFF_FFFF then
              outcome.Rejected? && outcome.reason == GlobalBudget
            else if a.account !in others && |others| >= p.maxKeys then
              outcome.Rejected? && outcome.reason == KeyCapacity
            else if CountedBefore(WindowOf(s, a.account), a.at, p.window) >= p.maxAttempts && p.maxAttempts < 0xFFFF_FFFF then
              outcome.Rejected? && outcome.reason == AccountBudget
            else outcome.Allowed?
  {
    var live := Retained(s.attempts, a.at, p.window);
    assert live.Keys == Counting(s, a.at, p.window) && |live| == |live.Keys|;
  }

  /** So many whole seconds, and not one less, reach from `at` to the end of the window; at least one. */
  predicate ReachesTheEnd(seconds: nat, w: Window, at: int, length: nat) {
    var rest := if at < w.openedAt then length else w.openedAt + length - at;
    seconds >= 1 && rest <= seconds * SECOND && (seconds > 1 ==> (seconds - 1) * SECOND < rest)
  }

  /** Whoever is refused is told when the window ends that refused it: the process's, its own, or the one that ends first. */
  lemma RefusalTellsWhenToRetry(p: Policy, s: State, a: Attempt)
    ensures var (t, outcome) := Reduce(p, s, a);
            outcome.Rejected? ==>
              match outcome.reason
              case GlobalBudget => ReachesTheEnd(outcome.retryAfterSeconds, t.global, a.at, p.window)
              case AccountBudget =>
                a.account in t.attempts && ReachesTheEnd(outcome.retryAfterSeconds, t.attempts[a.account], a.at, p.window)
              case KeyCapacity =>
                if t.attempts == map[] then ReachesTheEnd(outcome.retryAfterSeconds, Window(a.at, 0), a.at, p.window)
                else
                  exists k | k in t.attempts ::
                    && (forall j | j in t.attempts :: t.attempts[k].openedAt <= t.attempts[j].openedAt)
                    && ReachesTheEnd(outcome.retryAfterSeconds, t.attempts[k], a.at, p.window)
  {
    var (t, outcome) := Reduce(p, s, a);
    if outcome.Rejected? {
      var live := Retained(s.attempts, a.at, p.window);
      if outcome.reason == KeyCapacity {
        var at := Oldest(live, a.at);
        if live == map[] {
          RetryAfterReaches(a.at, Window(a.at, 0), p.window);
        } else {
          var some :| some in live;
          assert |live| > 0;
          var k :| k in live && live[k].openedAt == at;
          RetryAfterReaches(a.at, live[k], p.window);
        }
      } else if outcome.reason == AccountBudget {
        RetryAfterReaches(a.at, t.attempts[a.account], p.window);
      } else if outcome.reason == GlobalBudget {
        RetryAfterReaches(a.at, t.global, p.window);
      }
    }
  }

  lemma RetryAfterReaches(now: int, w: Window, window: nat)
    requires now < w.openedAt || now < w.openedAt + window || window == 0
    ensures ReachesTheEnd(RetryAfter(now, w.openedAt, window), w, now, window)
  {
  }

  /** A process out of budget refuses everybody for its budget until its window ends ... */
  lemma {:induction false} GlobalRefusalLasts(p: Policy, s: State, h: seq<Attempt>)
    requires s.global.attempts > p.globalMaxAttempts && p.globalMaxAttempts < U32_MAX && s.global.attempts <= U32_MAX
    requires forall i | 0 <= i < |h| :: Counts(s.global, h[i].at, p.window)
    ensures StateAfter(p, s, h).global.openedAt == s.global.openedAt
    ensures p.globalMaxAttempts < StateAfter(p, s, h).global.attempts <= U32_MAX
    decreases |h|
  {
    if h != [] {
      GlobalRefusalLasts(p, s, h[..|h| - 1]);
    }
  }

  predicate OutOfGlobalBudget(o: Outcome) { o.Rejected? && o.reason.GlobalBudget? }

  /** ... and its answer says when: whatever anybody tries until then is refused, and the first attempt after it is not. */
  lemma GlobalRetryAfterIsExact(p: Policy, s: State, a: Attempt, h: seq<Attempt>, again: Attempt)
    requires OutOfGlobalBudget(Reduce(p, s, a).1) && 1 <= p.globalMaxAttempts < U32_MAX && p.window > 0
    requires s.global.attempts <= U32_MAX && s.global.openedAt <= a.at
    requires var wait := Reduce(p, s, a).1.retryAfterSeconds;
             forall i | 0 <= i < |h| :: h[i].at <= a.at + (wait - 1) * SECOND
    ensures var wait := Reduce(p, s, a).1.retryAfterSeconds;
            var outcome := Reduce(p, StateAfter(p, Reduce(p, s, a).0, h), again).1;
            && (again.at <= a.at + (wait - 1) * SECOND ==> OutOfGlobalBudget(outcome))
            && (again.at >= a.at + wait * SECOND ==> !OutOfGlobalBudget(outcome))
  {
    RefusalTellsWhenToRetry(p, s, a);
    var t := Reduce(p, s, a).0;
    GlobalRefusalLasts(p, t, h);
  }

  // Times out of order -------------------------------------------------------

  /** Accounts 0 and 1 and nobody else. */
  datatype Board = Board(first: Option<Window>, second: Option<Window>, global: Window)

  predicate Shows(s: State, b: Board) {
    s.attempts.Keys <= {0, 1} && WindowOf(s, 0) == b.first && WindowOf(s, 1) == b.second && s.global == b.global
  }

  function Kept(w: Option<Window>, now: int, window: nat): Option<Window> {
    if w.Some? && Live(w.value, now, window) then w else None
  }

  function Played(w: Option<Window>, now: int, window: nat): Window {
    Bump(if Kept(w, now, window).Some? then w.value else Window(now, 0))
  }

  function PlayedGlobal(p: Policy, b: Board, now: int): Window {
    Bump(if Live(b.global, now, p.window) then b.global else Window(now, 0))
  }

  function Play(p: Policy, b: Board, x: Attempt): Board {
    if x.account == 0 then
      Board(Some(Played(b.first, x.at, p.window)), Kept(b.second, x.at, p.window), PlayedGlobal(p, b, x.at))
    else
      Board(Kept(b.first, x.at, p.window), Some(Played(b.second, x.at, p.window)), PlayedGlobal(p, b, x.at))
  }

  /** The board, how often account 0 was allowed in the interval from `a`, and the latest stamp. */
  datatype Tally = Tally(board: Board, allowed: nat, latest: int)

  const START := Tally(Board(None, None, Window(0, 0)), 0, 0)

  function TallyStep(p: Policy, a: int, t: Tally, x: Attempt): Tally {
    var b := Play(p, t.board, x);
    Tally(b,
          t.allowed + if x.account == 0 && a <= x.at < a + p.window && b.first.value.attempts <= p.maxAttempts then 1 else 0,
          if t.latest <= x.at then x.at else t.latest)
  }

  /** One of the two comes, not too late, while the process has budget. */
  predicate CanCome(p: Policy, late: nat, t: Tally, x: Attempt) {
    x.account <= 1 && t.latest - late <= x.at && PlayedGlobal(p, t.board, x.at).attempts <= p.globalMaxAttempts
  }

  function TallyAfter(p: Policy, a: int, h: seq<Attempt>): Tally {
    if h == [] then START else TallyStep(p, a, TallyAfter(p, a, h[..|h| - 1]), h[|h| - 1])
  }

  predicate AllCome(p: Policy, a: int, late: nat, h: seq<Attempt>) {
    h == [] || (AllCome(p, a, late, h[..|h| - 1]) && CanCome(p, late, TallyAfter(p, a, h[..|h| - 1]), h[|h| - 1]))
  }

  lemma PlayIsReduce(p: Policy, s: State, b: Board, x: Attempt)
    requires Shows(s, b) && x.account <= 1 && p.maxKeys >= 2 && PlayedGlobal(p, b, x.at).attempts <= p.globalMaxAttempts
    ensures var (t, outcome) := Reduce(p, s, x);
            var c := Play(p, b, x);
            Shows(t, c) && (outcome.Allowed? <==> (if x.account == 0 then c.first.value else c.second.value).attempts <= p.maxAttempts)
  {
    var live := Retained(s.attempts, x.at, p.window);
    if x.account !in live {
      assert live.Keys <= {1 - x.account};
      SubsetIsSmaller(live.Keys, {1 - x.account});
    }
  }

  /** The tally is what the limiter does. */
  lemma {:induction false} TallyIsExact(p: Policy, a: int, late: nat, h: seq<Attempt>)
    requires AllCome(p, a, late, h) && p.maxKeys >= 2
    ensures LateBy(0, h, late) && Latest(0, h) == TallyAfter(p, a, h).latest
    ensures Shows(StateAfter(p, Empty(0), h), TallyAfter(p, a, h).board)
    ensures AllowedWithin(p, Empty(0), h, Some(0), a) == TallyAfter(p, a, h).allowed
    decreases |h|
  {
    if h != [] {
      var before := h[..|h| - 1];
      TallyIsExact(p, a, late, before);
      PlayIsReduce(p, StateAfter(p, Empty(0), before), TallyAfter(p, a, before).board, h[|h| - 1]);
    }
  }

  /** Such a history with this tally. */
  predicate Gives(p: Policy, a: int, late: nat, h: seq<Attempt>, t: Tally) {
    AllCome(p, a, late, h) && TallyAfter(p, a, h) == t
  }

  lemma Begin(p: Policy, a: int, late: nat) returns (h: seq<Attempt>)
    ensures Gives(p, a, late, h, START)
  {
    h := [];
  }

  lemma Move(p: Policy, a: int, late: nat, h: seq<Attempt>, t: Tally, x: Attempt) returns (g: seq<Attempt>, u: Tally)
    requires Gives(p, a, late, h, t) && CanCome(p, late, t, x)
    ensures u == TallyStep(p, a, t, x) && Gives(p, a, late, g, u)
  {
    g, u := h + [x], TallyStep(p, a, t, x);
    assert g[..|g| - 1] == h;
  }

  /** Account 0 is allowed at time 0, and account 1 ends its window a window length later. */
  lemma Rounds(p: Policy, n: nat) returns (h: seq<Attempt>, t: Tally)
    requires p.window > 0 && p.maxAttempts >= 1 && 2 * n <= p.globalMaxAttempts
    ensures Gives(p, 0, p.window, h, t) && t.allowed == n && t.latest == (if n == 0 then 0 else p.window)
    ensures t.board.first.None? && t.board.global.openedAt == t.latest && t.board.global.attempts <= 2 * n
  {
    if n == 0 {
      t := START;
      h := Begin(p, 0, p.window);
    } else {
      h, t := Rounds(p, n - 1);
      h, t := Move(p, 0, p.window, h, t, Attempt(0, 0));
      h, t := Move(p, 0, p.window, h, t, Attempt(1, p.window));
    }
  }

  /**
   * The stamp is taken before the lock. Account 1, stamped a window length later and handled between, ends
   * account 0's window again and again: then it is allowed as often as the global budget lets two attempts through.
   */
  lemma LateByAWindowIsUnbounded(p: Policy, n: nat) returns (h: seq<Attempt>)
    requires p.window > 0 && p.maxAttempts >= 1 && p.maxKeys >= 2 && 2 * n <= p.globalMaxAttempts
    ensures LateBy(0, h, p.window) && AllowedWithin(p, Empty(0), h, Some(0), 0) == n
  {
    var t: Tally;
    h, t := Rounds(p, n);
    TallyIsExact(p, 0, p.window, h);
  }

  /** With stamps this late an account is allowed so many times in a window length, whatever the global budget. */
  ghost predicate BoundsAccounts(p: Policy, late: nat, bound: nat) {
    forall global: nat, start, h, account, a | LateBy(start, h, late) ::
      AllowedWithin(p.(globalMaxAttempts := global), Empty(start), h, Some(account), a) <= bound
  }

  lemma {:induction false} LaterIsLate(start: int, h: seq<Attempt>, late: nat, later: nat)
    requires LateBy(start, h, late) && late <= later
    ensures LateBy(start, h, later)
    decreases |h|
  {
    if h != [] {
      LaterIsLate(start, h[..|h| - 1], late, later);
    }
  }

  lemma LessThanAWindowIsBounded(p: Policy, late: nat) returns (bound: nat)
    requires late < p.window && p.maxAttempts < U32_MAX
    ensures BoundsAccounts(p, late, bound)
  {
    var windows := 2 * p.window + late;
    assert FewWindows(windows, p.window - late, p.window, late) by { ProductGrows(1, p.window - late, windows); }
    bound := windows * p.maxAttempts;
    forall global: nat, start, h, account, a | LateBy(start, h, late)
      ensures AllowedWithin(p.(globalMaxAttempts := global), Empty(start), h, Some(account), a) <= bound
    {
      AccountIsBounded(p.(globalMaxAttempts := global), start, h, account, a, late, windows);
    }
  }

  lemma AWindowIsUnbounded(p: Policy, late: nat, bound: nat)
    requires 0 < p.window <= late && p.maxAttempts >= 1 && p.maxKeys >= 2
    ensures !BoundsAccounts(p, late, bound)
  {
    var q := p.(globalMaxAttempts := 2 * bound + 2);
    var h := LateByAWindowIsUnbounded(q, bound + 1);
    LaterIsLate(0, h, p.window, late);
    assert AllowedWithin(p.(globalMaxAttempts := 2 * bound + 2), Empty(0), h, Some(0), 0) > bound;
  }

  /** An account's budget bounds anything, whatever the global budget, if and only if no stamp is as late as a window length. */
  lemma LatenessIsExact(p: Policy, late: nat)
    requires p.window > 0 && 1 <= p.maxAttempts < U32_MAX && p.maxKeys >= 2
    ensures (exists bound: nat :: BoundsAccounts(p, late, bound)) <==> late < p.window
  {
    if late < p.window {
      var bound := LessThanAWindowIsBounded(p, late);
    } else {
      forall bound: nat ensures !BoundsAccounts(p, late, bound) { AWindowIsUnbounded(p, late, bound); }
    }
  }

  /** A policy with room for three budgets in two windows. */
  predicate Roomy(p: Policy) {
    p.window >= 2 && 2 <= p.maxAttempts < U32_MAX && p.maxKeys >= 2 && p.globalMaxAttempts >= 3 * p.maxAttempts + 2
  }

  /** So many allowed, account 0's window, when account 1's opened if it has one, and when the global one did after how many at most. */
  predicate Stands(p: Policy, h: seq<Attempt>, t: Tally, allowed: nat, latest: int, first: Option<Window>, second: Option<int>,
                         global: int, used: nat)
  {
    && Gives(p, p.window, 1, h, t) && t.allowed == allowed && t.latest == latest
    && t.board.first == first && (t.board.second.Some? <==> second.Some?)
    && (second.Some? ==> t.board.second.value.openedAt == second.value)
    && t.board.global.openedAt == global && t.board.global.attempts <= used
  }

  /** Account 0 has so many attempts left at this stamp, and all windows live. */
  predicate CanUse(p: Policy, t: Tally, at: int, times: nat) {
    && t.latest - 1 <= at <= t.latest && p.window <= at < 2 * p.window && p.maxAttempts < U32_MAX
    && t.board.first.Some? && Live(t.board.first.value, at, p.window) && t.board.first.value.attempts + times <= p.maxAttempts
    && (t.board.second.Some? ==> Live(t.board.second.value, at, p.window))
    && Live(t.board.global, at, p.window) && t.board.global.attempts + times <= p.globalMaxAttempts
  }

  predicate Used(t: Tally, u: Tally, times: nat) {
    && u.allowed == t.allowed + times && u.latest == t.latest && u.board.second == t.board.second
    && t.board.first.Some? && u.board.first == Some(Window(t.board.first.value.openedAt, t.board.first.value.attempts + times))
    && u.board.global.openedAt == t.board.global.openedAt && u.board.global.attempts <= t.board.global.attempts + times
  }

  lemma UseOne(p: Policy, h: seq<Attempt>, t: Tally, at: int, times: nat) returns (g: seq<Attempt>, u: Tally)
    requires Gives(p, p.window, 1, h, t) && CanUse(p, t, at, times) && times > 0
    ensures Gives(p, p.window, 1, g, u) && Used(t, u, 1) && CanUse(p, u, at, times - 1)
  {
    g, u := Move(p, p.window, 1, h, t, Attempt(0, at));
  }

  lemma {:induction false} UseUp(p: Policy, h: seq<Attempt>, t: Tally, at: int, times: nat) returns (g: seq<Attempt>, u: Tally)
    requires Gives(p, p.window, 1, h, t) && CanUse(p, t, at, times)
    ensures Gives(p, p.window, 1, g, u) && Used(t, u, times)
    decreases times
  {
    g, u := h, t;
    if times > 0 {
      g, u := UseOne(p, h, t, at, times);
      g, u := UseUp(p, g, u, at, times - 1);
    }
  }

  /** One window opens before the interval ... */
  lemma FirstOpens(p: Policy) returns (h: seq<Attempt>, t: Tally)
    requires Roomy(p)
    ensures Stands(p, h, t, 1, p.window, Some(Window(1, 2)), None, p.window, 1)
  {
    h := Begin(p, p.window, 1);
    h, t := Move(p, p.window, 1, h, START, Attempt(0, 1));
    h, t := Move(p, p.window, 1, h, t, Attempt(0, p.window));
  }

  /** ... counts all but once in it, and is ended by account 1 ... */
  lemma FirstEnds(p: Policy) returns (h: seq<Attempt>, t: Tally)
    requires Roomy(p)
    ensures Stands(p, h, t, p.maxAttempts - 1, p.window + 1, None, Some(p.window + 1), p.window, p.maxAttempts)
  {
    h, t := FirstOpens(p);
    h, t := UseUp(p, h, t, p.window, p.maxAttempts - 2);
    h, t := Move(p, p.window, 1, h, t, Attempt(1, p.window + 1));
  }

  /** ... so that the next opens a little less than a window length after it, counts its whole budget, and is ended alike. */
  lemma SecondEnds(p: Policy) returns (h: seq<Attempt>, t: Tally)
    requires Roomy(p)
    ensures Stands(p, h, t, 2 * p.maxAttempts - 1, 2 * p.window, None, Some(p.window + 1), 2 * p.window, 1)
  {
    h, t := FirstEnds(p);
    h, t := Move(p, p.window, 1, h, t, Attempt(0, p.window));
    h, t := UseUp(p, h, t, p.window, p.maxAttempts - 1);
    h, t := Move(p, p.window, 1, h, t, Attempt(1, 2 * p.window));
  }

  /** Twice the budget holds in order only: with stamps late by the least there is, all but one of three budgets are allowed. */
  lemma TwiceNeedsOrder(p: Policy) returns (h: seq<Attempt>)
    requires Roomy(p)
    ensures LateBy(0, h, 1) && AllowedWithin(p, Empty(0), h, Some(0), p.window) == 3 * p.maxAttempts - 1 > 2 * p.maxAttempts
  {
    var t: Tally;
    h, t := SecondEnds(p);
    h, t := Move(p, p.window, 1, h, t, Attempt(0, 2 * p.window - 1));
    h, t := UseUp(p, h, t, 2 * p.window - 1, p.maxAttempts - 1);
    TallyIsExact(p, p.window, 1, h);
  }
}
