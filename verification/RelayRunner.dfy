// The relay loop: check the token, refresh the settings every so many pushes,
// push a snapshot, sleep; back off while pushes fail, stop for good on a 401.
module RelayRunner {
  import opened Wrappers
  import opened Text
  import opened Numbers
  import opened RelaySettings

  const MAX_BACKOFF := 15 * MINUTE

  // nextPushDelay: the sleep and the backoff to remember.
  function NextPushDelay(interval: int, backoff: int, failed: bool): (int, int) {
    if !failed then (interval, 0)
    else
      var doubled := Int64(backoff * 2);
      var next := if doubled <= 0 then interval else doubled;
      var capped := if next > MAX_BACKOFF then MAX_BACKOFF else next;
      (capped, capped)
  }

  datatype FetchReply = Received(values: map<string, string>) | FetchFailed | FetchUnauthorized
  datatype PushReply = Uploaded | PushFailed | PushUnauthorized

  // What one turn of the loop meets: the clock, the backend's answers to the
  // requests it may make, and whether its sleep ran to the end.
  datatype Turn = Turn(now: int, fetch: FetchReply, push: PushReply, slept: bool)

  // What one turn of the loop did; interval and refreshEvery are those in force
  // once any fetch is over.
  datatype Iteration = Iteration(
    now: int,
    fetched: Option<FetchReply>,
    interval: int,
    refreshEvery: int,
    pushed: Option<PushReply>,
    delay: Option<int>)

  datatype End = BadConfig | TokenExpired | Reenroll | Cancelled | StillRunning

  predicate TokenValid(expires: Option<int>, now: int) {
    expires.None? || now < expires.value
  }

  // The variables of the loop.
  datatype State = State(view: View, pushes: int, backoff: int)

  const START := State(DEFAULTS, DEFAULTS.refreshEvery, 0)

  // One turn, and the state it leaves; None when the loop ends in it.
  function Iterate(expires: Option<int>, st: State, t: Turn): (Iteration, Option<State>) {
    if !TokenValid(expires, t.now) then
      (Iteration(t.now, None, st.view.interval, st.view.refreshEvery, None, None), None)
    else
      var due := st.pushes >= st.view.refreshEvery;
      var view := if due && t.fetch.Received? then Merge(t.fetch.values, st.view) else st.view;
      var fetched := if due then Some(t.fetch) else None;
      if due && t.fetch.FetchUnauthorized? then
        (Iteration(t.now, fetched, view.interval, view.refreshEvery, None, None), None)
      else if t.push.PushUnauthorized? then
        (Iteration(t.now, fetched, view.interval, view.refreshEvery, Some(t.push), None), None)
      else
        var (delay, backoff) := NextPushDelay(view.interval, st.backoff, t.push.PushFailed?);
        var pushes := (if due then 0 else st.pushes) + 1;
        (Iteration(t.now, fetched, view.interval, view.refreshEvery, Some(t.push), Some(delay)),
         if t.slept then Some(State(view, pushes, backoff)) else None)
  }

  // The whole run, as far as the turns given.
  function Log(expires: Option<int>, st: State, turns: seq<Turn>): (log: seq<Iteration>)
    ensures |log| <= |turns|
    decreases |turns|
  {
    if turns == [] then []
    else
      var (it, next) := Iterate(expires, st, turns[0]);
      [it] + if next.Some? then Log(expires, next.value, turns[1..]) else []
  }

  function EndOf(expires: Option<int>, st: State, turns: seq<Turn>): End
    decreases |turns|
  {
    if turns == [] then StillRunning
    else
      var (it, next) := Iterate(expires, st, turns[0]);
      if next.Some? then EndOf(expires, next.value, turns[1..])
      else if it.delay.Some? then Cancelled
      else if TokenValid(expires, it.now) then Reenroll
      else TokenExpired
  }

  // The body of the loop. The settings' raw map is updated in place.
  method OneTurn(expires: Option<int>, settings: Settings, pushesSinceSettings: int, pushFailureBackoff: int, t: Turn)
    returns (done: Iteration, next: Settings, pushes: int, backoff: int, end: End)
    requires settings.raw != null
    modifies settings.raw
    ensures next.raw == settings.raw
    ensures var before := State(old(Snapshot(settings)), pushesSinceSettings, pushFailureBackoff);
      var (it, st) := Iterate(expires, before, t);
      && done == it
      && (st.Some? <==> end == StillRunning)
      && (st.Some? ==> st == Some(State(Snapshot(next), pushes, backoff)))
      && (st.None? ==>
            end == if it.delay.Some? then Cancelled
                   else if expires.None? || t.now < expires.value then Reenroll else TokenExpired)
  {
    next, pushes, backoff := settings, pushesSinceSettings, pushFailureBackoff;
    if !TokenValid(expires, t.now) {
      return Iteration(t.now, None, next.interval, next.refreshEvery, None, None), next, pushes, backoff, TokenExpired;
    }
    var fetched := None;
    if pushes >= next.refreshEvery {
      fetched := Some(t.fetch);
      match t.fetch {
        case FetchUnauthorized =>
          done := Iteration(t.now, fetched, next.interval, next.refreshEvery, None, None);
          return done, next, pushes, backoff, Reenroll;
        case FetchFailed =>
        case Received(values) =>
          next := SettingsFromMap(values, next);
      }
      pushes := 0;
    }
    done := Iteration(t.now, fetched, next.interval, next.refreshEvery, Some(t.push), None);
    if t.push.PushUnauthorized? {
      return done, next, pushes, backoff, Reenroll;
    }
    var delay;
    if t.push.PushFailed? {
      var d := NextPushDelay(next.interval, backoff, true);
      delay, backoff := d.0, d.1;
    } else {
      var d := NextPushDelay(next.interval, backoff, false);
      delay, backoff := next.interval, d.1;
    }
    pushes := pushes + 1;
    done := done.(delay := Some(delay));
    end := if t.slept then StillRunning else Cancelled;
  }

  lemma Reassociate(was: seq<Iteration>, done: Iteration, rest: seq<Iteration>)
    ensures was + ([done] + rest) == was + [done] + rest
  {
  }

  // Runner.Run, for as many turns as are given.
  method Run(backendURL: string, serverID: string, relayToken: string, expires: Option<int>, turns: seq<Turn>)
    returns (log: seq<Iteration>, end: End)
    ensures (TrimSpace(backendURL) == "" || TrimSpace(serverID) == "" || TrimSpace(relayToken) == "") ==>
      log == [] && end == BadConfig
    ensures TrimSpace(backendURL) != "" && TrimSpace(serverID) != "" && TrimSpace(relayToken) != "" ==>
      log == Log(expires, START, turns) && end == EndOf(expires, START, turns)
  {
    log := [];
    if TrimSpace(backendURL) == "" || TrimSpace(serverID) == "" || TrimSpace(relayToken) == "" {
      return [], BadConfig;
    }
    hide Iterate, Merge, NextPushDelay;
    var raw := new RawMap(DEFAULTS.raw);
    var settings := Settings(DEFAULTS.interval, DEFAULTS.refreshEvery, raw);
    var pushesSinceSettings := settings.refreshEvery;
    var pushFailureBackoff := 0;
    for i := 0 to |turns|
      invariant settings.raw == raw
      invariant log + Log(expires, State(Snapshot(settings), pushesSinceSettings, pushFailureBackoff), turns[i..])
             == Log(expires, START, turns)
      invariant EndOf(expires, State(Snapshot(settings), pushesSinceSettings, pushFailureBackoff), turns[i..])
             == EndOf(expires, START, turns)
    {
      assert turns[i..][0] == turns[i] && turns[i..][1..] == turns[i + 1..];
      var done;
      ghost var was := log;
      done, settings, pushesSinceSettings, pushFailureBackoff, end :=
        OneTurn(expires, settings, pushesSinceSettings, pushFailureBackoff, turns[i]);
      log := log + [done];
      if end != StillRunning {
        assert [done] + [] == [done];
        return;
      }
      Reassociate(was, done,
                  Log(expires, State(Snapshot(settings), pushesSinceSettings, pushFailureBackoff), turns[i + 1..]));
    }
    return log, StillRunning;
  }

  // ---- what holds on every run ----

  // The state before turn n.
  function StateBefore(expires: Option<int>, st: State, turns: seq<Turn>, n: nat): Option<State>
    requires n <= |turns|
    decreases n
  {
    if n == 0 then Some(st)
    else
      var before := StateBefore(expires, st, turns, n - 1);
      if before.None? then None else Iterate(expires, before.value, turns[n - 1]).1
  }

  lemma {:induction false} StateBeforeShift(expires: Option<int>, st: State, turns: seq<Turn>, n: nat)
    requires 0 < n <= |turns| && Iterate(expires, st, turns[0]).1.Some?
    ensures StateBefore(expires, st, turns, n)
         == StateBefore(expires, Iterate(expires, st, turns[0]).1.value, turns[1..], n - 1)
    decreases n
  {
    hide Iterate;
    if n == 1 {
      assert StateBefore(expires, st, turns, 0) == Some(st);
    } else {
      StateBeforeShift(expires, st, turns, n - 1);
      assert turns[1..][n - 2] == turns[n - 1];
    }
  }

  // Turn n of the log is one step from the state before it, which exists.
  lemma {:induction false} LogAt(expires: Option<int>, st: State, turns: seq<Turn>, n: nat)
    requires n < |Log(expires, st, turns)|
    ensures StateBefore(expires, st, turns, n).Some?
    ensures Log(expires, st, turns)[n] == Iterate(expires, StateBefore(expires, st, turns, n).value, turns[n]).0
    ensures n + 1 < |Log(expires, st, turns)| ==> StateBefore(expires, st, turns, n + 1).Some?
    decreases n
  {
    hide Iterate;
    var log := Log(expires, st, turns);
    var (it, next) := Iterate(expires, st, turns[0]);
    if n == 0 {
      assert StateBefore(expires, st, turns, 0) == Some(st);
    } else {
      LogAt(expires, next.value, turns[1..], n - 1);
      StateBeforeShift(expires, st, turns, n);
      StateBeforeShift(expires, st, turns, n + 1);
      assert log[n] == Log(expires, next.value, turns[1..])[n - 1];
    }
  }

  // Each turn reports its own clock and answers. It makes no request exactly when
  // the token has expired by its clock; no request follows a 401; each turn that
  // is not the last makes exactly one push and sleeps to the end; and an uploaded
  // snapshot is followed by a sleep of the interval in force.
  lemma TurnsAreSafe(expires: Option<int>, st: State, turns: seq<Turn>, n: nat)
    requires n < |Log(expires, st, turns)|
    ensures var log := Log(expires, st, turns);
      var it := log[n];
      && it.now == turns[n].now
      && (it.fetched.Some? ==> it.fetched.value == turns[n].fetch)
      && (it.pushed.Some? ==> it.pushed.value == turns[n].push)
      && (it.fetched.None? && it.pushed.None? <==> expires.Some? && expires.value <= it.now)
      && (it.fetched.Some? || it.pushed.Some? ==> expires.None? || it.now < expires.value)
      && (it.fetched.None? && it.pushed.None? ==> n == |log| - 1)
      && (it.fetched == Some(FetchUnauthorized) ==> it.pushed.None? && n == |log| - 1)
      && (it.pushed.None? ==> it.fetched.None? || it.fetched == Some(FetchUnauthorized))
      && (it.pushed == Some(PushUnauthorized) ==> n == |log| - 1)
      && (n < |log| - 1 ==> it.pushed.Some? && it.delay.Some? && turns[n].slept)
      && (it.delay.Some? <==> it.pushed == Some(Uploaded) || it.pushed == Some(PushFailed))
      && (it.pushed == Some(Uploaded) ==> it.delay == Some(it.interval))
  {
    LogAt(expires, st, turns, n);
  }

  lemma IterateEnds(expires: Option<int>, st: State, t: Turn)
    ensures var (it, next) := Iterate(expires, st, t);
      && it.now == t.now
      && (next.Some? <==> it.delay.Some? && t.slept)
      && (it.delay.Some? ==> expires.None? || it.now < expires.value)
      && (it.delay.Some? ==> it.fetched != Some(FetchUnauthorized) && it.pushed != Some(PushUnauthorized))
      && (it.delay.None? ==>
            (expires.None? || it.now < expires.value
             <==> it.fetched == Some(FetchUnauthorized) || it.pushed == Some(PushUnauthorized)))
  {
    hide Merge, NextPushDelay;
  }

  // Why a run ends, in terms of its last turn: it stops for an expired token, for
  // a 401 or for a sleep cut short exactly when its last turn met with that, and
  // otherwise goes on through all its turns.
  lemma {:induction false} EndExactly(expires: Option<int>, st: State, turns: seq<Turn>)
    ensures var log, end := Log(expires, st, turns), EndOf(expires, st, turns);
      && end != BadConfig
      && (log == [] <==> turns == [])
      && (log == [] ==> end == StillRunning)
      && (log != [] ==>
            var it, t := log[|log| - 1], turns[|log| - 1];
            && (end == StillRunning <==> |log| == |turns| && it.delay.Some? && t.slept)
            && (end == TokenExpired <==> expires.Some? && expires.value <= it.now)
            && (end == Reenroll <==> it.fetched == Some(FetchUnauthorized) || it.pushed == Some(PushUnauthorized))
            && (end == Cancelled <==> it.delay.Some? && !t.slept))
    decreases |turns|
  {
    hide Iterate;
    if turns != [] {
      IterateEnds(expires, st, turns[0]);
      var (it, next) := Iterate(expires, st, turns[0]);
      if next.Some? && |turns| > 1 {
        EndExactly(expires, next.value, turns[1..]);
        var rest := Log(expires, next.value, turns[1..]);
        assert Log(expires, st, turns)[|rest|] == rest[|rest| - 1] && turns[|rest|] == turns[1..][|rest| - 1];
      }
    }
  }

  // The settings in force are those the maps received so far amount to.
  function ReceivedIn(log: seq<Iteration>): seq<map<string, string>> {
    if log == [] then []
    else
      var f := log[|log| - 1].fetched;
      ReceivedIn(log[..|log| - 1]) + if f.Some? && f.value.Received? then [f.value.values] else []
  }

  lemma {:induction false} SettingsInForce(expires: Option<int>, turns: seq<Turn>, n: nat)
    requires n <= |Log(expires, START, turns)|
    ensures n < |Log(expires, START, turns)| ==>
      && StateBefore(expires, START, turns, n).Some?
      && StateBefore(expires, START, turns, n).value.view == After(ReceivedIn(Log(expires, START, turns)[..n]))
    ensures n > 0 ==>
      var it := Log(expires, START, turns)[n - 1];
      var v := After(ReceivedIn(Log(expires, START, turns)[..n]));
      it.interval == v.interval && it.refreshEvery == v.refreshEvery
    decreases n
  {
    hide Iterate, Merge, NextPushDelay;
    var log := Log(expires, START, turns);
    if n > 0 {
      SettingsInForce(expires, turns, n - 1);
      LogAt(expires, START, turns, n - 1);
      IterateSettings(expires, StateBefore(expires, START, turns, n - 1).value, turns[n - 1]);
      assert log[..n] == log[..n - 1] + [log[n - 1]];
      ReceivedSnoc(log[..n - 1], log[n - 1]);
      if n < |log| {
        LogAt(expires, START, turns, n);
      }
    }
  }

  // The settings a turn leaves in force.
  function Updated(view: View, it: Iteration): View {
    if it.fetched.Some? && it.fetched.value.Received? then Merge(it.fetched.value.values, view) else view
  }

  lemma IterateSettings(expires: Option<int>, st: State, t: Turn)
    ensures var (it, next) := Iterate(expires, st, t);
      && it.interval == Updated(st.view, it).interval && it.refreshEvery == Updated(st.view, it).refreshEvery
      && (next.Some? ==> next.value.view == Updated(st.view, it))
  {
    hide Merge, NextPushDelay;
  }

  lemma ReceivedSnoc(log: seq<Iteration>, it: Iteration)
    ensures After(ReceivedIn(log + [it])) == Updated(After(ReceivedIn(log)), it)
  {
    hide Merge;
    assert (log + [it])[..|log|] == log;
    var got := ReceivedIn(log);
    if it.fetched.Some? && it.fetched.value.Received? {
      assert (got + [it.fetched.value.values])[..|got|] == got;
    } else {
      assert got + [] == got;
    }
  }

  // The refresh count is always positive; so is the interval as long as no map
  // received asks for more seconds than a duration can hold.
  lemma InForceArePositive(expires: Option<int>, turns: seq<Turn>, n: nat)
    requires n < |Log(expires, START, turns)|
    ensures Log(expires, START, turns)[n].refreshEvery > 0
    ensures InRange(ReceivedIn(Log(expires, START, turns)[..n + 1])) ==>
      Log(expires, START, turns)[n].interval >= 1_000_000_000
  {
    hide Merge, Iterate;
    SettingsInForce(expires, turns, n + 1);
    AfterExactly(ReceivedIn(Log(expires, START, turns)[..n + 1]));
    if InRange(ReceivedIn(Log(expires, START, turns)[..n + 1])) {
      InRangeIsPositive(ReceivedIn(Log(expires, START, turns)[..n + 1]));
    }
  }

  // ---- refresh cadence ----

  // A first turn before the token expires fetches the settings.
  lemma FirstTurnFetches(expires: Option<int>, turns: seq<Turn>)
    requires turns != [] && (expires.None? || turns[0].now < expires.value)
    ensures Log(expires, START, turns)[0].fetched == Some(turns[0].fetch)
  {
  }

  lemma {:induction false} PushesSince(expires: Option<int>, turns: seq<Turn>, i: nat, k: nat)
    requires var log := Log(expires, START, turns);
      0 < k && i + k < |log| && log[i].fetched.Some? && k <= log[i].refreshEvery
    ensures var log := Log(expires, START, turns);
      var before := StateBefore(expires, START, turns, i + k);
      && before.Some? && before.value.pushes == k && before.value.view.refreshEvery == log[i].refreshEvery
      && (k < log[i].refreshEvery ==> log[i + k].fetched.None?)
    decreases k
  {
    hide Merge, NextPushDelay;
    LogAt(expires, START, turns, i + k - 1);
    LogAt(expires, START, turns, i + k);
    if k > 1 {
      PushesSince(expires, turns, i, k - 1);
    }
  }

  // After a fetch, whatever came of it, the next fetch comes after exactly R more
  // turns, each with one push: R being the refresh count in force after the
  // first fetch.
  lemma RefreshCadence(expires: Option<int>, turns: seq<Turn>, i: nat, k: nat)
    requires var log := Log(expires, START, turns);
      && 0 < k && i + k < |log| && log[i].fetched.Some? && k <= log[i].refreshEvery
      && (expires.None? || log[i + k].now < expires.value)
    ensures var log := Log(expires, START, turns);
      && (log[i + k].fetched.Some? <==> k == log[i].refreshEvery)
      && forall j :: i <= j < i + k ==> log[j].pushed.Some?
  {
    hide Merge, NextPushDelay;
    PushesSince(expires, turns, i, k);
    LogAt(expires, START, turns, i + k);
    forall j | i <= j < i + k ensures Log(expires, START, turns)[j].pushed.Some? {
      TurnsAreSafe(expires, START, turns, j);
    }
  }

  // ---- backoff ----

  function Pow2(k: nat): (r: int)
    ensures r >= 1
  {
    if k == 0 then 1 else 2 * Pow2(k - 1)
  }

  // i doubled k times.
  function Doubled(i: int, k: nat): (r: int)
    ensures i > 0 ==> r > 0
  {
    if k == 0 then i else 2 * Doubled(i, k - 1)
  }

  lemma {:induction false} DoubledIsPower(i: int, k: nat)
    ensures Doubled(i, k) == i * Pow2(k)
  {
    if k > 0 {
      DoubledIsPower(i, k - 1);
      assert i * Pow2(k) == 2 * (i * Pow2(k - 1));
    }
  }

  // Doubling what nextPushDelay remembers never leaves int64.
  lemma DoublingFits(interval: int, backoff: int, failed: bool)
    requires interval > 0
    ensures 0 <= NextPushDelay(interval, backoff, failed).1 <= 900_000_000_000
    ensures Int64(NextPushDelay(interval, backoff, failed).1 * 2) == NextPushDelay(interval, backoff, failed).1 * 2
  {
  }

  lemma MinDoubles(a: int, b: int)
    requires b == Min(a, MAX_BACKOFF) && b > 0
    ensures NextPushDelay(1, b, true) == (Min(2 * a, MAX_BACKOFF), Min(2 * a, MAX_BACKOFF))
    ensures forall interval :: NextPushDelay(interval, b, true) == NextPushDelay(1, b, true)
  {
  }

  // No failure is being waited out before turn i.
  predicate Settled(log: seq<Iteration>, i: nat) {
    i == 0 || (i <= |log| && log[i - 1].pushed == Some(Uploaded))
  }

  predicate AllFailed(log: seq<Iteration>, i: nat, j: nat) {
    i <= j < |log| && forall m :: i <= m <= j ==> log[m].pushed == Some(PushFailed)
  }

  // How a push that did not meet a 401 sets the sleep and the remembered backoff.
  lemma IterateBackoff(expires: Option<int>, st: State, t: Turn)
    ensures var (it, next) := Iterate(expires, st, t);
      var delays := NextPushDelay(it.interval, st.backoff, true);
      && (it.pushed == Some(PushFailed) ==>
            it.delay == Some(delays.0) && (next.Some? ==> next.value.backoff == delays.1))
      && (it.pushed == Some(Uploaded) ==> next.Some? ==> next.value.backoff == 0)
  {
    hide Merge;
  }

  lemma {:induction false} StreakBackoff(expires: Option<int>, turns: seq<Turn>, i: nat, j: nat)
    requires var log := Log(expires, START, turns);
      Settled(log, i) && AllFailed(log, i, j) && log[i].interval > 0
    ensures j < |Log(expires, START, turns)|
    ensures var log := Log(expires, START, turns);
      var d := Min(Doubled(log[i].interval, j - i), MAX_BACKOFF);
      && log[j].delay == Some(d)
      && (j + 1 < |log| ==>
            var next := StateBefore(expires, START, turns, j + 1);
            next.Some? && next.value.backoff == d)
    decreases j
  {
    hide Merge, Log, Iterate;
    var log := Log(expires, START, turns);
    LogAt(expires, START, turns, j);
    IterateBackoff(expires, StateBefore(expires, START, turns, j).value, turns[j]);
    if j + 1 < |log| {
      LogAt(expires, START, turns, j + 1);
    }
    if i == j {
      if i > 0 {
        LogAt(expires, START, turns, i - 1);
        IterateBackoff(expires, StateBefore(expires, START, turns, i - 1).value, turns[i - 1]);
      }
    } else {
      StreakBackoff(expires, turns, i, j - 1);
      MinDoubles(Doubled(log[i].interval, j - 1 - i), Min(Doubled(log[i].interval, j - 1 - i), MAX_BACKOFF));
    }
  }

  // The k-th push failure in a row is followed by a sleep of I * 2^(k-1), at most
  // 15 minutes (in nanoseconds): I being the interval in force at the first of
  // them, whatever the settings become meanwhile.
  lemma BackoffDoubles(expires: Option<int>, turns: seq<Turn>, i: nat, k: nat)
    requires var log := Log(expires, START, turns);
      k >= 1 && i + k <= |log| && Settled(log, i) && AllFailed(log, i, i + k - 1) && log[i].interval > 0
    ensures var log := Log(expires, START, turns);
      log[i + k - 1].delay == Some(Min(log[i].interval * Pow2(k - 1), 900_000_000_000))
  {
    hide Log, StateBefore, Settled, AllFailed, Doubled, Pow2;
    StreakBackoff(expires, turns, i, i + k - 1);
    DoubledIsPower(Log(expires, START, turns)[i].interval, k - 1);
  }

  predicate IntervalIs(log: seq<Iteration>, i: nat, j: nat, interval: int) {
    i <= j < |log| && forall m :: i <= m <= j ==> log[m].interval == interval
  }

  // A streak under an interval that is not positive: no backoff builds up.
  lemma {:induction false} StreakWithoutBackoff(expires: Option<int>, turns: seq<Turn>, i: nat, j: nat, interval: int)
    requires var log := Log(expires, START, turns);
      Settled(log, i) && AllFailed(log, i, j) && IntervalIs(log, i, j, interval) && interval <= 0
    ensures j < |Log(expires, START, turns)| && Log(expires, START, turns)[j].delay.Some?
    ensures var log := Log(expires, START, turns);
      var d := log[j].delay.value;
      && d <= MAX_BACKOFF && (interval == 0 ==> d == 0) && (interval < 0 ==> d == interval || d > 0)
      && (j + 1 < |log| ==>
            var next := StateBefore(expires, START, turns, j + 1);
            next.Some? && next.value.backoff == d)
    decreases j
  {
    hide Merge, Log;
    var log := Log(expires, START, turns);
    LogAt(expires, START, turns, j);
    if j + 1 < |log| {
      LogAt(expires, START, turns, j + 1);
    }
    if i == j {
      if i > 0 {
        LogAt(expires, START, turns, i - 1);
      }
    } else {
      StreakWithoutBackoff(expires, turns, i, j - 1, interval);
    }
  }

  // From the second failure on under one interval, the doubling is as said exactly
  // when that interval is not negative, as one that overflowed can be.
  lemma BackoffDoublesIff(expires: Option<int>, turns: seq<Turn>, i: nat, k: nat, interval: int)
    requires var log := Log(expires, START, turns);
      && k >= 2 && i + k <= |log| && Settled(log, i) && AllFailed(log, i, i + k - 1)
      && IntervalIs(log, i, i + k - 1, interval)
    ensures Log(expires, START, turns)[i + k - 1].delay == Some(Min(interval * Pow2(k - 1), 900_000_000_000))
       <==> interval >= 0
  {
    hide Log, StateBefore, Settled, AllFailed, Pow2;
    if interval > 0 {
      BackoffDoubles(expires, turns, i, k);
    } else {
      StreakWithoutBackoff(expires, turns, i, i + k - 1, interval);
      DoubledNegative(interval, k - 1);
    }
  }

  lemma DoubledNegative(interval: int, k: nat)
    requires interval <= 0 && k >= 1
    ensures interval == 0 ==> interval * Pow2(k) == 0
    ensures interval < 0 ==> interval * Pow2(k) < interval
  {
    assert Pow2(k) >= 2;
    if interval < 0 {
      assert interval * Pow2(k) == interval * (Pow2(k) - 1) + interval;
    }
  }

  // ---- bounds on the sleep ----

  ghost predicate IntervalsWithin(log: seq<Iteration>, lo: int, hi: int) {
    forall m :: 0 <= m < |log| ==> lo <= log[m].interval <= hi
  }

  lemma {:induction false} BackoffWithin(expires: Option<int>, turns: seq<Turn>, n: nat, lo: int, hi: int)
    requires lo <= hi && IntervalsWithin(Log(expires, START, turns), lo, hi) && n < |Log(expires, START, turns)|
    ensures var before := StateBefore(expires, START, turns, n);
      && before.Some? && before.value.backoff <= MAX_BACKOFF
      && (before.value.backoff == 0 || Min(lo, MAX_BACKOFF) <= before.value.backoff)
    decreases n
  {
    hide Merge;
    LogAt(expires, START, turns, n);
    if n > 0 {
      BackoffWithin(expires, turns, n - 1, lo, hi);
      LogAt(expires, START, turns, n - 1);
    }
  }

  // Every sleep lies between the smallest interval in force, or 15 minutes if
  // that is less, and the largest, or 15 minutes if that is more.
  lemma SleepWithin(expires: Option<int>, turns: seq<Turn>, n: nat, lo: int, hi: int)
    requires var log := Log(expires, START, turns);
      lo <= hi && IntervalsWithin(log, lo, hi) && n < |log| && log[n].delay.Some?
    ensures Min(lo, 900_000_000_000) <= Log(expires, START, turns)[n].delay.value <= Max(hi, 900_000_000_000)
  {
    BackoffWithin(expires, turns, n, lo, hi);
    LogAt(expires, START, turns, n);
  }
}
