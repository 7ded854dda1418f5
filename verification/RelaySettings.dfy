// The relay's settings: two numbers taken from maps of strings sent by the
// backend, and the union of all those maps.
module RelaySettings {
  import opened Wrappers
  import opened Text
  import opened Numbers
  import opened Numerals

  const SECOND := 1_000_000_000   // a time.Duration counts nanoseconds in an int64
  const MINUTE := 60 * SECOND
  const INTERVAL_KEY := "agent.snapshot_push_interval_seconds"
  const REFRESH_KEY := "agent.settings_refresh_every_pushes"

  // ---- numerals ----

  // strconv.Atoi on a 64-bit platform: an optional sign, then digits, within int64.
  function Atoi(s: string): Option<int> {
    var signed := s != "" && (s[0] == '+' || s[0] == '-');
    var digits := if signed then s[1..] else s;
    if digits == "" || !AllDigits(digits) then None
    else
      var n := if signed && s[0] == '-' then -Numeral(digits) else Numeral(digits);
      if -TWO_63 <= n < TWO_63 then Some(n) else None
  }

  function PositiveInt(value: string): Option<int> {
    var n := Atoi(TrimSpace(value));
    if n.Some? && n.value > 0 then n else None
  }

  // What positiveInt accepts: surrounded by any white space, an optional plus
  // sign and a numeral of a number from 1 to the largest int64.
  lemma PositiveIntExactly(value: string, n: int)
    ensures PositiveInt(value) == Some(n) <==>
      && 0 < n < TWO_63
      && exists digits :: AllDigits(digits) && digits != "" && Numeral(digits) == n
           && (TrimSpace(value) == digits || TrimSpace(value) == "+" + digits)
  {
    var t := TrimSpace(value);
    if PositiveInt(value) == Some(n) {
      var digits := if t[0] == '+' then t[1..] else t;
      assert t[0] == '+' ==> t == "+" + digits;
      assert AllDigits(digits) && Numeral(digits) == n;
    }
    forall digits | 0 < n < TWO_63 && AllDigits(digits) && digits != "" && Numeral(digits) == n
        && (t == digits || t == "+" + digits)
      ensures PositiveInt(value) == Some(n)
    {
      DigitsAreSolid(digits, 0);
      assert ("+" + digits)[1..] == digits;
    }
  }

  lemma PositiveIntOfDecimal(n: nat)
    requires 0 < n < TWO_63
    ensures PositiveInt(Decimal(n)) == Some(n)
  {
    NumeralOfDecimal(n);
    var d := Decimal(n);
    DigitsAreSolid(d, 0);
    DigitsAreSolid(d, |d| - 1);
    TrimSpaceTight(d);
    PositiveIntExactly(d, n);
  }

  // ---- settings ----

  // A Go map, shared by every Settings value copied from the one that made it.
  class RawMap {
    var values: map<string, string>

    constructor (values: map<string, string>)
      ensures this.values == values
    {
      this.values := values;
    }
  }

  datatype Settings = Settings(interval: int, refreshEvery: int, raw: RawMap?)

  // A Settings value as a snapshot.
  datatype View = View(interval: int, refreshEvery: int, raw: map<string, string>)

  const DEFAULTS := View(MINUTE, 5, map[INTERVAL_KEY := "60", REFRESH_KEY := "5"])

  function Snapshot(s: Settings): View
    reads if s.raw == null then {} else {s.raw}
  {
    View(s.interval, s.refreshEvery, if s.raw == null then map[] else s.raw.values)
  }

  function ValueOf(values: map<string, string>, key: string): string {
    if key in values then values[key] else ""
  }

  function Merge(values: map<string, string>, v: View): View {
    var seconds, pushes := PositiveInt(ValueOf(values, INTERVAL_KEY)), PositiveInt(ValueOf(values, REFRESH_KEY));
    View(if seconds.Some? then Int64(seconds.value * SECOND) else v.interval,
         if pushes.Some? then pushes.value else v.refreshEvery,
         v.raw + values)
  }

  // SettingsFromMap: the copy shares, and updates in place, the map of its fallback.
  method SettingsFromMap(values: map<string, string>, fallback: Settings) returns (next: Settings)
    modifies if fallback.raw == null then {} else {fallback.raw}
    ensures next.raw != null
    ensures if fallback.raw == null then fresh(next.raw) else next.raw == fallback.raw
    ensures Snapshot(next) == Merge(values, old(Snapshot(fallback)))
  {
    next := fallback;
    if next.raw == null {
      var raw := new RawMap(map[]);
      next := next.(raw := raw);
    }
    ghost var before := next.raw.values;
    var left := values.Keys;
    while left != {}
      invariant left <= values.Keys
      invariant next.raw != null && (if fallback.raw == null then fresh(next.raw) else next.raw == fallback.raw)
      invariant next.interval == fallback.interval && next.refreshEvery == fallback.refreshEvery
      invariant next.raw.values.Keys == before.Keys + (values.Keys - left)
      invariant forall k :: k in next.raw.values ==>
        next.raw.values[k] == if k in values && k !in left then values[k] else before[k]
      decreases left
    {
      var key :| key in left;
      next.raw.values := next.raw.values[key := values[key]];
      left := left - {key};
    }
    assert next.raw.values == before + values;
    var seconds := PositiveInt(ValueOf(values, INTERVAL_KEY));
    if seconds.Some? {
      next := next.(interval := Int64(seconds.value * SECOND));
    }
    var pushes := PositiveInt(ValueOf(values, REFRESH_KEY));
    if pushes.Some? {
      next := next.(refreshEvery := pushes.value);
    }
  }

  // ---- what a sequence of received maps amounts to ----

  function After(received: seq<map<string, string>>): View {
    if received == [] then DEFAULTS
    else Merge(received[|received| - 1], After(received[..|received| - 1]))
  }

  // The last positive integer received for a key.
  function LastPositive(received: seq<map<string, string>>, key: string): Option<int> {
    if received == [] then None
    else
      var n := PositiveInt(ValueOf(received[|received| - 1], key));
      if n.Some? then n else LastPositive(received[..|received| - 1], key)
  }

  // The value of a key in the last map that has it, the defaults being first.
  function LastValue(received: seq<map<string, string>>, key: string): Option<string> {
    if received == [] then
      if key in DEFAULTS.raw then Some(DEFAULTS.raw[key]) else None
    else if key in received[|received| - 1] then Some(received[|received| - 1][key])
    else LastValue(received[..|received| - 1], key)
  }

  // The refresh count is the last positive integer received, or the default; the
  // interval likewise, in seconds as far as a duration can hold them; and the raw
  // map holds for every key the last value received, valid or not.
  lemma {:induction false} AfterExactly(received: seq<map<string, string>>)
    ensures var v := After(received);
      && v.refreshEvery ==
           (var n := LastPositive(received, "agent.settings_refresh_every_pushes"); if n.Some? then n.value else 5)
      && v.refreshEvery > 0
      && v.interval ==
           (var n := LastPositive(received, "agent.snapshot_push_interval_seconds");
            if n.Some? then Int64(n.value * 1_000_000_000) else 60_000_000_000)
      && forall k ::
           (k in v.raw <==> LastValue(received, k).Some?) && (k in v.raw ==> v.raw[k] == LastValue(received, k).value)
    ensures After([]).raw ==
      map["agent.snapshot_push_interval_seconds" := "60", "agent.settings_refresh_every_pushes" := "5"]
  {
    if received != [] {
      AfterExactly(received[..|received| - 1]);
    }
  }

  // The interval is the number of seconds last received exactly when a duration
  // can hold that many; then it is positive.
  lemma IntervalExactIff(received: seq<map<string, string>>, n: int)
    requires LastPositive(received, "agent.snapshot_push_interval_seconds") == Some(n) && n > 0
    ensures After(received).interval == n * 1_000_000_000 <==> n <= 9223372036
    ensures n <= 9223372036 ==> After(received).interval > 0
  {
    AfterExactly(received);
  }

  // No map asks for more seconds than a duration can hold.
  predicate InRange(received: seq<map<string, string>>) {
    forall i :: 0 <= i < |received| ==>
      var n := PositiveInt(ValueOf(received[i], "agent.snapshot_push_interval_seconds"));
      n.Some? ==> n.value <= 9223372036
  }

  lemma {:induction false} InRangeIsPositive(received: seq<map<string, string>>)
    requires InRange(received)
    ensures After(received).interval >= 1_000_000_000
  {
    if received != [] {
      var front := received[..|received| - 1];
      assert forall i :: 0 <= i < |front| ==> front[i] == received[i];
      InRangeIsPositive(front);
    }
  }

  lemma LastOfOne(values: map<string, string>, key: string)
    ensures LastPositive([values], key) == PositiveInt(ValueOf(values, key))
  {
    hide PositiveInt, ValueOf;
    assert [values][..0] == [];
  }

  // One second too many, and the interval turns negative.
  lemma IntervalOverflows(n: nat)
    requires n == 9223372036 + 1
    ensures PositiveInt(Decimal(n)) == Some(n)
    ensures After([map["agent.snapshot_push_interval_seconds" := Decimal(n)]]).interval < 0
  {
    PositiveIntOfDecimal(n);
    hide *;
    var values := map["agent.snapshot_push_interval_seconds" := Decimal(n)];
    LastOfOne(values, "agent.snapshot_push_interval_seconds");
    ValueInOne("agent.snapshot_push_interval_seconds", Decimal(n));
    AfterExactly([values]);
    Overflowed(n);
  }

  lemma ValueInOne(key: string, value: string)
    ensures ValueOf(map[key := value], key) == value
  {
  }

  lemma Overflowed(n: nat)
    requires n == 9223372036 + 1
    ensures Int64(n * 1_000_000_000) < 0
  {
  }
}
