// The server's bearer token: read from its file, cached for a second, checked on
// every request, while other processes may replace the file at any time.
module TokenCache {
  import opened Wrappers
  import opened Text
  import opened Disk
  import Identity

  const TTL := 1_000_000_000   // nanoseconds

  datatype Cache = Cache(token: string, until: int)

  const EMPTY := Cache("", 0)

  predicate Hit(c: Cache, now: int) {
    c.token != "" && now < c.until
  }

  // The cache after the file has been read for a request that came at now.
  function Refilled(now: int, read: Option<string>): Cache {
    if read.Some? then Cache(read.value, now + TTL) else EMPTY
  }

  class Server {
    var token: string
    var tokenUntil: int
    const dir: Directory<Identity.Content>

    constructor (dir: Directory<Identity.Content>)
      ensures this.dir == dir && Cached() == EMPTY
    {
      token, tokenUntil := "", 0;
      this.dir := dir;
    }

    function Cached(): Cache reads this {
      Cache(token, tokenUntil)
    }

    // loadToken, with the lock held; now was taken before the lock.
    method LoadToken(now: int) returns (result: Option<string>)
      modifies this, dir`script
      ensures var hit := old(token) != "" && now < old(tokenUntil);
        && (hit ==> result == Some(old(token)) && Cached() == old(Cached()) && dir.script == old(dir.script))
        && (!hit ==>
              && Cached() == (if result.Some? then Cache(result.value, now + 1_000_000_000) else Cache("", 0))
              && (result == None || result == Identity.TokenIn(Identity.See(dir.files).token))
              && (AllDone(old(dir.script)) ==> result == Identity.TokenIn(Identity.See(dir.files).token)))
    {
      if token != "" && now < tokenUntil {
        return Some(token);
      }
      var status;
      status, result := Identity.LoadToken(dir);
      if result.None? {
        token := "";
        tokenUntil := 0;
        return None;
      }
      token := result.value;
      tokenUntil := now + TTL;
    }
  }

  // ---- requests, rotations and the clock, interleaved ----

  // What the token file held from a moment on; None when it could not be read as a token.
  datatype Version = Version(since: int, token: Option<string>)

  // version and at: which version of the file the token comes from, and when it
  // was read.
  datatype Request =
    | Arrived(now: int)
    | Holding(now: int)
    | Loaded(now: int, token: Option<string>, version: nat, at: int)
    | Answered(now: int, token: Option<string>, version: nat, at: int)

  datatype State = State(
    clock: int,
    file: seq<Version>,
    cache: Cache,
    version: nat,
    at: int,
    holder: Option<nat>,
    requests: map<nat, Request>,
    served: seq<nat>)

  datatype Event =
    | Tick(d: nat)
    | Rotate(token: Option<string>)
    | Arrive(id: nat)
    | Enter(id: nat)
    | Load(id: nat, ok: bool)
    | Leave(id: nat)

  function Start(token: Option<string>): State {
    State(0, [Version(0, token)], EMPTY, 0, 0, None, map[], [])
  }

  // What the holder of the lock does, in the terms of Server.LoadToken: with a
  // token cached within its time it can only answer with it; otherwise it can only
  // read, then answer with what it read, and that is cached for a second from its
  // arrival, or nothing is when the read failed.
  lemma LockSection(s: State, id: nat, ok: bool)
    requires s.file != [] && s.holder == Some(id) && id in s.requests && s.requests[id].Holding?
    ensures var now := s.requests[id].now;
      if s.cache.token != "" && now < s.cache.until then
        && !Enabled(s, Load(id, ok)) && Enabled(s, Leave(id))
        && var s' := Apply(s, Leave(id));
        && s'.cache == s.cache && s'.holder == None
        && s'.requests == s.requests[id := Answered(now, Some(s.cache.token), s.version, s.at)]
      else
        && !Enabled(s, Leave(id)) && Enabled(s, Load(id, ok)) && Enabled(Apply(s, Load(id, ok)), Leave(id))
        && var s' := Apply(Apply(s, Load(id, ok)), Leave(id));
        var last := |s.file| - 1;
        var read := if ok then s.file[last].token else None;
        && s'.cache == (if read.Some? then Cache(read.value, now + 1_000_000_000) else Cache("", 0))
        && s'.holder == None
        && s'.requests == s.requests[id := Answered(now, read, last, s.clock)]
  {
  }

  predicate IsToken(t: Option<string>) {
    t.Some? ==> t.value != ""
  }

  predicate MayLeave(s: State, r: Request) {
    r.Loaded? || (r.Holding? && Hit(s.cache, r.now))
  }

  predicate Enabled(s: State, e: Event) {
    match e
    case Tick(_) => true
    case Rotate(token) => IsToken(token)
    case Arrive(id) => id !in s.requests
    case Enter(id) => id in s.requests && s.requests[id].Arrived? && s.holder.None?
    case Load(id, _) =>
      s.holder == Some(id) && id in s.requests && s.requests[id].Holding? && !Hit(s.cache, s.requests[id].now)
    case Leave(id) => s.holder == Some(id) && id in s.requests && MayLeave(s, s.requests[id])
  }

  function Apply(s: State, e: Event): State
    requires Enabled(s, e) && s.file != []
  {
    match e
    case Tick(d) => s.(clock := s.clock + d)
    case Rotate(token) => s.(file := s.file + [Version(s.clock, token)])
    case Arrive(id) => s.(requests := s.requests[id := Arrived(s.clock)])
    case Enter(id) => s.(holder := Some(id), requests := s.requests[id := Holding(s.requests[id].now)])
    case Load(id, ok) =>
      var v := |s.file| - 1;
      s.(requests := s.requests[id := Loaded(s.requests[id].now, if ok then s.file[v].token else None, v, s.clock)])
    case Leave(id) =>
      var r := s.requests[id];
      if r.Holding? then
        s.(holder := None, requests := s.requests[id := Answered(r.now, Some(s.cache.token), s.version, s.at)],
           served := s.served + [s.version])
      else
        s.(holder := None, requests := s.requests[id := Answered(r.now, r.token, r.version, r.at)],
           cache := Refilled(r.now, r.token), version := r.version, at := r.at,
           served := if r.token.Some? then s.served + [r.version] else s.served)
  }

  function Step(s: State, e: Event): (s': State)
    requires s.file != []
    ensures s'.file != []
  {
    if Enabled(s, e) then Apply(s, e) else s
  }

  // Every interleaving is some sequence of events; those not enabled do nothing.
  function Run(s: State, events: seq<Event>): (s': State)
    requires s.file != []
    ensures s'.file != []
    decreases |events|
  {
    if events == [] then s else Run(Step(s, events[0]), events[1..])
  }

  function Exec(token: Option<string>, events: seq<Event>): (s: State)
    ensures s.file != []
  {
    Run(Start(token), events)
  }

  // Version v was the file's content at moment t.
  predicate Current(file: seq<Version>, v: nat, t: int) {
    v < |file| && file[v].since <= t && (v + 1 < |file| ==> t <= file[v + 1].since)
  }

  predicate Sourced(s: State, token: Option<string>, version: nat, at: int) {
    at <= s.clock && Current(s.file, version, at) && (token.Some? ==> s.file[version].token == token)
  }

  predicate RequestOk(s: State, id: nat, r: Request) {
    && r.now <= s.clock
    && (r.Holding? || r.Loaded? ==> s.holder == Some(id))
    && (r.Loaded? ==> Sourced(s, r.token, r.version, r.at) && r.now <= r.at)
    && (r.Loaded? && s.served != [] ==> s.served[|s.served| - 1] <= r.version)
    && (r.Answered? && r.token.Some? ==> Sourced(s, r.token, r.version, r.at) && r.at > r.now - TTL)
  }

  ghost predicate FileOk(s: State) {
    && s.file != []
    && (forall v :: 0 <= v < |s.file| ==> s.file[v].since <= s.clock && IsToken(s.file[v].token))
    && (forall v, w :: 0 <= v <= w < |s.file| ==> s.file[v].since <= s.file[w].since)
  }

  ghost predicate CacheOk(s: State) {
    s.cache.token != "" ==> Sourced(s, Some(s.cache.token), s.version, s.at) && s.cache.until <= s.at + TTL
  }

  ghost predicate ServedOk(s: State) {
    && (s.served != [] ==> s.served[|s.served| - 1] < |s.file|)
    && (s.served != [] && s.cache.token != "" ==> s.served[|s.served| - 1] <= s.version)
    && (forall i, j :: 0 <= i <= j < |s.served| ==> s.served[i] <= s.served[j])
  }

  ghost predicate RequestsOk(s: State) {
    forall id :: id in s.requests ==> RequestOk(s, id, s.requests[id])
  }

  ghost predicate Inv(s: State) {
    FileOk(s) && CacheOk(s) && ServedOk(s) && RequestsOk(s)
  }

  lemma SourcedLater(s: State, s': State, token: Option<string>, version: nat, at: int)
    requires Sourced(s, token, version, at) && s.clock <= s'.clock
    requires s'.file == s.file || exists t :: s'.file == s.file + [Version(s.clock, t)]
    ensures Sourced(s', token, version, at)
  {
  }

  lemma ApplyKeepsFile(s: State, e: Event)
    requires Inv(s) && Enabled(s, e)
    ensures FileOk(Apply(s, e))
    ensures var s' := Apply(s, e);
      s.clock <= s'.clock && (s'.file == s.file || exists t :: s'.file == s.file + [Version(s.clock, t)])
  {
    if e.Rotate? {
      assert Apply(s, e).file == s.file + [Version(s.clock, e.token)];
    }
  }

  lemma ApplyKeepsCache(s: State, e: Event)
    requires Inv(s) && Enabled(s, e)
    ensures CacheOk(Apply(s, e))
  {
    ApplyKeepsFile(s, e);
    if e.Leave? && s.requests[e.id].Loaded? {
      assert RequestOk(s, e.id, s.requests[e.id]);
    } else if s.cache.token != "" {
      SourcedLater(s, Apply(s, e), Some(s.cache.token), s.version, s.at);
    }
  }

  lemma ApplyKeepsServed(s: State, e: Event)
    requires Inv(s) && Enabled(s, e)
    ensures ServedOk(Apply(s, e))
  {
    if e.Leave? {
      assert RequestOk(s, e.id, s.requests[e.id]);
    }
  }

  lemma ApplyKeepsRequest(s: State, e: Event, id: nat)
    requires Inv(s) && Enabled(s, e) && id in Apply(s, e).requests
    ensures RequestOk(Apply(s, e), id, Apply(s, e).requests[id])
  {
    ApplyKeepsFile(s, e);
    if id in s.requests {
      var r := s.requests[id];
      assert RequestOk(s, id, r);
      if e.Tick? || e.Rotate? || e.Arrive? {
        hide ServedOk, CacheOk;
      }
      if r.Loaded? || (r.Answered? && r.token.Some?) {
        SourcedLater(s, Apply(s, e), r.token, r.version, r.at);
      }
    }
  }

  lemma {:induction false} RunInv(s: State, events: seq<Event>)
    requires Inv(s)
    ensures Inv(Run(s, events))
    decreases |events|
  {
    if events != [] {
      var e := events[0];
      if Enabled(s, e) {
        ApplyKeepsFile(s, e);
        ApplyKeepsCache(s, e);
        ApplyKeepsServed(s, e);
        forall id | id in Apply(s, e).requests ensures RequestOk(Apply(s, e), id, Apply(s, e).requests[id]) {
          ApplyKeepsRequest(s, e, id);
        }
      }
      RunInv(Step(s, e), events[1..]);
    }
  }

  // The token a request is checked against was the file's token at a moment later
  // than the request's arrival less a second.
  lemma AnswerIsRecent(token: Option<string>, events: seq<Event>, id: nat)
    requires IsToken(token)
    requires var s := Exec(token, events); id in s.requests && s.requests[id].Answered? && s.requests[id].token.Some?
    ensures var s := Exec(token, events);
      var r := s.requests[id];
      && Current(s.file, r.version, r.at) && s.file[r.version].token == r.token
      && r.now - 1_000_000_000 < r.at <= s.clock
  {
    RunInv(Start(token), events);
    var s := Exec(token, events);
    assert RequestOk(s, id, s.requests[id]);
  }

  // A request that arrives a full second after a rotation is checked against the
  // rotated token or a later one.
  lemma NoStaleToken(token: Option<string>, events: seq<Event>, id: nat, rotation: nat)
    requires IsToken(token)
    requires var s := Exec(token, events); id in s.requests && s.requests[id].Answered? && s.requests[id].token.Some?
    requires var s := Exec(token, events);
      rotation < |s.file| && s.file[rotation].since + 1_000_000_000 <= s.requests[id].now
    ensures Exec(token, events).requests[id].version >= rotation
  {
    RunInv(Start(token), events);
    var s := Exec(token, events);
    var r := s.requests[id];
    AnswerIsRecent(token, events, id);
  }

  // Successive lock holders never go back to an older version of the file.
  lemma ServedInOrder(token: Option<string>, events: seq<Event>)
    requires IsToken(token)
    ensures var served := Exec(token, events).served;
      forall i, j :: 0 <= i <= j < |served| ==> served[i] <= served[j]
  {
    RunInv(Start(token), events);
  }

  // Nothing read before moment t is cached, held or answered any more, other than
  // to the requests of before.
  ghost predicate SinceThen(s: State, t: int, before: set<nat>) {
    && t <= s.clock
    && (s.cache.token != "" ==> t <= s.at)
    && (forall id :: id in before ==> id in s.requests && s.requests[id].Answered?)
    && forall id :: id in s.requests && id !in before && (s.requests[id].Loaded? || s.requests[id].Answered?) ==>
         t <= s.requests[id].at
  }

  lemma StepSinceThen(s: State, e: Event, t: int, before: set<nat>)
    requires s.file != [] && SinceThen(s, t, before)
    ensures SinceThen(Step(s, e), t, before)
  {
  }

  lemma {:induction false} RunSinceThen(s: State, events: seq<Event>, t: int, before: set<nat>)
    requires s.file != [] && SinceThen(s, t, before)
    ensures SinceThen(Run(s, events), t, before)
    decreases |events|
  {
    if events != [] {
      StepSinceThen(s, events[0], t, before);
      RunSinceThen(Step(s, events[0]), events[1..], t, before);
    }
  }

  // A failed read empties the cache: in every run, whoever is answered after it is
  // answered with what was read after it.
  lemma FailedReadEmptiesCache(token: Option<string>, events: seq<Event>, more: seq<Event>, id: nat, next: nat)
    requires IsToken(token)
    requires var s := Exec(token, events);
      id in s.requests && Enabled(s, Leave(id)) && s.requests[id].Loaded? && s.requests[id].token.None?
    requires var s := Exec(token, events);
      var s' := Run(Apply(s, Leave(id)), more);
      next != id && (next in s.requests ==> !s.requests[next].Answered?)
      && next in s'.requests && s'.requests[next].Answered?
    ensures Apply(Exec(token, events), Leave(id)).cache == EMPTY
    ensures Exec(token, events).clock <= Run(Apply(Exec(token, events), Leave(id)), more).requests[next].at
  {
    var s := Exec(token, events);
    RunInv(Start(token), events);
    var s1 := Apply(s, Leave(id));
    var before := set i | i in s1.requests && s1.requests[i].Answered?;
    forall i | i in s1.requests && i !in before ensures !s1.requests[i].Loaded? {
      assert RequestOk(s, i, s.requests[i]);
    }
    RunSinceThen(s1, more, s.clock, before);
  }

  lemma RunStep(s: State, e: Event, events: seq<Event>, s': State)
    requires s.file != [] && Step(s, e) == s'
    ensures Run(s, [e] + events) == Run(s', events)
  {
    assert ([e] + events)[1..] == events;
  }

  // Rotation does not take effect at once: a request may arrive after the new
  // token is in place and still be checked against the old one.
  lemma OldTokenAfterRotation() returns (events: seq<Event>)
    ensures var s := Exec(Some("old"), events);
      && s.file == [Version(0, Some("old")), Version(0, Some("new"))]
      && 1 in s.requests && s.requests[1] == Answered(5, Some("old"), 0, 0)
  {
    var e3 := [Tick(5)] + ([Arrive(1)] + ([Enter(1)] + ([Leave(1)] + [])));
    var e2 := [Leave(0)] + ([Rotate(Some("new"))] + e3);
    events := [Arrive(0)] + ([Enter(0)] + ([Load(0, true)] + e2));
    var s0 := Start(Some("old"));
    var s1 := s0.(requests := map[0 := Loaded(0, Some("old"), 0, 0)], holder := Some(0));
    RunStep(s0, Arrive(0), [Enter(0)] + ([Load(0, true)] + e2), s0.(requests := map[0 := Arrived(0)]));
    RunStep(s0.(requests := map[0 := Arrived(0)]), Enter(0), [Load(0, true)] + e2,
            s1.(requests := map[0 := Holding(0)]));
    RunStep(s1.(requests := map[0 := Holding(0)]), Load(0, true), e2, s1);
    OldTokenAnswered(e3);
    OldTokenServed();
  }

  const ANSWERED := Answered(0, Some("old"), 0, 0)
  const ROTATED := State(
    0, [Version(0, Some("old")), Version(0, Some("new"))], Cache("old", TTL), 0, 0, None, map[0 := ANSWERED], [0])

  lemma OldTokenAnswered(events: seq<Event>)
    ensures var s := Start(Some("old")).(requests := map[0 := Loaded(0, Some("old"), 0, 0)], holder := Some(0));
      Run(s, [Leave(0)] + ([Rotate(Some("new"))] + events)) == Run(ROTATED, events)
  {
    var s := Start(Some("old")).(requests := map[0 := Loaded(0, Some("old"), 0, 0)], holder := Some(0));
    var s' := ROTATED.(file := [Version(0, Some("old"))]);
    RunStep(s, Leave(0), [Rotate(Some("new"))] + events, s');
    RunStep(s', Rotate(Some("new")), events, ROTATED);
  }

  lemma OldTokenServed()
    ensures Run(ROTATED, [Tick(5)] + ([Arrive(1)] + ([Enter(1)] + ([Leave(1)] + []))))
         == ROTATED.(clock := 5, requests := map[0 := ANSWERED, 1 := Answered(5, Some("old"), 0, 0)], served := [0, 0])
  {
    var s := ROTATED.(clock := 5);
    var s1 := s.(requests := map[0 := ANSWERED, 1 := Arrived(5)]);
    var s2 := s.(requests := map[0 := ANSWERED, 1 := Holding(5)], holder := Some(1));
    var s3 := s.(requests := map[0 := ANSWERED, 1 := Answered(5, Some("old"), 0, 0)], served := [0, 0]);
    RunStep(ROTATED, Tick(5), [Arrive(1)] + ([Enter(1)] + ([Leave(1)] + [])), s);
    RunStep(s, Arrive(1), [Enter(1)] + ([Leave(1)] + []), s1);
    RunStep(s1, Enter(1), [Leave(1)] + [], s2);
    RunStep(s2, Leave(1), [], s3);
  }

  // By moment now a later version than v had already been in the file.
  predicate Superseded(s: State, v: nat, now: int) {
    v + 1 < |s.file| && s.file[v + 1].since < now
  }

  // A request that took the lock when the cache held version v, and what becomes of it.
  predicate Follows(s: State, id: nat, now: int, hit: bool, v: nat, stale: bool) {
    && id in s.requests && s.requests[id].now == now && now <= s.clock
    && match s.requests[id]
       case Arrived(_) => false
       case Holding(_) =>
         s.holder == Some(id) && Hit(s.cache, now) == hit && s.version == v && stale == (hit && Superseded(s, v, now))
       case Loaded(_, _, w, _) => s.holder == Some(id) && !hit && !stale && w < |s.file| && !Superseded(s, w, now)
       case Answered(_, _, w, _) => w < |s.file| && Superseded(s, w, now) == stale
  }

  // What is rotated in after now supersedes nothing by then.
  lemma SupersededStays(s: State, s': State, v: nat, now: int)
    requires v < |s.file| && now <= s.clock
    requires s'.file == s.file || exists t :: s'.file == s.file + [Version(s.clock, t)]
    ensures Superseded(s', v, now) == Superseded(s, v, now)
  {
  }

  lemma ApplyFollows(s: State, e: Event, id: nat, now: int, hit: bool, v: nat, stale: bool)
    requires Inv(s) && Enabled(s, e) && Follows(s, id, now, hit, v, stale)
    ensures Follows(Apply(s, e), id, now, hit, v, stale)
  {
    ApplyKeepsFile(s, e);
    var s' := Apply(s, e);
    match s.requests[id] {
      case Holding(_) =>
        if hit {
          SupersededStays(s, s', v, now);
        }
      case Loaded(_, _, w, _) =>
        SupersededStays(s, s', w, now);
      case Answered(_, _, w, _) =>
        SupersededStays(s, s', w, now);
    }
  }

  lemma {:induction false} RunFollows(s: State, events: seq<Event>, id: nat, now: int, hit: bool, v: nat, stale: bool)
    requires Inv(s) && Follows(s, id, now, hit, v, stale)
    ensures s.file != [] && Follows(Run(s, events), id, now, hit, v, stale)
    decreases |events|
  {
    if events != [] {
      var e := events[0];
      RunInv(s, [e]);
      assert [e][1..] == [];
      assert Run(s, [e]) == Step(s, e);
      if Enabled(s, e) {
        ApplyFollows(s, e, id, now, hit, v, stale);
      }
      RunFollows(Step(s, e), events[1..], id, now, hit, v, stale);
    }
  }

  // A request that has taken the lock will be answered with a version superseded
  // before it arrived exactly when the cache is within its time and already holds
  // such a version, whatever is rotated in meanwhile; that version was then read
  // before the request arrived.
  lemma SupersededAnswerIff(token: Option<string>, events: seq<Event>, more: seq<Event>, id: nat)
    requires IsToken(token)
    requires var s := Exec(token, events); s.holder == Some(id) && id in s.requests && s.requests[id].Holding?
    requires var s' := Run(Exec(token, events), more); id in s'.requests && s'.requests[id].Answered?
    ensures var s, s' := Exec(token, events), Run(Exec(token, events), more);
      var now := s.requests[id].now;
      && s'.requests[id].now == now
      && (Superseded(s', s'.requests[id].version, now) <==> Hit(s.cache, now) && Superseded(s, s.version, now))
      && (s'.requests[id].token.Some? && Superseded(s', s'.requests[id].version, now) ==> s'.requests[id].at < now)
  {
    var s := Exec(token, events);
    var now := s.requests[id].now;
    RunInv(Start(token), events);
    assert RequestOk(s, id, s.requests[id]);
    var hit := Hit(s.cache, now);
    RunFollows(s, more, id, now, hit, s.version, hit && Superseded(s, s.version, now));
    RunInv(s, more);
    var s' := Run(s, more);
    assert RequestOk(s', id, s'.requests[id]);
  }

  // ---- the check itself ----

  const SCHEME := "bearer "

  // The token of an "Authorization: Bearer <token>" header.
  function Bearer(header: string): string {
    if |header| > |SCHEME| && Lower(header[..|SCHEME|]) == SCHEME then header[|SCHEME|..] else ""
  }

  predicate Allowed(header: string, token: Option<string>) {
    token.Some? && Bearer(header) == token.value
  }

  // A request passes exactly with the scheme, in any case, and the current token.
  lemma AllowedExactly(header: string, token: string)
    requires token != ""
    ensures Allowed(header, Some(token)) <==> exists scheme :: Lower(scheme) == "bearer " && header == scheme + token
    ensures !Allowed(header, None)
  {
    if Allowed(header, Some(token)) {
      assert header == header[..|SCHEME|] + token;
    }
    forall scheme | Lower(scheme) == SCHEME && header == scheme + token ensures Allowed(header, Some(token)) {
      assert header[..|SCHEME|] == scheme && header[|SCHEME|..] == token;
    }
  }
}
