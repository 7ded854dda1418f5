// The container list: one loop fills a slot per container and starts a goroutine
// that inspects it and completes the slot, at most eight at a time.
module FanOut {
  import opened Wrappers
  import opened Text

  const CONCURRENCY := 8

  datatype Raw = Raw(id: string, names: seq<string>, image: string, state: string, ports: seq<string>, created: int)

  datatype Container = Container(
    name: string, image: string, state: string, ports: seq<string>, createdAt: Option<int>,
    health: Option<string>, restartCount: Option<int>, oomKilled: Option<bool>, exitCode: Option<int>,
    error: Option<string>, startedAt: Option<int>, finishedAt: Option<int>)

  const ZERO := Container("", "", "", [], None, None, None, None, None, None, None, None)

  // What the loop writes into a slot.
  function Base(r: Raw): Container {
    ZERO.(name := if r.names == [] then "" else TrimPrefix(r.names[0], "/"),
          image := r.image, state := r.state, ports := r.ports,
          createdAt := if r.created <= 0 then None else Some(r.created))
  }

  // The answer to an inspection; times are already parsed.
  datatype Reply =
    | NoReply
    | Inspected(status: string, health: Option<string>, restartCount: int, running: bool, oomKilled: bool,
                exitCode: int, error: string, created: Option<int>, startedAt: Option<int>, finishedAt: Option<int>,
                ports: seq<string>, dead: bool)

  const STEPS := 11

  // The k-th assignment mergeContainerInspect makes to its slot.
  function Assign(k: nat, r: Reply, c: Container): Container {
    if r.NoReply? then c
    else match k
      case 0 => if r.status != "" then c.(state := r.status) else c
      case 1 => if r.health.Some? && r.health.value != "" then c.(health := r.health) else c
      case 2 => c.(restartCount := Some(r.restartCount))
      case 3 => if !r.running || r.oomKilled then c.(oomKilled := Some(r.oomKilled)) else c
      case 4 => if !r.running then c.(exitCode := Some(r.exitCode)) else c
      case 5 => if r.error != "" then c.(error := Some(r.error)) else c
      case 6 => if r.created.Some? then c.(createdAt := r.created) else c
      case 7 => c.(startedAt := r.startedAt)
      case 8 => c.(finishedAt := r.finishedAt)
      case 9 => if c.ports == [] then c.(ports := r.ports) else c
      case 10 => if r.dead then c.(state := "dead") else c
      case _ => c
  }

  // The slot after the first k of them.
  function Merged(r: Reply, c: Container, k: nat): Container {
    if k == 0 then c else Assign(k - 1, r, Merged(r, c, k - 1))
  }

  // A container completed by an answer: it overrides the listing field by field,
  // and no answer leaves it alone.
  function Completed(r: Reply, c: Container): Container {
    if r.NoReply? then c
    else Container(
      c.name, c.image,
      if r.dead then "dead" else if r.status != "" then r.status else c.state,
      if c.ports == [] then r.ports else c.ports,
      if r.created.Some? then r.created else c.createdAt,
      if r.health.Some? && r.health.value != "" then r.health else c.health,
      Some(r.restartCount),
      if !r.running || r.oomKilled then Some(r.oomKilled) else c.oomKilled,
      if !r.running then Some(r.exitCode) else c.exitCode,
      if r.error != "" then Some(r.error) else c.error,
      r.startedAt, r.finishedAt)
  }

  // After the first five assignments: what the other six set is still as it was.
  function HalfCompleted(r: Reply, c: Container): Container {
    if r.NoReply? then c
    else Completed(r, c).(
      state := if r.status != "" then r.status else c.state, error := c.error, createdAt := c.createdAt,
      startedAt := c.startedAt, finishedAt := c.finishedAt, ports := c.ports)
  }

  lemma MergedHalf(r: Reply, c: Container)
    ensures Merged(r, c, 5) == HalfCompleted(r, c)
  {
    MergedStep(r, c, 0); MergedStep(r, c, 1); MergedStep(r, c, 2); MergedStep(r, c, 3); MergedStep(r, c, 4);
  }

  lemma MergedIsCompleted(r: Reply, c: Container)
    ensures Merged(r, c, STEPS) == Completed(r, c)
  {
    hide Merged;
    MergedHalf(r, c);
    MergedStep(r, c, 5); MergedStep(r, c, 6); MergedStep(r, c, 7);
    MergedStep(r, c, 8); MergedStep(r, c, 9); MergedStep(r, c, 10);
  }

  lemma MergedStep(r: Reply, c: Container, k: nat)
    ensures Merged(r, c, k + 1) == Assign(k, r, Merged(r, c, k))
    ensures Merged(r, c, 0) == c
  {
  }

  function Expected(raw: seq<Raw>, replies: seq<Reply>): seq<Container>
    requires |replies| == |raw|
  {
    seq(|raw|, j requires 0 <= j < |raw| => Completed(replies[j], Base(raw[j])))
  }

  // What a slot holds at the end, in terms of the listing and the answer: name and
  // image are the listing's, and so are state, ports and creation time wherever the
  // answer gives none; everything else is the answer's.
  predicate Reported(l: Raw, r: Reply, c: Container) {
    var listed := if l.created > 0 then Some(l.created) else None;
    && c.image == l.image
    && (l.names == [] ==> c.name == "")
    && (l.names != [] ==>
          var first := l.names[0];
          c.name == if first != "" && first[0] == '/' then first[1..] else first)
    && (r.NoReply? ==>
          && c.state == l.state && c.ports == l.ports && c.createdAt == listed
          && c.health == None && c.restartCount == None && c.oomKilled == None && c.exitCode == None
          && c.error == None && c.startedAt == None && c.finishedAt == None)
    && (r.Inspected? ==>
          && c.state == (if r.dead then "dead" else if r.status == "" then l.state else r.status)
          && c.ports == (if l.ports == [] then r.ports else l.ports)
          && c.createdAt == (if r.created == None then listed else r.created)
          && c.health == (if r.health == Some("") then None else r.health)
          && c.restartCount == Some(r.restartCount)
          && c.oomKilled == (if r.running && !r.oomKilled then None else Some(r.oomKilled))
          && c.exitCode == (if r.running then None else Some(r.exitCode))
          && c.error == (if r.error == "" then None else Some(r.error))
          && c.startedAt == r.startedAt && c.finishedAt == r.finishedAt)
  }

  lemma CompletedIsReported(l: Raw, r: Reply)
    ensures Reported(l, r, Completed(r, Base(l)))
  {
    if l.names != [] && l.names[0] != "" {
      assert l.names[0][..1] == [l.names[0][0]];
    }
  }

  // mergeContainerInspect, statement by statement, on the slot it is given.
  method MergeContainerInspect(r: Reply, out: array<Container>, idx: nat)
    requires idx < out.Length
    modifies out
    ensures out[..] == old(out[..])[idx := Completed(r, old(out[idx]))]
  {
    if r.NoReply? {
      assert out[..][idx := out[idx]] == out[..];
      return;
    }
    var c := out[idx];
    if r.status != "" {
      c := c.(state := r.status);
    }
    if r.health.Some? && r.health.value != "" {
      c := c.(health := r.health);
    }
    c := c.(restartCount := Some(r.restartCount));
    if !r.running || r.oomKilled {
      c := c.(oomKilled := Some(r.oomKilled));
    }
    if !r.running {
      c := c.(exitCode := Some(r.exitCode));
    }
    assert c == HalfCompleted(r, out[idx]);
    if r.error != "" {
      c := c.(error := Some(r.error));
    }
    if r.created.Some? {
      c := c.(createdAt := r.created);
    }
    c := c.(startedAt := r.startedAt);
    c := c.(finishedAt := r.finishedAt);
    if c.ports == [] {
      c := c.(ports := r.ports);
    }
    if r.dead {
      c := c.(state := "dead");
    }
    out[idx] := c;
  }

  // The loop without goroutines.
  method ReadSequentially(raw: seq<Raw>, replies: seq<Reply>) returns (out: array<Container>)
    requires |replies| == |raw|
    ensures out[..] == Expected(raw, replies)
    ensures out.Length == |raw| && forall j :: 0 <= j < |raw| ==> Reported(raw[j], replies[j], out[j])
  {
    out := new Container[|raw|](_ => ZERO);
    for i := 0 to |raw|
      invariant out[..i] == Expected(raw, replies)[..i]
    {
      out[i] := Base(raw[i]);
      MergeContainerInspect(replies[i], out, i);
      assert out[..i + 1] == out[..i] + [out[i]];
      assert Expected(raw, replies)[..i + 1] == Expected(raw, replies)[..i] + [Expected(raw, replies)[i]];
    }
    assert out[..] == out[..|raw|];
    forall j | 0 <= j < |raw| ensures Reported(raw[j], replies[j], out[..][j]) {
      CompletedIsReported(raw[j], replies[j]);
    }
  }

  // ---- the loop and its goroutines, interleaved ----

  datatype Phase = Waiting | Working(k: nat) | Released | Finished

  // Where the loop stands: about to write the slot, to take a semaphore slot, to
  // start the goroutine; or waiting for all of them, or done.
  datatype Place = AtSlot | AtSemaphore | AtStart | AtWait | AtEnd

  datatype Actor = Loop | Worker(j: nat)

  datatype Write = Write(slot: nat, actor: Actor)

  datatype State = State(
    i: nat, place: Place, semaphore: nat, group: nat,
    out: seq<Container>, phases: seq<Phase>, writes: seq<Write>)

  function Start(n: nat): State {
    State(0, if n == 0 then AtWait else AtSlot, 0, 0, seq(n, _ => ZERO), seq(n, _ => Waiting), [])
  }

  predicate Enabled(s: State, a: Actor) {
    match a
    case Loop => s.place.AtSlot? || (s.place.AtSemaphore? && s.semaphore < CONCURRENCY) || s.place.AtStart?
                 || (s.place.AtWait? && s.group == 0)
    case Worker(j) => j < |s.phases| && (s.phases[j].Working? || s.phases[j].Released?)
  }

  // One step of an actor: the semaphore is released before the wait group is told.
  function Step(raw: seq<Raw>, replies: seq<Reply>, s: State, a: Actor): State
    requires |replies| == |raw| && Shaped(raw, s) && Enabled(s, a)
  {
    match a
    case Loop =>
      (match s.place
       case AtSlot => s.(out := s.out[s.i := Base(raw[s.i])], place := AtSemaphore,
                        writes := s.writes + [Write(s.i, Loop)])
       case AtSemaphore => s.(semaphore := s.semaphore + 1, place := AtStart)
       case AtStart => s.(group := s.group + 1, phases := s.phases[s.i := Working(0)], i := s.i + 1,
                          place := if s.i + 1 == |raw| then AtWait else AtSlot)
       case AtWait => s.(place := AtEnd)
       case AtEnd => s)
    case Worker(j) =>
      (match s.phases[j]
       case Working(k) =>
         if k < STEPS then
           s.(out := s.out[j := Assign(k, replies[j], s.out[j])], phases := s.phases[j := Working(k + 1)],
              writes := s.writes + [Write(j, Worker(j))])
         else s.(semaphore := if s.semaphore > 0 then s.semaphore - 1 else 0, phases := s.phases[j := Released])
       case Released => s.(group := if s.group > 0 then s.group - 1 else 0, phases := s.phases[j := Finished])
       case _ => s)
  }

  predicate Shaped(raw: seq<Raw>, s: State) {
    && |s.out| == |s.phases| == |raw|
    && s.i <= |raw|
    && (s.place.AtWait? || s.place.AtEnd? <==> s.i == |raw|)
  }

  // A goroutine in its inspection holds a semaphore slot; until it has told the
  // wait group it counts as running.
  predicate Counts(p: Phase, running: bool) {
    p.Working? || (running && p.Released?)
  }

  function Count(ps: seq<Phase>, running: bool): nat {
    if ps == [] then 0 else Count(ps[..|ps| - 1], running) + if Counts(ps[|ps| - 1], running) then 1 else 0
  }

  lemma {:induction false} CountUpdate(ps: seq<Phase>, j: nat, p: Phase, running: bool)
    requires j < |ps|
    ensures Count(ps[j := p], running) + (if Counts(ps[j], running) then 1 else 0)
         == Count(ps, running) + (if Counts(p, running) then 1 else 0)
  {
    var front := ps[..|ps| - 1];
    if j < |ps| - 1 {
      CountUpdate(front, j, p, running);
      assert ps[j := p][..|ps| - 1] == front[j := p];
    } else {
      assert ps[j := p][..|ps| - 1] == front;
    }
  }

  lemma {:induction false} CountFinds(ps: seq<Phase>, running: bool) returns (j: nat)
    requires Count(ps, running) > 0
    ensures j < |ps| && Counts(ps[j], running)
  {
    if Counts(ps[|ps| - 1], running) {
      j := |ps| - 1;
    } else {
      j := CountFinds(ps[..|ps| - 1], running);
    }
  }

  lemma {:induction false} CountNone(ps: seq<Phase>, running: bool)
    ensures Count(ps, running) == 0 <==> forall j :: 0 <= j < |ps| ==> !Counts(ps[j], running)
  {
    if ps != [] {
      CountNone(ps[..|ps| - 1], running);
    }
  }

  function Done(p: Phase): nat {
    match p case Waiting => 0 case Working(k) => k case _ => STEPS
  }

  predicate SlotOk(raw: seq<Raw>, replies: seq<Reply>, s: State, j: nat)
    requires |replies| == |raw| && Shaped(raw, s) && j < |raw|
  {
    && (s.phases[j].Waiting? <==> j >= s.i)
    && (s.phases[j].Working? ==> s.phases[j].k <= STEPS)
    && (j < s.i ==> s.out[j] == Merged(replies[j], Base(raw[j]), Done(s.phases[j])))
    && (j == s.i && !s.place.AtSlot? ==> s.out[j] == Base(raw[j]))
  }

  predicate WritesOk(s: State) {
    && (forall a :: 0 <= a < |s.writes| ==> s.writes[a].slot < |s.phases|)
    && (forall a :: 0 <= a < |s.writes| && s.writes[a].actor.Worker? ==>
          s.writes[a].actor.j == s.writes[a].slot && !s.phases[s.writes[a].slot].Waiting?)
    && (forall a, b :: 0 <= a <= b < |s.writes| && s.writes[a].slot == s.writes[b].slot && s.writes[a].actor.Worker? ==>
          !s.writes[b].actor.Loop?)
  }

  ghost predicate Inv(raw: seq<Raw>, replies: seq<Reply>, s: State)
    requires |replies| == |raw|
  {
    && Shaped(raw, s)
    && (forall j :: 0 <= j < |raw| ==> SlotOk(raw, replies, s, j))
    && s.semaphore == Count(s.phases, false) + (if s.place.AtStart? then 1 else 0)
    && s.semaphore <= CONCURRENCY
    && s.group == Count(s.phases, true)
    && (s.place.AtEnd? ==> s.group == 0)
    && WritesOk(s)
  }

  lemma {:induction false} StartCounts(n: nat, running: bool)
    ensures Count(seq(n, _ => Waiting), running) == 0
  {
    CountNone(seq(n, _ => Waiting), running);
  }

  lemma StartInv(raw: seq<Raw>, replies: seq<Reply>)
    requires |replies| == |raw|
    ensures Inv(raw, replies, Start(|raw|))
  {
    StartCounts(|raw|, false);
    StartCounts(|raw|, true);
  }

  lemma StepKeepsSlot(raw: seq<Raw>, replies: seq<Reply>, s: State, a: Actor, j: nat)
    requires |replies| == |raw| && Inv(raw, replies, s) && Enabled(s, a) && j < |raw|
    ensures Shaped(raw, Step(raw, replies, s, a)) && SlotOk(raw, replies, Step(raw, replies, s, a), j)
  {
    assert SlotOk(raw, replies, s, j);
    if s.i < |raw| {
      assert SlotOk(raw, replies, s, s.i);
    }
  }

  lemma StepKeepsCounts(raw: seq<Raw>, replies: seq<Reply>, s: State, a: Actor)
    requires |replies| == |raw| && Inv(raw, replies, s) && Enabled(s, a)
    ensures var s' := Step(raw, replies, s, a);
      && s'.semaphore == Count(s'.phases, false) + (if s'.place.AtStart? then 1 else 0)
      && s'.semaphore <= CONCURRENCY
      && s'.group == Count(s'.phases, true)
      && (s'.place.AtEnd? ==> s'.group == 0)
  {
    var s' := Step(raw, replies, s, a);
    match a {
      case Loop =>
        if s.place.AtStart? {
          assert SlotOk(raw, replies, s, s.i);
          CountUpdate(s.phases, s.i, Working(0), false);
          CountUpdate(s.phases, s.i, Working(0), true);
        }
      case Worker(j) =>
        CountUpdate(s.phases, j, s'.phases[j], false);
        CountUpdate(s.phases, j, s'.phases[j], true);
        CountNone(s.phases, false);
        CountNone(s.phases, true);
    }
  }

  lemma StepKeepsWrites(raw: seq<Raw>, replies: seq<Reply>, s: State, a: Actor)
    requires |replies| == |raw| && Inv(raw, replies, s) && Enabled(s, a)
    ensures WritesOk(Step(raw, replies, s, a))
  {
    if a.Loop? && s.place.AtSlot? {
      assert SlotOk(raw, replies, s, s.i);
    }
  }

  lemma StepKeepsInv(raw: seq<Raw>, replies: seq<Reply>, s: State, a: Actor)
    requires |replies| == |raw| && Inv(raw, replies, s) && Enabled(s, a)
    ensures Inv(raw, replies, Step(raw, replies, s, a))
  {
    hide SlotOk, WritesOk;
    forall j | 0 <= j < |raw| ensures SlotOk(raw, replies, Step(raw, replies, s, a), j) {
      StepKeepsSlot(raw, replies, s, a, j);
    }
    StepKeepsCounts(raw, replies, s, a);
    StepKeepsWrites(raw, replies, s, a);
  }

  // A run: any sequence of steps each possible when it is taken.
  ghost predicate IsRun(raw: seq<Raw>, replies: seq<Reply>, actors: seq<Actor>, states: seq<State>)
    requires |replies| == |raw|
  {
    && |states| == |actors| + 1
    && states[0] == Start(|raw|)
    && forall t :: 0 <= t < |actors| ==>
         Shaped(raw, states[t]) && Enabled(states[t], actors[t])
         && states[t + 1] == Step(raw, replies, states[t], actors[t])
  }

  lemma {:induction false} RunInv(raw: seq<Raw>, replies: seq<Reply>, actors: seq<Actor>, states: seq<State>, t: nat)
    requires |replies| == |raw| && IsRun(raw, replies, actors, states) && t < |states|
    ensures Inv(raw, replies, states[t])
  {
    if t == 0 {
      StartInv(raw, replies);
    } else {
      RunInv(raw, replies, actors, states, t - 1);
      StepKeepsInv(raw, replies, states[t - 1], actors[t - 1]);
    }
  }

  // At most eight inspections are in flight at any moment.
  lemma AtMostEight(raw: seq<Raw>, replies: seq<Reply>, actors: seq<Actor>, states: seq<State>, t: nat)
    requires |replies| == |raw| && IsRun(raw, replies, actors, states) && t < |states|
    ensures var phases := states[t].phases;
      |set j | 0 <= j < |phases| && phases[j].Working?| <= 8
  {
    RunInv(raw, replies, actors, states, t);
    var phases := states[t].phases;
    CountIsCardinality(phases, false);
    assert (set j | 0 <= j < |phases| && Counts(phases[j], false)) == set j | 0 <= j < |phases| && phases[j].Working?;
  }

  // Count is what it says: the number of goroutines in their inspection.
  lemma {:induction false} CountIsCardinality(ps: seq<Phase>, running: bool)
    ensures Count(ps, running) == |set j | 0 <= j < |ps| && Counts(ps[j], running)|
  {
    hide Counts;
    if ps != [] {
      var last, front := |ps| - 1, ps[..|ps| - 1];
      CountIsCardinality(front, running);
      var all := set j | 0 <= j < |ps| && Counts(ps[j], running);
      var before := set j | 0 <= j < |front| && Counts(front[j], running);
      if Counts(ps[last], running) {
        assert all == before + {last};
      } else {
        assert all == before;
      }
    }
  }

  // A slot is written by the loop, and after that only by its own goroutine.
  lemma SlotsAreNotShared(raw: seq<Raw>, replies: seq<Reply>, actors: seq<Actor>, states: seq<State>,
                          t: nat, a: nat, b: nat)
    requires |replies| == |raw| && IsRun(raw, replies, actors, states) && t < |states|
    requires a < |states[t].writes| && b < |states[t].writes| && states[t].writes[a].slot == states[t].writes[b].slot
    ensures var w, v := states[t].writes[a], states[t].writes[b];
      && (w.actor.Worker? ==> w.actor.j == w.slot)
      && (w.actor.Worker? && v.actor.Loop? ==> b < a)
  {
    RunInv(raw, replies, actors, states, t);
  }

  // There is no deadlock: until the loop is done someone can take a step.
  lemma SomeoneCanStep(raw: seq<Raw>, replies: seq<Reply>, s: State) returns (a: Actor)
    requires |replies| == |raw| && Inv(raw, replies, s) && !s.place.AtEnd?
    ensures Enabled(s, a)
  {
    a := Loop;
    if s.place.AtSemaphore? && s.semaphore == CONCURRENCY {
      var j := CountFinds(s.phases, false);
      a := Worker(j);
    } else if s.place.AtWait? && s.group > 0 {
      var j := CountFinds(s.phases, true);
      a := Worker(j);
    }
  }

  // ---- every run ends ----

  function LeftOf(p: Phase): nat {
    match p
    case Waiting => STEPS + 2
    case Working(k) => if k <= STEPS then STEPS - k + 2 else 0
    case Released => 1
    case Finished => 0
  }

  function Left(ps: seq<Phase>): nat {
    if ps == [] then 0 else Left(ps[..|ps| - 1]) + LeftOf(ps[|ps| - 1])
  }

  function LoopLeft(raw: seq<Raw>, s: State): int {
    match s.place
    case AtSlot => 3 * (|raw| - s.i) + 1
    case AtSemaphore => 3 * (|raw| - s.i)
    case AtStart => 3 * (|raw| - s.i) - 1
    case AtWait => 1
    case AtEnd => 0
  }

  lemma {:induction false} LeftUpdate(ps: seq<Phase>, j: nat, p: Phase)
    requires j < |ps|
    ensures Left(ps[j := p]) + LeftOf(ps[j]) == Left(ps) + LeftOf(p)
  {
    var front := ps[..|ps| - 1];
    if j < |ps| - 1 {
      LeftUpdate(front, j, p);
      assert ps[j := p][..|ps| - 1] == front[j := p];
    } else {
      assert ps[j := p][..|ps| - 1] == front;
    }
  }

  lemma {:induction false} StartLeft(n: nat)
    ensures Left(seq(n, _ => Waiting)) == n * (STEPS + 2)
  {
    if n > 0 {
      StartLeft(n - 1);
      assert seq(n, _ => Waiting)[..n - 1] == seq(n - 1, _ => Waiting);
    }
  }

  // Every step uses up exactly one of the steps left.
  lemma StepUsesOne(raw: seq<Raw>, replies: seq<Reply>, s: State, a: Actor)
    requires |replies| == |raw| && Inv(raw, replies, s) && Enabled(s, a)
    ensures var s' := Step(raw, replies, s, a);
      LoopLeft(raw, s') + Left(s'.phases) == LoopLeft(raw, s) + Left(s.phases) - 1
  {
    var s' := Step(raw, replies, s, a);
    match a {
      case Loop =>
        if s.place.AtStart? {
          assert SlotOk(raw, replies, s, s.i);
          LeftUpdate(s.phases, s.i, Working(0));
        }
      case Worker(j) =>
        assert SlotOk(raw, replies, s, j);
        LeftUpdate(s.phases, j, s'.phases[j]);
    }
  }

  lemma {:induction false} StepsUsed(raw: seq<Raw>, replies: seq<Reply>, actors: seq<Actor>, states: seq<State>, t: nat)
    requires |replies| == |raw| && IsRun(raw, replies, actors, states) && t < |states|
    ensures LoopLeft(raw, states[t]) + Left(states[t].phases) == |raw| * (STEPS + 5) + 1 - t
  {
    if t == 0 {
      StartLeft(|raw|);
      assert |raw| * (STEPS + 2) + 3 * |raw| == |raw| * (STEPS + 5);
    } else {
      StepsUsed(raw, replies, actors, states, t - 1);
      RunInv(raw, replies, actors, states, t - 1);
      StepUsesOne(raw, replies, states[t - 1], actors[t - 1]);
    }
  }

  // However the steps fall, a run takes no more than sixteen per container and one.
  lemma RunsEnd(raw: seq<Raw>, replies: seq<Reply>, actors: seq<Actor>, states: seq<State>)
    requires |replies| == |raw| && IsRun(raw, replies, actors, states)
    ensures |actors| <= 16 * |raw| + 1
  {
    StepsUsed(raw, replies, actors, states, |actors|);
    RunInv(raw, replies, actors, states, |actors|);
  }

  // Once the wait is over every semaphore slot is free, every goroutine finished,
  // and the slots hold what the sequential loop would have put there.
  lemma EndIsSequentialResult(raw: seq<Raw>, replies: seq<Reply>, actors: seq<Actor>, states: seq<State>, t: nat)
    requires |replies| == |raw| && IsRun(raw, replies, actors, states) && t < |states| && states[t].place.AtEnd?
    ensures states[t].semaphore == 0 && states[t].group == 0
    ensures |states[t].phases| == |raw| && forall j :: 0 <= j < |raw| ==> states[t].phases[j].Finished?
    ensures states[t].out == Expected(raw, replies)
    ensures |states[t].out| == |raw| && forall j :: 0 <= j < |raw| ==> Reported(raw[j], replies[j], states[t].out[j])
  {
    var s := states[t];
    RunInv(raw, replies, actors, states, t);
    CountNone(s.phases, true);
    CountNone(s.phases, false);
    forall j | 0 <= j < |raw| ensures s.phases[j].Finished? && s.out[j] == Completed(replies[j], Base(raw[j])) {
      assert SlotOk(raw, replies, s, j);
      MergedIsCompleted(replies[j], Base(raw[j]));
    }
    assert s.out == Expected(raw, replies);
    forall j | 0 <= j < |raw| ensures Reported(raw[j], replies[j], s.out[j]) {
      CompletedIsReported(raw[j], replies[j]);
    }
  }
}
