// Concurrent dirSizeGB calls: the clock, the two lock sections of each call and
// the walk between them, and what callers do with the pointers they are given, in
// any order.
module DirSizeCalls {
  import opened Wrappers
  import DirSize

  // One walk of a directory: when it began and what it measured.
  datatype Walk = Walk(root: string, begun: int, size: Option<real>)

  // A *float64: nil, or a position among the cells allocated so far.
  type Pointer = Option<nat>

  // walk: the position in the history of walks of the one a size comes from.
  datatype Entry = Entry(at: int, cell: Pointer, walk: nat)

  // size: what the pointer returned led to; written: its caller has written through it since.
  datatype Call =
    | Asked(root: string, now: int)
    | Missed(root: string, now: int)
    | Walking(root: string, now: int, begun: int)
    | Measured(root: string, now: int, cell: Pointer, walk: nat)
    | Returned(root: string, now: int, cell: Pointer, walk: nat, size: Option<real>, written: bool)

  datatype State = State(
    clock: int, cells: seq<real>, cache: map<string, Entry>, walks: seq<Walk>, calls: map<nat, Call>)

  datatype Event =
    | Tick(d: nat)
    | Ask(id: nat, root: string)               // takes the time
    | Look(id: nat)                            // first lock section
    | Begin(id: nat)                           // the walk starts
    | End(id: nat, size: Option<real>)         // and ends, with nothing if nothing was readable
    | Store(id: nat)                           // second lock section, and the return
    | Write(id: nat, value: real)              // the caller writes through the pointer it got

  const START := State(0, [], map[], [], map[])

  function Value(cells: seq<real>, cell: Pointer): Option<real> {
    if cell.Some? && cell.value < |cells| then Some(cells[cell.value]) else None
  }

  // The cache as dirSizeGB's lock sections see it.
  function Cached(s: State): map<string, DirSize.Seen> {
    map root | root in s.cache :: DirSize.Seen(s.cache[root].at, Value(s.cells, s.cache[root].cell))
  }

  // A new cell with a value, if there is one.
  function Alloc(cells: seq<real>, value: Option<real>): (seq<real>, Pointer) {
    if value.Some? then (cells + [value.value], Some(|cells|)) else (cells, None)
  }

  function Step(s: State, e: Event): State {
    match e
    case Tick(d) => s.(clock := s.clock + d)
    case Ask(id, root) => if id in s.calls then s else s.(calls := s.calls[id := Asked(root, s.clock)])
    case Look(id) =>
      if id in s.calls && s.calls[id].Asked? then
        var c := s.calls[id];
        if DirSize.Hits(Cached(s), c.root, c.now) then
          var value := Value(s.cells, s.cache[c.root].cell);
          var (cells, clone) := Alloc(s.cells, value);
          s.(cells := cells, calls := s.calls[id := Returned(c.root, c.now, clone, s.cache[c.root].walk, value, false)])
        else s.(calls := s.calls[id := Missed(c.root, c.now)])
      else s
    case Begin(id) =>
      if id in s.calls && s.calls[id].Missed? then
        s.(calls := s.calls[id := Walking(s.calls[id].root, s.calls[id].now, s.clock)])
      else s
    case End(id, size) =>
      if id in s.calls && s.calls[id].Walking? then
        var c := s.calls[id];
        var (cells, cell) := Alloc(s.cells, size);
        s.(cells := cells, walks := s.walks + [Walk(c.root, c.begun, size)],
           calls := s.calls[id := Measured(c.root, c.now, cell, |s.walks|)])
      else s
    case Store(id) =>
      if id in s.calls && s.calls[id].Measured? then
        var c := s.calls[id];
        var value := Value(s.cells, c.cell);
        var calls := s.calls[id := Returned(c.root, c.now, c.cell, c.walk, value, false)];
        if value.None? then s.(calls := calls)
        else
          var (cells, clone) := Alloc(s.cells, value);
          s.(cells := cells, calls := calls, cache := s.cache[c.root := Entry(c.now, clone, c.walk)])
      else s
    case Write(id, value) =>
      if id in s.calls && s.calls[id].Returned? && Value(s.cells, s.calls[id].cell).Some? then
        s.(cells := s.cells[s.calls[id].cell.value := value], calls := s.calls[id := s.calls[id].(written := true)])
      else s
  }

  // Every interleaving is some sequence of events; those not possible do nothing.
  function Run(s: State, events: seq<Event>): State
    decreases |events|
  {
    if events == [] then s else Run(Step(s, events[0]), events[1..])
  }

  // The size is what a walk of that directory, begun later than the bound, measured.
  predicate FromWalk(s: State, root: string, size: Option<real>, walk: nat, after: int) {
    walk < |s.walks| && s.walks[walk].root == root && s.walks[walk].size == size && s.walks[walk].begun > after
  }

  function PointerOf(c: Call): Pointer {
    if c.Measured? || c.Returned? then c.cell else None
  }

  predicate CallOk(s: State, c: Call) {
    && (PointerOf(c).Some? ==> PointerOf(c).value < |s.cells|)
    && match c
       case Asked(_, now) => now <= s.clock
       case Missed(_, now) => now <= s.clock
       case Walking(_, now, begun) => now <= begun
       case Measured(root, now, cell, walk) => FromWalk(s, root, Value(s.cells, cell), walk, now - 1)
       case Returned(root, now, cell, walk, size, written) =>
         && (cell.Some? <==> size.Some?)
         && (!written ==> Value(s.cells, cell) == size)
         && (size.Some? ==> FromWalk(s, root, size, walk, now - DirSize.TTL))
  }

  predicate EntryOk(s: State, root: string, e: Entry) {
    e.cell.Some? && e.cell.value < |s.cells| && FromWalk(s, root, Value(s.cells, e.cell), e.walk, e.at - 1)
  }

  // A call's pointer is no other call's and none of the cache's.
  predicate Own(s: State, id: nat)
    requires id in s.calls
  {
    var p := PointerOf(s.calls[id]);
    p.Some? ==>
      && (forall other :: other in s.calls && other != id ==> PointerOf(s.calls[other]) != p)
      && (forall root :: root in s.cache ==> s.cache[root].cell != p)
  }

  ghost predicate Inv(s: State) {
    && (forall root :: root in s.cache ==> EntryOk(s, root, s.cache[root]))
    && (forall id :: id in s.calls ==> CallOk(s, s.calls[id]) && Own(s, id))
  }

  // ---- the two lock sections are those of the cache ----

  // Both leave the view of the cache as Cache.Lookup and Cache.Store do.
  lemma LookIsLookup(s: State, id: nat)
    requires Inv(s) && id in s.calls && s.calls[id].Asked?
    ensures var c, c' := s.calls[id], Step(s, Look(id)).calls[id];
      && Cached(Step(s, Look(id))) == Cached(s)
      && (c'.Returned? <==> c.root in Cached(s) && c.now - Cached(s)[c.root].at < 60_000_000_000)
      && (c'.Returned? ==> c'.size == Cached(s)[c.root].size && Value(Step(s, Look(id)).cells, c'.cell) == c'.size)
  {
    var s' := Step(s, Look(id));
    forall root | root in s.cache ensures Value(s'.cells, s.cache[root].cell) == Value(s.cells, s.cache[root].cell) {
      assert EntryOk(s, root, s.cache[root]);
    }
  }

  lemma StoreIsStore(s: State, id: nat)
    requires Inv(s) && id in s.calls && s.calls[id].Measured? && s.calls[id].cell.Some?
    ensures var c := s.calls[id];
      Cached(Step(s, Store(id))) == Cached(s)[c.root := DirSize.Seen(c.now, Value(s.cells, c.cell))]
  {
    var s' := Step(s, Store(id));
    assert CallOk(s, s.calls[id]);
    forall root | root in s.cache ensures Value(s'.cells, s.cache[root].cell) == Value(s.cells, s.cache[root].cell) {
      assert EntryOk(s, root, s.cache[root]);
    }
  }

  // ---- every step keeps the invariant ----

  lemma StepKeepsEntry(s: State, e: Event, root: string)
    requires Inv(s) && root in Step(s, e).cache
    ensures EntryOk(Step(s, e), root, Step(s, e).cache[root])
  {
    hide Own;
    if e.Store? && e.id in s.calls {
      assert CallOk(s, s.calls[e.id]);
    }
    if root in s.cache {
      assert EntryOk(s, root, s.cache[root]);
    }
    if e.Write? {
      WriteKeepsEntry(s, e.id, e.value, root);
    }
  }

  lemma WriteKeepsEntry(s: State, i: nat, value: real, root: string)
    requires Inv(s) && root in s.cache
    ensures EntryOk(Step(s, Write(i, value)), root, s.cache[root])
  {
    assert EntryOk(s, root, s.cache[root]);
    if i in s.calls {
      assert Own(s, i);
    }
  }

  lemma StepKeepsCall(s: State, e: Event, id: nat)
    requires Inv(s) && id in Step(s, e).calls
    ensures CallOk(Step(s, e), Step(s, e).calls[id])
  {
    hide CallOk, Own, EntryOk, Inv;
    if id !in s.calls {
      NewCallIsOk(s, e, id);
    } else {
      hide Step;
      match e {
        case Look(i) =>
          LookKeepsCall(s, i, id);
        case End(i, size) =>
          EndKeepsCall(s, i, size, id);
        case Store(i) =>
          StoreKeepsCall(s, i, id);
        case Write(i, value) =>
          WriteKeepsCall(s, i, value, id);
        case _ =>
          OtherKeepsCall(s, e, id);
      }
    }
  }

  lemma NewCallIsOk(s: State, e: Event, id: nat)
    requires id !in s.calls && id in Step(s, e).calls
    ensures CallOk(Step(s, e), Step(s, e).calls[id])
  {
  }

  lemma OtherKeepsCall(s: State, e: Event, id: nat)
    requires Inv(s) && id in s.calls && (e.Tick? || e.Ask? || e.Begin?)
    ensures id in Step(s, e).calls && CallOk(Step(s, e), Step(s, e).calls[id])
  {
    hide Own, EntryOk;
    assert CallOk(s, s.calls[id]);
  }

  lemma EndKeepsCall(s: State, i: nat, size: Option<real>, id: nat)
    requires Inv(s) && id in s.calls
    ensures id in Step(s, End(i, size)).calls && CallOk(Step(s, End(i, size)), Step(s, End(i, size)).calls[id])
  {
    hide Own, EntryOk;
    assert CallOk(s, s.calls[id]);
  }

  lemma StoreKeepsCall(s: State, i: nat, id: nat)
    requires Inv(s) && id in s.calls
    ensures id in Step(s, Store(i)).calls && CallOk(Step(s, Store(i)), Step(s, Store(i)).calls[id])
  {
    hide Own, EntryOk;
    assert CallOk(s, s.calls[id]);
  }

  lemma LookKeepsCall(s: State, i: nat, id: nat)
    requires Inv(s) && id in s.calls
    ensures id in Step(s, Look(i)).calls && CallOk(Step(s, Look(i)), Step(s, Look(i)).calls[id])
  {
    hide Own;
    var c := s.calls[id];
    assert CallOk(s, c);
    if c.Asked? && c.root in s.cache {
      assert EntryOk(s, c.root, s.cache[c.root]);
    }
  }

  lemma WriteKeepsCall(s: State, i: nat, value: real, id: nat)
    requires Inv(s) && id in s.calls
    ensures id in Step(s, Write(i, value)).calls && CallOk(Step(s, Write(i, value)), Step(s, Write(i, value)).calls[id])
  {
    hide EntryOk;
    assert CallOk(s, s.calls[id]);
    if i in s.calls {
      assert Own(s, i);
    }
  }

  // A step makes at most one pointer, to the next cell: for one call or for one
  // entry of the cache.
  lemma PointerStep(s: State, e: Event, id: nat)
    requires id in Step(s, e).calls
    ensures var p := PointerOf(Step(s, e).calls[id]);
      || p.None?
      || (id in s.calls && p == PointerOf(s.calls[id]))
      || (p == Some(|s.cells|) && (e == Look(id) || (e.End? && e.id == id)))
  {
  }

  lemma CellStep(s: State, e: Event, root: string)
    requires root in Step(s, e).cache
    ensures var p := Step(s, e).cache[root].cell;
      || (root in s.cache && p == s.cache[root].cell)
      || (p == Some(|s.cells|) && e.Store?)
  {
  }

  lemma StepKeepsOwn(s: State, e: Event, id: nat)
    requires Inv(s) && id in Step(s, e).calls
    ensures Own(Step(s, e), id)
  {
    hide Step;
    var s' := Step(s, e);
    PointerStep(s, e, id);
    assert id in s.calls ==> CallOk(s, s.calls[id]) && Own(s, id);
    forall other | other in s'.calls && other != id && PointerOf(s'.calls[id]).Some?
      ensures PointerOf(s'.calls[other]) != PointerOf(s'.calls[id])
    {
      PointerStep(s, e, other);
      assert other in s.calls ==> CallOk(s, s.calls[other]);
    }
    forall root | root in s'.cache && PointerOf(s'.calls[id]).Some?
      ensures s'.cache[root].cell != PointerOf(s'.calls[id])
    {
      CellStep(s, e, root);
      assert root in s.cache ==> EntryOk(s, root, s.cache[root]);
    }
  }

  lemma StepKeepsInv(s: State, e: Event)
    requires Inv(s)
    ensures Inv(Step(s, e))
  {
    hide Step, EntryOk, CallOk, Own;
    forall root | root in Step(s, e).cache ensures EntryOk(Step(s, e), root, Step(s, e).cache[root]) {
      StepKeepsEntry(s, e, root);
    }
    forall id | id in Step(s, e).calls ensures CallOk(Step(s, e), Step(s, e).calls[id]) && Own(Step(s, e), id) {
      StepKeepsCall(s, e, id);
      StepKeepsOwn(s, e, id);
    }
  }

  lemma {:induction false} RunKeepsInv(s: State, events: seq<Event>)
    requires Inv(s)
    ensures Inv(Run(s, events))
    decreases |events|
  {
    hide Inv, Step;
    if events != [] {
      StepKeepsInv(s, events[0]);
      RunKeepsInv(Step(s, events[0]), events[1..]);
    }
  }

  // Whatever the interleaving, a size returned is what some walk of that very
  // directory measured, begun later than the caller's time less a minute.
  lemma ReturnedSizeIsRecent(events: seq<Event>, id: nat)
    requires var s := Run(START, events); id in s.calls && s.calls[id].Returned? && s.calls[id].size.Some?
    ensures var s := Run(START, events);
      var c := s.calls[id];
      FromWalk(s, c.root, c.size, c.walk, c.now - 60_000_000_000)
  {
    RunKeepsInv(START, events);
    assert CallOk(Run(START, events), Run(START, events).calls[id]);
  }

  // Whatever callers write through their pointers, a pointer nobody but its own
  // caller could have written through still leads to the size it was returned
  // with, and the cache still holds what a walk of the directory measured.
  lemma WritesStayOwn(events: seq<Event>)
    ensures var s := Run(START, events);
      && (forall id :: id in s.calls && s.calls[id].Returned? && !s.calls[id].written ==>
            Value(s.cells, s.calls[id].cell) == s.calls[id].size)
      && (forall root :: root in s.cache ==>
            var e := s.cache[root];
            e.walk < |s.walks| && s.walks[e.walk].root == root && Value(s.cells, e.cell) == s.walks[e.walk].size)
  {
    RunKeepsInv(START, events);
    var s := Run(START, events);
    assert forall id :: id in s.calls ==> CallOk(s, s.calls[id]);
    assert forall root :: root in s.cache ==> EntryOk(s, root, s.cache[root]);
  }

  // "Nothing measured" is never cached.
  lemma NothingIsNeverCached(events: seq<Event>, root: string)
    requires root in Run(START, events).cache
    ensures Run(START, events).cache[root].cell.Some?
  {
    RunKeepsInv(START, events);
    assert EntryOk(Run(START, events), root, Run(START, events).cache[root]);
  }
}
