// The list of SQL Server credentials and the two edits made to it, as a keyed
// list that stands for a map from container name to entry.
module Inventories {
  import opened Wrappers
  import opened Bytes
  import opened Text
  import opened Numbers

  const MAX_INVENTORIES := 25

  datatype Inventory = Inventory(container: string, username: string, password: seq<byte>, updatedAt: int)

  function IndexOf(configs: seq<Inventory>, container: string): (i: nat)
    ensures i <= |configs|
    ensures i < |configs| ==> configs[i].container == container
    ensures forall j :: 0 <= j < i ==> configs[j].container != container
  {
    if configs == [] || configs[0].container == container then 0 else 1 + IndexOf(configs[1..], container)
  }

  predicate Has(configs: seq<Inventory>, c: string) {
    IndexOf(configs, c) < |configs|
  }

  // The list after next is saved: the first entry of its container replaced, or
  // next appended; None when the list is full.
  function Saved(configs: seq<Inventory>, next: Inventory): Option<seq<Inventory>> {
    var i := IndexOf(configs, next.container);
    if i < |configs| then Some(configs[i := next])
    else if |configs| >= MAX_INVENTORIES then None
    else Some(configs + [next])
  }

  function Without(configs: seq<Inventory>, container: string): (r: seq<Inventory>)
    ensures |r| <= |configs|
  {
    if configs == [] then []
    else if configs[0].container == container then Without(configs[1..], container)
    else [configs[0]] + Without(configs[1..], container)
  }

  // The loop of SaveMSSQLInventory over the loaded entries, and its append.
  method SaveInPlace(configs: array<Inventory>, next: Inventory) returns (result: Option<array<Inventory>>)
    modifies configs
    ensures match Saved(old(configs[..]), next)
      case None => result == None
      case Some(r) => result.Some? && result.value[..] == r
  {
    ghost var was := configs[..];
    for i := 0 to configs.Length
      invariant configs[..] == was
      invariant forall j :: 0 <= j < i ==> was[j].container != next.container
    {
      if configs[i].container == next.container {
        configs[i] := next;
        return Some(configs);
      }
    }
    if configs.Length >= MAX_INVENTORIES {
      return None;
    }
    var longer := new Inventory[configs.Length + 1](i requires 0 <= i <= configs.Length reads configs =>
      if i < configs.Length then configs[i] else next);
    return Some(longer);
  }

  // The loop of RemoveMSSQLInventory: survivors are written back over the front
  // of the very array being read.
  method CompactInPlace(configs: array<Inventory>, container: string) returns (kept: nat, removed: bool)
    modifies configs
    ensures kept <= configs.Length
    ensures configs[..kept] == Without(old(configs[..]), container)
    ensures removed <==> Has(old(configs[..]), container)
  {
    ghost var was := configs[..];
    kept, removed := 0, false;
    for i := 0 to configs.Length
      invariant kept <= i
      invariant configs[i..] == was[i..]
      invariant configs[..kept] == Without(was[..i], container)
      invariant removed <==> exists j :: 0 <= j < i && was[j].container == container
    {
      var cfg := configs[i];
      assert cfg == was[i..][0];
      WithoutSnoc(was[..i], cfg, container);
      assert was[..i + 1] == was[..i] + [cfg];
      if cfg.container == container {
        removed := true;
      } else {
        configs[kept] := cfg;
        kept := kept + 1;
      }
      assert configs[i + 1..] == was[i..][1..];
    }
    assert was[..configs.Length] == was;
  }

  lemma {:induction false} WithoutSnoc(configs: seq<Inventory>, last: Inventory, container: string)
    ensures Without(configs + [last], container)
         == Without(configs, container) + (if last.container == container then [] else [last])
  {
    if configs == [] {
      assert [last][1..] == [];
    } else {
      assert (configs + [last])[1..] == configs[1..] + [last];
      WithoutSnoc(configs[1..], last, container);
    }
  }

  // ---- the map a list stands for ----

  ghost predicate Unique(configs: seq<Inventory>) {
    forall i, j :: 0 <= i < j < |configs| ==> configs[i].container != configs[j].container
  }

  // Later entries win, as in loadMSSQLConfigMap.
  function AsMap(configs: seq<Inventory>): map<string, Inventory> {
    if configs == [] then map[]
    else
      var last := configs[|configs| - 1];
      AsMap(configs[..|configs| - 1])[last.container := last]
  }

  method ConfigMap(configs: seq<Inventory>) returns (out: map<string, Inventory>)
    ensures out == AsMap(configs)
  {
    out := map[];
    for i := 0 to |configs|
      invariant out == AsMap(configs[..i])
    {
      assert configs[..i + 1][..i] == configs[..i];
      out := out[configs[i].container := configs[i]];
    }
    assert configs[..|configs|] == configs;
  }

  // The first entry of a container, and the entry a map holds for it.
  function Lookup(configs: seq<Inventory>, c: string): Option<Inventory> {
    if configs == [] then None
    else if configs[0].container == c then Some(configs[0])
    else Lookup(configs[1..], c)
  }

  function Get(m: map<string, Inventory>, c: string): Option<Inventory> {
    if c in m then Some(m[c]) else None
  }

  lemma {:induction false} LookupIndex(configs: seq<Inventory>, c: string)
    ensures Lookup(configs, c) == if Has(configs, c) then Some(configs[IndexOf(configs, c)]) else None
  {
    if configs != [] {
      LookupIndex(configs[1..], c);
    }
  }

  lemma {:induction false} LookupSnoc(configs: seq<Inventory>, last: Inventory, c: string)
    ensures Lookup(configs + [last], c)
         == if Lookup(configs, c).Some? then Lookup(configs, c) else if last.container == c then Some(last) else None
  {
    if configs != [] {
      assert (configs + [last])[1..] == configs[1..] + [last];
      LookupSnoc(configs[1..], last, c);
    }
  }

  // The map has exactly the listed containers, each with its last entry.
  lemma {:induction false} AsMapAt(configs: seq<Inventory>, c: string)
    ensures c in AsMap(configs) <==> Lookup(configs, c).Some?
    ensures c in AsMap(configs) <==> exists i :: 0 <= i < |configs| && configs[i].container == c
    ensures c in AsMap(configs) ==>
      exists i :: 0 <= i < |configs| && LastOf(configs, i, c) && AsMap(configs)[c] == configs[i]
    ensures Unique(configs) ==> Get(AsMap(configs), c) == Lookup(configs, c)
  {
    if configs != [] {
      var front, last := configs[..|configs| - 1], configs[|configs| - 1];
      assert configs == front + [last];
      LookupSnoc(front, last, c);
      LookupIndex(front, c);
      AsMapAt(front, c);
    }
  }

  // The last entry of its container.
  predicate LastOf(configs: seq<Inventory>, i: nat, c: string) {
    && i < |configs| && configs[i].container == c
    && forall j :: i < j < |configs| ==> configs[j].container != c
  }

  lemma {:induction false} AsMapSize(configs: seq<Inventory>)
    requires Unique(configs)
    ensures |AsMap(configs)| == |configs|
  {
    if configs != [] {
      var front, last := configs[..|configs| - 1], configs[|configs| - 1];
      AsMapSize(front);
      AsMapAt(front, last.container);
      LookupIndex(front, last.container);
      assert last.container !in AsMap(front);
    }
  }

  // At most one entry has the container.
  predicate Once(configs: seq<Inventory>, c: string) {
    forall j :: IndexOf(configs, c) < j < |configs| ==> configs[j].container != c
  }

  // Replacing an entry by one of the same container changes the map at most there,
  // and only if no later entry hides it.
  lemma {:induction false} AsMapReplaced(configs: seq<Inventory>, i: nat, next: Inventory, c: string)
    requires i < |configs| && configs[i].container == next.container
    ensures Get(AsMap(configs[i := next]), c) ==
      if c == next.container && (forall j :: i < j < |configs| ==> configs[j].container != c) then Some(next)
      else Get(AsMap(configs), c)
  {
    var front, last := configs[..|configs| - 1], configs[|configs| - 1];
    if i == |configs| - 1 {
      assert configs[i := next][..i] == front;
    } else {
      assert configs[i := next][..|configs| - 1] == front[i := next];
      AsMapReplaced(front, i, next, c);
      if last.container == c {
        assert configs[|configs| - 1].container == c;
      } else {
        assert forall j :: i < j < |front| ==> front[j] == configs[j];
      }
    }
  }

  lemma SameEverywhere(m: map<string, Inventory>, n: map<string, Inventory>)
    requires forall c :: Get(m, c) == Get(n, c)
    ensures m == n
  {
    assert forall c :: c in m <==> Get(m, c).Some?;
    assert forall c :: c in n <==> Get(n, c).Some?;
    assert forall c :: c in m ==> m[c] == Get(m, c).value;
  }

  // Saving over an entry is map update exactly when no other entry has its
  // container, or the last that has it is the very entry saved.
  lemma ReplacedIsMapUpdate(configs: seq<Inventory>, next: Inventory)
    requires Has(configs, next.container)
    ensures var c := next.container;
      AsMap(configs[IndexOf(configs, c) := next]) == AsMap(configs)[c := next]
      <==> Once(configs, c) || Get(AsMap(configs), c) == Some(next)
  {
    var c, i := next.container, IndexOf(configs, next.container);
    var r, m := configs[i := next], AsMap(configs)[c := next];
    AsMapReplaced(configs, i, next, c);
    if Once(configs, c) || Get(AsMap(configs), c) == Some(next) {
      forall d ensures Get(AsMap(r), d) == Get(m, d) {
        AsMapReplaced(configs, i, next, d);
      }
      SameEverywhere(AsMap(r), m);
    } else {
      assert Get(m, c) == Some(next);
    }
  }

  lemma UniqueIsOnce(configs: seq<Inventory>, c: string)
    requires Unique(configs)
    ensures Once(configs, c)
  {
  }

  // Every entry keeps its position and all but those of the container their value;
  // saving is refused exactly when the container is new and the list full; and it is
  // map update exactly when it appends or replaces the one entry that counts.
  lemma SavedIsMapUpdate(configs: seq<Inventory>, next: Inventory)
    ensures Saved(configs, next) == None <==> next.container !in AsMap(configs) && |configs| >= 25
    ensures Unique(configs) ==> |AsMap(configs)| == |configs|
    ensures Saved(configs, next).Some? ==>
      var r := Saved(configs, next).value;
      && (Unique(configs) ==> Unique(r))
      && (AsMap(r) == AsMap(configs)[next.container := next] <==>
          || next.container !in AsMap(configs)
          || Once(configs, next.container) || Get(AsMap(configs), next.container) == Some(next))
      && |configs| <= |r| <= Max(|configs|, 25)
      && forall i :: 0 <= i < |configs| ==>
           && r[i].container == configs[i].container
           && (r[i].container != next.container ==> r[i] == configs[i])
  {
    AsMapAt(configs, next.container);
    LookupIndex(configs, next.container);
    if Unique(configs) {
      AsMapSize(configs);
    }
    if Has(configs, next.container) {
      ReplacedIsMapUpdate(configs, next);
    } else if |configs| < MAX_INVENTORIES {
      assert (configs + [next])[..|configs|] == configs;
    }
  }

  lemma {:induction false} LookupWithout(configs: seq<Inventory>, container: string, c: string)
    ensures Lookup(Without(configs, container), c) == if c == container then None else Lookup(configs, c)
  {
    if configs != [] {
      LookupWithout(configs[1..], container, c);
      assert configs[0].container != container ==> Without(configs, container)[1..] == Without(configs[1..], container);
    }
  }

  // The survivors keep their order.
  lemma {:induction false} WithoutKeepsOrder(configs: seq<Inventory>, container: string, x: string, y: string)
    requires Has(configs, x) && Has(configs, y) && x != container && y != container
    ensures IndexOf(configs, x) < IndexOf(configs, y)
       <==> IndexOf(Without(configs, container), x) < IndexOf(Without(configs, container), y)
  {
    if configs[0].container == container {
      WithoutKeepsOrder(configs[1..], container, x, y);
    } else if configs[0].container != x && configs[0].container != y {
      assert Without(configs, container)[1..] == Without(configs[1..], container);
      WithoutKeepsOrder(configs[1..], container, x, y);
    }
  }

  lemma {:induction false} WithoutUnique(configs: seq<Inventory>, container: string)
    requires Unique(configs)
    ensures Unique(Without(configs, container))
  {
    if configs != [] {
      var rest, head := configs[1..], configs[0].container;
      WithoutUnique(rest, container);
      LookupWithout(rest, container, head);
      LookupIndex(rest, head);
      LookupIndex(Without(rest, container), head);
    }
  }

  lemma {:induction false} AsMapWithout(configs: seq<Inventory>, container: string)
    ensures AsMap(Without(configs, container)) == AsMap(configs) - {container}
  {
    if configs != [] {
      hide *;
      var front, last := configs[..|configs| - 1], configs[|configs| - 1];
      var r := Without(front, container);
      AsMapWithout(front, container);
      WithoutSnoc(front, last, container);
      AsMapSnoc(front, last);
      AsMapSnoc(r, last);
      UpdateWithout(AsMap(front), last, container);
      assert configs == front + [last] && r + [] == r;
    }
  }

  lemma UpdateWithout(m: map<string, Inventory>, last: Inventory, c: string)
    ensures m[last.container := last] - {c} ==
      if last.container == c then m - {c} else (m - {c})[last.container := last]
  {
  }

  lemma AsMapSnoc(configs: seq<Inventory>, last: Inventory)
    ensures AsMap(configs + [last]) == AsMap(configs)[last.container := last]
  {
    assert (configs + [last])[..|configs|] == configs;
  }

  // Removing is map removal, of all entries of the container.
  lemma WithoutIsMapRemoval(configs: seq<Inventory>, container: string)
    ensures AsMap(Without(configs, container)) == AsMap(configs) - {container}
    ensures Has(configs, container) <==> container in AsMap(configs)
    ensures Unique(configs) ==> Unique(Without(configs, container))
  {
    hide Without, AsMap, Unique;
    AsMapWithout(configs, container);
    AsMapAt(configs, container);
    LookupIndex(configs, container);
    if Unique(configs) {
      WithoutUnique(configs, container);
    }
  }

  // ---- histories ----

  datatype Op = Save(next: Inventory) | Remove(container: string)

  function Trimmed(next: Inventory): Inventory {
    next.(container := TrimSpace(next.container), username := TrimSpace(next.username))
  }

  // The list an accepted call leaves; None when the call is refused.
  function Applied(configs: seq<Inventory>, op: Op): Option<seq<Inventory>> {
    match op
    case Save(next) =>
      var t := Trimmed(next);
      if t.container == "" || t.username == "" || t.password == [] then None else Saved(configs, t)
    case Remove(container) =>
      var c := TrimSpace(container);
      if c == "" || !Has(configs, c) then None else Some(Without(configs, c))
  }

  // A save is refused exactly for a blank container, user name or password, or when
  // 25 entries are there and none is the container's; what it stores is trimmed,
  // over the first entry of the container or after all others. A removal is refused
  // exactly for a blank name or one that no entry has, and takes all its entries.
  lemma AppliedExactly(configs: seq<Inventory>, op: Op)
    ensures op.Save? ==>
      var c, username := TrimSpace(op.next.container), TrimSpace(op.next.username);
      var entry := Inventory(c, username, op.next.password, op.next.updatedAt);
      && (Applied(configs, op).Some? <==>
            && c != "" && username != "" && op.next.password != []
            && (|configs| < 25 || exists i :: 0 <= i < |configs| && configs[i].container == c))
      && (Applied(configs, op).Some? && (forall i :: 0 <= i < |configs| ==> configs[i].container != c) ==>
            Applied(configs, op) == Some(configs + [entry]))
      && forall i: nat :: Applied(configs, op).Some? && FirstOf(configs, i, c) ==>
           Applied(configs, op) == Some(configs[i := entry])
    ensures op.Remove? ==>
      var c := TrimSpace(op.container);
      && (Applied(configs, op).Some? <==> c != "" && exists i :: 0 <= i < |configs| && configs[i].container == c)
      && (Applied(configs, op).Some? ==> forall x ::
            multiset(Applied(configs, op).value)[x] == if x.container == c then 0 else multiset(configs)[x])
  {
    match op {
      case Save(next) =>
        var i := IndexOf(configs, TrimSpace(next.container));
        assert FirstOf(configs, i, TrimSpace(next.container)) <==> i < |configs|;
        assert forall j: nat :: FirstOf(configs, j, TrimSpace(next.container)) ==> j == i;
      case Remove(container) =>
        WithoutCounts(configs, TrimSpace(container));
        assert Has(configs, TrimSpace(container)) ==>
          configs[IndexOf(configs, TrimSpace(container))].container == TrimSpace(container);
    }
  }

  predicate FirstOf(configs: seq<Inventory>, i: nat, c: string) {
    && i < |configs| && configs[i].container == c
    && forall j :: 0 <= j < i ==> configs[j].container != c
  }

  lemma {:induction false} WithoutCounts(configs: seq<Inventory>, c: string)
    ensures forall x :: multiset(Without(configs, c))[x] == if x.container == c then 0 else multiset(configs)[x]
  {
    if configs != [] {
      WithoutCounts(configs[1..], c);
      assert configs == [configs[0]] + configs[1..];
    }
  }

  // The same call on a map.
  function MapApplied(m: map<string, Inventory>, op: Op): map<string, Inventory> {
    match op
    case Save(next) =>
      var t := Trimmed(next);
      if t.container == "" || t.username == "" || t.password == [] then m
      else if t.container !in m && |m| >= MAX_INVENTORIES then m
      else m[t.container := t]
    case Remove(container) => if TrimSpace(container) == "" then m else m - {TrimSpace(container)}
  }

  function Replay(configs: seq<Inventory>, ops: seq<Op>): seq<Inventory> {
    if ops == [] then configs
    else
      var before := Replay(configs, ops[..|ops| - 1]);
      var after := Applied(before, ops[|ops| - 1]);
      if after.Some? then after.value else before
  }

  function MapReplay(m: map<string, Inventory>, ops: seq<Op>): map<string, Inventory> {
    if ops == [] then m else MapApplied(MapReplay(m, ops[..|ops| - 1]), ops[|ops| - 1])
  }

  // The list after a call: what it asks for, or as before.
  function AfterCall(configs: seq<Inventory>, op: Op): seq<Inventory> {
    if Applied(configs, op).Some? then Applied(configs, op).value else configs
  }

  // A call that does to the list what it does to the map: it removes or is refused
  // for what it lacks; or it saves over the one entry that counts; or it saves a
  // new entry, the list being full exactly when the map is.
  predicate Fits(configs: seq<Inventory>, op: Op) {
    op.Save? ==>
      var t := Trimmed(op.next);
      || t.container == "" || t.username == "" || t.password == []
      || if Has(configs, t.container) then Once(configs, t.container) || Get(AsMap(configs), t.container) == Some(t)
         else |configs| >= MAX_INVENTORIES <==> |AsMap(configs)| >= MAX_INVENTORIES
  }

  lemma SavedFits(configs: seq<Inventory>, t: Inventory)
    ensures var after := if Saved(configs, t).Some? then Saved(configs, t).value else configs;
      var m := AsMap(configs);
      && (AsMap(after) == (if t.container !in m && |m| >= MAX_INVENTORIES then m else m[t.container := t]) <==>
          if Has(configs, t.container) then Once(configs, t.container) || Get(m, t.container) == Some(t)
          else |configs| >= MAX_INVENTORIES <==> |m| >= MAX_INVENTORIES)
      && (Unique(configs) ==> Unique(after) && Once(configs, t.container) && |m| == |configs|)
      && |after| <= Max(|configs|, 25)
  {
    SavedIsMapUpdate(configs, t);
    AsMapAt(configs, t.container);
    LookupIndex(configs, t.container);
    if Unique(configs) {
      UniqueIsOnce(configs, t.container);
    }
    hide Once, Unique, AsMap, Lookup;
  }

  lemma AppliedIsMapApplied(configs: seq<Inventory>, op: Op)
    ensures AsMap(AfterCall(configs, op)) == MapApplied(AsMap(configs), op) <==> Fits(configs, op)
    ensures Unique(configs) ==> Fits(configs, op) && Unique(AfterCall(configs, op))
    ensures |AfterCall(configs, op)| <= Max(|configs|, 25)
  {
    hide AsMap, Unique, Once, Saved, Without, Has;
    match op {
      case Save(next) =>
        SavedFits(configs, Trimmed(next));
      case Remove(container) =>
        WithoutIsMapRemoval(configs, TrimSpace(container));
        assert TrimSpace(container) !in AsMap(configs) ==> AsMap(configs) - {TrimSpace(container)} == AsMap(configs);
    }
  }

  // Every call of a history fits the list that those before it leave.
  predicate AllFit(configs: seq<Inventory>, ops: seq<Op>) {
    forall i :: 0 <= i < |ops| ==> Fits(Replay(configs, ops[..i]), ops[i])
  }

  lemma AllFitSnoc(configs: seq<Inventory>, ops: seq<Op>, op: Op)
    ensures AllFit(configs, ops + [op]) <==> AllFit(configs, ops) && Fits(Replay(configs, ops), op)
  {
    hide Fits, Replay;
    var longer := ops + [op];
    assert forall i :: 0 <= i <= |ops| ==> longer[..i] == ops[..i];
    assert ops[..|ops|] == ops && longer[|ops|] == op;
    if AllFit(configs, longer) {
      assert Fits(Replay(configs, longer[..|ops|]), longer[|ops|]);
      forall i | 0 <= i < |ops| ensures Fits(Replay(configs, ops[..i]), ops[i]) {
        assert Fits(Replay(configs, longer[..i]), longer[i]);
      }
    }
  }

  lemma ReplayLast(configs: seq<Inventory>, ops: seq<Op>, op: Op)
    ensures Replay(configs, ops + [op]) == AfterCall(Replay(configs, ops), op)
    ensures forall m :: MapReplay(m, ops + [op]) == MapApplied(MapReplay(m, ops), op)
  {
    hide Applied, MapApplied;
    assert (ops + [op])[..|ops|] == ops;
  }

  // Any history of saves and removals that fit acts as updates and removals on the
  // map of trimmed names. From a list without duplicates every history fits and
  // keeps containers distinct. None makes a list longer than it was or than 25.
  lemma {:induction false} ReplayIsMapReplay(configs: seq<Inventory>, ops: seq<Op>)
    ensures AllFit(configs, ops) ==> AsMap(Replay(configs, ops)) == MapReplay(AsMap(configs), ops)
    ensures Unique(configs) ==> AllFit(configs, ops) && Unique(Replay(configs, ops))
    ensures |Replay(configs, ops)| <= Max(|configs|, 25)
  {
    hide AllFit, Fits, Unique, AsMap, AfterCall, MapApplied, Applied, Max;
    if ops == [] {
      NothingToFit(configs);
    } else {
      var init, op := ops[..|ops| - 1], ops[|ops| - 1];
      assert ops == init + [op];
      ReplayIsMapReplay(configs, init);
      hide Replay, MapReplay;
      ReplayStep(configs, init, op);
    }
  }

  lemma NothingToFit(configs: seq<Inventory>)
    ensures AllFit(configs, []) && |configs| <= Max(|configs|, 25)
  {
  }

  lemma ReplayStep(configs: seq<Inventory>, init: seq<Op>, op: Op)
    requires AllFit(configs, init) ==> AsMap(Replay(configs, init)) == MapReplay(AsMap(configs), init)
    requires Unique(configs) ==> AllFit(configs, init) && Unique(Replay(configs, init))
    requires |Replay(configs, init)| <= Max(|configs|, 25)
    ensures var ops := init + [op];
      && (AllFit(configs, ops) ==> AsMap(Replay(configs, ops)) == MapReplay(AsMap(configs), ops))
      && (Unique(configs) ==> AllFit(configs, ops) && Unique(Replay(configs, ops)))
      && |Replay(configs, ops)| <= Max(|configs|, 25)
  {
    hide AllFit, Fits, Unique, AsMap, AfterCall, MapApplied, Applied, Replay, MapReplay;
    AllFitSnoc(configs, init, op);
    ReplayLast(configs, init, op);
    AppliedIsMapApplied(Replay(configs, init), op);
  }
}
