// The size of a data directory, walked at most about once a minute: results are
// cached per directory under a lock that is not held during the walk.
module DirSize {
  import opened Wrappers
  import opened Numbers

  const TTL := 60_000_000_000   // nanoseconds

  // A *float64.
  class Cell {
    var value: real

    constructor (value: real)
      ensures this.value == value
    {
      this.value := value;
    }
  }

  datatype Entry = Entry(at: int, cell: Cell?)

  // cloneFloat64
  method Clone(cell: Cell?) returns (clone: Cell?)
    ensures cell == null <==> clone == null
    ensures clone != null ==> fresh(clone) && clone.value == cell.value
  {
    if cell == null {
      return null;
    }
    clone := new Cell(cell.value);
  }

  // What the cache says of a directory: when it was asked for, and a size.
  datatype Seen = Seen(at: int, size: Option<real>)

  predicate Hits(view: map<string, Seen>, root: string, now: int) {
    root in view && now - view[root].at < TTL
  }

  class Cache {
    var values: map<string, Entry>

    constructor ()
      ensures values == map[]
    {
      values := map[];
    }

    ghost function Cells(): set<Cell>
      reads this
    {
      set root | root in values && values[root].cell != null :: values[root].cell
    }

    ghost predicate NoNil()
      reads this
    {
      forall root :: root in values ==> values[root].cell != null
    }

    ghost function View(): map<string, Seen>
      reads this, Cells()
    {
      map root | root in values ::
        Seen(values[root].at, if values[root].cell == null then None else Some(values[root].cell.value))
    }

    // The first lock section.
    method Lookup(root: string, now: int) returns (hit: bool, value: Cell?)
      ensures hit <==> root in View() && now - View()[root].at < 60_000_000_000
      ensures value != null ==> hit && fresh(value) && View()[root].size == Some(value.value)
      ensures hit && value == null ==> View()[root].size == None
      ensures hit && NoNil() ==> value != null
    {
      if root in values && now - values[root].at < TTL {
        hit := true;
        value := Clone(values[root].cell);
      } else {
        hit, value := false, null;
      }
    }

    // The second lock section.
    method Store(root: string, now: int, size: Cell)
      modifies this
      ensures root in values && values[root].at == now && values[root].cell != null
      ensures fresh(values[root].cell) && values[root].cell.value == size.value
      ensures values == old(values)[root := values[root]]
      ensures View() == old(View())[root := Seen(now, Some(size.value))]
    {
      var clone := Clone(size);
      values := values[root := Entry(now, clone)];
    }
  }

  // What a walk meets: an entry that cannot be read, a directory, or a file with
  // the bytes allocated to it (None when they cannot be had).
  datatype Met = Unreadable | Directory | File(bytes: Option<int>)

  function TotalBytes(walk: seq<Met>): int {
    if walk == [] then 0
    else
      var last := walk[|walk| - 1];
      TotalBytes(walk[..|walk| - 1]) + if last.File? && last.bytes.Some? then last.bytes.value else 0
  }

  predicate Accessible(walk: seq<Met>) {
    exists i :: 0 <= i < |walk| && !walk[i].Unreadable?
  }

  // The size a walk reports, in GB; None when nothing could be read.
  function Measured(walk: seq<Met>): Option<real> {
    if Accessible(walk) then Some(Round1(Int64(TotalBytes(walk)) as real / 1000000000.0)) else None
  }

  // Sizes add up over any parts of a walk, and only files whose bytes can be had count.
  lemma {:induction false} TotalBytesExactly(a: seq<Met>, b: seq<Met>)
    ensures TotalBytes(a + b) == TotalBytes(a) + TotalBytes(b)
    ensures forall bytes :: TotalBytes([File(Some(bytes))]) == bytes
    ensures TotalBytes([]) == TotalBytes([Unreadable]) == TotalBytes([Directory]) == TotalBytes([File(None)]) == 0
  {
    assert forall m: Met :: [m][..0] == [];
    if b == [] {
      assert a + b == a;
    } else {
      TotalBytesExactly(a, b[..|b| - 1]);
      assert (a + b)[..|a + b| - 1] == a + b[..|b| - 1];
    }
  }

  // A size is had exactly when something could be read, and is a whole number of
  // tenths of 10^9 bytes, within half a tenth of the total when that fits an int64.
  lemma MeasuredNear(walk: seq<Met>)
    ensures Measured(walk).Some? <==> exists i :: 0 <= i < |walk| && walk[i] != Unreadable
    ensures Measured(walk).Some? && -0x8000_0000_0000_0000 <= TotalBytes(walk) < 0x8000_0000_0000_0000 ==>
      var size := Measured(walk).value;
      && size - 0.05 <= TotalBytes(walk) as real / 1000000000.0 <= size + 0.05
      && size * 10.0 == (size * 10.0).Floor as real
  {
    Round1Near(Int64(TotalBytes(walk)) as real / 1000000000.0);
  }

  // The walk of dirSizeGB and its running int64 total.
  method Walk(walk: seq<Met>) returns (size: Cell?)
    ensures Measured(walk).None? <==> size == null
    ensures size != null ==> fresh(size) && Some(size.value) == Measured(walk)
  {
    var total, accessible := 0, false;
    for i := 0 to |walk|
      invariant total == Int64(TotalBytes(walk[..i]))
      invariant accessible <==> exists j :: 0 <= j < i && !walk[j].Unreadable?
    {
      assert walk[..i + 1][..i] == walk[..i];
      if !walk[i].Unreadable? {
        accessible := true;
        if walk[i].File? && walk[i].bytes.Some? {
          Int64Add(TotalBytes(walk[..i]), walk[i].bytes.value);
          total := Int64(total + walk[i].bytes.value);
        }
      }
    }
    assert walk[..|walk|] == walk;
    if !accessible {
      return null;
    }
    size := new Cell(Round1(total as real / 1000000000.0));
  }

  // dirSizeGB when no other call is in the way. The cell returned is new and is
  // never one the cache holds, so no later write through it reaches the cache or
  // another caller; and the cache only ever takes in new cells.
  method DirSizeGB(cache: Cache, root: string, now: int, reachable: bool, walk: seq<Met>) returns (size: Cell?)
    modifies cache
    ensures size != null ==> fresh(size) && size !in cache.Cells()
    ensures forall c :: c in cache.Cells() ==> c in old(cache.Cells()) || fresh(c)
    ensures old(cache.NoNil()) ==> cache.NoNil()
    ensures var hit := root in old(cache.values) && now - old(cache.values)[root].at < 60_000_000_000;
      && (hit ==> cache.values == old(cache.values))
      && (!hit && (!reachable || Measured(walk).None?) ==> size == null && cache.values == old(cache.values))
      && (!hit && reachable && Measured(walk).Some? ==>
            && size != null && Some(size.value) == Measured(walk)
            && root in cache.values && cache.values == old(cache.values)[root := cache.values[root]]
            && cache.View() == old(cache.View())[root := Seen(now, Measured(walk))])
  {
    var hit;
    hit, size := cache.Lookup(root, now);
    if hit {
      return;
    }
    if !reachable {
      return null;
    }
    size := Walk(walk);
    if size == null {
      return;
    }
    cache.Store(root, now, size);
  }
}
