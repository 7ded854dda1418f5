// The directory the agent keeps its state in, as a map from file name to
// contents, changed one system call at a time. How each call turns out is
// scripted, so a statement about every script is a statement about every
// pattern of failing calls and about a crash at any moment.
module Disk {
  import opened Wrappers

  type Files<Data> = map<string, Data>

  // Crashed: the process is gone, with the call's effect done (landed) or not.
  datatype Status = Done | Failed | Crashed

  // torn: what a write in progress shows of its file before its end, if anything.
  datatype Outcome<Data> = Outcome(status: Status, landed: bool, torn: Option<Data>)

  ghost predicate AllDone<Data>(script: seq<Outcome<Data>>) {
    forall o :: o in script ==> o.status.Done?
  }

  // The next outcome of a script, and the script after n calls.
  function First<Data>(script: seq<Outcome<Data>>): Outcome<Data> {
    if script == [] then Outcome(Done, true, None) else script[0]
  }

  function Rest<Data>(script: seq<Outcome<Data>>): seq<Outcome<Data>> {
    if script == [] then [] else script[1..]
  }

  function Skip<Data>(script: seq<Outcome<Data>>, n: nat): seq<Outcome<Data>> {
    if n == 0 then script else Skip(Rest(script), n - 1)
  }

  // The next n calls are done; and the one after them takes effect, though the
  // process may die in it.
  predicate Lives<Data>(script: seq<Outcome<Data>>, n: nat) {
    n == 0 || (First(script).status.Done? && Lives(Rest(script), n - 1))
  }

  predicate Lands<Data>(script: seq<Outcome<Data>>, n: nat) {
    if n == 0 then First(script).status.Done? || (First(script).status.Crashed? && First(script).landed)
    else First(script).status.Done? && Lands(Rest(script), n - 1)
  }

  // One call's turn.
  ghost predicate Took<Data>(was: seq<Outcome<Data>>, now: seq<Outcome<Data>>, status: Status) {
    now == Rest(was) && status == First(was).status
  }

  function TmpName(path: string): string {
    path + ".tmp"
  }

  class Directory<Data(!new)> {
    var files: Files<Data>
    // How the coming calls turn out; a call past the end of the script is Done.
    var script: seq<Outcome<Data>>
    // Every state of the directory so far, in order, as another process could have read it.
    ghost var trace: seq<Files<Data>>

    ghost predicate Valid() reads this {
      trace != [] && trace[|trace| - 1] == files
    }

    constructor (files: Files<Data>, script: seq<Outcome<Data>>)
      ensures Valid() && this.files == files && this.script == script && trace == [files]
    {
      this.files, this.script, this.trace := files, script, [files];
    }

    method Next() returns (o: Outcome<Data>)
      modifies this`script
      ensures Took(old(script), script, o.status)
      ensures o == First(old(script))
      ensures AllDone(old(script)) ==> o.status.Done? && AllDone(script)
    {
      o := First(script);
      script := Rest(script);
    }

    // os.ReadFile: the contents, None when the file does not exist.
    method Read(path: string) returns (status: Status, data: Option<Data>)
      modifies this`script
      ensures Took(old(script), script, status)
      ensures AllDone(old(script)) ==> status.Done? && AllDone(script)
      ensures status.Done? ==> data == (if path in files then Some(files[path]) else None)
    {
      var o := Next();
      status := o.status;
      data := if path in files then Some(files[path]) else None;
    }

    // os.Stat(path) == nil. A call that fails reads as "no such file".
    method Exists(path: string) returns (status: Status, present: bool)
      modifies this`script
      ensures Took(old(script), script, status)
      ensures AllDone(old(script)) ==> status.Done? && AllDone(script)
      ensures present == (path in files && status.Done?)
    {
      var o := Next();
      status := o.status;
      present := status.Done? && path in files;
    }

    // A call that leaves the files' contents alone: mkdir, chown, chmod, stat of an owner.
    method Touch() returns (status: Status)
      modifies this`script
      ensures Took(old(script), script, status)
      ensures AllDone(old(script)) ==> status.Done? && AllDone(script)
    {
      var o := Next();
      status := o.status;
    }

    // os.WriteFile: the file may show a partial content while, and after, it is written.
    method Write(path: string, data: Data) returns (status: Status)
      requires Valid()
      modifies this`files, this`script, this`trace
      ensures Valid()
      ensures Took(old(script), script, status)
      ensures AllDone(old(script)) ==> status.Done? && AllDone(script)
      ensures status.Done? ==> files == old(files)[path := data]
      ensures files - {path} == old(files) - {path}
      ensures old(trace) <= trace
      ensures forall i :: |old(trace)| <= i < |trace| ==> trace[i] - {path} == old(files) - {path}
    {
      var o := Next();
      status := o.status;
      if o.torn.Some? {
        files := files[path := o.torn.value];
        trace := trace + [files];
      }
      if status.Done? {
        files := files[path := data];
        trace := trace + [files];
      }
    }

    // os.Rename, atomic: no state shows either half of it.
    method Rename(from: string, to: string) returns (status: Status)
      requires Valid() && from in files && from != to
      modifies this`files, this`script, this`trace
      ensures Valid()
      ensures Took(old(script), script, status)
      ensures AllDone(old(script)) ==> status.Done? && AllDone(script)
      ensures var landed := status.Done? || (status.Crashed? && First(old(script)).landed);
        files == if landed then (old(files) - {from})[to := old(files)[from]] else old(files)
      ensures trace == old(trace) || trace == old(trace) + [files]
    {
      var o := Next();
      status := o.status;
      if status.Done? || (status.Crashed? && o.landed) {
        files := (files - {from})[to := files[from]];
        trace := trace + [files];
      }
    }

    // os.Remove; removing an absent file is not an error to these callers.
    method Remove(path: string) returns (status: Status)
      requires Valid()
      modifies this`files, this`script, this`trace
      ensures Valid()
      ensures Took(old(script), script, status)
      ensures AllDone(old(script)) ==> status.Done? && AllDone(script)
      ensures status.Done? ==> files == old(files) - {path}
      ensures status.Failed? ==> files == old(files)
      ensures files == old(files) || files == old(files) - {path}
      ensures trace == old(trace) || trace == old(trace) + [files]
    {
      var o := Next();
      status := o.status;
      if status.Done? || (status.Crashed? && o.landed) {
        files := files - {path};
        trace := trace + [files];
      }
    }
  }

  // What a reader who ignores temporary files sees.
  ghost predicate SameBut<Data>(a: Files<Data>, b: Files<Data>, tmp: string) {
    a - {tmp} == b - {tmp}
  }

  // The files once all the new data has been renamed over the path.
  function Replaced<Data>(files: Files<Data>, path: string, data: Data): Files<Data> {
    (files - {TmpName(path)})[path := data]
  }

  // Every state after the first shown ones has other files as they were, except
  // that the last may have the path holding all the new data.
  ghost predicate ShowsReplacement<Data>(trace: seq<Files<Data>>, shown: nat, was: Files<Data>,
                                         path: string, data: Data) {
    forall i :: shown <= i < |trace| ==>
      SameBut(trace[i], was, TmpName(path)) || (i == |trace| - 1 && trace[i] == Replaced(was, path, data))
  }

  // WriteFilePreserveOwner on a script, the path being there or not. Its first
  // call looks for the owner of the path, a second one for that of the directory
  // when the first finds none; the rest is a write, a change of owner if there is
  // one to preserve, a change of mode and a rename. None: killed before the write.
  // Otherwise the script from the write on, and the calls before the rename.
  function AfterOwner<Data>(script: seq<Outcome<Data>>, present: bool): Option<(seq<Outcome<Data>>, nat)> {
    var o, o' := First(script), First(Rest(script));
    if o.status.Crashed? then None
    else if o.status.Done? && present then Some((Rest(script), 3))
    else if o'.status.Crashed? then None
    else Some((Rest(Rest(script)), if o'.status.Done? then 3 else 2))
  }

  // It returns without error; the path has the new data; the script afterwards.
  predicate Completes<Data>(script: seq<Outcome<Data>>, present: bool) {
    var after := AfterOwner(script, present);
    after.Some? && Lives(after.value.0, after.value.1 + 1)
  }

  predicate Replacing<Data>(script: seq<Outcome<Data>>, present: bool) {
    var after := AfterOwner(script, present);
    after.Some? && Lands(after.value.0, after.value.1)
  }

  function Remaining<Data>(script: seq<Outcome<Data>>, present: bool): seq<Outcome<Data>> {
    var after := AfterOwner(script, present);
    if after.Some? then Skip(after.value.0, after.value.1 + 1) else []
  }

  lemma {:induction false} LivesLands<Data>(script: seq<Outcome<Data>>, n: nat)
    ensures Lives(script, n + 1) ==> Lands(script, n)
  {
    if n > 0 {
      LivesLands(Rest(script), n - 1);
    }
  }

  // WriteFilePreserveOwner: write a temporary file, give it the owner and the
  // mode, and rename it over the path.
  method WriteFilePreserveOwner<Data(!new)>(dir: Directory<Data>, path: string, data: Data) returns (status: Status)
    requires dir.Valid()
    modifies dir`files, dir`script, dir`trace
    ensures dir.Valid()
    ensures AllDone(old(dir.script)) ==> status.Done? && AllDone(dir.script)
    ensures old(dir.trace) <= dir.trace
    ensures status.Failed? ==> SameBut(dir.files, old(dir.files), TmpName(path))
    ensures ShowsReplacement(dir.trace, |old(dir.trace)|, old(dir.files), path, data)
    ensures var script, present := old(dir.script), path in old(dir.files);
      && (status.Done? <==> Completes(script, present))
      && (status.Done? ==> dir.script == Remaining(script, present))
      && if Replacing(script, present) then dir.files == Replaced(old(dir.files), path, data)
         else SameBut(dir.files, old(dir.files), TmpName(path))
    ensures status.Done? ==> dir.files == Replaced(old(dir.files), path, data)
  {
    hide Lives, Lands, Skip, First, Rest;
    var present;
    status, present := dir.Exists(path);   // owner of the path
    if !present && !status.Crashed? {
      status := dir.Touch();               // owner of its directory
    }
    if status.Crashed? {
      return;
    }
    status := WriteAndRename(dir, path, data, status.Done?);
    LivesLands(AfterOwner(old(dir.script), path in old(dir.files)).value.0,
               AfterOwner(old(dir.script), path in old(dir.files)).value.1);
  }

  // Its part after the owner has been looked up.
  method WriteAndRename<Data(!new)>(dir: Directory<Data>, path: string, data: Data, preserveOwner: bool)
    returns (status: Status)
    requires dir.Valid()
    modifies dir`files, dir`script, dir`trace
    ensures dir.Valid()
    ensures AllDone(old(dir.script)) ==> status.Done? && AllDone(dir.script)
    ensures old(dir.trace) <= dir.trace
    ensures status.Failed? ==> SameBut(dir.files, old(dir.files), TmpName(path))
    ensures ShowsReplacement(dir.trace, |old(dir.trace)|, old(dir.files), path, data)
    ensures var script, n := old(dir.script), if preserveOwner then 3 else 2;
      && (status.Done? <==> Lives(script, n + 1))
      && (status.Done? ==> dir.script == Skip(script, n + 1))
      && if Lands(script, n) then dir.files == Replaced(old(dir.files), path, data)
         else SameBut(dir.files, old(dir.files), TmpName(path))
  {
    ghost var script := dir.script;
    FewCalls(script);
    hide Lives, Lands, Skip, First, Rest;
    var tmp := TmpName(path);
    status := dir.Write(tmp, data);
    if !status.Done? {
      return;
    }
    if preserveOwner {
      status := dir.Touch();        // chown
    }
    if status.Done? {
      status := dir.Touch();        // chmod
    }
    if status.Crashed? {
      return;
    }
    if status.Failed? {
      var ignored := dir.Remove(tmp);
      if ignored.Crashed? {
        status := Crashed;
      }
      return;
    }
    assert TmpName(path) != path;
    status := dir.Rename(tmp, path);
  }

  // Scripts of three and four calls, spelled out.
  lemma FewCalls<Data>(s: seq<Outcome<Data>>)
    ensures Skip(s, 3) == Rest(Rest(Rest(s))) && Skip(s, 4) == Rest(Rest(Rest(Rest(s))))
    ensures Lives(s, 3) <==>
      First(s).status.Done? && First(Rest(s)).status.Done? && First(Rest(Rest(s))).status.Done?
    ensures Lives(s, 4) <==> Lives(s, 3) && First(Rest(Rest(Rest(s)))).status.Done?
    ensures Lands(s, 2) <==>
      && First(s).status.Done? && First(Rest(s)).status.Done?
      && var o := First(Rest(Rest(s))); o.status.Done? || (o.status.Crashed? && o.landed)
    ensures Lands(s, 3) <==>
      && Lives(s, 3)
      && var o := First(Rest(Rest(Rest(s)))); o.status.Done? || (o.status.Crashed? && o.landed)
  {
    hide First, Rest;
    OneCall(s, 4); OneCall(s, 3); OneCall(s, 2);
    OneCall(Rest(s), 3); OneCall(Rest(s), 2); OneCall(Rest(s), 1);
    OneCall(Rest(Rest(s)), 2); OneCall(Rest(Rest(s)), 1); OneCall(Rest(Rest(s)), 0);
    OneCall(Rest(Rest(Rest(s))), 1); OneCall(Rest(Rest(Rest(s))), 0); OneCall(Rest(Rest(Rest(Rest(s)))), 0);
  }

  lemma OneCall<Data>(s: seq<Outcome<Data>>, n: nat)
    ensures n > 0 ==> Skip(s, n) == Skip(Rest(s), n - 1)
    ensures n > 0 ==> (Lives(s, n) <==> First(s).status.Done? && Lives(Rest(s), n - 1))
    ensures n > 0 ==> (Lands(s, n) <==> First(s).status.Done? && Lands(Rest(s), n - 1))
    ensures Skip(s, 0) == s && Lives(s, 0)
    ensures Lands(s, 0) <==> First(s).status.Done? || (First(s).status.Crashed? && First(s).landed)
  {
  }

  // ---- what is seen by those who watch some files and no temporary ones ----

  function At<Data>(files: Files<Data>, name: string): Option<Data> {
    if name in files then Some(files[name]) else None
  }

  function Watched<Data>(files: Files<Data>, names: set<string>): Files<Data> {
    map name | name in names && name in files :: files[name]
  }

  predicate NoTemporaries(names: set<string>) {
    forall name, path :: name in names && path in names ==> name != TmpName(path)
  }

  lemma WatchedSame<Data>(a: Files<Data>, b: Files<Data>, names: set<string>, path: string)
    requires path in names && NoTemporaries(names) && SameBut(a, b, TmpName(path))
    ensures Watched(a, names) == Watched(b, names)
  {
    var tmp := TmpName(path);
    forall name | name in names ensures At(a, name) == At(b, name) {
      assert At(a - {tmp}, name) == At(b - {tmp}, name);
    }
    assert forall name :: name in a <==> At(a, name).Some?;
    assert forall name :: name in b <==> At(b, name).Some?;
    assert forall name :: name in names && name in a ==> a[name] == At(a, name).value;
  }

  lemma WatchedReplaced<Data>(files: Files<Data>, names: set<string>, path: string, data: Data)
    requires path in names && NoTemporaries(names)
    ensures Watched(Replaced(files, path, data), names) == Watched(files, names)[path := data]
  {
  }

  // WriteFilePreserveOwner on a watched file.
  method Replace<Data(!new)>(dir: Directory<Data>, names: set<string>, path: string, data: Data)
    returns (status: Status)
    requires dir.Valid() && path in names && NoTemporaries(names)
    modifies dir`files, dir`script, dir`trace
    ensures dir.Valid() && old(dir.trace) <= dir.trace
    ensures AllDone(old(dir.script)) ==> status.Done? && AllDone(dir.script)
    ensures var was, now := Watched(old(dir.files), names), Watched(dir.files, names);
      && (status.Done? ==> now == was[path := data])
      && (status.Failed? ==> now == was)
      && (forall i :: |old(dir.trace)| <= i < |dir.trace| ==>
            var shown := Watched(dir.trace[i], names);
            shown == was || (i == |dir.trace| - 1 && shown == was[path := data]))
    ensures var script, present := old(dir.script), path in old(dir.files);
      && (status.Done? <==> Completes(script, present))
      && (status.Done? ==> dir.script == Remaining(script, present))
      && Watched(dir.files, names) ==
         if Replacing(script, present) then Watched(old(dir.files), names)[path := data]
         else Watched(old(dir.files), names)
  {
    hide Completes, Remaining, Replacing, Replaced, SameBut, Watched, NoTemporaries;
    ghost var was := dir.files;
    status := WriteFilePreserveOwner(dir, path, data);
    WatchedReplaced(was, names, path, data);
    if SameBut(dir.files, was, TmpName(path)) {
      WatchedSame(dir.files, was, names, path);
    }
    forall i | |old(dir.trace)| <= i < |dir.trace| && SameBut(dir.trace[i], was, TmpName(path))
      ensures Watched(dir.trace[i], names) == Watched(was, names)
    {
      WatchedSame(dir.trace[i], was, names, path);
    }
  }
}
