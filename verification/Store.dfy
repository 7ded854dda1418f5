// The stored SQL Server credentials: an inventory file whose passwords are
// encrypted under a key kept in a second file. One process at a time writes,
// under a lock; readers take no lock.
module Store {
  import opened Wrappers
  import opened Bytes
  import opened Text
  import opened Disk
  import opened Envelope
  import opened Inventories
  import opened Numbers

  const INVENTORY_FILE := "mssql-inventory.json"
  const KEY_FILE := "mssql-inventory.key"

  // An entry as written to the file: an encrypted password, or in files from
  // before encryption a plaintext one.
  datatype Persisted = Persisted(
    container: string, username: string, password: seq<byte>, encrypted: string, updatedAt: int)

  // Listing is the JSON text of an inventory; Garbled is any content that parses
  // neither as an inventory nor as a key.
  datatype Content = Listing(entries: seq<Persisted>) | KeyText(text: string) | Garbled

  // The two files, as far as anyone reads them.
  datatype View = View(listing: Option<Content>, key: Option<Content>)

  const FILES := {INVENTORY_FILE, KEY_FILE}

  function ViewOf(files: Files<Content>): View {
    View(At(files, INVENTORY_FILE), At(files, KEY_FILE))
  }

  function See(files: Files<Content>): View {
    ViewOf(Watched(files, FILES))
  }

  // The two files by name.
  lemma SeeExactly(files: Files<Content>)
    ensures See(files).listing ==
      if "mssql-inventory.json" in files then Some(files["mssql-inventory.json"]) else None
    ensures See(files).key ==
      if "mssql-inventory.key" in files then Some(files["mssql-inventory.key"]) else None
  {
  }

  // The key a key file holds; None when it is absent or not a key.
  function KeyIn(s: Suite, content: Option<Content>): Option<seq<byte>> {
    if content.Some? && content.value.KeyText? then
      var key := s.decode(TrimSpace(content.value.text));
      if key.Some? && |key.value| == KEY_SIZE then key else None
    else None
  }

  function LoadEntry(s: Suite, key: Option<seq<byte>>, p: Persisted): Option<Inventory> {
    if p.encrypted == "" then Some(Inventory(p.container, p.username, p.password, p.updatedAt))
    else
      var password := Decrypted(s, key, p.encrypted);
      if password.Some? then Some(Inventory(p.container, p.username, password.value, p.updatedAt)) else None
  }

  // All or nothing.
  function Gather(rs: seq<Option<Inventory>>): Option<seq<Inventory>> {
    if forall i :: 0 <= i < |rs| ==> rs[i].Some? then Some(seq(|rs|, i requires 0 <= i < |rs| => rs[i].value)) else None
  }

  function LoadEntries(s: Suite, key: Option<seq<byte>>, es: seq<Persisted>): (rs: seq<Option<Inventory>>)
    ensures |rs| == |es|
  {
    seq(|es|, i requires 0 <= i < |es| => LoadEntry(s, key, es[i]))
  }

  // The inventory a directory holds; None when some part of it cannot be read.
  function Loaded(s: Suite, v: View): Option<seq<Inventory>> {
    if v.listing.None? then Some([])
    else if !v.listing.value.Listing? then None
    else Gather(LoadEntries(s, KeyIn(s, v.key), v.listing.value.entries))
  }

  lemma LoadedAt(s: Suite, v: View, es: seq<Persisted>, i: nat)
    requires v.listing == Some(Listing(es)) && Loaded(s, v).Some? && i < |es|
    ensures |Loaded(s, v).value| == |es| && LoadEntry(s, KeyIn(s, v.key), es[i]) == Some(Loaded(s, v).value[i])
  {
    var rs := LoadEntries(s, KeyIn(s, v.key), es);
    assert Gather(rs).Some? && rs[i] == Some(Gather(rs).value[i]);
  }

  function Plain(es: seq<Persisted>): (configs: seq<Inventory>)
    ensures |configs| == |es|
  {
    seq(|es|, i requires 0 <= i < |es| =>
      Inventory(es[i].container, es[i].username, es[i].password, es[i].updatedAt))
  }

  predicate AllPlaintext(es: seq<Persisted>) {
    forall e :: e in es ==> e.encrypted == ""
  }

  // An inventory with the container, user name and time of a stored entry; and as
  // password the stored one where nothing is encrypted, and otherwise what the
  // encrypted text holds under the key.
  predicate StandsFor(s: Suite, key: Option<seq<byte>>, r: Inventory, e: Persisted) {
    && r.container == e.container
    && r.username == e.username
    && r.updatedAt == e.updatedAt
    && (e.encrypted == "" ==> r.password == e.password)
    && (e.encrypted != "" ==> Decrypted(s, key, e.encrypted) == Some(r.password))
  }

  // What a listing loads as: such an inventory for each entry, in order.
  lemma LoadedFields(s: Suite, v: View, es: seq<Persisted>)
    requires v.listing == Some(Listing(es))
    ensures Loaded(s, v).Some? ==>
      var r := Loaded(s, v).value;
      && |r| == |es|
      && forall i :: 0 <= i < |es| ==> StandsFor(s, KeyIn(s, v.key), r[i], es[i])
    ensures Loaded(s, v).Some? <==>
      forall i :: 0 <= i < |es| && es[i].encrypted != "" ==> Decrypted(s, KeyIn(s, v.key), es[i].encrypted).Some?
    ensures AllPlaintext(es) ==> Loaded(s, v) == Some(Plain(es))
  {
    var rs := LoadEntries(s, KeyIn(s, v.key), es);
    forall i | 0 <= i < |es|
      ensures rs[i].Some? <==> es[i].encrypted != "" ==> Decrypted(s, KeyIn(s, v.key), es[i].encrypted).Some?
      ensures AllPlaintext(es) ==> rs[i] == Some(Plain(es)[i])
    {
      assert es[i] in es;
    }
    if AllPlaintext(es) {
      GatherAll(rs, Plain(es));
    }
    if Loaded(s, v).Some? {
      forall i | 0 <= i < |es| ensures LoadEntry(s, KeyIn(s, v.key), es[i]) == Some(Loaded(s, v).value[i]) {
        LoadedAt(s, v, es, i);
      }
    }
  }

  // The key is the text of its file, decoded, without white space around it, when
  // that is 32 bytes long.
  lemma KeyInExactly(s: Suite, content: Option<Content>, key: seq<byte>)
    ensures KeyIn(s, content) == Some(key) <==>
      |key| == 32 && exists text :: content == Some(KeyText(text)) && s.decode(TrimSpace(text)) == Some(key)
  {
    if KeyIn(s, content) == Some(key) {
      assert content == Some(KeyText(content.value.text));
    }
  }

  // No key yet, or one that can be used.
  predicate KeyUsable(s: Suite, v: View) {
    v.key.Some? ==> KeyIn(s, v.key).Some?
  }

  predicate WellFormed(s: Suite, v: View) {
    Loaded(s, v).Some? && KeyUsable(s, v)
  }

  // Error: an error is returned. Dead: the process is gone.
  datatype Stop = Error | Dead

  function StopOf(status: Status): Stop {
    if status.Crashed? then Dead else Error
  }

  // ---- reading ----

  // LoadMSSQLInventories: the key file is read again for every encrypted entry.
  method Load(s: Suite, dir: Directory<Content>) returns (r: Result<seq<Inventory>, Stop>)
    modifies dir`script
    ensures r.Ok? ==> Loaded(s, See(dir.files)) == Some(r.value)
    ensures AllDone(old(dir.script)) ==>
      && AllDone(dir.script)
      && (Loaded(s, See(dir.files)).None? ==> r == Err(Error))
      && (Loaded(s, See(dir.files)).Some? ==> r.Ok?)
  {
    var status, data := dir.Read(INVENTORY_FILE);
    if !status.Done? {
      return Err(StopOf(status));
    }
    if data.None? {
      return Ok([]);
    }
    if !data.value.Listing? {
      return Err(Error);
    }
    var entries := data.value.entries;
    ghost var key := KeyIn(s, At(dir.files, KEY_FILE));
    var configs: seq<Inventory> := [];
    for i := 0 to |entries|
      invariant AllDone(old(dir.script)) ==> AllDone(dir.script)
      invariant |configs| == i
      invariant forall j :: 0 <= j < i ==> LoadEntry(s, key, entries[j]) == Some(configs[j])
    {
      var r := LoadOne(s, dir, entries[i]);
      if r.Err? {
        assert AllDone(old(dir.script)) ==> LoadEntries(s, key, entries)[i].None?;
        return Err(r.error);
      }
      configs := configs + [r.value];
    }
    GatherAll(LoadEntries(s, key, entries), configs);
    return Ok(configs);
  }

  // The body of its loop.
  method LoadOne(s: Suite, dir: Directory<Content>, cfg: Persisted) returns (r: Result<Inventory, Stop>)
    modifies dir`script
    ensures r.Ok? ==> LoadEntry(s, KeyIn(s, At(dir.files, KEY_FILE)), cfg) == Some(r.value)
    ensures AllDone(old(dir.script)) ==>
      && AllDone(dir.script)
      && (r.Err? ==> r == Err(Error) && LoadEntry(s, KeyIn(s, At(dir.files, KEY_FILE)), cfg).None?)
  {
    var password := cfg.password;
    if cfg.encrypted != "" {
      var status, data := dir.Read(KEY_FILE);
      if !status.Done? {
        return Err(StopOf(status));
      }
      var plaintext := Decrypted(s, KeyIn(s, data), cfg.encrypted);
      if plaintext.None? {
        return Err(Error);
      }
      password := plaintext.value;
    }
    return Ok(Inventory(cfg.container, cfg.username, password, cfg.updatedAt));
  }

  lemma GatherAll(rs: seq<Option<Inventory>>, configs: seq<Inventory>)
    requires |rs| == |configs| && forall i :: 0 <= i < |rs| ==> rs[i] == Some(configs[i])
    ensures Gather(rs) == Some(configs)
  {
    assert seq(|rs|, i requires 0 <= i < |rs| => rs[i].value) == configs;
  }

  // A load while others write: the inventory file read at one moment, and for
  // entry i the key file read at moments[i].
  function LoadedAcross(s: Suite, listing: Option<Content>, keys: seq<Option<Content>>): Option<seq<Inventory>>
    requires listing.Some? && listing.value.Listing? ==> |keys| == |listing.value.entries|
  {
    if listing.None? then Some([])
    else if !listing.value.Listing? then None
    else
      var es := listing.value.entries;
      Gather(seq(|es|, i requires 0 <= i < |es| => LoadEntry(s, KeyIn(s, keys[i]), es[i])))
  }

  // ---- what a writer may show ----

  // A key, once there, stays.
  predicate KeyKept(a: View, b: View) {
    a.key.Some? ==> b.key == a.key
  }

  ghost predicate KeysKept(trace: seq<Files<Content>>, from: nat) {
    forall i :: from < i < |trace| ==> KeyKept(See(trace[i - 1]), See(trace[i]))
  }

  // From position "from" on: every state but the last loads as the inventory
  // from before, the last as that or as the one from after, and no step takes a
  // key away or changes it.
  ghost predicate Safe(s: Suite, trace: seq<Files<Content>>, from: nat, before: seq<Inventory>, after: seq<Inventory>) {
    && (forall i :: from <= i < |trace| ==>
          Loaded(s, See(trace[i])) == Some(before) || (i == |trace| - 1 && Loaded(s, See(trace[i])) == Some(after)))
    && KeysKept(trace, from)
  }

  lemma {:induction false} KeyKeptLong(trace: seq<Files<Content>>, from: nat, i: nat, j: nat)
    requires KeysKept(trace, from) && from <= i <= j < |trace|
    ensures KeyKept(See(trace[i]), See(trace[j]))
    decreases j
  {
    if i < j {
      KeyKeptLong(trace, from, i, j - 1);
    }
  }

  // An entry that can be read under the key present is read the same under any
  // key file that agrees with it; one that needs no key needs none later.
  lemma AcrossIsLoaded(s: Suite, v: View, keys: seq<Option<Content>>)
    requires Loaded(s, v).Some?
    requires v.listing.Some? ==> |keys| == |v.listing.value.entries|
    requires forall i :: 0 <= i < |keys| && v.key.Some? ==> keys[i] == v.key
    ensures LoadedAcross(s, v.listing, keys) == Loaded(s, v)
  {
    if v.listing.Some? {
      var es := v.listing.value.entries;
      var rs := LoadEntries(s, KeyIn(s, v.key), es);
      forall i | 0 <= i < |es| ensures LoadEntry(s, KeyIn(s, keys[i]), es[i]) == rs[i] {
        assert rs[i].Some?;
      }
      assert seq(|es|, i requires 0 <= i < |es| => LoadEntry(s, KeyIn(s, keys[i]), es[i])) == rs;
    }
  }

  // The moments a load can read at: the inventory file at first, then the key
  // file once for each entry, none of it later than the trace goes.
  ghost predicate ReadsAt(trace: seq<Files<Content>>, first: nat, moments: seq<nat>) {
    && first < |trace|
    && (forall i :: 0 <= i < |moments| ==> first <= moments[i] < |trace|)
    && (See(trace[first]).listing.Some? && See(trace[first]).listing.value.Listing? ==>
          |moments| == |See(trace[first]).listing.value.entries|)
  }

  ghost function LoadAt(s: Suite, trace: seq<Files<Content>>, first: nat, moments: seq<nat>): Option<seq<Inventory>>
    requires ReadsAt(trace, first, moments)
  {
    LoadedAcross(s, See(trace[first]).listing,
                 seq(|moments|, i requires 0 <= i < |moments| => See(trace[moments[i]]).key))
  }

  lemma LoadIsOfFirstMoment(s: Suite, trace: seq<Files<Content>>, from: nat, first: nat, moments: seq<nat>)
    requires KeysKept(trace, from) && from <= first && ReadsAt(trace, first, moments)
    requires Loaded(s, See(trace[first])).Some?
    ensures LoadAt(s, trace, first, moments) == Loaded(s, See(trace[first]))
  {
    var v := See(trace[first]);
    var keys := seq(|moments|, i requires 0 <= i < |moments| => See(trace[moments[i]]).key);
    forall i | 0 <= i < |moments| ensures v.key.Some? ==> keys[i] == v.key {
      KeyKeptLong(trace, from, first, moments[i]);
    }
    AcrossIsLoaded(s, v, keys);
  }

  // A load that overlaps a write, its reads falling on any moments of it, succeeds
  // and returns exactly the inventory from before the write or from after it.
  lemma LoadDuringWrite(s: Suite, trace: seq<Files<Content>>, from: nat, before: seq<Inventory>, after: seq<Inventory>,
                        first: nat, moments: seq<nat>)
    requires Safe(s, trace, from, before, after)
    requires from <= first && ReadsAt(trace, first, moments)
    ensures LoadAt(s, trace, first, moments) == Some(before) || LoadAt(s, trace, first, moments) == Some(after)
  {
    LoadIsOfFirstMoment(s, trace, from, first, moments);
  }

  // ---- writing ----

  lemma FilesAreApart()
    ensures NoTemporaries(FILES)
    ensures INVENTORY_FILE != KEY_FILE
  {
    assert |INVENTORY_FILE| == 20 && |KEY_FILE| == 19;
    assert forall path :: |TmpName(path)| == |path| + 4;
  }

  function With(v: View, name: string, data: Content): View {
    if name == KEY_FILE then v.(key := Some(data)) else v.(listing := Some(data))
  }

  lemma ViewReplaced(files: Files<Content>, name: string, data: Content)
    requires name in FILES
    ensures ViewOf(files[name := data]) == With(ViewOf(files), name, data)
  {
    FilesAreApart();
  }

  // WriteFilePreserveOwner on one of the two files, as readers see it.
  method Replace(dir: Directory<Content>, name: string, data: Content) returns (status: Status)
    requires dir.Valid() && name in FILES
    modifies dir`files, dir`script, dir`trace
    ensures dir.Valid() && old(dir.trace) <= dir.trace
    ensures AllDone(old(dir.script)) ==> status.Done? && AllDone(dir.script)
    ensures var now, was := See(dir.files), See(old(dir.files));
      var replaced := With(was, name, data);
      && (status.Done? ==> now == replaced)
      && (status.Failed? ==> now == was)
      && (now == was || now == replaced)
      && forall i :: |old(dir.trace)| <= i < |dir.trace| ==>
           See(dir.trace[i]) == was || (i == |dir.trace| - 1 && See(dir.trace[i]) == replaced)
  {
    FilesAreApart();
    ViewReplaced(Watched(dir.files, FILES), name, data);
    hide Completes, Remaining, Replacing, NoTemporaries, Watched, ViewOf, With;
    status := Disk.Replace(dir, FILES, name, data);
  }

  method RandomBytes(dir: Directory<Content>, n: nat) returns (status: Status, bytes: seq<byte>)
    modifies dir`script
    ensures |bytes| == n
    ensures AllDone(old(dir.script)) ==> status.Done? && AllDone(dir.script)
  {
    status := dir.Touch();
    assert |seq(n, _ => 0 as byte)| == n;
    bytes :| |bytes| == n;
  }

  // Only the key file changes, and only from absent to holding a key.
  ghost predicate OnlyKeyAdded(trace: seq<Files<Content>>, from: nat) {
    forall i :: from < i < |trace| ==>
      See(trace[i]).listing == See(trace[i - 1]).listing && KeyKept(See(trace[i - 1]), See(trace[i]))
  }

  // The key file as it was, or a key in place of none.
  predicate KeyAddedOrSame(s: Suite, was: Option<Content>, now: Option<Content>) {
    now == was || (was.None? && KeyIn(s, now).Some?)
  }

  // loadMSSQLPasswordKey with create set: an existing key is used, never replaced.
  method LoadKey(s: Suite, dir: Directory<Content>) returns (r: Result<seq<byte>, Stop>)
    requires Lawful(s) && dir.Valid()
    modifies dir`files, dir`script, dir`trace
    ensures dir.Valid() && old(dir.trace) <= dir.trace
    ensures OnlyKeyAdded(dir.trace, |old(dir.trace)| - 1)
    ensures r.Ok? ==> |r.value| == 32 && KeyIn(s, See(dir.files).key) == Some(r.value)
    ensures KeyAddedOrSame(s, See(old(dir.files)).key, See(dir.files).key)
    ensures See(old(dir.files)).key.Some? && KeyIn(s, See(old(dir.files)).key).None? ==> r.Err?
    ensures AllDone(old(dir.script)) ==> AllDone(dir.script)
    ensures AllDone(old(dir.script)) && KeyUsable(s, See(old(dir.files))) ==> r.Ok?
  {
    var status, data := dir.Read(KEY_FILE);
    if !status.Done? {
      return Err(StopOf(status));
    }
    if data.Some? {
      var known := KeyIn(s, data);
      return if known.Some? then Ok(known.value) else Err(Error);
    }
    r := CreateKey(s, dir);
  }

  lemma FreshKeyReads(s: Suite, key: seq<byte>)
    requires Lawful(s) && |key| == KEY_SIZE
    ensures KeyIn(s, Some(KeyText(s.encode(key) + "\n"))) == Some(key)
  {
    EncodedTrims(s, key);
    assert s.decode(s.encode(key)) == Some(key);
  }

  // Writing a key file where there was none.
  method StoreKey(dir: Directory<Content>, content: Content) returns (status: Status)
    requires dir.Valid() && See(dir.files).key.None?
    modifies dir`files, dir`script, dir`trace
    ensures dir.Valid() && old(dir.trace) <= dir.trace
    ensures OnlyKeyAdded(dir.trace, |old(dir.trace)| - 1)
    ensures status.Done? ==> See(dir.files).key == Some(content)
    ensures See(dir.files).key == Some(content) || See(dir.files).key.None?
    ensures AllDone(old(dir.script)) ==> AllDone(dir.script) && status.Done?
  {
    ghost var before := dir.files;
    ghost var from := |dir.trace| - 1;
    status := Replace(dir, KEY_FILE, content);
    forall i | from < i < |dir.trace|
      ensures See(dir.trace[i]).listing == See(dir.trace[i - 1]).listing
      ensures KeyKept(See(dir.trace[i - 1]), See(dir.trace[i]))
    {
      assert See(dir.trace[i - 1]) == See(before);
    }
  }

  method CreateKey(s: Suite, dir: Directory<Content>) returns (r: Result<seq<byte>, Stop>)
    requires Lawful(s) && dir.Valid() && See(dir.files).key.None?
    modifies dir`files, dir`script, dir`trace
    ensures dir.Valid() && old(dir.trace) <= dir.trace
    ensures OnlyKeyAdded(dir.trace, |old(dir.trace)| - 1)
    ensures r.Ok? ==> |r.value| == KEY_SIZE && KeyIn(s, See(dir.files).key) == Some(r.value)
    ensures KeyIn(s, See(dir.files).key).Some? || See(dir.files).key.None?
    ensures AllDone(old(dir.script)) ==> AllDone(dir.script) && r.Ok?
  {
    var status, key := RandomBytes(dir, KEY_SIZE);
    if status.Done? {
      status := dir.Touch();     // mkdir
    }
    if !status.Done? {
      return Err(StopOf(status));
    }
    FreshKeyReads(s, key);
    var content := KeyText(s.encode(key) + "\n");
    status := StoreKey(dir, content);
    return if status.Done? then Ok(key) else Err(StopOf(status));
  }

  predicate NoPlaintext(es: seq<Persisted>) {
    forall i :: 0 <= i < |es| ==> es[i].password == [] && es[i].encrypted != ""
  }

  // es is the front of configs with each password sealed under key.
  predicate SealedAs(s: Suite, key: Option<seq<byte>>, es: seq<Persisted>, configs: seq<Inventory>) {
    |es| <= |configs| && NoPlaintext(es) && forall i :: 0 <= i < |es| ==> LoadEntry(s, key, es[i]) == Some(configs[i])
  }

  lemma SealedOneMore(s: Suite, key: Option<seq<byte>>, es: seq<Persisted>, configs: seq<Inventory>, e: Persisted)
    requires SealedAs(s, key, es, configs) && |es| < |configs|
    requires NoPlaintext([e]) && LoadEntry(s, key, e) == Some(configs[|es|])
    ensures SealedAs(s, key, es + [e], configs)
  {
    assert [e][0] == e;
    var more := es + [e];
    forall i | 0 <= i < |more|
      ensures more[i].password == [] && more[i].encrypted != "" && LoadEntry(s, key, more[i]) == Some(configs[i])
    {
      if i < |es| {
        assert more[i] == es[i];
      } else {
        assert more[i] == e;
      }
    }
  }

  lemma SealedEntryLoads(s: Suite, key: seq<byte>, nonce: seq<byte>, cfg: Inventory)
    requires Lawful(s) && |key| == KEY_SIZE && |nonce| == NONCE_SIZE
    ensures var e := Persisted(cfg.container, cfg.username, [], Sealed(s, key, nonce, cfg.password), cfg.updatedAt);
      NoPlaintext([e]) && LoadEntry(s, Some(key), e) == Some(cfg)
  {
    DecryptedOfSealed(s, key, nonce, cfg.password);
  }

  // One round of the loop that builds the persisted entries.
  method SealOne(s: Suite, dir: Directory<Content>, cfg: Inventory) returns (r: Result<Persisted, Stop>)
    requires Lawful(s) && dir.Valid()
    modifies dir`files, dir`script, dir`trace
    ensures dir.Valid() && old(dir.trace) <= dir.trace
    ensures OnlyKeyAdded(dir.trace, |old(dir.trace)| - 1)
    ensures KeyAddedOrSame(s, See(old(dir.files)).key, See(dir.files).key)
    ensures r.Ok? ==> NoPlaintext([r.value]) && KeyIn(s, See(dir.files).key).Some?
    ensures r.Ok? ==> LoadEntry(s, KeyIn(s, See(dir.files).key), r.value) == Some(cfg)
    ensures See(old(dir.files)).key.Some? && KeyIn(s, See(old(dir.files)).key).None? ==> r.Err?
    ensures AllDone(old(dir.script)) ==> AllDone(dir.script)
    ensures AllDone(old(dir.script)) && KeyUsable(s, See(old(dir.files))) ==> r.Ok?
  {
    hide Lawful, LoadEntry, NoPlaintext;
    var key := LoadKey(s, dir);
    if key.Err? {
      return Err(key.error);
    }
    var status, nonce := RandomBytes(dir, NONCE_SIZE);
    if !status.Done? {
      return Err(StopOf(status));
    }
    var encrypted := Encrypt(s, key.value, nonce, cfg.password);
    SealedEntryLoads(s, key.value, nonce, cfg);
    return Ok(Persisted(cfg.container, cfg.username, [], encrypted, cfg.updatedAt));
  }

  lemma OnlyKeyAddedJoins(trace: seq<Files<Content>>, longer: seq<Files<Content>>, from: nat)
    requires from < |trace| && trace <= longer
    requires OnlyKeyAdded(trace, from) && OnlyKeyAdded(longer, |trace| - 1)
    ensures OnlyKeyAdded(longer, from)
  {
    forall i | from < i < |longer|
      ensures See(longer[i]).listing == See(longer[i - 1]).listing && KeyKept(See(longer[i - 1]), See(longer[i]))
    {
      if i < |trace| {
        assert longer[i] == trace[i] && longer[i - 1] == trace[i - 1];
      }
    }
  }

  lemma {:induction false} OnlyKeyAddedLong(trace: seq<Files<Content>>, from: nat, i: nat, j: nat)
    requires OnlyKeyAdded(trace, from) && from <= i <= j < |trace|
    ensures See(trace[i]).listing == See(trace[j]).listing && KeyKept(See(trace[i]), See(trace[j]))
    decreases j
  {
    if i < j {
      OnlyKeyAddedLong(trace, from, i, j - 1);
    }
  }

  // The loop of writeMSSQLInventories: every password sealed under one key.
  method SealAll(s: Suite, dir: Directory<Content>, configs: seq<Inventory>) returns (r: Result<seq<Persisted>, Stop>)
    requires Lawful(s) && dir.Valid()
    modifies dir`files, dir`script, dir`trace
    ensures dir.Valid() && old(dir.trace) <= dir.trace
    ensures OnlyKeyAdded(dir.trace, |old(dir.trace)| - 1)
    ensures KeyAddedOrSame(s, See(old(dir.files)).key, See(dir.files).key)
    ensures r.Ok? ==> |r.value| == |configs| && SealedAs(s, KeyIn(s, See(dir.files).key), r.value, configs)
    ensures configs != [] && !KeyUsable(s, See(old(dir.files))) ==> r.Err?
    ensures AllDone(old(dir.script)) ==> AllDone(dir.script)
    ensures AllDone(old(dir.script)) && KeyUsable(s, See(old(dir.files))) ==> r.Ok?
  {
    hide Lawful, LoadEntry;
    var persisted: seq<Persisted> := [];
    ghost var from := |dir.trace| - 1;
    ghost var was := See(dir.files).key;
    for i := 0 to |configs|
      invariant dir.Valid() && old(dir.trace) <= dir.trace
      invariant OnlyKeyAdded(dir.trace, from)
      invariant KeyAddedOrSame(s, was, See(dir.files).key)
      invariant was.Some? && KeyIn(s, was).None? ==> i == 0
      invariant |persisted| == i
      invariant SealedAs(s, KeyIn(s, See(dir.files).key), persisted, configs)
      invariant i > 0 ==> KeyIn(s, See(dir.files).key).Some?
      invariant AllDone(old(dir.script)) ==> AllDone(dir.script)
    {
      ghost var trace, key := dir.trace, See(dir.files).key;
      var r := SealOne(s, dir, configs[i]);
      OnlyKeyAddedJoins(trace, dir.trace, from);
      if r.Err? {
        return Err(r.error);
      }
      OnlyKeyAddedLong(dir.trace, |trace| - 1, |trace| - 1, |dir.trace| - 1);
      assert i > 0 ==> See(dir.files).key == key;
      assert i == 0 ==> persisted == [];
      SealedOneMore(s, KeyIn(s, See(dir.files).key), persisted, configs, r.value);
      persisted := persisted + [r.value];
    }
    return Ok(persisted);
  }

  // ---- the two calls ----

  datatype Reply = Success | NotFound | Failure | Gone

  function ReplyOf(status: Status): Reply {
    match status case Done => Success case Failed => Failure case Crashed => Gone
  }

  // The file is absent exactly when the inventory is empty.
  predicate Tidy(s: Suite, v: View) {
    v.listing.None? <==> Loaded(s, v) == Some([])
  }

  ghost predicate AllTidy(s: Suite, trace: seq<Files<Content>>, from: nat) {
    forall i :: from <= i < |trace| ==> Tidy(s, See(trace[i]))
  }

  // What both calls guarantee, whatever system calls fail and wherever the
  // process stops: trace[from] is the state the call started in, and result the
  // inventory the call asks for (None: it asks for nothing that can be done).
  ghost predicate Guaranteed(s: Suite, trace: seq<Files<Content>>, from: nat,
                             result: Option<seq<Inventory>>, reply: Reply)
    requires from < |trace|
  {
    var was, now := See(trace[from]), See(trace[|trace| - 1]);
    && (Loaded(s, was).None? ==> reply != Success && forall i :: from <= i < |trace| ==> See(trace[i]) == was)
    && (Loaded(s, was).Some? ==>
         && Safe(s, trace, from, Loaded(s, was).value, if result.Some? then result.value else Loaded(s, was).value)
         && (reply.Success? ==> result.Some? && Loaded(s, now) == result)
         && (reply.Failure? || reply.NotFound? ==> now.listing == was.listing && Loaded(s, now) == Loaded(s, was)))
    && (Tidy(s, was) ==> AllTidy(s, trace, from))
    && (WellFormed(s, was) ==> WellFormed(s, now))
    && (reply.Success? ==> (now.listing.None? <==> result == Some([])))
    && (reply.Success? && now.listing.Some? ==> now.listing.value.Listing? && NoPlaintext(now.listing.value.entries))
  }

  // Adding a key changes nothing that could be read without it.
  lemma LoadedWithKey(s: Suite, a: View, b: View)
    requires a.listing == b.listing && KeyKept(a, b) && Loaded(s, a).Some?
    ensures Loaded(s, b) == Loaded(s, a)
  {
    if a.listing.Some? {
      var es := a.listing.value.entries;
      var ra, rb := LoadEntries(s, KeyIn(s, a.key), es), LoadEntries(s, KeyIn(s, b.key), es);
      forall i | 0 <= i < |es| ensures ra[i] == rb[i] {
        assert ra[i].Some?;
      }
      assert ra == rb;
    }
  }

  lemma SealedLoads(s: Suite, v: View, configs: seq<Inventory>)
    requires v.listing.Some? && v.listing.value.Listing?
    requires |v.listing.value.entries| == |configs| && SealedAs(s, KeyIn(s, v.key), v.listing.value.entries, configs)
    ensures Loaded(s, v) == Some(configs) && NoPlaintext(v.listing.value.entries)
  {
    GatherAll(LoadEntries(s, KeyIn(s, v.key), v.listing.value.entries), configs);
  }

  // The states of a write: keys may appear, then in the last state the listing changes.
  ghost predicate WriteStates(trace: seq<Files<Content>>, from: nat, mid: nat) {
    && from <= mid < |trace|
    && (forall i :: from < i <= mid ==>
          See(trace[i]).listing == See(trace[i - 1]).listing && KeyKept(See(trace[i - 1]), See(trace[i])))
    && (forall i :: mid <= i < |trace| ==> See(trace[i]).key == See(trace[mid]).key)
    && (forall i :: mid <= i < |trace| - 1 ==> See(trace[i]) == See(trace[mid]))
  }

  // writeMSSQLInventories
  method WriteAll(s: Suite, dir: Directory<Content>, configs: seq<Inventory>) returns (status: Status, ghost mid: nat)
    requires Lawful(s) && dir.Valid()
    modifies dir`files, dir`script, dir`trace
    ensures dir.Valid() && old(dir.trace) <= dir.trace
    ensures WriteStates(dir.trace, |old(dir.trace)| - 1, mid)
    ensures KeyAddedOrSame(s, See(old(dir.files)).key, See(dir.files).key)
    ensures See(dir.files) == See(dir.trace[mid]) || Loaded(s, See(dir.files)) == Some(configs)
    ensures status.Done? ==> Loaded(s, See(dir.files)) == Some(configs)
    ensures status.Done? ==>
      var listing := See(dir.files).listing;
      listing.Some? && listing.value.Listing? && NoPlaintext(listing.value.entries)
    ensures status.Failed? ==> See(dir.files) == See(dir.trace[mid])
    ensures configs != [] && !KeyUsable(s, See(old(dir.files))) ==> !status.Done?
    ensures AllDone(old(dir.script)) ==> AllDone(dir.script)
    ensures AllDone(old(dir.script)) && KeyUsable(s, See(old(dir.files))) ==> status.Done?
  {
    hide Lawful, Loaded, See, KeyIn, SealedAs;
    ghost var from := |dir.trace| - 1;
    mid := from;
    status := dir.Touch();       // mkdir
    if !status.Done? {
      return;
    }
    var persisted := SealAll(s, dir, configs);
    mid := |dir.trace| - 1;
    if persisted.Err? {
      status := if persisted.error.Dead? then Crashed else Failed;
      return;
    }
    ghost var sealed := dir.trace;
    assert See(dir.files) == See(sealed[mid]);
    status := Replace(dir, INVENTORY_FILE, Listing(persisted.value));
    SealedLoads(s, See(sealed[mid]).(listing := Some(Listing(persisted.value))), configs);
    assert forall i :: from <= i <= mid ==> dir.trace[i] == sealed[i];
  }

  lemma {:induction false} KeysOnlyLong(trace: seq<Files<Content>>, from: nat, mid: nat, i: nat)
    requires WriteStates(trace, from, mid) && from <= i <= mid
    ensures See(trace[i]).listing == See(trace[from]).listing && KeyKept(See(trace[from]), See(trace[i]))
    decreases i
  {
    if from < i {
      KeysOnlyLong(trace, from, mid, i - 1);
    }
  }

  lemma WriteIsSafe(s: Suite, trace: seq<Files<Content>>, from: nat, mid: nat, after: seq<Inventory>)
    requires WriteStates(trace, from, mid) && Loaded(s, See(trace[from])).Some?
    requires See(trace[|trace| - 1]) == See(trace[mid]) || Loaded(s, See(trace[|trace| - 1])) == Some(after)
    ensures Safe(s, trace, from, Loaded(s, See(trace[from])).value, after)
    ensures Loaded(s, See(trace[mid])) == Loaded(s, See(trace[from]))
  {
    forall i | from <= i <= mid ensures Loaded(s, See(trace[i])) == Loaded(s, See(trace[from])) {
      KeysOnlyLong(trace, from, mid, i);
      LoadedWithKey(s, See(trace[from]), See(trace[i]));
    }
  }

  lemma NothingDone(s: Suite, trace: seq<Files<Content>>, result: Option<seq<Inventory>>, reply: Reply)
    requires trace != [] && reply != Success
    ensures Guaranteed(s, trace, |trace| - 1, result, reply)
  {
  }

  lemma WriteIsGuaranteed(s: Suite, trace: seq<Files<Content>>, from: nat, mid: nat,
                          after: seq<Inventory>, status: Status)
    requires WriteStates(trace, from, mid) && Loaded(s, See(trace[from])).Some? && after != []
    requires var was, now := See(trace[from]), See(trace[|trace| - 1]);
      && KeyAddedOrSame(s, was.key, now.key)
      && (now == See(trace[mid]) || Loaded(s, now) == Some(after))
      && (status.Done? ==>
            && Loaded(s, now) == Some(after)
            && now.listing.Some? && now.listing.value.Listing? && NoPlaintext(now.listing.value.entries))
      && (status.Failed? ==> now == See(trace[mid]))
    ensures Guaranteed(s, trace, from, Some(after), ReplyOf(status))
  {
    WriteIsSafe(s, trace, from, mid, after);
    KeysOnlyLong(trace, from, mid, mid);
    if Tidy(s, See(trace[from])) {
      forall i | from <= i < |trace| ensures Tidy(s, See(trace[i])) {
        WriteIsTidy(s, trace, from, mid, after, i);
      }
    }
  }

  lemma WriteIsTidy(s: Suite, trace: seq<Files<Content>>, from: nat, mid: nat, after: seq<Inventory>, i: nat)
    requires WriteStates(trace, from, mid) && Loaded(s, See(trace[from])).Some? && after != []
    requires See(trace[|trace| - 1]) == See(trace[mid]) || Loaded(s, See(trace[|trace| - 1])) == Some(after)
    requires Tidy(s, See(trace[from])) && from <= i < |trace|
    ensures Tidy(s, See(trace[i]))
  {
    hide ViewOf, Watched;
    var k := if i <= mid then i else mid;
    KeysOnlyLong(trace, from, mid, k);
    LoadedWithKey(s, See(trace[from]), See(trace[k]));
  }

  method Rewrite(s: Suite, dir: Directory<Content>, after: seq<Inventory>) returns (reply: Reply)
    requires Lawful(s) && dir.Valid() && Loaded(s, See(dir.files)).Some? && after != []
    modifies dir`files, dir`script, dir`trace
    ensures dir.Valid() && old(dir.trace) <= dir.trace && reply != NotFound
    ensures Guaranteed(s, dir.trace, |old(dir.trace)| - 1, Some(after), reply)
    ensures reply.Success? ==> KeyUsable(s, See(old(dir.files)))
    ensures AllDone(old(dir.script)) ==>
      AllDone(dir.script) && (KeyUsable(s, See(old(dir.files))) ==> reply.Success?)
  {
    hide Lawful, Guaranteed, WriteStates, Loaded, See, KeyIn, NoPlaintext, KeyAddedOrSame;
    ghost var from := |dir.trace| - 1;
    var status;
    ghost var mid;
    status, mid := WriteAll(s, dir, after);
    reply := ReplyOf(status);
    WriteIsGuaranteed(s, dir.trace, from, mid, after, status);
  }

  // The loaded entries with next in its place.
  method Edit(loaded: seq<Inventory>, next: Inventory) returns (result: Option<seq<Inventory>>)
    ensures result == Saved(loaded, next)
  {
    var configs := new Inventory[|loaded|](i requires 0 <= i < |loaded| => loaded[i]);
    assert configs[..] == loaded;
    var edited := SaveInPlace(configs, next);
    result := if edited.Some? then Some(edited.value[..]) else None;
  }

  // The loaded entries without a container's, if it had any.
  method Drop(loaded: seq<Inventory>, container: string) returns (result: Option<seq<Inventory>>)
    ensures result == if Has(loaded, container) then Some(Without(loaded, container)) else None
  {
    var configs := new Inventory[|loaded|](i requires 0 <= i < |loaded| => loaded[i]);
    assert configs[..] == loaded;
    var kept, removed := CompactInPlace(configs, container);
    result := if removed then Some(configs[..kept]) else None;
  }

  // The list a call asks for, from what a directory holds.
  function Asked(s: Suite, v: View, op: Op): Option<seq<Inventory>> {
    if Loaded(s, v).Some? then Applied(Loaded(s, v).value, op) else None
  }

  // What a call needs to succeed: a list to leave and, unless that is empty, a key
  // that can be used or made.
  predicate Succeeds(s: Suite, v: View, op: Op) {
    Asked(s, v, op).Some? && (Asked(s, v, op) == Some([]) || KeyUsable(s, v))
  }

  // The checks, the load and the edit in memory that both calls start with.
  method Prepare(s: Suite, dir: Directory<Content>, op: Op) returns (r: Result<seq<Inventory>, Reply>)
    modifies dir`script
    ensures r.Ok? ==> Loaded(s, See(dir.files)).Some? && Asked(s, See(dir.files), op) == Some(r.value)
    ensures r.Err? ==> r.error != Success
    ensures r == Err(NotFound) ==>
      op.Remove? && Loaded(s, See(dir.files)).Some? && !Has(Loaded(s, See(dir.files)).value, TrimSpace(op.container))
    ensures AllDone(old(dir.script)) ==> AllDone(dir.script) && (Asked(s, See(dir.files), op).Some? ==> r.Ok?)
    ensures op.Save? ==> r != Err(NotFound)
  {
    match op {
      case Save(next) =>
        var t := Trimmed(next);
        if t.container == "" || t.username == "" || t.password == [] {
          return Err(Failure);
        }
      case Remove(container) =>
        if TrimSpace(container) == "" {
          return Err(Failure);
        }
    }
    var loaded := Load(s, dir);
    if loaded.Err? {
      return Err(if loaded.error.Dead? then Gone else Failure);
    }
    var after;
    match op {
      case Save(next) =>
        after := Edit(loaded.value, Trimmed(next));
      case Remove(container) =>
        after := Drop(loaded.value, TrimSpace(container));
    }
    if after.None? {
      return Err(if op.Save? then Failure else NotFound);
    }
    return Ok(after.value);
  }

  // SaveMSSQLInventory, with the lock held.
  method Save(s: Suite, dir: Directory<Content>, next: Inventory, now: int) returns (reply: Reply)
    requires Lawful(s) && dir.Valid()
    modifies dir`files, dir`script, dir`trace
    ensures dir.Valid() && old(dir.trace) <= dir.trace && reply != NotFound
    ensures Guaranteed(s, dir.trace, |old(dir.trace)| - 1,
                       Asked(s, See(old(dir.files)), Op.Save(next.(updatedAt := now))), reply)
    ensures reply.Success? ==> Succeeds(s, See(old(dir.files)), Op.Save(next.(updatedAt := now)))
    ensures AllDone(old(dir.script)) ==>
      AllDone(dir.script) && (Succeeds(s, See(old(dir.files)), Op.Save(next.(updatedAt := now))) ==> reply.Success?)
  {
    hide Lawful, Guaranteed, WellFormed, KeyUsable, Asked, See;
    var op := Op.Save(next.(updatedAt := now));
    var after := Prepare(s, dir, op);
    if after.Err? {
      NothingDone(s, dir.trace, Asked(s, See(dir.files), op), after.error);
      return after.error;
    }
    SavedNotEmpty(s, See(dir.files), op);
    reply := Rewrite(s, dir, after.value);
  }

  lemma SavedNotEmpty(s: Suite, v: View, op: Op)
    requires op.Save?
    ensures Asked(s, v, op) != Some([])
  {
  }

  // The last entry is gone: the file goes too.
  method RemoveFile(s: Suite, dir: Directory<Content>) returns (reply: Reply)
    requires dir.Valid() && Loaded(s, See(dir.files)).Some?
    modifies dir`files, dir`script, dir`trace
    ensures dir.Valid() && old(dir.trace) <= dir.trace && reply != NotFound
    ensures Guaranteed(s, dir.trace, |old(dir.trace)| - 1, Some([]), reply)
    ensures AllDone(old(dir.script)) ==> AllDone(dir.script) && reply.Success?
  {
    ghost var from := |dir.trace| - 1;
    var status := dir.Remove(INVENTORY_FILE);
    reply := ReplyOf(status);
    assert INVENTORY_FILE != KEY_FILE;
    assert See(old(dir.files) - {INVENTORY_FILE}) == See(old(dir.files)).(listing := None);
  }

  method WriteOrRemove(s: Suite, dir: Directory<Content>, after: seq<Inventory>) returns (reply: Reply)
    requires Lawful(s) && dir.Valid() && Loaded(s, See(dir.files)).Some?
    modifies dir`files, dir`script, dir`trace
    ensures dir.Valid() && old(dir.trace) <= dir.trace && reply != NotFound
    ensures Guaranteed(s, dir.trace, |old(dir.trace)| - 1, Some(after), reply)
    ensures reply.Success? ==> after == [] || KeyUsable(s, See(old(dir.files)))
    ensures AllDone(old(dir.script)) ==>
      AllDone(dir.script) && (after == [] || KeyUsable(s, See(old(dir.files))) ==> reply.Success?)
  {
    if after == [] {
      reply := RemoveFile(s, dir);
    } else {
      reply := Rewrite(s, dir, after);
    }
  }

  // RemoveMSSQLInventory, with the lock held.
  method Remove(s: Suite, dir: Directory<Content>, container: string) returns (reply: Reply)
    requires Lawful(s) && dir.Valid()
    modifies dir`files, dir`script, dir`trace
    ensures dir.Valid() && old(dir.trace) <= dir.trace
    ensures Guaranteed(s, dir.trace, |old(dir.trace)| - 1, Asked(s, See(old(dir.files)), Op.Remove(container)), reply)
    ensures reply.Success? ==> Succeeds(s, See(old(dir.files)), Op.Remove(container))
    ensures AllDone(old(dir.script)) ==>
      AllDone(dir.script) && (Succeeds(s, See(old(dir.files)), Op.Remove(container)) ==> reply.Success?)
    ensures reply.NotFound? ==>
      Loaded(s, See(old(dir.files))).Some? && !Has(Loaded(s, See(old(dir.files))).value, TrimSpace(container))
  {
    hide Lawful, Guaranteed, WellFormed, KeyUsable, Asked, See;
    var after := Prepare(s, dir, Op.Remove(container));
    if after.Err? {
      NothingDone(s, dir.trace, Asked(s, See(dir.files), Op.Remove(container)), after.error);
      return after.error;
    }
    reply := WriteOrRemove(s, dir, after.value);
  }

  // The inventories that stand for a listing, entry by entry.
  predicate AllStandFor(s: Suite, key: Option<seq<byte>>, before: seq<Inventory>, es: seq<Persisted>) {
    |before| == |es| && forall i :: 0 <= i < |es| ==> StandsFor(s, key, before[i], es[i])
  }

  lemma OthersSaved(s: Suite, key: Option<seq<byte>>, before: seq<Inventory>, es: seq<Persisted>, next: Inventory)
    requires AllStandFor(s, key, before, es) && Saved(before, next).Some?
    ensures var r := Saved(before, next).value;
      && |es| <= |r| && next in r
      && forall i :: 0 <= i < |es| && es[i].container != next.container ==> StandsFor(s, key, r[i], es[i])
  {
    SavedIsThere(before, next);
    SavedIsMapUpdate(before, next);
    hide Saved, Unique, AsMap, Once;
  }

  lemma OthersStay(s: Suite, key: Option<seq<byte>>, before: seq<Inventory>, es: seq<Persisted>, c: string, i: nat)
    requires AllStandFor(s, key, before, es) && i < |es| && es[i].container != c
    ensures before[i] in Without(before, c) && StandsFor(s, key, before[i], es[i])
  {
    WithoutCounts(before, c);
    hide Without;
    assert StandsFor(s, key, before[i], es[i]);
    assert before[i] in multiset(before);
    assert multiset(Without(before, c))[before[i]] > 0;
  }

  lemma NoneLeft(before: seq<Inventory>, c: string)
    ensures forall x :: x in Without(before, c) ==> x.container != c
  {
    WithoutCounts(before, c);
    hide Without;
    forall x | x in Without(before, c) ensures x.container != c {
      assert multiset(Without(before, c))[x] > 0;
    }
  }

  lemma Succeeded(s: Suite, trace: seq<Files<Content>>, from: nat, op: Op, es: seq<Persisted>)
    requires from < |trace| && See(trace[from]).listing == Some(Listing(es))
    requires Guaranteed(s, trace, from, Asked(s, See(trace[from]), op), Success)
    ensures var was, now := Loaded(s, See(trace[from])), Loaded(s, See(trace[|trace| - 1]));
      && was.Some? && AllStandFor(s, KeyIn(s, See(trace[from]).key), was.value, es)
      && now.Some? && now == Applied(was.value, op)
  {
    hide Safe, AllTidy, Tidy, WellFormed, NoPlaintext, Applied;
    LoadedFields(s, See(trace[from]), es);
    hide Loaded, See, KeyIn, StandsFor;
  }

  // After a successful call on any list, plaintext entries among it, what is then
  // loaded still stands for every entry of another container, in its place after a
  // save; the entry saved is there, and the one removed is not.
  lemma OthersKept(s: Suite, trace: seq<Files<Content>>, from: nat, op: Op, es: seq<Persisted>)
    requires from < |trace| && See(trace[from]).listing == Some(Listing(es))
    requires Guaranteed(s, trace, from, Asked(s, See(trace[from]), op), Success)
    ensures Loaded(s, See(trace[|trace| - 1])).Some?
    ensures var key, r := KeyIn(s, See(trace[from]).key), Loaded(s, See(trace[|trace| - 1])).value;
      match op
      case Save(next) =>
        && |es| <= |r|
        && (forall i :: 0 <= i < |es| && es[i].container != TrimSpace(next.container) ==>
              StandsFor(s, key, r[i], es[i]))
        && Inventory(TrimSpace(next.container), TrimSpace(next.username), next.password, next.updatedAt) in r
      case Remove(container) =>
        && (forall i :: 0 <= i < |es| && es[i].container != TrimSpace(container) ==>
              exists x :: x in r && StandsFor(s, key, x, es[i]))
        && forall x :: x in r ==> x.container != TrimSpace(container)
  {
    Succeeded(s, trace, from, op, es);
    hide Loaded, See, Guaranteed, KeyIn, Asked, StandsFor, AllStandFor, Saved, Without, Has, TrimSpace;
    var key, before := KeyIn(s, See(trace[from]).key), Loaded(s, See(trace[from])).value;
    match op {
      case Save(next) =>
        OthersSaved(s, key, before, es, Trimmed(next));
      case Remove(container) =>
        NoneLeft(before, TrimSpace(container));
        forall i | 0 <= i < |es| && es[i].container != TrimSpace(container)
          ensures exists x :: x in Without(before, TrimSpace(container)) && StandsFor(s, key, x, es[i])
        {
          OthersStay(s, key, before, es, TrimSpace(container), i);
        }
    }
  }

  lemma SavedIsThere(configs: seq<Inventory>, next: Inventory)
    requires Saved(configs, next).Some?
    ensures next in Saved(configs, next).value
  {
    var r, i := Saved(configs, next).value, IndexOf(configs, next.container);
    assert r[i] == next;
  }

  // ---- histories of calls on one directory ----

  // The files load as what the first calls of applied leave.
  ghost predicate ShowsPrefix(s: Suite, files: Files<Content>, before: seq<Inventory>, applied: seq<Op>) {
    exists n :: 0 <= n <= |applied| && Loaded(s, See(files)) == Some(Replay(before, applied[..n]))
  }

  // So does every state shown from "from" on, and no key is taken away or changed.
  ghost predicate ShowsHistory(s: Suite, trace: seq<Files<Content>>, from: nat,
                               before: seq<Inventory>, applied: seq<Op>) {
    && (forall i :: from <= i < |trace| ==> ShowsPrefix(s, trace[i], before, applied))
    && KeysKept(trace, from)
  }

  lemma PrefixGrows(s: Suite, files: Files<Content>, before: seq<Inventory>, applied: seq<Op>, more: seq<Op>)
    requires ShowsPrefix(s, files, before, applied)
    ensures ShowsPrefix(s, files, before, applied + more)
  {
    var n :| 0 <= n <= |applied| && Loaded(s, See(files)) == Some(Replay(before, applied[..n]));
    assert (applied + more)[..n] == applied[..n];
  }

  lemma WholeIsPrefix(s: Suite, files: Files<Content>, before: seq<Inventory>, applied: seq<Op>)
    requires Loaded(s, See(files)) == Some(Replay(before, applied))
    ensures ShowsPrefix(s, files, before, applied)
  {
    assert applied[..|applied|] == applied;
  }

  lemma ShowsOneMore(s: Suite, trace: seq<Files<Content>>, longer: seq<Files<Content>>, from: nat,
                     before: seq<Inventory>, applied: seq<Op>, more: seq<Op>)
    requires from < |trace| && trace <= longer
    requires ShowsHistory(s, trace, from, before, applied)
    requires Safe(s, longer, |trace| - 1, Replay(before, applied), Replay(before, applied + more))
    ensures ShowsHistory(s, longer, from, before, applied + more)
  {
    hide See, Loaded, Replay, ShowsPrefix;
    forall i | from <= i < |longer| ensures ShowsPrefix(s, longer[i], before, applied + more) {
      if i < |trace| {
        assert longer[i] == trace[i];
        PrefixGrows(s, trace[i], before, applied, more);
      } else if Loaded(s, See(longer[i])) == Some(Replay(before, applied)) {
        WholeIsPrefix(s, longer[i], before, applied);
        PrefixGrows(s, longer[i], before, applied, more);
      } else {
        WholeIsPrefix(s, longer[i], before, applied + more);
      }
    }
    forall i | from < i < |longer| ensures KeyKept(See(longer[i - 1]), See(longer[i])) {
      if i < |trace| {
        assert longer[i] == trace[i] && longer[i - 1] == trace[i - 1];
      }
    }
  }

  lemma ReplaySnoc(before: seq<Inventory>, applied: seq<Op>, op: Op)
    ensures Replay(before, applied + [op]) == AfterCall(Replay(before, applied), op)
  {
    assert (applied + [op])[..|applied|] == applied;
  }

  lemma GuaranteedIsSafe(s: Suite, trace: seq<Files<Content>>, from: nat, was: seq<Inventory>, op: Op, reply: Reply)
    requires from < |trace| && Loaded(s, See(trace[from])) == Some(was)
    requires Guaranteed(s, trace, from, Applied(was, op), reply)
    ensures Safe(s, trace, from, was, AfterCall(was, op))
    ensures reply.Success? ==> Loaded(s, See(trace[|trace| - 1])) == Some(AfterCall(was, op))
    ensures reply.Failure? || reply.NotFound? ==> Loaded(s, See(trace[|trace| - 1])) == Some(was)
  {
  }

  lemma SafeOutcome(s: Suite, trace: seq<Files<Content>>, from: nat, before: seq<Inventory>, after: seq<Inventory>)
    requires from < |trace| && Safe(s, trace, from, before, after)
    ensures var last := Loaded(s, See(trace[|trace| - 1]));
      (last == Some(before) ==> Safe(s, trace, from, before, before)) && (last != Some(before) ==> last == Some(after))
  {
  }

  // What a call's reply says of it: a success took effect and a failure did not.
  predicate Effect(op: Op, reply: Reply, more: seq<Op>) {
    && (more == [] || more == [op])
    && (reply.Success? ==> more == [op])
    && (reply.Failure? || reply.NotFound? ==> more == [])
  }

  // One call, done or not, extends the history by that call or not at all.
  lemma CallExtends(s: Suite, trace: seq<Files<Content>>, longer: seq<Files<Content>>, from: nat,
                    before: seq<Inventory>, applied: seq<Op>, op: Op, reply: Reply) returns (more: seq<Op>)
    requires from < |trace| && trace <= longer && ShowsHistory(s, trace, from, before, applied)
    requires Loaded(s, See(trace[|trace| - 1])) == Some(Replay(before, applied))
    requires Guaranteed(s, longer, |trace| - 1, Applied(Replay(before, applied), op), reply)
    ensures Effect(op, reply, more)
    ensures ShowsHistory(s, longer, from, before, applied + more)
    ensures Loaded(s, See(longer[|longer| - 1])) == Some(Replay(before, applied + more))
    ensures reply.Success? ==> Replay(before, applied + more) == AfterCall(Replay(before, applied), op)
  {
    hide ShowsHistory, Guaranteed, Safe, Loaded, See, Replay, AfterCall;
    var was := Replay(before, applied);
    ReplaySnoc(before, applied, op);
    assert applied + [] == applied;
    assert longer[|trace| - 1] == trace[|trace| - 1];
    GuaranteedIsSafe(s, longer, |trace| - 1, was, op, reply);
    SafeOutcome(s, longer, |trace| - 1, was, AfterCall(was, op));
    more := if reply.Success? || Loaded(s, See(longer[|longer| - 1])) != Some(was) then [op] else [];
    ShowsOneMore(s, trace, longer, from, before, applied, more);
  }

  method RunOne(s: Suite, dir: Directory<Content>, ghost from: nat, ghost before: seq<Inventory>,
                ghost applied: seq<Op>, op: Op)
    returns (reply: Reply, ghost more: seq<Op>)
    requires Lawful(s) && dir.Valid() && WellFormed(s, See(dir.files))
    requires from < |dir.trace| && ShowsHistory(s, dir.trace, from, before, applied)
    requires Loaded(s, See(dir.files)) == Some(Replay(before, applied))
    modifies dir`files, dir`script, dir`trace
    ensures dir.Valid() && WellFormed(s, See(dir.files)) && old(dir.trace) <= dir.trace
    ensures Effect(op, reply, more) && (more == [] || more == [op])
    ensures ShowsHistory(s, dir.trace, from, before, applied + more)
    ensures Loaded(s, See(dir.files)) == Some(Replay(before, applied + more))
    ensures Tidy(s, See(old(dir.files))) ==> AllTidy(s, dir.trace, |old(dir.trace)| - 1)
    ensures AllDone(old(dir.script)) ==>
      && AllDone(dir.script)
      && Replay(before, applied + more) == AfterCall(Replay(before, applied), op)
      && (reply.Success? <==> Applied(Replay(before, applied), op).Some?)
  {
    hide Lawful, ShowsHistory, See, Loaded, Applied, Tidy, AllTidy, WellFormed, Succeeds;
    ghost var trace := dir.trace;
    AskedOfLoaded(s, See(dir.files), Replay(before, applied), op);
    match op {
      case Save(next) =>
        assert Op.Save(next.(updatedAt := next.updatedAt)) == op;
        reply := Save(s, dir, next, next.updatedAt);
      case Remove(container) =>
        reply := Remove(s, dir, container);
    }
    more := CallExtends(s, trace, dir.trace, from, before, applied, op, reply);
  }

  lemma AskedOfLoaded(s: Suite, v: View, was: seq<Inventory>, op: Op)
    requires WellFormed(s, v) && Loaded(s, v) == Some(was)
    ensures Asked(s, v, op) == Applied(was, op)
    ensures Succeeds(s, v, op) <==> Applied(was, op).Some?
  {
    hide Applied;
  }

  // applied are, in order, the calls of ops answered Success and some of those
  // whose process died.
  ghost predicate TookEffect(ops: seq<Op>, replies: seq<Reply>, applied: seq<Op>)
    requires |ops| == |replies|
  {
    if ops == [] then applied == []
    else
      exists more ::
        && Effect(ops[|ops| - 1], replies[|ops| - 1], more)
        && |more| <= |applied| && applied[|applied| - |more|..] == more
        && TookEffect(ops[..|ops| - 1], replies[..|ops| - 1], applied[..|applied| - |more|])
  }

  lemma TookEffectSnoc(ops: seq<Op>, replies: seq<Reply>, applied: seq<Op>, op: Op, reply: Reply, more: seq<Op>)
    requires |ops| == |replies| && TookEffect(ops, replies, applied) && Effect(op, reply, more)
    ensures TookEffect(ops + [op], replies + [reply], applied + more)
  {
    assert (ops + [op])[..|ops|] == ops && (replies + [reply])[..|ops|] == replies;
    assert (applied + more)[|applied|..] == more && (applied + more)[..|applied|] == applied;
  }

  // A call is answered with success exactly when it could be applied after those before it.
  predicate Answers(before: seq<Inventory>, ops: seq<Op>, replies: seq<Reply>)
    requires |ops| == |replies|
  {
    forall i :: 0 <= i < |ops| ==> (replies[i].Success? <==> Applied(Replay(before, ops[..i]), ops[i]).Some?)
  }

  lemma AnswersSnoc(before: seq<Inventory>, ops: seq<Op>, replies: seq<Reply>, op: Op, reply: Reply)
    requires |ops| == |replies|
    ensures Answers(before, ops, replies) && (reply.Success? <==> Applied(Replay(before, ops), op).Some?) ==>
      Answers(before, ops + [op], replies + [reply])
  {
    hide Applied, Replay;
    var longer := ops + [op];
    assert forall i :: 0 <= i <= |ops| ==> longer[..i] == ops[..i];
    assert ops[..|ops|] == ops;
  }

  lemma TidyJoins(s: Suite, trace: seq<Files<Content>>, longer: seq<Files<Content>>, from: nat)
    requires from < |trace| && trace <= longer && AllTidy(s, trace, from) && AllTidy(s, longer, |trace| - 1)
    ensures AllTidy(s, longer, from)
  {
    hide See, Tidy;
    forall i | from <= i < |longer| ensures Tidy(s, See(longer[i])) {
      assert i < |trace| ==> longer[i] == trace[i];
    }
  }

  // Any calls, one after another, whatever fails and however often the process
  // dies: the calls answered with success took effect, those answered with an
  // error did not, each completely and in order; at every moment the directory
  // holds what some of the first of them leave, with no file for an empty
  // inventory; and when nothing fails they amount to all the calls asked for.
  method RunHistory(s: Suite, dir: Directory<Content>, ops: seq<Op>, ghost before: seq<Inventory>)
    returns (replies: seq<Reply>, ghost applied: seq<Op>)
    requires Lawful(s) && dir.Valid() && WellFormed(s, See(dir.files)) && Loaded(s, See(dir.files)) == Some(before)
    modifies dir`files, dir`script, dir`trace
    ensures dir.Valid() && WellFormed(s, See(dir.files)) && old(dir.trace) <= dir.trace
    ensures ShowsHistory(s, dir.trace, |old(dir.trace)| - 1, before, applied)
    ensures Loaded(s, See(dir.files)) == Some(Replay(before, applied))
    ensures |replies| == |ops| && TookEffect(ops, replies, applied) && Subsequence(applied, ops)
    ensures Tidy(s, See(old(dir.files))) ==> AllTidy(s, dir.trace, |old(dir.trace)| - 1)
    ensures AllDone(old(dir.script)) ==>
      && AllDone(dir.script)
      && Replay(before, applied) == Replay(before, ops)
      && Answers(before, ops, replies)
  {
    hide Lawful, ShowsHistory, WellFormed, See, Loaded, Replay, Subsequence, TookEffect;
    hide AfterCall, Answers, Applied, Tidy, AllTidy, AllDone, Effect;
    NoCalls(s, dir.trace, before);
    applied, replies := [], [];
    ghost var from := |dir.trace| - 1;
    ghost var was := See(dir.files);
    for i := 0 to |ops|
      invariant dir.Valid() && WellFormed(s, See(dir.files)) && from < |dir.trace| && old(dir.trace) <= dir.trace
      invariant ShowsHistory(s, dir.trace, from, before, applied)
      invariant Loaded(s, See(dir.files)) == Some(Replay(before, applied))
      invariant |replies| == i && TookEffect(ops[..i], replies, applied) && Subsequence(applied, ops[..i])
      invariant Tidy(s, was) ==> AllTidy(s, dir.trace, from)
      invariant AllDone(old(dir.script)) ==>
        AllDone(dir.script) && Replay(before, applied) == Replay(before, ops[..i]) && Answers(before, ops[..i], replies)
    {
      ghost var trace := dir.trace;
      var reply;
      ghost var more;
      reply, more := RunOne(s, dir, from, before, applied, ops[i]);
      ReplaySnoc(before, ops[..i], ops[i]);
      SubsequenceSnoc(applied, ops[..i], ops[i]);
      TookEffectSnoc(ops[..i], replies, applied, ops[i], reply, more);
      AnswersSnoc(before, ops[..i], replies, ops[i], reply);
      if Tidy(s, was) {
        TidyAt(s, trace, from, |trace| - 1);
        TidyJoins(s, trace, dir.trace, from);
      }
      assert ops[..i + 1] == ops[..i] + [ops[i]] && applied + [] == applied;
      applied := applied + more;
      replies := replies + [reply];
    }
    assert ops[..|ops|] == ops;
  }

  lemma TidyAt(s: Suite, trace: seq<Files<Content>>, from: nat, i: nat)
    requires AllTidy(s, trace, from) && from <= i < |trace|
    ensures Tidy(s, See(trace[i]))
  {
  }

  lemma NoCalls(s: Suite, trace: seq<Files<Content>>, before: seq<Inventory>)
    requires trace != [] && Loaded(s, See(trace[|trace| - 1])) == Some(before)
    ensures ShowsHistory(s, trace, |trace| - 1, before, []) && Replay(before, []) == before
    ensures TookEffect([], [], []) && Subsequence([], []) && Answers(before, [], [])
    ensures Tidy(s, See(trace[|trace| - 1])) ==> AllTidy(s, trace, |trace| - 1)
  {
    HistoryStarts(s, trace, before);
  }

  // The calls of a, in their order, among those of b.
  ghost predicate Subsequence(a: seq<Op>, b: seq<Op>) {
    || a == []
    || (b != [] &&
        ((a[|a| - 1] == b[|b| - 1] && Subsequence(a[..|a| - 1], b[..|b| - 1])) || Subsequence(a, b[..|b| - 1])))
  }

  lemma SubsequenceSnoc(a: seq<Op>, b: seq<Op>, op: Op)
    requires Subsequence(a, b)
    ensures Subsequence(a, b + [op]) && Subsequence(a + [op], b + [op])
  {
    assert (a + [op])[..|a|] == a && (b + [op])[..|b|] == b;
  }

  lemma HistoryStarts(s: Suite, trace: seq<Files<Content>>, before: seq<Inventory>)
    requires trace != [] && Loaded(s, See(trace[|trace| - 1])) == Some(before)
    ensures ShowsHistory(s, trace, |trace| - 1, before, []) && Replay(before, []) == before
  {
    WholeIsPrefix(s, trace[|trace| - 1], before, []);
  }

  // A load at any moments of a whole history, calls that died among them, returns
  // what the first calls that took effect leave.
  lemma LoadDuringHistory(s: Suite, trace: seq<Files<Content>>, from: nat, before: seq<Inventory>, applied: seq<Op>,
                          first: nat, moments: seq<nat>)
    requires ShowsHistory(s, trace, from, before, applied)
    requires from <= first && ReadsAt(trace, first, moments)
    ensures exists n :: 0 <= n <= |applied| && LoadAt(s, trace, first, moments) == Some(Replay(before, applied[..n]))
  {
    assert ShowsPrefix(s, trace[first], before, applied);
    LoadIsOfFirstMoment(s, trace, from, first, moments);
  }

  // ---- the map a history leaves ----

  // loadMSSQLConfigMap; a nil map is an empty one.
  method LoadConfigMap(s: Suite, dir: Directory<Content>) returns (out: map<string, Inventory>)
    modifies dir`script
    ensures AllDone(old(dir.script)) && Loaded(s, See(dir.files)).Some? ==>
      out == AsMap(Loaded(s, See(dir.files)).value)
    ensures AllDone(old(dir.script)) && Loaded(s, See(dir.files)).None? ==> out == map[]
  {
    var configs := Load(s, dir);
    if configs.Err? || configs.value == [] {
      return map[];
    }
    out := ConfigMap(configs.value);
  }

  // A tidy view of what a history leaves stands for the map the history leaves,
  // whenever its calls fit the lists they meet, as all do from a list without
  // duplicates.
  lemma HistoryIsMapHistory(s: Suite, v: View, before: seq<Inventory>, ops: seq<Op>)
    requires Loaded(s, v) == Some(Replay(before, ops)) && Tidy(s, v)
    ensures var m := MapReplay(AsMap(before), ops);
      && (AllFit(before, ops) ==> AsMap(Loaded(s, v).value) == m && (v.listing.None? <==> m == map[]))
      && (Unique(before) ==> AllFit(before, ops) && |m| <= Max(|before|, 25))
  {
    hide Loaded, AllFit, Unique;
    ReplayIsMapReplay(before, ops);
    NothingMapped(Replay(before, ops));
    if Unique(before) {
      AsMapSize(Replay(before, ops));
    }
  }

  lemma NothingMapped(configs: seq<Inventory>)
    ensures configs == [] <==> AsMap(configs) == map[]
  {
    if configs != [] {
      assert configs[|configs| - 1].container in AsMap(configs);
    }
  }

  // From an empty directory, and with nothing failing, any calls leave the map
  // they leave as updates and removals, which is the map then loaded; and the file
  // is absent exactly when that map is empty.
  method HistoryFromEmpty(s: Suite, dir: Directory<Content>, ops: seq<Op>)
    returns (replies: seq<Reply>, out: map<string, Inventory>)
    requires Lawful(s) && dir.Valid() && See(dir.files) == View(None, None) && AllDone(dir.script)
    modifies dir`files, dir`script, dir`trace
    ensures out == MapReplay(map[], ops)
    ensures See(dir.files).listing.None? <==> out == map[]
    ensures |out| <= 25
    ensures |replies| == |ops| && Answers([], ops, replies)
  {
    assert Loaded(s, See(dir.files)) == Some([]) && WellFormed(s, See(dir.files)) && Tidy(s, See(dir.files));
    hide Lawful, Loaded, See, ShowsHistory, WellFormed, TookEffect, Subsequence, Replay, MapReplay, Tidy, Answers;
    ghost var applied;
    replies, applied := RunHistory(s, dir, ops, []);
    HistoryIsMapHistory(s, See(dir.trace[|dir.trace| - 1]), [], ops);
    out := LoadConfigMap(s, dir);
  }

  // ---- a lost key ----

  // Without a key the inventory loads exactly when no entry is encrypted.
  lemma LoadedWithoutKey(s: Suite, v: View)
    requires KeyIn(s, v.key).None? && v.listing.Some? && v.listing.value.Listing?
    ensures Loaded(s, v).Some? <==> forall e :: e in v.listing.value.entries ==> e.encrypted == ""
  {
    var es := v.listing.value.entries;
    var rs := LoadEntries(s, None, es);
    forall i | 0 <= i < |es| ensures rs[i].Some? <==> es[i].encrypted == "" {
    }
    if Loaded(s, v).Some? {
      assert Gather(rs).Some?;
    }
  }

  // So once the key is lost a call succeeds exactly when no entry is encrypted and
  // it can be applied to them, and, if a key file is there that holds no key, it
  // leaves no entry.
  lemma LostKeyExactly(s: Suite, v: View, op: Op)
    requires KeyIn(s, v.key).None? && v.listing.Some? && v.listing.value.Listing?
    ensures var es := v.listing.value.entries;
      Succeeds(s, v, op) <==>
      && AllPlaintext(es)
      && Applied(Plain(es), op).Some?
      && (v.key.None? || Applied(Plain(es), op) == Some([]))
  {
    var es := v.listing.value.entries;
    hide Applied;
    LoadedWithoutKey(s, v);
    LoadedFields(s, v, es);
  }

  // In particular no encrypted entry can be removed, nor any entry saved beside one.
  lemma LostKeyBlocksRemoval(s: Suite, v: View, e: Persisted, op: Op)
    requires KeyIn(s, v.key).None? && v.listing.Some? && v.listing.value.Listing?
    requires e in v.listing.value.entries && e.encrypted != ""
    ensures Asked(s, v, op).None?
  {
    LoadedWithoutKey(s, v);
  }
}
