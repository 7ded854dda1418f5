// The agent's TLS certificate, its private key and its bearer token, each in a
// file of its own, written by installer runs that may die at any system call.
module Identity {
  import opened Wrappers
  import opened Text
  import opened Disk

  const CERT_FILE := "cert.pem"
  const KEY_FILE := "key.pem"
  const TOKEN_FILE := "token"

  // A certificate and a private key match when they come from one key pair.
  datatype Content = Certificate(pair: nat) | PrivateKey(pair: nat) | TokenText(text: string) | Broken

  datatype View = View(cert: Option<Content>, key: Option<Content>, token: Option<Content>)

  const FILES := {CERT_FILE, KEY_FILE, TOKEN_FILE}

  function ViewOf(files: Files<Content>): View {
    View(At(files, CERT_FILE), At(files, KEY_FILE), At(files, TOKEN_FILE))
  }

  function See(files: Files<Content>): View {
    ViewOf(Watched(files, FILES))
  }

  // The three files by name.
  lemma SeeExactly(files: Files<Content>)
    ensures See(files).cert == if "cert.pem" in files then Some(files["cert.pem"]) else None
    ensures See(files).key == if "key.pem" in files then Some(files["key.pem"]) else None
    ensures See(files).token == if "token" in files then Some(files["token"]) else None
  {
  }

  function With(v: View, name: string, data: Content): View {
    if name == CERT_FILE then v.(cert := Some(data))
    else if name == KEY_FILE then v.(key := Some(data))
    else v.(token := Some(data))
  }

  lemma FilesAreApart()
    ensures NoTemporaries(FILES)
    ensures CERT_FILE != KEY_FILE && CERT_FILE != TOKEN_FILE && KEY_FILE != TOKEN_FILE
  {
    assert forall name :: name in FILES ==> 5 <= |name| <= 8;
    assert forall path :: |TmpName(path)| == |path| + 4;
    assert |CERT_FILE| == 8 && |KEY_FILE| == 7 && |TOKEN_FILE| == 5;
  }

  lemma ViewReplaced(files: Files<Content>, name: string, data: Content)
    requires name in FILES
    ensures ViewOf(files[name := data]) == With(ViewOf(files), name, data)
  {
    FilesAreApart();
  }

  // Every state after "from" shows was, except that the last may show now.
  ghost predicate Shows(trace: seq<Files<Content>>, from: nat, was: View, now: View) {
    forall i :: from <= i < |trace| ==> See(trace[i]) == was || (i == |trace| - 1 && See(trace[i]) == now)
  }

  // WriteFilePreserveOwner on one of the three files, as the others see it.
  method Replace(dir: Directory<Content>, name: string, data: Content) returns (status: Status)
    requires dir.Valid() && name in FILES
    modifies dir`files, dir`script, dir`trace
    ensures dir.Valid() && old(dir.trace) <= dir.trace
    ensures AllDone(old(dir.script)) ==> status.Done? && AllDone(dir.script)
    ensures Shows(dir.trace, |old(dir.trace)| - 1, See(old(dir.files)), With(See(old(dir.files)), name, data))
    ensures status.Done? ==> See(dir.files) == With(See(old(dir.files)), name, data)
    ensures status.Failed? ==> See(dir.files) == See(old(dir.files))
    ensures var script, present := old(dir.script), name in old(dir.files);
      && (status.Done? <==> Completes(script, present))
      && (status.Done? ==> dir.script == Remaining(script, present))
      && See(dir.files) ==
         if Replacing(script, present) then With(See(old(dir.files)), name, data) else See(old(dir.files))
  {
    FilesAreApart();
    ViewReplaced(Watched(dir.files, FILES), name, data);
    hide Completes, Remaining, Replacing, NoTemporaries, Watched, ViewOf, With;
    status := Disk.Replace(dir, FILES, name, data);
  }

  // ---- certificate and key ----

  // A key file is never there without the certificate that matches it.
  predicate Matched(v: View) {
    v.key.Some? ==>
      v.cert.Some? && v.cert.value.Certificate? && v.key.value.PrivateKey? && v.cert.value.pair == v.key.value.pair
  }

  // The certificate is replaced first, the key second: three views in order.
  ghost predicate ShowsRenewal(trace: seq<Files<Content>>, from: nat, was: View, pair: nat) {
    var mid := was.(cert := Some(Certificate(pair)));
    var end := mid.(key := Some(PrivateKey(pair)));
    && (forall i :: from <= i < |trace| ==>
          See(trace[i]) == was || See(trace[i]) == mid || (i == |trace| - 1 && See(trace[i]) == end))
    && (forall i, j :: from <= i <= j < |trace| && See(trace[j]) == was ==> See(trace[i]) == was)
  }

  // No key is there, or none but that of the pair to come.
  predicate NoOtherKey(v: View, pair: nat) {
    v.key.None? || v.key == Some(PrivateKey(pair))
  }

  ghost predicate AllMatched(trace: seq<Files<Content>>, from: nat) {
    forall i :: from <= i < |trace| ==> Matched(See(trace[i]))
  }

  // writeNewCert on a script, in a directory seen as v: the certificate is in
  // place; the key is too; it returns without error. Before the certificate and
  // before the key one call each stands for what else may fail.
  predicate CertLands(script: seq<Outcome<Content>>, v: View) {
    First(script).status.Done? && Replacing(Rest(script), v.cert.Some?)
  }

  function AfterCert(script: seq<Outcome<Content>>, v: View): seq<Outcome<Content>> {
    Remaining(Rest(script), v.cert.Some?)
  }

  predicate CertWritten(script: seq<Outcome<Content>>, v: View) {
    First(script).status.Done? && Completes(Rest(script), v.cert.Some?) && First(AfterCert(script, v)).status.Done?
  }

  predicate KeyLands(script: seq<Outcome<Content>>, v: View) {
    CertWritten(script, v) && Replacing(Rest(AfterCert(script, v)), v.key.Some?)
  }

  predicate Renews(script: seq<Outcome<Content>>, v: View) {
    CertWritten(script, v) && Completes(Rest(AfterCert(script, v)), v.key.Some?)
  }

  // The view it leaves.
  function Renewed(script: seq<Outcome<Content>>, v: View, pair: nat): View {
    if !CertLands(script, v) then v
    else if !KeyLands(script, v) then v.(cert := Some(Certificate(pair)))
    else v.(cert := Some(Certificate(pair)), key := Some(PrivateKey(pair)))
  }

  // writeNewCert with a newly generated key pair.
  method WriteNewCert(dir: Directory<Content>, pair: nat) returns (status: Status)
    requires dir.Valid()
    modifies dir`files, dir`script, dir`trace
    ensures dir.Valid() && old(dir.trace) <= dir.trace
    ensures AllDone(old(dir.script)) ==> status.Done? && AllDone(dir.script)
    ensures ShowsRenewal(dir.trace, |old(dir.trace)| - 1, See(old(dir.files)), pair)
    ensures status.Done? ==>
      See(dir.files) == See(old(dir.files)).(cert := Some(Certificate(pair)), key := Some(PrivateKey(pair)))
    ensures status.Done? <==> Renews(old(dir.script), See(old(dir.files)))
    ensures See(dir.files) == Renewed(old(dir.script), See(old(dir.files)), pair)
    // However it ends, every moment is matched exactly when the certificate did
    // not get into place or no other key was there.
    ensures Matched(See(old(dir.files))) ==>
      (AllMatched(dir.trace, |old(dir.trace)| - 1) <==>
       NoOtherKey(See(old(dir.files)), pair) || !CertLands(old(dir.script), See(old(dir.files))))
  {
    hide Completes, Remaining, Replacing, First, Rest, See, Matched, NoOtherKey, AllMatched;
    FilesAreApart();
    Present(dir.files);
    ghost var was, from := See(dir.files), |dir.trace| - 1;
    ghost var lands := CertLands(dir.script, was);
    status := dir.Touch();       // key pair, serial number, signature
    if !status.Done? {
      ShownMatched(dir.trace, from, was, pair, from, false);
      return;
    }
    CompletedLands(dir.script, CERT_FILE in dir.files);
    status := Replace(dir, CERT_FILE, Certificate(pair));
    ghost var middle := dir.trace;
    if !status.Done? {
      ShownMatched(dir.trace, from, was, pair, |middle| - 1, lands);
      return;
    }
    Present(dir.files);
    status := dir.Touch();       // key encoding
    if !status.Done? {
      ShownMatched(dir.trace, from, was, pair, |middle| - 1, lands);
      return;
    }
    status := Replace(dir, KEY_FILE, PrivateKey(pair));
    assert forall i :: 0 <= i < |middle| ==> dir.trace[i] == middle[i];
    assert dir.trace[|middle| - 1] == middle[|middle| - 1];
    ShownMatched(dir.trace, from, was, pair, |middle| - 1, lands);
  }

  lemma Present(files: Files<Content>)
    ensures var v := See(files);
      && (CERT_FILE in files <==> v.cert.Some?)
      && (KEY_FILE in files <==> v.key.Some?)
      && (TOKEN_FILE in files <==> v.token.Some?)
  {
  }

  // A renewal is matched at every moment exactly when the new certificate is never
  // shown with another key: it is shown at "at", or nothing new is shown.
  lemma ShownMatched(trace: seq<Files<Content>>, from: nat, was: View, pair: nat, at: nat, lands: bool)
    requires from <= at < |trace| && ShowsRenewal(trace, from, was, pair)
    requires lands ==> See(trace[at]) == was.(cert := Some(Certificate(pair)))
    requires !lands ==> forall i :: from <= i < |trace| ==> See(trace[i]) == was
    ensures Matched(was) ==> (AllMatched(trace, from) <==> NoOtherKey(was, pair) || !lands)
  {
    hide See;
  }

  // A stat call of a GenerateCert run fails.
  predicate StatFails(script: seq<Outcome<Content>>) {
    && First(script).status.Done?
    && (First(Rest(script)).status.Failed?
        || (First(Rest(script)).status.Done? && First(Rest(Rest(script))).status.Failed?))
  }

  // GenerateCert on a script: the script from writeNewCert on, if it gets there.
  function Renewing(script: seq<Outcome<Content>>, v: View): Option<seq<Outcome<Content>>> {
    var o1, o2 := First(Rest(script)), First(Rest(Rest(script)));
    if !First(script).status.Done? || o1.status.Crashed? then None
    else if !o1.status.Done? || v.cert.None? then Some(Rest(Rest(script)))
    else if o2.status.Crashed? then None
    else if !o2.status.Done? || v.key.None? then Some(Rest(Rest(Rest(script))))
    else None
  }

  function Generated(script: seq<Outcome<Content>>, v: View, pair: nat): View {
    if Renewing(script, v).Some? then Renewed(Renewing(script, v).value, v, pair) else v
  }

  // A run that makes some moment mismatched: it puts its certificate beside another key.
  predicate Breaks(script: seq<Outcome<Content>>, v: View, pair: nat) {
    !NoOtherKey(v, pair) && Renewing(script, v).Some? && CertLands(Renewing(script, v).value, v)
  }

  // GenerateCert: does nothing when both files are there.
  method GenerateCert(dir: Directory<Content>, pair: nat) returns (status: Status, created: bool)
    requires dir.Valid()
    modifies dir`files, dir`script, dir`trace
    ensures dir.Valid() && old(dir.trace) <= dir.trace
    ensures AllDone(old(dir.script)) ==> status.Done? && AllDone(dir.script)
    ensures ShowsRenewal(dir.trace, |old(dir.trace)| - 1, See(old(dir.files)), pair)
    // However it ends, this is the view it leaves, and a matched state is matched
    // at every moment exactly when the run does not break it.
    ensures See(dir.files) == Generated(old(dir.script), See(old(dir.files)), pair)
    ensures Matched(See(old(dir.files))) ==>
      (AllMatched(dir.trace, |old(dir.trace)| - 1) <==> !Breaks(old(dir.script), See(old(dir.files)), pair))
    // Without an error it leaves both files; a pair that is there it leaves alone
    // exactly when no stat call fails.
    ensures status.Done? ==> See(dir.files).cert.Some? && See(dir.files).key.Some?
    ensures status.Done? && created ==>
      See(dir.files) == See(old(dir.files)).(cert := Some(Certificate(pair)), key := Some(PrivateKey(pair)))
    ensures var rest := Renewing(old(dir.script), See(old(dir.files)));
      rest.Some? ==> (status.Done? <==> Renews(rest.value, See(old(dir.files)))) && created == status.Done?
    ensures status.Done? && See(old(dir.files)).cert.Some? && See(old(dir.files)).key.Some? ==>
      (created <==> StatFails(old(dir.script)))
    ensures Renewing(old(dir.script), See(old(dir.files))).None? ==>
      dir.files == old(dir.files) && dir.trace == old(dir.trace) && !created
    ensures See(dir.files).token == See(old(dir.files)).token
  {
    hide Completes, Remaining, Replacing, First, Rest, See, Matched, NoOtherKey;
    hide CertLands, KeyLands, Renews, ShowsRenewal, AllMatched;
    Present(dir.files);
    ghost var was, from := See(dir.files), |dir.trace| - 1;
    NothingShown(dir.trace, was, pair);
    created := false;
    status := dir.Touch();       // mkdir
    if !status.Done? {
      return;
    }
    var certThere, keyThere := false, false;
    status, certThere := dir.Exists(CERT_FILE);
    if certThere {
      status, keyThere := dir.Exists(KEY_FILE);
    }
    if status.Crashed? {
      return;
    }
    if certThere && keyThere {
      status := Done;
      return;
    }
    status := WriteNewCert(dir, pair);
    created := status.Done?;
  }

  lemma NothingShown(trace: seq<Files<Content>>, was: View, pair: nat)
    requires trace != [] && See(trace[|trace| - 1]) == was
    ensures ShowsRenewal(trace, |trace| - 1, was, pair)
    ensures Matched(was) ==> AllMatched(trace, |trace| - 1)
  {
  }

  // At every moment matched; and once a key is there, nothing changes any more.
  ghost predicate Settles(trace: seq<Files<Content>>, from: nat) {
    && (forall i :: from <= i < |trace| ==> Matched(See(trace[i])))
    && (forall i, j :: from <= i <= j < |trace| && See(trace[i]).key.Some? ==> See(trace[j]) == See(trace[i]))
  }

  lemma SettlesOneMore(trace: seq<Files<Content>>, longer: seq<Files<Content>>, from: nat, pair: nat)
    requires from < |trace| && trace <= longer && Settles(trace, from)
    requires ShowsRenewal(longer, |trace| - 1, See(trace[|trace| - 1]), pair)
    requires AllMatched(longer, |trace| - 1)
    requires See(trace[|trace| - 1]).key.Some? ==>
      forall i :: |trace| - 1 <= i < |longer| ==> See(longer[i]) == See(trace[|trace| - 1])
    ensures Settles(longer, from)
  {
    hide See, Matched;
    assert forall i :: 0 <= i < |trace| ==> longer[i] == trace[i];
    assert forall i :: |trace| - 1 <= i < |longer| - 1 ==>
      See(longer[i]).key == See(trace[|trace| - 1]).key;
  }

  // A run that does not break a matched pair does not change it at all.
  lemma PairKept(trace: seq<Files<Content>>, from: nat, was: View, pair: nat, script: seq<Outcome<Content>>)
    requires from < |trace| && ShowsRenewal(trace, from, was, pair) && Matched(was) && was.key.Some?
    requires AllMatched(trace, from) && !Breaks(script, was, pair)
    requires See(trace[|trace| - 1]) == Generated(script, was, pair)
    ensures forall i :: from <= i < |trace| ==> See(trace[i]) == was
  {
    hide See, CertLands, KeyLands, Renewing;
  }

  // What runs of GenerateCert one after another leave, each with the script its
  // own calls meet.
  function RunsView(v: View, scripts: seq<seq<Outcome<Content>>>, pairs: seq<nat>): View
    requires |scripts| == |pairs|
  {
    if pairs == [] then v
    else
      var n := |pairs| - 1;
      Generated(scripts[n], RunsView(v, scripts[..n], pairs[..n]), pairs[n])
  }

  // Run i breaks what the runs before it left.
  predicate BreaksAt(v: View, scripts: seq<seq<Outcome<Content>>>, pairs: seq<nat>, i: nat)
    requires |scripts| == |pairs| && i < |pairs|
  {
    Breaks(scripts[i], RunsView(v, scripts[..i], pairs[..i]), pairs[i])
  }

  // One run, in a process of its own.
  method RunOnce(dir: Directory<Content>, script: seq<Outcome<Content>>, pair: nat) returns (status: Status)
    requires dir.Valid()
    modifies dir`files, dir`script, dir`trace
    ensures dir.Valid() && old(dir.trace) <= dir.trace
    ensures ShowsRenewal(dir.trace, |old(dir.trace)| - 1, See(old(dir.files)), pair)
    ensures See(dir.files) == Generated(script, See(old(dir.files)), pair)
    ensures Matched(See(old(dir.files))) ==>
      (AllMatched(dir.trace, |old(dir.trace)| - 1) <==> !Breaks(script, See(old(dir.files)), pair))
    ensures status.Done? ==> See(dir.files).cert.Some? && See(dir.files).key.Some?
  {
    hide See, Matched, AllMatched, Breaks, Generated, Renewing, Renews, StatFails, ShowsRenewal;
    dir.script := script;
    var created;
    status, created := GenerateCert(dir, pair);
  }

  // Any number of runs one after another, each stopped or failing anywhere,
  // starting with neither file: unless some run breaks the pair, every state is
  // matched and from the moment a key is there nothing changes any more; and it is
  // so only then. A run that ends well leaves both files.
  method GenerateRuns(dir: Directory<Content>, scripts: seq<seq<Outcome<Content>>>, pairs: seq<nat>)
    returns (statuses: seq<Status>)
    requires dir.Valid() && See(dir.files).cert.None? && See(dir.files).key.None? && |scripts| == |pairs|
    modifies dir`files, dir`script, dir`trace
    ensures dir.Valid() && old(dir.trace) <= dir.trace
    ensures |statuses| == |pairs|
    ensures See(dir.files) == RunsView(See(old(dir.files)), scripts, pairs)
    ensures Settles(dir.trace, |old(dir.trace)| - 1) <==>
      forall i :: 0 <= i < |pairs| ==> !BreaksAt(See(old(dir.files)), scripts, pairs, i)
    ensures Done in statuses ==> See(dir.files).cert.Some? && See(dir.files).key.Some?
  {
    hide See, Matched, Generated, Breaks, ShowsRenewal, AllMatched, Settles, RunsView;
    statuses := [];
    ghost var from, was := |dir.trace| - 1, See(dir.files);
    StartsSettled(dir.trace, scripts, pairs);
    for i := 0 to |pairs|
      invariant dir.Valid() && old(dir.trace) <= dir.trace && |statuses| == i
      invariant See(dir.files) == RunsView(was, scripts[..i], pairs[..i])
      invariant Settles(dir.trace, from) <==> forall j :: 0 <= j < i ==> !BreaksAt(was, scripts, pairs, j)
      invariant Done in statuses ==> See(dir.files).cert.Some? && See(dir.files).key.Some?
    {
      ghost var trace, before := dir.trace, See(dir.files);
      var status := RunOnce(dir, scripts[i], pairs[i]);
      SettlesIff(trace, dir.trace, from, scripts[i], pairs[i]);
      assert BreaksAt(was, scripts, pairs, i) <==> Breaks(scripts[i], before, pairs[i]);
      RunsViewNext(was, scripts, pairs, i);
      NeverRemoved(scripts[i], before, pairs[i]);
      statuses := statuses + [status];
    }
    assert scripts[..|pairs|] == scripts && pairs[..|pairs|] == pairs;
  }

  lemma StartsSettled(trace: seq<Files<Content>>, scripts: seq<seq<Outcome<Content>>>, pairs: seq<nat>)
    requires trace != [] && See(trace[|trace| - 1]).key.None?
    ensures Settles(trace, |trace| - 1)
    ensures RunsView(See(trace[|trace| - 1]), [], []) == See(trace[|trace| - 1])
  {
  }

  lemma RunsViewNext(v: View, scripts: seq<seq<Outcome<Content>>>, pairs: seq<nat>, i: nat)
    requires |scripts| == |pairs| && i < |pairs|
    ensures RunsView(v, scripts[..i + 1], pairs[..i + 1]) ==
      Generated(scripts[i], RunsView(v, scripts[..i], pairs[..i]), pairs[i])
  {
    assert scripts[..i + 1][..i] == scripts[..i] && pairs[..i + 1][..i] == pairs[..i];
  }

  lemma NeverRemoved(script: seq<Outcome<Content>>, v: View, pair: nat)
    ensures v.cert.Some? ==> Generated(script, v, pair).cert.Some?
    ensures v.key.Some? ==> Generated(script, v, pair).key.Some?
  {
    hide CertLands, KeyLands, Renewing;
  }

  lemma SettlesIff(trace: seq<Files<Content>>, longer: seq<Files<Content>>, from: nat,
                   script: seq<Outcome<Content>>, pair: nat)
    requires from < |trace| && trace <= longer
    requires ShowsRenewal(longer, |trace| - 1, See(trace[|trace| - 1]), pair)
    requires See(longer[|longer| - 1]) == Generated(script, See(trace[|trace| - 1]), pair)
    requires Matched(See(trace[|trace| - 1])) ==>
      (AllMatched(longer, |trace| - 1) <==> !Breaks(script, See(trace[|trace| - 1]), pair))
    ensures Settles(longer, from) <==> Settles(trace, from) && !Breaks(script, See(trace[|trace| - 1]), pair)
  {
    hide Breaks, Generated, ShowsRenewal, Matched, See;
    var was := See(trace[|trace| - 1]);
    assert forall i :: 0 <= i < |trace| ==> longer[i] == trace[i];
    if Settles(trace, from) && !Breaks(script, was, pair) {
      if was.key.Some? {
        assert longer[|trace| - 1] == trace[|trace| - 1];
        PairKept(longer, |trace| - 1, was, pair, script);
      }
      SettlesOneMore(trace, longer, from, pair);
    }
  }

  // RotateCert: replaces a pair that may be in use.
  method RotateCert(dir: Directory<Content>, pair: nat) returns (status: Status)
    requires dir.Valid()
    modifies dir`files, dir`script, dir`trace
    ensures dir.Valid() && old(dir.trace) <= dir.trace
    ensures AllDone(old(dir.script)) ==> status.Done? && AllDone(dir.script)
    ensures ShowsRenewal(dir.trace, |old(dir.trace)| - 1, See(old(dir.files)), pair)
    ensures status.Done? ==>
      See(dir.files) == See(old(dir.files)).(cert := Some(Certificate(pair)), key := Some(PrivateKey(pair)))
    ensures var script, was := old(dir.script), See(old(dir.files));
      var begins := First(script).status.Done?;
      && (status.Done? <==> begins && Renews(Rest(script), was))
      && See(dir.files) == (if begins then Renewed(Rest(script), was, pair) else was)
      // However a rotation ends, with an error or killed or well: it leaves a
      // mismatched pair exactly when another key was there and the certificate got
      // into place but the key did not; and it shows one exactly when another key
      // was there and the certificate got into place.
      && (Matched(was) ==>
            && (Matched(See(dir.files)) <==>
                NoOtherKey(was, pair) || !(begins && CertLands(Rest(script), was) && !KeyLands(Rest(script), was)))
            && (AllMatched(dir.trace, |old(dir.trace)| - 1) <==>
                NoOtherKey(was, pair) || !(begins && CertLands(Rest(script), was))))
  {
    hide First, Rest, CertLands, KeyLands, Renews, See, Matched, NoOtherKey, ShowsRenewal, AllMatched;
    ghost var was, script := See(dir.files), dir.script;
    NothingShown(dir.trace, was, pair);
    status := dir.Touch();       // mkdir
    if status.Done? {
      RenewedMatched(Rest(script), was, pair);
      status := WriteNewCert(dir, pair);
    }
  }

  lemma RenewedMatched(script: seq<Outcome<Content>>, was: View, pair: nat)
    ensures Matched(was) ==>
      (Matched(Renewed(script, was, pair)) <==>
       NoOtherKey(was, pair) || !(CertLands(script, was) && !KeyLands(script, was)))
  {
    hide CertLands, KeyLands;
  }

  // A script of n calls done and one that is not.
  function StopAfter(n: nat, how: Outcome<Content>): seq<Outcome<Content>> {
    if n == 0 then [how] else [Outcome(Done, true, None)] + StopAfter(n - 1, how)
  }

  lemma {:induction false} StopAfterLives(n: nat, how: Outcome<Content>, k: nat)
    requires k <= n
    ensures Lives(StopAfter(n, how), k) && Skip(StopAfter(n, how), k) == StopAfter(n - k, how)
    ensures k < n ==> Lands(StopAfter(n, how), k)
    ensures k == n ==> (Lands(StopAfter(n, how), k) <==> how.status.Done? || (how.status.Crashed? && how.landed))
    ensures k < n ==> First(StopAfter(n, how)).status.Done? && Rest(StopAfter(n, how)) == StopAfter(n - 1, how)
  {
    if k > 0 {
      StopAfterLives(n - 1, how, k - 1);
    }
  }

  // A rotation of a pair in place takes thirteen calls, the last of them the
  // rename of the key.
  lemma StoppedAtKey(how: Outcome<Content>, v: View)
    requires v.cert.Some? && v.key.Some? && !how.status.Done? && !(how.status.Crashed? && how.landed)
    ensures var script := StopAfter(12, how);
      First(script).status.Done? && CertLands(Rest(script), v) && !KeyLands(Rest(script), v)
  {
    StopAfterLives(12, how, 0);
    StopAfterLives(11, how, 0);
    StopAfterLives(10, how, 0);
    StopAfterLives(9, how, 3);
    StopAfterLives(9, how, 4);
    StopAfterLives(5, how, 0);
    StopAfterLives(4, how, 0);
    StopAfterLives(3, how, 3);
    hide StopAfter, Lives, Lands, Skip;
    assert AfterOwner(StopAfter(10, how), true) == Some((StopAfter(9, how), 3));
    assert AfterOwner(StopAfter(4, how), true) == Some((StopAfter(3, how), 3));
  }

  // Such rotations there are, for every matched pair in use: killed in the rename
  // of the new key, or that rename failing, it leaves the new certificate with the
  // old key.
  method RotationStopped(files: Files<Content>, pair: nat, how: Outcome<Content>)
    returns (dir: Directory<Content>, status: Status)
    requires Matched(See(files)) && !NoOtherKey(See(files), pair)
    requires !how.status.Done? && !(how.status.Crashed? && how.landed)
    ensures fresh(dir) && dir.Valid() && dir.trace != [] && dir.trace[0] == files
    ensures !status.Done?
    ensures See(dir.files) == See(files).(cert := Some(Certificate(pair))) && !Matched(See(dir.files))
  {
    PairInPlace(See(files), pair);
    StoppedAtKey(how, See(files));
    NotRenewed(Rest(StopAfter(12, how)), See(files));
    hide See, Matched, NoOtherKey, AllMatched, CertLands, KeyLands, Renews, StopAfter, ShowsRenewal, First, Rest;
    dir := new Directory(files, StopAfter(12, how));
    status := RotateCert(dir, pair);
  }

  lemma PairInPlace(v: View, pair: nat)
    requires Matched(v) && !NoOtherKey(v, pair)
    ensures v.cert.Some? && v.key.Some?
  {
  }

  // And no later run of GenerateCert in which nothing fails mends the pair.
  method NeverMended(dir: Directory<Content>, pair: nat)
    requires dir.Valid() && See(dir.files).cert.Some? && See(dir.files).key.Some?
    modifies dir`files, dir`script, dir`trace
    ensures dir.files == old(dir.files)
  {
    NothingUnseen(See(dir.files));
    hide See, Matched, AllMatched, Breaks, Generated, Renewing, Renews, StatFails, ShowsRenewal;
    dir.script := [];
    var ended, created := GenerateCert(dir, pair);
  }

  lemma NotRenewed(script: seq<Outcome<Content>>, v: View)
    ensures Renews(script, v) ==> KeyLands(script, v)
  {
    if CertWritten(script, v) {
      CompletedLands(Rest(AfterCert(script, v)), v.key.Some?);
    }
  }

  lemma CompletedLands(script: seq<Outcome<Content>>, present: bool)
    ensures Completes(script, present) ==> Replacing(script, present)
  {
    hide First, Rest;
    var after := AfterOwner(script, present);
    if after.Some? {
      LivesLands(after.value.0, after.value.1);
    }
  }

  lemma NothingUnseen(v: View)
    requires v.cert.Some? && v.key.Some?
    ensures Renewing([], v).None?
  {
  }

  // A failing stat call does as much harm to a pair in use: the run returns
  // without error, has replaced the pair, and has shown a mismatched one.
  method PairUnseen(files: Files<Content>, pair: nat) returns (dir: Directory<Content>, status: Status, created: bool)
    requires Matched(See(files)) && !NoOtherKey(See(files), pair)
    ensures fresh(dir) && dir.Valid() && dir.trace != [] && dir.trace[0] == files
    ensures status.Done? && created && See(dir.files).key == Some(PrivateKey(pair))
    ensures exists i :: 0 <= i < |dir.trace| && !Matched(See(dir.trace[i]))
  {
    var script := [Outcome<Content>.Outcome(Done, true, None), Outcome<Content>.Outcome(Failed, false, None)];
    assert Rest(Rest(script)) == [] && Renewing(script, See(files)) == Some([]);
    NothingFails(See(files));
    dir := new Directory(files, script);
    hide See, CertLands, Renews, ShowsRenewal, Matched, NoOtherKey, First, Rest;
    status, created := GenerateCert(dir, pair);
  }

  lemma {:induction false} EmptyLives(n: nat)
    ensures Lives<Content>([], n) && Lands<Content>([], n) && Skip<Content>([], n) == []
  {
    if n > 0 {
      EmptyLives(n - 1);
    }
  }

  lemma NothingFails(v: View)
    ensures CertLands([], v) && Renews([], v)
  {
    EmptyLives(3);
    EmptyLives(4);
    hide Lives, Lands, Skip;
    assert forall present :: AfterOwner<Content>([], present) == Some(([], 3));
  }

  // ---- token ----

  // LoadToken; None is any of its errors.
  function TokenIn(content: Option<Content>): Option<string> {
    if content.Some? && content.value.TokenText? && TrimSpace(content.value.text) != "" then
      Some(TrimSpace(content.value.text))
    else None
  }

  // The token is the text of its file without white space around it, when that
  // leaves anything.
  lemma TokenInExactly(content: Option<Content>, token: string)
    ensures TokenIn(content) == Some(token) <==>
      token != "" && exists text :: content == Some(TokenText(text)) && TrimSpace(text) == token
  {
    if TokenIn(content) == Some(token) {
      assert content == Some(TokenText(content.value.text));
    }
  }

  method LoadToken(dir: Directory<Content>) returns (status: Status, token: Option<string>)
    modifies dir`script
    ensures Took(old(dir.script), dir.script, status)
    ensures token == if status.Done? then TokenIn(See(dir.files).token) else None
    ensures AllDone(old(dir.script)) ==> status.Done? && AllDone(dir.script)
  {
    Present(dir.files);
    var data;
    status, data := dir.Read(TOKEN_FILE);
    token := if status.Done? then TokenIn(data) else None;
  }

  function WithToken(v: View, made: string): View {
    v.(token := Some(TokenText(made + "\n")))
  }

  // Storing a token on a script: it is in place; it is so without an error. One
  // call before the write stands for the random bytes.
  predicate TokenLands(script: seq<Outcome<Content>>, v: View) {
    First(script).status.Done? && Replacing(Rest(script), v.token.Some?)
  }

  predicate TokenStored(script: seq<Outcome<Content>>, v: View) {
    First(script).status.Done? && Completes(Rest(script), v.token.Some?)
  }

  // The last part of GenerateToken and RotateToken.
  method StoreToken(dir: Directory<Content>, made: string) returns (status: Status)
    requires dir.Valid()
    modifies dir`files, dir`script, dir`trace
    ensures dir.Valid() && old(dir.trace) <= dir.trace
    ensures AllDone(old(dir.script)) ==> status.Done? && AllDone(dir.script)
    ensures Shows(dir.trace, |old(dir.trace)| - 1, See(old(dir.files)), WithToken(See(old(dir.files)), made))
    ensures var script, was := old(dir.script), See(old(dir.files));
      && (status.Done? <==> TokenStored(script, was))
      && See(dir.files) == (if TokenLands(script, was) then WithToken(was, made) else was)
      && (status.Done? ==> See(dir.files) == WithToken(was, made))
  {
    hide First, Rest, See, Completes, Replacing;
    FilesAreApart();
    Present(dir.files);
    status := dir.Touch();       // random bytes
    if status.Done? {
      status := Replace(dir, TOKEN_FILE, TokenText(made + "\n"));
    }
  }

  // RotateToken: the token file changes from the old token to the new in one step,
  // and does so exactly when that step lands.
  method RotateToken(dir: Directory<Content>, made: string) returns (status: Status)
    requires dir.Valid() && Solid(made) && made != ""
    modifies dir`files, dir`script, dir`trace
    ensures dir.Valid() && old(dir.trace) <= dir.trace
    ensures Shows(dir.trace, |old(dir.trace)| - 1, See(old(dir.files)), WithToken(See(old(dir.files)), made))
    ensures TokenIn(WithToken(See(old(dir.files)), made).token) == Some(made)
    ensures var script, was := old(dir.script), See(old(dir.files));
      var lands := First(script).status.Done? && TokenLands(Rest(script), was);
      See(dir.files) == if lands then WithToken(was, made) else was
    ensures status.Done? ==> TokenIn(See(dir.files).token) == Some(made)
    ensures AllDone(old(dir.script)) ==> status.Done? && AllDone(dir.script)
  {
    hide First, Rest, See, TokenLands, TokenStored;
    TrimSpaceOfSolid(made);
    status := dir.Touch();       // mkdir
    if status.Done? {
      status := StoreToken(dir, made);
    }
  }

  // Reading the token file fails; that it is not there is no failure.
  predicate ReadFails(script: seq<Outcome<Content>>) {
    First(script).status.Done? && First(Rest(script)).status.Failed?
  }

  // A run of GenerateToken that gets no further than reading.
  predicate StopsReading(script: seq<Outcome<Content>>, v: View) {
    || !First(script).status.Done?
    || First(Rest(script)).status.Crashed?
    || (First(Rest(script)).status.Done? && TokenIn(v.token).Some?)
  }

  // GenerateToken: a token that can be read is kept, and returned. A read that
  // fails is taken for no token.
  method GenerateToken(dir: Directory<Content>, made: string) returns (status: Status, token: string)
    requires dir.Valid() && Solid(made) && made != ""
    modifies dir`files, dir`script, dir`trace
    ensures dir.Valid() && old(dir.trace) <= dir.trace
    ensures Shows(dir.trace, |old(dir.trace)| - 1, See(old(dir.files)), WithToken(See(old(dir.files)), made))
    ensures var script, was := old(dir.script), See(old(dir.files));
      && (StopsReading(script, was) ==> dir.files == old(dir.files) && dir.trace == old(dir.trace))
      && (!StopsReading(script, was) ==>
            See(dir.files) == if TokenLands(Rest(Rest(script)), was) then WithToken(was, made) else was)
      // A token in use is left alone however the run ends unless reading it fails;
      // and a run without error returns it exactly when reading it did not fail.
      && (TokenIn(was.token).Some? && !ReadFails(script) ==> dir.files == old(dir.files) && dir.trace == old(dir.trace))
      && (status.Done? && TokenIn(was.token).Some? ==>
            (token == TokenIn(was.token).value <==> !ReadFails(script) || TokenIn(was.token) == Some(made)))
    ensures status.Done? ==> TokenIn(See(dir.files).token) == Some(token)
    ensures AllDone(old(dir.script)) ==>
      status.Done? && token == (var had := TokenIn(See(old(dir.files)).token); if had.Some? then had.value else made)
    ensures AllDone(old(dir.script)) && TokenIn(See(old(dir.files)).token).Some? ==> dir.files == old(dir.files)
  {
    hide See, TokenLands, TokenStored, TokenIn;
    StoredTokenReads(made);
    NothingWritten(dir.trace, made);
    token := "";
    status := dir.Touch();       // mkdir
    if !status.Done? {
      return;
    }
    var existing;
    status, existing := LoadToken(dir);
    if status.Crashed? {
      return;
    }
    if existing.Some? {
      return Done, existing.value;
    }
    status := StoreToken(dir, made);
    token := made;
  }

  lemma StoredTokenReads(made: string)
    requires Solid(made) && made != ""
    ensures TokenIn(Some(TokenText(made + "\n"))) == Some(made)
  {
    TrimSpaceOfSolid(made);
  }

  lemma NothingWritten(trace: seq<Files<Content>>, made: string)
    requires trace != []
    ensures Shows(trace, |trace| - 1, See(trace[|trace| - 1]), WithToken(See(trace[|trace| - 1]), made))
  {
  }
}
