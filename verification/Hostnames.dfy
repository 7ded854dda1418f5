// Hostnames the machine serves, read from nginx, Apache and Caddy configuration.
module Hostnames {
  import opened Wrappers
  import opened Text
  import opened Numbers
  import opened Sorting

  const MAX_ENDPOINTS := 25

  // A name a scanner met, and which scanner.
  datatype Sighting = Sighting(host: string, source: string)

  // The lines of a configuration file, when it can be read.
  type File = Option<seq<string>>

  // The files of both nginx directories in turn, of both Apache directories in turn, and the Caddyfile.
  datatype Config = Config(nginx: seq<File>, apache: seq<File>, caddy: File)

  // ---- what the scanners read ----

  // Empty and catch-all tokens are passed over.
  predicate Kept(token: string) {
    token != "" && token != "_"
  }

  function Collect(tokens: seq<string>): seq<string> {
    if tokens == [] then []
    else
      var last := tokens[|tokens| - 1];
      Collect(tokens[..|tokens| - 1]) + if Kept(last) then [Lower(last)] else []
  }

  function DirectiveToken(field: string): string {
    Trim(TrimRight(field, ";"), "\"'")
  }

  function DirectiveTokens(fields: seq<string>): (tokens: seq<string>)
    ensures |tokens| == |fields|
  {
    seq(|fields|, i requires 0 <= i < |fields| => DirectiveToken(fields[i]))
  }

  // The names on one line of nginx or Apache configuration.
  function DirectiveNames(line: string, directive: string): seq<string> {
    var l := TrimSpace(line);
    var fields := Fields(l);
    if l == "" || HasPrefix(l, "#") || |fields| < 2 || Lower(fields[0]) != directive then []
    else Collect(DirectiveTokens(fields[1..]))
  }

  // What comes before the first character of a set: all of it if there is none.
  function Before(s: string, stops: string): (r: string)
    ensures |r| <= |s| && r == s[..|r|]
    ensures |r| < |s| ==> s[|r|] in stops
    ensures forall i :: 0 <= i < |r| ==> r[i] !in stops
  {
    if s == "" || s[0] in stops then "" else [s[0]] + Before(s[1..], stops)
  }

  function CaddyToken(part: string): string {
    Before(TrimPrefix(TrimPrefix(TrimSpace(part), "https://"), "http://"), "/:")
  }

  function CaddyTokens(parts: seq<string>): (tokens: seq<string>)
    ensures |tokens| == |parts|
  {
    seq(|parts|, i requires 0 <= i < |parts| => CaddyToken(parts[i]))
  }

  // The names on one line of a Caddyfile.
  function CaddyNames(line: string): seq<string> {
    var l := TrimSpace(line);
    if l == "" || HasPrefix(l, "#") || '{' !in l then []
    else Collect(CaddyTokens(Split(TrimSpace(Before(l, "{")), ',')))
  }

  function Sightings(names: seq<string>, source: string): (r: seq<Sighting>)
    ensures |r| == |names|
  {
    seq(|names|, i requires 0 <= i < |names| => Sighting(names[i], source))
  }

  function DirectiveSightings(lines: seq<string>, directive: string, source: string): seq<Sighting> {
    if lines == [] then []
    else
      DirectiveSightings(lines[..|lines| - 1], directive, source) +
      Sightings(DirectiveNames(lines[|lines| - 1], directive), source)
  }

  function CaddySightings(lines: seq<string>): seq<Sighting> {
    if lines == [] then []
    else CaddySightings(lines[..|lines| - 1]) + Sightings(CaddyNames(lines[|lines| - 1]), "caddy")
  }

  function LinesOf(file: File): seq<string> {
    if file.Some? then file.value else []
  }

  function NginxSightings(files: seq<File>): seq<Sighting> {
    if files == [] then []
    else
      NginxSightings(files[..|files| - 1]) +
      DirectiveSightings(LinesOf(files[|files| - 1]), "server_name", "nginx")
  }

  function ApacheSightings(files: seq<File>): seq<Sighting> {
    if files == [] then []
    else
      ApacheSightings(files[..|files| - 1]) +
      DirectiveSightings(LinesOf(files[|files| - 1]), "servername", "apache") +
      DirectiveSightings(LinesOf(files[|files| - 1]), "serveralias", "apache")
  }

  // Every sighting, in the order the files are scanned.
  function Scanned(config: Config): seq<Sighting> {
    NginxSightings(config.nginx) + ApacheSightings(config.apache) + CaddySightings(LinesOf(config.caddy))
  }

  // ---- the two maps ----

  function Hosts(log: seq<Sighting>): set<string> {
    if log == [] then {} else Hosts(log[..|log| - 1]) + {log[|log| - 1].host}
  }

  function Sources(log: seq<Sighting>): map<string, string> {
    if log == [] then map[] else Sources(log[..|log| - 1])[log[|log| - 1].host := log[|log| - 1].source]
  }

  lemma DirectiveStep(lines: seq<string>, i: nat, directive: string, source: string)
    requires i < |lines|
    ensures DirectiveSightings(lines[..i + 1], directive, source) ==
      DirectiveSightings(lines[..i], directive, source) + Sightings(DirectiveNames(lines[i], directive), source)
  {
    assert lines[..i + 1][..i] == lines[..i];
  }

  lemma CaddyStep(lines: seq<string>, i: nat)
    requires i < |lines|
    ensures CaddySightings(lines[..i + 1]) == CaddySightings(lines[..i]) + Sightings(CaddyNames(lines[i]), "caddy")
  {
    assert lines[..i + 1][..i] == lines[..i];
  }

  class Found {
    var hosts: set<string>
    var sources: map<string, string>
    ghost var log: seq<Sighting>

    constructor ()
      ensures Valid() && log == []
    {
      hosts, sources, log := {}, map[], [];
    }

    ghost predicate Valid()
      reads this
    {
      hosts == Hosts(log) && sources == Sources(log)
    }

    method Add(host: string, source: string)
      requires Valid()
      modifies this
      ensures Valid() && log == old(log) + [Sighting(host, source)]
    {
      hosts := hosts + {host};
      sources := sources[host := source];
      log := log + [Sighting(host, source)];
      assert log[..|log| - 1] == old(log);
    }

    // The innermost loop of both scanners.
    method AddAll(tokens: seq<string>, source: string)
      requires Valid()
      modifies this
      ensures Valid() && log == old(log) + Sightings(Collect(tokens), source)
    {
      hide Valid, Lower;
      for i := 0 to |tokens|
        invariant Valid() && log == old(log) + Sightings(Collect(tokens[..i]), source)
      {
        assert tokens[..i + 1][..i] == tokens[..i];
        if tokens[i] == "" || tokens[i] == "_" {
          continue;
        }
        Add(Lower(tokens[i]), source);
      }
      assert tokens[..|tokens|] == tokens;
    }

    // scanDirective, and the body of its loop.
    method ScanDirective(file: File, directive: string, source: string)
      requires Valid()
      modifies this
      ensures Valid() && log == old(log) + DirectiveSightings(LinesOf(file), directive, source)
    {
      hide Valid, DirectiveNames, Sightings;
      if file.None? {
        return;
      }
      var lines := file.value;
      for i := 0 to |lines|
        invariant Valid() && log == old(log) + DirectiveSightings(lines[..i], directive, source)
      {
        DirectiveStep(lines, i, directive, source);
        ScanDirectiveLine(lines[i], directive, source);
      }
      assert lines[..|lines|] == lines;
    }

    method ScanDirectiveLine(text: string, directive: string, source: string)
      requires Valid()
      modifies this
      ensures Valid() && log == old(log) + Sightings(DirectiveNames(text, directive), source)
    {
      hide Valid, Collect, DirectiveTokens, TrimSpace, Fields, Lower, HasPrefix;
      var line := TrimSpace(text);
      if line == "" || HasPrefix(line, "#") {
        return;
      }
      var fields := Fields(line);
      if |fields| < 2 || Lower(fields[0]) != directive {
        return;
      }
      AddAll(DirectiveTokens(fields[1..]), source);
    }

    // scanCaddyfile, and the body of its loop.
    method ScanCaddyfile(file: File)
      requires Valid()
      modifies this
      ensures Valid() && log == old(log) + CaddySightings(LinesOf(file))
    {
      hide Valid, CaddyNames, Sightings;
      if file.None? {
        return;
      }
      var lines := file.value;
      for i := 0 to |lines|
        invariant Valid() && log == old(log) + CaddySightings(lines[..i])
      {
        CaddyStep(lines, i);
        ScanCaddyLine(lines[i]);
      }
      assert lines[..|lines|] == lines;
    }

    method ScanCaddyLine(text: string)
      requires Valid()
      modifies this
      ensures Valid() && log == old(log) + Sightings(CaddyNames(text), "caddy")
    {
      hide Valid, Collect, CaddyTokens, TrimSpace, Before, Split, HasPrefix;
      var line := TrimSpace(text);
      if line == "" || HasPrefix(line, "#") || '{' !in line {
        return;
      }
      AddAll(CaddyTokens(Split(TrimSpace(Before(line, "{")), ',')), "caddy");
    }
  }

  // The source kept for a host is that of the scanner that met it last.
  lemma {:induction false} LastSightingWins(log: seq<Sighting>, host: string)
    ensures host in Sources(log) <==> host in Hosts(log)
    ensures host in Hosts(log) <==> exists i :: 0 <= i < |log| && log[i].host == host
    ensures host in Hosts(log) ==>
      exists i :: 0 <= i < |log| && log[i] == Sighting(host, Sources(log)[host]) && NotAfter(log, i, host)
  {
    if log != [] {
      var init, last := log[..|log| - 1], log[|log| - 1];
      LastSightingWins(init, host);
      if last.host == host {
        assert log[|log| - 1] == Sighting(host, Sources(log)[host]) && NotAfter(log, |log| - 1, host);
      } else if host in Hosts(init) {
        var i :| 0 <= i < |init| && init[i] == Sighting(host, Sources(init)[host]) && NotAfter(init, i, host);
        assert log[i] == init[i] && NotAfter(log, i, host);
      }
    }
  }

  predicate NotAfter(log: seq<Sighting>, i: nat, host: string) {
    forall j :: i < j < |log| ==> log[j].host != host
  }

  // Some line of some file names the host in the directive, or before a brace.
  predicate Directs(file: File, directive: string, host: string) {
    file.Some? && exists j :: 0 <= j < |file.value| && host in DirectiveNames(file.value[j], directive)
  }

  predicate SomeDirects(files: seq<File>, directive: string, host: string) {
    exists i :: 0 <= i < |files| && Directs(files[i], directive, host)
  }

  predicate OpensSite(file: File, host: string) {
    file.Some? && exists j :: 0 <= j < |file.value| && host in CaddyNames(file.value[j])
  }

  lemma {:induction false} SourcesJoin(a: seq<Sighting>, b: seq<Sighting>, host: string)
    ensures Hosts(a + b) == Hosts(a) + Hosts(b)
    ensures host in Hosts(b) ==>
      host in Sources(b) && host in Sources(a + b) && Sources(a + b)[host] == Sources(b)[host]
    ensures host in Hosts(a) && host !in Hosts(b) ==>
      host in Sources(a) && host in Sources(a + b) && Sources(a + b)[host] == Sources(a)[host]
  {
    if b == [] {
      assert a + b == a;
      LastSightingWins(a, host);
    } else {
      var front := b[..|b| - 1];
      SourcesJoin(a, front, host);
      assert (a + b)[..|a + b| - 1] == a + front;
    }
  }

  // The hosts of log are those for which found holds, all of one source.
  ghost predicate AllFrom(log: seq<Sighting>, source: string, host: string, found: bool) {
    (host in Hosts(log) <==> found) && (found ==> host in Sources(log) && Sources(log)[host] == source)
  }

  lemma AllFromJoin(a: seq<Sighting>, b: seq<Sighting>, source: string, host: string, p: bool, q: bool)
    requires AllFrom(a, source, host, p) && AllFrom(b, source, host, q)
    ensures AllFrom(a + b, source, host, p || q)
  {
    hide Hosts, Sources;
    SourcesJoin(a, b, host);
  }

  lemma {:induction false} NamesFrom(names: seq<string>, source: string, host: string)
    ensures AllFrom(Sightings(names, source), source, host, host in names)
  {
    if names != [] {
      var front := names[..|names| - 1];
      NamesFrom(front, source, host);
      assert Sightings(names, source)[..|names| - 1] == Sightings(front, source);
      assert names == front + [names[|names| - 1]];
    }
  }

  lemma {:induction false} DirectiveFrom(lines: seq<string>, directive: string, source: string, host: string)
    ensures AllFrom(DirectiveSightings(lines, directive, source), source, host, Directs(Some(lines), directive, host))
  {
    hide DirectiveNames, Sightings;
    if lines != [] {
      var front, last := lines[..|lines| - 1], lines[|lines| - 1];
      DirectiveFrom(front, directive, source, host);
      NamesFrom(DirectiveNames(last, directive), source, host);
      AllFromJoin(DirectiveSightings(front, directive, source), Sightings(DirectiveNames(last, directive), source),
                  source, host, Directs(Some(front), directive, host), host in DirectiveNames(last, directive));
      assert forall j :: 0 <= j < |front| ==> lines[j] == front[j];
    }
  }

  lemma {:induction false} CaddyFrom(lines: seq<string>, host: string)
    ensures AllFrom(CaddySightings(lines), "caddy", host, OpensSite(Some(lines), host))
  {
    hide CaddyNames, Sightings;
    if lines != [] {
      var front, last := lines[..|lines| - 1], lines[|lines| - 1];
      CaddyFrom(front, host);
      NamesFrom(CaddyNames(last), "caddy", host);
      AllFromJoin(CaddySightings(front), Sightings(CaddyNames(last), "caddy"), "caddy", host,
                  OpensSite(Some(front), host), host in CaddyNames(last));
      assert forall j :: 0 <= j < |front| ==> lines[j] == front[j];
    }
  }

  lemma FileFrom(file: File, directive: string, source: string, host: string)
    ensures AllFrom(DirectiveSightings(LinesOf(file), directive, source), source, host, Directs(file, directive, host))
  {
    if file.Some? {
      DirectiveFrom(file.value, directive, source, host);
    }
  }

  lemma SomeDirectsSnoc(files: seq<File>, directive: string, host: string)
    requires files != []
    ensures SomeDirects(files, directive, host) <==>
      SomeDirects(files[..|files| - 1], directive, host) || Directs(files[|files| - 1], directive, host)
  {
    hide Directs;
    assert forall j :: 0 <= j < |files| - 1 ==> files[j] == files[..|files| - 1][j];
  }

  lemma {:induction false} NginxFrom(files: seq<File>, host: string)
    ensures AllFrom(NginxSightings(files), "nginx", host, SomeDirects(files, "server_name", host))
  {
    if files != [] {
      hide AllFrom, DirectiveSightings, SomeDirects, Directs;
      var front, last := files[..|files| - 1], files[|files| - 1];
      NginxFrom(front, host);
      FileFrom(last, "server_name", "nginx", host);
      AllFromJoin(NginxSightings(front), DirectiveSightings(LinesOf(last), "server_name", "nginx"), "nginx", host,
                  SomeDirects(front, "server_name", host), Directs(last, "server_name", host));
      SomeDirectsSnoc(files, "server_name", host);
    }
  }

  predicate ApacheNames(files: seq<File>, host: string) {
    SomeDirects(files, "servername", host) || SomeDirects(files, "serveralias", host)
  }

  lemma {:induction false} ApacheFrom(files: seq<File>, host: string)
    ensures AllFrom(ApacheSightings(files), "apache", host, ApacheNames(files, host))
  {
    if files != [] {
      hide AllFrom, DirectiveSightings, SomeDirects, Directs;
      var front, last := files[..|files| - 1], files[|files| - 1];
      var name := DirectiveSightings(LinesOf(last), "servername", "apache");
      var alias := DirectiveSightings(LinesOf(last), "serveralias", "apache");
      ApacheFrom(front, host);
      FileFrom(last, "servername", "apache", host);
      FileFrom(last, "serveralias", "apache", host);
      AllFromJoin(ApacheSightings(front), name, "apache", host,
                  ApacheNames(front, host), Directs(last, "servername", host));
      AllFromJoin(ApacheSightings(front) + name, alias, "apache", host,
                  ApacheNames(front, host) || Directs(last, "servername", host), Directs(last, "serveralias", host));
      SomeDirectsSnoc(files, "servername", host);
      SomeDirectsSnoc(files, "serveralias", host);
    }
  }

  // A host is found exactly when a line of some nginx file names it in server_name,
  // or one of some Apache file in ServerName or ServerAlias, or it opens a site of
  // the Caddyfile; and its source is the last of the three for which that is so.
  lemma SourceExactly(config: Config, host: string)
    ensures var nginx := SomeDirects(config.nginx, "server_name", host);
      var apache := SomeDirects(config.apache, "servername", host) || SomeDirects(config.apache, "serveralias", host);
      var caddy := OpensSite(config.caddy, host);
      && (host in Hosts(Scanned(config)) <==> nginx || apache || caddy)
      && (host in Sources(Scanned(config)) <==> nginx || apache || caddy)
      && (nginx || apache || caddy ==>
            Sources(Scanned(config))[host] == if caddy then "caddy" else if apache then "apache" else "nginx")
  {
    var n, a, c := NginxSightings(config.nginx), ApacheSightings(config.apache), CaddySightings(LinesOf(config.caddy));
    NginxFrom(config.nginx, host);
    ApacheFrom(config.apache, host);
    if config.caddy.Some? {
      CaddyFrom(config.caddy.value, host);
    }
    SourcesJoin(n, a, host);
    SourcesJoin(n + a, c, host);
    LastSightingWins(n + a + c, host);
    hide SomeDirects, NginxSightings, ApacheSightings;
  }

  // ---- names worth showing ----

  predicate LabelChar(c: char) {
    'a' <= c <= 'z' || '0' <= c <= '9' || c == '-'
  }

  predicate ValidHost(h: string) {
    && !(h == "" || h == "_" || HasPrefix(h, "*") || h == "localhost" || HasPrefix(h, "localhost."))
    && '.' in h
    && var labels := Split(h, '.');
      forall i :: 0 <= i < |labels| ==>
        && !(labels[i] == "" || HasPrefix(labels[i], "-") || HasSuffix(labels[i], "-"))
        && forall j :: 0 <= j < |labels[i]| ==> LabelChar(labels[i][j])
  }

  // A lower-case label of section 2.1 of RFC 1123, whatever its length.
  predicate Label(l: string) {
    && l != ""
    && (forall j :: 0 <= j < |l| ==> 'a' <= l[j] <= 'z' || '0' <= l[j] <= '9' || l[j] == '-')
    && l[0] != '-' && l[|l| - 1] != '-'
  }

  predicate Labels(labels: seq<string>) {
    |labels| >= 2 && labels[0] != "localhost" && forall i :: 0 <= i < |labels| ==> Label(labels[i])
  }

  lemma LabelExactly(l: string)
    ensures Label(l) <==>
      && !(l == "" || HasPrefix(l, "-") || HasSuffix(l, "-"))
      && forall j :: 0 <= j < |l| ==> LabelChar(l[j])
  {
    if l != "" {
      assert l[..1] == [l[0]] && l[|l| - 1..] == [l[|l| - 1]];
    }
  }

  // Two or more labels with dots between them, the first not "localhost".
  lemma ValidHostExactly(h: string)
    ensures ValidHost(h) <==> exists labels :: Labels(labels) && h == Join(labels, '.')
  {
    JoinSplit(h, '.');
    if ValidHost(h) {
      var labels := Split(h, '.');
      forall i | 0 <= i < |labels| ensures Label(labels[i]) {
        LabelExactly(labels[i]);
      }
      LocalhostFirst(labels);
      assert Labels(labels) && h == Join(labels, '.');
    }
    forall labels | Labels(labels) && h == Join(labels, '.') ensures ValidHost(h) {
      ValidWhenLabels(labels);
    }
  }

  lemma LocalhostFirst(labels: seq<string>)
    requires |labels| >= 2
    ensures labels[0] == "localhost" ==> HasPrefix(Join(labels, '.'), "localhost.")
  {
    var h := Join(labels, '.');
    if labels[0] == "localhost" {
      assert h[..10] == "localhost" + ['.'];
    }
  }

  lemma ValidWhenLabels(labels: seq<string>)
    requires Labels(labels)
    ensures ValidHost(Join(labels, '.'))
  {
    hide LabelChar, Split, HasPrefix, HasSuffix, Join;
    var h := Join(labels, '.');
    forall i | 0 <= i < |labels|
      ensures '.' !in labels[i]
      ensures !(labels[i] == "" || HasPrefix(labels[i], "-") || HasSuffix(labels[i], "-"))
      ensures forall j :: 0 <= j < |labels[i]| ==> LabelChar(labels[i][j])
    {
      assert Label(labels[i]);
      LabelExactly(labels[i]);
      LabelHasNoDot(labels[i]);
    }
    SplitJoin(labels, '.');
    JoinSplit(h, '.');
    StartsWithLabel(labels);
    NotLocalhost(labels);
  }

  lemma LabelHasNoDot(l: string)
    requires Label(l)
    ensures '.' !in l
  {
  }

  lemma StartsWithLabel(labels: seq<string>)
    requires Labels(labels)
    ensures var h := Join(labels, '.');
      '.' in h && h != "" && !HasPrefix(h, "*")
  {
    var h, first := Join(labels, '.'), labels[0];
    assert Label(first);
    assert h[0] == first[0] && h[|first|] == '.';
    hide Join, Label;
    assert LabelChar(h[0]);
  }

  lemma NotLocalhost(labels: seq<string>)
    requires |labels| >= 2 && labels[0] != "localhost" && '.' !in labels[0]
    ensures !HasPrefix(Join(labels, '.'), "localhost.")
  {
    var h := Join(labels, '.');
    BeforeDot(labels[0], Join(labels[1..], '.'));
    assert h == labels[0] + "." + Join(labels[1..], '.');
    if HasPrefix(h, "localhost.") {
      BeforeLocalhost(h);
    }
  }

  lemma BeforeLocalhost(h: string)
    requires HasPrefix(h, "localhost.")
    ensures Before(h, ".") == "localhost"
  {
    BeforeDot("localhost", h[10..]);
    assert h == h[..10] + h[10..];
    assert h[..10] == "localhost" + ".";
  }

  lemma BeforeDot(s: string, rest: string)
    requires '.' !in s
    ensures Before(s + "." + rest, ".") == s
  {
    BeforeStop(s, "." + rest, ".");
    assert s + "." + rest == s + ("." + rest);
  }

  lemma {:induction false} BeforeStop(s: string, rest: string, stops: string)
    requires forall i :: 0 <= i < |s| ==> s[i] !in stops
    requires rest == "" || rest[0] in stops
    ensures Before(s + rest, stops) == s
  {
    if s == "" {
      assert s + rest == rest;
    } else {
      BeforeStop(s[1..], rest, stops);
      assert (s + rest)[1..] == s[1..] + rest;
    }
  }

  // ---- the selection ----

  function Self(h: string): string { h }

  ghost predicate AllAccepted(hosts: set<string>, all: seq<string>) {
    && Ascending(all, Self)
    && forall h :: h in all <==> h in hosts && ValidHost(h)
  }

  // The accepted names in order, the first 25 of them.
  ghost predicate IsSelection(hosts: set<string>, out: seq<string>) {
    exists all :: AllAccepted(hosts, all) && out == all[..Min(|all|, MAX_ENDPOINTS)]
  }

  lemma NginxStep(files: seq<File>, i: nat)
    requires i < |files|
    ensures NginxSightings(files[..i + 1]) ==
      NginxSightings(files[..i]) + DirectiveSightings(LinesOf(files[i]), "server_name", "nginx")
  {
    assert files[..i + 1][..i] == files[..i];
  }

  lemma ApacheStep(files: seq<File>, i: nat)
    requires i < |files|
    ensures ApacheSightings(files[..i + 1]) ==
      ApacheSightings(files[..i]) +
      DirectiveSightings(LinesOf(files[i]), "servername", "apache") +
      DirectiveSightings(LinesOf(files[i]), "serveralias", "apache")
  {
    assert files[..i + 1][..i] == files[..i];
  }

  // discoverHostnames
  method DiscoverHostnames(config: Config) returns (out: seq<string>, sources: map<string, string>)
    ensures IsSelection(Hosts(Scanned(config)), out)
    ensures sources == Sources(Scanned(config))
  {
    var found := new Found();
    ScanAll(config, found);
    out := Select(found.hosts);
    sources := found.sources;
  }

  // Its first part: all three scanners, one file after the other.
  method ScanAll(config: Config, found: Found)
    requires found.Valid() && found.log == []
    modifies found
    ensures found.Valid() && found.log == Scanned(config)
  {
    hide Found.Valid, DirectiveSightings, CaddySightings, NginxSightings, ApacheSightings, Hosts, Sources;
    var nginx, apache := config.nginx, config.apache;
    NoSightings();
    for i := 0 to |nginx|
      invariant found.Valid() && found.log == NginxSightings(nginx[..i])
    {
      NginxStep(nginx, i);
      found.ScanDirective(nginx[i], "server_name", "nginx");
    }
    assert nginx[..|nginx|] == nginx;
    for i := 0 to |apache|
      invariant found.Valid() && found.log == NginxSightings(nginx) + ApacheSightings(apache[..i])
    {
      ApacheStep(apache, i);
      found.ScanDirective(apache[i], "servername", "apache");
      found.ScanDirective(apache[i], "serveralias", "apache");
    }
    assert apache[..|apache|] == apache;
    found.ScanCaddyfile(config.caddy);
  }

  lemma NoSightings()
    ensures NginxSightings([]) == [] && ApacheSightings([]) == []
  {
  }

  // Its last part, over the map of names in any order.
  method Select(hosts: set<string>) returns (out: seq<string>)
    ensures IsSelection(hosts, out)
  {
    out := [];
    var rest := hosts;
    while rest != {}
      invariant rest <= hosts
      invariant DistinctKeys(out, Self)
      invariant forall h :: h in out <==> h in hosts - rest && ValidHost(h)
      decreases rest
    {
      var h :| h in rest;
      if ValidHost(h) {
        out := out + [h];
      }
      rest := rest - {h};
    }
    var unsorted := out;
    out := Sort(unsorted, Self);
    assert forall h :: h in out <==> h in multiset(out);
    assert forall h :: h in unsorted <==> h in multiset(unsorted);
    ghost var all := out;
    assert AllAccepted(hosts, all);
    if |out| > MAX_ENDPOINTS {
      out := out[..MAX_ENDPOINTS];
    }
    assert out == all[..Min(|all|, MAX_ENDPOINTS)];
  }

  // There is one such selection, however the map was iterated.
  lemma SelectionUnique(hosts: set<string>, a: seq<string>, b: seq<string>)
    ensures IsSelection(hosts, a) && IsSelection(hosts, b) ==> a == b
  {
    if !IsSelection(hosts, a) || !IsSelection(hosts, b) {
      return;
    }
    hide ValidHost;
    var all :| AllAccepted(hosts, all) && a == all[..Min(|all|, MAX_ENDPOINTS)];
    var every :| AllAccepted(hosts, every) && b == every[..Min(|every|, MAX_ENDPOINTS)];
    AscendingUnique(all, every, Self);
  }

  lemma TakenIsIn<T>(all: seq<T>, n: nat, k: nat)
    requires n <= |all| && k < |all|
    ensures k < n ==> all[k] in all[..n]
  {
    if k < n {
      assert all[..n][k] == all[k];
    }
  }

  // It holds only accepted names, strictly in order, at most 25; and an accepted
  // name is left out only when there are 25 smaller ones.
  lemma SelectionIsSmallest(hosts: set<string>, out: seq<string>, host: string)
    requires IsSelection(hosts, out)
    ensures |out| <= 25 && forall i, j :: 0 <= i < j < |out| ==> Less(out[i], out[j])
    ensures forall h :: h in out ==> h in hosts && ValidHost(h)
    ensures host in hosts && ValidHost(host) && host !in out ==>
      |out| == 25 && forall i :: 0 <= i < |out| ==> Less(out[i], host)
  {
    var all :| AllAccepted(hosts, all) && out == all[..Min(|all|, MAX_ENDPOINTS)];
    forall i, j | 0 <= i < j < |out| ensures Less(out[i], out[j]) {
      assert Less(Self(all[i]), Self(all[j]));
    }
    if host in hosts && ValidHost(host) && host !in out {
      var k :| 0 <= k < |all| && all[k] == host;
      TakenIsIn(all, |out|, k);
      forall i | 0 <= i < |out| ensures Less(out[i], host) {
        assert Less(Self(all[i]), Self(all[k]));
      }
    }
  }

  // ---- what is written is what is read ----

  predicate Spaces(s: string) {
    forall i :: 0 <= i < |s| ==> IsSpace(s[i])
  }

  predicate AllIn(s: string, cutset: string) {
    forall i :: 0 <= i < |s| ==> s[i] in cutset
  }

  lemma NameChars(h: string)
    requires ValidHost(h)
    ensures h != "" && '.' in h
    ensures forall i :: 0 <= i < |h| ==> LabelChar(h[i]) || h[i] == '.'
  {
    hide LabelChar;
    forall i | 0 <= i < |h| ensures LabelChar(h[i]) || h[i] == '.' {
      if h[i] != '.' {
        CharOfSplit(h, '.', i);
      }
    }
  }

  lemma ValidIsKept(h: string)
    requires ValidHost(h)
    ensures Kept(h) && Lower(h) == h
  {
    NameChars(h);
    hide ValidHost;
  }

  // Names worth showing are collected as they are.
  lemma {:induction false} CollectsAll(names: seq<string>)
    requires forall i :: 0 <= i < |names| ==> ValidHost(names[i])
    ensures Collect(names) == names
  {
    hide ValidHost, Lower, Kept;
    if names != [] {
      CollectsAll(names[..|names| - 1]);
      ValidIsKept(names[|names| - 1]);
    }
  }

  // Where the white space around a string is.
  lemma {:induction false} DroppedSpaces(s: string) returns (lead: string)
    ensures Spaces(lead) && s == lead + DropSpace(s)
  {
    lead := "";
    if s != "" && IsSpace(s[0]) {
      var rest := DroppedSpaces(s[1..]);
      lead := [s[0]] + rest;
      assert s == [s[0]] + s[1..];
    }
  }

  lemma {:induction false} ChoppedSpaces(s: string) returns (gap: string)
    ensures Spaces(gap) && s == ChopSpace(s) + gap
  {
    gap := "";
    if s != "" && IsSpace(s[|s| - 1]) {
      var rest := ChoppedSpaces(s[..|s| - 1]);
      gap := rest + [s[|s| - 1]];
      assert s == s[..|s| - 1] + [s[|s| - 1]];
    }
  }

  // ---- nginx and Apache ----

  // An argument as a line writes it: white space, then a name that may be in
  // quotes and may be followed by semicolons. TakenApart shows that any word is one.
  datatype Argument = Argument(gap: string, open: string, name: string, close: string, end: string)

  function Written(arg: Argument): string {
    arg.open + arg.name + arg.close + arg.end
  }

  predicate WellWritten(arg: Argument) {
    && arg.gap != "" && Spaces(arg.gap)
    && AllIn(arg.open, "\"'") && AllIn(arg.close, "\"'") && AllIn(arg.end, ";")
    && (forall i :: 0 <= i < |arg.name| ==> !IsSpace(arg.name[i]))
    && (arg.name != "" ==>
          && arg.name[0] !in "\"'" && arg.name[|arg.name| - 1] !in "\"'"
          && (arg.close == "" ==> arg.name[|arg.name| - 1] != ';'))
    && Written(arg) != ""
  }

  function Arguments(args: seq<Argument>): string {
    if args == [] then "" else args[0].gap + Written(args[0]) + Arguments(args[1..])
  }

  function ArgumentNames(args: seq<Argument>): (names: seq<string>)
    ensures |names| == |args|
  {
    seq(|args|, i requires 0 <= i < |args| => args[i].name)
  }

  lemma {:induction false} TrimRightCuts(s: string, end: string, cutset: string)
    requires AllIn(end, cutset) && (s != "" ==> s[|s| - 1] !in cutset)
    ensures TrimRight(s + end, cutset) == s
  {
    if end == "" {
      assert s + end == s;
    } else {
      var shorter := end[..|end| - 1];
      TrimRightCuts(s, shorter, cutset);
      assert (s + end)[..|s + end| - 1] == s + shorter;
    }
  }

  lemma {:induction false} TrimCuts(open: string, s: string, close: string, cutset: string)
    requires AllIn(open, cutset) && AllIn(close, cutset)
    requires s != "" ==> s[0] !in cutset && s[|s| - 1] !in cutset
    ensures Trim(open + s + close, cutset) == s
    decreases |open|, |close|
  {
    if open != "" {
      TrimCuts(open[1..], s, close, cutset);
      assert (open + s + close)[1..] == open[1..] + s + close;
    } else {
      assert open + s + close == s + close;
      TrimRightCuts(s, close, cutset);
      if s == "" && close != "" {
        TrimCuts("", s, close[1..], cutset);
        assert (s + close)[1..] == "" + s + close[1..];
      }
    }
  }

  lemma TokenOfArgument(arg: Argument)
    requires WellWritten(arg)
    ensures DirectiveToken(Written(arg)) == arg.name
  {
    hide Spaces, Trim, TrimRight, IsSpace;
    var quoted := arg.open + arg.name + arg.close;
    EndsWithout(arg.open, arg.name, arg.close);
    TrimRightCuts(quoted, arg.end, ";");
    TrimCuts(arg.open, arg.name, arg.close, "\"'");
  }

  lemma EndsWithout(open: string, name: string, close: string)
    requires AllIn(open, "\"'") && AllIn(close, "\"'")
    requires name != "" && close == "" ==> name[|name| - 1] != ';'
    ensures var s := open + name + close; s != "" ==> s[|s| - 1] !in ";"
  {
  }

  lemma ArgumentIsSolid(arg: Argument)
    requires WellWritten(arg)
    ensures Solid(Written(arg))
  {
    hide Spaces, Solid, IsSpace;
    QuotesAreNoSpace();
    var s := Written(arg);
    forall i | 0 <= i < |s| ensures !IsSpace(s[i]) {
      assert s[i] in "\"'" || s[i] in ";" || exists j :: 0 <= j < |arg.name| && s[i] == arg.name[j] by {
        WrittenAt(arg, i);
      }
    }
    SolidWhen(s);
  }

  lemma QuotesAreNoSpace()
    ensures forall c :: c in "\"'" || c in ";" ==> !IsSpace(c)
  {
  }

  lemma WrittenAt(arg: Argument, i: nat)
    requires AllIn(arg.open, "\"'") && AllIn(arg.close, "\"'") && AllIn(arg.end, ";") && i < |Written(arg)|
    ensures var s := Written(arg);
      s[i] in "\"'" || s[i] in ";" || exists j :: 0 <= j < |arg.name| && s[i] == arg.name[j]
  {
    var j := i - |arg.open|;
    if 0 <= j < |arg.name| {
      assert Written(arg)[i] == arg.name[j];
    }
  }

  // Where the run of characters of a set at the end of a word starts, and at its
  // front ends.
  lemma {:induction false} EndRun(word: string, cutset: string) returns (at: nat)
    ensures at <= |word| && AllIn(word[at..], cutset) && (at > 0 ==> word[at - 1] !in cutset)
  {
    at := |word|;
    if word != "" && word[|word| - 1] in cutset {
      var shorter := word[..|word| - 1];
      at := EndRun(shorter, cutset);
      assert word[at..] == shorter[at..] + [word[|word| - 1]];
    }
  }

  lemma {:induction false} FrontRun(word: string, cutset: string) returns (at: nat)
    ensures at <= |word| && AllIn(word[..at], cutset) && (at < |word| ==> word[at] !in cutset)
  {
    at := 0;
    if word != "" && word[0] in cutset {
      var rest := FrontRun(word[1..], cutset);
      at := rest + 1;
      assert word[..at] == [word[0]] + word[1..][..rest];
    }
  }

  lemma TakenApart(gap: string, word: string) returns (arg: Argument)
    requires gap != "" && Spaces(gap) && word != "" && forall i :: 0 <= i < |word| ==> !IsSpace(word[i])
    ensures WellWritten(arg) && arg.gap == gap && Written(arg) == word
  {
    hide IsSpace, Spaces, AllIn;
    var end := EndRun(word, ";");
    var close := EndRun(word[..end], "\"'");
    var open := FrontRun(word[..close], "\"'");
    arg := Argument(gap, word[..open], word[open..close], word[close..end], word[end..]);
    assert word[..end][close..] == word[close..end] && word[..close][..open] == word[..open];
    assert Written(arg) == word;
  }

  lemma DirectiveTokensCons(field: string, fields: seq<string>)
    ensures DirectiveTokens([field] + fields) == [DirectiveToken(field)] + DirectiveTokens(fields)
    ensures DirectiveTokens([]) == []
  {
    hide DirectiveToken;
  }

  lemma {:induction false} FieldsAfter(gap: string, s: string)
    requires Spaces(gap)
    ensures Fields(gap + s) == Fields(s)
  {
    if gap == "" {
      assert gap + s == s;
    } else {
      FieldsAfter(gap[1..], s);
      assert (gap + s)[1..] == gap[1..] + s;
    }
  }

  lemma {:induction false} FieldsOfArguments(args: seq<Argument>)
    requires forall i :: 0 <= i < |args| ==> WellWritten(args[i])
    ensures DirectiveTokens(Fields(Arguments(args))) == ArgumentNames(args)
    ensures |Fields(Arguments(args))| == |args|
    ensures args != [] ==> Arguments(args) != "" && IsSpace(Arguments(args)[0])
  {
    hide WellWritten, DirectiveToken, DirectiveTokens, Fields, ArgumentNames, IsSpace, Solid;
    if args == [] {
      NoFields();
    } else {
      var rest := Arguments(args[1..]);
      var w := Written(args[0]);
      FieldsOfArguments(args[1..]);
      ArgumentIsSolid(args[0]);
      TokenOfArgument(args[0]);
      GapOf(args[0]);
      FieldsAfter(args[0].gap, w + rest);
      assert args[0].gap + w + rest == args[0].gap + (w + rest);
      FieldsOfWord(w, rest);
      DirectiveTokensCons(w, Fields(rest));
      ArgumentNamesCons(args);
    }
  }

  lemma GapOf(arg: Argument)
    requires WellWritten(arg)
    ensures arg.gap != "" && Spaces(arg.gap) && IsSpace(arg.gap[0]) && Written(arg) != ""
  {
  }

  lemma ArgumentNamesCons(args: seq<Argument>)
    requires args != []
    ensures ArgumentNames(args) == [args[0].name] + ArgumentNames(args[1..])
  {
  }

  lemma NoFields()
    ensures Fields("") == [] && DirectiveTokens([]) == [] && ArgumentNames([]) == []
  {
  }

  // A line of the directive, in whatever case it is written and however the line is
  // indented, spaced and quoted, gives the names of its arguments in order and in
  // lower case, without empty and catch-all ones, and no others. A line of another
  // directive gives none, nor does a comment or a keyword alone.
  lemma DirectiveReads(text: string, keyword: string, directive: string, args: seq<Argument>)
    requires keyword != "" && Solid(keyword) && forall i :: 0 <= i < |args| ==> WellWritten(args[i])
    requires TrimSpace(text) == keyword + Arguments(args)
    ensures DirectiveNames(text, directive) ==
      if keyword[0] != '#' && Lower(keyword) == directive then Collect(ArgumentNames(args)) else []
  {
    StartsWith(keyword, Arguments(args), '#');
    hide WellWritten, DirectiveToken, TrimSpace, ArgumentNames, Solid, IsSpace, Lower, Arguments, HasPrefix;
    var tail := Arguments(args);
    FieldsOfArguments(args);
    FieldsOfWord(keyword, tail);
    var fields := Fields(keyword + tail);
    assert fields[1..] == Fields(tail);
  }

  lemma StartsWith(a: string, rest: string, c: char)
    requires a != ""
    ensures HasPrefix(a + rest, [c]) <==> a[0] == c
  {
    assert (a + rest)[..1] == [a[0]];
  }

  // Blank lines and comments give no names, nor do lines of a Caddyfile without a
  // brace.
  lemma OtherLines(text: string, directive: string)
    ensures var line := TrimSpace(text);
      && (line == "" || line[0] == '#' ==> DirectiveNames(text, directive) == [] && CaddyNames(text) == [])
      && ('{' !in line ==> CaddyNames(text) == [])
  {
    var line := TrimSpace(text);
    if line != "" {
      StartsWith(line, "", '#');
      assert line + "" == line;
    }
  }

  // What is collected, token by token.
  lemma {:induction false} CollectExactly(a: seq<string>, b: seq<string>)
    ensures Collect(a + b) == Collect(a) + Collect(b)
    ensures Collect([]) == []
    ensures forall token :: Collect([token]) == if token == "" || token == "_" then [] else [Lower(token)]
  {
    hide Lower;
    assert forall token: string :: [token][..0] == [];
    if b == [] {
      assert a + b == a;
    } else {
      CollectExactly(a, b[..|b| - 1]);
      assert (a + b)[..|a + b| - 1] == a + b[..|b| - 1];
    }
  }

  lemma {:induction false} ArgumentsTakenApart(rest: string) returns (args: seq<Argument>)
    requires rest != "" ==> IsSpace(rest[0]) && !IsSpace(rest[|rest| - 1])
    ensures Arguments(args) == rest && forall i :: 0 <= i < |args| ==> WellWritten(args[i])
    decreases |rest|
  {
    hide IsSpace, Spaces, WellWritten, Written, DropSpace, Word;
    args := [];
    if rest != "" {
      var gap := DroppedSpaces(rest);
      var after := DropSpace(rest);
      DropSpaceOf(rest);
      NotOnlySpaces(rest, gap, after);
      var word := Word(after);
      var arg := TakenApart(gap, word);
      var more := ArgumentsTakenApart(after[|word|..]);
      args := [arg] + more;
      assert rest == gap + (word + after[|word|..]);
      assert gap + word + after[|word|..] == gap + (word + after[|word|..]);
    }
  }

  lemma NotOnlySpaces(rest: string, gap: string, after: string)
    requires rest == gap + after && Spaces(gap) && rest != "" && IsSpace(rest[0]) && !IsSpace(rest[|rest| - 1])
    requires after != "" ==> !IsSpace(after[0])
    ensures gap != "" && after != ""
  {
    hide IsSpace;
    assert after == "" ==> rest == gap;
  }

  // Every line that is not blank is a keyword and such arguments.
  lemma DirectiveTakenApart(text: string) returns (keyword: string, args: seq<Argument>)
    requires TrimSpace(text) != ""
    ensures keyword != "" && Solid(keyword) && forall i :: 0 <= i < |args| ==> WellWritten(args[i])
    ensures TrimSpace(text) == keyword + Arguments(args)
  {
    hide IsSpace, WellWritten, Arguments;
    var line := TrimSpace(text);
    TrimSpaceTight(text);
    keyword := Word(line);
    SolidWhen(keyword);
    args := ArgumentsTakenApart(line[|keyword|..]);
  }

  // ---- Caddy ----

  // An entry of a list of sites: white space around a scheme or none, a name, and
  // a port or path or nothing. PartTakenApart shows that any entry is one.
  datatype Site = Site(lead: string, scheme: string, name: string, tail: string, gap: string)

  function Address(site: Site): string {
    site.scheme + (site.name + site.tail)
  }

  function Part(site: Site): string {
    site.lead + Address(site) + site.gap
  }

  predicate Proper(site: Site) {
    && Spaces(site.lead) && Spaces(site.gap) && Tight(Address(site)) && ',' !in Part(site)
    && (forall i :: 0 <= i < |site.name| ==> site.name[i] !in "/:")
    && (site.tail != "" ==> site.tail[0] in "/:")
    && SchemeEnds(site.scheme, site.name + site.tail)
  }

  // The scheme is what is taken off: "https://" once, then "http://" once.
  predicate SchemeEnds(scheme: string, rest: string) {
    || (scheme == "" && !HasPrefix(rest, "https://") && !HasPrefix(rest, "http://"))
    || (scheme == "https://" && !HasPrefix(rest, "http://"))
    || scheme == "http://"
    || scheme == "https://" + "http://"
  }

  function Parts(sites: seq<Site>): (parts: seq<string>)
    ensures |parts| == |sites|
  {
    seq(|sites|, i requires 0 <= i < |sites| => Part(sites[i]))
  }

  function NamesOf(sites: seq<Site>): (names: seq<string>)
    ensures |names| == |sites|
  {
    seq(|sites|, i requires 0 <= i < |sites| => sites[i].name)
  }

  lemma PrefixAt(s: string, prefix: string, i: nat)
    requires HasPrefix(s, prefix) && i < |prefix|
    ensures s[i] == prefix[i]
  {
    assert s[i] == s[..|prefix|][i];
  }

  lemma PrefixOff(prefix: string, rest: string)
    ensures TrimPrefix(prefix + rest, prefix) == rest
  {
    assert (prefix + rest)[..|prefix|] == prefix && (prefix + rest)[|prefix|..] == rest;
  }

  lemma WithoutScheme(scheme: string, rest: string)
    requires SchemeEnds(scheme, rest)
    ensures TrimPrefix(TrimPrefix(scheme + rest, "https://"), "http://") == rest
  {
    PrefixOff("https://", rest);
    PrefixOff("http://", rest);
    PrefixOff("https://", "http://" + rest);
    if scheme == "" {
      assert scheme + rest == rest;
    } else if scheme == "http://" {
      if HasPrefix(scheme + rest, "https://") {
        PrefixAt(scheme + rest, "https://", 4);
      }
    } else if scheme == "https://" + "http://" {
      assert scheme + rest == "https://" + ("http://" + rest);
    }
  }

  lemma {:induction false} DropSpaces(lead: string, s: string)
    requires Spaces(lead) && s != "" && !IsSpace(s[0])
    ensures DropSpace(lead + s) == s
  {
    if lead == "" {
      assert lead + s == s;
    } else {
      DropSpaces(lead[1..], s);
      assert (lead + s)[1..] == lead[1..] + s;
    }
  }

  lemma {:induction false} ChopSpaces(s: string, gap: string)
    requires Spaces(gap) && s != "" && !IsSpace(s[|s| - 1])
    ensures ChopSpace(s + gap) == s
  {
    if gap == "" {
      assert s + gap == s;
    } else {
      var shorter := gap[..|gap| - 1];
      ChopSpaces(s, shorter);
      assert (s + gap)[..|s + gap| - 1] == s + shorter;
    }
  }

  lemma TrimSpaced(lead: string, s: string, gap: string)
    requires Spaces(lead) && Spaces(gap) && s != "" && Tight(s)
    ensures TrimSpace(lead + s + gap) == s
  {
    assert lead + s + gap == lead + (s + gap);
    DropSpaces(lead, s + gap);
    ChopSpaces(s, gap);
  }

  lemma {:induction false} OnlySpaces(s: string)
    requires Spaces(s)
    ensures TrimSpace(s) == ""
  {
    if s != "" {
      OnlySpaces(s[1..]);
    }
  }

  lemma TrimPart(lead: string, s: string, gap: string)
    requires Spaces(lead) && Spaces(gap) && Tight(s)
    ensures TrimSpace(lead + s + gap) == s
  {
    if s == "" {
      OnlySpaces(lead + s + gap);
    } else {
      TrimSpaced(lead, s, gap);
    }
  }

  lemma TokenOfPart(site: Site)
    requires Proper(site)
    ensures CaddyToken(Part(site)) == site.name
  {
    hide TrimSpace, Spaces, Before, TrimPrefix, Tight, HasPrefix;
    TrimPart(site.lead, Address(site), site.gap);
    WithoutScheme(site.scheme, site.name + site.tail);
    BeforeStop(site.name, site.tail, "/:");
  }

  lemma TokensOfParts(sites: seq<Site>)
    requires forall i :: 0 <= i < |sites| ==> Proper(sites[i])
    ensures CaddyTokens(Parts(sites)) == NamesOf(sites)
  {
    hide CaddyToken, Proper, Part;
    forall i | 0 <= i < |sites| ensures CaddyToken(Part(sites[i])) == sites[i].name {
      TokenOfPart(sites[i]);
    }
  }

  lemma SplitOfParts(sites: seq<Site>)
    requires sites != [] && forall i :: 0 <= i < |sites| ==> Proper(sites[i])
    ensures Split(Join(Parts(sites), ','), ',') == Parts(sites)
  {
    hide Part, Spaces, Tight, Split, Join, SchemeEnds, Address;
    forall i | 0 <= i < |sites| ensures ',' !in Parts(sites)[i] {
      assert Proper(sites[i]);
    }
    SplitJoin(Parts(sites), ',');
  }

  lemma BeforeBrace(a: string, gap: string, after: string)
    requires '{' !in a && Spaces(gap)
    ensures Before(a + gap + "{" + after, "{") == a + gap
    ensures '{' in a + gap + "{" + after
  {
    NoBrace(gap);
    hide Spaces, IsSpace;
    var line := a + gap + "{" + after;
    BeforeStop(a + gap, "{" + after, "{");
    assert line == a + gap + ("{" + after);
    assert line[|a + gap|] == '{';
  }

  lemma NoBrace(s: string)
    requires Spaces(s)
    ensures '{' !in s
  {
  }

  lemma NoComment(a: string, gap: string, after: string)
    requires Spaces(gap) && !HasPrefix(a, "#")
    ensures !HasPrefix(a + gap + "{" + after, "#")
  {
    var line := a + gap + "{" + after;
    assert line[..1] == [line[0]];
    if a != "" {
      assert a[..1] == [a[0]] && line[0] == a[0];
    } else if gap != "" {
      assert line[0] == gap[0] && IsSpace(gap[0]);
    }
  }

  // What a line is before its brace: the list, and white space after it.
  predicate Opens(line: string, sites: seq<Site>, gap: string, after: string) {
    && sites != [] && (forall i :: 0 <= i < |sites| ==> Proper(sites[i]))
    && var list := Join(Parts(sites), ',');
    && Tight(list) && '{' !in list && !HasPrefix(list, "#") && Spaces(gap)
    && line == list + gap + "{" + after
  }

  // A line opening a block for any list of sites gives their names in order and in
  // lower case, without schemes, ports and paths and without empty and catch-all ones.
  lemma CaddyReads(text: string, sites: seq<Site>, gap: string, after: string)
    requires Opens(TrimSpace(text), sites, gap, after)
    ensures CaddyNames(text) == Collect(NamesOf(sites))
  {
    hide Proper, Parts, NamesOf, Join, Split, CaddyTokens, Collect, TrimSpace, Before, HasPrefix, Tight, Spaces;
    var list := Join(Parts(sites), ',');
    SplitOfParts(sites);
    TokensOfParts(sites);
    BeforeBrace(list, gap, after);
    NoComment(list, gap, after);
    NoSpaces();
    TrimPart("", list, gap);
    assert "" + list + gap == list + gap;
  }

  lemma NoSpaces()
    ensures Spaces("")
  {
  }

  lemma SchemeOf(a: string) returns (scheme: string, rest: string)
    ensures SchemeEnds(scheme, rest) && a == scheme + rest
  {
    if HasPrefix(a, "https://") {
      rest := a[8..];
      if HasPrefix(rest, "http://") {
        scheme, rest := "https://" + "http://", rest[7..];
        assert a == a[..8] + (a[8..][..7] + a[8..][7..]);
      } else {
        scheme := "https://";
        assert a == a[..8] + a[8..];
      }
    } else if HasPrefix(a, "http://") {
      scheme, rest := "http://", a[7..];
      assert a == a[..7] + a[7..];
    } else {
      scheme, rest := "", a;
      assert a == "" + a;
    }
  }

  lemma PartTakenApart(part: string) returns (site: Site)
    requires ',' !in part
    ensures Proper(site) && Part(site) == part
  {
    hide IsSpace, Spaces, SchemeEnds, Tight;
    var lead := DroppedSpaces(part);
    var gap := ChoppedSpaces(DropSpace(part));
    var a := TrimSpace(part);
    TrimSpaceTight(part);
    var scheme, rest := SchemeOf(a);
    var name := Before(rest, "/:");
    site := Site(lead, scheme, name, rest[|name|..], gap);
    assert name + rest[|name|..] == rest;
    assert Address(site) == a;
    Associates(lead, a, gap);
  }

  lemma Associates(a: string, b: string, c: string)
    ensures a + (b + c) == a + b + c
  {
  }

  lemma {:induction false} PartsTakenApart(parts: seq<string>) returns (sites: seq<Site>)
    requires forall i :: 0 <= i < |parts| ==> ',' !in parts[i]
    ensures Parts(sites) == parts && forall i :: 0 <= i < |sites| ==> Proper(sites[i])
  {
    hide Proper, Part;
    sites := [];
    if parts != [] {
      var rest := PartsTakenApart(parts[1..]);
      var first := PartTakenApart(parts[0]);
      sites := [first] + rest;
      assert forall i :: 0 < i < |parts| ==> parts[1..][i - 1] == parts[i];
      assert forall i :: 0 < i < |sites| ==> Parts(rest)[i - 1] == Parts(sites)[i];
    }
  }

  // Every line with a brace is such a line, or a comment.
  lemma LineTakenApart(text: string) returns (sites: seq<Site>, gap: string, after: string)
    requires '{' in TrimSpace(text) && !HasPrefix(TrimSpace(text), "#")
    ensures Opens(TrimSpace(text), sites, gap, after)
  {
    var line := TrimSpace(text);
    var front := Before(line, "{");
    BraceFollows(line);
    after := line[|front| + 1..];
    assert line == front + "{" + after;
    FrontIsChopped(text, front);
    gap := ChoppedSpaces(front);
    var list := ChopSpace(front);
    FrontOf(front, list, gap, line);
    JoinSplit(list, ',');
    sites := PartsTakenApart(Split(list, ','));
    hide Proper, Parts, Join, Split, Tight, Spaces;
  }

  lemma {:induction false} BraceFollows(line: string)
    requires '{' in line
    ensures |Before(line, "{")| < |line| && line[|Before(line, "{")|] == '{' && '{' !in Before(line, "{")
  {
    if line[0] != '{' {
      BraceFollows(line[1..]);
    }
  }

  // What comes before the brace of a trimmed line starts without white space.
  lemma FrontIsChopped(text: string, front: string)
    requires |front| <= |TrimSpace(text)| && front == TrimSpace(text)[..|front|]
    ensures Tight(ChopSpace(front))
  {
    TrimSpaceTight(text);
    ChopSpaceOf(front);
    var list := ChopSpace(front);
    if list != "" {
      assert list[0] == front[0] == TrimSpace(text)[0];
    }
  }

  lemma FrontOf(front: string, list: string, gap: string, line: string)
    requires front == list + gap && '{' !in front && |front| <= |line| && line[..|front|] == front
    requires !HasPrefix(line, "#")
    ensures '{' !in list && !HasPrefix(list, "#")
  {
    forall i | 0 <= i < |list| ensures list[i] != '{' {
      assert list[i] == front[i];
    }
    if list != "" {
      assert list[..1] == [list[0]] && line[..1] == [line[0]] && list[0] == front[0] == line[0];
    }
  }
}
