// The string helpers the agent takes from Go's "strings" and "unicode" packages.
// A string is a sequence of Unicode code points.
module Text {

  // unicode.IsSpace
  predicate IsSpace(c: char) {
    || '\t' <= c <= '\r'
    || c == ' '
    || c == '\U{85}'
    || c == '\U{A0}'
    || c == '\U{1680}'
    || '\U{2000}' <= c <= '\U{200A}'
    || c == '\U{2028}'
    || c == '\U{2029}'
    || c == '\U{202F}'
    || c == '\U{205F}'
    || c == '\U{3000}'
  }

  function DropSpace(s: string): string {
    if s != "" && IsSpace(s[0]) then DropSpace(s[1..]) else s
  }

  function ChopSpace(s: string): string {
    if s != "" && IsSpace(s[|s| - 1]) then ChopSpace(s[..|s| - 1]) else s
  }

  // strings.TrimSpace
  function TrimSpace(s: string): string {
    ChopSpace(DropSpace(s))
  }

  // strings.TrimRight and strings.Trim, with a set of characters to cut.
  function TrimRight(s: string, cutset: string): string {
    if s != "" && s[|s| - 1] in cutset then TrimRight(s[..|s| - 1], cutset) else s
  }

  function Trim(s: string, cutset: string): string {
    if s != "" && s[0] in cutset then Trim(s[1..], cutset) else TrimRight(s, cutset)
  }

  // No white space at either end.
  predicate Tight(s: string) {
    s != "" ==> !IsSpace(s[0]) && !IsSpace(s[|s| - 1])
  }

  lemma {:induction false} ChopSpaceOf(s: string)
    ensures |ChopSpace(s)| <= |s| && ChopSpace(s) == s[..|ChopSpace(s)|]
    ensures ChopSpace(s) != "" ==> !IsSpace(ChopSpace(s)[|ChopSpace(s)| - 1])
  {
    if s != "" && IsSpace(s[|s| - 1]) {
      ChopSpaceOf(s[..|s| - 1]);
    }
  }

  lemma {:induction false} DropSpaceOf(s: string)
    ensures DropSpace(s) != "" ==> !IsSpace(DropSpace(s)[0])
  {
    if s != "" && IsSpace(s[0]) {
      DropSpaceOf(s[1..]);
    }
  }

  // What is left is tight, and tight strings are left alone.
  lemma TrimSpaceTight(s: string)
    ensures Tight(TrimSpace(s))
    ensures Tight(s) ==> TrimSpace(s) == s
  {
    var l := DropSpace(s);
    DropSpaceOf(s);
    ChopSpaceOf(l);
    if TrimSpace(s) != "" {
      assert TrimSpace(s)[0] == l[0];
    }
  }

  // No white space anywhere.
  predicate Solid(s: string) {
    s == "" || (!IsSpace(s[0]) && Solid(s[1..]))
  }

  lemma {:induction false} SolidAt(s: string, i: nat)
    requires Solid(s) && i < |s|
    ensures !IsSpace(s[i])
  {
    if i > 0 {
      SolidAt(s[1..], i - 1);
    }
  }

  lemma {:induction false} SolidWhen(s: string)
    requires forall i :: 0 <= i < |s| ==> !IsSpace(s[i])
    ensures Solid(s)
  {
    if s != "" {
      SolidWhen(s[1..]);
    }
  }

  lemma TrimSpaceOfSolid(s: string)
    requires Solid(s)
    ensures TrimSpace(s) == s && TrimSpace(s + "\n") == s
  {
    if s != "" {
      SolidAt(s, 0);
      SolidAt(s, |s| - 1);
      TrimSpaceTight(s);
      assert DropSpace(s + "\n") == s + "\n";
      assert (s + "\n")[..|s|] == s;
      assert ChopSpace(s + "\n") == ChopSpace(s);
    } else {
      assert (s + "\n")[1..] == "";
      assert DropSpace(s + "\n") == "";
    }
  }

  // The characters before the first white space.
  function Word(s: string): (w: string)
    ensures |w| <= |s| && w == s[..|w|]
    ensures |w| < |s| ==> IsSpace(s[|w|])
    ensures s != "" && !IsSpace(s[0]) ==> w != ""
    ensures forall i :: 0 <= i < |w| ==> !IsSpace(w[i])
  {
    if s == "" || IsSpace(s[0]) then "" else [s[0]] + Word(s[1..])
  }

  // strings.Fields: the words between runs of white space.
  function Fields(s: string): seq<string> {
    if s == "" then []
    else if IsSpace(s[0]) then Fields(s[1..])
    else [Word(s)] + Fields(s[|Word(s)|..])
  }

  lemma {:induction false} WordOf(w: string, rest: string)
    requires Solid(w) && (rest == "" || IsSpace(rest[0]))
    ensures Word(w + rest) == w
  {
    if w == "" {
      assert w + rest == rest;
    } else {
      WordOf(w[1..], rest);
      assert (w + rest)[1..] == w[1..] + rest;
    }
  }

  lemma FieldsOfWord(w: string, rest: string)
    requires w != "" && Solid(w) && (rest == "" || IsSpace(rest[0]))
    ensures Fields(w + rest) == [w] + Fields(rest)
  {
    WordOf(w, rest);
    assert (w + rest)[|w|..] == rest;
  }

  lemma FieldsOfSpaced(w: string, rest: string)
    requires w != "" && Solid(w) && (rest == "" || rest[0] == ' ')
    ensures Fields(" " + w + rest) == [w] + Fields(rest)
  {
    FieldsOfWord(w, rest);
    hide *;
    FieldsOfSpace(w + rest);
    assert " " + w + rest == " " + (w + rest);
  }

  lemma FieldsOfSpace(s: string)
    ensures Fields(" " + s) == Fields(s)
  {
    assert (" " + s)[1..] == s;
  }

  predicate HasPrefix(s: string, prefix: string) {
    |prefix| <= |s| && s[..|prefix|] == prefix
  }

  predicate HasSuffix(s: string, suffix: string) {
    |suffix| <= |s| && s[|s| - |suffix|..] == suffix
  }

  function TrimPrefix(s: string, prefix: string): string {
    if HasPrefix(s, prefix) then s[|prefix|..] else s
  }

  function TrimSuffix(s: string, suffix: string): string {
    if HasSuffix(s, suffix) then s[..|s| - |suffix|] else s
  }

  // unicode.ToLower on ASCII letters and on the only two other code points it
  // sends into ASCII (the Kelvin sign and the dotted capital I).
  function LowerChar(c: char): char {
    if 'A' <= c <= 'Z' then c + ' '
    else if c == '\U{212A}' then 'k'
    else if c == '\U{130}' then 'i'
    else c
  }

  function Lower(s: string): (r: string)
    ensures |r| == |s| && forall i :: 0 <= i < |s| ==> r[i] == LowerChar(s[i])
  {
    seq(|s|, i requires 0 <= i < |s| => LowerChar(s[i]))
  }

  // strings.Split on one character: never empty.
  function Split(s: string, sep: char): (parts: seq<string>)
    ensures |parts| >= 1
  {
    if s == [] then [""]
    else
      var rest := Split(s[1..], sep);
      if s[0] == sep then [""] + rest
      else [[s[0]] + rest[0]] + rest[1..]
  }

  function Join(parts: seq<string>, sep: char): string {
    if parts == [] then ""
    else if |parts| == 1 then parts[0]
    else parts[0] + [sep] + Join(parts[1..], sep)
  }

  lemma {:induction false} JoinSplit(s: string, sep: char)
    ensures Join(Split(s, sep), sep) == s
    ensures forall i :: 0 <= i < |Split(s, sep)| ==> sep !in Split(s, sep)[i]
    ensures |Split(s, sep)| == 1 <==> sep !in s
  {
    if s != [] {
      JoinSplit(s[1..], sep);
      var rest := Split(s[1..], sep);
      assert s == [s[0]] + s[1..];
      if s[0] == sep {
        assert Split(s, sep)[1..] == rest;
      } else if |rest| > 1 {
        assert Split(s, sep)[1..] == rest[1..];
      }
    }
  }

  lemma {:induction false} SplitJoin(parts: seq<string>, sep: char)
    requires |parts| >= 1
    requires forall i :: 0 <= i < |parts| ==> sep !in parts[i]
    ensures Split(Join(parts, sep), sep) == parts
    decreases |parts|, |parts[0]|
  {
    var s := Join(parts, sep);
    if parts[0] != [] {
      var shorter := [parts[0][1..]] + parts[1..];
      assert s[0] == parts[0][0] && s[1..] == Join(shorter, sep) by {
        assert shorter[1..] == parts[1..];
      }
      assert forall i :: 0 <= i < |shorter| ==> sep !in shorter[i] by {
        forall i | 0 <= i < |shorter| ensures sep !in shorter[i] {
          assert sep !in parts[i];
        }
      }
      SplitJoin(shorter, sep);
      assert [parts[0][0]] + parts[0][1..] == parts[0];
    } else if |parts| > 1 {
      assert s[0] == sep && s[1..] == Join(parts[1..], sep);
      SplitJoin(parts[1..], sep);
    }
  }

  // Every character but the separators is in some part.
  lemma {:induction false} CharOfSplit(s: string, sep: char, i: nat)
    requires i < |s| && s[i] != sep
    ensures exists k :: 0 <= k < |Split(s, sep)| && s[i] in Split(s, sep)[k]
  {
    var parts, rest := Split(s, sep), Split(s[1..], sep);
    if i == 0 {
      assert s[0] in parts[0];
    } else {
      CharOfSplit(s[1..], sep, i - 1);
      var k :| 0 <= k < |rest| && s[i] in rest[k];
      if s[0] == sep {
        assert parts[k + 1] == rest[k];
      } else if k == 0 {
        assert parts[0] == [s[0]] + rest[0];
      } else {
        assert parts[k] == rest[k];
      }
    }
  }

  // Lexicographic order, as Go compares strings.
  predicate Less(a: string, b: string) {
    b != [] && (a == [] || a[0] < b[0] || (a[0] == b[0] && Less(a[1..], b[1..])))
  }

  lemma {:induction false} LessTrichotomy(a: string, b: string)
    ensures Less(a, b) || a == b || Less(b, a)
    ensures !(Less(a, b) && Less(b, a))
    ensures Less(a, b) ==> a != b
  {
    if a != [] && b != [] && a[0] == b[0] {
      LessTrichotomy(a[1..], b[1..]);
      assert a == [a[0]] + a[1..] && b == [b[0]] + b[1..];
    }
  }

  lemma {:induction false} LessTransitive(a: string, b: string, c: string)
    requires Less(a, b) && Less(b, c)
    ensures Less(a, c)
  {
    if a != [] && a[0] == b[0] == c[0] {
      LessTransitive(a[1..], b[1..], c[1..]);
    }
  }

  // At the first place where they differ a has the smaller character or ends.
  lemma {:induction false} LessExactly(a: string, b: string)
    ensures Less(a, b) <==> exists k: nat :: DifferAt(a, b, k) && (k == |a| || (k < |b| && a[k] < b[k]))
  {
    if a != [] && b != [] && a[0] == b[0] {
      LessExactly(a[1..], b[1..]);
      forall k: nat | DifferAt(a[1..], b[1..], k) ensures DifferAt(a, b, k + 1) {
        assert forall i :: 0 < i <= k ==> a[i] == a[1..][i - 1] && b[i] == b[1..][i - 1];
      }
      forall k: nat | DifferAt(a, b, k) ensures k > 0 && DifferAt(a[1..], b[1..], k - 1) {
        assert forall i :: 0 <= i < k - 1 ==> a[1..][i] == a[i + 1] && b[1..][i] == b[i + 1];
      }
      if Less(a, b) {
        var k: nat :| DifferAt(a[1..], b[1..], k) && (k == |a[1..]| || (k < |b[1..]| && a[1..][k] < b[1..][k]));
        assert DifferAt(a, b, k + 1);
      }
    } else {
      assert forall k: nat :: DifferAt(a, b, k) ==> k == 0;
      assert a != b ==> DifferAt(a, b, 0);
    }
  }

  predicate DifferAt(a: string, b: string, k: nat) {
    && k <= |a| && k <= |b| && (k < |a| || k < |b|)
    && (forall i :: 0 <= i < k ==> a[i] == b[i])
    && (k < |a| && k < |b| ==> a[k] != b[k])
  }

  // Capitals and two more change; everything else in ASCII stays.
  lemma LowerExactly(s: string, i: nat)
    requires i < |s|
    ensures 'A' <= s[i] <= 'Z' ==> Lower(s)[i] as int == s[i] as int + 32
    ensures s[i] < 'A' || 'Z' < s[i] < '\U{130}' ==> Lower(s)[i] == s[i]
    ensures s[i] == '\U{212A}' ==> Lower(s)[i] == 'k'
    ensures s[i] == '\U{130}' ==> Lower(s)[i] == 'i'
  {
  }
}
