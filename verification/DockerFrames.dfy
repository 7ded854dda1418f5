// The Docker attach stream: frames of an 8-byte header (stream, three zeros, a
// big-endian length) and a payload. The agent reads at most a fixed number of
// bytes, so the stream it decodes may be cut anywhere.
module DockerFrames {
  import opened Bytes

  datatype Frame = Frame(stream: byte, payload: seq<byte>)

  predicate Valid(f: Frame) {
    (f.stream == 1 || f.stream == 2) && |f.payload| < 0x1_0000_0000
  }

  predicate AllValid(fs: seq<Frame>) {
    forall f :: f in fs ==> Valid(f)
  }

  function EncodeFrame(f: Frame): (raw: seq<byte>)
    requires Valid(f)
    ensures |raw| == 8 + |f.payload|
  {
    [f.stream, 0, 0, 0] + PutUint32(|f.payload|) + f.payload
  }

  function Encode(fs: seq<Frame>): seq<byte>
    requires AllValid(fs)
  {
    if fs == [] then [] else EncodeFrame(fs[0]) + Encode(fs[1..])
  }

  function Payloads(fs: seq<Frame>): seq<byte> {
    if fs == [] then [] else fs[0].payload + Payloads(fs[1..])
  }

  predicate HasHeader(raw: seq<byte>) {
    |raw| >= 8 && (raw[0] == 1 || raw[0] == 2) && raw[1] == 0 && raw[2] == 0 && raw[3] == 0
  }

  // A complete, non-empty frame stands at the front.
  predicate FrameAhead(raw: seq<byte>) {
    HasHeader(raw) && 0 < Uint32(raw[4..8]) <= |raw| - 8
  }

  function FrontSize(raw: seq<byte>): (n: int)
    requires FrameAhead(raw)
    ensures 8 < n <= |raw|
  {
    8 + Uint32(raw[4..8])
  }

  function FrontFrame(raw: seq<byte>): (f: Frame)
    requires FrameAhead(raw)
    ensures Valid(f) && f.payload != [] && FrontSize(raw) == 8 + |f.payload|
  {
    Frame(raw[0], raw[8..FrontSize(raw)])
  }

  lemma FrontFrameEncodes(raw: seq<byte>)
    requires FrameAhead(raw)
    ensures EncodeFrame(FrontFrame(raw)) == raw[..FrontSize(raw)]
  {
    PutUint32OfUint32(raw[4..8]);
    assert raw[..FrontSize(raw)] == raw[..4] + raw[4..8] + raw[8..FrontSize(raw)];
    assert raw[..4] == [raw[0], 0, 0, 0];
  }

  // The complete, non-empty frames at the front of raw, and what is left.
  function Parse(raw: seq<byte>): (r: (seq<Frame>, seq<byte>))
    ensures AllValid(r.0) && (forall f :: f in r.0 ==> f.payload != [])
    ensures !FrameAhead(r.1)
    decreases |raw|
  {
    if FrameAhead(raw) then
      var (fs, rest) := Parse(raw[FrontSize(raw)..]);
      ([FrontFrame(raw)] + fs, rest)
    else ([], raw)
  }

  // What the decoder returns: the payloads of those frames, or the input itself
  // when there are none.
  function Demuxed(raw: seq<byte>): seq<byte> {
    if Parse(raw).0 == [] then raw else Payloads(Parse(raw).0)
  }

  method DockerDemux(raw: seq<byte>) returns (result: seq<byte>)
    ensures result == Demuxed(raw)
  {
    var rest := raw;
    var out: seq<byte> := [];
    ghost var n := 0;  // frames written so far
    while |rest| >= 8
      invariant n <= |Parse(raw).0| && Parse(rest).0 == Parse(raw).0[n..]
      invariant out == Payloads(Parse(raw).0[..n])
      invariant n == 0 <==> |out| == 0
      decreases |rest|
    {
      ghost var before := rest;
      if (rest[0] != 1 && rest[0] != 2) || rest[1] != 0 || rest[2] != 0 || rest[3] != 0 {
        if |out| == 0 {
          return raw;
        }
        break;
      }
      var size := Uint32(rest[4..8]);
      rest := rest[8..];
      if size <= 0 || size > |rest| {
        assert Parse(before).0 == [];
        break;
      }
      assert rest[..size] == FrontFrame(before).payload && rest[size..] == before[FrontSize(before)..];
      ParseStep(raw, before, n);
      out := out + rest[..size];
      rest := rest[size..];
      n := n + 1;
    }
    assert Parse(raw).0[..|Parse(raw).0|] == Parse(raw).0;
    if |out| > 0 {
      return out;
    }
    return raw;
  }

  lemma ParseStep(raw: seq<byte>, rest: seq<byte>, n: nat)
    requires n <= |Parse(raw).0| && Parse(rest).0 == Parse(raw).0[n..] && FrameAhead(rest)
    ensures n < |Parse(raw).0| && Parse(rest[FrontSize(rest)..]).0 == Parse(raw).0[n + 1..]
    ensures Payloads(Parse(raw).0[..n + 1]) == Payloads(Parse(raw).0[..n]) + FrontFrame(rest).payload
  {
    var fs := Parse(raw).0;
    assert fs[n..][0] == FrontFrame(rest) && fs[n..][1..] == fs[n + 1..];
    assert fs[..n + 1] == fs[..n] + [fs[n]];
    PayloadsAppend(fs[..n], [fs[n]]);
    assert Payloads([fs[n]]) == fs[n].payload + [];
  }

  lemma EncodeCons(f: Frame, fs: seq<Frame>)
    requires Valid(f) && AllValid(fs)
    ensures AllValid([f] + fs)
    ensures Encode([f] + fs) == EncodeFrame(f) + Encode(fs)
    ensures Payloads([f] + fs) == f.payload + Payloads(fs)
  {
    assert ([f] + fs)[1..] == fs;
  }

  // Every input splits into the frames decoded and a remainder that starts with
  // no complete, non-empty frame.
  lemma {:induction false} ParseSound(raw: seq<byte>)
    ensures Encode(Parse(raw).0) + Parse(raw).1 == raw
    decreases |raw|
  {
    if FrameAhead(raw) {
      var n := FrontSize(raw);
      var fs, rest := Parse(raw[n..]).0, Parse(raw[n..]).1;
      ParseSound(raw[n..]);
      FrontFrameEncodes(raw);
      EncodeCons(FrontFrame(raw), fs);
      Rejoin(raw, n, Encode(fs), rest);
    }
  }

  lemma Rejoin(raw: seq<byte>, n: nat, middle: seq<byte>, rest: seq<byte>)
    requires n <= |raw| && middle + rest == raw[n..]
    ensures (raw[..n] + middle) + rest == raw
  {
    assert (raw[..n] + middle) + rest == raw[..n] + (middle + rest);
  }

  // A frame on the wire, byte for byte.
  lemma FrameSpelled(f: Frame, raw: seq<byte>)
    requires Valid(f)
    ensures raw == EncodeFrame(f) <==>
      && |raw| == 8 + |f.payload|
      && raw[0] == f.stream && raw[1] == 0 && raw[2] == 0 && raw[3] == 0
      && raw[4] as int * 16777216 + raw[5] as int * 65536 + raw[6] as int * 256 + raw[7] as int == |f.payload|
      && raw[8..] == f.payload
  {
    FrontOfEncoding(f, []);
    assert EncodeFrame(f) + [] == EncodeFrame(f);
    assert f.payload == f.payload[..|f.payload|];
    if |raw| == 8 + |f.payload| {
      Uint32Exactly(raw[4..8]);
      PutUint32OfUint32(raw[4..8]);
      assert raw == raw[..4] + raw[4..8] + raw[8..];
      if raw[0] == f.stream && raw[1] == 0 && raw[2] == 0 && raw[3] == 0 {
        assert raw[..4] == [f.stream, 0, 0, 0];
      }
    }
  }

  // Frames that are not empty, and then no such frame.
  ghost predicate Splits(raw: seq<byte>, fs: seq<Frame>, rest: seq<byte>) {
    && AllValid(fs) && (forall f :: f in fs ==> f.payload != [])
    && raw == Encode(fs) + rest
    && NoFrameFirst(rest)
  }

  ghost predicate NoFrameFirst(rest: seq<byte>) {
    forall f, more :: Valid(f) && f.payload != [] ==> rest != EncodeFrame(f) + more
  }

  lemma NoFrameFirstExactly(rest: seq<byte>)
    ensures NoFrameFirst(rest) <==> !FrameAhead(rest)
  {
    if FrameAhead(rest) {
      FrontFrameEncodes(rest);
      assert rest == EncodeFrame(FrontFrame(rest)) + rest[FrontSize(rest)..];
    }
    forall f, more | Valid(f) && f.payload != [] && rest == EncodeFrame(f) + more ensures FrameAhead(rest) {
      FrontOfEncoding(f, more);
    }
  }

  lemma NothingParsed(rest: seq<byte>)
    requires !FrameAhead(rest)
    ensures Parse(rest) == ([], rest)
  {
  }

  lemma {:induction false} ParseOfSplit(fs: seq<Frame>, rest: seq<byte>)
    requires AllValid(fs) && (forall f :: f in fs ==> f.payload != []) && !FrameAhead(rest)
    ensures Parse(Encode(fs) + rest) == (fs, rest)
    decreases |fs|
  {
    hide Parse, FrameAhead, EncodeFrame, Payloads, Valid;
    if fs == [] {
      NothingParsed(rest);
      assert Encode(fs) + rest == rest;
    } else {
      var f, others := fs[0], fs[1..];
      assert fs == [f] + others;
      ParseOfSplit(others, rest);
      FrameInCut(f, Encode(others) + rest);
      assert Encode(fs) + rest == EncodeFrame(f) + (Encode(others) + rest);
    }
  }

  // Any input at all is frames that are not empty and then no such frame, in one
  // way only; and what the decoder returns is their payloads, or its input when
  // there are none.
  lemma DemuxExactly(raw: seq<byte>) returns (fs: seq<Frame>, rest: seq<byte>)
    ensures Splits(raw, fs, rest)
    ensures forall gs, more :: Splits(raw, gs, more) ==> gs == fs && more == rest
    ensures Demuxed(raw) == if fs == [] then raw else Payloads(fs)
  {
    fs, rest := Parse(raw).0, Parse(raw).1;
    ParseSound(raw);
    NoFrameFirstExactly(rest);
    hide Parse, NoFrameFirst, FrameAhead;
    forall gs, more | Splits(raw, gs, more) ensures gs == fs && more == rest {
      NoFrameFirstExactly(more);
      ParseOfSplit(gs, more);
    }
  }

  // ---- decoding an encoded stream cut at any byte ----

  // fs[..n] are exactly the frames that a cut at byte k leaves decodable: wholly
  // before the cut, and not behind an empty frame.
  predicate Decodable(fs: seq<Frame>, k: nat, n: nat)
    requires AllValid(fs)
  {
    && n <= |fs|
    && (forall i :: 0 <= i < n ==> fs[i].payload != [])
    && |Encode(fs[..n])| <= k
    && (n == |fs| || fs[n].payload == [] || k < |Encode(fs[..n + 1])|)
  }

  lemma FrontOfEncoding(f: Frame, more: seq<byte>)
    requires Valid(f)
    ensures var raw := EncodeFrame(f) + more;
      HasHeader(raw) && raw[0] == f.stream && Uint32(raw[4..8]) == |f.payload|
      && raw[8..8 + |f.payload|] == f.payload && raw[8 + |f.payload|..] == more
  {
    var raw := EncodeFrame(f) + more;
    assert raw[4..8] == PutUint32(|f.payload|);
    assert raw[8 + |f.payload|..] == more;
  }

  lemma FrameInCut(f: Frame, more: seq<byte>)
    requires Valid(f) && f.payload != []
    ensures Parse(EncodeFrame(f) + more) == ([f] + Parse(more).0, Parse(more).1)
  {
    FrontOfEncoding(f, more);
  }

  lemma NoFrameInCut(f: Frame, more: seq<byte>, k: nat)
    requires Valid(f) && k <= |EncodeFrame(f) + more|
    requires f.payload == [] || k < |EncodeFrame(f)|
    ensures !FrameAhead((EncodeFrame(f) + more)[..k])
  {
    var raw := EncodeFrame(f) + more;
    FrontOfEncoding(f, more);
    if k >= 8 {
      HeaderInCut(raw, k);
    }
  }

  lemma HeaderInCut(raw: seq<byte>, k: nat)
    requires 8 <= k <= |raw|
    ensures raw[..k][4..8] == raw[4..8]
  {
    assert forall i :: 4 <= i < 8 ==> raw[..k][i] == raw[i];
  }

  lemma DecodableTail(f: Frame, rest: seq<Frame>, k: nat, n: nat)
    requires Valid(f) && AllValid(rest) && AllValid([f] + rest)
    requires n > 0 && Decodable([f] + rest, k, n)
    ensures f.payload != [] && k >= |EncodeFrame(f)|
    ensures Decodable(rest, k - |EncodeFrame(f)|, n - 1)
  {
    var fs := [f] + rest;
    assert fs[..n] == [f] + rest[..n - 1];
    EncodeCons(f, rest[..n - 1]);
    if n < |fs| {
      assert fs[..n + 1] == [f] + rest[..n];
      EncodeCons(f, rest[..n]);
    }
    assert forall i :: 0 <= i < |rest| ==> rest[i] == fs[i + 1];
  }

  lemma {:induction false} ParseOfCut(fs: seq<Frame>, k: nat, n: nat)
    requires AllValid(fs) && k <= |Encode(fs)| && Decodable(fs, k, n)
    ensures Parse(Encode(fs)[..k]).0 == fs[..n]
    decreases |fs|
  {
    hide FrameAhead, EncodeFrame, Payloads, Valid;
    if fs != [] {
      var f, rest := fs[0], fs[1..];
      assert fs == [f] + rest;
      EncodeCons(f, rest);
      if n == 0 {
        assert fs[..1] == [f] + [];
        EncodeCons(f, []);
        NoFrameInCut(f, Encode(rest), k);
      } else {
        DecodableTail(f, rest, k, n);
        var k' := k - |EncodeFrame(f)|;
        ParseOfCut(rest, k', n - 1);
        assert Encode(fs)[..k] == EncodeFrame(f) + Encode(rest)[..k'];
        FrameInCut(f, Encode(rest)[..k']);
        assert fs[..n] == [f] + rest[..n - 1];
      }
    }
  }

  // However the frames fall and wherever the stream is cut, the decoder returns
  // the payloads of the decodable frames, or its input when there are none.
  lemma DemuxOfCut(fs: seq<Frame>, k: nat, n: nat)
    requires AllValid(fs) && k <= |Encode(fs)| && Decodable(fs, k, n)
    ensures Demuxed(Encode(fs)[..k]) == if n == 0 then Encode(fs)[..k] else Payloads(fs[..n])
  {
    ParseOfCut(fs, k, n);
  }

  // For every cut there is such a number of frames, and only one.
  lemma {:induction false} DecodableExists(fs: seq<Frame>, k: nat) returns (n: nat)
    requires AllValid(fs)
    ensures Decodable(fs, k, n)
    ensures forall m: nat :: Decodable(fs, k, m) ==> m == n
  {
    n := 0;
    while n < |fs| && fs[n].payload != [] && |Encode(fs[..n + 1])| <= k
      invariant n <= |fs|
      invariant forall i :: 0 <= i < n ==> fs[i].payload != []
      invariant |Encode(fs[..n])| <= k
    {
      n := n + 1;
    }
    forall m: nat | Decodable(fs, k, m) ensures m == n {
      DecodableUnique(fs, k, m, n);
    }
  }

  lemma DecodableUnique(fs: seq<Frame>, k: nat, m: nat, n: nat)
    requires AllValid(fs) && Decodable(fs, k, m) && Decodable(fs, k, n)
    ensures m == n
  {
    if m < n {
      EncodeMonotone(fs, m + 1, n);
    } else if n < m {
      EncodeMonotone(fs, n + 1, m);
    }
  }

  lemma {:induction false} EncodeMonotone(fs: seq<Frame>, a: nat, b: nat)
    requires AllValid(fs) && a <= b <= |fs|
    ensures |Encode(fs[..a])| <= |Encode(fs[..b])|
    decreases a
  {
    if a > 0 {
      EncodeMonotone(fs[1..], a - 1, b - 1);
      assert fs[..a] == [fs[0]] + fs[1..][..a - 1] && fs[..b] == [fs[0]] + fs[1..][..b - 1];
      EncodeCons(fs[0], fs[1..][..a - 1]);
      EncodeCons(fs[0], fs[1..][..b - 1]);
    }
  }

  // No frame follows an empty one, other than empty ones, and the first is not empty.
  predicate EmptyFramesLast(fs: seq<Frame>) {
    && (fs != [] ==> fs[0].payload != [])
    && (forall i, j :: 0 <= i < j < |fs| && fs[i].payload == [] ==> fs[j].payload == [])
  }

  // The number of frames decodable in the whole stream: those before the first
  // empty frame.
  lemma DecodableWhole(fs: seq<Frame>, n: nat)
    requires AllValid(fs) && Decodable(fs, |Encode(fs)|, n)
    ensures n < |fs| ==> fs[n].payload == []
  {
    assert fs[..|fs|] == fs;
    if n < |fs| {
      EncodeMonotone(fs, n + 1, |fs|);
    }
  }

  lemma LastIffNothingLeft(fs: seq<Frame>, n: nat)
    requires n <= |fs| && forall i :: 0 <= i < n ==> fs[i].payload != []
    requires n < |fs| ==> fs[n].payload == []
    ensures EmptyFramesLast(fs) <==> (fs == [] || n > 0) && Payloads(fs[n..]) == []
  {
    PayloadsEmpty(fs[n..]);
    assert forall i :: n <= i < |fs| ==> fs[n..][i - n] == fs[i];
    if Payloads(fs[n..]) == [] {
      assert forall i :: n <= i < |fs| ==> fs[i].payload == [];
    } else {
      var i :| 0 <= i < |fs[n..]| && fs[n..][i].payload != [];
      assert fs[n + i].payload != [];
    }
  }

  // Uncut, the decoder inverts the encoder exactly for the streams whose empty
  // frames, if any, come last; in particular for streams without empty frames.
  lemma DemuxInvertsEncode(fs: seq<Frame>)
    requires AllValid(fs)
    ensures Demuxed(Encode(fs)) == Payloads(fs) <==> EmptyFramesLast(fs)
  {
    hide Demuxed, Parse, Encode, Payloads, Decodable, EmptyFramesLast;
    var n := DecodableExists(fs, |Encode(fs)|);
    DemuxWhole(fs, n);
    DecodableWhole(fs, n);
    LastIffNothingLeft(fs, n);
    PayloadsAppend(fs[..n], fs[n..]);
    assert fs == fs[..n] + fs[n..];
    EncodedLonger(fs);
    WhichEqualsWhole(Encode(fs), Payloads(fs[..n]), Payloads(fs[n..]), |fs|, n);
  }

  lemma WhichEqualsWhole(encoded: seq<byte>, front: seq<byte>, back: seq<byte>, count: nat, n: nat)
    requires |encoded| == 8 * count + |front + back| && (n == 0 ==> front == []) && (count == 0 ==> back == [])
    ensures (if n == 0 then encoded else front) == front + back <==> (count == 0 || n > 0) && back == []
  {
    assert back == [] ==> front + back == front;
  }

  lemma DemuxWhole(fs: seq<Frame>, n: nat)
    requires AllValid(fs) && Decodable(fs, |Encode(fs)|, n)
    ensures Demuxed(Encode(fs)) == if n == 0 then Encode(fs) else Payloads(fs[..n])
  {
    DemuxOfCut(fs, |Encode(fs)|, n);
    assert Encode(fs)[..|Encode(fs)|] == Encode(fs);
  }

  lemma {:induction false} EncodedLonger(fs: seq<Frame>)
    requires AllValid(fs)
    ensures |Encode(fs)| == 8 * |fs| + |Payloads(fs)|
  {
    if fs != [] {
      EncodedLonger(fs[1..]);
    }
  }

  lemma {:induction false} PayloadsAppend(a: seq<Frame>, b: seq<Frame>)
    ensures Payloads(a + b) == Payloads(a) + Payloads(b)
  {
    if a == [] {
      assert a + b == b;
    } else {
      assert (a + b)[1..] == a[1..] + b && (a + b)[0] == a[0];
      calc {
        Payloads(a + b);
        a[0].payload + Payloads(a[1..] + b);
        { PayloadsAppend(a[1..], b); }
        a[0].payload + (Payloads(a[1..]) + Payloads(b));
        (a[0].payload + Payloads(a[1..])) + Payloads(b);
        Payloads(a) + Payloads(b);
      }
    }
  }

  lemma {:induction false} PayloadsEmpty(fs: seq<Frame>)
    ensures Payloads(fs) == [] <==> forall i :: 0 <= i < |fs| ==> fs[i].payload == []
  {
    if fs != [] {
      PayloadsEmpty(fs[1..]);
      assert forall i :: 0 < i < |fs| ==> fs[i] == fs[1..][i - 1];
    }
  }
}
