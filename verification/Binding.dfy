/**
 The byte stream that the production-identity binding feeds to its HMAC: every field name and value as UTF-8
 behind its length in four bytes.  Strings are sequences of UTF-16 code units, as the runtime has them.
 */
module Binding {
  import opened Wrappers

  type CodeUnit = n: nat | n < 0x10000

  type Text = seq<CodeUnit>

  type Scalar = n: nat | n < 0xD800 || 0xE000 <= n < 0x110000

  type Byte = n: nat | n < 0x100

  // ---- UTF-16 to scalar values ----

  const REPLACEMENT: Scalar := 0xFFFD

  predicate High(u: CodeUnit) { 0xD800 <= u < 0xDC00 }

  predicate Low(u: CodeUnit) { 0xDC00 <= u < 0xE000 }

  function Paired(high: int, low: int): Scalar
    requires 0xD800 <= high < 0xDC00 <= low < 0xE000
  {
    0x10000 + (high - 0xD800) * 0x400 + (low - 0xDC00)
  }

  function HighOf(x: int): CodeUnit
    requires 0x10000 <= x < 0x110000
  {
    0xD800 + (x - 0x10000) / 0x400
  }

  function LowOf(x: int): CodeUnit
    requires 0x10000 <= x < 0x110000
  {
    0xDC00 + (x - 0x10000) % 0x400
  }

  /** A surrogate without its partner becomes the replacement character. */
  function Scalars(s: Text): seq<Scalar> {
    if s == [] then []
    else if High(s[0]) && |s| > 1 && Low(s[1]) then [Paired(s[0], s[1])] + Scalars(s[2..])
    else if High(s[0]) || Low(s[0]) then [REPLACEMENT] + Scalars(s[1..])
    else [s[0]] + Scalars(s[1..])
  }

  function Units(s: seq<Scalar>): Text {
    if s == [] then []
    else if s[0] < 0x10000 then [s[0]] + Units(s[1..])
    else [HighOf(s[0]), LowOf(s[0])] + Units(s[1..])
  }

  /** No surrogate stands alone. */
  predicate WellFormed(s: Text) {
    s == []
    || (High(s[0]) && |s| > 1 && Low(s[1]) && WellFormed(s[2..]))
    || (!High(s[0]) && !Low(s[0]) && WellFormed(s[1..]))
  }

  /** A well-formed text is determined by its scalar values. */
  lemma {:induction false} UnitsOfScalars(s: Text)
    requires WellFormed(s)
    ensures Units(Scalars(s)) == s
    decreases |s|
  {
    if s != [] {
      if High(s[0]) {
        UnitsOfScalars(s[2..]);
        assert Scalars(s)[1..] == Scalars(s[2..]);
        assert s == [s[0], s[1]] + s[2..];
      } else {
        UnitsOfScalars(s[1..]);
        assert Scalars(s)[1..] == Scalars(s[1..]);
      }
    }
  }

  // ---- UTF-8 ----

  function EncodeOne(x: Scalar): (r: seq<Byte>)
    ensures 1 <= |r| <= 4
  {
    if x < 0x80 then [x]
    else if x < 0x800 then [0xC0 + x / 0x40, 0x80 + x % 0x40]
    else if x < 0x10000 then [0xE0 + x / 0x40 / 0x40, 0x80 + x / 0x40 % 0x40, 0x80 + x % 0x40]
    else [0xF0 + x / 0x40 / 0x40 / 0x40, 0x80 + x / 0x40 / 0x40 % 0x40, 0x80 + x / 0x40 % 0x40, 0x80 + x % 0x40]
  }

  function Utf8(s: seq<Scalar>): seq<Byte> {
    if s == [] then [] else EncodeOne(s[0]) + Utf8(s[1..])
  }

  /** How many bytes a lead byte announces. */
  function Announced(lead: Byte): nat {
    if lead < 0x80 then 1 else if lead < 0xE0 then 2 else if lead < 0xF0 then 3 else 4
  }

  function Joined(lead: int, tail: int): int { lead * 0x40 + (tail - 0x80) }

  function Lead(b: int, mark: int): int { b - mark }

  function Value(b: seq<Byte>): int
    requires 1 <= |b| <= 4
  {
    if |b| == 1 then b[0]
    else if |b| == 2 then Joined(Lead(b[0], 0xC0), b[1])
    else if |b| == 3 then Joined(Joined(Lead(b[0], 0xE0), b[1]), b[2])
    else Joined(Joined(Joined(Lead(b[0], 0xF0), b[1]), b[2]), b[3])
  }

  lemma DecodesOne(x: Scalar)
    ensures Announced(EncodeOne(x)[0]) == |EncodeOne(x)|
    ensures Value(EncodeOne(x)) == x
  {}

  /** No encoding is the beginning of another one. */
  lemma PrefixFree(x: Scalar, a: seq<Byte>, y: Scalar, b: seq<Byte>)
    requires EncodeOne(x) + a == EncodeOne(y) + b
    ensures x == y && a == b
  {
    var p, q := EncodeOne(x), EncodeOne(y);
    DecodesOne(x);
    DecodesOne(y);
    assert (p + a)[0] == p[0] && (q + b)[0] == q[0];
    assert p == (p + a)[..|p|] && q == (q + b)[..|q|];
    assert a == (p + a)[|p|..] && b == (q + b)[|q|..];
  }

  lemma {:induction false} Utf8Injective(a: seq<Scalar>, b: seq<Scalar>)
    requires Utf8(a) == Utf8(b)
    ensures a == b
  {
    if a != [] && b != [] {
      PrefixFree(a[0], Utf8(a[1..]), b[0], Utf8(b[1..]));
      Utf8Injective(a[1..], b[1..]);
    }
  }

  // ---- Length framing ----

  const MAX_FRAME := 0x1_0000_0000

  function Be32(n: nat): (r: seq<Byte>)
    requires n < MAX_FRAME
    ensures |r| == 4
  {
    [n / 0x100 / 0x100 / 0x100, n / 0x100 / 0x100 % 0x100, n / 0x100 % 0x100, n % 0x100]
  }

  function Appended(high: int, low: int): int { high * 0x100 + low }

  function FromBe32(b: seq<Byte>): int
    requires |b| == 4
  {
    Appended(Appended(Appended(b[0], b[1]), b[2]), b[3])
  }

  lemma Be32RoundTrip(n: nat)
    requires n < MAX_FRAME
    ensures FromBe32(Be32(n)) == n
  {}

  predicate Fits(frame: seq<Byte>) { |frame| < MAX_FRAME }

  predicate AllFit(frames: seq<seq<Byte>>) { forall i :: 0 <= i < |frames| ==> Fits(frames[i]) }

  function Stream(frames: seq<seq<Byte>>): seq<Byte>
    requires AllFit(frames)
  {
    if frames == [] then [] else Be32(|frames[0]|) + frames[0] + Stream(frames[1..])
  }

  /** Reads frames back; `None` for a stream that is not a sequence of whole frames. */
  function Unframe(stream: seq<Byte>): Option<seq<seq<Byte>>>
    decreases |stream|
  {
    if stream == [] then Some([])
    else if |stream| < 4 then None
    else
      var n := FromBe32(stream[..4]);
      if !(0 <= n <= |stream| - 4) then None
      else match Unframe(stream[4 + n..])
        case None => None
        case Some(rest) => Some([stream[4..4 + n]] + rest)
  }

  /** The stream is uniquely decodable, whatever the number and the lengths of the frames. */
  lemma {:induction false} UnframeStream(frames: seq<seq<Byte>>)
    requires AllFit(frames)
    ensures Unframe(Stream(frames)) == Some(frames)
  {
    if frames != [] {
      var n, head, rest := |frames[0]|, Be32(|frames[0]|), Stream(frames[1..]);
      var s := Stream(frames);
      assert s == head + frames[0] + rest && |s| == 4 + n + |rest|;
      assert s[..4] == head && s[4..4 + n] == frames[0] && s[4 + n..] == rest;
      Be32RoundTrip(n);
      UnframeStream(frames[1..]);
      assert frames == [frames[0]] + frames[1..];
    }
  }

  // ---- The binding ----

  /** The thirteen inputs, in the order in which they are fed; the token is the key and not in the stream. */
  datatype Identity = Identity(
    environment: Text, surface: Text, databaseName: Text, replicaSetName: Text, replicaSetId: Text,
    bulkOperationCollectionUuid: Text,
    scheme: Text, authority: Text, srvServiceName: Text, replicaSetOption: Text,
    tls: Text, directConnection: Text, loadBalanced: Text)

  /** The input that is fed behind the domain and `i` others. */
  function Input(input: Identity, i: nat): Text
    requires i < 13
  {
    if i == 0 then input.environment
    else if i == 1 then input.surface
    else if i == 2 then input.databaseName
    else if i == 3 then input.replicaSetName
    else if i == 4 then input.replicaSetId
    else if i == 5 then input.bulkOperationCollectionUuid
    else if i == 6 then input.scheme
    else if i == 7 then input.authority
    else if i == 8 then input.srvServiceName
    else if i == 9 then input.replicaSetOption
    else if i == 10 then input.tls
    else if i == 11 then input.directConnection
    else input.loadBalanced
  }

  function Inputs(input: Identity): (r: seq<Text>)
    ensures |r| == 13 && forall i :: 0 <= i < 13 ==> r[i] == Input(input, i)
  {
    seq(13, i requires 0 <= i < 13 => Input(input, i))
  }

  function BytesOf(t: Text): seq<Byte> { Utf8(Scalars(t)) }

  /** Each name and, behind it, its value. */
  function Frames(names: seq<Text>, values: seq<Text>): (r: seq<seq<Byte>>)
    requires |names| == |values|
    ensures |r| == 2 * |names|
  {
    if names == [] then []
    else
      var n := |names| - 1;
      Frames(names[..n], values[..n]) + [BytesOf(names[n])] + [BytesOf(values[n])]
  }

  lemma {:induction false} FrameAt(names: seq<Text>, values: seq<Text>, i: nat)
    requires |names| == |values| && i < |names|
    ensures Frames(names, values)[2 * i] == BytesOf(names[i])
    ensures Frames(names, values)[2 * i + 1] == BytesOf(values[i])
  {
    var n := |names| - 1;
    var front := Frames(names[..n], values[..n]);
    assert Frames(names, values) == front + [BytesOf(names[n])] + [BytesOf(values[n])];
    if i < n {
      FrameAt(names[..n], values[..n], i);
      assert Frames(names, values)[2 * i] == front[2 * i] && Frames(names, values)[2 * i + 1] == front[2 * i + 1];
    }
  }

  lemma StreamSnoc(frames: seq<seq<Byte>>, frame: seq<Byte>)
    requires AllFit(frames) && Fits(frame)
    ensures Stream(frames + [frame]) == Stream(frames) + Be32(|frame|) + frame
  {
    if frames == [] {
      assert [frame][1..] == [] && [] + [frame] == [frame];
    } else {
      StreamSnoc(frames[1..], frame);
      assert (frames + [frame])[1..] == frames[1..] + [frame];
    }
  }

  lemma FramesSnoc(names: seq<Text>, values: seq<Text>, i: nat)
    requires |names| == |values| && i < |names|
    ensures Frames(names[..i + 1], values[..i + 1]) ==
              Frames(names[..i], values[..i]) + [BytesOf(names[i])] + [BytesOf(values[i])]
  {
    assert names[..i + 1][..i] == names[..i] && values[..i + 1][..i] == values[..i];
  }

  /** The bytes are the stream of these frames, and so are read back as them. */
  ghost predicate Carries(fed: seq<Byte>, frames: seq<seq<Byte>>) {
    AllFit(frames) && fed == Stream(frames) && Unframe(fed) == Some(frames)
  }

  lemma CarriesSnoc(fed: seq<Byte>, frames: seq<seq<Byte>>, frame: seq<Byte>)
    requires Carries(fed, frames) && Fits(frame)
    ensures Carries(fed + Be32(|frame|) + frame, frames + [frame])
  {
    StreamSnoc(frames, frame);
    UnframeStream(frames + [frame]);
  }

  /** One call of updateLengthFramed on the bytes fed so far; a length past 32 bits is refused. */
  method UpdateLengthFramed(fed: seq<Byte>, value: Text) returns (r: Option<seq<Byte>>)
    ensures r == if Fits(BytesOf(value)) then Some(fed + Be32(|BytesOf(value)|) + BytesOf(value)) else None
    ensures forall frames :: Carries(fed, frames) && Fits(BytesOf(value)) ==>
              r.Some? && Carries(r.value, frames + [BytesOf(value)])
  {
    var bytes := BytesOf(value);
    forall frames | Carries(fed, frames) && Fits(bytes)
      ensures Carries(fed + Be32(|bytes|) + bytes, frames + [bytes])
    {
      CarriesSnoc(fed, frames, bytes);
    }
    if |bytes| >= MAX_FRAME { return None; }
    return Some(fed + Be32(|bytes|) + bytes);
  }

  lemma FieldIsFramed(names: seq<Text>, values: seq<Text>, i: nat)
    requires |names| == |values| && i < |names|
    requires AllFit(Frames(names, values))
    ensures Fits(BytesOf(names[i])) && Fits(BytesOf(values[i]))
  {
    FrameAt(names, values, i);
  }

  lemma FedOneMore(names: seq<Text>, values: seq<Text>, i: nat)
    requires |names| == |values| && i < |names|
    requires AllFit(Frames(names[..i], values[..i])) && Fits(BytesOf(names[i])) && Fits(BytesOf(values[i]))
    ensures AllFit(Frames(names[..i + 1], values[..i + 1]))
    ensures Stream(Frames(names[..i + 1], values[..i + 1]))
              == Stream(Frames(names[..i], values[..i]))
                 + Be32(|BytesOf(names[i])|) + BytesOf(names[i]) + Be32(|BytesOf(values[i])|) + BytesOf(values[i])
  {
    FramesSnoc(names, values, i);
    var frames := Frames(names[..i], values[..i]);
    StreamSnoc(frames, BytesOf(names[i]));
    StreamSnoc(frames + [BytesOf(names[i])], BytesOf(values[i]));
  }

  /** The stream that the loop over the fields feeds, unless some field is too long. */
  method FeedFields(names: seq<Text>, values: seq<Text>) returns (r: Option<seq<Byte>>)
    requires |names| == |values|
    ensures r.Some? <==> AllFit(Frames(names, values))
    ensures r.Some? ==> r.value == Stream(Frames(names, values))
  {
    var fed: seq<Byte>, i := [], 0;
    while i < |names|
      invariant 0 <= i <= |names|
      invariant AllFit(Frames(names[..i], values[..i])) && fed == Stream(Frames(names[..i], values[..i]))
    {
      if AllFit(Frames(names, values)) { FieldIsFramed(names, values, i); }
      var name := UpdateLengthFramed(fed, names[i]);
      if name.None? { return None; }
      var value := UpdateLengthFramed(name.value, values[i]);
      if value.None? { return None; }
      FedOneMore(names, values, i);
      fed := value.value;
      i := i + 1;
    }
    assert names[..i] == names && values[..i] == values;
    return Some(fed);
  }

  /** The frames for one identity; `names` and `domain` are the script's constants. */
  function FramesOf(names: seq<Text>, domain: Text, input: Identity): seq<seq<Byte>>
    requires |names| == 14
  {
    Frames(names, [domain] + Inputs(input))
  }

  /** What is fed for one identity can be read back, frame by frame; nothing is fed when some frame is too long. */
  method FeedIdentity(names: seq<Text>, domain: Text, input: Identity) returns (r: Option<seq<Byte>>)
    requires |names| == 14
    ensures r.Some? <==> AllFit(FramesOf(names, domain, input))
    ensures r.Some? ==>
              && r.value == Stream(FramesOf(names, domain, input))
              && Unframe(r.value) == Some(FramesOf(names, domain, input))
  {
    r := FeedFields(names, [domain] + Inputs(input));
    if r.Some? { UnframeStream(FramesOf(names, domain, input)); }
  }

  lemma SameFrame(names: seq<Text>, a: seq<Text>, b: seq<Text>, i: nat)
    requires |names| == |a| == |b| && i < |names|
    requires AllFit(Frames(names, a)) && AllFit(Frames(names, b))
    requires Stream(Frames(names, a)) == Stream(Frames(names, b))
    ensures BytesOf(a[i]) == BytesOf(b[i])
  {
    UnframeStream(Frames(names, a));
    UnframeStream(Frames(names, b));
    FrameAt(names, a, i);
    FrameAt(names, b, i);
  }

  /** A text's bytes determine its scalar values, and a well-formed text altogether. */
  lemma BytesDetermineText(a: Text, b: Text)
    requires BytesOf(a) == BytesOf(b)
    ensures Scalars(a) == Scalars(b)
    ensures WellFormed(a) && WellFormed(b) ==> a == b
  {
    Utf8Injective(Scalars(a), Scalars(b));
    if WellFormed(a) && WellFormed(b) {
      UnitsOfScalars(a);
      UnitsOfScalars(b);
    }
  }

  /** Equal streams come from equal fields: value by value, the same scalar values. */
  lemma EqualFields(names: seq<Text>, a: seq<Text>, b: seq<Text>, i: nat)
    requires |names| == |a| == |b| && i < |names|
    requires AllFit(Frames(names, a)) && AllFit(Frames(names, b))
    requires Stream(Frames(names, a)) == Stream(Frames(names, b))
    ensures Scalars(a[i]) == Scalars(b[i])
    ensures WellFormed(a[i]) && WellFormed(b[i]) ==> a[i] == b[i]
  {
    SameFrame(names, a, b, i);
    BytesDetermineText(a[i], b[i]);
  }

  ghost predicate AllWellFormed(texts: seq<Text>) { forall i :: 0 <= i < |texts| ==> WellFormed(texts[i]) }

  lemma SameInput(a: Identity, b: Identity, i: nat)
    requires Inputs(a) == Inputs(b) && i < 13
    ensures Input(a, i) == Input(b, i)
  {
    assert Inputs(a)[i] == Inputs(b)[i];
  }

  lemma InputsDetermineIdentity(a: Identity, b: Identity)
    requires Inputs(a) == Inputs(b)
    ensures a == b
  {
    SameInput(a, b, 0);
    SameInput(a, b, 1);
    SameInput(a, b, 2);
    SameInput(a, b, 3);
    SameInput(a, b, 4);
    SameInput(a, b, 5);
    SameInput(a, b, 6);
    SameInput(a, b, 7);
    SameInput(a, b, 8);
    SameInput(a, b, 9);
    SameInput(a, b, 10);
    SameInput(a, b, 11);
    SameInput(a, b, 12);
  }

  /** Whatever the constant names and domain, the stream determines all thirteen inputs. */
  lemma StreamDeterminesIdentity(names: seq<Text>, domain: Text, a: Identity, b: Identity)
    requires |names| == 14 && AllWellFormed(Inputs(a)) && AllWellFormed(Inputs(b))
    requires AllFit(Frames(names, [domain] + Inputs(a))) && AllFit(Frames(names, [domain] + Inputs(b)))
    requires Stream(Frames(names, [domain] + Inputs(a))) == Stream(Frames(names, [domain] + Inputs(b)))
    ensures a == b
  {
    var u, v := Inputs(a), Inputs(b);
    SameBehindDomain(names, domain, u, v);
    InputsDetermineIdentity(a, b);
  }

  lemma SameBehindDomain(names: seq<Text>, domain: Text, u: seq<Text>, v: seq<Text>)
    requires |names| == |u| + 1 == |v| + 1 && AllWellFormed(u) && AllWellFormed(v)
    requires AllFit(Frames(names, [domain] + u)) && AllFit(Frames(names, [domain] + v))
    requires Stream(Frames(names, [domain] + u)) == Stream(Frames(names, [domain] + v))
    ensures u == v
  {
    forall i | 0 <= i < |u| ensures u[i] == v[i] {
      SameFrame(names, [domain] + u, [domain] + v, i + 1);
      BytesDetermineText(u[i], v[i]);
    }
  }
}
