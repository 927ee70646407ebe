/** Which episodes stand for a season in intro detection, and the bytes their fingerprint is taken of. */
module IntroFingerprint {
  import opened Sequences
  import opened Wrappers

  const MAX_SAMPLED_EPISODES: nat := 8

  type Byte = x: int | 0 <= x < 256
  type I32 = x: int | -0x8000_0000 <= x < 0x8000_0000
  type I64 = x: int | -0x8000_0000_0000_0000 <= x < 0x8000_0000_0000_0000

  /** Texts are their UTF-8 bytes. */
  type Bytes = seq<Byte>

  datatype Input = Input(
    seasonId: I64, episodeNumber: I32, mediaFileId: I64, fileSize: I64,
    durationSeconds: Option<I32>, filePath: Bytes, scanHash: Option<Bytes>)

  // ---- sampling ----

  /** The `k`-th of eight positions among `count`. */
  function SampleIndex(k: nat, count: nat): nat
    requires count > 0
  {
    (k * (count - 1) + (MAX_SAMPLED_EPISODES - 1) / 2) / (MAX_SAMPLED_EPISODES - 1)
  }

  /** The nearest index to an even spacing; no other index is as near. */
  lemma SampleIndexIsNearest(k: nat, count: nat, other: int)
    requires count > 0
    ensures -3 <= 7 * SampleIndex(k, count) - k * (count - 1) <= 3
    ensures other != SampleIndex(k, count) ==> 7 * other - k * (count - 1) > 3 || 7 * other - k * (count - 1) < -3
  {
  }

  lemma SampleIndexGrows(k: nat, count: nat)
    requires count > MAX_SAMPLED_EPISODES
    ensures SampleIndex(k, count) < SampleIndex(k + 1, count)
  {
    assert (k + 1) * (count - 1) == k * (count - 1) + (count - 1);
    SampleIndexIsNearest(k, count, 0);
    SampleIndexIsNearest(k + 1, count, 0);
  }

  lemma {:induction false} SampleIndicesIncrease(j: nat, k: nat, count: nat)
    requires count > MAX_SAMPLED_EPISODES && j < k
    ensures SampleIndex(j, count) < SampleIndex(k, count)
    decreases k
  {
    if j < k - 1 {
      SampleIndicesIncrease(j, k - 1, count);
    }
    SampleIndexGrows(k - 1, count);
  }

  lemma SampleEnds(count: nat)
    requires count > 0
    ensures SampleIndex(0, count) == 0 && SampleIndex(7, count) == count - 1
  {
  }

  lemma SampleIndexInRange(k: nat, count: nat)
    requires k < MAX_SAMPLED_EPISODES < count
    ensures SampleIndex(k, count) < count
  {
    SampleEnds(count);
    if k < 7 {
      SampleIndicesIncrease(k, 7, count);
    }
  }

  function Representatives<T>(inputs: seq<T>): seq<T> {
    if |inputs| <= MAX_SAMPLED_EPISODES then inputs
    else
      seq(MAX_SAMPLED_EPISODES, k requires 0 <= k < MAX_SAMPLED_EPISODES =>
        (SampleIndexInRange(k, |inputs|); inputs[SampleIndex(k, |inputs|)]))
  }

  /** A longer season is sampled from its first episode to its last, in order, never twice. */
  lemma RepresentativesSpanTheSeason<T>(inputs: seq<T>)
    requires |inputs| > MAX_SAMPLED_EPISODES
    ensures |Representatives(inputs)| == MAX_SAMPLED_EPISODES
    ensures Representatives(inputs)[0] == inputs[0]
    ensures Representatives(inputs)[7] == inputs[|inputs| - 1]
    ensures forall k | 0 <= k < MAX_SAMPLED_EPISODES ::
              SampleIndex(k, |inputs|) < |inputs| && Representatives(inputs)[k] == inputs[SampleIndex(k, |inputs|)]
    ensures forall j, k | 0 <= j < k < MAX_SAMPLED_EPISODES :: SampleIndex(j, |inputs|) < SampleIndex(k, |inputs|)
  {
    SampleEnds(|inputs|);
    forall k | 0 <= k < MAX_SAMPLED_EPISODES
      ensures SampleIndex(k, |inputs|) < |inputs|
    {
      SampleIndexInRange(k, |inputs|);
    }
    forall j, k | 0 <= j < k < MAX_SAMPLED_EPISODES
      ensures SampleIndex(j, |inputs|) < SampleIndex(k, |inputs|)
    {
      SampleIndicesIncrease(j, k, |inputs|);
    }
  }

  // ---- little-endian numbers ----

  function Size(width: nat): nat {
    if width == 0 then 1 else 256 * Size(width - 1)
  }

  function Little(value: nat, width: nat): (bytes: Bytes)
    ensures |bytes| == width
  {
    if width == 0 then [] else [value % 256] + Little(value / 256, width - 1)
  }

  function ReadLittle(bytes: Bytes, width: nat): nat
    requires width <= |bytes|
  {
    if width == 0 then 0 else bytes[0] + 256 * ReadLittle(bytes[1..], width - 1)
  }

  lemma {:induction false} LittleReadsBack(value: nat, width: nat, rest: Bytes)
    requires value < Size(width)
    ensures ReadLittle(Little(value, width) + rest, width) == value
    ensures (Little(value, width) + rest)[width..] == rest
  {
    if width > 0 {
      LittleReadsBack(value / 256, width - 1, rest);
      assert (Little(value, width) + rest)[1..] == Little(value / 256, width - 1) + rest;
    }
  }

  lemma Sizes()
    ensures Size(4) == 0x1_0000_0000 && Size(8) == 0x1_0000_0000_0000_0000
  {
    assert Size(2) == 0x1_0000;
    assert Size(4) == 0x1_0000 * Size(2);
    assert Size(6) == 0x1_0000 * Size(4);
    assert Size(8) == 0x1_0000 * Size(6);
  }

  /** Two's complement. */
  function Unsigned(value: int, width: nat): int {
    if value < 0 then value + Size(width) else value
  }

  function Signed(value: int, width: nat): int {
    if 2 * value >= Size(width) then value - Size(width) else value
  }

  // ---- the stream ----

  /** What the stream keeps of an input: a missing duration is -1 and a missing hash is empty. */
  datatype Canonical = Canonical(
    seasonId: I64, episodeNumber: I32, mediaFileId: I64, fileSize: I64, duration: I32, filePath: Bytes, scanHash: Bytes)

  function CanonicalOf(input: Input): Canonical {
    Canonical(input.seasonId, input.episodeNumber, input.mediaFileId, input.fileSize,
              if input.durationSeconds.Some? then input.durationSeconds.value else -1,
              input.filePath, if input.scanHash.Some? then input.scanHash.value else [])
  }

  function CanonicalList(inputs: seq<Input>): seq<Canonical> {
    seq(|inputs|, i requires 0 <= i < |inputs| => CanonicalOf(inputs[i]))
  }

  function Number64(value: I64): Bytes {
    Sizes();
    Little(Unsigned(value, 8), 8)
  }

  function Number32(value: I32): Bytes {
    Sizes();
    Little(Unsigned(value, 4), 4)
  }

  function Text(value: Bytes): Bytes {
    Little(|value|, 8) + value
  }

  function One(c: Canonical): Bytes {
    Number64(c.seasonId) + (Number32(c.episodeNumber) + (Number64(c.mediaFileId) + (Number64(c.fileSize)
      + (Number32(c.duration) + (Text(c.filePath) + Text(c.scanHash))))))
  }

  function Code(): Canonical -> Bytes {
    (c: Canonical) => One(c)
  }

  function Many(inputs: seq<Canonical>): Bytes {
    Gather(inputs, Code())
  }

  function Stream(inputs: seq<Input>): Bytes {
    Little(|inputs|, 8) + Many(CanonicalList(inputs))
  }

  /** The byte `k` places above the lowest. */
  ghost function ByteAt(value: nat, k: nat): Byte {
    if k == 0 then value % 256 else ByteAt(value / 256, k - 1)
  }

  lemma {:induction false} LittleBytes(value: nat, width: nat, k: nat)
    requires k < width
    ensures Little(value, width)[k] == ByteAt(value, k)
  {
    if k > 0 {
      LittleBytes(value / 256, width - 1, k - 1);
    }
  }

  /** Numbers are written in two's complement, least byte first. */
  lemma NumberBytes(value: I64, k: nat)
    requires k < 8
    ensures var unsigned := if value < 0 then value + 0x1_0000_0000_0000_0000 else value;
            Number64(value)[k] == ByteAt(unsigned, k)
  {
    Sizes();
    LittleBytes(Unsigned(value, 8), 8, k);
  }

  lemma ShortNumberBytes(value: I32, k: nat)
    requires k < 4
    ensures var unsigned := if value < 0 then value + 0x1_0000_0000 else value;
            Number32(value)[k] == ByteAt(unsigned, k)
  {
    Sizes();
    LittleBytes(Unsigned(value, 4), 4, k);
  }

  /** `bytes` begins with `front` and goes on with `rest`. */
  ghost predicate Begins(bytes: Bytes, front: Bytes, rest: Bytes) {
    |front| <= |bytes| && bytes[..|front|] == front && bytes[|front|..] == rest
  }

  lemma JoinBegins(front: Bytes, rest: Bytes)
    ensures Begins(front + rest, front, rest)
  {
  }

  /** Everything about an input stands in its code, one after the other; a text comes after its length. */
  lemma CodeLayout(c: Canonical) returns (a: Bytes, b: Bytes, d: Bytes, e: Bytes, f: Bytes, g: Bytes)
    ensures Begins(One(c), Number64(c.seasonId), a) && Begins(a, Number32(c.episodeNumber), b)
    ensures Begins(b, Number64(c.mediaFileId), d) && Begins(d, Number64(c.fileSize), e)
    ensures Begins(e, Number32(c.duration), f) && Begins(f, Little(|c.filePath|, 8) + c.filePath, g)
    ensures Begins(g, Little(|c.scanHash|, 8), c.scanHash)
  {
    g := Text(c.scanHash);
    f := Text(c.filePath) + g;
    e := Number32(c.duration) + f;
    d := Number64(c.fileSize) + e;
    b := Number64(c.mediaFileId) + d;
    a := Number32(c.episodeNumber) + b;
    JoinBegins(Number64(c.seasonId), a);
    JoinBegins(Number32(c.episodeNumber), b);
    JoinBegins(Number64(c.mediaFileId), d);
    JoinBegins(Number64(c.fileSize), e);
    JoinBegins(Number32(c.duration), f);
    JoinBegins(Text(c.filePath), g);
    JoinBegins(Little(|c.scanHash|, 8), c.scanHash);
  }

  /** Lengths are 64-bit counts. */
  ghost predicate Fits(inputs: seq<Input>) {
    && |inputs| < Size(8)
    && forall i | 0 <= i < |inputs| :: FitsOne(CanonicalOf(inputs[i]))
  }

  ghost predicate FitsOne(c: Canonical) {
    |c.filePath| < Size(8) && |c.scanHash| < Size(8)
  }

  lemma Regroup(start: Bytes, a: Bytes, b: Bytes, rest: Bytes)
    ensures ((start + a) + b) + rest == start + (a + (b + rest))
    ensures start + (a + b) == (start + a) + b
  {
  }

  method FeedInput(fed: Bytes, input: Input) returns (next: Bytes)
    ensures next == fed + Code()(CanonicalOf(input))
  {
    var path, hash := Text(input.filePath), Text(if input.scanHash.Some? then input.scanHash.value else []);
    var duration := Number32(if input.durationSeconds.Some? then input.durationSeconds.value else -1);
    next := fed + Number64(input.seasonId);
    next := next + Number32(input.episodeNumber);
    ghost var first := next;
    next := next + Number64(input.mediaFileId);
    next := next + Number64(input.fileSize);
    ghost var second := next;
    next := next + duration;
    next := next + path;
    next := next + hash;
    Regroup(second, duration, path, hash);
    Regroup(first, Number64(input.mediaFileId), Number64(input.fileSize), duration + (path + hash));
    Regroup(fed, Number64(input.seasonId), Number32(input.episodeNumber),
            Number64(input.mediaFileId) + (Number64(input.fileSize) + (duration + (path + hash))));
  }

  lemma CanonicalNext(inputs: seq<Input>, input: Input)
    ensures CanonicalList(inputs + [input]) == CanonicalList(inputs) + [CanonicalOf(input)]
  {
  }

  /** What has been fed after the first `i` inputs. */
  ghost function FedAfter(inputs: seq<Input>, i: nat): Bytes
    requires i <= |inputs|
  {
    Little(|inputs|, 8) + Many(CanonicalList(inputs[..i]))
  }

  lemma FedNext(inputs: seq<Input>, i: nat)
    requires i < |inputs|
    ensures FedAfter(inputs, i + 1) == FedAfter(inputs, i) + Code()(CanonicalOf(inputs[i]))
  {
    assert inputs[..i + 1] == inputs[..i] + [inputs[i]];
    CanonicalNext(inputs[..i], inputs[i]);
    GatherNext(CanonicalList(inputs[..i]), Code(), CanonicalOf(inputs[i]));
  }

  method FeedHasher(inputs: seq<Input>) returns (fed: Bytes)
    ensures fed == Stream(inputs)
  {
    fed := Little(|inputs|, 8);
    for i := 0 to |inputs|
      invariant fed == FedAfter(inputs, i)
    {
      FedNext(inputs, i);
      fed := FeedInput(fed, inputs[i]);
    }
    assert inputs[..|inputs|] == inputs;
  }

  // ---- reading the stream back ----

  function Signed64(bytes: Bytes): int
    requires |bytes| >= 8
  {
    Signed(ReadLittle(bytes, 8), 8)
  }

  function Signed32(bytes: Bytes): int
    requires |bytes| >= 4
  {
    Signed(ReadLittle(bytes, 4), 4)
  }

  lemma Number64ReadsBack(value: I64, rest: Bytes)
    ensures Signed64(Number64(value) + rest) == value && (Number64(value) + rest)[8..] == rest
  {
    Sizes();
    LittleReadsBack(Unsigned(value, 8), 8, rest);
  }

  lemma Number32ReadsBack(value: I32, rest: Bytes)
    ensures Signed32(Number32(value) + rest) == value && (Number32(value) + rest)[4..] == rest
  {
    Sizes();
    LittleReadsBack(Unsigned(value, 4), 4, rest);
  }

  lemma TextReadsBack(value: Bytes, rest: Bytes)
    requires |value| < Size(8)
    ensures ReadLittle(Text(value) + rest, 8) == |value|
    ensures (Text(value) + rest)[8..] == value + rest
  {
    var length := Little(|value|, 8);
    assert Text(value) + rest == length + (value + rest);
    LittleReadsBack(|value|, 8, value + rest);
  }

  /** Streams that begin with equal-looking parts have equal parts. */
  lemma SameNumber64(a: I64, b: I64, x: Bytes, y: Bytes)
    requires Number64(a) + x == Number64(b) + y
    ensures a == b && x == y
  {
    Number64ReadsBack(a, x);
    Number64ReadsBack(b, y);
  }

  lemma SameNumber32(a: I32, b: I32, x: Bytes, y: Bytes)
    requires Number32(a) + x == Number32(b) + y
    ensures a == b && x == y
  {
    Number32ReadsBack(a, x);
    Number32ReadsBack(b, y);
  }

  lemma SameText(a: Bytes, b: Bytes, x: Bytes, y: Bytes)
    requires |a| < Size(8) && |b| < Size(8) && Text(a) + x == Text(b) + y
    ensures a == b && x == y
  {
    TextReadsBack(a, x);
    TextReadsBack(b, y);
    assert a + x == b + y && |a| == |b|;
    assert a == (a + x)[..|a|] && b == (b + y)[..|a|];
    assert x == (a + x)[|a|..] && y == (b + y)[|a|..];
  }

  lemma OneIsSplit(c: Canonical, rest: Bytes)
    ensures One(c) + rest ==
            Number64(c.seasonId) + (Number32(c.episodeNumber) + (Number64(c.mediaFileId) + (Number64(c.fileSize)
            + (Number32(c.duration) + (Text(c.filePath) + (Text(c.scanHash) + rest))))))
  {
    var texts := Text(c.filePath) + Text(c.scanHash);
    var tail := Number32(c.duration) + texts;
    var middle := Number64(c.fileSize) + tail;
    var body := Number64(c.mediaFileId) + middle;
    var most := Number32(c.episodeNumber) + body;
    assert One(c) + rest == Number64(c.seasonId) + (most + rest);
    assert most + rest == Number32(c.episodeNumber) + (body + rest);
    assert body + rest == Number64(c.mediaFileId) + (middle + rest);
    assert middle + rest == Number64(c.fileSize) + (tail + rest);
    assert tail + rest == Number32(c.duration) + (texts + rest);
    assert texts + rest == Text(c.filePath) + (Text(c.scanHash) + rest);
  }

  lemma SameOne(a: Canonical, b: Canonical, x: Bytes, y: Bytes)
    requires FitsOne(a) && FitsOne(b) && One(a) + x == One(b) + y
    ensures a == b && x == y
  {
    OneIsSplit(a, x);
    OneIsSplit(b, y);
    var a6, b6 := Text(a.scanHash) + x, Text(b.scanHash) + y;
    var a5, b5 := Text(a.filePath) + a6, Text(b.filePath) + b6;
    var a4, b4 := Number32(a.duration) + a5, Number32(b.duration) + b5;
    var a3, b3 := Number64(a.fileSize) + a4, Number64(b.fileSize) + b4;
    var a2, b2 := Number64(a.mediaFileId) + a3, Number64(b.mediaFileId) + b3;
    var a1, b1 := Number32(a.episodeNumber) + a2, Number32(b.episodeNumber) + b2;
    SameNumber64(a.seasonId, b.seasonId, a1, b1);
    SameNumber32(a.episodeNumber, b.episodeNumber, a2, b2);
    SameNumber64(a.mediaFileId, b.mediaFileId, a3, b3);
    SameNumber64(a.fileSize, b.fileSize, a4, b4);
    SameNumber32(a.duration, b.duration, a5, b5);
    SameText(a.filePath, b.filePath, a6, b6);
    SameText(a.scanHash, b.scanHash, x, y);
  }

  function Allowed(): Canonical -> bool {
    (c: Canonical) => |c.filePath| < Size(8) && |c.scanHash| < Size(8)
  }

  lemma CodeIsPrefixCode()
    ensures IsPrefixCode(Code(), Allowed())
  {
    forall a, b, x, y | Allowed()(a) && Allowed()(b) && Code()(a) + x == Code()(b) + y
      ensures a == b && x == y
    {
      SameOne(a, b, x, y);
    }
  }

  lemma SameMany(a: seq<Canonical>, b: seq<Canonical>)
    requires |a| == |b| && Many(a) == Many(b)
    requires forall i | 0 <= i < |a| :: Allowed()(a[i]) && Allowed()(b[i])
    ensures a == b
  {
    CodeIsPrefixCode();
    PrefixCodeDetermines(a, b, Code(), Allowed());
  }

  /** The stream can be read back: two lists of inputs give one stream exactly when they are canonically the same. */
  lemma StreamDeterminesInputs(a: seq<Input>, b: seq<Input>)
    requires Fits(a) && Fits(b)
    ensures Stream(a) == Stream(b) <==> CanonicalList(a) == CanonicalList(b)
  {
    if Stream(a) == Stream(b) {
      LittleReadsBack(|a|, 8, Many(CanonicalList(a)));
      LittleReadsBack(|b|, 8, Many(CanonicalList(b)));
      SameMany(CanonicalList(a), CanonicalList(b));
    } else if |a| == |b| {
      assert Many(CanonicalList(a)) != Many(CanonicalList(b));
    } else {
      assert |CanonicalList(a)| != |CanonicalList(b)|;
    }
  }

  /** Equal, or one missing and the other what stands for a missing one. */
  predicate Confused<T(==)>(a: Option<T>, b: Option<T>, standIn: T) {
    a == b || (a.None? && b == Some(standIn)) || (a == Some(standIn) && b.None?)
  }

  /** Only these inputs share a canonical form: a duration of -1 or none, an empty hash or none. */
  lemma SameCanonicalInput(a: Input, b: Input)
    ensures CanonicalOf(a) == CanonicalOf(b) <==>
            && a.(durationSeconds := b.durationSeconds, scanHash := b.scanHash) == b
            && Confused(a.durationSeconds, b.durationSeconds, -1)
            && Confused(a.scanHash, b.scanHash, [])
  {
  }
}
