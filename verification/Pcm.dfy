/**
 The audio worklet that turns floating-point samples into 16-bit PCM and posts them in chunks of 4096.
 */
module Pcm {
  import opened Seqs

  const CHUNK_SAMPLES := 4096

  function Clamp(x: real): real { if x < -1.0 then -1.0 else if x > 1.0 then 1.0 else x }

  /** Storing a number in an Int16Array: truncation toward zero, then wrapping to 16 bits. */
  function ToInt16(x: real): int {
    var truncated := if x < 0.0 then -((-x).Floor) else x.Floor;
    (truncated + 0x8000) % 0x1_0000 - 0x8000
  }

  function Convert(x: real): int {
    var s := Clamp(x);
    ToInt16(if s < 0.0 then s * 32768.0 else s * 32767.0)
  }

  function Converted(samples: seq<real>): seq<int> { Map(Convert, samples) }

  /** Before wrapping the converted sample is already a 16-bit value, so wrapping never happens. */
  lemma ConvertInRange(x: real)
    ensures -0x8000 <= Convert(x) <= 0x7FFF
    ensures var s := Clamp(x); Convert(x) == if s < 0.0 then -((-s * 32768.0).Floor) else (s * 32767.0).Floor
    ensures x <= -1.0 <==> Convert(x) == -0x8000
    ensures x >= 1.0 <==> Convert(x) == 0x7FFF
  {}

  /** Conversion keeps the order of samples and the sign, and is silent at silence. */
  lemma ConvertMonotone(x: real, y: real)
    requires x <= y
    ensures Convert(x) <= Convert(y)
    ensures x >= 0.0 ==> Convert(x) >= 0
    ensures y <= 0.0 ==> Convert(y) <= 0
  {
    ConvertInRange(x);
    ConvertInRange(y);
  }

  class PCMProcessor {
    var buffer: array<int>
    var writeIdx: nat
    /** The contents of the chunks transferred to the main thread so far. */
    var posted: seq<seq<int>>
    /** Every sample received so far. */
    ghost var received: seq<real>

    ghost predicate Valid()
      reads this, buffer
    {
      && buffer.Length == CHUNK_SAMPLES && writeIdx < CHUNK_SAMPLES
      && (forall i :: 0 <= i < |posted| ==> |posted[i]| == CHUNK_SAMPLES)
      && Flatten(posted) + buffer[..writeIdx] == Converted(received)
    }

    constructor ()
      ensures Valid() && fresh(buffer) && received == [] && posted == []
    {
      buffer := new int[CHUNK_SAMPLES](_ => 0);
      writeIdx, posted, received := 0, [], [];
    }

    /** Converts one sample, and transfers the buffer when that fills it. */
    method Store(x: real)
      requires Valid()
      modifies this, buffer
      ensures Valid() && received == old(received) + [x]
      ensures old(posted) <= posted
      ensures if posted == old(posted) then buffer == old(buffer) else fresh(buffer)
    {
      ghost var before := buffer[..writeIdx];
      buffer[writeIdx] := Convert(x);
      writeIdx := writeIdx + 1;
      received := received + [x];
      MapConcat(Convert, old(received), [x]);
      assert Converted([x]) == [Convert(x)];
      assert buffer[..writeIdx] == before + [Convert(x)];
      assert Flatten(posted) + buffer[..writeIdx] == Converted(received);
      if writeIdx == CHUNK_SAMPLES {
        assert buffer[..] == buffer[..writeIdx];
        FlattenSnoc(posted, buffer[..]);
        posted := posted + [buffer[..]];
        buffer := new int[CHUNK_SAMPLES](_ => 0);
        writeIdx := 0;
        assert buffer[..0] == [];
      }
    }

    /** One render quantum.  Nothing is lost, repeated or reordered, whatever the block's length, and a
        buffer that was transferred is never written again. */
    method Process(inputs: seq<seq<seq<real>>>) returns (alive: bool)
      requires Valid()
      modifies this, buffer
      ensures Valid() && alive
      ensures received == old(received) + FirstChannel(inputs)
      ensures old(posted) <= posted
      ensures |posted| == |received| / 4096 && writeIdx == |received| % 4096
      ensures forall i :: 0 <= i < |posted| ==> |posted[i]| == 4096
      ensures if posted == old(posted) then buffer == old(buffer) else fresh(buffer)
    {
      alive := true;
      CountPosted(posted, |Converted(received)|, writeIdx);
      if inputs == [] || inputs[0] == [] { return; }
      var channel := inputs[0][0];
      for i := 0 to |channel|
        invariant Valid() && received == old(received) + channel[..i]
        invariant old(posted) <= posted
        invariant if posted == old(posted) then buffer == old(buffer) else fresh(buffer)
      {
        Store(channel[i]);
        TakeSnoc(channel, i);
      }
      TakeAll(channel);
      CountPosted(posted, |Converted(received)|, writeIdx);
    }
  }

  lemma FlattenSnoc(posted: seq<seq<int>>, chunk: seq<int>)
    ensures Flatten(posted + [chunk]) == Flatten(posted) + chunk
  {
    FlattenConcat(posted, [chunk]);
    assert Flatten([chunk]) == chunk;
  }

  /** What `inputs[0][0]` offers; a missing input or channel offers nothing. */
  function FirstChannel(inputs: seq<seq<seq<real>>>): seq<real> {
    if inputs == [] || inputs[0] == [] then [] else inputs[0][0]
  }

  lemma {:induction false} FlattenLength(posted: seq<seq<int>>)
    requires forall i :: 0 <= i < |posted| ==> |posted[i]| == CHUNK_SAMPLES
    ensures |Flatten(posted)| == |posted| * CHUNK_SAMPLES
  {
    if posted != [] { FlattenLength(posted[1..]); }
  }

  lemma CountPosted(posted: seq<seq<int>>, total: nat, partial: nat)
    requires forall i :: 0 <= i < |posted| ==> |posted[i]| == CHUNK_SAMPLES
    requires partial < CHUNK_SAMPLES && total == |Flatten(posted)| + partial
    ensures |posted| == total / CHUNK_SAMPLES && partial == total % CHUNK_SAMPLES
  {
    FlattenLength(posted);
  }
}
