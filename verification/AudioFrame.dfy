/**
  AudioFrame: a fixed array of interleaved samples that frames are appended to, mixed into and
  subtracted from, with the voice activity and speech type that result.
 */
module AudioFrames {

  newtype int16 = x: int | -0x8000 <= x < 0x8000

  const MAX_DATA_SIZE_SAMPLES: nat := 3840
  const NO_ENERGY: int := 0xffffffff

  datatype VadActivity = VadActive | VadPassive | VadUnknown
  datatype SpeechType = NormalSpeech | PLC | CNG | PLCCNG | Undefined

  function ClampToInt16(input: int): int16 {
    if input < -0x8000 then -0x8000
    else if input > 0x7FFF then 0x7FFF
    else input as int16
  }

  predicate Fits(input: int) {
    -0x8000 <= input <= 0x7FFF
  }

  /** Samples in use: samples per channel times channels, for the one or two channels supported. */
  function Count(samplesPerChannel: nat, channels: int): (n: nat)
    ensures 1 <= channels <= 2 ==> n == samplesPerChannel * channels
  {
    if channels == 1 then samplesPerChannel else if channels == 2 then 2 * samplesPerChannel else 0
  }

  // ---------------------------------------------------------------- frames as values

  /** The part of a frame that is read and written here; samples are the used part of the array. */
  datatype Frame = Frame(samples: seq<int16>, samplesPerChannel: nat, channels: int,
                         speech: SpeechType, vad: VadActivity, energy: int)
  {
    predicate Valid() {
      |samples| == Count(samplesPerChannel, channels)
    }

    predicate SameShape(other: Frame) {
      1 <= channels <= 2 && channels == other.channels && samplesPerChannel == other.samplesPerChannel
    }
  }

  function MergeVad(a: VadActivity, b: VadActivity): VadActivity {
    if a == VadActive || b == VadActive then VadActive
    else if a == VadUnknown || b == VadUnknown then VadUnknown
    else a
  }

  function MergeSpeech(a: SpeechType, b: SpeechType): SpeechType {
    if a != b then Undefined else a
  }

  function Mix(a: seq<int16>, b: seq<int16>): seq<int16>
    requires |a| == |b|
  {
    seq(|a|, i requires 0 <= i < |a| => ClampToInt16(a[i] as int + b[i] as int))
  }

  function Unmix(a: seq<int16>, b: seq<int16>): seq<int16>
    requires |a| == |b|
  {
    seq(|a|, i requires 0 <= i < |a| => ClampToInt16(a[i] as int - b[i] as int))
  }

  function Appended(f: Frame, g: Frame): Frame
    requires f.Valid() && g.Valid()
  {
    if f.channels > 2 || f.channels < 1 || f.channels != g.channels then f
    else f.(samples := f.samples + g.samples, samplesPerChannel := f.samplesPerChannel + g.samplesPerChannel,
            vad := MergeVad(f.vad, g.vad), speech := MergeSpeech(f.speech, g.speech))
  }

  function Added(f: Frame, g: Frame): Frame
    requires f.Valid() && g.Valid()
  {
    if f.channels > 2 || f.channels < 1 || f.channels != g.channels then f
    else if f.samplesPerChannel != g.samplesPerChannel && f.samplesPerChannel != 0 then f
    else
      var samples := if f.samplesPerChannel != g.samplesPerChannel then g.samples else Mix(f.samples, g.samples);
      f.(samples := samples, samplesPerChannel := g.samplesPerChannel,
         vad := MergeVad(f.vad, g.vad), speech := MergeSpeech(f.speech, g.speech), energy := NO_ENERGY)
  }

  function Subtracted(f: Frame, g: Frame): Frame
    requires f.Valid() && g.Valid()
  {
    if f.channels > 2 || f.channels < 1 || f.samplesPerChannel != g.samplesPerChannel || f.channels != g.channels then f
    else
      f.(samples := Unmix(f.samples, g.samples), speech := Undefined, energy := NO_ENERGY,
         vad := if f.vad != VadPassive || g.vad != VadPassive then VadUnknown else f.vad)
  }

  // ---------------------------------------------------------------- what the operations mean

  /** One channel of interleaved samples, n of them. */
  function Channel(samples: seq<int16>, n: nat, channels: int, c: nat): seq<int16>
    requires 1 <= channels <= 2 && c < channels && |samples| == Count(n, channels)
  {
    seq(n, i requires 0 <= i < n => samples[Count(i, channels) + c])
  }

  /** Appending concatenates channel by channel. */
  lemma AppendConcatenatesChannels(f: Frame, g: Frame, c: nat)
    requires f.Valid() && g.Valid() && 1 <= f.channels <= 2 && f.channels == g.channels && c < f.channels
    ensures var a := Appended(f, g);
      a.Valid() && a.channels == f.channels &&
      Channel(a.samples, a.samplesPerChannel, f.channels, c)
      == Channel(f.samples, f.samplesPerChannel, f.channels, c) + Channel(g.samples, g.samplesPerChannel, f.channels, c)
  {
    var a, n, ch := Appended(f, g), f.samplesPerChannel, f.channels;
    forall i | 0 <= i < a.samplesPerChannel
      ensures Channel(a.samples, a.samplesPerChannel, ch, c)[i]
           == (Channel(f.samples, n, ch, c) + Channel(g.samples, g.samplesPerChannel, ch, c))[i]
    {
      if i >= n {
        assert Count(i, ch) == Count(n, ch) + Count(i - n, ch);
      }
    }
  }

  /** Clamping gives the 16-bit sample nearest to the true value. */
  lemma ClampIsNearest(input: int, x: int16)
    ensures var c := ClampToInt16(input) as int;
      (if input < c then c - input else input - c) <= (if input < x as int then x as int - input else input - x as int)
  {
  }

  /** Mixing frames of the same shape does not depend on their order, in any field. */
  lemma AddIsCommutative(f: Frame, g: Frame)
    requires f.Valid() && g.Valid() && f.SameShape(g)
    ensures Added(f, g).Valid() && Added(f, g) == Added(g, f)
  {
    assert Mix(f.samples, g.samples) == Mix(g.samples, f.samples);
  }

  /** Subtracting restores a sample exactly when the sum needed no clamping. */
  lemma SubtractRestoresExactly(f: Frame, g: Frame, i: nat)
    requires f.Valid() && g.Valid() && f.SameShape(g) && i < |f.samples|
    ensures |Subtracted(Added(f, g), g).samples| == |f.samples|
    ensures Subtracted(Added(f, g), g).samples[i] == f.samples[i] <==> Fits(f.samples[i] as int + g.samples[i] as int)
  {
  }

  /** The samples of which a sum that clamps is not driven back by the third. */
  predicate Associates(a: int16, b: int16, c: int16) {
    var x, y, z := a as int, b as int, c as int;
    (x + y > 0x7FFF ==> z >= 0) && (x + y < -0x8000 ==> z <= 0) &&
    (y + z > 0x7FFF ==> x >= 0) && (y + z < -0x8000 ==> x <= 0)
  }

  /** Three samples mix to the same value either way round exactly when they associate. */
  lemma MixIsAssociativeExactly(a: int16, b: int16, c: int16)
    ensures (ClampToInt16(ClampToInt16(a as int + b as int) as int + c as int)
             == ClampToInt16(a as int + ClampToInt16(b as int + c as int) as int))
       <==> Associates(a, b, c)
  {
  }

  /** In particular when no sum of neighbours clamps. */
  lemma MixIsAssociativeWithoutClamping(a: int16, b: int16, c: int16)
    requires Fits(a as int + b as int) && Fits(b as int + c as int)
    ensures ClampToInt16(ClampToInt16(a as int + b as int) as int + c as int)
         == ClampToInt16(a as int + ClampToInt16(b as int + c as int) as int)
  {
    MixIsAssociativeExactly(a, b, c);
  }

  /** Mixing three frames of one shape does not depend on grouping, in any field, exactly when all their samples do. */
  lemma AddIsAssociativeExactly(f: Frame, g: Frame, h: Frame)
    requires f.Valid() && g.Valid() && h.Valid() && f.SameShape(g) && f.SameShape(h)
    ensures Added(f, g).Valid() && Added(g, h).Valid()
    ensures Added(Added(f, g), h) == Added(f, Added(g, h))
       <==> forall i :: 0 <= i < |f.samples| ==> Associates(f.samples[i], g.samples[i], h.samples[i])
  {
    var l, r := Added(Added(f, g), h), Added(f, Added(g, h));
    assert l == r.(samples := l.samples);
    forall i | 0 <= i < |f.samples|
      ensures l.samples[i] == r.samples[i] <==> Associates(f.samples[i], g.samples[i], h.samples[i])
    {
      MixIsAssociativeExactly(f.samples[i], g.samples[i], h.samples[i]);
    }
    assert |l.samples| == |r.samples| == |f.samples|;
    if forall i :: 0 <= i < |f.samples| ==> Associates(f.samples[i], g.samples[i], h.samples[i]) {
      assert l.samples == r.samples;
    }
  }

  /** It may depend on it: a sum that clamps and is then driven back. */
  lemma MixMayNotAssociate()
    ensures ClampToInt16(ClampToInt16(0x7FFF + 1) as int + -1) == 0x7FFE
    ensures ClampToInt16(0x7FFF + ClampToInt16(1 + -1) as int) == 0x7FFF
    ensures !Associates(0x7FFF, 1, -1) && Associates(0x7FFF, 0x7FFF, 0x7FFF)
  {
  }

  // ---------------------------------------------------------------- the fields one by one

  /** A sample in 16 bits: the sum or difference itself, or the bound it runs past. */
  predicate IsCut(value: int, sample: int) {
    (value > 32767 ==> sample == 32767) && (value < -32768 ==> sample == -32768) &&
    (-32768 <= value <= 32767 ==> sample == value)
  }

  /** Mixing and subtracting work sample by sample and keep the shape. */
  lemma SamplesAreCut(f: Frame, g: Frame, i: nat)
    requires f.Valid() && g.Valid() && f.SameShape(g) && i < |f.samples|
    ensures var a, s := Added(f, g), Subtracted(f, g);
      |a.samples| == |s.samples| == |f.samples| && a.SameShape(f) && s.SameShape(f) &&
      IsCut(f.samples[i] as int + g.samples[i] as int, a.samples[i] as int) &&
      IsCut(f.samples[i] as int - g.samples[i] as int, s.samples[i] as int)
  {
  }

  /** What one frame leaves of two states, by appending or mixing it: all fields but the samples. */
  predicate StatesMerged(f: Frame, g: Frame, r: Frame) {
    r.channels == f.channels &&
    r.vad == (if f.vad == VadActive || g.vad == VadActive then VadActive
              else if f.vad == VadUnknown || g.vad == VadUnknown then VadUnknown
              else VadPassive) &&
    r.speech == if f.speech == g.speech then f.speech else Undefined
  }

  /** Appending merges the states, adds up the lengths and keeps the energy; other channels change nothing. */
  lemma AppendedFields(f: Frame, g: Frame)
    requires f.Valid() && g.Valid()
    ensures var r := Appended(f, g);
      if (f.channels == 1 || f.channels == 2) && f.channels == g.channels then
        StatesMerged(f, g, r) && r.samples == f.samples + g.samples && r.energy == f.energy
        && r.samplesPerChannel == f.samplesPerChannel + g.samplesPerChannel
      else r == f
  {
  }

  /**
    Mixing merges the states and resets the energy. Into an empty frame the other's samples are copied; a
    frame of other channels, or of another length than one that is not empty, changes nothing.
   */
  lemma AddedFields(f: Frame, g: Frame)
    requires f.Valid() && g.Valid()
    ensures var r := Added(f, g);
      if (f.channels == 1 || f.channels == 2) && f.channels == g.channels
        && (f.samplesPerChannel == g.samplesPerChannel || f.samplesPerChannel == 0)
      then StatesMerged(f, g, r) && r.energy == 0xFFFF_FFFF && r.samplesPerChannel == g.samplesPerChannel
        && (f.samplesPerChannel == 0 ==> r.samples == g.samples)
      else r == f
  {
    if f.samplesPerChannel == 0 && g.samplesPerChannel == 0 && 1 <= f.channels <= 2 {
      assert f.samples == [] && g.samples == [];
    }
  }

  /**
    Subtracting leaves the activity passive only if both were, and unknown otherwise, the speech type
    undefined and the energy reset; a frame of another shape changes nothing.
   */
  lemma SubtractedFields(f: Frame, g: Frame)
    requires f.Valid() && g.Valid()
    ensures var r := Subtracted(f, g);
      if (f.channels == 1 || f.channels == 2) && f.channels == g.channels && f.samplesPerChannel == g.samplesPerChannel
      then r.vad == (if f.vad == VadPassive && g.vad == VadPassive then VadPassive else VadUnknown)
        && r.speech == Undefined && r.energy == 0xFFFF_FFFF && r.channels == f.channels
        && r.samplesPerChannel == f.samplesPerChannel
      else r == f
  {
  }

  // ---------------------------------------------------------------- many frames

  ghost predicate Alike(first: Frame, rest: seq<Frame>) {
    first.Valid() && forall f <- rest :: f.Valid() && first.SameShape(f)
  }

  lemma AlikeStep(first: Frame, rest: seq<Frame>)
    requires Alike(first, rest) && rest != []
    ensures rest[0].Valid() && Alike(Added(first, rest[0]), rest[1..])
  {
    assert rest[0] in rest && forall f <- rest[1..] :: f in rest;
  }

  /** Frames mixed into the first one after the other. */
  ghost function FoldAdded(first: Frame, rest: seq<Frame>): Frame
    requires Alike(first, rest)
    decreases |rest|
  {
    if rest == [] then first else
      AlikeStep(first, rest);
      FoldAdded(Added(first, rest[0]), rest[1..])
  }

  predicate Shows(first: Frame, rest: seq<Frame>, vad: VadActivity) {
    first.vad == vad || exists i :: 0 <= i < |rest| && rest[i].vad == vad
  }

  lemma ShowsStep(first: Frame, next: Frame, rest: seq<Frame>, vad: VadActivity)
    ensures Shows(first, [next] + rest, vad) <==> first.vad == vad || Shows(next, rest, vad)
  {
    var all := [next] + rest;
    assert all[0] == next && forall i :: 0 <= i < |rest| ==> all[i + 1] == rest[i];
    if Shows(next, rest, vad) && next.vad != vad {
      var i :| 0 <= i < |rest| && rest[i].vad == vad;
      assert all[i + 1].vad == vad;
    }
  }

  /** The activity of many frames mixed: active if any is, else unknown if any is, whatever their order. */
  lemma {:induction false} FoldVadIsOrderFree(first: Frame, rest: seq<Frame>)
    requires Alike(first, rest)
    ensures FoldAdded(first, rest).vad ==
      if Shows(first, rest, VadActive) then VadActive
      else if Shows(first, rest, VadUnknown) then VadUnknown
      else VadPassive
    decreases |rest|
  {
    if rest != [] {
      AlikeStep(first, rest);
      var mixed := Added(first, rest[0]);
      FoldVadIsOrderFree(mixed, rest[1..]);
      assert rest == [rest[0]] + rest[1..];
      ShowsStep(first, rest[0], rest[1..], VadActive);
      ShowsStep(first, rest[0], rest[1..], VadUnknown);
    }
  }

  /** The speech type of many frames mixed is their common one, or undefined, whatever their order. */
  lemma {:induction false} FoldSpeechIsOrderFree(first: Frame, rest: seq<Frame>)
    requires Alike(first, rest)
    ensures FoldAdded(first, rest).speech ==
      if forall i :: 0 <= i < |rest| ==> rest[i].speech == first.speech then first.speech else Undefined
    decreases |rest|
  {
    if rest != [] {
      AlikeStep(first, rest);
      var mixed := Added(first, rest[0]);
      FoldSpeechIsOrderFree(mixed, rest[1..]);
      if first.speech == rest[0].speech && forall i :: 0 <= i < |rest[1..]| ==> rest[1..][i].speech == first.speech {
        assert forall i :: 1 <= i < |rest| ==> rest[i] == rest[1..][i - 1];
      } else if first.speech == rest[0].speech {
        var i :| 0 <= i < |rest[1..]| && rest[1..][i].speech != first.speech;
        assert rest[i + 1].speech != first.speech;
      }
    }
  }

  lemma SubtractedIsAlike(first: Frame, rest: seq<Frame>)
    requires Alike(first, rest) && rest != []
    ensures rest[0].Valid() && Alike(Subtracted(first, rest[0]), rest[1..])
  {
    assert rest[0] in rest && forall f <- rest[1..] :: f in rest;
  }

  /** Frames subtracted from the first one after the other. */
  ghost function FoldSubtracted(first: Frame, rest: seq<Frame>): Frame
    requires Alike(first, rest)
    decreases |rest|
  {
    if rest == [] then first else
      SubtractedIsAlike(first, rest);
      FoldSubtracted(Subtracted(first, rest[0]), rest[1..])
  }

  /** After any subtraction the activity is passive if all frames were, and unknown otherwise, whatever their order. */
  lemma {:induction false} FoldSubtractedIsOrderFree(first: Frame, rest: seq<Frame>)
    requires Alike(first, rest) && rest != []
    ensures var r := FoldSubtracted(first, rest);
      r.vad == (if first.vad == VadPassive && forall i :: 0 <= i < |rest| ==> rest[i].vad == VadPassive
                then VadPassive else VadUnknown)
      && r.speech == Undefined && r.energy == 0xFFFF_FFFF
    decreases |rest|
  {
    SubtractedIsAlike(first, rest);
    var less, more := Subtracted(first, rest[0]), rest[1..];
    assert forall i :: 0 <= i < |more| ==> more[i] == rest[i + 1];
    assert forall i :: 1 <= i < |rest| ==> rest[i] == more[i - 1];
    if more == [] {
      assert FoldSubtracted(less, more) == less;
    } else {
      FoldSubtractedIsOrderFree(less, more);
    }
  }

  // ---------------------------------------------------------------- the class

  class AudioFrame {
    const data: array<int16>
    var samplesPerChannel: nat
    var channels: int
    var speech: SpeechType
    var vad: VadActivity
    var energy: int

    ghost predicate Valid()
      reads this
    {
      data.Length == MAX_DATA_SIZE_SAMPLES && Count(samplesPerChannel, channels) <= MAX_DATA_SIZE_SAMPLES
    }

    ghost function AsFrame(): (f: Frame)
      reads this, data
      requires Valid()
      ensures f.Valid()
    {
      Frame(data[..Count(samplesPerChannel, channels)], samplesPerChannel, channels, speech, vad, energy)
    }

    constructor ()
      ensures Valid() && fresh(data) && data.Length == 3840
      ensures AsFrame() == Frame([], 0, 0, Undefined, VadUnknown, 0xFFFF_FFFF)
    {
      data := new int16[MAX_DATA_SIZE_SAMPLES](_ => 0);
      samplesPerChannel, channels := 0, 0;
      speech, vad, energy := Undefined, VadUnknown, NO_ENERGY;
    }

    method MergeState(rhs: AudioFrame)
      modifies this`vad, this`speech
      ensures vad == MergeVad(old(vad), old(rhs.vad)) && speech == MergeSpeech(old(speech), old(rhs.speech))
    {
      if vad == VadActive || rhs.vad == VadActive {
        vad := VadActive;
      } else if vad == VadUnknown || rhs.vad == VadUnknown {
        vad := VadUnknown;
      }
      if speech != rhs.speech {
        speech := Undefined;
      }
    }

    /** Copies the first count samples of rhs behind the first offset samples. */
    method CopySamples(rhs: AudioFrame, offset: nat, count: nat)
      requires (rhs == this && count <= offset) || rhs.data != data
      requires offset + count <= data.Length && count <= rhs.data.Length
      modifies data
      ensures forall k :: 0 <= k < offset ==> data[k] == old(data[k])
      ensures forall k :: offset <= k < offset + count ==> data[k] == old(rhs.data[k - offset])
    {
      for i := 0 to count
        invariant forall k :: 0 <= k < offset ==> data[k] == old(data[k])
        invariant forall k :: i <= k < count ==> rhs.data[k] == old(rhs.data[k])
        invariant forall k :: offset <= k < offset + i ==> data[k] == old(rhs.data[k - offset])
      {
        data[offset + i] := rhs.data[i];
      }
    }

    method Append(rhs: AudioFrame)
      requires Valid() && rhs.Valid() && (rhs == this || rhs.data != data)
      requires channels == rhs.channels ==>
        Count(samplesPerChannel + rhs.samplesPerChannel, channels) <= MAX_DATA_SIZE_SAMPLES
      modifies this, data
      ensures Valid() && AsFrame() == Appended(old(AsFrame()), old(rhs.AsFrame()))
    {
      if channels > 2 || channels < 1 {
        return;
      }
      if channels != rhs.channels {
        return;
      }
      MergeState(rhs);
      var offset := samplesPerChannel * channels;
      var count := rhs.samplesPerChannel * rhs.channels;
      ghost var was, added := data[..offset], rhs.data[..count];
      CopySamples(rhs, offset, count);
      assert data[..offset + count] == was + added;
      samplesPerChannel := samplesPerChannel + rhs.samplesPerChannel;
    }

    /** operator += */
    method Add(rhs: AudioFrame)
      requires Valid() && rhs.Valid() && (rhs == this || rhs.data != data)
      modifies this, data
      ensures Valid() && AsFrame() == Added(old(AsFrame()), old(rhs.AsFrame()))
    {
      if channels > 2 || channels < 1 {
        return;
      }
      if channels != rhs.channels {
        return;
      }
      var noPrevData := false;
      if samplesPerChannel != rhs.samplesPerChannel {
        if samplesPerChannel == 0 {
          samplesPerChannel := rhs.samplesPerChannel;
          noPrevData := true;
        } else {
          return;
        }
      }
      MergeState(rhs);
      var count := samplesPerChannel * channels;
      if noPrevData {
        forall i | 0 <= i < count {
          data[i] := rhs.data[i];
        }
      } else {
        for i := 0 to count
          modifies data
          invariant forall k :: 0 <= k < i ==> data[k] == ClampToInt16(old(data[k]) as int + old(rhs.data[k]) as int)
          invariant forall k :: i <= k < count ==> data[k] == old(data[k]) && rhs.data[k] == old(rhs.data[k])
        {
          var wrapGuard := data[i] as int + rhs.data[i] as int;
          data[i] := ClampToInt16(wrapGuard);
        }
      }
      energy := NO_ENERGY;
    }

    /** operator -= */
    method Subtract(rhs: AudioFrame)
      requires Valid() && rhs.Valid() && (rhs == this || rhs.data != data)
      modifies this, data
      ensures Valid() && AsFrame() == Subtracted(old(AsFrame()), old(rhs.AsFrame()))
    {
      if channels > 2 || channels < 1 {
        return;
      }
      if samplesPerChannel != rhs.samplesPerChannel || channels != rhs.channels {
        return;
      }
      if vad != VadPassive || rhs.vad != VadPassive {
        vad := VadUnknown;
      }
      speech := Undefined;
      var count := samplesPerChannel * channels;
      for i := 0 to count
        modifies data
        invariant forall k :: 0 <= k < i ==> data[k] == ClampToInt16(old(data[k]) as int - old(rhs.data[k]) as int)
        invariant forall k :: i <= k < count ==> data[k] == old(data[k]) && rhs.data[k] == old(rhs.data[k])
      {
        var wrapGuard := data[i] as int - rhs.data[i] as int;
        data[i] := ClampToInt16(wrapGuard);
      }
      energy := NO_ENERGY;
    }
  }
}
