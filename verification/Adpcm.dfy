/** client/adpcm.c: the 4-bit ADPCM coder and decoder. */
module Adpcm {

  /** indexTable */
  function IndexTable(delta: nat): int
    requires delta < 16
  {
    [-1, -1, -1, -1, 2, 4, 6, 8, -1, -1, -1, -1, 2, 4, 6, 8][delta]
  }

  // stepsizeTable, row by row
  const STEPS_00: seq<int> := [7, 8, 9, 10, 11, 12, 13, 14, 16, 17]
  const STEPS_10: seq<int> := [19, 21, 23, 25, 28, 31, 34, 37, 41, 45]
  const STEPS_20: seq<int> := [50, 55, 60, 66, 73, 80, 88, 97, 107, 118]
  const STEPS_30: seq<int> := [130, 143, 157, 173, 190, 209, 230, 253, 279, 307]
  const STEPS_40: seq<int> := [337, 371, 408, 449, 494, 544, 598, 658, 724, 796]
  const STEPS_50: seq<int> := [876, 963, 1060, 1166, 1282, 1411, 1552, 1707, 1878, 2066]
  const STEPS_60: seq<int> := [2272, 2499, 2749, 3024, 3327, 3660, 4026, 4428, 4871, 5358]
  const STEPS_70: seq<int> := [5894, 6484, 7132, 7845, 8630, 9493, 10442, 11487, 12635, 13899]
  const STEPS_80: seq<int> := [15289, 16818, 18500, 20350, 22385, 24623, 27086, 29794, 32767]

  function StepSize(i: nat): int
    requires i <= 88
  {
    if i < 10 then STEPS_00[i]
    else if i < 20 then STEPS_10[i - 10]
    else if i < 30 then STEPS_20[i - 20]
    else if i < 40 then STEPS_30[i - 30]
    else if i < 50 then STEPS_40[i - 40]
    else if i < 60 then STEPS_50[i - 50]
    else if i < 70 then STEPS_60[i - 60]
    else if i < 80 then STEPS_70[i - 70]
    else STEPS_80[i - 80]
  }

  /** Neighbouring steps grow, by less than an eighth of the larger plus two can bridge. */
  lemma StepsGrow(i: nat)
    requires i < 88
    ensures StepSize(i) < StepSize(i + 1)
    ensures StepSize(i + 1) / 8 + 2 < StepSize(i)
  {
  }

  /** The table is a geometric one from 7 up to the largest sample: each step is eleven tenths of the one
      before, within eight tenths, and the last is cut off. */
  lemma StepsAreGeometric(i: nat)
    requires i < 87
    ensures -8 <= 10 * StepSize(i + 1) - 11 * StepSize(i) <= 8
    ensures StepSize(0) == 7 && StepSize(87) == 29794 && StepSize(88) == 32767 < StepSize(87) * 11 / 10
  {
  }

  lemma StepRange(i: nat)
    requires i <= 88
    ensures 7 <= StepSize(i) <= 32767
    ensures StepSize(i) / 8 == 0 <==> i == 0
    ensures i == 88 ==> StepSize(i) == 32767
  {
  }

  lemma {:induction false} StepsMonotone(i: nat, j: nat)
    requires i <= j <= 88
    ensures StepSize(i) <= StepSize(j)
  {
    if i < j {
      StepsMonotone(i, j - 1);
      StepsGrow(j - 1);
    }
  }

  /** adpcm_state_t: 16-bit prediction, table index. */
  datatype Codec = Codec(valprev: int, index: int)

  predicate Sample(v: int) {
    -32768 <= v <= 32767
  }

  predicate Valid(st: Codec) {
    Sample(st.valprev) && 0 <= st.index <= 88
  }

  function Clamp(v: int, lo: int, hi: int): int
    requires lo <= hi
  {
    if v > hi then hi else if v < lo then lo else v
  }

  function NextIndex(index: int, delta: nat): (r: int)
    requires 0 <= index <= 88 && delta < 16
    ensures 0 <= r <= 88
  {
    Clamp(index + IndexTable(delta), 0, 88)
  }

  function Abs(x: int): nat {
    if x < 0 then -x else x
  }

  // ---------- one sample ----------

  /** The coder's three comparisons: the magnitude bits and the change of the prediction. */
  function Quantise(diff: nat, step: nat): (nat, nat) {
    var half, quarter := step / 2, step / 2 / 2;
    var (d0, v0, r0) := if diff >= step then (4, step / 8 + step, diff - step) else (0, step / 8, diff);
    var (d1, v1, r1) := if r0 >= half then (d0 + 2, v0 + half, r0 - half) else (d0, v0, r0);
    if r1 >= quarter then (d1 + 1, v1 + quarter) else (d1, v1)
  }

  /** Steps 1 to 5 of the coder at a given step size. */
  function CodeAt(st: Codec, step: nat, val: int): (r: (nat, Codec))
    requires Valid(st)
    ensures r.0 < 16 && Valid(r.1)
  {
    var diff := val - st.valprev;
    var (magnitude, vpdiff) := Quantise(Abs(diff), step);
    var delta := if diff < 0 then magnitude + 8 else magnitude;
    var valpred := if diff < 0 then st.valprev - vpdiff else st.valprev + vpdiff;
    (delta, Codec(Clamp(valpred, -32768, 32767), NextIndex(st.index, delta)))
  }

  /** The nibble the coder emits for one sample and its new state. */
  function CodeSample(st: Codec, val: int): (r: (nat, Codec))
    requires Valid(st)
    ensures r.0 < 16 && Valid(r.1)
  {
    StepRange(st.index);
    CodeAt(st, StepSize(st.index), val)
  }

  /** The decoder's change of the prediction, from the bits of the nibble. */
  function BitSum(magnitude: nat, step: nat): nat {
    step / 8
    + (if magnitude / 4 % 2 == 1 then step else 0)
    + (if magnitude / 2 % 2 == 1 then step / 2 else 0)
    + (if magnitude % 2 == 1 then step / 4 else 0)
  }

  function DecodeAt(st: Codec, step: nat, delta: nat): (r: Codec)
    requires Valid(st) && delta < 16
    ensures Valid(r)
  {
    var vpdiff := BitSum(delta % 8, step);
    var valpred := if delta >= 8 then st.valprev - vpdiff else st.valprev + vpdiff;
    Codec(Clamp(valpred, -32768, 32767), NextIndex(st.index, delta))
  }

  /** The decoder's new state for one nibble; its sample is the new prediction. */
  function DecodeNibble(st: Codec, delta: nat): (r: Codec)
    requires Valid(st) && delta < 16
    ensures Valid(r)
  {
    StepRange(st.index);
    DecodeAt(st, StepSize(st.index), delta)
  }

  lemma QuantiseMatchesBits(diff: nat, step: nat)
    ensures Quantise(diff, step).0 < 8 && Quantise(diff, step).1 == BitSum(Quantise(diff, step).0, step)
  {
    assert step / 2 / 2 == step / 4;
  }

  lemma LockstepAt(st: Codec, step: nat, val: int)
    requires Valid(st)
    ensures DecodeAt(st, step, CodeAt(st, step, val).0) == CodeAt(st, step, val).1
  {
    hide Quantise, BitSum;
    var (magnitude, vpdiff) := Quantise(Abs(val - st.valprev), step);
    QuantiseMatchesBits(Abs(val - st.valprev), step);
    assert (magnitude + 8) % 8 == magnitude;
  }

  /** The decoder turns the coder's nibble into the coder's own new state. */
  lemma SampleLockstep(st: Codec, val: int)
    requires Valid(st)
    ensures DecodeNibble(st, CodeSample(st, val).0) == CodeSample(st, val).1
  {
    StepRange(st.index);
    LockstepAt(st, StepSize(st.index), val);
  }

  // ---------- what a nibble says ----------

  /** The table entry by the error d against the step: one down for an error below the step, else 2, 4, 6 or
      8 up by the quarter that the rest falls into. */
  function Adaptation(d: nat, step: nat): int {
    if d < step then -1
    else if d - step < step / 4 then 2
    else if d - step < step / 2 then 4
    else if d - step < step / 2 + step / 4 then 6
    else 8
  }

  lemma QuantiseAdapts(diff: nat, step: nat)
    requires step >= 7
    ensures Quantise(diff, step).0 < 8
    ensures IndexTable(Quantise(diff, step).0) == IndexTable(Quantise(diff, step).0 + 8) == Adaptation(diff, step)
  {
    assert step / 2 / 2 == step / 4;
  }

  lemma AdaptationAt(st: Codec, step: nat, v: int)
    requires Valid(st) && step >= 7
    ensures CodeAt(st, step, v).1.index == Clamp(st.index + Adaptation(Abs(v - st.valprev), step), 0, 88)
  {
    QuantiseAdapts(Abs(v - st.valprev), step);
    hide Quantise, IndexTable, Adaptation;
  }

  /** How the coder's step adapts to the error of its prediction. */
  lemma StepAdapts(st: Codec, v: int)
    requires Valid(st)
    ensures
      var d, step := Abs(v - st.valprev), StepSize(st.index);
      && step >= 7
      && CodeSample(st, v).1.index ==
           Clamp(st.index + (if d < step then -1
                             else if d - step < step / 4 then 2
                             else if d - step < step / 2 then 4
                             else if d - step < step / 2 + step / 4 then 6
                             else 8), 0, 88)
  {
    StepRange(st.index);
    AdaptationAt(st, StepSize(st.index), v);
  }

  /** How the decoder's step adapts to the magnitude in the nibble. */
  lemma DecoderAdapts(st: Codec, delta: nat)
    requires Valid(st) && delta < 16
    ensures
      var m := delta % 8;
      DecodeNibble(st, delta).index == Clamp(st.index + (if m < 4 then -1 else 2 * (m - 3)), 0, 88)
  {
    StepRange(st.index);
    hide BitSum, StepSize, IndexTable, Clamp;
    TableByMagnitude(delta);
  }

  lemma TableByMagnitude(delta: nat)
    requires delta < 16
    ensures IndexTable(delta) == if delta % 8 < 4 then -1 else 2 * (delta % 8 - 3)
  {
  }

  /** Magnitude m places an error of d: in units of a truncated quarter q of the step, between m and m + 1,
      and from 7 on without bound; the bits stand for the step, its half h and the quarter. */
  predicate Places(m: nat, d: int, step: nat) {
    var lower := (if m / 4 == 1 then step else 0) + (if m / 2 % 2 == 1 then step / 2 else 0)
                 + if m % 2 == 1 then step / 4 else 0;
    var upper := if m % 2 == 0 then lower + step / 4
                 else if m / 2 % 2 == 0 then lower - step / 4 + step / 2
                 else lower - step / 4 - step / 2 + step;
    m < 8 && lower <= d && (m < 7 ==> d < upper)
  }

  /** The nibble's top bit says that the sample lies below the prediction, the others place the error. */
  lemma NibbleSays(st: Codec, v: int)
    requires Valid(st)
    ensures
      var delta := CodeSample(st, v).0;
      (delta >= 8 <==> v < st.valprev) && Places(delta % 8, Abs(v - st.valprev), StepSize(st.index))
  {
    StepRange(st.index);
    hide Places;
    NibbleAt(st, StepSize(st.index), v);
  }

  lemma NibbleAt(st: Codec, step: nat, v: int)
    requires Valid(st) && step >= 7
    ensures
      var delta := CodeAt(st, step, v).0;
      (delta >= 8 <==> v < st.valprev) && Places(delta % 8, Abs(v - st.valprev), step)
  {
    hide Quantise, NextIndex, Places, Clamp;
    var m := Quantise(Abs(v - st.valprev), step).0;
    QuantisePlaces(Abs(v - st.valprev), step);
    assert (m + 8) % 8 == m % 8 == m;
  }

  lemma QuantisePlaces(d: nat, step: nat)
    requires step >= 7
    ensures Quantise(d, step).0 < 8 && Places(Quantise(d, step).0, d, step)
  {
    assert step / 2 / 2 == step / 4;
  }

  /** The decoder moves by the middle of the quarter that the nibble names, the truncations aside: up for a
      clear top bit and down for a set one. */
  lemma NibbleMoves(st: Codec, delta: nat)
    requires Valid(st) && delta < 16
    ensures
      var m, step := delta % 8, StepSize(st.index);
      exists move: int :: (2 * m + 1) * step - 24 < 8 * move <= (2 * m + 1) * step
        && DecodeNibble(st, delta).valprev ==
             Clamp(if delta >= 8 then st.valprev - move else st.valprev + move, -32768, 32767)
  {
    StepRange(st.index);
    var m, step := delta % 8, StepSize(st.index);
    MiddleOfQuarter(m, step);
    var move: int := BitSum(m, step);
    hide BitSum, NextIndex, StepSize;
    assert (2 * m + 1) * step - 24 < 8 * move <= (2 * m + 1) * step;
  }

  lemma MiddleOfQuarter(m: nat, step: nat)
    requires m < 8 && step >= 7
    ensures (2 * m + 1) * step - 24 < 8 * BitSum(m, step) <= (2 * m + 1) * step
  {
    assert m == 0 || m == 1 || m == 2 || m == 3 || m == 4 || m == 5 || m == 6 || m == 7;
  }

  // ---------- streams ----------

  predicate Samples(xs: seq<int>) {
    forall k :: 0 <= k < |xs| ==> Sample(xs[k])
  }

  predicate Nibbles(ds: seq<nat>) {
    forall k :: 0 <= k < |ds| ==> ds[k] < 16
  }

  function CoderState(st: Codec, xs: seq<int>): (r: Codec)
    requires Valid(st)
    ensures Valid(r)
  {
    if xs == [] then st else CodeSample(CoderState(st, xs[..|xs| - 1]), xs[|xs| - 1]).1
  }

  function Code(st: Codec, xs: seq<int>): (ds: seq<nat>)
    requires Valid(st)
    ensures |ds| == |xs| && Nibbles(ds)
  {
    if xs == [] then []
    else Code(st, xs[..|xs| - 1]) + [CodeSample(CoderState(st, xs[..|xs| - 1]), xs[|xs| - 1]).0]
  }

  function DecoderState(st: Codec, ds: seq<nat>): (r: Codec)
    requires Valid(st) && Nibbles(ds)
    ensures Valid(r)
  {
    if ds == [] then st else DecodeNibble(DecoderState(st, ds[..|ds| - 1]), ds[|ds| - 1])
  }

  function Decode(st: Codec, ds: seq<nat>): (xs: seq<int>)
    requires Valid(st) && Nibbles(ds)
    ensures |xs| == |ds|
  {
    if ds == [] then [] else Decode(st, ds[..|ds| - 1]) + [DecoderState(st, ds).valprev]
  }

  /** (signed char) of a value below 256. */
  function SignedChar(b: nat): int
    requires b < 256
  {
    if b < 128 then b else b - 256
  }

  /** Two nibbles to a byte, the first in the high half; an odd last one is left alone there. */
  function Pack(ds: seq<nat>): (bs: seq<int>)
    requires Nibbles(ds)
    ensures |bs| == (|ds| + 1) / 2
  {
    if ds == [] then []
    else if |ds| == 1 then [SignedChar(16 * ds[0])]
    else [SignedChar(16 * ds[0] + ds[1])] + Pack(ds[2..])
  }

  function High(b: int): (r: nat)
    ensures r < 16
  {
    b / 16 % 16
  }

  function Low(b: int): (r: nat)
    ensures r < 16
  {
    b % 16
  }

  function Unpack(bs: seq<int>): (ds: seq<nat>)
    ensures |ds| == 2 * |bs| && Nibbles(ds)
  {
    if bs == [] then [] else [High(bs[0]), Low(bs[0])] + Unpack(bs[1..])
  }

  lemma ByteRoundTrip(hi: nat, lo: nat)
    requires hi < 16 && lo < 16
    ensures High(SignedChar(16 * hi + lo)) == hi && Low(SignedChar(16 * hi + lo)) == lo
  {
  }

  /** Unpacking gives the nibbles back, with a zero nibble after an odd count. */
  lemma {:induction false} PackRoundTrip(ds: seq<nat>)
    requires Nibbles(ds)
    ensures Unpack(Pack(ds)) == if |ds| % 2 == 0 then ds else ds + [0]
  {
    if |ds| == 1 {
      ByteRoundTrip(ds[0], 0);
    } else if |ds| > 1 {
      ByteRoundTrip(ds[0], ds[1]);
      PackRoundTrip(ds[2..]);
      assert ds == [ds[0], ds[1]] + ds[2..];
    }
  }

  /** On the wire the first of two nibbles stands in the upper half of its byte. */
  lemma {:induction false} PackedAt(ds: seq<nat>, k: nat)
    requires Nibbles(ds) && 2 * k < |ds|
    ensures (Pack(ds)[k] + 256) % 256 == 16 * ds[2 * k] + if 2 * k + 1 < |ds| then ds[2 * k + 1] else 0
  {
    if k > 0 {
      PackedAt(ds[2..], k - 1);
    }
  }

  /** What the coder believes the listener hears: its own prediction after each sample. */
  function Reconstruction(st: Codec, xs: seq<int>): (r: seq<int>)
    requires Valid(st)
    ensures |r| == |xs|
  {
    if xs == [] then [] else Reconstruction(st, xs[..|xs| - 1]) + [CoderState(st, xs).valprev]
  }

  /** Coder and decoder pass through the same states. */
  lemma {:induction false} Lockstep(st: Codec, xs: seq<int>)
    requires Valid(st)
    ensures DecoderState(st, Code(st, xs)) == CoderState(st, xs)
  {
    if xs != [] {
      var n := |xs| - 1;
      Lockstep(st, xs[..n]);
      SampleLockstep(CoderState(st, xs[..n]), xs[n]);
      assert Code(st, xs)[..n] == Code(st, xs[..n]);
    }
  }

  /** The decoder plays the coder's own reconstruction. */
  lemma {:induction false} PlaysReconstruction(st: Codec, xs: seq<int>)
    requires Valid(st)
    ensures Decode(st, Code(st, xs)) == Reconstruction(st, xs)
  {
    if xs != [] {
      var n := |xs| - 1;
      PlaysReconstruction(st, xs[..n]);
      Lockstep(st, xs);
      assert Code(st, xs)[..n] == Code(st, xs[..n]);
      hide CodeSample, DecodeNibble;
    }
  }

  lemma {:induction false} ReconstructionAt(st: Codec, xs: seq<int>, k: nat)
    requires Valid(st) && k < |xs|
    ensures Reconstruction(st, xs)[k] == CoderState(st, xs[..k + 1]).valprev
  {
    hide CodeSample;
    var n := |xs| - 1;
    if k < n {
      ReconstructionAt(st, xs[..n], k);
      assert xs[..n][..k + 1] == xs[..k + 1];
    } else {
      assert xs[..n + 1] == xs;
    }
  }

  /** The bytes cast_filled sends of a frame: a quarter of its length in bytes, so the byte that an
      odd last sample fills by half stays behind. */
  function Sent(st: Codec, xs: seq<int>): (bs: seq<int>)
    requires Valid(st)
    ensures |bs| == |xs| / 2
  {
    Pack(Code(st, xs))[..|xs| / 2]
  }

  /** The whole bytes of a packing hold all nibbles but an odd last one. */
  lemma {:induction false} WholeBytes(ds: seq<nat>)
    requires Nibbles(ds)
    ensures Unpack(Pack(ds)[..|ds| / 2]) == ds[..|ds| - |ds| % 2]
  {
    hide High, Low, SignedChar;
    if |ds| > 1 {
      var rest := ds[2..];
      var k := |rest| / 2;
      WholeBytes(rest);
      ByteRoundTrip(ds[0], ds[1]);
      assert Pack(ds)[..|ds| / 2] == [SignedChar(16 * ds[0] + ds[1])] + Pack(rest)[..k];
      assert ds[..|ds| - |ds| % 2] == [ds[0], ds[1]] + rest[..|rest| - |rest| % 2];
    }
  }

  lemma CodeEven(st: Codec, xs: seq<int>, n: nat)
    requires Valid(st) && n == |xs| - |xs| % 2
    ensures Code(st, xs)[..n] == Code(st, xs[..n])
  {
    hide CodeSample, CoderState;
    if n == |xs| {
      assert xs[..n] == xs;
    } else {
      assert n == |xs| - 1;
    }
  }

  /** What arrives is the code of the frame without an odd last sample. */
  lemma SentUnpacked(st: Codec, xs: seq<int>)
    requires Valid(st)
    ensures Unpack(Sent(st, xs)) == Code(st, xs[..|xs| - |xs| % 2])
  {
    hide Unpack, Pack, Code;
    WholeBytes(Code(st, xs));
    CodeEven(st, xs, |xs| - |xs| % 2);
  }

  /** A sample leaves the coder where it was exactly at index 0 and on the prediction itself. */
  lemma StandsStill(st: Codec, v: int)
    requires Valid(st) && Sample(v)
    ensures CodeSample(st, v).1 == st <==> st.index == 0 && v == st.valprev
  {
    StepRange(st.index);
    StandsStillAt(st, StepSize(st.index), v);
  }

  lemma StandsStillAt(st: Codec, step: nat, v: int)
    requires Valid(st) && Sample(v) && step >= 7
    requires (step / 8 == 0 <==> st.index == 0) && (st.index == 88 ==> step == 32767)
    ensures CodeAt(st, step, v).1 == st <==> st.index == 0 && v == st.valprev
  {
  }

  /** A frame as it is sent: the decoder plays the coder's reconstruction of every sample but an odd
      last one, and ends in the coder's own state exactly when the count is even or that last sample
      stood still. */
  lemma FrameLockstep(st: Codec, xs: seq<int>)
    requires Valid(st) && Samples(xs)
    ensures DecoderState(st, Unpack(Sent(st, xs))) == CoderState(st, xs)
            <==> |xs| % 2 == 0
                 || (CoderState(st, xs[..|xs| - 1]).index == 0
                     && CoderState(st, xs[..|xs| - 1]).valprev == xs[|xs| - 1])
    ensures Decode(st, Unpack(Sent(st, xs))) == Reconstruction(st, xs[..|xs| - |xs| % 2])
  {
    var n := |xs| - |xs| % 2;
    SentUnpacked(st, xs);
    Lockstep(st, xs[..n]);
    PlaysReconstruction(st, xs[..n]);
    hide CodeSample, Sent, Unpack, Code, DecoderState, Decode, Reconstruction;
    if |xs| % 2 == 0 {
      assert xs[..n] == xs;
    } else {
      assert n == |xs| - 1;
      StandsStill(CoderState(st, xs[..n]), xs[n]);
    }
  }

  // ---------- whole sessions ----------

  predicate EvenFrame(xs: seq<int>) {
    |xs| % 2 == 0 && Samples(xs)
  }

  lemma EvenFrameLockstep(st: Codec, xs: seq<int>)
    requires Valid(st) && EvenFrame(xs)
    ensures DecoderState(st, Unpack(Sent(st, xs))) == CoderState(st, xs)
    ensures Decode(st, Unpack(Sent(st, xs))) == Reconstruction(st, xs)
  {
    FrameLockstep(st, xs);
    assert xs[..|xs|] == xs;
  }

  function CoderAfter(st: Codec, frames: seq<seq<int>>): (r: Codec)
    requires Valid(st)
    ensures Valid(r)
  {
    if frames == [] then st else CoderState(CoderAfter(st, frames[..|frames| - 1]), frames[|frames| - 1])
  }

  /** The bytes sent for each frame. */
  function SessionBytes(st: Codec, frames: seq<seq<int>>): (r: seq<seq<int>>)
    requires Valid(st)
    ensures |r| == |frames|
  {
    if frames == [] then []
    else
      SessionBytes(st, frames[..|frames| - 1])
      + [Sent(CoderAfter(st, frames[..|frames| - 1]), frames[|frames| - 1])]
  }

  function DecoderAfter(st: Codec, bytes: seq<seq<int>>): (r: Codec)
    requires Valid(st)
    ensures Valid(r)
  {
    if bytes == [] then st else DecoderState(DecoderAfter(st, bytes[..|bytes| - 1]), Unpack(bytes[|bytes| - 1]))
  }

  /** The samples the decoder plays, frame by frame. */
  function Played(st: Codec, bytes: seq<seq<int>>): (r: seq<seq<int>>)
    requires Valid(st)
    ensures |r| == |bytes|
  {
    if bytes == [] then []
    else
      Played(st, bytes[..|bytes| - 1])
      + [Decode(DecoderAfter(st, bytes[..|bytes| - 1]), Unpack(bytes[|bytes| - 1]))]
  }

  function Reconstructions(st: Codec, frames: seq<seq<int>>): (r: seq<seq<int>>)
    requires Valid(st)
    ensures |r| == |frames|
  {
    if frames == [] then []
    else
      Reconstructions(st, frames[..|frames| - 1])
      + [Reconstruction(CoderAfter(st, frames[..|frames| - 1]), frames[|frames| - 1])]
  }

  /** Any stream of frames with even sample counts: both states are equal after every frame, and
      every decoded sample is the coder's own reconstruction at that sample. */
  lemma {:induction false} SessionLockstep(st: Codec, frames: seq<seq<int>>)
    requires Valid(st)
    requires forall k :: 0 <= k < |frames| ==> EvenFrame(frames[k])
    ensures DecoderAfter(st, SessionBytes(st, frames)) == CoderAfter(st, frames)
    ensures Played(st, SessionBytes(st, frames)) == Reconstructions(st, frames)
  {
    if frames != [] {
      var n := |frames| - 1;
      SessionLockstep(st, frames[..n]);
      hide EvenFrame, CoderState, DecoderState, Decode, Reconstruction, Sent, Unpack;
      EvenFrameLockstep(CoderAfter(st, frames[..n]), frames[n]);
      assert SessionBytes(st, frames)[..n] == SessionBytes(st, frames[..n]);
    }
  }

  // ---------- tracking a constant input ----------

  /** The coder's state after n equal samples. */
  function Track(st: Codec, v: int, n: nat): (r: Codec)
    requires Valid(st)
    ensures Valid(r)
    decreases n
  {
    if n == 0 then st else Track(CodeSample(st, v).1, v, n - 1)
  }

  lemma {:induction false} CoderStateFront(st: Codec, xs: seq<int>)
    requires Valid(st) && xs != []
    ensures CoderState(st, xs) == CoderState(CodeSample(st, xs[0]).1, xs[1..])
    decreases |xs|
  {
    hide CodeSample;
    var n := |xs| - 1;
    if n == 0 {
      assert xs[..0] == [] && xs[1..] == [];
    } else {
      CoderStateFront(st, xs[..n]);
      assert xs[..n][1..] == xs[1..][..n - 1];
    }
  }

  /** Track is the coder run on n equal samples. */
  lemma {:induction false} TrackIsCoderState(st: Codec, v: int, n: nat)
    requires Valid(st)
    ensures CoderState(st, seq(n, _ => v)) == Track(st, v, n)
    decreases n
  {
    hide CodeSample;
    if n > 0 {
      var xs := seq(n, _ => v);
      CoderStateFront(st, xs);
      assert xs[1..] == seq(n - 1, _ => v);
      TrackIsCoderState(CodeSample(st, v).1, v, n - 1);
    }
  }

  function Error(st: Codec, v: int): nat {
    Abs(v - st.valprev)
  }

  /** The difference is more than the quantiser can express at this step. */
  predicate Overloaded(st: Codec, v: int)
    requires Valid(st)
  {
    Error(st, v) >= 2 * StepSize(st.index)
  }

  /** Quantiser error before clamping. */
  lemma QuantiserError(diff: nat, step: nat)
    requires step >= 7
    ensures diff < 2 * step ==> Abs(diff - Quantise(diff, step).1) <= step / 8 + 2
    ensures diff >= 2 * step ==> Quantise(diff, step).0 == 7 && 11 <= Quantise(diff, step).1 < diff
    ensures diff < step ==> Quantise(diff, step).0 < 4
  {
  }

  /** Clamping never moves the prediction away from a 16-bit input. */
  lemma ClampCloser(v: int, p: int)
    requires Sample(v)
    ensures Abs(v - Clamp(p, -32768, 32767)) <= Abs(v - p)
  {
  }

  lemma StepAt(st: Codec, step: nat, v: int)
    requires Valid(st) && Sample(v) && step >= 7
    ensures Error(st, v) < 2 * step ==> Error(CodeAt(st, step, v).1, v) <= step / 8 + 2
    ensures Error(st, v) >= 2 * step ==> Error(CodeAt(st, step, v).1, v) <= Error(st, v) - 11
  {
    hide Quantise, Clamp, NextIndex;
    var diff := v - st.valprev;
    var (_, vpdiff) := Quantise(Abs(diff), step);
    QuantiserError(Abs(diff), step);
    ClampCloser(v, if diff < 0 then st.valprev - vpdiff else st.valprev + vpdiff);
  }

  lemma IndexAt(st: Codec, step: nat, v: int)
    requires Valid(st) && step >= 7
    ensures Error(st, v) >= 2 * step ==> CodeAt(st, step, v).1.index == Clamp(st.index + 8, 0, 88)
    ensures Error(st, v) < step ==> CodeAt(st, step, v).1.index == Clamp(st.index - 1, 0, 88)
    ensures CodeAt(st, step, v).1.index >= st.index - 1
  {
    hide Quantise, BitSum;
    QuantiserError(Abs(v - st.valprev), step);
    QuantiseMatchesBits(Abs(v - st.valprev), step);
  }

  /** A sample that is not overloaded leaves an error of at most an eighth of the step plus two,
      clamping included. */
  lemma ErrorBound(st: Codec, v: int)
    requires Valid(st) && Sample(v) && !Overloaded(st, v)
    ensures Error(CodeSample(st, v).1, v) <= StepSize(st.index) / 8 + 2
  {
    StepRange(st.index);
    StepAt(st, StepSize(st.index), v);
  }

  /** An overloaded sample comes at least 11 closer and raises the index by 8. */
  lemma OverloadCatchesUp(st: Codec, v: int)
    requires Valid(st) && Sample(v) && Overloaded(st, v)
    ensures Error(CodeSample(st, v).1, v) <= Error(st, v) - 11
    ensures CodeSample(st, v).1.index == Clamp(st.index + 8, 0, 88)
  {
    StepRange(st.index);
    StepAt(st, StepSize(st.index), v);
    IndexAt(st, StepSize(st.index), v);
  }

  /** Once a sample was not overloaded, the error stays small against the step. */
  predicate Calm(st: Codec, v: int)
    requires Valid(st)
  {
    Error(st, v) <= StepSize(if st.index < 88 then st.index + 1 else 88) / 8 + 2
  }

  lemma BecomesCalm(st: Codec, v: int)
    requires Valid(st) && Sample(v) && !Overloaded(st, v)
    ensures Calm(CodeSample(st, v).1, v)
  {
    var st' := CodeSample(st, v).1;
    ErrorBound(st, v);
    StepRange(st.index);
    IndexAt(st, StepSize(st.index), v);
    StepsMonotone(st.index, if st'.index < 88 then st'.index + 1 else 88);
  }

  lemma StaysCalm(st: Codec, v: int)
    requires Valid(st) && Sample(v) && Calm(st, v)
    ensures !Overloaded(st, v) && Calm(CodeSample(st, v).1, v)
    ensures CodeSample(st, v).1.index == Clamp(st.index - 1, 0, 88)
  {
    CalmIsSmall(st, v);
    BecomesCalm(st, v);
    IndexAt(st, StepSize(st.index), v);
  }

  lemma CalmIsSmall(st: Codec, v: int)
    requires Valid(st) && Calm(st, v)
    ensures 7 <= StepSize(st.index) && Error(st, v) < StepSize(st.index)
    ensures st.index == 0 ==> Error(st, v) <= 3
  {
    StepRange(st.index);
    if st.index < 88 {
      StepsGrow(st.index);
    }
  }

  lemma BottomAt(st: Codec, v: int)
    requires Valid(st) && Sample(v) && st.index == 0 && Error(st, v) <= 3
    ensures CodeAt(st, 7, v).1.index == 0
    ensures Error(CodeAt(st, 7, v).1, v) == if Error(st, v) == 2 then 1 else 0
  {
    assert Error(st, v) == 0 || Error(st, v) == 1 || Error(st, v) == 2 || Error(st, v) == 3;
  }

  /** At index 0 an error of at most 3 is gone after two samples and never comes back. */
  lemma BottomSample(st: Codec, v: int)
    requires Valid(st) && Sample(v) && st.index == 0 && Error(st, v) <= 3
    ensures CodeSample(st, v).1.index == 0
  {
    hide CodeAt;
    BottomAt(st, v);
    assert StepSize(0) == 7;
  }

  lemma BottomError(st: Codec, v: int)
    requires Valid(st) && Sample(v) && st.index == 0 && Error(st, v) <= 3
    ensures Error(CodeSample(st, v).1, v) == if Error(st, v) == 2 then 1 else 0
  {
    hide CodeAt;
    BottomAt(st, v);
    assert StepSize(0) == 7;
  }

  lemma {:induction false} BottomSettles(st: Codec, v: int, n: nat)
    requires Valid(st) && Sample(v) && st.index == 0 && Error(st, v) <= 3
    ensures n >= 1 ==> Error(Track(st, v, n), v) <= 2
    ensures n >= 2 ==> Track(st, v, n) == Codec(v, 0)
    decreases n
  {
    hide CodeSample;
    if n > 0 {
      BottomSample(st, v);
      BottomError(st, v);
      BottomSettles(CodeSample(st, v).1, v, n - 1);
      if n == 2 {
        BottomSample(CodeSample(st, v).1, v);
        BottomError(CodeSample(st, v).1, v);
      }
    }
  }

  lemma {:induction false} CalmSettles(st: Codec, v: int, n: nat)
    requires Valid(st) && Sample(v) && Calm(st, v)
    ensures n >= st.index + 1 ==> Error(Track(st, v, n), v) <= 2
    ensures n >= st.index + 2 ==> Track(st, v, n) == Codec(v, 0)
    decreases n
  {
    hide CodeSample, Overloaded, Calm;
    CalmIsSmall(st, v);
    if st.index == 0 {
      BottomSettles(st, v, n);
    } else if n > 0 {
      StaysCalm(st, v);
      CalmSettles(CodeSample(st, v).1, v, n - 1);
    }
  }

  /** After k overloaded samples in a row. */
  predicate Chased(st: Codec, v: int, k: nat)
    requires Valid(st)
  {
    k <= 11 && st.index >= Clamp(8 * k, 0, 88) && Error(st, v) <= 65535 - 11 * k
  }

  lemma ChaseGoesOn(st: Codec, v: int, k: nat)
    requires Valid(st) && Sample(v) && Chased(st, v, k) && Overloaded(st, v)
    ensures Chased(CodeSample(st, v).1, v, k + 1)
  {
    OverloadCatchesUp(st, v);
    StepRange(st.index);
  }

  lemma {:induction false} ChaseSettles(st: Codec, v: int, k: nat, n: nat)
    requires Valid(st) && Sample(v) && Chased(st, v, k)
    ensures n >= 101 - k ==> Error(Track(st, v, n), v) <= 2
    ensures n >= 102 - k ==> Track(st, v, n) == Codec(v, 0)
    decreases n
  {
    hide CodeSample, Overloaded, Calm;
    if n > 0 {
      var st' := CodeSample(st, v).1;
      if Overloaded(st, v) {
        ChaseGoesOn(st, v, k);
        ChaseSettles(st', v, k + 1, n - 1);
      } else {
        BecomesCalm(st, v);
        CalmSettles(st', v, n - 1);
      }
    }
  }

  /** From any state, a constant input is met within 2 after 101 samples and for ever, and exactly
      from the 102nd on. */
  lemma Settles(st: Codec, v: int, n: nat)
    requires Valid(st) && Sample(v)
    ensures n >= 101 ==> Error(Track(st, v, n), v) <= 2
    ensures n >= 102 ==> Track(st, v, n) == Codec(v, 0)
  {
    ChaseSettles(st, v, 0, n);
  }

  lemma {:induction false} ChaseEnds(st: Codec, v: int, j: nat) returns (k: nat)
    requires Valid(st) && Sample(v) && Chased(st, v, j)
    ensures j + k <= 11 && !Overloaded(Track(st, v, k), v)
    decreases 11 - j
  {
    hide CodeSample, Overloaded;
    if Overloaded(st, v) {
      ChaseGoesOn(st, v, j);
      k := ChaseEnds(CodeSample(st, v).1, v, j + 1);
      k := k + 1;
    } else {
      k := 0;
    }
  }

  /** From any state, no more than 11 samples in a row are overloaded. */
  lemma AtMostElevenOverloads(st: Codec, v: int)
    requires Valid(st) && Sample(v)
    ensures exists k :: 0 <= k <= 11 && !Overloaded(Track(st, v, k), v)
  {
    var k := ChaseEnds(st, v, 0);
  }

  // ---------- the routines over buffers ----------

  /** struct adpcm_state */
  class AdpcmState {
    var valprev: int
    var index: int

    function Value(): Codec
      reads this
    {
      Codec(valprev, index)
    }
  }

  lemma PackFront(x: nat, y: nat, rest: seq<nat>)
    requires x < 16 && y < 16 && Nibbles(rest)
    ensures Nibbles([x, y] + rest) && Pack([x, y] + rest) == [SignedChar(16 * x + y)] + Pack(rest)
  {
    assert ([x, y] + rest)[2..] == rest;
  }

  /** The nibbles of an even-sized part pack on their own. */
  lemma {:induction false} PackAppend(a: seq<nat>, b: seq<nat>)
    requires Nibbles(a) && Nibbles(b) && |a| % 2 == 0
    ensures Nibbles(a + b) && Pack(a + b) == Pack(a) + Pack(b)
  {
    if a == [] {
      assert a + b == b;
    } else {
      var rest := a[2..];
      assert a == [a[0], a[1]] + rest && a + b == [a[0], a[1]] + (rest + b);
      hide Pack, SignedChar;
      PackAppend(rest, b);
      PackFront(a[0], a[1], rest);
      PackFront(a[0], a[1], rest + b);
    }
  }

  /** Step 2 of the coder: compare with the step, its half and its quarter. */
  method Divide(diff0: nat, step0: nat) returns (delta: nat, vpdiff: nat)
    ensures (delta, vpdiff) == Quantise(diff0, step0)
  {
    var diff, step := diff0, step0;
    delta := 0;
    vpdiff := step / 8;
    if diff >= step {
      delta := 4;
      diff := diff - step;
      vpdiff := vpdiff + step;
    }
    step := step / 2;
    if diff >= step {
      delta := delta + 2;
      diff := diff - step;
      vpdiff := vpdiff + step;
    }
    step := step / 2;
    if diff >= step {
      delta := delta + 1;
      vpdiff := vpdiff + step;
    }
  }

  /** One pass of the coder's loop body. */
  method CodeOne(val: int, valprev: int, index0: int, step: nat) returns (delta: nat, valpred: int, index: int)
    requires Valid(Codec(valprev, index0))
    ensures delta < 16 && (delta, Codec(valpred, index)) == CodeAt(Codec(valprev, index0), step, val)
  {
    var diff := val - valprev;
    var sign := if diff < 0 then 8 else 0;
    if sign != 0 { diff := -diff; }
    var vpdiff;
    delta, vpdiff := Divide(diff, step);
    assert diff == Abs(val - valprev);
    QuantiseMatchesBits(diff, step);
    hide Quantise, BitSum, IndexTable, Abs;
    valpred := if sign != 0 then valprev - vpdiff else valprev + vpdiff;
    if valpred > 32767 {
      valpred := 32767;
    } else if valpred < -32768 {
      valpred := -32768;
    }
    delta := delta + sign;
    index := MoveIndex(index0, delta);
  }

  method MoveIndex(index0: int, delta: nat) returns (index: int)
    requires 0 <= index0 <= 88 && delta < 16
    ensures index == NextIndex(index0, delta)
  {
    hide IndexTable;
    index := index0 + IndexTable(delta);
    if index < 0 { index := 0; }
    if index > 88 { index := 88; }
  }

  lemma CodeOneMore(st: Codec, xs: seq<int>, k: nat)
    requires Valid(st) && k < |xs|
    ensures 0 <= StepSize(CoderState(st, xs[..k]).index)
    ensures
      var s := CoderState(st, xs[..k]);
      var (delta, s') := CodeAt(s, StepSize(s.index), xs[k]);
      Code(st, xs[..k + 1]) == Code(st, xs[..k]) + [delta] && CoderState(st, xs[..k + 1]) == s'
  {
    StepRange(CoderState(st, xs[..k]).index);
    assert xs[..k + 1][..k] == xs[..k];
    hide CodeAt;
  }

  /** adpcm_coder: len counts the bytes of the 16-bit input samples. */
  method Coder(indata: array<int>, outdata: array<int>, len: nat, state: AdpcmState)
    requires Valid(state.Value()) && indata != outdata
    requires len / 2 <= indata.Length && (len / 2 + 1) / 2 <= outdata.Length
    modifies outdata, state
    ensures Valid(state.Value()) && state.Value() == CoderState(old(state.Value()), indata[..len / 2])
    ensures outdata[..(len / 2 + 1) / 2] == Pack(Code(old(state.Value()), indata[..len / 2]))
    ensures outdata[(len / 2 + 1) / 2..] == old(outdata[(len / 2 + 1) / 2..])
  {
    hide Code, CoderState, CodeSample, CodeAt, StepSize, Pack;
    ghost var st := state.Value();
    var n := len / 2;
    var valpred, index, outputbuffer, bufferstep := state.valprev, state.index, 0, true;
    var inp, outp := 0, 0;
    ghost var ds: seq<nat> := [];
    NothingCoded(st);
    while inp < n
      invariant 0 <= inp <= n && outp == inp / 2
      invariant indata[..] == old(indata[..])
      invariant bufferstep <==> inp % 2 == 0
      invariant ds == Code(st, indata[..inp]) && Codec(valpred, index) == CoderState(st, indata[..inp])
      invariant !bufferstep ==> outputbuffer == 16 * ds[inp - 1]
      invariant outdata[..outp] == Pack(ds[..2 * outp])
      invariant forall k :: outp <= k < outdata.Length ==> outdata[k] == old(outdata[k])
    {
      var delta;
      StepRange(index);
      delta, valpred, index := CodeOne(indata[inp], valpred, index, StepSize(index));
      CodeOneMore(st, indata[..], inp);
      assert (ds + [delta])[..2 * outp] == ds[..2 * outp];
      ds := ds + [delta];
      if bufferstep {
        outputbuffer := 16 * delta;
      } else {
        outdata[outp] := SignedChar(delta + outputbuffer);
        PackPair(ds, outp);
        assert outdata[..outp + 1] == outdata[..outp] + [outdata[outp]];
        outp := outp + 1;
      }
      bufferstep := !bufferstep;
      inp := inp + 1;
      assert bufferstep ==> ds[..2 * outp] == ds;
    }
    assert bufferstep ==> ds[..2 * outp] == ds;
    if !bufferstep {
      outdata[outp] := SignedChar(outputbuffer);
      PackLast(ds, outp);
      assert outdata[..outp + 1] == outdata[..outp] + [outdata[outp]];
    }
    state.valprev, state.index := valpred, index;
  }

  lemma NothingCoded(st: Codec)
    requires Valid(st)
    ensures Code(st, []) == [] && CoderState(st, []) == st && Pack([]) == []
  {
  }

  lemma PackTwo(x: nat, y: nat)
    requires x < 16 && y < 16
    ensures Pack([x, y]) == [SignedChar(y + 16 * x)]
  {
    assert [x, y][2..] == [];
  }

  lemma PackPair(ds: seq<nat>, k: nat)
    requires Nibbles(ds) && |ds| == 2 * k + 2
    ensures Pack(ds) == Pack(ds[..2 * k]) + [SignedChar(ds[2 * k + 1] + 16 * ds[2 * k])]
  {
    hide Pack, SignedChar;
    var x, y := ds[2 * k], ds[2 * k + 1];
    assert ds == ds[..2 * k] + [x, y];
    PackTwo(x, y);
    PackAppend(ds[..2 * k], [x, y]);
  }

  lemma PackLast(ds: seq<nat>, k: nat)
    requires Nibbles(ds) && |ds| == 2 * k + 1
    ensures Pack(ds) == Pack(ds[..2 * k]) + [SignedChar(16 * ds[2 * k])]
  {
    PackAppend(ds[..2 * k], ds[2 * k..]);
    assert ds == ds[..2 * k] + ds[2 * k..];
  }

  /** One pass of the decoder's loop body after the nibble is known. */
  method DecodeOne(nibble: nat, valprev: int, index0: int, step: nat) returns (valpred: int, index: int)
    requires Valid(Codec(valprev, index0)) && nibble < 16
    ensures Codec(valpred, index) == DecodeAt(Codec(valprev, index0), step, nibble)
  {
    index := MoveIndex(index0, nibble);
    var sign := nibble / 8 % 2;
    var delta := nibble % 8;
    var vpdiff := step / 8;
    if delta / 4 % 2 == 1 { vpdiff := vpdiff + step; }
    if delta / 2 % 2 == 1 { vpdiff := vpdiff + step / 2; }
    if delta % 2 == 1 { vpdiff := vpdiff + step / 4; }
    assert vpdiff == BitSum(delta, step);
    hide BitSum;
    valpred := if sign != 0 then valprev - vpdiff else valprev + vpdiff;
    if valpred > 32767 {
      valpred := 32767;
    } else if valpred < -32768 {
      valpred := -32768;
    }
  }

  lemma DecodeNibbleIsDecodeAt(st: Codec, delta: nat)
    requires Valid(st) && delta < 16
    ensures 0 <= StepSize(st.index) && DecodeNibble(st, delta) == DecodeAt(st, StepSize(st.index), delta)
  {
    StepRange(st.index);
  }

  /** adpcm_decoder: len counts the input bytes, two samples each. */
  method Decoder(indata: array<int>, outdata: array<int>, len: nat, state: AdpcmState)
    requires Valid(state.Value()) && indata != outdata
    requires len <= indata.Length && 2 * len <= outdata.Length
    modifies outdata, state
    ensures Valid(state.Value()) && state.Value() == DecoderState(old(state.Value()), Unpack(indata[..len]))
    ensures outdata[..2 * len] == Decode(old(state.Value()), Unpack(indata[..len]))
    ensures outdata[2 * len..] == old(outdata[2 * len..])
  {
    hide DecodeNibble, DecodeAt, StepSize, Unpack, High, Low;
    ghost var st := state.Value();
    var valpred, index, inputbuffer, bufferstep := state.valprev, state.index, 0, false;
    var inp, outp := 0, 0;
    ghost var ds := Unpack(indata[..len]);
    while outp < 2 * len
      invariant 0 <= outp <= 2 * len && inp == (outp + 1) / 2
      invariant indata[..] == old(indata[..]) && |ds| == 2 * len
      invariant bufferstep <==> outp % 2 == 1
      invariant bufferstep ==> inputbuffer == indata[inp - 1]
      invariant Codec(valpred, index) == DecoderState(st, ds[..outp])
      invariant outdata[..outp] == Decode(st, ds[..outp])
      invariant forall k :: outp <= k < outdata.Length ==> outdata[k] == old(outdata[k])
    {
      var delta;
      UnpackAt(indata[..len], outp / 2);
      if bufferstep {
        delta := Low(inputbuffer);
      } else {
        inputbuffer := indata[inp];
        inp := inp + 1;
        delta := High(inputbuffer);
      }
      bufferstep := !bufferstep;
      assert delta == ds[outp];
      assert ds[..outp + 1][..outp] == ds[..outp];
      StepRange(index);
      DecodeNibbleIsDecodeAt(Codec(valpred, index), delta);
      valpred, index := DecodeOne(delta, valpred, index, StepSize(index));
      outdata[outp] := valpred;
      outp := outp + 1;
    }
    assert ds[..outp] == ds;
    state.valprev, state.index := valpred, index;
  }

  lemma {:induction false} UnpackAt(bs: seq<int>, k: nat)
    requires k < |bs|
    ensures Unpack(bs)[2 * k] == High(bs[k]) && Unpack(bs)[2 * k + 1] == Low(bs[k])
  {
    if k > 0 {
      UnpackAt(bs[1..], k - 1);
    }
  }
}
