/** On which devices the head of the ring stays on a frame boundary, whatever the run. */
module AudioFrames {
  import opened AudioJitter
  import opened AudioRing
  import opened AudioRuns
  import opened Common

  /** `n` samples are whole frames. */
  predicate Whole(n: nat, channels: nat)
    requires channels > 0
  {
    n % channels == 0
  }

  /** The producer and the callback work in whole frames. */
  predicate Framed(ops: seq<Op>, channels: nat)
    requires channels > 0
  {
    forall i | 0 <= i < |ops| ::
      match ops[i]
      case Append(buffer) => Whole(|buffer|, channels)
      case Shrink(_) => true
      case Playback(n) => Whole(n, channels)
  }

  /** Whether an append still waits for its shrink. */
  predicate Owed(ops: seq<Op>) {
    ops != [] && var op := ops[|ops| - 1]; op.Append? || (op.Playback? && Owed(ops[..|ops| - 1]))
  }

  /** `append_pcm`: the one producer makes exactly one shrink after each append. */
  predicate Produced(ops: seq<Op>) {
    ops != [] ==>
      && Produced(ops[..|ops| - 1])
      && match ops[|ops| - 1]
         case Append(_) => !Owed(ops[..|ops| - 1])
         case Shrink(_) => Owed(ops[..|ops| - 1])
         case Playback(_) => true
  }

  /** After every run of this device, the ring holds whole frames, so its head is on a frame boundary. */
  ghost predicate FramesSurvive(sampleRate: nat, channels: nat)
    requires sampleRate * channels > 0 && channels > 0
  {
    forall ops | Produced(ops) && Framed(ops, channels) ::
      Whole(|RunFrom(New(), sampleRate * channels, ops).ring|, channels)
  }

  predicate KeepsFrames(sampleRate: nat, channels: nat) {
    channels <= 2 || sampleRate % 80 == 0 || (sampleRate % 40 == 0 && channels % 2 == 0)
  }

  // ----- these devices keep whole frames

  lemma WholeProduct(channels: nat, q: nat)
    requires channels > 0
    ensures Whole(channels * q, channels)
  {
    ModOf(channels, q, 0);
  }

  lemma WholeDifference(a: nat, b: nat, channels: nat)
    requires channels > 0 && Whole(b, channels) && b <= a
    ensures Whole(a - b, channels) <==> Whole(a, channels)
  {
    var p, q, r := a / channels, b / channels, a % channels;
    assert a == channels * p + r && b == channels * q;
    assert a - b == channels * (p - q) + r;
    ModOf(channels, p - q, r);
  }

  /** The product under the division of the drop rule, with a ring of three seconds. */
  function Load(sampleRate: nat, channels: nat, level: nat): (x: nat) {
    channels * (sampleRate * level)
  }

  function SkipAt(sampleRate: nat, channels: nat, level: nat): (skip: nat) {
    SkipAmount(3 * (sampleRate * channels), level)
  }

  lemma SkipOfLoad(sampleRate: nat, channels: nat, level: nat)
    ensures SkipAt(sampleRate, channels, level) == (Load(sampleRate, channels, level) / 40 + 1) / 2 * 2
  {
    var x := Load(sampleRate, channels, level);
    assert 3 * (sampleRate * channels) * level == 3 * x;
    assert 3 * x / 120 == x / 40;
  }

  lemma SkipOfEvenLoad(sampleRate: nat, channels: nat, level: nat, h: nat)
    requires Load(sampleRate, channels, level) == 80 * h
    ensures SkipAt(sampleRate, channels, level) == 2 * h
  {
    SkipOfLoad(sampleRate, channels, level);
  }

  lemma LoadOf80(p: nat, channels: nat, level: nat)
    ensures Load(80 * p, channels, level) == 80 * (channels * (p * level))
  {
  }

  lemma LoadOf40(q: nat, pairs: nat, level: nat)
    ensures Load(40 * q, 2 * pairs, level) == 80 * (pairs * (q * level))
  {
  }

  lemma SkipIsWhole(sampleRate: nat, channels: nat, level: nat)
    requires channels > 0 && KeepsFrames(sampleRate, channels)
    ensures Whole(SkipAt(sampleRate, channels, level), channels)
  {
    if channels == 1 {
    } else if channels == 2 {
    } else if sampleRate % 80 == 0 {
      var t := sampleRate / 80 * level;
      LoadOf80(sampleRate / 80, channels, level);
      SkipOfEvenLoad(sampleRate, channels, level, channels * t);
      assert 2 * (channels * t) == channels * (2 * t);
      WholeProduct(channels, 2 * t);
    } else {
      var t := sampleRate / 40 * level;
      LoadOf40(sampleRate / 40, channels / 2, level);
      SkipOfEvenLoad(sampleRate, channels, level, channels / 2 * t);
      assert 2 * (channels / 2 * t) == channels * t;
      WholeProduct(channels, t);
    }
  }

  lemma AppendKeepsFrames(d: Device, sampleRate: nat, channels: nat, buffer: seq<Sample>)
    requires channels > 0 && Whole(|buffer|, channels) && Whole(|d.ring|, channels)
    ensures Whole(|Appended(d, sampleRate * channels, buffer).ring|, channels)
  {
    WholeDifference(|d.ring| + |buffer|, |buffer|, channels);
    WholeProduct(channels, 3 * sampleRate);
    assert channels * (3 * sampleRate) == 3 * (sampleRate * channels);
  }

  lemma ShrinkKeepsFrames(d: Device, sampleRate: nat, channels: nat, now: int)
    requires sampleRate * channels > 0 && channels > 0 && KeepsFrames(sampleRate, channels)
    requires Whole(|d.ring|, channels)
    ensures Whole(|Shrunk(d, sampleRate * channels, now).ring|, channels)
  {
    var d' := Shrunk(d, sampleRate * channels, now);
    var k := |d.ring| - |d'.ring|;
    var counts := Counted(d.counts, d.having, sampleRate * channels);
    var level := DropLevel(FirstArgmax(counts, BUCKETS), LeadingZeros(counts));
    SkipIsWhole(sampleRate, channels, level);
    assert k == 0 || k == SkipAt(sampleRate, channels, level);
    WholeDifference(|d.ring|, k, channels);
  }

  lemma PlaybackKeepsFrames(d: Device, channels: nat, n: nat)
    requires channels > 0 && Whole(n, channels) && Whole(|d.ring|, channels)
    ensures Whole(|PlayedBack(d, n).ring|, channels)
  {
    WholeDifference(|d.ring|, Min(n, |d.ring|), channels);
  }

  lemma {:induction false} RunKeepsFrames(sampleRate: nat, channels: nat, ops: seq<Op>)
    requires sampleRate * channels > 0 && channels > 0 && KeepsFrames(sampleRate, channels)
    requires Framed(ops, channels)
    ensures Whole(|RunFrom(New(), sampleRate * channels, ops).ring|, channels)
  {
    if ops != [] {
      var init, op := ops[..|ops| - 1], ops[|ops| - 1];
      RunKeepsFrames(sampleRate, channels, init);
      var d := RunFrom(New(), sampleRate * channels, init);
      match op {
        case Append(buffer) => AppendKeepsFrames(d, sampleRate, channels, buffer);
        case Shrink(now) => ShrinkKeepsFrames(d, sampleRate, channels, now);
        case Playback(n) => PlaybackKeepsFrames(d, channels, n);
      }
    }
  }

  // ----- all others can lose them

  /** Appending `frames` frames puts the occupancy into bucket `level`. */
  predicate Lands(sampleRate: nat, frames: nat, level: nat) {
    && 6 <= level < BUCKETS
    && 1 <= frames <= 3 * sampleRate
    && sampleRate * level <= 10 * frames
    && (level < 29 ==> 10 * frames < sampleRate * level + sampleRate)
  }

  lemma QuotientIs(a: nat, n: nat, q: nat)
    requires n > 0 && n * q <= a
    ensures a / n >= q && (a < n * q + n ==> a / n == q)
  {
    var d := a / n - q;
    assert a == n * (a / n) + a % n;
    assert n * d == n * (a / n) - n * q;
    MulBounds(n, d);
  }

  lemma FramesInSamples(sampleRate: nat, channels: nat, frames: nat)
    requires 1 <= frames <= 3 * sampleRate
    ensures channels <= channels * frames <= 3 * (sampleRate * channels)
  {
    MulMono(1, frames, channels);
    MulMono(frames, 3 * sampleRate, channels);
    assert frames * channels == channels * frames;
    assert 3 * sampleRate * channels == 3 * (sampleRate * channels);
  }

  lemma AtLeastLevel(sampleRate: nat, channels: nat, frames: nat, level: nat)
    requires sampleRate * level <= 10 * frames
    ensures sampleRate * channels * level <= channels * frames * 10
  {
    MulMono(sampleRate * level, 10 * frames, channels);
    assert sampleRate * level * channels == sampleRate * channels * level;
    assert 10 * frames * channels == channels * frames * 10;
  }

  lemma BelowNextLevel(sampleRate: nat, channels: nat, frames: nat, level: nat)
    requires channels > 0 && 10 * frames < sampleRate * level + sampleRate
    ensures channels * frames * 10 < sampleRate * channels * level + sampleRate * channels
  {
    var y := sampleRate * level + sampleRate;
    MulMono(10 * frames + 1, y, channels);
    assert (10 * frames + 1) * channels == channels * frames * 10 + channels;
    assert y * channels == sampleRate * channels * level + sampleRate * channels;
  }

  lemma LandsInBucket(sampleRate: nat, channels: nat, frames: nat, level: nat)
    requires sampleRate * channels > 0 && channels > 0 && Lands(sampleRate, frames, level)
    ensures Bucket(channels * frames, sampleRate * channels) == level
  {
    AtLeastLevel(sampleRate, channels, frames, level);
    if level < 29 {
      BelowNextLevel(sampleRate, channels, frames, level);
    }
    QuotientIs(channels * frames * 10, sampleRate * channels, level);
  }

  /** What a pass drops when all it counted was bucket `level`. */
  lemma DroppedAtLevel(h: seq<nat>, level: nat, cap: nat, having: nat)
    requires |h| == BUCKETS && 6 <= level < BUCKETS && h[level] > 0
    requires forall j | 0 <= j < BUCKETS && j != level :: h[j] == 0
    requires 3 * SkipAmount(cap, level) < having
    ensures Dropped(h, cap, having) == SkipAmount(cap, level)
  {
    assert FirstArgmax(h, BUCKETS) == level && LeadingZeros(h) == level;
  }

  /** A run that breaks a frame: the ring is filled to `n` samples, one frame is played and appended
      again, and 12 seconds have passed. */
  function Breaking(n: nat, channels: nat): (ops: seq<Op>) {
    [Append(Silence(n)), Shrink(1), Playback(channels), Append(Silence(channels)), Shrink(12001)]
  }

  lemma ProducedMore(ops: seq<Op>, op: Op)
    ensures Owed(ops + [op]) <==> op.Append? || (op.Playback? && Owed(ops))
    ensures Produced(ops + [op]) <==>
            Produced(ops) && (op.Append? ==> !Owed(ops)) && (op.Shrink? ==> Owed(ops))
  {
    assert (ops + [op])[..|ops|] == ops;
  }

  lemma BreakingIsProduced(n: nat, channels: nat)
    ensures Produced(Breaking(n, channels))
  {
    var a, b, c := Append(Silence(n)), Shrink(1), Playback(channels);
    var d, e := Append(Silence(channels)), Shrink(12001);
    ProducedMore([], a);
    ProducedMore([a], b);
    ProducedMore([a, b], c);
    ProducedMore([a, b, c], d);
    ProducedMore([a, b, c, d], e);
    assert [] + [a] == [a] && [a] + [b] == [a, b] && [a, b] + [c] == [a, b, c];
    assert [a, b, c] + [d] == [a, b, c, d] && [a, b, c, d] + [e] == Breaking(n, channels);
  }

  lemma BreakingIsFramed(n: nat, channels: nat)
    requires channels > 0 && Whole(n, channels)
    ensures Framed(Breaking(n, channels), channels)
  {
    WholeProduct(channels, 1);
  }

  lemma Unroll(rate: nat, a: Op, b: Op, c: Op, d: Op, e: Op)
    requires rate > 0
    ensures RunFrom(New(), rate, [a, b, c, d, e])
            == Step(Step(Step(Step(Step(New(), rate, a), rate, b), rate, c), rate, d), rate, e)
  {
    OneMore(New(), rate, [], a);
    OneMore(New(), rate, [a], b);
    OneMore(New(), rate, [a, b], c);
    OneMore(New(), rate, [a, b, c], d);
    OneMore(New(), rate, [a, b, c, d], e);
    assert [] + [a] == [a] && [a] + [b] == [a, b] && [a, b] + [c] == [a, b, c];
    assert [a, b, c] + [d] == [a, b, c, d] && [a, b, c, d] + [e] == [a, b, c, d, e];
  }

  /** The first four steps: the occupancy is `n` again, and was counted once. */
  lemma Refilled(rate: nat, n: nat, k: nat)
    requires rate > 0 && k <= n <= 3 * rate
    ensures var d2 := Shrunk(Appended(New(), rate, Silence(n)), rate, 1);
            var d := Appended(PlayedBack(d2, k), rate, Silence(k));
            |d.ring| == n == d.having && d.tms == 1 && d.counts == Counted(New().counts, n, rate)
  {
  }

  lemma BreakingDrops(rate: nat, n: nat, k: nat, level: nat)
    requires rate > 0 && k <= n <= 3 * rate && 6 <= level < BUCKETS && Bucket(n, rate) == level
    requires 3 * SkipAmount(3 * rate, level) < n
    ensures |RunFrom(New(), rate, Breaking(n, k)).ring| == n - SkipAmount(3 * rate, level)
  {
    var ops := Breaking(n, k);
    Unroll(rate, ops[0], ops[1], ops[2], ops[3], ops[4]);
    Refilled(rate, n, k);
    var counts := Counted(Counted(New().counts, n, rate), n, rate);
    DroppedAtLevel(counts, level, 3 * rate, n);
  }

  lemma RestIsNotWhole(n: nat, skip: nat, channels: nat)
    requires channels > 0 && skip <= n && Whole(n, channels) && !Whole(skip, channels)
    ensures !Whole(n - skip, channels)
  {
    if Whole(n - skip, channels) {
      WholeDifference(n, n - skip, channels);
      assert false;
    }
  }

  lemma Breaks(sampleRate: nat, channels: nat, frames: nat, level: nat)
    requires sampleRate * channels > 0 && channels > 0 && Lands(sampleRate, frames, level)
    requires 3 * SkipAt(sampleRate, channels, level) < channels * frames
    requires !Whole(SkipAt(sampleRate, channels, level), channels)
    ensures !FramesSurvive(sampleRate, channels)
  {
    var n, skip := channels * frames, SkipAt(sampleRate, channels, level);
    FramesInSamples(sampleRate, channels, frames);
    LandsInBucket(sampleRate, channels, frames, level);
    WholeProduct(channels, frames);
    BreakingIsProduced(n, channels);
    BreakingIsFramed(n, channels);
    BreakingDrops(sampleRate * channels, n, channels, level);
    RestIsNotWhole(n, skip, channels);
  }

  lemma NotWhole(channels: nat, m: nat, f: nat)
    requires 0 < f < channels
    ensures !Whole(channels * m + f, channels)
  {
    ModOf(channels, m, f);
  }

  lemma SplitLoad(sampleRate: nat, channels: nat, level: nat, m: nat, r: nat)
    requires sampleRate * level == 40 * m + r
    ensures Load(sampleRate, channels, level) == 40 * (channels * m) + channels * r
  {
    assert channels * (40 * m + r) == 40 * (channels * m) + channels * r;
  }

  lemma OffBeatRemainder(channels: nat, whole: nat, r: nat) returns (f: nat)
    requires channels > 2 && 16 <= r <= 24
    ensures 0 < f < channels && ((40 * whole + channels * r) / 40 + 1) / 2 * 2 == whole + f
  {
    MulMono(16, r, channels);
    MulMono(r, 24, channels);
    var part := channels * r;
    f := if (whole + part / 40) % 2 == 0 then part / 40 else part / 40 + 1;
  }

  /** Where the load is far enough from a multiple, the drop is no multiple of three channels or more. */
  lemma OffBeat(sampleRate: nat, channels: nat, level: nat, m: nat, r: nat)
    requires channels > 2 && sampleRate * level == 40 * m + r && 16 <= r <= 24
    ensures !Whole(SkipAt(sampleRate, channels, level), channels)
  {
    SkipOfLoad(sampleRate, channels, level);
    SplitLoad(sampleRate, channels, level, m, r);
    var f := OffBeatRemainder(channels, channels * m, r);
    NotWhole(channels, m, f);
  }

  /** An odd load is rounded up to one sample more than whole frames. */
  lemma OddSkip(sampleRate: nat, pairs: nat)
    requires sampleRate % 80 == 40
    ensures var n := 14 * (sampleRate / 80) + 7;
            SkipAt(sampleRate, 2 * pairs + 1, 7) == (2 * pairs + 1) * n + 1
  {
    var n := 14 * (sampleRate / 80) + 7;
    SkipOfLoad(sampleRate, 2 * pairs + 1, 7);
    SplitLoad(sampleRate, 2 * pairs + 1, 7, n, 0);
    var pn := pairs * n;
    assert (2 * pairs + 1) * n == 2 * pn + n;
  }

  lemma OddLoad(sampleRate: nat, channels: nat)
    requires channels > 2 && channels % 2 == 1 && sampleRate % 80 == 40
    ensures !Whole(SkipAt(sampleRate, channels, 7), channels)
  {
    OddSkip(sampleRate, channels / 2);
    assert channels == 2 * (channels / 2) + 1;
    NotWhole(channels, 14 * (sampleRate / 80) + 7, 1);
  }

  /** A load above 120 is enough for the pass to drop. */
  lemma HeavyEnough(sampleRate: nat, channels: nat, frames: nat, level: nat)
    requires sampleRate * level <= 10 * frames && Load(sampleRate, channels, level) > 120
    ensures 3 * SkipAt(sampleRate, channels, level) < channels * frames
  {
    SkipOfLoad(sampleRate, channels, level);
    LoadIsBelow(sampleRate, channels, frames, level);
    SkipIsBelowLoad(Load(sampleRate, channels, level), channels * frames);
  }

  lemma LoadIsBelow(sampleRate: nat, channels: nat, frames: nat, level: nat)
    requires sampleRate * level <= 10 * frames
    ensures Load(sampleRate, channels, level) <= 10 * (channels * frames)
  {
    MulMono(sampleRate * level, 10 * frames, channels);
    assert 10 * frames * channels == 10 * (channels * frames);
  }

  lemma SkipIsBelowLoad(x: nat, n: nat)
    requires 120 < x <= 10 * n
    ensures 3 * ((x / 40 + 1) / 2 * 2) < n
  {
  }

  lemma HeavyRates(sampleRate: nat, channels: nat, level: nat, c: nat)
    requires c <= channels && c * (sampleRate * level) > 120
    ensures Load(sampleRate, channels, level) > 120
  {
    MulMono(c, channels, sampleRate * level);
  }

  /** The few devices whose load is too light: there a full ring gives the break. */
  lemma LightLoad(sampleRate: nat, channels: nat)
    requires 1 <= sampleRate <= 2 && 3 <= channels <= 6
    ensures 3 * SkipAt(sampleRate, channels, 29) < channels * (3 * sampleRate)
    ensures !Whole(SkipAt(sampleRate, channels, 29), channels)
  {
    var skip := LightSkip(sampleRate, channels);
    NotWhole(channels, sampleRate - 1, if sampleRate == 1 then skip else skip - channels);
  }

  lemma LightSkip(sampleRate: nat, channels: nat) returns (skip: nat)
    requires 1 <= sampleRate <= 2 && 3 <= channels <= 6
    ensures skip == SkipAt(sampleRate, channels, 29)
    ensures if sampleRate == 1 then 0 < skip < channels else channels < skip < 2 * channels
  {
    SkipOfLoad(sampleRate, channels, 29);
    skip := (Load(sampleRate, channels, 29) / 40 + 1) / 2 * 2;
    if sampleRate == 1 {
      assert Load(sampleRate, channels, 29) == 29 * channels;
    } else {
      assert Load(sampleRate, channels, 29) == 58 * channels;
    }
  }

  /** A water mark at which the drop breaks a frame, and an occupancy that gives it. */
  predicate OffBeatAt(sampleRate: nat, frames: nat, level: nat, m: nat, r: nat) {
    && Lands(sampleRate, frames, level)
    && sampleRate * level == 40 * m + r
    && 16 <= r <= 24
  }

  lemma OddRate(h: nat)
    ensures OffBeatAt(2 * h + 1, 4 * h + 2, 20, h, 20)
  {
    assert (2 * h + 1) * 20 == 40 * h + 20;
  }

  lemma TwiceOddRate(h: nat)
    ensures OffBeatAt(4 * h + 2, 4 * h + 2, 10, h, 20)
  {
    assert (4 * h + 2) * 10 == 40 * h + 20;
  }

  lemma FourTimesOddRate(h: nat)
    ensures OffBeatAt(8 * h + 4, 12 * h + 6, 15, 3 * h + 1, 20)
  {
    assert (8 * h + 4) * 15 == 40 * (3 * h + 1) + 20;
  }

  lemma EightTimesRate(h: nat)
    ensures OffBeatAt(40 * h + 8, 28 * h + 6, 7, 7 * h + 1, 16)
    ensures OffBeatAt(40 * h + 16, 24 * h + 10, 6, 6 * h + 2, 16)
    ensures OffBeatAt(40 * h + 24, 24 * h + 15, 6, 6 * h + 3, 24)
    ensures OffBeatAt(40 * h + 32, 28 * h + 23, 7, 7 * h + 5, 24)
  {
    assert (40 * h + 8) * 7 == 280 * h + 56;
    assert (40 * h + 16) * 6 == 240 * h + 96;
    assert (40 * h + 24) * 6 == 240 * h + 144;
    assert (40 * h + 32) * 7 == 280 * h + 224;
  }

  lemma OffBeatEight(eighths: nat) returns (frames: nat, level: nat, m: nat, r: nat)
    requires eighths % 5 != 0
    ensures OffBeatAt(8 * eighths, frames, level, m, r) && m >= 1
  {
    var h, rest := eighths / 5, eighths % 5;
    assert eighths == 5 * h + rest;
    EightTimesRate(h);
    if rest == 1 {
      return 28 * h + 6, 7, 7 * h + 1, 16;
    } else if rest == 2 {
      return 24 * h + 10, 6, 6 * h + 2, 16;
    } else if rest == 3 {
      return 24 * h + 15, 6, 6 * h + 3, 24;
    } else {
      return 28 * h + 23, 7, 7 * h + 5, 24;
    }
  }

  lemma OffBeatLevel(sampleRate: nat) returns (frames: nat, level: nat, m: nat, r: nat)
    requires sampleRate % 40 != 0
    ensures OffBeatAt(sampleRate, frames, level, m, r)
    ensures if sampleRate > 2 then m >= 1 else r == 20
  {
    var half := sampleRate / 2;
    if sampleRate == 2 * half + 1 {
      OddRate(half);
      return 4 * half + 2, 20, half, 20;
    }
    var quarter := half / 2;
    if half == 2 * quarter + 1 {
      TwiceOddRate(quarter);
      return 4 * quarter + 2, 10, quarter, 20;
    }
    var eighth := quarter / 2;
    if quarter == 2 * eighth + 1 {
      FourTimesOddRate(eighth);
      return 12 * eighth + 6, 15, 3 * eighth + 1, 20;
    }
    assert sampleRate == 8 * eighth;
    frames, level, m, r := OffBeatEight(eighth);
  }

  lemma OffBeatBreaks(sampleRate: nat, channels: nat)
    requires sampleRate % 40 != 0 && channels > 2 && (sampleRate > 2 || channels > 6)
    ensures sampleRate * channels > 0 && !FramesSurvive(sampleRate, channels)
  {
    var frames, level, m, r := OffBeatLevel(sampleRate);
    MulMono(1, sampleRate, channels);
    HeavyRates(sampleRate, channels, level, if sampleRate > 2 then 3 else 7);
    HeavyEnough(sampleRate, channels, frames, level);
    OffBeat(sampleRate, channels, level, m, r);
    Breaks(sampleRate, channels, frames, level);
  }

  lemma OddLoadBreaks(sampleRate: nat, channels: nat)
    requires sampleRate % 80 == 40 && channels > 2 && channels % 2 == 1
    ensures sampleRate * channels > 0 && !FramesSurvive(sampleRate, channels)
  {
    var frames := 28 * (sampleRate / 40);
    MulMono(1, sampleRate, channels);
    HeavyRates(sampleRate, channels, 7, 3);
    HeavyEnough(sampleRate, channels, frames, 7);
    OddLoad(sampleRate, channels);
    Breaks(sampleRate, channels, frames, 7);
  }

  /** Whole frames survive every run exactly on devices with at most two channels, or with a sample rate
      that is a multiple of 80, or of 40 when the number of channels is even. */
  lemma FramesSurviveIff(sampleRate: nat, channels: nat)
    requires sampleRate * channels > 0 && channels > 0
    ensures FramesSurvive(sampleRate, channels) <==> KeepsFrames(sampleRate, channels)
  {
    if KeepsFrames(sampleRate, channels) {
      forall ops | Produced(ops) && Framed(ops, channels)
        ensures Whole(|RunFrom(New(), sampleRate * channels, ops).ring|, channels)
      {
        RunKeepsFrames(sampleRate, channels, ops);
      }
    } else if sampleRate <= 2 && channels <= 6 {
      LightLoad(sampleRate, channels);
      Breaks(sampleRate, channels, 3 * sampleRate, 29);
    } else if sampleRate % 40 != 0 {
      OffBeatBreaks(sampleRate, channels);
    } else {
      OddLoadBreaks(sampleRate, channels);
    }
  }

  /** The usual rates of six-channel devices: 48000 Hz keeps whole frames, 44100 Hz does not. */
  lemma SixChannels()
    ensures FramesSurvive(48000, 6) && !FramesSurvive(44100, 6)
  {
    FramesSurviveIff(48000, 6);
    FramesSurviveIff(44100, 6);
  }
}
