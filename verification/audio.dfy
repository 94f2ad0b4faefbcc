/** The audio jitter buffer: appending, shrinking by occupancy statistics, and the output callback. */
module AudioJitter {
  import opened AudioRing
  import opened Common

  const BUCKETS: nat := 30

  // ----- the drop rule, stated on a histogram

  /** The position of the first largest bucket among the first `k`. */
  function FirstArgmax(h: seq<nat>, k: nat): (m: nat)
    requires 1 <= k <= |h|
    ensures m < k && forall j | 0 <= j < k :: h[j] <= h[m]
    ensures forall j | 0 <= j < m :: h[j] < h[m]
  {
    if k == 1 then 0
    else
      var m := FirstArgmax(h, k - 1);
      if h[k - 1] > h[m] then k - 1 else m
  }

  /** The length of the run of empty buckets at the start. */
  function LeadingZeros(h: seq<nat>): (z: nat)
    ensures z <= |h| && (forall j | 0 <= j < z :: h[j] == 0) && (z < |h| ==> h[z] != 0)
  {
    if h == [] || h[0] != 0 then 0 else 1 + LeadingZeros(h[1..])
  }

  /** The water mark, in buckets, on which the drop is based; 0 means no drop. */
  function DropLevel(max: nat, zeros: nat): (level: nat) {
    if max < 6 then 0 else Min(max, zeros * 2 / 3 * 4)
  }

  function SkipAmount(cap: nat, level: nat): (skip: nat)
    ensures skip % 2 == 0
  {
    (cap * level / (30 * 4) + 1) / 2 * 2
  }

  /** What a pass decides to drop from a ring holding `having` samples. */
  function Dropped(h: seq<nat>, cap: nat, having: nat): (d: nat)
    requires |h| == BUCKETS
    ensures d % 2 == 0 && 3 * d <= having && (d > 0 ==> 3 * d < having)
  {
    var skip := SkipAmount(cap, DropLevel(FirstArgmax(h, BUCKETS), LeadingZeros(h)));
    if having > skip * 3 && skip > 0 then skip else 0
  }

  /** The scan empties bucket 0 before comparing it with the others; that never changes the level. */
  lemma ClearedBucketIsIrrelevant(h: seq<nat>)
    requires |h| == BUCKETS
    ensures DropLevel(FirstArgmax(h[0 := 0], BUCKETS), LeadingZeros(h))
            == DropLevel(FirstArgmax(h, BUCKETS), LeadingZeros(h))
  {
    if h[0] == 0 {
      assert h[0 := 0] == h;
    }
  }

  // ----- occupancies and their histogram

  function Bucket(having: nat, rate: nat): (i: nat)
    requires rate > 0
    ensures i < BUCKETS
  {
    Min(having * 10 / rate, 29)
  }

  /** The counters after one more occupancy. */
  function Counted(h: seq<nat>, having: nat, rate: nat): (r: seq<nat>)
    requires |h| == BUCKETS && rate > 0
    ensures |r| == BUCKETS
  {
    var b := Bucket(having, rate);
    h[b := h[b] + 1]
  }

  function Silence(n: nat): (s: seq<Sample>)
    ensures |s| == n && forall i | 0 <= i < n :: s[i] == 0.0
  {
    seq(n, _ => 0.0)
  }

  function Histogram(observed: seq<nat>, rate: nat): (h: seq<nat>)
    requires rate > 0
    ensures |h| == BUCKETS
  {
    if observed == [] then seq(BUCKETS, _ => 0)
    else
      Counted(Histogram(observed[..|observed| - 1], rate), observed[|observed| - 1], rate)
  }

  lemma EmptyHistogram(h: seq<nat>, rate: nat)
    requires rate > 0 && |h| == BUCKETS && forall i | 0 <= i < BUCKETS :: h[i] == 0
    ensures h == Histogram([], rate)
  {
  }

  lemma {:induction false} ObservedIsCounted(observed: seq<nat>, rate: nat, o: nat)
    requires rate > 0 && o in observed
    ensures Histogram(observed, rate)[Bucket(o, rate)] > 0
  {
    var k := |observed| - 1;
    if o != observed[k] {
      ObservedIsCounted(observed[..k], rate, o);
    }
  }

  /** The clamp to the last bucket is reached only by a full ring. */
  lemma ClampOnlyWhenFull(having: nat, rate: nat)
    requires rate > 0 && having <= 3 * rate
    ensures having * 10 / rate > 29 <==> having == 3 * rate
  {
    if having * 10 / rate > 29 {
      assert having * 10 >= 30 * rate;
    }
    if having == 3 * rate {
      assert having * 10 == 30 * rate;
    }
  }

  lemma DivThenMul(z: nat, a: nat, r: nat)
    requires r > 0 && z <= a / r
    ensures z * r <= a
  {
    var q := a / r;
    assert q * r + a % r == a;
    assert z * r <= q * r;
  }

  /** The arithmetic of the drop rule, with the ring three times the rate. */
  lemma SkipIsBelow(z: nat, level: nat, rate: nat, bound: nat)
    requires 3 * level <= 8 * z && z * rate <= bound
    ensures 15 * SkipAmount(3 * rate, level) <= bound + 15
  {
    var p, q := z * rate, level * rate;
    assert 3 * q <= 8 * p by {
      assert 3 * q == (3 * level) * rate && 8 * p == (8 * z) * rate;
      var d := 8 * z - 3 * level;
      assert (8 * z) * rate == (3 * level) * rate + d * rate;
    }
    assert 3 * rate * level == 3 * q;
  }

  /** With the ring holding three seconds, a pass drops at most two thirds of the lowest occupancy it
      has observed, plus one sample. */
  lemma DropIsBelowTheLowestOccupancy(observed: seq<nat>, rate: nat, having: nat, o: nat)
    requires rate > 0 && o in observed
    ensures 3 * Dropped(Histogram(observed, rate), 3 * rate, having) <= 2 * o + 3
  {
    var h := Histogram(observed, rate);
    var z := LeadingZeros(h);
    ObservedIsCounted(observed, rate, o);
    DivThenMul(z, o * 10, rate);
    SkipIsBelow(z, DropLevel(FirstArgmax(h, BUCKETS), z), rate, o * 10);
  }

  lemma DropIsBelowEveryOccupancy(observed: seq<nat>, rate: nat, having: nat)
    requires rate > 0
    ensures forall o | o in observed :: 3 * Dropped(Histogram(observed, rate), 3 * rate, having) <= 2 * o + 3
  {
    forall o | o in observed
      ensures 3 * Dropped(Histogram(observed, rate), 3 * rate, having) <= 2 * o + 3
    {
      DropIsBelowTheLowestOccupancy(observed, rate, having, o);
    }
  }

  /** The rule of a pass, in numbers: `m` is the first largest bucket and `z` the length of the run of empty
      buckets at the start. */
  lemma DropRule(h: seq<nat>, cap: nat, having: nat, m: nat, z: nat)
    requires |h| == BUCKETS && m < 30 && z <= 30
    requires (forall j | 0 <= j < 30 :: h[j] <= h[m]) && (forall j | 0 <= j < m :: h[j] < h[m])
    requires (forall j | 0 <= j < z :: h[j] == 0) && (z < 30 ==> h[z] > 0)
    ensures m < 6 ==> Dropped(h, cap, having) == 0
    ensures m >= 6 ==>
              var level := if m <= 4 * (2 * z / 3) then m else 4 * (2 * z / 3);
              var x := cap * level / 120;
              var even := x + x % 2;
              Dropped(h, cap, having) == if having > 3 * even then even else 0
  {
    FirstArgmaxIs(h, m);
    LeadingZerosIs(h, z);
    SkipIsRoundedUp(cap, DropLevel(m, z));
  }

  lemma FirstArgmaxIs(h: seq<nat>, m: nat)
    requires |h| == BUCKETS && m < 30
    requires (forall j | 0 <= j < 30 :: h[j] <= h[m]) && (forall j | 0 <= j < m :: h[j] < h[m])
    ensures FirstArgmax(h, BUCKETS) == m
  {
    var n := FirstArgmax(h, BUCKETS);
    assert h[n] == h[m];
  }

  lemma LeadingZerosIs(h: seq<nat>, z: nat)
    requires z <= |h| && (forall j | 0 <= j < z :: h[j] == 0) && (z < |h| ==> h[z] > 0)
    ensures LeadingZeros(h) == z
  {
  }

  lemma SkipIsRoundedUp(cap: nat, level: nat)
    ensures var x := cap * level / 120; SkipAmount(cap, level) == x + x % 2
  {
    var y := cap * level;
    assert y / (30 * 4) == y / 120;
  }

  /** A buffer that is below 600 ms at least as often as at any other level is not shrunk. */
  lemma UsuallyLowIsKept(h: seq<nat>, cap: nat, having: nat, k: nat)
    requires |h| == BUCKETS && k < 6 && forall j | 0 <= j < 30 :: h[j] <= h[k]
    ensures Dropped(h, cap, having) == 0
  {
    var m := FirstArgmax(h, BUCKETS);
    assert h[m] <= h[k];
    DropRule(h, cap, having, m, LeadingZeros(h));
  }

  /** How many of the occupancies fall into bucket `b`: a bucket is a tenth of a second, the last one takes
      all above. */
  function Tally(observed: seq<nat>, rate: nat, b: nat): (n: nat)
    requires rate > 0
  {
    if observed == [] then 0
    else
      var tenths := observed[|observed| - 1] * 10 / rate;
      Tally(observed[..|observed| - 1], rate, b) + (if (if tenths > 29 then 29 else tenths) == b then 1 else 0)
  }

  lemma {:induction false} HistogramTallies(observed: seq<nat>, rate: nat, b: nat)
    requires rate > 0 && b < BUCKETS
    ensures Histogram(observed, rate)[b] == Tally(observed, rate, b)
  {
    if observed != [] {
      HistogramTallies(observed[..|observed| - 1], rate, b);
    }
  }

  /** The tally of a buffer that always held `o` samples. */
  lemma {:induction false} SteadyTally(rate: nat, o: nat, n: nat, b: nat)
    requires rate > 0 && b < BUCKETS
    ensures Histogram(seq(n, _ => o), rate)[b] == if b == Bucket(o, rate) then n else 0
  {
    if n > 0 {
      SteadyTally(rate, o, n - 1, b);
      assert seq(n, _ => o)[..n - 1] == seq(n - 1, _ => o);
    }
  }

  /** What a steady buffer loses in a pass: nothing below 600 ms, and otherwise about a quarter. */
  lemma SteadyBuffer(rate: nat, o: nat, n: nat)
    requires rate > 20 && n > 0 && o <= 3 * rate
    ensures var d := Dropped(Histogram(seq(n, _ => o), rate), 3 * rate, o);
            && (10 * o < 6 * rate ==> d == 0)
            && (10 * o >= 6 * rate ==> d > 0 && 4 * d <= o + 4 && 3 * o < 14 * (d + 1))
  {
    var h, k := Histogram(seq(n, _ => o), rate), Bucket(o, rate);
    forall b | 0 <= b < 30 ensures h[b] == if b == k then n else 0 {
      SteadyTally(rate, o, n, b);
    }
    BucketBounds(rate, o, k);
    DropRule(h, 3 * rate, o, k, k);
    if k >= 6 {
      SteadyDrop(rate, o, k);
    }
  }

  lemma BucketBounds(rate: nat, o: nat, k: nat)
    requires rate > 0 && o <= 3 * rate && k == Bucket(o, rate)
    ensures rate * k <= 10 * o && (10 * o < rate * k + rate || (k == 29 && 10 * o <= rate * k + rate))
    ensures k >= 6 <==> 10 * o >= 6 * rate
  {
    var q := o * 10 / rate;
    assert o * 10 == rate * q + o * 10 % rate;
    if q > 29 {
      MulMono(30, q, rate);
      assert 30 * rate <= q * rate == rate * q;
    }
    if q >= 6 {
      MulMono(6, q, rate);
      assert q * rate == rate * q;
    } else {
      MulMono(q + 1, 6, rate);
      assert (q + 1) * rate == rate * q + rate;
    }
  }

  lemma SteadyDrop(rate: nat, o: nat, k: nat)
    requires rate > 20 && 6 <= k < 30 && rate * k <= 10 * o <= rate * k + rate
    ensures var x := 3 * rate * k / 120;
            var even := x + x % 2;
            k <= 4 * (2 * k / 3) && o > 3 * even > 0 && 4 * even <= o + 4 && 3 * o < 14 * (even + 1)
  {
    var y := rate * k;
    MulMono(6, k, rate);
    assert k * rate == y;
    assert 3 * rate * k == 3 * y && 3 * y / 120 == y / 40;
  }

  // ----- the buffer

  /** `AudioBuffer`, with the occupancies counted since the last pass as a ghost log. */
  class AudioBuffer {
    var rb: HeapRb
    var rate: nat  // samples per second over all channels
    var counts: array<nat>
    var tms: int  // time of the last pass, 0 before the first one

    ghost var observed: seq<nat>  // occupancies counted since the last pass
    ghost var resized: bool  // whether the ring was replaced since the last pass

    /** The ring holds three seconds. */
    predicate RingValid()
      reads this, rb, rb.data
    {
      rb.Valid() && rate > 0 && rb.Capacity() == 3 * rate
    }

    ghost predicate Valid()
      reads this, rb, rb.data, counts
    {
      && RingValid()
      && counts.Length == BUCKETS
      && (!resized ==> counts[..] == Histogram(observed, rate))
    }

    /** Three seconds of two-channel audio at 48 kHz. */
    constructor ()
      ensures Valid() && fresh(rb) && fresh(rb.data) && fresh(counts)
      ensures rb.Contents() == [] && rate == 96000 && tms == 0
      ensures observed == [] && !resized
    {
      var ring := new HeapRb(288000);
      rb, rate, tms := ring, 96000, 0;
      counts := new nat[BUCKETS](_ => 0);
      observed, resized := [], false;
      new;
      EmptyHistogram(counts[..], rate);
    }

    method Resize(sampleRate: nat, channels: nat)
      requires Valid() && sampleRate * channels > 0
      modifies this
      ensures Valid() && rate == sampleRate * channels && counts == old(counts)
      ensures rate == old(rate) ==> unchanged(this)
      ensures rate != old(rate) ==> fresh(rb) && fresh(rb.data) && rb.Contents() == []
                                    && tms == old(tms) && resized
    {
      SetRate(sampleRate * channels);
    }

    /** A new ring replaces the old one when the capacity changes; the counts stay. */
    method SetRate(samples: nat)
      requires Valid() && samples > 0
      modifies this
      ensures Valid() && rate == samples && counts == old(counts)
      ensures rate == old(rate) ==> unchanged(this)
      ensures rate != old(rate) ==> fresh(rb) && fresh(rb.data) && rb.Contents() == []
                                    && tms == old(tms) && resized
    {
      var capacity := samples * 3000 / 1000;
      if capacity != rb.Capacity() {
        rb := new HeapRb(capacity);
        rate := samples;
        resized := true;
      }
    }

    /** Keeps the newest samples that fit and returns how many there are. */
    method AppendPcm2(buffer: seq<Sample>) returns (having: nat)
      requires Valid()
      modifies rb`head, rb`len, rb.data
      ensures Valid() && having == |rb.Contents()|
      ensures rb.Contents() == KeepLast(old(rb.Contents()) + buffer, rb.Capacity())
    {
      having := AppendToRing(rb, buffer);
    }

    /** Counts an occupancy and, at most every 12 seconds, drops old samples. */
    method TryShrink(having: nat, now: int) returns (passed: bool)
      requires Valid()
      modifies this`tms, this`observed, this`resized, rb`head, rb`len, counts
      ensures Valid()
      ensures passed <==> old(tms) != 0 && now >= old(tms) + 12000
      ensures !passed ==> rb.Contents() == old(rb.Contents())
                          && observed == old(observed) + [having] && resized == old(resized)
                          && counts[..] == Counted(old(counts[..]), having, rate)
                          && tms == (if old(tms) == 0 then now else old(tms))
      ensures passed ==> tms == now && observed == [] && !resized
      ensures passed ==> forall i | 0 <= i < BUCKETS :: counts[i] == 0
      ensures passed ==>
                var d := Dropped(Counted(old(counts[..]), having, rate), rb.Capacity(), |old(rb.Contents())|);
                rb.Contents() == old(rb.Contents())[d..]
      ensures passed && !old(resized) ==>
                forall o | o in old(observed) + [having] ::
                  3 * (|old(rb.Contents())| - |rb.Contents()|) <= 2 * o + 3
    {
      Count(having);
      if tms == 0 {
        tms := now;
        return false;
      } else if now < tms + 12000 {
        return false;
      }
      tms := now;
      Pass();
      return true;
    }

    method Count(having: nat)
      requires Valid()
      modifies this`observed, counts
      ensures Valid() && observed == old(observed) + [having]
      ensures counts[..] == Counted(old(counts[..]), having, rate)
    {
      var i := having * 10 / rate;
      if i > 29 {
        i := 29;
      }
      assert i == Bucket(having, rate);
      counts[i] := counts[i] + 1;
      assert counts[..] == Counted(old(counts[..]), having, rate);
      observed := observed + [having];
      assert observed[..|observed| - 1] == old(observed);
    }

    method Pass()
      requires Valid()
      modifies this`observed, this`resized, rb`head, rb`len, counts
      ensures Valid() && observed == [] && !resized
      ensures forall i | 0 <= i < BUCKETS :: counts[i] == 0
      ensures var d := Dropped(old(counts[..]), rb.Capacity(), |old(rb.Contents())|);
              rb.Contents() == old(rb.Contents())[d..]
      ensures !old(resized) ==>
                forall o | o in old(observed) :: 3 * (|old(rb.Contents())| - |rb.Contents()|) <= 2 * o + 3
    {
      ghost var h, seen, held, countsKept := counts[..], observed, rb.len, !resized;
      var max, zero := Reset();
      ClearedBucketIsIrrelevant(h);
      var d := DropOldest(max, zero);
      if countsKept {
        DropIsBelowEveryOccupancy(seen, rate, held);
      }
    }

    /** Reads and clears the counters. */
    method Reset() returns (max: nat, zero: nat)
      requires Valid()
      modifies this`observed, this`resized, counts
      ensures Valid() && observed == [] && !resized
      ensures max == FirstArgmax(old(counts[..])[0 := 0], BUCKETS) && zero == LeadingZeros(old(counts[..]))
      ensures forall i | 0 <= i < BUCKETS :: counts[i] == 0
    {
      max, zero := ScanAndClear(counts);
      observed, resized := [], false;
      EmptyHistogram(counts[..], rate);
    }

    /** Drops what the two water marks allow. */
    method DropOldest(max: nat, zero: nat) returns (d: nat)
      requires RingValid()
      modifies rb`head, rb`len
      ensures RingValid()
      ensures var skip := SkipAmount(rb.Capacity(), DropLevel(max, zero));
              d == if |old(rb.Contents())| > skip * 3 && skip > 0 then skip else 0
      ensures d <= |old(rb.Contents())| && rb.Contents() == old(rb.Contents())[d..]
    {
      d := AmountToDrop(max, zero, rb.Capacity(), rb.len);
      rb.Skip(d);
    }

    /** The output callback, under the lock it finally pops with: it plays what there is and fills up
        with silence. */
    method Play(n: nat) returns (out: seq<Sample>)
      requires Valid()
      modifies rb`head, rb`len
      ensures Valid()
      ensures var k := Min(n, |old(rb.Contents())|);
              && out == old(rb.Contents())[..k] + Silence(n - k)
              && rb.Contents() == old(rb.Contents())[k..]
    {
      var having := rb.len;
      var k := if having < n then having else n;
      var elems := rb.PopSlice(k);
      out := elems + Silence(n - k);
    }
  }

  /** The pass has dealt with the first `i` counters: of them only the largest so far is left, and bucket 0
      is taken as empty. */
  predicate Scanned(now: seq<nat>, h: seq<nat>, i: nat, max: nat)
    requires |now| == |h| == BUCKETS && i <= BUCKETS
  {
    && (forall j | i <= j < BUCKETS :: now[j] == h[j])
    && (forall j | 0 <= j < i && j != max :: now[j] == 0)
    && (if i == 0 then max == 0
        else max < i && now[max] == h[0 := 0][max] && max == FirstArgmax(h[0 := 0], i))
  }

  lemma ScanStep(now: seq<nat>, h: seq<nat>, i: nat, max: nat)
    requires |now| == |h| == BUCKETS && i < BUCKETS && max < BUCKETS && Scanned(now, h, i, max)
    ensures if now[i] > now[max] then Scanned(now[max := 0], h, i + 1, i) else Scanned(now[i := 0], h, i + 1, max)
  {
    if i == 0 {
      assert FirstArgmax(h[0 := 0], i + 1) == 0;
    } else {
      var m := FirstArgmax(h[0 := 0], i);
      assert FirstArgmax(h[0 := 0], i + 1) == if h[0 := 0][i] > h[0 := 0][m] then i else m;
    }
  }

  /** One pass over the counters, clearing each on the way: the first largest bucket, with bucket 0
      taken as empty, and the run of empty buckets at the start. */
  method ScanAndClear(counts: array<nat>) returns (max: nat, zero: nat)
    requires counts.Length == BUCKETS
    modifies counts
    ensures max == FirstArgmax(old(counts[..])[0 := 0], BUCKETS)
    ensures zero == LeadingZeros(old(counts[..]))
    ensures forall i | 0 <= i < BUCKETS :: counts[i] == 0
  {
    ghost var h := counts[..];
    max, zero := 0, 0;
    for i := 0 to BUCKETS
      invariant max < BUCKETS && Scanned(counts[..], h, i, max)
      invariant zero == Min(i, LeadingZeros(h))
    {
      ghost var now := counts[..];
      ScanStep(now, h, i, max);
      if counts[i] == 0 && zero == i {
        zero := zero + 1;
      }
      if counts[i] > counts[max] {
        counts[max] := 0;
        assert counts[..] == now[max := 0];
        max := i;
      } else {
        counts[i] := 0;
        assert counts[..] == now[i := 0];
      }
    }
    counts[max] := 0;
  }

  method AmountToDrop(max0: nat, zero0: nat, cap: nat, having: nat) returns (d: nat)
    ensures var skip := SkipAmount(cap, DropLevel(max0, zero0));
            d == if having > skip * 3 && skip > 0 then skip else 0
  {
    var max, zero := max0, zero0 * 2 / 3;
    if max < 6 {
      return 0;
    } else if max > zero * 4 {
      max := zero * 4;
    }
    assert max == DropLevel(max0, zero0);
    var skip := SkipAmount(cap, max);
    return if having > skip * 3 && skip > 0 then skip else 0;
  }

  method AppendToRing(rb: HeapRb, buffer: seq<Sample>) returns (having: nat)
    requires rb.Valid()
    modifies rb`head, rb`len, rb.data
    ensures rb.Valid() && having == |rb.Contents()|
    ensures rb.Contents() == KeepLast(old(rb.Contents()) + buffer, rb.Capacity())
  {
    KeepLastOfConcat(rb.Contents(), buffer, rb.Capacity());
    var cap := rb.Capacity();
    if |buffer| > cap {
      rb.PushSliceOverwrite(buffer);
      return cap;
    }
    having := rb.len + |buffer|;
    if having > cap {
      rb.Skip(having - cap);
    }
    rb.PushSliceOverwrite(buffer);
    having := rb.len;
  }
}
