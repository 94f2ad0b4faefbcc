/** Runs of the audio buffer on one device: any interleaving of the producer and the output callback. */
module AudioRuns {
  import opened AudioJitter
  import opened AudioRing
  import opened Common

  // ----- what a run does, on values

  /** What happens between two releases of the lock. */
  datatype Op = Append(buffer: seq<Sample>) | Shrink(now: int) | Playback(n: nat)

  type Counters = h: seq<nat> | |h| == BUCKETS witness seq(BUCKETS, _ => 0)

  /** The buffer, the occupancy its producer saw last, everything played so far, and how much was
      dropped by overflow and by passes. */
  datatype Device = Device(ring: seq<Sample>, having: nat, counts: Counters, tms: int,
                           played: seq<Sample>, dropped: nat)

  function New(): (d: Device) {
    Device([], 0, seq(BUCKETS, _ => 0), 0, [], 0)
  }

  function Appended(d: Device, rate: nat, buffer: seq<Sample>): (d': Device) {
    var ring := KeepLast(d.ring + buffer, 3 * rate);
    d.(ring := ring, having := |ring|, dropped := d.dropped + (|d.ring + buffer| - |ring|))
  }

  function Shrunk(d: Device, rate: nat, now: int): (d': Device)
    requires rate > 0
  {
    var counts := Counted(d.counts, d.having, rate);
    if d.tms == 0 || now < d.tms + 12000 then
      d.(counts := counts, tms := if d.tms == 0 then now else d.tms)
    else
      var k := Dropped(counts, 3 * rate, |d.ring|);
      d.(ring := d.ring[k..], counts := seq(BUCKETS, _ => 0), tms := now, dropped := d.dropped + k)
  }

  function PlayedBack(d: Device, n: nat): (d': Device) {
    var k := Min(n, |d.ring|);
    d.(ring := d.ring[k..], played := d.played + d.ring[..k])
  }

  function Step(d: Device, rate: nat, op: Op): (d': Device)
    requires rate > 0
  {
    match op
    case Append(buffer) => Appended(d, rate, buffer)
    case Shrink(now) => Shrunk(d, rate, now)
    case Playback(n) => PlayedBack(d, n)
  }

  function RunFrom(d: Device, rate: nat, ops: seq<Op>): (d': Device)
    requires rate > 0
  {
    if ops == [] then d else Step(RunFrom(d, rate, ops[..|ops| - 1]), rate, ops[|ops| - 1])
  }

  /** Everything the producer appended, in order. */
  function AppendedBy(ops: seq<Op>): (all: seq<Sample>) {
    if ops == [] then []
    else
      var op := ops[|ops| - 1];
      AppendedBy(ops[..|ops| - 1]) + (if op.Append? then op.buffer else [])
  }

  lemma OneMore(d: Device, rate: nat, ops: seq<Op>, op: Op)
    requires rate > 0
    ensures RunFrom(d, rate, ops + [op]) == Step(RunFrom(d, rate, ops), rate, op)
    ensures AppendedBy(ops + [op]) == AppendedBy(ops) + (if op.Append? then op.buffer else [])
  {
    assert (ops + [op])[..|ops|] == ops;
  }

  // ----- the buffer itself does this

  function View(b: AudioBuffer, having: nat, played: seq<Sample>, dropped: nat): (d: Device)
    requires b.RingValid() && b.counts.Length == BUCKETS
    reads b, b.rb, b.rb.data, b.counts
  {
    Device(b.rb.Contents(), having, b.counts[..], b.tms, played, dropped)
  }

  method RunAppend(b: AudioBuffer, buffer: seq<Sample>, having: nat, played: seq<Sample>, dropped: nat)
    returns (having': nat, dropped': nat)
    requires b.Valid()
    modifies b.rb`head, b.rb`len, b.rb.data
    ensures b.Valid()
    ensures View(b, having', played, dropped') == Appended(old(View(b, having, played, dropped)), b.rate, buffer)
  {
    var held := b.rb.len;
    having' := b.AppendPcm2(buffer);
    dropped' := dropped + (held + |buffer| - having');
  }

  method RunShrink(b: AudioBuffer, now: int, having: nat, played: seq<Sample>, dropped: nat)
    returns (dropped': nat)
    requires b.Valid()
    modifies b`tms, b`observed, b`resized, b.rb`head, b.rb`len, b.counts
    ensures b.Valid()
    ensures View(b, having, played, dropped') == Shrunk(old(View(b, having, played, dropped)), b.rate, now)
  {
    var held := b.rb.len;
    var passed := b.TryShrink(having, now);
    dropped' := dropped + (held - b.rb.len);
    if passed {
      assert b.counts[..] == seq(BUCKETS, _ => 0);
    }
  }

  method RunPlayback(b: AudioBuffer, n: nat, having: nat, played: seq<Sample>, dropped: nat)
    returns (played': seq<Sample>)
    requires b.Valid()
    modifies b.rb`head, b.rb`len
    ensures b.Valid()
    ensures View(b, having, played', dropped) == PlayedBack(old(View(b, having, played, dropped)), n)
  {
    var k := Min(n, b.rb.len);
    ghost var held := b.rb.Contents();
    var out := b.Play(n);
    assert out[..k] == held[..k];
    played' := played + out[..k];
  }

  /** Any run on a device that is not changed. */
  method Run(b: AudioBuffer, ops: seq<Op>) returns (having: nat, played: seq<Sample>, dropped: nat)
    requires b.Valid()
    modifies b`tms, b`observed, b`resized, b.rb`head, b.rb`len, b.rb.data, b.counts
    ensures b.Valid()
    ensures View(b, having, played, dropped) == RunFrom(old(View(b, 0, [], 0)), b.rate, ops)
  {
    ghost var start := View(b, 0, [], 0);
    having, played, dropped := 0, [], 0;
    for i := 0 to |ops|
      invariant b.Valid()
      invariant View(b, having, played, dropped) == RunFrom(start, b.rate, ops[..i])
    {
      assert ops[..i + 1][..i] == ops[..i];
      match ops[i] {
        case Append(buffer) => having, dropped := RunAppend(b, buffer, having, played, dropped);
        case Shrink(now) => dropped := RunShrink(b, now, having, played, dropped);
        case Playback(n) => played := RunPlayback(b, n, having, played, dropped);
      }
    }
    assert ops[..|ops|] == ops;
  }

  // ----- order and conservation

  /** Positions in playing order, all before `bound`. */
  predicate IncreasingBelow(at: seq<nat>, bound: nat) {
    && (forall i | 0 <= i < |at| :: at[i] < bound)
    && (forall i, j | 0 <= i < j < |at| :: at[i] < at[j])
  }

  /** The played samples are those at the given positions of what was appended. */
  predicate PlayedInOrder(played: seq<Sample>, all: seq<Sample>, at: seq<nat>) {
    && |played| == |at|
    && forall i | 0 <= i < |at| :: at[i] < |all| && played[i] == all[at[i]]
  }

  /** Every appended sample is played, dropped or still buffered: the buffered ones are the newest, and
      the played ones an in-order selection of the others. */
  predicate Accounted(d: Device, all: seq<Sample>, at: seq<nat>) {
    && |all| == |d.played| + d.dropped + |d.ring|
    && d.ring == all[|all| - |d.ring|..]
    && IncreasingBelow(at, |all| - |d.ring|)
    && PlayedInOrder(d.played, all, at)
  }

  function Range(from: nat, k: nat): (r: seq<nat>)
    ensures |r| == k && forall i | 0 <= i < k :: r[i] == from + i
  {
    seq(k, i => from + i)
  }

  lemma AppendIsAccounted(d: Device, rate: nat, buffer: seq<Sample>, all: seq<Sample>, at: seq<nat>)
    requires Accounted(d, all, at)
    ensures Accounted(Appended(d, rate, buffer), all + buffer, at)
  {
    assert d.ring + buffer == (all + buffer)[|all| - |d.ring|..];
  }

  /** The oldest `k` samples leave the ring. */
  lemma DropIsAccounted(d: Device, k: nat, all: seq<Sample>, at: seq<nat>)
    requires Accounted(d, all, at) && k <= |d.ring|
    ensures Accounted(d.(ring := d.ring[k..], dropped := d.dropped + k), all, at)
  {
  }

  lemma PlayIsAccounted(d: Device, n: nat, all: seq<Sample>, at: seq<nat>)
    requires Accounted(d, all, at)
    ensures Accounted(PlayedBack(d, n), all, at + Range(|all| - |d.ring|, Min(n, |d.ring|)))
  {
    var k, from := Min(n, |d.ring|), |all| - |d.ring|;
    assert d.ring[..k] == all[from..from + k];
    assert d.ring[k..] == all[from + k..];
  }

  /** Over every interleaving: what was appended is played, dropped or buffered, in order. */
  lemma {:induction false} RunIsAccounted(rate: nat, ops: seq<Op>) returns (at: seq<nat>)
    requires rate > 0
    ensures Accounted(RunFrom(New(), rate, ops), AppendedBy(ops), at)
  {
    if ops == [] {
      at := [];
    } else {
      var init, op := ops[..|ops| - 1], ops[|ops| - 1];
      at := RunIsAccounted(rate, init);
      var d, all := RunFrom(New(), rate, init), AppendedBy(init);
      match op {
        case Append(buffer) => AppendIsAccounted(d, rate, buffer, all, at);
        case Shrink(now) =>
          assert all + [] == all;
          DropIsAccounted(d, |d.ring| - |Shrunk(d, rate, now).ring|, all, at);
        case Playback(n) =>
          assert all + [] == all;
          PlayIsAccounted(d, n, all, at);
          at := at + Range(|all| - |d.ring|, Min(n, |d.ring|));
      }
    }
  }

  /** As long as nothing is played and no pass is made, the ring holds the newest of everything. */
  lemma {:induction false} AppendsKeepTheNewest(rate: nat, ops: seq<Op>)
    requires rate > 0 && forall i | 0 <= i < |ops| :: ops[i].Append?
    ensures RunFrom(New(), rate, ops).ring == KeepLast(AppendedBy(ops), 3 * rate)
  {
    if ops != [] {
      var init := ops[..|ops| - 1];
      AppendsKeepTheNewest(rate, init);
      KeepLastInPieces(AppendedBy(init), ops[|ops| - 1].buffer, 3 * rate);
    }
  }
}
