/** The bounded ring the audio buffer is built on (crate `ringbuf`), over an array. */
module AudioRing {
  import opened Common

  /** A sample is only moved around, never computed with. */
  type Sample = real

  lemma KeepLastOfConcat(s: seq<Sample>, t: seq<Sample>, cap: nat)
    ensures |t| >= cap ==> KeepLast(s + t, cap) == t[|t| - cap..]
    ensures |t| <= cap < |s| + |t| ==> KeepLast(s + t, cap) == s[|s| + |t| - cap..] + t
  {
  }

  /** Appending in two pieces keeps what appending at once would keep. */
  lemma KeepLastInPieces(s: seq<Sample>, t: seq<Sample>, cap: nat)
    ensures KeepLast(KeepLast(s, cap) + t, cap) == KeepLast(s + t, cap)
  {
    if |s| > cap {
      var u := KeepLast(s, cap);
      assert u + t == (s + t)[|s| - cap..];
      if |t| > 0 {
        assert (u + t)[|t|..] == (s + t)[|s| + |t| - cap..];
      }
    }
  }

  /** Dropping the `room` oldest elements, and of what is appended all but the end that then fits. */
  lemma OverwriteKeepsLast(s: seq<Sample>, t: seq<Sample>, cap: nat, room: nat)
    requires |s| <= cap
    requires var vacant := cap - |s|;
             room == if |t| <= vacant then 0 else if |t| - vacant < |s| then |t| - vacant else |s|
    ensures var vacant := cap - (|s| - room);
            s[room..] + (if |t| > vacant then t[|t| - vacant..] else t) == KeepLast(s + t, cap)
  {
    KeepLastOfConcat(s, t, cap);
  }

  class HeapRb {
    var data: array<Sample>
    var head: nat
    var len: nat

    predicate Valid()
      reads this, data
    {
      data.Length > 0 && head < data.Length && len <= data.Length
    }

    function Capacity(): (n: nat)
      reads this
    {
      data.Length
    }

    /** Oldest sample first. */
    function Contents(): (s: seq<Sample>)
      requires Valid()
      reads this, data
      ensures |s| == len
    {
      if head + len <= data.Length then data[head..head + len]
      else data[head..] + data[..head + len - data.Length]
    }

    constructor (capacity: nat)
      requires capacity > 0
      ensures Valid() && fresh(data) && Capacity() == capacity && Contents() == []
    {
      data := new Sample[capacity];
      head, len := 0, 0;
    }

    /** Removes the `n` oldest samples. */
    method Skip(n: nat)
      requires Valid() && n <= len
      modifies this`head, this`len
      ensures Valid() && Contents() == old(Contents())[n..]
    {
      head := if head + n < data.Length then head + n else head + n - data.Length;
      len := len - n;
    }

    method Push(x: Sample)
      requires Valid() && len < data.Length
      modifies this`len, data
      ensures Valid() && Contents() == old(Contents()) + [x]
    {
      var at := if head + len < data.Length then head + len else head + len - data.Length;
      data[at] := x;
      len := len + 1;
    }

    method PushSlice(elems: seq<Sample>)
      requires Valid() && len + |elems| <= data.Length
      modifies this`len, data
      ensures Valid() && Contents() == old(Contents()) + elems
    {
      for i := 0 to |elems|
        invariant Valid() && len == old(len) + i
        invariant Contents() == old(Contents()) + elems[..i]
      {
        Push(elems[i]);
      }
    }

    /** Makes room by dropping the oldest samples, and keeps only the end of a slice that does not fit. */
    method PushSliceOverwrite(elems: seq<Sample>)
      requires Valid()
      modifies this`head, this`len, data
      ensures Valid() && Contents() == KeepLast(old(Contents()) + elems, Capacity())
    {
      var vacant := data.Length - len;
      var room := if |elems| <= vacant then 0 else if |elems| - vacant < len then |elems| - vacant else len;
      OverwriteKeepsLast(Contents(), elems, Capacity(), room);
      Skip(room);
      vacant := data.Length - len;
      PushSlice(if |elems| > vacant then elems[|elems| - vacant..] else elems);
    }

    /** Fills as much of a slice of length `n` as there are samples. */
    method PopSlice(n: nat) returns (elems: seq<Sample>)
      requires Valid() && n <= len
      modifies this`head, this`len
      ensures Valid() && elems == old(Contents())[..n] && Contents() == old(Contents())[n..]
    {
      elems := if head + n <= data.Length then data[head..head + n]
               else data[head..] + data[..head + n - data.Length];
      Skip(n);
    }
  }
}
