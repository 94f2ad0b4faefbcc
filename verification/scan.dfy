/** The chunked file scanners of the packaging script, which carry a tail from chunk to chunk. */
module ChunkedScan {
  import opened ByteData
  import opened Common

  /** `chunk[-k:]`: the last `k` elements, everything when there are fewer or when `k` is 0, and the
      elements from `-k` on when `k` is negative. */
  function PyTail(chunk: Bytes, k: int): (tail: Bytes) {
    if k <= 0 then chunk[Min(-k, |chunk|)..]
    else chunk[Max(0, |chunk| - k)..]
  }

  /** What `f.read(size)` returns on a regular file: full chunks, except for the last one. */
  function Read(file: Bytes, pos: nat, size: nat): (chunk: Bytes)
    requires pos <= |file|
  {
    file[pos..Min(pos + size, |file|)]
  }

  /** Where the bytes looked at together with the chunk at `pos` start, `k` being the carry length. */
  function PieceStart(pos: nat, size: nat, k: int): (start: nat)
    requires pos == 0 || size <= pos
    ensures start <= pos
  {
    if pos == 0 then 0
    else if k <= 0 then pos - size + Min(-k, size)
    else pos - Min(k, size)
  }

  /** The chunk at `pos` with the tail carried from the chunk before it. */
  function Piece(file: Bytes, pos: nat, size: nat, k: int): (w: Bytes)
    requires pos < |file| && (pos == 0 || size <= pos)
  {
    file[PieceStart(pos, size, k)..Min(pos + size, |file|)]
  }

  lemma FirstPiece(file: Bytes, size: nat, k: int)
    ensures file != [] ==> [] + Read(file, 0, size) == Piece(file, 0, size, k)
  {
  }

  /** Taking the tail of one chunk and putting it before the next gives the next piece. */
  lemma NextPiece(file: Bytes, pos: nat, size: nat, k: int)
    requires pos <= |file| && size > 0
    ensures pos + size < |file| ==>
              PyTail(Read(file, pos, size), k) + Read(file, pos + size, size) == Piece(file, pos + size, size, k)
  {
  }

  // ----- searching for a marker

  predicate At(s: Bytes, i: int, marker: Bytes) {
    0 <= i <= |s| - |marker| && s[i..i + |marker|] == marker
  }

  /** `marker in s` */
  predicate Occurs(marker: Bytes, s: Bytes) {
    exists i :: 0 <= i <= |s| - |marker| && At(s, i, marker)
  }

  /** Some piece from the one at `pos` on contains the marker. */
  predicate FoundFrom(file: Bytes, marker: Bytes, size: nat, pos: nat)
    requires size > 0 && (pos == 0 || size <= pos)
    decreases |file| - pos
  {
    pos < |file| &&
    (Occurs(marker, Piece(file, pos, size, |marker| - 1)) || FoundFrom(file, marker, size, pos + size))
  }

  /** `_carries_drmtap_marker` */
  method CarriesMarker(file: Bytes, marker: Bytes, size: nat) returns (found: bool)
    requires size > 0
    ensures found == FoundFrom(file, marker, size, 0)
    ensures size >= |marker| - 1 ==> found == (Occurs(marker, file) && file != [])
  {
    var tail, pos, carry := [], 0, |marker| - 1;
    FirstPiece(file, size, carry);
    found := false;
    while !found
      invariant pos == 0 || size <= pos
      invariant pos < |file| && !found ==> tail + Read(file, pos, size) == Piece(file, pos, size, carry)
      invariant FoundFrom(file, marker, size, 0) == (found || FoundFrom(file, marker, size, pos))
      decreases |file| - pos, !found
    {
      var chunk := Read(file, Min(pos, |file|), size);
      if chunk == [] {
        break;
      }
      found := Occurs(marker, tail + chunk);
      tail := PyTail(chunk, carry);
      NextPiece(file, pos, size, carry);
      pos := pos + size;
    }
    ChunkedSearchIsExact(file, marker, size);
  }

  lemma SliceOfSlice(s: Bytes, a: nat, b: nat, i: nat, j: nat)
    requires a <= b <= |s| && i <= j && a + j <= b
    ensures s[a..b][i..j] == s[a + i..a + j]
  {
    var u, v := s[a..b][i..j], s[a + i..a + j];
    assert forall k | 0 <= k < j - i :: u[k] == v[k];
  }

  lemma AtInSlice(s: Bytes, a: nat, b: nat, i: int, marker: Bytes)
    requires a <= b <= |s| && 0 <= i
    ensures At(s[a..b], i, marker) <==> At(s, a + i, marker) && a + i + |marker| <= b
  {
    if a + i + |marker| <= b {
      SliceOfSlice(s, a, b, i, i + |marker|);
    }
  }

  lemma OccursInSlice(s: Bytes, a: nat, b: nat, marker: Bytes)
    requires a <= b <= |s|
    ensures Occurs(marker, s[a..b]) <==> exists i :: a <= i <= b - |marker| && At(s, i, marker)
  {
    if i :| 0 <= i <= b - a - |marker| && At(s[a..b], i, marker) {
      AtInSlice(s, a, b, i, marker);
    }
    if i :| a <= i <= b - |marker| && At(s, i, marker) {
      AtInSlice(s, a, b, i - a, marker);
    }
  }

  /** With a carry of one less than the marker, a new occurrence lies inside the piece. */
  lemma WindowCatchesTheSplit(file: Bytes, marker: Bytes, size: nat, pos: nat)
    requires 0 < size && |marker| - 1 <= size && pos < |file| && (pos == 0 || size <= pos)
    ensures Occurs(marker, file[..Min(pos + size, |file|)]) <==>
            Occurs(marker, file[..pos]) || Occurs(marker, Piece(file, pos, size, |marker| - 1))
  {
    var end := Min(pos + size, |file|);
    var start := PieceStart(pos, size, |marker| - 1);
    OccursInSlice(file, 0, end, marker);
    OccursInSlice(file, 0, pos, marker);
    OccursInSlice(file, start, end, marker);
    assert file[0..end] == file[..end] && file[0..pos] == file[..pos];
  }

  lemma {:induction false} SearchFromIsExact(file: Bytes, marker: Bytes, size: nat, pos: nat)
    requires 0 < size && |marker| - 1 <= size && pos <= |file| && (pos == 0 || size <= pos)
    requires pos > 0 ==> !Occurs(marker, file[..pos])
    ensures pos < |file| ==> (FoundFrom(file, marker, size, pos) <==> Occurs(marker, file))
    decreases |file| - pos
  {
    if pos < |file| {
      WindowCatchesTheSplit(file, marker, size, pos);
      var end := Min(pos + size, |file|);
      if pos == 0 {
        assert Piece(file, 0, size, |marker| - 1) == file[..end];
      }
      if end == |file| {
        assert file[..end] == file;
      } else if !Occurs(marker, Piece(file, pos, size, |marker| - 1)) {
        SearchFromIsExact(file, marker, size, end);
      }
      if Occurs(marker, file[..end]) {
        var i :| 0 <= i <= end - |marker| && At(file[..end], i, marker);
        assert At(file, i, marker);
      }
    }
  }

  lemma ChunkedSearchIsExact(file: Bytes, marker: Bytes, size: nat)
    requires size > 0
    ensures |marker| - 1 <= size ==> (FoundFrom(file, marker, size, 0) <==> Occurs(marker, file) && file != [])
  {
    if |marker| - 1 <= size {
      SearchFromIsExact(file, marker, size, 0);
    }
  }

  /** A file whose only occurrence reaches over three chunks. */
  function Straddling(marker: Bytes, size: nat): (file: Bytes)
    requires 0 < size < |marker| - 1
  {
    seq(size - 1, _ => if marker[0] == 0 then 1 else 0) + marker
  }

  lemma OnlyOccurrence(marker: Bytes, size: nat, i: int)
    requires 0 < size < |marker| - 1
    ensures At(Straddling(marker, size), i, marker) <==> i == size - 1
  {
    var file := Straddling(marker, size);
    assert file[size - 1..size - 1 + |marker|] == marker;
    if At(file, i, marker) && i < size - 1 {
      assert false;
    }
  }

  lemma NotInPiece(marker: Bytes, size: nat, pos: nat)
    requires 0 < size < |marker| - 1 && pos < |Straddling(marker, size)|
    requires pos == 0 || pos == size || 2 * size <= pos
    ensures !Occurs(marker, Piece(Straddling(marker, size), pos, size, |marker| - 1))
  {
    var file := Straddling(marker, size);
    var start, end := PieceStart(pos, size, |marker| - 1), Min(pos + size, |file|);
    OccursInSlice(file, start, end, marker);
    if i :| start <= i <= end - |marker| && At(file, i, marker) {
      OnlyOccurrence(marker, size, i);
    }
  }

  lemma {:induction false} NeverFound(marker: Bytes, size: nat, pos: nat)
    requires 0 < size < |marker| - 1
    requires pos == 0 || pos == size || 2 * size <= pos
    ensures !FoundFrom(Straddling(marker, size), marker, size, pos)
    decreases |Straddling(marker, size)| - pos
  {
    if pos < |Straddling(marker, size)| {
      NotInPiece(marker, size, pos);
      NeverFound(marker, size, pos + size);
    }
  }

  /** The carry of one less than the marker suffices for every file exactly when a chunk is at least
      that long. */
  lemma ExactChunkSize(marker: Bytes, size: nat)
    requires size > 0 && marker != []
    ensures (forall file: Bytes :: FoundFrom(file, marker, size, 0) <==> Occurs(marker, file))
            <==> size >= |marker| - 1
  {
    if size >= |marker| - 1 {
      forall file: Bytes ensures FoundFrom(file, marker, size, 0) <==> Occurs(marker, file) {
        ChunkedSearchIsExact(file, marker, size);
      }
    } else {
      var file := Straddling(marker, size);
      OnlyOccurrence(marker, size, size - 1);
      assert Occurs(marker, file);
      NeverFound(marker, size, 0);
    }
  }
}
