/** The chunked search for the highest GLIBC_2.x version a file mentions. */
module GlibcScan {
  import opened ByteData
  import opened ChunkedScan
  import opened Common

  const CARRY: nat := 16

  /** "GLIBC_2." stands at `p`. */
  predicate HasPrefix(s: Bytes, p: nat)
    requires p + 8 <= |s|
  {
    && s[p] == 71 && s[p + 1] == 76 && s[p + 2] == 73 && s[p + 3] == 66
    && s[p + 4] == 67 && s[p + 5] == 95 && s[p + 6] == 50 && s[p + 7] == 46
  }

  predicate IsDigit(b: byte) {
    48 <= b <= 57
  }

  /** The end of the digit run at `i`. */
  function RunEnd(s: Bytes, i: nat): (e: nat)
    requires i <= |s|
    ensures i <= e <= |s|
    decreases |s| - i
  {
    if i < |s| && IsDigit(s[i]) then RunEnd(s, i + 1) else i
  }

  lemma {:induction false} RunIsDigits(s: Bytes, i: nat, j: nat)
    requires i <= j < |s|
    ensures j < RunEnd(s, i) ==> IsDigit(s[j])
    ensures j == RunEnd(s, i) ==> !IsDigit(s[j])
    decreases j - i
  {
    if i < j && IsDigit(s[i]) {
      RunIsDigits(s, i + 1, j);
    }
  }

  /** The pattern matches at `p`: the prefix and at least one digit. */
  predicate Matches(s: Bytes, p: nat) {
    p + 8 < |s| && HasPrefix(s, p) && IsDigit(s[p + 8])
  }

  function Decimal(digits: Bytes): (n: nat) {
    if digits == [] then 0
    else 10 * Decimal(digits[..|digits| - 1]) + DigitValue(digits[|digits| - 1])
  }

  function DigitValue(b: byte): (n: nat) {
    if IsDigit(b) then b as int - 48 else 0
  }

  /** The version number matched at `p`, all its digits. */
  function Version(s: Bytes, p: nat): (n: nat)
    requires Matches(s, p)
  {
    Decimal(s[p + 8..RunEnd(s, p + 8)])
  }

  /** The highest version among the matches that start in the last `n` positions. */
  function HighestLast(s: Bytes, n: nat): (best: nat)
    requires n <= |s|
  {
    if n == 0 then 0
    else if Matches(s, |s| - n) then Max(Version(s, |s| - n), HighestLast(s, n - 1))
    else HighestLast(s, n - 1)
  }

  /** The highest version matched anywhere, overlapping or not. */
  function Highest(s: Bytes): (best: nat) {
    HighestLast(s, |s|)
  }

  lemma {:induction false} HighestIsABound(s: Bytes, n: nat, q: nat)
    requires n <= |s| && |s| - n <= q < |s| && Matches(s, q)
    ensures Version(s, q) <= HighestLast(s, n)
  {
    if |s| - n < q {
      HighestIsABound(s, n - 1, q);
    }
  }

  lemma {:induction false} HighestIsReached(s: Bytes, n: nat) returns (q: nat)
    requires n <= |s| && HighestLast(s, n) > 0
    ensures q < |s| && Matches(s, q) && Version(s, q) == HighestLast(s, n)
  {
    if Matches(s, |s| - n) && Version(s, |s| - n) == HighestLast(s, n) {
      q := |s| - n;
    } else {
      q := HighestIsReached(s, n - 1);
    }
  }

  // ----- one buffer, the way `re.finditer` walks it

  lemma NoMatchInside(s: Bytes, p: nat, q: nat)
    requires Matches(s, p) && p < q < RunEnd(s, p + 8)
    ensures !Matches(s, q)
  {
    if q >= p + 8 {
      RunIsDigits(s, p + 8, q);
    }
    assert s[q] != 71;
  }

  lemma {:induction false} SkipToRunEnd(s: Bytes, p: nat, q: nat)
    requires Matches(s, p) && p < q <= RunEnd(s, p + 8)
    ensures HighestLast(s, |s| - q) == HighestLast(s, |s| - RunEnd(s, p + 8))
    decreases |s| - q
  {
    if q < RunEnd(s, p + 8) {
      NoMatchInside(s, p, q);
      SkipToRunEnd(s, p, q + 1);
    }
  }

  /** Leftmost, non-overlapping matches: no match is skipped by jumping over the previous one. */
  method FindIter(s: Bytes, best0: nat) returns (best: nat)
    ensures best == Max(best0, Highest(s))
  {
    var p := 0;
    best := best0;
    while p < |s|
      invariant p <= |s|
      invariant Max(best, HighestLast(s, |s| - p)) == Max(best0, Highest(s))
    {
      if Matches(s, p) {
        best := Max(best, Version(s, p));
        SkipToRunEnd(s, p, p + 1);
        p := RunEnd(s, p + 8);
      } else {
        p := p + 1;
      }
    }
  }

  // ----- the chunked scan

  /** The highest version matched in the pieces from the one at `pos` on. */
  function HighestFrom(file: Bytes, size: nat, pos: nat): (n: nat)
    requires size > 0 && (pos == 0 || size <= pos)
    decreases |file| - pos
  {
    if pos >= |file| then 0
    else Max(Highest(Piece(file, pos, size, CARRY)), HighestFrom(file, size, pos + size))
  }

  /** No matched version has more than `k` digits. */
  ghost predicate ShortRuns(s: Bytes, k: nat) {
    forall p | 0 <= p < |s| && Matches(s, p) :: RunEnd(s, p + 8) - (p + 8) <= k
  }

  /** `_max_glibc_minor` */
  method MaxGlibcMinor(file: Bytes, size: nat) returns (best: nat)
    requires size > 0
    ensures best == HighestFrom(file, size, 0)
    ensures size >= CARRY && ShortRuns(file, 9) ==> best == Highest(file)
  {
    var tail, pos := [], 0;
    FirstPiece(file, size, CARRY);
    best := 0;
    while true
      invariant pos == 0 || size <= pos
      invariant pos < |file| ==> tail + Read(file, pos, size) == Piece(file, pos, size, CARRY)
      invariant Max(best, HighestFrom(file, size, pos)) == HighestFrom(file, size, 0)
      decreases |file| - pos
    {
      var chunk := Read(file, Min(pos, |file|), size);
      if chunk == [] {
        break;
      }
      best := FindIter(tail + chunk, best);
      tail := PyTail(chunk, CARRY);
      NextPiece(file, pos, size, CARRY);
      pos := pos + size;
    }
    if size >= CARRY && ShortRuns(file, 9) {
      ChunkedScanIsExact(file, size);
    }
  }

  // ----- matches in a slice of the file

  lemma {:induction false} RunInSlice(s: Bytes, a: nat, b: nat, i: nat)
    requires a <= i <= b <= |s|
    ensures RunEnd(s[a..b], i - a) + a == Min(RunEnd(s, i), b)
    decreases b - i
  {
    if i < b && IsDigit(s[i]) {
      RunInSlice(s, a, b, i + 1);
    }
  }

  lemma MatchInSlice(s: Bytes, a: nat, b: nat, q: nat)
    requires a <= b <= |s| && a + q < b
    ensures Matches(s[a..b], q) <==> Matches(s, a + q) && a + q + 8 < b
  {
  }

  lemma {:induction false} DecimalGrows(digits: Bytes, k: nat)
    requires k <= |digits|
    ensures Decimal(digits[..k]) <= Decimal(digits)
  {
    if k < |digits| {
      DecimalGrows(digits[..|digits| - 1], k);
      assert digits[..|digits| - 1][..k] == digits[..k];
    } else {
      assert digits[..k] == digits;
    }
  }

  /** A match in a slice is a match in the file, with its digits possibly cut short. */
  lemma VersionInSlice(s: Bytes, a: nat, b: nat, q: nat)
    requires a <= b <= |s| && a + q + 8 < b && Matches(s, a + q)
    ensures Matches(s[a..b], q) && Version(s[a..b], q) <= Version(s, a + q)
    ensures RunEnd(s, a + q + 8) <= b ==> Version(s[a..b], q) == Version(s, a + q)
  {
    MatchInSlice(s, a, b, q);
    RunInSlice(s, a, b, a + q + 8);
    var e := RunEnd(s, a + q + 8);
    var digits := s[a + q + 8..e];
    var k := Min(e, b) - (a + q + 8);
    SliceOfSlice(s, a, b, q + 8, q + 8 + k);
    SliceOfSlice(s, a + q + 8, e, 0, k);
    DecimalGrows(digits, k);
    if e <= b { assert digits[..k] == digits; }
  }

  lemma SliceNeverExceeds(file: Bytes, a: nat, b: nat)
    requires a <= b <= |file|
    ensures Highest(file[a..b]) <= Highest(file)
  {
    if Highest(file[a..b]) > 0 {
      var q := HighestIsReached(file[a..b], b - a);
      MatchInSlice(file, a, b, q);
      VersionInSlice(file, a, b, q);
      HighestIsABound(file, |file|, a + q);
    }
  }

  lemma {:induction false} ScanNeverExceeds(file: Bytes, size: nat, pos: nat)
    requires size > 0 && (pos == 0 || size <= pos)
    ensures HighestFrom(file, size, pos) <= Highest(file)
    decreases |file| - pos
  {
    if pos < |file| {
      SliceNeverExceeds(file, PieceStart(pos, size, CARRY), Min(pos + size, |file|));
      ScanNeverExceeds(file, size, pos + size);
    }
  }

  lemma SliceReaches(file: Bytes, a: nat, b: nat, p: nat)
    requires a <= p && Matches(file, p) && RunEnd(file, p + 8) <= b <= |file|
    ensures Version(file, p) <= Highest(file[a..b])
  {
    RunIsDigits(file, p + 8, p + 8);
    VersionInSlice(file, a, b, p - a);
    HighestIsABound(file[a..b], b - a, p - a);
  }

  /** A match ending in the chunk at `pos` lies in the window: it is at most 17 bytes long, so when it
      starts before the chunk it starts within the carry. */
  lemma WindowCatchesTheMatch(file: Bytes, size: nat, pos: nat, p: nat)
    requires size >= CARRY && pos < |file| && (pos == 0 || size <= pos)
    requires Matches(file, p) && RunEnd(file, p + 8) - (p + 8) <= 9
    requires pos < RunEnd(file, p + 8) <= pos + size
    ensures Version(file, p) <= Highest(Piece(file, pos, size, CARRY))
  {
    var a, b := PieceStart(pos, size, CARRY), Min(pos + size, |file|);
    SliceReaches(file, a, b, p);
  }

  lemma HighestFromStep(file: Bytes, size: nat, pos: nat)
    requires size > 0 && (pos == 0 || size <= pos) && pos < |file|
    ensures HighestFrom(file, size, pos) >= Highest(Piece(file, pos, size, CARRY))
    ensures HighestFrom(file, size, pos) >= HighestFrom(file, size, pos + size)
  {
  }

  lemma {:induction false} ScanReaches(file: Bytes, size: nat, pos: nat, p: nat)
    requires size >= CARRY && (pos == 0 || size <= pos)
    requires Matches(file, p) && RunEnd(file, p + 8) - (p + 8) <= 9 && pos < RunEnd(file, p + 8)
    ensures Version(file, p) <= HighestFrom(file, size, pos)
    decreases |file| - pos
  {
    HighestFromStep(file, size, pos);
    if RunEnd(file, p + 8) <= pos + size {
      WindowCatchesTheMatch(file, size, pos, p);
    } else {
      ScanReaches(file, size, pos + size, p);
    }
  }

  /** With runs of at most nine digits, chunking changes nothing. */
  lemma ChunkedScanIsExact(file: Bytes, size: nat)
    requires size >= CARRY && ShortRuns(file, 9)
    ensures HighestFrom(file, size, 0) == Highest(file)
  {
    ScanNeverExceeds(file, size, 0);
    if Highest(file) > 0 {
      var p := HighestIsReached(file, |file|);
      ScanReaches(file, size, 0, p);
    }
  }

  // ----- nine digits is the limit

  /** "GLIBC_2.1000000000", placed so that its last digit starts the second chunk and its first byte
      just misses the carry. */
  function TenDigits(size: nat): (file: Bytes)
    requires size >= 17
    ensures |file| == size + 1
  {
    seq(size - 17, _ => 0) + [71, 76, 73, 66, 67, 95, 50, 46, 49, 48, 48, 48, 48, 48, 48, 48, 48, 48]
  }

  lemma TenDigitsMatch(size: nat, p: nat)
    requires size >= 17
    ensures Matches(TenDigits(size), p) <==> p == size - 17
    ensures p == size - 17 ==> RunEnd(TenDigits(size), p + 8) == size + 1
  {
    var file := TenDigits(size);
    if p == size - 17 {
      AllDigits(file, p + 8);
    }
  }

  lemma {:induction false} AllDigits(s: Bytes, i: nat)
    requires i <= |s| && forall j | i <= j < |s| :: IsDigit(s[j])
    ensures RunEnd(s, i) == |s|
    decreases |s| - i
  {
    if i < |s| {
      AllDigits(s, i + 1);
    }
  }

  /** Losing the last digit lowers the version. */
  lemma CutVersionIsLower(size: nat)
    requires size >= 17
    ensures var file, p := TenDigits(size), size - 17;
            Matches(file, p) && Matches(file[0..size], p) && Version(file[0..size], p) < Version(file, p)
  {
    var file, p := TenDigits(size), size - 17;
    TenDigitsMatch(size, p);
    MatchInSlice(file, 0, size, p);
    RunInSlice(file, 0, size, p + 8);
    var digits := file[p + 8..size + 1];
    SliceOfSlice(file, 0, size, p + 8, size);
    assert file[p + 8..size] == digits[..9];
    DecimalGrows(digits[..9], 1);
    assert digits[..9][..1] == [49];
    assert Decimal([49]) == 1 by { assert [49][..0] == []; }
  }

  /** A slice of the file that misses the match has no version. */
  lemma SliceWithoutMatch(size: nat, a: nat)
    requires size >= 17 && size - 17 < a <= size + 1
    ensures Highest(TenDigits(size)[a..size + 1]) == 0
  {
    var w := TenDigits(size)[a..size + 1];
    if Highest(w) > 0 {
      var q := HighestIsReached(w, |w|);
      MatchInSlice(TenDigits(size), a, size + 1, q);
      TenDigitsMatch(size, a + q);
    }
  }

  lemma FirstPieceIsLower(size: nat)
    requires size >= 17
    ensures Highest(TenDigits(size)[0..size]) < Highest(TenDigits(size))
  {
    var file, w := TenDigits(size), TenDigits(size)[0..size];
    CutVersionIsLower(size);
    HighestIsABound(file, |file|, size - 17);
    if Highest(w) > 0 {
      var q := HighestIsReached(w, |w|);
      MatchInSlice(file, 0, size, q);
      TenDigitsMatch(size, q);
    }
  }

  lemma TenDigitsAreCut(size: nat)
    requires size >= 17
    ensures HighestFrom(TenDigits(size), size, 0) < Highest(TenDigits(size))
  {
    var file := TenDigits(size);
    FirstPieceIsLower(size);
    SliceWithoutMatch(size, size - 16);
    assert Piece(file, 0, size, CARRY) == file[0..size];
    assert Piece(file, size, size, CARRY) == file[size - 16..size + 1];
    assert HighestFrom(file, size, size + size) == 0;
    assert HighestFrom(file, size, size) == 0;
  }

  /** The 16-byte carry suffices for all files whose versions have at most `k` digits exactly when `k`
      is at most nine. */
  lemma ExactDigitLimit(size: nat, k: nat)
    requires size >= 17
    ensures (forall file: Bytes | ShortRuns(file, k) :: HighestFrom(file, size, 0) == Highest(file)) <==> k <= 9
  {
    if k <= 9 {
      forall file: Bytes | ShortRuns(file, k) ensures HighestFrom(file, size, 0) == Highest(file) {
        assert ShortRuns(file, 9);
        ChunkedScanIsExact(file, size);
      }
    } else {
      var file := TenDigits(size);
      forall p | 0 <= p < |file| && Matches(file, p) ensures RunEnd(file, p + 8) - (p + 8) <= k {
        TenDigitsMatch(size, p);
      }
      assert ShortRuns(file, k);
      TenDigitsAreCut(size);
    }
  }

  // ----- version numbers are decimal

  /** The decimal digits of `n`. */
  function Digits(n: nat): (digits: Bytes)
    ensures digits != [] && forall d | d in digits :: IsDigit(d)
  {
    if n < 10 then [(48 + n) as byte] else Digits(n / 10) + [(48 + n % 10) as byte]
  }

  lemma {:induction false} DecimalOfDigits(n: nat)
    ensures Decimal(Digits(n)) == n
  {
    if n >= 10 {
      DecimalOfDigits(n / 10);
      assert Digits(n)[..|Digits(n)| - 1] == Digits(n / 10);
    } else {
      assert Digits(n)[..0] == [];
    }
  }

  /** The version symbol as it stands in a library. */
  function Symbol(n: nat): (s: Bytes) {
    [71, 76, 73, 66, 67, 95, 50, 46] + Digits(n)
  }

  /** A library that requires GLIBC_2.n and nothing else is found to require exactly that. */
  lemma SymbolIsFound(n: nat)
    ensures Highest(Symbol(n)) == n
  {
    var s := Symbol(n);
    assert s[8..] == Digits(n) && |s| == 8 + |Digits(n)|;
    forall j | 8 <= j < |s| ensures IsDigit(s[j]) {
      assert s[j] == Digits(n)[j - 8];
      assert Digits(n)[j - 8] in Digits(n);
    }
    AllDigits(s, 8);
    DecimalOfDigits(n);
    assert s[8..|s|] == s[8..];
    assert Matches(s, 0) && Version(s, 0) == n;
    HighestIsABound(s, |s|, 0);
    assert forall q | 0 < q < |s| :: s[q] != 71;
    if Highest(s) > 0 {
      var q := HighestIsReached(s, |s|);
      assert q == 0;
    }
  }

  /** "GLIBC_2.31" */
  lemma Glibc31()
    ensures Highest([71, 76, 73, 66, 67, 95, 50, 46, 51, 49]) == 31
  {
    SymbolIsFound(31);
    assert Digits(31) == [51, 49];
    assert Symbol(31) == [71, 76, 73, 66, 67, 95, 50, 46, 51, 49];
  }
}
