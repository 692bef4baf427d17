/** The allocator of a file pool (phlib/filepool.c): segments of 2048 blocks with a bitmap each, on
    eight lists by the number of their free blocks. */
module FilePool {
  import opened Sequences
  import opened PowersOfTwo
  import opened FilePoolBitmap
  import opened FilePoolList

  const BLOCK_COUNT: nat := 2048
  const BLOCK_COUNT_SHIFT: nat := 11
  const FREE_LIST_COUNT: nat := 8
  const WORD: nat := 0x1_0000_0000

  const BODY_OFFSET: nat := 8              // FIELD_OFFSET(PH_FP_BLOCK_HEADER, Body)
  const FILE_HEADER_SIZE: nat := 56        // sizeof(PH_FP_FILE_HEADER)
  const SEGMENT_HEADER_SIZE: nat := 320    // sizeof(PH_FP_SEGMENT_HEADER)
  const SEGMENT_HEADER_USED: nat := 268    // up to the Reserved field

  /** PhFppComputeFreeListIndex */
  function Category(segmentHeaderBlockSpan: nat, numberOfBlocks: nat): (r: nat)
    ensures r < FREE_LIST_COUNT
  {
    if numberOfBlocks >= BLOCK_COUNT / 64 then
      if numberOfBlocks >= BLOCK_COUNT / 2 then
        if numberOfBlocks + segmentHeaderBlockSpan >= BLOCK_COUNT then 0 else 1
      else
        if numberOfBlocks >= BLOCK_COUNT / 16 then 2 else 3
    else
      if numberOfBlocks >= 4 then
        if numberOfBlocks >= BLOCK_COUNT / 256 then 4 else 5
      else
        if numberOfBlocks >= 1 then 6 else 7
  }

  /** More free blocks never put a segment on a later list; so a segment on a later list than the
      request's own has too few free blocks. */
  lemma CategoryAntitone(span: nat, m: nat, n: nat)
    ensures m <= n ==> Category(span, n) <= Category(span, m)
    ensures Category(span, m) > Category(span, n) ==> m < n
  {
  }

  /** The lists by the number of free blocks: all, half, a sixteenth, a sixty-fourth of the 2048 blocks, 8, 4, 1,
      none. */
  lemma CategoryMeans(span: nat, n: nat)
    requires span <= 1024
    ensures var c := Category(span, n);
      && (c == 0 <==> n + span >= 2048) && (c <= 1 <==> n >= 1024) && (c <= 2 <==> n >= 128) && (c <= 3 <==> n >= 32)
      && (c <= 4 <==> n >= 8) && (c <= 5 <==> n >= 4) && (c <= 6 <==> n >= 1) && c <= 7
  {
  }

  /** A span of blocks: a segment and the first block in it. */
  datatype Block = Block(segment: Index, start: nat)

  /** A block of a segment belongs to the headers or to one live span. */
  ghost predicate Covers(headers: map<Block, nat>, x: Block, i: Index, j: nat) {
    x in headers && x.segment == i && x.start <= j < x.start + headers[x]
  }

  ghost predicate Covered(headers: map<Block, nat>, reserved: nat, i: Index, j: nat) {
    j < reserved || exists x :: Covers(headers, x, i, j)
  }

  ghost predicate Apart(headers: map<Block, nat>, x: Block, y: Block)
    requires x in headers && y in headers
  {
    x.segment != y.segment || x.start + headers[x] <= y.start || y.start + headers[y] <= x.start
  }

  function ReservedIn(fileSpan: nat, segmentSpan: nat, i: Index): nat {
    if i == 0 then segmentSpan + fileSpan else segmentSpan
  }

  /** Live spans lie in their segment behind its headers and apart from each other; exactly their
      blocks and those of the headers are in use. */
  ghost predicate Consistent(headers: map<Block, nat>, bitmaps: seq<Bitmap>, fileSpan: nat, segmentSpan: nat) {
    && (forall x :: x in headers ==> Inside(headers, bitmaps, fileSpan, segmentSpan, x))
    && (forall x, y :: x in headers && y in headers && x != y ==> Apart(headers, x, y))
    && (forall i :: 0 <= i < |bitmaps| ==> Marked(headers, bitmaps[i], ReservedIn(fileSpan, segmentSpan, i), i))
  }

  ghost predicate Inside(headers: map<Block, nat>, bitmaps: seq<Bitmap>, fileSpan: nat, segmentSpan: nat, x: Block)
    requires x in headers
  {
    && x.segment < |bitmaps| && headers[x] > 0
    && ReservedIn(fileSpan, segmentSpan, x.segment) <= x.start
    && x.start + headers[x] <= |bitmaps[x.segment]|
  }

  ghost predicate Marked(headers: map<Block, nat>, b: Bitmap, reserved: nat, i: Index) {
    forall j :: 0 <= j < |b| ==> (b[j] <==> Covered(headers, reserved, i, j))
  }

  lemma ClearIsUncovered(headers: map<Block, nat>, b: Bitmap, reserved: nat, i: Index, k: nat, n: nat)
    requires Marked(headers, b, reserved, i) && Clear(b, k, n) && n > 0
    ensures reserved <= k
    ensures forall j, y :: k <= j < k + n ==> !Covers(headers, y, i, j)
  {
    assert !Covered(headers, reserved, i, k);
    forall j, y | k <= j < k + n ensures !Covers(headers, y, i, j) {
      assert !Covered(headers, reserved, i, j);
    }
  }

  /** A clear run becomes a live span. */
  lemma SpanAdded(headers: map<Block, nat>, bitmaps: seq<Bitmap>, fileSpan: nat, segmentSpan: nat, x: Block, n: nat)
    requires Consistent(headers, bitmaps, fileSpan, segmentSpan)
    requires x.segment < |bitmaps| && n > 0 && Clear(bitmaps[x.segment], x.start, n)
    ensures x !in headers
    ensures Consistent(headers[x := n], bitmaps[x.segment := Fill(bitmaps[x.segment], x.start, n, true)], fileSpan, segmentSpan)
  {
    var b, r := bitmaps[x.segment], ReservedIn(fileSpan, segmentSpan, x.segment);
    var headers', b' := headers[x := n], Fill(b, x.start, n, true);
    ClearIsUncovered(headers, b, r, x.segment, x.start, n);
    assert !Covers(headers, x, x.segment, x.start);
    forall y | y in headers ensures Apart(headers', x, y) && Apart(headers', y, x) {
      var j := if x.start < y.start then y.start else x.start;
      assert x.start <= j < x.start + n ==> !Covers(headers, y, x.segment, j);
    }
    forall i, j | 0 <= i < |bitmaps| && 0 <= j < |bitmaps[i]|
      ensures Covered(headers', ReservedIn(fileSpan, segmentSpan, i), i, j)
        <==> Covered(headers, ReservedIn(fileSpan, segmentSpan, i), i, j) || (i == x.segment && x.start <= j < x.start + n)
    {
      CoveredAfter(headers, x, n, ReservedIn(fileSpan, segmentSpan, i), i, j);
    }
  }

  lemma CoveredAfter(headers: map<Block, nat>, x: Block, n: nat, reserved: nat, i: Index, j: nat)
    requires x !in headers
    ensures Covered(headers[x := n], reserved, i, j)
      <==> Covered(headers, reserved, i, j) || (i == x.segment && x.start <= j < x.start + n)
  {
    var headers' := headers[x := n];
    if y :| Covers(headers, y, i, j) {
      assert Covers(headers', y, i, j);
    }
    if y :| Covers(headers', y, i, j) {
      assert y == x || Covers(headers, y, i, j);
    }
    if i == x.segment && x.start <= j < x.start + n {
      assert Covers(headers', x, i, j);
    }
  }

  /** A live span becomes a clear run. */
  lemma SpanRemoved(headers: map<Block, nat>, bitmaps: seq<Bitmap>, fileSpan: nat, segmentSpan: nat, x: Block)
    requires Consistent(headers, bitmaps, fileSpan, segmentSpan) && x in headers
    ensures x.segment < |bitmaps| && InUse(bitmaps[x.segment], x.start, headers[x])
    ensures Consistent(headers - {x}, bitmaps[x.segment := Fill(bitmaps[x.segment], x.start, headers[x], false)], fileSpan, segmentSpan)
  {
    var n, headers' := headers[x], headers - {x};
    assert Inside(headers, bitmaps, fileSpan, segmentSpan, x);
    var b := bitmaps[x.segment];
    forall j | x.start <= j < x.start + n ensures b[j] {
      assert Covers(headers, x, x.segment, j);
    }
    forall i, j | 0 <= i < |bitmaps| && 0 <= j < |bitmaps[i]|
      ensures Covered(headers', ReservedIn(fileSpan, segmentSpan, i), i, j)
        <==> Covered(headers, ReservedIn(fileSpan, segmentSpan, i), i, j) && !(i == x.segment && x.start <= j < x.start + n)
    {
      if i == x.segment && x.start <= j < x.start + n {
        assert forall y :: y in headers' ==> Apart(headers, x, y);
      } else {
        assert headers == headers'[x := n];
        CoveredAfter(headers', x, n, ReservedIn(fileSpan, segmentSpan, i), i, j);
      }
    }
    forall y | y in headers' ensures Inside(headers', bitmaps, fileSpan, segmentSpan, y) {
      assert Inside(headers, bitmaps, fileSpan, segmentSpan, y);
    }
  }

  /** The bitmap set up by PhFppInitializeSegment. */
  function Fresh(used: nat): (b: Bitmap)
    requires used <= BLOCK_COUNT
    ensures |b| == BLOCK_COUNT && Clear(b, used, BLOCK_COUNT - used)
  {
    Fill(seq(BLOCK_COUNT, _ => false), 0, used, true)
  }

  /** The number of blocks PhAllocateFilePool asks for; the sum is a 32-bit one. */
  function BlocksFor(blockSize: nat, size: nat): nat
    requires blockSize > 0
  {
    (BODY_OFFSET + size + blockSize - 1) % WORD / blockSize
  }

  lemma FreshCount(used: nat)
    requires used <= BLOCK_COUNT
    ensures CountClear(Fresh(used)) == BLOCK_COUNT - used
  {
    CountUniform(BLOCK_COUNT, false);
    CountAllocated(seq(BLOCK_COUNT, _ => false), 0, used);
  }

  lemma FreshConsistent(fileSpan: nat, segmentSpan: nat)
    requires segmentSpan + fileSpan <= BLOCK_COUNT
    ensures Consistent(map[], [Fresh(segmentSpan + fileSpan)], fileSpan, segmentSpan)
  {
    assert forall j, x :: !Covers(map[], x, 0, j);
  }

  lemma SegmentAdded(headers: map<Block, nat>, bitmaps: seq<Bitmap>, fileSpan: nat, segmentSpan: nat)
    requires Consistent(headers, bitmaps, fileSpan, segmentSpan) && 0 < |bitmaps| && segmentSpan <= BLOCK_COUNT
    ensures Consistent(headers, bitmaps + [Fresh(segmentSpan)], fileSpan, segmentSpan)
  {
    var bitmaps' := bitmaps + [Fresh(segmentSpan)];
    forall x | x in headers ensures Inside(headers, bitmaps', fileSpan, segmentSpan, x) {
      assert Inside(headers, bitmaps, fileSpan, segmentSpan, x);
    }
    forall j | 0 <= j < BLOCK_COUNT ensures Covered(headers, segmentSpan, |bitmaps|, j) <==> j < segmentSpan {
      assert forall x :: x in headers ==> Inside(headers, bitmaps, fileSpan, segmentSpan, x);
      assert forall x :: !Covers(headers, x, |bitmaps|, j);
    }
  }

  ghost predicate NoRun(bitmaps: seq<Bitmap>, n: nat) {
    forall i :: 0 <= i < |bitmaps| ==> !HasRun(bitmaps[i], n)
  }

  /** Allocated: the span and the relative virtual address of its body. NoBlocks: the 32-bit sum wraps to a
      request for no block at all, and RtlFindClearBitsAndSet may answer it as it likes. Faulted: the new
      size of the file wraps, the new segment cannot be mapped, and its null address is used. */
  datatype Result = Failed | Allocated(block: Block, rva: nat) | NoBlocks | Faulted

  /** The number of blocks set aside for a header. */
  function HeaderSpan(size: nat, blockSize: nat): nat
    requires blockSize > 0
  {
    (size + blockSize - 1) / blockSize
  }

  lemma OneBlock(size: nat, blockSize: nat)
    requires 0 < size <= blockSize
    ensures HeaderSpan(size, blockSize) == 1
  {
    Quotient(size + blockSize - 1, blockSize);
    var q := HeaderSpan(size, blockSize);
    assert q >= 2 ==> q * blockSize >= 2 * blockSize;
    assert q == 0 ==> q * blockSize == 0;
  }

  /** What the block sizes from 2^5 to 2^17 make of the two headers. The used part of a segment header
      always fits in the blocks set aside for it; the whole one, behind its block header, fits if and
      only if blocks have at least 2^7 bytes. */
  lemma BlockSizes(blockShift: nat)
    requires 5 <= blockShift <= 17
    ensures var size := Power2(blockShift);
      var fileSpan, segmentSpan := HeaderSpan(FILE_HEADER_SIZE, size), HeaderSpan(SEGMENT_HEADER_SIZE, size);
      && 32 <= size <= 131072
      && 1 <= fileSpan <= 2 && 1 <= segmentSpan <= 10
      && (fileSpan - 1) * size < 56 <= fileSpan * size && (segmentSpan - 1) * size < 320 <= segmentSpan * size
      && BODY_OFFSET + FILE_HEADER_SIZE <= fileSpan * size
      && BODY_OFFSET + SEGMENT_HEADER_USED <= segmentSpan * size
      && (BODY_OFFSET + SEGMENT_HEADER_SIZE <= segmentSpan * size <==> blockShift >= 7)
  {
    Power2Values();
    Power2Monotone(5, blockShift);
    Power2Monotone(blockShift, 17);
    if blockShift >= 9 {
      Power2Monotone(9, blockShift);
      OneBlock(FILE_HEADER_SIZE, Power2(blockShift));
      OneBlock(SEGMENT_HEADER_SIZE, Power2(blockShift));
    } else {
      assert HeaderSpan(FILE_HEADER_SIZE, 32) == 2 && HeaderSpan(SEGMENT_HEADER_SIZE, 32) == 10;
      assert HeaderSpan(FILE_HEADER_SIZE, 64) == 1 && HeaderSpan(SEGMENT_HEADER_SIZE, 64) == 5;
      assert HeaderSpan(FILE_HEADER_SIZE, 128) == 1 && HeaderSpan(SEGMENT_HEADER_SIZE, 128) == 3;
      assert HeaderSpan(FILE_HEADER_SIZE, 256) == 1 && HeaderSpan(SEGMENT_HEADER_SIZE, 256) == 2;
    }
  }

  lemma Quotient(a: nat, b: nat)
    requires b > 0
    ensures a / b * b <= a < (a / b + 1) * b
  {
  }

  /** The blocks asked for hold the block header and the bytes asked for if and only if the 32-bit sum
      does not wrap, and then one block less would not do. */
  lemma BlocksCover(blockSize: nat, size: nat)
    requires 0 < blockSize <= 131072 && size < WORD
    ensures BODY_OFFSET + size <= BlocksFor(blockSize, size) * blockSize <==> BODY_OFFSET + size + blockSize - 1 < WORD
    ensures BODY_OFFSET + size + blockSize - 1 < WORD ==> (BlocksFor(blockSize, size) - 1) * blockSize < BODY_OFFSET + size
  {
    var sum := BODY_OFFSET + size + blockSize - 1;
    Quotient(sum % WORD, blockSize);
    var n := sum % WORD / blockSize;
    assert (n + 1) * blockSize == n * blockSize + blockSize;
    assert (n - 1) * blockSize == n * blockSize - blockSize;
  }

  /** A request for nearly 4 GB gets a single block. */
  lemma BlocksCoverExample()
    ensures BlocksFor(128, 0xFFFF_FFF9) == 1
  {
  }

  /** The sizes for which the sum wraps so far that no block is asked for. */
  lemma WrapsToNothing(blockSize: nat, size: nat)
    requires 0 < blockSize <= 131072 && size < WORD
    ensures BlocksFor(blockSize, size) == 0 <==> WORD - BODY_OFFSET < size + blockSize && size < WORD - BODY_OFFSET + 1
  {
    NoQuotient((BODY_OFFSET + size + blockSize - 1) % WORD, blockSize);
  }

  lemma NoQuotient(a: nat, b: nat)
    requires b > 0
    ensures a / b == 0 <==> a < b
  {
    Quotient(a, b);
  }

  // ---------------------------------------------------------------------------------------------
  // Conservation
  // ---------------------------------------------------------------------------------------------

  ghost function Pick(headers: map<Block, nat>): (x: Block)
    requires headers != map[]
    ensures x in headers
  {
    var x :| x in headers;
    x
  }

  /** The blocks of the live spans of a segment. */
  ghost function Live(headers: map<Block, nat>, i: Index): nat {
    if headers == map[] then 0
    else var x := Pick(headers); (if x.segment == i then headers[x] else 0) + Live(headers - {x}, i)
  }

  /** Free blocks, live spans and headers make up each segment; no block is lost. */
  lemma {:induction false} Conservation(headers: map<Block, nat>, bitmaps: seq<Bitmap>, fileSpan: nat, segmentSpan: nat, i: Index)
    requires Consistent(headers, bitmaps, fileSpan, segmentSpan) && i < |bitmaps|
    requires ReservedIn(fileSpan, segmentSpan, i) <= |bitmaps[i]|
    ensures CountClear(bitmaps[i]) + Live(headers, i) + ReservedIn(fileSpan, segmentSpan, i) == |bitmaps[i]|
  {
    var b, r := bitmaps[i], ReservedIn(fileSpan, segmentSpan, i);
    if headers == map[] {
      assert forall j :: 0 <= j < |b| ==> (b[j] <==> Covered(headers, r, i, j));
      assert forall x, j :: !Covers(headers, x, i, j);
      CountThree(b, 0, r);
      CountUniform(r, true);
      CountUniform(|b| - r, false);
      assert b[..0] == [] && b[0..r] == seq(r, _ => true) && b[r..] == seq(|b| - r, _ => false);
    } else {
      var x := Pick(headers);
      SpanRemoved(headers, bitmaps, fileSpan, segmentSpan, x);
      CountFreed(bitmaps[x.segment], x.start, headers[x]);
      Conservation(headers - {x}, bitmaps[x.segment := Fill(bitmaps[x.segment], x.start, headers[x], false)], fileSpan, segmentSpan, i);
    }
  }

  /** Freeing a span restores the bitmap from before its allocation. */
  lemma FreeUndoesAllocate(b: Bitmap, k: nat, n: nat)
    requires Clear(b, k, n)
    ensures Fill(Fill(b, k, n, true), k, n, false) == b
  {
    var r := Fill(Fill(b, k, n, true), k, n, false);
    assert forall j :: 0 <= j < |b| ==> r[j] == b[j];
  }

  // ---------------------------------------------------------------------------------------------
  // Relative virtual addresses
  // ---------------------------------------------------------------------------------------------

  /** PhFppEncodeRva: a 32-bit shift and sum. */
  function EncodeRva(segmentShift: nat, i: Index, offset: nat): nat {
    (i * Power2(segmentShift) % WORD + offset) % WORD
  }

  datatype Address = Invalid | Resolved(segment: Index, offset: nat)

  function Quot(a: nat, d: nat): nat
    requires d > 0
  {
    a / d
  }

  function Rem(a: nat, d: nat): (r: nat)
    requires d > 0
    ensures r < d
  {
    a % d
  }

  /** PhFppDecodeRva */
  function DecodeRva(segmentShift: nat, segmentCount: nat, rva: nat): Address {
    var segmentSize := Power2(segmentShift);
    if Quot(rva, segmentSize) >= segmentCount then Invalid
    else Resolved(Quot(rva, segmentSize), Rem(rva, segmentSize))
  }

  lemma Less(q: int, r: int, q': int, r': int, d: int)
    requires 0 <= r < d && 0 <= r' < d && q < q'
    ensures q * d + r < q' * d + r'
  {
    var e := q' - q - 1;
    assert e * d >= 0;
    assert q' == q + 1 + e;
    assert q' * d == q * d + d + e * d;
  }

  lemma QuotRem(a: nat, d: nat)
    requires d > 0
    ensures a == Quot(a, d) * d + Rem(a, d)
  {
  }

  lemma Divided(q: nat, d: nat, r: nat)
    requires r < d
    ensures Quot(q * d + r, d) == q && Rem(q * d + r, d) == r
  {
    var a := q * d + r;
    QuotRem(a, d);
    hide Quot, Rem;
    if Quot(a, d) < q {
      Less(Quot(a, d), Rem(a, d), q, r, d);
    } else if q < Quot(a, d) {
      Less(q, r, Quot(a, d), Rem(a, d), d);
    }
  }

  lemma SmallQuotient(q: int, r: nat, m: int, s: nat)
    requires q * s + r < m * s
    ensures q < m
  {
    assert q >= m ==> (q - m) * s >= 0;
    assert (q - m) * s == q * s - m * s;
  }

  /** With m segments of s bytes in the space of 32-bit addresses. */
  lemma Addressable(i: nat, offset: nat, s: nat, m: nat)
    requires m * s == WORD && offset < s
    ensures var rva := (i * s % WORD + offset) % WORD; (Quot(rva, s) == i && Rem(rva, s) == offset) <==> i < m
  {
    var rva := (i * s % WORD + offset) % WORD;
    if i < m {
      Less(i, offset, m, 0, s);
      Fits(i * s, offset);
      hide Quot, Rem;
      Divided(i, s, offset);
    } else {
      QuotRem(rva, s);
      hide Quot, Rem;
      SmallQuotient(Quot(rva, s), Rem(rva, s), m, s);
    }
  }

  lemma Monotone(a: nat, b: nat, c: nat, d: nat)
    requires a + b <= c
    ensures a * d + b * d <= c * d
  {
    var e := c - a - b;
    assert e * d >= 0;
    assert c * d == (a + b + e) * d == a * d + b * d + e * d;
  }

  lemma Regrouped(i: nat, n: nat, k: nat, d: nat)
    ensures (i * n + k) * d == i * (n * d) + k * d
  {
    assert (i * n + k) * d == (i * n) * d + k * d;
    assert (i * n) * d == i * (n * d);
  }

  /** Of n blocks behind the first p ones: r reserved, and k from the block i on. */
  lemma Within(p: nat, r: nat, i: nat, k: nat, n: nat, d: nat)
    requires r <= i && i + k <= n
    ensures p * d + r * d <= (p + i) * d && (p + i) * d + k * d <= p * d + n * d
  {
    Monotone(p, r, p + i, d);
    Monotone(p + i, k, p + n, d);
    assert (p + n) * d == p * d + n * d;
  }

  lemma RvaValue(segmentShift: nat, i: Index, offset: nat)
    requires 16 <= segmentShift <= 28 && i < Power2(32 - segmentShift) && offset < Power2(segmentShift)
    ensures EncodeRva(segmentShift, i, offset) == i * Power2(segmentShift) + offset
  {
    Power2Values();
    Power2Sum(32 - segmentShift, segmentShift);
    hide Power2;
    Less(i, offset, Power2(32 - segmentShift), 0, Power2(segmentShift));
    Fits(i * Power2(segmentShift), offset);
  }

  lemma Fits(a: nat, b: nat)
    requires a + b < WORD
    ensures (a % WORD + b) % WORD == a + b
  {
  }

  /** An address leads back to its segment and offset if and only if the segment lies in the first
      4 GB of the file. */
  lemma RvaRoundTrip(segmentShift: nat, segmentCount: nat, i: Index, offset: nat)
    requires 16 <= segmentShift <= 28 && i < segmentCount && offset < Power2(segmentShift)
    ensures DecodeRva(segmentShift, segmentCount, EncodeRva(segmentShift, i, offset)) == Resolved(i, offset)
      <==> i < Power2(32 - segmentShift)
  {
    Power2Values();
    Power2Sum(32 - segmentShift, segmentShift);
    hide Power2, Quot, Rem;
    Addressable(i, offset, Power2(segmentShift), Power2(32 - segmentShift));
  }

  /** The segments whose 32-bit addresses do not wrap. */
  function SegmentLimit(segmentShift: nat): nat
    requires segmentShift <= 32
  {
    Power2(32 - segmentShift)
  }

  /** phlib/filepool.c:846: the size of the file with one segment more, a 32-bit shift. */
  function NewSize(segmentShift: nat, segmentCount: nat): nat {
    (segmentCount + 1) * Power2(segmentShift) % WORD
  }

  predicate NewSizeIsRight(segmentShift: nat, segmentCount: nat) {
    NewSize(segmentShift, segmentCount) == (segmentCount + 1) * Power2(segmentShift)
  }

  /** It is right but for the last segment of the first 4 GB, for which it wraps to 0. */
  lemma NewSizeWraps(segmentShift: nat, segmentCount: nat)
    requires 16 <= segmentShift <= 28 && segmentCount < SegmentLimit(segmentShift)
    ensures segmentCount + 1 == SegmentLimit(segmentShift) ==> NewSize(segmentShift, segmentCount) == 0
    ensures NewSizeIsRight(segmentShift, segmentCount) <==> segmentCount + 1 < SegmentLimit(segmentShift)
  {
    Power2Values();
    Power2Sum(32 - segmentShift, segmentShift);
    hide Power2;
    Shifted(segmentCount + 1, Power2(segmentShift), SegmentLimit(segmentShift));
  }

  lemma Shifted(k: nat, s: nat, m: nat)
    requires m * s == WORD && k <= m
    ensures k == m ==> k * s % WORD == 0
    ensures k * s % WORD == k * s <==> k < m
  {
    if k < m {
      Less(k, 0, m, 0, s);
      assert k * s < WORD;
    }
  }

  /** With segments of 256 MB the sixteenth cannot be added. */
  lemma NewSizeExample()
    ensures NewSize(28, 14) == 0xF000_0000 && NewSize(28, 15) == 0
  {
    Power2Values();
    assert Power2(31) == 8 * Power2(28);
  }

  lemma LimitBelowNone(segmentShift: nat)
    requires 16 <= segmentShift <= 28
    ensures SegmentLimit(segmentShift) <= 65536 < NONE
  {
    Power2Values();
    Power2Monotone(32 - segmentShift, 16);
    Power2Sum(8, 8);
  }

  /** The offset of a block's body in its segment. */
  function BodyOffset(blockSize: nat, start: nat): nat {
    start * blockSize + BODY_OFFSET
  }

  /** PhFppGetHeaderBlock and phlib/filepool.c:1281: the block whose body lies at an offset. */
  function StartOf(blockSize: nat, offset: nat): nat
    requires blockSize > 0
  {
    if offset >= BODY_OFFSET then Quot(offset - BODY_OFFSET, blockSize) else 0
  }

  lemma BodyInSegment(segmentShift: nat, start: nat)
    requires 16 <= segmentShift <= 28 && start < BLOCK_COUNT
    ensures var blockSize := Power2(segmentShift - BLOCK_COUNT_SHIFT);
      BodyOffset(blockSize, start) < Power2(segmentShift) && StartOf(blockSize, BodyOffset(blockSize, start)) == start
  {
    var blockSize := Power2(segmentShift - BLOCK_COUNT_SHIFT);
    BlockSizes(segmentShift - BLOCK_COUNT_SHIFT);
    Power2Sum(BLOCK_COUNT_SHIFT, segmentShift - BLOCK_COUNT_SHIFT);
    assert Power2(BLOCK_COUNT_SHIFT) == BLOCK_COUNT;
    hide Power2;
    Less(start, BODY_OFFSET, BLOCK_COUNT, 0, blockSize);
    StartOfBody(blockSize, start);
  }

  lemma StartOfBody(blockSize: nat, start: nat)
    requires blockSize > 0
    ensures StartOf(blockSize, BodyOffset(blockSize, start)) == start
  {
    Divided(start, blockSize, 0);
    hide Quot;
    var p := start * blockSize;
    assert BodyOffset(blockSize, start) - BODY_OFFSET == p + 0;
  }

  class FilePool {
    const segmentShift: nat
    const blockShift: nat
    const blockSize: nat
    const fileHeaderBlockSpan: nat
    const segmentHeaderBlockSpan: nat

    var freeLists: seq<Index>          // Header->FreeLists
    var bitmaps: seq<Bitmap>           // the segment headers, field by field
    var freeBlocks: seq<nat>
    var links: seq<Links>
    var headers: map<Block, nat>       // the Span fields of the headers of live blocks
    ghost var lists: seq<seq<Index>>   // the segments on each free list, in order

    ghost predicate Constants() {
      && 16 <= segmentShift <= 28 && blockShift == segmentShift - BLOCK_COUNT_SHIFT && blockSize == Power2(blockShift)
      && fileHeaderBlockSpan == HeaderSpan(FILE_HEADER_SIZE, blockSize)
      && segmentHeaderBlockSpan == HeaderSpan(SEGMENT_HEADER_SIZE, blockSize)
      && 1 <= fileHeaderBlockSpan <= 2 && 1 <= segmentHeaderBlockSpan <= 10
    }

    /** PhCreateFilePool, for a new file. */
    constructor (segmentShift: nat)
      requires 16 <= segmentShift <= 28
      ensures Valid() && this.segmentShift == segmentShift && headers == map[] && |bitmaps| == 1
    {
      var size := Power2(segmentShift - BLOCK_COUNT_SHIFT);
      BlockSizes(segmentShift - BLOCK_COUNT_SHIFT);
      var fileSpan, segmentSpan := HeaderSpan(FILE_HEADER_SIZE, size), HeaderSpan(SEGMENT_HEADER_SIZE, size);
      Power2Monotone(4, 32 - segmentShift);
      assert SegmentLimit(segmentShift) > 1;
      hide Fresh, HeaderSpan, Power2, SegmentLimit, Lists, Sizes, Counted, Spans, Listed;
      this.segmentShift := segmentShift;
      blockShift := segmentShift - BLOCK_COUNT_SHIFT;
      blockSize := size;
      fileHeaderBlockSpan := fileSpan;
      segmentHeaderBlockSpan := segmentSpan;
      bitmaps := [Fresh(segmentSpan + fileSpan)];
      freeBlocks := [BLOCK_COUNT - (segmentSpan + fileSpan)];
      links := [Links(NONE, NONE)];
      freeLists := [NONE, 0, NONE, NONE, NONE, NONE, NONE, NONE];
      headers := map[];
      lists := [[], [0], [], [], [], [], [], []];
      new;
      FirstSegment();
      FirstLists();
    }

    lemma FirstSegment()
      requires fileHeaderBlockSpan <= 2 && 1 <= segmentHeaderBlockSpan <= 10 && |links| == 1 && headers == map[]
      requires var used := segmentHeaderBlockSpan + fileHeaderBlockSpan;
        fileHeaderBlockSpan > 0 && bitmaps == [Fresh(used)] && freeBlocks == [BLOCK_COUNT - used]
      requires lists == [[], [0], [], [], [], [], [], []]
      ensures Sizes() && Counted() && Spans() && Listed(NONE)
    {
      FreshCount(segmentHeaderBlockSpan + fileHeaderBlockSpan);
      FreshConsistent(fileHeaderBlockSpan, segmentHeaderBlockSpan);
      assert Category(segmentHeaderBlockSpan, freeBlocks[0]) == 1;
      hide Fresh, CountClear, Consistent, Category;
      assert forall c :: 0 <= c < FREE_LIST_COUNT && c != 1 ==> lists[c] == [];
    }

    lemma FirstLists()
      requires freeLists == [NONE, 0, NONE, NONE, NONE, NONE, NONE, NONE] && links == [Links(NONE, NONE)]
      requires lists == [[], [0], [], [], [], [], [], []]
      ensures Lists()
    {
      assert Chained(links, [0], NONE, NONE) && Distinct([0]);
      assert forall c :: 0 <= c < FREE_LIST_COUNT && c != 1 ==> lists[c] == [];
    }

    ghost predicate Sizes()
      reads this
    {
      && |bitmaps| == |freeBlocks| == |links| && 0 < |links| <= NONE
      && forall i :: 0 <= i < |bitmaps| ==> |bitmaps[i]| == BLOCK_COUNT
    }

    /** FreeBlocks is the number of clear bits. */
    ghost predicate Counted()
      reads this
    {
      |bitmaps| == |freeBlocks| && forall i :: 0 <= i < |bitmaps| ==> freeBlocks[i] == CountClear(bitmaps[i])
    }

    ghost predicate Spans()
      reads this
    {
      Consistent(headers, bitmaps, fileHeaderBlockSpan, segmentHeaderBlockSpan)
    }

    /** Every free list is well linked, and no segment is on two of them. */
    ghost predicate Lists()
      reads this
    {
      && |freeLists| == |lists| == FREE_LIST_COUNT
      && (forall c :: 0 <= c < FREE_LIST_COUNT ==>
            && freeLists[c] == First(lists[c], NONE)
            && Chained(links, lists[c], NONE, NONE) && Distinct(lists[c]))
      && (forall c, d, i :: 0 <= c < d < FREE_LIST_COUNT && i in lists[c] ==> i !in lists[d])
    }

    /** Every segment, but for the given one, is on the list of its category. */
    ghost predicate Listed(but: Index)
      reads this
    {
      |lists| == FREE_LIST_COUNT && |freeBlocks| == |links|
      && forall i, c :: 0 <= i < |links| && 0 <= c < FREE_LIST_COUNT && i != but ==>
           (i in lists[c] <==> c == Category(segmentHeaderBlockSpan, freeBlocks[i]))
    }

    ghost predicate Valid()
      reads this
    {
      Constants() && InReach() && Sizes() && Counted() && Spans() && Lists() && Listed(NONE)
    }

    /** All of the file has 32-bit addresses. */
    ghost predicate InReach()
      reads this
    {
      segmentShift <= 32 && |links| < SegmentLimit(segmentShift)
    }

    /** The relative virtual address of the body of a block. */
    function RvaOf(x: Block): nat {
      EncodeRva(segmentShift, x.segment, BodyOffset(blockSize, x.start))
    }

    /** The address of a live block leads back to it. */
    lemma LiveRva(x: Block)
      requires Valid() && x in headers
      ensures DecodeRva(segmentShift, |links|, RvaOf(x)) == Resolved(x.segment, BodyOffset(blockSize, x.start))
      ensures blockSize > 0 && StartOf(blockSize, BodyOffset(blockSize, x.start)) == x.start
    {
      assert Inside(headers, bitmaps, fileHeaderBlockSpan, segmentHeaderBlockSpan, x);
      BodyInSegment(segmentShift, x.start);
      RvaRoundTrip(segmentShift, |links|, x.segment, BodyOffset(blockSize, x.start));
    }

    /** Where in the file a block begins. */
    function Place(x: Block): nat {
      x.segment * Power2(segmentShift) + x.start * blockSize
    }

    /** The address of a live block is where in the file its body begins, 8 bytes into the block. */
    lemma RvaIsPlace(x: Block)
      requires Valid() && x in headers
      ensures RvaOf(x) == Place(x) + 8 && BodyOffset(blockSize, x.start) == x.start * blockSize + 8
    {
      assert Inside(headers, bitmaps, fileHeaderBlockSpan, segmentHeaderBlockSpan, x);
      assert BodyOffset(blockSize, x.start) == x.start * blockSize + 8;
      BodyInSegment(segmentShift, x.start);
      RvaValue(segmentShift, x.segment, BodyOffset(blockSize, x.start));
      hide Power2, EncodeRva, BodyOffset, Consistent;
    }

    /** The same in blocks. */
    lemma PlaceInBlocks(x: Block)
      requires Constants()
      ensures Place(x) == (x.segment * BLOCK_COUNT + x.start) * blockSize && Power2(segmentShift) == BLOCK_COUNT * blockSize
    {
      Power2Sum(BLOCK_COUNT_SHIFT, blockShift);
      assert Power2(BLOCK_COUNT_SHIFT) == BLOCK_COUNT;
      hide Power2;
      Regrouped(x.segment, BLOCK_COUNT, x.start, blockSize);
    }

    /** What a live block takes up: whole blocks of one segment, behind the blocks of its headers. */
    lemma SpanInSegment(x: Block)
      requires Valid() && x in headers
      ensures x.segment * Power2(segmentShift) + ReservedIn(fileHeaderBlockSpan, segmentHeaderBlockSpan, x.segment) * blockSize <= Place(x)
      ensures Place(x) + headers[x] * blockSize <= x.segment * Power2(segmentShift) + Power2(segmentShift)
    {
      assert Inside(headers, bitmaps, fileHeaderBlockSpan, segmentHeaderBlockSpan, x);
      PlaceInBlocks(x);
      var reserved := ReservedIn(fileHeaderBlockSpan, segmentHeaderBlockSpan, x.segment);
      hide Power2, Consistent;
      Within(x.segment * BLOCK_COUNT, reserved, x.start, headers[x], BLOCK_COUNT, blockSize);
      Regrouped(x.segment, BLOCK_COUNT, 0, blockSize);
    }

    /** No byte of the file belongs to two live blocks. */
    lemma SpansApart(x: Block, y: Block)
      requires Valid() && x in headers && y in headers && x != y
      ensures Place(x) + headers[x] * blockSize <= Place(y) || Place(y) + headers[y] * blockSize <= Place(x)
    {
      assert Apart(headers, x, y);
      assert Inside(headers, bitmaps, fileHeaderBlockSpan, segmentHeaderBlockSpan, x);
      assert Inside(headers, bitmaps, fileHeaderBlockSpan, segmentHeaderBlockSpan, y);
      PlaceInBlocks(x);
      PlaceInBlocks(y);
      var i, j := x.segment * BLOCK_COUNT + x.start, y.segment * BLOCK_COUNT + y.start;
      hide Power2, Consistent, Place;
      if i + headers[x] <= j {
        Monotone(i, headers[x], j, blockSize);
      } else {
        assert j + headers[y] <= i;
        Monotone(j, headers[y], i, blockSize);
      }
    }

    // -------------------------------------------------------------------------------------------
    // Free lists
    // -------------------------------------------------------------------------------------------

    /** PhFppInsertFreeList */
    method InsertFreeList(c: nat, i: Index)
      requires Lists() && c < FREE_LIST_COUNT && i < |links| <= NONE
      requires forall d :: 0 <= d < FREE_LIST_COUNT ==> i !in lists[d]
      modifies this`freeLists, this`links, this`lists
      ensures Lists() && |links| == |old(links)| && lists == old(lists)[c := [i] + old(lists)[c]]
    {
      var oldSegment := freeLists[c];
      ChainedInside(links, lists[c], NONE, NONE);
      links := links[i := Links(oldSegment, NONE)];
      freeLists := freeLists[c := i];
      if oldSegment != NONE {
        assert lists[c] != [] && oldSegment in lists[c];
        links := links[oldSegment := links[oldSegment].(blink := i)];
      }
      Inserted(old(links), links, lists[c], i);
      forall d | 0 <= d < FREE_LIST_COUNT && d != c ensures Chained(links, lists[d], NONE, NONE) {
        ChainedFrame(old(links), links, lists[d], NONE, NONE);
      }
      lists := lists[c := [i] + lists[c]];
    }

    /** PhFppRemoveFreeList */
    method RemoveFreeList(c: nat, i: Index)
      requires Lists() && c < FREE_LIST_COUNT && |links| <= NONE && i in lists[c]
      modifies this`freeLists, this`links, this`lists
      ensures Lists() && |links| == |old(links)| && |lists| == |old(lists)|
      ensures forall d :: 0 <= d < FREE_LIST_COUNT && d != c ==> lists[d] == old(lists)[d]
      ensures forall j :: j in lists[c] <==> j in old(lists)[c] && j != i
    {
      ghost var a, b := SplitAt(lists[c], i);
      Membership(a, i, b);
      Unlink(c, i, a, b);
      Removed(old(links), links, a, i, b);
      forall d | 0 <= d < FREE_LIST_COUNT && d != c ensures Chained(links, lists[d], NONE, NONE) {
        BridgedOthers(old(links), links, a, i, b, lists[d]);
      }
      lists := lists[c := a + b];
    }

    /** The links around a segment are joined. */
    method Unlink(c: nat, i: Index, ghost a: seq<Index>, ghost b: seq<Index>)
      requires c < |freeLists| && |links| <= NONE
      requires Chained(links, a + [i] + b, NONE, NONE) && Distinct(a + [i] + b)
      requires freeLists[c] == First(a + [i] + b, NONE)
      modifies this`freeLists, this`links
      ensures Bridged(old(links), links, a, b)
      ensures freeLists == old(freeLists)[c := First(a + b, NONE)]
    {
      Neighbours(links, a, i, b);
      assert b != [] ==> b[0] in a + b && b[0] in b;
      assert a != [] ==> a[|a| - 1] in a + b && a[|a| - 1] in a;
      hide Chained, Distinct;
      var flink, blink := links[i].flink, links[i].blink;
      if flink != NONE {
        links := links[flink := links[flink].(blink := blink)];
      }
      if blink != NONE {
        links := links[blink := links[blink].(flink := flink)];
        assert First(a + b, NONE) == First(a + [i] + b, NONE);
      } else {
        freeLists := freeLists[c := flink];
      }
    }

    /** The end of PhAllocateFilePool and of PhpFreeFilePool: the segment, which is on list c, is moved
        to the list of its category. */
    method Recategorize(c: nat, i: Index)
      requires Lists() && Listed(i) && c < FREE_LIST_COUNT && i < |links| <= NONE && i in lists[c]
      modifies this`freeLists, this`links, this`lists
      ensures Lists() && Listed(NONE) && |links| == |old(links)|
    {
      var newList := Category(segmentHeaderBlockSpan, freeBlocks[i]);
      if newList != c {
        RemoveFreeList(c, i);
        InsertFreeList(newList, i);
      }
    }

    // -------------------------------------------------------------------------------------------
    // Blocks
    // -------------------------------------------------------------------------------------------

    /** PhFppAllocateBlocks */
    method AllocateBlocks(i: Index, n: nat) returns (found: Found)
      requires Sizes() && Counted() && Spans() && i < |links| && n > 0
      modifies this`bitmaps, this`freeBlocks, this`headers
      ensures Sizes() && Counted() && Spans() && |bitmaps| == |old(bitmaps)|
      ensures found.None? ==>
        !HasRun(old(bitmaps)[i], n) && bitmaps == old(bitmaps) && freeBlocks == old(freeBlocks) && headers == old(headers)
      ensures found.At? ==>
        && Clear(old(bitmaps)[i], found.k, n) && Block(i, found.k) !in old(headers)
        && headers == old(headers)[Block(i, found.k) := n]
        && HasRun(old(bitmaps)[i], n) && bitmaps == old(bitmaps)[i := Fill(old(bitmaps)[i], found.k, n, true)]
        && forall j :: 0 <= j < |freeBlocks| && j != i ==> freeBlocks[j] == old(freeBlocks)[j]
    {
      var hint := if i != 0 then segmentHeaderBlockSpan else segmentHeaderBlockSpan + fileHeaderBlockSpan;
      var bitmap;
      found, bitmap := FindClearBitsAndSet(bitmaps[i], n, hint);
      if found.None? {
        return;
      }
      CountAllocated(bitmaps[i], found.k, n);
      SpanAdded(headers, bitmaps, fileHeaderBlockSpan, segmentHeaderBlockSpan, Block(i, found.k), n);
      bitmaps := bitmaps[i := bitmap];
      freeBlocks := freeBlocks[i := freeBlocks[i] - n];
      headers := headers[Block(i, found.k) := n];
    }

    /** PhFppFreeBlocks */
    method FreeBlocks(x: Block)
      requires Sizes() && Counted() && Spans() && x in headers
      modifies this`bitmaps, this`freeBlocks, this`headers
      ensures Sizes() && Counted() && Spans() && |bitmaps| == |old(bitmaps)|
      ensures headers == old(headers) - {x}
      ensures x.segment < |bitmaps| && x.start + old(headers)[x] <= BLOCK_COUNT
      ensures bitmaps == old(bitmaps)[x.segment := Fill(old(bitmaps)[x.segment], x.start, old(headers)[x], false)]
      ensures forall j :: 0 <= j < |freeBlocks| && j != x.segment ==> freeBlocks[j] == old(freeBlocks)[j]
    {
      SpanRemoved(headers, bitmaps, fileHeaderBlockSpan, segmentHeaderBlockSpan, x);
      var span := headers[x];
      CountFreed(bitmaps[x.segment], x.start, span);
      bitmaps := bitmaps[x.segment := Fill(bitmaps[x.segment], x.start, span, false)];
      freeBlocks := freeBlocks[x.segment := freeBlocks[x.segment] + span];
      headers := headers - {x};
    }

    /** PhpFreeFilePool, with the two functions that look up the segment of a block around it. */
    method Free(x: Block)
      requires Valid() && x in headers
      modifies this
      ensures Valid() && headers == old(headers) - {x}
      ensures bitmaps == old(bitmaps)[x.segment := Fill(old(bitmaps)[x.segment], x.start, old(headers)[x], false)]
    {
      assert Inside(headers, bitmaps, fileHeaderBlockSpan, segmentHeaderBlockSpan, x);
      var oldList := Category(segmentHeaderBlockSpan, freeBlocks[x.segment]);
      FreeBlocks(x);
      Recategorize(oldList, x.segment);
    }

    /** PhFreeFilePoolByRva: the block whose address is given is freed; an address beyond the last segment
        is refused. */
    method FreeByRva(rva: nat) returns (ok: bool)
      requires Valid() && (DecodeRva(segmentShift, |links|, rva) != Invalid ==> exists x :: x in headers && RvaOf(x) == rva)
      modifies this
      ensures Valid() && (ok <==> old(DecodeRva(segmentShift, |links|, rva)) != Invalid)
      ensures !ok ==> headers == old(headers) && bitmaps == old(bitmaps)
      ensures forall x :: x in old(headers) && RvaOf(x) == rva ==>
        headers == old(headers) - {x}
        && x.segment < |old(bitmaps)| && x.start + old(headers)[x] <= |old(bitmaps)[x.segment]|
        && bitmaps == old(bitmaps)[x.segment := Fill(old(bitmaps)[x.segment], x.start, old(headers)[x], false)]
    {
      forall x | x in headers ensures DecodeRva(segmentShift, |links|, RvaOf(x)) == Resolved(x.segment, BodyOffset(blockSize, x.start))
        && blockSize > 0 && StartOf(blockSize, BodyOffset(blockSize, x.start)) == x.start
        && Inside(headers, bitmaps, fileHeaderBlockSpan, segmentHeaderBlockSpan, x)
      {
        LiveRva(x);
      }
      hide DecodeRva, EncodeRva, StartOf, BodyOffset;
      match DecodeRva(segmentShift, |links|, rva)
      case Invalid =>
        ok := false;
      case Resolved(segment, offset) =>
        ghost var x :| x in headers && RvaOf(x) == rva;
        Free(Block(segment, StartOf(blockSize, offset)));
        ok := true;
    }

    /** A segment with a fresh header, on no list yet. */
    method AppendSegment() returns (i: Index)
      requires Valid() && |links| < NONE
      modifies this`bitmaps, this`freeBlocks, this`links
      ensures Sizes() && Counted() && Spans() && Lists() && Listed(i)
      ensures i == |old(links)| && |links| == i + 1
      ensures forall c :: 0 <= c < FREE_LIST_COUNT ==> i !in lists[c]
      ensures bitmaps == old(bitmaps) + [Fresh(segmentHeaderBlockSpan)]
    {
      i := |bitmaps|;
      SegmentAdded(headers, bitmaps, fileHeaderBlockSpan, segmentHeaderBlockSpan);
      FreshCount(segmentHeaderBlockSpan);
      bitmaps := bitmaps + [Fresh(segmentHeaderBlockSpan)];
      freeBlocks := freeBlocks + [BLOCK_COUNT - segmentHeaderBlockSpan];
      forall c | 0 <= c < FREE_LIST_COUNT
        ensures Chained(links + [Links(NONE, NONE)], lists[c], NONE, NONE) && i !in lists[c]
      {
        ChainedInside(links, lists[c], NONE, NONE);
        ChainedFrame(links, links + [Links(NONE, NONE)], lists[c], NONE, NONE);
      }
      links := links + [Links(NONE, NONE)];
    }

    /** PhFppAllocateSegment, once the file has been extended. */
    method AllocateSegment() returns (i: Index)
      requires Valid() && |links| + 1 < SegmentLimit(segmentShift)
      modifies this
      ensures Valid() && headers == old(headers) && i == |old(bitmaps)|
      ensures bitmaps == old(bitmaps) + [Fresh(segmentHeaderBlockSpan)] && i in lists[0]
    {
      LimitBelowNone(segmentShift);
      hide SegmentLimit;
      i := AppendSegment();
      CountedFresh(i);
      InsertFreeList(0, i);
    }

    lemma CountedFresh(i: Index)
      requires Counted() && i < |bitmaps| && segmentHeaderBlockSpan <= 10 && bitmaps[i] == Fresh(segmentHeaderBlockSpan)
      ensures Category(segmentHeaderBlockSpan, freeBlocks[i]) == 0
    {
      FreshCount(segmentHeaderBlockSpan);
    }

    /** PhAllocateFilePool. The new span is apart from every live one, and the bytes asked for lie in it, behind
        the 8 bytes of the block header; their address leads back to the span. The file grows only if no
        segment has a run of free blocks that is long enough, and a segment is taken only if none in a
        category with more free blocks has one. Whether the system extends the file to the size asked for
        is an input. */
    method Allocate(size: nat, canExtend: bool) returns (r: Result)
      requires Valid() && size < WORD
      modifies this
      ensures blockSize > 0
      ensures r.NoBlocks? <==> BlocksFor(blockSize, size) == 0
      ensures r.Faulted? <==>
        (&& 0 < BlocksFor(blockSize, size) <= BLOCK_COUNT - segmentHeaderBlockSpan
         && NoRun(old(bitmaps), BlocksFor(blockSize, size)) && canExtend && |old(links)| + 1 == SegmentLimit(segmentShift))
      ensures !r.NoBlocks? && !r.Faulted? ==> Valid()
      ensures r.Allocated? ==>
        && r.block !in old(headers) && headers == old(headers)[r.block := BlocksFor(blockSize, size)]
        && r.rva == RvaOf(r.block)
        && DecodeRva(segmentShift, |links|, r.rva) == Resolved(r.block.segment, r.block.start * blockSize + 8)
        && r.rva == Place(r.block) + 8
        && (size + blockSize + 7 < 0x1_0000_0000 ==> r.rva + size <= Place(r.block) + headers[r.block] * blockSize)
      ensures r.Allocated? && r.block.segment < |old(bitmaps)| ==> NoFuller(old(bitmaps), old(freeBlocks), r.block.segment, BlocksFor(blockSize, size))
      ensures r.Failed? <==>
        (|| BlocksFor(blockSize, size) > BLOCK_COUNT - segmentHeaderBlockSpan
         || (BlocksFor(blockSize, size) > 0 && !canExtend && NoRun(old(bitmaps), BlocksFor(blockSize, size))))
      ensures r.Failed? ==> headers == old(headers) && bitmaps == old(bitmaps)
      ensures |bitmaps| == |old(bitmaps)| || (|bitmaps| == |old(bitmaps)| + 1 && NoRun(old(bitmaps), BlocksFor(blockSize, size)))
    {
      BlockSizes(blockShift);
      var n := BlocksFor(blockSize, size);
      hide *;
      if n == 0 {
        return NoBlocks;
      }
      if n > BLOCK_COUNT - segmentHeaderBlockSpan {
        return Failed;
      }
      r := AllocateBlocksOf(n, canExtend);
      if r.Allocated? {
        RvaIsPlace(r.block);
        BlocksCover(blockSize, size);
      }
    }

    /** No segment in a category with more free blocks than that of segment i has a run of n. */
    ghost predicate NoFuller(bitmaps: seq<Bitmap>, freeBlocks: seq<nat>, i: nat, n: nat) {
      && i < |freeBlocks| == |bitmaps|
      && forall j :: 0 <= j < |bitmaps| ==>
           (Category(segmentHeaderBlockSpan, freeBlocks[j]) < Category(segmentHeaderBlockSpan, freeBlocks[i]) ==> !HasRun(bitmaps[j], n))
    }

    lemma NoneFuller(c: nat, n: nat)
      requires Valid() && c < FREE_LIST_COUNT
      requires forall d, i :: 0 <= d < c && i in lists[d] && i < |bitmaps| ==> !HasRun(bitmaps[i], n)
      ensures forall i :: i in lists[c] && i < |links| ==> NoFuller(bitmaps, freeBlocks, i, n)
    {
      hide HasRun, Consistent, Category, Chained, Distinct;
      forall i, j | i in lists[c] && i < |links| && 0 <= j < |bitmaps|
        && Category(segmentHeaderBlockSpan, freeBlocks[j]) < Category(segmentHeaderBlockSpan, freeBlocks[i])
        ensures !HasRun(bitmaps[j], n)
      {
        assert j in lists[Category(segmentHeaderBlockSpan, freeBlocks[j])];
      }
    }

    /** The same once the number of blocks is known. */
    method AllocateBlocksOf(n: nat, canExtend: bool) returns (r: Result)
      requires Valid() && 0 < n <= BLOCK_COUNT - segmentHeaderBlockSpan
      modifies this
      ensures !r.NoBlocks? && (r.Faulted? <==> NoRun(old(bitmaps), n) && canExtend && |old(links)| + 1 == SegmentLimit(segmentShift))
      ensures !r.Faulted? ==> Valid()
      ensures r.Allocated? ==>
        && r.block !in old(headers) && headers == old(headers)[r.block := n] && r.rva == RvaOf(r.block)
        && DecodeRva(segmentShift, |links|, r.rva) == Resolved(r.block.segment, BodyOffset(blockSize, r.block.start))
      ensures r.Allocated? && r.block.segment < |old(bitmaps)| ==> NoFuller(old(bitmaps), old(freeBlocks), r.block.segment, n)
      ensures r.Failed? <==> !canExtend && NoRun(old(bitmaps), n)
      ensures r.Failed? ==> headers == old(headers) && bitmaps == old(bitmaps)
      ensures |bitmaps| == |old(bitmaps)| || (|bitmaps| == |old(bitmaps)| + 1 && NoRun(old(bitmaps), n))
    {
      NewSizeWraps(segmentShift, |links|);
      hide *;
      var found, x := AllocateFromExisting(n);
      if !found {
        if !canExtend {
          return Failed;
        }
        if !NewSizeIsRight(segmentShift, |links|) {
          return Faulted;
        }
        x := AllocateFromNew(n);
      }
      LiveRva(x);
      r := Allocated(x, RvaOf(x));
    }

    /** Scan each applicable free list. */
    method AllocateFromExisting(n: nat) returns (found: bool, x: Block)
      requires Valid() && 0 < n <= BLOCK_COUNT - segmentHeaderBlockSpan
      modifies this
      ensures Valid() && |bitmaps| == |old(bitmaps)| && |links| == |old(links)|
      ensures found <==> !NoRun(old(bitmaps), n)
      ensures found ==> x !in old(headers) && headers == old(headers)[x := n]
      ensures found ==> NoFuller(old(bitmaps), old(freeBlocks), x.segment, n)
      ensures !found ==> headers == old(headers) && bitmaps == old(bitmaps)
    {
      var limit := Category(segmentHeaderBlockSpan, n);
      var c := 0;
      while c <= limit
        invariant 0 <= c <= limit + 1
        invariant Valid() && headers == old(headers) && bitmaps == old(bitmaps) && |links| == |old(links)|
        invariant freeBlocks == old(freeBlocks)
        invariant forall d, i :: 0 <= d < c && i in lists[d] && i < |bitmaps| ==> !HasRun(bitmaps[i], n)
      {
        NoneFuller(c, n);
        found, x := AllocateFromList(c, n);
        if found {
          return;
        }
        c := c + 1;
      }
      AllSearched(n, c);
      found, x := false, Block(0, 0);
    }

    /** The blocks come from a new segment, which has room for them. */
    method AllocateFromNew(n: nat) returns (x: Block)
      requires Valid() && 0 < n <= BLOCK_COUNT - segmentHeaderBlockSpan && |links| + 1 < SegmentLimit(segmentShift)
      modifies this
      ensures Valid() && |bitmaps| == |old(bitmaps)| + 1
      ensures x !in old(headers) && headers == old(headers)[x := n]
    {
      var i := AllocateSegment();
      assert Clear(bitmaps[i], segmentHeaderBlockSpan, n);
      var run := TrySegment(0, i, n);
      if run.None? {
        assert false;
      }
      x := Block(i, run.k);
    }

    /** Every segment is on one of the lists searched, or has too few free blocks. */
    lemma AllSearched(n: nat, c: nat)
      requires Valid() && n <= BLOCK_COUNT && c == Category(segmentHeaderBlockSpan, n) + 1
      requires forall d, i :: 0 <= d < c && i in lists[d] && i < |bitmaps| ==> !HasRun(bitmaps[i], n)
      ensures NoRun(bitmaps, n)
    {
      forall i | 0 <= i < |bitmaps| ensures !HasRun(bitmaps[i], n) {
        var d := Category(segmentHeaderBlockSpan, freeBlocks[i]);
        assert i in lists[d];
        CategoryAntitone(segmentHeaderBlockSpan, freeBlocks[i], n);
        if HasRun(bitmaps[i], n) {
          RunNeedsBits(bitmaps[i], n);
        }
      }
    }

    /** One segment of list c is tried. */
    method TrySegment(c: nat, i: Index, n: nat) returns (run: Found)
      requires Valid() && c < FREE_LIST_COUNT && n > 0 && i < |links| && i in lists[c]
      modifies this
      ensures Valid() && |links| == |old(links)| && |bitmaps| == |old(bitmaps)|
      ensures run.None? <==> !HasRun(old(bitmaps)[i], n)
      ensures run.None? ==>
        headers == old(headers) && bitmaps == old(bitmaps) && lists == old(lists) && freeBlocks == old(freeBlocks)
      ensures run.At? ==> Block(i, run.k) !in old(headers) && headers == old(headers)[Block(i, run.k) := n]
    {
      hide HasRun, CountClear, Consistent, Chained, Distinct;
      run := AllocateBlocks(i, n);
      if run.At? {
        Recategorize(c, i);
      }
    }

    /** Where a list leads from one of its segments. */
    lemma OnList(c: nat, a: seq<Index>, b: seq<Index>)
      requires Valid() && c < FREE_LIST_COUNT && lists[c] == a + b
      ensures a == [] ==> freeLists[c] == First(b, NONE)
      ensures First(b, NONE) == NONE <==> b == []
      ensures b != [] ==> b[0] < |links| && b[0] in lists[c] && links[b[0]].flink == First(b[1..], NONE)
    {
      if b != [] {
        assert b[0] in lists[c];
        ChainedInside(links, lists[c], NONE, NONE);
        assert lists[c] == a + [b[0]] + b[1..];
        Neighbours(links, a, b[0], b[1..]);
      }
    }

    /** The inner loop of PhAllocateFilePool: the segments of one free list. */
    method AllocateFromList(c: nat, n: nat) returns (found: bool, x: Block)
      requires Valid() && c < FREE_LIST_COUNT && n > 0
      modifies this
      ensures Valid() && |links| == |old(links)|
      ensures found ==> x !in old(headers) && headers == old(headers)[x := n] && !NoRun(old(bitmaps), n)
      ensures found ==> x.segment in old(lists)[c] && x.segment < |old(links)|
      ensures !found ==>
        && headers == old(headers) && bitmaps == old(bitmaps) && lists == old(lists) && freeBlocks == old(freeBlocks)
        && forall i :: i in lists[c] && i < |bitmaps| ==> !HasRun(bitmaps[i], n)
    {
      assert |bitmaps| == |links|;
      hide Constants, InReach, Sizes, Counted, Spans, Listed, HasRun;
      ghost var a: seq<Index>, b := [], lists[c];
      assert lists[c] == a + b;
      OnList(c, a, b);
      var i := freeLists[c];
      hide Lists;
      while i != NONE
        invariant Valid() && headers == old(headers) && bitmaps == old(bitmaps) && lists == old(lists)
        invariant |links| == |old(links)| && freeBlocks == old(freeBlocks)
        invariant lists[c] == a + b && i == First(b, NONE)
        invariant forall j :: j in a && j < |bitmaps| ==> !HasRun(bitmaps[j], n)
        decreases |b|
      {
        OnList(c, a, b);
        var next := links[i].flink;
        var run := TrySegment(c, i, n);
        if run.At? {
          return true, Block(i, run.k);
        }
        MoveFirst(a, b);
        a, b := a + [i], b[1..];
        i := next;
      }
      OnList(c, a, b);
      found, x := false, Block(0, 0);
    }
  }
}
