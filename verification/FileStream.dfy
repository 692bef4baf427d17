/** A file as a byte sequence with a position: what a buffered stream has to look like. */
module PlainFile {

  type byte = b: int | 0 <= b < 256

  /** `pos` is an int because a seek may ask for a negative position; such a seek fails. */
  datatype Plain = Plain(data: seq<byte>, pos: int)

  datatype Origin = SeekStart | SeekCurrent | SeekEnd

  function Min(a: int, b: int): int {
    if a < b then a else b
  }

  /** The bytes a read of n bytes at position p returns: fewer than n only at the end of the file. */
  function ReadAt(data: seq<byte>, p: int, n: nat): (r: seq<byte>)
    requires p >= 0
    ensures |r| <= n
  {
    if p < |data| then data[p..Min(p + n, |data|)] else []
  }

  /** The contents after writing b at position p; a gap beyond the end is filled with zeros. */
  function Overwrite(data: seq<byte>, p: int, b: seq<byte>): (r: seq<byte>)
    requires p >= 0
    ensures b == [] ==> r == data
  {
    if b == [] then data
    else
      (if p <= |data| then data[..p] else data + seq(p - |data|, i => 0))
      + b
      + (if p + |b| < |data| then data[p + |b|..] else [])
  }

  function Read(f: Plain, n: nat): (r: (Plain, seq<byte>))
    requires f.pos >= 0
  {
    var b := ReadAt(f.data, f.pos, n);
    (f.(pos := f.pos + |b|), b)
  }

  function Write(f: Plain, b: seq<byte>): Plain
    requires f.pos >= 0
  {
    Plain(Overwrite(f.data, f.pos, b), f.pos + |b|)
  }

  /** The position a seek asks for. */
  function Target(f: Plain, offset: int, origin: Origin): int {
    match origin
    case SeekStart => offset
    case SeekCurrent => f.pos + offset
    case SeekEnd => |f.data| + offset
  }

  lemma OverwriteTwice(data: seq<byte>, p: int, a: seq<byte>, b: seq<byte>)
    requires p >= 0
    ensures Overwrite(Overwrite(data, p, a), p + |a|, b) == Overwrite(data, p, a + b)
  {
    if a != [] && b != [] {
      var mid := Overwrite(data, p, a);
      var front := if p <= |data| then data[..p] else data + seq(p - |data|, i => 0);
      assert mid[..p + |a|] == front + a;
      assert p + |a| + |b| < |data| ==> mid[p + |a| + |b|..] == data[p + |a| + |b|..];
      assert Overwrite(mid, p + |a|, b) == front + a + b + (if p + |a| + |b| < |data| then data[p + |a| + |b|..] else []);
      assert front + (a + b) == front + a + b;
    } else {
      assert a + [] == a && [] + b == b;
    }
  }

  lemma WriteTwice(f: Plain, a: seq<byte>, b: seq<byte>)
    requires f.pos >= 0
    ensures Write(Write(f, a), b) == Write(f, a + b)
  {
    OverwriteTwice(f.data, f.pos, a, b);
  }

  lemma Split(s: seq<byte>, k: nat)
    requires k <= |s|
    ensures s[..k] + s[k..] == s && s[..|s|] == s
  {
  }

  /** Unread bytes u are those of the file in front of position p, and reach its end if not `full`. */
  predicate Held(data: seq<byte>, p: int, u: seq<byte>, full: bool) {
    |u| <= p <= |data| && data[p - |u|..p] == u && (!full ==> p == |data|)
  }

  /** The tail of a buffer is held if the buffer is. */
  lemma HeldTail(data: seq<byte>, p: int, u: seq<byte>, full: bool, from: nat)
    requires Held(data, p, u, full) && from <= |u|
    ensures Held(data, p, u[from..], full)
  {
    assert data[p - |u| + from..p] == data[p - |u|..p][from..];
  }

  /** What a read of n bytes gets out of unread bytes u, and from the file at p if the buffer was full. */
  function Served(data: seq<byte>, p: int, u: seq<byte>, full: bool, n: nat): (r: seq<byte>)
    requires p >= 0
    ensures |r| <= n
  {
    if n <= |u| then u[..n] else u + (if full then ReadAt(data, p, n - |u|) else [])
  }

  lemma ReadAtIs(data: seq<byte>, p: int, n: nat)
    requires p >= 0
    ensures var r := ReadAt(data, p, n);
      |r| == Min(n, if p < |data| then |data| - p else 0) && forall i :: 0 <= i < |r| ==> r[i] == data[p + i]
  {
  }

  /** What is served is what the file holds there, if the unread bytes are held. */
  lemma ServedIsRead(data: seq<byte>, p: int, u: seq<byte>, full: bool, n: nat)
    requires Held(data, p, u, full) && u != []
    ensures Served(data, p, u, full, n) == ReadAt(data, p - |u|, n)
  {
    var start := p - |u|;
    var s, r := Served(data, p, u, full, n), ReadAt(data, start, n);
    ReadAtIs(data, start, n);
    if n > |u| {
      ReadAtIs(data, p, n - |u|);
    }
    hide ReadAt;
    assert |s| == |r|;
    forall i | 0 <= i < |s| ensures s[i] == r[i] {
      if i < |u| {
        assert data[start..p][i] == u[i];
      }
    }
  }

  /** A read past the unread bytes tells whether they are held. */
  lemma ServedTells(data: seq<byte>, p: int, u: seq<byte>, full: bool, n: nat)
    requires 0 < |u| <= p && n > |u| && Served(data, p, u, full, n) == ReadAt(data, p - |u|, n)
    ensures Held(data, p, u, full)
  {
    var start := p - |u|;
    ReadAtIs(data, start, n);
    ReadAtIs(data, p, n - |u|);
    hide ReadAt;
    forall i | 0 <= i < |u| ensures data[start..p][i] == u[i] {
      assert Served(data, p, u, full, n)[i] == u[i];
    }
  }

  /** A read holds what it returns, and is short only at the end of the file. */
  lemma ReadIsHeld(data: seq<byte>, p: int, n: nat)
    requires p >= 0 && ReadAt(data, p, n) != []
    ensures var r := ReadAt(data, p, n); Held(data, p + |r|, r, |r| == n)
  {
  }

  /** Two reads in a row return what one read of the total length returns, when the first read is
      not short. */
  lemma ReadTwice(data: seq<byte>, p: int, m: nat, n: nat)
    requires p >= 0 && |ReadAt(data, p, m)| == m
    ensures ReadAt(data, p, m) + ReadAt(data, p + m, n) == ReadAt(data, p, m + n)
  {
  }

  /** What a file holds after a write: the bytes written, zeros in a gap, and what was there. */
  lemma OverwriteIs(data: seq<byte>, p: int, b: seq<byte>)
    requires p >= 0 && b != []
    ensures var r := Overwrite(data, p, b);
      && |r| == (if p + |b| > |data| then p + |b| else |data|)
      && forall i :: 0 <= i < |r| ==> r[i] == if p <= i < p + |b| then b[i - p] else if i < |data| then data[i] else 0
  {
  }

  /** A read returns what has been written, and elsewhere what was there. */
  lemma ReadWritten(data: seq<byte>, p: int, b: seq<byte>, q: int, n: nat)
    requires p >= 0 && q >= 0 && b != []
    ensures ReadAt(Overwrite(data, p, b), p, |b|) == b
    ensures q + n <= p && q + n <= |data| ==> ReadAt(Overwrite(data, p, b), q, n) == data[q..q + n]
    ensures p + |b| <= q && q + n <= |data| ==> ReadAt(Overwrite(data, p, b), q, n) == data[q..q + n]
  {
    var r := Overwrite(data, p, b);
    OverwriteIs(data, p, b);
    hide Overwrite;
    ReadAtIs(r, p, |b|);
    ReadAtIs(r, q, n);
    hide ReadAt;
    assert forall i :: 0 <= i < |b| ==> ReadAt(r, p, |b|)[i] == b[i];
    assert q + n <= |data| && (q + n <= p || p + |b| <= q) ==>
      |ReadAt(r, q, n)| == n && forall i :: 0 <= i < n ==> ReadAt(r, q, n)[i] == data[q..q + n][i];
  }

  /** A seek to the end and a write append; a seek from the start and one from there lead as far as both
      together. */
  lemma SeekMeans(f: Plain, b: seq<byte>, k: nat, d: int, n: nat)
    ensures Write(f.(pos := Target(f, 0, SeekEnd)), b).data == f.data + b
    ensures k + n <= |f.data| ==> Read(f.(pos := Target(f, k, SeekStart)), n).1 == f.data[k..k + n]
    ensures Target(f.(pos := Target(f, k, SeekStart)), d, SeekCurrent) == Target(f, k + d, SeekStart)
  {
    ReadAtIs(f.data, k, n);
    if b != [] {
      OverwriteIs(f.data, |f.data|, b);
    }
    hide Overwrite;
    assert forall i :: 0 <= i < |f.data + b| ==>
      Overwrite(f.data, |f.data|, b)[i] == (f.data + b)[i] by { if b == [] { assert f.data + b == f.data; } }
  }
}

/** The buffered file stream (phlib/filestream.c). */
module FileStream {
  import opened PlainFile

  const ULONG_RANGE: int := 0x1_0000_0000

  class Stream {
    // the file object
    var data: seq<byte>
    var osPosition: int        // position held by the file object
    // PH_FILE_STREAM
    const unbuffered: bool     // PH_FILE_STREAM_UNBUFFERED
    const ownPosition: bool    // PH_FILE_STREAM_OWN_POSITION
    const bufferLength: nat
    var written: bool          // PH_FILE_STREAM_WRITTEN
    var position: int
    var buffer: array?<byte>
    var readPosition: nat
    var readLength: nat
    var writePosition: nat

    /** The position agreement that PhVerifyFileStream checks. */
    predicate Verified()
      reads this
    {
      ownPosition || position == osPosition
    }

    /** Sizes and positions fit together, and buffered read data and pending writes never coexist. */
    ghost predicate Shaped()
      reads this, buffer
    {
      && position >= 0 && Verified()
      && bufferLength < ULONG_RANGE
      && (unbuffered ==> bufferLength == 0)
      && readPosition <= readLength <= bufferLength && writePosition <= bufferLength
      && (buffer != null ==> buffer.Length == bufferLength)
      && (readLength > 0 || writePosition > 0 ==> buffer != null)
      && (writePosition > 0 ==> readPosition == 0 && readLength == 0)
    }

    /** Unread data are the bytes of the file just before the position. */
    ghost predicate Valid()
      reads this, buffer
    {
      Shaped() && (readPosition < readLength ==> BufferedBefore(position))
    }

    /** The plain file the stream stands for. */
    ghost function View(): Plain
      reads this, buffer
    {
      Plain(
        if writePosition > 0 && position >= 0 && buffer != null && writePosition <= buffer.Length
        then Overwrite(data, position, buffer[..writePosition]) else data,
        position - (readLength - readPosition) + writePosition)
    }

    constructor (data: seq<byte>, unbuffered: bool, ownPosition: bool, bufferLength: nat)
      requires bufferLength < ULONG_RANGE
      ensures Valid() && View() == Plain(data, 0) && buffer == null
      ensures readPosition == 0 && readLength == 0 && writePosition == 0
      ensures this.unbuffered == unbuffered && this.ownPosition == ownPosition
      ensures this.bufferLength == if unbuffered then 0 else bufferLength
    {
      this.data := data;
      this.osPosition := 0;
      this.unbuffered := unbuffered;
      this.ownPosition := ownPosition;
      this.bufferLength := if unbuffered then 0 else bufferLength;
      this.written := false;
      this.position := 0;
      this.buffer := null;
      this.readPosition := 0;
      this.readLength := 0;
      this.writePosition := 0;
    }

    // PhpReadFileStream
    method OsRead(n: nat) returns (ok: bool, bytes: seq<byte>)
      requires Verified()
      modifies `position, `osPosition
      ensures ok == (old(position) >= 0)
      ensures ok ==> bytes == ReadAt(data, old(position), n)
      ensures position == old(position) + |bytes| && Verified()
      ensures !ok ==> bytes == []
    {
      var at := if ownPosition then position else osPosition;
      if at < 0 {
        return false, [];
      }
      bytes := ReadAt(data, at, n);
      ok := true;
      osPosition := at + |bytes|;
      position := position + |bytes|;
    }

    // PhpWriteFileStream
    method OsWrite(bytes: seq<byte>) returns (ok: bool)
      requires Verified()
      modifies `data, `position, `osPosition, `written
      ensures ok == (old(position) >= 0) && Verified()
      ensures ok ==> data == Overwrite(old(data), old(position), bytes) && position == old(position) + |bytes|
      ensures !ok ==> data == old(data) && position == old(position)
      ensures written == (old(written) || ok)
    {
      var at := if ownPosition then position else osPosition;
      if at < 0 {
        return false;
      }
      data := Overwrite(data, at, bytes);
      ok := true;
      osPosition := at + |bytes|;
      position := position + |bytes|;
      written := true;
    }

    // PhpSeekFileStream
    method OsSeek(offset: int, origin: Origin) returns (ok: bool)
      modifies `position, `osPosition
      ensures position == Target(Plain(data, old(position)), offset, origin)
      ensures ok == (ownPosition || position >= 0)
      ensures ok ==> Verified()
      ensures !ok ==> osPosition == old(osPosition)
    {
      match origin {
        case SeekStart => position := offset;
        case SeekCurrent => position := position + offset;
        case SeekEnd => position := |data| + offset;
      }
      if !ownPosition {
        if position < 0 {
          return false;
        }
        osPosition := position;
      }
      ok := true;
    }

    // PhpAllocateBufferFileStream
    method AllocateBuffer()
      modifies `buffer
      ensures buffer != null && fresh(buffer) && buffer.Length == bufferLength
    {
      buffer := new byte[bufferLength](_ => 0);
    }

    /** memcpy of bytes into the buffer. */
    method CopyIn(at: nat, bytes: seq<byte>)
      requires buffer != null && at + |bytes| <= buffer.Length
      modifies buffer
      ensures buffer[..] == old(buffer[..at]) + bytes + old(buffer[at + |bytes|..])
    {
      forall i | 0 <= i < |bytes| {
        buffer[at + i] := bytes[i];
      }
    }

    // PhpFlushWriteFileStream
    method FlushWrite()
      requires Valid() && writePosition > 0
      modifies this
      ensures Valid() && View() == old(View()) && data == old(View()).data
      ensures buffer == old(buffer)
      ensures readPosition == 0 && readLength == 0 && writePosition == 0
    {
      var ok := OsWrite(buffer[..writePosition]);
      writePosition := 0;
    }

    /** Only a read of length zero leaves the buffer filled and untouched. */
    predicate Untouched()
      reads this
    {
      readPosition == 0 && 0 < readLength
    }

    /** The bytes the buffer holds are those of the file before position p, and reach as far as a read
        that did not fill the buffer has to. */
    ghost predicate BufferedBefore(p: int)
      reads this, buffer
    {
      buffer != null && readLength <= buffer.Length && Held(data, p, buffer[..readLength], readLength == bufferLength)
    }

    // PhSeekFileStream
    method Seek(offset: int, origin: Origin) returns (ok: bool)
      requires Valid()
      modifies this
      ensures buffer == old(buffer) && data == old(View()).data && writePosition == 0
      ensures Shaped() <==> ok && position >= 0
      ensures ok == (ownPosition || position >= 0)
      ensures !old(Untouched()) ==>
                && readPosition == 0 && readLength == 0
                && position == Target(old(View()), offset, origin)
      ensures old(Untouched()) ==>
                && readPosition == 0 && readLength == old(readLength)
                && position == Target(Plain(old(data), old(position)), offset, origin)
      // It does what a plain file does exactly when the target is not negative and either the buffer
      // had been touched, or the seek is relative and leads to bytes that look the same.
      ensures (ok && Valid() && View() == Plain(old(View()).data, Target(old(View()), offset, origin)))
                <==> (&& Target(old(View()), offset, origin) >= 0
                      && (old(Untouched()) ==> origin == SeekCurrent && old(BufferedBefore(position + offset))))
    {
      var off := offset;
      if writePosition != 0 {
        FlushWrite();
      } else if readPosition != 0 {
        if origin == SeekCurrent {
          off := off - (readLength - readPosition);
        }
        readPosition := 0;
        readLength := 0;
      }
      ok := OsSeek(off, origin);
    }

    // PhpFlushReadFileStream
    method FlushRead() returns (ok: bool)
      requires Valid() && writePosition == 0
      modifies this
      ensures ok && Valid() && View() == old(View())
      ensures buffer == old(buffer) && data == old(data) && writePosition == 0
      ensures readPosition == 0 && readLength == 0
    {
      ok := true;
      if readLength - readPosition != 0 {
        ok := OsSeek(-(readLength - readPosition), SeekCurrent);
        if !ok {
          return;
        }
      }
      readPosition := 0;
      readLength := 0;
    }

    /** phlib/filestream.c:307-326: read as much as fits into the empty buffer. */
    method Fill()
      requires Valid() && writePosition == 0 && readPosition == readLength && bufferLength > 0
      modifies this, buffer
      ensures buffer == old(buffer) || fresh(buffer)
      ensures Valid() && View() == old(View()) && data == old(data) && writePosition == 0
      ensures if |ReadAt(data, old(position), bufferLength)| == 0
              then readPosition == readLength == old(readLength) && position == old(position)
              else readPosition == 0 && readLength == |ReadAt(data, old(position), bufferLength)|
    {
      if |ReadAt(data, position, bufferLength)| > 0 {
        ReadIsHeld(data, position, bufferLength);
      }
      hide Overwrite, ReadAt, Held;
      if buffer == null {
        AllocateBuffer();
      }
      var ok, got := OsRead(bufferLength);
      if |got| != 0 {
        Hold(got);
      }
    }

    /** The bytes just read are put in the buffer. */
    method Hold(got: seq<byte>)
      requires Shaped() && writePosition == 0 && buffer != null
      requires 0 < |got| <= bufferLength && Held(data, position, got, |got| == bufferLength)
      modifies `readPosition, `readLength, buffer
      ensures Valid() && readPosition == 0 && readLength == |got|
    {
      hide Held;
      CopyIn(0, got);
      readPosition := 0;
      readLength := |got|;
      assert buffer[..readLength] == got;
    }

    ghost function Unread(): seq<byte>
      reads this, buffer
    {
      if buffer != null && readPosition <= readLength <= buffer.Length then buffer[..readLength][readPosition..] else []
    }

    /** phlib/filestream.c:333-365: satisfy the request from the buffer, and read on if it was full. */
    method Take(n: nat) returns (bytes: seq<byte>)
      requires Shaped() && writePosition == 0 && readPosition < readLength
      modifies `position, `osPosition, `readPosition, `readLength
      ensures Shaped() && bytes == Served(data, old(position), old(Unread()), old(readLength) == bufferLength, n)
      ensures if n > old(readLength - readPosition) && old(readLength) == bufferLength
              then readPosition == readLength == 0 && position == old(position) + |bytes| - old(readLength - readPosition)
              else && readPosition == old(readPosition) + |bytes| && |bytes| == Min(n, old(readLength - readPosition))
                   && readLength == old(readLength) && position == old(position)
    {
      var length := Min(readLength - readPosition, n);
      bytes := buffer[readPosition..readPosition + length];
      readPosition := readPosition + length;
      if length < n && readLength == bufferLength {
        var ok, more := OsRead(n - length);
        bytes := bytes + more;
        readPosition := 0;
        readLength := 0;
      }
    }

    /** phlib/filestream.c:264-272 and 286-299: the read is passed through. */
    method ReadThrough(n: nat) returns (bytes: seq<byte>)
      requires Valid() && writePosition == 0 && readPosition == readLength
      modifies `position, `osPosition, `readPosition, `readLength
      ensures Valid() && (View(), bytes) == PlainFile.Read(old(View()), n)
      ensures readPosition == readLength == 0
    {
      readPosition := 0;
      readLength := 0;
      var ok;
      ok, bytes := OsRead(n);
    }

    // PhReadFileStream
    method Read(n: nat) returns (ok: bool, bytes: seq<byte>)
      requires Shaped() && (Valid() || Untouched())
      modifies this, buffer
      ensures ok && (buffer == old(buffer) || fresh(buffer))
      ensures old(Valid()) ==> Valid() && (View(), bytes) == PlainFile.Read(old(View()), n)
      // a seek that should have discarded the buffer is noticed
      ensures !old(Valid()) ==>
                bytes == Served(data, old(position), old(Unread()), old(readLength) == bufferLength, n)
                && (n > old(readLength) && old(View()).pos >= 0 ==> bytes != ReadAt(data, old(View()).pos, n))
      ensures n > 0 ==> !Untouched()
      ensures old(readPosition == readLength) && n < bufferLength ==>
                var ahead := |ReadAt(old(View()).data, old(View()).pos, bufferLength)|;
                ahead > 0 && n <= ahead ==> readLength == ahead && readPosition == n
    {
      ok := true;
      if unbuffered {
        bytes := ReadThrough(n);
        return;
      }
      if readLength - readPosition == 0 {
        if writePosition != 0 {
          FlushWrite();
        }
        if n >= bufferLength {
          bytes := ReadThrough(n);
          return;
        }
        bytes := ReadBuffered(n);
      } else {
        bytes := TakeRead(n);
      }
    }

    /** The rest of the buffer, whether it is still that of the file or not. */
    method TakeRead(n: nat) returns (bytes: seq<byte>)
      requires Shaped() && (Valid() || Untouched())
      requires writePosition == 0 && readPosition < readLength
      modifies `position, `osPosition, `readPosition, `readLength
      ensures old(Valid()) ==> Valid() && (View(), bytes) == PlainFile.Read(old(View()), n)
      ensures bytes == Served(data, old(position), old(Unread()), old(readLength) == bufferLength, n) && Shaped()
      ensures !old(Valid()) && n > old(readLength) && old(View()).pos >= 0 ==> bytes != ReadAt(data, old(View()).pos, n)
      ensures n > 0 ==> !Untouched()
      ensures n <= old(readLength - readPosition) ==>
                readPosition == old(readPosition) + n && readLength == old(readLength)
    {
      ghost var p, u, full := position, Unread(), readLength == bufferLength;
      assert View().pos == p - |u|;
      if Valid() {
        HeldTail(data, p, buffer[..readLength], full, readPosition);
        ServedIsRead(data, p, u, full, n);
      } else if |u| <= p && n > |u| && Served(data, p, u, full, n) == ReadAt(data, p - |u|, n) {
        ServedTells(data, p, u, full, n);
      }
      hide ReadAt, Overwrite, Served, Held;
      bytes := Take(n);
    }

    /** phlib/filestream.c:301-365, when nothing is available in the buffer. */
    method ReadBuffered(n: nat) returns (bytes: seq<byte>)
      requires Valid() && writePosition == 0 && readPosition == readLength && n < bufferLength
      modifies this, buffer
      ensures buffer == old(buffer) || fresh(buffer)
      ensures Valid() && (View(), bytes) == PlainFile.Read(old(View()), n)
      ensures n > 0 ==> !Untouched()
      ensures old(readPosition == readLength) && n < bufferLength ==>
                var ahead := |ReadAt(old(View()).data, old(View()).pos, bufferLength)|;
                ahead > 0 && n <= ahead ==> readLength == ahead && readPosition == n
    {
      Fill();
      if readPosition == readLength {
        return [];
      }
      bytes := TakeRead(n);
    }

    /** phlib/filestream.c:452-485: append to the pending data; when the buffer is full, write it out. */
    method Append(bytes: seq<byte>) returns (rest: seq<byte>)
      requires Valid() && writePosition > 0
      modifies this, buffer
      ensures Valid() && buffer == old(buffer) && readLength == 0
      ensures |rest| <= |bytes| && rest == bytes[|bytes| - |rest|..]
      ensures View() == PlainFile.Write(old(View()), bytes[..|bytes| - |rest|])
      ensures rest != [] ==> writePosition == 0
      ensures old(writePosition) + |bytes| < bufferLength ==>
        rest == [] && data == old(data) && writePosition == old(writePosition) + |bytes|
    {
      hide Overwrite;
      rest := bytes;
      var available := bufferLength - writePosition;
      ghost var pending := buffer[..writePosition];
      if available != 0 {
        var w := Min(available, |rest|);
        CopyIn(writePosition, rest[..w]);
        OverwriteTwice(data, position, pending, rest[..w]);
        writePosition := writePosition + w;
        assert buffer[..writePosition] == pending + rest[..w];
        rest := rest[w..];
        if rest == [] {
          return;
        }
      }
      FlushWrite();
    }

    /** phlib/filestream.c:488-513: a large write passes through, a small one is buffered. */
    method Store(rest: seq<byte>) returns (ok: bool)
      requires Verified() && readLength == 0 && readPosition == 0 && writePosition == 0
      requires buffer != null ==> buffer.Length == bufferLength
      requires bufferLength < ULONG_RANGE && (unbuffered ==> bufferLength == 0)
      modifies this, buffer
      ensures buffer == old(buffer) || fresh(buffer)
      ensures readLength == 0 && readPosition == 0
      ensures ok ==> View().pos == old(position) + |rest|
      ensures old(position) >= 0 ==> ok && Valid() && View() == PlainFile.Write(old(View()), rest)
      ensures |rest| < bufferLength ==> data == old(data) && writePosition == |rest|
    {
      ok := true;
      if |rest| >= bufferLength {
        ok := OsWrite(rest);
      } else if |rest| != 0 {
        if buffer == null {
          AllocateBuffer();
        }
        CopyIn(0, rest);
        writePosition := |rest|;
        assert buffer[..writePosition] == rest;
      }
    }

    // PhWriteFileStream
    method Write(bytes: seq<byte>) returns (ok: bool)
      requires Valid()
      modifies this, buffer
      ensures buffer == old(buffer) || fresh(buffer)
      ensures readPosition == 0 && readLength == 0
      ensures ok && Valid() && View() == PlainFile.Write(old(View()), bytes)
      // a write that fits into the buffer stays there
      ensures old(writePosition) + |bytes| < bufferLength ==> data == old(data) && writePosition == old(writePosition) + |bytes|
    {
      hide Overwrite, Held;
      ok := true;
      if unbuffered {
        ok := OsWrite(bytes);
        return;
      }
      if writePosition == 0 {
        ok := FlushRead();
        if !ok {
          return;
        }
      }
      var rest := bytes;
      if writePosition != 0 {
        rest := Append(bytes);
        Split(bytes, |bytes| - |rest|);
        if rest == [] {
          return;
        }
        WriteTwice(old(View()), bytes[..|bytes| - |rest|], rest);
      }
      ok := Store(rest);
    }

    // PhFlushFileStream, down to the operating system's own flush
    method Flush() returns (ok: bool)
      requires Valid()
      modifies this
      ensures buffer == old(buffer) && writePosition == 0 && data == old(View()).data
      ensures ok && Valid() && View() == old(View())
      ensures !old(Untouched()) ==> readPosition == 0 && readLength == 0
    {
      ok := true;
      if writePosition != 0 {
        FlushWrite();
      }
      if readPosition != 0 {
        ok := FlushRead();
      }
    }

    // PhGetPositionFileStream: the difference of two ULONGs is a ULONG
    method GetPosition() returns (p: int)
      requires Valid()
      ensures p == View().pos <==> readPosition == readLength
      ensures p == View().pos + (if readPosition < readLength then ULONG_RANGE else 0)
    {
      p := position + (readPosition - readLength) % ULONG_RANGE + writePosition;
    }
  }

  // ---------------------------------------------------------------------------------------------
  // Whole runs
  // ---------------------------------------------------------------------------------------------

  datatype Op =
    | ReadOp(n: nat)
    | WriteOp(bytes: seq<byte>)
    | SeekOp(offset: int, origin: Origin)
    | FlushOp

  /** What an operation hands back: the bytes of a read, nothing of any other. */
  function PlainStep(f: Plain, op: Op): (Plain, seq<byte>)
    requires f.pos >= 0
  {
    match op
    case ReadOp(n) => PlainFile.Read(f, n)
    case WriteOp(bytes) => (PlainFile.Write(f, bytes), [])
    case SeekOp(offset, origin) => (f.(pos := Target(f, offset, origin)), [])
    case FlushOp => (f, [])
  }

  /** A run a caller may make: seeks stay in front of no position below zero; and a read of no bytes,
      which may leave a filled and untouched buffer, is followed by a read of some bytes or a write
      before the next seek that moves. */
  ghost predicate Allowed(f: Plain, emptyRead: bool, ops: seq<Op>)
    decreases ops
  {
    f.pos >= 0 &&
    (ops == [] ||
     (&& (ops[0].SeekOp? ==>
            && Target(f, ops[0].offset, ops[0].origin) >= 0
            && (emptyRead ==> ops[0].origin == SeekCurrent && ops[0].offset == 0))
      && Allowed(PlainStep(f, ops[0]).0, AfterEmptyRead(emptyRead, ops[0]), ops[1..])))
  }

  function AfterEmptyRead(emptyRead: bool, op: Op): bool {
    match op
    case ReadOp(n) => n == 0
    case WriteOp(_) => false
    case _ => emptyRead
  }

  ghost function PlainRun(f: Plain, emptyRead: bool, ops: seq<Op>): (Plain, seq<seq<byte>>)
    requires Allowed(f, emptyRead, ops)
    decreases ops
  {
    if ops == [] then (f, [])
    else
      var (f', bytes) := PlainStep(f, ops[0]);
      var (last, outputs) := PlainRun(f', AfterEmptyRead(emptyRead, ops[0]), ops[1..]);
      (last, [bytes] + outputs)
  }

  method PerformOne(s: Stream, op: Op, emptyRead: bool) returns (ok: bool, bytes: seq<byte>)
    requires s.Valid() && Allowed(s.View(), emptyRead, [op])
    requires !emptyRead ==> !s.Untouched()
    modifies s, s.buffer
    ensures s.buffer == old(s.buffer) || fresh(s.buffer)
    ensures ok && s.Valid() && (s.View(), bytes) == PlainStep(old(s.View()), op)
    ensures !AfterEmptyRead(emptyRead, op) ==> !s.Untouched()
  {
    bytes := [];
    match op {
      case ReadOp(n) => ok, bytes := s.Read(n);
      case WriteOp(data) => ok := s.Write(data);
      case SeekOp(offset, origin) => ok := s.Seek(offset, origin);
      case FlushOp => ok := s.Flush();
    }
  }

  /** Over every allowed run the stream behaves as the plain file: the same bytes are read, and the
      contents and the position at the end are the same. */
  method Perform(s: Stream, emptyRead: bool, ops: seq<Op>) returns (ok: bool, outputs: seq<seq<byte>>)
    requires s.Valid() && Allowed(s.View(), emptyRead, ops)
    requires !emptyRead ==> !s.Untouched()
    modifies s, s.buffer
    ensures s.buffer == old(s.buffer) || fresh(s.buffer)
    ensures ok && s.Valid() && (s.View(), outputs) == PlainRun(old(s.View()), emptyRead, ops)
    decreases ops
  {
    if ops == [] {
      return true, [];
    }
    var bytes, rest;
    ok, bytes := PerformOne(s, ops[0], emptyRead);
    ok, rest := Perform(s, AfterEmptyRead(emptyRead, ops[0]), ops[1..]);
    outputs := [bytes] + rest;
  }

  /** The rule on empty reads is needed: the buffer filled by a read of no bytes outlives the seek. */
  method StaleExample() returns (read: seq<byte>, plain: seq<byte>)
    ensures read == [10] && plain == [11]
  {
    var contents: seq<byte> := [10, 11];
    assert ReadAt(contents, 0, 1) == [10];
    plain := ReadAt(contents, 1, 1);
    hide ReadAt, Overwrite;
    var s := new Stream(contents, false, false, 1);
    var ok, bytes := s.Read(0);
    assert s.BufferedBefore(1) && s.buffer[..1][0] == s.data[0..1][0];
    ok := s.Seek(1, SeekCurrent);
    assert s.data[1..2][0] == 11;
    hide Held;
    ok, read := s.Read(1);
  }

  /** After one byte of two has been read from the buffer, the position reported is 2^32 too large. */
  method PositionExample() returns (p: int)
    ensures p == ULONG_RANGE + 1
  {
    var contents: seq<byte> := [10, 11];
    assert |ReadAt(contents, 0, 2)| == 2 && |ReadAt(contents, 0, 1)| == 1;
    hide ReadAt, Overwrite, Held;
    var s := new Stream(contents, false, false, 2);
    var ok, bytes := s.Read(1);
    p := s.GetPosition();
  }
}
