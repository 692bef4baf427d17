/** Allocation bitmaps of a file pool: runs of clear bits and their number. */
module FilePoolBitmap {

  type Bitmap = seq<bool>  // true: the block is in use

  ghost predicate Clear(b: Bitmap, k: nat, n: nat) {
    k + n <= |b| && forall j :: k <= j < k + n ==> !b[j]
  }

  ghost predicate InUse(b: Bitmap, k: nat, n: nat) {
    k + n <= |b| && forall j :: k <= j < k + n ==> b[j]
  }

  ghost predicate HasRun(b: Bitmap, n: nat) {
    exists k: nat :: Clear(b, k, n)
  }

  /** RtlSetBits and RtlClearBits */
  function Fill(b: Bitmap, k: nat, n: nat, v: bool): (r: Bitmap)
    requires k + n <= |b|
    ensures |r| == |b|
    ensures forall j :: 0 <= j < |b| ==> r[j] == if k <= j < k + n then v else b[j]
  {
    b[..k] + seq(n, _ => v) + b[k + n..]
  }

  function CountClear(b: Bitmap): nat {
    if b == [] then 0 else (if b[0] then 0 else 1) + CountClear(b[1..])
  }

  lemma {:induction false} CountConcat(a: Bitmap, b: Bitmap)
    ensures CountClear(a + b) == CountClear(a) + CountClear(b)
    decreases a
  {
    if a == [] {
      assert a + b == b;
    } else {
      CountConcat(a[1..], b);
      assert (a + b)[1..] == a[1..] + b;
    }
  }

  lemma {:induction false} CountUniform(n: nat, v: bool)
    ensures CountClear(seq(n, _ => v)) == if v then 0 else n
  {
    if n > 0 {
      CountUniform(n - 1, v);
      assert seq(n, _ => v)[1..] == seq(n - 1, _ => v);
    }
  }

  lemma CountThree(b: Bitmap, k: nat, n: nat)
    requires k + n <= |b|
    ensures CountClear(b) == CountClear(b[..k]) + CountClear(b[k..k + n]) + CountClear(b[k + n..])
  {
    assert b == b[..k] + (b[k..k + n] + b[k + n..]);
    CountConcat(b[k..k + n], b[k + n..]);
    CountConcat(b[..k], b[k..k + n] + b[k + n..]);
  }

  /** Marking a clear run takes its length from the number of clear bits. */
  lemma CountAllocated(b: Bitmap, k: nat, n: nat)
    requires Clear(b, k, n)
    ensures CountClear(b) >= n && CountClear(Fill(b, k, n, true)) == CountClear(b) - n
  {
    var r := Fill(b, k, n, true);
    CountThree(b, k, n);
    CountThree(r, k, n);
    CountUniform(n, true);
    CountUniform(n, false);
    assert b[k..k + n] == seq(n, _ => false) && r[k..k + n] == seq(n, _ => true);
    assert r[..k] == b[..k] && r[k + n..] == b[k + n..];
  }

  /** Clearing a run in use gives its length back. */
  lemma CountFreed(b: Bitmap, k: nat, n: nat)
    requires InUse(b, k, n)
    ensures CountClear(Fill(b, k, n, false)) == CountClear(b) + n
  {
    var r := Fill(b, k, n, false);
    CountThree(b, k, n);
    CountThree(r, k, n);
    CountUniform(n, true);
    CountUniform(n, false);
    assert b[k..k + n] == seq(n, _ => true) && r[k..k + n] == seq(n, _ => false);
    assert r[..k] == b[..k] && r[k + n..] == b[k + n..];
  }

  /** A run of n clear bits needs n clear bits. */
  lemma RunNeedsBits(b: Bitmap, n: nat)
    requires HasRun(b, n)
    ensures CountClear(b) >= n
  {
    var k: nat :| Clear(b, k, n);
    CountAllocated(b, k, n);
  }

  /** Whether n bits from k on are clear. */
  method IsClear(b: Bitmap, k: nat, n: nat) returns (clear: bool)
    requires k + n <= |b|
    ensures clear <==> Clear(b, k, n)
  {
    var j := k;
    while j < k + n
      invariant k <= j <= k + n && forall i :: k <= i < j ==> !b[i]
    {
      if b[j] {
        return false;
      }
      j := j + 1;
    }
    clear := true;
  }

  datatype Found = None | At(k: nat)

  /** The first clear run that begins in lo .. hi. */
  method Scan(b: Bitmap, n: nat, lo: nat, hi: nat) returns (found: Found)
    ensures found.At? ==> Clear(b, found.k, n)
    ensures found.None? ==> forall k: nat :: lo <= k < hi ==> !Clear(b, k, n)
  {
    var k := lo;
    while k < hi && k + n <= |b|
      invariant lo <= k && forall i: nat :: lo <= i < k ==> !Clear(b, i, n)
    {
      var clear := IsClear(b, k, n);
      if clear {
        return At(k);
      }
      k := k + 1;
    }
    found := None;
  }

  /** RtlFindClearBitsAndSet, by what it promises: some clear run, searched from the hint on and then
      from the start, is marked; there is none only if no run is long enough. */
  method FindClearBitsAndSet(b: Bitmap, n: nat, hint: nat) returns (found: Found, b': Bitmap)
    ensures found.None? ==> b' == b && !HasRun(b, n)
    ensures found.At? ==> Clear(b, found.k, n) && b' == Fill(b, found.k, n, true)
  {
    found := Scan(b, n, hint, |b| + 1);
    if found.None? {
      found := Scan(b, n, 0, hint);
    }
    b' := if found.At? then Fill(b, found.k, n, true) else b;
  }
}
