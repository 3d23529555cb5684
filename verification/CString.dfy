/** C strings in fixed buffers, and the two library routines the firmware fills them with. */
module CStrings {

  const NUL: char := '\0'

  type Bytes = seq<char>

  function Zeros(n: nat): Bytes {
    seq(n, _ => NUL)
  }

  function Prefix(mem: Bytes, n: nat): Bytes {
    if |mem| <= n then mem else mem[..n]
  }

  /** The string that starts a stretch of memory: everything before the first NUL. */
  function CStr(mem: Bytes): (text: Bytes)
    ensures |text| <= |mem| && text == mem[..|text|]
    ensures forall k :: 0 <= k < |text| ==> mem[k] != NUL
    ensures |text| < |mem| ==> mem[|text|] == NUL
  {
    if mem == [] || mem[0] == NUL then [] else [mem[0]] + CStr(mem[1..])
  }

  lemma CStrIsUnique(mem: Bytes, n: nat)
    requires n <= |mem| && (forall k :: 0 <= k < n ==> mem[k] != NUL)
    requires n < |mem| ==> mem[n] == NUL
    ensures CStr(mem) == mem[..n]
  {
  }

  /** A text in a buffer of n bytes, with zeros to its end. */
  function Padded(text: Bytes, n: nat): (buf: Bytes)
    ensures |text| <= n ==> |buf| == n
  {
    if |text| <= n then text + Zeros(n - |text|) else text
  }

  /** The reading side: printing or saving a padded buffer gives its text. */
  lemma CStrOfPadded(text: Bytes, n: nat)
    requires NUL !in text && |text| <= n
    ensures CStr(Padded(text, n)) == text
  {
    assert Padded(text, n)[..|text|] == text;
    CStrIsUnique(Padded(text, n), |text|);
  }

  lemma PaddedThenZeros(text: Bytes, n: nat, m: nat)
    requires |text| <= n
    ensures Padded(text, n) + Zeros(m) == Padded(text, n + m)
  {
  }

  /** A text cut to leave room for a final NUL, in its buffer. */
  lemma PaddedCut(text: Bytes, cap: nat)
    ensures |text| <= cap ==> Padded(Prefix(text, cap), cap + 1) == text + Zeros(cap + 1 - |text|)
    ensures |text| > cap ==> Padded(Prefix(text, cap), cap + 1) == text[..cap] + [NUL]
  {
    assert Zeros(1) == [NUL];
  }

  /** memset(buf, 0, sizeof(buf)) */
  method Clear(buf: array<char>)
    modifies buf
    ensures buf[..] == Zeros(buf.Length) && forall k :: 0 <= k < buf.Length ==> buf[k] == '\0'
  {
    for i := 0 to buf.Length
      invariant forall k :: 0 <= k < i ==> buf[k] == NUL
    {
      buf[i] := NUL;
    }
  }

  /** strncpy(dst, src, n), where `src` is the memory that may be read: copies up to the first
    NUL or n bytes, then fills up to n bytes with NULs. Bytes of dst beyond n stay. */
  method Strncpy(dst: array<char>, src: Bytes, n: nat)
    requires n <= dst.Length
    requires n <= |src| || NUL in src
    modifies dst
    ensures dst[..] == Padded(CStr(Prefix(src, n)), n) + old(dst[n..])
    ensures forall k :: n <= k < dst.Length ==> dst[k] == old(dst[k])
    ensures forall k :: 0 <= k < n && (k < |src| && '\0' !in src[..k + 1]) ==> dst[k] == src[k]
    ensures forall k :: 0 <= k < n && !(k < |src| && '\0' !in src[..k + 1]) ==> dst[k] == '\0'
  {
    ghost var before := dst[..];
    var i := CopyToNul(dst, src, n);
    FillZeros(dst, i, n);
    CopiedThenFilled(dst[..], before, CStr(Prefix(src, n)), n);
    BytesCopied(dst[..], before, src, n);
  }

  lemma CopiedThenFilled(after: Bytes, before: Bytes, text: Bytes, n: nat)
    requires |text| <= n <= |before| == |after|
    requires forall k :: 0 <= k < |text| ==> after[k] == text[k]
    requires forall k :: |text| <= k < n ==> after[k] == NUL
    requires forall k :: n <= k < |after| ==> after[k] == before[k]
    ensures after == Padded(text, n) + before[n..]
  {
  }

  /** The same, byte by byte. */
  lemma BytesCopied(after: Bytes, before: Bytes, src: Bytes, n: nat)
    requires n <= |before| && (n <= |src| || NUL in src)
    requires after == Padded(CStr(Prefix(src, n)), n) + before[n..]
    ensures |after| == |before| && forall k :: n <= k < |after| ==> after[k] == before[k]
    ensures forall k :: 0 <= k < n && (k < |src| && '\0' !in src[..k + 1]) ==> after[k] == src[k]
    ensures forall k :: 0 <= k < n && !(k < |src| && '\0' !in src[..k + 1]) ==> after[k] == '\0'
  {
    forall k | 0 <= k < n ensures after[k] == if k < |src| && NUL !in src[..k + 1] then src[k] else NUL {
      TextReaches(src, n, k);
    }
  }

  /** The string goes beyond byte k exactly if there is no NUL up to there. */
  lemma TextReaches(src: Bytes, n: nat, k: nat)
    requires k < n && (n <= |src| || NUL in src)
    ensures k < |CStr(Prefix(src, n))| <==> k < |src| && NUL !in src[..k + 1]
    ensures k < |CStr(Prefix(src, n))| ==> CStr(Prefix(src, n))[k] == src[k]
  {
    var text := CStr(Prefix(src, n));
    if k < |text| {
      assert forall m :: 0 <= m <= k ==> src[m] == Prefix(src, n)[m];
    } else if k < |src| {
      assert src[..k + 1][|text|] == NUL;
    }
  }

  /** The copying part of strncpy; stops at the first NUL or after n bytes. */
  method CopyToNul(dst: array<char>, src: Bytes, n: nat) returns (i: nat)
    requires n <= dst.Length
    requires n <= |src| || NUL in src
    modifies dst
    ensures i == |CStr(Prefix(src, n))| <= n
    ensures forall k :: 0 <= k < i ==> dst[k] == CStr(Prefix(src, n))[k]
    ensures forall k :: i <= k < dst.Length ==> dst[k] == old(dst[k])
  {
    ghost var text := CStr(Prefix(src, n));
    i := 0;
    while i < n && src[i] != NUL
      invariant 0 <= i <= |text|
      invariant forall k :: 0 <= k < i ==> dst[k] == text[k]
      invariant forall k :: i <= k < dst.Length ==> dst[k] == old(dst[k])
    {
      dst[i] := src[i];
      i := i + 1;
    }
  }

  /** The padding part of strncpy. */
  method FillZeros(dst: array<char>, from: nat, n: nat)
    requires from <= n <= dst.Length
    modifies dst
    ensures forall k :: from <= k < n ==> dst[k] == NUL
    ensures forall k :: (0 <= k < from || n <= k < dst.Length) ==> dst[k] == old(dst[k])
  {
    for i := from to n
      invariant forall k :: from <= k < i ==> dst[k] == NUL
      invariant forall k :: (0 <= k < from || i <= k < dst.Length) ==> dst[k] == old(dst[k])
    {
      dst[i] := NUL;
    }
  }
}
