/** Reading a buffer sequence through its iterators: src/buffer.cpp. */
module BufferCopying {
  import opened RecvBufferSequences

  /** `readable_bytes`. */
  ghost function Readable(b: Header): seq<int>
    reads b
  {
    if b.size <= |b.bytes| then b.bytes[..b.size] else b.bytes
  }

  /** The readable bytes of all buffers from the i-th on, in order. */
  ghost function Bytes(bufs: seq<Header>, i: nat := 0): seq<int>
    requires i <= |bufs|
    reads bufs
    decreases |bufs| - i
  {
    if i == |bufs| then [] else Readable(bufs[i]) + Bytes(bufs, i + 1)
  }

  ghost predicate Sized(bufs: seq<Header>)
    reads bufs
  {
    forall b <- bufs :: b.size <= |b.bytes|
  }

  /** `concat` puts the bytes of its argument behind the bytes already there. */
  lemma {:induction false} BytesConcat(front: seq<Header>, back: seq<Header>, i: nat)
    requires i <= |front| + |back|
    ensures i <= |front| ==> Bytes(front + back, i) == Bytes(front, i) + Bytes(back)
    ensures i >= |front| ==> Bytes(front + back, i) == Bytes(back, i - |front|)
    decreases |front| + |back| - i
  {
    if i < |front| + |back| {
      BytesConcat(front, back, i + 1);
    }
  }

  method BufferSize(s: RecvBufferSequence) returns (n: nat)
    requires s.Valid() && Sized(s.bufs)
    ensures n == |Bytes(s.bufs)|
  {
    n := 0;
    var pos := if s.numBufs == 0 then s.sentry else s.head;
    ghost var i := 0;
    while pos != s.sentry
      invariant 0 <= i <= |s.bufs|
      invariant pos == if i < |s.bufs| then s.bufs[i] else s.sentry
      invariant n + |Bytes(s.bufs, i)| == |Bytes(s.bufs)|
      decreases |s.bufs| - i
    {
      n := n + pos.size;
      pos := pos.next;
      i := i + 1;
    }
  }

  /** The body of the copy loop for one buffer: copy what fits behind the first `n` bytes of the
      destination and say whether the loop is left. `rest` are the bytes of the later buffers. */
  method CopyOne(dst: array<int>, n: nat, b: Header, ghost all: seq<int>, ghost rest: seq<int>)
    returns (n': nat, stop: bool)
    requires n <= dst.Length && b.size <= |b.bytes|
    requires all == dst[..n] + (Readable(b) + rest)
    modifies dst
    ensures n <= n' <= dst.Length && dst[n'..] == old(dst[n'..])
    ensures stop ==> n' == dst.Length && n' <= |all| && dst[..n'] == all[..n']
    ensures !stop ==> all == dst[..n'] + rest
  {
    n' := n;
    if b.size == 0 {
      assert Readable(b) + rest == rest;
      return n, false;
    }
    var m := if dst.Length - n < b.size then dst.Length - n else b.size;
    ghost var before := dst[..n];
    forall k | 0 <= k < m {
      dst[n + k] := b.bytes[k];
    }
    n' := n + m;
    assert dst[..n'] == before + Readable(b)[..m];
    stop := m < b.size || n' == dst.Length;
    assert !stop ==> Readable(b)[..m] == Readable(b);
  }

  lemma NextBytes(bufs: seq<Header>, i: nat)
    requires i <= |bufs|
    ensures Bytes(bufs, i) == if i < |bufs| then Readable(bufs[i]) + Bytes(bufs, i + 1) else []
  {
  }

  /** After the first i buffers: either all their bytes are copied, or the destination is full. */
  ghost predicate Copied(dst: seq<int>, n: nat, all: seq<int>, bufs: seq<Header>, i: nat, stop: bool)
    reads bufs
  {
    && n <= |dst| && i <= |bufs|
    && if stop then n == |dst| && n <= |all| && dst[..n] == all[..n] else all == dst[..n] + Bytes(bufs, i)
  }

  method CopyRound(dst: array<int>, n: nat, b: Header, ghost bufs: seq<Header>, ghost i: nat, ghost all: seq<int>)
    returns (n': nat, stop: bool)
    requires Sized(bufs) && i < |bufs| && b == bufs[i] && Copied(dst[..], n, all, bufs, i, false)
    modifies dst
    ensures n <= n' && Copied(dst[..], n', all, bufs, i + 1, stop) && dst[n'..] == old(dst[n'..])
  {
    NextBytes(bufs, i);
    assert dst[..][..n] == dst[..n];
    n', stop := CopyOne(dst, n, b, all, Bytes(bufs, i + 1));
    assert dst[..][..n'] == dst[..n'];
  }

  /** The copy stops when the destination is full or the sequence is exhausted, whichever is first;
      empty buffers in between (an EOF) are skipped. */
  method BufferCopy(dst: array<int>, s: RecvBufferSequence) returns (n: nat)
    requires s.Valid() && Sized(s.bufs)
    modifies dst
    ensures n == if |Bytes(s.bufs)| < dst.Length then |Bytes(s.bufs)| else dst.Length
    ensures dst[..n] == Bytes(s.bufs)[..n]
    ensures dst[n..] == old(dst[n..])
  {
    n := 0;
    var pos, stop := if s.numBufs == 0 then s.sentry else s.head, false;
    ghost var i, all := 0, Bytes(s.bufs);
    while pos != s.sentry && !stop
      invariant i <= |s.bufs| && pos == if i < |s.bufs| then s.bufs[i] else s.sentry
      invariant Copied(dst[..], n, all, s.bufs, i, stop)
      invariant dst[n..] == old(dst[n..])
      decreases |s.bufs| - i
    {
      n, stop := CopyRound(dst, n, pos, s.bufs, i, all);
      pos := pos.next;
      i := i + 1;
    }
    NextBytes(s.bufs, i);
    assert dst[..][..n] == dst[..n];
  }

  /** `to_bytes` (and `to_string`): a copy of exactly the readable bytes. */
  method ToBytes(s: RecvBufferSequence) returns (r: array<int>)
    requires s.Valid() && Sized(s.bufs)
    ensures r[..] == Bytes(s.bufs)
  {
    var n := BufferSize(s);
    r := new int[n](_ => 0);
    var copied := BufferCopy(r, s);
    assert r[..] == r[..copied];
  }
}
