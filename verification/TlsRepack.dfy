/** How decrypted records are packed into the buffers their ciphertext arrived in:
    `tls_callbacks::tls_record_received` and `async_recv_impl` (src/tls/tls.cpp:280-315 and 421-460).

    The buffer sequences are values here; RecvBufferSequence.dfy proves that the list behind them behaves
    like one. The TLS channel is a script: which records it emits for each piece of ciphertext. */
module TlsRepack {

  /** A buffer: which allocation it is, its capacity and its readable bytes. */
  datatype Buf = Buf(addr: nat, cap: nat, data: seq<int>) {
    predicate SameStorage(other: Buf) {
      addr == other.addr && cap == other.cap
    }

    predicate Full() {
      |data| == cap
    }
  }

  /** The bytes of the first n buffers. */
  function Bytes(bufs: seq<Buf>, n: nat): seq<int>
    requires n <= |bufs|
  {
    if n == 0 then [] else Bytes(bufs, n - 1) + bufs[n - 1].data
  }

  lemma {:induction false} BytesSamePrefix(a: seq<Buf>, b: seq<Buf>, n: nat)
    requires n <= |a| && n <= |b| && forall i :: 0 <= i < n ==> a[i] == b[i]
    ensures Bytes(a, n) == Bytes(b, n)
  {
    if n > 0 {
      BytesSamePrefix(a, b, n - 1);
    }
  }

  ghost predicate Usable(bufs: seq<Buf>) {
    forall i :: 0 <= i < |bufs| ==> bufs[i].cap > 0 && |bufs[i].data| <= bufs[i].cap
  }

  /** Every buffer but the last is filled to capacity. */
  ghost predicate Packed(bufs: seq<Buf>) {
    forall i :: 0 <= i < |bufs| - 1 ==> bufs[i].Full()
  }

  /** Packed buffers followed by the mark for the end of the stream. */
  ghost predicate Ended(bufs: seq<Buf>) {
    && bufs != [] && bufs[|bufs| - 1] == EOF_MARK
    && (forall i :: 0 <= i < |bufs| - 1 ==> bufs[i].cap > 0 && |bufs[i].data| <= bufs[i].cap)
    && (forall i :: 0 <= i < |bufs| - 2 ==> bufs[i].Full())
  }

  lemma Associative(a: seq<int>, b: seq<int>, c: seq<int>)
    ensures (a + b) + c == a + (b + c)
  {}

  lemma SplitAt(a: seq<int>, b: seq<int>, n: nat)
    requires n <= |b|
    ensures (a + b[..n]) + b[n..] == a + b
  {}

  function Min(a: nat, b: nat): nat {
    if a < b then a else b
  }

  const EOF_MARK := Buf(0, 0, [])

  /** How a pair of sequences may become another: input buffers stay where they are; new ones are drawn from
      the output in order and, with all of it drawn, allocated as large as the front. */
  ghost predicate Draws(input0: seq<Buf>, output0: seq<Buf>, input: seq<Buf>, output: seq<Buf>) {
    && |input| >= |input0| && |output| <= |output0|
    && (forall i :: 0 <= i < |input0| ==> input[i].SameStorage(input0[i]))
    && (forall i :: |input0| <= i < |input| ==>
          if i - |input0| < |output0| then input[i].SameStorage(output0[i - |input0|]) else input[i].cap == input[0].cap)
    && (|output| + |input| == |output0| + |input0| || (output == [] && |input| > |output0| + |input0|))
    && (forall i :: 0 <= i < |output| ==> output[i] == output0[|output0| - |output| + i])
  }

  lemma DrawsMore(input0: seq<Buf>, output0: seq<Buf>, input: seq<Buf>, output: seq<Buf>, input': seq<Buf>, output': seq<Buf>)
    requires Draws(input0, output0, input, output) && (input == [] ==> output != [])
    requires |input'| == |input| + 1 && (forall i :: 0 <= i < |input| ==> input'[i] == input[i])
    requires if output == [] then input'[|input|].cap == input[0].cap else input'[|input|].SameStorage(output[0])
    requires |output'| == if output == [] then 0 else |output| - 1
    requires forall i :: 0 <= i < |output'| ==> output'[i] == output[i + 1]
    ensures Draws(input0, output0, input', output')
  {}

  // ------------------------------------------------------------------- the script

  function Flat(records: seq<seq<int>>, n: nat): seq<int>
    requires n <= |records|
  {
    if n == 0 then [] else Flat(records, n - 1) + records[n - 1]
  }

  /** A received buffer, and what the channel does with its bytes; capacity 0 is the end of the stream. */
  datatype Wire = Wire(addr: nat, cap: nat, data: seq<int>, records: seq<seq<int>>, throws: bool)

  datatype Delivery = Failed(code: int) | Received(wires: seq<Wire>)

  ghost predicate WireOk(w: Wire) {
    |w.data| <= w.cap
  }

  /** None of the first n wires ends the stream or makes the channel throw. */
  predicate Open(wires: seq<Wire>, n: nat)
    requires n <= |wires|
  {
    n == 0 || (Open(wires, n - 1) && wires[n - 1].cap > 0 && !wires[n - 1].throws)
  }

  /** Wire i reaches the channel. */
  predicate Fed(wires: seq<Wire>, i: nat)
    requires i < |wires|
  {
    Open(wires, i) && wires[i].cap > 0
  }

  /** The channel throws within the first n wires. */
  predicate Throws(wires: seq<Wire>, n: nat)
    requires n <= |wires|
  {
    n > 0 && (Throws(wires, n - 1) || (Fed(wires, n - 1) && wires[n - 1].throws))
  }

  /** Within the first n wires the channel emits a record, or the stream ends. */
  predicate Signals(wires: seq<Wire>, n: nat)
    requires n <= |wires|
  {
    n > 0 && (Signals(wires, n - 1) || (Open(wires, n - 1) && (wires[n - 1].cap == 0 || wires[n - 1].records != [])))
  }

  /** A delivery after which `async_recv_impl` waits for the next one. */
  predicate Continues(d: Delivery) {
    d.Received? && !Signals(d.wires, |d.wires|) && !Throws(d.wires, |d.wires|)
  }

  /** The plaintext of the first n wires. */
  function PlainOf(wires: seq<Wire>, n: nat): seq<int>
    requires n <= |wires|
  {
    if n == 0 then []
    else if Fed(wires, n - 1) then PlainOf(wires, n - 1) + Flat(wires[n - 1].records, |wires[n - 1].records|)
    else PlainOf(wires, n - 1)
  }

  /** What comes behind the end of the stream, or behind an error, is dropped. */
  lemma {:induction false} PlainStops(wires: seq<Wire>, i: nat, n: nat)
    requires i <= n <= |wires| && !Open(wires, i)
    ensures !Open(wires, n)
    ensures PlainOf(wires, n) == PlainOf(wires, i) && Throws(wires, n) == Throws(wires, i) && Signals(wires, n) == Signals(wires, i)
  {
    if n > i {
      PlainStops(wires, i, n - 1);
    }
  }

  /** What the wires before the n-th say, one by one. */
  lemma {:induction false} WiresMean(wires: seq<Wire>, n: nat)
    requires n <= |wires|
    ensures Open(wires, n) <==> forall i :: 0 <= i < n ==> wires[i].cap > 0 && !wires[i].throws
    ensures Throws(wires, n) <==>
      exists i :: 0 <= i < n && wires[i].cap > 0 && wires[i].throws && forall j :: 0 <= j < i ==> wires[j].cap > 0 && !wires[j].throws
    ensures Signals(wires, n) <==>
      exists i :: 0 <= i < n && (wires[i].cap == 0 || wires[i].records != [])
                  && forall j :: 0 <= j < i ==> wires[j].cap > 0 && !wires[j].throws
  {
    if n > 0 {
      WiresMean(wires, n - 1);
    }
  }

  /** The plaintext of a delivery is that of the wires up to the first that ends the stream, or fails,
      which counts itself unless it is the end. */
  lemma {:induction false} PlainIsOpenPart(wires: seq<Wire>, n: nat)
    requires n < |wires| && forall i :: 0 <= i < n ==> wires[i].cap > 0 && !wires[i].throws
    ensures PlainOf(wires, n + 1) ==
      PlainOf(wires, n) + (if wires[n].cap > 0 then Flat(wires[n].records, |wires[n].records|) else [])
    ensures wires[n].cap == 0 || wires[n].throws ==> PlainOf(wires, |wires|) == PlainOf(wires, n + 1)
  {
    WiresMean(wires, n);
    if wires[n].cap == 0 || wires[n].throws {
      PlainStops(wires, n + 1, |wires|);
    }
  }

  function PlainAll(script: seq<Delivery>, n: nat): seq<int>
    requires n <= |script|
  {
    if n == 0 then []
    else if script[n - 1].Received? then PlainAll(script, n - 1) + PlainOf(script[n - 1].wires, |script[n - 1].wires|)
    else PlainAll(script, n - 1)
  }

  datatype RecvResult = Got(bufs: seq<Buf>) | Error(code: int) | Suspended

  // -------------------------------------------------------------------- the object

  class TlsCallbacks {
    var input: seq<Buf>
    var output: seq<Buf>
    var receivedRecord: bool

    /** The next address `recv_buffer( n )` gets. */
    var nextAddr: nat

    constructor ()
      ensures Valid() && input == [] && output == [] && !receivedRecord
    {
      input, output, receivedRecord, nextAddr := [], [], false, 1;
    }

    ghost predicate Valid()
      reads this
    {
      Usable(input) && Usable(output) && Packed(input)
    }

    /** Fill the spare room of the last input buffer. */
    method FillBack(plaintext: seq<int>) returns (n: nat)
      requires Valid() && input != []
      modifies this`input
      ensures n == Min(old(input[|input| - 1].cap - |input[|input| - 1].data|), |plaintext|)
      ensures Valid() && |input| == |old(input)| && input[|input| - 1].SameStorage(old(input[|input| - 1]))
      ensures input[..|input| - 1] == old(input[..|input| - 1])
      ensures Bytes(input, |input|) == old(Bytes(input, |input|)) + plaintext[..n]
      ensures n < |plaintext| ==> input[|input| - 1].Full()
    {
      var last := |input| - 1;
      var back := input[last];
      n := Min(back.cap - |back.data|, |plaintext|);
      input := input[last := Buf(back.addr, back.cap, back.data + plaintext[..n])];
      BytesSamePrefix(input, old(input), last);
    }

    /** Append a buffer, taken from the output or allocated, and fill it. */
    method FillNew(plaintext: seq<int>) returns (n: nat)
      requires Valid() && |plaintext| > 0
      requires input == [] ==> output != []
      requires input != [] ==> input[|input| - 1].Full()
      modifies this`input, this`output, this`nextAddr
      ensures 0 < n <= |plaintext| && Valid()
      ensures |input| == |old(input)| + 1 && input[..|old(input)|] == old(input)
      ensures if old(output) == [] then input[|old(input)|].cap == old(input)[0].cap
              else input[|old(input)|].SameStorage(old(output)[0])
      ensures output == if old(output) == [] then [] else old(output)[1..]
      ensures Bytes(input, |input|) == old(Bytes(input, |input|)) + plaintext[..n]
      ensures n < |plaintext| ==> input[|input| - 1].Full()
    {
      var buf;
      if output == [] {
        buf := Buf(nextAddr, input[0].cap, []);
        nextAddr := nextAddr + 1;
      } else {
        buf := output[0];
        output := output[1..];
      }
      assert buf.cap > 0;
      n := Min(buf.cap, |plaintext|);
      input := input + [Buf(buf.addr, buf.cap, plaintext[..n])];
      BytesSamePrefix(input, old(input), |old(input)|);
    }

    /** One round of the loop. */
    method FillOne(plaintext: seq<int>, ghost input0: seq<Buf>, ghost output0: seq<Buf>) returns (n: nat)
      requires Valid() && |plaintext| > 0 && (input == [] ==> output != [])
      requires Draws(input0, output0, input, output)
      modifies this`input, this`output, this`nextAddr
      ensures 0 < n <= |plaintext| && Valid() && input != []
      ensures Draws(input0, output0, input, output)
      ensures Bytes(input, |input|) == old(Bytes(input, |input|)) + plaintext[..n]
    {
      if input != [] && |input[|input| - 1].data| < input[|input| - 1].cap {
        n := FillBack(plaintext);
        assert forall i :: 0 <= i < |input| ==> input[i].SameStorage(old(input)[i]) by {
          assert forall i :: 0 <= i < |input| - 1 ==> input[..|input| - 1][i] == old(input)[i];
        }
      } else {
        n := FillNew(plaintext);
        assert forall i :: 0 <= i < |old(input)| ==> input[..|old(input)|][i] == input[i];
        DrawsMore(input0, output0, old(input), old(output), input, output);
      }
    }

    /** A record is appended to the input byte for byte; buffers are drawn from the output in order and
        allocated only when it is exhausted; every buffer but the last ends up full. */
    method RecordReceived(plaintext: seq<int>)
      requires Valid() && (plaintext != [] && input == [] ==> output != [])
      modifies this
      ensures Valid() && receivedRecord
      ensures Bytes(input, |input|) == old(Bytes(input, |input|)) + plaintext
      ensures Draws(old(input), old(output), input, output)
      ensures input != [] || output == old(output)
    {
      receivedRecord := true;
      ghost var total := Bytes(input, |input|) + plaintext;
      var rest := plaintext;
      while rest != []
        invariant Valid() && receivedRecord
        invariant Bytes(input, |input|) + rest == total
        invariant Draws(old(input), old(output), input, output)
        invariant rest != [] && input == [] ==> output != []
        invariant input != [] || output == old(output)
        decreases |rest|
      {
        ghost var bytes0 := Bytes(input, |input|);
        var n := FillOne(rest, old(input), old(output));
        SplitAt(bytes0, rest, n);
        rest := rest[n..];
      }
    }

    /** The end of the stream is kept as a buffer without capacity. */
    method PushEof()
      requires Valid()
      modifies this`input, this`receivedRecord
      ensures input == old(input) + [EOF_MARK] && Ended(input) && input[|input| - 1].cap == 0 && receivedRecord
      ensures Bytes(input, |input|) == old(Bytes(input, |input|))
    {
      BytesSamePrefix(input + [EOF_MARK], input, |input|);
      input := input + [EOF_MARK];
      receivedRecord := true;
    }

    /** One delivery of the connection. */
    method Deliver(wires: seq<Wire>) returns (eof: bool, failed: bool)
      requires Valid() && forall i :: 0 <= i < |wires| ==> WireOk(wires[i])
      modifies this
      ensures if eof then Ended(input) && Usable(output) else Valid()
      ensures receivedRecord == (old(receivedRecord) || Signals(wires, |wires|)) && (eof ==> Signals(wires, |wires|))
      ensures failed <==> Throws(wires, |wires|)
      ensures (eof || failed <==> !Open(wires, |wires|)) && !(eof && failed)
      ensures Bytes(input, |input|) == old(Bytes(input, |input|)) + PlainOf(wires, |wires|)
    {
      eof, failed := false, false;
      var i := 0;
      while i < |wires| && !eof && !failed
        invariant 0 <= i <= |wires| && !(eof && failed)
        invariant if eof then Ended(input) && Usable(output) else Valid()
        invariant receivedRecord == (old(receivedRecord) || Signals(wires, i)) && (eof ==> Signals(wires, i))
        invariant (eof || failed <==> !Open(wires, i)) && (failed <==> Throws(wires, i))
        invariant Bytes(input, |input|) == old(Bytes(input, |input|)) + PlainOf(wires, i)
      {
        assert WireOk(wires[i]);
        eof, failed := DeliverOne(wires[i]);
        Associative(old(Bytes(input, |input|)), PlainOf(wires, i), Flat(wires[i].records, |wires[i].records|));
        i := i + 1;
      }
      if eof || failed {
        PlainStops(wires, i, |wires|);
      }
    }

    /** One buffer of a delivery: an end of the stream or an error leaves the loop. */
    method DeliverOne(w: Wire) returns (eof: bool, failed: bool)
      requires Valid() && WireOk(w)
      modifies this
      ensures (eof <==> w.cap == 0) && (failed <==> w.cap > 0 && w.throws)
      ensures if eof then Ended(input) && Usable(output) else Valid()
      ensures receivedRecord == (old(receivedRecord) || w.cap == 0 || w.records != [])
      ensures Bytes(input, |input|) == old(Bytes(input, |input|)) + (if eof then [] else Flat(w.records, |w.records|))
    {
      eof, failed := w.cap == 0, false;
      if eof {
        PushEof();
      } else {
        FeedWire(w);
        failed := w.throws;
      }
    }

    /** The buffer is kept for plaintext before its bytes are given to the channel. */
    method FeedWire(w: Wire)
      requires Valid() && w.cap > 0 && WireOk(w)
      modifies this
      ensures Valid() && receivedRecord == (old(receivedRecord) || w.records != [])
      ensures Bytes(input, |input|) == old(Bytes(input, |input|)) + Flat(w.records, |w.records|)
    {
      output := output + [Buf(w.addr, w.cap, w.data)];
      FeedChannel(w.records);
    }

    /** `received_data`: the channel calls back for each record it has completed. */
    method FeedChannel(records: seq<seq<int>>)
      requires Valid() && (input != [] || output != [])
      modifies this
      ensures Valid() && receivedRecord == (old(receivedRecord) || records != [])
      ensures Bytes(input, |input|) == old(Bytes(input, |input|)) + Flat(records, |records|)
    {
      for k := 0 to |records|
        invariant Valid() && (input != [] || output != []) && receivedRecord == (old(receivedRecord) || k > 0)
        invariant Bytes(input, |input|) == old(Bytes(input, |input|)) + Flat(records, k)
      {
        RecordReceived(records[k]);
        Associative(old(Bytes(input, |input|)), Flat(records, k), records[k]);
      }
    }

    /** `async_recv_impl` until it returns, or is still waiting when the script ends. Whatever it returns,
        no plaintext byte is lost, duplicated or reordered: what it hands over, or keeps for the next
        call, is what was there before followed by everything the channel emitted. */
    method AsyncRecv(script: seq<Delivery>) returns (r: RecvResult, used: nat)
      requires Valid()
      requires forall k, i :: 0 <= k < |script| && script[k].Received? && 0 <= i < |script[k].wires| ==> WireOk(script[k].wires[i])
      modifies this
      ensures Valid() && used <= |script|
      ensures r.Got? ==> Bytes(r.bufs, |r.bufs|) == old(Bytes(input, |input|)) + PlainAll(script, used)
      ensures r.Got? ==> input == [] && !receivedRecord
      ensures r.Got? && old(receivedRecord) ==> r.bufs == old(input) && used == 0
      ensures r.Got? ==> Packed(r.bufs) || Ended(r.bufs)
      ensures !r.Got? ==> Bytes(input, |input|) == old(Bytes(input, |input|)) + PlainAll(script, used)
      // when it returns
      ensures forall k :: 0 <= k < used - 1 ==> Continues(script[k])
      ensures old(receivedRecord) ==> r.Got?
      ensures !old(receivedRecord) && r.Got? ==>
        used > 0 && script[used - 1].Received? && Signals(script[used - 1].wires, |script[used - 1].wires|)
      ensures r.Error? ==> used > 0 && (script[used - 1].Received? ==> Throws(script[used - 1].wires, |script[used - 1].wires|))
      ensures r.Error? && script[used - 1].Failed? ==> r.code == script[used - 1].code
      ensures r.Suspended? ==> used == |script| && (used > 0 ==> Continues(script[used - 1]))
    {
      used := 0;
      while !receivedRecord
        invariant Valid() && used <= |script|
        invariant old(receivedRecord) ==> used == 0 && receivedRecord && input == old(input)
        invariant forall k :: 0 <= k < used - 1 ==> Continues(script[k])
        invariant !receivedRecord && used > 0 ==> Continues(script[used - 1])
        invariant receivedRecord && !old(receivedRecord) ==>
          used > 0 && script[used - 1].Received? && Signals(script[used - 1].wires, |script[used - 1].wires|)
        invariant Bytes(input, |input|) == old(Bytes(input, |input|)) + PlainAll(script, used)
        decreases |script| - used
      {
        if used == |script| {
          return Suspended, used;
        }
        var d := script[used];
        used := used + 1;
        if d.Failed? {
          return Error(d.code), used;
        }
        var eof, failed := Deliver(d.wires);
        Associative(old(Bytes(input, |input|)), PlainAll(script, used - 1), PlainOf(d.wires, |d.wires|));
        if failed {
          return Error(-1), used;
        }
        if eof {
          r := Got(input);
          receivedRecord := false;
          input := [];
          return;
        }
      }
      receivedRecord := false;
      r := Got(input);
      input := [];
    }
  }
}
