/** ITM packets in a raw SWO byte stream (appendix D4 of the ARMv7-M
    Architecture Reference Manual). */
module Itm {
  import opened Prelude
  import opened ByteArrays

  datatype SwoPacket = SwoPacket(port: nat, data: seq<Byte>)

  /** Past the zeros of a synchronisation packet. */
  function SkipZeros(data: seq<Byte>, i: nat): (j: nat)
    requires i <= |data|
    ensures i <= j <= |data|
    ensures forall k :: i <= k < j ==> data[k] == 0
    ensures j < |data| ==> data[j] != 0
    decreases |data| - i
  {
    if i < |data| && data[i] == 0 then SkipZeros(data, i + 1) else i
  }

  /** Past the bytes that say another follows. */
  function SkipContinued(data: seq<Byte>, i: nat): (j: nat)
    requires i <= |data|
    ensures i <= j <= |data|
    ensures forall k :: i <= k < j ==> data[k] >= 128
    ensures j < |data| ==> data[j] < 128
    decreases |data| - i
  {
    if i < |data| && data[i] >= 128 then SkipContinued(data, i + 1) else i
  }

  function AfterSync(data: seq<Byte>, i: nat): (j: nat)
    requires i < |data|
    ensures i < j <= |data|
  {
    var j := SkipZeros(data, i + 1);
    if j < |data| && data[j] == 0x80 then j + 1 else j
  }

  function AfterProtocol(data: seq<Byte>, i: nat): (j: nat)
    requires i < |data|
    ensures i < j <= |data|
  {
    if data[i] < 128 then i + 1
    else
      var j := SkipContinued(data, i + 1);
      if j < |data| then j + 1 else j
  }

  function PayloadLength(header: Byte): nat
    requires header % 4 != 0
  {
    if header % 4 == 1 then 1 else if header % 4 == 2 then 2 else 4
  }

  /** The stimulus packets from position i on. */
  function Decode(data: seq<Byte>, i: nat): seq<SwoPacket>
    requires i <= |data|
    decreases |data| - i
  {
    if i == |data| then []
    else
      var header := data[i];
      if header == 0 then Decode(data, AfterSync(data, i))
      else if header % 4 == 0 then Decode(data, AfterProtocol(data, i))
      else
        var next := i + 1 + PayloadLength(header);
        if next > |data| then []
        else (if header / 4 % 2 == 0 then [SwoPacket(header / 8, data[i + 1..next])] else []) + Decode(data, next)
  }

  /** Past a synchronisation packet: zeros, then the byte that ends them. */
  method SkipSync(data: seq<Byte>, at: nat) returns (i: nat)
    requires at < |data|
    ensures i == AfterSync(data, at)
  {
    i := at + 1;
    while i < |data| && data[i] == 0
      invariant at < i <= |data| && SkipZeros(data, i) == SkipZeros(data, at + 1)
    {
      i := i + 1;
    }
    if i < |data| && data[i] == 0x80 { i := i + 1; }
  }

  /** Past a protocol packet: its header and what the continuation bits say follows. */
  method SkipProtocol(data: seq<Byte>, at: nat) returns (i: nat)
    requires at < |data|
    ensures i == AfterProtocol(data, at)
  {
    i := at + 1;
    if data[at] >= 128 {
      while i < |data| && data[i] >= 128
        invariant at < i <= |data| && SkipContinued(data, i) == SkipContinued(data, at + 1)
      {
        i := i + 1;
      }
      if i < |data| { i := i + 1; }
    }
  }

  method DecodeItm(data: seq<Byte>) returns (packets: seq<SwoPacket>)
    ensures packets == Decode(data, 0)
  {
    hide SkipZeros, SkipContinued, AfterSync, AfterProtocol;
    packets := [];
    var i, n := 0, |data|;
    while i < n
      invariant 0 <= i <= n
      invariant packets + Decode(data, i) == Decode(data, 0)
    {
      var header := data[i];
      if header == 0 {
        i := SkipSync(data, i);
        continue;
      }
      var sizeBits := header % 4;
      if sizeBits == 0 {
        i := SkipProtocol(data, i);
        continue;
      }
      var payloadLen := if sizeBits == 1 then 1 else if sizeBits == 2 then 2 else 4;
      if i + 1 + payloadLen > n { break; }
      if header / 4 % 2 == 0 {
        var packet := SwoPacket(header / 8, data[i + 1..i + 1 + payloadLen]);
        Regroup(packets, [packet], Decode(data, i + 1 + payloadLen));
        packets := packets + [packet];
      }
      i := i + 1 + payloadLen;
    }
  }

  // ----- printing

  /** What a target can put on the wire. */
  datatype Item =
    | Stimulus(port: nat, payload: seq<Byte>)
    | Hardware(id: nat, payload: seq<Byte>)
    | Sync(zeros: nat)
    | Protocol(header: Byte, continued: seq<Byte>, last: Byte)

  predicate PayloadOk(payload: seq<Byte>) { |payload| == 1 || |payload| == 2 || |payload| == 4 }

  predicate Printable(item: Item) {
    match item
    case Stimulus(port, payload) => port < 32 && PayloadOk(payload)
    case Hardware(id, payload) => id < 32 && PayloadOk(payload)
    case Sync(zeros) => zeros > 0
    case Protocol(header, continued, last) =>
      header != 0 && header % 4 == 0 && last < 128 && forall k :: 0 <= k < |continued| ==> continued[k] >= 128
  }

  function SizeBits(n: nat): nat { if n == 1 then 1 else if n == 2 then 2 else 3 }

  function Zeros(n: nat): (r: seq<Byte>)
    ensures |r| == n && forall k :: 0 <= k < n ==> r[k] == 0
  {
    if n == 0 then [] else Zeros(n - 1) + [0]
  }

  function Print(item: Item): (r: seq<Byte>)
    requires Printable(item)
    ensures r != []
  {
    match item
    case Stimulus(port, payload) => [8 * port + SizeBits(|payload|)] + payload
    case Hardware(id, payload) => [8 * id + 4 + SizeBits(|payload|)] + payload
    case Sync(zeros) => Zeros(zeros) + [0x80]
    case Protocol(header, continued, last) => if header < 128 then [header] else [header] + continued + [last]
  }

  ghost predicate AllPrintable(items: seq<Item>) { forall i :: 0 <= i < |items| ==> Printable(items[i]) }

  function PrintAll(items: seq<Item>): seq<Byte>
    requires forall i :: 0 <= i < |items| ==> Printable(items[i])
  {
    if items == [] then [] else Print(items[0]) + PrintAll(items[1..])
  }

  function PacketOf(item: Item): seq<SwoPacket> {
    match item
    case Stimulus(port, payload) => [SwoPacket(port, payload)]
    case _ => []
  }

  function Stimuli(items: seq<Item>): seq<SwoPacket> {
    if items == [] then [] else PacketOf(items[0]) + Stimuli(items[1..])
  }

  lemma {:induction false} ZerosEnd(data: seq<Byte>, i: nat, j: nat)
    requires i <= j < |data| && data[j] != 0 && forall k :: i <= k < j ==> data[k] == 0
    ensures SkipZeros(data, i) == j
    decreases j - i
  {
    if i < j { ZerosEnd(data, i + 1, j); }
  }

  lemma {:induction false} ContinuedEnd(data: seq<Byte>, i: nat, j: nat)
    requires i <= j < |data| && data[j] < 128 && forall k :: i <= k < j ==> data[k] >= 128
    ensures SkipContinued(data, i) == j
    decreases j - i
  {
    if i < j { ContinuedEnd(data, i + 1, j); }
  }

  /** Where the packet at i ends, if it ends. */
  function Next(data: seq<Byte>, i: nat): (j: nat)
    requires i < |data|
    ensures i < j
  {
    if data[i] == 0 then AfterSync(data, i)
    else if data[i] % 4 == 0 then AfterProtocol(data, i)
    else i + 1 + PayloadLength(data[i])
  }

  /** What the packet at i yields. */
  function Yield(data: seq<Byte>, i: nat): seq<SwoPacket>
    requires i < |data| && Next(data, i) <= |data|
  {
    if data[i] % 4 != 0 && data[i] / 4 % 2 == 0 then [SwoPacket(data[i] / 8, data[i + 1..Next(data, i)])] else []
  }

  lemma DecodeStep(data: seq<Byte>, i: nat)
    requires i < |data|
    ensures Next(data, i) <= |data| ==> Decode(data, i) == Yield(data, i) + Decode(data, Next(data, i))
    ensures Next(data, i) > |data| ==> Decode(data, i) == []
  {
    hide SkipZeros, SkipContinued, AfterSync, AfterProtocol;
  }

  lemma DecodeEnd(data: seq<Byte>)
    ensures Decode(data, |data|) == []
  {
  }

  lemma PrintedAt(pre: seq<Byte>, printed: seq<Byte>, post: seq<Byte>, k: nat)
    requires k < |printed|
    ensures (pre + printed + post)[|pre| + k] == printed[k]
  {
  }

  /** A printed item is one packet to the decoder, and yields its own. */
  lemma PrintedPacket(pre: seq<Byte>, item: Item, post: seq<Byte>)
    requires Printable(item)
    ensures var data := pre + Print(item) + post;
            && Next(data, |pre|) == |pre| + |Print(item)|
            && Yield(data, |pre|) == PacketOf(item)
  {
    var printed := Print(item);
    var data := pre + printed + post;
    PrintedAt(pre, printed, post, 0);
    match item
    case Stimulus(port, payload) => SourcePacket(pre, printed[0], payload, post);
    case Hardware(id, payload) => SourcePacket(pre, printed[0], payload, post);
    case Sync(zeros) => SyncPacket(pre, zeros, post);
    case Protocol(header, continued, last) =>
      if header >= 128 { ProtocolPacket(pre, header, continued, last, post); }
  }

  lemma SourcePacket(pre: seq<Byte>, header: Byte, payload: seq<Byte>, post: seq<Byte>)
    requires PayloadOk(payload) && header % 4 == SizeBits(|payload|)
    ensures var data := pre + ([header] + payload) + post;
            && data[|pre|] == header
            && Next(data, |pre|) == |pre| + 1 + |payload|
            && Yield(data, |pre|) == if header / 4 % 2 == 0 then [SwoPacket(header / 8, payload)] else []
  {
    var data := pre + ([header] + payload) + post;
    PrintedAt(pre, [header] + payload, post, 0);
    assert data[|pre| + 1..|pre| + 1 + |payload|] == payload;
  }

  lemma SyncPacket(pre: seq<Byte>, zeros: nat, post: seq<Byte>)
    requires zeros > 0
    ensures var data := pre + (Zeros(zeros) + [0x80]) + post;
            data[|pre|] == 0 && AfterSync(data, |pre|) == |pre| + zeros + 1
  {
    var printed: seq<Byte> := Zeros(zeros) + [0x80];
    var data := pre + printed + post;
    PrintedAt(pre, printed, post, 0);
    PrintedAt(pre, printed, post, zeros);
    forall k | |pre| + 1 <= k < |pre| + zeros ensures data[k] == 0 { PrintedAt(pre, printed, post, k - |pre|); }
    ZerosEnd(data, |pre| + 1, |pre| + zeros);
  }

  lemma ProtocolPacket(pre: seq<Byte>, header: Byte, continued: seq<Byte>, last: Byte, post: seq<Byte>)
    requires header >= 128 && last < 128 && forall k :: 0 <= k < |continued| ==> continued[k] >= 128
    ensures var data := pre + ([header] + continued + [last]) + post;
            data[|pre|] == header && AfterProtocol(data, |pre|) == |pre| + |continued| + 2
  {
    var printed := [header] + continued + [last];
    var data, end := pre + printed + post, |pre| + 1 + |continued|;
    PrintedAt(pre, printed, post, 0);
    PrintedAt(pre, printed, post, 1 + |continued|);
    forall k | |pre| + 1 <= k < end ensures data[k] >= 128 {
      PrintedAt(pre, printed, post, k - |pre|);
      assert printed[k - |pre|] == continued[k - |pre| - 1];
    }
    ContinuedEnd(data, |pre| + 1, end);
  }

  lemma {:induction false} DecodeFrom(pre: seq<Byte>, items: seq<Item>)
    requires AllPrintable(items)
    ensures Decode(pre + PrintAll(items), |pre|) == Stimuli(items)
    decreases |items|
  {
    hide Decode, Print, Next, Yield;
    if items == [] {
      DecodeEnd(pre + []);
      assert pre + [] == pre;
    } else {
      var printed, rest := Print(items[0]), PrintAll(items[1..]);
      var data := pre + PrintAll(items);
      assert data == pre + printed + rest && data == (pre + printed) + rest;
      PrintedPacket(pre, items[0], rest);
      DecodeStep(data, |pre|);
      DecodeFrom(pre + printed, items[1..]);
    }
  }

  /** Decoding what was printed gives exactly the stimulus packets, in order,
      whatever synchronisation, protocol and hardware packets lie between. */
  lemma PrintedDecodes(items: seq<Item>)
    requires AllPrintable(items)
    ensures Decode(PrintAll(items), 0) == Stimuli(items)
  {
    DecodeFrom([], items);
    assert [] + PrintAll(items) == PrintAll(items);
  }

  // ----- prefixes

  lemma {:induction false} ZerosCut(data: seq<Byte>, n: nat, i: nat)
    requires i <= n <= |data|
    ensures SkipZeros(data[..n], i) == Min(SkipZeros(data, i), n)
    decreases n - i
  {
    if i < n && data[i] == 0 { ZerosCut(data, n, i + 1); }
  }

  lemma {:induction false} ContinuedCut(data: seq<Byte>, n: nat, i: nat)
    requires i <= n <= |data|
    ensures SkipContinued(data[..n], i) == Min(SkipContinued(data, i), n)
    decreases n - i
  {
    if i < n && data[i] >= 128 { ContinuedCut(data, n, i + 1); }
  }

  /** A packet that skips bytes ends at the same place in a prefix, or at its end. */
  lemma SkipsCut(data: seq<Byte>, n: nat, i: nat)
    requires i < n <= |data|
    ensures AfterSync(data[..n], i) == AfterSync(data, i) || AfterSync(data[..n], i) == n
    ensures AfterProtocol(data[..n], i) == AfterProtocol(data, i) || AfterProtocol(data[..n], i) == n
  {
    ZerosCut(data, n, i + 1);
    ContinuedCut(data, n, i + 1);
  }

  /** The same packet, ending at the same place or cut off by the end. */
  lemma StepCut(data: seq<Byte>, n: nat, i: nat)
    requires i < n <= |data|
    ensures Next(data[..n], i) == Next(data, i) || (Next(data[..n], i) >= n && data[i] % 4 == 0)
    ensures Next(data[..n], i) > n ==> data[i] % 4 != 0
    ensures Next(data, i) <= n ==> Yield(data[..n], i) == Yield(data, i)
  {
    SkipsCut(data, n, i);
    if Next(data, i) <= n { assert data[..n][i + 1..Next(data, i)] == data[i + 1..Next(data, i)]; }
  }

  /** Whatever the bytes, decoding a prefix gives a prefix of the packets. */
  lemma {:induction false} PrefixDecodes(data: seq<Byte>, n: nat, i: nat)
    requires i <= n <= |data|
    ensures Decode(data[..n], i) <= Decode(data, i)
    decreases n - i
  {
    if i < n {
      DecodeStep(data, i);
      DecodeStep(data[..n], i);
      StepCut(data, n, i);
      hide Decode, Next, Yield;
      if Next(data, i) <= n { PrefixDecodes(data, n, Next(data, i)); }
    }
  }
}
