/** Arrays of fixed-width unsigned words as bytes, in either byte order. */
module ByteArrays {
  import opened Prelude
  import Arithmetic

  type Byte = x: nat | x < 256

  function Limit(width: nat): (r: nat)
    ensures r > 0
  {
    if width == 0 then 1 else 256 * Limit(width - 1)
  }

  /** Least significant byte first. */
  function Word(x: nat, width: nat): (r: seq<Byte>)
    ensures |r| == width
  {
    if width == 0 then [] else [x % 256] + Word(x / 256, width - 1)
  }

  function Value(bytes: seq<Byte>): nat {
    if bytes == [] then 0 else bytes[0] + 256 * Value(bytes[1..])
  }

  lemma {:induction false} ValueOfWord(x: nat, width: nat)
    requires x < Limit(width)
    ensures Value(Word(x, width)) == x
  {
    if width > 0 { ValueOfWord(x / 256, width - 1); }
  }

  lemma {:induction false} WordOfValue(bytes: seq<Byte>)
    ensures Value(bytes) < Limit(|bytes|) && Word(Value(bytes), |bytes|) == bytes
  {
    if bytes != [] {
      WordOfValue(bytes[1..]);
      var rest := Value(bytes[1..]);
      assert (bytes[0] + 256 * rest) % 256 == bytes[0] && (bytes[0] + 256 * rest) / 256 == rest;
      assert [bytes[0]] + bytes[1..] == bytes;
    }
  }

  /** One word as a machine of either byte order holds it. */
  function Stored(x: nat, width: nat, little: bool): (r: seq<Byte>)
    ensures |r| == width
  {
    if little then Word(x, width) else Reverse(Word(x, width))
  }

  function Fetched(bytes: seq<Byte>, little: bool): nat {
    if little then Value(bytes) else Value(Reverse(bytes))
  }

  function Swapped(x: nat, width: nat): nat { Value(Reverse(Word(x, width))) }

  lemma FetchStored(x: nat, width: nat, little: bool)
    requires x < Limit(width)
    ensures Fetched(Stored(x, width, little), little) == x
  {
    ValueOfWord(x, width);
    ReverseTwice(Word(x, width));
  }

  /** Reading with the wrong byte order and swapping is reading with the right one. */
  lemma SwapFetched(bytes: seq<Byte>, little: bool)
    ensures Swapped(Fetched(bytes, little), |bytes|) == Fetched(bytes, !little)
  {
    WordOfValue(bytes);
    WordOfValue(Reverse(bytes));
    ReverseTwice(bytes);
  }

  /** Up to count bytes from a position; fewer, or none, past the end. */
  function UpTo(xs: seq<Byte>, from: nat, count: nat): seq<Byte> {
    var start := Min(from, |xs|);
    xs[start..Min(start + count, |xs|)]
  }

  // ----- arrays

  function ToBytes(xs: seq<nat>, width: nat, little: bool): (r: seq<Byte>)
    ensures |r| == |xs| * width
  {
    if xs == [] then []
    else
      assert width + (|xs| - 1) * width == |xs| * width;
      Stored(xs[0], width, little) + ToBytes(xs[1..], width, little)
  }

  /** None where the bytes are not a whole number of words. */
  function FromBytes(bytes: seq<Byte>, width: nat, little: bool): (r: Option<seq<nat>>)
    requires width > 0
    decreases |bytes|
  {
    if bytes == [] then Some([])
    else if |bytes| < width then None
    else
      match FromBytes(bytes[width..], width, little)
      case None => None
      case Some(rest) => Some([Fetched(bytes[..width], little)] + rest)
  }

  function ByteSwap(xs: seq<nat>, width: nat): (r: seq<nat>)
    ensures |r| == |xs|
  {
    if xs == [] then [] else [Swapped(xs[0], width)] + ByteSwap(xs[1..], width)
  }

  ghost predicate AllBelow(xs: seq<nat>, limit: nat) { forall i :: 0 <= i < |xs| ==> xs[i] < limit }

  lemma NoWords(width: nat, writer: bool, reader: bool)
    requires width > 0
    ensures ToBytes([], width, writer) == [] && FromBytes([], width, reader) == Some([]) && ByteSwap([], width) == []
  {
  }

  lemma FirstWord(xs: seq<nat>, width: nat, little: bool)
    requires xs != []
    ensures ToBytes(xs, width, little) == Stored(xs[0], width, little) + ToBytes(xs[1..], width, little)
  {
  }

  lemma FirstFetched(first: seq<Byte>, rest: seq<Byte>, width: nat, little: bool)
    requires |first| == width > 0 && FromBytes(rest, width, little).Some?
    ensures FromBytes(first + rest, width, little)
            == Some([Fetched(first, little)] + FromBytes(rest, width, little).value)
  {
    hide Fetched;
    assert (first + rest)[..width] == first && (first + rest)[width..] == rest;
  }

  lemma FirstSwapped(x: nat, xs: seq<nat>, width: nat)
    ensures ByteSwap([x] + xs, width) == [Swapped(x, width)] + ByteSwap(xs, width)
  {
    hide Swapped;
    assert ([x] + xs)[1..] == xs;
  }

  /** An array comes back from its bytes on a machine of either byte order, with
      a swap exactly when the orders differ. */
  lemma {:induction false} ArrayRoundTrip(xs: seq<nat>, width: nat, writer: bool, reader: bool)
    requires width > 0 && AllBelow(xs, Limit(width))
    ensures FromBytes(ToBytes(xs, width, writer), width, reader).Some?
    ensures var back := FromBytes(ToBytes(xs, width, writer), width, reader).value;
            (if writer != reader then ByteSwap(back, width) else back) == xs
  {
    hide Stored, Fetched, Swapped, ToBytes, FromBytes, ByteSwap, Limit;
    var bytes := ToBytes(xs, width, writer);
    if xs == [] {
      NoWords(width, writer, reader);
    } else {
      var first, rest := Stored(xs[0], width, writer), ToBytes(xs[1..], width, writer);
      ArrayRoundTrip(xs[1..], width, writer, reader);
      FirstWord(xs, width, writer);
      FirstFetched(first, rest, width, reader);
      FetchStored(xs[0], width, writer);
      SwapFetched(first, reader);
      var back := FromBytes(rest, width, reader).value;
      FirstSwapped(Fetched(first, reader), back, width);
      assert [xs[0]] + xs[1..] == xs;
    }
  }

  // ----- the bytes themselves

  function Power256(k: nat): nat { if k == 0 then 1 else 256 * Power256(k - 1) }

  lemma {:induction false} WordByte(x: nat, width: nat, k: nat)
    requires k < width
    ensures Power256(k) > 0 && Word(x, width)[k] == (x / Power256(k)) % 256
  {
    if k > 0 {
      WordByte(x / 256, width - 1, k - 1);
      ShiftedTwice(x, Power256(k - 1));
    }
  }

  lemma ShiftedTwice(x: nat, d: nat)
    requires d > 0
    ensures (x / 256) / d == x / (256 * d)
  {
    var (a, r) := (x / 256, x % 256);
    var (q, s) := (a / d, a % d);
    assert x == q * (256 * d) + (256 * s + r) by { assert a == d * q + s; assert 256 * (d * q) == q * (256 * d); }
    assert 0 <= 256 * s + r < 256 * d by { assert s + 1 <= d; }
    Arithmetic.QuotientIs(x, q, 256 * s + r, 256 * d);
  }

  /** Byte k of a stored word is its k-th from the low end, or from the high end. */
  lemma StoredByte(x: nat, width: nat, little: bool, k: nat)
    requires k < width
    ensures var place := if little then k else width - 1 - k;
            Power256(place) > 0 && Stored(x, width, little)[k] == (x / Power256(place)) % 256
  {
    WordByte(x, width, if little then k else width - 1 - k);
  }

  lemma UpToParts(first: seq<Byte>, rest: seq<Byte>, k: nat, n: nat)
    ensures UpTo(first + rest, |first| + k, n) == UpTo(rest, k, n)
    ensures UpTo(first + rest, 0, |first|) == first
  {
  }

  /** Word i of an array lies at i times the width. */
  lemma {:induction false} WordAt(xs: seq<nat>, width: nat, little: bool, i: nat)
    requires i < |xs|
    ensures UpTo(ToBytes(xs, width, little), i * width, width) == Stored(xs[i], width, little)
  {
    hide *;
    FirstWord(xs, width, little);
    var first, rest := Stored(xs[0], width, little), ToBytes(xs[1..], width, little);
    if i == 0 {
      assert i * width == 0;
      UpToParts(first, rest, 0, width);
    } else {
      WordAt(xs[1..], width, little, i - 1);
      assert i * width == width + (i - 1) * width;
      assert (i - 1) * width >= 0;
      UpToParts(first, rest, (i - 1) * width, width);
    }
  }

  /** Bytes make an array exactly if they are a whole number of words. */
  lemma {:induction false} WholeWords(bytes: seq<Byte>, width: nat, little: bool)
    requires width > 0
    ensures FromBytes(bytes, width, little).Some? <==> exists n: nat :: n * width == |bytes|
    decreases |bytes|
  {
    hide Fetched;
    if bytes == [] {
      assert 0 * width == |bytes|;
    } else if |bytes| < width {
      forall n: nat ensures n * width != |bytes| { if n > 0 { assert (n - 1) * width >= 0; assert n * width
          == width + (n - 1) * width; } }
    } else {
      WholeWords(bytes[width..], width, little);
      if n: nat :| n * width == |bytes[width..]| { assert (n + 1) * width == |bytes|; }
      if n: nat :| n * width == |bytes| { assert (n - 1) * width == |bytes[width..]|; }
    }
  }
}
