/** A byte cursor and its variable-length numbers (section 7.6 of DWARF 5). */
module Leb128 {
  import opened Prelude
  import opened ByteArrays

  datatype Fault = IndexError | ValueError | TypeError | ZeroDivisionError

  // ----- the numbers a position holds

  /** A decoded number and the offset after it; running off the end is a fault. */
  function UlebAt(data: seq<Byte>, offset: nat): (r: Result<(nat, nat), Fault>)
    ensures r.Ok? ==> offset < r.value.1 <= |data|
    decreases |data| - offset
  {
    if offset >= |data| then Err(IndexError)
    else if data[offset] < 128 then Ok((data[offset], offset + 1))
    else
      match UlebAt(data, offset + 1)
      case Err(e) => Err(e)
      case Ok((rest, next)) => Ok((data[offset] % 128 + 128 * rest, next))
  }

  function SlebAt(data: seq<Byte>, offset: nat): (r: Result<(int, nat), Fault>)
    ensures r.Ok? ==> offset < r.value.1 <= |data|
    decreases |data| - offset
  {
    if offset >= |data| then Err(IndexError)
    else if data[offset] < 64 then Ok((data[offset], offset + 1))
    else if data[offset] < 128 then
      var byte: int := data[offset];
      Ok((byte - 128, offset + 1))
    else
      match SlebAt(data, offset + 1)
      case Err(e) => Err(e)
      case Ok((rest, next)) => Ok((data[offset] % 128 + 128 * rest, next))
  }

  /** Running off the end is the only fault a number has. */
  lemma {:induction false} LebFaults(data: seq<Byte>, offset: nat)
    ensures UlebAt(data, offset).Err? ==> UlebAt(data, offset) == Err(IndexError)
    ensures SlebAt(data, offset).Err? ==> SlebAt(data, offset) == Err(IndexError)
    decreases |data| - offset
  {
    if offset < |data| { LebFaults(data, offset + 1); }
  }

  // ----- bits, as the reader's loop handles them

  function Pow2(n: nat): (r: nat)
    ensures r > 0
  {
    if n == 0 then 1 else 2 * Pow2(n - 1)
  }

  function BitOr(a: nat, b: nat): nat
    decreases a + b
  {
    if a == 0 && b == 0 then 0 else (if a % 2 == 1 || b % 2 == 1 then 1 else 0) + 2 * BitOr(a / 2, b / 2)
  }

  /** Bits above a number are or-ed in as if added. */
  lemma {:induction false} OrAbove(a: nat, x: nat, shift: nat)
    requires a < Pow2(shift)
    ensures BitOr(a, x * Pow2(shift)) == a + x * Pow2(shift)
    decreases shift
  {
    if shift == 0 {
      OrZero(x);
    } else {
      var half := Pow2(shift - 1);
      assert x * Pow2(shift) == 2 * (x * half);
      OrAbove(a / 2, x, shift - 1);
    }
  }

  lemma {:induction false} OrZero(b: nat)
    ensures BitOr(0, b) == b
    decreases b
  {
    if b > 0 { OrZero(b / 2); }
  }

  lemma Pow2Seven(n: nat)
    ensures Pow2(n + 7) == 128 * Pow2(n)
  {
    assert Pow2(n + 4) == 16 * Pow2(n) by {
      assert Pow2(n + 2) == 4 * Pow2(n) by { assert Pow2(n + 1) == 2 * Pow2(n); }
      assert Pow2(n + 3) == 2 * Pow2(n + 2);
    }
    assert Pow2(n + 6) == 2 * Pow2(n + 5) == 4 * Pow2(n + 4);
  }

  // ----- the reader

  class Reader {
    const data: seq<Byte>
    var offset: nat

    constructor (data: seq<Byte>, offset: nat)
      ensures this.data == data && this.offset == offset
    {
      this.data, this.offset := data, offset;
    }

    method U8() returns (r: Result<nat, Fault>)
      modifies this
      ensures old(offset) >= |data| ==> r == Err(IndexError) && offset == old(offset)
      ensures old(offset) < |data| ==> r == Ok(data[old(offset)]) && offset == old(offset) + 1
    {
      if offset >= |data| { return Err(IndexError); }
      r := Ok(data[offset]);
      offset := offset + 1;
    }

    /** The loop agrees with the number held at the offset it started from. */
    method Uleb() returns (r: Result<nat, Fault>)
      modifies this
      ensures match UlebAt(data, old(offset))
              case Ok((value, next)) => r == Ok(value) && offset == next
              case Err(e) => r == Err(e)
    {
      hide BitOr, Pow2, UlebAt, Continues;
      var result: nat, shift: nat := 0, 0;
      ghost var start := offset;
      ghost var goal := UlebAt(data, start);
      UlebStart(data, start);
      while true
        invariant result < Pow2(shift) && start <= offset
        invariant Continues(UlebAt(data, offset), result, shift, goal)
        decreases |data| - offset
      {
        if offset >= |data| {
          UlebEnd(data, offset, result, shift, goal);
          return Err(IndexError);
        }
        var byte := data[offset];
        OrAbove(result, byte % 128, shift);
        UlebStep(data, offset, result, shift, goal);
        offset := offset + 1;
        result := BitOr(result, byte % 128 * Pow2(shift));
        if byte < 128 { return Ok(result); }
        shift := shift + 7;
      }
    }

    method Sleb() returns (r: Result<int, Fault>)
      modifies this
      ensures match SlebAt(data, old(offset))
              case Ok((value, next)) => r == Ok(value) && offset == next
              case Err(e) => r == Err(e)
    {
      hide BitOr, Pow2, SlebAt, ContinuesSigned;
      var result: nat, shift: nat := 0, 0;
      ghost var start := offset;
      ghost var goal := SlebAt(data, start);
      SlebStart(data, start);
      while true
        invariant result < Pow2(shift) && start <= offset
        invariant ContinuesSigned(SlebAt(data, offset), result, shift, goal)
        decreases |data| - offset
      {
        if offset >= |data| {
          SlebEnd(data, offset, result, shift, goal);
          return Err(IndexError);
        }
        var byte := data[offset];
        OrAbove(result, byte % 128, shift);
        SlebStep(data, offset, result, shift, goal);
        offset := offset + 1;
        result := BitOr(result, byte % 128 * Pow2(shift));
        shift := shift + 7;
        if byte < 128 {
          if byte >= 64 { return Ok(result - Pow2(shift)); }
          return Ok(result);
        }
      }
    }
  }

  /** What is left to read, above the bits read so far, is the goal. */
  ghost predicate Continues(rest: Result<(nat, nat), Fault>, result: nat, shift: nat, goal: Result<(nat, nat), Fault>) {
    match rest
    case Err(e) => goal == Err(e)
    case Ok((value, next)) => goal == Ok((result + value * Pow2(shift), next))
  }

  ghost predicate ContinuesSigned(rest: Result<(int, nat), Fault>, result: nat, shift: nat,
                                  goal: Result<(int, nat), Fault>)
  {
    match rest
    case Err(e) => goal == Err(e)
    case Ok((value, next)) => goal == Ok((result + value * Pow2(shift), next))
  }

  lemma UlebStart(data: seq<Byte>, start: nat)
    ensures 0 < Pow2(0) && Continues(UlebAt(data, start), 0, 0, UlebAt(data, start))
  {
  }

  lemma UlebEnd(data: seq<Byte>, offset: nat, result: nat, shift: nat, goal: Result<(nat, nat), Fault>)
    requires offset >= |data| && Continues(UlebAt(data, offset), result, shift, goal)
    ensures goal == Err(IndexError)
  {
  }

  lemma SlebStart(data: seq<Byte>, start: nat)
    ensures 0 < Pow2(0) && ContinuesSigned(SlebAt(data, start), 0, 0, SlebAt(data, start))
  {
  }

  lemma SlebEnd(data: seq<Byte>, offset: nat, result: nat, shift: nat, goal: Result<(int, nat), Fault>)
    requires offset >= |data| && ContinuesSigned(SlebAt(data, offset), result, shift, goal)
    ensures goal == Err(IndexError)
  {
  }

  lemma SevenMore(result: nat, shift: nat, low: nat)
    requires result < Pow2(shift) && low < 128
    ensures result + low * Pow2(shift) < Pow2(shift + 7)
  {
    Pow2Seven(shift);
    assert low * Pow2(shift) <= 127 * Pow2(shift);
  }

  lemma UlebStep(data: seq<Byte>, offset: nat, result: nat, shift: nat, goal: Result<(nat, nat), Fault>)
    requires offset < |data| && result < Pow2(shift) && Continues(UlebAt(data, offset), result, shift, goal)
    ensures var more := result + data[offset] % 128 * Pow2(shift);
            && more < Pow2(shift + 7)
            && (data[offset] < 128 ==> goal == Ok((more, offset + 1)))
            && (data[offset] >= 128 ==> Continues(UlebAt(data, offset + 1), more, shift + 7, goal))
  {
    SevenMore(result, shift, data[offset] % 128);
    Pow2Seven(shift);
    if data[offset] >= 128 && UlebAt(data, offset + 1).Ok? {
      var rest := UlebAt(data, offset + 1).value.0;
      Distribute(data[offset] % 128, rest, Pow2(shift));
    }
  }

  lemma Distribute(low: int, rest: int, p: int)
    ensures (low + 128 * rest) * p == low * p + rest * (128 * p)
  {
    assert (128 * rest) * p == rest * (128 * p);
  }

  lemma SlebStep(data: seq<Byte>, offset: nat, result: nat, shift: nat, goal: Result<(int, nat), Fault>)
    requires offset < |data| && result < Pow2(shift) && ContinuesSigned(SlebAt(data, offset), result, shift, goal)
    ensures var more := result + data[offset] % 128 * Pow2(shift);
            && more < Pow2(shift + 7)
            && (data[offset] < 64 ==> goal == Ok((more, offset + 1)))
            && (64 <= data[offset] < 128 ==> goal == Ok((more - Pow2(shift + 7), offset + 1)))
            && (data[offset] >= 128 ==> ContinuesSigned(SlebAt(data, offset + 1), more, shift + 7, goal))
  {
    SevenMore(result, shift, data[offset] % 128);
    Pow2Seven(shift);
    if data[offset] >= 128 {
      if SlebAt(data, offset + 1).Ok? {
        Distribute(data[offset] % 128, SlebAt(data, offset + 1).value.0, Pow2(shift));
      }
    } else {
      Distribute(data[offset], -1, Pow2(shift));
    }
  }

  // ----- the standard encodings

  function EncodeUleb(n: nat): (r: seq<Byte>)
    ensures r != []
  {
    if n < 128 then [n] else [n % 128 + 128] + EncodeUleb(n / 128)
  }

  /** Stop when what is left is only copies of the sign bit just written. */
  function EncodeSleb(z: int): (r: seq<Byte>)
    ensures r != []
    decreases if z >= 0 then z else -z
  {
    if -64 <= z < 64 then [z % 128] else [z % 128 + 128] + EncodeSleb(z / 128)
  }

  /** Reading an encoded number gives it back and consumes exactly its bytes,
      whatever surrounds them. */
  lemma {:induction false} UlebRoundTrip(pre: seq<Byte>, n: nat, post: seq<Byte>)
    ensures UlebAt(pre + EncodeUleb(n) + post, |pre|) == Ok((n, |pre| + |EncodeUleb(n)|))
    decreases n
  {
    var data := pre + EncodeUleb(n) + post;
    if n < 128 {
      assert data[|pre|] == n;
    } else {
      var first: Byte := n % 128 + 128;
      assert data == (pre + [first]) + EncodeUleb(n / 128) + post;
      UlebRoundTrip(pre + [first], n / 128, post);
      assert data[|pre|] == first;
    }
  }

  lemma {:induction false} SlebRoundTrip(pre: seq<Byte>, z: int, post: seq<Byte>)
    ensures SlebAt(pre + EncodeSleb(z) + post, |pre|) == Ok((z, |pre| + |EncodeSleb(z)|))
    decreases if z >= 0 then z else -z
  {
    var data := pre + EncodeSleb(z) + post;
    if -64 <= z < 64 {
      assert data[|pre|] == z % 128;
    } else {
      var first: Byte := z % 128 + 128;
      assert data == (pre + [first]) + EncodeSleb(z / 128) + post;
      SlebRoundTrip(pre + [first], z / 128, post);
      assert data[|pre|] == first;
    }
  }
}
