/**
  The `PacketByteBuf` primitives the mod-list parser reads with. `PacketByteBuf`
  itself is not part of this model: its readers are stated here as assumptions,
  following Minecraft's VarInt and length-prefixed string formats, and they
  return `None` where the real readers throw.
 */
module Wire {
  import opened Wrappers

  newtype byte = b: int | 0 <= b < 256

  /** `Short.MAX_VALUE`, the limit every `readString` call of the parser passes. */
  const MaxStringLength: nat := 32767

  /** A VarInt is at most five 7-bit groups long. */
  const VarIntMaxBytes: nat := 5

  const TwoTo31: int := 0x8000_0000
  const TwoTo32: int := 0x1_0000_0000

  function Pow128(k: nat): (p: nat)
    ensures p >= 1
  {
    if k == 0 then 1 else 128 * Pow128(k - 1)
  }

  /**
    The 7-bit groups of a VarInt from `pos` on, `k` being the index of the group
    at `pos`: the unsigned value they spell and the position after the last one.
    A group with its high bit set announces another group; a fifth group that does
    so makes the VarInt too big.
   */
  function VarIntGroups(data: seq<byte>, pos: nat, k: nat): (r: Option<(int, nat)>)
    requires k < VarIntMaxBytes
    ensures r.Some? ==> pos < r.value.1 <= |data| && r.value.1 - pos <= VarIntMaxBytes - k
    decreases VarIntMaxBytes - k
  {
    if pos >= |data| then None
    else
      var b := data[pos] as int;
      if b < 128 then Some((b, pos + 1))
      else if k == VarIntMaxBytes - 1 then None
      else
        match VarIntGroups(data, pos + 1, k + 1)
        case None => None
        case Some((rest, next)) => Some((b - 128 + 128 * rest, next))
  }

  /** A Java `int` built by shifting groups in: bits from the 33rd on are lost, bit 32 is the sign. */
  function ToInt32(u: int): (r: int)
    ensures -TwoTo31 <= r < TwoTo31
    ensures (r - u) % TwoTo32 == 0
    ensures 0 <= u < TwoTo31 ==> r == u
  {
    var w := u % TwoTo32;
    if w < TwoTo31 then w else w - TwoTo32
  }

  /** `readVarInt` at `pos`: the value and the position after it, or `None` where it throws. */
  function ReadVarIntAt(data: seq<byte>, pos: nat): (r: Option<(int, nat)>)
    ensures r.Some? ==> pos < r.value.1 <= |data| && r.value.1 - pos <= VarIntMaxBytes
    ensures r.Some? ==> -TwoTo31 <= r.value.0 < TwoTo31
  {
    match VarIntGroups(data, pos, 0)
    case None => None
    case Some((u, next)) => Some((ToInt32(u), next))
  }

  /** The bytes of a string, one char per byte (no UTF-8 decoding). */
  function DecodeChars(bytes: seq<byte>): (s: string)
    ensures |s| == |bytes|
  {
    seq(|bytes|, i requires 0 <= i < |bytes| => bytes[i] as int as char)
  }

  /**
    `readString(maxLength)` at `pos`: a VarInt byte length, refused when above the
    UTF-8 bound `3 * maxLength`, negative or beyond the readable bytes; then the
    decoded string, refused when longer than `maxLength` chars.
   */
  function ReadStringAt(data: seq<byte>, pos: nat, maxLength: nat): (r: Option<(string, nat)>)
    ensures r.Some? ==> pos < r.value.1 <= |data|
    ensures r.Some? ==> |r.value.0| <= maxLength
  {
    match ReadVarIntAt(data, pos)
    case None => None
    case Some((length, start)) =>
      if length > 3 * maxLength then None
      else if length < 0 then None
      else if length > |data| - start then None
      else
        var s := DecodeChars(data[start..start + length]);
        if |s| > maxLength then None else Some((s, start + length))
  }

  /** `writeVarInt` for a non-negative value: low group first, high bit set on all but the last. */
  function WriteVarInt(n: nat): (bytes: seq<byte>)
    ensures 1 <= |bytes|
    decreases n
  {
    if n < 128 then [n as byte] else [(n % 128 + 128) as byte] + WriteVarInt(n / 128)
  }

  predicate IsByteChars(s: string) {
    forall i :: 0 <= i < |s| ==> s[i] as int < 256
  }

  function EncodeChars(s: string): (bytes: seq<byte>)
    requires IsByteChars(s)
    ensures |bytes| == |s|
  {
    seq(|s|, i requires 0 <= i < |s| => s[i] as int as byte)
  }

  /** A string `readString` accepts and `WriteString` can write. */
  predicate IsWritable(s: string) {
    |s| <= MaxStringLength && IsByteChars(s)
  }

  /** `writeString`: the byte length as a VarInt, then the bytes. */
  function WriteString(s: string): (bytes: seq<byte>)
    requires IsWritable(s)
  {
    WriteVarInt(|s|) + EncodeChars(s)
  }

  /** `data` holds `bytes` starting at `pos`. */
  predicate HoldsAt(data: seq<byte>, pos: nat, bytes: seq<byte>) {
    pos + |bytes| <= |data| && forall k :: 0 <= k < |bytes| ==> data[pos + k] == bytes[k]
  }

  /** Bytes held at `pos` split into their two parts. */
  lemma HoldsAtSplit(data: seq<byte>, pos: nat, a: seq<byte>, b: seq<byte>)
    requires HoldsAt(data, pos, a + b)
    ensures HoldsAt(data, pos, a) && HoldsAt(data, pos + |a|, b)
  {
    forall k | 0 <= k < |a|
      ensures data[pos + k] == a[k]
    {
      assert (a + b)[k] == a[k];
    }
    forall k | 0 <= k < |b|
      ensures data[pos + |a| + k] == b[k]
    {
      assert (a + b)[|a| + k] == b[k];
    }
  }

  lemma {:induction false} GroupsRoundTrip(data: seq<byte>, pos: nat, n: nat, k: nat)
    requires k < VarIntMaxBytes && n < Pow128(VarIntMaxBytes - k)
    requires HoldsAt(data, pos, WriteVarInt(n))
    ensures VarIntGroups(data, pos, k) == Some((n, pos + |WriteVarInt(n)|))
    decreases n
  {
    var enc := WriteVarInt(n);
    assert data[pos + 0] == enc[0];
    if n >= 128 {
      assert Pow128(1) == 128;
      assert k < VarIntMaxBytes - 1;
      var m := n / 128;
      assert m < Pow128(VarIntMaxBytes - k - 1);
      var tail := WriteVarInt(m);
      assert enc == [enc[0]] + tail;
      HoldsAtSplit(data, pos, [enc[0]], tail);
      GroupsRoundTrip(data, pos + 1, m, k + 1);
      assert data[pos] as int - 128 + 128 * m == n;
    }
  }

  /** `readVarInt` reads back what `writeVarInt` wrote, for every non-negative `int`. */
  lemma VarIntRoundTrip(data: seq<byte>, pos: nat, n: nat)
    requires n < TwoTo31
    requires HoldsAt(data, pos, WriteVarInt(n))
    ensures ReadVarIntAt(data, pos) == Some((n, pos + |WriteVarInt(n)|))
  {
    assert Pow128(5) == 34359738368 by {
      assert Pow128(1) == 128;
      assert Pow128(2) == 16384;
      assert Pow128(3) == 2097152;
      assert Pow128(4) == 268435456;
    }
    GroupsRoundTrip(data, pos, n, 0);
  }

  /** A VarInt written in front of other bytes is read back, and the reader stops where those bytes start. */
  lemma VarIntThen(data: seq<byte>, pos: nat, n: nat, rest: seq<byte>) returns (after: nat)
    requires n < TwoTo31
    requires HoldsAt(data, pos, WriteVarInt(n) + rest)
    ensures after == pos + |WriteVarInt(n)|
    ensures ReadVarIntAt(data, pos) == Some((n, after))
    ensures HoldsAt(data, after, rest)
  {
    after := pos + |WriteVarInt(n)|;
    HoldsAtSplit(data, pos, WriteVarInt(n), rest);
    VarIntRoundTrip(data, pos, n);
  }

  /** Two VarInts in a row, then anything. */
  lemma TwoVarIntsThen(data: seq<byte>, pos: nat, a: nat, b: nat, rest: seq<byte>) returns (mid: nat, after: nat)
    requires a < TwoTo31 && b < TwoTo31
    requires HoldsAt(data, pos, WriteVarInt(a) + (WriteVarInt(b) + rest))
    ensures ReadVarIntAt(data, pos) == Some((a, mid))
    ensures ReadVarIntAt(data, mid) == Some((b, after))
    ensures HoldsAt(data, after, rest)
    ensures mid == pos + |WriteVarInt(a)| && after == mid + |WriteVarInt(b)|
  {
    mid := VarIntThen(data, pos, a, WriteVarInt(b) + rest);
    after := VarIntThen(data, mid, b, rest);
  }

  /** `readString(32767)` reads back what `writeString` wrote. */
  lemma StringRoundTrip(data: seq<byte>, pos: nat, s: string)
    requires IsWritable(s)
    requires HoldsAt(data, pos, WriteString(s))
    ensures ReadStringAt(data, pos, MaxStringLength) == Some((s, pos + |WriteString(s)|))
  {
    var body := EncodeChars(s);
    var start := VarIntThen(data, pos, |s|, body);
    assert data[start..start + |s|] == body by {
      forall k | 0 <= k < |s|
        ensures data[start..start + |s|][k] == body[k]
      {
        assert data[start + k] == body[k];
      }
    }
    assert DecodeChars(body) == s;
  }

  /**
    The readable part of a `PacketByteBuf`: its bytes, the reader index and the
    index `markReaderIndex` saved. Reads that fail leave the reader index where it was.
   */
  class PacketBuf {
    const data: seq<byte>
    var readerIndex: nat
    var markedReaderIndex: nat

    ghost predicate Valid()
      reads this
    {
      readerIndex <= |data| && markedReaderIndex <= |data|
    }

    constructor (data: seq<byte>)
      ensures Valid()
      ensures this.data == data && readerIndex == 0 && markedReaderIndex == 0
    {
      this.data := data;
      readerIndex := 0;
      markedReaderIndex := 0;
    }

    /** `isReadable`: bytes remain after the reader index. */
    predicate IsReadable(): (r: bool)
      reads this
      ensures !r ==> ReadVarIntAt(data, readerIndex).None? && ReadStringAt(data, readerIndex, MaxStringLength).None?
    {
      readerIndex < |data|
    }

    method MarkReaderIndex()
      requires Valid()
      modifies this`markedReaderIndex
      ensures Valid() && markedReaderIndex == readerIndex
    {
      markedReaderIndex := readerIndex;
    }

    method ResetReaderIndex()
      requires Valid()
      modifies this`readerIndex
      ensures Valid() && readerIndex == markedReaderIndex
    {
      readerIndex := markedReaderIndex;
    }

    method ReadVarInt() returns (r: Option<int>)
      requires Valid()
      modifies this`readerIndex
      ensures Valid()
      ensures ReadVarIntAt(data, old(readerIndex)).None? ==> r.None? && readerIndex == old(readerIndex)
      ensures ReadVarIntAt(data, old(readerIndex)).Some? ==>
                r == Some(ReadVarIntAt(data, old(readerIndex)).value.0) &&
                readerIndex == ReadVarIntAt(data, old(readerIndex)).value.1
    {
      match ReadVarIntAt(data, readerIndex)
      case None =>
        r := None;
      case Some((value, next)) =>
        r := Some(value);
        readerIndex := next;
    }

    method ReadString(maxLength: nat) returns (r: Option<string>)
      requires Valid()
      modifies this`readerIndex
      ensures Valid()
      ensures ReadStringAt(data, old(readerIndex), maxLength).None? ==> r.None? && readerIndex == old(readerIndex)
      ensures ReadStringAt(data, old(readerIndex), maxLength).Some? ==>
                r == Some(ReadStringAt(data, old(readerIndex), maxLength).value.0) &&
                readerIndex == ReadStringAt(data, old(readerIndex), maxLength).value.1
    {
      match ReadStringAt(data, readerIndex, maxLength)
      case None =>
        r := None;
      case Some((value, next)) =>
        r := Some(value);
        readerIndex := next;
    }
  }
}
