/** neo/Core/IO/BinaryWriter.py and BinaryReader.py: bytes, variable-length integers and byte strings. */
module BinaryIO {
  import opened Arithmetic
  import opened Bytes
  import opened Wrappers

  const MAXSIZE := 0x7FFF_FFFF_FFFF_FFFF

  // ---- the format ----------------------------------------------------------------------------

  function VarInt(n: nat): (s: seq<byte>)
    ensures |s| >= 1
  {
    if n < 0xfd then [n]
    else if n <= 0xffff then [0xfd] + ToLE(n, 2)
    else if n <= 0xFFFF_FFFF then [0xfe] + ToLE(n, 4)
    else [0xff] + ToLE(n, 8)
  }

  /** The bytes of a variable-length integer, range by range. */
  lemma VarIntInFigures(n: nat)
    ensures n < 253 ==> VarInt(n) == [n]
    ensures 253 <= n < 65536 ==> VarInt(n) == [253, n % 256, n / 256]
    ensures 65536 <= n < 4294967296 ==>
      VarInt(n) == [254, n % 256, n / 256 % 256, n / 65536 % 256, n / 16777216]
    ensures n >= 4294967296 ==> |VarInt(n)| == 9 && VarInt(n)[0] == 255
    ensures n >= 4294967296 ==> forall k: nat :: k < 8 ==> VarInt(n)[k + 1] == n / Pow256(k) % 256
  {
    if 253 <= n < 65536 {
      LowBytes(n, 2);
    } else if 65536 <= n < 4294967296 {
      LowBytes(n, 4);
    } else if n >= 4294967296 {
      forall k: nat | k < 8 ensures VarInt(n)[k + 1] == n / Pow256(k) % 256 {
        ByteAt(n, 8, k);
      }
    }
  }

  lemma LowBytes(n: nat, k: nat)
    requires k >= 2
    ensures k == 2 ==> ToLE(n, k) == [n % 256, n / 256 % 256]
    ensures k == 4 ==> ToLE(n, k) == [n % 256, n / 256 % 256, n / 65536 % 256, n / 16777216 % 256]
  {
    hide ToLE, Pow256;
    SmallPowers();
    ByteAt(n, k, 0);
    ByteAt(n, k, 1);
    if k == 4 {
      ByteAt(n, k, 2);
      ByteAt(n, k, 3);
    }
  }

  lemma SmallPowers()
    ensures Pow256(0) == 1 && Pow256(1) == 256 && Pow256(2) == 65536 && Pow256(3) == 16777216
  {
  }

  function VarBytes(b: seq<byte>): seq<byte> {
    VarInt(|b|) + b
  }

  /** A value and the position after it, or the exception of a short or oversized read. */
  datatype Read<+T> = Read(value: T, pos: nat) | ReadError

  function Slice(s: seq<byte>, pos: nat, n: nat): Read<seq<byte>> {
    if pos + n <= |s| then Read(s[pos..pos + n], pos + n) else ReadError
  }

  /** At the end of the stream `ReadVarInt` swallows the exception and answers 0. */
  function ReadVarIntAt(s: seq<byte>, pos: nat): (r: Read<nat>)
    ensures r.Read? ==> pos <= r.pos && (pos <= |s| ==> r.pos <= |s|) && r.value <= MAXSIZE
  {
    if pos >= |s| then Read(0, pos)
    else
      var n := if s[pos] == 0xfd then 2 else if s[pos] == 0xfe then 4 else if s[pos] == 0xff then 8 else 0;
      match Slice(s, pos + 1, n)
      case ReadError => ReadError
      case Read(b, next) =>
        var value := if n == 0 then s[pos] else FromLE(b);
        if value > MAXSIZE then ReadError else Read(value, next)
  }

  /** What the reader makes of the bytes in front of it. */
  lemma ReadVarIntInFigures(s: seq<byte>, pos: nat)
    requires pos < |s|
    ensures s[pos] < 253 ==> ReadVarIntAt(s, pos) == Read(s[pos], pos + 1)
    ensures s[pos] == 253 && pos + 3 > |s| ==> ReadVarIntAt(s, pos) == ReadError
    ensures s[pos] == 253 && pos + 3 <= |s| ==> ReadVarIntAt(s, pos) == Read(Two(s[pos + 1], s[pos + 2]), pos + 3)
    ensures s[pos] == 254 && pos + 5 > |s| ==> ReadVarIntAt(s, pos) == ReadError
    ensures s[pos] == 254 && pos + 5 <= |s| ==>
      ReadVarIntAt(s, pos) == Read(Four(s[pos + 1], s[pos + 2], s[pos + 3], s[pos + 4]), pos + 5)
    ensures s[pos] == 255 && (pos + 9 > |s| || s[pos + 8] >= 128) ==> ReadVarIntAt(s, pos) == ReadError
    ensures s[pos] == 255 && pos + 9 <= |s| && s[pos + 8] < 128 ==>
      ReadVarIntAt(s, pos) == Read(FromLE(s[pos + 1..pos + 9]), pos + 9)
  {
    if s[pos] == 253 && pos + 3 <= |s| {
      FourBytes(s[pos + 1..pos + 3]);
    } else if s[pos] == 254 && pos + 5 <= |s| {
      FourBytes(s[pos + 1..pos + 5]);
    } else if s[pos] == 255 && pos + 9 <= |s| {
      EightBytes(s[pos + 1..pos + 9]);
    }
  }

  lemma FourBytes(b: seq<byte>)
    ensures |b| == 2 ==> FromLE(b) == Two(b[0], b[1])
    ensures |b| == 4 ==> FromLE(b) == Four(b[0], b[1], b[2], b[3])
  {
    if |b| == 2 {
      assert FromLE(b[1..]) == b[1] + 256 * FromLE(b[1..][1..]);
    } else if |b| == 4 {
      FourBytes(b[2..]);
      assert FromLE(b[1..]) == b[1] + 256 * FromLE(b[1..][1..]) && b[1..][1..] == b[2..];
    }
  }

  lemma EightBytes(b: seq<byte>)
    requires |b| == 8
    ensures FromLE(b) <= MAXSIZE <==> b[7] < 128
  {
    TopByte(b);
    SeventhPower();
  }

  lemma SeventhPower()
    ensures Pow256(7) == 0x100_0000_0000_0000
  {
    assert Pow256(3) == 0x100_0000;
    assert Pow256(5) == 256 * Pow256(4) == 256 * (256 * Pow256(3));
    assert Pow256(7) == 256 * Pow256(6) == 256 * (256 * Pow256(5));
  }

  lemma {:induction false} TopByte(b: seq<byte>)
    requires b != []
    ensures FromLE(b) == FromLE(b[..|b| - 1]) + Pow256(|b| - 1) * b[|b| - 1]
  {
    if |b| > 1 {
      var front, tail, p := b[..|b| - 1], b[1..], Pow256(|b| - 2);
      var last: int := b[|b| - 1];
      assert FromLE(b) == b[0] + 256 * FromLE(tail) && FromLE(front) == b[0] + 256 * FromLE(front[1..]);
      assert Pow256(|b| - 1) == 256 * p;
      hide *;
      TopByte(tail);
      assert tail[..|b| - 2] == front[1..] && tail[|b| - 2] == last;
      Distribute(256, FromLE(front[1..]), p * last);
      TimesTimes(256, p, last);
    }
  }

  lemma TimesTimes(a: int, b: int, c: int)
    ensures a * (b * c) == (a * b) * c
  {
  }

  function ReadVarBytesAt(s: seq<byte>, pos: nat): (r: Read<seq<byte>>)
    ensures r.Read? ==> pos <= r.pos && (pos <= |s| ==> r.pos <= |s|)
  {
    match ReadVarIntAt(s, pos)
    case ReadError => ReadError
    case Read(n, next) => Slice(s, next, n)
  }

  /** The part of the stream from `pos` on begins with `b`. */
  ghost predicate At(s: seq<byte>, pos: nat, b: seq<byte>) {
    pos + |b| <= |s| && s[pos..pos + |b|] == b
  }

  lemma AtConcat(s: seq<byte>, pos: nat, a: seq<byte>, b: seq<byte>)
    requires At(s, pos, a + b)
    ensures At(s, pos, a) && At(s, pos + |a|, b)
  {
    var n := |a| + |b|;
    assert s[pos..pos + |a|] == s[pos..pos + n][..|a|] == a;
    assert s[pos + |a|..pos + n] == s[pos..pos + n][|a|..] == b;
  }

  lemma VarIntRoundTrip(s: seq<byte>, pos: nat, n: nat)
    requires n <= MAXSIZE && At(s, pos, VarInt(n))
    ensures ReadVarIntAt(s, pos) == Read(n, pos + |VarInt(n)|)
  {
    hide ToLE;
    var k := if n < 0xfd then 0 else if n <= 0xffff then 2 else if n <= 0xFFFF_FFFF then 4 else 8;
    Powers();
    if k > 0 {
      var tag: byte := if k == 2 then 0xfd else if k == 4 then 0xfe else 0xff;
      AtConcat(s, pos, [tag], ToLE(n, k));
      assert s[pos] == s[pos..pos + 1][0];
      FromLEToLE(n, k);
      DivModUnique(n, Pow256(k), 0, n);
    } else {
      assert s[pos] == s[pos..pos + 1][0];
    }
  }

  lemma Powers()
    ensures Pow256(2) == 0x1_0000 && Pow256(4) == 0x1_0000_0000 && Pow256(8) == 0x1_0000_0000_0000_0000
  {
    assert Pow256(1) == 256 * Pow256(0);
    assert Pow256(2) == 256 * Pow256(1);
    Pow256Add(2, 2);
    Pow256Add(4, 4);
  }

  /** Writing then reading a byte string, whatever follows it. */
  lemma VarBytesRoundTrip(s: seq<byte>, pos: nat, b: seq<byte>)
    requires |b| <= MAXSIZE && At(s, pos, VarBytes(b))
    ensures ReadVarBytesAt(s, pos) == Read(b, pos + |VarBytes(b)|)
  {
    hide VarInt, ReadVarIntAt;
    AtConcat(s, pos, VarInt(|b|), b);
    VarIntRoundTrip(s, pos, |b|);
  }

  // ---- streams -------------------------------------------------------------------------------

  class BinaryWriter {
    var stream: seq<byte>

    constructor ()
      ensures stream == []
    {
      stream := [];
    }

    method WriteByte(b: byte)
      modifies this
      ensures stream == old(stream) + [b]
    {
      stream := stream + [b];
    }

    method WriteBytes(b: seq<byte>)
      modifies this
      ensures stream == old(stream) + b
    {
      stream := stream + b;
    }

    /** False stands for the exceptions on values that are negative or need more than eight bytes. */
    method WriteVarInt(value: int) returns (ok: bool)
      modifies this
      ensures ok <==> 0 <= value <= 0xFFFF_FFFF_FFFF_FFFF
      ensures ok ==> stream == old(stream) + VarInt(value)
    {
      hide ToLE;
      ghost var before := stream;
      if value < 0 {
        return false;
      } else if value < 0xfd {
        WriteByte(value);
      } else if value <= 0xffff {
        WriteByte(0xfd);
        WriteBytes(ToLE(value, 2));
      } else if value <= 0xFFFF_FFFF {
        WriteByte(0xfe);
        WriteBytes(ToLE(value, 4));
      } else {
        WriteByte(0xff);
        if value > 0xFFFF_FFFF_FFFF_FFFF {
          return false;
        }
        WriteBytes(ToLE(value, 8));
      }
      return true;
    }

    method WriteVarBytes(b: seq<byte>) returns (ok: bool)
      modifies this
      ensures ok <==> |b| <= 0xFFFF_FFFF_FFFF_FFFF
      ensures ok ==> stream == old(stream) + VarBytes(b)
    {
      ok := WriteVarInt(|b|);
      if ok {
        WriteBytes(b);
      }
    }
  }

  class BinaryReader {
    const stream: seq<byte>
    var pos: nat

    constructor (stream: seq<byte>)
      ensures this.stream == stream && pos == 0
    {
      this.stream, pos := stream, 0;
    }

    method SafeReadBytes(length: nat) returns (r: Option<seq<byte>>)
      requires pos <= |stream|
      modifies this
      ensures pos <= |stream|
      ensures match Slice(stream, old(pos), length)
        case ReadError => r == None && pos == |stream|
        case Read(b, next) => r == Some(b) && pos == next
    {
      if pos + length > |stream| {
        pos := |stream|;
        return None;
      }
      r := Some(stream[pos..pos + length]);
      pos := pos + length;
    }

    method ReadVarInt() returns (r: Option<nat>)
      requires pos <= |stream|
      modifies this
      ensures pos <= |stream|
      ensures match ReadVarIntAt(stream, old(pos))
        case ReadError => r == None
        case Read(n, next) => r == Some(n) && pos == next
    {
      var fb := SafeReadBytes(1);
      if fb.None? {
        return Some(0);
      }
      var value: nat := fb.value[0];
      if value >= 0xfd {
        var b := SafeReadBytes(if value == 0xfd then 2 else if value == 0xfe then 4 else 8);
        if b.None? {
          return None;
        }
        value := FromLE(b.value);
      }
      if value > MAXSIZE {
        return None;
      }
      return Some(value);
    }

    method ReadVarBytes() returns (r: Option<seq<byte>>)
      requires pos <= |stream|
      modifies this
      ensures pos <= |stream|
      ensures match ReadVarBytesAt(stream, old(pos))
        case ReadError => r == None
        case Read(b, next) => r == Some(b) && pos == next
    {
      var length := ReadVarInt();
      if length.None? {
        return None;
      }
      r := SafeReadBytes(length.value);
    }
  }
}
