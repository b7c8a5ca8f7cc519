/** Big-endian integers and length-prefixed byte strings, as written to keys and snapshots, and the reader that takes
    them apart again. */
module ByteCodec {
  import opened Basics

  datatype CodecError = Corrupt | Incompatible | ResourceExhausted

  /** What a reading function gives back: the value and the bytes after it. */
  type Parsed<+T> = Result<(T, Bytes), CodecError>

  const MAX_U32: nat := 0xFFFF_FFFF

  // ---------------------------------------------------------------- integers

  function Power256(count: nat): (power: nat)
    ensures power >= 1
  {
    if count == 0 then 1 else 256 * Power256(count - 1)
  }

  /** The last `count` octets of a number, most significant first. */
  function BigEndian(value: nat, count: nat): (bytes: Bytes)
    ensures |bytes| == count
  {
    if count == 0 then [] else BigEndian(value / 256, count - 1) + [value % 256]
  }

  function FromBigEndian(bytes: Bytes): nat {
    if bytes == [] then 0 else 256 * FromBigEndian(bytes[..|bytes| - 1]) + bytes[|bytes| - 1]
  }

  /** Reading back an integer that fits gives it back. */
  lemma {:induction false} BigEndianRoundTrip(value: nat, count: nat)
    requires value < Power256(count)
    ensures FromBigEndian(BigEndian(value, count)) == value
  {
    if count > 0 {
      BigEndianRoundTrip(value / 256, count - 1);
      assert BigEndian(value, count)[..count - 1] == BigEndian(value / 256, count - 1);
    }
  }

  lemma {:induction false} FromBigEndianRoundTrip(bytes: Bytes)
    ensures BigEndian(FromBigEndian(bytes), |bytes|) == bytes && FromBigEndian(bytes) < Power256(|bytes|)
  {
    if bytes != [] {
      FromBigEndianRoundTrip(bytes[..|bytes| - 1]);
      assert bytes == bytes[..|bytes| - 1] + [bytes[|bytes| - 1]];
    }
  }

  lemma Powers()
    ensures Power256(1) == 0x100 && Power256(2) == 0x1_0000 && Power256(4) == 0x1_0000_0000
    ensures Power256(8) == 0x1_0000_0000_0000_0000
  {
    assert Power256(0) == 1 && Power256(1) == 0x100 && Power256(2) == 0x1_0000 && Power256(3) == 0x100_0000;
    assert Power256(4) == 0x1_0000_0000 && Power256(5) == 0x100_0000_0000 && Power256(6) == 0x1_0000_0000_0000;
    assert Power256(7) == 0x100_0000_0000_0000;
  }

  // ---------------------------------------------------------------- reading

  function ReadOctets(bytes: Bytes, count: nat): Parsed<Bytes> {
    if count <= |bytes| then Ok((bytes[..count], bytes[count..])) else Err(Corrupt)
  }

  function ReadNumber(bytes: Bytes, count: nat): Parsed<nat> {
    var (octets, rest) :- ReadOctets(bytes, count);
    Ok((FromBigEndian(octets), rest))
  }

  function ReadByte(bytes: Bytes): Parsed<Byte> {
    if bytes == [] then Err(Corrupt) else Ok((bytes[0], bytes[1..]))
  }

  function ReadBytes(bytes: Bytes, maximum: nat): Parsed<Bytes> {
    var (length, rest) :- ReadNumber(bytes, 4);
    if length > maximum then Err(ResourceExhausted) else ReadOctets(rest, length)
  }

  /** `put_bytes` */
  function PutBytes(value: Bytes, maximum: nat): Result<Bytes, CodecError> {
    if |value| > MAX_U32 || |value| > maximum then Err(ResourceExhausted) else Ok(BigEndian(|value|, 4) + value)
  }

  lemma ReadOctetsBack(value: Bytes, rest: Bytes)
    ensures ReadOctets(value + rest, |value|) == Ok((value, rest))
  {
    assert (value + rest)[..|value|] == value && (value + rest)[|value|..] == rest;
  }

  lemma ReadNumberBack(value: nat, count: nat, rest: Bytes)
    requires value < Power256(count)
    ensures ReadNumber(BigEndian(value, count) + rest, count) == Ok((value, rest))
  {
    ReadOctetsBack(BigEndian(value, count), rest);
    BigEndianRoundTrip(value, count);
  }

  lemma ReadByteBack(value: Byte, rest: Bytes)
    ensures ReadByte([value] + rest) == Ok((value, rest))
  {
  }

  lemma ReadBytesBack(value: Bytes, maximum: nat, rest: Bytes)
    requires PutBytes(value, maximum).Ok?
    ensures ReadBytes(PutBytes(value, maximum).value + rest, maximum) == Ok((value, rest))
  {
    Powers();
    var length := BigEndian(|value|, 4);
    assert length + value + rest == length + (value + rest);
    ReadNumberBack(|value|, 4, value + rest);
    ReadOctetsBack(value, rest);
  }

  // ---------------------------------------------------------------- what can be read was written so

  lemma NumberIsCanonical(bytes: Bytes, count: nat)
    requires ReadNumber(bytes, count).Ok?
    ensures var (value, rest) := ReadNumber(bytes, count).value;
      value < Power256(count) && bytes == BigEndian(value, count) + rest
  {
    FromBigEndianRoundTrip(bytes[..count]);
    assert bytes == bytes[..count] + bytes[count..];
  }

  /** A byte string that can be read is the one encoding of its value: what was read, written again, gives the bytes. */
  lemma ReadBytesIsCanonical(bytes: Bytes, maximum: nat)
    requires ReadBytes(bytes, maximum).Ok?
    ensures var (value, rest) := ReadBytes(bytes, maximum).value;
      && |value| <= maximum && PutBytes(value, maximum).Ok?
      && bytes == PutBytes(value, maximum).value + rest
  {
    Powers();
    NumberIsCanonical(bytes, 4);
    var (length, after) := ReadNumber(bytes, 4).value;
    assert after == after[..length] + after[length..];
    var number := BigEndian(length, 4);
    assert number + (after[..length] + after[length..]) == number + after[..length] + after[length..];
  }

  /** A byte string is read exactly when its length and all its octets are there and it is within the limit; the
      limit is tested before the octets. */
  lemma ReadBytesDecides(bytes: Bytes, maximum: nat)
    ensures ReadBytes(bytes, maximum) ==
      if |bytes| < 4 then Err(Corrupt)
      else if FromBigEndian(bytes[..4]) > maximum then Err(ResourceExhausted)
      else if |bytes| < 4 + FromBigEndian(bytes[..4]) then Err(Corrupt)
      else
        var length := FromBigEndian(bytes[..4]);
        Ok((bytes[4..4 + length], bytes[4 + length..]))
  {
    if |bytes| >= 4 && FromBigEndian(bytes[..4]) <= maximum && |bytes| >= 4 + FromBigEndian(bytes[..4]) {
      var length := FromBigEndian(bytes[..4]);
      assert bytes[4..][..length] == bytes[4..4 + length] && bytes[4..][length..] == bytes[4 + length..];
    }
  }

  // ---------------------------------------------------------------- the reader

  /** The cursor of the decoder. */
  class Reader {
    const bytes: Bytes
    var offset: nat

    ghost predicate Valid()
      reads this
    {
      offset <= |bytes|
    }

    ghost function Rest(): Bytes
      reads this
      requires Valid()
    {
      bytes[offset..]
    }

    constructor (bytes: Bytes)
      ensures Valid() && Rest() == bytes && this.bytes == bytes
    {
      this.bytes := bytes;
      offset := 0;
    }

    method Take(count: nat) returns (result: Result<Bytes, CodecError>)
      requires Valid()
      modifies this`offset
      ensures Valid()
      ensures match ReadOctets(old(Rest()), count)
        case Ok((value, rest)) => result == Ok(value) && Rest() == rest
        case Err(error) => result == Err(error) && Rest() == old(Rest())
    {
      if offset + count > |bytes| {
        return Err(Corrupt);
      }
      var value := bytes[offset..offset + count];
      assert bytes[offset..][..count] == value;
      offset := offset + count;
      result := Ok(value);
    }

    method Number(count: nat) returns (result: Result<nat, CodecError>)
      requires Valid()
      modifies this`offset
      ensures Valid()
      ensures match ReadNumber(old(Rest()), count)
        case Ok((value, rest)) => result == Ok(value) && Rest() == rest
        case Err(error) => result == Err(error) && Rest() == old(Rest())
    {
      var octets := Take(count);
      if octets.Err? {
        return Err(octets.error);
      }
      result := Ok(FromBigEndian(octets.value));
    }

    method Octet() returns (result: Result<Byte, CodecError>)
      requires Valid()
      modifies this`offset
      ensures Valid()
      ensures match ReadByte(old(Rest()))
        case Ok((value, rest)) => result == Ok(value) && Rest() == rest
        case Err(error) => result == Err(error) && Rest() == old(Rest())
    {
      var octets := Take(1);
      if octets.Err? {
        return Err(octets.error);
      }
      result := Ok(octets.value[0]);
    }

    /** A refused or truncated byte string leaves the cursor behind its length. */
    method ByteString(maximum: nat) returns (result: Result<Bytes, CodecError>)
      requires Valid()
      modifies this`offset
      ensures Valid()
      ensures match ReadBytes(old(Rest()), maximum)
        case Ok((value, rest)) => result == Ok(value) && Rest() == rest
        case Err(error) => result == Err(error)
    {
      var length := Number(4);
      if length.Err? {
        return Err(length.error);
      }
      if length.value > maximum {
        return Err(ResourceExhausted);
      }
      result := Take(length.value);
    }
  }
}
