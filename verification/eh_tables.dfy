/** The exception tables of the exception demo: variable-length numbers (section 7.6 of DWARF 3),
    chains of actions, and the walk over the call sites of a function. */
module ExceptionTables {

  datatype Option<T> = None | Some(value: T)

  type Byte = b: int | 0 <= b < 256 witness 0

  type Data = seq<Byte>

  // ---- variable-length numbers ---------------------------------------------------------------

  /** From pos on there is a byte without the continuation bit. */
  predicate Ends(data: Data, pos: nat)
    decreases |data| - pos
  {
    pos < |data| && (data[pos] < 128 || Ends(data, pos + 1))
  }

  /** How many bytes the number at pos takes. */
  function Length(data: Data, pos: nat): (n: nat)
    requires Ends(data, pos)
    ensures n > 0 && pos + n <= |data| && data[pos + n - 1] < 128
    decreases |data| - pos
  {
    if data[pos] < 128 then 1 else 1 + Length(data, pos + 1)
  }

  function Unsigned(data: Data, pos: nat): nat
    requires Ends(data, pos)
    decreases |data| - pos
  {
    data[pos] % 128 + if data[pos] < 128 then 0 else 128 * Unsigned(data, pos + 1)
  }

  function Power(k: nat): nat {
    if k == 0 then 1 else 128 * Power(k - 1)
  }

  /** The sign is the second highest bit of the last byte. */
  function Signed(data: Data, pos: nat): int
    requires Ends(data, pos)
  {
    var n := Length(data, pos);
    Unsigned(data, pos) - if data[pos + n - 1] >= 64 then Power(n) else 0
  }

  /** The shifts are done in a 32-bit int: unsigned numbers stay below 2^31 in at most five
      bytes, signed ones take at most four. */
  predicate ReadableU(data: Data, pos: nat) {
    Ends(data, pos) && Length(data, pos) <= 5 && Unsigned(data, pos) < 0x8000_0000
  }

  predicate ReadableS(data: Data, pos: nat) {
    Ends(data, pos) && Length(data, pos) <= 4
  }

  lemma {:induction false} UnsignedBelow(data: Data, pos: nat)
    requires Ends(data, pos)
    ensures Unsigned(data, pos) < Power(Length(data, pos))
    decreases |data| - pos
  {
    if data[pos] >= 128 {
      UnsignedBelow(data, pos + 1);
    }
  }

  lemma FourBytes()
    ensures Power(0) == 1 && Power(1) == 128 && Power(2) == 16384 && Power(3) == 2097152 && Power(4) == 268435456 && Power(5) == 34359738368
  {
    assert Power(0) == 1;
  }

  /** k bytes have been read, and their bits make up the result. */
  ghost predicate Reading(data: Data, pos: nat, k: nat, result: nat) {
    && Ends(data, pos) && Ends(data, pos + k)
    && Unsigned(data, pos) == result + Power(k) * Unsigned(data, pos + k)
    && Length(data, pos) == k + Length(data, pos + k)
  }

  lemma ReadByte(data: Data, pos: nat, k: nat, result: nat)
    requires Reading(data, pos, k, result)
    ensures Power(k) * (data[pos + k] % 128) <= Unsigned(data, pos)
    ensures data[pos + k] >= 128 ==> Reading(data, pos, k + 1, result + Power(k) * (data[pos + k] % 128))
    ensures data[pos + k] < 128 ==>
              Unsigned(data, pos) == result + Power(k) * (data[pos + k] % 128) && Length(data, pos) == k + 1
    ensures Power(k + 1) == Power(k) * 128
  {
    var byte, s := data[pos + k], Power(k);
    if byte >= 128 {
      var rest := Unsigned(data, pos + k + 1);
      Times(s, byte % 128, rest);
    }
  }

  lemma Times(s: nat, b: nat, u: nat)
    ensures s * (b + 128 * u) == s * b + (s * 128) * u && s * b <= s * (b + 128 * u)
  {
    assert s * (128 * u) == (s * 128) * u;
  }

  /** The loop that both readers share: the bits of each byte go above those before. */
  method ReadBits(data: Data, pos: nat) returns (result: nat, shift: nat, next: nat)
    requires Ends(data, pos) && (ReadableU(data, pos) || ReadableS(data, pos))
    ensures result == Unsigned(data, pos) && next == pos + Length(data, pos) && shift == Power(Length(data, pos))
  {
    hide Power, Signed, Unsigned, Length;
    result, shift, next := 0, 1, pos;
    FourBytes();
    InRange(data, pos);
    ghost var k := 0;
    while true
      invariant k == next - pos && shift == Power(k) && Reading(data, pos, k, result)
      decreases |data| - next
    {
      var byte := data[next];
      ReadByte(data, pos, k, result);
      assert shift * (byte % 128) < 0x8000_0000;
      result := result + shift * (byte % 128);
      shift, next, k := shift * 128, next + 1, k + 1;
      if byte < 128 {
        break;
      }
    }
  }

  /** No shift leaves the range of an int. */
  lemma InRange(data: Data, pos: nat)
    requires ReadableU(data, pos) || ReadableS(data, pos)
    ensures Unsigned(data, pos) < 0x8000_0000
  {
    FourBytes();
    UnsignedBelow(data, pos);
  }

  method ReadULEB128(data: Data, pos: nat) returns (value: nat, next: nat)
    requires ReadableU(data, pos)
    ensures value == Unsigned(data, pos) && next == pos + Length(data, pos)
  {
    var shift;
    value, shift, next := ReadBits(data, pos);
  }

  method ReadSLEB128(data: Data, pos: nat) returns (value: int, next: nat)
    requires ReadableS(data, pos)
    ensures value == Signed(data, pos) && next == pos + Length(data, pos)
  {
    var shift;
    value, shift, next := ReadBits(data, pos);
    if data[next - 1] >= 64 {
      value := value - shift;
    }
  }

  // ---- encoding, and the way back ------------------------------------------------------------

  function EncodeU(n: nat): Data {
    if n < 128 then [n] else [n % 128 + 128] + EncodeU(n / 128)
  }

  function EncodeS(n: int): Data
    decreases if n < 0 then -n else n
  {
    if -64 <= n < 64 then [n % 128] else [n % 128 + 128] + EncodeS(n / 128)
  }

  /** What is encoded is read back, wherever it stands. */
  lemma {:induction false} UnsignedRoundTrip(before: Data, n: nat, after: Data)
    ensures var data := before + EncodeU(n) + after;
            Ends(data, |before|) && Unsigned(data, |before|) == n && Length(data, |before|) == |EncodeU(n)|
    decreases n
  {
    var data := before + EncodeU(n) + after;
    if n >= 128 {
      var first := [n % 128 + 128];
      UnsignedRoundTrip(before + first, n / 128, after);
      assert before + first + EncodeU(n / 128) + after == data;
    }
  }

  lemma OneByte(data: Data, pos: nat)
    requires pos < |data| && data[pos] < 128
    ensures Length(data, pos) == 1 && Signed(data, pos) == if data[pos] >= 64 then (data[pos] as int) - 128 else data[pos]
  {
    FourBytes();
  }

  lemma SignedStep(data: Data, pos: nat)
    requires Ends(data, pos) && data[pos] >= 128
    ensures Signed(data, pos) == data[pos] % 128 + 128 * Signed(data, pos + 1)
    ensures Length(data, pos) == 1 + Length(data, pos + 1)
  {
  }

  lemma {:induction false} SignedRoundTrip(before: Data, n: int, after: Data)
    ensures var data := before + EncodeS(n) + after;
            Ends(data, |before|) && Signed(data, |before|) == n && Length(data, |before|) == |EncodeS(n)|
    decreases if n < 0 then -n else n
  {
    hide Signed, Length;
    var data := before + EncodeS(n) + after;
    if -64 <= n < 64 {
      OneByte(data, |before|);
    } else {
      var first := [n % 128 + 128];
      SignedRoundTrip(before + first, n / 128, after);
      assert before + first + EncodeS(n / 128) + after == data;
      assert data[|before|] == n % 128 + 128;
      SignedStep(data, |before|);
    }
  }

  // ---- examples ------------------------------------------------------------------------------

  /** The examples of section 7.6 of DWARF 3. */
  lemma KnownNumbers()
    ensures Unsigned([2], 0) == 2 && Unsigned([127], 0) == 127 && Unsigned([0x80, 1], 0) == 128 && Unsigned([0x81, 1], 0) == 129
    ensures Unsigned([0xb9, 0x64], 0) == 12857
    ensures Signed([2], 0) == 2 && Signed([0x7e], 0) == -2 && Signed([0xff, 0], 0) == 127 && Signed([0x81, 0x7f], 0) == -127
    ensures Signed([0x80, 1], 0) == 128 && Signed([0x80, 0x7f], 0) == -128
  {
    assert Power(1) == 128 && Power(2) == 16384 by {
      FourBytes();
    }
    TwoBytes(0x80, 1);
    TwoBytes(0x81, 1);
    TwoBytes(0xb9, 0x64);
    TwoBytes(0xff, 0);
    TwoBytes(0x81, 0x7f);
    TwoBytes(0x80, 0x7f);
  }

  lemma TwoBytes(a: Byte, b: Byte)
    requires a >= 128 && b < 128
    ensures Ends([a, b], 0) && Length([a, b], 0) == 2 && Unsigned([a, b], 0) == a % 128 + 128 * b
  {
    var data: Data := [a, b];
    assert Ends(data, 1) && Length(data, 1) == 1 && Unsigned(data, 1) == b;
  }
}
