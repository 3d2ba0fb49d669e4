/** CRC-8 with polynomial x^8 + x^5 + x^4 + 1, and the flash record of a MAC address protected by it. */
module MacRecord {

  type Bytes = seq<bv8>

  // ---- CRC-8 ----

  /** One bit of the polynomial division. */
  function Shift(c: bv8): bv8
  {
    if c & 0x80 != 0 then (c << 1) ^ 0x31 else c << 1
  }

  function Shifts(c: bv8, n: nat): bv8
    decreases n
  {
    if n == 0 then c else Shifts(Shift(c), n - 1)
  }

  /** The register after one more byte. */
  function Mix(c: bv8, byte: bv8): bv8
  {
    Shifts(c ^ byte, 8)
  }

  /** The state after a machine with the given step has read all of `input`. */
  function Fold<S, B>(step: (S, B) -> S, s: S, input: seq<B>): S
    decreases |input|
  {
    if input == [] then s else Fold(step, step(s, input[0]), input[1..])
  }

  lemma FoldAt<S, B>(step: (S, B) -> S, s: S, input: seq<B>, k: nat)
    requires k < |input|
    ensures Fold(step, s, input[k..]) == Fold(step, step(s, input[k]), input[k + 1..])
  {
    assert input[k..][1..] == input[k + 1..];
  }

  function Crc(bytes: Bytes): bv8
  {
    Fold(Mix, 0, bytes)
  }

  method MixIn(c: bv8, byte: bv8) returns (crc: bv8)
    ensures crc == Mix(c, byte)
  {
    crc := c ^ byte;
    var i := 8;
    while i > 0
      invariant 0 <= i <= 8
      invariant Shifts(crc, i) == Mix(c, byte)
    {
      if crc & 0x80 != 0 {
        crc := (crc << 1) ^ 0x31;
      } else {
        crc := crc << 1;
      }
      i := i - 1;
    }
  }

  method Crc8(bytes: Bytes) returns (crc: bv8)
    ensures crc == Crc(bytes)
  {
    crc := 0;
    var k := 0;
    while k < |bytes|
      invariant 0 <= k <= |bytes|
      invariant Fold(Mix, crc, bytes[k..]) == Crc(bytes)
    {
      FoldAt(Mix, crc, bytes, k);
      crc := MixIn(crc, bytes[k]);
      k := k + 1;
    }
  }

  /** A shift step loses nothing: the low bit of the result tells which branch was taken. */
  lemma ShiftInjective(a: bv8, b: bv8)
    requires Shift(a) == Shift(b)
    ensures a == b
  {
  }

  lemma {:induction false} ShiftsInjective(a: bv8, b: bv8, n: nat)
    requires Shifts(a, n) == Shifts(b, n)
    ensures a == b
    decreases n
  {
    if n > 0 {
      ShiftsInjective(Shift(a), Shift(b), n - 1);
      ShiftInjective(a, b);
    }
  }

  lemma XorInjective(a: bv8, b: bv8, x: bv8, y: bv8)
    requires a ^ x == b ^ y
    ensures (x == y ==> a == b) && (a == b ==> x == y)
  {
  }

  /** Reading one byte is a bijection of the register, and of the byte. */
  lemma MixInjective(a: bv8, b: bv8, x: bv8, y: bv8)
    requires Mix(a, x) == Mix(b, y)
    ensures (x == y ==> a == b) && (a == b ==> x == y)
  {
    ShiftsInjective(a ^ x, b ^ y, 8);
    XorInjective(a, b, x, y);
  }

  ghost predicate StateInjective<S(!new), B(!new)>(step: (S, B) -> S)
  {
    forall a, b, x :: step(a, x) == step(b, x) ==> a == b
  }

  ghost predicate InputInjective<S(!new), B(!new)>(step: (S, B) -> S)
  {
    forall a, x, y :: step(a, x) == step(a, y) ==> x == y
  }

  lemma {:induction false} FoldInjective<S(!new), B(!new)>(step: (S, B) -> S, a: S, b: S, input: seq<B>)
    requires StateInjective(step) && Fold(step, a, input) == Fold(step, b, input)
    ensures a == b
    decreases |input|
  {
    if input != [] {
      FoldInjective(step, step(a, input[0]), step(b, input[0]), input[1..]);
    }
  }

  lemma {:induction false} FoldSeesOne<S(!new), B(!new)>(step: (S, B) -> S, s: S, input: seq<B>, k: nat, x: B)
    requires StateInjective(step) && InputInjective(step)
    requires k < |input| && Fold(step, s, input[k := x]) == Fold(step, s, input)
    ensures x == input[k]
    decreases k
  {
    var other := input[k := x];
    if k == 0 {
      assert other[1..] == input[1..];
      FoldInjective(step, step(s, x), step(s, input[0]), input[1..]);
    } else {
      assert other[1..] == input[1..][k - 1 := x];
      FoldSeesOne(step, step(s, input[0]), input[1..], k - 1, x);
    }
  }

  /** Changing one byte, anywhere in a message of any length, changes the checksum. */
  lemma CrcSeesOneByte(bytes: Bytes, k: nat, x: bv8)
    requires k < |bytes| && x != bytes[k]
    ensures Crc(bytes[k := x]) != Crc(bytes)
  {
    forall a, b, x, y | Mix(a, x) == Mix(b, y) ensures (x == y ==> a == b) && (a == b ==> x == y) {
      MixInjective(a, b, x, y);
    }
    if Crc(bytes[k := x]) == Crc(bytes) {
      FoldSeesOne(Mix, 0, bytes, k, x);
    }
  }

  // ---- records ----

  const TAG_LOW: bv8 := 0x41
  const TAG_HIGH: bv8 := 0x4d
  const REC_LEN: nat := 10

  type Mac = m: Bytes | |m| == 6 witness [0, 0, 0, 0, 0, 0]

  /** A record in memory order: the tag's low and high byte, the checksum of the address, the checksum
      of the three bytes before it, and the address. */
  type Record = r: Bytes | |r| == 10 witness [0, 0, 0, 0, 0, 0, 0, 0, 0, 0]

  const ERASED: Record := [0xff, 0xff, 0xff, 0xff, 0xff, 0xff, 0xff, 0xff, 0xff, 0xff]

  function Address(r: Record): Mac
  {
    r[4..]
  }

  predicate Valid(r: Record)
  {
    r[0] == TAG_LOW && r[1] == TAG_HIGH && Crc(r[..3]) == r[3] && Crc(r[4..]) == r[2]
  }

  function Built(mac: Mac): Record
  {
    var data := Crc(mac);
    [TAG_LOW, TAG_HIGH, data, Crc([TAG_LOW, TAG_HIGH, data])] + mac
  }

  /** Word by word: a record is free when all its five half-words are erased. */
  method IsFree(r: Record) returns (free: bool)
    ensures free <==> r == ERASED
  {
    var p := 0;
    while p < REC_LEN
      invariant 0 <= p <= 10 && p % 2 == 0
      invariant r[..p] == ERASED[..p]
    {
      if r[p] != 0xff || r[p + 1] != 0xff {
        return false;
      }
      assert r[..p + 2] == r[..p] + [r[p], r[p + 1]];
      assert ERASED[..p + 2] == ERASED[..p] + [0xff, 0xff];
      p := p + 2;
    }
    return true;
  }

  method IsValid(r: Record) returns (valid: bool)
    ensures valid <==> Valid(r)
  {
    if r[0] == TAG_LOW && r[1] == TAG_HIGH {
      var header := Crc8(r[..3]);
      if header == r[3] {
        var data := Crc8(r[4..]);
        if data == r[2] {
          return true;
        }
      }
    }
    return false;
  }

  method Build(mac: Mac) returns (r: Record)
    ensures r == Built(mac)
  {
    var data := Crc8(mac);
    var header := Crc8([TAG_LOW, TAG_HIGH, data]);
    r := [TAG_LOW, TAG_HIGH, data, header] + mac;
  }

  /** The bytes of a record: the tag 0x4d41 with its low byte first, the checksum of the address, the checksum of
      those three bytes, and the address. */
  lemma RecordLayout(mac: Mac, i: nat)
    requires i < 6
    ensures var r := Built(mac);
            && r[0] == 0x41 && r[1] == 0x4d && r[2] == Crc(mac) && r[3] == Crc([0x41, 0x4d, r[2]])
            && r[4 + i] == mac[i]
  {
  }

  /** What is built is accepted, reads back, and is never taken for free space. */
  lemma BuiltReadsBack(mac: Mac)
    ensures Valid(Built(mac)) && Address(Built(mac)) == mac && Built(mac) != ERASED
  {
    var r := Built(mac);
    assert r[..3] == [TAG_LOW, TAG_HIGH, Crc(mac)];
    assert r[4..] == mac;
    assert r[0] != ERASED[0];
  }

  /** The valid records are exactly the built ones. */
  lemma ValidIsBuilt(r: Record)
    ensures Valid(r) <==> r == Built(Address(r))
  {
    BuiltReadsBack(Address(r));
    if Valid(r) {
      assert r[..3] == [r[0], r[1], r[2]];
      assert r == [r[0], r[1], r[2], r[3]] + r[4..];
    }
  }

  /** Changing any one byte of a valid record, in the tag, a checksum or the address, is always caught. */
  lemma OneByteCaught(r: Record, k: nat, x: bv8)
    requires Valid(r) && k < 10 && x != r[k]
    ensures !Valid(r[k := x])
  {
    var c: Record := r[k := x];
    if k < 4 {
      assert c[4..] == r[4..];
      if k < 3 {
        assert c[..3] == r[..3][k := x];
        CrcSeesOneByte(r[..3], k, x);
      } else {
        assert c[..3] == r[..3];
      }
    } else {
      assert c[4..] == r[4..][k - 4 := x];
      CrcSeesOneByte(r[4..], k - 4, x);
    }
  }

  // ---- records cut short ----

  /** What power loss leaves when only the first `k` bytes of a record reached erased flash. */
  function Torn(mac: Mac, k: nat): Record
    requires k <= 10
  {
    Built(mac)[..k] + ERASED[k..]
  }

  /** The eight shifts of one byte, written out. */
  lemma EightShifts(c: bv8)
    ensures Shifts(c, 8) == Shift(Shift(Shift(Shift(Shift(Shift(Shift(Shift(c))))))))
  {
    var d := Shift(Shift(Shift(Shift(c))));
    assert Shifts(c, 8) == Shifts(Shift(Shift(c)), 6);
    assert Shifts(Shift(Shift(c)), 6) == Shifts(d, 4);
    assert Shifts(d, 4) == Shifts(Shift(Shift(d)), 2);
  }

  lemma FoldThree<S, B>(step: (S, B) -> S, s: S, a: B, b: B, c: B)
    ensures Fold(step, s, [a, b, c]) == step(step(step(s, a), b), c)
  {
    FoldAt(step, s, [a, b, c], 0);
    FoldAt(step, step(s, a), [a, b, c], 1);
    FoldAt(step, step(step(s, a), b), [a, b, c], 2);
    assert [a, b, c][0..] == [a, b, c];
  }

  lemma FoldSix<S, B>(step: (S, B) -> S, s: S, a: B, b: B, c: B, d: B, e: B, f: B)
    ensures Fold(step, s, [a, b, c, d, e, f]) == step(step(step(step(step(step(s, a), b), c), d), e), f)
  {
    var input := [a, b, c, d, e, f];
    FoldAt(step, s, input, 0);
    FoldAt(step, step(s, a), input, 1);
    FoldAt(step, step(step(s, a), b), input, 2);
    assert input[0..] == input && input[3..] == [d, e, f];
    FoldThree(step, step(step(step(s, a), b), c), d, e, f);
  }

  /** The checksum of a header whose data checksum is still erased. */
  lemma CrcErasedHeader()
    ensures Crc([0x41, 0x4d, 0xff]) == 0xd1
  {
    EightShifts(0x41);
    assert Mix(0x00, 0x41) == 0x0c;
    EightShifts(0x41);
    assert Mix(0x0c, 0x4d) == 0x0c;
    EightShifts(0xf3);
    assert Mix(0x0c, 0xff) == 0xd1;
    FoldThree(Mix, 0, 0x41, 0x4d, 0xff);
  }

  /** The checksum of an erased address. */
  lemma CrcErasedAddress()
    ensures Crc([0xff, 0xff, 0xff, 0xff, 0xff, 0xff]) == 0x48
  {
    EightShifts(0xff);
    assert Mix(0x00, 0xff) == 0xac;
    EightShifts(0x53);
    assert Mix(0xac, 0xff) == 0x2d;
    EightShifts(0xd2);
    assert Mix(0x2d, 0xff) == 0x66;
    EightShifts(0x99);
    assert Mix(0x66, 0xff) == 0xb1;
    EightShifts(0x4e);
    assert Mix(0xb1, 0xff) == 0x22;
    EightShifts(0xdd);
    assert Mix(0x22, 0xff) == 0x48;
    FoldSix(Mix, 0, 0xff, 0xff, 0xff, 0xff, 0xff, 0xff);
  }

  /** The checksum of a header that announces an erased address. */
  lemma CrcHeaderOfErased()
    ensures Crc([0x41, 0x4d, 0x48]) == 0xf9
  {
    EightShifts(0x41);
    assert Mix(0x00, 0x41) == 0x0c;
    EightShifts(0x41);
    assert Mix(0x0c, 0x4d) == 0x0c;
    EightShifts(0x44);
    assert Mix(0x0c, 0x48) == 0xf9;
    FoldThree(Mix, 0, 0x41, 0x4d, 0x48);
  }

  lemma TornAt(mac: Mac, k: nat, i: nat)
    requires k <= 10 && i < 10
    ensures Torn(mac, k)[i] == if i < k then Built(mac)[i] else 0xff
  {
    assert ERASED[i] == 0xff;
  }

  lemma HeaderTornRejected(mac: Mac)
    ensures !Valid(Torn(mac, 2))
  {
    var t := Torn(mac, 2);
    TornAt(mac, 2, 0);
    TornAt(mac, 2, 1);
    TornAt(mac, 2, 2);
    TornAt(mac, 2, 3);
    assert t[..3] == [t[0], t[1], t[2]];
    CrcErasedHeader();
  }

  lemma AddressTornRejected(mac: Mac)
    ensures !Valid(Torn(mac, 3))
  {
    var t := Torn(mac, 3);
    TornAt(mac, 3, 0);
    TornAt(mac, 3, 1);
    TornAt(mac, 3, 3);
    forall i | 4 <= i < 10 ensures t[i] == 0xff {
      TornAt(mac, 3, i);
    }
    assert t[4..] == [0xff, 0xff, 0xff, 0xff, 0xff, 0xff];
    CrcErasedAddress();
    assert t[..3] == [t[0], t[1], t[2]];
    CrcHeaderOfErased();
  }

  lemma EarlyTornRejected(mac: Mac, k: nat)
    requires k < 4
    ensures !Valid(Torn(mac, k))
  {
    if k == 2 {
      HeaderTornRejected(mac);
    } else if k == 3 {
      AddressTornRejected(mac);
    } else {
      TornAt(mac, k, k);
    }
  }

  /** A record cut short is accepted exactly when the cut falls behind its header and the erased bytes
      that stand in for the rest of the address have the same checksum. */
  lemma TornAcceptedIff(mac: Mac, k: nat)
    requires k <= 10
    ensures Valid(Torn(mac, k)) <==> k >= 4 && Crc(mac[..k - 4] + ERASED[k..]) == Crc(mac)
  {
    if k < 4 {
      EarlyTornRejected(mac, k);
    } else {
      var t, b := Torn(mac, k), Built(mac);
      BuiltReadsBack(mac);
      assert t[..3] == b[..3];
      assert t[4..] == mac[..k - 4] + ERASED[k..];
    }
  }

  /** A record that lacks only its last byte is accepted exactly when nothing is missing. */
  lemma LastByteTorn(mac: Mac)
    ensures Valid(Torn(mac, 9)) <==> Torn(mac, 9) == Built(mac)
  {
    BuiltReadsBack(mac);
    var t := Torn(mac, 9);
    assert t == Built(mac)[9 := 0xff];
    if Built(mac)[9] != 0xff {
      OneByteCaught(Built(mac), 9, 0xff);
    }
  }

  /** The checksum of a sample address. */
  lemma CrcSample()
    ensures Crc([0xc8, 0x47, 0x8c, 0x00, 0x00, 0x53]) == 0x14
  {
    EightShifts(0xc8);
    assert Mix(0x00, 0xc8) == 0xfe;
    EightShifts(0xb9);
    assert Mix(0xfe, 0x47) == 0x37;
    EightShifts(0xbb);
    assert Mix(0x37, 0x8c) == 0x55;
    EightShifts(0x55);
    assert Mix(0x55, 0x00) == 0x8b;
    EightShifts(0x8b);
    assert Mix(0x8b, 0x00) == 0x90;
    EightShifts(0xc3);
    assert Mix(0x90, 0x53) == 0x14;
    FoldSix(Mix, 0, 0xc8, 0x47, 0x8c, 0x00, 0x00, 0x53);
  }

  /** The sample address cut two bytes short has the same checksum. */
  lemma CrcSampleTorn()
    ensures Crc([0xc8, 0x47, 0x8c, 0x00, 0xff, 0xff]) == 0x14
  {
    EightShifts(0xc8);
    assert Mix(0x00, 0xc8) == 0xfe;
    EightShifts(0xb9);
    assert Mix(0xfe, 0x47) == 0x37;
    EightShifts(0xbb);
    assert Mix(0x37, 0x8c) == 0x55;
    EightShifts(0x55);
    assert Mix(0x55, 0x00) == 0x8b;
    EightShifts(0x74);
    assert Mix(0x8b, 0xff) == 0x3c;
    EightShifts(0xc3);
    assert Mix(0x3c, 0xff) == 0x14;
    FoldSix(Mix, 0, 0xc8, 0x47, 0x8c, 0x00, 0xff, 0xff);
  }

  lemma SampleCollides()
    ensures Crc([0xc8, 0x47, 0x8c, 0x00, 0xff, 0xff]) == Crc([0xc8, 0x47, 0x8c, 0x00, 0x00, 0x53])
  {
    CrcSample();
    CrcSampleTorn();
  }

  lemma CollisionAccepted(mac: Mac, shown: Mac)
    requires shown == mac[..4] + [0xff, 0xff] && Crc(shown) == Crc(mac)
    ensures Valid(Torn(mac, 8)) && Address(Torn(mac, 8)) == shown
  {
    TornAcceptedIff(mac, 8);
    assert ERASED[8..] == [0xff, 0xff];
    assert Address(Torn(mac, 8)) == shown;
  }

  /** Two missing bytes can go unnoticed: this record is accepted with the wrong address. */
  lemma TornAcceptedWitness()
    ensures var mac: Mac := [0xc8, 0x47, 0x8c, 0x00, 0x00, 0x53];
            Valid(Torn(mac, 8)) && Address(Torn(mac, 8)) == [0xc8, 0x47, 0x8c, 0x00, 0xff, 0xff]
  {
    SampleCollides();
    CollisionAccepted([0xc8, 0x47, 0x8c, 0x00, 0x00, 0x53], [0xc8, 0x47, 0x8c, 0x00, 0xff, 0xff]);
  }
}
