/** platform.ID: a 64-bit identifier, zero being invalid, and its codec of
    sixteen lower-case hexadecimal bytes. */
module Ids {
  import opened Wrappers
  import opened Bytes

  const ID_LENGTH := 16
  const TWO64 := 0x1_0000_0000_0000_0000

  type Id = x: int | 0 <= x < TWO64

  datatype IdError = InvalidId | InvalidIdLength

  predicate Valid(i: Id) {
    i != 0
  }

  function HexByte(d: int): (b: Byte)
    requires 0 <= d < 16
    ensures if d < 10 then b == 48 + d else b == 87 + d
  {
    if d < 10 then 48 + d else 87 + d
  }

  /** The value of one hexadecimal digit; both letter cases are read. */
  function HexValue(b: Byte): (d: Option<int>)
    ensures d.Some? ==> 0 <= d.value < 16
  {
    if 48 <= b <= 57 then Some(b - 48)
    else if 97 <= b <= 102 then Some(b - 87)
    else if 65 <= b <= 70 then Some(b - 55)
    else None
  }

  function Pow16(len: nat): (p: nat)
    ensures p >= 1
  {
    if len == 0 then 1 else 16 * Pow16(len - 1)
  }

  /** Big-endian digits of `n`, exactly `len` of them. */
  function Hex(n: nat, len: nat): (r: Key)
    ensures |r| == len
  {
    if len == 0 then [] else Hex(n / 16, len - 1) + [HexByte(n % 16)]
  }

  lemma {:induction false} HexAlphabet(n: nat, len: nat)
    ensures forall b :: b in Hex(n, len) ==> 48 <= b <= 57 || 97 <= b <= 102
  {
    if len == 0 {
    } else {
      HexAlphabet(n / 16, len - 1);
    }
  }

  /** strconv.ParseUint(s, 16, 64) on a non-empty string short enough not to overflow. */
  function ParseHex(s: Key): (r: Option<nat>) {
    if s == [] then Some(0)
    else
      var init := ParseHex(s[..|s| - 1]);
      var d := HexValue(s[|s| - 1]);
      if init.Some? && d.Some? then Some(16 * init.value + d.value) else None
  }

  lemma {:induction false} ParseHexBound(s: Key)
    ensures ParseHex(s).Some? ==> ParseHex(s).value < Pow16(|s|)
  {
    if s == [] {
    } else {
      ParseHexBound(s[..|s| - 1]);
    }
  }

  lemma OneDigitLess(n: nat, p: nat)
    requires n < 16 * p
    ensures n / 16 < p && 16 * (n / 16) + n % 16 == n
  {
  }

  lemma ParseHexAppend(s: Key, d: int)
    requires 0 <= d < 16 && ParseHex(s).Some?
    ensures ParseHex(s + [HexByte(d)]) == Some(16 * ParseHex(s).value + d)
  {
    var r := s + [HexByte(d)];
    assert r[..|r| - 1] == s;
  }

  lemma {:induction false} ParseHexOfHex(n: nat, len: nat)
    requires n < Pow16(len)
    ensures ParseHex(Hex(n, len)) == Some(n)
  {
    if len == 0 {
    } else {
      OneDigitLess(n, Pow16(len - 1));
      ParseHexOfHex(n / 16, len - 1);
      ParseHexAppend(Hex(n / 16, len - 1), n % 16);
    }
  }

  /** Comparing encodings compares numbers. */
  lemma {:induction false} HexLess(m: nat, n: nat, len: nat)
    requires m < n < Pow16(len)
    ensures Less(Hex(m, len), Hex(n, len))
  {
    if len == 0 {
    } else {
      var a, b := Hex(m / 16, len - 1), Hex(n / 16, len - 1);
      var x, y := [HexByte(m % 16)], [HexByte(n % 16)];
      if m / 16 < n / 16 {
        HexLess(m / 16, n / 16, len - 1);
        LessIrreflexive(a);
        LessSameLengthHeads(a, b, x, y);
      } else {
        LessAppend(a, x, y);
      }
    }
  }

  lemma Pow16At16()
    ensures Pow16(16) == TWO64
  {
    assert Pow16(4) == 65536;
    assert Pow16(8) == 65536 * 65536;
    assert Pow16(12) == 65536 * 65536 * 65536;
  }

  /** The bytes under which a valid id is stored. */
  function Enc(i: Id): (k: Key)
    requires Valid(i)
    ensures |k| == ID_LENGTH
  {
    Hex(i, ID_LENGTH)
  }

  function Decode(b: Key): (r: Result<Id, IdError>)
    ensures r.Ok? ==> Valid(r.value) && |b| == ID_LENGTH
  {
    if |b| != ID_LENGTH then Err(InvalidIdLength)
    else
      var v := ParseHex(b);
      if v.None? then Err(InvalidId)
      else
        ParseHexBound(b);
        Pow16At16();
        var i: Id := v.value;
        if Valid(i) then Ok(i) else Err(InvalidId)
  }

  lemma {:induction false} ParseHexFailsIff(s: Key)
    ensures ParseHex(s).None? <==> exists i :: 0 <= i < |s| && HexValue(s[i]).None?
  {
    if s == [] {
    } else {
      ParseHexFailsIff(s[..|s| - 1]);
    }
  }

  /** What is no id: another length, a byte that is no hexadecimal digit, or the zero id. */
  lemma DecodeAnswers(b: Key)
    ensures Decode(b) == Err(InvalidIdLength) <==> |b| != 16
    ensures Decode(b) == Err(InvalidId) <==>
            |b| == 16 && ((exists i :: 0 <= i < |b| && !(48 <= b[i] <= 57 || 97 <= b[i] <= 102 || 65 <= b[i] <= 70))
                          || ParseHex(b) == Some(0))
  {
    ParseHexFailsIff(b);
  }

  /** Decoding undoes encoding, for every valid id. */
  lemma DecodeEncode(i: Id)
    requires Valid(i)
    ensures Decode(Enc(i)) == Ok(i)
  {
    Pow16At16();
    ParseHexOfHex(i, ID_LENGTH);
  }

  lemma EncInjective(i: Id, j: Id)
    requires Valid(i) && Valid(j) && Enc(i) == Enc(j)
    ensures i == j
  {
    DecodeEncode(i);
    DecodeEncode(j);
  }

  /** Key order is id order, so a bucket keyed by id is scanned in id order. */
  lemma EncOrder(i: Id, j: Id)
    requires Valid(i) && Valid(j)
    ensures Less(Enc(i), Enc(j)) <==> i < j
  {
    Pow16At16();
    if i < j { HexLess(i, j, ID_LENGTH); }
    if i == j { LessIrreflexive(Enc(i)); }
    if j < i {
      HexLess(j, i, ID_LENGTH);
      if Less(Enc(i), Enc(j)) {
        LessTransitive(Enc(i), Enc(j), Enc(i));
        LessIrreflexive(Enc(i));
      }
    }
  }

  /** Two encoded ids in a row: the key of the org-dashboard index and of the
      cell-view bucket. */
  function EncPair(a: Id, b: Id): (k: Key)
    requires Valid(a) && Valid(b)
    ensures |k| == 2 * ID_LENGTH
  {
    Enc(a) + Enc(b)
  }

  lemma EncPairParts(a: Id, b: Id)
    requires Valid(a) && Valid(b)
    ensures EncPair(a, b)[..ID_LENGTH] == Enc(a)
    ensures EncPair(a, b)[ID_LENGTH..] == Enc(b)
    ensures Decode(EncPair(a, b)[..ID_LENGTH]) == Ok(a)
    ensures Decode(EncPair(a, b)[ID_LENGTH..]) == Ok(b)
  {
    assert EncPair(a, b)[..ID_LENGTH] == Enc(a);
    assert EncPair(a, b)[ID_LENGTH..] == Enc(b);
    DecodeEncode(a);
    DecodeEncode(b);
  }

  lemma EncPairInjective(a: Id, b: Id, c: Id, d: Id)
    requires Valid(a) && Valid(b) && Valid(c) && Valid(d)
    requires EncPair(a, b) == EncPair(c, d)
    ensures a == c && b == d
  {
    EncPairParts(a, b);
    EncPairParts(c, d);
  }
}
