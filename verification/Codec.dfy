/** `(flock, seq)` to printed code and back: FF1 over the three-digit payload, tweaked by the
    flock prefix, under the cipher of the flock's key generation. */
module Codec {
  import opened Wrappers
  import opened Base36
  import opened Codes
  import Ff1
  import Radix

  datatype DuckCodec = DuckCodec(ciphers: map<nat, Ff1.Cipher>, current: nat)

  datatype CodecError =
    | UnknownGeneration(generation: nat)
    | NoGenerations
    | CurrentKeyMissing(generation: nat)
    | SeqOutOfRange(value: nat)

  /** What every constructed codec satisfies. */
  ghost predicate Valid(c: DuckCodec) {
    && c.current in c.ciphers
    && forall g | g in c.ciphers :: Ff1.Permutes(c.ciphers[g])
  }

  /** The generation table; a generation listed twice keeps its last key. */
  function CollectKeys(keys: seq<(nat, Ff1.Round)>): map<nat, Ff1.Cipher> {
    if keys == [] then map[]
    else CollectKeys(keys[..|keys| - 1])[keys[|keys| - 1].0 := Ff1.Keyed(keys[|keys| - 1].1)]
  }

  function New(keys: seq<(nat, Ff1.Round)>, current: nat): Result<DuckCodec, CodecError> {
    var ciphers := CollectKeys(keys);
    if ciphers == map[] then Err(NoGenerations)
    else if current !in ciphers then Err(CurrentKeyMissing(current))
    else Ok(DuckCodec(ciphers, current))
  }

  lemma {:induction false} CollectedKeysPermute(keys: seq<(nat, Ff1.Round)>)
    ensures forall g | g in CollectKeys(keys) :: Ff1.Permutes(CollectKeys(keys)[g])
    ensures forall g :: g in CollectKeys(keys) <==> exists i | 0 <= i < |keys| :: keys[i].0 == g
  {
    if keys != [] {
      var init := keys[..|keys| - 1];
      CollectedKeysPermute(init);
      Ff1.FeistelPermutes(keys[|keys| - 1].1);
      forall g | g in CollectKeys(init) ensures exists i | 0 <= i < |keys| :: keys[i].0 == g {
        var i :| 0 <= i < |init| && init[i].0 == g;
        assert keys[i].0 == g;
      }
    }
  }

  /** A generation listed more than once keeps the last key listed for it. */
  lemma {:induction false} LastKeyWins(keys: seq<(nat, Ff1.Round)>, i: nat)
    requires i < |keys| && forall j | i < j < |keys| :: keys[j].0 != keys[i].0
    ensures keys[i].0 in CollectKeys(keys) && CollectKeys(keys)[keys[i].0] == Ff1.Keyed(keys[i].1)
  {
    if i < |keys| - 1 {
      LastKeyWins(keys[..|keys| - 1], i);
    }
  }

  /** Construction succeeds exactly when the current generation has a key; the codec then is valid, mints under that
      generation, and has for every generation listed the last key listed for it. */
  lemma {:induction false} NewIsValid(keys: seq<(nat, Ff1.Round)>, current: nat)
    ensures New(keys, current).Ok? <==> exists i | 0 <= i < |keys| :: keys[i].0 == current
    ensures New(keys, current).Ok? ==> Valid(New(keys, current).value) && New(keys, current).value.current == current
    ensures New(keys, current) == Err(NoGenerations) <==> keys == []
    ensures New(keys, current) == Err(CurrentKeyMissing(current))
            <==> keys != [] && forall i | 0 <= i < |keys| :: keys[i].0 != current
    ensures New(keys, current).Ok? ==>
              forall i: nat | i < |keys| && (forall j | i < j < |keys| :: keys[j].0 != keys[i].0) ::
                keys[i].0 in New(keys, current).value.ciphers
                && New(keys, current).value.ciphers[keys[i].0] == Ff1.Keyed(keys[i].1)
  {
    CollectedKeysPermute(keys);
    if keys != [] {
      assert keys[0].0 in CollectKeys(keys);
    }
    forall i: nat | i < |keys| && forall j | i < j < |keys| :: keys[j].0 != keys[i].0
      ensures keys[i].0 in CollectKeys(keys) && CollectKeys(keys)[keys[i].0] == Ff1.Keyed(keys[i].1)
    {
      LastKeyWins(keys, i);
    }
  }

  function ToDigits(value: nat): (ds: seq<Digit>)
    ensures |ds| == PAYLOAD_LEN
  {
    Radix.ToDigits(RADIX, PAYLOAD_LEN, value)
  }

  function FromDigits(ds: seq<Digit>): nat {
    Radix.FromDigits(RADIX, ds)
  }

  function Encode(c: DuckCodec, generation: nat, flock: string, seqNo: nat): Result<string, CodecError>
    requires Valid(c) && IsFlockCode(flock) && IsSeq(seqNo)
  {
    if generation !in c.ciphers then Err(UnknownGeneration(generation))
    else Ok(Assemble(flock, c.ciphers[generation].encrypt(flock, ToDigits(seqNo))))
  }

  function Decode(c: DuckCodec, generation: nat, code: string): Result<nat, CodecError>
    requires Valid(c) && IsDuckCode(code)
  {
    if generation !in c.ciphers then Err(UnknownGeneration(generation))
    else
      var value := FromDigits(c.ciphers[generation].decrypt(FlockOf(code), PayloadOf(code)));
      match NewSeq(value)
      case Ok(seqNo) => Ok(seqNo)
      case Err(_) => Err(SeqOutOfRange(value))
  }

  /** The payload domain holds every sequence number, with no 32-bit overflow either way. */
  lemma PayloadDomain(value: nat, ds: seq<Digit>)
    ensures value < 46656 ==> FromDigits(ToDigits(value)) == value
    ensures |ds| == PAYLOAD_LEN ==> FromDigits(ds) < 46656 < 0x1_0000_0000 && ToDigits(FromDigits(ds)) == ds
    ensures MAX_SEQ < 46656
  {
    assert Radix.Pow(36, 3) == 46656 by {
      assert Radix.Pow(36, 1) == 36 * Radix.Pow(36, 0);
      assert Radix.Pow(36, 2) == 36 * Radix.Pow(36, 1);
    }
    if value < 46656 {
      Radix.FromToDigits(RADIX, PAYLOAD_LEN, value);
    }
    if |ds| == PAYLOAD_LEN {
      Radix.FromDigitsBound(RADIX, ds);
      Radix.ToFromDigits(RADIX, ds);
    }
  }

  /** What encoding produces under a valid codec. */
  lemma EncodeShape(c: DuckCodec, g: nat, flock: string, seqNo: nat)
    requires Valid(c) && g in c.ciphers && IsFlockCode(flock) && IsSeq(seqNo)
    ensures var code := Encode(c, g, flock, seqNo);
            && code.Ok? && IsDuckCode(code.value) && FlockOf(code.value) == flock
            && PayloadOf(code.value) == c.ciphers[g].encrypt(flock, ToDigits(seqNo))
            && code.value == Assemble(flock, c.ciphers[g].encrypt(flock, ToDigits(seqNo)))
  {
    hide Assemble, IsDuckCode, ToDigits;
    AssembleParts(flock, c.ciphers[g].encrypt(flock, ToDigits(seqNo)));
  }

  /** Decoding undoes encoding. */
  lemma {:induction false} DecodeEncode(c: DuckCodec, g: nat, flock: string, seqNo: nat)
    requires Valid(c) && g in c.ciphers && IsFlockCode(flock) && IsSeq(seqNo)
    ensures Encode(c, g, flock, seqNo).Ok? && IsDuckCode(Encode(c, g, flock, seqNo).value)
    ensures Decode(c, g, Encode(c, g, flock, seqNo).value) == Ok(seqNo)
  {
    hide Encode, IsDuckCode, ToDigits, FromDigits, FlockOf, PayloadOf, Assemble;
    EncodeShape(c, g, flock, seqNo);
    PayloadDomain(seqNo, []);
  }

  /** Encoding undoes decoding: a code that decodes is the one code of its flock and number. */
  lemma {:induction false} EncodeDecode(c: DuckCodec, g: nat, code: string)
    requires Valid(c) && IsDuckCode(code)
    requires Decode(c, g, code).Ok?
    ensures var seqNo := Decode(c, g, code).value;
            IsSeq(seqNo) && Encode(c, g, FlockOf(code), seqNo) == Ok(code)
  {
    hide Encode, IsDuckCode, ToDigits, FromDigits, FlockOf, PayloadOf, Assemble;
    var payload := c.ciphers[g].decrypt(FlockOf(code), PayloadOf(code));
    var seqNo := Decode(c, g, code).value;
    PayloadDomain(0, payload);
    EncodeShape(c, g, FlockOf(code), seqNo);
    PartsDetermine(code);
  }

  /** Under a known generation, encoding and decoding are two readings of one relation. */
  lemma {:induction false} CodecIsBijection(c: DuckCodec, g: nat, flock: string, seqNo: nat, code: string)
    requires Valid(c) && g in c.ciphers && IsFlockCode(flock) && IsSeq(seqNo) && IsDuckCode(code)
    ensures Encode(c, g, flock, seqNo) == Ok(code) <==> FlockOf(code) == flock && Decode(c, g, code) == Ok(seqNo)
  {
    hide Encode, Decode, IsDuckCode, FlockOf;
    if Encode(c, g, flock, seqNo) == Ok(code) {
      EncodeShape(c, g, flock, seqNo);
      DecodeEncode(c, g, flock, seqNo);
    }
    if FlockOf(code) == flock && Decode(c, g, code) == Ok(seqNo) {
      EncodeDecode(c, g, code);
    }
  }

  /** No two (prefix, number) pairs share a code, whatever generations they were minted under. */
  lemma {:induction false} EncodeInjective(c: DuckCodec, g1: nat, f1: string, s1: nat, g2: nat, f2: string, s2: nat)
    requires Valid(c) && g1 in c.ciphers && g2 in c.ciphers
    requires IsFlockCode(f1) && IsFlockCode(f2) && IsSeq(s1) && IsSeq(s2)
    requires f1 == f2 ==> g1 == g2
    requires Encode(c, g1, f1, s1) == Encode(c, g2, f2, s2)
    ensures f1 == f2 && s1 == s2
  {
    hide Encode, Decode, IsDuckCode, FlockOf;
    EncodeShape(c, g1, f1, s1);
    EncodeShape(c, g2, f2, s2);
    DecodeEncode(c, g1, f1, s1);
    DecodeEncode(c, g2, f2, s2);
  }

  /** Rotating to a key under a generation not used before: new flocks use it, and every code of an older generation
      is encoded and decoded as it was. */
  lemma {:induction false} RotationKeepsCodes(keys: seq<(nat, Ff1.Round)>, current: nat, g: nat, key: Ff1.Round)
    requires New(keys, current).Ok? && forall i | 0 <= i < |keys| :: keys[i].0 != g
    ensures var (before, after) := (New(keys, current), New(keys + [(g, key)], g));
            && after.Ok? && after.value.current == g && Valid(before.value) && Valid(after.value)
            && (forall h, code | h != g && IsDuckCode(code) ::
                  Decode(after.value, h, code) == Decode(before.value, h, code))
            && (forall h, flock, seqNo | h != g && IsFlockCode(flock) && IsSeq(seqNo) ::
                  Encode(after.value, h, flock, seqNo) == Encode(before.value, h, flock, seqNo))
  {
    NewIsValid(keys, current);
    NewIsValid(keys + [(g, key)], g);
    assert (keys + [(g, key)])[..|keys|] == keys;
    assert (keys + [(g, key)])[|keys|].0 == g;
    hide CollectKeys, IsDuckCode, IsFlockCode, IsSeq, Encode, Decode;
    var (before, after) := (New(keys, current).value, New(keys + [(g, key)], g).value);
    forall h, code | h != g && IsDuckCode(code) ensures Decode(after, h, code) == Decode(before, h, code) {
      SameCipher(before, after, h);
    }
    forall h, flock, seqNo | h != g && IsFlockCode(flock) && IsSeq(seqNo)
      ensures Encode(after, h, flock, seqNo) == Encode(before, h, flock, seqNo)
    {
      SameCipher(before, after, h);
    }
  }

  lemma SameCipher(a: DuckCodec, b: DuckCodec, h: nat)
    requires Valid(a) && Valid(b)
    requires h in a.ciphers <==> h in b.ciphers
    requires h in a.ciphers ==> a.ciphers[h] == b.ciphers[h]
    ensures forall code | IsDuckCode(code) :: Decode(a, h, code) == Decode(b, h, code)
    ensures forall flock, seqNo | IsFlockCode(flock) && IsSeq(seqNo) ::
              Encode(a, h, flock, seqNo) == Encode(b, h, flock, seqNo)
  {
    hide IsDuckCode, IsFlockCode, IsSeq, Assemble, FromDigits, ToDigits, FlockOf, PayloadOf;
  }
}
