/** A key whose round function is zero: encryption is the identity, so codes can be read off their numbers.
    It shows that the assumptions of the worked schedules can be met. */
module PlainCodec {
  import opened Wrappers
  import opened Base36
  import Codes
  import Codec
  import Damm36
  import Ff1
  import Minting
  import Profanity
  import Radix

  const ZERO_ROUND: Ff1.Round := (t: string, i: nat, half: seq<Digit>) => 0

  const PLAIN: Codec.DuckCodec := Codec.DuckCodec(map[0 := Ff1.Keyed(ZERO_ROUND)], 0)

  lemma PlainIsValid()
    ensures Codec.Valid(PLAIN)
  {
    Ff1.FeistelPermutes(ZERO_ROUND);
    hide Ff1.Permutes;
  }

  // ----- Encryption is the identity ----------------------------------------------------------

  lemma RoundSwaps(t: string, i: nat, h: Ff1.Halves)
    ensures Ff1.Forward(ZERO_ROUND, t, i, h) == Ff1.Halves(h.b, h.a)
  {
    Ff1.ReadBound(h.a);
    Radix.ToFromDigits(RADIX, h.a);
    SmallMod(Ff1.ReadDigits(h.a), Ff1.Modulus(|h.a|));
  }

  lemma SmallMod(a: nat, m: nat)
    requires a < m
    ensures (a + 0) % m == a
  {
  }

  lemma {:induction false} EvenRoundsUndo(t: string, i: nat, h: Ff1.Halves)
    requires i <= Ff1.ROUNDS && i % 2 == 0
    ensures Ff1.Encipher(ZERO_ROUND, t, i, h) == h
    decreases Ff1.ROUNDS - i
  {
    hide Ff1.Forward;
    if i < Ff1.ROUNDS {
      RoundSwaps(t, i, h);
      RoundSwaps(t, i + 1, Ff1.Halves(h.b, h.a));
      EvenRoundsUndo(t, i + 2, h);
    }
  }

  lemma PlainEncryption(t: string, p: seq<Digit>)
    ensures PLAIN.ciphers[0].encrypt(t, p) == p
  {
    EvenRoundsUndo(t, 0, Ff1.Split(p));
    Ff1.SplitJoin(p, Ff1.Split(p));
  }

  // ----- Codes of figures are not rude ---------------------------------------------------------

  predicate IsFigure(c: char) {
    '0' <= c <= '9'
  }

  /** Every blocked word is at least three characters long and has a letter among its first two. */
  lemma WordsHaveLetters(k: nat)
    requires k < |Profanity.BLOCKED|
    ensures Lettered(Profanity.BLOCKED[k])
  {
  }

  predicate Lettered(w: string) {
    |w| >= 3 && (!IsFigure(w[0]) || !IsFigure(w[1]))
  }

  lemma FiguresAreNotRude(text: string)
    requires forall i | 0 <= i < |text| - 1 :: IsFigure(text[i])
    ensures !Profanity.Matches(text)
  {
    hide Profanity.BLOCKED;
    forall k | 0 <= k < |Profanity.BLOCKED|
      ensures !Profanity.Contains(Profanity.UpperText(text), Profanity.BLOCKED[k])
    {
      WordsHaveLetters(k);
      var (upper, w) := (Profanity.UpperText(text), Profanity.BLOCKED[k]);
      forall i | 0 <= i <= |upper| ensures !Profanity.StartsAt(upper, w, i) {
        if i + 2 < |text| {
          assert upper[i..][0] == text[i] && upper[i..][1] == text[i + 1];
        }
      }
    }
  }

  predicate IsNumeral(prefix: string) {
    |prefix| == 3 && forall i | 0 <= i < 3 :: IsFigure(prefix[i])
  }

  lemma NumeralIsPrefix(prefix: string)
    requires IsNumeral(prefix)
    ensures Codes.IsFlockCode(prefix) && !Profanity.Matches(prefix)
  {
    FiguresAreNotRude(prefix);
  }

  /** Under the plain key every prefix of figures prints its first code. */
  lemma PlainPrints(prefix: string)
    requires IsNumeral(prefix)
    ensures Codec.Valid(PLAIN) && Codes.IsFlockCode(prefix)
    ensures Minting.MintCode(PLAIN, 0, prefix, 1).Some?
  {
    hide Ff1.Keyed, Damm36.CheckDigit, Profanity.Matches, Codec.Valid;
    PlainIsValid();
    NumeralIsPrefix(prefix);
    PlainEncryption(prefix, Codec.ToDigits(1));
    FirstPayload();
    var body := DigitsOf(prefix) + Codec.ToDigits(1);
    var code := Codes.Assemble(prefix, Codec.ToDigits(1));
    assert code == Spell(body + [Damm36.CheckDigit(body)]);
    forall i | 0 <= i < |code| - 1 ensures IsFigure(code[i]) {
      assert code[i] == CharOf(body[i]);
      if i < 3 {
        assert DigitOf(prefix[i]) == Some(body[i]);
      }
    }
    FiguresAreNotRude(code);
  }

  lemma FirstPayload()
    ensures Codec.ToDigits(1) == [0, 0, 1]
  {
    assert Radix.Pow(36, 0) == 1;
    assert Radix.Pow(36, 1) == 36 * Radix.Pow(36, 0);
    assert Radix.Pow(36, 2) == 36 * Radix.Pow(36, 1);
  }
}
