/** The shape of FF1 (section 5.1 of NIST SP 800-38G): a ten-round Feistel network over
    digit strings whose keyed round function is left abstract. Ciphers are first-class
    values, so the codec can hold one per key generation. */
module Ff1 {
  import opened Base36
  import opened Radix

  /** The number a key derives from tweak, round index and the untouched half. */
  type Round = (string, nat, seq<Digit>) -> nat

  datatype Cipher = Cipher(encrypt: (string, seq<Digit>) -> seq<Digit>,
                           decrypt: (string, seq<Digit>) -> seq<Digit>)

  /** Under every tweak the two directions permute the digit strings of each length. */
  ghost predicate Permutes(c: Cipher) {
    forall t: string, p: seq<Digit> ::
      && |c.encrypt(t, p)| == |p|
      && |c.decrypt(t, p)| == |p|
      && c.decrypt(t, c.encrypt(t, p)) == p
      && c.encrypt(t, c.decrypt(t, p)) == p
  }

  const ROUNDS: nat := 10

  datatype Halves = Halves(a: seq<Digit>, b: seq<Digit>)

  /** Even rounds rewrite the left part, odd rounds the right one. */
  function Width(n: nat, i: nat): nat {
    if i % 2 == 0 then n / 2 else n - n / 2
  }

  predicate Fits(n: nat, i: nat, h: Halves) {
    |h.a| == Width(n, i) && |h.b| == n - Width(n, i)
  }

  function ReadDigits(ds: seq<Digit>): nat {
    FromDigits(RADIX, ds)
  }

  function WriteDigits(m: nat, v: nat): (ds: seq<Digit>)
    ensures |ds| == m
  {
    ToDigits(RADIX, m, v)
  }

  function Modulus(m: nat): (p: nat)
    ensures p > 0
  {
    PowPositive(RADIX, m);
    Pow(RADIX, m)
  }

  function Forward(f: Round, t: string, i: nat, h: Halves): Halves {
    var m := |h.a|;
    Halves(h.b, WriteDigits(m, (ReadDigits(h.a) + f(t, i, h.b)) % Modulus(m)))
  }

  function Backward(f: Round, t: string, i: nat, h: Halves): Halves {
    var m := |h.b|;
    Halves(WriteDigits(m, (ReadDigits(h.b) - f(t, i, h.a)) % Modulus(m)), h.a)
  }

  /** Rounds `i`, `i + 1`, ..., 9. */
  function Encipher(f: Round, t: string, i: nat, h: Halves): Halves
    decreases ROUNDS - i
  {
    if i >= ROUNDS then h else Encipher(f, t, i + 1, Forward(f, t, i, h))
  }

  /** Rounds `i - 1`, ..., 0 undone. */
  function Decipher(f: Round, t: string, i: nat, h: Halves): Halves {
    if i == 0 then h else Decipher(f, t, i - 1, Backward(f, t, i - 1, h))
  }

  function Split(p: seq<Digit>): Halves {
    Halves(p[..|p| / 2], p[|p| / 2..])
  }

  function Join(h: Halves): seq<Digit> {
    h.a + h.b
  }

  function Keyed(f: Round): Cipher {
    Cipher((t, p) => Join(Encipher(f, t, 0, Split(p))),
           (t, p) => Join(Decipher(f, t, ROUNDS, Split(p))))
  }

  // ----- Each round is undone ---------------------------------------------

  lemma ModUndo(a: int, k: int, m: int)
    requires 0 <= a < m
    ensures ((a + k) % m - k) % m == a
    ensures ((a - k) % m + k) % m == a
  {
    ModShift(a, k, m);
    ModShift(a, -k, m);
  }

  lemma ModShift(a: int, k: int, m: int)
    requires 0 <= a < m
    ensures ((a + k) % m - k) % m == a
  {
    var q := (a + k) / m;
    var c := (a + k) % m;
    assert a + k == m * q + c;
    assert c - k == a + m * (-q);
    assert (-q) * m <= c - k < (-q) * m + m;
    DivUnique(c - k, m, -q);
  }

  lemma ReadBound(ds: seq<Digit>)
    ensures ReadDigits(ds) < Modulus(|ds|)
  {
    FromDigitsBound(RADIX, ds);
  }

  lemma RoundUndone(f: Round, t: string, i: nat, h: Halves)
    ensures Backward(f, t, i, Forward(f, t, i, h)) == h
    ensures Forward(f, t, i, Backward(f, t, i, h)) == h
  {
    hide WriteDigits, ReadDigits, Modulus;
    UndoWord(h.a, f(t, i, h.b));
    UndoWord(h.b, f(t, i, h.a));
  }

  lemma UndoWord(ds: seq<Digit>, k: nat)
    ensures var m := |ds|;
            && WriteDigits(m, (ReadDigits(WriteDigits(m, (ReadDigits(ds) + k) % Modulus(m))) - k) % Modulus(m)) == ds
            && WriteDigits(m, (ReadDigits(WriteDigits(m, (ReadDigits(ds) - k) % Modulus(m))) + k) % Modulus(m)) == ds
  {
    var m := |ds|;
    ReadBound(ds);
    ModUndo(ReadDigits(ds), k, Modulus(m));
    FromToDigits(RADIX, m, (ReadDigits(ds) + k) % Modulus(m));
    FromToDigits(RADIX, m, (ReadDigits(ds) - k) % Modulus(m));
    ToFromDigits(RADIX, ds);
  }

  lemma {:induction false} EncipherFits(f: Round, t: string, n: nat, i: nat, h: Halves)
    requires i <= ROUNDS && Fits(n, i, h)
    ensures Fits(n, ROUNDS, Encipher(f, t, i, h))
    decreases ROUNDS - i
  {
    if i < ROUNDS {
      EncipherFits(f, t, n, i + 1, Forward(f, t, i, h));
    }
  }

  lemma {:induction false} DecipherFits(f: Round, t: string, n: nat, i: nat, h: Halves)
    requires Fits(n, i, h)
    ensures Fits(n, 0, Decipher(f, t, i, h))
  {
    if i > 0 {
      DecipherFits(f, t, n, i - 1, Backward(f, t, i - 1, h));
    }
  }

  lemma {:induction false} DecipherUndoesEncipher(f: Round, t: string, i: nat, h: Halves)
    requires i <= ROUNDS
    ensures Decipher(f, t, ROUNDS, Encipher(f, t, i, h)) == Decipher(f, t, i, h)
    decreases ROUNDS - i
  {
    hide Forward, Backward;
    if i < ROUNDS {
      DecipherUndoesEncipher(f, t, i + 1, Forward(f, t, i, h));
      RoundUndone(f, t, i, h);
    }
  }

  lemma {:induction false} EncipherUndoesDecipher(f: Round, t: string, i: nat, h: Halves)
    requires i <= ROUNDS
    ensures Encipher(f, t, 0, Decipher(f, t, i, h)) == Encipher(f, t, i, h)
  {
    hide Forward, Backward;
    if i > 0 {
      EncipherUndoesDecipher(f, t, i - 1, Backward(f, t, i - 1, h));
      RoundUndone(f, t, i - 1, h);
      assert Encipher(f, t, i - 1, Backward(f, t, i - 1, h)) == Encipher(f, t, i, h);
    }
  }

  lemma SplitJoin(p: seq<Digit>, h: Halves)
    ensures Join(Split(p)) == p
    ensures |h.a| == (|h.a| + |h.b|) / 2 ==> Split(Join(h)) == h
  {
    assert Join(Split(p)) == p;
    if |h.a| == (|h.a| + |h.b|) / 2 {
      assert Join(h)[..|h.a|] == h.a && Join(h)[|h.a|..] == h.b;
    }
  }

  /** Whatever the round function, the network is a length- and radix-preserving permutation
      and decryption is its inverse on both sides. */
  lemma FeistelPermutes(f: Round)
    ensures Permutes(Keyed(f))
  {
    var c := Keyed(f);
    forall t: string, p: seq<Digit>
      ensures |c.encrypt(t, p)| == |p| && c.decrypt(t, c.encrypt(t, p)) == p
      ensures |c.decrypt(t, p)| == |p| && c.encrypt(t, c.decrypt(t, p)) == p
    {
      var h := Split(p);
      var e := Encipher(f, t, 0, h);
      var d := Decipher(f, t, ROUNDS, h);
      EncipherFits(f, t, |p|, 0, h);
      DecipherFits(f, t, |p|, ROUNDS, h);
      SplitJoin(p, e);
      SplitJoin(p, d);
      DecipherUndoesEncipher(f, t, 0, h);
      EncipherUndoesDecipher(f, t, ROUNDS, h);
    }
  }
}
