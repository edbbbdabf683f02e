/** The alphabet of every printed code: `0-9A-Z`, read in either case. */
module Base36 {
  import opened Wrappers

  const RADIX: nat := 36

  type Digit = d: nat | d < RADIX

  /** ASCII upper-casing of one character. */
  function Upper(c: char): char {
    if 'a' <= c <= 'z' then (c as int - 'a' as int + 'A' as int) as char else c
  }

  function DigitOf(c: char): Option<Digit> {
    if '0' <= c <= '9' then Some(c as int - '0' as int)
    else if 'A' <= c <= 'Z' then Some(c as int - 'A' as int + 10)
    else if 'a' <= c <= 'z' then Some(c as int - 'a' as int + 10)
    else None
  }

  function CharOf(d: Digit): char {
    if d < 10 then ('0' as int + d) as char else ('A' as int + d - 10) as char
  }

  /** A character reads as digit `d` exactly when it is `d`'s canonical character up to case. */
  lemma {:induction false} DigitOfIsCaseFold(c: char, d: Digit)
    ensures DigitOf(c) == Some(d) <==> Upper(c) == CharOf(d)
  {
  }

  /** The canonical characters are the ones upper-casing leaves alone. */
  lemma CharOfCanonical(d: Digit)
    ensures DigitOf(CharOf(d)) == Some(d) && Upper(CharOf(d)) == CharOf(d)
  {
  }

  predicate IsDigit(c: char) {
    DigitOf(c).Some?
  }

  /** Digit values of a text whose characters were all checked on construction. */
  function DigitsOf(s: string): (ds: seq<Digit>)
    requires forall i | 0 <= i < |s| :: IsDigit(s[i])
    ensures |ds| == |s|
    ensures forall i | 0 <= i < |s| :: DigitOf(s[i]) == Some(ds[i])
  {
    if s == "" then [] else
      assert IsDigit(s[0]);
      [DigitOf(s[0]).value] + DigitsOf(s[1..])
  }

  function Spell(ds: seq<Digit>): (s: string)
    ensures |s| == |ds|
    ensures forall i | 0 <= i < |s| :: IsDigit(s[i]) && s[i] == CharOf(ds[i])
  {
    seq(|ds|, i requires 0 <= i < |ds| => CharOf(ds[i]))
  }

  lemma SpellDigits(ds: seq<Digit>)
    ensures DigitsOf(Spell(ds)) == ds
  {
    forall i | 0 <= i < |ds| ensures DigitsOf(Spell(ds))[i] == ds[i] {
      CharOfCanonical(ds[i]);
    }
  }
}
