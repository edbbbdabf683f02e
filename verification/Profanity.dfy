/** Substring blocklist for generated identifiers. */
module Profanity {
  import Base36

  const BLOCKED: seq<string> :=
    ["ANAL", "ANUS", "ARSE", "ASS", "A55", "BOOB", "CNT", "COC", "COK", "CRAP"]
    + ["CUM", "CUNT", "DAMN", "DCK", "DICK", "DIK", "DYKE", "FAG", "FCK", "FUC"]
    + ["FUK", "FUX", "GAY", "GOOK", "HELL", "HOMO", "JIZ", "KKK", "KYKE", "MILF"]
    + ["NAZI", "NIG", "PEDO", "PISS", "PIS", "PORN", "PUSY", "RAPE", "SEX", "5EX"]
    + ["SHIT", "SLUT", "SPIC", "TIT", "TURD", "TWAT", "TWT", "VAG", "WANK", "WHOR"]

  predicate Contains(text: string, word: string) {
    exists i | 0 <= i <= |text| :: StartsAt(text, word, i)
  }

  predicate StartsAt(text: string, word: string, i: nat)
    requires i <= |text|
  {
    word <= text[i..]
  }

  function UpperText(text: string): string {
    seq(|text|, i requires 0 <= i < |text| => Base36.Upper(text[i]))
  }

  predicate Matches(text: string) {
    exists k | 0 <= k < |BLOCKED| :: Contains(UpperText(text), BLOCKED[k])
  }

  /** The character is the letter `w`, in either case, or `w` itself. */
  predicate SameLetter(c: char, w: char) {
    (c == w && !('a' <= c <= 'z')) || ('A' <= w <= 'Z' && c as int == w as int + 32)
  }

  /** The word stands in the text at position `i`, in any mixture of cases. */
  predicate Spelled(text: string, word: string, i: nat) {
    i + |word| <= |text| && forall j | 0 <= j < |word| :: SameLetter(text[i + j], word[j])
  }

  lemma SpelledIff(text: string, word: string, i: nat)
    requires i <= |text|
    ensures StartsAt(UpperText(text), word, i) <==> Spelled(text, word, i)
  {
    var upper := UpperText(text);
    if StartsAt(upper, word, i) {
      assert forall j | 0 <= j < |word| :: word[j] == upper[i..][j] == upper[i + j];
    }
    if Spelled(text, word, i) {
      assert forall j | 0 <= j < |word| :: SameLetter(text[i + j], word[j]) && upper[i..][j] == upper[i + j] == word[j];
      assert word == upper[i..][..|word|];
    }
  }

  /** A text is rude exactly when some blocked word stands somewhere in it. */
  lemma MatchesIff(text: string)
    ensures Matches(text) <==> exists k, i: nat | 0 <= k < |BLOCKED| :: Spelled(text, BLOCKED[k], i)
  {
    hide Spelled, StartsAt;
    if Matches(text) {
      var k :| 0 <= k < |BLOCKED| && Contains(UpperText(text), BLOCKED[k]);
      var i :| 0 <= i <= |text| && StartsAt(UpperText(text), BLOCKED[k], i);
      SpelledIff(text, BLOCKED[k], i);
    }
    if k, i: nat :| 0 <= k < |BLOCKED| && Spelled(text, BLOCKED[k], i) {
      SpelledFits(text, BLOCKED[k], i);
      SpelledIff(text, BLOCKED[k], i);
      assert Contains(UpperText(text), BLOCKED[k]);
    }
  }

  lemma SpelledFits(text: string, word: string, i: nat)
    requires Spelled(text, word, i)
    ensures i <= |text|
  {
  }
}
