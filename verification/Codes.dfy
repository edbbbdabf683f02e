/** Flock prefixes, flock sequence numbers and the printed seven-character duck code. */
module Codes {
  import opened Wrappers
  import opened Base36
  import Damm36

  const MAX_SEQ: nat := 10000
  const FLOCK_LEN: nat := 3
  const PAYLOAD_LEN: nat := 3
  const CODE_LEN: nat := 7

  predicate IsSeq(seqNo: int) {
    1 <= seqNo <= MAX_SEQ
  }

  datatype SeqError = OutOfRange(raw: nat)

  function NewSeq(raw: nat): Result<nat, SeqError> {
    if raw < 0x1_0000 && IsSeq(raw) then Ok(raw) else Err(OutOfRange(raw))
  }

  /** A character in its printed form: a base36 digit, upper case. */
  predicate IsPrinted(c: char) {
    IsDigit(c) && Upper(c) == c
  }

  predicate AllPrinted(s: string) {
    forall i | 0 <= i < |s| :: IsPrinted(s[i])
  }

  predicate IsFlockCode(s: string) {
    |s| == FLOCK_LEN && AllPrinted(s)
  }

  predicate IsDuckCode(s: string) {
    |s| == CODE_LEN && AllPrinted(s) && Damm36.Validate(DigitsOf(s))
  }

  datatype CodeError = BadLength(got: nat) | BadChar(c: char) | BadChecksum

  // ----- Parsing ----------------------------------------------------------

  predicate IsSeparator(c: char) {
    c == '-' || c == ' ' || c == '.'
  }

  /** Canonical text of a run of characters, or the first that is no digit. */
  function Canonicalize(raw: string): Result<string, CodeError> {
    if raw == "" then Ok("")
    else if !IsDigit(raw[0]) then Err(BadChar(raw[0]))
    else
      match Canonicalize(raw[1..])
      case Err(e) => Err(e)
      case Ok(rest) => Ok([CharOf(DigitOf(raw[0]).value)] + rest)
  }

  function StripSeparators(raw: string): string {
    if raw == "" then ""
    else if IsSeparator(raw[0]) then StripSeparators(raw[1..])
    else [raw[0]] + StripSeparators(raw[1..])
  }

  function ParseFlock(raw: string): Result<string, CodeError> {
    if |raw| != FLOCK_LEN then Err(BadLength(|raw|)) else Canonicalize(raw)
  }

  function ParseDuck(raw: string): Result<string, CodeError> {
    match Canonicalize(StripSeparators(raw))
    case Err(e) => Err(e)
    case Ok(text) =>
      if |text| != CODE_LEN then Err(BadLength(|text|))
      else
        CanonicalizeSpells(StripSeparators(raw), text);
        if Damm36.Validate(DigitsOf(text)) then Ok(text) else Err(BadChecksum)
  }

  /** `raw` is `text` in any letter case with dashes, dots and blanks inserted anywhere. */
  predicate Spells(raw: string, text: string) {
    if raw == "" then text == ""
    else if raw[0] == '-' || raw[0] == ' ' || raw[0] == '.' then Spells(raw[1..], text)
    else text != "" && Upper(raw[0]) == text[0] && Spells(raw[1..], text[1..])
  }

  lemma {:induction false} CanonicalizeSpells(raw: string, text: string)
    requires Canonicalize(raw) == Ok(text)
    ensures |text| == |raw| && AllPrinted(text)
  {
    if raw != "" {
      var d := DigitOf(raw[0]).value;
      CharOfCanonical(d);
      CanonicalizeSpells(raw[1..], text[1..]);
      forall i | 0 <= i < |text| ensures IsPrinted(text[i]) {
        if i > 0 {
          assert text[i] == text[1..][i - 1];
        }
      }
    }
  }

  /** Normalising succeeds with exactly the printed text the input spells. */
  lemma {:induction false} NormalizeSpells(raw: string, text: string)
    ensures Canonicalize(StripSeparators(raw)) == Ok(text) <==> Spells(raw, text) && AllPrinted(text)
  {
    if raw != "" {
      var rest := StripSeparators(raw[1..]);
      if IsSeparator(raw[0]) {
        NormalizeSpells(raw[1..], text);
      } else {
        assert StripSeparators(raw)[0] == raw[0] && StripSeparators(raw)[1..] == rest;
        if text != "" {
          NormalizeSpells(raw[1..], text[1..]);
          PrintedHead(raw[0], text);
          assert text == [text[0]] + text[1..];
        }
      }
    }
  }

  lemma PrintedHead(c: char, text: string)
    requires text != ""
    ensures AllPrinted(text) <==> IsPrinted(text[0]) && AllPrinted(text[1..])
    ensures IsDigit(c) && CharOf(DigitOf(c).value) == text[0] <==> Upper(c) == text[0] && IsPrinted(text[0])
  {
    if AllPrinted(text) {
      assert forall i | 0 <= i < |text| - 1 :: text[1..][i] == text[i + 1];
    }
    if IsPrinted(text[0]) && AllPrinted(text[1..]) {
      assert forall i | 1 <= i < |text| :: text[i] == text[1..][i - 1];
    }
    if IsDigit(c) {
      DigitOfIsCaseFold(c, DigitOf(c).value);
      CharOfCanonical(DigitOf(c).value);
    }
    if IsDigit(text[0]) {
      DigitOfIsCaseFold(c, DigitOf(text[0]).value);
      DigitOfIsCaseFold(text[0], DigitOf(text[0]).value);
    }
  }

  /** Parsing accepts exactly the respellings of duck codes, and returns the code itself. */
  lemma ParseAcceptsSpellings(raw: string, code: string)
    ensures ParseDuck(raw) == Ok(code) <==> Spells(raw, code) && IsDuckCode(code)
  {
    NormalizeSpells(raw, code);
  }

  /** The first offending character, else the length, else the checksum decides the error. */
  lemma ParseErrors(raw: string, e: CodeError)
    requires ParseDuck(raw) == Err(e)
    ensures match e
            case BadChar(c) =>
              exists i | 0 <= i < |raw| ::
                && raw[i] == c && !IsSeparator(c) && !IsDigit(c)
                && forall j | 0 <= j < i :: IsSeparator(raw[j]) || IsDigit(raw[j])
            case BadLength(n) => n != CODE_LEN && exists text :: SpellsText(raw, text) && |text| == n
            case BadChecksum =>
              exists text :: SpellsText(raw, text) && |text| == CODE_LEN && !Damm36.Validate(DigitsOf(text))
  {
    hide Damm36.Validate, DigitsOf, Spells, AllPrinted, StripSeparators, Canonicalize, IsSeparator, IsDigit;
    match Canonicalize(StripSeparators(raw))
    case Ok(text) =>
      NormalizeSpells(raw, text);
      assert SpellsText(raw, text);
    case Err(_) =>
      FirstBadChar(raw, e);
  }

  /** `raw` respells the printed text `text`, which need not be a valid code. */
  ghost predicate SpellsText(raw: string, text: string) {
    Spells(raw, text) && AllPrinted(text)
  }

  lemma {:induction false} FirstBadChar(raw: string, e: CodeError)
    requires Canonicalize(StripSeparators(raw)) == Err(e)
    ensures e.BadChar?
    ensures exists i | 0 <= i < |raw| ::
              && raw[i] == e.c && !IsSeparator(e.c) && !IsDigit(e.c)
              && forall j | 0 <= j < i :: IsSeparator(raw[j]) || IsDigit(raw[j])
  {
    if IsSeparator(raw[0]) || IsDigit(raw[0]) {
      if !IsSeparator(raw[0]) {
        assert StripSeparators(raw)[1..] == StripSeparators(raw[1..]);
      }
      FirstBadChar(raw[1..], e);
      var i :| 0 <= i < |raw| - 1 && raw[1..][i] == e.c && !IsSeparator(e.c) && !IsDigit(e.c)
               && forall j | 0 <= j < i :: IsSeparator(raw[1..][j]) || IsDigit(raw[1..][j]);
      assert forall j | 1 <= j < i + 1 :: raw[j] == raw[1..][j - 1];
      assert raw[i + 1] == e.c;
    } else {
      assert raw[0] == e.c;
    }
  }

  lemma {:induction false} PrintedSpellsItself(text: string)
    requires AllPrinted(text)
    ensures Spells(text, text)
  {
    if text != "" {
      assert IsPrinted(text[0]);
      PrintedHead(text[0], text);
      PrintedSpellsItself(text[1..]);
    }
  }

  lemma {:induction false} SeparatorInserted(head: string, tail: string, c: char)
    requires AllPrinted(head) && AllPrinted(tail) && IsSeparator(c)
    ensures Spells(head + [c] + tail, head + tail)
  {
    hide AllPrinted, Upper;
    if head == "" {
      assert head + [c] + tail == [c] + tail && head + tail == tail;
      PrintedSpellsItself(tail);
    } else {
      PrintedHead(head[0], head);
      PrintedTail(head);
      SeparatorInserted(head[1..], tail, c);
      SpellsCons(head[0], head[1..] + [c] + tail, head[1..] + tail);
      assert head + [c] + tail == [head[0]] + (head[1..] + [c] + tail);
      assert head + tail == [head[0]] + (head[1..] + tail);
    }
  }

  lemma PrintedTail(text: string)
    requires text != "" && AllPrinted(text)
    ensures AllPrinted(text[1..]) && !IsSeparator(text[0]) && Upper(text[0]) == text[0]
  {
    assert IsPrinted(text[0]);
    PrintedHead(text[0], text);
  }

  lemma SpellsCons(c: char, raw: string, text: string)
    requires Spells(raw, text) && !IsSeparator(c) && Upper(c) == c
    ensures Spells([c] + raw, [c] + text)
  {
    assert ([c] + raw)[1..] == raw && ([c] + text)[1..] == text;
  }

  function DisplayGrouped(code: string): string
    requires IsDuckCode(code)
  {
    code[..FLOCK_LEN] + "-" + code[FLOCK_LEN..]
  }

  /** Both printed forms of a code read back as that code. */
  lemma PrintedFormsParse(code: string)
    requires IsDuckCode(code)
    ensures ParseDuck(code) == Ok(code)
    ensures ParseDuck(DisplayGrouped(code)) == Ok(code)
  {
    PrintedSpellsItself(code);
    ParseAcceptsSpellings(code, code);
    SeparatorInserted(code[..FLOCK_LEN], code[FLOCK_LEN..], '-');
    assert code[..FLOCK_LEN] + code[FLOCK_LEN..] == code;
    ParseAcceptsSpellings(DisplayGrouped(code), code);
  }

  // ----- Parts of a code ----------------------------------------------------

  /** The prefix and payload digits are copied slot by slot into a fixed array. */
  method FillDigits(text: string) returns (out: array<Digit>)
    requires AllPrinted(text)
    ensures out[..] == DigitsOf(text)
  {
    hide DigitOf, DigitsOf, Upper;
    out := new Digit[|text|](_ => 0);
    var i := 0;
    while i < |text|
      invariant 0 <= i <= |text| == out.Length
      invariant forall k | 0 <= k < i :: out[k] == DigitsOf(text)[k]
    {
      assert IsPrinted(text[i]);
      out[i] := DigitOf(text[i]).value;
      i := i + 1;
    }
  }

  lemma PrintedSlice(s: string, lo: nat, hi: nat)
    requires AllPrinted(s) && lo <= hi <= |s|
    ensures AllPrinted(s[lo..hi])
    ensures DigitsOf(s[lo..hi]) == DigitsOf(s)[lo..hi]
  {
    hide DigitOf, DigitsOf, Upper;
    var (slice, all) := (DigitsOf(s[lo..hi]), DigitsOf(s));
    forall i | 0 <= i < hi - lo ensures slice[i] == all[lo + i] {
      assert s[lo..hi][i] == s[lo + i];
    }
  }

  lemma {:induction false} CanonicalizePrinted(s: string)
    requires AllPrinted(s)
    ensures Canonicalize(s) == Ok(s)
  {
    if s != "" {
      PrintedHead(s[0], s);
      CanonicalizePrinted(s[1..]);
      assert s == [s[0]] + s[1..];
    }
  }

  function FlockOf(code: string): (f: string)
    requires IsDuckCode(code)
    ensures IsFlockCode(f)
  {
    PrintedSlice(code, 0, FLOCK_LEN);
    CanonicalizePrinted(code[..FLOCK_LEN]);
    ParseFlock(code[..FLOCK_LEN]).value
  }

  function PayloadOf(code: string): (p: seq<Digit>)
    requires IsDuckCode(code)
    ensures |p| == PAYLOAD_LEN
  {
    PrintedSlice(code, FLOCK_LEN, FLOCK_LEN + PAYLOAD_LEN);
    DigitsOf(code[FLOCK_LEN..FLOCK_LEN + PAYLOAD_LEN])
  }

  function Assemble(flock: string, payload: seq<Digit>): (code: string)
    requires IsFlockCode(flock) && |payload| == PAYLOAD_LEN
  {
    var body := DigitsOf(flock) + payload;
    Spell(body + [Damm36.CheckDigit(body)])
  }

  lemma SpellPrinted(ds: seq<Digit>)
    ensures AllPrinted(Spell(ds)) && DigitsOf(Spell(ds)) == ds
  {
    SpellDigits(ds);
    forall i | 0 <= i < |ds| ensures IsPrinted(Spell(ds)[i]) {
      CharOfCanonical(ds[i]);
    }
  }

  lemma PrintedIsSpelled(s: string)
    requires AllPrinted(s)
    ensures Spell(DigitsOf(s)) == s
  {
    forall i | 0 <= i < |s| ensures Spell(DigitsOf(s))[i] == s[i] {
      assert IsPrinted(s[i]);
      DigitOfIsCaseFold(s[i], DigitsOf(s)[i]);
    }
  }

  /** An assembled code is valid and carries its parts. */
  lemma {:induction false} AssembleParts(flock: string, payload: seq<Digit>)
    requires IsFlockCode(flock) && |payload| == PAYLOAD_LEN
    ensures var code := Assemble(flock, payload);
            IsDuckCode(code) && FlockOf(code) == flock && PayloadOf(code) == payload
  {
    hide Damm36.CheckDigit, Damm36.Validate;
    var body := DigitsOf(flock) + payload;
    var all := body + [Damm36.CheckDigit(body)];
    var code := Assemble(flock, payload);
    Damm36.CheckDigitUnique(body, Damm36.CheckDigit(body));
    SpellPrinted(all);
    PrintedIsSpelled(flock);
    PrintedSlice(code, 0, FLOCK_LEN);
    PrintedSlice(code, FLOCK_LEN, FLOCK_LEN + PAYLOAD_LEN);
    assert all[..FLOCK_LEN] == DigitsOf(flock) && all[FLOCK_LEN..FLOCK_LEN + PAYLOAD_LEN] == payload;
    PrintedIsSpelled(code[..FLOCK_LEN]);
    assert code[..FLOCK_LEN] == flock;
    CanonicalizePrinted(flock);
  }

  /** A valid code is determined by its prefix and payload: there is one check character. */
  lemma {:induction false} PartsDetermine(code: string)
    requires IsDuckCode(code)
    ensures Assemble(FlockOf(code), PayloadOf(code)) == code
  {
    hide Damm36.CheckDigit, Damm36.Validate;
    var ds := DigitsOf(code);
    var body := ds[..CODE_LEN - 1];
    PrintedSlice(code, 0, FLOCK_LEN);
    PrintedSlice(code, FLOCK_LEN, FLOCK_LEN + PAYLOAD_LEN);
    CanonicalizePrinted(code[..FLOCK_LEN]);
    assert body == ds[..FLOCK_LEN] + ds[FLOCK_LEN..FLOCK_LEN + PAYLOAD_LEN];
    assert ds == body + [ds[CODE_LEN - 1]];
    Damm36.CheckDigitUnique(body, ds[CODE_LEN - 1]);
    PrintedIsSpelled(code);
  }

  // ----- Misprints ----------------------------------------------------------

  lemma DigitsOfUpdate(s: string, i: nat, c: char)
    requires AllPrinted(s) && i < |s| && IsPrinted(c)
    ensures AllPrinted(s[i := c])
    ensures DigitsOf(s[i := c]) == DigitsOf(s)[i := DigitOf(c).value]
  {
  }

  lemma PrintedInjective(a: char, b: char)
    requires IsPrinted(a) && IsPrinted(b) && DigitOf(a) == DigitOf(b)
    ensures a == b
  {
    DigitOfIsCaseFold(a, DigitOf(a).value);
    DigitOfIsCaseFold(b, DigitOf(b).value);
  }

  lemma ChecksumFailure(text: string)
    requires |text| == CODE_LEN && AllPrinted(text) && !Damm36.Validate(DigitsOf(text))
    ensures ParseDuck(text) == Err(BadChecksum)
  {
    PrintedSpellsItself(text);
    NormalizeSpells(text, text);
  }

  /** One wrong character anywhere in a printed code is refused. */
  lemma MisprintRefused(code: string, i: nat, c: char)
    requires IsDuckCode(code) && i < CODE_LEN && IsPrinted(c) && c != code[i]
    ensures ParseDuck(code[i := c]) == Err(BadChecksum)
  {
    hide Damm36.Validate;
    DigitsOfUpdate(code, i, c);
    Damm36.SingleErrorCaught(DigitsOf(code), i, DigitOf(c).value);
    if DigitOf(c).value == DigitsOf(code)[i] {
      PrintedInjective(c, code[i]);
    }
    ChecksumFailure(code[i := c]);
  }

  /** Two unequal characters exchanged at distance 1 or 5 are refused. */
  lemma TranspositionRefused(code: string, i: nat, j: nat)
    requires IsDuckCode(code) && i < j < CODE_LEN && code[i] != code[j]
    requires j == i + 1 || j == i + 5
    ensures ParseDuck(code[i := code[j]][j := code[i]]) == Err(BadChecksum)
  {
    hide Damm36.Validate;
    var ds := DigitsOf(code);
    DigitsOfUpdate(code, i, code[j]);
    DigitsOfUpdate(code[i := code[j]], j, code[i]);
    assert DigitsOf(code[i := code[j]][j := code[i]]) == Damm36.Swap(ds, i, j);
    Damm36.SwapCaught(ds, i, j);
    if ds[i] == ds[j] {
      PrintedInjective(code[i], code[j]);
    }
    ChecksumFailure(code[i := code[j]][j := code[i]]);
  }
}
