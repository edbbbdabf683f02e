/** Bounded, trimmed, non-empty text: duck names, descriptions, notes, comments, labels. */
module Text {
  import opened Wrappers

  const DUCK_NAME_MAX: nat := 80
  const DESCRIPTION_MAX: nat := 2000
  const NOTE_MAX: nat := 2000
  const COMMENT_MAX: nat := 2000
  const LABEL_MAX: nat := 120

  datatype TextError = Empty | TooLong(got: nat, max: nat)

  /** Unicode White_Space. */
  predicate IsSpace(c: char) {
    || '\U{0009}' <= c <= '\U{000D}' || c == ' ' || c == '\U{0085}' || c == '\U{00A0}'
    || c == '\U{1680}' || '\U{2000}' <= c <= '\U{200A}' || c == '\U{2028}' || c == '\U{2029}'
    || c == '\U{202F}' || c == '\U{205F}' || c == '\U{3000}'
  }

  function TrimStart(s: string): string {
    if s != "" && IsSpace(s[0]) then TrimStart(s[1..]) else s
  }

  function TrimEnd(s: string): string {
    if s != "" && IsSpace(s[|s| - 1]) then TrimEnd(s[..|s| - 1]) else s
  }

  function Trim(s: string): string {
    TrimEnd(TrimStart(s))
  }

  function Parse(max: nat, raw: string): Result<string, TextError> {
    var trimmed := Trim(raw);
    if |trimmed| == 0 then Err(Empty)
    else if |trimmed| > max then Err(TooLong(|trimmed|, max))
    else Ok(trimmed)
  }

  lemma {:induction false} TrimStartEdge(s: string)
    ensures TrimStart(s) == "" || !IsSpace(TrimStart(s)[0])
  {
    if s != "" && IsSpace(s[0]) {
      TrimStartEdge(s[1..]);
    }
  }

  lemma {:induction false} TrimEndEdges(s: string)
    ensures TrimEnd(s) == "" || !IsSpace(TrimEnd(s)[|TrimEnd(s)| - 1])
    ensures TrimEnd(s) != "" ==> TrimEnd(s)[0] == s[0]
  {
    if s != "" && IsSpace(s[|s| - 1]) {
      TrimEndEdges(s[..|s| - 1]);
    }
  }

  lemma {:induction false} TrimStartCuts(s: string) returns (i: nat)
    ensures i <= |s| && TrimStart(s) == s[i..] && forall k | 0 <= k < i :: IsSpace(s[k])
  {
    i := 0;
    if s != "" && IsSpace(s[0]) {
      var rest := TrimStartCuts(s[1..]);
      i := rest + 1;
      assert forall k | 0 < k < i :: s[k] == s[1..][k - 1];
    }
  }

  lemma {:induction false} TrimEndCuts(s: string) returns (j: nat)
    ensures j <= |s| && TrimEnd(s) == s[..j] && forall k | j <= k < |s| :: IsSpace(s[k])
  {
    j := |s|;
    if s != "" && IsSpace(s[|s| - 1]) {
      j := TrimEndCuts(s[..|s| - 1]);
    }
  }

  /** `s` from position `i` up to `j` is what is left without its outer white space. */
  ghost predicate Core(s: string, i: nat, j: nat) {
    && i <= j <= |s|
    && (forall k | 0 <= k < i || j <= k < |s| :: IsSpace(s[k]))
    && (i < j ==> !IsSpace(s[i]) && !IsSpace(s[j - 1]))
  }

  /** Trimming takes away all white space at both ends and nothing between. */
  lemma {:induction false} TrimIsCore(s: string)
    ensures exists i: nat, j: nat :: Core(s, i, j) && Trim(s) == s[i..j]
  {
    var i := TrimStartCuts(s);
    var j := TrimEndCuts(s[i..]);
    TrimStartEdge(s);
    TrimEndEdges(s[i..]);
    assert forall k | i + j <= k < |s| :: s[k] == s[i..][k - i];
    assert Trim(s) == s[i..i + j];
    assert Core(s, i, i + j);
  }

  /** Stored text reads back as itself: parsing is the identity on what it accepted. */
  lemma ParseIdempotent(max: nat, raw: string)
    requires Parse(max, raw).Ok?
    ensures Parse(max, Parse(max, raw).value) == Parse(max, raw)
  {
    TrimStartEdge(raw);
    TrimEndEdges(TrimStart(raw));
  }
}
