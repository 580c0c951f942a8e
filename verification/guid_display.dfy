/** Masking of identifiers (tenant, subscription and client ids) before they are shown
    on the console: Program.DisplayGuid. */
module GuidDisplay {
  import opened Wrappers

  /** The characters .NET's Char.IsWhiteSpace accepts: the space separators, the line
      and paragraph separators, U+0009 to U+000D and U+0085. */
  predicate IsWhiteSpace(c: char) {
    c == ' ' || ('\t' <= c <= '\r') || c == '\U{0085}' || c == '\U{00A0}' || c == '\U{1680}'
    || ('\U{2000}' <= c <= '\U{200A}') || c == '\U{2028}' || c == '\U{2029}' || c == '\U{202F}'
    || c == '\U{205F}' || c == '\U{3000}'
  }

  /** string.IsNullOrWhiteSpace: null (None), empty, or white space only. */
  predicate IsNullOrWhiteSpace(s: Option<string>) {
    s.None? || forall i :: 0 <= i < |s.value| ==> IsWhiteSpace(s.value[i])
  }

  /** `n` copies of `c`: new string(c, n). */
  function Repeat(c: char, n: nat): (r: string)
    ensures |r| == n && forall i :: 0 <= i < n ==> r[i] == c
  {
    if n == 0 then "" else Repeat(c, n - 1) + [c]
  }

  /** Blank input shows as "", a value of at most 8 characters shows as is, and a longer
      value keeps its first and last four characters with every character between them
      replaced by '*'. */
  function DisplayGuid(guid: Option<string>): (r: string)
    ensures IsNullOrWhiteSpace(guid) ==> r == ""
    ensures !IsNullOrWhiteSpace(guid) && |guid.value| <= 8 ==> r == guid.value
    ensures !IsNullOrWhiteSpace(guid) && |guid.value| > 8 ==>
              |r| == |guid.value|
              && r[..4] == guid.value[..4]
              && r[|r| - 4..] == guid.value[|guid.value| - 4..]
              && forall i :: 4 <= i < |r| - 4 ==> r[i] == '*'
  {
    if IsNullOrWhiteSpace(guid) then ""
    else if |guid.value| <= 8 then guid.value
    else
      var s := guid.value;
      s[..4] + Repeat('*', |s| - 8) + s[|s| - 4..]
  }

  /** What is shown is never blank unless the input was: a non-blank value either comes
      back unchanged or has at least one '*' in it. */
  lemma {:induction false} DisplayKeepsNonBlank(guid: Option<string>)
    requires !IsNullOrWhiteSpace(guid)
    ensures !IsNullOrWhiteSpace(Some(DisplayGuid(guid)))
  {
    var r := DisplayGuid(guid);
    if |guid.value| > 8 {
      assert r[4] == '*' && !IsWhiteSpace(r[4]);
    } else {
      assert r == guid.value;
    }
  }

  /** Masking is idempotent: masking what is already shown changes nothing. */
  lemma {:induction false} DisplayIdempotent(guid: Option<string>)
    ensures DisplayGuid(Some(DisplayGuid(guid))) == DisplayGuid(guid)
  {
    var r := DisplayGuid(guid);
    if IsNullOrWhiteSpace(guid) {
      assert r == "";
    } else {
      DisplayKeepsNonBlank(guid);
      if |r| > 8 {
        var r2 := DisplayGuid(Some(r));
        assert |r2| == |r|;
        forall i | 0 <= i < |r| ensures r2[i] == r[i] {
          if i < 4 {
            assert r2[i] == r2[..4][i];
          } else if i >= |r| - 4 {
            assert r2[i] == r2[|r2| - 4..][i - (|r| - 4)];
            assert r[i] == r[|r| - 4..][i - (|r| - 4)];
          }
        }
      }
    }
  }
}
