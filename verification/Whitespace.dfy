/** White space as the source language's `trim` knows it. */
module Whitespace {
  predicate IsSpace(c: char) {
    c in {'\t', '\n', '\r', ' ', '\U{000B}', '\U{000C}', '\U{00A0}', '\U{1680}', '\U{2028}', '\U{2029}', '\U{202F}',
          '\U{205F}', '\U{3000}', '\U{FEFF}'}
    || '\U{2000}' <= c <= '\U{200A}'
  }

  /** By code point: the white space and line terminators of ECMAScript, sections 12.2 and 12.3. */
  lemma SpacesAre(c: char)
    ensures IsSpace(c) <==>
      || 0x9 <= c as int <= 0xD || 0x2000 <= c as int <= 0x200A
      || c as int in {0x20, 0xA0, 0x1680, 0x2028, 0x2029, 0x202F, 0x205F, 0x3000, 0xFEFF}
  {
  }

  function TrimStart(s: string): string { if s != "" && IsSpace(s[0]) then TrimStart(s[1..]) else s }
  function TrimEnd(s: string): string { if s != "" && IsSpace(s[|s| - 1]) then TrimEnd(s[..|s| - 1]) else s }
  function Trim(s: string): string { TrimEnd(TrimStart(s)) }

  /** Trimming leaves nothing exactly when there was nothing but white space. */
  lemma {:induction false} TrimEmptiesExactlyWhen(s: string)
    ensures Trim(s) == "" <==> forall c <- s :: IsSpace(c)
  {
    if s != "" {
      if IsSpace(s[0]) {
        TrimEmptiesExactlyWhen(s[1..]);
        assert s == [s[0]] + s[1..];
      } else {
        TrimEndKeepsFirst(s);
        assert s[0] in s;
      }
    }
  }

  /** Trimming takes white space off both ends, and all of it. */
  lemma TrimTakesTheEnds(s: string) returns (from: nat, to: nat)
    ensures from <= to <= |s| && Trim(s) == s[from..to]
    ensures forall i :: 0 <= i < from || to <= i < |s| ==> IsSpace(s[i])
    ensures from < to ==> !IsSpace(s[from]) && !IsSpace(s[to - 1])
  {
    from := StartTakes(s);
    to := EndTakes(s[from..]);
    to := from + to;
    assert TrimStart(s)[..to - from] == s[from..to];
    assert forall i :: to <= i < |s| ==> s[i] == s[from..][i - from];
  }

  lemma {:induction false} StartTakes(s: string) returns (from: nat)
    ensures from <= |s| && TrimStart(s) == s[from..]
    ensures forall i :: 0 <= i < from ==> IsSpace(s[i])
    ensures from < |s| ==> !IsSpace(s[from])
  {
    from := 0;
    if s != "" && IsSpace(s[0]) {
      from := StartTakes(s[1..]);
      from := from + 1;
    }
  }

  lemma {:induction false} EndTakes(s: string) returns (to: nat)
    ensures to <= |s| && TrimEnd(s) == s[..to]
    ensures forall i :: to <= i < |s| ==> IsSpace(s[i])
    ensures to > 0 ==> !IsSpace(s[to - 1])
  {
    to := |s|;
    if s != "" && IsSpace(s[|s| - 1]) { to := EndTakes(s[..|s| - 1]); }
  }

  lemma {:induction false} TrimEndKeepsFirst(s: string)
    requires s != "" && !IsSpace(s[0])
    ensures TrimEnd(s) != ""
  {
    if |s| > 1 { TrimEndKeepsFirst(s[..|s| - 1]); }
  }
}
