/** Card identifiers (src/common/utils/card-uid.util.ts): one canonical string per physical card,
    however a reader renders it. */
module CardUid {
  import opened Options
  import opened Whitespace

  const DECIMAL_UID_LENGTH := 10
  const MAX_UINT32 := 0xffff_ffff
  const HEX_DIGITS := "0123456789ABCDEF"

  predicate IsDigit(c: char) { '0' <= c <= '9' }
  predicate IsAlnum(c: char) { IsDigit(c) || 'a' <= c <= 'z' || 'A' <= c <= 'Z' }
  predicate IsHex(c: char) { IsDigit(c) || 'A' <= c <= 'F' }
  predicate AllDigits(s: string) { forall i :: 0 <= i < |s| ==> IsDigit(s[i]) }
  predicate AllHex(s: string) { forall i :: 0 <= i < |s| ==> IsHex(s[i]) }
  predicate AllAlnum(s: string) { forall i :: 0 <= i < |s| ==> IsAlnum(s[i]) }

  function Upper(c: char): char { if 'a' <= c <= 'z' then c - 'a' + 'A' else c }

  /** Drops everything but letters and digits, and upper-cases the rest. */
  function Strip(raw: string): string {
    if raw == "" then ""
    else (if IsAlnum(raw[0]) then [Upper(raw[0])] else "") + Strip(raw[1..])
  }

  function DecimalValue(s: string): nat
    requires AllDigits(s)
  {
    if s == "" then 0 else DecimalValue(s[..|s| - 1]) * 10 + (s[|s| - 1] - '0') as nat
  }

  /** `value.toString(16).toUpperCase()`. */
  function ToHex(v: nat): string {
    if v < 16 then [HEX_DIGITS[v]] else ToHex(v / 16) + [HEX_DIGITS[v % 16]]
  }

  function Zeros(n: nat): string { seq(n, _ => '0') }
  function PadStart(s: string, width: nat): string { if |s| >= width then s else Zeros(width - |s|) + s }

  /** Ten digits within 32 bits: the one rendering read as decimal. */
  predicate IsDecimalReading(s: string) { |s| == DECIMAL_UID_LENGTH && AllDigits(s) && DecimalValue(s) <= MAX_UINT32 }

  function Hex8(v: nat): string { PadStart(ToHex(v), 8) }

  function Normalize(raw: string): string {
    var stripped := Strip(raw);
    if IsDecimalReading(stripped) then Hex8(DecimalValue(stripped)) else stripped
  }

  // ---------- stripping ----------

  lemma {:induction false} StripIsAlnum(raw: string)
    ensures AllAlnum(Strip(raw)) && forall i :: 0 <= i < |Strip(raw)| ==> Upper(Strip(raw)[i]) == Strip(raw)[i]
  {
    if raw != "" { StripIsAlnum(raw[1..]); }
  }

  lemma {:induction false} StripFixes(s: string)
    requires AllAlnum(s) && forall i :: 0 <= i < |s| ==> Upper(s[i]) == s[i]
    ensures Strip(s) == s
  {
    if s != "" {
      StripFixes(s[1..]);
      assert s == [s[0]] + s[1..];
    }
  }

  lemma StripFixesHex(s: string)
    requires AllHex(s)
    ensures Strip(s) == s
  {
    StripFixes(s);
  }

  /** The character `k` places after `first`. */
  predicate IsPlace(c: char, first: char, k: nat) { c as int == first as int + k }

  /** `c` writes the capital or digit `d`: as itself, or as the small form of the same letter. */
  ghost predicate Writes(c: char, d: char) {
    || (c == d && exists k: nat :: k < 10 && IsPlace(c, '0', k))
    || (c == d && exists k: nat :: k < 26 && IsPlace(c, 'A', k))
    || exists k: nat :: k < 26 && IsPlace(c, 'a', k) && IsPlace(d, 'A', k)
  }

  /** It writes nothing: neither a letter nor a digit. */
  ghost predicate IsSeparator(c: char) { forall d: char :: !Writes(c, d) }

  /** `raw` is `digits` written in any mixture of cases with any separators anywhere. */
  ghost predicate Renders(raw: string, digits: string) {
    if raw == "" then digits == ""
    else || (IsSeparator(raw[0]) && Renders(raw[1..], digits))
         || (digits != "" && Writes(raw[0], digits[0]) && Renders(raw[1..], digits[1..]))
  }

  lemma WritesMeans(c: char, d: char)
    ensures Writes(c, d) <==> IsAlnum(c) && Upper(c) == d
  {
    var zero, capital, small := c as int - '0' as int, c as int - 'A' as int, c as int - 'a' as int;
    if 0 <= zero < 10 { assert IsPlace(c, '0', zero); }
    if 0 <= capital < 26 { assert IsPlace(c, 'A', capital); }
    if 0 <= small < 26 { assert IsPlace(c, 'a', small) && IsPlace(Upper(c), 'A', small); }
  }

  lemma {:induction false} StripUndoesRendering(raw: string, digits: string)
    requires Renders(raw, digits)
    ensures Strip(raw) == digits
  {
    if raw != "" {
      WritesMeans(raw[0], Upper(raw[0]));
      if IsAlnum(raw[0]) {
        WritesMeans(raw[0], digits[0]);
        StripUndoesRendering(raw[1..], digits[1..]);
        assert digits == [digits[0]] + digits[1..];
      } else {
        StripUndoesRendering(raw[1..], digits);
      }
    }
  }

  // ---------- numbers ----------

  function Pow(b: nat, n: nat): nat { if n == 0 then 1 else b * Pow(b, n - 1) }

  function HexDigitValue(c: char): nat
    requires IsHex(c)
  {
    if IsDigit(c) then (c - '0') as nat else 10 + (c - 'A') as nat
  }

  function HexValue(s: string): nat
    requires AllHex(s)
  {
    if s == "" then 0 else HexValue(s[..|s| - 1]) * 16 + HexDigitValue(s[|s| - 1])
  }

  lemma DigitRoundTrip(d: nat)
    requires d < 16
    ensures IsHex(HEX_DIGITS[d]) && HexDigitValue(HEX_DIGITS[d]) == d
  {
  }

  lemma {:induction false} ToHexRoundTrip(v: nat)
    ensures AllHex(ToHex(v)) && HexValue(ToHex(v)) == v && |ToHex(v)| >= 1
  {
    DigitRoundTrip(v % 16);
    if v < 16 {
      assert ToHex(v)[..0] == "";
    } else {
      ToHexRoundTrip(v / 16);
      assert ToHex(v)[..|ToHex(v)| - 1] == ToHex(v / 16);
    }
  }

  lemma {:induction false} ToHexLength(v: nat, n: nat)
    requires n >= 1 && v < Pow(16, n)
    ensures |ToHex(v)| <= n
  {
    if v >= 16 {
      assert Pow(16, n) == 16 * Pow(16, n - 1);
      ToHexLength(v / 16, n - 1);
    }
  }

  lemma {:induction false} LeadingZeros(n: nat, s: string)
    requires AllHex(s)
    ensures AllHex(Zeros(n) + s) && HexValue(Zeros(n) + s) == HexValue(s)
  {
    if s == "" {
      if n > 0 {
        LeadingZeros(n - 1, "");
        assert (Zeros(n) + "")[..n - 1] == Zeros(n - 1) + "";
      }
    } else {
      LeadingZeros(n, s[..|s| - 1]);
      assert (Zeros(n) + s)[..n + |s| - 1] == Zeros(n) + s[..|s| - 1];
    }
  }

  /** The eight-digit form is hexadecimal, eight characters wide, and determines the number. */
  lemma Hex8RoundTrip(v: nat)
    requires v <= MAX_UINT32
    ensures |Hex8(v)| == 8 && AllHex(Hex8(v)) && HexValue(Hex8(v)) == v
  {
    ToHexRoundTrip(v);
    assert Pow(16, 8) == 0x1_0000_0000 by {
      assert Pow(16, 2) == 256;
      assert Pow(16, 4) == 65536;
      assert Pow(16, 6) == 0x100_0000;
    }
    ToHexLength(v, 8);
    if |ToHex(v)| < 8 { LeadingZeros(8 - |ToHex(v)|, ToHex(v)); }
  }

  // ---------- canonical forms ----------

  /** Canonicalising twice is canonicalising once. */
  lemma NormalizeIsIdempotent(raw: string)
    ensures Normalize(Normalize(raw)) == Normalize(raw)
  {
    var stripped := Strip(raw);
    StripIsAlnum(raw);
    if IsDecimalReading(stripped) {
      Hex8RoundTrip(DecimalValue(stripped));
      StripFixesHex(Hex8(DecimalValue(stripped)));
    } else {
      StripFixes(stripped);
    }
  }

  /** Every rendering of one 32-bit UID, hexadecimal in any case with any separators or the
      ten-digit decimal with any separators, has the same canonical form. */
  lemma RenderingsAgree(v: nat, raw: string, decimal: string)
    requires v <= MAX_UINT32
    requires |decimal| == DECIMAL_UID_LENGTH && AllDigits(decimal) && DecimalValue(decimal) == v
    requires Renders(raw, Hex8(v)) || Renders(raw, decimal)
    ensures Normalize(raw) == Hex8(v)
  {
    Hex8RoundTrip(v);
    if Renders(raw, decimal) {
      StripUndoesRendering(raw, decimal);
    } else {
      StripUndoesRendering(raw, Hex8(v));
    }
  }

  /** Different UIDs have different canonical forms. */
  lemma DistinctUidsStayDistinct(v: nat, w: nat)
    requires v <= MAX_UINT32 && w <= MAX_UINT32 && Hex8(v) == Hex8(w)
    ensures v == w
  {
    Hex8RoundTrip(v);
    Hex8RoundTrip(w);
  }

  // ---------- byte order ----------

  predicate HasBytes(uid: string) { |uid| >= 2 && |uid| % 2 == 0 && AllHex(uid) }

  /** The two-character bytes of an even-length string, in the opposite order. */
  function Reversed(uid: string): string
    requires |uid| % 2 == 0
  {
    if uid == "" then "" else Reversed(uid[2..]) + uid[..2]
  }

  lemma {:induction false} ReversedShape(uid: string)
    requires |uid| % 2 == 0
    ensures |Reversed(uid)| == |uid| && (AllHex(uid) ==> AllHex(Reversed(uid)))
  {
    if uid != "" { ReversedShape(uid[2..]); }
  }

  lemma {:induction false} ReversedOfConcat(a: string, b: string)
    requires |a| % 2 == 0 && |b| % 2 == 0
    ensures Reversed(a + b) == Reversed(b) + Reversed(a)
  {
    if a == "" {
      assert a + b == b;
    } else {
      ReversedOfConcat(a[2..], b);
      assert (a + b)[2..] == a[2..] + b && (a + b)[..2] == a[..2];
    }
  }

  /** Reversing the byte order twice restores the string. */
  lemma {:induction false} ReversalUndoesItself(uid: string)
    requires |uid| % 2 == 0
    ensures |Reversed(uid)| % 2 == 0 && Reversed(Reversed(uid)) == uid
  {
    ReversedShape(uid);
    if uid != "" {
      ReversedShape(uid[2..]);
      ReversalUndoesItself(uid[2..]);
      ReversedOfConcat(Reversed(uid[2..]), uid[..2]);
      assert uid[..2][2..] == "" && uid[..2][..2] == uid[..2];
      assert Reversed(uid[..2]) == uid[..2];
      assert uid == uid[..2] + uid[2..];
    }
  }

  /** Splits into bytes, reverses that local array in place, and joins it. */
  method ReverseCardUidBytes(uid: string) returns (r: Option<string>)
    ensures r == if HasBytes(uid) then Some(Reversed(uid)) else None
  {
    if |uid| < 2 || |uid| % 2 != 0 || !AllHex(uid) { return None; }
    var n := |uid| / 2;
    var bytes := new string[n](i requires 0 <= i < n => uid[2 * i..2 * i + 2]);
    forall i | 0 <= i < n { bytes[i] := bytes[n - 1 - i]; }
    var joined := "";
    for j := 0 to n
      invariant joined == Reversed(uid[2 * (n - j)..])
    {
      var rest := uid[2 * (n - 1 - j)..];
      assert rest[2..] == uid[2 * (n - j)..] && rest[..2] == bytes[j];
      joined := joined + bytes[j];
    }
    assert uid[0..] == uid;
    return Some(joined);
  }

  // ---------- lookup candidates ----------

  function AddNew(candidates: seq<string>, c: string): seq<string> {
    if c in candidates then candidates else candidates + [c]
  }

  /** The canonical form, then the raw value, then the byte-reversed form, without repeats. */
  function Candidates(raw: string): seq<string> {
    var canonical, trimmed := Normalize(raw), Trim(raw);
    if canonical == "" then []
    else
      var first := if trimmed != "" then AddNew([canonical], trimmed) else [canonical];
      if HasBytes(canonical) then AddNew(first, Reversed(canonical)) else first
  }

  method CardUidLookupCandidates(raw: string) returns (candidates: seq<string>)
    ensures candidates == Candidates(raw)
  {
    var canonical := Normalize(raw);
    if canonical == "" { return []; }
    candidates := [canonical];
    var trimmed := Trim(raw);
    if trimmed != "" && trimmed != canonical { candidates := candidates + [trimmed]; }
    var reversed := ReverseCardUidBytes(canonical);
    if reversed.Some? {
      ReversedShape(canonical);
      if reversed.value != "" && reversed.value !in candidates { candidates := candidates + [reversed.value]; }
    }
  }

  ghost predicate Distinct(cs: seq<string>) { forall i, j :: 0 <= i < j < |cs| ==> cs[i] != cs[j] }

  lemma AddNewStaysDistinct(cs: seq<string>, c: string)
    requires Distinct(cs) && cs != []
    ensures Distinct(AddNew(cs, c)) && AddNew(cs, c) != [] && AddNew(cs, c)[0] == cs[0]
  {
    assert forall i :: 0 <= i < |cs| ==> cs[i] in cs;
  }

  /** Candidates never repeat, and the canonical form always comes first. */
  lemma CandidatesAreDistinct(raw: string)
    ensures Distinct(Candidates(raw))
    ensures Candidates(raw) == [] <==> Normalize(raw) == ""
    ensures Candidates(raw) != [] ==> Candidates(raw)[0] == Normalize(raw)
  {
    var canonical, trimmed := Normalize(raw), Trim(raw);
    if canonical != "" {
      AddNewStaysDistinct([canonical], trimmed);
      if HasBytes(canonical) {
        AddNewStaysDistinct(if trimmed != "" then AddNew([canonical], trimmed) else [canonical], Reversed(canonical));
      }
    }
  }

  lemma TrimFixesHex(s: string)
    requires AllHex(s)
    ensures Trim(s) == s
  {
  }

  /** A reading is looked up under its canonical form, itself as trimmed, and its bytes reversed if it has
      bytes: under all of these and nothing else, in that order, and under nothing if its form is empty. */
  lemma CandidatesAreExactly(raw: string)
    ensures var cs, canonical := Candidates(raw), Normalize(raw);
      && (cs == [] <==> canonical == "")
      && (canonical != "" ==>
            && (forall c :: c in cs <==>
                  c == canonical || (c == Trim(raw) && c != "") || (HasBytes(canonical) && c == Reversed(canonical)))
            && cs[0] == canonical
            && (Trim(raw) != "" && Trim(raw) != canonical ==> |cs| > 1 && cs[1] == Trim(raw)))
  {
  }

  /** A reading taken for a decimal offers only eight-digit forms and itself. */
  lemma DecimalReadingLosesOriginal(uid: string)
    requires HasBytes(uid) && Normalize(uid) == uid && IsDecimalReading(Reversed(uid))
    ensures uid !in Candidates(Reversed(uid))
  {
    var reading := Reversed(uid);
    ReversedShape(uid);
    StripFixesHex(uid);
    StripFixesHex(reading);
    TrimFixesHex(reading);
    Hex8RoundTrip(DecimalValue(reading));
    ReversedShape(Normalize(reading));
    CandidatesAreExactly(reading);
    assert |Normalize(reading)| == 8 && |uid| == 10;
  }

  /** A reader that reports a stored UID byte-reversed still finds it, exactly unless its reading
      happens to be ten digits within 32 bits and is taken for a decimal. */
  lemma ReversedReadingFindsOriginalExactlyWhen(uid: string)
    requires HasBytes(uid) && Normalize(uid) == uid
    ensures uid in Candidates(Reversed(uid)) <==> !IsDecimalReading(Reversed(uid))
  {
    var reading := Reversed(uid);
    ReversedShape(uid);
    if IsDecimalReading(reading) {
      DecimalReadingLosesOriginal(uid);
    } else {
      StripFixesHex(reading);
      assert Normalize(reading) == reading;
      ReversalUndoesItself(uid);
    }
  }

  /** In particular, every UID that is not ten characters long is found. */
  lemma ReversedReadingFindsOriginal(uid: string)
    requires HasBytes(uid) && |uid| != DECIMAL_UID_LENGTH
    ensures uid in Candidates(Reversed(uid))
  {
    StripFixesHex(uid);
    ReversedShape(uid);
    ReversedReadingFindsOriginalExactlyWhen(uid);
  }

  lemma {:induction false} LeadingDecimalZeros(n: nat, s: string)
    requires AllDigits(s)
    ensures AllDigits(Zeros(n) + s) && DecimalValue(Zeros(n) + s) == DecimalValue(s)
  {
    if s == "" {
      if n > 0 {
        LeadingDecimalZeros(n - 1, "");
        assert (Zeros(n) + "")[..n - 1] == Zeros(n - 1) + "";
      }
    } else {
      LeadingDecimalZeros(n, s[..|s| - 1]);
      assert (Zeros(n) + s)[..n + |s| - 1] == Zeros(n) + s[..|s| - 1];
    }
  }

  lemma TimesTen(v: nat, n: nat)
    requires n > 0
    ensures v * Pow(10, n - 1) * 10 == v * Pow(10, n)
  {
  }

  lemma {:induction false} TrailingDecimalZeros(s: string, n: nat)
    requires AllDigits(s)
    ensures AllDigits(s + Zeros(n)) && DecimalValue(s + Zeros(n)) == DecimalValue(s) * Pow(10, n)
  {
    if n == 0 {
      assert s + Zeros(n) == s;
    } else {
      var longer := s + Zeros(n);
      TrailingDecimalZeros(s, n - 1);
      assert longer[..|longer| - 1] == s + Zeros(n - 1) && longer[|longer| - 1] == '0';
      assert AllDigits(longer);
      TimesTen(DecimalValue(s), n);
    }
  }

  lemma {:induction false} ReversedZeros(n: nat)
    requires n % 2 == 0
    ensures Reversed(Zeros(n)) == Zeros(n)
  {
    if n > 0 {
      assert Zeros(n)[2..] == Zeros(n - 2) && Zeros(n - 2) + Zeros(n)[..2] == Zeros(n);
      ReversedZeros(n - 2);
    }
  }

  lemma NinetyNine()
    ensures AllDigits("99") && DecimalValue("99") == 99 && Reversed("99") == "99"
  {
    assert "99"[..1] == "9" && "9"[..0] == "";
    assert DecimalValue("9") == 9;
    assert "99"[2..] == "" && "99"[..2] == "99";
  }

  lemma LargeReadingIsCanonical()
    ensures var uid := "99" + Zeros(8); HasBytes(uid) && Normalize(uid) == uid
  {
    NinetyNine();
    TrailingDecimalZeros("99", 8);
    assert Pow(10, 2) == 100;
    assert Pow(10, 4) == 10000;
    assert Pow(10, 6) == 1000000;
    assert Pow(10, 8) == 100000000;
    StripFixesHex("99" + Zeros(8));
  }

  /** A five-byte card that is lost: read in reverse it looks like the decimal form of the UID 99. */
  lemma ReversedReadingCanBeLost()
    ensures var uid := "99" + Zeros(8);
            HasBytes(uid) && Normalize(uid) == uid && uid !in Candidates(Reversed(uid))
  {
    LargeReadingIsCanonical();
    NinetyNine();
    ReversedOfConcat("99", Zeros(8));
    ReversedZeros(8);
    LeadingDecimalZeros(8, "99");
    DecimalReadingLosesOriginal("99" + Zeros(8));
  }
}
