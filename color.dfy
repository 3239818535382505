/**
 * Color.swift: the named hex colours, their dark-mode swap, and how a hex
 * string becomes red, green, blue and alpha components.
 */
module Color {

  /** `enum Hex: String, CaseIterable` */
  datatype Hex = Accent | Black | Blue | Clear | DarkGray | Gainsboro | LightGray | White | Infrared {
    function RawValue(): string
    {
      match this
      case Accent => "154C8A"
      case Black => "000000"
      case Blue => "0098FD"
      case Clear => "E0E0E0"
      case DarkGray => "2E2D30"
      case Gainsboro => "E5E5EA"
      case LightGray => "8E8E93"
      case White => "FFFFFF"
      case Infrared => "FF0055"
    }
  }

  /** `Hex.allCases`, in declaration order. */
  const AllCases: seq<Hex> := [Accent, Black, Blue, Clear, DarkGray, Gainsboro, LightGray, White, Infrared]

  /** `allCases` lists every case exactly once. */
  lemma AllCasesEnumeratesHex()
    ensures forall h: Hex :: h in AllCases
    ensures forall i, j :: 0 <= i < j < |AllCases| ==> AllCases[i] != AllCases[j]
  {
    forall h: Hex
      ensures h in AllCases
    {
      match h
      case Accent => assert AllCases[0] == h;
      case Black => assert AllCases[1] == h;
      case Blue => assert AllCases[2] == h;
      case Clear => assert AllCases[3] == h;
      case DarkGray => assert AllCases[4] == h;
      case Gainsboro => assert AllCases[5] == h;
      case LightGray => assert AllCases[6] == h;
      case White => assert AllCases[7] == h;
      case Infrared => assert AllCases[8] == h;
    }
  }

  predicate IsUpperHexDigit(c: char)
  {
    '0' <= c <= '9' || 'A' <= c <= 'F'
  }

  predicate IsUpperHex(s: string)
  {
    forall i :: 0 <= i < |s| ==> IsUpperHexDigit(s[i])
  }

  /** The raw values are pairwise distinct six-digit upper-case hex strings. */
  lemma RawValuesAreDistinctSixDigitHex(a: Hex, b: Hex)
    ensures |a.RawValue()| == 6 && IsUpperHex(a.RawValue())
    ensures a.RawValue() == b.RawValue() ==> a == b
  {
  }

  /**
   * The colour whose raw value `init(_:_:adoptDarkMode:)` actually uses: in
   * dark mode with `adoptDarkMode`, white and black swap and so do gainsboro
   * and dark gray; Clear always takes White's (or, swapped, Black's) value.
   */
  function ResolvedHex(hex: Hex, darkStyle: bool, adoptDarkMode: bool): (r: Hex)
    ensures r != Clear
    ensures hex in {Accent, Blue, LightGray, Infrared} ==> r == hex
    ensures !(darkStyle && adoptDarkMode) ==> r == if hex == Clear then White else hex
  {
    var swap := darkStyle && adoptDarkMode;
    match hex
    case White | Clear => if swap then Black else White
    case Black => if swap then White else Black
    case Gainsboro => if swap then DarkGray else Gainsboro
    case DarkGray => if swap then Gainsboro else DarkGray
    case _ => hex
  }

  /** The dark-mode table, in hex strings. */
  lemma DarkModeTable()
    ensures ResolvedHex(White, true, true).RawValue() == "000000"
    ensures ResolvedHex(Clear, true, true).RawValue() == "000000"
    ensures ResolvedHex(Black, true, true).RawValue() == "FFFFFF"
    ensures ResolvedHex(Gainsboro, true, true).RawValue() == "2E2D30"
    ensures ResolvedHex(DarkGray, true, true).RawValue() == "E5E5EA"
    ensures forall dark, adopt :: ResolvedHex(Clear, dark, adopt).RawValue() != "E0E0E0"
  {
  }

  /** Swapping twice gives back every colour that is not Clear. */
  lemma DarkSwapIsInvolution(hex: Hex)
    requires hex != Clear
    ensures ResolvedHex(ResolvedHex(hex, true, true), true, true) == hex
  {
  }

  /** The characters `.whitespacesAndNewlines` holds, restricted to ASCII and Latin-1. */
  predicate IsWhitespaceOrNewline(c: char)
  {
    c == ' ' || c == '\t' || c == '\n' || c == '\r' ||
    c == '\U{000B}' || c == '\U{000C}' || c == '\U{0085}' || c == '\U{00A0}'
  }

  /** Drops the leading whitespace and newlines. */
  function TrimLeading(s: string): (r: string)
    ensures |r| <= |s| && r == s[|s| - |r|..]
    ensures forall i :: 0 <= i < |s| - |r| ==> IsWhitespaceOrNewline(s[i])
    ensures r == [] || !IsWhitespaceOrNewline(r[0])
  {
    if s != [] && IsWhitespaceOrNewline(s[0]) then TrimLeading(s[1..]) else s
  }

  /** Drops the trailing whitespace and newlines. */
  function TrimTrailing(s: string): (r: string)
    ensures |r| <= |s| && r == s[..|r|]
    ensures forall i :: |r| <= i < |s| ==> IsWhitespaceOrNewline(s[i])
    ensures r == [] || !IsWhitespaceOrNewline(r[|r| - 1])
  {
    if s != [] && IsWhitespaceOrNewline(s[|s| - 1]) then TrimTrailing(s[..|s| - 1]) else s
  }

  /** `replacingOccurrences(of: "#", with: "")` */
  function RemoveHashes(s: string): (r: string)
    ensures forall c :: c in r <==> c in s && c != '#'
    ensures '#' !in s ==> r == s
    ensures |s| == 1 ==> r == if s[0] == '#' then [] else s
  {
    if s == [] then []
    else if s[0] == '#' then RemoveHashes(s[1..])
    else [s[0]] + RemoveHashes(s[1..])
  }

  /** Removing hashes keeps order: it distributes over concatenation. */
  lemma {:induction false} RemoveHashesAppend(a: string, b: string)
    ensures RemoveHashes(a + b) == RemoveHashes(a) + RemoveHashes(b)
  {
    if a == [] {
      assert a + b == b;
    } else {
      assert (a + b)[0] == a[0];
      assert (a + b)[1..] == a[1..] + b;
      RemoveHashesAppend(a[1..], b);
      var head := if a[0] == '#' then [] else [a[0]];
      assert RemoveHashes(a + b) == head + (RemoveHashes(a[1..]) + RemoveHashes(b));
      assert RemoveHashes(a) == head + RemoveHashes(a[1..]);
    }
  }

  predicate IsLowerAscii(c: char)
  {
    'a' <= c <= 'z'
  }

  /** `uppercased()`, for the ASCII letters: each lower-case letter becomes its capital, nothing else changes. */
  function Uppercased(s: string): (r: string)
    ensures |r| == |s|
    ensures forall i :: 0 <= i < |s| ==>
      if IsLowerAscii(s[i]) then r[i] == (s[i] as int - 'a' as int + 'A' as int) as char else r[i] == s[i]
  {
    if s == [] then []
    else
      var c := s[0];
      [if IsLowerAscii(c) then (c as int - 'a' as int + 'A' as int) as char else c] + Uppercased(s[1..])
  }

  /** Upper-casing never introduces a '#'. */
  lemma UppercasedKeepsNoHash(s: string)
    requires '#' !in s
    ensures '#' !in Uppercased(s)
  {
    var r := Uppercased(s);
    forall i | 0 <= i < |r|
      ensures r[i] != '#'
    {
      assert s[i] in s;
    }
  }

  /** The clean-up `init` applies before scanning. */
  function Normalized(s: string): (r: string)
    ensures '#' !in r
    ensures forall i :: 0 <= i < |r| ==> !IsLowerAscii(r[i])
  {
    var stripped := RemoveHashes(TrimTrailing(TrimLeading(s)));
    UppercasedKeepsNoHash(stripped);
    Uppercased(stripped)
  }

  lemma {:induction false} UpperHexIsNormalized(s: string)
    requires IsUpperHex(s)
    ensures Normalized(s) == s
  {
    assert TrimLeading(s) == s;
    assert TrimTrailing(s) == s;
    UpperHexKeepsHashesAndCase(s);
  }

  lemma {:induction false} UpperHexKeepsHashesAndCase(s: string)
    requires IsUpperHex(s)
    ensures RemoveHashes(s) == s && Uppercased(s) == s
  {
    if s != [] {
      assert IsUpperHexDigit(s[0]);
      assert IsUpperHex(s[1..]) by {
        assert forall i :: 0 <= i < |s[1..]| ==> s[1..][i] == s[i + 1];
      }
      UpperHexKeepsHashesAndCase(s[1..]);
      assert s == [s[0]] + s[1..];
    }
  }

  /** Normalisation leaves every string `init` can resolve to unchanged. */
  lemma ResolvedIsNormalized(hex: Hex, darkStyle: bool, adoptDarkMode: bool)
    ensures Normalized(ResolvedHex(hex, darkStyle, adoptDarkMode).RawValue()) ==
      ResolvedHex(hex, darkStyle, adoptDarkMode).RawValue()
  {
    var r := ResolvedHex(hex, darkStyle, adoptDarkMode);
    RawValuesAreDistinctSixDigitHex(r, r);
    UpperHexIsNormalized(r.RawValue());
  }

  predicate IsHexDigit(c: char)
  {
    '0' <= c <= '9' || 'a' <= c <= 'f' || 'A' <= c <= 'F'
  }

  function DigitValue(c: char): (r: nat)
    requires IsHexDigit(c)
    ensures r < 16
  {
    if '0' <= c <= '9' then c as int - '0' as int
    else if 'a' <= c <= 'f' then c as int - 'a' as int + 10
    else c as int - 'A' as int + 10
  }

  /** The value of the leading run of hex digits, accumulated onto `acc`. */
  function LeadingHexValue(s: string, acc: nat): nat
  {
    if s != [] && IsHexDigit(s[0]) then LeadingHexValue(s[1..], acc * 16 + DigitValue(s[0])) else acc
  }

  function Pow16(n: nat): (r: nat)
    ensures r > 0
  {
    if n == 0 then 1 else 16 * Pow16(n - 1)
  }

  lemma {:induction false} LeadingHexValueBound(s: string, acc: nat)
    ensures LeadingHexValue(s, acc) < (acc + 1) * Pow16(|s|)
  {
    if s != [] && IsHexDigit(s[0]) {
      var next := acc * 16 + DigitValue(s[0]);
      var p := Pow16(|s| - 1);
      LeadingHexValueBound(s[1..], next);
      assert next + 1 <= (acc + 1) * 16;
      MulMonotone(next + 1, (acc + 1) * 16, p);
      assert Pow16(|s|) == 16 * p;
      assert (acc + 1) * 16 * p == (acc + 1) * Pow16(|s|);
    } else {
      assert Pow16(|s|) >= 1;
    }
  }

  lemma MulMonotone(a: nat, b: nat, c: nat)
    requires a <= b
    ensures a * c <= b * c
  {
  }

  predicate IsHexString(s: string)
  {
    forall i :: 0 <= i < |s| ==> IsHexDigit(s[i])
  }

  lemma UpperHexIsHexString(s: string)
    requires IsUpperHex(s)
    ensures IsHexString(s)
  {
  }

  /** The number a string of hex digits denotes, read from its last digit backwards. */
  function HexNumber(s: string): (r: nat)
    requires IsHexString(s)
    ensures r < Pow16(|s|)
  {
    if s == [] then 0
    else
      var h := HexNumber(s[..|s| - 1]);
      MulMonotone(h + 1, Pow16(|s| - 1), 16);
      h * 16 + DigitValue(s[|s| - 1])
  }

  /** The first digit of a hex string weighs 16 to the power of the digits after it. */
  lemma {:induction false} HexNumberLeadingDigit(s: string)
    requires s != [] && IsHexString(s)
    ensures HexNumber(s) == DigitValue(s[0]) * Pow16(|s| - 1) + HexNumber(s[1..])
  {
    var n := |s|;
    var d := DigitValue(s[0]);
    if n == 1 {
      assert s[..0] == [];
      assert s[1..] == [];
    } else {
      var init := s[..n - 1];
      HexNumberLeadingDigit(init);
      assert init[1..] == s[1..][..n - 2];
      assert HexNumber(s[1..]) == HexNumber(init[1..]) * 16 + DigitValue(s[n - 1]);
      ShiftSum(d, Pow16(n - 2), HexNumber(init[1..]), 16, DigitValue(s[n - 1]));
    }
  }

  /** Regrouping `(a * b + c) * m + e` as `a * (b * m) + (c * m + e)`. */
  lemma ShiftSum(a: int, b: int, c: int, m: int, e: int)
    ensures (a * b + c) * m + e == a * (b * m) + (c * m + e)
  {
  }

  /** Scanning a whole hex string onto `acc` shifts `acc` past its digits and adds the number they denote. */
  lemma {:induction false} LeadingHexValueIsHexNumber(s: string, acc: nat)
    requires IsHexString(s)
    ensures LeadingHexValue(s, acc) == acc * Pow16(|s|) + HexNumber(s)
  {
    if s != [] {
      var d := DigitValue(s[0]);
      var p := Pow16(|s| - 1);
      LeadingHexValueIsHexNumber(s[1..], acc * 16 + d);
      HexNumberLeadingDigit(s);
      ShiftSum(acc, 16, d, p, HexNumber(s[1..]));
    }
  }

  const UInt64Max: int := 0xFFFF_FFFF_FFFF_FFFF

  /** Scanning at most six characters from 0 stays below 2^24. */
  lemma ShortScanBound(s: string)
    requires |s| <= 6
    ensures LeadingHexValue(s, 0) < 0x100_0000
  {
    LeadingHexValueBound(s, 0);
    Pow16Monotone(|s|, 6);
  }

  /** Scanning a whole hex string of at most 16 digits from 0 gives the number it denotes, which fits 64 bits. */
  lemma WholeHexScan(s: string)
    requires IsHexString(s) && |s| <= 16
    ensures LeadingHexValue(s, 0) == HexNumber(s) <= UInt64Max
  {
    LeadingHexValueIsHexNumber(s, 0);
    Pow16Monotone(|s|, 16);
    Pow16Sixteen();
  }

  /** `Scanner(string:).scanHexInt64(&RGB)` with RGB starting at 0; an overflow gives UInt64.max. */
  function ScanHexInt64(s: string): (r: bv64)
    ensures |s| <= 6 ==> r < 0x100_0000
    // a string of at most 16 hex digits scans to the number it denotes
    ensures IsHexString(s) && |s| <= 16 ==> HexNumber(s) <= UInt64Max && r == HexNumber(s) as bv64
  {
    var v := LeadingHexValue(s, 0);
    assert |s| <= 6 ==> v < 0x100_0000 by {
      if |s| <= 6 { ShortScanBound(s); }
    }
    assert IsHexString(s) && |s| <= 16 ==> v == HexNumber(s) <= UInt64Max by {
      if IsHexString(s) && |s| <= 16 { WholeHexScan(s); }
    }
    if v <= UInt64Max then v as bv64 else UInt64Max as bv64
  }

  lemma {:induction false} Pow16Add(m: nat, n: nat)
    ensures Pow16(m + n) == Pow16(m) * Pow16(n)
  {
    if n > 0 {
      Pow16Add(m, n - 1);
      assert Pow16(m + n) == 16 * Pow16(m + n - 1);
    }
  }

  /** 16 hex digits are exactly the 64 bits of a `UInt64`. */
  lemma Pow16Sixteen()
    ensures Pow16(16) == UInt64Max + 1
  {
    Pow16Add(4, 4);
    Pow16Add(8, 8);
  }

  lemma {:induction false} Pow16Monotone(m: nat, n: nat)
    requires m <= n
    ensures Pow16(m) <= Pow16(n)
  {
    if m < n {
      Pow16Monotone(m, n - 1);
    }
  }

  /** The integer channels `(RGB & 0xFF0000) >> 16`, `(RGB & 0x00FF00) >> 8` and `RGB & 0x0000FF`. */
  datatype Channels = Channels(red: bv64, green: bv64, blue: bv64)

  function SplitChannels(rgb: bv64): (r: Channels)
    ensures r.red <= 0xFF && r.green <= 0xFF && r.blue <= 0xFF
    ensures rgb < 0x100_0000 ==> (r.red << 16) | (r.green << 8) | r.blue == rgb
  {
    Channels((rgb & 0xFF0000) >> 16, (rgb & 0x00FF00) >> 8, rgb & 0x0000FF)
  }

  /** The alpha `init` uses: 0 for Clear, otherwise the given alpha when it lies in [0, 1], else 1. */
  function Alpha(hex: Hex, alpha: real): (r: real)
    ensures 0.0 <= r <= 1.0
    ensures hex == Clear ==> r == 0.0
    ensures hex != Clear && 0.0 <= alpha <= 1.0 ==> r == alpha
    ensures hex != Clear && !(0.0 <= alpha <= 1.0) ==> r == 1.0
  {
    if hex == Clear then 0.0 else if alpha >= 0.0 && alpha <= 1.0 then alpha else 1.0
  }

  /** The string `init` resolves to needs no clean-up and denotes a 24-bit number. */
  lemma ResolvedRawValueFacts(hex: Hex, darkStyle: bool, adoptDarkMode: bool)
    ensures var raw := ResolvedHex(hex, darkStyle, adoptDarkMode).RawValue();
      Normalized(raw) == raw && |raw| == 6 && IsHexString(raw) && HexNumber(raw) < 0x100_0000
  {
    var raw := ResolvedHex(hex, darkStyle, adoptDarkMode).RawValue();
    ResolvedIsNormalized(hex, darkStyle, adoptDarkMode);
    RawValuesAreDistinctSixDigitHex(ResolvedHex(hex, darkStyle, adoptDarkMode), hex);
    UpperHexIsHexString(raw);
    assert Pow16(|raw|) == 0x100_0000;
  }

  /** The integer components of the colour; the division by 255.0 is left out. */
  datatype Rgba = Rgba(channels: Channels, alpha: real)

  /** `Color(hex, alpha, adoptDarkMode:)` under the given interface style. */
  function MakeColor(hex: Hex, alpha: real, darkStyle: bool, adoptDarkMode: bool): (r: Rgba)
    ensures (r.channels.red << 16) | (r.channels.green << 8) | r.channels.blue ==
      ScanHexInt64(ResolvedHex(hex, darkStyle, adoptDarkMode).RawValue())
    ensures r.alpha == Alpha(hex, alpha)
  {
    var s := Normalized(ResolvedHex(hex, darkStyle, adoptDarkMode).RawValue());
    ResolvedRawValueFacts(hex, darkStyle, adoptDarkMode);
    Rgba(SplitChannels(ScanHexInt64(s)), Alpha(hex, alpha))
  }

  /** The channels of a colour recombine to the number its resolved hex string denotes. */
  lemma MakeColorDenotesRawValue(hex: Hex, alpha: real, darkStyle: bool, adoptDarkMode: bool)
    ensures var raw := ResolvedHex(hex, darkStyle, adoptDarkMode).RawValue();
      var c := MakeColor(hex, alpha, darkStyle, adoptDarkMode).channels;
      IsHexString(raw) && HexNumber(raw) < 0x100_0000 &&
      (c.red << 16) | (c.green << 8) | c.blue == HexNumber(raw) as bv64
  {
    ResolvedRawValueFacts(hex, darkStyle, adoptDarkMode);
  }

  /** "FF0055" denotes 0xFF0055: the first digit is the most significant. */
  lemma InfraredNumber()
    ensures HexNumber("FF0055") == 0xFF0055
  {
    assert "F"[..0] == [];
    assert "FF"[..1] == "F";
    assert "FF0"[..2] == "FF";
    assert "FF00"[..3] == "FF0";
    assert "FF005"[..4] == "FF00";
    assert "FF0055"[..5] == "FF005";
  }

  /** `Color.allHexColors`: one colour per case, in declaration order, with default arguments. */
  function AllHexColors(darkStyle: bool): (r: seq<Rgba>)
    ensures |r| == |AllCases|
    ensures forall i :: 0 <= i < |r| ==> r[i] == MakeColor(AllCases[i], 1.0, darkStyle, true)
  {
    seq(|AllCases|, i requires 0 <= i < |AllCases| => MakeColor(AllCases[i], 1.0, darkStyle, true))
  }
}
