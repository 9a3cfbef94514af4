/**
 * The colour conversions of both colour pickers
 * (src/components/Builder/ColorPicker.tsx and its identical v1 copy) and of
 * the preview's border: an embed colour is an integer, shown as `#` and its
 * lower-case base-16 digits left-padded with `0` to six, and read back with
 * `parseInt(text.replace('#', ''), 16)`.
 */
module Color {
  import opened Wrappers

  /** The picker's `defaultColor`, as text. */
  const DefaultColorText: string := "#85ce4b"

  predicate IsHexDigit(c: char) {
    ('0' <= c <= '9') || ('a' <= c <= 'f') || ('A' <= c <= 'F')
  }

  /** A digit `toString(16)` writes: 0-9 and lower-case a-f. */
  predicate IsLowerHexDigit(c: char) {
    ('0' <= c <= '9') || ('a' <= c <= 'f')
  }

  /** The value of one base-16 digit, either case. */
  function DigitValue(c: char): (v: nat)
    requires IsHexDigit(c)
    ensures v < 16
  {
    if '0' <= c <= '9' then c as int - '0' as int
    else if 'a' <= c <= 'f' then c as int - 'a' as int + 10
    else c as int - 'A' as int + 10
  }

  /** The lower-case digit `toString(16)` writes for v. */
  function DigitChar(v: nat): (c: char)
    requires v < 16
    ensures IsLowerHexDigit(c) && IsHexDigit(c) && DigitValue(c) == v
  {
    if v < 10 then ('0' as int + v) as char else ('a' as int + (v - 10)) as char
  }

  /** `n.toString(16)` for n >= 0: no leading zeros, at least one digit. */
  function HexDigits(n: nat): (s: string)
    ensures |s| >= 1
    ensures forall i :: 0 <= i < |s| ==> IsLowerHexDigit(s[i]) && IsHexDigit(s[i])
    ensures |s| > 1 ==> s[0] != '0'
    decreases n
  {
    if n < 16 then [DigitChar(n)] else HexDigits(n / 16) + [DigitChar(n % 16)]
  }

  /** `c.toString(16)`: a minus sign before the digits of |c| when c is negative. */
  function ToString16(c: int): string {
    if c < 0 then "-" + HexDigits(-c) else HexDigits(c)
  }

  /** `s.padStart(w, '0')` */
  function PadStart(s: string, w: nat): (r: string)
    ensures |r| == if |s| >= w then |s| else w
    ensures |s| >= w ==> r == s
    ensures |s| < w ==> r == Zeros(w - |s|) + s
  {
    if |s| >= w then s else Zeros(w - |s|) + s
  }

  function Zeros(n: nat): (r: string)
    ensures |r| == n && forall i :: 0 <= i < n ==> r[i] == '0'
  {
    if n == 0 then [] else "0" + Zeros(n - 1)
  }

  /** `#${color.toString(16).padStart(6, '0')}`: the picker's text and the preview's border colour. */
  function HexColor(c: int): string {
    "#" + PadStart(ToString16(c), 6)
  }

  /** `s.replace('#', '')`: a string pattern replaces only its first occurrence. */
  function RemoveFirstHash(s: string): (r: string)
    ensures '#' !in s ==> r == s
    ensures |s| > 0 && s[0] == '#' ==> r == s[1..]
  {
    if s == [] then []
    else if s[0] == '#' then s[1..]
    else [s[0]] + RemoveFirstHash(s[1..])
  }

  /** The `#` removed is the first one, wherever it is. */
  lemma {:induction false} RemoveFirstHashAt(s: string, k: nat)
    requires k < |s| && s[k] == '#' && '#' !in s[..k]
    ensures RemoveFirstHash(s) == s[..k] + s[k + 1..]
    decreases k
  {
    if k > 0 {
      assert s[0] in s[..k];
      assert s[1..][k - 1] == '#';
      assert s[1..][..k - 1] == s[1..k];
      RemoveFirstHashAt(s[1..], k - 1);
      assert s[1..][k..] == s[k + 1..];
      assert [s[0]] + s[1..k] == s[..k];
    }
  }

  /** The longest prefix of base-16 digits. */
  function HexPrefix(s: string): (r: string)
    ensures r <= s
    ensures forall i :: 0 <= i < |r| ==> IsHexDigit(r[i])
    ensures |r| < |s| ==> !IsHexDigit(s[|r|])
  {
    if s == [] || !IsHexDigit(s[0]) then [] else [s[0]] + HexPrefix(s[1..])
  }

  /** The value of a digit string, most significant digit first. */
  function HexValue(s: string): nat
    requires forall i :: 0 <= i < |s| ==> IsHexDigit(s[i])
  {
    if s == [] then 0 else HexValue(s[..|s| - 1]) * 16 + DigitValue(s[|s| - 1])
  }

  /** `parseInt` drops a `0x` or `0X` prefix when the radix is 16. */
  function DropHexPrefix(s: string): string {
    if |s| >= 2 && s[0] == '0' && (s[1] == 'x' || s[1] == 'X') then s[2..] else s
  }

  /**
   * `parseInt(s, 16)` without leading white space: an optional sign, an
   * optional `0x`, then the longest run of base-16 digits; None stands for NaN,
   * which there is when the run is empty.
   */
  function ParseInt16(s: string): (r: Option<int>)
    ensures r.None? <==> HexPrefix(DropHexPrefix(if |s| > 0 && (s[0] == '+' || s[0] == '-') then s[1..] else s)) == []
  {
    var signed := |s| > 0 && (s[0] == '+' || s[0] == '-');
    var body := DropHexPrefix(if signed then s[1..] else s);
    var digits := HexPrefix(body);
    if digits == [] then None
    else
      var v: int := HexValue(digits);
      if signed && s[0] == '-' then Some(-v) else Some(v)
  }

  /** `handleColorChange(text)`: the colour the picker reports, None for NaN. */
  function ParseColor(text: string): Option<int> {
    ParseInt16(RemoveFirstHash(text))
  }

  // ---- properties ------------------------------------------------------------------

  /** `toString(16)` and the digit value are inverse. */
  lemma {:induction false} HexDigitsValue(n: nat)
    ensures HexValue(HexDigits(n)) == n
    decreases n
  {
    if n >= 16 {
      var s := HexDigits(n);
      assert s[..|s| - 1] == HexDigits(n / 16);
      HexDigitsValue(n / 16);
    }
  }

  /** n has at most k base-16 digits exactly when n < 16^k. */
  lemma {:induction false} HexDigitsLength(n: nat, k: nat)
    ensures |HexDigits(n)| <= k + 1 <==> n < Power16(k + 1)
    decreases n
  {
    if n >= 16 {
      if k == 0 {
        assert Power16(1) == 16;
      } else {
        HexDigitsLength(n / 16, k - 1);
      }
    }
    PowerPositive(k);
  }

  function Power16(k: nat): (p: nat)
    ensures p >= 1
  {
    if k == 0 then 1 else 16 * Power16(k - 1)
  }

  lemma PowerPositive(k: nat)
    ensures Power16(k + 1) >= 16
  {
  }

  /** Leading zeros do not change a digit string's value. */
  lemma {:induction false} ZerosValue(n: nat, s: string)
    requires forall i :: 0 <= i < |s| ==> IsHexDigit(s[i])
    ensures forall i :: 0 <= i < |Zeros(n) + s| ==> IsHexDigit((Zeros(n) + s)[i])
    ensures HexValue(Zeros(n) + s) == HexValue(s)
    decreases n + |s|
  {
    var z := Zeros(n) + s;
    if s == [] {
      assert z == Zeros(n);
      if n > 0 {
        assert z[..|z| - 1] == Zeros(n - 1);
        ZerosValue(n - 1, []);
        assert Zeros(n - 1) + [] == Zeros(n - 1);
      }
    } else {
      assert z[..|z| - 1] == Zeros(n) + s[..|s| - 1];
      ZerosValue(n, s[..|s| - 1]);
    }
  }

  /** A string of digits is its own longest digit prefix. */
  lemma {:induction false} AllDigitsPrefix(s: string)
    requires forall i :: 0 <= i < |s| ==> IsHexDigit(s[i])
    ensures HexPrefix(s) == s
    decreases |s|
  {
    if s != [] {
      AllDigitsPrefix(s[1..]);
    }
  }

  /** Colours 0 through 0xFFFFFF are shown as exactly seven characters, larger ones as more. */
  lemma HexColorLength(c: int)
    requires c >= 0
    ensures |HexColor(c)| == 7 <==> c <= 0xFFFFFF
    ensures |HexColor(c)| >= 7
  {
    HexDigitsLength(c, 5);
    assert Power16(6) == 0x1000000;
  }

  /** Padding a digit string with zeros keeps it a digit string with the same value. */
  lemma PaddedDigits(digits: string, w: nat)
    requires forall i :: 0 <= i < |digits| ==> IsHexDigit(digits[i]) && digits[i] != 'x'
    ensures var body := PadStart(digits, w);
      && (forall i :: 0 <= i < |body| ==> IsHexDigit(body[i]) && body[i] != 'x')
      && HexValue(body) == HexValue(digits)
  {
    var body := PadStart(digits, w);
    if |digits| < w {
      var z := Zeros(w - |digits|);
      assert body == z + digits;
      forall i | 0 <= i < |body| ensures IsHexDigit(body[i]) && body[i] != 'x' {
        if i >= |z| {
          assert body[i] == digits[i - |z|];
        } else {
          assert body[i] == z[i];
        }
      }
      ZerosValue(w - |digits|, digits);
    }
  }

  /** What `handleColorChange` does with `#` followed by a digit string that has no sign and no `0x`. */
  lemma ParseHashDigits(body: string)
    requires |body| > 0 && forall i :: 0 <= i < |body| ==> IsHexDigit(body[i]) && body[i] != 'x'
    ensures ParseColor("#" + body) == Some(HexValue(body) as int)
  {
    assert ("#" + body)[1..] == body;
    assert RemoveFirstHash("#" + body) == body;
    assert body[0] != '+' && body[0] != '-';
    if |body| >= 2 {
      assert body[1] != 'x';
      assert body[1] != 'X';
    }
    assert DropHexPrefix(body) == body;
    AllDigitsPrefix(body);
  }

  /** The text `hexColor` shows for an in-range colour reads back as that colour. */
  lemma RoundTrip(c: int)
    requires 0 <= c <= 0xFFFFFF
    ensures ParseColor(HexColor(c)) == Some(c)
  {
    var digits := HexDigits(c);
    PaddedDigits(digits, 6);
    ParseHashDigits(PadStart(digits, 6));
    HexDigitsValue(c);
  }

  /** The reset value is the colour the presets use, and it is shown as the reset text. */
  lemma ResetColor()
    ensures ParseColor(DefaultColorText) == Some(0x85ce4b)
    ensures HexColor(0x85ce4b) == DefaultColorText
  {
    assert HexDigits(0x8) == "8";
    assert HexDigits(0x85) == "85";
    assert HexDigits(0x85c) == "85c";
    assert HexDigits(0x85ce) == "85ce";
    assert HexDigits(0x85ce4) == "85ce4";
    assert HexDigits(0x85ce4b) == "85ce4b";
    assert ToString16(0x85ce4b) == "85ce4b";
    assert HexColor(0x85ce4b) == DefaultColorText;
    RoundTrip(0x85ce4b);
  }
}
