/** pkg/xlog/color.go: ANSI foreground colours and the wrapper that paints
    a string with one of them. */
module XLogColor {
  import opened Decimal

  type TermColor = x: int | 0 <= x < 0x100

  const ColorBlack: TermColor := 30
  const ColorRed: TermColor := 31
  const ColorGreen: TermColor := 32
  const ColorYellow: TermColor := 33
  const ColorBlue: TermColor := 34
  const ColorMagenta: TermColor := 35
  const ColorCyan: TermColor := 36
  const ColorWhite: TermColor := 37

  const Esc: char := '\U{1B}'
  /** The sequence that resets the terminal colour. */
  const Reset: string := [Esc, '[', '0', 'm']

  /** The eight colours in declaration order. */
  function Palette(): seq<TermColor>
  {
    [ColorBlack, ColorRed, ColorGreen, ColorYellow, ColorBlue, ColorMagenta, ColorCyan, ColorWhite]
  }

  /** The colours are consecutive codes starting at 30 (an iota sequence). */
  lemma PaletteConsecutive()
    ensures |Palette()| == 8
    ensures forall i :: 0 <= i < |Palette()| ==> Palette()[i] == 30 + i
  {
  }

  /** termColor.Add: ESC '[' code 'm', then s, then the reset sequence. */
  function Add(c: TermColor, s: string): (r: string)
    ensures |r| == 3 + |NatToString(c)| + |s| + |Reset|
  {
    [Esc, '['] + NatToString(c) + ['m'] + s + Reset
  }

  /** Add's result splits back into its parts: the colour code parses back
      to c, s stands unchanged in the middle, and the reset sequence ends it. */
  lemma AddParts(c: TermColor, s: string)
    ensures var r := Add(c, s);
            var k := |NatToString(c)|;
            r[..2] == [Esc, '['] &&
            AllDigits(r[2..2 + k]) && ParseNat(r[2..2 + k]) == c &&
            r[2 + k] == 'm' &&
            r[3 + k..3 + k + |s|] == s &&
            r[|r| - 4..] == Reset
  {
    var r := Add(c, s);
    var k := |NatToString(c)|;
    assert r[2..2 + k] == NatToString(c);
    ParseNatToString(c);
  }

  /** Painting is injective: the colour and the text are recoverable. */
  lemma AddInjective(c1: TermColor, s1: string, c2: TermColor, s2: string)
    requires Add(c1, s1) == Add(c2, s2)
    ensures c1 == c2 && s1 == s2
  {
    AddParts(c1, s1);
    AddParts(c2, s2);
    var r := Add(c1, s1);
    var k1, k2 := |NatToString(c1)|, |NatToString(c2)|;
    if k1 != k2 {
      // one side would read 'm' where the other has a digit
      assert false;
    }
    assert k1 == k2;
  }
}
