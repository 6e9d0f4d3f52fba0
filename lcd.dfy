/**
 * Nokia 5110 display driver (PCD8544 controller, SPI). The driver keeps a local
 * copy of the display RAM: six banks of 84 columns, one byte per column, bit k
 * of a byte being pixel row 8 * bank + k. Text and drawing operations only change
 * that copy and a text cursor (bank, column); Commit sends the copy to the
 * controller. The C++ class Lcd and the C module Lcd_* have the same bodies, so
 * one class models both.
 *
 * The local copy is an `array2` with the source's dimensions. Its flat view
 * Cells lists the bytes bank after bank, the order in which _BufferPutByte's
 * cursor walks them and Commit sends them; the specification functions below
 * work on that view.
 */
module LcdDriver {
  import opened AuxFunctions
  import opened LcdFonts

  type UInt8 = x: int | 0 <= x < 0x100
  type UInt16 = x: int | 0 <= x < 0x1_0000

  // PCD8544 command bytes and geometry
  const FunctionSet: bv8 := 0x20
  const DisplayControl: bv8 := 0x08
  const SetBankAddr: bv8 := 0x40
  const SetColumnAddr: bv8 := 0x80
  const PowerDown: bv8 := 0x04
  const ExtendedInstruction: bv8 := 0x01
  const DisplayNormal: bv8 := 0x04
  const DisplayInverted: bv8 := 0x05
  const SetTemp: bv8 := 0x04
  const SetBias: bv8 := 0x10
  const SetVop: bv8 := 0x80

  const Columns: nat := 84
  const Rows: nat := 48
  const Banks: nat := 6
  const MaxBytes: nat := 504

  datatype PowerdownMode = PdOff | PdOn | PdGet
  datatype FontSelect = FontDefault | FontSmall | FontGet
  datatype BacklightMode = BklOff | BklOn | BklGet
  datatype InvertMode = InvOff | InvOn | InvGet
  datatype PixelMode = PixelOff | PixelOn | PixelXor

  /** Level of the DC line while a byte is shifted out. */
  datatype LcdMode = Command | Data
  datatype Transfer = Transfer(Mode: LcdMode, Byte: bv8)

  /** The commands Init sends before switching the display on. */
  const StartupCommands: seq<Transfer> := [
    Transfer(Command, FunctionSet | ExtendedInstruction),
    Transfer(Command, SetVop | 0x3F),
    Transfer(Command, SetTemp | 0x01),
    Transfer(Command, SetBias | 0x03),
    Transfer(Command, FunctionSet),
    Transfer(Command, DisplayControl | DisplayNormal)
  ]

  /** A cleared display RAM. */
  const Blank: seq<bv8> := seq(MaxBytes, _ => 0)

  // ---------------------------------------------------------------------
  // Pixel modes

  /** _AdjustByte: combines the byte to write with the byte already in the buffer. */
  function AdjustByte(toSend: bv8, inBuffer: bv8, mode: PixelMode): (r: bv8)
    // The pixels the byte to write does not set are those of the buffer, in every mode ...
    ensures Unmasked(r, toSend) == Unmasked(inBuffer, toSend)
    // ... and those it sets are set (ON), toggled (XOR) or cleared (OFF).
    ensures mode == PixelOn ==> Masked(r, toSend) == toSend
    ensures mode == PixelXor ==> Masked(r, toSend) == Masked(!inBuffer, toSend)
    ensures mode == PixelOff ==> Masked(r, toSend) == 0
  {
    match mode
    case PixelOn => OnBits(toSend, inBuffer); toSend | inBuffer
    case PixelXor => XorBits(toSend, inBuffer); toSend ^ inBuffer
    case PixelOff => OffBits(toSend, inBuffer); inBuffer & !toSend
  }

  /** The pixels of b that the byte t does not set. */
  function Unmasked(b: bv8, t: bv8): bv8 {
    b & !t
  }

  /** The pixels of b that the byte t sets. */
  function Masked(b: bv8, t: bv8): bv8 {
    b & t
  }

  /** ON: the pixels of t are set, the others keep b's. */
  lemma OnBits(t: bv8, b: bv8)
    ensures Unmasked(t | b, t) == Unmasked(b, t) && Masked(t | b, t) == t
  {
  }

  /** XOR: the pixels of t are b's inverted, the others keep b's. */
  lemma XorBits(t: bv8, b: bv8)
    ensures Unmasked(t ^ b, t) == Unmasked(b, t) && Masked(t ^ b, t) == Masked(!b, t)
  {
  }

  /** OFF: the pixels of t are cleared, the others keep b's. */
  lemma OffBits(t: bv8, b: bv8)
    ensures Unmasked(b & !t, t) == Unmasked(b, t) && Masked(b & !t, t) == 0
  {
  }

  /** The byte with only bit k set. */
  const BitMasks: seq<bv8> := [0x01, 0x02, 0x04, 0x08, 0x10, 0x20, 0x40, 0x80]

  /** Bit k of a byte, pixel row k of its column. */
  predicate Bit(b: bv8, k: nat)
    requires k < 8
  {
    b & BitMasks[k] != 0
  }

  /** Pixel by pixel: ON sets the pixels of the byte to write, XOR toggles them, OFF clears them. */
  lemma AdjustBits(toSend: bv8, inBuffer: bv8, mode: PixelMode, k: nat)
    requires k < 8
    ensures Bit(AdjustByte(toSend, inBuffer, mode), k) == match mode
      case PixelOn => Bit(toSend, k) || Bit(inBuffer, k)
      case PixelXor => Bit(toSend, k) != Bit(inBuffer, k)
      case PixelOff => Bit(inBuffer, k) && !Bit(toSend, k)
  {
    SingleBit(k);
    var m, r := BitMasks[k], AdjustByte(toSend, inBuffer, mode);
    assert Bit(r, k) == (r & m != 0) && Bit(toSend, k) == (toSend & m != 0) && Bit(inBuffer, k) == (inBuffer & m != 0);
    match mode {
      case PixelOn => OnBit(toSend, inBuffer, r, m);
      case PixelXor => XorBit(toSend, inBuffer, r, m);
      case PixelOff => OffBit(toSend, inBuffer, r, m);
    }
  }

  /** Each entry of BitMasks has exactly one bit set. */
  lemma SingleBit(k: nat)
    requires k < 8
    ensures BitMasks[k] != 0 && BitMasks[k] & (BitMasks[k] - 1) == 0
  {
    if k == 0 {} else if k == 1 {} else if k == 2 {} else if k == 3 {}
    else if k == 4 {} else if k == 5 {} else if k == 6 {} else {}
  }

  // The per-bit readings of the three modes, for a mask m with exactly one bit set.

  lemma OnBit(t: bv8, b: bv8, r: bv8, m: bv8)
    requires m != 0 && m & (m - 1) == 0 && r == t | b
    ensures (r & m != 0) == (t & m != 0 || b & m != 0)
  {
  }

  lemma XorBit(t: bv8, b: bv8, r: bv8, m: bv8)
    requires m != 0 && m & (m - 1) == 0 && r == t ^ b
    ensures (r & m != 0) == ((t & m != 0) != (b & m != 0))
  {
  }

  lemma OffBit(t: bv8, b: bv8, r: bv8, m: bv8)
    requires m != 0 && m & (m - 1) == 0 && r == b & !t
    ensures (r & m != 0) == (b & m != 0 && t & m == 0)
  {
  }

  /** DrawPixel combines buffer and mask in the other order: the same byte as AdjustByte. */
  lemma CombineCommutes(mask: bv8, inBuffer: bv8, mode: PixelMode, r: bv8)
    requires mode == PixelOn ==> r == inBuffer | mask
    requires mode == PixelXor ==> r == inBuffer ^ mask
    requires mode == PixelOff ==> r == inBuffer & !mask
    ensures r == AdjustByte(mask, inBuffer, mode)
  {
  }

  /** DrawPixel's three branches on the buffer byte b and the pixel's mask: the byte AdjustByte computes. */
  method CombinePixel(b: bv8, mask: bv8, mode: PixelMode) returns (r: bv8)
    ensures r == AdjustByte(mask, b, mode)
  {
    r := b;
    if mode == PixelOn {
      r := r | mask;
    } else if mode == PixelXor {
      r := r ^ mask;
    } else if mode == PixelOff {
      r := r & !mask;
    }
    CombineCommutes(mask, b, mode, r);
  }

  /** A blank byte leaves the buffer as it was, in every mode. */
  lemma BlankKeepsByte(inBuffer: bv8, mode: PixelMode)
    ensures AdjustByte(0, inBuffer, mode) == inBuffer
  {
  }

  /** Writing the same byte twice in XOR mode restores the buffer. */
  lemma XorTwiceRestores(toSend: bv8, inBuffer: bv8)
    ensures AdjustByte(toSend, AdjustByte(toSend, inBuffer, PixelXor), PixelXor) == inBuffer
  {
  }

  // ---------------------------------------------------------------------
  // Cursor and flat positions

  /** (bank, column) names a byte of the buffer. */
  predicate OnScreen(bank: int, column: int) {
    0 <= bank < Banks && 0 <= column < Columns
  }

  /** Flat position of (bank, column) in Cells. */
  function Index(bank: nat, column: nat): nat {
    bank * 84 + column
  }

  lemma IndexPosition(bank: nat, column: nat)
    requires bank < Banks && column < Columns
    ensures Index(bank, column) < MaxBytes
    ensures Index(bank, column) / 84 == bank && Index(bank, column) % 84 == column
  {
  }

  lemma PositionIndex(q: nat)
    requires q < MaxBytes
    ensures q / 84 < Banks && q == Index(q / 84, q % 84)
  {
  }

  /** The cursor step of _BufferPutByte: the next column, from the last column to column 0 of the next bank, and from the last bank back to bank 0. */
  // In flat terms the step stays on the display and is the successor modulo the size of the RAM.
  function Advance(bank: nat, column: nat): (r: (nat, nat))
    ensures bank < Banks && column < Columns ==>
      r.0 < Banks && r.1 < Columns && Index(r.0, r.1) == (Index(bank, column) + 1) % MaxBytes
  {
    if column == Columns - 1 then (if bank == Banks - 1 then 0 else bank + 1, 0)
    else (bank, column + 1)
  }

  lemma ModShift(a: nat, b: nat)
    ensures (a % MaxBytes + b) % MaxBytes == (a + b) % MaxBytes
  {
  }

  lemma ModSmall(a: nat)
    requires a < MaxBytes
    ensures a % MaxBytes == a
  {
  }

  /** Position p + n (mod the RAM size) is q exactly when q lies n places after p. */
  lemma ModWindow(p: nat, q: nat, n: nat)
    requires p < MaxBytes && q < MaxBytes && n < MaxBytes
    ensures ((p + n) % MaxBytes == q) == ((q - p) % MaxBytes == n)
  {
  }

  // ---------------------------------------------------------------------
  // Writing byte runs

  /**
   * The RAM after writing `bytes` from flat position p on, each byte combined
   * with the byte already there under `mode`, the position wrapping from the
   * last column of the last bank to the first column of bank 0.
   */
  function Draw(cells: seq<bv8>, p: nat, bytes: seq<bv8>, mode: PixelMode): (r: seq<bv8>)
    requires |cells| == MaxBytes
    ensures |r| == MaxBytes
    decreases |bytes|
  {
    if bytes == [] then cells
    else
      var n := |bytes| - 1;
      var prev := Draw(cells, p, bytes[..n], mode);
      var q := (p + n) % MaxBytes;
      prev[q := AdjustByte(bytes[n], prev[q], mode)]
  }

  /** Two runs written one after the other are one run of both. */
  lemma {:induction false} DrawAppend(cells: seq<bv8>, p: nat, a: seq<bv8>, b: seq<bv8>, mode: PixelMode)
    requires |cells| == MaxBytes
    ensures Draw(Draw(cells, p, a, mode), (p + |a|) % MaxBytes, b, mode) == Draw(cells, p, a + b, mode)
    decreases |b|
  {
    if b == [] {
      assert a + b == a;
    } else {
      var n := |b| - 1;
      DrawAppend(cells, p, a, b[..n], mode);
      assert (a + b)[..|a| + n] == a + b[..n];
      ModShift(p + |a|, n);
      assert (a + b)[|a| + n] == b[n];
    }
  }

  /** The loop step of the run writers: after counter bytes of the run, writing byte `counter` at the cursor gives counter + 1 bytes of it. */
  lemma DrawNext(cells: seq<bv8>, p: nat, bytes: seq<bv8>, counter: nat, mode: PixelMode, before: seq<bv8>, q: nat, after: seq<bv8>)
    requires |cells| == MaxBytes && counter < |bytes| && before == Draw(cells, p, bytes[..counter], mode)
    requires q == (p + counter) % MaxBytes && after == before[q := AdjustByte(bytes[counter], before[q], mode)]
    ensures after == Draw(cells, p, bytes[..counter + 1], mode)
  {
    assert bytes[..counter + 1][..counter] == bytes[..counter];
  }

  /**
   * A run no longer than the RAM touches each byte at most once: the byte q
   * places k after p becomes the k-th byte of the run combined with the old
   * one, every other byte keeps its value.
   */
  lemma {:induction false} DrawWindow(cells: seq<bv8>, p: nat, bytes: seq<bv8>, mode: PixelMode, q: nat)
    requires |cells| == MaxBytes && p < MaxBytes && |bytes| <= MaxBytes && q < MaxBytes
    ensures Draw(cells, p, bytes, mode)[q] ==
      if (q - p) % MaxBytes < |bytes| then AdjustByte(bytes[(q - p) % MaxBytes], cells[q], mode) else cells[q]
    decreases |bytes|
  {
    if bytes != [] {
      var n := |bytes| - 1;
      DrawWindow(cells, p, bytes[..n], mode, q);
      ModWindow(p, q, n);
    }
  }

  /** The RAM after ClearRange: the n bytes from flat position p on, wrapping, are zero. */
  function Cleared(cells: seq<bv8>, p: nat, n: nat): (r: seq<bv8>)
    requires |cells| == MaxBytes
    ensures |r| == MaxBytes
  {
    seq(MaxBytes, q requires 0 <= q < MaxBytes => if (q - p) % MaxBytes < n then 0 else cells[q])
  }

  /** One more zero written at the cursor extends the cleared window by one byte. */
  lemma ClearedStep(cells: seq<bv8>, p: nat, k: nat)
    requires |cells| == MaxBytes && p < MaxBytes
    ensures Cleared(cells, p, k)[(p + k) % MaxBytes := 0] == Cleared(cells, p, k + 1)
  {
    var after := Cleared(cells, p, k)[(p + k) % MaxBytes := 0];
    forall q | 0 <= q < MaxBytes ensures after[q] == Cleared(cells, p, k + 1)[q] {
      if k < MaxBytes {
        ModWindow(p, q, k);
      }
    }
  }

  /** Clearing the 84 bytes from column 0 of a bank clears that bank and nothing else. */
  lemma ClearedBank(cells: seq<bv8>, bank: nat)
    requires |cells| == MaxBytes && bank < Banks
    ensures forall q :: 0 <= q < MaxBytes ==>
      Cleared(cells, Index(bank, 0), Columns)[q] == if q / 84 == bank then 0 else cells[q]
  {
  }

  /** Clearing 504 bytes clears the whole RAM, whatever the start. */
  lemma ClearedAll(cells: seq<bv8>, p: nat)
    requires |cells| == MaxBytes
    ensures Cleared(cells, p, MaxBytes) == Blank
  {
  }

  // ---------------------------------------------------------------------
  // Glyphs

  /** The characters of the two 6x8 0x20 to 0x7f. */
  predicate Printable(c: char) {
    0x20 <= c as int < 0x80
  }

  predicate AllPrintable(text: seq<char>) {
    forall k :: 0 <= k < |text| ==> Printable(text[k])
  }

  /** The six columns WriteChar writes for `c`: five from the font table and a blank one; with the GET font, six blank columns. */
  function Glyph(fonts: FontSet, c: char, font: FontSelect): (g: seq<bv8>)
    requires WellFormed(fonts) && (font != FontGet ==> Printable(c))
    ensures |g| == 6 && g[5] == 0
  {
    match font
    case FontDefault => fonts.Regular[c as int - 0x20] + [0]
    case FontSmall => fonts.Small[c as int - 0x20] + [0]
    case FontGet => [0, 0, 0, 0, 0, 0]
  }

  /** The columns WriteString writes for `text`: its glyphs one after the other. */
  function TextBytes(fonts: FontSet, text: seq<char>, font: FontSelect): (r: seq<bv8>)
    requires WellFormed(fonts) && (font != FontGet ==> AllPrintable(text))
    ensures |r| == 6 * |text|
  {
    if text == [] then []
    else TextBytes(fonts, text[..|text| - 1], font) + Glyph(fonts, text[|text| - 1], font)
  }

  /** The RAM after the characters of `text` have been written glyph by glyph from p, six bytes apart, as WriteString's loop does. */
  function TextDrawn(fonts: FontSet, cells: seq<bv8>, p: nat, text: seq<char>, font: FontSelect, mode: PixelMode): (r: seq<bv8>)
    requires WellFormed(fonts) && |cells| == MaxBytes && (font != FontGet ==> AllPrintable(text))
    ensures |r| == MaxBytes
  {
    if text == [] then cells
    else
      var n := |text| - 1;
      Draw(TextDrawn(fonts, cells, p, text[..n], font, mode), (p + 6 * n) % MaxBytes, Glyph(fonts, text[n], font), mode)
  }

  /** Writing the glyphs one after another is writing the run of their bytes. */
  lemma {:induction false} TextDrawnIsDraw(fonts: FontSet, cells: seq<bv8>, p: nat, text: seq<char>, font: FontSelect, mode: PixelMode)
    requires WellFormed(fonts) && |cells| == MaxBytes && (font != FontGet ==> AllPrintable(text))
    ensures TextDrawn(fonts, cells, p, text, font, mode) == Draw(cells, p, TextBytes(fonts, text, font), mode)
    decreases |text|
  {
    if text != [] {
      var n := |text| - 1;
      TextDrawnIsDraw(fonts, cells, p, text[..n], font, mode);
      DrawAppend(cells, p, TextBytes(fonts, text[..n], font), Glyph(fonts, text[n], font), mode);
    }
  }

  /** The first NUL of a buffer holding `text` and then a NUL is the one after the text. */
  lemma FirstNul(s: seq<char>, text: seq<char>, i: nat)
    requires i <= |text| < |s| && s[..|text|] == text && s[i] == '\0'
    requires forall k :: 0 <= k < |text| ==> text[k] != '\0'
    ensures i == |text|
  {
    assert forall k :: 0 <= k < |text| ==> s[k] == text[k];
  }

  /** When WriteString's loop stops at the first NUL, the whole text is drawn. */
  lemma WholeTextDrawn(fonts: FontSet, cells: seq<bv8>, p: nat, s: seq<char>, text: seq<char>, i: nat, font: FontSelect, mode: PixelMode)
    requires WellFormed(fonts) && |cells| == MaxBytes && (font != FontGet ==> AllPrintable(text))
    requires i <= |text| < |s| && s[..|text|] == text && s[i] == '\0'
    requires forall k :: 0 <= k < |text| ==> text[k] != '\0'
    ensures i == |text|
    ensures TextDrawn(fonts, cells, p, text[..i], font, mode) == Draw(cells, p, TextBytes(fonts, text, font), mode)
  {
    FirstNul(s, text, i);
    assert text[..i] == text;
    TextDrawnIsDraw(fonts, cells, p, text, font, mode);
  }

  /** The loop step of WriteString: the glyph of character i written after the first i characters gives the first i + 1, and the cursor moves six places. */
  lemma TextStep(fonts: FontSet, cells: seq<bv8>, p: nat, text: seq<char>, i: nat, font: FontSelect, mode: PixelMode, before: seq<bv8>, q: nat, after: seq<bv8>, next: nat)
    requires WellFormed(fonts) && |cells| == MaxBytes && i < |text| && (font != FontGet ==> AllPrintable(text))
    requires before == TextDrawn(fonts, cells, p, text[..i], font, mode) && q == (p + 6 * i) % MaxBytes
    requires after == Draw(before, q, Glyph(fonts, text[i], font), mode) && next == (q + 6) % MaxBytes
    ensures after == TextDrawn(fonts, cells, p, text[..i + 1], font, mode)
    ensures next == (p + 6 * (i + 1)) % MaxBytes
  {
    ModShift(p + 6 * i, 6);
    assert text[..i + 1][..i] == text[..i];
  }

  /** The columns after a character keep their blank separator: the sixth byte is left as it was. */
  lemma GlyphKeepsSeparator(fonts: FontSet, cells: seq<bv8>, p: nat, c: char, font: FontSelect, mode: PixelMode)
    requires WellFormed(fonts) && |cells| == MaxBytes && p < MaxBytes && (font != FontGet ==> Printable(c))
    ensures Draw(cells, p, Glyph(fonts, c, font), mode)[(p + 5) % MaxBytes] == cells[(p + 5) % MaxBytes]
  {
    var q := (p + 5) % MaxBytes;
    DrawWindow(cells, p, Glyph(fonts, c, font), mode, q);
    ModWindow(p, q, 5);
    BlankKeepsByte(cells[q], mode);
  }

  /** With the GET font nothing is drawn: WriteChar only moves the cursor. */
  lemma NoFontDrawsNothing(fonts: FontSet, cells: seq<bv8>, p: nat, c: char, mode: PixelMode)
    requires WellFormed(fonts) && |cells| == MaxBytes && p < MaxBytes
    ensures Draw(cells, p, Glyph(fonts, c, FontGet), mode) == cells
  {
    forall q | 0 <= q < MaxBytes ensures Draw(cells, p, Glyph(fonts, c, FontGet), mode)[q] == cells[q] {
      DrawWindow(cells, p, Glyph(fonts, c, FontGet), mode, q);
      BlankKeepsByte(cells[q], mode);
    }
  }

  /** The characters of the 10x16 font: the digits, 0x3a (a minus sign) and 0x3b (a point). */
  predicate BigCharset(c: char) {
    0x30 <= c as int <= 0x3B
  }

  predicate AllBig(text: seq<char>) {
    forall k :: 0 <= k < |text| ==> BigCharset(text[k])
  }

  /** The 18 bytes of a big glyph: nine columns of the upper bank, then nine of the lower bank. */
  function BigGlyph(fonts: FontSet, c: char): (g: seq<bv8>)
    requires WellFormed(fonts) && BigCharset(c)
    ensures |g| == 18
  {
    fonts.Big[c as int - 0x30]
  }

  /** The RAM after WriteCharBig at (bank, column): the upper half from (bank, column), the lower half from (bank + 1, column). */
  function DrawBig(fonts: FontSet, cells: seq<bv8>, bank: nat, column: nat, c: char, mode: PixelMode): (r: seq<bv8>)
    requires WellFormed(fonts) && |cells| == MaxBytes && bank < Banks - 1 && BigCharset(c)
    ensures |r| == MaxBytes
  {
    var g := BigGlyph(fonts, c);
    Draw(Draw(cells, Index(bank, column), g[..9], mode), Index(bank + 1, column), g[9..], mode)
  }

  /** The RAM after the first `counter` of the 18 bytes WriteCharBig writes: up to nine at (bank, column), the rest at (bank + 1, column). */
  function BigPartial(cells: seq<bv8>, bank: nat, column: nat, glyph: seq<bv8>, counter: nat, mode: PixelMode): (r: seq<bv8>)
    requires |cells| == MaxBytes && counter <= |glyph| == 18
    ensures |r| == MaxBytes
  {
    if counter <= 9 then Draw(cells, Index(bank, column), glyph[..counter], mode)
    else Draw(Draw(cells, Index(bank, column), glyph[..9], mode), Index(bank + 1, column), glyph[9..counter], mode)
  }

  /** Byte `counter` of a big glyph goes to the next column of its half. */
  lemma BigStep(cells: seq<bv8>, bank: nat, column: nat, glyph: seq<bv8>, counter: nat, mode: PixelMode, before: seq<bv8>, q: nat, after: seq<bv8>)
    requires |cells| == MaxBytes && counter < |glyph| == 18 && before == BigPartial(cells, bank, column, glyph, counter, mode)
    requires q == if counter < 9 then (Index(bank, column) + counter) % MaxBytes else (Index(bank + 1, column) + counter - 9) % MaxBytes
    requires after == before[q := AdjustByte(glyph[counter], before[q], mode)]
    ensures after == BigPartial(cells, bank, column, glyph, counter + 1, mode)
  {
    var p0, p1 := Index(bank, column), Index(bank + 1, column);
    if counter < 9 {
      BigStepUpper(cells, p0, glyph, counter, mode, before, q, after);
    } else {
      var upper := Draw(cells, p0, glyph[..9], mode);
      assert before == if counter == 9 then upper else Draw(upper, p1, glyph[9..counter], mode);
      BigStepLower(upper, p1, glyph, counter, mode, before, q, after);
      assert BigPartial(cells, bank, column, glyph, counter + 1, mode) == Draw(upper, p1, glyph[9..counter + 1], mode);
    }
  }

  /** BigStep in the upper half: byte `counter` extends the upper window from p0. */
  lemma BigStepUpper(cells: seq<bv8>, p0: nat, glyph: seq<bv8>, counter: nat, mode: PixelMode, before: seq<bv8>, q: nat, after: seq<bv8>)
    requires |cells| == MaxBytes && counter < 9 && |glyph| == 18 && before == Draw(cells, p0, glyph[..counter], mode)
    requires q == (p0 + counter) % MaxBytes && after == before[q := AdjustByte(glyph[counter], before[q], mode)]
    ensures after == Draw(cells, p0, glyph[..counter + 1], mode)
  {
    assert glyph[..9][..counter] == glyph[..counter];
    assert glyph[..9][..counter + 1] == glyph[..counter + 1];
    DrawNext(cells, p0, glyph[..9], counter, mode, before, q, after);
  }

  /** BigStep in the lower half: byte `counter` extends the lower window from p1 over the drawn upper half. */
  lemma BigStepLower(upper: seq<bv8>, p1: nat, glyph: seq<bv8>, counter: nat, mode: PixelMode, before: seq<bv8>, q: nat, after: seq<bv8>)
    requires |upper| == MaxBytes && 9 <= counter < |glyph| == 18
    requires before == if counter == 9 then upper else Draw(upper, p1, glyph[9..counter], mode)
    requires q == (p1 + counter - 9) % MaxBytes && after == before[q := AdjustByte(glyph[counter], before[q], mode)]
    ensures after == Draw(upper, p1, glyph[9..counter + 1], mode)
  {
    if counter == 9 {
      assert glyph[9..][..0] == [];
    }
    assert glyph[9..][..counter - 9] == glyph[9..counter];
    assert glyph[9..][..counter - 8] == glyph[9..counter + 1];
    DrawNext(upper, p1, glyph[9..], counter - 9, mode, before, q, after);
  }

  /**
   * A big character that fits in its bank is a 9-column block over two banks:
   * the glyph's bytes land in columns column..column+8 of both banks, and every
   * other byte (the blank tenth column included) keeps its value.
   */
  lemma BigGlyphBlock(fonts: FontSet, cells: seq<bv8>, bank: nat, column: nat, c: char, mode: PixelMode, q: nat)
    requires WellFormed(fonts) && |cells| == MaxBytes && bank < Banks - 1 && column + 9 <= Columns && BigCharset(c) && q < MaxBytes
    ensures var r, g, j := DrawBig(fonts, cells, bank, column, c, mode), BigGlyph(fonts, c), q % 84 - column;
      r[q] == if q / 84 == bank && 0 <= j < 9 then AdjustByte(g[j], cells[q], mode)
              else if q / 84 == bank + 1 && 0 <= j < 9 then AdjustByte(g[9 + j], cells[q], mode)
              else cells[q]
  {
    var g := BigGlyph(fonts, c);
    var p0, p1 := Index(bank, column), Index(bank + 1, column);
    var upper := Draw(cells, p0, g[..9], mode);
    IndexPosition(bank, column);
    IndexPosition(bank + 1, column);
    DrawWindow(cells, p0, g[..9], mode, q);
    DrawWindow(upper, p1, g[9..], mode, q);
    WindowInBank(bank, column, q, 9);
    WindowInBank(bank + 1, column, q, 9);
    TwoWindows(cells[q], upper[q], Draw(upper, p1, g[9..], mode)[q], g, (q - p0) % MaxBytes, (q - p1) % MaxBytes, q / 84 == bank, q / 84 == bank + 1, q % 84 - column, mode);
  }

  /** The case analysis of BigGlyphBlock over byte values: at most one of the two windows holds position q. */
  lemma TwoWindows(b0: bv8, b1: bv8, b2: bv8, g: seq<bv8>, d0: int, d1: int, inUpper: bool, inLower: bool, j: int, mode: PixelMode)
    requires |g| == 18 && 0 <= d0 && 0 <= d1 && !(inUpper && inLower)
    requires (d0 < 9) == (inUpper && 0 <= j < 9) && (d0 < 9 ==> d0 == j)
    requires (d1 < 9) == (inLower && 0 <= j < 9) && (d1 < 9 ==> d1 == j)
    requires b1 == if d0 < 9 then AdjustByte(g[..9][d0], b0, mode) else b0
    requires b2 == if d1 < 9 then AdjustByte(g[9..][d1], b1, mode) else b1
    ensures b2 == if inUpper && 0 <= j < 9 then AdjustByte(g[j], b0, mode)
                  else if inLower && 0 <= j < 9 then AdjustByte(g[9 + j], b0, mode)
                  else b0
  {
  }

  /** Within one bank, the n positions from (bank, column) on are the columns column..column+n-1 of that bank. */
  lemma WindowInBank(bank: nat, column: nat, q: nat, n: nat)
    requires bank < Banks && column + n <= Columns && q < MaxBytes
    ensures var d := (q - Index(bank, column)) % MaxBytes;
      (d < n) == (q / 84 == bank && column <= q % 84 < column + n)
      && (d < n ==> d == q % 84 - column)
  {
    PositionIndex(q);
  }

  /** The text WriteIntBig draws: L2Str's text with the minus sign replaced by 0x3a, the big font's minus glyph. */
  function BigChars(s: seq<char>): (r: seq<char>)
    ensures |r| == |s|
    ensures forall k :: 0 <= k < |s| ==> r[k] == if k == 0 && s[k] == '-' then ':' else s[k]
  {
    if |s| > 0 && s[0] == '-' then [':'] + s[1..] else s
  }

  /** The RAM after writing `text` in big characters from (bank, column), each character ten columns after the previous one. */
  function BigText(fonts: FontSet, cells: seq<bv8>, bank: nat, column: nat, text: seq<char>, mode: PixelMode): (r: seq<bv8>)
    requires WellFormed(fonts) && |cells| == MaxBytes && bank < Banks - 1 && AllBig(text)
    ensures |r| == MaxBytes
    decreases |text|
  {
    if text == [] then cells
    else
      var n := |text| - 1;
      DrawBig(fonts, BigText(fonts, cells, bank, column, text[..n], mode), bank, column + 10 * n, text[n], mode)
  }

  /** The cursor of WriteCharBig before and after its byte `counter`: the upper window from p0, then, after the Goto at byte 9, the lower window from p1. */
  lemma BigCursorStep(p0: nat, p1: nat, counter: nat, q: nat)
    requires p0 + 9 < MaxBytes && p1 < MaxBytes && counter < 18
    requires q == if counter == 9 then p1 else if counter < 9 then p0 + counter else (p1 + counter - 9) % MaxBytes
    ensures q == if counter < 9 then (p0 + counter) % MaxBytes else (p1 + counter - 9) % MaxBytes
    ensures (q + 1) % MaxBytes == if counter + 1 <= 9 then p0 + counter + 1 else (p1 + counter + 1 - 9) % MaxBytes
  {
    if counter < 9 {
      ModSmall(p0 + counter);
      ModSmall(p0 + counter + 1);
    } else {
      ModSmall(p1);
      ModShift(p1 + counter - 9, 1);
    }
  }

  /** The loop step of WriteIntBig: character idx drawn ten columns per character further on. */
  lemma BigTextStep(fonts: FontSet, cells: seq<bv8>, bank: nat, column: nat, text: seq<char>, idx: nat, mode: PixelMode, before: seq<bv8>, after: seq<bv8>)
    requires WellFormed(fonts) && |cells| == MaxBytes && bank < Banks - 1 && AllBig(text) && idx < |text|
    requires before == BigText(fonts, cells, bank, column, text[..idx], mode)
    requires after == DrawBig(fonts, before, bank, column + 10 * idx, text[idx], mode)
    ensures after == BigText(fonts, cells, bank, column, text[..idx + 1], mode)
  {
    assert text[..idx + 1][..idx] == text[..idx];
  }

  /** The text of an int32 with the minus sign replaced is drawn entirely from the big font. */
  lemma BigCharsOfDecimal(x: int)
    ensures AllBig(BigChars(Decimal(x)))
  {
    var s := Decimal(x);
    forall k | 0 <= k < |s| ensures BigCharset(BigChars(s)[k]) {
      assert (k == 0 && x < 0) || '0' <= s[k] <= '9';
    }
  }

  // ---------------------------------------------------------------------
  // Pixels

  /** Pixel (x, y) of a RAM image: bit y % 8 of column x of bank y / 8. */
  predicate Pixel(cells: seq<bv8>, x: nat, y: nat)
    requires |cells| == MaxBytes && x < Columns && y < Rows
  {
    Bit(cells[Index(y / 8, x)], y % 8)
  }

  /** The byte 1 << k, the mask of pixel row k of a bank. */
  function PixelMask(k: nat): bv8
    requires k < 8
  {
    BitMasks[k]
  }

  /** The RAM after DrawPixel(x, y, mode) within the display. */
  function SetPixel(cells: seq<bv8>, x: nat, y: nat, mode: PixelMode): (r: seq<bv8>)
    requires |cells| == MaxBytes && x < Columns && y < Rows
    ensures |r| == MaxBytes
  {
    var i := Index(y / 8, x);
    cells[i := AdjustByte(PixelMask(y % 8), cells[i], mode)]
  }

  lemma MaskBits(k: nat, j: nat)
    requires k < 8 && j < 8
    ensures Bit(PixelMask(k), j) == (j == k)
  {
    if k == 0 {} else if k == 1 {} else if k == 2 {} else if k == 3 {}
    else if k == 4 {} else if k == 5 {} else if k == 6 {} else {}
  }

  /** DrawPixel sets the pixel in ON mode, clears it in OFF mode and toggles it in XOR mode. */
  lemma DrawPixelEffect(cells: seq<bv8>, x: nat, y: nat, mode: PixelMode)
    requires |cells| == MaxBytes && x < Columns && y < Rows
    ensures Pixel(SetPixel(cells, x, y, mode), x, y) == match mode
      case PixelOn => true
      case PixelOff => false
      case PixelXor => !Pixel(cells, x, y)
  {
    IndexPosition(y / 8, x);
    MaskBits(y % 8, y % 8);
    AdjustBits(PixelMask(y % 8), cells[Index(y / 8, x)], mode, y % 8);
  }

  /** DrawPixel changes no other pixel. */
  lemma DrawPixelLocal(cells: seq<bv8>, x: nat, y: nat, mode: PixelMode, x2: nat, y2: nat)
    requires |cells| == MaxBytes && x < Columns && y < Rows && x2 < Columns && y2 < Rows
    requires x2 != x || y2 != y
    ensures Pixel(SetPixel(cells, x, y, mode), x2, y2) == Pixel(cells, x2, y2)
  {
    IndexPosition(y / 8, x);
    IndexPosition(y2 / 8, x2);
    if Index(y2 / 8, x2) == Index(y / 8, x) {
      assert y2 % 8 != y % 8;
      MaskBits(y % 8, y2 % 8);
      AdjustBits(PixelMask(y % 8), cells[Index(y / 8, x)], mode, y2 % 8);
    }
  }

  /** Drawing the same pixel twice in XOR mode restores the image. */
  lemma XorPixelTwice(cells: seq<bv8>, x: nat, y: nat)
    requires |cells| == MaxBytes && x < Columns && y < Rows
    ensures SetPixel(SetPixel(cells, x, y, PixelXor), x, y, PixelXor) == cells
  {
    var i := Index(y / 8, x);
    XorTwiceRestores(PixelMask(y % 8), cells[i]);
    assert SetPixel(SetPixel(cells, x, y, PixelXor), x, y, PixelXor)[i] == cells[i];
  }

  // ---------------------------------------------------------------------
  // Transfers

  /** The data transfers that send `cells` in order. */
  function DataTransfers(cells: seq<bv8>): (r: seq<Transfer>)
    ensures |r| == |cells|
    ensures forall k :: 0 <= k < |cells| ==> r[k] == Transfer(Data, cells[k])
  {
    seq(|cells|, k requires 0 <= k < |cells| => Transfer(Data, cells[k]))
  }

  // ---------------------------------------------------------------------
  // The driver

  class Lcd {
    /** The glyph tables the text operations read. */
    const Fonts: FontSet
    /** The local copy of the display RAM, indexed by bank and column. */
    var Buffer: array2<bv8>
    var CursorColumn: UInt8
    var CursorBank: UInt8
    var ActiveStatus: PowerdownMode
    var InvertStatus: InvertMode
    var BacklightStatus: BacklightMode
    /** Level of the backlight pin. */
    var BacklightLine: bool
    /** Every byte shifted out to the controller so far, in order. */
    var Sent: seq<Transfer>

    /** The local copy bank after bank: byte q is column q % 84 of bank q / 84. */
    ghost var Cells: seq<bv8>

    ghost predicate Valid()
      reads this`Buffer, this`Cells, this`ActiveStatus, this`InvertStatus, this`BacklightStatus, Buffer
    {
      WellFormed(Fonts) && Buffer.Length0 == Banks && Buffer.Length1 == Columns && |Cells| == MaxBytes
      && (forall bank, column {:trigger OnScreen(bank, column)} :: OnScreen(bank, column) ==> Buffer[bank, column] == Cells[Index(bank, column)])
      && ActiveStatus != PdGet && InvertStatus != InvGet && BacklightStatus != BklGet
    }

    ghost predicate CursorInRange()
      reads this`CursorBank, this`CursorColumn
    {
      CursorBank < Banks && CursorColumn < Columns
    }

    ghost function CursorIndex(): nat
      reads this`CursorBank, this`CursorColumn
    {
      Index(CursorBank, CursorColumn)
    }

    /** Lcd(): the member initialisers, a zeroed buffer, the cursor at bank 0 column 0 and every status off. */
    constructor ()
      ensures Valid() && fresh(Buffer) && Fonts == Standard()
      ensures Cells == Blank && CursorBank == 0 && CursorColumn == 0
      ensures ActiveStatus == PdOff && InvertStatus == InvOff && BacklightStatus == BklOff
      ensures !BacklightLine && Sent == []
    {
      Fonts := Standard();
      Buffer := new bv8[Banks, Columns]((_, _) => 0);
      CursorColumn, CursorBank := 0, 0;
      ActiveStatus, InvertStatus, BacklightStatus := PdOff, InvOff, BklOff;
      BacklightLine := false;
      Sent := [];
      Cells := Blank;
      new;
      forall bank, column | OnScreen(bank, column) ensures Buffer[bank, column] == Cells[Index(bank, column)] {
        IndexPosition(bank, column);
      }
    }

    /** Lcd(Config): the member initialisers followed by Init. */
    constructor WithConfig()
      ensures Valid() && fresh(Buffer) && Fonts == Standard()
      ensures Cells == Blank && CursorBank == 0 && CursorColumn == 0
      ensures ActiveStatus == PdOn && InvertStatus == InvOff && BacklightStatus == BklOff
      ensures !BacklightLine
      ensures Sent == StartupCommands + [Transfer(Command, FunctionSet & !PowerDown)]
    {
      Fonts := Standard();
      Buffer := new bv8[Banks, Columns]((_, _) => 0);
      CursorColumn, CursorBank := 0, 0;
      ActiveStatus, InvertStatus, BacklightStatus := PdOff, InvOff, BklOff;
      BacklightLine := false;
      Sent := [];
      Cells := Blank;
      new;
      forall bank, column | OnScreen(bank, column) ensures Buffer[bank, column] == Cells[Index(bank, column)] {
        IndexPosition(bank, column);
      }
      Init();
    }

    /** _SendByte: one byte shifted out with the DC line at `mode`. */
    method SendByte(mode: LcdMode, b: bv8)
      modifies this`Sent
      ensures Sent == old(Sent) + [Transfer(mode, b)]
    {
      Sent := Sent + [Transfer(mode, b)];
    }

    /**
     * Init: drives the backlight pin low, sends the startup commands, switches
     * the display on and clears the buffer. The inversion and backlight flags
     * are left as they were.
     */
    method Init()
      requires Valid()
      modifies this, Buffer
      ensures Valid() && Buffer == old(Buffer)
      ensures Sent == old(Sent) + StartupCommands + [Transfer(Command, FunctionSet & !PowerDown)]
      ensures Cells == Blank && CursorBank == 0 && CursorColumn == 0
      ensures ActiveStatus == PdOn && !BacklightLine
      ensures InvertStatus == old(InvertStatus) && BacklightStatus == old(BacklightStatus)
    {
      BacklightLine := false;
      SendByte(Command, FunctionSet | ExtendedInstruction);
      SendByte(Command, SetVop | 0x3F);
      SendByte(Command, SetTemp | 0x01);
      SendByte(Command, SetBias | 0x03);
      SendByte(Command, FunctionSet);
      SendByte(Command, DisplayControl | DisplayNormal);
      var _ := Powerdown(PdOn);
      ClearAll();
    }

    /** Commit: the bank and column address commands, then every byte of the buffer, bank after bank. */
    method Commit()
      requires Valid()
      modifies this`Sent
      ensures Sent == old(Sent) + [Transfer(Command, SetBankAddr), Transfer(Command, SetColumnAddr)] + DataTransfers(Cells)
    {
      ghost var head := old(Sent) + [Transfer(Command, SetBankAddr), Transfer(Command, SetColumnAddr)];
      ghost var cells := Cells;
      SendByte(Command, SetBankAddr);
      SendByte(Command, SetColumnAddr);
      var bank := 0;
      while bank < Banks
        invariant 0 <= bank <= Banks
        invariant Sent == head + DataTransfers(cells[..Index(bank, 0)])
      {
        var column := 0;
        while column < Columns
          invariant 0 <= column <= Columns
          invariant Sent == head + DataTransfers(cells[..Index(bank, column)])
        {
          IndexPosition(bank, column);
          assert OnScreen(bank, column);
          assert cells[..Index(bank, column) + 1] == cells[..Index(bank, column)] + [cells[Index(bank, column)]];
          SendByte(Data, Buffer[bank, column]);
          column := column + 1;
        }
        bank := bank + 1;
      }
      assert cells[..Index(Banks, 0)] == cells;
    }

    /** _BufferPutByte: stores a byte at the cursor and advances the cursor. */
    method BufferPutByte(b: bv8)
      requires Valid() && CursorInRange()
      modifies this`CursorBank, this`CursorColumn, this`Cells, Buffer
      ensures Valid() && CursorInRange()
      ensures Cells == old(Cells)[old(CursorIndex()) := b]
      ensures (CursorBank, CursorColumn) == Advance(old(CursorBank), old(CursorColumn))
      ensures CursorIndex() == (old(CursorIndex()) + 1) % MaxBytes
    {
      IndexPosition(CursorBank, CursorColumn);
      Store(CursorBank, CursorColumn, b);
      if CursorColumn == Columns - 1 {
        CursorColumn := 0;
        if CursorBank == Banks - 1 {
          CursorBank := 0;
        } else {
          CursorBank := CursorBank + 1;
        }
      } else {
        CursorColumn := CursorColumn + 1;
      }
    }

    /** The assignment _Buffer[bank][column] = b. */
    method Store(bank: UInt8, column: UInt8, b: bv8)
      requires Valid() && bank < Banks && column < Columns
      modifies this`Cells, Buffer
      ensures Valid() && Cells == old(Cells)[Index(bank, column) := b]
    {
      IndexPosition(bank, column);
      Buffer[bank, column] := b;
      Cells := Cells[Index(bank, column) := b];
      forall bk, cl | OnScreen(bk, cl) ensures Buffer[bk, cl] == Cells[Index(bk, cl)] {
        IndexPosition(bk, cl);
      }
    }

    /** ClearRange: `length` zero bytes from (bank, column) on, then the cursor back at (bank, column). */
    method ClearRange(bank: UInt8, column: UInt8, length: UInt16)
      requires Valid() && (length > 0 ==> bank < Banks && column < Columns)
      modifies this`CursorBank, this`CursorColumn, this`Cells, Buffer
      ensures Valid()
      ensures Cells == Cleared(old(Cells), Index(bank, column), length)
      ensures CursorBank == bank && CursorColumn == column
    {
      ghost var c0 := Cells;
      ghost var p := Index(bank, column);
      Goto(bank, column);
      assert Cleared(c0, p, 0) == c0;
      var counter := 0;
      while counter < length
        invariant 0 <= counter <= length && Valid()
        invariant counter < length ==> CursorInRange() && CursorIndex() == (p + counter) % MaxBytes
        invariant Cells == Cleared(c0, p, counter)
      {
        IndexPosition(bank, column);
        ClearNext(c0, p, counter, length);
        counter := counter + 1;
      }
      Goto(bank, column);
    }

    /** One round of ClearRange's loop: a zero at the cursor extends the cleared window by one byte. */
    method ClearNext(ghost c0: seq<bv8>, ghost p: nat, counter: nat, length: nat)
      requires Valid() && CursorInRange() && |c0| == MaxBytes && p < MaxBytes && counter < length
      requires CursorIndex() == (p + counter) % MaxBytes && Cells == Cleared(c0, p, counter)
      modifies this`CursorBank, this`CursorColumn, this`Cells, Buffer
      ensures Valid() && Cells == Cleared(c0, p, counter + 1)
      ensures counter + 1 < length ==> CursorInRange() && CursorIndex() == (p + counter + 1) % MaxBytes
    {
      ClearedStep(c0, p, counter);
      BufferPutByte(0x00);
      ModShift(p + counter, 1);
      if counter + 1 < length {
        PositionIndex((p + counter + 1) % MaxBytes);
      }
    }

    /** ClearBank: clears one bank; the cursor goes to its column 0. */
    method ClearBank(bank: UInt8)
      requires Valid() && bank < Banks
      modifies this`CursorBank, this`CursorColumn, this`Cells, Buffer
      ensures Valid()
      ensures forall q :: 0 <= q < MaxBytes ==> Cells[q] == if q / 84 == bank then 0 else old(Cells)[q]
      ensures CursorBank == bank && CursorColumn == 0
    {
      ClearedBank(Cells, bank);
      ClearRange(bank, 0, Columns);
    }

    /** ClearAll: clears the whole buffer; the cursor goes to bank 0, column 0. */
    method ClearAll()
      requires Valid()
      modifies this`CursorBank, this`CursorColumn, this`Cells, Buffer
      ensures Valid() && Cells == Blank
      ensures CursorBank == 0 && CursorColumn == 0
    {
      ClearedAll(Cells, 0);
      ClearRange(0, 0, MaxBytes);
    }

    /** Goto: places the cursor; nothing checks the position. */
    method Goto(bank: UInt8, column: UInt8)
      modifies this`CursorBank, this`CursorColumn
      ensures CursorBank == bank && CursorColumn == column
    {
      CursorBank := bank;
      CursorColumn := column;
    }

    /** The bank the cursor is in. */
    function GetBank(): (r: UInt8)
      reads this
      ensures r == CursorBank
    {
      CursorBank
    }

    /** The column the cursor is at. */
    function GetColumn(): (r: UInt8)
      reads this
      ensures r == CursorColumn
    {
      CursorColumn
    }

    /** Powerdown: OFF and ON send the function set command with or without the power down bit; GET only reports. */
    method Powerdown(active: PowerdownMode) returns (status: PowerdownMode)
      requires Valid()
      modifies this`Sent, this`ActiveStatus
      ensures Valid() && status == ActiveStatus
      ensures active == PdOff ==> ActiveStatus == PdOff && Sent == old(Sent) + [Transfer(Command, FunctionSet | PowerDown)]
      ensures active == PdOn ==> ActiveStatus == PdOn && Sent == old(Sent) + [Transfer(Command, FunctionSet & !PowerDown)]
      ensures active == PdGet ==> ActiveStatus == old(ActiveStatus) && Sent == old(Sent)
    {
      if active == PdOff {
        SendByte(Command, FunctionSet | PowerDown);
        ActiveStatus := PdOff;
      } else if active == PdOn {
        SendByte(Command, FunctionSet & !PowerDown);
        ActiveStatus := PdOn;
      }
      status := ActiveStatus;
    }

    /** Backlight: OFF and ON drive the backlight pin; GET only reports. */
    method Backlight(bkl: BacklightMode) returns (status: BacklightMode)
      requires Valid()
      modifies this`BacklightLine, this`BacklightStatus
      ensures Valid() && status == BacklightStatus
      ensures bkl == BklOff ==> BacklightStatus == BklOff && !BacklightLine
      ensures bkl == BklOn ==> BacklightStatus == BklOn && BacklightLine
      ensures bkl == BklGet ==> BacklightStatus == old(BacklightStatus) && BacklightLine == old(BacklightLine)
    {
      if bkl == BklOff {
        BacklightLine := false;
        BacklightStatus := BklOff;
        status := BacklightStatus;
      } else if bkl == BklOn {
        BacklightLine := true;
        BacklightStatus := BklOn;
        status := BacklightStatus;
      } else {
        status := BacklightStatus;
      }
    }

    /** Invert: OFF and ON send the display control command for normal or inverted video; GET only reports. */
    method Invert(inv: InvertMode) returns (status: InvertMode)
      requires Valid()
      modifies this`Sent, this`InvertStatus
      ensures Valid() && status == InvertStatus
      ensures inv == InvOff ==> InvertStatus == InvOff && Sent == old(Sent) + [Transfer(Command, DisplayControl | DisplayNormal)]
      ensures inv == InvOn ==> InvertStatus == InvOn && Sent == old(Sent) + [Transfer(Command, DisplayControl | DisplayInverted)]
      ensures inv == InvGet ==> InvertStatus == old(InvertStatus) && Sent == old(Sent)
    {
      if inv == InvOff {
        SendByte(Command, DisplayControl | DisplayNormal);
        InvertStatus := InvOff;
        status := InvertStatus;
      } else if inv == InvOn {
        SendByte(Command, DisplayControl | DisplayInverted);
        InvertStatus := InvOn;
        status := InvertStatus;
      } else {
        status := InvertStatus;
      }
    }

    /** WriteChar: the five font columns of `c` and a blank column from the cursor on, under `mode`. */
    method WriteChar(c: char, font: FontSelect, mode: PixelMode)
      requires Valid() && CursorInRange() && (font != FontGet ==> Printable(c))
      modifies this`CursorBank, this`CursorColumn, this`Cells, Buffer
      ensures Valid() && CursorInRange()
      ensures Cells == Draw(old(Cells), old(CursorIndex()), Glyph(Fonts, c, font), mode)
      ensures CursorIndex() == (old(CursorIndex()) + 6) % MaxBytes
    {
      ghost var c0, p0 := Cells, CursorIndex();
      ghost var glyph := Glyph(Fonts, c, font);
      var g := c as int - 0x20;
      var counter := 0;
      while counter < 6
        invariant 0 <= counter <= 6 && Valid() && CursorInRange()
        invariant Cells == Draw(c0, p0, glyph[..counter], mode)
        invariant CursorIndex() == (p0 + counter) % MaxBytes
      {
        var byteToSend: bv8 := 0;
        if counter != 5 {
          if font == FontDefault {
            byteToSend := Fonts.Regular[g][counter];
          } else if font == FontSmall {
            byteToSend := Fonts.Small[g][counter];
          }
        }
        assert byteToSend == glyph[counter];
        WriteGlyphByte(byteToSend, glyph, counter, mode, c0, p0);
        counter := counter + 1;
      }
      assert glyph[..6] == glyph;
    }

    /** Byte `counter` of a glyph, written at the cursor: the drawn part of the glyph grows by one byte and the cursor moves one place. */
    method WriteGlyphByte(b: bv8, ghost glyph: seq<bv8>, counter: nat, mode: PixelMode, ghost c0: seq<bv8>, ghost p0: nat)
      requires Valid() && CursorInRange() && counter < |glyph| && glyph[counter] == b && |c0| == MaxBytes
      requires Cells == Draw(c0, p0, glyph[..counter], mode) && CursorIndex() == (p0 + counter) % MaxBytes
      modifies this`CursorBank, this`CursorColumn, this`Cells, Buffer
      ensures Valid() && CursorInRange()
      ensures Cells == Draw(c0, p0, glyph[..counter + 1], mode) && CursorIndex() == (p0 + counter + 1) % MaxBytes
    {
      ghost var before, q := Cells, CursorIndex();
      PutAdjusted(b, mode);
      DrawNext(c0, p0, glyph, counter, mode, before, q, Cells);
      ModShift(p0 + counter, 1);
    }

    /** The byte at the cursor combined with `b` under `mode`, then stored by _BufferPutByte. */
    method PutAdjusted(b: bv8, mode: PixelMode)
      requires Valid() && CursorInRange()
      modifies this`CursorBank, this`CursorColumn, this`Cells, Buffer
      ensures Valid() && CursorInRange()
      ensures Cells == old(Cells)[old(CursorIndex()) := AdjustByte(b, old(Cells)[old(CursorIndex())], mode)]
      ensures CursorIndex() == (old(CursorIndex()) + 1) % MaxBytes
    {
      IndexPosition(CursorBank, CursorColumn);
      assert OnScreen(CursorBank, CursorColumn);
      var byteInBuffer := Buffer[CursorBank, CursorColumn];
      var byteToSend := AdjustByte(b, byteInBuffer, mode);
      BufferPutByte(byteToSend);
    }

    /** WriteString: WriteChar for every character before the terminating NUL. */
    method WriteString(str: array<char>, font: FontSelect, mode: PixelMode)
      requires Valid() && '\0' in str[..]
      requires CStringLength(str[..]) > 0 ==> CursorInRange()
      requires font != FontGet ==> AllPrintable(str[..CStringLength(str[..])])
      modifies this`CursorBank, this`CursorColumn, this`Cells, Buffer
      ensures Valid()
      ensures Cells == Draw(old(Cells), old(CursorIndex()), TextBytes(Fonts, old(str[..CStringLength(str[..])]), font), mode)
      ensures old(CStringLength(str[..])) > 0 ==> CursorInRange() && CursorIndex() == (old(CursorIndex()) + 6 * old(CStringLength(str[..]))) % MaxBytes
      ensures old(CStringLength(str[..])) == 0 ==> CursorBank == old(CursorBank) && CursorColumn == old(CursorColumn)
    {
      ghost var n := CStringLength(str[..]);
      assert str[..][n] == str[n];
      WriteChars(str, str[..n], font, mode);
    }

    /** The while loop of WriteString: WriteChar for every character before the NUL, six columns apart. */
    method WriteChars(str: array<char>, ghost text: seq<char>, font: FontSelect, mode: PixelMode)
      requires Valid() && |text| < str.Length && str[..|text|] == text && str[|text|] == '\0'
      requires forall k :: 0 <= k < |text| ==> text[k] != '\0'
      requires |text| > 0 ==> CursorInRange()
      requires font != FontGet ==> AllPrintable(text)
      modifies this`CursorBank, this`CursorColumn, this`Cells, Buffer
      ensures Valid()
      ensures Cells == Draw(old(Cells), old(CursorIndex()), TextBytes(Fonts, text, font), mode)
      ensures |text| > 0 ==> CursorInRange() && CursorIndex() == (old(CursorIndex()) + 6 * |text|) % MaxBytes
      ensures |text| == 0 ==> CursorBank == old(CursorBank) && CursorColumn == old(CursorColumn)
    {
      ghost var c0, p0 := Cells, CursorIndex();
      var i := 0;
      while str[i] != '\0'
        invariant 0 <= i <= |text| && Valid()
        invariant Cells == TextDrawn(Fonts, c0, p0, text[..i], font, mode)
        invariant |text| > 0 ==> CursorInRange() && CursorIndex() == (p0 + 6 * i) % MaxBytes
        invariant |text| == 0 ==> CursorBank == old(CursorBank) && CursorColumn == old(CursorColumn)
        decreases |text| - i
      {
        assert str[i] == text[i];
        WriteTextChar(str[i], text, i, font, mode, c0, p0);
        i := i + 1;
      }
      WholeTextDrawn(Fonts, c0, p0, str[..], text, i, font, mode);
    }

    /** One round of WriteString's loop: WriteChar for character i of the text, which extends the drawn prefix by one character. */
    method WriteTextChar(c: char, ghost text: seq<char>, ghost i: nat, font: FontSelect, mode: PixelMode, ghost c0: seq<bv8>, ghost p0: nat)
      requires Valid() && CursorInRange() && i < |text| && text[i] == c && |c0| == MaxBytes
      requires font != FontGet ==> AllPrintable(text)
      requires Cells == TextDrawn(Fonts, c0, p0, text[..i], font, mode) && CursorIndex() == (p0 + 6 * i) % MaxBytes
      modifies this`CursorBank, this`CursorColumn, this`Cells, Buffer
      ensures Valid() && CursorInRange()
      ensures Cells == TextDrawn(Fonts, c0, p0, text[..i + 1], font, mode) && CursorIndex() == (p0 + 6 * (i + 1)) % MaxBytes
    {
      ghost var before, q := Cells, CursorIndex();
      WriteChar(c, font, mode);
      TextStep(Fonts, c0, p0, text, i, font, mode, before, q, Cells, CursorIndex());
    }

    /** WriteInt: the decimal text of `number`, converted into a 12-character buffer (the source declares 10, see SourceIntBufferOverflow). */
    method WriteInt(number: Int32, font: FontSelect, mode: PixelMode)
      requires Valid() && CursorInRange() && number != Int32Min
      modifies this`CursorBank, this`CursorColumn, this`Cells, Buffer
      ensures Valid() && CursorInRange()
      ensures Cells == Draw(old(Cells), old(CursorIndex()), TextBytes(Fonts, Decimal(number), font), mode)
      ensures CursorIndex() == (old(CursorIndex()) + 6 * |Decimal(number)|) % MaxBytes
    {
      ghost var c0, p0 := Cells, CursorIndex();
      var str := DecimalString(number);
      assert Cells == c0 && CursorIndex() == p0;
      WriteString(str, font, mode);
    }

    /** Byte `counter` of a big glyph, written at the cursor: the drawn part of the glyph grows by one byte and the cursor moves on in its half. */
    method WriteBigByte(b: bv8, ghost glyph: seq<bv8>, counter: nat, ghost bank: nat, ghost column: nat, mode: PixelMode, ghost c0: seq<bv8>)
      requires Valid() && CursorInRange() && counter < |glyph| == 18 && glyph[counter] == b && |c0| == MaxBytes
      requires Index(bank, column) + 9 < MaxBytes && Index(bank + 1, column) < MaxBytes
      requires Cells == BigPartial(c0, bank, column, glyph, counter, mode)
      requires CursorIndex() == if counter == 9 then Index(bank + 1, column)
        else if counter < 9 then Index(bank, column) + counter else (Index(bank + 1, column) + counter - 9) % MaxBytes
      modifies this`CursorBank, this`CursorColumn, this`Cells, Buffer
      ensures Valid() && CursorInRange()
      ensures Cells == BigPartial(c0, bank, column, glyph, counter + 1, mode)
      ensures CursorIndex() == if counter + 1 <= 9 then Index(bank, column) + counter + 1 else (Index(bank + 1, column) + counter + 1 - 9) % MaxBytes
    {
      ghost var before, q := Cells, CursorIndex();
      BigCursorStep(Index(bank, column), Index(bank + 1, column), counter, q);
      PutAdjusted(b, mode);
      BigStep(c0, bank, column, glyph, counter, mode, before, q, Cells);
    }

    /** WriteCharBig: the 18 bytes of a 10x16 glyph over two banks; the cursor then moves ten columns right, leaving a blank column. */
    method WriteCharBig(c: char, mode: PixelMode)
      requires Valid() && CursorBank < Banks - 1 && CursorColumn < Columns && BigCharset(c)
      modifies this`CursorBank, this`CursorColumn, this`Cells, Buffer
      ensures Valid()
      ensures Cells == DrawBig(Fonts, old(Cells), old(CursorBank), old(CursorColumn), c, mode)
      ensures CursorBank == old(CursorBank) && CursorColumn == old(CursorColumn) + 10
    {
      var column := GetColumn();
      var bank := GetBank();
      var g := c as int - 0x30;
      ghost var c0 := Cells;
      ghost var glyph := Fonts.Big[g];
      ghost var p0, p1 := Index(bank, column), Index(bank + 1, column);
      IndexPosition(bank, column);
      IndexPosition(bank + 1, column);
      var counter := 0;
      while counter < 18
        invariant 0 <= counter <= 18 && Valid() && CursorInRange()
        invariant Cells == BigPartial(c0, bank, column, glyph, counter, mode)
        invariant CursorIndex() == if counter <= 9 then p0 + counter else (p1 + counter - 9) % MaxBytes
      {
        if counter == 9 {
          Goto(bank + 1, column);
        }
        var byteToSend: bv8 := Fonts.Big[g][counter];
        WriteBigByte(byteToSend, glyph, counter, bank, column, mode, c0);
        counter := counter + 1;
      }
      assert glyph[9..18] == glyph[9..];
      Goto(bank, column + 10);
    }

    /** WriteIntBig: the decimal text of `number` in big characters, the minus sign drawn with glyph 0x3a. */
    method WriteIntBig(number: Int32, mode: PixelMode)
      requires Valid() && number != Int32Min && CursorBank < Banks - 1
      requires CursorColumn + 10 * (|Decimal(number)| - 1) < Columns
      modifies this`CursorBank, this`CursorColumn, this`Cells, Buffer
      ensures Valid()
      ensures Cells == BigText(Fonts, old(Cells), old(CursorBank), old(CursorColumn), BigChars(Decimal(number)), mode)
      ensures CursorBank == old(CursorBank) && CursorColumn == old(CursorColumn) + 10 * |Decimal(number)|
    {
      ghost var text := BigChars(Decimal(number));
      BigCharsOfDecimal(number);
      var str := new char[10];
      var count := L2Str(number, str);
      DecimalText(number, str, count);
      if str[0] == '-' {
        str[0] := ':';
      }
      assert forall k :: 0 <= k < count ==> str[k] == text[k];
      assert str[..count] == text;
      WriteCharsBig(str, text, mode);
    }

    /** The while loop of WriteIntBig: WriteCharBig for every character before the NUL, ten columns apart. */
    method WriteCharsBig(str: array<char>, ghost text: seq<char>, mode: PixelMode)
      requires Valid() && AllBig(text) && |text| < str.Length && str[..|text|] == text && str[|text|] == '\0'
      requires CursorBank < Banks - 1 && CursorColumn + 10 * (|text| - 1) < Columns
      modifies this`CursorBank, this`CursorColumn, this`Cells, Buffer
      ensures Valid()
      ensures Cells == BigText(Fonts, old(Cells), old(CursorBank), old(CursorColumn), text, mode)
      ensures CursorBank == old(CursorBank) && CursorColumn == old(CursorColumn) + 10 * |text|
    {
      ghost var c0, bank, column := Cells, CursorBank, CursorColumn;
      var idx := 0;
      while str[idx] != '\0'
        invariant 0 <= idx <= |text| && Valid()
        invariant Cells == BigText(Fonts, c0, bank, column, text[..idx], mode)
        invariant CursorBank == bank && CursorColumn == column + 10 * idx
        decreases |text| - idx
      {
        assert str[idx] == text[idx];
        ghost var before := Cells;
        WriteCharBig(str[idx], mode);
        BigTextStep(Fonts, c0, bank, column, text, idx, mode, before, Cells);
        idx := idx + 1;
      }
      assert text[..idx] == text;
    }

    /** DrawBitmap: `length` bytes of `bitmap` from the cursor on, under `mode`. */
    method DrawBitmap(bitmap: array<bv8>, length: UInt16, mode: PixelMode)
      requires Valid() && length <= bitmap.Length && (length > 0 ==> CursorInRange())
      modifies this`CursorBank, this`CursorColumn, this`Cells, Buffer
      ensures Valid()
      ensures Cells == Draw(old(Cells), old(CursorIndex()), bitmap[..length], mode)
      ensures length > 0 ==> CursorInRange() && CursorIndex() == (old(CursorIndex()) + length) % MaxBytes
      ensures length == 0 ==> CursorBank == old(CursorBank) && CursorColumn == old(CursorColumn)
    {
      ghost var c0, p0 := Cells, CursorIndex();
      var counter := 0;
      while counter < length
        invariant 0 <= counter <= length && Valid()
        invariant Cells == Draw(c0, p0, bitmap[..counter], mode)
        invariant length > 0 ==> CursorInRange() && CursorIndex() == (p0 + counter) % MaxBytes
        invariant length == 0 ==> CursorBank == old(CursorBank) && CursorColumn == old(CursorColumn)
      {
        var byteToSend := bitmap[counter];
        ghost var before, q := Cells, CursorIndex();
        PutAdjusted(byteToSend, mode);
        assert bitmap[..length][..counter] == bitmap[..counter];
        DrawNext(c0, p0, bitmap[..length], counter, mode, before, q, Cells);
        assert bitmap[..length][..counter + 1] == bitmap[..counter + 1];
        ModShift(p0 + counter, 1);
        counter := counter + 1;
      }
    }

    /** DrawPixel: sets, clears or toggles one pixel and moves the cursor to its column; a pixel off the display is ignored. */
    method DrawPixel(x: UInt8, y: UInt8, mode: PixelMode)
      requires Valid()
      modifies this`CursorBank, this`CursorColumn, this`Cells, Buffer
      ensures Valid()
      ensures (x >= Columns || y >= Rows) ==>
        Cells == old(Cells) && CursorBank == old(CursorBank) && CursorColumn == old(CursorColumn)
      ensures (x < Columns && y < Rows) ==>
        Cells == SetPixel(old(Cells), x, y, mode) && CursorBank == y / 8 && CursorColumn == x
    {
      if x >= Columns || y >= Rows {
        return;
      }
      ghost var c0 := Cells;
      var bank := y / 8;
      var mask := PixelMask(y % 8);
      IndexPosition(bank, x);
      ghost var i := Index(bank, x);
      var b := Buffer[bank, x];
      assert OnScreen(bank, x);
      assert b == c0[i];
      b := CombinePixel(b, mask, mode);
      Store(bank, x, b);
      Goto(bank, x);
    }
  }

  /** WriteInt's conversion: a fresh 12-character buffer holding the decimal text of `number` and its NUL. */
  method DecimalString(number: Int32) returns (str: array<char>)
    requires number != Int32Min
    ensures fresh(str) && '\0' in str[..]
    ensures CStringLength(str[..]) == |Decimal(number)| && str[..CStringLength(str[..])] == Decimal(number)
    ensures AllPrintable(Decimal(number))
  {
    str := new char[12];
    DecimalLength(number);
    var count := L2Str(number, str);
    DecimalText(number, str, count);
  }

  /** L2Str leaves exactly the decimal text before the first NUL of its buffer. */
  lemma DecimalText(number: int, str: array<char>, count: nat)
    requires count < str.Length && str[..count] == Decimal(number) && str[count] == '\0'
    ensures '\0' in str[..] && CStringLength(str[..]) == count && str[..count] == Decimal(number)
    ensures AllPrintable(Decimal(number))
  {
    assert str[..][count] == '\0';
    var n := CStringLength(str[..]);
    assert forall k :: 0 <= k < count ==> str[..][k] == Decimal(number)[k];
  }

  /** The 10-character buffer of the source's WriteInt (and WriteFloat) cannot hold the text of every int32: ten digits and the NUL need 11 bytes, a minus sign one more. */
  lemma SourceIntBufferOverflow()
    ensures |Decimal(1_000_000_000)| + 1 > 10
    ensures |Decimal(-1_000_000_000)| + 1 > 11
  {
    assert Pow10(9) == 1_000_000_000;
    DigitsLengthAtLeast(1_000_000_000, 9);
  }
}
