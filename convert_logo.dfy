/** The logo converter (scripts/convert_logo.py): RGB565 packing of a
    resized RGB image and the layout of the C header it writes. Loading and
    resizing the image is PIL's; the model starts from the resized pixels,
    given row by row. */
module ConvertLogo {
  import opened Common

  /** One pixel as `img.getpixel((x, y))` returns it: three 8-bit channels. */
  datatype Rgb = Rgb(r: bv8, g: bv8, b: bv8)

  /** `((r & 0xF8) << 8) | ((g & 0xFC) << 3) | (b >> 3)`, computed on wide
      integers as Python does. */
  function Pack(p: Rgb): (v: bv32)
    ensures v < 0x1_0000
  {
    (((p.r & 0xF8) as bv32) << 8) | (((p.g & 0xFC) as bv32) << 3) | ((p.b >> 3) as bv32)
  }

  /** The three RGB565 fields: bits 15-11 hold the top five bits of red,
      bits 10-5 the top six of green, bits 4-0 the top five of blue. */
  lemma PackFields(p: Rgb)
    ensures Pack(p) >> 11 == (p.r >> 3) as bv32
    ensures (Pack(p) >> 5) & 0x3F == (p.g >> 2) as bv32
    ensures Pack(p) & 0x1F == (p.b >> 3) as bv32
  {
  }

  /** The pixel a display reconstructs from an RGB565 value, each field
      shifted back to the top of its channel. */
  function Unpack(v: bv32): Rgb
  {
    Rgb((((v >> 11) & 0x1F) << 3) as bv8, (((v >> 5) & 0x3F) << 2) as bv8, ((v & 0x1F) << 3) as bv8)
  }

  /** Unpacking loses exactly the dropped low bits: three of red and blue,
      two of green; a pixel whose low bits are already zero comes back
      unchanged. */
  lemma UnpackPack(p: Rgb)
    ensures Unpack(Pack(p)) == Rgb(p.r & 0xF8, p.g & 0xFC, p.b & 0xF8)
    ensures p.r & 0x07 == 0 && p.g & 0x03 == 0 && p.b & 0x07 == 0 ==> Unpack(Pack(p)) == p
  {
  }

  /** An upper-case hexadecimal digit: `0`-`9` or `A`-`F`. */
  predicate UpperHex(c: char)
  {
    '0' <= c <= '9' || 'A' <= c <= 'F'
  }

  /** The upper-case hexadecimal digit for `d`, as the `X` format prints it. */
  function HexDigit(d: nat): (c: char)
    requires d < 16
    ensures UpperHex(c)
  {
    if d < 10 then ('0' as int + d) as char else ('A' as int + d - 10) as char
  }

  /** `f"0x{v:04X}"` for a value below 0x10000: "0x" and exactly four
      upper-case hexadecimal digits, most significant first. */
  function Token(v: nat): (t: string)
    requires v < 0x1_0000
    ensures |t| == 6 && t[..2] == "0x"
    ensures forall i :: 2 <= i < 6 ==> UpperHex(t[i])
  {
    var v1 := v / 0x10;
    var v2 := v1 / 0x10;
    "0x" + [HexDigit(v2 / 0x10), HexDigit(v2 % 0x10), HexDigit(v1 % 0x10), HexDigit(v % 0x10)]
  }

  function HexValue(c: char): Option<nat>
  {
    if '0' <= c <= '9' then Some(c as int - '0' as int)
    else if 'A' <= c <= 'F' then Some(c as int - 'A' as int + 10)
    else None
  }

  /** Reading a token back the way a C compiler reads the literal. */
  function ParseToken(t: string): Option<nat>
  {
    if |t| != 6 || t[..2] != "0x" then None
    else
      match (HexValue(t[2]), HexValue(t[3]), HexValue(t[4]), HexValue(t[5]))
      case (Some(d0), Some(d1), Some(d2), Some(d3)) => Some(((d0 * 0x10 + d1) * 0x10 + d2) * 0x10 + d3)
      case _ => None
  }

  lemma HexValueDigit(d: nat)
    requires d < 16
    ensures HexValue(HexDigit(d)) == Some(d)
  {
  }

  /** Every token reads back as the value it was printed from. */
  lemma ParseTokenRoundTrip(v: nat)
    requires v < 0x1_0000
    ensures ParseToken(Token(v)) == Some(v)
  {
    var d0, d1, d2, d3 := v / 0x10 / 0x10 / 0x10, v / 0x10 / 0x10 % 0x10, v / 0x10 % 0x10, v % 0x10;
    assert Token(v) == "0x" + [HexDigit(d0), HexDigit(d1), HexDigit(d2), HexDigit(d3)];
    ParseHexDigits(d0, d1, d2, d3);
    DigitsRecompose(v, d0, d1, d2, d3);
  }

  /** Four hexadecimal digits after "0x" read back as the number they spell. */
  lemma ParseHexDigits(d0: nat, d1: nat, d2: nat, d3: nat)
    requires d0 < 16 && d1 < 16 && d2 < 16 && d3 < 16
    ensures ParseToken("0x" + [HexDigit(d0), HexDigit(d1), HexDigit(d2), HexDigit(d3)]) ==
      Some(((d0 * 0x10 + d1) * 0x10 + d2) * 0x10 + d3)
  {
    var t := "0x" + [HexDigit(d0), HexDigit(d1), HexDigit(d2), HexDigit(d3)];
    HexValueDigit(d0);
    HexValueDigit(d1);
    HexValueDigit(d2);
    HexValueDigit(d3);
    ParseDigits(t, d0, d1, d2, d3);
  }

  lemma ParseDigits(t: string, d0: nat, d1: nat, d2: nat, d3: nat)
    requires |t| == 6 && t[..2] == "0x"
    requires HexValue(t[2]) == Some(d0) && HexValue(t[3]) == Some(d1)
    requires HexValue(t[4]) == Some(d2) && HexValue(t[5]) == Some(d3)
    ensures ParseToken(t) == Some(((d0 * 0x10 + d1) * 0x10 + d2) * 0x10 + d3)
  {
  }

  /** The four hexadecimal digits of `v`, most significant first, give
      `v` back. */
  lemma DigitsRecompose(v: nat, d0: nat, d1: nat, d2: nat, d3: nat)
    requires d0 == v / 0x10 / 0x10 / 0x10 && d1 == v / 0x10 / 0x10 % 0x10
    requires d2 == v / 0x10 % 0x10 && d3 == v % 0x10
    ensures ((d0 * 0x10 + d1) * 0x10 + d2) * 0x10 + d3 == v
  {
  }

  /** The token printed for a pixel. */
  function PixelToken(p: Rgb): (t: string)
    ensures |t| == 6
  {
    Token(Pack(p) as nat)
  }

  /** An image of `w` columns: `|img|` rows of `w` pixels each. */
  predicate Rectangular(img: seq<seq<Rgb>>, w: nat)
  {
    forall y :: 0 <= y < |img| ==> |img[y]| == w
  }

  /** The tokens of one row, left to right. */
  function RowTokens(row: seq<Rgb>): (r: seq<string>)
    ensures |r| == |row| && forall x :: 0 <= x < |row| ==> r[x] == PixelToken(row[x])
  {
    seq(|row|, x requires 0 <= x < |row| => PixelToken(row[x]))
  }

  /** The table's lines, top to bottom: each row's tokens joined by ", ". */
  function RowTexts(img: seq<seq<Rgb>>): (r: seq<string>)
    ensures |r| == |img| && forall y :: 0 <= y < |img| ==> r[y] == Join(RowTokens(img[y]), ", ")
  {
    seq(|img|, y requires 0 <= y < |img| => Join(RowTokens(img[y]), ", "))
  }

  /** The part of the header before the table. */
  function Prologue(w: nat, h: nat): string
  {
    "#ifndef ROVER_LOGO_H\n#define ROVER_LOGO_H\n\n" +
    "#include <pgmspace.h>\n\n" +
    "const int logo_width = " + Decimal(w) + ";\n" +
    "const int logo_height = " + Decimal(h) + ";\n\n" +
    "const uint16_t rover_logo[] PROGMEM = {\n"
  }

  const GUARD: string := "#ifndef ROVER_LOGO_H\n#define ROVER_LOGO_H\n\n"
  const EPILOGUE: string := "\n};\n\n#endif\n"

  /** The whole header written for an image `w` pixels wide. */
  function Header(img: seq<seq<Rgb>>, w: nat): string
  {
    Prologue(w, |img|) + Join(RowTexts(img), ",\n") + EPILOGUE
  }

  /** `convert_to_rgb565` from the resized image on: the writes of the
      header, in order, with the table built by the nested loops (y outer,
      x inner) that append each token to its row and each joined row to
      the table. */
  method ConvertToRgb565(img: seq<seq<Rgb>>, w: nat) returns (out: string)
    requires Rectangular(img, w)
    ensures out == Header(img, w)
  {
    out := GUARD;
    out := out + "#include <pgmspace.h>\n\n";
    out := out + "const int logo_width = " + Decimal(w) + ";\n";
    out := out + "const int logo_height = " + Decimal(|img|) + ";\n\n";
    out := out + "const uint16_t rover_logo[] PROGMEM = {\n";
    assert out == Prologue(w, |img|);
    var pixels: seq<string> := [];
    var y := 0;
    while y < |img|
      invariant 0 <= y <= |img|
      invariant pixels == RowTexts(img)[..y]
    {
      var line := RowLine(img[y]);
      assert RowTexts(img)[..y + 1] == RowTexts(img)[..y] + [line];
      pixels := pixels + [line];
      y := y + 1;
    }
    assert pixels == RowTexts(img);
    out := out + Join(pixels, ",\n");
    out := out + EPILOGUE;
  }

  /** The inner loop of `convert_to_rgb565`: the row's tokens, left to
      right, joined by ", ". */
  method RowLine(row: seq<Rgb>) returns (line: string)
    ensures line == Join(RowTokens(row), ", ")
  {
    var tokens: seq<string> := [];
    var x := 0;
    while x < |row|
      invariant 0 <= x <= |row|
      invariant tokens == RowTokens(row)[..x]
    {
      assert RowTokens(row)[..x + 1] == RowTokens(row)[..x] + [PixelToken(row[x])];
      tokens := tokens + [PixelToken(row[x])];
      x := x + 1;
    }
    assert tokens == RowTokens(row);
    line := Join(tokens, ", ");
  }

  /** The header opens with its include guard and closes the array and the
      guard. */
  lemma HeaderFraming(img: seq<seq<Rgb>>, w: nat)
    ensures |Header(img, w)| >= |GUARD| + |EPILOGUE|
    ensures Header(img, w)[..|GUARD|] == GUARD
    ensures Header(img, w)[|Header(img, w)| - |EPILOGUE|..] == EPILOGUE
  {
    var pro := Prologue(w, |img|);
    assert pro[..|GUARD|] == GUARD;
    assert Header(img, w) == pro + (Join(RowTexts(img), ",\n") + EPILOGUE);
  }

  /** Every row of a `w`-wide image is 8w - 2 characters: w tokens of six
      characters with a two-character separator between each pair. */
  lemma RowTextLength(row: seq<Rgb>)
    requires |row| > 0
    ensures |Join(RowTokens(row), ", ")| == 8 * |row| - 2
  {
    JoinUniformLength(RowTokens(row), ", ", 6, 8);
  }

  /** Where the token of pixel (x, y) starts in the table of an image `w`
      pixels wide: each row and its separator take 8w characters, each
      token and its separator 8. */
  function TokenOffset(w: nat, x: nat, y: nat): nat
  {
    y * (8 * w) + 8 * x
  }

  /** The table is laid out row-major, h rows of w tokens: the token of
      pixel (x, y) sits at offset `y * 8w + 8x`, and the table is exactly
      `8wh - 2` characters long, so it holds w * h tokens and nothing else. */
  lemma TableTokenAt(img: seq<seq<Rgb>>, w: nat, x: nat, y: nat)
    requires Rectangular(img, w)
    requires x < w && y < |img|
    ensures |Join(RowTexts(img), ",\n")| == |img| * (8 * w) - 2
    ensures var start := TokenOffset(w, x, y);
      start + 6 <= |Join(RowTexts(img), ",\n")| && Join(RowTexts(img), ",\n")[start..start + 6] == PixelToken(img[y][x])
  {
    var rows := RowTexts(img);
    forall j | 0 <= j < |rows|
      ensures |rows[j]| == 8 * w - 2
    {
      RowTextLength(img[j]);
    }
    JoinUniformLength(rows, ",\n", 8 * w - 2, 8 * w);
    var toks := RowTokens(img[y]);
    JoinNestedAt(rows, ",\n", 8 * w - 2, 8 * w, y, toks, ", ", 6, 8, x, y * (8 * w), 8 * x);
    assert toks[x] == PixelToken(img[y][x]);
  }

  /** In the header, the token of pixel (x, y) follows the prologue, which
      declares the width and height, by `y * 8w + 8x` characters. */
  lemma TokenAt(img: seq<seq<Rgb>>, w: nat, x: nat, y: nat)
    requires Rectangular(img, w)
    requires x < w && y < |img|
    ensures var start := |Prologue(w, |img|)| + TokenOffset(w, x, y);
      start + 6 <= |Header(img, w)| && Header(img, w)[start..start + 6] == PixelToken(img[y][x])
  {
    TableTokenAt(img, w, x, y);
    var pro := Prologue(w, |img|);
    var table := Join(RowTexts(img), ",\n");
    var off := TokenOffset(w, x, y);
    SliceOfMiddle(pro, table, EPILOGUE, off, 6);
  }
}
