/** images/image_converter.py: turns an RGB image into a C++ source file holding its pixels as
    byte-swapped RGB565 words, eight to a line, and derives the array's name from the file name.
    Loading the image is outside the model: the converter receives its width, height and a
    pixel accessor; the file it writes is the returned string. */
module ImageConverter {
  import opened Common

  datatype Rgb = Rgb(r: Byte, g: Byte, b: Byte)

  /** A 16-bit word, as written into the `uint16_t` array. */
  type U16 = x: int | 0 <= x < 0x1_0000

  /** The quantised channels: `r >> 3 & 31`, `g >> 2 & 63`, `b >> 3 & 31`. On non-negative
      Python integers a right shift is a floor division and the mask a remainder. */
  lemma ChannelBounds(r: Byte, g: Byte, b: Byte)
    ensures r / 8 % 32 == r / 8 < 32 && g / 4 % 64 == g / 4 < 64 && b / 8 % 32 == b / 8 < 32
  {
  }

  lemma Pow2Facts()
    ensures Pow2(5) == 32 && Pow2(8) == 256 && Pow2(11) == 2048
  {
  }

  /** RGB565: `b | g << 5 | r << 11`. The three fields do not overlap, so the or is a sum. */
  function Pack(px: Rgb): (p: U16)
    ensures p == px.r / 8 * 2048 + px.g / 4 * 32 + px.b / 8
  {
    var r := px.r / 8 % 32;
    var g := px.g / 4 % 64;
    var b := px.b / 8 % 32;
    ChannelBounds(px.r, px.g, px.b);
    Pow2Facts();
    BitOrBelow(b, g, 32, 5);
    var low := BitOr(b, g * 32);
    BitOrBelow(low, r, 2048, 11);
    BitOr(low, r * 2048)
  }

  /** `((p >> 8) | (p << 8)) & 0xFFFF`: the high and the low byte of the word exchanged. */
  function Swap(p: U16): (q: U16)
    ensures q == p % 256 * 256 + p / 256
  {
    Pow2Facts();
    BitOrBelow(p / 256, p, 256, 8);
    SwapArith(p);
    BitOr(p / 256, p * 256) % 0x1_0000
  }

  lemma SwapArith(p: U16)
    ensures (p / 256 + p * 256) % 0x1_0000 == p % 256 * 256 + p / 256
  {
    assert p * 256 == p / 256 * 0x1_0000 + p % 256 * 256;
    DivModUnique(p / 256 + p * 256, 0x1_0000, p / 256, p % 256 * 256 + p / 256);
  }

  /** The word written for one pixel: RGB565 with its bytes swapped, so that the display,
      which takes the high byte first, receives them in order from a little-endian array. */
  function Word(px: Rgb): U16
  {
    Swap(Pack(px))
  }

  /** The three fields of a packed word can be read back: nothing but the bits the
      quantisation drops is lost. */
  lemma PackFields(px: Rgb)
    ensures Pack(px) / 2048 == px.r / 8
    ensures Pack(px) / 32 % 64 == px.g / 4
    ensures Pack(px) % 32 == px.b / 8
  {
    var r, g, b := px.r / 8, px.g / 4, px.b / 8;
    ChannelBounds(px.r, px.g, px.b);
    var p := Pack(px);
    DivModUnique(p, 2048, r, g * 32 + b);
    DivModUnique(p, 32, r * 64 + g, b);
    DivModUnique(r * 64 + g, 64, r, g);
  }

  /** Swapping twice gives the word back. */
  lemma SwapTwice(p: U16)
    ensures Swap(Swap(p)) == p
  {
    var q := Swap(p);
    DivModUnique(q, 256, p % 256, p / 256);
    DivModUnique(p, 256, p / 256, p % 256);
  }

  // ----- text formatting -----

  function HexDigit(d: int): char
    requires 0 <= d < 16
  {
    if d < 10 then ('0' as int + d) as char else ('A' as int + d - 10) as char
  }

  function HexValue(c: char): int
  {
    if '0' <= c <= '9' then c as int - '0' as int
    else if 'A' <= c <= 'F' then c as int - 'A' as int + 10
    else 0
  }

  /** `'%04X' % p`: four upper-case hexadecimal digits, most significant first. */
  function Hex4(p: U16): (s: string)
    ensures |s| == 4
  {
    var p1 := p / 16;
    var p2 := p1 / 16;
    [HexDigit(p2 / 16), HexDigit(p2 % 16), HexDigit(p1 % 16), HexDigit(p % 16)]
  }

  /** Reading four hexadecimal digits, most significant first. */
  function ParseHex4(s: string): int
    requires |s| == 4
  {
    ((HexValue(s[0]) * 16 + HexValue(s[1])) * 16 + HexValue(s[2])) * 16 + HexValue(s[3])
  }

  lemma HexDigitValue(d: int)
    requires 0 <= d < 16
    ensures HexValue(HexDigit(d)) == d
    ensures HexDigit(d) != '\n' && HexDigit(d) != '\t'
  {
  }

  /** The four digits written for a word read back as that word. */
  lemma Hex4RoundTrip(p: U16)
    ensures ParseHex4(Hex4(p)) == p
  {
    var p1 := p / 16;
    var p2 := p1 / 16;
    HexDigitValue(p2 / 16);
    HexDigitValue(p2 % 16);
    HexDigitValue(p1 % 16);
    HexDigitValue(p % 16);
  }

  function DecDigit(d: int): char
    requires 0 <= d < 10
  {
    ('0' as int + d) as char
  }

  /** `'%d' % n` for a non-negative `n`. */
  function Dec(n: nat): (s: string)
    ensures |s| > 0
    decreases n
  {
    if n < 10 then [DecDigit(n)] else Dec(n / 10) + [DecDigit(n % 10)]
  }

  function ParseDec(s: string): int
    decreases |s|
  {
    if s == [] then 0 else ParseDec(s[..|s| - 1]) * 10 + (s[|s| - 1] as int - '0' as int)
  }

  /** The dimensions written in the header read back as the dimensions. */
  lemma {:induction false} DecRoundTrip(n: nat)
    ensures ParseDec(Dec(n)) == n
    decreases n
  {
    if n >= 10 {
      DecRoundTrip(n / 10);
      var s := Dec(n);
      assert s[..|s| - 1] == Dec(n / 10);
    } else {
      assert Dec(n)[..0] == [];
    }
  }

  /** The text written for the `i`-th word: a tab before each group of eight, the word with its
      comma, and a line break after the eighth. */
  function Chunk(i: nat, p: U16): string
  {
    GroupStart(i) + HexLiteral(p) + GroupEnd(i)
  }

  /** `'0x%04X, ' % p`. */
  function HexLiteral(p: U16): string
  {
    "0x" + Hex4(p) + ", "
  }

  function GroupStart(i: nat): string
  {
    if i % 8 == 0 then "\t" else ""
  }

  function GroupEnd(i: nat): string
  {
    if i % 8 == 7 then "\n" else ""
  }

  /** The array body for the words `ws`, in order. */
  function Formatted(ws: seq<U16>): string
    decreases |ws|
  {
    if ws == [] then "" else Formatted(ws[..|ws| - 1]) + Chunk(|ws| - 1, ws[|ws| - 1])
  }

  function Count(c: char, s: string): nat
    decreases |s|
  {
    if s == [] then 0 else Count(c, s[..|s| - 1]) + (if s[|s| - 1] == c then 1 else 0)
  }

  lemma {:induction false} CountConcat(c: char, a: string, b: string)
    ensures Count(c, a + b) == Count(c, a) + Count(c, b)
    decreases |b|
  {
    if b == [] {
      assert a + b == a;
    } else {
      CountConcat(c, a, b[..|b| - 1]);
      assert (a + b)[..|a + b| - 1] == a + b[..|b| - 1];
    }
  }

  lemma ChunkCounts(i: nat, p: U16)
    ensures Count('\n', Chunk(i, p)) == (if i % 8 == 7 then 1 else 0)
    ensures Count('\t', Chunk(i, p)) == (if i % 8 == 0 then 1 else 0)
  {
    var h := Hex4(p);
    HexDigitValue(p / 16 / 16 / 16);
    HexDigitValue(p / 16 / 16 % 16);
    HexDigitValue(p / 16 % 16);
    HexDigitValue(p % 16);
    var pre, m, post := GroupStart(i), HexLiteral(p), GroupEnd(i);
    CountConcat('\n', pre, m);
    CountConcat('\n', pre + m, post);
    CountConcat('\t', pre, m);
    CountConcat('\t', pre + m, post);
    assert Count('\n', m) == 0 && Count('\t', m) == 0 by {
      assert forall k :: 0 <= k < |m| ==> m[k] != '\n' && m[k] != '\t';
      NoneCounted(m);
    }
  }

  lemma {:induction false} NoneCounted(s: string)
    requires forall k :: 0 <= k < |s| ==> s[k] != '\n' && s[k] != '\t'
    ensures Count('\n', s) == 0 && Count('\t', s) == 0
    decreases |s|
  {
    if s != [] {
      NoneCounted(s[..|s| - 1]);
    }
  }

  /** The body has one line break per complete group of eight words and one tab per group
      begun: `n` words make `n / 8` breaks and `(n + 7) / 8` tabs. */
  lemma {:induction false} FormattedLines(ws: seq<U16>)
    ensures Count('\n', Formatted(ws)) == |ws| / 8
    ensures Count('\t', Formatted(ws)) == (|ws| + 7) / 8
    decreases |ws|
  {
    if ws != [] {
      var n := |ws| - 1;
      FormattedLines(ws[..n]);
      ChunkCounts(n, ws[n]);
      CountConcat('\n', Formatted(ws[..n]), Chunk(n, ws[n]));
      CountConcat('\t', Formatted(ws[..n]), Chunk(n, ws[n]));
      GroupArith(n);
    }
  }

  /** One more word completes a group after the eighth and begins one after each eighth. */
  lemma GroupArith(n: nat)
    ensures (n + 1) / 8 == n / 8 + (if n % 8 == 7 then 1 else 0)
    ensures (n + 8) / 8 == (n + 7) / 8 + (if n % 8 == 0 then 1 else 0)
  {
  }

  // ----- the conversion -----

  /** The pixel that the `i`-th word comes from: the image is walked row by row. */
  function PixelAt(width: nat, i: nat): (int, int)
  {
    if width == 0 then (0, 0) else (i % width, i / width)
  }

  /** The words of the whole image in the order they are written. */
  function Words(width: nat, height: nat, pixel: (int, int) -> Rgb): (ws: seq<U16>)
    ensures |ws| == width * height
  {
    seq<U16>(width * height, i requires 0 <= i => Word(pixel(PixelAt(width, i).0, PixelAt(width, i).1)))
  }

  /** The lines before the array: the include, and the width and height variables. */
  function Header(name: string, width: nat, height: nat): string
  {
    "#include <cstdint>\n" + "\n"
      + "int " + name + "_width  = " + Dec(width) + ";\n"
      + "int " + name + "_height = " + Dec(height) + ";\n"
      + "uint16_t " + name + "[] = {\n"
  }

  /** Every word comes from a pixel inside the image, taken row by row: word `i` is the pixel
      in column `i % width` of row `i / width`. */
  lemma WordsInRowOrder(width: nat, height: nat, pixel: (int, int) -> Rgb, i: nat)
    requires i < width * height
    ensures 0 < width && i / width < height
    ensures Words(width, height, pixel)[i] == Word(pixel(i % width, i / width))
  {
    DivBelow(i, width, height);
    var ws := Words(width, height, pixel);
    var xy := PixelAt(width, i);
    assert xy == (i % width, i / width);
    assert ws[i] == Word(pixel(xy.0, xy.1));
  }

  lemma DivBelow(i: nat, w: nat, h: nat)
    requires i < w * h
    ensures 0 < w && i / w < h
  {
  }

  /** Moving one pixel to the right, wrapping at the end of a row. */
  lemma NextPixel(i: nat, w: nat)
    requires w > 0
    ensures i % w + 1 >= w ==> (i + 1) % w == 0 && (i + 1) / w == i / w + 1
    ensures i % w + 1 < w ==> (i + 1) % w == i % w + 1 && (i + 1) / w == i / w
  {
    if i % w + 1 < w {
      DivModUnique(i + 1, w, i / w, i % w + 1);
    } else {
      DivModUnique(i + 1, w, i / w + 1, 0);
    }
  }

  /** `convert`: the whole text of the output file for an image already loaded. */
  method Convert(name: string, width: nat, height: nat, pixel: (int, int) -> Rgb) returns (out: string)
    ensures out == Header(name, width, height) + Formatted(Words(width, height, pixel)) + "};\n"
  {
    ghost var ws := Words(width, height, pixel);
    out := Header(name, width, height);
    var lineCount := 0;
    var x, y := 0, 0;
    var count := width * height;
    var i := 0;
    if width > 0 {
      DivModUnique(0, width, 0, 0);
    }
    while i < count
      invariant 0 <= i <= count && |ws| == count
      invariant lineCount == i
      invariant width > 0 ==> x == i % width && y == i / width
      invariant out == Header(name, width, height) + Formatted(ws[..i])
    {
      ghost var before := out;
      if lineCount % 8 == 0 {
        out := out + "\t";
      } else {
        assert out == before + GroupStart(i);
      }
      WordsInRowOrder(width, height, pixel, i);
      var p := Word(pixel(x, y));
      out := out + ("0x" + Hex4(p) + ", ");
      assert out == before + GroupStart(i) + HexLiteral(ws[i]);
      if lineCount % 8 == 7 {
        out := out + "\n";
      } else {
        assert out == before + GroupStart(i) + HexLiteral(ws[i]) + GroupEnd(i);
      }
      ConcatAssoc3(before, GroupStart(i), HexLiteral(ws[i]), GroupEnd(i));
      assert ws[..i + 1][..i] == ws[..i];
      assert Formatted(ws[..i + 1]) == Formatted(ws[..i]) + Chunk(i, ws[i]);
      ConcatAssoc(Header(name, width, height), Formatted(ws[..i]), Chunk(i, ws[i]));
      if width > 0 {
        NextPixel(i, width);
      }
      x := x + 1;
      if x >= width {
        x := 0;
        y := y + 1;
      }
      lineCount := lineCount + 1;
      i := i + 1;
    }
    assert ws[..i] == ws;
    out := out + "};\n";
  }

  // ----- the output name -----

  /** The last position of `c` in `s`, if any. */
  function LastIndexOf(s: string, c: char): (k: Option<nat>)
    ensures k.Some? ==> k.value < |s| && s[k.value] == c && forall j :: k.value < j < |s| ==> s[j] != c
    ensures k.None? ==> c !in s
    decreases |s|
  {
    if s == [] then None
    else if s[|s| - 1] == c then Some(|s| - 1)
    else LastIndexOf(s[..|s| - 1], c)
  }

  /** Where the first line ends: the first line break, or the end. Python's `.` stops there. */
  function LineEnd(s: string): (e: nat)
    ensures e <= |s| && '\n' !in s[..e]
    ensures e < |s| ==> s[e] == '\n'
    decreases |s|
  {
    if s == [] then 0
    else if s[0] == '\n' then 0
    else
      var e := 1 + LineEnd(s[1..]);
      assert s[..e] == [s[0]] + s[1..][..e - 1];
      e
  }

  // re.sub(r'^.*/', '', s): drop everything through the last `/` of the first line.
  function StripDirectory(s: string): string
  {
    match LastIndexOf(s[..LineEnd(s)], '/')
    case None => s
    case Some(k) => s[k + 1..]
  }

  /** `re.sub(r'^(.*)\..*?$', r'\1', s)`: drop the last `.` of the first line and what follows it
      on that line, provided the line reaches the end of the text or only a final line break
      follows it. */
  function StripExtension(s: string): string
  {
    var e := LineEnd(s);
    if e + 1 < |s| then s
    else match LastIndexOf(s[..e], '.')
      case None => s
      case Some(j) => s[..j] + s[e..]
  }

  /** The name `main` derives from its first argument. */
  function OutputName(arg: string): string
  {
    StripExtension(StripDirectory(arg))
  }

  /** `main`: without an argument only the usage is printed and nothing is converted. */
  function OutputNameFor(argv: seq<string>): (name: Option<string>)
    ensures |argv| < 2 <==> name.None?
    ensures |argv| >= 2 ==> name == Some(OutputName(argv[1]))
  {
    if |argv| < 2 then None else Some(OutputName(argv[1]))
  }

  /** On a text with no line break the first line is the whole text. */
  lemma {:induction false} LineEndWhole(s: string)
    requires '\n' !in s
    ensures LineEnd(s) == |s|
    decreases |s|
  {
    if s != [] {
      assert s[0] in s;
      assert '\n' !in s[1..] by {
        assert forall c :: c in s[1..] ==> c in s;
      }
      LineEndWhole(s[1..]);
    }
  }

  /** A text without line breaks is a single line, indexable element by element. */
  lemma NoBreakIn(s: string)
    requires forall j :: 0 <= j < |s| ==> s[j] != '\n'
    ensures LineEnd(s) == |s| && s[..LineEnd(s)] == s
  {
    assert '\n' !in s;
    LineEndWhole(s);
  }

  /** Through the last slash everything goes when the rest of the path has no slash. */
  lemma StripDirectoryOf(dir: string, rest: string)
    requires '\n' !in dir && '\n' !in rest && '/' !in rest
    ensures StripDirectory(dir + "/" + rest) == rest
  {
    var s := dir + "/" + rest;
    forall j | 0 <= j < |s|
      ensures s[j] != '\n'
    {
      if j < |dir| {
        assert s[j] == dir[j];
      } else if j > |dir| {
        assert s[j] == rest[j - |dir| - 1];
      }
    }
    NoBreakIn(s);
    forall j | |dir| < j < |s|
      ensures s[j] != '/'
    {
      assert s[j] == rest[j - |dir| - 1];
    }
    assert s[|dir|] == '/';
    assert LastIndexOf(s, '/') == Some(|dir|);
    assert s[|dir| + 1..] == rest;
  }

  /** The last dot and what follows it go when that tail has no dot. */
  lemma StripExtensionOf(base: string, ext: string)
    requires '\n' !in base && '\n' !in ext && '.' !in ext
    ensures StripExtension(base + "." + ext) == base
  {
    var t := base + "." + ext;
    forall j | 0 <= j < |t|
      ensures t[j] != '\n'
    {
      if j < |base| {
        assert t[j] == base[j];
      } else if j > |base| {
        assert t[j] == ext[j - |base| - 1];
      }
    }
    NoBreakIn(t);
    forall j | |base| < j < |t|
      ensures t[j] != '.'
    {
      assert t[j] == ext[j - |base| - 1];
    }
    assert t[|base|] == '.';
    assert LastIndexOf(t, '.') == Some(|base|);
    assert t[..|base|] == base && t[|t|..] == [];
  }

  /** A path `dir/base.ext`, with no line break, gives `base`: the directory and the last
      extension go, and earlier dots in `base` stay. */
  lemma OutputNameOfPath(dir: string, base: string, ext: string)
    requires '\n' !in dir && '\n' !in base && '\n' !in ext
    requires '/' !in base && '/' !in ext && '.' !in ext
    ensures OutputName(dir + "/" + base + "." + ext) == base
  {
    var t := base + "." + ext;
    assert dir + "/" + base + "." + ext == dir + "/" + t;
    assert '\n' !in t && '/' !in t by {
      forall j | 0 <= j < |t|
        ensures t[j] != '\n' && t[j] != '/'
      {
        if j < |base| {
          assert t[j] == base[j];
        } else if j > |base| {
          assert t[j] == ext[j - |base| - 1];
        }
      }
    }
    StripDirectoryOf(dir, t);
    StripExtensionOf(base, ext);
  }

  /** A name with no dot and no slash is kept whole, with or without a directory in front. */
  lemma OutputNameWithoutDot(dir: string, name: string)
    requires '\n' !in dir && '\n' !in name && '/' !in name && '.' !in name
    ensures OutputName(dir + "/" + name) == name
    ensures OutputName(name) == name
  {
    StripDirectoryOf(dir, name);
    LineEndWhole(name);
    assert name[..|name|] == name;
    assert LastIndexOf(name, '/') == None;
    assert LastIndexOf(name, '.') == None;
  }
}
