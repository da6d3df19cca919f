/**
 * The writer of src/image/ppm_writer.cpp: an image as plain-text PPM
 * (format P3). The stream is modelled as the string written to it; numbers
 * are written in decimal, as `operator<<` writes them.
 */
module PpmWriter {
  import opened Vectors
  import opened Images

  /** The character of a decimal digit. */
  function DigitChar(d: nat): (c: char)
    requires d < 10
    ensures '0' <= c <= '9'
  {
    ['0', '1', '2', '3', '4', '5', '6', '7', '8', '9'][d]
  }

  function DigitValue(c: char): nat
    requires '0' <= c <= '9'
  {
    c as nat - '0' as nat
  }

  predicate IsDigits(s: string) {
    forall i :: 0 <= i < |s| ==> '0' <= s[i] <= '9'
  }

  /** `os << n` for a non-negative integer: its decimal digits, without leading zeros. */
  function Decimal(n: nat): (s: string)
    ensures |s| > 0 && IsDigits(s)
    ensures |s| > 1 ==> s[0] != '0'
  {
    if n < 10 then [DigitChar(n)] else Decimal(n / 10) + [DigitChar(n % 10)]
  }

  /** Reading decimal digits back as a number. */
  function ParseDecimal(s: string): nat
    requires IsDigits(s)
  {
    if |s| == 0 then 0 else ParseDecimal(s[..|s| - 1]) * 10 + DigitValue(s[|s| - 1])
  }

  lemma DigitRoundTrip(d: nat)
    requires d < 10
    ensures DigitValue(DigitChar(d)) == d
  {
  }

  /** A number written in decimal reads back as itself. */
  lemma {:induction false} DecimalRoundTrip(n: nat)
    ensures ParseDecimal(Decimal(n)) == n
  {
    var s := Decimal(n);
    if n < 10 {
      DigitRoundTrip(n);
      assert s[..0] == [];
    } else {
      DecimalRoundTrip(n / 10);
      DigitRoundTrip(n % 10);
      assert s[..|s| - 1] == Decimal(n / 10);
    }
  }

  /** `static_cast<int>(x)`: truncation toward zero. */
  function Trunc(x: real): (i: int)
    ensures x >= 0.0 ==> i == x.Floor
    ensures Abs(i as real) <= Abs(x) < Abs(i as real) + 1.0
  {
    if x >= 0.0 then x.Floor else -((-x).Floor)
  }

  /**
   * One colour channel: `min(255, max(0, int(c * 255)))`. No gamma
   * correction is applied.
   */
  function Channel(c: real): (v: nat)
    ensures v <= 255
    ensures c >= 1.0 ==> v == 255
    ensures c <= 0.0 ==> v == 0
    ensures 0.0 <= c < 1.0 ==> v == (c * 255.0).Floor
  {
    var t := Trunc(c * 255.0);
    if t > 255 then 255 else if t < 0 then 0 else t
  }

  /** A brighter channel value is never written as a smaller number. */
  lemma ChannelMonotone(a: real, b: real)
    requires a <= b
    ensures Channel(a) <= Channel(b)
  {
    assert a * 255.0 <= b * 255.0;
    if a >= 0.0 && b < 1.0 {
      assert (a * 255.0).Floor <= (b * 255.0).Floor;
    }
  }

  /** `r g b ` for one pixel. */
  function Triple(color: Vec3): string {
    Decimal(Channel(color.x)) + " " + Decimal(Channel(color.y)) + " " + Decimal(Channel(color.z)) + " "
  }

  /** `P3`, the dimensions, and the largest channel value, each line ended by a newline. */
  function Header(width: nat, height: nat): string {
    "P3\n" + Decimal(width) + " " + Decimal(height) + "\n255\n"
  }

  /**
   * The text of the first `count` pixels of line `y`, each pixel written by
   * `text` (for the writer, `Triple`).
   */
  function Triples(buf: seq<Vec3>, width: nat, height: nat, y: nat, count: nat, text: Vec3 -> string): string
    requires |buf| == width * height && y < height && count <= width
  {
    if count == 0 then "" else Triples(buf, width, height, y, count - 1, text) + text(PixelIn(buf, width, height, count - 1, y))
  }

  /** The first `count` lines of the body, each holding `width` pixels and a newline. */
  function Lines(buf: seq<Vec3>, width: nat, height: nat, count: nat, text: Vec3 -> string): string
    requires |buf| == width * height && count <= height
  {
    if count == 0 then "" else Lines(buf, width, height, count - 1, text) + Triples(buf, width, height, count - 1, width, text) + "\n"
  }

  /** The whole file for an image with buffer `buf`. */
  function PpmText(buf: seq<Vec3>, width: nat, height: nat): string
    requires |buf| == width * height
  {
    Header(width, height) + Lines(buf, width, height, height, Triple)
  }

  /** The number of newline characters in `s`. */
  function Newlines(s: string): nat {
    if |s| == 0 then 0 else (if s[0] == '\n' then 1 else 0) + Newlines(s[1..])
  }

  predicate NoNewline(s: string) {
    forall i :: 0 <= i < |s| ==> s[i] != '\n'
  }

  lemma {:induction false} NewlinesAppend(a: string, b: string)
    ensures Newlines(a + b) == Newlines(a) + Newlines(b)
    decreases |a|
  {
    if |a| == 0 {
      assert a + b == b;
    } else {
      assert (a + b)[1..] == a[1..] + b;
      NewlinesAppend(a[1..], b);
    }
  }

  lemma {:induction false} NoNewlineCount(s: string)
    requires NoNewline(s)
    ensures Newlines(s) == 0
    decreases |s|
  {
    if |s| > 0 {
      NoNewlineCount(s[1..]);
    }
  }

  lemma TripleOnOneLine(color: Vec3)
    ensures NoNewline(Triple(color))
  {
  }

  lemma {:induction false} TriplesOnOneLine(buf: seq<Vec3>, width: nat, height: nat, y: nat, count: nat,
                                            text: Vec3 -> string)
    requires |buf| == width * height && y < height && count <= width
    requires forall c :: NoNewline(text(c))
    ensures NoNewline(Triples(buf, width, height, y, count, text))
  {
    if count > 0 {
      TriplesOnOneLine(buf, width, height, y, count - 1, text);
    }
  }

  /** Appending a line that holds no newline of its own adds one newline. */
  lemma AppendLine(prev: string, row: string)
    requires NoNewline(row)
    ensures Newlines(prev + row + "\n") == Newlines(prev) + 1
  {
    NoNewlineCount(row);
    NewlinesAppend(prev, row);
    NewlinesAppend(prev + row, "\n");
    assert "\n"[1..] == "";
  }

  /** When no pixel's text holds a newline, the body holds exactly one line per image row. */
  lemma {:induction false} LineCount(buf: seq<Vec3>, width: nat, height: nat, count: nat, text: Vec3 -> string)
    requires |buf| == width * height && count <= height
    requires forall c :: NoNewline(text(c))
    ensures Newlines(Lines(buf, width, height, count, text)) == count
  {
    if count > 0 {
      var prev, row := Lines(buf, width, height, count - 1, text), Triples(buf, width, height, count - 1, width, text);
      LineCount(buf, width, height, count - 1, text);
      TriplesOnOneLine(buf, width, height, count - 1, width, text);
      AppendLine(prev, row);
    }
  }

  /** The file's body has one line per row of the image. */
  lemma BodyLines(buf: seq<Vec3>, width: nat, height: nat)
    requires |buf| == width * height
    ensures Newlines(Lines(buf, width, height, height, Triple)) == height
  {
    forall c ensures NoNewline(Triple(c)) {
      TripleOnOneLine(c);
    }
    LineCount(buf, width, height, height, Triple);
  }

  /**
   * The header states the dimensions in a form that reads back exactly,
   * and takes three lines.
   */
  lemma HeaderFields(width: nat, height: nat)
    ensures Header(width, height)[..3] == "P3\n"
    ensures ParseDecimal(Decimal(width)) == width && ParseDecimal(Decimal(height)) == height
  {
    DecimalRoundTrip(width);
    DecimalRoundTrip(height);
  }

  lemma AppendAssociative(a: string, b: string, c: string)
    ensures (a + b) + c == a + (b + c)
  {
  }

  /** `os << r << ' ' << g << ' ' << b << ' '` for one pixel. */
  method WritePixel(color: Vec3, before: string) returns (out: string)
    ensures out == before + Triple(color)
  {
    var r := Channel(color.x);
    var g := Channel(color.y);
    var b := Channel(color.z);
    out := before + Decimal(r) + " " + Decimal(g) + " " + Decimal(b) + " ";
  }

  /** The inner loop of `write`: the pixels of line `y`, left to right. */
  method WriteLine(img: Image, y: nat, before: string) returns (out: string)
    requires img.Valid() && y < img.height
    ensures out == before + Triples(img.buffer[..], img.width, img.height, y, img.width, Triple)
  {
    ghost var buf := img.buffer[..];
    var width := img.GetWidth();
    out := before;
    var x := 0;
    while x < width
      invariant x <= width
      invariant out == before + Triples(buf, width, img.height, y, x, Triple)
    {
      var color := img.GetPixel(x, y);
      ghost var done := Triples(buf, width, img.height, y, x, Triple);
      out := WritePixel(color, out);
      AppendAssociative(before, done, Triple(color));
      x := x + 1;
    }
  }

  /**
   * `ppm_writer::write(img, os)`: the header, then for each `y` below the
   * height one line of the triples of pixels `(x, y)` for `x` below the
   * width. It always reports success.
   */
  method Write(img: Image) returns (ok: bool, out: string)
    requires img.Valid()
    ensures ok
    ensures out == PpmText(img.buffer[..], img.width, img.height)
  {
    var width := img.GetWidth();
    var height := img.GetHeight();
    ghost var buf := img.buffer[..];
    out := "P3\n" + Decimal(width) + " " + Decimal(height) + "\n255\n";
    var y := 0;
    while y < height
      invariant y <= height
      invariant out == Header(width, height) + Lines(buf, width, height, y, Triple)
    {
      ghost var head, done := Header(width, height), Lines(buf, width, height, y, Triple);
      out := WriteLine(img, y, out);
      ghost var row := Triples(buf, width, height, y, width, Triple);
      AppendAssociative(head, done, row);
      out := out + "\n";
      AppendAssociative(head, done + row, "\n");
      y := y + 1;
    }
    ok := true;
  }
}
