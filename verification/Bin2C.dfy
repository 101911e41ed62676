/**
  `bin2c` (src/bin2c.py): render a byte string as a C array definition
  followed by a length constant, for embedding web assets in the firmware.

  The Python function reads a file and may gzip it; here the file's content
  is a parameter (`None` when the path is not a regular file) and the
  compression step is outside the model.
 */
module Bin2C {
  import opened Basics

  type Byte = b: int | 0 <= b < 256

  /** A requested line size below 40 is raised to 40. */
  const MinLineSize: int := 40

  /** The width of one rendered byte, `'0x00, '`; the contracts below write
      it as the literal 6. */
  const ByteLen: nat := 6

  const HexDigits: string := "0123456789abcdef"

  predicate IsLowerHexDigit(c: char) {
    '0' <= c <= '9' || 'a' <= c <= 'f'
  }

  function HexDigit(d: int): (c: char)
    requires 0 <= d < 16
    ensures IsLowerHexDigit(c)
  {
    HexDigits[d]
  }

  function HexDigitValue(c: char): (d: int)
    requires IsLowerHexDigit(c)
    ensures 0 <= d < 16
  {
    if c <= '9' then c as int - '0' as int else c as int - 'a' as int + 10
  }

  lemma HexDigitRoundTrip(d: int)
    requires 0 <= d < 16
    ensures HexDigitValue(HexDigit(d)) == d
  {
  }

  /** Whether `s` starts with "0x" and two lower-case hex digits. */
  predicate StartsWithHexByte(s: string) {
    |s| >= 4 && s[0] == '0' && s[1] == 'x' && IsLowerHexDigit(s[2]) && IsLowerHexDigit(s[3])
  }

  /** The byte the leading "0xhh" of `s` denotes. */
  function HexByteValue(s: string): Byte
    requires StartsWithHexByte(s)
  {
    HexDigitValue(s[2]) * 16 + HexDigitValue(s[3])
  }

  /** `'0x%02x' % byte`: "0x" and two lower-case hex digits whose value is the byte. */
  function Hex(b: Byte): (s: string)
    ensures |s| == 4 && StartsWithHexByte(s) && HexByteValue(s) == b
  {
    HexDigitRoundTrip(b / 16);
    HexDigitRoundTrip(b % 16);
    "0x" + [HexDigit(b / 16), HexDigit(b % 16)]
  }

  predicate IsIdentStart(c: char) {
    'a' <= c <= 'z' || 'A' <= c <= 'Z' || c == '_'
  }

  predicate IsIdentChar(c: char) {
    IsIdentStart(c) || IsDigit(c)
  }

  /** The number of leading identifier characters of `s`. */
  function IdentRun(s: string): (n: nat)
    ensures n <= |s|
    ensures forall i :: 0 <= i < n ==> IsIdentChar(s[i])
    ensures n == |s| || !IsIdentChar(s[n])
    decreases |s|
  {
    if |s| == 0 || !IsIdentChar(s[0]) then 0 else 1 + IdentRun(s[1..])
  }

  /** `re.match('[a-zA-Z_][a-zA-Z0-9_]*', varname)`: the length of the match
      anchored at the start, or `None`. The match need not reach the end. */
  function IdentMatch(v: string): (r: Option<nat>)
    ensures r.Some? <==> |v| > 0 && IsIdentStart(v[0])
    ensures r.Some? ==> 1 <= r.value <= |v| &&
                        (forall i :: 0 <= i < r.value ==> IsIdentChar(v[i])) &&
                        (r.value == |v| || !IsIdentChar(v[r.value]))
  {
    if |v| == 0 || !IsIdentStart(v[0]) then None else Some(1 + IdentRun(v[1..]))
  }

  /** Only the first character decides: a name with a non-identifier character
      later on is accepted, and the match stops short of it. */
  lemma OnlyFirstCharChecked()
    ensures IdentMatch("a-b") == Some(1)
    ensures IdentMatch("1ab") == None
  {
    assert "a-b"[1..] == "-b";
  }

  function Spaces(n: nat): (s: string)
    ensures |s| == n
  {
    if n == 0 then "" else Spaces(n - 1) + " "
  }

  lemma {:induction false} SpacesAreBlank(n: nat)
    ensures forall i :: 0 <= i < n ==> Spaces(n)[i] == ' '
  {
    if n > 0 {
      SpacesAreBlank(n - 1);
    }
  }

  /** Whether an indented line of j rendered bytes leaves room for one more
      below the line size. */
  predicate RoomForMore(j: nat, indent: nat, linesize: int) {
    6 * j + indent + 6 < linesize
  }

  /** The number of bytes on a full line: the least k >= 1 at which the line
      `indent + 6k` plus room for one more byte reaches the line size. */
  function LineTokens(linesize: int, indent: nat): (k: nat)
    ensures k >= 1
    ensures !RoomForMore(k, indent, linesize)
    ensures forall j :: 1 <= j < k ==> RoomForMore(j, indent, linesize)
  {
    if indent + 12 >= linesize then 1
    else
      var m := linesize - indent - 6;
      var k := (m + 5) / 6;
      k
  }

  /** `'0x%02x, '` for each byte, concatenated. */
  function Tokens(bs: seq<Byte>): (s: string)
    ensures |s| == 6 * |bs|
    decreases |bs|
  {
    if |bs| == 0 then "" else Tokens(bs[..|bs| - 1]) + Hex(bs[|bs| - 1]) + ", "
  }

  /** The bytes separated by ", ", with nothing after the last one. */
  function HexList(bs: seq<Byte>): (s: string)
    requires |bs| > 0
    ensures Tokens(bs) == s + ", "
    ensures IsLowerHexDigit(s[|s| - 1])
  {
    Tokens(bs[..|bs| - 1]) + Hex(bs[|bs| - 1])
  }

  /** A line the loop flushes: the indent, the bytes each followed by ", ",
      and a line break. */
  function FullLine(bs: seq<Byte>, indent: nat): string {
    Spaces(indent) + Tokens(bs) + "\n"
  }

  /** The array's initializer: lines of k bytes, each line indented and
      ending in ", " before its line break, the last line holding the
      remaining 1..k bytes with no separator after the last byte. */
  function Listing(data: seq<Byte>, k: nat, indent: nat): string
    requires k >= 1 && |data| > 0
    decreases |data|
  {
    if |data| <= k then Spaces(indent) + HexList(data)
    else FullLine(data[..k], indent) + Listing(data[k..], k, indent)
  }

  function Declaration(varname: string, n: nat): string {
    "const uint8_t " + varname + "[" + NatToDecimal(n) + "] = {"
  }

  function LengthDeclaration(varname: string, n: nat): string {
    "const size_t " + varname + "_length = " + NatToDecimal(n) + ";\n"
  }

  /** The array's definition up to its closing brace: the declaration and,
      when there are bytes, a line break and the listing. */
  function ArrayBody(data: seq<Byte>, varname: string, k: nat, indent: nat): string
    requires k >= 1
  {
    if |data| == 0 then Declaration(varname, |data|)
    else Declaration(varname, |data|) + "\n" + Listing(data, k, indent)
  }

  /** The whole generated text: the array definition and the length constant. */
  function ArraySource(data: seq<Byte>, varname: string, k: nat, indent: nat): string
    requires k >= 1
  {
    ArrayBody(data, varname, k, indent) + "\n" + "};\n\n" + LengthDeclaration(varname, |data|)
  }

  predicate IsStripChar(c: char) {
    c == ',' || c == ' ' || c == '\n'
  }

  predicate AllStrip(w: string) {
    forall i :: 0 <= i < |w| ==> IsStripChar(w[i])
  }

  lemma AllStripAppend(u: string, v: string)
    requires AllStrip(u) && AllStrip(v)
    ensures AllStrip(u + v)
  {
    forall i | 0 <= i < |u + v|
      ensures IsStripChar((u + v)[i])
    {
      if i >= |u| {
        assert (u + v)[i] == v[i - |u|];
      }
    }
  }

  /** `s.rstrip(', \n')`. */
  function RStrip(s: string): string
    decreases |s|
  {
    if |s| > 0 && IsStripChar(s[|s| - 1]) then RStrip(s[..|s| - 1]) else s
  }

  /** Stripping keeps a prefix that does not end in a strip character and
      removes only strip characters. */
  lemma {:induction false} RStripRemovesTrailing(s: string)
    ensures var r := RStrip(s);
            |r| <= |s| && r == s[..|r|] &&
            (|r| == 0 || !IsStripChar(r[|r| - 1])) &&
            forall i :: |r| <= i < |s| ==> IsStripChar(s[i])
    decreases |s|
  {
    if |s| > 0 && IsStripChar(s[|s| - 1]) {
      RStripRemovesTrailing(s[..|s| - 1]);
    }
  }

  /** Stripping removes a tail of separators and blanks and nothing before it. */
  lemma {:induction false} RStripTail(a: string, w: string)
    requires |a| > 0 && !IsStripChar(a[|a| - 1])
    requires AllStrip(w)
    ensures RStrip(a + w) == a
    decreases |w|
  {
    if |w| > 0 {
      assert (a + w)[..|a + w| - 1] == a + w[..|w| - 1];
      RStripTail(a, w[..|w| - 1]);
    } else {
      assert a + w == a;
    }
  }

  /** Whether m is a whole number of lines of k bytes. */
  predicate LineBoundary(m: nat, k: nat)
    requires k >= 1
    decreases m
  {
    m == 0 || (m >= k && LineBoundary(m - k, k))
  }

  /** The full lines the loop has flushed once it has consumed m bytes. */
  function FlushedLines(data: seq<Byte>, m: nat, k: nat, indent: nat): string
    requires k >= 1 && LineBoundary(m, k) && m <= |data|
    decreases m
  {
    if m == 0 then ""
    else FlushedLines(data, m - k, k, indent) + FullLine(data[m - k..m], indent)
  }

  lemma TokensSnoc(data: seq<Byte>, lo: nat, i: nat)
    requires lo <= i < |data|
    ensures Tokens(data[lo..i + 1]) == Tokens(data[lo..i]) + Hex(data[i]) + ", "
  {
    var s := data[lo..i + 1];
    assert |s| == i + 1 - lo;
    assert s[..|s| - 1] == data[lo..i];
    assert s[|s| - 1] == data[i];
  }

  lemma ListingLine(data: seq<Byte>, m: nat, k: nat, indent: nat)
    requires k >= 1 && k <= m < |data|
    ensures Listing(data[m - k..], k, indent) ==
            FullLine(data[m - k..m], indent) + Listing(data[m..], k, indent)
  {
    var rest := data[m - k..];
    assert rest[..k] == data[m - k..m];
    assert rest[k..] == data[m..];
  }

  /** Splices `line + tail` in for `rest`; stated on plain strings so that
      ListingSplits does not regroup the listings themselves. */
  lemma ConcatStep(whole: string, front: string, rest: string, line: string, tail: string)
    requires whole == front + rest && rest == line + tail
    ensures whole == (front + line) + tail
  {
  }

  /** The listing is the flushed lines followed by the listing of the rest. */
  lemma {:induction false} ListingSplits(data: seq<Byte>, m: nat, k: nat, indent: nat)
    requires k >= 1 && LineBoundary(m, k) && m < |data|
    ensures Listing(data, k, indent) == FlushedLines(data, m, k, indent) + Listing(data[m..], k, indent)
    decreases m
  {
    if m == 0 {
      assert data[0..] == data;
    } else {
      var front := FlushedLines(data, m - k, k, indent);
      var line := FullLine(data[m - k..m], indent);
      var rest := Listing(data[m - k..], k, indent);
      var tail := Listing(data[m..], k, indent);
      assert Listing(data, k, indent) == front + rest by {
        ListingSplits(data, m - k, k, indent);
      }
      assert rest == line + tail by {
        ListingLine(data, m, k, indent);
      }
      ConcatStep(Listing(data, k, indent), front, rest, line, tail);
    }
  }

  lemma LastOfAppend(u: string, v: string)
    requires |v| > 0
    ensures (u + v)[|u + v| - 1] == v[|v| - 1]
  {
  }

  /** The listing ends in the last digit of the last byte. */
  lemma {:induction false} ListingEndsInHexDigit(data: seq<Byte>, k: nat, indent: nat)
    requires k >= 1 && |data| > 0
    ensures |Listing(data, k, indent)| > 0
    ensures IsLowerHexDigit(Listing(data, k, indent)[|Listing(data, k, indent)| - 1])
    decreases |data|
  {
    if |data| <= k {
      LastOfAppend(Spaces(indent), HexList(data));
    } else {
      ListingEndsInHexDigit(data[k..], k, indent);
      LastOfAppend(FullLine(data[..k], indent), Listing(data[k..], k, indent));
    }
  }

  /** The flushed lines before the last line, followed by the last line as
      the loop renders it, are the listing followed by the last byte's
      separator and a line break. */
  lemma LastLineCloses(data: seq<Byte>, m: nat, k: nat, indent: nat)
    requires k >= 1 && LineBoundary(m, k)
    requires m < |data| && |data| - m <= k
    ensures FlushedLines(data, m, k, indent) + FullLine(data[m..], indent) ==
            Listing(data, k, indent) + ", \n"
  {
    var last := data[m..];
    var flushed := FlushedLines(data, m, k, indent);
    var sp := Spaces(indent);
    var bytes := HexList(last);
    assert Listing(data, k, indent) == flushed + (sp + bytes) by {
      ListingSplits(data, m, k, indent);
    }
    assert FullLine(last, indent) == sp + (bytes + ", ") + "\n";
    assert flushed + (sp + (bytes + ", ") + "\n") == (flushed + (sp + bytes)) + ", \n";
  }

  /** Once every byte is consumed, the flushed lines and the pending line
      (when it holds any bytes) are the listing followed by the last byte's
      separator and a line break. */
  lemma LoopTextIsListing(data: seq<Byte>, lineStart: nat, k: nat, indent: nat)
    requires k >= 1 && LineBoundary(lineStart, k)
    requires 0 < |data| && lineStart <= |data| && |data| - lineStart < k
    ensures FlushedLines(data, lineStart, k, indent) +
            (if lineStart < |data| then FullLine(data[lineStart..], indent) else "") ==
            Listing(data, k, indent) + ", \n"
  {
    if lineStart < |data| {
      LastLineCloses(data, lineStart, k, indent);
    } else {
      LastLineFlushed(data, lineStart, k, indent);
    }
  }

  /** When the last line was flushed by the loop, the flushed lines alone are
      the listing followed by the separator and a line break. */
  lemma LastLineFlushed(data: seq<Byte>, lineStart: nat, k: nat, indent: nat)
    requires k >= 1 && LineBoundary(lineStart, k)
    requires 0 < |data| && lineStart == |data|
    ensures FlushedLines(data, lineStart, k, indent) + "" == Listing(data, k, indent) + ", \n"
  {
    var m := lineStart - k;
    assert data[m..lineStart] == data[m..];
    LastLineCloses(data, m, k, indent);
    assert FlushedLines(data, lineStart, k, indent) + "" == FlushedLines(data, lineStart, k, indent);
  }

  /** Regrouping of three plain strings, kept out of the loop lemmas' contexts. */
  lemma Assoc(a: string, b: string, c: string)
    ensures a + (b + c) == (a + b) + c
  {
  }

  /** Moves the listing's closing `", \n"` out of the pending line: kept
      separate from FinalStrip so that the regrouping is done on plain
      strings rather than on the loop's concrete text. */
  lemma RegroupText(head: string, a: string, b: string, listing: string, extra: string)
    requires a + b == listing + ", \n"
    ensures head + a + b + extra == (head + listing) + (", \n" + extra)
  {
    assert head + a + b == head + (a + b);
  }

  /** What the loop leaves once every byte is consumed (`lineStart` bytes in
      flushed lines, the rest in the pending line), followed by any blanks,
      strips down to the listing. */
  lemma FinalStrip(data: seq<Byte>, decl: string, text: string, lineStart: nat, k: nat, indent: nat,
                   extra: string)
    requires k >= 1 && LineBoundary(lineStart, k)
    requires 0 < |data| && lineStart <= |data| && |data| - lineStart < k
    requires AllStrip(extra)
    requires text == decl + "\n" + FlushedLines(data, lineStart, k, indent) +
                     (if lineStart < |data| then FullLine(data[lineStart..], indent) else "") + extra
    ensures RStrip(text) == decl + "\n" + Listing(data, k, indent)
  {
    var listing := Listing(data, k, indent);
    var pending := if lineStart < |data| then FullLine(data[lineStart..], indent) else "";
    assert text == decl + "\n" + listing + (", \n" + extra) by {
      LoopTextIsListing(data, lineStart, k, indent);
      RegroupText(decl + "\n", FlushedLines(data, lineStart, k, indent), pending, listing, extra);
    }
    ListingEndsInHexDigit(data, k, indent);
    StripAfterListing(text, decl, listing, extra);
  }

  /** Text that ends in a hex digit followed by ", \n" and blanks strips back
      to the hex digit. */
  lemma StripAfterListing(text: string, decl: string, listing: string, extra: string)
    requires |listing| > 0 && IsLowerHexDigit(listing[|listing| - 1])
    requires AllStrip(extra)
    requires text == decl + "\n" + listing + (", \n" + extra)
    ensures RStrip(text) == decl + "\n" + listing
  {
    var a := decl + "\n" + listing;
    LastOfAppend(decl + "\n", listing);
    AllStripAppend(", \n", extra);
    RStripTail(a, ", \n" + extra);
  }

  /** The loop flushes its pending line exactly when it holds k bytes. */
  lemma FlushesAtLineTokens(size: int, indent: nat, j: nat)
    requires 1 <= j <= LineTokens(size, indent)
    ensures !RoomForMore(j, indent, size) <==> j == LineTokens(size, indent)
  {
  }

  lemma FlushedStep(data: seq<Byte>, m: nat, k: nat, indent: nat)
    requires k >= 1 && LineBoundary(m, k) && m + k <= |data|
    ensures LineBoundary(m + k, k)
    ensures FlushedLines(data, m + k, k, indent) ==
            FlushedLines(data, m, k, indent) + FullLine(data[m..m + k], indent)
  {
  }

  /** The loop's state after consuming i bytes: the flushed lines cover the
      bytes before the boundary `lineStart`, and the pending line holds the
      rendered bytes from there up to i, fewer than a full line. */
  predicate Rendered(data: seq<Byte>, head: string, size: int, indent: nat,
                     text: string, line: string, lineStart: nat, i: nat)
  {
    var k := LineTokens(size, indent);
    lineStart <= i <= |data| && LineBoundary(lineStart, k) && i - lineStart < k &&
    text == head + FlushedLines(data, lineStart, k, indent) &&
    line == Tokens(data[lineStart..i])
  }

  /** One iteration of the loop that fills the pending line: it is flushed,
      and the loop's state is again `Rendered` at the next boundary. */
  lemma LoopFlushes(data: seq<Byte>, head: string, size: int, indent: nat,
                    text: string, prev: string, line: string, lineStart: nat, i: nat)
    requires Rendered(data, head, size, indent, text, prev, lineStart, i)
    requires i < |data| && line == prev + Hex(data[i]) + ", "
    requires |line| + indent + ByteLen >= size
    ensures Rendered(data, head, size, indent, text + (Spaces(indent) + line + "\n"), "", i + 1, i + 1)
  {
    var k := LineTokens(size, indent);
    assert i + 1 == lineStart + k by {
      assert !RoomForMore(i + 1 - lineStart, indent, size);
      FlushesAtLineTokens(size, indent, i + 1 - lineStart);
    }
    FlushFullLine(data, head, k, indent, text, prev, line, lineStart, i);
    RenderedAtBoundary(data, head, size, indent, text + (Spaces(indent) + line + "\n"), i + 1);
  }

  /** The byte that fills the pending line completes it: the line is the
      tokens of the k bytes since the last boundary, and flushing it moves
      the boundary past them. */
  lemma FlushFullLine(data: seq<Byte>, head: string, k: nat, indent: nat,
                      text: string, prev: string, line: string, lineStart: nat, i: nat)
    requires k >= 1 && LineBoundary(lineStart, k) && lineStart <= i < |data| && i + 1 == lineStart + k
    requires text == head + FlushedLines(data, lineStart, k, indent)
    requires prev == Tokens(data[lineStart..i]) && line == prev + Hex(data[i]) + ", "
    ensures LineBoundary(i + 1, k)
    ensures text + (Spaces(indent) + line + "\n") == head + FlushedLines(data, i + 1, k, indent)
  {
    TokensSnoc(data, lineStart, i);
    Flush(data, head, text, line, lineStart, k, indent);
  }

  /** At a line boundary with nothing pending, the flushed lines alone make
      up the loop's state. */
  lemma RenderedAtBoundary(data: seq<Byte>, head: string, size: int, indent: nat, text: string, m: nat)
    requires m <= |data| && LineBoundary(m, LineTokens(size, indent))
    requires text == head + FlushedLines(data, m, LineTokens(size, indent), indent)
    ensures Rendered(data, head, size, indent, text, "", m, m)
  {
    assert data[m..m] == [];
  }

  /** One iteration of the loop that leaves room in the pending line: the
      byte stays pending, and the loop's state is again `Rendered`. */
  lemma LoopKeeps(data: seq<Byte>, head: string, size: int, indent: nat,
                  text: string, prev: string, line: string, lineStart: nat, i: nat)
    requires Rendered(data, head, size, indent, text, prev, lineStart, i)
    requires i < |data| && line == prev + Hex(data[i]) + ", "
    requires |line| + indent + ByteLen < size
    ensures Rendered(data, head, size, indent, text, line, lineStart, i + 1)
  {
    assert line == Tokens(data[lineStart..i + 1]) by {
      TokensSnoc(data, lineStart, i);
    }
    FlushesAtLineTokens(size, indent, i + 1 - lineStart);
  }

  /** Flushing a full pending line moves the boundary by one line. */
  lemma Flush(data: seq<Byte>, head: string, text: string, line: string, m: nat, k: nat, indent: nat)
    requires k >= 1 && LineBoundary(m, k) && m + k <= |data|
    requires text == head + FlushedLines(data, m, k, indent)
    requires line == Tokens(data[m..m + k])
    ensures LineBoundary(m + k, k)
    ensures text + (Spaces(indent) + line + "\n") == head + FlushedLines(data, m + k, k, indent)
  {
    var f := FlushedLines(data, m, k, indent);
    FlushedStep(data, m, k, indent);
    Assoc(head, f, Spaces(indent) + line + "\n");
  }

  /** The loop of `bin2c` over the bytes: full lines are appended to the
      text as they fill, and the bytes after the last full line are left in
      the pending line. */
  method RenderLines(data: seq<Byte>, head: string, size: int, indent: nat)
    returns (text: string, line: string, lineStart: nat)
    ensures LineBoundary(lineStart, LineTokens(size, indent))
    ensures lineStart <= |data| && |data| - lineStart < LineTokens(size, indent)
    ensures text == head + FlushedLines(data, lineStart, LineTokens(size, indent), indent)
    ensures line == Tokens(data[lineStart..])
  {
    text := head;
    line := "";
    lineStart := 0;
    var i := 0;
    assert data[0..0] == [];
    while i < |data|
      invariant i <= |data|
      invariant Rendered(data, head, size, indent, text, line, lineStart, i)
    {
      ghost var prev := line;
      line := line + Hex(data[i]) + ", ";
      if |line| + indent + ByteLen >= size {
        LoopFlushes(data, head, size, indent, text, prev, line, lineStart, i);
        text := text + (Spaces(indent) + line + "\n");
        line := "";
        lineStart := i + 1;
      } else {
        LoopKeeps(data, head, size, indent, text, prev, line, lineStart, i);
      }
      i := i + 1;
    }
    assert data[lineStart..i] == data[lineStart..];
  }

  /** After the loop: the pending line is appended when it leaves room for
      one more byte (always, when it holds any), and stripping the trailing
      separators leaves the declaration and the listing. */
  lemma CloseListing(data: seq<Byte>, varname: string, text: string, line: string, lineStart: nat,
                     size: int, indent: nat)
    requires LineBoundary(lineStart, LineTokens(size, indent))
    requires lineStart <= |data| && |data| - lineStart < LineTokens(size, indent)
    requires text == Declaration(varname, |data|) + "\n" +
                     FlushedLines(data, lineStart, LineTokens(size, indent), indent)
    requires line == Tokens(data[lineStart..])
    ensures RStrip(if |line| + indent + ByteLen < size then text + (Spaces(indent) + line + "\n") else text) ==
            ArrayBody(data, varname, LineTokens(size, indent), indent)
  {
    if |data| == 0 {
      CloseEmpty(data, varname, text, line, lineStart, size, indent);
    } else {
      CloseNonEmpty(data, varname, text, line, lineStart, size, indent);
    }
  }

  /** No bytes: the text is the declaration, a line break and possibly a
      blank line, which strip down to the declaration. */
  lemma CloseEmpty(data: seq<Byte>, varname: string, text: string, line: string, lineStart: nat,
                   size: int, indent: nat)
    requires |data| == 0 && lineStart == 0
    requires text == Declaration(varname, |data|) + "\n" +
                     FlushedLines(data, lineStart, LineTokens(size, indent), indent)
    requires line == Tokens(data[lineStart..])
    ensures RStrip(if |line| + indent + ByteLen < size then text + (Spaces(indent) + line + "\n") else text) ==
            Declaration(varname, |data|)
  {
    var decl := Declaration(varname, |data|);
    var extra := if |line| + indent + ByteLen < size then Spaces(indent) + "\n" else "";
    assert AllStrip("\n" + extra) by {
      SpacesAreBlank(indent);
      AllStripAppend("\n", extra);
    }
    var closed := if |line| + indent + ByteLen < size then text + (Spaces(indent) + line + "\n") else text;
    assert closed == text + extra by {
      assert line == "";
      assert Spaces(indent) + line == Spaces(indent);
    }
    assert text + extra == decl + ("\n" + extra) by {
      assert FlushedLines(data, lineStart, LineTokens(size, indent), indent) == "";
      assert decl + "\n" + "" + "" + extra == decl + ("\n" + extra);
    }
    RStripTail(decl, "\n" + extra);
  }

  /** Some bytes: the flushed lines, the pending line and any blank line
      strip down to the declaration and the listing. */
  lemma CloseNonEmpty(data: seq<Byte>, varname: string, text: string, line: string, lineStart: nat,
                      size: int, indent: nat)
    requires |data| > 0
    requires LineBoundary(lineStart, LineTokens(size, indent))
    requires lineStart <= |data| && |data| - lineStart < LineTokens(size, indent)
    requires text == Declaration(varname, |data|) + "\n" +
                     FlushedLines(data, lineStart, LineTokens(size, indent), indent)
    requires line == Tokens(data[lineStart..])
    ensures RStrip(if |line| + indent + ByteLen < size then text + (Spaces(indent) + line + "\n") else text) ==
            Declaration(varname, |data|) + "\n" + Listing(data, LineTokens(size, indent), indent)
  {
    var k := LineTokens(size, indent);
    var decl := Declaration(varname, |data|);
    var appends := |line| + indent + ByteLen < size;
    var flushed := FlushedLines(data, lineStart, k, indent);
    if lineStart < |data| {
      assert appends by {
        FlushesAtLineTokens(size, indent, |data| - lineStart);
      }
      var pending := FullLine(data[lineStart..], indent);
      assert text + (Spaces(indent) + line + "\n") == decl + "\n" + flushed + pending + "" by {
        assert Spaces(indent) + line + "\n" == pending;
        assert decl + "\n" + flushed + pending + "" == decl + "\n" + flushed + pending;
      }
      FinalStrip(data, decl, text + (Spaces(indent) + line + "\n"), lineStart, k, indent, "");
    } else {
      var extra := if appends then Spaces(indent) + "\n" else "";
      assert AllStrip(extra) by {
        SpacesAreBlank(indent);
      }
      assert line == "" by {
        assert data[lineStart..] == [];
      }
      assert (if appends then text + (Spaces(indent) + line + "\n") else text) == text + extra by {
        assert Spaces(indent) + line == Spaces(indent);
      }
      assert text + extra == decl + "\n" + flushed + "" + extra by {
        assert decl + "\n" + flushed + "" == decl + "\n" + flushed;
      }
      FinalStrip(data, decl, text + extra, lineStart, k, indent, extra);
    }
  }

  /** `bin2c(filename, varname, linesize, indent)` with the file's bytes given
      (`None` when the path is not a regular file). */
  method Bin2C(file: Option<seq<Byte>>, varname: string, linesize: int, indent: nat)
    returns (out: Option<string>)
    ensures file.None? ==> out == Some("")
    ensures file.Some? && IdentMatch(varname).None? ==> out == None
    ensures file.Some? && IdentMatch(varname).Some? ==>
              out == Some(ArraySource(file.value, varname,
                                      LineTokens(if linesize < MinLineSize then MinLineSize else linesize, indent),
                                      indent))
  {
    if file.None? {
      return Some("");
    }
    if IdentMatch(varname).None? {
      return None;
    }
    var data := file.value;
    var size := linesize;
    if size < MinLineSize {
      size := MinLineSize;
    }
    var text, line, lineStart := RenderLines(data, Declaration(varname, |data|) + "\n", size, indent);
    CloseListing(data, varname, text, line, lineStart, size, indent);
    if |line| + indent + ByteLen < size {
      text := text + (Spaces(indent) + line + "\n");
    }
    text := RStrip(text) + "\n";
    text := text + "};\n\n";
    text := text + LengthDeclaration(varname, |data|);
    return Some(text);
  }

  /** A reader of the initializer: every "0x" followed by two lower-case hex
      digits is one byte; any other character is skipped. */
  function ParseHexBytes(s: string): seq<Byte>
    decreases |s|
  {
    if |s| == 0 then []
    else if StartsWithHexByte(s) then [HexByteValue(s)] + ParseHexBytes(s[4..])
    else ParseHexBytes(s[1..])
  }

  lemma {:induction false} ParseSkips(w: string, x: string)
    requires forall i :: 0 <= i < |w| ==> w[i] != '0'
    ensures ParseHexBytes(w + x) == ParseHexBytes(x)
    decreases |w|
  {
    if |w| > 0 {
      assert (w + x)[1..] == w[1..] + x;
      ParseSkips(w[1..], x);
    } else {
      assert w + x == x;
    }
  }

  lemma ParseHex(b: Byte, x: string)
    ensures ParseHexBytes(Hex(b) + x) == [b] + ParseHexBytes(x)
  {
    var h := Hex(b);
    var s := h + x;
    assert s[..4] == h;
    assert StartsWithHexByte(s) && HexByteValue(s) == b by {
      assert s[0] == h[0] && s[1] == h[1] && s[2] == h[2] && s[3] == h[3];
    }
    assert s[4..] == x;
  }

  lemma SnocAppend(t: string, h: string, x: string)
    ensures t + h + ", " + x == t + (h + (", " + x))
  {
  }

  lemma {:induction false} ParseTokens(bs: seq<Byte>, x: string)
    ensures ParseHexBytes(Tokens(bs) + x) == bs + ParseHexBytes(x)
    decreases |bs|
  {
    if |bs| > 0 {
      var n := |bs|;
      var front := bs[..n - 1];
      var h := Hex(bs[n - 1]);
      var rest := h + (", " + x);
      assert Tokens(bs) + x == Tokens(front) + rest by {
        SnocAppend(Tokens(front), h, x);
      }
      assert ParseHexBytes(rest) == [bs[n - 1]] + ParseHexBytes(x) by {
        ParseHex(bs[n - 1], ", " + x);
        ParseSkips(", ", x);
      }
      calc {
        ParseHexBytes(Tokens(bs) + x);
        ParseHexBytes(Tokens(front) + rest);
        { ParseTokens(front, rest); }
        front + ParseHexBytes(rest);
        front + ([bs[n - 1]] + ParseHexBytes(x));
        { assert bs == front + [bs[n - 1]]; }
        bs + ParseHexBytes(x);
      }
    } else {
      assert Tokens(bs) + x == x;
    }
  }

  lemma ParseHexList(bs: seq<Byte>)
    requires |bs| > 0
    ensures ParseHexBytes(HexList(bs)) == bs
  {
    var n := |bs|;
    var h := Hex(bs[n - 1]);
    assert HexList(bs) == Tokens(bs[..n - 1]) + (h + "");
    ParseTokens(bs[..n - 1], h + "");
    ParseHex(bs[n - 1], "");
    assert ParseHexBytes("") == [];
    assert bs == bs[..n - 1] + [bs[n - 1]];
  }

  /** An indented full line followed by more text reads back as its bytes
      followed by whatever the rest reads as. */
  lemma ParseLine(indent: nat, bs: seq<Byte>, rest: string)
    ensures ParseHexBytes(Spaces(indent) + (Tokens(bs) + ("\n" + rest))) == bs + ParseHexBytes(rest)
  {
    SpacesAreBlank(indent);
    ParseSkips(Spaces(indent), Tokens(bs) + ("\n" + rest));
    ParseTokens(bs, "\n" + rest);
    ParseSkips("\n", rest);
  }

  /** The indented last line reads back as its bytes. */
  lemma ParseLastLine(indent: nat, bs: seq<Byte>)
    requires |bs| > 0
    ensures ParseHexBytes(Spaces(indent) + HexList(bs)) == bs
  {
    SpacesAreBlank(indent);
    ParseSkips(Spaces(indent), HexList(bs));
    ParseHexList(bs);
  }

  lemma ListingLong(data: seq<Byte>, k: nat, indent: nat)
    requires k >= 1 && |data| > k
    ensures Listing(data, k, indent) ==
            Spaces(indent) + (Tokens(data[..k]) + ("\n" + Listing(data[k..], k, indent)))
  {
  }

  /** Reading the initializer back yields the original bytes, whatever the
      line length and indent. */
  lemma {:induction false} ListingRoundTrip(data: seq<Byte>, k: nat, indent: nat)
    requires k >= 1 && |data| > 0
    ensures ParseHexBytes(Listing(data, k, indent)) == data
    decreases |data|
  {
    if |data| <= k {
      ParseLastLine(indent, data);
    } else {
      var rest := Listing(data[k..], k, indent);
      calc {
        ParseHexBytes(Listing(data, k, indent));
        { ListingLong(data, k, indent); }
        ParseHexBytes(Spaces(indent) + (Tokens(data[..k]) + ("\n" + rest)));
        { ParseLine(indent, data[..k], rest); }
        data[..k] + ParseHexBytes(rest);
        { ListingRoundTrip(data[k..], k, indent); }
        data[..k] + data[k..];
        { assert data[..k] + data[k..] == data; }
        data;
      }
    }
  }

  /** With the default line size 80 and indent 4, a line holds 12 bytes. */
  lemma DefaultLineHoldsTwelve()
    ensures LineTokens(80, 4) == 12
  {
  }

  /** The tokens of the sample bytes, evaluated once. */
  lemma HexSamples()
    ensures Hex(1) == "0x01" && Hex(2) == "0x02" && Hex(3) == "0x03"
  {
  }

  /** Two bytes' tokens, each followed by its separator. */
  lemma TokensPair(a: Byte, b: Byte)
    ensures Tokens([a, b]) == Hex(a) + ", " + Hex(b) + ", "
  {
    assert [a, b][..1] == [a] && [a][..0] == [];
  }

  /** A full line keeps its trailing ", " before the line break; only the
      separator after the very last byte is stripped. */
  lemma FullLineKeepsSeparator()
    ensures Listing([1, 2, 3], 2, 0) == "0x01, 0x02, \n0x03"
  {
    var data: seq<Byte> := [1, 2, 3];
    assert FullLine([1, 2], 0) == "0x01, 0x02, \n" by {
      HexSamples();
      TokensPair(1, 2);
    }
    assert Listing([3], 2, 0) == "0x03" by {
      HexSamples();
      assert [3][..0] == [];
    }
    assert Listing(data, 2, 0) == FullLine([1, 2], 0) + Listing([3], 2, 0) by {
      assert data[..2] == [1, 2] && data[2..] == [3];
    }
  }
}
