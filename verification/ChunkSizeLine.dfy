/** The size line of one chunk: parsing it and printing it. */
module ChunkSizeLine {
  import opened Bytes

  predicate IsBlank(b: Byte) {
    b == SP || b == TAB
  }

  predicate IsHexDigit(b: Byte) {
    48 <= b <= 57 || 65 <= b <= 70 || 97 <= b <= 102
  }

  function DigitValue(b: Byte): nat
    requires IsHexDigit(b)
  {
    if b <= 57 then b - 48 else if b <= 70 then b - 55 else b - 87
  }

  predicate AllHex(s: seq<Byte>) {
    forall b :: b in s ==> IsHexDigit(b)
  }

  predicate AllBlank(s: seq<Byte>) {
    forall b :: b in s ==> IsBlank(b)
  }

  function HexValue(s: seq<Byte>): nat
    requires AllHex(s)
  {
    if s == [] then 0 else 16 * HexValue(s[..|s| - 1]) + DigitValue(s[|s| - 1])
  }

  /** Length of `s` without its trailing blanks. */
  function TrimmedLength(s: seq<Byte>): (n: nat)
    ensures n <= |s| && AllBlank(s[n..])
    ensures n > 0 ==> !IsBlank(s[n - 1])
  {
    if s == [] || !IsBlank(s[|s| - 1]) then |s|
    else
      var n := TrimmedLength(s[..|s| - 1]);
      assert s[n..] == s[..|s| - 1][n..] + [s[|s| - 1]];
      n
  }

  /** `parse_chunk_size_line`; `None` is `ChunkedError::BadChunkSize`. */
  function Parse(line: seq<Byte>): (r: Option<nat>)
    ensures r.Some? ==> r.value <= USIZE_MAX
  {
    if line == [] || IsBlank(line[0]) then None
    else
      var sizePart := line[..IndexOf(line, SEMICOLON)];
      var end := TrimmedLength(sizePart);
      var trimmed := if end == 0 then sizePart else sizePart[..end];
      if trimmed == [] || !AllHex(trimmed) || HexValue(trimmed) > USIZE_MAX then None
      else Some(HexValue(trimmed))
  }

  /**
    The size lines accepted here: hex digits, blanks, and anything at all behind a semicolon.
    RFC 9112 section 7.1 is stricter about the extension and has no trailing blanks without one.
   */
  ghost predicate SizeLine(line: seq<Byte>, digits: seq<Byte>, blanks: seq<Byte>, ext: seq<Byte>) {
    && line == digits + blanks + ext
    && digits != [] && AllHex(digits)
    && AllBlank(blanks)
    && (ext == [] || ext[0] == SEMICOLON)
  }

  lemma {:induction false} TrimmedLengthOf(text: seq<Byte>, blanks: seq<Byte>)
    requires text != [] && !IsBlank(text[|text| - 1]) && AllBlank(blanks)
    ensures TrimmedLength(text + blanks) == |text|
  {
    if blanks == [] {
      assert text + blanks == text;
    } else {
      var last := |blanks| - 1;
      assert blanks[last] in blanks;
      assert (text + blanks)[..|text + blanks| - 1] == text + blanks[..last];
      TrimmedLengthOf(text, blanks[..last]);
    }
  }

  /** The parser accepts every line of the grammar whose size fits a machine word. */
  lemma {:induction false} ParseAccepts(line: seq<Byte>, digits: seq<Byte>, blanks: seq<Byte>, ext: seq<Byte>)
    requires SizeLine(line, digits, blanks, ext)
    ensures Parse(line) == if HexValue(digits) <= USIZE_MAX then Some(HexValue(digits)) else None
  {
    assert line[0] == digits[0] && IsHexDigit(digits[0]);
    assert digits[|digits| - 1] in digits;
    var head := digits + blanks;
    assert SEMICOLON !in head;
    assert line[..|head|] == head;
    IndexOfIs(line, SEMICOLON, |head|);
    TrimmedLengthOf(digits, blanks);
    var end := TrimmedLength(head);
    assert head[..end] == digits;
  }

  /** Whatever the parser accepts is a line of the grammar, and the size is its value. */
  lemma {:induction false} ParseIsSound(line: seq<Byte>) returns (digits: seq<Byte>, blanks: seq<Byte>, ext: seq<Byte>)
    requires Parse(line).Some?
    ensures SizeLine(line, digits, blanks, ext) && Parse(line) == Some(HexValue(digits))
  {
    var i := IndexOf(line, SEMICOLON);
    var end := TrimmedLength(line[..i]);
    assert line[..i] != [] ==> line[..i][0] in line[..i][0..];
    digits, blanks, ext := line[..i][..end], line[..i][end..], line[i..];
    assert line == line[..i] + line[i..];
  }

  /** `{n:x}`: lowercase hexadecimal without leading zeros. */
  function HexDigit(v: nat): (b: Byte)
    requires v < 16
    ensures IsHexDigit(b) && DigitValue(b) == v
  {
    if v < 10 then 48 + v else 87 + v
  }

  function Hex(n: nat): (s: seq<Byte>)
    ensures s != [] && AllHex(s)
  {
    if n < 16 then [HexDigit(n)] else Hex(n / 16) + [HexDigit(n % 16)]
  }

  /** The bytes of a size line: digits of either case with their values, blanks, the semicolon. */
  lemma {:induction false} DigitsAre(b: Byte)
    ensures (IsBlank(b) <==> b == 32 || b == 9) && SEMICOLON == 59
    ensures IsHexDigit(b) <==> 48 <= b < 58 || 65 <= b < 71 || 97 <= b < 103
    ensures 48 <= b < 58 ==> DigitValue(b) == b - 48
    ensures 65 <= b < 71 ==> DigitValue(b) == 10 + (b - 65)
    ensures 97 <= b < 103 ==> DigitValue(b) == 10 + (b - 97)
  {
  }

  /** A printed size has lowercase digits only, and no leading zero unless it is zero. */
  lemma {:induction false} HexIsCanonical(n: nat)
    ensures forall b :: b in Hex(n) ==> 48 <= b <= 57 || 97 <= b <= 102
    ensures Hex(n)[0] == 48 <==> n == 0
    ensures n == 0 ==> Hex(n) == [48]
    decreases n
  {
    if n >= 16 {
      HexIsCanonical(n / 16);
    }
  }

  /** Printing then parsing a size gives the size back, with any extension after it. */
  lemma {:induction false} HexRoundTrip(n: nat, ext: seq<Byte>)
    requires n <= USIZE_MAX
    requires ext == [] || ext[0] == SEMICOLON
    ensures Parse(Hex(n) + ext) == Some(n)
  {
    HexValueOfHex(n);
    assert Hex(n) + ext == Hex(n) + [] + ext;
    ParseAccepts(Hex(n) + ext, Hex(n), [], ext);
  }

  /** A printed size is read back exactly up to the largest 64-bit word. */
  lemma {:induction false} WordIsTheLimit(n: nat)
    ensures Parse(Hex(n)) == if n <= 18446744073709551615 then Some(n) else None
  {
    HexValueOfHex(n);
    assert Hex(n) == Hex(n) + [] + [];
    ParseAccepts(Hex(n), Hex(n), [], []);
  }

  lemma {:induction false} HexValueOfHex(n: nat)
    ensures HexValue(Hex(n)) == n
  {
    if n >= 16 {
      HexValueOfHex(n / 16);
      assert Hex(n)[..|Hex(n)| - 1] == Hex(n / 16);
    } else {
      assert Hex(n)[..0] == [];
    }
  }

  function Pow16(k: nat): (p: nat)
    ensures p > 0
  {
    if k == 0 then 1 else 16 * Pow16(k - 1)
  }

  /** A printed size is never longer than its magnitude needs. */
  lemma {:induction false} HexLength(n: nat, k: nat)
    requires k > 0 && n < Pow16(k)
    ensures |Hex(n)| <= k
  {
    if n >= 16 {
      assert Pow16(1) == 16 * Pow16(0);
      HexLength(n / 16, k - 1);
    }
  }

  /** A printed machine word has at most sixteen digits. */
  lemma {:induction false} WordHexLength(n: nat)
    requires n <= USIZE_MAX
    ensures |Hex(n)| <= 16
  {
    assert Pow16(4) == 0x1_0000;
    assert Pow16(8) == 0x1_0000_0000;
    assert Pow16(12) == 0x1_0000_0000_0000;
    assert Pow16(16) == 0x1_0000_0000_0000_0000;
    HexLength(n, 16);
  }
}
