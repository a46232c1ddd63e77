/** Layered decoding of request text: percent-encoding (section 2.1 of RFC 3986, with the form's plus for a space)
    and backslash escapes. Text is bytes, as in Go. */
module Decoding {
  import opened Prelude

  type Byte = i: int | 0 <= i < 256

  type Text = seq<Byte>

  const PERCENT: Byte := 37
  const PLUS: Byte := 43
  const SPACE: Byte := 32
  const MINUS: Byte := 45
  const BACKSLASH: Byte := 92
  const LOWER_U: Byte := 117
  const UPPER_U: Byte := 85
  const LOWER_X: Byte := 120
  const UPPER_X: Byte := 88

  // ----- hexadecimal

  /** The value of a hexadecimal digit in either case. */
  function HexValue(b: Byte): (v: Option<int>)
    ensures v.Some? ==> 0 <= v.value < 16
  {
    if 48 <= b <= 57 then Some(b - 48)
    else if 97 <= b <= 102 then Some(b - 87)
    else if 65 <= b <= 70 then Some(b - 55)
    else None
  }

  function HexDigit(v: int): (b: Byte)
    requires 0 <= v < 16
    ensures HexValue(b) == Some(v)
  {
    if v < 10 then 48 + v else 87 + v
  }

  function HexPair(high: Byte, low: Byte): (v: Option<Byte>) {
    var h, l := HexValue(high), HexValue(low);
    if h.Some? && l.Some? then Some(16 * h.value + l.value) else None
  }

  // ----- percent-encoding

  /** url.QueryUnescape: a percent sign not followed by two digits is an error. */
  function QueryUnescape(s: Text): Option<Text> {
    if s == [] then Some([])
    else if s[0] == PERCENT then
      if |s| < 3 || HexPair(s[1], s[2]).None? then None
      else
        match QueryUnescape(s[3..])
        case None => None
        case Some(rest) => Some([HexPair(s[1], s[2]).value] + rest)
    else
      match QueryUnescape(s[1..])
      case None => None
      case Some(rest) => Some([if s[0] == PLUS then SPACE else s[0]] + rest)
  }

  /** Nothing to decode. */
  predicate Plain(s: Text) {
    PERCENT !in s && PLUS !in s
  }

  function MultiPass(s: Text, passes: int): Text
    decreases passes
  {
    if passes <= 0 || Plain(s) then s
    else
      match QueryUnescape(s)
      case None => s
      case Some(decoded) => if decoded == s then s else MultiPass(decoded, passes - 1)
  }

  method MultiPassURLDecode(s: Text, maxPasses: int) returns (curr: Text)
    ensures curr == MultiPass(s, maxPasses)
  {
    curr := s;
    var i := 0;
    while i < maxPasses
      invariant MultiPass(curr, maxPasses - i) == MultiPass(s, maxPasses)
      invariant i <= Max(maxPasses, 0)
    {
      if PERCENT !in curr && PLUS !in curr {
        break;
      }
      var decoded := QueryUnescape(curr);
      if decoded.None? || decoded.value == curr {
        break;
      }
      curr := decoded.value;
      i := i + 1;
    }
  }

  /** e spells s: each byte as itself, unless it is a percent or plus sign, or as a percent escape in either case, and
      a space also as a plus. */
  predicate Encodes(e: Text, s: Text) {
    if s == [] then e == []
    else
      && e != []
      && (|| (e[0] == s[0] && e[0] != PERCENT && e[0] != PLUS && Encodes(e[1..], s[1..]))
          || (e[0] == PLUS && s[0] == SPACE && Encodes(e[1..], s[1..]))
          || (|e| >= 3 && e[0] == PERCENT && HexPair(e[1], e[2]) == Some(s[0]) && Encodes(e[3..], s[1..])))
  }

  /** One pass undoes one encoding, and decodes nothing else. */
  lemma {:induction false} UnescapeIffEncodes(e: Text, s: Text)
    ensures QueryUnescape(e) == Some(s) <==> Encodes(e, s)
    decreases |e|
  {
    if e == [] || s == [] {
      EmptyOnlyFromEmpty(e);
    } else if e[0] == PERCENT {
      if |e| >= 3 {
        UnescapeIffEncodes(e[3..], s[1..]);
        assert s == [s[0]] + s[1..];
      }
    } else {
      UnescapeIffEncodes(e[1..], s[1..]);
      assert s == [s[0]] + s[1..];
    }
  }

  lemma EmptyOnlyFromEmpty(e: Text)
    ensures QueryUnescape(e) == Some([]) <==> e == []
  {
  }

  lemma {:induction false} UnescapeShortens(e: Text)
    ensures QueryUnescape(e).Some? ==> |QueryUnescape(e).value| <= |e|
    ensures QueryUnescape(e).Some? && PERCENT in e ==> |QueryUnescape(e).value| < |e|
    ensures Plain(e) ==> QueryUnescape(e) == Some(e)
    decreases |e|
  {
    if e != [] {
      if e[0] == PERCENT {
        if |e| >= 3 {
          UnescapeShortens(e[3..]);
        }
      } else {
        UnescapeShortens(e[1..]);
        assert e == [e[0]] + e[1..];
      }
    }
  }

  lemma {:induction false} PlusIsRewritten(e: Text)
    requires QueryUnescape(e) == Some(e)
    ensures Plain(e)
    decreases |e|
  {
    UnescapeShortens(e);
    if e != [] && PERCENT !in e {
      var rest := e[1..];
      assert e[0] != PERCENT;
      assert QueryUnescape(rest).Some? && e == [if e[0] == PLUS then SPACE else e[0]] + QueryUnescape(rest).value;
      assert rest == QueryUnescape(rest).value;
      PlusIsRewritten(rest);
      assert e == [e[0]] + rest;
    }
  }

  /** Each text spells the one before it. */
  predicate Layers(chain: seq<Text>) {
    forall i | 0 <= i < |chain| - 1 :: Encodes(chain[i + 1], chain[i])
  }

  lemma {:induction false} PlainLayers(chain: seq<Text>)
    requires |chain| > 0 && Layers(chain) && Plain(chain[|chain| - 1])
    ensures chain[0] == chain[|chain| - 1]
  {
    var n := |chain| - 1;
    if n > 0 {
      UnescapeIffEncodes(chain[n], chain[n - 1]);
      UnescapeShortens(chain[n]);
      PlainLayers(chain[..n]);
    }
  }

  /** As many passes as there are layers, or more, give back the plain text, however each layer was encoded. */
  lemma {:induction false} LayersDecode(chain: seq<Text>, passes: int)
    requires |chain| > 0 && Layers(chain) && Plain(chain[0]) && |chain| - 1 <= passes
    ensures MultiPass(chain[|chain| - 1], passes) == chain[0]
    decreases |chain|
  {
    var n := |chain| - 1;
    if Plain(chain[n]) {
      PlainLayers(chain);
    } else if n > 0 {
      UnescapeIffEncodes(chain[n], chain[n - 1]);
      if chain[n - 1] == chain[n] {
        PlusIsRewritten(chain[n]);
      } else {
        LayersDecode(chain[..n], passes - 1);
      }
    }
  }

  /** Every byte as an escape. */
  function Encode(s: Text): (e: Text)
    ensures |e| == 3 * |s|
  {
    if s == [] then [] else [PERCENT, HexDigit(s[0] / 16), HexDigit(s[0] % 16)] + Encode(s[1..])
  }

  function EncodeTimes(s: Text, k: nat): Text {
    if k == 0 then s else Encode(EncodeTimes(s, k - 1))
  }

  lemma DigitsOfByte(b: Byte)
    ensures 0 <= b / 16 < 16 && HexPair(HexDigit(b / 16), HexDigit(b % 16)) == Some(b)
  {
  }

  lemma {:induction false} EncodeEncodes(s: Text)
    ensures Encodes(Encode(s), s)
    ensures s != [] ==> PERCENT in Encode(s)
  {
    if s != [] {
      DigitsOfByte(s[0]);
      EncodeEncodes(s[1..]);
      assert Encode(s)[3..] == Encode(s[1..]);
      assert Encode(s)[0] == PERCENT;
    }
  }

  lemma {:induction false} EncodedIsNotEmpty(s: Text, k: nat)
    requires s != []
    ensures EncodeTimes(s, k) != []
  {
    if k > 0 {
      EncodedIsNotEmpty(s, k - 1);
    }
  }

  lemma OnePassRemoves(inner: Text, passes: int)
    requires inner != [] && passes > 0
    ensures MultiPass(Encode(inner), passes) == MultiPass(inner, passes - 1)
  {
    EncodeEncodes(inner);
    UnescapeIffEncodes(Encode(inner), inner);
    assert |Encode(inner)| > |inner|;
  }

  /** What k encodings become in so many passes. */
  function LayersLeft(k: nat, passes: nat): nat {
    if k <= passes then 0 else k - passes
  }

  lemma PlainStays(s: Text, passes: int)
    requires Plain(s)
    ensures MultiPass(s, passes) == s
  {
  }

  lemma OneLayer(s: Text, k: nat, passes: int)
    requires s != [] && k > 0 && passes > 0
    ensures MultiPass(EncodeTimes(s, k), passes) == MultiPass(EncodeTimes(s, k - 1), passes - 1)
  {
    EncodedIsNotEmpty(s, k - 1);
    OnePassRemoves(EncodeTimes(s, k - 1), passes);
  }

  lemma NoPasses(s: Text)
    ensures MultiPass(s, 0) == s
  {
  }

  /** A pass removes a layer, as long as both last. */
  lemma {:induction false} LayersPeel(s: Text, k: nat, passes: nat, n: nat)
    requires s != [] && n <= k && n <= passes
    ensures MultiPass(EncodeTimes(s, k), passes) == MultiPass(EncodeTimes(s, k - n), passes - n)
    decreases n
  {
    if n > 0 {
      LayersPeel(s, k, passes, n - 1);
      OneLayer(s, k - (n - 1), passes - (n - 1));
    }
  }

  /** Exactly as many layers are removed as there are passes; a deeper one stays. */
  lemma PassesRemoveLayers(s: Text, k: nat, passes: nat)
    requires Plain(s)
    ensures MultiPass(EncodeTimes(s, k), passes) == EncodeTimes(s, LayersLeft(k, passes))
  {
    if s == [] {
      NothingEncoded(k);
      NothingEncoded(LayersLeft(k, passes));
      PlainStays(s, passes);
    } else if k <= passes {
      LayersPeel(s, k, passes, k);
      PlainStays(s, passes - k);
    } else {
      LayersPeel(s, k, passes, passes);
      NoPasses(EncodeTimes(s, k - passes));
    }
  }

  lemma {:induction false} NothingEncoded(k: nat)
    ensures EncodeTimes([], k) == []
  {
    if k > 0 {
      NothingEncoded(k - 1);
    }
  }

  /** The decoded text is never longer. */
  lemma {:induction false} DecodedIsNoLonger(s: Text, passes: int)
    ensures |MultiPass(s, passes)| <= |s|
    decreases passes
  {
    UnescapeShortens(s);
    if passes > 0 && QueryUnescape(s).Some? {
      DecodedIsNoLonger(QueryUnescape(s).value, passes - 1);
    }
  }

  // ----- backslash escapes

  function HexNumber(s: Text): Option<int> {
    if s == [] then Some(0)
    else
      var n := |s| - 1;
      var front, last := HexNumber(s[..n]), HexValue(s[n]);
      if front.Some? && last.Some? then Some(16 * front.value + last.value) else None
  }

  /** strconv.ParseInt in base 16 on a few characters: a sign is welcome. */
  function ParseHex(s: Text): Option<int> {
    var digits := if s != [] && s[0] in {PLUS, MINUS} then s[1..] else s;
    if digits == [] || HexNumber(digits).None? then None
    else if s[0] == MINUS then Some(-HexNumber(digits).value)
    else HexNumber(digits)
  }

  /** The bytes of U+FFFD, which stands for what is no character. */
  const REPLACEMENT: Text := [0xEF, 0xBF, 0xBD]

  /** strings.Builder.WriteRune */
  function Utf8(r: int): (bytes: Text)
    requires r <= 0xFFFF
    ensures 1 <= |bytes| <= 3
  {
    if r < 0 || 0xD800 <= r <= 0xDFFF then REPLACEMENT
    else if r < 0x80 then [r]
    else if r < 0x800 then [0xC0 + r / 64, 0x80 + r % 64]
    else [0xE0 + r / 4096, 0x80 + r / 64 % 64, 0x80 + r % 64]
  }

  lemma {:induction false} HexNumberBound(s: Text)
    requires |s| <= 4 && HexNumber(s).Some?
    ensures 0 <= HexNumber(s).value <= 0xFFFF
    ensures |s| <= 3 ==> HexNumber(s).value <= 0xFFF
    ensures |s| <= 2 ==> HexNumber(s).value <= 0xFF
    ensures |s| <= 1 ==> HexNumber(s).value <= 0xF
  {
    if s != [] {
      HexNumberBound(s[..|s| - 1]);
    }
  }

  lemma ParseHexBound(s: Text)
    requires |s| <= 4 && ParseHex(s).Some?
    ensures ParseHex(s).value <= 0xFFFF
  {
    HexNumberBound(if s != [] && s[0] in {PLUS, MINUS} then s[1..] else s);
  }

  /** The code of an escape at the front: a backslash, a letter in either case, and the given number of digits. */
  function EscapeAt(s: Text, lower: Byte, upper: Byte, digits: nat): (r: Option<int>)
    requires digits <= 4
    ensures r.Some? ==> r.value <= 0xFFFF && |s| >= 2 + digits
  {
    if |s| >= 2 + digits && s[0] == BACKSLASH && s[1] in {lower, upper} && ParseHex(s[2..2 + digits]).Some? then
      ParseHexBound(s[2..2 + digits]);
      ParseHex(s[2..2 + digits])
    else None
  }

  function Unescaped(s: Text): Text
    decreases |s|
  {
    if s == [] then []
    else
      var four, two := EscapeAt(s, LOWER_U, UPPER_U, 4), EscapeAt(s, LOWER_X, UPPER_X, 2);
      if four.Some? then Utf8(four.value) + Unescaped(s[6..])
      else if two.Some? then Utf8(two.value) + Unescaped(s[4..])
      else [s[0]] + Unescaped(s[1..])
  }

  /** strings.Contains for a backslash and one letter. */
  predicate Mentions(s: Text, letter: Byte) {
    exists i | 0 <= i < |s| - 1 :: s[i] == BACKSLASH && s[i + 1] == letter
  }

  /** Texts that mention neither escape in lower case are returned at once. */
  function UnicodeUnescaped(s: Text): Text {
    if !Mentions(s, LOWER_U) && !Mentions(s, LOWER_X) then s else Unescaped(s)
  }

  // ----- when the shortcut returns what the loop would

  /** The loop would replace something here. */
  predicate StartsEscape(s: Text) {
    EscapeAt(s, LOWER_U, UPPER_U, 4).Some? || EscapeAt(s, LOWER_X, UPPER_X, 2).Some?
  }

  predicate NoEscapes(s: Text) {
    forall i | 0 <= i < |s| :: !StartsEscape(s[i..])
  }

  lemma NoEscapesOnwards(s: Text)
    requires s != [] && !StartsEscape(s)
    ensures NoEscapes(s) <==> NoEscapes(s[1..])
  {
    assert s[0..] == s;
    assert forall i | 0 <= i < |s| - 1 :: s[1..][i..] == s[i + 1..];
    assert forall i | 1 <= i < |s| :: s[i..] == s[1..][i - 1..];
  }

  /** The loop leaves exactly the texts without escapes as they are; others become shorter. */
  lemma {:induction false} LoopChangesEscapes(s: Text)
    ensures if NoEscapes(s) then Unescaped(s) == s else |Unescaped(s)| < |s|
    decreases |s|
  {
    if s != [] {
      if StartsEscape(s) {
        assert s[0..] == s;
        UnescapedIsNoLonger(s[if EscapeAt(s, LOWER_U, UPPER_U, 4).Some? then 6 else 4..]);
      } else {
        NoEscapesOnwards(s);
        LoopChangesEscapes(s[1..]);
        assert s == [s[0]] + s[1..];
      }
    }
  }

  /** The shortcut returns what the loop would exactly when a lower-case escape is mentioned or there is no escape. */
  lemma ShortcutIsExactIff(s: Text)
    ensures UnicodeUnescaped(s) == Unescaped(s) <==> Mentions(s, LOWER_U) || Mentions(s, LOWER_X) || NoEscapes(s)
  {
    LoopChangesEscapes(s);
  }

  /** A backslash, an upper-case U and 0027: the loop would write an apostrophe, the shortcut returns the six bytes. */
  lemma UpperCaseAloneStays()
    ensures var s: Text := [BACKSLASH, UPPER_U, 48, 48, 50, 55]; UnicodeUnescaped(s) == s && Unescaped(s) == [39]
  {
    var s: Text := [BACKSLASH, UPPER_U, 48, 48, 50, 55];
    assert s[2..6] == [48, 48, 50, 55];
    HexNumberOfFour(48, 48, 50, 55);
    assert s[6..] == [] && Unescaped([]) == [];
  }

  method UnescapeUnicodeSequences(s: Text) returns (sb: Text)
    ensures sb == UnicodeUnescaped(s)
  {
    if !Mentions(s, LOWER_U) && !Mentions(s, LOWER_X) {
      return s;
    }
    sb := [];
    var i := 0;
    while i < |s|
      invariant 0 <= i <= |s| && sb + Unescaped(s[i..]) == Unescaped(s)
    {
      var rest := s[i..];
      ghost var done := sb;
      var four := EscapeAt(rest, LOWER_U, UPPER_U, 4);
      if four.Some? {
        sb := sb + Utf8(four.value);
        i := i + 6;
        ConcatAssociates(done, Utf8(four.value), Unescaped(rest[6..]));
        assert rest[6..] == s[i..];
        continue;
      }
      var two := EscapeAt(rest, LOWER_X, UPPER_X, 2);
      if two.Some? {
        sb := sb + Utf8(two.value);
        i := i + 4;
        ConcatAssociates(done, Utf8(two.value), Unescaped(rest[4..]));
        assert rest[4..] == s[i..];
        continue;
      }
      sb := sb + [s[i]];
      i := i + 1;
      ConcatAssociates(done, [rest[0]], Unescaped(rest[1..]));
      assert rest[1..] == s[i..];
    }
    assert Unescaped([]) == [] && sb + [] == sb;
  }

  /** Unescaping never lengthens. */
  lemma {:induction false} UnescapedIsNoLonger(s: Text)
    ensures |Unescaped(s)| <= |s|
    decreases |s|
  {
    if s != [] {
      var four, two := EscapeAt(s, LOWER_U, UPPER_U, 4), EscapeAt(s, LOWER_X, UPPER_X, 2);
      if four.Some? {
        UnescapedIsNoLonger(s[6..]);
      } else if two.Some? {
        UnescapedIsNoLonger(s[4..]);
      } else {
        UnescapedIsNoLonger(s[1..]);
      }
    }
  }

  lemma NeverLengthens(s: Text)
    ensures |UnicodeUnescaped(s)| <= |s|
  {
    UnescapedIsNoLonger(s);
  }

  type CodeUnit = i: int | 0 <= i <= 0xFFFF

  /** One escape of four digits. */
  function WriteUnit(c: CodeUnit): (w: Text)
    ensures |w| == 6
  {
    [BACKSLASH, LOWER_U, HexDigit(c / 4096), HexDigit(c / 256 % 16), HexDigit(c / 16 % 16), HexDigit(c % 16)]
  }

  function WriteUnits(cs: seq<CodeUnit>): Text {
    if cs == [] then [] else WriteUnit(cs[0]) + WriteUnits(cs[1..])
  }

  function Utf8All(cs: seq<CodeUnit>): Text {
    if cs == [] then [] else Utf8(cs[0]) + Utf8All(cs[1..])
  }

  lemma FourDigits(c: CodeUnit)
    ensures 0 <= c / 4096 < 16
    ensures 16 * (16 * (16 * (c / 4096) + c / 256 % 16) + c / 16 % 16) + c % 16 == c
  {
    assert c / 16 == 16 * (c / 256) + c / 16 % 16;
    assert c / 256 == 16 * (c / 4096) + c / 256 % 16;
  }

  lemma HexNumberOfFour(a: Byte, b: Byte, c: Byte, d: Byte)
    requires HexValue(a).Some? && HexValue(b).Some? && HexValue(c).Some? && HexValue(d).Some?
    ensures HexNumber([a, b, c, d])
         == Some(16 * (16 * (16 * HexValue(a).value + HexValue(b).value) + HexValue(c).value) + HexValue(d).value)
  {
    assert [a][..0] == [] && [a, b][..1] == [a] && [a, b, c][..2] == [a, b] && [a, b, c, d][..3] == [a, b, c];
    assert HexNumber([a]) == HexValue(a);
    assert HexNumber([a, b]) == Some(16 * HexValue(a).value + HexValue(b).value);
  }

  lemma UnitReads(c: CodeUnit, rest: Text)
    ensures EscapeAt(WriteUnit(c) + rest, LOWER_U, UPPER_U, 4) == Some(c)
  {
    var s := WriteUnit(c) + rest;
    var a, b, e, d := HexDigit(c / 4096), HexDigit(c / 256 % 16), HexDigit(c / 16 % 16), HexDigit(c % 16);
    assert s[2..6] == [a, b, e, d];
    FourDigits(c);
    HexNumberOfFour(a, b, e, d);
    assert HexValue(PLUS).None? && HexValue(MINUS).None?;
  }

  lemma {:induction false} UnitsRead(cs: seq<CodeUnit>)
    ensures Unescaped(WriteUnits(cs)) == Utf8All(cs)
  {
    if cs != [] {
      UnitReads(cs[0], WriteUnits(cs[1..]));
      UnitsRead(cs[1..]);
      assert WriteUnits(cs)[6..] == WriteUnits(cs[1..]);
    }
  }

  /** Whatever is written as four-digit escapes is read back, in UTF-8. */
  lemma UnescapeInvertsWriter(cs: seq<CodeUnit>)
    ensures UnicodeUnescaped(WriteUnits(cs)) == Utf8All(cs)
  {
    UnitsRead(cs);
    if cs != [] {
      var s := WriteUnits(cs);
      assert s[0] == BACKSLASH && s[1] == LOWER_U;
      assert Mentions(s, LOWER_U);
    }
  }

  /** ASCII text is its own UTF-8. */
  lemma {:induction false} AsciiIsItself(cs: seq<CodeUnit>)
    requires forall i | 0 <= i < |cs| :: cs[i] < 0x80
    ensures Utf8All(cs) == cs
  {
    if cs != [] {
      assert forall i | 0 <= i < |cs[1..]| :: cs[1..][i] == cs[i + 1];
      AsciiIsItself(cs[1..]);
      assert cs == [cs[0]] + cs[1..];
    }
  }

  /** ASCII text written as escapes comes back unchanged. */
  lemma AsciiRoundTrip(cs: seq<CodeUnit>)
    requires forall i | 0 <= i < |cs| :: cs[i] < 0x80
    ensures UnicodeUnescaped(WriteUnits(cs)) == cs
  {
    UnescapeInvertsWriter(cs);
    AsciiIsItself(cs);
  }

  // ----- the bytes themselves

  lemma BytesAre()
    ensures PERCENT == '%' as int && PLUS == '+' as int && SPACE == ' ' as int && MINUS == '-' as int
    ensures BACKSLASH == '\\' as int && LOWER_U == 'u' as int && UPPER_U == 'U' as int
    ensures LOWER_X == 'x' as int && UPPER_X == 'X' as int
  {
  }

  /** The sixteen digits, in lower case and in upper case. */
  lemma HexDigitsAre(v: int)
    requires 0 <= v < 16
    ensures HexValue("0123456789abcdef"[v] as int) == Some(v)
    ensures HexValue("0123456789ABCDEF"[v] as int) == Some(v)
  {
  }

  /** And no other byte is one. */
  lemma OnlyHexDigits(b: Byte, v: int)
    requires HexValue(b) == Some(v)
    ensures 0 <= v < 16 && (b == "0123456789abcdef"[v] as int || b == "0123456789ABCDEF"[v] as int)
  {
  }

  function UpperHexDigit(v: int): (b: Byte)
    requires 0 <= v < 16
    ensures HexValue(b) == Some(v)
  {
    if v < 10 then '0' as int + v else 'A' as int + v - 10
  }

  /** Every byte as an escape in upper-case digits, as section 2.1 of RFC 3986 recommends. */
  function EncodeUpper(s: Text): Text {
    if s == [] then [] else [PERCENT, UpperHexDigit(s[0] / 16), UpperHexDigit(s[0] % 16)] + EncodeUpper(s[1..])
  }

  lemma {:induction false} UpperEncodes(s: Text)
    ensures Encodes(EncodeUpper(s), s)
  {
    if s != [] {
      var h, l := UpperHexDigit(s[0] / 16), UpperHexDigit(s[0] % 16);
      assert HexPair(h, l) == Some(s[0]);
      UpperEncodes(s[1..]);
      assert EncodeUpper(s)[3..] == EncodeUpper(s[1..]);
    }
  }

  /** It is decoded like any other. */
  lemma UpperRoundTrip(s: Text)
    ensures QueryUnescape(EncodeUpper(s)) == Some(s)
  {
    UpperEncodes(s);
    UnescapeIffEncodes(EncodeUpper(s), s);
  }

  /** The mark at the front of a byte, and what it carries behind it. */
  predicate Carries(b: Byte, mark: int, bits: int, n: int) {
    mark <= b < mark + bits && b == mark + n
  }

  /** Two bytes carry five and six bits, three bytes four, six and six, with the marks of section 3 of RFC 3629. */
  lemma Utf8Carries(r: int)
    requires 0 <= r <= 0xFFFF && !(0xD800 <= r <= 0xDFFF)
    ensures r < 0x80 ==> Utf8(r) == [r]
    ensures 0x80 <= r < 0x800 ==> |Utf8(r)| == 2 && exists x, y ::
      Carries(Utf8(r)[0], 0xC0, 0x20, x) && Carries(Utf8(r)[1], 0x80, 0x40, y) && r == 64 * x + y
    ensures r >= 0x800 ==> |Utf8(r)| == 3 && exists x, y, z ::
      && Carries(Utf8(r)[0], 0xE0, 0x10, x) && Carries(Utf8(r)[1], 0x80, 0x40, y) && Carries(Utf8(r)[2], 0x80, 0x40, z)
      && r == 4096 * x + 64 * y + z
  {
    var b := Utf8(r);
    if 0x80 <= r < 0x800 {
      var x, y := r / 64, r % 64;
      assert Carries(b[0], 0xC0, 0x20, x) && Carries(b[1], 0x80, 0x40, y) && r == 64 * x + y;
    } else if r >= 0x800 {
      var x, y, z := r / 4096, r / 64 % 64, r % 64;
      assert r / 64 == 64 * (r / 4096) + r / 64 % 64;
      assert Carries(b[0], 0xE0, 0x10, x) && Carries(b[1], 0x80, 0x40, y) && Carries(b[2], 0x80, 0x40, z);
      assert r == 4096 * x + 64 * y + z;
    }
  }

  /** Halves of surrogate pairs, and negative numbers, become U+FFFD. */
  lemma Utf8Replaces(r: int)
    requires r < 0 || 0xD800 <= r <= 0xDFFF
    ensures Utf8(r) == [0xEF, 0xBF, 0xBD]
  {
  }

  /** A backslash, u or U, and four digits in any case, anywhere in a text. */
  lemma FourDigitEscapeReads(letter: Byte, a: Byte, b: Byte, c: Byte, d: Byte, rest: Text)
    requires letter in {LOWER_U, UPPER_U}
    requires HexValue(a).Some? && HexValue(b).Some? && HexValue(c).Some? && HexValue(d).Some?
    ensures var r := 16 * (16 * (16 * HexValue(a).value + HexValue(b).value) + HexValue(c).value) + HexValue(d).value;
      0 <= r <= 0xFFFF && Unescaped([BACKSLASH, letter, a, b, c, d] + rest) == Utf8(r) + Unescaped(rest)
  {
    var s := [BACKSLASH, letter, a, b, c, d] + rest;
    assert s[2..6] == [a, b, c, d] && s[6..] == rest;
    HexNumberOfFour(a, b, c, d);
    assert HexValue(PLUS).None? && HexValue(MINUS).None?;
  }

  lemma HexNumberOfTwo(a: Byte, b: Byte)
    requires HexValue(a).Some? && HexValue(b).Some?
    ensures HexNumber([a, b]) == Some(16 * HexValue(a).value + HexValue(b).value)
  {
    assert [a][..0] == [] && [a, b][..1] == [a];
    assert HexNumber([a]) == HexValue(a);
  }

  /** A backslash, x or X, and two digits in any case, anywhere in a text. */
  lemma TwoDigitEscapeReads(letter: Byte, a: Byte, b: Byte, rest: Text)
    requires letter in {LOWER_X, UPPER_X} && HexValue(a).Some? && HexValue(b).Some?
    ensures var r := 16 * HexValue(a).value + HexValue(b).value;
      0 <= r <= 0xFF && Unescaped([BACKSLASH, letter, a, b] + rest) == Utf8(r) + Unescaped(rest)
  {
    var s := [BACKSLASH, letter, a, b] + rest;
    assert s[2..4] == [a, b] && s[4..] == rest;
    HexNumberOfTwo(a, b);
    assert HexValue(PLUS).None? && HexValue(MINUS).None?;
  }

  /** A sign in the place of the first digit is read as one. */
  lemma SignedEscapeReads(sign: Byte, b: Byte, rest: Text)
    requires sign in {PLUS, MINUS} && HexValue(b).Some?
    ensures Unescaped([BACKSLASH, LOWER_X, sign, b] + rest)
         == Utf8(if sign == PLUS then HexValue(b).value else -HexValue(b).value) + Unescaped(rest)
  {
    var s := [BACKSLASH, LOWER_X, sign, b] + rest;
    assert s[2..4] == [sign, b] && [sign, b][1..] == [b] && [b][..0] == [] && s[4..] == rest;
    assert HexNumber([b]) == HexValue(b);
  }
}
