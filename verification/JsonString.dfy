/** The strings of the canonical envelope: `str.strip`, and the escaping of json.dumps (section 7 of
    RFC 8259, everything escaped to ASCII).  A text is a sequence of code points, lone surrogates
    included, as in Python. */
module JsonString {
  import opened Words

  type CodePoint = c: nat | c < 0x110000
  type Text = seq<CodePoint>
  type Bytes = seq<nat>

  // ----- str.strip -----

  /** The code points for which Python's `str.isspace` holds. */
  predicate IsSpace(c: nat) {
    || 0x09 <= c <= 0x0D || 0x1C <= c <= 0x20 || c == 0x85 || c == 0xA0 || c == 0x1680
    || 0x2000 <= c <= 0x200A || c == 0x2028 || c == 0x2029 || c == 0x202F || c == 0x205F || c == 0x3000
  }

  predicate AllSpace(s: Text) {
    forall i | 0 <= i < |s| :: IsSpace(s[i])
  }

  function StripLeft(s: Text): Text {
    if s != [] && IsSpace(s[0]) then StripLeft(s[1..]) else s
  }

  function StripRight(s: Text): Text {
    if s != [] && IsSpace(s[|s| - 1]) then StripRight(s[..|s| - 1]) else s
  }

  function Strip(s: Text): Text {
    StripRight(StripLeft(s))
  }

  predicate Trimmed(s: Text) {
    s == [] || (!IsSpace(s[0]) && !IsSpace(s[|s| - 1]))
  }

  lemma {:induction false} StripLeftPads(pad: Text, s: Text)
    requires AllSpace(pad) && (s == [] || !IsSpace(s[0]))
    ensures StripLeft(pad + s) == s
  {
    if pad == [] {
      assert pad + s == s;
    } else {
      assert (pad + s)[1..] == pad[1..] + s;
      StripLeftPads(pad[1..], s);
    }
  }

  lemma {:induction false} StripRightPads(s: Text, pad: Text)
    requires AllSpace(pad) && (s == [] || !IsSpace(s[|s| - 1]))
    ensures StripRight(s + pad) == s
  {
    if pad == [] {
      assert s + pad == s;
    } else {
      assert (s + pad)[..|s + pad| - 1] == s + pad[..|pad| - 1];
      StripRightPads(s, pad[..|pad| - 1]);
    }
  }

  /** Surrounding whitespace, and nothing else, is removed. */
  lemma StripExact(left: Text, core: Text, right: Text)
    requires AllSpace(left) && AllSpace(right) && Trimmed(core)
    ensures Strip(left + core + right) == core
  {
    if core == [] {
      assert left + core + right == (left + right) + [];
      StripLeftPads(left + right, []);
    } else {
      assert left + core + right == left + (core + right);
      StripLeftPads(left, core + right);
      StripRightPads(core, right);
    }
  }

  lemma Regroup<X>(a: seq<X>, b: seq<X>, c: seq<X>)
    ensures (a + b) + c == a + (b + c)
  {
  }

  lemma {:induction false} StripLeftSplits(s: Text) returns (left: Text)
    ensures AllSpace(left) && s == left + StripLeft(s)
    ensures StripLeft(s) == [] || !IsSpace(StripLeft(s)[0])
  {
    left := [];
    if s != [] && IsSpace(s[0]) {
      left := StripLeftSplits(s[1..]);
      Regroup([s[0]], left, StripLeft(s));
      left := [s[0]] + left;
    }
  }

  lemma MoreSpace(pad: Text, c: CodePoint)
    requires AllSpace(pad) && IsSpace(c)
    ensures AllSpace(pad + [c])
  {
  }

  lemma SplitOneMore(s: Text, core: Text, pad: Text)
    requires s != [] && s[..|s| - 1] == core + pad
    ensures s == core + (pad + [s[|s| - 1]])
  {
    assert s == s[..|s| - 1] + [s[|s| - 1]];
  }

  lemma {:induction false} StripRightSplits(s: Text) returns (right: Text)
    ensures AllSpace(right) && s == StripRight(s) + right
    ensures StripRight(s) == [] || !IsSpace(StripRight(s)[|StripRight(s)| - 1])
  {
    if s == [] || !IsSpace(s[|s| - 1]) {
      right := [];
    } else {
      var init, last := s[..|s| - 1], s[|s| - 1];
      var pad := StripRightSplits(init);
      SplitOneMore(s, StripRight(init), pad);
      MoreSpace(pad, last);
      right := pad + [last];
    }
  }

  /** Every text is white space, a trimmed core and white space, and the core is what strip leaves. */
  lemma StripTotal(s: Text) returns (left: Text, right: Text)
    ensures AllSpace(left) && AllSpace(right) && Trimmed(Strip(s)) && s == left + Strip(s) + right
  {
    left := StripLeftSplits(s);
    right := StripRightSplits(StripLeft(s));
    if Strip(s) != [] {
      assert StripLeft(s)[0] == Strip(s)[0];
    }
  }

  /** So strip is characterised: it yields `core` exactly if `core` is trimmed and is the text without
      some white space around it. */
  lemma StripIff(s: Text, core: Text)
    ensures Strip(s) == core <==>
      (Trimmed(core) &&
       exists left: Text, right: Text :: AllSpace(left) && AllSpace(right) && s == left + core + right)
  {
    if Strip(s) == core {
      var left, right := StripTotal(s);
    } else if Trimmed(core) {
      forall left: Text, right: Text | AllSpace(left) && AllSpace(right) ensures s != left + core + right {
        StripExact(left, core, right);
      }
    }
  }

  // ----- JSON strings -----

  const QUOTE: nat := 0x22
  const BACKSLASH: nat := 0x5C

  function Digit(d: nat): nat
    requires d < 16
  {
    if d < 10 then 0x30 + d else 0x61 + (d - 10)
  }

  function Digits(w: nat, x: nat, y: nat, z: nat): Bytes
    requires w < 16 && x < 16 && y < 16 && z < 16
  {
    [Digit(w), Digit(x), Digit(y), Digit(z)]
  }

  function Hex4(v: nat): Bytes
    requires v < 0x10000
  {
    Digits(v / 16 / 16 / 16, v / 16 / 16 % 16, v / 16 % 16, v % 16)
  }

  function UnicodeEscape(v: nat): Bytes
    requires v < 0x10000
  {
    [BACKSLASH, 0x75] + Hex4(v)
  }

  /** The letter of a two-character escape, if the character has one. */
  function ShortEscape(c: nat): Option<nat> {
    if c == QUOTE then Some(QUOTE) else if c == BACKSLASH then Some(BACKSLASH)
    else if c == 0x08 then Some(0x62) else if c == 0x0C then Some(0x66) else if c == 0x0A then Some(0x6E)
    else if c == 0x0D then Some(0x72) else if c == 0x09 then Some(0x74) else None
  }

  function EscapeChar(c: CodePoint): Bytes {
    if ShortEscape(c).Some? then [BACKSLASH, ShortEscape(c).value]
    else if 0x20 <= c <= 0x7E then [c]
    else if c < 0x10000 then UnicodeEscape(c)
    else UnicodeEscape(0xD800 + (c - 0x10000) / 0x400) + UnicodeEscape(0xDC00 + (c - 0x10000) % 0x400)
  }

  function Escape(s: Text): Bytes {
    if s == [] then [] else EscapeChar(s[0]) + Escape(s[1..])
  }

  predicate IsHigh(c: nat) { 0xD800 <= c < 0xDC00 }

  predicate IsLow(c: nat) { 0xDC00 <= c < 0xE000 }

  function Pair(hi: nat, lo: nat): CodePoint
    requires IsHigh(hi) && IsLow(lo)
  {
    0x10000 + (hi - 0xD800) * 0x400 + (lo - 0xDC00)
  }

  /** The text with each high surrogate and a low one right after it made one character. */
  function Join(s: Text): Text {
    if s == [] then []
    else if |s| > 1 && IsHigh(s[0]) && IsLow(s[1]) then [Pair(s[0], s[1])] + Join(s[2..])
    else [s[0]] + Join(s[1..])
  }

  // ----- an independent reader of JSON strings -----

  function HexValue(b: nat): Option<nat> {
    if 0x30 <= b <= 0x39 then Some(b - 0x30)
    else if 0x61 <= b <= 0x66 then Some(b - 0x61 + 10)
    else if 0x41 <= b <= 0x46 then Some(b - 0x41 + 10)
    else None
  }

  /** The four hex digits after a backslash and a u at the front of b. */
  function ReadUnicode(b: Bytes): (r: Option<nat>)
    ensures r.Some? ==> r.value < 0x10000
  {
    if |b| < 6 || b[0] != BACKSLASH || b[1] != 0x75 then None else
    match (HexValue(b[2]), HexValue(b[3]), HexValue(b[4]), HexValue(b[5]))
    case (Some(w), Some(x), Some(y), Some(z)) =>
      if w < 16 && x < 16 && y < 16 && z < 16 then Some(0x1000 * w + 0x100 * x + 16 * y + z) else None
    case _ => None
  }

  function ReadShort(letter: nat): Option<CodePoint> {
    if letter == QUOTE then Some(QUOTE) else if letter == BACKSLASH then Some(BACKSLASH)
    else if letter == 0x2F then Some(0x2F) else if letter == 0x62 then Some(0x08)
    else if letter == 0x66 then Some(0x0C) else if letter == 0x6E then Some(0x0A)
    else if letter == 0x72 then Some(0x0D) else if letter == 0x74 then Some(0x09) else None
  }

  /** One character and what follows it; two escapes that make a surrogate pair are one. */
  function ReadChar(b: Bytes): (r: Option<(CodePoint, Bytes)>)
    ensures r.Some? ==> |r.value.1| < |b|
  {
    if b == [] || b[0] == QUOTE || b[0] < 0x20 then None
    else if b[0] != BACKSLASH then (if b[0] < 0x80 then Some((b[0], b[1..])) else None)
    else if |b| < 2 then None
    else if b[1] != 0x75 then
      (match ReadShort(b[1])
       case Some(c) => Some((c, b[2..]))
       case None => None)
    else
      match ReadUnicode(b)
      case None => None
      case Some(v) =>
        if IsHigh(v) && ReadUnicode(b[6..]).Some? && IsLow(ReadUnicode(b[6..]).value)
        then Some((Pair(v, ReadUnicode(b[6..]).value), b[12..]))
        else Some((v, b[6..]))
  }

  /** A string body up to its closing quote, and what follows the quote. */
  function ReadString(b: Bytes): (r: Option<(Text, Bytes)>)
    ensures r.Some? ==> |r.value.1| < |b|
    decreases |b|
  {
    if b != [] && b[0] == QUOTE then Some(([], b[1..])) else
    match ReadChar(b)
    case None => None
    case Some((c, rest)) =>
      match ReadString(rest)
      case None => None
      case Some((s, after)) => Some(([c] + s, after))
  }

  lemma ReadDigits(w: nat, x: nat, y: nat, z: nat, rest: Bytes)
    requires w < 16 && x < 16 && y < 16 && z < 16
    ensures ReadUnicode(([BACKSLASH, 0x75] + Digits(w, x, y, z)) + rest) == Some(0x1000 * w + 0x100 * x + 16 * y + z)
  {
    var b := ([BACKSLASH, 0x75] + Digits(w, x, y, z)) + rest;
    assert b[2] == Digit(w) && b[3] == Digit(x) && b[4] == Digit(y) && b[5] == Digit(z);
    assert HexValue(b[2]) == Some(w) && HexValue(b[3]) == Some(x);
    assert HexValue(b[4]) == Some(y) && HexValue(b[5]) == Some(z);
  }

  lemma ReadHex(v: nat, rest: Bytes)
    requires v < 0x10000
    ensures ReadUnicode(UnicodeEscape(v) + rest) == Some(v)
    ensures (UnicodeEscape(v) + rest)[6..] == rest
  {
    var p := v / 16;
    var q := p / 16;
    ReadDigits(q / 16, q % 16, p % 16, v % 16, rest);
    assert v == 16 * p + v % 16 && p == 16 * q + p % 16 && q == 16 * (q / 16) + q % 16;
  }

  /** Two escapes that make a surrogate pair are one character. */
  lemma ReadPair(hi: nat, lo: nat, rest: Bytes)
    requires IsHigh(hi) && IsLow(lo)
    ensures ReadChar(UnicodeEscape(hi) + (UnicodeEscape(lo) + rest)) == Some((Pair(hi, lo), rest))
  {
    var b := UnicodeEscape(hi) + (UnicodeEscape(lo) + rest);
    ReadHex(hi, UnicodeEscape(lo) + rest);
    ReadHex(lo, rest);
    assert b[12..] == b[6..][6..];
  }

  /** No escape of a low surrogate is at the front of b. */
  predicate NotLow(b: Bytes) {
    ReadUnicode(b).Some? ==> !IsLow(ReadUnicode(b).value)
  }

  lemma ReadBasic(v: nat, rest: Bytes)
    requires v < 0x10000 && (IsHigh(v) ==> NotLow(rest))
    ensures ReadChar(UnicodeEscape(v) + rest) == Some((v, rest))
  {
    ReadHex(v, rest);
  }

  lemma ReadPlain(c: CodePoint, rest: Bytes)
    requires ShortEscape(c).Some? || 0x20 <= c <= 0x7E
    ensures var b := EscapeChar(c) + rest; ReadChar(b) == Some((c, rest)) && b[0] != QUOTE && NotLow(b)
  {
    var b := EscapeChar(c) + rest;
    if ShortEscape(c).Some? {
      assert b[2..] == rest;
    } else {
      assert b[1..] == rest;
    }
  }

  /** The surrogate pair of a character above the basic plane. */
  lemma SurrogatePair(c: CodePoint) returns (hi: nat, lo: nat)
    requires 0x10000 <= c
    ensures IsHigh(hi) && IsLow(lo) && c == Pair(hi, lo)
    ensures EscapeChar(c) == UnicodeEscape(hi) + UnicodeEscape(lo)
    ensures EscapeChar(c) == EscapeChar(hi) + EscapeChar(lo)
  {
    var d: nat := c - 0x10000;
    var q, r := d / 0x400, d % 0x400;
    assert d == 0x400 * q + r;
    hi, lo := 0xD800 + q, 0xDC00 + r;
  }

  /** Reading undoes escaping, character by character, but for a high surrogate before a low one. */
  lemma ReadEscapeChar(c: CodePoint, rest: Bytes)
    requires IsHigh(c) ==> NotLow(rest)
    ensures var b := EscapeChar(c) + rest; ReadChar(b) == Some((c, rest)) && b[0] != QUOTE
  {
    if ShortEscape(c).Some? || 0x20 <= c <= 0x7E {
      ReadPlain(c, rest);
    } else if c < 0x10000 {
      ReadBasic(c, rest);
    } else {
      var hi, lo := SurrogatePair(c);
      Regroup(UnicodeEscape(hi), UnicodeEscape(lo), rest);
      ReadPair(hi, lo, rest);
    }
  }

  lemma FirstNotLow(c: CodePoint, rest: Bytes)
    requires !IsLow(c)
    ensures NotLow(EscapeChar(c) + rest)
  {
    if ShortEscape(c).Some? || 0x20 <= c <= 0x7E {
      ReadPlain(c, rest);
    } else if c < 0x10000 {
      ReadHex(c, rest);
    } else {
      var hi, lo := SurrogatePair(c);
      Regroup(UnicodeEscape(hi), UnicodeEscape(lo), rest);
      ReadHex(hi, UnicodeEscape(lo) + rest);
    }
  }

  lemma EscapeFirst(s: Text, more: Bytes)
    requires s != []
    ensures Escape(s) + more == EscapeChar(s[0]) + (Escape(s[1..]) + more)
  {
    Regroup(EscapeChar(s[0]), Escape(s[1..]), more);
  }

  lemma EndNotLow(s: Text, rest: Bytes)
    requires s == [] || !IsLow(s[0])
    ensures NotLow(Escape(s) + ([QUOTE] + rest))
  {
    if s != [] {
      EscapeFirst(s, [QUOTE] + rest);
      FirstNotLow(s[0], Escape(s[1..]) + ([QUOTE] + rest));
    }
  }

  lemma EscapePairFirst(s: Text, more: Bytes)
    requires |s| > 1 && IsHigh(s[0]) && IsLow(s[1])
    ensures Escape(s) + more == UnicodeEscape(s[0]) + (UnicodeEscape(s[1]) + (Escape(s[2..]) + more))
  {
    EscapeFirst(s, more);
    EscapeFirst(s[1..], more);
    assert s[1..][1..] == s[2..];
  }

  lemma ReadFirstPair(s: Text, more: Bytes)
    requires |s| > 1 && IsHigh(s[0]) && IsLow(s[1])
    ensures var b := Escape(s) + more;
      ReadChar(b) == Some((Pair(s[0], s[1]), Escape(s[2..]) + more)) && b[0] != QUOTE
  {
    EscapePairFirst(s, more);
    ReadPair(s[0], s[1], Escape(s[2..]) + more);
  }

  /** An independent reader gets back the text, surrogate pairs joined, and what follows. */
  lemma {:induction false} ReadEscape(s: Text, rest: Bytes)
    ensures ReadString(Escape(s) + ([QUOTE] + rest)) == Some((Join(s), rest))
    decreases |s|
  {
    var more := [QUOTE] + rest;
    if s == [] {
      assert Escape(s) + more == more;
    } else if |s| > 1 && IsHigh(s[0]) && IsLow(s[1]) {
      ReadFirstPair(s, more);
      ReadEscape(s[2..], rest);
    } else {
      EscapeFirst(s, more);
      EndNotLowAfter(s, rest);
      ReadEscapeChar(s[0], Escape(s[1..]) + more);
      ReadEscape(s[1..], rest);
    }
  }

  lemma EndNotLowAfter(s: Text, rest: Bytes)
    requires s != [] && !(|s| > 1 && IsHigh(s[0]) && IsLow(s[1]))
    ensures IsHigh(s[0]) ==> NotLow(Escape(s[1..]) + ([QUOTE] + rest))
  {
    if IsHigh(s[0]) {
      EndNotLow(s[1..], rest);
    }
  }

  lemma {:induction false} EscapeJoin(s: Text)
    ensures Escape(Join(s)) == Escape(s)
    decreases |s|
  {
    if |s| > 1 && IsHigh(s[0]) && IsLow(s[1]) {
      EscapeJoin(s[2..]);
      EscapeOfPair(s[0], s[1]);
      assert s[1..][1..] == s[2..];
      assert Join(s) == [Pair(s[0], s[1])] + Join(s[2..]);
      assert Join(s)[1..] == Join(s[2..]);
      Regroup(EscapeChar(s[0]), EscapeChar(s[1]), Escape(s[2..]));
    } else if s != [] {
      EscapeJoin(s[1..]);
      assert Join(s)[1..] == Join(s[1..]);
    }
  }

  lemma EscapeOfPair(hi: nat, lo: nat)
    requires IsHigh(hi) && IsLow(lo)
    ensures EscapeChar(Pair(hi, lo)) == EscapeChar(hi) + EscapeChar(lo)
  {
    var h, l := SurrogatePair(Pair(hi, lo));
    assert h == hi && l == lo;
  }

  /** Two texts are escaped alike exactly when they differ at most in how surrogate pairs are stored. */
  lemma EscapeExact(s: Text, t: Text)
    ensures Escape(s) == Escape(t) <==> Join(s) == Join(t)
  {
    ReadEscape(s, []);
    ReadEscape(t, []);
    EscapeJoin(s);
    EscapeJoin(t);
  }

  predicate HasPair(s: Text) {
    exists i :: 0 <= i < |s| - 1 && IsHigh(s[i]) && IsLow(s[i + 1])
  }

  lemma PairInTail(s: Text)
    requires s != [] && !(|s| > 1 && IsHigh(s[0]) && IsLow(s[1]))
    ensures HasPair(s) <==> HasPair(s[1..])
  {
    if HasPair(s) {
      var i :| 0 <= i < |s| - 1 && IsHigh(s[i]) && IsLow(s[i + 1]);
      assert s[1..][i - 1] == s[i] && s[1..][i] == s[i + 1];
    }
    if HasPair(s[1..]) {
      var i :| 0 <= i < |s[1..]| - 1 && IsHigh(s[1..][i]) && IsLow(s[1..][i + 1]);
      assert s[i + 1] == s[1..][i] && s[i + 2] == s[1..][i + 1];
    }
  }

  /** Joining changes exactly the texts that have a pair, and makes them shorter. */
  lemma {:induction false} JoinExact(s: Text)
    ensures Join(s) == s <==> !HasPair(s)
    ensures |Join(s)| <= |s| && (HasPair(s) ==> |Join(s)| < |s|)
    decreases |s|
  {
    if |s| > 1 && IsHigh(s[0]) && IsLow(s[1]) {
      JoinExact(s[2..]);
    } else if s != [] {
      JoinExact(s[1..]);
      PairInTail(s);
      assert s == [s[0]] + s[1..];
      assert Join(s) == [s[0]] + Join(s[1..]);
    }
  }

  lemma CharIsAscii(c: CodePoint, i: nat)
    requires i < |EscapeChar(c)|
    ensures 0x20 <= EscapeChar(c)[i] < 0x7F
  {
  }

  lemma {:induction false} EscapeIsAscii(s: Text, i: nat)
    requires i < |Escape(s)|
    ensures 0x20 <= Escape(s)[i] < 0x7F
  {
    if i < |EscapeChar(s[0])| {
      CharIsAscii(s[0], i);
      assert Escape(s)[i] == EscapeChar(s[0])[i];
    } else {
      EscapeIsAscii(s[1..], i - |EscapeChar(s[0])|);
    }
  }

  predicate LowerHex(b: nat) {
    0x30 <= b <= 0x39 || 0x61 <= b <= 0x66
  }

  /** b is a backslash, a u and four lower-case hex digits of the value v. */
  predicate IsUnicodeEscape(b: Bytes, v: nat) {
    && |b| == 6 && b[0] == 0x5C && b[1] == 0x75 && LowerHex(b[2]) && LowerHex(b[3]) && LowerHex(b[4])
    && LowerHex(b[5]) && ReadUnicode(b) == Some(v)
  }

  ghost predicate IsPairEscape(b: Bytes, c: CodePoint) {
    |b| == 12 &&
    exists hi, lo | IsHigh(hi) && IsLow(lo) ::
      c == Pair(hi, lo) && IsUnicodeEscape(b[..6], hi) && IsUnicodeEscape(b[6..], lo)
  }

  lemma UnicodeForm(v: nat)
    requires v < 0x10000
    ensures IsUnicodeEscape(UnicodeEscape(v), v)
  {
    ReadHex(v, []);
    assert UnicodeEscape(v) + [] == UnicodeEscape(v);
  }

  /** The one spelling json.dumps gives each character. */
  lemma EscapeForm(c: CodePoint)
    ensures 0x20 <= c <= 0x7E && c != 0x22 && c != 0x5C ==> EscapeChar(c) == [c]
    ensures c == 0x22 || c == 0x5C ==> EscapeChar(c) == [0x5C, c]
    ensures c == 0x08 ==> EscapeChar(c) == Chars("\\b")
    ensures c == 0x09 ==> EscapeChar(c) == Chars("\\t")
    ensures c == 0x0A ==> EscapeChar(c) == Chars("\\n")
    ensures c == 0x0C ==> EscapeChar(c) == Chars("\\f")
    ensures c == 0x0D ==> EscapeChar(c) == Chars("\\r")
    ensures c < 0x20 && c != 0x08 && c != 0x09 && c != 0x0A && c != 0x0C && c != 0x0D ==>
      IsUnicodeEscape(EscapeChar(c), c)
    ensures 0x7F <= c < 0x10000 ==> IsUnicodeEscape(EscapeChar(c), c)
    ensures 0x10000 <= c ==> IsPairEscape(EscapeChar(c), c)
  {
    if 0x10000 <= c {
      var hi, lo := SurrogatePair(c);
      UnicodeForm(hi);
      UnicodeForm(lo);
      assert EscapeChar(c)[..6] == UnicodeEscape(hi) && EscapeChar(c)[6..] == UnicodeEscape(lo);
    } else if ShortEscape(c).None? && !(0x20 <= c <= 0x7E) {
      UnicodeForm(c);
    }
  }

  /** The characters of an ASCII literal. */
  function Chars(s: string): Text {
    seq(|s|, i requires 0 <= i < |s| => s[i] as nat)
  }

  lemma CharsOfTwo(a: string, b: string, more: Bytes)
    ensures Chars(a) + (Chars(b) + more) == Chars(a + b) + more
  {
    assert Chars(a) + Chars(b) == Chars(a + b);
    Regroup(Chars(a), Chars(b), more);
  }

  lemma {:induction false} EscapePlain(s: Text)
    requires forall i :: 0 <= i < |s| ==> 0x20 <= s[i] <= 0x7E && s[i] != QUOTE && s[i] != BACKSLASH
    ensures Escape(s) == s && Join(s) == s
  {
    if s != [] {
      EscapePlain(s[1..]);
      assert s == [s[0]] + s[1..];
    }
  }
}
