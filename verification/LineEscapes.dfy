/** The C-style escaping of one line of a byte file, and its inverse. */
module LineEscapes {
  import opened TokenSeqs
  import opened Results
  import opened BitStrings

  const BACKSLASH := 0x5C
  const LINE_SEP := 0x0A

  predicate IsByte(b: int) { 0 <= b < 256 }

  /** The letter behind the backslash of a two-byte escape. */
  function EscapeLetter(b: int): Option<int> {
    if b == 0x5C then Some('\\' as int)
    else if b == 0x09 then Some('t' as int)
    else if b == 0x0A then Some('n' as int)
    else if b == 0x0D then Some('r' as int)
    else if b == 0x07 then Some('a' as int)
    else if b == 0x08 then Some('b' as int)
    else if b == 0x0B then Some('v' as int)
    else if b == 0x0C then Some('f' as int)
    else if b == 0x00 then Some('0' as int)
    else None
  }

  predicate NeedsHex(b: int) {
    0x01 <= b < 0x07 || 0x0E <= b < 0x20 || b == 0x7F
  }

  function HexDigit(n: int): int
    requires 0 <= n < 16
  {
    if n < 10 then '0' as int + n else 'a' as int + (n - 10)
  }

  function EscapeByte(b: int): seq<int>
    requires IsByte(b)
  {
    var letter := EscapeLetter(b);
    if letter.Some? then [BACKSLASH, letter.value]
    else if NeedsHex(b) then [BACKSLASH, 'x' as int, HexDigit(b / 16), HexDigit(b % 16)]
    else [b]
  }

  function Escaped(raw: seq<int>): seq<int>
    requires IsBytes(raw)
  {
    if raw == [] then [] else EscapeByte(raw[0]) + Escaped(raw[1..])
  }

  method EscapeLine(raw: seq<int>) returns (r: seq<int>)
    requires IsBytes(raw)
    ensures r == Escaped(raw)
  {
    hide EscapeByte;
    r := [];
    for i := 0 to |raw|
      invariant r + Escaped(raw[i..]) == Escaped(raw)
    {
      assert raw[i..][0] == raw[i] && raw[i..][1..] == raw[i + 1..];
      AppendAssoc(r, EscapeByte(raw[i]), Escaped(raw[i + 1..]));
      r := r + EscapeByte(raw[i]);
    }
    assert raw[|raw|..] == [] && r + [] == r;
  }

  function UnescapeLetter(c: int): Option<int> {
    if c == '\\' as int then Some(0x5C)
    else if c == 't' as int then Some(0x09)
    else if c == 'n' as int then Some(0x0A)
    else if c == 'r' as int then Some(0x0D)
    else if c == 'a' as int then Some(0x07)
    else if c == 'b' as int then Some(0x08)
    else if c == 'v' as int then Some(0x0B)
    else if c == 'f' as int then Some(0x0C)
    else if c == '0' as int then Some(0x00)
    else None
  }

  function HexValue(c: int): Option<int> {
    if '0' as int <= c <= '9' as int then Some(c - '0' as int)
    else if 'a' as int <= c <= 'f' as int then Some(c - 'a' as int + 10)
    else if 'A' as int <= c <= 'F' as int then Some(c - 'A' as int + 10)
    else None
  }

  /** White space that is stripped around a number before it is read. */
  predicate IsSpace(c: int) { 0x09 <= c <= 0x0D || c == 0x20 }

  /** `int(text, 16)` on two characters: two digits, or one digit with a sign in front or
      white space on either side. The result may be negative. */
  function HexPair(a: int, b: int): Option<int> {
    var high, low := HexValue(a), HexValue(b);
    if high.Some? && low.Some? then Some(16 * high.value + low.value)
    else if low.Some? && (a == '+' as int || IsSpace(a)) then Some(low.value)
    else if low.Some? && a == '-' as int then Some(-low.value)
    else if high.Some? && IsSpace(b) then Some(high.value)
    else None
  }

  /** The byte that an escape or plain byte at i stands for, and where the next one is. */
  datatype Unit = Unit(byte: int, next: nat)

  function UnitAt(line: seq<int>, i: nat): (r: Result<Unit>)
    requires i < |line|
    ensures r.Ok? ==> i < r.value.next <= |line|
  {
    if line[i] != BACKSLASH then Ok(Unit(line[i], i + 1))
    else if i + 1 >= |line| then Err("truncated escape: trailing backslash at end of line")
    else
      var letter := UnescapeLetter(line[i + 1]);
      if letter.Some? then Ok(Unit(letter.value, i + 2))
      else if line[i + 1] != 'x' as int then Err("unknown escape sequence")
      else if i + 4 > |line| then Err("truncated \\xHH escape near end of line")
      else
        var value := HexPair(line[i + 2], line[i + 3]);
        if value.None? then Err("malformed \\xHH escape")
        else if !IsByte(value.value) then Err("byte must be in range(0, 256)")
        else Ok(Unit(value.value, i + 4))
  }

  function Unescaped(line: seq<int>): Result<seq<int>> { UnescapedFrom(line, 0) }

  function UnescapedFrom(line: seq<int>, i: nat): Result<seq<int>>
    requires i <= |line|
    decreases |line| - i
  {
    if i == |line| then Ok([])
    else
      var unit := UnitAt(line, i);
      if unit.Err? then Err(unit.error)
      else
        var rest := UnescapedFrom(line, unit.value.next);
        if rest.Err? then rest else Ok([unit.value.byte] + rest.value)
  }

  method UnescapeLine(line: seq<int>) returns (r: Result<seq<int>>)
    ensures r == Unescaped(line)
  {
    var out: seq<int> := [];
    var i := 0;
    assert UnescapedFrom(line, 0).Ok? ==> [] + UnescapedFrom(line, 0).value == UnescapedFrom(line, 0).value;
    while i < |line|
      invariant 0 <= i <= |line|
      invariant UnescapedFrom(line, i).Err? ==> Unescaped(line) == UnescapedFrom(line, i)
      invariant UnescapedFrom(line, i).Ok? ==> Unescaped(line) == Ok(out + UnescapedFrom(line, i).value)
    {
      var unit := UnitAt(line, i);
      if unit.Err? {
        return Err(unit.error);
      }
      if UnescapedFrom(line, unit.value.next).Ok? {
        AppendAssoc(out, [unit.value.byte], UnescapedFrom(line, unit.value.next).value);
      }
      out := out + [unit.value.byte];
      i := unit.value.next;
    }
    assert out + [] == out;
    return Ok(out);
  }

  // ---- round trip ----

  /** An escaped byte is read back. */
  lemma UnescapedByte(b: int)
    requires IsByte(b)
    ensures Unescaped(EscapeByte(b)) == Ok([b])
  {
    hide Unescaped, UnescapedFrom;
    WholeUnit(EscapeByte(b));
  }

  lemma OneUnit(line: seq<int>, i: nat, unit: Unit)
    requires i < |line| && UnitAt(line, i) == Ok(unit) && UnescapedFrom(line, unit.next).Ok?
    ensures UnescapedFrom(line, i) == Ok([unit.byte] + UnescapedFrom(line, unit.next).value)
  {
    hide UnitAt;
  }

  lemma WholeUnit(line: seq<int>)
    requires line != []
    ensures UnitAt(line, 0).Err? ==> Unescaped(line).Err?
    ensures UnitAt(line, 0).Ok? && UnitAt(line, 0).value.next == |line| ==> Unescaped(line) == Ok([UnitAt(line, 0).value.byte])
  {
    hide UnitAt;
    if UnitAt(line, 0).Ok? && UnitAt(line, 0).value.next == |line| {
      assert UnescapedFrom(line, |line|) == Ok([]);
      OneUnit(line, 0, UnitAt(line, 0).value);
      assert [UnitAt(line, 0).value.byte] + [] == [UnitAt(line, 0).value.byte];
    }
  }

  /** Behind text that is read, the rest of a line is read on its own. */
  lemma {:induction false} UnescapedAppend(a: seq<int>, b: seq<int>, i: nat)
    requires i <= |a| && UnescapedFrom(a, i).Ok?
    ensures Unescaped(b).Err? ==> UnescapedFrom(a + b, i).Err?
    ensures Unescaped(b).Ok? ==> UnescapedFrom(a + b, i) == Ok(UnescapedFrom(a, i).value + Unescaped(b).value)
    decreases |a| - i
  {
    if i == |a| {
      UnescapedBehind(a, b, 0);
      assert Unescaped(b).Ok? ==> [] + Unescaped(b).value == Unescaped(b).value;
    } else {
      SameUnit(a, b, i);
      hide UnitAt;
      var unit := UnitAt(a, i).value;
      UnescapedAppend(a, b, unit.next);
      if Unescaped(b).Ok? {
        AppendAssoc([unit.byte], UnescapedFrom(a, unit.next).value, Unescaped(b).value);
      }
    }
  }

  lemma SameUnit(a: seq<int>, b: seq<int>, i: nat)
    requires i < |a| && UnitAt(a, i).Ok?
    ensures UnitAt(a + b, i) == UnitAt(a, i)
  {
  }

  lemma {:induction false} UnescapedBehind(a: seq<int>, b: seq<int>, i: nat)
    requires i <= |b|
    ensures UnescapedFrom(a + b, |a| + i) == UnescapedFrom(b, i)
    decreases |b| - i
  {
    if i == |b| {
    } else {
      ShiftedUnit(a, b, i);
      hide UnitAt;
      if UnitAt(b, i).Ok? {
        UnescapedBehind(a, b, UnitAt(b, i).value.next);
      }
    }
  }

  lemma ShiftedUnit(a: seq<int>, b: seq<int>, i: nat)
    requires i < |b|
    ensures UnitAt(a + b, |a| + i)
            == if UnitAt(b, i).Err? then UnitAt(b, i) else Ok(Unit(UnitAt(b, i).value.byte, |a| + UnitAt(b, i).value.next))
  {
    var line := a + b;
    assert line[|a| + i] == b[i] && (i + 1 < |b| ==> line[|a| + i + 1] == b[i + 1]);
    assert i + 3 < |b| ==> line[|a| + i + 2] == b[i + 2] && line[|a| + i + 3] == b[i + 3];
  }
  /** Unescaping undoes escaping, for every byte string. */
  lemma {:induction false} UnescapeEscaped(raw: seq<int>)
    requires IsBytes(raw)
    ensures Unescaped(Escaped(raw)) == Ok(raw)
  {
    if raw == [] {
    } else {
      UnescapeEscaped(raw[1..]);
      UnescapedByte(raw[0]);
      hide EscapeByte, UnescapedFrom;
      UnescapedAppend(EscapeByte(raw[0]), Escaped(raw[1..]), 0);
      assert [raw[0]] + raw[1..] == raw;
    }
  }

  /** Escaped text never holds the line separator, and is empty only for no bytes. */
  lemma EscapedByte(b: int)
    requires IsByte(b)
    ensures LINE_SEP !in EscapeByte(b) && IsBytes(EscapeByte(b)) && EscapeByte(b) != []
  {
  }

  lemma {:induction false} EscapedIsOneLine(raw: seq<int>)
    requires IsBytes(raw)
    ensures LINE_SEP !in Escaped(raw)
    ensures IsBytes(Escaped(raw))
    ensures Escaped(raw) == [] <==> raw == []
  {
    hide EscapeByte;
    if raw == [] {
    } else {
      EscapedByte(raw[0]);
      EscapedIsOneLine(raw[1..]);
    }
  }

  /** Reading is more lenient than writing: both spellings of a control byte are read. */
  lemma LenientHex()
    ensures Unescaped([BACKSLASH, 'x' as int, ' ' as int, '1' as int]) == Ok([1])
    ensures Unescaped(Escaped([1])) == Ok([1])
    ensures Escaped([1]) != [BACKSLASH, 'x' as int, ' ' as int, '1' as int]
  {
    var line := [BACKSLASH, 'x' as int, ' ' as int, '1' as int];
    assert UnescapedFrom(line, 4) == Ok([]);
    assert UnitAt(line, 0) == Ok(Unit(1, 4));
    UnescapeEscaped([1]);
  }

  // ---- the escape table, byte by byte ----

  /** What is written for each byte: a backslash and a letter for nine of them, a backslash,
      an x and two lowercase hex digits for the other control bytes, and the byte itself
      for all the rest. */
  lemma EscapeTable(b: int)
    requires IsByte(b)
    ensures b == 0x5C ==> Escaped([b]) == [0x5C, 0x5C]
    ensures b == 0x09 ==> Escaped([b]) == [0x5C, 0x74]
    ensures b == 0x0A ==> Escaped([b]) == [0x5C, 0x6E]
    ensures b == 0x0D ==> Escaped([b]) == [0x5C, 0x72]
    ensures b == 0x07 ==> Escaped([b]) == [0x5C, 0x61]
    ensures b == 0x08 ==> Escaped([b]) == [0x5C, 0x62]
    ensures b == 0x0B ==> Escaped([b]) == [0x5C, 0x76]
    ensures b == 0x0C ==> Escaped([b]) == [0x5C, 0x66]
    ensures b == 0x00 ==> Escaped([b]) == [0x5C, 0x30]
    ensures 0x01 <= b <= 0x06 || 0x0E <= b <= 0x1F || b == 0x7F ==>
      Escaped([b]) == [0x5C, 0x78, 0x30 + b / 16, if b % 16 <= 9 then 0x30 + b % 16 else 0x61 + b % 16 - 10]
    ensures (0x20 <= b <= 0x7E && b != 0x5C) || 0x80 <= b ==> Escaped([b]) == [b]
  {
    assert Escaped([b]) == EscapeByte(b) by { assert [b][1..] == [] && EscapeByte(b) + [] == EscapeByte(b); }
  }

  /** A line is escaped byte by byte. */
  lemma {:induction false} EscapedAppend(a: seq<int>, b: seq<int>)
    requires IsBytes(a) && IsBytes(b)
    ensures IsBytes(a + b) && Escaped(a + b) == Escaped(a) + Escaped(b)
  {
    hide EscapeByte;
    if a == [] {
      assert a + b == b;
    } else {
      EscapedAppend(a[1..], b);
      assert (a + b)[1..] == a[1..] + b;
      AppendAssoc(EscapeByte(a[0]), Escaped(a[1..]), Escaped(b));
    }
  }

  predicate IsHexDigit(c: int) { 0x30 <= c <= 0x39 || 0x41 <= c <= 0x46 || 0x61 <= c <= 0x66 }

  function DigitOf(c: int): int
    requires IsHexDigit(c)
  {
    if c <= 0x39 then c - 0x30 else if c <= 0x46 then c - 0x41 + 10 else c - 0x61 + 10
  }

  predicate IsBlank(c: int) { c in {0x09, 0x0A, 0x0B, 0x0C, 0x0D, 0x20} }

  /** What is read for each single escape without hex text: plain bytes stand for
      themselves and nine letters for their bytes. Anything else is refused. */
  lemma UnescapeTable(c: int)
    ensures c != 0x5C ==> Unescaped([c]) == Ok([c])
    ensures Unescaped([0x5C]).Err? && Unescaped([0x5C, 0x78]).Err? && Unescaped([0x5C, 0x78, c]).Err?
    ensures c == 0x5C ==> Unescaped([0x5C, c]) == Ok([0x5C])
    ensures c == 0x74 ==> Unescaped([0x5C, c]) == Ok([0x09])
    ensures c == 0x6E ==> Unescaped([0x5C, c]) == Ok([0x0A])
    ensures c == 0x72 ==> Unescaped([0x5C, c]) == Ok([0x0D])
    ensures c == 0x61 ==> Unescaped([0x5C, c]) == Ok([0x07])
    ensures c == 0x62 ==> Unescaped([0x5C, c]) == Ok([0x08])
    ensures c == 0x76 ==> Unescaped([0x5C, c]) == Ok([0x0B])
    ensures c == 0x66 ==> Unescaped([0x5C, c]) == Ok([0x0C])
    ensures c == 0x30 ==> Unescaped([0x5C, c]) == Ok([0x00])
    ensures c !in {0x5C, 0x74, 0x6E, 0x72, 0x61, 0x62, 0x76, 0x66, 0x30} ==> Unescaped([0x5C, c]).Err?
  {
    hide Unescaped, UnescapedFrom;
    WholeUnit([c]);
    WholeUnit([0x5C]);
    WholeUnit([0x5C, 0x78]);
    WholeUnit([0x5C, 0x78, c]);
    WholeUnit([0x5C, c]);
  }

  /** Hex text is read as an integer parser reads it: two digits, a digit behind a plus sign
      or a blank, a digit in front of a blank, or minus zero; anything else is refused. */
  lemma HexTable(c: int, d: int)
    ensures IsHexDigit(c) && IsHexDigit(d) ==> Unescaped([0x5C, 0x78, c, d]) == Ok([16 * DigitOf(c) + DigitOf(d)])
    ensures (c == 0x2B || IsBlank(c)) && IsHexDigit(d) ==> Unescaped([0x5C, 0x78, c, d]) == Ok([DigitOf(d)])
    ensures IsHexDigit(c) && IsBlank(d) ==> Unescaped([0x5C, 0x78, c, d]) == Ok([DigitOf(c)])
    ensures c == 0x2D && d == 0x30 ==> Unescaped([0x5C, 0x78, c, d]) == Ok([0])
    ensures Unescaped([0x5C, 0x78, c, d]).Ok? ==>
      || (IsHexDigit(c) && (IsHexDigit(d) || IsBlank(d)))
      || ((c == 0x2B || IsBlank(c)) && IsHexDigit(d)) || (c == 0x2D && d == 0x30)
  {
    hide Unescaped, UnescapedFrom;
    WholeUnit([0x5C, 0x78, c, d]);
  }

  /** An unknown escape, or a hex escape that is no number below 256, is refused whatever
      follows it. */
  lemma MalformedRefused(c: int, d: int, rest: seq<int>)
    ensures c !in {0x5C, 0x74, 0x6E, 0x72, 0x61, 0x62, 0x76, 0x66, 0x30, 0x78} ==> Unescaped([0x5C, c] + rest).Err?
    ensures Unescaped([0x5C, 0x78, c, d] + rest).Ok? ==>
      || (IsHexDigit(c) && (IsHexDigit(d) || IsBlank(d)))
      || ((c == 0x2B || IsBlank(c)) && IsHexDigit(d)) || (c == 0x2D && d == 0x30)
  {
    hide Unescaped, UnescapedFrom;
    WholeUnit([0x5C, c] + rest);
    WholeUnit([0x5C, 0x78, c, d] + rest);
  }
}
