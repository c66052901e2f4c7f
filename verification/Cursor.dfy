/** The opaque page cursor (internal/service/feed_service.go:23-47): two decimal numbers joined by an
    underscore, in padded base64url (section 5 of RFC 4648).  Strings are byte sequences, as in Go. */
module Cursor {
  import opened Model

  datatype PageCursor = PageCursor(time: int, id: int)

  const UNDERSCORE: Byte := 95
  const MINUS: Byte := 45
  const PLUS: Byte := 43
  const ZERO: Byte := 48
  const PAD: Byte := 61

  /** Conversion of an exact integer to int64, as UnixNano's arithmetic does. */
  function Wrap64(n: int): (r: int)
    ensures InInt64(r) && (r == n <==> InInt64(n)) && (n - r) % 0x1_0000_0000_0000_0000 == 0
  {
    (n + TWO63) % TWO64 - TWO63
  }

  // ---------- Decimal ----------

  function Digits(n: nat): seq<Byte> {
    if n < 10 then [ZERO + n] else Digits(n / 10) + [ZERO + n % 10]
  }

  /** fmt's %d. */
  function PrintInt(n: int): seq<Byte> {
    if n < 0 then [MINUS] + Digits(-n) else Digits(n)
  }

  predicate IsDigit(b: Byte) {
    ZERO <= b <= ZERO + 9
  }

  function ParseDigits(s: seq<Byte>): Option<nat> {
    if s == [] then Some(0)
    else
      var last := s[|s| - 1];
      match ParseDigits(s[..|s| - 1])
      case Some(n) => if IsDigit(last) then Some(10 * n + (last - ZERO)) else None
      case None => None
  }

  /** strconv.ParseInt(s, 10, 64): an optional sign, at least one digit, and a value within int64. */
  function ParseInt(s: seq<Byte>): Option<int> {
    if s == [] then None
    else
      var signed := s[0] == MINUS || s[0] == PLUS;
      var digits := if signed then s[1..] else s;
      if digits == [] then None
      else
        match ParseDigits(digits)
        case None => None
        case Some(n) =>
          if s[0] == MINUS then (if InInt64(0 - n) then Some(0 - n) else None)
          else if InInt64(n) then Some(n) else None
  }

  lemma {:induction false} ParsePrintedDigits(n: nat)
    ensures ParseDigits(Digits(n)) == Some(n) && Digits(n) != []
    ensures forall i :: 0 <= i < |Digits(n)| ==> IsDigit(Digits(n)[i])
  {
    if n < 10 {
      assert ParseDigits([ZERO + n][..0]) == Some(0);
    } else {
      ParsePrintedDigits(n / 10);
      assert Digits(n)[..|Digits(n)| - 1] == Digits(n / 10);
    }
  }

  lemma ParsePrintedInt(n: int)
    ensures ParseInt(PrintInt(n)) == if InInt64(n) then Some(n) else None
    ensures forall i :: 0 <= i < |PrintInt(n)| ==> IsDigit(PrintInt(n)[i]) || PrintInt(n)[i] == MINUS
  {
    ParsePrintedDigits(if n < 0 then -n else n);
    if n < 0 {
      var s := PrintInt(n);
      assert s[0] == MINUS && s[1..] == Digits(-n);
    } else {
      assert IsDigit(PrintInt(n)[0]);
    }
  }

  // ---------- base64url ----------

  function Letter(v: nat): Byte
    requires v < 64
  {
    if v < 26 then 65 + v else if v < 52 then 97 + v - 26 else if v < 62 then ZERO + v - 52
    else if v == 62 then MINUS else UNDERSCORE
  }

  const UPPER := "ABCDEFGHIJKLMNOPQRSTUVWXYZ"
  const LOWER := "abcdefghijklmnopqrstuvwxyz"
  const OTHERS := "0123456789-_"

  /** The letters are those of table 2 in section 5 of RFC 4648. */
  lemma LetterOfAlphabet(v: nat)
    requires v < 64
    ensures |UPPER| == |LOWER| == 26 && |OTHERS| == 12
    ensures v < 26 ==> Letter(v) == UPPER[v] as int
    ensures 26 <= v < 52 ==> Letter(v) == LOWER[v - 26] as int
    ensures 52 <= v ==> Letter(v) == OTHERS[v - 52] as int
  {
  }

  function Value(b: Byte): Option<nat> {
    if 65 <= b < 91 then Some(b - 65)
    else if 97 <= b < 123 then Some(b - 97 + 26)
    else if IsDigit(b) then Some(b - ZERO + 52)
    else if b == MINUS then Some(62)
    else if b == UNDERSCORE then Some(63)
    else None
  }

  lemma LetterValue(v: nat)
    requires v < 64
    ensures Value(Letter(v)) == Some(v) && Letter(v) != PAD && Letter(v) != 10 && Letter(v) != 13
  {
  }

  function Encode64(bs: seq<Byte>): seq<Byte> {
    if |bs| == 0 then []
    else if |bs| == 1 then [Letter(bs[0] / 4), Letter(bs[0] % 4 * 16), PAD, PAD]
    else if |bs| == 2 then
      [Letter(bs[0] / 4), Letter(bs[0] % 4 * 16 + bs[1] / 16), Letter(bs[1] % 16 * 4), PAD]
    else
      [Letter(bs[0] / 4), Letter(bs[0] % 4 * 16 + bs[1] / 16), Letter(bs[1] % 16 * 4 + bs[2] / 64), Letter(bs[2] % 64)]
      + Encode64(bs[3..])
  }

  /** The decoder skips carriage returns and line feeds. */
  function StripBreaks(s: seq<Byte>): seq<Byte> {
    if s == [] then []
    else (if s[0] == 10 || s[0] == 13 then [] else [s[0]]) + StripBreaks(s[1..])
  }

  function First(a: nat, b: nat): Byte
    requires a < 64 && b < 64
  {
    a * 4 + b / 16
  }

  function Second(b: nat, c: nat): Byte
    requires b < 64 && c < 64
  {
    b % 16 * 16 + c / 4
  }

  function Third(c: nat, d: nat): Byte
    requires c < 64 && d < 64
  {
    c % 4 * 64 + d
  }

  /** Groups of four; padding only at the very end; spare bits are ignored. */
  function DecodeGroups(s: seq<Byte>): Option<seq<Byte>> {
    if s == [] then Some([])
    else if |s| < 4 then None
    else
      match (Value(s[0]), Value(s[1]), Value(s[2]), Value(s[3]))
      case (Some(a), Some(b), Some(c), Some(d)) =>
        (match DecodeGroups(s[4..])
         case Some(rest) => Some([First(a, b), Second(b, c), Third(c, d)] + rest)
         case None => None)
      case (Some(a), Some(b), Some(c), None) =>
        if s[3] == PAD && |s| == 4 then Some([First(a, b), Second(b, c)]) else None
      case (Some(a), Some(b), None, None) =>
        if s[2] == PAD && s[3] == PAD && |s| == 4 then Some([First(a, b)]) else None
      case _ => None
  }

  function Decode64(s: seq<Byte>): Option<seq<Byte>> {
    DecodeGroups(StripBreaks(s))
  }

  lemma {:induction false} NoBreaks(s: seq<Byte>)
    requires NoBreak(s)
    ensures StripBreaks(s) == s
  {
    if s != [] {
      NoBreaks(s[1..]);
    }
  }

  /** Three bytes as four six-bit numbers, and back. */
  lemma GroupOfThree(x: Byte, y: Byte, z: Byte) returns (a: nat, b: nat, c: nat, d: nat)
    ensures a == x / 4 && b == x % 4 * 16 + y / 16 && c == y % 16 * 4 + z / 64 && d == z % 64
    ensures a < 64 && b < 64 && c < 64 && d < 64
    ensures First(a, b) == x && Second(b, c) == y && Third(c, d) == z
  {
    a, b, c, d := x / 4, x % 4 * 16 + y / 16, y % 16 * 4 + z / 64, z % 64;
  }

  function Group(x: Byte, y: Byte, z: Byte): seq<Byte> {
    [Letter(x / 4), Letter(x % 4 * 16 + y / 16), Letter(y % 16 * 4 + z / 64), Letter(z % 64)]
  }

  predicate NoBreak(s: seq<Byte>) {
    forall i :: 0 <= i < |s| ==> s[i] != 10 && s[i] != 13
  }

  lemma FourLetters(a: nat, b: nat, c: nat, d: nat, rest: seq<Byte>)
    requires a < 64 && b < 64 && c < 64 && d < 64 && DecodeGroups(rest).Some?
    ensures var s := [Letter(a), Letter(b), Letter(c), Letter(d)];
            && DecodeGroups(s + rest) == Some([First(a, b), Second(b, c), Third(c, d)] + DecodeGroups(rest).value)
            && NoBreak(s)
  {
    LetterValue(a);
    LetterValue(b);
    LetterValue(c);
    LetterValue(d);
    var s := [Letter(a), Letter(b), Letter(c), Letter(d)] + rest;
    assert s[4..] == rest;
  }

  lemma ThreeLetters(a: nat, b: nat, c: nat)
    requires a < 64 && b < 64 && c < 64
    ensures var s := [Letter(a), Letter(b), Letter(c), PAD];
            DecodeGroups(s) == Some([First(a, b), Second(b, c)]) && NoBreak(s)
  {
    LetterValue(a);
    LetterValue(b);
    LetterValue(c);
    assert Value(PAD) == None;
  }

  lemma TwoLetters(a: nat, b: nat)
    requires a < 64 && b < 64
    ensures var s := [Letter(a), Letter(b), PAD, PAD]; DecodeGroups(s) == Some([First(a, b)]) && NoBreak(s)
  {
    LetterValue(a);
    LetterValue(b);
    assert Value(PAD) == None;
  }

  lemma GroupLetters(x: Byte, y: Byte, z: Byte, a: nat, b: nat, c: nat, d: nat)
    requires a == x / 4 && b == x % 4 * 16 + y / 16 && c == y % 16 * 4 + z / 64 && d == z % 64
    requires a < 64 && b < 64 && c < 64 && d < 64
    ensures Group(x, y, z) == [Letter(a), Letter(b), Letter(c), Letter(d)]
  {
  }

  lemma DecodeGroup(x: Byte, y: Byte, z: Byte, rest: seq<Byte>)
    requires DecodeGroups(rest).Some?
    ensures DecodeGroups(Group(x, y, z) + rest) == Some([x, y, z] + DecodeGroups(rest).value)
    ensures NoBreak(Group(x, y, z))
  {
    var a, b, c, d := GroupOfThree(x, y, z);
    GroupLetters(x, y, z, a, b, c, d);
    FourLetters(a, b, c, d, rest);
  }

  lemma GroupOfOne(x: Byte) returns (a: nat, b: nat)
    ensures a == x / 4 && b == x % 4 * 16 && a < 64 && b < 64 && First(a, b) == x
  {
    a, b := x / 4, x % 4 * 16;
  }

  lemma GroupOfTwo(x: Byte, y: Byte) returns (a: nat, b: nat, c: nat)
    ensures a == x / 4 && b == x % 4 * 16 + y / 16 && c == y % 16 * 4
    ensures a < 64 && b < 64 && c < 64 && First(a, b) == x && Second(b, c) == y
  {
    a, b, c := x / 4, x % 4 * 16 + y / 16, y % 16 * 4;
  }

  lemma EncodeOne(x: Byte, a: nat, b: nat)
    requires a == x / 4 && b == x % 4 * 16 && a < 64 && b < 64
    ensures Encode64([x]) == [Letter(a), Letter(b), PAD, PAD]
  {
  }

  lemma EncodeTwo(x: Byte, y: Byte, a: nat, b: nat, c: nat)
    requires a == x / 4 && b == x % 4 * 16 + y / 16 && c == y % 16 * 4 && a < 64 && b < 64 && c < 64
    ensures Encode64([x, y]) == [Letter(a), Letter(b), Letter(c), PAD]
  {
  }

  lemma DecodeOne(x: Byte)
    ensures DecodeGroups(Encode64([x])) == Some([x]) && NoBreak(Encode64([x]))
  {
    var a, b := GroupOfOne(x);
    EncodeOne(x, a, b);
    TwoLetters(a, b);
  }

  lemma DecodeTwo(x: Byte, y: Byte)
    ensures DecodeGroups(Encode64([x, y])) == Some([x, y]) && NoBreak(Encode64([x, y]))
  {
    var a, b, c := GroupOfTwo(x, y);
    EncodeTwo(x, y, a, b, c);
    ThreeLetters(a, b, c);
  }

  lemma {:induction false} DecodeEncoded(bs: seq<Byte>)
    ensures DecodeGroups(Encode64(bs)) == Some(bs)
    ensures NoBreak(Encode64(bs))
  {
    if |bs| == 1 {
      DecodeOne(bs[0]);
      assert bs == [bs[0]];
    } else if |bs| == 2 {
      DecodeTwo(bs[0], bs[1]);
      assert bs == [bs[0], bs[1]];
    } else if |bs| > 2 {
      DecodeEncoded(bs[3..]);
      DecodeGroup(bs[0], bs[1], bs[2], Encode64(bs[3..]));
      assert Encode64(bs) == Group(bs[0], bs[1], bs[2]) + Encode64(bs[3..]);
      assert bs == [bs[0], bs[1], bs[2]] + bs[3..];
    }
  }

  /** Three bytes are one 24-bit number, written as four letters from the most significant six bits down. */
  lemma EncodedThree(x: Byte, y: Byte, z: Byte) returns (a: nat, b: nat, c: nat, d: nat)
    ensures a < 64 && b < 64 && c < 64 && d < 64
    ensures Encode64([x, y, z]) == [Letter(a), Letter(b), Letter(c), Letter(d)]
    ensures a * 0x4_0000 + b * 0x1000 + c * 0x40 + d == x as int * 0x1_0000 + y as int * 0x100 + z as int
  {
    a, b, c, d := GroupOfThree(x, y, z);
    GroupLetters(x, y, z, a, b, c, d);
    assert [x, y, z][3..] == [] && Encode64([x, y, z]) == Group(x, y, z) + Encode64([]);
  }

  /** One or two bytes at the end are filled up with zero bits and padding. */
  lemma EncodedTwo(x: Byte, y: Byte) returns (a: nat, b: nat, c: nat)
    ensures a < 64 && b < 64 && c < 64 && Encode64([x, y]) == [Letter(a), Letter(b), Letter(c), PAD]
    ensures a * 0x1000 + b * 0x40 + c == (x as int * 0x100 + y as int) * 4
  {
    a, b, c := GroupOfTwo(x, y);
    EncodeTwo(x, y, a, b, c);
  }

  lemma EncodedOne(x: Byte) returns (a: nat, b: nat)
    ensures a < 64 && b < 64 && Encode64([x]) == [Letter(a), Letter(b), PAD, PAD] && a * 0x40 + b == x as int * 16
  {
    a, b := GroupOfOne(x);
    EncodeOne(x, a, b);
  }

  /** Groups of three bytes are encoded one after the other. */
  lemma EncodedGroups(x: Byte, y: Byte, z: Byte, rest: seq<Byte>)
    ensures Encode64([x, y, z] + rest) == Encode64([x, y, z]) + Encode64(rest)
  {
    var bs := [x, y, z] + rest;
    assert bs[3..] == rest && Encode64(bs) == Group(x, y, z) + Encode64(rest);
    assert [x, y, z][3..] == [] && Encode64([x, y, z]) == Group(x, y, z) + Encode64([]);
  }

  /** base64url decoding undoes encoding, for every byte string. */
  lemma Base64RoundTrip(bs: seq<Byte>)
    ensures Decode64(Encode64(bs)) == Some(bs)
  {
    DecodeEncoded(bs);
    NoBreaks(Encode64(bs));
  }

  /** A line break anywhere in the text changes nothing. */
  lemma BreaksIgnored(a: seq<Byte>, c: Byte, b: seq<Byte>)
    requires c == 10 || c == 13
    ensures Decode64(a + ([c] + b)) == Decode64(a + b)
  {
    StripJoins(a, [c] + b);
    StripJoins(a, b);
    StripOne(c, b);
    assert StripBreaks([c] + b) == StripBreaks(b);
  }

  lemma {:induction false} StripJoins(a: seq<Byte>, b: seq<Byte>)
    ensures StripBreaks(a + b) == StripBreaks(a) + StripBreaks(b)
  {
    if a == [] {
      assert a + b == b;
    } else {
      var head := if a[0] == 10 || a[0] == 13 then [] else [a[0]];
      StripJoins(a[1..], b);
      StripOne(a[0], a[1..] + b);
      StripOne(a[0], a[1..]);
      assert a + b == [a[0]] + (a[1..] + b) && a == [a[0]] + a[1..];
      assert (head + StripBreaks(a[1..])) + StripBreaks(b) == head + (StripBreaks(a[1..]) + StripBreaks(b));
    }
  }

  lemma StripOne(c: Byte, rest: seq<Byte>)
    ensures StripBreaks([c] + rest) == (if c == 10 || c == 13 then [] else [c]) + StripBreaks(rest)
  {
    assert ([c] + rest)[0] == c && ([c] + rest)[1..] == rest;
  }

  predicate IsLetter(b: Byte) {
    Value(b).Some?
  }

  /** All letters, but for the fourth, or the third and fourth, which may be padding. */
  predicate LastGroup(s: seq<Byte>)
    requires |s| == 4
  {
    && IsLetter(s[0]) && IsLetter(s[1]) && (IsLetter(s[2]) || s[2] == s[3] == PAD) && (IsLetter(s[3]) || s[3] == PAD)
  }

  lemma OneGroup(s: seq<Byte>)
    requires |s| == 4
    ensures DecodeGroups(s).Some? <==> LastGroup(s)
  {
    assert Value(PAD) == None && s[4..] == [];
  }

  lemma FirstGroup(s: seq<Byte>)
    requires |s| > 4
    ensures DecodeGroups(s).Some? <==>
            IsLetter(s[0]) && IsLetter(s[1]) && IsLetter(s[2]) && IsLetter(s[3]) && DecodeGroups(s[4..]).Some?
  {
  }

  /** The first n characters are letters. */
  ghost predicate Letters(s: seq<Byte>, n: int)
    requires n <= |s|
  {
    forall i :: 0 <= i < n ==> IsLetter(s[i])
  }

  lemma LettersSplit(s: seq<Byte>)
    requires |s| >= 8
    ensures Letters(s, |s| - 4) <==>
            IsLetter(s[0]) && IsLetter(s[1]) && IsLetter(s[2]) && IsLetter(s[3]) && Letters(s[4..], |s| - 8)
  {
    assert forall i :: 4 <= i < |s| ==> s[i] == s[4..][i - 4];
  }

  /** Groups of four letters, of which the last may end in padding. */
  ghost predicate Base64Text(s: seq<Byte>) {
    |s| % 4 == 0 && (|s| > 0 ==> Letters(s, |s| - 4) && LastGroup(s[|s| - 4..]))
  }

  lemma TextStep(s: seq<Byte>)
    requires |s| >= 8
    ensures Base64Text(s) <==>
            IsLetter(s[0]) && IsLetter(s[1]) && IsLetter(s[2]) && IsLetter(s[3]) && Base64Text(s[4..])
  {
    LettersSplit(s);
    assert s[4..][|s| - 8..] == s[|s| - 4..];
  }

  lemma ShortText(s: seq<Byte>)
    requires 0 < |s| < 8 && |s| != 4
    ensures DecodeGroups(s) == None && !Base64Text(s)
  {
    if |s| > 4 { assert DecodeGroups(s[4..]) == None; }
  }

  /** What base64url decoding takes, breaks aside. */
  lemma {:induction false} Base64Accepts(s: seq<Byte>)
    ensures DecodeGroups(s).Some? <==> Base64Text(s)
  {
    if |s| >= 8 {
      FirstGroup(s);
      TextStep(s);
      Base64Accepts(s[4..]);
    } else if |s| == 4 {
      OneGroup(s);
      assert s[0..] == s;
    } else if |s| > 0 {
      ShortText(s);
    }
  }

  // ---------- The cursor ----------

  /** Index of the first underscore, or the length. */
  function FirstUnderscore(s: seq<Byte>): (i: nat)
    ensures i <= |s| && (i < |s| ==> s[i] == UNDERSCORE)
    ensures forall j :: 0 <= j < i ==> s[j] != UNDERSCORE
  {
    if s == [] || s[0] == UNDERSCORE then 0 else 1 + FirstUnderscore(s[1..])
  }

  /** `t` is the exact number of nanoseconds since the epoch. */
  function EncodeCursor(t: int, id: int): seq<Byte> {
    Encode64(PrintInt(Wrap64(t)) + [UNDERSCORE] + PrintInt(id))
  }

  function DecodeCursor(s: seq<Byte>): Result<PageCursor> {
    match Decode64(s)
    case None => Err(BadRequest(40005))
    case Some(raw) =>
      var i := FirstUnderscore(raw);
      if i == |raw| then Err(BadRequest(40005))
      else
        match (ParseInt(raw[..i]), ParseInt(raw[i + 1..]))
        case (Some(nano), Some(id)) => Ok(PageCursor(nano, id))
        case _ => Err(BadRequest(40005))
  }

  /** The two numbers are found again around the first underscore. */
  lemma SplitAgain(a: seq<Byte>, b: seq<Byte>)
    requires UNDERSCORE !in a
    ensures var raw := a + [UNDERSCORE] + b;
            FirstUnderscore(raw) == |a| && raw[..|a|] == a && raw[|a| + 1..] == b
  {
    var raw := a + [UNDERSCORE] + b;
    assert raw[|a|] == UNDERSCORE;
    assert forall j :: 0 <= j < |a| ==> raw[j] == a[j] && a[j] in a;
  }

  /** Decoding an encoded cursor returns the id and the nanoseconds reduced to int64, so it returns the
      very pair exactly for the times int64 nanoseconds can express. */
  lemma CursorRoundTrip(t: int, id: int)
    requires InInt64(id)
    ensures DecodeCursor(EncodeCursor(t, id)) == Ok(PageCursor(Wrap64(t), id))
    ensures DecodeCursor(EncodeCursor(t, id)) == Ok(PageCursor(t, id)) <==> InInt64(t)
  {
    var a, b := PrintInt(Wrap64(t)), PrintInt(id);
    ParsePrintedInt(Wrap64(t));
    ParsePrintedInt(id);
    Base64RoundTrip(a + [UNDERSCORE] + b);
    SplitAgain(a, b);
  }

  /** The text in a cursor: the nanoseconds in decimal, an underscore, and the id in decimal. */
  lemma CursorText(t: int, id: int)
    requires InInt64(id)
    ensures var raw := Decode64(EncodeCursor(t, id));
            && raw.Some?
            && exists i :: 0 <= i < |raw.value| && raw.value[i] == 95
                 && ParseInt(raw.value[..i]) == Some(Wrap64(t)) && ParseInt(raw.value[i + 1..]) == Some(id)
  {
    var a, b := PrintInt(Wrap64(t)), PrintInt(id);
    ParsePrintedInt(Wrap64(t));
    ParsePrintedInt(id);
    Base64RoundTrip(a + [UNDERSCORE] + b);
    SplitAgain(a, b);
    assert (a + [UNDERSCORE] + b)[|a|] == UNDERSCORE;
  }

  lemma KnownText()
    ensures PrintInt(-12) + [UNDERSCORE] + PrintInt(-3) == [45, 49, 50, 95, 45, 51]
  {
    assert PrintInt(-12) == [45, 49, 50] && PrintInt(-3) == [45, 51];
  }

  lemma KnownGroups()
    ensures Encode64([45, 49, 50]) == [76, 84, 69, 121] && Encode64([95, 45, 51]) == [88, 121, 48, 122]
  {
    assert [45, 49, 50][3..] == [] && [95, 45, 51][3..] == [];
  }

  /** A known cursor: "LTEyXy0z" stands for "-12_-3". */
  lemma KnownCursor()
    ensures EncodeCursor(-12, -3) == [76, 84, 69, 121, 88, 121, 48, 122]
  {
    KnownText();
    KnownGroups();
    EncodedGroups(45, 49, 50, [95, 45, 51]);
    assert [45, 49, 50] + [95, 45, 51] == [45, 49, 50, 95, 45, 51];
    assert [76, 84, 69, 121] + [88, 121, 48, 122] == [76, 84, 69, 121, 88, 121, 48, 122];
  }

  /** What ParseInt takes: at least one digit, after at most one sign.  Up to eighteen such characters always
      fit. */
  lemma ParseShape(s: seq<Byte>)
    ensures var signed := s != [] && (s[0] == 43 || s[0] == 45);
            var shape := (if signed then |s| > 1 else |s| > 0)
                         && forall i :: (if signed then 1 else 0) <= i < |s| ==> 48 <= s[i] <= 57;
            && (ParseInt(s).Some? ==> shape && InInt64(ParseInt(s).value))
            && (shape && |s| <= 18 ==> ParseInt(s).Some?)
  {
    if s != [] {
      var digits := if s[0] == MINUS || s[0] == PLUS then s[1..] else s;
      DigitsShape(digits);
    }
  }

  lemma {:induction false} DigitsShape(s: seq<Byte>)
    ensures ParseDigits(s).Some? <==> forall i :: 0 <= i < |s| ==> IsDigit(s[i])
    ensures ParseDigits(s).Some? ==> ParseDigits(s).value < Pow10(|s|)
    ensures |s| <= 18 ==> Pow10(|s|) <= 1_000_000_000_000_000_000
  {
    if s != [] { DigitsShape(s[..|s| - 1]); }
    if |s| <= 18 {
      PowGrows(|s|, 18);
      EighteenDigits();
    }
  }

  function Pow10(n: nat): nat {
    if n == 0 then 1 else 10 * Pow10(n - 1)
  }

  lemma EighteenDigits()
    ensures Pow10(18) == 1_000_000_000_000_000_000
  {
    assert Pow10(2) == 100 && Pow10(4) == 10_000 && Pow10(6) == 1_000_000 && Pow10(8) == 100_000_000;
    assert Pow10(10) == 10_000_000_000 && Pow10(12) == 1_000_000_000_000 && Pow10(14) == 100_000_000_000_000;
    assert Pow10(16) == 10_000_000_000_000_000;
  }

  lemma {:induction false} PowGrows(a: nat, b: nat)
    requires a <= b
    ensures Pow10(a) <= Pow10(b)
  {
    if a < b { PowGrows(a, b - 1); }
  }

  /** Different positions have different cursors. */
  lemma CursorInjective(t: int, id: int, t': int, id': int)
    requires InInt64(t) && InInt64(id) && InInt64(t') && InInt64(id')
    requires EncodeCursor(t, id) == EncodeCursor(t', id')
    ensures t == t' && id == id'
  {
    CursorRoundTrip(t, id);
    CursorRoundTrip(t', id');
  }

  lemma NoUnderscore(s: seq<Byte>)
    requires ParseInt(s).Some?
    ensures UNDERSCORE !in s
  {
    ParseShape(s);
  }

  /** The text is split at i into these numbers. */
  ghost predicate SplitsAt(raw: seq<Byte>, i: nat, nano: int, id: int) {
    i < |raw| && raw[i] == 95 && ParseInt(raw[..i]) == Some(nano) && ParseInt(raw[i + 1..]) == Some(id)
  }

  lemma TextTaken(s: seq<Byte>, raw: seq<Byte>, nano: int, id: int)
    requires Decode64(s) == Some(raw)
    ensures DecodeCursor(s) == Ok(PageCursor(nano, id)) <==> SplitsAt(raw, FirstUnderscore(raw), nano, id)
  {
  }

  /** A cursor is taken iff its text has an underscore with a number on either side. */
  lemma CursorAccepts(s: seq<Byte>, nano: int, id: int)
    ensures DecodeCursor(s) == Ok(PageCursor(nano, id)) <==>
            Decode64(s).Some? && exists i :: SplitsAt(Decode64(s).value, i, nano, id)
  {
    if Decode64(s).Some? {
      var raw := Decode64(s).value;
      TextTaken(s, raw, nano, id);
      if i :| SplitsAt(raw, i, nano, id) { FirstOne(raw, i); }
    } else {
      assert DecodeCursor(s).Err?;
    }
  }

  lemma FirstOne(raw: seq<Byte>, i: nat)
    requires i < |raw| && raw[i] == UNDERSCORE && ParseInt(raw[..i]).Some?
    ensures FirstUnderscore(raw) == i
  {
    NoUnderscore(raw[..i]);
    assert forall j :: 0 <= j < i ==> raw[j] == raw[..i][j] && raw[..i][j] in raw[..i];
  }

  /** Whatever a client sends, decoding either refuses with code 40005 or gives an int64 position. */
  lemma DecodedIsInt64(s: seq<Byte>)
    ensures match DecodeCursor(s)
            case Ok(c) => InInt64(c.time) && InInt64(c.id)
            case Err(e) => e == BadRequest(40005)
  {
  }
}
