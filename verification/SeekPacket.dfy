/**
  Recognising seek commands: AESDCHAR_IOCSEEKTO:X,Y. The C library's strncpy, strtok and strtol
  are modelled by what sections 7.24.2.4, 7.24.5.8 and 7.22.1.4 of ISO C11 say, in the C locale
  and with a 64-bit long.
 */
module SeekPacket {
  import opened Bytes

  const PREFIX: seq<byte> := [65, 69, 83, 68, 67, 72, 65, 82, 95, 73, 79, 67, 83, 69, 69, 75, 84, 79, 58]
  const PREFIX_LENGTH: nat := 19

  const NUL: byte := 0
  const COMMA: byte := 44
  const PLUS: byte := 43
  const MINUS: byte := 45
  const ZERO: byte := 48
  const NINE: byte := 57

  const LONG_MAX := 0x7FFF_FFFF_FFFF_FFFF
  const LONG_MIN := -0x8000_0000_0000_0000
  const UINT32_MAX := 0xFFFF_FFFF

  // ---------------------------------------------------------------- the C library

  /** How many bytes at the front of s are not b. */
  function SpanNot(s: seq<byte>, b: byte): (k: nat)
    ensures k <= |s|
    ensures forall i :: 0 <= i < k ==> s[i] != b
    ensures k < |s| ==> s[k] == b
  {
    if s == [] || s[0] == b then 0 else 1 + SpanNot(s[1..], b)
  }

  lemma {:induction false} SpanNotIs(s: seq<byte>, b: byte, k: nat)
    requires k <= |s| && (forall i :: 0 <= i < k ==> s[i] != b) && (k < |s| ==> s[k] == b)
    ensures SpanNot(s, b) == k
    decreases |s|
  {
    if k == 0 {
    } else {
      SpanNotIs(s[1..], b, k - 1);
    }
  }

  function SpanOf(s: seq<byte>, b: byte): (k: nat)
    ensures k <= |s|
    ensures forall i :: 0 <= i < k ==> s[i] == b
    ensures k < |s| ==> s[k] != b
  {
    if s == [] || s[0] != b then 0 else 1 + SpanOf(s[1..], b)
  }

  /** The string at the front of a character array. */
  function CString(a: seq<byte>): seq<byte> {
    a[..SpanNot(a, NUL)]
  }

  /** strncpy into an array of n bytes: short strings are padded with NUL. */
  function StrNCpy(src: seq<byte>, n: nat): (r: seq<byte>)
    requires n <= |src|
    ensures |r| == n
  {
    var s := CString(src[..n]);
    s + seq(n - |s|, _ => NUL)
  }

  /** One strtok call with separator ",": the token, and where the next call goes on. */
  function StrTok(s: seq<byte>): Option<(seq<byte>, seq<byte>)> {
    var t := s[SpanOf(s, COMMA)..];
    if t == [] then None
    else
      var k := SpanNot(t, COMMA);
      Some((t[..k], if k < |t| then t[k + 1..] else []))
  }

  /** Behind these commas comes a token up to the next comma, and behind that the rest. */
  ghost predicate TokenAfter(s: seq<byte>, commas: seq<byte>, token: seq<byte>, rest: seq<byte>) {
    && (forall i :: 0 <= i < |commas| ==> commas[i] == COMMA)
    && token != [] && COMMA !in token
    && (s == commas + token + [COMMA] + rest || (s == commas + token && rest == []))
  }

  /** The token is the first run of bytes other than commas; the next call goes on behind the comma at its end. */
  lemma StrTokExactly(s: seq<byte>)
    ensures match StrTok(s)
            case None => forall i :: 0 <= i < |s| ==> s[i] == COMMA
            case Some((token, rest)) => exists commas :: TokenAfter(s, commas, token, rest)
  {
    hide SpanOf, SpanNot;
    var n := SpanOf(s, COMMA);
    var t := s[n..];
    if t != [] {
      var k := SpanNot(t, COMMA);
      assert s == s[..n] + t;
      if k < |t| {
        assert t == t[..k] + [COMMA] + t[k + 1..];
        Regroup(s[..n], t[..k], [COMMA], t[k + 1..]);
      } else {
        assert t == t[..k];
      }
      assert TokenAfter(s, s[..n], t[..k], if k < |t| then t[k + 1..] else []);
    }
  }

  lemma Regroup(a: seq<byte>, b: seq<byte>, c: seq<byte>, d: seq<byte>)
    ensures a + (b + c + d) == a + b + c + d
  {
  }

  function TokenOf(s: seq<byte>): Option<seq<byte>> {
    match StrTok(s)
    case None => None
    case Some((token, _)) => Some(token)
  }

  function RestOf(s: seq<byte>): seq<byte> {
    match StrTok(s)
    case None => []
    case Some((_, rest)) => rest
  }

  /** A call strtok(s, ",") or strtok(NULL, ","). */
  datatype StrtokCall = Starts(s: seq<byte>) | Continues

  /** The string from strtok's position on, after these calls. */
  function PositionAfter(rest: seq<byte>, calls: seq<StrtokCall>): seq<byte> {
    if calls == [] then rest
    else match calls[|calls| - 1]
      case Starts(s) => RestOf(s)
      case Continues => RestOf(PositionAfter(rest, calls[..|calls| - 1]))
  }

  /** Only the calls since the last one that starts a string matter. */
  lemma {:induction false} PositionSinceStart(rest: seq<byte>, before: seq<StrtokCall>, s: seq<byte>,
                                              calls: seq<StrtokCall>)
    requires forall i :: 0 <= i < |calls| ==> calls[i].Continues?
    ensures PositionAfter(rest, before + [Starts(s)] + calls) == PositionAfter(RestOf(s), calls)
    decreases |calls|
  {
    hide StrTok, RestOf;
    var all := before + [Starts(s)] + calls;
    if calls == [] {
      assert all == before + [Starts(s)];
    } else {
      PositionSinceStart(rest, before, s, calls[..|calls| - 1]);
      assert all[|all| - 1] == calls[|calls| - 1];
      assert all[..|all| - 1] == before + [Starts(s)] + calls[..|calls| - 1];
    }
  }

  /** The position strtok keeps between its calls: one for the whole process, and no lock guards it. */
  class Strtok {
    var rest: seq<byte>   // the string from that position on

    constructor () {
      rest := [];
    }

    /** strtok(s, ","). */
    method First(s: seq<byte>) returns (token: Option<seq<byte>>)
      modifies this
      ensures token == TokenOf(s) && rest == RestOf(s)
    {
      token := TokenOf(s);
      rest := RestOf(s);
    }

    /** strtok(NULL, ","). */
    method Next() returns (token: Option<seq<byte>>)
      modifies this
      ensures token == TokenOf(old(rest)) && rest == RestOf(old(rest))
    {
      token := First(rest);
    }

    /** Calls of other client threads. */
    method OthersCall(calls: seq<StrtokCall>)
      modifies this
      ensures rest == PositionAfter(old(rest), calls)
    {
      for i := 0 to |calls|
        invariant rest == PositionAfter(old(rest), calls[..i])
      {
        assert calls[..i + 1][..i] == calls[..i];
        match calls[i] {
          case Starts(s) => var token := First(s);
          case Continues => var token := Next();
        }
      }
      assert calls[..|calls|] == calls;
    }
  }

  predicate IsSpace(b: byte) {
    b == 32 || 9 <= b <= 13
  }

  predicate IsDigit(b: byte) {
    ZERO <= b <= NINE
  }

  function SpanSpaces(s: seq<byte>): (k: nat)
    ensures k <= |s|
    ensures forall i :: 0 <= i < k ==> IsSpace(s[i])
    ensures k < |s| ==> !IsSpace(s[k])
  {
    if s == [] || !IsSpace(s[0]) then 0 else 1 + SpanSpaces(s[1..])
  }

  function SpanDigits(s: seq<byte>): (k: nat)
    ensures k <= |s|
    ensures forall i :: 0 <= i < k ==> IsDigit(s[i])
    ensures k < |s| ==> !IsDigit(s[k])
  {
    if s == [] || !IsDigit(s[0]) then 0 else 1 + SpanDigits(s[1..])
  }

  predicate AllDigits(s: seq<byte>) {
    forall i :: 0 <= i < |s| ==> IsDigit(s[i])
  }

  /** The value of decimal digits, most significant first. */
  function Value(digits: seq<byte>): nat
    requires AllDigits(digits)
  {
    if digits == [] then 0
    else Value(digits[..|digits| - 1]) * 10 + (digits[|digits| - 1] - ZERO) as nat
  }

  function Signed(negative: bool, digits: seq<byte>): int
    requires AllDigits(digits)
  {
    var v: int := Value(digits);
    if negative then -v else v
  }

  function Clamp(v: int): int {
    if v > LONG_MAX then LONG_MAX else if v < LONG_MIN then LONG_MIN else v
  }

  /** strtol(s, &end, 10): the value, and how many bytes it read (none without digits). */
  function StrToL(s: seq<byte>): (int, nat) {
    var w := SpanSpaces(s);
    var signed := w < |s| && (s[w] == PLUS || s[w] == MINUS);
    var from := if signed then w + 1 else w;
    var k := SpanDigits(s[from..]);
    if k == 0 then (0, 0)
    else
      (Clamp(Signed(signed && s[w] == MINUS, s[from..][..k])), from + k)
  }

  // ---------------------------------------------------------------- what a number looks like

  /** s reads spaces, an optional sign, digits, and its value is v. */
  ghost predicate DenotesBy(s: seq<byte>, spaces: seq<byte>, sign: seq<byte>, digits: seq<byte>, v: int) {
    && s == spaces + sign + digits
    && (forall i :: 0 <= i < |spaces| ==> IsSpace(spaces[i]))
    && (sign == [] || sign == [PLUS] || sign == [MINUS])
    && digits != [] && AllDigits(digits)
    && v == Signed(sign == [MINUS], digits)
  }

  ghost predicate Denotes(s: seq<byte>, v: int) {
    exists spaces, sign, digits :: DenotesBy(s, spaces, sign, digits, v)
  }

  predicate IsUint32(v: int) {
    0 <= v <= UINT32_MAX
  }

  /** convert_str_to_long with the bounds the parser uses. */
  function Convert(s: seq<byte>): Option<nat> {
    var (v, read) := StrToL(s);
    if read == 0 || read < |s| || !IsUint32(v) then None else Some(v)
  }

  lemma {:induction false} SpacesThenOther(spaces: seq<byte>, rest: seq<byte>)
    requires forall i :: 0 <= i < |spaces| ==> IsSpace(spaces[i])
    requires rest != [] && !IsSpace(rest[0])
    ensures SpanSpaces(spaces + rest) == |spaces|
    decreases |spaces|
  {
    if spaces == [] {
      assert spaces + rest == rest;
    } else {
      SpacesThenOther(spaces[1..], rest);
      assert (spaces + rest)[1..] == spaces[1..] + rest;
    }
  }

  lemma DigitsToTheEnd(digits: seq<byte>)
    requires AllDigits(digits)
    ensures SpanDigits(digits) == |digits|
  {
  }

  /** strtol reads a whole numeral, and gives its value. */
  lemma StrToLReadsNumerals(s: seq<byte>, spaces: seq<byte>, sign: seq<byte>, digits: seq<byte>, v: int)
    requires DenotesBy(s, spaces, sign, digits, v)
    ensures StrToL(s) == (Clamp(v), |s|)
  {
    hide SpanSpaces, SpanDigits, Value, Clamp;
    var w, from := |spaces|, |spaces| + |sign|;
    SpacesThenOther(spaces, sign + digits);
    assert s == spaces + (sign + digits);
    assert s[w] == (sign + digits)[0];
    assert s[from..] == digits;
    DigitsToTheEnd(digits);
    assert digits[..|digits|] == digits;
  }

  /** What strtol reads to the end is a numeral. */
  lemma WholeReadIsNumeral(s: seq<byte>)
    requires StrToL(s).1 == |s| > 0
    ensures exists v :: Denotes(s, v) && StrToL(s).0 == Clamp(v)
  {
    hide SpanSpaces, SpanDigits, Value, Clamp;
    var w := SpanSpaces(s);
    var signed := w < |s| && (s[w] == PLUS || s[w] == MINUS);
    var from := if signed then w + 1 else w;
    var k := SpanDigits(s[from..]);
    var digits := s[from..];
    assert digits[..k] == digits;
    assert s == s[..w] + s[w..from] + digits;
    assert DenotesBy(s, s[..w], s[w..from], digits, Signed(signed && s[w] == MINUS, digits));
  }

  /** A token converts to v exactly when it denotes v and v fits 32 unsigned bits. */
  lemma ConvertExactly(s: seq<byte>, v: nat)
    ensures Convert(s) == Some(v) <==> Denotes(s, v) && IsUint32(v)
  {
    if Denotes(s, v) {
      var spaces, sign, digits :| DenotesBy(s, spaces, sign, digits, v);
      StrToLReadsNumerals(s, spaces, sign, digits, v);
    }
    if Convert(s) == Some(v) {
      WholeReadIsNumeral(s);
    }
  }

  // ---------------------------------------------------------------- the packet

  function Operand(token: Option<seq<byte>>): Option<nat> {
    if token.None? then None else Convert(token.value)
  }

  /** What parse_x_str_and_y_str makes of the two tokens it has got. */
  function Operands(x: Option<seq<byte>>, y: Option<seq<byte>>): Option<(nat, nat)> {
    if Operand(x).None? || Operand(y).None? then None else Some((Operand(x).value, Operand(y).value))
  }

  lemma OperandsAreUint32(x: Option<seq<byte>>, y: Option<seq<byte>>)
    ensures Operands(x, y).Some? ==> IsUint32(Operands(x, y).value.0) && IsUint32(Operands(x, y).value.1)
  {
    hide StrToL;
  }

  /** The operands of a seek packet: the first two tokens of what follows the prefix. */
  function ParseXY(s: seq<byte>): Option<(nat, nat)> {
    Operands(TokenOf(s), TokenOf(RestOf(s)))
  }

  predicate HasPrefix(packet: seq<byte>) {
    |packet| > PREFIX_LENGTH && packet[..PREFIX_LENGTH] == PREFIX
  }

  /** The string that is parsed for operands: what follows the prefix, without the last byte. */
  function Body(packet: seq<byte>): seq<byte> {
    if HasPrefix(packet) then CString(packet[PREFIX_LENGTH..|packet| - 1]) else []
  }

  /** What a packet asks to seek to; None for data. The byte at its end is never looked at. */
  function SeekArgs(packet: seq<byte>): Option<(nat, nat)> {
    if HasPrefix(packet) then ParseXY(Body(packet)) else None
  }

  /** A packet is a seek to (x, y) exactly when the first two tokens behind its prefix denote x and y. */
  lemma SeekArgsExactly(packet: seq<byte>, x: nat, y: nat)
    ensures SeekArgs(packet) == Some((x, y)) <==>
              && HasPrefix(packet)
              && var first := StrTok(Body(packet));
              && first.Some? && StrTok(first.value.1).Some?
              && Denotes(first.value.0, x) && IsUint32(x)
              && Denotes(StrTok(first.value.1).value.0, y) && IsUint32(y)
  {
    if HasPrefix(packet) {
      var first := StrTok(Body(packet));
      if first.Some? && StrTok(first.value.1).Some? {
        ConvertExactly(first.value.0, x);
        ConvertExactly(StrTok(first.value.1).value.0, y);
      }
    }
  }

  /**
    When the second call returns some other token y, the operands are still those of the string if
    and only if the first does not convert, or y converts as the string's own second token does.
   */
  lemma OperandsWithOtherToken(s: seq<byte>, y: Option<seq<byte>>)
    ensures Operands(TokenOf(s), y) == ParseXY(s) <==>
            Operand(TokenOf(s)).None? || Operand(y) == Operand(TokenOf(RestOf(s)))
  {
  }

  function Decimal(n: nat): (r: seq<byte>)
    ensures r != [] && AllDigits(r)
    ensures Value(r) == n
  {
    var d: byte := ZERO + (n % 10) as byte;
    if n < 10 then
      assert Value([d]) == Value([]) * 10 + (d - ZERO) as nat;
      [d]
    else
      var r := Decimal(n / 10) + [d];
      assert r[..|r| - 1] == Decimal(n / 10);
      r
  }

  lemma TokenBeforeComma(token: seq<byte>, rest: seq<byte>)
    requires token != [] && AllDigits(token)
    ensures StrTok(token + [COMMA] + rest) == Some((token, rest))
  {
    var s := token + [COMMA] + rest;
    assert s[0] == token[0] && s[0..] == s;
    SpanNotIs(s, COMMA, |token|);
    assert s[..|token|] == token && s[|token| + 1..] == rest;
  }

  lemma LastToken(token: seq<byte>)
    requires token != [] && AllDigits(token)
    ensures StrTok(token) == Some((token, []))
  {
    assert token[0..] == token && token[..|token|] == token;
    SpanNotIs(token, COMMA, |token|);
  }

  lemma NoNul(s: seq<byte>)
    requires forall i :: 0 <= i < |s| ==> s[i] != NUL
    ensures CString(s) == s
  {
    SpanNotIs(s, NUL, |s|);
    assert s[..|s|] == s;
  }

  lemma DecimalDenotes(n: nat)
    ensures Denotes(Decimal(n), n)
  {
    assert Decimal(n) == [] + [] + Decimal(n);
    assert DenotesBy(Decimal(n), [], [], Decimal(n), n);
  }

  lemma OperandsRoundTrip(x: nat, y: nat)
    requires IsUint32(x) && IsUint32(y)
    ensures ParseXY(Decimal(x) + [COMMA] + Decimal(y)) == Some((x, y))
  {
    hide Decimal, Convert, StrTok;
    TokenBeforeComma(Decimal(x), Decimal(y));
    LastToken(Decimal(y));
    DecimalDenotes(x);
    DecimalDenotes(y);
    ConvertExactly(Decimal(x), x);
    ConvertExactly(Decimal(y), y);
  }

  /** Formatting any two 32-bit operands and parsing the packet gives them back. */
  lemma SeekRoundTrip(x: nat, y: nat)
    requires IsUint32(x) && IsUint32(y)
    ensures SeekArgs(PREFIX + Decimal(x) + [COMMA] + Decimal(y) + [NL]) == Some((x, y))
  {
    hide Decimal, CString, ParseXY, StrTok;
    var body := Decimal(x) + [COMMA] + Decimal(y);
    var packet := PREFIX + Decimal(x) + [COMMA] + Decimal(y) + [NL];
    assert packet == PREFIX + body + [NL];
    assert packet[..PREFIX_LENGTH] == PREFIX;
    assert packet[PREFIX_LENGTH..|packet| - 1] == body;
    NoNul(body);
    OperandsRoundTrip(x, y);
  }

  /** Copying with strncpy and overwriting the last byte leaves the string without that byte. */
  lemma CopyDropsLastByte(src: seq<byte>)
    requires src != []
    ensures CString(StrNCpy(src, |src|)[|src| - 1 := NUL]) == CString(src[..|src| - 1])
  {
    var n := |src|;
    var a := StrNCpy(src, n)[n - 1 := NUL];
    var j := SpanNot(src[..n - 1], NUL);
    SpanNotIs(src[..n], NUL, if j < n - 1 then j else if src[j] == NUL then n - 1 else n);
    SpanNotIs(a, NUL, j);
    assert a[..j] == src[..n - 1][..j];
  }

  // ---------------------------------------------------------------- the server's parser

  /** convert_str_to_long: the numerals whose clamped value lies within the bounds. */
  method ConvertStrToLong(str: seq<byte>, minValue: int, maxValue: int) returns (ok: bool, result: int)
    ensures ok <==> exists v :: Denotes(str, v) && minValue <= Clamp(v) <= maxValue
    ensures ok ==> exists v :: Denotes(str, v) && result == Clamp(v)
    ensures minValue == 0 && maxValue == UINT32_MAX ==> Convert(str) == if ok then Some(result) else None
  {
    var (value, end) := StrToL(str);
    result := value;
    forall v | Denotes(str, v)
      ensures (value, end) == (Clamp(v), |str|) && |str| > 0
    {
      var spaces, sign, digits :| DenotesBy(str, spaces, sign, digits, v);
      StrToLReadsNumerals(str, spaces, sign, digits, v);
    }
    if end == 0 {
      ok := false;
    } else if end < |str| {
      ok := false;
    } else {
      WholeReadIsNumeral(str);
      ok := !(result < minValue || result > maxValue);
    }
  }

  /**
    parse_x_str_and_y_str, on the characters of its private copy, with these strtok calls of other
    threads between its two: the second takes the token where the last of them has left the position.
   */
  method ParseXStrAndYStr(tok: Strtok, xyStr: seq<byte>, others: seq<StrtokCall>)
    returns (ok: bool, x: nat, y: nat)
    modifies tok
    ensures var s := CString(xyStr);
            (if ok then Some((x, y)) else None) == Operands(TokenOf(s), TokenOf(PositionAfter(RestOf(s), others)))
    ensures tok.rest == RestOf(PositionAfter(RestOf(CString(xyStr)), others))
    ensures others == [] ==> ParseXY(CString(xyStr)) == if ok then Some((x, y)) else None
  {
    ok, x, y := false, 0, 0;
    var xToken := tok.First(CString(xyStr));
    tok.OthersCall(others);
    var yToken := tok.Next();
    if xToken.None? || yToken.None? {
      return;
    }
    var result: int;
    ok, result := ConvertStrToLong(xToken.value, 0, UINT32_MAX);
    if ok {
      x := result;
      ok, result := ConvertStrToLong(yToken.value, 0, UINT32_MAX);
      if ok {
        y := result;
      }
    }
  }

  /** What a packet is taken for, when others call strtok in between, or its copy cannot be allocated. */
  function TakenFor(packet: seq<byte>, others: seq<StrtokCall>, mallocSucceeds: bool): Option<(nat, nat)> {
    if !HasPrefix(packet) || !mallocSucceeds then None
    else
      var body := Body(packet);
      Operands(TokenOf(body), TokenOf(PositionAfter(RestOf(body), others)))
  }

  /** Without other calls and with its copy, every packet is taken for what it is, and without the prefix always. */
  lemma TakenForExactly(packet: seq<byte>, others: seq<StrtokCall>, mallocSucceeds: bool)
    ensures mallocSucceeds && others == [] ==> TakenFor(packet, others, mallocSucceeds) == SeekArgs(packet)
    ensures !HasPrefix(packet) ==> TakenFor(packet, others, mallocSucceeds) == SeekArgs(packet) == None
    ensures !mallocSucceeds ==> TakenFor(packet, others, mallocSucceeds) == None
    ensures HasPrefix(packet) && mallocSucceeds ==>
              (TakenFor(packet, others, mallocSucceeds) == SeekArgs(packet) <==>
               || Operand(TokenOf(Body(packet))).None?
               || Operand(TokenOf(PositionAfter(RestOf(Body(packet)), others))) ==
                  Operand(TokenOf(RestOf(Body(packet)))))
    ensures match TakenFor(packet, others, mallocSucceeds)
            case None => true
            case Some((x, y)) => Operand(TokenOf(Body(packet))) == Some(x) && IsUint32(x) && IsUint32(y)
  {
    hide TokenOf, RestOf, Body, HasPrefix;
    OperandsWithOtherToken(Body(packet), TokenOf(PositionAfter(RestOf(Body(packet)), others)));
  }

  /**
    is_seekto_packet with parse_xy_str. The packet itself is only read. It is classified as SeekArgs
    says, unless its copy cannot be allocated or another thread's strtok call comes between its two.
   */
  method IsSeektoPacket(tok: Strtok, packet: array<byte>, packetLength: nat, mallocSucceeds: bool,
                        others: seq<StrtokCall>)
    returns (ok: bool, x: nat, y: nat)
    requires packetLength <= packet.Length
    modifies tok
    ensures TakenFor(packet[..packetLength], others, mallocSucceeds) == if ok then Some((x, y)) else None
    ensures mallocSucceeds && others == [] ==>
              SeekArgs(packet[..packetLength]) == if ok then Some((x, y)) else None
    ensures ok ==> HasPrefix(packet[..packetLength]) && mallocSucceeds
  {
    hide Operands, Operand, ParseXY, CString, TokenOf;
    ok, x, y := false, 0, 0;
    if packetLength > PREFIX_LENGTH {
      ok := packet[..PREFIX_LENGTH] == PREFIX;
    }
    ghost var p := packet[..packetLength];
    assert packetLength > PREFIX_LENGTH ==> p[..PREFIX_LENGTH] == packet[..PREFIX_LENGTH];
    TakenForExactly(p, others, mallocSucceeds);
    if ok {
      if !mallocSucceeds {
        return false, x, y;
      }
      var rest := packet[PREFIX_LENGTH..packetLength];
      var xyStr := StrNCpy(rest, |rest|);
      xyStr := xyStr[|rest| - 1 := NUL];
      CopyDropsLastByte(rest);
      assert p[PREFIX_LENGTH..packetLength - 1] == rest[..|rest| - 1];
      ok, x, y := ParseXStrAndYStr(tok, xyStr, others);
    }
  }
}
