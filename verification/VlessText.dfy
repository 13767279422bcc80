/**
 The parser against a plain reading of the bytes: which byte is which field, and host names as the
 numbers and characters they stand for, told without the encoder or the printer.
 */
module VlessText {
  import opened Text
  import opened Vless

  // ---------------------------------------------------------------- numerals

  function Value(c: char): nat
  {
    if '0' <= c <= '9' then c as int - '0' as int
    else if 'a' <= c <= 'f' then c as int - 'a' as int + 10
    else 16
  }

  /** Digits of base 16 or 10, at least one, and no zero in front of others. */
  predicate Numeral(s: string, hex: bool)
  {
    && s != "" && (|s| > 1 ==> s[0] != '0')
    && forall i :: 0 <= i < |s| ==> Value(s[i]) < (if hex then 16 else 10)
  }

  function Number(s: string, hex: bool): nat
  {
    if s == "" then 0
    else if hex then 16 * Number(Init(s), hex) + Value(Last(s))
    else 10 * Number(Init(s), hex) + Value(Last(s))
  }

  lemma {:induction false} NumberPositive(s: string, hex: bool)
    requires s != "" && Value(s[0]) > 0
    ensures Number(s, hex) > 0
  {
    if |s| > 1 {
      NumberPositive(Init(s), hex);
    } else {
      assert Last(s) == s[0];
    }
  }

  lemma DigitValue(n: nat, c: char)
    requires n < 16
    ensures c == Digit(n) <==> Value(c) == n
  {
  }

  lemma {:induction false} NumeralOf(n: nat, hex: bool)
    ensures Numeral(Digits(n, hex), hex) && Number(Digits(n, hex), hex) == n
    ensures n > 0 ==> Digits(n, hex)[0] != '0'
    decreases n
  {
    var s, q, r := Digits(n, hex), Quotient(n, hex), Remainder(n, hex);
    DigitValue(r, Digit(r));
    if q == 0 {
      assert s == [Digit(n)] && r == n && Init(s) == "";
      DigitValue(n, s[0]);
    } else {
      NumeralOf(q, hex);
      assert s == Digits(q, hex) + [Digit(r)] && Init(s) == Digits(q, hex);
    }
  }

  lemma LastDigit(n: nat, q: nat, v: nat, hex: bool)
    requires v < (if hex then 16 else 10) && n == (if hex then 16 * q + v else 10 * q + v)
    ensures Quotient(n, hex) == q && Remainder(n, hex) == v
  {
  }

  lemma {:induction false} NumeralIs(s: string, hex: bool)
    requires Numeral(s, hex)
    ensures s == Digits(Number(s, hex), hex)
  {
    var n, v := Number(s, hex), Value(Last(s));
    DigitValue(v, Last(s));
    if |s| == 1 {
      assert Init(s) == "" && Number("", hex) == 0;
      assert s == [Last(s)];
    } else {
      DigitValue(0, s[0]);
      NumeralIs(Init(s), hex);
      NumberPositive(Init(s), hex);
      LastDigit(n, Number(Init(s), hex), v, hex);
      InitLast(s);
    }
  }

  lemma InitLast(s: string)
    requires s != ""
    ensures s == Init(s) + [Last(s)]
  {
  }

  /** `Digits(n)` is the one numeral for `n`. */
  lemma NumeralIff(s: string, n: nat, hex: bool)
    ensures Numeral(s, hex) && Number(s, hex) == n <==> s == Digits(n, hex)
  {
    NumeralOf(n, hex);
    if Numeral(s, hex) {
      NumeralIs(s, hex);
    }
  }

  // ---------------------------------------------------------------- host names

  /** Each piece is the numeral of the number in its place. */
  predicate Reads(pieces: seq<string>, numbers: seq<int>, hex: bool)
  {
    if pieces == [] || numbers == [] then pieces == [] && numbers == []
    else
      && Numeral(pieces[0], hex) && Number(pieces[0], hex) == numbers[0]
      && Reads(pieces[1..], numbers[1..], hex)
  }

  lemma {:induction false} ReadsAt(pieces: seq<string>, numbers: seq<int>, hex: bool)
    ensures Reads(pieces, numbers, hex) <==>
      |pieces| == |numbers| &&
      forall i :: 0 <= i < |pieces| ==> Numeral(pieces[i], hex) && Number(pieces[i], hex) == numbers[i]
  {
    if pieces != [] && numbers != [] {
      ReadsAt(pieces[1..], numbers[1..], hex);
      assert forall i :: 0 <= i < |pieces| - 1 ==> pieces[1..][i] == pieces[i + 1];
    }
  }

  predicate ReadsV4(text: string, x: Bytes)
  {
    Reads(Split(text, IsPoint), x, false)
  }

  /** Each two bytes as one number, the first the greater. */
  function Words(x: Bytes): (words: seq<int>)
    requires |x| % 2 == 0
  {
    if x == [] then [] else [x[0] as int * 256 + x[1] as int] + Words(x[2..])
  }

  predicate ReadsV6(text: string, x: Bytes)
    requires |x| == 16
  {
    && |text| >= 2 && text[0] == '[' && Last(text) == ']'
    && Reads(Split(text[1..|text| - 1], IsColon), Words(x), true)
  }

  predicate NameChar(c: char)
  {
    'A' <= c <= 'Z' || 'a' <= c <= 'z' || '0' <= c <= '9' || c == '.' || c == '_' || c == '-'
  }

  /** Each character is the byte in its place and may stand in a name. */
  predicate Letters(text: string, bytes: Bytes)
  {
    if text == "" || bytes == [] then text == "" && bytes == []
    else text[0] as int == bytes[0] && NameChar(text[0]) && Letters(text[1..], bytes[1..])
  }

  /** The characters of a name, at least one, are its bytes, a byte-order mark in front aside. */
  predicate ReadsName(text: string, raw: Bytes)
  {
    text != "" && Letters(text, if [0xEF, 0xBB, 0xBF] <= raw then raw[3..] else raw)
  }

  lemma DecimalsRead(pieces: seq<string>, x: Bytes)
    ensures Reads(pieces, x, false) <==> pieces == Decimals(x)
  {
    ReadsAt(pieces, x, false);
    if |pieces| == |x| {
      forall i | 0 <= i < |x|
        ensures Numeral(pieces[i], false) && Number(pieces[i], false) == x[i] <==> pieces[i] == Decimals(x)[i]
      {
        NumeralIff(pieces[i], x[i], false);
      }
    }
  }

  lemma V4TextIff(text: string, x: Bytes)
    requires |x| == 4
    ensures ReadsV4(text, x) <==> text == HostText(V4(x))
  {
    forall i | 0 <= i < 4 ensures Free(Decimals(x)[i], IsPoint) {
      DigitsFree(x[i], false);
    }
    SplitJoin(Decimals(x), '.', IsPoint);
    JoinSplit(text, '.', IsPoint);
    DecimalsRead(Split(text, IsPoint), x);
  }

  lemma {:induction false} WordAt(x: Bytes, k: nat)
    requires |x| % 2 == 0 && 2 * k + 1 < |x|
    ensures k < |Words(x)| == |x| / 2 && Words(x)[k] == Pair(x[2 * k], x[2 * k + 1])
  {
    if k > 0 {
      WordAt(x[2..], k - 1);
    } else if |x| > 2 {
      WordAt(x[2..], 0);
    }
  }

  lemma GroupsRead(pieces: seq<string>, x: Bytes)
    requires |x| == 16
    ensures Reads(pieces, Words(x), true) <==> pieces == Groups(x)
  {
    WordAt(x, 0);
    ReadsAt(pieces, Words(x), true);
    if |pieces| == 8 {
      forall k: nat | k < 8
        ensures Numeral(pieces[k], true) && Number(pieces[k], true) == Words(x)[k] <==> pieces[k] == Groups(x)[k]
      {
        WordAt(x, k);
        NumeralIff(pieces[k], Pair(x[2 * k], x[2 * k + 1]), true);
      }
    }
  }

  lemma V6TextReads(text: string, x: Bytes)
    requires |x| == 16 && text == HostText(V6(x))
    ensures ReadsV6(text, x)
  {
    assert text[1..|text| - 1] == Join(Groups(x), ':');
    GroupsSplit(x);
    GroupsRead(Groups(x), x);
  }

  lemma V6TextIs(text: string, x: Bytes)
    requires |x| == 16 && ReadsV6(text, x)
    ensures text == HostText(V6(x))
  {
    var inner := text[1..|text| - 1];
    GroupsRead(Split(inner, IsColon), x);
    JoinSplit(inner, ':', IsColon);
    assert text == "[" + inner + "]";
  }

  lemma V6TextIff(text: string, x: Bytes)
    requires |x| == 16
    ensures ReadsV6(text, x) <==> text == HostText(V6(x))
  {
    if ReadsV6(text, x) {
      V6TextIs(text, x);
    }
    if text == HostText(V6(x)) {
      V6TextReads(text, x);
    }
  }

  lemma {:induction false} LettersIff(text: string, bytes: Bytes)
    ensures Letters(text, bytes) <==>
      text == Ascii(bytes) && forall i :: 0 <= i < |bytes| ==> NameByte(bytes[i])
  {
    if text != "" && bytes != [] {
      LettersIff(text[1..], bytes[1..]);
      assert Ascii(bytes) == [bytes[0] as char] + Ascii(bytes[1..]);
      assert forall i :: 0 < i < |bytes| ==> bytes[i] == bytes[1..][i - 1];
    }
  }

  lemma NameTextIff(text: string, raw: Bytes)
    ensures ReadsName(text, raw) <==> NameOk(raw) && text == HostText(Name(raw))
  {
    MarkDropped(raw);
    LettersIff(text, Unmarked(raw));
  }

  lemma MarkDropped(raw: Bytes)
    ensures Unmarked(raw) == if [0xEF, 0xBB, 0xBF] <= raw then raw[3..] else raw
  {
    if [0xEF, 0xBB, 0xBF] <= raw {
      assert raw[..3] == [0xEF, 0xBB, 0xBF];
    }
  }

  // ---------------------------------------------------------------- the message

  /** Where the bytes of the command, the port and the address type stand, if they are all there. */
  predicate Framed(bytes: Bytes, at: int)
  {
    |bytes| >= 18 && at == 18 + bytes[17] as int && |bytes| >= at + 4
  }

  /** A message that ends before its own frame does, or whose user is not admitted. */
  lemma OutcomeUnframed(bytes: Bytes, ids: seq<Bytes>)
    ensures |bytes| < 18 ==> Parse(bytes, ids) == Refused(Short)
    ensures |bytes| >= 18 && bytes[1..17] !in ids ==> Parse(bytes, ids) == Refused(User)
    ensures |bytes| >= 18 && bytes[1..17] in ids && !Framed(bytes, 18 + bytes[17] as int) ==>
      Parse(bytes, ids) == Refused(Short)
  {
  }

  lemma LocatedRead(bytes: Bytes, at: int, ids: seq<Bytes>, address: Address, end: nat, port: int)
    requires Framed(bytes, at) && bytes[1..17] in ids && port == bytes[at + 1] as int * 256 + bytes[at + 2] as int
    requires ParseAddress(bytes, at + 4, bytes[at + 3]) == Located(address, end)
    ensures Read(bytes, ids)
         == if port == 0 || (bytes[at] != 1 && bytes[at] != 2) then Unreadable(BadCommand)
            else Reading(Header(bytes[0], bytes[1..17], bytes[18..at], bytes[at], port, address), end)
  {
  }

  lemma LocatedParsed(bytes: Bytes, at: int, ids: seq<Bytes>, address: Address, end: nat, port: int)
    requires Framed(bytes, at) && bytes[1..17] in ids && port == bytes[at + 1] as int * 256 + bytes[at + 2] as int
    requires ParseAddress(bytes, at + 4, bytes[at + 3]) == Located(address, end)
    ensures Parse(bytes, ids)
         == if port == 0 || (bytes[at] != 1 && bytes[at] != 2) then Refused(BadCommand)
            else Accepted(Request(bytes[0], bytes[at], HostText(address), port, bytes[end..]))
  {
    LocatedRead(bytes, at, ids, address, end, port);
  }

  /** What is handed on when the address ends at `end` and reads as it should. */
  predicate HandedOn(bytes: Bytes, at: int, end: int, request: Request)
    requires Framed(bytes, at) && 0 <= end <= |bytes|
  {
    && request.version == bytes[0] && request.command == bytes[at]
    && request.port == bytes[at + 1] as int * 256 + bytes[at + 2] as int
    && request.payload == bytes[end..]
  }

  predicate BadPortOrCommand(bytes: Bytes, at: int)
    requires Framed(bytes, at)
  {
    (bytes[at + 1] == 0 && bytes[at + 2] == 0) || (bytes[at] != 1 && bytes[at] != 2)
  }

  lemma LocatedOutcome(bytes: Bytes, at: int, ids: seq<Bytes>, address: Address, end: nat)
    requires Framed(bytes, at) && bytes[1..17] in ids
    requires ParseAddress(bytes, at + 4, bytes[at + 3]) == Located(address, end)
    ensures BadPortOrCommand(bytes, at) ==> Parse(bytes, ids) == Refused(BadCommand)
    ensures !BadPortOrCommand(bytes, at) ==>
      && Parse(bytes, ids).Accepted? && HandedOn(bytes, at, end, Parse(bytes, ids).request)
      && Parse(bytes, ids).request.hostname == HostText(address)
  {
    LocatedParsed(bytes, at, ids, address, end, bytes[at + 1] as int * 256 + bytes[at + 2] as int);
  }

  /** Type 1: the four bytes that follow, read as a dotted address. */
  lemma OutcomeV4(bytes: Bytes, at: int, ids: seq<Bytes>)
    requires Framed(bytes, at) && bytes[1..17] in ids && bytes[at + 3] == 1
    ensures |bytes| < at + 8 ==> Parse(bytes, ids) == Refused(Short)
    ensures |bytes| >= at + 8 && BadPortOrCommand(bytes, at) ==> Parse(bytes, ids) == Refused(BadCommand)
    ensures |bytes| >= at + 8 && !BadPortOrCommand(bytes, at) ==>
      && Parse(bytes, ids).Accepted? && HandedOn(bytes, at, at + 8, Parse(bytes, ids).request)
      && ReadsV4(Parse(bytes, ids).request.hostname, bytes[at + 4..at + 8])
  {
    if |bytes| >= at + 8 {
      var octets := bytes[at + 4..at + 8];
      LocatedOutcome(bytes, at, ids, V4(octets), at + 8);
      V4TextIff(HostText(V4(octets)), octets);
    }
  }

  /** Type 3: the sixteen bytes that follow, read as a bracketed address. */
  lemma OutcomeV6(bytes: Bytes, at: int, ids: seq<Bytes>)
    requires Framed(bytes, at) && bytes[1..17] in ids && bytes[at + 3] == 3
    ensures |bytes| < at + 20 ==> Parse(bytes, ids) == Refused(Short)
    ensures |bytes| >= at + 20 && BadPortOrCommand(bytes, at) ==> Parse(bytes, ids) == Refused(BadCommand)
    ensures |bytes| >= at + 20 && !BadPortOrCommand(bytes, at) ==>
      && Parse(bytes, ids).Accepted? && HandedOn(bytes, at, at + 20, Parse(bytes, ids).request)
      && ReadsV6(Parse(bytes, ids).request.hostname, bytes[at + 4..at + 20])
  {
    if |bytes| >= at + 20 {
      var octets := bytes[at + 4..at + 20];
      LocatedOutcome(bytes, at, ids, V6(octets), at + 20);
      V6TextIff(HostText(V6(octets)), octets);
    }
  }

  predicate NameCut(bytes: Bytes, at: int)
    requires Framed(bytes, at)
  {
    |bytes| == at + 4 || bytes[at + 4] == 0 || |bytes| < at + 5 + bytes[at + 4] as int
  }

  ghost predicate IsName(raw: Bytes)
  {
    exists text :: ReadsName(text, raw)
  }

  lemma IsNameIff(raw: Bytes)
    ensures IsName(raw) <==> NameOk(raw)
  {
    NameTextIff(HostText(Name(raw)), raw);
    forall text | ReadsName(text, raw)
      ensures NameOk(raw)
    {
      NameTextIff(text, raw);
    }
  }

  /** Type 2, a length and as many bytes: refused when they are not all there or nothing reads as them. */
  lemma OutcomeNoName(bytes: Bytes, at: int, ids: seq<Bytes>)
    requires Framed(bytes, at) && bytes[1..17] in ids && bytes[at + 3] == 2
    requires !NameCut(bytes, at) ==> !IsName(bytes[at + 5..at + 5 + bytes[at + 4] as int])
    ensures Parse(bytes, ids) == Refused(if NameCut(bytes, at) then Short else BadAddress)
  {
    NameNowhere(bytes, at);
    NowhereParsed(bytes, at, ids, if NameCut(bytes, at) then Short else BadAddress);
  }

  lemma NameNowhere(bytes: Bytes, at: int)
    requires Framed(bytes, at)
    requires !NameCut(bytes, at) ==> !IsName(bytes[at + 5..at + 5 + bytes[at + 4] as int])
    ensures ParseAddress(bytes, at + 4, 2) == Nowhere(if NameCut(bytes, at) then Short else BadAddress)
  {
    if !NameCut(bytes, at) {
      IsNameIff(bytes[at + 5..at + 5 + bytes[at + 4] as int]);
    }
  }

  lemma NowhereParsed(bytes: Bytes, at: int, ids: seq<Bytes>, why: Refusal)
    requires Framed(bytes, at) && bytes[1..17] in ids
    requires ParseAddress(bytes, at + 4, bytes[at + 3]) == Nowhere(why)
    ensures Parse(bytes, ids) == Refused(why)
  {
  }

  /** Type 2 with bytes that read as `text`: that text is the host. */
  lemma OutcomeName(bytes: Bytes, at: int, ids: seq<Bytes>, raw: Bytes, text: string)
    requires Framed(bytes, at) && bytes[1..17] in ids && bytes[at + 3] == 2 && !NameCut(bytes, at)
    requires raw == bytes[at + 5..at + 5 + bytes[at + 4] as int] && ReadsName(text, raw)
    ensures BadPortOrCommand(bytes, at) ==> Parse(bytes, ids) == Refused(BadCommand)
    ensures !BadPortOrCommand(bytes, at) ==>
      && Parse(bytes, ids).Accepted? && HandedOn(bytes, at, at + 5 + |raw|, Parse(bytes, ids).request)
      && Parse(bytes, ids).request.hostname == text
  {
    NameTextIff(text, raw);
    LocatedOutcome(bytes, at, ids, Name(raw), at + 5 + |raw|);
  }

  /** No other type is an address. */
  lemma OutcomeOther(bytes: Bytes, at: int, ids: seq<Bytes>)
    requires Framed(bytes, at) && bytes[1..17] in ids && bytes[at + 3] !in {1, 2, 3}
    ensures Parse(bytes, ids) == Refused(BadAddress)
  {
  }
}
