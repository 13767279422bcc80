/**
 The header a client opens a VLESS stream with:

   version(1) uuid(16) addonsLength(1) addons command(1) port(2) addressType(1) address payload...

 The parser, the encoder that is its inverse, and the UUIDs it admits.
 */
module Vless {
  import opened Text

  type byte = x: int | 0 <= x < 256
  type Bytes = seq<byte>

  const TCP: byte := 1
  const UDP: byte := 2

  datatype Address = V4(octets: Bytes) | Name(raw: Bytes) | V6(octets: Bytes)

  datatype Header = Header(version: byte, user: Bytes, addons: Bytes, command: byte, port: nat, address: Address)

  datatype Request = Request(version: byte, command: byte, hostname: string, port: nat, payload: Bytes)

  datatype Refusal = Short | User | BadAddress | BadCommand

  datatype Outcome = Accepted(request: Request) | Refused(why: Refusal)

  // ---------------------------------------------------------------- addresses as text

  function Digit(n: nat): char
    requires n < 16
  {
    "0123456789abcdef"[n]
  }

  function Quotient(n: nat, hex: bool): nat
  {
    if hex then n / 16 else n / 10
  }

  function Remainder(n: nat, hex: bool): (r: nat)
    ensures r < 16
  {
    if hex then n % 16 else n % 10
  }

  /** `n` in base 16 or 10, without leading zeros. */
  function Digits(n: nat, hex: bool): (s: string)
    ensures s != ""
    decreases n
  {
    if Quotient(n, hex) == 0 then [Digit(n)] else Digits(Quotient(n, hex), hex) + [Digit(Remainder(n, hex))]
  }

  function Decimals(octets: Bytes): (pieces: seq<string>)
    ensures |pieces| == |octets|
  {
    seq(|octets|, i requires 0 <= i < |octets| => Digits(octets[i], false))
  }

  function Pair(hi: byte, lo: byte): nat
  {
    256 * hi + lo
  }

  function Group(octets: Bytes, i: nat): string
    requires 2 * i + 1 < |octets|
  {
    Digits(Pair(octets[2 * i], octets[2 * i + 1]), true)
  }

  function Groups(octets: Bytes): (pieces: seq<string>)
  {
    seq(|octets| / 2, i requires 0 <= i < |octets| / 2 => Group(octets, i))
  }

  /** `TextDecoder` drops a leading byte-order mark; any other byte over 127 gives a character no name may hold. */
  function Unmarked(raw: Bytes): Bytes
  {
    if |raw| >= 3 && raw[..3] == [0xEF, 0xBB, 0xBF] then raw[3..] else raw
  }

  /** `[A-Za-z0-9._-]` */
  predicate NameByte(b: byte)
  {
    65 <= b <= 90 || 97 <= b <= 122 || 48 <= b <= 57 || b == 46 || b == 95 || b == 45
  }

  predicate NameOk(raw: Bytes)
  {
    Unmarked(raw) != [] && forall i :: 0 <= i < |Unmarked(raw)| ==> NameByte(Unmarked(raw)[i])
  }

  function Ascii(bytes: Bytes): string
  {
    seq(|bytes|, i requires 0 <= i < |bytes| => bytes[i] as char)
  }

  function HostText(a: Address): string
  {
    match a
    case V4(octets) => Join(Decimals(octets), '.')
    case Name(raw) => Ascii(Unmarked(raw))
    case V6(octets) => "[" + Join(Groups(octets), ':') + "]"
  }

  // ---------------------------------------------------------------- encoding

  function EncodeAddress(a: Address): Bytes
  {
    match a
    case V4(octets) => [1] + octets
    case Name(raw) => [2, |raw| % 256] + raw
    case V6(octets) => [3] + octets
  }

  /** Everything up to the address type. */
  function Fixed(h: Header): Bytes
  {
    [h.version] + h.user + [|h.addons| % 256] + h.addons + [h.command, h.port / 256 % 256, h.port % 256]
  }

  function Encode(h: Header): Bytes
  {
    Fixed(h) + EncodeAddress(h.address)
  }

  predicate WellFormedAddress(a: Address)
  {
    match a
    case V4(octets) => |octets| == 4
    case Name(raw) => 0 < |raw| < 256 && NameOk(raw)
    case V6(octets) => |octets| == 16
  }

  predicate WellFormed(h: Header, ids: seq<Bytes>)
  {
    && |h.user| == 16 && h.user in ids
    && |h.addons| < 256
    && (h.command == TCP || h.command == UDP) && 0 < h.port < 65536
    && WellFormedAddress(h.address)
  }

  function Opened(h: Header, payload: Bytes): Request
  {
    Request(h.version, h.command, HostText(h.address), h.port, payload)
  }

  // ---------------------------------------------------------------- parsing

  datatype Located = Located(address: Address, end: nat) | Nowhere(why: Refusal)

  /** The address whose type byte is `kind` and whose bytes begin at `at`. */
  function ParseAddress(bytes: Bytes, at: nat, kind: byte): (r: Located)
    requires at <= |bytes|
    ensures r.Located? ==> r.end <= |bytes|
  {
    if kind == 1 then
      if |bytes| < at + 4 then Nowhere(Short) else Located(V4(bytes[at..at + 4]), at + 4)
    else if kind == 2 then
      if |bytes| == at || bytes[at] == 0 || |bytes| < at + 1 + bytes[at] then Nowhere(Short)
      else
        var raw := bytes[at + 1..at + 1 + bytes[at]];
        if !NameOk(raw) then Nowhere(BadAddress) else Located(Name(raw), at + 1 + bytes[at])
    else if kind == 3 then
      if |bytes| < at + 16 then Nowhere(Short) else Located(V6(bytes[at..at + 16]), at + 16)
    else Nowhere(BadAddress)
  }

  datatype Reading = Reading(header: Header, end: nat) | Unreadable(why: Refusal)

  /** The header a message opens with and where it ends, or the first thing wrong with it. */
  function Read(bytes: Bytes, ids: seq<Bytes>): (r: Reading)
    ensures r.Reading? ==> r.end <= |bytes|
  {
    if |bytes| < 18 then Unreadable(Short)
    else if bytes[1..17] !in ids then Unreadable(User)
    else
      var n: int := bytes[17];
      var at := 18 + n;
      if |bytes| < at + 4 then Unreadable(Short)
      else
        match ParseAddress(bytes, at + 4, bytes[at + 3])
        case Nowhere(why) => Unreadable(why)
        case Located(address, end) =>
          var port := Pair(bytes[at + 1], bytes[at + 2]);
          if port == 0 || (bytes[at] != TCP && bytes[at] != UDP) then Unreadable(BadCommand)
          else Reading(Header(bytes[0], bytes[1..17], bytes[18..at], bytes[at], port, address), end)
  }

  function Parse(bytes: Bytes, ids: seq<Bytes>): Outcome
  {
    match Read(bytes, ids)
    case Unreadable(why) => Refused(why)
    case Reading(h, end) => Accepted(Opened(h, bytes[end..]))
  }

  lemma Middle(before: Bytes, x: Bytes, after: Bytes)
    ensures (before + x + after)[|before|..|before| + |x|] == x
    ensures (before + x + after)[|before| + |x|..] == after
  {
  }

  lemma AddressRoundTrip(before: Bytes, a: Address, payload: Bytes)
    requires WellFormedAddress(a)
    ensures var bytes := before + EncodeAddress(a) + payload;
      && bytes[|before|] == EncodeAddress(a)[0]
      && ParseAddress(bytes, |before| + 1, bytes[|before|]) == Located(a, |before| + |EncodeAddress(a)|)
  {
    match a
    case V4(octets) => OctetsRoundTrip(before, 1, octets, payload);
    case V6(octets) => OctetsRoundTrip(before, 3, octets, payload);
    case Name(raw) => NameRoundTrip(before, raw, payload);
  }

  lemma OctetsRoundTrip(before: Bytes, kind: byte, octets: Bytes, payload: Bytes)
    ensures var bytes := before + ([kind] + octets) + payload;
      && bytes[|before|] == kind
      && bytes[|before| + 1..|before| + 1 + |octets|] == octets
  {
  }

  lemma NameRoundTrip(before: Bytes, raw: Bytes, payload: Bytes)
    requires WellFormedAddress(Name(raw))
    ensures var bytes := before + EncodeAddress(Name(raw)) + payload;
      && bytes[|before|] == 2
      && ParseAddress(bytes, |before| + 1, 2) == Located(Name(raw), |before| + 2 + |raw|)
  {
    var bytes := before + EncodeAddress(Name(raw)) + payload;
    assert bytes == (before + [2, |raw|]) + raw + payload;
    Middle(before + [2, |raw|], raw, payload);
    assert bytes[|before| + 1] == |raw|;
  }

  lemma FixedFields(h: Header, rest: Bytes)
    requires |h.user| == 16 && |h.addons| < 256
    ensures var bytes := Fixed(h) + rest;
      var at := 18 + |h.addons|;
      && |Fixed(h)| == at + 3
      && bytes[0] == h.version && bytes[1..17] == h.user && bytes[17] == |h.addons|
      && bytes[18..at] == h.addons
      && bytes[at] == h.command && (h.port < 65536 ==> Pair(bytes[at + 1], bytes[at + 2]) == h.port)
  {
  }

  /** The fields of a header, each where it stands, are what is read. */
  lemma ReadFields(bytes: Bytes, h: Header, end: nat, ids: seq<Bytes>)
    requires WellFormed(h, ids)
    requires 22 + |h.addons| <= |bytes| && bytes[0] == h.version && bytes[1..17] == h.user && bytes[17] == |h.addons|
    requires var at := 18 + |h.addons|;
      && bytes[18..at] == h.addons && bytes[at] == h.command && Pair(bytes[at + 1], bytes[at + 2]) == h.port
      && ParseAddress(bytes, at + 4, bytes[at + 3]) == Located(h.address, end)
    ensures Read(bytes, ids) == Reading(h, end)
  {
  }

  lemma EncodedFields(bytes: Bytes, h: Header, payload: Bytes)
    requires |h.user| == 16 && |h.addons| < 256 && h.port < 65536
    requires bytes == Fixed(h) + EncodeAddress(h.address) + payload
    ensures var at := 18 + |h.addons|;
      && |Fixed(h)| == at + 3 <= |bytes|
      && bytes[0] == h.version && bytes[1..17] == h.user && bytes[17] == |h.addons|
      && bytes[18..at] == h.addons && bytes[at] == h.command && Pair(bytes[at + 1], bytes[at + 2]) == h.port
  {
    assert bytes == Fixed(h) + (EncodeAddress(h.address) + payload);
    FixedFields(h, EncodeAddress(h.address) + payload);
  }

  lemma ReadEncoded(h: Header, payload: Bytes, ids: seq<Bytes>)
    requires WellFormed(h, ids)
    ensures Read(Encode(h) + payload, ids) == Reading(h, |Encode(h)|)
  {
    var bytes := Fixed(h) + EncodeAddress(h.address) + payload;
    EncodedFields(bytes, h, payload);
    AddressRoundTrip(Fixed(h), h.address, payload);
    ReadFields(bytes, h, |Encode(h)|, ids);
  }

  /** Parsing the encoding of any well-formed header gives back exactly that request, payload included. */
  lemma RoundTrip(h: Header, payload: Bytes, ids: seq<Bytes>)
    requires WellFormed(h, ids)
    ensures Parse(Encode(h) + payload, ids) == Accepted(Opened(h, payload))
  {
    ReadEncoded(h, payload, ids);
    assert (Encode(h) + payload)[|Encode(h)|..] == payload;
  }

  /** No message can be read two ways: header and payload are determined by the bytes. */
  lemma Unambiguous(h: Header, p: Bytes, g: Header, q: Bytes, ids: seq<Bytes>)
    requires WellFormed(h, ids) && WellFormed(g, ids) && Encode(h) + p == Encode(g) + q
    ensures h == g && p == q
  {
    ReadEncoded(h, p, ids);
    ReadEncoded(g, q, ids);
    assert (Encode(h) + p)[|Encode(h)|..] == p && (Encode(g) + q)[|Encode(g)|..] == q;
  }

  lemma AddressAccepted(bytes: Bytes, at: nat, kind: byte)
    requires at <= |bytes| && ParseAddress(bytes, at, kind).Located?
    ensures var r := ParseAddress(bytes, at, kind);
      && WellFormedAddress(r.address)
      && r.end >= at && EncodeAddress(r.address) == [kind] + bytes[at..r.end]
  {
    if kind == 2 {
      NameAccepted(bytes, at);
    }
  }

  lemma NameAccepted(bytes: Bytes, at: nat)
    requires at < |bytes| && 0 < bytes[at] && at + 1 + bytes[at] <= |bytes|
    ensures [2, bytes[at]] + bytes[at + 1..at + 1 + bytes[at]] == [2] + bytes[at..at + 1 + bytes[at]]
  {
  }

  lemma HeaderBytes(bytes: Bytes, h: Header, end: nat)
    requires |h.user| == 16 && |h.addons| < 256 && 22 + |h.addons| <= end <= |bytes|
    requires h.version == bytes[0] && h.user == bytes[1..17] && bytes[17] == |h.addons|
    requires var at := 18 + |h.addons|;
      && h.addons == bytes[18..at] && h.command == bytes[at] && h.port == Pair(bytes[at + 1], bytes[at + 2])
      && EncodeAddress(h.address) == bytes[at + 3..end]
    ensures Encode(h) == bytes[..end]
  {
    var at := 18 + |h.addons|;
    FixedBytes(bytes, h);
    assert bytes[..end] == bytes[..at + 3] + bytes[at + 3..end];
  }

  lemma PairBytes(hi: byte, lo: byte)
    ensures Pair(hi, lo) / 256 % 256 == hi && Pair(hi, lo) % 256 == lo
  {
  }

  lemma FixedBytes(bytes: Bytes, h: Header)
    requires |h.user| == 16 && |h.addons| < 256 && 21 + |h.addons| <= |bytes|
    requires h.version == bytes[0] && h.user == bytes[1..17] && bytes[17] == |h.addons|
    requires var at := 18 + |h.addons|;
      h.addons == bytes[18..at] && h.command == bytes[at] && h.port == Pair(bytes[at + 1], bytes[at + 2])
    ensures Fixed(h) == bytes[..21 + |h.addons|]
  {
    var at := 18 + |h.addons|;
    PairBytes(bytes[at + 1], bytes[at + 2]);
    assert [h.version] + h.user == bytes[..17];
    assert bytes[..17] + [|h.addons| % 256] == bytes[..18];
    assert bytes[..18] + h.addons == bytes[..at];
    assert bytes[..at] + [h.command, h.port / 256 % 256, h.port % 256] == bytes[..at + 3];
  }

  lemma ReadIsEncoded(bytes: Bytes, ids: seq<Bytes>)
    requires Read(bytes, ids).Reading?
    ensures var r := Read(bytes, ids); WellFormed(r.header, ids) && Encode(r.header) == bytes[..r.end]
  {
    var r := Read(bytes, ids);
    var at := 18 + |r.header.addons|;
    AddressAccepted(bytes, at + 4, bytes[at + 3]);
    assert bytes[at + 3..r.end] == [bytes[at + 3]] + bytes[at + 4..r.end];
    HeaderBytes(bytes, r.header, r.end);
  }

  lemma AcceptedIsEncoded(bytes: Bytes, ids: seq<Bytes>) returns (h: Header)
    requires Parse(bytes, ids).Accepted?
    ensures var request := Parse(bytes, ids).request;
      WellFormed(h, ids) && bytes == Encode(h) + request.payload && request == Opened(h, request.payload)
  {
    var r := Read(bytes, ids);
    ReadIsEncoded(bytes, ids);
    assert bytes == bytes[..r.end] + bytes[r.end..];
    h := r.header;
  }

  /** A message is accepted exactly when it is the encoding of a well-formed header and the payload handed on. */
  lemma AcceptedIff(bytes: Bytes, ids: seq<Bytes>, request: Request)
    ensures Parse(bytes, ids) == Accepted(request) <==>
      exists h :: WellFormed(h, ids) && bytes == Encode(h) + request.payload && request == Opened(h, request.payload)
  {
    if Parse(bytes, ids) == Accepted(request) {
      var h := AcceptedIsEncoded(bytes, ids);
    }
    forall h | WellFormed(h, ids) && bytes == Encode(h) + request.payload && request == Opened(h, request.payload)
      ensures Parse(bytes, ids) == Accepted(request)
    {
      RoundTrip(h, request.payload, ids);
    }
  }

  lemma CutRest(whole: Bytes, n: nat, head: Bytes, rest: Bytes)
    requires n <= |whole| && whole[..n] == head + rest
    ensures head + (rest + whole[n..]) == whole + []
  {
  }

  /** A header cut short anywhere is refused, whatever the cut falls on. */
  lemma CutIsRefused(h: Header, n: nat, ids: seq<Bytes>)
    requires WellFormed(h, ids) && n < |Encode(h)|
    ensures Parse(Encode(h)[..n], ids).Refused?
  {
    var whole := Encode(h);
    if Parse(whole[..n], ids).Accepted? {
      var rest := Parse(whole[..n], ids).request.payload;
      var g := AcceptedIsEncoded(whole[..n], ids);
      CutRest(whole, n, Encode(g), rest);
      Unambiguous(g, rest + whole[n..], h, [], ids);
    }
  }

  // ---------------------------------------------------------------- the host names are faithful

  lemma DigitInjective(a: nat, b: nat)
    requires a < 16 && b < 16 && Digit(a) == Digit(b)
    ensures a == b
  {
  }

  lemma {:induction false} DigitsInjective(a: nat, b: nat, hex: bool)
    requires Digits(a, hex) == Digits(b, hex)
    ensures a == b
    decreases a
  {
    var s, t := Digits(a, hex), Digits(b, hex);
    assert Last(s) == Digit(Remainder(a, hex)) && Last(t) == Digit(Remainder(b, hex));
    DigitInjective(Remainder(a, hex), Remainder(b, hex));
    if Quotient(a, hex) != 0 && Quotient(b, hex) != 0 {
      assert Init(s) == Digits(Quotient(a, hex), hex) && Init(t) == Digits(Quotient(b, hex), hex);
      DigitsInjective(Quotient(a, hex), Quotient(b, hex), hex);
    }
  }

  predicate IsPoint(c: char) { c == '.' }

  predicate IsColon(c: char) { c == ':' }

  lemma {:induction false} DigitsFree(n: nat, hex: bool)
    ensures Free(Digits(n, hex), IsPoint) && Free(Digits(n, hex), IsColon)
    decreases n
  {
    if Quotient(n, hex) == 0 {
      DigitPlain(n);
      assert Digits(n, hex) == [Digit(n)];
    } else {
      var before := Digits(Quotient(n, hex), hex);
      DigitsFree(Quotient(n, hex), hex);
      DigitPlain(Remainder(n, hex));
      assert Digits(n, hex) == before + [Digit(Remainder(n, hex))];
    }
  }

  lemma DigitPlain(n: nat)
    requires n < 16
    ensures Digit(n) != '.' && Digit(n) != ':'
  {
  }

  /** Distinct IPv4 addresses are dialled by distinct names. */
  lemma V4Faithful(x: Bytes, y: Bytes)
    requires |x| == 4 && |y| == 4 && HostText(V4(x)) == HostText(V4(y))
    ensures x == y
  {
    forall i | 0 <= i < 4 ensures Free(Decimals(x)[i], IsPoint) && Free(Decimals(y)[i], IsPoint) {
      DigitsFree(x[i], false);
      DigitsFree(y[i], false);
    }
    SplitJoin(Decimals(x), '.', IsPoint);
    SplitJoin(Decimals(y), '.', IsPoint);
    forall i | 0 <= i < 4 ensures x[i] == y[i] {
      assert Decimals(x)[i] == Decimals(y)[i];
      DigitsInjective(x[i], y[i], false);
    }
  }

  lemma GroupsSplit(x: Bytes)
    requires |x| == 16
    ensures Split(Join(Groups(x), ':'), IsColon) == Groups(x)
  {
    forall i | 0 <= i < 8 ensures Free(Groups(x)[i], IsColon) {
      DigitsFree(Pair(x[2 * i], x[2 * i + 1]), true);
    }
    SplitJoin(Groups(x), ':', IsColon);
  }

  lemma GroupFaithful(x: Bytes, y: Bytes, i: nat)
    requires |x| == 16 && |y| == 16 && i < 8 && Groups(x)[i] == Groups(y)[i]
    ensures x[2 * i] == y[2 * i] && x[2 * i + 1] == y[2 * i + 1]
  {
    DigitsInjective(Pair(x[2 * i], x[2 * i + 1]), Pair(y[2 * i], y[2 * i + 1]), true);
  }

  lemma Bracketed(s: string, t: string)
    requires "[" + s + "]" == "[" + t + "]"
    ensures s == t
  {
    assert s == ("[" + s + "]")[1..|s| + 1] && t == ("[" + t + "]")[1..|t| + 1];
  }

  lemma InPairs(x: Bytes, y: Bytes)
    requires |x| == 16 && |y| == 16
    requires forall k: nat | k < 8 :: x[2 * k] == y[2 * k] && x[2 * k + 1] == y[2 * k + 1]
    ensures x == y
  {
    forall i | 0 <= i < 16
      ensures x[i] == y[i]
    {
      var k := i / 2;
      assert x[2 * k] == y[2 * k] && x[2 * k + 1] == y[2 * k + 1];
      assert i == 2 * k || i == 2 * k + 1;
    }
  }

  /** Distinct IPv6 addresses are dialled by distinct names. */
  lemma V6Faithful(x: Bytes, y: Bytes)
    requires |x| == 16 && |y| == 16 && HostText(V6(x)) == HostText(V6(y))
    ensures x == y
  {
    Bracketed(Join(Groups(x), ':'), Join(Groups(y), ':'));
    GroupsSplit(x);
    GroupsSplit(y);
    assert Groups(x) == Groups(y);
    forall k: nat | k < 8
      ensures x[2 * k] == y[2 * k] && x[2 * k + 1] == y[2 * k + 1]
    {
      GroupFaithful(x, y, k);
    }
    InPairs(x, y);
  }

  // ---------------------------------------------------------------- the code's own loops

  lemma NextBits(b: bv8)
    requires b != 255
    ensures (b + 1) as int == b as int + 1
  {
  }

  /** The bits of a byte. */
  function Bits(a: byte): (b: bv8)
    ensures b as int == a
  {
    if a == 0 then 0
    else
      NextBits(Bits(a - 1));
      Bits(a - 1) + 1
  }

  /** One step of the comparison: the accumulator stays zero exactly while the bytes agree. */
  lemma Accumulates(x: bv8, a: byte, b: byte)
    ensures x | (Bits(a) ^ Bits(b)) == 0 <==> x == 0 && a == b
  {
  }

  lemma WordBits(hi: bv8, lo: bv8)
    ensures (((hi as bv16) << 8) | (lo as bv16)) as int == 256 * hi as int + lo as int
  {
  }

  method Word(hi: byte, lo: byte) returns (word: nat)
    ensures word == Pair(hi, lo)
  {
    WordBits(Bits(hi), Bits(lo));
    word := (((Bits(hi) as bv16) << 8) | (Bits(lo) as bv16)) as int;
  }

  /** Every byte is compared, whatever mismatched before. */
  method Differs(user: Bytes, id: Bytes) returns (different: bv8)
    requires |user| == 16 && |id| == 16
    ensures different == 0 <==> user == id
  {
    different := 0;
    for i := 0 to 16
      invariant different == 0 <==> user[..i] == id[..i]
    {
      Accumulates(different, user[i], id[i]);
      OneMoreByte(user, id, i);
      different := different | (Bits(user[i]) ^ Bits(id[i]));
    }
    assert user[..16] == user && id[..16] == id;
  }

  lemma OneMoreByte(x: Bytes, y: Bytes, i: nat)
    requires i < |x| && i < |y|
    ensures x[..i + 1] == y[..i + 1] <==> x[..i] == y[..i] && x[i] == y[i]
  {
    assert x[..i + 1] == x[..i] + [x[i]] && y[..i + 1] == y[..i] + [y[i]];
  }

  /** Every UUID is compared, whatever matched before; the answer is membership. */
  method Admits(user: Bytes, ids: seq<Bytes>) returns (admitted: bool)
    requires |user| == 16 && forall k :: 0 <= k < |ids| ==> |ids[k]| == 16
    ensures admitted <==> user in ids
  {
    var matched: bv8 := 0;
    for k := 0 to |ids|
      invariant matched == 0 || matched == 1
      invariant matched == 0 <==> user !in ids[..k]
    {
      var different := Differs(user, ids[k]);
      assert ids[..k + 1] == ids[..k] + [ids[k]];
      matched := matched | (if different == 0 then 1 else 0);
    }
    assert ids[..|ids|] == ids;
    admitted := matched != 0;
  }

  lemma AllGroups(octets: Bytes, groups: seq<string>)
    requires |octets| == 16 && |groups| == 8 && forall k | 0 <= k < 8 :: groups[k] == Group(octets, k)
    ensures groups == Groups(octets)
  {
  }

  lemma GroupAt(octets: Bytes, i: nat, k: nat)
    requires i == 2 * k && i + 1 < |octets|
    ensures Group(octets, k) == Digits(Pair(octets[i], octets[i + 1]), true)
  {
  }

  method GroupTexts(octets: Bytes) returns (groups: seq<string>)
    requires |octets| == 16
    ensures groups == Groups(octets)
  {
    groups := [];
    var i := 0;
    while i < 16
      invariant 0 <= i <= 16 && i == 2 * |groups|
      invariant forall k | 0 <= k < |groups| :: groups[k] == Group(octets, k)
    {
      var word := Word(octets[i], octets[i + 1]);
      GroupAt(octets, i, |groups|);
      groups := groups + [Digits(word, true)];
      i := i + 2;
    }
    AllGroups(octets, groups);
  }

  datatype Host = Host(text: string, end: nat) | NoHost(why: Refusal)

  /** The branches on the address type: the text to dial, and where the payload begins. */
  method ReadHost(bytes: Bytes, at: nat, kind: byte) returns (r: Host)
    requires at <= |bytes|
    ensures r == match ParseAddress(bytes, at, kind)
      case Located(address, end) => Host(HostText(address), end)
      case Nowhere(why) => NoHost(why)
  {
    if kind == 1 {
      if |bytes| < at + 4 {
        return NoHost(Short);
      }
      return Host(Join(Decimals(bytes[at..at + 4]), '.'), at + 4);
    } else if kind == 2 {
      if |bytes| == at || bytes[at] == 0 {
        return NoHost(Short);
      }
      var length: int := bytes[at];
      if |bytes| < at + 1 + length {
        return NoHost(Short);
      }
      var raw := bytes[at + 1..at + 1 + length];
      if !NameOk(raw) {
        return NoHost(BadAddress);
      }
      return Host(Ascii(Unmarked(raw)), at + 1 + length);
    } else if kind == 3 {
      if |bytes| < at + 16 {
        return NoHost(Short);
      }
      var groups := GroupTexts(bytes[at..at + 16]);
      return Host("[" + Join(groups, ':') + "]", at + 16);
    }
    return NoHost(BadAddress);
  }

  method ParseRequest(bytes: Bytes, ids: seq<Bytes>) returns (r: Outcome)
    requires forall k :: 0 <= k < |ids| ==> |ids[k]| == 16
    ensures r == Parse(bytes, ids)
  {
    if |bytes| < 18 {
      return Refused(Short);
    }
    var admitted := Admits(bytes[1..17], ids);
    if !admitted {
      return Refused(User);
    }
    var n: int := bytes[17];
    var at := 18 + n;
    if |bytes| < at + 4 {
      return Refused(Short);
    }
    var command := bytes[at];
    var port := Word(bytes[at + 1], bytes[at + 2]);
    var host := ReadHost(bytes, at + 4, bytes[at + 3]);
    if host.NoHost? {
      return Refused(host.why);
    }
    if port == 0 || (command != TCP && command != UDP) {
      return Refused(BadCommand);
    }
    r := Accepted(Request(bytes[0], command, host.text, port, bytes[host.end..]));
  }

  // ---------------------------------------------------------------- UUIDs

  predicate IsHex(c: char)
  {
    '0' <= c <= '9' || 'a' <= c <= 'f' || 'A' <= c <= 'F'
  }

  function HexValue(c: char): (v: nat)
    requires IsHex(c)
    ensures v < 16
  {
    if c <= '9' then c as int - '0' as int
    else if c <= 'F' then c as int - 'A' as int + 10
    else c as int - 'a' as int + 10
  }

  function NoDashes(s: string): string
  {
    if s == "" then "" else (if s[0] == '-' then "" else [s[0]]) + NoDashes(s[1..])
  }

  function ByteAt(hex: string, i: nat): byte
    requires 2 * i + 1 < |hex| && IsHex(hex[2 * i]) && IsHex(hex[2 * i + 1])
  {
    16 * HexValue(hex[2 * i]) + HexValue(hex[2 * i + 1])
  }

  predicate UuidText(hex: string)
  {
    |hex| == 32 && forall i :: 0 <= i < 32 ==> IsHex(hex[i])
  }

  function UuidOf(text: string): Option<Bytes>
  {
    var hex := NoDashes(text);
    if !UuidText(hex) then None
    else Some(seq(16, i requires 0 <= i < 16 => ByteAt(hex, i)))
  }

  method UuidBytes(text: string) returns (id: Option<Bytes>)
    ensures id == UuidOf(text)
  {
    var hex := NoDashes(text);
    if !UuidText(hex) {
      return None;
    }
    var bytes := new byte[16];
    for i := 0 to 16
      invariant forall j :: 0 <= j < i ==> bytes[j] == ByteAt(hex, j)
    {
      bytes[i] := ByteAt(hex, i);
    }
    assert bytes[..] == UuidOf(text).value;
    id := Some(bytes[..]);
  }

  function LowerHex(c: char): char
  {
    if 'A' <= c <= 'F' then (c as int + 32) as char else c
  }

  lemma HexDigit(c: char, v: nat)
    requires v < 16
    ensures IsHex(c) && HexValue(c) == v <==> LowerHex(c) == Digit(v)
  {
  }

  /** Characters `a`, `b` are the hexadecimal of `x`, in either case. */
  predicate Spells(a: char, b: char, x: byte)
  {
    LowerHex(a) == Digit(x / 16) && LowerHex(b) == Digit(x % 16)
  }

  lemma SpellsIff(a: char, b: char, x: byte)
    ensures Spells(a, b, x) <==> IsHex(a) && IsHex(b) && 16 * HexValue(a) + HexValue(b) == x
  {
    HexDigit(a, x / 16);
    HexDigit(b, x % 16);
  }

  /** A text names a UUID exactly when, dashes and letter case aside, it is that UUID's hexadecimal. */
  lemma UuidIff(text: string, id: Bytes)
    requires |id| == 16
    ensures var hex := NoDashes(text);
      UuidOf(text) == Some(id) <==>
        |hex| == 32 && forall i :: 0 <= i < 16 ==> Spells(hex[2 * i], hex[2 * i + 1], id[i])
  {
    var hex := NoDashes(text);
    if |hex| == 32 {
      forall i | 0 <= i < 16
        ensures Spells(hex[2 * i], hex[2 * i + 1], id[i]) <==>
          IsHex(hex[2 * i]) && IsHex(hex[2 * i + 1]) && ByteAt(hex, i) == id[i]
      {
        SpellsIff(hex[2 * i], hex[2 * i + 1], id[i]);
      }
      if UuidOf(text) == Some(id) {
        assert forall i :: 0 <= i < 16 ==> ByteAt(hex, i) == id[i];
      }
      if forall i :: 0 <= i < 16 ==> Spells(hex[2 * i], hex[2 * i + 1], id[i]) {
        SpelledOut(hex, id);
      }
    }
  }

  lemma SpelledOut(hex: string, id: Bytes)
    requires |id| == 16 && |hex| == 32 && forall i :: 0 <= i < 16 ==> Spells(hex[2 * i], hex[2 * i + 1], id[i])
    ensures UuidText(hex) && seq(16, i requires 0 <= i < 16 => ByteAt(hex, i)) == id
  {
    forall j | 0 <= j < 32 ensures IsHex(hex[j]) {
      var i := j / 2;
      SpellsIff(hex[2 * i], hex[2 * i + 1], id[i]);
    }
    forall i | 0 <= i < 16 ensures ByteAt(hex, i) == id[i] {
      SpellsIff(hex[2 * i], hex[2 * i + 1], id[i]);
    }
  }

  // ---------------------------------------------------------------- lists of UUIDs

  function NonBlank(pieces: seq<string>): seq<string>
  {
    if pieces == [] then []
    else
      var entry := Trim(pieces[0], IsTrimmed);
      (if entry == "" then [] else [entry]) + NonBlank(pieces[1..])
  }

  function AllUuids(entries: seq<string>): Option<seq<Bytes>>
  {
    if entries == [] then Some([])
    else
      match (UuidOf(entries[0]), AllUuids(entries[1..]))
      case (Some(id), Some(rest)) => Some([id] + rest)
      case _ => None
  }

  function UuidList(text: string): Option<seq<Bytes>>
  {
    var entries := NonBlank(Split(text, IsComma));
    if entries == [] then None else AllUuids(entries)
  }

  lemma {:induction false} NoDashesHolds(text: string, i: nat)
    requires i < |text| && text[i] != '-'
    ensures text[i] in NoDashes(text)
  {
    if i > 0 {
      NoDashesHolds(text[1..], i - 1);
    }
  }

  lemma UuidChars(text: string)
    requires UuidOf(text).Some?
    ensures text != "" && forall i :: 0 <= i < |text| ==> IsHex(text[i]) || text[i] == '-'
  {
    forall i | 0 <= i < |text| && text[i] != '-' ensures IsHex(text[i]) {
      NoDashesHolds(text, i);
    }
  }

  lemma {:induction false} EntriesAsGiven(texts: seq<string>, ids: seq<Bytes>)
    requires |texts| == |ids| && forall i :: 0 <= i < |ids| ==> UuidOf(texts[i]) == Some(ids[i])
    ensures NonBlank(texts) == texts && AllUuids(texts) == Some(ids)
  {
    if texts != [] {
      UuidChars(texts[0]);
      assert Trim(texts[0], IsTrimmed) == texts[0];
      EntriesAsGiven(texts[1..], ids[1..]);
      assert ids == [ids[0]] + ids[1..];
    }
  }

  /** A comma-separated list of UUIDs, each written any way UuidOf reads, admits exactly those. */
  lemma ListRoundTrip(texts: seq<string>, ids: seq<Bytes>)
    requires texts != [] && |texts| == |ids|
    requires forall i :: 0 <= i < |ids| ==> UuidOf(texts[i]) == Some(ids[i])
    ensures UuidList(Join(texts, ',')) == Some(ids)
  {
    forall i | 0 <= i < |texts| ensures Free(texts[i], IsComma) {
      UuidChars(texts[i]);
    }
    SplitJoin(texts, ',', IsComma);
    EntriesAsGiven(texts, ids);
  }

  /** Blanks, a UUID written any way UuidOf reads, and blanks. */
  ghost predicate Names(piece: string, id: Bytes)
  {
    exists lead, core, tail :: Padded(piece, lead, core, tail) && UuidOf(core) == Some(id)
  }

  ghost predicate Padded(piece: string, lead: string, core: string, tail: string)
  {
    piece == lead + core + tail && All(lead, IsTrimmed) && All(tail, IsTrimmed)
  }

  /** Each piece is blank or names the next of `ids`. */
  ghost predicate Enumerates(pieces: seq<string>, ids: seq<Bytes>)
  {
    if pieces == [] then ids == []
    else if All(pieces[0], IsTrimmed) then Enumerates(pieces[1..], ids)
    else ids != [] && Names(pieces[0], ids[0]) && Enumerates(pieces[1..], ids[1..])
  }

  lemma BlankIff(piece: string)
    ensures Trim(piece, IsTrimmed) == "" <==> All(piece, IsTrimmed)
  {
    TrimEmptyIff(piece, IsTrimmed);
  }

  lemma NamesIff(piece: string, id: Bytes)
    ensures Names(piece, id) <==> UuidOf(Trim(piece, IsTrimmed)) == Some(id)
  {
    if Names(piece, id) {
      var lead, core, tail :| Padded(piece, lead, core, tail) && UuidOf(core) == Some(id);
      UuidChars(core);
      TrimAround(lead, core, tail, IsTrimmed);
    } else {
      var lead, tail := TrimSplit(piece, IsTrimmed);
      assert Padded(piece, lead, Trim(piece, IsTrimmed), tail);
    }
  }

  lemma {:induction false} EnumeratesIff(pieces: seq<string>, ids: seq<Bytes>)
    ensures Enumerates(pieces, ids) <==> AllUuids(NonBlank(pieces)) == Some(ids)
  {
    if pieces != [] {
      BlankIff(pieces[0]);
      if All(pieces[0], IsTrimmed) {
        EnumeratesIff(pieces[1..], ids);
        assert [] + NonBlank(pieces[1..]) == NonBlank(pieces[1..]);
      } else {
        var entry, rest := Trim(pieces[0], IsTrimmed), NonBlank(pieces[1..]);
        assert ([entry] + rest)[1..] == rest;
        if ids != [] {
          NamesIff(pieces[0], ids[0]);
          EnumeratesIff(pieces[1..], ids[1..]);
          assert ids == [ids[0]] + ids[1..];
        }
      }
    }
  }

  lemma {:induction false} SomeEntry(pieces: seq<string>, ids: seq<Bytes>)
    requires Enumerates(pieces, ids)
    ensures NonBlank(pieces) == [] <==> ids == []
  {
    if pieces != [] {
      BlankIff(pieces[0]);
      if All(pieces[0], IsTrimmed) {
        SomeEntry(pieces[1..], ids);
      }
    }
  }

  /** Pieces between commas, none of them holding one. */
  ghost predicate Listing(text: string, pieces: seq<string>)
  {
    pieces != [] && text == Join(pieces, ',') && forall i :: 0 <= i < |pieces| ==> Free(pieces[i], IsComma)
  }

  /**
   A text admits exactly `ids` when it lists them in order between commas, blanks around entries and blank entries
   aside.
   */
  lemma ListIff(text: string, ids: seq<Bytes>)
    ensures UuidList(text) == Some(ids)
       <==> ids != [] && exists pieces :: Listing(text, pieces) && Enumerates(pieces, ids)
  {
    var pieces := Split(text, IsComma);
    JoinSplit(text, ',', IsComma);
    assert Listing(text, pieces);
    EnumeratesIff(pieces, ids);
    if Enumerates(pieces, ids) {
      SomeEntry(pieces, ids);
    }
    forall others | Listing(text, others) && Enumerates(others, ids)
      ensures others == pieces
    {
      SplitJoin(others, ',', IsComma);
    }
    if UuidList(text) == Some(ids) && ids == [] {
      SomeEntry(pieces, ids);
    }
  }
}
