/** The SOCKS5 wire formats of src/relay/socks5.rs (sections 4 to 7 of RFC 1928). */
module Socks5 {
  import opened Bytes

  const SOCKS5_VERSION: byte := 0x05

  const SOCKS5_ADDR_TYPE_IPV4: byte := 0x01
  const SOCKS5_ADDR_TYPE_DOMAIN_NAME: byte := 0x03
  const SOCKS5_ADDR_TYPE_IPV6: byte := 0x04

  type u16 = x: int | 0 <= x < 0x1_0000
  type u32 = x: int | 0 <= x < 0x1_0000_0000

  datatype Error = UnexpectedEof | InvalidEncoding | AddressTypeNotSupported | VersionNotSupported
                 | CommandNotSupported | Fragmented

  /** A value read from the front of a stream and the bytes after it. */
  datatype Result<+T> = Ok(value: T, rest: seq<byte>) | Err(error: Error)

  datatype Address =
    | Ipv4(octets: seq<byte>, port: u16)
    | Ipv6(segments: seq<u16>, port: u16, flowInfo: u32, scopeId: u32)
    | Domain(name: seq<byte>, port: u16)

  predicate Continuation(b: byte) { 0x80 <= b < 0xC0 }

  /** Length of the UTF-8 sequence at the front, or 0 if there is no valid one. */
  function Utf8Len(s: seq<byte>): (n: nat)
    ensures n <= |s| && n <= 4
  {
    if s == [] then 0
    else if s[0] < 0x80 then 1
    else if |s| >= 2 && 0xC2 <= s[0] < 0xE0 && Continuation(s[1]) then 2
    else if |s| >= 3 && 0xE0 <= s[0] < 0xF0 && Continuation(s[1]) && Continuation(s[2])
         && (s[0] == 0xE0 ==> s[1] >= 0xA0) && (s[0] == 0xED ==> s[1] < 0xA0) then 3
    else if |s| >= 4 && 0xF0 <= s[0] < 0xF5 && Continuation(s[1]) && Continuation(s[2]) && Continuation(s[3])
         && (s[0] == 0xF0 ==> s[1] >= 0x90) && (s[0] == 0xF4 ==> s[1] < 0x90) then 4
    else 0
  }

  /** The byte strings that a `String` can hold. */
  predicate ValidUtf8(s: seq<byte>)
    decreases |s|
  {
    s == [] || (Utf8Len(s) > 0 && ValidUtf8(s[Utf8Len(s)..]))
  }

  /** A Unicode scalar value: any code point but a surrogate. */
  predicate Scalar(c: nat)
  {
    c < 0x11_0000 && !(0xD800 <= c < 0xE000)
  }

  /** Its encoding (section 3 of RFC 3629). */
  function Utf8(c: nat): (s: seq<byte>)
    requires Scalar(c)
  {
    if c < 0x80 then [c]
    else if c < 0x800 then [0xC0 + c / 0x40, 0x80 + c % 0x40]
    else if c < 0x1_0000 then [0xE0 + c / 0x1000, 0x80 + c / 0x40 % 0x40, 0x80 + c % 0x40]
    else [0xF0 + c / 0x4_0000, 0x80 + c / 0x1000 % 0x40, 0x80 + c / 0x40 % 0x40, 0x80 + c % 0x40]
  }

  function Utf8All(text: seq<nat>): (s: seq<byte>)
    requires forall i :: 0 <= i < |text| ==> Scalar(text[i])
  {
    if text == [] then [] else Utf8(text[0]) + Utf8All(text[1..])
  }

  lemma Utf8IsOne(c: nat, rest: seq<byte>)
    requires Scalar(c)
    ensures Utf8(c) != [] && Utf8Len(Utf8(c) + rest) == |Utf8(c)|
  {
    hide Utf8Len;
    var s := Utf8(c);
    if |s| == 2 {
      TwoLong(s + rest);
    } else if |s| == 3 {
      ThreeLong(c, s + rest);
    } else if |s| == 4 {
      FourLong(c, s + rest);
    } else {
      OneLong(s + rest);
    }
  }

  lemma OneLong(s: seq<byte>)
    requires s != [] && s[0] < 0x80
    ensures Utf8Len(s) == 1
  {
  }

  lemma TwoLong(s: seq<byte>)
    requires |s| >= 2 && 0xC2 <= s[0] < 0xE0 && 0x80 <= s[1] < 0xC0
    ensures Utf8Len(s) == 2
  {
  }

  lemma ThreeLong(c: nat, s: seq<byte>)
    requires 0x800 <= c < 0x1_0000 && Scalar(c) && Utf8(c) <= s
    ensures Utf8Len(s) == 3
  {
    var t := Utf8(c);
    assert s[0] == t[0] && s[1] == t[1] && s[2] == t[2];
    assert c < 0x1000 ==> c / 0x1000 == 0 && c / 0x40 >= 0x20;
  }

  lemma FourLong(c: nat, s: seq<byte>)
    requires 0x1_0000 <= c && Scalar(c) && Utf8(c) <= s
    ensures Utf8Len(s) == 4
  {
    var t := Utf8(c);
    assert s[0] == t[0] && s[1] == t[1] && s[2] == t[2] && s[3] == t[3];
  }

  lemma Utf8Two(x: int, y: int) returns (c: nat)
    requires 0xC2 <= x < 0xE0 && 0x80 <= y < 0xC0
    ensures 0x80 <= c < 0x800 && 0xC0 + c / 0x40 == x && 0x80 + c % 0x40 == y
  {
    c := (x - 0xC0) * 0x40 + (y - 0x80);
  }

  lemma Utf8Three(x: int, y: int, z: int) returns (c: nat)
    requires 0xE0 <= x < 0xF0 && 0x80 <= y < 0xC0 && 0x80 <= z < 0xC0
    requires (x == 0xE0 ==> y >= 0xA0) && (x == 0xED ==> y < 0xA0)
    ensures 0x800 <= c < 0x1_0000 && !(0xD800 <= c < 0xE000)
    ensures 0xE0 + c / 0x1000 == x && 0x80 + c / 0x40 % 0x40 == y && 0x80 + c % 0x40 == z
  {
    c := (x - 0xE0) * 0x1000 + (y - 0x80) * 0x40 + (z - 0x80);
    assert c / 0x40 == (x - 0xE0) * 0x40 + (y - 0x80);
  }

  lemma Utf8Four(x: int, y: int, z: int, w: int) returns (c: nat)
    requires 0xF0 <= x < 0xF5 && 0x80 <= y < 0xC0 && 0x80 <= z < 0xC0 && 0x80 <= w < 0xC0
    requires (x == 0xF0 ==> y >= 0x90) && (x == 0xF4 ==> y < 0x90)
    ensures 0x1_0000 <= c < 0x11_0000 && 0xF0 + c / 0x4_0000 == x && 0x80 + c / 0x1000 % 0x40 == y
    ensures 0x80 + c / 0x40 % 0x40 == z && 0x80 + c % 0x40 == w
  {
    c := (x - 0xF0) * 0x4_0000 + (y - 0x80) * 0x1000 + (z - 0x80) * 0x40 + (w - 0x80);
    assert c / 0x40 == (x - 0xF0) * 0x1000 + (y - 0x80) * 0x40 + (z - 0x80);
    assert c / 0x1000 == (x - 0xF0) * 0x40 + (y - 0x80);
  }

  lemma OneIsUtf8(s: seq<byte>) returns (c: nat)
    requires Utf8Len(s) > 0
    ensures Scalar(c) && Utf8(c) == s[..Utf8Len(s)]
  {
    var n := Utf8Len(s);
    if n == 1 {
      c := s[0];
    } else if n == 2 {
      c := Utf8Two(s[0], s[1]);
    } else if n == 3 {
      c := Utf8Three(s[0], s[1], s[2]);
    } else {
      c := Utf8Four(s[0], s[1], s[2], s[3]);
    }
  }

  /** Encoded text is accepted. */
  lemma {:induction false} EncodedIsValid(text: seq<nat>)
    requires forall i :: 0 <= i < |text| ==> Scalar(text[i])
    ensures ValidUtf8(Utf8All(text))
  {
    if text != [] {
      hide Utf8, Utf8Len;
      var s, rest := Utf8(text[0]), Utf8All(text[1..]);
      Utf8IsOne(text[0], rest);
      assert (s + rest)[|s|..] == rest;
      EncodedIsValid(text[1..]);
    }
  }

  /** And nothing else is. */
  lemma {:induction false} ValidIsEncoded(s: seq<byte>) returns (text: seq<nat>)
    requires ValidUtf8(s)
    ensures (forall i :: 0 <= i < |text| ==> Scalar(text[i])) && s == Utf8All(text)
    decreases |s|
  {
    hide Utf8, Utf8Len, Scalar, Utf8All;
    if s == [] {
      text := [];
      NoText();
    } else {
      var n := Utf8Len(s);
      var c := OneIsUtf8(s);
      var rest := ValidIsEncoded(s[n..]);
      text := [c] + rest;
      OneMore(c, rest);
      assert s == s[..n] + s[n..];
    }
  }

  lemma NoText()
    ensures Utf8All([]) == []
  {
  }

  lemma OneMore(c: nat, rest: seq<nat>)
    requires Scalar(c) && forall i :: 0 <= i < |rest| ==> Scalar(rest[i])
    ensures forall i :: 0 <= i < |[c] + rest| ==> Scalar(([c] + rest)[i])
    ensures Utf8All([c] + rest) == Utf8(c) + Utf8All(rest)
  {
    hide Utf8, Scalar;
    assert ([c] + rest)[1..] == rest;
  }

  /** What the types of the source guarantee of an address. */
  predicate WellFormed(a: Address)
  {
    match a
    case Ipv4(octets, _) => |octets| == 4
    case Ipv6(segments, _, _, _) => |segments| == 8
    case Domain(name, _) => ValidUtf8(name)
  }

  /** The writer asserts that a domain name fits its length byte. */
  predicate Encodable(a: Address)
  {
    WellFormed(a) && (a.Domain? ==> |a.name| <= 255)
  }

  function PutU16s(words: seq<u16>): (s: seq<byte>)
    ensures |s| == 2 * |words|
  {
    if words == [] then [] else Be16(words[0]) + PutU16s(words[1..])
  }

  function GetU16s(s: seq<byte>): (words: seq<u16>)
    requires |s| % 2 == 0
    ensures 2 * |words| == |s|
  {
    if s == [] then [] else [FromBe16(s[..2])] + GetU16s(s[2..])
  }

  lemma {:induction false} U16sRoundTrip(words: seq<u16>)
    ensures GetU16s(PutU16s(words)) == words
  {
    if words != [] {
      var s := PutU16s(words);
      assert s[..2] == Be16(words[0]) && s[2..] == PutU16s(words[1..]);
      U16sRoundTrip(words[1..]);
    }
  }

  lemma {:induction false} U16sRewrite(s: seq<byte>)
    requires |s| % 2 == 0
    ensures PutU16s(GetU16s(s)) == s
  {
    if s != [] {
      var w := GetU16s(s);
      U16sRewrite(s[2..]);
      Be16OfFromBe16(s[..2]);
      assert w[1..] == GetU16s(s[2..]);
      assert s == s[..2] + s[2..];
    }
  }

  function SerializedLen(a: Address): (n: nat)
  {
    match a
    case Ipv4(_, _) => 1 + 4 + 2
    case Ipv6(_, _, _, _) => 1 + 8 * 2 + 2
    case Domain(name, _) => 1 + 1 + |name| + 2
  }

  /** The bytes `write_to_buf` appends. */
  function Write(a: Address): (s: seq<byte>)
    requires Encodable(a)
    ensures |s| == SerializedLen(a)
  {
    match a
    case Ipv4(octets, port) => [SOCKS5_ADDR_TYPE_IPV4] + octets + Be16(port)
    case Ipv6(segments, port, _, _) => [SOCKS5_ADDR_TYPE_IPV6] + PutU16s(segments) + Be16(port)
    case Domain(name, port) => [SOCKS5_ADDR_TYPE_DOMAIN_NAME, |name|] + name + Be16(port)
  }

  lemma {:induction false} U16sBytes(words: seq<u16>, k: nat)
    requires k < |words|
    ensures var s := PutU16s(words); s[2 * k] as int * 256 + s[2 * k + 1] == words[k]
  {
    if k > 0 {
      U16sBytes(words[1..], k - 1);
    }
  }

  /** The bytes one by one: the type, the address, and the port with its high byte first. */
  lemma WriteLayout(a: Address)
    requires Encodable(a)
    ensures var s := Write(a);
            && |s| >= 4 && s[|s| - 2] as int * 256 + s[|s| - 1] == a.port
            && (a.Ipv4? ==> |s| == 7 && s[0] == 1 && s[1..5] == a.octets)
            && (a.Domain? ==> |s| == 4 + |a.name| && s[0] == 3 && s[1] == |a.name| && s[2..2 + |a.name|] == a.name)
            && (a.Ipv6? ==> |s| == 19 && s[0] == 4
                            && forall k :: 0 <= k < 8 ==> s[1 + 2 * k] as int * 256 + s[2 + 2 * k] == a.segments[k])
  {
    var s := Write(a);
    var n := |s| - 2;
    assert s[n..] == Be16(a.port);
    assert s[n] == a.port / 256 && s[n + 1] == a.port % 256;
    match a
    case Ipv4(octets, _) => assert s[1..5] == octets;
    case Domain(name, _) => assert s[2..2 + |name|] == name;
    case Ipv6(segments, _, _, _) =>
      assert s[1..17] == PutU16s(segments);
      forall k | 0 <= k < 8
        ensures s[1 + 2 * k] as int * 256 + s[2 + 2 * k] == segments[k]
      {
        U16sBytes(segments, k);
        assert s[1 + 2 * k] == s[1..17][2 * k] && s[2 + 2 * k] == s[1..17][2 * k + 1];
      }
  }

  /** `Address::read_from`: four exact reads at most, each an error if the stream ends in it. */
  function Read(s: seq<byte>): (r: Result<Address>)
    ensures r.Ok? ==> WellFormed(r.value)
  {
    if |s| < 1 then Err(UnexpectedEof)
    else if s[0] == SOCKS5_ADDR_TYPE_IPV4 then
      if |s| < 7 then Err(UnexpectedEof)
      else Ok(Ipv4(s[1..5], FromBe16(s[5..7])), s[7..])
    else if s[0] == SOCKS5_ADDR_TYPE_IPV6 then
      if |s| < 19 then Err(UnexpectedEof)
      else Ok(Ipv6(GetU16s(s[1..17]), FromBe16(s[17..19]), 0, 0), s[19..])
    else if s[0] == SOCKS5_ADDR_TYPE_DOMAIN_NAME then
      if |s| < 2 || |s| < 4 + s[1] as int then Err(UnexpectedEof)
      else
        var n: int := s[1];
        if ValidUtf8(s[2..2 + n]) then Ok(Domain(s[2..2 + n], FromBe16(s[2 + n..4 + n])), s[4 + n..])
        else Err(InvalidEncoding)
    else Err(AddressTypeNotSupported)
  }

  /** How long an address with this beginning is, if its type is known. */
  function Needs(s: seq<byte>): (n: nat)
    requires s != [] && (s[0] == 1 || s[0] == 3 || s[0] == 4)
  {
    if s[0] == 1 then 7 else if s[0] == 4 then 19 else if |s| < 2 then 4 else 4 + s[1] as int
  }

  /** When an address is accepted, and which error it is otherwise. */
  lemma ReadOutcome(s: seq<byte>)
    ensures var known := s != [] && (s[0] == 1 || s[0] == 3 || s[0] == 4);
            var whole := known && |s| >= Needs(s);
            var text := whole && s[0] == 3 ==> ValidUtf8(s[2..2 + s[1]]);
            && (Read(s) == Err(AddressTypeNotSupported) <==> s != [] && !known)
            && (Read(s) == Err(UnexpectedEof) <==> s == [] || (known && !whole))
            && (Read(s) == Err(InvalidEncoding) <==> !text)
            && (Read(s).Ok? <==> whole && text)
  {
    hide ValidUtf8;
  }

  /** What survives encoding: an IPv6 flow label and scope are not on the wire. */
  function Carried(a: Address): (c: Address)
  {
    if a.Ipv6? then a.(flowInfo := 0, scopeId := 0) else a
  }

  lemma Parts(a: seq<byte>, b: seq<byte>, c: seq<byte>, d: seq<byte>)
    ensures var s := a + b + c + d;
            && s[..|a|] == a && s[|a|..|a| + |b|] == b
            && s[|a| + |b|..|a| + |b| + |c|] == c && s[|a| + |b| + |c|..] == d
  {
  }

  /** Writing then reading, before any trailing bytes, consumes exactly what was written. */
  lemma ReadWrite(a: Address, rest: seq<byte>)
    requires Encodable(a)
    ensures Read(Write(a) + rest) == Ok(Carried(a), rest)
  {
    match a
    case Ipv4(octets, port) => Parts([SOCKS5_ADDR_TYPE_IPV4], octets, Be16(port), rest);
    case Ipv6(segments, port, _, _) =>
      U16sRoundTrip(segments);
      Parts([SOCKS5_ADDR_TYPE_IPV6], PutU16s(segments), Be16(port), rest);
    case Domain(name, port) =>
      hide ValidUtf8;
      Parts([SOCKS5_ADDR_TYPE_DOMAIN_NAME, |name|], name, Be16(port), rest);
  }

  /** The address comes back unchanged exactly when its flow label and scope are zero. */
  lemma RoundTripIff(a: Address, rest: seq<byte>)
    requires Encodable(a)
    ensures Read(Write(a) + rest) == Ok(a, rest) <==> (a.Ipv6? ==> a.flowInfo == 0 && a.scopeId == 0)
  {
    ReadWrite(a, rest);
  }

  lemma Whole(s: seq<byte>, i: nat, j: nat, k: nat)
    requires i <= j <= k <= |s|
    ensures s == s[..i] + s[i..j] + s[j..k] + s[k..]
  {
  }

  lemma RewriteIpv4(s: seq<byte>)
    requires |s| >= 7 && s[0] == SOCKS5_ADDR_TYPE_IPV4
    ensures s == Write(Ipv4(s[1..5], FromBe16(s[5..7]))) + s[7..]
  {
    Be16OfFromBe16(s[5..7]);
    Whole(s, 1, 5, 7);
    assert s[..1] == [SOCKS5_ADDR_TYPE_IPV4];
  }

  lemma RewriteIpv6(s: seq<byte>)
    requires |s| >= 19 && s[0] == SOCKS5_ADDR_TYPE_IPV6
    ensures s == Write(Ipv6(GetU16s(s[1..17]), FromBe16(s[17..19]), 0, 0)) + s[19..]
  {
    hide GetU16s, PutU16s;
    U16sRewrite(s[1..17]);
    Be16OfFromBe16(s[17..19]);
    Whole(s, 1, 17, 19);
    assert s[..1] == [SOCKS5_ADDR_TYPE_IPV6];
  }

  lemma RewriteDomain(s: seq<byte>, n: nat)
    requires |s| >= 4 + n && s[0] == SOCKS5_ADDR_TYPE_DOMAIN_NAME && s[1] == n && ValidUtf8(s[2..2 + n])
    ensures s == Write(Domain(s[2..2 + n], FromBe16(s[2 + n..4 + n]))) + s[4 + n..]
  {
    hide ValidUtf8;
    Be16OfFromBe16(s[2 + n..4 + n]);
    Whole(s, 2, 2 + n, 4 + n);
    assert s[..2] == [SOCKS5_ADDR_TYPE_DOMAIN_NAME, n];
  }

  /** Every accepted prefix is the encoding of what was read: the format has no second spelling. */
  lemma WriteRead(s: seq<byte>)
    requires Read(s).Ok?
    ensures Encodable(Read(s).value) && s == Write(Read(s).value) + Read(s).rest
  {
    hide ValidUtf8, GetU16s, Write;
    if s[0] == SOCKS5_ADDR_TYPE_IPV4 {
      RewriteIpv4(s);
    } else if s[0] == SOCKS5_ADDR_TYPE_IPV6 {
      RewriteIpv6(s);
    } else {
      RewriteDomain(s, s[1]);
    }
  }

  /** No encoding is a proper prefix of another. */
  lemma PrefixFree(a: Address, b: Address)
    requires Encodable(a) && Encodable(b) && Write(a) <= Write(b)
    ensures Carried(a) == Carried(b)
  {
    ReadWrite(a, Write(b)[|Write(a)|..]);
    ReadWrite(b, []);
    assert Write(a) + Write(b)[|Write(a)|..] == Write(b) + [];
  }

  /**
   How many more bytes the current exact read of `read_from` wants, when `got` was read so
   far; 0 once nothing more will be read.
   */
  function Wants(got: seq<byte>): (n: int)
  {
    if got == [] then 1
    else if got[0] == SOCKS5_ADDR_TYPE_IPV4 then 7 - |got|
    else if got[0] == SOCKS5_ADDR_TYPE_IPV6 then 19 - |got|
    else if got[0] == SOCKS5_ADDR_TYPE_DOMAIN_NAME then
      if |got| < 2 then 1 else 4 + (got[1] as int) - |got|
    else 0
  }

  /**
   A reader that never took more than it wanted stops exactly at the end of the address,
   whatever follows it.
   */
  lemma StopsAtAddress(a: Address, rest: seq<byte>, got: seq<byte>)
    requires Encodable(a) && got <= Write(a) + rest && Wants(got) >= 0
    ensures got <= Write(a)
    ensures Wants(got) == 0 <==> got == Write(a)
  {
    var s := Write(a);
    if got != [] {
      assert got[0] == s[0];
      if |got| >= 2 {
        assert got[1] == s[1];
      }
    }
  }

  datatype Command = TcpConnect | TcpBind | UdpAssociate

  function CommandCode(c: Command): (b: byte)
  {
    match c case TcpConnect => 1 case TcpBind => 2 case UdpAssociate => 3
  }

  function CommandOf(code: byte): (c: Option<Command>)
  {
    if code == 1 then Some(TcpConnect) else if code == 2 then Some(TcpBind)
    else if code == 3 then Some(UdpAssociate) else None
  }

  datatype TcpRequestHeader = TcpRequestHeader(command: Command, address: Address)

  function WriteRequest(h: TcpRequestHeader): (s: seq<byte>)
    requires Encodable(h.address)
  {
    [SOCKS5_VERSION, CommandCode(h.command), 0x00] + Write(h.address)
  }

  lemma RequestLayout(h: TcpRequestHeader)
    requires Encodable(h.address)
    ensures var s := WriteRequest(h);
            && |s| > 3 && s[0] == 5 && s[2] == 0 && s[3..] == Write(h.address)
            && (s[1] == 1 <==> h.command.TcpConnect?) && (s[1] == 2 <==> h.command.TcpBind?)
            && (s[1] == 3 <==> h.command.UdpAssociate?)
  {
    hide Write;
    assert WriteRequest(h)[3..] == Write(h.address);
  }

  /** The reserved byte is read and ignored. */
  function ReadRequest(s: seq<byte>): (r: Result<TcpRequestHeader>)
  {
    if |s| < 3 then Err(UnexpectedEof)
    else if s[0] != SOCKS5_VERSION then Err(VersionNotSupported)
    else match CommandOf(s[1])
      case None => Err(CommandNotSupported)
      case Some(c) =>
        match Read(s[3..])
        case Err(e) => Err(e)
        case Ok(a, rest) => Ok(TcpRequestHeader(c, a), rest)
  }

  lemma RequestRoundTrip(h: TcpRequestHeader, rest: seq<byte>)
    requires Encodable(h.address)
    ensures ReadRequest(WriteRequest(h) + rest) == Ok(h.(address := Carried(h.address)), rest)
  {
    hide Read, Write, Encodable;
    CommandsRoundTrip(h.command);
    var s := WriteRequest(h) + rest;
    assert s[3..] == Write(h.address) + rest;
    ReadWrite(h.address, rest);
    hide CommandOf, CommandCode;
  }

  lemma CommandsRoundTrip(c: Command)
    ensures CommandOf(CommandCode(c)) == Some(c)
  {
  }

  /** An accepted request is spelled as the writer would exactly when its reserved byte is zero. */
  lemma RequestSpelling(s: seq<byte>)
    requires ReadRequest(s).Ok?
    ensures var r := ReadRequest(s);
            Encodable(r.value.address) && (s == WriteRequest(r.value) + r.rest <==> s[2] == 0)
  {
    WriteRead(s[3..]);
    var r := ReadRequest(s);
    FrontBytes(s, SOCKS5_VERSION, s[1], 0, Write(r.value.address), r.rest);
    assert CommandCode(r.value.command) == s[1];
  }

  lemma FrontBytes(s: seq<byte>, x: byte, y: byte, z: byte, tail: seq<byte>, rest: seq<byte>)
    requires |s| >= 3 && s[3..] == tail + rest
    ensures s == ([x, y, z] + tail) + rest <==> s[0] == x && s[1] == y && s[2] == z
  {
    var t := ([x, y, z] + tail) + rest;
    assert t == [x, y, z] + s[3..];
    assert s == [s[0], s[1], s[2]] + s[3..];
    assert t[0] == x && t[1] == y && t[2] == z;
  }

  /** The method count is truncated to a byte when it is written. */
  function WriteHandshake(methods: seq<byte>): (s: seq<byte>)
  {
    [SOCKS5_VERSION, |methods| % 256] + methods
  }

  lemma HandshakeLayout(methods: seq<byte>)
    ensures var s := WriteHandshake(methods);
            |s| >= 2 && s[0] == 5 && s[1] == |methods| % 256 && s[2..] == methods
  {
    assert WriteHandshake(methods)[2..] == methods;
  }

  function ReadHandshake(s: seq<byte>): (r: Result<seq<byte>>)
  {
    if |s| < 2 then Err(UnexpectedEof)
    else if s[0] != SOCKS5_VERSION then Err(VersionNotSupported)
    else
      var n: int := s[1];
      if |s| < 2 + n then Err(UnexpectedEof) else Ok(s[2..2 + n], s[2 + n..])
  }

  /** A handshake request survives exactly when it lists at most 255 methods. */
  lemma HandshakeRoundTripIff(methods: seq<byte>, rest: seq<byte>)
    ensures ReadHandshake(WriteHandshake(methods) + rest) == Ok(methods, rest) <==> |methods| <= 255
  {
    var s := WriteHandshake(methods) + rest;
    var n := |methods| % 256;
    assert s[1] == n;
    if |methods| <= 255 {
      assert s[2..2 + n] == methods && s[2 + n..] == rest;
    } else {
      assert |s[2..2 + n]| < |methods|;
    }
  }

  /** `assemble_packet` of src/relay/udprelay/socks5_local.rs. */
  function AssemblePacket(a: Address, payload: seq<byte>): (s: seq<byte>)
    requires Encodable(a)
  {
    [0x00, 0x00, 0x00] + Write(a) + payload
  }

  lemma PacketLayout(a: Address, payload: seq<byte>)
    requires Encodable(a)
    ensures var s, n := AssemblePacket(a, payload), |Write(a)|;
            |s| >= 3 + n && s[..3] == [0, 0, 0] && s[3..3 + n] == Write(a) && s[3 + n..] == payload
  {
    hide Write;
    var s, n := AssemblePacket(a, payload), |Write(a)|;
    assert s[..3] == [0, 0, 0] && s[3..3 + n] == Write(a) && s[3 + n..] == payload;
  }

  /** `parse_packet`: fragments are refused, only after the address was read. */
  function ParsePacket(s: seq<byte>): (r: Result<Address>)
  {
    if |s| < 3 then Err(UnexpectedEof)
    else match Read(s[3..])
      case Err(e) => Err(e)
      case Ok(a, payload) => if s[2] != 0 then Err(Fragmented) else Ok(a, payload)
  }

  lemma PacketRoundTrip(a: Address, payload: seq<byte>)
    requires Encodable(a)
    ensures ParsePacket(AssemblePacket(a, payload)) == Ok(Carried(a), payload)
  {
    assert AssemblePacket(a, payload)[3..] == Write(a) + payload;
    ReadWrite(a, payload);
  }

  /** An accepted packet is what `assemble_packet` gives exactly when its reserved bytes are zero. */
  lemma PacketSpelling(s: seq<byte>)
    requires ParsePacket(s).Ok?
    ensures var r := ParsePacket(s);
            Encodable(r.value) && (s == AssemblePacket(r.value, r.rest) <==> s[0] == 0 && s[1] == 0)
  {
    WriteRead(s[3..]);
    var r := ParsePacket(s);
    FrontBytes(s, 0, 0, 0, Write(r.value), r.rest);
  }
}
