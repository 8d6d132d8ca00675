/** The SOCKS5 reply header, `TcpResponseHeader` of src/relay/socks5.rs (section 6 of RFC 1928). */
module Socks5Reply {
  import opened Bytes
  import Socks5

  datatype Reply =
    | Succeeded
    | GeneralFailure
    | ConnectionNotAllowed
    | NetworkUnreachable
    | HostUnreachable
    | ConnectionRefused
    | TtlExpired
    | CommandNotSupported
    | AddressTypeNotSupported
    | OtherReply(code: byte)

  function AsByte(r: Reply): (b: byte)
  {
    match r
    case Succeeded => 0x00
    case GeneralFailure => 0x01
    case ConnectionNotAllowed => 0x02
    case NetworkUnreachable => 0x03
    case HostUnreachable => 0x04
    case ConnectionRefused => 0x05
    case TtlExpired => 0x06
    case CommandNotSupported => 0x07
    case AddressTypeNotSupported => 0x08
    case OtherReply(code) => code
  }

  function FromByte(b: byte): (r: Reply)
  {
    if b == 0x00 then Succeeded
    else if b == 0x01 then GeneralFailure
    else if b == 0x02 then ConnectionNotAllowed
    else if b == 0x03 then NetworkUnreachable
    else if b == 0x04 then HostUnreachable
    else if b == 0x05 then ConnectionRefused
    else if b == 0x06 then TtlExpired
    else if b == 0x07 then CommandNotSupported
    else if b == 0x08 then AddressTypeNotSupported
    else OtherReply(b)
  }

  datatype TcpResponseHeader = TcpResponseHeader(reply: Reply, address: Socks5.Address)

  function Write(h: TcpResponseHeader): (s: seq<byte>)
    requires Socks5.Encodable(h.address)
  {
    [Socks5.SOCKS5_VERSION, AsByte(h.reply), 0x00] + Socks5.Write(h.address)
  }

  /** The codes of section 6 of RFC 1928, in their place. */
  lemma Layout(h: TcpResponseHeader)
    requires Socks5.Encodable(h.address)
    ensures var s := Write(h);
            && |s| > 3 && s[0] == 5 && s[2] == 0 && s[3..] == Socks5.Write(h.address)
            && s[1] == match h.reply
                       case Succeeded => 0
                       case GeneralFailure => 1
                       case ConnectionNotAllowed => 2
                       case NetworkUnreachable => 3
                       case HostUnreachable => 4
                       case ConnectionRefused => 5
                       case TtlExpired => 6
                       case CommandNotSupported => 7
                       case AddressTypeNotSupported => 8
                       case OtherReply(code) => code
  {
    hide Socks5.Write;
    assert Write(h)[3..] == Socks5.Write(h.address);
  }

  /** The reserved byte is read and ignored. */
  function Read(s: seq<byte>): (r: Socks5.Result<TcpResponseHeader>)
  {
    if |s| < 3 then Socks5.Err(Socks5.UnexpectedEof)
    else if s[0] != Socks5.SOCKS5_VERSION then Socks5.Err(Socks5.VersionNotSupported)
    else match Socks5.Read(s[3..])
      case Err(e) => Socks5.Err(e)
      case Ok(a, rest) => Socks5.Ok(TcpResponseHeader(FromByte(s[1]), a), rest)
  }

  /** Writing then reading, before any trailing bytes: what survives of the reply and of its address. */
  lemma ReadWrite(h: TcpResponseHeader, rest: seq<byte>)
    requires Socks5.Encodable(h.address)
    ensures Read(Write(h) + rest)
         == Socks5.Ok(TcpResponseHeader(FromByte(AsByte(h.reply)), Socks5.Carried(h.address)), rest)
  {
    hide Socks5.Read, Socks5.Write;
    assert (Write(h) + rest)[3..] == Socks5.Write(h.address) + rest;
    Socks5.ReadWrite(h.address, rest);
  }

  /**
   A reply header comes back unchanged exactly when its code is not a known one dressed up as
   another, and an IPv6 flow label and scope are zero.
   */
  lemma RoundTripIff(h: TcpResponseHeader, rest: seq<byte>)
    requires Socks5.Encodable(h.address)
    ensures Read(Write(h) + rest) == Socks5.Ok(h, rest) <==>
            && (h.reply.OtherReply? ==> h.reply.code > 0x08)
            && (h.address.Ipv6? ==> h.address.flowInfo == 0 && h.address.scopeId == 0)
  {
    hide Socks5.Read, Socks5.Write;
    ReadWrite(h, rest);
  }

  /** An accepted reply is spelled as the writer would exactly when its reserved byte is zero. */
  lemma Spelling(s: seq<byte>)
    requires Read(s).Ok?
    ensures var r := Read(s);
            Socks5.Encodable(r.value.address) && (s == Write(r.value) + r.rest <==> s[2] == 0)
  {
    hide Socks5.Read, Socks5.Write;
    Socks5.WriteRead(s[3..]);
    var r := Read(s);
    assert AsByte(r.value.reply) == s[1];
    Socks5.FrontBytes(s, Socks5.SOCKS5_VERSION, s[1], 0, Socks5.Write(r.value.address), r.rest);
  }
}
