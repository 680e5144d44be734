/**
 * The part of a DNS message (section 4.1 of RFC 1035) the responder reads or
 * writes. Wire encoding belongs to the DNS library and is not modelled here.
 */
module Dns {

  type byte = x: int | 0 <= x < 0x100
  type u16 = x: int | 0 <= x < 0x1_0000

  /** The QR bit of the header. */
  datatype MessageType = Query | Response

  /** One entry of the question section; `name` is the name in its UTF-8 text form. */
  datatype Question = Question(name: string, qtype: u16, qclass: u16)

  /** One resource record of the answer section. */
  datatype Record = Record(name: string, rtype: u16, rclass: u16, ttl: nat, rdata: seq<byte>)

  /** A DNS message: header fields the responder touches, the questions and the answers. */
  datatype Message = Message(
    id: u16,
    msgType: MessageType,
    recursionAvailable: bool,
    rcode: u16,
    queries: seq<Question>,
    answers: seq<Record>)

  /** RCODE 3, "Name Error" in section 4.1.1 of RFC 1035, known as NXDOMAIN. */
  const NXDOMAIN: u16 := 3
}
