/** The parts of DNS questions and replies that the resolvers fill in. */
module Dns {

  newtype byte = x: int | 0 <= x < 256

  /** `net.IP`: the raw bytes of an address; the empty sequence is the nil address. */
  type IP = seq<byte>

  const RCODE_SUCCESS: nat := 0
  const RCODE_NAME_ERROR: nat := 3

  datatype QType = TypeA | TypeAAAA | TypeSRV | OtherType(code: nat)

  datatype Question = Question(name: string, qtype: QType)

  datatype RR =
    | A(name: string, ttl: int, address: IP)
    | AAAA(name: string, ttl: int, address: IP)
    | SRV(name: string, ttl: int, priority: nat, weight: nat, port: nat, target: string)
    | NilRecord

  datatype Msg = Msg(rcode: nat, truncated: bool, answer: seq<RR>)
}
