/** The facts parsed from one IP packet. */
module Packets {
  import opened TcpSegments

  datatype Protocol = TCP | UDP | OtherProtocol

  /** TCP control bits; `other` stands for any bit besides SYN, ACK, FIN and RST. */
  datatype Flags = Flags(syn: bool, ack: bool, fin: bool, rst: bool, other: bool)

  const ONLY_ACK := Flags(false, true, false, false, false)

  datatype Endpoint = Endpoint(ip: string, port: int)

  datatype Orientation = Orientation(source: Endpoint, destination: Endpoint) {
    function Reverse(): Orientation {
      Orientation(destination, source)
    }
  }

  datatype Facts = Facts(version: int, protocol: Protocol, source: Endpoint, destination: Endpoint,
                         seqno: int, ack: int, flags: Flags, payload: seq<Octet>)
  {
    function Orient(): Orientation {
      Orientation(source, destination)
    }

    /** The stream position of the first payload octet: a SYN takes one number. */
    function Start(): int {
      seqno + if flags.syn then 1 else 0
    }
  }

  datatype Direction = Outbound | Inbound | Unknown

  /** A selected packet with the flow and direction it was attributed to. */
  datatype Routed = Routed(flowId: string, direction: Direction, facts: Facts, ordinal: int, timestamp: real)
}
