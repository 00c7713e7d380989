/** The wire message model and the crate's errors (src/codec.rs, src/error.rs). */
module Codec {
  import opened Prelude
  import Utf8

  datatype WsError =
    | AuthMissing
    | AuthInvalid
    | TooManyConnections
    | BroadcastFull
    | InvalidMessage
    | Compression
    | PayloadTooLarge
    | Redis(message: string)
    | Closed

  datatype Frame = Text(text: string) | Binary(data: seq<byte>) {

    function AsBytes(): seq<byte> {
      match this
      case Text(s) => Utf8.Encode(s)
      case Binary(b) => b
    }

    function Len(): nat {
      |AsBytes()|
    }
  }
}
