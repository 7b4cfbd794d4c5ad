/** CoAP message codes and types, as both go-coap versions number them.
    A code is one byte: a 3-bit class and a 5-bit detail, written c.dd
    (section 3 of RFC 7252). */
module Coap {
  import opened NetBase

  newtype Code = x: int | 0 <= x < 256

  const Empty: Code := 0                  // 0.00
  const GET: Code := 1                    // 0.01
  const POST: Code := 2                   // 0.02
  const Content: Code := 69               // 2.05
  const Unauthorized: Code := 129         // 4.01
  const BadOption: Code := 130            // 4.02
  const NotFound: Code := 132             // 4.04
  const InternalServerError: Code := 160  // 5.00

  function Class(c: Code): (k: nat)
    ensures k < 8
  {
    c as int / 32
  }

  /** Response codes are those of classes 2 to 5 (section 5.9 of RFC 7252). */
  predicate IsResponseCode(c: Code) {
    2 <= Class(c) <= 5
  }

  /** The message types of section 3 of RFC 7252: CON 0, NON 1, ACK 2, RST 3. */
  datatype MessageType = Confirmable | NonConfirmable | Acknowledgement | Reset
}
