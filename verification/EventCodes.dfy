/**
 * The type byte of a rows event as a master writes it: what happened to the rows, in the first or the second version of
 * the event. The readers go by constants and tests of their own.
 */
module EventCodes {
  import opened Memory

  datatype Kind = Insert | Update | Delete

  function Code(kind: Kind, v2: bool): byte {
    match kind
    case Insert => if v2 then 30 else 23
    case Update => if v2 then 31 else 24
    case Delete => if v2 then 32 else 25
  }
}
