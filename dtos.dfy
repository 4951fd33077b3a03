/**
 * The data shapes of the service: a stored edge, the request and response bodies
 * of the edge endpoints, the nested tree returned by the tree endpoint, and the
 * three domain errors the service and controller raise.
 */
module Dtos {

  /** One row of the `edge` table, and the `EdgeDTO` request body: a directed pair of node ids. */
  datatype Edge = Edge(fromId: int, toId: int)

  /** Body of a successful create: the ids of the stored edge. */
  datatype EdgeResponse = EdgeResponse(fromId: int, toId: int)

  /** `NodeTreeDTO`: a node id and its children, in the order they were appended. */
  datatype NodeTree = Node(id: int, children: seq<NodeTree>)

  /** The three exception classes of the service layer, each carrying its message. */
  datatype ServiceError =
    | ResourceNotFound(message: string)
    | InvalidOperation(message: string)
    | DuplicateResource(message: string)

  /** Decimal rendering of an id, as Kotlin's string templates print an `Int`. */
  function IntToString(n: int): (s: string)
    ensures |s| > 0
  {
    if n < 0 then "-" + NatToString(-n) else NatToString(n)
  }

  function NatToString(n: nat): (s: string)
    ensures |s| > 0
    decreases n
  {
    if n < 10 then [DigitChar(n)] else NatToString(n / 10) + [DigitChar(n % 10)]
  }

  function DigitChar(d: nat): char
    requires d < 10
  {
    "0123456789"[d]
  }
}
