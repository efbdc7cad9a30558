/**
 * The answers the handlers send: a status code and a JSON body.
 */
module Http {
  import opened Tables

  /** The dashboard's nesting: a row spread together with its children. */
  datatype ApplianceNode = ApplianceNode(appliance: Row, parts: seq<Row>)
  datatype RoomNode = RoomNode(room: Row, appliances: seq<ApplianceNode>)
  datatype HouseNode = HouseNode(house: Row, rooms: seq<RoomNode>)

  datatype Body =
    | Message(text: string)         // { message: ... }
    | One(row: Row)                 // one entity
    | Many(rows: seq<Row>)          // an array of entities
    | Board(houses: seq<HouseNode>) // the dashboard tree
    | NoContent                     // 204, empty body

  datatype Response = Response(status: int, body: Body)

  const Unauthorized := Response(401, Message("Unauthorized"))
  const Forbidden := Response(403, Message("Forbidden"))
  const ServerError := Response(500, Message("Internal server error"))

  /** The 404 for the first table of the chain whose findById came back null. */
  function NotFound(k: Kind): (r: Response)
    ensures r.status == 404
  {
    match k
    case House => Response(404, Message("House not found"))
    case Room => Response(404, Message("Room not found"))
    case Appliance => Response(404, Message("Appliance not found"))
    case Part => Response(404, Message("Part not found"))
  }

  /** The 400 of a create handler whose name or parent id is missing. */
  function MissingFields(k: Kind): (r: Response)
    requires k != House
    ensures r.status == 400
  {
    match k
    case Room => Response(400, Message("Name and houseId are required"))
    case Appliance => Response(400, Message("Name and roomId are required"))
    case Part => Response(400, Message("Name and applianceId are required"))
  }
}
