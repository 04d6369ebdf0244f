/** A planned connection between two room centres (RoomLink). It holds two
    node references fixed at construction; the second may be null. */
module Links {
  import opened Tiles

  datatype RoomLink = RoomLink(firstCenter: FloorNode, secondCenter: FloorNode?) {

    function GetFirstCenter(): FloorNode { firstCenter }

    function GetSecondCenter(): FloorNode? { secondCenter }
  }

  /** The getters give back the constructor arguments, null included. */
  lemma EndpointsKept(a: FloorNode, b: FloorNode?)
    ensures RoomLink(a, b).GetFirstCenter() == a
    ensures RoomLink(a, b).GetSecondCenter() == b
    ensures RoomLink(a, null).GetSecondCenter() == null
  {
  }

  /** Endpoint order is kept: a link built the other way round reports the
      endpoints swapped; as a value of the model's RoomLink datatype it is a
      different link unless both are the same node. */
  lemma EndpointOrderKept(a: FloorNode, b: FloorNode)
    ensures RoomLink(b, a).GetFirstCenter() == RoomLink(a, b).GetSecondCenter()
    ensures RoomLink(b, a).GetSecondCenter() == RoomLink(a, b).GetFirstCenter()
    ensures RoomLink(a, b) == RoomLink(b, a) <==> a == b
  {
  }
}
