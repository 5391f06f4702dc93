/** The neighbour table response, as the ZDO layer hands it to its callback. */
module Messages {
  import opened Bytes

  type wide = bv64

  datatype Neighbour = Neighbour(
    extendedPanId: wide,
    extendedAddress: wide,
    networkAddress: word,
    flags: byte,
    permitJoining: byte,
    depth: byte,
    lqi: byte
  )

  /** The list has as many entries as the response counts. */
  datatype LqiResponse = LqiResponse(
    srcAddr: word,
    status: byte,
    tableEntries: byte,
    startIndex: byte,
    neighbours: seq<Neighbour>
  )
}
