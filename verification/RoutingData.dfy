/** The records the router keeps and exchanges. */
module RoutingData {
  import opened Bounded

  /** `lastSeen` is in nanoseconds. */
  datatype PeerInfo = PeerInfo(peerId: u32, ipAddress: Bytes, port: u16, lastSeen: nat, hopCount: u8, nextHop: u32,
                               reliability: real, bandwidth: u64)

  datatype RouteEntry = RouteEntry(destination: u32, nextHop: u32, hopCount: u8, lastUpdated: nat, metric: real)

  datatype RouteUpdate = RouteUpdate(source: u32, updates: seq<PeerInfo>, sequence: u64, hopCount: u8)

  /** `announcedAt` is in nanoseconds. */
  datatype FileLocation = FileLocation(fileId: Bytes, peerId: u32, fileHash: Bytes, fileSize: u64, announcedAt: nat,
                                       availability: real)

  datatype FileQueryResponse = FileQueryResponse(queryId: u32, responder: u32, locations: seq<FileLocation>)
}
