/** The two fixed translation rules of the engine. */
module LookupPolicy {

  /** Protocol numbers and their names (`PROTO_MAP`). */
  const ProtoMap: map<int, string> := map[6 := "tcp", 17 := "udp", 1 := "icmp"]

  /** The tag counted for a record whose key is not in the lookup table. */
  const Untagged: string := "Untagged"
}
