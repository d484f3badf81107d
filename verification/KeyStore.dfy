/** What the library stores with a key (cmp_key_metadata). */
module KeyStore {
  /** The algorithm by number, the numbers of players needed and present, and the ids of the players. */
  datatype Metadata = Metadata(algorithm: int, t: nat, n: nat, players: set<nat>)
}
