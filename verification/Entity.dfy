/** What every peer knows about an entity, and who controls it. */
module Entities {
  import opened Bits

  /** std::string */
  type Str = seq<byte>
  type ClientID = nat
  type EntityID = int

  const HOST: ClientID := 1

  datatype EntityInfo = EntityInfo(kind: Str, name: Str, ID: EntityID, ownerID: ClientID, parentID: EntityID)

  /** isOwner at a peer whose client has ID `self`; local entities are always controlled. */
  predicate IsOwner(info: EntityInfo, self: ClientID) {
    info.ID < 0 || self == info.ownerID
  }
}
