/**
 * Values shared by the routing core: bytes, NDN names, faces and next hops.
 *
 * A Name is a sequence of typed components and is compared structurally.
 * A NextHop is an egress face with a route cost; a NexthopList is the set of
 * such hops (insertion order is not part of its value).
 */
module Ndn {

  newtype Byte = b: int | 0 <= b < 256

  datatype Component = Component(typ: nat, value: seq<Byte>)

  type Name = seq<Component>

  type FaceUri = string

  datatype NextHop = NextHop(face: FaceUri, routeCost: real)

  type NexthopList = set<NextHop>

  datatype Option<T> = None | Some(value: T)
}
