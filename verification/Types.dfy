/** Constants and small types shared by the routing layer. */
module Types {

  const GROUP_SIZE: nat := 23
  const QUORUM_SIZE: nat := 19

  datatype Option<+T> = None | Some(value: T)

  type Bytes = seq<bv8>

  /** A public key stands for its serialised form, which is how the routing layer compares keys. */
  type PublicKey = Bytes
}
