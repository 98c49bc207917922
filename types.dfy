/** Primitive types of the ChainBridge pallet (chainbridge/src/types.rs). */
module Types {

  /** Machine integers used by the pallet; Dafny's `int` is unbounded, so each width is a newtype. */
  newtype U8 = x: int | 0 <= x < 0x100
  newtype U32 = x: int | 0 <= x < 0x1_0000_0000
  newtype U64 = x: int | 0 <= x < 0x1_0000_0000_0000_0000
  newtype U256 = x: int | 0 <= x < 0x1_0000_0000_0000_0000_0000_0000_0000_0000_0000_0000_0000_0000_0000_0000_0000_0000

  /** A `Vec<u8>`. */
  type Bytes = seq<U8>

  /** Identifier of a bridged chain (`u8`). */
  type ChainId = U8

  /** Per-chain deposit counter (`u64`). */
  type DepositNonce = U64

  /** A fixed-size `[u8; 32]` key of the resource registry. */
  type ResourceId = s: Bytes | |s| == 32 witness seq(32, _ => 0)

  datatype Option<+T> = None | Some(value: T)
}
