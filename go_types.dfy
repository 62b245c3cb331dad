/** The fixed-width integer types of Go that the procfs helper uses. */
module GoTypes {

  newtype byte = x: int | 0 <= x < 0x100

  newtype int32 = x: int | -0x8000_0000 <= x < 0x8000_0000

  newtype uint64 = x: int | 0 <= x < 0x1_0000_0000_0000_0000
}
