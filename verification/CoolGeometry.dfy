/** The numbers every part of CoolFS agrees on. */
module CoolGeometry {
  import opened Bytes

  const BLOCK_SIZE := 4096
  const TOTAL_BLOCKS := 1536
  const INODE_COUNT := 512
  const INODE_SIZE := 256
  const INODE_TABLE_START := 1
  const BITMAP_START := 33
  const DATA_START := 34
  const DIRECT_BLOCKS := 48
  const INDIRECT_ENTRIES := 1024
  const DEFAULT_DIR_MODE: u16 := 0x1ED
  const DEFAULT_FILE_MODE: u16 := 0x1A4
}
