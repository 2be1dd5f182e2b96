/** The limits shared by every preview operation. */
module PreviewLimits {
  const RAW_PREVIEW_BYTES: int := 64 * 1024
  const MAX_BYTES: int := 8 * 1024 * 1024
  const MAX_REQUESTS: int := 32
  const MAX_RANGE_BYTES: int := 1024 * 1024
  const MAX_FOOTER_BYTES: int := 512 * 1024
  const MAX_UNCOMPRESSED_BYTES: int := 32 * 1024 * 1024
  const MAX_ROWS: int := 50
  const MAX_COLUMNS: int := 24
  const MAX_CELL_CHARS: int := 256
  const MAX_NESTING: int := 16
  const MAX_NODES: int := 4096
  const MAX_RENDER_CHARS: int := 256 * 1024
  const MAX_FRAME_BYTES: int := 2 * 1024 * 1024
}
