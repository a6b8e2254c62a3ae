/** Return codes of zlib/zlib.h. */
module ZLib {
  const Z_OK := 0
  const Z_STREAM_END := 1
  const Z_NEED_DICT := 2
  const Z_STREAM_ERROR := -2
  const Z_DATA_ERROR := -3
  const Z_BUF_ERROR := -5

  type byte = b: nat | b < 256
}
