/** Choosing the swapchain formats from the list the runtime enumerates
    (src/main.c:400-425). */
module SwapchainFormats {
  import opened Protocol

  const GL_SRGB8_ALPHA8: int64 := 0x8C43
  const GL_DEPTH_COMPONENT16: int64 := 0x81A5
  /** The depth format when the runtime offers no 16-bit depth format. */
  const NO_DEPTH_FORMAT: int64 := -1

  /** The scan over the first count entries of the 32-entry format array:
      color is GL_SRGB8_ALPHA8 if it is offered, else the first entry; depth
      is GL_DEPTH_COMPONENT16 if it is offered, else -1. The source never
      checks that the runtime's count fits the array; the precondition says
      that it must. */
  method SelectFormats(formats: array<int64>, count: nat) returns (color: int64, depth: int64)
    requires formats.Length == MAX_FORMATS && count <= MAX_FORMATS
    ensures color == if GL_SRGB8_ALPHA8 in formats[..count] then GL_SRGB8_ALPHA8 else formats[0]
    ensures depth == if GL_DEPTH_COMPONENT16 in formats[..count] then GL_DEPTH_COMPONENT16 else NO_DEPTH_FORMAT
    ensures count > 0 ==> color in formats[..count]
    ensures depth == NO_DEPTH_FORMAT || depth in formats[..count]
  {
    color := formats[0];
    depth := NO_DEPTH_FORMAT;
    for i := 0 to count
      invariant color == if GL_SRGB8_ALPHA8 in formats[..i] then GL_SRGB8_ALPHA8 else formats[0]
      invariant depth == if GL_DEPTH_COMPONENT16 in formats[..i] then GL_DEPTH_COMPONENT16 else NO_DEPTH_FORMAT
    {
      assert formats[..i + 1] == formats[..i] + [formats[i]];
      if formats[i] == GL_SRGB8_ALPHA8 {
        color := GL_SRGB8_ALPHA8;
      }
      if formats[i] == GL_DEPTH_COMPONENT16 {
        depth := GL_DEPTH_COMPONENT16;
      }
    }
    assert count > 0 ==> formats[0] == formats[..count][0];
  }
}
