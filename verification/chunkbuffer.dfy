/** The growable memory a chunk's bytes are streamed into (`struct
    MemoryStruct`) and the transport's write callback that appends to it
    (`writeMemory`). */
module ChunkBuffer {
  import opened Common

  /** A heap block as seen through a pointer: `Null` after a failed
      `realloc`, otherwise the bytes of the allocation. */
  datatype Block = Null | Block(bytes: seq<byte>)

  /** `memory` points at `size` stored bytes followed by one spare byte. */
  datatype MemoryStruct = MemoryStruct(memory: Block, size: nat)

  /** Every allocation holds exactly `size + 1` bytes: the initial
      `malloc(1)` for `size == 0`, and each `realloc` to `size + realsize + 1`. */
  predicate Valid(m: MemoryStruct) {
    m.memory.Block? && |m.memory.bytes| == m.size + 1
  }

  /** The bytes received so far: what `fwrite` copies out of the buffer. */
  function Content(m: MemoryStruct): seq<byte>
    requires Valid(m)
  {
    m.memory.bytes[..m.size]
  }

  /** A buffer right after `malloc(1)` with `size = 0`. The one byte `malloc`
      leaves uninitialised is modelled as 0; it is never read. */
  function Fresh(): (m: MemoryStruct)
    ensures Valid(m) && m.size == 0 && Content(m) == []
  {
    MemoryStruct(Block([0]), 0)
  }

  /** `realloc` to `len` bytes: the common prefix is kept, any new tail is
      uninitialised (modelled as 0). */
  function Realloc(bytes: seq<byte>, len: nat): (r: seq<byte>)
    ensures |r| == len
    ensures forall k :: 0 <= k < len && k < |bytes| ==> r[k] == bytes[k]
  {
    if len <= |bytes| then bytes[..len] else bytes + seq(len - |bytes|, _ => 0)
  }

  /** `memcpy(&bytes[at], src, |src|)`. */
  function Memcpy(bytes: seq<byte>, at: nat, src: seq<byte>): (r: seq<byte>)
    requires at + |src| <= |bytes|
    ensures |r| == |bytes|
  {
    bytes[..at] + src + bytes[at + |src|..]
  }

  /** What the write callback hands back: the count it reports to the
      transport and the buffer afterwards. */
  datatype WriteResult = WriteResult(returned: nat, mem: MemoryStruct)

  /** `writeMemory(contents, size, nmemb, mem)`, where `grows` is whether
      `realloc` can satisfy the request. On failure the old block and size
      are kept and 0 is reported, which makes the transport abort the
      transfer. */
  function WriteMemory(mem: MemoryStruct, contents: seq<byte>, size: nat, nmemb: nat, grows: bool): (r: WriteResult)
    requires Valid(mem) && |contents| == size * nmemb
    ensures Valid(r.mem)
    ensures grows ==> r.returned == size * nmemb
    ensures grows ==> r.mem.size == mem.size + size * nmemb
    ensures grows ==> forall k :: 0 <= k < mem.size ==> r.mem.memory.bytes[k] == mem.memory.bytes[k]
    ensures grows ==> forall k :: 0 <= k < |contents| ==> r.mem.memory.bytes[mem.size + k] == contents[k]
    ensures grows ==> r.mem.memory.bytes[r.mem.size] == 0
    ensures !grows ==> r.returned == 0 && r.mem == mem
  {
    var realsize := size * nmemb;
    if !grows then
      WriteResult(0, mem)
    else
      var block := Realloc(mem.memory.bytes, mem.size + realsize + 1);
      var copied := Memcpy(block, mem.size, contents);
      var newSize := mem.size + realsize;
      WriteResult(realsize, MemoryStruct(Block(copied[newSize := 0]), newSize))
  }

  /** A successful write appends exactly the new bytes to the content. */
  lemma WriteMemoryAppends(mem: MemoryStruct, contents: seq<byte>)
    requires Valid(mem)
    ensures var r := WriteMemory(mem, contents, 1, |contents|, true);
      Content(r.mem) == Content(mem) + contents
  {
    var r := WriteMemory(mem, contents, 1, |contents|, true);
    assert forall k :: 0 <= k < mem.size ==> Content(r.mem)[k] == Content(mem)[k];
    assert forall k :: 0 <= k < |contents| ==> Content(r.mem)[mem.size + k] == contents[k];
  }

  /** The write callback exactly as written in the C source: the result of
      `realloc` is stored straight into `mem->memory`, so when `realloc`
      fails the pointer to the received bytes is overwritten with NULL while
      `size` still counts them. */
  function WriteMemoryAsWritten(mem: MemoryStruct, contents: seq<byte>, size: nat, nmemb: nat, grows: bool): (r: WriteResult)
    requires Valid(mem) && |contents| == size * nmemb
    ensures grows ==> r == WriteMemory(mem, contents, size, nmemb, grows)
    ensures !grows ==> r.returned == 0 && r.mem.memory == Null && r.mem.size == mem.size
  {
    if grows then WriteMemory(mem, contents, size, nmemb, grows)
    else WriteResult(0, MemoryStruct(Null, mem.size))
  }

  /** A failed `realloc` after some bytes have arrived leaves the buffer
      claiming `size > 0` bytes behind a NULL pointer: the bytes are lost
      (and leaked), and a later `fwrite` of the buffer reads through NULL. */
  lemma AsWrittenLosesReceivedBytes()
    ensures var mem := MemoryStruct(Block([7, 0]), 1);
      && Valid(mem) && Content(mem) == [7]
      && var r := WriteMemoryAsWritten(mem, [9], 1, 1, false);
         r.mem.size == 1 && !Valid(r.mem)
  {
  }
}
