/** crclib.cpp buffered_read: a read of a file through a buffer that outlives the call. */
module BufferedRead {
  import opened BitStrings

  const READ_BUFFER_SIZE := 8192

  /** An open file: the value of its handle, which a later file can get again, and its bytes. */
  datatype File = File(handle: nat, content: seq<Octet>)

  /** The value of a null handle. */
  const NO_HANDLE := 0

  function Min(a: int, b: int): int
  {
    if a <= b then a else b
  }

  /** The static variables of buffered_read. */
  class ReadBuffer {
    const bytes: array<Octet>
    var start: nat
    var current: nat
    var size: nat

    ghost predicate Valid()
      reads this
    {
      bytes.Length == READ_BUFFER_SIZE && size <= READ_BUFFER_SIZE
    }

    /** The buffer holds nothing of any file. */
    ghost predicate Empty()
      reads this
    {
      Valid() && size == 0
    }

    /** What the buffer holds under the handle of this file, it holds of this file. */
    ghost predicate IsFreshFor(file: File)
      reads this, bytes
    {
      && Valid()
      && (current == file.handle && size > 0 ==>
           start + size <= |file.content| && bytes[..size] == file.content[start..start + size])
    }

    constructor ()
      ensures Empty() && fresh(bytes)
    {
      bytes := new Octet[READ_BUFFER_SIZE];
      start, current, size := 0xffff_ffff_ffff_ffff, NO_HANDLE, 0;
    }

    /** fseek and fread. */
    method Fill(file: File, offset: nat)
      requires Valid()
      modifies this, bytes
      ensures Valid() && start == offset && current == file.handle
      ensures size == if offset < |file.content| then Min(READ_BUFFER_SIZE, |file.content| - offset) else 0
      ensures offset < |file.content| ==> bytes[..size] == file.content[offset..offset + size]
    {
      start, current, size := offset, file.handle, 0;
      if offset < |file.content| {
        var available := Min(READ_BUFFER_SIZE, |file.content| - offset);
        for i := 0 to available
          invariant start == offset && current == file.handle
          invariant bytes[..i] == file.content[offset..offset + i]
        {
          bytes[i] := file.content[offset + i];
        }
        size := available;
      }
    }

    /** Up to size bytes from the offset on. At the end of the file the count is that of the request all
        the same, and the bytes beyond the end are what the buffer held before. */
    method Read(file: File, offset: nat, size: nat) returns (count: nat, dest: seq<Octet>)
      requires file.handle != NO_HANDLE && 1 <= size <= READ_BUFFER_SIZE
      requires IsFreshFor(file)
      modifies this, bytes
      ensures IsFreshFor(file)
      ensures count == (if offset < |file.content| then size else 0) == |dest|
      ensures offset < |file.content| ==>
        var known := Min(size, |file.content| - offset); dest[..known] == file.content[offset..offset + known]
      ensures count == 0 ==> Empty()
    {
      if file.handle != current || offset < start || start + this.size <= offset + size {
        Fill(file, offset);
        if this.size == 0 {
          return 0, [];
        }
      }
      count, dest := size, bytes[offset - start..offset - start + size];
      ghost var known := Min(size, |file.content| - offset);
      forall i | 0 <= i < known ensures dest[i] == file.content[offset + i] {
        assert bytes[..this.size][offset - start + i] == file.content[start..start + this.size][offset - start + i];
      }
    }

    /** The only use: the next byte, until the end of the file. */
    method ReadByte(file: File, offset: nat) returns (count: nat, byte: Octet)
      requires file.handle != NO_HANDLE && IsFreshFor(file)
      modifies this, bytes
      ensures IsFreshFor(file)
      ensures count == if offset < |file.content| then 1 else 0
      ensures offset < |file.content| ==> byte == file.content[offset]
      ensures offset >= |file.content| ==> Empty()
    {
      var dest;
      count, dest := Read(file, offset, 1);
      byte := if count > 0 then dest[0] else Zeros(8);
      assert offset < |file.content| ==> dest[..1][0] == file.content[offset..offset + 1][0];
    }
  }
}
