/** The file of client/SharedFileBuffer.cpp, cut into numbered blocks. */
module FileBlocks {
  import opened Bits

  const BLOCK_MAX_LENGTH: nat := 4096

  datatype FileBlock = FileBlock(data: seq<Byte>, index: nat)

  function Split(file: seq<Byte>, first: nat): (blocks: seq<FileBlock>)
    decreases |file|
  {
    if file == [] then []
    else if |file| <= BLOCK_MAX_LENGTH then [FileBlock(file, first)]
    else [FileBlock(file[..BLOCK_MAX_LENGTH], first)] + Split(file[BLOCK_MAX_LENGTH..], first + 1)
  }

  function Join(blocks: seq<FileBlock>): seq<Byte>
  {
    if blocks == [] then [] else Join(blocks[..|blocks| - 1]) + blocks[|blocks| - 1].data
  }

  lemma {:induction false} JoinHead(b: FileBlock, rest: seq<FileBlock>)
    ensures Join([b] + rest) == b.data + Join(rest)
    decreases |rest|
  {
    var all := [b] + rest;
    if rest == [] {
      assert all[..0] == [];
    } else {
      var n := |rest| - 1;
      JoinHead(b, rest[..n]);
      assert all[..|all| - 1] == [b] + rest[..n] && all[|all| - 1] == rest[n];
      assert (b.data + Join(rest[..n])) + rest[n].data == b.data + (Join(rest[..n]) + rest[n].data);
    }
  }

  /** Putting the blocks together again gives the file. */
  lemma {:induction false} SplitJoin(file: seq<Byte>, first: nat)
    ensures Join(Split(file, first)) == file
    decreases |file|
  {
    if file != [] {
      if |file| <= BLOCK_MAX_LENGTH {
        var b := FileBlock(file, first);
        JoinHead(b, []);
        assert [b] + [] == [b];
      } else {
        SplitJoin(file[BLOCK_MAX_LENGTH..], first + 1);
        JoinHead(FileBlock(file[..BLOCK_MAX_LENGTH], first), Split(file[BLOCK_MAX_LENGTH..], first + 1));
      }
    }
  }

  /** The blocks are numbered in order, of 4096 bytes each but for a shorter last one that is not empty. */
  lemma {:induction false} SplitShape(file: seq<Byte>, first: nat, i: nat)
    requires i < |Split(file, first)|
    ensures Split(file, first)[i].index == first + i
    ensures 0 < |Split(file, first)[i].data| <= 4096
    ensures i < |Split(file, first)| - 1 ==> |Split(file, first)[i].data| == 4096
    decreases |file|
  {
    if |file| > BLOCK_MAX_LENGTH && i > 0 {
      SplitShape(file[BLOCK_MAX_LENGTH..], first + 1, i - 1);
    }
  }

  class SharedFileBuffer {
    /** The blocks of the file opened for reading. */
    var blocks: seq<FileBlock>

    constructor ()
      ensures blocks == []
    {
      blocks := [];
    }

    /** Reads block after block until nothing is left; `file` is what the handle delivers. */
    method LoadFileToBuffer(file: seq<Byte>)
      requires blocks == []
      modifies this
      ensures blocks == Split(file, 0)
    {
      var index, pos := 0, 0;
      var size := if |file| < BLOCK_MAX_LENGTH then |file| else BLOCK_MAX_LENGTH;
      assert file[0..] == file;
      while size > 0
        invariant pos <= |file| && index == |blocks|
        invariant size == if |file| - pos < BLOCK_MAX_LENGTH then |file| - pos else BLOCK_MAX_LENGTH
        invariant blocks + Split(file[pos..], index) == Split(file, 0)
        decreases |file| - pos
      {
        var b := FileBlock(file[pos..pos + size], index);
        ghost var rest := file[pos..];
        assert rest[size..] == file[pos + size..] && rest[..size] == b.data;
        assert Split(rest, index) == [b] + Split(file[pos + size..], index + 1) by {
          if |rest| <= BLOCK_MAX_LENGTH {
            assert rest == b.data && file[pos + size..] == [];
          }
        }
        blocks := blocks + [b];
        index, pos := index + 1, pos + size;
        size := if |file| - pos < BLOCK_MAX_LENGTH then |file| - pos else BLOCK_MAX_LENGTH;
      }
      assert file[pos..] == [];
    }
  }
}
