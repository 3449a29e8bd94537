/** File contents and the blocks they are read in. */
module Files {

  newtype Byte = b: int | 0 <= b < 256

  type Bytes = seq<Byte>

  const BLOCK := 65536

  function Min(a: int, b: int): int {
    if a <= b then a else b
  }

  function Concat(blocks: seq<Bytes>): Bytes {
    if blocks == [] then [] else Concat(blocks[..|blocks| - 1]) + blocks[|blocks| - 1]
  }

  lemma ConcatAppend(blocks: seq<Bytes>, b: Bytes)
    ensures Concat(blocks + [b]) == Concat(blocks) + b
  {
    assert (blocks + [b])[..|blocks|] == blocks;
  }
}
