/**
 * The file system as both core classes see it: a map from a path to the bytes
 * stored there, plus the kinds of mutation the code performs on it.
 */
module Disk {

  type Bytes = seq<bv8>
  type Path = string
  type Files = map<Path, Bytes>

  /** One mutation of the file system, recorded in the order the code performs it. */
  datatype FileOp =
    | Write(path: Path, content: Bytes)             // open(path, 'wb') followed by write(content)
    | WriteAt(path: Path, offset: nat, data: Bytes) // seek(offset) then write(data) on a file opened 'r+b'
    | Copy(source: Path, target: Path)              // shutil.copy2
    | Remove(path: Path)                            // os.remove

  function Max(a: int, b: int): int { if a < b then b else a }

  /** The contents of a file after writing `data` at `offset` without truncating it. */
  function Overwrite(content: Bytes, offset: nat, data: Bytes): (r: Bytes)
    requires offset <= |content|
    ensures |r| == Max(|content|, offset + |data|)
    ensures r[..offset] == content[..offset]
    ensures r[offset..offset + |data|] == data
    ensures offset + |data| <= |content| ==> r[offset + |data|..] == content[offset + |data|..]
  {
    content[..offset] + data + (if offset + |data| < |content| then content[offset + |data|..] else [])
  }

  /** A write from offset 0 that is as long as the file leaves none of the old bytes behind. */
  lemma FullLengthOverwriteErasesAll(content: Bytes, data: Bytes)
    requires |data| == |content|
    ensures Overwrite(content, 0, data) == data
  {
  }
}
