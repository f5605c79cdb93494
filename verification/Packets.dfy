/** What the packets of a PAR2 set say about the protected files. */
module Packets {
  import opened Bits

  type FileID = seq<Byte>
  type Hash = seq<Byte>

  /** A block of the protected set: the file it belongs to and its index there. */
  datatype Block = Block(fileID: FileID, index: nat)

  /** FileDescPacket */
  datatype FileDesc = FileDesc(fileID: FileID, hash: Hash, sixteenKHash: Hash, byteCount: nat, filename: string)

  /** The checksums of one block, from an IFSC packet. */
  datatype ChecksumPair = ChecksumPair(md5: Hash, crc: U32)

  /** What is wrong with a protected file under its expected name. */
  datatype Damage = DamageUnchecked | DamageNone | DamageMissing | DamageWrongSize | DamageWrongHash

  /** The number of blocks of a file. */
  function BlockCount(byteCount: nat, blockSize: nat): (n: nat)
    requires blockSize > 0
    ensures n == 0 <==> byteCount == 0
  {
    (byteCount + blockSize - 1) / blockSize
  }
}
