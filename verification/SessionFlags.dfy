/**
 The flags that travel in the upper bits of a connection number. The numbers are non-negative, so a bitwise
 "and" with a mask of low bits is a remainder, and testing one bit is the parity of a quotient.
 */
module SessionFlags {
  const MAX_CONNECTIONS: int := 0x20000
  const FD_SPACE: int := 0x4000      // FD_MASK + 1
  const IS_ENCODED: int := 0x80000
  const CMD_PURGE: int := 0x100000

  predicate Bit(fd: nat, flag: nat)
    requires flag > 0
  {
    fd / flag % 2 == 1
  }

  function SetBit(fd: nat, flag: nat): nat
    requires flag > 0
  {
    if Bit(fd, flag) then fd else fd + flag
  }

  function WithoutFlags(fd: nat): nat { fd % FD_SPACE }

  predicate IsEncoded(fd: nat) { Bit(fd, IS_ENCODED) }

  function SetEncoded(fd: nat): nat { SetBit(fd, IS_ENCODED) }

  predicate IsCmdPurge(fd: nat) { Bit(fd, CMD_PURGE) }

  function SetCmdPurge(fd: nat): nat { SetBit(fd, CMD_PURGE) }

  function WithoutCmdPurge(fd: nat): nat {
    fd % FD_SPACE + (if IsEncoded(fd) then IS_ENCODED else 0)
  }

  /** A connection as it travels: plain or marked as encoded, without a command. */
  predicate Carried(fd: nat) {
    1 <= fd < FD_SPACE || IS_ENCODED + 1 <= fd < IS_ENCODED + FD_SPACE
  }

  /** On connections of 14 bits both flags can be set, read and taken off again independently. */
  lemma FlagsAreIndependent(fd: nat)
    requires 1 <= fd < FD_SPACE
    ensures !IsEncoded(fd) && !IsCmdPurge(fd) && WithoutFlags(fd) == fd
    ensures SetEncoded(fd) == fd + 0x80000 && SetCmdPurge(fd) == fd + 0x100000
    ensures var e := SetEncoded(fd); Carried(e) && IsEncoded(e) && !IsCmdPurge(e) && WithoutFlags(e) == fd
  {
  }

  lemma PurgeRoundTrip(fd: nat)
    requires Carried(fd)
    ensures var p := SetCmdPurge(fd);
      && IsCmdPurge(p) && p != fd && IsEncoded(p) == IsEncoded(fd)
      && WithoutCmdPurge(p) == fd && WithoutFlags(p) == WithoutFlags(fd) && p != WithoutFlags(p)
  {
  }

  /**
   The mask has 14 bits although 17 are promised: among the connections that the storage admits, taking the
   encoded flag off gives the connection back exactly for those below 2 to the 14th.
   */
  lemma MaskCoversIff(fd: nat)
    requires fd <= MAX_CONNECTIONS
    ensures WithoutFlags(SetEncoded(fd)) == fd <==> fd < FD_SPACE
  {
  }

  lemma ConnectionsCollide()
    ensures 0x4001 <= MAX_CONNECTIONS && WithoutFlags(0x4001) == WithoutFlags(1) == 1
  {
  }
}
