/** The card and the single write-through block cache in front of it. */
module BlockCache {
  import opened Bytes
  import opened Errors
  import opened Layout

  const INVALID_BLOCK_ADDR: dword := 0xFFFF_FFFF

  const CARD_ERROR_NO_CARD: byte := 8
  const CARD_ERROR_NOT_INITIALIZED: byte := 9
  const CARD_ERROR_OUT_OF_RANGE: byte := 11

  class Volume {
    /** A reliable card never fails on a block it has; any other card may fail at any moment. */
    const reliable: bool
    const info: FatInfo
    const cacheBlock: array<byte>
    var cacheAddr: dword
    var lastError: byte
    var disk: Disk
    /** Every state the disk has been in, oldest first: what a power cut can leave behind. */
    ghost var history: seq<Disk>

    /** A card with nothing cached yet. */
    constructor (reliable: bool, info: FatInfo, disk: Disk)
      requires Fits(info, disk)
      ensures Valid() && fresh(cacheBlock)
      ensures this.reliable == reliable && this.info == info && this.disk == disk && history == [disk]
    {
      this.reliable, this.info, this.disk := reliable, info, disk;
      cacheBlock := new byte[BLOCK_SIZE];
      cacheAddr, lastError := INVALID_BLOCK_ADDR, 0;
      history := [disk];
    }

    /** What holds even after a failed card operation. */
    ghost predicate Shape()
      reads this
    {
      && cacheBlock.Length == BLOCK_SIZE
      && Fits(info, disk)
      && history != [] && history[|history| - 1] == disk
      && (cacheAddr == INVALID_BLOCK_ADDR || cacheAddr < |disk|)
    }

    /** A valid cache tag means the cache holds that disk block. */
    ghost predicate Coherent()
      reads this, cacheBlock
    {
      cacheAddr < |disk| ==> cacheBlock[..] == disk[cacheAddr]
    }

    ghost predicate Valid()
      reads this, cacheBlock
    {
      Shape() && Coherent()
    }

    method CardReadBlock(addr: dword) returns (r: byte)
      requires cacheBlock.Length == BLOCK_SIZE
      modifies cacheBlock
      ensures r == 0 ==> addr < |disk| && cacheBlock[..] == disk[addr]
      ensures addr >= |disk| ==> r == CARD_ERROR_OUT_OF_RANGE
      ensures reliable && addr < |disk| ==> r == 0
    {
      if addr >= |disk| {
        return CARD_ERROR_OUT_OF_RANGE;
      }
      if !reliable {
        r := *;
        if r != 0 {
          return;
        }
      }
      var block := disk[addr];
      forall i | 0 <= i < BLOCK_SIZE {
        cacheBlock[i] := block[i];
      }
      r := 0;
    }

    method CardWriteBlock(addr: dword) returns (r: byte)
      requires Shape()
      modifies this`disk, this`history
      ensures Shape()
      ensures r == 0 ==>
        && addr < |old(disk)| && disk == old(disk)[addr := cacheBlock[..]] && history == old(history) + [disk]
      ensures r != 0 ==> disk == old(disk) && history == old(history)
      ensures reliable && addr < |disk| ==> r == 0
    {
      if addr >= |disk| {
        return CARD_ERROR_OUT_OF_RANGE;
      }
      if !reliable {
        r := *;
        if r != 0 {
          return;
        }
      }
      disk := disk[addr := cacheBlock[..]];
      history := history + [disk];
      r := 0;
    }

    method SetFatError(cardError: byte)
      modifies this`lastError
      ensures lastError ==
        if cardError == CARD_ERROR_NO_CARD then FAT_ERROR_NO_CARD
        else if cardError == CARD_ERROR_NOT_INITIALIZED then FAT_ERROR_CARD_REINSERTED
        else if cardError == CARD_ERROR_OUT_OF_RANGE then FAT_ERROR_FS_BROKEN
        else FAT_ERROR_CARD
    {
      if cardError == CARD_ERROR_NO_CARD {
        lastError := FAT_ERROR_NO_CARD;
      } else if cardError == CARD_ERROR_NOT_INITIALIZED {
        lastError := FAT_ERROR_CARD_REINSERTED;
      } else if cardError == CARD_ERROR_OUT_OF_RANGE {
        lastError := FAT_ERROR_FS_BROKEN;
      } else {
        lastError := FAT_ERROR_CARD;
      }
    }

    /** Brings a block into the cache unless its tag says it is there already. */
    method Cache(addr: dword) returns (ok: bool)
      requires Valid() && addr != INVALID_BLOCK_ADDR
      modifies this`cacheAddr, this`lastError, cacheBlock
      ensures Valid()
      ensures ok ==> addr < |disk| && cacheAddr == addr && lastError == old(lastError)
      ensures !ok ==> cacheAddr == INVALID_BLOCK_ADDR
      ensures reliable && addr < |disk| ==> ok
      ensures addr >= |disk| ==> !ok && lastError == FAT_ERROR_FS_BROKEN
    {
      if cacheAddr == addr {
        return true;
      }
      cacheAddr := addr;
      var r := CardReadBlock(addr);
      if r != 0 {
        cacheAddr := INVALID_BLOCK_ADDR;
        SetFatError(r);
        return false;
      }
      return true;
    }

    /** Writes the cached block to the address its tag names. */
    method FlushCache() returns (ok: bool)
      requires Shape()
      modifies this`disk, this`history, this`lastError
      ensures Shape()
      ensures ok && cacheAddr < |old(disk)| ==>
        disk == old(disk)[cacheAddr := cacheBlock[..]] && history == old(history) + [disk]
      ensures !ok || cacheAddr >= |disk| ==> disk == old(disk) && history == old(history)
      ensures ok ==> Valid() && lastError == old(lastError)
      ensures reliable ==> ok
    {
      if cacheAddr != INVALID_BLOCK_ADDR {
        var r := CardWriteBlock(cacheAddr);
        if r != 0 {
          SetFatError(r);
          return false;
        }
      }
      return true;
    }

    method StoreBytes(at: nat, bytes: seq<byte>)
      requires cacheBlock.Length == BLOCK_SIZE && at + |bytes| <= BLOCK_SIZE
      modifies cacheBlock
      ensures cacheBlock[..] == Splice(old(cacheBlock[..]), at, bytes)
    {
      forall i | 0 <= i < |bytes| {
        cacheBlock[at + i] := bytes[i];
      }
    }

    method StoreWord(i: nat, w: word)
      requires cacheBlock.Length == BLOCK_SIZE && i < 256
      modifies cacheBlock
      ensures cacheBlock[..] == PutWord(old(cacheBlock[..]), i, w)
    {
      cacheBlock[2 * i] := w % 256;
      cacheBlock[2 * i + 1] := w / 256;
    }
  }
}
