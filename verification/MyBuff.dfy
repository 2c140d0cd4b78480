/** The buffer of network/mybuff.c: a growable byte queue and, behind it, a slice of a file. */
module MyBuff {
  import opened Bytes

  class MyBuff {
    const initSize: nat
    var data: array?<byte>
    var size: nat
    var len: nat
    var fd: int
    var foffset: nat
    var flen: nat

    // Once memory is allocated there is always room for one more byte.
    ghost predicate Valid()
      reads this`data, this`size, this`len, data
    {
      && initSize > 0
      && (data == null ==> len == 0 && size == 0)
      && (data != null ==> size == data.Length && len < size)
    }

    ghost function Contents(): seq<byte>
      reads this`data, this`size, this`len, data
      requires Valid()
    {
      if data == null then [] else data[..len]
    }

    ghost predicate HasFile()
      reads this`fd, this`flen
    {
      fd >= 0 && flen > 0
    }

    constructor (initSize: nat)
      requires initSize > 0
      ensures Valid() && Contents() == [] && !HasFile() && data == null && fd == -1
    {
      this.initSize := initSize;
      data, size, len, fd, foffset, flen := null, 0, 0, -1, 0, 0;
    }

    method SetData(bytes: seq<byte>)
      requires Valid()
      modifies this`data, this`size, this`len, data
      ensures Valid() && Contents() == old(Contents()) + bytes && data != null
      ensures data == old(data) || fresh(data)
    {
      ghost var before := Contents();
      if data == null {
        data := new byte[initSize];
        size := initSize;
      }
      if size - len > |bytes| {
        forall i | 0 <= i < |bytes| {
          data[len + i] := bytes[i];
        }
      } else {
        size := len + |bytes| + 1;
        var tmp := new byte[size];
        forall i | 0 <= i < len {
          tmp[i] := data[i];
        }
        forall i | 0 <= i < |bytes| {
          tmp[len + i] := bytes[i];
        }
        data := tmp;
      }
      len := len + |bytes|;
      assert data[..len] == before + bytes;
    }

    method GetData() returns (ok: bool, bytes: seq<byte>)
      requires Valid()
      ensures ok <==> Contents() != []
      ensures bytes == Contents()
    {
      if data != null {
        return len > 0, data[..len];
      }
      return false, [];
    }

    // Dropping more than is there empties the queue.
    method SkipData(n: nat)
      requires Valid()
      modifies this`len, data
      ensures Valid()
      ensures Contents() == if n <= |old(Contents())| then old(Contents())[n..] else []
    {
      if data != null {
        if n >= len {
          len := 0;
        } else {
          forall i | 0 <= i < len - n {
            data[i] := data[i + n];
          }
          len := len - n;
        }
      }
    }

    // The descriptor that was queued before is closed, whatever it still had to send.
    method SetFile(newFd: int, offset: nat, n: nat) returns (closed: int)
      requires Valid()
      modifies this`fd, this`foffset, this`flen
      ensures Valid() && Contents() == old(Contents())
      ensures fd == newFd && foffset == offset && flen == n
      ensures closed == if old(fd) >= 0 then old(fd) else -1
    {
      closed := if fd >= 0 then fd else -1;
      fd, foffset, flen := newFd, offset, n;
    }

    method GetFile() returns (ok: bool, localFd: int, offset: nat, n: nat)
      ensures ok <==> HasFile()
      ensures ok ==> localFd == fd && offset == foffset && n == flen
    {
      if fd >= 0 && flen > 0 {
        return true, fd, foffset, flen;
      }
      return false, -1, 0, 0;
    }

    method SkipFile(n: nat)
      requires Valid()
      modifies this`fd, this`foffset, this`flen
      ensures Valid() && Contents() == old(Contents())
      ensures old(fd) >= 0 ==>
        if n < old(flen) then fd == old(fd) && foffset == old(foffset) + n && flen == old(flen) - n
        else fd == -1 && foffset == 0 && flen == 0
      ensures old(fd) < 0 ==> fd == old(fd) && foffset == old(foffset) && flen == old(flen)
    {
      if fd >= 0 {
        if flen <= n {
          fd, foffset, flen := -1, 0, 0;
        } else {
          foffset := foffset + n;
          flen := flen - n;
        }
      }
    }

    // For the next connection on the same slot; an outgrown buffer shrinks to its initial size.
    method Reinit()
      requires Valid()
      modifies this
      ensures Valid() && Contents() == [] && !HasFile() && size <= 2 * initSize
      ensures old(fd) >= 0 ==> fd == -1 && foffset == 0 && flen == 0
      ensures old(size) <= 2 * initSize ==> data == old(data)
      ensures data == old(data) || fresh(data)
    {
      if fd >= 0 {
        fd, foffset, flen := -1, 0, 0;
      }
      if size > 2 * initSize {
        data := new byte[initSize];
        size := initSize;
      }
      len := 0;
    }
  }
}
