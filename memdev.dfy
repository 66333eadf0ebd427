/** The memdev character device as the kernel module runs it: a table of
    units, each a fixed-size byte buffer, and open files that each carry a
    cursor and a pointer to the unit they were opened on. Every operation
    is proved against its step function in MemDevSpec. */
module MemDev {
  import opened MemDevSpec

  /** One unit of the table (`struct mem_dev`): a data buffer and its size. */
  class MemUnit {
    var data: array<bv8>
    var size: nat

    /** A table slot before initialisation: no buffer and size 0. */
    constructor ()
      ensures data.Length == 0 && size == 0
    {
      data := new bv8[0];
      size := 0;
    }
  }

  /** No two units share a slot or a buffer, so a write through one unit
      leaves every other unit's bytes alone. */
  ghost predicate DistinctBuffers(units: seq<MemUnit>)
    reads units
  {
    forall i, j :: 0 <= i < j < |units| ==> units[i] != units[j] && units[i].data != units[j].data
  }

  /** The device table `mem_devp`: MEMDEV_NR_DEVS units with pairwise
      distinct buffers, each MEMDEV_SIZE bytes long. */
  class MemTable {
    var devs: seq<MemUnit>
    ghost var Repr: set<object>

    ghost predicate Valid()
      reads this, Repr
    {
      && this in Repr
      && |devs| == MEMDEV_NR_DEVS
      && (forall i :: 0 <= i < |devs| ==>
            devs[i] in Repr && devs[i].data in Repr
            && devs[i].size == MEMDEV_SIZE && devs[i].data.Length == MEMDEV_SIZE)
      && DistinctBuffers(devs)
    }

    /** The per-unit part of module initialisation: every unit gets size
        MEMDEV_SIZE and a freshly allocated, zeroed buffer. */
    constructor Init()
      ensures Valid() && fresh(Repr)
      ensures forall i :: 0 <= i < |devs| ==> devs[i].data[..] == seq(MEMDEV_SIZE, _ => 0 as bv8)
    {
      var units: seq<MemUnit> := [];
      ghost var objs: set<object> := {};
      var i := 0;
      while i < MEMDEV_NR_DEVS
        invariant 0 <= i <= MEMDEV_NR_DEVS && |units| == i
        invariant fresh(objs)
        invariant forall k :: 0 <= k < i ==>
          units[k] in objs && units[k].data in objs
          && units[k].size == MEMDEV_SIZE && units[k].data.Length == MEMDEV_SIZE
          && units[k].data[..] == seq(MEMDEV_SIZE, _ => 0 as bv8)
        invariant DistinctBuffers(units)
      {
        var unit := new MemUnit();
        unit.size := MEMDEV_SIZE;
        unit.data := new bv8[MEMDEV_SIZE];
        forall k | 0 <= k < MEMDEV_SIZE {
          unit.data[k] := 0;
        }
        units := units + [unit];
        objs := objs + {unit, unit.data};
        i := i + 1;
      }
      devs := units;
      Repr := objs + {this};
    }

    /** Opening the device node with minor number `minor` binds the file to
        that unit, provided the table has one; otherwise it fails with
        ENODEV and binds nothing. */
    method Open(minor: nat, filp: File) returns (ret: int)
      requires Valid()
      modifies filp`privateData
      ensures ret == 0 <==> minor < MEMDEV_NR_DEVS
      ensures ret == 0 ==> filp.privateData == devs[minor] && filp.Opened()
      ensures ret != 0 ==> ret == -ENODEV && filp.privateData == old(filp.privateData)
    {
      if minor >= MEMDEV_NR_DEVS {
        return -ENODEV;
      }
      filp.privateData := devs[minor];
      return 0;
    }
  }

  /** An open file (`struct file`): the unit it was opened on and its own
      cursor. One field stands for both the cursor `f_pos` that seek updates
      and the `*ppos` that read and write advance. */
  class File {
    var privateData: MemUnit?
    var pos: int

    /** A file as the kernel hands it to open: cursor 0, bound to nothing. */
    constructor ()
      ensures privateData == null && pos == 0
    {
      privateData := null;
      pos := 0;
    }

    /** Bound to a unit with a full-size buffer. */
    ghost predicate Opened()
      reads this, privateData
    {
      privateData != null && privateData.data.Length == MEMDEV_SIZE
    }

    /** Reads up to `size` bytes at the cursor into the caller's buffer,
        returning the count and the bytes; the unit is not changed. */
    method Read(size: nat, fault: bool) returns (ret: int, buf: seq<bv8>)
      requires Opened() && IsLoff(pos)
      modifies this`pos
      ensures ReadResult(ret, buf, pos) == ReadStep(privateData.data[..], old(pos), size, fault)
    {
      var dev := privateData;
      var p := ULong(pos);
      var count := Narrow32(size);
      if p >= MEMDEV_SIZE {
        return 0, [];
      }
      if count > MEMDEV_SIZE - p {
        count := MEMDEV_SIZE - p;
      }
      if fault && count > 0 {
        ret, buf := -EFAULT, [];
      } else {
        buf := dev.data[p..p + count];
        pos := pos + count;
        ret := count;
      }
    }

    /** Writes up to `|src|` of the caller's bytes at the cursor into the
        unit's buffer, in place, and returns the count. */
    method Write(src: seq<bv8>, fault: bool) returns (ret: int)
      requires Opened() && IsLoff(pos)
      modifies this`pos, privateData.data
      ensures WriteResult(ret, privateData.data[..], pos) == WriteStep(old(privateData.data[..]), old(pos), src, fault)
    {
      var dev := privateData;
      var p := ULong(pos);
      var count := Narrow32(|src|);
      if p >= MEMDEV_SIZE {
        return 0;
      }
      if count > MEMDEV_SIZE - p {
        count := MEMDEV_SIZE - p;
      }
      if fault && count > 0 {
        ret := -EFAULT;
      } else {
        ghost var before := dev.data[..];
        forall k | p <= k < p + count {
          dev.data[k] := src[k - p];
        }
        assert dev.data[..] == Overwrite(before, p, src[..count]);
        pos := pos + count;
        ret := count;
      }
    }

    /** Moves the cursor to a new position computed from `whence`, or
        fails with EINVAL and leaves it where it was. */
    method Llseek(offset: int, whence: int) returns (ret: int)
      requires IsLoff(pos) && IsLoff(offset)
      modifies this`pos
      ensures SeekResult(ret, pos) == SeekStep(old(pos), offset, whence)
    {
      var newpos: int;
      if whence == 0 {
        newpos := offset;
      } else if whence == 1 {
        newpos := Wrap64(pos + offset);
      } else if whence == 2 {
        newpos := Wrap64(MEMDEV_SIZE - 1 + offset);
      } else {
        return -EINVAL;
      }
      if newpos < 0 || newpos > MEMDEV_SIZE {
        return -EINVAL;
      }
      pos := newpos;
      return newpos;
    }
  }

  /** Closing a file always succeeds and touches neither the file nor any
      unit. */
  method Release(filp: File) returns (ret: int)
    ensures ret == 0
  {
    ret := 0;
  }

  /** After initialisation, writing `b` through a fresh handle on unit 0,
      seeking back to the start and reading `|b|` bytes returns `b`. */
  method WriteSeekRead(b: seq<bv8>) returns (got: seq<bv8>)
    requires |b| <= MEMDEV_SIZE
    ensures got == b
  {
    var table := new MemTable.Init();
    var filp := new File();
    var status := table.Open(0, filp);
    var written := filp.Write(b, false);
    assert written == |b|;
    var at := filp.Llseek(0, 0);
    var n;
    n, got := filp.Read(|b|, false);
  }

  /** A write of MEMDEV_SIZE + 10 bytes at the start stores and reports only
      MEMDEV_SIZE of them, and reading the whole buffer back gives exactly
      those. */
  method TruncatedWrite(b: seq<bv8>) returns (written: int, got: seq<bv8>)
    requires |b| == MEMDEV_SIZE + 10
    ensures written == MEMDEV_SIZE
    ensures got == b[..MEMDEV_SIZE]
  {
    var table := new MemTable.Init();
    var filp := new File();
    var status := table.Open(0, filp);
    written := filp.Write(b, false);
    var at := filp.Llseek(0, 0);
    var n;
    n, got := filp.Read(MEMDEV_SIZE, false);
  }

  /** The boundary seeks: past the end is refused, the end itself is
      accepted, seeking by 0 from the end lands one byte before it, and a
      read at the end returns 0. */
  method SeekBoundaries() returns (past: int, atEnd: int, fromEnd: int, eof: int)
    ensures past == -EINVAL
    ensures atEnd == MEMDEV_SIZE
    ensures fromEnd == MEMDEV_SIZE - 1
    ensures eof == 0
  {
    var table := new MemTable.Init();
    var filp := new File();
    var status := table.Open(0, filp);
    past := filp.Llseek(MEMDEV_SIZE + 1, 0);
    fromEnd := filp.Llseek(0, 2);
    atEnd := filp.Llseek(MEMDEV_SIZE, 0);
    var bytes;
    eof, bytes := filp.Read(MEMDEV_SIZE, false);
  }
}
