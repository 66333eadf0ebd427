# memdev: a RAM-backed character device, modelled in Dafny

The kernel module in `dev.c` registers a character device called `memdev`. Its
core is a table of `MEMDEV_NR_DEVS` units (1 by default). Each unit
(`struct mem_dev`) is a buffer of `MEMDEV_SIZE` bytes (4096 by default) plus a
`size` field. A process opens the device node, and the minor number picks the
unit. It then reads, writes and seeks through a file handle. Every handle has
its own cursor.

- **open** binds the handle to unit `minor`. It fails with `-ENODEV` when the
  table has no such unit.
- **read / write** do nothing and return 0 when the cursor is at or past the
  end of the buffer. Otherwise they clamp the request to the room left before
  `MEMDEV_SIZE`, copy that many bytes to or from the caller, advance the cursor
  by that count and return it. A fault while copying from or to the caller
  returns `-EFAULT` and leaves the cursor alone.
- **llseek** computes a new position from `offset` relative to the start
  (`whence` 0), the cursor (1) or `MEMDEV_SIZE - 1` (2). It refuses any other
  `whence`, and any position outside `[0, MEMDEV_SIZE]`, with `-EINVAL`.
- **release** always returns 0.
- **module initialisation** gives every unit `size == MEMDEV_SIZE` and a
  zeroed buffer.

The project has two modules:

- `memdev_spec.dfy`, module `MemDevSpec`, is the pure specification. It holds
  the constants, the C integer conversions the arithmetic goes through, and one
  step function per operation (`ReadStep`, `WriteStep`, `SeekStep`). Each step
  function gives the return value and the new state. The module also has
  lemmas about sequences of operations on one handle.
- `memdev.dfy`, module `MemDev`, is the imperative model. Classes stand for
  `struct mem_dev` (`MemUnit`), the table `mem_devp` (`MemTable`) and
  `struct file` (`File`). Their methods update the buffer array and the cursor
  in place, as the C code does, and each method's postcondition ties its result
  and new state to the matching step function. Three client methods at the end
  play out the device's documented scenarios.

The C integer widths are written out:

- the cursor is a signed 64-bit `loff_t` (`IsLoff`);
- `unsigned long p = *ppos` reinterprets a negative cursor as a huge unsigned
  one (`ULong`), so such a cursor reads and writes nothing;
- `unsigned int count = size` keeps the low 32 bits of the request
  (`Narrow32`);
- the additions in llseek wrap around at 64 bits (`Wrap64`).

The `whence == 2` anchor is kept exactly as written: `MEMDEV_SIZE - 1 + offset`,
so a seek by 0 from the end lands on `MEMDEV_SIZE - 1`, not on `MEMDEV_SIZE`.

Where the documented design and the code disagree, the model follows the code:

- The documented design says table initialisation fails atomically and
  releases earlier allocations when one fails. The code never checks the per-unit
  allocations (`dev.c:220`), so the model claims no rollback.
- The documented design clamps the request only to the room left in the
  buffer. The code first narrows it to 32 bits (`dev.c:108`, `dev.c:129`),
  so a request of 2^32 bytes or more is reduced modulo 2^32. The model keeps
  the narrowing.

## Model

| member | source | states |
|---|---|---|
| `MemDevSpec.ULong` | dev.c:107 | the cursor read as `unsigned long`: below 2^64, equal to a non-negative cursor, and at least 2^63 for a negative one |
| `MemDevSpec.Narrow32` | dev.c:108 | the request narrowed to `unsigned int`: below 2^32, never above the request, and equal to it when it fits |
| `MemDevSpec.Wrap64` | dev.c:158-162 | the 64-bit sum in llseek: a valid `loff_t`, congruent to the exact sum modulo 2^64, and equal to it when no overflow occurs |
| `MemDevSpec.TransferCount` | dev.c:107-115 | the number of bytes moved is 0 when the cursor is at or past the end; otherwise the cursor is non-negative and the count never reaches past `MEMDEV_SIZE`, never exceeds the narrowed request, and equals it unless the end of the buffer cuts it short (so it is `min(request, MEMDEV_SIZE - p)`) |
| `MemDevSpec.Overwrite` | dev.c:139 | the buffer after copying a chunk in at `p`: same length, the chunk's bytes from index `p` on, every other byte unchanged |
| `MemDevSpec.ReadStep` | dev.c:106-125 | a read at or past the end returns 0 with no bytes and no cursor change; it returns `-EFAULT` exactly when the caller's buffer faults and at least one byte was to be copied, then leaves the cursor unchanged; otherwise it returns the transfer count, delivers `data[pos .. pos + count)` and advances the cursor by the count |
| `MemDevSpec.WriteStep` | dev.c:127-147 | a write at or past the end returns 0 and changes nothing; it returns `-EFAULT` exactly when the caller's buffer faults and at least one byte was to be copied, then changes neither bytes nor cursor; otherwise it returns the transfer count, advances the cursor by it, puts the first `count` source bytes at `[pos, pos + count)` and keeps every other byte |
| `MemDevSpec.SeekStep` | dev.c:149-174 | a refused seek returns `-EINVAL` and keeps the cursor; an accepted one returns a position in `[0, MEMDEV_SIZE]` and moves the cursor there; `whence` 0 accepts exactly the offsets in `[0, MEMDEV_SIZE]`; `whence` 1 from an in-range cursor accepts exactly when `pos + offset` is in range; `whence` 2 gives `MEMDEV_SIZE - 1 + offset`, accepted exactly for offsets in `[-(MEMDEV_SIZE - 1), 1]`; any other `whence` is refused |
| `MemDevSpec.ReadBack` | dev.c:106-147 | writing at an in-range cursor and then reading, from the same cursor, as many bytes as the write returned delivers exactly the bytes written and ends at the same cursor |
| `MemDevSpec.Step` | dev.c:106-174 | one read, write or seek keeps the state well formed, keeps a cursor in `[0, MEMDEV_SIZE]` inside that range, and changes the bytes only if it is a write |
| `MemDevSpec.RunKeepsCursorInRange` | dev.c:106-174 | after any sequence of reads, writes and seeks on one handle, a cursor that started in `[0, MEMDEV_SIZE]` is still in that range |
| `MemDevSpec.RunWithoutWritesKeepsData` | dev.c:106-125 | any sequence of reads and seeks leaves the unit's bytes unchanged |
| `MemDev.MemTable.Init` | dev.c:218-222 | after initialisation the table holds `MEMDEV_NR_DEVS` fresh units with distinct buffers, each with `size == MEMDEV_SIZE` and `MEMDEV_SIZE` zero bytes |
| `MemDev.MemTable.Open` | dev.c:88-100 | open returns 0 exactly when `minor < MEMDEV_NR_DEVS` and then binds the file to unit `minor`; otherwise it returns `-ENODEV` and leaves the binding as it was |
| `MemDev.File.Read` | dev.c:106-125 | the return value, the bytes delivered and the new cursor are those of `ReadStep` on the unit's bytes; only the cursor may change |
| `MemDev.File.Write` | dev.c:127-147 | the return value, the unit's new bytes and the new cursor are those of `WriteStep` on the old bytes and cursor; only the cursor and this unit's buffer may change |
| `MemDev.File.Llseek` | dev.c:149-174 | the return value and the new cursor are those of `SeekStep` on the old cursor |
| `MemDev.Release` | dev.c:102-104 | release always returns 0 and changes nothing |
| `MemDev.WriteSeekRead` | dev.c:106-174 | after initialisation, writing bytes `B` no longer than `MEMDEV_SIZE` through a new handle on unit 0, seeking to 0 from the start and reading as many bytes as `B` holds returns exactly `B` |
| `MemDev.TruncatedWrite` | dev.c:127-147 | writing `MEMDEV_SIZE + 10` bytes at the start returns `MEMDEV_SIZE`, and reading the whole buffer back gives the first `MEMDEV_SIZE` of them |
| `MemDev.SeekBoundaries` | dev.c:149-174 | seeking to `MEMDEV_SIZE + 1` from the start gives `-EINVAL`, seeking to `MEMDEV_SIZE` gives `MEMDEV_SIZE`, seeking by 0 from the end gives `MEMDEV_SIZE - 1`, and a read at `MEMDEV_SIZE` returns 0 |

## Left out

- Device registration is left out: `register_chrdev_region`,
  `alloc_chrdev_region`, `cdev_init`, `cdev_add`, `cdev_del`,
  `platform_device_register`, `platform_device_unregister` and
  `unregister_chrdev_region`. These are calls into the kernel with no
  behaviour of this module's own.
- The `mem_major` module parameter is left out. It only chooses the device
  number.
- The passive record `struct yinwoods_data`, the global `info`, the platform
  device and the `sprintf` into `info.a` are left out. They hold data and do no
  computation.
- The `printk` logging in read and write is left out. It only records what
  happened.
- `copy_to_user` and `copy_from_user` are modelled only as "copies every byte"
  or "faults" (the `fault` parameter). A copy of zero bytes never faults.
- `MemDev.File.Write`: on a fault the model copies nothing. The kernel's
  `copy_from_user` may already have copied part of the window before it
  faults, so the real buffer can differ inside `[p, p + count)`.
- Concurrency between handles that share a unit is left out. The code takes no
  lock, and the model runs one operation at a time.
- `MemDev.MemTable.Init`: the model assumes every allocation succeeds. The
  code does not check the per-unit `kmalloc` results. Only the table
  allocation failure (`-ENOMEM`, followed by unregistering) is handled, and
  that path is registration glue.
- The `memset` that clears only the first table entry is not modelled
  separately. The loop then sets both fields of every entry.
- Module teardown (`yinwoods_exit`) is left out. It frees the table but not
  the unit buffers, and after it no operation can be called.
- `*ppos` and `filp->f_pos` are one field, `File.pos`. The kernel passes read
  and write a pointer to the file position and stores it back.
- The minor number is taken as a natural number. Extracting it from the
  device number (`MINOR(inode->i_rdev)`) is not modelled.
- Write takes the caller's bytes as a sequence whose length is the requested
  size. A request longer than the caller's readable memory shows up only as a
  fault.
