/**
 Positioned file reads and writes on a shared cursor: two backends whose loops take whatever pieces the
 kernel moves, both proved against one description of the file's bytes.
 */
module FileIo {
  import opened Wrappers
  import opened Hex

  const U64 := 0x1_0000_0000_0000_0000
  const SIZE_MAX := U64 - 1
  const OFF_MAX := 0x7FFF_FFFF_FFFF_FFFF
  const DEFAULT_MAX_READ := 16 * 1024 * 1024
  const HARD_MAX_READ := 64 * 1024 * 1024
  const CHUNK := 64 * 1024

  type Word = x: int | 0 <= x < 0x1_0000_0000_0000_0000

  datatype IoError =
    | OffsetOutOfRange | RangeOverflow | CursorOverflow | HardLimit | Closed | AppendHandle
    | Failed | NothingWritten | Cancelled

  // ---------------------------------------------------------------- 64-bit range arithmetic

  /** Unsigned addition as the machine does it. */
  function Add64(a: Word, b: Word): Word {
    (a as int + b as int) % U64
  }

  predicate OffsetOk(o: Word) {
    o <= OFF_MAX
  }

  predicate OffsetAddOk(base: Word, delta: Word) {
    if delta > SIZE_MAX - base as int then false else OffsetOk(Add64(base, delta))
  }

  function CheckRange(offset: Word, length: Word): Option<IoError> {
    if !OffsetOk(offset) then Some(OffsetOutOfRange)
    else if length == 0 then None
    else if !OffsetAddOk(offset, length - 1) then Some(RangeOverflow)
    else None
  }

  /** The check passes exactly when every byte of the range has an offset that off_t can hold. */
  lemma CheckRangeIsExact(offset: Word, length: Word)
    ensures CheckRange(offset, length) == None <==> offset <= OFF_MAX && offset as int + length as int - 1 <= OFF_MAX
    ensures OffsetAddOk(offset, length) <==> offset as int + length as int <= OFF_MAX
    ensures OFF_MAX == 9_223_372_036_854_775_807
    ensures
      CheckRange(offset, length) ==
        if offset > OFF_MAX then Some(OffsetOutOfRange)
        else if length > 0 && offset as int + length as int - 1 > OFF_MAX then Some(RangeOverflow)
        else None
  {
  }

  /** Then no transfer inside the range computes an offset that wraps or leaves off_t. */
  lemma NoOffsetWraps(offset: Word, length: Word, done: Word)
    requires CheckRange(offset, length) == None && done < length
    ensures Add64(offset, done) == offset as int + done as int <= OFF_MAX && OffsetAddOk(offset, done)
  {
    CheckRangeIsExact(offset, length);
  }

  lemma SumFits(base: Word, delta: Word)
    requires base as int + delta as int <= OFF_MAX
    ensures OffsetAddOk(base, delta) && Add64(base, delta) == base as int + delta as int
  {
  }

  function ResolveReadMax(max: Word): Result<Word, IoError> {
    if max == SIZE_MAX then Ok(DEFAULT_MAX_READ) else if max > HARD_MAX_READ then Err(HardLimit) else Ok(max)
  }

  function Asked(max: Option<Word>): Word {
    if max.Some? then max.value else SIZE_MAX
  }

  // ---------------------------------------------------------------- the bytes

  /** The bytes of [at, at + n) that the file has. */
  function Slice(content: seq<Byte>, at: nat, n: nat): seq<Byte> {
    content[Min(at, |content|)..Min(at + n, |content|)]
  }

  /** The file after `data` is stored at `at`: a gap past the end reads as zeros. */
  function Overlay(content: seq<Byte>, at: nat, data: seq<Byte>): seq<Byte> {
    if data == [] then content
    else
      var head := if at <= |content| then content[..at] else content + seq(at - |content|, _ => 0);
      head + data + (if at + |data| <= |content| then content[at + |data|..] else [])
  }

  /** Byte `i` of an overlay is the datum where the range has one, else the old byte, else zero. */
  lemma OverlayAt(content: seq<Byte>, at: nat, data: seq<Byte>)
    requires data != []
    ensures |Overlay(content, at, data)| == if at + |data| <= |content| then |content| else at + |data|
    ensures
      forall i :: 0 <= i < |Overlay(content, at, data)| ==>
        Overlay(content, at, data)[i] ==
        if at <= i < at + |data| then data[i - at] else if i < |content| then content[i] else 0
  {
  }

  /** Storing a piece and then the next one right after it is storing both at once. */
  lemma OverlaysJoin(content: seq<Byte>, at: nat, a: seq<Byte>, b: seq<Byte>)
    ensures Overlay(Overlay(content, at, a), at + |a|, b) == Overlay(content, at, a + b)
  {
    if a == [] {
      assert a + b == b;
    } else if b == [] {
      assert a + b == a;
    } else {
      OverlayAt(content, at, a);
      OverlayAt(Overlay(content, at, a), at + |a|, b);
      OverlayAt(content, at, a + b);
    }
  }

  /** What was written is read back, and a read elsewhere sees what it saw before. */
  lemma WrittenIsRead(content: seq<Byte>, at: nat, data: seq<Byte>, from: nat, n: nat)
    ensures Slice(Overlay(content, at, data), at, |data|) == data
    ensures from + n <= at && at <= |content| ==> Slice(Overlay(content, at, data), from, n) == Slice(content, from, n)
    ensures at + |data| <= from ==> Slice(Overlay(content, at, data), from, n) == Slice(content, from, n)
  {
    if data != [] {
      OverlayAt(content, at, data);
    }
  }

  // ---------------------------------------------------------------- what one operation does

  /** The transfer was broken off: the kernel failed, or the caller cancelled. */
  predicate Broke<T>(r: Result<T, IoError>) {
    r.Err? && (r.error.Failed? || r.error.NothingWritten? || r.error.Cancelled?)
  }

  /** A cursor read that is not broken off: the answer and the cursor after it. */
  function Read(content: seq<Byte>, cursor: Word, open: bool, max: Option<Word>): (Result<seq<Byte>, IoError>, Word) {
    var lim := ResolveReadMax(Asked(max));
    if lim.Err? then (Err(lim.error), cursor)
    else if !open then (Err(Closed), cursor)
    else if lim.value == 0 then (Ok([]), cursor)
    else
      var range := CheckRange(cursor, lim.value);
      if range.Some? then (Err(range.value), cursor)
      else
        var data := Slice(content, cursor, lim.value);
        (Ok(data), cursor as int + |data|)
  }

  /** A cursor write that is not broken off, on a handle not opened for append. */
  function Write(content: seq<Byte>, cursor: Word, open: bool, data: seq<Byte>): (Result<Word, IoError>, seq<Byte>, Word)
    requires |data| < U64
  {
    if !open then (Err(Closed), content, cursor)
    else if data == [] then (Ok(0), content, cursor)
    else
      var range := CheckRange(cursor, |data|);
      if range.Some? then (Err(range.value), content, cursor)
      else (Ok(|data|), Overlay(content, cursor, data), cursor as int + |data|)
  }

  function ReadAt(content: seq<Byte>, offset: Word, open: bool, max: Word): Result<seq<Byte>, IoError> {
    var lim := ResolveReadMax(max);
    if lim.Err? then Err(lim.error)
    else if !open then Err(Closed)
    else if lim.value == 0 then Ok([])
    else
      var range := CheckRange(offset, lim.value);
      if range.Some? then Err(range.value) else Ok(Slice(content, offset, lim.value))
  }

  function WriteAt(content: seq<Byte>, offset: Word, open: bool, data: seq<Byte>): (Result<Word, IoError>, seq<Byte>)
    requires |data| < U64
  {
    if !open then (Err(Closed), content)
    else if data == [] then (Ok(0), content)
    else
      var range := CheckRange(offset, |data|);
      if range.Some? then (Err(range.value), content) else (Ok(|data|), Overlay(content, offset, data))
  }

  /** An append: the bytes go to the end, and the cursor follows the new size if the file can say it. */
  function Append(content: seq<Byte>, cursor: Word, open: bool, data: seq<Byte>, statOk: bool)
    : (Result<Word, IoError>, seq<Byte>, nat)
    requires |data| < U64
  {
    if !open then (Err(Closed), content, cursor)
    else if data == [] then (Ok(0), content, cursor)
    else
      var at := if statOk then |content| + |data|
                else if cursor as int + |data| <= OFF_MAX then cursor as int + |data| else cursor;
      (Ok(|data|), content + data, at)
  }

  /** Some first part of `data` is stored at `at`: all a broken-off write leaves. */
  ghost predicate PartStored(content: seq<Byte>, at: nat, data: seq<Byte>, after: seq<Byte>) {
    exists k: nat :: k <= |data| && after == Overlay(content, at, data[..k])
  }

  ghost predicate PartAppended(content: seq<Byte>, data: seq<Byte>, after: seq<Byte>) {
    exists k: nat :: k <= |data| && after == content + data[..k]
  }

  /** A read of the resolved limit asks for bytes past the offset maximum, which the kernel may refuse. */
  predicate PastOffMax(at: Word, max: Word) {
    ResolveReadMax(max).Ok? && at as int + ResolveReadMax(max).value as int > OFF_MAX
  }

  /** A resolved limit resolves to itself, so resolving it twice on the way down changes nothing. */
  lemma ResolvedStays(max: Word)
    requires ResolveReadMax(max).Ok?
    ensures ResolveReadMax(ResolveReadMax(max).value) == ResolveReadMax(max)
  {
  }

  // ---------------------------------------------------------------- the kernel

  datatype Transfer = Interrupted | Failure | Moved(n: nat)

  /**
   A file in the kernel.  It moves any part of what is asked, is interrupted a finite number of times,
   never grows past the offset maximum, may refuse a transfer that would end past it, and fails for no
   other reason if it is reliable.
   */
  class Disk {
    const reliable: bool
    var content: seq<Byte>

    ghost predicate Valid()
      reads this
    {
      |content| <= OFF_MAX
    }

    constructor (content: seq<Byte>, reliable: bool)
      requires |content| <= OFF_MAX
      ensures Valid() && this.content == content && this.reliable == reliable
    {
      this.content, this.reliable := content, reliable;
    }

    /** pread(2): nothing moved is the end of the file. */
    method Pread(pos: Word, want: Word, patience: nat) returns (t: Transfer, data: seq<Byte>, rest: nat)
      requires pos <= OFF_MAX && want > 0
      ensures if t.Interrupted? then rest < patience else rest == patience
      ensures t.Failure? ==> !reliable || pos as int + want as int > OFF_MAX
      ensures t.Moved? ==> t.n == |data| <= want && data == Slice(content, pos, t.n)
      ensures t == Moved(0) ==> pos >= |content|
    {
      rest := patience;
      if * {
        if patience > 0 {
          return Interrupted, [], patience - 1;
        } else if !reliable || pos as int + want as int > OFF_MAX {
          return Failure, [], rest;
        }
      }
      if pos >= |content| {
        return Moved(0), [], rest;
      }
      var most := Min(want, |content| - pos);
      var k: nat :| 0 < k <= most;
      return Moved(k), content[pos..pos + k], rest;
    }

    /** What one write at `pos` may do; at the offset maximum there is no room for any part of it. */
    ghost predicate Wrote(before: seq<Byte>, pos: Word, data: seq<Byte>, t: Transfer)
      reads this
    {
      match t
      case Interrupted => content == before
      case Failure => content == before && (!reliable || pos as int + |data| > OFF_MAX)
      case Moved(n) =>
        n <= |data| && pos as int + n <= OFF_MAX && content == Overlay(before, pos, data[..n]) && (n == 0 ==> !reliable)
    }

    method StoreSome(pos: Word, data: seq<Byte>) returns (t: Transfer)
      requires Valid() && pos <= OFF_MAX && data != []
      modifies this`content
      ensures Valid() && !t.Interrupted? && Wrote(old(content), pos, data, t)
    {
      var refuse: bool := *;
      if pos == OFF_MAX || (refuse && (!reliable || pos as int + |data| > OFF_MAX)) {
        return Failure;
      }
      var most: nat := Min(|data|, OFF_MAX - pos);
      var least := if reliable then 1 else 0;
      var n: nat :| least <= n <= most;
      if n > 0 {
        OverlayAt(content, pos, data[..n]);
      } else {
        NothingStored(content, pos, data);
      }
      content := Overlay(content, pos, data[..n]);
      return Moved(n);
    }

    /** pwrite(2). */
    method Pwrite(pos: Word, data: seq<Byte>, patience: nat) returns (t: Transfer, rest: nat)
      requires Valid() && pos <= OFF_MAX && data != []
      modifies this`content
      ensures Valid() && Wrote(old(content), pos, data, t)
      ensures if t.Interrupted? then rest < patience else rest == patience
    {
      rest := patience;
      if * {
        if patience > 0 {
          return Interrupted, patience - 1;
        }
      }
      t := StoreSome(pos, data);
    }

    /** write(2) under O_APPEND: what is stored goes to the end. */
    method AppendSome(data: seq<Byte>, patience: nat) returns (t: Transfer, rest: nat)
      requires Valid() && data != []
      modifies this`content
      ensures Valid()
      ensures if t.Interrupted? then rest < patience else rest == patience
      ensures t.Interrupted? ==> content == old(content)
      ensures t.Failure? ==> content == old(content) && (!reliable || |content| + |data| > OFF_MAX)
      ensures
        t.Moved? ==>
          t.n <= |data| && content == old(content) + data[..t.n] && (t.n == 0 ==> !reliable)
    {
      rest := patience;
      if * {
        if patience > 0 {
          return Interrupted, patience - 1;
        }
      }
      var refuse: bool := *;
      if |content| == OFF_MAX || (refuse && (!reliable || |content| + |data| > OFF_MAX)) {
        return Failure, rest;
      }
      var most: nat := Min(|data|, OFF_MAX - |content|);
      var least := if reliable then 1 else 0;
      var n: nat :| least <= n <= most;
      content := content + data[..n];
      return Moved(n), rest;
    }

    /** `async_read_some_at`: the end of the file is an error code or nothing moved. */
    method ReadSome(pos: Word, want: Word) returns (eof: bool, t: Transfer, data: seq<Byte>)
      requires pos <= OFF_MAX && want > 0
      ensures !t.Interrupted? && (t.Failure? ==> !reliable || pos as int + want as int > OFF_MAX)
      ensures eof || t == Moved(0) ==> pos >= |content|
      ensures t.Moved? ==> t.n == |data| <= want && data == Slice(content, pos, t.n)
    {
      if * {
        if !reliable || pos as int + want as int > OFF_MAX {
          return false, Failure, [];
        }
      }
      if pos >= |content| {
        eof := *;
        return eof, Moved(0), [];
      }
      var most := Min(want, |content| - pos);
      var k: nat :| 0 < k <= most;
      return false, Moved(k), content[pos..pos + k];
    }
  }

  lemma PieceOfSlice(content: seq<Byte>, at: nat, got: nat, n: nat, max: nat)
    requires got <= max && |Slice(content, at, got)| == got
    ensures n > 0 && got + n <= max && |Slice(content, at + got, n)| == n ==>
      Slice(content, at, got) + Slice(content, at + got, n) == Slice(content, at, got + n)
    ensures at + got >= |content| ==> Slice(content, at, got) == Slice(content, at, max)
  {
  }

  lemma NothingRead(content: seq<Byte>, at: nat)
    ensures Slice(content, at, 0) == []
  {
  }

  lemma PieceOfAppend(was: seq<Byte>, data: seq<Byte>, off: nat, n: nat)
    requires off + n <= |data|
    ensures was + data[..off] + data[off..][..n] == was + data[..off + n]
  {
    assert data[..off] + data[off..][..n] == data[..off + n];
  }

  lemma NothingStored(content: seq<Byte>, at: nat, data: seq<Byte>)
    ensures Overlay(content, at, data[..0]) == content
  {
  }

  lemma PieceOfOverlay(content: seq<Byte>, at: nat, data: seq<Byte>, off: nat, n: nat)
    requires off + n <= |data|
    ensures
      Overlay(Overlay(content, at, data[..off]), at + off, data[off..][..n]) == Overlay(content, at, data[..off + n])
  {
    assert data[..off] + data[off..][..n] == data[..off + n];
    OverlaysJoin(content, at, data[..off], data[off..][..n]);
  }

  /** How a loop of partial writes may leave the file: all of `data` stored, or broken off with a part of it. */
  ghost predicate LoopStored(
      disk: Disk, before: seq<Byte>, at: nat, data: seq<Byte>, stop: bool, r: Result<Word, IoError>)
    requires |data| < U64
    reads disk
  {
    && disk.Valid()
    && (r.Err? ==>
          && Broke(r) && PartStored(before, at, data, disk.content)
          && (!disk.reliable || stop || at + |data| > OFF_MAX))
    && (r.Ok? ==> r == Ok(|data|) && disk.content == Overlay(before, at, data) && at + |data| <= OFF_MAX)
  }

  // ---------------------------------------------------------------- the file handle

  /**
   One operation at a time, as the handle's lease queue has it.  `patience` bounds the interruptions an
   operation meets, and `stop` says whether its caller may ask it to stop while it waits.
   */
  class File {
    const disk: Disk
    const append: bool
    var useAsio: bool
    var open: bool
    var cursor: Word

    ghost predicate Valid()
      reads this, disk
    {
      cursor <= OFF_MAX && (useAsio ==> open) && disk.Valid()
    }

    constructor (disk: Disk, append: bool, useAsio: bool)
      requires disk.Valid()
      ensures Valid() && open && cursor == 0 && this.disk == disk && this.append == append && this.useAsio == useAsio
    {
      this.disk, this.append, this.useAsio := disk, append, useAsio;
      open, cursor := true, 0;
    }

    method Close()
      requires Valid()
      modifies this`open, this`useAsio
      ensures Valid() && !open && !useAsio
    {
      open, useAsio := false, false;
    }

    method AdvanceCursor(delta: Word) returns (error: Option<IoError>)
      modifies this`cursor
      ensures error == if old(cursor) as int + delta as int <= OFF_MAX then None else Some(CursorOverflow)
      ensures cursor == if error.None? then old(cursor) as int + delta as int else old(cursor)
    {
      CheckRangeIsExact(cursor, delta);
      if !OffsetAddOk(cursor, delta) {
        return Some(CursorOverflow);
      }
      cursor := Add64(cursor, delta);
      return None;
    }

    /** The shared loop of `read` and `read_at` on the descriptor. */
    method PreadLoop(at: Word, max: Word, patience: nat) returns (r: Result<seq<Byte>, IoError>)
      requires max > 0 && CheckRange(at, max) == None
      ensures r.Err? ==> r == Err(Failed) && (!disk.reliable || at as int + max as int > OFF_MAX)
      ensures r.Ok? ==> r.value == Slice(disk.content, at, max)
    {
      hide CheckRange, Slice, Add64, OffsetAddOk;
      NothingRead(disk.content, at);
      var buf: seq<Byte> := [];
      var got: Word := 0;
      var rest := patience;
      while got < max
        invariant got <= max && got == |buf| && buf == Slice(disk.content, at, got)
        decreases max - got, rest
      {
        NoOffsetWraps(at, max, got);
        var want := Min(CHUNK, max - got);
        var t, piece, left := disk.Pread(Add64(at, got), want, rest);
        rest := left;
        if t.Interrupted? {
          continue;
        } else if t.Failure? {
          return Err(Failed);
        }
        PieceOfSlice(disk.content, at, got, t.n, max);
        if t.n == 0 {
          break;
        }
        buf := buf + piece;
        got := got + t.n;
      }
      r := Ok(buf);
    }

    method PosixRead(max: Word, patience: nat) returns (r: Result<seq<Byte>, IoError>)
      requires Valid()
      modifies this`cursor
      ensures Broke(r) ==> cursor == old(cursor) && (!disk.reliable || PastOffMax(cursor, max))
      ensures !Broke(r) ==> (r, cursor) == Read(disk.content, old(cursor), open, Some(max))
    {
      hide Slice, Add64, OffsetAddOk;
      var lim := ResolveReadMax(max);
      if lim.Err? {
        return Err(lim.error);
      }
      if !open {
        return Err(Closed);
      }
      var at := cursor;
      if lim.value == 0 {
        return Ok([]);
      }
      var range := CheckRange(at, lim.value);
      if range.Some? {
        return Err(range.value);
      }
      r := PreadLoop(at, lim.value, patience);
      if r.Err? {
        return;
      }
      ReadStaysInRange(disk.content, at, lim.value);
      SumFits(at, |r.value|);
      if !OffsetAddOk(at, |r.value|) {
        assert false;
      }
      cursor := Add64(at, |r.value|);
    }

    method PosixReadAt(offset: Word, max: Word, patience: nat) returns (r: Result<seq<Byte>, IoError>)
      ensures Broke(r) ==> !disk.reliable || PastOffMax(offset, max)
      ensures !Broke(r) ==> r == ReadAt(disk.content, offset, open, max)
    {
      var lim := ResolveReadMax(max);
      if lim.Err? {
        return Err(lim.error);
      }
      if !open {
        return Err(Closed);
      }
      if lim.value == 0 {
        return Ok([]);
      }
      var range := CheckRange(offset, lim.value);
      if range.Some? {
        return Err(range.value);
      }
      r := PreadLoop(offset, lim.value, patience);
    }

    /** The Asio loop, which looks for a stop request before and after every piece. */
    method ReadSomeLoop(at: Word, max: Word, stop: bool) returns (r: Result<seq<Byte>, IoError>)
      requires max > 0 && CheckRange(at, max) == None
      ensures r.Err? ==> Broke(r) && (!disk.reliable || stop || at as int + max as int > OFF_MAX)
      ensures r.Ok? ==> r.value == Slice(disk.content, at, max)
    {
      hide CheckRange, Slice, Add64, OffsetAddOk;
      NothingRead(disk.content, at);
      var buf: seq<Byte> := [];
      var got: Word := 0;
      while got < max
        invariant got <= max && got == |buf| && buf == Slice(disk.content, at, got)
        decreases max - got
      {
        var early: bool := *;
        if stop && early {
          return Err(Cancelled);
        }
        NoOffsetWraps(at, max, got);
        var want := Min(CHUNK, max - got);
        var eof, t, piece := disk.ReadSome(Add64(at, got), want);
        if t.Moved? {
          PieceOfSlice(disk.content, at, got, t.n, max);
        }
        if eof {
          PieceOfSlice(disk.content, at, got, 0, max);
          break;
        }
        var stopped: bool := *;
        if stop && stopped {
          return Err(Cancelled);
        }
        if t.Failure? {
          return Err(Failed);
        }
        if t.n == 0 {
          break;
        }
        buf := buf + piece;
        got := got + t.n;
      }
      r := Ok(buf);
    }

    method AsyncReadAt(offset: Word, max: Word, stop: bool) returns (r: Result<seq<Byte>, IoError>)
      requires useAsio && open
      ensures Broke(r) ==> !disk.reliable || stop || PastOffMax(offset, max)
      ensures !Broke(r) ==> r == ReadAt(disk.content, offset, true, max)
    {
      var lim := ResolveReadMax(max);
      if lim.Err? {
        return Err(lim.error);
      }
      if lim.value == 0 {
        return Ok([]);
      }
      var range := CheckRange(offset, lim.value);
      if range.Some? {
        return Err(range.value);
      }
      r := ReadSomeLoop(offset, lim.value, stop);
    }

    /**
     `FileHandle.read`: unless the transfer is broken off, both backends give the same bytes, the same
     errors and the same cursor, and the cursor never overflows; broken off, it leaves the cursor.
     */
    method ReadHandle(max: Option<Word>, patience: nat, stop: bool) returns (r: Result<seq<Byte>, IoError>)
      requires Valid()
      modifies this`cursor
      ensures Valid() && r != Err(CursorOverflow)
      ensures Broke(r) ==> cursor == old(cursor) && (!disk.reliable || stop || PastOffMax(cursor, Asked(max)))
      ensures !Broke(r) ==> (r, cursor) == Read(disk.content, old(cursor), open, max)
    {
      var lim := ResolveReadMax(Asked(max));
      if lim.Err? {
        return Err(lim.error);
      }
      ResolvedStays(Asked(max));
      ReadStaysInRange(disk.content, cursor, lim.value);
      if useAsio {
        var at := cursor;
        r := AsyncReadAt(at, lim.value, stop);
        if r.Ok? {
          var error := AdvanceCursor(|r.value|);
          if error.Some? {
            assert false;
          }
        }
        return r;
      }
      r := PosixRead(lim.value, patience);
    }

    method ReadAtHandle(offset: Word, max: Word, patience: nat, stop: bool) returns (r: Result<seq<Byte>, IoError>)
      requires Valid()
      ensures Broke(r) ==> !disk.reliable || stop || PastOffMax(offset, max)
      ensures !Broke(r) ==> r == ReadAt(disk.content, offset, open, max)
    {
      var lim := ResolveReadMax(max);
      if lim.Err? {
        return Err(lim.error);
      }
      ResolvedStays(max);
      if useAsio {
        r := AsyncReadAt(offset, lim.value, stop);
      } else {
        r := PosixReadAt(offset, lim.value, patience);
      }
    }

    /** The shared loop of `write` and `write_at` on the descriptor. */
    method PwriteLoop(at: Word, data: seq<Byte>, patience: nat) returns (r: Result<Word, IoError>)
      requires disk.Valid() && 0 < |data| < U64 && CheckRange(at, |data|) == None
      modifies disk
      ensures LoopStored(disk, old(disk.content), at, data, false, r)
    {
      hide CheckRange, Overlay, Add64, OffsetAddOk;
      ghost var was := disk.content;
      var off: Word := 0;
      var rest := patience;
      NothingStored(disk.content, at, data);
      CheckRangeIsExact(at, |data|);
      while off < |data|
        invariant disk.Valid() && off <= |data| && (off > 0 ==> at as int + off as int <= OFF_MAX)
        invariant disk.content == Overlay(was, at, data[..off])
        decreases |data| - off, rest
      {
        NoOffsetWraps(at, |data|, off);
        var t, left := disk.Pwrite(Add64(at, off), data[off..], rest);
        rest := left;
        if t.Interrupted? {
          continue;
        } else if t.Failure? {
          return Err(Failed);
        }
        PieceOfOverlay(was, at, data, off, t.n);
        if t.n == 0 {
          return Err(NothingWritten);
        }
        off := off + t.n;
      }
      assert data[..|data|] == data;
      r := Ok(off);
    }

    method PosixWrite(data: seq<Byte>, patience: nat) returns (r: Result<Word, IoError>)
      requires Valid() && !append && |data| < U64
      modifies this`cursor, disk
      ensures Valid() && r != Err(CursorOverflow)
      ensures
        Broke(r) ==>
          && cursor == old(cursor) && PartStored(old(disk.content), cursor, data, disk.content)
          && (!disk.reliable || cursor as int + |data| > OFF_MAX)
      ensures !Broke(r) ==> (r, disk.content, cursor) == Write(old(disk.content), old(cursor), open, data)
    {
      if !open {
        return Err(Closed);
      }
      if data == [] {
        return Ok(0);
      }
      var at := cursor;
      var range := CheckRange(at, |data|);
      if range.Some? {
        return Err(range.value);
      }
      r := PwriteLoop(at, data, patience);
      if r.Err? {
        return;
      }
      CheckRangeIsExact(at, r.value);
      if !OffsetAddOk(at, r.value) {
        assert false;
      }
      cursor := Add64(at, r.value);
    }

    method PosixWriteAt(offset: Word, data: seq<Byte>, patience: nat) returns (r: Result<Word, IoError>)
      requires disk.Valid() && !append && |data| < U64
      modifies disk
      ensures disk.Valid()
      ensures
        Broke(r) ==>
          && PartStored(old(disk.content), offset, data, disk.content)
          && (!disk.reliable || offset as int + |data| > OFF_MAX)
      ensures !Broke(r) ==> (r, disk.content) == WriteAt(old(disk.content), offset, open, data)
    {
      if !open {
        return Err(Closed);
      }
      if data == [] {
        return Ok(0);
      }
      var range := CheckRange(offset, |data|);
      if range.Some? {
        return Err(range.value);
      }
      r := PwriteLoop(offset, data, patience);
    }

    /** The Asio loop, which looks for a stop request before and after every piece. */
    method WriteSomeLoop(at: Word, data: seq<Byte>, stop: bool) returns (r: Result<Word, IoError>)
      requires disk.Valid() && 0 < |data| < U64 && CheckRange(at, |data|) == None
      modifies disk
      ensures LoopStored(disk, old(disk.content), at, data, stop, r)
    {
      hide CheckRange, Overlay, Add64, OffsetAddOk;
      ghost var was := disk.content;
      var off: Word := 0;
      NothingStored(disk.content, at, data);
      CheckRangeIsExact(at, |data|);
      while off < |data|
        invariant disk.Valid() && off <= |data| && (off > 0 ==> at as int + off as int <= OFF_MAX)
        invariant disk.content == Overlay(was, at, data[..off])
        decreases |data| - off
      {
        var early: bool := *;
        if stop && early {
          return Err(Cancelled);
        }
        NoOffsetWraps(at, |data|, off);
        var t := disk.StoreSome(Add64(at, off), data[off..]);
        if t.Moved? {
          PieceOfOverlay(was, at, data, off, t.n);
        }
        var stopped: bool := *;
        if stop && stopped {
          return Err(Cancelled);
        }
        if t.Failure? {
          return Err(Failed);
        }
        if t.n == 0 {
          return Err(NothingWritten);
        }
        off := off + t.n;
      }
      assert data[..|data|] == data;
      r := Ok(off);
    }

    method AsyncWriteAt(offset: Word, data: seq<Byte>, stop: bool) returns (r: Result<Word, IoError>)
      requires disk.Valid() && useAsio && open && !append && |data| < U64
      modifies disk
      ensures disk.Valid()
      ensures
        Broke(r) ==>
          && PartStored(old(disk.content), offset, data, disk.content)
          && (!disk.reliable || stop || offset as int + |data| > OFF_MAX)
      ensures !Broke(r) ==> (r, disk.content) == WriteAt(old(disk.content), offset, true, data)
      ensures r.Ok? && data != [] ==> offset as int + |data| <= OFF_MAX
    {
      if data == [] {
        return Ok(0);
      }
      var range := CheckRange(offset, |data|);
      if range.Some? {
        return Err(range.value);
      }
      r := WriteSomeLoop(offset, data, stop);
    }

    method AppendWrite(data: seq<Byte>, patience: nat, statOk: bool) returns (r: Result<Word, IoError>)
      requires Valid() && append && |data| < U64
      modifies this`cursor, disk
      ensures Valid()
      ensures
        Broke(r) ==>
          && cursor == old(cursor) && PartAppended(old(disk.content), data, disk.content)
          && (!disk.reliable || |old(disk.content)| + |data| > OFF_MAX)
      ensures !Broke(r) ==> (r, disk.content, cursor) == Append(old(disk.content), old(cursor), open, data, statOk)
    {
      if !open {
        return Err(Closed);
      }
      if data == [] {
        return Ok(0);
      }
      ghost var was := disk.content;
      var off: Word := 0;
      var rest := patience;
      assert was + data[..0] == was;
      while off < |data|
        invariant disk.Valid() && off <= |data| && disk.content == was + data[..off]
        invariant cursor == old(cursor) && open == old(open) && useAsio == old(useAsio)
        decreases |data| - off, rest
      {
        var t, left := disk.AppendSome(data[off..], rest);
        rest := left;
        if t.Interrupted? {
          continue;
        } else if t.Failure? {
          return Err(Failed);
        }
        PieceOfAppend(was, data, off, t.n);
        if t.n == 0 {
          return Err(NothingWritten);
        }
        off := off + t.n;
      }
      assert data[..|data|] == data;
      CheckRangeIsExact(cursor, off);
      hide CheckRange;
      if statOk {
        cursor := |disk.content|;
      } else if OffsetAddOk(cursor, off) {
        cursor := Add64(cursor, off);
      }
      r := Ok(off);
    }

    /**
     `FileHandle.write` on a handle not opened for append.  Both backends agree as they do for reads;
     broken off, a write leaves the cursor and a first part of the data.
     */
    method WriteHandle(data: seq<Byte>, patience: nat, stop: bool) returns (r: Result<Word, IoError>)
      requires Valid() && !append && |data| < U64
      modifies this`cursor, disk
      ensures Valid() && r != Err(CursorOverflow)
      ensures
        Broke(r) ==>
          && cursor == old(cursor) && PartStored(old(disk.content), cursor, data, disk.content)
          && (!disk.reliable || stop || cursor as int + |data| > OFF_MAX)
      ensures !Broke(r) ==> (r, disk.content, cursor) == Write(old(disk.content), old(cursor), open, data)
    {
      if useAsio {
        var at := cursor;
        r := AsyncWriteAt(at, data, stop);
        if r.Ok? {
          var error := AdvanceCursor(r.value);
          if error.Some? {
            assert false;
          }
        }
        return r;
      }
      r := PosixWrite(data, patience);
    }

    method WriteAtHandle(offset: Word, data: seq<Byte>, patience: nat, stop: bool) returns (r: Result<Word, IoError>)
      requires Valid() && |data| < U64
      modifies disk
      ensures Valid()
      ensures append ==> r == Err(AppendHandle) && disk.content == old(disk.content)
      ensures
        Broke(r) ==>
          && PartStored(old(disk.content), offset, data, disk.content)
          && (!disk.reliable || stop || offset as int + |data| > OFF_MAX)
      ensures !append && !Broke(r) ==> (r, disk.content) == WriteAt(old(disk.content), offset, open, data)
    {
      if append {
        return Err(AppendHandle);
      }
      if useAsio {
        r := AsyncWriteAt(offset, data, stop);
      } else {
        r := PosixWriteAt(offset, data, patience);
      }
    }
  }

  // ---------------------------------------------------------------- over several operations

  /** A file ends where `off_t` does, so no read leaves the cursor anywhere else. */
  lemma ReadStaysInRange(content: seq<Byte>, cursor: Word, n: nat)
    requires |content| <= OFF_MAX && cursor <= OFF_MAX
    ensures cursor as int + |Slice(content, cursor, n)| <= OFF_MAX
  {
  }

  lemma ReadIsSlice(content: seq<Byte>, cursor: Word, n: Word)
    requires n <= HARD_MAX_READ && cursor as int + n as int <= OFF_MAX
    ensures
      var data := Slice(content, cursor, n);
      Read(content, cursor, true, Some(n)) == (Ok(data), (cursor as int + |data|) as Word)
  {
    CheckRangeIsExact(cursor, n);
    if n == 0 {
      assert Slice(content, cursor, n) == [];
    }
  }

  lemma SlicesMeet(content: seq<Byte>, at: nat, n: nat, m: nat)
    ensures
      var a := Slice(content, at, n);
      a + Slice(content, at + |a|, m) == Slice(content, at, n + m)
  {
  }

  /** Two reads in a row give what one longer read gives, and leave the cursor where it leaves it. */
  lemma ConsecutiveReads(content: seq<Byte>, cursor: Word, n: Word, m: Word)
    requires n as int + m as int <= HARD_MAX_READ && cursor as int + n as int + m as int <= OFF_MAX
    ensures
      var (a, mid) := Read(content, cursor, true, Some(n));
      var (b, end) := Read(content, mid, true, Some(m));
      a.Ok? && b.Ok? && Read(content, cursor, true, Some(n + m)) == (Ok(a.value + b.value), end)
  {
    hide Read, Slice;
    ReadIsSlice(content, cursor, n);
    var a := Slice(content, cursor, n);
    SliceIsShort(content, cursor, n);
    ReadIsSlice(content, cursor as int + |a|, m);
    ReadIsSlice(content, cursor, n + m);
    SlicesMeet(content, cursor, n, m);
  }

  lemma SliceIsShort(content: seq<Byte>, at: nat, n: nat)
    ensures |Slice(content, at, n)| <= n
  {
  }

  /**
   Unless it is broken off, a cursor read succeeds exactly on an open handle, within the hard limit, on a
   range whose offsets fit.  The check lets a range end at `OFF_MAX + 1`, one byte further than a transfer
   the kernel must take; such a read may be broken off (`PastOffMax`), and is the only accepted one that may.
   */
  lemma ReadOkExactly(content: seq<Byte>, cursor: Word, open: bool, max: Option<Word>)
    requires |content| <= OFF_MAX && cursor <= OFF_MAX
    ensures
      var asked := Asked(max);
      var lim := if max.None? || max.value == SIZE_MAX then 16_777_216 else max.value;
      var (r, end) := Read(content, cursor, open, max);
      (r.Ok? <==> open && lim <= 67_108_864 && cursor as int + lim as int <= OFF_MAX + 1)
      && (r.Ok? ==> |r.value| <= lim && end == cursor as int + |r.value| <= OFF_MAX)
      && (r.Ok? ==> (PastOffMax(cursor, asked) <==> cursor as int + lim as int == OFF_MAX + 1))
      && (r.Err? ==>
            && end == cursor
            && r.error == if lim > 67_108_864 then HardLimit else if !open then Closed else RangeOverflow)
  {
    hide Slice, CheckRange;
    var lim := ResolveReadMax(Asked(max));
    if lim.Ok? {
      CheckRangeIsExact(cursor, lim.value);
      SliceIsShort(content, cursor, lim.value);
      ReadStaysInRange(content, cursor, lim.value);
    }
  }

  /**
   Unless it is broken off, a cursor write succeeds exactly on an open handle and a range whose offsets fit, or
   with nothing to write.  Then the range holds the data, bytes apart from it are as they were, and the cursor
   is past it; refused, it changes nothing.
   */
  lemma WriteOkExactly(content: seq<Byte>, cursor: Word, open: bool, data: seq<Byte>)
    requires |data| < U64 && cursor <= OFF_MAX
    ensures
      var (r, after, end) := Write(content, cursor, open, data);
      && (r.Ok? <==> open && (data == [] || cursor as int + |data| <= OFF_MAX + 1))
      && (r.Ok? ==> r.value == |data| && end == cursor as int + |data|)
      && (r.Err? ==> r.error == (if !open then Closed else RangeOverflow) && after == content && end == cursor)
      && (r.Ok? && data == [] ==> after == content)
      && (r.Ok? && data != [] ==>
            && |after| == Max(|content|, cursor as int + |data|)
            && forall i :: 0 <= i < |after| ==>
                 after[i] ==
                   if cursor as int <= i < cursor as int + |data| then data[i - cursor as int]
                   else if i < |content| then content[i] else 0)
  {
    hide CheckRange, Overlay;
    CheckRangeIsExact(cursor, |data|);
    if data != [] {
      OverlayAt(content, cursor, data);
    }
  }

  /** The operations at an offset of their own succeed and fail in the same cases, an offset out of range besides. */
  lemma AtOkExactly(content: seq<Byte>, offset: Word, open: bool, max: Word, data: seq<Byte>)
    requires |data| < U64
    ensures
      var lim := if max == SIZE_MAX then 16_777_216 else max;
      var r := ReadAt(content, offset, open, max);
      && (r.Ok? <==> open && lim <= 67_108_864
                     && (lim == 0 || (offset <= OFF_MAX && offset as int + lim as int <= OFF_MAX + 1)))
      && (r.Ok? ==> r.value == Slice(content, offset, lim))
      && (r.Err? ==> r.error == if lim > 67_108_864 then HardLimit else if !open then Closed
                                else if offset > OFF_MAX then OffsetOutOfRange else RangeOverflow)
    ensures
      var (r, after) := WriteAt(content, offset, open, data);
      && (r.Ok? <==> open && (data == [] || (offset <= OFF_MAX && offset as int + |data| <= OFF_MAX + 1)))
      && (r.Ok? ==> r.value == |data| && after == Overlay(content, offset, data))
      && (r.Err? ==>
            && after == content
            && r.error == if !open then Closed else if offset > OFF_MAX then OffsetOutOfRange else RangeOverflow)
  {
    hide CheckRange, Slice, Overlay;
    CheckRangeIsExact(offset, |data|);
    CheckRangeIsExact(offset, if max == SIZE_MAX then 16_777_216 else max);
    NothingRead(content, offset);
    NothingOverlaid(content, offset);
  }

  lemma NothingOverlaid(content: seq<Byte>, at: nat)
    ensures Overlay(content, at, []) == content
  {
  }

  /** An append succeeds exactly on an open handle, keeps what was there and adds the data behind it. */
  lemma AppendOkExactly(content: seq<Byte>, cursor: Word, open: bool, data: seq<Byte>, statOk: bool)
    requires |data| < U64
    ensures
      var (r, after, end) := Append(content, cursor, open, data, statOk);
      && r == (if open then Ok(|data|) else Err(Closed))
      && after == (if open then content + data else content)
      && (!open || data == [] ==> end == cursor)
      && (open && data != [] && statOk ==> end == |after|)
      && (open && data != [] && !statOk ==>
            end == if cursor as int + |data| <= 9_223_372_036_854_775_807 then cursor as int + |data| else cursor)
  {
    assert data == [] ==> content + data == content;
  }

  /** What was appended is the end of the file, and a read from the cursor before it finds it there. */
  lemma AppendThenRead(content: seq<Byte>, cursor: Word, data: seq<Byte>)
    requires 0 < |data| <= HARD_MAX_READ && |content| + |data| <= OFF_MAX
    ensures
      var (r, after, end) := Append(content, cursor, true, data, true);
      r == Ok(|data|) && after[..|content|] == content && end == |after|
      && Read(after, |content|, true, Some(|data|)) == (Ok(data), end)
  {
    var after := content + data;
    assert Slice(after, |content|, |data|) == data;
    ReadIsSlice(after, |content|, |data|);
  }

  /** A write and then a read of the same range through another cursor gives the data back. */
  lemma WriteThenRead(content: seq<Byte>, cursor: Word, data: seq<Byte>)
    requires 0 < |data| <= HARD_MAX_READ && cursor as int + |data| <= OFF_MAX
    ensures
      var (r, after, end) := Write(content, cursor, true, data);
      r == Ok(|data|) && Read(after, cursor, true, Some(|data|)) == (Ok(data), end)
  {
    WrittenIsRead(content, cursor, data, 0, 0);
  }
}
