/** The copy behind a fresh inode: extent by extent where the file system tells data from
    holes, byte by byte where it does not, with short reads and short writes throughout. */
module SparseCopy {
  import opened Basics

  datatype Failure = Eio | Unsupported | OtherError | OverBudget

  datatype Result = Done | Raised(failure: Failure)

  datatype Seek = At(offset: nat) | NoMoreData | Failed(failure: Failure)

  const COPY_BUFFER_BYTES := 1024 * 1024

  function Zeros(n: nat): (z: Bytes)
    ensures |z| == n && forall i :: 0 <= i < n ==> z[i] == 0
  {
    seq(n, i => 0)
  }

  /** The first size bytes of a source; a source that is shorter reads as zeros beyond its end. */
  function FirstBytes(source: Bytes, size: nat): (b: Bytes)
    ensures |b| == size
    ensures forall i :: 0 <= i < size ==> b[i] == if i < |source| then source[i] else 0
  {
    if size <= |source| then source[..size] else source + Zeros(size - |source|)
  }

  /** The content of a file after chunk has been written at a position inside it. */
  function Written(file: Bytes, at: nat, chunk: Bytes): Bytes
    requires at <= |file|
  {
    file[..at] + chunk + (if at + |chunk| < |file| then file[at + |chunk|..] else [])
  }

  /** The source bytes a run of reads from one position to another has returned. */
  function Between(source: Bytes, from: nat, to: nat): Bytes {
    if from <= to <= |source| then source[from..to] else []
  }

  /** The staging file agrees with the source up to offset and is still zero beyond. */
  predicate CopiedTo(temp: Bytes, source: Bytes, size: nat, offset: nat) {
    && |temp| == size
    && (forall i :: 0 <= i < offset && i < size ==> temp[i] == FirstBytes(source, size)[i])
    && (forall i :: offset <= i < size ==> temp[i] == 0)
  }

  lemma WrittenTwice(file: Bytes, at: nat, a: Bytes, b: Bytes)
    requires at <= |file|
    ensures at + |a| <= |Written(file, at, a)|
    ensures Written(Written(file, at, a), at + |a|, b) == Written(file, at, a + b)
  {
    var once := Written(file, at, a);
    assert once[..at + |a|] == file[..at] + a;
    if at + |a| + |b| < |file| {
      assert once[at + |a| + |b|..] == file[at + |a| + |b|..];
    }
  }

  lemma WrittenNothing(file: Bytes, at: nat)
    requires at <= |file|
    ensures Written(file, at, []) == file
  {
  }

  /** A source and its staging file. data tells which source bytes lie in data extents; a
      byte in a hole reads as zero. script decides every short transfer and every error. */
  class Staging {
    const source: Bytes
    const data: seq<bool>
    const limit: nat
    var temp: Bytes
    var sourcePos: nat
    var tempPos: nat
    var charged: nat
    var script: seq<nat>

    predicate Valid()
      reads this
    {
      |data| == |source| && forall i :: 0 <= i < |source| ==> data[i] || source[i] == 0
    }

    constructor (source: Bytes, data: seq<bool>, limit: nat, charged: nat, script: seq<nat>)
      requires |data| == |source| && forall i :: 0 <= i < |source| ==> data[i] || source[i] == 0
      ensures Valid() && this.source == source && this.charged == charged
      ensures temp == [] && sourcePos == 0 && tempPos == 0
    {
      this.source, this.data, this.limit := source, data, limit;
      temp, sourcePos, tempPos, this.charged, this.script := [], 0, 0, charged, script;
    }

    method Next() returns (n: nat)
      modifies this`script
      ensures old(script) == [] ==> n == 0 && script == []
      ensures old(script) != [] ==> [n] + script == old(script)
    {
      if script == [] {
        return 0;
      }
      n := script[0];
      script := script[1..];
    }

    /** read: at least one byte and at most n, or none at the end of the source. */
    method Read(n: nat) returns (chunk: Bytes)
      requires n > 0
      modifies this`script, this`sourcePos
      ensures old(sourcePos) + |chunk| == sourcePos && |chunk| <= n
      ensures |chunk| > 0 ==> sourcePos <= |source| && chunk == source[old(sourcePos)..sourcePos]
      ensures chunk == [] <==> old(sourcePos) >= |source|
      ensures old(script) == [] ==> script == []
    {
      if sourcePos >= |source| {
        return [];
      }
      var most := if n < |source| - sourcePos then n else |source| - sourcePos;
      var wish := Next();
      var k := if wish == 0 || wish > most then most else wish;
      chunk := source[sourcePos..sourcePos + k];
      sourcePos := sourcePos + k;
    }

    /** write: a nonempty prefix of the chunk, or nothing at all. */
    method Write(chunk: Bytes) returns (n: nat)
      requires chunk != [] && tempPos <= |temp|
      modifies this`script, this`temp, this`tempPos
      ensures n <= |chunk| && tempPos == old(tempPos) + n && tempPos <= |temp|
      ensures temp == Written(old(temp), old(tempPos), chunk[..n])
      ensures old(script) == [] ==> script == [] && n > 0
    {
      var wish := Next();
      n := if wish <= |chunk| then |chunk| - wish else |chunk|;
      WrittenNothing(temp, tempPos);
      temp := Written(temp, tempPos, chunk[..n]);
      tempPos := tempPos + n;
    }

    method Truncate(size: nat)
      modifies this`temp
      ensures temp == FirstBytes(old(temp), size)
    {
      temp := FirstBytes(temp, size);
    }

    /** lseek with SEEK_DATA: the first data byte at or after offset. */
    method SeekData(offset: nat) returns (s: Seek)
      requires Valid()
      modifies this`script
      ensures s.At? ==> offset <= s.offset < |source| && data[s.offset]
      ensures s.At? ==> forall i :: offset <= i < s.offset ==> source[i] == 0
      ensures s.NoMoreData? ==> forall i :: offset <= i < |source| ==> source[i] == 0
      ensures old(script) == [] ==> script == [] && !s.Failed?
      ensures old(script) != [] && old(script)[0] != 0 ==> s.Failed?
    {
      var mood := Next();
      if mood != 0 {
        return Failed(if mood == 1 then Unsupported else OtherError);
      }
      var i := offset;
      while i < |source|
        invariant i >= offset
        invariant forall j :: offset <= j < i && j < |source| ==> !data[j]
      {
        if data[i] {
          return At(i);
        }
        i := i + 1;
      }
      return NoMoreData;
    }

    /** lseek with SEEK_HOLE: the end of the data extent at offset. */
    method SeekHole(offset: nat) returns (s: Seek)
      requires Valid() && offset < |source| && data[offset]
      modifies this`script
      ensures s.At? ==> offset < s.offset <= |source|
      ensures !s.NoMoreData?
      ensures old(script) == [] ==> script == [] && s.At?
      ensures old(script) != [] && old(script)[0] != 0 ==> s.Failed?
    {
      var mood := Next();
      if mood != 0 {
        return Failed(if mood == 1 then Unsupported else OtherError);
      }
      var i := offset;
      while i < |source| && data[i]
        invariant offset <= i <= |source| && (i == offset ==> data[i])
      {
        i := i + 1;
      }
      return At(i);
    }

    /** Writing a whole chunk in as many calls as it takes. */
    method WriteAll(chunk: Bytes) returns (r: Result)
      requires tempPos <= |temp|
      modifies this`script, this`temp, this`tempPos
      ensures tempPos <= |temp|
      ensures r.Done? ==> temp == Written(old(temp), old(tempPos), chunk) && tempPos == old(tempPos) + |chunk|
      ensures r.Raised? ==> r.failure == Eio
      ensures old(script) == [] ==> script == [] && r.Done?
    {
      ghost var file, at := temp, tempPos;
      var view := chunk;
      ghost var done: nat := 0;
      WrittenNothing(temp, tempPos);
      while view != []
        invariant tempPos <= |temp| && done <= |chunk| && view == chunk[done..]
        invariant tempPos == at + done && temp == Written(file, at, chunk[..done])
        invariant old(script) == [] ==> script == []
        decreases |view|
      {
        var n := Write(view);
        if n == 0 {
          return Raised(Eio);
        }
        WrittenTwice(file, at, chunk[..done], view[..n]);
        assert chunk[..done] + view[..n] == chunk[..done + n];
        view := view[n..];
        done := done + n;
      }
      assert chunk[..done] == chunk;
      return Done;
    }

    /** _copy_extent: exactly length bytes, charged as they are read. */
    method CopyExtent(length: int) returns (r: Result)
      requires length > 0 ==> tempPos <= |temp|
      modifies this
      ensures length <= 0 ==> r.Done? && temp == old(temp) && charged == old(charged)
      ensures old(charged) <= charged <= old(charged) + (if length > 0 then length else 0)
      ensures r.Done? && length > 0 ==> old(sourcePos) + length <= |source|
      ensures r.Done? && length > 0 ==>
        temp == Written(old(temp), old(tempPos), Between(source, old(sourcePos), old(sourcePos) + length))
      ensures r.Raised? ==> r.failure == Eio || r.failure == OverBudget
      ensures old(charged) <= limit && r.Done? ==> charged <= limit
      ensures old(script) == [] && old(charged) + length <= limit && old(sourcePos) + length <= |source| ==>
                script == [] && r.Done?
    {
      hide Written;
      ghost var file, at, from := temp, tempPos, sourcePos;
      var remaining := length;
      if length > 0 {
        WrittenNothing(temp, tempPos);
        assert Between(source, from, from) == [];
      }
      while remaining > 0
        invariant length > 0 ==> 0 <= remaining <= length
        invariant length <= 0 ==> remaining == length && temp == file
        invariant length > 0 ==> tempPos <= |temp|
        invariant length > 0 ==> sourcePos == from + (length - remaining) && tempPos == at + (length - remaining)
        invariant 0 < length && remaining < length ==> sourcePos <= |source|
        invariant charged == old(charged) + (length - remaining)
        invariant length > 0 ==> temp == Written(file, at, Between(source, from, sourcePos))
        invariant old(charged) <= limit ==> charged <= limit
        invariant old(script) == [] ==> script == []
        decreases remaining
      {
        ghost var sofar := Between(source, from, sourcePos);
        var chunk := Read(if COPY_BUFFER_BYTES < remaining then COPY_BUFFER_BYTES else remaining);
        if chunk == [] {
          return Raised(Eio);
        }
        charged := charged + |chunk|;
        if charged > limit {
          return Raised(OverBudget);
        }
        WrittenTwice(file, at, sofar, chunk);
        var w := WriteAll(chunk);
        if w.Raised? {
          return w;
        }
        assert sofar + chunk == Between(source, from, sourcePos);
        remaining := remaining - |chunk|;
      }
      return Done;
    }

    /** One data extent at or after offset, copied into place. */
    method CopyNextExtent(size: nat, offset: nat) returns (r: Result, next: nat)
      requires Valid() && offset < size && CopiedTo(temp, source, size, offset)
      modifies this
      ensures r.Done? ==> offset < next <= size && CopiedTo(temp, source, size, next)
      ensures old(charged) <= charged <= old(charged) + (if r.Done? then next - offset else size - offset)
      ensures old(charged) <= limit && (r.Done? || r.failure == Unsupported) ==> charged <= limit
      ensures old(script) == [] && old(charged) + (size - offset) <= limit ==> script == [] && r.Done?
    {
      hide Written;
      next := offset;
      var d := SeekData(offset);
      if d.Failed? {
        return Raised(d.failure), next;
      }
      if d.NoMoreData? {
        return Done, size;
      }
      var h := SeekHole(d.offset);
      if h.Failed? {
        return Raised(h.failure), next;
      }
      var hole := if h.offset < size then h.offset else size;
      sourcePos, tempPos := d.offset, d.offset;
      ghost var file := temp;
      r := CopyExtent(hole - d.offset);
      if d.offset < hole && r.Done? {
        ExtentInPlace(file, temp, d.offset, hole, size);
      }
      next := hole;
    }

    /** The loop over data extents. The staging file starts out as size zero bytes. */
    method CopyExtents(size: nat) returns (r: Result)
      requires Valid() && temp == []
      modifies this
      ensures r.Done? ==> temp == FirstBytes(source, size)
      ensures old(charged) <= charged <= old(charged) + size
      ensures old(charged) <= limit && (r.Done? || r.failure == Unsupported) ==> charged <= limit
      ensures old(script) == [] && old(charged) + size <= limit ==> r.Done?
    {
      Truncate(size);
      var offset := 0;
      while offset < size
        invariant 0 <= offset <= size && CopiedTo(temp, source, size, offset)
        invariant old(charged) <= charged <= old(charged) + offset
        invariant old(charged) <= limit ==> charged <= limit
        invariant old(script) == [] && old(charged) + size <= limit ==> script == []
        decreases size - offset
      {
        r, offset := CopyNextExtent(size, offset);
        if r.Raised? {
          return;
        }
      }
      assert temp == FirstBytes(source, size);
      return Done;
    }

    lemma ExtentInPlace(file: Bytes, now: Bytes, from: nat, to: nat, size: nat)
      requires from < to <= size && to <= |source| && |file| == size
      requires now == Written(file, from, Between(source, from, to))
      ensures |now| == size
      ensures forall i :: 0 <= i < from ==> now[i] == file[i]
      ensures forall i :: from <= i < to ==> now[i] == source[i]
      ensures forall i :: to <= i < size ==> now[i] == file[i]
    {
    }

    /** _copy_file_sparse_aware. Success means the staging file holds the first size bytes of
        the source, whatever the layout, and however the calls were cut short, and it succeeds
        when no call fails and the budget allows the size. A file system without extents is
        never the reason of a failure. The extents charge at most size bytes; only a fallback
        may charge them again. */
    method CopySparseAware(size: nat) returns (r: Result, fellBack: bool)
      requires Valid() && temp == [] && sourcePos == 0 && tempPos == 0
      modifies this
      ensures r.Done? ==> temp == FirstBytes(source, size)
      ensures r.Done? || r.failure != Unsupported
      ensures fellBack && r.Done? ==> size <= |source|
      ensures charged <= old(charged) + (if fellBack then 2 * size else size)
      ensures old(charged) <= limit && r.Done? ==> charged <= limit
      ensures old(script) == [] && old(charged) + size <= limit ==> r.Done? && !fellBack
    {
      fellBack := false;
      r := CopyExtents(size);
      if r.Done? || r.failure != Unsupported {
        return;
      }
      fellBack := true;
      Truncate(0);
      sourcePos, tempPos := 0, 0;
      r := CopyExtent(size);
      if r.Done? {
        assert temp == FirstBytes(source, size);
      }
    }
  }
}
