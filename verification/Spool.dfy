/** The local spool a writable handle edits (internal/writeback/file.go). What the operating system does with a
    call is a parameter: how many bytes a write accepted, whether a sync, truncation or removal worked. */
module Spool {
  import opened Prelude

  datatype SpoolError =
    | Invalid | Closed | TooLarge | DiskFailed | Cancelled | SyncFailed | NeverFlushed | SizeChanged | LoadFailed
    | CommitFailed | Permission | Recovery(cause: SpoolError)

  function Zeros(n: nat): (r: seq<byte>)
    ensures |r| == n && forall i | 0 <= i < n :: r[i] == 0
  {
    seq(n, i => 0)
  }

  function Resized(content: seq<byte>, size: nat): (r: seq<byte>)
    ensures |r| == size && forall i | 0 <= i < size :: r[i] == if i < |content| then content[i] else 0
  {
    if size <= |content| then content[..size] else content + Zeros(size - |content|)
  }

  /** A positional write: a hole before it reads as zeros. */
  function Overwritten(content: seq<byte>, offset: nat, data: seq<byte>): seq<byte> {
    if data == [] then content
    else
      var padded := if |content| < offset + |data| then Resized(content, offset + |data|) else content;
      padded[..offset] + data + padded[offset + |data|..]
  }

  /** Byte by byte: what is read back after a write. */
  lemma OverwrittenAt(content: seq<byte>, offset: nat, data: seq<byte>, i: nat)
    requires data != [] && i < |Overwritten(content, offset, data)|
    ensures |Overwritten(content, offset, data)| == if |content| < offset + |data| then offset + |data| else |content|
    ensures Overwritten(content, offset, data)[i] ==
            if offset <= i < offset + |data| then data[i - offset] else if i < |content| then content[i] else 0
  {
  }

  /** Writing twice at the end appends twice. */
  lemma AppendsConcatenate(content: seq<byte>, a: seq<byte>, b: seq<byte>)
    ensures Overwritten(Overwritten(content, |content|, a), |content| + |a|, b) == content + a + b
  {
    AppendIsConcat(content, a);
    AppendIsConcat(content + a, b);
  }

  lemma AppendIsConcat(content: seq<byte>, a: seq<byte>)
    ensures Overwritten(content, |content|, a) == content + a
  {
  }

  // ----- loading ------------------------------------------------------------------------------

  /** boundedWriter: a loader can never write more than the spool may hold. */
  class BoundedWriter {
    var content: seq<byte>
    var remaining: int64
    const limit: int64

    ghost predicate Valid()
      reads this
    {
      remaining >= 0 && |content| + remaining as int == limit as int
    }

    constructor (limit: int64)
      requires limit >= 0
      ensures Valid() && content == [] && this.limit == limit
    {
      this.limit, remaining, content := limit, limit, [];
    }

    method Write(p: seq<byte>, accepted: nat) returns (n: nat, err: Option<SpoolError>)
      requires Valid() && accepted <= |p|
      modifies this
      ensures Valid() && n <= accepted && content == old(content) + p[..n]
      ensures err == Some(TooLarge) <==> |p| > old(remaining) as int
      ensures err == None <==> |p| <= old(remaining) as int && accepted == |p|
      ensures err == None ==> n == |p|
    {
      if |p| > remaining as int { return 0, Some(TooLarge); }
      n := accepted;
      content := content + p[..n];
      remaining := remaining - n as int64;
      err := if n == |p| then None else Some(DiskFailed);
    }
  }

  datatype Options = Options(directory: string, maxSize: int64, initialSize: int64, truncate: bool, append: bool)

  /** Whether the directory and the temporary file could be made, writes to it are complete, and its size can be
      read. */
  datatype Disk = Disk(made: bool, writes: bool, sized: bool)

  predicate ValidOptions(opts: Options) {
    opts.maxSize > 0 && 0 <= opts.initialSize <= opts.maxSize && opts.directory != ""
  }

  predicate Loads(opts: Options) { !opts.truncate && opts.initialSize > 0 }

  /** Open around any load: `loaded` is what the loader left in the bounded writer; `initial` what the remote holds. */
  method Open(opts: Options, disk: Disk, loaded: Result<seq<byte>, SpoolError>, ghost initial: seq<byte>)
      returns (r: Result<File, SpoolError>)
    requires loaded.Ok? ==> |loaded.value| <= if opts.maxSize > 0 then opts.maxSize as int else 0
    requires |initial| == if opts.initialSize < 0 then 0 else opts.initialSize as int
    ensures r.Ok? ==>
              && fresh(r.value) && r.value.Valid() && !r.value.closed && r.value.maxSize == opts.maxSize
              && r.value.append == opts.append && r.value.lastSave == None && r.value.calls == 0
              && (opts.truncate || opts.initialSize == 0 || loaded.Ok?)
              && r.value.content == (if opts.truncate || opts.initialSize == 0 then [] else loaded.value)
              && r.value.dirty == (opts.truncate && opts.initialSize != 0)
              && r.value.committed == if opts.truncate || opts.initialSize == 0 then initial else loaded.value
    ensures r.Err? <==>
              || !ValidOptions(opts) || !disk.made
              || (Loads(opts) && (loaded.Err? || !disk.sized || |loaded.value| != opts.initialSize as int))
    ensures !ValidOptions(opts) ==> r == Err(Invalid)
    ensures ValidOptions(opts) && disk.made && Loads(opts) && loaded.Ok? && disk.sized && r.Err? ==>
            r == Err(SizeChanged)
  {
    if opts.maxSize <= 0 || opts.initialSize < 0 || opts.initialSize > opts.maxSize { return Err(Invalid); }
    if opts.directory == "" { return Err(Invalid); }
    if !disk.made { return Err(DiskFailed); }
    var content: seq<byte> := [];
    ghost var committed := initial;
    var size := opts.initialSize;
    if opts.truncate {
      size := 0;
    } else if size > 0 {
      if loaded.Err? { return Err(LoadFailed); }
      if !disk.sized { return Err(DiskFailed); }
      if |loaded.value| != size as int { return Err(SizeChanged); }
      content, committed := loaded.value, loaded.value;
    }
    var file := new File(content, size, opts, committed);
    r := Ok(file);
  }

  /** What BeginFlush asks the caller to do. */
  datatype FlushStep = Finished(err: Option<SpoolError>) | Commit(data: seq<byte>, size: int64)

  class File {
    var content: seq<byte>
    var size: int64
    const maxSize: int64
    const append: bool
    var dirty: bool
    var closed: bool
    /** Whether the spool is still on disk. */
    var onDisk: bool
    var lastSave: Option<SpoolError>
    var closeErr: Option<SpoolError>
    /** How often the close callback ran. */
    var calls: nat
    /** The contents last committed, or found at open. */
    ghost var committed: seq<byte>

    /** The size tracks the file and stays within the limit; clean contents are committed contents; and only a
        clean, closed spool is ever gone. */
    ghost predicate Valid()
      reads this
    {
      && size as int == |content| && 0 <= size <= maxSize
      && (!dirty ==> content == committed)
      && (!onDisk ==> closed && !dirty)
      && (calls == if closed then 1 else 0)
      && (closed && dirty ==> closeErr.Some? && closeErr.value.Recovery?)
    }

    constructor (content: seq<byte>, size: int64, opts: Options, ghost committed: seq<byte>)
      requires size as int == |content| && 0 <= size <= opts.maxSize
      requires (opts.truncate && opts.initialSize != 0) || content == committed
      ensures Valid() && !closed && onDisk && lastSave == None && calls == 0
      ensures this.content == content && this.committed == committed && maxSize == opts.maxSize && append == opts.append
      ensures dirty == (opts.truncate && opts.initialSize != 0)
    {
      this.content, this.size, this.maxSize, this.append := content, size, opts.maxSize, opts.append;
      this.dirty := opts.truncate && opts.initialSize != 0;
      this.closed, this.onDisk, this.lastSave, this.closeErr, this.calls := false, true, None, None, 0;
      this.committed := committed;
    }

    /** At the end of an append handle whatever the offset; nowhere past the limit; and only what was accepted. */
    method WriteAt(p: seq<byte>, offset: int64, accepted: nat) returns (n: nat, err: Option<SpoolError>)
      requires Valid() && accepted <= |p|
      modifies `content, `size, `dirty
      ensures Valid() && n <= |p| && dirty == (old(dirty) || n > 0)
      ensures var at := if append then old(size) else offset;
              if old(closed) || offset < 0 || (p != [] && at as int + |p| > maxSize as int)
              then err.Some? && n == 0 && content == old(content)
              else
                n == accepted && (err == None <==> n == |p|)
                && content == Overwritten(old(content), at as nat, p[..n])
    {
      if closed { return 0, Some(Closed); }
      if offset < 0 { return 0, Some(Invalid); }
      var at := if append then size else offset;
      if |p| == 0 { return 0, None; }
      if at > maxSize || |p| > (maxSize - at) as int { return 0, Some(TooLarge); }
      n := accepted;
      var data := p[..n];
      content := Overwritten(content, at as nat, data);
      if n > 0 {
        dirty := true;
        var end := at + n as int64;
        size := if size > end then size else end;
      }
      err := if n == |p| then None else Some(DiskFailed);
    }

    method Truncate(newSize: int64, works: bool) returns (err: Option<SpoolError>)
      requires Valid()
      modifies `content, `size, `dirty
      ensures Valid()
      ensures err == None <==> !old(closed) && 0 <= newSize <= maxSize && (works || newSize == old(size))
      ensures err == None ==>
              content == Resized(old(content), newSize as nat)
              && dirty == (old(dirty) || newSize != old(size))
      ensures err.Some? ==> content == old(content) && dirty == old(dirty)
    {
      if closed { return Some(Closed); }
      if newSize < 0 { return Some(Invalid); }
      if newSize > maxSize { return Some(TooLarge); }
      if size == newSize { return None; }
      if !works { return Some(DiskFailed); }
      content := Resized(content, newSize as nat);
      size := newSize;
      dirty := true;
      err := None;
    }

    /** Flush up to its commit: a clean file needs none, and a failed sync forbids it. */
    method BeginFlush(cancelled: bool, synced: bool) returns (step: FlushStep)
      requires Valid()
      modifies `lastSave
      ensures Valid()
      ensures step == if closed then Finished(Some(Closed)) else if !dirty then Finished(None)
                      else if cancelled then Finished(Some(Cancelled)) else if !synced then Finished(Some(SyncFailed))
                      else Commit(content, size)
      ensures lastSave == if !closed && dirty && step.Finished? then step.err else old(lastSave)
    {
      if closed { return Finished(Some(Closed)); }
      if !dirty { return Finished(None); }
      if cancelled {
        lastSave := Some(Cancelled);
        return Finished(lastSave);
      }
      if !synced {
        lastSave := Some(SyncFailed);
        return Finished(lastSave);
      }
      step := Commit(content, size);
    }

    /** Flush after its commit: clean only when the commit succeeded. */
    method EndFlush(saved: bool) returns (err: Option<SpoolError>)
      requires Valid() && !closed && dirty
      modifies `lastSave, `dirty, `committed
      ensures Valid() && dirty == !saved && (err == None <==> saved) && lastSave == err
      ensures committed == if saved then content else old(committed)
    {
      if !saved {
        lastSave := Some(CommitFailed);
        return lastSave;
      }
      dirty, lastSave := false, None;
      committed := content;
      err := None;
    }

    /** Close, once: a clean spool is removed, a dirty one is kept with its final bytes and reported. */
    method Close(removed: bool) returns (err: Option<SpoolError>)
      requires Valid()
      modifies `closed, `onDisk, `closeErr, `calls
      ensures Valid() && closed && calls == 1 && err == closeErr
      ensures old(closed) ==> closeErr == old(closeErr) && onDisk == old(onDisk)
      ensures dirty && !old(closed) ==>
              onDisk && err == Some(Recovery(if lastSave.Some? then lastSave.value else NeverFlushed))
      ensures !dirty && !old(closed) ==> (onDisk <==> !removed) && (err == None <==> removed)
    {
      if closed { return closeErr; }
      closed := true;
      if dirty {
        closeErr := Some(Recovery(if lastSave.Some? then lastSave.value else NeverFlushed));
      } else {
        closeErr := if removed then None else Some(DiskFailed);
        onDisk := !removed;
      }
      calls := calls + 1;
      err := closeErr;
    }
  }
}
