/** A writable handle on a Lakehouse file: a spool whose commits carry the entity tag the handle last saw
    (internal/workspacefs/handles.go). */
module LakeHandle {
  import opened Prelude
  import opened OneLake
  import opened StagedUpload
  import Spool

  datatype OpenError = NoAnswer | Missing | Exists | Directory | TooBig | BadSpool | CreateFailed

  datatype Flags = Flags(write: bool, truncate: bool, append: bool, create: bool, exclusive: bool)

  /** Where spools go, and what the disk does there. */
  datatype Spooling = Spooling(directory: string, disk: Spool.Disk)

  const BUFFER: nat := 0x100000

  /** The version a handle's last effective commit left, or the one it opened. */
  ghost function Tip(moves: seq<Effect>, origin: nat): nat {
    if moves == [] then origin else if moves[|moves| - 1].Renamed? then moves[|moves| - 1].etag else 0
  }

  /** Every commit that took effect replaced exactly what this handle had opened or last committed. */
  ghost predicate Chained(moves: seq<Effect>, origin: nat) {
    moves == [] ||
    (var front, last := moves[..|moves| - 1], moves[|moves| - 1];
     && last.Renamed? && last.replaced.Some? && last.replaced.value.etag == Tip(front, origin)
     && Chained(front, origin))
  }

  lemma ChainGrows(moves: seq<Effect>, origin: nat, e: Effect)
    requires Chained(moves, origin) && e.Renamed? && e.replaced.Some? && e.replaced.value.etag == Tip(moves, origin)
    ensures Chained(moves + [e], origin) && Tip(moves + [e], origin) == e.etag
  {
    assert (moves + [e])[..|moves|] == moves;
  }

  ghost predicate AllRecorded(moves: seq<Effect>, versions: map<nat, Version>) {
    forall e | e in moves :: e.Renamed? && Recorded(e, versions)
  }

  lemma AllRecordedGrows(moves: seq<Effect>, a: map<nat, Version>, b: map<nat, Version>)
    requires AllRecorded(moves, a) && Grows(a, b)
    ensures AllRecorded(moves, b)
  {
    forall e | e in moves ensures e.Renamed? && Recorded(e, b) { RecordedGrows(e, a, b); }
  }

  /** No lost update: each commit overwrote exactly the bytes this handle had read, or had itself written last. */
  lemma {:induction false} NothingIsOverwrittenUnseen(moves: seq<Effect>, origin: nat, versions: map<nat, Version>,
                                                      k: nat)
    requires Chained(moves, origin) && AllRecorded(moves, versions) && origin in versions && k < |moves|
    ensures moves[k].Renamed? && moves[k].replaced.Some?
    ensures k == 0 ==> moves[k].replaced.value.bytes == versions[origin].bytes
    ensures k > 0 ==> moves[k - 1].Renamed? && moves[k].replaced.value.bytes == moves[k - 1].bytes
    decreases |moves|
  {
    var front := moves[..|moves| - 1];
    if k < |front| {
      assert forall e | e in front :: e in moves;
      NothingIsOverwrittenUnseen(front, origin, versions, k);
    } else {
      assert moves[k] in moves;
      if k > 0 { assert moves[k - 1] in moves && front[k - 1] == moves[k - 1]; }
    }
  }

  // ----- the service log ----------------------------------------------------------------------

  /** The effect is on this path. */
  ghost predicate Touches(e: Effect, path: string) {
    if e.Renamed? then e.from == path || e.to == path else e.path == path
  }

  /** This client's effects on one path, in order. */
  ghost function Touching(log: seq<Effect>, path: string): seq<Effect> {
    if log == [] then [] else (if Touches(log[0], path) then [log[0]] else []) + Touching(log[1..], path)
  }

  lemma {:induction false} TouchingConcat(a: seq<Effect>, b: seq<Effect>, path: string)
    ensures Touching(a + b, path) == Touching(a, path) + Touching(b, path)
  {
    hide Touches;
    if a == [] {
      assert a + b == b;
    } else {
      TouchingConcat(a[1..], b, path);
      assert (a + b)[1..] == a[1..] + b;
    }
  }

  lemma {:induction false} StageTouchesNothingElse(effects: seq<Effect>, stage: string, mine: set<nat>, path: string)
    requires StageOnly(effects, stage, mine) && stage != path
    ensures Touching(effects, path) == []
  {
    if effects != [] {
      assert OnStage(effects[0], stage, mine);
      StageTouchesNothingElse(effects[1..], stage, mine, path);
    }
  }

  /** On its target an upload has its one commit for effect, or none. */
  lemma UploadTouchesOnce(effects: seq<Effect>, move: Option<Effect>, stage: string, path: string,
                          expected: Option<nat>, data: seq<byte>, mine: set<nat>)
    requires AllOrNothing(effects, move, stage, path, expected, data, mine) && stage != path
    ensures Touching(effects, path) == if move.Some? then [move.value] else []
  {
    if move.None? {
      StageTouchesNothingElse(effects, stage, mine, path);
    } else {
      var k :| 0 <= k < |effects| && effects[k] == move.value
               && StageOnly(effects[..k], stage, mine) && StageOnly(effects[k + 1..], stage, mine);
      OneTouch(effects, k, stage, mine, path);
    }
  }

  lemma OneTouch(effects: seq<Effect>, k: nat, stage: string, mine: set<nat>, path: string)
    requires k < |effects| && stage != path && Touches(effects[k], path)
    requires StageOnly(effects[..k], stage, mine) && StageOnly(effects[k + 1..], stage, mine)
    ensures Touching(effects, path) == [effects[k]]
  {
    var a, b := effects[..k], effects[k + 1..];
    StageTouchesNothingElse(a, stage, mine, path);
    StageTouchesNothingElse(b, stage, mine, path);
    assert Touching([effects[k]], path) == [effects[k]];
    hide StageOnly, Touches, Touching;
    assert effects == a + [effects[k]] + b;
    TouchingConcat(a, [effects[k]], path);
    TouchingConcat(a + [effects[k]], b, path);
  }

  /** What a longer log adds to the effects on a path since `start`. */
  lemma TouchingSince(was: seq<Effect>, now: seq<Effect>, start: nat, path: string)
    requires start <= |was| && was <= now
    ensures Touching(now[start..], path) == Touching(was[start..], path) + Touching(now[|was|..], path)
  {
    hide Touching;
    assert now[start..] == was[start..] + now[|was|..];
    TouchingConcat(was[start..], now[|was|..], path);
  }

  // ----- opening ------------------------------------------------------------------------------

  /** What is at the path is this version. */
  predicate Shows(objects: map<string, Object>, path: string, etag: nat) {
    path in objects && objects[path].etag == etag
  }

  /** Copies the given version, chunk by chunk, into a writer that holds at most `dest.limit` bytes. */
  method Download(client: Client, path: string, dest: Spool.BoundedWriter, size: nat, etag: nat, writes: bool)
      returns (ok: bool)
    requires client.server.Valid() && dest.Valid() && dest.content == []
    requires etag in client.server.versions && size == |client.server.versions[etag].bytes|
    modifies client.server, dest
    ensures client.server.Valid() && dest.Valid() && Grows(old(client.server.versions), client.server.versions)
    ensures client.server.nextTag >= old(client.server.nextTag) && client.server.log == old(client.server.log)
    ensures client.server.mine == old(client.server.mine)
    ensures client.server.calm ==> client.server.objects == old(client.server.objects)
    ensures ok ==> dest.content == old(client.server.versions)[etag].bytes
    ensures client.server.calm && writes && size <= dest.limit as int
            && Shows(old(client.server.objects), path, etag) ==>
              ok
  {
    var server := client.server;
    ghost var bytes := server.versions[etag].bytes;
    var offset := 0;
    AtTheStart(server.objects, server.versions, server.log, server.nextTag, "", {});
    hide *;
    assert bytes[..0] == [];
    while offset < size
      invariant server.Valid() && dest.Valid() && offset <= size == |bytes| && dest.content == bytes[..offset]
      invariant Grows(old(client.server.versions), server.versions) && server.nextTag >= old(client.server.nextTag)
      invariant server.log == old(client.server.log) && server.mine == old(client.server.mine)
      invariant server.calm ==> server.objects == old(client.server.objects)
      invariant dest.limit as int == |dest.content| + dest.remaining as int
      decreases size - offset
    {
      var length := if size - offset < BUFFER then size - offset else BUFFER;
      var piece := ReadPiece(client, path, offset, length, etag, bytes);
      if piece.None? { return false; }
      var n := |piece.value.data|;
      if piece.value.eof && offset + n != size { return false; }
      if n == 0 { return false; }
      var accepted: int := *;
      var written, err := dest.Write(piece.value.data, if 0 <= accepted <= n && !writes then accepted else n);
      if err.Some? { return false; }
      Joined(bytes, offset, n);
      offset := offset + n;
    }
    assert bytes[..size] == bytes;
    ok := true;
  }

  lemma Joined(bytes: seq<byte>, offset: nat, n: nat)
    requires offset + n <= |bytes|
    ensures bytes[..offset] + bytes[offset..offset + n] == bytes[..offset + n]
  {
  }

  /** One ranged read of the version `etag`, whose contents are `bytes`. */
  method ReadPiece(client: Client, path: string, offset: nat, length: nat, etag: nat, ghost bytes: seq<byte>)
      returns (piece: Option<Piece>)
    requires client.server.Valid() && etag in client.server.versions && client.server.versions[etag].bytes == bytes
    modifies client.server
    ensures client.server.Valid() && Grows(old(client.server.versions), client.server.versions)
    ensures client.server.nextTag >= old(client.server.nextTag) && client.server.log == old(client.server.log)
    ensures client.server.mine == old(client.server.mine)
    ensures client.server.calm ==> client.server.objects == old(client.server.objects)
    ensures piece.Some? ==>
              var n := |piece.value.data|;
              && n <= length && offset + n <= |bytes| && piece.value.data == bytes[offset..offset + n]
              && (piece.value.eof <==> offset + n == |bytes|)
    ensures client.server.calm && Shows(old(client.server.objects), path, etag) && offset < |bytes| && length > 0 ==>
              piece.Some? && |piece.value.data| > 0
  {
    assert path in client.server.objects ==>
        Stands(client.server.versions, client.server.objects[path].etag, client.server.objects[path]);
    hide Server.Valid, Admissible;
    var reply := client.server.Read(IDLE, path, offset, length, etag);
    piece := if reply.Done? then Some(reply.value) else None;
  }

  lemma Unchanged(a: map<nat, Version>, b: map<nat, Version>, t: nat)
    requires Grows(a, b) && t in a
    ensures t in b && b[t] == a[t]
  {
  }

  /** One past the last slash. */
  function DirLen(path: string): (n: nat)
    ensures n <= |path|
  {
    if path == "" then 0 else if path[|path| - 1] == '/' then |path| else DirLen(path[..|path| - 1])
  }

  function StagePath(path: string, entropy: string): string {
    path[..DirLen(path)] + ".fabric-fs-upload-" + entropy
  }

  /** What the random source gave: the name of a stage, and the marker made from it. */
  datatype Draw = Draw(entropy: string, marker: string)

  function UploadOf(path: string, d: Draw): Upload { Upload(StagePath(path, d.entropy), d.marker) }

  /** A draw that somebody already carries counts as a failed one. */
  predicate Usable(objects: map<string, Object>, path: string, d: Draw) {
    var u := UploadOf(path, d);
    u.stage != path && CleanMarker(u.marker) && (u.stage in objects ==> !Owns(objects[u.stage].properties, u.marker))
  }

  class Handle {
    const client: Client
    const path: string
    const file: Spool.File
    const writable: bool
    var etag: nat
    /** The version opened, the length of the service log then, and the effects on the path since. */
    ghost const origin: nat
    ghost const start: nat
    ghost var moves: seq<Effect>
    /** A commit took effect without being acknowledged. */
    ghost var stuck: bool

    /** `moves` are all this client's effects on the path since it was opened, and they form a chain; the tag held
        is the version this handle last saw, clean contents are that version's bytes, and a handle whose last
        commit went unacknowledged holds a tag that can never match again. */
    ghost predicate Valid()
      reads this, file, client.server
    {
      && client.chunkSize > 0 && client.server.Valid() && file.Valid()
      && origin in client.server.versions && etag in client.server.versions
      && Logged() && Chained(moves, origin) && AllRecorded(moves, client.server.versions)
      && (!stuck ==> etag == Tip(moves, origin) && file.committed == client.server.versions[etag].bytes)
      && (stuck ==> file.dirty && !MayReplace(client.server.objects, path, Some(etag)))
    }

    ghost predicate Logged()
      reads this, client.server
    {
      start <= |client.server.log| && Touching(client.server.log[start..], path) == moves
    }

    constructor (client: Client, path: string, file: Spool.File, writable: bool, etag: nat)
      requires client.chunkSize > 0 && client.server.Valid() && file.Valid() && etag in client.server.versions
      requires file.committed == client.server.versions[etag].bytes
      ensures Valid() && this.client == client && this.path == path && this.file == file && this.etag == etag == origin
      ensures moves == [] && !stuck && this.writable == writable && start == |client.server.log|
    {
      this.client, this.path, this.file, this.writable := client, path, file, writable;
      this.etag, this.origin := etag, etag;
      this.moves, this.stuck, this.start := [], false, |client.server.log|;
    }

    /** Nothing stands in the way of a commit: nobody else acts, the draw is fresh, and the file is still the
        version held. */
    ghost predicate Unhindered(draw: Option<Draw>)
      reads this, client.server
    {
      && client.server.calm && client.maxPages > 0 && draw.Some? && Usable(client.server.objects, path, draw.value)
      && UploadOf(path, draw.value).stage !in client.server.objects
      && Replaceable(client.server.objects, path, Some(etag))
    }

    /** Nobody else acts, and a stage of the drawn name would be new. */
    ghost predicate Quiet(draw: Option<Draw>)
      reads this, client.server
    {
      && client.server.calm && client.maxPages > 0
      && (draw.Some? ==> UploadOf(path, draw.value).stage !in client.server.objects)
    }

    /** The upload of a commit. Its effects on the service are one all-or-nothing upload under the tag held, or
        none when no stage name could be drawn. */
    method TryUpload(data: seq<byte>, draw: Option<Draw>)
        returns (r: Option<Result<Info, PutError>>, ghost move: Option<Effect>)
      requires client.chunkSize > 0 && client.server.Valid() && etag in client.server.versions
      modifies client.server
      ensures client.server.Valid() && Grows(old(client.server.versions), client.server.versions)
      ensures old(client.server.log) <= client.server.log
      ensures draw.Some? ==>
                AllOrNothing(client.server.log[|old(client.server.log)|..], move, UploadOf(path, draw.value).stage,
                             path, Some(etag), data, client.server.mine)
      ensures draw.None? ==> r.None?
      ensures r.None? ==> client.server.log == old(client.server.log) && move.None?
      ensures Touching(client.server.log[|old(client.server.log)|..], path) == if move.Some? then [move.value] else []
      ensures move.Some? ==>
                && IsCommit(move.value, etag, data) && Recorded(move.value, client.server.versions)
                && !MayReplace(client.server.objects, path, Some(etag))
                && old(MayReplace(client.server.objects, path, Some(etag)))
      ensures !old(MayReplace(client.server.objects, path, Some(etag))) ==>
              !MayReplace(client.server.objects, path, Some(etag))
      ensures r.Some? && r.value.Ok? ==> move.Some? && r.value.value.etag == move.value.etag
      ensures old(Unhindered(draw)) ==> r.Some? && r.value.Ok?
      ensures old(Quiet(draw)) ==>
                client.server.objects ==
                  if r.Some? && r.value.Ok?
                  then old(client.server.objects)[path := Object(data, [], r.value.value.etag, "", false)]
                  else old(client.server.objects)
    {
      var server := client.server;
      AtTheStart(server.objects, server.versions, server.log, server.nextTag, "", {});
      TagsAreOld(server, etag);
      NothingUploaded(server.log[|server.log|..], path, etag, data, server.mine);
      hide Server.Valid, Grows, AllOrNothing, Recorded, CleanMarker, StagePath, Touching, Replaceable;
      if draw.None? || !Usable(server.objects, path, draw.value) {
        return None, None;
      }
      var u := UploadOf(path, draw.value);
      ghost var objects, minted := server.objects, server.nextTag;
      var put;
      put, move := client.Put(u, path, data, |data|, Some(etag));
      assert data[..|data|] == data && Take(data, |data|) == data;
      StillGone(objects, server.objects, path, minted, etag);
      UploadTouchesOnce(server.log[|old(server.log)|..], move, u.stage, path, Some(etag), data, server.mine);
      if move.Some? {
        CommitsBy(server.log[|old(server.log)|..], move, u.stage, path, etag, data, server.mine);
      }
      // The closure checks the returned properties again; Put has already made sure of them.
      assert put.Ok? ==> put.value.size == |data| && !put.value.isDir;
      r := Some(put);
    }

    ghost predicate IsCommit(e: Effect, expected: nat, data: seq<byte>) {
      e.Renamed? && e.to == path && e.bytes == data && e.replaced.Some? && e.replaced.value.etag == expected
    }

    lemma NothingUploaded(effects: seq<Effect>, path: string, t: nat, data: seq<byte>, mine: set<nat>)
      requires effects == []
      ensures Touching(effects, path) == []
      ensures forall stage :: AllOrNothing(effects, None, stage, path, Some(t), data, mine)
    {
    }

    /** The commit closure: upload under the tag held, and hold the new tag only once it is known. */
    method Commit(data: seq<byte>, size: int64, draw: Option<Draw>) returns (saved: bool, ghost move: Option<Effect>)
      requires Valid() && file.dirty && !file.closed && data == file.content && size as int == |data|
      modifies client.server, `etag, `moves, `stuck
      ensures client.server.Valid() && Grows(old(client.server.versions), client.server.versions)
      ensures etag in client.server.versions && AllRecorded(moves, client.server.versions) && Chained(moves, origin)
              && Logged()
      ensures old(client.server.log) <= client.server.log
              && (draw.None? ==> client.server.log == old(client.server.log))
      ensures draw.Some? ==>
                AllOrNothing(client.server.log[|old(client.server.log)|..], move, UploadOf(path, draw.value).stage,
                             path, Some(old(etag)), data, client.server.mine)
      ensures moves == old(moves) + if move.Some? then [move.value] else []
      ensures move.Some? ==> IsCommit(move.value, old(etag), data)
      ensures saved ==> move.Some? && etag == Tip(moves, origin) && client.server.versions[etag].bytes == data && !stuck
      ensures !saved ==> etag == old(etag) && stuck == (old(stuck) || move.Some?)
      ensures stuck ==> !MayReplace(client.server.objects, path, Some(etag))
      ensures old(stuck) ==> !saved && move.None?
      ensures old(Unhindered(draw)) ==> saved
      ensures old(Quiet(draw)) ==>
                client.server.objects ==
                  if saved then old(client.server.objects)[path := Object(data, [], etag, "", false)]
                  else old(client.server.objects)
    {
      hide Server.Valid, Grows, AllOrNothing, Recorded, Chained, AllRecorded, Tip, Touching, Unhindered, Quiet,
           UploadOf, MayReplace;
      ghost var versions, log := client.server.versions, client.server.log;
      var r;
      r, move := TryUpload(data, draw);
      Unchanged(versions, client.server.versions, etag);
      AllRecordedGrows(moves, versions, client.server.versions);
      TouchingSince(log, client.server.log, start, path);
      if move.Some? {
        NewlyRecorded(moves, move.value, client.server.versions);
        ChainGrows(moves, origin, move.value);
        RecordedBytes(move.value, client.server.versions);
        moves := moves + [move.value];
      }
      saved := r.Some? && r.value.Ok?;
      if saved {
        etag := r.value.value.etag;
      } else {
        stuck := stuck || move.Some?;
      }
    }

    lemma TagsAreOld(server: Server, t: nat)
      requires server.Valid() && t in server.versions
      ensures t < server.nextTag
    {
    }

    lemma StillGone(was: map<string, Object>, now: map<string, Object>, p: string, minted: nat, t: nat)
      requires t < minted
      ensures OldOrNew(was, now, p, minted) && !MayReplace(was, p, Some(t)) ==> !MayReplace(now, p, Some(t))
      ensures (p in now ==> now[p].etag >= minted) ==> !MayReplace(now, p, Some(t))
    {
    }

    lemma CommitsBy(effects: seq<Effect>, move: Option<Effect>, stage: string, target: string, t: nat, data: seq<byte>,
                    mine: set<nat>)
      requires move.Some? && AllOrNothing(effects, move, stage, target, Some(t), data, mine)
      ensures var e := move.value;
              && e.Renamed? && e.to == target && e.bytes == data && e.replaced.Some? && e.replaced.value.etag == t
    {
    }

    lemma NewlyRecorded(moves: seq<Effect>, e: Effect, versions: map<nat, Version>)
      requires AllRecorded(moves, versions) && e.Renamed? && Recorded(e, versions)
      ensures AllRecorded(moves + [e], versions)
    {
    }

    lemma RecordedBytes(e: Effect, versions: map<nat, Version>)
      requires e.Renamed? && Recorded(e, versions)
      ensures e.etag in versions && versions[e.etag].bytes == e.bytes
    {
    }

    method WriteAt(p: seq<byte>, offset: int64, accepted: nat) returns (n: nat, err: Option<Spool.SpoolError>)
      requires Valid() && accepted <= |p|
      modifies file
      ensures Valid() && file.closed == old(file.closed) && file.dirty == (old(file.dirty) || n > 0)
      ensures var at := if file.append then old(file.size) else offset;
              if !writable || file.closed || offset < 0 || (p != [] && at as int + |p| > file.maxSize as int)
              then err.Some? && n == 0 && file.content == old(file.content)
              else n == accepted && (err == None <==> n == |p|)
                   && file.content == Spool.Overwritten(old(file.content), at as nat, p[..n])
    {
      hide Chained, AllRecorded, Server.Valid, MayReplace, Tip, Touching;
      if !writable { return 0, Some(Spool.Permission); }
      n, err := file.WriteAt(p, offset, accepted);
    }

    method Truncate(size: int64, works: bool) returns (err: Option<Spool.SpoolError>)
      requires Valid()
      modifies file
      ensures Valid() && file.closed == old(file.closed)
      ensures err == None ==>
                && writable && 0 <= size && file.content == Spool.Resized(old(file.content), size as nat)
                && file.dirty == (old(file.dirty) || size != old(file.size))
      ensures err.Some? ==> file.content == old(file.content) && file.dirty == old(file.dirty)
    {
      hide Chained, AllRecorded, Server.Valid, MayReplace, Tip, Touching;
      if !writable { return Some(Spool.Permission); }
      err := file.Truncate(size, works);
    }

    /** A flush either makes the handle's contents the remote file, replacing exactly the version the handle
        held, or fails and leaves the handle dirty with its tag; and it does nothing else to the service. */
    method Flush(cancelled: bool, synced: bool, draw: Option<Draw>)
        returns (err: Option<Spool.SpoolError>, ghost move: Option<Effect>)
      requires Valid()
      modifies this, file, client.server
      ensures Valid() && file.content == old(file.content) && file.closed == old(file.closed)
      ensures old(client.server.log) <= client.server.log
      ensures file.closed || !old(file.dirty) || cancelled || !synced || draw.None? ==>
              client.server.log == old(client.server.log)
      ensures draw.Some? ==>
                AllOrNothing(client.server.log[|old(client.server.log)|..], move, UploadOf(path, draw.value).stage,
                             path, Some(old(etag)), file.content, client.server.mine)
      ensures moves == old(moves) + if move.Some? then [move.value] else []
      ensures move.Some? ==> old(file.dirty) && IsCommit(move.value, old(etag), file.content)
      ensures err == None && old(file.dirty) ==> move.Some? && etag == move.value.etag && !file.dirty
      ensures err == None ==> !file.dirty && !stuck && client.server.versions[etag].bytes == file.content
      ensures err.Some? ==> file.dirty == old(file.dirty) && etag == old(etag)
      ensures old(stuck) ==> err.Some? && move.None? && stuck
      ensures old(Unhindered(draw)) && !file.closed && !cancelled && synced ==> err == None
      ensures old(Quiet(draw)) ==>
                client.server.objects ==
                  if old(file.dirty) && err == None
                  then old(client.server.objects)[path := Object(file.content, [], etag, "", false)]
                  else old(client.server.objects)
    {
      NothingUploaded(client.server.log[|client.server.log|..], path, etag, file.content, client.server.mine);
      hide Chained, AllRecorded, Server.Valid, Grows, Unhindered, Quiet, Touching, AllOrNothing, UploadOf, MayReplace;
      move := None;
      var step := file.BeginFlush(cancelled, synced);
      if step.Finished? { return step.err, None; }
      ghost var versions, held := client.server.versions, etag;
      var saved;
      saved, move := Commit(step.data, step.size, draw);
      Unchanged(versions, client.server.versions, held);
      Unchanged(versions, client.server.versions, origin);
      err := file.EndFlush(saved);
    }

    method Close(removed: bool) returns (err: Option<Spool.SpoolError>)
      requires Valid()
      modifies file
      ensures Valid() && file.closed && file.content == old(file.content) && file.dirty == old(file.dirty)
      ensures file.dirty && !old(file.closed) ==> file.onDisk && err.Some? && err.value.Recovery?
    {
      hide Chained, AllRecorded, Server.Valid, MayReplace, Tip, Touching;
      err := file.Close(removed);
    }
  }

  datatype Op =
    | Write(p: seq<byte>, offset: int64, accepted: nat)
    | Resize(size: int64, works: bool)
    | Save(cancelled: bool, synced: bool, draw: Option<Draw>)
    | Finish(removed: bool)

  /** Each of these effects is a commit over exactly the bytes of the version opened, or of the commit before. */
  ghost predicate OverwritesOnlySeen(moves: seq<Effect>, origin: nat, versions: map<nat, Version>) {
    forall k | 0 <= k < |moves| ::
      && moves[k].Renamed? && moves[k].replaced.Some?
      && (k == 0 ==> origin in versions && moves[k].replaced.value.bytes == versions[origin].bytes)
      && (k > 0 ==> moves[k - 1].Renamed? && moves[k].replaced.value.bytes == moves[k - 1].bytes)
  }

  /** Over any sequence of writes, resizes, flushes with ambiguous failures, and closes, with other clients active
      throughout, no update is lost: of all this client has done to the path since the handle was opened, by the
      service's own log, every effect overwrote exactly what the handle had read or had itself written last. The
      effects of the session are the moves it recorded, and what is neither dirty nor ambiguous is the remote
      version the handle holds. */
  method Session(h: Handle, ops: seq<Op>)
    requires h.Valid() && forall i | 0 <= i < |ops| && ops[i].Write? :: ops[i].accepted <= |ops[i].p|
    modifies h, h.file, h.client.server
    ensures h.Valid() && old(h.client.server.log) <= h.client.server.log && old(h.moves) <= h.moves
    ensures Touching(h.client.server.log[|old(h.client.server.log)|..], h.path) == h.moves[|old(h.moves)|..]
    ensures h.start <= |h.client.server.log|
            && OverwritesOnlySeen(Touching(h.client.server.log[h.start..], h.path), h.origin, h.client.server.versions)
    ensures !h.file.dirty ==> h.file.content == h.client.server.versions[h.etag].bytes
  {
    SessionStarts(h);
    hide Handle.Valid, Spool.File.Valid, Touching, AllOrNothing, Handle.Unhindered, Handle.Quiet, UploadOf;
    for i := 0 to |ops|
      invariant h.Valid() && old(h.client.server.log) <= h.client.server.log && old(h.moves) <= h.moves
    {
      match ops[i]
      case Write(p, offset, accepted) => var n, err := h.WriteAt(p, offset, accepted);
      case Resize(size, works) => var err := h.Truncate(size, works);
      case Save(cancelled, synced, draw) => var err, move := h.Flush(cancelled, synced, draw);
      case Finish(removed) => var err := h.Close(removed);
    }
    HandleLosesNothing(h);
    SessionEnds(h, old(h.client.server.log), old(h.moves));
  }

  lemma SessionStarts(h: Handle)
    requires h.Valid()
    ensures h.start <= |h.client.server.log| && Touching(h.client.server.log[h.start..], h.path) == h.moves
  {
  }

  /** The log's new effects on the path are the newly recorded moves. */
  lemma SessionEnds(h: Handle, log: seq<Effect>, moves: seq<Effect>)
    requires h.Valid() && log <= h.client.server.log && moves <= h.moves
    requires h.start <= |log| && Touching(log[h.start..], h.path) == moves
    ensures Touching(h.client.server.log[|log|..], h.path) == h.moves[|moves|..]
  {
    TouchingSince(log, h.client.server.log, h.start, h.path);
  }

  lemma HandleLosesNothing(h: Handle)
    requires h.Valid()
    ensures h.start <= |h.client.server.log|
            && OverwritesOnlySeen(Touching(h.client.server.log[h.start..], h.path), h.origin, h.client.server.versions)
    ensures !h.file.dirty ==>
            h.etag in h.client.server.versions
            && h.file.content == h.client.server.versions[h.etag].bytes
  {
    hide Touching, AllRecorded, Chained, Tip;
    forall k | 0 <= k < |h.moves|
      ensures h.moves[k].Renamed? && h.moves[k].replaced.Some?
      ensures k == 0 ==> h.moves[k].replaced.value.bytes == h.client.server.versions[h.origin].bytes
      ensures k > 0 ==> h.moves[k - 1].Renamed? && h.moves[k].replaced.value.bytes == h.moves[k - 1].bytes
    {
      NothingIsOverwrittenUnseen(h.moves, h.origin, h.client.server.versions, k);
    }
  }

  /** What an opened handle starts as: it may write, append and grow as asked, and it holds the version's bytes, or
      none of them when truncating, which is then still to be saved. */
  ghost predicate Starts(h: Handle, client: Client, path: string, flags: Flags, maxSize: int64)
    reads h, h.file, client.server
  {
    && h.client == client && h.Valid() && h.path == path && h.moves == [] && !h.stuck && !h.file.closed
    && h.etag == h.origin && h.start == |client.server.log| && h.origin in client.server.versions
    && h.writable == flags.write && h.file.append == flags.append && h.file.maxSize == maxSize
    && var bytes := client.server.versions[h.origin].bytes;
       if flags.truncate then h.file.content == [] && (h.file.dirty <==> bytes != [])
       else h.file.content == bytes && !h.file.dirty
  }

  /** The disk does its part. */
  predicate Works(spool: Spooling) {
    spool.directory != "" && spool.disk == Spool.Disk(true, true, true)
  }

  /** Why an object that is there is not opened. */
  function Refusal(o: Object, flags: Flags, maxSize: int64): Option<OpenError> {
    if flags.create && flags.exclusive then Some(OpenError.Exists)
    else if o.isDir then Some(Directory)
    else if |o.bytes| > maxSize as int then Some(TooBig)
    else None
  }

  /** openLake: look, load the version seen unless truncating, and create an absent file right away. Opening what
      exists, or failing to, does nothing to the service; a creation is one upload that requires absence. Left alone,
      what exists opens unless there is a reason to refuse it. */
  method Open(client: Client, path: string, flags: Flags, maxSize: int64, spool: Spooling, draw: Option<Draw>)
      returns (r: Result<Handle, OpenError>, ghost creates: bool, ghost move: Option<Effect>)
    requires client.chunkSize > 0 && client.server.Valid()
    modifies client.server
    ensures client.server.Valid() && old(client.server.log) <= client.server.log
    ensures !creates ==> client.server.log == old(client.server.log) && move.None?
    ensures !creates && client.server.calm ==> client.server.objects == old(client.server.objects)
    ensures creates ==> flags.create && draw.Some?
    ensures creates ==>
              AllOrNothing(client.server.log[|old(client.server.log)|..], move, UploadOf(path, draw.value).stage, path,
                           None, [], client.server.mine)
    ensures creates && client.server.calm && client.maxPages > 0
            && UploadOf(path, draw.value).stage !in old(client.server.objects) ==>
              && path !in old(client.server.objects) && r.Ok?
              && client.server.objects == old(client.server.objects)[path := Object([], [], r.value.etag, "", false)]
    ensures client.server.calm && path in old(client.server.objects) ==>
              var o := old(client.server.objects)[path];
              && !creates
              && (Refusal(o, flags, maxSize).Some? ==> r == Err(Refusal(o, flags, maxSize).value))
              && (Refusal(o, flags, maxSize).None? && Works(spool) && maxSize > 0 ==> r.Ok? && r.value.etag == o.etag)
    ensures client.server.calm && path !in old(client.server.objects) ==>
              && (!flags.create ==> r == Err(Missing))
              && (flags.create && Works(spool) && maxSize > 0
                  && draw.Some? && Usable(old(client.server.objects), path, draw.value) ==>
                  creates)
    ensures r.Ok? ==>
              var h := r.value;
              && fresh(h) && fresh(h.file) && Starts(h, client, path, flags, maxSize)
              && (creates ==> move.Some? && move.value.etag == h.etag && h.file.content == [] && !h.file.dirty)
  {
    creates, move := false, None;
    var server := client.server;
    var stat := server.Stat(IDLE, path, None);
    var newFile := stat == Rejected(true) && flags.create;
    if !stat.Done? && !newFile { return Err(if stat == Rejected(true) then Missing else NoAnswer), false, None; }
    hide Server.Valid, AllOrNothing, Admissible, Grows, Handle.Valid, StagePath;
    if newFile {
      r, creates, move := CreateEmpty(client, path, flags, maxSize, spool, draw);
      return;
    }
    if flags.create && flags.exclusive { return Err(OpenError.Exists), false, None; }
    var info := stat.value;
    if info.isDir { return Err(Directory), false, None; }
    if info.size > maxSize as int { return Err(TooBig), false, None; }
    StatStands(server, path);
    r := OpenExisting(client, path, flags, maxSize, spool, info);
  }

  lemma StatStands(server: Server, path: string)
    requires server.Valid() && path in server.objects
    ensures Stands(server.versions, server.objects[path].etag, server.objects[path])
  {
  }

  method OpenExisting(client: Client, path: string, flags: Flags, maxSize: int64, spool: Spooling, info: Info)
    returns (r: Result<Handle, OpenError>)
    requires client.chunkSize > 0 && client.server.Valid() && info.size <= maxSize as int
    requires info.etag in client.server.versions && info.size == |client.server.versions[info.etag].bytes|
    modifies client.server
    ensures client.server.Valid() && client.server.log == old(client.server.log)
    ensures client.server.calm ==> client.server.objects == old(client.server.objects)
    ensures r.Ok? ==>
              var h := r.value;
              fresh(h) && fresh(h.file) && Starts(h, client, path, flags, maxSize) && h.etag == info.etag
    ensures client.server.calm && Shows(old(client.server.objects), path, info.etag) && Works(spool) && maxSize > 0 ==>
              r.Ok?
  {
    var server := client.server;
    var opts := Spool.Options(spool.directory, maxSize, info.size as int64, flags.truncate, flags.append);
    ghost var versions := server.versions;
    ghost var initial := versions[info.etag].bytes;
    assert Grows(versions, versions);
    hide Server.Valid;
    var loaded: Result<seq<byte>, Spool.SpoolError> := Err(Spool.LoadFailed);
    if !flags.truncate && info.size > 0 {
      var dest := new Spool.BoundedWriter(maxSize);
      var ok := Download(client, path, dest, info.size, info.etag, spool.disk.writes);
      if ok { loaded := Ok(dest.content); }
    }
    Unchanged(versions, server.versions, info.etag);
    hide Grows;
    var file := Spool.Open(opts, spool.disk, loaded, initial);
    if file.Err? { return Err(BadSpool); }
    var h := new Handle(client, path, file.value, flags.write, info.etag);
    r := Ok(h);
  }

  /** A new file: an empty spool, and an upload that requires the path to be absent. */
  method CreateEmpty(client: Client, path: string, flags: Flags, maxSize: int64, spool: Spooling, draw: Option<Draw>)
      returns (r: Result<Handle, OpenError>, ghost tried: bool, ghost move: Option<Effect>)
    requires client.chunkSize > 0 && client.server.Valid()
    modifies client.server
    ensures client.server.Valid() && old(client.server.log) <= client.server.log
    ensures !tried ==>
            client.server.log == old(client.server.log)
            && client.server.objects == old(client.server.objects) && move.None?
    ensures tried ==>
              && draw.Some?
              && AllOrNothing(client.server.log[|old(client.server.log)|..], move, UploadOf(path, draw.value).stage,
                              path, None, [], client.server.mine)
    ensures tried && client.server.calm && client.maxPages > 0
            && UploadOf(path, draw.value).stage !in old(client.server.objects) ==>
              && (r.Ok? <==> path !in old(client.server.objects))
              && client.server.objects ==
                   if r.Ok? then old(client.server.objects)[path := Object([], [], r.value.etag, "", false)]
                   else old(client.server.objects)
    ensures Works(spool) && maxSize > 0 && draw.Some? && Usable(old(client.server.objects), path, draw.value) ==> tried
    ensures r.Ok? ==>
              var h := r.value;
              && fresh(h) && fresh(h.file) && Starts(h, client, path, flags, maxSize)
              && tried && move.Some? && move.value.etag == h.etag && h.file.content == [] && !h.file.dirty
  {
    tried, move := false, None;
    var server := client.server;
    var file := Spool.Open(Spool.Options(spool.directory, maxSize, 0, flags.truncate, flags.append), spool.disk, Ok([]),
                           []);
    if file.Err? { return Err(BadSpool), false, None; }
    if draw.None? || !Usable(server.objects, path, draw.value) { return Err(CreateFailed), false, None; }
    var u := UploadOf(path, draw.value);
    hide Server.Valid, Grows, AllOrNothing, StagePath;
    tried := true;
    var put;
    put, move := client.Put(u, path, [], 0, None);
    assert Take([], 0) == [];
    if put.Err? {
      var ignored := file.value.Close(true);
      return Err(CreateFailed), true, move;
    }
    CreatedEmpty(server.log[|old(server.log)|..], move, u.stage, path, server.mine);
    var h := new Handle(client, path, file.value, flags.write, put.value.etag);
    r := Ok(h);
  }

  lemma CreatedEmpty(effects: seq<Effect>, move: Option<Effect>, stage: string, target: string, mine: set<nat>)
    requires move.Some? && AllOrNothing(effects, move, stage, target, None, Take([], 0), mine)
    ensures move.value.Renamed? && move.value.bytes == []
  {
  }
}
