/** Committing a spool through a private sibling file and a conditional rename (internal/onelake/write.go). */
module StagedUpload {
  import opened Prelude
  import opened OneLake

  datatype PutError =
    | Cancelled | Denied | Unanswered | NoTag | Conflict | IsDirectory | NotDirectory | Unsupported | TooLarge
    | BadContinuation | ShortSpool | InvalidSource | Beneath | Exists

  // ----- what stays true whatever others do ---------------------------------------------------

  /** Whoever carries the marker at the stage path is this upload's own object. */
  ghost predicate OnlyOurs(objects: map<string, Object>, mine: set<nat>, u: Upload) {
    u.stage in objects && Owns(objects[u.stage].properties, u.marker) ==> objects[u.stage].etag in mine
  }

  /** The version o, as long as it is there, is unchanged. */
  ghost predicate Holds(objects: map<string, Object>, path: string, o: Object) {
    path in objects && objects[path].etag == o.etag ==> objects[path] == o
  }

  /** At p there is what was there, or a version newer than `minted`. */
  ghost predicate OldOrNew(was: map<string, Object>, now: map<string, Object>, p: string, minted: nat) {
    p in now ==> (p in was && now[p] == was[p]) || now[p].etag >= minted
  }

  lemma OthersKeep(was: map<string, Object>, now: map<string, Object>, minted: nat, u: Upload, mine: set<nat>)
    requires Admissible(was, now, minted, u) && OnlyOurs(was, mine, u)
    ensures OnlyOurs(now, mine, u)
    ensures forall path, o: Object | o.etag < minted && Holds(was, path, o) :: Holds(now, path, o)
  {
    hide Owns;
  }

  lemma OldOrNewChains(a: map<string, Object>, b: map<string, Object>, c: map<string, Object>, p: string, m: nat,
                       n: nat)
    requires OldOrNew(a, b, p, m) && OldOrNew(b, c, p, n) && m <= n
    ensures OldOrNew(a, c, p, m)
  {
  }

  // ----- effects ------------------------------------------------------------------------------

  ghost predicate OnStage(e: Effect, stage: string, mine: set<nat>) {
    match e
    case Renamed(_, _, _, _, _) => false
    case Deleted(path, etag) => path == stage && etag in mine
    case _ => e.path == stage
  }

  /** Effects on the stage path only; a deletion only of an object this upload made. */
  ghost predicate StageOnly(effects: seq<Effect>, stage: string, mine: set<nat>) {
    forall e | e in effects :: OnStage(e, stage, mine)
  }

  /** The one effect an upload may have on its target: from exactly the expected version, or absence, to the data. */
  ghost predicate Commits(e: Effect, stage: string, target: string, expected: Option<nat>, data: seq<byte>) {
    && e.Renamed? && e.from == stage && e.to == target && e.bytes == data
    && (if expected.None? then e.replaced == None else e.replaced.Some? && e.replaced.value.etag == expected.value)
  }

  /** The tags of a commit stand for what it replaced and for what it wrote. */
  ghost predicate Recorded(e: Effect, versions: map<nat, Version>)
    requires e.Renamed?
  {
    && e.etag in versions && versions[e.etag].bytes == e.bytes
    && (e.replaced.Some? ==>
        e.replaced.value.etag in versions
        && versions[e.replaced.value.etag].bytes == e.replaced.value.bytes)
  }

  lemma RecordedGrows(e: Effect, a: map<nat, Version>, b: map<nat, Version>)
    requires e.Renamed? && Recorded(e, a) && Grows(a, b)
    ensures Recorded(e, b)
  {
  }

  /** One page of a rename: the service wants to be asked again, or there is a result. */
  datatype Page = Again(token: string) | Finished(result: Result<Info, PutError>)

  /** An upload's effects: on its stage, and, when `move` says so, exactly one commit. */
  ghost predicate AllOrNothing(effects: seq<Effect>, move: Option<Effect>, stage: string, target: string,
                               expected: Option<nat>, data: seq<byte>, mine: set<nat>) {
    if move.None? then StageOnly(effects, stage, mine)
    else
      && Commits(move.value, stage, target, expected, data)
      && exists k | 0 <= k < |effects| ::
           effects[k] == move.value && StageOnly(effects[..k], stage, mine) && StageOnly(effects[k + 1..], stage, mine)
  }

  lemma StageOnlyConcat(a: seq<Effect>, b: seq<Effect>, stage: string, mine1: set<nat>, mine2: set<nat>)
    requires StageOnly(a, stage, mine1) && StageOnly(b, stage, mine2) && mine1 <= mine2
    ensures StageOnly(a + b, stage, mine2)
  {
  }

  lemma StageOnlyExtends(first: seq<Effect>, was: seq<Effect>, now: seq<Effect>, add: seq<Effect>,
                         stage: string, mine1: set<nat>, mine2: set<nat>)
    requires first <= was && StageOnly(was[|first|..], stage, mine1) && mine1 <= mine2
    requires now == was + add && StageOnly(add, stage, mine2)
    ensures first <= now && StageOnly(now[|first|..], stage, mine2)
  {
    assert now[|first|..] == was[|first|..] + add;
    StageOnlyConcat(was[|first|..], add, stage, mine1, mine2);
  }

  lemma AtTheStart(objects: map<string, Object>, versions: map<nat, Version>, log: seq<Effect>, minted: nat,
                   stage: string, mine: set<nat>)
    ensures forall p :: OldOrNew(objects, objects, p, minted)
    ensures Grows(versions, versions) && StageOnly(log[|log|..], stage, mine)
  {
  }

  function Wanted(destinationTag: Option<nat>, noReplace: bool): Option<nat> {
    if noReplace then None else destinationTag
  }

  /** A file may go there: an absent path, or exactly the wanted version of a file. */
  predicate Replaceable(objects: map<string, Object>, p: string, wanted: Option<nat>) {
    MayReplace(objects, p, wanted) && (wanted.Some? ==> !objects[p].isDir)
  }

  /** What may be renamed there: anything to an absent path, but only a file over exactly the wanted version of a
      file. */
  predicate Renamable(objects: map<string, Object>, o: Object, p: string, wanted: Option<nat>) {
    Replaceable(objects, p, wanted) && (wanted.Some? ==> !o.isDir)
  }

  /** Why a source may not be renamed over an object that is there in the wanted version. */
  function Misfit(o: Object, target: Object): PutError
    requires o.isDir || target.isDir
  {
    if !o.isDir then IsDirectory else if target.isDir then Unsupported else NotDirectory
  }

  class Client {
    const server: Server
    const chunkSize: nat
    const maxPages: nat

    constructor (server: Server, chunkSize: nat, maxPages: nat)
      requires chunkSize > 0
      ensures this.server == server && this.chunkSize == chunkSize && this.maxPages == maxPages
    {
      this.server, this.chunkSize, this.maxPages := server, chunkSize, maxPages;
    }

    /** The spool: a full chunk, or nothing when it is too short or cannot be read. */
    method ReadAt(source: seq<byte>, position: nat, length: nat) returns (chunk: Option<seq<byte>>)
      ensures chunk.Some? ==> position + length <= |source| && chunk.value == source[position..position + length]
      ensures server.calm ==> (chunk.Some? <==> position + length <= |source|)
    {
      var fails: bool := *;
      if (fails && !server.calm) || position + length > |source| { return None; }
      chunk := Some(source[position..position + length]);
    }

    /** One chunk; `o` is the stage object with the data before it. */
    method AppendChunk(u: Upload, source: seq<byte>, position: nat, length: nat, ghost o: Object)
      returns (err: Option<PutError>)
      requires server.Valid() && OnlyOurs(server.objects, server.mine, u)
      requires position <= |source| && o.pending == source[..position]
      requires !o.isDir && o.etag < server.nextTag && Holds(server.objects, u.stage, o)
      modifies server
      ensures server.Valid() && Grows(old(server.versions), server.versions) && server.nextTag >= old(server.nextTag)
      ensures server.mine == old(server.mine) && OnlyOurs(server.objects, server.mine, u)
      ensures old(server.log) <= server.log && StageOnly(server.log[|old(server.log)|..], u.stage, server.mine)
      ensures forall p | p != u.stage :: OldOrNew(old(server.objects), server.objects, p, old(server.nextTag))
      ensures err == None ==>
                position + length <= |source|
                  && Holds(server.objects, u.stage, o.(pending := source[..position + length]))
      ensures server.calm && old(At(server.objects, u.stage)) == Some(o) ==>
                && (err == None <==> position + length <= |source|)
                && server.objects == if err == None
                   then old(server.objects)[u.stage := o.(pending := source[..position + length])]
                                     else old(server.objects)
    {
      AtTheStart(server.objects, server.versions, server.log, server.nextTag, u.stage, server.mine);
      hide Owns, Admissible, OnlyOurs, OldOrNew, Holds, Grows, StageOnly, Server.Valid;
      var cancelled: bool := *;
      if cancelled && !server.calm { return Some(Cancelled); }
      var chunk := ReadAt(source, position, length);
      if chunk.None? { return Some(ShortSpool); }
      ghost var before, minted, log := server.objects, server.nextTag, server.log;
      var reply, env, applied := server.Append(u, u.stage, position, chunk.value);
      AppendedOnStage(u.stage, server.mine);
      StageOnlyExtends(log, log, server.log, if applied then [Appended(u.stage)] else [], u.stage, server.mine,
                       server.mine);
      AppendKeeps(before, before, env, server.objects, minted, minted, u, server.mine, o, chunk.value, applied);
      assert source[..position] + chunk.value == source[..position + length];
      err := if reply.Done? then None else Some(if reply.Rejected? then Denied else Unanswered);
    }

    method AppendAll(u: Upload, source: seq<byte>, size: nat, ghost o: Object) returns (err: Option<PutError>)
      requires chunkSize > 0 && server.Valid() && OnlyOurs(server.objects, server.mine, u)
      requires o.pending == [] && !o.isDir && o.etag < server.nextTag && Holds(server.objects, u.stage, o)
      modifies server
      ensures server.Valid() && Grows(old(server.versions), server.versions) && server.nextTag >= old(server.nextTag)
      ensures server.mine == old(server.mine) && OnlyOurs(server.objects, server.mine, u)
      ensures old(server.log) <= server.log && StageOnly(server.log[|old(server.log)|..], u.stage, server.mine)
      ensures forall p | p != u.stage :: OldOrNew(old(server.objects), server.objects, p, old(server.nextTag))
      ensures err == None ==> size <= |source| && Holds(server.objects, u.stage, o.(pending := source[..size]))
      ensures server.calm && old(At(server.objects, u.stage)) == Some(o) ==>
                && (err == None <==> size <= |source|) && u.stage in server.objects
                && server.objects == old(server.objects)[u.stage := o.(pending := server.objects[u.stage].pending)]
                && (err == None ==> server.objects[u.stage].pending == source[..size])
    {
      AtTheStart(server.objects, server.versions, server.log, server.nextTag, u.stage, server.mine);
      hide Owns, Admissible, OnlyOurs, OldOrNew, Holds, Grows, StageOnly, Server.Valid;
      var bufferSize := if size < chunkSize then size else chunkSize;
      var position := 0;
      assert source[..0] == [] && o.(pending := []) == o;
      ghost var base := server.objects;
      while position < size
        invariant position <= size && position <= |source| && server.nextTag >= old(server.nextTag)
        invariant server.Valid() && Grows(old(server.versions), server.versions)
        invariant server.mine == old(server.mine) && OnlyOurs(server.objects, server.mine, u)
        invariant old(server.log) <= server.log && StageOnly(server.log[|old(server.log)|..], u.stage, server.mine)
        invariant forall p | p != u.stage :: OldOrNew(base, server.objects, p, old(server.nextTag))
        invariant Holds(server.objects, u.stage, o.(pending := source[..position]))
        invariant server.calm && At(base, u.stage) == Some(o) ==>
                    server.objects == base[u.stage := o.(pending := source[..position])]
      {
        var length := if size - position < bufferSize then size - position else bufferSize;
        ghost var before, minted, versions, log := server.objects, server.nextTag, server.versions, server.log;
        err := AppendChunk(u, source, position, length, o.(pending := source[..position]));
        GrowsOn(old(server.versions), versions, server.versions);
        StageOnlyExtends(old(server.log), log, server.log, server.log[|log|..], u.stage, server.mine, server.mine);
        forall p | p != u.stage ensures OldOrNew(base, server.objects, p, old(server.nextTag)) {
          OldOrNewChains(base, before, server.objects, p, old(server.nextTag), minted);
        }
        if err.Some? { return; }
        position := position + length;
      }
      err := None;
    }

    lemma AppendedOnStage(stage: string, mine: set<nat>)
      ensures StageOnly([Appended(stage)], stage, mine) && StageOnly([], stage, mine)
    {
    }

    lemma AppendKeeps(base: map<string, Object>, was: map<string, Object>, env: map<string, Object>,
                      now: map<string, Object>,
                      first: nat, minted: nat, u: Upload, mine: set<nat>, o: Object, chunk: seq<byte>, applied: bool)
      requires Admissible(was, env, minted, u) && OnlyOurs(was, mine, u) && Holds(was, u.stage, o) && o.etag < minted
               && first <= minted
      requires forall p | p != u.stage :: OldOrNew(base, was, p, first)
      requires if applied then u.stage in env
               && now == env[u.stage := env[u.stage].(pending := env[u.stage].pending + chunk)]
               else now == env
      ensures OnlyOurs(now, mine, u) && (applied ==> Holds(now, u.stage, o.(pending := o.pending + chunk)))
      ensures forall p | p != u.stage :: OldOrNew(base, now, p, first)
    {
      OthersKeep(was, env, minted, u, mine);
      hide Owns;
      forall p | p != u.stage ensures OldOrNew(base, now, p, first) {
        assert OldOrNew(base, was, p, first);
        assert p in now <==> p in env;
      }
    }

    /** Flush with the create tag, then look at what the flush made. */
    method FinishStage(u: Upload, size: nat, createTag: nat, ghost o: Object) returns (r: Result<Info, PutError>)
      requires server.Valid() && OnlyOurs(server.objects, server.mine, u)
      requires |o.pending| == size && !o.isDir && o.etag == createTag < server.nextTag
               && Holds(server.objects, u.stage, o)
      modifies server
      ensures server.Valid() && Grows(old(server.versions), server.versions) && server.nextTag >= old(server.nextTag)
      ensures old(server.mine) <= server.mine && OnlyOurs(server.objects, server.mine, u)
      ensures old(server.log) <= server.log && StageOnly(server.log[|old(server.log)|..], u.stage, server.mine)
      ensures forall p | p != u.stage :: OldOrNew(old(server.objects), server.objects, p, old(server.nextTag))
      ensures r.Ok? ==>
                && r.value.etag < server.nextTag && r.value == Info(r.value.etag, size, false, o.properties)
                && Holds(server.objects, u.stage, Object(o.pending, [], r.value.etag, o.properties, false))
      ensures server.calm && old(At(server.objects, u.stage)) == Some(o) ==>
                r.Ok? && server.objects == old(server.objects)[u.stage := Object(o.pending, [], r.value.etag,
                                                                                 o.properties, false)]
    {
      AtTheStart(server.objects, server.versions, server.log, server.nextTag, u.stage, server.mine);
      hide Owns, Admissible, OnlyOurs, OldOrNew, Grows, StageOnly, Server.Valid;
      ghost var before, minted, log, mine := server.objects, server.nextTag, server.log, server.mine;
      var reply, env, applied := server.Flush(u, u.stage, size, createTag);
      FlushedOnStage(u.stage, server.mine);
      StageOnlyExtends(log, log, server.log, if applied then [Flushed(u.stage)] else [], u.stage, mine, server.mine);
      ghost var f := Object(o.pending, [], server.nextTag - 1, o.properties, false);
      FlushKeeps(before, env, server.objects, minted, u, mine, o, f, applied);
      if !reply.Done? { return Err(if reply.Rejected? then Denied else Unanswered); }
      if reply.value.None? { return Err(NoTag); }
      ghost var flushed, minted2, versions := server.objects, server.nextTag, server.versions;
      var stat := server.Stat(u, u.stage, reply.value);
      GrowsOn(old(server.versions), versions, server.versions);
      OthersKeep(flushed, server.objects, minted2, u, server.mine);
      forall p | p != u.stage ensures OldOrNew(before, server.objects, p, minted) {
        AdmissibleIsOldOrNew(flushed, server.objects, minted2, u, p);
        OldOrNewChains(before, flushed, server.objects, p, minted, minted2);
      }
      if !stat.Done? { return Err(if stat.Rejected? then Denied else Unanswered); }
      if stat.value.isDir || stat.value.size != size { return Err(Conflict); }
      r := Ok(stat.value);
    }

    lemma FlushedOnStage(stage: string, mine: set<nat>)
      ensures StageOnly([Flushed(stage)], stage, mine) && StageOnly([], stage, mine)
    {
    }

    lemma AdmissibleIsOldOrNew(was: map<string, Object>, now: map<string, Object>, minted: nat, u: Upload, p: string)
      requires Admissible(was, now, minted, u)
      ensures OldOrNew(was, now, p, minted)
    {
      hide Owns;
    }

    lemma FlushKeeps(was: map<string, Object>, env: map<string, Object>, now: map<string, Object>,
                     minted: nat, u: Upload, mine: set<nat>, o: Object, f: Object, applied: bool)
      requires Admissible(was, env, minted, u) && OnlyOurs(was, mine, u) && Holds(was, u.stage, o) && o.etag < minted
      requires f == Object(o.pending, [], f.etag, o.properties, false) && (applied ==> f.etag >= minted)
      requires if applied then u.stage in env && env[u.stage].etag == o.etag
                               && now == env[u.stage := Object(env[u.stage].pending, [], f.etag,
                                                               env[u.stage].properties, false)]
               else now == env
      ensures OnlyOurs(now, if applied then mine + {f.etag} else mine, u)
              && (applied ==> Holds(now, u.stage, f) && env[u.stage] == o)
      ensures forall p | p != u.stage :: OldOrNew(was, now, p, minted)
    {
      OthersKeep(was, env, minted, u, mine);
      forall p | p != u.stage ensures OldOrNew(was, now, p, minted) {
        AdmissibleIsOldOrNew(was, env, minted, u, p);
      }
      hide Owns;
    }

    /** One conditional move, and the look at its result. */
    method MoveOnce(u: Upload, source: string, destination: string, sourceInfo: Info, wanted: Option<nat>,
                    clearProperties: bool, ghost o: Object)
        returns (page: Page, ghost move: Option<Effect>)
      requires server.Valid() && source != destination && destination != u.stage
               && OnlyOurs(server.objects, server.mine, u)
      requires InfoOf(o) == sourceInfo && o.etag < server.nextTag && Holds(server.objects, source, o)
      modifies server
      ensures server.Valid() && Grows(old(server.versions), server.versions) && server.nextTag >= old(server.nextTag)
      ensures server.mine == old(server.mine) && OnlyOurs(server.objects, server.mine, u)
      ensures server.log == old(server.log) + if move.Some? then [move.value] else []
      ensures move.Some? ==>
                && Commits(move.value, source, destination, wanted, o.bytes) && Recorded(move.value, server.versions)
                && (destination in server.objects ==> server.objects[destination].etag >= old(server.nextTag))
                && (wanted.Some? && wanted.value < old(server.nextTag) ==>
                    old(MayReplace(server.objects, destination, wanted)))
      ensures move.None? ==>
                Holds(server.objects, source, o)
                  && OldOrNew(old(server.objects), server.objects, destination, old(server.nextTag))
      ensures page.Again? ==> move.None?
      ensures page.Finished? && page.result.Ok? ==>
                var info := page.result.value;
                move.Some? && info.etag == move.value.etag && info.size == sourceInfo.size
                  && info.isDir == sourceInfo.isDir
      ensures server.calm && old(At(server.objects, source)) == Some(o) ==>
                page.Finished? && if old(MayReplace(server.objects, destination, wanted))
                then page.result.Ok? && server.objects ==
                  (old(server.objects) - {source})[destination := MovedObject(o, page.result.value.etag,
                                                                              clearProperties)]
                else page.result.Err? && server.objects == old(server.objects)
    {
      hide Owns, OnlyOurs, Grows, Server.Valid, Admissible;
      ghost var base, first := server.objects, server.nextTag;
      assert OldOrNew(base, base, destination, first);
      var reply, env, applied := server.Move(u, source, destination, sourceInfo.etag, wanted, clearProperties);
      RestKeeps(base, base, env, first, first, u, server.mine, source, o, destination);
      move := None;
      if applied {
        move := Some(server.log[|server.log| - 1]);
        MoveKeeps(env, server.objects, u, server.mine, source, destination, server.nextTag - 1, clearProperties);
      }
      if !reply.Done? { return Finished(Err(if reply.Rejected? then Denied else Unanswered)), move; }
      if reply.value.More? { return Again(reply.value.token), move; }
      if reply.value.etag.None? { return Finished(Err(NoTag)), move; }
      ghost var moved, minted, versions := server.objects, server.nextTag, server.versions;
      var stat := server.Stat(u, destination, reply.value.etag);
      GrowsOn(old(server.versions), versions, server.versions);
      RecordedGrows(move.value, versions, server.versions);
      OthersKeep(moved, server.objects, minted, u, server.mine);
      AdmissibleIsOldOrNew(moved, server.objects, minted, u, destination);
      NewStaysNew(moved, server.objects, destination, first, minted);
      if !stat.Done? { return Finished(Err(if stat.Rejected? then Denied else Unanswered)), move; }
      if stat.value.isDir != sourceInfo.isDir || stat.value.size != sourceInfo.size {
        return Finished(Err(Conflict)), move;
      }
      page := Finished(Ok(stat.value));
    }

    /** rename: check the target, then ask for the move page by page. */
    method Rename(u: Upload, source: string, destination: string, sourceInfo: Info, destinationTag: Option<nat>,
                  noReplace: bool, clearProperties: bool, ghost o: Object)
        returns (r: Result<Info, PutError>, ghost move: Option<Effect>)
      requires server.Valid() && source != destination && destination != u.stage
               && OnlyOurs(server.objects, server.mine, u)
      requires InfoOf(o) == sourceInfo && o.etag < server.nextTag && Holds(server.objects, source, o)
      modifies server
      ensures server.Valid() && Grows(old(server.versions), server.versions) && server.nextTag >= old(server.nextTag)
      ensures server.mine == old(server.mine) && OnlyOurs(server.objects, server.mine, u)
      ensures server.log == old(server.log) + if move.Some? then [move.value] else []
      ensures move.Some? ==>
                && Commits(move.value, source, destination, Wanted(destinationTag, noReplace), o.bytes)
                && Recorded(move.value, server.versions)
                && (destination in server.objects ==> server.objects[destination].etag >= old(server.nextTag))
      ensures move.Some? && !noReplace && destinationTag.Some? && destinationTag.value < old(server.nextTag) ==>
                old(MayReplace(server.objects, destination, destinationTag))
      ensures move.None? ==> OldOrNew(old(server.objects), server.objects, destination, old(server.nextTag))
      ensures r.Ok? ==>
                move.Some? && r.value.etag == move.value.etag && r.value.size == sourceInfo.size
                  && r.value.isDir == sourceInfo.isDir
      ensures server.calm && old(At(server.objects, source)) == Some(o) && maxPages > 0 ==>
                if old(Renamable(server.objects, o, destination, Wanted(destinationTag, noReplace)))
                then r.Ok? && server.objects ==
                  (old(server.objects) - {source})[destination := MovedObject(o, r.value.etag, clearProperties)]
                else r.Err? && server.objects == old(server.objects)
      ensures server.calm && !noReplace && destinationTag.Some?
              && old(MayReplace(server.objects, destination, destinationTag)) ==>
                var target := old(server.objects)[destination];
                o.isDir || target.isDir ==> r == Err(Misfit(o, target))
    {
      move := None;
      AtTheStart(server.objects, server.versions, server.log, server.nextTag, u.stage, server.mine);
      hide Owns, OnlyOurs, OldOrNew, Holds, Grows, Server.Valid, Admissible, Commits, Recorded;
      ghost var base := server.objects;
      var wanted := Wanted(destinationTag, noReplace);
      if destinationTag.Some? && !noReplace {
        ghost var minted := server.nextTag;
        var stat := server.Stat(u, destination, destinationTag);
        RestKeeps(base, base, server.objects, minted, minted, u, server.mine, source, o, destination);
        if !stat.Done? { return Err(if stat.Rejected? then Denied else Unanswered), None; }
        if stat.value.isDir && !sourceInfo.isDir { return Err(IsDirectory), None; }
        if sourceInfo.isDir { return Err(if stat.value.isDir then Unsupported else NotDirectory), None; }
      }
      var seen: set<string> := {};
      for page := 0 to maxPages
        invariant server.Valid() && Grows(old(server.versions), server.versions)
                  && server.nextTag >= old(server.nextTag)
        invariant server.mine == old(server.mine) && OnlyOurs(server.objects, server.mine, u)
        invariant server.log == old(server.log) && move == None && Holds(server.objects, source, o)
        invariant OldOrNew(base, server.objects, destination, old(server.nextTag))
        invariant server.calm && wanted.Some? ==> Renamable(base, o, destination, wanted)
        invariant server.calm && At(base, source) == Some(o) ==> page == 0 && server.objects == base
      {
        ghost var before, minted, versions := server.objects, server.nextTag, server.versions;
        var answer;
        answer, move := MoveOnce(u, source, destination, sourceInfo, wanted, clearProperties, o);
        GrowsOn(old(server.versions), versions, server.versions);
        if move.None? { OldOrNewChains(base, before, server.objects, destination, old(server.nextTag), minted); }
        ReplaceableBefore(base, before, destination, old(server.nextTag), wanted);
        if answer.Finished? { return answer.result, move; }
        if answer.token in seen { return Err(BadContinuation), None; }
        seen := seen + {answer.token};
      }
      r := Err(TooLarge);
    }

    lemma ReplaceableBefore(base: map<string, Object>, was: map<string, Object>, p: string, first: nat,
                            wanted: Option<nat>)
      requires OldOrNew(base, was, p, first)
      ensures wanted.Some? && wanted.value < first && MayReplace(was, p, wanted) ==> MayReplace(base, p, wanted)
    {
    }

    lemma NewStaysNew(was: map<string, Object>, now: map<string, Object>, p: string, first: nat, minted: nat)
      requires OldOrNew(was, now, p, minted) && first <= minted && (p in was ==> was[p].etag >= first)
      ensures p in now ==> now[p].etag >= first
    {
    }

    /** What other clients cannot take away between two requests. */
    lemma RestKeeps(base: map<string, Object>, was: map<string, Object>, now: map<string, Object>, first: nat,
                    minted: nat, u: Upload, mine: set<nat>, source: string, o: Object, destination: string)
      requires Admissible(was, now, minted, u) && first <= minted && OldOrNew(base, was, destination, first)
      requires OnlyOurs(was, mine, u) && Holds(was, source, o) && o.etag < minted
      ensures OldOrNew(base, now, destination, first) && OnlyOurs(now, mine, u) && Holds(now, source, o)
      ensures forall t: nat | t < first && MayReplace(now, destination, Some(t)) ::
              MayReplace(base, destination, Some(t))
    {
      OthersKeep(was, now, minted, u, mine);
      AdmissibleIsOldOrNew(was, now, minted, u, destination);
      OldOrNewChains(base, was, now, destination, first, minted);
    }

    lemma MoveKeeps(env: map<string, Object>, now: map<string, Object>, u: Upload, mine: set<nat>,
                    source: string, destination: string, etag: nat, clearProperties: bool)
      requires OnlyOurs(env, mine, u) && source in env && destination != u.stage
      requires now == (env - {source})[destination := MovedObject(env[source], etag, clearProperties)]
      ensures OnlyOurs(now, mine, u)
    {
      hide Owns;
    }

    /** The rename a user asks for, between two paths: at most one effective move, from the version named at the
        source, over exactly the version named at the destination, or absence. */
    method RenamePath(source: string, destination: string, sourceTag: nat, destinationTag: Option<nat>, noReplace: bool)
        returns (r: Result<Info, PutError>, ghost move: Option<Effect>)
      requires server.Valid() && destination != "" && "" !in server.objects
      modifies server
      ensures server.Valid() && Grows(old(server.versions), server.versions)
      ensures server.log == old(server.log) + if move.Some? then [move.value] else []
      ensures move.Some? ==>
                && source != destination && !HasPrefix(destination, source + "/")
                && sourceTag in server.versions
                && Commits(move.value, source, destination, Wanted(destinationTag, noReplace),
                           server.versions[sourceTag].bytes)
                && Recorded(move.value, server.versions)
      ensures r.Ok? && source != destination ==> move.Some? && r.value.etag == move.value.etag
      ensures r.Ok? && source == destination ==> !noReplace && move.None? && r.value.etag == sourceTag
      ensures HasPrefix(destination, source + "/") ==> r == Err(Beneath)
      ensures !HasPrefix(destination, source + "/") && source == destination && noReplace ==> r == Err(Exists)
      ensures server.calm && source == destination && !noReplace ==>
                && server.objects == old(server.objects)
                && (r.Ok? <==> source in old(server.objects) && old(server.objects)[source].etag == sourceTag)
      ensures server.calm && (source !in old(server.objects) || HasPrefix(destination, source + "/")) ==>
                r.Err? && server.objects == old(server.objects)
      ensures server.calm && maxPages > 0 && source != destination && !HasPrefix(destination, source + "/")
              && source in old(server.objects) ==>
                var o := old(server.objects)[source];
                if o.etag == sourceTag
                   && old(Renamable(server.objects, o, destination, Wanted(destinationTag, noReplace)))
                then r.Ok? && server.objects ==
                  (old(server.objects) - {source})[destination := MovedObject(o, r.value.etag, false)]
                else r.Err? && server.objects == old(server.objects)
    {
      move := None;
      assert OnlyOurs(server.objects, server.mine, IDLE);
      if HasPrefix(destination, source + "/") { return Err(Beneath), None; }
      if source == destination && noReplace { return Err(Exists), None; }
      hide Owns, OnlyOurs, Admissible, Commits, Recorded, Renamable, HasPrefix;
      ghost var before, minted, mine := server.objects, server.nextTag, server.mine;
      var stat := server.Stat(IDLE, source, Some(sourceTag));
      OthersKeep(before, server.objects, minted, IDLE, mine);
      if !stat.Done? { return Err(if stat.Rejected? then Denied else Unanswered), None; }
      if source == destination { return Ok(stat.value), None; }
      ghost var o, versions := server.objects[source], server.versions;
      assert Stands(versions, sourceTag, o);
      hide Server.Valid;
      r, move := Rename(IDLE, source, destination, stat.value, destinationTag, noReplace, false, o);
      assert sourceTag in server.versions && server.versions[sourceTag].bytes == o.bytes;
      GrowsOn(old(server.versions), versions, server.versions);
    }

    lemma DeletedOnStage(stage: string, etag: nat, mine: set<nat>)
      ensures etag in mine ==> StageOnly([Deleted(stage, etag)], stage, mine)
      ensures StageOnly([], stage, mine)
    {
    }

    lemma CarriedByUs(objects: map<string, Object>, mine: set<nat>, u: Upload)
      requires OnlyOurs(objects, mine, u) && u.stage in objects && Owns(objects[u.stage].properties, u.marker)
      ensures objects[u.stage].etag in mine
    {
    }

    lemma DeleteKeeps(was: map<string, Object>, env: map<string, Object>, now: map<string, Object>, minted: nat,
                      u: Upload, mine: set<nat>)
      requires Admissible(was, env, minted, u) && OnlyOurs(was, mine, u) && (now == env || now == env - {u.stage})
      ensures OnlyOurs(now, mine, u) && forall p | p != u.stage :: OldOrNew(was, now, p, minted)
    {
      OthersKeep(was, env, minted, u, mine);
      forall p | p != u.stage ensures OldOrNew(was, now, p, minted) {
        AdmissibleIsOldOrNew(was, env, minted, u, p);
      }
      hide Owns;
    }

    /** cleanupStage: deletes the stage only when its ownership property still proves it is this upload's. */
    method CleanupStage(u: Upload) returns (err: Option<PutError>)
      requires server.Valid() && OnlyOurs(server.objects, server.mine, u)
      modifies server
      ensures server.Valid() && Grows(old(server.versions), server.versions) && server.nextTag >= old(server.nextTag)
      ensures server.mine == old(server.mine) && OnlyOurs(server.objects, server.mine, u)
      ensures old(server.log) <= server.log && StageOnly(server.log[|old(server.log)|..], u.stage, server.mine)
      ensures forall p | p != u.stage :: OldOrNew(old(server.objects), server.objects, p, old(server.nextTag))
      ensures server.calm && u.stage !in old(server.objects) ==> err == None && server.objects == old(server.objects)
      ensures server.calm && u.stage in old(server.objects) && !old(server.objects)[u.stage].isDir
              && Owns(old(server.objects)[u.stage].properties, u.marker) ==>
                err == None && server.objects == old(server.objects) - {u.stage}
    {
      AtTheStart(server.objects, server.versions, server.log, server.nextTag, u.stage, server.mine);
      hide Owns, OnlyOurs, OldOrNew, Grows, Server.Valid, Admissible, StageOnly;
      ghost var base, first, log := server.objects, server.nextTag, server.log;
      var stat := server.Stat(u, u.stage, None);
      DeleteKeeps(base, server.objects, server.objects, first, u, server.mine);
      if stat == Rejected(true) { return None; }
      if !stat.Done? { return Some(if stat.Rejected? then Denied else Unanswered); }
      var owned := OwnsStage(stat.value.properties, u.marker);
      if stat.value.isDir || !owned { return Some(Conflict); }
      CarriedByUs(server.objects, server.mine, u);
      ghost var before, minted, versions := server.objects, server.nextTag, server.versions;
      var reply, env, applied := server.Delete(u, u.stage, stat.value.etag);
      GrowsOn(old(server.versions), versions, server.versions);
      DeletedOnStage(u.stage, stat.value.etag, server.mine);
      StageOnlyExtends(log, log, server.log, if applied then [Deleted(u.stage, stat.value.etag)] else [], u.stage,
                       server.mine, server.mine);
      DeleteKeeps(before, env, server.objects, minted, u, server.mine);
      forall p | p != u.stage ensures OldOrNew(base, server.objects, p, first) {
        OldOrNewChains(base, before, server.objects, p, first, minted);
      }
      err := if reply.Done? then None else Some(if reply.Rejected? then Denied else Unanswered);
    }

    lemma CreateKeeps(was: map<string, Object>, env: map<string, Object>, now: map<string, Object>, minted: nat,
                      u: Upload, mine: set<nat>, o: Object, applied: bool)
      requires Admissible(was, env, minted, u) && OnlyOurs(was, mine, u)
      requires now == if applied then env[u.stage := o] else env
      ensures OnlyOurs(now, if applied then mine + {o.etag} else mine, u) && (applied ==> Holds(now, u.stage, o))
      ensures forall p | p != u.stage :: OldOrNew(was, now, p, minted)
    {
      DeleteKeeps(was, env, env, minted, u, mine);
      hide Owns;
      forall p | p != u.stage ensures OldOrNew(was, now, p, minted) {
        assert OldOrNew(was, env, p, minted);
      }
    }

    lemma CreatedOnStage(stage: string, mine: set<nat>)
      ensures StageOnly([Created(stage)], stage, mine) && StageOnly([], stage, mine)
    {
    }

    /** Create, append and flush: everything before the rename. */
    method FillStage(u: Upload, source: seq<byte>, size: nat)
        returns (r: Result<Info, PutError>, cleanup: bool, ghost o: Object)
      requires chunkSize > 0 && CleanMarker(u.marker)
      requires server.Valid() && OnlyOurs(server.objects, server.mine, u)
      modifies server
      ensures server.Valid() && Grows(old(server.versions), server.versions) && server.nextTag >= old(server.nextTag)
      ensures old(server.mine) <= server.mine && OnlyOurs(server.objects, server.mine, u)
      ensures old(server.log) <= server.log && StageOnly(server.log[|old(server.log)|..], u.stage, server.mine)
      ensures forall p | p != u.stage :: OldOrNew(old(server.objects), server.objects, p, old(server.nextTag))
      ensures r.Ok? ==>
                && size <= |source| && o == Object(source[..size], [], r.value.etag, StageProperties(u.marker), false)
                && InfoOf(o) == r.value && o.etag < server.nextTag && Holds(server.objects, u.stage, o) && cleanup
      ensures server.calm && u.stage !in old(server.objects) ==>
                && cleanup && (r.Ok? <==> size <= |source|) && (r.Ok? ==> At(server.objects, u.stage) == Some(o))
                && CalmlyStaged(old(server.objects), server.objects, u)
    {
      AtTheStart(server.objects, server.versions, server.log, server.nextTag, u.stage, server.mine);
      hide Owns, OnlyOurs, OldOrNew, Grows, Server.Valid, Admissible, StageOnly, Holds, StageProperties;
      ghost var base, first, log0, mine0 := server.objects, server.nextTag, server.log, server.mine;
      o := Object([], [], 0, "", false);
      var reply, env, applied := server.Create(u, u.stage, StageProperties(u.marker));
      o := Object([], [], server.nextTag - (if applied then 1 else 0), StageProperties(u.marker), false);
      CreatedOnStage(u.stage, server.mine);
      StageOnlyExtends(log0, log0, server.log, if applied then [Created(u.stage)] else [], u.stage, mine0, server.mine);
      CreateKeeps(base, env, server.objects, first, u, mine0, o, applied);
      StagedCalmly(base, server.objects, u, o, applied);
      if !reply.Done? { return Err(if reply.Rejected? then Denied else Unanswered), !reply.Rejected?, o; }
      if reply.value.None? { return Err(NoTag), true, o; }

      ghost var objects1, minted1, versions1, log1 := server.objects, server.nextTag, server.versions, server.log;
      var err := AppendAll(u, source, size, o);
      GrowsOn(old(server.versions), versions1, server.versions);
      StageOnlyExtends(log0, log1, server.log, server.log[|log1|..], u.stage, server.mine, server.mine);
      forall p | p != u.stage ensures OldOrNew(base, server.objects, p, first) {
        OldOrNewChains(base, objects1, server.objects, p, first, minted1);
      }
      if u.stage in server.objects {
        RestagedCalmly(base, objects1, server.objects, u, o, o.(pending := server.objects[u.stage].pending));
      }
      if err.Some? { return Err(err.value), true, o; }
      ghost var filled := o.(pending := source[..size]);
      o := filled;

      ghost var objects2, minted2, versions2, log2, mine2 := server.objects, server.nextTag, server.versions,
        server.log, server.mine;
      r := FinishStage(u, size, reply.value.value, o);
      GrowsOn(old(server.versions), versions2, server.versions);
      StageOnlyExtends(log0, log2, server.log, server.log[|log2|..], u.stage, mine2, server.mine);
      forall p | p != u.stage ensures OldOrNew(base, server.objects, p, first) {
        OldOrNewChains(base, objects2, server.objects, p, first, minted2);
      }
      if r.Ok? {
        o := Object(o.pending, [], r.value.etag, o.properties, false);
        RestagedCalmly(base, objects2, server.objects, u, filled, o);
      }
      cleanup := true;
    }

    /** With nobody else acting: nothing but this upload's own stage was added. */
    ghost predicate CalmlyStaged(was: map<string, Object>, now: map<string, Object>, u: Upload) {
      && now - {u.stage} == was - {u.stage}
      && (u.stage in now && u.stage !in was ==> Owns(now[u.stage].properties, u.marker) && !now[u.stage].isDir)
    }

    lemma RestagedCalmly(base: map<string, Object>, was: map<string, Object>, now: map<string, Object>, u: Upload,
                         a: Object, b: Object)
      requires CleanMarker(u.marker) && b.properties == StageProperties(u.marker) && !b.isDir
      ensures was == base[u.stage := a] && now == was[u.stage := b] ==>
                now == base[u.stage := b] && CalmlyStaged(base, now, u)
    {
      hide StageProperties, CleanMarker;
      assert base[u.stage := a][u.stage := b] == base[u.stage := b];
      StagedCalmly(base, now, u, b, true);
    }

    lemma StagedCalmly(was: map<string, Object>, now: map<string, Object>, u: Upload, o: Object, applied: bool)
      requires CleanMarker(u.marker) && o.properties == StageProperties(u.marker) && !o.isDir
      ensures now == (if applied then was[u.stage := o] else was) ==> CalmlyStaged(was, now, u)
    {
      OwnPropertiesAreOwned(u.marker, u.marker);
      hide Owns, StageProperties;
    }

    lemma TheMove(log0: seq<Effect>, log1: seq<Effect>, log2: seq<Effect>, log3: seq<Effect>, move: Option<Effect>,
                  u: Upload, target: string, expected: Option<nat>, data: seq<byte>, mine: set<nat>)
      requires log0 <= log1 && StageOnly(log1[|log0|..], u.stage, mine)
      requires log2 == log1 + if move.Some? then [move.value] else []
      requires log2 <= log3 && StageOnly(log3[|log2|..], u.stage, mine)
      requires move.Some? ==> Commits(move.value, u.stage, target, expected, data)
      ensures log0 <= log3 && AllOrNothing(log3[|log0|..], move, u.stage, target, expected, data, mine)
    {
      var a, b := log1[|log0|..], log3[|log2|..];
      var all := log3[|log0|..];
      assert all == a + (if move.Some? then [move.value] else []) + b;
      hide Commits;
      if move.Some? {
        assert all[|a|] == move.value && all[..|a|] == a && all[|a| + 1..] == b;
      } else {
        StageOnlyConcat(a, b, u.stage, mine, mine);
        assert all == a + b;
      }
    }

    lemma NobodyCarries(objects: map<string, Object>, u: Upload)
      requires u.stage in objects ==> !Owns(objects[u.stage].properties, u.marker)
      ensures OnlyOurs(objects, {}, u)
    {
    }

    lemma CleanedCalmly(was: map<string, Object>, now: map<string, Object>, u: Upload)
      requires CalmlyStaged(was, now, u) && u.stage !in was
      ensures u.stage in now ==>
              !now[u.stage].isDir && Owns(now[u.stage].properties, u.marker)
              && now - {u.stage} == was
      ensures u.stage !in now ==> now == was
    {
      assert was - {u.stage} == was;
      assert u.stage !in now ==> now - {u.stage} == now;
      hide Owns;
    }

    lemma ReplacedCalmly(was: map<string, Object>, filled: map<string, Object>, u: Upload, target: string, o: Object)
      requires CalmlyStaged(was, filled, u) && u.stage !in was && target != u.stage
      ensures (filled - {u.stage})[target := o] == was[target := o]
      ensures forall w :: Replaceable(filled, target, w) <==> Replaceable(was, target, w)
    {
      CleanedCalmly(was, filled, u);
      assert filled - {u.stage} == was by { if u.stage !in filled { assert filled - {u.stage} == filled; } }
      assert target in filled <==> target in filled - {u.stage};
      hide Owns;
    }

    /** Fill the stage, then rename it. */
    method Attempt(u: Upload, target: string, source: seq<byte>, size: nat, expected: Option<nat>)
        returns (r: Result<Info, PutError>, cleanup: bool, ghost move: Option<Effect>, ghost filled: seq<Effect>)
      requires chunkSize > 0 && CleanMarker(u.marker) && u.stage != target
      requires server.Valid() && OnlyOurs(server.objects, server.mine, u)
      modifies server
      ensures server.Valid() && Grows(old(server.versions), server.versions) && server.nextTag >= old(server.nextTag)
      ensures OnlyOurs(server.objects, server.mine, u)
      ensures old(server.log) <= filled && StageOnly(filled[|old(server.log)|..], u.stage, server.mine)
      ensures server.log == filled + if move.Some? then [move.value] else []
      ensures move.Some? ==>
                && size <= |source| && Commits(move.value, u.stage, target, expected, source[..size])
                && Recorded(move.value, server.versions)
                && (target in server.objects ==> server.objects[target].etag >= old(server.nextTag))
      ensures move.Some? && expected.Some? && expected.value < old(server.nextTag) ==>
                old(MayReplace(server.objects, target, expected))
      ensures move.None? ==> OldOrNew(old(server.objects), server.objects, target, old(server.nextTag))
      ensures r.Ok? ==> move.Some? && r.value.etag == move.value.etag && r.value.size == size && !r.value.isDir
      ensures server.calm && u.stage !in old(server.objects) && maxPages > 0 ==>
                if size <= |source| && old(Replaceable(server.objects, target, expected))
                then r.Ok? && server.objects ==
                  old(server.objects)[target := Object(source[..size], [], r.value.etag, "", false)]
                else r.Err? && cleanup && CalmlyStaged(old(server.objects), server.objects, u)
    {
      hide Owns, OnlyOurs, OldOrNew, Grows, Server.Valid, Admissible, StageOnly, Holds, CalmlyStaged, Replaceable,
           Commits, Recorded, MayReplace, CleanMarker, StageProperties;
      ghost var base, first := server.objects, server.nextTag;
      ghost var o;
      r, cleanup, o := FillStage(u, source, size);
      move, filled := None, server.log;
      if r.Err? { return; }
      ghost var before, minted, versions := server.objects, server.nextTag, server.versions;
      var sourceInfo := r.value;
      r, move := Rename(u, u.stage, target, sourceInfo, expected, false, true, o);
      GrowsOn(old(server.versions), versions, server.versions);
      if move.None? { OldOrNewChains(base, before, server.objects, target, first, minted); }
      ReplaceableBefore(base, before, target, first, expected);
      ReplacedCalmlyIf(base, before, u, target, if r.Ok? then MovedObject(o, r.value.etag, true) else o, expected);
    }

    lemma ReplacedCalmlyIf(was: map<string, Object>, filled: map<string, Object>, u: Upload, target: string, o: Object,
                           w: Option<nat>)
      requires target != u.stage
      ensures CalmlyStaged(was, filled, u) && u.stage !in was ==>
                && (filled - {u.stage})[target := o] == was[target := o]
                && (Replaceable(filled, target, w) <==> Replaceable(was, target, w))
    {
      if CalmlyStaged(was, filled, u) && u.stage !in was { ReplacedCalmly(was, filled, u, target, o); }
    }

    lemma NewerStaysNewer(was: map<string, Object>, now: map<string, Object>, base: map<string, Object>, p: string,
                          first: nat, minted: nat)
      requires OldOrNew(was, now, p, minted) && first <= minted
      ensures (p in was ==> was[p].etag >= first) ==> (p in now ==> now[p].etag >= first)
      ensures OldOrNew(base, was, p, first) ==> OldOrNew(base, now, p, first)
    {
    }

    /** Put: the target changes only at one conditional rename, from exactly the expected version, or absence, to
        exactly the first `size` bytes of the source; everything else this client does is to its own stage. Left
        alone, it succeeds exactly when the source is long enough and the target is as expected, and on every
        failure removes what it made. */
    method Put(u: Upload, target: string, source: seq<byte>, size: int, expected: Option<nat>)
        returns (r: Result<Info, PutError>, ghost move: Option<Effect>)
      requires chunkSize > 0 && CleanMarker(u.marker) && u.stage != target && server.Valid()
      requires u.stage in server.objects ==> !Owns(server.objects[u.stage].properties, u.marker)
      modifies server
      ensures server.Valid() && Grows(old(server.versions), server.versions) && server.nextTag >= old(server.nextTag)
      ensures old(server.log) <= server.log
      ensures AllOrNothing(server.log[|old(server.log)|..], move, u.stage, target, expected, Take(source, size),
                           server.mine)
      ensures move.Some? ==> 0 <= size <= |source| && Recorded(move.value, server.versions)
      ensures move.Some? ==> target in server.objects ==> server.objects[target].etag >= old(server.nextTag)
      ensures move.None? ==> OldOrNew(old(server.objects), server.objects, target, old(server.nextTag))
      ensures move.Some? && expected.Some? && expected.value < old(server.nextTag) ==>
                old(MayReplace(server.objects, target, expected))
      ensures r.Ok? ==> move.Some? && r.value.etag == move.value.etag && r.value.size == size && !r.value.isDir
      ensures server.calm && u.stage !in old(server.objects) && maxPages > 0 ==>
                if 0 <= size <= |source| && old(Replaceable(server.objects, target, expected))
                then r.Ok? && server.objects ==
                  old(server.objects)[target := Object(source[..size], [], r.value.etag, "", false)]
                else r.Err? && server.objects == old(server.objects)
    {
      NobodyCarries(server.objects, u);
      AtTheStart(server.objects, server.versions, server.log, server.nextTag, u.stage, {});
      server.mine := {};
      hide Owns, OnlyOurs, OldOrNew, Grows, Server.Valid, Admissible, StageOnly, Holds, CalmlyStaged, Replaceable,
           Commits, Recorded, MayReplace, AllOrNothing, CleanMarker;
      if size < 0 {
        TheMove(server.log, server.log, server.log, server.log, None, u, target, expected, [], server.mine);
        return Err(InvalidSource), None;
      }
      ghost var base, first, log0 := server.objects, server.nextTag, server.log;
      var cleanup;
      ghost var filled;
      r, cleanup, move, filled := Attempt(u, target, source, size, expected);
      ghost var before, minted, versions, log1 := server.objects, server.nextTag, server.versions, server.log;
      AtTheStart(before, versions, log1, minted, u.stage, server.mine);
      CleanedCalmlyIf(base, before, u);
      if r.Err? && cleanup {
        // A failing cleanup is joined to the error; it changes nothing else.
        var ignored := CleanupStage(u);
      }
      TheMove(log0, filled, log1, server.log, move, u, target, expected, Take(source, size), server.mine);
      GrowsOn(old(server.versions), versions, server.versions);
      if move.Some? { RecordedGrows(move.value, versions, server.versions); }
      NewerStaysNewer(before, server.objects, base, target, first, minted);
    }

    lemma CleanedCalmlyIf(was: map<string, Object>, now: map<string, Object>, u: Upload)
      ensures CalmlyStaged(was, now, u) && u.stage !in was ==>
                && (u.stage in now ==>
                    !now[u.stage].isDir && Owns(now[u.stage].properties, u.marker)
                    && now - {u.stage} == was)
                && (u.stage !in now ==> now == was)
    {
      if CalmlyStaged(was, now, u) && u.stage !in was { CleanedCalmly(was, now, u); }
    }
  }

  function Take(source: seq<byte>, size: int): seq<byte> { if 0 <= size <= |source| then source[..size] else [] }
}
