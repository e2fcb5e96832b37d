/** The storage service as a client sees it (internal/onelake/client.go, read.go): every request meets whatever
    other clients did before it, and may be refused, lost, or take effect and still report failure.
    Conditions follow sections 13.1.1 and 13.1.2 of RFC 9110. */
module OneLake {
  import opened Prelude

  /** `pending` is data appended but not flushed: no reader sees it. */
  datatype Object = Object(bytes: seq<byte>, pending: seq<byte>, etag: nat, properties: string, isDir: bool)

  datatype Info = Info(etag: nat, size: nat, isDir: bool, properties: string)

  /** What an entity tag stands for. */
  datatype Version = Version(bytes: seq<byte>, properties: string, isDir: bool)

  datatype Reply<+T> = Done(value: T) | Rejected(missing: bool) | Failed

  datatype MoveReply = More(token: string) | Moved(etag: Option<nat>)

  /** Bytes read, and whether the end of the file was reported with them. */
  datatype Piece = Piece(data: seq<byte>, eof: bool)

  datatype Fate = Arrives(answered: bool) | Refused | Lost

  /** This client's own effects on the service. */
  datatype Effect =
    | Created(path: string)
    | Appended(path: string)
    | Flushed(path: string)
    | Renamed(from: string, to: string, replaced: Option<Object>, bytes: seq<byte>, etag: nat)
    | Deleted(path: string, etag: nat)

  const STAGE_PROPERTY: string := "fabricfsupload"

  // ----- the ownership property ---------------------------------------------------------------

  /** strings.Split by a comma. */
  function Parts(s: string): (r: seq<string>)
    ensures r != []
  {
    if s == "" then [""]
    else
      var rest := Parts(s[1..]);
      if s[0] == ',' then [""] + rest else [[s[0]] + rest[0]] + rest[1..]
  }

  /** strings.Cut at the first '='. */
  function Cut(s: string): Option<(string, string)> {
    if s == "" then None
    else if s[0] == '=' then Some(("", s[1..]))
    else
      var rest := Cut(s[1..]);
      if rest.None? then None else Some(([s[0]] + rest.value.0, rest.value.1))
  }

  /** The values the properties give to the stage property, in order. */
  function Claims(parts: seq<string>): seq<string> {
    if parts == [] then []
    else
      var cut := Cut(TrimSpace(parts[0]));
      (if cut.Some? && cut.value.0 == STAGE_PROPERTY then [cut.value.1] else []) + Claims(parts[1..])
  }

  /** A stage is owned exactly when the property occurs once and carries the marker. */
  predicate Owns(properties: string, marker: string) { Claims(Parts(properties)) == [marker] }

  /** What one part claims, if it is the stage property. */
  function Claim(part: string): Option<string> {
    var cut := Cut(TrimSpace(part));
    if cut.Some? && cut.value.0 == STAGE_PROPERTY then Some(cut.value.1) else None
  }

  lemma {:induction false} ClaimedNowhere(parts: seq<string>)
    ensures Claims(parts) == [] <==> forall i | 0 <= i < |parts| :: Claim(parts[i]).None?
  {
    hide Cut, TrimSpace, STAGE_PROPERTY;
    if parts != [] {
      ClaimedNowhere(parts[1..]);
      assert forall i | 0 < i < |parts| :: parts[i] == parts[1..][i - 1];
    }
  }

  /** Part i claims the stage for the marker, and no other part claims it. */
  ghost predicate OnlyClaim(parts: seq<string>, marker: string, i: nat) {
    && i < |parts| && Claim(parts[i]) == Some(marker)
    && forall j | 0 <= j < |parts| && j != i :: Claim(parts[j]).None?
  }

  lemma OnlyClaimLater(parts: seq<string>, marker: string, i: nat)
    requires parts != [] && Claim(parts[0]).None?
    ensures OnlyClaim(parts, marker, i + 1) <==> OnlyClaim(parts[1..], marker, i)
  {
    hide Claim;
    assert forall j | 0 <= j < |parts| - 1 :: parts[1..][j] == parts[j + 1];
    assert forall j | 0 < j < |parts| :: parts[j] == parts[1..][j - 1];
  }

  lemma OnlyClaimFirst(parts: seq<string>, marker: string)
    requires parts != [] && Claim(parts[0]).Some?
    ensures (exists i: nat :: OnlyClaim(parts, marker, i)) <==>
            Claim(parts[0]) == Some(marker) && Claims(parts[1..]) == []
  {
    ClaimedNowhere(parts[1..]);
    hide Claim, Claims;
    assert forall j | 0 < j < |parts| :: parts[j] == parts[1..][j - 1];
    assert forall j | 0 <= j < |parts| - 1 :: parts[1..][j] == parts[j + 1];
    if Claim(parts[0]) == Some(marker) && Claims(parts[1..]) == [] { assert OnlyClaim(parts, marker, 0); }
    if i: nat :| OnlyClaim(parts, marker, i) { assert i == 0; }
  }

  lemma OnlyClaimShifts(parts: seq<string>, marker: string)
    requires parts != [] && Claim(parts[0]).None?
    ensures (exists i: nat :: OnlyClaim(parts, marker, i)) <==> exists i: nat :: OnlyClaim(parts[1..], marker, i)
  {
    if i: nat :| OnlyClaim(parts, marker, i) {
      assert i > 0;
      OnlyClaimLater(parts, marker, i - 1);
    }
    if i: nat :| OnlyClaim(parts[1..], marker, i) { OnlyClaimLater(parts, marker, i); }
  }

  lemma ClaimsStep(parts: seq<string>)
    requires parts != []
    ensures Claims(parts) == (if Claim(parts[0]).Some? then [Claim(parts[0]).value] else []) + Claims(parts[1..])
  {
    hide Cut, TrimSpace, STAGE_PROPERTY;
  }

  lemma {:induction false} ClaimedOnce(parts: seq<string>, marker: string)
    ensures Claims(parts) == [marker] <==> exists i: nat :: OnlyClaim(parts, marker, i)
  {
    if parts != [] {
      hide Claim, Claims, OnlyClaim;
      ClaimsStep(parts);
      var rest := Claims(parts[1..]);
      if Claim(parts[0]).Some? {
        OnlyClaimFirst(parts, marker);
        var v := Claim(parts[0]).value;
        assert |[v] + rest| == 1 + |rest| && ([v] + rest)[0] == v;
        assert [v] + rest == [marker] <==> v == marker && rest == [];
      } else {
        ClaimedOnce(parts[1..], marker);
        OnlyClaimShifts(parts, marker);
        assert [] + rest == rest;
      }
    }
  }

  function JoinParts(parts: seq<string>): string
    requires parts != []
  {
    if |parts| == 1 then parts[0] else parts[0] + "," + JoinParts(parts[1..])
  }

  lemma JoinCons(c: char, parts: seq<string>)
    requires parts != []
    ensures JoinParts([[c] + parts[0]] + parts[1..]) == [c] + JoinParts(parts)
  {
    var now := [[c] + parts[0]] + parts[1..];
    if |parts| == 1 {
      assert now == [[c] + parts[0]];
    } else {
      assert now[1..] == parts[1..];
      assert ([c] + parts[0]) + "," + JoinParts(parts[1..]) == [c] + (parts[0] + "," + JoinParts(parts[1..]));
    }
  }

  lemma {:induction false} NoCommaInParts(s: string)
    ensures forall i | 0 <= i < |Parts(s)| :: ',' !in Parts(s)[i]
  {
    if s != "" {
      NoCommaInParts(s[1..]);
      var parts, rest := Parts(s), Parts(s[1..]);
      assert if s[0] == ',' then parts == [""] + rest else parts == [[s[0]] + rest[0]] + rest[1..];
    }
  }

  /** The parts are what stands between the commas. */
  lemma {:induction false} PartsLoseNothing(s: string)
    ensures JoinParts(Parts(s)) == s && forall i | 0 <= i < |Parts(s)| :: ',' !in Parts(s)[i]
  {
    NoCommaInParts(s);
    if s != "" {
      PartsLoseNothing(s[1..]);
      var parts, rest := Parts(s), Parts(s[1..]);
      if s[0] == ',' {
        assert parts == [""] + rest && parts[1..] == rest;
        assert s == [','] + s[1..] && "" + "," + s[1..] == s;
      } else {
        assert parts == [[s[0]] + rest[0]] + rest[1..];
        JoinCons(s[0], rest);
        assert s == [s[0]] + s[1..];
      }
    }
  }

  /** A stage is owned exactly when one part of its properties claims it, for this marker, and no other part does. */
  lemma OwnedIffClaimedOnce(properties: string, marker: string, parts: seq<string>)
    requires parts == Parts(properties)
    ensures Owns(properties, marker) <==> exists i: nat :: OnlyClaim(parts, marker, i)
  {
    ClaimedOnce(parts, marker);
  }

  method OwnsStage(properties: string, marker: string) returns (found: bool)
    ensures found == Owns(properties, marker)
  {
    found := false;
    var parts := Parts(properties);
    hide Cut, TrimSpace, STAGE_PROPERTY;
    assert parts[0..] == parts;
    for i := 0 to |parts|
      invariant Claims(parts) == (if found then [marker] else []) + Claims(parts[i..])
    {
      assert parts[i..][1..] == parts[i + 1..];
      var cut := Cut(TrimSpace(parts[i]));
      if cut.Some? && cut.value.0 == STAGE_PROPERTY {
        if found || cut.value.1 != marker {
          assert Claims(parts)[if found then 1 else 0] == cut.value.1;
          return false;
        }
        found := true;
      }
    }
  }

  function StageProperties(marker: string): string { STAGE_PROPERTY + "=" + marker }

  /** A marker as the client makes it: nothing to split on, nothing to trim. */
  predicate CleanMarker(marker: string) { marker != "" && ',' !in marker && !IsSpace(marker[|marker| - 1]) }

  lemma {:induction false} NoComma(s: string)
    requires ',' !in s
    ensures Parts(s) == [s]
  {
    if s != "" {
      NoComma(s[1..]);
      assert [s[0]] + s[1..] == s;
    }
  }

  lemma {:induction false} CutAfterName(name: string, value: string)
    requires '=' !in name
    ensures Cut(name + "=" + value) == Some((name, value))
  {
    if name == "" {
      assert (name + "=" + value)[1..] == value;
    } else {
      CutAfterName(name[1..], value);
      assert (name + "=" + value)[1..] == name[1..] + "=" + value && [name[0]] + name[1..] == name;
    }
  }

  /** The properties a create sends are recognised as its own, and by no other marker. */
  lemma OwnPropertiesAreOwned(marker: string, other: string)
    requires CleanMarker(marker)
    ensures Owns(StageProperties(marker), other) <==> other == marker
    ensures !Owns("", other)
  {
    var p := StageProperties(marker);
    NoComma(p);
    assert p[0] == 'f' && p[|p| - 1] == marker[|marker| - 1];
    assert TrimSpace(p) == p;
    CutAfterName(STAGE_PROPERTY, marker);
    assert Claims([p]) == [marker] by { assert [p][1..] == []; }
    assert Claims([""]) == [] by { assert [""][1..] == []; }
  }

  // ----- the service --------------------------------------------------------------------------

  /** A private sibling path and the marker that proves who made it. */
  datatype Upload = Upload(stage: string, marker: string)

  /** No upload in progress: no object has an empty path. */
  const IDLE: Upload := Upload("", "")

  function VersionOf(o: Object): Version { Version(o.bytes, o.properties, o.isDir) }

  function InfoOf(o: Object): Info { Info(o.etag, |o.bytes|, o.isDir, o.properties) }

  /** What other clients may have done: removed anything, and put new versions anywhere; but they do not know
      the marker. Tags below `minted` were in use before. */
  ghost predicate Admissible(was: map<string, Object>, now: map<string, Object>, minted: nat, u: Upload) {
    forall p | p in now ::
      || (p in was && now[p] == was[p])
      || (now[p].etag >= minted && (p == u.stage ==> !Owns(now[p].properties, u.marker)))
  }

  ghost predicate Grows(was: map<nat, Version>, now: map<nat, Version>) {
    forall t | t in was :: t in now && now[t] == was[t]
  }

  lemma GrowsOn(a: map<nat, Version>, b: map<nat, Version>, c: map<nat, Version>)
    requires Grows(a, b) && Grows(b, c)
    ensures Grows(a, c)
  {
  }

  /** The tag stands for this object's version. */
  ghost predicate Stands(versions: map<nat, Version>, etag: nat, o: Object) {
    etag in versions && versions[etag] == VersionOf(o)
  }

  class Server {
    /** No other client acts, and nothing is refused or lost. */
    const calm: bool
    var objects: map<string, Object>
    var nextTag: nat
    /** Every version there ever was. */
    ghost var versions: map<nat, Version>
    /** The tags of the versions this client made by creating or flushing. */
    ghost var mine: set<nat>
    ghost var log: seq<Effect>

    ghost predicate Valid()
      reads this
    {
      && (forall p | p in objects :: objects[p].etag in versions && versions[objects[p].etag] == VersionOf(objects[p]))
      && (forall t | t in versions :: t < nextTag)
      && (forall t | t in mine :: t < nextTag)
    }

    method Others(u: Upload)
      requires Valid()
      modifies `objects, `nextTag, `versions
      ensures Valid() && Grows(old(versions), versions) && nextTag >= old(nextTag)
      ensures Admissible(old(objects), objects, old(nextTag), u)
      ensures calm ==> objects == old(objects) && nextTag == old(nextTag)
    {
      var steps: int := *;
      if calm || steps < 0 { return; }
      hide Owns, VersionOf;
      for i := 0 to steps
        invariant Valid() && Grows(old(versions), versions) && nextTag >= old(nextTag)
        invariant Admissible(old(objects), objects, old(nextTag), u)
      {
        var path: string := *;
        var removes: bool := *;
        if removes {
          objects := objects - {path};
        } else {
          var bytes: seq<byte>, pending: seq<byte>, properties: string, isDir: bool := *, *, *, *;
          if path == u.stage && Owns(properties, u.marker) { continue; }
          Mint(path, Object(bytes, pending, nextTag, properties, isDir));
        }
      }
    }

    /** A path gets a version nobody has seen before. */
    method Mint(path: string, o: Object)
      requires Valid() && o.etag == nextTag
      modifies `objects, `nextTag, `versions
      ensures Valid() && Grows(old(versions), versions) && nextTag == old(nextTag) + 1
      ensures objects == old(objects)[path := o] && versions == old(versions)[o.etag := VersionOf(o)]
    {
      objects := objects[path := o];
      versions := versions[o.etag := VersionOf(o)];
      nextTag := nextTag + 1;
    }

    method Fated() returns (f: Fate)
      ensures calm ==> f == Arrives(true)
    {
      f := *;
      if calm { f := Arrives(true); }
    }

    /** PUT resource=file, If-None-Match: *. */
    method Create(u: Upload, path: string, properties: string)
        returns (reply: Reply<Option<nat>>, ghost env: map<string, Object>, ghost applied: bool)
      requires Valid()
      modifies this
      ensures Valid() && Grows(old(versions), versions) && nextTag >= old(nextTag)
      ensures Admissible(old(objects), env, old(nextTag), u) && (calm ==> env == old(objects))
      ensures applied ==>
                && path !in env && old(nextTag) < nextTag && log == old(log) + [Created(path)]
                && objects == env[path := Object([], [], nextTag - 1, properties, false)]
                && mine == old(mine) + {nextTag - 1}
      ensures !applied ==> objects == env && log == old(log) && mine == old(mine)
      ensures reply.Done? ==> applied && (reply.value.Some? ==> reply.value.value == nextTag - 1)
      ensures reply.Rejected? ==> !applied
      ensures calm ==> if path in env then reply.Rejected? else reply == Done(Some(nextTag - 1))
    {
      Others(u);
      env, applied := objects, false;
      var fate := Fated();
      if fate.Refused? { return Rejected(false), env, false; }
      if fate.Lost? { return Failed, env, false; }
      if path in objects { return if fate.answered then Rejected(false) else Failed, env, false; }
      hide Valid, Grows, Admissible;
      Mint(path, Object([], [], nextTag, properties, false));
      MineIsMinted(nextTag - 1);
      log, mine, applied := log + [Created(path)], mine + {nextTag - 1}, true;
      var tagless: bool := *;
      reply := if !fate.answered then Failed else if tagless && !calm then Done(None) else Done(Some(nextTag - 1));
    }

    lemma MineIsMinted(t: nat)
      requires Valid() && t < nextTag
      ensures forall m | m in mine + {t} :: m < nextTag
    {
    }

    /** PATCH action=append: no condition is allowed on it; only a position that continues the data is accepted. */
    method Append(u: Upload, path: string, position: nat, chunk: seq<byte>)
        returns (reply: Reply<()>, ghost env: map<string, Object>, ghost applied: bool)
      requires Valid()
      modifies this
      ensures Valid() && Grows(old(versions), versions) && nextTag >= old(nextTag) && mine == old(mine)
      ensures Admissible(old(objects), env, old(nextTag), u) && (calm ==> env == old(objects))
      ensures applied ==>
                && path in env && position == |env[path].pending| && log == old(log) + [Appended(path)]
                && objects == env[path := env[path].(pending := env[path].pending + chunk)]
      ensures !applied ==> objects == env && log == old(log)
      ensures reply.Done? ==> applied
      ensures calm ==> (reply.Done? <==> path in env && !env[path].isDir && position == |env[path].pending|)
      ensures calm ==> (reply.Done? <==> applied)
    {
      Others(u);
      env, applied := objects, false;
      var fate := Fated();
      if fate.Refused? { return Rejected(false), env, false; }
      if fate.Lost? { return Failed, env, false; }
      if path !in objects || objects[path].isDir || position != |objects[path].pending| {
        return if fate.answered then Rejected(path !in objects) else Failed, env, false;
      }
      objects := objects[path := objects[path].(pending := objects[path].pending + chunk)];
      log, applied := log + [Appended(path)], true;
      reply := if fate.answered then Done(()) else Failed;
    }

    /** PATCH action=flush, If-Match: the appended data becomes the contents, under a new tag. */
    method Flush(u: Upload, path: string, position: nat, ifMatch: nat)
        returns (reply: Reply<Option<nat>>, ghost env: map<string, Object>, ghost applied: bool)
      requires Valid()
      modifies this
      ensures Valid() && Grows(old(versions), versions) && nextTag >= old(nextTag)
      ensures Admissible(old(objects), env, old(nextTag), u) && (calm ==> env == old(objects))
      ensures applied ==>
                && path in env && env[path].etag == ifMatch && position == |env[path].pending|
                && old(nextTag) < nextTag && log == old(log) + [Flushed(path)] && mine == old(mine) + {nextTag - 1}
                && objects == env[path := Object(env[path].pending, [], nextTag - 1, env[path].properties, false)]
      ensures !applied ==> objects == env && log == old(log) && mine == old(mine)
      ensures reply.Done? ==> applied && (reply.value.Some? ==> reply.value.value == nextTag - 1)
      ensures calm ==> (applied <==>
                        path in env && !env[path].isDir && env[path].etag == ifMatch && position == |env[path].pending|)
      ensures calm && applied ==> reply == Done(Some(nextTag - 1))
    {
      Others(u);
      env, applied := objects, false;
      var fate := Fated();
      if fate.Refused? { return Rejected(false), env, false; }
      if fate.Lost? { return Failed, env, false; }
      if path !in objects || objects[path].isDir || objects[path].etag != ifMatch
        || position != |objects[path].pending| {
        return if fate.answered then Rejected(path !in objects) else Failed, env, false;
      }
      hide Valid, Grows, Admissible;
      Mint(path, Object(objects[path].pending, [], nextTag, objects[path].properties, false));
      MineIsMinted(nextTag - 1);
      log, mine, applied := log + [Flushed(path)], mine + {nextTag - 1}, true;
      var tagless: bool := *;
      reply := if !fate.answered then Failed else if tagless && !calm then Done(None) else Done(Some(nextTag - 1));
    }

    /** HEAD, with If-Match when a tag is given. */
    method Stat(u: Upload, path: string, ifMatch: Option<nat>) returns (reply: Reply<Info>)
      requires Valid()
      modifies this
      ensures Valid() && Grows(old(versions), versions) && nextTag >= old(nextTag) && log == old(log)
              && mine == old(mine)
      ensures Admissible(old(objects), objects, old(nextTag), u) && (calm ==> objects == old(objects))
      ensures reply.Done? ==>
                && path in objects && reply.value == InfoOf(objects[path])
                && (ifMatch.Some? ==> objects[path].etag == ifMatch.value)
      ensures calm ==> (reply.Done? <==> path in objects && (ifMatch.Some? ==> objects[path].etag == ifMatch.value))
      ensures calm && path !in objects ==> reply == Rejected(true)
    {
      Others(u);
      var fate := Fated();
      if fate.Refused? { return Rejected(false); }
      if fate.Lost? || !fate.answered { return Failed; }
      if path !in objects { return Rejected(true); }
      if ifMatch.Some? && objects[path].etag != ifMatch.value { return Rejected(false); }
      reply := Done(InfoOf(objects[path]));
    }

    /** GET of a range, with If-Match: possibly fewer bytes than asked for. */
    method Read(u: Upload, path: string, offset: nat, length: nat, ifMatch: nat) returns (reply: Reply<Piece>)
      requires Valid()
      modifies this
      ensures Valid() && Grows(old(versions), versions) && nextTag >= old(nextTag) && log == old(log)
              && mine == old(mine)
      ensures Admissible(old(objects), objects, old(nextTag), u) && (calm ==> objects == old(objects))
      ensures reply.Done? ==>
                && ifMatch in versions && |reply.value.data| <= length
                && offset + |reply.value.data| <= |versions[ifMatch].bytes|
                && reply.value.data == versions[ifMatch].bytes[offset..offset + |reply.value.data|]
                && (reply.value.eof <==> offset + |reply.value.data| == |versions[ifMatch].bytes|)
      ensures calm ==> (reply.Done? <==>
                        path in objects && objects[path].etag == ifMatch && offset <= |objects[path].bytes|)
      ensures calm && reply.Done? ==>
                reply.value.data == objects[path].bytes[offset..Least(offset + length, |objects[path].bytes|)]
    {
      Others(u);
      var fate := Fated();
      if fate.Refused? { return Rejected(false); }
      if fate.Lost? || !fate.answered { return Failed; }
      if path !in objects || objects[path].etag != ifMatch { return Rejected(path !in objects); }
      var bytes := objects[path].bytes;
      if offset > |bytes| { return Rejected(false); }
      var n: int := *;
      var most := if length < |bytes| - offset then length else |bytes| - offset;
      var got := if 0 <= n < most && !calm then n else most;
      reply := Done(Piece(bytes[offset..offset + got], offset + got == |bytes|));
    }

    /** DELETE, If-Match. */
    method Delete(u: Upload, path: string, ifMatch: nat)
        returns (reply: Reply<()>, ghost env: map<string, Object>, ghost applied: bool)
      requires Valid()
      modifies this
      ensures Valid() && Grows(old(versions), versions) && nextTag >= old(nextTag) && mine == old(mine)
      ensures Admissible(old(objects), env, old(nextTag), u) && (calm ==> env == old(objects))
      ensures applied ==>
                && path in env && env[path].etag == ifMatch && objects == env - {path}
                && log == old(log) + [Deleted(path, ifMatch)]
      ensures !applied ==> objects == env && log == old(log)
      ensures calm ==> (reply.Done? <==> applied) && (applied <==> path in env && env[path].etag == ifMatch)
    {
      Others(u);
      env, applied := objects, false;
      var fate := Fated();
      if fate.Refused? { return Rejected(false), env, false; }
      if fate.Lost? { return Failed, env, false; }
      if path !in objects || objects[path].etag != ifMatch {
        return if fate.answered then Rejected(path !in objects) else Failed, env, false;
      }
      objects := objects - {path};
      log, applied := log + [Deleted(path, ifMatch)], true;
      reply := if fate.answered then Done(()) else Failed;
    }

    /** PUT with a rename source: If-Match on the source; If-Match or If-None-Match: * on the destination.
        The service may answer with a continuation token instead, having done nothing yet. */
    method Move(u: Upload, from: string, to: string, sourceTag: nat, ifMatch: Option<nat>, clearProperties: bool)
        returns (reply: Reply<MoveReply>, ghost env: map<string, Object>, ghost applied: bool)
      requires Valid() && from != to
      modifies this
      ensures Valid() && Grows(old(versions), versions) && nextTag >= old(nextTag) && mine == old(mine)
      ensures Admissible(old(objects), env, old(nextTag), u) && (calm ==> env == old(objects))
      ensures applied ==>
                && from in env && env[from].etag == sourceTag && MayReplace(env, to, ifMatch) && old(nextTag) < nextTag
                && objects == (env - {from})[to := MovedObject(env[from], nextTag - 1, clearProperties)]
                && log == old(log) + [Renamed(from, to, At(env, to), env[from].bytes, nextTag - 1)]
                && Stands(versions, nextTag - 1, MovedObject(env[from], nextTag - 1, clearProperties))
                && (to in env ==> Stands(versions, env[to].etag, env[to]))
      ensures !applied ==> objects == env && log == old(log)
      ensures reply.Done? && reply.value.Moved? ==>
                applied && (reply.value.etag.Some? ==> reply.value.etag.value == nextTag - 1)
      ensures reply.Done? && reply.value.More? ==> !applied
      ensures calm ==> (applied <==> from in env && env[from].etag == sourceTag && MayReplace(env, to, ifMatch))
      ensures calm && applied ==> reply == Done(Moved(Some(nextTag - 1)))
      ensures calm && !applied ==> !reply.Done?
    {
      hide Grows, Admissible;
      Others(u);
      ghost var versions1 := versions;
      env, applied := objects, false;
      var fate := Fated();
      if fate.Refused? { return Rejected(false), env, false; }
      if fate.Lost? { return Failed, env, false; }
      var paged: bool, token: string := *, *;
      if paged && !calm { return if fate.answered then Done(More(token)) else Failed, env, false; }
      if from !in objects || objects[from].etag != sourceTag || !MayReplace(objects, to, ifMatch) {
        return if fate.answered then Rejected(from !in objects) else Failed, env, false;
      }
      var moving := objects[from];
      log := log + [Renamed(from, to, At(objects, to), moving.bytes, nextTag)];
      objects := objects - {from};
      Mint(to, MovedObject(moving, nextTag, clearProperties));
      GrowsOn(old(versions), versions1, versions);
      applied := true;
      var tagless: bool := *;
      reply := if !fate.answered then Failed
        else if tagless && !calm then Done(Moved(None))
        else Done(Moved(Some(nextTag - 1)));
    }
  }

  function Least(a: int, b: int): int { if a < b then a else b }

  function At(objects: map<string, Object>, path: string): Option<Object> {
    if path in objects then Some(objects[path]) else None
  }

  /** The destination condition: an absent path, or exactly the given version. */
  predicate MayReplace(objects: map<string, Object>, to: string, ifMatch: Option<nat>) {
    if ifMatch.None? then to !in objects else to in objects && objects[to].etag == ifMatch.value
  }

  function MovedObject(o: Object, etag: nat, clearProperties: bool): Object {
    Object(o.bytes, [], etag, if clearProperties then "" else o.properties, o.isDir)
  }
}
