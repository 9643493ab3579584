/** `DomainPackLoader`: a bounded cache of parsed domain specs with a time-to-live and a
    modification-time check, over a disk that other processes write. */
module DomainCache {

  import opened Options

  type Id = string

  /** A parsed and validated domain spec. */
  datatype Spec = Spec(text: string)

  datatype File = File(content: string, mtime: int)

  datatype Entry = Entry(spec: Spec, mtime: int, at: nat)

  type Cache = map<Id, Entry>

  /** `parse` is the YAML reader and the schema; None stands for every DomainSpecError. */
  datatype Config = Config(maxSize: int, ttl: int, parse: string -> Option<Spec>)

  datatype Result = Loaded(spec: Spec) | Disabled | NotFound | BadSpec | NoRoom

  /** The cached entry is younger than the time to live. */
  predicate Live(c: Config, cache: Cache, id: Id, now: nat) {
    id in cache && now - cache[id].at < c.ttl
  }

  ghost predicate IsOldest(cache: Cache, id: Id) {
    id in cache && forall k | k in cache :: cache[id].at <= cache[k].at
  }

  /** What one call of `load_domain` does: `file` is the spec on disk during the call, `now` the
      first clock reading and `stamp` the second. */
  ghost predicate LoadSpec(c: Config, cache: Cache, id: Id, enabled: bool, file: Option<File>, now: nat, stamp: nat,
                           cache': Cache, r: Result)
  {
    if !enabled then cache' == cache && r == Disabled
    else if file.None? then cache' == cache && r == NotFound
    else if Live(c, cache, id, now) then cache' == cache && r == Loaded(cache[id].spec)
    else if id in cache && cache[id].mtime >= file.value.mtime then
      cache' == cache[id := cache[id].(at := stamp)] && r == Loaded(cache[id].spec)
    else if c.parse(file.value.content).None? then cache' == cache && r == BadSpec
    else
      var entry := Entry(c.parse(file.value.content).value, file.value.mtime, stamp);
      if |cache| >= c.maxSize && id !in cache then
        if cache == map[] then cache' == cache && r == NoRoom
        else r == Loaded(entry.spec) && exists victim ::
            IsOldest(cache, victim) && cache' == (cache - {victim})[id := entry]
      else cache' == cache[id := entry] && r == Loaded(entry.spec)
  }

  class DomainPackLoader {
    const config: Config
    var cache: Cache

    constructor (config: Config)
      ensures this.config == config && cache == map[]
    {
      this.config, cache := config, map[];
    }

    method LoadDomain(id: Id, enabled: bool, file: Option<File>, now: nat, stamp: nat) returns (r: Result)
      modifies this
      ensures LoadSpec(config, old(cache), id, enabled, file, now, stamp, cache, r)
    {
      if !enabled {
        return Disabled;
      }
      if file.None? {
        return NotFound;
      }
      if id in cache {
        var cached := cache[id];
        if now - cached.at < config.ttl {
          return Loaded(cached.spec);
        }
        if cached.mtime >= file.value.mtime {
          cache := cache[id := Entry(cached.spec, cached.mtime, stamp)];
          return Loaded(cached.spec);
        }
      }
      var spec := config.parse(file.value.content);
      if spec.None? {
        return BadSpec;
      }
      if |cache| >= config.maxSize && id !in cache {
        if cache == map[] {
          return NoRoom;
        }
        var oldest := OldestKey(cache);
        cache := cache - {oldest};
      }
      cache := cache[id := Entry(spec.value, file.value.mtime, stamp)];
      r := Loaded(spec.value);
    }

    /** `min` over the stamps; which of several oldest entries is taken is left open. */
    static method OldestKey(cache: Cache) returns (oldest: Id)
      requires cache != map[]
      ensures IsOldest(cache, oldest)
    {
      oldest :| oldest in cache;
      var rest := cache.Keys - {oldest};
      while rest != {}
        invariant oldest in cache && oldest !in rest
        invariant forall k | k in cache && k !in rest :: cache[oldest].at <= cache[k].at
      {
        var k :| k in rest;
        rest := rest - {k};
        if k in cache && cache[k].at < cache[oldest].at {
          oldest := k;
        }
      }
    }

    /** An absent or empty id clears everything. */
    method Invalidate(id: Option<Id>)
      modifies this
      ensures cache == Invalidated(old(cache), id)
      ensures id.None? || id.value == "" ==> cache == map[]
      ensures id.Some? && id.value != "" ==>
                && id.value !in cache
                && forall k | k in old(cache) && k != id.value :: k in cache && cache[k] == old(cache)[k]
      ensures forall k | k in cache :: k in old(cache)
    {
      if id.Some? && id.value != "" {
        cache := cache - {id.value};
      } else {
        cache := map[];
      }
    }

    /** The two lookups of `load_domain_async` that need no load. */
    method Peek(id: Id, enabled: bool, now: nat) returns (r: Option<Result>)
      ensures r == Peeked(config, cache, id, enabled, now)
      ensures r == Some(Disabled) <==> !enabled
      ensures r.None? <==> enabled && (id in cache ==> now - cache[id].at >= config.ttl)
      ensures enabled && r.Some? ==> r == Some(Loaded(cache[id].spec))
    {
      if !enabled {
        return Some(Disabled);
      }
      if id in cache && now - cache[id].at < config.ttl {
        return Some(Loaded(cache[id].spec));
      }
      r := None;
    }
  }

  function Invalidated(cache: Cache, id: Option<Id>): Cache {
    if id.Some? && id.value != "" then cache - {id.value} else map[]
  }

  function Peeked(c: Config, cache: Cache, id: Id, enabled: bool, now: nat): Option<Result> {
    if !enabled then Some(Disabled)
    else if Live(c, cache, id, now) then Some(Loaded(cache[id].spec))
    else None
  }

  // ----- the disk and its history -----

  /** What stood at a path from a moment on; None when the file was gone. */
  datatype Version = Version(file: Option<File>, since: nat)

  type Disk = map<Id, seq<Version>>

  function Current(h: seq<Version>): Option<File> {
    if h == [] then None else h[|h| - 1].file
  }

  function History(d: Disk, id: Id): seq<Version> {
    if id in d then d[id] else []
  }

  /** Version `i` stood on disk at moment `t`. */
  ghost predicate OnDiskAt(h: seq<Version>, i: nat, t: nat) {
    i < |h| && h[i].since <= t && (i + 1 < |h| ==> t <= h[i + 1].since)
  }

  /** Moments never go back. */
  ghost predicate InOrder(h: seq<Version>, now: nat) {
    forall i, j | 0 <= i <= j < |h| :: h[i].since <= h[j].since <= now
  }

  /** The files that stood at a path, one after the other. */
  function Files(h: seq<Version>): seq<Option<File>> {
    seq(|h|, i requires 0 <= i < |h| => h[i].file)
  }

  /** File `i` parses and the later file `j` does not parse to the same spec. */
  ghost predicate Differ(c: Config, fs: seq<Option<File>>, i: nat, j: nat) {
    && i < j < |fs| && fs[i].Some? && fs[j].Some?
    && c.parse(fs[i].value.content).Some? && c.parse(fs[j].value.content) != c.parse(fs[i].value.content)
  }

  /** A change of what a file parses to raises the modification time. */
  ghost predicate Rising(c: Config, fs: seq<Option<File>>) {
    forall i: nat, j: nat :: Differ(c, fs, i, j) ==> fs[i].value.mtime < fs[j].value.mtime
  }

  /** `spec` is the parse of version `i`. */
  ghost predicate ParseOf(c: Config, h: seq<Version>, i: nat, spec: Spec) {
    i < |h| && h[i].file.Some? && c.parse(h[i].file.value.content) == Some(spec)
  }

  /** The spec is the parse of what stood on disk at a moment less than one time to live before
      `now`, or at the end of the call. */
  ghost predicate IsCurrent(c: Config, h: seq<Version>, spec: Spec, now: nat, stamp: nat) {
    exists i: nat, t: nat ::
        ParseOf(c, h, i, spec) && OnDiskAt(h, i, t) && t <= stamp && (t == stamp || now - t < c.ttl)
  }

  // ----- runs -----

  datatype World = World(cache: Cache, disk: Disk, now: nat)

  datatype Step =
    | Load(id: Id, enabled: bool, stamp: nat, r: Result)
    | PeekAt(id: Id, enabled: bool)
    | Drop(which: Option<Id>)
    | Write(path: Id, version: Version)
    | Tick(elapsed: nat)

  ghost predicate Next(c: Config, w: World, step: Step, w': World) {
    match step
    case Load(id, enabled, stamp, r) =>
      && w.now <= stamp && w'.disk == w.disk && w'.now == stamp
      && LoadSpec(c, w.cache, id, enabled, Current(History(w.disk, id)), w.now, stamp, w'.cache, r)
    case PeekAt(_, _) => w' == w
    case Drop(which) => w' == w.(cache := Invalidated(w.cache, which))
    case Write(path, v) =>
      && v.since == w.now
      && w' == w.(disk := w.disk[path := History(w.disk, path) + [v]])
    case Tick(elapsed) => w' == w.(now := w.now + elapsed)
  }

  /** The entry was read from version `i`. */
  ghost predicate ReadFrom(c: Config, h: seq<Version>, e: Entry, i: nat) {
    ParseOf(c, h, i, e.spec) && h[i].file.value.mtime == e.mtime
  }

  /** The entry is the parse of version `j`, which stood on disk when the entry was stamped. */
  ghost predicate StampedAt(c: Config, h: seq<Version>, e: Entry, j: nat) {
    ParseOf(c, h, j, e.spec) && OnDiskAt(h, j, e.at)
  }

  /** Every entry was read from some version; and it was current when it was stamped, if modification
      times rise. */
  ghost predicate Faithful(c: Config, w: World, id: Id)
    requires id in w.cache
  {
    var h, e := History(w.disk, id), w.cache[id];
    && e.at <= w.now
    && (exists i: nat :: ReadFrom(c, h, e, i))
    && (Rising(c, Files(h)) ==> exists j: nat :: StampedAt(c, h, e, j))
  }

  ghost predicate Inv(c: Config, w: World) {
    && (forall id | id in w.disk :: InOrder(w.disk[id], w.now))
    && (forall id {:trigger Faithful(c, w, id)} | id in w.cache :: Faithful(c, w, id))
    && (|w.cache| <= c.maxSize || w.cache == map[])
  }

  /** An entry that is not older than the file on disk has the spec of that file, if times rise. */
  lemma NewestIsCurrent(c: Config, h: seq<Version>, e: Entry, i: nat)
    requires Rising(c, Files(h)) && ReadFrom(c, h, e, i) && Current(h).Some? && e.mtime >= Current(h).value.mtime
    ensures ParseOf(c, h, |h| - 1, e.spec)
  {
    var fs := Files(h);
    assert fs[i] == h[i].file && fs[|h| - 1] == h[|h| - 1].file;
    if i < |h| - 1 {
      assert !Differ(c, fs, i, |h| - 1);
    }
  }

  lemma LoadKeepsFaithful(c: Config, w: World, step: Step, w': World, k: Id)
    requires Inv(c, w) && step.Load? && Next(c, w, step, w') && k in w'.cache
    ensures Faithful(c, w', k)
  {
    var h := History(w.disk, k);
    if k in w.cache {
      assert Faithful(c, w, k);
    }
    if k !in w.cache || w'.cache[k] != w.cache[k] {
      assert k == step.id;
      if k in w.cache && w.cache[k].mtime >= Current(h).value.mtime {
        var i: nat :| ReadFrom(c, h, w.cache[k], i);
        assert ReadFrom(c, h, w'.cache[k], i);
        if Rising(c, Files(h)) {
          NewestIsCurrent(c, h, w.cache[k], i);
          assert StampedAt(c, h, w'.cache[k], |h| - 1);
        }
      } else {
        assert ReadFrom(c, h, w'.cache[k], |h| - 1) && StampedAt(c, h, w'.cache[k], |h| - 1);
      }
    }
  }

  lemma RisingPrefix(c: Config, fs: seq<Option<File>>, more: seq<Option<File>>)
    requires Rising(c, fs + more)
    ensures Rising(c, fs)
  {
    forall i: nat, j: nat | Differ(c, fs, i, j) ensures fs[i].value.mtime < fs[j].value.mtime {
      assert Differ(c, fs + more, i, j);
    }
  }

  lemma FilesAppend(h: seq<Version>, more: seq<Version>)
    ensures Files(h + more) == Files(h) + Files(more)
  {
  }

  lemma WriteKeepsFaithful(c: Config, w: World, path: Id, v: Version, k: Id)
    requires Inv(c, w) && k in w.cache && v.since == w.now
    ensures Faithful(c, w.(disk := w.disk[path := History(w.disk, path) + [v]]), k)
  {
    var w' := w.(disk := w.disk[path := History(w.disk, path) + [v]]);
    var h, h' := History(w.disk, k), History(w'.disk, k);
    assert Faithful(c, w, k);
    var i: nat :| ReadFrom(c, h, w.cache[k], i);
    assert h' == h || h' == h + [v];
    assert ReadFrom(c, h', w'.cache[k], i);
    if Rising(c, Files(h')) {
      FilesAppend(h, [v]);
      if h' == h + [v] {
        RisingPrefix(c, Files(h), Files([v]));
      }
      var j: nat :| StampedAt(c, h, w.cache[k], j);
      assert StampedAt(c, h', w'.cache[k], j);
    }
  }

  lemma SubCacheKeeps(c: Config, w: World, w': World, k: Id)
    requires Inv(c, w) && k in w'.cache && k in w.cache && w'.cache[k] == w.cache[k]
    requires w'.disk == w.disk && w.now <= w'.now
    ensures Faithful(c, w', k)
  {
    assert Faithful(c, w, k);
  }

  lemma LoadKeeps(c: Config, w: World, step: Step, w': World)
    requires Inv(c, w) && step.Load? && Next(c, w, step, w')
    ensures Inv(c, w')
  {
    forall k | k in w'.cache ensures Faithful(c, w', k) {
      LoadKeepsFaithful(c, w, step, w', k);
    }
  }

  lemma WriteKeeps(c: Config, w: World, path: Id, v: Version)
    requires Inv(c, w) && v.since == w.now
    ensures Inv(c, w.(disk := w.disk[path := History(w.disk, path) + [v]]))
  {
    forall k | k in w.cache ensures Faithful(c, w.(disk := w.disk[path := History(w.disk, path) + [v]]), k) {
      WriteKeepsFaithful(c, w, path, v, k);
    }
  }

  lemma StepKeeps(c: Config, w: World, step: Step, w': World)
    requires Inv(c, w) && Next(c, w, step, w')
    ensures Inv(c, w')
  {
    match step
    case Load(_, _, _, _) => LoadKeeps(c, w, step, w');
    case Write(path, v) => WriteKeeps(c, w, path, v);
    case _ =>
      forall k | k in w'.cache ensures Faithful(c, w', k) {
        SubCacheKeeps(c, w, w', k);
      }
  }

  ghost predicate Run(c: Config, ws: seq<World>, steps: seq<Step>) {
    && |ws| == |steps| + 1 && ws[0].cache == map[] && ws[0].disk == map[]
    && forall i | 0 <= i < |steps| :: Next(c, ws[i], steps[i], ws[i + 1])
  }

  lemma {:induction false} RunKeeps(c: Config, ws: seq<World>, steps: seq<Step>, i: nat)
    requires Run(c, ws, steps) && i < |ws|
    ensures Inv(c, ws[i])
  {
    if i > 0 {
      RunKeeps(c, ws, steps, i - 1);
      assert Next(c, ws[i - 1], steps[i - 1], ws[i - 1 + 1]);
      StepKeeps(c, ws[i - 1], steps[i - 1], ws[i]);
    }
  }

  // ----- what callers get -----

  lemma ServedFromCache(c: Config, w: World, id: Id)
    requires Inv(c, w) && Live(c, w.cache, id, w.now) && Rising(c, Files(History(w.disk, id)))
    ensures IsCurrent(c, History(w.disk, id), w.cache[id].spec, w.now, w.now)
  {
    assert Faithful(c, w, id);
    var j: nat :| StampedAt(c, History(w.disk, id), w.cache[id], j);
  }

  /** Over any interleaving of loads, invalidations, disk writes and time, a load of a domain whose
      modification times rise returns the parse of content that was on disk less than one time to live
      earlier, or at the end of the call. */
  lemma LoadIsCurrent(c: Config, ws: seq<World>, steps: seq<Step>, i: nat)
    requires Run(c, ws, steps) && i < |steps| && steps[i].Load? && steps[i].r.Loaded?
    requires Rising(c, Files(History(ws[i].disk, steps[i].id)))
    ensures IsCurrent(c, History(ws[i].disk, steps[i].id), steps[i].r.spec, ws[i].now, steps[i].stamp)
  {
    RunKeeps(c, ws, steps, i);
    assert Next(c, ws[i], steps[i], ws[i + 1]);
    var w, id, h := ws[i], steps[i].id, History(ws[i].disk, steps[i].id);
    if Live(c, w.cache, id, w.now) {
      assert Faithful(c, w, id);
      var j: nat :| StampedAt(c, h, w.cache[id], j);
    } else {
      if id in w.cache && w.cache[id].mtime >= Current(h).value.mtime {
        assert Faithful(c, w, id);
        var j: nat :| ReadFrom(c, h, w.cache[id], j);
        NewestIsCurrent(c, h, w.cache[id], j);
      }
      assert ParseOf(c, h, |h| - 1, steps[i].r.spec) && OnDiskAt(h, |h| - 1, steps[i].stamp);
    }
  }

  /** So does a lookup that needs no load. */
  lemma PeekIsCurrent(c: Config, ws: seq<World>, steps: seq<Step>, i: nat, id: Id, enabled: bool)
    requires Run(c, ws, steps) && i < |ws| && Rising(c, Files(History(ws[i].disk, id)))
    requires Peeked(c, ws[i].cache, id, enabled, ws[i].now).Some?
    ensures var r := Peeked(c, ws[i].cache, id, enabled, ws[i].now).value;
            r == Disabled || (r.Loaded? && IsCurrent(c, History(ws[i].disk, id), r.spec, ws[i].now, ws[i].now))
  {
    RunKeeps(c, ws, steps, i);
    if enabled {
      ServedFromCache(c, ws[i], id);
    }
  }

  /** The cache never outgrows its bound, and only an entry with the oldest stamp is evicted, one at
      a time, to make room for a new id. */
  lemma BoundedAndEvictsOldest(c: Config, ws: seq<World>, steps: seq<Step>, i: nat)
    requires Run(c, ws, steps) && i < |steps| && steps[i].Load?
    ensures |ws[i].cache| <= c.maxSize || ws[i].cache == map[]
    ensures forall k | k in ws[i].cache && k !in ws[i + 1].cache ::
              IsOldest(ws[i].cache, k) && |ws[i].cache| >= c.maxSize && steps[i].id !in ws[i].cache
    ensures forall k, l | k in ws[i].cache && l in ws[i].cache && k !in ws[i + 1].cache && l !in ws[i + 1].cache ::
            k == l
  {
    RunKeeps(c, ws, steps, i);
    assert Next(c, ws[i], steps[i], ws[i + 1]);
  }

  /** A load leaves its result in the cache, stamped at its end unless it was served live, and
      touches no other entry that it keeps. */
  lemma LoadFillsCache(c: Config, cache: Cache, id: Id, file: Option<File>, now: nat, stamp: nat, cache': Cache,
                       r: Result)
    requires LoadSpec(c, cache, id, true, file, now, stamp, cache', r) && r.Loaded?
    ensures id in cache' && cache'[id].spec == r.spec
    ensures if Live(c, cache, id, now) then cache' == cache else cache'[id].at == stamp
    ensures forall k | k in cache' && k != id :: k in cache && cache'[k] == cache[k]
    ensures forall later: nat | later - cache'[id].at < c.ttl :: Peeked(c, cache', id, true, later) == Some(r)
  {
  }

  /** A good file that is not cached can be loaded exactly when the bound is at least one. */
  lemma LoadsExactlyWithRoom(c: Config, w: World, step: Step, w': World)
    requires Inv(c, w) && step.Load? && Next(c, w, step, w') && step.enabled && step.id !in w.cache
    requires var f := Current(History(w.disk, step.id)); f.Some? && c.parse(f.value.content).Some?
    ensures step.r.Loaded? <==> c.maxSize >= 1
    ensures step.r.Loaded? || step.r == NoRoom
  {
  }

  /** Which call ends how: what a refusal means, and that a refusal leaves the cache alone. */
  lemma LoadOutcomes(c: Config, cache: Cache, id: Id, enabled: bool, file: Option<File>, now: nat, stamp: nat,
                     cache': Cache, r: Result)
    requires LoadSpec(c, cache, id, enabled, file, now, stamp, cache', r)
    ensures r == Disabled <==> !enabled
    ensures r == NotFound <==> enabled && file.None?
    ensures r == BadSpec <==>
              && enabled && file.Some? && c.parse(file.value.content).None?
              && (id in cache ==> now - cache[id].at >= c.ttl && cache[id].mtime < file.value.mtime)
    ensures r == NoRoom <==>
              && enabled && file.Some? && c.parse(file.value.content).Some? && cache == map[] && c.maxSize < 1
    ensures r.Loaded? || cache' == cache
    ensures r.Loaded? && (id in cache ==> now - cache[id].at >= c.ttl && cache[id].mtime < file.value.mtime) ==>
              c.parse(file.value.content) == Some(r.spec)
    ensures r.Loaded? && id in cache && (now - cache[id].at < c.ttl || cache[id].mtime >= file.value.mtime) ==>
              r.spec == cache[id].spec
  {
  }

  // ----- what invalidation promises -----

  /** The step invalidates `id`, by name or with everything else. */
  ghost predicate Drops(step: Step, id: Id) {
    step.Drop? && (step.which.None? || step.which.value == "" || step.which.value == id)
  }

  ghost predicate Loads(step: Step, id: Id) {
    step.Load? && step.id == id && step.enabled
  }

  lemma {:induction false} StaysOut(c: Config, ws: seq<World>, steps: seq<Step>, i: nat, j: nat, id: Id)
    requires Run(c, ws, steps) && i < j < |ws| && Drops(steps[i], id)
    requires forall m | i < m < j :: !Loads(steps[m], id)
    ensures id !in ws[j].cache
  {
    if i + 1 < j {
      StaysOut(c, ws, steps, i, j - 1, id);
    }
    assert Next(c, ws[j - 1], steps[j - 1], ws[j - 1 + 1]);
  }

  /** The first load after an invalidation reads the disk: it returns the parse of the file that stands
      there during the load, or its error, whatever the time to live and the modification time. */
  lemma FirstLoadAfterDrop(c: Config, ws: seq<World>, steps: seq<Step>, i: nat, j: nat, id: Id)
    requires Run(c, ws, steps) && i < j < |steps| && Drops(steps[i], id) && Loads(steps[j], id)
    requires forall m | i < m < j :: !Loads(steps[m], id)
    ensures var file := Current(History(ws[j].disk, id));
            if file.None? then steps[j].r == NotFound
            else
              var spec := c.parse(file.value.content);
              if spec.None? then steps[j].r == BadSpec
              else steps[j].r == if c.maxSize >= 1 then Loaded(spec.value) else NoRoom
  {
    StaysOut(c, ws, steps, i, j, id);
    RunKeeps(c, ws, steps, j);
    assert Next(c, ws[j], steps[j], ws[j + 1]);
    LoadOutcomes(c, ws[j].cache, id, true, Current(History(ws[j].disk, id)), ws[j].now, steps[j].stamp,
                 ws[j + 1].cache, steps[j].r);
  }

  // ----- exactly when loads are current -----

  /** Whatever else happens, every load of `id` in a run that writes these files is current. */
  ghost predicate AlwaysCurrent(c: Config, id: Id, fs: seq<Option<File>>) {
    forall ws: seq<World>, steps: seq<Step>, i: nat {:trigger LoadOf(ws, steps, i, id), Run(c, ws, steps)} ::
      Run(c, ws, steps) && Files(History(ws[|ws| - 1].disk, id)) == fs && LoadOf(ws, steps, i, id) ==>
        IsCurrent(c, History(ws[i].disk, id), steps[i].r.spec, ws[i].now, steps[i].stamp)
  }

  ghost predicate LoadOf(ws: seq<World>, steps: seq<Step>, i: nat, id: Id) {
    |ws| == |steps| + 1 && i < |steps| && steps[i].Load? && steps[i].id == id && steps[i].r.Loaded?
  }

  lemma {:induction false} HistoryGrows(c: Config, ws: seq<World>, steps: seq<Step>, i: nat, j: nat, id: Id)
    requires Run(c, ws, steps) && i <= j < |ws|
    ensures History(ws[i].disk, id) <= History(ws[j].disk, id)
  {
    if i < j {
      HistoryGrows(c, ws, steps, i, j - 1, id);
      assert Next(c, ws[j - 1], steps[j - 1], ws[j - 1 + 1]);
    }
  }

  lemma RisingSoFar(c: Config, ws: seq<World>, steps: seq<Step>, i: nat, id: Id)
    requires Run(c, ws, steps) && i < |ws| && Rising(c, Files(History(ws[|ws| - 1].disk, id)))
    ensures Rising(c, Files(History(ws[i].disk, id)))
  {
    var h, whole := History(ws[i].disk, id), History(ws[|ws| - 1].disk, id);
    HistoryGrows(c, ws, steps, i, |ws| - 1, id);
    assert whole == h + whole[|h|..];
    FilesAppend(h, whole[|h|..]);
    RisingPrefix(c, Files(h), Files(whole[|h|..]));
  }

  lemma StepRun(c: Config, ws: seq<World>, steps: seq<Step>, step: Step, w': World)
    requires Run(c, ws, steps) && Next(c, ws[|ws| - 1], step, w')
    ensures Run(c, ws + [w'], steps + [step])
  {
    var ws', steps' := ws + [w'], steps + [step];
    forall i | 0 <= i < |steps'| ensures Next(c, ws'[i], steps'[i], ws'[i + 1]) {
      if i < |steps| {
        assert ws'[i] == ws[i] && ws'[i + 1] == ws[i + 1];
      }
    }
  }

  function Versions(fs: seq<Option<File>>, since: nat): (h: seq<Version>)
    ensures |h| == |fs| && forall i | 0 <= i < |fs| :: h[i] == Version(fs[i], since)
  {
    if fs == [] then [] else Versions(fs[..|fs| - 1], since) + [Version(fs[|fs| - 1], since)]
  }

  /** The world after `fs` was written to `id` at one moment. */
  function Written(w: World, id: Id, fs: seq<Option<File>>): World {
    w.(disk := w.disk[id := History(w.disk, id) + Versions(fs, w.now)])
  }

  lemma WrittenLast(w: World, id: Id, fs: seq<Option<File>>)
    requires fs != []
    ensures var before := Written(w, id, fs[..|fs| - 1]);
            Written(w, id, fs).disk == before.disk[id := History(before.disk, id) + [Version(fs[|fs| - 1], w.now)]]
  {
    var h, init, v := History(w.disk, id), Versions(fs[..|fs| - 1], w.now), Version(fs[|fs| - 1], w.now);
    assert h + (init + [v]) == h + init + [v];
  }

  lemma {:induction false} WriteRun(c: Config, ws: seq<World>, steps: seq<Step>, id: Id, fs: seq<Option<File>>)
    returns (ws': seq<World>, steps': seq<Step>)
    requires Run(c, ws, steps) && id in ws[|ws| - 1].disk
    ensures Run(c, ws', steps') && ws <= ws' && steps <= steps'
    ensures ws'[|ws'| - 1] == Written(ws[|ws| - 1], id, fs)
  {
    var w := ws[|ws| - 1];
    if fs == [] {
      ws', steps' := ws, steps;
      assert History(w.disk, id) + [] == w.disk[id];
      assert w.disk[id := w.disk[id]] == w.disk;
    } else {
      var init, v := fs[..|fs| - 1], Version(fs[|fs| - 1], w.now);
      ws', steps' := WriteRun(c, ws, steps, id, init);
      WrittenLast(w, id, fs);
      StepRun(c, ws', steps', Write(id, v), Written(w, id, fs));
      ws', steps' := ws' + [Written(w, id, fs)], steps' + [Write(id, v)];
    }
  }

  /** Written at moment 0 as the last of several files, the current one does not parse to the spec of an
      entry that is one time to live old. */
  lemma NotCurrent(c: Config, h: seq<Version>, spec: Spec, wait: nat)
    requires h != [] && (forall i | 0 <= i < |h| :: h[i].since == 0) && wait >= 1 && wait >= c.ttl
    requires !ParseOf(c, h, |h| - 1, spec)
    ensures !IsCurrent(c, h, spec, wait, wait)
  {
    forall i: nat, t: nat | ParseOf(c, h, i, spec) && OnDiskAt(h, i, t) ensures t == 0 {
      assert i + 1 < |h|;
    }
  }

  lemma VersionsAppend(a: seq<Option<File>>, b: seq<Option<File>>, since: nat)
    ensures Versions(a, since) + Versions(b, since) == Versions(a + b, since)
  {
  }

  /** A run that does nothing but write files to one path. */
  lemma FirstWrites(c: Config, id: Id, fs: seq<Option<File>>) returns (ws: seq<World>, steps: seq<Step>)
    requires fs != []
    ensures Run(c, ws, steps) && ws[|ws| - 1] == World(map[], map[id := Versions(fs, 0)], 0)
  {
    var first := Version(fs[0], 0);
    var empty, start := World(map[], map[], 0), World(map[], map[id := [first]], 0);
    assert [] + [first] == [first];
    StepRun(c, [empty], [], Write(id, first), start);
    ws, steps := WriteRun(c, [empty] + [start], [] + [Write(id, first)], id, fs[1..]);
    assert [first] + Versions(fs[1..], 0) == Versions(fs, 0);
    assert map[id := [first]][id := Versions(fs, 0)] == map[id := Versions(fs, 0)];
  }

  /** A run that writes files up to `i`, loads, writes on to the last file, and waits. */
  lemma LoadThenWrite(c: Config, id: Id, fs: seq<Option<File>>, i: nat, wait: nat)
    returns (ws: seq<World>, steps: seq<Step>)
    requires c.maxSize >= 1 && i < |fs| && fs[i].Some? && c.parse(fs[i].value.content).Some?
    ensures Run(c, ws, steps)
    ensures var e := Entry(c.parse(fs[i].value.content).value, fs[i].value.mtime, 0);
            ws[|ws| - 1] == World(map[id := e], map[id := Versions(fs, 0)], wait)
  {
    var spec, first, rest := c.parse(fs[i].value.content).value, fs[..i + 1], fs[i + 1..];
    var load := Load(id, true, 0, Loaded(spec));
    ws, steps := FirstWrites(c, id, first);
    var loaded := World(map[id := Entry(spec, fs[i].value.mtime, 0)], map[id := Versions(first, 0)], 0);
    StepRun(c, ws, steps, load, loaded);
    ws, steps := WriteRun(c, ws + [loaded], steps + [load], id, rest);
    VersionsAppend(first, rest, 0);
    assert first + rest == fs;
    var written := loaded.(disk := map[id := Versions(fs, 0)]);
    assert Written(loaded, id, rest) == written;
    StepRun(c, ws, steps, Tick(wait), written.(now := wait));
    ws, steps := ws + [written.(now := wait)], steps + [Tick(wait)];
  }

  /** The load that follows is served from the entry, which is not older than the file on disk. */
  lemma LoadAgain(c: Config, id: Id, h: seq<Version>, e: Entry, wait: nat)
    requires wait - e.at >= c.ttl && Current(h).Some? && e.mtime >= Current(h).value.mtime
    ensures Next(c, World(map[id := e], map[id := h], wait), Load(id, true, wait, Loaded(e.spec)),
                 World(map[id := e.(at := wait)], map[id := h], wait))
  {
    assert map[id := e][id := e.(at := wait)] == map[id := e.(at := wait)];
  }

  /** A run with a stale load: load file `i`, write on to file `j`, wait, load again, write the rest. */
  lemma StaleRun(c: Config, id: Id, fs: seq<Option<File>>, i: nat, j: nat)
    returns (ws: seq<World>, steps: seq<Step>, at: nat)
    requires c.maxSize >= 1 && Differ(c, fs, i, j) && fs[i].value.mtime >= fs[j].value.mtime
    ensures Run(c, ws, steps) && Files(History(ws[|ws| - 1].disk, id)) == fs && LoadOf(ws, steps, at, id)
    ensures !IsCurrent(c, History(ws[at].disk, id), steps[at].r.spec, ws[at].now, steps[at].stamp)
  {
    var spec, wait := c.parse(fs[i].value.content).value, if c.ttl >= 1 then c.ttl else 1;
    var e, h, rest := Entry(spec, fs[i].value.mtime, 0), Versions(fs[..j + 1], 0), fs[j + 1..];
    var w', load := World(map[id := e.(at := wait)], map[id := h], wait), Load(id, true, wait, Loaded(spec));
    ws, steps := LoadThenWrite(c, id, fs[..j + 1], i, wait);
    at := |steps|;
    assert Current(h) == fs[j];
    LoadAgain(c, id, h, e, wait);
    StepRun(c, ws, steps, load, w');
    ws, steps := WriteRun(c, ws + [w'], steps + [load], id, rest);
    NotCurrent(c, h, spec, wait);
    assert Files(h + Versions(rest, wait)) == fs;
  }

  /** All loads, in all runs that write these files, are current exactly when modification times rise with
      every change of the spec; or when the cache has no room, since nothing is loaded then. */
  lemma CurrentExactlyWhenRising(c: Config, id: Id, fs: seq<Option<File>>)
    ensures AlwaysCurrent(c, id, fs) <==> c.maxSize < 1 || Rising(c, fs)
  {
    forall ws: seq<World>, steps: seq<Step>, i: nat
      | Run(c, ws, steps) && Files(History(ws[|ws| - 1].disk, id)) == fs && LoadOf(ws, steps, i, id)
      ensures c.maxSize >= 1
      ensures Rising(c, fs) ==> IsCurrent(c, History(ws[i].disk, id), steps[i].r.spec, ws[i].now, steps[i].stamp)
    {
      RunKeeps(c, ws, steps, i);
      assert Next(c, ws[i], steps[i], ws[i + 1]);
      if Rising(c, fs) {
        RisingSoFar(c, ws, steps, i, id);
        LoadIsCurrent(c, ws, steps, i);
      }
    }
    if c.maxSize >= 1 && !Rising(c, fs) {
      var i: nat, j: nat :| Differ(c, fs, i, j) && fs[i].value.mtime >= fs[j].value.mtime;
      var ws, steps, at := StaleRun(c, id, fs, i, j);
    }
  }

  /** Once a file is put back with an older modification time, a load serves the old spec for ever, though
      the content has been on disk for any length of time. */
  lemma RewoundMtimeServesStale(c: Config, id: Id, before: string, after: string, spec: Spec, wait: nat)
    requires c.parse(before) == Some(spec) && c.parse(after) != Some(spec) && c.ttl <= wait
    ensures var h := [Version(Some(File(before, 2)), 0), Version(Some(File(after, 1)), 0)];
            var cache := map[id := Entry(spec, 2, 0)];
            && (exists i: nat :: ReadFrom(c, h, cache[id], i) && StampedAt(c, h, cache[id], i))
            && LoadSpec(c, cache, id, true, Current(h), wait + 1, wait + 1, cache[id := Entry(spec, 2, wait + 1)],
                        Loaded(spec))
            && !IsCurrent(c, h, spec, wait + 1, wait + 1)
  {
    var h := [Version(Some(File(before, 2)), 0), Version(Some(File(after, 1)), 0)];
    var cache := map[id := Entry(spec, 2, 0)];
    assert ReadFrom(c, h, cache[id], 0) && StampedAt(c, h, cache[id], 0);
    assert cache[id := Entry(spec, 2, wait + 1)] == cache[id := cache[id].(at := wait + 1)];
    forall i: nat, t: nat | ParseOf(c, h, i, spec) && OnDiskAt(h, i, t) ensures t == 0 {
      assert i == 0;
    }
  }
}
