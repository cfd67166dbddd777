/** The record a complete pruned pass leaves, and the prune behind it (src/sampleextract/cli.py,
    src/sampleextract/prune.py).

    A listing and its digest are taken at one moment. The digest is a parameter, a function of each listed path's stamp:
    the file's size and write time (src/samplecore/digests.py). It tells nothing of what the files hold. */
module Collections {
  type Hash = nat
  type Path = nat
  type Stamp = nat
  type Digest = nat

  /** One version of a module file: its content's hash, its size and write time, whether it can be read, and whether it
      ingests. */
  datatype File = File(hash: Hash, stamp: Stamp, readable: bool, ingests: bool)

  type Files = map<Path, File>

  type Stamps = map<Path, Stamp>

  /** The files under the source directory that can be listed, and whether some folder cannot. */
  datatype World = World(files: Files, unreadableFolders: bool)

  function StampsOf(files: Files): Stamps {
    map p | p in files :: files[p].stamp
  }

  function Present(files: Files, paths: set<Path>): set<Hash> {
    set p | p in paths && p in files && files[p].readable :: files[p].hash
  }

  function Ingestible(files: Files, paths: set<Path>): set<Hash> {
    set p | p in paths && p in files && files[p].readable && files[p].ingests :: files[p].hash
  }

  predicate AllReadable(files: Files, paths: set<Path>) {
    forall p :: p in paths && p in files ==> files[p].readable
  }

  /** What a full pruned pass over a collection makes of a catalog: what ingests is added, what no file holds
      removed. */
  function FullPass(catalog: set<Hash>, files: Files): set<Hash> {
    (catalog + Ingestible(files, files.Keys)) * Present(files, files.Keys)
  }

  ghost predicate Injective(digest: Stamps -> Digest) {
    forall a, b :: digest(a) == digest(b) ==> a == b
  }

  /** Each path that carries its recorded stamp still has its recorded content. */
  predicate StampsTell(recorded: Files, now: Files) {
    forall p :: p in recorded && p in now && recorded[p].stamp == now[p].stamp ==> recorded[p] == now[p]
  }

  lemma ToldApart(recorded: Files, now: Files)
    requires StampsOf(recorded) == StampsOf(now) && StampsTell(recorded, now)
    ensures recorded == now
  {
    forall p
      ensures p in recorded <==> p in now
      ensures p in recorded ==> recorded[p] == now[p]
    {
      assert p in recorded <==> p in StampsOf(recorded);
      assert p in now <==> p in StampsOf(now);
      if p in recorded {
        assert StampsOf(recorded)[p] == StampsOf(now)[p];
      }
    }
  }

  /** Another full pruned pass changes nothing, and a catalog stays as it is exactly between what ingests and what is
      present. */
  lemma FullPassesSettle(catalog: set<Hash>, files: Files)
    ensures FullPass(FullPass(catalog, files), files) == FullPass(catalog, files)
    ensures FullPass(catalog, files) == catalog <==>
      Ingestible(files, files.Keys) <= catalog <= Present(files, files.Keys)
  {
    assert Ingestible(files, files.Keys) <= Present(files, files.Keys);
  }

  /** Of the files there now nothing ingests that did not when recorded, and all that was present still is. */
  predicate NothingIsMissed(recorded: Files, now: Files) {
    && Ingestible(now, now.Keys) <= Ingestible(recorded, recorded.Keys)
    && Present(recorded, recorded.Keys) <= Present(now, now.Keys)
  }

  /** Whatever catalog a record may stand beside, a full pruned pass over the files there now leaves it as it is,
      exactly if nothing is missed. */
  lemma RecordsHoldExactlyWhenNothingIsMissed(recorded: Files, now: Files)
    ensures (forall catalog :: FullPass(catalog, recorded) == catalog ==> FullPass(catalog, now) == catalog) <==>
      NothingIsMissed(recorded, now)
  {
    var least, most := Ingestible(recorded, recorded.Keys), Present(recorded, recorded.Keys);
    assert least <= most;
    forall catalog
      ensures FullPass(catalog, recorded) == catalog <==> least <= catalog <= most
      ensures FullPass(catalog, now) == catalog <==>
        Ingestible(now, now.Keys) <= catalog <= Present(now, now.Keys)
    {
      FullPassesSettle(catalog, recorded);
      FullPassesSettle(catalog, now);
    }
    assert FullPass(least, recorded) == least && FullPass(most, recorded) == most;
    hide *;
  }

  lemma OneMoreRead(files: Files, paths: set<Path>, p: Path)
    requires p in files
    ensures Present(files, paths + {p}) == Present(files, paths) + if files[p].readable then {files[p].hash} else {}
    ensures Ingestible(files, paths + {p})
         == Ingestible(files, paths) + if files[p].readable && files[p].ingests then {files[p].hash} else {}
    ensures AllReadable(files, paths + {p}) <==> AllReadable(files, paths) && files[p].readable
  {
  }
}

/** One pass alone, run to its end. */
module ExtractionCommand {
  import opened Options
  import opened Collections

  datatype Status = NothingToDo | Extracted | PrunedAndRecorded | PruneRefused

  class Library {
    var modules: set<Hash>
    var record: Option<Digest>

    constructor (modules: set<Hash>)
      ensures this.modules == modules && record == None
    {
      this.modules, this.record := modules, None;
    }

    /** Ingests every file of the listing, over a collection that stays as it was listed. */
    method Extract(files: Files) returns (present: set<Hash>, missed: bool)
      modifies `modules
      ensures modules == old(modules) + Ingestible(files, files.Keys)
      ensures present == Present(files, files.Keys)
      ensures missed <==> !AllReadable(files, files.Keys)
    {
      present, missed := {}, false;
      var remaining := files.Keys;
      while remaining != {}
        invariant remaining <= files.Keys
        invariant modules == old(modules) + Ingestible(files, files.Keys - remaining)
        invariant present == Present(files, files.Keys - remaining)
        invariant missed <==> !AllReadable(files, files.Keys - remaining)
      {
        var p :| p in remaining;
        OneMoreRead(files, files.Keys - remaining, p);
        assert files.Keys - (remaining - {p}) == files.Keys - remaining + {p};
        if !files[p].readable {
          missed := true;
        } else {
          present := present + {files[p].hash};
          if files[p].hash !in modules && files[p].ingests {
            modules := modules + {files[p].hash};
          }
        }
        remaining := remaining - {p};
      }
      assert files.Keys - remaining == files.Keys;
    }

    /** The command: the early return, or the pass, and where asked the prune and the record. */
    method Run(world: World, digest: Stamps -> Digest, prune: bool, force: bool) returns (status: Status)
      modifies this
      ensures status == NothingToDo <==> !force && old(record) == Some(digest(StampsOf(world.files)))
      ensures status == NothingToDo ==> modules == old(modules) && record == old(record)
      ensures status == Extracted || status == PruneRefused ==>
        modules == old(modules) + Ingestible(world.files, world.files.Keys) && record == None
      ensures status == PrunedAndRecorded ==>
        modules == FullPass(old(modules), world.files) && record == Some(digest(StampsOf(world.files)))
      ensures status != NothingToDo ==> (status == Extracted <==> !prune)
      ensures status != NothingToDo && prune ==>
        (status == PruneRefused <==>
           (exists p :: p in world.files && !world.files[p].readable) || world.unreadableFolders
           || (world.files == map[] && old(modules) != {}))
      // No module some file still holds is removed, and none at all while some file or folder went unread, or over no
      // file; nor does a pass that goes ahead to prune leave a record then.
      ensures forall p :: p in world.files && world.files[p].hash in old(modules) ==> world.files[p].hash in modules
      ensures (exists p :: p in world.files && !world.files[p].readable) ==>
        old(modules) <= modules && (status != NothingToDo && prune ==> record == None)
      ensures world.unreadableFolders ==>
        old(modules) <= modules && (status != NothingToDo && prune ==> record == None)
      ensures world.files == map[] ==>
        old(modules) <= modules && (status != NothingToDo && prune && old(modules) != {} ==> record == None)
      // A module is cataloged where it was, unless the prune found no file of it, or where a readable file of it
      // ingests.
      ensures status != NothingToDo ==> forall h :: h in modules <==>
        || (exists p :: p in world.files && world.files[p] == File(h, world.files[p].stamp, true, true))
        || (h in old(modules) &&
              (status != PrunedAndRecorded || exists p :: p in world.files && world.files[p].hash == h))
    {
      var listed := digest(StampsOf(world.files));
      if !force && record == Some(listed) {
        return NothingToDo;
      }
      record := None;
      var present, missed := Extract(world.files);
      if !prune {
        return Extracted;
      }
      if missed || world.unreadableFolders || (world.files == map[] && modules != {}) {
        return PruneRefused;
      }
      modules := modules - (modules - present);
      record := Some(listed);
      status := PrunedAndRecorded;
    }
  }
}

/** Any number of passes over one catalog while the collection changes under them, each stopped at any step. */
module PruningPasses {
  import opened Options
  import opened Collections

  /** A pass's listing, and whether every file it has read since was there as listed. */
  datatype Listing = Listing(files: Files, unreadableFolders: bool, digest: Digest, asListed: bool)

  datatype Phase =
    | Idle
    | Listed(listing: Listing)
    | Extracting(listing: Listing, start: set<Hash>, remaining: set<Path>, present: set<Hash>, missed: bool)
    | Extracted(listing: Listing, start: set<Hash>, present: set<Hash>, missed: bool)
    | Condemning(listing: Listing, start: set<Hash>, present: set<Hash>, gone: set<Hash>)
    | Pruned(listing: Listing, start: set<Hash>)

  /** Beside the collection, the catalog, the record and the passes, what a run has been through: the listing behind the
      record, and the stamps each path has carried and left. */
  datatype State = State(world: World, catalog: set<Hash>, record: Option<Digest>, passes: seq<Phase>,
                         recordedOver: Files, left: set<(Path, Stamp)>)

  datatype Move =
    | Changing(world: World)
    | Stopping(i: nat)
    | List(i: nat)
    | Decide(i: nat, force: bool)
    | Read(i: nat, path: Path)
    | Finish(i: nat)
    | Condemn(i: nat)
    | Prune(i: nat)
    | Record(i: nat)

  predicate Enabled(s: State, m: Move) {
    match m
    case Changing(_) => true
    case Stopping(i) => i < |s.passes|
    case List(i) => i < |s.passes| && s.passes[i].Idle?
    case Decide(i, _) => i < |s.passes| && s.passes[i].Listed?
    case Read(i, path) => i < |s.passes| && s.passes[i].Extracting? && path in s.passes[i].remaining
    case Finish(i) => i < |s.passes| && s.passes[i].Extracting? && s.passes[i].remaining == {}
    case Condemn(i) => i < |s.passes| && s.passes[i].Extracted?
    case Prune(i) => i < |s.passes| && s.passes[i].Condemning?
    case Record(i) => i < |s.passes| && s.passes[i].Pruned?
  }

  /** The stamps of files changed, replaced or removed. */
  function LeftBehind(before: Files, after: Files): set<(Path, Stamp)> {
    set p | p in before && (p !in after || after[p] != before[p]) :: (p, before[p].stamp)
  }

  /** Whether the lock extraction holds in shared mode is free to be claimed alone. */
  ghost predicate LockIsFree(s: State) {
    forall p :: p in s.passes ==> !p.Extracting?
  }

  predicate IsAsListed(s: State, l: Listing, path: Path) {
    l.asListed && path in s.world.files && path in l.files && s.world.files[path] == l.files[path]
  }

  ghost function Moved(s: State, m: Move, digest: Stamps -> Digest): State
    requires Enabled(s, m)
  {
    match m
    case Changing(world) => s.(world := world, left := s.left + LeftBehind(s.world.files, world.files))
    case Stopping(i) => s.(passes := s.passes[i := Idle])
    case List(i) =>
      var listing := Listing(s.world.files, s.world.unreadableFolders, digest(StampsOf(s.world.files)), true);
      s.(passes := s.passes[i := Listed(listing)])
    case Decide(i, force) =>
      var listing := s.passes[i].listing;
      if !force && s.record == Some(listing.digest) then s.(passes := s.passes[i := Idle])
      else s.(record := None, passes := s.passes[i := Extracting(listing, s.catalog, listing.files.Keys, {}, false)])
    case Read(i, path) =>
      var p := s.passes[i];
      var listing := p.listing.(asListed := IsAsListed(s, p.listing, path));
      if path !in s.world.files || !s.world.files[path].readable
      then s.(passes := s.passes[i := p.(listing := listing, remaining := p.remaining - {path}, missed := true)])
      else
        var file := s.world.files[path];
        var read := p.(listing := listing, remaining := p.remaining - {path}, present := p.present + {file.hash});
        s.(catalog := s.catalog + (if file.ingests then {file.hash} else {}), passes := s.passes[i := read])
    case Finish(i) =>
      var p := s.passes[i];
      s.(passes := s.passes[i := Extracted(p.listing, p.start, p.present, p.missed)])
    case Condemn(i) =>
      var p := s.passes[i];
      if p.missed || p.listing.unreadableFolders || (p.listing.files == map[] && s.catalog != {})
      then s.(passes := s.passes[i := Idle])
      else s.(passes := s.passes[i := Condemning(p.listing, p.start, p.present, s.catalog - p.present)])
    case Prune(i) =>
      var p := s.passes[i];
      if LockIsFree(s) then s.(catalog := s.catalog - p.gone, passes := s.passes[i := Pruned(p.listing, p.start)])
      else s.(passes := s.passes[i := Idle])
    case Record(i) =>
      var p := s.passes[i];
      if digest(StampsOf(s.world.files)) == p.listing.digest
      then s.(record := Some(p.listing.digest), recordedOver := p.listing.files, passes := s.passes[i := Idle])
      else s.(passes := s.passes[i := Idle])
  }

  // ------------------------------------------------------------------ what each move changes

  /** Wherever a pass stands it can go on, and it can be stopped. */
  lemma EveryPassCanGoOn(s: State, i: nat, force: bool) returns (m: Move)
    requires i < |s.passes|
    ensures Enabled(s, m) && Enabled(s, Stopping(i)) && (Enabled(s, List(i)) <==> s.passes[i].Idle?)
    ensures match s.passes[i]
            case Idle => m == List(i)
            case Listed(_) => m == Decide(i, force)
            case Extracting(_, _, remaining, _, _) =>
              if remaining == {} then m == Finish(i) else m.Read? && m.i == i && m.path in remaining
            case Extracted(_, _, _, _) => m == Condemn(i)
            case Condemning(_, _, _, _) => m == Prune(i)
            case Pruned(_, _) => m == Record(i)
  {
    match s.passes[i]
    case Idle => m := List(i);
    case Listed(_) => m := Decide(i, force);
    case Extracting(_, _, remaining, _, _) =>
      if remaining == {} {
        m := Finish(i);
      } else {
        var path :| path in remaining;
        m := Read(i, path);
      }
    case Extracted(_, _, _, _) => m := Condemn(i);
    case Condemning(_, _, _, _) => m := Prune(i);
    case Pruned(_, _) => m := Record(i);
  }

  /** A module enters the catalog where a pass reads a file of it that ingests, and modules leave it where a pass prunes
      while no pass is extracting; nothing else changes it. */
  lemma OnlyReadsAndPrunesChangeTheCatalog(s: State, m: Move, digest: Stamps -> Digest)
    requires Enabled(s, m)
    ensures var files, after := s.world.files, Moved(s, m, digest).catalog;
      match m
      case Read(_, path) =>
        after == if path in files && files[path].readable && files[path].ingests then s.catalog + {files[path].hash}
          else s.catalog
      case Prune(i) =>
        after == if forall j :: 0 <= j < |s.passes| ==> !s.passes[j].Extracting? then s.catalog - s.passes[i].gone
          else s.catalog
      case _ => after == s.catalog
    ensures Moved(s, m, digest).world == if m.Changing? then m.world else s.world
    ensures |Moved(s, m, digest).passes| == |s.passes|
    ensures forall j :: 0 <= j < |s.passes| && (m.Changing? || j != m.i) ==>
      Moved(s, m, digest).passes[j] == s.passes[j]
  {
    if m.Prune? {
      assert (forall j :: 0 <= j < |s.passes| ==> !s.passes[j].Extracting?) <==> LockIsFree(s);
    }
  }

  /** The record goes where a pass goes ahead, which it does exactly if it is forced or the record is not of its
      listing; and a record is left, of the listing a pass began with, exactly where the collection digests so once it
      pruned. */
  lemma OnlyDecidingAndRecordingChangeTheRecord(s: State, m: Move, digest: Stamps -> Digest)
    requires Enabled(s, m)
    ensures var s' := Moved(s, m, digest);
      match m
      case Decide(i, force) =>
        var listing := s.passes[i].listing;
        if force || s.record != Some(listing.digest)
        then s'.record == None
          && s'.passes[i] == Extracting(listing, s.catalog, set path | path in listing.files, {}, false)
        else s'.record == s.record && s'.passes[i] == Idle
      case Record(i) =>
        s'.record == if digest(StampsOf(s.world.files)) == s.passes[i].listing.digest
          then Some(s.passes[i].listing.digest) else s.record
      case _ => s'.record == s.record
  {
    if m.Decide? {
      assert (set path | path in s.passes[m.i].listing.files) == s.passes[m.i].listing.files.Keys;
    }
  }

  // ------------------------------------------------------------------ whatever the others do

  /** In every state, what a pass has condemned holds no module whose file it read. */
  ghost predicate SparesWhatWasRead(s: State) {
    forall p :: p in s.passes && p.Condemning? ==> p.gone !! p.present
  }

  lemma PrunesSpareWhatWasRead(s: State, m: Move, digest: Stamps -> Digest)
    requires SparesWhatWasRead(s) && Enabled(s, m)
    ensures SparesWhatWasRead(Moved(s, m, digest))
    ensures m.Prune? ==> s.catalog * s.passes[m.i].present <= Moved(s, m, digest).catalog
  {
    var s' := Moved(s, m, digest);
    forall p | p in s'.passes && p.Condemning?
      ensures p.gone !! p.present
    {
      assert p in s.passes || (m.Condemn? && p == s'.passes[m.i]);
    }
    if m.Prune? {
      assert s.passes[m.i] in s.passes;
    }
  }

  // ------------------------------------------------------------------ one pass at a time

  ghost predicate Alone(s: State) {
    forall i, j ::
      0 <= i < |s.passes| && 0 <= j < |s.passes| && !s.passes[i].Idle? && !s.passes[j].Idle? ==> i == j
  }

  /** A pass whose second listing digests as its first found every file as listed when it read it. */
  ghost predicate ChangesShow(s: State, m: Move, digest: Stamps -> Digest) {
    m.Record? && m.i < |s.passes| && s.passes[m.i].Pruned?
    && digest(StampsOf(s.world.files)) == s.passes[m.i].listing.digest ==>
      s.passes[m.i].listing.asListed
  }

  // Where the one pass stands, while every file it read was as listed.
  ghost predicate OnCourse(s: State, p: Phase, digest: Stamps -> Digest) {
    !p.Idle? ==>
      var l := p.listing;
      && l.digest == digest(StampsOf(l.files))
      && match p
         case Extracting(_, start, remaining, present, _) =>
           remaining <= l.files.Keys
           && (l.asListed ==>
                 && present == Present(l.files, l.files.Keys - remaining)
                 && s.catalog == start + Ingestible(l.files, l.files.Keys - remaining))
         case Extracted(_, start, present, _) =>
           l.asListed ==>
             present == Present(l.files, l.files.Keys) && s.catalog == start + Ingestible(l.files, l.files.Keys)
         case Condemning(_, start, present, gone) =>
           l.asListed ==>
             && present == Present(l.files, l.files.Keys) && s.catalog == start + Ingestible(l.files, l.files.Keys)
             && gone == s.catalog - present
         case Pruned(_, start) => l.asListed ==> s.catalog == FullPass(start, l.files)
         case _ => true
  }

  /** A record stands for the stamps of the listing behind it, and a full pruned pass over that listing leaves the
      catalog as it is. */
  ghost predicate RecordIsTrue(s: State, digest: Stamps -> Digest) {
    s.record.Some? ==>
      s.record.value == digest(StampsOf(s.recordedOver)) && FullPass(s.catalog, s.recordedOver) == s.catalog
  }

  ghost predicate NoneUnderWay(s: State) {
    forall p :: p in s.passes ==> p.Idle? || p.Listed?
  }

  /** What every step keeps while one pass runs at a time: a record is true, and is gone once a pass goes ahead. */
  ghost predicate Invariant(s: State, digest: Stamps -> Digest) {
    && Alone(s)
    && (forall p :: p in s.passes ==> OnCourse(s, p, digest))
    && RecordIsTrue(s, digest) && (s.record.Some? ==> NoneUnderWay(s))
  }

  lemma ReadingStaysOnCourse(s: State, i: nat, path: Path, digest: Stamps -> Digest)
    requires Enabled(s, Read(i, path)) && OnCourse(s, s.passes[i], digest)
    ensures OnCourse(Moved(s, Read(i, path), digest), Moved(s, Read(i, path), digest).passes[i], digest)
  {
    var p := s.passes[i];
    var l := p.listing;
    if IsAsListed(s, l, path) {
      OneMoreRead(l.files, l.files.Keys - p.remaining, path);
      assert l.files.Keys - (p.remaining - {path}) == l.files.Keys - p.remaining + {path};
    }
  }

  lemma PruningStaysOnCourse(s: State, i: nat, digest: Stamps -> Digest)
    requires Enabled(s, Prune(i)) && OnCourse(s, s.passes[i], digest)
    ensures OnCourse(Moved(s, Prune(i), digest), Moved(s, Prune(i), digest).passes[i], digest)
  {
    var p := s.passes[i];
    if p.listing.asListed && LockIsFree(s) {
      assert s.catalog - p.gone == FullPass(p.start, p.listing.files);
    }
  }

  lemma MovingStaysOnCourse(s: State, m: Move, digest: Stamps -> Digest, p: Phase)
    requires Alone(s) && Enabled(s, m) && Alone(Moved(s, m, digest))
    requires forall q :: q in s.passes ==> OnCourse(s, q, digest)
    requires p in Moved(s, m, digest).passes
    ensures OnCourse(Moved(s, m, digest), p, digest)
  {
    var s' := Moved(s, m, digest);
    var k :| 0 <= k < |s'.passes| && s'.passes[k] == p;
    if m.Changing? {
      assert p in s.passes;
    } else if k != m.i {
      assert p == s.passes[k] && p in s.passes;
      assert p.Idle? || s.passes[m.i].Idle?;
    } else {
      assert s.passes[m.i] in s.passes;
      if m.Read? {
        ReadingStaysOnCourse(s, m.i, m.path, digest);
      } else if m.Prune? {
        PruningStaysOnCourse(s, m.i, digest);
      }
    }
  }

  lemma MovingKeepsTheRecord(s: State, m: Move, digest: Stamps -> Digest)
    requires Invariant(s, digest) && Enabled(s, m) && Alone(Moved(s, m, digest)) && ChangesShow(s, m, digest)
    ensures var s' := Moved(s, m, digest); RecordIsTrue(s', digest) && (s'.record.Some? ==> NoneUnderWay(s'))
  {
    var s' := Moved(s, m, digest);
    if !m.Changing? {
      assert s.passes[m.i] in s.passes;
      forall p | p in s'.passes
        ensures p == s'.passes[m.i] || p in s.passes
      {
      }
      if m.Record? && digest(StampsOf(s.world.files)) == s.passes[m.i].listing.digest {
        FullPassesSettle(s.passes[m.i].start, s.passes[m.i].listing.files);
        OthersAreIdle(s, m.i);
      }
    }
  }

  lemma OthersAreIdle(s: State, i: nat)
    requires Alone(s) && i < |s.passes| && !s.passes[i].Idle?
    ensures forall p :: p in s.passes[i := Idle] ==> p.Idle?
  {
  }

  lemma MovesKeepTheInvariant(s: State, m: Move, digest: Stamps -> Digest)
    requires Invariant(s, digest) && Enabled(s, m) && Alone(Moved(s, m, digest)) && ChangesShow(s, m, digest)
    ensures Invariant(Moved(s, m, digest), digest)
  {
    MovingKeepsTheRecord(s, m, digest);
    forall p | p in Moved(s, m, digest).passes
      ensures OnCourse(Moved(s, m, digest), p, digest)
    {
      MovingStaysOnCourse(s, m, digest, p);
    }
    hide OnCourse, Moved, Enabled, FullPass, RecordIsTrue;
  }

  // ------------------------------------------------------------------ runs

  ghost predicate Run(s: State, moves: seq<Move>, digest: Stamps -> Digest)
    decreases |moves|, 0
  {
    moves != [] ==>
      var init := moves[..|moves| - 1];
      Run(s, init, digest) && Enabled(After(s, init, digest), moves[|moves| - 1])
  }

  ghost function After(s: State, moves: seq<Move>, digest: Stamps -> Digest): State
    requires Run(s, moves, digest)
    decreases |moves|, 1
  {
    if moves == [] then s else Moved(After(s, moves[..|moves| - 1], digest), moves[|moves| - 1], digest)
  }

  /** A run over a collection whose changes show. */
  ghost predicate ShowingRun(s: State, moves: seq<Move>, digest: Stamps -> Digest) {
    && Run(s, moves, digest)
    && (moves != [] ==>
          var init := moves[..|moves| - 1];
          ShowingRun(s, init, digest) && ChangesShow(After(s, init, digest), moves[|moves| - 1], digest))
  }

  /** A run with one pass going at a time. */
  ghost predicate SoloRun(s: State, moves: seq<Move>, digest: Stamps -> Digest) {
    && Run(s, moves, digest) && Alone(After(s, moves, digest))
    && (moves != [] ==> SoloRun(s, moves[..|moves| - 1], digest))
  }

  ghost predicate Unrecorded(s: State) {
    s.record == None && forall p :: p in s.passes ==> p.Idle?
  }

  lemma {:induction false} SoloRunsKeepTheInvariant(s: State, moves: seq<Move>, digest: Stamps -> Digest)
    requires Unrecorded(s) && SoloRun(s, moves, digest) && ShowingRun(s, moves, digest)
    ensures Invariant(After(s, moves, digest), digest)
  {
    if moves != [] {
      var init := moves[..|moves| - 1];
      SoloRunsKeepTheInvariant(s, init, digest);
      MovesKeepTheInvariant(After(s, init, digest), moves[|moves| - 1], digest);
    }
  }

  /** With one pass at a time, stopped at any step: whenever a record names the stamps of the collection as it stands,
      so that a pass would end at once, no pass is under way, and the files the record was left over carry those very
      stamps. A full pruned pass leaves the catalog exactly as it is if and only if every module that ingests is
      cataloged and none but those present; it does where nothing recorded is missed, and so where each stamp recorded
      still tells its content. */
  lemma EarlyReturnsLeaveWhatAFullPassWould(s: State, moves: seq<Move>, digest: Stamps -> Digest)
    requires Unrecorded(s) && SoloRun(s, moves, digest) && ShowingRun(s, moves, digest) && Injective(digest)
    ensures var end := After(s, moves, digest); var files := end.world.files;
      end.record == Some(digest(StampsOf(files))) ==>
        && NoneUnderWay(end) && StampsOf(end.recordedOver) == StampsOf(files)
        && (FullPass(end.catalog, files) == end.catalog <==>
              Ingestible(files, files.Keys) <= end.catalog <= Present(files, files.Keys))
        && (NothingIsMissed(end.recordedOver, files) ==> FullPass(end.catalog, files) == end.catalog)
        && (StampsTell(end.recordedOver, files) ==> NothingIsMissed(end.recordedOver, files))
  {
    SoloRunsKeepTheInvariant(s, moves, digest);
    var end := After(s, moves, digest);
    var files := end.world.files;
    if end.record == Some(digest(StampsOf(files))) {
      assert StampsOf(end.recordedOver) == StampsOf(files);
      FullPassesSettle(end.catalog, files);
      RecordsHoldExactlyWhenNothingIsMissed(end.recordedOver, files);
      if StampsTell(end.recordedOver, files) {
        ToldApart(end.recordedOver, files);
      }
    }
  }

  // ------------------------------------------------------------------ what a prune has read

  /** The pass listed the collection by the a-th move, and found these files there. */
  ghost predicate ListedBy(s: State, moves: seq<Move>, digest: Stamps -> Digest, i: nat, a: nat, listing: Listing) {
    && a < |moves| && moves[a] == List(i) && Run(s, moves[..a], digest)
    && var world := After(s, moves[..a], digest).world;
    listing.files == world.files && listing.unreadableFolders == world.unreadableFolders
  }

  /** Since that listing the pass read the path, and found the module of that hash there. */
  ghost predicate ReadSince(s: State, moves: seq<Move>, digest: Stamps -> Digest, i: nat, a: nat, path: Path, h: Hash,
      n: nat) {
    && a < n < |moves| && moves[n] == Read(i, path) && Run(s, moves[..n], digest)
    && var files := After(s, moves[..n], digest).world.files;
    path in files && files[path].readable && files[path].hash == h
  }

  ghost predicate WasRead(s: State, moves: seq<Move>, digest: Stamps -> Digest, i: nat, a: nat, path: Path,
      present: set<Hash>) {
    exists h, n :: h in present && ReadSince(s, moves, digest, i, a, path, h, n)
  }

  /** Where a pass stands between its listing and its prune: what it has yet to read, or has read, and what it condemns
      was not found in any of it. */
  ghost predicate HasRead(s: State, moves: seq<Move>, digest: Stamps -> Digest, i: nat, a: nat, p: Phase) {
    !p.Idle? ==>
      && ListedBy(s, moves, digest, i, a, p.listing)
      && match p
         case Extracting(l, _, remaining, present, missed) =>
           forall path :: path in l.files && path !in remaining && !missed ==>
             WasRead(s, moves, digest, i, a, path, present)
         case Extracted(l, _, present, missed) =>
           forall path :: path in l.files && !missed ==> WasRead(s, moves, digest, i, a, path, present)
         case Condemning(l, _, present, gone) =>
           && gone !! present && !l.unreadableFolders && (l.files == map[] ==> gone == {})
           && forall path :: path in l.files ==> WasRead(s, moves, digest, i, a, path, present)
         case _ => true
  }

  lemma ListedEarlier(s: State, init: seq<Move>, last: Move, digest: Stamps -> Digest, i: nat, a: nat, listing: Listing)
    requires ListedBy(s, init, digest, i, a, listing)
    ensures ListedBy(s, init + [last], digest, i, a, listing)
  {
    assert (init + [last])[..a] == init[..a];
  }

  lemma ReadEarlier(s: State, init: seq<Move>, last: Move, digest: Stamps -> Digest, i: nat, a: nat, path: Path,
      present: set<Hash>, more: set<Hash>)
    requires WasRead(s, init, digest, i, a, path, present) && present <= more
    ensures WasRead(s, init + [last], digest, i, a, path, more)
  {
    var h: Hash, n: nat :| h in present && ReadSince(s, init, digest, i, a, path, h, n);
    assert (init + [last])[..n] == init[..n];
    assert ReadSince(s, init + [last], digest, i, a, path, h, n);
  }

  /** Of the paths a phase has read, each was read and held a module among those present. */
  ghost predicate AllWereRead(s: State, moves: seq<Move>, digest: Stamps -> Digest, i: nat, a: nat, paths: set<Path>,
      present: set<Hash>) {
    forall path :: path in paths ==> WasRead(s, moves, digest, i, a, path, present)
  }

  lemma AllReadEarlier(s: State, init: seq<Move>, last: Move, digest: Stamps -> Digest, i: nat, a: nat,
      paths: set<Path>, present: set<Hash>, more: set<Hash>)
    requires AllWereRead(s, init, digest, i, a, paths, present) && present <= more
    ensures AllWereRead(s, init + [last], digest, i, a, paths, more)
  {
    forall path | path in paths
      ensures WasRead(s, init + [last], digest, i, a, path, more)
    {
      ReadEarlier(s, init, last, digest, i, a, path, present, more);
    }
  }

  lemma HasReadEarlier(s: State, init: seq<Move>, last: Move, digest: Stamps -> Digest, i: nat, a: nat, p: Phase)
    requires HasRead(s, init, digest, i, a, p)
    ensures HasRead(s, init + [last], digest, i, a, p)
  {
    hide ListedBy, WasRead;
    if !p.Idle? {
      ListedEarlier(s, init, last, digest, i, a, p.listing);
      match p
      case Extracting(l, _, remaining, present, missed) =>
        if !missed { AllReadEarlier(s, init, last, digest, i, a, l.files.Keys - remaining, present, present); }
      case Extracted(l, _, present, missed) =>
        if !missed { AllReadEarlier(s, init, last, digest, i, a, l.files.Keys, present, present); }
      case Condemning(l, _, present, _) =>
        AllReadEarlier(s, init, last, digest, i, a, l.files.Keys, present, present);
      case _ =>
    }
  }

  // One more path read, or found not to be readable.
  lemma OneMoreWasRead(s: State, init: seq<Move>, path: Path, digest: Stamps -> Digest, i: nat, a: nat)
    requires Run(s, init, digest) && Enabled(After(s, init, digest), Read(i, path))
    requires HasRead(s, init, digest, i, a, After(s, init, digest).passes[i])
    ensures HasRead(s, init + [Read(i, path)], digest, i, a,
      Moved(After(s, init, digest), Read(i, path), digest).passes[i])
  {
    var before, moves := After(s, init, digest), init + [Read(i, path)];
    var p, p' := before.passes[i], Moved(before, Read(i, path), digest).passes[i];
    assert moves[..|init|] == init;
    ListedEarlier(s, init, Read(i, path), digest, i, a, p.listing);
    if !p'.missed {
      var h := before.world.files[path].hash;
      assert ReadSince(s, moves, digest, i, a, path, h, |init|);
      AllReadEarlier(s, init, Read(i, path), digest, i, a, p.listing.files.Keys - p.remaining, p.present, p'.present);
      assert WasRead(s, moves, digest, i, a, path, p'.present);
    }
    hide WasRead, ListedBy, ReadSince, Run;
  }

  // The pass's own other moves take what it has read with them.
  lemma OtherMovesHaveRead(before: State, last: Move, digest: Stamps -> Digest, s: State, moves: seq<Move>, i: nat,
      a: nat)
    requires Enabled(before, last) && i < |before.passes| && last != List(i)
    requires !(last.Read? && last.i == i) && HasRead(s, moves, digest, i, a, before.passes[i])
    ensures i < |Moved(before, last, digest).passes|
    ensures HasRead(s, moves, digest, i, a, Moved(before, last, digest).passes[i])
  {
    hide WasRead, ListedBy, Run;
  }

  lemma HasReadOneMore(s: State, init: seq<Move>, last: Move, digest: Stamps -> Digest, i: nat, a: nat)
    requires Run(s, init, digest) && Enabled(After(s, init, digest), last) && i < |After(s, init, digest).passes|
    requires HasRead(s, init, digest, i, a, After(s, init, digest).passes[i])
    requires last != List(i)
    ensures i < |Moved(After(s, init, digest), last, digest).passes|
    ensures HasRead(s, init + [last], digest, i, a, Moved(After(s, init, digest), last, digest).passes[i])
  {
    hide HasRead, Run, After;
    var before := After(s, init, digest);
    if last.Read? && last.i == i {
      OneMoreWasRead(s, init, last.path, digest, i, a);
    } else {
      HasReadEarlier(s, init, last, digest, i, a, before.passes[i]);
      OtherMovesHaveRead(before, last, digest, s, init + [last], i, a);
    }
  }

  lemma {:induction false} PassesHaveRead(s: State, moves: seq<Move>, digest: Stamps -> Digest, i: nat) returns (a: nat)
    requires Unrecorded(s) && Run(s, moves, digest) && i < |After(s, moves, digest).passes|
    ensures HasRead(s, moves, digest, i, a, After(s, moves, digest).passes[i])
  {
    if moves == [] {
      a := 0;
      assert After(s, moves, digest).passes[i] in s.passes;
    } else {
      var init, last := moves[..|moves| - 1], moves[|moves| - 1];
      assert moves == init + [last];
      if last == List(i) {
        a := |init|;
      } else {
        hide HasRead, Moved, Unrecorded, Enabled;
        a := PassesHaveRead(s, init, digest, i);
        HasReadOneMore(s, init, last, digest, i, a);
      }
    }
  }

  /** Whatever else moves, and however the collection changes: when a pass comes to remove modules, then since it listed
      the collection it has read every file listed, and none held a module it removes; no folder was unreadable then;
      and where it listed no file it removes nothing. */
  lemma PrunesHaveReadEverything(s: State, moves: seq<Move>, digest: Stamps -> Digest, i: nat) returns (a: nat)
    requires Unrecorded(s) && Run(s, moves, digest) && Enabled(After(s, moves, digest), Prune(i))
    ensures a < |moves| && moves[a] == List(i) && Run(s, moves[..a], digest)
    ensures var listed, before := After(s, moves[..a], digest).world, After(s, moves, digest);
      var removed := before.catalog - Moved(before, Prune(i), digest).catalog;
      && (removed != {} ==> !listed.unreadableFolders && listed.files != map[])
      && forall path :: path in listed.files ==>
           exists h, n :: h !in removed && ReadSince(s, moves, digest, i, a, path, h, n)
  {
    a := PassesHaveRead(s, moves, digest, i);
    var before := After(s, moves, digest);
    var p := before.passes[i];
    forall path | path in p.listing.files
      ensures exists h, n :: h !in p.gone && ReadSince(s, moves, digest, i, a, path, h, n)
    {
      assert WasRead(s, moves, digest, i, a, path, p.present);
      var h: Hash, n: nat :| h in p.present && ReadSince(s, moves, digest, i, a, path, h, n);
      assert h !in p.gone;
    }
  }

  // ------------------------------------------------------------------ stamps that never return

  /** No file carries a stamp its path has carried and left. */
  predicate StampsAreFresh(s: State) {
    forall p :: p in s.world.files ==> (p, s.world.files[p].stamp) !in s.left
  }

  // Each file of an earlier listing is still there as it was, or its stamp is among those left.
  ghost predicate Followed(s: State, files: Files) {
    forall p :: p in files ==> (p in s.world.files && s.world.files[p] == files[p]) || (p, files[p].stamp) in s.left
  }

  ghost predicate SomeLeft(s: State, files: Files) {
    exists p :: p in files && (p, files[p].stamp) in s.left
  }

  ghost predicate ListingFollowed(s: State, p: Phase, digest: Stamps -> Digest) {
    !p.Idle? ==>
      && p.listing.digest == digest(StampsOf(p.listing.files))
      && (p.Extracting? ==> p.remaining <= p.listing.files.Keys)
      && Followed(s, p.listing.files) && (!p.listing.asListed ==> SomeLeft(s, p.listing.files))
  }

  ghost predicate AllFollowed(s: State, digest: Stamps -> Digest) {
    && (forall p :: p in s.passes ==> ListingFollowed(s, p, digest))
    && (s.record.Some? ==> Followed(s, s.recordedOver))
  }

  // With fresh stamps, a listing that carries the same stamps again is the same listing.
  lemma FreshStampsTell(s: State, files: Files)
    requires StampsAreFresh(s) && Followed(s, files) && StampsOf(files) == StampsOf(s.world.files)
    ensures !SomeLeft(s, files) && StampsTell(files, s.world.files)
  {
    forall p | p in files
      ensures (p, files[p].stamp) !in s.left && p in s.world.files && s.world.files[p] == files[p]
    {
      assert p in StampsOf(files);
      assert p in StampsOf(s.world.files);
      assert StampsOf(files)[p] == StampsOf(s.world.files)[p];
    }
  }

  lemma ChangingKeepsFollowed(s: State, world: World, files: Files)
    requires Followed(s, files)
    ensures Followed(s.(world := world, left := s.left + LeftBehind(s.world.files, world.files)), files)
  {
    forall p | p in files && p in s.world.files && s.world.files[p] == files[p]
      ensures (p in world.files && world.files[p] == files[p])
        || (p, files[p].stamp) in LeftBehind(s.world.files, world.files)
    {
    }
  }

  lemma MovesKeepFollowed(s: State, m: Move, digest: Stamps -> Digest)
    requires AllFollowed(s, digest) && Enabled(s, m)
    ensures AllFollowed(Moved(s, m, digest), digest)
  {
    var s' := Moved(s, m, digest);
    if m.Changing? {
      forall p | p in s'.passes
        ensures ListingFollowed(s', p, digest)
      {
        assert ListingFollowed(s, p, digest);
        if !p.Idle? {
          ChangingKeepsFollowed(s, m.world, p.listing.files);
        }
      }
      if s.record.Some? {
        ChangingKeepsFollowed(s, m.world, s.recordedOver);
      }
    } else {
      var p := s.passes[m.i];
      assert p in s.passes && ListingFollowed(s, p, digest);
      forall q | q in s'.passes
        ensures ListingFollowed(s', q, digest)
      {
        if q == s'.passes[m.i] {
          MovedPassIsFollowed(s, m, digest);
        } else {
          assert q in s.passes && ListingFollowed(s, q, digest);
        }
      }
    }
  }

  lemma MovedPassIsFollowed(s: State, m: Move, digest: Stamps -> Digest)
    requires Enabled(s, m) && !m.Changing? && ListingFollowed(s, s.passes[m.i], digest)
    ensures ListingFollowed(Moved(s, m, digest), Moved(s, m, digest).passes[m.i], digest)
  {
    if m.Read? {
      var l := s.passes[m.i].listing;
      if l.asListed && !IsAsListed(s, l, m.path) {
        assert (m.path, l.files[m.path].stamp) in s.left;
      }
    }
  }

  ghost predicate FreshRun(s: State, moves: seq<Move>, digest: Stamps -> Digest) {
    && Run(s, moves, digest) && StampsAreFresh(After(s, moves, digest))
    && (moves != [] ==> FreshRun(s, moves[..|moves| - 1], digest))
  }

  lemma {:induction false} FreshRunsAreFollowed(s: State, moves: seq<Move>, digest: Stamps -> Digest)
    requires Unrecorded(s) && FreshRun(s, moves, digest) && Injective(digest)
    ensures AllFollowed(After(s, moves, digest), digest) && ShowingRun(s, moves, digest)
  {
    if moves != [] {
      var init, m := moves[..|moves| - 1], moves[|moves| - 1];
      FreshRunsAreFollowed(s, init, digest);
      var before := After(s, init, digest);
      MovesKeepFollowed(before, m, digest);
      if m.Record? && digest(StampsOf(before.world.files)) == before.passes[m.i].listing.digest {
        var p := before.passes[m.i];
        assert p in before.passes && ListingFollowed(before, p, digest);
        FreshStampsTell(before, p.listing.files);
      }
    }
  }

  /** Where a file once changed never carries an earlier stamp of its path again, an early return leaves exactly what a
      full pruned pass would, whatever changes while passes read. */
  lemma FreshStampsMakeEarlyReturnsExact(s: State, moves: seq<Move>, digest: Stamps -> Digest)
    requires Unrecorded(s) && SoloRun(s, moves, digest) && FreshRun(s, moves, digest) && Injective(digest)
    ensures var end := After(s, moves, digest);
      end.record == Some(digest(StampsOf(end.world.files))) ==> FullPass(end.catalog, end.world.files) == end.catalog
  {
    FreshRunsAreFollowed(s, moves, digest);
    EarlyReturnsLeaveWhatAFullPassWould(s, moves, digest);
    var end := After(s, moves, digest);
    if end.record == Some(digest(StampsOf(end.world.files))) {
      FreshStampsTell(end, end.recordedOver);
    }
  }

  // ------------------------------------------------------------------ runs written out

  // One move more. A state reached is written out, so that a run is read off move by move.
  lemma OneMoreMove(s: State, moves: seq<Move>, at: State, m: Move, next: State, digest: Stamps -> Digest)
    returns (longer: seq<Move>)
    requires Run(s, moves, digest) && After(s, moves, digest) == at && Enabled(at, m) && Moved(at, m, digest) == next
    ensures Run(s, longer, digest) && After(s, longer, digest) == next
    ensures ShowingRun(s, moves, digest) && ChangesShow(at, m, digest) ==> ShowingRun(s, longer, digest)
    ensures longer == moves + [m]
  {
    longer := moves + [m];
    assert longer[..|moves|] == moves;
  }

  lemma {:induction false} RunsKeepTheSlots(s: State, moves: seq<Move>, digest: Stamps -> Digest)
    requires Run(s, moves, digest)
    ensures |After(s, moves, digest).passes| == |s.passes|
  {
    if moves != [] {
      RunsKeepTheSlots(s, moves[..|moves| - 1], digest);
    }
  }

  lemma {:induction false} OnePassIsAlone(s: State, moves: seq<Move>, digest: Stamps -> Digest)
    requires Run(s, moves, digest) && |s.passes| <= 1
    ensures SoloRun(s, moves, digest)
  {
    RunsKeepTheSlots(s, moves, digest);
    if moves != [] {
      OnePassIsAlone(s, moves[..|moves| - 1], digest);
    }
  }

  // A module file that can be read and ingests.
  function Good(h: Hash): File {
    File(h, 0, true, true)
  }

  function OneFile(p: Path, h: Hash): World {
    World(map[p := Good(h)], false)
  }

  function Start(world: World): State {
    State(world, {}, None, [Idle], map[], {})
  }

  function ListingOf(files: Files, digest: Stamps -> Digest): Listing {
    Listing(files, false, digest(StampsOf(files)), true)
  }

  // A pass over one file, begun and not yet reading.
  lemma BeginningAPass(p: Path, h: Hash, digest: Stamps -> Digest) returns (moves: seq<Move>)
    ensures ShowingRun(Start(OneFile(p, h)), moves, digest)
    ensures var l := ListingOf(OneFile(p, h).files, digest);
      After(Start(OneFile(p, h)), moves, digest) == Start(OneFile(p, h)).(passes := [Extracting(l, {}, {p}, {}, false)])
  {
    var s, l := Start(OneFile(p, h)), ListingOf(OneFile(p, h).files, digest);
    var listed, begun := s.(passes := [Listed(l)]), s.(passes := [Extracting(l, {}, {p}, {}, false)]);
    assert l.files.Keys == {p};
    assert Moved(s, List(0), digest) == listed && Moved(listed, Decide(0, false), digest) == begun;
    hide Moved;
    moves := OneMoreMove(s, [], s, List(0), listed, digest);
    moves := OneMoreMove(s, moves, listed, Decide(0, false), begun, digest);
  }

  // The pass reads what it finds at its one path, and goes through to its record.
  lemma EndingAPass(s: State, moves: seq<Move>, at: State, l: Listing, read: Hash, digest: Stamps -> Digest)
    returns (longer: seq<Move>)
    requires Run(s, moves, digest) && After(s, moves, digest) == at
    requires l.files != map[] && !l.unreadableFolders && digest(StampsOf(at.world.files)) == l.digest
    requires at.catalog == {read} && at.passes == [Extracting(l, {}, {}, {read}, false)]
    ensures Run(s, longer, digest)
    ensures ShowingRun(s, moves, digest) && l.asListed ==> ShowingRun(s, longer, digest)
    ensures After(s, longer, digest) == at.(passes := [Idle], record := Some(l.digest), recordedOver := l.files)
  {
    var extracted, condemned := at.(passes := [Extracted(l, {}, {read}, false)]),
      at.(passes := [Condemning(l, {}, {read}, {})]);
    var pruned := at.(passes := [Pruned(l, {})]);
    var recorded := at.(passes := [Idle], record := Some(l.digest), recordedOver := l.files);
    assert {read} - {read} == {} && {read} - {} == {read};
    assert Moved(at, Finish(0), digest) == extracted;
    assert Moved(extracted, Condemn(0), digest) == condemned;
    assert LockIsFree(condemned) && Moved(condemned, Prune(0), digest) == pruned;
    assert Moved(pruned, Record(0), digest) == recorded;
    hide Moved, LockIsFree;
    longer := OneMoreMove(s, moves, at, Finish(0), extracted, digest);
    longer := OneMoreMove(s, longer, extracted, Condemn(0), condemned, digest);
    longer := OneMoreMove(s, longer, condemned, Prune(0), pruned, digest);
    longer := OneMoreMove(s, longer, pruned, Record(0), recorded, digest);
  }

  /** A file whose content changes under the stamp it had, as one restored with its size and time kept, leaves the
      record standing: a pass ends at once over a catalog that a full pruned pass would change. No other pass need run,
      and every change during the pass shows. */
  lemma ARestoredFileGoesUnread(p: Path, h: Hash, other: Hash, digest: Stamps -> Digest)
    returns (s: State, moves: seq<Move>)
    requires h != other
    ensures Unrecorded(s) && SoloRun(s, moves, digest) && ShowingRun(s, moves, digest)
    ensures var end := After(s, moves, digest);
      end.record == Some(digest(StampsOf(end.world.files))) && FullPass(end.catalog, end.world.files) != end.catalog
  {
    var world, restored := OneFile(p, h), OneFile(p, other);
    s := Start(world);
    var l := ListingOf(world.files, digest);
    moves := BeginningAPass(p, h, digest);
    var begun, read := After(s, moves, digest), s.(catalog := {h}, passes := [Extracting(l, {}, {}, {h}, false)]);
    assert {} + {h} == {h} && {p} - {p} == {};
    moves := OneMoreMove(s, moves, begun, Read(0, p), read, digest);
    moves := EndingAPass(s, moves, read, l, h, digest);
    var end := After(s, moves, digest);
    var after := end.(world := restored, left := end.left + LeftBehind(world.files, restored.files));
    moves := OneMoreMove(s, moves, end, Changing(restored), after, digest);
    OnePassIsAlone(s, moves, digest);
    assert StampsOf(world.files) == StampsOf(restored.files);
    assert after.world.files[p].hash == other && other in Present(restored.files, restored.files.Keys);
    assert other in FullPass({h}, restored.files);
  }

  /** A file changed and changed back while a pass reads it goes unseen: each stamp recorded tells its content, and yet
      a full pruned pass would change the catalog. */
  lemma AChangeUndoneInBetweenGoesUnseen(p: Path, h: Hash, other: Hash, digest: Stamps -> Digest)
    returns (s: State, moves: seq<Move>)
    requires h != other
    ensures Unrecorded(s) && SoloRun(s, moves, digest)
    ensures var end := After(s, moves, digest);
      && end.record == Some(digest(StampsOf(end.world.files))) && StampsTell(end.recordedOver, end.world.files)
      && FullPass(end.catalog, end.world.files) != end.catalog
  {
    var world, changed := OneFile(p, h), OneFile(p, other);
    s := Start(world);
    var l := ListingOf(world.files, digest);
    moves := BeginningAPass(p, h, digest);
    var begun := After(s, moves, digest);
    var there := begun.(world := changed, left := begun.left + LeftBehind(world.files, changed.files));
    moves := OneMoreMove(s, moves, begun, Changing(changed), there, digest);
    var l' := l.(asListed := false);
    var read := there.(catalog := {other}, passes := [Extracting(l', {}, {}, {other}, false)]);
    assert {} + {other} == {other} && {p} - {p} == {};
    assert !IsAsListed(there, l, p);
    assert Moved(there, Read(0, p), digest) == read;
    var back := read.(world := world, left := read.left + LeftBehind(changed.files, world.files));
    assert Moved(read, Changing(world), digest) == back;
    assert world.files[p].hash == h && h in Present(world.files, world.files.Keys);
    assert h in FullPass({other}, world.files);
    hide Moved, Run, After, ShowingRun, FullPass, Present, Ingestible, LeftBehind;
    moves := OneMoreMove(s, moves, there, Read(0, p), read, digest);
    moves := OneMoreMove(s, moves, read, Changing(world), back, digest);
    moves := EndingAPass(s, moves, back, l', other, digest);
    OnePassIsAlone(s, moves, digest);
  }

  // ------------------------------------------------------------------ several passes at once

  // The phases of the first two slots, the others idle.
  function Two(a: Phase, b: Phase, n: nat): (passes: seq<Phase>)
    requires n >= 2
    ensures |passes| == n && passes[0] == a && passes[1] == b
  {
    seq(n, k => if k == 0 then a else if k == 1 then b else Idle)
  }

  lemma ChangingOneOfTwo(a: Phase, b: Phase, other: Phase, n: nat)
    requires n >= 2
    ensures Two(a, b, n)[0 := other] == Two(other, b, n)
    ensures Two(a, b, n)[1 := other] == Two(a, other, n)
    ensures !a.Extracting? && !b.Extracting? ==> forall p :: p in Two(a, b, n) ==> !p.Extracting?
  {
  }

  // One move of either pass, leaving the other as it is; `next` is the state it leads to.
  lemma OneOfTwoMoves(s: State, moves: seq<Move>, at: State, m: Move, a: Phase, b: Phase, next: State, n: nat,
      digest: Stamps -> Digest)
    returns (longer: seq<Move>)
    requires n >= 2 && ShowingRun(s, moves, digest) && After(s, moves, digest) == at && !m.Changing? && m.i <= 1
    requires Enabled(at, m) && ChangesShow(at, m, digest) && next.passes == Two(a, b, n)
    requires |at.passes| == n && at.passes == Two(at.passes[0], at.passes[1], n)
    requires (if m.i == 0 then b == at.passes[1] else a == at.passes[0])
    requires Moved(at, m, digest) == next.(passes := at.passes[m.i := if m.i == 0 then a else b])
    ensures ShowingRun(s, longer, digest) && After(s, longer, digest) == next
  {
    ChangingOneOfTwo(at.passes[0], at.passes[1], if m.i == 0 then a else b, n);
    hide Two;
    longer := OneMoreMove(s, moves, at, m, next, digest);
  }

  function Pair(world: World, catalog: set<Hash>, a: Phase, b: Phase, n: nat): State
    requires n >= 2
  {
    State(world, catalog, None, Two(a, b, n), map[], {})
  }

  // The pass in slot i lists the collection and goes ahead.
  lemma GoingAhead(s: State, run: seq<Move>, at: State, a: Phase, b: Phase, i: nat, n: nat, digest: Stamps -> Digest)
    returns (moves: seq<Move>)
    requires n >= 2 && i <= 1 && ShowingRun(s, run, digest) && After(s, run, digest) == at
    requires at.record == None && at.passes == Two(a, b, n) && (if i == 0 then a else b).Idle?
      && !at.world.unreadableFolders
    ensures ShowingRun(s, moves, digest)
    ensures var begun := Extracting(ListingOf(at.world.files, digest), at.catalog, at.world.files.Keys, {}, false);
      After(s, moves, digest) == at.(passes := if i == 0 then Two(begun, b, n) else Two(a, begun, n))
  {
    var l := ListingOf(at.world.files, digest);
    var listed, begun := Listed(l), Extracting(l, at.catalog, l.files.Keys, {}, false);
    hide Two;
    if i == 0 {
      var s1 := at.(passes := Two(listed, b, n));
      moves := OneOfTwoMoves(s, run, at, List(0), listed, b, s1, n, digest);
      moves := OneOfTwoMoves(s, moves, s1, Decide(0, false), begun, b, at.(passes := Two(begun, b, n)), n, digest);
    } else {
      var s1 := at.(passes := Two(a, listed, n));
      moves := OneOfTwoMoves(s, run, at, List(1), a, listed, s1, n, digest);
      moves := OneOfTwoMoves(s, moves, s1, Decide(1, false), a, begun, at.(passes := Two(a, begun, n)), n, digest);
    }
  }

  // The pass in slot i, its files all read, judges the catalog by what it read.
  lemma JudgingTheCatalog(s: State, run: seq<Move>, at: State, a: Phase, b: Phase, i: nat, n: nat,
      digest: Stamps -> Digest)
    returns (moves: seq<Move>)
    requires n >= 2 && i <= 1 && ShowingRun(s, run, digest) && After(s, run, digest) == at && at.passes == Two(a, b, n)
    requires var p := if i == 0 then a else b;
      p.Extracting? && p.remaining == {} && !p.missed && !p.listing.unreadableFolders && p.listing.files != map[]
    ensures ShowingRun(s, moves, digest)
    ensures var p := if i == 0 then a else b;
      var judged := Condemning(p.listing, p.start, p.present, at.catalog - p.present);
      After(s, moves, digest) == at.(passes := if i == 0 then Two(judged, b, n) else Two(a, judged, n))
  {
    var p := if i == 0 then a else b;
    var ended, judged := Extracted(p.listing, p.start, p.present, false),
        Condemning(p.listing, p.start, p.present, at.catalog - p.present);
    hide Two;
    if i == 0 {
      var s1 := at.(passes := Two(ended, b, n));
      moves := OneOfTwoMoves(s, run, at, Finish(0), ended, b, s1, n, digest);
      moves := OneOfTwoMoves(s, moves, s1, Condemn(0), judged, b, at.(passes := Two(judged, b, n)), n, digest);
    } else {
      var s1 := at.(passes := Two(a, ended, n));
      moves := OneOfTwoMoves(s, run, at, Finish(1), a, ended, s1, n, digest);
      moves := OneOfTwoMoves(s, moves, s1, Condemn(1), a, judged, at.(passes := Two(a, judged, n)), n, digest);
    }
  }

  // The first pass reads the one file there is and condemns the catalog's other module.
  lemma CondemningTheOther(p: Path, h: Hash, other: Hash, n: nat, digest: Stamps -> Digest) returns (moves: seq<Move>)
    requires h != other && n >= 2
    ensures var s := Pair(OneFile(p, h), {h, other}, Idle, Idle, n);
      && ShowingRun(s, moves, digest)
      && After(s, moves, digest)
         == s.(passes := Two(Condemning(ListingOf(OneFile(p, h).files, digest), {h, other}, {h}, {other}), Idle, n))
  {
    var w, c, l := OneFile(p, h), {h, other}, ListingOf(OneFile(p, h).files, digest);
    var s := Pair(w, c, Idle, Idle, n);
    moves := GoingAhead(s, [], s, Idle, Idle, 0, n, digest);
    var begun, read := Extracting(l, c, {p}, {}, false), Extracting(l, c, {}, {h}, false);
    assert w.files.Keys == {p} && c + {h} == c && {p} - {p} == {} && {} + {h} == {h} && c - {h} == {other};
    hide Two;
    var s1, s2 := s.(passes := Two(begun, Idle, n)), s.(passes := Two(read, Idle, n));
    moves := OneOfTwoMoves(s, moves, s1, Read(0, p), read, Idle, s2, n, digest);
    moves := JudgingTheCatalog(s, moves, s2, read, Idle, 0, n, digest);
  }

  function BothFiles(p: Path, q: Path, h: Hash, other: Hash): World {
    World(map[p := Good(h), q := Good(other)], false)
  }

  // With the other module's file there again, the second pass lists and reads both files.
  lemma ReadingBoth(s: State, run: seq<Move>, at: State, first: Phase, p: Path, q: Path, h: Hash, other: Hash, n: nat,
                    digest: Stamps -> Digest)
    returns (moves: seq<Move>)
    requires h != other && p != q && n >= 2 && ShowingRun(s, run, digest) && After(s, run, digest) == at
    requires at.world == BothFiles(p, q, h, other) && at.catalog == {h, other} && at.record == None
    requires at.passes == Two(first, Idle, n)
    ensures ShowingRun(s, moves, digest)
    ensures After(s, moves, digest)
         == at.(passes := Two(first, Extracting(ListingOf(at.world.files, digest), {h, other}, {}, {h, other}, false),
           n))
  {
    var c, l := {h, other}, ListingOf(at.world.files, digest);
    moves := GoingAhead(s, run, at, first, Idle, 1, n, digest);
    var begun, read := Extracting(l, c, {p, q}, {}, false), Extracting(l, c, {q}, {h}, false);
    var both := Extracting(l, c, {}, c, false);
    assert l.files.Keys == {p, q} && {p, q} - {p} == {q} && {q} - {q} == {} && {} + {h} == {h} && {h} + {other} == c;
    assert c + {h} == c && c + {other} == c;
    hide Two;
    var s1, s2 := at.(passes := Two(first, begun, n)), at.(passes := Two(first, read, n));
    moves := OneOfTwoMoves(s, moves, s1, Read(1, p), first, read, s2, n, digest);
    moves := OneOfTwoMoves(s, moves, s2, Read(1, q), first, both, at.(passes := Two(first, both, n)), n, digest);
  }

  // The first pass prunes what it condemned before, and the second records what it believes complete.
  lemma RecordingPastThePrune(s: State, run: seq<Move>, at: State, one: Phase, two: Phase, h: Hash, other: Hash,
      n: nat, digest: Stamps -> Digest)
    returns (moves: seq<Move>)
    requires h != other && n >= 2 && ShowingRun(s, run, digest) && After(s, run, digest) == at
    requires at.catalog == {h, other} && at.passes == Two(one, two, n)
    requires one.Condemning? && one.gone == {other}
    requires two.Condemning? && two.gone == {} && two.listing == ListingOf(at.world.files, digest)
    ensures ShowingRun(s, moves, digest)
    ensures var end := After(s, moves, digest);
      end.world == at.world && end.catalog == {h} && end.record == Some(two.listing.digest)
        && end.recordedOver == at.world.files
  {
    var p1, p2 := Pruned(one.listing, one.start), Pruned(two.listing, two.start);
    assert {h, other} - {other} == {h} && {h} - {} == {h};
    ChangingOneOfTwo(one, two, Idle, n);
    ChangingOneOfTwo(p1, two, Idle, n);
    hide Two;
    var s1 := at.(catalog := {h}, passes := Two(p1, two, n));
    var s2 := s1.(passes := Two(p1, p2, n));
    var s3 := s2.(record := Some(two.listing.digest), recordedOver := at.world.files, passes := Two(p1, Idle, n));
    assert LockIsFree(at) && LockIsFree(s1);
    assert Moved(at, Prune(0), digest) == s1.(passes := at.passes[0 := p1]);
    assert Moved(s1, Prune(1), digest) == s2.(passes := s1.passes[1 := p2]);
    assert Moved(s2, Record(1), digest) == s3.(passes := s2.passes[1 := Idle]);
    hide LockIsFree, Moved;
    moves := OneOfTwoMoves(s, run, at, Prune(0), p1, two, s1, n, digest);
    moves := OneOfTwoMoves(s, moves, s1, Prune(1), p1, p2, s2, n, digest);
    moves := OneOfTwoMoves(s, moves, s2, Record(1), p1, Idle, s3, n, digest);
  }

  /** With two passes at once neither guarantee holds: a prune removes a module whose file another pass has read, the
      gone modules having been named before the lock was claimed, and the record that other pass leaves stands for a
      catalog a full pruned pass would change. */
  lemma TwoPassesAtOnceBreakTheRecord(p: Path, q: Path, h: Hash, other: Hash, n: nat, digest: Stamps -> Digest)
    returns (s: State, moves: seq<Move>)
    requires h != other && p != q && n >= 2
    ensures |s.passes| == n && Unrecorded(s) && ShowingRun(s, moves, digest)
    ensures var end := After(s, moves, digest);
      && end.record == Some(digest(StampsOf(end.world.files))) && end.recordedOver == end.world.files
      && q in end.world.files && end.world.files[q].hash == other && other !in end.catalog
      && FullPass(end.catalog, end.world.files) != end.catalog
  {
    var c, before, both := {h, other}, OneFile(p, h), BothFiles(p, q, h, other);
    s := Pair(before, c, Idle, Idle, n);
    var first, l := Condemning(ListingOf(before.files, digest), c, {h}, {other}), ListingOf(both.files, digest);
    moves := CondemningTheOther(p, h, other, n, digest);
    var s1 := s.(passes := Two(first, Idle, n));
    var s2 := s1.(world := both, left := LeftBehind(before.files, both.files));
    assert Moved(s1, Changing(both), digest) == s2 && c - c == {} && q in both.files && both.files[q].hash == other;
    assert other in Ingestible(both.files, both.files.Keys) && other in Present(both.files, both.files.Keys);
    assert other in FullPass({h}, both.files);
    hide Moved, ShowingRun, After, Run, Two, FullPass, Ingestible, Present;
    moves := OneMoreMove(s, moves, s1, Changing(both), s2, digest);
    moves := ReadingBoth(s, moves, s2, first, p, q, h, other, n, digest);
    var second := Extracting(l, c, {}, c, false);
    var s3 := s2.(passes := Two(first, second, n));
    moves := JudgingTheCatalog(s, moves, s3, first, second, 1, n, digest);
    var judged := Condemning(l, c, c, {});
    moves := RecordingPastThePrune(s, moves, s3.(passes := Two(first, judged, n)), first, judged, h, other, n, digest);
    IdleAreUnrecorded(before, c, n);
  }

  lemma IdleAreUnrecorded(world: World, catalog: set<Hash>, n: nat)
    requires n >= 2
    ensures Unrecorded(Pair(world, catalog, Idle, Idle, n))
  {
  }

  /** Whatever runs from an unrecorded state of n passes, over changes that show, leaves every record true. */
  ghost predicate RecordsStayTrue(n: nat, digest: Stamps -> Digest) {
    forall s: State, moves: seq<Move> :: |s.passes| == n && Unrecorded(s) && ShowingRun(s, moves, digest) ==>
      RecordIsTrue(After(s, moves, digest), digest)
  }

  /** Records stay true in every interleaving of n passes if and only if n is at most one. */
  lemma RecordsStayTrueExactlyAlone(n: nat, digest: Stamps -> Digest)
    ensures RecordsStayTrue(n, digest) <==> n <= 1
  {
    if n <= 1 {
      forall s: State, moves: seq<Move> | |s.passes| == n && Unrecorded(s) && ShowingRun(s, moves, digest)
        ensures RecordIsTrue(After(s, moves, digest), digest)
      {
        OnePassIsAlone(s, moves, digest);
        SoloRunsKeepTheInvariant(s, moves, digest);
      }
    } else {
      var s, moves := TwoPassesAtOnceBreakTheRecord(0, 1, 0, 1, n, digest);
      assert !RecordIsTrue(After(s, moves, digest), digest);
    }
  }
}
