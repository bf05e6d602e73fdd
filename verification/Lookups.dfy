/** The inode table against the backing store: which file a caller reaches through an inode number,
    over every run of handlers and lookups. */
module Lookups {
  import opened Types
  import opened BackingStore
  import opened CasTables
  import opened InodeTables
  import opened Protocol

  /** A handler's step, or the registration of an existing path by `lookup` or by listing its
      directory, under the inode number that lstat reports. */
  datatype Call = Handler(e: Event) | Register(path: Path)

  /** What the step does to the inode table. */
  function InodesNext(d: Bytes -> Digest, t: Inodes, s: State, e: Event): Inodes {
    var (s', reply) := Apply(d, s, e);
    match e.step
    case Create(p, mode, trunc, sid, os) =>
      if reply.Opened? && p in s'.fs.names then Inserted(t, s'.fs.names[p], p) else t
    case Unlink(p, sid, os) => if reply.Done? then RemovedPath(t, p) else t
    case Rename(src, dst, sid, os) => if reply.Done? then Moved(t, src, dst) else t
    case _ => t
  }

  /** A created file is found by its inode number, and the number by its path. */
  lemma CreatedIsFound(d: Bytes -> Digest, t: Inodes, s: State, e: Event)
    requires e.step.Create? && Apply(d, s, e).1.Opened?
    ensures var fs', t' := Apply(d, s, e).0.fs, InodesNext(d, t, s, e);
            && e.step.path in fs'.names
            && Get(t'.toPath, fs'.names[e.step.path]) == Some(e.step.path)
            && Get(t'.toIno, e.step.path) == Some(fs'.names[e.step.path])
  {
  }

  /** An unlinked path is forgotten, and so is the inode it was looked up as; from a bijective table
      no inode leads to it any more. */
  lemma UnlinkedIsForgotten(d: Bytes -> Digest, t: Inodes, s: State, e: Event, j: nat)
    requires e.step.Unlink? && Apply(d, s, e).1.Done?
    ensures var t' := InodesNext(d, t, s, e);
            && Get(t'.toIno, e.step.path) == None
            && (Get(t.toIno, e.step.path) == Some(j) ==> Get(t'.toPath, j) == None)
            && (Bijective(t) ==> Get(t'.toPath, j) != Some(e.step.path))
  {
  }

  /** A renamed file keeps its inode number, which leads to the new path. */
  lemma RenamedIsFollowed(d: Bytes -> Digest, t: Inodes, s: State, e: Event, j: nat)
    requires e.step.Rename? && Apply(d, s, e).1.Done? && Get(t.toIno, e.step.src) == Some(j)
    ensures var t' := InodesNext(d, t, s, e);
            && Get(t'.toPath, j) == Some(e.step.dst)
            && Get(t'.toIno, e.step.dst) == Some(j)
            && (e.step.src != e.step.dst ==> Get(t'.toIno, e.step.src) == None)
  {
    hide Apply;
  }

  /** A refused or failed call, and every other one, leaves the inode table as it was. */
  lemma OthersLeaveInodes(d: Bytes -> Digest, t: Inodes, s: State, e: Event)
    requires e.step.Create? ==> !Apply(d, s, e).1.Opened?
    requires e.step.Unlink? || e.step.Rename? ==> !Apply(d, s, e).1.Done?
    ensures InodesNext(d, t, s, e) == t
  {
    hide Apply;
  }

  /** A lookup registers an existing file under its own number. */
  lemma RegisteredIsFound(d: Bytes -> Digest, m: Mount, p: Path)
    requires p in m.state.fs.names && m.state.fs.names[p] in m.state.fs.files
    ensures var m' := Next(d, m, Register(p));
            && m'.state == m.state
            && Get(m'.inodes.toPath, m.state.fs.names[p]) == Some(p)
            && Get(m'.inodes.toIno, p) == Some(m.state.fs.names[p])
  {
  }

  datatype Mount = Mount(state: State, inodes: Inodes)

  function Next(d: Bytes -> Digest, m: Mount, c: Call): Mount {
    match c
    case Handler(e) => Mount(Apply(d, m.state, e).0, InodesNext(d, m.inodes, m.state, e))
    case Register(p) =>
      if Exists(m.state.fs, p) then m.(inodes := Inserted(m.inodes, m.state.fs.names[p], p)) else m
  }

  ghost function After(d: Bytes -> Digest, m: Mount, calls: seq<Call>): Mount {
    if calls == [] then m else Next(d, After(d, m, calls[..|calls| - 1]), calls[|calls| - 1])
  }

  /** An inode whose path names a file reaches that very file: the inode number is the file's own. */
  ghost predicate Reaches(t: Inodes, fs: Store) {
    forall i | i in t.toPath && t.toPath[i] in fs.names :: fs.names[t.toPath[i]] == i
  }

  ghost predicate OnTrack(m: Mount) {
    Bijective(m.inodes) && Reaches(m.inodes, m.state.fs)
  }

  /** The calls that leave an inode leading to another file than its own: a rename that happens onto
      a mapped name, unless the source is unmapped and carries that name's inode number already, and
      an open that creates the missing file of a mapped path under another number. */
  ghost predicate Misleads(d: Bytes -> Digest, m: Mount, c: Call) {
    var (s, t) := (m.state, m.inodes);
    && c.Handler?
    && match c.e.step
       case Rename(src, dst, sid, os) =>
         && src != dst
         && RenameHappens(d, s, src, dst, sid, os)
         && dst in t.toIno
         && (src in t.toIno || t.toIno[dst] != s.fs.names[src])
       case Open(p, mode, creat, trunc, sid, os) =>
         OpenSucceeds(s, p, creat, os) && !Exists(s.fs, p) && p in t.toIno && t.toIno[p] != s.fs.nextId
       case _ => false
  }

  lemma RegisterKeeps(t: Inodes, fs: Store, p: Path)
    requires Bijective(t) && Reaches(t, fs) && p in fs.names
    ensures Bijective(Inserted(t, fs.names[p], p)) && Reaches(Inserted(t, fs.names[p], p), fs)
  {
    BijectiveStep(t, Insert(fs.names[p], p));
  }

  lemma TrackStep(d: Bytes -> Digest, m: Mount, c: Call)
    requires TablesOk(m.state) && OnTrack(m)
    ensures OnTrack(Next(d, m, c)) <==> !Misleads(d, m, c)
  {
    match c {
      case Register(p) => if Exists(m.state.fs, p) { RegisterKeeps(m.inodes, m.state.fs, p); }
      case Handler(e) =>
        match e.step {
          case Open(p, mode, creat, trunc, sid, os) => TrackOpen(d, m, e);
          case Create(p, mode, trunc, sid, os) => TrackCreate(d, m, e);
          case Unlink(p, sid, os) =>
            BijectiveStep(m.inodes, RemovePath(p));
            hide Bijective, StoreOk, HandlesOk, StaleReceipt, Forget;
          case Rename(src, dst, sid, os) => TrackRename(d, m, e);
          case _ =>
            NamesAfterOther(d, m.state, e);
            hide Apply;
        }
    }
  }

  lemma TrackOpen(d: Bytes -> Digest, m: Mount, e: Event)
    requires TablesOk(m.state) && OnTrack(m) && e.step.Open?
    ensures OnTrack(Next(d, m, Handler(e))) <==> !Misleads(d, m, Handler(e))
  {
    NamesAfterOpen(d, m.state, e);
    hide Apply;
    var m' := Next(d, m, Handler(e));
    if Misleads(d, m, Handler(e)) {
      var i := m.inodes.toIno[e.step.path];
      assert i in m'.inodes.toPath && m'.inodes.toPath[i] == e.step.path;
    }
  }

  lemma NamesAfterOpen(d: Bytes -> Digest, s: State, e: Event)
    requires e.step.Open? && StoreOk(s.fs)
    ensures var fs' := Apply(d, s, e).0.fs;
            fs'.names == if OpenSucceeds(s, e.step.path, e.step.creat, e.step.os) && !Exists(s.fs, e.step.path)
                         then s.fs.names[e.step.path := s.fs.nextId] else s.fs.names
  {
    hide Check, Acquire;
  }

  lemma TrackCreate(d: Bytes -> Digest, m: Mount, e: Event)
    requires TablesOk(m.state) && OnTrack(m) && e.step.Create?
    ensures OnTrack(Next(d, m, Handler(e)))
  {
    var p, fs := e.step.path, m.state.fs;
    if e.step.os {
      var fs' := OpenFile(fs, p, e.step.trunc).0;
      BijectiveStep(m.inodes, Insert(fs'.names[p], p));
      assert forall q | q in fs'.names && q != p :: q in fs.names && fs.names[q] == fs'.names[q];
      InsertedReaches(m.inodes, fs, fs', p);
      hide OpenFile, Inserted, Bijective;
    }
  }

  lemma InsertedReaches(t: Inodes, fs: Store, fs': Store, p: Path)
    requires Bijective(t) && Reaches(t, fs) && p in fs'.names
    requires forall q | q in fs'.names && q != p :: q in fs.names && fs.names[q] == fs'.names[q]
    ensures Reaches(Inserted(t, fs'.names[p], p), fs')
  {
  }

  lemma AfterRename(d: Bytes -> Digest, m: Mount, e: Event)
    requires e.step.Rename?
    ensures var m' := Next(d, m, Handler(e));
            if RenameHappens(d, m.state, e.step.src, e.step.dst, e.step.sid, e.step.os)
            then && m'.inodes == Moved(m.inodes, e.step.src, e.step.dst)
                 && m'.state.fs == MoveName(m.state.fs, e.step.src, e.step.dst)
            else m'.inodes == m.inodes && m'.state.fs == m.state.fs
  {
    hide Renamed, StaleReceipt, Moved, MoveName;
  }

  lemma TrackRename(d: Bytes -> Digest, m: Mount, e: Event)
    requires OnTrack(m) && e.step.Rename?
    ensures OnTrack(Next(d, m, Handler(e))) <==> !Misleads(d, m, Handler(e))
  {
    hide Next, Apply, StaleReceipt, Bijective, Reaches, Moved, MoveName;
    AfterRename(d, m, e);
    if RenameHappens(d, m.state, e.step.src, e.step.dst, e.step.sid, e.step.os) {
      BijectiveStep(m.inodes, Move(e.step.src, e.step.dst));
      if !Overwrites(m.inodes, Move(e.step.src, e.step.dst)) {
        MovedReaches(m.inodes, m.state.fs, e.step.src, e.step.dst);
      }
    }
  }

  lemma MovedReaches(t: Inodes, fs: Store, src: Path, dst: Path)
    requires Bijective(t) && Reaches(t, fs) && src in fs.names && !Overwrites(t, Move(src, dst))
    ensures Reaches(Moved(t, src, dst), MoveName(fs, src, dst)) <==>
            src == dst || dst !in t.toIno || t.toIno[dst] == fs.names[src]
  {
    var t', fs' := Moved(t, src, dst), MoveName(fs, src, dst);
    if src != dst && dst in t.toIno && t.toIno[dst] != fs.names[src] {
      var i := t.toIno[dst];
      assert i in t'.toPath && t'.toPath[i] == dst;
    }
  }

  /** In every run of handlers and lookups that makes none of those calls, the inode table is a
      bijection and every inode reaches its own file. */
  lemma {:induction false} TrackAlways(d: Bytes -> Digest, m: Mount, calls: seq<Call>)
    requires TablesOk(m.state) && OnTrack(m)
    requires forall k | 0 <= k < |calls| :: !Misleads(d, After(d, m, calls[..k]), calls[k])
    ensures TablesOk(After(d, m, calls).state) && OnTrack(After(d, m, calls))
  {
    hide Apply, Misleads, OnTrack, TablesOk;
    if calls == [] {
    } else {
      var init, c := calls[..|calls| - 1], calls[|calls| - 1];
      forall k | 0 <= k < |init| ensures !Misleads(d, After(d, m, init[..k]), init[k]) {
        assert init[..k] == calls[..k];
      }
      TrackAlways(d, m, init);
      assert calls[..|init|] == init;
      TrackStep(d, After(d, m, init), c);
      if c.Handler? { TablesOkStep(d, After(d, m, init).state, c.e); }
    }
  }

  /** At mount the table knows the root alone. */
  lemma MountIsOnTrack(s: State)
    requires "" !in s.fs.names
    ensures OnTrack(Mount(s, Inserted(Inodes(map[], map[]), 1, "")))
  {
  }

  /** What the first kind does: renaming a file over another that callers know leaves the replaced
      file's inode leading to the new one, so its number no longer tells which file is meant. */
  lemma ReplacedInodeMisleads(d: Bytes -> Digest, m: Mount, e: Event)
    requires TablesOk(m.state) && OnTrack(m) && e.step.Rename? && e.step.src != e.step.dst
    requires RenameHappens(d, m.state, e.step.src, e.step.dst, e.step.sid, e.step.os)
    requires NamedOnce(m.state.fs, e.step.src) && e.step.dst in m.inodes.toIno && Exists(m.state.fs, e.step.dst)
    ensures var (m', i) := (Next(d, m, Handler(e)), m.inodes.toIno[e.step.dst]);
            && i in m'.inodes.toPath && m'.inodes.toPath[i] == e.step.dst
            && e.step.dst in m'.state.fs.names && m'.state.fs.names[e.step.dst] == m.state.fs.names[e.step.src] != i
  {
    hide Renamed, StaleReceipt;
  }
}
