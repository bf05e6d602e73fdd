/** src/fs/mod.rs: the handlers as they run, updating the three tables and the backing store in
    turn. Each one ends in the state, and gives the reply, of its step in the protocol. */
module Filesystem {
  import opened Types
  import opened BackingStore
  import opened HandleTables
  import opened CasTables
  import opened InodeTables
  import opened Protocol
  import opened Directory
  import opened Lookups

  datatype Answer = Answer(reply: Reply) | Enoent | Eacces

  predicate IsDibsIno(ino: nat) {
    ino >= SYNTHETIC_INODE_BASE
  }

  /** The reserved numbers are the last 1001 of the 64-bit range; the two virtual files that can be
      opened are the second and the third of them. */
  lemma SyntheticInodes(ino: nat)
    ensures IsDibsIno(ino) <==> ino >= 0xFFFF_FFFF_FFFF_FC17
    ensures DIBS_STATUS_INO == 0xFFFF_FFFF_FFFF_FC18 && DIBS_LOCKS_INO == 0xFFFF_FFFF_FFFF_FC19
  {
  }

  /** A write open after open(2): the new handle claims the path if its file was there before. */
  function ClaimForWrite(s: State, p: Path, fd: FileId, mode: Mode, pre: Option<Digest>, sid: Sid, now: Time)
    : (State, Reply)
  {
    var handle := HandleState(p, Some(fd), if mode.RdWr? then pre else None, mode, false, sid);
    var fh, ht := s.ht.nextFh, WithHandle(s.ht, handle);
    match pre
    case None => (s.(cas := WithEntry(s.cas, p, now), ht := ht), Opened(fh))
    case Some(actual) =>
      var v := Check(s.cas, p, fh, sid, Some(handle), actual);
      var cas := Acquire(s.cas, p, fh, v, now);
      if !v.Admitted? then (s.(cas := cas, ht := WithoutHandle(ht, fh)), Rejected(v))
      else (s.(cas := if mode.RdWr? then Record(cas, p, actual, sid, now) else cas, ht := ht), Opened(fh))
  }

  lemma OpenForWriteIs(d: Bytes -> Digest, s: State, p: Path, mode: Mode, trunc: bool, sid: Sid, now: Time)
    ensures var (fs, fd) := OpenFile(s.fs, p, trunc);
            OpenForWrite(d, s, p, mode, trunc, sid, now)
            == ClaimForWrite(s.(fs := fs), p, fd, mode, HashFile(d, s.fs, p), sid, now)
  {
    hide Check, Acquire, OpenFile;
  }

  class DibsFs {
    const digest: Bytes -> Digest
    const cas: CasTable
    const handles: HandleTable
    const inodes: InodeTable
    var store: Store

    function View(): State
      reads this, cas, handles
    {
      State(cas.View(), handles.View(), store)
    }

    constructor (digest: Bytes -> Digest, backing: Store)
      ensures Mounted(View()) && store == backing && this.digest == digest
      ensures inodes.View() == Inserted(Inodes(map[], map[]), 1, "")
      ensures fresh(cas) && fresh(handles) && fresh(inodes)
    {
      this.digest := digest;
      store := backing;
      cas := new CasTable();
      handles := new HandleTable();
      inodes := new InodeTable();
      new;
      inodes.Insert(1, "");
    }

    /** The path of a directory entry; an unknown parent counts as the root. */
    function ResolvePath(parent: nat, name: string): (p: Path)
      reads inodes
      ensures parent == 1 || Get(inodes.View().toPath, parent) in {None, Some("")} ==> p == name
      ensures parent != 1 && Get(inodes.View().toPath, parent) !in {None, Some("")} ==>
                p == Get(inodes.View().toPath, parent).value + "/" + name
    {
      var dir := if parent == 1 then None else inodes.GetPath(parent);
      Join(if dir.Some? then dir.value else "", name)
    }

    /** It is a child of the directory the parent's inode leads to. */
    lemma ResolvedIsChild(parent: nat, name: string, dir: Path)
      requires name != "" && '/' !in name && DirOf(inodes.View(), parent) == Some(dir)
      ensures Parent(ResolvePath(parent, name)) == dir
      ensures |ResolvePath(parent, name)| >= |name|
      ensures ResolvePath(parent, name)[|ResolvePath(parent, name)| - |name|..] == name
    {
      ParentOfJoin(dir, name);
    }

    /** What a handler that was given an inode must have done. */
    twostate predicate Handled(ino: nat, step: Path -> Step, now: Time, r: Answer)
      reads this, cas, handles, inodes
    {
      match old(inodes.GetPath(ino))
      case None => r == Enoent && View() == old(View())
      case Some(p) => Answer(Apply(digest, old(View()), Event(step(p), now)).1) == r
                      && View() == Apply(digest, old(View()), Event(step(p), now)).0
    }

    twostate predicate Did(step: Step, now: Time, r: Answer)
      reads this, cas, handles
    {
      && r == Answer(Apply(digest, old(View()), Event(step, now)).1)
      && View() == Apply(digest, old(View()), Event(step, now)).0
    }

    /** The inode table went along with the step. */
    twostate predicate Tracked(step: Step, now: Time)
      reads this, cas, handles, inodes
    {
      inodes.View() == InodesNext(digest, old(inodes.View()), old(View()), Event(step, now))
    }

    method Open(ino: nat, mode: Mode, creat: bool, trunc: bool, sid: Sid, os: bool, now: Time) returns (r: Answer)
      modifies this, cas, handles
      ensures ino == DIBS_STATUS_INO || ino == DIBS_LOCKS_INO ==> Did(OpenVirtual(mode), now, r)
      ensures IsDibsIno(ino) && ino != DIBS_STATUS_INO && ino != DIBS_LOCKS_INO ==> r == Eacces && View() == old(View())
      ensures !IsDibsIno(ino) ==> Handled(ino, p => Step.Open(p, mode, creat, trunc, sid, os), now, r)
    {
      hide OpenFile, ClaimForWrite;
      if ino == DIBS_STATUS_INO || ino == DIBS_LOCKS_INO {
        var fh := handles.Alloc(None, VIRTUAL_PATH, mode, None, 0);
        return Answer(Opened(fh));
      }
      if IsDibsIno(ino) { return Eacces; }
      var path := inodes.GetPath(ino);
      if path.None? { return Enoent; }
      var rel := path.value;

      var preOpenHash := if mode.RdOnly? then None else HashFile(digest, store, rel);
      if !os || !(creat || Exists(store, rel)) { return Answer(OsError); }
      var (after, fd) := OpenFile(store, rel, trunc);
      store := after;

      if mode.RdOnly? {
        var hash := HashFile(digest, store, rel);
        if hash.Some? {
          cas.RecordReader(rel, hash.value, sid, now);
        }
        var fh := handles.Alloc(Some(fd), rel, mode, hash, sid);
        return Answer(Opened(fh));
      }

      OpenForWriteIs(digest, old(View()), rel, mode, trunc, sid, now);
      var reply := OpenToWrite(rel, fd, mode, preOpenHash, sid, now);
      return Answer(reply);
    }

    /** The rest of a write open, once open(2) has succeeded. */
    method OpenToWrite(rel: Path, fd: FileId, mode: Mode, preOpenHash: Option<Digest>, sid: Sid, now: Time)
      returns (r: Reply)
      modifies cas, handles
      ensures (View(), r) == ClaimForWrite(old(View()), rel, fd, mode, preOpenHash, sid, now)
    {
      hide Check, Acquire, Record, WithEntry;
      var fh := handles.Alloc(Some(fd), rel, mode, if mode.RdWr? then preOpenHash else None, sid);
      if preOpenHash.Some? {
        var v := cas.CheckAndAcquireWrite(rel, fh, sid, handles, preOpenHash.value, now);
        if !v.Admitted? {
          var gone := handles.Remove(fh);
          return Rejected(v);
        }
      } else {
        cas.EnsureEntry(rel, now);
      }
      if mode.RdWr? && preOpenHash.Some? {
        cas.RecordReader(rel, preOpenHash.value, sid, now);
      }
      return Opened(fh);
    }

    method Create(parent: nat, name: string, mode: Mode, trunc: bool, sid: Sid, os: bool, now: Time) returns (r: Answer)
      modifies this, cas, handles, inodes
      ensures IsDibsIno(parent) ==> r == Eacces && View() == old(View()) && inodes.View() == old(inodes.View())
      ensures !IsDibsIno(parent) ==> Did(Step.Create(old(ResolvePath(parent, name)), mode, trunc, sid, os), now, r)
      ensures !IsDibsIno(parent) ==> Tracked(Step.Create(old(ResolvePath(parent, name)), mode, trunc, sid, os), now)
    {
      if IsDibsIno(parent) { return Eacces; }
      var rel := ResolvePath(parent, name);
      if !os { return Answer(OsError); }
      var (after, fd) := OpenFile(store, rel, trunc);
      store := after;
      inodes.Insert(fd, rel);
      var hash := HashOrEmpty(digest, store, rel);
      cas.RecordReader(rel, hash, sid, now);
      cas.EnsureEntry(rel, now);
      var fh := handles.Alloc(Some(fd), rel, mode, Some(hash), sid);
      return Answer(Opened(fh));
    }

    method Write(ino: nat, fh: Fh, offset: nat, data: Bytes, n: int, now: Time) returns (r: Answer)
      modifies this, cas, handles
      ensures IsDibsIno(ino) ==> r == Eacces && View() == old(View())
      ensures !IsDibsIno(ino) ==> Did(Step.Write(fh, offset, data, n), now, r)
    {
      if IsDibsIno(ino) { return Eacces; }
      var handle := handles.Lookup(fh);
      if handle.None? { return Answer(BadHandle); }
      var h := handle.value;
      if !cas.HasActiveWriter(h.path) {
        var actual := HashOrEmpty(digest, store, h.path);
        var v := cas.CheckAndAcquireWrite(h.path, fh, h.sid, handles, actual, now);
        if !v.Admitted? { return Answer(Rejected(v)); }
      }
      handles.MarkWritten(fh);
      if n < 0 || h.fd.None? || h.mode.RdOnly? { return Answer(OsError); }
      var stored := data[..if n < |data| then n else |data|];
      store := PatchFile(store, h.fd.value, offset, stored);
      return Answer(Written(|stored|));
    }

    method Flush(ino: nat, fh: Fh, now: Time) returns (r: Answer)
      modifies cas, handles
      ensures IsDibsIno(ino) ==> r == Answer(Done) && View() == old(View())
      ensures !IsDibsIno(ino) ==> Did(Step.Flush(fh), now, r)
    {
      if IsDibsIno(ino) { return Answer(Done); }
      var handle := handles.Lookup(fh);
      if handle.None? { return Answer(Done); }
      var h := handle.value;
      if h.hasWritten {
        var hash := HashFile(digest, store, h.path);
        if hash.Some? {
          cas.RecordReader(h.path, hash.value, h.sid, now);
          handles.MarkFlushed(fh, hash.value);
        }
        cas.ReleaseWrite(h.path, fh);
      }
      return Answer(Done);
    }

    method Release(fh: Fh, now: Time) returns (r: Answer)
      modifies cas, handles
      ensures Did(Step.Release(fh), now, r)
    {
      var gone := handles.Remove(fh);
      if gone.Some? {
        cas.ReleaseWrite(gone.value.path, fh);
      }
      return Answer(Done);
    }

    method Unlink(parent: nat, name: string, sid: Sid, os: bool, now: Time) returns (r: Answer)
      modifies this, cas, inodes
      ensures IsDibsIno(parent) ==> r == Eacces && View() == old(View()) && inodes.View() == old(inodes.View())
      ensures !IsDibsIno(parent) ==> Did(Step.Unlink(old(ResolvePath(parent, name)), sid, os), now, r)
      ensures !IsDibsIno(parent) ==> Tracked(Step.Unlink(old(ResolvePath(parent, name)), sid, os), now)
    {
      if IsDibsIno(parent) { return Eacces; }
      var rel := ResolvePath(parent, name);
      var seen := cas.ReaderHash(sid, rel);
      if seen.Some? {
        var actual := HashFile(digest, store, rel);
        if actual.Some? && seen.value != actual.value {
          return Answer(Rejected(Stale));
        }
      }
      if !os || !Exists(store, rel) { return Answer(OsError); }
      store := RemoveName(store, rel);
      cas.Remove(rel);
      inodes.RemoveByPath(rel);
      return Answer(Done);
    }

    method Rename(parent: nat, name: string, newParent: nat, newName: string, sid: Sid, os: bool, now: Time)
      returns (r: Answer)
      modifies this, cas, inodes
      ensures IsDibsIno(parent) || IsDibsIno(newParent) ==>
                r == Eacces && View() == old(View()) && inodes.View() == old(inodes.View())
      ensures !IsDibsIno(parent) && !IsDibsIno(newParent) ==>
                Did(Step.Rename(old(ResolvePath(parent, name)), old(ResolvePath(newParent, newName)), sid, os), now, r)
      ensures !IsDibsIno(parent) && !IsDibsIno(newParent) ==>
                Tracked(Step.Rename(old(ResolvePath(parent, name)), old(ResolvePath(newParent, newName)), sid, os), now)
    {
      hide Renamed, Moved, MoveName;
      if IsDibsIno(parent) || IsDibsIno(newParent) { return Eacces; }
      var src, dst := ResolvePath(parent, name), ResolvePath(newParent, newName);
      var seenSrc := cas.ReaderHash(sid, src);
      if seenSrc.Some? {
        var actual := HashFile(digest, store, src);
        if actual.Some? && seenSrc.value != actual.value { return Answer(Rejected(Stale)); }
      }
      if Exists(store, dst) {
        var seenDst := cas.ReaderHash(sid, dst);
        if seenDst.Some? {
          var actual := HashFile(digest, store, dst);
          if actual.Some? && seenDst.value != actual.value { return Answer(Rejected(Stale)); }
        }
      }
      if !os || !Exists(store, src) { return Answer(OsError); }
      store := MoveName(store, src, dst);
      inodes.Rename(src, dst);
      cas.Rename(src, dst);
      return Answer(Done);
    }

    /** The size branch of `setattr`. */
    method SetSize(ino: nat, handle: Option<Fh>, size: nat, os: bool, now: Time) returns (r: Answer)
      modifies this, cas
      ensures IsDibsIno(ino) ==> r == Eacces && View() == old(View())
      ensures !IsDibsIno(ino) ==> Handled(ino, p => Step.SetSize(p, handle, size, os), now, r)
    {
      if IsDibsIno(ino) { return Eacces; }
      var path := inodes.GetPath(ino);
      if path.None? { return Enoent; }
      var rel := path.value;
      if handle.Some? {
        var h := handles.Lookup(handle.value);
        var sid := if h.Some? then h.value.sid else 0;
        var actual := HashOrEmpty(digest, store, rel);
        var v := cas.CheckAndAcquireWrite(rel, handle.value, sid, handles, actual, now);
        if !v.Admitted? { return Answer(Rejected(v)); }
      }
      var fd := None;
      var live := false;
      if handle.Some? {
        var h := handles.Lookup(handle.value);
        if h.Some? { fd, live := h.value.fd, true; }
      }
      if !os { return Answer(OsError); }
      if live {
        if fd.None? || fd.value !in store.files { return Answer(OsError); }
        store := SetContent(store, fd.value, Resize(store.files[fd.value], size));
      } else {
        if !Exists(store, rel) { return Answer(OsError); }
        store := SetContent(store, store.names[rel], Resize(store.files[store.names[rel]], size));
      }
      return Answer(Done);
    }

    /** One pass of the eviction thread. */
    method EvictOlderThan(age: nat, now: Time) returns (r: Answer)
      modifies cas
      ensures Did(Step.Evict(age), now, r)
    {
      cas.EvictOlderThan(age, now);
      return Answer(Done);
    }
  }
}
