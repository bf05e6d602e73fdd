/** src/fs/mod.rs: the FUSE handlers as atomic steps over the CAS table, the handle
    table and the backing store. Each label carries what the outside world decides:
    the caller's session, whether the system call succeeds, the bytes and the clock. */
module Protocol {
  import opened Types
  import opened BackingStore
  import opened HandleTables
  import opened CasTables

  datatype State = State(cas: Cas, ht: Handles, fs: Store)

  datatype Reply =
    | Opened(fh: Fh)
    | Written(n: nat)
    | Done
    | Rejected(why: Verdict)   // EIO
    | BadHandle                // EBADF
    | OsError                  // errno of the failed system call

  datatype Step =
    | Open(path: Path, mode: Mode, creat: bool, trunc: bool, sid: Sid, os: bool)
    | OpenVirtual(mode: Mode)
    | Create(path: Path, mode: Mode, trunc: bool, sid: Sid, os: bool)
    | Write(fh: Fh, offset: nat, data: Bytes, n: int)   // n: what pwrite returns
    | Flush(fh: Fh)
    | Release(fh: Fh)
    | Unlink(path: Path, sid: Sid, os: bool)
    | Rename(src: Path, dst: Path, sid: Sid, os: bool)
    | SetSize(path: Path, handle: Option<Fh>, size: nat, os: bool)
    | Evict(age: nat)
    | External(path: Path, content: Bytes)   // an edit that bypasses the mount

  datatype Event = Event(step: Step, now: Time)

  const VIRTUAL_PATH: Path := ".dibs/virtual"

  function HashFile(d: Bytes -> Digest, fs: Store, p: Path): Option<Digest> {
    match Content(fs, p)
    case None => None
    case Some(c) => Some(d(c))
  }

  /** `hash_file(..).unwrap_or_default()` */
  function HashOrEmpty(d: Bytes -> Digest, fs: Store, p: Path): Digest {
    match Content(fs, p)
    case None => []
    case Some(c) => d(c)
  }

  // ---------------------------------------------------------------- open and create

  /** The digest is taken before open(2), which may truncate; the check comes after it. */
  function OpenForWrite(d: Bytes -> Digest, s: State, p: Path, mode: Mode, trunc: bool, sid: Sid, now: Time)
    : (State, Reply)
  {
    var pre := HashFile(d, s.fs, p);
    var (fs, fd) := OpenFile(s.fs, p, trunc);
    var handle := HandleState(p, Some(fd), if mode.RdWr? then pre else None, mode, false, sid);
    var fh := s.ht.nextFh;
    var ht := WithHandle(s.ht, handle);
    match pre
    case None => (State(WithEntry(s.cas, p, now), ht, fs), Opened(fh))
    case Some(actual) =>
      var v := Check(s.cas, p, fh, sid, Some(handle), actual);
      var cas := Acquire(s.cas, p, fh, v, now);
      if !v.Admitted? then
        (State(cas, WithoutHandle(ht, fh), fs), Rejected(v))
      else if mode.RdWr? then
        (State(Record(cas, p, actual, sid, now), ht, fs), Opened(fh))
      else
        (State(cas, ht, fs), Opened(fh))
  }

  function OpenForRead(d: Bytes -> Digest, s: State, p: Path, trunc: bool, sid: Sid, now: Time): (State, Reply) {
    var (fs, fd) := OpenFile(s.fs, p, trunc);
    var hash := HashOrEmpty(d, fs, p);
    (State(Record(s.cas, p, hash, sid, now),
           WithHandle(s.ht, HandleState(p, Some(fd), Some(hash), RdOnly, false, sid)),
           fs),
     Opened(s.ht.nextFh))
  }

  predicate OpenSucceeds(s: State, p: Path, creat: bool, os: bool) {
    os && (creat || Exists(s.fs, p))
  }

  function DoOpen(d: Bytes -> Digest, s: State, p: Path, mode: Mode, creat: bool, trunc: bool,
                  sid: Sid, os: bool, now: Time): (State, Reply)
  {
    if !OpenSucceeds(s, p, creat, os) then (s, OsError)
    else if mode.RdOnly? then OpenForRead(d, s, p, trunc, sid, now)
    else OpenForWrite(d, s, p, mode, trunc, sid, now)
  }

  function DoOpenVirtual(s: State, mode: Mode): (State, Reply) {
    (s.(ht := WithHandle(s.ht, HandleState(VIRTUAL_PATH, None, None, mode, false, 0))), Opened(s.ht.nextFh))
  }

  function DoCreate(d: Bytes -> Digest, s: State, p: Path, mode: Mode, trunc: bool, sid: Sid, os: bool, now: Time)
    : (State, Reply)
  {
    if !os then (s, OsError)
    else
      var (fs, fd) := OpenFile(s.fs, p, trunc);
      var hash := HashOrEmpty(d, fs, p);
      (State(WithEntry(Record(s.cas, p, hash, sid, now), p, now),
             WithHandle(s.ht, HandleState(p, Some(fd), Some(hash), mode, false, sid)),
             fs),
       Opened(s.ht.nextFh))
  }

  // ---------------------------------------------------------------- write, flush, release

  /** The gate of `write`: any owner of the path lets every handle through. */
  function WriteVerdict(d: Bytes -> Digest, s: State, fh: Fh): Verdict
    requires fh in s.ht.live
  {
    var h := s.ht.live[fh];
    if Owner(s.cas, h.path).Some? then Admitted
    else Check(s.cas, h.path, fh, h.sid, Some(h), HashOrEmpty(d, s.fs, h.path))
  }

  /** The bytes pwrite puts in the file, none when it fails. */
  function Stored(h: HandleState, data: Bytes, n: int): Bytes {
    if n < 0 || h.fd.None? || h.mode.RdOnly? then []
    else data[..if n < |data| then n else |data|]
  }

  function DoWrite(d: Bytes -> Digest, s: State, fh: Fh, offset: nat, data: Bytes, n: int, now: Time)
    : (State, Reply)
  {
    if fh !in s.ht.live then (s, BadHandle)
    else
      var h := s.ht.live[fh];
      var v := WriteVerdict(d, s, fh);
      var cas := if Owner(s.cas, h.path).Some? then s.cas else Acquire(s.cas, h.path, fh, v, now);
      if !v.Admitted? then (s.(cas := cas), Rejected(v))
      else
        var ht := WithState(s.ht, fh, h.(hasWritten := true));
        if n < 0 || h.fd.None? || h.mode.RdOnly? then (State(cas, ht, s.fs), OsError)
        else
          var stored := Stored(h, data, n);
          (State(cas, ht, PatchFile(s.fs, h.fd.value, offset, stored)), Written(|stored|))
  }

  function DoFlush(d: Bytes -> Digest, s: State, fh: Fh, now: Time): (State, Reply) {
    if fh !in s.ht.live || !s.ht.live[fh].hasWritten then (s, Done)
    else
      var h := s.ht.live[fh];
      match HashFile(d, s.fs, h.path)
      case None => (s.(cas := Released(s.cas, h.path, fh)), Done)
      case Some(hash) =>
        (s.(cas := Released(Record(s.cas, h.path, hash, h.sid, now), h.path, fh),
            ht := WithState(s.ht, fh, h.(hashAtOpen := Some(hash), hasWritten := false))),
         Done)
  }

  function DoRelease(s: State, fh: Fh): (State, Reply) {
    if fh !in s.ht.live then (s, Done)
    else
      (s.(cas := Released(s.cas, s.ht.live[fh].path, fh), ht := WithoutHandle(s.ht, fh)), Done)
  }

  // ---------------------------------------------------------------- unlink, rename, truncate

  /** The session holds a receipt for the existing file that differs from its content. */
  predicate StaleReceipt(d: Bytes -> Digest, s: State, sid: Sid, p: Path) {
    && (sid, p) in s.cas.readers
    && Exists(s.fs, p)
    && HashFile(d, s.fs, p) != Some(s.cas.readers[(sid, p)].hash)
  }

  function DoUnlink(d: Bytes -> Digest, s: State, p: Path, sid: Sid, os: bool): (State, Reply) {
    if StaleReceipt(d, s, sid, p) then (s, Rejected(Stale))
    else if !os || !Exists(s.fs, p) then (s, OsError)
    else (s.(cas := Forget(s.cas, p), fs := RemoveName(s.fs, p)), Done)
  }

  predicate RenameHappens(d: Bytes -> Digest, s: State, src: Path, dst: Path, sid: Sid, os: bool) {
    && !StaleReceipt(d, s, sid, src)
    && !StaleReceipt(d, s, sid, dst)
    && os
    && Exists(s.fs, src)
  }

  function DoRename(d: Bytes -> Digest, s: State, src: Path, dst: Path, sid: Sid, os: bool): (State, Reply) {
    if StaleReceipt(d, s, sid, src) || StaleReceipt(d, s, sid, dst) then (s, Rejected(Stale))
    else if !RenameHappens(d, s, src, dst, sid, os) then (s, OsError)
    else (s.(cas := Renamed(s.cas, src, dst), fs := MoveName(s.fs, src, dst)), Done)
  }

  /** ftruncate on a live handle's file, truncate on the path otherwise. */
  function Truncated(ht: Handles, fs: Store, p: Path, handle: Option<Fh>, size: nat, os: bool): Option<Store> {
    if !os then None
    else if handle.Some? && handle.value in ht.live then
      match ht.live[handle.value].fd
      case None => None
      case Some(fd) => if fd in fs.files then Some(SetContent(fs, fd, Resize(fs.files[fd], size))) else None
    else if Exists(fs, p) then
      Some(SetContent(fs, fs.names[p], Resize(fs.files[fs.names[p]], size)))
    else None
  }

  /** A call without a handle is not checked; a dead handle is checked for ownership only. */
  function SetSizeVerdict(d: Bytes -> Digest, s: State, p: Path, handle: Option<Fh>): Verdict {
    match handle
    case None => Admitted
    case Some(fh) =>
      var h := Get(s.ht.live, fh);
      Check(s.cas, p, fh, if h.Some? then h.value.sid else 0, h, HashOrEmpty(d, s.fs, p))
  }

  function DoSetSize(d: Bytes -> Digest, s: State, p: Path, handle: Option<Fh>, size: nat, os: bool, now: Time)
    : (State, Reply)
  {
    var v := SetSizeVerdict(d, s, p, handle);
    var cas := if handle.Some? then Acquire(s.cas, p, handle.value, v, now) else s.cas;
    if !v.Admitted? then (s.(cas := cas), Rejected(v))
    else
      match Truncated(s.ht, s.fs, p, handle, size, os)
      case None => (s.(cas := cas), OsError)
      case Some(fs) => (s.(cas := cas, fs := fs), Done)
  }

  function DoEvict(s: State, age: nat, now: Time): (State, Reply) {
    (s.(cas := Sweep(s.cas, now - age)), Done)
  }

  function DoExternal(s: State, p: Path, content: Bytes): (State, Reply) {
    (if Exists(s.fs, p) then s.(fs := SetContent(s.fs, s.fs.names[p], content)) else s, Done)
  }

  // ---------------------------------------------------------------- runs

  function Apply(d: Bytes -> Digest, s: State, e: Event): (State, Reply) {
    match e.step
    case Open(p, mode, creat, trunc, sid, os) => DoOpen(d, s, p, mode, creat, trunc, sid, os, e.now)
    case OpenVirtual(mode) => DoOpenVirtual(s, mode)
    case Create(p, mode, trunc, sid, os) => DoCreate(d, s, p, mode, trunc, sid, os, e.now)
    case Write(fh, offset, data, n) => DoWrite(d, s, fh, offset, data, n, e.now)
    case Flush(fh) => DoFlush(d, s, fh, e.now)
    case Release(fh) => DoRelease(s, fh)
    case Unlink(p, sid, os) => DoUnlink(d, s, p, sid, os)
    case Rename(src, dst, sid, os) => DoRename(d, s, src, dst, sid, os)
    case SetSize(p, handle, size, os) => DoSetSize(d, s, p, handle, size, os, e.now)
    case Evict(age) => DoEvict(s, age, e.now)
    case External(p, content) => DoExternal(s, p, content)
  }

  /** Mounting: both tables start empty over whatever the backing directory holds. */
  predicate Mounted(s: State) {
    s.cas == EMPTY_CAS && s.ht == NO_HANDLES
  }

  /** One run: any interleaving of any sessions' calls, sweeps and outside edits. */
  datatype History = History(digest: Bytes -> Digest, start: State, events: seq<Event>) {
    /** The state before event `i`. */
    ghost function At(i: nat): State
      requires i <= |events|
      decreases i
    {
      if i == 0 then start else Apply(digest, At(i - 1), events[i - 1]).0
    }

    ghost function ReplyTo(i: nat): Reply
      requires i < |events|
    {
      Apply(digest, At(i), events[i]).1
    }

    /** A run of the mounted file system over a well-formed backing store. */
    ghost predicate Mount() {
      Mounted(start) && StoreOk(start.fs)
    }
  }

  lemma AtNext(h: History, i: nat)
    requires i < |h.events|
    ensures h.At(i + 1) == Apply(h.digest, h.At(i), h.events[i]).0
  {
    hide Apply;
  }

  /** A new handle always gets the next id. */
  lemma OpenedIsFresh(d: Bytes -> Digest, s: State, e: Event)
    requires Apply(d, s, e).1.Opened?
    ensures Apply(d, s, e).1.fh == s.ht.nextFh < Apply(d, s, e).0.ht.nextFh
  {
  }

  /** Facts of every reachable state, whatever the callers do. */
  ghost predicate TablesOk(s: State) {
    StoreOk(s.fs) && HandlesOk(s.ht, s.fs)
  }

  ghost predicate HandlesOk(ht: Handles, fs: Store) {
    && ht.nextFh >= 1
    && (forall f | f in ht.live :: f < ht.nextFh && (ht.live[f].fd.Some? ==> ht.live[f].fd.value in fs.files))
  }

  /** Every handler changes the store and the handles only in these ways. */
  lemma TablesOkStep(d: Bytes -> Digest, s: State, e: Event)
    requires TablesOk(s)
    ensures TablesOk(Apply(d, s, e).0)
  {
    match e.step {
      case Open(p, mode, creat, trunc, sid, os) =>
        OpenKeepsStore(s.fs, p, trunc);
        TablesOkOpen(d, s, e);
      case Create(p, mode, trunc, sid, os) =>
        OpenKeepsStore(s.fs, p, trunc);
      case Write(fh, offset, data, n) =>
        if fh in s.ht.live && s.ht.live[fh].fd.Some? {
          PatchKeepsStore(s.fs, s.ht.live[fh].fd.value, offset, Stored(s.ht.live[fh], data, n));
        }
        TablesOkWrite(d, s, e);
      case Unlink(p, sid, os) => NamesKeepStore(s.fs, p, p);
      case Rename(src, dst, sid, os) =>
        NamesKeepStore(s.fs, src, dst);
        hide Renamed, MoveName, StoreOk;
      case SetSize(p, handle, size, os) => TablesOkSetSize(d, s, e);
      case External(p, content) =>
        if Exists(s.fs, p) { SetKeepsStore(s.fs, s.fs.names[p], content); }
      case _ => hide StoreOk;
    }
  }

  lemma TablesOkOpen(d: Bytes -> Digest, s: State, e: Event)
    requires TablesOk(s) && e.step.Open?
    requires Extends(s.fs, OpenFile(s.fs, e.step.path, e.step.trunc).0)
    ensures TablesOk(Apply(d, s, e).0)
  {
    hide Check, Acquire, StoreOk;
  }

  lemma TablesOkWrite(d: Bytes -> Digest, s: State, e: Event)
    requires TablesOk(s) && e.step.Write?
    requires e.step.fh in s.ht.live && s.ht.live[e.step.fh].fd.Some? ==>
               Extends(s.fs, PatchFile(s.fs, s.ht.live[e.step.fh].fd.value, e.step.offset,
                                       Stored(s.ht.live[e.step.fh], e.step.data, e.step.n)))
    ensures TablesOk(Apply(d, s, e).0)
  {
  }

  lemma TablesOkSetSize(d: Bytes -> Digest, s: State, e: Event)
    requires TablesOk(s) && e.step.SetSize?
    ensures TablesOk(Apply(d, s, e).0)
  {
    match Truncated(s.ht, s.fs, e.step.path, e.step.handle, e.step.size, e.step.os)
    case None =>
    case Some(fs) =>
      assert Extends(s.fs, fs);
  }

  lemma {:induction false} TablesOkAlways(h: History, i: nat)
    requires h.Mount()
    requires i <= |h.events|
    ensures TablesOk(h.At(i))
    decreases i
  {
    if i == 0 {
    } else {
      TablesOkAlways(h, i - 1);
      TablesOkStep(h.digest, h.At(i - 1), h.events[i - 1]);
    }
  }

  ghost predicate NoHardLinks(fs: Store) {
    forall p :: NamedOnce(fs, p)
  }

  /** No handler gives a file a second name. */
  lemma NoHardLinksStep(d: Bytes -> Digest, s: State, e: Event)
    requires TablesOk(s) && NoHardLinks(s.fs)
    ensures NoHardLinks(Apply(d, s, e).0.fs)
  {
    if e.step.Open? || e.step.Create? {
      OpenMakesNoLink(s.fs, e.step.path, e.step.trunc);
      hide Check, Acquire, OpenFile, NoHardLinks;
    } else if e.step.Rename? {
      hide Renamed, StaleReceipt, NoHardLinks;
      if Exists(s.fs, e.step.src) { MoveMakesNoLink(s.fs, e.step.src, e.step.dst); }
    } else {
      hide Apply;
      NamesAfterOther(d, s, e);
      FewerNames(s.fs, Apply(d, s, e).0.fs);
    }
  }

  lemma MoveMakesNoLink(fs: Store, src: Path, dst: Path)
    requires NoHardLinks(fs) && src in fs.names
    ensures NoHardLinks(MoveName(fs, src, dst))
  {
    assert NamedOnce(fs, src);
    forall p ensures NamedOnce(MoveName(fs, src, dst), p) {
      assert NamedOnce(fs, p);
    }
  }

  lemma FewerNames(fs: Store, after: Store)
    requires NoHardLinks(fs)
    requires forall p | p in after.names :: p in fs.names && after.names[p] == fs.names[p]
    ensures NoHardLinks(after)
  {
    forall p ensures NamedOnce(after, p) {
      assert NamedOnce(fs, p);
    }
  }

  lemma OpenMakesNoLink(fs: Store, q: Path, trunc: bool)
    requires StoreOk(fs) && NoHardLinks(fs)
    ensures NoHardLinks(OpenFile(fs, q, trunc).0)
  {
    var after := OpenFile(fs, q, trunc).0;
    forall p ensures NamedOnce(after, p) {
      assert NamedOnce(fs, p);
      assert fs.nextId !in fs.files;
    }
  }

  lemma NamesAfterOther(d: Bytes -> Digest, s: State, e: Event)
    requires !e.step.Open? && !e.step.Create? && !e.step.Rename?
    ensures Apply(d, s, e).0.fs.names == s.fs.names - if e.step.Unlink? && Apply(d, s, e).1.Done? then {e.step.path} else {}
  {
    hide Check, Acquire;
  }

  lemma {:induction false} NoHardLinksAlways(h: History, i: nat)
    requires h.Mount() && NoHardLinks(h.start.fs) && i <= |h.events|
    ensures NoHardLinks(h.At(i).fs)
    decreases i
  {
    hide Apply, NoHardLinks;
    if i == 0 {
    } else {
      NoHardLinksAlways(h, i - 1);
      TablesOkAlways(h, i - 1);
      NoHardLinksStep(h.digest, h.At(i - 1), h.events[i - 1]);
    }
  }
}
