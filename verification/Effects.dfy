/** What every step does to everything that can be observed, one observable at a time and told in
    plain maps and bytes: the reply, the names and bytes of the backing store, the handles, and the
    entries of the CAS table. Receipts and owners have their own modules. */
module Effects {
  import opened Types
  import opened BackingStore
  import opened HandleTables
  import opened CasTables
  import opened Protocol

  // ---------------------------------------------------------------- the reply

  /** The bytes a path leads to, if it names a file. */
  ghost function BytesAt(fs: Store, p: Path): Option<Bytes> {
    if p in fs.names && fs.names[p] in fs.files then Some(fs.files[fs.names[p]]) else None
  }

  /** A missing file compares as the empty digest. */
  ghost function DigestAt(d: Bytes -> Digest, fs: Store, p: Path): Digest {
    match BytesAt(fs, p)
    case None => []
    case Some(c) => d(c)
  }

  ghost function WriterOf(s: State, p: Path): Option<Fh> {
    if p in s.cas.entries then s.cas.entries[p].owner else None
  }

  ghost function ReceiptHash(s: State, sid: Sid, p: Path): Option<Digest> {
    if (sid, p) in s.cas.readers then Some(s.cas.readers[(sid, p)].hash) else None
  }

  /** An owned path is its owner's; an unowned one goes to whoever expects nothing or what is there. */
  ghost function Ruling(writer: Option<Fh>, fh: Fh, expected: Option<Digest>, actual: Digest): Verdict {
    if writer == Some(fh) then Admitted
    else if writer.Some? then OwnedBy(writer.value)
    else if expected.Some? && expected.value != actual then Stale
    else Admitted
  }

  /** What a live handle expects to find: what it saw itself, else its session's receipt for `p`. */
  ghost function Expects(s: State, fh: Fh, p: Path): Option<Digest> {
    if fh !in s.ht.live then None
    else if s.ht.live[fh].hashAtOpen.Some? then s.ht.live[fh].hashAtOpen
    else ReceiptHash(s, s.ht.live[fh].sid, p)
  }

  ghost function AnswerTo(v: Verdict, otherwise: Reply): Reply {
    if v.Admitted? then otherwise else Rejected(v)
  }

  ghost predicate Outdated(d: Bytes -> Digest, s: State, sid: Sid, p: Path) {
    BytesAt(s.fs, p).Some? && ReceiptHash(s, sid, p).Some? && ReceiptHash(s, sid, p).value != DigestAt(d, s.fs, p)
  }

  ghost function OpenReply(d: Bytes -> Digest, s: State, p: Path, mode: Mode, creat: bool, sid: Sid, os: bool): Reply {
    if !os || (BytesAt(s.fs, p).None? && !creat) then OsError
    else if mode.RdOnly? || BytesAt(s.fs, p).None? then Opened(s.ht.nextFh)
    else
      var expected := if mode.RdWr? then None else ReceiptHash(s, sid, p);
      AnswerTo(Ruling(WriterOf(s, p), s.ht.nextFh, expected, DigestAt(d, s.fs, p)), Opened(s.ht.nextFh))
  }

  /** How many bytes pwrite stores, if it can store any. */
  ghost function WriteReply(d: Bytes -> Digest, s: State, fh: Fh, data: Bytes, n: int): Reply {
    if fh !in s.ht.live then BadHandle
    else
      var h := s.ht.live[fh];
      var done := if n < 0 || h.fd.None? || h.mode.RdOnly? then OsError else Written(if n < |data| then n else |data|);
      if WriterOf(s, h.path).Some? then done
      else AnswerTo(Ruling(None, fh, Expects(s, fh, h.path), DigestAt(d, s.fs, h.path)), done)
  }

  /** The file a resize goes to: the live handle's, else the path's. */
  ghost function ResizeTarget(s: State, p: Path, handle: Option<Fh>): Option<FileId> {
    if handle.Some? && handle.value in s.ht.live then
      var fd := s.ht.live[handle.value].fd;
      if fd.Some? && fd.value in s.fs.files then fd else None
    else if BytesAt(s.fs, p).Some? then Some(s.fs.names[p])
    else None
  }

  ghost function ResizeReply(d: Bytes -> Digest, s: State, p: Path, handle: Option<Fh>, os: bool): Reply {
    var done := if os && ResizeTarget(s, p, handle).Some? then Done else OsError;
    match handle
    case None => done
    case Some(fh) => AnswerTo(Ruling(WriterOf(s, p), fh, Expects(s, fh, p), DigestAt(d, s.fs, p)), done)
  }

  ghost function ReplyOf(d: Bytes -> Digest, s: State, e: Event): Reply {
    match e.step
    case Open(p, mode, creat, trunc, sid, os) => OpenReply(d, s, p, mode, creat, sid, os)
    case OpenVirtual(mode) => Opened(s.ht.nextFh)
    case Create(p, mode, trunc, sid, os) => if os then Opened(s.ht.nextFh) else OsError
    case Write(fh, offset, data, n) => WriteReply(d, s, fh, data, n)
    case Unlink(p, sid, os) =>
      if Outdated(d, s, sid, p) then Rejected(Stale) else if os && BytesAt(s.fs, p).Some? then Done else OsError
    case Rename(src, dst, sid, os) =>
      if Outdated(d, s, sid, src) || Outdated(d, s, sid, dst) then Rejected(Stale)
      else if os && BytesAt(s.fs, src).Some? then Done
      else OsError
    case SetSize(p, handle, size, os) => ResizeReply(d, s, p, handle, os)
    case _ => Done
  }

  /** Every call's answer, whatever the state. */
  lemma ReplyStep(d: Bytes -> Digest, s: State, e: Event)
    ensures Apply(d, s, e).1 == ReplyOf(d, s, e)
  {
    match e.step {
      case Open(p, mode, creat, trunc, sid, os) => ReplyOpen(d, s, e);
      case Write(fh, offset, data, n) => hide PatchFile;
      case SetSize(p, handle, size, os) => hide Resize;
      case Rename(src, dst, sid, os) => hide Renamed, MoveName;
      case _ =>
    }
  }

  lemma ReplyOpen(d: Bytes -> Digest, s: State, e: Event)
    requires e.step.Open?
    ensures Apply(d, s, e).1 == ReplyOf(d, s, e)
  {
    hide OpenFile;
  }

  // ---------------------------------------------------------------- names and bytes

  /** Whether open(2) ran, and what it found: a refused open has run too. */
  ghost predicate Ran(e: Event, reply: Reply) {
    (e.step.Open? && !reply.OsError?) || (e.step.Create? && reply.Opened?)
  }

  /** The file that name `q` leads to after the step. */
  ghost function NameNext(d: Bytes -> Digest, s: State, e: Event, q: Path): Option<FileId> {
    var before, reply := Get(s.fs.names, q), Apply(d, s, e).1;
    if Ran(e, reply) then if q == e.step.path && BytesAt(s.fs, q).None? then Some(s.fs.nextId) else before
    else
      match e.step
      case Unlink(p, sid, os) => if q == p && reply.Done? then None else before
      case Rename(src, dst, sid, os) =>
        if !reply.Done? || src == dst then before
        else if q == src then None
        else if q == dst then Get(s.fs.names, src)
        else before
      case _ => before
  }

  /** Every name after every step. */
  lemma NamesStep(d: Bytes -> Digest, s: State, e: Event, q: Path)
    ensures Get(Apply(d, s, e).0.fs.names, q) == NameNext(d, s, e, q)
  {
    match e.step {
      case Open(p, mode, creat, trunc, sid, os) => NamesOpen(d, s, e, q);
      case Rename(src, dst, sid, os) => hide Renamed, StaleReceipt;
      case Write(fh, offset, data, n) => hide Check, Acquire, Patch;
      case SetSize(p, handle, size, os) => hide Check, Acquire, Resize;
      case _ =>
    }
  }

  lemma NamesOpen(d: Bytes -> Digest, s: State, e: Event, q: Path)
    requires e.step.Open?
    ensures Get(Apply(d, s, e).0.fs.names, q) == NameNext(d, s, e, q)
  {
    hide OpenFile;
    StoreAfterOpen(d, s, e);
    OpenFileIs(s.fs, e.step.path, e.step.trunc, q, 0);
    hide Apply;
  }

  /** An open that ran has left what open(2) leaves. */
  lemma StoreAfterOpen(d: Bytes -> Digest, s: State, e: Event)
    requires e.step.Open?
    ensures Apply(d, s, e).0.fs == if Ran(e, Apply(d, s, e).1) then OpenFile(s.fs, e.step.path, e.step.trunc).0 else s.fs
  {
    hide OpenFile, Check, Acquire;
  }

  lemma OpenFileIs(fs: Store, p: Path, trunc: bool, q: Path, id: FileId)
    ensures var fs' := OpenFile(fs, p, trunc).0;
            if BytesAt(fs, p).None?
            then && Get(fs'.names, q) == (if q == p then Some(fs.nextId) else Get(fs.names, q))
                 && Get(fs'.files, id) == (if id == fs.nextId then Some([]) else Get(fs.files, id))
            else && Get(fs'.names, q) == Get(fs.names, q)
                 && Get(fs'.files, id) == (if trunc && id == fs.names[p] then Some([]) else Get(fs.files, id))
  {
  }

  /** `after` is `before` with the first `n` bytes of `data` at `offset`; a hole reads as zero. */
  ghost predicate HasBytes(before: Bytes, after: Bytes, offset: nat, data: Bytes, n: nat)
    requires n <= |data|
  {
    && |after| == (if n == 0 || offset + n <= |before| then |before| else offset + n)
    && forall k | 0 <= k < |after| ::
         after[k] == if offset <= k < offset + n then data[k - offset] else if k < |before| then before[k] else 0
  }

  /** `after` is `before` cut, or grown with zero bytes, to `size`. */
  ghost predicate HasSize(before: Bytes, after: Bytes, size: nat) {
    && |after| == size
    && forall k | 0 <= k < size :: after[k] == if k < |before| then before[k] else 0
  }

  /** The file this step writes to or resizes, and whether it empties it. */
  ghost predicate Touches(d: Bytes -> Digest, s: State, e: Event, id: FileId) {
    var reply := Apply(d, s, e).1;
    match e.step
    case Write(fh, offset, data, n) => reply.Written? && fh in s.ht.live && s.ht.live[fh].fd == Some(id)
    case SetSize(p, handle, size, os) => reply.Done? && ResizeTarget(s, p, handle) == Some(id)
    case External(p, content) => BytesAt(s.fs, p).Some? && s.fs.names[p] == id
    case Open(p, mode, creat, trunc, sid, os) => Ran(e, reply) && trunc && BytesAt(s.fs, p).Some? && s.fs.names[p] == id
    case Create(p, mode, trunc, sid, os) => Ran(e, reply) && trunc && BytesAt(s.fs, p).Some? && s.fs.names[p] == id
    case _ => false
  }

  ghost predicate Becomes(d: Bytes -> Digest, s: State, e: Event, before: Bytes, after: Bytes) {
    match e.step
    case Write(fh, offset, data, n) =>
      Apply(d, s, e).1.Written? && Apply(d, s, e).1.n <= |data| && HasBytes(before, after, offset, data, Apply(d, s, e).1.n)
    case SetSize(p, handle, size, os) => HasSize(before, after, size)
    case External(p, content) => after == content
    case _ => after == []
  }

  /** The bytes of every file, named or not, after every step: the touched one becomes what the call
      says, byte by byte, the others stay, and a new file starts empty. */
  lemma BytesStep(d: Bytes -> Digest, s: State, e: Event, id: FileId)
    requires TablesOk(s)
    ensures var files' := Apply(d, s, e).0.fs.files;
            if id !in s.fs.files then
              Get(files', id) == if Ran(e, Apply(d, s, e).1) && BytesAt(s.fs, e.step.path).None? && id == s.fs.nextId
                                 then Some([]) else None
            else
              && id in files'
              && (if Touches(d, s, e, id) then Becomes(d, s, e, s.fs.files[id], files'[id])
                  else files'[id] == s.fs.files[id])
  {
    match e.step {
      case Open(p, mode, creat, trunc, sid, os) => BytesOpen(d, s, e, id);
      case Write(fh, offset, data, n) => BytesWrite(d, s, e, id);
      case SetSize(p, handle, size, os) => BytesSetSize(d, s, e, id);
      case Unlink(p, sid, os) => RemovalKeepsFiles(d, s, e);
      case Rename(src, dst, sid, os) => RemovalKeepsFiles(d, s, e);
      case _ => hide HandlesOk;
    }
  }

  /** Unlink and rename are about names: no file is touched. */
  lemma RemovalKeepsFiles(d: Bytes -> Digest, s: State, e: Event)
    requires e.step.Unlink? || e.step.Rename?
    ensures Apply(d, s, e).0.fs.files == s.fs.files
  {
    hide Renamed, Forget, StaleReceipt;
  }

  lemma BytesOpen(d: Bytes -> Digest, s: State, e: Event, id: FileId)
    requires TablesOk(s) && e.step.Open?
    ensures var files' := Apply(d, s, e).0.fs.files;
            Get(files', id) ==
            if id !in s.fs.files then
              if Ran(e, Apply(d, s, e).1) && BytesAt(s.fs, e.step.path).None? && id == s.fs.nextId then Some([]) else None
            else if Touches(d, s, e, id) then Some([])
            else Some(s.fs.files[id])
  {
    StoreAfterOpen(d, s, e);
    OpenFileIs(s.fs, e.step.path, e.step.trunc, e.step.path, id);
    hide Apply, OpenFile;
  }

  lemma BytesWrite(d: Bytes -> Digest, s: State, e: Event, id: FileId)
    requires TablesOk(s) && e.step.Write?
    ensures var files', reply := Apply(d, s, e).0.fs.files, Apply(d, s, e).1;
            && files'.Keys == s.fs.files.Keys
            && (id in s.fs.files ==>
                  if Touches(d, s, e, id) then Becomes(d, s, e, s.fs.files[id], files'[id])
                  else files'[id] == s.fs.files[id])
  {
    hide Check, Acquire, Patch, StoreOk;
    if Touches(d, s, e, id) && id in s.fs.files {
      var n := Apply(d, s, e).1.n;
      PatchHasBytes(s.fs.files[id], e.step.offset, e.step.data, n);
    }
  }

  lemma PatchHasBytes(c: Bytes, offset: nat, data: Bytes, n: nat)
    requires n <= |data|
    ensures HasBytes(c, Patch(c, offset, data[..n]), offset, data, n)
  {
  }

  lemma BytesSetSize(d: Bytes -> Digest, s: State, e: Event, id: FileId)
    requires TablesOk(s) && e.step.SetSize?
    ensures var files', reply := Apply(d, s, e).0.fs.files, Apply(d, s, e).1;
            && files'.Keys == s.fs.files.Keys
            && (id in s.fs.files ==>
                  if Touches(d, s, e, id) then Becomes(d, s, e, s.fs.files[id], files'[id])
                  else files'[id] == s.fs.files[id])
  {
    hide Check, Acquire;
  }

  /** A rename moves the bytes to the new name and leaves every other name's bytes alone. */
  lemma RenameMovesBytes(d: Bytes -> Digest, s: State, e: Event, q: Path)
    requires TablesOk(s) && e.step.Rename? && Apply(d, s, e).1.Done?
    ensures BytesAt(Apply(d, s, e).0.fs, q) ==
            if e.step.src == e.step.dst then BytesAt(s.fs, q)
            else if q == e.step.src then None
            else if q == e.step.dst then BytesAt(s.fs, e.step.src)
            else BytesAt(s.fs, q)
  {
    var s' := Apply(d, s, e).0;
    NamesStep(d, s, e, q);
    hide Apply;
    if q in s'.fs.names {
      BytesStep(d, s, e, s'.fs.names[q]);
    }
  }

  /** An unlink takes one name away: every other name, and every open descriptor's file, that of the
      removed name included, keeps its bytes. */
  lemma UnlinkKeepsBytes(d: Bytes -> Digest, s: State, e: Event, q: Path, f: Fh)
    requires TablesOk(s) && e.step.Unlink? && Apply(d, s, e).1.Done?
    ensures var fs' := Apply(d, s, e).0.fs;
            && BytesAt(fs', q) == (if q == e.step.path then None else BytesAt(s.fs, q))
            && (f in s.ht.live && s.ht.live[f].fd.Some? ==>
                  Get(fs'.files, s.ht.live[f].fd.value) == Get(s.fs.files, s.ht.live[f].fd.value))
  {
    var s' := Apply(d, s, e).0;
    NamesStep(d, s, e, q);
    hide Apply;
    if q in s'.fs.names { BytesStep(d, s, e, s'.fs.names[q]); }
    if f in s.ht.live && s.ht.live[f].fd.Some? { BytesStep(d, s, e, s.ht.live[f].fd.value); }
  }

  // ---------------------------------------------------------------- handles

  /** The handle an opening call files under the next id. */
  ghost function NewHandle(d: Bytes -> Digest, s: State, e: Event): HandleState {
    var file := (p: Path) => if BytesAt(s.fs, p).Some? then Some(s.fs.names[p]) else Some(s.fs.nextId);
    var found := (p: Path, trunc: bool) => if BytesAt(s.fs, p).Some? && !trunc then BytesAt(s.fs, p).value else [];
    match e.step
    case Open(p, mode, creat, trunc, sid, os) =>
      var saw := if mode.RdOnly? then Some(d(found(p, trunc)))
                 else if mode.RdWr? && BytesAt(s.fs, p).Some? then Some(d(BytesAt(s.fs, p).value))
                 else None;
      HandleState(p, file(p), saw, mode, false, sid)
    case Create(p, mode, trunc, sid, os) => HandleState(p, file(p), Some(d(found(p, trunc))), mode, false, sid)
    case OpenVirtual(mode) => HandleState(".dibs/virtual", None, None, mode, false, 0)
    case _ => HandleState("", None, None, RdOnly, false, 0)
  }

  /** The state of handle `f` after the step: a write marks it, a written flush of a file that still
      has its name records the digest and clears the mark, a release drops it. */
  ghost function HandleNext(d: Bytes -> Digest, s: State, e: Event, f: Fh): Option<HandleState> {
    var before, reply := Get(s.ht.live, f), Apply(d, s, e).1;
    if reply == Opened(f) then Some(NewHandle(d, s, e))
    else if before.None? then None
    else
      match e.step
      case Write(g, offset, data, n) =>
        if g == f && !reply.Rejected? then Some(before.value.(hasWritten := true)) else before
      case Flush(g) =>
        if g == f && before.value.hasWritten && BytesAt(s.fs, before.value.path).Some?
        then Some(before.value.(hashAtOpen := Some(d(BytesAt(s.fs, before.value.path).value)), hasWritten := false))
        else before
      case Release(g) => if g == f then None else before
      case _ => before
  }

  /** Every handle, in full, after every step; an id is used up by every open that ran. */
  lemma HandlesStep(d: Bytes -> Digest, s: State, e: Event, f: Fh)
    requires TablesOk(s)
    ensures var s' := Apply(d, s, e).0;
            && Get(s'.ht.live, f) == HandleNext(d, s, e, f)
            && s'.ht.nextFh == s.ht.nextFh + if Ran(e, Apply(d, s, e).1) || e.step.OpenVirtual? then 1 else 0
  {
    match e.step {
      case Open(p, mode, creat, trunc, sid, os) => HandlesOpen(d, s, e, f);
      case Write(g, offset, data, n) => hide Check, Acquire, PatchFile, StoreOk;
      case SetSize(p, handle, size, os) => hide Check, Acquire, Resize, StoreOk;
      case Rename(src, dst, sid, os) => hide Renamed, MoveName, StoreOk, StaleReceipt;
      case _ => hide StoreOk;
    }
  }

  lemma HandlesOpen(d: Bytes -> Digest, s: State, e: Event, f: Fh)
    requires TablesOk(s) && e.step.Open?
    ensures var s' := Apply(d, s, e).0;
            && Get(s'.ht.live, f) == HandleNext(d, s, e, f)
            && s'.ht.nextFh == s.ht.nextFh + if Ran(e, Apply(d, s, e).1) then 1 else 0
  {
    hide Check, Acquire, StoreOk;
  }

  // ---------------------------------------------------------------- entries

  /** The entry as it was, or a new one that nobody owns. */
  ghost function Ensured(before: Option<FileState>, now: Time): Option<FileState> {
    if before.Some? then before else Some(FileState(None, now))
  }

  /** An admitted claim stamps the entry; a refused one leaves at most a new ownerless entry behind. */
  ghost function ClaimedEntry(before: Option<FileState>, f: Fh, reply: Reply, now: Time): Option<FileState> {
    if reply.Rejected? then Ensured(before, now) else Some(FileState(Some(f), now))
  }

  /** The entry of `q`, owner and access time, after the step. */
  ghost function EntryNext(d: Bytes -> Digest, s: State, e: Event, q: Path): Option<FileState> {
    var before, reply := Get(s.cas.entries, q), Apply(d, s, e).1;
    match e.step
    case Open(p, mode, creat, trunc, sid, os) =>
      if p != q || mode.RdOnly? || reply.OsError? then before
      else if BytesAt(s.fs, p).None? then Ensured(before, e.now)
      else ClaimedEntry(before, s.ht.nextFh, reply, e.now)
    case Create(p, mode, trunc, sid, os) => if p == q && reply.Opened? then Ensured(before, e.now) else before
    case Write(f, offset, data, n) =>
      if f !in s.ht.live || s.ht.live[f].path != q || (before.Some? && before.value.owner.Some?) then before
      else ClaimedEntry(before, f, reply, e.now)
    case SetSize(p, handle, size, os) =>
      if p == q && handle.Some? then ClaimedEntry(before, handle.value, reply, e.now) else before
    case Flush(f) =>
      if f in s.ht.live && s.ht.live[f].path == q && s.ht.live[f].hasWritten && before.Some? && before.value.owner == Some(f)
      then Some(before.value.(owner := None)) else before
    case Release(f) =>
      if f in s.ht.live && s.ht.live[f].path == q && before.Some? && before.value.owner == Some(f)
      then Some(before.value.(owner := None)) else before
    case Unlink(p, sid, os) => if p == q && reply.Done? then None else before
    case Rename(src, dst, sid, os) =>
      if !reply.Done? || src == dst || src !in s.cas.entries then before
      else if q == src then None
      else if q == dst then Get(s.cas.entries, src)
      else before
    case Evict(age) =>
      if before.Some? && before.value.owner.None? && before.value.lastAccess < e.now - age then None else before
    case _ => before
  }

  /** Every entry, owner and access time, after every step. */
  lemma EntryStep(d: Bytes -> Digest, s: State, e: Event, q: Path)
    ensures Get(Apply(d, s, e).0.cas.entries, q) == EntryNext(d, s, e, q)
  {
    match e.step {
      case Open(p, mode, creat, trunc, sid, os) => EntryOpen(d, s, e, q);
      case Write(f, offset, data, n) => EntryWrite(d, s, e, q);
      case SetSize(p, handle, size, os) => EntrySetSize(d, s, e, q);
      case Rename(src, dst, sid, os) =>
        hide MoveEntry, MoveReceipts, MoveName, StaleReceipt;
        MovedEntry(s.cas.entries, src, dst, q);
      case _ =>
    }
  }

  /** A source with an entry takes it along, and over the destination's. */
  lemma MovedEntry(entries: map<Path, FileState>, src: Path, dst: Path, q: Path)
    ensures Get(MoveEntry(entries, src, dst), q) ==
            if src !in entries || src == dst then Get(entries, q)
            else if q == src then None
            else if q == dst then Some(entries[src])
            else Get(entries, q)
  {
  }

  lemma EntryOpen(d: Bytes -> Digest, s: State, e: Event, q: Path)
    requires e.step.Open?
    ensures Get(Apply(d, s, e).0.cas.entries, q) == EntryNext(d, s, e, q)
  {
    hide OpenFile, Current;
    if e.step.mode.RdOnly? || BytesAt(s.fs, e.step.path).None? {
      hide Check, Acquire;
    } else {
      EntryClaim(d, s, e, q);
    }
  }

  lemma EntryClaim(d: Bytes -> Digest, s: State, e: Event, q: Path)
    requires e.step.Open? && !e.step.mode.RdOnly? && BytesAt(s.fs, e.step.path).Some?
    ensures Get(Apply(d, s, e).0.cas.entries, q) == EntryNext(d, s, e, q)
  {
    hide OpenFile, Current;
  }

  lemma EntryWrite(d: Bytes -> Digest, s: State, e: Event, q: Path)
    requires e.step.Write?
    ensures Get(Apply(d, s, e).0.cas.entries, q) == EntryNext(d, s, e, q)
  {
    hide PatchFile, Current;
  }

  lemma EntrySetSize(d: Bytes -> Digest, s: State, e: Event, q: Path)
    requires e.step.SetSize?
    ensures Get(Apply(d, s, e).0.cas.entries, q) == EntryNext(d, s, e, q)
  {
    hide Truncated, Current;
  }
}
