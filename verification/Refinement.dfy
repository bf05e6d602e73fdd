/** The `entries` table refines a bare map from path to owner: an absent entry, an ownerless entry
    and any access time are indistinguishable to callers. */
module Refinement {
  import opened Types
  import opened BackingStore
  import opened HandleTables
  import opened CasTables
  import opened Protocol
  import opened Ownership

  // ---------------------------------------------------------------- the simple machine

  /** The file system without the entry table: who is writing what, and nothing else. A path has
      an owner or it has none, and the owner map never needs sweeping. */
  datatype Lean = Lean(owners: map<Path, Fh>, readers: Readers, ht: Handles, fs: Store)

  /** The digest the claimant counts on: the one its handle saw, else its session's receipt. */
  function Expected(l: Lean, p: Path, sid: Sid, handle: Option<HandleState>): Option<Digest> {
    match handle
    case None => None
    case Some(h) =>
      if h.hashAtOpen.Some? then h.hashAtOpen
      else if (sid, p) in l.readers then Some(l.readers[(sid, p)].hash)
      else None
  }

  function Claim(l: Lean, p: Path, fh: Fh, sid: Sid, handle: Option<HandleState>, actual: Digest): Verdict {
    if p !in l.owners then
      if Expected(l, p, sid, handle) in {None, Some(actual)} then Admitted else Stale
    else if l.owners[p] == fh then Admitted
    else OwnedBy(l.owners[p])
  }

  function Give(owners: map<Path, Fh>, p: Path, fh: Fh, v: Verdict): map<Path, Fh> {
    if v.Admitted? then owners[p := fh] else owners
  }

  function TakeBack(owners: map<Path, Fh>, p: Path, fh: Fh): map<Path, Fh> {
    if p in owners && owners[p] == fh then owners - {p} else owners
  }

  function Note(l: Lean, p: Path, hash: Digest, sid: Sid, now: Time): Lean {
    l.(readers := l.readers[(sid, p) := ReaderEntry(hash, now)])
  }

  function LeanOpen(d: Bytes -> Digest, l: Lean, p: Path, mode: Mode, creat: bool, trunc: bool,
                    sid: Sid, os: bool, now: Time): (Lean, Reply)
  {
    var (fs, fd) := OpenFile(l.fs, p, trunc);
    var fh := l.ht.nextFh;
    if !os || (!creat && !Exists(l.fs, p)) then (l, OsError)
    else if mode.RdOnly? then
      var hash := HashOrEmpty(d, fs, p);
      var ht := WithHandle(l.ht, HandleState(p, Some(fd), Some(hash), RdOnly, false, sid));
      (Note(l.(ht := ht, fs := fs), p, hash, sid, now), Opened(fh))
    else if !Exists(l.fs, p) then
      (l.(ht := WithHandle(l.ht, HandleState(p, Some(fd), None, mode, false, sid)), fs := fs), Opened(fh))
    else
      var actual := HashOrEmpty(d, l.fs, p);
      var handle := HandleState(p, Some(fd), if mode.RdWr? then Some(actual) else None, mode, false, sid);
      var v := Claim(l, p, fh, sid, Some(handle), actual);
      var l' := l.(owners := Give(l.owners, p, fh, v), ht := WithHandle(l.ht, handle), fs := fs);
      if !v.Admitted? then (l'.(ht := WithoutHandle(l'.ht, fh)), Rejected(v))
      else (if mode.RdWr? then Note(l', p, actual, sid, now) else l', Opened(fh))
  }

  function LeanCreate(d: Bytes -> Digest, l: Lean, p: Path, mode: Mode, trunc: bool, sid: Sid, os: bool, now: Time)
    : (Lean, Reply)
  {
    if !os then (l, OsError)
    else
      var (fs, fd) := OpenFile(l.fs, p, trunc);
      var hash := HashOrEmpty(d, fs, p);
      var ht := WithHandle(l.ht, HandleState(p, Some(fd), Some(hash), mode, false, sid));
      (Note(l.(ht := ht, fs := fs), p, hash, sid, now), Opened(l.ht.nextFh))
  }

  function LeanWrite(d: Bytes -> Digest, l: Lean, fh: Fh, offset: nat, data: Bytes, n: int): (Lean, Reply) {
    if fh !in l.ht.live then (l, BadHandle)
    else
      var h := l.ht.live[fh];
      var v := if h.path in l.owners then Admitted
               else Claim(l, h.path, fh, h.sid, Some(h), HashOrEmpty(d, l.fs, h.path));
      if !v.Admitted? then (l, Rejected(v))
      else
        var owners := if h.path in l.owners then l.owners else l.owners[h.path := fh];
        var l' := l.(owners := owners, ht := WithState(l.ht, fh, h.(hasWritten := true)));
        if n < 0 || h.fd.None? || h.mode.RdOnly? then (l', OsError)
        else
          var stored := Stored(h, data, n);
          (l'.(fs := PatchFile(l.fs, h.fd.value, offset, stored)), Written(|stored|))
  }

  function LeanFlush(d: Bytes -> Digest, l: Lean, fh: Fh, now: Time): Lean {
    if fh !in l.ht.live || !l.ht.live[fh].hasWritten then l
    else
      var h := l.ht.live[fh];
      var l' := l.(owners := TakeBack(l.owners, h.path, fh));
      match HashFile(d, l.fs, h.path)
      case None => l'
      case Some(hash) =>
        Note(l'.(ht := WithState(l.ht, fh, h.(hashAtOpen := Some(hash), hasWritten := false))), h.path, hash, h.sid, now)
  }

  predicate LeanStale(d: Bytes -> Digest, l: Lean, sid: Sid, p: Path) {
    (sid, p) in l.readers && Exists(l.fs, p) && l.readers[(sid, p)].hash != HashOrEmpty(d, l.fs, p)
  }

  function LeanUnlink(d: Bytes -> Digest, l: Lean, p: Path, sid: Sid, os: bool): (Lean, Reply) {
    if LeanStale(d, l, sid, p) then (l, Rejected(Stale))
    else if !os || !Exists(l.fs, p) then (l, OsError)
    else
      var readers := map k | k in l.readers && k.1 != p :: l.readers[k];
      (l.(owners := l.owners - {p}, readers := readers, fs := RemoveName(l.fs, p)), Done)
  }

  /** An owned source takes its owner along; a source nobody owns leaves the destination's alone. */
  function LeanRename(d: Bytes -> Digest, l: Lean, src: Path, dst: Path, sid: Sid, os: bool): (Lean, Reply) {
    if LeanStale(d, l, sid, src) || LeanStale(d, l, sid, dst) then (l, Rejected(Stale))
    else if !os || !Exists(l.fs, src) then (l, OsError)
    else
      var owners := if src in l.owners then (l.owners - {src})[dst := l.owners[src]] else l.owners;
      (l.(owners := owners, readers := MoveReceipts(l.readers, src, dst), fs := MoveName(l.fs, src, dst)), Done)
  }

  function LeanSetSize(d: Bytes -> Digest, l: Lean, p: Path, handle: Option<Fh>, size: nat, os: bool): (Lean, Reply) {
    var h := if handle.Some? then Get(l.ht.live, handle.value) else None;
    var v := if handle.None? then Admitted
             else Claim(l, p, handle.value, if h.Some? then h.value.sid else 0, h, HashOrEmpty(d, l.fs, p));
    if !v.Admitted? then (l, Rejected(v))
    else
      var l' := if handle.Some? then l.(owners := l.owners[p := handle.value]) else l;
      match Truncated(l.ht, l.fs, p, handle, size, os)
      case None => (l', OsError)
      case Some(fs) => (l'.(fs := fs), Done)
  }

  function LeanApply(d: Bytes -> Digest, l: Lean, e: Event): (Lean, Reply) {
    match e.step
    case Open(p, mode, creat, trunc, sid, os) => LeanOpen(d, l, p, mode, creat, trunc, sid, os, e.now)
    case OpenVirtual(mode) =>
      (l.(ht := WithHandle(l.ht, HandleState(VIRTUAL_PATH, None, None, mode, false, 0))), Opened(l.ht.nextFh))
    case Create(p, mode, trunc, sid, os) => LeanCreate(d, l, p, mode, trunc, sid, os, e.now)
    case Write(fh, offset, data, n) => LeanWrite(d, l, fh, offset, data, n)
    case Flush(fh) => (LeanFlush(d, l, fh, e.now), Done)
    case Release(fh) =>
      if fh !in l.ht.live then (l, Done)
      else (l.(owners := TakeBack(l.owners, l.ht.live[fh].path, fh), ht := WithoutHandle(l.ht, fh)), Done)
    case Unlink(p, sid, os) => LeanUnlink(d, l, p, sid, os)
    case Rename(src, dst, sid, os) => LeanRename(d, l, src, dst, sid, os)
    case SetSize(p, handle, size, os) => LeanSetSize(d, l, p, handle, size, os)
    case Evict(age) => (l.(readers := map k | k in l.readers && l.readers[k].lastAccess >= e.now - age :: l.readers[k]), Done)
    case External(p, content) =>
      (if Exists(l.fs, p) then l.(fs := SetContent(l.fs, l.fs.names[p], content)) else l, Done)
  }

  // ---------------------------------------------------------------- one step

  function OwnerMap(c: Cas): map<Path, Fh> {
    map p | p in OwnedPaths(c) :: c.entries[p].owner.value
  }

  function Slim(s: State): Lean {
    Lean(OwnerMap(s.cas), s.cas.readers, s.ht, s.fs)
  }

  lemma OwnerMapIs(c: Cas, p: Path)
    ensures Owner(c, p) == Get(OwnerMap(c), p)
  {
  }

  /** The two machines give the same answer, and agree on everything but the owners. */
  ghost predicate SameButOwners(d: Bytes -> Digest, s: State, e: Event) {
    var (s', r) := Apply(d, s, e);
    var (l', q) := LeanApply(d, Slim(s), e);
    r == q && l'.readers == s'.cas.readers && l'.ht == s'.ht && l'.fs == s'.fs
  }

  /** The one call on which the tables part: a rename that happens, of a source that nobody owns
      but that has an entry, onto an owned destination, whose owner the entry table then drops. */
  ghost predicate DropsOwner(d: Bytes -> Digest, s: State, e: Event) {
    && e.step.Rename?
    && e.step.src != e.step.dst
    && RenameHappens(d, s, e.step.src, e.step.dst, e.step.sid, e.step.os)
    && e.step.src in s.cas.entries
    && Owner(s.cas, e.step.src).None?
    && Owner(s.cas, e.step.dst).Some?
  }

  lemma SameClaim(s: State, p: Path, fh: Fh, sid: Sid, handle: Option<HandleState>, actual: Digest)
    ensures Claim(Slim(s), p, fh, sid, handle, actual) == Check(s.cas, p, fh, sid, handle, actual)
  {
    hide OwnerMap;
    OwnerMapIs(s.cas, p);
  }

  lemma SlimReplies(d: Bytes -> Digest, s: State, e: Event)
    ensures SameButOwners(d, s, e)
  {
    hide OwnerMap;
    match e.step {
      case Open(p, mode, creat, trunc, sid, os) => SlimOpen(d, s, e);
      case Write(fh, offset, data, n) => SlimWrite(d, s, e);
      case SetSize(p, handle, size, os) => SlimSetSize(d, s, e);
      case Unlink(p, sid, os) => SlimNames(d, s, e);
      case Rename(src, dst, sid, os) => SlimNames(d, s, e);
      case _ =>
    }
  }

  lemma SlimNames(d: Bytes -> Digest, s: State, e: Event)
    requires e.step.Unlink? || e.step.Rename?
    ensures SameButOwners(d, s, e)
  {
    hide OwnerMap, MoveReceipts, MoveName, RemoveName;
  }

  lemma SlimOpen(d: Bytes -> Digest, s: State, e: Event)
    requires e.step.Open?
    ensures SameButOwners(d, s, e)
  {
    hide OwnerMap, OpenFile, Check, Claim, Give;
    var (p, sid) := (e.step.path, e.step.sid);
    match HashFile(d, s.fs, p) {
      case None =>
      case Some(actual) =>
        var fd := OpenFile(s.fs, p, e.step.trunc).1;
        var handle := HandleState(p, Some(fd), if e.step.mode.RdWr? then Some(actual) else None, e.step.mode, false, sid);
        SameClaim(s, p, s.ht.nextFh, sid, Some(handle), actual);
    }
  }

  lemma SlimWrite(d: Bytes -> Digest, s: State, e: Event)
    requires e.step.Write?
    ensures SameButOwners(d, s, e)
  {
    hide OwnerMap, Check, Claim, Owner, PatchFile, Stored;
    if e.step.fh in s.ht.live {
      var h := s.ht.live[e.step.fh];
      OwnerMapIs(s.cas, h.path);
      SameClaim(s, h.path, e.step.fh, h.sid, Some(h), HashOrEmpty(d, s.fs, h.path));
    }
  }

  lemma SlimSetSize(d: Bytes -> Digest, s: State, e: Event)
    requires e.step.SetSize?
    ensures SameButOwners(d, s, e)
  {
    hide OwnerMap, Check, Claim, Truncated;
    if e.step.handle.Some? {
      var f := e.step.handle.value;
      var h := Get(s.ht.live, f);
      SameClaim(s, e.step.path, f, if h.Some? then h.value.sid else 0, h, HashOrEmpty(d, s.fs, e.step.path));
    }
  }

  /** The simple machine's owner of `q` after the step is the table's, but for the dropped one. */
  lemma SlimOwner(d: Bytes -> Digest, s: State, e: Event, q: Path)
    requires SameButOwners(d, s, e)
    ensures Get(LeanApply(d, Slim(s), e).0.owners, q) ==
            if DropsOwner(d, s, e) && q == e.step.dst then Owner(s.cas, q) else Owner(Apply(d, s, e).0.cas, q)
  {
    hide Apply, OwnerMap;
    OwnerStep(d, s, e, q);
    OwnerMapIs(s.cas, q);
    match e.step {
      case Open(p, mode, creat, trunc, sid, os) => SlimOwnerOpen(d, s, e, q);
      case Write(fh, offset, data, n) => SlimOwnerWrite(d, s, e, q);
      case SetSize(p, handle, size, os) => SlimOwnerSetSize(d, s, e, q);
      case Rename(src, dst, sid, os) => SlimOwnerRename(d, s, e, q);
      case _ =>
    }
  }

  lemma SlimOwnerOpen(d: Bytes -> Digest, s: State, e: Event, q: Path)
    requires e.step.Open? && SameButOwners(d, s, e)
    ensures Get(LeanApply(d, Slim(s), e).0.owners, q) == OwnerNext(d, s, e, q)
  {
    hide Apply, OwnerMap, Claim, OpenFile;
    OwnerMapIs(s.cas, q);
  }

  lemma SlimOwnerWrite(d: Bytes -> Digest, s: State, e: Event, q: Path)
    requires e.step.Write? && SameButOwners(d, s, e)
    ensures Get(LeanApply(d, Slim(s), e).0.owners, q) == OwnerNext(d, s, e, q)
  {
    hide Apply, OwnerMap, Claim, PatchFile, Stored;
    OwnerMapIs(s.cas, q);
  }

  lemma SlimOwnerSetSize(d: Bytes -> Digest, s: State, e: Event, q: Path)
    requires e.step.SetSize? && SameButOwners(d, s, e)
    ensures Get(LeanApply(d, Slim(s), e).0.owners, q) == OwnerNext(d, s, e, q)
  {
    hide Apply, OwnerMap, Claim, Truncated;
    OwnerMapIs(s.cas, q);
  }

  lemma SlimOwnerRename(d: Bytes -> Digest, s: State, e: Event, q: Path)
    requires e.step.Rename? && SameButOwners(d, s, e)
    ensures Get(LeanApply(d, Slim(s), e).0.owners, q) ==
            if DropsOwner(d, s, e) && q == e.step.dst then Owner(s.cas, q) else OwnerNext(d, s, e, q)
  {
    hide Apply, OwnerMap, MoveReceipts, MoveName;
    RenameReply(d, s, e);
    OwnerMapIs(s.cas, q);
    OwnerMapIs(s.cas, e.step.src);
  }

  /** Step for step the entry table does what the simple machine does: the answers are always the
      same, and so are the states, exactly when the call is not a dropping rename. */
  lemma SlimStep(d: Bytes -> Digest, s: State, e: Event)
    ensures LeanApply(d, Slim(s), e).1 == Apply(d, s, e).1
    ensures LeanApply(d, Slim(s), e).0 == Slim(Apply(d, s, e).0) <==> !DropsOwner(d, s, e)
  {
    hide LeanApply, Apply, OwnerMap;
    var s', l' := Apply(d, s, e).0, LeanApply(d, Slim(s), e).0;
    SlimReplies(d, s, e);
    forall q ensures Get(l'.owners, q) ==
                     if DropsOwner(d, s, e) && q == e.step.dst then Owner(s.cas, q) else Get(OwnerMap(s'.cas), q)
    {
      SlimOwner(d, s, e, q);
      OwnerMapIs(s'.cas, q);
    }
    if DropsOwner(d, s, e) {
      OwnerStep(d, s, e, e.step.dst);
      OwnerMapIs(s'.cas, e.step.dst);
      RenameReply(d, s, e);
    } else {
      SameLookups(l'.owners, OwnerMap(s'.cas));
    }
  }

  lemma RenameReply(d: Bytes -> Digest, s: State, e: Event)
    requires e.step.Rename?
    ensures Apply(d, s, e).1.Done? <==> RenameHappens(d, s, e.step.src, e.step.dst, e.step.sid, e.step.os)
  {
  }

  // ---------------------------------------------------------------- runs

  /** The simple machine on the same calls. */
  ghost function LeanAt(h: History, i: nat): Lean
    requires i <= |h.events|
    decreases i
  {
    if i == 0 then Slim(h.start) else LeanApply(h.digest, LeanAt(h, i - 1), h.events[i - 1]).0
  }

  /** Over any run without a dropping rename, the file system is in the simple machine's state and
      gives the simple machine's answers, and the paths it counts as being written are its owners. */
  lemma {:induction false} RefinesBareOwners(h: History, i: nat)
    requires i <= |h.events|
    requires forall k: nat | k < i :: !DropsOwner(h.digest, h.At(k), h.events[k])
    ensures Slim(h.At(i)) == LeanAt(h, i)
    ensures OwnedPaths(h.At(i).cas) == LeanAt(h, i).owners.Keys
    ensures i < |h.events| ==> h.ReplyTo(i) == LeanApply(h.digest, LeanAt(h, i), h.events[i]).1
    decreases i
  {
    hide Apply, LeanApply, DropsOwner;
    if i == 0 {
    } else {
      RefinesBareOwners(h, i - 1);
      SlimStep(h.digest, h.At(i - 1), h.events[i - 1]);
    }
    if i < |h.events| { SlimStep(h.digest, h.At(i), h.events[i]); }
  }

  // ---------------------------------------------------------------- two tables

  /** The same to every caller: only ownerless entries and access times of entries may differ. */
  ghost predicate Alike(s: State, t: State) {
    Slim(s) == Slim(t)
  }

  /** The one call that tells two such tables apart: a rename that happens, of a source nobody owns
      onto an owned destination, when one table has an entry for the source and the other has none. */
  ghost predicate TellsApart(d: Bytes -> Digest, s: State, t: State, e: Event) {
    && e.step.Rename?
    && e.step.src != e.step.dst
    && RenameHappens(d, s, e.step.src, e.step.dst, e.step.sid, e.step.os)
    && Owner(s.cas, e.step.src).None?
    && Owner(s.cas, e.step.dst).Some?
    && (e.step.src in s.cas.entries <==> e.step.src !in t.cas.entries)
  }

  lemma TellsApartIs(d: Bytes -> Digest, s: State, t: State, e: Event)
    requires Alike(s, t)
    ensures TellsApart(d, s, t, e) <==> DropsOwner(d, s, e) != DropsOwner(d, t, e)
  {
    hide OwnerMap;
    if e.step.Rename? {
      OwnerMapIs(s.cas, e.step.src);
      OwnerMapIs(t.cas, e.step.src);
      OwnerMapIs(s.cas, e.step.dst);
      OwnerMapIs(t.cas, e.step.dst);
    }
  }

  /** A rename that drops the destination's owner in both leaves them alike. */
  lemma BothDrop(d: Bytes -> Digest, s: State, t: State, e: Event)
    requires Alike(s, t) && DropsOwner(d, s, e) && DropsOwner(d, t, e)
    ensures Alike(Apply(d, s, e).0, Apply(d, t, e).0)
  {
    hide Apply, LeanApply, OwnerMap;
    var s', t' := Apply(d, s, e).0, Apply(d, t, e).0;
    SlimReplies(d, s, e);
    SlimReplies(d, t, e);
    forall q ensures Get(OwnerMap(s'.cas), q) == Get(OwnerMap(t'.cas), q) {
      SlimOwner(d, s, e, q);
      SlimOwner(d, t, e, q);
      OwnerMapIs(s'.cas, q);
      OwnerMapIs(t'.cas, q);
      if q == e.step.dst {
        OwnerStep(d, s, e, q);
        OwnerStep(d, t, e, q);
        RenameReply(d, s, e);
        RenameReply(d, t, e);
      }
    }
    SameLookups(OwnerMap(s'.cas), OwnerMap(t'.cas));
  }

  /** Every call answers the same on both, and leaves them alike exactly when it is not that one. */
  lemma AlikeStep(d: Bytes -> Digest, s: State, t: State, e: Event)
    requires Alike(s, t)
    ensures Apply(d, s, e).1 == Apply(d, t, e).1
    ensures Alike(Apply(d, s, e).0, Apply(d, t, e).0) <==> !TellsApart(d, s, t, e)
  {
    hide Apply, LeanApply, Slim, TellsApart, DropsOwner;
    SlimStep(d, s, e);
    SlimStep(d, t, e);
    TellsApartIs(d, s, t, e);
    if DropsOwner(d, s, e) && DropsOwner(d, t, e) { BothDrop(d, s, t, e); }
  }
}
