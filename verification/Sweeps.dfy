/** Eviction: what a sweep keeps, what it lets through, and when the collect-then-remove form
    is as good as an atomic one. */
module Sweeps {
  import opened Types
  import opened BackingStore
  import opened HandleTables
  import opened CasTables
  import opened Protocol
  import opened Ownership

  // ---------------------------------------------------------------- the atomic sweep

  /** A sweep keeps precisely the owned or recently used entries and the recent receipts. */
  lemma SweepKeeps(c: Cas, cutoff: Time, p: Path, sid: Sid)
    ensures Get(Sweep(c, cutoff).entries, p) ==
            if p in c.entries && (c.entries[p].owner.Some? || c.entries[p].lastAccess >= cutoff)
            then Some(c.entries[p]) else None
    ensures Receipt(Sweep(c, cutoff), sid, p) ==
            if (sid, p) in c.readers && c.readers[(sid, p)].lastAccess >= cutoff
            then Some(c.readers[(sid, p)]) else None
    ensures Owner(Sweep(c, cutoff), p) == Owner(c, p)
  {
  }

  /** Two sweeps are one sweep at the later cutoff. */
  lemma SweepTwice(c: Cas, a: Time, b: Time)
    ensures Sweep(Sweep(c, a), b) == Sweep(c, if a < b then b else a)
  {
  }

  /** A sweep only loosens the check, and this is exactly what it loosens: a stale receipt older
      than the cutoff stops counting, so the write it would have refused becomes a blind one. */
  lemma SweepLoosens(c: Cas, cutoff: Time, p: Path, fh: Fh, sid: Sid, handle: Option<HandleState>, actual: Digest)
    ensures var before, after := Check(c, p, fh, sid, handle, actual),
                                 Check(Sweep(c, cutoff), p, fh, sid, handle, actual);
            && (before.Admitted? ==> after.Admitted?)
            && (before.OwnedBy? ==> after == before)
            && (before.Stale? ==>
                  (after.Admitted? <==> handle.value.hashAtOpen.None? && c.readers[(sid, p)].lastAccess < cutoff))
  {
  }

  /** An entry acquired at `now` outlives, even once released, every sweep up to that time. */
  lemma RecentUseSurvives(c: Cas, p: Path, fh: Fh, now: Time, cutoff: Time)
    requires cutoff <= now
    ensures p in Sweep(Released(Acquire(c, p, fh, Admitted, now), p, fh), cutoff).entries
    ensures p !in c.entries ==> p in Sweep(WithEntry(c, p, now), cutoff).entries
  {
  }

  // ---------------------------------------------------------------- the two-phase sweep

  function Finish(s: State, gone: set<Path>, cutoff: Time): State {
    s.(cas := FinishSweep(s.cas, gone, cutoff))
  }

  /** The paths whose ownership entry the event consults or changes. */
  ghost function EntriesUsed(s: State, e: Event): set<Path> {
    match e.step
    case Open(p, mode, creat, trunc, sid, os) => if mode.RdOnly? then {} else {p}
    case Create(p, mode, trunc, sid, os) => {p}
    case Write(f, offset, data, n) => if f in s.ht.live then {s.ht.live[f].path} else {}
    case Flush(f) => if f in s.ht.live && Owner(s.cas, s.ht.live[f].path) == Some(f) then {s.ht.live[f].path} else {}
    case Release(f) => if f in s.ht.live && Owner(s.cas, s.ht.live[f].path) == Some(f) then {s.ht.live[f].path} else {}
    case Rename(src, dst, sid, os) => {src, dst}
    case SetSize(p, handle, size, os) => if handle.Some? then {p} else {}
    case _ => {}
  }

  ghost predicate OldReceipt(s: State, sid: Sid, p: Path, cutoff: Time) {
    (sid, p) in s.cas.readers && s.cas.readers[(sid, p)].lastAccess < cutoff
  }

  /** The event consults no receipt older than the cutoff, and moves none over a newer one. */
  ghost predicate NeedsNoOldReceipt(s: State, e: Event, cutoff: Time) {
    match e.step
    case Open(p, mode, creat, trunc, sid, os) => mode.WrOnly? ==> !OldReceipt(s, sid, p, cutoff)
    case Write(f, offset, data, n) => f in s.ht.live ==> !OldReceipt(s, s.ht.live[f].sid, s.ht.live[f].path, cutoff)
    case SetSize(p, handle, size, os) =>
      handle.Some? && handle.value in s.ht.live ==> !OldReceipt(s, s.ht.live[handle.value].sid, p, cutoff)
    case Unlink(p, sid, os) => !OldReceipt(s, sid, p, cutoff)
    case Rename(src, dst, sid, os) =>
      && !OldReceipt(s, sid, src, cutoff)
      && !OldReceipt(s, sid, dst, cutoff)
      && forall x: Sid | OldReceipt(s, x, src, cutoff) :: (x, dst) !in s.cas.readers || OldReceipt(s, x, dst, cutoff)
    case _ => true
  }

  ghost predicate Independent(s: State, e: Event, gone: set<Path>, cutoff: Time) {
    EntriesUsed(s, e) !! gone && NeedsNoOldReceipt(s, e, cutoff) && e.now >= cutoff
  }

  // Each operation on the table commutes with the second phase.

  lemma FinishEntry(c: Cas, gone: set<Path>, cutoff: Time, p: Path, fh: Fh, v: Verdict, now: Time)
    requires p !in gone
    ensures FinishSweep(WithEntry(c, p, now), gone, cutoff) == WithEntry(FinishSweep(c, gone, cutoff), p, now)
    ensures FinishSweep(Acquire(c, p, fh, v, now), gone, cutoff) == Acquire(FinishSweep(c, gone, cutoff), p, fh, v, now)
  {
  }

  lemma FinishReleased(c: Cas, gone: set<Path>, cutoff: Time, p: Path, fh: Fh)
    requires p in gone ==> Owner(c, p) != Some(fh)
    ensures FinishSweep(Released(c, p, fh), gone, cutoff) == Released(FinishSweep(c, gone, cutoff), p, fh)
  {
  }

  lemma FinishRecord(c: Cas, gone: set<Path>, cutoff: Time, p: Path, hash: Digest, sid: Sid, now: Time)
    requires now >= cutoff
    ensures FinishSweep(Record(c, p, hash, sid, now), gone, cutoff) == Record(FinishSweep(c, gone, cutoff), p, hash, sid, now)
  {
  }

  lemma FinishForget(c: Cas, gone: set<Path>, cutoff: Time, p: Path)
    ensures FinishSweep(Forget(c, p), gone, cutoff) == Forget(FinishSweep(c, gone, cutoff), p)
  {
  }

  lemma FinishSweepSweep(c: Cas, gone: set<Path>, cutoff: Time, b: Time)
    ensures FinishSweep(Sweep(c, b), gone, cutoff) == Sweep(FinishSweep(c, gone, cutoff), b)
  {
  }

  lemma FinishCheck(c: Cas, gone: set<Path>, cutoff: Time, p: Path, fh: Fh, sid: Sid, handle: Option<HandleState>, actual: Digest)
    requires p !in gone
    requires handle.Some? && handle.value.hashAtOpen.None? && (sid, p) in c.readers ==>
               c.readers[(sid, p)].lastAccess >= cutoff
    ensures Check(FinishSweep(c, gone, cutoff), p, fh, sid, handle, actual) == Check(c, p, fh, sid, handle, actual)
    ensures Owner(FinishSweep(c, gone, cutoff), p) == Owner(c, p)
  {
  }

  lemma FinishMoveEntry(entries: map<Path, FileState>, gone: set<Path>, src: Path, dst: Path)
    requires src !in gone && dst !in gone
    ensures MoveEntry(entries, src, dst) - gone == MoveEntry(entries - gone, src, dst)
  {
  }

  function Recent(readers: Readers, cutoff: Time): Readers {
    map k | k in readers && readers[k].lastAccess >= cutoff :: readers[k]
  }

  lemma FinishMoveReceipts(readers: Readers, cutoff: Time, src: Path, dst: Path)
    requires forall x: Sid | (x, src) in readers && readers[(x, src)].lastAccess < cutoff ::
               (x, dst) !in readers || readers[(x, dst)].lastAccess < cutoff
    ensures Recent(MoveReceipts(readers, src, dst), cutoff) == MoveReceipts(Recent(readers, cutoff), src, dst)
  {
    forall k: (Sid, Path)
      ensures Get(Recent(MoveReceipts(readers, src, dst), cutoff), k) == Get(MoveReceipts(Recent(readers, cutoff), src, dst), k)
    {
      hide MoveReceipts;
      MovedReceipt(readers, src, dst, k.0, k.1);
      MovedReceipt(Recent(readers, cutoff), src, dst, k.0, k.1);
      assert k == (k.0, k.1);
      assert Get(MoveReceipts(readers, src, dst), k) == Get(MoveReceipts(readers, src, dst), (k.0, k.1));
    }
    SameLookups(Recent(MoveReceipts(readers, src, dst), cutoff), MoveReceipts(Recent(readers, cutoff), src, dst));
  }

  ghost predicate Commutes(d: Bytes -> Digest, s: State, e: Event, gone: set<Path>, cutoff: Time) {
    Apply(d, Finish(s, gone, cutoff), e) == (Finish(Apply(d, s, e).0, gone, cutoff), Apply(d, s, e).1)
  }

  /** The second phase commutes with every event that is independent of it. */
  lemma FinishCommutes(d: Bytes -> Digest, s: State, e: Event, gone: set<Path>, cutoff: Time)
    requires Independent(s, e, gone, cutoff)
    ensures Commutes(d, s, e, gone, cutoff)
  {
    match e.step {
      case Open(p, mode, creat, trunc, sid, os) => CommutesOpen(d, s, e, gone, cutoff);
      case OpenVirtual(mode) =>
      case Create(p, mode, trunc, sid, os) =>
        var hash := HashOrEmpty(d, OpenFile(s.fs, p, trunc).0, p);
        FinishRecord(s.cas, gone, cutoff, p, hash, sid, e.now);
        FinishEntry(Record(s.cas, p, hash, sid, e.now), gone, cutoff, p, 0, Stale, e.now);
      case Write(f, offset, data, n) => CommutesWrite(d, s, e, gone, cutoff);
      case Flush(f) => CommutesFlush(d, s, e, gone, cutoff);
      case Release(f) =>
        if f in s.ht.live { FinishReleased(s.cas, gone, cutoff, s.ht.live[f].path, f); }
      case Unlink(p, sid, os) => FinishForget(s.cas, gone, cutoff, p);
      case Rename(src, dst, sid, os) => CommutesRename(d, s, e, gone, cutoff);
      case SetSize(p, handle, size, os) => CommutesSetSize(d, s, e, gone, cutoff);
      case Evict(age) => FinishSweepSweep(s.cas, gone, cutoff, e.now - age);
      case External(p, content) =>
    }
  }

  lemma CommutesOpen(d: Bytes -> Digest, s: State, e: Event, gone: set<Path>, cutoff: Time)
    requires Independent(s, e, gone, cutoff) && e.step.Open?
    ensures Commutes(d, s, e, gone, cutoff)
  {
    hide Check, Acquire, FinishSweep, WithEntry, Record, Exists;
    var (p, sid) := (e.step.path, e.step.sid);
    var (fs, fd) := OpenFile(s.fs, p, e.step.trunc);
    if e.step.mode.RdOnly? {
      FinishRecord(s.cas, gone, cutoff, p, HashOrEmpty(d, fs, p), sid, e.now);
    } else {
      var fh := s.ht.nextFh;
      match HashFile(d, s.fs, p) {
        case None => FinishEntry(s.cas, gone, cutoff, p, fh, Stale, e.now);
        case Some(actual) =>
          var handle := HandleState(p, Some(fd), if e.step.mode.RdWr? then Some(actual) else None, e.step.mode, false, sid);
          FinishCheck(s.cas, gone, cutoff, p, fh, sid, Some(handle), actual);
          var v := Check(s.cas, p, fh, sid, Some(handle), actual);
          FinishEntry(s.cas, gone, cutoff, p, fh, v, e.now);
          FinishRecord(Acquire(s.cas, p, fh, v, e.now), gone, cutoff, p, actual, sid, e.now);
      }
    }
  }

  lemma CommutesWrite(d: Bytes -> Digest, s: State, e: Event, gone: set<Path>, cutoff: Time)
    requires Independent(s, e, gone, cutoff) && e.step.Write?
    ensures Commutes(d, s, e, gone, cutoff)
  {
    hide Check, Acquire, FinishSweep, PatchFile, Owner;
    var f := e.step.fh;
    if f in s.ht.live {
      var h := s.ht.live[f];
      FinishCheck(s.cas, gone, cutoff, h.path, f, h.sid, Some(h), HashOrEmpty(d, s.fs, h.path));
      FinishEntry(s.cas, gone, cutoff, h.path, f, WriteVerdict(d, s, f), e.now);
    }
  }

  lemma CommutesFlush(d: Bytes -> Digest, s: State, e: Event, gone: set<Path>, cutoff: Time)
    requires Independent(s, e, gone, cutoff) && e.step.Flush?
    ensures Commutes(d, s, e, gone, cutoff)
  {
    hide FinishSweep, Released, Record;
    var f := e.step.fh;
    if f in s.ht.live {
      var h := s.ht.live[f];
      FinishReleased(s.cas, gone, cutoff, h.path, f);
      var hash := HashOrEmpty(d, s.fs, h.path);
      FinishRecord(s.cas, gone, cutoff, h.path, hash, h.sid, e.now);
      RecordKeepsOwner(s.cas, h.path, hash, h.sid, e.now);
      FinishReleased(Record(s.cas, h.path, hash, h.sid, e.now), gone, cutoff, h.path, f);
    }
  }

  lemma RecordKeepsOwner(c: Cas, p: Path, hash: Digest, sid: Sid, now: Time)
    ensures Owner(Record(c, p, hash, sid, now), p) == Owner(c, p)
  {
  }

  lemma CommutesSetSize(d: Bytes -> Digest, s: State, e: Event, gone: set<Path>, cutoff: Time)
    requires Independent(s, e, gone, cutoff) && e.step.SetSize?
    ensures Commutes(d, s, e, gone, cutoff)
  {
    hide Check, Acquire, FinishSweep;
    if e.step.handle.Some? {
      var p, f := e.step.path, e.step.handle.value;
      var h := Get(s.ht.live, f);
      FinishCheck(s.cas, gone, cutoff, p, f, if h.Some? then h.value.sid else 0, h, HashOrEmpty(d, s.fs, p));
      FinishEntry(s.cas, gone, cutoff, p, f, SetSizeVerdict(d, s, p, e.step.handle), e.now);
    }
  }

  lemma CommutesRename(d: Bytes -> Digest, s: State, e: Event, gone: set<Path>, cutoff: Time)
    requires Independent(s, e, gone, cutoff) && e.step.Rename?
    ensures Commutes(d, s, e, gone, cutoff)
  {
    hide MoveReceipts, MoveEntry, MoveName;
    assert forall k | k in FinishSweep(s.cas, gone, cutoff).readers :: k in s.cas.readers;
    FinishMoveEntry(s.cas.entries, gone, e.step.src, e.step.dst);
    FinishMoveReceipts(s.cas.readers, cutoff, e.step.src, e.step.dst);
    assert FinishSweep(s.cas, gone, cutoff).readers == Recent(s.cas.readers, cutoff);
    assert FinishSweep(Renamed(s.cas, e.step.src, e.step.dst), gone, cutoff).readers
        == Recent(MoveReceipts(s.cas.readers, e.step.src, e.step.dst), cutoff);
  }

  // ---------------------------------------------------------------- interleavings

  /** No event of the run before `n` touches a collected entry or needs an old receipt. */
  ghost predicate StaysClear(h: History, n: nat, gone: set<Path>, cutoff: Time)
    requires n <= |h.events|
  {
    forall k: nat | k < n :: Independent(h.At(k), h.events[k], gone, cutoff)
  }

  /** The run that starts with the sweep already done, atomically. */
  ghost function SweptFirst(h: History, cutoff: Time): History {
    h.(start := Finish(h.start, Collected(h.start.cas, cutoff), cutoff))
  }

  /** Collecting, letting any such events run, and then removing ends in the state an atomic sweep
      before those events leads to, and every one of them gets the same answer. */
  lemma {:induction false} TwoPhaseIsAtomic(h: History, n: nat, cutoff: Time)
    requires n <= |h.events|
    requires StaysClear(h, n, Collected(h.start.cas, cutoff), cutoff)
    ensures SweptFirst(h, cutoff).start.cas == Sweep(h.start.cas, cutoff)
    ensures Finish(h.At(n), Collected(h.start.cas, cutoff), cutoff) == SweptFirst(h, cutoff).At(n)
    ensures forall k: nat | k < n :: SweptFirst(h, cutoff).ReplyTo(k) == h.ReplyTo(k)
    decreases n
  {
    hide Apply, Independent, Collected, FinishSweep;
    if n == 0 {
    } else {
      TwoPhaseIsAtomic(h, n - 1, cutoff);
      FinishCommutes(h.digest, h.At(n - 1), h.events[n - 1], Collected(h.start.cas, cutoff), cutoff);
    }
  }

  /** The event makes `f` the owner of `p`: an admitted open, write or truncation, or a rename that
      brings along a file `f` was writing. */
  ghost predicate Acquires(d: Bytes -> Digest, s: State, e: Event, f: Fh, p: Path) {
    match e.step
    case Open(q, mode, creat, trunc, sid, os) =>
      q == p && !mode.RdOnly? && Exists(s.fs, p) && Apply(d, s, e).1 == Opened(f)
    case Write(g, offset, data, n) =>
      g == f && f in s.ht.live && s.ht.live[f].path == p && Owner(s.cas, p).None? && WriteVerdict(d, s, f).Admitted?
    case SetSize(q, handle, size, os) =>
      q == p && handle == Some(f) && SetSizeVerdict(d, s, p, handle).Admitted?
    case Rename(src, dst, sid, os) =>
      dst == p && src != p && RenameHappens(d, s, src, dst, sid, os) && Owner(s.cas, src) == Some(f)
    case _ => false
  }

  lemma AcquireStep(d: Bytes -> Digest, s: State, e: Event, f: Fh, p: Path)
    ensures Acquires(d, s, e, f, p) ==> Owner(Apply(d, s, e).0.cas, p) == Some(f)
    ensures Owner(Apply(d, s, e).0.cas, p) == Some(f) ==> Acquires(d, s, e, f, p) || Owner(s.cas, p) == Some(f)
    ensures Owner(Apply(d, s, e).0.cas, p) == Some(f) ==> p in EntriesUsed(s, e) || Owner(s.cas, p) == Some(f)
  {
    OwnerStep(d, s, e, p);
    match e.step {
      case Open(q, mode, creat, trunc, sid, os) => hide OpenFile, Check;
      case Rename(src, dst, sid, os) => hide MoveReceipts, MoveName, MoveEntry;
      case _ =>
    }
  }

  /** Event `i` made `f` the owner of `p`, and nothing ended its burst before event `n`. */
  ghost predicate TakenAndKept(h: History, i: nat, n: nat, f: Fh, p: Path)
    requires i < n <= |h.events|
  {
    && Acquires(h.digest, h.At(i), h.events[i], f, p)
    && forall k: nat | i < k < n :: !EndsBurst(h.digest, h.At(k), h.events[k], f, p)
  }

  /** Whoever owns a path that was unowned at the start took it during the run. */
  lemma {:induction false} OwnerTookIt(h: History, n: nat, f: Fh, p: Path) returns (i: nat)
    requires n <= |h.events| && Owner(h.start.cas, p).None? && Owner(h.At(n).cas, p) == Some(f)
    ensures i < n && TakenAndKept(h, i, n, f, p) && p in EntriesUsed(h.At(i), h.events[i])
    decreases n
  {
    hide Apply, Acquires, EndsBurst, EntriesUsed;
    i := n - 1;
    AcquireStep(h.digest, h.At(i), h.events[i], f, p);
    if Owner(h.At(i).cas, p) == Some(f) {
      BurstStep(h.digest, h.At(i), h.events[i], f, p);
      i := OwnerTookIt(h, n - 1, f, p);
    }
  }

  lemma KeeperOwns(h: History, i: nat, n: nat, f: Fh, p: Path)
    requires i < n <= |h.events| && TakenAndKept(h, i, n, f, p)
    ensures Owner(h.At(n).cas, p) == Some(f)
  {
    hide Apply, Acquires, EndsBurst, EntriesUsed;
    AcquireStep(h.digest, h.At(i), h.events[i], f, p);
    AtNext(h, i);
    BurstLasts(h, i + 1, n, f, p);
  }

  /** Whatever runs between the phases, the removal takes `p` away from its owner exactly when `p` was
      collected and somebody acquired it since and has not given it up. */
  lemma TwoPhaseLosesExactly(h: History, n: nat, cutoff: Time, p: Path)
    requires n <= |h.events|
    ensures var gone := Collected(h.start.cas, cutoff);
            Owner(Finish(h.At(n), gone, cutoff).cas, p) != Owner(h.At(n).cas, p) <==>
            p in gone && exists i: nat, f: Fh | i < n :: TakenAndKept(h, i, n, f, p)
  {
    hide Apply, TakenAndKept;
    if p in Collected(h.start.cas, cutoff) {
      if Owner(h.At(n).cas, p).Some? {
        var i := OwnerTookIt(h, n, Owner(h.At(n).cas, p).value, p);
      }
      forall i: nat, f: Fh | i < n && TakenAndKept(h, i, n, f, p) ensures Owner(h.At(n).cas, p) == Some(f) {
        KeeperOwns(h, i, n, f, p);
      }
    }
  }

  /** So it drops no owner of a path that no event between the phases uses. */
  lemma TwoPhaseDropsNoOwner(h: History, n: nat, cutoff: Time, p: Path)
    requires n <= |h.events|
    requires p in Collected(h.start.cas, cutoff) ==> forall k: nat | k < n :: p !in EntriesUsed(h.At(k), h.events[k])
    ensures Owner(Finish(h.At(n), Collected(h.start.cas, cutoff), cutoff).cas, p) == Owner(h.At(n).cas, p)
    ensures p in Collected(h.start.cas, cutoff) ==> Owner(h.At(n).cas, p).None?
  {
    hide Apply, EntriesUsed, TakenAndKept;
    if p in Collected(h.start.cas, cutoff) && Owner(h.At(n).cas, p).Some? {
      var i := OwnerTookIt(h, n, Owner(h.At(n).cas, p).value, p);
    }
  }

  /** What the loss means: until the removal every other handle is refused with `f` named as owner;
      after it any handle's acquire is decided by receipts alone, as if nobody were writing. */
  lemma AcquireBetweenPhasesIsLost(h: History, i: nat, n: nat, f: Fh, cutoff: Time, p: Path,
                                   g: Fh, sid: Sid, handle: Option<HandleState>, actual: Digest)
    requires i < n <= |h.events| && TakenAndKept(h, i, n, f, p)
    requires p in Collected(h.start.cas, cutoff) && g != f
    ensures var before, after := h.At(n).cas, Finish(h.At(n), Collected(h.start.cas, cutoff), cutoff).cas;
            && Check(before, p, g, sid, handle, actual) == OwnedBy(f)
            && Owner(after, p) == None
            && Check(after, p, g, sid, handle, actual) == if Current(after, p, sid, handle, actual) then Admitted else Stale
  {
    hide Apply, TakenAndKept;
    KeeperOwns(h, i, n, f, p);
  }
}
