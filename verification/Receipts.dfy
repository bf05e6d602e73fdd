/** Receipts: what each session last saw, as a function of the run alone. */
module Receipts {
  import opened Types
  import opened BackingStore
  import opened CasTables
  import opened Protocol
  import opened Ownership
  import opened Gates

  // ---------------------------------------------------------------- one step

  /** The content of `p` that this event shows to session `sid`, if it shows any: a read-only
      open, the pre-open content of an admitted read-write open, a create, a written flush. */
  ghost function Shows(d: Bytes -> Digest, s: State, e: Event, sid: Sid, p: Path): Option<Bytes> {
    var (s', reply) := Apply(d, s, e);
    match e.step
    case Open(q, mode, creat, trunc, who, os) =>
      if q != p || who != sid || !reply.Opened? then None
      else if mode.RdOnly? then Content(s'.fs, p)
      else if mode.RdWr? then Content(s.fs, p)
      else None
    case Create(q, mode, trunc, who, os) =>
      if q == p && who == sid && reply.Opened? then Content(s'.fs, p) else None
    case Flush(f) =>
      if f in s.ht.live && s.ht.live[f].hasWritten && s.ht.live[f].path == p && s.ht.live[f].sid == sid
      then Content(s.fs, p) else None
    case _ => None
  }

  /** The name under which a record kept for `p` after the event was kept before it. */
  ghost function Source(e: Event, p: Path): Path {
    if e.step.Rename? && e.step.dst == p then e.step.src else p
  }

  ghost predicate Swept(e: Event, when: Time) {
    e.step.Evict? && when < e.now - e.step.age
  }

  /** How a per-path record travels when the event shows nothing new: dropped by unlink, moved by
      rename (the source's record wins), dropped by a sweep when it is too old. */
  ghost function Carried<T>(e: Event, reply: Reply, p: Path, before: Option<T>, source: Option<T>, swept: bool)
    : Option<T>
  {
    match e.step
    case Unlink(q, who, os) => if q == p && reply.Done? then None else before
    case Rename(src, dst, who, os) =>
      if !reply.Done? || src == dst then before
      else if p == src then None
      else if p == dst && source.Some? then source
      else before
    case Evict(age) => if swept then None else before
    case _ => before
  }

  /** The receipt of (sid, p) after the step. */
  ghost function ReceiptNext(d: Bytes -> Digest, s: State, e: Event, sid: Sid, p: Path): Option<ReaderEntry> {
    var before := Receipt(s.cas, sid, p);
    match Shows(d, s, e, sid, p)
    case Some(c) => Some(ReaderEntry(d(c), e.now))
    case None =>
      Carried(e, Apply(d, s, e).1, p, before, Receipt(s.cas, sid, Source(e, p)),
              before.Some? && Swept(e, before.value.lastAccess))
  }

  lemma ReceiptStep(d: Bytes -> Digest, s: State, e: Event, sid: Sid, p: Path)
    ensures Receipt(Apply(d, s, e).0.cas, sid, p) == ReceiptNext(d, s, e, sid, p)
  {
    match e.step {
      case Open(q, mode, creat, trunc, who, os) => ReceiptStepOpen(d, s, e, sid, p);
      case Unlink(q, who, os) => ReceiptStepNames(d, s, e, sid, p);
      case Rename(src, dst, who, os) => ReceiptStepNames(d, s, e, sid, p);
      case Write(f, offset, data, n) => ReceiptStepOther(d, s, e, sid, p);
      case SetSize(q, handle, size, os) => ReceiptStepOther(d, s, e, sid, p);
      case _ =>
    }
  }

  lemma ReceiptStepNames(d: Bytes -> Digest, s: State, e: Event, sid: Sid, p: Path)
    requires e.step.Unlink? || e.step.Rename?
    ensures Receipt(Apply(d, s, e).0.cas, sid, p) == ReceiptNext(d, s, e, sid, p)
  {
    hide MoveReceipts, MoveEntry, MoveName;
    if e.step.Rename? { MovedReceipt(s.cas.readers, e.step.src, e.step.dst, sid, p); }
  }

  lemma ReceiptStepOpen(d: Bytes -> Digest, s: State, e: Event, sid: Sid, p: Path)
    requires e.step.Open?
    ensures Receipt(Apply(d, s, e).0.cas, sid, p) == ReceiptNext(d, s, e, sid, p)
  {
  }

  lemma ReceiptStepOther(d: Bytes -> Digest, s: State, e: Event, sid: Sid, p: Path)
    requires e.step.Write? || e.step.SetSize?
    ensures Receipt(Apply(d, s, e).0.cas, sid, p) == ReceiptNext(d, s, e, sid, p)
  {
  }

  // ---------------------------------------------------------------- receipts are history

  /** What a session was last shown of a file, and when. */
  datatype Sight = Sight(content: Bytes, when: Time)

  /** The latest sight of `p` by `sid` before event `i`, carried along renames and dropped by
      unlink and by sweeps, read off the run without looking at the CAS table. */
  ghost function Seen(h: History, i: nat, sid: Sid, p: Path): Option<Sight>
    requires i <= |h.events|
    decreases i
  {
    if i == 0 then None
    else
      var s, e := h.At(i - 1), h.events[i - 1];
      var before := Seen(h, i - 1, sid, p);
      match Shows(h.digest, s, e, sid, p)
      case Some(c) => Some(Sight(c, e.now))
      case None =>
        Carried(e, h.ReplyTo(i - 1), p, before, Seen(h, i - 1, sid, Source(e, p)),
                before.Some? && Swept(e, before.value.when))
  }

  ghost function AsReceipt(d: Bytes -> Digest, sight: Option<Sight>): Option<ReaderEntry> {
    match sight
    case None => None
    case Some(v) => Some(ReaderEntry(d(v.content), v.when))
  }

  /** In every reachable state the receipt table is the digest of what each session last saw. */
  lemma {:induction false} ReceiptsAreHistory(h: History, i: nat, sid: Sid, p: Path)
    requires h.Mount() && i <= |h.events|
    ensures Receipt(h.At(i).cas, sid, p) == AsReceipt(h.digest, Seen(h, i, sid, p))
    decreases i
  {
    hide Apply, Shows, Carried;
    if i == 0 {
    } else {
      var s, e := h.At(i - 1), h.events[i - 1];
      ReceiptStep(h.digest, s, e, sid, p);
      ReceiptsAreHistory(h, i - 1, sid, p);
      ReceiptsAreHistory(h, i - 1, sid, Source(e, p));
      CarriedAlike(h.digest, e, h.ReplyTo(i - 1), p, Seen(h, i - 1, sid, p), Seen(h, i - 1, sid, Source(e, p)));
    }
  }

  lemma CarriedAlike(d: Bytes -> Digest, e: Event, reply: Reply, p: Path, before: Option<Sight>, source: Option<Sight>)
    ensures var swept := before.Some? && Swept(e, before.value.when);
            && AsReceipt(d, Carried(e, reply, p, before, source, swept))
               == Carried(e, reply, p, AsReceipt(d, before), AsReceipt(d, source), swept)
  {
  }

  /** The session on whose behalf a call runs. */
  ghost function Caller(s: State, e: Event): Option<Sid> {
    match e.step
    case Open(p, mode, creat, trunc, sid, os) => Some(sid)
    case Create(p, mode, trunc, sid, os) => Some(sid)
    case Unlink(p, sid, os) => Some(sid)
    case Rename(src, dst, sid, os) => Some(sid)
    case Write(f, offset, data, n) => if f in s.ht.live then Some(s.ht.live[f].sid) else None
    case Flush(f) => if f in s.ht.live then Some(s.ht.live[f].sid) else None
    case Release(f) => if f in s.ht.live then Some(s.ht.live[f].sid) else None
    case SetSize(p, handle, size, os) =>
      if handle.Some? && handle.value in s.ht.live then Some(s.ht.live[handle.value].sid) else None
    case _ => None
  }

  /** Another session's open, create, write, flush, release or truncate leaves a receipt alone. */
  lemma OthersDoNotTouchReceipts(d: Bytes -> Digest, s: State, e: Event, sid: Sid, p: Path)
    requires Caller(s, e) != Some(sid)
    requires !e.step.Unlink? && !e.step.Rename? && !e.step.Evict?
    ensures Receipt(Apply(d, s, e).0.cas, sid, p) == Receipt(s.cas, sid, p)
  {
    ReceiptStep(d, s, e, sid, p);
    hide Apply;
  }

  // ---------------------------------------------------------------- admission

  /** A write-only open of an existing file is admitted exactly when nobody owns it and the
      session either never saw it or last saw content with the digest it has now, or when the path
      was given away beforehand to the very handle this open is about to get. */
  lemma AdmittedIffCurrent(h: History, i: nat)
    requires h.Mount() && i < |h.events|
    requires h.events[i].step.Open? && h.events[i].step.mode.WrOnly? && h.events[i].step.os
    requires Exists(h.At(i).fs, h.events[i].step.path)
    ensures var p, sid := h.events[i].step.path, h.events[i].step.sid;
            h.ReplyTo(i).Opened? <==>
            || GivenAway(h.At(i), p)
            || (&& Owner(h.At(i).cas, p).None?
                && (Seen(h, i, sid, p).Some? ==>
                      h.digest(Seen(h, i, sid, p).value.content) == h.digest(Content(h.At(i).fs, p).value)))
  {
    hide Apply;
    ReceiptsAreHistory(h, i, h.events[i].step.sid, h.events[i].step.path);
    AdmissionOfOpen(h.digest, h.At(i), h.events[i]);
  }

  /** The path is owned by the handle id that the next open will hand out. */
  ghost predicate GivenAway(s: State, p: Path) {
    Owner(s.cas, p) == Some(s.ht.nextFh)
  }

  /** How that comes about: truncating an unowned file through an id not handed out yet is not
      compared with anything and claims the file for that id, and then any session's write-only
      open of the file is admitted, whatever it last saw. */
  lemma TruncatingThroughUnissuedHandle(d: Bytes -> Digest, s: State, e: Event, p: Path, size: nat, os: bool, now: Time)
    requires TablesOk(s) && Owner(s.cas, p).None? && Exists(s.fs, p)
    requires e.step.Open? && e.step.mode.WrOnly? && e.step.os && e.step.path == p
    ensures var s' := Apply(d, s, Event(SetSize(p, Some(s.ht.nextFh), size, os), now)).0;
            GivenAway(s', p) && Apply(d, s', e).1 == Opened(s.ht.nextFh)
  {
    hide Resize;
    var s' := Apply(d, s, Event(SetSize(p, Some(s.ht.nextFh), size, os), now)).0;
    assert Exists(s'.fs, p);
    AdmissionOfOpen(d, s', e);
  }

  /** Every handle passed to a truncation before event `n` had been handed out by then. */
  ghost predicate HandedOut(h: History, n: nat)
    requires n <= |h.events|
  {
    forall k: nat | k < n && h.events[k].step.SetSize? && h.events[k].step.handle.Some? ::
      h.events[k].step.handle.value < h.At(k).ht.nextFh
  }

  ghost predicate OwnedByOld(s: State, p: Path) {
    Owner(s.cas, p).Some? ==> Owner(s.cas, p).value < s.ht.nextFh
  }

  lemma OwnedByOldStep(d: Bytes -> Digest, s: State, e: Event, p: Path)
    requires TablesOk(s) && OwnedByOld(s, p) && OwnedByOld(s, Source(e, p))
    requires e.step.SetSize? && e.step.handle.Some? ==> e.step.handle.value < s.ht.nextFh
    ensures OwnedByOld(Apply(d, s, e).0, p)
  {
    hide Apply, StoreOk;
    OwnerStep(d, s, e, p);
    HandleStep(d, s, e, 0);
    if Apply(d, s, e).1.Opened? { OpenedIsFresh(d, s, e); }
  }

  /** Otherwise it never does: in runs whose truncations use handles handed out before, every owner
      has been handed out, so no path is given away. */
  lemma {:induction false} OwnerIsOld(h: History, i: nat, p: Path)
    requires h.Mount() && i <= |h.events| && HandedOut(h, i)
    ensures OwnedByOld(h.At(i), p) && !GivenAway(h.At(i), p)
    decreases i
  {
    hide Apply, TablesOk;
    if i == 0 {
    } else {
      OwnerIsOld(h, i - 1, p);
      OwnerIsOld(h, i - 1, Source(h.events[i - 1], p));
      TablesOkAlways(h, i - 1);
      OwnedByOldStep(h.digest, h.At(i - 1), h.events[i - 1], p);
    }
  }

  lemma AdmissionOfOpen(d: Bytes -> Digest, s: State, e: Event)
    requires e.step.Open? && e.step.mode.WrOnly? && e.step.os && Exists(s.fs, e.step.path)
    ensures var r := Receipt(s.cas, e.step.sid, e.step.path);
            Apply(d, s, e).1 ==
            if GivenAway(s, e.step.path) then Opened(s.ht.nextFh)
            else if Owner(s.cas, e.step.path).Some? then Rejected(OwnedBy(Owner(s.cas, e.step.path).value))
            else if r.Some? && r.value.hash != d(Content(s.fs, e.step.path).value) then Rejected(Stale)
            else Opened(s.ht.nextFh)
  {
  }

  /** The session has seen the existing file `p`, and not with the digest it has now. */
  ghost predicate OutOfDate(h: History, i: nat, sid: Sid, p: Path)
    requires i <= |h.events|
  {
    && Exists(h.At(i).fs, p)
    && Seen(h, i, sid, p).Some?
    && h.digest(Seen(h, i, sid, p).value.content) != h.digest(Content(h.At(i).fs, p).value)
  }

  /** Unlink is rejected exactly for a file the session is out of date on; rename exactly when it
      is out of date on the source or on the destination it would replace. */
  lemma RemovalGuard(h: History, i: nat)
    requires h.Mount() && i < |h.events|
    ensures h.events[i].step.Unlink? ==>
              (h.ReplyTo(i).Rejected? <==> OutOfDate(h, i, h.events[i].step.sid, h.events[i].step.path))
    ensures h.events[i].step.Rename? ==>
              (h.ReplyTo(i).Rejected? <==>
               || OutOfDate(h, i, h.events[i].step.sid, h.events[i].step.src)
               || OutOfDate(h, i, h.events[i].step.sid, h.events[i].step.dst))
  {
    hide Seen;
    var e := h.events[i];
    if e.step.Unlink? {
      ReceiptsAreHistory(h, i, e.step.sid, e.step.path);
    } else if e.step.Rename? {
      ReceiptsAreHistory(h, i, e.step.sid, e.step.src);
      ReceiptsAreHistory(h, i, e.step.sid, e.step.dst);
    }
  }

  // ---------------------------------------------------------------- retrying

  /** Nothing in this event changes the receipt of (sid, p), and `p` keeps naming a file. */
  ghost predicate LeavesReceipt(d: Bytes -> Digest, s: State, e: Event, sid: Sid, p: Path) {
    && Shows(d, s, e, sid, p).None?
    && (e.step.Unlink? ==> e.step.path != p || !Apply(d, s, e).1.Done?)
    && (e.step.Rename? ==> (e.step.src != p && e.step.dst != p) || !Apply(d, s, e).1.Done?)
    && (e.step.Evict? && Receipt(s.cas, sid, p).Some? ==>
          Receipt(s.cas, sid, p).value.lastAccess >= e.now - e.step.age)
  }

  /** Events `i..j` leave the receipt of (sid, p) and the name `p` alone. */
  ghost predicate Quiet(h: History, i: nat, j: nat, sid: Sid, p: Path)
    requires j <= |h.events|
  {
    forall k: nat | i <= k < j :: LeavesReceipt(h.digest, h.At(k), h.events[k], sid, p)
  }

  lemma {:induction false} ReceiptLasts(h: History, i: nat, j: nat, sid: Sid, p: Path)
    requires i <= j <= |h.events|
    requires Quiet(h, i, j, sid, p)
    ensures Receipt(h.At(j).cas, sid, p) == Receipt(h.At(i).cas, sid, p)
    decreases j
  {
    hide Apply, LeavesReceipt;
    if i == j {
    } else {
      ReceiptLasts(h, i, j - 1, sid, p);
      ReceiptLeft(h.digest, h.At(j - 1), h.events[j - 1], sid, p);
    }
  }

  lemma ReceiptLeft(d: Bytes -> Digest, s: State, e: Event, sid: Sid, p: Path)
    requires LeavesReceipt(d, s, e, sid, p)
    ensures Receipt(Apply(d, s, e).0.cas, sid, p) == Receipt(s.cas, sid, p)
  {
    hide Apply, Shows;
    ReceiptStep(d, s, e, sid, p);
  }

  lemma ExistsStep(d: Bytes -> Digest, s: State, e: Event, p: Path)
    requires Exists(s.fs, p)
    requires e.step.Unlink? ==> e.step.path != p || !Apply(d, s, e).1.Done?
    requires e.step.Rename? ==> (e.step.src != p && e.step.dst != p) || !Apply(d, s, e).1.Done?
    ensures Exists(Apply(d, s, e).0.fs, p) && Apply(d, s, e).0.fs.names[p] == s.fs.names[p]
  {
    match e.step {
      case Open(q, mode, creat, trunc, who, os) => ExistsOpen(d, s, e, p);
      case _ =>
    }
  }

  lemma ExistsOpen(d: Bytes -> Digest, s: State, e: Event, p: Path)
    requires Exists(s.fs, p) && e.step.Open?
    ensures Exists(Apply(d, s, e).0.fs, p) && Apply(d, s, e).0.fs.names[p] == s.fs.names[p]
  {
    hide Check, Acquire;
  }

  lemma {:induction false} FileLasts(h: History, i: nat, j: nat, sid: Sid, p: Path)
    requires i <= j <= |h.events| && Exists(h.At(i).fs, p)
    requires Quiet(h, i, j, sid, p)
    ensures Exists(h.At(j).fs, p)
    decreases j
  {
    if i == j {
    } else {
      hide Apply, Shows;
      FileLasts(h, i, j - 1, sid, p);
      assert LeavesReceipt(h.digest, h.At(j - 1), h.events[j - 1], sid, p);
      ExistsStep(h.digest, h.At(j - 1), h.events[j - 1], p);
    }
  }

  ghost function SeenDigest(s: State, sid: Sid, p: Path): Option<Digest> {
    match Receipt(s.cas, sid, p)
    case None => None
    case Some(r) => Some(r.hash)
  }

  /** After a stale rejection at `i`, whatever the other sessions do, every later write-only open of
      the file by the same session is rejected as long as the session is shown nothing new, its
      receipt is not evicted, the file is neither unlinked nor renamed, and the content does not
      carry the digest the session had seen; unless the path was given away to the opener. */
  lemma RetryKeepsFailing(h: History, i: nat, j: nat, sid: Sid, p: Path)
    requires h.Mount() && i < j < |h.events|
    requires WriteOnlyOpen(h.events[i], sid, p) && h.ReplyTo(i) == Rejected(Stale)
    requires WriteOnlyOpen(h.events[j], sid, p)
    requires Quiet(h, i, j, sid, p)
    requires HashFile(h.digest, h.At(j).fs, p) != SeenDigest(h.At(i), sid, p)
    ensures h.ReplyTo(j).Rejected? <==> !GivenAway(h.At(j), p)
  {
    hide Apply, Quiet;
    StaleMeansSeen(h.digest, h.At(i), h.events[i], sid, p);
    ReceiptLasts(h, i, j, sid, p);
    FileLasts(h, i, j, sid, p);
    OpenAgainst(h.digest, h.At(j), h.events[j], sid, p);
  }

  lemma StaleMeansSeen(d: Bytes -> Digest, s: State, e: Event, sid: Sid, p: Path)
    requires WriteOnlyOpen(e, sid, p) && Apply(d, s, e).1 == Rejected(Stale)
    ensures Receipt(s.cas, sid, p).Some? && Exists(s.fs, p)
  {
  }

  ghost predicate WriteOnlyOpen(e: Event, sid: Sid, p: Path) {
    e.step.Open? && e.step.mode.WrOnly? && e.step.os && e.step.sid == sid && e.step.path == p
  }

  // ---------------------------------------------------------------- a session and its own burst

  /** A flush through `f` with writes to record, of a file that still has its name. */
  ghost predicate WrittenFlush(s: State, e: Event, f: Fh) {
    e.step == Flush(f) && f in s.ht.live && s.ht.live[f].hasWritten && Exists(s.fs, s.ht.live[f].path)
  }

  /** A written flush of `p`. */
  ghost predicate CommitOf(s: State, e: Event, p: Path) {
    e.step.Flush? && WrittenFlush(s, e, e.step.fh) && s.ht.live[e.step.fh].path == p
  }

  /** The session whose handle the flush goes through. */
  ghost function CommitterOf(s: State, e: Event, p: Path): Sid
    requires CommitOf(s, e, p)
  {
    s.ht.live[e.step.fh].sid
  }

  lemma FlushedReceiptLasts(h: History, i: nat, j: nat, sid: Sid, p: Path)
    requires h.Mount() && i < j <= |h.events|
    requires CommitOf(h.At(i), h.events[i], p) && CommitterOf(h.At(i), h.events[i], p) == sid
    requires Quiet(h, i + 1, j, sid, p)
    ensures Exists(h.At(j).fs, p)
    ensures SeenDigest(h.At(j), sid, p) == HashFile(h.digest, h.At(i).fs, p) != None
  {
    hide Apply, Quiet, Protocol.HashFile;
    AtNext(h, i);
    FlushRecords(h.digest, h.At(i), h.events[i], h.events[i].step.fh);
    ReceiptLasts(h, i + 1, j, sid, p);
    FileLasts(h, i + 1, j, sid, p);
  }

  /** After its written flush at `i`, and with nothing else shown to it since, the session's next
      write-only open is admitted exactly when nobody owns the file and the digest is still the
      one it flushed (or the path was given away to it). */
  lemma OwnBurstNoConflict(h: History, i: nat, j: nat, sid: Sid, p: Path)
    requires h.Mount() && i < j < |h.events|
    requires CommitOf(h.At(i), h.events[i], p) && CommitterOf(h.At(i), h.events[i], p) == sid
    requires Quiet(h, i + 1, j, sid, p)
    requires WriteOnlyOpen(h.events[j], sid, p)
    ensures h.ReplyTo(j).Opened? <==>
            || GivenAway(h.At(j), p)
            || (Owner(h.At(j).cas, p).None? && HashFile(h.digest, h.At(j).fs, p) == HashFile(h.digest, h.At(i).fs, p))
  {
    hide *;
    FlushedReceiptLasts(h, i, j, sid, p);
    OpenAgainst(h.digest, h.At(j), h.events[j], sid, p);
    ReplyIs(h, j);
  }

  lemma OpenAgainst(d: Bytes -> Digest, s: State, e: Event, sid: Sid, p: Path)
    requires WriteOnlyOpen(e, sid, p) && Exists(s.fs, p)
    ensures Apply(d, s, e).1.Opened? || Apply(d, s, e).1.Rejected?
    ensures Apply(d, s, e).1.Opened? <==>
            || GivenAway(s, p)
            || (Owner(s.cas, p).None? && SeenDigest(s, sid, p) in {None, HashFile(d, s.fs, p)})
  {
    hide Apply;
    AdmissionOfOpen(d, s, e);
  }

  lemma ReplyIs(h: History, i: nat)
    requires i < |h.events|
    ensures h.ReplyTo(i) == Apply(h.digest, h.At(i), h.events[i]).1
  {
  }

  lemma FlushRecords(d: Bytes -> Digest, s: State, e: Event, f: Fh)
    requires WrittenFlush(s, e, f)
    ensures var s', h := Apply(d, s, e).0, s.ht.live[f];
            && s'.fs == s.fs
            && SeenDigest(s', h.sid, h.path) == HashFile(d, s.fs, h.path) != None
            && f in s'.ht.live
            && s'.ht.live[f].hashAtOpen == HashFile(d, s.fs, h.path)
  {
  }

  lemma HashStep(d: Bytes -> Digest, s: State, e: Event, f: Fh)
    requires TablesOk(s) && f in s.ht.live && e.step != Release(f) && !WrittenFlush(s, e, f)
    ensures f in Apply(d, s, e).0.ht.live
    ensures Apply(d, s, e).0.ht.live[f].hashAtOpen == s.ht.live[f].hashAtOpen
    ensures SameHandle(s.ht.live[f], Apply(d, s, e).0.ht.live[f])
  {
    match e.step {
      case Open(q, mode, creat, trunc, who, os) => HandlesAfterOpen(d, s, e);
      case Write(g, offset, data, n) => hide Check, Acquire, PatchFile;
      case Flush(g) =>
      case Release(g) => HandlesAfterRelease(d, s, e);
      case _ => HandlesAfterOther(d, s, e);
    }
  }

  lemma {:induction false} HashLasts(h: History, i: nat, j: nat, f: Fh)
    requires h.Mount() && i <= j <= |h.events| && f in h.At(i).ht.live
    requires forall k | i <= k < j :: h.events[k].step != Release(f) && !WrittenFlush(h.At(k), h.events[k], f)
    ensures f in h.At(j).ht.live && SameHandle(h.At(i).ht.live[f], h.At(j).ht.live[f])
    ensures h.At(j).ht.live[f].hashAtOpen == h.At(i).ht.live[f].hashAtOpen
    decreases j
  {
    hide Apply, WrittenFlush;
    if i == j {
    } else {
      HashLasts(h, i, j - 1, f);
      TablesOkAlways(h, j - 1);
      HashStep(h.digest, h.At(j - 1), h.events[j - 1], f);
    }
  }

  // ---------------------------------------------------------------- handles remember too

  /** The content that an event which opens a handle shows to that handle. */
  ghost function ShownAtOpen(d: Bytes -> Digest, s: State, e: Event): Option<Bytes> {
    match e.step
    case Open(q, mode, creat, trunc, who, os) =>
      if mode.RdOnly? then Content(Apply(d, s, e).0.fs, q)
      else if mode.RdWr? then Content(s.fs, q)
      else None
    case Create(q, mode, trunc, who, os) => Content(Apply(d, s, e).0.fs, q)
    case _ => None
  }

  /** What handle `f` last saw of its file before event `i`: what opening it showed, or what it
      flushed since, read off the run without looking at the handle table's digests. */
  ghost function HandleSaw(h: History, i: nat, f: Fh): Option<Bytes>
    requires i <= |h.events|
    decreases i
  {
    if i == 0 then None
    else
      var s, e := h.At(i - 1), h.events[i - 1];
      if h.ReplyTo(i - 1) == Opened(f) then ShownAtOpen(h.digest, s, e)
      else if WrittenFlush(s, e, f) then Content(s.fs, s.ht.live[f].path)
      else HandleSaw(h, i - 1, f)
  }

  ghost function DigestOf(d: Bytes -> Digest, c: Option<Bytes>): Option<Digest> {
    match c
    case None => None
    case Some(b) => Some(d(b))
  }

  /** In every reachable state the digest kept in a handle is that of what the handle last saw. */
  lemma {:induction false} HandleSightsAreHistory(h: History, i: nat, f: Fh)
    requires h.Mount() && i <= |h.events| && f in h.At(i).ht.live
    ensures h.At(i).ht.live[f].hashAtOpen == DigestOf(h.digest, HandleSaw(h, i, f))
    decreases i
  {
    hide Apply, ShownAtOpen, WrittenFlush, HandlesOk;
    if i == 0 {
    } else {
      var s, e := h.At(i - 1), h.events[i - 1];
      TablesOkAlways(h, i - 1);
      if h.ReplyTo(i - 1) == Opened(f) {
        OpenedHash(h.digest, s, e);
      } else {
        HandleStep(h.digest, s, e, f);
        HandleSightsAreHistory(h, i - 1, f);
        if WrittenFlush(s, e, f) { FlushRecords(h.digest, s, e, f); } else { HashStep(h.digest, s, e, f); }
      }
    }
  }

  lemma OpenedHash(d: Bytes -> Digest, s: State, e: Event)
    requires Apply(d, s, e).1.Opened?
    ensures var s', f := Apply(d, s, e).0, Apply(d, s, e).1.fh;
            f in s'.ht.live && s'.ht.live[f].hashAtOpen == DigestOf(d, ShownAtOpen(d, s, e))
  {
    match e.step {
      case Open(q, mode, creat, trunc, who, os) => hide Check, Acquire, OpenFile;
      case _ =>
    }
  }

  /** A further write through the flushed handle itself, when nobody owns the file, is refused
      exactly when the content's digest changed since that flush. */
  lemma OwnHandleNoConflict(h: History, i: nat, j: nat, f: Fh, p: Path)
    requires h.Mount() && i < j < |h.events|
    requires WrittenFlush(h.At(i), h.events[i], f) && h.At(i).ht.live[f].path == p
    requires forall k | i < k < j :: h.events[k].step != Release(f) && !WrittenFlush(h.At(k), h.events[k], f)
    requires h.events[j].step.Write? && h.events[j].step.fh == f
    requires Owner(h.At(j).cas, p).None?
    ensures Exists(h.At(i).fs, p)
    ensures h.ReplyTo(j).Rejected? <==> Differs(h.digest, h.At(j).fs, p, h.digest(Content(h.At(i).fs, p).value))
  {
    hide Apply;
    FlushRecords(h.digest, h.At(i), h.events[i], f);
    TablesOkAlways(h, i);
    HandleStep(h.digest, h.At(i), h.events[i], f);
    AtNext(h, i);
    HashLasts(h, i + 1, j, f);
    var w := h.events[j].step;
    WriteGate(h.digest, h.At(j), f, w.offset, w.data, w.n, h.events[j].now);
    assert h.events[j] == Event(Write(f, w.offset, w.data, w.n), h.events[j].now);
  }

  /** A write through a handle whose path no longer names a file, when nobody owns that path, is
      refused exactly when the handle or its session has seen the file: no digest is the empty one
      that a missing file compares as. */
  lemma MissingFileRefuses(h: History, i: nat, f: Fh)
    requires h.Mount() && i < |h.events| && (forall c :: h.digest(c) != [])
    requires h.events[i].step.Write? && h.events[i].step.fh == f && f in h.At(i).ht.live
    requires !Exists(h.At(i).fs, h.At(i).ht.live[f].path) && Owner(h.At(i).cas, h.At(i).ht.live[f].path).None?
    ensures var hd := h.At(i).ht.live[f];
            h.ReplyTo(i).Rejected? <==> HandleSaw(h, i, f).Some? || Seen(h, i, hd.sid, hd.path).Some?
  {
    hide Apply, Seen, HandleSaw;
    var w, hd := h.events[i].step, h.At(i).ht.live[f];
    HandleSightsAreHistory(h, i, f);
    ReceiptsAreHistory(h, i, hd.sid, hd.path);
    WriteGate(h.digest, h.At(i), f, w.offset, w.data, w.n, h.events[i].now);
    assert h.events[i] == Event(Write(f, w.offset, w.data, w.n), h.events[i].now);
  }
}
