/** Write ownership: what every step keeps, how long a burst lasts, and that nothing leaks. */
module Ownership {
  import opened Types
  import opened BackingStore
  import opened HandleTables
  import opened CasTables
  import opened Protocol

  // ---------------------------------------------------------------- one step

  /** Who owns `q` after the step, told without the tables' code. */
  ghost function OwnerNext(d: Bytes -> Digest, s: State, e: Event, q: Path): Option<Fh> {
    var before := Owner(s.cas, q);
    var reply := Apply(d, s, e).1;
    match e.step
    case Open(p, mode, creat, trunc, sid, os) =>
      if p == q && !mode.RdOnly? && Exists(s.fs, p) && reply.Opened? then Some(reply.fh) else before
    case Write(fh, offset, data, n) =>
      if before.None? && fh in s.ht.live && s.ht.live[fh].path == q && !reply.Rejected? then Some(fh) else before
    case SetSize(p, handle, size, os) =>
      if p == q && handle.Some? && !reply.Rejected? then handle else before
    case Flush(fh) =>
      if before == Some(fh) && fh in s.ht.live && s.ht.live[fh].path == q && s.ht.live[fh].hasWritten then None
      else before
    case Release(fh) =>
      if before == Some(fh) && fh in s.ht.live && s.ht.live[fh].path == q then None else before
    case Unlink(p, sid, os) =>
      if p == q && reply.Done? then None else before
    case Rename(src, dst, sid, os) =>
      if !reply.Done? || src == dst then before
      else if q == src then None
      else if q == dst && src in s.cas.entries then Owner(s.cas, src)
      else before
    case _ => before
  }

  lemma OwnerStep(d: Bytes -> Digest, s: State, e: Event, q: Path)
    ensures Owner(Apply(d, s, e).0.cas, q) == OwnerNext(d, s, e, q)
  {
    match e.step {
      case Open(p, mode, creat, trunc, sid, os) => OwnerStepOpen(d, s, e, q);
      case Write(fh, offset, data, n) => OwnerStepWrite(d, s, e, q);
      case SetSize(p, handle, size, os) => OwnerStepSetSize(d, s, e, q);
      case Rename(src, dst, sid, os) => hide MoveReceipts, MoveName;
      case _ =>
    }
  }

  lemma OwnerStepOpen(d: Bytes -> Digest, s: State, e: Event, q: Path)
    requires e.step.Open?
    ensures Owner(Apply(d, s, e).0.cas, q) == OwnerNext(d, s, e, q)
  {
    hide OpenFile, Current;
  }

  lemma OwnerStepWrite(d: Bytes -> Digest, s: State, e: Event, q: Path)
    requires e.step.Write?
    ensures Owner(Apply(d, s, e).0.cas, q) == OwnerNext(d, s, e, q)
  {
  }

  lemma OwnerStepSetSize(d: Bytes -> Digest, s: State, e: Event, q: Path)
    requires e.step.SetSize?
    ensures Owner(Apply(d, s, e).0.cas, q) == OwnerNext(d, s, e, q)
  {
  }

  /** What a step may change in a handle that is already open. */
  ghost predicate SameHandle(a: HandleState, b: HandleState) {
    a.path == b.path && a.fd == b.fd && a.mode == b.mode && a.sid == b.sid
  }

  /** Handles leave by release only, arrive under a fresh id only, and keep path, file and session. */
  lemma HandleStep(d: Bytes -> Digest, s: State, e: Event, f: Fh)
    requires TablesOk(s)
    ensures var s' := Apply(d, s, e).0;
            && s.ht.nextFh <= s'.ht.nextFh
            && (f in s.ht.live ==>
                  (f in s'.ht.live <==> e.step != Release(f))
                  && (f in s'.ht.live ==> SameHandle(s.ht.live[f], s'.ht.live[f])))
            && (f !in s.ht.live && f in s'.ht.live ==> f == s.ht.nextFh && Apply(d, s, e).1 == Opened(f))
  {
    hide Apply, StoreOk;
    match e.step {
      case Open(p, mode, creat, trunc, sid, os) => HandlesAfterOpen(d, s, e);
      case Write(fh, offset, data, n) => HandlesAfterWrite(d, s, e);
      case Flush(fh) => HandlesAfterWrite(d, s, e);
      case Release(fh) => HandlesAfterRelease(d, s, e);
      case _ => HandlesAfterOther(d, s, e);
    }
  }

  /** An open adds the next handle when it is admitted, and changes no other. */
  lemma HandlesAfterOpen(d: Bytes -> Digest, s: State, e: Event)
    requires TablesOk(s) && e.step.Open?
    ensures var s', f := Apply(d, s, e).0, s.ht.nextFh;
            && s.ht.nextFh <= s'.ht.nextFh
            && (forall g | g in s'.ht.live && g != f :: g in s.ht.live && s'.ht.live[g] == s.ht.live[g])
            && (forall g | g in s.ht.live :: g in s'.ht.live && s'.ht.live[g] == s.ht.live[g])
            && (f in s'.ht.live ==> Apply(d, s, e).1 == Opened(f))
  {
    hide Check, Acquire, OpenFile;
  }

  /** A write or a flush touches the state of its own handle only. */
  lemma HandlesAfterWrite(d: Bytes -> Digest, s: State, e: Event)
    requires e.step.Write? || e.step.Flush?
    ensures var s', f := Apply(d, s, e).0, e.step.fh;
            && s'.ht.nextFh == s.ht.nextFh
            && s'.ht.live.Keys == s.ht.live.Keys
            && (forall g | g in s.ht.live && g != f :: s'.ht.live[g] == s.ht.live[g])
            && (f in s.ht.live ==> SameHandle(s.ht.live[f], s'.ht.live[f]))
  {
    hide Check, Acquire, PatchFile, Released;
  }

  lemma HandlesAfterRelease(d: Bytes -> Digest, s: State, e: Event)
    requires e.step.Release?
    ensures Apply(d, s, e).0.ht == WithoutHandle(s.ht, e.step.fh)
  {
  }

  /** The remaining steps change no handle; a create or virtual open adds a clean one. */
  lemma HandlesAfterOther(d: Bytes -> Digest, s: State, e: Event)
    requires !e.step.Open? && !e.step.Write? && !e.step.Flush? && !e.step.Release?
    ensures var ht := Apply(d, s, e).0.ht;
            || ht == s.ht
            || (&& s.ht.nextFh in ht.live && ht == WithHandle(s.ht, ht.live[s.ht.nextFh])
                && !ht.live[s.ht.nextFh].hasWritten && Apply(d, s, e).1 == Opened(s.ht.nextFh))
  {
    match e.step {
      case SetSize(q, handle, size, os) => hide Check, Acquire;
      case Rename(src, dst, sid, os) => hide Renamed, MoveName;
      case Create(q, mode, trunc, sid, os) => hide OpenFile;
      case _ =>
    }
  }

  // ---------------------------------------------------------------- well-formed ownership

  /** Every write owner is a live handle opened on the very path it owns. */
  ghost predicate OwnersWf(s: State) {
    forall p | Owner(s.cas, p).Some? ::
      Owner(s.cas, p).value in s.ht.live && s.ht.live[Owner(s.cas, p).value].path == p
  }

  /** The two calls that put ownership where no live handle of that path is: moving an owned
      source away from its handle's path, and truncating through a handle that is dead or of
      another file. */
  ghost predicate Misplaces(d: Bytes -> Digest, s: State, e: Event) {
    match e.step
    case Rename(src, dst, sid, os) =>
      src != dst && RenameHappens(d, s, src, dst, sid, os) && Owner(s.cas, src).Some?
    case SetSize(p, handle, size, os) =>
      && handle.Some?
      && !(handle.value in s.ht.live && s.ht.live[handle.value].path == p)
      && SetSizeVerdict(d, s, p, handle).Admitted?
    case _ => false
  }

  lemma OwnersWfStep(d: Bytes -> Digest, s: State, e: Event)
    requires TablesOk(s) && OwnersWf(s)
    ensures OwnersWf(Apply(d, s, e).0) <==> !Misplaces(d, s, e)
  {
    var s' := Apply(d, s, e).0;
    if Misplaces(d, s, e) {
      var p := if e.step.Rename? then e.step.dst else e.step.path;
      OwnerStep(d, s, e, p);
      var f := OwnerNext(d, s, e, p).value;
      HandleStep(d, s, e, f);
      assert Owner(s'.cas, p) == Some(f);
    } else {
      forall p | Owner(s'.cas, p).Some?
        ensures Owner(s'.cas, p).value in s'.ht.live && s'.ht.live[Owner(s'.cas, p).value].path == p
      {
        OwnerKept(d, s, e, p);
      }
    }
  }

  lemma OwnerKept(d: Bytes -> Digest, s: State, e: Event, p: Path)
    requires TablesOk(s) && OwnersWf(s) && !Misplaces(d, s, e)
    requires Owner(Apply(d, s, e).0.cas, p).Some?
    ensures var s' := Apply(d, s, e).0;
            Owner(s'.cas, p).value in s'.ht.live && s'.ht.live[Owner(s'.cas, p).value].path == p
  {
    OwnerStep(d, s, e, p);
    var f := OwnerNext(d, s, e, p).value;
    HandleStep(d, s, e, f);
    assert Owner(s.cas, p).Some? ==> Owner(s.cas, p).value in s.ht.live;
    match e.step {
      case Open(q, mode, creat, trunc, sid, os) =>
      case _ =>
    }
  }

  /** No call of the run misplaces ownership. */
  ghost predicate Orderly(h: History, n: nat)
    requires n <= |h.events|
  {
    forall i | 0 <= i < n :: !Misplaces(h.digest, h.At(i), h.events[i])
  }

  lemma {:induction false} OwnersWfAlways(h: History, i: nat)
    requires h.Mount() && i <= |h.events| && Orderly(h, i)
    ensures OwnersWf(h.At(i))
    decreases i
  {
    hide Apply, Misplaces;
    if i == 0 {
    } else {
      OwnersWfAlways(h, i - 1);
      TablesOkAlways(h, i - 1);
      OwnersWfStep(h.digest, h.At(i - 1), h.events[i - 1]);
    }
  }

  /** `active_writers()` never exceeds `count()`, and no handle owns two paths. */
  lemma WritersBounded(h: History, i: nat)
    requires h.Mount() && i <= |h.events| && Orderly(h, i)
    ensures |OwnedPaths(h.At(i).cas)| <= |h.At(i).ht.live|
    ensures forall p, q | Owner(h.At(i).cas, p).Some? && Owner(h.At(i).cas, p) == Owner(h.At(i).cas, q) :: p == q
  {
    OwnersWfAlways(h, i);
    var s := h.At(i);
    var f := (p: Path) => if Owner(s.cas, p).Some? then Owner(s.cas, p).value else 0;
    forall p | p in OwnedPaths(s.cas) ensures Owner(s.cas, p).Some? && f(p) in s.ht.live.Keys && s.ht.live[f(p)].path == p {
      assert Owner(s.cas, p).Some?;
    }
    InjectionBoundsSize(OwnedPaths(s.cas), s.ht.live.Keys, f);
  }

  // ---------------------------------------------------------------- exclusive bursts

  /** The only events that take `p` away from its owner `f`. */
  ghost predicate EndsBurst(d: Bytes -> Digest, s: State, e: Event, f: Fh, p: Path) {
    match e.step
    case Flush(g) => g == f && f in s.ht.live && s.ht.live[f].path == p && s.ht.live[f].hasWritten
    case Release(g) => g == f && f in s.ht.live && s.ht.live[f].path == p
    case Unlink(q, sid, os) => q == p && !StaleReceipt(d, s, sid, p) && os && Exists(s.fs, p)
    case Rename(src, dst, sid, os) =>
      && src != dst
      && RenameHappens(d, s, src, dst, sid, os)
      && (src == p || (dst == p && src in s.cas.entries && Owner(s.cas, src) != Some(f)))
    case _ => false
  }

  /** From any state, ownership of `p` survives a step exactly when the step is not one of those. */
  lemma BurstStep(d: Bytes -> Digest, s: State, e: Event, f: Fh, p: Path)
    requires Owner(s.cas, p) == Some(f)
    ensures Owner(Apply(d, s, e).0.cas, p) == Some(f) <==> !EndsBurst(d, s, e, f, p)
  {
    OwnerStep(d, s, e, p);
    match e.step {
      case Open(q, mode, creat, trunc, sid, os) => hide OpenFile;
      case _ =>
    }
  }

  lemma {:induction false} BurstLasts(h: History, i: nat, j: nat, f: Fh, p: Path)
    requires i <= j <= |h.events|
    requires Owner(h.At(i).cas, p) == Some(f)
    requires forall k: nat | i <= k < j :: !EndsBurst(h.digest, h.At(k), h.events[k], f, p)
    ensures Owner(h.At(j).cas, p) == Some(f)
    decreases j
  {
    hide Apply, EndsBurst;
    if i == j {
    } else {
      BurstLasts(h, i, j - 1, f, p);
      BurstStep(h.digest, h.At(j - 1), h.events[j - 1], f, p);
    }
  }

  /** From the moment `f` owns `p` until one of its ending events, in every run from every state: `f`
      stays the owner, and every other handle's acquire of `p` is refused with `f` named as owner. */
  lemma ExclusiveBurst(h: History, i: nat, j: nat, f: Fh, p: Path, g: Fh, sid: Sid, actual: Digest)
    requires i <= j <= |h.events|
    requires Owner(h.At(i).cas, p) == Some(f)
    requires forall k: nat | i <= k < j :: !EndsBurst(h.digest, h.At(k), h.events[k], f, p)
    ensures Owner(h.At(j).cas, p) == Some(f)
    ensures g != f ==> Check(h.At(j).cas, p, g, sid, Get(h.At(j).ht.live, g), actual) == OwnedBy(f)
  {
    hide Apply, EndsBurst;
    BurstLasts(h, i, j, f, p);
  }

  // ---------------------------------------------------------------- no leak

  lemma {:induction false} IdsOnlyGrow(h: History, i: nat, j: nat, f: Fh)
    requires h.Mount() && i <= j <= |h.events|
    requires f < h.At(i).ht.nextFh && f !in h.At(i).ht.live
    ensures f < h.At(j).ht.nextFh && f !in h.At(j).ht.live
    decreases j
  {
    hide Apply;
    if i == j {
    } else {
      IdsOnlyGrow(h, i, j - 1, f);
      TablesOkAlways(h, j - 1);
      HandleStep(h.digest, h.At(j - 1), h.events[j - 1], f);
    }
  }

  /** A released handle is never live again and never owns a path again. */
  lemma ReleasedForGood(h: History, i: nat, j: nat, f: Fh)
    requires h.Mount() && i < j <= |h.events| && Orderly(h, j)
    requires f in h.At(i).ht.live && h.events[i].step == Release(f)
    ensures f !in h.At(j).ht.live
    ensures forall p :: Owner(h.At(j).cas, p) != Some(f)
  {
    hide Apply, Misplaces, StoreOk, SameHandle, OwnersWf, Orderly, Owner;
    TablesOkAlways(h, i);
    HandleStep(h.digest, h.At(i), h.events[i], f);
    AtNext(h, i);
    IdsOnlyGrow(h, i + 1, j, f);
    OwnersWfAlways(h, j);
    DeadOwnsNothing(h.At(j), f);
  }

  lemma DeadOwnsNothing(s: State, f: Fh)
    requires OwnersWf(s) && f !in s.ht.live
    ensures forall p :: Owner(s.cas, p) != Some(f)
  {
  }

  /** With no handle open nobody owns anything, so a write-only open of an existing file is
      admitted exactly when the session's receipt is absent or current. */
  lemma IdleAdmits(h: History, i: nat, p: Path, sid: Sid)
    requires h.Mount() && i < |h.events| && Orderly(h, i)
    requires h.At(i).ht.live == map[]
    requires h.events[i].step.Open? && h.events[i].step.path == p && h.events[i].step.sid == sid
    requires h.events[i].step.mode.WrOnly? && h.events[i].step.os && Exists(h.At(i).fs, p)
    ensures OwnedPaths(h.At(i).cas) == {}
    ensures h.ReplyTo(i).Opened? <==>
            Receipt(h.At(i).cas, sid, p).Some? ==>
              Receipt(h.At(i).cas, sid, p).value.hash == h.digest(Content(h.At(i).fs, p).value)
  {
    OwnersWfAlways(h, i);
    var s := h.At(i);
    assert forall q :: Owner(s.cas, q).None?;
    assert forall q | q in OwnedPaths(s.cas) :: Owner(s.cas, q).Some?;
  }
}
