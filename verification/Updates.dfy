/** The reason dibs exists: in every run where a file changes through claimed bursts only, each
    committed version is its author's own edits laid over the version its author last saw, which is
    the version the previous burst committed. */
module Updates {
  import opened Types
  import opened BackingStore
  import opened CasTables
  import opened Protocol
  import opened Ownership
  import opened Receipts

  // ---------------------------------------------------------------- the discipline

  /** Handle `f` is a live handle on `p`. */
  ghost predicate On(s: State, f: Fh, p: Path) {
    f in s.ht.live && s.ht.live[f].path == p
  }

  /** Nobody owns `p`, and a write-only session is not out of date on it: what an open must find for
      its truncation not to hit a file it is then refused. */
  ghost predicate FreeToWrite(d: Bytes -> Digest, s: State, mode: Mode, sid: Sid, p: Path) {
    Owner(s.cas, p).None? && (mode.WrOnly? ==> SeenDigest(s, sid, p) in {None, HashFile(d, s.fs, p)})
  }

  /** What the event must not do to `p`: write to it through a handle while another one owns it,
      truncate it by a read or by an open that is not free to write, truncate it by a create, resize
      it other than through a handle on it, resize it through such a handle under another name,
      unlink it, rename it or rename over it, or edit it from outside. Everything the code checks
      is allowed: opens, writes and resizes that may or may not be refused, through handles that
      were opened, created or flushed before. So are reads, sweeps and refused removals. */
  ghost predicate Gentle(d: Bytes -> Digest, s: State, e: Event, p: Path) {
    match e.step
    case Open(q, mode, creat, trunc, sid, os) =>
      q == p && trunc && os ==> !mode.RdOnly? && FreeToWrite(d, s, mode, sid, p)
    case Create(q, mode, trunc, sid, os) => q == p ==> !trunc || !os
    case Write(f, offset, data, n) => On(s, f, p) ==> Owner(s.cas, p) in {None, Some(f)}
    case Unlink(q, sid, os) => q == p ==> !os || StaleReceipt(d, s, sid, p)
    case Rename(src, dst, sid, os) => p in {src, dst} && src != dst ==> !RenameHappens(d, s, src, dst, sid, os)
    case SetSize(q, handle, size, os) =>
      if q != p then handle.Some? ==> !On(s, handle.value, p)
      else if handle.None? then !os
      else On(s, handle.value, p)
    case External(q, content) => q != p
    case _ => true
  }

  /** `p` names file `id` and is its only name, and the handles on `p` are those with a descriptor
      on `id`. */
  ghost predicate Tied(s: State, p: Path, id: FileId) {
    && Exists(s.fs, p)
    && s.fs.names[p] == id
    && NamedOnce(s.fs, p)
    && (forall g | g in s.ht.live && s.ht.live[g].fd == Some(id) :: s.ht.live[g].path == p)
    && (forall g | g in s.ht.live && s.ht.live[g].path == p && s.ht.live[g].fd.Some? :: s.ht.live[g].fd == Some(id))
  }

  /** The owner of `p` is a live handle on it, and only the owner has unflushed writes. */
  ghost predicate Held(s: State, p: Path) {
    && (Owner(s.cas, p).Some? ==> On(s, Owner(s.cas, p).value, p))
    && (forall g | g in s.ht.live && s.ht.live[g].path == p && s.ht.live[g].hasWritten :: Owner(s.cas, p) == Some(g))
  }

  /** `p` is an existing file under one name, nobody owns it, the handles open on it have its file
      open, and none of them has unflushed writes. */
  ghost predicate AtRest(s: State, p: Path) {
    && Exists(s.fs, p)
    && Owner(s.cas, p).None?
    && Tied(s, p, s.fs.names[p])
    && Held(s, p)
  }

  /** A file created through the mount is at rest from the moment it exists. */
  lemma CreatedIsAtRest(d: Bytes -> Digest, s: State, e: Event, p: Path)
    requires TablesOk(s) && Owner(s.cas, p).None? && !Exists(s.fs, p)
    requires forall g | g in s.ht.live :: s.ht.live[g].path != p
    requires (e.step.Create? || (e.step.Open? && e.step.creat)) && e.step.path == p && e.step.os
    ensures AtRest(Apply(d, s, e).0, p)
  {
    hide Apply;
    assert s.fs.nextId !in s.fs.files;
    if e.step.Create? { CreatedByCreate(d, s, e, p); } else { CreatedByOpen(d, s, e, p); }
  }

  /** The one new file, and the one new handle, on it. */
  ghost predicate NewFile(s: State, s': State, p: Path) {
    && s'.fs.names == s.fs.names[p := s.fs.nextId]
    && s'.fs.files == s.fs.files[s.fs.nextId := []]
    && (forall g | g in s'.ht.live && g != s.ht.nextFh :: g in s.ht.live && s'.ht.live[g] == s.ht.live[g])
    && s.ht.nextFh in s'.ht.live
    && s'.ht.live[s.ht.nextFh].path == p
    && s'.ht.live[s.ht.nextFh].fd == Some(s.fs.nextId)
    && !s'.ht.live[s.ht.nextFh].hasWritten
    && Owner(s'.cas, p) == Owner(s.cas, p)
  }

  lemma CreatedByCreate(d: Bytes -> Digest, s: State, e: Event, p: Path)
    requires !Exists(s.fs, p) && e.step.Create? && e.step.path == p && e.step.os
    ensures NewFile(s, Apply(d, s, e).0, p)
  {
  }

  lemma CreatedByOpen(d: Bytes -> Digest, s: State, e: Event, p: Path)
    requires !Exists(s.fs, p) && e.step.Open? && e.step.creat && e.step.path == p && e.step.os
    ensures NewFile(s, Apply(d, s, e).0, p)
  {
    hide Check, Acquire;
  }

  // ---------------------------------------------------------------- edits

  /** What a handle does to its file: it puts bytes somewhere, or cuts it to a size. */
  datatype Edit = Put(offset: nat, data: Bytes) | Cut(size: nat)

  ghost function Edited(c: Bytes, edit: Edit): Bytes {
    match edit
    case Put(offset, data) => Patch(c, offset, data)
    case Cut(size) => Resize(c, size)
  }

  ghost function Overlay(c: Bytes, edits: seq<Edit>): Bytes {
    if edits == [] then c else Edited(Overlay(c, edits[..|edits| - 1]), edits[|edits| - 1])
  }

  lemma OverlaySnoc(c: Bytes, edits: seq<Edit>, edit: Edit)
    ensures Overlay(c, edits + [edit]) == Edited(Overlay(c, edits), edit)
  {
    hide Edited;
    assert (edits + [edit])[..|edits|] == edits;
  }

  lemma {:induction false} OverlayConcat(c: Bytes, a: seq<Edit>, b: seq<Edit>)
    ensures Overlay(Overlay(c, a), b) == Overlay(c, a + b)
  {
    hide Edited;
    if b == [] {
      assert a + b == a;
    } else {
      var init, last := b[..|b| - 1], b[|b| - 1];
      OverlayConcat(c, a, init);
      assert a + b == a + init + [last];
      OverlaySnoc(c, a + init, last);
    }
  }

  /** The edit of `p` this event makes on behalf of handle `f`: at most one. */
  ghost function EditOf(d: Bytes -> Digest, s: State, e: Event, f: Fh, p: Path): seq<Edit> {
    var reply := Apply(d, s, e).1;
    match e.step
    case Open(q, mode, creat, trunc, sid, os) => if q == p && trunc && reply == Opened(f) then [Cut(0)] else []
    case Write(g, offset, data, n) =>
      if g == f && reply.Written? && f in s.ht.live then [Put(offset, Stored(s.ht.live[f], data, n))] else []
    case SetSize(q, handle, size, os) => if q == p && handle == Some(f) && reply.Done? then [Cut(size)] else []
    case _ => []
  }

  // ---------------------------------------------------------------- one step, seen from p

  ghost predicate Steady(d: Bytes -> Digest, s: State, e: Event, p: Path, id: FileId) {
    TablesOk(s) && Tied(s, p, id) && Held(s, p) && Gentle(d, s, e, p)
  }

  lemma TiedStep(d: Bytes -> Digest, s: State, e: Event, p: Path, id: FileId)
    requires Steady(d, s, e, p, id)
    ensures Tied(Apply(d, s, e).0, p, id)
  {
    match e.step {
      case Open(q, mode, creat, trunc, sid, os) => TiedOpen(d, s, e, p, id);
      case Create(q, mode, trunc, sid, os) => TiedCreate(d, s, e, p, id);
      case Write(f, offset, data, n) => TiedQuiet(d, s, e, p, id);
      case SetSize(q, handle, size, os) => TiedQuiet(d, s, e, p, id);
      case Unlink(q, sid, os) => TiedNames(d, s, e, p, id);
      case Rename(src, dst, sid, os) => TiedNames(d, s, e, p, id);
      case _ => hide Held, Gentle, StoreOk;
    }
  }

  lemma TiedNames(d: Bytes -> Digest, s: State, e: Event, p: Path, id: FileId)
    requires Steady(d, s, e, p, id) && (e.step.Unlink? || e.step.Rename?)
    ensures Tied(Apply(d, s, e).0, p, id)
  {
    hide Held, Renamed, Forget, StaleReceipt;
  }

  lemma TiedCreate(d: Bytes -> Digest, s: State, e: Event, p: Path, id: FileId)
    requires Steady(d, s, e, p, id) && e.step.Create?
    ensures Tied(Apply(d, s, e).0, p, id)
  {
    hide Held;
    assert s.fs.nextId !in s.fs.files;
  }

  lemma TiedQuiet(d: Bytes -> Digest, s: State, e: Event, p: Path, id: FileId)
    requires Tied(s, p, id) && (e.step.Write? || e.step.SetSize?)
    ensures Tied(Apply(d, s, e).0, p, id)
  {
    hide Check, Acquire, Patch;
  }

  lemma TiedOpen(d: Bytes -> Digest, s: State, e: Event, p: Path, id: FileId)
    requires Steady(d, s, e, p, id) && e.step.Open?
    ensures Tied(Apply(d, s, e).0, p, id)
  {
    hide Apply;
    var s' := Apply(d, s, e).0;
    ExistsOpen(d, s, e, p);
    NamedAfterOpen(d, s, e, p);
    forall g | g in s'.ht.live
      ensures s'.ht.live[g].fd == Some(id) ==> s'.ht.live[g].path == p
      ensures s'.ht.live[g].path == p && s'.ht.live[g].fd.Some? ==> s'.ht.live[g].fd == Some(id)
    {
      HandleStep(d, s, e, g);
      if g !in s.ht.live { OpenedHandle(d, s, e); }
    }
  }

  lemma NamedAfterOpen(d: Bytes -> Digest, s: State, e: Event, p: Path)
    requires StoreOk(s.fs) && Exists(s.fs, p) && NamedOnce(s.fs, p) && e.step.Open?
    ensures NamedOnce(Apply(d, s, e).0.fs, p)
  {
    hide Check, Acquire;
    assert s.fs.nextId !in s.fs.files;
  }

  lemma OpenedHandle(d: Bytes -> Digest, s: State, e: Event)
    requires e.step.Open? && Apply(d, s, e).1.Opened?
    ensures var s', f := Apply(d, s, e).0, Apply(d, s, e).1.fh;
            && f == s.ht.nextFh && f in s'.ht.live
            && s'.ht.live[f].path == e.step.path
            && e.step.path in s'.fs.names && s'.ht.live[f].fd == Some(s'.fs.names[e.step.path])
            && s'.ht.live[f].sid == e.step.sid && s'.ht.live[f].mode == e.step.mode
            && !s'.ht.live[f].hasWritten
  {
    hide Check, Acquire;
  }

  /** Being free to write is enough to be admitted. */
  lemma FreeToWriteIsAdmitted(d: Bytes -> Digest, s: State, e: Event, p: Path)
    requires Exists(s.fs, p) && e.step.Open? && e.step.path == p && !e.step.mode.RdOnly? && e.step.os
    requires FreeToWrite(d, s, e.step.mode, e.step.sid, p)
    ensures Apply(d, s, e).1.Opened?
  {
    hide OpenFile;
  }

  /** The content of `p` after the step is the one before, edited by the handle that owns `p` then. */
  ghost predicate ContentFollows(d: Bytes -> Digest, s: State, e: Event, p: Path)
    requires Exists(s.fs, p)
  {
    Content(Apply(d, s, e).0.fs, p) ==
    match Owner(Apply(d, s, e).0.cas, p)
    case None => Content(s.fs, p)
    case Some(f) => Some(Overlay(Content(s.fs, p).value, EditOf(d, s, e, f, p)))
  }

  lemma ContentStep(d: Bytes -> Digest, s: State, e: Event, p: Path, id: FileId)
    requires Steady(d, s, e, p, id)
    ensures ContentFollows(d, s, e, p)
  {
    hide Apply;
    match e.step {
      case Open(q, mode, creat, trunc, sid, os) => ContentOpen(d, s, e, p, id);
      case Write(f, offset, data, n) => ContentWrite(d, s, e, p, id);
      case SetSize(q, handle, size, os) => ContentSetSize(d, s, e, p, id);
      case _ => ContentOther(d, s, e, p, id);
    }
  }

  lemma ContentOpen(d: Bytes -> Digest, s: State, e: Event, p: Path, id: FileId)
    requires Steady(d, s, e, p, id) && e.step.Open?
    ensures ContentFollows(d, s, e, p)
  {
    hide Apply, Resize, HandlesOk, StoreOk;
    OwnerStep(d, s, e, p);
    BytesAfterOpen(d, s, e, p, id);
    OwnerBelowNext(s, p);
    if Apply(d, s, e).1.Opened? { OpenedIsFresh(d, s, e); }
    OneEdit(Content(s.fs, p).value, Cut(0));
    assert Resize(Content(s.fs, p).value, 0) == [];
  }

  lemma OneEdit(c: Bytes, edit: Edit)
    ensures Overlay(c, [edit]) == Edited(c, edit) && Overlay(c, []) == c
  {
    assert [edit][..0] == [];
  }

  lemma OwnerBelowNext(s: State, p: Path)
    requires TablesOk(s) && Held(s, p)
    ensures Owner(s.cas, p).Some? ==> Owner(s.cas, p).value < s.ht.nextFh
  {
  }

  lemma BytesAfterOpen(d: Bytes -> Digest, s: State, e: Event, p: Path, id: FileId)
    requires Steady(d, s, e, p, id) && e.step.Open?
    ensures Content(Apply(d, s, e).0.fs, p) ==
            if e.step.path == p && e.step.trunc && Apply(d, s, e).1.Opened? then Some([]) else Content(s.fs, p)
    ensures e.step.path == p && e.step.trunc && Apply(d, s, e).1.Opened? ==> !e.step.mode.RdOnly?
  {
    if e.step.path == p && e.step.trunc && e.step.os { FreeToWriteIsAdmitted(d, s, e, p); }
    hide Check, Acquire, Held, HandlesOk, FreeToWrite;
  }

  lemma ContentWrite(d: Bytes -> Digest, s: State, e: Event, p: Path, id: FileId)
    requires Steady(d, s, e, p, id) && e.step.Write?
    ensures ContentFollows(d, s, e, p)
  {
    hide Check, Acquire, Patch, StoreOk, Stored;
    OwnerStep(d, s, e, p);
    var w := e.step;
    if On(s, w.fh, p) { OneEdit(Content(s.fs, p).value, Put(w.offset, Stored(s.ht.live[w.fh], w.data, w.n))); }
  }

  lemma ContentSetSize(d: Bytes -> Digest, s: State, e: Event, p: Path, id: FileId)
    requires Steady(d, s, e, p, id) && e.step.SetSize?
    ensures ContentFollows(d, s, e, p)
  {
    hide Acquire, Resize, StoreOk, Current;
    OwnerStep(d, s, e, p);
    OneEdit(Content(s.fs, p).value, Cut(e.step.size));
  }

  lemma ContentOther(d: Bytes -> Digest, s: State, e: Event, p: Path, id: FileId)
    requires Steady(d, s, e, p, id)
    requires !e.step.Open? && !e.step.Write? && !e.step.SetSize?
    ensures Content(Apply(d, s, e).0.fs, p) == Content(s.fs, p)
  {
    hide Held;
    match e.step {
      case Rename(src, dst, sid, os) => hide Renamed, StaleReceipt;
      case Unlink(q, sid, os) => hide Forget, StaleReceipt;
      case _ =>
    }
  }

  lemma HeldStep(d: Bytes -> Digest, s: State, e: Event, p: Path, id: FileId)
    requires Steady(d, s, e, p, id)
    ensures Held(Apply(d, s, e).0, p)
  {
    match e.step {
      case Open(q, mode, creat, trunc, sid, os) => HeldOpen(d, s, e, p, id);
      case Write(f, offset, data, n) => HeldWrite(d, s, e, p, id);
      case Flush(f) => HeldFlush(d, s, e, p, id);
      case Release(f) => HeldFlush(d, s, e, p, id);
      case _ => HeldOther(d, s, e, p, id);
    }
  }

  lemma HeldFlush(d: Bytes -> Digest, s: State, e: Event, p: Path, id: FileId)
    requires Steady(d, s, e, p, id) && (e.step.Flush? || e.step.Release?)
    ensures Held(Apply(d, s, e).0, p)
  {
    hide StoreOk;
    OwnerStep(d, s, e, p);
  }

  lemma HeldOther(d: Bytes -> Digest, s: State, e: Event, p: Path, id: FileId)
    requires Steady(d, s, e, p, id)
    requires !e.step.Open? && !e.step.Write? && !e.step.Flush? && !e.step.Release?
    ensures Held(Apply(d, s, e).0, p)
  {
    hide Apply, StoreOk, StaleReceipt;
    OwnerStep(d, s, e, p);
    HandlesAfterOther(d, s, e);
    NoRemoval(d, s, e, p, id);
    if e.step.SetSize? { ResizeNeedsOwn(d, s, e, p); }
  }

  /** Removals of `p` that the discipline allows do not happen. */
  lemma NoRemoval(d: Bytes -> Digest, s: State, e: Event, p: Path, id: FileId)
    requires Steady(d, s, e, p, id)
    ensures e.step.Unlink? && e.step.path == p ==> !Apply(d, s, e).1.Done?
    ensures e.step.Rename? && p in {e.step.src, e.step.dst} && e.step.src != e.step.dst ==> !Apply(d, s, e).1.Done?
  {
    if e.step.Unlink? || e.step.Rename? {
      hide StaleReceipt, Renamed, Forget;
    }
  }

  lemma HeldOpen(d: Bytes -> Digest, s: State, e: Event, p: Path, id: FileId)
    requires Steady(d, s, e, p, id) && e.step.Open?
    ensures Held(Apply(d, s, e).0, p)
  {
    hide Apply;
    OwnerStep(d, s, e, p);
    HandlesAfterOpen(d, s, e);
    if Apply(d, s, e).1.Opened? {
      OpenedHandle(d, s, e);
      if e.step.path == p && !e.step.mode.RdOnly? { OpenNeedsUnowned(d, s, e, p); }
    }
  }

  lemma OpenNeedsUnowned(d: Bytes -> Digest, s: State, e: Event, p: Path)
    requires TablesOk(s) && Held(s, p) && Exists(s.fs, p)
    requires e.step.Open? && e.step.path == p && !e.step.mode.RdOnly? && Apply(d, s, e).1.Opened?
    ensures Owner(s.cas, p).None?
  {
  }

  lemma HeldWrite(d: Bytes -> Digest, s: State, e: Event, p: Path, id: FileId)
    requires Steady(d, s, e, p, id) && e.step.Write?
    ensures Held(Apply(d, s, e).0, p)
  {
    OwnerStep(d, s, e, p);
  }

  /** The event makes `f` the owner of the unowned path `p`. */
  ghost predicate Claims(d: Bytes -> Digest, s: State, e: Event, f: Fh, p: Path) {
    Owner(s.cas, p).None? && Owner(Apply(d, s, e).0.cas, p) == Some(f)
  }

  /** How ownership of `p` moves: it is claimed when nobody has it, and given up by the owner's
      commit or by its release. */
  lemma OwnerMoves(d: Bytes -> Digest, s: State, e: Event, p: Path, id: FileId)
    requires Steady(d, s, e, p, id)
    ensures var o, o' := Owner(s.cas, p), Owner(Apply(d, s, e).0.cas, p);
            && (CommitOf(s, e, p) ==> o == Some(e.step.fh) && o' == None)
            && (!CommitOf(s, e, p) && o != o' ==>
                  || (o.None? && o'.Some?)
                  || (o.Some? && o'.None? && e.step == Release(o.value)))
  {
    OwnerStep(d, s, e, p);
    NoRemoval(d, s, e, p, id);
    match e.step {
      case Open(q, mode, creat, trunc, sid, os) =>
        if q == p && !mode.RdOnly? && Apply(d, s, e).1.Opened? { OpenNeedsUnowned(d, s, e, p); }
        hide Apply;
      case SetSize(q, handle, size, os) => ResizeNeedsOwn(d, s, e, p);
      case _ => hide StaleReceipt;
    }
  }

  lemma ResizeNeedsOwn(d: Bytes -> Digest, s: State, e: Event, p: Path)
    requires e.step.SetSize?
    ensures e.step.path == p && e.step.handle.Some? && !Apply(d, s, e).1.Rejected? ==>
              Owner(s.cas, p) in {None, e.step.handle}
  {
  }

  /** What a claim was checked against: the digest the claiming handle keeps, or without one the
      session's receipt, is that of the content before the claim. */
  lemma ClaimIsCurrent(d: Bytes -> Digest, s: State, e: Event, f: Fh, p: Path, id: FileId)
    requires Steady(d, s, e, p, id) && Claims(d, s, e, f, p)
    ensures var s' := Apply(d, s, e).0;
            && On(s', f, p)
            && (if s'.ht.live[f].hashAtOpen.Some? then s'.ht.live[f].hashAtOpen == HashFile(d, s.fs, p)
                else SeenDigest(s', s'.ht.live[f].sid, p) in {None, HashFile(d, s.fs, p)})
  {
    HeldStep(d, s, e, p, id);
    OwnerStep(d, s, e, p);
    match e.step {
      case Open(q, mode, creat, trunc, sid, os) => hide OpenFile;
      case Write(g, offset, data, n) => hide PatchFile;
      case SetSize(q, handle, size, os) => hide Truncated;
      case _ =>
        NoRemoval(d, s, e, p, id);
        assert false;
    }
  }

  // ---------------------------------------------------------------- runs

  /** What the latest commit of `p` since event `from` left, or the content it had then. */
  ghost function Committed(h: History, from: nat, i: nat, p: Path): Bytes
    requires from <= i <= |h.events| && Exists(h.At(from).fs, p)
    decreases i
  {
    if i == from then Content(h.At(from).fs, p).value
    else if CommitOf(h.At(i - 1), h.events[i - 1], p) then Content(h.At(i - 1).fs, p).value
    else Committed(h, from, i - 1, p)
  }

  /** The owner's edits since it claimed `p`; none when nobody owns it. */
  ghost function Pending(h: History, from: nat, i: nat, p: Path): seq<Edit>
    requires from <= i <= |h.events|
    decreases i
  {
    if i == from || Owner(h.At(i).cas, p).None? then []
    else
      var f := Owner(h.At(i).cas, p).value;
      (if Owner(h.At(i - 1).cas, p) == Some(f) then Pending(h, from, i - 1, p) else [])
      + EditOf(h.digest, h.At(i - 1), h.events[i - 1], f, p)
  }

  /** Event `i` respects the discipline on `p`: on top of being gentle, it does not close the owner
      while edits of it are not committed. */
  ghost predicate Disciplined(h: History, from: nat, i: nat, p: Path)
    requires from <= i < |h.events|
  {
    && Gentle(h.digest, h.At(i), h.events[i], p)
    && (h.events[i].step.Release? && Owner(h.At(i).cas, p) == Some(h.events[i].step.fh) ==> Pending(h, from, i, p) == [])
  }

  /** A run of the mounted file system in which `p`, there at mount or created since, is at rest
      before event `from`, and from then on, up to event `n`, the discipline is respected. */
  ghost predicate Bursts(h: History, from: nat, n: nat, p: Path)
    requires n <= |h.events|
  {
    && h.Mount()
    && from <= n
    && Exists(h.At(from).fs, p)
    && AtRest(h.At(from), p)
    && forall i: nat | from <= i < n :: Disciplined(h, from, i, p)
  }

  /** The file behind `p`, the same throughout. */
  ghost function FileOf(h: History, from: nat, p: Path): FileId
    requires from <= |h.events| && Exists(h.At(from).fs, p)
  {
    h.At(from).fs.names[p]
  }

  /** Throughout, `p` names the same file, its owner is a live handle on it, and every handle with
      unflushed writes on `p` is the owner. */
  lemma {:induction false} Kept(h: History, from: nat, i: nat, p: Path)
    requires from <= i <= |h.events| && Bursts(h, from, i, p)
    ensures Tied(h.At(i), p, FileOf(h, from, p)) && Held(h.At(i), p)
    decreases i, 0
  {
    hide Apply, Disciplined, Tied, Held;
    if i == from {
    } else {
      SteadyAt(h, from, i - 1, p);
      TiedStep(h.digest, h.At(i - 1), h.events[i - 1], p, FileOf(h, from, p));
      HeldStep(h.digest, h.At(i - 1), h.events[i - 1], p, FileOf(h, from, p));
    }
  }

  lemma {:induction false} SteadyAt(h: History, from: nat, i: nat, p: Path)
    requires from <= i < |h.events| && Bursts(h, from, i + 1, p)
    ensures Steady(h.digest, h.At(i), h.events[i], p, FileOf(h, from, p))
    decreases i, 1
  {
    hide Apply, Gentle, Tied, Held, TablesOk;
    assert Bursts(h, from, i, p);
    Kept(h, from, i, p);
    TablesOkAlways(h, i);
    assert Disciplined(h, from, i, p);
  }

  lemma BurstsPrefix(h: History, from: nat, i: nat, n: nat, p: Path)
    requires from <= i <= n <= |h.events| && Bursts(h, from, n, p)
    ensures Bursts(h, from, i, p)
  {
    hide Disciplined, AtRest;
  }

  /** Nothing changes `p` but an edit by the handle that owns it once the edit is made, and nobody
      else owned it before. */
  lemma OnlyTheOwnerEdits(h: History, from: nat, i: nat, p: Path)
    requires from <= i < |h.events| && Bursts(h, from, i + 1, p)
    ensures Content(h.At(i + 1).fs, p) != Content(h.At(i).fs, p) ==>
              && Owner(h.At(i + 1).cas, p).Some?
              && Owner(h.At(i).cas, p) in {None, Owner(h.At(i + 1).cas, p)}
              && EditOf(h.digest, h.At(i), h.events[i], Owner(h.At(i + 1).cas, p).value, p) != []
  {
    hide Apply, Disciplined, Steady, CommitOf, EditOf, AtRest;
    var s, e := h.At(i), h.events[i];
    SteadyAt(h, from, i, p);
    AtNext(h, i);
    TiedAt(h.digest, s, e, p, FileOf(h, from, p));
    ContentStep(h.digest, s, e, p, FileOf(h, from, p));
    OwnerMoves(h.digest, s, e, p, FileOf(h, from, p));
    OneEdit(Content(s.fs, p).value, Cut(0));
  }

  lemma TiedAt(d: Bytes -> Digest, s: State, e: Event, p: Path, id: FileId)
    requires Steady(d, s, e, p, id)
    ensures Exists(s.fs, p)
  {
  }

  /** Whoever owns `p` keeps it until it commits or is closed. */
  lemma {:induction false} HolderKeeps(h: History, from: nat, i: nat, j: nat, f: Fh, p: Path)
    requires from <= i <= j <= |h.events| && Bursts(h, from, j, p)
    requires Owner(h.At(i).cas, p) == Some(f)
    requires forall k: nat | i <= k < j :: h.events[k].step != Release(f) && !WrittenFlush(h.At(k), h.events[k], f)
    ensures Owner(h.At(j).cas, p) == Some(f)
    decreases j
  {
    hide Apply, Disciplined, Steady, AtRest, WrittenFlush;
    if i == j {
    } else {
      BurstsPrefix(h, from, j - 1, j, p);
      HolderKeeps(h, from, i, j - 1, f, p);
      SteadyAt(h, from, j - 1, p);
      OwnerMoves(h.digest, h.At(j - 1), h.events[j - 1], p, FileOf(h, from, p));
    }
  }

  // ---------------------------------------------------------------- layers

  ghost predicate Layered(h: History, from: nat, i: nat, p: Path)
    requires from <= i <= |h.events| && Exists(h.At(from).fs, p)
  {
    Content(h.At(i).fs, p) == Some(Overlay(Committed(h, from, i, p), Pending(h, from, i, p)))
  }

  lemma LayeredAtRest(h: History, from: nat, p: Path)
    requires from <= |h.events| && AtRest(h.At(from), p)
    ensures Layered(h, from, from, p)
  {
    hide Apply;
  }

  /** Where the committed version and the pending edits go in one step. */
  lemma LayersMove(h: History, from: nat, i: nat, p: Path)
    requires from <= i < |h.events| && Bursts(h, from, i + 1, p)
    ensures var o, o' := Owner(h.At(i).cas, p), Owner(h.At(i + 1).cas, p);
            var c, c' := Committed(h, from, i, p), Committed(h, from, i + 1, p);
            if CommitOf(h.At(i), h.events[i], p)
            then Content(h.At(i).fs, p) == Some(c') && Pending(h, from, i + 1, p) == []
            else c' == c && Pending(h, from, i + 1, p) ==
                   if o'.None? then []
                   else (if o == o' then Pending(h, from, i, p) else [])
                        + EditOf(h.digest, h.At(i), h.events[i], o'.value, p)
  {
    hide Apply, Disciplined, Steady, CommitOf, EditOf, AtRest;
    SteadyAt(h, from, i, p);
    AtNext(h, i);
    TiedAt(h.digest, h.At(i), h.events[i], p, FileOf(h, from, p));
    OwnerMoves(h.digest, h.At(i), h.events[i], p, FileOf(h, from, p));
  }

  lemma NoEmptyHanded(h: History, from: nat, i: nat, p: Path)
    requires from <= i < |h.events| && Bursts(h, from, i + 1, p)
    ensures h.events[i].step.Release? && Owner(h.At(i).cas, p) == Some(h.events[i].step.fh) ==> Pending(h, from, i, p) == []
    ensures Owner(h.At(i).cas, p).None? ==> Pending(h, from, i, p) == []
  {
    hide Apply, Gentle, AtRest, EditOf;
    assert Disciplined(h, from, i, p);
  }

  lemma LayeredStep(h: History, from: nat, i: nat, p: Path)
    requires from <= i < |h.events| && Bursts(h, from, i + 1, p) && Layered(h, from, i, p)
    ensures Layered(h, from, i + 1, p)
  {
    hide Apply, Disciplined, Steady, CommitOf, EditOf, AtRest, Committed, Pending, Overlay;
    var s, e, id := h.At(i), h.events[i], FileOf(h, from, p);
    SteadyAt(h, from, i, p);
    AtNext(h, i);
    TiedAt(h.digest, s, e, p, id);
    ContentStep(h.digest, s, e, p, id);
    OwnerMoves(h.digest, s, e, p, id);
    LayersMove(h, from, i, p);
    NoEmptyHanded(h, from, i, p);
    OneEdit(Committed(h, from, i + 1, p), Cut(0));
    if Owner(h.At(i + 1).cas, p).Some? {
      var edits := EditOf(h.digest, s, e, Owner(h.At(i + 1).cas, p).value, p);
      OverlayConcat(Committed(h, from, i, p), Pending(h, from, i, p), edits);
      assert [] + edits == edits;
    }
  }

  /** At every moment the file is its last committed version with the owner's edits laid over it. */
  lemma {:induction false} ContentIsCommittedPlusPending(h: History, from: nat, i: nat, p: Path)
    requires from <= i <= |h.events| && Bursts(h, from, i, p)
    ensures Layered(h, from, i, p)
    decreases i
  {
    hide Apply, Disciplined, Layered, AtRest;
    if i == from {
      LayeredAtRest(h, from, p);
    } else {
      ContentIsCommittedPlusPending(h, from, i - 1, p);
      LayeredStep(h, from, i - 1, p);
    }
  }

  /** Every edit committed since event `from`, in the order of the commits. */
  ghost function CommittedEdits(h: History, from: nat, i: nat, p: Path): seq<Edit>
    requires from <= i <= |h.events|
    decreases i
  {
    if i == from then []
    else
      CommittedEdits(h, from, i - 1, p)
      + if CommitOf(h.At(i - 1), h.events[i - 1], p) then Pending(h, from, i - 1, p) else []
  }

  /** Every edit of `p` the file system let through since event `from`, in the order they came. */
  ghost function AllEdits(h: History, from: nat, i: nat, p: Path): seq<Edit>
    requires from <= i <= |h.events|
    decreases i
  {
    if i == from then []
    else
      AllEdits(h, from, i - 1, p)
      + match Owner(h.At(i).cas, p)
        case None => []
        case Some(f) => EditOf(h.digest, h.At(i - 1), h.events[i - 1], f, p)
  }

  /** Over the whole run the committed version is the content at rest with the committed bursts'
      edits laid over it in commit order. */
  lemma {:induction false} CommitsReplay(h: History, from: nat, n: nat, p: Path)
    requires from <= n <= |h.events| && Bursts(h, from, n, p)
    ensures Committed(h, from, n, p) == Overlay(Content(h.At(from).fs, p).value, CommittedEdits(h, from, n, p))
    decreases n
  {
    hide Apply, Disciplined, CommitOf, Pending, Overlay, AtRest;
    if n == from {
      OneEdit(Content(h.At(from).fs, p).value, Cut(0));
    } else {
      CommitsReplay(h, from, n - 1, p);
      LayersMove(h, from, n - 1, p);
      ContentIsCommittedPlusPending(h, from, n - 1, p);
      OverlayConcat(Content(h.At(from).fs, p).value, CommittedEdits(h, from, n - 1, p), Pending(h, from, n - 1, p));
      assert CommittedEdits(h, from, n - 1, p) + [] == CommittedEdits(h, from, n - 1, p);
    }
  }

  /** No edit is lost, repeated or reordered: those let through are the committed ones followed by
      the owner's pending ones, and the file is the content at rest with all of them laid over it. */
  lemma {:induction false} EveryEditLands(h: History, from: nat, n: nat, p: Path)
    requires from <= n <= |h.events| && Bursts(h, from, n, p)
    ensures AllEdits(h, from, n, p) == CommittedEdits(h, from, n, p) + Pending(h, from, n, p)
    ensures Content(h.At(n).fs, p) == Some(Overlay(Content(h.At(from).fs, p).value, AllEdits(h, from, n, p)))
    decreases n
  {
    hide Apply, Disciplined, CommitOf, EditOf, Overlay, AtRest;
    CommitsReplay(h, from, n, p);
    ContentIsCommittedPlusPending(h, from, n, p);
    OverlayConcat(Content(h.At(from).fs, p).value, CommittedEdits(h, from, n, p), Pending(h, from, n, p));
    if n == from {
    } else {
      EveryEditLands(h, from, n - 1, p);
      EditsMove(h, from, n - 1, p);
    }
  }

  lemma EditsMove(h: History, from: nat, i: nat, p: Path)
    requires from <= i < |h.events| && Bursts(h, from, i + 1, p)
    requires AllEdits(h, from, i, p) == CommittedEdits(h, from, i, p) + Pending(h, from, i, p)
    ensures AllEdits(h, from, i + 1, p) == CommittedEdits(h, from, i + 1, p) + Pending(h, from, i + 1, p)
  {
    hide Apply, Disciplined, AtRest, CommitOf, EditOf, Pending, Steady, AllEdits, CommittedEdits;
    var o, o' := Owner(h.At(i).cas, p), Owner(h.At(i + 1).cas, p);
    LayersMove(h, from, i, p);
    NoEmptyHanded(h, from, i, p);
    EditsNext(h, from, i, p);
    SteadyAt(h, from, i, p);
    AtNext(h, i);
    OwnerMoves(h.digest, h.At(i), h.events[i], p, FileOf(h, from, p));
    if !CommitOf(h.At(i), h.events[i], p) && o'.Some? {
      var edits := EditOf(h.digest, h.At(i), h.events[i], o'.value, p);
      assert Pending(h, from, i + 1, p) == Pending(h, from, i, p) + edits;
      Regroup(CommittedEdits(h, from, i, p), Pending(h, from, i, p), edits);
    }
  }

  lemma EditsNext(h: History, from: nat, i: nat, p: Path)
    requires from <= i < |h.events|
    ensures AllEdits(h, from, i + 1, p) ==
            match Owner(h.At(i + 1).cas, p)
            case None => AllEdits(h, from, i, p)
            case Some(f) => AllEdits(h, from, i, p) + EditOf(h.digest, h.At(i), h.events[i], f, p)
    ensures CommittedEdits(h, from, i + 1, p) ==
            if CommitOf(h.At(i), h.events[i], p) then CommittedEdits(h, from, i, p) + Pending(h, from, i, p)
            else CommittedEdits(h, from, i, p)
  {
    hide Apply, CommitOf, EditOf, Pending;
  }

  lemma Regroup(a: seq<Edit>, b: seq<Edit>, c: seq<Edit>)
    ensures (a + b) + c == a + (b + c)
  {
  }

  // ---------------------------------------------------------------- no lost update

  ghost function SeenContent(h: History, i: nat, sid: Sid, p: Path): Option<Bytes>
    requires i <= |h.events|
  {
    match Seen(h, i, sid, p)
    case None => None
    case Some(sight) => Some(sight.content)
  }

  /** What handle `f` counts on before event `i`: what it saw itself, else what its session saw. */
  ghost function CountsOn(h: History, i: nat, f: Fh, p: Path): Option<Bytes>
    requires i <= |h.events| && f in h.At(i).ht.live
  {
    if HandleSaw(h, i, f).Some? then HandleSaw(h, i, f) else SeenContent(h, i, h.At(i).ht.live[f].sid, p)
  }

  ghost predicate SawAs(h: History, k: nat, sid: Sid, p: Path, c: Bytes) {
    k <= |h.events| && SeenContent(h, k, sid, p) == Some(c)
  }

  ghost predicate HadAs(h: History, k: nat, p: Path, c: Bytes) {
    k <= |h.events| && Content(h.At(k).fs, p) == Some(c)
  }

  ghost predicate HandleSawAs(h: History, k: nat, f: Fh, p: Path, c: Bytes) {
    k <= |h.events| && On(h.At(k), f, p) && HandleSaw(h, k, f) == Some(c)
  }

  /** Every content `p` has along the run, and every content a session or a handle on `p` last saw of
      it, which for a renamed file may be one it had under another name. */
  ghost predicate IsVersion(h: History, p: Path, c: Bytes) {
    || (exists k: nat :: HadAs(h, k, p, c))
    || (exists k: nat, sid: Sid :: SawAs(h, k, sid, p, c))
    || (exists k: nat, f: Fh :: HandleSawAs(h, k, f, p, c))
  }

  ghost function Versions(h: History, p: Path): iset<Bytes> {
    iset c | IsVersion(h, p, c)
  }

  lemma SameDigest(h: History, p: Path, a: Bytes, b: Bytes)
    requires Separates(h.digest, Versions(h, p)) && IsVersion(h, p, a) && IsVersion(h, p, b)
    requires h.digest(a) == h.digest(b)
    ensures a == b
  {
    hide IsVersion;
    assert a in Versions(h, p) && b in Versions(h, p);
  }

  lemma SeenStep(h: History, i: nat, sid: Sid, p: Path)
    requires i < |h.events| && Gentle(h.digest, h.At(i), h.events[i], p) && Exists(h.At(i).fs, p)
    ensures var now, before, shown := Seen(h, i + 1, sid, p), Seen(h, i, sid, p),
                                      Shows(h.digest, h.At(i), h.events[i], sid, p);
            if shown.Some? then now == Some(Sight(shown.value, h.events[i].now))
            else now == before || (now == None && h.events[i].step.Evict?)
  {
    hide Apply, Shows, StaleReceipt;
    RemovalReply(h.digest, h.At(i), h.events[i]);
  }

  lemma RemovalReply(d: Bytes -> Digest, s: State, e: Event)
    ensures e.step.Unlink? && Apply(d, s, e).1.Done? ==> e.step.os && !StaleReceipt(d, s, e.step.sid, e.step.path)
    ensures e.step.Rename? && Apply(d, s, e).1.Done? ==>
              RenameHappens(d, s, e.step.src, e.step.dst, e.step.sid, e.step.os)
  {
    if e.step.Unlink? || e.step.Rename? {
      hide StaleReceipt;
    }
  }

  /** Whatever a handle counts on, if it has the digest of the content, is the content. */
  lemma CurrentIsSeen(h: History, i: nat, k: nat, f: Fh, p: Path)
    requires h.Mount() && i <= |h.events| && k <= |h.events| && On(h.At(i), f, p) && Exists(h.At(k).fs, p)
    requires Separates(h.digest, Versions(h, p))
    requires var handle := h.At(i).ht.live[f];
             if handle.hashAtOpen.Some? then handle.hashAtOpen == HashFile(h.digest, h.At(k).fs, p)
             else SeenDigest(h.At(i), handle.sid, p) in {None, HashFile(h.digest, h.At(k).fs, p)}
    ensures CountsOn(h, i, f, p) in {None, Content(h.At(k).fs, p)}
  {
    hide Apply, Seen, HandleSaw, Versions;
    HandleSightsAreHistory(h, i, f);
    ReceiptsAreHistory(h, i, h.At(i).ht.live[f].sid, p);
    assert HadAs(h, k, p, Content(h.At(k).fs, p).value);
    if CountsOn(h, i, f, p).Some? {
      var c := CountsOn(h, i, f, p).value;
      assert HandleSawAs(h, i, f, p, c) || SawAs(h, i, h.At(i).ht.live[f].sid, p, c);
      SameDigest(h, p, c, Content(h.At(k).fs, p).value);
    }
  }

  /** A claim of `p`, by an open, a write or a resize, finds the file at its last committed version,
      and that is what the claiming handle counts on, if it has seen the file at all. */
  lemma ClaimFindsCommitted(h: History, from: nat, i: nat, f: Fh, p: Path)
    requires from <= i < |h.events| && Bursts(h, from, i + 1, p)
    requires Separates(h.digest, Versions(h, p))
    requires Claims(h.digest, h.At(i), h.events[i], f, p)
    ensures Content(h.At(i).fs, p) == Some(Committed(h, from, i, p))
    ensures f in h.At(i + 1).ht.live
    ensures CountsOn(h, i + 1, f, p) in {None, Some(Committed(h, from, i, p))}
  {
    hide Apply, Versions, Disciplined, Steady, CountsOn, AtRest;
    SteadyAt(h, from, i, p);
    AtNext(h, i);
    TiedAt(h.digest, h.At(i), h.events[i], p, FileOf(h, from, p));
    ClaimIsCurrent(h.digest, h.At(i), h.events[i], f, p, FileOf(h, from, p));
    ContentIsCommittedPlusPending(h, from, i, p);
    NoEmptyHanded(h, from, i, p);
    CurrentIsSeen(h, i + 1, i, f, p);
  }

  /** `f` claimed `p` at event `i` and owns it ever since, up to event `j`. */
  ghost predicate Holds(h: History, i: nat, j: nat, f: Fh, p: Path)
    requires i < j <= |h.events|
  {
    Owner(h.At(i).cas, p).None? && forall k: nat | i < k <= j :: Owner(h.At(k).cas, p) == Some(f)
  }

  /** Every owner claimed the path. */
  lemma {:induction false} OwnerClaimed(h: History, from: nat, j: nat, f: Fh, p: Path) returns (i: nat)
    requires from <= j <= |h.events| && Bursts(h, from, j, p) && Owner(h.At(j).cas, p) == Some(f)
    ensures from <= i < j && Holds(h, i, j, f, p)
    decreases j
  {
    hide Apply, Disciplined, Steady, CommitOf, Tied, Held;
    i := j - 1;
    SteadyAt(h, from, j - 1, p);
    OwnerMoves(h.digest, h.At(j - 1), h.events[j - 1], p, FileOf(h, from, p));
    if Owner(h.At(j - 1).cas, p) == Some(f) {
      i := OwnerClaimed(h, from, j - 1, f, p);
    }
  }

  /** Everything handle `f` did to `p` from event `i` up to event `j`. */
  ghost function EditsBy(h: History, i: nat, j: nat, f: Fh, p: Path): seq<Edit>
    requires i <= j <= |h.events|
    decreases j
  {
    if i == j then [] else EditsBy(h, i, j - 1, f, p) + EditOf(h.digest, h.At(j - 1), h.events[j - 1], f, p)
  }

  /** While `f` holds `p` nothing is committed, and what is pending is what `f` did since its claim. */
  lemma {:induction false} HeldMeans(h: History, from: nat, i: nat, j: nat, f: Fh, p: Path)
    requires from <= i < j <= |h.events| && Bursts(h, from, j, p) && Holds(h, i, j, f, p)
    ensures Committed(h, from, j, p) == Committed(h, from, i, p)
    ensures Pending(h, from, j, p) == EditsBy(h, i, j, f, p)
    decreases j
  {
    hide Apply, Disciplined, Steady, CommitOf, EditOf, AtRest;
    SteadyAt(h, from, j - 1, p);
    OwnerMoves(h.digest, h.At(j - 1), h.events[j - 1], p, FileOf(h, from, p));
    AtNext(h, j - 1);
    assert !CommitOf(h.At(j - 1), h.events[j - 1], p);
    if i == j - 1 {
      assert EditsBy(h, i, i, f, p) == [];
    } else {
      HeldMeans(h, from, i, j - 1, f, p);
    }
  }

  /** The burst of `f` claimed at `i` and committed at `j` builds on what its author saw: it started
      from the version the previous commit left, that version is the one its author counted on (if
      it had seen the file at all), nobody else owned the file or committed in between, and what it
      commits is that version with exactly its own edits laid over it. */
  ghost predicate BuildsOnSeen(h: History, from: nat, i: nat, j: nat, f: Fh, p: Path)
    requires from <= i < j < |h.events| && Exists(h.At(from).fs, p)
  {
    && Holds(h, i, j, f, p)
    && Content(h.At(i).fs, p) == Some(Committed(h, from, i, p))
    && f in h.At(i + 1).ht.live
    && CountsOn(h, i + 1, f, p) in {None, Some(Committed(h, from, i, p))}
    && Committed(h, from, j, p) == Committed(h, from, i, p)
    && Committed(h, from, j + 1, p) == Overlay(Committed(h, from, i, p), EditsBy(h, i, j, f, p))
  }

  lemma BurstBuildsOnSeen(h: History, from: nat, i: nat, j: nat, f: Fh, p: Path)
    requires from <= i < j < |h.events| && Bursts(h, from, j + 1, p)
    requires Separates(h.digest, Versions(h, p))
    requires Holds(h, i, j, f, p) && CommitOf(h.At(j), h.events[j], p)
    ensures BuildsOnSeen(h, from, i, j, f, p)
  {
    hide Apply, Versions, Disciplined, CommitOf, Committed, Pending, CountsOn, Overlay, AtRest, EditsBy;
    BurstsPrefix(h, from, i + 1, j + 1, p);
    BurstsPrefix(h, from, j, j + 1, p);
    AtNext(h, i);
    ClaimFindsCommitted(h, from, i, f, p);
    HeldMeans(h, from, i, j, f, p);
    ContentIsCommittedPlusPending(h, from, j, p);
    LayersMove(h, from, j, p);
  }

  /** No lost update. In every interleaving of any sessions' claims, edits, reads and closes, every
      commit is the end of a burst that builds on what its author saw. */
  lemma NoLostUpdate(h: History, from: nat, j: nat, p: Path)
    requires from <= j < |h.events| && Bursts(h, from, j + 1, p)
    requires Separates(h.digest, Versions(h, p))
    requires CommitOf(h.At(j), h.events[j], p)
    ensures exists i: nat | from <= i < j :: BuildsOnSeen(h, from, i, j, h.events[j].step.fh, p)
  {
    hide Apply, Versions, Disciplined, WrittenFlush, Steady, BuildsOnSeen, Holds, AtRest;
    SteadyAt(h, from, j, p);
    OwnerMoves(h.digest, h.At(j), h.events[j], p, FileOf(h, from, p));
    BurstsPrefix(h, from, j, j + 1, p);
    var i := OwnerClaimed(h, from, j, h.events[j].step.fh, p);
    BurstBuildsOnSeen(h, from, i, j, h.events[j].step.fh, p);
  }
}
