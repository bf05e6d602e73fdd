/** What each handler checks before it touches a file, exactly, and what it lets through. */
module Gates {
  import opened Types
  import opened BackingStore
  import opened HandleTables
  import opened CasTables
  import opened Protocol

  /** The digest differs from that of what `p` leads to; no file there counts as the empty digest. */
  ghost predicate Differs(d: Bytes -> Digest, fs: Store, p: Path, expected: Digest) {
    match Content(fs, p)
    case None => expected != []
    case Some(c) => expected != d(c)
  }

  /** What handle `h` is compared by on path `p`: its own digest, else its session's receipt. */
  ghost function ComparedBy(s: State, h: HandleState, p: Path): Option<Digest> {
    if h.hashAtOpen.Some? then h.hashAtOpen
    else if (h.sid, p) in s.cas.readers then Some(s.cas.readers[(h.sid, p)].hash)
    else None
  }

  /** `write` is refused exactly when nobody at all owns the path and the comparison fails. */
  lemma WriteGate(d: Bytes -> Digest, s: State, fh: Fh, offset: nat, data: Bytes, n: int, now: Time)
    requires fh in s.ht.live
    ensures var h := s.ht.live[fh];
            var expected := ComparedBy(s, h, h.path);
            Apply(d, s, Event(Write(fh, offset, data, n), now)).1.Rejected? <==>
            Owner(s.cas, h.path).None? && expected.Some? && Differs(d, s.fs, h.path, expected.value)
  {
  }

  /** So while `f` owns a path, any other handle on it writes unchecked, and its bytes land. */
  lemma OwnedPathIsOpenToEveryHandle(d: Bytes -> Digest, s: State, f: Fh, g: Fh, offset: nat, data: Bytes, now: Time)
    requires TablesOk(s) && g in s.ht.live && g != f
    requires Owner(s.cas, s.ht.live[g].path) == Some(f)
    requires s.ht.live[g].fd.Some? && !s.ht.live[g].mode.RdOnly?
    ensures var (s', reply) := Apply(d, s, Event(Write(g, offset, data, |data|), now));
            && reply == Written(|data|)
            && s'.cas == s.cas
            && s'.fs == PatchFile(s.fs, s.ht.live[g].fd.value, offset, data)
  {
    hide PatchFile;
    assert data[..|data|] == data;
  }

  /** A refused open leaves every byte alone exactly when it was not asked to truncate a
      non-empty file: open(2) runs before the check. */
  lemma RefusedOpenBytes(d: Bytes -> Digest, s: State, e: Event)
    requires e.step.Open? && Apply(d, s, e).1.Rejected?
    ensures Apply(d, s, e).0.fs == s.fs <==> !(e.step.trunc && Content(s.fs, e.step.path) != Some([]))
    ensures Exists(s.fs, e.step.path)
  {
  }

  /** A read-write open compares the pre-open digest with itself: only ownership can refuse it, and
      it is at the same time a read of the pre-open content. */
  lemma ReadWriteOpenGate(d: Bytes -> Digest, s: State, e: Event)
    requires e.step.Open? && e.step.mode.RdWr? && e.step.os && Exists(s.fs, e.step.path)
    ensures var o := Owner(s.cas, e.step.path);
            Apply(d, s, e).1 == if o.Some? && o.value != s.ht.nextFh then Rejected(OwnedBy(o.value)) else Opened(s.ht.nextFh)
    ensures Receipt(Apply(d, s, e).0.cas, e.step.sid, e.step.path) ==
            if Apply(d, s, e).1.Opened? then Some(ReaderEntry(d(Content(s.fs, e.step.path).value), e.now))
            else Receipt(s.cas, e.step.sid, e.step.path)
  {
    hide OpenFile;
  }

  /** `create` checks nothing and acquires nothing: it goes through whoever owns the path, hands out
      a handle that is not an owner, and empties an existing file, under all its names, when asked to
      truncate. */
  lemma CreateGate(d: Bytes -> Digest, s: State, e: Event, q: Path)
    requires e.step.Create? && e.step.os && StoreOk(s.fs)
    ensures Apply(d, s, e).1 == Opened(s.ht.nextFh)
    ensures Owner(Apply(d, s, e).0.cas, q) == Owner(s.cas, q)
    ensures Content(Apply(d, s, e).0.fs, q) ==
            if !Exists(s.fs, e.step.path) then (if q == e.step.path then Some([]) else Content(s.fs, q))
            else if e.step.trunc && q in s.fs.names && s.fs.names[q] == s.fs.names[e.step.path] then Some([])
            else Content(s.fs, q)
  {
  }

  /** Truncation is refused exactly when it comes through a handle and another handle owns the path,
      or nobody does and the live handle's comparison fails. Without a handle it always goes through. */
  lemma SetSizeGate(d: Bytes -> Digest, s: State, p: Path, handle: Option<Fh>, size: nat, os: bool, now: Time)
    ensures Apply(d, s, Event(SetSize(p, handle, size, os), now)).1.Rejected? <==>
            && handle.Some?
            && Owner(s.cas, p) != handle
            && (Owner(s.cas, p).None? ==>
                  && handle.value in s.ht.live
                  && ComparedBy(s, s.ht.live[handle.value], p).Some?
                  && Differs(d, s.fs, p, ComparedBy(s, s.ht.live[handle.value], p).value))
    ensures var (s', reply) := Apply(d, s, Event(SetSize(p, None, size, os), now));
            os && Exists(s.fs, p) ==>
              && reply == Done && s'.cas == s.cas
              && Content(s'.fs, p).Some? && |Content(s'.fs, p).value| == size
              && forall k | 0 <= k < size ::
                   Content(s'.fs, p).value[k] == if k < |Content(s.fs, p).value| then Content(s.fs, p).value[k] else 0
  {
    if handle.Some? { hide Resize; }
  }
}
