/** Many sessions, one version: the first to commit a change wins, the others are turned away. */
module Race {
  import opened Types
  import opened BackingStore
  import opened CasTables
  import opened Protocol
  import opened Ownership
  import opened Receipts
  import opened Updates

  /** Event `k` commits a content of `p` other than `c0`. */
  ghost predicate ChangeAt(h: History, k: nat, p: Path, c0: Bytes)
    requires k < |h.events|
  {
    CommitOf(h.At(k), h.events[k], p) && Content(h.At(k).fs, p) != Some(c0)
  }

  /** The session of the first change committed between events `from` and `i`. */
  ghost function Winner(h: History, from: nat, i: nat, p: Path, c0: Bytes): Option<Sid>
    requires from <= i <= |h.events|
    decreases i
  {
    if i == from then None
    else if Winner(h, from, i - 1, p, c0).Some? then Winner(h, from, i - 1, p, c0)
    else if ChangeAt(h, i - 1, p, c0) then Some(CommitterOf(h.At(i - 1), h.events[i - 1], p))
    else None
  }

  /** The claimant has something to compare: a digest in its handle or a receipt. */
  ghost predicate Sighted(s: State, e: Event, p: Path) {
    match e.step
    case Open(q, mode, creat, trunc, sid, os) => q == p ==> Receipt(s.cas, sid, p).Some?
    case Write(f, offset, data, n) => On(s, f, p) ==> HasSight(s, f, p)
    case SetSize(q, handle, size, os) => q == p && handle.Some? && On(s, handle.value, p) ==> HasSight(s, handle.value, p)
    case _ => true
  }

  ghost predicate HasSight(s: State, f: Fh, p: Path)
    requires f in s.ht.live
  {
    s.ht.live[f].hashAtOpen.Some? || Receipt(s.cas, s.ht.live[f].sid, p).Some?
  }

  /** Nobody looks at `p` again: it is opened write-only, by sessions that saw it before, and not
      created anew. */
  ghost predicate Blinkered(s: State, e: Event, p: Path) {
    && Sighted(s, e, p)
    && (e.step.Open? && e.step.path == p ==> e.step.mode.WrOnly?)
    && (e.step.Create? ==> e.step.path != p)
  }

  /** At event `from` every session and every handle that has seen `p` at all has seen `c0`, and from
      then on nobody looks again. */
  ghost predicate StartsEven(h: History, from: nat, p: Path, c0: Bytes)
    requires from <= |h.events|
  {
    && Content(h.At(from).fs, p) == Some(c0)
    && Owner(h.At(from).cas, p).None?
    && (forall sid: Sid :: SeenContent(h, from, sid, p) in {None, Some(c0)})
    && (forall f | On(h.At(from), f, p) :: HandleSaw(h, from, f) in {None, Some(c0)})
    && (forall k: nat | from <= k < |h.events| :: Blinkered(h.At(k), h.events[k], p))
  }

  /** Once a change is committed, the file at rest never shows `c0` again. */
  ghost predicate NeverBack(h: History, from: nat, p: Path, c0: Bytes)
    requires from <= |h.events|
  {
    forall k: nat | from <= k <= |h.events| && Winner(h, from, k, p, c0).Some? && Owner(h.At(k).cas, p).None? ::
      Content(h.At(k).fs, p) != Some(c0)
  }

  ghost predicate Contest(h: History, since: nat, from: nat, p: Path, c0: Bytes) {
    && since <= from <= |h.events|
    && Bursts(h, since, |h.events|, p)
    && Separates(h.digest, Versions(h, p))
    && StartsEven(h, from, p, c0)
    && NeverBack(h, from, p, c0)
  }

  /** Every session but the winner, and every handle of such a session, still holds `c0`, and only
      the winner may be writing. */
  ghost predicate Settled(h: History, from: nat, i: nat, p: Path, c0: Bytes)
    requires from <= i <= |h.events|
  {
    var s, w := h.At(i), Winner(h, from, i, p, c0);
    && (forall sid: Sid | w != Some(sid) :: SeenContent(h, i, sid, p) in {None, Some(c0)})
    && (forall f | On(s, f, p) && w != Some(s.ht.live[f].sid) :: HandleSaw(h, i, f) in {None, Some(c0)})
    && (w.Some? && Owner(s.cas, p).Some? ==> On(s, Owner(s.cas, p).value, p) && s.ht.live[Owner(s.cas, p).value].sid == w.value)
  }

  // ---------------------------------------------------------------- one event of a contest

  /** What the events of a contest share: the discipline, and nobody looking. */
  ghost predicate Fair(d: Bytes -> Digest, s: State, e: Event, p: Path, id: FileId) {
    Steady(d, s, e, p, id) && Blinkered(s, e, p)
  }

  lemma FairAt(h: History, since: nat, from: nat, i: nat, p: Path, c0: Bytes)
    requires Contest(h, since, from, p, c0) && from <= i < |h.events|
    ensures Bursts(h, since, i, p) && Bursts(h, since, i + 1, p)
    ensures Fair(h.digest, h.At(i), h.events[i], p, FileOf(h, since, p))
  {
    hide Apply, Disciplined, Steady, Blinkered, Versions, Separates, AtRest, NeverBack;
    BurstsPrefix(h, since, i, |h.events|, p);
    BurstsPrefix(h, since, i + 1, |h.events|, p);
    SteadyAt(h, since, i, p);
  }

  /** A session is shown `p` by its own commits alone. */
  lemma ShownByCommit(d: Bytes -> Digest, s: State, e: Event, sid: Sid, p: Path)
    requires Blinkered(s, e, p) && Shows(d, s, e, sid, p).Some?
    ensures CommitOf(s, e, p) && CommitterOf(s, e, p) == sid && Shows(d, s, e, sid, p) == Content(s.fs, p)
  {
    hide Apply;
  }

  /** So what a session saw changes by its own commits, and otherwise is kept or swept. */
  lemma SeenInContest(h: History, since: nat, i: nat, sid: Sid, p: Path)
    requires i < |h.events| && since <= |h.events| && Exists(h.At(since).fs, p)
    requires Fair(h.digest, h.At(i), h.events[i], p, FileOf(h, since, p))
    ensures if CommitOf(h.At(i), h.events[i], p) && CommitterOf(h.At(i), h.events[i], p) == sid
            then SeenContent(h, i + 1, sid, p) == Content(h.At(i).fs, p)
            else SeenContent(h, i + 1, sid, p) in {None, SeenContent(h, i, sid, p)}
    ensures !h.events[i].step.Evict? && !CommitOf(h.At(i), h.events[i], p) ==>
              SeenContent(h, i + 1, sid, p) == SeenContent(h, i, sid, p)
  {
    hide Apply, Gentle, Blinkered, Seen, Held;
    SeenStep(h, i, sid, p);
    if Shows(h.digest, h.At(i), h.events[i], sid, p).Some? {
      ShownByCommit(h.digest, h.At(i), h.events[i], sid, p);
    }
  }

  /** And a handle sees `p` only by committing it. */
  lemma HandleSawInContest(h: History, since: nat, i: nat, f: Fh, p: Path)
    requires i < |h.events| && since <= |h.events| && Exists(h.At(since).fs, p)
    requires Fair(h.digest, h.At(i), h.events[i], p, FileOf(h, since, p)) && On(h.At(i + 1), f, p)
    ensures if h.ReplyTo(i) == Opened(f) then HandleSaw(h, i + 1, f) == None
            else && On(h.At(i), f, p)
                 && h.At(i).ht.live[f].sid == h.At(i + 1).ht.live[f].sid
                 && HandleSaw(h, i + 1, f) == if CommitOf(h.At(i), h.events[i], p) && h.events[i].step.fh == f
                                              then Content(h.At(i).fs, p) else HandleSaw(h, i, f)
  {
    hide Apply, Gentle, Held, StoreOk;
    AtNext(h, i);
    HandleStep(h.digest, h.At(i), h.events[i], f);
    if h.ReplyTo(i) == Opened(f) { OpenedOn(h.digest, h.At(i), h.events[i], p); }
  }

  /** A handle on `p` that nobody looks through comes from a write-only open, or is the virtual one. */
  lemma OpenedOn(d: Bytes -> Digest, s: State, e: Event, p: Path)
    requires Blinkered(s, e, p) && Apply(d, s, e).1.Opened?
    requires On(Apply(d, s, e).0, Apply(d, s, e).1.fh, p)
    ensures ShownAtOpen(d, s, e) == None
  {
    if e.step.Open? { hide Apply; OpenedHandle(d, s, e); }
  }

  /** With a winner, a claim is the winner's. */
  lemma ClaimIsWinners(h: History, since: nat, from: nat, i: nat, f: Fh, p: Path, c0: Bytes)
    requires Contest(h, since, from, p, c0) && from <= i < |h.events|
    requires Settled(h, from, i, p, c0) && Winner(h, from, i, p, c0).Some?
    requires Claims(h.digest, h.At(i), h.events[i], f, p)
    ensures f in h.At(i + 1).ht.live && Winner(h, from, i, p, c0) == Some(h.At(i + 1).ht.live[f].sid)
  {
    hide Apply, Versions, Separates, Disciplined, Steady, Blinkered, Winner, Seen, HandleSaw, AtRest, StartsEven, CommitOf;
    FairAt(h, since, from, i, p, c0);
    ClaimFindsCommitted(h, since, i, f, p);
    ClaimEvent(h.digest, h.At(i), h.events[i], f, p, FileOf(h, since, p));
    AtNext(h, i);
    var sid := h.At(i + 1).ht.live[f].sid;
    SeenInContest(h, since, i, sid, p);
    HandleSawInContest(h, since, i, f, p);
    HandleSightsAreHistory(h, i + 1, f);
    ReceiptsAreHistory(h, i + 1, sid, p);
    assert NeverBack(h, from, p, c0);
  }

  /** A claim is made by an open, a write or a resize, on behalf of a claimant with a sight. */
  lemma ClaimEvent(d: Bytes -> Digest, s: State, e: Event, f: Fh, p: Path, id: FileId)
    requires Fair(d, s, e, p, id) && Claims(d, s, e, f, p)
    ensures !e.step.Evict? && !CommitOf(s, e, p)
    ensures On(Apply(d, s, e).0, f, p) && HasSight(Apply(d, s, e).0, f, p)
  {
    ClaimIsCurrent(d, s, e, f, p, id);
    OwnerStep(d, s, e, p);
    match e.step {
      case Open(q, mode, creat, trunc, sid, os) => hide OpenFile;
      case Write(g, offset, data, n) => hide PatchFile;
      case SetSize(q, handle, size, os) => hide Truncated;
      case _ => NoRemoval(d, s, e, p, id);
    }
  }

  // ---------------------------------------------------------------- the whole contest

  lemma SettledSeen(h: History, since: nat, from: nat, i: nat, p: Path, c0: Bytes, sid: Sid)
    requires Contest(h, since, from, p, c0) && from <= i < |h.events|
    requires Settled(h, from, i, p, c0) && Winner(h, from, i + 1, p, c0) != Some(sid)
    ensures SeenContent(h, i + 1, sid, p) in {None, Some(c0)}
  {
    hide Apply, Versions, Separates, Disciplined, Steady, Blinkered, Seen, HandleSaw, AtRest, StartsEven, NeverBack;
    FairAt(h, since, from, i, p, c0);
    SeenInContest(h, since, i, sid, p);
    CommitIsOwners(h, since, i, p);
  }

  /** The committing handle is the owner. */
  lemma CommitIsOwners(h: History, since: nat, i: nat, p: Path)
    requires since <= i < |h.events| && Bursts(h, since, i + 1, p)
    ensures CommitOf(h.At(i), h.events[i], p) ==> Owner(h.At(i).cas, p) == Some(h.events[i].step.fh)
  {
    hide Apply, Disciplined, Steady, AtRest, WrittenFlush;
    SteadyAt(h, since, i, p);
    OwnerMoves(h.digest, h.At(i), h.events[i], p, FileOf(h, since, p));
  }

  lemma SettledHandle(h: History, since: nat, from: nat, i: nat, p: Path, c0: Bytes, f: Fh)
    requires Contest(h, since, from, p, c0) && from <= i < |h.events|
    requires Settled(h, from, i, p, c0) && On(h.At(i + 1), f, p)
    requires Winner(h, from, i + 1, p, c0) != Some(h.At(i + 1).ht.live[f].sid)
    ensures HandleSaw(h, i + 1, f) in {None, Some(c0)}
  {
    hide Apply, Versions, Separates, Disciplined, Steady, Blinkered, Seen, HandleSaw, AtRest, StartsEven, NeverBack;
    FairAt(h, since, from, i, p, c0);
    HandleSawInContest(h, since, i, f, p);
    CommitIsOwners(h, since, i, p);
  }

  lemma SettledOwner(h: History, since: nat, from: nat, i: nat, p: Path, c0: Bytes)
    requires Contest(h, since, from, p, c0) && from <= i < |h.events|
    requires Settled(h, from, i, p, c0)
    ensures var s', w := h.At(i + 1), Winner(h, from, i + 1, p, c0);
            w.Some? && Owner(s'.cas, p).Some? ==>
              On(s', Owner(s'.cas, p).value, p) && w == Some(s'.ht.live[Owner(s'.cas, p).value].sid)
  {
    hide Apply, Versions, Separates, Disciplined, Steady, Blinkered, Seen, HandleSaw, AtRest, StartsEven, NeverBack, CommitOf;
    var s, e, o := h.At(i), h.events[i], Owner(h.At(i + 1).cas, p);
    if Winner(h, from, i + 1, p, c0).Some? && o.Some? {
      FairAt(h, since, from, i, p, c0);
      AtNext(h, i);
      OwnerMoves(h.digest, s, e, p, FileOf(h, since, p));
      Kept(h, since, i + 1, p);
      if Owner(s.cas, p) == o {
        TablesOkAlways(h, i);
        HandleStep(h.digest, s, e, o.value);
      } else {
        ClaimIsWinners(h, since, from, i, o.value, p, c0);
      }
    }
  }

  lemma SettledStep(h: History, since: nat, from: nat, i: nat, p: Path, c0: Bytes)
    requires Contest(h, since, from, p, c0) && from <= i < |h.events|
    requires Settled(h, from, i, p, c0)
    ensures Settled(h, from, i + 1, p, c0)
  {
    hide Apply, SeenContent, HandleSaw, Winner, Contest;
    var s' := h.At(i + 1);
    forall sid: Sid | Winner(h, from, i + 1, p, c0) != Some(sid)
      ensures SeenContent(h, i + 1, sid, p) in {None, Some(c0)}
    {
      SettledSeen(h, since, from, i, p, c0, sid);
    }
    forall f | On(s', f, p) && Winner(h, from, i + 1, p, c0) != Some(s'.ht.live[f].sid)
      ensures HandleSaw(h, i + 1, f) in {None, Some(c0)}
    {
      SettledHandle(h, since, from, i, p, c0, f);
    }
    SettledOwner(h, since, from, i, p, c0);
  }

  lemma SettledAtFirst(h: History, since: nat, from: nat, p: Path, c0: Bytes)
    requires Contest(h, since, from, p, c0)
    ensures Settled(h, from, from, p, c0)
  {
    hide Apply, SeenContent, HandleSaw, Winner, Bursts, NeverBack, Separates, Blinkered;
    NoWinnerYet(h, from, p, c0);
  }

  lemma {:induction false} SettledAlways(h: History, since: nat, from: nat, i: nat, p: Path, c0: Bytes)
    requires Contest(h, since, from, p, c0) && from <= i <= |h.events|
    ensures Settled(h, from, i, p, c0)
    decreases i
  {
    hide Settled, Contest;
    if i == from {
      SettledAtFirst(h, since, from, p, c0);
    } else {
      SettledAlways(h, since, from, i - 1, p, c0);
      SettledStep(h, since, from, i - 1, p, c0);
    }
  }

  lemma NoWinnerYet(h: History, from: nat, p: Path, c0: Bytes)
    requires from <= |h.events|
    ensures Winner(h, from, from, p, c0) == None
  {
  }

  lemma {:induction false} WinnerStays(h: History, from: nat, i: nat, j: nat, p: Path, c0: Bytes)
    requires from <= i <= j <= |h.events| && Winner(h, from, i, p, c0).Some?
    ensures Winner(h, from, j, p, c0) == Winner(h, from, i, p, c0)
    decreases j
  {
    hide Apply, ChangeAt;
    if i == j {
    } else {
      WinnerStays(h, from, i, j - 1, p, c0);
    }
  }

  /** Whoever commits a change is the winner. */
  lemma ChangeIsWinners(h: History, since: nat, from: nat, k: nat, p: Path, c0: Bytes)
    requires Contest(h, since, from, p, c0) && from <= k < |h.events| && ChangeAt(h, k, p, c0)
    ensures Winner(h, from, k + 1, p, c0) == Some(CommitterOf(h.At(k), h.events[k], p))
  {
    hide Apply, Seen, HandleSaw, NeverBack, StartsEven, Separates, Versions, Disciplined, AtRest;
    SettledAlways(h, since, from, k, p, c0);
    BurstsPrefix(h, since, k + 1, |h.events|, p);
    CommitIsOwners(h, since, k, p);
  }

  /** One winner per version: when any number of sessions have all seen `c0` and none looks again,
      no two sessions ever both commit a change, in whatever order their bursts interleave. */
  lemma OneWinner(h: History, since: nat, from: nat, k: nat, l: nat, p: Path, c0: Bytes)
    requires Contest(h, since, from, p, c0) && from <= k < l < |h.events|
    requires ChangeAt(h, k, p, c0) && ChangeAt(h, l, p, c0)
    ensures CommitterOf(h.At(k), h.events[k], p) == CommitterOf(h.At(l), h.events[l], p)
  {
    hide *;
    ChangeIsWinners(h, since, from, k, p, c0);
    ChangeIsWinners(h, since, from, l, p, c0);
    WinnerStays(h, from, k + 1, l + 1, p, c0);
  }

  /** And once a change is committed, by the end of any such run every other session's write-only
      open of the file, truncating or not, is rejected, unless that session has no receipt to
      compare and nobody is writing. */
  lemma LosersAreRejected(h: History, since: nat, from: nat, k: nat, p: Path, c0: Bytes, e: Event, sid: Sid)
    requires Contest(h, since, from, p, c0) && from <= k < |h.events|
    requires ChangeAt(h, k, p, c0) && sid != CommitterOf(h.At(k), h.events[k], p)
    requires WriteOnlyOpen(e, sid, p)
    ensures var s := h.At(|h.events|);
            Apply(h.digest, s, e).1.Rejected? <==> Receipt(s.cas, sid, p).Some? || Owner(s.cas, p).Some?
  {
    hide Apply, Seen, HandleSaw, StartsEven, Disciplined, ChangeAt, Versions, Separates, AtRest;
    var n := |h.events|;
    ChangeIsWinners(h, since, from, k, p, c0);
    WinnerStays(h, from, k + 1, n, p, c0);
    SettledAlways(h, since, from, n, p, c0);
    Kept(h, since, n, p);
    TablesOkAlways(h, n);
    ReceiptsAreHistory(h, n, sid, p);
    OpenAgainst(h.digest, h.At(n), e, sid, p);
    assert SeenContent(h, n, sid, p) in {None, Some(c0)};
    assert Owner(h.At(n).cas, p).None? ==> Content(h.At(n).fs, p) != Some(c0);
    if Seen(h, n, sid, p).Some? && h.digest(c0) == h.digest(Content(h.At(n).fs, p).value) {
      assert SawAs(h, n, sid, p, c0) && HadAs(h, n, p, Content(h.At(n).fs, p).value);
      SameDigest(h, p, c0, Content(h.At(n).fs, p).value);
    }
  }
}
