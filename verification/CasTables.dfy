/** src/state/hash_table.rs: write owners per path and receipts per (session, path). */
module CasTables {
  import opened Types
  import opened HandleTables

  datatype FileState = FileState(owner: Option<Fh>, lastAccess: Time)

  /** A receipt: the digest of what the session last saw, and when it was recorded. */
  datatype ReaderEntry = ReaderEntry(hash: Digest, lastAccess: Time)

  type Readers = map<(Sid, Path), ReaderEntry>

  datatype Cas = Cas(entries: map<Path, FileState>, readers: Readers)

  const EMPTY_CAS := Cas(map[], map[])

  /** Outcome of the admission check; the two refusals both reach the caller as EIO. */
  datatype Verdict = Admitted | OwnedBy(owner: Fh) | Stale

  function Owner(c: Cas, p: Path): Option<Fh> {
    if p in c.entries then c.entries[p].owner else None
  }

  function WithEntry(c: Cas, p: Path, now: Time): Cas {
    if p in c.entries then c else c.(entries := c.entries[p := FileState(None, now)])
  }

  /** The comparison made when nobody owns the path. A dead handle skips it. */
  predicate Current(c: Cas, p: Path, sid: Sid, handle: Option<HandleState>, actual: Digest) {
    match handle
    case None => true
    case Some(h) =>
      match h.hashAtOpen
      case Some(seen) => seen == actual
      case None => (sid, p) in c.readers ==> c.readers[(sid, p)].hash == actual
  }

  function Check(c: Cas, p: Path, fh: Fh, sid: Sid, handle: Option<HandleState>, actual: Digest): Verdict {
    match Owner(c, p)
    case Some(o) => if o == fh then Admitted else OwnedBy(o)
    case None => if Current(c, p, sid, handle, actual) then Admitted else Stale
  }

  /** The table after the check: a refusal still leaves an entry behind. */
  function Acquire(c: Cas, p: Path, fh: Fh, v: Verdict, now: Time): Cas {
    if v.Admitted? then c.(entries := c.entries[p := FileState(Some(fh), now)]) else WithEntry(c, p, now)
  }

  function Released(c: Cas, p: Path, fh: Fh): Cas {
    if Owner(c, p) == Some(fh) then c.(entries := c.entries[p := c.entries[p].(owner := None)]) else c
  }

  function Record(c: Cas, p: Path, hash: Digest, sid: Sid, now: Time): Cas {
    c.(readers := c.readers[(sid, p) := ReaderEntry(hash, now)])
  }

  function Receipt(c: Cas, sid: Sid, p: Path): Option<ReaderEntry> {
    Get(c.readers, (sid, p))
  }

  function Forget(c: Cas, p: Path): Cas {
    Cas(c.entries - {p}, map k | k in c.readers && k.1 != p :: c.readers[k])
  }

  function MoveEntry(entries: map<Path, FileState>, src: Path, dst: Path): map<Path, FileState> {
    if src in entries then (entries - {src})[dst := entries[src]] else entries
  }

  /** The sessions holding a receipt for `p`. */
  function Holders(readers: Readers, p: Path): set<Sid> {
    set k | k in readers && k.1 == p :: k.0
  }

  /** The receipts once every one of `src` has been filed under `dst`. */
  function MoveReceipts(readers: Readers, src: Path, dst: Path): Readers {
    var kept := map k | k in readers && k.1 != src :: readers[k];
    var moved := map sid | sid in Holders(readers, src) :: (sid, dst) := readers[(sid, src)];
    kept + moved
  }

  function Renamed(c: Cas, src: Path, dst: Path): Cas {
    Cas(MoveEntry(c.entries, src, dst), MoveReceipts(c.readers, src, dst))
  }

  /** What the first phase of a sweep collects. */
  function Collected(c: Cas, cutoff: Time): set<Path> {
    set p | p in c.entries && c.entries[p].owner.None? && c.entries[p].lastAccess < cutoff
  }

  /** What the second phase does, given the paths the first one collected. */
  function FinishSweep(c: Cas, gone: set<Path>, cutoff: Time): Cas {
    Cas(c.entries - gone, map k | k in c.readers && c.readers[k].lastAccess >= cutoff :: c.readers[k])
  }

  function Sweep(c: Cas, cutoff: Time): Cas {
    FinishSweep(c, Collected(c, cutoff), cutoff)
  }

  function OwnedPaths(c: Cas): set<Path> {
    set p | p in c.entries && c.entries[p].owner.Some?
  }

  // ---------------------------------------------------------------- rename

  /** Where each receipt is after a rename, key by key. */
  lemma MovedReceipt(readers: Readers, src: Path, dst: Path, sid: Sid, p: Path)
    ensures Get(MoveReceipts(readers, src, dst), (sid, p)) ==
            if p == dst && (sid, src) in readers then Some(readers[(sid, src)])
            else if p == src && src != dst then None
            else Get(readers, (sid, p))
  {
  }

  lemma RenameToSelf(c: Cas, p: Path)
    ensures Renamed(c, p, p) == c
  {
  }

  lemma RenamedKeys(readers: Readers, src: Path, dst: Path)
    requires src != dst
    ensures MoveReceipts(readers, src, dst).Keys
         == readers.Keys - Keyed(Holders(readers, src), src) + Keyed(Holders(readers, src), dst)
    ensures Keyed(Holders(readers, src), src) <= readers.Keys
  {
  }

  lemma LostKeys(readers: Readers, src: Path, dst: Path)
    requires src != dst
    ensures Keyed(Holders(readers, src) * Holders(readers, dst), dst)
         == (readers.Keys - Keyed(Holders(readers, src), src)) * Keyed(Holders(readers, src), dst)
  {
  }

  /** A rename loses exactly the receipts of sessions that held one for both names. */
  lemma RenameCount(readers: Readers, src: Path, dst: Path)
    requires src != dst
    ensures |MoveReceipts(readers, src, dst)| + |Holders(readers, src) * Holders(readers, dst)| == |readers|
  {
    RenamedKeys(readers, src, dst);
    LostKeys(readers, src, dst);
    KeyedSize(Holders(readers, src), dst);
    KeyedSize(Holders(readers, src), src);
    KeyedSize(Holders(readers, src) * Holders(readers, dst), dst);
    UnionSize(readers.Keys, Keyed(Holders(readers, src), src), Keyed(Holders(readers, src), dst));
    assert |MoveReceipts(readers, src, dst)| == |MoveReceipts(readers, src, dst).Keys|;
  }

  function Keyed(s: set<Sid>, p: Path): set<(Sid, Path)> {
    set sid | sid in s :: (sid, p)
  }

  lemma UnionSize<T>(all: set<T>, out: set<T>, more: set<T>)
    requires out <= all
    ensures |all - out + more| == |all| - |out| + |more| - |(all - out) * more|
  {
  }

  /** Pairing every session of `s` with one path keeps the count. */
  lemma {:induction false} KeyedSize(s: set<Sid>, p: Path)
    ensures |Keyed(s, p)| == |s|
    decreases s
  {
    if s == {} {
      assert Keyed(s, p) == {};
    } else {
      var sid :| sid in s;
      KeyedSize(s - {sid}, p);
      assert Keyed(s, p) == Keyed(s - {sid}, p) + {(sid, p)};
    }
  }

  /** The receipts of `before` in the middle of the move, with the sessions in `left` still to do. */
  ghost predicate PartlyMoved(readers: Readers, before: Readers, src: Path, dst: Path, left: set<Sid>) {
    forall sid: Sid, p: Path ::
      Get(readers, (sid, p)) ==
      if (sid, src) in before && sid !in left && p == dst then Some(before[(sid, src)])
      else if (sid, src) in before && sid !in left && p == src then None
      else Get(before, (sid, p))
  }

  lemma MoveOne(readers: Readers, before: Readers, src: Path, dst: Path, left: set<Sid>, sid: Sid)
    requires PartlyMoved(readers, before, src, dst, left) && sid in left && (sid, src) in before
    ensures PartlyMoved((readers - {(sid, src)})[(sid, dst) := before[(sid, src)]], before, src, dst, left - {sid})
  {
  }

  lemma AllMoved(readers: Readers, before: Readers, src: Path, dst: Path)
    requires PartlyMoved(readers, before, src, dst, {})
    ensures readers == MoveReceipts(before, src, dst)
  {
    hide MoveReceipts;
    forall k: (Sid, Path) ensures Get(readers, k) == Get(MoveReceipts(before, src, dst), k) {
      MovedReceipt(before, src, dst, k.0, k.1);
      assert k == (k.0, k.1);
    }
    SameLookups(readers, MoveReceipts(before, src, dst));
  }

  // ---------------------------------------------------------------- the table itself

  class CasTable {
    var entries: map<Path, FileState>
    var readers: Readers

    function View(): Cas
      reads this
    {
      Cas(entries, readers)
    }

    constructor ()
      ensures View() == EMPTY_CAS
    {
      entries, readers := map[], map[];
    }

    method RecordReader(path: Path, hash: Digest, sid: Sid, now: Time)
      modifies this
      ensures View() == Record(old(View()), path, hash, sid, now)
    {
      readers := readers[(sid, path) := ReaderEntry(hash, now)];
    }

    method EnsureEntry(path: Path, now: Time)
      modifies this
      ensures View() == WithEntry(old(View()), path, now)
    {
      if path !in entries {
        entries := entries[path := FileState(None, now)];
      }
    }

    method CheckAndAcquireWrite(path: Path, fh: Fh, sid: Sid, handles: HandleTable, actual: Digest, now: Time)
      returns (v: Verdict)
      modifies this
      ensures v == Check(old(View()), path, fh, sid, Get(handles.View().live, fh), actual)
      ensures View() == Acquire(old(View()), path, fh, v, now)
    {
      EnsureEntry(path, now);
      if entries[path].owner == Some(fh) {
        entries := entries[path := entries[path].(lastAccess := now)];
        return Admitted;
      }
      if entries[path].owner.Some? {
        return OwnedBy(entries[path].owner.value);
      }
      var handle := handles.Lookup(fh);
      if handle.Some? {
        if handle.value.hashAtOpen.Some? {
          if handle.value.hashAtOpen.value != actual {
            return Stale;
          }
        } else if (sid, path) in readers && readers[(sid, path)].hash != actual {
          return Stale;
        }
      }
      entries := entries[path := FileState(Some(fh), now)];
      return Admitted;
    }

    method ReleaseWrite(path: Path, fh: Fh)
      modifies this
      ensures View() == Released(old(View()), path, fh)
    {
      if path in entries && entries[path].owner == Some(fh) {
        entries := entries[path := entries[path].(owner := None)];
      }
    }

    function ReaderHash(sid: Sid, path: Path): (h: Option<Digest>)
      reads this
      ensures h == match Receipt(View(), sid, path) case None => None case Some(r) => Some(r.hash)
    {
      if (sid, path) in readers then Some(readers[(sid, path)].hash) else None
    }

    predicate HasActiveWriter(path: Path)
      reads this
      ensures HasActiveWriter(path) <==> path in OwnedPaths(View())
    {
      path in entries && entries[path].owner.Some?
    }

    method Remove(path: Path)
      modifies this
      ensures View() == Forget(old(View()), path)
    {
      entries := entries - {path};
      readers := map k | k in readers && k.1 != path :: readers[k];
    }

    method Rename(src: Path, dst: Path)
      modifies this
      ensures View() == Renamed(old(View()), src, dst)
    {
      if src in entries {
        var state := entries[src];
        entries := entries - {src};
        entries := entries[dst := state];
      }
      ghost var before := readers;
      var toMove := map sid | sid in Holders(readers, src) :: readers[(sid, src)];
      var left := toMove.Keys;
      while left != {}
        invariant left <= toMove.Keys
        invariant entries == MoveEntry(old(entries), src, dst)
        invariant PartlyMoved(readers, before, src, dst, left)
        decreases left
      {
        var sid :| sid in left;
        MoveOne(readers, before, src, dst, left, sid);
        readers := readers - {(sid, src)};
        readers := readers[(sid, dst) := toMove[sid]];
        left := left - {sid};
      }
      AllMoved(readers, before, src, dst);
    }

    method ActiveWriters() returns (n: nat)
      ensures n == |OwnedPaths(View())|
    {
      n := 0;
      var left := entries.Keys;
      ghost var counted: set<Path> := {};
      while left != {}
        invariant left <= entries.Keys
        invariant counted == set p | p in entries.Keys - left && entries[p].owner.Some?
        invariant n == |counted|
        decreases left
      {
        var p :| p in left;
        if entries[p].owner.Some? {
          n := n + 1;
          counted := counted + {p};
        }
        left := left - {p};
      }
      assert counted == OwnedPaths(View());
    }

    method EvictOlderThan(age: nat, now: Time)
      modifies this
      ensures View() == Sweep(old(View()), now - age)
    {
      var cutoff := now - age;
      var toRemove := Collected(View(), cutoff);
      var left := toRemove;
      while left != {}
        invariant left <= toRemove
        invariant entries == old(entries) - (toRemove - left)
        invariant readers == old(readers)
        decreases left
      {
        var p :| p in left;
        entries := entries - {p};
        left := left - {p};
      }
      readers := map k | k in readers && readers[k].lastAccess >= cutoff :: readers[k];
    }
  }

  lemma SameLookups<K, V>(m: map<K, V>, n: map<K, V>)
    requires forall k | k in m || k in n :: Get(m, k) == Get(n, k)
    ensures m == n
  {
  }
}
