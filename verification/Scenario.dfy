/** The example of the project's README: two agents read a file, the first to write wins, the
    second is turned away. The runs meet the hypotheses of the update theorems, and show the one
    way the promise fails: the rejected open has already truncated the file. */
module Scenario {
  import opened Types
  import opened BackingStore
  import opened HandleTables
  import opened CasTables
  import opened Protocol
  import opened Receipts
  import opened Updates

  /** The file, the agents' sessions, what the first agent writes, and which opens truncate. */
  datatype Case = Case(digest: Bytes -> Digest, p: Path, c0: Bytes, data: Bytes, a: Sid, b: Sid, truncA: bool, truncB: bool)

  /** What the first agent commits. */
  function Version(c: Case): Bytes {
    Patch(if c.truncA then [] else c.c0, 0, c.data)
  }

  /** Both agents read `p`; `a` opens it, writes `data`, flushes and closes; `b` opens it. */
  function TwoAgents(c: Case): History {
    History(c.digest, State(EMPTY_CAS, NO_HANDLES, Store(map[c.p := 2], map[2 := c.c0], 3)), [
      Event(Open(c.p, RdOnly, false, false, c.a, true), 0),
      Event(Open(c.p, RdOnly, false, false, c.b, true), 1),
      Event(Open(c.p, WrOnly, false, c.truncA, c.a, true), 2),
      Event(Write(3, 0, c.data, |c.data|), 3),
      Event(Flush(3), 4),
      Event(Release(3), 5),
      Event(Open(c.p, WrOnly, false, c.truncB, c.b, true), 6)
    ])
  }

  lemma TwoReads(c: Case)
    requires c.a != c.b
    ensures var s := TwoAgents(c).At(2);
            && s.fs == TwoAgents(c).start.fs
            && s.ht.nextFh == 3
            && s.cas.entries == map[]
            && s.cas.readers == map[(c.a, c.p) := ReaderEntry(c.digest(c.c0), 0), (c.b, c.p) := ReaderEntry(c.digest(c.c0), 1)]
  {
    var h := TwoAgents(c);
    AtNext(h, 0);
    assert h.At(0) == h.start;
    AtNext(h, 1);
  }

  lemma FirstWrite(c: Case)
    requires c.a != c.b
    ensures var h := TwoAgents(c);
            && h.ReplyTo(2) == Opened(3)
            && h.ReplyTo(3) == Written(|c.data|)
            && h.At(4).fs == Store(map[c.p := 2], map[2 := Version(c)], 3)
            && 3 in h.At(3).ht.live && 3 in h.At(4).ht.live
            && h.At(4).ht.live[3] == HandleState(c.p, Some(2), None, WrOnly, true, c.a)
            && h.At(4).ht.nextFh == 4
            && h.At(4).cas == Cas(map[c.p := FileState(Some(3), 2)], h.At(2).cas.readers)
  {
    hide Patch;
    var h := TwoAgents(c);
    TwoReads(c);
    AtNext(h, 2);
    AfterOpen(c, h.At(2));
    AtNext(h, 3);
    assert c.data[..|c.data|] == c.data;
  }

  lemma AfterOpen(c: Case, s: State)
    requires s.fs == Store(map[c.p := 2], map[2 := c.c0], 3) && s.ht.nextFh == 3 && s.cas.entries == map[]
    requires (c.a, c.p) in s.cas.readers && s.cas.readers[(c.a, c.p)].hash == c.digest(c.c0)
    ensures Apply(c.digest, s, Event(Open(c.p, WrOnly, false, c.truncA, c.a, true), 2)) ==
            (State(Cas(map[c.p := FileState(Some(3), 2)], s.cas.readers),
                   WithHandle(s.ht, HandleState(c.p, Some(2), None, WrOnly, false, c.a)),
                   Store(map[c.p := 2], map[2 := if c.truncA then [] else c.c0], 3)),
             Opened(3))
  {
    assert s.fs.files[2 := []] == map[2 := []];
  }

  lemma AfterFlush(c: Case, s: State)
    requires Exists(s.fs, c.p) && 3 in s.ht.live && s.ht.live[3].hasWritten && s.ht.live[3].path == c.p && s.ht.live[3].sid == c.a
    requires Owner(s.cas, c.p) == Some(3)
    ensures var t := Apply(c.digest, s, Event(Flush(3), 4)).0;
            && 3 in t.ht.live && !t.ht.live[3].hasWritten && Owner(t.cas, c.p) == None
    ensures var t := Apply(c.digest, Apply(c.digest, s, Event(Flush(3), 4)).0, Event(Release(3), 5)).0;
            && t.fs == s.fs && t.ht.nextFh == s.ht.nextFh
            && Owner(t.cas, c.p) == None
            && t.cas.readers == s.cas.readers[(c.a, c.p) := ReaderEntry(c.digest(Content(s.fs, c.p).value), 4)]
  {
  }

  /** The first agent's burst is committed and the second agent's open is rejected as stale. The
      committed version then stands, unless the rejected open asked to truncate: it is lost then. */
  lemma SecondWriterIsRejected(c: Case)
    requires c.a != c.b && c.digest(c.c0) != c.digest(Version(c))
    ensures var h := TwoAgents(c);
            && h.ReplyTo(2) == Opened(3)
            && h.ReplyTo(6) == Rejected(Stale)
            && Content(h.At(6).fs, c.p) == Some(Version(c))
            && Content(h.At(7).fs, c.p) == Some(if c.truncB then [] else Version(c))
  {
    hide Version;
    var h := TwoAgents(c);
    TwoReads(c);
    FirstWrite(c);
    AfterFlush(c, h.At(4));
    AtNext(h, 4);
    AtNext(h, 5);
    AtNext(h, 6);
  }

  /** When it does not, the run respects the discipline, so the update theorems speak about it. */
  lemma TwoAgentsAreDisciplined(c: Case)
    requires c.a != c.b && !c.truncB
    ensures Bursts(TwoAgents(c), 0, 7, c.p)
  {
    hide Version, Apply, Pending;
    var h := TwoAgents(c);
    TwoReads(c);
    FirstWrite(c);
    AfterFlush(c, h.At(4));
    AtNext(h, 4);
    AtNext(h, 5);
    AtNext(h, 2);
    AtNext(h, 3);
    AfterOpen(c, h.At(2));
    forall i: nat | i < 7 ensures Disciplined(h, 0, i, c.p) {
      assert i == 0 || i == 1 || i == 2 || i == 3 || i == 4 || i == 5 || i == 6;
    }
  }

  /** Session `a` creates `p`, session `b` opens it for writing and owns it, `a` writes. */
  function ThroughTheCreatedHandle(digest: Bytes -> Digest, p: Path, data: Bytes, a: Sid, b: Sid): History {
    History(digest, State(EMPTY_CAS, NO_HANDLES, Store(map[], map[], 2)), [
      Event(Create(p, WrOnly, false, a, true), 0),
      Event(Open(p, WrOnly, false, false, b, true), 1),
      Event(Write(1, 0, data, |data|), 2)
    ])
  }

  /** The one write the discipline excludes, reached from a mount: while `b` owns the file, the handle
      `a` created it with writes unchecked, and `a`'s bytes are in the file that `b` goes on to commit. */
  lemma OwnerIsNotAlone(digest: Bytes -> Digest, p: Path, data: Bytes, a: Sid, b: Sid)
    requires a != b
    ensures var h := ThroughTheCreatedHandle(digest, p, data, a, b);
            && h.Mount() && AtRest(h.At(1), p)
            && h.ReplyTo(1) == Opened(2) && Owner(h.At(2).cas, p) == Some(2) && h.At(2).ht.live[2].sid == b
            && Disciplined(h, 1, 1, p) && !Disciplined(h, 1, 2, p)
            && h.ReplyTo(2) == Written(|data|) && Owner(h.At(3).cas, p) == Some(2)
            && Content(h.At(3).fs, p) == Some(data)
  {
    hide Patch, Pending, Apply;
    var h := ThroughTheCreatedHandle(digest, p, data, a, b);
    AtNext(h, 0);
    AtNext(h, 1);
    AtNext(h, 2);
    AfterCreate(h.digest, h.start, p, a, 0);
    AfterSecondOpen(h.digest, h.At(1), p, b, 1);
    AfterForeignWrite(h.digest, h.At(2), p, data, 2);
  }

  lemma AfterCreate(d: Bytes -> Digest, s: State, p: Path, a: Sid, now: Time)
    requires Mounted(s) && s.fs == Store(map[], map[], 2)
    ensures Apply(d, s, Event(Create(p, WrOnly, false, a, true), now)).0 ==
            State(Cas(map[p := FileState(None, now)], map[(a, p) := ReaderEntry(d([]), now)]),
                  Handles(map[1 := HandleState(p, Some(2), Some(d([])), WrOnly, false, a)], 2),
                  Store(map[p := 2], map[2 := []], 3))
  {
  }

  lemma AfterSecondOpen(d: Bytes -> Digest, s: State, p: Path, b: Sid, now: Time)
    requires Owner(s.cas, p).None? && Receipt(s.cas, b, p).None? && s.fs == Store(map[p := 2], map[2 := []], 3)
    requires s.ht.nextFh == 2
    ensures var (s', r) := Apply(d, s, Event(Open(p, WrOnly, false, false, b, true), now));
            && r == Opened(2)
            && Owner(s'.cas, p) == Some(2)
            && s'.ht == WithHandle(s.ht, HandleState(p, Some(2), None, WrOnly, false, b))
            && s'.fs == s.fs
  {
  }

  lemma AfterForeignWrite(d: Bytes -> Digest, s: State, p: Path, data: Bytes, now: Time)
    requires Owner(s.cas, p) == Some(2) && s.fs == Store(map[p := 2], map[2 := []], 3)
    requires 1 in s.ht.live && s.ht.live[1].path == p && s.ht.live[1].fd == Some(2) && s.ht.live[1].mode.WrOnly?
    ensures var (s', r) := Apply(d, s, Event(Write(1, 0, data, |data|), now));
            r == Written(|data|) && Owner(s'.cas, p) == Some(2) && Content(s'.fs, p) == Some(data)
  {
    assert data[..|data|] == data;
    assert Patch([], 0, data) == data;
  }

  /** Emptying a file is not a write: a session that opens a file it is current on with truncation,
      writes nothing, flushes and closes is shut out of its own result, because only a written flush
      renews its receipt. Its next open is admitted exactly when the file was empty to the digest. */
  lemma EmptyingLocksOneselfOut(d: Bytes -> Digest, s: State, p: Path, sid: Sid, now: Time)
    requires TablesOk(s) && Exists(s.fs, p) && Owner(s.cas, p).None?
    requires SeenDigest(s, sid, p) == HashFile(d, s.fs, p)
    ensures var (s1, r1) := Apply(d, s, Event(Open(p, WrOnly, false, true, sid, true), now));
            var s2 := Apply(d, s1, Event(Flush(s.ht.nextFh), now)).0;
            var s3 := Apply(d, s2, Event(Release(s.ht.nextFh), now)).0;
            && r1 == Opened(s.ht.nextFh)
            && Content(s3.fs, p) == Some([])
            && Apply(d, s3, Event(Open(p, WrOnly, false, false, sid, true), now)).1 ==
               if d([]) == d(Content(s.fs, p).value) then Opened(s.ht.nextFh + 1) else Rejected(Stale)
  {
    var s1 := Apply(d, s, Event(Open(p, WrOnly, false, true, sid, true), now)).0;
    assert s1.ht.live[s.ht.nextFh].path == p && !s1.ht.live[s.ht.nextFh].hasWritten;
    var s3 := DoRelease(s1, s.ht.nextFh).0;
    assert Owner(s3.cas, p).None? && s3.cas.readers == s.cas.readers && s3.ht.nextFh == s.ht.nextFh + 1;
    AdmissionOfOpen(d, s3, Event(Open(p, WrOnly, false, false, sid, true), now));
  }
}
