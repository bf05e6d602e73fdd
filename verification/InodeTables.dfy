/** src/fs/inodes.rs: the two maps between inode numbers and paths. */
module InodeTables {
  import opened Types

  /** The reserved range of the `.dibs` virtual files starts at u64::MAX - 1000. */
  const SYNTHETIC_INODE_BASE: nat := 0xFFFF_FFFF_FFFF_FFFF - 1000
  const DIBS_STATUS_INO := SYNTHETIC_INODE_BASE + 1
  const DIBS_LOCKS_INO := SYNTHETIC_INODE_BASE + 2

  datatype Inodes = Inodes(toPath: map<nat, Path>, toIno: map<Path, nat>)

  datatype Op =
    | Insert(ino: nat, path: Path)
    | RemoveIno(ino: nat)
    | RemovePath(path: Path)
    | Move(src: Path, dst: Path)

  function Inserted(t: Inodes, ino: nat, path: Path): Inodes {
    var t1 := if ino in t.toPath then Inodes(t.toPath - {ino}, t.toIno - {t.toPath[ino]}) else t;
    var t2 := if path in t1.toIno
              then Inodes(if t1.toIno[path] != ino then t1.toPath - {t1.toIno[path]} else t1.toPath, t1.toIno - {path})
              else t1;
    Inodes(t2.toPath[ino := path], t2.toIno[path := ino])
  }

  function Removed(t: Inodes, ino: nat): Inodes {
    if ino in t.toPath then Inodes(t.toPath - {ino}, t.toIno - {t.toPath[ino]}) else t
  }

  function RemovedPath(t: Inodes, path: Path): Inodes {
    if path in t.toIno then Inodes(t.toPath - {t.toIno[path]}, t.toIno - {path}) else t
  }

  function Moved(t: Inodes, src: Path, dst: Path): Inodes {
    if src in t.toIno
    then Inodes(t.toPath[t.toIno[src] := dst], (t.toIno - {src})[dst := t.toIno[src]])
    else t
  }

  function Do(t: Inodes, op: Op): Inodes {
    match op
    case Insert(ino, path) => Inserted(t, ino, path)
    case RemoveIno(ino) => Removed(t, ino)
    case RemovePath(path) => RemovedPath(t, path)
    case Move(src, dst) => Moved(t, src, dst)
  }

  function Replay(t: Inodes, ops: seq<Op>): Inodes {
    if ops == [] then t else Do(Replay(t, ops[..|ops| - 1]), ops[|ops| - 1])
  }

  /** Looking a path up and its inode back always returns the path. */
  ghost predicate PathsAgree(t: Inodes) {
    forall p | p in t.toIno :: t.toIno[p] in t.toPath && t.toPath[t.toIno[p]] == p
  }

  /** The two maps are inverses. */
  ghost predicate Bijective(t: Inodes) {
    && PathsAgree(t)
    && forall i | i in t.toPath :: t.toPath[i] in t.toIno && t.toIno[t.toPath[i]] == i
  }

  lemma PathsAgreeStep(t: Inodes, op: Op)
    requires PathsAgree(t)
    ensures PathsAgree(Do(t, op))
  {
  }

  lemma {:induction false} ReplayAgrees(t: Inodes, ops: seq<Op>)
    requires PathsAgree(t)
    ensures PathsAgree(Replay(t, ops))
  {
    hide PathsAgree, Do;
    if ops == [] {
    } else {
      ReplayAgrees(t, ops[..|ops| - 1]);
      PathsAgreeStep(Replay(t, ops[..|ops| - 1]), ops[|ops| - 1]);
    }
  }

  /** In every run of inserts, removals and renames from the empty table. */
  lemma PathsAgreeAlways(ops: seq<Op>)
    ensures PathsAgree(Replay(Inodes(map[], map[]), ops))
    ensures var t := Replay(Inodes(map[], map[]), ops);
            forall p, q | p in t.toIno && q in t.toIno && t.toIno[p] == t.toIno[q] :: p == q
  {
    ReplayAgrees(Inodes(map[], map[]), ops);
  }

  /** A rename over a mapped destination leaves that destination's inode dangling. */
  ghost predicate Overwrites(t: Inodes, op: Op) {
    op.Move? && op.src in t.toIno && op.dst in t.toIno && op.src != op.dst
  }

  /** The bijection is kept by every operation but exactly that one. */
  lemma BijectiveStep(t: Inodes, op: Op)
    requires Bijective(t)
    ensures Bijective(Do(t, op)) <==> !Overwrites(t, op)
  {
    PathsAgreeStep(t, op);
    if Overwrites(t, op) {
      var j := t.toIno[op.dst];
      assert j in Do(t, op).toPath && Do(t, op).toPath[j] == op.dst && Do(t, op).toIno[op.dst] != j;
    }
  }

  /** And in every run that never renames over a mapped name it holds throughout. */
  lemma {:induction false} BijectiveAlways(ops: seq<Op>)
    requires forall k | 0 <= k < |ops| :: !Overwrites(Replay(Inodes(map[], map[]), ops[..k]), ops[k])
    ensures Bijective(Replay(Inodes(map[], map[]), ops))
  {
    if ops == [] {
    } else {
      var init := ops[..|ops| - 1];
      forall k | 0 <= k < |init| ensures !Overwrites(Replay(Inodes(map[], map[]), init[..k]), init[k]) {
        assert init[..k] == ops[..k];
      }
      BijectiveAlways(init);
      BijectiveStep(Replay(Inodes(map[], map[]), init), ops[|ops| - 1]);
    }
  }

  /** What an insert does to every lookup, in any table: the pair is registered, the path the inode
      led to is forgotten, the inode the path led to is forgotten unless it led there already,
      everything else stays. */
  lemma InsertExact(t: Inodes, ino: nat, path: Path, q: Path, j: nat)
    ensures Get(Inserted(t, ino, path).toIno, q) ==
            if q == path then Some(ino) else if Get(t.toPath, ino) == Some(q) then None else Get(t.toIno, q)
    ensures Get(Inserted(t, ino, path).toPath, j) ==
            if j == ino then Some(path)
            else if Get(t.toIno, path) == Some(j) && Get(t.toPath, ino) != Some(path) then None
            else Get(t.toPath, j)
  {
  }

  /** So an insert leads no inode to another path, and disturbs only the lookup its inode led to. */
  lemma InsertSpares(t: Inodes, ino: nat, path: Path, q: Path)
    requires path != q
    ensures forall j | Get(Inserted(t, ino, path).toPath, j) == Some(q) :: Get(t.toPath, j) == Some(q)
    ensures Get(t.toPath, ino) != Some(q) ==> Get(Inserted(t, ino, path).toIno, q) == Get(t.toIno, q)
  {
  }

  /** Removing by inode drops it and the lookup of the path it led to; an unknown one changes nothing. */
  lemma RemoveExact(t: Inodes, ino: nat, q: Path, j: nat)
    ensures Get(Removed(t, ino).toPath, j) == if j == ino then None else Get(t.toPath, j)
    ensures Get(Removed(t, ino).toIno, q) == if Get(t.toPath, ino) == Some(q) then None else Get(t.toIno, q)
  {
  }

  /** Removing by path drops it and the inode it was looked up as. */
  lemma RemovePathExact(t: Inodes, path: Path, q: Path, j: nat)
    ensures Get(RemovedPath(t, path).toIno, q) == if q == path then None else Get(t.toIno, q)
    ensures Get(RemovedPath(t, path).toPath, j) == if Get(t.toIno, path) == Some(j) then None else Get(t.toPath, j)
  {
  }

  /** A rename of a known path leads its inode to the new path and forgets the old one. */
  lemma MoveExact(t: Inodes, src: Path, dst: Path, q: Path, j: nat)
    ensures Get(Moved(t, src, dst).toIno, q) ==
            if src !in t.toIno then Get(t.toIno, q)
            else if q == dst then Some(t.toIno[src])
            else if q == src then None
            else Get(t.toIno, q)
    ensures Get(Moved(t, src, dst).toPath, j) == if Get(t.toIno, src) == Some(j) then Some(dst) else Get(t.toPath, j)
  {
  }

  class InodeTable {
    var inoToPath: map<nat, Path>
    var pathToIno: map<Path, nat>

    function View(): Inodes
      reads this
    {
      Inodes(inoToPath, pathToIno)
    }

    constructor ()
      ensures View() == Inodes(map[], map[])
    {
      inoToPath, pathToIno := map[], map[];
    }

    method Insert(ino: nat, path: Path)
      modifies this
      ensures View() == Inserted(old(View()), ino, path)
    {
      if ino in inoToPath {
        var oldPath := inoToPath[ino];
        inoToPath := inoToPath - {ino};
        pathToIno := pathToIno - {oldPath};
      }
      if path in pathToIno {
        var oldIno := pathToIno[path];
        pathToIno := pathToIno - {path};
        if oldIno != ino {
          inoToPath := inoToPath - {oldIno};
        }
      }
      inoToPath := inoToPath[ino := path];
      pathToIno := pathToIno[path := ino];
    }

    function GetPath(ino: nat): (p: Option<Path>)
      reads this
      ensures p == Get(View().toPath, ino)
    {
      if ino in inoToPath then Some(inoToPath[ino]) else None
    }

    function GetIno(path: Path): (i: Option<nat>)
      reads this
      ensures i == Get(View().toIno, path)
    {
      if path in pathToIno then Some(pathToIno[path]) else None
    }

    method RemoveByIno(ino: nat)
      modifies this
      ensures View() == Removed(old(View()), ino)
    {
      if ino in inoToPath {
        var path := inoToPath[ino];
        inoToPath := inoToPath - {ino};
        pathToIno := pathToIno - {path};
      }
    }

    method RemoveByPath(path: Path)
      modifies this
      ensures View() == RemovedPath(old(View()), path)
    {
      if path in pathToIno {
        var ino := pathToIno[path];
        pathToIno := pathToIno - {path};
        inoToPath := inoToPath - {ino};
      }
    }

    method Rename(src: Path, dst: Path)
      modifies this
      ensures View() == Moved(old(View()), src, dst)
    {
      if src in pathToIno {
        var ino := pathToIno[src];
        pathToIno := pathToIno - {src};
        inoToPath := inoToPath[ino := dst];
        pathToIno := pathToIno[dst := ino];
      }
    }
  }
}
