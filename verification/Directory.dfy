/** src/fs/mod.rs, `readdir`: the entry list of a directory and its paging by cookie. */
module Directory {
  import opened Types
  import opened InodeTables

  datatype Kind = IsDir | IsFile | IsSymlink

  datatype Entry = Entry(ino: nat, kind: Kind, name: string)

  /** One item of the backing directory; `stat` is None when it cannot be read. */
  datatype Child = Child(name: string, stat: Option<(nat, Kind)>)

  const CONFLICTS_DIR := ".dibs-conflicts"
  const DIBS_DIR_NAME := ".dibs"

  predicate Internal(name: string) {
    name == CONFLICTS_DIR
  }

  predicate Visible(c: Child) {
    !Internal(c.name) && c.stat.Some?
  }

  /** The visible children, in order. */
  function Shown(children: seq<Child>): seq<Entry> {
    if children == [] then []
    else
      var c := children[|children| - 1];
      Shown(children[..|children| - 1]) + if Visible(c) then [Entry(c.stat.value.0, c.stat.value.1, c.name)] else []
  }

  /** What every listing starts with; the root also shows the virtual `.dibs`. */
  function Heading(ino: nat, parentIno: nat): seq<Entry> {
    [Entry(ino, IsDir, "."), Entry(parentIno, IsDir, "..")]
    + if ino == 1 then [Entry(SYNTHETIC_INODE_BASE, IsDir, DIBS_DIR_NAME)] else []
  }

  function Listing(ino: nat, parentIno: nat, children: seq<Child>): seq<Entry> {
    Heading(ino, parentIno) + Shown(children)
  }

  function Join(dir: Path, name: string): Path {
    if dir == "" then name else dir + "/" + name
  }

  /** The path without its last component. */
  function Parent(p: Path): Path {
    if p == "" then ""
    else if p[|p| - 1] == '/' then p[..|p| - 1]
    else Parent(p[..|p| - 1])
  }

  lemma {:induction false} ParentOfJoin(dir: Path, name: string)
    requires name != "" && '/' !in name
    ensures Parent(Join(dir, name)) == dir
  {
    var p, init := Join(dir, name), name[..|name| - 1];
    if init == "" {
      assert p[..|p| - 1] == if dir == "" then "" else dir + "/";
    } else {
      ParentOfJoin(dir, init);
      assert p[..|p| - 1] == Join(dir, init);
    }
  }

  /** The path of a directory's inode; 1 is the root, whatever the table says. */
  function DirOf(t: Inodes, ino: nat): Option<Path> {
    if ino == 1 then Some("") else Get(t.toPath, ino)
  }

  /** The inode shown for `..`: the root's at the top or when the parent is not registered. */
  function ParentIno(t: Inodes, ino: nat, dir: Path): nat {
    if ino == 1 || Parent(dir) == "" || Parent(dir) !in t.toIno then 1 else t.toIno[Parent(dir)]
  }

  /** The registrations that listing the children makes in the inode table. */
  function Registrations(dir: Path, children: seq<Child>): seq<Op> {
    if children == [] then []
    else
      var c := children[|children| - 1];
      Registrations(dir, children[..|children| - 1])
      + if Visible(c) then [Insert(c.stat.value.0, Join(dir, c.name))] else []
  }

  /** The list shows every readable child but the conflict store, and nothing else. */
  lemma {:induction false} ShownExactly(children: seq<Child>, e: Entry)
    ensures e in Shown(children) <==> e.name != ".dibs-conflicts" && Child(e.name, Some((e.ino, e.kind))) in children
  {
    if children == [] {
    } else {
      ShownExactly(children[..|children| - 1], e);
      assert children == children[..|children| - 1] + [children[|children| - 1]];
    }
  }

  /** One child is shown by its name, kind and inode number, unless it is unreadable or the conflict
      store; and lists of children are shown one after the other. Between them these two laws leave
      no freedom in the order or the number of what is shown. */
  lemma ShownOne(c: Child)
    ensures Shown([c]) == if c.name == ".dibs-conflicts" || c.stat.None? then []
                          else [Entry(c.stat.value.0, c.stat.value.1, c.name)]
  {
    assert [c][..0] == [];
    assert Shown([]) == [];
  }

  lemma {:induction false} ShownConcat(a: seq<Child>, b: seq<Child>)
    ensures Shown(a + b) == Shown(a) + Shown(b)
  {
    if b == [] {
      assert a + b == a;
    } else {
      var init, c := b[..|b| - 1], b[|b| - 1];
      ShownConcat(a, init);
      assert (a + b)[..|a + b| - 1] == a + init && (a + b)[|a + b| - 1] == c;
    }
  }

  /** A listing starts with the directory itself and its parent, the root (1) at the top or for want
      of a registered parent; the virtual `.dibs` follows in the root alone, then the children. */
  lemma ListingStarts(t: Inodes, ino: nat, dir: Path, children: seq<Child>)
    ensures var all := Listing(ino, ParentIno(t, ino, dir), children);
            var up := if ino == 1 || Parent(dir) == "" || Get(t.toIno, Parent(dir)).None? then 1
                      else Get(t.toIno, Parent(dir)).value;
            && all[..2] == [Entry(ino, IsDir, "."), Entry(up, IsDir, "..")]
            && all[2..] == (if ino == 1 then [Entry(0xFFFF_FFFF_FFFF_FC17, IsDir, ".dibs")] else []) + Shown(children)
  {
    hide Shown, Parent;
    var all := Listing(ino, ParentIno(t, ino, dir), children);
    assert all[0] == Entry(ino, IsDir, ".");
    assert all[1].name == "..";
  }

  lemma ReplaySnoc(t: Inodes, ops: seq<Op>, op: Op)
    ensures Replay(t, ops + [op]) == Do(Replay(t, ops), op)
  {
    assert (ops + [op])[..|ops|] == ops;
  }

  /** Every visible child has a real name. */
  ghost predicate RealNames(children: seq<Child>) {
    forall c | c in children && Visible(c) :: c.name != "" && '/' !in c.name
  }

  /** No visible child has the inode that path `q` was reached by. */
  ghost predicate Spares(t: Inodes, children: seq<Child>, q: Path) {
    forall c | c in children && Visible(c) :: Get(t.toPath, c.stat.value.0) != Some(q)
  }

  /** Registering the children adds no path as short as the directory's, and disturbs the lookup of
      no such path but one that a child's inode led to. */
  lemma {:induction false} RegistrationsKeep(t: Inodes, dir: Path, children: seq<Child>, q: Path)
    requires RealNames(children) && |q| <= |dir|
    ensures var t' := Replay(t, Registrations(dir, children));
            && (forall j | Get(t'.toPath, j) == Some(q) :: Get(t.toPath, j) == Some(q))
            && (Spares(t, children, q) ==> Get(t'.toIno, q) == Get(t.toIno, q))
  {
    if children == [] {
    } else {
      var init, c := children[..|children| - 1], children[|children| - 1];
      RegistrationsKeep(t, dir, init, q);
      if Visible(c) {
        var before, op := Replay(t, Registrations(dir, init)), Insert(c.stat.value.0, Join(dir, c.name));
        hide Inserted, Internal, Join, Replay;
        ReplaySnoc(t, Registrations(dir, init), op);
        JoinIsLonger(dir, c.name, q);
        InsertSpares(before, op.ino, op.path, q);
      } else {
        assert Registrations(dir, children) == Registrations(dir, init);
      }
    }
  }

  lemma JoinIsLonger(dir: Path, name: string, q: Path)
    requires name != "" && |q| <= |dir|
    ensures Join(dir, name) != q
  {
    assert |Join(dir, name)| > |dir|;
  }

  /** Different visible children have different names and different inode numbers. */
  ghost predicate Distinct(children: seq<Child>) {
    forall i, j | 0 <= i < j < |children| && Visible(children[i]) && Visible(children[j]) ::
      children[i].name != children[j].name && children[i].stat.value.0 != children[j].stat.value.0
  }

  lemma {:induction false} JoinInjective(dir: Path, a: string, b: string)
    requires Join(dir, a) == Join(dir, b)
    ensures a == b
  {
    if dir != "" {
      assert (dir + "/" + a)[|dir| + 1..] == a && (dir + "/" + b)[|dir| + 1..] == b;
    }
  }

  /** Every inode that leads to `p` is the one `p` is looked up as. */
  ghost predicate Sound(t: Inodes, p: Path) {
    forall j: nat | Get(t.toPath, j) == Some(p) :: Get(t.toIno, p) == Some(j)
  }

  lemma InsertKeepsSound(t: Inodes, ino: nat, path: Path, p: Path)
    requires Sound(t, p)
    ensures Sound(Inserted(t, ino, path), p)
  {
    hide Inserted;
    forall j: nat | Get(Inserted(t, ino, path).toPath, j) == Some(p) ensures Get(Inserted(t, ino, path).toIno, p) == Some(j) {
      InsertExact(t, ino, path, p, j);
      InsertExact(t, ino, path, p, ino);
    }
  }

  lemma {:induction false} RegistrationsKeepSound(t: Inodes, dir: Path, children: seq<Child>, p: Path)
    requires Sound(t, p) && PathsAgree(t)
    ensures Sound(Replay(t, Registrations(dir, children)), p) && PathsAgree(Replay(t, Registrations(dir, children)))
  {
    hide Inserted, Internal, Replay, Sound, PathsAgree;
    ReplayAgrees(t, Registrations(dir, children));
    if children == [] {
      ReplayNothing(t);
    } else {
      var init, c := children[..|children| - 1], children[|children| - 1];
      RegistrationsKeepSound(t, dir, init, p);
      if Visible(c) {
        ReplaySnoc(t, Registrations(dir, init), Insert(c.stat.value.0, Join(dir, c.name)));
        InsertKeepsSound(Replay(t, Registrations(dir, init)), c.stat.value.0, Join(dir, c.name), p);
      } else {
        assert Registrations(dir, children) == Registrations(dir, init);
      }
    }
  }

  lemma ReplayNothing(t: Inodes)
    ensures Replay(t, []) == t
  {
  }

  /** After a listing every shown child is registered: its path, the directory's with the name behind
      it, leads to its inode number and back. */
  lemma {:induction false} ListedAreRegistered(t: Inodes, dir: Path, children: seq<Child>, k: nat)
    requires Distinct(children) && k < |children| && Visible(children[k])
    requires PathsAgree(t) && Sound(t, if dir == "" then children[k].name else dir + "/" + children[k].name)
    ensures var t' := Replay(t, Registrations(dir, children));
            var (c, p) := (children[k], if dir == "" then children[k].name else dir + "/" + children[k].name);
            Get(t'.toIno, p) == Some(c.stat.value.0) && Get(t'.toPath, c.stat.value.0) == Some(p)
    decreases |children|
  {
    hide Inserted, Internal, Replay;
    var init, last := children[..|children| - 1], children[|children| - 1];
    var before := Replay(t, Registrations(dir, init));
    var c := children[k];
    RegistrationsKeepSound(t, dir, init, Join(dir, c.name));
    if Visible(last) {
      var op := Insert(last.stat.value.0, Join(dir, last.name));
      ReplaySnoc(t, Registrations(dir, init), op);
      InsertExact(before, op.ino, op.path, Join(dir, c.name), c.stat.value.0);
    } else {
      assert Registrations(dir, children) == Registrations(dir, init);
    }
    if k < |init| {
      ListedAreRegistered(t, dir, init, k);
      if Visible(last) && Join(dir, c.name) == Join(dir, last.name) { JoinInjective(dir, c.name, last.name); }
    }
  }

  /** Without that it may not be: when an inode leads to a child's path but is not what the path is
      looked up as, and a later child carries that inode, registering the later one forgets the path. */
  lemma StaleInodeHidesChild(t: Inodes, dir: Path, a: Child, b: Child)
    requires Visible(a) && Visible(b) && a.name != b.name && a.stat.value.0 != b.stat.value.0
    requires Get(t.toPath, b.stat.value.0) == Some(Join(dir, a.name))
    requires Get(t.toIno, Join(dir, a.name)) != Some(b.stat.value.0)
    ensures Get(Replay(t, Registrations(dir, [a, b])).toIno, Join(dir, a.name)) == None
  {
    hide Inserted, Internal, Join, Replay;
    var (x, y) := (Insert(a.stat.value.0, Join(dir, a.name)), Insert(b.stat.value.0, Join(dir, b.name)));
    var t1 := Inserted(t, x.ino, x.path);
    if Join(dir, a.name) == Join(dir, b.name) { JoinInjective(dir, a.name, b.name); }
    assert [a, b][..1] == [a] && [a][..0] == [];
    assert Registrations(dir, []) == [];
    assert Registrations(dir, [a]) == [x];
    assert Registrations(dir, [a, b]) == [x] + [y];
    ReplayNothing(t);
    ReplaySnoc(t, [], x);
    assert [] + [x] == [x];
    ReplaySnoc(t, [x], y);
    InsertExact(t, x.ino, x.path, x.path, y.ino);
    InsertExact(t1, y.ino, y.path, x.path, y.ino);
  }

  /** After a directory has been listed, `..` in each of its children leads back to it. */
  lemma ListedChildLeadsBack(t: Inodes, dir: Path, ino: nat, children: seq<Child>, c: Child)
    requires if dir == "" then ino == 1 else Get(t.toIno, dir) == Some(ino)
    requires RealNames(children) && Spares(t, children, dir)
    requires c in children && Visible(c) && c.stat.value.0 != 1
    ensures ParentIno(Replay(t, Registrations(dir, children)), c.stat.value.0, Join(dir, c.name)) == ino
  {
    ParentOfJoin(dir, c.name);
    if dir != "" { RegistrationsKeep(t, dir, children, dir); }
  }

  /** The inode table after the directory was listed `n` times. */
  ghost function Relisted(t: Inodes, dir: Path, children: seq<Child>, n: nat): Inodes {
    if n == 0 then t else Replay(Relisted(t, dir, children, n - 1), Registrations(dir, children))
  }

  lemma {:induction false} ParentIsShorter(p: Path)
    ensures |Parent(p)| <= |p|
  {
    if p == "" || p[|p| - 1] == '/' {
    } else {
      ParentIsShorter(p[..|p| - 1]);
    }
  }

  /** Each reply of a paged listing lists anew, and registers the children in between; as long as the
      children are the same and none has the directory's inode or the one its parent is reached by,
      every call works on the same list. */
  lemma {:induction false} ListingStays(t: Inodes, ino: nat, dir: Path, children: seq<Child>, n: nat)
    requires PathsAgree(t) && DirOf(t, ino) == Some(dir) && RealNames(children)
    requires Spares(t, children, dir) && Spares(t, children, Parent(dir))
    ensures var t' := Relisted(t, dir, children, n);
            && PathsAgree(t') && DirOf(t', ino) == Some(dir)
            && Spares(t', children, dir) && Spares(t', children, Parent(dir))
            && Listing(ino, ParentIno(t', ino, dir), children) == Listing(ino, ParentIno(t, ino, dir), children)
  {
    if n == 0 {
    } else {
      ListingStays(t, ino, dir, children, n - 1);
      var before := Relisted(t, dir, children, n - 1);
      ParentIsShorter(dir);
      RegistrationsKeep(before, dir, children, dir);
      RegistrationsKeep(before, dir, children, Parent(dir));
      RegistrationsKeepDir(before, dir, ino, children);
    }
  }

  lemma {:induction false} RegistrationsKeepDir(t: Inodes, dir: Path, ino: nat, children: seq<Child>)
    requires PathsAgree(t) && RealNames(children)
    requires Get(t.toPath, ino) == Some(dir) ==> Spares(t, children, dir)
    ensures PathsAgree(Replay(t, Registrations(dir, children)))
    ensures Get(t.toPath, ino) == Some(dir) ==> Get(Replay(t, Registrations(dir, children)).toPath, ino) == Some(dir)
  {
    if children == [] {
    } else {
      var init, c := children[..|children| - 1], children[|children| - 1];
      RegistrationsKeepDir(t, dir, ino, init);
      if Visible(c) {
        var before, op := Replay(t, Registrations(dir, init)), Insert(c.stat.value.0, Join(dir, c.name));
        hide Inserted, Internal, Join, Replay;
        ReplaySnoc(t, Registrations(dir, init), op);
        PathsAgreeStep(before, op);
        JoinIsLonger(dir, c.name, dir);
        InsertExact(before, op.ino, op.path, dir, ino);
      } else {
        assert Registrations(dir, children) == Registrations(dir, init);
      }
    }
  }

  lemma OneMoreChild(t: Inodes, dir: Path, items: seq<Child>, k: nat)
    requires k < |items|
    ensures if Visible(items[k])
            then var (ino, kind) := items[k].stat.value;
                 && Shown(items[..k + 1]) == Shown(items[..k]) + [Entry(ino, kind, items[k].name)]
                 && Replay(t, Registrations(dir, items[..k + 1]))
                    == Inserted(Replay(t, Registrations(dir, items[..k])), ino, Join(dir, items[k].name))
            else Shown(items[..k + 1]) == Shown(items[..k]) && Registrations(dir, items[..k + 1]) == Registrations(dir, items[..k])
  {
    hide Inserted, Internal, Join, Replay;
    assert items[..k + 1][..k] == items[..k];
    if Visible(items[k]) {
      ReplaySnoc(t, Registrations(dir, items[..k]), Insert(items[k].stat.value.0, Join(dir, items[k].name)));
    }
  }

  method ParentOf(ino: nat, dir: Path, inodes: InodeTable) returns (parentIno: nat)
    ensures parentIno == ParentIno(inodes.View(), ino, dir)
  {
    if ino == 1 || Parent(dir) == "" { return 1; }
    var found := inodes.GetIno(Parent(dir));
    return if found.Some? then found.value else 1;
  }

  /** The loop over the children: each readable one is registered and shown. */
  method AddChildren(head: seq<Entry>, dir: Path, items: seq<Child>, inodes: InodeTable) returns (shown: seq<Entry>)
    modifies inodes
    ensures shown == head + Shown(items)
    ensures inodes.View() == Replay(old(inodes.View()), Registrations(dir, items))
  {
    shown := head;
    ghost var t := inodes.View();
    NothingYet(t, dir, items);
    hide Shown, Registrations, Join, Replay, Inserted, Internal;
    for k := 0 to |items|
      invariant shown == head + Shown(items[..k])
      invariant inodes.View() == Replay(t, Registrations(dir, items[..k]))
    {
      var c := items[k];
      OneMoreChild(t, dir, items, k);
      if Visible(c) {
        inodes.Insert(c.stat.value.0, Join(dir, c.name));
        shown := shown + [Entry(c.stat.value.0, c.stat.value.1, c.name)];
      }
    }
    assert items[..|items|] == items;
  }

  lemma NothingYet(t: Inodes, dir: Path, items: seq<Child>)
    ensures Shown(items[..0]) == [] && Replay(t, Registrations(dir, items[..0])) == t
  {
  }

  /** `children` is what read_dir yields for the directory, None when it fails; the answer is None
      for that and for an unknown inode. */
  method ListEntries(ino: nat, children: Option<seq<Child>>, inodes: InodeTable) returns (all: Option<seq<Entry>>)
    modifies inodes
    ensures var t := old(inodes.View());
            var dir := if ino == 1 then Some("") else Get(t.toPath, ino);
            if dir.None? || children.None? then all == None && inodes.View() == t
            else && all == Some(Listing(ino, ParentIno(t, ino, dir.value), children.value))
                 && inodes.View() == Replay(t, Registrations(dir.value, children.value))
  {
    hide ParentIno, Shown, Registrations, Replay;
    var dir := if ino == 1 then Some("") else inodes.GetPath(ino);
    if dir.None? || children.None? { return None; }
    var parentIno := ParentOf(ino, dir.value, inodes);
    var head := [Entry(ino, IsDir, "."), Entry(parentIno, IsDir, "..")];
    if ino == 1 {
      head := head + [Entry(SYNTHETIC_INODE_BASE, IsDir, DIBS_DIR_NAME)];
    }
    assert head == Heading(ino, parentIno);
    var shown := AddChildren(head, dir.value, children.value, inodes);
    return Some(shown);
  }

  // ---------------------------------------------------------------- paging

  /** How many entries from `from` on fit into a buffer with `room` left. */
  function Fits(all: seq<Entry>, from: nat, room: nat, size: Entry -> nat): (n: nat)
    ensures from <= |all| ==> from + n <= |all|
    ensures from > |all| ==> n == 0
    decreases |all| - from
  {
    if from < |all| && size(all[from]) <= room
    then 1 + Fits(all, from + 1, room - size(all[from]), size)
    else 0
  }

  function Sizes(entries: seq<Entry>, size: Entry -> nat): nat {
    if entries == [] then 0 else size(entries[0]) + Sizes(entries[1..], size)
  }

  /** What fits is as much as fits: the entries' sizes stay within the room, and one more would not. */
  lemma {:induction false} FitsExactly(all: seq<Entry>, from: nat, room: nat, size: Entry -> nat)
    requires from <= |all|
    ensures var n := Fits(all, from, room, size);
            && Sizes(all[from..from + n], size) <= room
            && (from + n < |all| ==> Sizes(all[from..from + n], size) + size(all[from + n]) > room)
    decreases |all| - from
  {
    var n := Fits(all, from, room, size);
    if from < |all| && size(all[from]) <= room {
      FitsExactly(all, from + 1, room - size(all[from]), size);
      assert all[from..from + n][1..] == all[from + 1..from + n];
    } else {
      assert all[from..from + n] == [];
    }
  }

  /** One reply: the entries that fit, each with the cookie of the next one. */
  function Page(all: seq<Entry>, offset: nat, room: nat, size: Entry -> nat): seq<(Entry, nat)> {
    seq(Fits(all, offset, room, size), k requires 0 <= k < Fits(all, offset, room, size) => (all[offset + k], offset + k + 1))
  }

  method ReadDir(all: seq<Entry>, offset: nat, room: nat, size: Entry -> nat) returns (page: seq<(Entry, nat)>)
    ensures page == Page(all, offset, room, size)
    ensures offset <= |all| ==>
              && offset + |page| <= |all|
              && Entries(page) == all[offset..offset + |page|]
              && Sizes(Entries(page), size) <= room
              && (offset + |page| < |all| ==> Sizes(Entries(page), size) + size(all[offset + |page|]) > room)
    ensures forall k | 0 <= k < |page| :: page[k].1 == offset + k + 1
  {
    page := [];
    var i := offset;
    var left: nat := room;
    while i < |all|
      invariant offset <= i && left <= room
      invariant |page| == i - offset && (i > offset ==> i <= |all|)
      invariant forall k | 0 <= k < |page| :: page[k] == (all[offset + k], offset + k + 1)
      invariant Fits(all, offset, room, size) == |page| + Fits(all, i, left, size)
    {
      if size(all[i]) > left { break; }
      page := page + [(all[i], i + 1)];
      left := left - size(all[i]);
      i := i + 1;
    }
    if offset <= |all| {
      PageIsSlice(all, offset, room, size);
      FitsExactly(all, offset, room, size);
    }
  }

  function Entries(page: seq<(Entry, nat)>): seq<Entry> {
    seq(|page|, n requires 0 <= n < |page| => page[n].0)
  }

  /** A page is a slice of the list, its last cookie points behind it, and it is empty only at the end. */
  lemma PageIsSlice(all: seq<Entry>, offset: nat, room: nat, size: Entry -> nat)
    requires offset <= |all|
    ensures offset + |Page(all, offset, room, size)| <= |all|
    ensures Entries(Page(all, offset, room, size)) == all[offset..offset + |Page(all, offset, room, size)|]
    ensures forall k | 0 <= k < |Page(all, offset, room, size)| :: Page(all, offset, room, size)[k].1 == offset + k + 1
    ensures |Page(all, offset, room, size)| == Fits(all, offset, room, size)
    ensures Page(all, offset, room, size) != [] <==> offset < |all| && size(all[offset]) <= room
  {
  }

  /** What a caller collects by asking again with the last cookie until a page comes back empty;
      `rooms(k)` is the buffer of its k-th call. */
  ghost function Collect(all: seq<Entry>, offset: nat, rooms: nat -> nat, k: nat, size: Entry -> nat): seq<Entry>
    decreases |all| - offset
  {
    var page := Page(all, offset, rooms(k), size);
    if page == [] then [] else Entries(page) + Collect(all, page[|page| - 1].1, rooms, k + 1, size)
  }

  /** Every call of the caller, from its `k`-th on, has room for the entry its cookie points at. */
  ghost predicate RoomForNext(all: seq<Entry>, offset: nat, rooms: nat -> nat, k: nat, size: Entry -> nat)
    decreases |all| - offset
  {
    offset < |all| ==>
      && size(all[offset]) <= rooms(k)
      && RoomForNext(all, offset + Fits(all, offset, rooms(k), size), rooms, k + 1, size)
  }

  /** Paging is complete: the caller gets the whole list from its offset, in order, each entry once,
      exactly when each of its buffers has room for the entry it is asked to continue with. */
  lemma {:induction false} PagingComplete(all: seq<Entry>, offset: nat, rooms: nat -> nat, k: nat, size: Entry -> nat)
    requires offset <= |all|
    ensures Collect(all, offset, rooms, k, size) <= all[offset..]
    ensures Collect(all, offset, rooms, k, size) == all[offset..] <==> RoomForNext(all, offset, rooms, k, size)
    decreases |all| - offset
  {
    hide Entries, Page, Fits;
    PageIsSlice(all, offset, rooms(k), size);
    var page := Page(all, offset, rooms(k), size);
    if page == [] {
    } else {
      var next := offset + |page|;
      PagingComplete(all, next, rooms, k + 1, size);
      SliceAndRest(all, offset, next, Collect(all, next, rooms, k + 1, size));
    }
  }

  lemma SliceAndRest(all: seq<Entry>, offset: nat, next: nat, rest: seq<Entry>)
    requires offset <= next <= |all| && rest <= all[next..]
    ensures all[offset..next] + rest <= all[offset..]
    ensures all[offset..next] + rest == all[offset..] <==> rest == all[next..]
  {
    assert all[offset..next] + all[next..] == all[offset..];
    assert (all[offset..next] + rest)[next - offset..] == rest;
  }
}
