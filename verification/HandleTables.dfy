/** src/fs/handles.rs: the table of open file handles. */
module HandleTables {
  import opened Types

  /** `fd` is the file behind the descriptor; the virtual `.dibs` files have none. */
  datatype HandleState = HandleState(
    path: Path,
    fd: Option<FileId>,
    hashAtOpen: Option<Digest>,
    mode: Mode,
    hasWritten: bool,
    sid: Sid)

  datatype Handles = Handles(live: map<Fh, HandleState>, nextFh: Fh)

  const NO_HANDLES := Handles(map[], 1)

  function WithHandle(t: Handles, h: HandleState): Handles {
    Handles(t.live[t.nextFh := h], t.nextFh + 1)
  }

  function WithState(t: Handles, fh: Fh, h: HandleState): Handles {
    t.(live := t.live[fh := h])
  }

  function WithoutHandle(t: Handles, fh: Fh): Handles {
    t.(live := t.live - {fh})
  }

  class HandleTable {
    var handles: map<Fh, HandleState>
    var nextFh: Fh

    function View(): Handles
      reads this
    {
      Handles(handles, nextFh)
    }

    constructor ()
      ensures View() == NO_HANDLES
    {
      handles, nextFh := map[], 1;
    }

    method Alloc(fd: Option<FileId>, path: Path, mode: Mode, hash: Option<Digest>, sid: Sid) returns (fh: Fh)
      modifies this
      ensures fh == old(nextFh)
      ensures View() == WithHandle(old(View()), HandleState(path, fd, hash, mode, false, sid))
    {
      fh := nextFh;
      nextFh := nextFh + 1;
      handles := handles[fh := HandleState(path, fd, hash, mode, false, sid)];
    }

    function Lookup(fh: Fh): (h: Option<HandleState>)
      reads this
      ensures h == Get(View().live, fh)
    {
      if fh in handles then Some(handles[fh]) else None
    }

    method MarkWritten(fh: Fh)
      modifies this
      ensures View() == if fh in old(handles)
                        then WithState(old(View()), fh, old(handles)[fh].(hasWritten := true))
                        else old(View())
    {
      if fh in handles {
        handles := handles[fh := handles[fh].(hasWritten := true)];
      }
    }

    method MarkFlushed(fh: Fh, hash: Digest)
      modifies this
      ensures View() == if fh in old(handles)
                        then WithState(old(View()), fh, old(handles)[fh].(hashAtOpen := Some(hash), hasWritten := false))
                        else old(View())
    {
      if fh in handles {
        handles := handles[fh := handles[fh].(hashAtOpen := Some(hash), hasWritten := false)];
      }
    }

    method Remove(fh: Fh) returns (gone: Option<HandleState>)
      modifies this
      ensures gone == Get(old(handles), fh)
      ensures View() == WithoutHandle(old(View()), fh)
    {
      gone := Get(handles, fh);
      handles := handles - {fh};
    }

    method Count() returns (n: nat)
      ensures n == |View().live|
    {
      n := |handles|;
    }
  }
}
