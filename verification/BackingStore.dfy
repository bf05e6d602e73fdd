/** The backing directory: names point at files, open descriptors point at files
    directly, so a descriptor survives the renaming and unlinking of its name. */
module BackingStore {
  import opened Types

  datatype Store = Store(names: map<Path, FileId>, files: map<FileId, Bytes>, nextId: FileId)

  ghost predicate StoreOk(fs: Store) {
    && (forall p | p in fs.names :: fs.names[p] in fs.files)
    && (forall id | id in fs.files :: id < fs.nextId)
  }

  /** `p` is the only name of its file. The mount refuses to make hard links, but the backing
      directory may come with some. */
  ghost predicate NamedOnce(fs: Store, p: Path) {
    p in fs.names ==> forall q | q in fs.names && fs.names[q] == fs.names[p] :: q == p
  }

  predicate Exists(fs: Store, p: Path) {
    p in fs.names && fs.names[p] in fs.files
  }

  function Content(fs: Store, p: Path): Option<Bytes> {
    if Exists(fs, p) then Some(fs.files[fs.names[p]]) else None
  }

  /** The file resized by truncate: cut, or extended with zero bytes. */
  function Resize(c: Bytes, size: nat): (r: Bytes)
    ensures |r| == size
  {
    if size <= |c| then c[..size] else c + seq(size - |c|, _ => 0 as byte)
  }

  /** The file after pwrite of `data` at `offset`; a hole reads as zero bytes. */
  function Patch(c: Bytes, offset: nat, data: Bytes): Bytes {
    if data == [] then c
    else
      var head := Resize(c, offset);
      head + data + (if offset + |data| < |c| then c[offset + |data|..] else [])
  }

  /** Byte by byte: the written range reads back, the rest is untouched, a hole is zero. */
  lemma PatchReadsBack(c: Bytes, offset: nat, data: Bytes, k: nat)
    requires data != []
    ensures |Patch(c, offset, data)| == if offset + |data| < |c| then |c| else offset + |data|
    ensures k < |Patch(c, offset, data)| ==>
              Patch(c, offset, data)[k] ==
              if offset <= k < offset + |data| then data[k - offset]
              else if k < |c| then c[k]
              else 0
  {
  }

  /** open(2): creates a missing file, truncates on request, yields the descriptor's file. */
  function OpenFile(fs: Store, p: Path, trunc: bool): (r: (Store, FileId))
    ensures Exists(r.0, p) && r.0.names[p] == r.1
  {
    if !Exists(fs, p) then
      (Store(fs.names[p := fs.nextId], fs.files[fs.nextId := []], fs.nextId + 1), fs.nextId)
    else
      var id := fs.names[p];
      (if trunc then fs.(files := fs.files[id := []]) else fs, id)
  }

  function PatchFile(fs: Store, id: FileId, offset: nat, data: Bytes): Store {
    if id in fs.files then fs.(files := fs.files[id := Patch(fs.files[id], offset, data)]) else fs
  }

  function SetContent(fs: Store, id: FileId, c: Bytes): Store {
    if id in fs.files then fs.(files := fs.files[id := c]) else fs
  }

  function RemoveName(fs: Store, p: Path): Store {
    fs.(names := fs.names - {p})
  }

  function MoveName(fs: Store, src: Path, dst: Path): Store
    requires src in fs.names
  {
    if src == dst then fs else fs.(names := (fs.names - {src})[dst := fs.names[src]])
  }

  /** Files are never lost, only their names are. */
  ghost predicate Extends(fs: Store, after: Store) {
    StoreOk(after) && fs.files.Keys <= after.files.Keys
  }

  lemma OpenKeepsStore(fs: Store, p: Path, trunc: bool)
    requires StoreOk(fs)
    ensures Extends(fs, OpenFile(fs, p, trunc).0)
  {
  }

  lemma PatchKeepsStore(fs: Store, id: FileId, offset: nat, data: Bytes)
    requires StoreOk(fs)
    ensures Extends(fs, PatchFile(fs, id, offset, data))
  {
  }

  lemma SetKeepsStore(fs: Store, id: FileId, c: Bytes)
    requires StoreOk(fs)
    ensures Extends(fs, SetContent(fs, id, c))
  {
  }

  lemma NamesKeepStore(fs: Store, src: Path, dst: Path)
    requires StoreOk(fs)
    ensures Extends(fs, RemoveName(fs, src))
    ensures src in fs.names ==> Extends(fs, MoveName(fs, src, dst))
  {
  }
}
