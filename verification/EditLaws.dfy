/**
  What edits leave behind, entry by entry and byte by byte.
 */
module EditLaws {
  import opened Layers
  import opened OverlayLaws
  import Plain = PlainTree

  // Bytes written at an offset: those before and after stay, and a gap before it is zeros.
  ghost predicate BytesWritten(was: seq<Byte>, now: seq<Byte>, offset: nat, bytes: seq<Byte>) {
    if bytes == [] then now == was
    else
      && |now| == (if offset + |bytes| > |was| then offset + |bytes| else |was|)
      && forall i | 0 <= i < |now| ::
           now[i] == if offset <= i < offset + |bytes| then bytes[i - offset] else if i < |was| then was[i] else 0
  }

  // Cut off or extended by zeros.
  ghost predicate BytesResized(was: seq<Byte>, now: seq<Byte>, size: nat) {
    |now| == size && forall i | 0 <= i < size :: now[i] == if i < |was| then was[i] else 0
  }

  // An edit changes one aspect of a file, or the mode of a directory, and nothing of a symlink.
  ghost predicate NodeEdited(was: Node, now: Node, e: Plain.Edit) {
    match e
    case SetMode(m) =>
      && (was.Dir? ==> now == Dir(m)) && (was.File? ==> now == File(m, was.data)) && (was.Link? ==> now == was)
    case SetTimes => now == was
    case Resize(size) =>
      if was.File? then now.File? && now.mode == was.mode && BytesResized(was.data, now.data, size)
      else was.Link? && now == was
    case WriteAt(offset, bytes) =>
      if was.File? then now.File? && now.mode == was.mode && BytesWritten(was.data, now.data, offset, bytes)
      else was.Link? && now == was
  }

  // mkdir has made the directory anew, which keeps its permission bits under the umask and the sticky bit.
  ghost predicate MadeByMkdir(was: Node, now: Node, umask: Mode) {
    was.Dir? && now.Dir? && now.mode == (was.mode & 0x3FF) & !umask
  }

  // No path comes or goes.  The entry at the path is edited, and elsewhere only directories on the way to
  // it and inside it change, which are made anew.
  ghost predicate TreeEdited(v: Tree, v': Tree, path: Path, e: Plain.Edit, umask: Mode) {
    && path in v && v'.Keys == v.Keys
    && (NodeEdited(v[path], v'[path], e) || (e.SetTimes? && MadeByMkdir(v[path], v'[path], umask)))
    && forall q {:trigger v'[q]} | q in v && q != path ::
         v'[q] == v[q] || ((Under(path, q) || Under(q, path)) && MadeByMkdir(v[q], v'[q], umask))
  }

  // One entry more; elsewhere only directories on the way to it change, which are made anew.
  ghost predicate TreeExtended(v: Tree, v': Tree, path: Path, n: Node, umask: Mode) {
    && path !in v && v'.Keys == v.Keys + {path} && v'[path] == n
    && forall q {:trigger v'[q]} | q in v :: v'[q] == v[q] || (Under(path, q) && MadeByMkdir(v[q], v'[q], umask))
  }

  // How an edit of an entry ends: one of a symlink as it ends where the link leads, and the
  // contents of a directory cannot be edited.
  function EditErrno(n: Node, e: Plain.Edit, through: Option<Errno>): Option<Errno> {
    if n.Link? then through
    else if n.Dir? && (e.Resize? || e.WriteAt?) then Some(EISDIR)
    else None
  }

  lemma OverwrittenBytes(was: seq<Byte>, offset: nat, bytes: seq<Byte>)
    ensures BytesWritten(was, Plain.Overwritten(was, offset, bytes), offset, bytes)
  {
  }

  lemma ResizedBytes(was: seq<Byte>, size: nat)
    ensures BytesResized(was, Plain.Resized(was, size), size)
  {
  }

  lemma EditedNode(n: Node, e: Plain.Edit, through: Option<Errno>)
    ensures Plain.EditNode(n, e, through).0 == EditErrno(n, e, through)
    ensures EditErrno(n, e, through).None? ==> NodeEdited(n, Plain.EditNode(n, e, through).1, e)
  {
    hide Plain.Overwritten, Plain.Resized, BytesWritten, BytesResized;
    if n.File? && e.WriteAt? { OverwrittenBytes(n.data, e.offset, e.bytes); }
    if n.File? && e.Resize? { ResizedBytes(n.data, e.size); }
  }

  /** The reference's edits, with directories made anew on the way and inside, are such edits. */
  lemma EditShows(v: Tree, path: Path, e: Plain.Edit, through: Option<Errno>, ds: set<Path>, umask: Mode)
    requires path in v
    requires forall d | d in ds :: Under(path, d) || AtOrUnder(d, path)
    requires path in ds ==> e.SetTimes?
    ensures Plain.EditAt(v, path, e, through).Failed? <==> EditErrno(v[path], e, through).Some?
    ensures EditErrno(v[path], e, through).Some? ==>
      Plain.EditAt(v, path, e, through) == Plain.Failed(EditErrno(v[path], e, through).value)
    ensures EditErrno(v[path], e, through).None? ==>
      TreeEdited(v, Remade(Plain.EditAt(v, path, e, through).tree, ds, umask), path, e, umask)
  {
    hide Plain.EditNode, EditErrno, NodeEdited;
    EditedNode(v[path], e, through);
    if EditErrno(v[path], e, through).None? { EditShown(v, path, e, Plain.EditNode(v[path], e, through).1, ds, umask); }
  }

  lemma EditShown(v: Tree, path: Path, e: Plain.Edit, n: Node, ds: set<Path>, umask: Mode)
    requires path in v && NodeEdited(v[path], n, e)
    requires forall d | d in ds :: Under(path, d) || AtOrUnder(d, path)
    requires path in ds ==> e.SetTimes?
    ensures TreeEdited(v, Remade(v[path := n], ds, umask), path, e, umask)
  {
    hide BytesWritten, BytesResized;
    forall m: Mode ensures MaskedDir(m, umask) == (m & 0x3FF) & !umask { AnyOrder(m, umask); }
  }

  /** The reference's creation, with directories on the way made anew, adds just that entry. */
  lemma CreateShows(v: Tree, path: Path, n: Node, ds: set<Path>, umask: Mode)
    requires Plain.Create(v, path, n).Done? && OnTheWay(ds, path)
    ensures TreeExtended(v, Remade(Plain.Create(v, path, n).tree, ds, umask), path, n, umask)
  {
    forall m: Mode ensures MaskedDir(m, umask) == (m & 0x3FF) & !umask { AnyOrder(m, umask); }
  }

  lemma AnyOrder(m: Mode, umask: Mode)
    ensures m & !umask & 0x3FF == (m & 0x3FF) & !umask
  {
  }
}
