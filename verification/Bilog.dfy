/**
 The bidirectional log: one record of a call serves to do the call again and to undo it. A record holds
 the exclusive or of what was and what is to be, or what is needed to make a node that is missing.
 */
module Bilog {
  import opened Wrappers
  import opened XorBuffers
  import opened Checksums
  import opened FileTree

  /** The checksums of a mode and of an owner. */
  datatype Digest = Digest(mode: bv32 -> bv32, owner: (bv32, bv32) -> bv32)

  function ModeChecksum(mode: bv32): bv32 {
    Crc32(WordBytes(mode))
  }

  function OwnerChecksum(uid: bv32, gid: bv32): bv32 {
    Crc32(WordBytes(uid) + WordBytes(gid))
  }

  /** The checksums that the source uses. */
  function Crc32Digest(): Digest {
    Digest(mode => ModeChecksum(mode), (uid, gid) => OwnerChecksum(uid, gid))
  }

  datatype Entry =
    | ChmodEntry(path: Path, mode: bv32, checksum: bv32)
    | ChownEntry(path: Path, uid: bv32, gid: bv32, checksum: bv32)
    | DirEntry(path: Path, mode: bv32, uid: bv32, gid: bv32)
    | SymlinkEntry(target: string, path: Path, uid: bv32, gid: bv32)
    | NodeEntry(path: Path, mode: bv32, rdev: bv64, uid: bv32, gid: bv32)
    | FileEntry(path: Path, mode: bv32, uid: bv32, gid: bv32)

  // ---------------------------------------------------------------- recording

  /** The record of a call that is about to run; `None` when the state cannot be read, or when the record
      is of a kind that is not modelled. */
  function Record(d: Digest, t: Tree, call: Call): Option<Entry> {
    match call
    case Chmod(p, mode) =>
      if p in t then Some(ChmodEntry(p, Xor(mode, t[p].mode), Xor(d.mode(mode), d.mode(t[p].mode)))) else None
    case Chown(p, uid, gid) =>
      if p in t then
        Some(ChownEntry(p, Xor(uid, t[p].uid), Xor(gid, t[p].gid), Xor(d.owner(uid, gid), d.owner(t[p].uid, t[p].gid))))
      else None
    case Mkdir(p, mode, uid, gid) => Some(DirEntry(p, mode, uid, gid))
    case Rmdir(p) =>
      if p in t then Some(DirEntry(p, Xor(t[p].mode, 0), Xor(t[p].uid, 0), Xor(t[p].gid, 0)))
      else Some(DirEntry(p, 0, 0, 0))
    case Mknod(p, mode, rdev, uid, gid) => Some(NodeEntry(p, mode, rdev, uid, gid))
    case Create(p, mode, _, uid, gid) => Some(FileEntry(p, mode, uid, gid))
    case Symlink(target, p, uid, gid) => Some(SymlinkEntry(target, p, uid, gid))
    case Unlink(p) =>
      if p !in t then None
      else
        var n := t[p];
        match n.content
        case SymbolicLink(target) => Some(SymlinkEntry(target, p, Xor(n.uid, 0), Xor(n.gid, 0)))
        case Regular(data, links) =>
          // a file with several links or with data has a record of another kind
          if links > 1 || data != [] then None else Some(FileEntry(p, Xor(0, n.mode), Xor(n.uid, 0), Xor(n.gid, 0)))
        case Special(rdev) => Some(NodeEntry(p, Xor(0, n.mode), rdev, Xor(n.uid, 0), Xor(n.gid, 0)))
        case Directory => None
  }

  // ---------------------------------------------------------------- replaying

  /** The call that a record stands for in the present state; `None` when the checksum does not match or
      the state cannot be read. */
  function Revive(d: Digest, t: Tree, e: Entry): Option<Call> {
    match e
    case ChmodEntry(p, mode, checksum) =>
      if p in t && Xor(d.mode(Xor(mode, t[p].mode)), d.mode(t[p].mode)) == checksum then
        Some(Chmod(p, Xor(mode, t[p].mode)))
      else None
    case ChownEntry(p, uid, gid, checksum) =>
      if p !in t then None
      else
        var n := t[p];
        if Xor(d.owner(Xor(uid, n.uid), Xor(gid, n.gid)), d.owner(n.uid, n.gid)) != checksum then None
        else Some(Chown(p, Xor(uid, n.uid), Xor(gid, n.gid)))
    case DirEntry(p, mode, uid, gid) => Some(if p in t then Rmdir(p) else Mkdir(p, mode, uid, gid))
    case SymlinkEntry(target, p, uid, gid) =>
      if p !in t then Some(Symlink(target, p, uid, gid))
      else if t[p].content.SymbolicLink? then Some(Unlink(p))
      else None
    case NodeEntry(p, mode, rdev, uid, gid) => Some(if p in t then Unlink(p) else Mknod(p, mode, rdev, uid, gid))
    case FileEntry(p, mode, uid, gid) => Some(if p in t then Unlink(p) else Create(p, mode, false, uid, gid))
  }

  function ReplayOne(d: Digest, t: Tree, e: Entry): Option<Tree> {
    match Revive(d, t, e)
    case None => None
    case Some(call) => Dispatch(t, call)
  }

  function ReplayAll(d: Digest, t: Tree, es: seq<Entry>): Option<Tree>
    decreases |es|
  {
    if es == [] then Some(t)
    else match ReplayOne(d, t, es[0])
      case None => None
      case Some(next) => ReplayAll(d, next, es[1..])
  }

  function Reversed(es: seq<Entry>): seq<Entry> {
    if es == [] then [] else [es[|es| - 1]] + Reversed(es[..|es| - 1])
  }

  // ---------------------------------------------------------------- one record

  /** The checksum of an undone change of mode agrees with the one recorded. */
  predicate ChmodGuard(d: Digest, was: bv32, mode: bv32) {
    var changed := Joined(was, mode);
    Xor(d.mode(Xor(Xor(mode, was), changed)), d.mode(changed)) == Xor(d.mode(mode), d.mode(was))
  }

  predicate ChownGuard(d: Digest, n: Node, uid: bv32, gid: bv32) {
    var c := ChownNode(n, uid, gid);
    Xor(d.owner(Xor(Xor(uid, n.uid), c.uid), Xor(Xor(gid, n.gid), c.gid)), d.owner(c.uid, c.gid))
      == Xor(d.owner(uid, gid), d.owner(n.uid, n.gid))
  }

  /** What a caller can see before a call: it can be undone. */
  predicate Reversible(d: Digest, t: Tree, call: Call) {
    match call
    case Chmod(p, mode) => p in t ==> ChmodGuard(d, t[p].mode, mode)
    case Chown(p, uid, gid) => p in t ==> ChownGuard(d, t[p], uid, gid)
    // `mkdir` does not restore set-id bits
    case Rmdir(p) => p in t ==> Permissions(t[p].mode) == DirPermissions(t[p].mode)
    // the record of an open is that of a creation
    case Create(p, _, _, _, _) => p !in t
    case _ => true
  }

  lemma RedoChmod(d: Digest, t: Tree, p: Path, mode: bv32)
    requires Dispatch(t, Chmod(p, mode)).Some?
    ensures ReplayOne(d, t, Record(d, t, Chmod(p, mode)).value) == Dispatch(t, Chmod(p, mode))
  {
    hide Xor;
    XorTwice(mode, t[p].mode);
    XorTwice(d.mode(mode), d.mode(t[p].mode));
  }

  lemma RedoChown(d: Digest, t: Tree, p: Path, uid: bv32, gid: bv32)
    requires Dispatch(t, Chown(p, uid, gid)).Some?
    ensures ReplayOne(d, t, Record(d, t, Chown(p, uid, gid)).value) == Dispatch(t, Chown(p, uid, gid))
  {
    hide Xor;
    XorTwice(uid, t[p].uid);
    XorTwice(gid, t[p].gid);
    XorTwice(d.owner(uid, gid), d.owner(t[p].uid, t[p].gid));
  }

  /** A record of a call that makes or removes a node. */
  lemma RedoEntry(d: Digest, t: Tree, call: Call)
    requires TreeOk(t) && Dispatch(t, call).Some? && Record(d, t, call).Some? && (call.Create? ==> call.path !in t)
    requires !call.Chmod? && !call.Chown?
    ensures ReplayOne(d, t, Record(d, t, call).value) == Dispatch(t, call)
  {
    hide Xor, NodeOk, Joined, ChownNode, MadeNode, Childless;
  }

  /** Opening a file that was there is recorded as its creation: doing it again deletes the file. */
  lemma RedoDeletesFile(d: Digest, t: Tree, call: Call)
    requires call.Create? && call.path in t && Dispatch(t, call).Some?
    ensures ReplayOne(d, t, Record(d, t, call).value) == Some(t - {call.path})
    ensures call.path in Dispatch(t, call).value && call.path !in t - {call.path}
  {
  }

  /** In the state in which it was recorded a record does the call again, unless the call opened a file that was
      there. */
  lemma Redo(d: Digest, t: Tree, call: Call)
    requires TreeOk(t) && Dispatch(t, call).Some? && Record(d, t, call).Some?
    ensures ReplayOne(d, t, Record(d, t, call).value) == Dispatch(t, call) <==> !(call.Create? && call.path in t)
  {
    hide ReplayOne, Record, Dispatch;
    match call
    case Chmod(p, mode) => RedoChmod(d, t, p, mode);
    case Chown(p, uid, gid) => RedoChown(d, t, p, uid, gid);
    case _ => if call.Create? && call.path in t { RedoDeletesFile(d, t, call); } else { RedoEntry(d, t, call); }
  }

  /** The permissions come back, whatever the type bits of the recorded mode were. */
  lemma ModeRestored(was: bv32, mode: bv32)
    requires was == Joined(was, was)
    ensures var changed := Joined(was, mode); Joined(changed, Xor(Xor(mode, was), changed)) == was
  {
  }

  /** A change of mode is undone exactly, or refused, and it is refused exactly when the checksums differ. */
  lemma UndoChmod(d: Digest, t: Tree, p: Path, mode: bv32)
    requires TreeOk(t) && p in t && !t[p].content.SymbolicLink?
    ensures var e := Record(d, t, Chmod(p, mode)).value;
      ReplayOne(d, Dispatch(t, Chmod(p, mode)).value, e) == if ChmodGuard(d, t[p].mode, mode) then Some(t) else None
  {
    var was := t[p].mode;
    assert NodeOk(t[p]);
    ModeRestored(was, mode);
    hide Xor, Joined, NodeOk;
    var t' := Dispatch(t, Chmod(p, mode)).value;
    assert t'[p := t[p]] == t;
  }

  lemma OwnerRestored(was: bv32, id: bv32)
    requires was != NO_ID
    ensures var changed := Owner(was, id); Owner(changed, Xor(Xor(id, was), changed)) == was
  {
    hide Xor;
    XorTwice(id, was);
    XorTwice(was, id);
  }

  /** The record of a change of owner, on a tree in which the file has become `c`. */
  lemma ReplayChown(d: Digest, t: Tree, p: Path, uid: bv32, gid: bv32, checksum: bv32)
    requires p in t && !t[p].content.SymbolicLink?
    ensures var c := t[p];
      var next := ChownNode(c, Xor(uid, c.uid), Xor(gid, c.gid));
      ReplayOne(d, t, ChownEntry(p, uid, gid, checksum)) ==
        if Xor(d.owner(Xor(uid, c.uid), Xor(gid, c.gid)), d.owner(c.uid, c.gid)) == checksum then Some(t[p := next])
        else None
  {
    hide Xor, ChownNode;
  }

  /** A change of owner is undone exactly, or refused, and it is refused exactly when the checksums differ. */
  lemma UndoChown(d: Digest, t: Tree, p: Path, uid: bv32, gid: bv32)
    requires TreeOk(t) && p in t && !t[p].content.SymbolicLink?
    ensures var e := Record(d, t, Chown(p, uid, gid)).value;
      ReplayOne(d, Dispatch(t, Chown(p, uid, gid)).value, e) == if ChownGuard(d, t[p], uid, gid) then Some(t) else None
  {
    var n, t' := t[p], Dispatch(t, Chown(p, uid, gid)).value;
    assert NodeOk(n);
    hide TreeOk, NodeOk, Xor, Owner, ReplayOne;
    OwnerRestored(n.uid, uid);
    OwnerRestored(n.gid, gid);
    ReplayChown(d, t', p, Xor(uid, n.uid), Xor(gid, n.gid), Xor(d.owner(uid, gid), d.owner(n.uid, n.gid)));
    assert t'[p := n] == t;
  }

  // ---------------------------------------------------------------- the checksum of the source

  lemma ModeAffine(a: bv32, b: bv32, c: bv32)
    ensures ModeChecksum(Xor(Xor(a, b), c)) == Xor(Xor(ModeChecksum(a), ModeChecksum(b)), ModeChecksum(c))
  {
    hide Xor, WordBytes, Crc32;
    WordLinear(a, b);
    WordLinear(Xor(a, b), c);
    Crc32Affine(WordBytes(a), WordBytes(b), WordBytes(c));
  }

  /** The mode, or the owner and then the group, are hashed lowest byte first. */
  lemma DigestValues()
    ensures ModeChecksum(0x3433_3231) == 0x9BE3_E0A3 && OwnerChecksum(0x3433_3231, 0x3837_3635) == 0x9AE0_DAAF
  {
    hide Crc32, WordBytes;
    CheckValues();
  }

  lemma OwnerAffine(a: bv32, b: bv32, c: bv32, x: bv32, y: bv32, z: bv32)
    ensures OwnerChecksum(Xor(Xor(a, b), c), Xor(Xor(x, y), z)) ==
      Xor(Xor(OwnerChecksum(a, x), OwnerChecksum(b, y)), OwnerChecksum(c, z))
  {
    hide Xor, WordBytes, Crc32, Combine, Xored;
    WordLinear(a, b);
    WordLinear(Xor(a, b), c);
    WordLinear(x, y);
    WordLinear(Xor(x, y), z);
    var p, q, r := WordBytes(a) + WordBytes(x), WordBytes(b) + WordBytes(y), WordBytes(c) + WordBytes(z);
    XoredParts(WordBytes(a), WordBytes(b), WordBytes(x), WordBytes(y));
    XoredParts(WordBytes(Xor(a, b)), WordBytes(c), WordBytes(Xor(x, y)), WordBytes(z));
    Crc32Affine(p, q, r);
  }

  /** With CRC-32 the guard of a record of a mode or an owner never refuses, whatever became of the node since. */
  lemma NeverRefused(t: Tree, call: Call, now: Tree)
    requires (call.Chmod? || call.Chown?) && call.path in t && call.path in now
    ensures Revive(Crc32Digest(), now, Record(Crc32Digest(), t, call).value).Some?
  {
    var was, node := t[call.path], now[call.path];
    hide Xor, ModeChecksum, OwnerChecksum;
    match call
    case Chmod(_, mode) =>
      ModeAffine(mode, was.mode, node.mode);
      XorTwice(Xor(ModeChecksum(mode), ModeChecksum(was.mode)), ModeChecksum(node.mode));
    case Chown(_, uid, gid) =>
      OwnerAffine(uid, was.uid, node.uid, gid, was.gid, node.gid);
      XorTwice(Xor(OwnerChecksum(uid, gid), OwnerChecksum(was.uid, was.gid)), OwnerChecksum(node.uid, node.gid));
  }

  /** What the source can undo: every change of mode or owner, also of the group alone; every removal of a
      directory without set-id bits; every call but these and the open of a file that was there. */
  lemma Crc32Reversible(t: Tree, call: Call)
    ensures Reversible(Crc32Digest(), t, call) <==>
      && (call.Rmdir? && call.path in t ==> Permissions(t[call.path].mode) == DirPermissions(t[call.path].mode))
      && (call.Create? ==> call.path !in t)
  {
    hide Xor, ModeChecksum, OwnerChecksum, Joined, Owner, Permissions, DirPermissions;
    if call.path in t {
      match call
      case Chmod(p, mode) => NeverRefused(t, call, t[p := ChmodNode(t[p], mode)]);
      case Chown(p, uid, gid) => NeverRefused(t, call, t[p := ChownNode(t[p], uid, gid)]);
      case _ =>
    }
  }

  // ---------------------------------------------------------------- making and removing

  /** A node that was made can be removed, which restores the tree. */
  lemma MadeThenRemoved(t: Tree, p: Path, n: Node)
    requires TreeOk(t) && Vacant(t, p)
    ensures Dispatch(t[p := n], if n.content.Directory? then Rmdir(p) else Unlink(p)) == Some(t)
  {
    hide NodeOk;
    var t' := t[p := n];
    assert t' - {p} == t;
    forall q | q in t' && q != [] ensures Parent(q) != p {
      if q != p { assert IsDir(t, Parent(q)); }
    }
  }

  lemma UndoMake(d: Digest, t: Tree, call: Call)
    requires TreeOk(t) && Dispatch(t, call).Some?
    requires call.Mkdir? || call.Mknod? || call.Symlink? || (call.Create? && call.path !in t)
    ensures ReplayOne(d, Dispatch(t, call).value, Record(d, t, call).value) == Some(t)
  {
    hide TreeOk, Joined, Childless;
    var p := call.path;
    MadeThenRemoved(t, p, Dispatch(t, call).value[p]);
    hide IsDir;
  }

  /** A node that was removed can be made again at the same place. */
  lemma RemovedThenMade(t: Tree, p: Path, n: Node)
    requires TreeOk(t) && p in t && p != []
    ensures Vacant(t - {p}, p) && (t - {p})[p := n] == t[p := n]
  {
    hide NodeOk;
  }

  lemma RemakesDirectory(d: Digest, t: Tree, p: Path, n: Node)
    requires Vacant(t, p) && NodeOk(n) && n.content.Directory?
    ensures ReplayOne(d, t, DirEntry(p, n.mode, n.uid, n.gid)) ==
      Some(t[p := n.(mode := Joined(S_IFDIR, DirPermissions(n.mode)))])
  {
    hide Joined, IsDir, DirPermissions, Type;
  }

  /** A directory that was removed is made again, with its permissions but for the set-id bits. */
  lemma UndoRmdir(d: Digest, t: Tree, p: Path)
    requires TreeOk(t) && Dispatch(t, Rmdir(p)).Some?
    ensures var made := t[p].(mode := Joined(S_IFDIR, DirPermissions(t[p].mode)));
      ReplayOne(d, Dispatch(t, Rmdir(p)).value, Record(d, t, Rmdir(p)).value) == Some(t[p := made])
  {
    var n := t[p];
    assert NodeOk(n);
    hide TreeOk, NodeOk, Xor, Joined, Childless, ReplayOne, Vacant;
    XorTwice(n.mode, 0);
    XorTwice(n.uid, 0);
    XorTwice(n.gid, 0);
    assert Record(d, t, Rmdir(p)).value == DirEntry(p, n.mode, n.uid, n.gid);
    RemovedThenMade(t, p, n.(mode := Joined(S_IFDIR, DirPermissions(n.mode))));
    RemakesDirectory(d, t - {p}, p, n);
  }

  /** The directory comes back as it was exactly when it had no set-id bits. */
  lemma DirectoryRestored(n: Node)
    requires NodeOk(n) && n.content.Directory?
    ensures n.mode == Joined(S_IFDIR, DirPermissions(n.mode)) <==> Permissions(n.mode) == DirPermissions(n.mode)
  {
  }

  lemma RemakesFile(d: Digest, t: Tree, p: Path, n: Node)
    requires Vacant(t, p) && NodeOk(n) && n.content == Regular([], 1)
    ensures ReplayOne(d, t, FileEntry(p, n.mode, n.uid, n.gid)) == Some(t[p := n])
  {
    Remade(n);
    hide Joined, IsDir;
  }

  lemma RemakesLink(d: Digest, t: Tree, p: Path, n: Node)
    requires Vacant(t, p) && NodeOk(n) && n.content.SymbolicLink?
    ensures ReplayOne(d, t, SymlinkEntry(n.content.target, p, n.uid, n.gid)) == Some(t[p := n])
  {
    hide Joined, IsDir;
  }

  lemma RemakesSpecial(d: Digest, t: Tree, p: Path, n: Node)
    requires Vacant(t, p) && NodeOk(n) && n.content.Special?
    ensures ReplayOne(d, t, NodeEntry(p, n.mode, n.content.rdev, n.uid, n.gid)) == Some(t[p := n])
  {
    Remade(n);
    hide Joined, IsDir, MadeNode;
  }

  /** A node that was removed is made again. */
  lemma UndoUnlink(d: Digest, t: Tree, p: Path)
    requires TreeOk(t) && Dispatch(t, Unlink(p)).Some? && Record(d, t, Unlink(p)).Some?
    ensures ReplayOne(d, Dispatch(t, Unlink(p)).value, Record(d, t, Unlink(p)).value) == Some(t)
  {
    var n := t[p];
    assert NodeOk(n) && p != [] && (n.content.Regular? ==> n.content == Regular([], 1));
    hide TreeOk, NodeOk, Xor, ReplayOne, Vacant;
    XorTwice(n.mode, 0);
    XorTwice(0, n.mode);
    XorTwice(n.uid, 0);
    XorTwice(n.gid, 0);
    RemovedThenMade(t, p, n);
    assert t[p := n] == t;
    match n.content
    case Regular(_, _) => RemakesFile(d, t - {p}, p, n);
    case SymbolicLink(_) => RemakesLink(d, t - {p}, p, n);
    case Special(_) => RemakesSpecial(d, t - {p}, p, n);
    case Directory =>
  }

  /** A node is determined by what a record holds. */
  lemma Remade(n: Node)
    requires NodeOk(n)
    ensures n.content == Regular([], 1) ==>
              n == ChownNode(Node(Joined(S_IFREG, n.mode), 0, 0, Regular([], 1)), n.uid, n.gid)
    ensures n.content.Special? ==>
      MadeNode(n.mode, n.content.rdev) == Some(Node(n.mode, 0, 0, n.content))
  {
    JoinedType(n.mode);
    hide Joined;
  }

  lemma JoinedType(mode: bv32)
    ensures Type(mode) == S_IFREG ==> Joined(S_IFREG, mode) == Joined(mode, mode)
  {
  }

  /** Opening a file that was there is recorded as its creation, so that undoing it deletes the file. */
  lemma UndoDeletesFile(d: Digest, t: Tree, call: Call)
    requires TreeOk(t) && call.Create? && call.path in t && Dispatch(t, call).Some?
    ensures ReplayOne(d, Dispatch(t, call).value, Record(d, t, call).value) == Some(t - {call.path})
    ensures t - {call.path} != t
  {
    hide TreeOk;
    var p, t' := call.path, Dispatch(t, call).value;
    assert t' - {p} == t - {p};
    assert p !in t - {p};
  }

  /** In the state after the call a record undoes the call exactly when the call was reversible. */
  lemma Undo(d: Digest, t: Tree, call: Call)
    requires TreeOk(t) && Dispatch(t, call).Some? && Record(d, t, call).Some?
    ensures ReplayOne(d, Dispatch(t, call).value, Record(d, t, call).value) == Some(t) <==> Reversible(d, t, call)
  {
    hide TreeOk, ReplayOne, Record, Joined, Permissions, DirPermissions, ChmodGuard, ChownGuard;
    match call
    case Chmod(p, mode) => UndoChmod(d, t, p, mode);
    case Chown(p, uid, gid) => UndoChown(d, t, p, uid, gid);
    case Rmdir(p) =>
      UndoRmdir(d, t, p);
      assert NodeOk(t[p]) by { NodeAt(t, p); }
      DirectoryRestored(t[p]);
      var made := t[p].(mode := Joined(S_IFDIR, DirPermissions(t[p].mode)));
      assert t[p := made] == t <==> made == t[p] by { assert t[p := made][p] == made; assert t[p := t[p]] == t; }
    case Unlink(p) => UndoUnlink(d, t, p);
    case _ => if call.Create? && call.path in t { UndoDeletesFile(d, t, call); } else { UndoMake(d, t, call); }
  }

  // ---------------------------------------------------------------- calls that failed

  /** A reversible call that succeeded. */
  predicate Ran(d: Digest, t: Tree, call: Call, t': Tree) {
    Dispatch(t, call) == Some(t') && Reversible(d, t, call)
  }

  /** The record leads from `t` to `t'` and back. */
  predicate Retraces(d: Digest, t: Tree, e: Entry, t': Tree) {
    ReplayOne(d, t, e) == Some(t') && ReplayOne(d, t', e) == Some(t)
  }

  /** The record is written before the call runs. */
  function After(t: Tree, call: Call): Tree {
    var r := Dispatch(t, call);
    if r.Some? then r.value else t
  }

  /** The record of a call that failed is refused or changes the tree: it is never replayed as nothing. */
  lemma FailedCall(d: Digest, t: Tree, call: Call)
    requires Dispatch(t, call).None? && Record(d, t, call).Some?
    ensures ReplayOne(d, t, Record(d, t, call).value) != Some(t)
  {
    hide Xor, Joined, Childless, ChownNode, MadeNode, Permissions, DirPermissions;
  }

  /** Every call that succeeds is recorded, but for the removal of a name of a file that has data or other names. */
  lemma RecordedIff(d: Digest, t: Tree, call: Call)
    requires Dispatch(t, call).Some?
    ensures Record(d, t, call).None? <==>
      call.Unlink? && var c := t[call.path].content; c.Regular? && (c.links > 1 || c.data != [])
  {
    hide Xor, Joined, Childless, ChownNode, MadeNode;
  }

  /** What becomes of the tree when the record of a call that failed is replayed: the record of a call that was to make
      a node removes what is at its path, that of a removal of a directory that is not there makes one, which belongs to
      root and which nobody else may enter, and every other one is refused. */
  lemma FailedReplay(d: Digest, t: Tree, call: Call)
    requires Dispatch(t, call).None? && Record(d, t, call).Some?
    ensures var p, r := call.path, ReplayOne(d, t, Record(d, t, call).value);
      match call
      case Mkdir(_, _, _, _) =>
        r == if p in t && p != [] && t[p].content.Directory? && Childless(t, p) then Some(t - {p}) else None
      case Symlink(_, _, _, _) => r == if p in t && t[p].content.SymbolicLink? then Some(t - {p}) else None
      case Mknod(_, _, _, _, _) => r == if p in t && !t[p].content.Directory? then Some(t - {p}) else None
      case Create(_, _, _, _, _) => r == if p in t && !t[p].content.Directory? then Some(t - {p}) else None
      case Rmdir(_) => r == if Vacant(t, p) then Some(t[p := Node(S_IFDIR, 0, 0, Directory)]) else None
      case _ => r == None
  {
    EmptyMode();
    hide Xor, Joined, Childless, MadeNode, Permissions, DirPermissions;
    hide Owner;
    OwnerRoot();
  }

  lemma OwnerRoot()
    ensures Owner(0, 0) == 0
  {
  }

  lemma EmptyMode()
    ensures Joined(S_IFDIR, DirPermissions(0)) == S_IFDIR
  {
  }

  /** A record leads from the state before the call to the state after it and back exactly when the call
      succeeded and was reversible. */
  lemma BothWaysIff(d: Digest, t: Tree, call: Call)
    requires TreeOk(t) && Record(d, t, call).Some?
    ensures
      var e, t' := Record(d, t, call).value, After(t, call);
      Retraces(d, t, e, t') <==> Ran(d, t, call, t')
  {
    hide TreeOk, Dispatch, Record, ReplayOne, ChmodGuard, ChownGuard;
    if Dispatch(t, call).Some? {
      Redo(d, t, call);
      Undo(d, t, call);
    } else {
      FailedCall(d, t, call);
    }
  }

  lemma NodeAt(t: Tree, p: Path)
    requires TreeOk(t) && p in t
    ensures NodeOk(t[p])
  {
  }

  // ---------------------------------------------------------------- the whole log

  /** Calls that ran one after the other, each of them reversible, and their records. */
  ghost predicate Logged(d: Digest, states: seq<Tree>, calls: seq<Call>, es: seq<Entry>) {
    && |states| == |calls| + 1 == |es| + 1 && TreeOk(states[0])
    && forall i | 0 <= i < |calls| ::
         Record(d, states[i], calls[i]) == Some(es[i]) && Ran(d, states[i], calls[i], states[i + 1])
  }

  /** Calls that were attempted one after the other, whether they succeeded or not, and their records. */
  ghost predicate Attempted(d: Digest, states: seq<Tree>, calls: seq<Call>, es: seq<Entry>) {
    && |states| == |calls| + 1 == |es| + 1 && TreeOk(states[0])
    && forall i | 0 <= i < |calls| ::
         states[i + 1] == After(states[i], calls[i]) && Record(d, states[i], calls[i]) == Some(es[i])
  }

  /** Every record leads from each state to the next one and back. */
  ghost predicate Retraced(d: Digest, states: seq<Tree>, es: seq<Entry>)
    requires |states| == |es| + 1
  {
    forall i | 0 <= i < |es| :: Retraces(d, states[i], es[i], states[i + 1])
  }

  lemma {:induction false} AttemptedOk(d: Digest, states: seq<Tree>, calls: seq<Call>, es: seq<Entry>, i: nat)
    requires Attempted(d, states, calls, es) && i < |states|
    ensures TreeOk(states[i])
  {
    hide TreeOk, Dispatch, Record;
    if i > 0 {
      AttemptedOk(d, states, calls, es, i - 1);
      assert states[i - 1 + 1] == After(states[i - 1], calls[i - 1]);
      if Dispatch(states[i - 1], calls[i - 1]).Some? { DispatchKeeps(states[i - 1], calls[i - 1]); }
    }
  }

  /** A log retraces its states in both directions exactly when every call succeeded and was reversible. */
  lemma RetracedIff(d: Digest, states: seq<Tree>, calls: seq<Call>, es: seq<Entry>)
    requires Attempted(d, states, calls, es)
    ensures Retraced(d, states, es) <==> Logged(d, states, calls, es)
  {
    hide TreeOk, Record, Ran, Retraces, After;
    forall i | 0 <= i < |calls|
      ensures Retraces(d, states[i], es[i], states[i + 1]) <==> Ran(d, states[i], calls[i], states[i + 1]) {
      assert states[i + 1] == After(states[i], calls[i]) && Record(d, states[i], calls[i]) == Some(es[i]);
      AttemptedOk(d, states, calls, es, i);
      BothWaysIff(d, states[i], calls[i]);
    }
    if Logged(d, states, calls, es) {
      forall i | 0 <= i < |es| ensures Retraces(d, states[i], es[i], states[i + 1]) {
        assert Ran(d, states[i], calls[i], states[i + 1]);
      }
    }
  }

  lemma LoggedRetraced(d: Digest, states: seq<Tree>, calls: seq<Call>, es: seq<Entry>)
    requires Logged(d, states, calls, es)
    ensures Retraced(d, states, es)
  {
    hide TreeOk, Dispatch, Record, Reversible, Retraces;
    assert Attempted(d, states, calls, es) by {
      forall i | 0 <= i < |calls| ensures states[i + 1] == After(states[i], calls[i]) {
        assert Ran(d, states[i], calls[i], states[i + 1]);
      }
    }
    RetracedIff(d, states, calls, es);
  }

  /** Replaying the log from where it started leads to where it ended. */
  lemma {:induction false} ForwardReplay(d: Digest, states: seq<Tree>, es: seq<Entry>, i: nat)
    requires |states| == |es| + 1 && Retraced(d, states, es) && i <= |es|
    ensures ReplayAll(d, states[i], es[i..]) == Some(states[|es|])
    decreases |es| - i
  {
    if i < |es| {
      hide ReplayOne;
      assert Retraces(d, states[i], es[i], states[i + 1]);
      ForwardReplay(d, states, es, i + 1);
      assert es[i..][1..] == es[i + 1..];
    }
  }

  /** Replaying the log in reverse from where it ended leads to where it started. */
  lemma {:induction false} ReverseReplay(d: Digest, states: seq<Tree>, es: seq<Entry>, i: nat)
    requires |states| == |es| + 1 && Retraced(d, states, es) && i <= |es|
    ensures ReplayAll(d, states[i], Reversed(es[..i])) == Some(states[0])
    decreases i
  {
    if i > 0 {
      hide ReplayOne;
      assert Retraces(d, states[i - 1], es[i - 1], states[i - 1 + 1]);
      ReverseReplay(d, states, es, i - 1);
      assert es[..i][..i - 1] == es[..i - 1];
      assert Reversed(es[..i])[1..] == Reversed(es[..i - 1]);
    }
  }

  /** A log is reversible as a whole, and no record is refused. */
  lemma LogReversible(d: Digest, states: seq<Tree>, calls: seq<Call>, es: seq<Entry>)
    requires Logged(d, states, calls, es)
    ensures ReplayAll(d, states[0], InDirection(es, false)) == Some(states[|es|])
    ensures ReplayAll(d, states[|es|], InDirection(es, true)) == Some(states[0])
  {
    LoggedRetraced(d, states, calls, es);
    hide Logged, Retraced, ReplayAll;
    ForwardReplay(d, states, es, 0);
    ReverseReplay(d, states, es, |es|);
    assert es[0..] == es && es[..|es|] == es;
  }

  lemma {:induction false} ReplayMore(d: Digest, t: Tree, es: seq<Entry>, e: Entry)
    ensures ReplayAll(d, t, es + [e]) ==
              match ReplayAll(d, t, es) { case None => None case Some(m) => ReplayOne(d, m, e) }
    decreases |es|
  {
    hide ReplayOne;
    if es == [] {
      assert ([e])[1..] == [];
    } else {
      assert (es + [e])[1..] == es[1..] + [e];
      match ReplayOne(d, t, es[0])
      case None =>
      case Some(m) => ReplayMore(d, m, es[1..], e);
    }
  }

  lemma {:induction false} ReversedAt(es: seq<Entry>, i: nat)
    requires i < |es|
    ensures |Reversed(es)| == |es| && Reversed(es)[i] == es[|es| - 1 - i]
  {
    var init := es[..|es| - 1];
    if init == [] {
      assert Reversed(init) == [];
    } else {
      ReversedAt(init, if i > 0 then i - 1 else 0);
    }
  }

  /** The records lead from `states[0]` through all of `states`. */
  ghost predicate Leads(d: Digest, states: seq<Tree>, es: seq<Entry>) {
    && |states| == |es| + 1
    && forall i | 0 <= i < |es| :: ReplayOne(d, states[i], es[i]) == Some(states[i + 1])
  }

  /** A log is replayed to `t'` exactly when every record is, one after the other: nothing follows a record that is
      refused or whose call fails, and none is passed over. */
  lemma {:induction false} ReplayedIff(d: Digest, t: Tree, es: seq<Entry>, t': Tree)
    ensures ReplayAll(d, t, es) == Some(t') <==>
      exists states :: Leads(d, states, es) && states[0] == t && states[|es|] == t'
    decreases |es|
  {
    hide ReplayOne;
    if es == [] {
      assert Leads(d, [t], es);
    } else {
      var next := ReplayOne(d, t, es[0]);
      if next.Some? { ReplayedIff(d, next.value, es[1..], t'); }
      if ReplayAll(d, t, es) == Some(t') {
        var rest :| Leads(d, rest, es[1..]) && rest[0] == next.value && rest[|es[1..]|] == t';
        LeadsFirst(d, t, es, rest);
      }
      if states :| Leads(d, states, es) && states[0] == t && states[|es|] == t' {
        LeadsRest(d, states, es);
        assert states[1..][|es[1..]|] == t';
      }
    }
  }

  lemma LeadsFirst(d: Digest, t: Tree, es: seq<Entry>, rest: seq<Tree>)
    requires es != [] && Leads(d, rest, es[1..]) && ReplayOne(d, t, es[0]) == Some(rest[0])
    ensures Leads(d, [t] + rest, es) && ([t] + rest)[|es|] == rest[|es| - 1]
  {
    hide ReplayOne;
    var states := [t] + rest;
    forall i | 0 <= i < |es| ensures ReplayOne(d, states[i], es[i]) == Some(states[i + 1]) {
      if i > 0 { assert ReplayOne(d, rest[i - 1], es[1..][i - 1]) == Some(rest[i - 1 + 1]); }
    }
  }

  lemma LeadsRest(d: Digest, states: seq<Tree>, es: seq<Entry>)
    requires es != [] && Leads(d, states, es)
    ensures Leads(d, states[1..], es[1..]) && ReplayOne(d, states[0], es[0]) == Some(states[1])
  {
    hide ReplayOne;
    assert ReplayOne(d, states[0], es[0]) == Some(states[0 + 1]);
    forall i | 0 <= i < |es| - 1 ensures ReplayOne(d, states[1..][i], es[1..][i]) == Some(states[1..][i + 1]) {
      assert ReplayOne(d, states[i + 1], es[i + 1]) == Some(states[i + 1 + 1]);
    }
  }

  /** The records in the order in which they are replayed. */
  function InDirection(es: seq<Entry>, reverse: bool): seq<Entry> {
    if reverse then Reversed(es) else es
  }

  lemma DirectionLength(es: seq<Entry>, reverse: bool)
    ensures |InDirection(es, reverse)| == |es|
  {
    if es != [] { ReversedAt(es, 0); }
  }

  lemma DirectionNext(es: seq<Entry>, reverse: bool, i: nat, e: Entry)
    requires i < |es| == |InDirection(es, reverse)| && e == if reverse then es[|es| - 1 - i] else es[i]
    ensures InDirection(es, reverse)[..i + 1] == InDirection(es, reverse)[..i] + [e]
  {
    ReversedAt(es, i);
    hide Reversed;
  }

  /** The loop of the viewer: replays every record, in either direction; nothing follows a record that is
      refused or whose call fails. */
  method Replay(d: Digest, t: Tree, es: seq<Entry>, reverse: bool) returns (r: Option<Tree>)
    ensures r == ReplayAll(d, t, InDirection(es, reverse))
  {
    hide *;
    ghost var order := InDirection(es, reverse);
    DirectionLength(es, reverse);
    r := Some(t);
    ReplayNone(d, t, order[..0]);
    var i := 0;
    while i < |es|
      invariant i <= |es| && r == ReplayAll(d, t, order[..i])
    {
      var e := if reverse then es[|es| - 1 - i] else es[i];
      DirectionNext(es, reverse, i, e);
      ReplayMore(d, t, order[..i], e);
      if r.Some? {
        r := ReplayOne(d, r.value, e);
      }
      i := i + 1;
    }
    assert order[..i] == order;
  }

  lemma ReplayNone(d: Digest, t: Tree, es: seq<Entry>)
    requires es == []
    ensures ReplayAll(d, t, es) == Some(t)
  {
  }
}
