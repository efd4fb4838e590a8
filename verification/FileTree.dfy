/**
 A tree of files as the system calls of a replica see it: what `lstat` and `readlink` report, and what each
 call of the bidirectional log does. The calls run as root with an empty umask.
 */
module FileTree {
  import opened Wrappers
  import opened Extents

  type Path = seq<string>

  const S_IFMT: bv32 := 0xF000
  const S_IFSOCK: bv32 := 0xC000
  const S_IFREG: bv32 := 0x8000
  const S_IFBLK: bv32 := 0x6000
  const S_IFDIR: bv32 := 0x4000
  const S_IFCHR: bv32 := 0x2000
  const S_IFIFO: bv32 := 0x1000

  /** The mode of every symbolic link. */
  const LINK_MODE: bv32 := 0xA1FF

  /** To `chown` this means: leave as it is. */
  const NO_ID: bv32 := 0xFFFF_FFFF

  datatype Content =
    | Regular(data: seq<Byte>, links: nat)
    | Directory
    | SymbolicLink(target: string)
    | Special(rdev: bv64)

  datatype Node = Node(mode: bv32, uid: bv32, gid: bv32, content: Content)

  type Tree = map<Path, Node>

  function Type(mode: bv32): bv32 { mode & S_IFMT }

  function Permissions(mode: bv32): bv32 { mode & 0xFFF }

  /** The permissions that `mkdir` grants: it ignores the set-id bits. */
  function DirPermissions(mode: bv32): bv32 { mode & 0x3FF }

  /** The type of one mode with the permissions of another. */
  function Joined(a: bv32, b: bv32): bv32 { Type(a) | Permissions(b) }

  predicate IsSpecial(mode: bv32) {
    var t := Type(mode);
    t == S_IFBLK || t == S_IFCHR || t == S_IFIFO || t == S_IFSOCK
  }

  predicate IsDevice(mode: bv32) {
    Type(mode) == S_IFBLK || Type(mode) == S_IFCHR
  }

  /** What `lstat` can report. */
  predicate NodeOk(n: Node) {
    && n.mode == Joined(n.mode, n.mode) && n.uid != NO_ID && n.gid != NO_ID
    && match n.content
       case Regular(_, links) => Type(n.mode) == S_IFREG && links > 0
       case Directory => Type(n.mode) == S_IFDIR
       case SymbolicLink(_) => n.mode == LINK_MODE
       case Special(rdev) => IsSpecial(n.mode) && (IsDevice(n.mode) || rdev == 0)
  }

  function Parent(p: Path): Path
    requires p != []
  {
    p[..|p| - 1]
  }

  predicate IsDir(t: Tree, p: Path) {
    p in t && t[p].content.Directory?
  }

  ghost predicate TreeOk(t: Tree) {
    && IsDir(t, []) && (forall p | p in t :: NodeOk(t[p]))
    && (forall p | p in t && p != [] :: IsDir(t, Parent(p)))
  }

  /** A new entry can be made at `p`. */
  predicate Vacant(t: Tree, p: Path) {
    p !in t && p != [] && IsDir(t, Parent(p))
  }

  predicate Childless(t: Tree, p: Path) {
    forall q | q in t && q != [] :: Parent(q) != p
  }

  datatype Call =
    | Chmod(path: Path, mode: bv32)
    | Chown(path: Path, uid: bv32, gid: bv32)
    | Mkdir(path: Path, mode: bv32, uid: bv32, gid: bv32)
    | Rmdir(path: Path)
    | Mknod(path: Path, mode: bv32, rdev: bv64, uid: bv32, gid: bv32)
    | Create(path: Path, mode: bv32, exclusive: bool, uid: bv32, gid: bv32)
    | Symlink(target: string, path: Path, uid: bv32, gid: bv32)
    | Unlink(path: Path)

  function Owner(current: bv32, id: bv32): bv32 {
    if id == NO_ID then current else id
  }

  function ChownNode(n: Node, uid: bv32, gid: bv32): Node {
    n.(uid := Owner(n.uid, uid), gid := Owner(n.gid, gid))
  }

  function ChmodNode(n: Node, mode: bv32): Node {
    n.(mode := Joined(n.mode, mode))
  }

  /** The node that `mknod` makes; a type of zero means a regular file. */
  function MadeNode(mode: bv32, rdev: bv64): Option<Node> {
    if Type(mode) == S_IFREG || Type(mode) == 0 then Some(Node(Joined(S_IFREG, mode), 0, 0, Regular([], 1)))
    else if IsSpecial(mode) then
      Some(Node(Joined(mode, mode), 0, 0, Special(if IsDevice(mode) then rdev else 0)))
    else None
  }

  /** The tree after a successful call, `None` when the call fails. Links are not followed: a call on a
      symbolic link fails here. */
  function Dispatch(t: Tree, call: Call): Option<Tree> {
    match call
    case Chmod(p, mode) =>
      if p in t && !t[p].content.SymbolicLink? then Some(t[p := ChmodNode(t[p], mode)]) else None
    case Chown(p, uid, gid) =>
      if p in t && !t[p].content.SymbolicLink? then Some(t[p := ChownNode(t[p], uid, gid)]) else None
    case Mkdir(p, mode, uid, gid) =>
      if Vacant(t, p) then
        Some(t[p := ChownNode(Node(Joined(S_IFDIR, DirPermissions(mode)), 0, 0, Directory), uid, gid)])
      else None
    case Rmdir(p) => if p != [] && IsDir(t, p) && Childless(t, p) then Some(t - {p}) else None
    case Mknod(p, mode, rdev, uid, gid) =>
      var n := MadeNode(mode, rdev);
      if Vacant(t, p) && n.Some? then Some(t[p := ChownNode(n.value, uid, gid)]) else None
    case Create(p, mode, exclusive, uid, gid) =>
      if Vacant(t, p) then Some(t[p := ChownNode(Node(Joined(S_IFREG, mode), 0, 0, Regular([], 1)), uid, gid)])
      else if p in t && t[p].content.Regular? && !exclusive then Some(t[p := ChownNode(t[p], uid, gid)])
      else None
    case Symlink(target, p, uid, gid) =>
      if Vacant(t, p) then Some(t[p := ChownNode(Node(LINK_MODE, 0, 0, SymbolicLink(target)), uid, gid)]) else None
    case Unlink(p) => if p in t && !t[p].content.Directory? then Some(t - {p}) else None
  }

  lemma TypeOf(a: bv32, b: bv32)
    ensures Type(Joined(a, b)) == Type(a)
  {
  }

  lemma PermissionsOf(a: bv32, b: bv32)
    ensures Permissions(Joined(a, b)) == Permissions(b)
  {
  }

  /** A node of one kind is replaced by one of the same kind, or made at a vacant path. */
  lemma PutKeeps(t: Tree, p: Path, n: Node)
    requires TreeOk(t) && NodeOk(n) && (Vacant(t, p) || (p in t && (n.content.Directory? <==> t[p].content.Directory?)))
    ensures TreeOk(t[p := n])
  {
    hide NodeOk;
  }

  lemma RemoveKeeps(t: Tree, p: Path)
    requires TreeOk(t) && p in t && p != [] && (t[p].content.Directory? ==> Childless(t, p))
    ensures TreeOk(t - {p})
  {
    hide NodeOk;
  }

  lemma ChownOk(n: Node, uid: bv32, gid: bv32)
    requires NodeOk(n)
    ensures NodeOk(ChownNode(n, uid, gid))
  {
  }

  /** A joined mode is made of its type and permissions. */
  lemma ModeOk(a: bv32, b: bv32)
    ensures var m := Joined(a, b); m == Joined(m, m) && Type(m) == Type(a)
  {
    TypeOf(a, b);
    PermissionsOf(a, b);
    hide Type, Permissions;
  }

  lemma ChmodOk(n: Node, mode: bv32)
    requires NodeOk(n) && !n.content.SymbolicLink?
    ensures NodeOk(ChmodNode(n, mode))
  {
    hide Type, Joined;
    ModeOk(n.mode, mode);
  }

  lemma MadeOk(mode: bv32, rdev: bv64)
    requires MadeNode(mode, rdev).Some?
    ensures NodeOk(MadeNode(mode, rdev).value)
  {
    assert Type(S_IFREG) == S_IFREG;
    hide Type, Joined;
    ModeOk(mode, mode);
    ModeOk(S_IFREG, mode);
  }

  lemma CreatedOk(mode: bv32)
    ensures NodeOk(Node(Joined(S_IFREG, mode), 0, 0, Regular([], 1)))
  {
    assert Type(S_IFREG) == S_IFREG;
    hide Type, Joined;
    ModeOk(S_IFREG, mode);
  }

  lemma MkdirOk(mode: bv32)
    ensures NodeOk(Node(Joined(S_IFDIR, DirPermissions(mode)), 0, 0, Directory))
  {
    assert Type(S_IFDIR) == S_IFDIR;
    hide Type, Joined;
    ModeOk(S_IFDIR, DirPermissions(mode));
  }

  lemma SymlinkOk(target: string)
    ensures NodeOk(Node(LINK_MODE, 0, 0, SymbolicLink(target)))
  {
  }

  /** Every call keeps the tree a tree. */
  lemma DispatchKeeps(t: Tree, call: Call)
    requires TreeOk(t) && Dispatch(t, call).Some?
    ensures TreeOk(Dispatch(t, call).value)
  {
    assert call.path in t ==> NodeOk(t[call.path]);
    hide NodeOk, Joined;
    match call
    case Chmod(p, mode) =>
      ChmodOk(t[p], mode);
      PutKeeps(t, p, ChmodNode(t[p], mode));
    case Chown(p, uid, gid) =>
      ChownOk(t[p], uid, gid);
      PutKeeps(t, p, ChownNode(t[p], uid, gid));
    case Mkdir(p, mode, uid, gid) =>
      MkdirOk(mode);
      var n := Node(Joined(S_IFDIR, DirPermissions(mode)), 0, 0, Directory);
      ChownOk(n, uid, gid);
      PutKeeps(t, p, ChownNode(n, uid, gid));
    case Mknod(p, mode, rdev, uid, gid) =>
      MadeOk(mode, rdev);
      var n := MadeNode(mode, rdev).value;
      ChownOk(n, uid, gid);
      PutKeeps(t, p, ChownNode(n, uid, gid));
    case Create(p, mode, _, uid, gid) =>
      CreatedOk(mode);
      var n := if p in t then t[p] else Node(Joined(S_IFREG, mode), 0, 0, Regular([], 1));
      ChownOk(n, uid, gid);
      PutKeeps(t, p, ChownNode(n, uid, gid));
    case Symlink(target, p, uid, gid) =>
      SymlinkOk(target);
      var n := Node(LINK_MODE, 0, 0, SymbolicLink(target));
      ChownOk(n, uid, gid);
      PutKeeps(t, p, ChownNode(n, uid, gid));
    case Rmdir(p) => RemoveKeeps(t, p);
    case Unlink(p) => RemoveKeeps(t, p);
  }

  // ---------------------------------------------------------------- what a call does and when it fails

  /** A call that makes a node fails exactly when something is at the path or the directory is missing; `mknod` also
      when it cannot make the type of file. */
  lemma MakeFails(t: Tree, call: Call)
    requires TreeOk(t) && (call.Mkdir? || call.Mknod? || call.Symlink?)
    ensures var p := call.path;
      Dispatch(t, call).None? <==>
      || p in t || p[..|p| - 1] !in t || !t[p[..|p| - 1]].content.Directory?
      || (call.Mknod? && Type(call.mode) !in {0, 0x1000, 0x2000, 0x6000, 0x8000, 0xC000})
  {
    hide NodeOk, Joined, ChownNode, MadeNode, Type;
    if call.Mknod? { MadeTypes(call.mode, call.rdev); }
  }

  lemma MadeTypes(mode: bv32, rdev: bv64)
    ensures MadeNode(mode, rdev).Some? <==> Type(mode) in {0, 0x1000, 0x2000, 0x6000, 0x8000, 0xC000}
  {
    hide Joined, Type;
  }

  /** A call on a node fails exactly when the node is of the wrong kind; `rmdir` also when the directory is not empty,
      and `create` when it is to make the file. */
  lemma UseFails(t: Tree, call: Call)
    requires TreeOk(t) && !(call.Mkdir? || call.Mknod? || call.Symlink?) && call.path in t
    ensures var p := call.path;
      Dispatch(t, call).None? <==>
      match t[p].content
      case Regular(_, _) => call.Rmdir? || (call.Create? && call.exclusive)
      case Directory =>
        call.Unlink? || call.Create? || (call.Rmdir? && (p == [] || exists q | q in t && q != [] :: q[..|q| - 1] == p))
      case SymbolicLink(_) => !call.Unlink?
      case Special(_) => call.Rmdir? || call.Create?
  {
    hide NodeOk, Joined, ChownNode;
  }

  /** The owner after a call that asks for `id`. */
  predicate OwnedBy(now: bv32, was: bv32, id: bv32) {
    now == if id == 0xFFFF_FFFF then was else id
  }

  /** What is at the path after a call that makes a node or changes one. */
  predicate Leaves(was: Option<Node>, call: Call, now: Node) {
    match call
    case Chmod(_, mode) =>
      && was.Some? && now == was.value.(mode := now.mode)
      && Type(now.mode) == Type(was.value.mode) && Permissions(now.mode) == Permissions(mode)
    case Chown(_, uid, gid) =>
      && was.Some? && now == was.value.(uid := now.uid, gid := now.gid)
      && OwnedBy(now.uid, was.value.uid, uid) && OwnedBy(now.gid, was.value.gid, gid)
    case Mkdir(_, mode, uid, gid) =>
      && now.content == Directory && Permissions(now.mode) == DirPermissions(mode)
      && OwnedBy(now.uid, 0, uid) && OwnedBy(now.gid, 0, gid)
    case Symlink(target, _, uid, gid) =>
      now.content == SymbolicLink(target) && OwnedBy(now.uid, 0, uid) && OwnedBy(now.gid, 0, gid)
    case Mknod(_, mode, rdev, uid, gid) =>
      && Permissions(now.mode) == Permissions(mode) && OwnedBy(now.uid, 0, uid) && OwnedBy(now.gid, 0, gid)
      && now.content == (
        if Type(mode) in {0, 0x8000} then Regular([], 1)
        else if Type(mode) in {0x2000, 0x6000} then Special(rdev)
        else Special(0))
    case Create(_, mode, _, uid, gid) =>
      if was.Some? then
        && now == was.value.(uid := now.uid, gid := now.gid)
        && OwnedBy(now.uid, was.value.uid, uid) && OwnedBy(now.gid, was.value.gid, gid)
      else
        && Permissions(now.mode) == Permissions(mode) && now.content == Regular([], 1)
        && OwnedBy(now.uid, 0, uid) && OwnedBy(now.gid, 0, gid)
    case _ => false
  }

  /** The twelve lower bits of a mode are permissions, and the four above them the type. */
  lemma ModeBits(a: bv32, b: bv32)
    ensures Type(a) == a & 0xF000 && Permissions(a) == a & 0xFFF && DirPermissions(a) == a & 0x3FF
    ensures Joined(a, b) == (a & 0xF000) | (b & 0xFFF)
    ensures Permissions(DirPermissions(b)) == DirPermissions(b)
  {
  }

  lemma MadeLeaves(mode: bv32, rdev: bv64)
    requires MadeNode(mode, rdev).Some?
    ensures var n := MadeNode(mode, rdev).value;
      && Permissions(n.mode) == Permissions(mode) && n.uid == n.gid == 0
      && n.content == (
        if Type(mode) in {0, 0x8000} then Regular([], 1)
        else if Type(mode) in {0x2000, 0x6000} then Special(rdev)
        else Special(0))
  {
    PermissionsOf(mode, mode);
    PermissionsOf(S_IFREG, mode);
    hide Joined, Type, Permissions;
  }

  /** A call changes nothing but the node at its path, which is there afterwards unless the call removes it. */
  lemma OnlyPath(t: Tree, call: Call)
    requires Dispatch(t, call).Some?
    ensures var p, t' := call.path, Dispatch(t, call).value;
      && (forall q | q != p :: (q in t' <==> q in t) && (q in t ==> t'[q] == t[q]))
      && (p in t' <==> !call.Rmdir? && !call.Unlink?)
  {
    hide Joined, DirPermissions, MadeNode, IsDir, Childless, ChownNode, ChmodNode;
  }

  /** What a call leaves at its path is what the manual says. */
  lemma DispatchLeaves(t: Tree, call: Call)
    requires Dispatch(t, call).Some? && !call.Rmdir? && !call.Unlink?
    ensures var p, t' := call.path, Dispatch(t, call).value;
      p in t' && Leaves(if p in t then Some(t[p]) else None, call, t'[p])
  {
    hide Joined, Type, Permissions, DirPermissions, MadeNode, IsDir, Childless;
    match call
    case Chmod(p, mode) =>
      TypeOf(t[p].mode, mode);
      PermissionsOf(t[p].mode, mode);
    case Mkdir(_, mode, _, _) =>
      PermissionsOf(S_IFDIR, DirPermissions(mode));
      ModeBits(0, mode);
    case Create(_, mode, _, _, _) => PermissionsOf(S_IFREG, mode);
    case Mknod(_, mode, rdev, _, _) => MadeLeaves(mode, rdev);
    case _ =>
  }
}
