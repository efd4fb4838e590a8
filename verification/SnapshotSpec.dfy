/**
 What a stream of file system calls means for the contents of a snapshot, without any storage: each path
 has no data, or a partial map from file offsets to bytes. `None` is a failed assertion of the source.
 */
module SnapshotSpec {
  import opened Wrappers
  import opened Extents
  import opened EncodeWrite
  import opened FileTable

  /** `Unlink` is unlink and rmdir; `Metadata` is security, chmod, fallocate, setxattr, removexattr
      and utimens, which only open the entry; `Write` is write and diff_write, which are stored alike. */
  datatype Call =
    | Rename(from: Path, to: Path)
    | Mknod(path: Path)
    | Mkdir(path: Path)
    | Symlink(path: Path)
    | Link(from: Path, to: Path)
    | Create(path: Path)
    | Unlink(path: Path)
    | Metadata(path: Path)
    | Truncate(path: Path, size: nat)
    | Write(path: Path, offset: nat, buf: seq<Byte>)
    | Fsync
    | TruncatingWrite(path: Path)

  type Spec = map<Path, View>

  /** A path that the snapshot does not know is opened with no recorded data. */
  ghost function Opened(m: Spec, path: Path): View {
    if path in m then m[path] else Data(imap[])
  }

  ghost function Effect(m: Spec, call: Call): Option<Spec> {
    match call
    case Rename(from, to) => Some((m - {from})[to := Opened(m, from)])
    case Mknod(path) => if path in m then None else Some(m[path := Data(imap[])])
    case Mkdir(path) => if path in m then None else Some(m[path := NoData])
    case Symlink(path) => if path in m then None else Some(m[path := NoData])
    case Link(from, to) => if Opened(m, from).NoData? || to in m then None else Some(m[to := Opened(m, from)])
    case Create(path) => Some(m[path := Data(imap[])])
    case Unlink(path) => Some(m - {path})
    case Metadata(path) => Some(m[path := Opened(m, path)])
    case Truncate(path, size) =>
      var v := Opened(m, path);
      Some(m[path := if v.NoData? then NoData else Data(Clip(v.content, size))])
    case Write(path, offset, buf) =>
      var v := Opened(m, path);
      if v.NoData? then None else Some(m[path := Data(Overlay(v.content, offset, buf))])
    case Fsync => Some(m)
    case TruncatingWrite(_) => None
  }

  /** The contents after all the calls, `None` if one of them fails an assertion. */
  ghost function Run(m: Spec, calls: seq<Call>): Option<Spec>
    decreases |calls|
  {
    if calls == [] then Some(m)
    else
      var m' := Effect(m, calls[0]);
      if m'.None? then None else Run(m'.value, calls[1..])
  }

  lemma {:induction false} RunMore(m: Spec, calls: seq<Call>, call: Call)
    ensures Run(m, calls + [call]) == match Run(m, calls) { case None => None case Some(m') => Effect(m', call) }
    decreases |calls|
  {
    hide Effect;
    if calls == [] {
      assert [call][1..] == [];
    } else {
      assert (calls + [call])[1..] == calls[1..] + [call];
      var m' := Effect(m, calls[0]);
      if m'.Some? { RunMore(m'.value, calls[1..], call); }
    }
  }

  /** No recorded bytes. */
  ghost predicate Empty(v: View) {
    v == NoData || v == Data(imap[])
  }

  /** The call neither shares blocks between two entries nor makes an empty write that no block absorbs. */
  ghost predicate Regular(m: Spec, call: Call) {
    && (call.Link? ==> Empty(Opened(m, call.from)))
    && (call.Write? && call.buf == [] && Opened(m, call.path).Data? ==>
         Absorbs(Opened(m, call.path).content, call.offset))
  }

  ghost predicate AllRegular(m: Spec, calls: seq<Call>)
    decreases |calls|
  {
    calls != [] ==>
      Regular(m, calls[0]) && var m' := Effect(m, calls[0]); m'.Some? ==> AllRegular(m'.value, calls[1..])
  }

  /** The call does not create over an entry with recorded bytes. */
  ghost predicate LeakFree(m: Spec, call: Call) {
    call.Create? ==> Empty(Opened(m, call.path))
  }

  ghost predicate AllLeakFree(m: Spec, calls: seq<Call>)
    decreases |calls|
  {
    calls != [] ==>
      LeakFree(m, calls[0]) && var m' := Effect(m, calls[0]); m'.Some? ==> AllLeakFree(m'.value, calls[1..])
  }

  /** The call may change what is recorded for `q`. */
  predicate Names(call: Call, q: Path) {
    match call
    case Rename(from, to) => q == from || q == to
    case Link(_, to) => q == to
    case Fsync => false
    case _ => q == call.path
  }

  /** A call changes what is recorded for no path but those it names. */
  lemma OnlyNamedPaths(m: Spec, call: Call, q: Path)
    requires Effect(m, call).Some? && !Names(call, q)
    ensures var m' := Effect(m, call).value;
            (q in m' <==> q in m) && (q in m ==> m'[q] == m[q])
  {
  }

  // ---------------------------------------------------------------- room for a run of calls

  ghost predicate ViewBelow(v: View, e: nat) {
    v.Data? ==> forall x | x in v.content :: x < e
  }

  /** Nothing is recorded at or past offset `e` of any file. */
  ghost predicate Below(m: Spec, e: nat) {
    forall q | q in m :: ViewBelow(m[q], e)
  }

  /** A write ends at or below offset `e`, and its buffer is no longer than a buffer can be. */
  predicate CallFits(call: Call, e: nat) {
    call.Write? ==> call.offset + |call.buf| <= e && |call.buf| <= OFF_MAX
  }

  /** How much a call may add to the snapshot file when all files end at or below `e`. */
  function Cost(call: Call, e: nat): nat {
    if call.Write? then e else 0
  }

  function TotalCost(calls: seq<Call>, e: nat): nat {
    if calls == [] then 0 else Cost(calls[0], e) + TotalCost(calls[1..], e)
  }

  /** All files end at or below `e`, and a snapshot file that reaches to `len` has room for the call. */
  ghost predicate Fits(m: Spec, len: nat, call: Call, e: nat) {
    Below(m, e) && CallFits(call, e) && len + Cost(call, e) <= OFF_MAX
  }

  /** All files end at or below `e`, and a snapshot file that reaches to `len` has room for the calls. */
  ghost predicate RoomFor(m: Spec, len: nat, calls: seq<Call>, e: nat) {
    Below(m, e) && (forall c | c in calls :: CallFits(c, e)) && len + TotalCost(calls, e) <= OFF_MAX
  }

  ghost predicate Enough(m: Spec, len: nat, calls: seq<Call>) {
    exists e: nat :: RoomFor(m, len, calls, e)
  }

  /** No call makes a file longer than the calls allow for. */
  lemma EffectBelow(m: Spec, call: Call, e: nat)
    requires Below(m, e) && CallFits(call, e) && Effect(m, call).Some?
    ensures Below(Effect(m, call).value, e)
  {
  }

  lemma EnoughFits(m: Spec, len: nat, calls: seq<Call>) returns (e: nat)
    requires calls != [] && Enough(m, len, calls)
    ensures RoomFor(m, len, calls, e) && Fits(m, len, calls[0], e)
  {
    e :| RoomFor(m, len, calls, e);
  }

  lemma EnoughLeft(m: Spec, len: nat, calls: seq<Call>, e: nat, len': nat)
    requires calls != [] && RoomFor(m, len, calls, e) && Effect(m, calls[0]).Some? && len' <= len + Cost(calls[0], e)
    ensures Enough(Effect(m, calls[0]).value, len', calls[1..])
  {
    EffectBelow(m, calls[0], e);
    hide Below, Effect, CallFits;
    assert RoomFor(Effect(m, calls[0]).value, len', calls[1..], e);
  }
}
