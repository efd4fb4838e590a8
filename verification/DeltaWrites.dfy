/**
 Writes that are sent as the difference to what the file held: the server trims the bytes that do not change,
 a replica with the same file puts them back.
 */
module DeltaWrites {
  import opened Wrappers
  import opened Extents
  import opened XorBuffers

  datatype Call = Write(buf: seq<Byte>, offset: nat) | DiffWrite(buf: seq<Byte>, offset: nat)

  /** The file of a replica after the call. */
  function Replayed(file: seq<Byte>, call: Call): seq<Byte> {
    match call
    case Write(buf, offset) => WriteAt(file, offset, buf)
    case DiffWrite(buf, offset) => WriteAt(file, offset, Xored(buf, Overlap(file, offset, |buf|)))
  }

  predicate AllZero(s: seq<Byte>) {
    forall i | 0 <= i < |s| :: s[i] == 0
  }

  lemma SameFile(a: seq<Byte>, b: seq<Byte>)
    requires |a| == |b| && forall p: nat :: At(a, p) == At(b, p)
    ensures a == b
  {
    forall p: nat | p < |a| ensures a[p] == b[p] { assert At(a, p) == At(b, p); }
  }

  // ---------------------------------------------------------------- trimming

  /** The difference `data` makes to the file, trimmed to the bytes `lead..end`. Outside of them nothing
      changes, and no byte is dropped that would extend the file. */
  ghost predicate Trims(file: seq<Byte>, offset: nat, data: seq<Byte>, lead: nat, end: nat) {
    var lap := Overlap(file, offset, |data|);
    var x := Xored(data, lap);
    && lead <= end <= |data| && (end == |data| || |lap| == |data|)
    && (forall i | 0 <= i < lead :: x[i] == 0) && (forall i | end <= i < |data| :: x[i] == 0)
  }

  /** A read of a part of the range returns that part of what a read of the range returns. */
  lemma OverlapPart(file: seq<Byte>, offset: nat, len: nat, lead: nat, end: nat, i: nat)
    requires lead <= i < end <= len
    ensures var lap, part := Overlap(file, offset, len), Overlap(file, offset + lead, end - lead);
      (i < |lap| <==> i - lead < |part|) && (i < |lap| ==> part[i - lead] == lap[i])
  {
  }

  /** A byte of the difference, combined with what the replica's file holds, is the byte to be written. */
  lemma PatchedByte(file: seq<Byte>, offset: nat, data: seq<Byte>, lead: nat, end: nat, i: nat)
    requires lead <= i < end <= |data|
    ensures var delta := Xored(data, Overlap(file, offset, |data|))[lead..end];
      Xored(delta, Overlap(file, offset + lead, |delta|))[i - lead] == data[i]
  {
    hide Overlap, Xored, Combine;
    var lap := Overlap(file, offset, |data|);
    OverlapPart(file, offset, |data|, lead, end, i);
    if i < |lap| { ByteXor(data[i], lap[i]); }
  }

  /** A byte that the difference leaves out is in the file already. */
  lemma UnchangedByte(file: seq<Byte>, offset: nat, data: seq<Byte>, lead: nat, end: nat, i: nat)
    requires Trims(file, offset, data, lead, end) && i < |data| && !(lead <= i < end)
    ensures At(file, offset + i) == data[i]
  {
    hide Overlap, Xored, Combine;
    var lap := Overlap(file, offset, |data|);
    assert Xored(data, lap)[i] == 0;
    if i < |lap| { ByteXor(data[i], lap[i]); }
  }

  lemma ReplayedByte(file: seq<Byte>, offset: nat, delta: seq<Byte>, p: nat)
    ensures At(Replayed(file, DiffWrite(delta, offset)), p) ==
      if offset <= p < offset + |delta| then Xored(delta, Overlap(file, offset, |delta|))[p - offset] else At(file, p)
  {
    hide Overlap, Xored, WriteAt, At, Combine;
  }

  lemma WrittenByte(file: seq<Byte>, offset: nat, data: seq<Byte>, p: nat)
    ensures At(WriteAt(file, offset, data), p) ==
              if offset <= p < offset + |data| then data[p - offset] else At(file, p)
  {
  }

  /** One byte of the replica's file. */
  lemma TrimmedByte(file: seq<Byte>, offset: nat, data: seq<Byte>, lead: nat, end: nat, p: nat)
    requires Trims(file, offset, data, lead, end) && lead < end <= |data|
    ensures var delta := Xored(data, Overlap(file, offset, |data|))[lead..end];
      At(Replayed(file, DiffWrite(delta, offset + lead)), p) == At(WriteAt(file, offset, data), p)
  {
    hide *;
    var delta := Xored(data, Overlap(file, offset, |data|))[lead..end];
    if offset + lead <= p < offset + end { PatchedByte(file, offset, data, lead, end, p - offset); }
    if offset <= p < offset + |data| && !(offset + lead <= p < offset + end) {
      UnchangedByte(file, offset, data, lead, end, p - offset);
    }
    ReplayedByte(file, offset + lead, delta, p);
    WrittenByte(file, offset, data, p);
  }

  /** What is left after trimming means the same as the write, as long as something is left. */
  lemma TrimmedMeans(file: seq<Byte>, offset: nat, data: seq<Byte>, lead: nat, end: nat)
    requires Trims(file, offset, data, lead, end) && lead < end
    ensures var delta := Xored(data, Overlap(file, offset, |data|))[lead..end];
      Replayed(file, DiffWrite(delta, offset + lead)) == WriteAt(file, offset, data)
  {
    var delta := Xored(data, Overlap(file, offset, |data|))[lead..end];
    forall p: nat ensures At(Replayed(file, DiffWrite(delta, offset + lead)), p) == At(WriteAt(file, offset, data), p) {
      TrimmedByte(file, offset, data, lead, end, p);
    }
    SameFile(Replayed(file, DiffWrite(delta, offset + lead)), WriteAt(file, offset, data));
  }

  ghost predicate LeadingRun(s: seq<Byte>, n: nat) {
    n <= |s| && (forall i | 0 <= i < n :: s[i] == 0) && (n < |s| ==> s[n] != 0)
  }

  ghost predicate TrailingRun(s: seq<Byte>, n: nat) {
    n <= |s| && (forall i | |s| - n <= i < |s| :: s[i] == 0) && (n < |s| ==> s[|s| - n - 1] != 0)
  }

  /** The difference to the file without the zeroes at its ends, but with all zeroes that lie past the end of
      the file. */
  ghost predicate Trimmed(x: seq<Byte>, whole: bool, delta: seq<Byte>, lead: nat) {
    && lead + |delta| <= |x| && delta == x[lead..lead + |delta|]
    && AllZero(x[..lead]) && AllZero(x[lead + |delta|..])
    && (delta != [] ==> delta[0] != 0 && (whole ==> delta[|delta| - 1] != 0))
    && (!whole ==> lead + |delta| == |x|)
  }

  method LeadingZeroes(s: array<Byte>) returns (n: nat)
    ensures LeadingRun(s[..], n)
  {
    n := 0;
    while n < s.Length && s[n] == 0
      invariant n <= s.Length && forall i | 0 <= i < n :: s[i] == 0
    {
      n := n + 1;
    }
  }

  method TrailingZeroes(s: array<Byte>) returns (n: nat)
    ensures TrailingRun(s[..], n)
  {
    n := 0;
    while n < s.Length && s[s.Length - n - 1] == 0
      invariant n <= s.Length && forall i | s.Length - n <= i < s.Length :: s[i] == 0
    {
      n := n + 1;
    }
  }

  // ---------------------------------------------------------------- the server

  /** The counts of zeroes at either end cross exactly when there is nothing else. */
  lemma RunsCross(s: seq<Byte>, leading: nat, trailing: nat)
    requires LeadingRun(s, leading) && TrailingRun(s, trailing) && s != []
    ensures trailing <= |s| && (leading > |s| - trailing <==> AllZero(s))
    ensures !AllZero(s) ==> leading < |s| - trailing
  {
    if leading < |s| && trailing < |s| {
      assert s[leading] != 0 && s[|s| - trailing - 1] != 0;
    }
  }

  lemma NoneTrailing(s: seq<Byte>, leading: nat)
    requires LeadingRun(s, leading)
    ensures leading <= |s| && (leading == |s| <==> AllZero(s))
  {
  }

  lemma RunsTrim(file: seq<Byte>, offset: nat, data: seq<Byte>, leading: nat, trailing: nat)
    requires var lap := Overlap(file, offset, |data|);
      var x := Xored(data, lap);
      LeadingRun(x, leading) && if |lap| == |data| then TrailingRun(x, trailing) else trailing == 0
    requires leading <= |data| - trailing
    ensures Trims(file, offset, data, leading, |data| - trailing)
  {
    hide Overlap, Xored, Combine;
  }

  lemma RunsTrimmed(x: seq<Byte>, whole: bool, leading: nat, trailing: nat)
    requires LeadingRun(x, leading) && (if whole then TrailingRun(x, trailing) else trailing == 0)
    requires leading <= |x| - trailing
    ensures Trimmed(x, whole, x[leading..|x| - trailing], leading)
  {
  }

  /** What is sent after the zeroes at the ends were counted. */
  lemma SentMeans(file: seq<Byte>, offset: nat, data: seq<Byte>, leading: nat, trailing: nat)
    requires var lap := Overlap(file, offset, |data|);
      var x := Xored(data, lap);
      lap != [] && LeadingRun(x, leading) && if |lap| == |data| then TrailingRun(x, trailing) else trailing == 0
    ensures var lap := Overlap(file, offset, |data|);
      var x := Xored(data, lap);
      && trailing <= |data| && (leading > |data| - trailing <==> AllZero(x) && |lap| == |data|)
      && (leading <= |data| - trailing ==>
           var delta := x[leading..|data| - trailing];
           && Trimmed(x, |lap| == |data|, delta, leading) && (delta == [] <==> AllZero(x))
           && (Replayed(file, DiffWrite(delta, offset + leading)) ==
                if AllZero(x) then file else WriteAt(file, offset, data))
           && (AllZero(x) ==> file != WriteAt(file, offset, data)))
  {
    hide *;
    var lap := Overlap(file, offset, |data|);
    var x := Xored(data, lap);
    if |lap| == |data| {
      RunsCross(x, leading, trailing);
    } else {
      NoneTrailing(x, leading);
    }
    if leading <= |data| - trailing {
      RunsTrim(file, offset, data, leading, trailing);
      RunsTrimmed(x, |lap| == |data|, leading, trailing);
    }
    if leading < |data| - trailing {
      TrimmedMeans(file, offset, data, leading, |data| - trailing);
    } else if leading == |data| - trailing {
      EmptyWrite(file, offset + leading);
      WriteExtends(file, offset, data);
    }
  }

  /** `do_write`: the call that is sent to the replicas, `None` when the slice of the buffer panics; and
      the file of the server afterwards. A difference is computed in place. */
  method DoWrite(buf: array<Byte>, file: seq<Byte>, offset: nat, diffWrites: bool)
    returns (call: Option<Call>, file': seq<Byte>)
    modifies buf
    ensures var data, lap := old(buf[..]), Overlap(file, offset, buf.Length);
      if !diffWrites || lap == [] then
        call == Some(Write(data, offset)) && file' == WriteAt(file, offset, data) && buf[..] == data
      else
        && buf[..] == Xored(data, lap)
        && (call.None? <==> AllZero(buf[..]) && |lap| == |data|)
        && (call.None? ==> file' == file)
        && (call.Some? ==>
             && call.value.DiffWrite? && file' == WriteAt(file, offset, buf[..])
             && offset <= call.value.offset
             && Trimmed(buf[..], |lap| == |data|, call.value.buf, call.value.offset - offset)
             && Replayed(file, call.value) == (if AllZero(buf[..]) then file else WriteAt(file, offset, data))
             && (Replayed(file, call.value) == WriteAt(file, offset, data) <==> !AllZero(buf[..])))
  {
    hide *;
    ghost var data := buf[..];
    var lap := Overlap(file, offset, buf.Length);
    if !diffWrites || lap == [] {
      return Some(Write(buf[..], offset)), WriteAt(file, offset, buf[..]);
    }
    XorBuf(buf, lap);
    var leading := LeadingZeroes(buf);
    var trailing := 0;
    if |lap| == buf.Length {
      trailing := TrailingZeroes(buf);
    }
    SentMeans(file, offset, data, leading, trailing);
    if leading > buf.Length - trailing {
      return None, file;
    }
    call := Some(DiffWrite(buf[..][leading..buf.Length - trailing], offset + leading));
    file' := WriteAt(file, offset, buf[..]);
  }

  lemma EmptyWrite(file: seq<Byte>, offset: nat)
    ensures Replayed(file, DiffWrite([], offset)) == file
  {
    SameFile(WriteAt(file, offset, []), file);
  }

  /** A write past the end of the file makes it longer. */
  lemma WriteExtends(file: seq<Byte>, offset: nat, data: seq<Byte>)
    requires |Overlap(file, offset, |data|)| < |data|
    ensures WriteAt(file, offset, data) != file
  {
  }

  lemma SameData(data: seq<Byte>, lap: seq<Byte>)
    requires |lap| <= |data| && AllZero(lap)
    ensures Xored(data, lap) == data
  {
    forall i | 0 <= i < |data| ensures Xored(data, lap)[i] == data[i] {
      XorChanges(data[i], 0);
      hide Combine;
    }
  }

  lemma OtherByte(file: seq<Byte>, offset: nat, data: seq<Byte>, lap: seq<Byte>, i: nat)
    requires i < |lap| <= |data| && lap[i] != 0
    ensures WriteAt(file, offset, Xored(data, lap)) != WriteAt(file, offset, data)
  {
    XorChanges(data[i], lap[i]);
    hide *;
    WrittenByte(file, offset, Xored(data, lap), offset + i);
    WrittenByte(file, offset, data, offset + i);
  }

  /** The server writes the difference to its own file, which is what was asked for exactly when the range
      held zeroes. */
  lemma OwnFileIntact(file: seq<Byte>, offset: nat, data: seq<Byte>)
    ensures var lap := Overlap(file, offset, |data|);
      WriteAt(file, offset, Xored(data, lap)) == WriteAt(file, offset, data) <==> AllZero(lap)
  {
    var lap := Overlap(file, offset, |data|);
    if AllZero(lap) {
      hide *;
      SameData(data, lap);
    } else {
      var i :| 0 <= i < |lap| && lap[i] != 0;
      hide *;
      OtherByte(file, offset, data, lap, i);
    }
  }

  lemma XorChanges(a: Byte, b: Byte)
    ensures b != 0 <==> Combine(a, b) != a
  {
  }

  // ---------------------------------------------------------------- the replica

  /** The replica's side of a difference: reads what the range holds, combines it in place, writes it back. */
  method DispatchDiff(file: seq<Byte>, buf: seq<Byte>, offset: nat) returns (file': seq<Byte>)
    ensures file' == Replayed(file, DiffWrite(buf, offset))
  {
    hide Combine;
    var lap := Overlap(file, offset, |buf|);
    var oldBuf := new Byte[|buf|](i => 0);
    for i := 0 to |lap|
      invariant forall j | 0 <= j < i :: oldBuf[j] == lap[j]
    {
      oldBuf[i] := lap[i];
    }
    XorBuf(oldBuf, buf[..|lap|]);
    for i := |lap| to |buf|
      invariant forall j | 0 <= j < |lap| :: oldBuf[j] == Combine(lap[j], buf[j])
      invariant forall j | |lap| <= j < i :: oldBuf[j] == buf[j]
    {
      oldBuf[i] := buf[i];
    }
    forall j | 0 <= j < |lap| ensures oldBuf[j] == Combine(buf[j], lap[j]) { ByteXor(buf[j], lap[j]); }
    assert oldBuf[..] == Xored(buf, lap);
    file' := WriteAt(file, offset, oldBuf[..]);
  }
}
