/** The size-rotated log writer of devloop (server/cmd/devloop/rotate.go).

    A log directory is a map from slot to content: slot 0 is the active file `path`, slot i is the
    backup `path.i`. `Feed` says where one chunk is cut, `WriteDisk` what that does to the slots, and
    `RotatingWriter` is the writer itself, proved against `WriteDisk`. What the cuts and the slots
    promise over whole runs is proved in rotating_log_theorems.dfy. */
module RotatingLog {
  import opened Options

  newtype byte = x: int | 0 <= x < 256

  const NEWLINE: byte := 10
  const DEFAULT_MAX_SIZE: nat := 20 * 0x10_0000

  type Bytes = seq<byte>
  type Disk = map<nat, Bytes>

  /** The files a stream has been cut into: the closed ones in order, then the active one. */
  datatype Log = Log(closed: seq<Bytes>, active: Bytes)

  const EMPTY_LOG := Log([], [])

  /** The index of the first newline at or after `from`, or -1. */
  function IndexNewline(data: Bytes, from: nat): (i: int)
    requires from <= |data|
    ensures -1 <= i < |data|
    ensures i >= 0 ==> from <= i && data[i] == NEWLINE && forall j :: from <= j < i ==> data[j] != NEWLINE
    ensures i < 0 ==> forall j :: from <= j < |data| ==> data[j] != NEWLINE
    decreases |data| - from
  {
    if from == |data| then -1
    else if data[from] == NEWLINE then from
    else IndexNewline(data, from + 1)
  }

  function Max(a: int, b: int): int {
    if a >= b then a else b
  }

  /** Where the active file, holding `size` bytes, must rotate within `data`; -1 when all of it fits. */
  function RotationCut(max: nat, size: nat, data: Bytes): (cut: int)
    ensures cut == -1 || cut >= 0
    ensures data != [] && cut != -1 ==> 1 <= cut <= |data|
    ensures size < 2 * max && cut == -1 ==> size + |data| < 2 * max
  {
    var remaining := max - size;
    if |data| < remaining then -1
    else
      var searchFrom := Max(remaining - 1, 0);
      var idx := IndexNewline(data, searchFrom);
      if idx >= 0 then idx + 1
      else
        var hardRemaining := 2 * max - size;
        if |data| < hardRemaining then -1 else Max(hardRemaining, 1)
  }

  /** One Write: the chunk is cut until the rest fits. */
  function Feed(max: nat, log: Log, data: Bytes): Log
    decreases |data|
  {
    if data == [] then log
    else
      var cut := RotationCut(max, |log.active|, data);
      if cut < 0 then log.(active := log.active + data)
      else Feed(max, Log(log.closed + [log.active + data[..cut]], []), data[cut..])
  }

  /** shiftBackups: path.i moves to path.(i+1) for i < backups, path to path.1, the oldest is dropped.
      Slots past `backups`, left by a session configured with more of them, are not touched. */
  function Shift(disk: Disk, backups: nat): Disk {
    map i | i in disk.Keys + Successors(disk.Keys) && SlotFilled(disk, backups, i)
      :: if i <= backups then disk[i - 1] else disk[i]
  }

  function Successors(slots: set<nat>): set<nat> {
    set i | i in slots :: i + 1
  }

  /** os.Rename: the target is replaced; nothing happens when the source is missing. */
  function Renamed(disk: Disk, from: nat, to: nat): Disk {
    if from in disk then disk[to := disk[from]] - {from} else disk
  }

  /** Which slots hold a file after a shift. */
  predicate SlotFilled(disk: Disk, backups: nat, i: nat) {
    if i <= backups then 1 <= i && i - 1 in disk else i in disk
  }

  /** One Write as the directory sees it. */
  function WriteDisk(max: nat, backups: nat, disk: Disk, data: Bytes): (after: Disk)
    requires 0 in disk
    ensures 0 in after
    decreases |data|
  {
    if data == [] then disk
    else
      var cut := RotationCut(max, |disk[0]|, data);
      if cut < 0 then disk[0 := disk[0] + data]
      else WriteDisk(max, backups, Shift(disk[0 := disk[0] + data[..cut]], backups)[0 := []], data[cut..])
  }

  /** How many of `length` bytes a write leaves in the file. */
  function Landed(failing: Option<nat>, length: nat): (n: nat)
    ensures n <= length && (failing.None? ==> n == length)
  {
    if failing.None? || failing.value > length then length else failing.value
  }

  /** The directory after a write to the active file. */
  function Appended(disk: Disk, data: Bytes, failing: Option<nat>): Disk
    requires 0 in disk
  {
    disk[0 := disk[0] + data[..Landed(failing, |data|)]]
  }

  /** The directory after a piece was written to the active file and, unless that failed, rotated away. */
  function Rotated(backups: nat, disk: Disk, piece: Bytes, failing: Option<nat>, reopened: bool): Disk
    requires 0 in disk
  {
    if failing.Some? then Appended(disk, piece, failing)
    else Reopened(Shift(disk[0 := disk[0] + piece], backups), reopened)
  }

  function Reopened(disk: Disk, reopened: bool): Disk {
    if reopened then disk[0 := []] else disk
  }

  /** The first k bytes of the chunk have led to `now`: any longer prefix goes on from there. */
  ghost predicate Written(max: nat, backups: nat, disk: Disk, chunk: Bytes, k: nat, now: Disk) {
    && 0 in disk && 0 in now && k <= |chunk|
    && forall m: nat | k <= m <= |chunk| :: GoesOn(max, backups, disk, chunk, k, now, m)
  }

  ghost predicate GoesOn(max: nat, backups: nat, disk: Disk, chunk: Bytes, k: nat, now: Disk, m: nat)
    requires 0 in disk && 0 in now && k <= m <= |chunk|
  {
    WriteDisk(max, backups, disk, chunk[..m]) == WriteDisk(max, backups, now, chunk[k..m])
  }

  /** The writer gave up after the first k bytes: the active file could not be created again, or a write to
      it failed and left only the bytes up to w. */
  ghost predicate Abandoned(max: nat, backups: nat, disk: Disk, chunk: Bytes, k: nat, w: nat, now: Disk) {
    && 0 in disk && k <= w <= |chunk|
    && var done := WriteDisk(max, backups, disk, chunk[..k]);
       now == done - {0} || now == done[0 := done[0] + chunk[k..w]]
  }

  /** A cut depends on nothing past it. */
  lemma CutOfPrefix(max: nat, size: nat, data: Bytes, m: nat)
    requires data != [] && 0 <= RotationCut(max, size, data) <= m <= |data|
    ensures RotationCut(max, size, data[..m]) == RotationCut(max, size, data)
  {
  }

  lemma PrefixCut(max: nat, backups: nat, now: Disk, data: Bytes, m: nat)
    requires 0 in now && data != [] && 0 <= RotationCut(max, |now[0]|, data) <= m <= |data|
    ensures var cut := RotationCut(max, |now[0]|, data);
            var next := Shift(now[0 := now[0] + data[..cut]], backups)[0 := []];
            WriteDisk(max, backups, now, data[..m]) == WriteDisk(max, backups, next, data[cut..m])
  {
    var cut := RotationCut(max, |now[0]|, data);
    CutOfPrefix(max, |now[0]|, data, m);
    assert data[..m][..cut] == data[..cut] && data[..m][cut..] == data[cut..m];
  }

  lemma WrittenNext(max: nat, backups: nat, disk: Disk, chunk: Bytes, k: nat, now: Disk, cut: nat, next: Disk)
    requires Written(max, backups, disk, chunk, k, now) && k < |chunk|
    requires cut == RotationCut(max, |now[0]|, chunk[k..])
    requires next == Shift(now[0 := now[0] + chunk[k..][..cut]], backups)[0 := []]
    ensures Written(max, backups, disk, chunk, k + cut, next)
    ensures WriteDisk(max, backups, disk, chunk[..k + cut]) == next
  {
    var end := k + cut;
    forall m: nat | end <= m <= |chunk| ensures GoesOn(max, backups, disk, chunk, end, next, m) {
      assert GoesOn(max, backups, disk, chunk, k, now, m);
      assert chunk[k..m] == chunk[k..][..m - k] && chunk[k..][cut..m - k] == chunk[k + cut..m];
      PrefixCut(max, backups, now, chunk[k..], m - k);
    }
    assert GoesOn(max, backups, disk, chunk, end, next, end);
  }

  /** A failed write leaves the bytes that landed. */
  lemma FailedWrite(
    max: nat, backups: nat, disk: Disk, chunk: Bytes, k: nat, now: Disk, piece: Bytes, failing: Option<nat>,
    after: Disk)
    requires Written(max, backups, disk, chunk, k, now)
    requires |piece| <= |chunk| - k && piece == chunk[k..][..|piece|]
    requires after == Appended(now, piece, failing)
    ensures Abandoned(max, backups, disk, chunk, k, k + Landed(failing, |piece|), after)
  {
    var n := Landed(failing, |piece|);
    assert GoesOn(max, backups, disk, chunk, k, now, k) && chunk[k..k] == [];
    assert piece[..n] == chunk[k..k + n];
  }

  lemma RotatedNext(
    max: nat, backups: nat, disk: Disk, chunk: Bytes, k: nat, now: Disk, cut: nat, piece: Bytes, reopened: bool,
    after: Disk)
    requires Written(max, backups, disk, chunk, k, now) && k < |chunk|
    requires cut == RotationCut(max, |now[0]|, chunk[k..]) && piece == chunk[k..][..cut]
    requires after == Reopened(Shift(now[0 := now[0] + piece], backups), reopened)
    ensures if reopened then Written(max, backups, disk, chunk, k + cut, after)
            else Abandoned(max, backups, disk, chunk, k + cut, k + cut, after)
  {
    var shifted := Shift(now[0 := now[0] + piece], backups);
    WrittenNext(max, backups, disk, chunk, k, now, cut, shifted[0 := []]);
    assert shifted[0 := []] - {0} == shifted;
  }

  /** Writing the next piece and rotating brings the writer to the next cut, or makes it give up. */
  lemma PieceWritten(
    max: nat, backups: nat, disk: Disk, chunk: Bytes, k: nat, now: Disk, cut: nat, piece: Bytes,
    failing: Option<nat>, reopened: bool, after: Disk) returns (j: nat, w: nat)
    requires Written(max, backups, disk, chunk, k, now) && k < |chunk|
    requires cut == RotationCut(max, |now[0]|, chunk[k..]) && piece == chunk[k..][..cut]
    requires after == Rotated(backups, now, piece, failing, reopened)
    ensures if failing.None? && reopened then Written(max, backups, disk, chunk, k + cut, after)
            else Abandoned(max, backups, disk, chunk, j, w, after)
  {
    if failing.Some? {
      j, w := k, k + Landed(failing, cut);
      FailedWrite(max, backups, disk, chunk, k, now, piece, failing, after);
    } else {
      j, w := k + cut, k + cut;
      RotatedNext(max, backups, disk, chunk, k, now, cut, piece, reopened, after);
    }
  }

  /** The rest of the chunk fits. */
  lemma WrittenLast(max: nat, backups: nat, disk: Disk, chunk: Bytes, k: nat, now: Disk)
    requires Written(max, backups, disk, chunk, k, now)
    requires chunk[k..] != [] ==> RotationCut(max, |now[0]|, chunk[k..]) < 0
    ensures WriteDisk(max, backups, disk, chunk)
            == if chunk[k..] == [] then now else Appended(now, chunk[k..], None)
  {
    assert GoesOn(max, backups, disk, chunk, k, now, |chunk|);
    assert chunk[..|chunk|] == chunk && chunk[k..|chunk|] == chunk[k..];
    assert chunk[k..][..|chunk| - k] == chunk[k..];
  }

  class RotatingWriter {
    const maxSize: nat
    const backups: nat
    const openable: nat -> bool       // what os.OpenFile answers each time it is asked
    const failing: nat -> Option<nat> // after how many bytes each os.File.Write fails, if it does
    var opens: nat                    // how many times they were
    var writes: nat
    var disk: Disk
    var open: bool // w.file != nil
    var size: nat

    ghost predicate Valid()
      reads this
    {
      && 1 <= maxSize
      && (open ==> 0 in disk && |disk[0]| == size && size < 2 * maxSize)
    }

    constructor (
      requestedMax: int, requestedBackups: int, found: Disk, openable: nat -> bool,
      failing: nat -> Option<nat>)
      ensures Valid()
      ensures maxSize == if requestedMax <= 0 then 20_971_520 else requestedMax
      ensures backups == if requestedBackups < 0 then 0 else requestedBackups
      ensures this.openable == openable && this.failing == failing && writes == 0 && opens == 1 && open == openable(0)
      ensures var kept := if 0 in found && found[0] != [] then Shift(found, backups) else found;
              disk == if open then kept[0 := []] else kept
    {
      maxSize := if requestedMax <= 0 then DEFAULT_MAX_SIZE else requestedMax;
      backups := if requestedBackups < 0 then 0 else requestedBackups;
      this.openable, this.failing := openable, failing;
      disk := found;
      open := false;
      size := 0;
      opens, writes := 0, 0;
      new;
      if 0 in disk && |disk[0]| > 0 {
        ShiftBackups();
      }
      Open();
    }

    /** Truncates and creates the active file; a failure leaves the writer disabled. */
    method Open()
      requires 1 <= maxSize
      modifies `disk, `open, `size, `opens
      ensures Valid()
      ensures opens == old(opens) + 1 && open == openable(old(opens))
      ensures disk == if open then old(disk)[0 := []] else old(disk)
    {
      open := openable(opens);
      opens := opens + 1;
      if open {
        disk := disk[0 := []];
        size := 0;
      }
    }

    /** The renames of rotate.go:138-148, one slot at a time. */
    method ShiftBackups()
      modifies `disk
      ensures disk == Shift(old(disk), backups)
    {
      RenamesShift(disk, backups);
      if backups < 1 {
        disk := disk - {0};
        return;
      }
      disk := disk - {backups};
      ghost var start := disk;
      var i := backups - 1;
      while i >= 1
        invariant 0 <= i < backups
        invariant RenamesFrom(disk, i) == RenamesFrom(start, backups - 1)
      {
        Rename(i, i + 1);
        i := i - 1;
      }
      Rename(0, 1);
    }

    method Rename(from: nat, to: nat)
      requires from != to
      modifies `disk
      ensures disk == Renamed(old(disk), from, to)
    {
      if from in disk {
        disk := disk[to := disk[from]] - {from};
      }
    }

    method Rotate()
      requires 1 <= maxSize
      modifies `disk, `open, `size, `opens
      ensures Valid()
      ensures !old(open) ==> disk == old(disk) && !open && opens == old(opens)
      ensures old(open) ==> opens == old(opens) + 1 && open == openable(old(opens))
      ensures old(open) ==>
                var shifted := Shift(old(disk), backups); disk == if open then shifted[0 := []] else shifted
    {
      if !open {
        return;
      }
      open := false;
      ShiftBackups();
      Open();
    }

    /** Every reopening and every write between the counts succeeded. */
    ghost predicate NoFailure(fromOpen: nat, toOpen: nat, fromWrite: nat, toWrite: nat) {
      && (forall i | fromOpen <= i < toOpen :: openable(i))
      && (forall i | fromWrite <= i < toWrite :: failing(i).None?)
    }

    /** Always reports the whole chunk as written, whatever happens to the file. When a write or a reopening
        fails, the writer is disabled, with the directory the bytes before that had led to. */
    method Write(chunk: Bytes) returns (n: nat)
      requires Valid()
      modifies `disk, `open, `size, `opens, `writes
      ensures Valid()
      ensures n == |chunk|
      ensures old(opens) <= opens && old(writes) <= writes
      ensures open <==> old(open) && NoFailure(old(opens), opens, old(writes), writes)
      ensures !old(open) ==> disk == old(disk) && opens == old(opens) && writes == old(writes)
      ensures open ==> disk == WriteDisk(maxSize, backups, old(disk), chunk)
      ensures old(open) && !open ==> exists k, w :: Abandoned(maxSize, backups, old(disk), chunk, k, w, disk)
    {
      var data := chunk;
      ghost var k: nat, j: nat, w: nat := 0, 0, 0;
      ghost var was := disk;
      assert open ==> Written(maxSize, backups, disk, chunk, 0, disk);
      while |data| > 0 && open
        invariant Valid() && old(opens) <= opens && old(writes) <= writes
        invariant k <= |chunk| && data == chunk[k..]
        invariant open <==> old(open) && NoFailure(old(opens), opens, old(writes), writes)
        invariant !old(open) ==> disk == was && opens == old(opens) && writes == old(writes)
        invariant open ==> Written(maxSize, backups, was, chunk, k, disk)
        invariant old(open) && !open ==> Abandoned(maxSize, backups, was, chunk, j, w, disk)
        decreases |data|
      {
        var cut := RotationCut(maxSize, size, data);
        if cut < 0 {
          j, w := WriteLast(data, was, chunk, k);
          return |chunk|;
        }
        j, w := WriteAndRotate(data, cut, was, chunk, k);
        data := data[cut..];
        k := k + cut;
      }
      if open {
        WrittenLast(maxSize, backups, was, chunk, k, disk);
      }
      n := |chunk|;
    }

    /** The rotating half of Write's loop body. */
    method WriteAndRotate(data: Bytes, cut: nat, ghost was: Disk, ghost chunk: Bytes, ghost k: nat)
      returns (ghost j: nat, ghost w: nat)
      requires Valid() && open && Written(maxSize, backups, was, chunk, k, disk)
      requires data == chunk[k..] && data != [] && cut == RotationCut(maxSize, size, data)
      modifies `disk, `open, `size, `opens, `writes
      ensures Valid() && old(opens) <= opens && old(writes) <= writes
      ensures open <==> NoFailure(old(opens), opens, old(writes), writes)
      ensures open ==> Written(maxSize, backups, was, chunk, k + cut, disk)
      ensures !open ==> Abandoned(maxSize, backups, was, chunk, j, w, disk)
    {
      ghost var now, fails, reopened := disk, failing(writes), openable(opens);
      WritePiece(data[..cut]);
      j, w := PieceWritten(maxSize, backups, was, chunk, k, now, cut, data[..cut], fails, reopened, disk);
    }

    method WritePiece(piece: Bytes)
      requires Valid() && open
      modifies `disk, `open, `size, `opens, `writes
      ensures Valid() && writes == old(writes) + 1
      ensures opens == old(opens) + if failing(old(writes)).None? then 1 else 0
      ensures open == (failing(old(writes)).None? && openable(old(opens)))
      ensures disk == Rotated(backups, old(disk), piece, failing(old(writes)), openable(old(opens)))
    {
      WriteFile(piece);
      assert piece[..|piece|] == piece;
      Rotate();
    }

    /** The half where the rest fits. */
    method WriteLast(data: Bytes, ghost was: Disk, ghost chunk: Bytes, ghost k: nat)
      returns (ghost j: nat, ghost w: nat)
      requires Valid() && open && Written(maxSize, backups, was, chunk, k, disk)
      requires data == chunk[k..] && data != [] && RotationCut(maxSize, size, data) < 0
      modifies `disk, `open, `size, `writes
      ensures Valid() && writes == old(writes) + 1
      ensures open == failing(old(writes)).None?
      ensures open ==> disk == WriteDisk(maxSize, backups, was, chunk)
      ensures !open ==> Abandoned(maxSize, backups, was, chunk, j, w, disk)
    {
      WrittenLast(maxSize, backups, was, chunk, k, disk);
      ghost var now, fails := disk, failing(writes);
      WriteFile(data);
      FailedWrite(maxSize, backups, was, chunk, k, now, data, fails, disk);
      j, w := k, k + Landed(fails, |data|);
    }

    /** Appends what the write takes, and disables the writer when it fails. */
    method WriteFile(data: Bytes)
      requires open && 0 in disk && |disk[0]| == size
      modifies `disk, `size, `open, `writes
      ensures writes == old(writes) + 1 && open == failing(old(writes)).None?
      ensures disk == Appended(old(disk), data, failing(old(writes)))
      ensures size == |disk[0]|
      ensures var fails := failing(old(writes));
              size == old(size) + if fails.None? || fails.value > |data| then |data| else fails.value
    {
      var written := Landed(failing(writes), |data|);
      disk := disk[0 := disk[0] + data[..written]];
      size := size + written;
      open := failing(writes).None?;
      writes := writes + 1;
    }
  }

  /** The renames from the oldest slot down to slot i + 1 are done: those slots have moved up by one,
      slot i + 1 is free, and the slots up to i and past `backups` are as they were in `was`. */
  ghost predicate Shifting(disk: Disk, was: Disk, backups: nat, i: int) {
    forall s: nat {:trigger s in disk} ::
      var moved := i < s <= backups;
      && (s in disk <==> if moved then s != i + 1 && s - 1 in was else s in was)
      && (s in disk ==> disk[s] == if moved then was[s - 1] else was[s])
  }

  lemma ShiftingStep(disk: Disk, was: Disk, backups: nat, i: nat)
    requires i < backups && Shifting(disk, was, backups, i)
    ensures Shifting(Renamed(disk, i, i + 1), was, backups, i - 1)
  {
    var next := Renamed(disk, i, i + 1);
    assert i + 1 !in disk;
    forall s: nat
      ensures s in next <==> if s == i then false else if s == i + 1 then i in disk else s in disk
      ensures s in next ==> next[s] == if s == i + 1 then disk[i] else disk[s]
    {
    }
  }

  /** The renames of slots i down to 0, each to the slot above. */
  function RenamesFrom(disk: Disk, i: nat): Disk
    decreases i
  {
    var next := Renamed(disk, i, i + 1);
    if i == 0 then next else RenamesFrom(next, i - 1)
  }

  lemma {:induction false} RenamesFromShifting(disk: Disk, was: Disk, backups: nat, i: nat)
    requires i < backups && Shifting(disk, was, backups, i)
    ensures Shifting(RenamesFrom(disk, i), was, backups, -1)
    decreases i
  {
    ShiftingStep(disk, was, backups, i);
    if i > 0 {
      RenamesFromShifting(Renamed(disk, i, i + 1), was, backups, i - 1);
    }
  }

  /** Dropping the oldest slot and renaming from it down is a shift of every slot: no rename lands on a
      file that is still wanted. */
  lemma RenamesShift(was: Disk, backups: nat)
    ensures var start := was - {backups};
            Shift(was, backups) == if backups == 0 then start else RenamesFrom(start, backups - 1)
  {
    var start := was - {backups};
    OldestDropped(was, backups);
    if backups == 0 {
      ShiftingIsShift(start, was, backups);
    } else {
      RenamesFromShifting(start, was, backups, backups - 1);
      ShiftingIsShift(RenamesFrom(start, backups - 1), was, backups);
    }
  }

  lemma OldestDropped(was: Disk, backups: nat)
    ensures Shifting(was - {backups}, was, backups, backups - 1)
  {
    var start := was - {backups};
    forall s: nat
      ensures s in start <==> s != backups && s in was
      ensures s in start ==> start[s] == was[s]
    {
    }
  }

  lemma ShiftingIsShift(disk: Disk, was: Disk, backups: nat)
    requires Shifting(disk, was, backups, -1)
    ensures disk == Shift(was, backups)
  {
    var after := Shift(was, backups);
    forall s: nat ensures (s in disk <==> s in after) && (s in after ==> disk[s] == after[s]) {
      ShiftedSlot(was, backups, s);
      ShiftingSlot(disk, was, backups, -1, s);
    }
    SameMaps(disk, after);
  }

  lemma SameMaps(d: Disk, e: Disk)
    requires forall s: nat :: (s in d <==> s in e) && (s in d ==> d[s] == e[s])
    ensures d == e
  {
    assert d.Keys == e.Keys;
  }

  lemma ShiftingSlot(disk: Disk, was: Disk, backups: nat, i: int, s: nat)
    requires Shifting(disk, was, backups, i)
    ensures var moved := i < s <= backups;
            && (s in disk <==> if moved then s != i + 1 && s - 1 in was else s in was)
            && (s in disk ==> disk[s] == if moved then was[s - 1] else was[s])
  {
  }

  lemma ShiftedSlot(was: Disk, backups: nat, s: nat)
    ensures var after := Shift(was, backups);
            && (s in after <==> SlotFilled(was, backups, s))
            && (s in after ==> after[s] == if s <= backups then was[s - 1] else was[s])
  {
    if SlotFilled(was, backups, s) && s <= backups {
      assert s - 1 in was.Keys && (s - 1) + 1 == s;
    }
  }
}
