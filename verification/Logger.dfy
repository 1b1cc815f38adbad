/**
 * `Logger` rotation and its consumer loop (src/logger.cpp) on one date, with one
 * prefix and path: the file system is a map from file name to text.
 */
module LoggerModel {
  import opened Common

  const MAX_INDEX := 7          // MAX_QUATA_INDEX
  const MIB := 1048576

  /** The dated file and the rotated files `prefix.1` to `prefix.7`; the four
      digits of the date keep the names apart. */
  datatype FileName = Active | Slot(i: int)

  type Disk = map<FileName, string>

  /** The texts of slots `n` down to 1, oldest first; `slots[0]` is slot 1. */
  function Oldest(slots: seq<string>): string {
    if slots == [] then "" else Oldest(slots[1..]) + slots[0]
  }

  function Rotated(slots: seq<string>, active: string): seq<string> {
    if |slots| < MAX_INDEX then [active] + slots else ([active] + slots)[..MAX_INDEX]
  }

  /** What a rotation loses: an old slot 7, nothing else. */
  function Lost(slots: seq<string>): string {
    if |slots| < MAX_INDEX then "" else slots[MAX_INDEX - 1]
  }

  lemma {:induction false} OldestSplit(slots: seq<string>, k: nat)
    requires k < |slots|
    ensures Oldest(slots[..k + 1]) == slots[k] + Oldest(slots[..k])
  {
    var a, b := slots[..k + 1], slots[..k];
    if k == 0 {
      assert a == [slots[0]] && Oldest([slots[0]]) == Oldest([]) + slots[0];
    } else {
      OldestSplit(slots[1..], k - 1);
      assert a[1..] == slots[1..][..k] && b[1..] == slots[1..][..k - 1];
      ConcatAssoc(slots[k], Oldest(b[1..]), slots[0]);
    }
  }

  lemma OldestCons(active: string, slots: seq<string>)
    ensures Oldest([active] + slots) == Oldest(slots) + active
  {
  }

  /** Rotation conserves the text: what is lost, then the slots, oldest first. */
  lemma RotationConserves(slots: seq<string>, active: string)
    requires |slots| <= MAX_INDEX
    ensures Lost(slots) + Oldest(Rotated(slots, active)) == Oldest(slots) + active
  {
    var all := [active] + slots;
    OldestCons(active, slots);
    if |slots| < MAX_INDEX {
      SplitConcat("", Oldest(all));
    } else {
      OldestSplit(all, |slots|);
      TakeAll(all);
    }
  }

  /** The slots after these texts have been rotated out one after the other, and what
      has been lost on the way. */
  function Rotations(actives: seq<string>): (slots: seq<string>)
    ensures |slots| <= MAX_INDEX
  {
    if actives == [] then [] else Rotated(Rotations(actives[..|actives| - 1]), actives[|actives| - 1])
  }

  function LostBy(actives: seq<string>): string {
    if actives == [] then "" else LostBy(actives[..|actives| - 1]) + Lost(Rotations(actives[..|actives| - 1]))
  }

  function Join(texts: seq<string>): string {
    if texts == [] then "" else Join(texts[..|texts| - 1]) + texts[|texts| - 1]
  }

  lemma RotatedAt(slots: seq<string>, active: string)
    requires |slots| <= MAX_INDEX
    ensures var r := Rotated(slots, active);
            && |r| == (if |slots| < 7 then |slots| + 1 else 7) && r[0] == active
            && forall i :: 1 <= i < |r| ==> r[i] == slots[i - 1]
  {
  }

  lemma {:induction false} SlotsAreLast(actives: seq<string>)
    ensures var n, slots := |actives|, Rotations(actives);
            |slots| == (if n < 7 then n else 7) && forall i :: 0 <= i < |slots| ==> slots[i] == actives[n - 1 - i]
  {
    if actives != [] {
      var k := |actives| - 1;
      SlotsAreLast(actives[..k]);
      RotatedAt(Rotations(actives[..k]), actives[k]);
    }
  }

  /** Seven rotations lose nothing, and every further one loses the oldest text: the
      slots are always the last seven texts, newest first. */
  lemma {:induction false} SevenAreKept(actives: seq<string>)
    ensures var n, slots := |actives|, Rotations(actives);
            && |slots| == (if n < 7 then n else 7) && (forall i :: 0 <= i < |slots| ==> slots[i] == actives[n - 1 - i])
            && LostBy(actives) == Join(actives[..if n < 7 then 0 else n - 7])
  {
    SlotsAreLast(actives);
    if actives != [] {
      var k := |actives| - 1;
      SevenAreKept(actives[..k]);
      if k < 7 {
        assert LostBy(actives) == "" && actives[..0] == [];
      } else {
        NextLost(actives, k - 7);
        assert Rotations(actives[..k])[6] == actives[..k][k - 7];
      }
    }
  }

  lemma NextLost(actives: seq<string>, k: nat)
    requires k < |actives| - 1
    ensures Join(actives[..k + 1]) == Join(actives[..|actives| - 1][..k]) + actives[k]
  {
    assert actives[..k + 1][..k] == actives[..|actives| - 1][..k];
  }

  /** The disk holds exactly these slots, without a gap. */
  ghost predicate HasSlots(disk: Disk, slots: seq<string>) {
    && (forall i :: Slot(i) in disk <==> 1 <= i <= |slots|)
    && (forall i :: 1 <= i <= |slots| ==> disk[Slot(i)] == slots[i - 1])
  }

  /** The disk during the cascade, when slots `i` and up have been moved. */
  ghost predicate Cascading(disk: Disk, slots: seq<string>, i: int)
    requires 1 <= i <= MAX_INDEX && |slots| <= MAX_INDEX
  {
    && (forall j :: Slot(j) in disk <==>
          || (1 <= j < i && j <= |slots|)
          || (i < j <= MAX_INDEX && j - 1 <= |slots|)
          || (j == i == MAX_INDEX && |slots| == MAX_INDEX))
    && (forall j :: 1 <= j < i && j <= |slots| ==> disk[Slot(j)] == slots[j - 1])
    && (forall j :: i < j <= MAX_INDEX && j - 1 <= |slots| ==> disk[Slot(j)] == slots[j - 2])
  }

  /** `rename(2)`, replacing the target. */
  function Rename(disk: Disk, from: FileName, to: FileName): Disk
    requires from in disk
  {
    (disk - {from})[to := disk[from]]
  }

  lemma CascadeStep(disk: Disk, slots: seq<string>, i: int)
    requires |slots| <= MAX_INDEX && 1 <= i < MAX_INDEX && Cascading(disk, slots, i + 1)
    ensures Cascading(if Slot(i) in disk then Rename(disk, Slot(i), Slot(i + 1)) else disk, slots, i)
  {
  }

  lemma CascadeEnd(disk: Disk, slots: seq<string>)
    requires |slots| <= MAX_INDEX && Active in disk && Cascading(disk, slots, 1)
    ensures HasSlots(Rename(disk, Active, Slot(1)), Rotated(slots, disk[Active]))
  {
  }

  // ---- The object ---------------------------------------------------------

  datatype LogMsg = Log(text: string) | Reopen(quota: int) | Stop

  /** Text the consumer writes for these messages: a `Stop` ends nothing that is
      still queued, and text logged before the first open has nowhere to go. */
  function TextOf(msgs: seq<LogMsg>, isOpen: bool): string {
    if msgs == [] then "" else
    match msgs[0]
    case Log(text) => (if isOpen then text else "") + TextOf(msgs[1..], isOpen)
    case Reopen(_) => TextOf(msgs[1..], true)
    case Stop => TextOf(msgs[1..], isOpen)
  }

  class Logger {
    var disk: Disk
    var isOpen: bool        // `file_` is open, on the dated file
    var pathSet: bool       // `logger_path_` is not empty
    var quota: int
    ghost var slots: seq<string>
    ghost var dropped: string
    ghost var written: string

    ghost function ActiveText(): string
      reads this
    {
      if Active in disk then disk[Active] else ""
    }

    /** Present slots are contiguous from 1, and dropped text, slots 7 to 1 and the
        dated file together are all the text written, in order. */
    ghost predicate Consistent()
      reads this
    {
      && |slots| <= MAX_INDEX && HasSlots(disk, slots)
      && dropped + Oldest(slots) + ActiveText() == written
    }

    /** Between two messages. */
    ghost predicate Valid()
      reads this
    {
      Consistent() && (isOpen <==> Active in disk) && (isOpen <==> pathSet)
    }

    /** Every file is at most `cap` MiB plus one message of `longest` characters. */
    ghost predicate Bounded(cap: nat, longest: nat)
      reads this
    {
      && (forall i :: 0 <= i < |slots| ==> |slots[i]| <= cap * MIB + longest)
      && |ActiveText()| <= cap * MIB + longest
    }

    constructor ()
      ensures Valid() && written == "" && !isOpen && quota == 0
      ensures forall cap, longest :: Bounded(cap, longest)
    {
      disk, isOpen, pathSet, quota := map[], false, false, 0;
      slots, dropped, written := [], "", "";
    }

    /** Rotates exactly when the dated file is over a positive quota. */
    method CheckQuota() returns (rotated: bool)
      requires Consistent() && (isOpen ==> Active in disk)
      modifies this
      ensures Consistent() && written == old(written) && quota == old(quota) && pathSet == old(pathSet)
      ensures rotated <==> quota >= 1 && pathSet && Active in old(disk) && |old(disk)[Active]| > quota * 1048576
      ensures !rotated ==> disk == old(disk) && isOpen == old(isOpen) && slots == old(slots) && dropped == old(dropped)
      ensures rotated ==> && !isOpen && Active !in disk
                          && slots == Rotated(old(slots), old(disk)[Active])
                          && dropped == old(dropped) + Lost(old(slots))
    {
      if quota < 1 { return false; }
      if !pathSet { return false; }
      if Active !in disk { return false; }
      if |disk[Active]| <= quota * MIB { return false; }
      isOpen := false;
      ghost var was, active := slots, disk[Active];
      for i := MAX_INDEX downto 1
        invariant Cascading(disk, was, i) && Active in disk && disk[Active] == active
        invariant slots == was && dropped == old(dropped) && written == old(written)
        invariant quota == old(quota) && pathSet == old(pathSet) && !isOpen
      {
        CascadeStep(disk, was, i);
        if Slot(i) in disk {
          disk := Rename(disk, Slot(i), Slot(i + 1));
        }
      }
      CascadeEnd(disk, was);
      disk := Rename(disk, Active, Slot(1));
      slots, dropped := Rotated(was, active), dropped + Lost(was);
      RotationConserves(was, active);
      ConcatAssoc(old(dropped), Lost(was), Oldest(slots));
      ConcatAssoc(old(dropped), Oldest(was), active);
      return true;
    }

    /** `do_open`: rotates first if the path is already set and over quota. */
    method DoOpen()
      requires Consistent() && (isOpen ==> Active in disk)
      modifies this
      ensures Valid() && isOpen && quota == old(quota) && written == old(written)
      ensures if quota >= 1 && old(pathSet) && Active in old(disk) && |old(disk)[Active]| > quota * MIB
              then && slots == Rotated(old(slots), old(disk)[Active]) && ActiveText() == ""
                   && dropped == old(dropped) + Lost(old(slots))
              else slots == old(slots) && ActiveText() == old(ActiveText()) && dropped == old(dropped)
    {
      var rotated := CheckQuota();
      if !rotated { pathSet := true; }
      isOpen := false;
      if Active !in disk {
        assert dropped + Oldest(slots) + "" == written;
        disk := disk[Active := ""];
      }
      isOpen := true;
    }

    method Write(text: string)
      requires Valid()
      modifies this
      ensures Valid() && isOpen == old(isOpen) && quota == old(quota) && slots == old(slots)
      ensures ActiveText() == if isOpen then old(ActiveText()) + text else old(ActiveText())
      ensures dropped == old(dropped)
      ensures written == if isOpen then old(written) + text else old(written)
    {
      if isOpen {
        ConcatAssoc(dropped + Oldest(slots), disk[Active], text);
        disk := disk[Active := disk[Active] + text];
        written := written + text;
      }
    }

    /** A log message finds the dated file over quota. */
    ghost predicate MustRotate(msg: LogMsg)
      reads this
    {
      msg.Log? && isOpen && quota >= 1 && |ActiveText()| > quota * 1048576
    }

    /** One queued message, handled alike before and after `Stop`. */
    method Handle(msg: LogMsg, ghost cap: nat, ghost longest: nat)
      requires Valid()
      modifies this
      ensures Valid()
      ensures isOpen == (old(isOpen) || msg.Reopen?)
      ensures quota == if msg.Reopen? && msg.quota != 0 then msg.quota else old(quota)
      ensures written == if msg.Log? && isOpen then old(written) + msg.text else old(written)
      ensures slots == if old(MustRotate(msg)) then Rotated(old(slots), old(ActiveText())) else old(slots)
      ensures dropped == if old(MustRotate(msg)) then old(dropped) + Lost(old(slots)) else old(dropped)
      ensures old(Bounded(cap, longest)) && (msg.Log? ==> |msg.text| <= longest && (isOpen ==> 1 <= quota <= cap))
              ==> Bounded(cap, longest)
    {
      match msg {
        case Stop =>
        case Reopen(q) =>
          if q != 0 { quota := q; }
          pathSet := false;
          DoOpen();
        case Log(text) =>
          var rotated := CheckQuota();
          if rotated {
            DoOpen();
          }
          assert ActiveText() == if rotated then "" else old(ActiveText());
          ghost var before := ActiveText();
          Write(text);
          if 1 <= quota <= cap && |text| <= longest && isOpen {
            assert quota * MIB <= cap * MIB;
            assert |before| <= quota * MIB;
          }
      }
    }

    /** `thread_proc`: messages in order up to `Stop`, then whatever is still
        queued behind it. */
    method ThreadProc(queue: seq<LogMsg>, ghost cap: nat, ghost longest: nat)
      requires Valid()
      modifies this
      ensures Valid()
      ensures written == old(written) + TextOf(queue, old(isOpen))
      ensures old(Bounded(cap, longest)) && WithinQuota(queue, old(isOpen), old(quota), cap, longest)
              ==> Bounded(cap, longest)
    {
      var rest := queue;
      ghost var wasOpen, wasQuota, wasBounded := isOpen, quota, Bounded(cap, longest);
      var stopped := false;
      while rest != [] && !stopped
        invariant Valid()
        invariant written + TextOf(rest, isOpen) == old(written) + TextOf(queue, wasOpen)
        invariant wasBounded && WithinQuota(queue, wasOpen, wasQuota, cap, longest)
                  ==> Bounded(cap, longest) && WithinQuota(rest, isOpen, quota, cap, longest)
        decreases |rest|
      {
        var msg := rest[0];
        TextStep(written, rest, isOpen);
        Handle(msg, cap, longest);
        rest := rest[1..];
        stopped := msg.Stop?;
      }
      while rest != []   // drain after Stop
        invariant Valid()
        invariant written + TextOf(rest, isOpen) == old(written) + TextOf(queue, wasOpen)
        invariant wasBounded && WithinQuota(queue, wasOpen, wasQuota, cap, longest)
                  ==> Bounded(cap, longest) && WithinQuota(rest, isOpen, quota, cap, longest)
        decreases |rest|
      {
        TextStep(written, rest, isOpen);
        Handle(rest[0], cap, longest);
        rest := rest[1..];
      }
      assert written + "" == written;
    }
  }

  lemma TextStep(written: string, msgs: seq<LogMsg>, isOpen: bool)
    requires msgs != []
    ensures written + TextOf(msgs, isOpen) ==
              (if msgs[0].Log? && isOpen then written + msgs[0].text else written)
              + TextOf(msgs[1..], isOpen || msgs[0].Reopen?)
  {
  }

  /** Every message has at most `longest` characters, and whenever text is written
      a quota of 1 to `cap` MiB is in force. */
  predicate WithinQuota(msgs: seq<LogMsg>, isOpen: bool, quota: int, cap: nat, longest: nat) {
    if msgs == [] then true else
    match msgs[0]
    case Log(text) =>
      |text| <= longest && (isOpen ==> 1 <= quota <= cap) && WithinQuota(msgs[1..], isOpen, quota, cap, longest)
    case Reopen(q) => WithinQuota(msgs[1..], true, if q != 0 then q else quota, cap, longest)
    case Stop => WithinQuota(msgs[1..], isOpen, quota, cap, longest)
  }

  // ---- What is lost -------------------------------------------------------

  /** Everything logged. */
  function AllText(msgs: seq<LogMsg>): string {
    if msgs == [] then "" else (if msgs[0].Log? then msgs[0].text else "") + AllText(msgs[1..])
  }

  /** No text is logged before the first open. */
  ghost predicate OpensFirst(msgs: seq<LogMsg>) {
    forall i :: 0 <= i < |msgs| && msgs[i].Log? && msgs[i].text != "" ==> exists j :: 0 <= j < i && msgs[j].Reopen?
  }

  lemma {:induction false} OpenWritesAll(msgs: seq<LogMsg>)
    ensures TextOf(msgs, true) == AllText(msgs)
  {
    if msgs != [] {
      OpenWritesAll(msgs[1..]);
      assert "" + AllText(msgs[1..]) == AllText(msgs[1..]);
    }
  }

  lemma {:induction false} ClosedWritesLess(msgs: seq<LogMsg>)
    ensures |TextOf(msgs, false)| <= |AllText(msgs)|
  {
    if msgs != [] {
      ClosedWritesLess(msgs[1..]);
      OpenWritesAll(msgs[1..]);
    }
  }

  /** What comes after a message that opens nothing. */
  lemma OpensFirstTail(msgs: seq<LogMsg>)
    requires msgs != [] && !msgs[0].Reopen?
    ensures OpensFirst(msgs) <==> !(msgs[0].Log? && msgs[0].text != "") && OpensFirst(msgs[1..])
  {
    var rest := msgs[1..];
    if OpensFirst(msgs) {
      forall i | 0 <= i < |rest| && rest[i].Log? && rest[i].text != ""
        ensures exists j :: 0 <= j < i && rest[j].Reopen?
      {
        var j :| 0 <= j < i + 1 && msgs[j].Reopen?;
        assert rest[j - 1].Reopen?;
      }
    }
    if !(msgs[0].Log? && msgs[0].text != "") && OpensFirst(rest) {
      forall i | 0 <= i < |msgs| && msgs[i].Log? && msgs[i].text != ""
        ensures exists j :: 0 <= j < i && msgs[j].Reopen?
      {
        assert rest[i - 1] == msgs[i];
        var j :| 0 <= j < i - 1 && rest[j].Reopen?;
        assert msgs[j + 1].Reopen?;
      }
    }
  }

  /** A message that opens nothing: what it adds is lost. */
  lemma {:induction false} WritesAllStep(msgs: seq<LogMsg>)
    requires msgs != [] && !msgs[0].Reopen?
    ensures TextOf(msgs, false) == AllText(msgs) <==>
              !(msgs[0].Log? && msgs[0].text != "") && TextOf(msgs[1..], false) == AllText(msgs[1..])
  {
    var rest := msgs[1..];
    ClosedWritesLess(rest);
    assert "" + TextOf(rest, false) == TextOf(rest, false) && "" + AllText(rest) == AllText(rest);
  }

  lemma {:induction false} OpenedAtOnce(msgs: seq<LogMsg>)
    requires msgs != [] && msgs[0].Reopen?
    ensures OpensFirst(msgs) && TextOf(msgs, false) == AllText(msgs)
  {
    OpenWritesAll(msgs[1..]);
    assert "" + AllText(msgs[1..]) == AllText(msgs[1..]);
  }

  /** From a closed file everything logged is written exactly when no text comes
      before the first open. */
  lemma {:induction false} WritesAllExactly(msgs: seq<LogMsg>)
    ensures TextOf(msgs, false) == AllText(msgs) <==> OpensFirst(msgs)
  {
    if msgs != [] {
      if msgs[0].Reopen? {
        OpenedAtOnce(msgs);
      } else {
        OpensFirstTail(msgs);
        WritesAllStep(msgs);
        WritesAllExactly(msgs[1..]);
      }
    }
  }

  /** The first open divides what is lost from what is written. */
  lemma {:induction false} WritesFromTheOpenOn(early: seq<LogMsg>, quota: int, late: seq<LogMsg>)
    requires forall m :: m in early ==> !m.Reopen?
    ensures TextOf(early, false) == "" && TextOf(early + [Reopen(quota)] + late, false) == AllText(late)
  {
    var all := early + [Reopen(quota)] + late;
    if early == [] {
      assert all[1..] == late;
      OpenWritesAll(late);
    } else {
      assert early[0] in early && forall m :: m in early[1..] ==> m in early;
      WritesFromTheOpenOn(early[1..], quota, late);
      assert all[1..] == early[1..] + [Reopen(quota)] + late;
      assert "" + AllText(late) == AllText(late);
    }
  }

  /** A message that is lost. */
  lemma EarlyTextIsLost()
    ensures TextOf([Log("x"), Reopen(1)], false) == "" && AllText([Log("x"), Reopen(1)]) == "x"
  {
    var q := [Log("x"), Reopen(1)];
    assert q[1..] == [Reopen(1)] && q[1..][1..] == [];
  }

  /** A new logger that consumes a queue: the files and what rotation dropped hold
      everything logged exactly when no text was logged before the first open. */
  method LogAll(queue: seq<LogMsg>, ghost cap: nat, ghost longest: nat) returns (log: Logger)
    ensures log.Valid()
    ensures log.dropped + Oldest(log.slots) + log.ActiveText() == AllText(queue) <==> OpensFirst(queue)
    ensures WithinQuota(queue, false, 0, cap, longest) ==> log.Bounded(cap, longest)
  {
    log := new Logger();
    log.ThreadProc(queue, cap, longest);
    assert "" + TextOf(queue, false) == TextOf(queue, false);
    WritesAllExactly(queue);
  }
}
