/**
 * `GlobalTimer` (src/util.cpp, include/util.hpp): the timer list and the nested
 * map that must agree, the sweep that edits both while iterating, and the
 * millisecond arithmetic of `DIFFTIME`.
 */
module GlobalTimerModel {
  import opened Common

  // ---- Time ---------------------------------------------------------------

  datatype TimeVal = TimeVal(sec: int, usec: int)

  function Abs(x: int): int { if x < 0 then -x else x }

  /** Integer division as C++ does it. */
  function TruncDiv(a: int, b: int): int
    requires b > 0
  {
    if a >= 0 then a / b else -(-a / b)
  }

  function DiffTime(a: TimeVal, b: TimeVal): int {
    Abs((a.sec - b.sec) * 1000 + TruncDiv(a.usec - b.usec, 1000))
  }

  /** Microseconds from `a` to `b`, negative when `b` is the earlier time. */
  function Since(a: TimeVal, b: TimeVal): int {
    (b.sec - a.sec) * 1_000_000 + (b.usec - a.usec)
  }

  /** Microseconds between two times, whichever is the earlier. */
  function Distance(a: TimeVal, b: TimeVal): int { Abs(Since(a, b)) }

  /** The millisecond count is off the distance by less than one millisecond. */
  lemma DiffTimeIsClose(a: TimeVal, b: TimeVal)
    ensures Distance(a, b) - 1000 < 1000 * DiffTime(a, b) < Distance(a, b) + 1000
  {
  }

  // ---- The abstract timers ------------------------------------------------

  type Obj = nat

  /** `id` is the identity of the allocated `TimeSpec`. */
  datatype Spec = Spec(id: nat, tv: TimeVal, term: int, which: int, obj: Obj)

  predicate Due(s: Spec, now: TimeVal) { DiffTime(s.tv, now) >= s.term }

  /** The timers of a list that are due, or that are not, in list order. */
  function Filter(list: seq<Spec>, now: TimeVal, due: bool): seq<Spec> {
    if list == [] then []
    else
      var kept := Filter(list[..|list| - 1], now, due);
      if Due(list[|list| - 1], now) == due then kept + [list[|list| - 1]] else kept
  }

  predicate HasKey(s: Spec, obj: Obj, which: int) { s.obj == obj && s.which == which }

  /** How many timers of a list have this key. */
  function Pending(list: seq<Spec>, obj: Obj, which: int): nat {
    if list == [] then 0
    else Pending(list[..|list| - 1], obj, which) + if HasKey(list[|list| - 1], obj, which) then 1 else 0
  }

  lemma {:induction false} PendingPositive(list: seq<Spec>, obj: Obj, which: int)
    ensures Pending(list, obj, which) > 0 <==> exists i :: 0 <= i < |list| && HasKey(list[i], obj, which)
  {
    if list != [] { PendingPositive(list[..|list| - 1], obj, which); }
  }

  lemma PendingAppend(list: seq<Spec>, s: Spec, obj: Obj, which: int)
    ensures Pending(list + [s], obj, which) == Pending(list, obj, which) + if HasKey(s, obj, which) then 1 else 0
  {
  }

  // ---- List and map -------------------------------------------------------

  type Table = map<Obj, map<int, Spec>>

  ghost predicate InTable(table: Table, obj: Obj, which: int, s: Spec) {
    obj in table && which in table[obj] && table[obj][which] == s
  }

  /** The list and the map hold the same specs, each under its own key, with no
      duplicate and no empty inner map. */
  ghost predicate Agree(list: seq<Spec>, table: Table) {
    && (forall i, j :: 0 <= i < j < |list| ==> list[i] != list[j])
    && (forall i :: 0 <= i < |list| ==> InTable(table, list[i].obj, list[i].which, list[i]))
    && (forall o :: o in table ==> table[o] != map[])
    && (forall o, w, s :: InTable(table, o, w, s) ==> s in list && HasKey(s, o, w))
  }

  function Inner(table: Table, obj: Obj): map<int, Spec> { if obj in table then table[obj] else map[] }

  /** `static_cast<uint8_t>`. */
  function Narrow(which: int): (r: int)
    ensures 0 <= r < 256 && (which - r) % 256 == 0
    ensures r == which <==> 0 <= which < 256
  {
    which % 256
  }

  /** The spec `AddElement` allocates: its copy of the id is cut to eight bits. */
  function NewSpec(obj: Obj, msecs: int, which: int, now: TimeVal, id: nat): Spec {
    Spec(id, now, msecs, Narrow(which), obj)
  }

  function AddToTable(table: Table, obj: Obj, which: int, s: Spec): Table {
    table[obj := Inner(table, obj)[which := s]]
  }

  function RemoveFromTable(table: Table, obj: Obj, which: int): Table
    requires obj in table
  {
    var inner := table[obj] - {which};
    if inner == map[] then table - {obj} else table[obj := inner]
  }

  lemma AddedInTable(table: Table, obj: Obj, which: int, new_: Spec, o: Obj, w: int, s: Spec)
    ensures InTable(AddToTable(table, obj, which, new_), o, w, s) <==>
              if o == obj && w == which then s == new_ else InTable(table, o, w, s)
  {
  }

  lemma RemovedInTable(table: Table, obj: Obj, which: int, o: Obj, w: int, s: Spec)
    requires obj in table
    ensures InTable(RemoveFromTable(table, obj, which), o, w, s) <==>
              InTable(table, o, w, s) && !(o == obj && w == which)
  {
    if o == obj && InTable(table, o, w, s) && w != which { assert w in table[obj] - {which}; }
  }

  /** Starting a timer keeps list and map in agreement exactly when its id fits
      the eight bits the spec keeps of it. */
  lemma AddKeepsAgreement(list: seq<Spec>, table: Table, obj: Obj, msecs: int, which: int, now: TimeVal, id: nat)
    requires Agree(list, table) && which !in Inner(table, obj)
    requires forall s :: s in list ==> s.id != id   // a new object
    ensures var s := NewSpec(obj, msecs, which, now, id);
            Agree(list + [s], AddToTable(table, obj, which, s)) <==> 0 <= which < 256
  {
    var s := NewSpec(obj, msecs, which, now, id);
    var list', table' := list + [s], AddToTable(table, obj, which, s);
    assert s == list'[|list|];
    if 0 <= which < 256 {
      forall i | 0 <= i < |list'| ensures InTable(table', list'[i].obj, list'[i].which, list'[i]) {
        if i < |list| { assert InTable(table, list[i].obj, list[i].which, list[i]); }
        AddedInTable(table, obj, which, s, list'[i].obj, list'[i].which, list'[i]);
      }
      forall o, w, r | InTable(table', o, w, r) ensures r in list' && HasKey(r, o, w) {
        AddedInTable(table, obj, which, s, o, w, r);
      }
      forall o | o in table' ensures table'[o] != map[] {
        if o == obj { assert which in table'[o]; }
      }
    } else {
      assert InTable(table', obj, which, s) && !HasKey(s, obj, which);
    }
  }

  lemma RemoveKeepsAgreement(list: seq<Spec>, table: Table, i: nat)
    requires Agree(list, table) && i < |list|
    ensures list[i].obj in table
    ensures Agree(list[..i] + list[i + 1..], RemoveFromTable(table, list[i].obj, list[i].which))
  {
    var s := list[i];
    assert InTable(table, s.obj, s.which, s);
    var list', table' := list[..i] + list[i + 1..], RemoveFromTable(table, s.obj, s.which);
    forall j | 0 <= j < |list'| ensures InTable(table', list'[j].obj, list'[j].which, list'[j]) {
      var r := list[if j < i then j else j + 1];
      assert list'[j] == r && InTable(table, r.obj, r.which, r) && r != s;
      RemovedInTable(table, s.obj, s.which, r.obj, r.which, r);
    }
    forall o, w, r | InTable(table', o, w, r) ensures r in list' && HasKey(r, o, w) {
      RemovedInTable(table, s.obj, s.which, o, w, r);
      var k :| 0 <= k < |list| && list[k] == r;
      assert list'[if k < i then k else k - 1] == r;
    }
  }

  /** The key is in the map exactly when a listed timer has it. */
  lemma TableIffPending(list: seq<Spec>, table: Table, obj: Obj, which: int)
    requires Agree(list, table)
    ensures which in Inner(table, obj) <==> Pending(list, obj, which) > 0
    ensures Pending(list, obj, which) <= 1
  {
    PendingPositive(list, obj, which);
    if i :| 0 <= i < |list| && HasKey(list[i], obj, which) { assert InTable(table, obj, which, list[i]); }
    if which in Inner(table, obj) { assert InTable(table, obj, which, table[obj][which]); }
    UniqueKeys(list, table, obj, which);
  }

  lemma {:induction false} UniqueKeys(list: seq<Spec>, table: Table, obj: Obj, which: int)
    requires forall i, j :: 0 <= i < j < |list| ==> list[i] != list[j]
    requires forall i :: 0 <= i < |list| ==> InTable(table, list[i].obj, list[i].which, list[i])
    ensures Pending(list, obj, which) <= 1
  {
    if list != [] {
      var k := |list| - 1;
      UniqueKeys(list[..k], table, obj, which);
      PendingPositive(list[..k], obj, which);
      assert InTable(table, list[k].obj, list[k].which, list[k]);
    }
  }

  /** An id that does not fit: the map keeps 256, the list keeps 0. */
  lemma WideIdDisagrees()
    ensures var s := NewSpec(0, 1000, 256, TimeVal(0, 0), 0);
            !Agree([s], AddToTable(map[], 0, 256, s))
  {
    var s := NewSpec(0, 1000, 256, TimeVal(0, 0), 0);
    assert Agree([], map[]);
    AddKeepsAgreement([], map[], 0, 1000, 256, TimeVal(0, 0), 0);
    assert [] + [s] == [s];
  }

  // ---- One sweep, for lists and maps that may disagree --------------------

  datatype Swept = Swept(fired: seq<Spec>, kept: seq<Spec>, table: Table)

  /** A listed timer is fired if it is due and its key is in the map. What leaves
      the map is the key, whichever timer that stands for. */
  function SweepOne(w: Swept, s: Spec, now: TimeVal): Swept {
    if s.which in Inner(w.table, s.obj) && Due(s, now)
    then Swept(w.fired + [s], w.kept, RemoveFromTable(w.table, s.obj, s.which))
    else w.(kept := w.kept + [s])
  }

  function SweepAll(list: seq<Spec>, table: Table, now: TimeVal): Swept {
    if list == [] then Swept([], [], table)
    else SweepOne(SweepAll(list[..|list| - 1], table, now), list[|list| - 1], now)
  }

  lemma SweepNext(all: seq<Spec>, n: nat, table: Table, now: TimeVal)
    requires n < |all|
    ensures SweepAll(all[..n + 1], table, now) == SweepOne(SweepAll(all[..n], table, now), all[n], now)
  {
    assert all[..n + 1][..n] == all[..n];
  }

  /** While list and map agree a sweep keeps the agreement. */
  lemma {:induction false} SweepKeepsAgreement(list: seq<Spec>, table: Table, now: TimeVal, n: nat)
    requires Agree(list, table) && n <= |list|
    ensures var w := SweepAll(list[..n], table, now); Agree(w.kept + list[n..], w.table)
  {
    if n == 0 {
      assert list[..0] == [] && [] + list[0..] == list;
    } else {
      SweepKeepsAgreement(list, table, now, n - 1);
      SweepNext(list, n - 1, table, now);
      SweepStepAgrees(SweepAll(list[..n - 1], table, now), list, n - 1, now);
    }
  }

  /** Each timer finds its key in the map when its turn comes. */
  lemma KeyIsPresent(list: seq<Spec>, table: Table, now: TimeVal, n: nat)
    requires Agree(list, table) && n < |list|
    ensures list[n].which in Inner(SweepAll(list[..n], table, now).table, list[n].obj)
  {
    SweepKeepsAgreement(list, table, now, n);
    SweepStepAgrees(SweepAll(list[..n], table, now), list, n, now);
  }

  /** The sweep then fires exactly the due timers and keeps the others. */
  lemma {:induction false} SweepFilters(list: seq<Spec>, table: Table, now: TimeVal, n: nat)
    requires Agree(list, table) && n <= |list|
    ensures var w := SweepAll(list[..n], table, now);
            w.fired == Filter(list[..n], now, true) && w.kept == Filter(list[..n], now, false)
  {
    if n == 0 {
      assert list[..0] == [];
    } else {
      SweepFilters(list, table, now, n - 1);
      SweepNext(list, n - 1, table, now);
      FilterNext(list, n - 1, now);
      KeyIsPresent(list, table, now, n - 1);
    }
  }

  lemma ListedInTable(list: seq<Spec>, table: Table, i: nat)
    requires Agree(list, table) && i < |list|
    ensures list[i].which in Inner(table, list[i].obj)
  {
    assert InTable(table, list[i].obj, list[i].which, list[i]);
  }

  lemma SweepStepAgrees(w: Swept, list: seq<Spec>, n: nat, now: TimeVal)
    requires n < |list| && Agree(w.kept + list[n..], w.table)
    ensures list[n].which in Inner(w.table, list[n].obj)
    ensures var w' := SweepOne(w, list[n], now); Agree(w'.kept + list[n + 1..], w'.table)
  {
    RestSplits(w.kept, list, n);
    ListedInTable(w.kept + list[n..], w.table, |w.kept|);
    if Due(list[n], now) { RemoveKeepsAgreement(w.kept + list[n..], w.table, |w.kept|); }
  }

  /** A sweep of timers with other keys leaves an entry of the map alone. */
  lemma {:induction false} SweepIgnoresOther(list: seq<Spec>, table: Table, obj: Obj, which: int, s: Spec, now: TimeVal)
    requires forall r :: r in list ==> !HasKey(r, obj, which)
    ensures var w := SweepAll(list, table, now);
            SweepAll(list, AddToTable(table, obj, which, s), now)
            == w.(table := AddToTable(w.table, obj, which, s))
  {
    if list != [] {
      var k := |list| - 1;
      SweepIgnoresOther(list[..k], table, obj, which, s, now);
      assert !HasKey(list[k], obj, which);
      OtherKey(SweepAll(list[..k], table, now).table, obj, which, s, list[k].obj, list[k].which);
    }
  }

  lemma OtherKey(table: Table, obj: Obj, which: int, s: Spec, o: Obj, w: int)
    requires !(o == obj && w == which)
    ensures w in Inner(AddToTable(table, obj, which, s), o) <==> w in Inner(table, o)
    ensures w in Inner(table, o) ==>
              RemoveFromTable(AddToTable(table, obj, which, s), o, w)
              == AddToTable(RemoveFromTable(table, o, w), obj, which, s)
  {
    if w in Inner(table, o) && o == obj {
      assert (table[o][which := s]) - {w} == (table[o] - {w})[which := s];
      assert which in (table[o] - {w})[which := s];
    }
  }

  /** The next sweep after a start with an id that does not fit eight bits: it fires
      the new timer only if another timer has the cut id and is not due, and then
      erases that timer's map entry instead of the new one's; otherwise the new
      timer is skipped. */
  lemma WideIdInSweep(list: seq<Spec>, table: Table, obj: Obj, msecs: int, which: int, start: TimeVal, id: nat,
                      now: TimeVal)
    requires Agree(list, table) && which !in Inner(table, obj) && !(0 <= which < 256)
    ensures var s := NewSpec(obj, msecs, which, start, id);
            var w := SweepAll(list + [s], AddToTable(table, obj, which, s), now);
            var fires := Due(s, now) && s.which in Inner(table, obj) && !Due(table[obj][s.which], now);
            && w.fired == Filter(list, now, true) + (if fires then [s] else [])
            && w.kept == Filter(list, now, false) + (if fires then [] else [s])
            && InTable(w.table, obj, which, s)
            && (fires ==> table[obj][s.which] in w.kept && s.which !in Inner(w.table, obj))
  {
    var s := NewSpec(obj, msecs, which, start, id);
    var n, all := |list|, list + [s];
    forall r | r in list ensures !HasKey(r, obj, which) {
      var i :| 0 <= i < |list| && list[i] == r;
      assert InTable(table, list[i].obj, list[i].which, list[i]);
    }
    SplitConcat(list, [s]);
    SweepNext(all, n, AddToTable(table, obj, which, s), now);
    TakeAll(all);
    TakeAll(list);
    SweepIgnoresOther(list, table, obj, which, s, now);
    SweepKeepsAgreement(list, table, now, n);
    SweepFilters(list, table, now, n);
    var w := SweepAll(list, table, now);
    assert w.kept + list[n..] == w.kept;
    OtherKey(w.table, obj, which, s, obj, s.which);
    KeptKeys(list, table, now, w, obj, s.which);
    assert w.fired + [] == w.fired && w.kept + [] == w.kept;
  }

  /** A key is still in the map after a sweep exactly when its timer was not due. */
  lemma KeptKeys(list: seq<Spec>, table: Table, now: TimeVal, w: Swept, obj: Obj, which: int)
    requires Agree(list, table) && Agree(w.kept, w.table) && w.kept == Filter(list, now, false)
    ensures which in Inner(w.table, obj) <==> which in Inner(table, obj) && !Due(table[obj][which], now)
    ensures which in Inner(w.table, obj) ==> table[obj][which] in w.kept && w.table[obj][which] == table[obj][which]
  {
    if which in Inner(table, obj) {
      var u := table[obj][which];
      assert InTable(table, obj, which, u);
      FilterIsExact(list, now, u);
      if u in w.kept {
        var i :| 0 <= i < |w.kept| && w.kept[i] == u;
        assert InTable(w.table, w.kept[i].obj, w.kept[i].which, w.kept[i]);
      }
    }
    if which in Inner(w.table, obj) {
      var v := w.table[obj][which];
      assert InTable(w.table, obj, which, v);
      FilterIsExact(list, now, v);
      var i :| 0 <= i < |list| && list[i] == v;
      assert InTable(table, list[i].obj, list[i].which, list[i]);
    }
  }

  /** What holds in every run, whatever the ids: identities are used once, and a map
      entry is filed under its object and an id that the timer has a cut copy of. */
  ghost predicate SoundState(list: seq<Spec>, table: Table, nextId: nat) {
    && (forall i, j :: 0 <= i < j < |list| ==> list[i] != list[j])
    && (forall i :: 0 <= i < |list| ==> list[i].id < nextId)
    && (forall o, w, s :: InTable(table, o, w, s) ==> HasKey(s, o, Narrow(w)) && s.id < nextId)
  }

  lemma AddKeepsSound(list: seq<Spec>, table: Table, obj: Obj, msecs: int, which: int, now: TimeVal, id: nat)
    requires SoundState(list, table, id)
    ensures var s := NewSpec(obj, msecs, which, now, id);
            SoundState(list + [s], AddToTable(table, obj, which, s), id + 1)
  {
    var s := NewSpec(obj, msecs, which, now, id);
    forall o, w, r | InTable(AddToTable(table, obj, which, s), o, w, r)
      ensures HasKey(r, o, Narrow(w)) && r.id < id + 1
    {
      AddedInTable(table, obj, which, s, o, w, r);
    }
  }

  lemma EraseKeepsSound(list: seq<Spec>, table: Table, nextId: nat, i: nat, obj: Obj, which: int)
    requires SoundState(list, table, nextId) && i <= |list| && obj in table
    ensures SoundState(list, RemoveFromTable(table, obj, which), nextId)
    ensures i < |list| ==> SoundState(list[..i] + list[i + 1..], RemoveFromTable(table, obj, which), nextId)
  {
    if i < |list| { RemoveAt(list, i); }
    forall o, w, r | InTable(RemoveFromTable(table, obj, which), o, w, r)
      ensures HasKey(r, o, Narrow(w)) && r.id < nextId
    {
      RemovedInTable(table, obj, which, o, w, r);
    }
  }

  lemma {:induction false} SweepKeepsSound(list: seq<Spec>, table: Table, nextId: nat, now: TimeVal, n: nat)
    requires SoundState(list, table, nextId) && n <= |list|
    ensures var w := SweepAll(list[..n], table, now); SoundState(w.kept + list[n..], w.table, nextId)
  {
    if n == 0 {
      assert list[..0] == [] && [] + list[0..] == list;
    } else {
      SweepKeepsSound(list, table, nextId, now, n - 1);
      SweepNext(list, n - 1, table, now);
      var w, s := SweepAll(list[..n - 1], table, now), list[n - 1];
      RestSplits(w.kept, list, n - 1);
      if s.which in Inner(w.table, s.obj) {
        EraseKeepsSound(w.kept + list[n - 1..], w.table, nextId, |w.kept|, s.obj, s.which);
      }
    }
  }

  // ---- The object ---------------------------------------------------------

  class GlobalTimer {
    var list: seq<Spec>
    var table: Table
    var nextId: nat

    ghost predicate Sound()
      reads this
    {
      SoundState(list, table, nextId)
    }

    /** What holds as long as all ids fit eight bits. */
    ghost predicate Valid()
      reads this
    {
      Sound() && Agree(list, table)
    }

    constructor ()
      ensures Valid() && list == [] && table == map[]
    {
      list, table, nextId := [], map[], 0;
    }

    /** Refused exactly when a timer with this key is in the map, which is when one is
        pending. A timer that is started keeps list and map in agreement exactly when
        its id fits eight bits. */
    method AddElement(obj: Obj, msecs: int, which: int, now: TimeVal) returns (ok: bool)
      requires Sound()
      modifies this
      ensures Sound()
      ensures ok <==> which !in Inner(old(table), obj)
      ensures list == if ok then old(list) + [Spec(old(nextId), now, msecs, Narrow(which), obj)] else old(list)
      ensures table == if ok then AddToTable(old(table), obj, which, list[|list| - 1]) else old(table)
      ensures old(Valid()) ==> (Valid() <==> !ok || 0 <= which < 256) && (ok <==> Pending(old(list), obj, which) == 0)
    {
      if Agree(list, table) { TableIffPending(list, table, obj, which); }
      var whichMap := Inner(table, obj);
      if which in whichMap { return false; }
      if Agree(list, table) { AddKeepsAgreement(list, table, obj, msecs, which, now, nextId); }
      AddKeepsSound(list, table, obj, msecs, which, now, nextId);
      var spec := NewSpec(obj, msecs, which, now, nextId);
      nextId := nextId + 1;
      table := AddToTable(table, obj, which, spec);
      list := list + [spec];
      return true;
    }

    /** Takes the timer at `i` off the list and a key out of the map. */
    method Erase(i: nat, obj: Obj, which: int)
      requires i < |list| && obj in table
      modifies this`list, this`table
      ensures list == old(list)[..i] + old(list)[i + 1..]
      ensures table == RemoveFromTable(old(table), obj, which)
    {
      list := list[..i] + list[i + 1..];
      table := RemoveFromTable(table, obj, which);
    }

    /** Succeeds exactly when the key is in the map. The timer found there leaves the
        map, and the list as well unless it is `stale`: fired before under the key of
        another timer, which no timer is as long as all ids fit eight bits. */
    method RemoveElement(obj: Obj, which: int) returns (ok: bool, stale: bool, ghost at: nat)
      requires Sound()
      modifies this
      ensures Sound()
      ensures ok <==> which in Inner(old(table), obj)
      ensures !ok ==> !stale && table == old(table)
      ensures ok ==> && table == RemoveFromTable(old(table), obj, which)
                     && (stale <==> old(table)[obj][which] !in old(list))
      ensures !ok || stale ==> list == old(list)
      ensures ok && !stale ==> && at < |old(list)| && old(list)[at] == old(table)[obj][which]
                               && HasKey(old(list)[at], obj, Narrow(which))
                               && list == old(list)[..at] + old(list)[at + 1..]
      ensures old(Valid()) ==> Valid() && !stale && (ok <==> Pending(old(list), obj, which) > 0)
      ensures old(Valid()) && ok ==> 0 <= which < 256
    {
      if Agree(list, table) { TableIffPending(list, table, obj, which); }
      if obj !in table { return false, false, 0; }
      if which !in table[obj] { return false, false, 0; }
      var spec := table[obj][which];
      assert InTable(table, obj, which, spec);
      var i := 0;
      while i < |list| && list[i] != spec
        invariant 0 <= i <= |list| && spec !in list[..i]
      {
        i := i + 1;
      }
      EraseKeepsSound(list, table, nextId, i, obj, which);
      if i < |list| {
        if Agree(list, table) { RemoveKeepsAgreement(list, table, i); }
        Erase(i, obj, which);
        return true, false, i;
      }
      table := RemoveFromTable(table, obj, which);
      return true, true, 0;
    }

    /** In the middle of a sweep: `w` is what has been done, `rest` is still to come. */
    ghost predicate Halfway(w: Swept, rest: seq<Spec>, it: nat, fired: seq<Spec>)
      reads this
    {
      list == w.kept + rest && it == |w.kept| && table == w.table && fired == w.fired
    }

    /** One round of the sweep's loop. */
    method Visit(it: nat, now: TimeVal, fired: seq<Spec>, ghost w: Swept, ghost rest: seq<Spec>)
      returns (next: nat, more: seq<Spec>)
      requires rest != [] && Halfway(w, rest, it, fired)
      modifies this`list, this`table
      ensures Halfway(SweepOne(w, rest[0], now), rest[1..], next, more)
    {
      var spec := list[it];
      SplitConcat(w.kept, rest);
      assert rest == [spec] + rest[1..];
      ConcatAssoc(w.kept, [spec], rest[1..]);
      if spec.obj !in table { return it + 1, fired; }
      if spec.which !in table[spec.obj] { return it + 1, fired; }
      if DiffTime(spec.tv, now) < spec.term { return it + 1, fired; }
      Erase(it, spec.obj, spec.which);
      assert list == w.kept + rest[1..];
      return it, fired + [spec];
    }

    /** The loop of the sweep. */
    method SweepList(now: TimeVal) returns (fired: seq<Spec>)
      modifies this`list, this`table
      ensures Swept(fired, list, table) == SweepAll(old(list), old(table), now)
    {
      fired := [];
      ghost var all, n, w := list, 0, Swept([], [], table);
      var it: nat := 0;
      while it < |list|
        invariant n <= |all| && w == SweepAll(all[..n], old(table), now)
        invariant Halfway(w, all[n..], it, fired)
        decreases |all| - n
      {
        SweepNext(all, n, old(table), now);
        assert all[n..][0] == all[n] && all[n..][1..] == all[n + 1..];
        it, fired := Visit(it, now, fired, w, all[n..]);
        w, n := SweepOne(w, all[n], now), n + 1;
      }
      TakeAll(all);
      assert list == w.kept;
    }

    /** One pass of the timer thread. As long as all ids fit eight bits it fires
        exactly the due timers, once each and in list order, and keeps the others. */
    method Sweep(now: TimeVal) returns (fired: seq<Spec>)
      requires Sound()
      modifies this
      ensures Sound()
      ensures Swept(fired, list, table) == SweepAll(old(list), old(table), now)
      ensures old(Valid()) ==>
                Valid() && fired == Filter(old(list), now, true) && list == Filter(old(list), now, false)
    {
      SweepOfAgreeing(list, table, now);
      SweepOfSound(list, table, nextId, now);
      fired := SweepList(now);
    }
  }

  /** The list in the middle of a sweep. */
  lemma RestSplits(kept: seq<Spec>, all: seq<Spec>, n: nat)
    requires n < |all|
    ensures var l := kept + all[n..];
            && l[|kept|] == all[n] && l == kept + [all[n]] + all[n + 1..]
            && l[..|kept|] + l[|kept| + 1..] == kept + all[n + 1..]
  {
  }

  lemma SweepOfSound(list: seq<Spec>, table: Table, nextId: nat, now: TimeVal)
    requires SoundState(list, table, nextId)
    ensures var w := SweepAll(list, table, now); SoundState(w.kept, w.table, nextId)
  {
    SweepKeepsSound(list, table, nextId, now, |list|);
    TakeAll(list);
    var kept := SweepAll(list, table, now).kept;
    assert kept + list[|list|..] == kept;
  }

  lemma SweepOfAgreeing(list: seq<Spec>, table: Table, now: TimeVal)
    ensures var w := SweepAll(list, table, now);
            Agree(list, table) ==>
              w.fired == Filter(list, now, true) && w.kept == Filter(list, now, false) && Agree(w.kept, w.table)
  {
    if Agree(list, table) {
      SweepKeepsAgreement(list, table, now, |list|);
      SweepFilters(list, table, now, |list|);
      TakeAll(list);
      var kept := SweepAll(list, table, now).kept;
      assert kept + list[|list|..] == kept;
    }
  }

  lemma FilterNext(all: seq<Spec>, n: nat, now: TimeVal)
    requires n < |all|
    ensures Filter(all[..n + 1], now, true) ==
              if Due(all[n], now) then Filter(all[..n], now, true) + [all[n]] else Filter(all[..n], now, true)
    ensures Filter(all[..n + 1], now, false) ==
              if Due(all[n], now) then Filter(all[..n], now, false) else Filter(all[..n], now, false) + [all[n]]
  {
    assert all[..n + 1][..n] == all[..n];
  }

  // ---- Due times ----------------------------------------------------------

  /** A sweep at or after the start never fires a timer of `term` milliseconds
      within its first `term - 1` milliseconds, and every sweep from `term + 1`
      milliseconds on fires it. */
  lemma SweepIsOnTime(list: seq<Spec>, now: TimeVal, s: Spec)
    requires s in list
    ensures 0 <= Since(s.tv, now) <= (s.term - 1) * 1000 ==>
              s !in Filter(list, now, true) && s in Filter(list, now, false)
    ensures Since(s.tv, now) >= (s.term + 1) * 1000 ==>
              s in Filter(list, now, true) && s !in Filter(list, now, false)
  {
    DiffTimeIsClose(s.tv, now);
    FilterIsExact(list, now, s);
  }

  lemma {:induction false} FilterIsExact(list: seq<Spec>, now: TimeVal, s: Spec)
    ensures s in Filter(list, now, true) <==> s in list && Due(s, now)
    ensures s in Filter(list, now, false) <==> s in list && !Due(s, now)
  {
    if list != [] {
      var k := |list| - 1;
      FilterIsExact(list[..k], now, s);
      assert list == list[..k] + [list[k]];
    }
  }

  /** The second fraction runs against the whole seconds, by no whole number of
      milliseconds. */
  predicate RoundsUp(a: TimeVal, b: TimeVal) {
    && ((a.sec < b.sec && a.usec > b.usec) || (a.sec > b.sec && a.usec < b.usec))
    && (a.usec - b.usec) % 1000 != 0
  }

  predicate Normal(a: TimeVal) { 0 <= a.usec < 1_000_000 }

  /** `DIFFTIME` is the distance rounded to milliseconds, up exactly when the
      fractions run against the seconds; for a start not after now that is when
      the start has the larger fraction. */
  lemma DiffTimeExact(a: TimeVal, b: TimeVal)
    requires Normal(a) && Normal(b)
    ensures DiffTime(a, b) == if RoundsUp(a, b) then Distance(a, b) / 1000 + 1 else Distance(a, b) / 1000
    ensures 1000 * DiffTime(a, b) <= Distance(a, b) <==> !RoundsUp(a, b)
    ensures RoundsUp(a, b) ==> DiffTime(a, b) == (Distance(a, b) + 999) / 1000
    ensures a.sec < b.sec || (a.sec == b.sec && a.usec <= b.usec) ==>
              (RoundsUp(a, b) <==> a.usec > b.usec && (a.usec - b.usec) % 1000 != 0)
  {
  }

  /** When a sweep fires a timer before its term has passed. If the sweep reads its
      time at or after the start, exactly when the distance is rounded up and the
      rounded-up count is the term. If it reads it before the start, as it may
      because it does so before it takes the lock, exactly when the rounded
      distance reaches the term. */
  lemma FiresEarlyExactly(list: seq<Spec>, now: TimeVal, s: Spec)
    requires s in list && Normal(s.tv) && Normal(now)
    ensures var since := Since(s.tv, now);
            s.term >= 0 ==>
              (s in Filter(list, now, true) && since < 1000 * s.term <==>
                 if since >= 0 then RoundsUp(s.tv, now) && s.term == (since + 999) / 1000
                 else s.term <= -since / 1000 + if RoundsUp(s.tv, now) then 1 else 0)
    ensures s.term < 0 ==> s in Filter(list, now, true)
  {
    DiffTimeExact(s.tv, now);
    FilterIsExact(list, now, s);
  }

  /** A sweep never leaves a timer whose term has passed. */
  lemma NeverLate(list: seq<Spec>, now: TimeVal, s: Spec)
    requires s in list && Normal(s.tv) && Normal(now)
    ensures Since(s.tv, now) >= 1000 * s.term ==> s in Filter(list, now, true)
  {
    DiffTimeExact(s.tv, now);
    FilterIsExact(list, now, s);
  }

  /** This one-second timer fires 999 microseconds early. */
  lemma CanFireEarly()
    ensures var s := Spec(0, TimeVal(0, 999), 1000, 0, 0);
            var now := TimeVal(1, 0);
            Since(s.tv, now) == 999_001 && s in Filter([s], now, true)
  {
    var s := Spec(0, TimeVal(0, 999), 1000, 0, 0);
    FiresEarlyExactly([s], TimeVal(1, 0), s);
  }

  /** This two-millisecond timer fires in a sweep that read its time four
      milliseconds before the start. */
  lemma CanFireBeforeStart()
    ensures var s := Spec(0, TimeVal(0, 4000), 2, 0, 0);
            var now := TimeVal(0, 0);
            Since(s.tv, now) == -4000 && s in Filter([s], now, true)
  {
    var s := Spec(0, TimeVal(0, 4000), 2, 0, 0);
    FiresEarlyExactly([s], TimeVal(0, 0), s);
  }

  // ---- Runs ---------------------------------------------------------------

  datatype Event =
    | Start(obj: Obj, msecs: int, which: int, now: TimeVal)
    | Stop(obj: Obj, which: int)
    | Tick(now: TimeVal)

  lemma {:induction false} PendingConcat(a: seq<Spec>, b: seq<Spec>, obj: Obj, which: int)
    ensures Pending(a + b, obj, which) == Pending(a, obj, which) + Pending(b, obj, which)
  {
    if b == [] {
      assert a + b == a;
    } else {
      assert (a + b)[..|a + b| - 1] == a + b[..|b| - 1];
      PendingConcat(a, b[..|b| - 1], obj, which);
    }
  }

  lemma PendingRemove(list: seq<Spec>, i: nat, obj: Obj, which: int)
    requires i < |list|
    ensures Pending(list, obj, which)
            == Pending(list[..i] + list[i + 1..], obj, which) + if HasKey(list[i], obj, which) then 1 else 0
  {
    PendingConcat(list[..i], list[i + 1..], obj, which);
    PendingAppend(list[..i], list[i], obj, which);
    TakeSnoc(list, i);
    PendingConcat(list[..i + 1], list[i + 1..], obj, which);
    assert list == list[..i + 1] + list[i + 1..];
  }

  lemma {:induction false} SweepSplitsPending(list: seq<Spec>, table: Table, now: TimeVal, obj: Obj, which: int)
    ensures var w := SweepAll(list, table, now);
            Pending(list, obj, which) == Pending(w.fired, obj, which) + Pending(w.kept, obj, which)
  {
    if list != [] {
      var k := |list| - 1;
      var w := SweepAll(list[..k], table, now);
      SweepSplitsPending(list[..k], table, now, obj, which);
      PendingAppend(w.fired, list[k], obj, which);
      PendingAppend(w.kept, list[k], obj, which);
    }
  }

  // ---- One key at a time --------------------------------------------------

  /** What the callers of one key see: no timer, or one that runs. */
  datatype Key = Off | On(start: TimeVal, term: int)

  predicate Starts(k: Key, e: Event, obj: Obj, which: int) { k.Off? && e.Start? && e.obj == obj && e.which == which }
  predicate Stops(k: Key, e: Event, obj: Obj, which: int) { k.On? && e.Stop? && e.obj == obj && e.which == which }
  predicate Fires(k: Key, e: Event) { k.On? && e.Tick? && DiffTime(k.start, e.now) >= k.term }

  /** A timer starts if none runs, and runs until it is stopped or a sweep finds it due. */
  function KeyStep(k: Key, e: Event, obj: Obj, which: int): Key {
    if Starts(k, e, obj, which) then On(e.now, e.msecs)
    else if Stops(k, e, obj, which) || Fires(k, e) then Off
    else k
  }

  function KeyAfter(run: seq<Event>, obj: Obj, which: int): Key {
    if run == [] then Off else KeyStep(KeyAfter(run[..|run| - 1], obj, which), run[|run| - 1], obj, which)
  }

  /** How many timers of one key a run starts, stops and fires. */
  function KeyStarts(run: seq<Event>, obj: Obj, which: int): nat {
    if run == [] then 0
    else
      var before := run[..|run| - 1];
      KeyStarts(before, obj, which) + One(Starts(KeyAfter(before, obj, which), run[|run| - 1], obj, which))
  }

  function KeyStops(run: seq<Event>, obj: Obj, which: int): nat {
    if run == [] then 0
    else
      var before := run[..|run| - 1];
      KeyStops(before, obj, which) + One(Stops(KeyAfter(before, obj, which), run[|run| - 1], obj, which))
  }

  function KeyFires(run: seq<Event>, obj: Obj, which: int): nat {
    if run == [] then 0
    else
      var before := run[..|run| - 1];
      KeyFires(before, obj, which) + One(Fires(KeyAfter(before, obj, which), run[|run| - 1]))
  }

  lemma CountsNext(run: seq<Event>, i: nat, obj: Obj, which: int)
    requires i < |run|
    ensures var k := KeyAfter(run[..i], obj, which);
            && KeyAfter(run[..i + 1], obj, which) == KeyStep(k, run[i], obj, which)
            && KeyStarts(run[..i + 1], obj, which)
               == KeyStarts(run[..i], obj, which) + One(Starts(k, run[i], obj, which))
            && KeyStops(run[..i + 1], obj, which) == KeyStops(run[..i], obj, which) + One(Stops(k, run[i], obj, which))
            && KeyFires(run[..i + 1], obj, which) == KeyFires(run[..i], obj, which) + One(Fires(k, run[i]))
  {
    assert run[..i + 1][..i] == run[..i];
  }

  /** The same read off the map. */
  function KeyOf(table: Table, obj: Obj, which: int): Key {
    if which in Inner(table, obj) then On(table[obj][which].tv, table[obj][which].term) else Off
  }

  lemma AddedKey(table: Table, o: Obj, w: int, s: Spec, obj: Obj, which: int)
    ensures KeyOf(AddToTable(table, o, w, s), obj, which)
            == if o == obj && w == which then On(s.tv, s.term) else KeyOf(table, obj, which)
  {
  }

  lemma RemovedKey(table: Table, o: Obj, w: int, obj: Obj, which: int)
    requires o in table
    ensures KeyOf(RemoveFromTable(table, o, w), obj, which)
            == if o == obj && w == which then Off else KeyOf(table, obj, which)
  {
    if o == obj && which in table[o] && which != w { assert which in table[o] - {w}; }
  }

  /** A sweep of an agreeing list and map, for one key. */
  lemma SweptKey(list: seq<Spec>, table: Table, now: TimeVal, obj: Obj, which: int)
    requires Agree(list, table)
    ensures var w, k := SweepAll(list, table, now), KeyOf(table, obj, which);
            && KeyOf(w.table, obj, which) == KeyStep(k, Tick(now), obj, which)
            && Pending(w.fired, obj, which) == One(Fires(k, Tick(now)))
  {
    var w := SweepAll(list, table, now);
    SweepOfAgreeing(list, table, now);
    KeptKeys(list, table, now, w, obj, which);
    SweepSplitsPending(list, table, now, obj, which);
    TableIffPending(list, table, obj, which);
    TableIffPending(w.kept, w.table, obj, which);
  }

  /** One call or sweep; what it started, stopped and fired under a cut key is the
      change of the list, and `stale` is one for a stop that finds a stale timer. While
      list and map agree, each key behaves as if it were alone. */
  method Handle(timer: GlobalTimer, e: Event, obj: Obj, which: int)
    returns (starts: nat, stops: nat, fires: nat, stale: nat)
    requires timer.Sound()
    modifies timer
    ensures timer.Sound()
    ensures Pending(timer.list, obj, which) == old(Pending(timer.list, obj, which)) + starts - stops - fires
    ensures e.Start? ==> starts == One(e.obj == obj && Narrow(e.which) == which
                                       && e.which !in Inner(old(timer.table), e.obj))
    ensures e.Stop? ==>
              && stale == One(e.which in Inner(old(timer.table), e.obj)
                              && old(timer.table)[e.obj][e.which] !in old(timer.list))
              && stops == One(e.obj == obj && Narrow(e.which) == which && e.which in Inner(old(timer.table), e.obj)
                              && stale == 0)
    ensures e.Tick? ==> fires == Pending(SweepAll(old(timer.list), old(timer.table), e.now).fired, obj, which)
    ensures !e.Start? ==> starts == 0
    ensures !e.Stop? ==> stops == 0 && stale == 0
    ensures !e.Tick? ==> fires == 0
    ensures old(timer.Valid()) && (e.Start? ==> 0 <= e.which < 256) ==>
              timer.Valid() && stale == 0 && Alone(old(timer.table), timer.table, e, obj, which, starts, stops, fires)
  {
    starts, stops, fires, stale := 0, 0, 0, 0;
    match e {
      case Start(o, msecs, w, now) =>
        starts := HandleStart(timer, o, msecs, w, now, obj, which);
      case Stop(o, w) =>
        stops, stale := HandleStop(timer, o, w, obj, which);
      case Tick(now) =>
        SweepSplitsPending(timer.list, timer.table, now, obj, which);
        if Agree(timer.list, timer.table) { SweptKey(timer.list, timer.table, now, obj, which); }
        var fired := timer.Sweep(now);
        fires := Pending(fired, obj, which);
    }
  }

  /** One event, seen from one key. */
  ghost predicate Alone(before: Table, after: Table, e: Event, obj: Obj, which: int,
                        starts: nat, stops: nat, fires: nat)
  {
    var k := KeyOf(before, obj, which);
    && KeyOf(after, obj, which) == KeyStep(k, e, obj, which)
    && starts == One(Starts(k, e, obj, which)) && stops == One(Stops(k, e, obj, which)) && fires == One(Fires(k, e))
  }

  method HandleStart(timer: GlobalTimer, o: Obj, msecs: int, w: int, now: TimeVal, obj: Obj, which: int)
    returns (starts: nat)
    requires timer.Sound()
    modifies timer
    ensures timer.Sound()
    ensures Pending(timer.list, obj, which) == old(Pending(timer.list, obj, which)) + starts
    ensures starts == One(o == obj && Narrow(w) == which && w !in Inner(old(timer.table), o))
    ensures old(timer.Valid()) && 0 <= w < 256 ==>
              timer.Valid() && Alone(old(timer.table), timer.table, Start(o, msecs, w, now), obj, which, starts, 0, 0)
  {
    ghost var was, table := timer.list, timer.table;
    var ok := timer.AddElement(o, msecs, w, now);
    if !ok { return 0; }
    PendingAppend(was, timer.list[|was|], obj, which);
    StartedKey(table, o, w, timer.list[|was|], obj, which);
    starts := if o == obj && Narrow(w) == which then 1 else 0;
  }

  lemma StartedKey(table: Table, o: Obj, w: int, s: Spec, obj: Obj, which: int)
    requires w !in Inner(table, o)
    ensures var after := AddToTable(table, o, w, s);
            0 <= w < 256 ==>
              Alone(table, after, Start(o, s.term, w, s.tv), obj, which,
                    if o == obj && Narrow(w) == which then 1 else 0, 0, 0)
  {
    AddedKey(table, o, w, s, obj, which);
  }

  method HandleStop(timer: GlobalTimer, o: Obj, w: int, obj: Obj, which: int) returns (stops: nat, stale: nat)
    requires timer.Sound()
    modifies timer
    ensures timer.Sound()
    ensures Pending(timer.list, obj, which) == old(Pending(timer.list, obj, which)) - stops
    ensures stale == One(w in Inner(old(timer.table), o) && old(timer.table)[o][w] !in old(timer.list))
    ensures stops == One(o == obj && Narrow(w) == which && w in Inner(old(timer.table), o) && stale == 0)
    ensures old(timer.Valid()) ==>
              timer.Valid() && stale == 0 && Alone(old(timer.table), timer.table, Stop(o, w), obj, which, 0, stops, 0)
  {
    ghost var was, table := timer.list, timer.table;
    var ok, late, at := timer.RemoveElement(o, w);
    if !ok { return 0, 0; }
    StoppedKey(table, o, w, obj, which);
    if late { return 0, 1; }
    PendingRemove(was, at, obj, which);
    return if o == obj && Narrow(w) == which then 1 else 0, 0;
  }

  lemma StoppedKey(table: Table, o: Obj, w: int, obj: Obj, which: int)
    requires w in Inner(table, o)
    ensures var after := RemoveFromTable(table, o, w);
            0 <= w < 256 ==>
              Alone(table, after, Stop(o, w), obj, which, 0, if o == obj && Narrow(w) == which then 1 else 0, 0)
  {
    RemovedKey(table, o, w, obj, which);
  }

  /** Any sequence of calls and sweeps on one `GlobalTimer`, with any ids. For every
      object and cut id, each successful start is still listed, was stopped, or has
      fired, exactly once. While all ids fit eight bits the map agrees with the list,
      at most one timer per key is pending, and no stop finds a stale timer. */
  method RunTimers(run: seq<Event>, obj: Obj, which: int)
    returns (timer: GlobalTimer, starts: nat, stops: nat, fires: nat, stale: nat)
    ensures timer.Sound()
    ensures starts == fires + stops + Pending(timer.list, obj, which)
    ensures (forall e :: e in run && e.Start? ==> 0 <= e.which < 256) ==>
              && timer.Valid() && Pending(timer.list, obj, which) <= 1 && stale == 0
              && KeyOf(timer.table, obj, which) == KeyAfter(run, obj, which)
              && starts == KeyStarts(run, obj, which) && stops == KeyStops(run, obj, which)
              && fires == KeyFires(run, obj, which)
  {
    timer := new GlobalTimer();
    starts, stops, fires, stale := 0, 0, 0, 0;
    ghost var narrow := forall e :: e in run && e.Start? ==> 0 <= e.which < 256;
    for i := 0 to |run|
      invariant fresh(timer) && timer.Sound() && (narrow ==> timer.Valid() && stale == 0)
      invariant starts == fires + stops + Pending(timer.list, obj, which)
      invariant narrow ==> && KeyOf(timer.table, obj, which) == KeyAfter(run[..i], obj, which)
                           && starts == KeyStarts(run[..i], obj, which) && stops == KeyStops(run[..i], obj, which)
                           && fires == KeyFires(run[..i], obj, which)
    {
      assert run[i] in run;
      CountsNext(run, i, obj, which);
      var a, b, c, d := Handle(timer, run[i], obj, which);
      starts, stops, fires, stale := starts + a, stops + b, fires + c, stale + d;
    }
    TakeAll(run);
    if narrow { TableIffPending(timer.list, timer.table, obj, which); }
  }
}
